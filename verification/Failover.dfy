/** Executing a task: route it, then try the eligible candidates in routing order until one succeeds.

An adapter is an oracle that answers or raises a provider error. Identifiers are arbitrary
functions of their parts; time is in whole seconds.
 */
module Failover {
  import opened Wrappers
  import opened Router
  import Circuit
  import Performance

  datatype Invocation = Invocation(output: string, cost: Option<nat>)

  datatype AdapterError = AdapterError(kind: string, message: string, retryable: bool)

  datatype Attempt = Attempt(
    attemptId: string, providerId: string, modelId: string, agentId: string,
    outcome: Result<Invocation, AdapterError>, startedAt: int, finishedAt: int)
  {
    predicate Succeeded() { outcome.Ok? }
  }

  datatype Receipt = Receipt(
    receiptId: string, taskId: string, decisionId: string, attempts: seq<Attempt>,
    succeeded: bool, result: Option<Invocation>)

  datatype ExecutionError = NoEligibleRoute(reasons: seq<string>) | SyntheticObservations

  /** How identifiers are formed: a decision from the request and the registry, an attempt from the
      decision, the provider and its position, an observation from the attempt and a capability. */
  datatype Ids = Ids(
    decision: (Request, string) -> string,
    attempt: (string, string, nat) -> string,
    receipt: string -> string,
    observation: (string, string) -> string)

  /** What the outside world answers during one call: the adapter's answer to the i-th attempt and
      the time at which that attempt ends. */
  datatype World = World(answer: (string, string, nat) -> Result<Invocation, AdapterError>, clock: nat -> int)

  datatype Env = Env(ids: Ids, world: World, adapters: set<string>, models: map<string, Model>, decisionId: string, now: int)

  //
  // The specification.
  //

  /** The candidates that can be tried at all. */
  function Equipped(adapters: set<string>, s: seq<Candidate>): (r: seq<Candidate>)
    ensures forall x :: x in r <==> x in s && x.adapterId in adapters
  {
    if s == [] then []
    else Equipped(adapters, s[..|s|-1]) + if s[|s|-1].adapterId in adapters then [s[|s|-1]] else []
  }

  function ModelName(e: Env, modelId: string): string {
    if modelId in e.models then e.models[modelId].providerModelName else ""
  }

  function AttemptAt(e: Env, c: Candidate, i: nat): Attempt {
    Attempt(e.ids.attempt(e.decisionId, c.providerId, i), c.providerId, c.modelId, c.agentId,
            e.world.answer(c.adapterId, ModelName(e, c.modelId), i), e.now, e.world.clock(i))
  }

  /** `attempts` are the candidates of `queue` in order, up to and including the first success. */
  ghost predicate UpToFirstSuccess(e: Env, queue: seq<Candidate>, attempts: seq<Attempt>) {
    && |attempts| <= |queue|
    && (forall i :: 0 <= i < |attempts| ==> attempts[i] == AttemptAt(e, queue[i], i))
    && (forall i :: 0 <= i < |attempts| - 1 ==> !attempts[i].Succeeded())
    && (|attempts| < |queue| ==> attempts != [] && attempts[|attempts|-1].Succeeded())
  }

  lemma UpToFirstSuccessUnique(e: Env, queue: seq<Candidate>, a: seq<Attempt>, b: seq<Attempt>)
    requires UpToFirstSuccess(e, queue, a) && UpToFirstSuccess(e, queue, b)
    ensures a == b
  {
    assert |a| == |b|;
  }

  /** What the attempts mean for the breaker of one provider. */
  function EventsOf(attempts: seq<Attempt>, id: string): seq<Circuit.Event> {
    if attempts == [] then []
    else
      var front, a := EventsOf(attempts[..|attempts|-1], id), attempts[|attempts|-1];
      if a.providerId != id then front
      else front + [match a.outcome
                    case Ok(_) => Circuit.Success(a.finishedAt)
                    case Err(x) => Circuit.Failure(a.finishedAt, x.kind)]
  }

  /** How many of the attempts before `i` were made with this provider. */
  ghost function CountBefore(attempts: seq<Attempt>, id: string, i: nat): nat
    requires i <= |attempts|
  {
    if i == 0 then 0 else CountBefore(attempts, id, i - 1) + if attempts[i-1].providerId == id then 1 else 0
  }

  lemma {:induction false} CountBeforePrefix(attempts: seq<Attempt>, id: string, n: nat, i: nat)
    requires i <= n <= |attempts|
    ensures CountBefore(attempts[..n], id, i) == CountBefore(attempts, id, i)
  {
    if i > 0 { CountBeforePrefix(attempts, id, n, i - 1); }
  }

  /** The events of a provider are the outcomes of its attempts, one each and in order, at the time the
      attempt ended and with the kind of its error. */
  lemma {:induction false} EventsReport(attempts: seq<Attempt>, id: string, i: nat)
    requires i < |attempts|
    ensures |EventsOf(attempts, id)| == CountBefore(attempts, id, |attempts|)
    ensures attempts[i].providerId == id ==>
              && CountBefore(attempts, id, i) < |EventsOf(attempts, id)|
              && var e := EventsOf(attempts, id)[CountBefore(attempts, id, i)];
                 && e.at == attempts[i].finishedAt
                 && (attempts[i].outcome.Ok? ==> e.Success?)
                 && (attempts[i].outcome.Err? ==> e.Failure? && e.reason == attempts[i].outcome.error.kind)
  {
    var n := |attempts| - 1;
    CountBeforePrefix(attempts, id, n, n);
    CountBeforePrefix(attempts, id, n, if i < n then i else n);
    if i < n {
      EventsReport(attempts[..n], id, i);
    } else if n > 0 {
      EventsReport(attempts[..n], id, 0);
    }
  }

  function BreakerBefore(records: map<string, Circuit.Record>, id: string, now: int): Circuit.Record {
    if id in records then records[id] else Circuit.Fresh(id, now)
  }

  function BreakerAfter(records: map<string, Circuit.Record>, p: Circuit.Policy, attempts: seq<Attempt>, id: string, now: int): Circuit.Record {
    Circuit.Replay(Circuit.Permits, p, BreakerBefore(records, id, now), EventsOf(attempts, id))
  }

  predicate Tried(attempts: seq<Attempt>, id: string) {
    exists i :: 0 <= i < |attempts| && attempts[i].providerId == id
  }

  /** The saved breakers after the attempts: the fold of this call's outcomes for every provider
      that was tried, and what was there before for every other. */
  ghost predicate BreakersSaved(before: map<string, Circuit.Record>, after: map<string, Circuit.Record>,
                                records: map<string, Circuit.Record>, p: Circuit.Policy, attempts: seq<Attempt>, now: int)
  {
    forall id :: if Tried(attempts, id)
                 then id in after && after[id] == BreakerAfter(records, p, attempts, id, now)
                 else (id in after <==> id in before) && (id in before ==> after[id] == before[id])
  }

  datatype Saved = Saved(id: string, observation: Performance.Observation)

  function ObservationOf(ids: Ids, a: Attempt, capability: string): Saved {
    Saved(ids.observation(a.attemptId, capability),
          Performance.Observation(a.agentId, capability, a.Succeeded(),
                                  if a.finishedAt < a.startedAt then 0 else (a.finishedAt - a.startedAt) * 1000,
                                  if a.outcome.Ok? then a.outcome.value.cost else None,
                                  500, a.finishedAt, false))
  }

  function ForAttempt(ids: Ids, a: Attempt, caps: seq<string>): seq<Saved> {
    seq(|caps|, i requires 0 <= i < |caps| => ObservationOf(ids, a, caps[i]))
  }

  /** One observation per attempt and required capability. */
  function ObservationsOf(ids: Ids, attempts: seq<Attempt>, caps: seq<string>): seq<Saved> {
    if attempts == [] then []
    else ObservationsOf(ids, attempts[..|attempts|-1], caps) + ForAttempt(ids, attempts[|attempts|-1], caps)
  }

  lemma {:induction false} ObservationCount(ids: Ids, attempts: seq<Attempt>, caps: seq<string>)
    ensures |ObservationsOf(ids, attempts, caps)| == |attempts| * |caps|
  {
    if attempts != [] {
      ObservationCount(ids, attempts[..|attempts|-1], caps);
      assert |attempts| * |caps| == (|attempts| - 1) * |caps| + |caps|;
    }
  }

  /** An observation the router accepts: inside its ranges and not synthetic. */
  lemma {:induction false} ObservationsRoutable(ids: Ids, attempts: seq<Attempt>, caps: seq<string>)
    ensures forall s :: s in ObservationsOf(ids, attempts, caps) ==> s.observation.Valid() && !s.observation.synthetic
  {
    if attempts != [] {
      ObservationsRoutable(ids, attempts[..|attempts|-1], caps);
    }
  }

  /** A saved observation reports the agent, the outcome, the time taken and the cost of one of the
      attempts, for one of the capabilities. */
  ghost predicate Reports(a: Attempt, capability: string, o: Performance.Observation) {
    && o.targetId == a.agentId && o.capabilityId == capability && o.observedAt == a.finishedAt
    && (o.success <==> a.outcome.Ok?)
    && o.cost == (match a.outcome case Ok(x) => x.cost case Err(_) => None)
    && (if a.finishedAt >= a.startedAt then o.latencyMs == 1000 * (a.finishedAt - a.startedAt) else o.latencyMs == 0)
    && o.qualityMilli == 500 && !o.synthetic
  }

  lemma {:induction false} ObservationsReport(ids: Ids, attempts: seq<Attempt>, caps: seq<string>, i: nat, k: nat)
    requires i < |attempts| && k < |caps|
    ensures i * |caps| + k < |ObservationsOf(ids, attempts, caps)|
    ensures var s := ObservationsOf(ids, attempts, caps)[i * |caps| + k];
            Reports(attempts[i], caps[k], s.observation) && s.id == ids.observation(attempts[i].attemptId, caps[k])
  {
    var n := |attempts| - 1;
    ObservationCount(ids, attempts[..n], caps);
    if i < n {
      ObservationsReport(ids, attempts[..n], caps, i, k);
    }
  }

  function Overwrite(table: map<string, Performance.Observation>, saves: seq<Saved>): map<string, Performance.Observation> {
    if saves == [] then table
    else Overwrite(table, saves[..|saves|-1])[saves[|saves|-1].id := saves[|saves|-1].observation]
  }

  lemma OverwriteSnoc(table: map<string, Performance.Observation>, saves: seq<Saved>, s: Saved)
    ensures Overwrite(table, saves + [s]) == Overwrite(table, saves)[s.id := s.observation]
  {
    assert (saves + [s])[..|saves|] == saves;
  }

  //
  // The store and the service.
  //

  /** The contents of the store. */
  datatype Tables = Tables(
    decisions: map<string, Decision>,
    circuits: map<string, Circuit.Record>,
    receipts: map<string, Receipt>,
    observations: map<string, Performance.Observation>)

  class Store {
    var decisions: map<string, Decision>
    var circuits: map<string, Circuit.Record>
    var receipts: map<string, Receipt>
    var observations: map<string, Performance.Observation>

    constructor ()
      ensures decisions == map[] && circuits == map[] && receipts == map[] && observations == map[]
    {
      decisions, circuits, receipts, observations := map[], map[], map[], map[];
    }

    function View(): Tables
      reads this
    {
      Tables(decisions, circuits, receipts, observations)
    }
  }

  /** How far the loop is after the candidates `seen`. */
  ghost predicate Progress(e: Env, seen: seq<Candidate>, attempts: seq<Attempt>, result: Option<Invocation>) {
    var queue := Equipped(e.adapters, seen);
    && UpToFirstSuccess(e, queue, attempts)
    && (result.None? ==> |attempts| == |queue|)
    && (result.Some? <==> attempts != [] && attempts[|attempts|-1].Succeeded())
    && (result.Some? ==> attempts[|attempts|-1].outcome == Ok(result.value))
  }

  lemma ProgressSkip(e: Env, seen: seq<Candidate>, c: Candidate, attempts: seq<Attempt>)
    requires Progress(e, seen, attempts, None) && c.adapterId !in e.adapters
    ensures Progress(e, seen + [c], attempts, None)
  {
    assert (seen + [c])[..|seen|] == seen;
    assert Equipped(e.adapters, seen + [c]) == Equipped(e.adapters, seen);
  }

  lemma ProgressTry(e: Env, seen: seq<Candidate>, c: Candidate, attempts: seq<Attempt>)
    requires Progress(e, seen, attempts, None) && c.adapterId in e.adapters
    ensures var a := AttemptAt(e, c, |attempts|);
            Progress(e, seen + [c], attempts + [a], if a.outcome.Ok? then Some(a.outcome.value) else None)
  {
    assert (seen + [c])[..|seen|] == seen;
    assert Equipped(e.adapters, seen + [c]) == Equipped(e.adapters, seen) + [c];
    Extend(e, Equipped(e.adapters, seen), c, attempts);
  }

  lemma Extend(e: Env, queue: seq<Candidate>, next: Candidate, attempts: seq<Attempt>)
    requires |attempts| == |queue| && UpToFirstSuccess(e, queue, attempts)
    requires attempts != [] ==> !attempts[|attempts|-1].Succeeded()
    ensures UpToFirstSuccess(e, queue + [next], attempts + [AttemptAt(e, next, |attempts|)])
  {
    var q, a := queue + [next], attempts + [AttemptAt(e, next, |attempts|)];
    forall i | 0 <= i < |a| ensures a[i] == AttemptAt(e, q[i], i) {
      if i < |attempts| { assert a[i] == attempts[i] && q[i] == queue[i]; }
    }
    forall i | 0 <= i < |a| - 1 ensures !a[i].Succeeded() { assert a[i] == attempts[i]; }
  }

  /** After a success the remaining candidates are not tried. */
  lemma {:induction false} ProgressStops(e: Env, seen: seq<Candidate>, rest: seq<Candidate>, attempts: seq<Attempt>, r: Invocation)
    requires Progress(e, seen, attempts, Some(r))
    ensures Progress(e, seen + rest, attempts, Some(r))
  {
    if rest == [] {
      assert seen + rest == seen;
    } else {
      var front := seen + rest[..|rest|-1];
      ProgressStops(e, seen, rest[..|rest|-1], attempts, r);
      assert (seen + rest)[..|seen + rest|-1] == front;
    }
  }

  lemma BreakersExtend(before: map<string, Circuit.Record>, saved: map<string, Circuit.Record>,
                       records: map<string, Circuit.Record>, p: Circuit.Policy, attempts: seq<Attempt>, a: Attempt, now: int)
    requires BreakersSaved(before, saved, records, p, attempts, now)
    ensures BreakersSaved(before, saved[a.providerId := BreakerAfter(records, p, attempts + [a], a.providerId, now)],
                          records, p, attempts + [a], now)
  {
    assert (attempts + [a])[..|attempts|] == attempts;
    forall id ensures Tried(attempts + [a], id) <==> Tried(attempts, id) || id == a.providerId {
      if Tried(attempts, id) {
        var i :| 0 <= i < |attempts| && attempts[i].providerId == id;
        assert (attempts + [a])[i].providerId == id;
      }
      if id == a.providerId { assert (attempts + [a])[|attempts|].providerId == id; }
    }
  }

  lemma BreakerStep(records: map<string, Circuit.Record>, p: Circuit.Policy, attempts: seq<Attempt>, a: Attempt, now: int)
    ensures BreakerAfter(records, p, attempts + [a], a.providerId, now) ==
            var r := BreakerAfter(records, p, attempts, a.providerId, now);
            match a.outcome
            case Ok(_) => Circuit.RecordSuccess(r, a.finishedAt)
            case Err(x) => Circuit.RecordFailure(Circuit.Permits, r, p, a.finishedAt, x.kind)
  {
    assert (attempts + [a])[..|attempts|] == attempts;
    var front := EventsOf(attempts, a.providerId);
    var all := EventsOf(attempts + [a], a.providerId);
    assert all[..|front|] == front;
  }

  /** The breakers the loop works with agree with the fold so far. */
  ghost predicate Live(circuitBy: map<string, Circuit.Record>, records: map<string, Circuit.Record>, p: Circuit.Policy,
                       attempts: seq<Attempt>, now: int)
  {
    forall id :: BreakerBefore(circuitBy, id, now) == BreakerAfter(records, p, attempts, id, now)
  }

  lemma LiveStep(circuitBy: map<string, Circuit.Record>, records: map<string, Circuit.Record>, p: Circuit.Policy,
                 attempts: seq<Attempt>, a: Attempt, now: int)
    requires Live(circuitBy, records, p, attempts, now)
    ensures Live(circuitBy[a.providerId := BreakerAfter(records, p, attempts + [a], a.providerId, now)], records, p, attempts + [a], now)
  {
    assert (attempts + [a])[..|attempts|] == attempts;
    var updated := circuitBy[a.providerId := BreakerAfter(records, p, attempts + [a], a.providerId, now)];
    forall id ensures BreakerBefore(updated, id, now) == BreakerAfter(records, p, attempts + [a], id, now) {
      if id != a.providerId {
        assert EventsOf(attempts + [a], id) == EventsOf(attempts, id);
        assert BreakerBefore(updated, id, now) == BreakerBefore(circuitBy, id, now);
      }
    }
  }

  class Service {
    const registry: Registry
    const adapters: set<string>
    const policy: Circuit.Policy
    const store: Store

    constructor (registry: Registry, adapters: set<string>, policy: Circuit.Policy, store: Store)
      ensures this.registry == registry && this.adapters == adapters && this.policy == policy && this.store == store
    {
      this.registry, this.adapters, this.policy, this.store := registry, adapters, policy, store;
    }

    /** One try: ask the adapter, update the breaker, save it. */
    method TryOne(e: Env, candidate: Candidate, records: map<string, Circuit.Record>, circuitBy: map<string, Circuit.Record>,
                  attempts: seq<Attempt>)
      returns (a: Attempt, updated: map<string, Circuit.Record>)
      requires Live(circuitBy, records, policy, attempts, e.now)
      modifies store`circuits
      ensures a == AttemptAt(e, candidate, |attempts|)
      ensures store.circuits == old(store.circuits)[a.providerId := BreakerAfter(records, policy, attempts + [a], a.providerId, e.now)]
      ensures !a.Succeeded() ==> Live(updated, records, policy, attempts + [a], e.now)
    {
      a, updated := AttemptAt(e, candidate, |attempts|), circuitBy;
      BreakerStep(records, policy, attempts, a, e.now);
      LiveStep(circuitBy, records, policy, attempts, a, e.now);
      var record := BreakerBefore(circuitBy, candidate.providerId, e.now);
      match a.outcome {
        case Ok(_) =>
          record := Circuit.RecordSuccess(record, a.finishedAt);
        case Err(error) =>
          record := Circuit.RecordFailure(Circuit.Permits, record, policy, a.finishedAt, error.kind);
          updated := circuitBy[candidate.providerId := record];
      }
      store.circuits := store.circuits[candidate.providerId := record];
    }

    /** One turn of the loop: skip a candidate without an adapter, try any other. */
    method Turn(e: Env, ghost seen: seq<Candidate>, candidate: Candidate, records: map<string, Circuit.Record>,
                circuitBy: map<string, Circuit.Record>, attempts: seq<Attempt>, ghost before: map<string, Circuit.Record>)
      returns (updated: map<string, Circuit.Record>, extended: seq<Attempt>, result: Option<Invocation>)
      requires e.adapters == adapters
      requires Progress(e, seen, attempts, None)
      requires Live(circuitBy, records, policy, attempts, e.now)
      requires BreakersSaved(before, store.circuits, records, policy, attempts, e.now)
      modifies store`circuits
      ensures Progress(e, seen + [candidate], extended, result)
      ensures result.None? ==> Live(updated, records, policy, extended, e.now)
      ensures BreakersSaved(before, store.circuits, records, policy, extended, e.now)
    {
      updated, extended, result := circuitBy, attempts, None;
      if candidate.adapterId !in adapters {
        ProgressSkip(e, seen, candidate, attempts);
        return;
      }
      ProgressTry(e, seen, candidate, attempts);
      ghost var saved := store.circuits;
      var a;
      a, updated := TryOne(e, candidate, records, circuitBy, attempts);
      BreakersExtend(before, saved, records, policy, attempts, a, e.now);
      extended := attempts + [a];
      result := if a.outcome.Ok? then Some(a.outcome.value) else None;
    }

    /** The failover loop. */
    method TryCandidates(e: Env, candidates: seq<Candidate>, records: map<string, Circuit.Record>)
      returns (attempts: seq<Attempt>, result: Option<Invocation>)
      requires e.adapters == adapters
      modifies store`circuits
      ensures Progress(e, candidates, attempts, result)
      ensures BreakersSaved(old(store.circuits), store.circuits, records, policy, attempts, e.now)
    {
      attempts, result := [], None;
      var circuitBy := records;
      ghost var before := store.circuits;
      var i := 0;
      while i < |candidates| && result.None?
        invariant 0 <= i <= |candidates|
        invariant Progress(e, candidates[..i], attempts, result)
        invariant result.None? ==> Live(circuitBy, records, policy, attempts, e.now)
        invariant BreakersSaved(before, store.circuits, records, policy, attempts, e.now)
      {
        assert candidates[..i+1] == candidates[..i] + [candidates[i]];
        circuitBy, attempts, result := Turn(e, candidates[..i], candidates[i], records, circuitBy, attempts, before);
        i := i + 1;
      }
      assert candidates[..i] + candidates[i..] == candidates;
      if result.Some? {
        ProgressStops(e, candidates[..i], candidates[i..], attempts, result.value);
      } else {
        assert candidates[..i] == candidates;
      }
    }

    method SaveRow(ids: Ids, a: Attempt, caps: seq<string>, ghost start: map<string, Performance.Observation>, ghost done: seq<Saved>)
      requires store.observations == Overwrite(start, done)
      modifies store`observations
      ensures store.observations == Overwrite(start, done + ForAttempt(ids, a, caps))
    {
      ghost var row := ForAttempt(ids, a, caps);
      assert done + row[..0] == done;
      for j := 0 to |caps|
        invariant store.observations == Overwrite(start, done + row[..j])
      {
        var s := ObservationOf(ids, a, caps[j]);
        OverwriteSnoc(start, done + row[..j], s);
        assert done + row[..j+1] == (done + row[..j]) + [s];
        store.observations := store.observations[s.id := s.observation];
      }
      assert row[..|caps|] == row;
    }

    /** Saves one observation per attempt and required capability. */
    method SaveObservations(ids: Ids, attempts: seq<Attempt>, caps: seq<string>)
      modifies store`observations
      ensures store.observations == Overwrite(old(store.observations), ObservationsOf(ids, attempts, caps))
    {
      ghost var start := store.observations;
      for i := 0 to |attempts|
        invariant store.observations == Overwrite(start, ObservationsOf(ids, attempts[..i], caps))
      {
        assert attempts[..i+1][..i] == attempts[..i];
        SaveRow(ids, attempts[i], caps, start, ObservationsOf(ids, attempts[..i], caps));
      }
      assert attempts[..|attempts|] == attempts;
    }

    /** The whole call. */
    method Execute(request: Request, states: seq<StateObservation>, records: seq<Circuit.Record>,
                   obs: seq<Performance.Observation>, now: int, ids: Ids, world: World)
      returns (r: Result<Receipt, ExecutionError>)
      modifies store
      ensures (exists o :: o in obs && o.synthetic) ==> r.Err? && store.View() == old(store.View())
      ensures !(exists o :: o in obs && o.synthetic) ==>
                var d := Decide(ContextOf(request, registry, states, records, obs, policy, now), registry.agents);
                var decisionId := ids.decision(request, registry.registryId);
                && (r.Err? <==> d.selected.None?)
                && (r.Err? ==> r.error == NoEligibleRoute(d.noRouteReasons))
                && (r.Err? ==> store.View() == old(store.View()).(decisions := old(store.decisions)[decisionId := d]))
                && (r.Ok? ==>
                      Served(EnvOf(ids, world, adapters, registry, decisionId, now), request, d,
                             ById(records), policy, old(store.View()), store.View(), r.value))
    {
      var routed := Route(request, registry, states, records, obs, policy, now);
      if routed.Err? {
        return Err(SyntheticObservations);
      }
      var decision, decisionId := routed.value, ids.decision(request, registry.registryId);
      store.decisions := store.decisions[decisionId := decision];
      if decision.selected.None? {
        return Err(NoEligibleRoute(decision.noRouteReasons));
      }
      var e := EnvOf(ids, world, adapters, registry, decisionId, now);
      var receipt := Serve(e, request, decision, ById(records));
      return Ok(receipt);
    }

    /** What follows a decision that selected somebody. */
    method Serve(e: Env, request: Request, decision: Decision, byId: map<string, Circuit.Record>) returns (receipt: Receipt)
      requires e.adapters == adapters
      modifies store
      ensures Served(e, request, decision, byId, policy,
                     old(store.View()), store.View().(decisions := store.decisions[e.decisionId := decision]), receipt)
      ensures store.decisions == old(store.decisions)
    {
      var attempts, result := TryCandidates(e, Eligible(decision.candidates), byId);
      receipt := Receipt(e.ids.receipt(e.decisionId), request.taskId, e.decisionId, attempts, result.Some?, result);
      store.receipts := store.receipts[receipt.receiptId := receipt];
      SaveObservations(e.ids, attempts, request.requiredCapabilities);
    }
  }

  function EnvOf(ids: Ids, world: World, adapters: set<string>, registry: Registry, decisionId: string, now: int): Env {
    Env(ids, world, adapters, IndexBy(registry.models, ModelKey), decisionId, now)
  }

  function ById(records: seq<Circuit.Record>): map<string, Circuit.Record> {
    IndexBy(records, RecordKey)
  }

  /** The breaker a call starts from is the last record given for the provider, and the model it names to
      an adapter is the last one registered under the id. */
  lemma TablesHoldLast(ids: Ids, world: World, adapters: set<string>, registry: Registry, decisionId: string, now: int,
                       records: seq<Circuit.Record>, k: string)
    ensures var e := EnvOf(ids, world, adapters, registry, decisionId, now);
            && e.ids == ids && e.world == world && e.adapters == adapters && e.decisionId == decisionId && e.now == now
            && (k in e.models <==> exists x :: x in registry.models && x.modelId == k)
            && (k in e.models ==> exists i :: 0 <= i < |registry.models| && registry.models[i] == e.models[k]
                                    && registry.models[i].modelId == k
                                    && forall j :: i < j < |registry.models| ==> registry.models[j].modelId != k)
    ensures k in ById(records) <==> exists x :: x in records && x.providerId == k
    ensures k in ById(records) ==> exists i :: 0 <= i < |records| && records[i] == ById(records)[k] && records[i].providerId == k
                                      && forall j :: i < j < |records| ==> records[j].providerId != k
  {
    IndexByLast(registry.models, ModelKey, k);
    IndexByLast(records, RecordKey, k);
    if k in ById(records) {
      var i :| 0 <= i < |records| && RecordKey(records[i]) == k && ById(records)[k] == records[i]
               && forall j :: i < j < |records| ==> RecordKey(records[j]) != k;
      assert forall j :: i < j < |records| ==> records[j].providerId == RecordKey(records[j]);
    }
    var t := IndexBy(registry.models, ModelKey);
    if k in t {
      var i :| 0 <= i < |registry.models| && ModelKey(registry.models[i]) == k && t[k] == registry.models[i]
               && forall j :: i < j < |registry.models| ==> ModelKey(registry.models[j]) != k;
      assert forall j :: i < j < |registry.models| ==> registry.models[j].modelId == ModelKey(registry.models[j]);
    }
  }

  /** What one served call leaves behind. */
  ghost predicate Served(e: Env, request: Request, d: Decision, byId: map<string, Circuit.Record>, p: Circuit.Policy,
                         before: Tables, after: Tables, receipt: Receipt)
  {
    && Progress(e, Eligible(d.candidates), receipt.attempts, receipt.result)
    && receipt == Receipt(e.ids.receipt(e.decisionId), request.taskId, e.decisionId, receipt.attempts,
                          receipt.result.Some?, receipt.result)
    && after.decisions == before.decisions[e.decisionId := d]
    && BreakersSaved(before.circuits, after.circuits, byId, p, receipt.attempts, e.now)
    && after.receipts == before.receipts[receipt.receiptId := receipt]
    && after.observations ==
         Overwrite(before.observations, ObservationsOf(e.ids, receipt.attempts, request.requiredCapabilities))
  }

  lemma {:induction false} EquippedHead(adapters: set<string>, s: seq<Candidate>)
    requires s != [] && s[0].adapterId in adapters
    ensures Equipped(adapters, s) != [] && Equipped(adapters, s)[0] == s[0]
  {
    if |s| > 1 {
      EquippedHead(adapters, s[..|s|-1]);
    } else {
      assert s[..|s|-1] == [];
    }
  }

  /** What was tried: the eligible candidates with an adapter, in order, each attempt naming its own
      candidate and carrying what that candidate's adapter answered. */
  lemma AttemptsReport(e: Env, request: Request, d: Decision, byId: map<string, Circuit.Record>, p: Circuit.Policy,
                       before: Tables, after: Tables, receipt: Receipt, i: nat)
    requires Served(e, request, d, byId, p, before, after, receipt) && i < |receipt.attempts|
    ensures i < |Equipped(e.adapters, Eligible(d.candidates))|
    ensures var (a, c) := (receipt.attempts[i], Equipped(e.adapters, Eligible(d.candidates))[i]);
            && c in d.candidates && c.eligible && c.adapterId in e.adapters
            && a.providerId == c.providerId && a.modelId == c.modelId && a.agentId == c.agentId
            && a.startedAt == e.now && a.finishedAt == e.world.clock(i)
            && (c.modelId in e.models ==> a.outcome == e.world.answer(c.adapterId, e.models[c.modelId].providerModelName, i))
  {
    var queue := Equipped(e.adapters, Eligible(d.candidates));
    assert UpToFirstSuccess(e, queue, receipt.attempts);
    assert queue[i] in queue;
  }

  /** When the selected candidate has an adapter, it is the first to be tried; the fallbacks follow
      only if it fails. */
  lemma SelectedIsTriedFirst(e: Env, request: Request, d: Decision, byId: map<string, Circuit.Record>, p: Circuit.Policy,
                             before: Tables, after: Tables, receipt: Receipt)
    requires Served(e, request, d, byId, p, before, after, receipt)
    requires d.selected.Some? && d.selected == First(Eligible(d.candidates)) && d.selected.value.adapterId in e.adapters
    ensures receipt.attempts != [] && receipt.attempts[0] == AttemptAt(e, d.selected.value, 0)
    ensures receipt.attempts[0].Succeeded() ==> |receipt.attempts| == 1
  {
    EquippedHead(e.adapters, Eligible(d.candidates));
  }

  lemma LastSuccessCloses(byId: map<string, Circuit.Record>, p: Circuit.Policy, a: seq<Attempt>, now: int)
    requires a != [] && a[|a|-1].Succeeded()
    ensures var r := BreakerAfter(byId, p, a, a[|a|-1].providerId, now); r.state.Closed? && r.consecutiveFailures == 0
  {
    var front, last := a[..|a|-1], a[|a|-1];
    assert a == front + [last];
    BreakerStep(byId, p, front, last, now);
  }

  /** A call that succeeds leaves the breaker of the provider that answered closed and cleared. */
  lemma SuccessClosesBreaker(e: Env, request: Request, d: Decision, byId: map<string, Circuit.Record>, p: Circuit.Policy,
                             before: Tables, after: Tables, receipt: Receipt)
    requires Served(e, request, d, byId, p, before, after, receipt) && receipt.succeeded
    ensures receipt.attempts != []
    ensures var id := receipt.attempts[|receipt.attempts|-1].providerId;
            id in after.circuits && after.circuits[id].state.Closed? && after.circuits[id].consecutiveFailures == 0
  {
    assert Tried(receipt.attempts, receipt.attempts[|receipt.attempts|-1].providerId);
    LastSuccessCloses(byId, p, receipt.attempts, e.now);
  }

  /** A tried provider whose breaker had seen the events `h` leaves the call with a breaker that has
      seen `h` and then this call's outcomes, and satisfies the breaker's own invariant. */
  lemma BreakersStayConsistent(e: Env, request: Request, d: Decision, byId: map<string, Circuit.Record>, p: Circuit.Policy,
                               before: Tables, after: Tables, receipt: Receipt, id: string, t: int, h: seq<Circuit.Event>)
    requires Served(e, request, d, byId, p, before, after, receipt) && p.Valid() && Tried(receipt.attempts, id)
    requires BreakerBefore(byId, id, e.now) == Circuit.Replay(Circuit.Permits, p, Circuit.Fresh(id, t), h)
    ensures var all := h + EventsOf(receipt.attempts, id);
            && id in after.circuits
            && after.circuits[id] == Circuit.Replay(Circuit.Permits, p, Circuit.Fresh(id, t), all)
            && Circuit.Consistent(p, after.circuits[id], Circuit.FailuresSinceSuccess(all))
  {
    var events := EventsOf(receipt.attempts, id);
    Circuit.ReplayConcat(Circuit.Permits, p, Circuit.Fresh(id, t), h, events);
    Circuit.HistoryConsistent(Circuit.Permits, p, id, t, h + events);
  }
}
