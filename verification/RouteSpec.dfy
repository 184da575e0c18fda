/** What a routing call decides, said in the fields of what it is given: which agents are candidates,
which of them are eligible, when there is pressure, how the score weighs things and who is selected.
 */
module RouteSpec {
  import opened Wrappers
  import opened Ordering
  import opened Router
  import opened RouterProperties
  import Circuit
  import Performance

  /** What a routing call is given. */
  datatype Inputs = Inputs(
    request: Request, registry: Registry, states: seq<StateObservation>, records: seq<Circuit.Record>,
    obs: seq<Performance.Observation>, policy: Circuit.Policy, now: int)

  function ContextFor(i: Inputs): Context {
    ContextOf(i.request, i.registry, i.states, i.records, i.obs, i.policy, i.now)
  }

  //
  // The entry that counts under an id is the last one with it.
  //

  ghost predicate IsLast<T(!new)>(xs: seq<T>, has: T -> bool, x: T) {
    exists i :: 0 <= i < |xs| && xs[i] == x && has(x) && forall j :: i < j < |xs| ==> !has(xs[j])
  }

  ghost predicate LastProvider(i: Inputs, id: string, x: Provider) { IsLast(i.registry.providers, (y: Provider) => y.providerId == id, x) }
  ghost predicate LastModel(i: Inputs, id: string, x: Model) { IsLast(i.registry.models, (y: Model) => y.modelId == id, x) }
  ghost predicate LastPolicy(i: Inputs, id: string, x: RoutePolicy) { IsLast(i.registry.policies, (y: RoutePolicy) => y.capabilityId == id, x) }
  ghost predicate LastState(i: Inputs, id: string, x: StateObservation) { IsLast(i.states, (y: StateObservation) => y.providerId == id, x) }
  ghost predicate LastRecord(i: Inputs, id: string, x: Circuit.Record) { IsLast(i.records, (y: Circuit.Record) => y.providerId == id, x) }

  lemma LastUnique<T(!new)>(xs: seq<T>, has: T -> bool, x: T, y: T)
    requires IsLast(xs, has, x) && IsLast(xs, has, y)
    ensures x == y
  {
    var i :| 0 <= i < |xs| && xs[i] == x && has(x) && forall j :: i < j < |xs| ==> !has(xs[j]);
    var k :| 0 <= k < |xs| && xs[k] == y && has(y) && forall j :: k < j < |xs| ==> !has(xs[j]);
    assert i == k;
  }

  /** A lookup holds the last entry. */
  lemma IndexIsLast<T(!new)>(xs: seq<T>, key: T -> string, has: T -> bool, k: string, x: T)
    requires forall y :: has(y) <==> key(y) == k
    ensures (k in IndexBy(xs, key) && IndexBy(xs, key)[k] == x) <==> IsLast(xs, has, x)
  {
    IndexByLast(xs, key, k);
    var t := IndexBy(xs, key);
    if k in t {
      var i :| 0 <= i < |xs| && key(xs[i]) == k && t[k] == xs[i] && forall j :: i < j < |xs| ==> key(xs[j]) != k;
      assert IsLast(xs, has, t[k]);
      if IsLast(xs, has, x) { LastUnique(xs, has, x, t[k]); }
    }
    if IsLast(xs, has, x) {
      assert x in xs && key(x) == k;
    }
  }

  lemma ProviderAt(i: Inputs, id: string, x: Provider)
    ensures (id in ContextFor(i).providers && ContextFor(i).providers[id] == x) <==> LastProvider(i, id, x)
  {
    IndexIsLast(i.registry.providers, ProviderKey, (y: Provider) => y.providerId == id, id, x);
  }

  lemma ModelAt(i: Inputs, id: string, x: Model)
    ensures (id in ContextFor(i).models && ContextFor(i).models[id] == x) <==> LastModel(i, id, x)
  {
    IndexIsLast(i.registry.models, ModelKey, (y: Model) => y.modelId == id, id, x);
  }

  lemma StateAt(i: Inputs, id: string, s: RuntimeState)
    ensures (id in ContextFor(i).states && ContextFor(i).states[id] == s) <==> exists x :: LastState(i, id, x) && x.state == s
  {
    var t := IndexBy(i.states, StateKey);
    forall x ensures (id in t && t[id] == x) <==> LastState(i, id, x) {
      IndexIsLast(i.states, StateKey, (y: StateObservation) => y.providerId == id, id, x);
    }
  }

  lemma RecordAt(i: Inputs, id: string)
    ensures id in ContextFor(i).circuits <==> exists x :: LastRecord(i, id, x)
    ensures forall x :: LastRecord(i, id, x) ==>
              id in ContextFor(i).circuits && ContextFor(i).circuits[id] == Circuit.Normalize(Circuit.Permits, x, i.policy, i.now)
  {
    var t := IndexBy(i.records, RecordKey);
    forall x ensures (id in t && t[id] == x) <==> LastRecord(i, id, x) {
      IndexIsLast(i.records, RecordKey, (y: Circuit.Record) => y.providerId == id, id, x);
    }
    if id in t { assert LastRecord(i, id, t[id]); }
  }

  lemma PolicyAt(i: Inputs, x: RoutePolicy)
    ensures PrimaryPolicy(i.request, i.registry) == Some(x) <==>
              i.request.requiredCapabilities != [] && LastPolicy(i, i.request.requiredCapabilities[0], x)
  {
    if i.request.requiredCapabilities != [] {
      var k := i.request.requiredCapabilities[0];
      IndexIsLast(i.registry.policies, PolicyKey, (y: RoutePolicy) => y.capabilityId == k, k, x);
    }
  }

  //
  // Breakers.
  //

  /** A breaker lets a call through: closed, half open with a probe left, or open for long enough. */
  predicate LetsThrough(r: Circuit.Record, p: Circuit.Policy, now: int) {
    || r.state.Closed?
    || (r.state.HalfOpen? && r.halfOpenProbes < p.probeLimit)
    || (r.state.Open? && r.openedAt.Some? && now - r.openedAt.value >= p.recoverySeconds)
  }

  lemma NormalizedLetsThrough(r: Circuit.Record, p: Circuit.Policy, now: int)
    requires p.Valid()
    ensures Circuit.Permits(Circuit.Normalize(Circuit.Permits, r, p, now), now, p) <==> LetsThrough(r, p, now)
  {}

  /** No record refuses the provider. */
  ghost predicate Unbroken(i: Inputs, id: string) {
    forall r :: LastRecord(i, id, r) ==> LetsThrough(r, i.policy, i.now)
  }

  lemma UnbrokenMeans(i: Inputs, id: string)
    requires i.policy.Valid()
    ensures Circuit.Permits(CircuitOf(ContextFor(i), id), i.now, i.policy) <==> Unbroken(i, id)
  {
    RecordAt(i, id);
    forall r | LastRecord(i, id, r) ensures Circuit.Permits(CircuitOf(ContextFor(i), id), i.now, i.policy) <==> LetsThrough(r, i.policy, i.now) {
      NormalizedLetsThrough(r, i.policy, i.now);
    }
  }

  //
  // Cost.
  //

  /** An observation of the last seven days for this target and capability. */
  predicate Matches(o: Performance.Observation, target: string, cap: string, now: int) {
    o.targetId == target && o.capabilityId == cap && now - o.observedAt <= 7 * 24 * 3600
  }

  ghost predicate Seen(obs: seq<Performance.Observation>, target: string, cap: string, now: int) {
    exists o :: o in obs && Matches(o, target, cap, now)
  }

  ghost function CostTotal(obs: seq<Performance.Observation>, target: string, cap: string, now: int): nat {
    if obs == [] then 0
    else
      var o := obs[|obs|-1];
      CostTotal(obs[..|obs|-1], target, cap, now) + if Matches(o, target, cap, now) && o.cost.Some? then o.cost.value else 0
  }

  ghost function CostCount(obs: seq<Performance.Observation>, target: string, cap: string, now: int): nat {
    if obs == [] then 0
    else
      var o := obs[|obs|-1];
      CostCount(obs[..|obs|-1], target, cap, now) + if Matches(o, target, cap, now) && o.cost.Some? then 1 else 0
  }

  function GroupFor(obs: seq<Performance.Observation>, target: string, cap: string, now: int): seq<Performance.Observation> {
    Performance.Group(obs, (target, cap), now, Performance.DEFAULT_MAX_AGE)
  }

  lemma SeenMeans(obs: seq<Performance.Observation>, target: string, cap: string, now: int)
    ensures Seen(obs, target, cap, now) <==> GroupFor(obs, target, cap, now) != []
  {
    Performance.GroupNonempty(obs, (target, cap), now, Performance.DEFAULT_MAX_AGE);
    forall o ensures Matches(o, target, cap, now) <==>
        Performance.Current(o, now, Performance.DEFAULT_MAX_AGE) && Performance.KeyOf(o) == (target, cap) {}
  }

  lemma SumSnoc(s: seq<nat>, x: nat)
    ensures Performance.Sum(Performance.Self, s + [x]) == Performance.Sum(Performance.Self, s) + x
  {
    Performance.SumConcat(Performance.Self, s, [x]);
    Performance.MeanOfOne(Performance.Self, x);
  }

  lemma CostsSnoc(g: seq<Performance.Observation>, o: Performance.Observation)
    ensures Performance.Costs(g + [o]) == Performance.Costs(g) + if o.cost.Some? then [o.cost.value] else []
  {
    FlatMapSnoc(Performance.CostOf, g, o);
  }

  lemma {:induction false} CostsAdded(obs: seq<Performance.Observation>, target: string, cap: string, now: int)
    ensures var costs := Performance.Costs(GroupFor(obs, target, cap, now));
            && CostTotal(obs, target, cap, now) == Performance.Sum(Performance.Self, costs)
            && CostCount(obs, target, cap, now) == |costs|
  {
    if obs != [] {
      var front, o := obs[..|obs|-1], obs[|obs|-1];
      var g := GroupFor(front, target, cap, now);
      CostsAdded(front, target, cap, now);
      assert obs == front + [o];
      Performance.GroupSnoc(front, o, (target, cap), now, Performance.DEFAULT_MAX_AGE);
      if Matches(o, target, cap, now) {
        assert GroupFor(obs, target, cap, now) == g + [o];
        CostsSnoc(g, o);
        if o.cost.Some? {
          SumSnoc(Performance.Costs(g), o.cost.value);
        } else {
          assert Performance.Costs(g + [o]) == Performance.Costs(g);
        }
      } else {
        assert GroupFor(obs, target, cap, now) == g;
      }
    }
  }

  /** The first required capability the router has data for, and whose: the agent's own before its
      model's. */
  ghost predicate DataAt(i: Inputs, agentId: string, modelId: string, caps: seq<string>, k: int, target: string) {
    && 0 <= k < |caps|
    && (forall j :: 0 <= j < k ==> !Seen(i.obs, agentId, caps[j], i.now) && !Seen(i.obs, modelId, caps[j], i.now))
    && target == (if Seen(i.obs, agentId, caps[k], i.now) then agentId else modelId)
    && Seen(i.obs, target, caps[k], i.now)
  }

  lemma {:induction false} SummaryForMeans(i: Inputs, agentId: string, modelId: string, caps: seq<string>)
    ensures var s := SummaryFor(ContextFor(i), agentId, modelId, caps);
            && (s.None? ==> forall k, t :: !DataAt(i, agentId, modelId, caps, k, t))
            && (s.Some? ==> exists k, t :: DataAt(i, agentId, modelId, caps, k, t) && GroupFor(i.obs, t, caps[k], i.now) != []
                              && s.value == Performance.SummaryOf((t, caps[k]), GroupFor(i.obs, t, caps[k], i.now)))
  {
    if caps != [] {
      var rest := caps[1..];
      SeenMeans(i.obs, agentId, caps[0], i.now);
      SeenMeans(i.obs, modelId, caps[0], i.now);
      Performance.SummariesAt(i.obs, i.now, Performance.DEFAULT_MAX_AGE, (agentId, caps[0]));
      Performance.SummariesAt(i.obs, i.now, Performance.DEFAULT_MAX_AGE, (modelId, caps[0]));
      if Seen(i.obs, agentId, caps[0], i.now) {
        assert DataAt(i, agentId, modelId, caps, 0, agentId);
      } else if Seen(i.obs, modelId, caps[0], i.now) {
        assert DataAt(i, agentId, modelId, caps, 0, modelId);
      } else {
        SummaryForMeans(i, agentId, modelId, rest);
        if SummaryFor(ContextFor(i), agentId, modelId, rest).Some? {
          var k, t :| DataAt(i, agentId, modelId, rest, k, t) && GroupFor(i.obs, t, rest[k], i.now) != []
                      && SummaryFor(ContextFor(i), agentId, modelId, rest).value ==
                         Performance.SummaryOf((t, rest[k]), GroupFor(i.obs, t, rest[k], i.now));
          DataLater(i, agentId, modelId, caps, k + 1, t);
          assert caps[k+1] == rest[k];
        } else {
          forall k, t ensures !DataAt(i, agentId, modelId, caps, k, t) { DataLater(i, agentId, modelId, caps, k, t); }
        }
      }
    }
  }

  lemma DataLater(i: Inputs, agentId: string, modelId: string, caps: seq<string>, k: int, t: string)
    requires caps != [] && !Seen(i.obs, agentId, caps[0], i.now) && !Seen(i.obs, modelId, caps[0], i.now)
    ensures DataAt(i, agentId, modelId, caps, k, t) <==> DataAt(i, agentId, modelId, caps[1..], k - 1, t)
  {
    var rest := caps[1..];
    assert forall j :: 0 <= j < |rest| ==> rest[j] == caps[j+1];
    if DataAt(i, agentId, modelId, rest, k - 1, t) {
      forall j | 0 <= j < k ensures !Seen(i.obs, agentId, caps[j], i.now) && !Seen(i.obs, modelId, caps[j], i.now) {
        assert j > 0 ==> caps[j] == rest[j-1];
      }
    }
    if DataAt(i, agentId, modelId, caps, k, t) {
      forall j | 0 <= j < k - 1 ensures !Seen(i.obs, agentId, rest[j], i.now) && !Seen(i.obs, modelId, rest[j], i.now) {
        assert rest[j] == caps[j+1];
      }
    }
  }

  lemma DataUnique(i: Inputs, agentId: string, modelId: string, caps: seq<string>, k: int, t: string, l: int, u: string)
    requires DataAt(i, agentId, modelId, caps, k, t) && DataAt(i, agentId, modelId, caps, l, u)
    ensures k == l && t == u
  {}

  /** The rounded mean of the costs seen there is above the limit. */
  ghost predicate DearAt(i: Inputs, t: string, cap: string, limit: nat) {
    var n := CostCount(i.obs, t, cap, i.now);
    n > 0 && Performance.RoundHalfEven(CostTotal(i.obs, t, cap, i.now), n) > limit
  }

  ghost predicate TooDear(i: Inputs, agentId: string, modelId: string) {
    && i.request.maximumCost.Some?
    && exists k, t :: DataAt(i, agentId, modelId, i.request.requiredCapabilities, k, t)
                      && DearAt(i, t, i.request.requiredCapabilities[k], i.request.maximumCost.value)
  }

  lemma DearMeans(i: Inputs, t: string, cap: string, limit: nat)
    requires GroupFor(i.obs, t, cap, i.now) != []
    ensures var s := Performance.SummaryOf((t, cap), GroupFor(i.obs, t, cap, i.now));
            DearAt(i, t, cap, limit) <==> s.meanCost.Some? && s.meanCost.value > limit
  {
    CostsAdded(i.obs, t, cap, i.now);
  }

  lemma CostMeans(i: Inputs, agentId: string, modelId: string)
    ensures CostAllowed(i.request, SummaryFor(ContextFor(i), agentId, modelId, i.request.requiredCapabilities))
       <==> !TooDear(i, agentId, modelId)
  {
    var caps := i.request.requiredCapabilities;
    var s := SummaryFor(ContextFor(i), agentId, modelId, caps);
    SummaryForMeans(i, agentId, modelId, caps);
    if s.Some? && i.request.maximumCost.Some? {
      var k, t :| DataAt(i, agentId, modelId, caps, k, t) && GroupFor(i.obs, t, caps[k], i.now) != []
                  && s.value == Performance.SummaryOf((t, caps[k]), GroupFor(i.obs, t, caps[k], i.now));
      DearMeans(i, t, caps[k], i.request.maximumCost.value);
      forall l, u | DataAt(i, agentId, modelId, caps, l, u) ensures l == k && u == t { DataUnique(i, agentId, modelId, caps, k, t, l, u); }
    }
  }

  //
  // Candidates and eligibility.
  //

  /** The agent's model and the model's provider are registered, and all three have every required
      capability. */
  ghost predicate Suits(i: Inputs, a: Agent, m: Model, p: Provider) {
    && LastModel(i, a.modelId, m) && LastProvider(i, m.providerId, p)
    && forall k :: k in i.request.requiredCapabilities ==> k in a.capabilities && k in m.capabilities && k in p.capabilities
  }

  predicate Trusted(r: Request, q: Qualification) { q == Qualified || (q == Canary && r.allowCanary) }

  predicate Working(r: Request, s: RuntimeState) {
    s == Healthy || (r.allowDegraded && s in {Degraded, QuotaLow, Recovering})
  }

  /** Nothing stands against the candidate. */
  ghost predicate Admitted(i: Inputs, a: Agent, m: Model, p: Provider) {
    var r := i.request;
    && p.enabled && (p.dataEgress ==> r.allowDataEgress)
    && (m.qualityTier == r.qualityTier || r.qualityTier == "standard" || r.qualityTier == "any")
    && Trusted(r, a.qualification) && Trusted(r, m.qualification)
    && (exists s :: LastState(i, p.providerId, s) && Working(r, s.state))
    && Unbroken(i, p.providerId)
    && !TooDear(i, a.agentId, m.modelId)
  }

  lemma CapableMeans(i: Inputs, a: Agent)
    ensures Capable(ContextFor(i), a) <==> exists m, p :: Suits(i, a, m, p)
    ensures forall m, p :: Suits(i, a, m, p) ==>
              Capable(ContextFor(i), a) && ContextFor(i).models[a.modelId] == m && ContextFor(i).providers[m.providerId] == p
  {
    var c := ContextFor(i);
    forall m, p | Suits(i, a, m, p) ensures Capable(c, a) && c.models[a.modelId] == m && c.providers[m.providerId] == p {
      ModelAt(i, a.modelId, m);
      ProviderAt(i, m.providerId, p);
    }
    if Capable(c, a) {
      var m := c.models[a.modelId];
      ModelAt(i, a.modelId, m);
      ProviderAt(i, m.providerId, c.providers[m.providerId]);
      var need := set x | x in c.request.requiredCapabilities;
      assert forall k :: k in i.request.requiredCapabilities ==> k in need;
      assert Suits(i, a, m, c.providers[m.providerId]);
    }
  }

  lemma WorkingMeans(i: Inputs, id: string)
    ensures StateAllowed(i.request, StateOf(ContextFor(i), id)) <==> exists s :: LastState(i, id, s) && Working(i.request, s.state)
  {
    var c := ContextFor(i);
    if id in c.states {
      StateAt(i, id, c.states[id]);
      var x :| LastState(i, id, x) && x.state == c.states[id];
      forall s | LastState(i, id, s) ensures s == x { LastUnique(i.states, (y: StateObservation) => y.providerId == id, s, x); }
    } else {
      forall s ensures !LastState(i, id, s) { StateAt(i, id, s.state); }
    }
  }

  /** An agent is a candidate exactly when it suits, and eligible exactly when it also is admitted. */
  lemma EligibleFromFields(i: Inputs, a: Agent)
    requires i.policy.Valid()
    ensures CandidateOf(ContextFor(i), a).Some? <==> exists m, p :: Suits(i, a, m, p)
    ensures forall m, p :: Suits(i, a, m, p) ==>
              var x := CandidateOf(ContextFor(i), a).value;
              && x.agentId == a.agentId && x.modelId == m.modelId && x.providerId == p.providerId && x.adapterId == p.adapterId
              && (x.eligible <==> Admitted(i, a, m, p))
  {
    CapableMeans(i, a);
    forall m, p | Suits(i, a, m, p) ensures CandidateOf(ContextFor(i), a).value.eligible <==> Admitted(i, a, m, p) {
      AdmittedMeans(i, a, m, p);
    }
  }

  lemma AdmittedMeans(i: Inputs, a: Agent, m: Model, p: Provider)
    requires i.policy.Valid() && Suits(i, a, m, p) && Capable(ContextFor(i), a)
    requires ContextFor(i).models[a.modelId] == m && ContextFor(i).providers[m.providerId] == p
    ensures CandidateOf(ContextFor(i), a).value.eligible <==> Admitted(i, a, m, p)
  {
    EligibleIffAdmissible(ContextFor(i), a);
    WorkingMeans(i, p.providerId);
    UnbrokenMeans(i, p.providerId);
    CostMeans(i, a.agentId, m.modelId);
  }

  /** `x` stands no higher than `y`. */
  predicate NoBetter(x: Qualification, y: Qualification) {
    match x
    case Rejected => true
    case Expired => y != Rejected
    case Quarantined => y != Rejected && y != Expired
    case Shadow => y == Shadow || y == Canary || y == Qualified
    case Canary => y == Canary || y == Qualified
    case Qualified => y == Qualified
  }

  /** `q` is the worse of the two. */
  predicate Worse(a: Qualification, b: Qualification, q: Qualification) {
    (q == a || q == b) && NoBetter(q, a) && NoBetter(q, b)
  }

  lemma WorseIsWeaker(a: Qualification, b: Qualification, q: Qualification)
    ensures Worse(a, b, q) <==> q == Weaker(a, b)
  {}

  /** When each objection is raised against a candidate. */
  ghost predicate Raised(i: Inputs, a: Agent, m: Model, p: Provider, x: Candidate, o: Objection) {
    var r := i.request;
    match o
    case ProviderDisabled => !p.enabled
    case DataEgressNotAllowed => p.dataEgress && !r.allowDataEgress
    case WrongTier(t) => t == m.qualityTier && t != r.qualityTier && r.qualityTier != "standard" && r.qualityTier != "any"
    case WrongQualification(q) => Worse(a.qualification, m.qualification, q) && !Trusted(r, q)
    case WrongState(s) => s == x.state && !exists y :: LastState(i, p.providerId, y) && Working(r, y.state)
    case CircuitRefuses(s) => s == x.circuitState && !Unbroken(i, p.providerId)
    case TooExpensive => TooDear(i, a.agentId, m.modelId)
  }

  /** What a candidate records of its circumstances. */
  ghost predicate Records(i: Inputs, a: Agent, m: Model, p: Provider, x: Candidate) {
    && (forall y :: LastState(i, p.providerId, y) ==> x.state == y.state)
    && ((forall y :: !LastState(i, p.providerId, y)) ==> x.state == Unavailable)
    && (forall y :: LastRecord(i, p.providerId, y) ==>
          x.circuitState == if y.state.Open? && LetsThrough(y, i.policy, i.now) then Circuit.HalfOpen else y.state)
    && ((forall y :: !LastRecord(i, p.providerId, y)) ==> x.circuitState == Circuit.Closed)
    && Worse(a.qualification, m.qualification, x.qualification)
    && x.rank == RankOf(ContextFor(i).order, p.providerId)
  }

  lemma StateRecorded(i: Inputs, id: string)
    ensures var s := StateOf(ContextFor(i), id);
            (forall y :: LastState(i, id, y) ==> s == y.state) && ((forall y :: !LastState(i, id, y)) ==> s == Unavailable)
  {
    var c := ContextFor(i);
    forall y | LastState(i, id, y) ensures id in c.states && c.states[id] == y.state { StateAt(i, id, y.state); }
    if id in c.states { StateAt(i, id, c.states[id]); }
  }

  lemma CircuitRecorded(i: Inputs, id: string)
    ensures var s := CircuitOf(ContextFor(i), id).state;
            && (forall y :: LastRecord(i, id, y) ==>
                  s == if y.state.Open? && LetsThrough(y, i.policy, i.now) then Circuit.HalfOpen else y.state)
            && ((forall y :: !LastRecord(i, id, y)) ==> s == Circuit.Closed)
  {
    RecordAt(i, id);
    forall y | LastRecord(i, id, y) ensures CircuitOf(ContextFor(i), id) == Circuit.Normalize(Circuit.Permits, y, i.policy, i.now) {}
  }

  lemma CandidateRecords(i: Inputs, a: Agent, m: Model, p: Provider)
    requires Suits(i, a, m, p)
    ensures CandidateOf(ContextFor(i), a).Some? && Records(i, a, m, p, CandidateOf(ContextFor(i), a).value)
  {
    CapableMeans(i, a);
    StateRecorded(i, p.providerId);
    CircuitRecorded(i, p.providerId);
    WorseIsWeaker(a.qualification, m.qualification, Weaker(a.qualification, m.qualification));
  }

  lemma WhenMembers(b: bool, x: Objection, o: Objection)
    ensures o in When(b, x) <==> b && o == x
  {}

  lemma StaticMembers(r: Request, a: Agent, m: Model, p: Provider, o: Objection)
    ensures var q := Weaker(a.qualification, m.qualification);
            o in StaticReasons(r, a, m, p) <==>
              || (o == ProviderDisabled && !p.enabled)
              || (o == DataEgressNotAllowed && !r.allowDataEgress && p.dataEgress)
              || (o == WrongTier(m.qualityTier) && !TierAllowed(r, m))
              || (o == WrongQualification(q) && !QualificationAllowed(r, q))
  {
    var q := Weaker(a.qualification, m.qualification);
    WhenMembers(!p.enabled, ProviderDisabled, o);
    WhenMembers(!r.allowDataEgress && p.dataEgress, DataEgressNotAllowed, o);
    WhenMembers(!TierAllowed(r, m), WrongTier(m.qualityTier), o);
    WhenMembers(!QualificationAllowed(r, q), WrongQualification(q), o);
  }

  lemma RuntimeMembers(c: Context, a: Agent, m: Model, p: Provider, o: Objection)
    ensures var s, cb := StateOf(c, p.providerId), CircuitOf(c, p.providerId);
            o in RuntimeReasons(c, a, m, p) <==>
              || (o == WrongState(s) && !StateAllowed(c.request, s))
              || (o == CircuitRefuses(cb.state) && !Circuit.Permits(cb, c.now, c.circuitPolicy))
              || (o == TooExpensive && !CostAllowed(c.request, SummaryFor(c, a.agentId, m.modelId, c.request.requiredCapabilities)))
  {
    var s, cb := StateOf(c, p.providerId), CircuitOf(c, p.providerId);
    WhenMembers(!StateAllowed(c.request, s), WrongState(s), o);
    WhenMembers(!Circuit.Permits(cb, c.now, c.circuitPolicy), CircuitRefuses(cb.state), o);
    WhenMembers(!CostAllowed(c.request, SummaryFor(c, a.agentId, m.modelId, c.request.requiredCapabilities)), TooExpensive, o);
  }

  lemma StaticRaised(i: Inputs, a: Agent, m: Model, p: Provider, x: Candidate, o: Objection)
    requires o.ProviderDisabled? || o.DataEgressNotAllowed? || o.WrongTier? || o.WrongQualification?
    ensures o in StaticReasons(i.request, a, m, p) <==> Raised(i, a, m, p, x, o)
  {
    StaticMembers(i.request, a, m, p, o);
    if o.WrongQualification? { WorseIsWeaker(a.qualification, m.qualification, o.qualification); }
  }

  lemma RuntimeRaised(i: Inputs, a: Agent, m: Model, p: Provider, x: Candidate, o: Objection)
    requires i.policy.Valid() && (o.WrongState? || o.CircuitRefuses? || o.TooExpensive?)
    requires x.state == StateOf(ContextFor(i), p.providerId) && x.circuitState == CircuitOf(ContextFor(i), p.providerId).state
    ensures o in RuntimeReasons(ContextFor(i), a, m, p) <==> Raised(i, a, m, p, x, o)
  {
    RuntimeMembers(ContextFor(i), a, m, p, o);
    WorkingMeans(i, p.providerId);
    UnbrokenMeans(i, p.providerId);
    CostMeans(i, a.agentId, m.modelId);
  }

  lemma OneKindOnly(c: Context, a: Agent, m: Model, p: Provider, o: Objection)
    ensures o in StaticReasons(c.request, a, m, p) ==> o.ProviderDisabled? || o.DataEgressNotAllowed? || o.WrongTier? || o.WrongQualification?
    ensures o in RuntimeReasons(c, a, m, p) ==> o.WrongState? || o.CircuitRefuses? || o.TooExpensive?
  {
    StaticMembers(c.request, a, m, p, o);
    RuntimeMembers(c, a, m, p, o);
  }

  /** The reasons against a candidate are exactly the objections its circumstances raise. */
  lemma ReasonsFromFields(i: Inputs, a: Agent, m: Model, p: Provider, o: Objection)
    requires i.policy.Valid() && Suits(i, a, m, p)
    ensures CandidateOf(ContextFor(i), a).Some?
    ensures var x := CandidateOf(ContextFor(i), a).value; o in x.reasons <==> Raised(i, a, m, p, x, o)
  {
    CapableMeans(i, a);
    var x := CandidateOf(ContextFor(i), a).value;
    OneKindOnly(ContextFor(i), a, m, p, o);
    if o.WrongState? || o.CircuitRefuses? || o.TooExpensive? {
      RuntimeRaised(i, a, m, p, x, o);
    } else {
      StaticRaised(i, a, m, p, x, o);
    }
  }

  //
  // Pressure and order.
  //

  /** The last thing known of the provider is neither healthy nor recovering, or its breaker refuses. */
  ghost predicate InTrouble(i: Inputs, id: string) {
    (exists s :: LastState(i, id, s) && s.state !in {Healthy, Recovering}) || !Unbroken(i, id)
  }

  lemma StrainedMeans(i: Inputs, id: string)
    requires i.policy.Valid()
    ensures Strained(ContextFor(i).states, ContextFor(i).circuits, i.policy, i.now, id) <==> InTrouble(i, id)
  {
    var c := ContextFor(i);
    UnbrokenMeans(i, id);
    RecordAt(i, id);
    if id in c.states {
      StateAt(i, id, c.states[id]);
      var x :| LastState(i, id, x) && x.state == c.states[id];
      forall s | LastState(i, id, s) ensures s == x { LastUnique(i.states, (y: StateObservation) => y.providerId == id, s, x); }
    } else {
      forall s ensures !LastState(i, id, s) { StateAt(i, id, s.state); }
    }
  }

  /** The policy that counts is the last one for the first required capability: its preferred providers
      come before its fallbacks, and there is pressure exactly when it asks for that and some preferred
      provider is in trouble. */
  lemma PolicyFromFields(i: Inputs, x: RoutePolicy)
    requires i.policy.Valid() && i.request.requiredCapabilities != [] && LastPolicy(i, i.request.requiredCapabilities[0], x)
    ensures ContextFor(i).order == x.preferred + x.fallback
    ensures ContextFor(i).underPressure <==> x.preferLocalUnderPressure && exists id :: id in x.preferred && InTrouble(i, id)
  {
    PolicyAt(i, x);
    forall id ensures Strained(ContextFor(i).states, ContextFor(i).circuits, i.policy, i.now, id) <==> InTrouble(i, id) {
      StrainedMeans(i, id);
    }
  }

  lemma NoPolicyNoOrder(i: Inputs)
    requires i.request.requiredCapabilities == [] || forall x :: !LastPolicy(i, i.request.requiredCapabilities[0], x)
    ensures ContextFor(i).order == [] && !ContextFor(i).underPressure
  {
    var p := PrimaryPolicy(i.request, i.registry);
    if p.Some? { PolicyAt(i, p.value); }
  }

  //
  // Score and selection.
  //

  /** `pen` is `amount` counted in whole units of `unit`, but at most 2000. */
  ghost predicate Penalty(amount: nat, unit: nat, pen: int) {
    if amount >= 2000 * unit then pen == 2000 else unit * pen <= amount < unit * pen + unit
  }

  /** What each circumstance is worth, everything else being equal. */
  lemma ScoreWeights(rank: nat, isLocal: bool, pressed: bool, s: RuntimeState, perf: Option<Performance.Summary>)
    ensures Score(rank, Adjustment(isLocal, pressed, s, perf)) - Score(rank + 1, Adjustment(isLocal, pressed, s, perf)) == 1000
    ensures Score(0, Adjustment(false, pressed, Recovering, None)) == 100000
    ensures Adjustment(true, pressed, s, perf) - Adjustment(false, pressed, s, perf) == if pressed then 5300 else 300
    ensures Adjustment(isLocal, pressed, Healthy, perf) - Adjustment(isLocal, pressed, Recovering, perf) == 500
    ensures Adjustment(isLocal, pressed, Degraded, perf) - Adjustment(isLocal, pressed, Recovering, perf) == -250
    ensures Adjustment(isLocal, pressed, QuotaLow, perf) - Adjustment(isLocal, pressed, Recovering, perf) == -500
    ensures s !in {Healthy, Degraded, QuotaLow} ==> Adjustment(isLocal, pressed, s, perf) == Adjustment(isLocal, pressed, Recovering, perf)
  {}

  /** What data is worth: a point for each thousandth of success and of quality, less one for every ten
      milliseconds and one for every thousand microunits, at most 2000 each. */
  lemma DataWeights(isLocal: bool, pressed: bool, s: RuntimeState, x: Performance.Summary) returns (slow: nat, dear: nat)
    ensures Penalty(x.meanLatencyMs, 10, slow)
    ensures if x.meanCost.Some? then Penalty(x.meanCost.value, 1000, dear) else dear == 0
    ensures Adjustment(isLocal, pressed, s, Some(x)) - Adjustment(isLocal, pressed, s, None) ==
              x.successMilli + x.qualityMilli - slow - dear
  {
    slow := Min(x.meanLatencyMs / 10, 2000);
    dear := match x.meanCost case None => 0 case Some(k) => Min(k / 1000, 2000);
  }

  /** `x` is not worse than `y`: eligible rather than not, then the higher score, then the lower rank,
      then the smaller provider, model and agent id. */
  ghost predicate NotWorse(x: Candidate, y: Candidate) {
    && (y.eligible ==> x.eligible)
    && (x.eligible == y.eligible ==> x.score >= y.score)
    && (x.eligible == y.eligible && x.score == y.score ==> x.rank <= y.rank)
    && (x.eligible == y.eligible && x.score == y.score && x.rank == y.rank ==> !StringLess(y.providerId, x.providerId))
    && (x.eligible == y.eligible && x.score == y.score && x.rank == y.rank && x.providerId == y.providerId ==>
          !StringLess(y.modelId, x.modelId))
    && (x.eligible == y.eligible && x.score == y.score && x.rank == y.rank && x.providerId == y.providerId && x.modelId == y.modelId ==>
          !StringLess(y.agentId, x.agentId))
  }

  lemma KeyLeMeans(x: Candidate, y: Candidate)
    ensures KeyLe(x, y) <==> NotWorse(x, y)
  {
    StringTrichotomy(x.providerId, y.providerId);
    StringTrichotomy(x.modelId, y.modelId);
    StringTrichotomy(x.agentId, y.agentId);
  }

  /** The candidates of a decision are what the agents become, none after a worse one, and the one
      selected is the first if that is eligible. */
  lemma DecisionFromFields(i: Inputs)
    ensures var d := Decide(ContextFor(i), i.registry.agents);
            && (forall x :: x in d.candidates <==> exists a :: a in i.registry.agents && CandidateOf(ContextFor(i), a) == Some(x))
            && (forall k, l :: 0 <= k < l < |d.candidates| ==> NotWorse(d.candidates[k], d.candidates[l]))
            && (d.selected == if d.candidates != [] && d.candidates[0].eligible then Some(d.candidates[0]) else None)
  {
    var c, agents := ContextFor(i), i.registry.agents;
    DecisionSorted(c, agents);
    forall x ensures x in Decide(c, agents).candidates <==> exists a :: a in agents && CandidateOf(c, a) == Some(x) {
      CandidateComesFromAgent(c, agents, x);
    }
  }

  /** Why there is no route: nobody has the capabilities, or what stands against the candidates, each
      reason once and in order. */
  lemma NoRouteFromFields(i: Inputs)
    ensures var d := Decide(ContextFor(i), i.registry.agents);
            && (d.selected.Some? ==> d.noRouteReasons == [])
            && (d.candidates == [] ==> d.noRouteReasons == ["no_capability_match"])
            && (d.selected.None? && d.candidates != [] ==>
                  && Sorted(StringLe, d.noRouteReasons) && Distinct(d.noRouteReasons)
                  && forall t :: t in d.noRouteReasons <==> exists x, o :: x in d.candidates && o in x.reasons && t == Text(o))
  {
    var d := Decide(ContextFor(i), i.registry.agents);
    var texts := set x, r | x in d.candidates && r in x.reasons :: Text(r);
    AscendingSorted(texts);
    AscendingDistinct(texts);
  }

  lemma DecisionSorted(c: Context, agents: seq<Agent>)
    ensures var d := Decide(c, agents);
            && (forall x :: x in d.candidates <==> x in CandidatesOf(c, agents))
            && (forall k, l :: 0 <= k < l < |d.candidates| ==> NotWorse(d.candidates[k], d.candidates[l]))
            && (d.selected == if d.candidates != [] && d.candidates[0].eligible then Some(d.candidates[0]) else None)
  {
    var d := Decide(c, agents);
    KeyLeIsTotalPreorder();
    SortByMembers(KeyLe, CandidatesOf(c, agents));
    SortBySorted(KeyLe, CandidatesOf(c, agents));
    forall k, l | 0 <= k < l < |d.candidates| ensures NotWorse(d.candidates[k], d.candidates[l]) {
      KeyLeMeans(d.candidates[k], d.candidates[l]);
    }
    if d.candidates != [] {
      FirstEligible(d.candidates);
    }
  }

  lemma FirstEligible(s: seq<Candidate>)
    requires s != [] && forall k, l :: 0 <= k < l < |s| ==> NotWorse(s[k], s[l])
    ensures First(Eligible(s)) == if s[0].eligible then Some(s[0]) else None
  {
    var e := Eligible(s);
    if e != [] {
      assert e[0] in e;
      var k :| 0 <= k < |s| && s[k] == e[0];
      assert k > 0 ==> NotWorse(s[0], s[k]);
    }
  }
}
