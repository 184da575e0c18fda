/** Capability-first routing: which agent, model and provider should run a task.

Agents that lack a required capability are not candidates at all. The others are judged, scored
and sorted; the first eligible one is selected.
 */
module Router {
  import opened Wrappers
  import opened Ordering
  import Circuit
  import Performance

  datatype RuntimeState =
    | Healthy | Degraded | RateLimited | QuotaLow | BudgetExhausted
    | AuthFailed | Unavailable | Disabled | Maintenance | Recovering

  /** In the order the router ranks them, worst first. */
  datatype Qualification = Rejected | Expired | Quarantined | Shadow | Canary | Qualified

  datatype Provider = Provider(
    providerId: string, adapterId: string, capabilities: set<string>,
    enabled: bool, isLocal: bool, dataEgress: bool)

  datatype Model = Model(
    modelId: string, providerId: string, providerModelName: string, capabilities: set<string>,
    qualityTier: string, qualification: Qualification)

  datatype Agent = Agent(agentId: string, modelId: string, capabilities: set<string>, qualification: Qualification)

  datatype RoutePolicy = RoutePolicy(
    capabilityId: string, preferred: seq<string>, fallback: seq<string>, preferLocalUnderPressure: bool)

  datatype Registry = Registry(
    registryId: string, providers: seq<Provider>, models: seq<Model>, agents: seq<Agent>, policies: seq<RoutePolicy>)

  datatype Request = Request(
    taskId: string, requiredCapabilities: seq<string>, qualityTier: string, maximumCost: Option<nat>,
    allowDataEgress: bool, allowDegraded: bool, allowCanary: bool)

  datatype StateObservation = StateObservation(providerId: string, state: RuntimeState)

  /** Why a candidate is not eligible. */
  datatype Objection =
    | ProviderDisabled
    | DataEgressNotAllowed
    | WrongTier(tier: string)
    | WrongQualification(qualification: Qualification)
    | WrongState(state: RuntimeState)
    | CircuitRefuses(circuit: Circuit.CircuitState)
    | TooExpensive

  datatype Candidate = Candidate(
    agentId: string, modelId: string, providerId: string, adapterId: string,
    eligible: bool, reasons: seq<Objection>, rank: nat, score: int,
    state: RuntimeState, circuitState: Circuit.CircuitState, qualification: Qualification,
    performance: Option<Performance.Summary>)

  datatype Decision = Decision(
    candidates: seq<Candidate>, selected: Option<Candidate>, noRouteReasons: seq<string>)

  /** The lookups a routing call prepares before it visits the agents. */
  datatype Context = Context(
    request: Request,
    providers: map<string, Provider>,
    models: map<string, Model>,
    states: map<string, RuntimeState>,
    circuits: map<string, Circuit.Record>,
    performance: map<Performance.Key, Performance.Summary>,
    order: seq<string>,
    underPressure: bool,
    circuitPolicy: Circuit.Policy,
    now: int)

  //
  // Lookups. A later entry replaces an earlier one with the same key.
  //

  function IndexBy<T>(xs: seq<T>, key: T -> string): map<string, T> {
    if xs == [] then map[] else IndexBy(xs[..|xs|-1], key)[key(xs[|xs|-1]) := xs[|xs|-1]]
  }

  function ProviderKey(x: Provider): string { x.providerId }
  function ModelKey(x: Model): string { x.modelId }
  function PolicyKey(x: RoutePolicy): string { x.capabilityId }
  function StateKey(x: StateObservation): string { x.providerId }
  function RecordKey(x: Circuit.Record): string { x.providerId }

  const UNLISTED: nat := 5000

  /** The last position of `id`, or 5000 when it is not listed. */
  function RankOf(order: seq<string>, id: string): nat {
    if order == [] then UNLISTED
    else if order[|order|-1] == id then |order| - 1
    else RankOf(order[..|order|-1], id)
  }

  /** A key is there exactly when some entry has it, and then with the last such entry. */
  lemma {:induction false} IndexByLast<T(!new)>(xs: seq<T>, key: T -> string, k: string)
    ensures k in IndexBy(xs, key) <==> exists x :: x in xs && key(x) == k
    ensures k in IndexBy(xs, key) ==>
              exists i :: 0 <= i < |xs| && key(xs[i]) == k && IndexBy(xs, key)[k] == xs[i]
                          && forall j :: i < j < |xs| ==> key(xs[j]) != k
  {
    if xs != [] {
      var front, last := xs[..|xs|-1], xs[|xs|-1];
      IndexByLast(front, key, k);
      assert forall x :: x in xs <==> x in front || x == last;
      if key(last) == k {
        assert key(xs[|xs|-1]) == k;
      } else if k in IndexBy(front, key) {
        var i :| 0 <= i < |front| && key(front[i]) == k && IndexBy(front, key)[k] == front[i]
                 && forall j :: i < j < |front| ==> key(front[j]) != k;
        assert xs[i] == front[i];
        assert forall j :: i < j < |front| ==> xs[j] == front[j];
      }
    }
  }

  lemma {:induction false} RankOfListed(order: seq<string>, id: string)
    ensures id !in order ==> RankOf(order, id) == UNLISTED
    ensures id in order ==> RankOf(order, id) < |order| && order[RankOf(order, id)] == id
                            && id !in order[RankOf(order, id)+1..]
  {
    if order != [] {
      var front := order[..|order|-1];
      RankOfListed(front, id);
      assert forall x :: x in order <==> x in front || x == order[|order|-1];
      if order[|order|-1] == id {
        assert order[|order|..] == [];
      } else if id in front {
        var r := RankOf(front, id);
        assert order[r+1..] == front[r+1..] + [order[|order|-1]];
      }
    }
  }

  predicate InPressure(s: RuntimeState) {
    !s.Healthy? && !s.Recovering?
  }

  function PrimaryPolicy(request: Request, registry: Registry): Option<RoutePolicy> {
    var policies := IndexBy(registry.policies, PolicyKey);
    if request.requiredCapabilities != [] && request.requiredCapabilities[0] in policies
    then Some(policies[request.requiredCapabilities[0]])
    else None
  }

  predicate Strained(states: map<string, RuntimeState>, circuits: map<string, Circuit.Record>,
                     p: Circuit.Policy, now: int, id: string)
  {
    || (id in states && InPressure(states[id]))
    || (id in circuits && !Circuit.Permits(circuits[id], now, p))
  }

  predicate UnderPressure(policy: Option<RoutePolicy>, states: map<string, RuntimeState>,
                          circuits: map<string, Circuit.Record>, p: Circuit.Policy, now: int)
  {
    && policy.Some? && policy.value.preferLocalUnderPressure
    && exists id :: id in policy.value.preferred && Strained(states, circuits, p, now, id)
  }

  function Order(policy: Option<RoutePolicy>): seq<string> {
    if policy.Some? then policy.value.preferred + policy.value.fallback else []
  }

  function StateTable(obs: seq<StateObservation>): map<string, RuntimeState> {
    var m := IndexBy(obs, StateKey);
    map id | id in m :: m[id].state
  }

  function CircuitTable(records: seq<Circuit.Record>, p: Circuit.Policy, now: int): map<string, Circuit.Record> {
    var m := IndexBy(records, RecordKey);
    map id | id in m :: Circuit.Normalize(Circuit.Permits, m[id], p, now)
  }

  function ContextOf(request: Request, registry: Registry, states: seq<StateObservation>,
                     records: seq<Circuit.Record>, obs: seq<Performance.Observation>,
                     p: Circuit.Policy, now: int): Context
  {
    var policy, st, ct := PrimaryPolicy(request, registry), StateTable(states), CircuitTable(records, p, now);
    Context(request,
            IndexBy(registry.providers, ProviderKey),
            IndexBy(registry.models, ModelKey),
            st, ct, Performance.Summaries(obs, now, Performance.DEFAULT_MAX_AGE),
            Order(policy), UnderPressure(policy, st, ct, p, now), p, now)
  }

  //
  // One candidate.
  //

  function StateName(s: RuntimeState): string {
    match s
    case Healthy => "HEALTHY"
    case Degraded => "DEGRADED"
    case RateLimited => "RATE_LIMITED"
    case QuotaLow => "QUOTA_LOW"
    case BudgetExhausted => "BUDGET_EXHAUSTED"
    case AuthFailed => "AUTH_FAILED"
    case Unavailable => "UNAVAILABLE"
    case Disabled => "DISABLED"
    case Maintenance => "MAINTENANCE"
    case Recovering => "RECOVERING"
  }

  function CircuitName(s: Circuit.CircuitState): string {
    match s
    case Closed => "CLOSED"
    case Open => "OPEN"
    case HalfOpen => "HALF_OPEN"
  }

  function Standing(q: Qualification): nat {
    match q
    case Rejected => 0
    case Expired => 1
    case Quarantined => 2
    case Shadow => 3
    case Canary => 4
    case Qualified => 5
  }

  function QualificationName(q: Qualification): string {
    match q
    case Rejected => "REJECTED"
    case Expired => "EXPIRED"
    case Quarantined => "QUARANTINED"
    case Shadow => "SHADOW"
    case Canary => "CANARY"
    case Qualified => "QUALIFIED"
  }

  /** The text an objection is reported with. */
  function Text(o: Objection): string {
    match o
    case ProviderDisabled => "provider_disabled_by_configuration"
    case DataEgressNotAllowed => "data_egress_not_allowed"
    case WrongTier(t) => "quality_tier:" + t
    case WrongQualification(q) => "qualification:" + QualificationName(q)
    case WrongState(s) => "provider_state:" + StateName(s)
    case CircuitRefuses(s) => "circuit:" + CircuitName(s)
    case TooExpensive => "estimated_cost_above_contract_limit"
  }

  function Weaker(a: Qualification, b: Qualification): Qualification {
    if Standing(b) < Standing(a) then b else a
  }

  predicate StateAllowed(r: Request, s: RuntimeState) {
    s.Healthy? || (r.allowDegraded && (s.Degraded? || s.QuotaLow? || s.Recovering?))
  }

  predicate QualificationAllowed(r: Request, q: Qualification) {
    q.Qualified? || (q.Canary? && r.allowCanary)
  }

  predicate TierAllowed(r: Request, m: Model) {
    m.qualityTier == r.qualityTier || r.qualityTier in {"standard", "any"}
  }

  predicate CostAllowed(r: Request, s: Option<Performance.Summary>) {
    r.maximumCost.None? || s.None? || s.value.meanCost.None? || s.value.meanCost.value <= r.maximumCost.value
  }

  function StateOf(c: Context, id: string): RuntimeState {
    if id in c.states then c.states[id] else Unavailable
  }

  function CircuitOf(c: Context, id: string): Circuit.Record {
    if id in c.circuits then c.circuits[id] else Circuit.Fresh(id, c.now)
  }

  /** The first required capability with a summary decides; the agent's own before its model's. */
  function SummaryFor(c: Context, agentId: string, modelId: string, caps: seq<string>): Option<Performance.Summary> {
    if caps == [] then None
    else if (agentId, caps[0]) in c.performance then Some(c.performance[(agentId, caps[0])])
    else if (modelId, caps[0]) in c.performance then Some(c.performance[(modelId, caps[0])])
    else SummaryFor(c, agentId, modelId, caps[1..])
  }

  predicate Capable(c: Context, a: Agent) {
    && a.modelId in c.models
    && c.models[a.modelId].providerId in c.providers
    && var need := set x | x in c.request.requiredCapabilities;
    && need <= a.capabilities
    && need <= c.models[a.modelId].capabilities
    && need <= c.providers[c.models[a.modelId].providerId].capabilities
  }

  function When(b: bool, o: Objection): seq<Objection> { if b then [o] else [] }

  function StaticReasons(r: Request, a: Agent, m: Model, p: Provider): seq<Objection> {
    var q := Weaker(a.qualification, m.qualification);
    When(!p.enabled, ProviderDisabled) +
    When(!r.allowDataEgress && p.dataEgress, DataEgressNotAllowed) +
    When(!TierAllowed(r, m), WrongTier(m.qualityTier)) +
    When(!QualificationAllowed(r, q), WrongQualification(q))
  }

  function RuntimeReasons(c: Context, a: Agent, m: Model, p: Provider): seq<Objection> {
    var s, cb := StateOf(c, p.providerId), CircuitOf(c, p.providerId);
    When(!StateAllowed(c.request, s), WrongState(s)) +
    When(!Circuit.Permits(cb, c.now, c.circuitPolicy), CircuitRefuses(cb.state)) +
    When(!CostAllowed(c.request, SummaryFor(c, a.agentId, m.modelId, c.request.requiredCapabilities)), TooExpensive)
  }

  function ReasonsAgainst(c: Context, a: Agent, m: Model, p: Provider): seq<Objection> {
    StaticReasons(c.request, a, m, p) + RuntimeReasons(c, a, m, p)
  }

  function Min(a: nat, b: nat): nat { if a < b then a else b }

  /** Everything in the score that does not come from the policy rank. */
  function Adjustment(isLocal: bool, underPressure: bool, s: RuntimeState, perf: Option<Performance.Summary>): int {
    (if isLocal then 300 else 0) +
    (if underPressure && isLocal then 5000 else 0) +
    (match s case Healthy => 500 case Degraded => -250 case QuotaLow => -500 case _ => 0) +
    (match perf
     case None => 0
     case Some(x) =>
       x.successMilli + x.qualityMilli - Min(x.meanLatencyMs / 10, 2000) -
       (match x.meanCost case None => 0 case Some(k) => Min(k / 1000, 2000)))
  }

  function Score(rank: nat, adjustment: int): int { 100000 - rank * 1000 + adjustment }

  function CandidateOf(c: Context, a: Agent): Option<Candidate> {
    if !Capable(c, a) then None
    else
      var m := c.models[a.modelId];
      var p := c.providers[m.providerId];
      var s, cb, perf := StateOf(c, p.providerId), CircuitOf(c, p.providerId),
        SummaryFor(c, a.agentId, m.modelId, c.request.requiredCapabilities);
      var reasons, rank := ReasonsAgainst(c, a, m, p), RankOf(c.order, p.providerId);
      Some(Candidate(a.agentId, m.modelId, p.providerId, p.adapterId, reasons == [], reasons, rank,
                     Score(rank, Adjustment(p.isLocal, c.underPressure, s, perf)), s, cb.state,
                     Weaker(a.qualification, m.qualification), perf))
  }

  /** What one agent contributes to the candidates: itself once, or nothing. */
  function Offer(c: Context): Agent -> seq<Candidate> {
    (a: Agent) => match CandidateOf(c, a) case None => [] case Some(x) => [x]
  }

  function CandidatesOf(c: Context, agents: seq<Agent>): seq<Candidate> { FlatMap(Offer(c), agents) }

  //
  // Sorting and selection.
  //

  predicate IdsLe(a: Candidate, b: Candidate) {
    if a.providerId != b.providerId then StringLess(a.providerId, b.providerId)
    else if a.modelId != b.modelId then StringLess(a.modelId, b.modelId)
    else StringLe(a.agentId, b.agentId)
  }

  /** Eligible first, then higher score, lower rank, provider, model and agent id. */
  predicate KeyLe(a: Candidate, b: Candidate) {
    if a.eligible != b.eligible then a.eligible
    else if a.score != b.score then a.score > b.score
    else if a.rank != b.rank then a.rank < b.rank
    else IdsLe(a, b)
  }

  predicate IsEligible(x: Candidate) { x.eligible }

  function Eligible(s: seq<Candidate>): (r: seq<Candidate>)
    ensures forall x :: x in r <==> x in s && x.eligible
  {
    FilterMembers(IsEligible, s);
    Filter(IsEligible, s)
  }

  function First(s: seq<Candidate>): Option<Candidate> {
    if s == [] then None else Some(s[0])
  }

  function Decide(c: Context, agents: seq<Agent>): Decision {
    var sorted := SortBy(KeyLe, CandidatesOf(c, agents));
    var selected := First(Eligible(sorted));
    Decision(sorted, selected,
             if selected.Some? then []
             else if sorted == [] then ["no_capability_match"]
             else Ascending(set x, r | x in sorted && r in x.reasons :: Text(r)))
  }

  //
  // The routing call itself.
  //

  method DetectPressure(policy: Option<RoutePolicy>, states: map<string, RuntimeState>,
                        circuits: map<string, Circuit.Record>, p: Circuit.Policy, now: int)
    returns (underPressure: bool)
    ensures underPressure == UnderPressure(policy, states, circuits, p, now)
  {
    underPressure := false;
    if policy.Some? && policy.value.preferLocalUnderPressure {
      var preferred := policy.value.preferred;
      for i := 0 to |preferred|
        invariant underPressure <==> exists k :: 0 <= k < i && Strained(states, circuits, p, now, preferred[k])
      {
        var id := preferred[i];
        if id in states && InPressure(states[id]) {
          underPressure := true;
        }
        if id in circuits && !Circuit.Permits(circuits[id], now, p) {
          underPressure := true;
        }
      }
    }
  }

  /** The score of a candidate, built up step by step. */
  method ComputeScore(rank: nat, isLocal: bool, underPressure: bool, s: RuntimeState, perf: Option<Performance.Summary>)
    returns (score: int)
    ensures score == Score(rank, Adjustment(isLocal, underPressure, s, perf))
  {
    score := 100000;
    score := score - rank * 1000;
    if isLocal { score := score + 300; }
    if underPressure && isLocal { score := score + 5000; }
    if s.Healthy? {
      score := score + 500;
    } else if s.Degraded? {
      score := score - 250;
    } else if s.QuotaLow? {
      score := score - 500;
    }
    if perf.Some? {
      score := score + perf.value.successMilli + perf.value.qualityMilli;
      score := score - Min(perf.value.meanLatencyMs / 10, 2000);
      if perf.value.meanCost.Some? {
        score := score - Min(perf.value.meanCost.value / 1000, 2000);
      }
    }
  }

  /** Judges and scores one agent. */
  method Consider(c: Context, a: Agent) returns (r: Option<Candidate>)
    ensures r == CandidateOf(c, a)
  {
    if !Capable(c, a) {
      return None;
    }
    var m := c.models[a.modelId];
    var p := c.providers[m.providerId];
    var reasons := StaticObjections(c.request, a, m, p);
    reasons := RuntimeObjections(c, a, m, p, reasons);
    var s, cb, rank := StateOf(c, p.providerId), CircuitOf(c, p.providerId), RankOf(c.order, p.providerId);
    var perf := SummaryFor(c, a.agentId, m.modelId, c.request.requiredCapabilities);
    var score := ComputeScore(rank, p.isLocal, c.underPressure, s, perf);
    return Some(Candidate(a.agentId, m.modelId, p.providerId, p.adapterId, reasons == [], reasons, rank, score,
                          s, cb.state, Weaker(a.qualification, m.qualification), perf));
  }

  method StaticObjections(r: Request, a: Agent, m: Model, p: Provider) returns (reasons: seq<Objection>)
    ensures reasons == StaticReasons(r, a, m, p)
  {
    reasons := [];
    if !p.enabled { reasons := reasons + [ProviderDisabled]; }
    if !r.allowDataEgress && p.dataEgress { reasons := reasons + [DataEgressNotAllowed]; }
    if !TierAllowed(r, m) { reasons := reasons + [WrongTier(m.qualityTier)]; }
    var q := Weaker(a.qualification, m.qualification);
    if q.Canary? {
      if !r.allowCanary { reasons := reasons + [WrongQualification(q)]; }
    } else if !q.Qualified? {
      reasons := reasons + [WrongQualification(q)];
    }
  }

  method RuntimeObjections(c: Context, a: Agent, m: Model, p: Provider, start: seq<Objection>) returns (reasons: seq<Objection>)
    ensures reasons == start + RuntimeReasons(c, a, m, p)
  {
    reasons := start;
    var s, cb := StateOf(c, p.providerId), CircuitOf(c, p.providerId);
    if !StateAllowed(c.request, s) { reasons := reasons + [WrongState(s)]; }
    if !Circuit.Permits(cb, c.now, c.circuitPolicy) { reasons := reasons + [CircuitRefuses(cb.state)]; }
    if !CostAllowed(c.request, SummaryFor(c, a.agentId, m.modelId, c.request.requiredCapabilities)) {
      reasons := reasons + [TooExpensive];
    }
  }

  method Route(request: Request, registry: Registry, states: seq<StateObservation>, records: seq<Circuit.Record>,
               obs: seq<Performance.Observation>, p: Circuit.Policy, now: int)
    returns (r: Result<Decision, Performance.Refusal>)
    ensures r.Err? <==> exists o :: o in obs && o.synthetic
    ensures r.Ok? ==> r.value == Decide(ContextOf(request, registry, states, records, obs, p, now), registry.agents)
  {
    var perf := Performance.Summarize(obs, now, Performance.DEFAULT_MAX_AGE, false);
    if perf.Err? {
      return Err(perf.error);
    }
    var policy, st, ct := PrimaryPolicy(request, registry), StateTable(states), CircuitTable(records, p, now);
    var underPressure := DetectPressure(policy, st, ct, p, now);
    var c := Context(request,
                     IndexBy(registry.providers, ProviderKey),
                     IndexBy(registry.models, ModelKey),
                     st, ct, perf.value, Order(policy), underPressure, p, now);
    var candidates: seq<Candidate> := CollectCandidates(c, registry.agents);
    var sorted := SortBy(KeyLe, candidates);
    var selected := First(Eligible(sorted));
    var noRoute := [];
    if selected.None? {
      noRoute := if sorted == [] then ["no_capability_match"] else Ascending(set x, r | x in sorted && r in x.reasons :: Text(r));
    }
    return Ok(Decision(sorted, selected, noRoute));
  }

  method CollectCandidates(c: Context, agents: seq<Agent>) returns (candidates: seq<Candidate>)
    ensures candidates == CandidatesOf(c, agents)
  {
    candidates := [];
    for i := 0 to |agents|
      invariant candidates == CandidatesOf(c, agents[..i])
    {
      assert agents[..i+1] == agents[..i] + [agents[i]];
      FlatMapSnoc(Offer(c), agents[..i], agents[i]);
      var x := Consider(c, agents[i]);
      if x.Some? {
        candidates := candidates + [x.value];
      }
    }
    assert agents[..|agents|] == agents;
  }
}
