/** What routing guarantees: score bounds, policy order, order independence, exactly one outcome. */
module RouterProperties {
  import opened Wrappers
  import opened Ordering
  import opened Router
  import Circuit
  import Performance

  //
  // Scores.
  //

  /** The figures a summary may carry. */
  ghost predicate Bounded(s: Option<Performance.Summary>) {
    s.Some? ==> s.value.successMilli <= 1000 && s.value.qualityMilli <= 1000
  }

  lemma AdjustmentBounds(isLocal: bool, underPressure: bool, s: RuntimeState, perf: Option<Performance.Summary>)
    requires Bounded(perf)
    ensures -4500 <= Adjustment(isLocal, underPressure, s, perf) <= 7800
  {
  }

  /** The summaries of `c` were taken from `obs`, as in every routing call. */
  ghost predicate Observed(c: Context, obs: seq<Performance.Observation>) {
    && (forall o :: o in obs ==> o.Valid())
    && c.performance == Performance.Summaries(obs, c.now, Performance.DEFAULT_MAX_AGE)
  }

  lemma {:induction false} LookupBounded(c: Context, agentId: string, modelId: string, caps: seq<string>,
                                         obs: seq<Performance.Observation>)
    requires Observed(c, obs)
    ensures Bounded(SummaryFor(c, agentId, modelId, caps))
  {
    if caps != [] {
      if (agentId, caps[0]) in c.performance {
        Performance.SummariesBounded(obs, c.now, Performance.DEFAULT_MAX_AGE, (agentId, caps[0]));
      } else if (modelId, caps[0]) in c.performance {
        Performance.SummariesBounded(obs, c.now, Performance.DEFAULT_MAX_AGE, (modelId, caps[0]));
      } else {
        LookupBounded(c, agentId, modelId, caps[1..], obs);
      }
    }
  }

  /** For every candidate of every call, the score is the rank part plus at most 7800, minus at
      most 4500. */
  lemma ScoreBounds(c: Context, obs: seq<Performance.Observation>, a: Agent)
    requires Observed(c, obs) && Capable(c, a)
    ensures var x := CandidateOf(c, a).value;
            100000 - x.rank * 1000 - 4500 <= x.score <= 100000 - x.rank * 1000 + 7800
  {
    var m := c.models[a.modelId];
    var p := c.providers[m.providerId];
    LookupBounded(c, a.agentId, m.modelId, c.request.requiredCapabilities, obs);
    AdjustmentBounds(p.isLocal, c.underPressure, StateOf(c, p.providerId),
                     SummaryFor(c, a.agentId, m.modelId, c.request.requiredCapabilities));
  }

  ghost predicate Before(x: Candidate, y: Candidate) { KeyLe(x, y) && !KeyLe(y, x) }

  /** A rank gap of 13 or more decides between two candidates of equal eligibility. */
  lemma RankGapDecides(c: Context, obs: seq<Performance.Observation>, a: Agent, b: Agent)
    requires Observed(c, obs) && Capable(c, a) && Capable(c, b)
    requires CandidateOf(c, a).value.eligible == CandidateOf(c, b).value.eligible
    requires CandidateOf(c, a).value.rank + 13 <= CandidateOf(c, b).value.rank
    ensures Before(CandidateOf(c, a).value, CandidateOf(c, b).value)
  {
    ScoreBounds(c, obs, a);
    ScoreBounds(c, obs, b);
  }

  /** A provider whose policy index is 4987 or lower beats an unlisted one. */
  lemma ListedBeatsUnlisted(c: Context, obs: seq<Performance.Observation>, a: Agent, b: Agent)
    requires Observed(c, obs) && Capable(c, a) && Capable(c, b)
    requires CandidateOf(c, a).value.eligible == CandidateOf(c, b).value.eligible
    requires CandidateOf(c, a).value.rank <= 4987
    requires CandidateOf(c, b).value.providerId !in c.order
    ensures Before(CandidateOf(c, a).value, CandidateOf(c, b).value)
  {
    RankOfListed(c.order, CandidateOf(c, b).value.providerId);
    RankGapDecides(c, obs, a, b);
  }

  lemma {:induction false} NoDataNoSummary(c: Context, agentId: string, modelId: string, caps: seq<string>)
    requires c.performance == map[]
    ensures SummaryFor(c, agentId, modelId, caps) == None
  {
    if caps != [] { NoDataNoSummary(c, agentId, modelId, caps[1..]); }
  }

  ghost predicate StaticallyAdmissible(r: Request, a: Agent, m: Model, p: Provider) {
    && p.enabled
    && (p.dataEgress ==> r.allowDataEgress)
    && TierAllowed(r, m)
    && QualificationAllowed(r, a.qualification) && QualificationAllowed(r, m.qualification)
  }

  ghost predicate AdmissibleNow(c: Context, a: Agent, m: Model, p: Provider) {
    && StateAllowed(c.request, StateOf(c, p.providerId))
    && Circuit.Permits(CircuitOf(c, p.providerId), c.now, c.circuitPolicy)
    && CostAllowed(c.request, SummaryFor(c, a.agentId, m.modelId, c.request.requiredCapabilities))
  }

  lemma StaticReasonsDecide(r: Request, a: Agent, m: Model, p: Provider)
    ensures StaticReasons(r, a, m, p) == [] <==> StaticallyAdmissible(r, a, m, p)
  {
    var q := Weaker(a.qualification, m.qualification);
    assert QualificationAllowed(r, q) <==> QualificationAllowed(r, a.qualification) && QualificationAllowed(r, m.qualification);
    assert |StaticReasons(r, a, m, p)| ==
      (if p.enabled then 0 else 1) + (if !r.allowDataEgress && p.dataEgress then 1 else 0) +
      (if TierAllowed(r, m) then 0 else 1) + (if QualificationAllowed(r, q) then 0 else 1);
  }

  lemma RuntimeReasonsDecide(c: Context, a: Agent, m: Model, p: Provider)
    ensures RuntimeReasons(c, a, m, p) == [] <==> AdmissibleNow(c, a, m, p)
  {
    var cost := CostAllowed(c.request, SummaryFor(c, a.agentId, m.modelId, c.request.requiredCapabilities));
    assert |RuntimeReasons(c, a, m, p)| ==
      (if StateAllowed(c.request, StateOf(c, p.providerId)) then 0 else 1) +
      (if Circuit.Permits(CircuitOf(c, p.providerId), c.now, c.circuitPolicy) then 0 else 1) +
      (if cost then 0 else 1);
  }

  /** A candidate is eligible exactly when configuration, both qualifications, runtime state,
      circuit and cost all admit it. */
  lemma EligibleIffAdmissible(c: Context, a: Agent)
    requires Capable(c, a)
    ensures var m := c.models[a.modelId];
            var p := c.providers[m.providerId];
            CandidateOf(c, a).value.eligible <==> StaticallyAdmissible(c.request, a, m, p) && AdmissibleNow(c, a, m, p)
  {
    var m := c.models[a.modelId];
    var p := c.providers[m.providerId];
    StaticReasonsDecide(c.request, a, m, p);
    RuntimeReasonsDecide(c, a, m, p);
  }

  /** Without performance data, without pressure and with degraded states disallowed, eligible
      candidates follow the policy order strictly. */
  lemma PolicyOrderStrict(c: Context, a: Agent, b: Agent)
    requires c.performance == map[] && !c.underPressure && !c.request.allowDegraded
    requires Capable(c, a) && Capable(c, b)
    requires CandidateOf(c, a).value.eligible && CandidateOf(c, b).value.eligible
    requires CandidateOf(c, a).value.rank < CandidateOf(c, b).value.rank
    ensures Before(CandidateOf(c, a).value, CandidateOf(c, b).value)
  {
    QuietScore(c, a);
    QuietScore(c, b);
  }

  lemma QuietScore(c: Context, a: Agent)
    requires c.performance == map[] && !c.underPressure && !c.request.allowDegraded
    requires Capable(c, a) && CandidateOf(c, a).value.eligible
    ensures var x := CandidateOf(c, a).value; 500 <= x.score - (100000 - x.rank * 1000) <= 800
  {
    var m := c.models[a.modelId];
    var p := c.providers[m.providerId];
    NoDataNoSummary(c, a.agentId, m.modelId, c.request.requiredCapabilities);
    EligibleIffAdmissible(c, a);
  }

  /** A provider listed only as preferred ranks before every fallback. */
  lemma PreferredBeforeFallback(policy: RoutePolicy, x: string, y: string)
    requires x in policy.preferred && x !in policy.fallback && y in policy.fallback
    ensures RankOf(Order(Some(policy)), x) < RankOf(Order(Some(policy)), y)
  {
    var order, n := Order(Some(policy)), |policy.preferred|;
    RankOfListed(order, x);
    RankOfListed(order, y);
    var k :| 0 <= k < |policy.fallback| && policy.fallback[k] == y;
    assert order[n + k] == y;
    var rx, ry := RankOf(order, x), RankOf(order, y);
    assert forall j :: n <= j < |order| ==> order[j] == policy.fallback[j - n];
    assert forall j :: ry < j < |order| ==> order[j] == order[ry+1..][j - ry - 1];
    assert rx < n <= ry;
  }

  //
  // The sort.
  //

  lemma IdsLeTotal(a: Candidate, b: Candidate)
    ensures IdsLe(a, b) || IdsLe(b, a)
    ensures IdsLe(a, b) && IdsLe(b, a) ==> a.agentId == b.agentId
  {
    StringTrichotomy(a.providerId, b.providerId);
    StringTrichotomy(a.modelId, b.modelId);
    StringTrichotomy(a.agentId, b.agentId);
  }

  /** Two strings are equal, or ordered one way. */
  lemma ChainLess(a: string, b: string, c: string)
    requires StringLe(a, b) && StringLe(b, c)
    ensures StringLe(a, c)
    ensures a == c ==> a == b
  {
    StringTrichotomy(a, b);
    if a != b && b != c { StringLessTransitive(a, b, c); StringTrichotomy(a, c); }
  }

  lemma IdsLeTransitive(a: Candidate, b: Candidate, c: Candidate)
    requires IdsLe(a, b) && IdsLe(b, c)
    ensures IdsLe(a, c)
  {
    ChainLess(a.providerId, b.providerId, c.providerId);
    if a.providerId == c.providerId {
      ChainLess(a.modelId, b.modelId, c.modelId);
      if a.modelId == c.modelId { ChainLess(a.agentId, b.agentId, c.agentId); }
    }
  }

  lemma KeyLeIsTotalPreorder()
    ensures TotalPreorder(KeyLe)
  {
    forall a, b ensures KeyLe(a, b) || KeyLe(b, a) { IdsLeTotal(a, b); }
    forall a, b, c | KeyLe(a, b) && KeyLe(b, c) ensures KeyLe(a, c) {
      if IdsLe(a, b) && IdsLe(b, c) { IdsLeTransitive(a, b, c); }
    }
  }

  ghost predicate UniqueIds(agents: seq<Agent>) {
    forall a, b :: a in agents && b in agents && a.agentId == b.agentId ==> a == b
  }

  /** The candidates are exactly what the capable agents of the list become. */
  lemma CandidateComesFromAgent(c: Context, agents: seq<Agent>, x: Candidate)
    ensures x in CandidatesOf(c, agents) <==> exists a :: a in agents && CandidateOf(c, a) == Some(x)
  {
    FlatMapMembers(Offer(c), agents, x);
    forall a ensures x in Offer(c)(a) <==> CandidateOf(c, a) == Some(x) {}
  }

  /** One agent per id, so one candidate per agent id. */
  lemma SameAgentSameCandidate(c: Context, agents: seq<Agent>, x: Candidate, y: Candidate)
    requires UniqueIds(agents) && x in CandidatesOf(c, agents) && y in CandidatesOf(c, agents) && x.agentId == y.agentId
    ensures x == y
  {
    CandidateComesFromAgent(c, agents, x);
    CandidateComesFromAgent(c, agents, y);
    var a :| a in agents && CandidateOf(c, a) == Some(x);
    var b :| b in agents && CandidateOf(c, b) == Some(y);
    assert a.agentId == x.agentId && b.agentId == y.agentId;
  }

  lemma TiedSameAgent(x: Candidate, y: Candidate)
    requires KeyLe(x, y) && KeyLe(y, x)
    ensures x.agentId == y.agentId
  {
    IdsLeTotal(x, y);
  }

  lemma CandidatesSeparated(c: Context, agents: seq<Agent>)
    requires UniqueIds(agents)
    ensures Separates(KeyLe, CandidatesOf(c, agents))
  {
    var s := CandidatesOf(c, agents);
    forall x, y | x in s && y in s && KeyLe(x, y) && KeyLe(y, x) ensures x == y {
      TiedSameAgent(x, y);
      SameAgentSameCandidate(c, agents, x, y);
    }
  }

  //
  // The choice.
  //

  /** Nobody is ineligible without a reason. */
  lemma IneligibleHasReason(c: Context, agents: seq<Agent>, x: Candidate)
    requires x in CandidatesOf(c, agents)
    ensures x.eligible <==> x.reasons == []
  {
    CandidateComesFromAgent(c, agents, x);
  }

  /** Exactly one of "a route is selected" and "there is a reason why not". */
  lemma ExactlyOneOutcome(c: Context, agents: seq<Agent>)
    ensures Decide(c, agents).selected.Some? <==> Decide(c, agents).noRouteReasons == []
  {
    var d := Decide(c, agents);
    KeyLeIsTotalPreorder();
    SortByMembers(KeyLe, CandidatesOf(c, agents));
    if d.selected.None? && d.candidates != [] {
      var x := d.candidates[0];
      assert x in d.candidates;
      IneligibleHasReason(c, agents, x);
      assert x !in Eligible(d.candidates);
      assert x.reasons[0] in x.reasons;
      assert Text(x.reasons[0]) in Ascending(set y, r | y in d.candidates && r in y.reasons :: Text(r));
    }
  }

  /** The selected candidate is the least eligible one under the sort key, and is selected whenever
      anybody is eligible. */
  lemma SelectedIsLeast(c: Context, agents: seq<Agent>)
    ensures var d := Decide(c, agents);
            && (d.selected.Some? <==> exists x :: x in CandidatesOf(c, agents) && x.eligible)
            && (d.selected.Some? ==>
                  && d.selected.value in CandidatesOf(c, agents) && d.selected.value.eligible
                  && forall x :: x in CandidatesOf(c, agents) && x.eligible && x != d.selected.value ==>
                       KeyLe(d.selected.value, x))
  {
    var all, d := CandidatesOf(c, agents), Decide(c, agents);
    KeyLeIsTotalPreorder();
    SortByMembers(KeyLe, all);
    SortBySorted(KeyLe, all);
    FilterSorted(IsEligible, KeyLe, d.candidates);
    var e := Eligible(d.candidates);
    if e != [] {
      assert e[0] in e;
      forall x | x in all && x.eligible && x != e[0] ensures KeyLe(e[0], x) {
        assert x in e;
      }
    }
  }

  /** The whole decision is independent of the order in which agents are registered. */
  lemma DecisionOrderIndependent(c: Context, a: seq<Agent>, b: seq<Agent>)
    requires UniqueIds(a) && multiset(a) == multiset(b)
    ensures Decide(c, a) == Decide(c, b)
  {
    KeyLeIsTotalPreorder();
    FlatMapPermuted(Offer(c), a, b);
    CandidatesSeparated(c, a);
    SortByOrderIndependent(KeyLe, CandidatesOf(c, a), CandidatesOf(c, b));
  }

  /** The eligible candidates in routing order, hence the selection and every fallback, depend only
      on which candidates are eligible. */
  lemma OnlyEligibleMatter(c: Context, a: seq<Agent>, b: seq<Agent>)
    requires UniqueIds(a)
    requires multiset(Eligible(CandidatesOf(c, a))) == multiset(Eligible(CandidatesOf(c, b)))
    ensures Eligible(Decide(c, a).candidates) == Eligible(Decide(c, b).candidates)
    ensures Decide(c, a).selected == Decide(c, b).selected
  {
    var x, y := CandidatesOf(c, a), CandidatesOf(c, b);
    KeyLeIsTotalPreorder();
    SortBySorted(KeyLe, x);
    SortBySorted(KeyLe, y);
    FilterPermuted(IsEligible, SortBy(KeyLe, x), x);
    FilterPermuted(IsEligible, SortBy(KeyLe, y), y);
    FilterSorted(IsEligible, KeyLe, SortBy(KeyLe, x));
    FilterSorted(IsEligible, KeyLe, SortBy(KeyLe, y));
    CandidatesSeparated(c, a);
    SortByMembers(KeyLe, x);
    SortedUnique(KeyLe, Eligible(SortBy(KeyLe, x)), Eligible(SortBy(KeyLe, y)));
  }

  /** Registering one more agent that is incapable or ineligible, anywhere in the list, changes
      neither the selection nor the fallbacks. */
  lemma IrrelevantAgent(c: Context, before: seq<Agent>, extra: Agent, after: seq<Agent>)
    requires UniqueIds(before + after)
    requires CandidateOf(c, extra).Some? ==> !CandidateOf(c, extra).value.eligible
    ensures Decide(c, before + [extra] + after).selected == Decide(c, before + after).selected
    ensures Eligible(Decide(c, before + [extra] + after).candidates) == Eligible(Decide(c, before + after).candidates)
  {
    ExtraCandidates(c, before, extra, after);
    OfferIneligible(c, extra);
    IneligibleExtras(Offer(c)(extra), CandidatesOf(c, before + [extra] + after), CandidatesOf(c, before + after));
    OnlyEligibleMatter(c, before + after, before + [extra] + after);
  }

  lemma OfferIneligible(c: Context, extra: Agent)
    requires CandidateOf(c, extra).Some? ==> !CandidateOf(c, extra).value.eligible
    ensures forall x :: x in Offer(c)(extra) ==> !x.eligible
  {}

  lemma ExtraCandidates(c: Context, before: seq<Agent>, extra: Agent, after: seq<Agent>)
    ensures multiset(CandidatesOf(c, before + [extra] + after))
         == multiset(Offer(c)(extra)) + multiset(CandidatesOf(c, before + after))
  {
    FlatMapExtra(Offer(c), before, extra, after);
  }

  lemma IneligibleExtras(extras: seq<Candidate>, x: seq<Candidate>, y: seq<Candidate>)
    requires multiset(x) == multiset(extras) + multiset(y)
    requires forall e :: e in extras ==> !e.eligible
    ensures multiset(Eligible(x)) == multiset(Eligible(y))
  {
    forall e ensures multiset(Eligible(x))[e] == multiset(Eligible(y))[e] {
      FilterMultiset(IsEligible, x, e);
      FilterMultiset(IsEligible, y, e);
      assert multiset(extras)[e] > 0 ==> e in extras;
    }
  }
}
