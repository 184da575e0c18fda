/** How large a gap in the policy order decides between two candidates, over all routing calls. */
module RankGap {
  import opened Wrappers
  import opened Ordering
  import opened Router
  import opened RouterProperties
  import opened RouteSpec
  import Circuit
  import Performance

  /** What the router does not refuse: observations within their declared ranges, none synthetic. */
  ghost predicate Acceptable(i: Inputs) {
    i.policy.Valid() && forall o :: o in i.obs ==> o.Valid() && !o.synthetic
  }

  /** Two capable agents of equal eligibility, the first at least `g` ranks ahead of the second. */
  predicate Ahead(c: Context, a: Agent, b: Agent, g: nat) {
    && Capable(c, a) && Capable(c, b)
    && CandidateOf(c, a).value.eligible == CandidateOf(c, b).value.eligible
    && CandidateOf(c, a).value.rank + g <= CandidateOf(c, b).value.rank
  }

  /** In every call, being `g` ranks ahead settles the matter. */
  ghost predicate GapDecides(g: nat) {
    forall i: Inputs, a: Agent, b: Agent ::
      Acceptable(i) && a in i.registry.agents && b in i.registry.agents && Ahead(ContextFor(i), a, b, g) ==>
        Before(CandidateOf(ContextFor(i), a).value, CandidateOf(ContextFor(i), b).value)
  }

  //
  // A call in which twelve ranks are not enough: the provider that is ahead is remote, low on quota
  // and known for slow, costly failures; the one behind is local, healthy and known for quick,
  // perfect answers.
  //

  const AHEAD := Agent("x", "m", {"k"}, Qualified)
  const BEHIND := Agent("y", "n", {"k"}, Qualified)

  const REMOTE := Provider("a", "remote", {"k"}, true, false, false)
  const LOCAL := Provider("b", "local", {"k"}, true, true, false)

  const MODEL_AHEAD := Model("m", "a", "m", {"k"}, "any", Qualified)
  const MODEL_BEHIND := Model("n", "b", "n", {"k"}, "any", Qualified)

  const FAILED := Performance.Observation("x", "k", false, 20000, Some(2000000), 0, 0, false)
  const ANSWERED := Performance.Observation("y", "k", true, 0, None, 1000, 0, false)

  /** `front` may be any providers preferred before both, `between` the ones that separate them. */
  function TwelveApart(front: seq<string>, between: seq<string>): Inputs {
    Inputs(Request("t", ["k"], "any", None, true, true, false),
           Registry("r", [REMOTE, LOCAL], [MODEL_AHEAD, MODEL_BEHIND], [AHEAD, BEHIND],
                    [RoutePolicy("k", front + ["a"], between + ["b"], true)]),
           [StateObservation("a", QuotaLow), StateObservation("b", Healthy)],
           [], [FAILED, ANSWERED], Circuit.Policy(3, 60, 1), 0)
  }

  lemma IndexByOne<T>(x: T, key: T -> string)
    ensures IndexBy([x], key) == map[key(x) := x]
  {
    assert [x][..0] == [];
  }

  lemma IndexByTwo<T>(x: T, y: T, key: T -> string)
    requires key(x) != key(y)
    ensures IndexBy([x, y], key) == map[key(x) := x, key(y) := y]
  {
    assert [x, y][..1] == [x];
    IndexByOne(x, key);
  }

  //
  // What matters about the call, as its context has it.
  //

  ghost predicate Registered(c: Context) {
    && c.request == Request("t", ["k"], "any", None, true, true, false)
    && c.providers == map["a" := REMOTE, "b" := LOCAL]
    && c.models == map["m" := MODEL_AHEAD, "n" := MODEL_BEHIND]
  }

  ghost predicate Pressed(c: Context) {
    && c.states == map["a" := QuotaLow, "b" := Healthy]
    && c.circuits == map[]
    && c.underPressure
  }

  ghost predicate Ranked(c: Context, rank: nat) {
    RankOf(c.order, "a") == rank && RankOf(c.order, "b") == rank + 12
  }

  ghost predicate Summarized(c: Context) {
    && SummaryFor(c, "x", "m", ["k"]) == Some(Performance.Summary("x", "k", 1, 0, 0, 20000, Some(2000000)))
    && SummaryFor(c, "y", "n", ["k"]) == Some(Performance.Summary("y", "k", 1, 1000, 1000, 0, None))
  }

  ghost predicate Scene(c: Context, rank: nat) {
    Registered(c) && Pressed(c) && Ranked(c, rank) && Summarized(c)
  }

  lemma RegisteredHere(front: seq<string>, between: seq<string>)
    ensures Registered(ContextFor(TwelveApart(front, between)))
  {
    IndexByTwo(REMOTE, LOCAL, ProviderKey);
    IndexByTwo(MODEL_AHEAD, MODEL_BEHIND, ModelKey);
  }

  lemma PolicyHere(front: seq<string>, between: seq<string>)
    ensures var i := TwelveApart(front, between);
            PrimaryPolicy(i.request, i.registry) == Some(RoutePolicy("k", front + ["a"], between + ["b"], true))
  {
    IndexByOne(RoutePolicy("k", front + ["a"], between + ["b"], true), PolicyKey);
  }

  lemma PressedHere(front: seq<string>, between: seq<string>)
    ensures Pressed(ContextFor(TwelveApart(front, between)))
    ensures ContextFor(TwelveApart(front, between)).order == front + ["a"] + (between + ["b"])
  {
    var i, c := TwelveApart(front, between), ContextFor(TwelveApart(front, between));
    PolicyHere(front, between);
    IndexByTwo(i.states[0], i.states[1], StateKey);
    assert IndexBy(i.records, RecordKey) == map[];
    assert (front + ["a"])[|front|] == "a";
    assert Strained(c.states, c.circuits, c.circuitPolicy, c.now, "a");
  }

  lemma RankAt(order: seq<string>, k: nat, id: string)
    requires k < |order| && order[k] == id && id !in order[k+1..]
    ensures RankOf(order, id) == k
  {
    RankOfListed(order, id);
    var r := RankOf(order, id);
    assert forall j :: r < j < |order| ==> order[j] == order[r+1..][j-r-1];
    assert forall j :: k < j < |order| ==> order[j] == order[k+1..][j-k-1];
  }

  lemma RanksOf(front: seq<string>, between: seq<string>, order: seq<string>)
    requires |between| == 11 && "a" !in between && order == front + ["a"] + (between + ["b"])
    ensures RankOf(order, "a") == |front| && RankOf(order, "b") == |front| + 12
  {
    assert order[|front|] == "a" && order[|front|+1..] == between + ["b"];
    RankAt(order, |front|, "a");
    assert order[|front|+12] == "b" && order[|front|+13..] == [];
    RankAt(order, |front| + 12, "b");
  }

  lemma OnlyOne(x: Performance.Observation, y: Performance.Observation, k: Performance.Key, now: int, maxAge: int)
    requires Performance.Current(x, now, maxAge) && Performance.Current(y, now, maxAge)
    ensures Performance.Group([x, y], k, now, maxAge) ==
              (if Performance.KeyOf(x) == k then [x] else []) + (if Performance.KeyOf(y) == k then [y] else [])
  {
    Performance.GroupSnoc([], x, k, now, maxAge);
    Performance.GroupSnoc([x], y, k, now, maxAge);
    assert [] + [x] == [x] && [x] + [y] == [x, y];
  }

  lemma SummaryAt(obs: seq<Performance.Observation>, k: Performance.Key, o: Performance.Observation, now: int, maxAge: int)
    requires Performance.Group(obs, k, now, maxAge) == [o]
    ensures k in Performance.Summaries(obs, now, maxAge)
    ensures Performance.Summaries(obs, now, maxAge)[k] ==
              Performance.Summary(k.0, k.1, 1, 1000 * Performance.Succeeded(o), o.qualityMilli, o.latencyMs, o.cost)
  {
    Performance.SummaryOfOne(k, o);
  }

  lemma TwoSummaries(x: Performance.Observation, y: Performance.Observation, now: int, maxAge: int)
    requires Performance.Current(x, now, maxAge) && Performance.Current(y, now, maxAge) && Performance.KeyOf(x) != Performance.KeyOf(y)
    ensures var t := Performance.Summaries([x, y], now, maxAge);
            forall o :: o in {x, y} ==>
              var k := Performance.KeyOf(o);
              k in t && t[k] == Performance.Summary(k.0, k.1, 1, 1000 * Performance.Succeeded(o), o.qualityMilli, o.latencyMs, o.cost)
  {
    OnlyOne(x, y, Performance.KeyOf(x), now, maxAge);
    OnlyOne(x, y, Performance.KeyOf(y), now, maxAge);
    SummaryAt([x, y], Performance.KeyOf(x), x, now, maxAge);
    SummaryAt([x, y], Performance.KeyOf(y), y, now, maxAge);
  }

  lemma TableSummarized(c: Context)
    requires c.performance == Performance.Summaries([FAILED, ANSWERED], 0, Performance.DEFAULT_MAX_AGE)
    ensures Summarized(c)
  {
    assert "x"[0] != "y"[0];
    TwoSummaries(FAILED, ANSWERED, 0, Performance.DEFAULT_MAX_AGE);
    assert FAILED in {FAILED, ANSWERED} && ANSWERED in {FAILED, ANSWERED};
  }

  lemma SummarizedHere(front: seq<string>, between: seq<string>)
    ensures Summarized(ContextFor(TwelveApart(front, between)))
  {
    TableSummarized(ContextFor(TwelveApart(front, between)));
  }

  lemma AcceptableHere(front: seq<string>, between: seq<string>)
    ensures Acceptable(TwelveApart(front, between))
  {}

  lemma SceneSet(front: seq<string>, between: seq<string>)
    requires |between| == 11 && "a" !in between
    ensures Scene(ContextFor(TwelveApart(front, between)), |front|)
  {
    RegisteredHere(front, between);
    PressedHere(front, between);
    RanksOf(front, between, ContextFor(TwelveApart(front, between)).order);
    SummarizedHere(front, between);
  }

  lemma Scored(c: Context, rank: nat)
    requires Scene(c, rank)
    ensures Capable(c, AHEAD) && Capable(c, BEHIND)
    ensures CandidateOf(c, AHEAD).value.rank == rank && CandidateOf(c, BEHIND).value.rank == rank + 12
    ensures CandidateOf(c, AHEAD).value.score == 100000 - rank * 1000 - 4500
    ensures CandidateOf(c, BEHIND).value.score == 100000 - (rank + 12) * 1000 + 7800
  {
    assert "m"[0] != "n"[0] && "a"[0] != "b"[0];
  }

  lemma BothEligible(c: Context, rank: nat)
    requires Scene(c, rank) && Capable(c, AHEAD) && Capable(c, BEHIND)
    ensures CandidateOf(c, AHEAD).value.eligible && CandidateOf(c, BEHIND).value.eligible
  {
    assert "m"[0] != "n"[0] && "a"[0] != "b"[0];
    EligibleIffAdmissible(c, AHEAD);
    EligibleIffAdmissible(c, BEHIND);
  }

  /** `a` is `g` ranks ahead of `b`, and `b` is the one that gets selected. */
  ghost predicate Upset(c: Context, agents: seq<Agent>, a: Agent, b: Agent, g: nat) {
    && a in agents && b in agents && Ahead(c, a, b, g)
    && Before(CandidateOf(c, b).value, CandidateOf(c, a).value)
    && Decide(c, agents).selected == CandidateOf(c, b)
  }

  lemma BehindWins(c: Context, rank: nat)
    requires Scene(c, rank)
    ensures Upset(c, [AHEAD, BEHIND], AHEAD, BEHIND, 12)
  {
    Scored(c, rank);
    BothEligible(c, rank);
    SecondSelected(c, AHEAD, BEHIND);
  }

  /** Twelve ranks ahead, at any rank, and still the other one is selected. */
  lemma GapOfTwelveMayLose(front: seq<string>, between: seq<string>)
    requires |between| == 11 && "a" !in between
    ensures var i := TwelveApart(front, between);
            Acceptable(i) && Upset(ContextFor(i), i.registry.agents, AHEAD, BEHIND, 12)
  {
    AcceptableHere(front, between);
    SceneSet(front, between);
    BehindWins(ContextFor(TwelveApart(front, between)), |front|);
  }

  lemma TwoCandidates(c: Context, a: Agent, b: Agent)
    requires Capable(c, a) && Capable(c, b)
    ensures CandidatesOf(c, [a, b]) == [CandidateOf(c, a).value, CandidateOf(c, b).value]
  {
    FlatMapSnoc(Offer(c), [], a);
    FlatMapSnoc(Offer(c), [a], b);
    assert [] + [a] == [a] && [a] + [b] == [a, b];
  }

  lemma SecondSelected(c: Context, a: Agent, b: Agent)
    requires Capable(c, a) && Capable(c, b) && CandidateOf(c, b).value.eligible
    requires Before(CandidateOf(c, b).value, CandidateOf(c, a).value)
    ensures Decide(c, [a, b]).selected == CandidateOf(c, b)
  {
    SelectedIsLeast(c, [a, b]);
    TwoCandidates(c, a, b);
    var all := CandidatesOf(c, [a, b]);
    assert all[0] in all && all[1] in all;
  }

  lemma UpsetRefutes(i: Inputs, a: Agent, b: Agent, g: nat)
    requires g <= 12 && Acceptable(i) && Upset(ContextFor(i), i.registry.agents, a, b, 12)
    ensures !GapDecides(g)
  {
    assert Ahead(ContextFor(i), a, b, g);
  }

  /** A gap decides in every routing call exactly when it is thirteen or more. */
  lemma RankGapIff(g: nat)
    ensures GapDecides(g) <==> g >= 13
  {
    if g >= 13 {
      forall i: Inputs, a: Agent, b: Agent
        | Acceptable(i) && a in i.registry.agents && b in i.registry.agents && Ahead(ContextFor(i), a, b, g)
        ensures Before(CandidateOf(ContextFor(i), a).value, CandidateOf(ContextFor(i), b).value)
      {
        RankGapDecides(ContextFor(i), i.obs, a, b);
      }
    } else {
      var between := seq(11, _ => "c");
      GapOfTwelveMayLose([], between);
      var i := TwelveApart([], between);
      UpsetRefutes(i, AHEAD, BEHIND, g);
    }
  }
}
