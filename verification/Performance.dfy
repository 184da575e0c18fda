/** Summaries of observed performance, per target and capability.

Means are exact rationals rounded to the nearest integer, ties to the even neighbour; the rounding
error of binary floating point before that step is not modelled.
 */
module Performance {
  import opened Wrappers
  import opened Ordering

  datatype Observation = Observation(
    targetId: string,
    capabilityId: string,
    success: bool,
    latencyMs: nat,
    cost: Option<nat>,
    qualityMilli: nat,
    observedAt: int,
    synthetic: bool)
  {
    predicate Valid() { qualityMilli <= 1000 }
  }

  type Key = (string, string)

  datatype Refusal = SyntheticObservation

  datatype Summary = Summary(
    targetId: string,
    capabilityId: string,
    sampleCount: nat,
    successMilli: nat,
    qualityMilli: nat,
    meanLatencyMs: nat,
    meanCost: Option<nat>)

  /** Seven days in seconds. */
  const DEFAULT_MAX_AGE: int := 604800

  //
  // Rounded means.
  //

  lemma MulMono(d: nat, a: nat, b: nat)
    requires a <= b
    ensures d * a <= d * b
  {}

  /** `round(num / den)`, counted off two units at a time so that evenness is kept. */
  function RoundHalfEven(num: nat, den: nat): nat
    requires den > 0
  {
    if num >= 2 * den then RoundHalfEven(num - 2 * den, den) + 2
    else if 2 * num <= den then 0
    else if 2 * num < 3 * den then 1
    else 2
  }

  /** At most half a unit away from the quotient, and even when exactly half a unit away. */
  ghost predicate NearestEven(num: nat, den: nat, r: nat) {
    && 2 * (den * r - num) <= den
    && 2 * (num - den * r) <= den
    && (2 * (den * r - num) == den || 2 * (num - den * r) == den ==> r % 2 == 0)
  }

  lemma {:induction false} RoundIsNearestEven(num: nat, den: nat)
    requires den > 0
    ensures NearestEven(num, den, RoundHalfEven(num, den))
  {
    if num >= 2 * den {
      RoundIsNearestEven(num - 2 * den, den);
      NearestEvenShift(num - 2 * den, den, RoundHalfEven(num - 2 * den, den));
    } else {
      assert den * 0 == 0 && den * 1 == den && den * 2 == 2 * den;
    }
  }

  lemma NearestEvenShift(num: nat, den: nat, r: nat)
    requires NearestEven(num, den, r)
    ensures NearestEven(num + 2 * den, den, r + 2)
  {
    assert den * (r + 2) == den * r + 2 * den;
  }

  /** There is only one such integer. */
  lemma NearestEvenUnique(num: nat, den: nat, a: nat, b: nat)
    requires den > 0 && NearestEven(num, den, a) && NearestEven(num, den, b) && a <= b
    ensures a == b
  {
    assert den * (a + 1) == den * a + den;
    assert den * (a + 2) == den * a + 2 * den;
    if a + 1 <= b { MulMono(den, a + 1, b); }
    if a + 2 <= b { MulMono(den, a + 2, b); }
  }

  lemma {:induction false} RoundBetween(num: nat, den: nat, lo: nat, hi: nat)
    requires den > 0 && den * lo <= num <= den * hi
    ensures lo <= RoundHalfEven(num, den) <= hi
  {
    if num >= 2 * den {
      if hi < 2 { MulMono(den, hi, 1); }
      assert den * (hi - 2) == den * hi - 2 * den;
      assert lo >= 2 ==> den * (lo - 2) == den * lo - 2 * den;
      RoundBetween(num - 2 * den, den, if lo >= 2 then lo - 2 else 0, hi - 2);
    } else {
      if lo >= 2 { MulMono(den, 2, lo); }
      if hi < 1 { MulMono(den, hi, 0); } else if hi < 2 { MulMono(den, hi, 1); }
    }
  }

  function Sum<T>(f: T -> nat, s: seq<T>): nat {
    if s == [] then 0 else f(s[0]) + Sum(f, s[1..])
  }

  lemma MulSucc(n: nat, d: nat)
    ensures (n + 1) * d == d + n * d
  {}

  lemma {:induction false} SumBetween<T>(f: T -> nat, s: seq<T>, lo: nat, hi: nat)
    requires forall x :: x in s ==> lo <= f(x) <= hi
    ensures |s| * lo <= Sum(f, s) <= |s| * hi
  {
    if s != [] {
      var n := |s[1..]|;
      SumBetween(f, s[1..], lo, hi);
      assert s[0] in s;
      MulSucc(n, lo);
      MulSucc(n, hi);
    }
  }

  lemma {:induction false} SumConcat<T>(f: T -> nat, a: seq<T>, b: seq<T>)
    ensures Sum(f, a + b) == Sum(f, a) + Sum(f, b)
  {
    if a == [] {
      assert a + b == b;
    } else {
      SumConcat(f, a[1..], b);
      assert (a + b)[1..] == a[1..] + b;
    }
  }

  lemma SumWithout<T>(f: T -> nat, b: seq<T>, j: nat)
    requires j < |b|
    ensures Sum(f, b) == f(b[j]) + Sum(f, Without(b, j))
  {
    SumConcat(f, b[..j], b[j..]);
    SumConcat(f, b[..j], b[j+1..]);
    assert b == b[..j] + b[j..];
    assert b[j..][1..] == b[j+1..];
  }

  lemma {:induction false} SumPermuted<T>(f: T -> nat, a: seq<T>, b: seq<T>)
    requires multiset(a) == multiset(b)
    ensures Sum(f, a) == Sum(f, b)
    decreases |a|
  {
    if a == [] {
      assert |multiset(b)| == 0;
    } else {
      var j := WithoutHead(a, b);
      SumPermuted(f, a[1..], Without(b, j));
      SumWithout(f, b, j);
    }
  }

  //
  // One group.
  //

  function Succeeded(o: Observation): nat { if o.success then 1 else 0 }
  function Quality(o: Observation): nat { o.qualityMilli }
  function Latency(o: Observation): nat { o.latencyMs }
  function Self(n: nat): nat { n }

  function CostOf(o: Observation): seq<nat> { if o.cost.Some? then [o.cost.value] else [] }

  /** The recorded costs, in order. */
  function Costs(items: seq<Observation>): seq<nat> { FlatMap(CostOf, items) }

  function SummaryOf(key: Key, items: seq<Observation>): Summary
    requires items != []
  {
    var n, costs := |items|, Costs(items);
    Summary(key.0, key.1, n,
            RoundHalfEven(Sum(Succeeded, items) * 1000, n),
            RoundHalfEven(Sum(Quality, items), n),
            RoundHalfEven(Sum(Latency, items), n),
            if costs == [] then None else Some(RoundHalfEven(Sum(Self, costs), |costs|)))
  }

  lemma CostsCome(items: seq<Observation>, c: nat)
    requires c in Costs(items)
    ensures exists o :: o in items && o.cost == Some(c)
  {
    FlatMapMembers(CostOf, items, c);
    var o :| o in items && c in CostOf(o);
  }

  /** Every mean stays between the least and the greatest value it averages. */
  lemma MeansWithinData(key: Key, items: seq<Observation>, lo: Observation, hi: Observation)
    requires items != []
    requires forall o :: o in items ==>
               && lo.qualityMilli <= o.qualityMilli <= hi.qualityMilli
               && lo.latencyMs <= o.latencyMs <= hi.latencyMs
    requires lo.cost.Some? && hi.cost.Some?
    requires forall o :: o in items && o.cost.Some? ==> lo.cost.value <= o.cost.value <= hi.cost.value
    ensures var s := SummaryOf(key, items);
            && s.successMilli <= 1000
            && lo.qualityMilli <= s.qualityMilli <= hi.qualityMilli
            && lo.latencyMs <= s.meanLatencyMs <= hi.latencyMs
            && (s.meanCost.Some? ==> lo.cost.value <= s.meanCost.value <= hi.cost.value)
  {
    var n, costs := |items|, Costs(items);
    SumBetween(Succeeded, items, 0, 1);
    RoundBetween(Sum(Succeeded, items) * 1000, n, 0, 1000);
    SumBetween(Quality, items, lo.qualityMilli, hi.qualityMilli);
    RoundBetween(Sum(Quality, items), n, lo.qualityMilli, hi.qualityMilli);
    SumBetween(Latency, items, lo.latencyMs, hi.latencyMs);
    RoundBetween(Sum(Latency, items), n, lo.latencyMs, hi.latencyMs);
    if costs != [] {
      forall c | c in costs ensures lo.cost.value <= c <= hi.cost.value { CostsCome(items, c); }
      SumBetween(Self, costs, lo.cost.value, hi.cost.value);
      RoundBetween(Sum(Self, costs), |costs|, lo.cost.value, hi.cost.value);
    }
  }

  /** Each figure of a summary is the nearest-even rounding of its mean. */
  lemma SummaryRoundsMeans(key: Key, items: seq<Observation>)
    requires items != []
    ensures var s, n := SummaryOf(key, items), |items|;
            && s.targetId == key.0 && s.capabilityId == key.1 && s.sampleCount == n
            && NearestEven(1000 * Sum(Succeeded, items), n, s.successMilli)
            && NearestEven(Sum(Quality, items), n, s.qualityMilli)
            && NearestEven(Sum(Latency, items), n, s.meanLatencyMs)
            && (s.meanCost.Some? <==> Costs(items) != [])
            && (s.meanCost.Some? ==> NearestEven(Sum(Self, Costs(items)), |Costs(items)|, s.meanCost.value))
  {
    var n := |items|;
    RoundIsNearestEven(Sum(Succeeded, items) * 1000, n);
    RoundIsNearestEven(Sum(Quality, items), n);
    RoundIsNearestEven(Sum(Latency, items), n);
    if Costs(items) != [] { RoundIsNearestEven(Sum(Self, Costs(items)), |Costs(items)|); }
  }

  lemma {:induction false} RoundOverOne(n: nat)
    ensures RoundHalfEven(n, 1) == n
  {
    if n >= 2 { RoundOverOne(n - 2); }
  }

  lemma MeanOfOne<T>(f: T -> nat, x: T)
    ensures Sum(f, [x]) == f(x) && RoundHalfEven(f(x), 1) == f(x)
  {
    assert [x][1..] == [];
    RoundOverOne(f(x));
  }

  /** The summary of a single observation repeats it. */
  lemma SummaryOfOne(key: Key, o: Observation)
    ensures SummaryOf(key, [o]) == Summary(key.0, key.1, 1, 1000 * Succeeded(o), o.qualityMilli, o.latencyMs, o.cost)
  {
    MeanOfOne(Succeeded, o);
    RoundOverOne(Succeeded(o) * 1000);
    MeanOfOne(Quality, o);
    MeanOfOne(Latency, o);
    FlatMapSnoc(CostOf, [], o);
    assert [] + [o] == [o];
    assert Costs([o]) == CostOf(o);
    if o.cost.Some? { MeanOfOne(Self, o.cost.value); }
  }

  /** What routing relies on: both milli figures stay within 0..1000. */
  lemma SummaryBounded(key: Key, items: seq<Observation>)
    requires items != [] && forall o :: o in items ==> o.Valid()
    ensures SummaryOf(key, items).successMilli <= 1000 && SummaryOf(key, items).qualityMilli <= 1000
  {
    SumBetween(Succeeded, items, 0, 1);
    RoundBetween(Sum(Succeeded, items) * 1000, |items|, 0, 1000);
    SumBetween(Quality, items, 0, 1000);
    RoundBetween(Sum(Quality, items), |items|, 0, 1000);
  }

  lemma SummaryPermuted(key: Key, a: seq<Observation>, b: seq<Observation>)
    requires a != [] && b != [] && multiset(a) == multiset(b)
    ensures SummaryOf(key, a) == SummaryOf(key, b)
  {
    assert |a| == |multiset(a)| == |multiset(b)| == |b|;
    SumPermuted(Succeeded, a, b);
    SumPermuted(Quality, a, b);
    SumPermuted(Latency, a, b);
    FlatMapPermuted(CostOf, a, b);
    assert |Costs(a)| == |multiset(Costs(a))| == |multiset(Costs(b))| == |Costs(b)|;
    SumPermuted(Self, Costs(a), Costs(b));
  }

  //
  // Grouping.
  //

  function KeyOf(o: Observation): Key { (o.targetId, o.capabilityId) }

  predicate Current(o: Observation, now: int, maxAge: int) { now - o.observedAt <= maxAge }

  /** Recent enough, and belonging to `key`. */
  function InGroup(key: Key, now: int, maxAge: int): Observation -> bool {
    (o: Observation) => Current(o, now, maxAge) && KeyOf(o) == key
  }

  function Group(obs: seq<Observation>, key: Key, now: int, maxAge: int): seq<Observation> {
    Filter(InGroup(key, now, maxAge), obs)
  }

  lemma GroupMembers(obs: seq<Observation>, key: Key, now: int, maxAge: int, o: Observation)
    ensures o in Group(obs, key, now, maxAge) <==> o in obs && Current(o, now, maxAge) && KeyOf(o) == key
  {
    FilterMembers(InGroup(key, now, maxAge), obs);
  }

  /** A key has a group exactly when some recent observation has that key. */
  lemma GroupNonempty(obs: seq<Observation>, key: Key, now: int, maxAge: int)
    ensures Group(obs, key, now, maxAge) != [] <==> exists o :: o in obs && Current(o, now, maxAge) && KeyOf(o) == key
  {
    var g := Group(obs, key, now, maxAge);
    if g != [] { GroupMembers(obs, key, now, maxAge, g[0]); }
    if o :| o in obs && Current(o, now, maxAge) && KeyOf(o) == key { GroupMembers(obs, key, now, maxAge, o); }
  }

  /** A summary does not depend on the order in which observations arrive. */
  lemma GroupSummaryOrderIndependent(a: seq<Observation>, b: seq<Observation>, key: Key, now: int, maxAge: int)
    requires multiset(a) == multiset(b)
    ensures Group(a, key, now, maxAge) == [] <==> Group(b, key, now, maxAge) == []
    ensures Group(a, key, now, maxAge) != [] ==>
              SummaryOf(key, Group(a, key, now, maxAge)) == SummaryOf(key, Group(b, key, now, maxAge))
  {
    var ga, gb := Group(a, key, now, maxAge), Group(b, key, now, maxAge);
    FilterPermuted(InGroup(key, now, maxAge), a, b);
    assert |ga| == |multiset(ga)| == |multiset(gb)| == |gb|;
    if ga != [] { SummaryPermuted(key, ga, gb); }
  }

  /** The groups by key; a key is there exactly when it has a recent observation. */
  function Groups(obs: seq<Observation>, now: int, maxAge: int): (g: map<Key, seq<Observation>>)
    ensures forall k :: k in g <==> Group(obs, k, now, maxAge) != []
    ensures forall k :: k in g ==> g[k] == Group(obs, k, now, maxAge)
  {
    var keys := set o | o in obs && Current(o, now, maxAge) :: KeyOf(o);
    assert forall k :: k in keys <==> Group(obs, k, now, maxAge) != [] by {
      forall k ensures k in keys <==> Group(obs, k, now, maxAge) != [] { GroupNonempty(obs, k, now, maxAge); }
    }
    map k | k in keys :: Group(obs, k, now, maxAge)
  }

  function SummariesOf(g: map<Key, seq<Observation>>): map<Key, Summary>
    requires forall k :: k in g ==> g[k] != []
  {
    map k | k in g :: SummaryOf(k, g[k])
  }

  /** A key is summarized exactly when it has a recent observation, and then by its whole group. */
  function Summaries(obs: seq<Observation>, now: int, maxAge: int): map<Key, Summary> {
    SummariesOf(Groups(obs, now, maxAge))
  }

  /** Every summary the router may see has both milli figures within 0..1000. */
  lemma SummariesBounded(obs: seq<Observation>, now: int, maxAge: int, k: Key)
    requires forall o :: o in obs ==> o.Valid()
    requires k in Summaries(obs, now, maxAge)
    ensures var s := Summaries(obs, now, maxAge)[k]; s.successMilli <= 1000 && s.qualityMilli <= 1000
  {
    forall o | o in Group(obs, k, now, maxAge) ensures o.Valid() { GroupMembers(obs, k, now, maxAge, o); }
    SummaryBounded(k, Group(obs, k, now, maxAge));
  }

  lemma SummariesAt(obs: seq<Observation>, now: int, maxAge: int, k: Key)
    ensures k in Summaries(obs, now, maxAge) <==> Group(obs, k, now, maxAge) != []
    ensures k in Summaries(obs, now, maxAge) ==> Summaries(obs, now, maxAge)[k] == SummaryOf(k, Group(obs, k, now, maxAge))
  {}

  ghost predicate AgreeAt(x: map<Key, Summary>, y: map<Key, Summary>, k: Key) {
    (k in x <==> k in y) && (k in x && k in y ==> x[k] == y[k])
  }

  lemma SameTable(x: map<Key, Summary>, y: map<Key, Summary>)
    requires forall k :: AgreeAt(x, y, k)
    ensures x == y
  {
    forall k ensures (k in x <==> k in y) && (k in x && k in y ==> x[k] == y[k]) { assert AgreeAt(x, y, k); }
  }

  lemma SameSummaryAt(a: seq<Observation>, b: seq<Observation>, now: int, maxAge: int, k: Key)
    requires multiset(a) == multiset(b)
    ensures AgreeAt(Summaries(a, now, maxAge), Summaries(b, now, maxAge), k)
  {
    SummariesAt(a, now, maxAge, k);
    SummariesAt(b, now, maxAge, k);
    GroupSummaryOrderIndependent(a, b, k, now, maxAge);
  }

  /** The whole table is independent of the order of the observations. */
  lemma SummariesOrderIndependent(a: seq<Observation>, b: seq<Observation>, now: int, maxAge: int)
    requires multiset(a) == multiset(b)
    ensures Summaries(a, now, maxAge) == Summaries(b, now, maxAge)
  {
    forall k ensures AgreeAt(Summaries(a, now, maxAge), Summaries(b, now, maxAge), k) { SameSummaryAt(a, b, now, maxAge, k); }
    SameTable(Summaries(a, now, maxAge), Summaries(b, now, maxAge));
  }

  ghost predicate Grouped(g: map<Key, seq<Observation>>, obs: seq<Observation>, now: int, maxAge: int) {
    && (forall k :: k in g <==> Group(obs, k, now, maxAge) != [])
    && (forall k :: k in g ==> g[k] == Group(obs, k, now, maxAge))
  }

  lemma GroupSnoc(obs: seq<Observation>, o: Observation, k: Key, now: int, maxAge: int)
    ensures Group(obs + [o], k, now, maxAge) ==
            Group(obs, k, now, maxAge) + if Current(o, now, maxAge) && KeyOf(o) == k then [o] else []
  {
    FilterSnoc(InGroup(k, now, maxAge), obs, o);
  }

  lemma GroupedStep(g: map<Key, seq<Observation>>, obs: seq<Observation>, o: Observation, now: int, maxAge: int)
    requires Grouped(g, obs, now, maxAge)
    ensures !Current(o, now, maxAge) ==> Grouped(g, obs + [o], now, maxAge)
    ensures Current(o, now, maxAge) ==>
              Grouped(g[KeyOf(o) := (if KeyOf(o) in g then g[KeyOf(o)] else []) + [o]], obs + [o], now, maxAge)
  {
    forall k ensures Group(obs + [o], k, now, maxAge) ==
                     Group(obs, k, now, maxAge) + if Current(o, now, maxAge) && KeyOf(o) == k then [o] else []
    {
      GroupSnoc(obs, o, k, now, maxAge);
    }
  }

  method GroupObservations(obs: seq<Observation>, now: int, maxAge: int, allowSynthetic: bool)
    returns (r: Result<map<Key, seq<Observation>>, Refusal>)
    ensures r.Err? <==> !allowSynthetic && exists o :: o in obs && o.synthetic
    ensures r.Ok? ==> Grouped(r.value, obs, now, maxAge)
  {
    var grouped: map<Key, seq<Observation>> := map[];
    for i := 0 to |obs|
      invariant Grouped(grouped, obs[..i], now, maxAge)
      invariant !allowSynthetic ==> forall k :: 0 <= k < i ==> !obs[k].synthetic
    {
      var item := obs[i];
      if item.synthetic && !allowSynthetic {
        assert obs[i] in obs;
        return Err(SyntheticObservation);
      }
      assert obs[..i+1] == obs[..i] + [item];
      GroupedStep(grouped, obs[..i], item, now, maxAge);
      if now - item.observedAt <= maxAge {
        var k := KeyOf(item);
        grouped := grouped[k := (if k in grouped then grouped[k] else []) + [item]];
      }
    }
    assert obs[..|obs|] == obs;
    return Ok(grouped);
  }

  method SummarizeGroups(grouped: map<Key, seq<Observation>>) returns (result: map<Key, Summary>)
    requires forall k :: k in grouped ==> grouped[k] != []
    ensures result == SummariesOf(grouped)
  {
    result := map[];
    var keys := grouped.Keys;
    while keys != {}
      invariant keys <= grouped.Keys
      invariant result.Keys == grouped.Keys - keys
      invariant forall k :: k in result ==> result[k] == SummaryOf(k, grouped[k])
      decreases keys
    {
      var k :| k in keys;
      result := result[k := SummaryOf(k, grouped[k])];
      keys := keys - {k};
    }
  }

  method Summarize(obs: seq<Observation>, now: int, maxAge: int, allowSynthetic: bool)
    returns (r: Result<map<Key, Summary>, Refusal>)
    ensures r.Err? <==> !allowSynthetic && exists o :: o in obs && o.synthetic
    ensures r.Ok? ==> r.value == Summaries(obs, now, maxAge)
  {
    var g := GroupObservations(obs, now, maxAge, allowSynthetic);
    if g.Err? {
      return Err(g.error);
    }
    var result := SummarizeGroups(g.value);
    assert g.value == Groups(obs, now, maxAge);
    return Ok(result);
  }
}
