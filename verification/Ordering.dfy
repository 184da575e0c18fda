/** Orders and sorting used across the model.

Python's `sorted` is stable and compares strings code point by code point. This module gives the
string order, a stable sort by an arbitrary "comes no later than" relation, the ascending listing
of a set of strings, and the uniqueness facts that make a sorted result independent of the order
in which the input was visited.
 */
module Ordering {

  /** Code point order on strings; a proper prefix comes first. */
  predicate StringLess(a: string, b: string) {
    |b| > 0 && (|a| == 0 || a[0] < b[0] || (a[0] == b[0] && StringLess(a[1..], b[1..])))
  }

  predicate StringLe(a: string, b: string) {
    a == b || StringLess(a, b)
  }

  lemma {:induction false} StringTrichotomy(a: string, b: string)
    ensures a == b || StringLess(a, b) || StringLess(b, a)
    ensures !(StringLess(a, b) && StringLess(b, a))
    ensures a == b ==> !StringLess(a, b)
  {
    if |a| > 0 && |b| > 0 {
      StringTrichotomy(a[1..], b[1..]);
      assert a == [a[0]] + a[1..] && b == [b[0]] + b[1..];
    }
  }

  lemma {:induction false} StringLessTransitive(a: string, b: string, c: string)
    requires StringLess(a, b) && StringLess(b, c)
    ensures StringLess(a, c)
  {
    if |a| > 0 && a[0] == b[0] == c[0] {
      StringLessTransitive(a[1..], b[1..], c[1..]);
    }
  }

  /** Every pair in index order is related. */
  ghost predicate Sorted<T>(le: (T, T) -> bool, s: seq<T>) {
    forall i, j :: 0 <= i < j < |s| ==> le(s[i], s[j])
  }

  ghost predicate TotalPreorder<T(!new)>(le: (T, T) -> bool) {
    (forall x, y :: le(x, y) || le(y, x)) &&
    (forall x, y, z :: le(x, y) && le(y, z) ==> le(x, z))
  }

  /** Puts `x` in front of the first element it does not have to follow. */
  function Insert<T>(le: (T, T) -> bool, x: T, s: seq<T>): seq<T> {
    if s == [] then [x]
    else if le(x, s[0]) then [x] + s
    else [s[0]] + Insert(le, x, s[1..])
  }

  /** Stable sort. */
  function SortBy<T>(le: (T, T) -> bool, s: seq<T>): seq<T> {
    if s == [] then [] else Insert(le, s[0], SortBy(le, s[1..]))
  }

  lemma {:induction false} InsertMultiset<T>(le: (T, T) -> bool, x: T, s: seq<T>)
    ensures multiset(Insert(le, x, s)) == multiset(s) + multiset{x}
  {
    if s != [] && !le(x, s[0]) {
      InsertMultiset(le, x, s[1..]);
      assert s == [s[0]] + s[1..];
    }
  }

  lemma InsertMembers<T>(le: (T, T) -> bool, x: T, s: seq<T>, y: T)
    requires y in Insert(le, x, s)
    ensures y == x || y in s
  {
    InsertMultiset(le, x, s);
    assert y in multiset(Insert(le, x, s));
  }

  lemma SortedCons<T>(le: (T, T) -> bool, x: T, s: seq<T>)
    requires Sorted(le, s) && forall y :: y in s ==> le(x, y)
    ensures Sorted(le, [x] + s)
  {
    var r := [x] + s;
    forall i, j | 0 <= i < j < |r| ensures le(r[i], r[j]) {
      assert r[j] == s[j-1] && r[j] in s;
      if i > 0 { assert r[i] == s[i-1]; }
    }
  }

  lemma {:induction false} InsertSorted<T(!new)>(le: (T, T) -> bool, x: T, s: seq<T>)
    requires TotalPreorder(le) && Sorted(le, s)
    ensures Sorted(le, Insert(le, x, s))
  {
    if s == [] {
    } else if le(x, s[0]) {
      forall y | y in s ensures le(x, y) {
        var k :| 0 <= k < |s| && s[k] == y;
        assert k > 0 ==> le(s[0], s[k]);
      }
      SortedCons(le, x, s);
    } else {
      SortedTail(le, s);
      InsertSorted(le, x, s[1..]);
      var t := Insert(le, x, s[1..]);
      forall y | y in t ensures le(s[0], y) {
        InsertMembers(le, x, s[1..], y);
        if y in s[1..] { var k :| 0 <= k < |s[1..]| && s[1..][k] == y; assert le(s[0], s[k+1]); }
      }
      SortedCons(le, s[0], t);
    }
  }

  lemma {:induction false} SortBySorted<T(!new)>(le: (T, T) -> bool, s: seq<T>)
    requires TotalPreorder(le)
    ensures Sorted(le, SortBy(le, s))
    ensures multiset(SortBy(le, s)) == multiset(s)
  {
    if s != [] {
      SortBySorted(le, s[1..]);
      InsertSorted(le, s[0], SortBy(le, s[1..]));
      InsertMultiset(le, s[0], SortBy(le, s[1..]));
      assert s == [s[0]] + s[1..];
    }
  }

  /** Sorting a sequence permutes it, so membership and length are kept. */
  lemma SortByMembers<T(!new)>(le: (T, T) -> bool, s: seq<T>)
    requires TotalPreorder(le)
    ensures |SortBy(le, s)| == |s|
    ensures forall x :: x in SortBy(le, s) <==> x in s
  {
    SortBySorted(le, s);
    var r := SortBy(le, s);
    assert |multiset(r)| == |r| && |multiset(s)| == |s|;
    forall x ensures x in r <==> x in s {
      assert x in r <==> x in multiset(r);
      assert x in s <==> x in multiset(s);
    }
  }

  /** No two different elements of `s` are mutually related. */
  ghost predicate Separates<T>(le: (T, T) -> bool, s: seq<T>) {
    forall x, y :: x in s && y in s && le(x, y) && le(y, x) ==> x == y
  }

  lemma TailMultiset<T>(a: seq<T>)
    requires a != []
    ensures multiset(a[1..]) == multiset(a) - multiset{a[0]}
  {
    assert a == [a[0]] + a[1..];
  }

  lemma SortedTail<T>(le: (T, T) -> bool, a: seq<T>)
    requires a != [] && Sorted(le, a)
    ensures Sorted(le, a[1..])
  {}

  lemma SeparatesTail<T>(le: (T, T) -> bool, a: seq<T>)
    requires a != [] && Separates(le, a)
    ensures Separates(le, a[1..])
  {}

  lemma SortedSameHead<T>(le: (T, T) -> bool, a: seq<T>, b: seq<T>)
    requires multiset(a) == multiset(b) && a != [] && b != []
    requires Sorted(le, a) && Sorted(le, b) && Separates(le, a)
    ensures a[0] == b[0]
  {
    assert a[0] in multiset(b) && b[0] in multiset(a);
    var i :| 0 <= i < |b| && b[i] == a[0];
    var j :| 0 <= j < |a| && a[j] == b[0];
    if i != 0 && j != 0 {
      assert le(b[0], b[i]) && le(a[0], a[j]);
    }
  }

  lemma SameLength<T>(a: seq<T>, b: seq<T>)
    requires multiset(a) == multiset(b)
    ensures |a| == |b|
  {
    assert |a| == |multiset(a)| && |b| == |multiset(b)|;
  }

  /** Two sorted arrangements of the same elements are the same sequence. */
  lemma {:induction false} SortedUnique<T>(le: (T, T) -> bool, a: seq<T>, b: seq<T>)
    requires multiset(a) == multiset(b)
    requires Sorted(le, a) && Sorted(le, b) && Separates(le, a)
    ensures a == b
    decreases |a|
  {
    SameLength(a, b);
    if a != [] {
      SortedSameHead(le, a, b);
      var x, y := a[1..], b[1..];
      assert a == [a[0]] + x && b == [b[0]] + y;
      assert multiset(x) == multiset(y) by { TailMultiset(a); TailMultiset(b); }
      assert Sorted(le, x) by { SortedTail(le, a); }
      assert Sorted(le, y) by { SortedTail(le, b); }
      assert Separates(le, x) by { SeparatesTail(le, a); }
      SortedUnique(le, x, y);
    }
  }

  /** The sorted result does not depend on the order of the input. */
  lemma SortByOrderIndependent<T(!new)>(le: (T, T) -> bool, s: seq<T>, t: seq<T>)
    requires TotalPreorder(le)
    requires multiset(s) == multiset(t)
    requires Separates(le, s)
    ensures SortBy(le, s) == SortBy(le, t)
  {
    SortBySorted(le, s);
    SortBySorted(le, t);
    SortByMembers(le, s);
    SortedUnique(le, SortBy(le, s), SortBy(le, t));
  }

  /** Taking the element at `j` out. */
  function Without<T>(b: seq<T>, j: nat): seq<T>
    requires j < |b|
  {
    b[..j] + b[j+1..]
  }

  lemma WithoutMultiset<T>(b: seq<T>, j: nat)
    requires j < |b|
    ensures multiset(b) == multiset(Without(b, j)) + multiset{b[j]}
  {
    assert b == b[..j] + [b[j]] + b[j+1..];
  }

  /** Where the head of `a` sits in its permutation `b`. */
  lemma WithoutHead<T>(a: seq<T>, b: seq<T>) returns (j: nat)
    requires multiset(a) == multiset(b) && a != []
    ensures j < |b| && b[j] == a[0] && multiset(a[1..]) == multiset(Without(b, j))
  {
    assert a[0] in multiset(b);
    j :| 0 <= j < |b| && b[j] == a[0];
    TailMultiset(a);
    WithoutMultiset(b, j);
    assert multiset(Without(b, j)) == multiset(b) - multiset{b[j]};
  }

  /** The concatenation of `f` over `s`. */
  function FlatMap<T, U>(f: T -> seq<U>, s: seq<T>): seq<U> {
    if s == [] then [] else FlatMap(f, s[..|s|-1]) + f(s[|s|-1])
  }

  lemma FlatMapSnoc<T, U>(f: T -> seq<U>, s: seq<T>, x: T)
    ensures FlatMap(f, s + [x]) == FlatMap(f, s) + f(x)
  {
    assert (s + [x])[..|s|] == s;
  }

  lemma {:induction false} FlatMapConcat<T, U>(f: T -> seq<U>, a: seq<T>, b: seq<T>)
    ensures FlatMap(f, a + b) == FlatMap(f, a) + FlatMap(f, b)
  {
    if b == [] {
      assert a + b == a;
    } else {
      assert (a + b)[..|a + b|-1] == a + b[..|b|-1];
      FlatMapConcat(f, a, b[..|b|-1]);
    }
  }

  lemma {:induction false} FlatMapMembers<T(!new), U>(f: T -> seq<U>, s: seq<T>, y: U)
    ensures y in FlatMap(f, s) <==> exists x :: x in s && y in f(x)
  {
    if s != [] {
      FlatMapMembers(f, s[..|s|-1], y);
      assert forall x :: x in s <==> x in s[..|s|-1] || x == s[|s|-1];
    }
  }

  lemma {:induction false} FlatMapEmpty<T(!new), U>(f: T -> seq<U>, s: seq<T>)
    ensures FlatMap(f, s) == [] <==> forall x :: x in s ==> f(x) == []
  {
    if s != [] {
      FlatMapEmpty(f, s[..|s|-1]);
      assert forall x :: x in s <==> x in s[..|s|-1] || x == s[|s|-1];
    }
  }

  /** At most one result each, and no two elements share one: nothing stands twice. */
  lemma {:induction false} FlatMapDistinct<T(!new), U(!new)>(f: T -> seq<U>, s: seq<T>)
    requires Distinct(s) && forall x :: |f(x)| <= 1
    requires forall x, y :: f(x) != [] && f(x) == f(y) ==> x == y
    ensures Distinct(FlatMap(f, s))
  {
    if s != [] {
      var front, last := s[..|s|-1], s[|s|-1];
      FlatMapDistinct(f, front);
      if f(last) != [] {
        var u := f(last)[0];
        assert f(last) == [u];
        FlatMapMembers(f, front, u);
        forall x | x in front ensures u !in f(x) {
          var k :| 0 <= k < |front| && front[k] == x;
          assert s[k] == x != last;
          assert f(x) == [] || f(x) == [f(x)[0]];
        }
        DistinctSnoc(FlatMap(f, front), u);
      } else {
        assert FlatMap(f, s) == FlatMap(f, front);
      }
    }
  }

  lemma MiddleOut<T>(l: seq<T>, x: seq<T>, r: seq<T>)
    ensures multiset(l + x + r) == multiset(l + r) + multiset(x)
  {}

  lemma FlatMapAround<T, U>(f: T -> seq<U>, l: seq<T>, x: T, r: seq<T>)
    ensures FlatMap(f, l + [x] + r) == FlatMap(f, l) + f(x) + FlatMap(f, r)
  {
    FlatMapSnoc(f, l, x);
    FlatMapConcat(f, l + [x], r);
  }

  /** One more element, anywhere, adds what it maps to. */
  lemma FlatMapExtra<T, U>(f: T -> seq<U>, l: seq<T>, x: T, r: seq<T>)
    ensures multiset(FlatMap(f, l + [x] + r)) == multiset(FlatMap(f, l + r)) + multiset(f(x))
  {
    FlatMapAround(f, l, x, r);
    FlatMapConcat(f, l, r);
    MiddleOut(FlatMap(f, l), f(x), FlatMap(f, r));
  }

  lemma FlatMapTakeOut<T, U>(f: T -> seq<U>, b: seq<T>, j: nat)
    requires j < |b|
    ensures multiset(FlatMap(f, b)) == multiset(FlatMap(f, Without(b, j))) + multiset(f(b[j]))
  {
    Rebuild(b, j);
    FlatMapExtra(f, b[..j], b[j], b[j+1..]);
  }

  lemma Rebuild<T>(b: seq<T>, j: nat)
    requires j < |b|
    ensures b[..j] + [b[j]] + b[j+1..] == b
  {}

  lemma WithoutFirst<T>(a: seq<T>)
    requires a != []
    ensures Without(a, 0) == a[1..]
  {}

  /** Permuting the input permutes the concatenation. */
  lemma {:induction false} FlatMapPermuted<T, U>(f: T -> seq<U>, a: seq<T>, b: seq<T>)
    requires multiset(a) == multiset(b)
    ensures multiset(FlatMap(f, a)) == multiset(FlatMap(f, b))
    decreases |a|
  {
    SameLength(a, b);
    if a == [] {
      assert b == [];
    } else {
      var j := WithoutHead(a, b);
      var x, y := a[1..], Without(b, j);
      WithoutFirst(a);
      FlatMapTakeOut(f, a, 0);
      FlatMapTakeOut(f, b, j);
      FlatMapPermuted(f, x, y);
    }
  }

  /** The elements of `s` that satisfy `keep`, in order. */
  function Filter<T>(keep: T -> bool, s: seq<T>): seq<T> {
    if s == [] then [] else (if keep(s[0]) then [s[0]] else []) + Filter(keep, s[1..])
  }

  lemma {:induction false} FilterMembers<T(!new)>(keep: T -> bool, s: seq<T>)
    ensures forall x :: x in Filter(keep, s) <==> x in s && keep(x)
  {
    if s != [] {
      FilterMembers(keep, s[1..]);
      assert forall x :: x in s <==> x == s[0] || x in s[1..];
    }
  }

  lemma {:induction false} FilterSnoc<T>(keep: T -> bool, s: seq<T>, x: T)
    ensures Filter(keep, s + [x]) == Filter(keep, s) + if keep(x) then [x] else []
  {
    if s == [] {
      assert [x][1..] == [];
    } else {
      FilterSnoc(keep, s[1..], x);
      assert (s + [x])[1..] == s[1..] + [x];
    }
  }

  lemma {:induction false} FilterSorted<T(!new)>(keep: T -> bool, le: (T, T) -> bool, s: seq<T>)
    requires Sorted(le, s)
    ensures Sorted(le, Filter(keep, s))
  {
    if s != [] {
      SortedTail(le, s);
      FilterSorted(keep, le, s[1..]);
      FilterMembers(keep, s[1..]);
      var t := Filter(keep, s[1..]);
      forall k | 0 <= k < |t| ensures le(s[0], t[k]) { assert t[k] in s[1..]; }
    }
  }

  lemma {:induction false} FilterMultiset<T>(keep: T -> bool, s: seq<T>, x: T)
    ensures multiset(Filter(keep, s))[x] == if keep(x) then multiset(s)[x] else 0
  {
    if s != [] {
      FilterMultiset(keep, s[1..], x);
      assert s == [s[0]] + s[1..];
    }
  }

  lemma FilterPermuted<T(!new)>(keep: T -> bool, s: seq<T>, t: seq<T>)
    requires forall x :: keep(x) ==> multiset(s)[x] == multiset(t)[x]
    ensures multiset(Filter(keep, s)) == multiset(Filter(keep, t))
  {
    forall x ensures multiset(Filter(keep, s))[x] == multiset(Filter(keep, t))[x] {
      FilterMultiset(keep, s, x);
      FilterMultiset(keep, t, x);
    }
  }

  lemma StringLeIsTotalOrder()
    ensures TotalPreorder(StringLe)
    ensures forall a, b :: StringLe(a, b) && StringLe(b, a) ==> a == b
  {
    forall a: string, b: string
      ensures StringLe(a, b) || StringLe(b, a)
      ensures StringLe(a, b) && StringLe(b, a) ==> a == b
    {
      StringTrichotomy(a, b);
    }
    forall a: string, b: string, c: string | StringLe(a, b) && StringLe(b, c) ensures StringLe(a, c) {
      if a != b && b != c { StringLessTransitive(a, b, c); }
    }
  }

  predicate IsLeast(m: string, s: set<string>) {
    m in s && forall y {:trigger StringLe(m, y)} :: y in s ==> StringLe(m, y)
  }

  /** A nonempty finite set of strings has a least element. */
  lemma {:induction false} LeastExists(s: set<string>)
    requires s != {}
    ensures exists m :: IsLeast(m, s)
  {
    StringLeIsTotalOrder();
    var x :| x in s;
    if s == {x} {
      assert IsLeast(x, s);
    } else {
      var rest := s - {x};
      assert s == rest + {x};
      LeastExists(rest);
      var k :| IsLeast(k, rest);
      var m := if StringLe(x, k) then x else k;
      forall y | y in s ensures StringLe(m, y) { assert y == x || StringLe(k, y); }
      assert IsLeast(m, s);
    }
  }

  function Least(s: set<string>): (m: string)
    requires s != {}
    ensures m in s
  {
    LeastExists(s);
    assert forall a, b :: IsLeast(a, s) && IsLeast(b, s) ==> a == b by {
      StringLeIsTotalOrder();
      forall a, b | IsLeast(a, s) && IsLeast(b, s) ensures a == b { assert StringLe(a, b) && StringLe(b, a); }
    }
    var m :| m in s && IsLeast(m, s);
    m
  }

  lemma LeastIsLeast(s: set<string>)
    requires s != {}
    ensures IsLeast(Least(s), s)
  {
    LeastExists(s);
  }

  /** `sorted(set)`: the members of `s`, each once, in ascending order. */
  function Ascending(s: set<string>): (r: seq<string>)
    ensures forall x :: x in r <==> x in s
  {
    if s == {} then [] else var m := Least(s); [m] + Ascending(s - {m})
  }

  ghost predicate Distinct<T>(s: seq<T>) {
    forall i, j :: 0 <= i < j < |s| ==> s[i] != s[j]
  }

  lemma {:induction false} AscendingDistinct(s: set<string>)
    ensures Distinct(Ascending(s)) && |Ascending(s)| == |s|
  {
    if s != {} {
      var m := Least(s);
      AscendingDistinct(s - {m});
      var t := Ascending(s - {m});
      assert forall k :: 0 <= k < |t| ==> t[k] in s - {m};
    }
  }

  lemma {:induction false} AscendingSorted(s: set<string>)
    ensures Sorted(StringLe, Ascending(s))
  {
    if s != {} {
      var m := Least(s);
      AscendingSorted(s - {m});
      LeastIsLeast(s);
      var t := Ascending(s - {m});
      forall k | 0 <= k < |t| ensures StringLe(m, t[k]) { assert t[k] in s - {m}; }
    }
  }

  lemma DistinctSnoc<T>(s: seq<T>, x: T)
    requires Distinct(s)
    ensures Distinct(s + [x]) <==> x !in s
  {
    if x in s {
      var i :| 0 <= i < |s| && s[i] == x;
      assert (s + [x])[i] == (s + [x])[|s|];
    }
  }

  /** `dict.fromkeys`: first occurrences, in order. */
  function Dedupe(xs: seq<string>): seq<string> {
    if xs == [] then []
    else
      var front := Dedupe(xs[..|xs|-1]);
      if xs[|xs|-1] in front then front else front + [xs[|xs|-1]]
  }

  lemma {:induction false} DedupeSpec(xs: seq<string>)
    ensures Distinct(Dedupe(xs))
    ensures forall x :: x in Dedupe(xs) <==> x in xs
  {
    if xs != [] {
      DedupeSpec(xs[..|xs|-1]);
      assert forall x :: x in xs <==> x in xs[..|xs|-1] || x == xs[|xs|-1];
    }
  }

  /** First occurrences come in the order of the list. */
  lemma {:induction false} DedupeOrder(xs: seq<string>, i: nat, j: nat)
    requires i < j < |Dedupe(xs)|
    ensures exists m, n :: 0 <= m < n < |xs| && xs[m] == Dedupe(xs)[i] && xs[n] == Dedupe(xs)[j] && Dedupe(xs)[j] !in xs[..n]
  {
    var k := |xs| - 1;
    var front, r := xs[..k], Dedupe(xs);
    DedupeSpec(front);
    if j < |Dedupe(front)| {
      DedupeOrder(front, i, j);
      var m, n :| 0 <= m < n < |front| && front[m] == r[i] && front[n] == r[j] && r[j] !in front[..n];
      assert xs[..n] == front[..n] && xs[m] == r[i] && xs[n] == r[j];
    } else {
      assert r[i] in Dedupe(front);
      var m :| 0 <= m < |front| && front[m] == r[i];
      assert xs[m] == r[i] && xs[k] == r[j] && xs[..k] == front;
    }
  }

  lemma SubsetSize<T>(a: set<T>, b: set<T>)
    requires a <= b
    ensures |a| <= |b|
    ensures a < b ==> |a| < |b|
  {
    assert b == a + (b - a);
  }

  //
  // Which of two elements comes first.
  //

  lemma {:induction false} DistinctCounts<T(!new)>(s: seq<T>)
    ensures Distinct(s) <==> forall x :: multiset(s)[x] <= 1
  {
    if s != [] {
      var first, rest := s[0], s[1..];
      assert s == [first] + rest;
      DistinctCounts(rest);
      assert Distinct(s) <==> Distinct(rest) && first !in rest by { DistinctCons(first, rest); }
      assert first in rest <==> multiset(rest)[first] > 0;
      assert forall x :: multiset(s)[x] == multiset(rest)[x] + if x == first then 1 else 0;
      if Distinct(s) {
        forall x ensures multiset(s)[x] <= 1 {}
      }
      if forall x :: multiset(s)[x] <= 1 {
        forall x ensures multiset(rest)[x] <= 1 { assert multiset(s)[x] <= 1; }
        assert multiset(s)[first] <= 1;
      }
    }
  }

  lemma DistinctCons<T>(x: T, s: seq<T>)
    ensures Distinct([x] + s) <==> Distinct(s) && x !in s
  {
    var r := [x] + s;
    assert forall k :: 0 <= k < |s| ==> r[k+1] == s[k];
    if Distinct(r) {
      forall i, j | 0 <= i < j < |s| ensures s[i] != s[j] { assert r[i+1] != r[j+1]; }
      forall k | 0 <= k < |s| ensures s[k] != x { assert r[0] != r[k+1]; }
    }
  }

  lemma DistinctTail<T>(s: seq<T>)
    requires Distinct(s) && s != []
    ensures Distinct(s[1..]) && s[0] !in s[1..]
  {
    assert s == [s[0]] + s[1..];
    DistinctCons(s[0], s[1..]);
  }

  /** Rearranging keeps elements distinct. */
  lemma DistinctPermuted<T(!new)>(s: seq<T>, t: seq<T>)
    requires Distinct(s) && multiset(s) == multiset(t)
    ensures Distinct(t)
  {
    DistinctCounts(s);
    DistinctCounts(t);
  }

  /** The first `x` of `s` is followed by some `y`. */
  predicate Precedes<T(==)>(s: seq<T>, x: T, y: T) {
    s != [] && if s[0] == x then y in s[1..] else Precedes(s[1..], x, y)
  }

  lemma {:induction false} PrecedesMembers<T>(s: seq<T>, x: T, y: T)
    requires Precedes(s, x, y)
    ensures x in s && y in s
  {
    if s[0] != x { PrecedesMembers(s[1..], x, y); }
  }

  /** Of two different elements exactly one comes first. */
  lemma {:induction false} PrecedesOneWay<T>(s: seq<T>, x: T, y: T)
    requires Distinct(s) && x in s && y in s && x != y
    ensures Precedes(s, x, y) <==> !Precedes(s, y, x)
  {
    DistinctTail(s);
    var rest := s[1..];
    assert s == [s[0]] + rest;
    if s[0] == x {
      if Precedes(rest, y, x) { PrecedesMembers(rest, y, x); }
    } else if s[0] == y {
      if Precedes(rest, x, y) { PrecedesMembers(rest, x, y); }
    } else {
      PrecedesOneWay(rest, x, y);
    }
  }

  lemma {:induction false} InsertComesFirst<T>(le: (T, T) -> bool, x: T, s: seq<T>, y: T)
    requires y in s && le(x, y) && x !in s
    ensures Precedes(Insert(le, x, s), x, y)
  {
    if le(x, s[0]) {
      assert ([x] + s)[1..] == s;
    } else {
      assert s == [s[0]] + s[1..];
      InsertComesFirst(le, x, s[1..], y);
      var t := Insert(le, x, s[1..]);
      assert ([s[0]] + t)[1..] == t;
    }
  }

  lemma InsertHas<T>(le: (T, T) -> bool, x: T, s: seq<T>, y: T)
    ensures y in Insert(le, x, s) <==> y == x || y in s
  {
    InsertMultiset(le, x, s);
    assert y in Insert(le, x, s) <==> y in multiset(Insert(le, x, s));
    assert y in s <==> y in multiset(s);
  }

  lemma {:induction false} InsertKeepsOrder<T>(le: (T, T) -> bool, h: T, s: seq<T>, x: T, y: T)
    requires h != x && h != y
    ensures Precedes(Insert(le, h, s), x, y) <==> Precedes(s, x, y)
  {
    if s == [] || le(h, s[0]) {
      assert ([h] + s)[1..] == s;
    } else {
      var t := Insert(le, h, s[1..]);
      assert ([s[0]] + t)[1..] == t;
      InsertHas(le, h, s[1..], y);
      InsertKeepsOrder(le, h, s[1..], x, y);
    }
  }

  /** The sort is stable: elements that tie keep the order they came in. */
  lemma {:induction false} SortStable<T(!new)>(le: (T, T) -> bool, s: seq<T>, x: T, y: T)
    requires TotalPreorder(le) && Distinct(s) && x in s && y in s && x != y && le(x, y) && le(y, x)
    ensures Precedes(SortBy(le, s), x, y) <==> Precedes(s, x, y)
  {
    DistinctTail(s);
    var h, rest := s[0], s[1..];
    assert s == [h] + rest;
    SortByMembers(le, rest);
    if h == x {
      InsertComesFirst(le, x, SortBy(le, rest), y);
    } else if h == y {
      InsertComesFirst(le, y, SortBy(le, rest), x);
      SortDistinct(le, s);
      SortByMembers(le, s);
      PrecedesOneWay(SortBy(le, s), x, y);
      PrecedesOneWay(s, x, y);
    } else {
      InsertKeepsOrder(le, h, SortBy(le, rest), x, y);
      SortStable(le, rest, x, y);
    }
  }

  lemma SortDistinct<T(!new)>(le: (T, T) -> bool, s: seq<T>)
    requires TotalPreorder(le) && Distinct(s)
    ensures Distinct(SortBy(le, s))
  {
    SortBySorted(le, s);
    DistinctPermuted(s, SortBy(le, s));
  }

  lemma {:induction false} FilterKeepsOrder<T(!new)>(keep: T -> bool, s: seq<T>, x: T, y: T)
    requires keep(x) && keep(y)
    ensures Precedes(Filter(keep, s), x, y) <==> Precedes(s, x, y)
  {
    if s != [] {
      FilterKeepsOrder(keep, s[1..], x, y);
      FilterMembers(keep, s[1..]);
      if keep(s[0]) {
        assert Filter(keep, s)[1..] == Filter(keep, s[1..]);
      } else {
        assert Filter(keep, s) == Filter(keep, s[1..]);
      }
    }
  }

  /** Both sequences agree on the order of elements that tie. */
  ghost predicate SameTies<T(!new)>(le: (T, T) -> bool, a: seq<T>, b: seq<T>) {
    forall x, y :: x in a && y in a && x != y && le(x, y) && le(y, x) ==> (Precedes(a, x, y) <==> Precedes(b, x, y))
  }

  lemma SameTiesSameHead<T(!new)>(le: (T, T) -> bool, a: seq<T>, b: seq<T>)
    requires multiset(a) == multiset(b) && a != [] && b != [] && Distinct(a)
    requires Sorted(le, a) && Sorted(le, b) && SameTies(le, a, b)
    ensures a[0] == b[0]
  {
    var x, y := a[0], b[0];
    if x != y {
      assert x in multiset(b) && y in multiset(a);
      var i :| 0 <= i < |b| && b[i] == x;
      var j :| 0 <= j < |a| && a[j] == y;
      assert le(b[0], b[i]) && le(a[0], a[j]);
      assert a[1..][j-1] == y && b[1..][i-1] == x;
      assert Precedes(a, x, y) && Precedes(b, y, x);
      DistinctPermuted(a, b);
      PrecedesOneWay(b, x, y);
    }
  }

  lemma SameTiesTail<T(!new)>(le: (T, T) -> bool, a: seq<T>, b: seq<T>)
    requires a != [] && b != [] && a[0] == b[0] && Distinct(a) && SameTies(le, a, b)
    ensures SameTies(le, a[1..], b[1..])
  {
    DistinctTail(a);
    forall x, y | x in a[1..] && y in a[1..] && x != y && le(x, y) && le(y, x)
      ensures Precedes(a[1..], x, y) <==> Precedes(b[1..], x, y)
    {
      assert x in a && y in a && x != a[0];
      assert Precedes(a, x, y) <==> Precedes(b, x, y);
    }
  }

  /** Two sorted arrangements of the same distinct elements that agree on every tie are the same. */
  lemma {:induction false} SortedAlike<T(!new)>(le: (T, T) -> bool, a: seq<T>, b: seq<T>)
    requires multiset(a) == multiset(b) && Distinct(a)
    requires Sorted(le, a) && Sorted(le, b) && SameTies(le, a, b)
    ensures a == b
    decreases |a|
  {
    SameLength(a, b);
    if a != [] {
      SameTiesSameHead(le, a, b);
      var x, y := a[1..], b[1..];
      assert a == [a[0]] + x && b == [b[0]] + y;
      assert multiset(x) == multiset(y) by { TailMultiset(a); TailMultiset(b); }
      assert Sorted(le, x) by { SortedTail(le, a); }
      assert Sorted(le, y) by { SortedTail(le, b); }
      assert Distinct(x) by { DistinctTail(a); }
      SameTiesTail(le, a, b);
      SortedAlike(le, x, y);
    }
  }
}
