/** Array operations the news pipeline uses (`filter`, a `map` whose callback
    may throw, `new Set(...)`, counting), stated over sequences. */
module Sequences {
  import opened JsValues

  /** `s.filter(p)`: every occurrence of an element satisfying `p`, and
      nothing else (the order is kept: `FilterIsSubsequence`). */
  function Filter<T(==,!new)>(s: seq<T>, p: T -> bool): (r: seq<T>)
    ensures |r| <= |s|
    ensures |r| == |s| <==> forall i :: 0 <= i < |s| ==> p(s[i])
    ensures forall x :: x in r <==> x in s && p(x)
    ensures forall x {:trigger Count(r, x)} :: Count(r, x) == if p(x) then Count(s, x) else 0
    decreases |s|
  {
    if s == [] then []
    else
      assert s == [s[0]] + s[1..];
      var rest := Filter(s[1..], p);
      FilterConsKeepsCounts(s[0], s[1..], rest, p);
      (if p(s[0]) then [s[0]] else []) + rest
  }

  lemma FilterConsKeepsCounts<T(!new)>(y: T, s: seq<T>, rest: seq<T>, p: T -> bool)
    requires forall x :: Count(rest, x) == if p(x) then Count(s, x) else 0
    ensures forall x :: Count((if p(y) then [y] else []) + rest, x) == if p(x) then Count([y] + s, x) else 0
  {
    CountAppend(if p(y) then [y] else [], rest);
    CountAppend([y], s);
  }

  /** `r` is `s` with some elements left out and the rest kept in order. */
  predicate IsSubsequence<T(==)>(r: seq<T>, s: seq<T>)
    decreases |s|
  {
    if r == [] then true
    else if s == [] then false
    else (r[0] == s[0] && IsSubsequence(r[1..], s[1..])) || IsSubsequence(r, s[1..])
  }

  /** `s.filter(p)` keeps the order of `s`. */
  lemma {:induction false} FilterIsSubsequence<T(!new)>(s: seq<T>, p: T -> bool)
    ensures IsSubsequence(Filter(s, p), s)
    decreases |s|
  {
    if s != [] {
      FilterIsSubsequence(s[1..], p);
      var r := Filter(s, p);
      if p(s[0]) {
        assert r == [s[0]] + Filter(s[1..], p);
        assert r[0] == s[0] && r[1..] == Filter(s[1..], p);
      } else {
        assert r == Filter(s[1..], p);
      }
    }
  }

  /** Occurrences in a concatenation add up. */
  lemma {:induction false} CountAppend<T(!new)>(a: seq<T>, b: seq<T>)
    ensures forall x :: Count(a + b, x) == Count(a, x) + Count(b, x)
    decreases |b|
  {
    if b != [] {
      var b', y := b[..|b| - 1], b[|b| - 1];
      assert a + b == (a + b') + [y];
      assert (a + b)[..|a + b| - 1] == a + b';
      CountAppend(a, b');
    } else {
      assert a + b == a;
    }
  }

  lemma {:induction false} FilterSnoc<T(!new)>(s: seq<T>, y: T, p: T -> bool)
    ensures Filter(s + [y], p) == Filter(s, p) + (if p(y) then [y] else [])
    decreases |s|
  {
    var t := s + [y];
    if s == [] {
      assert t == [y] && t[1..] == [];
    } else {
      assert t[0] == s[0] && t[1..] == s[1..] + [y];
      FilterSnoc(s[1..], y, p);
      var head := if p(s[0]) then [s[0]] else [];
      assert Filter(t, p) == head + Filter(s[1..] + [y], p);
      assert Filter(s, p) == head + Filter(s[1..], p);
    }
  }

  /** The positions of `s` whose element satisfies `p`. */
  function Positions<T>(s: seq<T>, p: T -> bool): set<int>
  {
    set i | 0 <= i < |s| && p(s[i])
  }

  lemma PositionsSnoc<T>(s: seq<T>, y: T, p: T -> bool)
    ensures |Positions(s + [y], p)| == |Positions(s, p)| + (if p(y) then 1 else 0)
  {
    var t := s + [y];
    assert forall i :: 0 <= i < |s| ==> t[i] == s[i];
    assert Positions(t, p) == Positions(s, p) + (if p(y) then {|s|} else {});
    assert |s| !in Positions(s, p);
  }

  /** The length of `s.filter(p)` is the number of positions of `s` whose
      element satisfies `p`. */
  lemma {:induction false} FilterLengthCountsPositions<T(!new)>(s: seq<T>, p: T -> bool)
    ensures |Filter(s, p)| == |Positions(s, p)|
    decreases |s|
  {
    if s != [] {
      var init, y := s[..|s| - 1], s[|s| - 1];
      assert s == init + [y];
      FilterSnoc(init, y, p);
      FilterLengthCountsPositions(init, p);
      PositionsSnoc(init, y, p);
    }
  }

  /** Filtering by `p` and then by `q` is filtering once by their conjunction. */
  lemma {:induction false} FilterTwice<T(!new)>(s: seq<T>, p: T -> bool, q: T -> bool, pq: T -> bool)
    requires forall x :: pq(x) == (p(x) && q(x))
    ensures Filter(Filter(s, p), q) == Filter(s, pq)
    decreases |s|
  {
    if s != [] {
      var t := Filter(s[1..], p);
      FilterTwice(s[1..], p, q, pq);
      assert pq(s[0]) == (p(s[0]) && q(s[0]));
      assert Filter(s, pq) == (if pq(s[0]) then [s[0]] else []) + Filter(s[1..], pq);
      if p(s[0]) {
        var u := [s[0]] + t;
        assert Filter(s, p) == u;
        assert u[0] == s[0] && u[1..] == t;
        assert Filter(u, q) == (if q(s[0]) then [s[0]] else []) + Filter(t, q);
      } else {
        assert Filter(s, p) == t;
      }
    }
  }

  /** Filters by pointwise-equal predicates agree. */
  lemma {:induction false} FilterSame<T(!new)>(s: seq<T>, p: T -> bool, q: T -> bool)
    requires forall x :: p(x) == q(x)
    ensures Filter(s, p) == Filter(s, q)
    decreases |s|
  {
    if s != [] {
      FilterSame(s[1..], p, q);
    }
  }

  /** A filter that every element passes returns its input unchanged. */
  lemma {:induction false} FilterKeepsAll<T(!new)>(s: seq<T>, p: T -> bool)
    requires forall i :: 0 <= i < |s| ==> p(s[i])
    ensures Filter(s, p) == s
    decreases |s|
  {
    if s != [] {
      FilterKeepsAll(s[1..], p);
    }
  }

  /** `items.map(f)` for a callback that may throw (None): either every
      callback returns and the results line up with the items, or the whole
      map throws. */
  function MapAll<T, U(==)>(items: seq<T>, f: T -> Option<U>): (r: Option<seq<U>>)
    ensures r.Some? <==> forall i :: 0 <= i < |items| ==> f(items[i]).Some?
    ensures r.Some? ==> |r.value| == |items|
    ensures r.Some? ==> forall i :: 0 <= i < |items| ==> f(items[i]) == Some(r.value[i])
    decreases |items|
  {
    if items == [] then Some([])
    else
      match f(items[0])
      case None => None
      case Some(u) =>
        match MapAll(items[1..], f)
        case None => None
        case Some(us) => Some([u] + us)
  }

  /** The number of occurrences of `x` in `xs`. */
  function Count<T(==)>(xs: seq<T>, x: T): (n: nat)
    ensures n <= |xs|
    ensures n > 0 <==> x in xs
    decreases |xs|
  {
    if xs == [] then 0
    else
      assert xs == xs[..|xs| - 1] + [xs[|xs| - 1]];
      Count(xs[..|xs| - 1], x) + (if xs[|xs| - 1] == x then 1 else 0)
  }

  /** The sum of `Count(xs, k)` over the keys `ks`. */
  function SumCounts<T(==)>(ks: seq<T>, xs: seq<T>): nat
    decreases |ks|
  {
    if ks == [] then 0 else SumCounts(ks[..|ks| - 1], xs) + Count(xs, ks[|ks| - 1])
  }

  predicate NoDuplicates<T(==)>(xs: seq<T>)
  {
    forall i, j :: 0 <= i < j < |xs| ==> xs[i] != xs[j]
  }

  /** The position of the first occurrence of `x` in `xs`. */
  function FirstIndex<T(==)>(xs: seq<T>, x: T): (k: nat)
    requires x in xs
    ensures k < |xs| && xs[k] == x && x !in xs[..k]
    decreases |xs|
  {
    if xs[0] == x then 0
    else
      assert x in xs[1..];
      var k' := FirstIndex(xs[1..], x);
      assert xs[..k' + 1] == [xs[0]] + xs[1..][..k'];
      k' + 1
  }

  /** `[...new Set(xs)]`: each value of `xs` once, in order of first
      occurrence (a Set iterates in insertion order). */
  function Distinct<T(==,!new)>(xs: seq<T>): (r: seq<T>)
    ensures NoDuplicates(r)
    ensures forall x :: x in r <==> x in xs
    decreases |xs|
  {
    if xs == [] then []
    else
      var d := Distinct(xs[..|xs| - 1]);
      assert xs == xs[..|xs| - 1] + [xs[|xs| - 1]];
      if xs[|xs| - 1] in d then d else d + [xs[|xs| - 1]]
  }

  lemma FirstIndexIsUnique<T>(xs: seq<T>, x: T, k: nat)
    requires k < |xs| && xs[k] == x && x !in xs[..k]
    ensures FirstIndex(xs, x) == k
  {
  }

  /** `Distinct` lists the values in the order of their first occurrence. */
  lemma {:induction false} DistinctInFirstOccurrenceOrder<T(!new)>(xs: seq<T>, i: nat, j: nat)
    requires i < j < |Distinct(xs)|
    ensures Distinct(xs)[i] in xs && Distinct(xs)[j] in xs
    ensures FirstIndex(xs, Distinct(xs)[i]) < FirstIndex(xs, Distinct(xs)[j])
    decreases |xs|
  {
    var p, y := xs[..|xs| - 1], xs[|xs| - 1];
    var d := Distinct(p);
    assert xs == p + [y];
    var a, b := Distinct(xs)[i], Distinct(xs)[j];
    var ka := FirstIndex(p, a);
    FirstIndexIsUnique(xs, a, ka);
    assert xs[..ka] == p[..ka];
    if j < |d| {
      DistinctInFirstOccurrenceOrder(p, i, j);
      var kb := FirstIndex(p, b);
      FirstIndexIsUnique(xs, b, kb);
      assert xs[..kb] == p[..kb];
    } else {
      assert b == y && y !in p;
      FirstIndexIsUnique(xs, y, |p|);
    }
  }

  lemma {:induction false} CountSnoc<T>(xs: seq<T>, y: T, x: T)
    ensures Count(xs + [y], x) == Count(xs, x) + (if y == x then 1 else 0)
  {
    assert (xs + [y])[..|xs|] == xs;
  }

  /** Appending `y` to the counted sequence adds, to the sum over `ks`, the
      number of times `y` is a key. */
  lemma {:induction false} SumCountsSnoc<T>(ks: seq<T>, xs: seq<T>, y: T)
    ensures SumCounts(ks, xs + [y]) == SumCounts(ks, xs) + Count(ks, y)
    decreases |ks|
  {
    if ks != [] {
      SumCountsSnoc(ks[..|ks| - 1], xs, y);
      CountSnoc(xs, y, ks[|ks| - 1]);
    }
  }

  lemma {:induction false} CountInDistinct<T>(ks: seq<T>, y: T)
    requires NoDuplicates(ks) && y in ks
    ensures Count(ks, y) == 1
    decreases |ks|
  {
    var p, z := ks[..|ks| - 1], ks[|ks| - 1];
    if z != y {
      CountInDistinct(p, y);
    }
  }

  /** Counting every distinct value of `xs` accounts for every element once. */
  lemma {:induction false} DistinctCountsSumToLength<T(!new)>(xs: seq<T>)
    ensures SumCounts(Distinct(xs), xs) == |xs|
    decreases |xs|
  {
    if xs != [] {
      var p, y := xs[..|xs| - 1], xs[|xs| - 1];
      assert xs == p + [y];
      var d := Distinct(p);
      DistinctCountsSumToLength(p);
      SumCountsSnoc(d, p, y);
      if y in d {
        CountInDistinct(d, y);
      } else {
        assert Distinct(xs) == d + [y];
        assert (d + [y])[..|d|] == d;
        CountSnoc(p, y, y);
      }
    }
  }
}
