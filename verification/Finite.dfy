/** Distinct sequences and small sets, used in several places. */
module Finite {

  predicate DistinctAt(h: seq<int>, i: int, j: int) { 0 <= i < j < |h| ==> h[i] != h[j] }

  ghost predicate Distinct(h: seq<int>) { forall i, j {:trigger DistinctAt(h, i, j)} :: DistinctAt(h, i, j) }

  lemma DistinctIs(h: seq<int>)
    ensures Distinct(h) <==> forall i, j :: 0 <= i < j < |h| ==> h[i] != h[j]
  {
    if forall i, j :: 0 <= i < j < |h| ==> h[i] != h[j] {
      forall i, j ensures DistinctAt(h, i, j) {}
    }
    if Distinct(h) {
      forall i, j | 0 <= i < j < |h| ensures h[i] != h[j] { assert DistinctAt(h, i, j); }
    }
  }

  lemma SubsetSize(a: set<nat>, b: set<nat>)
    requires a <= b
    ensures |a| <= |b|
  {
    assert b == a + (b - a);
  }

  /** A set of numbers is no larger than a range they lie in. */
  lemma {:induction false} RangeSize(a: set<nat>, lo: nat, hi: nat)
    requires lo <= hi && forall x :: x in a ==> lo <= x < hi
    ensures |a| <= hi - lo
    decreases hi
  {
    if lo < hi {
      RangeSize(a - {hi - 1}, lo, hi - 1);
      SubsetSize(a, (a - {hi - 1}) + {hi - 1});
    } else {
      assert a == {};
    }
  }

  /** A one-to-one map has as many values as keys. */
  lemma {:induction false} MapSize<A, B>(f: map<A, B>)
    requires forall x, y :: x in f && y in f && f[x] == f[y] ==> x == y
    ensures |f.Values| == |f.Keys|
    decreases |f.Keys|
  {
    if x :| x in f {
      var g := f - {x};
      MapSize(g);
      assert f.Keys == g.Keys + {x} && f.Values == g.Values + {f[x]};
    } else {
      assert f.Keys == {} && f.Values == {};
    }
  }

  /** Only the whole range is as large as the range. */
  lemma FullRange(a: set<nat>, lo: nat, hi: nat)
    requires lo <= hi && forall x :: x in a ==> lo <= x < hi
    ensures |a| == hi - lo <==> forall x: nat :: lo <= x < hi ==> x in a
  {
    RangeSize(a, lo, hi);
    if x: nat :| lo <= x < hi && x !in a { RangeSize(a + {x}, lo, hi); }
    if forall x: nat :: lo <= x < hi ==> x in a { RangeFull(a, lo, hi); }
  }

  lemma {:induction false} RangeFull(a: set<nat>, lo: nat, hi: nat)
    requires lo <= hi && forall x: nat :: lo <= x < hi ==> x in a
    ensures |a| >= hi - lo
    decreases hi
  {
    if lo < hi { RangeFull(a - {hi - 1}, lo, hi - 1); }
  }
}
