/** Finite ranges of block numbers, as sets. */
module Ranges {

  ghost predicate IsRange(s: set<nat>, lo: nat, hi: nat) {
    forall b :: b in s <==> lo <= b < hi
  }

  lemma {:induction false} RangeExists(lo: nat, hi: nat)
    ensures exists s: set<nat> :: IsRange(s, lo, hi)
    decreases hi
  {
    if hi <= lo {
      assert IsRange({}, lo, hi);
    } else {
      RangeExists(lo, hi - 1);
      var s: set<nat> :| IsRange(s, lo, hi - 1);
      assert IsRange(s + {hi - 1}, lo, hi);
    }
  }

  /** The numbers from `lo` up to but not including `hi`. */
  ghost function Range(lo: nat, hi: nat): (s: set<nat>)
    ensures forall b :: b in s <==> lo <= b < hi
  {
    RangeExists(lo, hi);
    var s: set<nat> :| IsRange(s, lo, hi);
    s
  }

  lemma {:induction false} RangeSize(lo: nat, hi: nat)
    requires lo <= hi
    ensures |Range(lo, hi)| == hi - lo
    decreases hi - lo
  {
    if lo < hi {
      RangeSize(lo, hi - 1);
      assert Range(lo, hi) == Range(lo, hi - 1) + {hi - 1};
    } else {
      assert Range(lo, hi) == {};
    }
  }

  lemma RunSize(first: nat, count: nat, end: nat)
    requires end == first + count
    ensures |Range(first, end)| == count
  {
    RangeSize(first, end);
  }

  lemma SubsetSize<T>(a: set<T>, b: set<T>)
    requires a <= b
    ensures |a| <= |b|
    ensures |a| == |b| ==> a == b
  {
    assert |b - a| == |b| - |a|;
    assert b == a + (b - a);
  }

  lemma DisjointSize<T>(a: set<T>, b: set<T>)
    requires a !! b
    ensures |a + b| == |a| + |b|
  {
  }

  lemma DisjointWithin<T>(a: set<T>, b: set<T>, all: set<T>)
    requires a !! b && a <= all && b <= all
    ensures |a + b| == |a| + |b| <= |all|
  {
    DisjointSize(a, b);
    SubsetSize(a + b, all);
  }

  /** Taking `b` away from `a` takes away as many elements as `b` has exactly when `a` has all of `b`. */
  lemma DifferenceSize<T>(a: set<T>, b: set<T>)
    ensures |a - b| + |b| == |a| <==> b <= a
    ensures |a - b| + |b| >= |a|
  {
    var both := a * b;
    DisjointSize(a - b, both);
    assert a == (a - b) + both;
    SubsetSize(both, b);
    assert b <= a <==> both == b;
  }
}
