/**
  Smaller and larger numbers, ranges of integers, sizes of sets.
 */
module Ranges {
  function Min(a: int, b: int): int { if a < b then a else b }

  function Max(a: int, b: int): int { if a < b then b else a }

  function Range(lo: int, hi: int): (r: set<int>)
    ensures forall x :: x in r <==> lo <= x < hi
    ensures |r| == Max(hi - lo, 0)
    decreases hi - lo
  {
    if hi <= lo then {} else Range(lo, hi - 1) + {hi - 1}
  }

  lemma Member<T>(t: set<T>) returns (x: T)
    requires t != {}
    ensures x in t
  {
    x :| x in t;
  }

  lemma {:induction false} SubsetSize<T>(a: set<T>, b: set<T>)
    requires a <= b
    ensures |a| <= |b| && (|a| == |b| ==> a == b)
  {
    if a != {} {
      var x :| x in a;
      SubsetSize(a - {x}, b - {x});
    }
  }

  /** A set of numbers below n that misses one has fewer than n. */
  lemma Fewer(a: set<int>, b: int, n: int)
    requires 0 <= b < n && b !in a && forall i :: i in a ==> 0 <= i < n
    ensures |a| < n
  {
    hide Range;
    SubsetSize(a + {b}, Range(0, n));
  }
}
