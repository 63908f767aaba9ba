/** Majorities of a finite set of cluster nodes. */
module Quorum {

  /** The number of votes that elects a leader in a cluster of n nodes: (n >> 1) + 1. */
  function Majority(n: nat): (q: nat)
    ensures n < 2 * q <= n + 2
  {
    n / 2 + 1
  }

  lemma SubsetSize<T>(a: set<T>, b: set<T>)
    requires a <= b
    ensures |a| <= |b|
  {
    if a != {} {
      var x :| x in a;
      SubsetSize(a - {x}, b - {x});
    }
  }

  /** Two sets that are each more than half of the same set have a common element. */
  lemma Overlap<T>(all: set<T>, a: set<T>, b: set<T>) returns (common: T)
    requires a <= all && b <= all
    requires 2 * |a| > |all| && 2 * |b| > |all|
    ensures common in a && common in b
  {
    SubsetSize(a + b, all);
    assert |a + b| + |a * b| == |a| + |b|;
    assert a * b != {};
    common :| common in a * b;
  }
}
