/** Distinct numbers below n are at most n in number. */
module Pigeonhole {
  lemma {:induction false} DistinctBelow(p: seq<int>, n: nat)
    requires forall k :: 0 <= k < |p| ==> 0 <= p[k] < n
    requires forall j, k :: 0 <= j < k < |p| ==> p[j] != p[k]
    ensures |p| <= n
  {
    if p != [] {
      assert 0 <= p[0] < n;
      if k :| 0 <= k < |p| && p[k] == n - 1 {
        DistinctBelow(p[..k] + p[k + 1..], n - 1);
      } else {
        DistinctBelow(p, n - 1);
      }
    }
  }
}
