/** Facts about strictly increasing lists of row positions. */
module Increasing {

  predicate StrictlyIncreasing(s: seq<nat>) {
    forall a, b :: 0 <= a < b < |s| ==> s[a] < s[b]
  }

  /** A strictly increasing list holding exactly the positions 0..n-1 is 0, 1, ..., n-1. */
  lemma CoverIsRange(ks: seq<nat>, n: nat)
    requires forall i :: i in ks <==> 0 <= i < n
    requires StrictlyIncreasing(ks)
    ensures |ks| == n && forall j :: 0 <= j < n ==> ks[j] == j
  {
    var j := 0;
    while j < |ks|
      invariant 0 <= j <= |ks| && j <= n
      invariant forall a :: 0 <= a < j ==> ks[a] == a
    {
      assert ks[j] >= j by {
        if j > 0 { assert ks[j - 1] == j - 1 && ks[j - 1] < ks[j]; }
      }
      assert ks[j] in ks;
      assert j in ks;
      var a :| 0 <= a < |ks| && ks[a] == j;
      assert a == j;
      j := j + 1;
    }
    assert |ks| < n ==> |ks| in ks;
  }
}
