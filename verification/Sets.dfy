/** A witness for a set known to be nonempty, and counting. */
module Sets {
  lemma Pick<T>(s: set<T>) returns (x: T)
    requires s != {}
    ensures x in s
  {
    x :| x in s;
  }

  lemma SubsetCount<T>(a: set<T>, b: set<T>)
    requires a <= b
    ensures |a| <= |b|
  {
    assert b == a + (b - a);
  }

  /** Distinct elements of a set are no more than it holds, and as many if they are all of it. */
  lemma {:induction false} DistinctCount<T>(s: seq<T>, all: set<T>)
    requires forall i, j :: 0 <= i < j < |s| ==> s[i] != s[j]
    requires forall x :: x in s ==> x in all
    ensures |s| <= |all|
    ensures (forall x :: x in all ==> x in s) ==> |s| == |all|
  {
    if s == [] {
      if forall x :: x in all ==> x in s {
        assert forall x :: x in all ==> x in s;
        assert all == {};
      }
    } else {
      var n := |s| - 1;
      var rest := s[..n];
      assert forall x :: x in s <==> x in rest || x == s[n];
      DistinctCount(rest, all - {s[n]});
    }
  }
}
