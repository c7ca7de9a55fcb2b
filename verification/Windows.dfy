/** Sliding windows over a nondecreasing sequence of times, and deques that keep only a
    recent part of one. */
module Windows {

  ghost predicate Sorted(ts: seq<real>) {
    forall i, j :: 0 <= i < j < |ts| ==> ts[i] <= ts[j]
  }

  lemma AppendSorted(ts: seq<real>, now: real)
    requires Sorted(ts) && (ts != [] ==> ts[|ts| - 1] <= now)
    ensures Sorted(ts + [now])
  {
  }

  /** How many of the times lie in the closed interval from `a` to `b`. */
  function CountIn(ts: seq<real>, a: real, b: real): nat {
    if ts == [] then 0
    else CountIn(ts[..|ts| - 1], a, b) + if a <= ts[|ts| - 1] <= b then 1 else 0
  }

  /** Of sorted times, those in an interval are consecutive. */
  lemma {:induction false} CountIsRange(ts: seq<real>, a: real, b: real) returns (lo: nat, hi: nat)
    requires Sorted(ts)
    ensures lo <= hi <= |ts| && CountIn(ts, a, b) == hi - lo
    ensures forall i :: 0 <= i < |ts| ==> (a <= ts[i] <= b <==> lo <= i < hi)
  {
    if ts == [] {
      return 0, 0;
    }
    var n := |ts| - 1;
    var front := ts[..n];
    lo, hi := CountIsRange(front, a, b);
    assert forall i :: 0 <= i < n ==> ts[i] == front[i];
    if lo < hi < n {
      assert ts[hi - 1] <= ts[hi] <= ts[n];
    }
    if a <= ts[n] <= b {
      if lo == hi {
        lo := n;
      }
      hi := n + 1;
    }
  }

  /** Any two of the times that are `k` or more places apart are more than `w` apart. */
  ghost predicate Spaced(ts: seq<real>, k: int, w: real) {
    forall i, j :: 0 <= i <= j < |ts| && j - i >= k ==> ts[j] - ts[i] > w
  }

  /** Then no closed interval of length `w` holds more than `k` of them. */
  lemma SpacedBoundsCount(ts: seq<real>, k: nat, w: real, a: real, b: real)
    requires Sorted(ts) && Spaced(ts, k, w) && b - a <= w
    ensures CountIn(ts, a, b) <= k
  {
    var lo, hi := CountIsRange(ts, a, b);
    if lo < hi {
      assert a <= ts[lo] && ts[hi - 1] <= b;
    }
  }

  /** `win` is what is left of `full` after only times before `bound` were dropped. */
  ghost predicate Recent(win: seq<real>, full: seq<real>, bound: real) {
    && |win| <= |full|
    && win == full[|full| - |win|..]
    && forall i :: 0 <= i < |full| - |win| ==> full[i] < bound
  }

  /** Drops the times before `bound` from the front. */
  function Pruned(win: seq<real>, bound: real): (kept: seq<real>)
    ensures kept != [] ==> bound <= kept[0]
  {
    if win == [] || bound <= win[0] then win else Pruned(win[1..], bound)
  }

  lemma {:induction false} PrunedIsRecent(win: seq<real>, full: seq<real>, bound: real, earlier: real)
    requires Sorted(full) && Recent(win, full, earlier) && earlier <= bound
    ensures Recent(Pruned(win, bound), full, bound)
  {
    if win != [] && win[0] < bound {
      var rest := win[1..];
      assert Recent(rest, full, bound) by {
        assert full[|full| - |win|] == win[0];
        assert rest == full[|full| - |rest|..];
      }
      PrunedIsRecent(rest, full, bound, bound);
    }
  }

  /** The length of a pruned deque is the number of times in the window that ends now. */
  lemma PrunedCounts(win: seq<real>, full: seq<real>, bound: real, now: real)
    requires Sorted(full) && Recent(win, full, bound) && (win != [] ==> bound <= win[0])
    requires full != [] ==> full[|full| - 1] <= now
    ensures |win| == CountIn(full, bound, now)
  {
    var lo, hi := CountIsRange(full, bound, now);
    var cut := |full| - |win|;
    forall i | 0 <= i < |full| ensures bound <= full[i] <= now <==> cut <= i {
      if cut <= i {
        assert full[i] == win[i - cut] && win[0] == full[cut];
        assert full[cut] <= full[i] <= full[|full| - 1];
      }
    }
    if cut < |full| {
      assert lo <= cut < hi && lo <= |full| - 1 < hi;
      assert bound <= full[lo] <= now;
    }
  }

  /** Pruning at `now` leaves exactly the window that ends now. */
  lemma PruneAt(win: seq<real>, full: seq<real>, earlier: real, now: real, w: real)
    requires Sorted(full) && Recent(win, full, earlier) && earlier <= now - w
    requires full != [] ==> full[|full| - 1] <= now
    ensures Recent(Pruned(win, now - w), full, now - w)
    ensures |Pruned(win, now - w)| == CountIn(full, now - w, now)
  {
    PrunedIsRecent(win, full, now - w, earlier);
    PrunedCounts(Pruned(win, now - w), full, now - w, now);
  }

}
