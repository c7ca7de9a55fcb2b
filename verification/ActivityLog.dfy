/** The activity log of antispam.py: one user's messages, bounded in number and age, on which
    every "at least k messages in the last w seconds" test is made. */
module ActivityLog {
  import opened Sequences

  const MAX_AGE: real := 1800.0

  datatype Record = Record(at: real, chat: int, text: string)

  ghost predicate InOrder(rs: seq<Record>) {
    forall i, j :: 0 <= i <= j < |rs| ==> rs[i].at <= rs[j].at
  }

  predicate Inside(r: Record, now: real, w: real) {
    now - r.at <= w
  }

  /** `[r for r in records if now - r[0] <= w]`. */
  function Recent(rs: seq<Record>, now: real, w: real): (r: seq<Record>)
    ensures |r| <= |rs|
  {
    if rs == [] then []
    else Recent(rs[..|rs| - 1], now, w) + if Inside(rs[|rs| - 1], now, w) then [rs[|rs| - 1]] else []
  }

  /** Exactly the last `k` records are inside the window. */
  ghost predicate Border(rs: seq<Record>, now: real, w: real, k: nat) {
    k <= |rs| && forall i :: 0 <= i < |rs| ==> (Inside(rs[i], now, w) <==> |rs| - k <= i)
  }

  /** In time order the records of a window are the last ones. */
  lemma {:induction false} BorderExists(rs: seq<Record>, now: real, w: real) returns (k: nat)
    requires InOrder(rs)
    ensures Border(rs, now, w, k)
  {
    k := 0;
    if rs != [] {
      var n := |rs| - 1;
      var front := rs[..n];
      assert forall i :: 0 <= i < n ==> front[i] == rs[i];
      k := BorderExists(front, now, w);
      if Inside(rs[n], now, w) {
        k := k + 1;
      } else if n > 0 {
        assert rs[n - 1].at <= rs[n].at;
        assert front[n - 1] == rs[n - 1] && !Inside(front[n - 1], now, w);
      }
    }
  }

  lemma SnocSlice(rs: seq<Record>, n: nat, start: nat)
    requires n + 1 == |rs| && start <= n
    ensures rs[..n][start..] + [rs[n]] == rs[start..]
  {
  }

  lemma BorderOfFront(rs: seq<Record>, n: nat, now: real, w: real, k: nat)
    requires n + 1 == |rs| && Border(rs, now, w, k)
    ensures k > 0 <==> Inside(rs[n], now, w)
    ensures Border(rs[..n], now, w, if k > 0 then k - 1 else 0)
  {
    var front := rs[..n];
    assert forall i :: 0 <= i < n ==> front[i] == rs[i];
  }

  lemma RecentSnoc(rs: seq<Record>, n: nat, now: real, w: real, part: seq<Record>)
    requires n + 1 == |rs| && part == Recent(rs[..n], now, w)
    ensures Recent(rs, now, w) == if Inside(rs[n], now, w) then part + [rs[n]] else part
  {
  }

  lemma {:induction false} BorderGivesRecent(rs: seq<Record>, now: real, w: real, k: nat)
    requires Border(rs, now, w, k)
    ensures Recent(rs, now, w) == rs[|rs| - k..]
  {
    if rs != [] {
      var n: nat := |rs| - 1;
      BorderOfFront(rs, n, now, w, k);
      if k > 0 {
        var start: nat := n - (k - 1);
        BorderGivesRecent(rs[..n], now, w, k - 1);
        RecentSnoc(rs, n, now, w, rs[..n][start..]);
        SnocSlice(rs, n, start);
      } else {
        BorderGivesRecent(rs[..n], now, w, 0);
        RecentSnoc(rs, n, now, w, []);
      }
    }
  }

  lemma RecentIsLast(rs: seq<Record>, now: real, w: real)
    requires InOrder(rs)
    ensures Border(rs, now, w, |Recent(rs, now, w)|)
    ensures Recent(rs, now, w) == rs[|rs| - |Recent(rs, now, w)|..]
  {
    var k := BorderExists(rs, now, w);
    BorderGivesRecent(rs, now, w, k);
  }

  function Smaller(a: nat, b: nat): nat {
    if a <= b then a else b
  }

  lemma BorderOfSuffix(rs: seq<Record>, cut: nat, now: real, w: real, k: nat)
    requires Border(rs, now, w, k) && cut <= |rs|
    ensures Border(rs[cut..], now, w, Smaller(k, |rs| - cut))
  {
    forall i | 0 <= i < |rs| - cut ensures Inside(rs[cut..][i], now, w) <==> |rs| - k <= cut + i {
      assert rs[cut..][i] == rs[cut + i];
    }
  }

  lemma LastOfSuffix(rs: seq<Record>, cut: nat, m: nat)
    requires cut <= |rs| && m <= |rs| - cut
    ensures rs[cut..][|rs| - cut - m..] == rs[|rs| - m..]
  {
  }

  lemma NewestOfLast(rs: seq<Record>, k: nat, n: nat)
    requires k <= |rs|
    ensures Newest(rs[|rs| - k..], n) == rs[|rs| - Smaller(k, n)..]
  {
  }

  /** A suffix of the records has, of a window, what lies in the suffix. */
  lemma RecentOfSuffix(rs: seq<Record>, cut: nat, now: real, w: real)
    requires InOrder(rs) && cut <= |rs|
    ensures Recent(rs[cut..], now, w) == Newest(Recent(rs, now, w), |rs| - cut)
  {
    var k := BorderExists(rs, now, w);
    var m := Smaller(k, |rs| - cut);
    BorderOfSuffix(rs, cut, now, w, k);
    BorderGivesRecent(rs, now, w, k);
    BorderGivesRecent(rs[cut..], now, w, m);
    LastOfSuffix(rs, cut, m);
    NewestOfLast(rs, k, |rs| - cut);
  }

  /** If the record before the last `k` is outside, no more than `k` are inside. */
  lemma FewInside(rs: seq<Record>, now: real, w: real, k: nat)
    requires InOrder(rs) && (k < |rs| ==> !Inside(rs[|rs| - k - 1], now, w))
    ensures |Recent(rs, now, w)| <= k
  {
    RecentIsLast(rs, now, w);
  }

  // --------------------------------------------------------------- trimming

  /** `trim`: too many go first, then those too old. */
  function TooMany(rs: seq<Record>, maxLen: nat): seq<Record> {
    if |rs| > maxLen then TooMany(rs[1..], maxLen) else rs
  }

  function TooOld(rs: seq<Record>, now: real): seq<Record> {
    if rs != [] && now - rs[0].at > MAX_AGE then TooOld(rs[1..], now) else rs
  }

  function Trimmed(rs: seq<Record>, maxLen: nat, now: real): seq<Record> {
    TooOld(TooMany(rs, maxLen), now)
  }

  lemma {:induction false} TooManyIsLast(rs: seq<Record>, maxLen: nat)
    ensures TooMany(rs, maxLen) == Newest(rs, maxLen)
  {
    if |rs| > maxLen {
      TooManyIsLast(rs[1..], maxLen);
    }
  }

  lemma {:induction false} TooOldIsRecent(rs: seq<Record>, now: real)
    requires InOrder(rs)
    ensures TooOld(rs, now) == Recent(rs, now, MAX_AGE)
  {
    RecentIsLast(rs, now, MAX_AGE);
    if rs != [] {
      var k := |Recent(rs, now, MAX_AGE)|;
      if now - rs[0].at > MAX_AGE {
        assert !Inside(rs[0], now, MAX_AGE);
        TooOldIsRecent(rs[1..], now);
        RecentOfSuffix(rs, 1, now, MAX_AGE);
      } else {
        assert Inside(rs[0], now, MAX_AGE);
        assert k == |rs|;
      }
    }
  }

  /** What the log ought to hold: of the whole history, the longest stretch up to now that
      is neither too long nor too old. */
  function Wanted(history: seq<Record>, maxLen: nat, now: real): seq<Record> {
    Newest(Recent(history, now, MAX_AGE), maxLen)
  }

  /** It is a suffix, and no longer suffix is allowed. */
  lemma WantedIsLongest(history: seq<Record>, maxLen: nat, now: real)
    requires InOrder(history)
    ensures var k := |Wanted(history, maxLen, now)|;
      && k <= |history| && Wanted(history, maxLen, now) == history[|history| - k..]
      && k <= maxLen
      && (forall i :: |history| - k <= i < |history| ==> Inside(history[i], now, MAX_AGE))
      && (k < |history| ==> k == maxLen || !Inside(history[|history| - k - 1], now, MAX_AGE))
  {
    RecentIsLast(history, now, MAX_AGE);
  }

  lemma TrimLast(all: seq<Record>, start: nat, k: nat, maxLen: nat, now: real)
    requires InOrder(all) && start + k == |all| && k <= maxLen
    requires k < maxLen && 0 < start ==> !Inside(all[start - 1], now, MAX_AGE)
    ensures TooOld(all[start..], now) == Wanted(all, maxLen, now)
  {
    SuffixInOrder(all, start, all[start..]);
    TooOldIsRecent(all[start..], now);
    RecentOfSuffix(all, start, now, MAX_AGE);
    if k < maxLen {
      FewInside(all, now, MAX_AGE, k);
    }
    SameNewest(Recent(all, now, MAX_AGE), k, maxLen);
  }

  lemma SuffixInOrder(all: seq<Record>, start: nat, last: seq<Record>)
    requires InOrder(all) && start <= |all| && last == all[start..]
    ensures InOrder(last)
  {
    assert forall i :: 0 <= i < |last| ==> last[i] == all[start + i];
  }

  lemma SameNewest(rs: seq<Record>, n: nat, m: nat)
    requires n == m || |rs| <= n <= m
    ensures Newest(rs, n) == Newest(rs, m)
  {
  }

  lemma TooManyOfSuffix(all: seq<Record>, cut: nat, start: nat, maxLen: nat)
    requires cut <= |all| && start == |all| - Smaller(|all| - cut, maxLen)
    ensures TooMany(all[cut..], maxLen) == all[start..]
  {
    TooManyIsLast(all[cut..], maxLen);
    LastOfSuffix(all, cut, |all| - start);
  }

  /** Trimming a suffix that lacks only records too old or too many gives what is wanted of
      the whole. */
  lemma TrimSuffix(all: seq<Record>, cut: nat, maxLen: nat, now: real)
    requires InOrder(all) && cut <= |all|
    requires cut > 0 ==> |all| - cut > maxLen || !Inside(all[cut - 1], now, MAX_AGE)
    ensures Trimmed(all[cut..], maxLen, now) == Wanted(all, maxLen, now)
  {
    var k := Smaller(|all| - cut, maxLen);
    var start: nat := |all| - k;
    TooManyOfSuffix(all, cut, start, maxLen);
    TrimLast(all, start, k, maxLen, now);
  }

  lemma OrderGrows(history: seq<Record>, r: Record)
    requires InOrder(history) && (history != [] ==> history[|history| - 1].at <= r.at)
    ensures InOrder(history + [r])
  {
  }

  /** Older records go for good: a later trim of what is left is a trim of everything. */
  lemma TrimIsWanted(history: seq<Record>, records: seq<Record>, r: Record, maxLen: nat, clock: real, now: real)
    requires InOrder(history) && (history != [] ==> history[|history| - 1].at <= clock)
    requires clock <= now && r.at == now && records == Wanted(history, maxLen, clock)
    ensures InOrder(history + [r]) && Trimmed(records + [r], maxLen, now) == Wanted(history + [r], maxLen, now)
  {
    OrderGrows(history, r);
    WantedIsLongest(history, maxLen, clock);
    var all, cut := history + [r], |history| - |records|;
    assert records + [r] == all[cut..];
    assert cut > 0 ==> all[cut - 1] == history[cut - 1];
    TrimSuffix(all, cut, maxLen, now);
  }

  // ------------------------------------------------------------ window tests

  function Shorter(a: real, b: real): real {
    if b < a then b else a
  }

  lemma ShortWindow(history: seq<Record>, maxLen: nat, now: real, w: real)
    requires InOrder(history) && w <= MAX_AGE
    ensures Recent(Wanted(history, maxLen, now), now, w) == Newest(Recent(history, now, w), maxLen)
  {
    WantedIsLongest(history, maxLen, now);
    var k := |Wanted(history, maxLen, now)|;
    RecentOfSuffix(history, |history| - k, now, w);
    if k < maxLen {
      FewInside(history, now, w, k);
    }
    SameNewest(Recent(history, now, w), k, maxLen);
  }

  /** A window longer than the log reaches shows the whole log. */
  lemma LongWindow(history: seq<Record>, maxLen: nat, now: real, w: real)
    requires InOrder(history) && MAX_AGE <= w
    ensures var log := Wanted(history, maxLen, now); Recent(log, now, w) == log
  {
    WantedIsLongest(history, maxLen, now);
    var log := Wanted(history, maxLen, now);
    forall i | 0 <= i < |log| ensures Inside(log[i], now, w) {
      assert log[i] == history[|history| - |log| + i] && Inside(log[i], now, MAX_AGE);
    }
    BorderGivesRecent(log, now, w, |log|);
  }

  /** What the trimmed log shows of a window is what the history shows of its last half hour,
      up to the log's size. */
  lemma WindowOfWanted(history: seq<Record>, maxLen: nat, now: real, w: real)
    requires InOrder(history)
    ensures Recent(Wanted(history, maxLen, now), now, w) == Newest(Recent(history, now, Shorter(w, MAX_AGE)), maxLen)
  {
    if w <= MAX_AGE {
      ShortWindow(history, maxLen, now, w);
    } else {
      LongWindow(history, maxLen, now, w);
    }
  }

  /** So "at least `k` messages in the last `w` seconds" is answered as on the last half hour of
      the full history, unless `k` is more than the log can hold: then it never succeeds. */
  lemma LogAnswers(history: seq<Record>, maxLen: nat, now: real, w: real, k: nat)
    requires InOrder(history)
    ensures |Recent(Wanted(history, maxLen, now), now, w)| >= k
       <==> k <= maxLen && |Recent(history, now, Shorter(w, MAX_AGE))| >= k
  {
    WindowOfWanted(history, maxLen, now, w);
  }

  /** The answer is that of the full history for every test that fits the log's size and age,
      and the messages themselves are the same unless there are more than the log can hold. */
  lemma SameAnswer(history: seq<Record>, maxLen: nat, now: real, w: real, k: nat)
    requires InOrder(history) && w <= MAX_AGE
    ensures var log := Wanted(history, maxLen, now);
      && (k <= maxLen ==> (|Recent(log, now, w)| >= k <==> |Recent(history, now, w)| >= k))
      && (Recent(log, now, w) == Recent(history, now, w) <==> |Recent(history, now, w)| <= maxLen)
  {
    WindowOfWanted(history, maxLen, now, w);
  }

  class Activity {
    const maxLen: nat
    var records: seq<Record>
    /** Every message of this user, and the latest time read. */
    ghost var history: seq<Record>
    ghost var clock: real

    /** The log is the longest allowed stretch of the history. */
    ghost predicate Valid()
      reads this
    {
      && InOrder(history) && (history != [] ==> history[|history| - 1].at <= clock)
      && records == Wanted(history, maxLen, clock)
    }

    constructor (maxLen: nat, now: real)
      ensures Valid() && this.maxLen == maxLen && history == [] && clock == now
    {
      this.maxLen := maxLen;
      records, history, clock := [], [], now;
    }

    method Trim(now: real)
      modifies this`records
      ensures records == Trimmed(old(records), maxLen, now)
    {
      while |records| > maxLen
        invariant TooMany(records, maxLen) == TooMany(old(records), maxLen)
        decreases |records|
      {
        records := records[1..];
      }
      while records != [] && now - records[0].at > MAX_AGE
        invariant TooOld(records, now) == Trimmed(old(records), maxLen, now)
        decreases |records|
      {
        records := records[1..];
      }
    }

    method Observe(now: real, chat: int, text: string)
      requires Valid() && clock <= now
      modifies this
      ensures Valid() && history == old(history) + [Record(now, chat, text)] && clock == now
      ensures records == Wanted(history, maxLen, now)
    {
      var r := Record(now, chat, text);
      ghost var more := history + [r];
      TrimIsWanted(history, records, r, maxLen, clock, now);
      records := records + [r];
      Trim(now);
      history, clock := more, now;
      assert history[|history| - 1] == r;
    }

    /** At the time of the last message: the answer of the full history, within the log's bounds. */
    method AtLeast(now: real, k: nat, w: real) returns (yes: bool)
      requires Valid() && now == clock
      ensures yes <==> k <= maxLen && |Recent(history, now, Shorter(w, MAX_AGE))| >= k
    {
      LogAnswers(history, maxLen, now, w, k);
      var count := 0;
      for i := 0 to |records|
        invariant count == |Recent(records[..i], now, w)|
      {
        assert records[..i + 1][..i] == records[..i];
        if now - records[i].at <= w {
          count := count + 1;
        }
      }
      assert records[..|records|] == records;
      yes := count >= k;
    }
  }
}
