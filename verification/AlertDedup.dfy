/** Two-layer alert deduplication, as functions on values. */
module AlertDedup {
  import opened Options


  // The table `alert_dedup` and its atomic operations (database.py), and the memory cache in
  // front of it (dedup.py).  `AlertDeduplicator` carries them out on objects.

  // -------------------------------------------------------------- the table

  datatype Row = Row(firstSeen: real, lastSeen: real, hits: nat)

  type Table = map<string, Row>

  function AtLeastOne(seconds: real): real {
    if seconds < 1.0 then 1.0 else seconds
  }

  /** May a claim at `now` take the fingerprint: no row, or one idle for more than the window. */
  predicate Takes(t: Table, fp: string, now: real, window: real) {
    fp !in t || now - t[fp].lastSeen > AtLeastOne(window)
  }

  /** Insert or take over on success; a refused claim still refreshes `last_seen`. */
  function Claim(t: Table, fp: string, now: real, window: real): Table {
    if Takes(t, fp, now, window) then t[fp := Row(now, now, 1)]
    else t[fp := Row(t[fp].firstSeen, now, t[fp].hits + 1)]
  }

  predicate IsOlder(t: Table, fp: string, now: real, age: real) {
    fp in t && t[fp].lastSeen < now - AtLeastOne(age)
  }

  function Steal(t: Table, fp: string, now: real, minAge: real): Table {
    if IsOlder(t, fp, now, minAge) then t - {fp} else t
  }

  function Cleanup(t: Table, now: real, maxAge: real): Table {
    map fp | fp in t && !IsOlder(t, fp, now, maxAge) :: t[fp]
  }

  // ------------------------------------------------------------- the memory

  /** An ordered dictionary: least recently claimed first. */
  datatype Mem = Mem(order: seq<string>, at: map<string, real>)

  const NOTHING := Mem([], map[])

  predicate Distinct(s: seq<string>) {
    forall i, j :: 0 <= i < j < |s| ==> s[i] != s[j]
  }

  ghost predicate MemOk(m: Mem) {
    && Distinct(m.order)
    && forall fp :: fp in m.order <==> fp in m.at
  }

  predicate Unexpired(m: Mem, fp: string, now: real, window: real) {
    fp in m.at && now - m.at[fp] <= window
  }

  function Without(s: seq<string>, fp: string): seq<string> {
    if s == [] then [] else (if s[0] == fp then [] else [s[0]]) + Without(s[1..], fp)
  }

  lemma {:induction false} WithoutSpec(s: seq<string>, fp: string)
    ensures forall x :: x in Without(s, fp) <==> x in s && x != fp
    ensures Distinct(s) ==> Distinct(Without(s, fp))
    ensures |Without(s, fp)| <= |s| && (fp !in s ==> Without(s, fp) == s)
  {
    if s != [] {
      WithoutSpec(s[1..], fp);
      assert s == [s[0]] + s[1..];
      if Distinct(s) {
        assert Distinct(s[1..]) && s[0] !in s[1..];
      }
    }
  }

  function Forget(m: Mem, fp: string): Mem {
    Mem(Without(m.order, fp), m.at - {fp})
  }

  lemma ForgetKeepsMem(m: Mem, fp: string)
    requires MemOk(m)
    ensures MemOk(Forget(m, fp))
  {
    WithoutSpec(m.order, fp);
  }

  /** Evict from the front until at most `max` entries are left. */
  function Shrink(m: Mem, max: nat): Mem
    decreases |m.order|
  {
    if |m.order| <= max then m else Shrink(Mem(m.order[1..], m.at - {m.order[0]}), max)
  }

  function Remember(m: Mem, fp: string, now: real): Mem {
    Mem(Without(m.order, fp) + [fp], m.at[fp := now])
  }

  lemma RememberKeepsMem(m: Mem, fp: string, now: real)
    requires MemOk(m)
    ensures MemOk(Remember(m, fp, now))
  {
    WithoutSpec(m.order, fp);
  }

  lemma DropOldest(m: Mem)
    requires MemOk(m) && m.order != []
    ensures MemOk(Mem(m.order[1..], m.at - {m.order[0]}))
  {
    var rest := m.order[1..];
    assert m.order == [m.order[0]] + rest;
    assert forall fp :: fp in rest <==> fp in m.order && fp != m.order[0];
  }

  /** Eviction keeps exactly the `max` most recently claimed entries, unchanged. */
  lemma {:induction false} ShrinkKeepsNewest(m: Mem, max: nat)
    requires MemOk(m)
    ensures var s := Shrink(m, max);
      && MemOk(s)
      && s.order == m.order[(if |m.order| <= max then 0 else |m.order| - max)..]
      && forall fp :: fp in s.at ==> fp in m.at && s.at[fp] == m.at[fp]
    decreases |m.order|
  {
    if |m.order| > max {
      DropOldest(m);
      ShrinkKeepsNewest(Mem(m.order[1..], m.at - {m.order[0]}), max);
    }
  }

  // -------------------------------------------------------------- both layers

  datatype Config = Config(enabled: bool, window: real, memMax: nat)

  predicate Guarding(c: Config) {
    c.enabled && c.window > 0.0
  }

  datatype Verdict = Verdict(mem: Mem, table: Table, won: bool)

  /** `check_and_claim` without a database error. */
  function Check(c: Config, m: Mem, t: Table, fp: string, now: real): Verdict {
    if !Guarding(c) then Verdict(m, t, true)
    else if Unexpired(m, fp, now, c.window) then Verdict(m, t, false)
    else Verdict(Shrink(Remember(Forget(m, fp), fp, now), c.memMax),
                 Claim(t, fp, now, c.window), Takes(t, fp, now, c.window))
  }

  // ---------------------------------------- the cache agrees with the table

  /** Every memory entry that is still in force at `clock` has a row seen no earlier. */
  ghost predicate Agrees(c: Config, m: Mem, t: Table, clock: real) {
    forall fp :: fp in m.at && clock - m.at[fp] <= c.window ==> fp in t && m.at[fp] <= t[fp].lastSeen
  }

  /** Where the layers agree, the memory refuses only what the table would refuse too: the
      verdict is the table's own, and the cache is invisible to the caller. */
  lemma CheckIsTheTablesVerdict(c: Config, m: Mem, t: Table, fp: string, clock: real, now: real)
    requires 1.0 <= c.window && clock <= now && Agrees(c, m, t, clock)
    ensures c.enabled ==> Check(c, m, t, fp, now).won == Takes(t, fp, now, c.window)
  {
  }

  lemma CheckKeepsAgreement(c: Config, m: Mem, t: Table, fp: string, clock: real, now: real)
    requires MemOk(m) && clock <= now && Agrees(c, m, t, clock)
    ensures var v := Check(c, m, t, fp, now); MemOk(v.mem) && Agrees(c, v.mem, v.table, now)
  {
    if Guarding(c) && !Unexpired(m, fp, now, c.window) {
      ForgetKeepsMem(m, fp);
      RememberKeepsMem(Forget(m, fp), fp, now);
      ShrinkKeepsNewest(Remember(Forget(m, fp), fp, now), c.memMax);
    }
  }

  lemma ReleaseKeepsAgreement(c: Config, m: Mem, t: Table, fp: string, clock: real)
    requires MemOk(m) && Agrees(c, m, t, clock)
    ensures MemOk(Forget(m, fp)) && Agrees(c, Forget(m, fp), t - {fp}, clock)
  {
    ForgetKeepsMem(m, fp);
  }

  /** A successful steal forgets the entry as well; a denied one leaves both layers alone. */
  lemma StealKeepsAgreement(c: Config, m: Mem, t: Table, fp: string, clock: real, now: real, minAge: real)
    requires MemOk(m) && clock <= now && Agrees(c, m, t, clock)
    ensures var after := if IsOlder(t, fp, now, minAge) then Forget(m, fp) else m;
      MemOk(after) && Agrees(c, after, Steal(t, fp, now, minAge), now)
  {
    ForgetKeepsMem(m, fp);
  }

  /** A cleanup pass removes rows under the cache, but only of entries no longer in force. */
  lemma CleanupKeepsAgreement(c: Config, m: Mem, t: Table, clock: real, now: real)
    requires clock <= now && Agrees(c, m, t, clock)
    ensures Agrees(c, m, Cleanup(t, now, c.window), now)
  {
  }

  // ------------------------------------------------------ runs of many processes

  datatype Event =
    | CheckBy(proc: int, fp: string, now: real)
    | ReleaseBy(proc: int, fp: string)
    | StealBy(proc: int, fp: string, now: real, minAge: real)
    | CleanupAt(now: real)
    | Restart(proc: int)

  /** The shared table and each process's own memory. */
  datatype Sys = Sys(table: Table, mems: map<int, Mem>)

  function MemOf(s: Sys, proc: int): Mem {
    if proc in s.mems then s.mems[proc] else NOTHING
  }

  predicate Wins(c: Config, s: Sys, e: Event) {
    e.CheckBy? && Check(c, MemOf(s, e.proc), s.table, e.fp, e.now).won
  }

  function Step(c: Config, s: Sys, e: Event): Sys {
    match e
    case CheckBy(proc, fp, now) =>
      var v := Check(c, MemOf(s, proc), s.table, fp, now);
      Sys(v.table, s.mems[proc := v.mem])
    case ReleaseBy(proc, fp) => Sys(s.table - {fp}, s.mems[proc := Forget(MemOf(s, proc), fp)])
    case StealBy(proc, fp, now, minAge) =>
      if IsOlder(s.table, fp, now, minAge)
      then Sys(s.table - {fp}, s.mems[proc := Forget(MemOf(s, proc), fp)])
      else s
    case CleanupAt(now) => if c.window <= 0.0 then s else s.(table := Cleanup(s.table, now, c.window))
    case Restart(proc) => s.(mems := s.mems - {proc})
  }

  predicate Timed(e: Event) {
    !e.ReleaseBy? && !e.Restart?
  }

  predicate Link(c: Config, tr: seq<Sys>, es: seq<Event>, k: nat)
    requires |tr| == |es| + 1 && k < |es|
  {
    tr[k + 1] == Step(c, tr[k], es[k])
  }

  ghost predicate IsRun(c: Config, tr: seq<Sys>, es: seq<Event>) {
    |tr| == |es| + 1 && forall k: nat :: k < |es| ==> Link(c, tr, es, k)
  }

  /** Calls reach the table in clock order. */
  ghost predicate ClockOrder(es: seq<Event>) {
    forall i, j :: 0 <= i < j < |es| && Timed(es[i]) && Timed(es[j]) ==> es[i].now <= es[j].now
  }

  /** The fingerprint is not given back between the two calls, and every steal of it in
      between demands at least the age `gap`. */
  ghost predicate Undisturbed(es: seq<Event>, i: int, j: int, fp: string, gap: real)
    requires 0 <= i <= j <= |es|
  {
    forall k :: i < k < j ==>
      && !(es[k].ReleaseBy? && es[k].fp == fp)
      && (es[k].StealBy? && es[k].fp == fp ==> gap <= AtLeastOne(es[k].minAge))
  }

  /** Since the win at `t0`: the row still stands, or more than `gap` has passed by `clock`. */
  predicate Held(s: Sys, fp: string, t0: real, gap: real, clock: real) {
    (fp in s.table && t0 <= s.table[fp].lastSeen) || t0 + gap < clock
  }

  lemma HeldStep(c: Config, s: Sys, e: Event, fp: string, t0: real, gap: real, clock: real)
    requires Held(s, fp, t0, gap, clock) && gap <= c.window
    requires Timed(e) ==> clock <= e.now && t0 <= e.now
    requires !(e.ReleaseBy? && e.fp == fp)
    requires e.StealBy? && e.fp == fp ==> gap <= AtLeastOne(e.minAge)
    ensures Held(Step(c, s, e), fp, t0, gap, if Timed(e) then e.now else clock)
  {
  }

  lemma {:induction false} HeldAlong(c: Config, tr: seq<Sys>, es: seq<Event>, i: nat, k: nat, gap: real)
    returns (clock: real)
    requires IsRun(c, tr, es) && ClockOrder(es) && i < k <= |es| && Guarding(c) && gap <= c.window
    requires Wins(c, tr[i], es[i]) && Undisturbed(es, i, k, es[i].fp, gap)
    ensures Held(tr[k], es[i].fp, es[i].now, gap, clock)
    ensures clock == es[i].now || exists m :: i < m < k && Timed(es[m]) && clock == es[m].now
    ensures forall m :: i <= m < k && Timed(es[m]) ==> es[m].now <= clock
    decreases k
  {
    if k == i + 1 {
      clock := es[i].now;
      assert Link(c, tr, es, i);
    } else {
      clock := HeldAlong(c, tr, es, i, k - 1, gap);
      assert Link(c, tr, es, k - 1);
      HeldStep(c, tr[k - 1], es[k - 1], es[i].fp, es[i].now, gap, clock);
      clock := if Timed(es[k - 1]) then es[k - 1].now else clock;
    }
  }

  /** Two wins on one fingerprint, by any processes, are more than `gap` apart, whatever
      evictions, restarts and cleanup passes happen between: `gap` may be the whole window
      when nothing is stolen, and the least age demanded by a steal otherwise. */
  lemma WinsAreSpaced(c: Config, tr: seq<Sys>, es: seq<Event>, i: nat, j: nat, gap: real)
    requires IsRun(c, tr, es) && ClockOrder(es) && i < j < |es| && Guarding(c) && 1.0 <= c.window
    requires Wins(c, tr[i], es[i]) && Wins(c, tr[j], es[j]) && es[i].fp == es[j].fp
    requires gap <= c.window && Undisturbed(es, i, j, es[i].fp, gap)
    ensures es[j].now - es[i].now > gap
  {
    var clock := HeldAlong(c, tr, es, i, j, gap);
    assert clock <= es[j].now;
  }

  /** Any two wins with no release and no steal between are more than the window apart. */
  ghost predicate Spaced(c: Config) {
    forall tr: seq<Sys>, es: seq<Event>, i: nat, j: nat ::
      && IsRun(c, tr, es) && ClockOrder(es) && i < j < |es|
      && Wins(c, tr[i], es[i]) && Wins(c, tr[j], es[j]) && es[i].fp == es[j].fp
      && (forall k :: i < k < j ==> !es[k].ReleaseBy? && !es[k].StealBy?)
      ==> es[j].now - es[i].now > c.window
  }

  /** For every window of at least a second (the setting is a whole number) or none, that
      promise is kept exactly when the guard is on: it is off when disabled or when the
      window is zero, and then every call wins. */
  lemma SpacedIffGuarding(c: Config)
    requires c.window == 0.0 || 1.0 <= c.window
    ensures Spaced(c) <==> Guarding(c)
  {
    if Guarding(c) {
      forall tr: seq<Sys>, es: seq<Event>, i: nat, j: nat |
        && IsRun(c, tr, es) && ClockOrder(es) && i < j < |es|
        && Wins(c, tr[i], es[i]) && Wins(c, tr[j], es[j]) && es[i].fp == es[j].fp
        && (forall k :: i < k < j ==> !es[k].ReleaseBy? && !es[k].StealBy?)
        ensures es[j].now - es[i].now > c.window
      {
        WinsAreSpaced(c, tr, es, i, j, c.window);
      }
    } else {
      var s, e := Sys(map[], map[]), CheckBy(0, "x", 0.0);
      var s1 := Step(c, s, e);
      var s2 := Step(c, s1, e);
      var tr, es := [s, s1, s2], [e, e];
      assert Link(c, tr, es, 0) && Link(c, tr, es, 1);
      assert IsRun(c, tr, es) && ClockOrder(es);
      assert Wins(c, tr[0], es[0]) && Wins(c, tr[1], es[1]);
    }
  }

  // --------------------------------------------------- when a restart shows

  /** What a caller learns from an event: whether a check or a steal succeeds. */
  predicate Answer(c: Config, s: Sys, e: Event) {
    match e
    case CheckBy(proc, fp, now) => Check(c, MemOf(s, proc), s.table, fp, now).won
    case StealBy(_, fp, now, minAge) => IsOlder(s.table, fp, now, minAge)
    case _ => true
  }

  ghost predicate StartsAt(es: seq<Event>, clock: real) {
    ClockOrder(es) && forall k :: 0 <= k < |es| && Timed(es[k]) ==> clock <= es[k].now
  }

  /** From both states every event of the list gives the same answer. */
  ghost predicate SameAnswers(c: Config, s: Sys, t: Sys, es: seq<Event>) {
    forall tr: seq<Sys>, ur: seq<Sys>, k: nat ::
      IsRun(c, tr, es) && IsRun(c, ur, es) && tr[0] == s && ur[0] == t && k < |es|
      ==> Answer(c, tr[k], es[k]) == Answer(c, ur[k], es[k])
  }

  /** No entry is in force any more. */
  ghost predicate Idle(c: Config, m: Mem, clock: real) {
    forall fp :: fp in m.at ==> clock - m.at[fp] > c.window
  }

  /** `r` is `m` without some entries at its front, none of them in force. */
  ghost predicate Behind(c: Config, m: Mem, r: Mem, clock: real) {
    && MemOk(m) && MemOk(r) && |r.order| <= |m.order|
    && m.order == m.order[..|m.order| - |r.order|] + r.order
    && (forall fp :: fp in r.at ==> fp in m.at && m.at[fp] == r.at[fp])
    && forall fp :: fp in m.at && fp !in r.at ==> clock - m.at[fp] > c.window
  }

  lemma {:induction false} WithoutJoin(a: seq<string>, b: seq<string>, fp: string)
    ensures Without(a + b, fp) == Without(a, fp) + Without(b, fp)
  {
    if a == [] {
      assert a + b == b;
    } else {
      assert (a + b)[0] == a[0] && (a + b)[1..] == a[1..] + b;
      WithoutJoin(a[1..], b, fp);
    }
  }

  lemma ForgetKeepsBehind(c: Config, m: Mem, r: Mem, clock: real, fp: string)
    requires Behind(c, m, r, clock)
    ensures Behind(c, Forget(m, fp), Forget(r, fp), clock)
  {
    var front := m.order[..|m.order| - |r.order|];
    WithoutJoin(front, r.order, fp);
    ForgetKeepsMem(m, fp);
    ForgetKeepsMem(r, fp);
    var more := Without(front, fp);
    assert (more + Without(r.order, fp))[..|more|] == more;
  }

  lemma AppendKeepsBehind(c: Config, m: Mem, r: Mem, clock: real, fp: string, now: real)
    requires Behind(c, m, r, clock) && fp !in m.at && fp !in r.at && clock <= now
    ensures Behind(c, Mem(m.order + [fp], m.at[fp := now]), Mem(r.order + [fp], r.at[fp := now]), now)
  {
    var front := m.order[..|m.order| - |r.order|];
    assert m.order + [fp] == front + (r.order + [fp]);
    assert (m.order + [fp])[..|front|] == front;
  }

  function Cut(n: nat, max: nat): (k: nat)
    ensures k <= n
  {
    if n <= max then 0 else n - max
  }

  lemma SuffixOfJoin(front: seq<string>, rest: seq<string>, max: nat) returns (more: seq<string>)
    ensures (front + rest)[Cut(|front + rest|, max)..] == more + rest[Cut(|rest|, max)..]
    ensures |rest| > max ==> more == []
    ensures forall x :: x in more ==> x in front
  {
    var k := Cut(|front + rest|, max);
    if |rest| > max {
      more := [];
    } else {
      more := front[k..];
    }
  }

  lemma Joined(a: seq<string>, more: seq<string>, b: seq<string>)
    requires a == more + b
    ensures |b| <= |a| && a == a[..|a| - |b|] + b
  {
  }

  lemma FrontIsOld(c: Config, m: Mem, r: Mem, clock: real) returns (front: seq<string>)
    requires Behind(c, m, r, clock)
    ensures m.order == front + r.order
    ensures forall fp :: fp in front ==> fp in m.at && clock - m.at[fp] > c.window
  {
    front := m.order[..|m.order| - |r.order|];
    forall fp | fp in front ensures fp in m.at && clock - m.at[fp] > c.window {
      OldOnly(m.order, front, r.order, fp);
      assert fp in m.order && fp !in r.order;
    }
  }

  lemma ShrunkOrder(m: Mem, max: nat)
    requires MemOk(m)
    ensures Shrink(m, max).order == m.order[Cut(|m.order|, max)..]
  {
    ShrinkKeepsNewest(m, max);
  }

  /** What is in force is among the newest entries, so eviction drops it last. */
  lemma ShrinkKeepsBehind(c: Config, m: Mem, r: Mem, clock: real, max: nat)
    requires Behind(c, m, r, clock)
    ensures Behind(c, Shrink(m, max), Shrink(r, max), clock)
  {
    var front := FrontIsOld(c, m, r, clock);
    var more := SuffixOfJoin(front, r.order, max);
    ShrunkOrder(m, max);
    ShrunkOrder(r, max);
    ShrinkKeepsNewest(m, max);
    ShrinkKeepsNewest(r, max);
    SameBehind(c, m, r, Shrink(m, max), Shrink(r, max), more, clock);
  }

  lemma SameBehind(c: Config, m: Mem, r: Mem, a: Mem, b: Mem, more: seq<string>, clock: real)
    requires MemOk(a) && MemOk(b) && a.order == more + b.order
    requires forall fp :: fp in r.at ==> fp in m.at && m.at[fp] == r.at[fp]
    requires forall fp :: fp in a.at ==> fp in m.at && a.at[fp] == m.at[fp]
    requires forall fp :: fp in b.at ==> fp in r.at && b.at[fp] == r.at[fp]
    requires forall fp :: fp in more ==> fp in m.at && clock - m.at[fp] > c.window
    ensures Behind(c, a, b, clock)
  {
    Joined(a.order, more, b.order);
    assert forall fp :: fp in a.order <==> fp in more || fp in b.order;
  }

  /** Of distinct names the front ones are not among the rest. */
  lemma OldOnly(all: seq<string>, front: seq<string>, rest: seq<string>, fp: string)
    requires Distinct(all) && all == front + rest && fp in front
    ensures fp !in rest
  {
    var i :| 0 <= i < |front| && front[i] == fp;
    assert all[i] == fp;
    forall j | 0 <= j < |rest| ensures rest[j] != fp {
      assert all[|front| + j] == rest[j];
    }
  }

  lemma CheckKeepsBehind(c: Config, m: Mem, r: Mem, t: Table, fp: string, clock: real, now: real)
    requires Behind(c, m, r, clock) && clock <= now
    ensures var v, u := Check(c, m, t, fp, now), Check(c, r, t, fp, now);
      v.won == u.won && v.table == u.table && Behind(c, v.mem, u.mem, now)
  {
    if Guarding(c) && !Unexpired(m, fp, now, c.window) {
      ForgetKeepsBehind(c, m, r, clock, fp);
      ForgetTwice(m, fp);
      ForgetTwice(r, fp);
      AppendKeepsBehind(c, Forget(m, fp), Forget(r, fp), clock, fp, now);
      ShrinkKeepsBehind(c, Remember(Forget(m, fp), fp, now), Remember(Forget(r, fp), fp, now), now, c.memMax);
    }
  }

  lemma ForgetTwice(m: Mem, fp: string)
    ensures Remember(Forget(m, fp), fp, 0.0).order == Forget(m, fp).order + [fp]
  {
    WithoutSpec(m.order, fp);
    WithoutSpec(Without(m.order, fp), fp);
  }

  /** The two states differ only in dead entries of one process's memory. */
  ghost predicate Alike(c: Config, s: Sys, t: Sys, p: int, clock: real) {
    && s.table == t.table
    && (forall q :: q != p ==> MemOf(s, q) == MemOf(t, q))
    && Behind(c, MemOf(s, p), MemOf(t, p), clock)
  }

  /** What an event does to one process's memory, given the table. */
  function MemAfter(c: Config, m: Mem, t: Table, p: int, e: Event): Mem {
    match e
    case CheckBy(proc, fp, now) => if proc == p then Check(c, m, t, fp, now).mem else m
    case ReleaseBy(proc, fp) => if proc == p then Forget(m, fp) else m
    case StealBy(proc, fp, now, minAge) => if proc == p && IsOlder(t, fp, now, minAge) then Forget(m, fp) else m
    case CleanupAt(_) => m
    case Restart(proc) => if proc == p then NOTHING else m
  }

  lemma MemOfStep(c: Config, s: Sys, p: int, e: Event)
    ensures MemOf(Step(c, s, e), p) == MemAfter(c, MemOf(s, p), s.table, p, e)
  {
  }

  lemma BehindAges(c: Config, m: Mem, r: Mem, clock: real, now: real)
    requires Behind(c, m, r, clock) && clock <= now
    ensures Behind(c, m, r, now)
  {
  }

  function ClockAfter(e: Event, clock: real): real {
    if Timed(e) then e.now else clock
  }

  lemma MemAfterKeepsBehind(c: Config, m: Mem, r: Mem, t: Table, p: int, clock: real, e: Event)
    requires Behind(c, m, r, clock) && clock <= ClockAfter(e, clock)
    ensures Behind(c, MemAfter(c, m, t, p, e), MemAfter(c, r, t, p, e), ClockAfter(e, clock))
  {
    BehindAges(c, m, r, clock, ClockAfter(e, clock));
    if e.CheckBy? && e.proc == p {
      CheckKeepsBehind(c, m, r, t, e.fp, clock, e.now);
    } else if (e.ReleaseBy? || e.StealBy?) && e.proc == p {
      ForgetKeepsBehind(c, m, r, ClockAfter(e, clock), e.fp);
    }
  }

  lemma SameTable(c: Config, s: Sys, t: Sys, p: int, clock: real, e: Event)
    requires Alike(c, s, t, p, clock) && clock <= ClockAfter(e, clock)
    ensures Step(c, s, e).table == Step(c, t, e).table && Answer(c, s, e) == Answer(c, t, e)
  {
    if e.CheckBy? && e.proc == p {
      CheckKeepsBehind(c, MemOf(s, p), MemOf(t, p), s.table, e.fp, clock, e.now);
    }
  }

  lemma AlikeStep(c: Config, s: Sys, t: Sys, p: int, clock: real, e: Event)
    requires Alike(c, s, t, p, clock) && clock <= ClockAfter(e, clock)
    ensures Answer(c, s, e) == Answer(c, t, e)
    ensures Alike(c, Step(c, s, e), Step(c, t, e), p, ClockAfter(e, clock))
  {
    SameTable(c, s, t, p, clock, e);
    forall q ensures q != p ==> MemOf(Step(c, s, e), q) == MemOf(Step(c, t, e), q) {
      MemOfStep(c, s, q, e);
      MemOfStep(c, t, q, e);
    }
    MemOfStep(c, s, p, e);
    MemOfStep(c, t, p, e);
    MemAfterKeepsBehind(c, MemOf(s, p), MemOf(t, p), s.table, p, clock, e);
  }

  lemma {:induction false} AlikeAlong(c: Config, tr: seq<Sys>, ur: seq<Sys>, es: seq<Event>, p: int,
                                      clock: real, k: nat)
    returns (now: real)
    requires IsRun(c, tr, es) && IsRun(c, ur, es) && k <= |es| && StartsAt(es, clock)
    requires Alike(c, tr[0], ur[0], p, clock)
    ensures Alike(c, tr[k], ur[k], p, now)
    ensures forall j :: k <= j < |es| && Timed(es[j]) ==> now <= es[j].now
  {
    if k == 0 {
      return clock;
    }
    var before := AlikeAlong(c, tr, ur, es, p, clock, k - 1);
    assert Link(c, tr, es, k - 1) && Link(c, ur, es, k - 1);
    AlikeStep(c, tr[k - 1], ur[k - 1], p, before, es[k - 1]);
    now := ClockAfter(es[k - 1], before);
  }

  lemma IdleIsInvisible(c: Config, s: Sys, p: int, clock: real, es: seq<Event>)
    requires MemOk(MemOf(s, p)) && Idle(c, MemOf(s, p), clock) && StartsAt(es, clock)
    ensures SameAnswers(c, s, Step(c, s, Restart(p)), es)
  {
    forall tr: seq<Sys>, ur: seq<Sys>, k: nat |
      IsRun(c, tr, es) && IsRun(c, ur, es) && tr[0] == s && ur[0] == Step(c, s, Restart(p)) && k < |es|
      ensures Answer(c, tr[k], es[k]) == Answer(c, ur[k], es[k])
    {
      var m := MemOf(s, p);
      assert m.order[..|m.order|] + [] == m.order;
      var now := AlikeAlong(c, tr, ur, es, p, clock, k);
      AlikeStep(c, tr[k], ur[k], p, now, es[k]);
    }
  }

  /** All that a check changes about its own fingerprint. */
  lemma CheckEffect(c: Config, m: Mem, t: Table, fp: string, now: real)
    requires Guarding(c) && 1 <= c.memMax && MemOk(m)
    ensures var v := Check(c, m, t, fp, now);
      if Unexpired(m, fp, now, c.window) then v == Verdict(m, t, false)
      else
        && v.won == Takes(t, fp, now, c.window) && MemOk(v.mem)
        && fp in v.mem.at && v.mem.at[fp] == now && fp in v.table && v.table[fp].lastSeen == now
  {
    if !Unexpired(m, fp, now, c.window) {
      ForgetKeepsMem(m, fp);
      var r := Remember(Forget(m, fp), fp, now);
      RememberKeepsMem(Forget(m, fp), fp, now);
      ShrinkKeepsNewest(r, c.memMax);
      var kept := Shrink(r, c.memMax).order;
      assert kept[|kept| - 1] == r.order[|r.order| - 1] == fp;
      assert fp in kept;
    }
  }

  /** Three checks of one process. */
  function Probe(p: int, fp: string, t1: real, t2: real, t3: real): seq<Event> {
    [CheckBy(p, fp, t1), CheckBy(p, fp, t2), CheckBy(p, fp, t3)]
  }

  lemma Trace(c: Config, s: Sys, a: Event, b: Event, d: Event) returns (tr: seq<Sys>)
    ensures IsRun(c, tr, [a, b, d]) && tr[0] == s
    ensures tr[1] == Step(c, s, a) && tr[2] == Step(c, Step(c, s, a), b)
  {
    var s1 := Step(c, s, a);
    var s2 := Step(c, s1, b);
    var s3 := Step(c, s2, d);
    tr := [s, s1, s2, s3];
  }

  /** The three answers that a process with this memory gets over this table. */
  function ProbeAnswers(c: Config, m: Mem, t: Table, fp: string, t1: real, t2: real, t3: real): seq<bool> {
    var v1 := Check(c, m, t, fp, t1);
    var v2 := Check(c, v1.mem, v1.table, fp, t2);
    [v1.won, v2.won, Check(c, v2.mem, v2.table, fp, t3).won]
  }

  lemma ProbeRun(c: Config, s: Sys, p: int, fp: string, t1: real, t2: real, t3: real) returns (tr: seq<Sys>)
    ensures var es := Probe(p, fp, t1, t2, t3);
      && IsRun(c, tr, es) && tr[0] == s
      && forall k :: 0 <= k < 3 ==> Answer(c, tr[k], es[k]) == ProbeAnswers(c, MemOf(s, p), s.table, fp, t1, t2, t3)[k]
  {
    var es := Probe(p, fp, t1, t2, t3);
    tr := Trace(c, s, es[0], es[1], es[2]);
    assert [es[0], es[1], es[2]] == es;
  }

  /** When one fingerprint was last claimed in memory and last seen in the table. */
  datatype Trail = Trail(claimed: Option<real>, seen: Option<real>)

  ghost predicate Shows(m: Mem, t: Table, fp: string, trail: Trail) {
    && MemOk(m)
    && trail.claimed == (if fp in m.at then Some(m.at[fp]) else None)
    && trail.seen == (if fp in t then Some(t[fp].lastSeen) else None)
  }

  predicate Recalls(window: real, last: Option<real>, now: real) {
    last.Some? && now - last.value <= window
  }

  function Follow(window: real, trail: Trail, now: real): Trail {
    if Recalls(window, trail.claimed, now) then trail else Trail(Some(now), Some(now))
  }

  predicate Succeeds(window: real, trail: Trail, now: real) {
    !Recalls(window, trail.claimed, now) && !Recalls(window, trail.seen, now)
  }

  /** Of its own fingerprint a check shows and changes only this much. */
  lemma CheckFollows(c: Config, m: Mem, t: Table, fp: string, now: real, trail: Trail)
    requires Guarding(c) && 1.0 <= c.window && 1 <= c.memMax && Shows(m, t, fp, trail)
    ensures var v := Check(c, m, t, fp, now);
      Shows(v.mem, v.table, fp, Follow(c.window, trail, now)) && v.won == Succeeds(c.window, trail, now)
  {
    CheckEffect(c, m, t, fp, now);
  }

  function ProbeTrail(window: real, trail: Trail, t1: real, t2: real, t3: real): seq<bool> {
    var b := Follow(window, trail, t1);
    [Succeeds(window, trail, t1), Succeeds(window, b, t2), Succeeds(window, Follow(window, b, t2), t3)]
  }

  lemma ProbeFollows(c: Config, m: Mem, t: Table, fp: string, t1: real, t2: real, t3: real, trail: Trail)
    requires Guarding(c) && 1.0 <= c.window && 1 <= c.memMax && Shows(m, t, fp, trail)
    ensures ProbeAnswers(c, m, t, fp, t1, t2, t3) == ProbeTrail(c.window, trail, t1, t2, t3)
  {
    var v1 := Check(c, m, t, fp, t1);
    var v2 := Check(c, v1.mem, v1.table, fp, t2);
    var b := Follow(c.window, trail, t1);
    CheckFollows(c, m, t, fp, t1, trail);
    CheckFollows(c, v1.mem, v1.table, fp, t2, b);
    CheckFollows(c, v2.mem, v2.table, fp, t3, Follow(c.window, b, t2));
  }

  /** The first check, at the last moment the entry is in force, is refused by memory and
      leaves the row alone, or after the restart by the table, which refreshes it.  Unless the
      row is as fresh already, the second check, a window later, shows it; else the third. */
  lemma TrailShows(window: real, claimed: real, seen: Option<real>, t1: real, t2: real, t3: real)
    requires window > 0.0 && t1 == claimed + window && t2 == t1 + window && t3 == t2 + window
    requires seen.Some? ==> seen.value <= t1
    ensures ProbeTrail(window, Trail(Some(claimed), seen), t1, t2, t3)
         != ProbeTrail(window, Trail(None, seen), t1, t2, t3)
  {
    var a := ProbeTrail(window, Trail(Some(claimed), seen), t1, t2, t3);
    var b := ProbeTrail(window, Trail(None, seen), t1, t2, t3);
    assert a[0] != b[0] || a[1] != b[1] || a[2] != b[2];
  }

  lemma ProbeShows(c: Config, m: Mem, t: Table, fp: string, t1: real, t2: real, t3: real)
    requires Guarding(c) && 1.0 <= c.window && 1 <= c.memMax && MemOk(m)
    requires fp in m.at && t1 == m.at[fp] + c.window && t2 == t1 + c.window && t3 == t2 + c.window
    requires fp in t ==> t[fp].lastSeen <= t1
    ensures ProbeAnswers(c, m, t, fp, t1, t2, t3) != ProbeAnswers(c, NOTHING, t, fp, t1, t2, t3)
  {
    var seen := if fp in t then Some(t[fp].lastSeen) else None;
    ProbeFollows(c, m, t, fp, t1, t2, t3, Trail(Some(m.at[fp]), seen));
    ProbeFollows(c, NOTHING, t, fp, t1, t2, t3, Trail(None, seen));
    TrailShows(c.window, m.at[fp], seen, t1, t2, t3);
  }

  ghost predicate RowsUpTo(t: Table, clock: real) {
    forall fp :: fp in t ==> t[fp].lastSeen <= clock
  }

  lemma InForceShows(c: Config, s: Sys, p: int, clock: real, fp: string) returns (es: seq<Event>)
    requires Guarding(c) && 1.0 <= c.window && 1 <= c.memMax && MemOk(MemOf(s, p)) && RowsUpTo(s.table, clock)
    requires fp in MemOf(s, p).at && clock - MemOf(s, p).at[fp] <= c.window
    ensures StartsAt(es, clock) && !SameAnswers(c, s, Step(c, s, Restart(p)), es)
  {
    var t := Step(c, s, Restart(p));
    RestartForgets(c, s, p);
    var t1 := MemOf(s, p).at[fp] + c.window;
    var t2 := t1 + c.window;
    var t3 := t2 + c.window;
    es := Probe(p, fp, t1, t2, t3);
    ProbeStarts(p, fp, t1, t2, t3, clock);
    var tr := ProbeRun(c, s, p, fp, t1, t2, t3);
    var ur := ProbeRun(c, t, p, fp, t1, t2, t3);
    ProbeShows(c, MemOf(s, p), s.table, fp, t1, t2, t3);
    var k := FirstDifference(ProbeAnswers(c, MemOf(s, p), s.table, fp, t1, t2, t3),
                             ProbeAnswers(c, NOTHING, s.table, fp, t1, t2, t3));
    Differ(c, s, t, es, tr, ur, k);
  }

  lemma RestartForgets(c: Config, s: Sys, p: int)
    ensures var t := Step(c, s, Restart(p)); t.table == s.table && MemOf(t, p) == NOTHING
  {
  }

  lemma ProbeStarts(p: int, fp: string, t1: real, t2: real, t3: real, clock: real)
    requires clock <= t1 <= t2 <= t3
    ensures StartsAt(Probe(p, fp, t1, t2, t3), clock)
  {
  }

  lemma FirstDifference(x: seq<bool>, y: seq<bool>) returns (k: nat)
    requires |x| == |y| && x != y
    ensures k < |x| && x[k] != y[k]
  {
    k :| k < |x| && x[k] != y[k];
  }

  lemma Differ(c: Config, s: Sys, t: Sys, es: seq<Event>, tr: seq<Sys>, ur: seq<Sys>, k: nat)
    requires IsRun(c, tr, es) && IsRun(c, ur, es) && tr[0] == s && ur[0] == t && k < |es|
    requires Answer(c, tr[k], es[k]) != Answer(c, ur[k], es[k])
    ensures !SameAnswers(c, s, t, es)
  {
  }

  /** A restart is invisible, whatever is called afterwards, exactly when the memory it loses
      holds no entry in force. */
  lemma RestartInvisibleIff(c: Config, s: Sys, p: int, clock: real)
    requires Guarding(c) && 1.0 <= c.window && 1 <= c.memMax && MemOk(MemOf(s, p)) && RowsUpTo(s.table, clock)
    ensures (forall es :: StartsAt(es, clock) ==> SameAnswers(c, s, Step(c, s, Restart(p)), es))
       <==> Idle(c, MemOf(s, p), clock)
  {
    if Idle(c, MemOf(s, p), clock) {
      forall es | StartsAt(es, clock) ensures SameAnswers(c, s, Step(c, s, Restart(p)), es) {
        IdleIsInvisible(c, s, p, clock, es);
      }
    } else {
      var fp :| fp in MemOf(s, p).at && clock - MemOf(s, p).at[fp] <= c.window;
      var es := InForceShows(c, s, p, clock, fp);
    }
  }

  ghost predicate Sane(s: Sys, clock: real) {
    RowsUpTo(s.table, clock) && forall p :: MemOk(MemOf(s, p))
  }

  lemma MemAfterIsOk(c: Config, m: Mem, t: Table, p: int, e: Event)
    requires MemOk(m)
    ensures MemOk(MemAfter(c, m, t, p, e))
  {
    match e
    case CheckBy(_, fp, now) =>
      ForgetKeepsMem(m, fp);
      RememberKeepsMem(Forget(m, fp), fp, now);
      ShrinkKeepsNewest(Remember(Forget(m, fp), fp, now), c.memMax);
    case ReleaseBy(_, fp) => ForgetKeepsMem(m, fp);
    case StealBy(_, fp, _, _) => ForgetKeepsMem(m, fp);
    case CleanupAt(_) =>
    case Restart(_) =>
  }

  lemma RowsStep(c: Config, s: Sys, e: Event, clock: real)
    requires RowsUpTo(s.table, clock) && clock <= ClockAfter(e, clock)
    ensures RowsUpTo(Step(c, s, e).table, ClockAfter(e, clock))
  {
  }

  lemma SaneStep(c: Config, s: Sys, e: Event, clock: real)
    requires Sane(s, clock) && clock <= ClockAfter(e, clock)
    ensures Sane(Step(c, s, e), ClockAfter(e, clock))
  {
    RowsStep(c, s, e, clock);
    forall p ensures MemOk(MemOf(Step(c, s, e), p)) {
      MemOfStep(c, s, p, e);
      MemAfterIsOk(c, MemOf(s, p), s.table, p, e);
    }
  }

  /** What `RestartInvisibleIff` asks of a state holds at every point of every run. */
  lemma {:induction false} RunIsSane(c: Config, tr: seq<Sys>, es: seq<Event>, clock: real, n: nat) returns (now: real)
    requires IsRun(c, tr, es) && n <= |es| && StartsAt(es, clock) && Sane(tr[0], clock)
    ensures Sane(tr[n], now)
    ensures forall j :: n <= j < |es| && Timed(es[j]) ==> now <= es[j].now
  {
    if n == 0 {
      return clock;
    }
    var before := RunIsSane(c, tr, es, clock, n - 1);
    assert Link(c, tr, es, n - 1);
    SaneStep(c, tr[n - 1], es[n - 1], before);
    now := ClockAfter(es[n - 1], before);
  }

  /** The cache is invisible call by call but not over a run: a refusal by the table
      refreshes `last_seen`, a refusal by memory does not.  The same three calls, 6 seconds
      apart under a 10 second window, let the third one through when one process makes them
      and refuse it when the process restarts in between. */
  lemma RestartsChangeTheOutcome()
    ensures var c := Config(true, 10.0, 256);
      var s0 := Sys(map[], map[]);
      var c0, c6, c12 := CheckBy(1, "x", 0.0), CheckBy(1, "x", 6.0), CheckBy(1, "x", 12.0);
      var kept := Step(c, Step(c, s0, c0), c6);
      var restarted := Step(c, Step(c, Step(c, Step(c, s0, c0), Restart(1)), c6), Restart(1));
      Wins(c, kept, c12) && !Wins(c, restarted, c12)
  {
    var c := Config(true, 10.0, 256);
    var s1 := Step(c, Sys(map[], map[]), CheckBy(1, "x", 0.0));
    assert s1.table == map["x" := Row(0.0, 0.0, 1)];
    var m := Remember(Forget(NOTHING, "x"), "x", 0.0);
    assert m == Mem(["x"], map["x" := 0.0]) && Shrink(m, 256) == m;
    assert MemOf(s1, 1) == m;
    var s2 := Step(c, s1, CheckBy(1, "x", 6.0));
    assert s2.table == s1.table && MemOf(s2, 1) == m;
    var r1 := Step(c, s1, Restart(1));
    assert MemOf(r1, 1) == NOTHING;
    var r2 := Step(c, r1, CheckBy(1, "x", 6.0));
    assert r2.table == map["x" := Row(0.0, 6.0, 2)];
  }
}
