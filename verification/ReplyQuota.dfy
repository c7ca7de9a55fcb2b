/** The reply limits of reply_fix.py. */
module ReplyQuota {
  import opened Sets
  import opened Windows

  // How many replies one user and one day may cost, with bounded deques, bounded users and a
  // snapshot carried over a restart.

  const HOUR: real := 3600.0

  /** `yday` gives the key of a day, which may repeat from year to year. */
  datatype Config = Config(enabled: bool, hourly: nat, cap: nat, maxUsers: nat, yday: int -> int) {
    predicate Valid() {
      hourly >= 1 && maxUsers >= 16
    }

    function MaxLen(): nat {
      if hourly * 4 < 8 then 8 else hourly * 4
    }
  }

  /** Every attempt so far: who, when and on which day. */
  datatype Log = Log(users: seq<int>, times: seq<real>, days: seq<int>)

  const NO_ATTEMPTS := Log([], [], [])

  ghost predicate WellFormed(log: Log) {
    |log.users| == |log.times| == |log.days|
  }

  function Append(log: Log, u: int, at: real, day: int): Log {
    Log(log.users + [u], log.times + [at], log.days + [day])
  }

  /** When one user's attempts were. */
  function TimesOf(users: seq<int>, times: seq<real>, u: int): seq<real>
    requires |users| == |times|
  {
    if users == [] then []
    else
      var n := |users| - 1;
      TimesOf(users[..n], times[..n], u) + if users[n] == u then [times[n]] else []
  }

  function Of(log: Log, u: int): seq<real>
    requires WellFormed(log)
  {
    TimesOf(log.users, log.times, u)
  }

  lemma OfAppend(log: Log, v: int, at: real, day: int, u: int)
    requires WellFormed(log)
    ensures Of(Append(log, v, at, day), u) == if v == u then Of(log, u) + [at] else Of(log, u)
  {
    TimesOfAppend(log.users, log.times, v, at, u);
  }

  function CountDay(days: seq<int>, d: int): nat {
    if days == [] then 0 else CountDay(days[..|days| - 1], d) + if days[|days| - 1] == d then 1 else 0
  }

  lemma {:induction false} NoneLater(days: seq<int>, d: int)
    requires forall k :: 0 <= k < |days| ==> days[k] < d
    ensures CountDay(days, d) == 0
  {
    if days != [] {
      NoneLater(days[..|days| - 1], d);
    }
  }

  /** How many of the times lie after `a`. */
  function CountAfter(ts: seq<real>, a: real): nat {
    if ts == [] then 0 else CountAfter(ts[..|ts| - 1], a) + if ts[|ts| - 1] > a then 1 else 0
  }

  lemma {:induction false} AfterIsSuffix(ts: seq<real>, a: real)
    requires Sorted(ts)
    ensures CountAfter(ts, a) <= |ts|
    ensures forall i :: 0 <= i < |ts| ==> (ts[i] > a <==> |ts| - CountAfter(ts, a) <= i)
  {
    if ts != [] {
      var n := |ts| - 1;
      var front := ts[..n];
      AfterIsSuffix(front, a);
      assert forall i :: 0 <= i < n ==> ts[i] == front[i];
      if n > 0 {
        assert ts[n - 1] <= ts[n];
      }
    }
  }

  /** Any two of the times `k` or more places apart are at least `w` apart. */
  ghost predicate Apart(ts: seq<real>, k: int, w: real) {
    forall i, j :: 0 <= i <= j < |ts| && j - i >= k ==> ts[j] - ts[i] >= w
  }

  /** Then no half-open interval of length `w` holds more than `k` of them. */
  lemma ApartBoundsCount(ts: seq<real>, k: nat, w: real, a: real, b: real)
    requires Sorted(ts) && Apart(ts, k, w) && a <= b <= a + w
    ensures CountAfter(ts, a) - CountAfter(ts, b) <= k
  {
    AfterIsSuffix(ts, a);
    AfterIsSuffix(ts, b);
    var lo, hi := |ts| - CountAfter(ts, a), |ts| - CountAfter(ts, b);
    if 0 <= lo < hi {
      assert ts[lo] > a && !(ts[hi - 1] > b);
    }
  }

  // ------------------------------------------------------------------ state

  datatype State = State(order: seq<int>, hist: map<int, seq<real>>, dayKey: int, dayCount: int, muted: bool)

  datatype Verdict = Allowed | Disabled | BroadcastTarget | DailyCap | HourlyCap

  function Rolled(c: Config, s: State, today: int): State {
    if c.yday(today) != s.dayKey then s.(dayKey := c.yday(today), dayCount := 0) else s
  }

  function Deque(s: State, u: int): seq<real> {
    if u in s.hist then s.hist[u] else []
  }

  function AnHourBefore(now: real): real {
    now - HOUR
  }

  /** `allowed`, on a state whose day is up to date. */
  function Verdict0(c: Config, s: State, u: int, now: real): Verdict {
    if s.dayCount >= c.cap then DailyCap
    else if u in s.hist && CountAfter(s.hist[u], AnHourBefore(now)) >= c.hourly then HourlyCap
    else Allowed
  }

  function Judge(c: Config, s: State, u: int, now: real, today: int): Verdict {
    if !c.enabled then Disabled
    else if s.muted then BroadcastTarget
    else Verdict0(c, Rolled(c, s, today), u, now)
  }

  /** What a call of `allowed` leaves behind. */
  function Asked(c: Config, s: State, today: int): State {
    if !c.enabled || s.muted then s else Rolled(c, s, today)
  }

  /** Appending to a deque with a maximal length. */
  function Push(ts: seq<real>, at: real, maxLen: nat): (r: seq<real>) {
    if |ts| < maxLen || ts == [] then ts + [at] else ts[1..] + [at]
  }

  /** Room for a new user, made by forgetting the one tracked longest. */
  function MakeRoom(c: Config, s: State): State {
    if |s.order| >= c.maxUsers && s.order != [] then s.(order := s.order[1..], hist := s.hist - {s.order[0]}) else s
  }

  function Tracked(c: Config, s: State, u: int): State {
    if u in s.hist then s
    else
      var r := MakeRoom(c, s);
      r.(order := r.order + [u], hist := r.hist[u := []])
  }

  function Recorded(c: Config, s: State, u: int, now: real, today: int): State {
    var t := Tracked(c, s, u);
    var r := Rolled(c, t.(hist := t.hist[u := Push(Deque(t, u), now, c.MaxLen())]), today);
    r.(dayCount := r.dayCount + 1)
  }

  // -------------------------------------------------------------- snapshots

  datatype Entry = Entry(uid: int, stamps: seq<real>)

  datatype Snapshot = Snapshot(users: seq<Entry>, dayKey: int, dayCount: int)

  ghost predicate Moved(ts: seq<real>, us: seq<real>, shift: real) {
    |us| == |ts| && forall k {:trigger us[k]} :: 0 <= k < |ts| ==> us[k] == ts[k] + shift
  }

  function Shifted(ts: seq<real>, shift: real): (r: seq<real>)
    ensures Moved(ts, r, shift)
  {
    if ts == [] then [] else [ts[0] + shift] + Shifted(ts[1..], shift)
  }

  predicate Fresh(at: real, now: real) {
    now - at <= HOUR
  }

  /** The times not more than an hour old. */
  function Kept(ts: seq<real>, now: real): seq<real> {
    if ts == [] then [] else (if Fresh(ts[0], now) then [ts[0]] else []) + Kept(ts[1..], now)
  }

  /** A user's fresh times by the wall clock, if there are any. */
  function Stamped(u: int, deque: seq<real>, nowM: real, nowE: real): seq<Entry> {
    var kept := Kept(deque, nowM);
    if kept == [] then [] else [Entry(u, Shifted(kept, nowE - nowM))]
  }

  /** The entries of the first `n` users; users without a fresh time are left out. */
  function Entries(s: State, n: nat, nowM: real, nowE: real): (es: seq<Entry>)
    requires n <= |s.order|
  {
    if n == 0 then []
    else
      Entries(s, n - 1, nowM, nowE) + Stamped(s.order[n - 1], Deque(s, s.order[n - 1]), nowM, nowE)
  }

  function SnapshotOf(c: Config, s: State, nowM: real, nowE: real, today: int): Snapshot {
    Snapshot(Entries(s, |s.order|, nowM, nowE), c.yday(today), if s.dayKey == c.yday(today) then s.dayCount else 0)
  }

  /** Adds the stamps that are still fresh. */
  function Readded(ts: seq<real>, stamps: seq<real>, nowM: real, nowE: real, maxLen: nat): seq<real>
    decreases |stamps|
  {
    if stamps == [] then ts
    else
      var at := nowM - (nowE - stamps[0]);
      Readded(if Fresh(at, nowM) then Push(ts, at, maxLen) else ts, stamps[1..], nowM, nowE, maxLen)
  }

  function MergedOne(c: Config, s: State, e: Entry, nowM: real, nowE: real): State {
    var deque := Readded(Deque(s, e.uid), e.stamps, nowM, nowE, c.MaxLen());
    s.(order := if e.uid in s.hist then s.order else s.order + [e.uid], hist := s.hist[e.uid := deque])
  }

  /** Adds the entries in order, until a new user finds no room. */
  function Merged(c: Config, s: State, es: seq<Entry>, nowM: real, nowE: real): State
    decreases |es|
  {
    if es == [] || (es[0].uid !in s.hist && |s.order| >= c.maxUsers) then s
    else Merged(c, MergedOne(c, s, es[0], nowM, nowE), es[1..], nowM, nowE)
  }

  function WithDay(c: Config, s: State, snap: Snapshot, today: int): State {
    if snap.dayKey == c.yday(today) && snap.dayCount > s.dayCount
    then s.(dayKey := snap.dayKey, dayCount := snap.dayCount)
    else s
  }

  function RestoredState(c: Config, s: State, snap: Snapshot, nowM: real, nowE: real, today: int): State {
    var n := if |snap.users| <= c.maxUsers then |snap.users| else c.maxUsers;
    WithDay(c, Merged(c, s, snap.users[..n], nowM, nowE), snap, today)
  }

  // --------------------------------------------------------------- the runs

  /** The state, the attempts behind it in the present clock, the latest time and day read,
      and the users ever forgotten for lack of room. */
  datatype Sys = Sys(s: State, log: Log, clock: real, day: int, evicted: set<int>)

  function Fresh0(c: Config, today: int): State {
    State([], map[], c.yday(today), 0, false)
  }

  function Started(c: Config, now: real, today: int): Sys {
    Sys(Fresh0(c, today), NO_ATTEMPTS, now, today, {})
  }

  function Forgotten(c: Config, s: State, u: int): set<int> {
    s.hist.Keys - Tracked(c, s, u).hist.Keys
  }

  /** After a call of `allowed`. */
  function AskedSys(c: Config, y: Sys, now: real, day: int): Sys {
    Sys(Asked(c, y.s, day), y.log, now, day, y.evicted)
  }

  /** After a reservation. */
  function Next(c: Config, y: Sys, v: int, at: real, day: int): Sys {
    Sys(Recorded(c, y.s, v, at, day), Append(y.log, v, at, day), at, day, y.evicted + Forgotten(c, y.s, v))
  }

  /** One reply: `allowed` at `t0` on `d0` and, if it says so, the reservation at `t1` on
      `d1`. */
  function Attempt(c: Config, y: Sys, u: int, t0: real, d0: int, t1: real, d1: int): Sys {
    if Judge(c, y.s, u, t0, d0) == Allowed then Next(c, AskedSys(c, y, t0, d0), u, t1, d1) else AskedSys(c, y, t0, d0)
  }

  function Muted(y: Sys): Sys {
    y.(s := y.s.(muted := true))
  }

  /** When a snapshot was taken and when it was read back, by the clock of its process, by
      the wall and by day. */
  datatype Moment = Moment(mono: real, wall: real, day: int)

  function Drift(a: Moment, b: Moment): real {
    (b.mono - b.wall) - (a.mono - a.wall)
  }

  function LogIn(log: Log, shift: real): Log {
    log.(times := Shifted(log.times, shift))
  }

  /** A new process, born on `born`, that reads the old one's snapshot. */
  function Restarted(c: Config, y: Sys, taken: Moment, born: int, read: Moment): Sys {
    var snap := SnapshotOf(c, y.s, taken.mono, taken.wall, taken.day);
    Sys(RestoredState(c, Fresh0(c, born), snap, read.mono, read.wall, read.day),
        LogIn(y.log, Drift(taken, read)), read.mono, read.day, y.evicted)
  }

  predicate InOrder(y: Sys, taken: Moment, born: int, read: Moment) {
    y.clock <= taken.mono && y.day <= taken.day <= born <= read.day && taken.wall <= read.wall
  }

  // ---------------------------------------------------------- the invariant

  /** The deque is the end of the user's history, and what it lacks is an hour old or does
      not matter because the deque alone reaches the limit. */
  ghost predicate Stands(c: Config, deque: seq<real>, full: seq<real>, clock: real) {
    && |deque| <= |full| && |deque| <= c.MaxLen()
    && deque == full[|full| - |deque|..]
    && (|deque| >= c.hourly || forall i :: 0 <= i < |full| - |deque| ==> full[i] <= clock - HOUR)
  }

  ghost predicate UserOk(c: Config, deque: seq<real>, full: seq<real>, clock: real) {
    && Sorted(full) && (full != [] ==> full[|full| - 1] <= clock)
    && Apart(full, c.hourly, HOUR) && Stands(c, deque, full, clock)
  }

  /** True even of users that were forgotten and came back. */
  ghost predicate Sane(c: Config, deque: seq<real>, clock: real) {
    Sorted(deque) && |deque| <= c.MaxLen() && (deque != [] ==> deque[|deque| - 1] <= clock)
  }

  ghost predicate DequesOk(c: Config, s: State, clock: real) {
    forall u :: Sane(c, Deque(s, u), clock)
  }

  ghost predicate UsersOk(c: Config, y: Sys)
    requires WellFormed(y.log)
  {
    forall u :: u !in y.evicted ==> UserOk(c, Deque(y.s, u), Of(y.log, u), y.clock)
  }

  function Users(log: Log): set<int> {
    set u | u in log.users
  }

  ghost predicate OrderOk(c: Config, s: State) {
    && |s.order| <= c.maxUsers
    && (forall u :: u in s.order <==> u in s.hist)
    && forall i, j :: 0 <= i < j < |s.order| ==> s.order[i] != s.order[j]
  }

  ghost predicate EvictionsOk(c: Config, y: Sys) {
    && y.s.hist.Keys <= Users(y.log)
    && (y.evicted != {} ==> |Users(y.log)| > c.maxUsers)
  }

  ghost predicate DayOk(c: Config, s: State, days: seq<int>, day: int) {
    && 0 <= s.dayCount <= c.cap
    && (forall k :: 0 <= k < |days| ==> days[k] <= day)
    && (forall d :: CountDay(days, d) <= c.cap)
    && (CountDay(days, day) > 0 ==> s.dayKey == c.yday(day) && CountDay(days, day) <= s.dayCount)
  }

  ghost predicate Inv(c: Config, y: Sys) {
    && WellFormed(y.log) && UsersOk(c, y) && DequesOk(c, y.s, y.clock) && OrderOk(c, y.s) && EvictionsOk(c, y)
    && DayOk(c, y.s, y.log.days, y.day)
  }

  // --------------------------------------------------------------- day by day

  lemma RolledKeepsDay(c: Config, s: State, days: seq<int>, day: int, today: int)
    requires DayOk(c, s, days, day) && day <= today
    ensures DayOk(c, Rolled(c, s, today), days, today) && Rolled(c, s, today).dayKey == c.yday(today)
  {
    if day < today {
      NoneLater(days, today);
    }
  }

  lemma SameDayKept(c: Config, s: State, days: seq<int>, day: int, today: int)
    requires DayOk(c, s, days, day) && day <= today
    ensures DayOk(c, s, days, today)
  {
    if day < today {
      NoneLater(days, today);
    }
  }

  lemma RecordKeepsDay(c: Config, s: State, days: seq<int>, day: int, today: int)
    requires DayOk(c, s, days, day) && day <= today && s.dayCount < c.cap
    ensures var r := Rolled(c, s, today); DayOk(c, r.(dayCount := r.dayCount + 1), days + [today], today)
  {
    RolledKeepsDay(c, s, days, day, today);
    forall d ensures CountDay(days + [today], d) <= c.cap {
    }
  }

  // -------------------------------------------------------------- user by user

  /** A deque below the limit shows that the whole history is. */
  lemma BelowLimit(c: Config, deque: seq<real>, full: seq<real>, now: real, i: nat)
    requires UserOk(c, deque, full, now) && c.hourly >= 1
    requires CountAfter(deque, AnHourBefore(now)) < c.hourly && i + c.hourly <= |full|
    ensures full[i] <= now - HOUR
  {
    var cut := |full| - |deque|;
    assert Sorted(deque);
    AfterIsSuffix(deque, AnHourBefore(now));
    if |deque| >= c.hourly {
      assert deque[|deque| - c.hourly] == full[|full| - c.hourly];
      assert full[i] <= full[|full| - c.hourly];
    }
  }

  lemma AttemptApart(c: Config, deque: seq<real>, full: seq<real>, now: real, at: real)
    requires c.Valid() && UserOk(c, deque, full, now) && now <= at
    requires CountAfter(deque, AnHourBefore(now)) < c.hourly
    ensures Apart(full + [at], c.hourly, HOUR)
  {
    var more := full + [at];
    forall i, j | 0 <= i <= j < |more| && j - i >= c.hourly ensures more[j] - more[i] >= HOUR {
      if j == |full| {
        BelowLimit(c, deque, full, now, i);
      }
    }
  }

  lemma UserAttempts(c: Config, deque: seq<real>, full: seq<real>, now: real, at: real)
    requires c.Valid() && UserOk(c, deque, full, now) && now <= at
    requires CountAfter(deque, AnHourBefore(now)) < c.hourly
    ensures UserOk(c, Push(deque, at, c.MaxLen()), full + [at], at)
  {
    AttemptApart(c, deque, full, now, at);
    PushStands(c, deque, full, now, at);
    AppendSorted(full, at);
  }

  lemma PushStands(c: Config, deque: seq<real>, full: seq<real>, now: real, at: real)
    requires c.Valid() && Stands(c, deque, full, now) && now <= at
    ensures Stands(c, Push(deque, at, c.MaxLen()), full + [at], at)
  {
  }

  // ----------------------------------------------------------- tracked users

  lemma MakeRoomKeeps(c: Config, s: State)
    requires c.Valid() && OrderOk(c, s)
    ensures var r := MakeRoom(c, s);
      && OrderOk(c, r) && |r.order| < c.maxUsers && r.hist.Keys <= s.hist.Keys
      && (r.hist.Keys < s.hist.Keys ==> |s.order| == c.maxUsers)
      && forall u :: u in r.hist ==> r.hist[u] == s.hist[u]
  {
    if |s.order| >= c.maxUsers {
      var rest := s.order[1..];
      assert s.order == [s.order[0]] + rest;
      assert forall u :: u in s.order <==> u in rest || u == s.order[0];
      assert forall i :: 0 <= i < |rest| ==> rest[i] == s.order[i + 1];
    }
  }

  lemma TrackedKeeps(c: Config, s: State, v: int)
    requires c.Valid() && OrderOk(c, s)
    ensures var t := Tracked(c, s, v);
      && OrderOk(c, t) && v in t.hist && t.hist.Keys <= s.hist.Keys + {v}
      && (Forgotten(c, s, v) != {} ==> |s.order| == c.maxUsers && v !in s.hist)
      && forall u :: u !in Forgotten(c, s, v) ==> Deque(t, u) == Deque(s, u)
  {
    if v !in s.hist {
      MakeRoomKeeps(c, s);
      OrderGrows(c, MakeRoom(c, s), Tracked(c, s, v), v);
    }
  }

  lemma EvictionCounts(c: Config, y: Sys, v: int, at: real, day: int)
    requires c.Valid() && OrderOk(c, y.s) && EvictionsOk(c, y) && Forgotten(c, y.s, v) != {}
    ensures |Users(Append(y.log, v, at, day))| > c.maxUsers
  {
    TrackedKeeps(c, y.s, v);
    assert forall u :: u in y.s.hist.Keys ==> u in y.s.order;
    DistinctCount(y.s.order, y.s.hist.Keys);
    var more := Users(Append(y.log, v, at, day));
    assert |y.s.hist.Keys + {v}| == |y.s.order| + 1;
    assert y.s.hist.Keys + {v} <= more;
    SubsetCount(y.s.hist.Keys + {v}, more);
  }

  // --------------------------------------------------------- one reply at a time

  lemma UsersAge(c: Config, y: Sys, z: Sys)
    requires WellFormed(y.log) && UsersOk(c, y)
    requires z.s.hist == y.s.hist && z.log == y.log && z.evicted == y.evicted && y.clock <= z.clock
    ensures UsersOk(c, z)
  {
    forall u | u !in z.evicted ensures UserOk(c, Deque(z.s, u), Of(z.log, u), z.clock) {
    }
  }

  lemma DequesAge(c: Config, s: State, r: State, clock: real, now: real)
    requires DequesOk(c, s, clock) && r.hist == s.hist && clock <= now
    ensures DequesOk(c, r, now)
  {
    forall u ensures Sane(c, Deque(r, u), now) {
      assert Sane(c, Deque(s, u), clock);
    }
  }

  lemma AskedKeeps(c: Config, y: Sys, t0: real, d0: int) returns (z: Sys)
    requires Inv(c, y) && y.clock <= t0 && y.day <= d0
    ensures Inv(c, z) && z == AskedSys(c, y, t0, d0)
  {
    z := AskedSys(c, y, t0, d0);
    RolledKeepsDay(c, y.s, y.log.days, y.day, d0);
    SameDayKept(c, y.s, y.log.days, y.day, d0);
    UsersAge(c, y, z);
    DequesAge(c, y.s, z.s, y.clock, t0);
    assert EvictionsOk(c, z);
  }

  lemma RecordedDeque(c: Config, s: State, v: int, at: real, day: int)
    requires c.Valid() && OrderOk(c, s)
    ensures var r, t := Recorded(c, s, v, at, day), Tracked(c, s, v);
      && r.order == t.order && r.hist.Keys == t.hist.Keys
      && forall u :: u !in Forgotten(c, s, v) ==>
        Deque(r, u) == if u == v then Push(Deque(s, v), at, c.MaxLen()) else Deque(s, u)
  {
    TrackedKeeps(c, s, v);
    var t := Tracked(c, s, v);
    assert Recorded(c, s, v, at, day).hist == t.hist[v := Push(Deque(t, v), at, c.MaxLen())];
  }

  lemma UserStep(c: Config, mine: bool, deque: seq<real>, full: seq<real>, clock: real, at: real)
    requires c.Valid() && UserOk(c, deque, full, clock) && clock <= at
    requires mine ==> CountAfter(deque, AnHourBefore(clock)) < c.hourly
    ensures UserOk(c, if mine then Push(deque, at, c.MaxLen()) else deque, if mine then full + [at] else full, at)
  {
    if mine {
      UserAttempts(c, deque, full, clock, at);
    }
  }

  lemma RecordKeepsUser(c: Config, y: Sys, v: int, at: real, day: int, u: int)
    requires c.Valid() && WellFormed(y.log) && OrderOk(c, y.s) && y.clock <= at && u !in Forgotten(c, y.s, v)
    requires UserOk(c, Deque(y.s, u), Of(y.log, u), y.clock)
    requires CountAfter(Deque(y.s, v), AnHourBefore(y.clock)) < c.hourly
    ensures var z := Next(c, y, v, at, day); UserOk(c, Deque(z.s, u), Of(z.log, u), at)
  {
    RecordedDeque(c, y.s, v, at, day);
    OfAppend(y.log, v, at, day, u);
    UserStep(c, u == v, Deque(y.s, u), Of(y.log, u), y.clock, at);
  }

  lemma RecordKeepsUsers(c: Config, y: Sys, v: int, at: real, day: int)
    requires c.Valid() && WellFormed(y.log) && UsersOk(c, y) && OrderOk(c, y.s) && y.clock <= at
    requires CountAfter(Deque(y.s, v), AnHourBefore(y.clock)) < c.hourly
    ensures UsersOk(c, Next(c, y, v, at, day))
  {
    var z := Next(c, y, v, at, day);
    forall u | u !in z.evicted ensures UserOk(c, Deque(z.s, u), Of(z.log, u), at) {
      RecordKeepsUser(c, y, v, at, day, u);
    }
  }

  lemma SanePush(c: Config, deque: seq<real>, clock: real, at: real)
    requires c.Valid() && Sane(c, deque, clock) && clock <= at
    ensures Sane(c, Push(deque, at, c.MaxLen()), at)
  {
    if deque != [] {
      var rest := deque[1..];
      assert Sorted(rest);
      AppendSorted(rest, at);
    }
    AppendSorted(deque, at);
  }

  lemma SaneStep(c: Config, mine: bool, deque: seq<real>, clock: real, at: real)
    requires c.Valid() && Sane(c, deque, clock) && clock <= at
    ensures Sane(c, if mine then Push(deque, at, c.MaxLen()) else deque, at)
  {
    if mine {
      SanePush(c, deque, clock, at);
    }
  }

  lemma RecordKeepsDeques(c: Config, s: State, clock: real, v: int, at: real, day: int)
    requires c.Valid() && OrderOk(c, s) && DequesOk(c, s, clock) && clock <= at
    ensures DequesOk(c, Recorded(c, s, v, at, day), at)
  {
    var r := Recorded(c, s, v, at, day);
    RecordedDeque(c, s, v, at, day);
    forall u ensures Sane(c, Deque(r, u), at) {
      if u in Forgotten(c, s, v) {
        assert Deque(r, u) == [];
      } else {
        assert Sane(c, Deque(s, u), clock);
        SaneStep(c, u == v, Deque(s, u), clock, at);
      }
    }
  }

  lemma RecordKeepsOrder(c: Config, y: Sys, v: int, at: real, day: int)
    requires c.Valid() && OrderOk(c, y.s) && EvictionsOk(c, y)
    ensures OrderOk(c, Recorded(c, y.s, v, at, day)) && EvictionsOk(c, Next(c, y, v, at, day))
  {
    TrackedKeeps(c, y.s, v);
    RecordedDeque(c, y.s, v, at, day);
    if Forgotten(c, y.s, v) != {} {
      EvictionCounts(c, y, v, at, day);
    } else {
      SubsetCount(Users(y.log), Users(Append(y.log, v, at, day)));
    }
  }

  lemma RecordKeeps(c: Config, y: Sys, v: int, at: real, day: int)
    requires c.Valid() && Inv(c, y) && y.clock <= at && y.day <= day && y.s.dayCount < c.cap
    requires CountAfter(Deque(y.s, v), AnHourBefore(y.clock)) < c.hourly
    ensures Inv(c, Next(c, y, v, at, day))
  {
    RecordKeepsUsers(c, y, v, at, day);
    RecordKeepsDeques(c, y.s, y.clock, v, at, day);
    RecordKeepsOrder(c, y, v, at, day);
    RecordKeepsDays(c, y, v, at, day);
  }

  lemma RecordKeepsDays(c: Config, y: Sys, v: int, at: real, day: int)
    requires DayOk(c, y.s, y.log.days, y.day) && y.day <= day && y.s.dayCount < c.cap
    ensures var z := Next(c, y, v, at, day); DayOk(c, z.s, z.log.days, z.day)
  {
    var r, z := Rolled(c, y.s, day), Next(c, y, v, at, day);
    RecordDay(c, y.s, v, at, day);
    RecordKeepsDay(c, y.s, y.log.days, y.day, day);
    SameDayOk(c, r.(dayCount := r.dayCount + 1), z.s, z.log.days, day);
  }

  lemma SameDayOk(c: Config, s: State, r: State, days: seq<int>, day: int)
    requires DayOk(c, s, days, day) && r.dayKey == s.dayKey && r.dayCount == s.dayCount
    ensures DayOk(c, r, days, day)
  {
  }

  lemma RecordDay(c: Config, s: State, v: int, at: real, day: int)
    ensures var r := Rolled(c, s, day);
      Recorded(c, s, v, at, day).dayKey == r.dayKey && Recorded(c, s, v, at, day).dayCount == r.dayCount + 1
  {
  }

  lemma AttemptKeeps(c: Config, y: Sys, u: int, t0: real, d0: int, t1: real, d1: int)
    requires c.Valid() && Inv(c, y) && y.clock <= t0 <= t1 && y.day <= d0 <= d1
    ensures Inv(c, Attempt(c, y, u, t0, d0, t1, d1))
  {
    var z := AskedKeeps(c, y, t0, d0);
    if Judge(c, y.s, u, t0, d0) == Allowed {
      RecordKeeps(c, z, u, t1, d1);
    }
  }

  // -------------------------------------------------------- over a restart

  lemma KeptCons(x: real, rest: seq<real>, now: real)
    ensures Kept([x] + rest, now) == (if Fresh(x, now) then [x] else []) + Kept(rest, now)
  {
    assert ([x] + rest)[1..] == rest;
  }

  lemma SuffixStep(x: real, rest: seq<real>, now: real, q: nat) returns (p: nat)
    requires (rest != [] ==> x <= rest[0]) && q <= |rest| && Kept(rest, now) == rest[q..]
    requires forall i :: 0 <= i < q ==> rest[i] < now - HOUR
    ensures p <= |rest| + 1 && Kept([x] + rest, now) == ([x] + rest)[p..]
    ensures forall i :: 0 <= i < p ==> ([x] + rest)[i] < now - HOUR
  {
    KeptCons(x, rest, now);
    if Fresh(x, now) {
      assert q == 0;
      p := 0;
    } else {
      p := q + 1;
    }
  }

  lemma {:induction false} KeptIsSuffix(ts: seq<real>, now: real) returns (p: nat)
    requires Sorted(ts)
    ensures p <= |ts| && Kept(ts, now) == ts[p..]
    ensures forall i :: 0 <= i < p ==> ts[i] < now - HOUR
  {
    p := 0;
    if ts != [] {
      var q := KeptIsSuffix(ts[1..], now);
      p := SuffixStep(ts[0], ts[1..], now, q);
      assert [ts[0]] + ts[1..] == ts;
    }
  }

  lemma KeptStands(c: Config, deque: seq<real>, full: seq<real>, now: real)
    requires UserOk(c, deque, full, now)
    ensures UserOk(c, Kept(deque, now), full, now)
  {
    assert Sorted(deque);
    var p := KeptIsSuffix(deque, now);
  }

  lemma MovedStands(c: Config, deque: seq<real>, full: seq<real>, a: seq<real>, b: seq<real>, now: real, d: real)
    requires UserOk(c, deque, full, now) && Moved(deque, a, d) && Moved(full, b, d)
    ensures UserOk(c, a, b, now + d)
  {
    assert a == b[|b| - |a|..];
    assert Sorted(b);
    assert Apart(b, c.hourly, HOUR);
  }

  lemma ShiftStands(c: Config, deque: seq<real>, full: seq<real>, now: real, d: real)
    requires UserOk(c, deque, full, now)
    ensures UserOk(c, Shifted(deque, d), Shifted(full, d), now + d)
  {
    MovedStands(c, deque, full, Shifted(deque, d), Shifted(full, d), now, d);
  }

  /** A user's deque after a snapshot and a restart. */
  function Carried(deque: seq<real>, taken: Moment, read: Moment): seq<real> {
    Kept(Shifted(Kept(deque, taken.mono), Drift(taken, read)), read.mono)
  }

  lemma CarriedOk(c: Config, deque: seq<real>, full: seq<real>, clock: real, taken: Moment, read: Moment)
    requires UserOk(c, deque, full, clock) && clock <= taken.mono && taken.wall <= read.wall
    ensures UserOk(c, Carried(deque, taken, read), Shifted(full, Drift(taken, read)), read.mono)
  {
    var d := Drift(taken, read);
    var kept := Kept(deque, taken.mono);
    KeptStands(c, deque, full, taken.mono);
    ShiftStands(c, kept, full, taken.mono, d);
    KeptStands(c, Shifted(kept, d), Shifted(full, d), read.mono);
  }

  lemma {:induction false} ReaddedIsKept(acc: seq<real>, ts: seq<real>, taken: Moment, read: Moment, maxLen: nat)
    requires |acc| + |ts| <= maxLen
    ensures Readded(acc, Shifted(ts, taken.wall - taken.mono), read.mono, read.wall, maxLen)
         == acc + Kept(Shifted(ts, Drift(taken, read)), read.mono)
    decreases |ts|
  {
    if ts != [] {
      var at := ts[0] + Drift(taken, read);
      var stamps := Shifted(ts, taken.wall - taken.mono);
      assert read.mono - (read.wall - stamps[0]) == at;
      var more := if Fresh(at, read.mono) then acc + [at] else acc;
      ReaddedIsKept(more, ts[1..], taken, read, maxLen);
    }
  }

  lemma {:induction false} MergedLast(c: Config, s: State, es: seq<Entry>, e: Entry, nowM: real, nowE: real)
    requires |s.order| + |es| < c.maxUsers
    ensures Merged(c, s, es + [e], nowM, nowE) == MergedOne(c, Merged(c, s, es, nowM, nowE), e, nowM, nowE)
    decreases |es|
  {
    var all := es + [e];
    if es == [] {
      assert all[1..] == [];
    } else {
      assert all[0] == es[0] && all[1..] == es[1..] + [e];
      MergedLast(c, MergedOne(c, s, es[0], nowM, nowE), es[1..], e, nowM, nowE);
    }
  }

  /** After the first `n` users were read back, their deques are the carried ones. */
  ghost predicate ReadBack(c: Config, s: State, r: State, n: nat, taken: Moment, read: Moment, newborn: State)
    requires n <= |s.order|
  {
    && OrderOk(c, r) && |r.order| <= n
    && r.dayKey == newborn.dayKey && r.dayCount == newborn.dayCount && r.muted == newborn.muted
    && (forall u :: u in r.hist ==> u in s.order[..n])
    && forall u :: u in s.order[..n] ==> Deque(r, u) == Carried(Deque(s, u), taken, read)
  }

  function ReadEntries(c: Config, s: State, n: nat, taken: Moment, read: Moment, newborn: State): State
    requires n <= |s.order|
  {
    Merged(c, newborn, Entries(s, n, taken.mono, taken.wall), read.mono, read.wall)
  }

  lemma {:induction false} EntriesCount(s: State, n: nat, nowM: real, nowE: real)
    requires n <= |s.order|
    ensures |Entries(s, n, nowM, nowE)| <= n
  {
    if n > 0 {
      EntriesCount(s, n - 1, nowM, nowE);
    }
  }

  lemma CarriedByReading(c: Config, deque: seq<real>, taken: Moment, read: Moment)
    requires |deque| <= c.MaxLen() && Sorted(deque)
    ensures Readded([], Shifted(Kept(deque, taken.mono), taken.wall - taken.mono), read.mono, read.wall, c.MaxLen())
         == Carried(deque, taken, read)
  {
    var p := KeptIsSuffix(deque, taken.mono);
    ReaddedIsKept([], Kept(deque, taken.mono), taken, read, c.MaxLen());
    assert [] + Carried(deque, taken, read) == Carried(deque, taken, read);
  }

  function EntryOf(s: State, u: int, taken: Moment): Entry {
    Entry(u, Shifted(Kept(Deque(s, u), taken.mono), taken.wall - taken.mono))
  }

  function ReadStep(c: Config, s: State, r: State, u: int, taken: Moment, read: Moment): State {
    if Kept(Deque(s, u), taken.mono) == [] then r else MergedOne(c, r, EntryOf(s, u, taken), read.mono, read.wall)
  }

  lemma ReadOne(c: Config, s: State, r: State, n: nat, next: nat, taken: Moment, read: Moment, newborn: State)
    requires OrderOk(c, s) && n < |s.order| && next == n + 1 && ReadBack(c, s, r, n, taken, read, newborn)
    requires |Deque(s, s.order[n])| <= c.MaxLen() && Sorted(Deque(s, s.order[n]))
    ensures ReadBack(c, s, ReadStep(c, s, r, s.order[n], taken, read), next, taken, read, newborn)
  {
    var u := s.order[n];
    assert s.order[..next] == s.order[..n] + [u];
    assert u !in r.hist;
    var z := ReadStep(c, s, r, u, taken, read);
    if Kept(Deque(s, u), taken.mono) != [] {
      CarriedByReading(c, Deque(s, u), taken, read);
      assert z.hist == r.hist[u := Carried(Deque(s, u), taken, read)] && z.order == r.order + [u];
      OrderGrows(c, r, z, u);
    }
  }

  lemma OrderGrows(c: Config, r: State, z: State, u: int)
    requires OrderOk(c, r) && u !in r.hist && |r.order| < c.maxUsers
    requires z.order == r.order + [u] && z.hist.Keys == r.hist.Keys + {u}
    ensures OrderOk(c, z)
  {
    assert forall v :: v in z.order <==> v in r.order || v == u;
    assert forall v :: v in z.hist <==> v in r.hist || v == u;
  }

  lemma StampedIs(s: State, u: int, taken: Moment)
    ensures Stamped(u, Deque(s, u), taken.mono, taken.wall)
         == if Kept(Deque(s, u), taken.mono) == [] then [] else [EntryOf(s, u, taken)]
  {
  }

  lemma EntriesNext(s: State, n: nat, next: nat, nowM: real, nowE: real)
    requires next == n + 1 && n < |s.order|
    ensures Entries(s, next, nowM, nowE)
         == Entries(s, n, nowM, nowE) + Stamped(s.order[n], Deque(s, s.order[n]), nowM, nowE)
  {
  }

  lemma ReadNext(c: Config, s: State, n: nat, next: nat, taken: Moment, read: Moment, newborn: State)
    requires next == n + 1 && n < |s.order| <= c.maxUsers && newborn.order == []
    ensures ReadEntries(c, s, next, taken, read, newborn)
         == ReadStep(c, s, ReadEntries(c, s, n, taken, read, newborn), s.order[n], taken, read)
  {
    var es, u := Entries(s, n, taken.mono, taken.wall), s.order[n];
    EntriesCount(s, n, taken.mono, taken.wall);
    EntriesNext(s, n, next, taken.mono, taken.wall);
    StampedIs(s, u, taken);
    if Kept(Deque(s, u), taken.mono) == [] {
      assert es + [] == es;
    } else {
      MergedLast(c, newborn, es, EntryOf(s, u, taken), read.mono, read.wall);
    }
  }

  lemma {:induction false} ReadAll(c: Config, s: State, clock: real, n: nat, taken: Moment, read: Moment,
                                   newborn: State) returns (r: State)
    requires OrderOk(c, s) && n <= |s.order| && DequesOk(c, s, clock)
    requires newborn.order == [] && newborn.hist == map[]
    ensures r == ReadEntries(c, s, n, taken, read, newborn) && ReadBack(c, s, r, n, taken, read, newborn)
  {
    if n == 0 {
      r := newborn;
    } else {
      var m: nat := n - 1;
      var before := ReadAll(c, s, clock, m, taken, read, newborn);
      assert Sane(c, Deque(s, s.order[m]), clock);
      r := ReadStep(c, s, before, s.order[m], taken, read);
      ReadOne(c, s, before, m, n, taken, read, newborn);
      ReadNext(c, s, m, n, taken, read, newborn);
    }
  }

  lemma KeptSane(c: Config, deque: seq<real>, clock: real, now: real)
    requires Sane(c, deque, clock)
    ensures Sane(c, Kept(deque, now), clock)
  {
    var p := KeptIsSuffix(deque, now);
  }

  lemma CarriedSane(c: Config, deque: seq<real>, clock: real, taken: Moment, read: Moment)
    requires Sane(c, deque, clock) && clock <= taken.mono && taken.wall <= read.wall
    ensures Sane(c, Carried(deque, taken, read), read.mono)
  {
    var kept, d := Kept(deque, taken.mono), Drift(taken, read);
    KeptSane(c, deque, clock, taken.mono);
    KeptSane(c, Shifted(kept, d), read.mono, read.mono);
  }

  lemma ShiftedJoin(ts: seq<real>, at: real, d: real)
    ensures Shifted(ts + [at], d) == Shifted(ts, d) + [at + d]
  {
  }

  lemma TimesOfAppend(users: seq<int>, times: seq<real>, v: int, at: real, u: int)
    requires |users| == |times|
    ensures TimesOf(users + [v], times + [at], u) ==
      if v == u then TimesOf(users, times, u) + [at] else TimesOf(users, times, u)
  {
    var n := |users|;
    assert (users + [v])[..n] == users && (times + [at])[..n] == times;
  }

  lemma {:induction false} TimesOfShifted(users: seq<int>, times: seq<real>, d: real, u: int)
    requires |users| == |times|
    ensures TimesOf(users, Shifted(times, d), u) == Shifted(TimesOf(users, times, u), d)
  {
    if users != [] {
      var n := |users| - 1;
      var early, front, v, at := users[..n], times[..n], users[n], times[n];
      TimesOfShifted(early, front, d, u);
      TimesOfShiftedNext(early, front, v, at, d, u);
      assert users == early + [v] && times == front + [at];
    }
  }

  lemma TimesOfShiftedNext(users: seq<int>, times: seq<real>, v: int, at: real, d: real, u: int)
    requires |users| == |times| && TimesOf(users, Shifted(times, d), u) == Shifted(TimesOf(users, times, u), d)
    ensures TimesOf(users + [v], Shifted(times + [at], d), u) == Shifted(TimesOf(users + [v], times + [at], u), d)
  {
    ShiftedJoin(times, at, d);
    TimesOfAppend(users, Shifted(times, d), v, at + d, u);
    TimesOfAppend(users, times, v, at, u);
    ShiftedJoin(TimesOf(users, times, u), at, d);
  }

  lemma DequeReadBack(c: Config, s: State, r: State, taken: Moment, read: Moment, newborn: State, u: int)
    requires OrderOk(c, s) && ReadBack(c, s, r, |s.order|, taken, read, newborn)
    ensures Deque(r, u) == Carried(Deque(s, u), taken, read)
  {
    assert s.order[..|s.order|] == s.order;
  }

  lemma RestoredIsReadBack(c: Config, y: Sys, taken: Moment, born: int, read: Moment)
    requires OrderOk(c, y.s) && DequesOk(c, y.s, y.clock)
    ensures var r := ReadEntries(c, y.s, |y.s.order|, taken, read, Fresh0(c, born));
      && Restarted(c, y, taken, born, read).s
        == WithDay(c, r, SnapshotOf(c, y.s, taken.mono, taken.wall, taken.day), read.day)
      && ReadBack(c, y.s, r, |y.s.order|, taken, read, Fresh0(c, born))
      && forall u :: u in r.hist ==> u in y.s.order
  {
    var es := Entries(y.s, |y.s.order|, taken.mono, taken.wall);
    EntriesCount(y.s, |y.s.order|, taken.mono, taken.wall);
    assert es[..|es|] == es;
    var r := ReadAll(c, y.s, y.clock, |y.s.order|, taken, read, Fresh0(c, born));
    assert y.s.order[..|y.s.order|] == y.s.order;
  }

  lemma RestartKeepsDay(c: Config, y: Sys, r: State, taken: Moment, born: int, read: Moment)
    requires DayOk(c, y.s, y.log.days, y.day) && InOrder(y, taken, born, read)
    requires r.dayKey == c.yday(born) && r.dayCount == 0
    ensures DayOk(c, WithDay(c, r, SnapshotOf(c, y.s, taken.mono, taken.wall, taken.day), read.day),
      y.log.days, read.day)
  {
    if y.day < read.day {
      NoneLater(y.log.days, read.day);
    }
  }

  lemma RestartKeepsUsers(c: Config, y: Sys, taken: Moment, born: int, read: Moment, r: State)
    requires Inv(c, y) && InOrder(y, taken, born, read)
    requires ReadBack(c, y.s, r, |y.s.order|, taken, read, Fresh0(c, born))
    ensures DequesOk(c, r, read.mono)
    ensures WellFormed(LogIn(y.log, Drift(taken, read)))
    ensures forall u :: u !in y.evicted ==> UserOk(c, Deque(r, u), Of(LogIn(y.log, Drift(taken, read)), u), read.mono)
  {
    forall u ensures Sane(c, Deque(r, u), read.mono) {
      assert Sane(c, Deque(y.s, u), y.clock);
      DequeReadBack(c, y.s, r, taken, read, Fresh0(c, born), u);
      CarriedSane(c, Deque(y.s, u), y.clock, taken, read);
    }
    forall u | u !in y.evicted ensures UserOk(c, Deque(r, u), Of(LogIn(y.log, Drift(taken, read)), u), read.mono) {
      assert UserOk(c, Deque(y.s, u), Of(y.log, u), y.clock);
      DequeReadBack(c, y.s, r, taken, read, Fresh0(c, born), u);
      CarriedOk(c, Deque(y.s, u), Of(y.log, u), y.clock, taken, read);
      TimesOfShifted(y.log.users, y.log.times, Drift(taken, read), u);
    }
  }

  /** A restart through a snapshot taken after the last attempt keeps every limit. */
  lemma RestartKeeps(c: Config, y: Sys, taken: Moment, born: int, read: Moment)
    requires Inv(c, y) && InOrder(y, taken, born, read)
    ensures Inv(c, Restarted(c, y, taken, born, read))
  {
    var z := Restarted(c, y, taken, born, read);
    var r := ReadEntries(c, y.s, |y.s.order|, taken, read, Fresh0(c, born));
    RestoredIsReadBack(c, y, taken, born, read);
    RestartKeepsUsers(c, y, taken, born, read, r);
    RestartKeepsDay(c, y, r, taken, born, read);
    UsersAge(c, z.(s := r), z);
    DequesAge(c, r, z.s, z.clock, z.clock);
    RestartKeepsTracked(c, y, z, r);
  }

  lemma RestartKeepsTracked(c: Config, y: Sys, z: Sys, r: State)
    requires OrderOk(c, y.s) && EvictionsOk(c, y) && forall u :: u in r.hist ==> u in y.s.order
    requires z.s.hist == r.hist && z.evicted == y.evicted && z.log.users == y.log.users
    ensures EvictionsOk(c, z)
  {
    assert Users(z.log) == Users(y.log);
    forall u | u in z.s.hist ensures u in y.s.hist {
      assert u in r.hist;
    }
  }

  // ------------------------------------------------------------ every run

  ghost predicate Closed(c: Config, states: iset<Sys>) {
    && (forall now, today :: Started(c, now, today) in states)
    && (forall y, u, t0, d0, t1, d1 :: y in states && y.clock <= t0 <= t1 && y.day <= d0 <= d1 ==>
      Attempt(c, y, u, t0, d0, t1, d1) in states)
    && (forall y, now, today :: y in states && y.clock <= now && y.day <= today ==>
      AskedSys(c, y, now, today) in states)
    && (forall y :: y in states ==> Muted(y) in states)
    && forall y, taken, born, read :: y in states && InOrder(y, taken, born, read) ==>
      Restarted(c, y, taken, born, read) in states
  }

  /** The states that replies and restarts lead to. */
  ghost predicate Reachable(c: Config, y: Sys) {
    forall states: iset<Sys> :: Closed(c, states) ==> y in states
  }

  lemma ReachableStart(c: Config, now: real, today: int)
    ensures Reachable(c, Started(c, now, today))
  {
  }

  lemma ReachableAttempt(c: Config, y: Sys, u: int, t0: real, d0: int, t1: real, d1: int)
    requires Reachable(c, y) && y.clock <= t0 <= t1 && y.day <= d0 <= d1
    ensures Reachable(c, Attempt(c, y, u, t0, d0, t1, d1))
  {
  }

  lemma ReachableAsked(c: Config, y: Sys, now: real, today: int)
    requires Reachable(c, y) && y.clock <= now && y.day <= today
    ensures Reachable(c, AskedSys(c, y, now, today))
  {
  }

  lemma ReachableMuted(c: Config, y: Sys)
    requires Reachable(c, y)
    ensures Reachable(c, Muted(y))
  {
  }

  lemma StartedOk(c: Config, now: real, today: int)
    ensures Inv(c, Started(c, now, today))
  {
  }

  lemma MutedKeeps(c: Config, y: Sys)
    requires Inv(c, y)
    ensures Inv(c, Muted(y))
  {
    UsersAge(c, y, Muted(y));
    DequesAge(c, y.s, Muted(y).s, y.clock, y.clock);
  }

  lemma ReachableRestart(c: Config, y: Sys, taken: Moment, born: int, read: Moment)
    requires Reachable(c, y) && InOrder(y, taken, born, read)
    ensures Reachable(c, Restarted(c, y, taken, born, read))
  {
  }

  lemma EveryRunIsSound(c: Config, y: Sys)
    requires c.Valid() && Reachable(c, y)
    ensures Inv(c, y)
  {
    var good := iset z: Sys | Inv(c, z);
    forall now, today ensures Started(c, now, today) in good {
      StartedOk(c, now, today);
    }
    forall z, u, t0, d0, t1, d1 | z in good && z.clock <= t0 <= t1 && z.day <= d0 <= d1
      ensures Attempt(c, z, u, t0, d0, t1, d1) in good
    {
      AttemptKeeps(c, z, u, t0, d0, t1, d1);
    }
    forall z, now, today | z in good && z.clock <= now && z.day <= today ensures AskedSys(c, z, now, today) in good {
      var a := AskedKeeps(c, z, now, today);
    }
    forall z | z in good ensures Muted(z) in good {
      MutedKeeps(c, z);
    }
    forall z, taken, born, read | z in good && InOrder(z, taken, born, read)
      ensures Restarted(c, z, taken, born, read) in good
    {
      RestartKeeps(c, z, taken, born, read);
    }
    assert Closed(c, good);
  }

  /** Over any run, restarts included, no user who was never forgotten has more than
      `hourly` attempts in a half-open hour. */
  lemma HourlyLimit(c: Config, y: Sys, u: int, a: real, b: real)
    requires c.Valid() && Reachable(c, y) && u !in y.evicted && a <= b <= a + HOUR
    ensures WellFormed(y.log) && CountAfter(Of(y.log, u), a) - CountAfter(Of(y.log, u), b) <= c.hourly
  {
    EveryRunIsSound(c, y);
    assert UserOk(c, Deque(y.s, u), Of(y.log, u), y.clock);
    ApartBoundsCount(Of(y.log, u), c.hourly, HOUR, a, b);
  }

  /** Nobody is forgotten as long as there are not more users than can be tracked. */
  lemma NobodyForgotten(c: Config, y: Sys)
    requires c.Valid() && Reachable(c, y) && |Users(y.log)| <= c.maxUsers
    ensures y.evicted == {}
  {
    EveryRunIsSound(c, y);
  }

  /** Over any run, restarts included, no day has more than `cap` attempts. */
  lemma DailyLimit(c: Config, y: Sys, day: int)
    requires c.Valid() && Reachable(c, y)
    ensures 0 <= y.s.dayCount <= c.cap && CountDay(y.log.days, day) <= c.cap
  {
    EveryRunIsSound(c, y);
  }

  /** The bounded deque answers as the user's whole history would. */
  lemma VerdictIsTheHistorys(c: Config, y: Sys, u: int, now: real, today: int)
    requires c.Valid() && Reachable(c, y) && u !in y.evicted && y.clock <= now && y.day <= today
    requires c.enabled && !y.s.muted && Rolled(c, y.s, today).dayCount < c.cap
    ensures WellFormed(y.log)
    ensures Judge(c, y.s, u, now, today) ==
      if CountAfter(Of(y.log, u), AnHourBefore(now)) >= c.hourly then HourlyCap else Allowed
  {
    EveryRunIsSound(c, y);
    var deque, full := Deque(y.s, u), Of(y.log, u);
    assert UserOk(c, deque, full, y.clock);
    CountsAgree(c, deque, full, y.clock, now);
  }

  lemma CountsAgree(c: Config, deque: seq<real>, full: seq<real>, clock: real, now: real)
    requires c.Valid() && UserOk(c, deque, full, clock) && clock <= now
    ensures CountAfter(deque, AnHourBefore(now)) >= c.hourly <==> CountAfter(full, AnHourBefore(now)) >= c.hourly
  {
    AfterIsSuffix(full, AnHourBefore(now));
    assert Sorted(deque);
    AfterIsSuffix(deque, AnHourBefore(now));
    var cut := |full| - |deque|;
    assert forall i :: 0 <= i < |deque| ==> deque[i] == full[cut + i];
    var n := CountAfter(full, AnHourBefore(now));
    if n >= c.hourly {
      assert full[|full| - c.hourly] > now - HOUR;
      if |deque| >= c.hourly {
        assert deque[|deque| - c.hourly] > now - HOUR;
      }
    }
    if CountAfter(deque, AnHourBefore(now)) >= c.hourly {
      assert deque[|deque| - c.hourly] > now - HOUR;
      assert full[|full| - c.hourly] > now - HOUR;
    }
  }

  // ------------------------------------------------------- what is read back

  lemma {:induction false} ReaddedIsFresh(ts: seq<real>, stamps: seq<real>, nowM: real, nowE: real, maxLen: nat)
    ensures forall x :: x in Readded(ts, stamps, nowM, nowE, maxLen) ==> x in ts || nowM - x <= HOUR
    decreases |stamps|
  {
    if stamps != [] {
      var at := nowM - (nowE - stamps[0]);
      ReaddedIsFresh(if Fresh(at, nowM) then Push(ts, at, maxLen) else ts, stamps[1..], nowM, nowE, maxLen);
    }
  }

  /** Users are only added, as many as there is room for, and times only if they are fresh. */
  ghost predicate OnlyAdds(c: Config, s: State, t: State, nowM: real) {
    && OrderOk(c, t) && s.order <= t.order && t.muted == s.muted
    && forall u :: u in t.hist ==> forall x :: x in t.hist[u] ==> (u in s.hist && x in s.hist[u]) || nowM - x <= HOUR
  }

  lemma OneOnlyAdds(c: Config, s: State, e: Entry, nowM: real, nowE: real)
    requires OrderOk(c, s) && (e.uid in s.hist || |s.order| < c.maxUsers)
    ensures OnlyAdds(c, s, MergedOne(c, s, e, nowM, nowE), nowM)
  {
    ReaddedIsFresh(Deque(s, e.uid), e.stamps, nowM, nowE, c.MaxLen());
  }

  lemma {:induction false} MergedOnlyAdds(c: Config, s: State, es: seq<Entry>, nowM: real, nowE: real)
    requires OrderOk(c, s)
    ensures var t := Merged(c, s, es, nowM, nowE);
      OnlyAdds(c, s, t, nowM) && t.dayKey == s.dayKey && t.dayCount == s.dayCount
    decreases |es|
  {
    if es != [] && (es[0].uid in s.hist || |s.order| < c.maxUsers) {
      OneOnlyAdds(c, s, es[0], nowM, nowE);
      MergedOnlyAdds(c, MergedOne(c, s, es[0], nowM, nowE), es[1..], nowM, nowE);
    }
  }

  /** Whatever is read back into a state, nobody is forgotten, no older time comes in, and the
      count of the same day rises to the one read if that is higher. */
  lemma RestoreOnlyAdds(c: Config, s: State, snap: Snapshot, nowM: real, nowE: real, today: int)
    requires OrderOk(c, s)
    ensures var t := RestoredState(c, s, snap, nowM, nowE, today);
      && OnlyAdds(c, s, t, nowM)
      && t.dayCount ==
        (if snap.dayKey == c.yday(today) && s.dayCount < snap.dayCount then snap.dayCount else s.dayCount)
      && t.dayKey == (if t.dayCount == s.dayCount then s.dayKey else c.yday(today))
  {
    var n := if |snap.users| <= c.maxUsers then |snap.users| else c.maxUsers;
    MergedOnlyAdds(c, s, snap.users[..n], nowM, nowE);
  }

  // ------------------------------------------------------ the day's count

  /** No two days have the same key. */
  ghost predicate Unrepeated(c: Config) {
    forall a, b :: a != b ==> c.yday(a) != c.yday(b)
  }

  /** The key is that of some day up to `day`. */
  ghost predicate KeyBy(c: Config, key: int, day: int) {
    exists d :: d <= day && key == c.yday(d)
  }

  /** Under the key of the present day the counter is the number of its attempts; under
      another key there are none. */
  ghost predicate Exact(c: Config, s: State, days: seq<int>, day: int) {
    && KeyBy(c, s.dayKey, day)
    && (forall k :: 0 <= k < |days| ==> days[k] <= day)
    && CountDay(days, day) == if s.dayKey == c.yday(day) then s.dayCount else 0
  }

  /** At any later moment the counter, rolled over, is the number of attempts of that day. */
  lemma RolledIsExact(c: Config, s: State, days: seq<int>, day: int, today: int)
    requires Unrepeated(c) && Exact(c, s, days, day) && day <= today
    ensures Exact(c, s, days, today) && Exact(c, Rolled(c, s, today), days, today)
    ensures Rolled(c, s, today).dayCount == CountDay(days, today)
  {
    var d :| d <= day && s.dayKey == c.yday(d);
    if day < today {
      NoneLater(days, today);
      assert c.yday(d) != c.yday(today);
    }
    assert KeyBy(c, c.yday(today), today);
  }

  lemma RecordIsExact(c: Config, s: State, days: seq<int>, day: int, v: int, at: real, today: int)
    requires Unrepeated(c) && Exact(c, s, days, day) && day <= today
    ensures Exact(c, Recorded(c, s, v, at, today), days + [today], today)
  {
    RolledIsExact(c, s, days, day, today);
    RecordDay(c, s, v, at, today);
    assert (days + [today])[..|days|] == days;
    assert KeyBy(c, c.yday(today), today);
  }

  lemma AttemptIsExact(c: Config, y: Sys, u: int, t0: real, d0: int, t1: real, d1: int)
    requires Unrepeated(c) && Exact(c, y.s, y.log.days, y.day) && y.day <= d0 <= d1
    ensures var z := Attempt(c, y, u, t0, d0, t1, d1); Exact(c, z.s, z.log.days, z.day)
    ensures Exact(c, Asked(c, y.s, d0), y.log.days, d0)
  {
    var a := Asked(c, y.s, d0);
    RolledIsExact(c, y.s, y.log.days, y.day, d0);
    RecordIsExact(c, a, y.log.days, d0, u, t1, d1);
  }

  lemma WithDayIsExact(c: Config, s: State, days: seq<int>, day: int, taken: int, born: int, read: int,
                       r: State, snap: Snapshot)
    requires Unrepeated(c) && Exact(c, s, days, day) && day <= taken <= born <= read
    requires r.dayKey == c.yday(born) && r.dayCount == 0
    requires snap.dayKey == c.yday(taken) && snap.dayCount == if s.dayKey == c.yday(taken) then s.dayCount else 0
    ensures Exact(c, WithDay(c, r, snap, read), days, read)
  {
    RolledIsExact(c, s, days, day, taken);
    assert KeyBy(c, c.yday(born), read) && KeyBy(c, c.yday(taken), read);
    if taken < read {
      NoneLater(days, read);
      assert c.yday(taken) != c.yday(read);
    }
  }

  lemma RestartIsExact(c: Config, y: Sys, taken: Moment, born: int, read: Moment)
    requires Unrepeated(c) && Inv(c, y) && Exact(c, y.s, y.log.days, y.day) && InOrder(y, taken, born, read)
    ensures var z := Restarted(c, y, taken, born, read); Exact(c, z.s, z.log.days, z.day)
  {
    var r := ReadEntries(c, y.s, |y.s.order|, taken, read, Fresh0(c, born));
    var snap := SnapshotOf(c, y.s, taken.mono, taken.wall, taken.day);
    RestoredIsReadBack(c, y, taken, born, read);
    WithDayIsExact(c, y.s, y.log.days, y.day, taken.day, born, read.day, r, snap);
  }

  ghost predicate Counted(c: Config, y: Sys) {
    Inv(c, y) && Exact(c, y.s, y.log.days, y.day)
  }

  lemma EveryRunIsCounted(c: Config, y: Sys)
    requires c.Valid() && Unrepeated(c) && Reachable(c, y)
    ensures Counted(c, y)
  {
    var good := iset z: Sys | Counted(c, z);
    forall now, today ensures Started(c, now, today) in good {
      StartedOk(c, now, today);
      assert KeyBy(c, c.yday(today), today);
    }
    forall z, u, t0, d0, t1, d1 | z in good && z.clock <= t0 <= t1 && z.day <= d0 <= d1
      ensures Attempt(c, z, u, t0, d0, t1, d1) in good
    {
      AttemptKeeps(c, z, u, t0, d0, t1, d1);
      AttemptIsExact(c, z, u, t0, d0, t1, d1);
    }
    forall z, now, today | z in good && z.clock <= now && z.day <= today ensures AskedSys(c, z, now, today) in good {
      var a := AskedKeeps(c, z, now, today);
      AttemptIsExact(c, z, 0, now, today, now, today);
    }
    forall z | z in good ensures Muted(z) in good {
      MutedKeeps(c, z);
    }
    forall z, taken, born, read | z in good && InOrder(z, taken, born, read)
      ensures Restarted(c, z, taken, born, read) in good
    {
      RestartKeeps(c, z, taken, born, read);
      RestartIsExact(c, z, taken, born, read);
    }
    assert Closed(c, good);
  }

  /** Over any run, restarts included, the counter is the number of the day's attempts, and a
      program that is on answers "daily cap" exactly when the day has had that many. */
  lemma DailyCapIff(c: Config, y: Sys, u: int, now: real, today: int)
    requires c.Valid() && Unrepeated(c) && Reachable(c, y) && y.day <= today
    ensures y.s.dayKey == c.yday(today) ==> y.s.dayCount == CountDay(y.log.days, today)
    ensures c.enabled && !y.s.muted ==>
      (Judge(c, y.s, u, now, today) == DailyCap <==> CountDay(y.log.days, today) >= c.cap)
  {
    EveryRunIsCounted(c, y);
    RolledIsExact(c, y.s, y.log.days, y.day, today);
  }

  /** The whole answer on the history: the day's attempts first, then the user's in the hour. */
  lemma AllowedIff(c: Config, y: Sys, u: int, now: real, today: int)
    requires c.Valid() && Unrepeated(c) && Reachable(c, y) && y.clock <= now && y.day <= today && u !in y.evicted
    ensures WellFormed(y.log)
    ensures Judge(c, y.s, u, now, today) == Allowed <==>
      && c.enabled && !y.s.muted && CountDay(y.log.days, today) < c.cap
      && CountAfter(Of(y.log, u), now - HOUR) < c.hourly
  {
    EveryRunIsSound(c, y);
    DailyCapIff(c, y, u, now, today);
    if c.enabled && !y.s.muted && Rolled(c, y.s, today).dayCount < c.cap {
      VerdictIsTheHistorys(c, y, u, now, today);
    }
  }

  // ------------------------------------------------------- forgotten users

  /** A newcomer is answered while the tables are full. */
  predicate Displaces(c: Config, s: State, v: int, now: real, today: int) {
    v !in s.hist && |s.order| >= c.maxUsers && Judge(c, s, v, now, today) == Allowed
  }

  /** A reply forgets a user exactly when it displaces one and this user was tracked longest. */
  lemma ForgetsIff(c: Config, y: Sys, v: int, t0: real, d0: int, t1: real, d1: int, u: int)
    requires c.Valid() && Reachable(c, y) && y.clock <= t0 <= t1 && y.day <= d0 <= d1 && u in y.s.hist
    ensures u !in Attempt(c, y, v, t0, d0, t1, d1).s.hist
       <==> Displaces(c, y.s, v, t0, d0) && u == y.s.order[0]
  {
    EveryRunIsSound(c, y);
    var a := Asked(c, y.s, d0);
    assert a.order == y.s.order && a.hist == y.s.hist;
    if Judge(c, y.s, v, t0, d0) == Allowed {
      RecordedDeque(c, a, v, t1, d1);
      TrackedForgets(c, a, v, u);
    }
  }

  lemma TrackedForgets(c: Config, s: State, v: int, u: int)
    requires c.Valid() && OrderOk(c, s) && u in s.hist
    ensures u !in Tracked(c, s, v).hist <==> v !in s.hist && |s.order| >= c.maxUsers && u == s.order[0]
  {
    if |s.order| >= c.maxUsers {
      assert s.order[0] in s.order;
    }
  }

  /** The user's deque shows the hour used up. */
  predicate HourSpent(c: Config, s: State, u: int, now: real) {
    u in s.hist && CountAfter(s.hist[u], AnHourBefore(now)) >= c.hourly
  }

  lemma {:induction false} FewerLater(ts: seq<real>, a: real, b: real)
    requires a <= b
    ensures CountAfter(ts, b) <= CountAfter(ts, a)
  {
    if ts != [] {
      FewerLater(ts[..|ts| - 1], a, b);
    }
  }

  /** While the hour lasts, a user who has used it up gets another answer exactly when a reply
      to a newcomer made the program forget this user. */
  lemma HourReopensIff(c: Config, y: Sys, v: int, t0: real, d0: int, t1: real, d1: int, u: int)
    requires c.Valid() && Reachable(c, y) && y.clock <= t0 <= t1 && y.day <= d0 <= d1 && HourSpent(c, y.s, u, t1)
    ensures !HourSpent(c, Attempt(c, y, v, t0, d0, t1, d1).s, u, t1)
       <==> Displaces(c, y.s, v, t0, d0) && u == y.s.order[0]
  {
    ForgetsIff(c, y, v, t0, d0, t1, d1, u);
    FewerLater(y.s.hist[u], AnHourBefore(t0), AnHourBefore(t1));
    assert u == v ==> Judge(c, y.s, v, t0, d0) != Allowed;
    if u in Attempt(c, y, v, t0, d0, t1, d1).s.hist {
      DequeStays(c, y, v, t0, d0, t1, d1, u);
    }
  }

  lemma DequeStays(c: Config, y: Sys, v: int, t0: real, d0: int, t1: real, d1: int, u: int)
    requires c.Valid() && Reachable(c, y) && u in y.s.hist && (u == v ==> Judge(c, y.s, v, t0, d0) != Allowed)
    requires u in Attempt(c, y, v, t0, d0, t1, d1).s.hist
    ensures Attempt(c, y, v, t0, d0, t1, d1).s.hist[u] == y.s.hist[u]
  {
    EveryRunIsSound(c, y);
    if Judge(c, y.s, v, t0, d0) == Allowed {
      RecordedDeque(c, Asked(c, y.s, d0), v, t1, d1);
    }
  }

  /** So, with room in the day, the newcomer's reply makes this user allowed at once, though the
      whole history has the hour used up. */
  lemma ForgottenStartsAgain(c: Config, y: Sys, v: int, t0: real, t1: real, day: int)
    requires c.Valid() && Reachable(c, y) && y.clock <= t0 <= t1 && y.day <= day && Displaces(c, y.s, v, t0, day)
    requires Rolled(c, y.s, day).dayCount + 1 < c.cap
    ensures var u, z := y.s.order[0], Attempt(c, y, v, t0, day, t1, day);
      && u in z.evicted && Judge(c, z.s, u, t1, day) == Allowed
      && (u !in y.evicted && HourSpent(c, y.s, u, t1) ==>
            WellFormed(z.log) && CountAfter(Of(z.log, u), AnHourBefore(t1)) >= c.hourly)
  {
    EveryRunIsSound(c, y);
    var u := y.s.order[0];
    assert u in y.s.order;
    RecordDay(c, Asked(c, y.s, day), v, t1, day);
    ForgetsIff(c, y, v, t0, day, t1, day, u);
    if u !in y.evicted && HourSpent(c, y.s, u, t1) {
      SpentInHistory(c, y, u, t1, v, day);
    }
  }

  lemma SpentInHistory(c: Config, y: Sys, u: int, now: real, v: int, day: int)
    requires c.Valid() && Inv(c, y) && y.clock <= now && u != v && u !in y.evicted && HourSpent(c, y.s, u, now)
    ensures var log := Append(y.log, v, now, day);
      WellFormed(log) && CountAfter(Of(log, u), AnHourBefore(now)) >= c.hourly
  {
    assert UserOk(c, Deque(y.s, u), Of(y.log, u), y.clock);
    CountsAgree(c, Deque(y.s, u), Of(y.log, u), y.clock, now);
    OfAppend(y.log, v, now, day, u);
  }

  // -------------------------------------------------------------- the object

  class ReplyFixer {
    const config: Config
    var order: seq<int>
    var hourHistory: map<int, seq<real>>
    var dayKey: int
    var dayCount: int
    var broadcastDisabled: bool
    ghost var log: Log
    ghost var clock: real
    ghost var day: int
    ghost var evicted: set<int>

    ghost function View(): Sys
      reads this
    {
      Sys(State(order, hourHistory, dayKey, dayCount, broadcastDisabled), log, clock, day, evicted)
    }

    /** The object is in a state that replies and restarts lead to. */
    ghost predicate Valid()
      reads this
    {
      config.Valid() && Reachable(config, View())
    }

    constructor (c: Config, now: real, today: int)
      requires c.Valid()
      ensures Valid() && config == c && View() == Started(c, now, today)
    {
      config := c;
      order, hourHistory, dayKey, dayCount, broadcastDisabled := [], map[], c.yday(today), 0, false;
      log, clock, day, evicted := NO_ATTEMPTS, now, today, {};
      new;
      ReachableStart(c, now, today);
    }

    method RolloverDay(today: int)
      modifies this`dayKey, this`dayCount
      ensures dayKey == config.yday(today) && dayCount == if old(dayKey) == config.yday(today) then old(dayCount) else 0
    {
      if config.yday(today) != dayKey {
        dayKey, dayCount := config.yday(today), 0;
      }
    }

    /** May this user be answered now?  By `VerdictIsTheHistorys` the bounded deque gives the
        answer of the whole history. */
    method Allowed(u: int, now: real, today: int) returns (verdict: Verdict)
      requires Valid() && clock <= now && day <= today
      modifies this`dayKey, this`dayCount, this`clock, this`day
      ensures Valid() && verdict == Judge(config, old(View()).s, u, now, today)
      ensures View() == AskedSys(config, old(View()), now, today)
      ensures !config.enabled ==> verdict == Disabled
      ensures config.enabled && broadcastDisabled ==> verdict == BroadcastTarget
      ensures Unrepeated(config) && config.enabled && !broadcastDisabled ==>
        (verdict == DailyCap <==> CountDay(log.days, today) >= config.cap)
      ensures Unrepeated(config) && u !in evicted && WellFormed(log) ==>
        (verdict == Verdict.Allowed <==>
          && config.enabled && !broadcastDisabled && CountDay(log.days, today) < config.cap
          && CountAfter(Of(log, u), now - HOUR) < config.hourly)
    {
      if Unrepeated(config) {
        DailyCapIff(config, View(), u, now, today);
        if u !in evicted {
          AllowedIff(config, View(), u, now, today);
        }
      }
      ReachableAsked(config, View(), now, today);
      clock, day := now, today;
      if !config.enabled {
        return Disabled;
      }
      if broadcastDisabled {
        return BroadcastTarget;
      }
      RolloverDay(today);
      if dayCount >= config.cap {
        return DailyCap;
      }
      if u in hourHistory {
        var recent := 0;
        var history := hourHistory[u];
        for k := 0 to |history|
          invariant recent == CountAfter(history[..k], AnHourBefore(now))
        {
          assert history[..k + 1][..k] == history[..k];
          if history[k] > now - HOUR {
            recent := recent + 1;
          }
        }
        assert history[..|history|] == history;
        if recent >= config.hourly {
          return HourlyCap;
        }
      }
      return Verdict.Allowed;
    }

    method TrackUser(u: int)
      requires config.Valid()
      modifies this`order, this`hourHistory
      ensures order == Tracked(config, old(View()).s, u).order && hourHistory == Tracked(config, old(View()).s, u).hist
    {
      if u !in hourHistory {
        if |order| >= config.maxUsers {
          order, hourHistory := order[1..], hourHistory - {order[0]};
        }
        order, hourHistory := order + [u], hourHistory[u := []];
      }
    }

    /** The reservation, which asks nothing; the object stays valid when `Allowed` just said yes. */
    method RecordAttempt(u: int, now: real, today: int)
      requires config.Valid()
      modifies this
      ensures View() == Next(config, old(View()), u, now, today)
      ensures old(Valid()) && old(clock) <= now && old(day) <= today && old(dayKey) == config.yday(old(day))
        && Judge(config, old(View()).s, u, old(clock), old(day)) == Verdict.Allowed
        ==> Valid()
    {
      ghost var y := View();
      if Valid() && clock <= now && day <= today && dayKey == config.yday(day)
        && Judge(config, y.s, u, clock, day) == Verdict.Allowed
      {
        ReachableAttempt(config, y, u, clock, day, now, today);
        assert Attempt(config, y, u, clock, day, now, today) == Next(config, y, u, now, today);
      }
      Reserve(u, now, today);
    }

    method Reserve(u: int, now: real, today: int)
      requires config.Valid()
      modifies this
      ensures View() == Next(config, old(View()), u, now, today)
    {
      ghost var y := View();
      TrackUser(u);
      hourHistory := hourHistory[u := Push(hourHistory[u], now, config.MaxLen())];
      RolloverDay(today);
      dayCount := dayCount + 1;
      log, clock, day := Append(log, u, now, today), now, today;
      evicted := evicted + Forgotten(config, y.s, u);
    }

    /** The decision of `run`: ask, and reserve before anything is sent. */
    method Reply(u: int, t0: real, d0: int, t1: real, d1: int) returns (verdict: Verdict)
      requires Valid() && clock <= t0 <= t1 && day <= d0 <= d1
      modifies this
      ensures Valid() && verdict == Judge(config, old(View()).s, u, t0, d0)
      ensures View() == Attempt(config, old(View()), u, t0, d0, t1, d1)
    {
      verdict := Allowed(u, t0, d0);
      if verdict == Verdict.Allowed {
        RecordAttempt(u, t1, d1);
      }
    }

    method DisableForBroadcast()
      requires Valid()
      modifies this`broadcastDisabled
      ensures Valid() && View() == Muted(old(View()))
    {
      ReachableMuted(config, View());
      broadcastDisabled := true;
    }

    method SnapshotState(nowM: real, nowE: real, today: int) returns (snap: Snapshot)
      ensures snap == SnapshotOf(config, View().s, nowM, nowE, today)
    {
      ghost var s := View().s;
      var users: seq<Entry> := [];
      for n := 0 to |order|
        invariant users == Entries(s, n, nowM, nowE)
      {
        var u := order[n];
        users := users + Stamped(u, if u in hourHistory then hourHistory[u] else [], nowM, nowE);
      }
      var count := if dayKey == config.yday(today) then dayCount else 0;
      snap := Snapshot(users, config.yday(today), count);
    }

    method AddStamps(history: seq<real>, stamps: seq<real>, nowM: real, nowE: real) returns (deque: seq<real>)
      ensures deque == Readded(history, stamps, nowM, nowE, config.MaxLen())
    {
      deque := history;
      var rest := stamps;
      while rest != []
        invariant Readded(deque, rest, nowM, nowE, config.MaxLen())
          == Readded(history, stamps, nowM, nowE, config.MaxLen())
        decreases |rest|
      {
        var at := nowM - (nowE - rest[0]);
        if Fresh(at, nowM) {
          deque := Push(deque, at, config.MaxLen());
        }
        rest := rest[1..];
      }
    }

    method MergeUsers(entries: seq<Entry>, nowM: real, nowE: real)
      modifies this`order, this`hourHistory
      ensures View().s == Merged(config, old(View()).s, entries, nowM, nowE)
    {
      var users := entries;
      while users != []
        invariant Merged(config, View().s, users, nowM, nowE) == Merged(config, old(View()).s, entries, nowM, nowE)
        decreases |users|
      {
        var e := users[0];
        if e.uid !in hourHistory && |order| >= config.maxUsers {
          break;
        }
        var deque := AddStamps(if e.uid in hourHistory then hourHistory[e.uid] else [], e.stamps, nowM, nowE);
        order := if e.uid in hourHistory then order else order + [e.uid];
        hourHistory := hourHistory[e.uid := deque];
        users := users[1..];
      }
    }

    /** Reads a snapshot back, whatever it holds. */
    method RestoreState(snap: Snapshot, nowM: real, nowE: real, today: int)
      modifies this`order, this`hourHistory, this`dayKey, this`dayCount
      ensures View() == old(View()).(s := RestoredState(config, old(View()).s, snap, nowM, nowE, today))
    {
      var limit := if |snap.users| <= config.maxUsers then |snap.users| else config.maxUsers;
      MergeUsers(snap.users[..limit], nowM, nowE);
      if snap.dayKey == config.yday(today) && snap.dayCount > dayCount {
        dayKey, dayCount := snap.dayKey, snap.dayCount;
      }
    }

    /** The attempts of earlier processes, in this one's clock. */
    ghost method Adopt(past: Sys)
      requires config.Valid() && Reachable(config, past) && past.s == View().s
      modifies this`log, this`clock, this`day, this`evicted
      ensures Valid() && View() == past
    {
      log, clock, day, evicted := past.log, past.clock, past.day, past.evicted;
    }
  }

  /** A restart: the old object's snapshot, a new object, and the snapshot read back.  The new
      object is valid with the old one's attempts behind it, so every limit goes on. */
  method Restart(fixer: ReplyFixer, taken: Moment, born: int, read: Moment) returns (next: ReplyFixer)
    requires fixer.Valid() && InOrder(fixer.View(), taken, born, read)
    ensures fresh(next) && next.Valid() && next.config == fixer.config
    ensures next.View() == Restarted(fixer.config, fixer.View(), taken, born, read)
  {
    var snap := fixer.SnapshotState(taken.mono, taken.wall, taken.day);
    next := new ReplyFixer(fixer.config, read.mono, born);
    next.RestoreState(snap, read.mono, read.wall, read.day);
    ReachableRestart(fixer.config, fixer.View(), taken, born, read);
    next.Adopt(Restarted(fixer.config, fixer.View(), taken, born, read));
  }
}
