/** How the hourly reply limit is exceeded through a forgotten user, and when it cannot be. */
module ReplyOverrun {
  import opened Sets
  import opened ReplyQuota

  /** Some half-open hour holds more of the user's attempts than the limit. */
  ghost predicate Exceeds(c: Config, log: Log, u: int)
    requires WellFormed(log)
  {
    exists a: real :: InHour(log, u, a) > c.hourly
  }

  ghost function InHour(log: Log, u: int, a: real): int
    requires WellFormed(log)
  {
    CountAfter(Of(log, u), a) - CountAfter(Of(log, u), a + HOUR)
  }

  // ------------------------------------------------- how many attempts it takes

  /** One user's attempts and one of each other user are all attempts. */
  lemma {:induction false} MineAndOthers(users: seq<int>, times: seq<real>, u: int, others: set<int>)
    requires |users| == |times| && u !in others && forall v :: v in others ==> v in users
    ensures |TimesOf(users, times, u)| + |others| <= |users|
  {
    if users != [] {
      var n := |users| - 1;
      var less := others - {users[n]};
      assert forall v :: v in others ==> v in users[..n] || v == users[n];
      MineAndOthers(users[..n], times[..n], u, less);
      assert others <= less + {users[n]};
      SubsetCount(others, less + {users[n]});
    } else {
      assert forall v :: v !in others;
    }
  }

  lemma {:induction false} CountFits(ts: seq<real>, a: real)
    ensures CountAfter(ts, a) <= |ts|
  {
    if ts != [] {
      CountFits(ts[..|ts| - 1], a);
    }
  }

  /** No user exceeds the hour before `hourly + maxUsers + 1` attempts were made in all. */
  lemma ExceedsTakesMany(c: Config, y: Sys, u: int)
    requires c.Valid() && Reachable(c, y) && WellFormed(y.log) && Exceeds(c, y.log, u)
    ensures |y.log.users| > c.hourly + c.maxUsers
  {
    var a: real :| InHour(y.log, u, a) > c.hourly;
    if u !in y.evicted {
      HourlyLimit(c, y, u, a, a + HOUR);
    }
    EveryRunIsSound(c, y);
    CountFits(Of(y.log, u), a);
    ManyUsers(y.log, u, c.hourly, c.maxUsers);
  }

  lemma ManyUsers(log: Log, u: int, n: nat, m: nat)
    requires WellFormed(log) && |Of(log, u)| > n && |Users(log)| > m
    ensures |log.users| > n + m
  {
    var others := Users(log) - {u};
    SubsetCount(Users(log), others + {u});
    MineAndOthers(log.users, log.times, u, others);
  }

  ghost predicate OneDay(days: seq<int>, d: int) {
    forall k :: 0 <= k < |days| ==> days[k] == d
  }

  lemma {:induction false} AllOnTheDay(days: seq<int>, d: int)
    requires OneDay(days, d)
    ensures CountDay(days, d) == |days|
  {
    if days != [] {
      AllOnTheDay(days[..|days| - 1], d);
    }
  }

  /** A switched off program makes no attempt. */
  lemma DisabledIsIdle(c: Config, y: Sys)
    requires Reachable(c, y) && !c.enabled
    ensures y.log == NO_ATTEMPTS
  {
    var idle := iset z: Sys | z.log == NO_ATTEMPTS;
    assert Closed(c, idle);
  }

  // ------------------------------------------------------------------ the run

  /** The first `hourly` attempts are by user 1, the next by users 2, 3 and so on, one each. */
  function Asker(c: Config, k: nat): int {
    if k < c.hourly then 1 else k - c.hourly + 2
  }

  /** How many users have asked. */
  function Crowd(c: Config, k: nat): nat {
    if k == 0 then 0 else if k <= c.hourly then 1 else k - c.hourly + 1
  }

  /** How many of them are by user 1. */
  function Spent(c: Config, k: nat): nat {
    if k < c.hourly then k else c.hourly
  }

  function UpTo(n: nat): (s: seq<int>)
    ensures |s| == n && forall i :: 0 <= i < n ==> s[i] == i + 1
  {
    seq(n, i => i + 1)
  }

  function Zeros(n: nat): (s: seq<real>)
    ensures |s| == n && forall i :: 0 <= i < n ==> s[i] == 0.0
  {
    seq(n, _ => 0.0)
  }

  lemma {:induction false} ZerosCount(n: nat)
    ensures CountAfter(Zeros(n), AnHourBefore(0.0)) == n && CountAfter(Zeros(n), 0.0) == 0
  {
    if n > 0 {
      assert Zeros(n)[..n - 1] == Zeros(n - 1);
      ZerosCount(n - 1);
    }
  }

  /** All at one moment of one day, nobody muted. */
  ghost predicate AtOnce(c: Config, y: Sys) {
    && Reachable(c, y) && y.clock == 0.0 && y.day == 0 && !y.s.muted && WellFormed(y.log)
    && y.s.dayKey == c.yday(0) && y.s.dayCount == |y.log.users| && OneDay(y.log.days, 0)
  }

  /** Asking and replying once more. */
  lemma OneMore(c: Config, y: Sys, u: int) returns (z: Sys)
    requires c.Valid() && AtOnce(c, y) && Judge(c, y.s, u, 0.0, 0) == Allowed
    ensures z == Attempt(c, y, u, 0.0, 0, 0.0, 0) && AtOnce(c, z) && z.log == Append(y.log, u, 0.0, 0)
    ensures z.s.order == Tracked(c, y.s, u).order && z.evicted == y.evicted + Forgotten(c, y.s, u)
    ensures z.s.hist.Keys == Tracked(c, y.s, u).hist.Keys
  {
    z := Attempt(c, y, u, 0.0, 0, 0.0, 0);
    ReachableAttempt(c, y, u, 0.0, 0, 0.0, 0);
    EveryRunIsSound(c, y);
    assert AskedSys(c, y, 0.0, 0) == y;
    RecordedDeque(c, y.s, u, 0.0, 0);
    RecordDay(c, y.s, u, 0.0, 0);
  }

  /** The state after the first `k` of them. */
  ghost predicate Gathered(c: Config, y: Sys, k: nat) {
    && AtOnce(c, y) && |y.log.users| == k && y.evicted == {}
    && y.s.order == UpTo(Crowd(c, k))
    && Of(y.log, 1) == Zeros(Spent(c, k))
  }

  lemma AskerIsAllowed(c: Config, y: Sys, k: nat)
    requires c.Valid() && c.enabled && c.cap > k && Gathered(c, y, k)
    ensures Judge(c, y.s, Asker(c, k), 0.0, 0) == Allowed
  {
    EveryRunIsSound(c, y);
    if k < c.hourly {
      ZerosCount(k);
      VerdictIsTheHistorys(c, y, 1, 0.0, 0);
    } else {
      assert Asker(c, k) !in y.s.order;
    }
  }

  lemma NewcomerIsTracked(c: Config, s: State, n: nat)
    requires OrderOk(c, s) && s.order == UpTo(n) && n < c.maxUsers
    ensures Tracked(c, s, n + 1).order == UpTo(n + 1) && Forgotten(c, s, n + 1) == {}
  {
    assert n + 1 !in s.order;
    assert UpTo(n) + [n + 1] == UpTo(n + 1);
  }

  lemma AskerIsTracked(c: Config, s: State, k: nat)
    requires c.Valid() && OrderOk(c, s) && s.order == UpTo(Crowd(c, k)) && k < c.hourly + c.maxUsers - 1
    ensures Tracked(c, s, Asker(c, k)).order == UpTo(Crowd(c, k + 1)) && Forgotten(c, s, Asker(c, k)) == {}
  {
    if 0 < k < c.hourly {
      assert s.order[0] == 1 && 1 in s.order;
    } else {
      NewcomerIsTracked(c, s, Crowd(c, k));
    }
  }

  lemma GatherNext(c: Config, before: Sys, k: nat) returns (y: Sys)
    requires c.Valid() && c.enabled && c.cap > k && k < c.hourly + c.maxUsers - 1 && Gathered(c, before, k)
    ensures Gathered(c, y, k + 1)
  {
    var u := Asker(c, k);
    EveryRunIsSound(c, before);
    AskerIsAllowed(c, before, k);
    AskerIsTracked(c, before.s, k);
    y := OneMore(c, before, u);
    SpentNext(c, before.log, k);
  }

  lemma SpentNext(c: Config, log: Log, k: nat)
    requires WellFormed(log) && Of(log, 1) == Zeros(Spent(c, k))
    ensures Of(Append(log, Asker(c, k), 0.0, 0), 1) == Zeros(Spent(c, k + 1))
  {
    OfAppend(log, Asker(c, k), 0.0, 0, 1);
    if k < c.hourly {
      assert Zeros(k) + [0.0] == Zeros(k + 1);
    }
  }

  lemma {:induction false} Gather(c: Config, k: nat) returns (y: Sys)
    requires c.Valid() && c.enabled && c.cap >= k && k < c.hourly + c.maxUsers
    ensures Gathered(c, y, k)
  {
    if k == 0 {
      y := Started(c, 0.0, 0);
      ReachableStart(c, 0.0, 0);
    } else {
      var before := Gather(c, k - 1);
      y := GatherNext(c, before, k - 1);
    }
  }

  /** The tables are full, the hour of user 1 is used up, and a newcomer would be answered. */
  lemma Brim(c: Config) returns (y: Sys)
    requires c.Valid() && c.enabled && c.cap > c.hourly + c.maxUsers
    ensures Gathered(c, y, c.hourly + c.maxUsers - 1) && y.s.order != [] && y.s.order[0] == 1
    ensures HourSpent(c, y.s, 1, 0.0) && Displaces(c, y.s, c.maxUsers + 1, 0.0, 0)
  {
    var k := c.hourly + c.maxUsers - 1;
    y := Gather(c, k);
    EveryRunIsSound(c, y);
    AskerIsAllowed(c, y, k);
    SpentAtOnce(c, y);
    assert Asker(c, k) == c.maxUsers + 1 && Asker(c, k) !in y.s.order;
  }

  lemma OneTooMany(c: Config, log: Log, v: int)
    requires WellFormed(log) && Of(log, 1) == Zeros(c.hourly) && v != 1
    ensures Exceeds(c, Append(Append(log, v, 0.0, 0), 1, 0.0, 0), 1)
  {
    var mid := Append(log, v, 0.0, 0);
    OfAppend(log, v, 0.0, 0, 1);
    OfAppend(mid, 1, 0.0, 0, 1);
    var n := c.hourly + 1;
    assert Of(Append(mid, 1, 0.0, 0), 1) == Zeros(n);
    ZerosCount(n);
    assert InHour(Append(mid, 1, 0.0, 0), 1, AnHourBefore(0.0)) == n;
  }

  /** A reply to the newcomer lets user 1 through again: one attempt too many, all within one
      moment. */
  lemma Overrun(c: Config) returns (y: Sys, z: Sys)
    requires c.Valid() && c.enabled && c.cap > c.hourly + c.maxUsers
    ensures Reachable(c, y) && HourSpent(c, y.s, 1, 0.0) && Displaces(c, y.s, c.maxUsers + 1, 0.0, 0)
    ensures z == Attempt(c, Attempt(c, y, c.maxUsers + 1, 0.0, 0, 0.0, 0), 1, 0.0, 0, 0.0, 0)
    ensures AtOnce(c, z) && |z.log.users| == c.hourly + c.maxUsers + 1 && Exceeds(c, z.log, 1)
  {
    var v := c.maxUsers + 1;
    y := Brim(c);
    ForgottenStartsAgain(c, y, v, 0.0, 0.0, 0);
    var mid := OneMore(c, y, v);
    z := OneMore(c, mid, 1);
    OneTooMany(c, y.log, v);
  }

  lemma SpentAtOnce(c: Config, y: Sys)
    requires c.Valid() && Gathered(c, y, c.hourly + c.maxUsers - 1)
    ensures HourSpent(c, y.s, 1, 0.0)
  {
    EveryRunIsSound(c, y);
    assert y.s.order[0] == 1 && 1 in y.s.order;
    assert UserOk(c, Deque(y.s, 1), Of(y.log, 1), y.clock);
    ZerosCount(c.hourly);
    CountsAgree(c, Deque(y.s, 1), Of(y.log, 1), 0.0, 0.0);
  }

  /** Some run within one day gives some user more than the hourly limit. */
  ghost predicate Overruns(c: Config, y: Sys, d: int, u: int) {
    Reachable(c, y) && WellFormed(y.log) && OneDay(y.log.days, d) && Exceeds(c, y.log, u)
  }

  /** The hourly limit can be exceeded within a day exactly when the program is switched on and
      a day has room for the limit, a full table and one more. */
  lemma OverrunIff(c: Config)
    requires c.Valid()
    ensures (exists y, d, u :: Overruns(c, y, d, u)) <==> c.enabled && c.cap > c.hourly + c.maxUsers
  {
    forall y, d, u | Overruns(c, y, d, u) ensures c.enabled && c.cap > c.hourly + c.maxUsers {
      ExceedsTakesMany(c, y, u);
      AllOnTheDay(y.log.days, d);
      DailyLimit(c, y, d);
      if !c.enabled {
        DisabledIsIdle(c, y);
      }
    }
    if c.enabled && c.cap > c.hourly + c.maxUsers {
      var y, z := Overrun(c);
      assert Overruns(c, z, 0, 1);
    }
  }
}
