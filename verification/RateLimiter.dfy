/** The `AdaptiveRateLimiter` of main.py. */
module RateLimiter {
  import opened Windows

  // A token bucket, two sliding windows and one window per account.  A ghost history records
  // every grant ever made; the deques hold only the recent part of it, yet every decision is
  // the one the full history gives.

  /** Every grant so far: when, to which account, and the per-account limit then in force. */
  datatype History = History(times: seq<real>, names: seq<string>, limits: seq<int>)

  const NO_GRANTS := History([], [], [])

  function Max(a: int, b: int): int {
    if a < b then b else a
  }

  /** `max(1, max_per_minute // accounts)`, for a positive per-minute limit. */
  function AccountLimit(maxMinute: nat, accounts: nat): (limit: int)
    ensures 1 <= limit
  {
    Max(1, maxMinute / Max(accounts, 1))
  }

  ghost predicate WellFormed(h: History) {
    |h.times| == |h.names| == |h.limits|
  }

  function Append(h: History, at: real, name: string, limit: int): History {
    History(h.times + [at], h.names + [name], h.limits + [limit])
  }

  /** The grants of one account. */
  function Of(h: History, a: string): History
    requires WellFormed(h)
    ensures WellFormed(Of(h, a))
    decreases |h.times|
  {
    if h.times == [] then NO_GRANTS
    else
      var n := |h.times| - 1;
      var rest := Of(History(h.times[..n], h.names[..n], h.limits[..n]), a);
      if h.names[n] == a then Append(rest, h.times[n], a, h.limits[n]) else rest
  }

  // ---------------------------------------------------------------- the laws

  datatype Config = Config(maxMinute: int, maxHour: int, burst: int) {
    function Rate(): real {
      maxMinute as real / 60.0
    }
  }

  /** Grants `i` to `j` do not exceed the burst plus what the bucket refills between them. */
  predicate BurstOk(ts: seq<real>, burst: real, rate: real, i: nat, j: nat)
    requires i <= j < |ts|
  {
    (j - i + 1) as real <= burst + ts[j] * rate - ts[i] * rate
  }

  ghost predicate WithinBurst(ts: seq<real>, burst: real, rate: real) {
    forall i: nat, j: nat :: i <= j < |ts| ==> BurstOk(ts, burst, rate, i, j)
  }

  /** Each grant leaves its account within the limit then in force over the last minute. */
  ghost predicate WithinLimit(h: History)
    requires WellFormed(h)
  {
    forall i, j :: 0 <= i <= j < |h.times| && j - i >= h.limits[j] ==> h.times[j] - h.times[i] > 60.0
  }

  ghost predicate AccountLawful(h: History)
    requires WellFormed(h)
  {
    Sorted(h.times) && WithinLimit(h)
  }

  ghost predicate Lawful(c: Config, h: History) {
    && WellFormed(h)
    && Sorted(h.times)
    && Spaced(h.times, c.maxMinute, 60.0)
    && Spaced(h.times, c.maxHour, 3600.0)
    && WithinBurst(h.times, c.burst as real, c.Rate())
    && forall a :: AccountLawful(Of(h, a))
  }

  /** Nothing is granted under a limit that is not positive. */
  lemma PositiveLimit(ts: seq<real>, k: int, w: real)
    requires Spaced(ts, k, w) && ts != [] && 0.0 <= w
    ensures 0 < k
  {
    var first := [ts[0]];
    assert first[0] == ts[0];
  }

  /** No closed minute holds more grants than the minute limit, no closed hour more than
      the hour limit. */
  lemma WindowLimits(c: Config, h: History, a: real, b: real)
    requires Lawful(c, h)
    ensures b - a <= 60.0 ==> CountIn(h.times, a, b) <= Max(0, c.maxMinute)
    ensures b - a <= 3600.0 ==> CountIn(h.times, a, b) <= Max(0, c.maxHour)
  {
    if h.times != [] {
      PositiveLimit(h.times, c.maxMinute, 60.0);
      PositiveLimit(h.times, c.maxHour, 3600.0);
      if b - a <= 60.0 {
        SpacedBoundsCount(h.times, c.maxMinute, 60.0, a, b);
      }
      if b - a <= 3600.0 {
        SpacedBoundsCount(h.times, c.maxHour, 3600.0, a, b);
      }
    }
  }

  lemma BurstOnRange(ts: seq<real>, burst: real, rate: real, lo: nat, hi: nat, a: real, b: real)
    requires WithinBurst(ts, burst, rate) && lo < hi <= |ts|
    requires 0.0 <= rate && a <= ts[lo] && ts[hi - 1] <= b
    ensures (hi - lo) as real <= burst + (b - a) * rate
  {
    assert BurstOk(ts, burst, rate, lo, hi - 1);
  }

  lemma BurstBetween(ts: seq<real>, burst: real, rate: real, a: real, b: real)
    requires Sorted(ts) && WithinBurst(ts, burst, rate) && 0.0 <= rate && CountIn(ts, a, b) > 0
    ensures CountIn(ts, a, b) as real <= burst + (b - a) * rate
  {
    var lo, hi := CountIsRange(ts, a, b);
    assert a <= ts[lo] <= b && a <= ts[hi - 1] <= b;
    BurstOnRange(ts, burst, rate, lo, hi, a, b);
  }

  /** Any interval that holds a grant at all holds at most the burst plus its length times
      the refill rate. */
  lemma BurstLimit(c: Config, h: History, a: real, b: real)
    requires Lawful(c, h) && CountIn(h.times, a, b) > 0
    ensures CountIn(h.times, a, b) as real <= c.burst as real + (b - a) * (c.maxMinute as real / 60.0)
  {
    PositiveLimit(h.times, c.maxMinute, 60.0);
    BurstBetween(h.times, c.burst as real, c.Rate(), a, b);
  }

  lemma QuotientTimes(m: nat, n: nat, q: nat)
    requires n >= 1 && q == m / n
    ensures n * q <= m < n * (q + 1)
  {
  }

  /** An account's share: the per-minute limit divided evenly, but at least one. */
  lemma ShareOfAccounts(maxMinute: nat, accounts: nat)
    requires 1 <= accounts
    ensures var share := AccountLimit(maxMinute, accounts);
      if maxMinute < accounts then share == 1 else accounts * share <= maxMinute < accounts * (share + 1)
    ensures AccountLimit(maxMinute, 0) == AccountLimit(maxMinute, 1)
  {
    QuotientTimes(maxMinute, accounts, maxMinute / accounts);
  }

  /** No account's share grows as more accounts come. */
  lemma MoreAccountsLessShare(maxMinute: nat, accounts: nat)
    ensures AccountLimit(maxMinute, accounts + 1) <= AccountLimit(maxMinute, accounts)
  {
    if accounts >= 1 {
      FewerEach(maxMinute, accounts);
    }
  }

  lemma FewerEach(m: nat, n: nat)
    requires n >= 1
    ensures m / (n + 1) <= m / n
  {
    var p := m / (n + 1);
    QuotientTimes(m, n + 1, p);
    AtMostQuotient(m, n, p);
  }

  lemma AtMostQuotient(m: nat, n: nat, p: nat)
    requires n >= 1 && n * p <= m
    ensures p <= m / n
  {
    var q := m / n;
    QuotientTimes(m, n, q);
    TimesMonotone(n, q + 1, p);
  }

  lemma TimesMonotone(n: nat, a: nat, b: nat)
    ensures a <= b ==> n * a <= n * b
  {
    if a <= b {
      assert n * b == n * a + n * (b - a);
    }
  }

  lemma LastWithinLimit(h: History, a: real, b: real) returns (last: nat)
    requires WellFormed(h) && AccountLawful(h) && b - a <= 60.0 && CountIn(h.times, a, b) > 0
    ensures last < |h.times| && a <= h.times[last] <= b && CountIn(h.times, a, b) <= h.limits[last]
    ensures forall i :: last < i < |h.times| ==> b < h.times[i]
  {
    var lo, hi := CountIsRange(h.times, a, b);
    last := hi - 1;
    assert a <= h.times[lo] <= b && a <= h.times[last] <= b;
    forall i | last < i < |h.times| ensures b < h.times[i] {
      assert h.times[last] <= h.times[i] && !(a <= h.times[i] <= b);
    }
  }

  /** An account's grants in any closed minute are at most the limit at the last of them. */
  lemma AccountWithinItsLimit(c: Config, h: History, account: string, a: real, b: real) returns (last: nat)
    requires Lawful(c, h) && b - a <= 60.0 && CountIn(Of(h, account).times, a, b) > 0
    ensures var mine := Of(h, account);
      && last < |mine.times| && a <= mine.times[last] <= b
      && (forall i :: last < i < |mine.times| ==> b < mine.times[i])
      && CountIn(mine.times, a, b) <= mine.limits[last]
  {
    assert AccountLawful(Of(h, account));
    last := LastWithinLimit(Of(h, account), a, b);
  }

  // --------------------------------------------------------------- the state

  datatype State = State(tokens: real, lastRefill: real, minute: seq<real>, hour: seq<real>,
                         accounts: map<string, seq<real>>)

  /** The bucket's level after the refill at `now`. */
  function Refilled(c: Config, tokens: real, lastRefill: real, now: real): real {
    var level := tokens + (now - lastRefill) * c.Rate();
    if c.burst as real <= level then c.burst as real else level
  }

  /** The bucket has paid for every grant since each one. */
  ghost predicate Paid(burst: real, rate: real, tokens: real, lastRefill: real, ts: seq<real>) {
    && tokens <= burst
    && forall i :: 0 <= i < |ts| ==> tokens + (|ts| - i) as real <= burst + lastRefill * rate - ts[i] * rate
  }

  lemma RefillKeepsPaid(c: Config, tokens: real, from: real, ts: seq<real>, now: real)
    requires Paid(c.burst as real, c.Rate(), tokens, from, ts)
    ensures Paid(c.burst as real, c.Rate(), Refilled(c, tokens, from, now), now, ts)
  {
    var rate := c.Rate();
    assert (now - from) * rate == now * rate - from * rate;
  }

  ghost predicate Before(ts: seq<real>, clock: real) {
    ts != [] ==> ts[|ts| - 1] <= clock
  }

  /** An account's deque, if it has one, is the recent part of that account's history. */
  ghost predicate AccountOk(accounts: map<string, seq<real>>, a: string, ts: seq<real>, clock: real) {
    Before(ts, clock) && if a in accounts then Recent(accounts[a], ts, clock - 60.0) else ts == []
  }

  ghost predicate AccountsOk(accounts: map<string, seq<real>>, h: History, clock: real)
    requires WellFormed(h)
  {
    forall a :: AccountOk(accounts, a, Of(h, a).times, clock)
  }

  ghost predicate WindowsOk(minute: seq<real>, hour: seq<real>, ts: seq<real>, clock: real) {
    && Before(ts, clock)
    && Recent(minute, ts, clock - 60.0)
    && Recent(hour, ts, clock - 3600.0)
  }

  ghost predicate Inv(c: Config, s: State, h: History, clock: real) {
    && Lawful(c, h)
    && WindowsOk(s.minute, s.hour, h.times, clock)
    && AccountsOk(s.accounts, h, clock)
    && Paid(c.burst as real, c.Rate(), s.tokens, s.lastRefill, h.times)
    && s.lastRefill <= clock
  }

  lemma WindowsAge(minute: seq<real>, hour: seq<real>, ts: seq<real>, clock: real, now: real)
    requires Sorted(ts) && WindowsOk(minute, hour, ts, clock) && clock <= now
    ensures WindowsOk(Pruned(minute, now - 60.0), Pruned(hour, now - 3600.0), ts, now)
    ensures |Pruned(minute, now - 60.0)| == CountIn(ts, now - 60.0, now)
    ensures |Pruned(hour, now - 3600.0)| == CountIn(ts, now - 3600.0, now)
  {
    PruneAt(minute, ts, clock - 60.0, now, 60.0);
    PruneAt(hour, ts, clock - 3600.0, now, 3600.0);
  }

  function AccountWindow(accounts: map<string, seq<real>>, account: string): seq<real> {
    if account in accounts then accounts[account] else []
  }

  lemma ReplaceWindow(accounts: map<string, seq<real>>, h: History, now: real, account: string, kept: seq<real>)
    requires WellFormed(h) && AccountsOk(accounts, h, now) && Recent(kept, Of(h, account).times, now - 60.0)
    ensures AccountsOk(accounts[account := kept], h, now)
  {
    forall a ensures AccountOk(accounts[account := kept], a, Of(h, a).times, now) {
      assert AccountOk(accounts, a, Of(h, a).times, now);
    }
  }

  lemma AccountPruned(accounts: map<string, seq<real>>, h: History, now: real, account: string)
    requires WellFormed(h) && AccountsOk(accounts, h, now) && AccountLawful(Of(h, account))
    ensures var kept := Pruned(AccountWindow(accounts, account), now - 60.0);
      && |kept| == CountIn(Of(h, account).times, now - 60.0, now)
      && AccountsOk(accounts[account := kept], h, now)
  {
    var ts, window := Of(h, account).times, AccountWindow(accounts, account);
    assert AccountOk(accounts, account, ts, now);
    PruneAt(window, ts, now - 60.0, now, 60.0);
    ReplaceWindow(accounts, h, now, account, Pruned(window, now - 60.0));
  }

  lemma BurstAfter(burst: real, rate: real, tokens: real, ts: seq<real>, now: real)
    requires WithinBurst(ts, burst, rate) && Paid(burst, rate, tokens, now, ts) && tokens >= 1.0
    ensures WithinBurst(ts + [now], burst, rate) && Paid(burst, rate, tokens - 1.0, now, ts + [now])
  {
    forall i: nat, j: nat | i <= j < |ts + [now]| ensures BurstOk(ts + [now], burst, rate, i, j) {
      if j < |ts| {
        assert BurstOk(ts, burst, rate, i, j);
      }
    }
  }

  lemma SpacedAfter(win: seq<real>, ts: seq<real>, k: int, w: real, now: real)
    requires Sorted(ts) && Spaced(ts, k, w) && Before(ts, now) && Recent(win, ts, now - w) && |win| < k
    ensures Spaced(ts + [now], k, w) && Recent(win + [now], ts + [now], now - w)
  {
    var more := ts + [now];
    assert forall i :: 0 <= i < |ts| ==> more[i] == ts[i];
    assert forall i :: 0 <= i < |ts| - |win| ==> now - ts[i] > w;
  }

  lemma WindowsAfter(c: Config, minute: seq<real>, hour: seq<real>, ts: seq<real>, now: real)
    requires Sorted(ts) && Spaced(ts, c.maxMinute, 60.0) && Spaced(ts, c.maxHour, 3600.0)
    requires WindowsOk(minute, hour, ts, now) && |minute| < c.maxMinute && |hour| < c.maxHour
    ensures Sorted(ts + [now]) && Spaced(ts + [now], c.maxMinute, 60.0) && Spaced(ts + [now], c.maxHour, 3600.0)
    ensures WindowsOk(minute + [now], hour + [now], ts + [now], now)
  {
    SpacedAfter(minute, ts, c.maxMinute, 60.0, now);
    SpacedAfter(hour, ts, c.maxHour, 3600.0, now);
    AppendSorted(ts, now);
  }

  lemma AccountAfter(h: History, win: seq<real>, now: real, name: string, limit: int)
    requires WellFormed(h) && AccountLawful(h) && Before(h.times, now)
    requires Recent(win, h.times, now - 60.0) && |win| < limit
    ensures var after := Append(h, now, name, limit);
      AccountLawful(after) && Before(after.times, now) && Recent(win + [now], after.times, now - 60.0)
  {
    var after := Append(h, now, name, limit);
    forall i, j | 0 <= i <= j < |after.times| && j - i >= after.limits[j]
      ensures after.times[j] - after.times[i] > 60.0
    {
      if j == |h.times| {
        assert i < |h.times| - |win|;
      }
    }
  }

  lemma AccountsAfter(accounts: map<string, seq<real>>, h: History, now: real, account: string, limit: int, a: string)
    requires WellFormed(h) && AccountLawful(Of(h, a)) && AccountOk(accounts, a, Of(h, a).times, now)
    requires account in accounts && |accounts[account]| < limit
    ensures var after := Append(h, now, account, limit);
      && AccountLawful(Of(after, a))
      && AccountOk(accounts[account := accounts[account] + [now]], a, Of(after, a).times, now)
  {
    if a == account {
      AccountAfter(Of(h, a), accounts[a], now, a, limit);
    }
  }

  // -------------------------------------------------------------- the calls

  /** The limiter's fields, the history behind them and the latest time read. */
  datatype Sys = Sys(s: State, h: History, clock: real)

  function Started(c: Config, now: real): Sys {
    Sys(State(c.burst as real, now, [], [], map[]), NO_GRANTS, now)
  }

  function Prune(s: State, now: real): State {
    s.(minute := Pruned(s.minute, now - 60.0), hour := Pruned(s.hour, now - 3600.0))
  }

  function Aged(c: Config, s: State, now: real): State {
    Prune(s.(tokens := Refilled(c, s.tokens, s.lastRefill, now), lastRefill := now), now)
  }

  predicate Passes(c: Config, s: State) {
    |s.minute| < c.maxMinute && |s.hour| < c.maxHour && s.tokens >= 1.0
  }

  function WithAccount(s: State, account: string, now: real): State {
    s.(accounts := s.accounts[account := Pruned(AccountWindow(s.accounts, account), now - 60.0)])
  }

  function Granted(s: State, account: string, now: real): State
    requires account in s.accounts
  {
    s.(tokens := s.tokens - 1.0, minute := s.minute + [now], hour := s.hour + [now],
       accounts := s.accounts[account := s.accounts[account] + [now]])
  }

  /** Whether `can_proceed` returns true. */
  predicate Grants(c: Config, s: State, account: string, now: real) {
    var aged := Aged(c, s, now);
    var held := WithAccount(aged, account, now);
    Passes(c, aged) && |held.accounts[account]| < AccountLimit(c.maxMinute, |held.accounts|)
  }

  /** Everything `can_proceed` changes. */
  function Call(c: Config, y: Sys, account: string, now: real): Sys {
    var aged := Aged(c, y.s, now);
    if !Passes(c, aged) then Sys(aged, y.h, now)
    else
      var held := WithAccount(aged, account, now);
      var limit := AccountLimit(c.maxMinute, |held.accounts|);
      if |held.accounts[account]| >= limit then Sys(held, y.h, now)
      else Sys(Granted(held, account, now), Append(y.h, now, account, limit), now)
  }

  /** Everything `status` changes. */
  function Look(y: Sys, now: real): Sys {
    Sys(Prune(y.s, now), y.h, now)
  }

  ghost predicate Closed(c: Config, states: iset<Sys>) {
    && (forall now :: Started(c, now) in states)
    && forall y, account, now :: y in states && y.clock <= now ==>
         Call(c, y, account, now) in states && Look(y, now) in states
  }

  /** What some sequence of calls in clock order leads to. */
  ghost predicate Reachable(c: Config, y: Sys) {
    forall states: iset<Sys> :: Closed(c, states) ==> y in states
  }

  lemma ReachableStart(c: Config, now: real)
    ensures Reachable(c, Started(c, now))
  {
  }

  lemma ReachableCall(c: Config, y: Sys, account: string, now: real)
    requires Reachable(c, y) && y.clock <= now
    ensures Reachable(c, Call(c, y, account, now)) && Reachable(c, Look(y, now))
  {
  }

  // ------------------------------------------------------- every call keeps it

  lemma AgingKeeps(c: Config, s: State, h: History, clock: real, now: real)
    requires Inv(c, s, h, clock) && clock <= now
    ensures Inv(c, Aged(c, s, now), h, now) && Inv(c, Prune(s, now), h, now)
    ensures |Aged(c, s, now).minute| == CountIn(h.times, now - 60.0, now)
    ensures |Aged(c, s, now).hour| == CountIn(h.times, now - 3600.0, now)
  {
    WindowsAge(s.minute, s.hour, h.times, clock, now);
    RefillKeepsPaid(c, s.tokens, s.lastRefill, h.times, now);
  }

  lemma WithAccountKeeps(c: Config, s: State, h: History, account: string, now: real)
    requires Inv(c, s, h, now)
    ensures Inv(c, WithAccount(s, account, now), h, now)
    ensures |WithAccount(s, account, now).accounts[account]| == CountIn(Of(h, account).times, now - 60.0, now)
  {
    assert AccountLawful(Of(h, account));
    AccountPruned(s.accounts, h, now, account);
  }

  /** A grant that passed every check keeps all the laws. */
  lemma GrantKeeps(c: Config, s: State, h: History, now: real, account: string, limit: int)
    requires Inv(c, s, h, now) && s.lastRefill == now && Passes(c, s)
    requires account in s.accounts && |s.accounts[account]| < limit
    ensures Inv(c, Granted(s, account, now), Append(h, now, account, limit), now)
  {
    WindowsAfter(c, s.minute, s.hour, h.times, now);
    BurstAfter(c.burst as real, c.Rate(), s.tokens, h.times, now);
    forall a
      ensures AccountLawful(Of(Append(h, now, account, limit), a))
      ensures AccountOk(s.accounts[account := s.accounts[account] + [now]], a,
                        Of(Append(h, now, account, limit), a).times, now)
    {
      assert AccountLawful(Of(h, a)) && AccountOk(s.accounts, a, Of(h, a).times, now);
      AccountsAfter(s.accounts, h, now, account, limit, a);
    }
  }

  lemma CallKeeps(c: Config, y: Sys, account: string, now: real)
    requires Inv(c, y.s, y.h, y.clock) && y.clock <= now
    ensures var z := Call(c, y, account, now); Inv(c, z.s, z.h, z.clock)
  {
    AgingKeeps(c, y.s, y.h, y.clock, now);
    var aged := Aged(c, y.s, now);
    if Passes(c, aged) {
      WithAccountKeeps(c, aged, y.h, account, now);
      var held := WithAccount(aged, account, now);
      var limit := AccountLimit(c.maxMinute, |held.accounts|);
      if |held.accounts[account]| < limit {
        GrantKeeps(c, held, y.h, now, account, limit);
      }
    }
  }

  lemma StartIsLawful(c: Config, now: real)
    ensures var y := Started(c, now); Inv(c, y.s, y.h, y.clock)
  {
  }

  /** Every sequence of calls keeps every law: with `WindowLimits`, `BurstLimit` and
      `AccountWithinItsLimit`, no run of the limiter ever exceeds any of its limits. */
  lemma EveryRunIsLawful(c: Config, y: Sys)
    requires Reachable(c, y)
    ensures Inv(c, y.s, y.h, y.clock) && Lawful(c, y.h)
  {
    var good := iset z: Sys | Inv(c, z.s, z.h, z.clock);
    forall now ensures Started(c, now) in good {
      StartIsLawful(c, now);
    }
    forall z, account, now | z in good && z.clock <= now
      ensures Call(c, z, account, now) in good && Look(z, now) in good
    {
      CallKeeps(c, z, account, now);
      AgingKeeps(c, z.s, z.h, z.clock, now);
    }
    assert Closed(c, good);
  }

  // ------------------------------------------------- the bucket on the history

  /** The bucket's level at `now` from the grants alone: full at first, a token less for each,
      and filled again by `maxMinute` tokens a minute up to the burst. */
  function Level(c: Config, ts: seq<real>, now: real): real {
    if ts == [] then c.burst as real
    else
      var n := |ts| - 1;
      var level := Level(c, ts[..n], ts[n]) - 1.0 + (now - ts[n]) * (c.maxMinute as real / 60.0);
      if level < c.burst as real then level else c.burst as real
  }

  ghost predicate Leveled(c: Config, s: State, ts: seq<real>) {
    c.maxMinute >= 0 ==> Before(ts, s.lastRefill) && s.tokens == Level(c, ts, s.lastRefill)
  }

  lemma FlowAdds(rate: real, t: real, a: real, b: real)
    ensures (b - a) * rate + (a - t) * rate == (b - t) * rate
  {
  }

  lemma FlowNotNegative(rate: real, a: real, b: real)
    requires rate >= 0.0 && a <= b
    ensures (b - a) * rate >= 0.0
  {
  }

  /** Refilling in two steps is refilling at once. */
  lemma RefillIsLevel(c: Config, ts: seq<real>, from: real, now: real)
    requires c.maxMinute >= 0 && Before(ts, from) && from <= now
    ensures Refilled(c, Level(c, ts, from), from, now) == Level(c, ts, now)
  {
    var rate := c.Rate();
    FlowNotNegative(rate, from, now);
    if ts != [] {
      var last := ts[|ts| - 1];
      FlowAdds(rate, last, from, now);
      FlowNotNegative(rate, last, from);
    }
  }

  lemma GrantIsLevel(c: Config, ts: seq<real>, now: real)
    ensures Level(c, ts + [now], now) == Level(c, ts, now) - 1.0
  {
    NoTimeNoFlow(now, c.maxMinute as real / 60.0);
    LevelNext(c, ts, now, now, 0.0);
    LevelAtMostBurst(c, ts, now);
  }

  lemma LevelNext(c: Config, ts: seq<real>, at: real, now: real, flow: real)
    requires flow == (now - at) * (c.maxMinute as real / 60.0)
    ensures var level := Level(c, ts, at) - 1.0 + flow;
      Level(c, ts + [at], now) == if level < c.burst as real then level else c.burst as real
  {
    var more := ts + [at];
    assert more[..|ts|] == ts && more[|ts|] == at;
  }

  lemma NoTimeNoFlow(now: real, rate: real)
    ensures (now - now) * rate == 0.0
  {
  }

  lemma LevelAtMostBurst(c: Config, ts: seq<real>, now: real)
    ensures Level(c, ts, now) <= c.burst as real
  {
  }

  lemma CallKeepsLevel(c: Config, y: Sys, account: string, now: real)
    requires Leveled(c, y.s, y.h.times) && y.s.lastRefill <= y.clock <= now
    ensures var z := Call(c, y, account, now); Leveled(c, z.s, z.h.times) && z.s.lastRefill <= z.clock
    ensures c.maxMinute >= 0 ==> Aged(c, y.s, now).tokens == Level(c, y.h.times, now)
  {
    if c.maxMinute >= 0 {
      RefillIsLevel(c, y.h.times, y.s.lastRefill, now);
      GrantIsLevel(c, y.h.times, now);
    }
  }

  lemma EveryRunIsLeveled(c: Config, y: Sys)
    requires Reachable(c, y)
    ensures Leveled(c, y.s, y.h.times) && y.s.lastRefill <= y.clock
  {
    var good := iset z: Sys | Leveled(c, z.s, z.h.times) && z.s.lastRefill <= z.clock;
    forall z, account, now | z in good && z.clock <= now
      ensures Call(c, z, account, now) in good && Look(z, now) in good
    {
      CallKeepsLevel(c, z, account, now);
    }
    assert Closed(c, good);
  }

  // --------------------------------------------- the deques stand for the history

  /** The decision on the full history: fewer than the limit in the last minute and hour, a
      token in the bucket, and fewer than the account's share in its last minute.  Accounts
      count towards the share once they have got as far as the last test. */
  ghost predicate Admits(c: Config, y: Sys, account: string, now: real)
    requires WellFormed(y.h)
  {
    && CountIn(y.h.times, now - 60.0, now) < c.maxMinute
    && CountIn(y.h.times, now - 3600.0, now) < c.maxHour
    && Level(c, y.h.times, now) >= 1.0
    && CountIn(Of(y.h, account).times, now - 60.0, now) < AccountLimit(c.maxMinute, |y.s.accounts.Keys + {account}|)
  }

  /** `can_proceed` answers exactly as the full history would, however much was pruned. */
  lemma DecisionIsTheHistorys(c: Config, y: Sys, account: string, now: real)
    requires Reachable(c, y) && y.clock <= now
    ensures WellFormed(y.h)
    ensures Grants(c, y.s, account, now) <==> Admits(c, y, account, now)
    ensures |Call(c, y, account, now).h.times| == |y.h.times| + if Grants(c, y.s, account, now) then 1 else 0
  {
    EveryRunIsLawful(c, y);
    EveryRunIsLeveled(c, y);
    CallKeepsLevel(c, y, account, now);
    DecideOnHistory(c, y.s, y.h, y.clock, account, now);
  }

  lemma DecideOnHistory(c: Config, s: State, h: History, clock: real, account: string, now: real)
    requires Inv(c, s, h, clock) && clock <= now
    requires c.maxMinute >= 0 ==> Aged(c, s, now).tokens == Level(c, h.times, now)
    ensures Grants(c, s, account, now) <==> Admits(c, Sys(s, h, clock), account, now)
  {
    AgingKeeps(c, s, h, clock, now);
    WithAccountKeeps(c, Aged(c, s, now), h, account, now);
    SameVerdict(c, s, h, clock, account, now);
  }

  lemma SameVerdict(c: Config, s: State, h: History, clock: real, account: string, now: real)
    requires WellFormed(h)
    requires var aged := Aged(c, s, now);
      && |aged.minute| == CountIn(h.times, now - 60.0, now)
      && |aged.hour| == CountIn(h.times, now - 3600.0, now)
      && |WithAccount(aged, account, now).accounts[account]| == CountIn(Of(h, account).times, now - 60.0, now)
      && (c.maxMinute >= 0 ==> aged.tokens == Level(c, h.times, now))
    ensures Grants(c, s, account, now) <==> Admits(c, Sys(s, h, clock), account, now)
  {
    KeysWith(s.accounts, account, Pruned(AccountWindow(s.accounts, account), now - 60.0));
  }

  lemma KeysWith(accounts: map<string, seq<real>>, account: string, window: seq<real>)
    ensures |accounts[account := window]| == |accounts.Keys + {account}|
  {
    var more := accounts[account := window];
    assert more.Keys == accounts.Keys + {account} && |more.Keys| == |more|;
  }

  /** `status` reports the grants of the last minute and hour. */
  lemma StatusCounts(c: Config, y: Sys, now: real)
    requires Reachable(c, y) && y.clock <= now
    ensures |Look(y, now).s.minute| == CountIn(y.h.times, now - 60.0, now)
    ensures |Look(y, now).s.hour| == CountIn(y.h.times, now - 3600.0, now)
  {
    EveryRunIsLawful(c, y);
    AgingKeeps(c, y.s, y.h, y.clock, now);
  }

  class AdaptiveRateLimiter {
    const config: Config
    var tokens: real
    var lastRefill: real
    var minute: seq<real>
    var hour: seq<real>
    var accounts: map<string, seq<real>>
    ghost var grants: History
    ghost var clock: real

    ghost function View(): Sys
      reads this
    {
      Sys(State(tokens, lastRefill, minute, hour, accounts), grants, clock)
    }

    /** The object is in a state that calls in clock order lead to. */
    ghost predicate Valid()
      reads this
    {
      Reachable(config, View())
    }

    constructor (maxMinute: int, maxHour: int, burst: int, now: real)
      ensures Valid() && config == Config(maxMinute, maxHour, burst)
      ensures View() == Started(config, now)
    {
      config := Config(maxMinute, maxHour, burst);
      tokens, lastRefill, minute, hour, accounts := burst as real, now, [], [], map[];
      grants, clock := NO_GRANTS, now;
      new;
      ReachableStart(config, now);
    }

    method RefillTokens(now: real)
      modifies this`tokens, this`lastRefill
      ensures tokens == Refilled(config, old(tokens), old(lastRefill), now) && lastRefill == now
    {
      var level := tokens + (now - lastRefill) * config.Rate();
      tokens := if config.burst as real <= level then config.burst as real else level;
      lastRefill := now;
    }

    method PruneWindows(now: real)
      modifies this`minute, this`hour
      ensures minute == Pruned(old(minute), now - 60.0) && hour == Pruned(old(hour), now - 3600.0)
    {
      while minute != [] && minute[0] < now - 60.0
        invariant Pruned(minute, now - 60.0) == Pruned(old(minute), now - 60.0) && hour == old(hour)
        decreases |minute|
      {
        minute := minute[1..];
      }
      while hour != [] && hour[0] < now - 3600.0
        invariant minute == Pruned(old(minute), now - 60.0)
        invariant Pruned(hour, now - 3600.0) == Pruned(old(hour), now - 3600.0)
        decreases |hour|
      {
        hour := hour[1..];
      }
    }

    /** Prunes one account's deque, creating it on first use. */
    method PruneAccount(account: string, now: real)
      modifies this`accounts
      ensures accounts == old(accounts)[account := Pruned(AccountWindow(old(accounts), account), now - 60.0)]
    {
      var window := if account in accounts then accounts[account] else [];
      while window != [] && window[0] < now - 60.0
        invariant Pruned(window, now - 60.0) == Pruned(AccountWindow(accounts, account), now - 60.0)
        decreases |window|
      {
        window := window[1..];
      }
      accounts := accounts[account := window];
    }

    /** By `DecisionIsTheHistorys`, true exactly when the whole history admits the call. */
    method CanProceed(account: string, now: real) returns (ok: bool)
      requires Valid() && clock <= now
      modifies this
      ensures Valid()
      ensures ok <==> Grants(config, old(View()).s, account, now)
      ensures View() == Call(config, old(View()), account, now)
    {
      ReachableCall(config, View(), account, now);
      RefillTokens(now);
      PruneWindows(now);
      clock := now;
      if |minute| >= config.maxMinute || |hour| >= config.maxHour || tokens < 1.0 {
        return false;
      }
      PruneAccount(account, now);
      var limit := AccountLimit(config.maxMinute, |accounts|);
      if |accounts[account]| >= limit {
        return false;
      }
      Grant(account, now, limit);
      return true;
    }

    method Grant(account: string, now: real, ghost limit: int)
      requires account in accounts
      modifies this`tokens, this`minute, this`hour, this`accounts, this`grants
      ensures View().s == Granted(old(View()).s, account, now)
      ensures grants == Append(old(grants), now, account, limit)
    {
      tokens := tokens - 1.0;
      minute, hour := minute + [now], hour + [now];
      accounts := accounts[account := accounts[account] + [now]];
      grants := Append(grants, now, account, limit);
    }

    /** By `StatusCounts`, the counts are the grants of the last minute and hour. */
    method Status(now: real) returns (perMinute: nat, perHour: nat)
      requires Valid() && clock <= now
      modifies this`minute, this`hour, this`clock
      ensures Valid()
      ensures View() == Look(old(View()), now) && perMinute == |minute| && perHour == |hour|
    {
      ReachableCall(config, View(), "", now);
      PruneWindows(now);
      clock := now;
      perMinute, perHour := |minute|, |hour|;
    }
  }
}
