/** The alert buffer of database.py and its flushes. */
module AlertBuffer {

  // Alerts wait in memory; a flush takes them all out and either writes them or puts back what
  // still fits.  Alerts go on arriving meanwhile, and flushes may overlap.

  datatype Alert = Alert(messageHash: string, senderId: int, text: string)

  /** An alert and its place among all that were ever accepted; the program does not keep the
      place, and nothing it does depends on it. */
  datatype Item = Item(no: nat, alert: Alert)

  /** The buffer, the batches of the flushes under way, what became of everything, and how
      many alerts have come. */
  datatype State = State(batch: seq<Item>, flights: seq<seq<Item>>,
                         accepted: multiset<Item>, written: multiset<Item>, dropped: multiset<Item>, count: nat)

  datatype Op = Add(alert: Alert) | Take | Written(flight: nat) | Failed(flight: nat)

  const EMPTY := State([], [], multiset{}, multiset{}, multiset{}, 0)

  function Max(a: int, b: int): int {
    if a < b then b else a
  }

  /** `s[:k]`, where a negative `k` counts from the end. */
  function Prefix(s: seq<Item>, k: int): (r: seq<Item>)
    ensures r <= s
    ensures |r| == if k >= |s| then |s| else if k >= 0 then k else Max(0, |s| + k)
  {
    if k >= |s| then s else if k >= 0 then s[..k] else s[..Max(0, |s| + k)]
  }

  /** How many of the oldest alerts make room for a new one. */
  function Evicted(max: int, s: State): (n: nat)
    ensures n <= |s.batch|
  {
    if |s.batch| < max then 0
    else
      var n := Max(1, max / 10);
      if n <= |s.batch| then n else |s.batch|
  }

  function Added(max: int, s: State, a: Alert): State {
    var n, item := Evicted(max, s), Item(s.count, a);
    s.(batch := s.batch[n..] + [item], accepted := s.accepted + multiset{item},
       dropped := s.dropped + multiset(s.batch[..n]), count := s.count + 1)
  }

  function Taken(s: State): State {
    if s.batch == [] then s else s.(batch := [], flights := s.flights + [s.batch])
  }

  function Landed(s: State, k: nat): State
    requires k < |s.flights|
  {
    s.(flights := s.flights[..k] + s.flights[k + 1..])
  }

  function Wrote(s: State, k: nat): State
    requires k < |s.flights|
  {
    Landed(s, k).(written := s.written + multiset(s.flights[k]))
  }

  function Readded(max: int, s: State, k: nat): (r: seq<Item>)
    requires k < |s.flights|
    ensures r <= s.flights[k]
  {
    Prefix(s.flights[k], max - |s.batch|)
  }

  function PutBack(max: int, s: State, k: nat): State
    requires k < |s.flights|
  {
    var back := Readded(max, s, k);
    Landed(s, k).(batch := s.batch + back, dropped := s.dropped + multiset(s.flights[k][|back|..]))
  }

  predicate Enabled(s: State, op: Op) {
    match op
    case Add(_) => true
    case Take => true
    case Written(k) => k < |s.flights|
    case Failed(k) => k < |s.flights|
  }

  function Step(max: int, s: State, op: Op): State
    requires Enabled(s, op)
  {
    match op
    case Add(a) => Added(max, s, a)
    case Take => Taken(s)
    case Written(k) => Wrote(s, k)
    case Failed(k) => PutBack(max, s, k)
  }

  // ------------------------------------------------------------ conservation

  function Flying(flights: seq<seq<Item>>): multiset<Item> {
    if flights == [] then multiset{} else multiset(flights[0]) + Flying(flights[1..])
  }

  /** Every alert accepted is waiting, in a flush, written or dropped, and only once. */
  ghost predicate Conserved(s: State) {
    s.accepted == multiset(s.batch) + Flying(s.flights) + s.written + s.dropped
  }

  lemma {:induction false} FlyingJoin(a: seq<seq<Item>>, b: seq<seq<Item>>)
    ensures Flying(a + b) == Flying(a) + Flying(b)
  {
    if a == [] {
      assert a + b == b;
    } else {
      assert (a + b)[1..] == a[1..] + b;
      FlyingJoin(a[1..], b);
    }
  }

  lemma LandedFlies(s: State, k: nat)
    requires k < |s.flights|
    ensures Flying(s.flights) == Flying(Landed(s, k).flights) + multiset(s.flights[k])
  {
    var a, b := s.flights[..k], s.flights[k + 1..];
    assert s.flights == a + ([s.flights[k]] + b);
    FlyingJoin(a, [s.flights[k]] + b);
    assert ([s.flights[k]] + b)[1..] == b;
    FlyingJoin(a, b);
  }

  lemma SplitAt(s: seq<Item>, n: nat)
    requires n <= |s|
    ensures multiset(s) == multiset(s[..n]) + multiset(s[n..])
  {
    assert s == s[..n] + s[n..];
  }

  lemma AddConserves(max: int, s: State, a: Alert)
    requires Conserved(s)
    ensures Conserved(Added(max, s, a))
  {
    SplitAt(s.batch, Evicted(max, s));
  }

  lemma TakeConserves(s: State)
    requires Conserved(s)
    ensures Conserved(Taken(s))
  {
    FlyingJoin(s.flights, [s.batch]);
    assert [s.batch][1..] == [];
  }

  lemma PutBackConserves(max: int, s: State, k: nat)
    requires Conserved(s) && k < |s.flights|
    ensures Conserved(PutBack(max, s, k))
  {
    LandedFlies(s, k);
    var back := Readded(max, s, k);
    SplitAt(s.flights[k], |back|);
    assert s.flights[k][..|back|] == back;
  }

  lemma StepConserves(max: int, s: State, op: Op)
    requires Enabled(s, op) && Conserved(s)
    ensures Conserved(Step(max, s, op))
  {
    match op
    case Add(a) => AddConserves(max, s, a);
    case Take => TakeConserves(s);
    case Written(k) => LandedFlies(s, k);
    case Failed(k) => PutBackConserves(max, s, k);
  }

  ghost predicate Within(max: int, s: State) {
    |s.batch| <= max
  }

  /** Alerts are dropped only when those waiting and in flushes, with a new one, exceed the
      cap. */
  lemma DropsOnlyOverCap(max: int, s: State, op: Op)
    requires max >= 1 && Enabled(s, op) && Within(max, s) && Step(max, s, op).dropped != s.dropped
    ensures |s.batch| + |Flying(s.flights)| + (if op.Add? then 1 else 0) > max
  {
    if op.Failed? {
      LandedFlies(s, op.flight);
      assert |Flying(s.flights)| >= |s.flights[op.flight]|;
    }
  }

  // ------------------------------------------------------------ whole runs

  ghost predicate Closed(max: int, states: iset<State>) {
    && EMPTY in states
    && forall s, op :: s in states && Enabled(s, op) ==> Step(max, s, op) in states
  }

  ghost predicate Reachable(max: int, s: State) {
    forall states: iset<State> :: Closed(max, states) ==> s in states
  }

  lemma ReachableStep(max: int, s: State, op: Op)
    requires Reachable(max, s) && Enabled(s, op)
    ensures Reachable(max, Step(max, s, op))
  {
  }

  /** Nothing is lost unaccounted for and nothing is counted twice, in any interleaving. */
  lemma EveryRunConserves(max: int, s: State)
    requires Reachable(max, s)
    ensures Conserved(s)
  {
    var good := iset t: State | Conserved(t);
    forall t, op | t in good && Enabled(t, op) ensures Step(max, t, op) in good {
      StepConserves(max, t, op);
    }
    assert Closed(max, good);
  }

  lemma EveryRunStaysWithin(max: int, s: State)
    requires max >= 1 && Reachable(max, s)
    ensures Within(max, s)
  {
    var good := iset t: State | Within(max, t);
    forall t, op | t in good && Enabled(t, op) ensures Step(max, t, op) in good {
    }
    assert Closed(max, good);
  }

  /** The buffer never exceeds its cap exactly when the cap is at least one. */
  lemma CapHoldsIff(max: int)
    ensures (forall s :: Reachable(max, s) ==> Within(max, s)) <==> max >= 1
  {
    if max >= 1 {
      forall s | Reachable(max, s) ensures Within(max, s) {
        EveryRunStaysWithin(max, s);
      }
    } else {
      var op := Add(Alert("", 0, ""));
      ReachableStep(max, EMPTY, op);
      assert !Within(max, Step(max, EMPTY, op));
    }
  }

  // ------------------------------------------------------------- oldest first

  /** Oldest first. */
  ghost predicate Ordered(items: seq<Item>) {
    forall i, j :: 0 <= i < j < |items| ==> items[i].no < items[j].no
  }

  ghost predicate Earlier(items: seq<Item>, count: nat) {
    forall i :: 0 <= i < |items| ==> items[i].no < count
  }

  /** Putting back what fits of flush `k` leaves an ordered buffer ordered: the buffer is empty,
      or nothing fits, or the last alert waiting came before the first one put back. */
  predicate Harmless(max: int, s: State, k: nat)
    requires k < |s.flights|
  {
    var back := Readded(max, s, k);
    s.batch == [] || back == [] || s.batch[|s.batch| - 1].no < back[0].no
  }

  lemma PrefixOrdered(items: seq<Item>, r: seq<Item>)
    requires Ordered(items) && r <= items
    ensures Ordered(r)
  {
    assert forall i :: 0 <= i < |r| ==> r[i] == items[i];
  }

  lemma OrderedJoin(a: seq<Item>, b: seq<Item>)
    requires Ordered(a) && Ordered(b)
    ensures Ordered(a + b) <==> a == [] || b == [] || a[|a| - 1].no < b[0].no
  {
    var all := a + b;
    if a != [] && b != [] {
      assert all[|a| - 1] == a[|a| - 1] && all[|a|] == b[0];
      if a[|a| - 1].no < b[0].no {
        forall i, j | 0 <= i < j < |all| ensures all[i].no < all[j].no {
          if i < |a| <= j {
            assert a[i].no <= a[|a| - 1].no && b[0].no <= b[j - |a|].no;
          }
        }
      }
    } else {
      assert all == a || all == b;
    }
  }

  /** A failed flush keeps the buffer ordered exactly when it is harmless in that sense. */
  lemma PutBackOrderedIff(max: int, s: State, k: nat)
    requires k < |s.flights| && Ordered(s.batch) && Ordered(s.flights[k])
    ensures Ordered(PutBack(max, s, k).batch) <==> Harmless(max, s, k)
  {
    PrefixOrdered(s.flights[k], Readded(max, s, k));
    OrderedJoin(s.batch, Readded(max, s, k));
  }

  /** Everything waiting and in flushes is ordered and came before now. */
  ghost predicate InOrder(s: State) {
    && Ordered(s.batch) && Earlier(s.batch, s.count)
    && forall k :: 0 <= k < |s.flights| ==> Ordered(s.flights[k]) && Earlier(s.flights[k], s.count)
  }

  /** No flush fails in a way that disorders the buffer. */
  predicate Spares(max: int, s: State, op: Op) {
    op.Failed? && op.flight < |s.flights| ==> Harmless(max, s, op.flight)
  }

  lemma AppendOrdered(items: seq<Item>, n: nat, item: Item)
    requires n <= |items| && Ordered(items) && Earlier(items, item.no)
    ensures Ordered(items[n..] + [item]) && Earlier(items[n..] + [item], item.no + 1)
  {
    var kept := items[n..];
    assert forall i :: 0 <= i < |kept| ==> kept[i] == items[n + i];
  }

  lemma LaterStill(items: seq<Item>, count: nat)
    requires Earlier(items, count)
    ensures Earlier(items, count + 1)
  {
  }

  lemma AddKeepsOrder(max: int, s: State, a: Alert)
    requires InOrder(s)
    ensures InOrder(Added(max, s, a))
  {
    AppendOrdered(s.batch, Evicted(max, s), Item(s.count, a));
    forall k | 0 <= k < |s.flights| ensures Earlier(s.flights[k], s.count + 1) {
      LaterStill(s.flights[k], s.count);
    }
  }

  lemma LandKeepsOrder(s: State, k: nat)
    requires InOrder(s) && k < |s.flights|
    ensures InOrder(Landed(s, k))
  {
    var left := Landed(s, k).flights;
    assert forall i :: 0 <= i < |left| ==> left[i] == s.flights[if i < k then i else i + 1];
  }

  lemma PutBackKeepsOrder(max: int, s: State, k: nat)
    requires InOrder(s) && k < |s.flights| && Harmless(max, s, k)
    ensures InOrder(PutBack(max, s, k))
  {
    PutBackOrderedIff(max, s, k);
    LandKeepsOrder(s, k);
    var back := Readded(max, s, k);
    assert forall i :: 0 <= i < |back| ==> back[i] == s.flights[k][i];
  }

  lemma StepKeepsOrder(max: int, s: State, op: Op)
    requires InOrder(s) && Enabled(s, op) && Spares(max, s, op)
    ensures InOrder(Step(max, s, op))
  {
    match op
    case Add(a) => AddKeepsOrder(max, s, a);
    case Take =>
    case Written(k) => LandKeepsOrder(s, k);
    case Failed(k) => PutBackKeepsOrder(max, s, k);
  }

  predicate Link(max: int, tr: seq<State>, ops: seq<Op>, k: nat)
    requires |tr| == |ops| + 1 && k < |ops|
  {
    Enabled(tr[k], ops[k]) && tr[k + 1] == Step(max, tr[k], ops[k])
  }

  ghost predicate IsRun(max: int, tr: seq<State>, ops: seq<Op>) {
    |tr| == |ops| + 1 && tr[0] == EMPTY && forall k: nat :: k < |ops| ==> Link(max, tr, ops, k)
  }

  lemma {:induction false} RunInOrder(max: int, tr: seq<State>, ops: seq<Op>, n: nat)
    requires IsRun(max, tr, ops) && n <= |ops|
    requires forall k :: 0 <= k < n ==> Spares(max, tr[k], ops[k])
    ensures InOrder(tr[n])
  {
    if n > 0 {
      RunInOrder(max, tr, ops, n - 1);
      assert Link(max, tr, ops, n - 1);
      StepKeepsOrder(max, tr[n - 1], ops[n - 1]);
    }
  }

  /** The first failure that is not harmless, if any. */
  lemma {:induction false} FirstHarm(max: int, tr: seq<State>, ops: seq<Op>, n: nat) returns (k: nat)
    requires |tr| == |ops| + 1 && n <= |ops|
    ensures k <= n && (forall i :: 0 <= i < k ==> Spares(max, tr[i], ops[i])) && (k < n ==> !Spares(max, tr[k], ops[k]))
  {
    k := 0;
    while k < n && Spares(max, tr[k], ops[k])
      invariant k <= n && forall i :: 0 <= i < k ==> Spares(max, tr[i], ops[i])
    {
      k := k + 1;
    }
  }

  /** Along a run the buffer is always oldest first exactly when every flush that fails is
      harmless at that moment. */
  lemma OldestFirstIff(max: int, tr: seq<State>, ops: seq<Op>)
    requires IsRun(max, tr, ops)
    ensures (forall n :: 0 <= n <= |ops| ==> Ordered(tr[n].batch))
       <==> (forall k :: 0 <= k < |ops| ==> Spares(max, tr[k], ops[k]))
  {
    var k := FirstHarm(max, tr, ops, |ops|);
    if k < |ops| {
      RunInOrder(max, tr, ops, k);
      assert Link(max, tr, ops, k);
      PutBackOrderedIff(max, tr[k], ops[k].flight);
      assert !Ordered(tr[k + 1].batch);
    } else {
      forall n | 0 <= n <= |ops| ensures Ordered(tr[n].batch) {
        RunInOrder(max, tr, ops, n);
      }
    }
  }

  // --------------------------------------------------- what is dropped

  /** The alerts that a step drops. */
  function DroppedBy(max: int, s: State, op: Op): (d: seq<Item>)
    requires Enabled(s, op)
    ensures Step(max, s, op).dropped == s.dropped + multiset(d)
  {
    match op
    case Add(_) => s.batch[..Evicted(max, s)]
    case Failed(k) => s.flights[k][|Readded(max, s, k)|..]
    case _ => []
  }

  ghost predicate Before(a: seq<Item>, b: seq<Item>) {
    forall i, j :: 0 <= i < |a| && 0 <= j < |b| ==> a[i].no < b[j].no
  }

  /** Whatever the step drops came before everything that then waits. */
  ghost predicate OldestGo(max: int, s: State, op: Op)
    requires Enabled(s, op)
  {
    Before(DroppedBy(max, s, op), Step(max, s, op).batch)
  }

  /** A flush that fails has room for all its alerts and puts them back in order, or has room
      for none of them and all came before those waiting. */
  predicate Fine(max: int, s: State, op: Op) {
    op.Failed? && op.flight < |s.flights| ==>
      var all, back := s.flights[op.flight], Readded(max, s, op.flight);
      if |back| == |all| then Harmless(max, s, op.flight)
      else back == [] && (s.batch == [] || all[|all| - 1].no < s.batch[0].no)
  }

  lemma FineSpares(max: int, s: State, op: Op)
    requires Fine(max, s, op)
    ensures Spares(max, s, op)
  {
  }

  lemma LastBefore(a: seq<Item>, b: seq<Item>)
    requires Ordered(a) && Ordered(b) && a != []
    ensures Before(a, b) <==> b == [] || a[|a| - 1].no < b[0].no
  {
    if b != [] && a[|a| - 1].no < b[0].no {
      forall i, j | 0 <= i < |a| && 0 <= j < |b| ensures a[i].no < b[j].no {
        assert a[i].no <= a[|a| - 1].no && b[0].no <= b[j].no;
      }
    }
  }

  /** A failed flush keeps the order and drops only the oldest exactly when it is fine. */
  lemma FailedIff(max: int, s: State, k: nat)
    requires InOrder(s) && k < |s.flights|
    ensures Ordered(PutBack(max, s, k).batch) && OldestGo(max, s, Failed(k)) <==> Fine(max, s, Failed(k))
  {
    var all, back := s.flights[k], Readded(max, s, k);
    var dropped := all[|back|..];
    PutBackOrderedIff(max, s, k);
    if |back| < |all| {
      assert dropped[0] == all[|back|];
      if back == [] {
        assert dropped == all && s.batch + back == s.batch;
        LastBefore(all, s.batch);
      } else {
        assert (s.batch + back)[|s.batch|] == back[0] == all[0];
      }
    }
  }

  lemma FrontBefore(items: seq<Item>, n: nat, item: Item)
    requires n <= |items| && Ordered(items) && Earlier(items, item.no)
    ensures Before(items[..n], items[n..] + [item])
  {
    var kept := items[n..];
    assert forall j :: 0 <= j < |kept| ==> kept[j] == items[n + j];
  }

  lemma AddDropsOldest(max: int, s: State, a: Alert)
    requires InOrder(s)
    ensures OldestGo(max, s, Add(a))
  {
    FrontBefore(s.batch, Evicted(max, s), Item(s.count, a));
  }

  /** As long as no failure was harmful, what makes room for a new alert is the oldest waiting. */
  lemma EvictsTheOldest(max: int, tr: seq<State>, ops: seq<Op>, n: nat)
    requires IsRun(max, tr, ops) && n < |ops| && ops[n].Add?
    requires forall k :: 0 <= k < n ==> Spares(max, tr[k], ops[k])
    ensures Drops(max, tr, ops, n)
  {
    RunInOrder(max, tr, ops, n);
    AddDropsOldest(max, tr[n], ops[n].alert);
  }

  /** Step `k` of the run drops the oldest. */
  ghost predicate Drops(max: int, tr: seq<State>, ops: seq<Op>, k: nat)
    requires |tr| == |ops| + 1 && k < |ops|
  {
    Enabled(tr[k], ops[k]) && OldestGo(max, tr[k], ops[k])
  }

  /** The buffer is always oldest first and every step drops the oldest. */
  ghost predicate OldestFirst(max: int, tr: seq<State>, ops: seq<Op>)
    requires |tr| == |ops| + 1
  {
    (forall n :: 0 <= n <= |ops| ==> Ordered(tr[n].batch)) && (forall k :: 0 <= k < |ops| ==> Drops(max, tr, ops, k))
  }

  /** Along a run the buffer is always oldest first and every drop, by an addition or by a
      failed flush, takes the oldest, exactly when every flush that fails is fine. */
  lemma OldestGoIff(max: int, tr: seq<State>, ops: seq<Op>)
    requires IsRun(max, tr, ops)
    ensures OldestFirst(max, tr, ops)
       <==> (forall k :: 0 <= k < |ops| ==> Fine(max, tr[k], ops[k]))
  {
    if forall k :: 0 <= k < |ops| ==> Fine(max, tr[k], ops[k]) {
      forall k | 0 <= k < |ops| ensures Spares(max, tr[k], ops[k]) {
        FineSpares(max, tr[k], ops[k]);
      }
      OldestFirstIff(max, tr, ops);
      forall k | 0 <= k < |ops| ensures Drops(max, tr, ops, k) {
        StepIsFine(max, tr, ops, k);
      }
    }
    if OldestFirst(max, tr, ops) {
      OldestFirstIff(max, tr, ops);
      forall k | 0 <= k < |ops| ensures Fine(max, tr[k], ops[k]) {
        StepIsFine(max, tr, ops, k);
      }
    }
  }

  lemma StepIsFine(max: int, tr: seq<State>, ops: seq<Op>, k: nat)
    requires IsRun(max, tr, ops) && k < |ops| && forall i :: 0 <= i < |ops| ==> Spares(max, tr[i], ops[i])
    ensures Drops(max, tr, ops, k) <==> Fine(max, tr[k], ops[k])
  {
    RunInOrder(max, tr, ops, k);
    assert Link(max, tr, ops, k);
    match ops[k]
    case Add(a) => AddDropsOldest(max, tr[k], a);
    case Failed(f) =>
      FailedIff(max, tr[k], f);
      PutBackOrderedIff(max, tr[k], f);
    case _ =>
  }

  /** At most one flush is under way, and its alerts came before those waiting. */
  ghost predicate Solo(max: int, s: State) {
    && |s.flights| <= 1 && |s.batch| <= max
    && (s.flights != [] ==> |s.flights[0]| <= max && Before(s.flights[0], s.batch))
  }

  lemma StaysBefore(a: seq<Item>, items: seq<Item>, n: nat, item: Item)
    requires n <= |items| && Before(a, items) && Earlier(a, item.no)
    ensures Before(a, items[n..] + [item])
  {
    var kept := items[n..];
    assert forall j :: 0 <= j < |kept| ==> kept[j] == items[n + j];
  }

  lemma StaysSolo(max: int, s: State, op: Op)
    requires max >= 1 && InOrder(s) && Solo(max, s) && Enabled(s, op) && |Step(max, s, op).flights| <= 1
    ensures Solo(max, Step(max, s, op))
  {
    if op.Add? && s.flights != [] {
      StaysBefore(s.flights[0], s.batch, Evicted(max, s), Item(s.count, op.alert));
    }
  }

  /** Flushes never overlap. */
  ghost predicate OneAtATime(tr: seq<State>) {
    forall i :: 0 <= i < |tr| ==> |tr[i].flights| <= 1
  }

  lemma {:induction false} RunIsSolo(max: int, tr: seq<State>, ops: seq<Op>, n: nat)
    requires max >= 1 && IsRun(max, tr, ops) && n <= |ops| && OneAtATime(tr)
    requires forall k :: 0 <= k < n ==> Spares(max, tr[k], ops[k])
    ensures Solo(max, tr[n])
  {
    if n > 0 {
      var s, op := tr[n - 1], ops[n - 1];
      RunIsSolo(max, tr, ops, n - 1);
      RunInOrder(max, tr, ops, n - 1);
      assert Link(max, tr, ops, n - 1);
      assert tr[n] == Step(max, s, op) && |tr[n].flights| <= 1;
      StaysSolo(max, s, op);
    }
  }

  /** A flush that fails finds no alert waiting, or no room. */
  predicate Clears(max: int, s: State, op: Op) {
    op.Failed? && op.flight < |s.flights| ==> s.batch == [] || Readded(max, s, op.flight) == []
  }

  lemma SoloClears(max: int, s: State, op: Op)
    requires Solo(max, s)
    ensures Spares(max, s, op) <==> Clears(max, s, op)
  {
    if op.Failed? && op.flight < |s.flights| && Readded(max, s, op.flight) != [] && s.batch != [] {
      assert Readded(max, s, 0)[0] == s.flights[0][0];
    }
  }

  lemma SoloIsFine(max: int, s: State, op: Op)
    requires InOrder(s) && Solo(max, s) && Spares(max, s, op)
    ensures Fine(max, s, op)
  {
    SoloClears(max, s, op);
  }

  /** Where flushes never overlap, that is exactly when every failed flush finds the buffer
      empty or no room. */
  lemma OneFlushIff(max: int, tr: seq<State>, ops: seq<Op>)
    requires max >= 1 && IsRun(max, tr, ops) && OneAtATime(tr)
    ensures OldestFirst(max, tr, ops)
       <==> (forall k :: 0 <= k < |ops| ==> Clears(max, tr[k], ops[k]))
  {
    OldestGoIff(max, tr, ops);
    var n := FirstHarm(max, tr, ops, |ops|);
    forall k | 0 <= k <= n && k < |ops| ensures Spares(max, tr[k], ops[k]) <==> Clears(max, tr[k], ops[k]) {
      RunIsSolo(max, tr, ops, k);
      SoloClears(max, tr[k], ops[k]);
    }
    forall k | 0 <= k < |ops| && Fine(max, tr[k], ops[k]) ensures Spares(max, tr[k], ops[k]) {
      FineSpares(max, tr[k], ops[k]);
    }
    if n == |ops| {
      forall k | 0 <= k < |ops| ensures Fine(max, tr[k], ops[k]) {
        RunInOrder(max, tr, ops, k);
        RunIsSolo(max, tr, ops, k);
        SoloIsFine(max, tr[k], ops[k]);
      }
    }
  }

  lemma AddsOne(max: int, s: State, a: Alert)
    requires |s.batch| < max
    ensures var t := Added(max, s, a);
      && t.batch == s.batch + [Item(s.count, a)] && t.flights == s.flights && t.count == s.count + 1
      && t.dropped == s.dropped
  {
  }

  /** After one harmful failure the next alert to make room need not be the oldest. */
  lemma FailureReorders(max: int, a: Alert, b: Alert)
    requires max >= 2
    ensures var s1 := Step(max, Step(max, EMPTY, Add(a)), Take);
      var s2 := Step(max, s1, Add(b));
      && Enabled(s2, Failed(0)) && !Spares(max, s2, Failed(0))
      && Step(max, s2, Failed(0)).batch == [Item(1, b), Item(0, a)]
      && (max == 2 ==>
            var s4 := Step(max, Step(max, s2, Failed(0)), Add(a));
            s4.dropped == multiset{Item(1, b)} && s4.batch == [Item(0, a), Item(2, a)])
  {
    var s0 := Added(max, EMPTY, a);
    AddsOne(max, EMPTY, a);
    assert s0.batch == [Item(0, a)];
    var s1 := Taken(s0);
    assert s1.batch == [] && s1.flights == [[Item(0, a)]];
    AddsOne(max, s1, b);
    NewerGoesFirst(max, Added(max, s1, b), Item(1, b), Item(0, a), a);
  }

  lemma NewerGoesFirst(max: int, s: State, x: Item, y: Item, a: Alert)
    requires max >= 2 && s.batch == [x] && s.flights == [[y]] && y.no < x.no && s.count == 2 && s.dropped == multiset{}
    ensures var t := PutBack(max, s, 0);
      && !Spares(max, s, Failed(0)) && t.batch == [x, y]
      && (max == 2 ==> Added(max, t, a).dropped == multiset{x} && Added(max, t, a).batch == [y, Item(2, a)])
  {
    var t := PutBack(max, s, 0);
    assert Readded(max, s, 0) == [y] && t.batch == [x, y] && t.dropped == multiset{};
    assert [x, y][..1] == [x] && [x, y][1..] == [y];
  }

  /** Where flushes overlap, harmless failures are not enough: of three alerts the newest is
      dropped, though each of two flushes that fail keeps the buffer oldest first. */
  lemma OverlapDropsTheNewest(a: Alert)
    ensures var s1 := Step(2, Step(2, EMPTY, Add(a)), Take);
      var s2 := Step(2, Step(2, Step(2, s1, Add(a)), Add(a)), Take);
      var s3 := Step(2, s2, Failed(0));
      && Spares(2, s2, Failed(0)) && Spares(2, s3, Failed(0)) && !Fine(2, s3, Failed(0))
      && Step(2, s3, Failed(0)).batch == [Item(0, a), Item(1, a)]
      && Step(2, s3, Failed(0)).dropped == multiset{Item(2, a)}
  {
    var s0 := Added(2, EMPTY, a);
    AddsOne(2, EMPTY, a);
    assert s0.batch == [Item(0, a)];
    var s1 := Taken(s0);
    assert s1.batch == [] && s1.flights == [[Item(0, a)]];
    AddsOne(2, s1, a);
    AddsOne(2, Added(2, s1, a), a);
    var s := Added(2, Added(2, s1, a), a);
    assert s.batch == [Item(1, a), Item(2, a)];
    BothPutBack(Taken(s), Item(0, a), Item(1, a), Item(2, a));
  }

  lemma BothPutBack(s: State, x: Item, y: Item, z: Item)
    requires s.batch == [] && s.flights == [[x], [y, z]] && s.dropped == multiset{} && x.no < y.no < z.no
    ensures var t := PutBack(2, s, 0);
      && Spares(2, s, Failed(0)) && t.flights == [[y, z]] && Spares(2, t, Failed(0)) && !Fine(2, t, Failed(0))
      && PutBack(2, t, 0).batch == [x, y] && PutBack(2, t, 0).dropped == multiset{z}
  {
    var t := PutBack(2, s, 0);
    assert t.batch == [x] && t.flights == [[y, z]] && t.dropped == multiset{};
    assert Readded(2, t, 0) == [y] && [y, z][1..] == [z];
  }

  class AlertStore {
    const maxSize: int
    var batch: seq<Item>
    var count: nat
    ghost var flights: seq<seq<Item>>
    ghost var accepted: multiset<Item>
    ghost var written: multiset<Item>
    ghost var dropped: multiset<Item>

    ghost function View(): State
      reads this
    {
      State(batch, flights, accepted, written, dropped, count)
    }

    /** The object is in a state that adding and flushing lead to. */
    ghost predicate Valid()
      reads this
    {
      Reachable(maxSize, View())
    }

    constructor (maxSize: int)
      ensures Valid() && this.maxSize == maxSize && View() == EMPTY
    {
      this.maxSize := maxSize;
      batch, flights, accepted, written, dropped, count := [], [], multiset{}, multiset{}, multiset{}, 0;
      new;
    }

    method AddAlert(a: Alert)
      requires Valid()
      modifies this
      ensures Valid() && View() == Added(maxSize, old(View()), a)
      ensures var n :=
          if |old(batch)| < maxSize || old(batch) == [] then 0 else if maxSize < 20 then 1 else maxSize / 10;
        && n <= |old(batch)| && batch == old(batch)[n..] + [Item(old(count), a)] && count == old(count) + 1
        && dropped == old(dropped) + multiset(old(batch)[..n]) && flights == old(flights) && written == old(written)
    {
      ReachableStep(maxSize, View(), Add(a));
      ghost var s := View();
      var n := 0;
      if |batch| >= maxSize {
        var count := Max(1, maxSize / 10);
        n := if count <= |batch| then count else |batch|;
      }
      assert n == Evicted(maxSize, s);
      dropped := dropped + multiset(batch[..n]);
      batch := batch[n..] + [Item(count, a)];
      accepted := accepted + multiset{Item(count, a)};
      count := count + 1;
      assert View() == Added(maxSize, s, a);
    }

    /** The start of a flush; an empty buffer is left alone. */
    method TakeBatch() returns (taken: seq<Item>)
      requires Valid()
      modifies this
      ensures Valid() && View() == Taken(old(View())) && taken == old(batch)
      ensures batch == [] && flights == (if taken == [] then old(flights) else old(flights) + [taken])
      ensures dropped == old(dropped) && written == old(written)
    {
      ReachableStep(maxSize, View(), Take);
      taken := batch;
      if batch != [] {
        flights := flights + [batch];
        batch := [];
      }
    }

    /** The end of a flush whose write succeeded. */
    method FlushWritten(taken: seq<Item>, ghost k: nat)
      requires Valid() && k < |flights| && flights[k] == taken
      modifies this
      ensures Valid() && View() == Wrote(old(View()), k)
      ensures batch == old(batch) && written == old(written) + multiset(taken) && dropped == old(dropped)
    {
      ReachableStep(maxSize, View(), Written(k));
      written := written + multiset(taken);
      flights := flights[..k] + flights[k + 1..];
    }

    /** The end of a flush whose write failed: what fits goes back, one by one. */
    method FlushFailed(taken: seq<Item>, ghost k: nat)
      requires Valid() && k < |flights| && flights[k] == taken
      modifies this
      ensures Valid() && View() == PutBack(maxSize, old(View()), k)
      ensures var room := maxSize - |old(batch)|;
        if room >= |taken| then batch == old(batch) + taken && dropped == old(dropped)
        else room >= 0 ==> batch == old(batch) + taken[..room] && dropped == old(dropped) + multiset(taken[room..])
      ensures written == old(written)
    {
      ReachableStep(maxSize, View(), Failed(k));
      var available := maxSize - |batch|;
      var readd := Prefix(taken, available);
      dropped := dropped + multiset(taken[|readd|..]);
      flights := flights[..k] + flights[k + 1..];
      ghost var before := batch;
      for i := 0 to |readd|
        invariant batch == before + readd[..i]
        invariant flights == old(flights[..k] + flights[k + 1..])
          && written == old(written) && accepted == old(accepted) && count == old(count)
        invariant dropped == old(dropped) + multiset(taken[|readd|..])
      {
        batch := batch + [readd[i]];
      }
      assert readd[..|readd|] == readd;
    }
  }
}
