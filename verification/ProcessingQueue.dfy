/** The queue operations of database.py, SQLite branch, as methods. */
module ProcessingQueue {
  import opened Options
  import opened WorkQueue
  import Sets

  // Each operation is one step under `_queue_lock`.  Every method is proved to be a step of the
  // transition system in `WorkQueue`, so what is proved there of every run holds of every
  // sequence of calls; `Valid` adds that the size mirror is the row count.

  datatype Claim = NoClaim | Claim(id: int, fields: map<string, Json>)

  datatype Outcome = Skipped | Recovered | Dead

  /** Both selections always find a row: the orders are total. */
  lemma {:induction false} FindNext(rows: map<int, Row>, ids: set<int>) returns (best: int)
    requires ids != {} && ids <= rows.Keys
    ensures best in ids && forall j :: j in ids ==> PopsFirst(rows[best], rows[j])
    decreases |ids|
  {
    var first := Sets.Pick(ids);
    best := first;
    if ids - {first} == {} {
      assert ids == {first};
    } else {
      var other := FindNext(rows, ids - {first});
      if !PopsFirst(rows[first], rows[other]) {
        best := other;
      }
      forall j | j in ids ensures PopsFirst(rows[best], rows[j]) {
        assert j == first || j in ids - {first};
      }
    }
  }

  lemma {:induction false} FindLeast(rows: map<int, Row>, ids: set<int>) returns (best: int)
    requires ids != {} && ids <= rows.Keys
    ensures best in ids && forall j :: j in ids ==> EvictsFirst(rows[best], rows[j])
    decreases |ids|
  {
    var first := Sets.Pick(ids);
    best := first;
    if ids - {first} == {} {
      assert ids == {first};
    } else {
      var other := FindLeast(rows, ids - {first});
      if !EvictsFirst(rows[first], rows[other]) {
        best := other;
      }
      forall j | j in ids ensures EvictsFirst(rows[best], rows[j]) {
        assert j == first || j in ids - {first};
      }
    }
  }

  /** The configured attempt limit, where 0 stands for the default. */
  function AttemptLimit(configured: int): int {
    if configured == 0 then 3 else Max(1, configured)
  }

  /** Rows claimed before this are stale; the age is at least five seconds. */
  function RecoverCutoff(maxAge: int, now: int): int {
    now - Max(5, maxAge)
  }

  /** Rows inserted before this are purged; the age is at least a minute. */
  function PurgeCutoff(maxAge: int, now: int): int {
    now - Max(60, maxAge)
  }

  /** A row that survives a recovery pass. */
  function AfterSweep(r: Row, swept: bool): Row {
    if swept then Requeued(r, MarkRecovered(r.payload)) else r
  }

  /** No row has a lower priority, and none of the same priority is older. */
  ghost predicate GoesFirst(rows: map<int, Row>, i: int) {
    i in rows && forall j :: j in rows ==>
      rows[i].priority < rows[j].priority
      || (rows[i].priority == rows[j].priority && rows[i].createdAt <= rows[j].createdAt)
  }

  lemma AddEffect(c: Config, s: State, payload: Payload, priority: int, now: int, victim: int)
    requires Inv(c, s) && Enabled(c, s, Add(payload, priority, now, victim))
    ensures var full, t := |s.rows| >= c.capacity && s.rows != map[], Step(c, s, Add(payload, priority, now, victim));
      && s.nextId in t.rows
      && if full then GoesFirst(s.rows, victim) && t.rows == (s.rows - {victim})[s.nextId := t.rows[s.nextId]]
         else t.rows == s.rows[s.nextId := t.rows[s.nextId]]
  {
  }

  /** What a recovered row holds: an object gains one field and keeps its others, text that does
      not parse becomes an object of that field alone, anything else stays. */
  ghost predicate MarkedAs(before: Payload, after: Payload) {
    match before
    case Object(f) =>
      && after.Object? && after.fields.Keys == f.Keys + {"_recovered"} && after.fields["_recovered"] == Num(1)
      && forall k :: k in f && k != "_recovered" ==> after.fields[k] == f[k]
    case Garbled(_) => after == Object(map["_recovered" := Num(1)])
    case NonObject(_) => after == before
  }

  /** Row `i` after a recovery pass with the given least age in seconds: claimed longer ago than
      this, it is pending again or, at the attempt limit, gone; otherwise it is as it was. */
  ghost predicate RecoveredAs(before: map<int, Row>, after: map<int, Row>, i: int, limit: int, age: int, now: int)
    requires i in before
  {
    var r := before[i];
    if r.status == InFlight && r.claimedAt.Some? && now - r.claimedAt.value > age then
      if r.attempts >= limit then i !in after
      else
        && i in after && MarkedAs(r.payload, after[i].payload)
        && after[i] == Row(after[i].payload, r.priority, r.createdAt, Pending, None, r.attempts + 1)
    else i in after && after[i] == r
  }

  /** A recoverer working through the rows it has read, undisturbed. */
  function Pass(c: Config, s: State, snaps: seq<Snap>): State {
    if snaps == [] then s else SweepOne(c, Pass(c, s, snaps[..|snaps| - 1]), snaps[|snaps| - 1])
  }

  /** `snaps` is what the database returns: each of the rows `ids` once, in some order. */
  ghost predicate Lists(snaps: seq<Snap>, rows: map<int, Row>, ids: set<int>) {
    && ids <= rows.Keys
    && |snaps| == |ids|
    && (forall k :: 0 <= k < |snaps| ==> snaps[k].id in ids && snaps[k] == SnapOf(snaps[k].id, rows[snaps[k].id]))
    && (forall k, m :: 0 <= k < m < |snaps| ==> snaps[k].id != snaps[m].id)
    && (forall i :: i in ids ==> exists k :: 0 <= k < |snaps| && snaps[k].id == i)
  }

  predicate Done(snaps: seq<Snap>, n: nat, i: int)
    requires n <= |snaps|
  {
    exists k :: 0 <= k < n && snaps[k].id == i
  }

  /** The table after the first `n` rows of the list: those at the attempt limit are gone,
      the others pending again with their payload marked, every other row untouched. */
  ghost predicate Swept(c: Config, before: map<int, Row>, after: map<int, Row>, snaps: seq<Snap>, n: nat)
    requires n <= |snaps|
  {
    && (forall i :: i in after <==> i in before && (Done(snaps, n, i) ==> before[i].attempts < c.maxAttempts))
    && (forall i :: i in after ==> after[i] == AfterSweep(before[i], Done(snaps, n, i)))
  }

  lemma DoneNext(snaps: seq<Snap>, n: nat, i: int)
    requires n < |snaps|
    ensures Done(snaps, n + 1, i) <==> Done(snaps, n, i) || snaps[n].id == i
  {
  }

  /** The next listed row still matches, and sweeping it moves it and no other. */
  lemma SweptNext(c: Config, s: State, mid: State, snaps: seq<Snap>, n: nat)
    requires n < |snaps| && snaps[n].id in s.rows && Swept(c, s.rows, mid.rows, snaps, n) && snaps[n] in mid.seen
    requires snaps[n] == SnapOf(snaps[n].id, s.rows[snaps[n].id]) && s.rows[snaps[n].id].status == InFlight
    requires !Done(snaps, n, snaps[n].id)
    ensures Matches(mid.rows, snaps[n]) && Swept(c, s.rows, SweepOne(c, mid, snaps[n]).rows, snaps, n + 1)
  {
    forall i ensures Done(snaps, n + 1, i) <==> Done(snaps, n, i) || snaps[n].id == i {
      DoneNext(snaps, n, i);
    }
  }

  /** Nothing in a pass is skipped, and after it exactly the listed rows have moved. */
  lemma {:induction false} PassSweeps(c: Config, s: State, ids: set<int>, snaps: seq<Snap>, n: nat)
    requires Lists(snaps, s.rows, ids) && n <= |snaps|
    requires forall k :: 0 <= k < |snaps| ==> snaps[k] in s.seen && s.rows[snaps[k].id].status == InFlight
    ensures var t := Pass(c, s, snaps[..n]);
      && t.seen == s.seen && Swept(c, s.rows, t.rows, snaps, n)
      && (n < |snaps| ==> Matches(t.rows, snaps[n]))
  {
    if n > 0 {
      PassSweeps(c, s, ids, snaps, n - 1);
      assert snaps[..n][..n - 1] == snaps[..n - 1];
      SweptNext(c, s, Pass(c, s, snaps[..n - 1]), snaps, n - 1);
    }
    if n < |snaps| {
      assert !Done(snaps, n, snaps[n].id);
    }
  }

  /** An undisturbed recovery pass, as a whole: stale rows below the limit are pending again,
      stale rows at the limit are gone, every other row is as it was, and none is new. */
  lemma RecoveryMovesExactlyTheStale(c: Config, s: State, cutoff: int, snaps: seq<Snap>, i: int)
    requires Lists(snaps, s.rows, StaleIds(s.rows, cutoff))
    ensures var t := Pass(c, Step(c, s, Read(cutoff)), snaps);
      && (i !in s.rows ==> i !in t.rows)
      && (i in s.rows && !IsStale(s.rows[i], cutoff) ==> i in t.rows && t.rows[i] == s.rows[i])
      && (i in s.rows && IsStale(s.rows[i], cutoff) && s.rows[i].attempts < c.maxAttempts ==>
            i in t.rows && t.rows[i] == Requeued(s.rows[i], MarkRecovered(s.rows[i].payload)))
      && (i in s.rows && IsStale(s.rows[i], cutoff) && s.rows[i].attempts >= c.maxAttempts ==> i !in t.rows)
  {
    var start := Step(c, s, Read(cutoff));
    forall k | 0 <= k < |snaps| ensures snaps[k] in start.seen {
      assert snaps[k] == SnapOf(snaps[k].id, s.rows[snaps[k].id]);
    }
    assert snaps[..|snaps|] == snaps;
    PassSweeps(c, start, StaleIds(s.rows, cutoff), snaps, |snaps|);
    assert Done(snaps, |snaps|, i) <==> i in StaleIds(s.rows, cutoff);
  }

  lemma RecoveryIs(c: Config, s: State, maxAge: int, now: int, snaps: seq<Snap>)
    requires Lists(snaps, s.rows, StaleIds(s.rows, RecoverCutoff(maxAge, now)))
    ensures var t := Pass(c, Step(c, s, Read(RecoverCutoff(maxAge, now))), snaps);
      && t.rows.Keys <= s.rows.Keys
      && forall i :: i in s.rows ==>
        RecoveredAs(s.rows, t.rows, i, c.maxAttempts, if maxAge < 5 then 5 else maxAge, now)
  {
    var cutoff := RecoverCutoff(maxAge, now);
    var t := Pass(c, Step(c, s, Read(cutoff)), snaps);
    forall i ensures i !in s.rows ==> i !in t.rows
      ensures i in s.rows ==> RecoveredAs(s.rows, t.rows, i, c.maxAttempts, if maxAge < 5 then 5 else maxAge, now)
    {
      RecoveryMovesExactlyTheStale(c, s, cutoff, snaps, i);
    }
  }

  class EventQueue {
    const config: Config
    const reconcileEvery: int        // at least 1, as the source clamps it
    var rows: map<int, Row>
    var nextId: int
    var letters: seq<DeadLetter>
    var mirror: int                  // _queue_size_mirror
    var mirrorDirty: bool
    var healthy: bool
    var inserts: nat
    var evictions: nat
    ghost var seen: set<Snap>
    ghost var gone: map<int, Departure>

    ghost function View(): State
      reads this
    {
      State(rows, nextId, letters, seen, gone)
    }

    ghost predicate Valid()
      reads this
    {
      && Reachable(config, View())
      && Mirrored()
      && 1 <= reconcileEvery
    }

    /** The mirror is the row count, or known not to be reliable. */
    ghost predicate Mirrored()
      reads this
    {
      mirrorDirty || mirror == |rows|
    }

    constructor (capacity: int, maxAttempts: int, reconcileEvery: int)
      ensures Valid() && View() == EMPTY && healthy && !mirrorDirty
      ensures config.capacity == capacity
      ensures config.maxAttempts == if maxAttempts == 0 then 3 else if maxAttempts < 1 then 1 else maxAttempts
    {
      config := Config(capacity, AttemptLimit(maxAttempts));
      this.reconcileEvery := Max(1, reconcileEvery);
      rows, nextId, letters := map[], 1, [];
      mirror, mirrorDirty, healthy, inserts, evictions := 0, false, true, 0, 0;
      seen, gone := {}, map[];
    }

    /** A new process connects to the table that others, with the same limits, left behind;
        `primed` says whether its rows could be counted. */
    constructor Connect(c: Config, reconcileEvery: int, rows: map<int, Row>, nextId: int, letters: seq<DeadLetter>,
                        primed: bool, ghost past: State)
      requires Reachable(c, past) && past.rows == rows && past.nextId == nextId && past.letters == letters
      ensures Valid() && View() == past && config == c && healthy && mirrorDirty == !primed
    {
      config := c;
      this.reconcileEvery := Max(1, reconcileEvery);
      this.rows, this.nextId, this.letters := rows, nextId, letters;
      mirror, mirrorDirty := if primed then |rows| else 0, !primed;
      healthy, inserts, evictions := true, 0, 0;
      seen, gone := past.seen, past.gone;
    }

    /** Inserts unconditionally; at capacity it first evicts a least row by priority and
        age, in flight or not.  Returns the new row's id, or -2 when the database is
        marked unhealthy. */
    method AddToQueue(payload: Payload, priority: int, now: int) returns (id: int)
      requires Valid()
      modifies this
      ensures Valid() && healthy == old(healthy)
      ensures !healthy ==> id == -2 && View() == old(View())
      ensures healthy ==> id == old(nextId) && id in rows && rows[id] == Row(payload, priority, now, Pending, None, 0)
      ensures healthy ==> var full := |old(rows)| >= config.capacity && old(rows) != map[];
        if !full then rows == old(rows)[id := rows[id]]
        else exists victim :: GoesFirst(old(rows), victim) && rows == (old(rows) - {victim})[id := rows[id]]
      ensures healthy ==> exists victim ::
        && Enabled(config, old(View()), Add(payload, priority, now, victim))
        && View() == Step(config, old(View()), Add(payload, priority, now, victim))
      ensures healthy ==> inserts == old(inserts) + 1 && mirror == |rows| && !mirrorDirty
      ensures healthy ==> evictions - old(evictions) == if |old(rows)| >= config.capacity then 1 else 0
    {
      if !healthy {
        return -2;
      }
      ghost var before := View();
      Reconcile();
      ghost var victim := MakeRoom();
      ghost var e := Add(payload, priority, now, victim);
      AddStep(config, before, View(), payload, priority, now, victim);
      ReachableStep(config, before, e);
      NextIdIsFresh(config, before);
      ReachableInv(config, before);
      AddEffect(config, before, payload, priority, now, victim);
      id := InsertRow(Fresh(payload, priority, now));
      assert Enabled(config, before, e) && View() == Step(config, before, e);
    }

    method InsertRow(r: Row) returns (id: int)
      requires mirror == |rows| && nextId !in rows
      modifies this`rows, this`nextId, this`mirror, this`inserts
      ensures View() == Insert(old(View()), r) && id == old(nextId) && rows[id] == r
      ensures mirror == |rows| && inserts == old(inserts) + 1
    {
      UpdateSize(rows, nextId, r);
      id := nextId;
      rows := rows[id := r];
      nextId := nextId + 1;
      mirror := mirror + 1;
      inserts := inserts + 1;
    }

    /** Every `reconcileEvery` inserts, or after a failure, the mirror is counted afresh. */
    method Reconcile()
      requires 1 <= reconcileEvery
      modifies this`mirror, this`mirrorDirty
      ensures mirror == if old(mirrorDirty) || inserts % reconcileEvery == 0 then |rows| else old(mirror)
      ensures !mirrorDirty
    {
      if mirrorDirty || inserts % reconcileEvery == 0 {
        mirror := |rows|;
        mirrorDirty := false;
      }
    }

    /** The eviction at capacity, counted even where there is no row to delete; the mirror
        never goes below zero. */
    method MakeRoom() returns (ghost victim: int)
      requires mirror == |rows|
      modifies this`rows, this`mirror, this`gone, this`evictions
      ensures mirror == |rows| && rows.Keys <= old(rows.Keys)
      ensures var full := |old(rows)| >= config.capacity && old(rows) != map[];
        && (full ==> IsLeast(old(rows), victim) && View() == Remove(old(View()), {victim}, Evicted))
        && (!full ==> View() == old(View()))
        && evictions == old(evictions) + if |old(rows)| >= config.capacity then 1 else 0
    {
      victim := 0;
      if mirror >= config.capacity {
        if rows != map[] {
          ghost var first := FindLeast(rows, rows.Keys);
          assert IsLeast(rows, first);
          var least :| least in rows && IsLeast(rows, least);
          victim := least;
          RemoveOne(View(), victim, Evicted);
          gone := gone[least := Departure(Evicted, rows[least])];
          rows := rows - {least};
        }
        mirror := Max(0, mirror - 1);
        evictions := evictions + 1;
      }
    }

    /** Claims the pending row of highest priority, oldest first.  The worker gets the stored
        object, every field as it was, with the row's id added where it had none. */
    method PopFromQueue(now: int) returns (claim: Claim)
      requires Valid()
      modifies this`rows
      ensures Valid()
      ensures claim.NoClaim? <==> forall i :: i in old(rows) ==> old(rows)[i].status != Pending
      ensures claim.NoClaim? ==> rows == old(rows)
      ensures claim.Claim? ==>
        && Enabled(config, old(View()), Pop(claim.id, now))
        && View() == Step(config, old(View()), Pop(claim.id, now))
      ensures claim.Claim? ==>
        && claim.id in old(rows) && old(rows)[claim.id].status == Pending
        && rows == old(rows)[claim.id := rows[claim.id]]
        && forall j :: j in old(rows) && old(rows)[j].status == Pending ==>
          var a, b := old(rows)[claim.id], old(rows)[j];
          a.priority > b.priority || (a.priority == b.priority && a.createdAt <= b.createdAt)
      ensures claim.Claim? ==>
        var r := old(rows)[claim.id];
        rows[claim.id] == Row(r.payload, r.priority, r.createdAt, InFlight, Some(now), r.attempts + 1)
      ensures claim.Claim? ==>
        match old(rows)[claim.id].payload
        case Object(f) =>
          && claim.fields.Keys == f.Keys + {"_queue_id"} && (forall k :: k in f ==> claim.fields[k] == f[k])
          && ("_queue_id" !in f ==> claim.fields["_queue_id"] == Num(claim.id))
        case Garbled(_) => claim.fields == map["_queue_id" := Num(claim.id)]
        case NonObject(_) => claim.fields == map[]
    {
      var pending := set i | i in rows && rows[i].status == Pending;
      if pending == {} {
        assert forall i :: i in rows && rows[i].status == Pending ==> i in pending;
        return NoClaim;
      }
      ghost var first := FindNext(rows, pending);
      assert IsNext(rows, first);
      var id :| id in rows && IsNext(rows, id);
      ReachableStep(config, View(), Pop(id, now));
      claim := Claim(id, ClaimFields(id, rows[id].payload));
      UpdateSize(rows, id, Claimed(rows[id], now));
      rows := rows[id := Claimed(rows[id], now)];
    }

    /** Deletes the row whatever its status; true exactly when there was one.  What does not
        stand for a number is no row. */
    method AckQueueEvent(event: Json, intOf: string -> Option<int>) returns (deleted: bool)
      requires Valid()
      modifies this
      ensures Valid() && healthy == old(healthy)
      ensures var id := AsInt(event, intOf);
        && View() == (if id.Some? then Step(config, old(View()), Ack(id.value)) else old(View()))
        && (deleted <==> id.Some? && id.value in old(rows))
      ensures deleted <==> exists id :: id in old(rows) && Means(event, id, intOf)
      ensures forall id :: id in rows <==> id in old(rows) && !Means(event, id, intOf)
    {
      forall id ensures AsInt(event, intOf) == Some(id) <==> Means(event, id, intOf) {
        AsIntMeans(event, id, intOf);
      }
      var id := AsInt(event, intOf);
      deleted := id.Some? && id.value in rows;
      if deleted {
        ReachableStep(config, View(), Ack(id.value));
        RemoveOne(View(), id.value, Acked);
        gone := gone[id.value := Departure(Acked, rows[id.value])];
        rows := rows - {id.value};
        mirror := Max(0, mirror - 1);
      }
    }

    /** One row of a recoverer's list: dead-letter at the attempt limit, requeue below it,
        and touch nothing when the row has moved on since the read. */
    method SweepRow(sn: Snap) returns (outcome: Outcome)
      requires Valid() && sn in seen
      modifies this
      ensures Valid() && seen == old(seen) && nextId == old(nextId) && healthy == old(healthy)
      ensures View() == SweepOne(config, old(View()), sn)
      ensures outcome ==
        if !(sn.id in old(rows) && old(rows)[sn.id].status == InFlight && old(rows)[sn.id].attempts == sn.attempts)
        then Skipped else if sn.attempts >= config.maxAttempts then Dead else Recovered
      ensures outcome.Dead? ==>
        rows == old(rows) - {sn.id} && letters == old(letters) + [DeadLetter(sn.payload, sn.attempts)]
      ensures outcome.Recovered? ==>
        var r := old(rows)[sn.id];
        && sn.id in rows && rows == old(rows)[sn.id := rows[sn.id]] && letters == old(letters)
        && rows[sn.id] == Row(rows[sn.id].payload, r.priority, r.createdAt, Pending, None, r.attempts + 1)
        && MarkedAs(sn.payload, rows[sn.id].payload)
      ensures outcome.Skipped? ==> rows == old(rows) && letters == old(letters)
    {
      ReachableStep(config, View(), Sweep(sn));
      if !Matches(rows, sn) {
        return Skipped;
      }
      if sn.attempts >= config.maxAttempts {
        RemoveOne(View(), sn.id, DeadLettered);
        letters := letters + [DeadLetter(sn.payload, sn.attempts)];
        gone := gone[sn.id := Departure(DeadLettered, rows[sn.id])];
        rows := rows - {sn.id};
        mirror := Max(0, mirror - 1);
        return Dead;
      }
      UpdateSize(rows, sn.id, Requeued(rows[sn.id], MarkRecovered(sn.payload)));
      rows := rows[sn.id := Requeued(rows[sn.id], MarkRecovered(sn.payload))];
      return Recovered;
    }

    /** A recovery pass over the rows its SELECT returned (`snaps`, in flight for longer
        than the age, at least five seconds), with nothing in between: by `PassSweeps` none
        is skipped and exactly those rows move. */
    method RecoverStaleInflight(maxAge: int, now: int, snaps: seq<Snap>) returns (recovered: nat, dead: nat)
      requires Valid() && Lists(snaps, rows, StaleIds(rows, RecoverCutoff(maxAge, now)))
      modifies this
      ensures Valid() && nextId == old(nextId) && healthy == old(healthy)
      ensures View() == Pass(config, Step(config, old(View()), Read(RecoverCutoff(maxAge, now))), snaps)
      ensures dead == |letters| - |old(letters)| && recovered == |snaps| - dead
      ensures rows.Keys <= old(rows).Keys && forall i :: i in old(rows) ==>
        RecoveredAs(old(rows), rows, i, config.maxAttempts, if maxAge < 5 then 5 else maxAge, now)
    {
      ghost var cutoff := RecoverCutoff(maxAge, now);
      ghost var start := Step(config, View(), Read(cutoff));
      ReachableStep(config, View(), Read(cutoff));
      RecoveryIs(config, View(), maxAge, now, snaps);
      SnapsSeen(cutoff, snaps);
      seen := seen + Snaps(rows, StaleIds(rows, cutoff));
      recovered, dead := SweepAll(snaps, StaleIds(start.rows, cutoff));
    }

    /** The loop over the rows read. */
    method SweepAll(snaps: seq<Snap>, ghost ids: set<int>) returns (recovered: nat, dead: nat)
      requires Valid() && Lists(snaps, rows, ids)
      requires forall k :: 0 <= k < |snaps| ==> snaps[k] in seen && rows[snaps[k].id].status == InFlight
      modifies this
      ensures Valid() && nextId == old(nextId) && healthy == old(healthy)
      ensures View() == Pass(config, old(View()), snaps)
      ensures dead == |letters| - |old(letters)| && recovered == |snaps| - dead
    {
      ghost var start := View();
      recovered, dead := 0, 0;
      for k := 0 to |snaps|
        invariant Valid() && nextId == start.nextId && healthy == old(healthy)
        invariant View() == Pass(config, start, snaps[..k])
        invariant dead == |letters| - |start.letters| && recovered == k - dead
      {
        PassSweeps(config, start, ids, snaps, k);
        assert snaps[..k + 1][..k] == snaps[..k];
        var outcome := SweepRow(snaps[k]);
        if outcome == Dead {
          dead := dead + 1;
        } else if outcome == Recovered {
          recovered := recovered + 1;
        }
      }
      assert snaps[..|snaps|] == snaps;
    }

    lemma SnapsSeen(cutoff: int, snaps: seq<Snap>)
      requires Lists(snaps, rows, StaleIds(rows, cutoff))
      ensures forall k :: 0 <= k < |snaps| ==> snaps[k] in Snaps(rows, StaleIds(rows, cutoff))
    {
      forall k | 0 <= k < |snaps| ensures snaps[k] in Snaps(rows, StaleIds(rows, cutoff)) {
        var i := snaps[k].id;
        assert i in StaleIds(rows, cutoff) && snaps[k] == SnapOf(i, rows[i]);
      }
    }

    method PurgeQueue() returns (deleted: nat)
      requires Valid()
      modifies this
      ensures Valid() && !mirrorDirty
      ensures View() == Step(config, old(View()), Purge) && rows == map[]
      ensures deleted == |old(rows)|
    {
      ReachableStep(config, View(), Purge);
      deleted := |rows|;
      gone := gone + Departures(rows, rows.Keys, Purged);
      rows := rows - rows.Keys;
      mirror, mirrorDirty := 0, false;
    }

    /** Rows are dropped by age alone, claimed ones included; at least a minute old. */
    method PurgeStaleQueueRows(maxAge: int, now: int) returns (deleted: nat)
      requires Valid()
      modifies this
      ensures Valid()
      ensures View() == Step(config, old(View()), PurgeStale(PurgeCutoff(maxAge, now)))
      ensures deleted == |old(rows)| - |rows|
      ensures rows.Keys <= old(rows).Keys && forall i :: i in old(rows) ==>
        if now - old(rows)[i].createdAt > (if maxAge < 60 then 60 else maxAge) then i !in rows
        else i in rows && rows[i] == old(rows)[i]
      ensures mirrorDirty == (old(mirrorDirty) || deleted > 0)
    {
      var cutoff := PurgeCutoff(maxAge, now);
      var older := OlderIds(rows, cutoff);
      ReachableStep(config, View(), PurgeStale(cutoff));
      PurgeStep(config, View(), cutoff, older);
      deleted := |older|;
      gone := gone + Departures(rows, older, Purged);
      rows := rows - older;
      mirror := Max(0, mirror - deleted);
      mirrorDirty := mirrorDirty || deleted > 0;
    }

    /** The reported size is the row count, read from the mirror or counted afresh. */
    method QueueSize() returns (n: int)
      requires Valid()
      ensures n == |rows|
    {
      if !mirrorDirty {
        return mirror;
      }
      return |rows|;
    }
  }
}
