/** The durable work queue of database.py as a transition system. */
module WorkQueue {
  import opened Options

  // The state is the table `processing_queue`, the dead letters, and the reads that recoverers
  // still hold.  An event whose guard fails leaves the state alone, exactly as a compare-and-set
  // that matches no row does, so every list of events has a run, and a theorem over all runs
  // covers every interleaving of any number of workers, acks, recoverers and purges.

  // ---------------------------------------------------------------- payloads

  /** A decoded JSON value. */
  datatype Json = Num(n: int) | Frac(x: real) | Flag(b: bool) | Str(text: string) | Null | Nested(raw: string)

  function Truncate(x: real): int {
    if x < 0.0 then -(-x).Floor else x.Floor
  }

  /** `int(value)`, or nothing where it raises; what `int` makes of a text is a parameter. */
  function AsInt(value: Json, intOf: string -> Option<int>): Option<int> {
    match value
    case Num(n) => Some(n)
    case Frac(x) => Some(Truncate(x))
    case Flag(b) => Some(if b then 1 else 0)
    case Str(text) => intOf(text)
    case Null => None
    case Nested(_) => None
  }

  /** Stored `event_data`: a JSON object, other valid JSON, or text that does not parse. */
  datatype Payload =
    | Object(fields: map<string, Json>)
    | NonObject(raw: string)
    | Garbled(raw: string)

  /** What the recovery branch writes back: objects gain `_recovered`, unparsable
      text is replaced by a fresh object, other JSON is kept. */
  function MarkRecovered(p: Payload): Payload {
    match p
    case Object(f) => Object(f["_recovered" := Num(1)])
    case Garbled(_) => Object(map["_recovered" := Num(1)])
    case NonObject(_) => p
  }

  /** The dictionary a worker receives for row `id` (`_claim_payload`). */
  function ClaimFields(id: int, p: Payload): map<string, Json> {
    match p
    case Object(f) => if "_queue_id" in f then f else f["_queue_id" := Num(id)]
    case Garbled(_) => map["_queue_id" := Num(id)]
    case NonObject(_) => map[]
  }

  /** The row that a worker holding these fields acks, if any. */
  function AckedId(fields: map<string, Json>, intOf: string -> Option<int>): Option<int> {
    if "_queue_id" in fields then AsInt(fields["_queue_id"], intOf) else None
  }

  /** `n` is the number `int` makes of the value: of a fraction the nearest towards zero. */
  ghost predicate Means(value: Json, n: int, intOf: string -> Option<int>) {
    match value
    case Num(m) => m == n
    case Frac(x) => if x < 0.0 then n <= 0 && x <= n as real < x + 1.0 else n >= 0 && x - 1.0 < n as real <= x
    case Flag(b) => (b && n == 1) || (!b && n == 0)
    case Str(text) => intOf(text) == Some(n)
    case Null => false
    case Nested(_) => false
  }

  lemma AsIntMeans(value: Json, n: int, intOf: string -> Option<int>)
    ensures AsInt(value, intOf) == Some(n) <==> Means(value, n, intOf)
  {
    if value.Frac? && value.x < 0.0 {
      assert n == Truncate(value.x) <==> -n == (-value.x).Floor;
    }
  }

  /** A worker that pops row `id` and acks what it got deletes that very row exactly when the
      stored object did not already carry a `_queue_id` that means another number, or none. */
  lemma AckReachesOwnRow(id: int, p: Payload, intOf: string -> Option<int>)
    ensures AckedId(ClaimFields(id, p), intOf) == Some(id)
       <==> p.Garbled? || (p.Object? && ("_queue_id" in p.fields ==> Means(p.fields["_queue_id"], id, intOf)))
  {
    if p.Object? && "_queue_id" in p.fields {
      AsIntMeans(p.fields["_queue_id"], id, intOf);
    }
    assert p.Object? && "_queue_id" in p.fields ==> ClaimFields(id, p) == p.fields;
  }

  // ------------------------------------------------------------------- state

  datatype Status = Pending | InFlight

  datatype Row = Row(payload: Payload, priority: int, createdAt: int,
                     status: Status, claimedAt: Option<int>, attempts: nat)

  datatype DeadLetter = DeadLetter(payload: Payload, retryCount: nat)

  datatype Cause = Acked | Evicted | Purged | DeadLettered

  /** How a row left the table, and the row as it was at that moment. */
  datatype Departure = Departure(cause: Cause, last: Row)

  /** One row of a recoverer's SELECT. */
  datatype Snap = Snap(id: int, attempts: nat, payload: Payload)

  datatype Config = Config(capacity: int, maxAttempts: int)

  datatype State = State(
    rows: map<int, Row>,
    nextId: int,                     // AUTOINCREMENT: ids are never reused
    letters: seq<DeadLetter>,
    seen: set<Snap>,                // every read made so far; any may still be acted on
    gone: map<int, Departure>)

  datatype Event =
    | Add(payload: Payload, priority: int, now: int, victim: int)
    | Pop(id: int, now: int)
    | Ack(id: int)
    | Read(cutoff: int)
    | Sweep(snap: Snap)
    | Purge
    | PurgeStale(cutoff: int)

  // --------------------------------------------------------------- selection

  /** `ORDER BY priority ASC, created_at ASC` does not put `b` before `a`. */
  predicate EvictsFirst(a: Row, b: Row) {
    a.priority < b.priority || (a.priority == b.priority && a.createdAt <= b.createdAt)
  }

  /** `ORDER BY priority DESC, created_at ASC` does not put `b` before `a`. */
  predicate PopsFirst(a: Row, b: Row) {
    a.priority > b.priority || (a.priority == b.priority && a.createdAt <= b.createdAt)
  }

  predicate IsLeast(rows: map<int, Row>, id: int) {
    id in rows && forall j :: j in rows ==> EvictsFirst(rows[id], rows[j])
  }

  /** First of the rows that are not in flight. */
  predicate IsNext(rows: map<int, Row>, id: int) {
    && id in rows
    && rows[id].status == Pending
    && forall j :: j in rows && rows[j].status == Pending ==> PopsFirst(rows[id], rows[j])
  }

  predicate IsStale(r: Row, cutoff: int) {
    r.status == InFlight && r.claimedAt.Some? && r.claimedAt.value < cutoff
  }

  function StaleIds(rows: map<int, Row>, cutoff: int): set<int> {
    set i | i in rows && IsStale(rows[i], cutoff)
  }

  function OlderIds(rows: map<int, Row>, cutoff: int): set<int> {
    set i | i in rows && rows[i].createdAt < cutoff
  }

  function SnapOf(id: int, r: Row): Snap {
    Snap(id, r.attempts, r.payload)
  }

  function Snaps(rows: map<int, Row>, ids: set<int>): set<Snap>
    requires ids <= rows.Keys
  {
    set i | i in ids :: SnapOf(i, rows[i])
  }

  /** The guard of every recovery write: `id = ? AND status = 'in_flight' AND attempts = ?`. */
  predicate Matches(rows: map<int, Row>, sn: Snap) {
    && sn.id in rows
    && rows[sn.id].status == InFlight
    && rows[sn.id].attempts == sn.attempts
  }

  // ------------------------------------------------------------- transitions

  function Fresh(payload: Payload, priority: int, now: int): Row {
    Row(payload, priority, now, Pending, None, 0)
  }

  function Claimed(r: Row, now: int): Row {
    r.(status := InFlight, claimedAt := Some(now), attempts := r.attempts + 1)
  }

  function Requeued(r: Row, payload: Payload): Row {
    r.(status := Pending, claimedAt := None, payload := payload, attempts := r.attempts + 1)
  }

  function Insert(s: State, r: Row): State {
    s.(rows := s.rows[s.nextId := r], nextId := s.nextId + 1)
  }

  function Remove(s: State, ids: set<int>, cause: Cause): State
    requires ids <= s.rows.Keys
  {
    s.(rows := s.rows - ids,
       gone := s.gone + Departures(s.rows, ids, cause))
  }

  function Departures(rows: map<int, Row>, ids: set<int>, cause: Cause): map<int, Departure>
    requires ids <= rows.Keys
  {
    map i | i in ids :: Departure(cause, rows[i])
  }

  /** The compare-and-set of a recoverer acting on one row it has read. */
  function SweepOne(c: Config, s: State, sn: Snap): State {
    if sn !in s.seen || !Matches(s.rows, sn) then s
    else if sn.attempts >= c.maxAttempts then
      Remove(s, {sn.id}, DeadLettered).(letters := s.letters + [DeadLetter(sn.payload, sn.attempts)])
    else
      s.(rows := s.rows[sn.id := Requeued(s.rows[sn.id], MarkRecovered(sn.payload))])
  }

  predicate Enabled(c: Config, s: State, e: Event) {
    match e
    case Add(_, _, _, victim) => |s.rows| >= c.capacity && s.rows != map[] ==> IsLeast(s.rows, victim)
    case Pop(id, _) => IsNext(s.rows, id)
    case Ack(id) => id in s.rows
    case Sweep(sn) => sn in s.seen && Matches(s.rows, sn)
    case _ => true
  }

  function Step(c: Config, s: State, e: Event): State {
    if !Enabled(c, s, e) then s
    else match e
      case Add(payload, priority, now, victim) =>
        var room := if |s.rows| >= c.capacity && s.rows != map[] then Remove(s, {victim}, Evicted) else s;
        Insert(room, Fresh(payload, priority, now))
      case Pop(id, now) => s.(rows := s.rows[id := Claimed(s.rows[id], now)])
      case Ack(id) => Remove(s, {id}, Acked)
      case Read(cutoff) => s.(seen := s.seen + Snaps(s.rows, StaleIds(s.rows, cutoff)))
      case Sweep(sn) => SweepOne(c, s, sn)
      case Purge => Remove(s, s.rows.Keys, Purged)
      case PurgeStale(cutoff) => Remove(s, OlderIds(s.rows, cutoff), Purged)
  }

  predicate Link(c: Config, tr: seq<State>, es: seq<Event>, k: nat)
    requires |tr| == |es| + 1 && k < |es|
  {
    tr[k + 1] == Step(c, tr[k], es[k])
  }

  /** `tr` holds the states before, between and after the events `es`. */
  ghost predicate IsRun(c: Config, tr: seq<State>, es: seq<Event>) {
    |tr| == |es| + 1 && forall k: nat :: k < |es| ==> Link(c, tr, es, k)
  }

  lemma RunExtends(c: Config, tr: seq<State>, es: seq<Event>, e: Event)
    requires IsRun(c, tr, es)
    ensures IsRun(c, tr + [Step(c, tr[|es|], e)], es + [e])
  {
    var trace, list := tr + [Step(c, tr[|es|], e)], es + [e];
    forall k: nat | k < |list| ensures Link(c, trace, list, k) {
      if k < |es| {
        assert Link(c, tr, es, k);
      }
    }
  }

  /** Every list of events has a run from every state. */
  lemma {:induction false} RunExists(c: Config, s: State, es: seq<Event>) returns (tr: seq<State>)
    ensures IsRun(c, tr, es) && tr[0] == s
  {
    if es == [] {
      return [s];
    }
    tr := RunExists(c, s, es[..|es| - 1]);
    RunExtends(c, tr, es[..|es| - 1], es[|es| - 1]);
    tr := tr + [Step(c, tr[|es| - 1], es[|es| - 1])];
    assert es[..|es| - 1] + [es[|es| - 1]] == es;
  }

  const EMPTY := State(map[], 1, [], {}, map[])

  /** The removing steps as single map updates. */
  lemma RemoveOne(s: State, id: int, cause: Cause)
    requires id in s.rows
    ensures Remove(s, {id}, cause)
         == s.(rows := s.rows - {id}, gone := s.gone[id := Departure(cause, s.rows[id])])
    ensures |s.rows - {id}| == |s.rows| - 1
  {
    RemoveSize(s, {id}, cause);
  }

  /** An insert after `victim` made room, or without eviction. */
  lemma AddStep(c: Config, s: State, room: State, payload: Payload, priority: int, now: int, victim: int)
    requires var e := Add(payload, priority, now, victim);
      && Enabled(c, s, e)
      && room == if |s.rows| >= c.capacity && s.rows != map[] then Remove(s, {victim}, Evicted) else s
    ensures Step(c, s, Add(payload, priority, now, victim)) == Insert(room, Fresh(payload, priority, now))
  {
  }

  lemma PurgeStep(c: Config, s: State, cutoff: int, older: set<int>)
    requires older == OlderIds(s.rows, cutoff)
    ensures Step(c, s, PurgeStale(cutoff))
         == s.(rows := s.rows - older, gone := s.gone + Departures(s.rows, older, Purged))
    ensures |s.rows - older| == |s.rows| - |older|
  {
    RemoveSize(s, older, Purged);
  }

  lemma RemoveSize(s: State, ids: set<int>, cause: Cause)
    requires ids <= s.rows.Keys
    ensures |Remove(s, ids, cause).rows| == |s.rows| - |ids|
  {
    var left := Remove(s, ids, cause).rows;
    assert left.Keys == s.rows.Keys - ids;
    assert |left.Keys| == |left| && |s.rows.Keys| == |s.rows|;
  }

  lemma UpdateSize(rows: map<int, Row>, id: int, r: Row)
    ensures |rows[id := r]| == |rows| + if id in rows then 0 else 1
  {
    assert rows[id := r].Keys == rows.Keys + {id};
    assert |rows[id := r].Keys| == |rows[id := r]| && |rows.Keys| == |rows|;
  }

  // --------------------------------------------------------------- invariant

  /** Odd `attempts` means in flight, and a claim has a time; a row is requeued only below the attempt limit. */
  predicate RowOk(c: Config, r: Row) {
    && (r.status == InFlight <==> r.attempts % 2 == 1)
    && (r.status == InFlight <==> r.claimedAt.Some?)
    && (r.status == Pending ==> r.attempts == 0 || r.attempts <= c.maxAttempts)
    && (r.status == InFlight ==> r.attempts == 1 || r.attempts <= c.maxAttempts + 1)
  }

  /** A read is never ahead of the row it was taken from, and while it is not behind
      it still shows the row's present payload. */
  predicate ReadOk(s: State, sn: Snap) {
    && 1 <= sn.id < s.nextId
    && sn.attempts % 2 == 1
    && (sn.id in s.rows ==>
          && sn.attempts <= s.rows[sn.id].attempts
          && (sn.attempts == s.rows[sn.id].attempts ==> sn.payload == s.rows[sn.id].payload))
  }

  ghost predicate Inv(c: Config, s: State) {
    && 1 <= s.nextId
    && (forall i :: i in s.rows || i in s.gone <==> 1 <= i < s.nextId)
    && s.rows.Keys !! s.gone.Keys
    && (forall i :: i in s.rows ==> RowOk(c, s.rows[i]))
    && (forall sn :: sn in s.seen ==> ReadOk(s, sn))
  }

  lemma RemoveKeepsInv(c: Config, s: State, ids: set<int>, cause: Cause)
    requires Inv(c, s) && ids <= s.rows.Keys
    ensures Inv(c, Remove(s, ids, cause))
  {
    var t := Remove(s, ids, cause);
    assert t.gone.Keys == s.gone.Keys + ids;
    assert forall i :: i in t.rows ==> t.rows[i] == s.rows[i];
    forall sn | sn in t.seen ensures ReadOk(t, sn) {
      assert ReadOk(s, sn);
    }
  }

  lemma InsertKeepsInv(c: Config, s: State, r: Row)
    requires Inv(c, s) && r.status == Pending && r.claimedAt.None? && r.attempts == 0
    ensures Inv(c, Insert(s, r))
  {
    forall sn | sn in s.seen ensures ReadOk(Insert(s, r), sn) {
      assert ReadOk(s, sn);
    }
  }

  lemma BumpKeepsInv(c: Config, s: State, id: int, r: Row)
    requires Inv(c, s) && id in s.rows && RowOk(c, r) && r.attempts == s.rows[id].attempts + 1
    ensures Inv(c, s.(rows := s.rows[id := r]))
  {
    forall sn | sn in s.seen ensures ReadOk(s.(rows := s.rows[id := r]), sn) {
      assert ReadOk(s, sn);
    }
  }

  lemma ReadKeepsInv(c: Config, s: State, ids: set<int>)
    requires Inv(c, s) && ids <= s.rows.Keys && forall i :: i in ids ==> s.rows[i].status == InFlight
    ensures Inv(c, s.(seen := s.seen + Snaps(s.rows, ids)))
  {
    var t := s.(seen := s.seen + Snaps(s.rows, ids));
    forall sn | sn in t.seen ensures ReadOk(t, sn) {
      if sn in s.seen {
        assert ReadOk(s, sn);
      } else {
        var i :| i in ids && sn == SnapOf(i, s.rows[i]);
        assert RowOk(c, s.rows[i]);
      }
    }
  }

  lemma LettersKeepInv(c: Config, s: State, letters: seq<DeadLetter>)
    requires Inv(c, s)
    ensures Inv(c, s.(letters := letters))
  {
    var t := s.(letters := letters);
    forall sn | sn in t.seen ensures ReadOk(t, sn) {
      assert ReadOk(s, sn);
    }
  }

  lemma AddKeepsInv(c: Config, s: State, e: Event)
    requires Inv(c, s) && e.Add? && Enabled(c, s, e)
    ensures Inv(c, Step(c, s, e))
  {
    if |s.rows| >= c.capacity && s.rows != map[] {
      RemoveKeepsInv(c, s, {e.victim}, Evicted);
      InsertKeepsInv(c, Remove(s, {e.victim}, Evicted), Fresh(e.payload, e.priority, e.now));
    } else {
      InsertKeepsInv(c, s, Fresh(e.payload, e.priority, e.now));
    }
  }

  lemma SweepKeepsInv(c: Config, s: State, sn: Snap)
    requires Inv(c, s)
    ensures Inv(c, SweepOne(c, s, sn))
  {
    if sn in s.seen && Matches(s.rows, sn) {
      if sn.attempts >= c.maxAttempts {
        RemoveKeepsInv(c, s, {sn.id}, DeadLettered);
        LettersKeepInv(c, Remove(s, {sn.id}, DeadLettered), s.letters + [DeadLetter(sn.payload, sn.attempts)]);
      } else {
        BumpKeepsInv(c, s, sn.id, Requeued(s.rows[sn.id], MarkRecovered(sn.payload)));
      }
    }
  }

  /** What every step of the protocol keeps. */
  lemma StepKeepsInv(c: Config, s: State, e: Event)
    requires Inv(c, s)
    ensures Inv(c, Step(c, s, e))
  {
    if Enabled(c, s, e) {
      match e
      case Add(_, _, _, _) => AddKeepsInv(c, s, e);
      case Pop(id, now) => BumpKeepsInv(c, s, id, Claimed(s.rows[id], now));
      case Ack(id) => RemoveKeepsInv(c, s, {id}, Acked);
      case Read(cutoff) => ReadKeepsInv(c, s, StaleIds(s.rows, cutoff));
      case Sweep(sn) => SweepKeepsInv(c, s, sn);
      case Purge => RemoveKeepsInv(c, s, s.rows.Keys, Purged);
      case PurgeStale(cutoff) => RemoveKeepsInv(c, s, OlderIds(s.rows, cutoff), Purged);
    }
  }

  lemma {:induction false} RunKeepsInv(c: Config, tr: seq<State>, es: seq<Event>, n: nat)
    requires IsRun(c, tr, es) && n <= |es| && Inv(c, tr[0])
    ensures Inv(c, tr[n])
  {
    if n > 0 {
      RunKeepsInv(c, tr, es, n - 1);
      assert Link(c, tr, es, n - 1);
      StepKeepsInv(c, tr[n - 1], es[n - 1]);
    }
  }

  ghost predicate Closed(c: Config, states: iset<State>) {
    EMPTY in states && forall s, e :: s in states ==> Step(c, s, e) in states
  }

  /** In every set of states that holds the empty table and is closed under steps. */
  ghost predicate Reachable(c: Config, s: State) {
    forall states: iset<State> :: Closed(c, states) ==> s in states
  }

  lemma {:induction false} RunIsReachable(c: Config, tr: seq<State>, es: seq<Event>, n: nat)
    requires IsRun(c, tr, es) && n <= |es| && tr[0] == EMPTY
    ensures Reachable(c, tr[n])
  {
    if n > 0 {
      RunIsReachable(c, tr, es, n - 1);
      assert Link(c, tr, es, n - 1);
      ReachableStep(c, tr[n - 1], es[n - 1]);
    }
  }

  lemma ReachableStep(c: Config, s: State, e: Event)
    requires Reachable(c, s)
    ensures Reachable(c, Step(c, s, e))
  {
  }

  lemma ReachableInv(c: Config, s: State)
    requires Reachable(c, s)
    ensures Inv(c, s)
  {
    var good := iset t: State | Inv(c, t);
    assert Closed(c, good) by {
      forall t, e | t in good ensures Step(c, t, e) in good {
        StepKeepsInv(c, t, e);
      }
    }
  }

  lemma NextIdIsFresh(c: Config, s: State)
    requires Reachable(c, s)
    ensures s.nextId !in s.rows
  {
    ReachableInv(c, s);
  }

  // ------------------------------------------------- conservation and parity

  /** At every point of every run: a live row is in flight exactly when its `attempts` is
      odd; every id ever inserted is either live or has exactly one departure, never both. */
  lemma EveryRunIsConsistent(c: Config, tr: seq<State>, es: seq<Event>, n: nat)
    requires IsRun(c, tr, es) && n <= |es| && tr[0] == EMPTY
    ensures var s := tr[n];
      && (forall i :: i in s.rows ==> (s.rows[i].status == InFlight <==> s.rows[i].attempts % 2 == 1))
      && (forall i :: i in s.rows ==> (s.rows[i].status == InFlight <==> s.rows[i].claimedAt.Some?))
      && (forall i :: 1 <= i < s.nextId <==> i in s.rows || i in s.gone)
      && s.rows.Keys !! s.gone.Keys
  {
    RunKeepsInv(c, tr, es, n);
  }

  /** A departure is final: neither it nor the row recorded with it ever changes. */
  lemma {:induction false} DepartureIsFinal(c: Config, tr: seq<State>, es: seq<Event>, i: nat, j: nat, id: int)
    requires IsRun(c, tr, es) && i <= j <= |es| && Inv(c, tr[0]) && id in tr[i].gone
    ensures id in tr[j].gone && tr[j].gone[id] == tr[i].gone[id] && id !in tr[j].rows
    decreases j
  {
    RunKeepsInv(c, tr, es, j);
    if i < j {
      DepartureIsFinal(c, tr, es, i, j - 1, id);
      RunKeepsInv(c, tr, es, j - 1);
      assert Link(c, tr, es, j - 1);
    }
  }

  /** A dead letter is written with the row's present payload and attempt count, even
      though the writer took both from an earlier read, and the row is gone with it. */
  lemma DeadLetterHoldsCurrentRow(c: Config, s: State, sn: Snap)
    requires Reachable(c, s) && Enabled(c, s, Sweep(sn)) && sn.attempts >= c.maxAttempts
    ensures var t, r := Step(c, s, Sweep(sn)), s.rows[sn.id];
      && t.letters == s.letters + [DeadLetter(r.payload, r.attempts)]
      && t.rows == s.rows - {sn.id}
      && t.gone == s.gone[sn.id := Departure(DeadLettered, r)]
  {
    ReachableInv(c, s);
    assert ReadOk(s, sn);
    RemoveOne(s, sn.id, DeadLettered);
  }

  /** The letters, in order, are those of the rows `ids` that left as dead letters. */
  ghost predicate Matched(letters: seq<DeadLetter>, gone: map<int, Departure>, ids: seq<int>) {
    && |ids| == |letters|
    && (forall i, j :: 0 <= i < j < |ids| ==> ids[i] != ids[j])
    && (forall k :: 0 <= k < |ids| ==> ids[k] in gone && LetterOf(letters[k], gone[ids[k]]))
    && forall id :: id in gone && gone[id].cause == DeadLettered ==> id in ids
  }

  predicate LetterOf(letter: DeadLetter, d: Departure) {
    d.cause == DeadLettered && letter == DeadLetter(d.last.payload, d.last.attempts)
  }

  predicate IsDeadLetter(c: Config, s: State, e: Event) {
    e.Sweep? && Enabled(c, s, e) && e.snap.attempts >= c.maxAttempts
  }

  lemma NoLetterStep(c: Config, s: State, e: Event)
    requires Inv(c, s) && !IsDeadLetter(c, s, e)
    ensures var t := Step(c, s, e);
      && t.letters == s.letters
      && (forall id :: id in s.gone ==> id in t.gone && t.gone[id] == s.gone[id])
      && forall id :: id in t.gone && id !in s.gone ==> t.gone[id].cause != DeadLettered
  {
  }

  lemma LetterStep(c: Config, s: State, e: Event, ids: seq<int>) returns (more: seq<int>)
    requires Inv(c, s) && Matched(s.letters, s.gone, ids)
    ensures var t := Step(c, s, e); Matched(t.letters, t.gone, more)
  {
    if IsDeadLetter(c, s, e) {
      assert ReadOk(s, e.snap);
      RemoveOne(s, e.snap.id, DeadLettered);
      more := ids + [e.snap.id];
    } else {
      NoLetterStep(c, s, e);
      more := ids;
    }
  }

  /** At every point of every run the dead letters and the rows that left as dead letters
      stand one for one, each letter with its row's last payload and attempts. */
  lemma {:induction false} OneLetterEach(c: Config, tr: seq<State>, es: seq<Event>, n: nat) returns (ids: seq<int>)
    requires IsRun(c, tr, es) && n <= |es| && tr[0] == EMPTY
    ensures Matched(tr[n].letters, tr[n].gone, ids)
  {
    if n == 0 {
      return [];
    }
    var before := OneLetterEach(c, tr, es, n - 1);
    RunKeepsInv(c, tr, es, n - 1);
    assert Link(c, tr, es, n - 1);
    ids := LetterStep(c, tr[n - 1], es[n - 1], before);
  }

  // ------------------------------------------------- attempts as a version

  /** From `s` to a later state in which row `id` is still live, its version has not
      fallen, and the row is the same row whenever the version is. */
  predicate Later(s: State, t: State, id: int) {
    id in t.rows ==>
      && id in s.rows
      && s.rows[id].attempts <= t.rows[id].attempts
      && (s.rows[id].attempts == t.rows[id].attempts ==> s.rows[id] == t.rows[id])
  }

  lemma {:induction false} VersionNeverFalls(c: Config, tr: seq<State>, es: seq<Event>, i: nat, j: nat, id: int)
    requires IsRun(c, tr, es) && i <= j <= |es| && Inv(c, tr[0]) && 1 <= id < tr[i].nextId
    ensures Later(tr[i], tr[j], id) && tr[i].nextId <= tr[j].nextId
    decreases j
  {
    if i < j {
      VersionNeverFalls(c, tr, es, i, j - 1, id);
      RunKeepsInv(c, tr, es, j - 1);
      assert Link(c, tr, es, j - 1);
    }
  }

  /** No ABA: if a read of row `sn.id` was taken at point `i` of a run and a recoverer
      acting on it wins at point `j`, the row was never recovered, claimed again or
      changed in any field at any point between. */
  lemma NoAba(c: Config, tr: seq<State>, es: seq<Event>, i: nat, k: nat, j: nat, sn: Snap)
    requires IsRun(c, tr, es) && i <= k <= j <= |es| && tr[0] == EMPTY
    requires sn.id in tr[i].rows && sn == SnapOf(sn.id, tr[i].rows[sn.id])
    requires Matches(tr[j].rows, sn)
    ensures sn.id in tr[k].rows && tr[k].rows[sn.id] == tr[i].rows[sn.id] == tr[j].rows[sn.id]
  {
    RunKeepsInv(c, tr, es, i);
    VersionNeverFalls(c, tr, es, i, k, sn.id);
    VersionNeverFalls(c, tr, es, k, j, sn.id);
  }

  /** At most one recoverer wins each version of a row, whatever copies of the read are
      acted on and however often. */
  lemma OneWinnerPerVersion(c: Config, tr: seq<State>, es: seq<Event>, i: nat, j: nat, a: Snap, b: Snap)
    requires IsRun(c, tr, es) && i < j <= |es| && tr[0] == EMPTY
    requires es[i] == Sweep(a) && Enabled(c, tr[i], es[i])
    requires a.id == b.id && a.attempts == b.attempts
    ensures !Matches(tr[j].rows, b)
  {
    RunKeepsInv(c, tr, es, i);
    assert Link(c, tr, es, i);
    VersionNeverFalls(c, tr, es, i + 1, j, a.id);
  }

  // --------------------------------------------------------------- hand-outs

  predicate HandsOut(c: Config, s: State, e: Event, id: int) {
    e.Pop? && e.id == id && Enabled(c, s, e)
  }

  /** How often row `id` is handed to a worker in the first `n` events. */
  function HandedOut(c: Config, tr: seq<State>, es: seq<Event>, n: nat, id: int): nat
    requires |tr| == |es| + 1 && n <= |es|
  {
    if n == 0 then 0
    else HandedOut(c, tr, es, n - 1, id) + if HandsOut(c, tr[n - 1], es[n - 1], id) then 1 else 0
  }

  /** The row as it is, or as it was when it left. */
  function LastSeen(s: State, id: int): Row
    requires id in s.rows || id in s.gone
  {
    if id in s.rows then s.rows[id] else s.gone[id].last
  }

  function AttemptsNow(s: State, id: int): nat {
    if id in s.rows || id in s.gone then LastSeen(s, id).attempts else 0
  }

  /** What the invariant says of one row. */
  predicate RowFacts(c: Config, s: State, id: int) {
    && (id in s.rows ==> RowOk(c, s.rows[id]) && id !in s.gone)
    && (s.nextId <= id ==> id !in s.rows && id !in s.gone)
  }

  lemma RunHasRowFacts(c: Config, tr: seq<State>, es: seq<Event>, n: nat, id: int)
    requires IsRun(c, tr, es) && n <= |es| && tr[0] == EMPTY
    ensures RowFacts(c, tr[n], id)
  {
    RunKeepsInv(c, tr, es, n);
  }

  lemma HandOutStep(c: Config, s: State, e: Event, id: int)
    requires RowFacts(c, s, id)
    requires id in s.gone ==> RowOk(c, s.gone[id].last)
    ensures var t := Step(c, s, e);
      && (AttemptsNow(t, id) + 1) / 2 == (AttemptsNow(s, id) + 1) / 2 + (if HandsOut(c, s, e, id) then 1 else 0)
      && (id in t.gone ==> RowOk(c, t.gone[id].last))
  {
  }

  /** The attempt counter a row has, or had when it left, counts one for each hand-out
      and one for each recovery after it. */
  lemma {:induction false} HandOutsAreHalfTheAttempts(c: Config, tr: seq<State>, es: seq<Event>, n: nat, id: int)
    requires IsRun(c, tr, es) && n <= |es| && tr[0] == EMPTY
    ensures HandedOut(c, tr, es, n, id) == (AttemptsNow(tr[n], id) + 1) / 2
    ensures id in tr[n].gone ==> RowOk(c, tr[n].gone[id].last)
  {
    if n > 0 {
      HandOutsAreHalfTheAttempts(c, tr, es, n - 1, id);
      RunHasRowFacts(c, tr, es, n - 1, id);
      assert Link(c, tr, es, n - 1);
      HandOutStep(c, tr[n - 1], es[n - 1], id);
    }
  }

  /** One row is handed out at most floor(M/2) + 1 times in any run, where M is the
      attempt limit, which the source clamps to at least 1. */
  lemma HandOutBound(c: Config, tr: seq<State>, es: seq<Event>, n: nat, id: int)
    requires IsRun(c, tr, es) && n <= |es| && tr[0] == EMPTY && 1 <= c.maxAttempts
    ensures HandedOut(c, tr, es, n, id) <= c.maxAttempts / 2 + 1
  {
    HandOutsAreHalfTheAttempts(c, tr, es, n, id);
    RunHasRowFacts(c, tr, es, n, id);
  }

  /** Once handed out that often and still live, the row is in flight at the limit: no pop
      takes it, and a recoverer that still matches it can only dead-letter it. */
  lemma LastHandOut(c: Config, tr: seq<State>, es: seq<Event>, n: nat, id: int, sn: Snap, now: int)
    requires IsRun(c, tr, es) && n <= |es| && tr[0] == EMPTY && 1 <= c.maxAttempts
    requires HandedOut(c, tr, es, n, id) == c.maxAttempts / 2 + 1
    ensures !Enabled(c, tr[n], Pop(id, now))
    ensures sn.id == id && sn in tr[n].seen && Matches(tr[n].rows, sn) ==> id !in SweepOne(c, tr[n], sn).rows
  {
    HandOutsAreHalfTheAttempts(c, tr, es, n, id);
    RunHasRowFacts(c, tr, es, n, id);
  }

  /** One delivery whose worker crashes: claim, become stale, recover. */
  function CrashCycle(payload: Payload, attempts: nat): seq<Event> {
    [Pop(1, 0), Read(1), Sweep(Snap(1, attempts + 1, payload))]
  }

  function Marks(payload: Payload, n: nat): Payload {
    if n == 0 then payload else MarkRecovered(Marks(payload, n - 1))
  }

  lemma {:induction false} HandedOutPrefix(c: Config, tr: seq<State>, es: seq<Event>,
                                           s: State, e: Event, n: nat, id: int)
    requires |tr| == |es| + 1 && n <= |es|
    ensures HandedOut(c, tr + [s], es + [e], n, id) == HandedOut(c, tr, es, n, id)
  {
    if n > 0 {
      HandedOutPrefix(c, tr, es, s, e, n - 1, id);
    }
  }

  /** One more event at the end of a run. */
  lemma Grow(c: Config, tr: seq<State>, es: seq<Event>, e: Event, id: int)
    returns (trace: seq<State>, list: seq<Event>)
    requires IsRun(c, tr, es)
    ensures IsRun(c, trace, list) && |list| == |es| + 1 && trace[0] == tr[0]
    ensures trace[|list|] == Step(c, tr[|es|], e)
    ensures HandedOut(c, trace, list, |list|, id)
         == HandedOut(c, tr, es, |es|, id) + if HandsOut(c, tr[|es|], e, id) then 1 else 0
  {
    RunExtends(c, tr, es, e);
    HandedOutPrefix(c, tr, es, Step(c, tr[|es|], e), e, |es|, id);
    trace, list := tr + [Step(c, tr[|es|], e)], es + [e];
  }

  /** One crash cycle on a table whose only row is number 1. */
  lemma CrashCycleState(c: Config, s: State, p: Payload, a: nat)
    requires a % 2 == 0 && a + 2 <= c.maxAttempts
    requires s.rows == map[1 := Row(p, 5, 0, Pending, None, a)]
    ensures var es := CrashCycle(p, a);
      var s1 := Step(c, s, es[0]);
      var s2 := Step(c, s1, es[1]);
      HandsOut(c, s, es[0], 1) && Step(c, s2, es[2]).rows == map[1 := Row(MarkRecovered(p), 5, 0, Pending, None, a + 2)]
  {
    var s1 := Step(c, s, Pop(1, 0));
    assert s1.rows == map[1 := Row(p, 5, 0, InFlight, Some(0), a + 1)];
    assert 1 in StaleIds(s1.rows, 1) && SnapOf(1, s1.rows[1]) == Snap(1, a + 1, p);
  }

  /** A row whose worker crashes every time, `n` times over. */
  lemma {:induction false} PoisonRun(c: Config, p: Payload, n: nat) returns (tr: seq<State>, es: seq<Event>)
    requires 1 <= c.capacity && 2 * n <= c.maxAttempts
    ensures IsRun(c, tr, es) && tr[0] == EMPTY && HandedOut(c, tr, es, |es|, 1) == n
    ensures tr[|es|].rows == map[1 := Row(Marks(p, n), 5, 0, Pending, None, 2 * n)]
  {
    if n == 0 {
      tr, es := Grow(c, [EMPTY], [], Add(p, 5, 0, 0), 1);
    } else {
      tr, es := PoisonRun(c, p, n - 1);
      var cycle := CrashCycle(Marks(p, n - 1), 2 * (n - 1));
      CrashCycleState(c, tr[|es|], Marks(p, n - 1), 2 * (n - 1));
      tr, es := Grow(c, tr, es, cycle[0], 1);
      tr, es := Grow(c, tr, es, cycle[1], 1);
      tr, es := Grow(c, tr, es, cycle[2], 1);
    }
  }

  /** The bound is reached: for every limit there is a run that hands one row out
      exactly floor(M/2) + 1 times, so twice, not three times, for the default M = 3. */
  lemma HandOutBoundIsTight(c: Config, p: Payload) returns (tr: seq<State>, es: seq<Event>)
    requires 1 <= c.maxAttempts && 1 <= c.capacity
    ensures IsRun(c, tr, es) && tr[0] == EMPTY
    ensures HandedOut(c, tr, es, |es|, 1) == c.maxAttempts / 2 + 1
  {
    tr, es := PoisonRun(c, p, c.maxAttempts / 2);
    assert IsNext(tr[|es|].rows, 1);
    tr, es := Grow(c, tr, es, Pop(1, 0), 1);
  }

  // ---------------------------------------------------------------- capacity

  function Max(a: int, b: int): int {
    if a < b then b else a
  }

  lemma StepSize(c: Config, s: State, e: Event)
    ensures |Step(c, s, e).rows| <= Max(|s.rows|, Max(1, c.capacity))
  {
    if Enabled(c, s, e) {
      match e
      case Add(payload, priority, now, victim) =>
        if |s.rows| >= c.capacity && s.rows != map[] {
          RemoveSize(s, {victim}, Evicted);
        } else {
          assert |s.rows| < c.capacity || |s.rows| == 0;
        }
      case Ack(id) => RemoveSize(s, {id}, Acked);
      case Pop(id, _) =>
        UpdateSize(s.rows, id, Claimed(s.rows[id], e.now));
      case Sweep(sn) =>
        RemoveSize(s, {sn.id}, DeadLettered);
        if sn.attempts < c.maxAttempts {
          UpdateSize(s.rows, sn.id, Requeued(s.rows[sn.id], MarkRecovered(sn.payload)));
        }
      case Read(_) =>
      case Purge => RemoveSize(s, s.rows.Keys, Purged);
      case PurgeStale(cutoff) => RemoveSize(s, OlderIds(s.rows, cutoff), Purged);
    }
  }

  lemma {:induction false} CapacityHolds(c: Config, tr: seq<State>, es: seq<Event>, n: nat)
    requires IsRun(c, tr, es) && n <= |es|
    ensures |tr[n].rows| <= Max(|tr[0].rows|, Max(1, c.capacity))
  {
    if n > 0 {
      CapacityHolds(c, tr, es, n - 1);
      assert Link(c, tr, es, n - 1);
      StepSize(c, tr[n - 1], es[n - 1]);
    }
  }

  /** The table never outgrows `MESSAGE_QUEUE_SIZE` or what it started with, in any run,
      exactly when the configured size is positive or the table did not start empty:
      an insert always happens, even where there is nothing to evict. */
  lemma CapacityIff(c: Config, s: State)
    ensures (forall tr: seq<State>, es: seq<Event>, n: nat :: IsRun(c, tr, es) && tr[0] == s && n <= |es| ==>
               |tr[n].rows| <= Max(|s.rows|, c.capacity))
       <==> 1 <= c.capacity || 1 <= |s.rows|
  {
    if 1 <= c.capacity || 1 <= |s.rows| {
      forall tr: seq<State>, es: seq<Event>, n: nat | IsRun(c, tr, es) && tr[0] == s && n <= |es|
        ensures |tr[n].rows| <= Max(|s.rows|, c.capacity)
      {
        CapacityHolds(c, tr, es, n);
      }
    } else {
      var e := Add(Garbled(""), 5, 0, 0);
      RunExtends(c, [s], [], e);
      var tr, es := [s] + [Step(c, s, e)], [] + [e];
      assert s.rows == map[];
      assert IsRun(c, tr, es) && |tr[1].rows| == 1;
    }
  }

  // ------------------------------------------------------------ re-enqueuing

  /** Row `id` carries the id of a row that is gone. */
  predicate Carries(s: State, id: int, oldId: int) {
    && 1 <= id < s.nextId && oldId in s.gone
    && (id in s.rows ==>
          && s.rows[id].payload.Object?
          && "_queue_id" in s.rows[id].payload.fields
          && s.rows[id].payload.fields["_queue_id"] == Num(oldId))
  }

  lemma CarriesStep(c: Config, s: State, e: Event, id: int, oldId: int)
    requires Inv(c, s) && Carries(s, id, oldId)
    ensures Carries(Step(c, s, e), id, oldId)
  {
    if e.Sweep? && Enabled(c, s, e) {
      assert ReadOk(s, e.snap);
    }
  }

  lemma {:induction false} CarriesAlong(c: Config, tr: seq<State>, es: seq<Event>, i: nat, j: nat, id: int, oldId: int)
    requires IsRun(c, tr, es) && i <= j <= |es| && tr[0] == EMPTY && Carries(tr[i], id, oldId)
    ensures Carries(tr[j], id, oldId)
    decreases j
  {
    if i < j {
      CarriesAlong(c, tr, es, i, j - 1, id, oldId);
      RunKeepsInv(c, tr, es, j - 1);
      assert Link(c, tr, es, j - 1);
      CarriesStep(c, tr[j - 1], es[j - 1], id, oldId);
    }
  }

  lemma CarriesMeans(c: Config, s: State, id: int, oldId: int, intOf: string -> Option<int>)
    requires Inv(c, s) && Carries(s, id, oldId)
    ensures id in s.rows ==> AckedId(ClaimFields(id, s.rows[id].payload), intOf) == Some(oldId)
    ensures oldId !in s.rows && Step(c, s, Ack(oldId)) == s
  {
  }

  /** It carries it ever after, through claims and recoveries: whoever pops the row acks the
      old id, which is no row any more. */
  lemma NeverAcksItself(c: Config, tr: seq<State>, es: seq<Event>, i: nat, j: nat, id: int, oldId: int,
                        intOf: string -> Option<int>)
    requires IsRun(c, tr, es) && i <= j <= |es| && tr[0] == EMPTY && Carries(tr[i], id, oldId)
    ensures id in tr[j].rows ==> AckedId(ClaimFields(id, tr[j].rows[id].payload), intOf) == Some(oldId)
    ensures oldId !in tr[j].rows && Step(c, tr[j], Ack(oldId)) == tr[j]
  {
    CarriesAlong(c, tr, es, i, j, id, oldId);
    RunKeepsInv(c, tr, es, j);
    CarriesMeans(c, tr[j], id, oldId, intOf);
  }

  /** A worker that puts its claimed event back (no monitor connected) and then acks it
      makes such a row, whatever the table holds and whether or not a row is evicted. */
  lemma ReenqueuedClaimIsNeverAcked(c: Config, s: State, oldId: int, p: Payload, name: Json, now: int, victim: int)
    requires Reachable(c, s) && oldId in s.rows && s.rows[oldId].payload == p && (p.Object? || p.Garbled?)
    requires p.Object? ==> "_queue_id" !in p.fields
    requires var e := Add(Object(ClaimFields(oldId, p)["_attributed_to" := name]), 9, now, victim); Enabled(c, s, e)
    ensures var e := Add(Object(ClaimFields(oldId, p)["_attributed_to" := name]), 9, now, victim);
      var t := Step(c, Step(c, s, e), Ack(oldId));
      s.nextId in t.rows && Carries(t, s.nextId, oldId)
  {
    ReachableInv(c, s);
  }
}
