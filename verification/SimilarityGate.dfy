/** The similarity gate of similarity.py and every text it let through. */
module SimilarityGate {
  import opened Options
  import opened Sequences
  import opened Sets
  import opened Text

  // A text too like one the same sender got through shortly before is held back.  How like two
  // texts are, how texts are normalized and which characters are digits are parameters.

  datatype Config = Config(enabled: bool, threshold: real, window: real, keep: nat, sendersMax: nat,
                           normalize: string -> string, ratio: (string, string) -> real, digit: char -> bool) {
    predicate Valid() {
      threshold > 0.0 && keep >= 1 && sendersMax >= 64
    }
  }

  /** A normalized text that got through, and when. */
  datatype Entry = Entry(norm: string, at: real)

  function Masked(c: Config, s: string): string {
    if s == [] then [] else [if c.digit(s[0]) then '#' else s[0]] + Masked(c, s[1..])
  }

  // ------------------------------------------------------------ the best match

  datatype Hit = Hit(score: real, excerpt: string, age: real)

  /** The entry may hold the text back: it is recent and differs in more than digits. */
  predicate Comparable(c: Config, norm: string, e: Entry, now: real) {
    now - e.at <= c.window && Masked(c, norm) != Masked(c, e.norm)
  }

  predicate Resembles(c: Config, norm: string, e: Entry, now: real) {
    Comparable(c, norm, e, now) && c.ratio(norm, e.norm) >= c.threshold
  }

  function Excerpt(s: string): string {
    if |s| <= 120 then s else s[..120]
  }

  function HitOf(c: Config, norm: string, e: Entry, now: real): Hit {
    Hit(c.ratio(norm, e.norm), Excerpt(e.norm), now - e.at)
  }

  /** Entry `k` is the first of the most similar ones. */
  ghost predicate Closest(c: Config, norm: string, b: seq<Entry>, now: real, k: nat)
    requires k < |b|
  {
    && Comparable(c, norm, b[k], now)
    && (forall j :: 0 <= j < |b| && Comparable(c, norm, b[j], now) ==>
      c.ratio(norm, b[j].norm) <= c.ratio(norm, b[k].norm))
    && forall j :: 0 <= j < k && Comparable(c, norm, b[j], now) ==> c.ratio(norm, b[j].norm) < c.ratio(norm, b[k].norm)
  }

  /** The text is held back exactly when an entry resembles it, and the report names the
      closest one. */
  ghost predicate Judged(c: Config, norm: string, b: seq<Entry>, now: real, hit: Option<Hit>) {
    match hit
    case None => forall k :: 0 <= k < |b| ==> !Resembles(c, norm, b[k], now)
    case Some(h) =>
      h.score >= c.threshold
        && exists k :: 0 <= k < |b| && Closest(c, norm, b, now, k) && h == HitOf(c, norm, b[k], now)
  }

  /** The scan so far: the first of the best positive scores, or none. */
  ghost predicate Scanned(c: Config, norm: string, b: seq<Entry>, n: nat, now: real, best: Option<Hit>)
    requires n <= |b|
  {
    match best
    case None => forall k :: 0 <= k < n && Comparable(c, norm, b[k], now) ==> c.ratio(norm, b[k].norm) <= 0.0
    case Some(h) =>
      h.score > 0.0 && exists k :: 0 <= k < n && Closest(c, norm, b[..n], now, k) && h == HitOf(c, norm, b[k], now)
  }

  lemma ScanNext(c: Config, norm: string, b: seq<Entry>, n: nat, now: real, best: Option<Hit>)
    requires n < |b| && Scanned(c, norm, b, n, now, best)
    ensures var score := c.ratio(norm, b[n].norm);
      var leading := if best.None? then 0.0 else best.value.score;
      Scanned(c, norm, b, n + 1, now,
        if Comparable(c, norm, b[n], now) && score > leading then Some(HitOf(c, norm, b[n], now))
        else best)
  {
    var score := c.ratio(norm, b[n].norm);
    var leading := if best.None? then 0.0 else best.value.score;
    var more := b[..n + 1];
    if Comparable(c, norm, b[n], now) && score > leading {
      assert more[n] == b[n];
      forall j | 0 <= j < n && Comparable(c, norm, more[j], now) ensures c.ratio(norm, more[j].norm) < score {
        assert more[j] == b[j];
        if best.Some? {
          assert b[..n][j] == b[j];
        }
      }
      assert Closest(c, norm, more, now, n);
    } else if best.Some? {
      var k :| 0 <= k < n && Closest(c, norm, b[..n], now, k) && best.value == HitOf(c, norm, b[k], now);
      StillClosest(c, norm, b, n, now, k);
    }
  }

  lemma StillClosest(c: Config, norm: string, b: seq<Entry>, n: nat, now: real, k: nat)
    requires k < n < |b| && Closest(c, norm, b[..n], now, k)
    requires Comparable(c, norm, b[n], now) ==> c.ratio(norm, b[n].norm) <= c.ratio(norm, b[k].norm)
    ensures Closest(c, norm, b[..n + 1], now, k)
  {
    var less, more := b[..n], b[..n + 1];
    assert more[k] == less[k] == b[k];
    forall j | 0 <= j < |more| && Comparable(c, norm, more[j], now)
      ensures c.ratio(norm, more[j].norm) <= c.ratio(norm, more[k].norm)
    {
      assert j < n ==> more[j] == less[j];
    }
    forall j | 0 <= j < k && Comparable(c, norm, more[j], now)
      ensures c.ratio(norm, more[j].norm) < c.ratio(norm, more[k].norm)
    {
      assert more[j] == less[j];
    }
  }

  // ------------------------------------------------------------------- state

  /** The senders in the order they were added, each with a bucket of entries. */
  datatype State = State(order: seq<int>, buckets: map<int, seq<Entry>>)

  function Bucket(s: State, sid: int): seq<Entry> {
    if sid in s.buckets then s.buckets[sid] else []
  }

  /** `pop(sid)`. */
  function Dropped(order: seq<int>, sid: int): seq<int> {
    if order == [] then [] else if order[0] == sid then order[1..] else [order[0]] + Dropped(order[1..], sid)
  }

  function Alive(c: Config, b: seq<Entry>, now: real): seq<Entry> {
    if b == [] then []
    else Alive(c, b[..|b| - 1], now) + if now - b[|b| - 1].at <= c.window then [b[|b| - 1]] else []
  }

  function Collected(c: Config, s: State, sid: int, now: real): State {
    if Bucket(s, sid) == [] then s
    else
      var b := Alive(c, s.buckets[sid], now);
      if b == [] then State(Dropped(s.order, sid), s.buckets - {sid}) else s.(buckets := s.buckets[sid := b])
  }

  function WithoutNorm(b: seq<Entry>, norm: string): seq<Entry> {
    if b == [] then []
    else WithoutNorm(b[..|b| - 1], norm) + if b[|b| - 1].norm == norm then [] else [b[|b| - 1]]
  }

  function Remember(c: Config, b: seq<Entry>, norm: string, now: real): seq<Entry> {
    Newest(WithoutNorm(b, norm) + [Entry(norm, now)], c.keep)
  }

  function Enrolled(c: Config, s: State, sid: int): State {
    if sid in s.buckets then s
    else
      var order := s.order + [sid];
      if |order| > c.sendersMax then State(order[1..], s.buckets[sid := []] - {order[0]})
      else State(order, s.buckets[sid := []])
  }

  function Recorded(c: Config, s: State, sid: int, norm: string, now: real): State {
    var r := Enrolled(c, s, sid);
    r.(buckets := r.buckets[sid := Remember(c, Bucket(r, sid), norm, now)])
  }

  /** Texts the gate has no say in. */
  predicate Skips(c: Config, sid: int, text: string) {
    !c.enabled || Strip(text) == [] || sid <= 0 || c.window <= 0.0 || |c.normalize(text)| < 6
  }

  // --------------------------------------------------------------- the runs

  /** What got through, for each sender. */
  type Log = map<int, seq<Entry>>

  function Of(log: Log, sid: int): seq<Entry> {
    if sid in log then log[sid] else []
  }

  datatype Sys = Sys(s: State, log: Log, clock: real, evicted: set<int>)

  function Started(now: real): Sys {
    Sys(State([], map[]), map[], now, {})
  }

  predicate Blocks(c: Config, s: State, sid: int, text: string, now: real) {
    !Skips(c, sid, text)
      && exists k :: 0 <= k < |Bucket(s, sid)| && Resembles(c, c.normalize(text), Bucket(s, sid)[k], now)
  }

  function Call(c: Config, y: Sys, sid: int, text: string, now: real): Sys {
    if Skips(c, sid, text) then Sys(y.s, y.log, now, y.evicted)
    else
      var s := Collected(c, y.s, sid, now);
      if Blocks(c, s, sid, text, now) then Sys(s, y.log, now, y.evicted)
      else
        var norm := c.normalize(text);
        var r := Recorded(c, s, sid, norm, now);
        Sys(r, y.log[sid := Of(y.log, sid) + [Entry(norm, now)]], now, y.evicted + (s.buckets.Keys - r.buckets.Keys))
  }

  // --------------------------------------------- one sender's bucket and log

  /** The last time a text got through, as an index; -1 if never. */
  function LastIndex(passes: seq<Entry>, norm: string): (i: int)
    ensures -1 <= i < |passes|
    ensures i >= 0 ==> passes[i].norm == norm
    ensures forall j :: i < j < |passes| ==> passes[j].norm != norm
  {
    if passes == [] then -1
    else if passes[|passes| - 1].norm == norm then |passes| - 1
    else LastIndex(passes[..|passes| - 1], norm)
  }

  ghost predicate InOrder(passes: seq<Entry>, clock: real) {
    && (forall i, j :: 0 <= i <= j < |passes| ==> passes[i].at <= passes[j].at)
    && (passes != [] ==> passes[|passes| - 1].at <= clock)
  }

  /** The bucket holds some texts as they last got through, in that order. */
  ghost predicate Traces(b: seq<Entry>, passes: seq<Entry>) {
    && (forall p :: 0 <= p < |b| ==> LastIndex(passes, b[p].norm) >= 0 && b[p] == passes[LastIndex(passes, b[p].norm)])
    && forall p, q :: 0 <= p < q < |b| ==> LastIndex(passes, b[p].norm) < LastIndex(passes, b[q].norm)
  }

  ghost predicate Holds(b: seq<Entry>, norm: string) {
    exists p :: 0 <= p < |b| && b[p].norm == norm
  }

  /** The texts that got through from `i` on. */
  ghost function NormsFrom(passes: seq<Entry>, i: nat): set<string> {
    set j | i <= j < |passes| :: passes[j].norm
  }

  /** A text that got through is in the bucket, or too old, or with what got through since it
      is one of more than `keep` texts. */
  ghost predicate Covered(c: Config, b: seq<Entry>, passes: seq<Entry>, clock: real, i: nat)
    requires i < |passes|
  {
    Holds(b, passes[i].norm) || clock - passes[i].at > c.window || |NormsFrom(passes, i)| > c.keep
  }

  ghost predicate Covers(c: Config, b: seq<Entry>, passes: seq<Entry>, clock: real) {
    forall i :: 0 <= i < |passes| ==> Covered(c, b, passes, clock, i)
  }

  ghost predicate SenderOk(c: Config, b: seq<Entry>, passes: seq<Entry>, clock: real) {
    InOrder(passes, clock) && Traces(b, passes) && |b| <= c.keep
  }

  /** Dropping entries keeps the rest in place. */
  ghost predicate Thinned(b: seq<Entry>, r: seq<Entry>, from: seq<nat>) {
    && |from| == |r|
    && (forall p :: 0 <= p < |r| ==> from[p] < |b| && r[p] == b[from[p]])
    && forall p, q :: 0 <= p < q < |r| ==> from[p] < from[q]
  }

  lemma {:induction false} AliveThins(c: Config, b: seq<Entry>, now: real) returns (from: seq<nat>)
    ensures Thinned(b, Alive(c, b, now), from)
    ensures forall e :: e in Alive(c, b, now) <==> e in b && now - e.at <= c.window
  {
    from := [];
    if b != [] {
      var n := |b| - 1;
      from := AliveThins(c, b[..n], now);
      assert b == b[..n] + [b[n]];
      if now - b[n].at <= c.window {
        from := from + [n];
      }
    }
  }

  lemma {:induction false} WithoutThins(b: seq<Entry>, norm: string) returns (from: seq<nat>)
    ensures Thinned(b, WithoutNorm(b, norm), from)
    ensures forall e :: e in WithoutNorm(b, norm) <==> e in b && e.norm != norm
  {
    from := [];
    if b != [] {
      var n := |b| - 1;
      from := WithoutThins(b[..n], norm);
      assert b == b[..n] + [b[n]];
      if b[n].norm != norm {
        from := from + [n];
      }
    }
  }

  lemma ThinnedLength(b: seq<Entry>, r: seq<Entry>, from: seq<nat>)
    requires Thinned(b, r, from)
    ensures |r| <= |b|
  {
    if r != [] {
      var k := 0;
      while k < |r|
        invariant 0 <= k <= |r| && forall p :: 0 <= p < k ==> from[p] >= p
      {
        if k > 0 {
          assert from[k - 1] < from[k];
        }
        k := k + 1;
      }
      assert from[|r| - 1] >= |r| - 1;
    }
  }

  /** What collecting drops is too old, whichever time it got through. */
  lemma CollectKeeps(c: Config, b: seq<Entry>, passes: seq<Entry>, clock: real, now: real)
    requires SenderOk(c, b, passes, clock) && clock <= now
    ensures SenderOk(c, Alive(c, b, now), passes, now)
    ensures Covers(c, b, passes, clock) ==> Covers(c, Alive(c, b, now), passes, now)
  {
    var r := Alive(c, b, now);
    var from := AliveThins(c, b, now);
    ThinnedLength(b, r, from);
    if Covers(c, b, passes, clock) {
      forall i | 0 <= i < |passes| ensures Covered(c, r, passes, now, i) {
        assert Covered(c, b, passes, clock, i);
        if Holds(b, passes[i].norm) {
          var p :| 0 <= p < |b| && b[p].norm == passes[i].norm;
          assert passes[i].at <= b[p].at;
          if now - b[p].at <= c.window {
            assert b[p] in r;
            var q :| 0 <= q < |r| && r[q] == b[p];
            assert Holds(r, passes[i].norm);
          }
        }
      }
    }
  }

  lemma SenderAges(c: Config, b: seq<Entry>, passes: seq<Entry>, clock: real, now: real)
    requires SenderOk(c, b, passes, clock) && clock <= now
    ensures SenderOk(c, b, passes, now)
    ensures Covers(c, b, passes, clock) ==> Covers(c, b, passes, now)
  {
    if Covers(c, b, passes, clock) {
      forall i | 0 <= i < |passes| ensures Covered(c, b, passes, now, i) {
        assert Covered(c, b, passes, clock, i);
      }
    }
  }

  // ------------------------------------------------------- a new text passes

  lemma AppendTraces(b: seq<Entry>, passes: seq<Entry>, e: Entry)
    requires Traces(b, passes) && forall p :: 0 <= p < |b| ==> b[p].norm != e.norm
    ensures Traces(b + [e], passes + [e])
  {
    var r := b + [e];
    forall p | 0 <= p < |r|
      ensures LastIndex(passes + [e], r[p].norm) == if p < |b| then LastIndex(passes, b[p].norm) else |passes|
    {
    }
  }

  /** The entries of a bucket are different texts, and none got through before the first. */
  lemma NormsSpread(b: seq<Entry>, passes: seq<Entry>, i: nat)
    requires Traces(b, passes) && b != [] && i < |passes| && passes[i].norm == b[0].norm
    ensures |NormsFrom(passes, i)| >= |b|
  {
    var norms := seq(|b|, p requires 0 <= p < |b| => b[p].norm);
    var first := LastIndex(passes, b[0].norm);
    assert i <= first;
    forall x | x in norms ensures x in NormsFrom(passes, i) {
      var p :| 0 <= p < |b| && x == b[p].norm;
      var j := LastIndex(passes, b[p].norm);
      assert first <= j && passes[j].norm == x;
    }
    forall p, q | 0 <= p < q < |norms| ensures norms[p] != norms[q] {
      assert LastIndex(passes, b[p].norm) < LastIndex(passes, b[q].norm);
    }
    DistinctCount(norms, NormsFrom(passes, i));
  }

  lemma MoreNorms(passes: seq<Entry>, e: Entry, i: nat)
    requires i < |passes|
    ensures |NormsFrom(passes, i)| <= |NormsFrom(passes + [e], i)|
  {
    var more := passes + [e];
    forall x | x in NormsFrom(passes, i) ensures x in NormsFrom(more, i) {
      var j :| i <= j < |passes| && passes[j].norm == x;
      assert more[j].norm == x;
    }
    SubsetCount(NormsFrom(passes, i), NormsFrom(more, i));
  }

  /** The bucket with a text at its end, before it is cut. */
  lemma Refreshed(b: seq<Entry>, passes: seq<Entry>, e: Entry)
    requires Traces(b, passes)
    ensures Traces(WithoutNorm(b, e.norm) + [e], passes + [e])
  {
    var kept := WithoutNorm(b, e.norm);
    var from := WithoutThins(b, e.norm);
    assert forall p :: 0 <= p < |kept| ==> kept[p] in kept;
    AppendTraces(kept, passes, e);
  }

  lemma RememberKeepsShape(c: Config, b: seq<Entry>, passes: seq<Entry>, norm: string, now: real)
    requires c.Valid() && SenderOk(c, b, passes, now)
    ensures SenderOk(c, Remember(c, b, norm, now), passes + [Entry(norm, now)], now)
  {
    var e := Entry(norm, now);
    Refreshed(b, passes, e);
    var all := WithoutNorm(b, norm) + [e];
  }

  lemma HoldsMost(b: seq<Entry>, norm: string, e: Entry, other: string)
    requires Holds(b, other) || other == e.norm
    requires norm == e.norm
    ensures Holds(WithoutNorm(b, norm) + [e], other)
  {
    var kept := WithoutNorm(b, norm);
    var from := WithoutThins(b, norm);
    if other == e.norm {
      assert (kept + [e])[|kept|] == e;
    } else {
      var p :| 0 <= p < |b| && b[p].norm == other;
      assert b[p] in kept;
      var q :| 0 <= q < |kept| && kept[q] == b[p];
      assert (kept + [e])[q].norm == other;
    }
  }

  /** Cutting a bucket to `keep` entries drops only a text after which `keep` others passed. */
  lemma CutCovers(c: Config, all: seq<Entry>, passes: seq<Entry>, now: real, i: nat)
    requires Traces(all, passes) && |all| <= c.keep + 1 && i < |passes| && Holds(all, passes[i].norm)
    ensures Covered(c, Newest(all, c.keep), passes, now, i)
  {
    var p :| 0 <= p < |all| && all[p].norm == passes[i].norm;
    var r := Newest(all, c.keep);
    if |all| <= c.keep || p > 0 {
      var cut := |all| - |r|;
      assert r[p - cut] == all[p];
    } else {
      NormsSpread(all, passes, i);
    }
  }

  lemma RememberCovers(c: Config, b: seq<Entry>, passes: seq<Entry>, norm: string, now: real)
    requires c.Valid() && SenderOk(c, b, passes, now) && Covers(c, b, passes, now)
    ensures Covers(c, Remember(c, b, norm, now), passes + [Entry(norm, now)], now)
  {
    var e := Entry(norm, now);
    var kept, more := WithoutNorm(b, norm), passes + [e];
    var from := WithoutThins(b, norm);
    ThinnedLength(b, kept, from);
    Refreshed(b, passes, e);
    forall i | 0 <= i < |more| ensures Covered(c, Remember(c, b, norm, now), more, now, i) {
      if i < |passes| {
        assert Covered(c, b, passes, now, i) && more[i] == passes[i];
        MoreNorms(passes, e, i);
      }
      if i == |passes| || Holds(b, passes[i].norm) {
        HoldsMost(b, norm, e, more[i].norm);
        CutCovers(c, kept + [e], more, now, i);
      }
    }
  }

  // -------------------------------------------------------------- all senders

  ghost predicate Distinct(order: seq<int>) {
    forall i, j :: 0 <= i < j < |order| ==> order[i] != order[j]
  }

  ghost predicate OrderOk(c: Config, s: State) {
    |s.order| <= c.sendersMax && (forall u :: u in s.order <==> u in s.buckets) && Distinct(s.order)
  }

  ghost predicate BucketOk(c: Config, y: Sys, u: int) {
    && SenderOk(c, Bucket(y.s, u), Of(y.log, u), y.clock)
    && (u !in y.evicted ==> Covers(c, Bucket(y.s, u), Of(y.log, u), y.clock))
  }

  ghost predicate Inv(c: Config, y: Sys) {
    OrderOk(c, y.s) && forall u :: BucketOk(c, y, u)
  }

  lemma FirstDropped(order: seq<int>)
    requires Distinct(order) && order != []
    ensures Distinct(order[1..]) && forall u :: u in order[1..] <==> u in order && u != order[0]
  {
    var rest := order[1..];
    assert order == [order[0]] + rest;
    assert forall i :: 0 <= i < |rest| ==> rest[i] == order[i + 1];
  }

  lemma FirstAdded(sid: int, order: seq<int>)
    requires Distinct(order) && sid !in order
    ensures Distinct([sid] + order)
  {
  }

  lemma {:induction false} DroppedOrder(order: seq<int>, sid: int)
    requires Distinct(order)
    ensures |Dropped(order, sid)| <= |order| && Distinct(Dropped(order, sid))
    ensures forall u :: u in Dropped(order, sid) <==> u in order && u != sid
  {
    if order != [] {
      FirstDropped(order);
      var rest := Dropped(order[1..], sid);
      DroppedOrder(order[1..], sid);
      FirstAdded(order[0], rest);
      assert order == [order[0]] + order[1..];
    }
  }

  lemma CollectedKeepsOrder(c: Config, s: State, sid: int, now: real)
    requires OrderOk(c, s)
    ensures OrderOk(c, Collected(c, s, sid, now))
  {
    DroppedOrder(s.order, sid);
  }

  lemma CollectedBuckets(c: Config, s: State, sid: int, now: real, u: int)
    ensures Bucket(Collected(c, s, sid, now), u) == if u == sid then Alive(c, Bucket(s, u), now) else Bucket(s, u)
  {
  }

  lemma LastAdded(order: seq<int>, sid: int)
    requires Distinct(order) && sid !in order
    ensures Distinct(order + [sid]) && forall u :: u in order + [sid] <==> u in order || u == sid
  {
  }

  lemma EnrolledKeepsOrder(c: Config, s: State, sid: int)
    requires c.Valid() && OrderOk(c, s)
    ensures OrderOk(c, Enrolled(c, s, sid)) && sid in Enrolled(c, s, sid).buckets
  {
    if sid !in s.buckets {
      LastAdded(s.order, sid);
      FirstDropped(s.order + [sid]);
    }
  }

  lemma RecordedBuckets(c: Config, s: State, sid: int, norm: string, now: real, u: int)
    requires c.Valid() && OrderOk(c, s)
    ensures var r := Recorded(c, s, sid, norm, now);
      && OrderOk(c, r)
      && (u == sid ==> Bucket(r, u) == Remember(c, Bucket(s, u), norm, now))
      && (u != sid && !(u in s.buckets && u !in r.buckets) ==> Bucket(r, u) == Bucket(s, u))
      && (u != sid ==> Bucket(r, u) == Bucket(s, u) || Bucket(r, u) == [])
  {
    EnrolledKeepsOrder(c, s, sid);
    var e, r := Enrolled(c, s, sid), Recorded(c, s, sid, norm, now);
    assert forall v :: v in r.buckets <==> v in e.buckets;
    if sid !in s.buckets && |s.order| + 1 > c.sendersMax {
      assert s.order != [] && (s.order + [sid])[0] == s.order[0] && s.order[0] in s.buckets;
    }
  }

  /** One call: the buckets of the other senders stay, or one of them is forgotten. */
  lemma CallKeeps(c: Config, y: Sys, sid: int, text: string, now: real)
    requires c.Valid() && Inv(c, y) && y.clock <= now
    ensures Inv(c, Call(c, y, sid, text, now))
  {
    var z := Call(c, y, sid, text, now);
    CollectedKeepsOrder(c, y.s, sid, now);
    if !Skips(c, sid, text) && !Blocks(c, Collected(c, y.s, sid, now), sid, text, now) {
      RecordedBuckets(c, Collected(c, y.s, sid, now), sid, c.normalize(text), now, sid);
    }
    forall u ensures BucketOk(c, z, u) {
      assert BucketOk(c, y, u);
      CallKeepsBucket(c, y, sid, text, now, u);
    }
  }

  lemma CallKeepsBucket(c: Config, y: Sys, sid: int, text: string, now: real, u: int)
    requires c.Valid() && OrderOk(c, y.s) && BucketOk(c, y, u) && y.clock <= now
    ensures BucketOk(c, Call(c, y, sid, text, now), u)
  {
    var b, passes := Bucket(y.s, u), Of(y.log, u);
    SenderAges(c, b, passes, y.clock, now);
    if !Skips(c, sid, text) {
      var s := Collected(c, y.s, sid, now);
      CollectedKeepsOrder(c, y.s, sid, now);
      CollectedBuckets(c, y.s, sid, now, u);
      CollectKeeps(c, b, passes, y.clock, now);
      if !Blocks(c, s, sid, text, now) {
        RecordKeepsBucket(c, Sys(s, y.log, now, y.evicted), sid, c.normalize(text), u);
      }
    }
  }

  function Passed(c: Config, y: Sys, sid: int, norm: string): Sys {
    var r := Recorded(c, y.s, sid, norm, y.clock);
    Sys(r, y.log[sid := Of(y.log, sid) + [Entry(norm, y.clock)]], y.clock,
      y.evicted + (y.s.buckets.Keys - r.buckets.Keys))
  }

  lemma RecordKeepsBucket(c: Config, y: Sys, sid: int, norm: string, u: int)
    requires c.Valid() && OrderOk(c, y.s) && BucketOk(c, y, u)
    ensures BucketOk(c, Passed(c, y, sid, norm), u)
  {
    RecordedBuckets(c, y.s, sid, norm, y.clock, u);
    if u == sid {
      RememberKeepsShape(c, Bucket(y.s, u), Of(y.log, u), norm, y.clock);
      if u !in y.evicted {
        RememberCovers(c, Bucket(y.s, u), Of(y.log, u), norm, y.clock);
      }
    }
  }

  ghost predicate Closed(c: Config, states: iset<Sys>) {
    && (forall now :: Started(now) in states)
    && forall y, sid, text, now :: y in states && y.clock <= now ==> Call(c, y, sid, text, now) in states
  }

  /** The states that calls in clock order lead to. */
  ghost predicate Reachable(c: Config, y: Sys) {
    forall states: iset<Sys> :: Closed(c, states) ==> y in states
  }

  lemma ReachableStart(c: Config, now: real)
    ensures Reachable(c, Started(now))
  {
  }

  lemma ReachableCall(c: Config, y: Sys, sid: int, text: string, now: real)
    requires Reachable(c, y) && y.clock <= now
    ensures Reachable(c, Call(c, y, sid, text, now))
  {
  }

  lemma EveryRunIsSound(c: Config, y: Sys)
    requires c.Valid() && Reachable(c, y)
    ensures Inv(c, y)
  {
    var good := iset z: Sys | Inv(c, z);
    forall now ensures Started(now) in good {
    }
    forall z, sid, text, now | z in good && z.clock <= now ensures Call(c, z, sid, text, now) in good {
      CallKeeps(c, z, sid, text, now);
    }
    assert Closed(c, good);
  }

  // ---------------------------------------------------------- what it means

  /** Some earlier text of the sender that got through holds this one back. */
  ghost predicate Witness(c: Config, passes: seq<Entry>, norm: string, now: real, i: nat)
    requires i < |passes|
  {
    Resembles(c, norm, passes[i], now)
  }

  ghost predicate Witnessed(c: Config, passes: seq<Entry>, norm: string, now: real) {
    exists i :: 0 <= i < |passes| && Witness(c, passes, norm, now, i)
  }

  /** Every block is due to an earlier text of the same sender that itself got through,
      recently, is that similar and differs in more than digits. */
  lemma BlockIsWitnessed(c: Config, y: Sys, sid: int, text: string, now: real)
    requires c.Valid() && Reachable(c, y) && y.clock <= now && Blocks(c, y.s, sid, text, now)
    ensures Witnessed(c, Of(y.log, sid), c.normalize(text), now)
  {
    EveryRunIsSound(c, y);
    assert BucketOk(c, y, sid);
    var b, passes := Bucket(y.s, sid), Of(y.log, sid);
    var k :| 0 <= k < |b| && Resembles(c, c.normalize(text), b[k], now);
    assert Witness(c, passes, c.normalize(text), now, LastIndex(passes, b[k].norm));
  }

  /** Once the window since the sender's last text that got through is over, anything gets
      through, however often the sender tried in between. */
  lemma BlockingEnds(c: Config, y: Sys, sid: int, text: string, now: real)
    requires c.Valid() && Reachable(c, y) && y.clock <= now
    requires Of(y.log, sid) != [] ==> now - Of(y.log, sid)[|Of(y.log, sid)| - 1].at > c.window
    ensures !Blocks(c, y.s, sid, text, now)
  {
    EveryRunIsSound(c, y);
    assert BucketOk(c, y, sid);
    if Blocks(c, y.s, sid, text, now) {
      BlockIsWitnessed(c, y, sid, text, now);
    }
  }

  /** The texts that got through within the window. */
  ghost function RecentNorms(c: Config, passes: seq<Entry>, now: real): set<string> {
    set j | 0 <= j < |passes| && now - passes[j].at <= c.window :: passes[j].norm
  }

  /** For a sender never forgotten, with no more than `keep` different texts through in the
      window, the gate decides on the sender's whole history. */
  lemma BlocksIffWitnessed(c: Config, y: Sys, sid: int, text: string, now: real)
    requires c.Valid() && Reachable(c, y) && y.clock <= now && !Skips(c, sid, text)
    requires sid !in y.evicted && |RecentNorms(c, Of(y.log, sid), now)| <= c.keep
    ensures Blocks(c, y.s, sid, text, now) <==> Witnessed(c, Of(y.log, sid), c.normalize(text), now)
  {
    EveryRunIsSound(c, y);
    assert BucketOk(c, y, sid);
    var b, passes, norm := Bucket(y.s, sid), Of(y.log, sid), c.normalize(text);
    if Blocks(c, y.s, sid, text, now) {
      BlockIsWitnessed(c, y, sid, text, now);
    }
    if Witnessed(c, passes, norm, now) {
      var i :| 0 <= i < |passes| && Witness(c, passes, norm, now, i);
      WitnessIsHeld(c, b, passes, y.clock, now, norm, i);
    }
  }

  lemma WitnessIsHeld(c: Config, b: seq<Entry>, passes: seq<Entry>, clock: real, now: real, norm: string, i: nat)
    requires c.Valid() && SenderOk(c, b, passes, clock) && Covers(c, b, passes, clock) && clock <= now
    requires |RecentNorms(c, passes, now)| <= c.keep && i < |passes| && Witness(c, passes, norm, now, i)
    ensures exists k :: 0 <= k < |b| && Resembles(c, norm, b[k], now)
  {
    assert Covered(c, b, passes, clock, i);
    FewNorms(c, passes, now, i);
    var k :| 0 <= k < |b| && b[k].norm == passes[i].norm;
    assert passes[i].at <= b[k].at;
    assert Resembles(c, norm, b[k], now);
  }

  lemma FewNorms(c: Config, passes: seq<Entry>, now: real, i: nat)
    requires InOrder(passes, now) && i < |passes| && now - passes[i].at <= c.window
    ensures |NormsFrom(passes, i)| <= |RecentNorms(c, passes, now)|
  {
    forall x | x in NormsFrom(passes, i) ensures x in RecentNorms(c, passes, now) {
      var j :| i <= j < |passes| && passes[j].norm == x;
      assert passes[i].at <= passes[j].at;
    }
    SubsetCount(NormsFrom(passes, i), RecentNorms(c, passes, now));
  }

  /** Collecting first makes no difference to the verdict. */
  lemma CollectingIsHarmless(c: Config, s: State, sid: int, text: string, now: real)
    ensures Blocks(c, Collected(c, s, sid, now), sid, text, now) <==> Blocks(c, s, sid, text, now)
  {
    var b := Bucket(s, sid);
    CollectedBuckets(c, s, sid, now, sid);
    var r := Alive(c, b, now);
    var from := AliveThins(c, b, now);
    var norm := c.normalize(text);
    if Blocks(c, s, sid, text, now) {
      var k :| 0 <= k < |b| && Resembles(c, norm, b[k], now);
      assert b[k] in r;
      var j :| 0 <= j < |r| && r[j] == b[k];
      assert Resembles(c, norm, r[j], now);
    }
    if Blocks(c, Collected(c, s, sid, now), sid, text, now) {
      var k :| 0 <= k < |r| && Resembles(c, norm, r[k], now);
      assert r[k] in b;
      var j :| 0 <= j < |b| && b[j] == r[k];
      assert Resembles(c, norm, b[j], now);
    }
  }

  /** The memory stays bounded. */
  lemma MemoryIsBounded(c: Config, y: Sys, sid: int)
    requires c.Valid() && Reachable(c, y)
    ensures |y.s.order| <= c.sendersMax && |Bucket(y.s, sid)| <= c.keep
  {
    EveryRunIsSound(c, y);
    assert BucketOk(c, y, sid);
  }

  // ------------------------------------------------------- the answer in full

  ghost predicate DigitOrHash(c: Config, ch: char) {
    c.digit(ch) || ch == '#'
  }

  /** The texts differ at most in which digits they hold. */
  ghost predicate SameButDigits(c: Config, a: string, b: string) {
    && |a| == |b|
    && forall k :: 0 <= k < |a| ==> a[k] == b[k] || (DigitOrHash(c, a[k]) && DigitOrHash(c, b[k]))
  }

  lemma {:induction false} MaskedAt(c: Config, s: string)
    ensures |Masked(c, s)| == |s|
    ensures forall k :: 0 <= k < |s| ==> Masked(c, s)[k] == if c.digit(s[k]) then '#' else s[k]
  {
    if s != [] {
      MaskedAt(c, s[1..]);
    }
  }

  /** Masking the digits makes two texts equal exactly when they differ in digits alone. */
  lemma MaskedIff(c: Config, a: string, b: string)
    ensures Masked(c, a) == Masked(c, b) <==> SameButDigits(c, a, b)
  {
    MaskedAt(c, a);
    MaskedAt(c, b);
    var x, y := Masked(c, a), Masked(c, b);
    if x == y {
      forall k | 0 <= k < |a| ensures a[k] == b[k] || (DigitOrHash(c, a[k]) && DigitOrHash(c, b[k])) {
        assert x[k] == y[k];
      }
    }
    if SameButDigits(c, a, b) {
      forall k | 0 <= k < |x| ensures x[k] == y[k] {
        assert a[k] == b[k] || (DigitOrHash(c, a[k]) && DigitOrHash(c, b[k]));
      }
    }
  }

  /** The text is one the gate looks at: the gate is on, the sender is known, the text is long
      enough. */
  ghost predicate LooksAt(c: Config, sid: int, text: string) {
    c.enabled && c.window > 0.0 && sid >= 1 && Strip(text) != [] && |c.normalize(text)| >= 6
  }

  /** The entry holds the text back: it is no older than the window, differs in more than digits
      and is as similar as the threshold asks. */
  ghost predicate HoldsBack(c: Config, norm: string, e: Entry, now: real) {
    now - e.at <= c.window && !SameButDigits(c, norm, e.norm) && c.ratio(norm, e.norm) >= c.threshold
  }

  lemma ResemblesIff(c: Config, norm: string, e: Entry, now: real)
    ensures Resembles(c, norm, e, now) <==> HoldsBack(c, norm, e, now)
  {
    MaskedIff(c, norm, e.norm);
  }

  ghost predicate HeldBack(c: Config, b: seq<Entry>, sid: int, text: string, now: real) {
    LooksAt(c, sid, text) && exists e :: e in b && HoldsBack(c, c.normalize(text), e, now)
  }

  /** A text is blocked exactly when the gate looks at it and an entry holds it back; so texts
      that differ in digits alone never block each other. */
  lemma BlocksIff(c: Config, s: State, sid: int, text: string, now: real)
    ensures Blocks(c, s, sid, text, now) <==> HeldBack(c, Bucket(s, sid), sid, text, now)
  {
    var b, norm := Bucket(s, sid), c.normalize(text);
    forall e ensures Resembles(c, norm, e, now) <==> HoldsBack(c, norm, e, now) {
      ResemblesIff(c, norm, e, now);
    }
    if e :| e in b && HoldsBack(c, norm, e, now) {
      var k :| 0 <= k < |b| && b[k] == e;
      assert Resembles(c, norm, b[k], now);
    }
  }

  ghost predicate Reports(c: Config, norm: string, e: Entry, now: real, h: Hit) {
    && h.score == c.ratio(norm, e.norm) && h.age == now - e.at
    && h.excerpt <= e.norm && (|h.excerpt| == 120 || (h.excerpt == e.norm && |e.norm| < 120))
  }

  /** A report names an entry that holds the text back, the most similar one, by its start, its
      score and its age. */
  lemma ReportIsClosest(c: Config, norm: string, b: seq<Entry>, now: real, h: Hit)
    requires Judged(c, norm, b, now, Some(h))
    ensures exists e :: e in b && HoldsBack(c, norm, e, now) && Reports(c, norm, e, now, h)
    ensures forall e :: e in b && HoldsBack(c, norm, e, now) ==> c.ratio(norm, e.norm) <= h.score
  {
    var k :| 0 <= k < |b| && Closest(c, norm, b, now, k) && h == HitOf(c, norm, b[k], now);
    ResemblesIff(c, norm, b[k], now);
    assert Reports(c, norm, b[k], now, h);
    forall e | e in b && HoldsBack(c, norm, e, now) ensures c.ratio(norm, e.norm) <= h.score {
      var j :| 0 <= j < |b| && b[j] == e;
      ResemblesIff(c, norm, b[j], now);
    }
  }

  /** What is remembered of a sender after a text got through: this text last, and before it the
      newest others, as they were, up to `keep` in all. */
  lemma RememberedInFull(c: Config, b: seq<Entry>, norm: string, now: real)
    requires c.Valid()
    ensures var r := Remember(c, b, norm, now);
      && 1 <= |r| <= c.keep && r[|r| - 1] == Entry(norm, now)
      && (forall k :: 0 <= k < |r| - 1 ==> r[k] in b && r[k].norm != norm)
      && (|r| < c.keep ==> forall e :: e in b && e.norm != norm ==> e in r)
  {
    var kept := WithoutNorm(b, norm);
    var from := WithoutThins(b, norm);
    var all, r := kept + [Entry(norm, now)], Remember(c, b, norm, now);
    forall k | 0 <= k < |r| - 1 ensures r[k] in b && r[k].norm != norm {
      assert r[k] == all[|all| - |r| + k] && all[|all| - |r| + k] in kept;
    }
  }

  /** A sender is forgotten only for a new one, when as many as allowed are remembered, and then
      it is the one remembered longest. */
  lemma ForgetsTheFirst(c: Config, s: State, sid: int, norm: string, now: real, u: int)
    requires c.Valid() && OrderOk(c, s) && u in s.buckets
    ensures u !in Recorded(c, s, sid, norm, now).buckets <==>
      sid !in s.buckets && |s.order| == c.sendersMax && u == s.order[0]
  {
    if |s.order| >= c.sendersMax {
      assert (s.order + [sid])[0] == s.order[0] && s.order[0] in s.order;
    }
  }

  // -------------------------------------------------------------- the object

  class Gate {
    const config: Config
    var order: seq<int>
    var recent: map<int, seq<Entry>>
    ghost var log: Log
    ghost var clock: real
    ghost var evicted: set<int>

    ghost function View(): Sys
      reads this
    {
      Sys(State(order, recent), log, clock, evicted)
    }

    /** The object is in a state that calls in clock order lead to. */
    ghost predicate Valid()
      reads this
    {
      config.Valid() && Reachable(config, View())
    }

    constructor (c: Config, now: real)
      requires c.Valid()
      ensures Valid() && config == c && View() == Started(now)
    {
      config := c;
      order, recent, log, clock, evicted := [], map[], map[], now, {};
      new;
      ReachableStart(c, now);
    }

    /** Drops what is too old, and the sender with it if nothing is left. */
    method CollectSender(sid: int, now: real)
      modifies this`order, this`recent
      ensures View().s == Collected(config, old(View()).s, sid, now)
    {
      if sid in recent && recent[sid] != [] {
        var b, alive := recent[sid], [];
        for k := 0 to |b|
          invariant alive == Alive(config, b[..k], now) && View() == old(View())
        {
          assert b[..k + 1][..k] == b[..k];
          if now - b[k].at <= config.window {
            alive := alive + [b[k]];
          }
        }
        assert b[..|b|] == b;
        if alive == [] {
          order, recent := Dropped(order, sid), recent - {sid};
        } else {
          recent := recent[sid := alive];
        }
      }
    }

    /** Compares with every entry and keeps the first of the best. */
    method FindHit(norm: string, b: seq<Entry>, now: real) returns (hit: Option<Hit>)
      requires config.Valid()
      ensures Judged(config, norm, b, now, hit)
    {
      var best: Option<Hit> := None;
      for n := 0 to |b|
        invariant Scanned(config, norm, b, n, now, best)
      {
        ScanNext(config, norm, b, n, now, best);
        if now - b[n].at > config.window || Masked(config, norm) == Masked(config, b[n].norm) {
          continue;
        }
        var score := config.ratio(norm, b[n].norm);
        if score > (if best.None? then 0.0 else best.value.score) {
          best := Some(HitOf(config, norm, b[n], now));
        }
      }
      hit := if best.Some? && best.value.score >= config.threshold then best else None;
    }

    method Record(sid: int, norm: string, now: real)
      modifies this`order, this`recent
      ensures View().s == Recorded(config, old(View()).s, sid, norm, now)
    {
      if sid !in recent {
        order, recent := order + [sid], recent[sid := []];
        if |order| > config.sendersMax {
          order, recent := order[1..], recent - {order[0]};
        }
      }
      assert View().s == Enrolled(config, old(View()).s, sid);
      var b := WithoutNorm(if sid in recent then recent[sid] else [], norm) + [Entry(norm, now)];
      recent := recent[sid := if |b| <= config.keep then b else b[|b| - config.keep..]];
    }

    /** By `BlockIsWitnessed`, `BlockingEnds` and `BlocksIffWitnessed`, holds a text back for
        a recent similar one that got through, and for nothing else. */
    method CheckAndRecord(sid: int, text: string, now: real) returns (hit: Option<Hit>)
      requires Valid() && clock <= now
      modifies this
      ensures Valid() && View() == Call(config, old(View()), sid, text, now)
      ensures hit.Some? <==> HeldBack(config, if sid in old(recent) then old(recent)[sid] else [], sid, text, now)
      ensures !LooksAt(config, sid, text) ==> View().s == old(View()).s
      ensures LooksAt(config, sid, text) && hit.None? ==>
        sid in recent && recent[sid] != [] && recent[sid][|recent[sid]| - 1] == Entry(config.normalize(text), now)
      ensures hit.Some? ==> Judged(config, config.normalize(text), Bucket(View().s, sid), now, hit)
    {
      ghost var y := View();
      ReachableCall(config, y, sid, text, now);
      BlocksIff(config, y.s, sid, text, now);
      hit := None;
      clock := now;
      if !config.enabled || Strip(text) == [] || sid <= 0 || config.window <= 0.0 {
        return;
      }
      var norm := config.normalize(text);
      if |norm| < 6 {
        return;
      }
      CollectSender(sid, now);
      CollectingIsHarmless(config, y.s, sid, text, now);
      ghost var s := View().s;
      hit := FindHit(norm, if sid in recent then recent[sid] else [], now);
      if hit.None? {
        RememberedInFull(config, Bucket(Enrolled(config, s, sid), sid), norm, now);
        Record(sid, norm, now);
        log := log[sid := Of(log, sid) + [Entry(norm, now)]];
        evicted := evicted + (s.buckets.Keys - recent.Keys);
      }
    }
  }
}
