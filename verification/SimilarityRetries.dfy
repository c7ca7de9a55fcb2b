/** Blocked tries leave no trace in the similarity gate: a run without them gives the same
    verdicts. */
module SimilarityRetries {
  import opened SimilarityGate

  /** One call of `check_and_record`. */
  datatype Try = Try(sid: int, text: string, at: real)

  function Made(c: Config, y: Sys, t: Try): Sys {
    Call(c, y, t.sid, t.text, t.at)
  }

  predicate Stopped(c: Config, y: Sys, t: Try) {
    Blocks(c, y.s, t.sid, t.text, t.at)
  }

  function After(c: Config, y: Sys, tries: seq<Try>): Sys
    decreases |tries|
  {
    if tries == [] then y else After(c, Made(c, y, tries[0]), tries[1..])
  }

  /** The tries of a run that were not blocked. */
  function Kept(c: Config, y: Sys, tries: seq<Try>): seq<Try>
    decreases |tries|
  {
    if tries == [] then []
    else
      var rest := Kept(c, Made(c, y, tries[0]), tries[1..]);
      if Stopped(c, y, tries[0]) then rest else [tries[0]] + rest
  }

  /** The tries come in clock order. */
  predicate Timed(clock: real, tries: seq<Try>)
    decreases |tries|
  {
    tries != [] ==> clock <= tries[0].at && Timed(tries[0].at, tries[1..])
  }

  ghost predicate Filled(s: State) {
    forall u :: u in s.buckets ==> s.buckets[u] != []
  }

  ghost predicate Shaped(c: Config, s: State) {
    OrderOk(c, s) && Filled(s)
  }

  /** The states differ at most in entries that are too old by the later clock. */
  ghost predicate Alike(c: Config, x: Sys, y: Sys) {
    && x.clock <= y.clock && x.log == y.log && x.evicted == y.evicted && x.s.order == y.s.order
    && Shaped(c, x.s) && Shaped(c, y.s)
    && forall u :: SameAlive(c, x.s, y.s, u, y.clock)
  }

  ghost predicate SameAlive(c: Config, s: State, t: State, u: int, now: real) {
    Alive(c, Bucket(s, u), now) == Alive(c, Bucket(t, u), now)
  }

  lemma {:induction false} AliveTwice(c: Config, b: seq<Entry>, now: real, later: real)
    requires now <= later
    ensures Alive(c, Alive(c, b, now), later) == Alive(c, b, later)
  {
    if b != [] {
      var e, rest := b[|b| - 1], Alive(c, b[..|b| - 1], now);
      AliveTwice(c, b[..|b| - 1], now, later);
      if now - e.at <= c.window {
        var x := rest + [e];
        assert Alive(c, b, now) == x && x[..|x| - 1] == rest && x[|x| - 1] == e;
      } else {
        assert Alive(c, b, now) == rest;
      }
    }
  }

  lemma SameAliveLater(c: Config, s: State, t: State, u: int, now: real, later: real)
    requires SameAlive(c, s, t, u, now) && now <= later
    ensures SameAlive(c, s, t, u, later)
  {
    AliveTwice(c, Bucket(s, u), now, later);
    AliveTwice(c, Bucket(t, u), now, later);
  }

  lemma CollectedShape(c: Config, s: State, sid: int, now: real)
    requires Shaped(c, s)
    ensures Shaped(c, Collected(c, s, sid, now))
    ensures Collected(c, s, sid, now).order ==
      if sid in s.buckets && Alive(c, s.buckets[sid], now) == [] then Dropped(s.order, sid)
      else s.order
  {
    CollectedKeepsOrder(c, s, sid, now);
  }

  /** Collecting changes nothing that is not too old. */
  lemma CollectedAlive(c: Config, s: State, sid: int, u: int, now: real)
    ensures SameAlive(c, s, Collected(c, s, sid, now), u, now)
  {
    CollectedBuckets(c, s, sid, now, u);
    AliveTwice(c, Bucket(s, u), now, now);
  }

  lemma RecordedShape(c: Config, s: State, sid: int, norm: string, now: real)
    requires c.Valid() && Shaped(c, s)
    ensures Shaped(c, Recorded(c, s, sid, norm, now))
  {
    RecordedBuckets(c, s, sid, norm, now, sid);
  }

  lemma CallShape(c: Config, y: Sys, t: Try)
    requires c.Valid() && Shaped(c, y.s)
    ensures Shaped(c, Made(c, y, t).s)
  {
    CollectedShape(c, y.s, t.sid, t.at);
    RecordedShape(c, Collected(c, y.s, t.sid, t.at), t.sid, c.normalize(t.text), t.at);
  }

  lemma ReachableShape(c: Config, y: Sys)
    requires c.Valid() && Reachable(c, y)
    ensures Alike(c, y, y)
  {
    var good := iset z: Sys | Shaped(c, z.s);
    forall z, sid, text, now | z in good && z.clock <= now ensures Call(c, z, sid, text, now) in good {
      CallShape(c, z, Try(sid, text, now));
    }
    assert Closed(c, good);
  }

  lemma StoppedByAlive(c: Config, x: Sys, y: Sys, t: Try)
    requires SameAlive(c, x.s, y.s, t.sid, t.at)
    ensures Stopped(c, x, t) <==> Stopped(c, y, t)
  {
    CollectingIsHarmless(c, x.s, t.sid, t.text, t.at);
    CollectingIsHarmless(c, y.s, t.sid, t.text, t.at);
    CollectedBuckets(c, x.s, t.sid, t.at, t.sid);
    CollectedBuckets(c, y.s, t.sid, t.at, t.sid);
  }

  /** States that are alike give the same verdict. */
  lemma SameVerdict(c: Config, x: Sys, y: Sys, t: Try)
    requires Alike(c, x, y) && y.clock <= t.at
    ensures Stopped(c, x, t) <==> Stopped(c, y, t)
  {
    SameAliveLater(c, x.s, y.s, t.sid, y.clock, t.at);
    StoppedByAlive(c, x, y, t);
  }

  /** A blocked call only collects. */
  lemma BlockedStaysAlike(c: Config, x: Sys, y: Sys, t: Try)
    requires Alike(c, x, y) && y.clock <= t.at && Stopped(c, y, t)
    ensures Alike(c, x, Made(c, y, t))
  {
    var s := Collected(c, y.s, t.sid, t.at);
    CollectingIsHarmless(c, y.s, t.sid, t.text, t.at);
    CollectedBuckets(c, y.s, t.sid, t.at, t.sid);
    CollectedShape(c, y.s, t.sid, t.at);
    forall u ensures SameAlive(c, x.s, s, u, t.at) {
      SameAliveLater(c, x.s, y.s, u, y.clock, t.at);
      CollectedAlive(c, y.s, t.sid, u, t.at);
    }
  }

  lemma CollectedAlike(c: Config, x: Sys, y: Sys, sid: int, now: real)
    requires Alike(c, x, y) && y.clock <= now
    ensures var a, b := Collected(c, x.s, sid, now), Collected(c, y.s, sid, now);
      Alike(c, Sys(a, x.log, now, x.evicted), Sys(b, y.log, now, y.evicted)) && Bucket(a, sid) == Bucket(b, sid)
  {
    var a, b := Collected(c, x.s, sid, now), Collected(c, y.s, sid, now);
    CollectedShape(c, x.s, sid, now);
    CollectedShape(c, y.s, sid, now);
    forall u ensures SameAlive(c, x.s, y.s, u, now) && SameAlive(c, a, b, u, now) {
      SameAliveLater(c, x.s, y.s, u, y.clock, now);
      CollectedAlive(c, x.s, sid, u, now);
      CollectedAlive(c, y.s, sid, u, now);
    }
    CollectedBuckets(c, x.s, sid, now, sid);
    CollectedBuckets(c, y.s, sid, now, sid);
    assert SameAlive(c, x.s, y.s, sid, now);
  }

  lemma SameKeys(c: Config, x: Sys, y: Sys, u: int)
    requires Alike(c, x, y)
    ensures u in x.s.buckets <==> u in y.s.buckets
  {
    assert u in x.s.order <==> u in x.s.buckets;
  }

  lemma RecordedKeys(c: Config, s: State, t: State, sid: int, norm: string, now: real)
    requires s.order == t.order && s.buckets.Keys == t.buckets.Keys
    ensures var a, b := Recorded(c, s, sid, norm, now), Recorded(c, t, sid, norm, now);
      a.order == b.order && a.buckets.Keys == b.buckets.Keys
  {
  }

  lemma RecordedAlike(c: Config, x: Sys, y: Sys, sid: int, norm: string)
    requires c.Valid() && Alike(c, x, y) && x.clock == y.clock && Bucket(x.s, sid) == Bucket(y.s, sid)
    ensures Alike(c, Passed(c, x, sid, norm), Passed(c, y, sid, norm))
  {
    var now := y.clock;
    var a, b := Recorded(c, x.s, sid, norm, now), Recorded(c, y.s, sid, norm, now);
    forall u ensures u in x.s.buckets.Keys <==> u in y.s.buckets.Keys {
      SameKeys(c, x, y, u);
    }
    RecordedKeys(c, x.s, y.s, sid, norm, now);
    RecordedShape(c, x.s, sid, norm, now);
    RecordedShape(c, y.s, sid, norm, now);
    forall u ensures SameAlive(c, a, b, u, now) {
      assert SameAlive(c, x.s, y.s, u, now);
      RecordedBuckets(c, x.s, sid, norm, now, u);
      RecordedBuckets(c, y.s, sid, norm, now, u);
    }
  }

  lemma CallStaysAlike(c: Config, x: Sys, y: Sys, t: Try)
    requires c.Valid() && Alike(c, x, y) && y.clock <= t.at
    ensures Alike(c, Made(c, x, t), Made(c, y, t))
  {
    forall u ensures SameAlive(c, x.s, y.s, u, t.at) {
      SameAliveLater(c, x.s, y.s, u, y.clock, t.at);
    }
    if !Skips(c, t.sid, t.text) {
      var a := Sys(Collected(c, x.s, t.sid, t.at), x.log, t.at, x.evicted);
      var b := Sys(Collected(c, y.s, t.sid, t.at), y.log, t.at, y.evicted);
      CollectedAlike(c, x, y, t.sid, t.at);
      RecordedAlike(c, a, b, t.sid, c.normalize(t.text));
    }
  }

  lemma {:induction false} RunStaysAlike(c: Config, x: Sys, y: Sys, tries: seq<Try>)
    requires c.Valid() && Alike(c, x, y) && Timed(y.clock, tries)
    ensures Alike(c, After(c, x, tries), After(c, y, tries))
    decreases |tries|
  {
    if tries != [] {
      CallStaysAlike(c, x, y, tries[0]);
      RunStaysAlike(c, Made(c, x, tries[0]), Made(c, y, tries[0]), tries[1..]);
    }
  }

  /** A blocked try changes no later verdict, of whichever sender, however the run goes on. */
  lemma RetriesDoNotProlong(c: Config, y: Sys, blocked: Try, tries: seq<Try>, next: Try)
    requires c.Valid() && Reachable(c, y) && y.clock <= blocked.at && Stopped(c, y, blocked)
    requires Timed(blocked.at, tries + [next])
    ensures Stopped(c, After(c, Made(c, y, blocked), tries), next) <==> Stopped(c, After(c, y, tries), next)
    ensures var a, b := After(c, Made(c, y, blocked), tries), After(c, y, tries);
      a.log == b.log && a.evicted == b.evicted
  {
    ReachableShape(c, y);
    BlockedStaysAlike(c, y, y, blocked);
    TimedPrefix(blocked.at, tries, next);
    RunStaysAlike(c, y, Made(c, y, blocked), tries);
    RunClock(c, Made(c, y, blocked), tries, next);
    SameVerdict(c, After(c, y, tries), After(c, Made(c, y, blocked), tries), next);
  }

  lemma {:induction false} TimedPrefix(clock: real, tries: seq<Try>, next: Try)
    requires Timed(clock, tries + [next])
    ensures Timed(clock, tries)
    decreases |tries|
  {
    if tries != [] {
      assert (tries + [next])[1..] == tries[1..] + [next];
      TimedPrefix(tries[0].at, tries[1..], next);
    }
  }

  lemma {:induction false} RunClock(c: Config, y: Sys, tries: seq<Try>, next: Try)
    requires Timed(y.clock, tries + [next])
    ensures After(c, y, tries).clock <= next.at
    decreases |tries|
  {
    if tries != [] {
      assert (tries + [next])[1..] == tries[1..] + [next];
      RunClock(c, Made(c, y, tries[0]), tries[1..], next);
    }
  }

  lemma {:induction false} KeptStaysAlike(c: Config, x: Sys, y: Sys, tries: seq<Try>)
    requires c.Valid() && Alike(c, x, y) && Timed(y.clock, tries)
    ensures Alike(c, After(c, x, Kept(c, y, tries)), After(c, y, tries))
    decreases |tries|
  {
    if tries != [] {
      var t, z := tries[0], Made(c, y, tries[0]);
      if Stopped(c, y, t) {
        BlockedStaysAlike(c, x, y, t);
        KeptStaysAlike(c, x, z, tries[1..]);
      } else {
        CallStaysAlike(c, x, y, t);
        KeptStaysAlike(c, Made(c, x, t), z, tries[1..]);
        var rest := Kept(c, z, tries[1..]);
        assert ([t] + rest)[1..] == rest;
      }
    }
  }

  /** Only what got through counts: a run without its blocked tries gives the same verdict on
      any next text, and lets the same texts through. */
  lemma OnlyPassesMatter(c: Config, y: Sys, tries: seq<Try>, next: Try)
    requires c.Valid() && Reachable(c, y) && Timed(y.clock, tries + [next])
    ensures Stopped(c, After(c, y, Kept(c, y, tries)), next) <==> Stopped(c, After(c, y, tries), next)
    ensures After(c, y, Kept(c, y, tries)).log == After(c, y, tries).log
  {
    ReachableShape(c, y);
    TimedPrefix(y.clock, tries, next);
    KeptStaysAlike(c, y, y, tries);
    RunClock(c, y, tries, next);
    SameVerdict(c, After(c, y, Kept(c, y, tries)), After(c, y, tries), next);
  }
}
