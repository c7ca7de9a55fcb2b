/** The placeholders of clauses.py. */
module Clauses {
  import opened Sequences
  import opened Text

  // Phrases are hidden behind placeholders, the text is cut at contrast words, sequence words
  // and punctuation (in `ClauseSplit`), and the phrases are put back.

  const NUL: char := '\U{0}'
  const MARK: char := '\U{1}'

  /** The phrases that no cut may split. */
  const KEEP: seq<string> := [
    "ان شاء الله", "سلام عليكم", "السلام عليكم", "صباح الخير", "مساء الخير",
    "شكرا جزيلا", "شكرا لكم", "ما قصرتوا", "ما قصرتو", "ربي يعطيكم"
  ]

  const CONTRAST: seq<string> := [
    "لكن", "لكنه", "لكنها", "لكنّ", "بس", "غير ان", "الا ان", "الا انه", "however", "but"
  ]

  const SEQUENCE: seq<string> := [
    "بعدين", "وبعدين", "و بعدين", "ثم", "كمان عندي", "عندي كمان"
  ]

  // ------------------------------------------------- strings and placeholders

  /** A character no placeholder contains. */
  predicate Quiet(c: char) {
    c != NUL && !IsDigit(c)
  }

  predicate Plain(s: string) {
    forall k :: 0 <= k < |s| ==> Quiet(s[k])
  }

  ghost predicate NulFree(s: string) {
    NUL !in s
  }

  ghost predicate PhraseOk(p: string) {
    |p| >= 2 && Arabic(p) && Plain(p) && Trimmed(p)
  }

  predicate Arabic(s: string) {
    forall k :: 0 <= k < |s| ==> s[k] == ' ' || '\U{621}' <= s[k] <= '\U{64A}'
  }

  lemma PhrasesAreTrimmed(i: nat)
    requires i < |KEEP|
    ensures Trimmed(KEEP[i])
  {
  }

  lemma Phrases(i: nat)
    requires i < |KEEP|
    ensures PhraseOk(KEEP[i])
  {
    PhrasesAreTrimmed(i);
  }

  function Digit(i: nat): char
    requires i < 10
  {
    '0' + i as char
  }

  function Hole(i: nat): string
    requires i < 10
  {
    [NUL, Digit(i), NUL]
  }

  predicate HoleAt(s: string) {
    |s| >= 3 && s[0] == NUL && IsDigit(s[1]) && s[2] == NUL
  }

  function Number(c: char): (i: nat)
    requires IsDigit(c)
    ensures i < 10 && Digit(i) == c
  {
    (c - '0') as nat
  }

  /** `s.replace(what, other)`. */
  function Replace(s: string, what: string, other: string): string
    requires what != []
  {
    if s == [] then []
    else if what <= s then other + Replace(s[|what|..], what, other)
    else [s[0]] + Replace(s[1..], what, other)
  }

  /** `what in s`. */
  predicate Occurs(s: string, what: string)
    requires what != []
  {
    s != [] && (what <= s || Occurs(s[1..], what))
  }

  lemma {:induction false} ReplaceAbsent(s: string, what: string, other: string)
    requires what != [] && !Occurs(s, what)
    ensures Replace(s, what, other) == s
  {
    if s != [] {
      ReplaceAbsent(s[1..], what, other);
    }
  }

  // --------------------------------------------------- well-formed texts

  /** Every NUL belongs to a placeholder. */
  predicate Good(s: string) {
    s == [] || if HoleAt(s) then Good(s[3..]) else s[0] != NUL && Good(s[1..])
  }

  /** The text with every placeholder read as its phrase. */
  function Meaning(s: string): string {
    if s == [] then []
    else if HoleAt(s) then KEEP[Number(s[1])] + Meaning(s[3..])
    else [s[0]] + Meaning(s[1..])
  }

  /** The placeholders of a text. */
  function Holes(s: string): set<nat> {
    if s == [] then {}
    else if HoleAt(s) then {Number(s[1])} + Holes(s[3..])
    else Holes(s[1..])
  }

  /** A digit `i` stands between two placeholders that are still there when placeholder `i`
      is looked for, so that the search finds the middle of the three. */
  predicate Straddled(s: string, i: nat)
    requires i < 10 && HoleAt(s)
  {
    s[1] > Digit(i) && |s| > 4 && s[3] == Digit(i) && HoleAt(s[4..]) && s[5] >= Digit(i)
  }

  predicate Crossed(s: string, i: nat)
    requires i < 10
  {
    s != [] && if HoleAt(s) then Straddled(s, i) || Crossed(s[3..], i) else Crossed(s[1..], i)
  }

  lemma {:induction false} NulFreeGood(s: string)
    requires NulFree(s)
    ensures Good(s) && Meaning(s) == s && Holes(s) == {}
  {
    if s != [] {
      assert s[0] in s && forall c :: c in s[1..] ==> c in s;
      NulFreeGood(s[1..]);
    }
  }

  lemma HoleFirst(hole: string, rest: string)
    requires |hole| == 3 && HoleAt(hole)
    ensures var s := hole + rest;
      && HoleAt(s) && s[1] == hole[1] && s[3..] == rest && Good(s) == Good(rest)
      && Meaning(s) == KEEP[Number(hole[1])] + Meaning(rest) && Holes(s) == {Number(hole[1])} + Holes(rest)
  {
    var s := hole + rest;
    assert s[1] == hole[1] && s[3..] == rest;
  }

  lemma CharFirst(c: char, rest: string)
    requires c != NUL
    ensures var s := [c] + rest;
      && !HoleAt(s) && s[1..] == rest && Good(s) == Good(rest)
      && Meaning(s) == [c] + Meaning(rest) && Holes(s) == Holes(rest)
  {
    assert ([c] + rest)[1..] == rest;
  }

  lemma {:induction false} GoodJoin(a: string, b: string)
    requires Good(a)
    ensures Good(a + b) == Good(b) && Meaning(a + b) == Meaning(a) + Meaning(b)
    ensures Holes(a + b) == Holes(a) + Holes(b)
  {
    if a == [] {
      assert a + b == b;
    } else if HoleAt(a) {
      var hole, rest := a[..3], a[3..];
      GoodJoin(rest, b);
      assert a == hole + rest;
      HoleFirst(hole, rest);
      HoleFirst(hole, rest + b);
      Regroup(hole, rest, b);
      Regroup(KEEP[Number(hole[1])], Meaning(rest), Meaning(b));
    } else {
      var c, rest := a[0], a[1..];
      GoodJoin(rest, b);
      assert a == [c] + rest;
      CharFirst(c, rest);
      CharFirst(c, rest + b);
      Regroup([c], rest, b);
      Regroup([c], Meaning(rest), Meaning(b));
    }
  }

  lemma PlainJoin(p: string, b: string)
    requires Plain(p)
    ensures Good(p) && Meaning(p) == p && Holes(p) == {}
    ensures Good(p + b) == Good(b) && Meaning(p + b) == p + Meaning(b) && Holes(p + b) == Holes(b)
  {
    NulFreeGood(p);
    GoodJoin(p, b);
  }

  // -------------------------------------------------------------- protecting

  lemma HidePastHole(s: string, i: nat)
    requires HoleAt(s) && i < |KEEP|
    ensures var r, x := Replace(s, KEEP[i], Hole(i)), Replace(s[3..], KEEP[i], Hole(i));
      && Good(r) == Good(x) && Meaning(r) == KEEP[Number(s[1])] + Meaning(x) && Holes(r) == {Number(s[1])} + Holes(x)
  {
    HideSkipsHole(s, i);
    HoleFirst(s[..3], Replace(s[3..], KEEP[i], Hole(i)));
  }

  lemma ReplacePastChar(s: string, what: string, other: string)
    requires s != [] && s[0] != NUL && what != [] && !(what <= s)
    ensures var r, x := Replace(s, what, other), Replace(s[1..], what, other);
      Good(r) == Good(x) && Meaning(r) == [s[0]] + Meaning(x) && Holes(r) == Holes(x)
  {
    CharFirst(s[0], Replace(s[1..], what, other));
  }

  /** Hiding a phrase keeps the text well formed and its meaning. */
  lemma {:induction false} HideKeepsMeaning(s: string, i: nat)
    requires Good(s) && i < |KEEP|
    ensures var r := Replace(s, KEEP[i], Hole(i));
      Good(r) && Meaning(r) == Meaning(s) && Holes(r) <= Holes(s) + {i}
  {
    Phrases(i);
    var p := KEEP[i];
    if s == [] {
    } else if p <= s {
      var rest := s[|p|..];
      assert s == p + rest;
      PlainJoin(p, rest);
      HideKeepsMeaning(rest, i);
      HoleFirst(Hole(i), Replace(rest, p, Hole(i)));
    } else if HoleAt(s) {
      HideKeepsMeaning(s[3..], i);
      HidePastHole(s, i);
    } else {
      HideKeepsMeaning(s[1..], i);
      ReplacePastChar(s, p, Hole(i));
    }
  }

  lemma HideSkipsHole(s: string, i: nat)
    requires HoleAt(s) && i < |KEEP|
    ensures Replace(s, KEEP[i], Hole(i)) == s[..3] + Replace(s[3..], KEEP[i], Hole(i))
  {
    Phrases(i);
    var p := KEEP[i];
    assert Quiet(p[0]);
    var a, b, x := s[1..], s[2..], Replace(s[3..], p, Hole(i));
    assert a[0] == s[1] && a[1..] == b && b[0] == s[2] && b[1..] == s[3..];
    assert Replace(b, p, Hole(i)) == [s[2]] + x;
    assert Replace(a, p, Hole(i)) == [s[1]] + Replace(b, p, Hole(i));
    assert Replace(s, p, Hole(i)) == [s[0]] + Replace(a, p, Hole(i));
  }

  /** The text after the first `n` phrases were hidden. */
  function Protected(text: string, n: nat): string
    requires n <= |KEEP|
  {
    if n == 0 then text
    else Replace(Protected(text, n - 1), KEEP[n - 1], Hole(n - 1))
  }

  /** The phrases among the first `n` that were found. */
  function Found(text: string, n: nat): (keys: seq<nat>)
    requires n <= |KEEP|
    ensures forall i :: 0 <= i < |keys| ==> keys[i] < n
    ensures forall i, j :: 0 <= i < j < |keys| ==> keys[i] < keys[j]
  {
    if n == 0 then []
    else Found(text, n - 1) + if Occurs(Protected(text, n - 1), KEEP[n - 1]) then [n - 1] else []
  }

  lemma {:induction false} ProtectKeepsMeaning(text: string, n: nat)
    requires NulFree(text) && n <= |KEEP|
    ensures Good(Protected(text, n)) && Meaning(Protected(text, n)) == text
    ensures forall i :: i in Holes(Protected(text, n)) ==> i in Found(text, n)
  {
    if n == 0 {
      NulFreeGood(text);
    } else {
      ProtectKeepsMeaning(text, n - 1);
      var s := Protected(text, n - 1);
      HideKeepsMeaning(s, n - 1);
      if !Occurs(s, KEEP[n - 1]) {
        ReplaceAbsent(s, KEEP[n - 1], Hole(n - 1));
      }
    }
  }

  // --------------------------------------------------------------- restoring

  /** The text after the phrases of `keys` were put back, in that order. */
  function Restored(s: string, keys: seq<nat>): string
    requires forall k :: 0 <= k < |keys| ==> keys[k] < |KEEP|
  {
    if keys == [] then s
    else
      var i := keys[|keys| - 1];
      Replace(Restored(s, keys[..|keys| - 1]), Hole(i), KEEP[i])
  }

  ghost predicate AtLeast(holes: set<nat>, i: nat) {
    forall h :: h in holes ==> i <= h
  }

  lemma MiddleIsStraddled(s: string, i: nat)
    requires Good(s) && HoleAt(s) && i < |KEEP| && Number(s[1]) > i && Hole(i) <= s[2..]
    requires AtLeast(Holes(s), i)
    ensures Straddled(s, i)
  {
    var b, c, d := s[2..], s[3..], s[4..];
    assert c == b[1..] && d == c[1..] && c[0] == b[1] && d[0] == b[2];
    assert Good(c) && !HoleAt(c) && Good(d) && HoleAt(d);
    assert Number(d[1]) in Holes(d) && Holes(d) == Holes(c) && Holes(c) <= Holes(s);
  }

  /** The search for a placeholder passes over another one, unless the two are straddled. */
  lemma ShowSkipsHole(s: string, i: nat)
    requires Good(s) && HoleAt(s) && i < |KEEP| && Number(s[1]) > i && !Straddled(s, i)
    requires AtLeast(Holes(s), i)
    ensures Replace(s, Hole(i), KEEP[i]) == s[..3] + Replace(s[3..], Hole(i), KEEP[i])
  {
    var a, b, c := s[1..], s[2..], s[3..];
    assert a[0] == s[1] && a[1..] == b && b[0] == s[2] && b[1..] == c;
    if Hole(i) <= b {
      MiddleIsStraddled(s, i);
    }
    var x := Replace(c, Hole(i), KEEP[i]);
    assert Replace(b, Hole(i), KEEP[i]) == [s[2]] + x;
    assert Replace(a, Hole(i), KEEP[i]) == [s[1]] + Replace(b, Hole(i), KEEP[i]);
    assert Replace(s, Hole(i), KEEP[i]) == [s[0]] + Replace(a, Hole(i), KEEP[i]);
  }

  lemma ShowPastHole(s: string, i: nat)
    requires Good(s) && HoleAt(s) && i < |KEEP| && Number(s[1]) > i && !Straddled(s, i) && AtLeast(Holes(s), i)
    ensures var r, x := Replace(s, Hole(i), KEEP[i]), Replace(s[3..], Hole(i), KEEP[i]);
      && Good(r) == Good(x) && Meaning(r) == KEEP[Number(s[1])] + Meaning(x) && Holes(r) == {Number(s[1])} + Holes(x)
  {
    ShowSkipsHole(s, i);
    HoleFirst(s[..3], Replace(s[3..], Hole(i), KEEP[i]));
  }

  /** Putting a phrase back keeps the text well formed and its meaning when no digit is
      taken for the middle of its placeholder. */
  lemma {:induction false} ShowKeepsMeaning(s: string, i: nat)
    requires Good(s) && i < |KEEP| && !Crossed(s, i)
    requires AtLeast(Holes(s), i)
    ensures var r := Replace(s, Hole(i), KEEP[i]);
      Good(r) && Meaning(r) == Meaning(s) && Holes(r) == Holes(s) - {i}
  {
    Phrases(i);
    if s == [] {
    } else if Hole(i) <= s {
      assert HoleAt(s) && Number(s[1]) == i;
      ShowKeepsMeaning(s[3..], i);
      PlainJoin(KEEP[i], Replace(s[3..], Hole(i), KEEP[i]));
    } else if HoleAt(s) {
      assert Number(s[1]) in Holes(s) && s[1] != Digit(i);
      ShowKeepsMeaning(s[3..], i);
      ShowPastHole(s, i);
    } else {
      ShowKeepsMeaning(s[1..], i);
      ReplacePastChar(s, Hole(i), KEEP[i]);
    }
  }

  /** A text that is ill formed, or in which a digit is so taken, is ill formed ever after. */
  lemma {:induction false} ShowKeepsDamage(s: string, i: nat)
    requires i < |KEEP| && Good(Replace(s, Hole(i), KEEP[i]))
    ensures Good(s) && !Crossed(s, i)
  {
    Phrases(i);
    var p := KEEP[i];
    var r := Replace(s, Hole(i), p);
    if s == [] {
    } else if Hole(i) <= s {
      PlainJoin(p, Replace(s[3..], Hole(i), p));
      ShowKeepsDamage(s[3..], i);
    } else if s[0] != NUL {
      var tail := Replace(s[1..], Hole(i), p);
      assert r == [s[0]] + tail && r[1..] == tail;
      ShowKeepsDamage(s[1..], i);
    } else {
      DamagedHole(s, i);
      ShowKeepsDamage(s[3..], i);
    }
  }

  lemma DamagedHole(s: string, i: nat)
    requires i < |KEEP| && Good(Replace(s, Hole(i), KEEP[i]))
    requires s != [] && s[0] == NUL && !(Hole(i) <= s)
    ensures HoleAt(s) && !Straddled(s, i) && Good(Replace(s[3..], Hole(i), KEEP[i]))
  {
    Phrases(i);
    var p := KEEP[i];
    assert Quiet(p[0]);
    var a := s[1..];
    var r := Replace(s, Hole(i), p);
    var ra := Replace(a, Hole(i), p);
    assert r == [s[0]] + ra;
    assert HoleAt(r) && r[1] == ra[0] && r[2] == ra[1];
    assert a != [] && ra[0] == a[0];
    var b := a[1..];
    var rb := Replace(b, Hole(i), p);
    assert ra == [a[0]] + rb && rb[0] == NUL;
    assert b != [] && b[0] == NUL && !(Hole(i) <= b);
    assert b[1..] == s[3..] && rb == [b[0]] + Replace(b[1..], Hole(i), p);
    assert r[3..] == Replace(s[3..], Hole(i), p);
    assert |b| >= 3 ==> b[1] == s[3] && b[2] == s[4];
  }

  /** Putting one phrase back changes nothing about the digits of the later ones. */
  lemma {:induction false} ShowKeepsCrossings(s: string, i: nat, j: nat)
    requires Good(s) && i < j < |KEEP| && !Crossed(s, i)
    requires AtLeast(Holes(s), i)
    ensures Crossed(Replace(s, Hole(i), KEEP[i]), j) == Crossed(s, j)
  {
    Phrases(i);
    var r := Replace(s, Hole(i), KEEP[i]);
    if s == [] {
    } else if Hole(i) <= s {
      ShowKeepsCrossings(s[3..], i, j);
      PlainCrossed(KEEP[i], Replace(s[3..], Hole(i), KEEP[i]), j);
    } else if HoleAt(s) {
      assert Number(s[1]) in Holes(s) && s[1] != Digit(i);
      ShowSkipsHole(s, i);
      ShowKeepsCrossings(s[3..], i, j);
      var tail := Replace(s[3..], Hole(i), KEEP[i]);
      ShowKeepsStraddle(s, i, j);
    } else {
      ShowKeepsCrossings(s[1..], i, j);
      var tail := Replace(s[1..], Hole(i), KEEP[i]);
      assert r == [s[0]] + tail && r[1..] == tail;
    }
  }

  lemma {:induction false} PlainCrossed(p: string, b: string, j: nat)
    requires Plain(p) && j < 10
    ensures Crossed(p + b, j) == Crossed(b, j)
  {
    if p == [] {
      assert p + b == b;
    } else {
      assert Quiet(p[0]) && (p + b)[0] == p[0] && (p + b)[1..] == p[1..] + b;
      PlainCrossed(p[1..], b, j);
    }
  }

  lemma ShowKeepsStraddle(s: string, i: nat, j: nat)
    requires Good(s) && HoleAt(s) && i < j < |KEEP| && Number(s[1]) > i && !Crossed(s, i)
    requires AtLeast(Holes(s), i)
    requires HoleAt(Replace(s, Hole(i), KEEP[i]))
    ensures Straddled(Replace(s, Hole(i), KEEP[i]), j) == Straddled(s, j)
  {
    ShowSkipsHole(s, i);
    Phrases(i);
    var p := KEEP[i];
    assert Quiet(p[0]);
    var r, c := Replace(s, Hole(i), p), s[3..];
    var rc := Replace(c, Hole(i), p);
    assert r[3..] == rc && r[1] == s[1];
    if c != [] && c[0] == Digit(j) {
      var d := c[1..];
      var rd := Replace(d, Hole(i), p);
      assert rc == [c[0]] + rd && r[4..] == rd && s[4..] == d;
      assert !HoleAt(c) && Holes(d) == Holes(c) && Holes(c) <= Holes(s);
      assert Good(c) && !Crossed(c, i) && !Crossed(d, i);
      ShowKeepsFirstHole(d, i);
    }
  }

  lemma ShowKeepsFirstHole(d: string, i: nat)
    requires Good(d) && i < |KEEP| && !Crossed(d, i)
    requires AtLeast(Holes(d), i)
    ensures var r := Replace(d, Hole(i), KEEP[i]);
      if HoleAt(d) && Number(d[1]) > i then HoleAt(r) && r[1] == d[1] else !HoleAt(r)
  {
    Phrases(i);
    assert Quiet(KEEP[i][0]);
    if HoleAt(d) && Number(d[1]) > i {
      ShowSkipsHole(d, i);
    } else if HoleAt(d) {
      assert Number(d[1]) in Holes(d);
    }
  }

  /** Some digit of the text is taken for the middle of a placeholder. */
  ghost predicate Misread(s: string, keys: seq<nat>)
    requires forall k :: 0 <= k < |keys| ==> keys[k] < |KEEP|
  {
    exists k :: 0 <= k < |keys| && Crossed(s, keys[k])
  }

  ghost predicate Ascending(keys: seq<nat>) {
    && (forall k :: 0 <= k < |keys| ==> keys[k] < |KEEP|)
    && forall i, j :: 0 <= i < j < |keys| ==> keys[i] < keys[j]
  }

  ghost predicate Covers(keys: seq<nat>, holes: set<nat>) {
    forall h :: h in holes ==> h in keys
  }

  /** After the first `n` phrases are back the text still means the same, only the other
      placeholders are left, and the later digits are as they were. */
  ghost predicate Halfway(s: string, keys: seq<nat>, n: nat)
    requires Ascending(keys) && n <= |keys|
  {
    var r := Restored(s, keys[..n]);
    && Good(r) && Meaning(r) == Meaning(s)
    && Covers(keys[n..], Holes(r))
    && forall k :: n <= k < |keys| ==> Crossed(r, keys[k]) == Crossed(s, keys[k])
  }

  lemma RestoreStep(s: string, keys: seq<nat>, n: nat)
    requires Ascending(keys) && n < |keys| && Halfway(s, keys, n)
    ensures Crossed(s, keys[n]) ==> !Good(Restored(s, keys[..n + 1]))
    ensures !Crossed(s, keys[n]) ==> Halfway(s, keys, n + 1)
  {
    var i := keys[n];
    var r := Restored(s, keys[..n]);
    assert keys[..n + 1][..n] == keys[..n];
    assert Restored(s, keys[..n + 1]) == Replace(r, Hole(i), KEEP[i]);
    if Crossed(r, i) {
      if Good(Restored(s, keys[..n + 1])) {
        ShowKeepsDamage(r, i);
      }
    } else {
      ShowKeepsMeaning(r, i);
      forall k | n < k < |keys| ensures Crossed(Replace(r, Hole(i), KEEP[i]), keys[k]) == Crossed(s, keys[k]) {
        ShowKeepsCrossings(r, i, keys[k]);
      }
    }
  }

  lemma MisreadNext(s: string, keys: seq<nat>, n: nat)
    requires Ascending(keys) && n < |keys|
    ensures Misread(s, keys[..n + 1]) <==> Misread(s, keys[..n]) || Crossed(s, keys[n])
  {
    var before, now := keys[..n], keys[..n + 1];
    assert now[..n] == before && now[n] == keys[n];
    if Misread(s, before) {
      var k :| 0 <= k < |before| && Crossed(s, before[k]);
      assert now[k] == before[k];
    }
    if Misread(s, now) {
      var k :| 0 <= k < |now| && Crossed(s, now[k]);
      assert k < n ==> before[k] == now[k];
    }
  }

  lemma DamageStays(s: string, keys: seq<nat>, n: nat)
    requires Ascending(keys) && n < |keys| && !Good(Restored(s, keys[..n]))
    ensures !Good(Restored(s, keys[..n + 1]))
  {
    assert keys[..n + 1][..n] == keys[..n];
    if Good(Restored(s, keys[..n + 1])) {
      ShowKeepsDamage(Restored(s, keys[..n]), keys[n]);
    }
  }

  lemma {:induction false} RestoreHalfway(s: string, keys: seq<nat>, n: nat)
    requires Ascending(keys) && n <= |keys| && Good(s) && Covers(keys, Holes(s))
    ensures Misread(s, keys[..n]) ==> !Good(Restored(s, keys[..n]))
    ensures !Misread(s, keys[..n]) ==> Halfway(s, keys, n)
  {
    if n == 0 {
      assert keys[..0] == [] && keys[0..] == keys;
    } else {
      RestoreHalfway(s, keys, n - 1);
      MisreadNext(s, keys, n - 1);
      if Misread(s, keys[..n - 1]) {
        DamageStays(s, keys, n - 1);
      } else {
        RestoreStep(s, keys, n - 1);
      }
    }
  }

  lemma {:induction false} NoHoles(s: string)
    requires Good(s) && Holes(s) == {}
    ensures Meaning(s) == s && NulFree(s)
  {
    if s != [] {
      assert s == [s[0]] + s[1..];
      NoHoles(s[1..]);
    }
  }

  /** Putting the phrases back gives the meaning of a text exactly when no digit of it is
      misread; otherwise what comes out still holds a NUL. */
  lemma RestoreGivesMeaning(s: string, keys: seq<nat>)
    requires Ascending(keys) && Good(s) && Covers(keys, Holes(s))
    ensures if Misread(s, keys) then NUL in Restored(s, keys) else Restored(s, keys) == Meaning(s)
  {
    var r := Restored(s, keys);
    assert keys[..|keys|] == keys;
    RestoreHalfway(s, keys, |keys|);
    if Misread(s, keys) {
      if NulFree(r) {
        NulFreeGood(r);
      }
    } else {
      assert Holes(r) == {};
      NoHoles(r);
    }
  }

  /** For any text without NUL, restoring what was protected gives back the text exactly
      when no digit of it is misread. */
  lemma RoundTrip(text: string)
    requires NulFree(text)
    ensures var keys := Found(text, |KEEP|);
      Restored(Protected(text, |KEEP|), keys) == text <==> !Misread(Protected(text, |KEEP|), keys)
  {
    ProtectKeepsMeaning(text, |KEEP|);
    RestoreGivesMeaning(Protected(text, |KEEP|), Found(text, |KEEP|));
  }

  lemma {:induction false} CrossingNeedsDigit(s: string, i: nat)
    requires i < 10 && Crossed(s, i)
    ensures Digit(i) in Meaning(s)
  {
    if HoleAt(s) && Straddled(s, i) {
      assert !HoleAt(s[3..]) && s[3..][0] == Digit(i);
    } else if HoleAt(s) {
      CrossingNeedsDigit(s[3..], i);
    } else {
      CrossingNeedsDigit(s[1..], i);
    }
  }

  /** In particular the round trip is exact for every text without NUL and digits, however
      its phrases overlap. */
  lemma PlainRoundTrip(text: string)
    requires Plain(text)
    ensures Restored(Protected(text, |KEEP|), Found(text, |KEEP|)) == text
  {
    var s, keys := Protected(text, |KEEP|), Found(text, |KEEP|);
    ProtectKeepsMeaning(text, |KEEP|);
    if Misread(s, keys) {
      var k :| 0 <= k < |keys| && Crossed(s, keys[k]);
      CrossingNeedsDigit(s, keys[k]);
    }
    RoundTrip(text);
  }

  // A digit between two phrases, the first of which has the higher number, is misread.

  predicate NoStart(a: string, what: string, k: nat)
    requires k < |a| && |what| >= 2
  {
    a[k] != what[0] || (k + 1 < |a| && a[k + 1] != what[1])
  }

  lemma {:induction false} ReplaceLater(a: string, s: string, what: string, other: string)
    requires |what| >= 2
    requires forall k :: 0 <= k < |a| ==> NoStart(a, what, k)
    ensures Replace(a + s, what, other) == a + Replace(s, what, other)
    ensures Occurs(a + s, what) == Occurs(s, what)
  {
    if a == [] {
      assert a + s == s && a + Replace(s, what, other) == Replace(s, what, other);
    } else {
      assert (a + s)[1..] == a[1..] + s && (a + s)[0] == a[0];
      assert |a| > 1 ==> (a + s)[1] == a[1];
      var rest := a[1..];
      forall k | 0 <= k < |rest| ensures NoStart(rest, what, k) {
        assert NoStart(a, what, k + 1);
      }
      assert NoStart(a, what, 0);
      ReplaceLater(rest, s, what, other);
    }
  }

  lemma NothingToHide(s: string, i: nat)
    requires i < |KEEP| && forall k :: 0 <= k < |s| ==> !Quiet(s[k])
    ensures Replace(s, KEEP[i], Hole(i)) == s && !Occurs(s, KEEP[i])
  {
    Phrases(i);
    assert Quiet(KEEP[i][0]) && s + [] == s;
    ReplaceLaterQuiet(s, KEEP[i], Hole(i));
  }

  lemma {:induction false} ReplaceLaterQuiet(s: string, what: string, other: string)
    requires what != [] && what[0] !in s
    ensures Replace(s, what, other) == s && !Occurs(s, what)
  {
    if s != [] {
      assert s[0] in s && forall c :: c in s[1..] ==> c in s;
      ReplaceLaterQuiet(s[1..], what, other);
    }
  }

  const STRADDLING: string := KEEP[1] + "0" + KEEP[0]

  /** The second phrase is hidden first. */
  lemma StraddlingFirst(p: string, q: string)
    requires p == KEEP[0] && q == KEEP[1]
    ensures Replace(q + "0" + p, p, Hole(0)) == q + "0" + Hole(0) && Occurs(q + "0" + p, p)
  {
    var a := q + "0";
    ReplaceLater(a, p, p, Hole(0));
    assert Replace(p, p, Hole(0)) == Hole(0) + Replace([], p, Hole(0));
  }

  lemma StraddlingSecond(q: string)
    requires q == KEEP[1]
    ensures Replace(q + "0" + Hole(0), q, Hole(1)) == Hole(1) + "0" + Hole(0) && Occurs(q + "0" + Hole(0), q)
  {
    var b := "0" + Hole(0);
    var t := q + "0" + Hole(0);
    assert t == q + b && q <= t && t[|q|..] == b;
    ReplaceLaterQuiet(b, q, Hole(1));
  }

  lemma {:induction false} StraddlingProtected(n: nat)
    requires 2 <= n <= |KEEP|
    ensures Protected(STRADDLING, n) == Hole(1) + "0" + Hole(0) && Found(STRADDLING, n) == [0, 1]
  {
    if n == 2 {
      StraddlingFirst(KEEP[0], KEEP[1]);
      StraddlingSecond(KEEP[1]);
      assert Protected(STRADDLING, 0) == STRADDLING && Found(STRADDLING, 0) == [];
      assert Found(STRADDLING, 1) == [0];
    } else {
      StraddlingProtected(n - 1);
      NothingToHide(Hole(1) + "0" + Hole(0), n - 1);
    }
  }

  /** The digit matters: this text is not given back. */
  lemma DigitsAreMisread()
    ensures NulFree(STRADDLING)
    ensures Restored(Protected(STRADDLING, |KEEP|), Found(STRADDLING, |KEEP|)) != STRADDLING
  {
    Phrases(0);
    Phrases(1);
    assert forall k :: 0 <= k < |STRADDLING| ==> STRADDLING[k] != NUL;
    StraddlingProtected(|KEEP|);
    var s := Protected(STRADDLING, |KEEP|);
    assert Straddled(s, 0);
    assert Crossed(s, Found(STRADDLING, |KEEP|)[0]);
    RoundTrip(STRADDLING);
  }
}
