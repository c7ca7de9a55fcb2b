/** `split_clauses`: the protected text is cut at separators; the restored pieces and the
    separators between them tile the text, and the clauses are the first distinct pieces
    that are long enough. */
module ClauseSplit {
  import opened Sequences
  import opened Sets
  import opened Text
  import opened Clauses
  import opened ClauseMarks
  import opened TokenCuts
  import opened ClauseCuts

  // ----------------------------------------------------- parts and meanings

  /** A text that restoring gives back in full. */
  ghost predicate Whole(s: string, keys: seq<nat>) {
    Ascending(keys) && Good(s) && Covers(keys, Holes(s)) && !Misread(s, keys)
  }

  lemma {:induction false} CutIsGood(a: string, b: string)
    requires Good(a + b) && (b == [] || Quiet(b[0]))
    ensures Good(a) && Good(b)
    ensures forall i :: 0 <= i < 10 && Crossed(a, i) ==> Crossed(a + b, i)
    ensures forall i :: 0 <= i < 10 && Crossed(b, i) ==> Crossed(a + b, i)
  {
    if a == [] {
      assert a + b == b;
    } else if HoleAt(a + b) {
      assert b == [] || (a + b)[|a|] == b[0];
      assert HoleAt(a) && (a + b)[3..] == a[3..] + b;
      CutIsGood(a[3..], b);
      forall i | 0 <= i < 10 && Straddled(a, i) ensures Straddled(a + b, i) {
        assert (a + b)[4..] == a[4..] + b;
      }
    } else {
      assert (a + b)[1..] == a[1..] + b;
      CutIsGood(a[1..], b);
    }
  }

  lemma WholeCut(a: string, b: string, keys: seq<nat>)
    requires Whole(a + b, keys) && (b == [] || Quiet(b[0]))
    ensures Whole(a, keys) && Whole(b, keys) && Meaning(a + b) == Meaning(a) + Meaning(b)
  {
    CutIsGood(a, b);
    GoodJoin(a, b);
  }

  lemma WholePlain(p: string, b: string, keys: seq<nat>)
    requires Whole(p + b, keys) && Plain(p)
    ensures Whole(b, keys) && Meaning(p + b) == p + Meaning(b)
  {
    PlainJoin(p, b);
    forall i | 0 <= i < 10 ensures Crossed(p + b, i) == Crossed(b, i) {
      PlainCrossed(p, b, i);
    }
  }

  function Candidate(part: string, keys: seq<nat>): string
    requires forall k :: 0 <= k < |keys| ==> keys[k] < |KEEP|
  {
    Strip(Restored(Strip(part), keys))
  }

  lemma BlankIsPlain(s: string)
    requires Blank(s)
    ensures Plain(s)
  {
  }

  /** White space at the end of a text stands for itself. */
  lemma TrimEnd(core: string, trail: string, keys: seq<nat>)
    requires Whole(core + trail, keys) && Blank(trail)
    ensures Whole(core, keys) && Meaning(core + trail) == Meaning(core) + trail
  {
    BlankIsPlain(trail);
    WholeCut(core, trail, keys);
    PlainJoin(trail, []);
  }

  lemma StripWhole(part: string, keys: seq<nat>) returns (lead: string, trail: string)
    requires Whole(part, keys)
    ensures Whole(Strip(part), keys) && Blank(lead) && Blank(trail)
    ensures Meaning(part) == lead + Meaning(Strip(part)) + trail
  {
    lead, trail := StripSplits(part);
    Regroup(lead, Strip(part), trail);
    StripBoth(lead, Strip(part), trail, keys);
  }

  lemma StripBoth(lead: string, core: string, trail: string, keys: seq<nat>)
    requires Whole(lead + (core + trail), keys) && Blank(lead) && Blank(trail)
    ensures Whole(core, keys) && Meaning(lead + (core + trail)) == lead + Meaning(core) + trail
  {
    BlankIsPlain(lead);
    WholePlain(lead, core + trail, keys);
    TrimEnd(core, trail, keys);
    Regroup(lead, Meaning(core), trail);
  }

  /** Stripping before the phrases are put back makes no difference. */
  lemma CandidateIsPiece(part: string, keys: seq<nat>)
    requires Whole(part, keys)
    ensures Candidate(part, keys) == Strip(Meaning(part))
  {
    var lead, trail := StripWhole(part, keys);
    RestoreGivesMeaning(Strip(part), keys);
    StripIgnoresBlanks(lead, Meaning(Strip(part)), trail);
  }

  ghost function Meanings(parts: seq<string>): (ms: seq<string>)
    ensures |ms| == |parts| && forall k :: 0 <= k < |ms| ==> ms[k] == Meaning(parts[k])
  {
    seq(|parts|, k requires 0 <= k < |parts| => Meaning(parts[k]))
  }

  lemma {:induction false} MeaningsTile(parts: seq<string>, seps: seq<string>, keys: seq<nat>)
    requires |parts| == |seps| + 1 && Separators(seps) && Whole(Weave(parts, seps), keys)
    ensures forall k :: 0 <= k < |parts| ==> Whole(parts[k], keys)
    ensures Weave(Meanings(parts), seps) == Meaning(Weave(parts, seps))
  {
    if seps == [] {
      assert parts[0] + [] == parts[0];
    } else {
      var rest := Weave(parts[1..], seps[1..]);
      assert Separator(seps[0]);
      SeparatorsArePlain(seps[0]);
      assert Weave(parts, seps) == parts[0] + (seps[0] + rest);
      assert (seps[0] + rest)[0] == seps[0][0];
      WholeCut(parts[0], seps[0] + rest, keys);
      WholePlain(seps[0], rest, keys);
      MeaningsTile(parts[1..], seps[1..], keys);
      assert Meanings(parts)[1..] == Meanings(parts[1..]);
      forall k | 0 < k < |parts| ensures Whole(parts[k], keys) {
        assert parts[k] == parts[1..][k - 1];
      }
    }
  }

  function Candidates(parts: seq<string>, keys: seq<nat>): (cs: seq<string>)
    requires forall k :: 0 <= k < |keys| ==> keys[k] < |KEEP|
    ensures |cs| == |parts| && forall k :: 0 <= k < |cs| ==> cs[k] == Candidate(parts[k], keys)
  {
    seq(|parts|, k requires 0 <= k < |parts| => Candidate(parts[k], keys))
  }

  function Parts(raw: string): seq<string> {
    Split(Marked(Protected(raw, |KEEP|)))
  }

  /** What the clauses of a text are picked from. */
  function CandidatesOf(raw: string): seq<string> {
    Candidates(Parts(raw), Found(raw, |KEEP|))
  }

  /** No digit of the text is misread for a placeholder. */
  ghost predicate Faithful(raw: string) {
    NulFree(raw) && !Misread(Protected(raw, |KEEP|), Found(raw, |KEEP|))
  }

  /** White space at either end of a text stands for itself. */
  lemma MeaningStarts(x: string, c: char, rest: string, keys: seq<nat>)
    requires x == [c] + rest && Whole(x, keys) && IsSpace(c)
    ensures Meaning(x) != [] && Meaning(x)[0] == c
  {
    WholePlain([c], rest, keys);
  }

  lemma MeaningStops(x: string, front: string, c: char, keys: seq<nat>)
    requires x == front + [c] && Whole(x, keys) && IsSpace(c)
    ensures Meaning(x) != [] && Meaning(x)[|Meaning(x)| - 1] == c
  {
    WholeCut(front, [c], keys);
    PlainJoin([c], []);
  }

  lemma MeaningOpens(x: string, keys: seq<nat>)
    requires Whole(x, keys) && x != [] && IsSpace(x[0])
    ensures Meaning(x) != [] && Meaning(x)[0] == x[0]
  {
    MeaningStarts(x, x[0], x[1..], keys);
  }

  lemma MeaningCloses(x: string, keys: seq<nat>)
    requires Whole(x, keys) && x != [] && IsSpace(x[|x| - 1])
    ensures Meaning(x) != [] && Meaning(x)[|Meaning(x)| - 1] == x[|x| - 1]
  {
    MeaningStops(x, x[..|x| - 1], x[|x| - 1], keys);
  }

  lemma MeaningsOpen(parts: seq<string>, seps: seq<string>, keys: seq<nat>)
    requires |parts| == |seps| + 1 && Whole(parts[0], keys) && Opens(parts, seps)
    ensures Opens(Meanings(parts), seps)
  {
    if parts[0] != [] {
      MeaningOpens(parts[0], keys);
    }
  }

  lemma {:induction false} MeaningsFramed(lex: iset<string>, left: bool, parts: seq<string>, seps: seq<string>,
                                          keys: seq<nat>)
    requires |parts| == |seps| + 1 && SepsFramed(lex, left, parts, seps)
    requires forall k :: 0 <= k < |parts| ==> Whole(parts[k], keys)
    ensures SepsFramed(lex, left, Meanings(parts), seps)
    decreases |seps|
  {
    if seps != [] {
      var later := parts[1..];
      MeaningsFramed(lex, Closes(false, seps[0]), later, seps[1..], keys);
      assert Meanings(parts)[1..] == Meanings(later);
      if seps[0] in lex {
        if parts[0] != [] {
          MeaningCloses(parts[0], keys);
        }
        MeaningsOpen(later, seps[1..], keys);
      }
    }
  }

  /** The pieces and the separators between them are the whole text, the pieces, stripped, are
      what the clauses are picked from, and a listed word between them stands apart. */
  lemma PiecesTile(raw: string) returns (pieces: seq<string>, seps: seq<string>)
    requires Faithful(raw)
    ensures |pieces| == |seps| + 1 == |Parts(raw)| && Separators(seps) && Weave(pieces, seps) == raw
    ensures forall k :: 0 <= k < |pieces| ==> Candidate(Parts(raw)[k], Found(raw, |KEEP|)) == Strip(pieces[k])
    ensures forall k :: 0 <= k < |pieces| ==> Uncut(pieces[k])
    ensures CutsApart(raw, pieces, seps)
  {
    var keys := Found(raw, |KEEP|);
    var s := Protected(raw, |KEEP|);
    var parts := Parts(raw);
    ProtectKeepsMeaning(raw, |KEEP|);
    seps := MarkedTiles(s);
    MeaningsTile(parts, seps, keys);
    pieces := Meanings(parts);
    MeaningsFramed(Lexicon(), true, parts, seps, keys);
    FramedCutsApart(raw, pieces, seps);
    forall k | 0 <= k < |pieces|
      ensures Candidate(parts[k], keys) == Strip(pieces[k]) && Uncut(pieces[k])
    {
      CandidateIsPiece(parts[k], keys);
      PartsAreUncut(s, k);
      MeaningIsUncut(parts[k]);
    }
  }

  // ------------------------------------- nothing is left to cut inside a piece

  /** No punctuation and no mark. */
  ghost predicate Uncut(s: string) {
    forall k :: 0 <= k < |s| ==> !IsPunctuation(s[k]) && s[k] != MARK
  }

  lemma {:induction false} SubLeavesNoPunctuation(s: string, k: nat)
    requires k <= |s|
    ensures forall j :: 0 <= j < |Sub(Punctuation, s, k)| ==> !IsPunctuation(Sub(Punctuation, s, k)[j])
    decreases |s| - k
  {
    if k < |s| {
      SubLeavesNoPunctuation(s, Next(Punctuation, s, k));
    }
  }

  lemma {:induction false} SplitIsUncut(s: string)
    requires forall j :: 0 <= j < |s| ==> !IsPunctuation(s[j])
    ensures forall k :: 0 <= k < |Split(s)| ==> Uncut(Split(s)[k])
  {
    if s != [] {
      SplitIsUncut(s[1..]);
    }
  }

  lemma PartsAreUncut(s: string, k: nat)
    requires k < |Split(Marked(s))|
    ensures Uncut(Split(Marked(s))[k])
  {
    SubLeavesNoPunctuation(Sub(Words(SEQUENCE, false), Sub(Words(CONTRAST, true), s, 0), 0), 0);
    SplitIsUncut(Marked(s));
  }

  lemma PhrasesAreUncut(i: nat)
    requires i < |KEEP|
    ensures Uncut(KEEP[i])
  {
    Phrases(i);
  }

  lemma {:induction false} MeaningIsUncut(s: string)
    requires Uncut(s)
    ensures Uncut(Meaning(s))
  {
    if s != [] {
      if HoleAt(s) {
        PhrasesAreUncut(Number(s[1]));
        MeaningIsUncut(s[3..]);
      } else {
        MeaningIsUncut(s[1..]);
      }
    }
  }

  // ------------------------------------------------------------ the clauses

  predicate Qualifies(s: string, minLen: int) {
    s != [] && |s| >= minLen
  }

  /** The clauses are distinct qualifying candidates, in text order, and not too many: where
      none is allowed the first candidate is still looked at. */
  ghost predicate Picked(clauses: seq<string>, from: seq<nat>, cands: seq<string>, n: nat, maxClauses: int,
                         minLen: int)
    requires n <= |cands|
  {
    && |clauses| == |from| && (|clauses| <= maxClauses || clauses == [] || from == [0])
    && (forall j :: 0 <= j < |from| ==> from[j] < n && clauses[j] == cands[from[j]] && Qualifies(clauses[j], minLen))
    && forall i, j :: 0 <= i < j < |from| ==> from[i] < from[j] && clauses[i] != clauses[j]
  }

  /** Candidate `k` is a clause, or one too many. */
  ghost predicate Accounted(clauses: seq<string>, from: seq<nat>, cands: seq<string>, k: nat, maxClauses: int)
    requires k < |cands|
  {
    cands[k] in clauses || (k > 0 && |clauses| >= maxClauses && forall j :: 0 <= j < |from| ==> from[j] < k)
  }

  /** And every qualifying one of the first `n` candidates is accounted for. */
  ghost predicate Selection(clauses: seq<string>, from: seq<nat>, cands: seq<string>, n: nat,
                            maxClauses: int, minLen: int)
    requires n <= |cands|
  {
    && Picked(clauses, from, cands, n, maxClauses, minLen)
    && forall k :: 0 <= k < n && Qualifies(cands[k], minLen) ==> Accounted(clauses, from, cands, k, maxClauses)
  }

  lemma PickOne(clauses: seq<string>, from: seq<nat>, cands: seq<string>, n: nat, maxClauses: int, minLen: int)
    requires n < |cands| && Picked(clauses, from, cands, n, maxClauses, minLen) && (n > 0 ==> |clauses| < maxClauses)
    requires Qualifies(cands[n], minLen) && cands[n] !in clauses
    ensures Picked(clauses + [cands[n]], from + [n], cands, n + 1, maxClauses, minLen)
  {
    assert |from| > 0 ==> from[0] < n;
  }

  lemma SelectionStep(clauses: seq<string>, from: seq<nat>, cands: seq<string>, n: nat, maxClauses: int, minLen: int)
    requires n < |cands| && Selection(clauses, from, cands, n, maxClauses, minLen) && (n > 0 ==> |clauses| < maxClauses)
    ensures if Qualifies(cands[n], minLen) && cands[n] !in clauses
      then Selection(clauses + [cands[n]], from + [n], cands, n + 1, maxClauses, minLen)
      else Selection(clauses, from, cands, n + 1, maxClauses, minLen)
  {
    if Qualifies(cands[n], minLen) && cands[n] !in clauses {
      PickOne(clauses, from, cands, n, maxClauses, minLen);
      forall k | 0 <= k <= n && Qualifies(cands[k], minLen)
        ensures Accounted(clauses + [cands[n]], from + [n], cands, k, maxClauses)
      {
        if k < n {
          assert Accounted(clauses, from, cands, k, maxClauses);
        }
      }
    }
  }

  lemma SelectionDone(clauses: seq<string>, from: seq<nat>, cands: seq<string>, n: nat, maxClauses: int, minLen: int)
    requires 1 <= n <= |cands| && Selection(clauses, from, cands, n, maxClauses, minLen) && |clauses| >= maxClauses
    ensures Selection(clauses, from, cands, |cands|, maxClauses, minLen)
  {
  }

  method Protect(text: string) returns (protected: string, keys: seq<nat>)
    ensures protected == Protected(text, |KEEP|) && keys == Found(text, |KEEP|)
  {
    protected, keys := text, [];
    for i := 0 to |KEEP|
      invariant protected == Protected(text, i) && keys == Found(text, i)
    {
      if Occurs(protected, KEEP[i]) {
        protected := Replace(protected, KEEP[i], Hole(i));
        keys := keys + [i];
      } else {
        ReplaceAbsent(protected, KEEP[i], Hole(i));
      }
    }
  }

  method Restore(text: string, keys: seq<nat>) returns (restored: string)
    requires forall k :: 0 <= k < |keys| ==> keys[k] < |KEEP|
    ensures restored == Restored(text, keys)
  {
    restored := text;
    for k := 0 to |keys|
      invariant restored == Restored(text, keys[..k])
    {
      assert keys[..k + 1][..k] == keys[..k];
      restored := Replace(restored, Hole(keys[k]), KEEP[keys[k]]);
    }
    assert keys[..|keys|] == keys;
  }

  method SplitClauses(text: string, maxClauses: int, minLen: int) returns (clauses: seq<string>, ghost from: seq<nat>)
    ensures |Strip(text)| < minLen ==> clauses == if Strip(text) == [] then [] else [Strip(text)]
    ensures |Strip(text)| >= minLen ==>
      var raw := Strip(text);
      var cands := CandidatesOf(raw);
      Selection(clauses, from, cands, |cands|, maxClauses, minLen)
    ensures |Strip(text)| >= minLen ==> Chosen(clauses, CandidatesOf(Strip(text)), maxClauses, minLen)
  {
    var raw := Strip(text);
    if |raw| < minLen {
      return if raw == [] then [] else [raw], [];
    }
    var protected, keys := Protect(raw);
    var parts := Split(Marked(protected));
    ghost var cands := Candidates(parts, keys);
    clauses, from := [], [];
    for k := 0 to |parts|
      invariant k > 0 ==> |clauses| < maxClauses
      invariant Selection(clauses, from, cands, k, maxClauses, minLen)
    {
      var restored := Restore(Strip(parts[k]), keys);
      restored := Strip(restored);
      SelectionStep(clauses, from, cands, k, maxClauses, minLen);
      if Qualifies(restored, minLen) && restored !in clauses {
        clauses, from := clauses + [restored], from + [k];
      }
      if |clauses| >= maxClauses {
        SelectionDone(clauses, from, cands, k + 1, maxClauses, minLen);
        break;
      }
    }
    SelectionMeans(clauses, from, cands, maxClauses, minLen);
  }

  /** Candidates long enough; and all of these, unless there are as many clauses as allowed. */
  ghost predicate Chosen(clauses: seq<string>, cands: seq<string>, maxClauses: int, minLen: int) {
    && (forall x :: x in clauses ==> x in cands && x != [] && |x| >= minLen)
    && (|clauses| < maxClauses ==> forall x :: x in cands && x != [] && |x| >= minLen ==> x in clauses)
  }

  lemma SelectionMeans(clauses: seq<string>, from: seq<nat>, cands: seq<string>, maxClauses: int, minLen: int)
    requires Selection(clauses, from, cands, |cands|, maxClauses, minLen)
    ensures Chosen(clauses, cands, maxClauses, minLen)
  {
    forall x | x in clauses ensures x in cands && x != [] && |x| >= minLen {
      var j :| 0 <= j < |clauses| && clauses[j] == x;
      assert clauses[j] == cands[from[j]];
    }
    if |clauses| < maxClauses {
      forall x | x in cands && x != [] && |x| >= minLen ensures x in clauses {
        var k :| 0 <= k < |cands| && cands[k] == x;
        assert Qualifies(cands[k], minLen);
      }
    }
  }

  // -------------------------------------------- where the clauses come from

  lemma SliceOfJoin(a: string, b: string, i: nat, j: nat)
    requires i <= j <= |b|
    ensures (a + b)[|a| + i..|a| + j] == b[i..j]
  {
  }

  lemma {:induction false} PieceAt(pieces: seq<string>, seps: seq<string>, k: nat)
    requires |pieces| == |seps| + 1 && k < |pieces|
    ensures var at, text := Offset(pieces, seps, k), Weave(pieces, seps);
      at + |pieces[k]| <= |text| && text[at..at + |pieces[k]|] == pieces[k]
    ensures k + 1 < |pieces| ==> Offset(pieces, seps, k + 1) == Offset(pieces, seps, k) + |pieces[k]| + |seps[k]|
  {
    var text := Weave(pieces, seps);
    if k == 0 {
      if seps == [] {
        assert text == pieces[0];
      } else {
        assert text == pieces[0] + (seps[0] + Weave(pieces[1..], seps[1..]));
      }
    } else {
      PieceAt(pieces[1..], seps[1..], k - 1);
      var rest := Weave(pieces[1..], seps[1..]);
      var head := pieces[0] + seps[0];
      assert text == head + rest;
      var at := Offset(pieces[1..], seps[1..], k - 1);
      SliceOfJoin(head, rest, at, at + |pieces[k]|);
    }
  }

  lemma {:induction false} LaterPieces(pieces: seq<string>, seps: seq<string>, i: nat, j: nat)
    requires |pieces| == |seps| + 1 && i < j < |pieces|
    ensures Offset(pieces, seps, i) + |pieces[i]| <= Offset(pieces, seps, j)
    decreases j
  {
    PieceAt(pieces, seps, j - 1);
    if i < j - 1 {
      LaterPieces(pieces, seps, i, j - 1);
    }
  }

  /** Where each clause starts. */
  ghost predicate Placed(text: string, clauses: seq<string>, starts: seq<nat>) {
    && |starts| == |clauses|
    && (forall j :: 0 <= j < |starts| ==>
      starts[j] + |clauses[j]| <= |text| && text[starts[j]..starts[j] + |clauses[j]|] == clauses[j])
    && forall i, j :: 0 <= i < j < |starts| ==> starts[i] + |clauses[i]| <= starts[j]
  }

  /** Where what is left of a piece after stripping starts. */
  ghost function StartOf(pieces: seq<string>, seps: seq<string>, k: nat): int
    requires |pieces| == |seps| + 1 && k < |pieces|
  {
    Offset(pieces, seps, k) + |pieces[k]| - |StripLeft(pieces[k])|
  }

  lemma StrippedStart(piece: string) returns (skip: nat)
    ensures skip == |piece| - |StripLeft(piece)|
    ensures skip + |Strip(piece)| <= |piece| && piece[skip..skip + |Strip(piece)|] == Strip(piece)
  {
    var lead := StripLeftSplits(piece);
    var trail := StripRightSplits(StripLeft(piece));
    skip := |lead|;
    assert piece == lead + (Strip(piece) + trail);
  }

  lemma SliceOfSlice(s: string, at: nat, n: nat, skip: nat, m: nat)
    requires at + n <= |s| && skip + m <= n
    ensures s[at + skip..at + skip + m] == s[at..at + n][skip..skip + m]
  {
    var a, b := s[at + skip..at + skip + m], s[at..at + n];
    forall k | 0 <= k < m ensures a[k] == b[skip..skip + m][k] {
      assert b[skip + k] == s[at + (skip + k)];
    }
  }

  lemma CandidateStart(raw: string, pieces: seq<string>, seps: seq<string>, k: nat)
    requires |pieces| == |seps| + 1 && Weave(pieces, seps) == raw && k < |pieces|
    ensures var start, n := StartOf(pieces, seps, k), |Strip(pieces[k])|;
      && Offset(pieces, seps, k) <= start && start + n <= Offset(pieces, seps, k) + |pieces[k]| <= |raw|
      && raw[start..start + n] == Strip(pieces[k])
  {
    PieceAt(pieces, seps, k);
    StrippedAt(raw, Offset(pieces, seps, k), pieces[k]);
  }

  lemma StrippedAt(raw: string, at: nat, piece: string)
    requires at + |piece| <= |raw| && raw[at..at + |piece|] == piece
    ensures var start, n := at + |piece| - |StripLeft(piece)|, |Strip(piece)|;
      at <= start && start + n <= at + |piece| && raw[start..start + n] == Strip(piece)
  {
    var skip := StrippedStart(piece);
    SliceAt(raw, at, piece, skip, Strip(piece));
  }

  lemma SliceAt(s: string, at: nat, x: string, skip: nat, y: string)
    requires at + |x| <= |s| && s[at..at + |x|] == x && skip + |y| <= |x| && x[skip..skip + |y|] == y
    ensures s[at + skip..at + skip + |y|] == y
  {
    SliceOfSlice(s, at, |x|, skip, |y|);
  }

  lemma CandidatesInOrder(raw: string, pieces: seq<string>, seps: seq<string>, i: nat, j: nat)
    requires |pieces| == |seps| + 1 && Weave(pieces, seps) == raw && i < j < |pieces|
    ensures StartOf(pieces, seps, i) + |Strip(pieces[i])| <= StartOf(pieces, seps, j)
  {
    CandidateStart(raw, pieces, seps, i);
    CandidateStart(raw, pieces, seps, j);
    LaterPieces(pieces, seps, i, j);
  }

  lemma StripKeepsUncut(piece: string)
    requires Uncut(piece)
    ensures Uncut(Strip(piece))
  {
    var skip := StrippedStart(piece);
    forall k | 0 <= k < |Strip(piece)| ensures !IsPunctuation(Strip(piece)[k]) && Strip(piece)[k] != MARK {
      assert Strip(piece)[k] == piece[skip + k];
    }
  }

  lemma PlaceAll(raw: string, pieces: seq<string>, seps: seq<string>, clauses: seq<string>, from: seq<nat>)
    returns (starts: seq<nat>)
    requires |pieces| == |seps| + 1 && Weave(pieces, seps) == raw && |from| == |clauses|
    requires forall j :: 0 <= j < |from| ==> from[j] < |pieces| && clauses[j] == Strip(pieces[from[j]])
    requires forall i, j :: 0 <= i < j < |from| ==> from[i] < from[j]
    ensures Placed(raw, clauses, starts)
  {
    forall k | 0 <= k < |pieces| ensures StartOf(pieces, seps, k) >= 0 {
      CandidateStart(raw, pieces, seps, k);
    }
    starts := seq(|clauses|, j requires 0 <= j < |from| && from[j] < |pieces| => StartOf(pieces, seps, from[j]));
    forall j | 0 <= j < |starts|
      ensures starts[j] + |clauses[j]| <= |raw| && raw[starts[j]..starts[j] + |clauses[j]|] == clauses[j]
    {
      CandidateStart(raw, pieces, seps, from[j]);
    }
    forall i, j | 0 <= i < j < |starts| ensures starts[i] + |clauses[i]| <= starts[j] {
      CandidatesInOrder(raw, pieces, seps, from[i], from[j]);
    }
  }

  /** The clauses of a text are stretches of it that do not overlap, in its own order, with
      no punctuation inside. */
  lemma ClausesAreStretches(raw: string, clauses: seq<string>, from: seq<nat>, maxClauses: int,
                            minLen: int) returns (starts: seq<nat>)
    requires Faithful(raw)
    requires var cands := CandidatesOf(raw); Selection(clauses, from, cands, |cands|, maxClauses, minLen)
    ensures Placed(raw, clauses, starts) && forall j :: 0 <= j < |clauses| ==> Uncut(clauses[j])
  {
    var pieces, seps := PiecesTile(raw);
    forall j | 0 <= j < |clauses| ensures clauses[j] == Strip(pieces[from[j]]) && Uncut(clauses[j]) {
      StripKeepsUncut(pieces[from[j]]);
    }
    starts := PlaceAll(raw, pieces, seps, clauses, from);
  }

  // ------------------------------------------- which pieces are kept

  /** The candidates that qualify. */
  ghost function Qualifying(cands: seq<string>, minLen: int): set<string> {
    set x | x in cands && x != [] && |x| >= minLen
  }

  /** No qualifying piece is dropped exactly when the distinct ones number at most `maxClauses`,
      or, where no clause is allowed, when the first candidate is the only one. */
  lemma NothingDroppedIff(clauses: seq<string>, from: seq<nat>, cands: seq<string>, maxClauses: int, minLen: int)
    requires Selection(clauses, from, cands, |cands|, maxClauses, minLen)
    ensures (forall x :: x in Qualifying(cands, minLen) ==> x in clauses)
       <==> if 1 <= maxClauses then |Qualifying(cands, minLen)| <= maxClauses
            else forall x :: x in Qualifying(cands, minLen) ==> x == cands[0]
  {
    var all := Qualifying(cands, minLen);
    forall x | x in clauses ensures x in all {
      var j :| 0 <= j < |clauses| && clauses[j] == x;
      assert clauses[j] == cands[from[j]];
    }
    if 1 <= maxClauses {
      DistinctCount(clauses, all);
      if |all| <= maxClauses {
        forall x | x in all ensures x in clauses {
          var k :| 0 <= k < |cands| && cands[k] == x;
          assert Accounted(clauses, from, cands, k, maxClauses);
          if x !in clauses {
            DistinctCount(clauses, all - {x});
          }
        }
      }
    } else {
      FirstOnly(clauses, from, cands, maxClauses, minLen);
    }
  }

  lemma FirstOnly(clauses: seq<string>, from: seq<nat>, cands: seq<string>, maxClauses: int, minLen: int)
    requires Selection(clauses, from, cands, |cands|, maxClauses, minLen) && maxClauses < 1
    ensures clauses == if cands != [] && Qualifies(cands[0], minLen) then [cands[0]] else []
  {
    if cands != [] && Qualifies(cands[0], minLen) {
      assert Accounted(clauses, from, cands, 0, maxClauses);
    }
    if clauses != [] {
      assert from[0] == 0 && clauses[0] == cands[from[0]];
    }
  }
}
