/** `normalize_for_fingerprint` of dedup.py: the text that two messages must share to count
    as the same. */
module Fingerprint {
  import opened Sequences
  import opened Text

  /** Python's `str.lower`, of which only this matters: its results consist of settled
      characters, a text of settled characters is its own lower case, and spaces, digits, Arabic
      letters and vowel marks are settled. */
  datatype Casing = Casing(lower: string -> string, settled: char -> bool) {
    ghost predicate Lawful() {
      && (forall s, k :: 0 <= k < |lower(s)| ==> settled(lower(s)[k]))
      && (forall s :: (forall k :: 0 <= k < |s| ==> settled(s[k])) ==> lower(s) == s)
      && settled(' ')
      && forall c :: IsDigit(c) || IsArabic(c) || IsDiacritic(c) || '\U{660}' <= c <= '\U{669}' ==> settled(c)
    }
  }

  /** Vowel marks and the letter stretcher. */
  predicate IsDiacritic(c: char) {
    '\U{64B}' <= c <= '\U{65F}' || c == '\U{670}' || c == '\U{640}'
  }

  function MapLetter(c: char): char {
    if c == 'أ' || c == 'إ' || c == 'آ' then 'ا'
    else if c == 'ة' then 'ه'
    else if c == 'ى' || c == 'ئ' then 'ي'
    else if c == 'ؤ' then 'و'
    else c
  }

  function MapDigit(c: char): char {
    if '\U{660}' <= c <= '\U{669}' then '0' + (c - '\U{660}') else c
  }

  predicate IsArabic(c: char) {
    '\U{621}' <= c <= '\U{64A}'
  }

  function Undecorated(s: string): string {
    if s == [] then []
    else if IsDiacritic(s[0]) then Undecorated(s[1..])
    else [s[0]] + Undecorated(s[1..])
  }

  function Mapped(s: string): (r: string)
    ensures |r| == |s|
    ensures forall k :: 0 <= k < |s| ==> r[k] == MapDigit(MapLetter(s[k]))
  {
    if s == [] then [] else [MapDigit(MapLetter(s[0]))] + Mapped(s[1..])
  }

  /** How often the first character is repeated at the start. */
  function RunLength(s: string): (n: nat)
    requires s != []
    ensures 1 <= n <= |s|
    ensures forall k :: 0 <= k < n ==> s[k] == s[0]
    ensures n < |s| ==> s[n] != s[0]
  {
    if |s| > 1 && s[1] == s[0] then 1 + RunLength(s[1..]) else 1
  }

  /** Three or more of one Arabic letter become one. */
  function Collapse(s: string): string {
    if s == [] then []
    else if IsArabic(s[0]) && RunLength(s) >= 3 then [s[0]] + Collapse(s[RunLength(s)..])
    else [s[0]] + Collapse(s[1..])
  }

  function SpaceRun(s: string): (n: nat)
    ensures n <= |s|
    ensures n < |s| ==> !IsSpace(s[n])
    ensures s != [] && IsSpace(s[0]) ==> n > 0
  {
    if s != [] && IsSpace(s[0]) then 1 + SpaceRun(s[1..]) else 0
  }

  /** Every run of white space becomes one space. */
  function Spaced(s: string): string {
    if s == [] then []
    else if IsSpace(s[0]) then [' '] + Spaced(s[SpaceRun(s)..])
    else [s[0]] + Spaced(s[1..])
  }

  /** The text after lower casing, removal of marks and the two letter maps. */
  function Plain(cs: Casing, text: string): string {
    Mapped(Undecorated(cs.lower(Strip(text))))
  }

  function Normalize(cs: Casing, text: string): string {
    if text == [] then [] else Strip(Spaced(Collapse(Plain(cs, text))))
  }

  // ------------------------------------------------------------ run lengths

  datatype Run = Run(c: char, n: nat)

  /** The text as the sequence of its longest runs. */
  function Runs(s: string): seq<Run> {
    if s == [] then [] else [Run(s[0], RunLength(s))] + Runs(s[RunLength(s)..])
  }

  /** What becomes of a run: 1, 2 and 3 or more of an Arabic letter become 1, 2 and 1. */
  function Shrunk(r: Run): Run {
    if IsArabic(r.c) && r.n >= 3 then Run(r.c, 1) else r
  }

  function ShrunkRuns(rs: seq<Run>): (r: seq<Run>)
    ensures |r| == |rs| && forall k :: 0 <= k < |rs| ==> r[k] == Shrunk(rs[k])
  {
    seq(|rs|, k requires 0 <= k < |rs| => Shrunk(rs[k]))
  }

  function Repeat(c: char, n: nat): (s: string)
    ensures |s| == n && forall k :: 0 <= k < n ==> s[k] == c
  {
    if n == 0 then [] else [c] + Repeat(c, n - 1)
  }

  lemma {:induction false} RunOfRepeat(c: char, n: nat, rest: string)
    requires n > 0 && (rest != [] ==> rest[0] != c)
    ensures RunLength(Repeat(c, n) + rest) == n && (Repeat(c, n) + rest)[n..] == rest
  {
    var s := Repeat(c, n) + rest;
    if n > 1 {
      RunOfRepeat(c, n - 1, rest);
      assert s[1..] == Repeat(c, n - 1) + rest && s[1] == c;
    } else if rest != [] {
      assert s[1] == rest[0];
    }
  }

  lemma FirstRun(s: string) returns (rest: string)
    requires s != []
    ensures rest == s[RunLength(s)..] && s == Repeat(s[0], RunLength(s)) + rest
    ensures rest != [] ==> rest[0] != s[0]
  {
    rest := s[RunLength(s)..];
  }

  lemma {:induction false} CollapseRun(c: char, n: nat, rest: string)
    requires n > 0 && (rest != [] ==> rest[0] != c)
    ensures Collapse(Repeat(c, n) + rest) == Repeat(c, Shrunk(Run(c, n)).n) + Collapse(rest)
  {
    var s := Repeat(c, n) + rest;
    RunOfRepeat(c, n, rest);
    assert s[0] == c;
    if IsArabic(c) && n >= 3 {
      assert Repeat(c, 1) == [c];
    } else if n > 1 {
      assert s[1..] == Repeat(c, n - 1) + rest;
      CollapseRun(c, n - 1, rest);
      Regroup([c], Repeat(c, n - 1), Collapse(rest));
    } else {
      assert s[1..] == rest && Repeat(c, 1) == [c];
    }
  }

  lemma {:induction false} CollapseStart(s: string)
    ensures (s == []) == (Collapse(s) == [])
    ensures s != [] ==> Collapse(s)[0] == s[0]
  {
  }

  lemma RunFirst(c: char, n: nat, rest: string)
    requires n > 0 && (rest != [] ==> rest[0] != c)
    ensures Runs(Repeat(c, n) + rest) == [Run(c, n)] + Runs(rest)
  {
    RunOfRepeat(c, n, rest);
  }

  lemma ShrunkFirst(r: Run, rs: seq<Run>)
    ensures ShrunkRuns([r] + rs) == [Shrunk(r)] + ShrunkRuns(rs)
  {
  }

  /** Collapsing changes the length of each run and nothing else. */
  lemma {:induction false} CollapseShrinksRuns(s: string)
    ensures Runs(Collapse(s)) == ShrunkRuns(Runs(s))
    decreases |s|
  {
    if s != [] {
      var rest := FirstRun(s);
      var r := Run(s[0], RunLength(s));
      CollapseShrinksRuns(rest);
      CollapseRun(r.c, r.n, rest);
      CollapseStart(rest);
      RunFirst(r.c, Shrunk(r).n, Collapse(rest));
      ShrunkFirst(r, Runs(rest));
    }
  }

  lemma {:induction false} RunsDetermine(s: string, t: string)
    requires Runs(s) == Runs(t)
    ensures s == t
    decreases |s|
  {
    if s != [] {
      assert t != [];
      var a := FirstRun(s);
      var b := FirstRun(t);
      assert Runs(s)[0] == Runs(t)[0] && Runs(s)[1..] == Runs(a) && Runs(t)[1..] == Runs(b);
      RunsDetermine(a, b);
    }
  }

  /** Two texts are merged exactly when they have the same letters with the same number of
      repeats, three or more counting as one.  So one letter and two are never merged. */
  lemma MergedIffSameRuns(s: string, t: string)
    ensures Collapse(s) == Collapse(t) <==> ShrunkRuns(Runs(s)) == ShrunkRuns(Runs(t))
  {
    CollapseShrinksRuns(s);
    CollapseShrinksRuns(t);
    if ShrunkRuns(Runs(s)) == ShrunkRuns(Runs(t)) {
      RunsDetermine(Collapse(s), Collapse(t));
    }
  }

  // ------------------------------------------------------------- idempotence

  predicate Tripled(s: string, k: int)
    requires 0 <= k && k + 2 < |s|
  {
    IsArabic(s[k]) && s[k] == s[k + 1] == s[k + 2]
  }

  ghost predicate Untripled(s: string) {
    forall k :: 0 <= k < |s| - 2 ==> !Tripled(s, k)
  }

  predicate SpacePair(s: string, k: int)
    requires 0 <= k && k + 1 < |s|
  {
    IsSpace(s[k]) && IsSpace(s[k + 1])
  }

  ghost predicate SpacesApart(s: string) {
    forall k :: 0 <= k < |s| - 1 ==> !SpacePair(s, k)
  }

  predicate Settled(cs: Casing, c: char) {
    cs.settled(c) && !IsDiacritic(c) && MapDigit(MapLetter(c)) == c
  }

  predicate OneSpace(c: char) {
    IsSpace(c) ==> c == ' '
  }

  ghost predicate Mild(cs: Casing, s: string) {
    forall k :: 0 <= k < |s| ==> Settled(cs, s[k])
  }

  ghost predicate OnlySpaces(s: string) {
    forall k :: 0 <= k < |s| ==> OneSpace(s[k])
  }

  /** Nothing is left for any of the passes to do. */
  ghost predicate Normal(cs: Casing, s: string) {
    Mild(cs, s) && OnlySpaces(s) && SpacesApart(s) && Untripled(s) && Trimmed(s)
  }

  lemma {:induction false} UndecoratedIsClean(s: string)
    ensures forall k :: 0 <= k < |Undecorated(s)| ==> !IsDiacritic(Undecorated(s)[k]) && Undecorated(s)[k] in s
    ensures (forall k :: 0 <= k < |s| ==> !IsDiacritic(s[k])) ==> Undecorated(s) == s
  {
    if s != [] {
      UndecoratedIsClean(s[1..]);
      assert forall c :: c in s[1..] ==> c in s;
    }
  }

  lemma MappedIsSettled(cs: Casing, c: char)
    requires cs.Lawful() && cs.settled(c) && !IsDiacritic(c)
    ensures Settled(cs, MapDigit(MapLetter(c)))
  {
    var d := MapDigit(MapLetter(c));
    assert d == c || IsDigit(d) || d == 'ا' || d == 'ه' || d == 'ي' || d == 'و';
  }

  lemma MappedIsMild(cs: Casing, bare: string, low: string)
    requires cs.Lawful() && forall k :: 0 <= k < |low| ==> cs.settled(low[k])
    requires forall k :: 0 <= k < |bare| ==> !IsDiacritic(bare[k]) && bare[k] in low
    ensures Mild(cs, Mapped(bare))
  {
    forall k | 0 <= k < |bare| ensures Settled(cs, Mapped(bare)[k]) {
      MappedIsSettled(cs, bare[k]);
    }
  }

  lemma PlainIsMild(cs: Casing, text: string)
    requires cs.Lawful()
    ensures Mild(cs, Plain(cs, text))
  {
    var low := cs.lower(Strip(text));
    UndecoratedIsClean(low);
    MappedIsMild(cs, Undecorated(low), low);
  }

  lemma {:induction false} CollapseIsUntripled(cs: Casing, s: string)
    requires Mild(cs, s)
    ensures Untripled(Collapse(s)) && Mild(cs, Collapse(s))
    decreases |s|
  {
    if s != [] {
      var n := RunLength(s);
      var rest := if IsArabic(s[0]) && n >= 3 then s[n..] else s[1..];
      CollapseIsUntripled(cs, rest);
      CollapseStart(rest);
      if IsArabic(s[0]) && n == 2 {
        assert rest[0] == s[0] && Collapse(rest) == [s[0]] + Collapse(s[2..]) by {
          assert s[1..][1..] == s[2..];
        }
        CollapseStart(s[2..]);
      }
      NoTripleInFront(s[0], Collapse(rest));
    }
  }

  lemma NoTripleInFront(c: char, rest: string)
    requires Untripled(rest) && (IsArabic(c) && |rest| >= 2 ==> rest[0] != c || rest[1] != c)
    ensures Untripled([c] + rest)
  {
    var s := [c] + rest;
    forall k | 0 <= k < |s| - 2 ensures !Tripled(s, k) {
      if k > 0 {
        assert s[k] == rest[k - 1] && s[k + 1] == rest[k] && s[k + 2] == rest[k + 1];
        assert !Tripled(rest, k - 1);
      } else {
        assert s[1] == rest[0] && s[2] == rest[1];
      }
    }
  }

  function Softened(c: char): char {
    if IsSpace(c) then ' ' else c
  }

  lemma SpacedStart(s: string)
    ensures (s == []) == (Spaced(s) == [])
    ensures s != [] ==> Spaced(s)[0] == Softened(s[0])
    ensures s != [] && !IsSpace(s[0]) && |Spaced(s)| >= 2 ==> |s| >= 2 && Spaced(s)[1] == Softened(s[1])
  {
    if s != [] && !IsSpace(s[0]) {
      var rest := s[1..];
      assert Spaced(s) == [s[0]] + Spaced(rest);
      assert rest != [] ==> Spaced(rest)[0] == Softened(rest[0]);
    }
  }

  lemma NoPairInFront(c: char, rest: string)
    requires SpacesApart(rest) && (IsSpace(c) && rest != [] ==> !IsSpace(rest[0]))
    ensures SpacesApart([c] + rest)
  {
    var s := [c] + rest;
    forall k | 0 <= k < |s| - 1 ensures !SpacePair(s, k) {
      if k > 0 {
        assert !SpacePair(rest, k - 1);
      }
    }
  }

  lemma UntripledSuffix(s: string, n: nat)
    requires Untripled(s) && n <= |s|
    ensures Untripled(s[n..])
  {
    forall k | 0 <= k < |s[n..]| - 2 ensures !Tripled(s[n..], k) {
      assert !Tripled(s, n + k);
    }
  }

  lemma NoTripleAtStart(s: string)
    requires s != [] && Untripled(s) && Untripled(Spaced(s[1..])) && !IsSpace(s[0])
    ensures Untripled([s[0]] + Spaced(s[1..]))
  {
    var rest := s[1..];
    SpacedStart(rest);
    assert |s| >= 3 ==> !Tripled(s, 0);
    assert |s| >= 2 ==> rest[0] == s[1];
    assert |s| >= 3 ==> rest[1] == s[2];
    NoTripleInFront(s[0], Spaced(rest));
  }

  lemma {:induction false} SpacedIsUntripled(s: string)
    requires Untripled(s)
    ensures Untripled(Spaced(s))
    decreases |s|
  {
    if s != [] {
      var n := if IsSpace(s[0]) then SpaceRun(s) else 1;
      UntripledSuffix(s, n);
      SpacedIsUntripled(s[n..]);
      if IsSpace(s[0]) {
        NoTripleInFront(' ', Spaced(s[n..]));
      } else {
        NoTripleAtStart(s);
      }
    }
  }

  lemma {:induction false} SpacedIsApart(cs: Casing, s: string)
    requires cs.settled(' ') && Mild(cs, s)
    ensures Mild(cs, Spaced(s)) && OnlySpaces(Spaced(s)) && SpacesApart(Spaced(s))
    decreases |s|
  {
    if s != [] {
      var n := if IsSpace(s[0]) then SpaceRun(s) else 1;
      var rest := s[n..];
      SpacedIsApart(cs, rest);
      SpacedStart(rest);
      assert Settled(cs, s[0]);
      NoPairInFront(Softened(s[0]), Spaced(rest));
    }
  }

  lemma NormalSlice(cs: Casing, s: string, lead: string, core: string, trail: string)
    requires Mild(cs, s) && OnlySpaces(s) && SpacesApart(s) && Untripled(s)
    requires s == lead + core + trail && Trimmed(core)
    ensures Normal(cs, core)
  {
    var n := |lead|;
    assert forall k :: 0 <= k < |core| ==> core[k] == s[n + k];
    forall k | 0 <= k < |core| ensures Settled(cs, core[k]) && OneSpace(core[k]) {
      assert core[k] == s[n + k];
    }
    forall k | 0 <= k < |core| - 1 ensures !SpacePair(core, k) {
      assert !SpacePair(s, n + k);
    }
    forall k | 0 <= k < |core| - 2 ensures !Tripled(core, k) {
      assert !Tripled(s, n + k);
    }
  }

  lemma NormalizeIsNormal(cs: Casing, text: string)
    requires cs.Lawful()
    ensures Normal(cs, Normalize(cs, text))
  {
    if text != [] {
      var plain := Plain(cs, text);
      PlainIsMild(cs, text);
      CollapseIsUntripled(cs, plain);
      var spaced := Spaced(Collapse(plain));
      SpacedIsApart(cs, Collapse(plain));
      SpacedIsUntripled(Collapse(plain));
      var lead, trail := StripSplits(spaced);
      NormalSlice(cs, spaced, lead, Strip(spaced), trail);
    }
  }

  lemma {:induction false} UntripledStays(s: string)
    requires Untripled(s)
    ensures Collapse(s) == s
  {
    if s != [] {
      if IsArabic(s[0]) && RunLength(s) >= 3 {
        assert Tripled(s, 0);
      }
      UntripledSuffix(s, 1);
      UntripledStays(s[1..]);
    }
  }

  lemma {:induction false} ApartStays(s: string)
    requires SpacesApart(s) && OnlySpaces(s)
    ensures Spaced(s) == s
  {
    if s != [] {
      var rest := s[1..];
      forall k | 0 <= k < |rest| - 1 ensures !SpacePair(rest, k) {
        assert !SpacePair(s, k + 1);
      }
      ApartStays(rest);
      assert OneSpace(s[0]);
      if IsSpace(s[0]) {
        assert |s| > 1 ==> !SpacePair(s, 0);
        assert SpaceRun(s) == 1;
      }
    }
  }

  /** A text that the first passes leave alone. */
  lemma PlainStays(cs: Casing, s: string)
    requires cs.Lawful() && Mild(cs, s) && Trimmed(s)
    ensures Plain(cs, s) == s
  {
    StripTrimmed(s);
    forall k | 0 <= k < |s| ensures cs.settled(s[k]) && !IsDiacritic(s[k]) && MapDigit(MapLetter(s[k])) == s[k] {
      assert Settled(cs, s[k]);
    }
    assert cs.lower(s) == s;
    UndecoratedIsClean(s);
    assert Mapped(s) == s;
  }

  /** Normalizing twice is normalizing once. */
  lemma Idempotent(cs: Casing, text: string)
    requires cs.Lawful()
    ensures Normalize(cs, Normalize(cs, text)) == Normalize(cs, text)
  {
    var s := Normalize(cs, text);
    NormalizeIsNormal(cs, text);
    PlainStays(cs, s);
    UntripledStays(s);
    ApartStays(s);
    StripTrimmed(s);
  }

  // ------------------------------------------------ which texts are merged

  ghost predicate Spaceless(s: string) {
    forall k :: 0 <= k < |s| ==> !IsSpace(s[k])
  }

  function WordLength(s: string): (n: nat)
    ensures n <= |s| && Spaceless(s[..n])
    ensures n < |s| ==> IsSpace(s[n])
    ensures s != [] && !IsSpace(s[0]) ==> n > 0
  {
    if s == [] || IsSpace(s[0]) then 0
    else
      var n := WordLength(s[1..]);
      assert s[..n + 1] == [s[0]] + s[1..][..n];
      n + 1
  }

  ghost predicate AreWords(ws: seq<string>) {
    forall k :: 0 <= k < |ws| ==> ws[k] != [] && Spaceless(ws[k])
  }

  /** `s.split()`: the words between the white space. */
  function Fields(s: string): (ws: seq<string>)
    ensures AreWords(ws)
    decreases |s|
  {
    if s == [] then []
    else if IsSpace(s[0]) then Fields(s[1..])
    else
      var n := WordLength(s);
      [s[..n]] + Fields(s[n..])
  }

  /** `" ".join(ws)`. */
  function Joined(ws: seq<string>): string {
    if ws == [] then [] else if |ws| == 1 then ws[0] else ws[0] + " " + Joined(ws[1..])
  }

  lemma {:induction false} FieldsAfterWord(w: string, rest: string)
    requires w != [] && Spaceless(w) && (rest == [] || IsSpace(rest[0]))
    ensures Fields(w + rest) == [w] + Fields(rest)
  {
    WordThenSpace(w, rest);
    assert (w + rest)[..|w|] == w && (w + rest)[|w|..] == rest;
  }

  lemma {:induction false} WordThenSpace(w: string, rest: string)
    requires Spaceless(w) && (rest == [] || IsSpace(rest[0]))
    ensures WordLength(w + rest) == |w|
  {
    if w == [] {
      assert w + rest == rest;
    } else {
      assert (w + rest)[1..] == w[1..] + rest;
      WordThenSpace(w[1..], rest);
    }
  }

  /** Splitting undoes joining. */
  lemma {:induction false} FieldsOfJoined(ws: seq<string>)
    requires AreWords(ws)
    ensures Fields(Joined(ws)) == ws
  {
    if |ws| == 1 {
      FieldsAfterWord(ws[0], []);
      assert ws[0] + [] == ws[0] && [ws[0]] == ws;
    } else if |ws| > 1 {
      var more := Joined(ws[1..]);
      FieldsOfJoined(ws[1..]);
      FieldsAfterWord(ws[0], " " + more);
      assert ws[0] + " " + more == ws[0] + (" " + more) && (" " + more)[1..] == more;
      assert [ws[0]] + ws[1..] == ws;
    }
  }

  lemma {:induction false} SkipSpaces(s: string)
    ensures Fields(s) == Fields(s[SpaceRun(s)..])
  {
    if s != [] && IsSpace(s[0]) {
      SkipSpaces(s[1..]);
      assert s[1..][SpaceRun(s[1..])..] == s[SpaceRun(s)..];
    }
  }

  lemma {:induction false} SpacedWord(w: string, rest: string)
    requires Spaceless(w)
    ensures Spaced(w + rest) == w + Spaced(rest)
  {
    if w == [] {
      assert w + rest == rest;
    } else {
      assert (w + rest)[1..] == w[1..] + rest;
      SpacedWord(w[1..], rest);
    }
  }

  lemma {:induction false} StripRightKeeps(a: string, b: string)
    requires StripRight(b) != []
    ensures StripRight(a + b) == a + StripRight(b)
    decreases |b|
  {
    var n := |b| - 1;
    assert (a + b)[..|a| + n] == a + b[..n] && (a + b)[|a| + n] == b[n];
    if IsSpace(b[n]) {
      StripRightKeeps(a, b[..n]);
    }
  }

  lemma StripRightWord(w: string)
    requires Spaceless(w)
    ensures StripRight(w) == w && StripRight(w + " ") == w
  {
    assert (w + " ")[..|w|] == w;
  }

  lemma {:induction false} JoinedIsSome(ws: seq<string>)
    requires AreWords(ws) && ws != []
    ensures Joined(ws) != []
  {
  }

  /** A text that does not start with white space starts with a word. */
  lemma FirstWord(s: string) returns (w: string, rest: string)
    requires s != [] && !IsSpace(s[0])
    ensures s == w + rest && w != [] && Spaceless(w) && (rest == [] || IsSpace(rest[0]))
  {
    var n := WordLength(s);
    w, rest := s[..n], s[n..];
  }

  lemma FieldsTake(w: string, rest: string)
    requires w != [] && Spaceless(w) && (rest == [] || IsSpace(rest[0]))
    ensures Fields(w + rest) == [w] + Fields(rest[SpaceRun(rest)..])
  {
    FieldsAfterWord(w, rest);
    SkipSpaces(rest);
  }

  lemma SpacedTake(w: string, rest: string)
    requires Spaceless(w) && (rest == [] || IsSpace(rest[0]))
    ensures Spaced(w + rest) == if rest == [] then w else w + " " + Spaced(rest[SpaceRun(rest)..])
  {
    SpacedWord(w, rest);
    if rest != [] {
      Regroup(w, " ", Spaced(rest[SpaceRun(rest)..]));
    }
  }

  lemma JoinedMore(w: string, ws: seq<string>, text: string)
    requires Spaceless(w) && AreWords(ws) && StripRight(text) == Joined(ws) && (ws == [] ==> text == [])
    ensures StripRight(w + " " + text) == Joined([w] + ws)
    ensures ws == [] ==> StripRight(w) == Joined([w] + ws)
  {
    if ws == [] {
      StripRightWord(w);
      assert w + " " + text == w + " ";
    } else {
      JoinedIsSome(ws);
      StripRightKeeps(w + " ", text);
      assert ([w] + ws)[1..] == ws;
    }
  }

  lemma {:induction false} SpacedJoins(s: string)
    requires s == [] || !IsSpace(s[0])
    ensures StripRight(Spaced(s)) == Joined(Fields(s))
    decreases |s|
  {
    if s != [] {
      var w, rest := FirstWord(s);
      var more := rest[SpaceRun(rest)..];
      SpacedJoins(more);
      FieldsTake(w, rest);
      SpacedTake(w, rest);
      JoinedMore(w, Fields(more), Spaced(more));
    }
  }

  lemma LeftOfSpaced(s: string)
    ensures StripLeft(Spaced(s)) == Spaced(s[SpaceRun(s)..])
  {
    var more := Spaced(s[SpaceRun(s)..]);
    SpacedStart(s[SpaceRun(s)..]);
    assert StripLeft(more) == more;
    if SpaceRun(s) > 0 {
      assert ([' '] + more)[1..] == more;
    }
  }

  /** Squeezing white space and stripping is `" ".join(s.split())`. */
  lemma SpacedIsJoined(s: string)
    ensures Strip(Spaced(s)) == Joined(Fields(s))
  {
    var more := s[SpaceRun(s)..];
    SkipSpaces(s);
    SpacedJoins(more);
    LeftOfSpaced(s);
  }

  lemma {:induction false} RunLengthInWord(w: string, rest: string)
    requires w != [] && Spaceless(w) && (rest == [] || IsSpace(rest[0]))
    ensures RunLength(w + rest) == RunLength(w)
  {
    if |w| > 1 {
      assert (w + rest)[1..] == w[1..] + rest;
      RunLengthInWord(w[1..], rest);
    } else if rest != [] {
      assert (w + rest)[1] == rest[0];
    }
  }

  /** How much of the text one step of collapsing reads. */
  function Chunk(s: string): (n: nat)
    requires s != []
    ensures 1 <= n <= |s| && Collapse(s) == [s[0]] + Collapse(s[n..])
  {
    if IsArabic(s[0]) && RunLength(s) >= 3 then RunLength(s) else 1
  }

  lemma ChunkInWord(w: string, rest: string)
    requires w != [] && Spaceless(w) && (rest == [] || IsSpace(rest[0]))
    ensures Chunk(w + rest) == Chunk(w) && (w + rest)[Chunk(w)..] == w[Chunk(w)..] + rest
  {
    RunLengthInWord(w, rest);
    DropFrom(w, rest, Chunk(w));
  }

  lemma DropFrom(w: string, rest: string, n: nat)
    requires w != [] && n <= |w|
    ensures (w + rest)[0] == w[0] && (w + rest)[n..] == w[n..] + rest
  {
  }

  lemma {:induction false} CollapseWord(w: string, rest: string)
    requires Spaceless(w) && (rest == [] || IsSpace(rest[0]))
    ensures Collapse(w + rest) == Collapse(w) + Collapse(rest) && Spaceless(Collapse(w))
    decreases |w|
  {
    if w == [] {
      assert w + rest == rest;
    } else {
      var more := w[Chunk(w)..];
      ChunkInWord(w, rest);
      CollapseWord(more, rest);
      Regroup([w[0]], Collapse(more), Collapse(rest));
    }
  }

  function Collapsed(ws: seq<string>): (r: seq<string>)
    ensures |r| == |ws| && forall k :: 0 <= k < |ws| ==> r[k] == Collapse(ws[k])
  {
    seq(|ws|, k requires 0 <= k < |ws| => Collapse(ws[k]))
  }

  lemma CollapsedFirst(w: string, ws: seq<string>)
    ensures Collapsed([w] + ws) == [Collapse(w)] + Collapsed(ws)
  {
  }

  lemma FirstCollapsed(w: string, rest: string)
    requires w != [] && Spaceless(w) && (rest == [] || IsSpace(rest[0]))
    ensures Fields(Collapse(w + rest)) == [Collapse(w)] + Fields(Collapse(rest))
  {
    CollapseWord(w, rest);
    CollapseStart(w);
    CollapseStart(rest);
    FieldsAfterWord(Collapse(w), Collapse(rest));
  }

  /** Collapsing a text collapses each of its words. */
  lemma {:induction false} FieldsOfCollapse(s: string)
    ensures Fields(Collapse(s)) == Collapsed(Fields(s))
    decreases |s|
  {
    if s != [] && IsSpace(s[0]) {
      FieldsOfCollapse(s[1..]);
      assert Collapse(s)[1..] == Collapse(s[1..]);
    } else if s != [] {
      var n := WordLength(s);
      var w, rest := s[..n], s[n..];
      assert s == w + rest;
      FieldsOfCollapse(rest);
      FirstCollapsed(w, rest);
      CollapsedFirst(w, Fields(rest));
    }
  }

  lemma EmptyIsPlain(cs: Casing)
    requires cs.Lawful()
    ensures Plain(cs, []) == []
  {
    assert cs.lower([]) == [];
  }

  /** The whole transform: the words of the plain text, each collapsed, with single spaces. */
  lemma NormalizeIsWordwise(cs: Casing, text: string)
    requires cs.Lawful()
    ensures Normalize(cs, text) == Joined(Collapsed(Fields(Plain(cs, text))))
    ensures Fields(Normalize(cs, text)) == Collapsed(Fields(Plain(cs, text)))
  {
    var plain := Plain(cs, text);
    if text == [] {
      EmptyIsPlain(cs);
    } else {
      SpacedIsJoined(Collapse(plain));
    }
    FieldsOfCollapse(plain);
    FieldsOfJoined(Fields(Collapse(plain)));
  }

  /** The same word up to repeats of an Arabic letter, three or more counting as one. */
  ghost predicate SameWord(v: string, w: string) {
    ShrunkRuns(Runs(v)) == ShrunkRuns(Runs(w))
  }

  ghost predicate SameWords(v: seq<string>, w: seq<string>) {
    |v| == |w| && forall k :: 0 <= k < |v| ==> SameWord(v[k], w[k])
  }

  lemma CollapsedSameIff(v: seq<string>, w: seq<string>)
    ensures Collapsed(v) == Collapsed(w) <==> SameWords(v, w)
  {
    var a, b := Collapsed(v), Collapsed(w);
    if |v| == |w| {
      forall k | 0 <= k < |v| ensures a[k] == b[k] <==> SameWord(v[k], w[k]) {
        MergedIffSameRuns(v[k], w[k]);
      }
    }
  }

  /** Two texts are merged exactly when, word by word, they have the same letters with the
      same number of repeats, three or more counting as one. */
  lemma MergedIff(cs: Casing, s: string, t: string)
    requires cs.Lawful()
    ensures Normalize(cs, s) == Normalize(cs, t) <==> SameWords(Fields(Plain(cs, s)), Fields(Plain(cs, t)))
  {
    NormalizeIsWordwise(cs, s);
    NormalizeIsWordwise(cs, t);
    CollapsedSameIff(Fields(Plain(cs, s)), Fields(Plain(cs, t)));
  }

  lemma {:induction false} RunsJoin(a: string, b: string)
    requires a == [] || b == [] || a[|a| - 1] != b[0]
    ensures Runs(a + b) == Runs(a) + Runs(b)
    decreases |a|
  {
    if a == [] {
      assert a + b == b;
    } else {
      var rest := FirstRun(a);
      assert rest != [] ==> rest[|rest| - 1] == a[|a| - 1];
      RunsJoin(rest, b);
      JoinFirst(a[0], RunLength(a), rest, b);
    }
  }

  lemma JoinFirst(c: char, n: nat, rest: string, b: string)
    requires n > 0 && (rest != [] ==> rest[0] != c) && (rest == [] && b != [] ==> b[0] != c)
    requires Runs(rest + b) == Runs(rest) + Runs(b)
    ensures Runs(Repeat(c, n) + rest + b) == Runs(Repeat(c, n) + rest) + Runs(b)
  {
    Regroup(Repeat(c, n), rest, b);
    RunFirst(c, n, rest + b);
    RunFirst(c, n, rest);
    Regroup([Run(c, n)], Runs(rest), Runs(b));
  }

  lemma RunsAround(head: string, c: char, n: nat, tail: string)
    requires n > 0 && (head != [] ==> head[|head| - 1] != c) && (tail != [] ==> tail[0] != c)
    ensures Runs(head + (Repeat(c, n) + tail)) == Runs(head) + ([Run(c, n)] + Runs(tail))
  {
    RunFirst(c, n, tail);
    RunsJoin(head, Repeat(c, n) + tail);
  }

  lemma SameAt(a: seq<Run>, x: Run, y: Run, b: seq<Run>)
    ensures ShrunkRuns(a + ([x] + b)) == ShrunkRuns(a + ([y] + b)) <==> Shrunk(x) == Shrunk(y)
  {
    var v, w := ShrunkRuns(a + ([x] + b)), ShrunkRuns(a + ([y] + b));
    assert v[|a|] == Shrunk(x) && w[|a|] == Shrunk(y);
    if Shrunk(x) == Shrunk(y) {
      assert forall k :: 0 <= k < |v| ==> v[k] == w[k];
    }
  }

  /** Words that differ in the length of one run are the same word exactly when the two
      lengths shrink to one: an Arabic letter once and twice never do. */
  lemma OneRunDiffers(head: string, c: char, n: nat, m: nat, tail: string)
    requires n > 0 && m > 0 && (head != [] ==> head[|head| - 1] != c) && (tail != [] ==> tail[0] != c)
    ensures SameWord(head + (Repeat(c, n) + tail), head + (Repeat(c, m) + tail))
       <==> n == m || ('\U{621}' <= c <= '\U{64A}' && (n == 1 || n >= 3) && (m == 1 || m >= 3))
  {
    RunsAround(head, c, n, tail);
    RunsAround(head, c, m, tail);
    SameAt(Runs(head), Run(c, n), Run(c, m), Runs(tail));
  }

  /** On one word that the first passes leave alone, only collapsing does anything. */
  lemma NormalizeOfWord(cs: Casing, w: string)
    requires cs.Lawful() && Mild(cs, w) && Spaceless(w)
    ensures Normalize(cs, w) == Collapse(w)
  {
    PlainStays(cs, w);
    NormalizeIsWordwise(cs, w);
    if w != [] {
      FieldsAfterWord(w, []);
      assert w + [] == w && Collapsed([w]) == [Collapse(w)];
    }
  }

  const STRETCHED := "مرررررا"
  const DOUBLED := "مررا"

  lemma Collapses()
    ensures Collapse(STRETCHED) == "مرا" && Collapse(DOUBLED) == "مررا"
  {
    var long, short := STRETCHED, DOUBLED;
    assert RunLength(long) == 1 && RunLength(long[1..]) == 5 && RunLength(long[6..]) == 1;
    assert RunLength(short) == 1 && RunLength(short[1..]) == 2 && RunLength(short[2..]) == 1;
  }

  ghost predicate Spelling(w: string) {
    forall k :: 0 <= k < |w| ==> w[k] == 'م' || w[k] == 'ر' || w[k] == 'ا'
  }

  lemma Spellings()
    ensures Spelling(STRETCHED) && Spelling(DOUBLED)
  {
  }

  lemma SpellingIsMild(cs: Casing, w: string)
    requires cs.Lawful() && Spelling(w)
    ensures Mild(cs, w) && Spaceless(w)
  {
  }

  lemma SpellingCollapses(cs: Casing, w: string)
    requires cs.Lawful() && Spelling(w)
    ensures Normalize(cs, w) == Collapse(w)
  {
    SpellingIsMild(cs, w);
    NormalizeOfWord(cs, w);
  }

  /** The two spellings that the module's header calls the same are not. */
  lemma HeaderExampleIsNotMerged(cs: Casing, stretched: string, doubled: string)
    requires cs.Lawful() && stretched == STRETCHED && doubled == DOUBLED
    ensures Normalize(cs, stretched) == "مرا" && Normalize(cs, doubled) == "مررا"
    ensures Normalize(cs, stretched) != Normalize(cs, doubled)
  {
    Spellings();
    SpellingCollapses(cs, stretched);
    SpellingCollapses(cs, doubled);
    Collapses();
  }

  // --------------------------------------------------- which spellings merge

  ghost predicate AllSettled(cs: Casing, s: string) {
    forall k :: 0 <= k < |s| ==> cs.settled(s[k])
  }

  lemma PlainOfSettled(cs: Casing, s: string)
    requires cs.Lawful() && AllSettled(cs, s) && Trimmed(s)
    ensures Plain(cs, s) == Mapped(Undecorated(s))
  {
    StripTrimmed(s);
    assert cs.lower(s) == s;
  }

  lemma {:induction false} UndecoratedJoin(a: string, b: string)
    ensures Undecorated(a + b) == Undecorated(a) + Undecorated(b)
  {
    if a == [] {
      assert a + b == b;
    } else {
      assert (a + b)[1..] == a[1..] + b;
      UndecoratedJoin(a[1..], b);
    }
  }

  /** Two letters that only spelling habits tell apart: the forms of alef, of heh and teh
      marbuta, of yeh, of waw, and a digit in either script. */
  ghost predicate Variants(c: char, d: char) {
    || c == d
    || (c in {'ا', 'أ', 'إ', 'آ'} && d in {'ا', 'أ', 'إ', 'آ'})
    || (c in {'ه', 'ة'} && d in {'ه', 'ة'})
    || (c in {'ي', 'ى', 'ئ'} && d in {'ي', 'ى', 'ئ'})
    || (c in {'و', 'ؤ'} && d in {'و', 'ؤ'})
    || ('\U{660}' <= c <= '\U{669}' && '0' <= d <= '9' && c - '\U{660}' == d - '0')
    || ('\U{660}' <= d <= '\U{669}' && '0' <= c <= '9' && d - '\U{660}' == c - '0')
  }

  /** The letter maps make exactly these equal. */
  lemma MappedIff(c: char, d: char)
    ensures MapDigit(MapLetter(c)) == MapDigit(MapLetter(d)) <==> Variants(c, d)
  {
  }

  lemma BareAround(head: string, c: char, tail: string)
    ensures Undecorated(head + [c] + tail)
         == if IsDiacritic(c) then Undecorated(head) + Undecorated(tail)
            else Undecorated(head) + [c] + Undecorated(tail)
  {
    UndecoratedJoin(head + [c], tail);
    UndecoratedJoin(head, [c]);
    assert Undecorated([c]) == if IsDiacritic(c) then [] else [c];
    assert Undecorated(head) + [] == Undecorated(head);
  }

  lemma MappedAround(a: string, c: char, d: char, b: string)
    requires MapDigit(MapLetter(c)) == MapDigit(MapLetter(d))
    ensures Mapped(a + [c] + b) == Mapped(a + [d] + b)
  {
    var x, y := a + [c] + b, a + [d] + b;
    forall k | 0 <= k < |x| ensures Mapped(x)[k] == Mapped(y)[k] {
      assert k != |a| ==> x[k] == y[k];
    }
  }

  lemma SamePlain(cs: Casing, s: string, t: string)
    requires cs.Lawful() && AllSettled(cs, s) && Trimmed(s) && AllSettled(cs, t) && Trimmed(t) && s != [] && t != []
    requires Mapped(Undecorated(s)) == Mapped(Undecorated(t))
    ensures Normalize(cs, s) == Normalize(cs, t)
  {
    PlainOfSettled(cs, s);
    PlainOfSettled(cs, t);
  }

  /** A text means the same in either spelling of a letter. */
  lemma VariantsMerge(cs: Casing, head: string, c: char, d: char, tail: string)
    requires cs.Lawful() && Variants(c, d)
    requires AllSettled(cs, head + [c] + tail) && Trimmed(head + [c] + tail)
    requires AllSettled(cs, head + [d] + tail) && Trimmed(head + [d] + tail)
    ensures Normalize(cs, head + [c] + tail) == Normalize(cs, head + [d] + tail)
  {
    BareAround(head, c, tail);
    BareAround(head, d, tail);
    MappedIff(c, d);
    MappedAround(Undecorated(head), c, d, Undecorated(tail));
    SamePlain(cs, head + [c] + tail, head + [d] + tail);
  }

  /** A text means the same with and without a vowel mark or a stretched letter. */
  lemma MarksVanish(cs: Casing, head: string, mark: char, tail: string)
    requires cs.Lawful() && ('\U{64B}' <= mark <= '\U{65F}' || mark == '\U{670}' || mark == '\U{640}')
    requires AllSettled(cs, head + [mark] + tail) && Trimmed(head + [mark] + tail)
    requires head + tail != [] && AllSettled(cs, head + tail) && Trimmed(head + tail)
    ensures Normalize(cs, head + [mark] + tail) == Normalize(cs, head + tail)
  {
    BareAround(head, mark, tail);
    UndecoratedJoin(head, tail);
    SamePlain(cs, head + [mark] + tail, head + tail);
  }
}
