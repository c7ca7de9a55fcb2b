/** Where `split_clauses` cuts: at every listed word that stands alone, unless it overlaps another
    cut, and at no other word. */
module ClauseCuts {
  import opened Sequences
  import opened Text
  import opened Clauses
  import opened ClauseMarks
  import opened TokenCuts

  ghost predicate Separators(seps: seq<string>) {
    forall k :: 0 <= k < |seps| ==> Separator(seps[k])
  }

  /** The listed words in all their spellings. */
  ghost function Lexicon(): iset<string> {
    iset x | Listed(x)
  }

  lemma LexiconIsNeat()
    ensures NeatLexicon(Lexicon())
  {
    forall x | x in Lexicon()
      ensures x != [] && MARK !in x && !IsSpace(x[0]) && !IsSpace(x[|x| - 1])
      ensures forall k :: 0 <= k < |x| ==> !IsPunctuation(x[k])
    {
      ListedIsPlain(x);
    }
  }

  /** The words of a list are all in `lex`. */
  ghost predicate Within(words: seq<string>, fold: bool, lex: iset<string>) {
    forall x :: IsWord(x, words, fold) ==> x in lex
  }

  lemma CutsUnmarked(p: Pattern)
    requires Cuts(p)
    ensures Unmarked(p)
  {
  }

  lemma LawfulIsSolid(ts: seq<Token>)
    requires Lawful(ts)
    ensures Solid(ts)
  {
    forall k | 0 <= k < |ts| ensures Sturdy(ts[k]) {
      assert Fits(ts[k]);
      if ts[k].Break? {
        SeparatorsArePlain(ts[k].text);
      }
    }
  }

  lemma {:induction false} LawfulSeparators(ts: seq<Token>)
    requires Lawful(ts)
    ensures Separators(SepsOf(ts))
  {
    if ts != [] {
      assert Fits(ts[0]);
      LawfulSeparators(ts[1..]);
    }
  }

  lemma SeparatorsAreFilled(seps: seq<string>)
    requires Separators(seps)
    ensures Filled(seps)
  {
    forall k | 0 <= k < |seps| ensures seps[k] != [] {
      assert Separator(seps[k]);
      SeparatorsArePlain(seps[k]);
    }
  }

  lemma TokensAreUnlisted(lex: iset<string>, s: string)
    requires NeatLexicon(lex)
    ensures Framed(lex, true, Tokens(s)) && OnlyWords(lex, Tokens(s))
  {
  }

  // ---------------------------------------------------------- all three passes

  /** Every word of the lists that stands apart overlaps a cut. */
  ghost predicate StrikesAll(lex: iset<string>, text: string, ts: seq<Token>, contrast: seq<string>,
                             sequence: seq<string>) {
    forall at: nat, x: string ::
      Apart(text, at, |x|) && text[at..at + |x|] == x && (IsWord(x, contrast, true) || IsWord(x, sequence, false))
      ==> Struck(lex, ts, at, |x|)
  }

  ghost predicate Known(lex: iset<string>, p: Pattern) {
    Cuts(p) && Unmarked(p) && Frames(lex, p)
  }

  ghost predicate Sound(lex: iset<string>, ts: seq<Token>, shown: string, text: string) {
    Lawful(ts) && Solid(ts) && Shows(ts, shown) && Flat(ts) == text && Framed(lex, true, ts)
  }

  lemma OnePass(lex: iset<string>, p: Pattern, shown: string, ts: seq<Token>, text: string) returns (us: seq<Token>)
    requires Known(lex, p) && Sound(lex, ts, shown, text)
    ensures us == Retoken(p, shown, ts, 0) && Sound(lex, us, Sub(p, shown, 0), text)
  {
    us := Retoken(p, shown, ts, 0);
    assert ts[0..] == ts;
    RetokenIsRight(p, shown, ts, 0);
    LawfulIsSolid(us);
    RetokenIsFramed(lex, p, shown, ts, 0, true);
  }

  lemma StruckLater(lex: iset<string>, p: Pattern, shown: string, ts: seq<Token>, at: int, n: nat)
    requires Unmarked(p) && Shows(ts, shown) && Struck(lex, ts, at, n)
    ensures Struck(lex, Retoken(p, shown, ts, 0), at, n)
  {
    assert ts[0..] == ts;
    StaysStruck(lex, p, shown, ts, 0, at, n);
  }

  lemma PassesFrom(lex: iset<string>, contrast: seq<string>, sequence: seq<string>, s: string, ts: seq<Token>)
    returns (us: seq<Token>)
    requires NeatLexicon(lex) && PlainWords(contrast) && PlainWords(sequence)
    requires Within(contrast, true, lex) && Within(sequence, false, lex)
    requires Cuts(Words(contrast, true)) && Cuts(Words(sequence, false)) && Cuts(Punctuation)
    requires Sound(lex, ts, s, s) && OnlyWords(lex, ts)
    ensures Sound(lex, us, Sub(Punctuation, Sub(Words(sequence, false), Sub(Words(contrast, true), s, 0), 0), 0), s)
    ensures StrikesAll(lex, s, us, contrast, sequence)
  {
    var p, q := Words(contrast, true), Words(sequence, false);
    PatternsKnown(lex, contrast, sequence);
    var s1 := Sub(p, s, 0);
    var s2 := Sub(q, s1, 0);
    var t1 := OnePass(lex, p, s, ts, s);
    RetokenOnlyWords(lex, p, s, ts, 0);
    var t2 := OnePass(lex, q, s1, t1, s);
    us := OnePass(lex, Punctuation, s2, t2, s);
    forall at: nat, x: string | Apart(s, at, |x|) && s[at..at + |x|] == x
        && (IsWord(x, contrast, true) || IsWord(x, sequence, false))
      ensures Struck(lex, us, at, |x|)
    {
      if IsWord(x, contrast, true) {
        PassStrikes(lex, contrast, true, ts, s, at, x);
        StruckLater(lex, q, s1, t1, at, |x|);
      } else {
        PassStrikes(lex, sequence, false, t1, s1, at, x);
      }
      StruckLater(lex, Punctuation, s2, t2, at, |x|);
    }
  }

  lemma PatternsKnown(lex: iset<string>, contrast: seq<string>, sequence: seq<string>)
    requires NeatLexicon(lex) && PlainWords(contrast) && PlainWords(sequence)
    requires Within(contrast, true, lex) && Within(sequence, false, lex)
    requires Cuts(Words(contrast, true)) && Cuts(Words(sequence, false)) && Cuts(Punctuation)
    ensures var p, q := Words(contrast, true), Words(sequence, false);
      && Known(lex, p) && TakesWords(lex, p) && Known(lex, q) && TakesWords(lex, q) && Known(lex, Punctuation)
  {
    CutsUnmarked(Words(contrast, true));
    CutsUnmarked(Words(sequence, false));
    CutsUnmarked(Punctuation);
    WordsFrame(lex, contrast, true);
    WordsFrame(lex, sequence, false);
    PunctuationFrames(lex);
    WordsTakeWords(lex, contrast, true);
    WordsTakeWords(lex, sequence, false);
  }

  lemma ListsWithin()
    ensures Within(CONTRAST, true, Lexicon()) && Within(SEQUENCE, false, Lexicon())
  {
  }

  /** The tokens after the passes, and what they show. */
  lemma ThreePasses(s: string) returns (ts: seq<Token>)
    ensures Sound(Lexicon(), ts, Marked(s), s) && StrikesAll(Lexicon(), s, ts, CONTRAST, SEQUENCE)
  {
    LexiconIsNeat();
    PatternsCut();
    WordsArePlain();
    ListsWithin();
    TokensAreText(s);
    TokensAreUnlisted(Lexicon(), s);
    LawfulIsSolid(Tokens(s));
    ts := PassesFrom(Lexicon(), CONTRAST, SEQUENCE, s, Tokens(s));
  }

  /** Every listed word that stands apart in the text is cut out, or overlaps one that is. */
  ghost predicate CutsAll(text: string, parts: seq<string>, seps: seq<string>)
    requires |parts| == |seps| + 1
  {
    forall at: nat, x: string :: Apart(text, at, |x|) && text[at..at + |x|] == x && Listed(x) ==>
      exists k :: CutOver(Lexicon(), parts, seps, at, |x|, k)
  }

  /** No listed word is cut out that does not stand apart in the text. */
  ghost predicate CutsApart(text: string, parts: seq<string>, seps: seq<string>)
    requires |parts| == |seps| + 1
  {
    forall k :: 0 <= k < |seps| && Listed(seps[k]) ==> Apart(text, CutStart(parts, seps, k), |seps[k]|)
  }

  lemma FramedCutsApart(text: string, parts: seq<string>, seps: seq<string>)
    requires |parts| == |seps| + 1 && Separators(seps) && SepsFramed(Lexicon(), true, parts, seps)
    requires text == Weave(parts, seps)
    ensures CutsApart(text, parts, seps)
  {
    SeparatorsAreFilled(seps);
    forall k | 0 <= k < |seps| && Listed(seps[k]) ensures Apart(text, CutStart(parts, seps, k), |seps[k]|) {
      CutStandsApart(Lexicon(), true, parts, seps, k);
    }
  }

  lemma StrikesCutAll(text: string, ts: seq<Token>, s: string)
    requires Solid(ts) && Shows(ts, s) && StrikesAll(Lexicon(), text, ts, CONTRAST, SEQUENCE)
    requires |Split(s)| == |SepsOf(ts)| + 1
    ensures CutsAll(text, Split(s), SepsOf(ts))
  {
    forall at: nat, x: string | Apart(text, at, |x|) && text[at..at + |x|] == x && Listed(x)
      ensures exists k :: CutOver(Lexicon(), Split(s), SepsOf(ts), at, |x|, k)
    {
      var k := StruckIsCut(Lexicon(), ts, s, at, |x|);
    }
  }

  /** The parts of the protected text and the separators between them are the whole of it.  A
      listed word is cut out only where it stands apart, and wherever it does, it is cut out or
      overlaps one that is. */
  lemma MarkedTiles(s: string) returns (seps: seq<string>)
    ensures |Split(Marked(s))| == |seps| + 1 && Separators(seps)
    ensures Weave(Split(Marked(s)), seps) == s && SepsFramed(Lexicon(), true, Split(Marked(s)), seps)
    ensures CutsApart(s, Split(Marked(s)), seps) && CutsAll(s, Split(Marked(s)), seps)
  {
    var shown := Marked(s);
    var ts := ThreePasses(s);
    seps := SepsOf(ts);
    SplitTiles(ts, shown);
    LawfulSeparators(ts);
    SepsAreFramed(Lexicon(), ts, shown, true);
    FramedCutsApart(s, Split(shown), seps);
    StrikesCutAll(s, ts, shown);
  }
}
