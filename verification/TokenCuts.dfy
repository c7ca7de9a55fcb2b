/** Tokens with words cut out of them: which words stand alone in the text, and that a pass cuts
    those and no others.  What counts as a word is a parameter. */
module TokenCuts {
  import opened Sequences
  import opened Text
  import opened Clauses
  import opened ClauseMarks

  /** Words of the kind that is cut: no marks or punctuation in them, no white space at the ends. */
  ghost predicate NeatLexicon(lex: iset<string>) {
    forall x :: x in lex ==>
      && x != [] && MARK !in x && !IsSpace(x[0]) && !IsSpace(x[|x| - 1])
      && forall k :: 0 <= k < |x| ==> !IsPunctuation(x[k])
  }

  /** What every token of a text under way is. */
  ghost predicate Sturdy(t: Token) {
    Written(t) != [] && (t.Letter? ==> t.c != MARK)
  }

  ghost predicate Solid(ts: seq<Token>) {
    forall k :: 0 <= k < |ts| ==> Sturdy(ts[k])
  }

  /** A match holds no mark. */
  ghost predicate Unmarked(p: Pattern) {
    forall s: string, k: nat :: k <= |s| && MatchAt(p, s, k) > 0 ==> MARK !in s[k..k + MatchAt(p, s, k)]
  }

  ghost predicate Filled(seps: seq<string>) {
    forall k :: 0 <= k < |seps| ==> seps[k] != []
  }

  // ----------------------------------------------- words that stand alone

  ghost predicate IsListed(lex: iset<string>, t: Token) {
    t.Break? && t.text in lex
  }

  ghost function First(t: Token): char {
    if Written(t) == [] then ' ' else Written(t)[0]
  }

  ghost function Last(t: Token): char {
    if Written(t) == [] then ' ' else Written(t)[|Written(t)| - 1]
  }

  /** A listed word cut out has white space or an end of the text on both sides; `left` says so
      of what stands before the tokens. */
  ghost predicate FramedAt(lex: iset<string>, left: bool, ts: seq<Token>, k: nat)
    requires k < |ts|
  {
    IsListed(lex, ts[k]) ==>
      (if k == 0 then left else IsSpace(Last(ts[k - 1]))) && (k + 1 == |ts| || IsSpace(First(ts[k + 1])))
  }

  ghost predicate Framed(lex: iset<string>, left: bool, ts: seq<Token>) {
    forall k :: 0 <= k < |ts| ==> FramedAt(lex, left, ts, k)
  }

  lemma FramedRest(lex: iset<string>, left: bool, ts: seq<Token>)
    requires ts != [] && Framed(lex, left, ts)
    ensures Framed(lex, IsSpace(Last(ts[0])), ts[1..])
  {
    forall k | 0 <= k < |ts| - 1 ensures FramedAt(lex, IsSpace(Last(ts[0])), ts[1..], k) {
      assert FramedAt(lex, left, ts, k + 1);
    }
  }

  /** The pattern takes a listed word only where it stands alone. */
  ghost predicate Frames(lex: iset<string>, p: Pattern) {
    forall s: string, k: nat :: k <= |s| && MatchAt(p, s, k) > 0 && s[k..k + MatchAt(p, s, k)] in lex ==>
      (k == 0 || IsSpace(s[k - 1])) && (k + MatchAt(p, s, k) == |s| || IsSpace(s[k + MatchAt(p, s, k)]))
  }

  lemma WordsFrame(lex: iset<string>, words: seq<string>, fold: bool)
    requires PlainWords(words)
    ensures Frames(lex, Words(words, fold))
  {
    forall s: string, k: nat | k <= |s| && WordMatch(s, k, words, fold) > 0
      ensures (k == 0 || IsSpace(s[k - 1]))
      ensures k + WordMatch(s, k, words, fold) == |s| || IsSpace(s[k + WordMatch(s, k, words, fold)])
    {
      var i := WordRead(s, k, words, fold, WordMatch(s, k, words, fold));
    }
  }

  lemma PunctuationFrames(lex: iset<string>)
    requires NeatLexicon(lex)
    ensures Frames(lex, Punctuation)
  {
    forall s: string, k: nat | k <= |s| && Run(s, k) > 0 ensures s[k..k + Run(s, k)] !in lex {
      var x := s[k..k + Run(s, k)];
      assert x[0] == s[k];
    }
  }

  /** What a match takes away is letters. */
  lemma MatchIsLetters(p: Pattern, s: string, ts: seq<Token>, k: nat, i: nat)
    requires Unmarked(p) && Shows(ts, s) && k < |s| && MatchAt(p, s, k) > 0 && k <= i < Next(p, s, k)
    ensures ts[i] == Letter(s[i])
  {
    var x := s[k..k + MatchAt(p, s, k)];
    assert MARK !in x;
    assert x[i - k] == s[i] && s[i] in x;
  }

  lemma HeadEnds(p: Pattern, s: string, ts: seq<Token>, k: nat, next: nat, head: Token)
    requires Unmarked(p) && Shows(ts, s) && k < |s| && next == Next(p, s, k) && head == Head(p, s, ts, k)
    ensures First(head) == First(ts[k]) && Last(head) == Last(ts[next - 1])
  {
    if MatchAt(p, s, k) > 0 {
      MatchIsLetters(p, s, ts, k, k);
      MatchIsLetters(p, s, ts, k, next - 1);
      var x := s[k..next];
      assert x[0] == s[k] && x[|x| - 1] == s[next - 1];
    }
  }

  /** A space that is shown is a space of the text. */
  lemma ShownSpace(ts: seq<Token>, s: string, k: nat)
    requires Shows(ts, s) && k < |s| && IsSpace(s[k])
    ensures ts[k] == Letter(s[k]) && First(ts[k]) == s[k] && Last(ts[k]) == s[k]
  {
  }

  lemma HeadIsFramed(lex: iset<string>, p: Pattern, s: string, ts: seq<Token>, k: nat, next: nat, head: Token)
    requires Unmarked(p) && Frames(lex, p) && Shows(ts, s) && k < |s| && Framed(lex, true, ts)
    requires next == Next(p, s, k) && head == Head(p, s, ts, k) && IsListed(lex, head)
    ensures (k == 0 || IsSpace(Last(ts[k - 1]))) && (next == |s| || IsSpace(First(ts[next])))
  {
    assert FramedAt(lex, true, ts, k);
    if MatchAt(p, s, k) > 0 {
      assert s[k..k + MatchAt(p, s, k)] in lex;
      if k > 0 {
        ShownSpace(ts, s, k - 1);
      }
      if next < |s| {
        ShownSpace(ts, s, next);
      }
    }
  }

  lemma FramedCons(lex: iset<string>, left: bool, t: Token, rest: seq<Token>)
    requires IsListed(lex, t) ==> left && (rest == [] || IsSpace(First(rest[0])))
    requires Framed(lex, IsSpace(Last(t)), rest)
    ensures Framed(lex, left, [t] + rest)
  {
    forall k | 0 < k <= |rest| ensures FramedAt(lex, left, [t] + rest, k) {
      assert FramedAt(lex, IsSpace(Last(t)), rest, k - 1);
    }
  }

  lemma RetokenStarts(p: Pattern, s: string, ts: seq<Token>, k: nat, us: seq<Token>)
    requires Unmarked(p) && Shows(ts, s) && k <= |s| && us == Retoken(p, s, ts, k)
    ensures (k == |s| <==> us == []) && (us != [] ==> First(us[0]) == First(ts[k]))
  {
    if k < |s| {
      HeadEnds(p, s, ts, k, Next(p, s, k), Head(p, s, ts, k));
    }
  }

  /** What stands before and after a token of the next pass. */
  lemma HeadJoins(lex: iset<string>, p: Pattern, s: string, ts: seq<Token>, k: nat, next: nat, left: bool,
                  head: Token, rest: seq<Token>)
    requires Unmarked(p) && Frames(lex, p) && Shows(ts, s) && k < |s| && Framed(lex, true, ts)
    requires left == (k == 0 || IsSpace(Last(ts[k - 1])))
    requires next == Next(p, s, k) && head == Head(p, s, ts, k) && rest == Retoken(p, s, ts, next)
    ensures Last(head) == Last(ts[next - 1])
    ensures IsListed(lex, head) ==> left && (rest == [] || IsSpace(First(rest[0])))
  {
    RetokenStarts(p, s, ts, next, rest);
    HeadEnds(p, s, ts, k, next, head);
    if IsListed(lex, head) {
      HeadIsFramed(lex, p, s, ts, k, next, head);
    }
  }

  lemma {:induction false} RetokenIsFramed(lex: iset<string>, p: Pattern, s: string, ts: seq<Token>, k: nat, left: bool)
    requires Unmarked(p) && Frames(lex, p) && Shows(ts, s) && k <= |s| && Framed(lex, true, ts)
    requires left == (k == 0 || IsSpace(Last(ts[k - 1])))
    ensures Framed(lex, left, Retoken(p, s, ts, k))
    decreases |s| - k
  {
    if k < |s| {
      var next, head := Next(p, s, k), Head(p, s, ts, k);
      var rest := Retoken(p, s, ts, next);
      HeadJoins(lex, p, s, ts, k, next, left, head, rest);
      RetokenIsFramed(lex, p, s, ts, next, IsSpace(Last(head)));
      FramedCons(lex, left, head, rest);
    }
  }

  // ------------------------------------------------------- words that are cut

  /** Some listed word cut out overlaps the `n` characters at `at`. */
  ghost predicate Struck(lex: iset<string>, ts: seq<Token>, at: int, n: nat) {
    ts != [] &&
    ((IsListed(lex, ts[0]) && 0 < at + n && at < |Written(ts[0])|) || Struck(lex, ts[1..], at - |Written(ts[0])|, n))
  }

  /** How much text the tokens from `k` to `m` stand for. */
  ghost function Width(ts: seq<Token>, k: nat, m: nat): nat
    requires k <= m <= |ts|
    decreases m - k
  {
    if k == m then 0 else |Written(ts[k])| + Width(ts, k + 1, m)
  }

  lemma {:induction false} WidthJoins(ts: seq<Token>, k: nat, l: nat, m: nat)
    requires k <= l <= m <= |ts|
    ensures Width(ts, k, m) == Width(ts, k, l) + Width(ts, l, m)
    decreases l - k
  {
    if k < l {
      WidthJoins(ts, k + 1, l, m);
    }
  }

  lemma {:induction false} WidthOfLetters(ts: seq<Token>, k: nat, m: nat)
    requires k <= m <= |ts| && forall i :: k <= i < m ==> |Written(ts[i])| == 1
    ensures Width(ts, k, m) == m - k
    decreases m - k
  {
    if k < m {
      WidthOfLetters(ts, k + 1, m);
    }
  }

  lemma {:induction false} StruckPastLetters(lex: iset<string>, ts: seq<Token>, k: nat, m: nat, at: int, n: nat)
    requires k <= m <= |ts| && (forall i :: k <= i < m ==> ts[i].Letter?) && Struck(lex, ts[k..], at, n)
    ensures Struck(lex, ts[m..], at - (m - k), n)
    decreases m - k
  {
    if k < m {
      assert ts[k..][1..] == ts[k + 1..];
      StruckPastLetters(lex, ts, k + 1, m, at - 1, n);
    }
  }

  lemma StruckCons(lex: iset<string>, t: Token, rest: seq<Token>, at: int, n: nat)
    ensures Struck(lex, [t] + rest, at, n)
       <==> (IsListed(lex, t) && 0 < at + n && at < |Written(t)|) || Struck(lex, rest, at - |Written(t)|, n)
  {
    assert ([t] + rest)[1..] == rest;
  }

  lemma StaysAfterLetters(lex: iset<string>, ts: seq<Token>, k: nat, next: nat, x: string, rest: seq<Token>, at: int,
                          n: nat)
    requires k < next <= |ts| && |x| == next - k && (forall i :: k <= i < next ==> ts[i].Letter?)
    requires Struck(lex, ts[k..], at, n) && (Struck(lex, ts[next..], at - |x|, n) ==> Struck(lex, rest, at - |x|, n))
    ensures Struck(lex, [Break(x)] + rest, at, n)
  {
    StruckPastLetters(lex, ts, k, next, at, n);
    StruckCons(lex, Break(x), rest, at, n);
  }

  lemma StaysAfterToken(lex: iset<string>, ts: seq<Token>, k: nat, rest: seq<Token>, at: int, n: nat)
    requires k < |ts| && Struck(lex, ts[k..], at, n)
    requires var m := at - |Written(ts[k])|; Struck(lex, ts[k + 1..], m, n) ==> Struck(lex, rest, m, n)
    ensures Struck(lex, [ts[k]] + rest, at, n)
  {
    assert ts[k..] == [ts[k]] + ts[k + 1..];
    StruckCons(lex, ts[k], ts[k + 1..], at, n);
    StruckCons(lex, ts[k], rest, at, n);
  }

  /** A pass leaves the cuts of earlier passes. */
  lemma {:induction false} StaysStruck(lex: iset<string>, p: Pattern, s: string, ts: seq<Token>, k: nat, at: int,
                                       n: nat)
    requires Unmarked(p) && Shows(ts, s) && k <= |s| && Struck(lex, ts[k..], at, n)
    ensures Struck(lex, Retoken(p, s, ts, k), at, n)
    decreases |s| - k
  {
    if k < |s| {
      var next, head := Next(p, s, k), Head(p, s, ts, k);
      var rest, m := Retoken(p, s, ts, next), at - |Written(head)|;
      if Struck(lex, ts[next..], m, n) {
        StaysStruck(lex, p, s, ts, next, m, n);
      }
      StaysAfterHead(lex, p, s, ts, k, next, rest, at, n);
    }
  }

  lemma StaysAfterHead(lex: iset<string>, p: Pattern, s: string, ts: seq<Token>, k: nat, next: nat, rest: seq<Token>,
                       at: int, n: nat)
    requires Unmarked(p) && Shows(ts, s) && k < |s| && next == Next(p, s, k) && Struck(lex, ts[k..], at, n)
    requires var m := at - |Written(Head(p, s, ts, k))|; Struck(lex, ts[next..], m, n) ==> Struck(lex, rest, m, n)
    ensures Struck(lex, [Head(p, s, ts, k)] + rest, at, n)
  {
    if MatchAt(p, s, k) > 0 {
      forall i | k <= i < next ensures ts[i].Letter? {
        MatchIsLetters(p, s, ts, k, i);
      }
      StaysAfterLetters(lex, ts, k, next, s[k..next], rest, at, n);
    } else {
      StaysAfterToken(lex, ts, k, rest, at, n);
    }
  }

  /** Every match of the pattern is a listed word. */
  ghost predicate TakesWords(lex: iset<string>, p: Pattern) {
    forall s: string, k: nat :: k <= |s| && MatchAt(p, s, k) > 0 ==> s[k..k + MatchAt(p, s, k)] in lex
  }

  lemma WordsTakeWords(lex: iset<string>, words: seq<string>, fold: bool)
    requires PlainWords(words) && forall x :: IsWord(x, words, fold) ==> x in lex
    ensures TakesWords(lex, Words(words, fold))
  {
    forall s: string, k: nat | k <= |s| && WordMatch(s, k, words, fold) > 0
      ensures s[k..k + WordMatch(s, k, words, fold)] in lex
    {
      WordMatchIsWord(s, k, words, fold);
    }
  }

  /** Wherever the pattern matches, a pass over the words cuts there or has cut just before. */
  lemma {:induction false} MatchIsStruck(lex: iset<string>, p: Pattern, s: string, ts: seq<Token>, k: nat, q: nat,
                                         n: nat)
    requires Unmarked(p) && TakesWords(lex, p) && Shows(ts, s) && k <= q < |s| && MatchAt(p, s, q) > 0 && n > 0
    ensures Struck(lex, Retoken(p, s, ts, k), Width(ts, k, q), n)
    decreases |s| - k
  {
    var next := Next(p, s, k);
    var head, rest := Head(p, s, ts, k), Retoken(p, s, ts, next);
    StruckCons(lex, head, rest, Width(ts, k, q), n);
    if MatchAt(p, s, k) > 0 {
      assert s[k..k + MatchAt(p, s, k)] in lex;
      forall i | k <= i < next ensures |Written(ts[i])| == 1 {
        MatchIsLetters(p, s, ts, k, i);
      }
      if q < next {
        WidthOfLetters(ts, k, q);
      } else {
        WidthOfLetters(ts, k, next);
        WidthJoins(ts, k, next, q);
        MatchIsStruck(lex, p, s, ts, next, q, n);
      }
    } else {
      MatchIsStruck(lex, p, s, ts, next, q, n);
    }
  }

  // --------------------------------- finding a stretch of the text in the tokens

  /** Only marks of the text itself and listed words have been cut so far. */
  ghost predicate OnlyWords(lex: iset<string>, ts: seq<Token>) {
    forall k :: 0 <= k < |ts| && ts[k].Break? ==> ts[k].text == [MARK] || ts[k].text in lex
  }

  lemma {:induction false} RetokenOnlyWords(lex: iset<string>, p: Pattern, s: string, ts: seq<Token>, k: nat)
    requires TakesWords(lex, p) && OnlyWords(lex, ts) && k <= |s| == |ts|
    ensures OnlyWords(lex, Retoken(p, s, ts, k))
    decreases |s| - k
  {
    if k < |s| {
      RetokenOnlyWords(lex, p, s, ts, Next(p, s, k));
      if MatchAt(p, s, k) > 0 {
        assert s[k..k + MatchAt(p, s, k)] in lex;
      }
    }
  }

  ghost predicate LettersAt(ts: seq<Token>, i: nat, x: string) {
    i + |x| <= |ts| && forall j :: 0 <= j < |x| ==> ts[i + j] == Letter(x[j])
  }

  lemma LettersCons(ts: seq<Token>, i: nat, x: string)
    requires x != [] && i < |ts| && ts[i] == Letter(x[0]) && LettersAt(ts, i + 1, x[1..])
    ensures LettersAt(ts, i, x)
  {
    forall j | 0 <= j < |x| ensures ts[i + j] == Letter(x[j]) {
      if j > 0 {
        assert ts[i + 1 + (j - 1)] == Letter(x[1..][j - 1]);
      }
    }
  }

  lemma LetterOrListed(lex: iset<string>, t: Token, c: char)
    requires Sturdy(t) && (t.Break? ==> t.text == [MARK] || t.text in lex) && !(IsListed(lex, t))
    requires Written(t) != [] && Written(t)[0] == c != MARK
    ensures t == Letter(c)
  {
  }

  lemma NotStruckNext(lex: iset<string>, ts: seq<Token>, k: nat, n: nat)
    requires k < |ts| && n > 0 && !Struck(lex, ts[k..], 0, n) && Written(ts[k]) != []
    ensures !IsListed(lex, ts[k]) && (|Written(ts[k])| == 1 ==> !Struck(lex, ts[k + 1..], 0, n - 1))
  {
    assert ts[k..] == [ts[k]] + ts[k + 1..];
    StruckCons(lex, ts[k], ts[k + 1..], 0, n);
    if Struck(lex, ts[k + 1..], 0, n - 1) {
      StruckWider(lex, ts[k + 1..], 0, n - 1);
    }
  }

  lemma PrefixTail(head: string, rest: string, x: string)
    requires x != [] && x <= head + rest && head != []
    ensures x[0] == head[0] && (|head| == 1 ==> x[1..] <= rest)
  {
    var text := head + rest;
    assert text[0] == head[0] && x == text[..|x|];
  }

  /** The next token, where the text goes on with a character of a stretch that is not overlapped. */
  lemma NextIsLetter(lex: iset<string>, ts: seq<Token>, k: nat, text: string, x: string)
    requires Solid(ts) && OnlyWords(lex, ts) && k < |ts| && text == Flat(ts[k..]) && x != [] && x <= text && MARK !in x
    requires !Struck(lex, ts[k..], 0, |x|)
    ensures ts[k] == Letter(x[0]) && x[1..] <= Flat(ts[k + 1..]) && !Struck(lex, ts[k + 1..], 0, |x| - 1)
  {
    var t, rest := ts[k], Flat(ts[k + 1..]);
    FlatAt(ts, k);
    assert Sturdy(t);
    NotStruckNext(lex, ts, k, |x|);
    PrefixTail(Written(t), rest, x);
    assert x[0] in x;
    LetterOrListed(lex, t, x[0]);
  }

  lemma {:induction false} LettersAhead(lex: iset<string>, ts: seq<Token>, k: nat, text: string, x: string)
    requires Solid(ts) && OnlyWords(lex, ts) && k <= |ts| && text == Flat(ts[k..]) && x <= text && MARK !in x
    requires !Struck(lex, ts[k..], 0, |x|)
    ensures LettersAt(ts, k, x)
    decreases |x|
  {
    if x != [] {
      assert k < |ts|;
      NextIsLetter(lex, ts, k, text, x);
      assert forall c :: c in x[1..] ==> c in x;
      LettersAhead(lex, ts, k + 1, Flat(ts[k + 1..]), x[1..]);
      LettersCons(ts, k, x);
    }
  }

  /** A stretch that begins one character earlier is overlapped too. */
  lemma {:induction false} StruckWider(lex: iset<string>, ts: seq<Token>, at: int, n: nat)
    requires Struck(lex, ts, at, n)
    ensures Struck(lex, ts, at - 1, n + 1)
  {
    if !(IsListed(lex, ts[0]) && 0 < at + n && at < |Written(ts[0])|) {
      StruckWider(lex, ts[1..], at - |Written(ts[0])|, n);
    }
  }

  lemma PastHead(head: string, rest: string, at: nat, x: string)
    requires |head| <= at && at + |x| <= |head + rest| && (head + rest)[at..at + |x|] == x
    ensures at - |head| + |x| <= |rest| && rest[at - |head|..at - |head| + |x|] == x
  {
    var m := at - |head|;
    forall j | 0 <= j < |x| ensures rest[m + j] == x[j] {
      assert (head + rest)[at + j] == (head + rest)[at..at + |x|][j];
    }
    assert rest[m..m + |x|] == x;
  }

  lemma ShownAt(head: string, rest: string, at: nat, x: string)
    requires x != [] && at + |x| <= |head + rest| && (head + rest)[at..at + |x|] == x
    ensures x[0] in x && (at < |head| ==> head[at] == x[0])
  {
    assert (head + rest)[at..at + |x|][0] == (head + rest)[at];
  }

  /** A token that reaches into a stretch that is not overlapped is no word. */
  lemma ReachesNot(lex: iset<string>, t: Token, rest: string, at: nat, x: string)
    requires Sturdy(t) && (t.Break? ==> t.text == [MARK] || t.text in lex) && !(IsListed(lex, t) && at < |Written(t)|)
    requires x != [] && MARK !in x && at > 0 && at + |x| <= |Written(t) + rest|
    requires (Written(t) + rest)[at..at + |x|] == x
    ensures |Written(t)| <= at
  {
    ShownAt(Written(t), rest, at, x);
  }

  lemma NotStruckAhead(lex: iset<string>, ts: seq<Token>, k: nat, at: nat, n: nat)
    requires k < |ts| && n > 0 && !Struck(lex, ts[k..], at, n)
    ensures !(IsListed(lex, ts[k]) && at < |Written(ts[k])|) && !Struck(lex, ts[k + 1..], at - |Written(ts[k])|, n)
  {
    assert ts[k..] == [ts[k]] + ts[k + 1..];
    StruckCons(lex, ts[k], ts[k + 1..], at, n);
  }

  /** The next token ends before a stretch that is not overlapped. */
  lemma NextEndsBefore(lex: iset<string>, ts: seq<Token>, k: nat, text: string, at: nat, x: string)
    requires Solid(ts) && OnlyWords(lex, ts) && k < |ts| && text == Flat(ts[k..]) && at > 0
    requires at + |x| <= |text| && text[at..at + |x|] == x && x != [] && MARK !in x && !Struck(lex, ts[k..], at, |x|)
    ensures var m, rest := |Written(ts[k])|, Flat(ts[k + 1..]);
      0 < m <= at && at - m + |x| <= |rest| && rest[at - m..at - m + |x|] == x && !Struck(lex, ts[k + 1..], at - m, |x|)
  {
    FlatAt(ts, k);
    assert Sturdy(ts[k]);
    NotStruckAhead(lex, ts, k, at, |x|);
    ReachesNot(lex, ts[k], Flat(ts[k + 1..]), at, x);
    PastHead(Written(ts[k]), Flat(ts[k + 1..]), at, x);
  }

  /** A stretch that no cut overlaps is letters of the tokens. */
  lemma {:induction false} Locate(lex: iset<string>, ts: seq<Token>, k: nat, text: string, at: nat, x: string)
    returns (i: nat)
    requires Solid(ts) && OnlyWords(lex, ts) && k <= |ts| && text == Flat(ts[k..])
    requires at + |x| <= |text| && text[at..at + |x|] == x && x != [] && MARK !in x && !Struck(lex, ts[k..], at, |x|)
    ensures k <= i && LettersAt(ts, i, x) && Width(ts, k, i) == at
    decreases |ts| - k
  {
    if at == 0 {
      LettersAhead(lex, ts, k, text, x);
      i := k;
    } else {
      assert k < |ts|;
      NextEndsBefore(lex, ts, k, text, at, x);
      i := Locate(lex, ts, k + 1, Flat(ts[k + 1..]), at - |Written(ts[k])|, x);
    }
  }

  lemma {:induction false} AfterTokens(ts: seq<Token>, k: nat, i: nat)
    requires Solid(ts) && k <= i < |ts|
    ensures var text, at := Flat(ts[k..]), Width(ts, k, i); at < |text| && text[at] == First(ts[i])
    decreases i - k
  {
    FlatAt(ts, k);
    assert Sturdy(ts[k]);
    if k < i {
      AfterTokens(ts, k + 1, i);
    }
  }

  lemma {:induction false} BeforeTokens(ts: seq<Token>, k: nat, i: nat)
    requires Solid(ts) && k < i <= |ts|
    ensures var text, at := Flat(ts[k..]), Width(ts, k, i); 0 < at <= |text| && text[at - 1] == Last(ts[i - 1])
    decreases i - k
  {
    FlatAt(ts, k);
    assert Sturdy(ts[k]);
    if k + 1 < i {
      BeforeTokens(ts, k + 1, i);
    }
  }

  lemma {:induction false} AllTokens(ts: seq<Token>, k: nat)
    requires k <= |ts|
    ensures Width(ts, k, |ts|) == |Flat(ts[k..])|
    decreases |ts| - k
  {
    if k < |ts| {
      FlatAt(ts, k);
      AllTokens(ts, k + 1);
    }
  }

  lemma SpaceIsLetter(lex: iset<string>, t: Token, c: char)
    requires NeatLexicon(lex) && Sturdy(t) && (t.Break? ==> t.text == [MARK] || t.text in lex)
    requires IsSpace(c) && (First(t) == c || Last(t) == c)
    ensures t == Letter(c)
  {
  }

  /** White space or an end of the text on both sides. */
  ghost predicate Apart(text: string, at: nat, n: nat) {
    && at + n <= |text|
    && (at == 0 || IsSpace(text[at - 1]))
    && (at + n == |text| || IsSpace(text[at + n]))
  }

  lemma SpaceShown(lex: iset<string>, ts: seq<Token>, shown: string, i: nat, c: char)
    requires NeatLexicon(lex)
    requires Solid(ts) && OnlyWords(lex, ts) && Shows(ts, shown) && i < |ts|
    requires IsSpace(c) && (First(ts[i]) == c || Last(ts[i]) == c)
    ensures IsSpace(shown[i])
  {
    assert Sturdy(ts[i]);
    SpaceIsLetter(lex, ts[i], c);
  }

  lemma SpaceBefore(lex: iset<string>, ts: seq<Token>, shown: string, j: nat, at: nat)
    requires NeatLexicon(lex)
    requires Solid(ts) && OnlyWords(lex, ts) && Shows(ts, shown) && j < |ts|
    requires at == Width(ts, 0, j + 1) && 0 < at <= |Flat(ts)| && IsSpace(Flat(ts)[at - 1])
    ensures IsSpace(shown[j])
  {
    assert ts[0..] == ts;
    BeforeTokens(ts, 0, j + 1);
    SpaceShown(lex, ts, shown, j, Last(ts[j]));
  }

  lemma SpaceAfter(lex: iset<string>, ts: seq<Token>, shown: string, i: nat)
    requires NeatLexicon(lex)
    requires Solid(ts) && OnlyWords(lex, ts) && Shows(ts, shown) && i < |ts|
    requires var at := Width(ts, 0, i); at < |Flat(ts)| && IsSpace(Flat(ts)[at])
    ensures IsSpace(shown[i])
  {
    assert ts[0..] == ts;
    AfterTokens(ts, 0, i);
    SpaceShown(lex, ts, shown, i, First(ts[i]));
  }

  lemma Ends(ts: seq<Token>, i: nat)
    requires Solid(ts) && i <= |ts|
    ensures (i == 0 <==> Width(ts, 0, i) == 0) && (i == |ts| <==> Width(ts, 0, i) == |Flat(ts)|)
  {
    assert ts[0..] == ts;
    AllTokens(ts, 0);
    if i > 0 {
      BeforeTokens(ts, 0, i);
    }
    if i < |ts| {
      AfterTokens(ts, 0, i);
    }
  }

  lemma LeftShown(lex: iset<string>, ts: seq<Token>, shown: string, i: nat, at: nat)
    requires NeatLexicon(lex) && Solid(ts) && OnlyWords(lex, ts) && Shows(ts, shown) && i <= |ts|
    requires Width(ts, 0, i) == at <= |Flat(ts)| && (at == 0 || IsSpace(Flat(ts)[at - 1]))
    ensures i == 0 || IsSpace(shown[i - 1])
  {
    Ends(ts, i);
    if i > 0 {
      SpaceBefore(lex, ts, shown, i - 1, at);
    }
  }

  lemma RightShown(lex: iset<string>, ts: seq<Token>, shown: string, i: nat, at: nat)
    requires NeatLexicon(lex) && Solid(ts) && OnlyWords(lex, ts) && Shows(ts, shown) && i <= |ts|
    requires Width(ts, 0, i) == at <= |Flat(ts)| && (at == |Flat(ts)| || IsSpace(Flat(ts)[at]))
    ensures i == |shown| || IsSpace(shown[i])
  {
    Ends(ts, i);
    if i < |ts| {
      SpaceAfter(lex, ts, shown, i);
    }
  }

  /** What stands apart in the text stands apart in what the tokens show. */
  lemma ShownApart(lex: iset<string>, ts: seq<Token>, shown: string, i: nat, j: nat, at: nat, to: nat)
    requires NeatLexicon(lex) && Solid(ts) && OnlyWords(lex, ts) && Shows(ts, shown) && i <= j <= |ts|
    requires Width(ts, 0, i) == at && Width(ts, 0, j) == to && at <= to <= |Flat(ts)|
    requires (at == 0 || IsSpace(Flat(ts)[at - 1])) && (to == |Flat(ts)| || IsSpace(Flat(ts)[to]))
    ensures (i == 0 || IsSpace(shown[i - 1])) && (j == |shown| || IsSpace(shown[j]))
  {
    LeftShown(lex, ts, shown, i, at);
    RightShown(lex, ts, shown, j, to);
  }

  lemma ShownLetters(ts: seq<Token>, shown: string, i: nat, x: string)
    requires Shows(ts, shown) && LettersAt(ts, i, x)
    ensures shown[i..i + |x|] == x && Width(ts, i, i + |x|) == |x|
  {
    forall j | i <= j < i + |x| ensures |Written(ts[j])| == 1 && shown[j] == x[j - i] {
      assert ts[i + (j - i)] == Letter(x[j - i]);
    }
    WidthOfLetters(ts, i, i + |x|);
  }

  lemma LettersApart(lex: iset<string>, ts: seq<Token>, shown: string, i: nat, j: nat, at: nat, to: nat)
    requires NeatLexicon(lex) && Solid(ts) && OnlyWords(lex, ts) && Shows(ts, shown)
    requires i <= j <= |ts| && Width(ts, 0, i) == at && Width(ts, i, j) == to - at
    requires at <= to && Apart(Flat(ts), at, to - at)
    ensures Delimited(shown, i, j - i)
  {
    WidthJoins(ts, 0, i, j);
    ShownApart(lex, ts, shown, i, j, at, to);
  }

  lemma ShownWord(words: seq<string>, fold: bool, shown: string, i: nat, x: string)
    requires PlainWords(words) && IsWord(x, words, fold) && i + |x| <= |shown| && shown[i..i + |x|] == x
    requires Delimited(shown, i, |x|)
    ensures WordMatch(shown, i, words, fold) > 0
  {
    var w :| 0 <= w < |words| && Spells(x, words[w], fold);
    WordAtSpells(shown, i, words[w], fold);
    WordFound(shown, i, words, fold);
  }

  /** Where such a word is among the tokens, and in what they show. */
  lemma WordIsShown(lex: iset<string>, ts: seq<Token>, shown: string, at: nat, x: string) returns (i: nat)
    requires NeatLexicon(lex) && Solid(ts) && OnlyWords(lex, ts) && Shows(ts, shown)
    requires Apart(Flat(ts), at, |x|) && Flat(ts)[at..at + |x|] == x && x != [] && MARK !in x
    requires !Struck(lex, ts, at, |x|)
    ensures i + |x| <= |shown| && shown[i..i + |x|] == x && Width(ts, 0, i) == at && Delimited(shown, i, |x|)
  {
    assert ts[0..] == ts;
    i := Locate(lex, ts, 0, Flat(ts), at, x);
    ShownLetters(ts, shown, i, x);
    LettersApart(lex, ts, shown, i, i + |x|, at, at + |x|);
  }

  /** A listed word that stands apart, and that no cut overlaps yet, is matched. */
  lemma WordIsMatched(lex: iset<string>, words: seq<string>, fold: bool, ts: seq<Token>, shown: string, at: nat,
                      x: string) returns (i: nat)
    requires NeatLexicon(lex) && PlainWords(words) && Solid(ts) && OnlyWords(lex, ts) && Shows(ts, shown)
    requires Apart(Flat(ts), at, |x|) && Flat(ts)[at..at + |x|] == x && IsWord(x, words, fold)
    requires !Struck(lex, ts, at, |x|)
    ensures i < |shown| && WordMatch(shown, i, words, fold) > 0 && Width(ts, 0, i) == at
  {
    WordIsPlain(x, words, fold);
    i := WordIsShown(lex, ts, shown, at, x);
    ShownWord(words, fold, shown, i, x);
  }

  /** A pass over the words cuts every one that stands apart, unless a cut overlaps it. */
  lemma PassStrikes(lex: iset<string>, words: seq<string>, fold: bool, ts: seq<Token>, shown: string, at: nat,
                    x: string)
    requires NeatLexicon(lex)
    requires Cuts(Words(words, fold)) && TakesWords(lex, Words(words, fold)) && PlainWords(words)
    requires Solid(ts) && OnlyWords(lex, ts) && Shows(ts, shown)
    requires Apart(Flat(ts), at, |x|) && Flat(ts)[at..at + |x|] == x && IsWord(x, words, fold)
    ensures Struck(lex, Retoken(Words(words, fold), shown, ts, 0), at, |x|)
  {
    assert ts[0..] == ts;
    if Struck(lex, ts, at, |x|) {
      StaysStruck(lex, Words(words, fold), shown, ts, 0, at, |x|);
    } else {
      WordIsPlain(x, words, fold);
      var i := WordIsMatched(lex, words, fold, ts, shown, at, x);
      MatchIsStruck(lex, Words(words, fold), shown, ts, 0, i, |x|);
    }
  }

  // ------------------------------------------------------------------ tiling

  /** The pieces with the separators between them. */
  ghost function Weave(parts: seq<string>, seps: seq<string>): string
    requires |parts| == |seps| + 1
  {
    parts[0] + if seps == [] then [] else seps[0] + Weave(parts[1..], seps[1..])
  }

  /** What the tokens were cut at. */
  ghost function SepsOf(ts: seq<Token>): seq<string> {
    if ts == [] then [] else if ts[0].Break? then [ts[0].text] + SepsOf(ts[1..]) else SepsOf(ts[1..])
  }

  lemma {:induction false} SplitTiles(ts: seq<Token>, s: string)
    requires Solid(ts) && Shows(ts, s)
    ensures |Split(s)| == |SepsOf(ts)| + 1 && Filled(SepsOf(ts))
    ensures Weave(Split(s), SepsOf(ts)) == Flat(ts)
  {
    if ts != [] {
      SplitTiles(ts[1..], s[1..]);
      var parts, rest := Split(s[1..]), SepsOf(ts[1..]);
      assert Sturdy(ts[0]);
      if ts[0].Letter? {
        WeaveLetter(s[0], parts, rest);
      } else {
        WeaveBreak(ts[0].text, parts, rest);
      }
    }
  }

  lemma WeaveLetter(c: char, parts: seq<string>, seps: seq<string>)
    requires |parts| == |seps| + 1
    ensures Weave([[c] + parts[0]] + parts[1..], seps) == [c] + Weave(parts, seps)
  {
    var joined := [[c] + parts[0]] + parts[1..];
    assert joined[1..] == parts[1..];
    if seps == [] {
      Regroup([c], parts[0], []);
    } else {
      Regroup([c], parts[0], seps[0] + Weave(parts[1..], seps[1..]));
    }
  }

  lemma WeaveBreak(x: string, parts: seq<string>, seps: seq<string>)
    requires |parts| == |seps| + 1
    ensures Weave([[]] + parts, [x] + seps) == x + Weave(parts, seps)
  {
    assert ([[]] + parts)[1..] == parts && ([x] + seps)[1..] == seps;
  }

  // --------------------------------------------------- cuts in the text

  /** Where part `k` starts in the text. */
  ghost function Offset(parts: seq<string>, seps: seq<string>, k: nat): nat
    requires |parts| == |seps| + 1 && k < |parts|
  {
    if k == 0 then 0 else |parts[0]| + |seps[0]| + Offset(parts[1..], seps[1..], k - 1)
  }

  /** Where separator `k` starts in the text. */
  ghost function CutStart(parts: seq<string>, seps: seq<string>, k: nat): nat
    requires |parts| == |seps| + 1 && k < |seps|
  {
    Offset(parts, seps, k) + |parts[k]|
  }

  ghost predicate Opens(parts: seq<string>, seps: seq<string>)
    requires |parts| == |seps| + 1
  {
    if parts[0] != [] then IsSpace(parts[0][0]) else seps == [] || (seps[0] != [] && IsSpace(seps[0][0]))
  }

  ghost predicate Closes(left: bool, part: string) {
    if part == [] then left else IsSpace(part[|part| - 1])
  }

  /** `Framed`, said of the parts and separators. */
  ghost predicate SepsFramed(lex: iset<string>, left: bool, parts: seq<string>, seps: seq<string>)
    requires |parts| == |seps| + 1
    decreases |seps|
  {
    seps == [] ||
    ((seps[0] in lex ==> Closes(left, parts[0]) && Opens(parts[1..], seps[1..]))
      && SepsFramed(lex, Closes(false, seps[0]), parts[1..], seps[1..]))
  }

  lemma {:induction false} TokensOpen(ts: seq<Token>, s: string)
    requires Solid(ts) && Shows(ts, s) && |Split(s)| == |SepsOf(ts)| + 1 && (ts == [] || IsSpace(First(ts[0])))
    ensures Opens(Split(s), SepsOf(ts))
  {
    if ts != [] {
      assert Sturdy(ts[0]);
      }
  }

  lemma {:induction false} SepsAreFramed(lex: iset<string>, ts: seq<Token>, s: string, left: bool)
    requires Solid(ts) && Shows(ts, s) && Framed(lex, left, ts) && |Split(s)| == |SepsOf(ts)| + 1
    ensures SepsFramed(lex, left, Split(s), SepsOf(ts))
    decreases |ts|
  {
    if ts != [] {
      var later, rest := ts[1..], s[1..];
      SplitTiles(later, rest);
      assert Sturdy(ts[0]) && FramedAt(lex, left, ts, 0);
      FramedRest(lex, left, ts);
      SepsAreFramed(lex, later, rest, IsSpace(Last(ts[0])));
      if ts[0].Letter? {
        FramedLetter(lex, left, s[0], Split(rest), SepsOf(later));
      } else {
        assert later != [] ==> later[0] == ts[1];
        if IsListed(lex, ts[0]) {
          TokensOpen(later, rest);
        }
        FramedBreak(lex, left, ts[0].text, Split(rest), SepsOf(later));
      }
    }
  }

  lemma FramedLetter(lex: iset<string>, left: bool, c: char, parts: seq<string>, seps: seq<string>)
    requires |parts| == |seps| + 1 && SepsFramed(lex, IsSpace(c), parts, seps)
    ensures SepsFramed(lex, left, [[c] + parts[0]] + parts[1..], seps)
  {
    assert ([[c] + parts[0]] + parts[1..])[1..] == parts[1..];
  }

  lemma FramedBreak(lex: iset<string>, left: bool, x: string, parts: seq<string>, seps: seq<string>)
    requires |parts| == |seps| + 1 && x != [] && SepsFramed(lex, IsSpace(x[|x| - 1]), parts, seps)
    requires x in lex ==> left && Opens(parts, seps)
    ensures SepsFramed(lex, left, [[]] + parts, [x] + seps)
  {
    assert ([[]] + parts)[1..] == parts && ([x] + seps)[1..] == seps;
  }

  /** White space or an end of the text on both sides; `left` says so of what stands before it. */
  ghost predicate ApartAfter(left: bool, text: string, at: nat, n: nat) {
    && at + n <= |text|
    && (if at == 0 then left else IsSpace(text[at - 1]))
    && (at + n == |text| || IsSpace(text[at + n]))
  }

  /** Separator `k` stands at its place, and apart if it is a listed word. */
  ghost predicate StandsApart(lex: iset<string>, left: bool, parts: seq<string>, seps: seq<string>, k: nat)
    requires |parts| == |seps| + 1 && k < |seps|
  {
    var text, at, n := Weave(parts, seps), CutStart(parts, seps, k), |seps[k]|;
    && at + n <= |text| && text[at..at + n] == seps[k]
    && (seps[k] in lex ==> ApartAfter(left, text, at, n))
  }

  lemma FirstStandsApart(lex: iset<string>, left: bool, parts: seq<string>, seps: seq<string>)
    requires |parts| == |seps| + 1 && seps != [] && Filled(seps) && SepsFramed(lex, left, parts, seps)
    ensures StandsApart(lex, left, parts, seps, 0)
  {
    var part, sep, rest := parts[0], seps[0], Weave(parts[1..], seps[1..]);
    FirstCut(part, sep, rest);
    if sep in lex {
      assert Filled(seps[1..]);
      WeaveOpens(parts[1..], seps[1..]);
      FirstApart(left, part, sep, rest);
    }
  }

  lemma LaterStandsApart(lex: iset<string>, left: bool, parts: seq<string>, seps: seq<string>, k: nat)
    requires |parts| == |seps| + 1 && Filled(seps) && k + 1 < |seps|
    requires StandsApart(lex, Closes(false, seps[0]), parts[1..], seps[1..], k)
    ensures StandsApart(lex, left, parts, seps, k + 1)
  {
    LaterCut(parts[0], seps[0], Weave(parts[1..], seps[1..]), CutStart(parts[1..], seps[1..], k), |seps[k + 1]|);
  }

  /** Then a listed word among the separators stands apart in the text. */
  lemma {:induction false} CutStandsApart(lex: iset<string>, left: bool, parts: seq<string>, seps: seq<string>, k: nat)
    requires |parts| == |seps| + 1 && Filled(seps) && SepsFramed(lex, left, parts, seps) && k < |seps|
    ensures StandsApart(lex, left, parts, seps, k)
    decreases k
  {
    if k == 0 {
      FirstStandsApart(lex, left, parts, seps);
    } else {
      assert Filled(seps[1..]);
      CutStandsApart(lex, Closes(false, seps[0]), parts[1..], seps[1..], k - 1);
      LaterStandsApart(lex, left, parts, seps, k - 1);
    }
  }

  lemma WeaveOpens(parts: seq<string>, seps: seq<string>)
    requires |parts| == |seps| + 1 && Filled(seps)
    ensures Opens(parts, seps) ==> Weave(parts, seps) == [] || IsSpace(Weave(parts, seps)[0])
  {
  }

  lemma FirstCut(part: string, sep: string, rest: string)
    ensures (part + (sep + rest))[|part|..|part| + |sep|] == sep
  {
  }

  lemma FirstApart(left: bool, part: string, sep: string, rest: string)
    requires Closes(left, part) && (rest == [] || IsSpace(rest[0]))
    ensures ApartAfter(left, part + (sep + rest), |part|, |sep|)
  {
    var text := part + (sep + rest);
    assert part != [] ==> text[|part| - 1] == part[|part| - 1];
    assert rest != [] ==> text[|part| + |sep|] == rest[0];
  }

  lemma LaterCut(part: string, sep: string, rest: string, at: nat, n: nat)
    requires sep != [] && at + n <= |rest|
    ensures var text, from := part + (sep + rest), |part| + |sep| + at;
      && text[from..from + n] == rest[at..at + n]
      && text[from - 1] == (if at == 0 then sep[|sep| - 1] else rest[at - 1])
      && (from + n == |text| <==> at + n == |rest|) && (at + n < |rest| ==> text[from + n] == rest[at + n])
  {
  }

  predicate Overlaps(from: int, length: nat, at: int, n: nat) {
    from < at + n && at < from + length
  }

  /** A separator that is a listed word overlaps the `n` characters at `at`. */
  ghost predicate CutOver(lex: iset<string>, parts: seq<string>, seps: seq<string>, at: int, n: nat, k: nat)
    requires |parts| == |seps| + 1
  {
    k < |seps| && seps[k] in lex && Overlaps(CutStart(parts, seps, k), |seps[k]|, at, n)
  }

  lemma CutNext(lex: iset<string>, t: Token, later: seq<Token>, s: string, at: int, n: nat, j: nat) returns (k: nat)
    requires s != [] && Sturdy(t) && s[0] == Sign(t) && |Split(s[1..])| == |SepsOf(later)| + 1
    requires CutOver(lex, Split(s[1..]), SepsOf(later), at - |Written(t)|, n, j)
    ensures |Split(s)| == |SepsOf([t] + later)| + 1 && CutOver(lex, Split(s), SepsOf([t] + later), at, n, k)
  {
    var m := at - |Written(t)|;
    assert ([t] + later)[1..] == later;
    if t.Letter? {
      k := j;
      CutPastLetter(lex, s[0], Split(s[1..]), SepsOf(later), j, m, n);
    } else {
      k := j + 1;
      CutPastBreak(lex, t.text, Split(s[1..]), SepsOf(later), j, m, n);
    }
  }

  lemma CutFirst(lex: iset<string>, t: Token, later: seq<Token>, s: string, at: int, n: nat)
    requires s != [] && s[0] == Sign(t) && IsListed(lex, t) && 0 < at + n && at < |Written(t)|
    requires |Split(s[1..])| == |SepsOf(later)| + 1
    ensures |Split(s)| == |SepsOf([t] + later)| + 1 && CutOver(lex, Split(s), SepsOf([t] + later), at, n, 0)
  {
    assert ([t] + later)[1..] == later;
    CutHere(lex, t.text, Split(s[1..]), SepsOf(later), at, n);
  }

  /** `Struck`, said of the parts and separators. */
  lemma {:induction false} StruckIsCut(lex: iset<string>, ts: seq<Token>, s: string, at: int, n: nat) returns (k: nat)
    requires Solid(ts) && Shows(ts, s) && |Split(s)| == |SepsOf(ts)| + 1 && Struck(lex, ts, at, n)
    ensures CutOver(lex, Split(s), SepsOf(ts), at, n, k)
    decreases |ts|
  {
    var t, later := ts[0], ts[1..];
    assert ts == [t] + later && Sturdy(t);
    SplitTiles(later, s[1..]);
    StruckCons(lex, t, later, at, n);
    if Struck(lex, later, at - |Written(t)|, n) {
      var j := StruckIsCut(lex, later, s[1..], at - |Written(t)|, n);
      k := CutNext(lex, t, later, s, at, n, j);
    } else {
      k := 0;
      CutFirst(lex, t, later, s, at, n);
    }
  }

  lemma CutHere(lex: iset<string>, x: string, parts: seq<string>, seps: seq<string>, at: int, n: nat)
    requires |parts| == |seps| + 1 && x in lex && 0 < at + n && at < |x|
    ensures CutOver(lex, [[]] + parts, [x] + seps, at, n, 0)
  {
  }

  lemma CutPastLetter(lex: iset<string>, c: char, parts: seq<string>, seps: seq<string>, k: nat, at: int, n: nat)
    requires |parts| == |seps| + 1 && CutOver(lex, parts, seps, at, n, k)
    ensures CutOver(lex, [[c] + parts[0]] + parts[1..], seps, at + 1, n, k)
  {
    LetterMovesCut(c, parts, seps, k);
  }

  lemma CutPastBreak(lex: iset<string>, x: string, parts: seq<string>, seps: seq<string>, k: nat, at: int, n: nat)
    requires |parts| == |seps| + 1 && CutOver(lex, parts, seps, at, n, k)
    ensures CutOver(lex, [[]] + parts, [x] + seps, at + |x|, n, k + 1)
  {
    BreakMovesCut(x, parts, seps, k);
  }

  lemma LetterMovesCut(c: char, parts: seq<string>, seps: seq<string>, k: nat)
    requires |parts| == |seps| + 1 && k < |seps|
    ensures CutStart([[c] + parts[0]] + parts[1..], seps, k) == 1 + CutStart(parts, seps, k)
  {
    assert ([[c] + parts[0]] + parts[1..])[1..] == parts[1..];
  }

  lemma BreakMovesCut(x: string, parts: seq<string>, seps: seq<string>, k: nat)
    requires |parts| == |seps| + 1 && k < |seps|
    ensures CutStart([[]] + parts, [x] + seps, k + 1) == |x| + CutStart(parts, seps, k)
  {
    assert ([[]] + parts)[1..] == parts && ([x] + seps)[1..] == seps;
  }
}
