/** The three passes of `split_clauses` over the protected text: what they cut at, and that they
    only turn separators into marks. */
module ClauseMarks {
  import opened Sequences
  import opened Sets
  import opened Text
  import opened Clauses

  /** A regular expression of the source: one of some words between spaces, or a run of
      punctuation. */
  datatype Pattern = Words(words: seq<string>, fold: bool) | Punctuation

  predicate IsPunctuation(c: char) {
    || c == '،' || c == '؛' || c == ',' || c == ';' || c == '.' || c == '!' || c == '؟' || c == '?'
    || c == '\n' || c == '\r'
  }

  function Lower(c: char): char {
    if 'A' <= c <= 'Z' then c + 32 as char else c
  }

  /** `word` stands at `k`, with ASCII letters in either case when `fold` is set. */
  predicate WordAt(s: string, k: nat, word: string, fold: bool) {
    && k + |word| <= |s|
    && forall j :: 0 <= j < |word| ==> (if fold then Lower(s[k + j]) else s[k + j]) == word[j]
  }

  /** The word is delimited by white space or the ends of the text. */
  predicate Delimited(s: string, k: nat, n: nat)
    requires k + n <= |s|
  {
    (k == 0 || IsSpace(s[k - 1])) && (k + n == |s| || IsSpace(s[k + n]))
  }

  predicate Matches(s: string, k: nat, word: string, fold: bool) {
    word != [] && WordAt(s, k, word, fold) && Delimited(s, k, |word|)
  }

  /** The length of the first listed word found at `k`, or 0. */
  function WordMatch(s: string, k: nat, words: seq<string>, fold: bool): (n: nat)
    ensures n == 0 || k + n <= |s|
  {
    if words == [] then 0
    else if Matches(s, k, words[0], fold) then |words[0]|
    else WordMatch(s, k, words[1..], fold)
  }

  lemma {:induction false} WordFound(s: string, k: nat, words: seq<string>, fold: bool)
    ensures WordMatch(s, k, words, fold) == 0 <==> forall i :: 0 <= i < |words| ==> !Matches(s, k, words[i], fold)
    ensures WordMatch(s, k, words, fold) > 0 ==>
      exists i :: 0 <= i < |words| && |words[i]| == WordMatch(s, k, words, fold) && Matches(s, k, words[i], fold)
  {
    if words != [] && !Matches(s, k, words[0], fold) {
      WordFound(s, k, words[1..], fold);
      assert forall i :: 0 < i < |words| ==> words[i] == words[1..][i - 1];
    }
  }

  function Run(s: string, k: nat): (n: nat)
    requires k <= |s|
    ensures k + n <= |s|
    ensures forall j :: k <= j < k + n ==> IsPunctuation(s[j])
    ensures k + n < |s| ==> !IsPunctuation(s[k + n])
    decreases |s| - k
  {
    if k < |s| && IsPunctuation(s[k]) then 1 + Run(s, k + 1) else 0
  }

  /** The length of the match that starts at `k`, or 0. */
  function MatchAt(p: Pattern, s: string, k: nat): (n: nat)
    requires k <= |s|
    ensures k + n <= |s|
  {
    match p
    case Words(words, fold) => WordMatch(s, k, words, fold)
    case Punctuation => Run(s, k)
  }

  /** Where the scan goes on after position `k`. */
  function Next(p: Pattern, s: string, k: nat): (next: nat)
    requires k < |s|
    ensures k < next <= |s|
  {
    var n := MatchAt(p, s, k);
    if n > 0 then k + n else k + 1
  }

  /** `pattern.sub("\x01", s)`, from position `k` on. */
  function Sub(p: Pattern, s: string, k: nat): string
    requires k <= |s|
    decreases |s| - k
  {
    if k == |s| then []
    else [if MatchAt(p, s, k) > 0 then MARK else s[k]] + Sub(p, s, Next(p, s, k))
  }

  function Marked(s: string): string {
    Sub(Punctuation, Sub(Words(SEQUENCE, false), Sub(Words(CONTRAST, true), s, 0), 0), 0)
  }

  /** `s.split("\x01")`. */
  function Split(s: string): (parts: seq<string>)
    ensures parts != []
  {
    if s == [] then [[]]
    else
      var rest := Split(s[1..]);
      if s[0] == MARK then [[]] + rest else [[s[0]] + rest[0]] + rest[1..]
  }

  // ------------------------------------------------ what the marks stand for

  /** `x` is the word, of which ASCII letters may be capitals when `fold` is set. */
  ghost predicate Spells(x: string, word: string, fold: bool) {
    && |x| == |word|
    && forall j :: 0 <= j < |x| ==>
      x[j] == word[j] || (fold && 'a' <= word[j] <= 'z' && 'A' <= x[j] <= 'Z' && x[j] - 'A' == word[j] - 'a')
  }

  ghost predicate IsWord(x: string, words: seq<string>, fold: bool) {
    exists i :: 0 <= i < |words| && Spells(x, words[i], fold)
  }

  /** One of the words that the source lists. */
  ghost predicate Listed(x: string) {
    IsWord(x, CONTRAST, true) || IsWord(x, SEQUENCE, false)
  }

  /** What a text may be cut at. */
  ghost predicate Separator(x: string) {
    || x == [MARK]
    || Listed(x)
    || (x != [] && forall k :: 0 <= k < |x| ==> IsPunctuation(x[k]))
  }

  /** One character of a text under way: a letter, or the mark that replaced `text`. */
  datatype Token = Letter(c: char) | Break(text: string)

  ghost function Sign(t: Token): char {
    if t.Letter? then t.c else MARK
  }

  ghost function Written(t: Token): string {
    if t.Letter? then [t.c] else t.text
  }

  ghost function Flat(ts: seq<Token>): string {
    if ts == [] then [] else Written(ts[0]) + Flat(ts[1..])
  }

  ghost predicate Fits(t: Token) {
    if t.Letter? then t.c != MARK else Separator(t.text)
  }

  ghost predicate Lawful(ts: seq<Token>) {
    forall k :: 0 <= k < |ts| ==> Fits(ts[k])
  }

  ghost function TokenOf(c: char): (t: Token)
    ensures Fits(t) && Sign(t) == c && Written(t) == [c]
  {
    if c == MARK then Break([MARK]) else Letter(c)
  }

  ghost function Tokens(s: string): (ts: seq<Token>)
    ensures Lawful(ts) && Shows(ts, s)
  {
    seq(|s|, k requires 0 <= k < |s| => TokenOf(s[k]))
  }

  lemma TokensCons(s: string)
    requires s != []
    ensures Tokens(s) == [TokenOf(s[0])] + Tokens(s[1..]) && Written(TokenOf(s[0])) == [s[0]]
  {
  }

  lemma {:induction false} TokensAreText(s: string)
    ensures Flat(Tokens(s)) == s
  {
    if s != [] {
      TokensAreText(s[1..]);
      TokensCons(s);
      FlatCons(TokenOf(s[0]), Tokens(s[1..]));
    }
  }

  predicate IsCapital(c: char) {
    'A' <= c <= 'Z'
  }

  /** No character of the word is a NUL, a digit, a mark, a capital or punctuation, and it
      neither starts nor ends with white space. */
  predicate PlainWord(w: string) {
    && w != [] && !IsSpace(w[0]) && !IsSpace(w[|w| - 1])
    && forall j :: 0 <= j < |w| ==> Quiet(w[j]) && w[j] != MARK && !IsCapital(w[j]) && !IsPunctuation(w[j])
  }

  ghost predicate PlainWords(words: seq<string>) {
    forall i :: 0 <= i < |words| ==> PlainWord(words[i])
  }

  lemma ContrastIsPlain(i: nat)
    requires i < |CONTRAST|
    ensures PlainWord(CONTRAST[i])
  {
  }

  lemma SequenceIsPlain(i: nat)
    requires i < |SEQUENCE|
    ensures PlainWord(SEQUENCE[i])
  {
  }

  lemma WordsArePlain()
    ensures PlainWords(CONTRAST) && PlainWords(SEQUENCE)
  {
    forall i | 0 <= i < |CONTRAST| ensures PlainWord(CONTRAST[i]) {
      ContrastIsPlain(i);
    }
    forall i | 0 <= i < |SEQUENCE| ensures PlainWord(SEQUENCE[i]) {
      SequenceIsPlain(i);
    }
  }

  lemma WordIsPlain(x: string, words: seq<string>, fold: bool)
    requires IsWord(x, words, fold) && PlainWords(words)
    ensures x != [] && Plain(x) && MARK !in x && !IsSpace(x[0]) && !IsSpace(x[|x| - 1])
    ensures forall k :: 0 <= k < |x| ==> !IsPunctuation(x[k])
  {
    var i :| 0 <= i < |words| && Spells(x, words[i], fold);
    var word := words[i];
    forall k | 0 <= k < |x| ensures Quiet(x[k]) && x[k] != MARK && !IsPunctuation(x[k]) {
      assert word[k] in word && Quiet(word[k]);
    }
  }

  lemma ListedIsPlain(x: string)
    requires Listed(x)
    ensures x != [] && Plain(x) && MARK !in x && !IsSpace(x[0]) && !IsSpace(x[|x| - 1])
    ensures forall k :: 0 <= k < |x| ==> !IsPunctuation(x[k])
  {
    WordsArePlain();
    if IsWord(x, CONTRAST, true) {
      WordIsPlain(x, CONTRAST, true);
    } else {
      WordIsPlain(x, SEQUENCE, false);
    }
  }

  lemma SeparatorsArePlain(x: string)
    requires Separator(x)
    ensures x != [] && Plain(x)
  {
    if Listed(x) {
      ListedIsPlain(x);
    }
  }

  /** Reading a word at a place is reading a stretch of the text that spells it. */
  lemma WordAtSpells(s: string, k: nat, word: string, fold: bool)
    requires k + |word| <= |s| && forall j :: 0 <= j < |word| ==> !IsCapital(word[j])
    ensures WordAt(s, k, word, fold) <==> Spells(s[k..k + |word|], word, fold)
  {
    var x := s[k..k + |word|];
    assert forall j :: 0 <= j < |word| ==> x[j] == s[k + j];
  }

  lemma WordRead(s: string, k: nat, words: seq<string>, fold: bool, n: nat) returns (i: nat)
    requires 0 < n == WordMatch(s, k, words, fold) && PlainWords(words)
    ensures i < |words| && k + n <= |s| && Matches(s, k, words[i], fold) && n == |words[i]|
    ensures Spells(s[k..k + n], words[i], fold)
  {
    WordFound(s, k, words, fold);
    i :| 0 <= i < |words| && |words[i]| == n && Matches(s, k, words[i], fold);
    WordAtSpells(s, k, words[i], fold);
  }

  lemma WordMatchIsWord(s: string, k: nat, words: seq<string>, fold: bool)
    requires WordMatch(s, k, words, fold) > 0 && PlainWords(words)
    ensures var x := s[k..k + WordMatch(s, k, words, fold)]; IsWord(x, words, fold) && MARK !in x
  {
    var n := WordMatch(s, k, words, fold);
    var i := WordRead(s, k, words, fold, n);
    WordIsPlain(s[k..k + n], words, fold);
  }

  /** Every match of the pattern is a separator without marks in it. */
  ghost predicate Cuts(p: Pattern) {
    forall s: string, k: nat :: k <= |s| && MatchAt(p, s, k) > 0 ==>
      Separator(s[k..k + MatchAt(p, s, k)]) && MARK !in s[k..k + MatchAt(p, s, k)]
  }

  lemma WordsCut(words: seq<string>, fold: bool)
    requires PlainWords(words)
    requires forall x :: IsWord(x, words, fold) ==> Separator(x)
    ensures Cuts(Words(words, fold))
  {
    forall s: string, k: nat | k <= |s| && WordMatch(s, k, words, fold) > 0
      ensures Separator(s[k..k + WordMatch(s, k, words, fold)]) && MARK !in s[k..k + WordMatch(s, k, words, fold)]
    {
      WordMatchIsWord(s, k, words, fold);
    }
  }

  lemma PatternsCut()
    ensures Cuts(Words(CONTRAST, true)) && Cuts(Words(SEQUENCE, false)) && Cuts(Punctuation)
  {
    WordsArePlain();
    WordsCut(CONTRAST, true);
    WordsCut(SEQUENCE, false);
  }

  lemma FlatAt(ts: seq<Token>, k: nat)
    requires k < |ts|
    ensures Flat(ts[k..]) == Written(ts[k]) + Flat(ts[k + 1..])
  {
    var us := ts[k..];
    assert us[0] == ts[k] && us[1..] == ts[k + 1..];
  }

  lemma Snoc(s: string, k: nat, n: nat, rest: string, x: string, y: string)
    requires k + n <= |s| && n > 0 && x == s[k + 1..k + n] + rest && y == [s[k]] + x
    ensures y == s[k..k + n] + rest
  {
  }

  /** `s` shows the tokens. */
  ghost predicate Shows(ts: seq<Token>, s: string) {
    && |s| == |ts|
    && forall k :: 0 <= k < |s| ==> s[k] == Sign(ts[k])
  }

  lemma UnmarkedIsLetter(ts: seq<Token>, s: string, k: nat, n: nat)
    requires Shows(ts, s) && 0 < n && k + n <= |s| && MARK !in s[k..k + n]
    ensures ts[k] == Letter(s[k]) && MARK !in s[k + 1..k + n]
  {
    var x := s[k..k + n];
    assert x[0] in x && x[0] == s[k];
    assert forall c :: c in s[k + 1..k + n] ==> c in x;
  }

  lemma {:induction false} FlatSlice(ts: seq<Token>, s: string, k: nat, n: nat)
    requires Shows(ts, s) && k + n <= |s| && MARK !in s[k..k + n]
    ensures Flat(ts[k..]) == s[k..k + n] + Flat(ts[k + n..])
    decreases n
  {
    if n > 0 {
      UnmarkedIsLetter(ts, s, k, n);
      FlatSlice(ts, s, k + 1, n - 1);
      FlatAt(ts, k);
      Snoc(s, k, n, Flat(ts[k + n..]), Flat(ts[k + 1..]), Flat(ts[k..]));
    }
  }

  /** The token that a scan puts for what it reads at `k`. */
  ghost function Head(p: Pattern, s: string, ts: seq<Token>, k: nat): Token
    requires k < |s| == |ts|
  {
    if MatchAt(p, s, k) > 0 then Break(s[k..Next(p, s, k)]) else ts[k]
  }

  /** One pass on the tokens of `s`. */
  ghost function Retoken(p: Pattern, s: string, ts: seq<Token>, k: nat): seq<Token>
    requires k <= |s| == |ts|
    decreases |s| - k
  {
    if k == |s| then [] else [Head(p, s, ts, k)] + Retoken(p, s, ts, Next(p, s, k))
  }

  lemma CutAt(p: Pattern, s: string, k: nat)
    requires Cuts(p) && k < |s| && MatchAt(p, s, k) > 0
    ensures var x := s[k..Next(p, s, k)]; Separator(x) && MARK !in x
  {
    assert Next(p, s, k) == k + MatchAt(p, s, k);
  }

  lemma HeadIsRead(p: Pattern, s: string, ts: seq<Token>, k: nat)
    requires Cuts(p) && Shows(ts, s) && k < |s|
    ensures Flat(ts[k..]) == Written(Head(p, s, ts, k)) + Flat(ts[Next(p, s, k)..])
  {
    if MatchAt(p, s, k) > 0 {
      CutAt(p, s, k);
      MatchIsRead(s, ts, k, Next(p, s, k));
    } else {
      FlatAt(ts, k);
    }
  }

  lemma MatchIsRead(s: string, ts: seq<Token>, k: nat, next: nat)
    requires Shows(ts, s) && k <= next <= |s| && MARK !in s[k..next]
    ensures Flat(ts[k..]) == Written(Break(s[k..next])) + Flat(ts[next..])
  {
    var n: nat := next - k;
    assert k + n == next;
    FlatSlice(ts, s, k, n);
  }

  lemma HeadFits(p: Pattern, s: string, ts: seq<Token>, k: nat)
    requires Cuts(p) && Lawful(ts) && k < |s| == |ts|
    ensures Fits(Head(p, s, ts, k))
  {
    if MatchAt(p, s, k) > 0 {
      CutAt(p, s, k);
    }
  }

  lemma FlatCons(t: Token, rest: seq<Token>)
    ensures Flat([t] + rest) == Written(t) + Flat(rest)
  {
    assert ([t] + rest)[1..] == rest;
  }

  lemma {:induction false} RetokenIsRight(p: Pattern, s: string, ts: seq<Token>, k: nat)
    requires Cuts(p) && Lawful(ts) && Shows(ts, s) && k <= |s|
    ensures var us := Retoken(p, s, ts, k);
      Lawful(us) && Shows(us, Sub(p, s, k)) && Flat(us) == Flat(ts[k..])
    decreases |s| - k
  {
    if k < |s| {
      var rest := Retoken(p, s, ts, Next(p, s, k));
      RetokenIsRight(p, s, ts, Next(p, s, k));
      HeadIsRead(p, s, ts, k);
      HeadFits(p, s, ts, k);
      FlatCons(Head(p, s, ts, k), rest);
    }
  }

  /** Each pass only turns separators into marks. */
  lemma Pass(p: Pattern, s: string, ts: seq<Token>) returns (us: seq<Token>)
    requires Cuts(p) && Lawful(ts) && Shows(ts, s)
    ensures Lawful(us) && Shows(us, Sub(p, s, 0)) && Flat(us) == Flat(ts)
  {
    us := Retoken(p, s, ts, 0);
    assert ts[0..] == ts;
    RetokenIsRight(p, s, ts, 0);
  }
}
