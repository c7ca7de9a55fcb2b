/** A text of plain words between commas is cut at the commas alone, so that its candidates are
    its words: what `split_clauses` keeps and drops of such a text. */
module ClauseLists {
  import opened Sequences
  import opened Text
  import opened Clauses
  import opened ClauseMarks
  import opened ClauseSplit

  /** No separator word starts like this, and nothing is hidden in it. */
  ghost predicate Simple(x: string) {
    x != [] && forall k :: 0 <= k < |x| ==> 'x' <= x[k] <= 'z'
  }

  ghost predicate AllSimple(words: seq<string>) {
    forall k :: 0 <= k < |words| ==> Simple(words[k])
  }

  ghost function Commas(words: seq<string>): string
    requires words != []
  {
    if |words| == 1 then words[0] else words[0] + "," + Commas(words[1..])
  }

  ghost predicate Comma(c: char) {
    'x' <= c <= 'z' || c == ','
  }

  ghost predicate Listing(s: string) {
    s != [] && 'x' <= s[0] <= 'z' && forall k :: 0 <= k < |s| ==> Comma(s[k])
  }

  lemma {:induction false} CommasList(words: seq<string>)
    requires words != [] && AllSimple(words)
    ensures Listing(Commas(words)) && 'x' <= Commas(words)[|Commas(words)| - 1] <= 'z'
  {
    if |words| > 1 {
      CommasList(words[1..]);
    }
  }

  lemma {:induction false} ListingIsProtected(s: string, n: nat)
    requires Listing(s) && n <= |KEEP|
    ensures Protected(s, n) == s && Found(s, n) == []
  {
    if n > 0 {
      ListingIsProtected(s, n - 1);
      Phrases(n - 1);
      var c := KEEP[n - 1][0];
      assert c == ' ' || '\U{621}' <= c <= '\U{64A}';
      assert c !in s;
      ReplaceLaterQuiet(s, KEEP[n - 1], Hole(n - 1));
    }
  }

  /** No listed word starts with one of the letters, or with a comma. */
  ghost predicate OtherStart(words: seq<string>) {
    forall i :: 0 <= i < |words| ==> words[i] != [] && !Comma(words[i][0])
  }

  lemma {:induction false} NoWordInListing(s: string, k: nat, words: seq<string>, fold: bool)
    requires Listing(s) && k < |s| && OtherStart(words)
    ensures WordMatch(s, k, words, fold) == 0
  {
    if words != [] {
      assert s[k + 0] == s[k] && Comma(s[k]);
      NoWordInListing(s, k, words[1..], fold);
    }
  }

  lemma {:induction false} SubKeepsListing(s: string, k: nat, words: seq<string>, fold: bool)
    requires Listing(s) && k <= |s| && OtherStart(words)
    ensures Sub(Words(words, fold), s, k) == s[k..]
    decreases |s| - k
  {
    if k < |s| {
      NoWordInListing(s, k, words, fold);
      SubKeepsListing(s, k + 1, words, fold);
    }
  }

  lemma {:induction false} RunOnce(s: string, k: nat)
    requires k + 1 < |s| && s[k] == ',' && 'x' <= s[k + 1] <= 'z'
    ensures Run(s, k) == 1
  {
  }

  lemma SliceHead(s: string, k: nat, next: nat)
    requires k < next <= |s|
    ensures s[k..next] == [s[k]] + s[k + 1..next]
  {
  }

  lemma {:induction false} SubLetters(s: string, k: nat, next: nat)
    requires k <= next <= |s| && forall j :: k <= j < next ==> !IsPunctuation(s[j])
    ensures Sub(Punctuation, s, k) == s[k..next] + Sub(Punctuation, s, next)
    decreases next - k
  {
    if k < next {
      SubLetters(s, k + 1, next);
      SubLetter(s, k, s[k]);
      SliceHead(s, k, next);
      Regroup([s[k]], s[k + 1..next], Sub(Punctuation, s, next));
    }
  }

  /** A plain word at `k` goes through the last pass unchanged. */
  lemma SubWord(s: string, k: nat, x: string)
    requires Simple(x) && k + |x| <= |s| && s[k..k + |x|] == x
    ensures Sub(Punctuation, s, k) == x + Sub(Punctuation, s, k + |x|)
  {
    forall j | k <= j < k + |x| ensures !IsPunctuation(s[j]) {
      assert s[j] == x[j - k];
    }
    SubLetters(s, k, k + |x|);
  }

  lemma SubLetter(s: string, k: nat, c: char)
    requires k < |s| && s[k] == c && !IsPunctuation(c)
    ensures Sub(Punctuation, s, k) == [c] + Sub(Punctuation, s, k + 1)
  {
  }

  lemma {:induction false} SplitWord(x: string, rest: string)
    requires MARK !in x
    ensures Split(x) == [x] && Split(x + [MARK] + rest) == [x] + Split(rest)
  {
    if x == [] {
      assert (x + [MARK] + rest)[1..] == rest;
    } else {
      assert x[0] in x && forall c :: c in x[1..] ==> c in x;
      SplitWord(x[1..], rest);
      assert (x + [MARK] + rest)[1..] == x[1..] + [MARK] + rest;
      assert [x[0]] + x[1..] == x;
    }
  }

  lemma SimpleHasNoMark(x: string)
    requires Simple(x)
    ensures MARK !in x
  {
  }

  lemma LastWord(s: string, k: nat, x: string)
    requires Simple(x) && k + |x| == |s| && s[k..] == x
    ensures Split(Sub(Punctuation, s, k)) == [x]
  {
    assert s[k..k + |x|] == x;
    SubWord(s, k, x);
    assert x + [] == x;
    SimpleHasNoMark(x);
    SplitWord(x, []);
  }

  lemma CommaIsMarked(s: string, k: nat)
    requires k + 1 < |s| && s[k] == ',' && 'x' <= s[k + 1] <= 'z'
    ensures Sub(Punctuation, s, k) == [MARK] + Sub(Punctuation, s, k + 1)
  {
    RunOnce(s, k);
  }

  lemma FirstWord(s: string, k: nat, x: string)
    requires Simple(x) && k + |x| + 1 < |s| && s[k..k + |x|] == x
    requires s[k + |x|] == ',' && 'x' <= s[k + |x| + 1] <= 'z'
    ensures Split(Sub(Punctuation, s, k)) == [x] + Split(Sub(Punctuation, s, k + |x| + 1))
  {
    var rest := Sub(Punctuation, s, k + |x| + 1);
    SubWord(s, k, x);
    CommaIsMarked(s, k + |x|);
    Regroup(x, [MARK], rest);
    SimpleHasNoMark(x);
    SplitWord(x, rest);
  }

  lemma TailAt(s: string, k: nat, x: string, tail: string)
    requires k <= |s| && s[k..] == x + "," + tail && tail != []
    ensures k + |x| + 1 < |s| && s[k..k + |x|] == x && s[k + |x|] == ',' && s[k + |x| + 1] == tail[0]
    ensures s[k + |x| + 1..] == tail
  {
    var more := s[k..];
    assert |more| == |x| + 1 + |tail|;
    assert s[k + |x|] == more[|x|] && s[k + |x| + 1] == more[|x| + 1];
    assert s[k..k + |x|] == more[..|x|];
    assert s[k + |x| + 1..] == more[|x| + 1..];
  }

  ghost function Pieces(s: string, k: nat): seq<string>
    requires k <= |s|
  {
    Split(Sub(Punctuation, s, k))
  }

  lemma CommasStep(words: seq<string>, s: string, k: nat) returns (next: nat)
    requires |words| > 1 && AllSimple(words) && k <= |s| && s[k..] == Commas(words)
    ensures next <= |s| && s[next..] == Commas(words[1..])
    ensures Pieces(s, k) == [words[0]] + Pieces(s, next)
  {
    var x, tail := words[0], Commas(words[1..]);
    CommasList(words[1..]);
    next := WordTail(s, k, x, tail);
  }

  lemma WordTail(s: string, k: nat, x: string, tail: string) returns (next: nat)
    requires Simple(x) && Listing(tail) && k <= |s| && s[k..] == x + "," + tail
    ensures next <= |s| && s[next..] == tail && Pieces(s, k) == [x] + Pieces(s, next)
  {
    TailAt(s, k, x, tail);
    FirstWord(s, k, x);
    next := k + |x| + 1;
  }

  lemma {:induction false} CommasSplit(words: seq<string>, s: string, k: nat)
    requires words != [] && AllSimple(words) && k <= |s| && s[k..] == Commas(words)
    ensures Pieces(s, k) == words
    decreases |words|
  {
    if |words| == 1 {
      LastWord(s, k, words[0]);
      assert [words[0]] == words;
    } else {
      var next := CommasStep(words, s, k);
      CommasSplit(words[1..], s, next);
      assert [words[0]] + words[1..] == words;
    }
  }

  lemma OtherStarts()
    ensures OtherStart(CONTRAST) && OtherStart(SEQUENCE)
  {
  }

  lemma TwoPasses(s: string, contrast: seq<string>, sequence: seq<string>)
    requires Listing(s) && OtherStart(contrast) && OtherStart(sequence)
    ensures Sub(Words(sequence, false), Sub(Words(contrast, true), s, 0), 0) == s
  {
    SubKeepsListing(s, 0, contrast, true);
    SubKeepsListing(s, 0, sequence, false);
  }

  lemma MarkedListing(s: string)
    requires Listing(s)
    ensures Marked(s) == Sub(Punctuation, s, 0)
  {
    OtherStarts();
    TwoPasses(s, CONTRAST, SEQUENCE);
  }

  lemma ListingParts(raw: string)
    requires Listing(raw)
    ensures Parts(raw) == Pieces(raw, 0) && Found(raw, |KEEP|) == []
  {
    var n := |KEEP|;
    ListingIsProtected(raw, n);
    MarkedListing(raw);
  }

  lemma CommasAreParts(words: seq<string>, raw: string)
    requires words != [] && AllSimple(words)
    requires raw == Commas(words)
    ensures Parts(raw) == words && Found(raw, |KEEP|) == []
  {
    CommasList(words);
    ListingParts(raw);
    CommasSplit(words, raw, 0);
  }

  lemma CommasAreTrimmed(words: seq<string>, raw: string)
    requires words != [] && AllSimple(words) && raw == Commas(words)
    ensures Strip(raw) == raw && |raw| >= |words[0]|
  {
    CommasList(words);
    StripTrimmed(raw);
  }

  lemma SimpleStays(x: string)
    requires Simple(x)
    ensures Candidate(x, []) == x
  {
    StripTrimmed(x);
  }

  lemma AllStay(words: seq<string>, keys: seq<nat>)
    requires keys == [] && AllSimple(words)
    ensures Candidates(words, keys) == words
  {
    forall k | 0 <= k < |words| ensures Candidate(words[k], keys) == words[k] {
      SimpleStays(words[k]);
    }
  }

  lemma CandidatesFrom(raw: string, words: seq<string>)
    requires Parts(raw) == words && Found(raw, |KEEP|) == []
    requires AllSimple(words)
    ensures CandidatesOf(raw) == words
  {
    AllStay(words, []);
  }

  /** The candidates of such a text are its words. */
  lemma CommasAreCandidates(words: seq<string>, raw: string)
    requires words != [] && AllSimple(words)
    requires raw == Commas(words)
    ensures CandidatesOf(raw) == words
  {
    CommasAreParts(words, raw);
    CandidatesFrom(raw, words);
  }

  /** Words of `n` letters, of `n + 1` letters and so on. */
  ghost function Longer(n: nat, count: nat): (words: seq<string>)
    requires 1 <= n
    ensures |words| == count && forall k :: 0 <= k < count ==> |words[k]| == n + k && Simple(words[k])
  {
    seq(count, k requires 0 <= k < count => seq(n + k, _ => 'x'))
  }

  ghost predicate Takes(from: seq<nat>, k: nat) {
    exists j :: 0 <= j < |from| && from[j] == k
  }

  ghost predicate Rising(from: seq<nat>) {
    forall i, j :: 0 <= i < j < |from| ==> from[i] < from[j]
  }

  /** A rising sequence that takes the values 0 to `m - 1` starts with them. */
  lemma {:induction false} RisesFromZero(from: seq<nat>, m: nat)
    requires Rising(from) && forall k :: 0 <= k < m ==> Takes(from, k)
    ensures m <= |from| && forall k :: 0 <= k < m ==> from[k] == k
  {
    if m > 0 {
      RisesFromZero(from, m - 1);
      assert Takes(from, m - 1);
      var j :| 0 <= j < |from| && from[j] == m - 1;
      assert j >= m - 1;
      RisesAtLeast(from, j);
    }
  }

  lemma {:induction false} RisesAtLeast(from: seq<nat>, j: nat)
    requires Rising(from) && j < |from|
    ensures from[j] >= j
  {
    if j > 0 {
      RisesAtLeast(from, j - 1);
    }
  }

  /** Of distinct qualifying candidates exactly the first `maxClauses` are taken. */
  lemma FirstOnesTaken(cands: seq<string>, clauses: seq<string>, from: seq<nat>, maxClauses: nat, minLen: nat)
    requires Selection(clauses, from, cands, |cands|, maxClauses, minLen) && 1 <= maxClauses <= |cands|
    requires forall k :: 0 <= k < |cands| ==> Qualifies(cands[k], minLen)
    requires forall i, j :: 0 <= i < j < |cands| ==> cands[i] != cands[j]
    ensures clauses == cands[..maxClauses]
  {
    assert Rising(from);
    forall k | 0 <= k < maxClauses ensures Takes(from, k) {
      FirstTaken(cands, clauses, from, maxClauses, minLen, k);
    }
    RisesFromZero(from, maxClauses);
    if maxClauses == 1 {
      assert |from| <= 1;
    }
    assert |clauses| == maxClauses;
    assert forall j :: 0 <= j < |clauses| ==> clauses[j] == cands[from[j]] && from[j] == j;
  }

  lemma FirstTaken(cands: seq<string>, clauses: seq<string>, from: seq<nat>, maxClauses: nat, minLen: nat, k: nat)
    requires Selection(clauses, from, cands, |cands|, maxClauses, minLen) && k < maxClauses <= |cands|
    requires forall i :: 0 <= i < |cands| ==> Qualifies(cands[i], minLen)
    requires forall i, j :: 0 <= i < j < |cands| ==> cands[i] != cands[j]
    ensures Takes(from, k)
  {
    assert Qualifies(cands[k], minLen);
    assert Accounted(clauses, from, cands, k, maxClauses);
    if cands[k] in clauses {
      var j :| 0 <= j < |clauses| && clauses[j] == cands[k];
      assert clauses[j] == cands[from[j]];
    } else {
      assert Rising(from);
      RisesAtLeast(from, |from| - 1);
      assert false;
    }
  }

  /** Of words of growing length, one more than the limit, the longest is dropped. */
  lemma LongestComesLast(words: seq<string>, clauses: seq<string>, from: seq<nat>, maxClauses: nat, minLen: nat)
    requires 1 <= maxClauses && |words| == maxClauses + 1
    requires Selection(clauses, from, words, |words|, maxClauses, minLen)
    requires forall k :: 0 <= k < |words| ==> Qualifies(words[k], minLen)
    requires forall i, j :: 0 <= i < j < |words| ==> |words[i]| < |words[j]|
    ensures |clauses| == maxClauses && forall j :: 0 <= j < |clauses| ==> |clauses[j]| < |words[maxClauses]|
  {
    assert forall i, j :: 0 <= i < j < |words| ==> words[i] != words[j];
    FirstOnesTaken(words, clauses, from, maxClauses, minLen);
  }

  /** The longest pieces are not preferred: whatever the limit, there is a text whose longest
      piece is dropped for shorter ones. */
  lemma LongestIsDropped(maxClauses: nat, minLen: nat) returns (raw: string, longest: string)
    requires 1 <= maxClauses
    ensures Strip(raw) == raw && |raw| >= minLen && longest in CandidatesOf(raw) && Qualifies(longest, minLen)
    ensures forall clauses, from ::
      Selection(clauses, from, CandidatesOf(raw), |CandidatesOf(raw)|, maxClauses, minLen) ==>
      |clauses| == maxClauses && forall j :: 0 <= j < |clauses| ==> |clauses[j]| < |longest|
  {
    var words := Longer(minLen + 1, maxClauses + 1);
    raw, longest := Commas(words), words[maxClauses];
    CommasAreTrimmed(words, raw);
    CommasAreCandidates(words, raw);
    DroppedFrom(words, maxClauses, minLen);
  }

  lemma DroppedFrom(words: seq<string>, maxClauses: nat, minLen: nat)
    requires 1 <= maxClauses && |words| == maxClauses + 1
    requires forall k :: 0 <= k < |words| ==> Qualifies(words[k], minLen)
    requires forall i, j :: 0 <= i < j < |words| ==> |words[i]| < |words[j]|
    ensures forall clauses, from :: Selection(clauses, from, words, |words|, maxClauses, minLen) ==>
      |clauses| == maxClauses && forall j :: 0 <= j < |clauses| ==> |clauses[j]| < |words[maxClauses]|
  {
    forall clauses, from | Selection(clauses, from, words, |words|, maxClauses, minLen)
      ensures |clauses| == maxClauses && forall j :: 0 <= j < |clauses| ==> |clauses[j]| < |words[maxClauses]|
    {
      LongestComesLast(words, clauses, from, maxClauses, minLen);
    }
  }
}
