/** The multi-pattern search of filter_engine.py: a trie built word by word, a scan that skips
    starts too deep inside a word, and the boundary test on what it finds. */
module TrieSearch {
  import opened Options
  import opened Sets

  const MAX_CLITIC: nat := 3
  const MAX_START: nat := 1000
  const MAX_DEPTH: nat := 60

  /** Particles that Arabic writes joined to the next word. */
  const CLITICS: seq<string> := ["و", "ف", "ب", "ل", "ك", "ال", "وال", "بال", "فال", "كال", "لل", "ولل"]

  predicate IsArabic(c: char) {
    '\U{621}' <= c <= '\U{64A}'
  }

  // -------------------------------------------------------- word boundaries

  ghost predicate AllArabic(s: string) {
    forall k :: 0 <= k < |s| ==> IsArabic(s[k])
  }

  /** The Arabic letters just before `start` are those from `j` on. */
  ghost predicate RunFrom(text: string, j: nat, start: nat)
    requires j <= start <= |text|
  {
    AllArabic(text[j..start]) && (j > 0 ==> !IsArabic(text[j - 1]))
  }

  /** Nothing or a clitic stands between `start` and what is not an Arabic letter. */
  ghost predicate Boundary(text: string, start: nat)
    requires start <= |text|
  {
    exists j: nat :: j <= start && RunFrom(text, j, start) && (j == start || text[j..start] in CLITICS)
  }

  lemma CliticsAreShort(s: string)
    requires s in CLITICS
    ensures |s| <= MAX_CLITIC
  {
  }

  lemma RunIsUnique(text: string, i: nat, j: nat, start: nat)
    requires i <= start <= |text| && j <= start && RunFrom(text, i, start) && RunFrom(text, j, start)
    ensures i == j
  {
    if i < j {
      ArabicAt(text, i, start, j - 1);
    } else if j < i {
      ArabicAt(text, j, start, i - 1);
    }
  }

  lemma ArabicAt(text: string, i: nat, start: nat, k: nat)
    requires i <= k < start <= |text| && AllArabic(text[i..start])
    ensures IsArabic(text[k])
  {
    var run := text[i..start];
    assert run[k - i] == text[k];
  }

  method ValidWordBoundary(text: string, start: nat) returns (ok: bool)
    requires start <= |text|
    ensures ok <==> Boundary(text, start)
  {
    var j: nat := start;
    while j > 0 && IsArabic(text[j - 1])
      invariant j <= start && AllArabic(text[j..start])
    {
      j := j - 1;
      assert text[j..start] == [text[j]] + text[j + 1..start];
    }
    assert RunFrom(text, j, start);
    ok := j == start || text[j..start] in CLITICS;
    if Boundary(text, start) {
      var i: nat :| i <= start && RunFrom(text, i, start) && (i == start || text[i..start] in CLITICS);
      RunIsUnique(text, i, j, start);
    }
  }

  /** At most as many Arabic letters stand before `start` as a clitic can have. */
  ghost predicate Shallow(text: string, start: nat)
    requires start <= |text|
  {
    start <= MAX_CLITIC || !AllArabic(text[start - MAX_CLITIC - 1..start])
  }

  /** Counts the Arabic letters before `start`, but not beyond one too many for a clitic. */
  method RunOfArabicBefore(text: string, start: nat) returns (count: nat)
    requires start <= |text|
    ensures count <= MAX_CLITIC + 1 && count <= start && AllArabic(text[start - count..start])
    ensures count <= MAX_CLITIC ==> RunFrom(text, start - count, start)
    ensures count <= MAX_CLITIC <==> Shallow(text, start)
  {
    var j: nat := start;
    count := 0;
    while j > 0 && IsArabic(text[j - 1])
      invariant j <= start && AllArabic(text[j..start]) && count == start - j <= MAX_CLITIC
    {
      j, count := j - 1, count + 1;
      assert text[j..start] == [text[j]] + text[j + 1..start];
      if count > MAX_CLITIC {
        return;
      }
    }
    if start > MAX_CLITIC && AllArabic(text[start - MAX_CLITIC - 1..start]) {
      ArabicAt(text, start - MAX_CLITIC - 1, start, j - 1);
    }
  }

  /** Skipping the starts too deep inside a word loses no word boundary. */
  lemma BoundaryIsShallow(text: string, start: nat)
    requires start <= |text| && Boundary(text, start)
    ensures Shallow(text, start)
  {
    var i: nat :| i <= start && RunFrom(text, i, start) && (i == start || text[i..start] in CLITICS);
    if i < start {
      CliticsAreShort(text[i..start]);
    }
    if start > MAX_CLITIC && AllArabic(text[start - MAX_CLITIC - 1..start]) {
      ArabicAt(text, start - MAX_CLITIC - 1, start, i - 1);
    }
  }

  // -------------------------------------------------------------- occurrences

  datatype Hit = Hit(word: string, weight: real, pos: nat)

  function WeightOf(weights: map<string, real>, word: string): real {
    if word in weights then weights[word] else 1.0
  }

  ghost predicate WordAt(words: set<string>, text: string, start: nat, n: nat) {
    start + n <= |text| && text[start..start + n] in words
  }

  /** The listed words of length up to `n` that stand at `start`, shortest first. */
  ghost function HitsAt(words: set<string>, weights: map<string, real>, text: string, start: nat, n: nat): seq<Hit> {
    if n == 0 then []
    else
      HitsAt(words, weights, text, start, n - 1)
      + if WordAt(words, text, start, n)
        then [Hit(text[start..start + n], WeightOf(weights, text[start..start + n]), start)]
        else []
  }

  /** Which starts a search admits: word boundaries, or those not too deep inside a word. */
  datatype Test = AtBoundary | AtShallow

  ghost predicate Admits(test: Test, text: string, start: nat) {
    start <= |text| && if test == AtBoundary then Boundary(text, start) else Shallow(text, start)
  }

  ghost function HitsFor(words: set<string>, weights: map<string, real>, text: string, start: nat,
                         depth: nat, test: Test): seq<Hit> {
    if Admits(test, text, start) then HitsAt(words, weights, text, start, depth) else []
  }

  /** Every listed word at every admitted start before `limit`, by start, then by length. */
  ghost function Hits(words: set<string>, weights: map<string, real>, text: string, limit: nat, depth: nat,
                      test: Test): seq<Hit> {
    if limit == 0 then []
    else
      var start: nat := limit - 1;
      Hits(words, weights, text, start, depth, test) + HitsFor(words, weights, text, start, depth, test)
  }

  function Limit(text: string): (limit: nat)
    ensures limit <= |text|
  {
    if |text| < MAX_START then |text| else MAX_START
  }

  /** The naive search: every start, every word, kept where the start is a word boundary. */
  ghost function Naive(words: set<string>, weights: map<string, real>, text: string): seq<Hit> {
    Hits(words, weights, text, Limit(text), MAX_DEPTH, AtBoundary)
  }

  ghost predicate Occurs(words: set<string>, weights: map<string, real>, text: string, h: Hit) {
    && h.word in words && 1 <= |h.word| && h.weight == (if h.word in weights then weights[h.word] else 1.0)
    && h.pos + |h.word| <= |text| && text[h.pos..h.pos + |h.word|] == h.word
  }

  ghost predicate Earlier(a: Hit, b: Hit) {
    a.pos < b.pos || (a.pos == b.pos && |a.word| < |b.word|)
  }

  ghost predicate InOrder(hits: seq<Hit>) {
    forall i, j :: 0 <= i < j < |hits| ==> Earlier(hits[i], hits[j])
  }

  lemma {:induction false} HitsAtAreOccurrences(words: set<string>, weights: map<string, real>, text: string,
                                        start: nat, n: nat)
    ensures forall h :: h in HitsAt(words, weights, text, start, n) <==>
      Occurs(words, weights, text, h) && h.pos == start && |h.word| <= n
    ensures InOrder(HitsAt(words, weights, text, start, n))
  {
    if n > 0 {
      HitsAtAreOccurrences(words, weights, text, start, n - 1);
    }
  }

  lemma {:induction false} HitsAreOccurrences(words: set<string>, weights: map<string, real>, text: string,
                                        limit: nat, depth: nat, test: Test)
    ensures forall h :: h in Hits(words, weights, text, limit, depth, test) <==>
      Occurs(words, weights, text, h) && |h.word| <= depth && h.pos < limit && Admits(test, text, h.pos)
    ensures InOrder(Hits(words, weights, text, limit, depth, test))
  {
    if limit > 0 {
      var start: nat := limit - 1;
      HitsAreOccurrences(words, weights, text, start, depth, test);
      HitsAtAreOccurrences(words, weights, text, start, depth);
    }
  }

  /** The naive list holds each occurrence at a word boundary once, by start, then by length. */
  lemma NaiveIsComplete(words: set<string>, weights: map<string, real>, text: string)
    ensures forall h :: h in Naive(words, weights, text) <==>
      Occurs(words, weights, text, h) && |h.word| <= MAX_DEPTH && h.pos < MAX_START && Boundary(text, h.pos)
    ensures InOrder(Naive(words, weights, text))
  {
    HitsAreOccurrences(words, weights, text, Limit(text), MAX_DEPTH, AtBoundary);
  }

  // --------------------------------------------------------------- the trie

  /** A node; its children are indices of other nodes. */
  datatype Node = Node(children: map<char, nat>, isEnd: bool, word: string, weight: real)

  const LEAF := Node(map[], false, "", 1.0)

  function Init(s: string): string
    requires s != []
  {
    s[..|s| - 1]
  }

  function Last(s: string): char
    requires s != []
  {
    s[|s| - 1]
  }

  /** `paths[k]` spells the way from the root to node `k`. */
  ghost predicate Shape(nodes: seq<Node>, paths: seq<string>) {
    && |nodes| == |paths| > 0 && paths[0] == []
    && (forall i, j :: 0 <= i < j < |paths| ==> paths[i] != paths[j])
    && (forall p :: p in paths && p != [] ==> Init(p) in paths)
    && forall k :: 0 <= k < |nodes| ==> ChildrenOk(nodes, paths, k)
  }

  /** The children of node `k` are the paths one letter longer. */
  ghost predicate ChildrenOk(nodes: seq<Node>, paths: seq<string>, k: nat)
    requires k < |nodes| == |paths|
  {
    && (forall ch :: ch in nodes[k].children ==>
      nodes[k].children[ch] < |nodes| && paths[nodes[k].children[ch]] == paths[k] + [ch])
    && forall ch :: paths[k] + [ch] in paths ==> ch in nodes[k].children
  }

  /** A node ends a word exactly when its path is one of the words entered. */
  ghost predicate Ends(nodes: seq<Node>, paths: seq<string>, words: set<string>, weights: map<string, real>)
    requires |nodes| == |paths|
  {
    forall k :: 0 <= k < |nodes| ==>
      && (nodes[k].isEnd <==> paths[k] in words && paths[k] != [])
      && (nodes[k].isEnd ==> nodes[k].word == paths[k] && nodes[k].weight == WeightOf(weights, paths[k]))
  }

  /** The way to every word is in the trie. */
  ghost predicate Spells(paths: seq<string>, words: set<string>) {
    forall w, n :: w in words && 0 <= n <= |w| ==> w[..n] in paths
  }

  ghost predicate TrieOk(nodes: seq<Node>, paths: seq<string>, words: set<string>, weights: map<string, real>) {
    Shape(nodes, paths) && Ends(nodes, paths, words, weights) && Spells(paths, words)
  }

  function WithChild(nodes: seq<Node>, k: nat, ch: char): seq<Node>
    requires k < |nodes|
  {
    nodes[k := nodes[k].(children := nodes[k].children[ch := |nodes|])] + [LEAF]
  }

  lemma NewPath(nodes: seq<Node>, paths: seq<string>, k: nat, ch: char)
    requires Shape(nodes, paths) && k < |nodes| && ch !in nodes[k].children
    ensures paths[k] + [ch] !in paths
    ensures forall c :: paths[k] + [ch] + [c] !in paths
  {
    assert ChildrenOk(nodes, paths, k);
    var p := paths[k] + [ch];
    forall c ensures p + [c] !in paths {
      assert Init(p + [c]) == p;
    }
  }

  lemma ChildKeepsChildren(nodes: seq<Node>, paths: seq<string>, k: nat, ch: char, i: nat)
    requires Shape(nodes, paths) && k < |nodes| && ch !in nodes[k].children && i <= |nodes|
    ensures ChildrenOk(WithChild(nodes, k, ch), paths + [paths[k] + [ch]], i)
  {
    NewPath(nodes, paths, k, ch);
    var p := paths[k] + [ch];
    var more := paths + [p];
    var now := WithChild(nodes, k, ch);
    if i < |nodes| {
      assert ChildrenOk(nodes, paths, i);
      forall c | more[i] + [c] in more ensures c in now[i].children {
        if more[i] + [c] == p {
          assert Init(p) == paths[k] && Last(p) == ch;
          assert Init(paths[i] + [c]) == paths[i];
          assert Last(paths[i] + [c]) == c;
          assert i == k;
        }
      }
    } else {
      forall c ensures p + [c] !in more {
        assert p + [c] != p by {
          assert |p + [c]| != |p|;
        }
      }
    }
  }

  lemma ChildKeepsShape(nodes: seq<Node>, paths: seq<string>, k: nat, ch: char)
    requires Shape(nodes, paths) && k < |nodes| && ch !in nodes[k].children
    ensures Shape(WithChild(nodes, k, ch), paths + [paths[k] + [ch]])
  {
    NewPath(nodes, paths, k, ch);
    var p := paths[k] + [ch];
    var more := paths + [p];
    forall i | 0 <= i < |more| ensures ChildrenOk(WithChild(nodes, k, ch), more, i) {
      ChildKeepsChildren(nodes, paths, k, ch, i);
    }
    assert Init(p) == paths[k];
    assert forall q :: q in more <==> q in paths || q == p;
  }

  /** A new path is not an old word, for the way to every old word is there already. */
  lemma NewPathIsNoWord(paths: seq<string>, words: set<string>, p: string)
    requires Spells(paths, words) && p !in paths
    ensures p !in words
  {
    assert p[..|p|] == p;
  }

  lemma ChildKeepsTrie(nodes: seq<Node>, paths: seq<string>, words: set<string>, weights: map<string, real>,
                       k: nat, ch: char)
    requires TrieOk(nodes, paths, words, weights) && k < |nodes| && ch !in nodes[k].children
    ensures TrieOk(WithChild(nodes, k, ch), paths + [paths[k] + [ch]], words, weights)
  {
    NewPath(nodes, paths, k, ch);
    NewPathIsNoWord(paths, words, paths[k] + [ch]);
    ChildKeepsShape(nodes, paths, k, ch);
  }

  lemma EndsWith(nodes: seq<Node>, paths: seq<string>, words: set<string>, weights: map<string, real>,
                 k: nat, word: string)
    requires Shape(nodes, paths) && Ends(nodes, paths, words, weights) && k < |nodes| && paths[k] == word != []
    ensures var now := nodes[k := nodes[k].(isEnd := true, word := word, weight := WeightOf(weights, word))];
      Shape(now, paths) && Ends(now, paths, words + {word}, weights)
  {
    var now := nodes[k := nodes[k].(isEnd := true, word := word, weight := WeightOf(weights, word))];
    forall i | 0 <= i < |now| ensures ChildrenOk(now, paths, i) {
      assert ChildrenOk(nodes, paths, i) && now[i].children == nodes[i].children;
    }
  }

  // ---------------------------------------------------------------- walking

  /** From the node of `p`, the letter `ch` leads on exactly when `p` with it is a path. */
  lemma StepDown(nodes: seq<Node>, paths: seq<string>, k: nat, ch: char)
    requires Shape(nodes, paths) && k < |nodes|
    ensures ch in nodes[k].children <==> paths[k] + [ch] in paths
    ensures ch in nodes[k].children ==>
      nodes[k].children[ch] < |nodes| && paths[nodes[k].children[ch]] == paths[k] + [ch]
  {
    assert ChildrenOk(nodes, paths, k);
  }

  /** Where the trie ends no longer word can follow. */
  lemma DeadEnd(paths: seq<string>, words: set<string>, text: string, start: nat, i: nat, n: nat)
    requires Spells(paths, words) && start <= i < start + n <= |text| && text[start..i + 1] !in paths
    ensures text[start..start + n] !in words
  {
    var w := text[start..start + n];
    assert w[..i + 1 - start] == text[start..i + 1];
  }

  /** Nothing longer than `n`, up to `most`, stands at `start`. */
  ghost predicate NoneLonger(words: set<string>, text: string, start: nat, n: nat, most: nat) {
    forall m: nat :: n < m <= most ==> !WordAt(words, text, start, m)
  }

  lemma {:induction false} HitsAtStop(words: set<string>, weights: map<string, real>, text: string,
                                      start: nat, n: nat, m: nat)
    requires n <= m && NoneLonger(words, text, start, n, m)
    ensures HitsAt(words, weights, text, start, m) == HitsAt(words, weights, text, start, n)
  {
    if n < m {
      HitsAtStop(words, weights, text, start, n, m - 1);
    }
  }

  /** One letter further: the child, and whether a word ends there. */
  lemma StepAlong(nodes: seq<Node>, paths: seq<string>, words: set<string>, weights: map<string, real>,
                  text: string, start: nat, i: nat, node: nat)
    requires TrieOk(nodes, paths, words, weights) && start <= i < |text| && node < |nodes|
    requires paths[node] == text[start..i]
    ensures text[i] in nodes[node].children <==> text[start..i + 1] in paths
    ensures text[i] in nodes[node].children ==>
      var next := nodes[node].children[text[i]];
      && next < |nodes| && paths[next] == text[start..i + 1]
      && HitsAt(words, weights, text, start, i + 1 - start) == HitsAt(words, weights, text, start, i - start)
           + if nodes[next].isEnd then [Hit(nodes[next].word, nodes[next].weight, start)] else []
  {
    assert text[start..i + 1] == text[start..i] + [text[i]];
    StepDown(nodes, paths, node, text[i]);
    HitsAtNext(words, weights, text, start, i - start, text[start..i + 1]);
  }

  /** Nothing is found beyond the end of the text or the longest word. */
  lemma NothingAfter(words: set<string>, text: string, start: nat, n: nat, most: nat, maxLen: nat)
    requires (forall w :: w in words ==> |w| <= maxLen) && (n >= most || n >= maxLen || start + n >= |text|)
    ensures NoneLonger(words, text, start, n, most)
  {
  }

  lemma HitsAtNext(words: set<string>, weights: map<string, real>, text: string, start: nat, n: nat, w: string)
    requires start + n < |text| && w == text[start..start + n + 1]
    ensures HitsAt(words, weights, text, start, n + 1)
         == HitsAt(words, weights, text, start, n) + if w in words then [Hit(w, WeightOf(weights, w), start)] else []
  {
  }

  lemma HitsNext(words: set<string>, weights: map<string, real>, text: string, start: nat, depth: nat, test: Test)
    ensures Hits(words, weights, text, start + 1, depth, test)
         == Hits(words, weights, text, start, depth, test) + HitsFor(words, weights, text, start, depth, test)
  {
  }

  class WeightedTrie {
    var nodes: seq<Node>
    var maxWordLen: nat
    const weights: map<string, real>
    /** The words entered and the way to each node. */
    ghost var words: set<string>
    ghost var paths: seq<string>

    ghost predicate Valid()
      reads this
    {
      && TrieOk(nodes, paths, words, weights)
      && (forall w :: w in words ==> w != [] && |w| <= maxWordLen)
    }

    constructor (words: set<string>, weights: map<string, real>)
      ensures Valid() && this.words == words - {[]} && this.weights == weights
    {
      this.weights := weights;
      nodes, paths, maxWordLen := [LEAF], [[]], 0;
      this.words := {};
      new;
      assert TrieOk(nodes, paths, {}, weights);
      var todo := words;
      while todo != {}
        invariant Valid() && todo <= words && this.words == words - todo - {[]}
        decreases todo
      {
        ghost var some := Pick(todo);
        var word :| word in todo;
        todo := todo - {word};
        if word != [] {
          Enter(word);
        }
      }
    }

    method Enter(word: string)
      requires Valid() && word != []
      modifies this
      ensures Valid() && words == old(words) + {word}
    {
      var node: nat := 0;
      for i := 0 to |word|
        invariant node < |nodes| && TrieOk(nodes, paths, words, weights)
        invariant paths[node] == word[..i]
        invariant forall n :: 0 <= n <= i ==> word[..n] in paths
        invariant words == old(words) && maxWordLen == old(maxWordLen)
      {
        assert word[..i + 1] == word[..i] + [word[i]];
        node := StepInto(node, word[i]);
      }
      assert word[..|word|] == word;
      EndsWith(nodes, paths, words, weights, node, word);
      nodes := nodes[node := nodes[node].(isEnd := true, word := word, weight := WeightOf(weights, word))];
      words := words + {word};
      maxWordLen := if |word| > maxWordLen then |word| else maxWordLen;
    }

    /** The child of `node` by the letter `ch`, made if there is none. */
    method StepInto(node: nat, ch: char) returns (next: nat)
      requires node < |nodes| && TrieOk(nodes, paths, words, weights)
      modifies this`nodes, this`paths
      ensures next < |nodes| && TrieOk(nodes, paths, words, weights)
      ensures old(paths) <= paths && paths[next] == paths[node] + [ch]
    {
      StepDown(nodes, paths, node, ch);
      if ch !in nodes[node].children {
        ghost var more := paths + [paths[node] + [ch]];
        ChildKeepsTrie(nodes, paths, words, weights, node, ch);
        nodes := WithChild(nodes, node, ch);
        paths := more;
      }
      StepDown(nodes, paths, node, ch);
      next := nodes[node].children[ch];
    }

    /** The words of length up to `most` that stand at `start`, found by walking down from
        the root. */
    method SearchAt(text: string, start: nat, most: nat) returns (found: seq<Hit>)
      requires Valid() && start < |text|
      ensures found == HitsAt(words, weights, text, start, most)
    {
      found := [];
      var depth := if maxWordLen + 1 < most then maxWordLen + 1 else most;
      var stop := if start + depth < |text| then start + depth else |text|;
      var node: nat := 0;
      for i := start to stop
        invariant node < |nodes| && paths[node] == text[start..i]
        invariant found == HitsAt(words, weights, text, start, i - start)
      {
        var ch := text[i];
        StepAlong(nodes, paths, words, weights, text, start, i, node);
        if ch !in nodes[node].children {
          NothingBelow(paths, words, text, start, i, most);
          HitsAtStop(words, weights, text, start, i - start, most);
          return;
        }
        node := nodes[node].children[ch];
        if nodes[node].isEnd {
          found := found + [Hit(nodes[node].word, nodes[node].weight, start)];
        }
      }
      NothingAfter(words, text, start, stop - start, most, maxWordLen);
      HitsAtStop(words, weights, text, start, stop - start, most);
    }

    method SearchFrom(text: string, start: nat, most: nat) returns (found: seq<Hit>)
      requires Valid() && start < |text|
      ensures found == HitsFor(words, weights, text, start, most, AtShallow)
    {
      found := [];
      var run := RunOfArabicBefore(text, start);
      if run <= MAX_CLITIC {
        found := SearchAt(text, start, most);
      }
    }

    /** The loop over the starts. */
    method Scan(text: string, limit: nat, most: nat) returns (hits: seq<Hit>)
      requires Valid() && limit <= |text|
      ensures hits == Hits(words, weights, text, limit, most, AtShallow)
    {
      hits := [];
      for start := 0 to limit
        invariant hits == Hits(words, weights, text, start, most, AtShallow)
      {
        var found := SearchFrom(text, start, most);
        HitsNext(words, weights, text, start, most, AtShallow);
        hits := hits + found;
      }
    }

    method SearchAll(text: string) returns (hits: seq<Hit>)
      requires Valid()
      ensures hits == Hits(words, weights, text, Limit(text), MAX_DEPTH, AtShallow)
    {
      hits := Scan(text, Limit(text), MAX_DEPTH);
    }
  }

  lemma NothingBelow(paths: seq<string>, words: set<string>, text: string, start: nat, i: nat, most: nat)
    requires Spells(paths, words) && start <= i < |text| && text[start..i + 1] !in paths
    ensures NoneLonger(words, text, start, i - start, most)
  {
    forall m: nat | i - start < m <= most ensures !WordAt(words, text, start, m) {
      if start + m <= |text| {
        DeadEnd(paths, words, text, start, i, m);
      }
    }
  }

  // ---------------------------------------------------------- what is valid

  /** The hits that start at a word boundary. */
  ghost function Valid(text: string, hits: seq<Hit>): seq<Hit> {
    if hits == [] then []
    else
      var n := |hits| - 1;
      Valid(text, hits[..n]) + if Admits(AtBoundary, text, hits[n].pos) then [hits[n]] else []
  }

  lemma {:induction false} ValidJoin(text: string, a: seq<Hit>, b: seq<Hit>)
    ensures Valid(text, a + b) == Valid(text, a) + Valid(text, b)
  {
    if b == [] {
      assert a + b == a;
    } else {
      var n := |b| - 1;
      assert (a + b)[..|a| + n] == a + b[..n];
      ValidJoin(text, a, b[..n]);
    }
  }

  lemma {:induction false} ValidAtOneStart(text: string, hits: seq<Hit>, start: nat)
    requires forall k :: 0 <= k < |hits| ==> hits[k].pos == start
    ensures Valid(text, hits) == if Admits(AtBoundary, text, start) then hits else []
  {
    if hits != [] {
      var n := |hits| - 1;
      ValidAtOneStart(text, hits[..n], start);
      assert hits == hits[..n] + [hits[n]];
      assert hits[..n] == hits[..n] + [];
    }
  }

  /** What the scan adds for one start, and what the naive search adds for it. */
  lemma PruneOne(words: set<string>, weights: map<string, real>, text: string, start: nat, depth: nat)
    requires start < |text|
    ensures Valid(text, HitsFor(words, weights, text, start, depth, AtShallow))
         == HitsFor(words, weights, text, start, depth, AtBoundary)
  {
    if Admits(AtShallow, text, start) {
      FoundAt(words, weights, text, start, depth);
      ValidAtOneStart(text, HitsAt(words, weights, text, start, depth), start);
    }
    if Boundary(text, start) {
      BoundaryIsShallow(text, start);
    }
  }

  lemma FoundAt(words: set<string>, weights: map<string, real>, text: string, start: nat, depth: nat)
    ensures forall k :: 0 <= k < |HitsAt(words, weights, text, start, depth)| ==>
      HitsAt(words, weights, text, start, depth)[k].pos == start
  {
    HitsAtAreOccurrences(words, weights, text, start, depth);
    var found := HitsAt(words, weights, text, start, depth);
    assert forall k :: 0 <= k < |found| ==> found[k] in found;
  }

  lemma {:induction false} PruningLosesNothing(words: set<string>, weights: map<string, real>, text: string,
                                        limit: nat, depth: nat)
    requires limit <= |text|
    ensures Valid(text, Hits(words, weights, text, limit, depth, AtShallow))
         == Hits(words, weights, text, limit, depth, AtBoundary)
  {
    if limit > 0 {
      var start: nat := limit - 1;
      PruningLosesNothing(words, weights, text, start, depth);
      PruneOne(words, weights, text, start, depth);
      HitsNext(words, weights, text, start, depth, AtShallow);
      HitsNext(words, weights, text, start, depth, AtBoundary);
      ValidJoin(text, Hits(words, weights, text, start, depth, AtShallow),
                HitsFor(words, weights, text, start, depth, AtShallow));
    }
  }

  /** The pruned search, filtered, is the naive one. */
  lemma PrunedIsNaive(words: set<string>, weights: map<string, real>, text: string)
    ensures Valid(text, Hits(words, weights, text, Limit(text), MAX_DEPTH, AtShallow)) == Naive(words, weights, text)
  {
    PruningLosesNothing(words, weights, text, Limit(text), MAX_DEPTH);
  }

  ghost predicate PositionsRise(hits: seq<Hit>) {
    forall i, j :: 0 <= i <= j < |hits| ==> hits[i].pos <= hits[j].pos
  }

  ghost predicate Inside(text: string, hits: seq<Hit>) {
    forall k :: 0 <= k < |hits| ==> hits[k].pos < |text|
  }

  lemma ScanIsInside(words: set<string>, weights: map<string, real>, text: string, limit: nat, depth: nat,
                     hits: seq<Hit>)
    requires hits == Hits(words, weights, text, limit, depth, AtShallow)
    ensures PositionsRise(hits) && Inside(text, hits)
  {
    HitsAreOccurrences(words, weights, text, limit, depth, AtShallow);
    forall k | 0 <= k < |hits| ensures hits[k].pos < |text| {
      assert hits[k] in hits;
    }
  }

  lemma ScanFacts(words: set<string>, weights: map<string, real>, text: string, limit: nat, depth: nat,
                  hits: seq<Hit>)
    requires limit <= |text| && hits == Hits(words, weights, text, limit, depth, AtShallow)
    ensures Valid(text, hits) == Hits(words, weights, text, limit, depth, AtBoundary)
    ensures PositionsRise(hits) && Inside(text, hits)
  {
    PruningLosesNothing(words, weights, text, limit, depth);
    ScanIsInside(words, weights, text, limit, depth, hits);
  }

  lemma ValidNext(text: string, hits: seq<Hit>, k: nat)
    requires k < |hits| && hits[k].pos < |text|
    ensures Valid(text, hits[..k + 1]) ==
      if Boundary(text, hits[k].pos) then Valid(text, hits[..k]) + [hits[k]]
      else Valid(text, hits[..k])
  {
    assert hits[..k + 1][..k] == hits[..k];
  }

  method SearchAllValid(trie: WeightedTrie, text: string) returns (valid: seq<Hit>)
    requires trie.Valid()
    ensures valid == Naive(trie.words, trie.weights, text)
  {
    var hits := trie.SearchAll(text);
    ScanFacts(trie.words, trie.weights, text, Limit(text), MAX_DEPTH, hits);
    valid := [];
    for k := 0 to |hits|
      invariant valid == Valid(text, hits[..k])
    {
      ValidNext(text, hits, k);
      var ok := ValidWordBoundary(text, hits[k].pos);
      if ok {
        valid := valid + [hits[k]];
      }
    }
    assert hits[..|hits|] == hits;
  }

  method SearchFirstValid(trie: WeightedTrie, text: string) returns (first: Option<Hit>)
    requires trie.Valid()
    ensures var all := Naive(trie.words, trie.weights, text);
      first == if all == [] then None else Some(all[0])
  {
    var hits := trie.SearchAll(text);
    ScanFacts(trie.words, trie.weights, text, Limit(text), MAX_DEPTH, hits);
    for k := 0 to |hits|
      invariant Valid(text, hits[..k]) == []
    {
      ValidNext(text, hits, k);
      var ok := ValidWordBoundary(text, hits[k].pos);
      if ok {
        FirstValid(text, hits, k);
        return Some(hits[k]);
      }
    }
    assert hits[..|hits|] == hits;
    return None;
  }

  lemma FirstValid(text: string, hits: seq<Hit>, k: nat)
    requires k < |hits| && Valid(text, hits[..k + 1]) == [hits[k]]
    ensures Valid(text, hits) != [] && Valid(text, hits)[0] == hits[k]
  {
    assert hits == hits[..k + 1] + hits[k + 1..];
    ValidJoin(text, hits[..k + 1], hits[k + 1..]);
  }

  // ------------------------------------------------------------ the best hit

  /** The first of the hits of greatest weight among those that come earliest in the text. */
  ghost predicate BestOf(hits: seq<Hit>, best: Option<Hit>, weightOf: string -> real) {
    match best
    case None => hits == []
    case Some(b) =>
      exists i :: 0 <= i < |hits| && Wins(hits, i, weightOf)
        && b == Hit(hits[i].word, weightOf(hits[i].word), hits[i].pos)
  }

  /** No hit beats hit `i`, and none before it ties. */
  ghost predicate Wins(hits: seq<Hit>, i: nat, weightOf: string -> real)
    requires i < |hits|
  {
    && (forall j :: 0 <= j < |hits| ==> !Beats(hits[j], hits[i], weightOf))
    && forall j :: 0 <= j < i ==> Beats(hits[i], hits[j], weightOf)
  }

  /** Heavier, or as heavy and earlier. */
  predicate Beats(a: Hit, b: Hit, weightOf: string -> real) {
    weightOf(a.word) > weightOf(b.word) || (weightOf(a.word) == weightOf(b.word) && a.pos < b.pos)
  }

  /** One more hit: the better of it and the best so far, the latter if they tie. */
  lemma BestStep(hits: seq<Hit>, best: Option<Hit>, h: Hit, weightOf: string -> real)
    requires BestOf(hits, best, weightOf)
    ensures BestOf(hits + [h],
      if best.None? || Beats(h, best.value, weightOf) then Some(Hit(h.word, weightOf(h.word), h.pos))
      else best, weightOf)
  {
    var more := hits + [h];
    if best.None? {
      assert Wins(more, 0, weightOf);
    } else {
      var i :| 0 <= i < |hits| && Wins(hits, i, weightOf)
        && best.value == Hit(hits[i].word, weightOf(hits[i].word), hits[i].pos);
      if Beats(h, best.value, weightOf) {
        assert more[|hits|] == h;
      } else {
        assert more[i] == hits[i];
      }
    }
  }

  ghost predicate SeenIn(seen: set<string>, hits: seq<Hit>) {
    forall w :: w in seen <==> exists k :: 0 <= k < |hits| && hits[k].word == w
  }

  function NextBest(best: Option<Hit>, seen: set<string>, h: Hit, weightOf: string -> real): Option<Hit> {
    if h.word !in seen && (best.None? || Beats(h, best.value, weightOf)) then Some(Hit(h.word, weightOf(h.word), h.pos))
      else best
  }

  lemma Consider(hits: seq<Hit>, best: Option<Hit>, seen: set<string>, h: Hit, weightOf: string -> real)
    requires BestOf(hits, best, weightOf) && SeenIn(seen, hits)
    requires forall i :: 0 <= i < |hits| ==> hits[i].pos <= h.pos
    ensures BestOf(hits + [h], NextBest(best, seen, h, weightOf), weightOf) && SeenIn(seen + {h.word}, hits + [h])
  {
    BestStep(hits, best, h, weightOf);
    SeenMore(seen, hits, h);
  }

  /** After the first `k` hits of a scan. */
  ghost predicate Weighed(text: string, hits: seq<Hit>, k: nat, best: Option<Hit>, seen: set<string>,
                          weightOf: string -> real)
    requires k <= |hits|
  {
    var valid := Valid(text, hits[..k]);
    SeenIn(seen, valid) && BestOf(valid, best, weightOf)
  }

  lemma {:induction false} ValidIsEarlier(text: string, hits: seq<Hit>, k: nat)
    requires PositionsRise(hits) && k < |hits|
    ensures forall i :: 0 <= i < |Valid(text, hits[..k])| ==> Valid(text, hits[..k])[i].pos <= hits[k].pos
  {
    if k > 0 {
      ValidIsEarlier(text, hits, k - 1);
      assert hits[..k][..k - 1] == hits[..k - 1];
      assert hits[k - 1].pos <= hits[k].pos;
    }
  }

  lemma WeighOne(text: string, hits: seq<Hit>, k: nat, best: Option<Hit>, seen: set<string>, weightOf: string -> real)
    requires PositionsRise(hits) && k < |hits| && hits[k].pos < |text| && Weighed(text, hits, k, best, seen, weightOf)
    ensures if Boundary(text, hits[k].pos)
      then Weighed(text, hits, k + 1, NextBest(best, seen, hits[k], weightOf), seen + {hits[k].word}, weightOf)
      else Weighed(text, hits, k + 1, best, seen, weightOf)
  {
    ValidNext(text, hits, k);
    if Boundary(text, hits[k].pos) {
      ValidIsEarlier(text, hits, k);
      Consider(Valid(text, hits[..k]), best, seen, hits[k], weightOf);
    }
  }

  method PickBest(text: string, hits: seq<Hit>, weightOf: string -> real) returns (best: Option<Hit>)
    requires PositionsRise(hits) && Inside(text, hits)
    ensures BestOf(Valid(text, hits), best, weightOf)
  {
    best := None;
    var seen: set<string> := {};
    for k := 0 to |hits|
      invariant Weighed(text, hits, k, best, seen, weightOf)
    {
      var h := hits[k];
      WeighOne(text, hits, k, best, seen, weightOf);
      var ok := ValidWordBoundary(text, h.pos);
      if ok {
        if h.word !in seen && (best.None? || Beats(h, best.value, weightOf)) {
          best := Some(Hit(h.word, weightOf(h.word), h.pos));
        }
        seen := seen + {h.word};
      }
    }
    assert hits[..|hits|] == hits;
  }

  /** The words already weighed are skipped, and still the result is the best of all the
      hits at word boundaries. */
  method SearchBest(trie: WeightedTrie, text: string, weightOf: string -> real) returns (best: Option<Hit>)
    requires trie.Valid()
    ensures var all := Naive(trie.words, trie.weights, text);
      if all == [] then best == None
      else best.Some? && Greatest(all, best.value, weightOf)
  {
    var hits := trie.SearchAll(text);
    ScanFacts(trie.words, trie.weights, text, Limit(text), MAX_DEPTH, hits);
    best := PickBest(text, hits, weightOf);
    BestIsGreatest(Naive(trie.words, trie.weights, text), best, weightOf);
  }

  /** One of the hits, weighed by its word: none is heavier, none as heavy comes earlier, and of
      those as heavy and as early it is the first listed. */
  ghost predicate Greatest(hits: seq<Hit>, b: Hit, weightOf: string -> real) {
    && b.weight == weightOf(b.word)
    && (forall h :: h in hits ==>
      weightOf(h.word) <= b.weight && (weightOf(h.word) == b.weight ==> b.pos <= h.pos))
    && exists i :: 0 <= i < |hits| && FirstLike(hits, b, weightOf, i)
  }

  ghost predicate FirstLike(hits: seq<Hit>, b: Hit, weightOf: string -> real, i: nat)
    requires i < |hits|
  {
    && hits[i].word == b.word && hits[i].pos == b.pos
    && forall j :: 0 <= j < i ==> !(weightOf(hits[j].word) == b.weight && hits[j].pos == b.pos)
  }

  lemma BestIsGreatest(hits: seq<Hit>, best: Option<Hit>, weightOf: string -> real)
    requires BestOf(hits, best, weightOf)
    ensures if hits == [] then best == None else best.Some? && Greatest(hits, best.value, weightOf)
  {
    if best.Some? {
      var i :| 0 <= i < |hits| && Wins(hits, i, weightOf)
        && best.value == Hit(hits[i].word, weightOf(hits[i].word), hits[i].pos);
      assert FirstLike(hits, best.value, weightOf, i);
      forall h | h in hits
        ensures weightOf(h.word) <= best.value.weight
        ensures weightOf(h.word) == best.value.weight ==> best.value.pos <= h.pos
      {
        var j :| 0 <= j < |hits| && hits[j] == h;
        assert !Beats(hits[j], hits[i], weightOf);
      }
    }
  }

  lemma SeenMore(seen: set<string>, hits: seq<Hit>, h: Hit)
    requires SeenIn(seen, hits)
    ensures SeenIn(seen + {h.word}, hits + [h])
  {
    var more := hits + [h];
    forall w ensures w in seen + {h.word} <==> exists k :: 0 <= k < |more| && more[k].word == w {
      if w == h.word {
        assert more[|hits|].word == w;
      }
      if exists k :: 0 <= k < |hits| && hits[k].word == w {
        var k :| 0 <= k < |hits| && hits[k].word == w;
        assert more[k].word == w;
      }
      if exists k :: 0 <= k < |more| && more[k].word == w {
        var k :| 0 <= k < |more| && more[k].word == w;
        assert k < |hits| ==> hits[k].word == w;
      }
    }
  }
}
