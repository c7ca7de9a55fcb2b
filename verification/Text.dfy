/** The parts of Python's string library that the text transforms rest on. */
module Text {

  /** `str.isspace` of one character, which is also what `\s` matches. */
  predicate IsSpace(c: char) {
    || '\t' <= c <= '\r' || '\U{1C}' <= c <= ' ' || c == '\U{85}' || c == '\U{A0}' || c == '\U{1680}'
    || '\U{2000}' <= c <= '\U{200A}' || c == '\U{2028}' || c == '\U{2029}' || c == '\U{202F}'
    || c == '\U{205F}' || c == '\U{3000}'
  }

  predicate IsDigit(c: char) {
    '0' <= c <= '9'
  }

  function StripLeft(s: string): (r: string)
    ensures r == [] || !IsSpace(r[0])
  {
    if s != [] && IsSpace(s[0]) then StripLeft(s[1..]) else s
  }

  function StripRight(s: string): (r: string)
    ensures r == [] || !IsSpace(r[|r| - 1])
    ensures r <= s
  {
    if s != [] && IsSpace(s[|s| - 1]) then StripRight(s[..|s| - 1]) else s
  }

  /** `s.strip()`. */
  function Strip(s: string): string {
    StripRight(StripLeft(s))
  }

  ghost predicate Blank(s: string) {
    forall k :: 0 <= k < |s| ==> IsSpace(s[k])
  }

  ghost predicate Trimmed(s: string) {
    s != [] ==> !IsSpace(s[0]) && !IsSpace(s[|s| - 1])
  }

  lemma {:induction false} StripLeftSplits(s: string) returns (lead: string)
    ensures s == lead + StripLeft(s) && Blank(lead)
  {
    lead := [];
    if s != [] && IsSpace(s[0]) {
      var rest := StripLeftSplits(s[1..]);
      lead := [s[0]] + rest;
      assert s == [s[0]] + s[1..];
    }
  }

  lemma {:induction false} StripRightSplits(s: string) returns (trail: string)
    ensures s == StripRight(s) + trail && Blank(trail)
  {
    trail := [];
    if s != [] && IsSpace(s[|s| - 1]) {
      var rest := StripRightSplits(s[..|s| - 1]);
      trail := rest + [s[|s| - 1]];
      assert s == s[..|s| - 1] + [s[|s| - 1]];
    }
  }

  /** What is stripped is blank, and what stays neither starts nor ends with a space. */
  lemma StripSplits(s: string) returns (lead: string, trail: string)
    ensures s == lead + Strip(s) + trail && Blank(lead) && Blank(trail) && Trimmed(Strip(s))
  {
    lead := StripLeftSplits(s);
    trail := StripRightSplits(StripLeft(s));
    if Strip(s) != [] {
      assert Strip(s)[0] == StripLeft(s)[0];
    }
  }

  lemma {:induction false} StripLeftAll(lead: string, s: string)
    requires Blank(lead)
    ensures StripLeft(lead + s) == StripLeft(s)
  {
    if lead != [] {
      assert (lead + s)[0] == lead[0] && (lead + s)[1..] == lead[1..] + s;
      StripLeftAll(lead[1..], s);
    } else {
      assert lead + s == s;
    }
  }

  lemma {:induction false} StripRightAll(s: string, trail: string)
    requires Blank(trail)
    ensures StripRight(s + trail) == StripRight(s)
  {
    if trail != [] {
      var n := |trail| - 1;
      assert (s + trail)[..|s| + n] == s + trail[..n] && (s + trail)[|s| + n] == trail[n];
      StripRightAll(s, trail[..n]);
    } else {
      assert s + trail == s;
    }
  }

  /** `strip` gives the same answer whatever blanks stand around the text. */
  lemma StripIgnoresBlanks(lead: string, s: string, trail: string)
    requires Blank(lead) && Blank(trail)
    ensures Strip(lead + s + trail) == Strip(s)
  {
    assert lead + s + trail == lead + (s + trail);
    StripLeftAll(lead, s + trail);
    var more := StripLeftSplits(s);
    assert s + trail == more + (StripLeft(s) + trail);
    StripLeftAll(more, StripLeft(s) + trail);
    if StripLeft(s) == [] {
      assert StripLeft(s) + trail == trail + [];
      StripLeftAll(trail, []);
      StripRightAll([], []);
    } else {
      assert StripLeft(StripLeft(s) + trail) == StripLeft(s) + trail;
      StripRightAll(StripLeft(s), trail);
    }
  }

  lemma StripTrimmed(s: string)
    requires Trimmed(s)
    ensures Strip(s) == s
  {
  }
}
