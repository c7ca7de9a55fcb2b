/** The link helpers of nav_resolver.py: which usernames and chat ids have t.me links, what
    the links are, how the check reads them, and how a chat's links are filled in, upgraded
    and finally passed through the check. */
module ChatLinks {
  import opened Options
  import opened Sequences
  import opened Text

  const HOST: string := "https://t.me/"
  const PRIVATE: string := "https://t.me/c/"
  const NO_LINK: string := "#"

  // ------------------------------------------------------------------ numbers

  function DigitOf(d: nat): char
    requires d < 10
  {
    '0' + d as char
  }

  /** `str(n)`. */
  function Decimal(n: nat): (s: string)
    ensures s != [] && IsDigits(s)
  {
    if n < 10 then [DigitOf(n)] else Decimal(n / 10) + [DigitOf(n % 10)]
  }

  function Str(n: int): string {
    if n < 0 then "-" + Decimal(-n) else Decimal(n)
  }

  predicate IsDigits(s: string) {
    s != [] && forall k :: 0 <= k < |s| ==> IsDigit(s[k])
  }

  /** `n` in exactly `k` digits. */
  function Padded(n: nat, k: nat): (s: string)
    ensures |s| == k && forall i :: 0 <= i < k ==> IsDigit(s[i])
  {
    if k == 0 then [] else Padded(n / 10, k - 1) + [DigitOf(n % 10)]
  }

  function Pow10(k: nat): (p: nat)
    ensures p >= 1
  {
    if k == 0 then 1 else 10 * Pow10(k - 1)
  }

  lemma Tens(a: nat, p: nat, r: nat)
    requires p >= 1 && r < 10 * p
    ensures (a * (10 * p) + r) / 10 == a * p + r / 10 && (a * (10 * p) + r) % 10 == r % 10 && r / 10 < p
  {
    var n := a * (10 * p) + r;
    assert n == 10 * (a * p) + r;
    var q := r / 10;
    assert n == 10 * (a * p + q) + r % 10;
  }

  /** A number with `k` more digits behind `a`. */
  lemma {:induction false} DecimalAppends(a: nat, r: nat, k: nat)
    requires a > 0 && r < Pow10(k)
    ensures Decimal(a * Pow10(k) + r) == Decimal(a) + Padded(r, k)
  {
    if k == 0 {
      assert Decimal(a) + [] == Decimal(a);
    } else {
      var p := Pow10(k - 1);
      Tens(a, p, r);
      assert a * (10 * p) + r >= 10 by {
        assert a * p >= 1;
      }
      DecimalAppends(a, r / 10, k - 1);
      assert Decimal(a) + (Padded(r / 10, k - 1) + [DigitOf(r % 10)])
        == Decimal(a) + Padded(r / 10, k - 1) + [DigitOf(r % 10)];
    }
  }

  // --------------------------------------------------------------- usernames

  function DropAts(s: string): string {
    if s != [] && s[0] == '@' then DropAts(s[1..]) else s
  }

  function CleanUsername(value: string): Option<string> {
    var clean := DropAts(Strip(value));
    if clean == [] then None else Some(clean)
  }

  predicate IsLetter(c: char) {
    'A' <= c <= 'Z' || 'a' <= c <= 'z'
  }

  predicate IsNameChar(c: char) {
    IsLetter(c) || IsDigit(c) || c == '_'
  }

  /** Five to 32 letters, digits and underscores, a letter first. */
  predicate IsName(s: string) {
    5 <= |s| <= 32 && IsLetter(s[0]) && forall k :: 0 <= k < |s| ==> IsNameChar(s[k])
  }

  predicate IsValidUsername(value: string) {
    CleanUsername(value).Some? && IsName(CleanUsername(value).value)
  }

  ghost predicate AllAts(s: string) {
    forall k :: 0 <= k < |s| ==> s[k] == '@'
  }

  ghost predicate Shape(s: string, lead: string, ats: string, core: string, trail: string) {
    s == lead + ats + core + trail && Blank(lead) && AllAts(ats) && IsName(core) && Blank(trail)
  }

  lemma {:induction false} DropAtsSplits(s: string) returns (ats: string)
    ensures s == ats + DropAts(s) && AllAts(ats)
  {
    ats := [];
    if s != [] && s[0] == '@' {
      var rest := DropAtsSplits(s[1..]);
      ats := ['@'] + rest;
      assert s == ['@'] + s[1..];
    }
  }

  lemma {:induction false} DropAtsAll(ats: string, rest: string)
    requires AllAts(ats) && (rest != [] ==> rest[0] != '@')
    ensures DropAts(ats + rest) == rest
  {
    if ats == [] {
      assert ats + rest == rest;
    } else {
      assert (ats + rest)[1..] == ats[1..] + rest;
      DropAtsAll(ats[1..], rest);
    }
  }

  lemma ShapeOf(s: string) returns (lead: string, ats: string, core: string, trail: string)
    requires IsValidUsername(s)
    ensures Shape(s, lead, ats, core, trail) && CleanUsername(s) == Some(core)
  {
    lead, trail := StripSplits(s);
    ats := DropAtsSplits(Strip(s));
    core := DropAts(Strip(s));
    assert lead + (ats + core) + trail == lead + ats + core + trail;
  }

  lemma CoreStands(lead: string, ats: string, core: string, trail: string)
    requires Blank(lead) && AllAts(ats) && IsName(core) && Blank(trail)
    ensures Strip(lead + ats + core + trail) == ats + core
  {
    var inner := ats + core;
    assert lead + ats + core + trail == lead + inner + trail;
    StripIgnoresBlanks(lead, inner, trail);
    assert IsNameChar(core[|core| - 1]) && inner[|inner| - 1] == core[|core| - 1];
    assert inner[0] == if ats == [] then core[0] else '@';
    StripTrimmed(inner);
  }

  lemma ShapeCleans(s: string, lead: string, ats: string, core: string, trail: string)
    requires Shape(s, lead, ats, core, trail)
    ensures IsValidUsername(s) && CleanUsername(s) == Some(core)
  {
    CoreStands(lead, ats, core, trail);
    DropAtsAll(ats, core);
  }

  lemma ShapeHasNoSlash(s: string, lead: string, ats: string, core: string, trail: string)
    requires Shape(s, lead, ats, core, trail)
    ensures '/' !in s && |s| >= 5
  {
    forall c | c in s ensures c != '/' {
      if c in core {
        assert IsNameChar(c);
      } else {
        assert c in lead || c in ats || c in trail;
      }
    }
  }

  lemma CoreIsStripped(s: string, lead: string, ats: string, core: string, trail: string)
    requires Shape(s, lead, ats, core, trail)
    ensures Strip(s) == ats + core && (Strip(s) == s <==> lead == [] && trail == [])
  {
    CoreStands(lead, ats, core, trail);
    assert |s| == |lead| + |ats + core| + |trail|;
    if lead == [] && trail == [] {
      assert s == ats + core;
    }
  }

  lemma DropFromShape(s: string, lead: string, ats: string, core: string, trail: string)
    requires Shape(s, lead, ats, core, trail)
    ensures DropAts(s) == if lead == [] then core + trail else s
  {
    if lead == [] {
      assert s == ats + (core + trail);
      DropAtsAll(ats, core + trail);
    } else {
      assert s[0] == lead[0];
    }
  }

  /** What is left of a valid username after the leading at signs is valid too; it is the
      name itself exactly when no white space surrounds the username. */
  lemma DroppedIsValid(s: string)
    requires IsValidUsername(s)
    ensures IsValidUsername(DropAts(s)) && '/' !in DropAts(s) && |DropAts(s)| >= 5
    ensures DropAts(s) == CleanUsername(s).value <==> Strip(s) == s
  {
    var lead, ats, core, trail := ShapeOf(s);
    DropFromShape(s, lead, ats, core, trail);
    CoreIsStripped(s, lead, ats, core, trail);
    if lead == [] {
      assert core + trail == [] + [] + core + trail;
      ShapeCleans(core + trail, [], [], core, trail);
      ShapeHasNoSlash(core + trail, [], [], core, trail);
    } else {
      ShapeHasNoSlash(s, lead, ats, core, trail);
      assert |s| > |core|;
    }
  }

  // ------------------------------------------------------- private chat ids

  /** The digits behind "-100", unless they are missing or a single zero. */
  function PrivateInner(chatId: int): Option<string> {
    var s := if chatId == 0 then "" else Str(chatId);
    if "-100" <= s && IsDigits(s[4..]) && s[4..] != "0" then Some(s[4..]) else None
  }

  lemma Hundred()
    ensures Decimal(100) == "100"
  {
    assert Decimal(1) == "1" && Decimal(10) == "10";
  }

  /** An id that writes 100 and then `k` digits. */
  lemma InnerOf(chatId: int, k: nat, r: nat)
    requires k >= 1 && r < Pow10(k) && -chatId == 100 * Pow10(k) + r
    ensures PrivateInner(chatId) == if k == 1 && r == 0 then None else Some(Padded(r, k))
  {
    Hundred();
    DecimalAppends(100, r, k);
    assert Str(chatId) == "-" + ("100" + Padded(r, k));
    Dashed(Str(chatId), Padded(r, k));
    PaddedZero(r, k);
  }

  lemma PaddedZero(r: nat, k: nat)
    requires k >= 1 && r < Pow10(k)
    ensures Padded(r, k) == "0" <==> k == 1 && r == 0
  {
    if k == 1 {
      assert Pow10(1) == 10 && Padded(r, 1) == [DigitOf(r)];
      assert DigitOf(r) == '0' <==> r == 0;
    }
  }

  /** The number that digits write. */
  function Value(s: string): nat
    requires AllDigits(s)
  {
    if s == [] then 0 else 10 * Value(s[..|s| - 1]) + DigitValue(s[|s| - 1])
  }

  predicate AllDigits(s: string) {
    forall k :: 0 <= k < |s| ==> IsDigit(s[k])
  }

  function DigitValue(c: char): (d: nat)
    requires IsDigit(c)
    ensures d < 10 && DigitOf(d) == c
  {
    (c - '0') as nat
  }

  lemma {:induction false} ValueOfDecimal(n: nat)
    ensures Value(Decimal(n)) == n
  {
    if n >= 10 {
      ValueOfDecimal(n / 10);
      assert Decimal(n)[..|Decimal(n)| - 1] == Decimal(n / 10);
    }
  }

  /** Digits write a number of as many digits, and padding it writes them again. */
  lemma {:induction false} ValuePads(s: string)
    requires AllDigits(s)
    ensures Value(s) < Pow10(|s|) && Padded(Value(s), |s|) == s
  {
    if s != [] {
      var front, d := s[..|s| - 1], DigitValue(s[|s| - 1]);
      ValuePads(front);
      assert Value(s) / 10 == Value(front) && Value(s) % 10 == d;
      assert s == front + [s[|s| - 1]];
    }
  }

  lemma TimesTen(a: nat, p: nat, v: nat, d: nat)
    ensures 10 * (a * p + v) + d == a * (10 * p) + (10 * v + d)
  {
  }

  lemma {:induction false} ValueJoins(a: string, b: string)
    requires AllDigits(a) && AllDigits(b)
    ensures Value(a + b) == Value(a) * Pow10(|b|) + Value(b)
  {
    if b == [] {
      assert a + b == a;
    } else {
      var front, last := b[..|b| - 1], b[|b| - 1];
      ValueJoins(a, front);
      assert (a + b)[..|a + b| - 1] == a + front && (a + b)[|a + b| - 1] == last;
      TimesTen(Value(a), Pow10(|front|), Value(front), DigitValue(last));
    }
  }

  /** A negative id that writes 100 and then `k` digits. */
  predicate WritesHundred(chatId: int, k: nat) {
    100 * Pow10(k) <= -chatId < 101 * Pow10(k)
  }

  lemma Undashed(s: string, m: string)
    requires s == "-" + m && "-100" <= s
    ensures m == "100" + s[4..]
  {
    assert s == "-100" + s[4..];
    assert m == s[1..];
  }

  lemma NotDashed(n: nat)
    ensures !("-100" <= Str(n))
  {
    assert IsDigit(Str(n)[0]);
  }

  /** What follows "-100" in an id. */
  lemma InnerDigits(chatId: int) returns (rest: string)
    requires PrivateInner(chatId).Some?
    ensures IsDigits(rest) && chatId < 0 && Decimal(-chatId) == "100" + rest
  {
    var s := Str(chatId);
    rest := s[4..];
    if chatId < 0 {
      Undashed(s, Decimal(-chatId));
    } else {
      NotDashed(chatId);
    }
  }

  lemma HundredAnd(m: nat, hundred: string, rest: string)
    requires hundred == Decimal(100) && AllDigits(rest) && Decimal(m) == hundred + rest
    ensures m == 100 * Pow10(|rest|) + Value(rest) && Value(rest) < Pow10(|rest|)
  {
    ValueOfDecimal(m);
    ValueOfDecimal(100);
    ValueJoins(hundred, rest);
    ValuePads(rest);
  }

  lemma InnerWrites(chatId: int) returns (k: nat)
    requires PrivateInner(chatId).Some?
    ensures k >= 1 && WritesHundred(chatId, k) && chatId != -1000
  {
    var rest := InnerDigits(chatId);
    k := |rest|;
    Hundred();
    HundredAnd(-chatId, Decimal(100), rest);
    if chatId == -1000 {
      assert Pow10(1) == 10;
      InnerOf(chatId, 1, 0);
    }
  }

  /** An id is taken for a supergroup's exactly when it is negative and writes 100 and then at
      least one digit, -1000 excepted. */
  lemma InnerIff(chatId: int)
    ensures PrivateInner(chatId).Some? <==> chatId != -1000 && exists k :: k >= 1 && WritesHundred(chatId, k)
  {
    if PrivateInner(chatId).Some? {
      var k := InnerWrites(chatId);
    }
    if chatId != -1000 && exists k :: k >= 1 && WritesHundred(chatId, k) {
      var k: nat :| k >= 1 && WritesHundred(chatId, k);
      assert Pow10(1) == 10;
      InnerOf(chatId, k, -chatId - 100 * Pow10(k));
    }
  }

  lemma Dashed(s: string, rest: string)
    requires s == "-" + ("100" + rest)
    ensures "-100" <= s && s[4..] == rest
  {
    assert s == "-100" + rest;
  }

  lemma {:induction false} PaddedIsDecimal(n: nat, k: nat)
    requires k >= 1 && n < Pow10(k) && (k > 1 ==> Pow10(k - 1) <= n)
    ensures Padded(n, k) == Decimal(n)
  {
    if k > 1 {
      if k > 2 {
        assert Pow10(k - 1) == 10 * Pow10(k - 2);
      }
      PaddedIsDecimal(n / 10, k - 1);
    } else {
      assert Padded(n, 1) == [] + [DigitOf(n % 10)];
    }
  }

  const BILLION: nat := 1000000000

  lemma {:induction false} Pow10Grows(j: nat, k: nat)
    requires j <= k
    ensures Pow10(j) <= Pow10(k)
  {
    if j < k {
      Pow10Grows(j, k - 1);
    }
  }

  lemma Pow10Values()
    ensures Pow10(1) == 10 && Pow10(2) == 100 && Pow10(3) == 1000 && Pow10(4) == 10000 && Pow10(5) == 100000
    ensures Pow10(6) == 1000000 && Pow10(7) == 10000000 && Pow10(8) == 100000000 && Pow10(9) == BILLION
    ensures Pow10(10) == 10 * BILLION && Pow10(11) == 100 * BILLION
  {
    assert Pow10(3) == 1000 && Pow10(6) == 1000000;
  }

  /** Of the supergroup and channel ids, -(10^12 + c), exactly those with `c` below 10^10 are
      taken for such, and a ten-digit `c` comes out as it is. */
  lemma SupergroupInner(c: nat)
    requires 1 <= c < 1000 * BILLION
    ensures PrivateInner(-(1000 * BILLION + c)).Some? <==> c < 10 * BILLION
    ensures BILLION <= c < 10 * BILLION ==> PrivateInner(-(1000 * BILLION + c)) == Some(Decimal(c))
  {
    Pow10Values();
    var chatId := -(1000 * BILLION + c);
    if c < 10 * BILLION {
      InnerOf(chatId, 10, c);
      if BILLION <= c {
        PaddedIsDecimal(c, 10);
      }
    } else if PrivateInner(chatId).Some? {
      var k := InnerWrites(chatId);
      Pow10Grows(if k <= 10 then k else 11, if k <= 10 then 10 else k);
    }
  }

  /** Basic groups have no links, but of their ids, which lie above -10^12, exactly those in
      nine ranges are taken for supergroups': from -1001 to -1009, -10000 to -10099 and so on. */
  lemma BasicGroupMistakenIff(chatId: int)
    requires -(1000 * BILLION) < chatId
    ensures PrivateInner(chatId).Some? <==> chatId != -1000 && exists k :: 1 <= k <= 9 && WritesHundred(chatId, k)
  {
    InnerIff(chatId);
    if PrivateInner(chatId).Some? {
      var k: nat :| k >= 1 && WritesHundred(chatId, k);
      Pow10Values();
      if k >= 10 {
        Pow10Grows(10, k);
      }
    }
  }

  lemma FiveHundred()
    ensures Decimal(500) == "500"
  {
    assert Decimal(5) == "5" && Decimal(50) == "50";
  }

  /** For one, group 100500 would get the link of supergroup 500. */
  lemma BasicGroupMistaken()
    ensures PrivateInner(-100500) == Some("500")
  {
    assert Pow10(1) == 10 && Pow10(2) == 100 && Pow10(3) == 1000;
    InnerOf(-100500, 3, 500);
    PaddedIsDecimal(500, 3);
    FiveHundred();
  }

  // ---------------------------------------------------------------- t.me URLs

  function TrimLeft(s: string): (r: string)
    ensures r == [] || r[0] != '/'
  {
    if s != [] && s[0] == '/' then TrimLeft(s[1..]) else s
  }

  function TrimRight(s: string): (r: string)
    ensures r == [] || r[|r| - 1] != '/'
  {
    if s != [] && s[|s| - 1] == '/' then TrimRight(s[..|s| - 1]) else s
  }

  /** `s.split("/")`. */
  function Split(s: string): (parts: seq<string>)
    ensures parts != []
  {
    if s == [] then [[]]
    else
      var rest := Split(s[1..]);
      if s[0] == '/' then [[]] + rest else [[s[0]] + rest[0]] + rest[1..]
  }

  predicate PartsOk(parts: seq<string>)
    requires parts != []
  {
    if parts[0] == "c" then
      && |parts| >= 2 && IsDigits(parts[1]) && parts[1] != "0"
      && (|parts| > 2 ==> IsDigits(parts[2]))
    else IsValidUsername(parts[0]) && (|parts| > 1 ==> IsDigits(parts[1]))
  }

  predicate PathOk(path: string) {
    var rest := TrimRight(TrimLeft(path));
    rest != [] && PartsOk(Split(rest))
  }

  predicate IsValidUrl(url: string) {
    HOST <= url && PathOk(url[|HOST|..])
  }

  lemma {:induction false} SplitNoSlash(s: string)
    requires '/' !in s
    ensures Split(s) == [s]
  {
    if s != [] {
      assert s[0] in s && forall c :: c in s[1..] ==> c in s;
      SplitNoSlash(s[1..]);
      assert [s[0]] + s[1..] == s;
    }
  }

  lemma {:induction false} SplitFirst(a: string, b: string)
    requires '/' !in a
    ensures Split(a + "/" + b) == [a] + Split(b)
  {
    var s := a + "/" + b;
    if a == [] {
      assert s[1..] == b && s[0] == '/';
    } else {
      assert a[0] in a && forall c :: c in a[1..] ==> c in a;
      assert s[1..] == a[1..] + "/" + b && s[0] == a[0];
      SplitFirst(a[1..], b);
      assert [a[0]] + a[1..] == a;
    }
  }

  lemma PathOf(rest: string)
    requires rest != [] && rest[0] != '/' && rest[|rest| - 1] != '/'
    ensures PathOk(rest) == PartsOk(Split(rest))
  {
    assert TrimLeft(rest) == rest && TrimRight(rest) == rest;
  }

  lemma UrlOf(rest: string)
    requires rest != [] && rest[0] != '/' && rest[|rest| - 1] != '/'
    ensures IsValidUrl(HOST + rest) == PartsOk(Split(rest))
  {
    PathOf(rest);
    assert (HOST + rest)[|HOST|..] == rest;
  }

  lemma StrHasNoSlash(n: int)
    ensures Str(n) != [] && '/' !in Str(n)
    ensures IsDigits(Str(n)) <==> n >= 0
  {
    if n < 0 {
      assert Str(n)[0] == '-';
    }
  }

  // ------------------------------------------------------------ built links

  datatype Links = Links(group: string, message: string)

  function BuildCanonicalLinks(chatId: int, messageId: int, username: Option<string>): Links {
    if username.Some? && IsValidUsername(username.value) then
      if messageId == 0 then Links(NO_LINK, NO_LINK)
      else
        var group := HOST + DropAts(username.value);
        Links(group, group + "/" + Str(messageId))
    else if PrivateInner(chatId).Some? && messageId != 0 then
      var group := PRIVATE + PrivateInner(chatId).value;
      Links(group, group + "/" + Str(messageId))
    else Links(NO_LINK, NO_LINK)
  }

  lemma PublicGroup(name: string)
    requires IsValidUsername(name) && '/' !in name && |name| >= 5
    ensures IsValidUrl(HOST + name)
  {
    assert name[0] in name && name[|name| - 1] in name;
    UrlOf(name);
    SplitNoSlash(name);
  }

  lemma TwoParts(a: string, b: string)
    requires '/' !in a && '/' !in b && a != [] && b != []
    ensures IsValidUrl(HOST + (a + "/" + b)) == PartsOk([a, b])
  {
    var rest := a + "/" + b;
    assert rest[0] in a && rest[|rest| - 1] == b[|b| - 1] && b[|b| - 1] in b;
    UrlOf(rest);
    SplitFirst(a, b);
    SplitNoSlash(b);
    assert [a] + [b] == [a, b];
  }

  lemma PublicMessage(name: string, messageId: int)
    requires IsValidUsername(name) && '/' !in name && |name| >= 5
    ensures IsValidUrl(HOST + name + "/" + Str(messageId)) <==> messageId >= 0
  {
    var id := Str(messageId);
    StrHasNoSlash(messageId);
    Regroup(HOST, name + "/", id);
    Regroup(HOST, name, "/");
    TwoParts(name, id);
  }

  /** A public link is not a private one: its path has no slash so early. */
  lemma PublicIsNotPrivate(name: string, more: string)
    requires '/' !in name && |name| >= 5
    ensures !(PRIVATE <= HOST + name + more)
  {
    assert name[1] in name;
    assert (HOST + name + more)[|HOST| + 1] == name[1] && PRIVATE[|HOST| + 1] == '/';
  }

  lemma PublicLinks(name: string, messageId: int)
    requires IsValidUsername(name) && '/' !in name && |name| >= 5
    ensures IsValidUrl(HOST + name) && !(PRIVATE <= HOST + name)
    ensures IsValidUrl(HOST + name + "/" + Str(messageId)) <==> messageId >= 0
    ensures !(PRIVATE <= HOST + name + "/" + Str(messageId))
  {
    PublicGroup(name);
    PublicMessage(name, messageId);
    PublicIsNotPrivate(name, []);
    assert HOST + name + [] == HOST + name;
    PublicIsNotPrivate(name, "/" + Str(messageId));
    assert HOST + name + ("/" + Str(messageId)) == HOST + name + "/" + Str(messageId);
  }

  lemma PrivateGroup(inner: string)
    requires IsDigits(inner) && inner != "0"
    ensures IsValidUrl(PRIVATE + inner)
  {
    assert PRIVATE + inner == HOST + ("c" + "/" + inner);
    TwoParts("c", inner);
  }

  lemma PrivateMessage(inner: string, messageId: int)
    requires IsDigits(inner) && inner != "0"
    ensures IsValidUrl(PRIVATE + inner + "/" + Str(messageId)) <==> messageId >= 0
  {
    var id := Str(messageId);
    StrHasNoSlash(messageId);
    assert id[|id| - 1] in id;
    var more := "c" + "/" + (inner + "/" + id);
    assert PRIVATE + inner + "/" + id == HOST + more;
    UrlOf(more);
    SplitFirst("c", inner + "/" + id);
    SplitFirst(inner, id);
    SplitNoSlash(id);
  }

  /** Every link built is one the check accepts, except that a message link needs a positive
      message id. */
  lemma BuiltLinksAreValid(chatId: int, messageId: int, username: Option<string>)
    ensures var links := BuildCanonicalLinks(chatId, messageId, username);
      && (links.group != NO_LINK ==> IsValidUrl(links.group))
      && (links.message != NO_LINK ==> (IsValidUrl(links.message) <==> messageId > 0))
      && (links.group == NO_LINK <==> links.message == NO_LINK)
      && (links.group == NO_LINK <==>
          messageId == 0 || !((username.Some? && IsValidUsername(username.value)) || PrivateInner(chatId).Some?))
  {
    assert |HOST| > |NO_LINK| && |PRIVATE| > |NO_LINK|;
    if messageId != 0 {
      if username.Some? && IsValidUsername(username.value) {
        DroppedIsValid(username.value);
        PublicLinks(DropAts(username.value), messageId);
      } else if PrivateInner(chatId).Some? {
        PrivateGroup(PrivateInner(chatId).value);
        PrivateMessage(PrivateInner(chatId).value, messageId);
      }
    }
  }

  /** The check accepts links that are not what they should be: white space around a valid
      username goes into the link.  It is kept out exactly when there is none. */
  lemma SpacesReachTheLink(chatId: int, messageId: int, username: string)
    requires IsValidUsername(username) && messageId > 0
    ensures var group := BuildCanonicalLinks(chatId, messageId, Some(username)).group;
      IsValidUrl(group) && (group == HOST + CleanUsername(username).value <==> Strip(username) == username)
  {
    BuiltLinksAreValid(chatId, messageId, Some(username));
    DroppedIsValid(username);
    var a, b := DropAts(username), CleanUsername(username).value;
    assert (HOST + a)[|HOST|..] == a && (HOST + b)[|HOST|..] == b;
  }

  // -------------------------------------------------------- filling them in

  /** What a link is worth to a reader: nothing, for members, for everybody. */
  function Rank(link: string): nat {
    if !IsValidUrl(link) then 0 else if PRIVATE <= link then 1 else 2
  }

  datatype Info = Info(group: string, message: string, username: Option<string>)

  /** A link that Telegram itself gave for the chat. */
  datatype Exported = PublicChat(name: string) | PrivateChat(inner: nat) {
    predicate Ok() {
      if PublicChat? then name != [] && '/' !in name else inner > 0
    }

    function Group(): string {
      if PublicChat? then HOST + name else PRIVATE + Decimal(inner)
    }
  }

  predicate Better(current: string, isPublic: bool) {
    current == NO_LINK || (isPublic && PRIVATE <= current)
  }

  predicate IsUpgrade(info: Info, e: Exported, messageId: int) {
    && IsValidUrl(e.Group())
    && (|| Better(info.group, e.PublicChat?)
        || (messageId != 0 && IsValidUrl(e.Group() + "/" + Str(messageId)) && Better(info.message, e.PublicChat?))
        || (e.PublicChat? && info.username.None?))
  }

  function Applied(info: Info, e: Exported, messageId: int): Info {
    var group := e.Group();
    if !IsValidUrl(group) then info
    else
      var message := if messageId != 0 then group + "/" + Str(messageId) else NO_LINK;
      Info(if Better(info.group, e.PublicChat?) then group else info.group,
           if IsValidUrl(message) && Better(info.message, e.PublicChat?) then message else info.message,
           if e.PublicChat? && info.username.None? then Some(e.name) else info.username)
  }

  function Tried(info: Info, exported: Option<Exported>, messageId: int): Info {
    if messageId <= 0 || exported.None? then info else Applied(info, exported.value, messageId)
  }

  /** `clean_username`, then `is_valid_username` on what is left, which cleans it once more:
      a name may be usable and still start with white space. */
  function Usable(raw: Option<string>): Option<string> {
    if raw.None? then None
    else
      var clean := CleanUsername(raw.value);
      if clean.Some? && IsValidUsername(clean.value) then clean else None
  }

  function FromName(chatId: int, messageId: int, name: string): Info {
    var links := BuildCanonicalLinks(chatId, messageId, Some(name));
    Info(links.group, links.message, Some(name))
  }

  function WithPrivate(info: Info, inner: string, messageId: int): Info {
    var group := PRIVATE + inner;
    info.(group := if info.group == NO_LINK then group else info.group,
          message := if info.message == NO_LINK then group + "/" + Str(messageId) else info.message)
  }

  /** What `_resolve_chat_links` leaves in the chat's record. */
  function Resolved(info: Info, chatId: int, messageId: int, entityName: Option<string>, eventName: Option<string>,
                    hasEntity: bool, exported: Option<Exported>): Info {
    if Usable(entityName).Some? then FromName(chatId, messageId, Usable(entityName).value)
    else if Usable(eventName).Some? then FromName(chatId, messageId, Usable(eventName).value)
    else if PrivateInner(chatId).Some? && messageId != 0 then
      Tried(WithPrivate(info, PrivateInner(chatId).value, messageId), exported, messageId)
    else if hasEntity && messageId != 0 then Tried(info, exported, messageId)
    else info
  }

  /** The last gate: what the check refuses becomes "#". */
  function Gated(link: string): string {
    if IsValidUrl(link) then link else NO_LINK
  }

  function Verified(info: Info): Info {
    info.(group := Gated(info.group), message := Gated(info.message))
  }

  // ------------------------------------------------------------------ ranks

  predicate Rises(a: Info, b: Info) {
    Rank(a.group) <= Rank(b.group) && Rank(a.message) <= Rank(b.message)
  }

  lemma NamedRanks(chatId: int, messageId: int, name: string)
    requires IsValidUsername(name)
    ensures var info := FromName(chatId, messageId, name);
      && Rank(info.group) == (if messageId == 0 then 0 else 2)
      && Rank(info.message) == (if messageId > 0 then 2 else 0)
  {
    DroppedIsValid(name);
    PublicLinks(DropAts(name), messageId);
  }

  lemma CleanedHasNoAt(raw: string)
    requires CleanUsername(raw).Some?
    ensures var clean := CleanUsername(raw).value;
      clean != [] && clean[0] != '@' && DropAts(clean) == clean && !IsSpace(clean[|clean| - 1])
  {
    var lead, trail := StripSplits(raw);
    var ats := DropAtsSplits(Strip(raw));
    var clean := DropAts(Strip(raw));
    DropAtsStops(Strip(raw));
    assert clean[|clean| - 1] == Strip(raw)[|Strip(raw)| - 1];
  }

  lemma {:induction false} DropAtsStops(s: string)
    ensures DropAts(s) == [] || DropAts(s)[0] != '@'
  {
    if s != [] && s[0] == '@' {
      DropAtsStops(s[1..]);
    }
  }

  /** The link filled in from a usable name is that of the bare name exactly when no white
      space stands right behind the leading at signs. */
  lemma SpacesReachTheRecord(chatId: int, messageId: int, raw: string)
    requires Usable(Some(raw)).Some? && messageId != 0
    ensures var name := Usable(Some(raw)).value;
      && CleanUsername(name).Some?
      && (FromName(chatId, messageId, name).group == HOST + CleanUsername(name).value
          <==> !IsSpace(DropAts(Strip(raw))[0]))
  {
    var name := CleanUsername(raw).value;
    CleanedHasNoAt(raw);
    DroppedIsValid(name);
    var a, b := DropAts(name), CleanUsername(name).value;
    assert (HOST + a)[|HOST|..] == a && (HOST + b)[|HOST|..] == b;
    var lead, trail := StripSplits(name);
    if IsSpace(name[0]) {
      assert Strip(name) != [] ==> !IsSpace(Strip(name)[0]);
    } else {
      StripTrimmed(name);
    }
  }

  const SPACED: string := "@ alice"

  lemma SpacedNameIsUsable()
    ensures Usable(Some(SPACED)) == Some(" alice") && IsValidUsername(" alice") && DropAts(" alice") == " alice"
  {
    StripTrimmed(SPACED);
    assert SPACED == "@" + " alice";
    DropAtsAll("@", " alice");
    assert " alice" == " " + [] + "alice" + [];
    ShapeCleans(" alice", " ", [], "alice", []);
  }

  /** Such a name, with a message id that is not positive: the link has the space, the check
      accepts it, and a good message link is lost. */
  lemma SpacedName(chatId: int, message: string)
    requires Rank(message) > 0
    ensures var before := Info(NO_LINK, message, None);
      var now := Resolved(before, chatId, -1, Some(SPACED), None, true, None);
      now.group == HOST + " alice" && IsValidUrl(now.group) && !IsValidUrl(now.message) && !Rises(before, now)
  {
    SpacedNameIsUsable();
    NamedRanks(chatId, -1, " alice");
  }

  lemma PrivateRises(info: Info, inner: string, messageId: int)
    ensures Rises(info, WithPrivate(info, inner, messageId))
  {
  }

  lemma TriedRises(info: Info, exported: Option<Exported>, messageId: int)
    requires exported.Some? ==> exported.value.Ok()
    ensures Rises(info, Tried(info, exported, messageId))
  {
  }

  /** Resolving only ever improves a chat's links, for every positive message id; and for
      other ids exactly when no username is known or there is nothing to lose. */
  lemma RankRisesIff(info: Info, chatId: int, messageId: int, entityName: Option<string>, eventName: Option<string>,
                     hasEntity: bool, exported: Option<Exported>)
    requires exported.Some? ==> exported.value.Ok()
    ensures Rises(info, Resolved(info, chatId, messageId, entityName, eventName, hasEntity, exported)) <==>
      || messageId > 0
      || (Usable(entityName).None? && Usable(eventName).None?)
      || (Rank(info.message) == 0 && (messageId < 0 || Rank(info.group) == 0))
  {
    if Usable(entityName).Some? {
      NamedRanks(chatId, messageId, Usable(entityName).value);
    } else if Usable(eventName).Some? {
      NamedRanks(chatId, messageId, Usable(eventName).value);
    } else if PrivateInner(chatId).Some? && messageId != 0 {
      var filled := WithPrivate(info, PrivateInner(chatId).value, messageId);
      PrivateRises(info, PrivateInner(chatId).value, messageId);
      TriedRises(filled, exported, messageId);
    } else {
      TriedRises(info, exported, messageId);
    }
  }

  /** The gate costs no link that is worth anything, and after it every link is "#" or
      accepted by the check. */
  lemma GateKeepsRanks(info: Info)
    ensures var out := Verified(info);
      && Rank(out.group) == Rank(info.group) && Rank(out.message) == Rank(info.message)
      && (out.group == NO_LINK || IsValidUrl(out.group)) && (out.message == NO_LINK || IsValidUrl(out.message))
      && Verified(out) == out
  {
  }

  // ------------------------------------------------------------- the record

  class ChatRecord {
    var groupLink: string
    var msgLink: string
    var username: Option<string>

    function View(): Info
      reads this
    {
      Info(groupLink, msgLink, username)
    }

    constructor ()
      ensures View() == Info(NO_LINK, NO_LINK, None)
    {
      groupLink, msgLink, username := NO_LINK, NO_LINK, None;
    }

    method SetName(chatId: int, messageId: int, name: string)
      modifies this
      ensures View() == FromName(chatId, messageId, name)
    {
      var links := BuildCanonicalLinks(chatId, messageId, Some(name));
      username, groupLink, msgLink := Some(name), links.group, links.message;
    }

    /** Takes a link Telegram gave, where it is better than what is there. */
    method ApplyExported(e: Exported, messageId: int) returns (upgraded: bool)
      modifies this
      ensures View() == Applied(old(View()), e, messageId)
      ensures upgraded <==> IsUpgrade(old(View()), e, messageId)
    {
      var group := e.Group();
      upgraded := false;
      if !IsValidUrl(group) {
        return;
      }
      if Better(groupLink, e.PublicChat?) {
        groupLink, upgraded := group, true;
      }
      var message := if messageId != 0 then group + "/" + Str(messageId) else NO_LINK;
      if IsValidUrl(message) && Better(msgLink, e.PublicChat?) {
        msgLink, upgraded := message, true;
      }
      if e.PublicChat? && username.None? {
        username, upgraded := Some(e.name), true;
      }
    }

    method TryExport(exported: Option<Exported>, messageId: int)
      modifies this
      ensures View() == Tried(old(View()), exported, messageId)
    {
      if messageId > 0 && exported.Some? {
        var upgraded := ApplyExported(exported.value, messageId);
      }
    }

    /** Entity, then event username, then the private form, then Telegram's own link: by
        `RankRisesIff` never for the worse when the message id is positive. */
    method ResolveChatLinks(chatId: int, messageId: int, entityName: Option<string>, eventName: Option<string>,
                            hasEntity: bool, exported: Option<Exported>)
      modifies this
      ensures View() == Resolved(old(View()), chatId, messageId, entityName, eventName, hasEntity, exported)
    {
      if Usable(entityName).Some? {
        SetName(chatId, messageId, Usable(entityName).value);
        return;
      }
      if Usable(eventName).Some? {
        SetName(chatId, messageId, Usable(eventName).value);
        return;
      }
      var inner := PrivateInner(chatId);
      if inner.Some? && messageId != 0 {
        var group := PRIVATE + inner.value;
        if groupLink == NO_LINK {
          groupLink := group;
        }
        if msgLink == NO_LINK {
          msgLink := group + "/" + Str(messageId);
        }
        TryExport(exported, messageId);
        return;
      }
      if hasEntity && messageId != 0 {
        TryExport(exported, messageId);
      }
    }

    method VerifyNavigation()
      modifies this
      ensures View() == Verified(old(View()))
    {
      if !IsValidUrl(groupLink) {
        groupLink := NO_LINK;
      }
      if !IsValidUrl(msgLink) {
        msgLink := NO_LINK;
      }
    }
  }
}
