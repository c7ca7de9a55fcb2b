/** What built links name: the chat and the message can be read back from them; and that
    filling in a chat's links finds the best there are. */
module LinkNames {
  import opened Options
  import opened Sequences
  import opened Text
  import opened ChatLinks

  // ------------------------------------------------------- reading numbers back

  /** The number that digits write. */
  ghost function Reads(s: string): int {
    if s == [] then 0 else 10 * Reads(s[..|s| - 1]) + (s[|s| - 1] as int - '0' as int)
  }

  ghost function ReadsSigned(s: string): int {
    if s != [] && s[0] == '-' then -Reads(s[1..]) else Reads(s)
  }

  lemma ReadsLast(s: string, d: nat)
    requires d < 10
    ensures Reads(s + [DigitOf(d)]) == 10 * Reads(s) + d
  {
    assert (s + [DigitOf(d)])[..|s|] == s;
  }

  lemma {:induction false} DecimalReads(n: nat)
    ensures Reads(Decimal(n)) == n
  {
    if n < 10 {
      ReadsLast([], n);
      assert [] + [DigitOf(n)] == [DigitOf(n)];
    } else {
      DecimalReads(n / 10);
      ReadsLast(Decimal(n / 10), n % 10);
    }
  }

  lemma {:induction false} PaddedReads(n: nat, k: nat)
    requires n < Pow10(k)
    ensures Reads(Padded(n, k)) == n
  {
    if k > 0 {
      PaddedReads(n / 10, k - 1);
      ReadsLast(Padded(n / 10, k - 1), n % 10);
    }
  }

  lemma StrReads(n: int)
    ensures ReadsSigned(Str(n)) == n
  {
    if n < 0 {
      DecimalReads(-n);
      assert Str(n)[1..] == Decimal(-n);
    } else {
      DecimalReads(n);
      assert IsDigit(Decimal(n)[0]);
    }
  }

  // ------------------------------------------------------------ built links

  /** A message link is the chat's link with the message's number behind it. */
  lemma MessageIsNamed(chatId: int, messageId: int, username: Option<string>) returns (id: string)
    requires BuildCanonicalLinks(chatId, messageId, username).message != NO_LINK
    ensures var links := BuildCanonicalLinks(chatId, messageId, username);
      links.message == links.group + "/" + id && '/' !in id && ReadsSigned(id) == messageId
  {
    id := Str(messageId);
    StrReads(messageId);
    StrHasNoSlash(messageId);
  }

  /** The link of a chat without a username holds the digits of its id behind "-100". */
  lemma ChatIsNamed(chatId: int, messageId: int) returns (inner: string)
    requires BuildCanonicalLinks(chatId, messageId, None).group != NO_LINK
    ensures BuildCanonicalLinks(chatId, messageId, None).group == PRIVATE + inner
    ensures '/' !in inner && -chatId == 100 * Pow10(|inner|) + Reads(inner)
  {
    var k := InnerWrites(chatId);
    var r := -chatId - 100 * Pow10(k);
    InnerOf(chatId, k, r);
    inner := Padded(r, k);
    PaddedReads(r, k);
  }

  lemma SlashInside(a: string, x: string, b: string, y: string)
    requires a + "/" + x == b + "/" + y && |x| < |y|
    ensures '/' in y
  {
    var s := a + "/" + x;
    assert s[|a|] == '/' && |s| == |a| + 1 + |x|;
    assert (b + "/" + y)[|a|] == y[|a| - |b| - 1];
  }

  lemma LastSlash(a: string, x: string, b: string, y: string)
    requires a + "/" + x == b + "/" + y && '/' !in x && '/' !in y
    ensures a == b && x == y
  {
    if |x| < |y| {
      SlashInside(a, x, b, y);
    } else if |y| < |x| {
      SlashInside(b, y, a, x);
    } else {
      var s := a + "/" + x;
      assert s[..|a|] == a && s[..|b|] == b;
      assert s[|a| + 1..] == x && s[|b| + 1..] == y;
    }
  }

  /** No two messages of chats without a username share a link. */
  lemma OneMessageEach(chatA: int, messageA: int, chatB: int, messageB: int)
    requires BuildCanonicalLinks(chatA, messageA, None).message != NO_LINK
    requires BuildCanonicalLinks(chatA, messageA, None).message == BuildCanonicalLinks(chatB, messageB, None).message
    ensures chatA == chatB && messageA == messageB
  {
    var x := MessageIsNamed(chatA, messageA, None);
    var y := MessageIsNamed(chatB, messageB, None);
    var a, b := BuildCanonicalLinks(chatA, messageA, None).group, BuildCanonicalLinks(chatB, messageB, None).group;
    BuiltLinksAreValid(chatA, messageA, None);
    BuiltLinksAreValid(chatB, messageB, None);
    LastSlash(a, x, b, y);
    var i := ChatIsNamed(chatA, messageA);
    var j := ChatIsNamed(chatB, messageB);
    assert (PRIVATE + i)[|PRIVATE|..] == i && (PRIVATE + j)[|PRIVATE|..] == j;
  }

  /** Telegram's usernames: five to 32 letters, digits and underscores, a letter first. */
  ghost predicate IsUsername(s: string) {
    && 5 <= |s| <= 32 && ('A' <= s[0] <= 'Z' || 'a' <= s[0] <= 'z')
    && forall k :: 0 <= k < |s| ==> 'A' <= s[k] <= 'Z' || 'a' <= s[k] <= 'z' || '0' <= s[k] <= '9' || s[k] == '_'
  }

  /** White space, at signs, a username, white space. */
  ghost predicate Wraps(s: string, core: string, lead: string, ats: string, trail: string) {
    s == lead + ats + core + trail && Blank(lead) && AllAts(ats) && IsUsername(core) && Blank(trail)
  }

  /** Which names are valid, and what is left of them. */
  lemma ValidIff(s: string)
    ensures IsValidUsername(s) <==> exists core, lead, ats, trail :: Wraps(s, core, lead, ats, trail)
    ensures forall core, lead, ats, trail :: Wraps(s, core, lead, ats, trail) ==> CleanUsername(s) == Some(core)
  {
    forall core, lead, ats, trail | Wraps(s, core, lead, ats, trail)
      ensures IsValidUsername(s) && CleanUsername(s) == Some(core)
    {
      ShapeCleans(s, lead, ats, core, trail);
    }
    if IsValidUsername(s) {
      var lead, ats, core, trail := ShapeOf(s);
      assert Wraps(s, core, lead, ats, trail);
    }
  }

  /** Which links with one or two parts the check accepts: a username and a message's number, or
      "c", a supergroup's number that is not 0, and a message's number. */
  lemma AcceptedIff(a: string, b: string)
    requires a != [] && b != [] && '/' !in a && '/' !in b
    ensures IsValidUrl(HOST + a) <==> IsValidUsername(a)
    ensures a != "c" ==> (IsValidUrl(HOST + a + "/" + b) <==> IsValidUsername(a) && IsDigits(b))
    ensures IsValidUrl(PRIVATE + a) <==> IsDigits(a) && a != "0"
    ensures IsValidUrl(PRIVATE + a + "/" + b) <==> IsDigits(a) && a != "0" && IsDigits(b)
  {
    OnePart(a);
    if a != "c" {
      PublicParts(a, b);
    }
    PrivatePart(a);
    ThreeParts(a, b);
  }

  lemma PublicParts(a: string, b: string)
    requires a != [] && b != [] && '/' !in a && '/' !in b && a != "c"
    ensures IsValidUrl(HOST + a + "/" + b) <==> IsValidUsername(a) && IsDigits(b)
  {
    Regroup(HOST, a + "/", b);
    Regroup(HOST, a, "/");
    TwoParts(a, b);
  }

  lemma PrivatePart(a: string)
    requires a != [] && '/' !in a
    ensures IsValidUrl(PRIVATE + a) <==> IsDigits(a) && a != "0"
  {
    assert PRIVATE + a == HOST + ("c" + "/" + a);
    TwoParts("c", a);
  }

  lemma OnePart(a: string)
    requires a != [] && '/' !in a
    ensures IsValidUrl(HOST + a) <==> IsValidUsername(a)
  {
    assert a[0] in a && a[|a| - 1] in a;
    UrlOf(a);
    SplitNoSlash(a);
    if a == "c" && IsValidUsername(a) {
      var lead, ats, core, trail := ShapeOf(a);
    }
  }

  lemma ThreeParts(a: string, b: string)
    requires a != [] && b != [] && '/' !in a && '/' !in b
    ensures IsValidUrl(PRIVATE + a + "/" + b) <==> IsDigits(a) && a != "0" && IsDigits(b)
  {
    assert b[|b| - 1] in b;
    var more := "c" + "/" + (a + "/" + b);
    assert PRIVATE + a + "/" + b == HOST + more;
    UrlOf(more);
    SplitFirst("c", a + "/" + b);
    SplitFirst(a, b);
    SplitNoSlash(b);
  }

  // --------------------------------------------------- the best link there is

  function Max(a: nat, b: nat): nat {
    if a < b then b else a
  }

  /** What Telegram's own link is worth, if it is asked for at all. */
  ghost function ExportedRank(exported: Option<Exported>, asked: bool, behind: string): nat {
    if asked && exported.Some? && IsValidUrl(exported.value.Group()) then Rank(exported.value.Group() + behind) else 0
  }

  ghost predicate Known(entityName: Option<string>, eventName: Option<string>) {
    Usable(entityName).Some? || Usable(eventName).Some?
  }

  /** Links that have been through the last gate. */
  ghost predicate IsGated(info: Info) {
    && (info.group == NO_LINK || IsValidUrl(info.group))
    && (info.message == NO_LINK || IsValidUrl(info.message))
  }

  lemma PrivateHasSlash(name: string)
    requires PRIVATE <= HOST + name
    ensures '/' in name
  {
    assert (HOST + name)[|HOST| + 1] == PRIVATE[|HOST| + 1] == '/';
  }

  lemma ExportedRanks(e: Exported, messageId: int)
    requires e.Ok() && IsValidUrl(e.Group()) && messageId > 0
    ensures Rank(e.Group()) == if e.PublicChat? then 2 else 1
    ensures IsValidUrl(e.Group() + "/" + Str(messageId))
    ensures Rank(e.Group() + "/" + Str(messageId)) == if e.PublicChat? then 2 else 1
  {
    if e.PublicChat? {
      if PRIVATE <= e.Group() {
        PrivateHasSlash(e.name);
      }
      assert e.name[0] in e.name && e.name[|e.name| - 1] in e.name;
      UrlOf(e.name);
      SplitNoSlash(e.name);
      var lead, ats, core, trail := ShapeOf(e.name);
      PublicLinks(e.name, messageId);
    } else {
      PrivateGroup(Decimal(e.inner));
      PrivateMessage(Decimal(e.inner), messageId);
    }
  }

  lemma PublicExported(e: Exported, messageId: int)
    requires e.Ok() && e.PublicChat? && IsValidUrl(e.Group())
    ensures !(PRIVATE <= e.Group()) && !(PRIVATE <= e.Group() + "/" + Str(messageId))
  {
    OnePart(e.name);
    var lead, ats, core, trail := ShapeOf(e.name);
    PublicLinks(e.name, messageId);
  }

  /** Taking an exported link is reported exactly when it changes the record. */
  lemma UpgradeIff(info: Info, e: Exported, messageId: int)
    requires e.Ok()
    ensures IsUpgrade(info, e, messageId) <==> Applied(info, e, messageId) != info
  {
    if IsValidUrl(e.Group()) && e.PublicChat? {
      PublicExported(e, messageId);
    }
    assert |NO_LINK| < |HOST|;
  }

  lemma AppliedIsBest(info: Info, e: Exported, messageId: int)
    requires e.Ok() && messageId > 0 && IsGated(info) && IsValidUrl(e.Group())
    ensures var now, more := Applied(info, e, messageId), "/" + Str(messageId);
      && IsGated(now)
      && Rank(now.group) == Max(Rank(info.group), Rank(e.Group()))
      && Rank(now.message) == Max(Rank(info.message), Rank(e.Group() + more))
      && (Rank(now.group) == Rank(info.group) ==> now.group == info.group)
      && (Rank(now.message) == Rank(info.message) ==> now.message == info.message)
  {
    ExportedRanks(e, messageId);
    Regroup(e.Group(), "/", Str(messageId));
  }

  lemma TriedIsBest(info: Info, exported: Option<Exported>, messageId: int)
    requires messageId > 0 && IsGated(info) && (exported.Some? ==> exported.value.Ok())
    ensures var now, more := Tried(info, exported, messageId), "/" + Str(messageId);
      && IsGated(now)
      && Rank(now.group) == Max(Rank(info.group), ExportedRank(exported, true, []))
      && Rank(now.message) == Max(Rank(info.message), ExportedRank(exported, true, more))
      && (Rank(now.group) == Rank(info.group) ==> now.group == info.group)
      && (Rank(now.message) == Rank(info.message) ==> now.message == info.message)
  {
    if exported.Some? && IsValidUrl(exported.value.Group()) {
      assert exported.value.Group() + [] == exported.value.Group();
      AppliedIsBest(info, exported.value, messageId);
    }
  }

  lemma PrivateIsBest(info: Info, inner: string, messageId: int)
    requires messageId > 0 && IsGated(info) && IsDigits(inner) && inner != "0"
    ensures var now := WithPrivate(info, inner, messageId);
      && IsGated(now)
      && Rank(now.group) == Max(Rank(info.group), 1) && Rank(now.message) == Max(Rank(info.message), 1)
      && (Rank(now.group) == Rank(info.group) ==> now.group == info.group)
      && (Rank(now.message) == Rank(info.message) ==> now.message == info.message)
  {
    PrivateGroup(inner);
    PrivateMessage(inner, messageId);
    Regroup(PRIVATE + inner, "/", Str(messageId));
    assert PRIVATE <= PRIVATE + inner && PRIVATE <= PRIVATE + inner + "/" + Str(messageId);
  }

  /** Where a link comes from if no username is known. */
  ghost predicate Offered(link: string, was: string, inner: Option<string>, exported: Option<Exported>,
                          behind: string) {
    || link == was
    || (inner.Some? && link == PRIVATE + inner.value + behind)
    || (exported.Some? && link == exported.value.Group() + behind)
  }

  lemma LinksAreOffered(info: Info, chatId: int, messageId: int, hasEntity: bool, exported: Option<Exported>)
    requires messageId > 0
    ensures var now, more := Resolved(info, chatId, messageId, None, None, hasEntity, exported), "/" + Str(messageId);
      && Offered(now.group, info.group, PrivateInner(chatId), exported, [])
      && Offered(now.message, info.message, PrivateInner(chatId), exported, more)
  {
    if PrivateInner(chatId).Some? {
      var group := PRIVATE + PrivateInner(chatId).value;
      assert group + [] == group;
      Regroup(group, "/", Str(messageId));
    }
    if exported.Some? {
      var group := exported.value.Group();
      assert group + [] == group;
      Regroup(group, "/", Str(messageId));
    }
  }

  /** A public link where a username is known; and otherwise exactly the best of the link that
      was there, the chat's own private one and the one Telegram gives, and no link changes
      that cannot be bettered. */
  lemma ResolvedIsBest(info: Info, chatId: int, messageId: int, entityName: Option<string>, eventName: Option<string>,
                       hasEntity: bool, exported: Option<Exported>)
    requires messageId > 0 && IsGated(info) && (exported.Some? ==> exported.value.Ok())
    ensures var now := Resolved(info, chatId, messageId, entityName, eventName, hasEntity, exported);
      var own := if PrivateInner(chatId).Some? then 1 else 0;
      var asked, more := own == 1 || hasEntity, "/" + Str(messageId);
      && IsGated(now)
      && (Known(entityName, eventName) ==> Rank(now.group) == 2 && Rank(now.message) == 2)
      && (Usable(entityName).Some? ==> now.username == Usable(entityName))
      && (Usable(entityName).None? && Usable(eventName).Some? ==> now.username == Usable(eventName))
      && (!Known(entityName, eventName) ==>
        && Rank(now.group) == Max(Max(Rank(info.group), own), ExportedRank(exported, asked, []))
        && Rank(now.message) == Max(Max(Rank(info.message), own), ExportedRank(exported, asked, more))
        && (Rank(now.group) == Rank(info.group) ==> now.group == info.group)
        && (Rank(now.message) == Rank(info.message) ==> now.message == info.message))
  {
    if Usable(entityName).Some? {
      NamedRanks(chatId, messageId, Usable(entityName).value);
    } else if Usable(eventName).Some? {
      NamedRanks(chatId, messageId, Usable(eventName).value);
    } else if PrivateInner(chatId).Some? {
      PrivateIsBest(info, PrivateInner(chatId).value, messageId);
      TriedIsBest(WithPrivate(info, PrivateInner(chatId).value, messageId), exported, messageId);
    } else if hasEntity {
      TriedIsBest(info, exported, messageId);
    }
  }
}
