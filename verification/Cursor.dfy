/**
 * Opaque pagination cursors: claims, as canonical JSON, as base64url text.
 */
module Cursor {
  import opened Bytes
  import opened JsonText
  import opened Json
  import opened Schema
  import opened CanonicalForm
  import CanonicalWriter
  import opened Messages
  import Encoders
  import Frames
  import Base64
  import JsonNumber

  const CURSOR_VERSION := 1
  const MAX_CURSOR_LENGTH := 512

  const SORT_KEY := Text(1, 128, NoNulPattern)

  const CURSOR_FIELDS := [
    Field("version", Integer(1, 1), true),
    Field("sort_key", SORT_KEY, true),
    Field("id", IDENTIFIER, true)]

  const CURSOR := Struct(CURSOR_FIELDS, [])

  datatype Claims = Claims(version: Int64, sortKey: string, id: string)

  datatype Rejection = MalformedEncoding | MalformedJson | SchemaViolation | UnsupportedVersion | CursorTooLong

  function ClaimsSlots(c: Claims): seq<Slot>
  {
    [ Slot("version", Some(IntegerTree(c.version))),
      Slot("sort_key", Some(TextTree(c.sortKey))),
      Slot("id", Some(TextTree(c.id)))]
  }

  function ClaimsTree(c: Claims): Value { Object(Present(ClaimsSlots(c))) }

  function ClaimsOf(value: Value): Claims
  {
    var source := Members(value);
    Claims(
      IntegerOf(Property(source, "version")),
      TextOf(Property(source, "sort_key")),
      TextOf(Property(source, "id")))
  }

  // ----- bytes and text

  predicate IsOctets(s: string)
  {
    forall i | 0 <= i < |s| :: s[i] as int < 256
  }

  function Octets(s: string): (b: seq<Byte>)
    ensures |b| == |s|
  {
    seq(|s|, i requires 0 <= i < |s| => if s[i] as int < 256 then s[i] as int else 0)
  }

  lemma CharsOfOctets(s: string)
    requires IsOctets(s)
    ensures Chars(Octets(s)) == s
  {
  }

  // ----- encoding

  /** The claims have no rounding to do: no number of theirs is a float. */
  function Exact(text: string): Option<JsonNumber.Decimal> { None }

  function EncodedCursor(c: Claims): Result<string, Rejection>
  {
    if c.version != CURSOR_VERSION then Err(UnsupportedVersion)
    else if Check(Exact, CURSOR, ClaimsTree(c), "$") != [] then Err(SchemaViolation)
    else
      var encoded := Base64.Encode(Octets(Render(ClaimsTree(c))));
      if |encoded| > MAX_CURSOR_LENGTH then Err(CursorTooLong) else Ok(encoded)
  }

  method EncodeCursorClaims(c: Claims) returns (canonical: string)
    ensures canonical == Render(ClaimsTree(c))
  {
    var w := new CanonicalWriter.Writer();
    w.OpenObject();
    Encoders.PutInteger(w, "version", c.version);
    Encoders.PutText(w, "sort_key", c.sortKey);
    Encoders.PutText(w, "id", c.id);
    ClaimsMembers(c);
    w.CloseObject();
    Frames.TopWrites(ClaimsTree(c));
    canonical := w.buf;
  }

  lemma ClaimsMembers(c: Claims)
    ensures Present(ClaimsSlots(c)) ==
            [] +
            [Member("version", IntegerTree(c.version))] +
            [Member("sort_key", TextTree(c.sortKey))] +
            [Member("id", TextTree(c.id))]
  {
    var slots := ClaimsSlots(c);
    Encoders.NextSlot(slots, 0);
    Encoders.NextSlot(slots, 1);
    Encoders.NextSlot(slots, 2);
    assert slots[..0] == [] && slots[..3] == slots;
  }

  method EncodeCursor(c: Claims) returns (r: Result<string, Rejection>)
    ensures r == EncodedCursor(c)
  {
    if c.version != CURSOR_VERSION {
      return Err(UnsupportedVersion);
    }
    if |Check(Exact, CURSOR, ClaimsTree(c), "$")| > 0 {
      return Err(SchemaViolation);
    }
    var canonical := EncodeCursorClaims(c);
    var encoded := Base64.Encode(Octets(canonical));
    if |encoded| > MAX_CURSOR_LENGTH {
      return Err(CursorTooLong);
    }
    return Ok(encoded);
  }

  // ----- decoding

  function DecodedCursor(text: string): Result<Claims, Rejection>
  {
    if |text| > MAX_CURSOR_LENGTH then Err(CursorTooLong)
    else match Base64.DecodeLax(text)
      case None => Err(MalformedEncoding)
      case Some(raw) => DecodedText(Chars(raw))
  }

  /** The one value of the text, as claims. */
  function DecodedText(raw: string): Result<Claims, Rejection>
  {
    match ReadValue(raw)
    case None => Err(MalformedJson)
    case Some((v, rest)) => if Frames.More(rest) then Err(MalformedJson) else DecodedClaims(v)
  }

  function DecodedClaims(v: Value): Result<Claims, Rejection>
  {
    if !v.Object? then Err(SchemaViolation)
    else if AsInt64(Property(v.members, "version")) != Some(CURSOR_VERSION) then Err(UnsupportedVersion)
    else if Check(Exact, CURSOR, v, "$") != [] then Err(SchemaViolation)
    else Ok(ClaimsOf(v))
  }

  // ----- the claims and their tree

  lemma ClaimsAreRead(c: Claims)
    ensures ClaimsOf(ClaimsTree(c)) == c
    ensures Lookup(Present(ClaimsSlots(c)), "version") == Some(IntegerTree(c.version))
    ensures Lookup(Present(ClaimsSlots(c)), "sort_key") == Some(TextTree(c.sortKey))
    ensures Lookup(Present(ClaimsSlots(c)), "id") == Some(TextTree(c.id))
  {
    var slots := ClaimsSlots(c);
    assert DistinctNames(slots);
    LookupAllPresent(slots);
    IntegerIsRead(c.version);
    assert Lookup(Present(slots), "version") == slots[0].value;
    assert Lookup(Present(slots), "sort_key") == slots[1].value;
    assert Lookup(Present(slots), "id") == slots[2].value;
  }

  predicate ClaimsAreValid(c: Claims)
  {
    && c.version == CURSOR_VERSION
    && 1 <= RuneCount(c.sortKey) <= 128 && 0 as char !in c.sortKey
    && 1 <= RuneCount(c.id) <= 64 && Matches(IdentifierPattern, c.id)
  }

  lemma VersionConforms(v: Value)
    ensures Conforms(Exact, Integer(1, 1), v) <==> AsInt64(v) == Some(CURSOR_VERSION)
  {
  }

  lemma SortKeyConforms(v: Value)
    ensures Conforms(Exact, SORT_KEY, v) <==>
            v.String? && 1 <= RuneCount(v.text) <= 128 && 0 as char !in v.text
  {
    if v.String? {
      assert Matches(NoNulPattern, v.text) <==> v.text != "" && 0 as char !in v.text;
    }
  }

  lemma IdConforms(v: Value)
    ensures Conforms(Exact, IDENTIFIER, v) <==>
            v.String? && 1 <= RuneCount(v.text) <= 64 && Matches(IdentifierPattern, v.text)
  {
  }

  predicate FieldIsRight(f: Field, members: seq<Member>)
  {
    match Lookup(members, f.name)
    case None => false
    case Some(v) => Conforms(Exact, f.schema, v)
  }

  lemma AllFields(fields: seq<Field>, members: seq<Member>)
    requires forall k | 0 <= k < |fields| :: fields[k].required
    ensures HasRequired(fields, members) && FieldsConform(Exact, fields, members) <==>
            forall k | 0 <= k < |fields| :: FieldIsRight(fields[k], members)
  {
    if forall k | 0 <= k < |fields| :: FieldIsRight(fields[k], members) {
      assert forall k | 0 <= k < |fields| :: Lookup(members, fields[k].name).Some?;
    }
  }

  lemma ThreeFields(fields: seq<Field>, members: seq<Member>)
    requires |fields| == 3 && fields[0].required && fields[1].required && fields[2].required
    ensures Conforms(Exact, Struct(fields, []), Object(members)) <==>
            && OnlyDeclared(fields, members)
            && FieldIsRight(fields[0], members) && FieldIsRight(fields[1], members) && FieldIsRight(fields[2], members)
  {
    AllFields(fields, members);
  }

  lemma ClaimsAreDeclared(c: Claims)
    ensures OnlyDeclared(CURSOR_FIELDS, Present(ClaimsSlots(c)))
  {
    ClaimsMembers(c);
    assert CURSOR_FIELDS[0].name == "version" && CURSOR_FIELDS[1].name == "sort_key" && CURSOR_FIELDS[2].name == "id";
  }

  /** The claims that are encoded, in terms of the claims themselves. */
  lemma ValidClaimsConform(c: Claims)
    ensures Conforms(Exact, CURSOR, ClaimsTree(c)) <==> ClaimsAreValid(c)
  {
    ClaimsAreRead(c);
    ClaimsAreDeclared(c);
    JsonNumber.IntegerRoundTrip(c.version);
    ThreeFields(CURSOR_FIELDS, Present(ClaimsSlots(c)));
    VersionConforms(IntegerTree(c.version));
    SortKeyConforms(TextTree(c.sortKey));
    IdConforms(TextTree(c.id));
  }

  // ----- the canonical text

  function Assembled(a: string, b: string, c: string, d: string, e: string, f: string): string
  {
    "{" + (a + ":" + b + ("," + (c + ":" + d + ("," + (e + ":" + f))))) + "}"
  }

  function ClaimsText(version: string, sortKey: string, id: string): string
  {
    Assembled(Quote("version"), version, Quote("sort_key"), Quote(sortKey), Quote("id"), Quote(id))
  }

  lemma ClaimsAreWritten(c: Claims)
    ensures Render(ClaimsTree(c)) == ClaimsText(JsonNumber.IntegerText(c.version), c.sortKey, c.id)
  {
    var a, b, d := Member("version", IntegerTree(c.version)), Member("sort_key", TextTree(c.sortKey)), Member("id", TextTree(c.id));
    ClaimsMembers(c);
    assert [] + [a] + [b] + [d] == [a, b, d];
    ThreeMembers(a, b, d);
  }

  lemma ThreeMembers(a: Member, b: Member, c: Member)
    ensures RenderMembers([a, b, c]) == RenderMember(a) + ("," + (RenderMember(b) + ("," + RenderMember(c))))
  {
    assert [a, b, c][1..] == [b, c] && [b, c][1..] == [c];
    calc {
      RenderMembers([b, c]);
      RenderMember(b) + ("," + RenderMembers([c]));
      { assert RenderMember(c) + "" == RenderMember(c); }
      RenderMember(b) + ("," + RenderMember(c));
    }
  }

  lemma QuoteIsOctets(s: string)
    ensures IsOctets(Quote(s))
  {
    EscapeIsPlain(s);
    forall i | 0 <= i < |Escape(s)| ensures Escape(s)[i] as int < 256 {
      assert Escape(s)[i] in Escape(s);
    }
  }

  lemma MemberIsOctets(m: Member)
    requires IsOctets(Render(m.value))
    ensures IsOctets(RenderMember(m))
  {
    QuoteIsOctets(m.name);
  }

  lemma MembersAreOctets(a: Member, b: Member, c: Member)
    requires IsOctets(Render(a.value)) && IsOctets(Render(b.value)) && IsOctets(Render(c.value))
    ensures IsOctets(Render(Object([] + [a] + [b] + [c])))
  {
    assert [] + [a] + [b] + [c] == [a, b, c];
    ThreeMembers(a, b, c);
    MemberIsOctets(a);
    MemberIsOctets(b);
    MemberIsOctets(c);
    JoinedIsOctets(RenderMember(a), RenderMember(b), RenderMember(c));
  }

  lemma JoinedIsOctets(a: string, b: string, c: string)
    requires IsOctets(a) && IsOctets(b) && IsOctets(c)
    ensures IsOctets("{" + (a + ("," + (b + ("," + c)))) + "}")
  {
  }

  lemma OneIsWritten()
    ensures JsonNumber.IntegerText(1) == "1"
  {
  }

  lemma ClaimsAreOctets(c: Claims)
    requires c.version == CURSOR_VERSION
    ensures IsOctets(Render(ClaimsTree(c)))
  {
    OneIsWritten();
    QuoteIsOctets(c.sortKey);
    QuoteIsOctets(c.id);
    ClaimsMembers(c);
    MembersAreOctets(
      Member("version", IntegerTree(c.version)), Member("sort_key", TextTree(c.sortKey)), Member("id", TextTree(c.id)));
  }

  function RepairedClaims(c: Claims): Claims
  {
    c.(sortKey := Repaired(c.sortKey))
  }

  lemma RepairedClaimsAreWrittenAlike(c: Claims)
    ensures Render(ClaimsTree(RepairedClaims(c))) == Render(ClaimsTree(c))
  {
    ClaimsAreWritten(c);
    ClaimsAreWritten(RepairedClaims(c));
    RepairedIsWrittenAlike(c.sortKey);
  }

  lemma RepairedClaimsAreValid(c: Claims)
    requires ClaimsAreValid(c)
    ensures ClaimsAreValid(RepairedClaims(c))
  {
    RepairedIsWrittenAlike(c.sortKey);
    RepairedKeepsAscii(c.sortKey, 0 as char);
  }

  lemma NamesArePlain()
    ensures AllPlain("version") && AllPlain("sort_key") && AllPlain("id")
  {
  }

  lemma NamesAreValid(a: string, b: string, c: string)
    requires AllPlain(a) && AllPlain(b) && AllPlain(c)
    ensures ValidText(a) && ValidText(b) && ValidText(c)
  {
    PlainText(a);
    PlainText(b);
    PlainText(c);
  }

  lemma MembersAreCanonical(a: Member, b: Member, c: Member)
    requires ValidText(a.name) && ValidText(b.name) && ValidText(c.name)
    requires Canonical(a.value) && Canonical(b.value) && Canonical(c.value)
    ensures Canonical(Object([] + [a] + [b] + [c]))
  {
  }

  lemma ClaimsAreCanonical(c: Claims)
    requires ClaimsAreValid(c) && ValidText(c.sortKey)
    ensures Canonical(ClaimsTree(c))
  {
    PlainMatch(IdentifierPattern, c.id);
    PlainText(c.id);
    JsonNumber.IntegerRoundTrip(c.version);
    ClaimsMembers(c);
    NamesArePlain();
    NamesAreValid("version", "sort_key", "id");
    MembersAreCanonical(
      Member("version", IntegerTree(c.version)), Member("sort_key", TextTree(c.sortKey)), Member("id", TextTree(c.id)));
  }

  /** What the encoder accepts. */
  lemma EncodesExactly(c: Claims)
    ensures EncodedCursor(c).Ok? <==>
            ClaimsAreValid(c) && |Base64.Encode(Octets(Render(ClaimsTree(c))))| <= MAX_CURSOR_LENGTH
  {
    ValidClaimsConform(c);
    CheckIsExact(Exact, CURSOR, ClaimsTree(c), "$");
  }

  lemma EncodedIsText(c: Claims, text: string)
    requires EncodedCursor(c) == Ok(text)
    ensures ClaimsAreValid(c) && |text| <= MAX_CURSOR_LENGTH && text == Base64.Encode(Octets(Render(ClaimsTree(c))))
  {
    EncodesExactly(c);
  }

  /** Valid claims are what their tree is decoded as. */
  lemma TreeIsDecoded(c: Claims)
    requires ClaimsAreValid(c)
    ensures DecodedClaims(ClaimsTree(c)) == Ok(c)
  {
    ValidClaimsConform(c);
    CheckIsExact(Exact, CURSOR, ClaimsTree(c), "$");
    ClaimsAreRead(c);
    JsonNumber.IntegerRoundTrip(c.version);
  }

  lemma TextIsDecoded(c: Claims)
    requires ClaimsAreValid(c) && ValidText(c.sortKey)
    ensures DecodedText(Render(ClaimsTree(c))) == Ok(c)
  {
    ClaimsAreCanonical(c);
    WholeTextIsRead(ClaimsTree(c));
    TreeIsDecoded(c);
  }

  lemma WholeTextIsRead(v: Value)
    requires Canonical(v) && v.Object?
    ensures DecodedText(Render(v)) == DecodedClaims(v)
  {
    ReadRendered(v, "");
    assert Render(v) + "" == Render(v);
    assert !Frames.More("");
  }

  lemma OctetsAreDecoded(raw: string)
    requires IsOctets(raw) && |Base64.Encode(Octets(raw))| <= MAX_CURSOR_LENGTH
    ensures DecodedCursor(Base64.Encode(Octets(raw))) == DecodedText(raw)
  {
    CharsOfOctets(raw);
    Base64.DecodeLaxOfEncode(Octets(raw));
  }

  /**
   * Decoding an encoded cursor gives the claims with every invalid byte of the sort
   * key as U+FFFD: the claims themselves exactly when the sort key is valid UTF-8.
   */
  lemma CursorRoundTrip(c: Claims, text: string)
    requires EncodedCursor(c) == Ok(text)
    ensures DecodedCursor(text) == Ok(RepairedClaims(c))
    ensures DecodedCursor(text) == Ok(c) <==> ValidText(c.sortKey)
  {
    EncodedIsText(c, text);
    ClaimsAreOctets(c);
    OctetsAreDecoded(Render(ClaimsTree(c)));
    RepairedClaimsAreWrittenAlike(c);
    RepairedClaimsAreValid(c);
    RepairedIsValid(c.sortKey);
    TextIsDecoded(RepairedClaims(c));
    RepairedIsExact(c.sortKey);
  }

  // ----- what is decoded, and whether it fits a cursor again

  /** The room that a cursor of 512 characters leaves for the two texts. */
  const TEXT_ROOM := 349

  lemma AssembledSize(a: string, b: string, c: string, d: string, e: string, f: string)
    ensures |Assembled(a, b, c, d, e, f)| == |a| + |b| + |c| + |d| + |e| + |f| + 7
  {
  }

  lemma ClaimsSize(c: Claims)
    requires ClaimsAreValid(c)
    ensures |Render(ClaimsTree(c))| == 35 + |Escape(c.sortKey)| + |c.id|
  {
    ClaimsAreWritten(c);
    OneIsWritten();
    NamesArePlain();
    PlainText("version");
    PlainText("sort_key");
    PlainText("id");
    PlainMatch(IdentifierPattern, c.id);
    PlainText(c.id);
    AssembledSize(Quote("version"), "1", Quote("sort_key"), Quote(c.sortKey), Quote("id"), Quote(c.id));
  }

  lemma EncodedSize(raw: string)
    ensures |Base64.Encode(Octets(raw))| <= MAX_CURSOR_LENGTH <==> |raw| <= 35 + TEXT_ROOM
  {
  }

  /**
   * Whatever is decoded is valid claims in valid UTF-8. They are encoded again, to a
   * cursor that decodes to them, exactly when the escaped sort key and the id have
   * room; otherwise their own cursor is too long.
   */
  lemma DecodedClaimsAreValid(text: string, c: Claims)
    requires DecodedCursor(text) == Ok(c)
    ensures ClaimsAreValid(c) && ValidText(c.sortKey)
    ensures if |Escape(c.sortKey)| + |c.id| <= TEXT_ROOM
            then EncodedCursor(c).Ok? && DecodedCursor(EncodedCursor(c).value) == Ok(c)
            else EncodedCursor(c) == Err(CursorTooLong)
  {
    var raw := Chars(Base64.DecodeLax(text).value);
    var v := ReadValue(raw).value.0;
    ReadIsCanonical(raw);
    CheckIsExact(Exact, CURSOR, v, "$");
    ConformingClaims(v);
    ValidClaimsFit(c);
    if EncodedCursor(c).Ok? {
      CursorRoundTrip(c, EncodedCursor(c).value);
    }
  }

  lemma ValidClaimsFit(c: Claims)
    requires ClaimsAreValid(c)
    ensures EncodedCursor(c).Ok? <==> |Escape(c.sortKey)| + |c.id| <= TEXT_ROOM
    ensures EncodedCursor(c).Err? ==> EncodedCursor(c) == Err(CursorTooLong)
  {
    EncodesExactly(c);
    ValidClaimsConform(c);
    CheckIsExact(Exact, CURSOR, ClaimsTree(c), "$");
    ClaimsSize(c);
    EncodedSize(Render(ClaimsTree(c)));
  }

  lemma ConformingClaims(v: Value)
    requires Conforms(Exact, CURSOR, v) && Canonical(v)
    ensures ClaimsAreValid(ClaimsOf(v)) && ValidText(ClaimsOf(v).sortKey)
  {
    ThreeFields(CURSOR_FIELDS, v.members);
    assert CURSOR_FIELDS[0].name == "version" && CURSOR_FIELDS[1].name == "sort_key" && CURSOR_FIELDS[2].name == "id";
    VersionConforms(Property(v.members, "version"));
    SortKeyConforms(Property(v.members, "sort_key"));
    IdConforms(Property(v.members, "id"));
    TextIsValid(v.members, "sort_key");
  }

  lemma TextIsValid(members: seq<Member>, name: string)
    requires Canonical(Object(members)) && Property(members, name).String?
    ensures ValidText(Property(members, name).text)
  {
    var i :| 0 <= i < |members| && members[i] == Member(name, Property(members, name));
    assert Canonical(members[i].value);
  }

  // ----- a cursor whose claims do not fit their own

  /** U+2028 as it may stand in a JSON string: three bytes, that the canonical text writes as six. */
  const SEPARATOR: string := [0xE2 as char, 0x80 as char, 0xA8 as char]

  function Separators(n: nat): string
  {
    if n == 0 then "" else SEPARATOR + Separators(n - 1)
  }

  lemma SeparatorStep(tail: string)
    ensures var s := SEPARATOR + tail;
            && RuneSize(s) == 3 && |EscapedStep(s)| == 6 && s[3..] == tail && s[0] != '"'
            && ReadChar(s) == Some((SEPARATOR, 3))
  {
    var s := SEPARATOR + tail;
    assert s[..3] == SEPARATOR;
    assert RuneValue(s) == 0x2028;
  }

  lemma {:induction false} SeparatorsAreValid(n: nat)
    ensures var s := Separators(n);
            && ValidText(s) && RuneCount(s) == n && 0 as char !in s && IsOctets(s)
            && |s| == 3 * n && |Escape(s)| == 6 * n
  {
    if n > 0 {
      SeparatorStep(Separators(n - 1));
      SeparatorsAreValid(n - 1);
    }
  }

  lemma {:induction false} SeparatorsAreRead(n: nat, tail: string)
    ensures ReadString(Separators(n) + "\"" + tail) == Some((Separators(n), tail))
  {
    if n == 0 {
      assert "" + "\"" + tail == "\"" + tail;
      assert ("\"" + tail)[1..] == tail;
    } else {
      var after := Separators(n - 1) + "\"" + tail;
      assert Separators(n) + "\"" + tail == SEPARATOR + after;
      SeparatorStep(after);
      SeparatorsAreRead(n - 1, tail);
    }
  }

  /** A member whose text is not escaped. */
  function RawMember(name: string, text: string): string
  {
    Quote(name) + (":" + ("\"" + text + "\""))
  }

  lemma RawMemberIsRead(name: string, text: string, tail: string)
    requires ValidText(name) && ReadString(text + "\"" + tail) == Some((text, tail))
    ensures ReadMember(RawMember(name, text) + tail) == Some((Member(name, String(text)), tail))
  {
    var quoted := "\"" + text + "\"" + tail;
    RawMemberThen(Quote(name), text, tail);
    ReadQuoted(name, ":" + quoted);
    AfterQuote(text, tail);
    assert ReadScalar(quoted) == Some((String(text), tail));
    ScalarIsRead(quoted);
    MemberIsRead(Quote(name) + (":" + quoted), name, quoted);
  }

  lemma RawMemberThen(name: string, text: string, tail: string)
    ensures name + (":" + ("\"" + text + "\"")) + tail == name + (":" + ("\"" + text + "\"" + tail))
  {
  }

  lemma ScalarIsRead(s: string)
    requires s != "" && s[0] == '"'
    ensures ReadValue(s) == ReadScalar(s)
  {
    NoSpaceToSkip(s);
  }

  lemma MemberIsRead(s: string, name: string, value: string)
    requires s != "" && s[0] == '"' && ReadString(s[1..]) == Some((name, ":" + value)) && ReadValue(value).Some?
    ensures ReadMember(s) == Some((Member(name, ReadValue(value).value.0), ReadValue(value).value.1))
  {
    NoSpaceToSkip(s);
    NoSpaceToSkip(":" + value);
    assert (":" + value)[1..] == value;
  }

  lemma ObjectIsRead(t: string, members: seq<Member>, rest: string)
    requires ReadMembers(t) == Some((members, rest)) && t != "" && !IsSpace(t[0]) && t[0] != '}'
    ensures ReadValue("{" + t) == Some((Object(members), rest))
  {
    NoSpaceToSkip("{" + t);
    NoSpaceToSkip(t);
    assert ("{" + t)[1..] == t;
  }

  function OverlongClaims(n: nat): Claims { Claims(CURSOR_VERSION, Separators(n), "a") }

  function Framed(a: string, b: string, c: string): string
  {
    "{" + (a + ("," + (b + ("," + (c + "}")))))
  }

  /** The claims as JSON, with the sort key not escaped. */
  function RawClaims(n: nat): string
  {
    Framed(RenderMember(VersionMember()), RawMember("sort_key", Separators(n)), RenderMember(IdMember()))
  }

  function VersionMember(): Member { Member("version", IntegerTree(CURSOR_VERSION)) }

  function IdMember(): Member { Member("id", TextTree("a")) }

  lemma QuoteSize(s: string)
    requires AllPlain(s)
    ensures |Quote(s)| == |s| + 2 && IsOctets(Quote(s)) && ValidText(s)
  {
    PlainText(s);
    QuoteIsOctets(s);
  }

  lemma RawMemberSize(name: string, text: string)
    requires AllPlain(name) && IsOctets(text)
    ensures |RawMember(name, text)| == |name| + |text| + 5 && IsOctets(RawMember(name, text))
  {
    QuoteSize(name);
  }

  lemma FramedSize(a: string, b: string, c: string)
    requires IsOctets(a) && IsOctets(b) && IsOctets(c)
    ensures |Framed(a, b, c)| == |a| + |b| + |c| + 4 && IsOctets(Framed(a, b, c))
  {
  }

  lemma VersionMemberSize()
    ensures |RenderMember(VersionMember())| == 11 && IsOctets(RenderMember(VersionMember()))
    ensures Canonical(VersionMember().value)
  {
    OneIsWritten();
    NamesArePlain();
    QuoteSize("version");
    MemberIsOctets(VersionMember());
    JsonNumber.IntegerRoundTrip(CURSOR_VERSION);
  }

  lemma IdMemberSize()
    ensures |RenderMember(IdMember())| == 8 && IsOctets(RenderMember(IdMember())) && Canonical(IdMember().value)
  {
    NamesArePlain();
    QuoteSize("id");
    QuoteSize("a");
    MemberIsOctets(IdMember());
  }

  lemma RawClaimsSize(n: nat)
    ensures IsOctets(RawClaims(n)) && |RawClaims(n)| == 36 + 3 * n
  {
    VersionMemberSize();
    IdMemberSize();
    SeparatorsAreValid(n);
    NamesArePlain();
    RawMemberSize("sort_key", Separators(n));
    FramedSize(RenderMember(VersionMember()), RawMember("sort_key", Separators(n)), RenderMember(IdMember()));
  }

  ghost predicate IsReadAs(raw: string, m: Member)
  {
    forall tail :: ReadMember(raw + ("," + tail)) == Some((m, "," + tail))
  }

  lemma NextIsRead(raw: string, m: Member, later: string, members: seq<Member>)
    ensures IsReadAs(raw, m) && ReadMembers(later) == Some((members, ""))
            ==> ReadMembers(raw + ("," + later)) == Some(([m] + members, ""))
  {
    if IsReadAs(raw, m) && ReadMembers(later) == Some((members, "")) {
      ReadMembersStep(raw + ("," + later), m, later);
    }
  }

  lemma LastIsRead(m: Member)
    requires ValidText(m.name) && Canonical(m.value)
    ensures ReadMembers(RenderMember(m) + "}") == Some(([m], ""))
  {
    assert "}" + "" == "}";
    ReadLastMember(m, "");
  }

  lemma RenderedIsRead(m: Member)
    requires ValidText(m.name) && Canonical(m.value)
    ensures IsReadAs(RenderMember(m), m) && RenderMember(m) != "" && RenderMember(m)[0] == '"'
  {
    forall tail ensures ReadMember(RenderMember(m) + ("," + tail)) == Some((m, "," + tail)) {
      ReadRenderedMember(m, "," + tail);
    }
    assert Quote(m.name)[0] == '"';
  }

  /** An object of three members, the second of them written in any way that can be read. */
  lemma ThreeAreRead(first: string, a: Member, second: string, b: Member, third: string, c: Member)
    ensures IsReadAs(first, a) && first != "" && first[0] == '"' && IsReadAs(second, b)
            && ReadMembers(third + "}") == Some(([c], ""))
            ==> ReadValue(Framed(first, second, third)) == Some((Object([] + [a] + [b] + [c]), ""))
  {
    var middle := second + ("," + (third + "}"));
    var all := first + ("," + middle);
    NextIsRead(second, b, third + "}", [c]);
    NextIsRead(first, a, middle, [b] + [c]);
    if ReadMembers(all) == Some(([a] + ([b] + [c]), "")) && first != "" && first[0] == '"' {
      ObjectIsRead(all, [a] + ([b] + [c]), "");
    }
    assert [a] + ([b] + [c]) == [] + [a] + [b] + [c];
  }

  lemma RawClaimsAreRead(n: nat)
    ensures ReadValue(RawClaims(n)) == Some((ClaimsTree(OverlongClaims(n)), ""))
  {
    var name, text := "sort_key", Separators(n);
    var sortKey := Member(name, TextTree(text));
    NamesArePlain();
    NamesAreValid("version", name, "id");
    VersionMemberSize();
    IdMemberSize();
    forall tail ensures ReadMember(RawMember(name, text) + ("," + tail)) == Some((sortKey, "," + tail)) {
      SeparatorsAreRead(n, "," + tail);
      RawMemberIsRead(name, text, "," + tail);
    }
    RenderedIsRead(VersionMember());
    LastIsRead(IdMember());
    ThreeAreRead(RenderMember(VersionMember()), VersionMember(), RawMember(name, text), sortKey, RenderMember(IdMember()), IdMember());
    ClaimsMembers(OverlongClaims(n));
  }

  /**
   * Up to 116 line separators are decoded as a sort key. More than 58 of them do not
   * fit the cursor of the very claims that were decoded.
   */
  lemma OverlongExample(n: nat)
    requires 1 <= n <= 116
    ensures DecodedCursor(Base64.Encode(Octets(RawClaims(n)))) == Ok(OverlongClaims(n))
    ensures if n <= 58 then EncodedCursor(OverlongClaims(n)).Ok? else EncodedCursor(OverlongClaims(n)) == Err(CursorTooLong)
  {
    var c := OverlongClaims(n);
    SeparatorsAreValid(n);
    assert Matches(IdentifierPattern, "a") && RuneCount("a") == 1 by { PlainText("a"); }
    RawClaimsSize(n);
    EncodedSize(RawClaims(n));
    OctetsAreDecoded(RawClaims(n));
    RawClaimsAreRead(n);
    TreeIsDecoded(c);
    assert !Frames.More("");
    ValidClaimsFit(c);
  }
}
