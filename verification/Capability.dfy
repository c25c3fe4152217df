/**
 * The session-scoped route capability: a binary payload, its token text, and the
 * mint and verify protocol. The TypeScript half is modelled in full; the Go half
 * shares the layout over raw bytes and differs where the runtimes differ.
 */
module Capability {
  import opened Bytes
  import Base64
  import Strings
  import Utf8

  const SCHEME := "rp1"
  const MAC_DOMAIN := "reviewplane/route-capability/v1"
  const PAYLOAD_VERSION := 1
  const MAX_KEY_ID_LENGTH := 32
  const MAX_IDENTIFIER_LENGTH := 64
  const MIN_SIGNING_KEY_BYTES := 32
  const MAX_TOKEN_LENGTH := 512
  const MAX_SAFE_INTEGER := 9007199254740991
  const MAX_INT64 := 0x7FFF_FFFF_FFFF_FFFF

  datatype Rejection = Malformed | UnsupportedVersion | UnknownKey | BadSignature | Expired

  datatype MintError =
    | ShortKey
    | EmptyField(name: string)
    | LongField(name: string)
    | UnsafeTimestamp
    | NegativeTimestamp
    | ExpiresTooSoon
    | TokenTooLong

  // ----- the payload over raw bytes

  datatype RawClaims = RawClaims(
    keyId: seq<Byte>, capabilityId: seq<Byte>, routeId: seq<Byte>, projectId: seq<Byte>,
    browserSessionId: seq<Byte>, issuedAt: nat, expiresAt: nat)

  /** One length byte, truncated like the source truncates it, and the bytes. */
  function Field(b: seq<Byte>): seq<Byte>
  {
    [|b| % 256] + b
  }

  function Identifiers(c: RawClaims): seq<Byte>
  {
    Field(c.capabilityId) + (Field(c.routeId) + (Field(c.projectId) + Field(c.browserSessionId)))
  }

  function Times(c: RawClaims): seq<Byte>
  {
    BigEndian(c.issuedAt, 8) + BigEndian(c.expiresAt, 8)
  }

  function Layout(c: RawClaims): seq<Byte>
  {
    [PAYLOAD_VERSION] + (Field(c.keyId) + (Times(c) + Identifiers(c)))
  }

  /** A field at the start of the text, and what follows it. */
  function ReadField(s: seq<Byte>): (r: Option<(seq<Byte>, seq<Byte>)>)
    ensures r.Some? ==> |r.value.0| < 256 && Field(r.value.0) + r.value.1 == s
  {
    if s == [] || 1 + s[0] > |s| then None
    else Some((s[1..1 + s[0]], s[1 + s[0]..]))
  }

  lemma ReadWrittenField(b: seq<Byte>, tail: seq<Byte>)
    requires |b| < 256
    ensures ReadField(Field(b) + tail) == Some((b, tail))
  {
    var s := Field(b) + tail;
    assert s[0] == |b|;
    assert s[1..1 + |b|] == b;
    assert s[1 + |b|..] == tail;
  }

  /** The four identifiers that end a payload. */
  function ParseIdentifiers(s: seq<Byte>): Option<(seq<Byte>, seq<Byte>, seq<Byte>, seq<Byte>)>
  {
    match ReadField(s)
    case None => None
    case Some((capabilityId, s1)) => match ReadField(s1)
      case None => None
      case Some((routeId, s2)) => match ReadField(s2)
        case None => None
        case Some((projectId, s3)) => match ReadField(s3)
          case None => None
          case Some((browserSessionId, s4)) =>
            if s4 != [] then None else Some((capabilityId, routeId, projectId, browserSessionId))
  }

  function ParseRaw(payload: seq<Byte>): Result<RawClaims, Rejection>
  {
    if payload == [] then Err(Malformed)
    else if payload[0] != PAYLOAD_VERSION then Err(UnsupportedVersion)
    else match ReadField(payload[1..])
      case None => Err(Malformed)
      case Some((keyId, times)) =>
        if |times| < 16 then Err(Malformed)
        else match ParseIdentifiers(times[16..])
          case None => Err(Malformed)
          case Some((capabilityId, routeId, projectId, browserSessionId)) =>
            Ok(RawClaims(keyId, capabilityId, routeId, projectId, browserSessionId,
                         FromBigEndian(times[..8]), FromBigEndian(times[8..16])))
  }

  /** What the layout has room for. */
  predicate Fits(c: RawClaims)
  {
    && |c.keyId| < 256 && |c.capabilityId| < 256 && |c.routeId| < 256
    && |c.projectId| < 256 && |c.browserSessionId| < 256
    && c.issuedAt < Pow256(8) && c.expiresAt < Pow256(8)
  }

  lemma ParseOfIdentifiers(c: RawClaims)
    requires Fits(c)
    ensures ParseIdentifiers(Identifiers(c)) == Some((c.capabilityId, c.routeId, c.projectId, c.browserSessionId))
  {
    var s3 := Field(c.browserSessionId);
    var s2 := Field(c.projectId) + s3;
    ReadWrittenField(c.capabilityId, Field(c.routeId) + s2);
    ReadWrittenField(c.routeId, s2);
    ReadWrittenField(c.projectId, s3);
    ReadWrittenField(c.browserSessionId, []);
    assert s3 + [] == s3;
  }

  lemma ParseOfLayout(c: RawClaims)
    requires Fits(c)
    ensures ParseRaw(Layout(c)) == Ok(c)
  {
    var rest := Times(c) + Identifiers(c);
    assert Layout(c)[1..] == Field(c.keyId) + rest;
    ReadWrittenField(c.keyId, rest);
    assert rest[..8] == BigEndian(c.issuedAt, 8);
    assert rest[8..16] == BigEndian(c.expiresAt, 8);
    assert rest[16..] == Identifiers(c);
    FromBigEndianOfBigEndian(c.issuedAt, 8);
    FromBigEndianOfBigEndian(c.expiresAt, 8);
    ParseOfIdentifiers(c);
  }

  lemma IdentifiersOfParse(s: seq<Byte>, c: RawClaims)
    requires ParseIdentifiers(s) == Some((c.capabilityId, c.routeId, c.projectId, c.browserSessionId))
    ensures Identifiers(c) == s
    ensures |c.capabilityId| < 256 && |c.routeId| < 256 && |c.projectId| < 256 && |c.browserSessionId| < 256
  {
    var s1 := ReadField(s).value.1;
    var s2 := ReadField(s1).value.1;
    var s3 := ReadField(s2).value.1;
    assert ReadField(s3).value.1 == [];
    assert s3 == Field(c.browserSessionId);
  }

  lemma LayoutOfParse(payload: seq<Byte>)
    requires ParseRaw(payload).Ok?
    ensures Fits(ParseRaw(payload).value)
    ensures Layout(ParseRaw(payload).value) == payload
  {
    var c := ParseRaw(payload).value;
    var rest := PartsOfParse(payload);
    TimesOfParse(rest[..8], rest[8..16], c);
    IdentifiersOfParse(rest[16..], c);
    LayoutJoins(c, payload, rest);
  }

  lemma PartsOfParse(payload: seq<Byte>) returns (rest: seq<Byte>)
    requires ParseRaw(payload).Ok?
    ensures payload != [] && payload[0] == PAYLOAD_VERSION
    ensures var c := ParseRaw(payload).value;
            && |c.keyId| < 256 && payload[1..] == Field(c.keyId) + rest && |rest| >= 16
            && c.issuedAt == FromBigEndian(rest[..8]) && c.expiresAt == FromBigEndian(rest[8..16])
            && ParseIdentifiers(rest[16..]) == Some((c.capabilityId, c.routeId, c.projectId, c.browserSessionId))
  {
    rest := ReadField(payload[1..]).value.1;
  }

  lemma LayoutJoins(c: RawClaims, payload: seq<Byte>, rest: seq<Byte>)
    requires payload != [] && payload[0] == PAYLOAD_VERSION && |rest| >= 16
    requires |c.keyId| < 256 && payload[1..] == Field(c.keyId) + rest
    requires Times(c) == rest[..8] + rest[8..16] && Identifiers(c) == rest[16..]
    ensures Layout(c) == payload
  {
    CutInThree(rest);
    assert [payload[0]] + payload[1..] == payload;
  }

  lemma CutInThree(rest: seq<Byte>)
    requires |rest| >= 16
    ensures rest[..8] + rest[8..16] + rest[16..] == rest
  {
  }

  lemma TimesOfParse(a: seq<Byte>, b: seq<Byte>, c: RawClaims)
    requires |a| == 8 && |b| == 8 && c.issuedAt == FromBigEndian(a) && c.expiresAt == FromBigEndian(b)
    ensures Times(c) == a + b && c.issuedAt < Pow256(8) && c.expiresAt < Pow256(8)
  {
    BigEndianOfFromBigEndian(a);
    BigEndianOfFromBigEndian(b);
  }

  // ----- the TypeScript claims

  type JsString = seq<Utf8.CodeUnit>

  datatype Claims = Claims(
    keyId: JsString, capabilityId: JsString, routeId: JsString, projectId: JsString,
    browserSessionId: JsString, issuedAt: int, expiresAt: int)

  /** No text field carries a lone surrogate. */
  predicate WellFormed(c: Claims)
  {
    && Utf8.WellFormed(c.keyId) && Utf8.WellFormed(c.capabilityId) && Utf8.WellFormed(c.routeId)
    && Utf8.WellFormed(c.projectId) && Utf8.WellFormed(c.browserSessionId)
  }

  function ToRaw(c: Claims): RawClaims
    requires c.issuedAt >= 0 && c.expiresAt >= 0
  {
    RawClaims(Utf8.Encode(c.keyId), Utf8.Encode(c.capabilityId), Utf8.Encode(c.routeId),
              Utf8.Encode(c.projectId), Utf8.Encode(c.browserSessionId), c.issuedAt, c.expiresAt)
  }

  function FromRaw(c: RawClaims): Claims
  {
    Claims(Utf8.Decode(c.keyId), Utf8.Decode(c.capabilityId), Utf8.Decode(c.routeId),
           Utf8.Decode(c.projectId), Utf8.Decode(c.browserSessionId), c.issuedAt, c.expiresAt)
  }

  function BoundField(name: string, value: JsString, maximum: nat): Option<MintError>
  {
    if value == [] then Some(EmptyField(name))
    else if |Utf8.Encode(value)| > maximum then Some(LongField(name))
    else None
  }

  function BoundFields(c: Claims): Option<MintError>
  {
    var e1 := BoundField("key_id", c.keyId, MAX_KEY_ID_LENGTH);
    var e2 := BoundField("capability_id", c.capabilityId, MAX_IDENTIFIER_LENGTH);
    var e3 := BoundField("route_id", c.routeId, MAX_IDENTIFIER_LENGTH);
    var e4 := BoundField("project_id", c.projectId, MAX_IDENTIFIER_LENGTH);
    if e1.Some? then e1 else if e2.Some? then e2 else if e3.Some? then e3 else if e4.Some? then e4
    else BoundField("browser_session_id", c.browserSessionId, MAX_IDENTIFIER_LENGTH)
  }

  predicate IsSafe(n: int)
  {
    -MAX_SAFE_INTEGER <= n <= MAX_SAFE_INTEGER
  }

  function EncodePayload(c: Claims): (r: Result<seq<Byte>, MintError>)
  {
    if BoundFields(c).Some? then Err(BoundFields(c).value)
    else if !IsSafe(c.issuedAt) || !IsSafe(c.expiresAt) then Err(UnsafeTimestamp)
    else if c.issuedAt < 0 || c.expiresAt < 0 then Err(NegativeTimestamp)
    else if c.expiresAt <= c.issuedAt then Err(ExpiresTooSoon)
    else Ok(Layout(ToRaw(c)))
  }

  function DecodePayload(payload: seq<Byte>): Result<Claims, Rejection>
  {
    match ParseRaw(payload)
    case Err(e) => Err(e)
    case Ok(raw) =>
      if !IsSafe(raw.issuedAt) || !IsSafe(raw.expiresAt) then Err(Malformed) else Ok(FromRaw(raw))
  }

  // ----- the loops that write and read a payload

  /** The bits above the lowest `count` bytes. */
  function ShiftRight(n: nat, count: nat): nat
  {
    if count == 0 then n else ShiftRight(n, count - 1) / 256
  }

  method AppendField(parts: seq<Byte>, value: JsString) returns (out: seq<Byte>)
    ensures out == parts + Field(Utf8.Encode(value))
  {
    var bytes := Utf8.Encode(value);
    out := parts + [|bytes| % 256];
    ghost var before := out;
    for i := 0 to |bytes|
      invariant out == before + bytes[..i]
    {
      out := out + [bytes[i]];
    }
    assert bytes[..|bytes|] == bytes;
  }

  /** The byte at each shift from 56 down to 0. */
  method AppendUint64(parts: seq<Byte>, value: nat) returns (out: seq<Byte>)
    ensures out == parts + BigEndian(value, 8)
  {
    out := parts;
    var shift := 8;
    while shift > 0
      invariant 0 <= shift <= 8
      invariant out == parts + BigEndian(ShiftRight(value, shift), 8 - shift)
    {
      shift := shift - 1;
      out := out + [ShiftRight(value, shift) % 256];
    }
  }

  method EncodeCapabilityPayload(claims: Claims) returns (r: Result<seq<Byte>, MintError>)
    ensures r == EncodePayload(claims)
  {
    var bad := BoundFields(claims);
    if bad.Some? {
      return Err(bad.value);
    }
    if !IsSafe(claims.issuedAt) || !IsSafe(claims.expiresAt) {
      return Err(UnsafeTimestamp);
    }
    if claims.issuedAt < 0 || claims.expiresAt < 0 {
      return Err(NegativeTimestamp);
    }
    if claims.expiresAt <= claims.issuedAt {
      return Err(ExpiresTooSoon);
    }
    var parts: seq<Byte> := [PAYLOAD_VERSION];
    parts := AppendField(parts, claims.keyId);
    parts := AppendUint64(parts, claims.issuedAt);
    parts := AppendUint64(parts, claims.expiresAt);
    parts := AppendField(parts, claims.capabilityId);
    parts := AppendField(parts, claims.routeId);
    parts := AppendField(parts, claims.projectId);
    parts := AppendField(parts, claims.browserSessionId);
    LayoutInOrder(ToRaw(claims));
    r := Ok(parts);
  }

  lemma LayoutInOrder(c: RawClaims)
    ensures Layout(c) ==
            [PAYLOAD_VERSION] + Field(c.keyId) + BigEndian(c.issuedAt, 8) + BigEndian(c.expiresAt, 8) +
            Field(c.capabilityId) + Field(c.routeId) + Field(c.projectId) + Field(c.browserSessionId)
  {
    var head := [PAYLOAD_VERSION] + Field(c.keyId) + BigEndian(c.issuedAt, 8) + BigEndian(c.expiresAt, 8);
    assert Layout(c) == head + Identifiers(c);
    Regroup(head, Field(c.capabilityId), Field(c.routeId), Field(c.projectId), Field(c.browserSessionId));
  }

  lemma Regroup<T>(a: seq<T>, b: seq<T>, c: seq<T>, d: seq<T>, e: seq<T>)
    ensures a + (b + (c + (d + e))) == a + b + c + d + e
  {
    assert a + (b + (c + (d + e))) == (a + b) + (c + (d + e));
    assert (a + b) + (c + (d + e)) == (a + b + c) + (d + e);
  }

  method ReadFieldAt(payload: seq<Byte>, cursor: nat) returns (r: Option<(seq<Byte>, nat)>)
    requires cursor <= |payload|
    ensures r.Some? <==> ReadField(payload[cursor..]).Some?
    ensures r.Some? ==> r.value.1 <= |payload| &&
                        ReadField(payload[cursor..]).value == (r.value.0, payload[r.value.1..])
  {
    if cursor >= |payload| {
      return None;
    }
    var length := payload[cursor];
    var start := cursor + 1;
    if start + length > |payload| {
      return None;
    }
    assert payload[cursor..][1..1 + length] == payload[start..start + length];
    assert payload[cursor..][1 + length..] == payload[start + length..];
    r := Some((payload[start..start + length], start + length));
  }

  method ReadUint64(payload: seq<Byte>, cursor: nat) returns (value: nat)
    requires cursor + 8 <= |payload|
    ensures value == FromBigEndian(payload[cursor..cursor + 8])
  {
    value := 0;
    for index := 0 to 8
      invariant value == FromBigEndian(payload[cursor..cursor + index])
    {
      var next := payload[cursor..cursor + index + 1];
      assert next[..index] == payload[cursor..cursor + index];
      value := value * 256 + payload[cursor + index];
    }
  }

  /** The four identifiers, which must end the payload. */
  method ReadIdentifiers(payload: seq<Byte>, cursor: nat)
    returns (r: Option<(seq<Byte>, seq<Byte>, seq<Byte>, seq<Byte>)>)
    requires cursor <= |payload|
    ensures r == ParseIdentifiers(payload[cursor..])
  {
    var capabilityId := ReadFieldAt(payload, cursor);
    if capabilityId.None? {
      return None;
    }
    var routeId := ReadFieldAt(payload, capabilityId.value.1);
    if routeId.None? {
      return None;
    }
    var projectId := ReadFieldAt(payload, routeId.value.1);
    if projectId.None? {
      return None;
    }
    var browserSessionId := ReadFieldAt(payload, projectId.value.1);
    if browserSessionId.None? || browserSessionId.value.1 != |payload| {
      return None;
    }
    r := Some((capabilityId.value.0, routeId.value.0, projectId.value.0, browserSessionId.value.0));
  }

  method DecodeCapabilityPayload(payload: seq<Byte>) returns (r: Result<Claims, Rejection>)
    ensures r == DecodePayload(payload)
  {
    if |payload| < 1 {
      return Err(Malformed);
    }
    if payload[0] != PAYLOAD_VERSION {
      return Err(UnsupportedVersion);
    }
    var cursor := 1;
    var keyId := ReadFieldAt(payload, cursor);
    if keyId.None? {
      return Err(Malformed);
    }
    cursor := keyId.value.1;
    ghost var times := payload[cursor..];
    if cursor + 16 > |payload| {
      return Err(Malformed);
    }
    var issuedAt := ReadUint64(payload, cursor);
    var expiresAt := ReadUint64(payload, cursor + 8);
    assert times[..8] == payload[cursor..cursor + 8];
    assert times[8..16] == payload[cursor + 8..cursor + 16];
    assert times[16..] == payload[cursor + 16..];
    cursor := cursor + 16;
    var identifiers := ReadIdentifiers(payload, cursor);
    if identifiers.None? {
      return Err(Malformed);
    }
    var (capabilityId, routeId, projectId, browserSessionId) := identifiers.value;
    var raw := RawClaims(keyId.value.0, capabilityId, routeId, projectId, browserSessionId, issuedAt, expiresAt);
    assert ParseRaw(payload) == Ok(raw);
    if !IsSafe(issuedAt) || !IsSafe(expiresAt) {
      return Err(Malformed);
    }
    r := Ok(FromRaw(raw));
  }

  // ----- the payload codec is exact

  /** The claims a verifier reads back: lone surrogates have become U+FFFD. */
  function Repaired(c: Claims): Claims
  {
    Claims(Utf8.Decode(Utf8.Encode(c.keyId)), Utf8.Decode(Utf8.Encode(c.capabilityId)),
           Utf8.Decode(Utf8.Encode(c.routeId)), Utf8.Decode(Utf8.Encode(c.projectId)),
           Utf8.Decode(Utf8.Encode(c.browserSessionId)), c.issuedAt, c.expiresAt)
  }

  lemma RepairedIsExact(c: Claims)
    ensures Repaired(c) == c <==> WellFormed(c)
  {
    Utf8.DecodeEncode(c.keyId);
    Utf8.DecodeEncode(c.capabilityId);
    Utf8.DecodeEncode(c.routeId);
    Utf8.DecodeEncode(c.projectId);
    Utf8.DecodeEncode(c.browserSessionId);
  }

  lemma EncodedPayloadFits(c: Claims)
    requires EncodePayload(c).Ok?
    ensures c.issuedAt >= 0 && c.expiresAt >= 0 && Fits(ToRaw(c))
    ensures |EncodePayload(c).value| <= 310
  {
    assert Pow256(8) == 0x1_0000_0000_0000_0000;
  }

  lemma DecodeOfLayout(raw: RawClaims)
    requires Fits(raw) && IsSafe(raw.issuedAt) && IsSafe(raw.expiresAt)
    ensures DecodePayload(Layout(raw)) == Ok(FromRaw(raw))
  {
    ParseOfLayout(raw);
  }

  /** Every payload that is written reads back; the claims come back unchanged exactly when well formed. */
  lemma PayloadRoundTrip(c: Claims)
    requires EncodePayload(c).Ok?
    ensures DecodePayload(EncodePayload(c).value) == Ok(Repaired(c))
    ensures DecodePayload(EncodePayload(c).value) == Ok(c) <==> WellFormed(c)
  {
    EncodedPayloadFits(c);
    EncodedIsLayout(c);
    DecodeOfLayout(ToRaw(c));
    RawIsRepaired(c);
    RepairedIsExact(c);
  }

  lemma EncodedIsLayout(c: Claims)
    requires EncodePayload(c).Ok?
    ensures c.issuedAt >= 0 && c.expiresAt >= 0 && IsSafe(c.issuedAt) && IsSafe(c.expiresAt)
    ensures EncodePayload(c).value == Layout(ToRaw(c))
  {
  }

  lemma RawIsRepaired(c: Claims)
    requires c.issuedAt >= 0 && c.expiresAt >= 0
    ensures FromRaw(ToRaw(c)) == Repaired(c)
  {
  }

  predicate ValidText(c: RawClaims)
  {
    && Utf8.Valid(c.keyId) && Utf8.Valid(c.capabilityId) && Utf8.Valid(c.routeId)
    && Utf8.Valid(c.projectId) && Utf8.Valid(c.browserSessionId)
  }

  function LayoutLength(c: RawClaims): nat
  {
    22 + |c.keyId| + |c.capabilityId| + |c.routeId| + |c.projectId| + |c.browserSessionId|
  }

  lemma LengthOfLayout(c: RawClaims)
    ensures |Layout(c)| == LayoutLength(c)
  {
  }

  /**
   * Laying the claims of an accepted payload out again gives that payload byte
   * for byte exactly when its text fields are well-formed UTF-8. Otherwise the
   * reader has replaced bytes, and the claims lay out differently.
   */
  lemma RelayoutIsExact(payload: seq<Byte>)
    requires DecodePayload(payload).Ok?
    ensures Layout(ToRaw(DecodePayload(payload).value)) == payload <==> ValidText(ParseRaw(payload).value)
  {
    var raw := ParseRaw(payload).value;
    var again := ToRaw(FromRaw(raw));
    LayoutOfParse(payload);
    Utf8.EncodeDecode(raw.keyId);
    Utf8.EncodeDecode(raw.capabilityId);
    Utf8.EncodeDecode(raw.routeId);
    Utf8.EncodeDecode(raw.projectId);
    Utf8.EncodeDecode(raw.browserSessionId);
    if Layout(again) == payload {
      LengthOfLayout(raw);
      LengthOfLayout(again);
      ParseOfLayout(again);
    }
  }

  // ----- mint and verify

  type Digest = s: seq<Byte> | |s| == 32 witness seq(32, _ => 0)

  /** HMAC-SHA-256, of which only the digest size is known. */
  type Hmac = (seq<Byte>, seq<Byte>) -> Digest

  function AsciiBytes(s: string): seq<Byte>
  {
    seq(|s|, i requires 0 <= i < |s| => s[i] as int % 256)
  }

  function CapabilityMac(hmac: Hmac, key: seq<Byte>, payload: seq<Byte>): Digest
  {
    hmac(key, AsciiBytes(MAC_DOMAIN) + payload)
  }

  function TokenText(payload: seq<Byte>, mac: seq<Byte>): string
  {
    SCHEME + "." + Base64.Encode(payload) + "." + Base64.Encode(mac)
  }

  function SignedToken(hmac: Hmac, key: seq<Byte>, payload: seq<Byte>): string
  {
    TokenText(payload, CapabilityMac(hmac, key, payload))
  }

  function MintCapability(hmac: Hmac, key: seq<Byte>, claims: Claims): Result<string, MintError>
  {
    if |key| < MIN_SIGNING_KEY_BYTES then Err(ShortKey)
    else match EncodePayload(claims)
      case Err(e) => Err(e)
      case Ok(payload) =>
        var token := SignedToken(hmac, key, payload);
        if |token| > MAX_TOKEN_LENGTH then Err(TokenTooLong) else Ok(token)
  }

  type Keyring = map<JsString, seq<Byte>>

  function VerifyCapability(hmac: Hmac, keys: Keyring, token: string, now: int): Result<Claims, Rejection>
  {
    if |token| > MAX_TOKEN_LENGTH then Err(Malformed)
    else
      var parts := Strings.Split(token, '.');
      if |parts| != 3 || parts[0] != SCHEME then Err(Malformed)
      else match Base64.DecodeExact(parts[1])
        case None => Err(Malformed)
        case Some(payload) => match Base64.DecodeExact(parts[2])
          case None => Err(Malformed)
          case Some(mac) => match DecodePayload(payload)
            case Err(e) => Err(e)
            case Ok(claims) =>
              if claims.keyId !in keys || |keys[claims.keyId]| < MIN_SIGNING_KEY_BYTES then Err(UnknownKey)
              else if mac != CapabilityMac(hmac, keys[claims.keyId], payload) then Err(BadSignature)
              else if now >= claims.expiresAt then Err(Expired)
              else Ok(claims)
  }

  lemma TokenSplits(payload: seq<Byte>, mac: seq<Byte>)
    ensures Strings.Split(TokenText(payload, mac), '.') == [SCHEME, Base64.Encode(payload), Base64.Encode(mac)]
  {
    Strings.SplitThree(SCHEME, Base64.Encode(payload), Base64.Encode(mac), '.');
  }

  lemma SplitTokenJoins(token: string, payload: seq<Byte>, mac: seq<Byte>)
    requires Strings.Split(token, '.') == [SCHEME, Base64.Encode(payload), Base64.Encode(mac)]
    ensures token == TokenText(payload, mac)
  {
    Strings.ThreeJoin(token, SCHEME, Base64.Encode(payload), Base64.Encode(mac), '.');
  }

  /** Every token that can be minted is at most 462 characters, so the length check never refuses one. */
  lemma MintNeverTooLong(hmac: Hmac, key: seq<Byte>, claims: Claims)
    ensures MintCapability(hmac, key, claims) != Err(TokenTooLong)
    ensures MintCapability(hmac, key, claims).Ok? ==> |MintCapability(hmac, key, claims).value| <= 462
    ensures MintCapability(hmac, key, claims).Ok? <==> |key| >= MIN_SIGNING_KEY_BYTES && EncodePayload(claims).Ok?
  {
    if EncodePayload(claims).Ok? {
      EncodedPayloadFits(claims);
    }
  }

  /** The payload a token was built on. */
  ghost predicate Authentic(hmac: Hmac, keys: Keyring, token: string, payload: seq<Byte>, claims: Claims)
  {
    && DecodePayload(payload) == Ok(claims)
    && claims.keyId in keys && |keys[claims.keyId]| >= MIN_SIGNING_KEY_BYTES
    && token == SignedToken(hmac, keys[claims.keyId], payload)
  }

  lemma AcceptedIsAuthentic(hmac: Hmac, keys: Keyring, token: string, now: int, claims: Claims)
    returns (payload: seq<Byte>)
    requires VerifyCapability(hmac, keys, token, now) == Ok(claims)
    ensures |token| <= MAX_TOKEN_LENGTH && now < claims.expiresAt
    ensures Authentic(hmac, keys, token, payload, claims)
  {
    var parts := Strings.Split(token, '.');
    var mac: seq<Byte>;
    payload, mac := AcceptedParts(hmac, keys, token, now, claims);
    Base64.DecodeExactIsInverse(parts[1], payload);
    Base64.DecodeExactIsInverse(parts[2], mac);
    assert parts == [SCHEME, Base64.Encode(payload), Base64.Encode(mac)];
    SplitTokenJoins(token, payload, mac);
  }

  lemma AcceptedParts(hmac: Hmac, keys: Keyring, token: string, now: int, claims: Claims)
    returns (payload: seq<Byte>, mac: seq<Byte>)
    requires VerifyCapability(hmac, keys, token, now) == Ok(claims)
    ensures |token| <= MAX_TOKEN_LENGTH && now < claims.expiresAt
    ensures var parts := Strings.Split(token, '.');
            && |parts| == 3 && parts[0] == SCHEME
            && Base64.DecodeExact(parts[1]) == Some(payload) && Base64.DecodeExact(parts[2]) == Some(mac)
    ensures DecodePayload(payload) == Ok(claims)
    ensures claims.keyId in keys && |keys[claims.keyId]| >= MIN_SIGNING_KEY_BYTES
    ensures mac == CapabilityMac(hmac, keys[claims.keyId], payload)
  {
    var parts := Strings.Split(token, '.');
    payload := Base64.DecodeExact(parts[1]).value;
    mac := Base64.DecodeExact(parts[2]).value;
  }

  /** What a verifier answers for the signed token of a payload it can read. */
  lemma SignedTokenVerifies(hmac: Hmac, keys: Keyring, payload: seq<Byte>, now: int)
    requires DecodePayload(payload).Ok?
    requires var c := DecodePayload(payload).value; c.keyId in keys && |keys[c.keyId]| >= MIN_SIGNING_KEY_BYTES
    ensures var c := DecodePayload(payload).value;
            var token := SignedToken(hmac, keys[c.keyId], payload);
            |token| <= MAX_TOKEN_LENGTH ==>
            VerifyCapability(hmac, keys, token, now) == if now < c.expiresAt then Ok(c) else Err(Expired)
  {
    var mac := CapabilityMac(hmac, keys[DecodePayload(payload).value.keyId], payload);
    TokenSplits(payload, mac);
    Base64.DecodeExactIsInverse(Base64.Encode(payload), payload);
    Base64.DecodeExactIsInverse(Base64.Encode(mac), mac);
  }

  /**
   * Verification is sound and complete: a token is accepted exactly when it is,
   * character for character, the signed token of a payload under the key that the
   * payload names, is within the bound, and has not expired.
   */
  lemma VerifyExactly(hmac: Hmac, keys: Keyring, token: string, now: int, claims: Claims)
    ensures VerifyCapability(hmac, keys, token, now) == Ok(claims) <==>
            && |token| <= MAX_TOKEN_LENGTH
            && now < claims.expiresAt
            && exists payload :: Authentic(hmac, keys, token, payload, claims)
  {
    if VerifyCapability(hmac, keys, token, now) == Ok(claims) {
      var payload := AcceptedIsAuthentic(hmac, keys, token, now, claims);
    }
    if |token| <= MAX_TOKEN_LENGTH && now < claims.expiresAt &&
       exists payload :: Authentic(hmac, keys, token, payload, claims) {
      var payload :| Authentic(hmac, keys, token, payload, claims);
      SignedTokenVerifies(hmac, keys, payload, now);
    }
  }

  /**
   * A minted token verifies at every instant before it expires, and at no later
   * one, under any keyring that maps the key identifier it carries to the minting
   * key. It verifies to the minted claims exactly when they were well formed.
   */
  lemma MintedVerifies(hmac: Hmac, key: seq<Byte>, claims: Claims, keys: Keyring, now: int)
    requires MintCapability(hmac, key, claims).Ok?
    requires Repaired(claims).keyId in keys && keys[Repaired(claims).keyId] == key
    ensures VerifyCapability(hmac, keys, MintCapability(hmac, key, claims).value, now) ==
            if now < claims.expiresAt then Ok(Repaired(claims)) else Err(Expired)
    ensures Repaired(claims) == claims <==> WellFormed(claims)
  {
    PayloadRoundTrip(claims);
    RepairedIsExact(claims);
    SignedTokenVerifies(hmac, keys, EncodePayload(claims).value, now);
  }

  /**
   * An authentic token is the one token of the claims it verifies to, laid out
   * again and signed again, exactly when its payload's text is well-formed UTF-8.
   * So two such tokens with the same claims are the same text.
   */
  lemma TokenIsUnique(hmac: Hmac, keys: Keyring, token: string, payload: seq<Byte>, claims: Claims)
    requires Authentic(hmac, keys, token, payload, claims)
    ensures token == SignedToken(hmac, keys[claims.keyId], Layout(ToRaw(claims))) <==>
            ValidText(ParseRaw(payload).value)
  {
    var key, again := keys[claims.keyId], Layout(ToRaw(claims));
    RelayoutIsExact(payload);
    if token == SignedToken(hmac, key, again) {
      SameTokenSamePayload(payload, CapabilityMac(hmac, key, payload), again, CapabilityMac(hmac, key, again));
    }
  }

  lemma SameTokenSamePayload(a: seq<Byte>, macA: seq<Byte>, b: seq<Byte>, macB: seq<Byte>)
    requires TokenText(a, macA) == TokenText(b, macB)
    ensures a == b
  {
    TokenSplits(a, macA);
    TokenSplits(b, macB);
    assert [SCHEME, Base64.Encode(a), Base64.Encode(macA)][1] == [SCHEME, Base64.Encode(b), Base64.Encode(macB)][1];
    Base64.DecodeExactIsInverse(Base64.Encode(a), a);
    Base64.DecodeExactIsInverse(Base64.Encode(b), b);
  }

  /** Claims that do not come back unchanged, and an accepted payload that is not laid out again. */
  lemma InexactExamples()
    ensures var c := Claims([0xD800], [97], [97], [97], [97], 0, 1);
            EncodePayload(c).Ok? && DecodePayload(EncodePayload(c).value) != Ok(c)
    ensures var payload := Layout(RawClaims([0xFF], [97], [97], [97], [97], 0, 1));
            DecodePayload(payload).Ok? && Layout(ToRaw(DecodePayload(payload).value)) != payload
  {
    var c := Claims([0xD800], [97], [97], [97], [97], 0, 1);
    PayloadRoundTrip(c);
    var raw := RawClaims([0xFF], [97], [97], [97], [97], 0, 1);
    assert Pow256(8) > 1;
    DecodeOfLayout(raw);
    ParseOfLayout(raw);
    RelayoutIsExact(Layout(raw));
    assert !Utf8.Valid([0xFF]);
  }

  // ----- the Go half: raw bytes, 64-bit signed times, a lax base64 reader

  function GoDecodePayload(payload: seq<Byte>): Result<RawClaims, Rejection>
  {
    match ParseRaw(payload)
    case Err(e) => Err(e)
    case Ok(raw) => if raw.issuedAt > MAX_INT64 || raw.expiresAt > MAX_INT64 then Err(Malformed) else Ok(raw)
  }

  /** What the Go encoder lets through. */
  predicate GoMintable(c: RawClaims)
  {
    && 0 < |c.keyId| <= MAX_KEY_ID_LENGTH
    && 0 < |c.capabilityId| <= MAX_IDENTIFIER_LENGTH && 0 < |c.routeId| <= MAX_IDENTIFIER_LENGTH
    && 0 < |c.projectId| <= MAX_IDENTIFIER_LENGTH && 0 < |c.browserSessionId| <= MAX_IDENTIFIER_LENGTH
    && c.issuedAt < c.expiresAt <= MAX_INT64
  }

  /** Over raw bytes the codec is exact both ways, with no condition on the text. */
  lemma GoPayloadIsExact(c: RawClaims, payload: seq<Byte>)
    ensures GoMintable(c) ==> GoDecodePayload(Layout(c)) == Ok(c)
    ensures GoDecodePayload(payload).Ok? ==> Layout(GoDecodePayload(payload).value) == payload
  {
    if GoMintable(c) {
      assert Pow256(8) == 0x1_0000_0000_0000_0000;
      ParseOfLayout(c);
    }
    if GoDecodePayload(payload).Ok? {
      LayoutOfParse(payload);
    }
  }

  function GoVerify(hmac: Hmac, keys: map<seq<Byte>, seq<Byte>>, token: string, now: int): Result<RawClaims, Rejection>
  {
    if |token| > MAX_TOKEN_LENGTH then Err(Malformed) else GoVerifyParts(hmac, keys, Strings.Split(token, '.'), now)
  }

  function GoVerifyParts(hmac: Hmac, keys: map<seq<Byte>, seq<Byte>>, parts: seq<string>, now: int)
    : Result<RawClaims, Rejection>
  {
    if |parts| != 3 || parts[0] != SCHEME then Err(Malformed)
    else match Base64.DecodeLax(parts[1])
      case None => Err(Malformed)
      case Some(payload) => match Base64.DecodeLax(parts[2])
        case None => Err(Malformed)
        case Some(mac) => match GoDecodePayload(payload)
          case Err(e) => Err(e)
          case Ok(claims) =>
            if claims.keyId !in keys || |keys[claims.keyId]| < MIN_SIGNING_KEY_BYTES then Err(UnknownKey)
            else if mac != CapabilityMac(hmac, keys[claims.keyId], payload) then Err(BadSignature)
            else if now >= claims.expiresAt then Err(Expired)
            else Ok(claims)
  }

  /**
   * The Go verifier accepts only what carries the signature of the one layout of
   * the claims it returns. A token minted for mintable claims is accepted until it
   * expires.
   */
  lemma GoVerifyIsSound(hmac: Hmac, keys: map<seq<Byte>, seq<Byte>>, token: string, now: int)
    requires GoVerify(hmac, keys, token, now).Ok?
    ensures var c := GoVerify(hmac, keys, token, now).value;
            && c.keyId in keys && |keys[c.keyId]| >= MIN_SIGNING_KEY_BYTES
            && now < c.expiresAt
            && Base64.DecodeLax(Strings.Split(token, '.')[1]) == Some(Layout(c))
            && Base64.DecodeLax(Strings.Split(token, '.')[2]) == Some(CapabilityMac(hmac, keys[c.keyId], Layout(c)))
  {
    LayoutOfParse(Base64.DecodeLax(Strings.Split(token, '.')[1]).value);
  }

  /** The three parts of a token, as the Go verifier reads them. */
  predicate GoAuthentic(hmac: Hmac, keys: map<seq<Byte>, seq<Byte>>, parts: seq<string>, c: RawClaims)
  {
    && |parts| == 3 && parts[0] == SCHEME
    && c.keyId in keys && |keys[c.keyId]| >= MIN_SIGNING_KEY_BYTES
    && Base64.DecodeLax(parts[1]) == Some(Layout(c))
    && Base64.DecodeLax(parts[2]) == Some(CapabilityMac(hmac, keys[c.keyId], Layout(c)))
  }

  /** The Go verifier accepts exactly the tokens whose parts its decoder reads as a layout and its signature. */
  lemma GoVerifyExactly(hmac: Hmac, keys: map<seq<Byte>, seq<Byte>>, token: string, now: int, c: RawClaims)
    ensures GoVerify(hmac, keys, token, now) == Ok(c) <==>
            && |token| <= MAX_TOKEN_LENGTH && now < c.expiresAt
            && Fits(c) && c.issuedAt <= MAX_INT64 && c.expiresAt <= MAX_INT64
            && GoAuthentic(hmac, keys, Strings.Split(token, '.'), c)
  {
    GoPartsExactly(hmac, keys, Strings.Split(token, '.'), now, c);
  }

  lemma GoPartsExactly(hmac: Hmac, keys: map<seq<Byte>, seq<Byte>>, parts: seq<string>, now: int, c: RawClaims)
    ensures GoVerifyParts(hmac, keys, parts, now) == Ok(c) <==>
            && now < c.expiresAt && Fits(c) && c.issuedAt <= MAX_INT64 && c.expiresAt <= MAX_INT64
            && GoAuthentic(hmac, keys, parts, c)
  {
    GoAcceptedParts(hmac, keys, parts, now, c);
    GoAuthenticParts(hmac, keys, parts, now, c);
  }

  lemma GoAcceptedParts(hmac: Hmac, keys: map<seq<Byte>, seq<Byte>>, parts: seq<string>, now: int, c: RawClaims)
    ensures GoVerifyParts(hmac, keys, parts, now) == Ok(c) ==>
            && now < c.expiresAt && Fits(c) && c.issuedAt <= MAX_INT64 && c.expiresAt <= MAX_INT64
            && GoAuthentic(hmac, keys, parts, c)
  {
    if GoVerifyParts(hmac, keys, parts, now) == Ok(c) {
      LayoutOfParse(Base64.DecodeLax(parts[1]).value);
    }
  }

  lemma GoAuthenticParts(hmac: Hmac, keys: map<seq<Byte>, seq<Byte>>, parts: seq<string>, now: int, c: RawClaims)
    ensures now < c.expiresAt && Fits(c) && c.issuedAt <= MAX_INT64 && c.expiresAt <= MAX_INT64 &&
            GoAuthentic(hmac, keys, parts, c) ==>
            GoVerifyParts(hmac, keys, parts, now) == Ok(c)
  {
    if Fits(c) && c.issuedAt <= MAX_INT64 && c.expiresAt <= MAX_INT64 && GoAuthentic(hmac, keys, parts, c) {
      GoDecodesLayout(c);
    }
  }

  lemma GoDecodesLayout(c: RawClaims)
    requires Fits(c) && c.issuedAt <= MAX_INT64 && c.expiresAt <= MAX_INT64
    ensures GoDecodePayload(Layout(c)) == Ok(c)
  {
    ParseOfLayout(c);
  }

  lemma GoMintedVerifies(hmac: Hmac, keys: map<seq<Byte>, seq<Byte>>, c: RawClaims, now: int)
    requires GoMintable(c) && c.keyId in keys && |keys[c.keyId]| >= MIN_SIGNING_KEY_BYTES
    ensures GoVerify(hmac, keys, SignedToken(hmac, keys[c.keyId], Layout(c)), now) ==
            if now < c.expiresAt then Ok(c) else Err(Expired)
  {
    var payload := Layout(c);
    var mac := CapabilityMac(hmac, keys[c.keyId], payload);
    GoPayloadIsExact(c, payload);
    LengthOfLayout(c);
    TokenSplits(payload, mac);
    Base64.DecodeLaxOfEncode(payload);
    Base64.DecodeLaxOfEncode(mac);
  }

  /**
   * Uniqueness is the TypeScript half's alone: whenever the Go verifier accepts a
   * token below the length bound, it also accepts the token followed by a line break.
   */
  lemma GoTokenIsNotUnique(hmac: Hmac, keys: map<seq<Byte>, seq<Byte>>, token: string, now: int)
    requires GoVerify(hmac, keys, token, now).Ok? && |token| < MAX_TOKEN_LENGTH
    ensures GoVerify(hmac, keys, token + "\n", now) == GoVerify(hmac, keys, token, now)
  {
    var parts := Strings.Split(token, '.');
    GoAcceptedParts(hmac, keys, parts, now, GoVerify(hmac, keys, token, now).value);
    assert parts == [SCHEME, parts[1], parts[2]];
    SplitLonger(token, parts[1], parts[2]);
    Base64.LaxSkipsLineBreak(parts[2]);
    SamePartsVerify(hmac, keys, parts, Strings.Split(token + "\n", '.'), now);
  }

  lemma SamePartsVerify(hmac: Hmac, keys: map<seq<Byte>, seq<Byte>>, a: seq<string>, b: seq<string>, now: int)
    requires |a| == 3 && |b| == 3 && a[0] == b[0] && a[1] == b[1]
    requires Base64.DecodeLax(a[2]) == Base64.DecodeLax(b[2])
    ensures GoVerifyParts(hmac, keys, a, now) == GoVerifyParts(hmac, keys, b, now)
  {
  }

  lemma SplitLonger(token: string, p: string, m: string)
    requires Strings.Split(token, '.') == [SCHEME, p, m]
    ensures Strings.Split(token + "\n", '.') == [SCHEME, p, m + "\n"]
  {
    Strings.ThreeJoin(token, SCHEME, p, m, '.');
    assert '.' !in m + "\n";
    Strings.SplitThree(SCHEME, p, m + "\n", '.');
    assert SCHEME + ['.'] + p + ['.'] + (m + "\n") == SCHEME + ['.'] + p + ['.'] + m + "\n";
  }
}
