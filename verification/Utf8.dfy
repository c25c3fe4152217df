/**
 * UTF-8 (section 3 of RFC 3629) and UTF-16, as the two runtimes use them:
 * the byte counting loop of canonical.ts, the replacement of lone surrogates
 * by an encoder, and the replacement of ill-formed bytes by a decoder.
 */
module Utf8 {
  import opened Bytes

  /** One UTF-16 code unit of an ECMAScript string. */
  type CodeUnit = u: int | 0 <= u < 0x10000

  predicate IsHigh(u: int) { 0xD800 <= u <= 0xDBFF }
  predicate IsLow(u: int) { 0xDC00 <= u <= 0xDFFF }
  predicate IsSurrogate(u: int) { 0xD800 <= u <= 0xDFFF }
  predicate IsScalar(v: int) { 0 <= v <= 0x10FFFF && !IsSurrogate(v) }
  predicate IsTail(b: int) { 0x80 <= b <= 0xBF }

  // ----- one character

  /** The byte at an index, or -1 past the end. */
  function At(s: seq<Byte>, i: nat): int
  {
    if i < |s| then s[i] else -1
  }

  /**
   * The length of the well-formed character that starts with these four bytes,
   * or 0 when there is none. A byte past the end of the text is -1.
   */
  function CharSize(b0: int, b1: int, b2: int, b3: int): (n: nat)
    ensures n <= 4
  {
    if 0 <= b0 < 0x80 then 1
    else if 0xC2 <= b0 <= 0xDF && IsTail(b1) then 2
    else if 0xE0 <= b0 <= 0xEF && SecondOk(b0, b1) && IsTail(b2) then 3
    else if 0xF0 <= b0 <= 0xF4 && SecondOk(b0, b1) && IsTail(b2) && IsTail(b3) then 4
    else 0
  }

  /** The narrowed range of the second byte that rules out overlong forms and surrogates. */
  predicate SecondOk(b0: int, b1: int)
  {
    IsTail(b1) &&
    (b0 == 0xE0 ==> b1 >= 0xA0) && (b0 == 0xED ==> b1 <= 0x9F) &&
    (b0 == 0xF0 ==> b1 >= 0x90) && (b0 == 0xF4 ==> b1 <= 0x8F)
  }

  function CharValue(b0: int, b1: int, b2: int, b3: int): (v: int)
    requires CharSize(b0, b1, b2, b3) > 0
    ensures IsScalar(v)
  {
    match CharSize(b0, b1, b2, b3)
    case 1 => b0
    case 2 => (b0 - 0xC0) * 0x40 + (b1 - 0x80)
    case 3 => (b0 - 0xE0) * 0x1000 + (b1 - 0x80) * 0x40 + (b2 - 0x80)
    case _ => (b0 - 0xF0) * 0x40000 + (b1 - 0x80) * 0x1000 + (b2 - 0x80) * 0x40 + (b3 - 0x80)
  }

  function SizeAtStart(s: seq<Byte>): (n: nat)
    ensures n <= 4 && n <= |s|
  {
    CharSize(At(s, 0), At(s, 1), At(s, 2), At(s, 3))
  }

  function ValueAtStart(s: seq<Byte>): (v: int)
    requires SizeAtStart(s) > 0
    ensures IsScalar(v)
  {
    CharValue(At(s, 0), At(s, 1), At(s, 2), At(s, 3))
  }

  /** The UTF-8 encoding of one scalar value. */
  function EncodeScalar(v: int): (s: seq<Byte>)
    requires IsScalar(v)
    ensures 1 <= |s| <= 4
  {
    if v < 0x80 then [v]
    else if v < 0x800 then [0xC0 + v / 0x40, 0x80 + v % 0x40]
    else if v < 0x10000 then [0xE0 + v / 0x40 / 0x40, 0x80 + v / 0x40 % 0x40, 0x80 + v % 0x40]
    else [0xF0 + v / 0x40 / 0x40 / 0x40, 0x80 + v / 0x40 / 0x40 % 0x40, 0x80 + v / 0x40 % 0x40, 0x80 + v % 0x40]
  }

  lemma DecodeEncodedScalar(v: int, tail: seq<Byte>)
    requires IsScalar(v)
    ensures SizeAtStart(EncodeScalar(v) + tail) == |EncodeScalar(v)|
    ensures ValueAtStart(EncodeScalar(v) + tail) == v
  {
    var e := EncodeScalar(v);
    var s := e + tail;
    var q := v / 0x40;
    var p := q / 0x40;
    assert v == q * 0x40 + v % 0x40 && q == p * 0x40 + q % 0x40 && p == p / 0x40 * 0x40 + p % 0x40;
    assert At(s, 0) == e[0];
    assert |e| > 1 ==> At(s, 1) == e[1];
    assert |e| > 2 ==> At(s, 2) == e[2];
    assert |e| > 3 ==> At(s, 3) == e[3];
  }

  lemma EncodeDecodedScalar(s: seq<Byte>)
    requires SizeAtStart(s) > 0
    ensures EncodeScalar(ValueAtStart(s)) == s[..SizeAtStart(s)]
  {
    var n := SizeAtStart(s);
    EncodeCharValue(At(s, 0), At(s, 1), At(s, 2), At(s, 3));
    if n == 1 {
      assert s[..1] == [s[0]];
    } else if n == 2 {
      assert s[..2] == [s[0], s[1]];
    } else if n == 3 {
      assert s[..3] == [s[0], s[1], s[2]];
    } else {
      assert s[..4] == [s[0], s[1], s[2], s[3]];
    }
  }

  lemma EncodeCharValue(b0: int, b1: int, b2: int, b3: int)
    requires CharSize(b0, b1, b2, b3) > 0
    ensures var e := EncodeScalar(CharValue(b0, b1, b2, b3));
            match CharSize(b0, b1, b2, b3)
            case 1 => e == [b0]
            case 2 => e == [b0, b1]
            case 3 => e == [b0, b1, b2]
            case _ => e == [b0, b1, b2, b3]
  {
    match CharSize(b0, b1, b2, b3) {
      case 1 =>
      case 2 => SplitSextet(b0 - 0xC0, b1 - 0x80);
      case 3 => EncodeThree(b0, b1, b2);
      case _ => EncodeFour(b0, b1, b2, b3);
    }
  }

  lemma EncodeThree(b0: int, b1: int, b2: int)
    requires CharSize(b0, b1, b2, -1) == 3
    ensures EncodeScalar((b0 - 0xE0) * 0x1000 + (b1 - 0x80) * 0x40 + (b2 - 0x80)) == [b0, b1, b2]
  {
    SplitSextet((b0 - 0xE0) * 0x40 + (b1 - 0x80), b2 - 0x80);
    SplitSextet(b0 - 0xE0, b1 - 0x80);
  }

  lemma EncodeFour(b0: int, b1: int, b2: int, b3: int)
    requires CharSize(b0, b1, b2, b3) == 4
    ensures EncodeScalar((b0 - 0xF0) * 0x40000 + (b1 - 0x80) * 0x1000 + (b2 - 0x80) * 0x40 + (b3 - 0x80)) ==
            [b0, b1, b2, b3]
  {
    SplitSextet((b0 - 0xF0) * 0x1000 + (b1 - 0x80) * 0x40 + (b2 - 0x80), b3 - 0x80);
    SplitSextet((b0 - 0xF0) * 0x40 + (b1 - 0x80), b2 - 0x80);
    SplitSextet(b0 - 0xF0, b1 - 0x80);
  }

  lemma SplitSextet(q: int, r: int)
    requires 0 <= r < 0x40
    ensures (q * 0x40 + r) / 0x40 == q && (q * 0x40 + r) % 0x40 == r
  {
  }

  // ----- ECMAScript strings

  function PairValue(high: int, low: int): (v: int)
    requires IsHigh(high) && IsLow(low)
    ensures 0x10000 <= v <= 0x10FFFF
  {
    0x10000 + (high - 0xD800) * 0x400 + (low - 0xDC00)
  }

  function UnitsOf(v: int): (u: seq<CodeUnit>)
    requires IsScalar(v)
    ensures 1 <= |u| <= 2
  {
    if v < 0x10000 then [v]
    else [0xD800 + (v - 0x10000) / 0x400, 0xDC00 + (v - 0x10000) % 0x400]
  }

  predicate StartsWithPair(u: seq<CodeUnit>)
  {
    |u| >= 2 && IsHigh(u[0]) && IsLow(u[1])
  }

  /** The scalar value written for the first character: a lone surrogate becomes U+FFFD. */
  function FirstValue(u: seq<CodeUnit>): (v: int)
    requires u != []
    ensures IsScalar(v)
  {
    if StartsWithPair(u) then PairValue(u[0], u[1]) else if IsSurrogate(u[0]) then 0xFFFD else u[0]
  }

  function FirstSize(u: seq<CodeUnit>): (n: nat)
    requires u != []
    ensures 1 <= n <= |u|
  {
    if StartsWithPair(u) then 2 else 1
  }

  /** What an encoder writes for a whole string. */
  function Encode(u: seq<CodeUnit>): seq<Byte>
    decreases |u|
  {
    if u == [] then [] else EncodeScalar(FirstValue(u)) + Encode(u[FirstSize(u)..])
  }

  /** No lone surrogate. */
  predicate WellFormed(u: seq<CodeUnit>)
    decreases |u|
  {
    if u == [] then true
    else if StartsWithPair(u) then WellFormed(u[2..])
    else !IsSurrogate(u[0]) && WellFormed(u[1..])
  }

  /** Well-formed UTF-8. */
  predicate Valid(s: seq<Byte>)
    decreases |s|
  {
    s == [] || (SizeAtStart(s) > 0 && Valid(s[SizeAtStart(s)..]))
  }

  /**
   * How many ill-formed bytes at the start of the text one replacement character
   * stands for: the longest prefix of a well-formed character that is there.
   */
  function SubpartSize(s: seq<Byte>): (n: nat)
    requires s != [] && SizeAtStart(s) == 0
    ensures 1 <= n <= 3 && n <= |s|
  {
    var b0, b1, b2 := At(s, 0), At(s, 1), At(s, 2);
    if 0xE0 <= b0 <= 0xF4 && SecondOk(b0, b1) then
      if 0xF0 <= b0 && IsTail(b2) then 3 else 2
    else 1
  }

  /** What a replacing decoder reads. */
  function Decode(s: seq<Byte>): seq<CodeUnit>
    decreases |s|
  {
    if s == [] then []
    else if SizeAtStart(s) > 0 then UnitsOf(ValueAtStart(s)) + Decode(s[SizeAtStart(s)..])
    else [0xFFFD] + Decode(s[SubpartSize(s)..])
  }

  lemma {:induction false} EncodeIsValid(u: seq<CodeUnit>)
    ensures Valid(Encode(u))
    decreases |u|
  {
    if u != [] {
      var v, rest := FirstValue(u), Encode(u[FirstSize(u)..]);
      EncodeIsValid(u[FirstSize(u)..]);
      DecodeEncodedScalar(v, rest);
      assert (EncodeScalar(v) + rest)[|EncodeScalar(v)|..] == rest;
    }
  }

  lemma UnitsOfFirst(u: seq<CodeUnit>)
    requires u != []
    ensures |UnitsOf(FirstValue(u))| == FirstSize(u)
    ensures UnitsOf(FirstValue(u)) == u[..FirstSize(u)] <==> StartsWithPair(u) || !IsSurrogate(u[0])
  {
    if StartsWithPair(u) {
      var h, l := u[0] as int - 0xD800, u[1] as int - 0xDC00;
      assert (h * 0x400 + l) / 0x400 == h && (h * 0x400 + l) % 0x400 == l;
      assert u[..2] == [u[0], u[1]];
    } else {
      assert u[..1] == [u[0]];
    }
  }

  lemma DecodeStep(v: int, rest: seq<Byte>)
    requires IsScalar(v)
    ensures Decode(EncodeScalar(v) + rest) == UnitsOf(v) + Decode(rest)
  {
    DecodeEncodedScalar(v, rest);
    assert (EncodeScalar(v) + rest)[|EncodeScalar(v)|..] == rest;
  }

  /** Reading back what was written loses nothing but lone surrogates. */
  lemma {:induction false} DecodeEncode(u: seq<CodeUnit>)
    ensures Decode(Encode(u)) == u <==> WellFormed(u)
    ensures |Decode(Encode(u))| == |u|
    decreases |u|
  {
    if u != [] {
      var n, v := FirstSize(u), FirstValue(u);
      var head, tail := UnitsOf(v), Decode(Encode(u[n..]));
      DecodeEncode(u[n..]);
      UnitsOfFirst(u);
      DecodeStep(v, Encode(u[n..]));
      PartsAreEqual(head, tail, u, n);
    }
  }

  lemma PartsAreEqual<T>(head: seq<T>, tail: seq<T>, s: seq<T>, n: nat)
    requires n <= |s| && |head| == n
    ensures head + tail == s <==> head == s[..n] && tail == s[n..]
  {
    assert s == s[..n] + s[n..];
    assert (head + tail)[..n] == head && (head + tail)[n..] == tail;
  }

  lemma EncodeUnitsOf(v: int, rest: seq<CodeUnit>)
    requires IsScalar(v)
    ensures Encode(UnitsOf(v) + rest) == EncodeScalar(v) + Encode(rest)
  {
    var u := UnitsOf(v) + rest;
    if v < 0x10000 {
      assert u[0] == v && u[1..] == rest;
    } else {
      assert u[0] == UnitsOf(v)[0] && u[1] == UnitsOf(v)[1] && u[2..] == rest;
      assert PairValue(u[0], u[1]) == v;
    }
  }

  /**
   * Writing back what was read gives the same bytes exactly when they were well
   * formed, and is never shorter: one replacement character is three bytes and
   * stands for at most three.
   */
  lemma {:induction false} EncodeDecode(s: seq<Byte>)
    ensures Encode(Decode(s)) == s <==> Valid(s)
    ensures |Encode(Decode(s))| >= |s|
    decreases |s|
  {
    if Valid(s) {
      EncodeDecodeValid(s);
    } else {
      EncodeIsValid(Decode(s));
    }
    EncodeDecodeLength(s);
  }

  lemma DecodeFirst(s: seq<Byte>)
    requires SizeAtStart(s) > 0
    ensures Decode(s) == UnitsOf(ValueAtStart(s)) + Decode(s[SizeAtStart(s)..])
  {
  }

  lemma {:induction false} EncodeDecodeValid(s: seq<Byte>)
    requires Valid(s)
    ensures Encode(Decode(s)) == s
    decreases |s|
  {
    if s != [] {
      var n := SizeAtStart(s);
      var v, rest := ValueAtStart(s), s[n..];
      calc {
        Encode(Decode(s));
        { DecodeFirst(s); }
        Encode(UnitsOf(v) + Decode(rest));
        { EncodeUnitsOf(v, Decode(rest)); }
        EncodeScalar(v) + Encode(Decode(rest));
        { EncodeDecodeValid(rest); }
        EncodeScalar(v) + rest;
        { EncodeDecodedScalar(s); }
        s[..n] + rest;
        s;
      }
    }
  }

  lemma {:induction false} EncodeDecodeLength(s: seq<Byte>)
    ensures |Encode(Decode(s))| >= |s|
    decreases |s|
  {
    if s != [] {
      if SizeAtStart(s) > 0 {
        EncodeDecodeLength(s[SizeAtStart(s)..]);
        EncodeDecodedScalar(s);
        EncodeUnitsOf(ValueAtStart(s), Decode(s[SizeAtStart(s)..]));
      } else {
        EncodeDecodeLength(s[SubpartSize(s)..]);
        EncodeUnitsOf(0xFFFD, Decode(s[SubpartSize(s)..]));
      }
    }
  }

  // ----- byteLength of canonical.ts

  /** The code units that are counted together at an index, and the bytes they count for. */
  function UnitsAt(value: seq<CodeUnit>, index: nat): (n: nat)
    requires index < |value|
    ensures 1 <= n <= |value| - index
  {
    if IsHigh(value[index]) && index + 1 < |value| && IsLow(value[index + 1]) then 2 else 1
  }

  function BytesAt(value: seq<CodeUnit>, index: nat): nat
    requires index < |value|
  {
    if value[index] < 0x80 then 1
    else if value[index] < 0x800 then 2
    else if UnitsAt(value, index) == 2 then 4
    else 3
  }

  lemma EncodeFrom(value: seq<CodeUnit>, index: nat)
    requires index < |value|
    ensures |Encode(value[index..])| == BytesAt(value, index) + |Encode(value[index + UnitsAt(value, index)..])|
  {
    var rest := value[index..];
    assert rest[FirstSize(rest)..] == value[index + FirstSize(rest)..];
  }

  /** The counting loop agrees with the encoder on every string, lone surrogates included. */
  method ByteLength(value: seq<CodeUnit>) returns (bytes: nat)
    ensures bytes == |Encode(value)|
  {
    bytes := 0;
    var index := 0;
    assert value[0..] == value;
    while index < |value|
      invariant 0 <= index <= |value|
      invariant bytes + |Encode(value[index..])| == |Encode(value)|
    {
      EncodeFrom(value, index);
      var width, units := WidthAt(value, index);
      bytes := bytes + width;
      index := index + units;
    }
    assert value[index..] == [];
  }

  /** One turn of the loop: what is counted at an index, and how far the index moves. */
  method WidthAt(value: seq<CodeUnit>, index: nat) returns (width: nat, units: nat)
    requires index < |value|
    ensures width == BytesAt(value, index) && units == UnitsAt(value, index)
  {
    var code := value[index];
    if code < 0x80 {
      return 1, 1;
    }
    if code < 0x800 {
      return 2, 1;
    }
    if code >= 0xD800 && code <= 0xDBFF && index + 1 < |value| {
      var low := value[index + 1];
      if low >= 0xDC00 && low <= 0xDFFF {
        return 4, 2;
      }
    }
    return 3, 1;
  }

  /** Cutting a string adds up unless the cut falls inside a surrogate pair. */
  lemma {:induction false} EncodeConcat(a: seq<CodeUnit>, b: seq<CodeUnit>)
    requires !SplitsPair(a, b)
    ensures Encode(a + b) == Encode(a) + Encode(b)
    decreases |a|
  {
    if a == [] {
      assert a + b == b;
    } else {
      var n := FirstSize(a);
      assert (a + b)[n..] == a[n..] + b;
      assert StartsWithPair(a + b) <==> StartsWithPair(a);
      EncodeConcat(a[n..], b);
      assert FirstValue(a + b) == FirstValue(a);

    }
  }

  predicate SplitsPair(a: seq<CodeUnit>, b: seq<CodeUnit>)
  {
    a != [] && b != [] && IsHigh(a[|a| - 1]) && IsLow(b[0])
  }

  lemma SplitPairCounts(high: seq<CodeUnit>, b: seq<CodeUnit>)
    requires |high| == 1 && IsHigh(high[0]) && b != [] && IsLow(b[0])
    ensures |Encode(high)| == 3 && |Encode(high + b)| == |Encode(b)| + 1
  {
    assert high[0..] == high && b[0..] == b && (high + b)[0..] == high + b;
    assert (high + b)[2..] == b[1..];
    EncodeFrom(high, 0);
    EncodeFrom(high + b, 0);
    EncodeFrom(b, 0);
  }

  lemma {:induction false} ByteLengthIsAdditive(a: seq<CodeUnit>, b: seq<CodeUnit>)
    ensures |Encode(a + b)| == |Encode(a)| + |Encode(b)| <==> !SplitsPair(a, b)
    ensures SplitsPair(a, b) ==> |Encode(a + b)| == |Encode(a)| + |Encode(b)| - 2
  {
    if SplitsPair(a, b) {
      var front, high := a[..|a| - 1], [a[|a| - 1]];
      assert a == front + high && a + b == front + (high + b);
      EncodeConcat(front, high);
      EncodeConcat(front, high + b);
      SplitPairCounts(high, b);
    } else {
      EncodeConcat(a, b);
    }
  }
}
