/** Unpadded base64url (section 5 of RFC 4648), and the two decoders that read it. */
module Base64 {
  import opened Bytes

  type Sextet = x: int | 0 <= x < 64

  function CharOf(x: Sextet): (c: char)
    ensures IsAlphabet(c)
  {
    if x < 26 then ('A' as int + x) as char
    else if x < 52 then ('a' as int + x - 26) as char
    else if x < 62 then ('0' as int + x - 52) as char
    else if x == 62 then '-' else '_'
  }

  predicate IsAlphabet(c: char)
  {
    'A' <= c <= 'Z' || 'a' <= c <= 'z' || '0' <= c <= '9' || c == '-' || c == '_'
  }

  function SextetOf(c: char): (x: Sextet)
    requires IsAlphabet(c)
    ensures CharOf(x) == c
  {
    if 'A' <= c <= 'Z' then c as int - 'A' as int
    else if 'a' <= c <= 'z' then c as int - 'a' as int + 26
    else if '0' <= c <= '9' then c as int - '0' as int + 52
    else if c == '-' then 62 else 63
  }

  lemma SextetOfCharOf(x: Sextet)
    ensures SextetOf(CharOf(x)) == x
  {
  }

  // ----- bytes and sextets

  function ToSextets(b: seq<Byte>): (x: seq<Sextet>)
    ensures |x| == |b| / 3 * 4 + (if |b| % 3 == 0 then 0 else |b| % 3 + 1)
  {
    if |b| == 0 then []
    else if |b| == 1 then [b[0] / 4, b[0] % 4 * 16]
    else if |b| == 2 then [b[0] / 4, b[0] % 4 * 16 + b[1] / 16, b[1] % 16 * 4]
    else [b[0] / 4, b[0] % 4 * 16 + b[1] / 16, b[1] % 16 * 4 + b[2] / 64, b[2] % 64] + ToSextets(b[3..])
  }

  /** A trailing lone sextet and the unused low bits of the last one are dropped. */
  function FromSextets(x: seq<Sextet>): (b: seq<Byte>)
  {
    if |x| <= 1 then []
    else if |x| == 2 then [x[0] as int * 4 + x[1] / 16]
    else if |x| == 3 then [x[0] as int * 4 + x[1] / 16, x[1] as int % 16 * 16 + x[2] / 4]
    else [x[0] as int * 4 + x[1] / 16, x[1] as int % 16 * 16 + x[2] / 4, x[2] as int % 4 * 64 + x[3]] + FromSextets(x[4..])
  }

  lemma {:induction false} FromSextetsOfToSextets(b: seq<Byte>)
    ensures FromSextets(ToSextets(b)) == b
  {
    if |b| >= 3 {
      FromSextetsOfToSextets(b[3..]);
      ToFour(b[0], b[1], b[2], b[3..]);
      NextBytes(b[0], b[1], b[2], b[3..]);
      assert b == [b[0], b[1], b[2]] + b[3..];
    } else {
      LastBytes(b);
    }
  }

  lemma LastBytes(b: seq<Byte>)
    requires |b| < 3
    ensures FromSextets(ToSextets(b)) == b
  {
    if |b| == 2 {
      assert b == [b[0], b[1]];
      TwoBytes(b[0], b[1], b);
    } else if |b| == 1 {
      assert b == [b[0]];
      OneByte(b[0], b);
    }
  }

  lemma ToTwo(a: Byte)
    ensures ToSextets([a]) == [a / 4, a % 4 * 16]
  {
  }

  lemma ToThree(a: Byte, b: Byte)
    ensures ToSextets([a, b]) == [a / 4, a % 4 * 16 + b / 16, b % 16 * 4]
  {
  }

  lemma ToFour(a: Byte, b: Byte, c: Byte, rest: seq<Byte>)
    ensures ToSextets([a, b, c] + rest) ==
            [a / 4, a % 4 * 16 + b / 16, b % 16 * 4 + c / 64, c % 64] + ToSextets(rest)
  {
    assert ([a, b, c] + rest)[3..] == rest;
  }

  lemma OneByte(a: Byte, all: seq<Byte>)
    ensures all == [a] ==> FromSextets(ToSextets(all)) == all
  {
    ToTwo(a);
    assert a / 4 * 4 + a % 4 * 16 / 16 == a;
  }

  lemma TwoBytes(a: Byte, b: Byte, all: seq<Byte>)
    ensures all == [a, b] ==> FromSextets(ToSextets(all)) == all
  {
    ToThree(a, b);
    ThreeBytes(a, b, 0);
  }

  lemma NextBytes(a: Byte, b: Byte, c: Byte, rest: seq<Byte>)
    ensures FromSextets([a / 4, a % 4 * 16 + b / 16, b % 16 * 4 + c / 64, c % 64] + ToSextets(rest)) ==
            [a, b, c] + FromSextets(ToSextets(rest))
  {
    ThreeBytes(a, b, c);
    FromFour(a / 4, a % 4 * 16 + b / 16, b % 16 * 4 + c / 64, c % 64, ToSextets(rest));
  }

  lemma ThreeBytes(a: Byte, b: Byte, c: Byte)
    ensures a / 4 * 4 + (a % 4 * 16 + b / 16) / 16 == a
    ensures (a % 4 * 16 + b / 16) % 16 * 16 + (b % 16 * 4 + c / 64) / 4 == b
    ensures (b % 16 * 4 + c / 64) % 4 * 64 + c % 64 == c
  {
  }

  lemma FromFour(w: Sextet, x: Sextet, y: Sextet, z: Sextet, rest: seq<Sextet>)
    ensures FromSextets([w, x, y, z] + rest) ==
            [w as int * 4 + x / 16, x as int % 16 * 16 + y / 4, y as int % 4 * 64 + z] + FromSextets(rest)
  {
    assert ([w, x, y, z] + rest)[4..] == rest;
  }

  // ----- text

  function Text(x: seq<Sextet>): (t: string)
    ensures |t| == |x|
    ensures forall c | c in t :: IsAlphabet(c)
  {
    seq(|x|, i requires 0 <= i < |x| => CharOf(x[i]))
  }

  function Encode(b: seq<Byte>): (t: string)
    ensures |t| == |b| / 3 * 4 + (if |b| % 3 == 0 then 0 else |b| % 3 + 1)
    ensures forall c | c in t :: IsAlphabet(c)
  {
    Text(ToSextets(b))
  }

  /** The sextets of the characters that are in the alphabet; every other character is skipped. */
  function Sextets(t: string): seq<Sextet>
  {
    if t == "" then []
    else (if IsAlphabet(t[0]) then [SextetOf(t[0])] else []) + Sextets(t[1..])
  }

  lemma {:induction false} SextetsOfText(x: seq<Sextet>)
    ensures Sextets(Text(x)) == x
  {
    if x != [] {
      SextetsOfText(x[1..]);
      assert Text(x)[1..] == Text(x[1..]);
      SextetOfCharOf(x[0]);
    }
  }

  /**
   * The TypeScript decoder: a lenient read, undone and compared. The standard
   * alphabet's own two characters and the end at "=" are left out of the lenient
   * read, because the comparison refuses every text that carries one.
   */
  function DecodeExact(t: string): Option<seq<Byte>>
  {
    var b := FromSextets(Sextets(t));
    if Encode(b) == t then Some(b) else None
  }

  /** So a text is accepted exactly when it is the one encoding of what it decodes to. */
  lemma DecodeExactIsInverse(t: string, b: seq<Byte>)
    ensures DecodeExact(t) == Some(b) <==> t == Encode(b)
  {
    SextetsOfText(ToSextets(b));
    FromSextetsOfToSextets(b);
  }

  /**
   * The Go decoder: line breaks are skipped, any other foreign character or a
   * lone last sextet is an error, and unused low bits are not looked at.
   */
  function DecodeLax(t: string): Option<seq<Byte>>
  {
    var x := Sextets(t);
    if (forall c | c in t :: IsAlphabet(c) || c == '\r' || c == '\n') && |x| % 4 != 1
    then Some(FromSextets(x))
    else None
  }

  lemma DecodeLaxOfEncode(b: seq<Byte>)
    ensures DecodeLax(Encode(b)) == Some(b)
  {
    var x := ToSextets(b);
    NoLoneSextet(|b|);
    SextetsOfText(x);
    DecodeLaxOf(x);
    FromSextetsOfToSextets(b);
  }

  lemma NoLoneSextet(n: nat)
    ensures (n / 3 * 4 + (if n % 3 == 0 then 0 else n % 3 + 1)) % 4 != 1
  {
  }

  lemma DecodeLaxOf(x: seq<Sextet>)
    requires |x| % 4 != 1 && Sextets(Text(x)) == x
    ensures DecodeLax(Text(x)) == Some(FromSextets(x))
  {
  }

  lemma {:induction false} SextetsSkip(t: string, c: char)
    requires !IsAlphabet(c)
    ensures Sextets(t + [c]) == Sextets(t)
  {
    if t == "" {
      assert t + [c] == [c] && [c][1..] == "";
    } else {
      assert (t + [c])[1..] == t[1..] + [c];
      SextetsSkip(t[1..], c);
    }
  }

  lemma LaxSkipsLineBreak(t: string)
    requires DecodeLax(t).Some?
    ensures DecodeLax(t + "\n") == DecodeLax(t)
  {
    SextetsSkip(t, '\n');
  }
}
