/**
 * JSON strings: the escaper of the canonical writer, and a reader of section 7 of
 * RFC 8259 that undoes it.
 *
 * A Go string is a sequence of bytes. It is written here as a `string` in which
 * the character of code b stands for the byte b. A character over 255 stands for
 * no byte and is treated like an invalid one.
 */
module JsonText {
  import opened Bytes
  import Utf8

  // ----- UTF-8 over Go strings

  function At(s: string, i: nat): int
  {
    if i < |s| then s[i] as int else -1
  }

  /** The length of the well-formed character at the start, or 0. */
  function RuneSize(s: string): (n: nat)
    ensures n <= 4 && n <= |s|
  {
    Utf8.CharSize(At(s, 0), At(s, 1), At(s, 2), At(s, 3))
  }

  function RuneValue(s: string): (v: int)
    requires RuneSize(s) > 0
    ensures Utf8.IsScalar(v)
  {
    Utf8.CharValue(At(s, 0), At(s, 1), At(s, 2), At(s, 3))
  }

  function Chars(b: seq<Byte>): (s: string)
    ensures |s| == |b|
  {
    seq(|b|, i requires 0 <= i < |b| => b[i] as char)
  }

  function RuneText(v: int): string
    requires Utf8.IsScalar(v)
  {
    Chars(Utf8.EncodeScalar(v))
  }

  const REPLACEMENT: string := [0xEF as char, 0xBF as char, 0xBD as char]

  /** How far one step over the text goes: a whole character, or one invalid byte. */
  function StepSize(s: string): (n: nat)
    requires s != ""
    ensures 1 <= n <= |s|
  {
    if RuneSize(s) > 0 then RuneSize(s) else 1
  }

  /** utf8.RuneCountInString: an invalid byte counts as one. */
  function RuneCount(s: string): nat
    decreases |s|
  {
    if s == "" then 0 else 1 + RuneCount(s[StepSize(s)..])
  }

  /** Valid UTF-8. */
  predicate ValidText(s: string)
    decreases |s|
  {
    s == "" || (RuneSize(s) > 0 && ValidText(s[RuneSize(s)..]))
  }

  /** The text with every invalid byte replaced by U+FFFD. */
  function Repaired(s: string): string
    decreases |s|
  {
    if s == "" then ""
    else (if RuneSize(s) > 0 then s[..RuneSize(s)] else REPLACEMENT) + Repaired(s[StepSize(s)..])
  }

  lemma RuneSizeOfPrefix(s: string, n: nat, tail: string)
    requires RuneSize(s) == n > 0
    ensures RuneSize(s[..n] + tail) == n && RuneValue(s[..n] + tail) == RuneValue(s)
  {
    var t := s[..n] + tail;
    assert forall i | 0 <= i < n :: t[i] == s[i];
  }

  lemma {:induction false} RepairedOfValid(s: string)
    requires ValidText(s)
    ensures Repaired(s) == s
    decreases |s|
  {
    if s != "" {
      RepairedOfValid(s[RuneSize(s)..]);
    }
  }

  lemma {:induction false} RepairedIsValid(s: string)
    ensures ValidText(Repaired(s))
    decreases |s|
  {
    if s != "" {
      var n := StepSize(s);
      var rest := Repaired(s[n..]);
      RepairedIsValid(s[n..]);
      if RuneSize(s) > 0 {
        RuneSizeOfPrefix(s, n, rest);
        assert (s[..n] + rest)[n..] == rest;
      } else {
        assert RuneSize(REPLACEMENT) == 3;
        RuneSizeOfPrefix(REPLACEMENT, 3, rest);
        assert REPLACEMENT[..3] == REPLACEMENT;
        assert (REPLACEMENT + rest)[3..] == rest;
      }
    }
  }

  lemma RepairedIsExact(s: string)
    ensures Repaired(s) == s <==> ValidText(s)
  {
    RepairedIsValid(s);
    if ValidText(s) {
      RepairedOfValid(s);
    }
  }

  // ----- escaping

  const HEX_DIGITS := "0123456789abcdef"

  function HexDigit(n: nat): char
    requires n < 16
  {
    HEX_DIGITS[n]
  }

  predicate IsLineSeparator(v: int) { v == 0x2028 || v == 0x2029 }

  /** What the writer appends for the character, or the invalid byte, at the start. */
  function EscapedStep(s: string): string
    requires s != ""
  {
    var c := s[0];
    if c as int < 0x80 then
      if c == '"' then "\\\""
      else if c == '\\' then "\\\\"
      else if c as int == 8 then "\\b"
      else if c as int == 12 then "\\f"
      else if c == '\n' then "\\n"
      else if c == '\r' then "\\r"
      else if c == '\t' then "\\t"
      else if c as int < 0x20 then ['\\', 'u', '0', '0', HexDigit(c as int / 16), HexDigit(c as int % 16)]
      else [c]
    else if RuneSize(s) == 0 then REPLACEMENT
    else if IsLineSeparator(RuneValue(s)) then ['\\', 'u', '2', '0', '2', HexDigit(RuneValue(s) % 16)]
    else s[..RuneSize(s)]
  }

  function Escape(s: string): string
    decreases |s|
  {
    if s == "" then "" else EscapedStep(s) + Escape(s[StepSize(s)..])
  }

  function Quote(s: string): string
  {
    "\"" + Escape(s) + "\""
  }

  lemma AppendStep(out: string, rest: string)
    requires rest != ""
    ensures out + EscapedStep(rest) + Escape(rest[StepSize(rest)..]) == out + Escape(rest)
  {
  }

  /** The body of the loop: what to append at an index, and how far to move on. */
  method EscapeAt(value: string, index: nat) returns (piece: string, size: nat)
    requires index < |value|
    ensures piece == EscapedStep(value[index..]) && size == StepSize(value[index..])
  {
    var c := value[index];
    if c as int < 0x80 {
      size := 1;
      if c == '"' {
        piece := "\\\"";
      } else if c == '\\' {
        piece := "\\\\";
      } else if c as int == 8 {
        piece := "\\b";
      } else if c as int == 12 {
        piece := "\\f";
      } else if c == '\n' {
        piece := "\\n";
      } else if c == '\r' {
        piece := "\\r";
      } else if c == '\t' {
        piece := "\\t";
      } else if c as int < 0x20 {
        piece := ['\\', 'u', '0', '0', HexDigit(c as int / 16), HexDigit(c as int % 16)];
      } else {
        piece := [c];
      }
      return;
    }
    size := RuneSize(value[index..]);
    if size == 0 {
      piece, size := REPLACEMENT, 1;
    } else if IsLineSeparator(RuneValue(value[index..])) {
      piece := ['\\', 'u', '2', '0', '2', HexDigit(RuneValue(value[index..]) % 16)];
    } else {
      piece := value[index..index + size];
      assert piece == value[index..][..size];
    }
  }

  /** appendJSONString: one loop over the text, appending to the buffer. */
  method AppendJSONString(dst: string, value: string) returns (out: string)
    ensures out == dst + Quote(value)
  {
    out := dst + "\"";
    var index := 0;
    assert value[0..] == value;
    while index < |value|
      invariant 0 <= index <= |value|
      invariant out + Escape(value[index..]) == dst + "\"" + Escape(value)
    {
      var piece, size := EscapeAt(value, index);
      assert value[index..][size..] == value[index + size..];
      AppendStep(out, value[index..]);
      out := out + piece;
      index := index + size;
    }
    QuoteIsClosed(out, dst, Escape(value), Escape(value[index..]));
    out := out + "\"";
  }

  lemma QuoteIsClosed(out: string, dst: string, escaped: string, rest: string)
    requires rest == "" && out + rest == dst + "\"" + escaped
    ensures out + "\"" == dst + ("\"" + escaped + "\"")
  {
    assert out == dst + "\"" + escaped;
  }

  // ----- reading

  function HexValue(c: char): Option<nat>
  {
    if '0' <= c <= '9' then Some(c as int - '0' as int)
    else if 'a' <= c <= 'f' then Some(c as int - 'a' as int + 10)
    else if 'A' <= c <= 'F' then Some(c as int - 'A' as int + 10)
    else None
  }

  /** The code of a "\uXXXX" escape at the start. */
  function ReadUnit(s: string): (r: Option<int>)
    ensures r.Some? ==> |s| >= 6 && 0 <= r.value < 0x10000
  {
    if |s| < 6 || s[0] != '\\' || s[1] != 'u' then None
    else
      var (a, b, c, d) := (HexValue(s[2]), HexValue(s[3]), HexValue(s[4]), HexValue(s[5]));
      if a.None? || b.None? || c.None? || d.None? then None
      else if a.value < 16 && b.value < 16 && c.value < 16 && d.value < 16
      then Some(a.value * 0x1000 + b.value * 0x100 + c.value * 0x10 + d.value)
      else None
  }

  function SimpleEscape(c: char): Option<char>
  {
    if c == '"' || c == '\\' || c == '/' then Some(c)
    else if c == 'b' then Some(8 as char)
    else if c == 'f' then Some(12 as char)
    else if c == 'n' then Some('\n')
    else if c == 'r' then Some('\r')
    else if c == 't' then Some('\t')
    else None
  }

  /**
   * One character of a string being read, and how much text it took. A lone
   * surrogate escape and an invalid byte are read as U+FFFD.
   */
  function ReadChar(s: string): (r: Option<(string, nat)>)
    requires s != ""
    ensures r.Some? ==> 1 <= r.value.1 <= |s|
  {
    if s[0] == '\\' then
      if |s| < 2 then None
      else if s[1] == 'u' then
        match ReadUnit(s)
        case None => None
        case Some(u) =>
          if !Utf8.IsSurrogate(u) then Some((RuneText(u), 6))
          else
            var low := ReadUnit(s[6..]);
            if Utf8.IsHigh(u) && low.Some? && Utf8.IsLow(low.value)
            then Some((RuneText(Utf8.PairValue(u, low.value)), 12))
            else Some((REPLACEMENT, 6))
      else match SimpleEscape(s[1])
        case None => None
        case Some(c) => Some(([c], 2))
    else if s[0] as int < 0x20 then None
    else if RuneSize(s) > 0 then Some((s[..RuneSize(s)], RuneSize(s)))
    else Some((REPLACEMENT, 1))
  }

  /** The text up to the closing quotation mark, and what follows the mark. */
  function ReadString(s: string): (r: Option<(string, string)>)
    ensures r.Some? ==> |r.value.1| < |s|
    decreases |s|
  {
    if s == "" then None
    else if s[0] == '"' then Some(("", s[1..]))
    else match ReadChar(s)
      case None => None
      case Some((text, n)) => match ReadString(s[n..])
        case None => None
        case Some((rest, after)) => Some((text + rest, after))
  }

  lemma RuneTextIsOneRune(v: int)
    requires Utf8.IsScalar(v)
    ensures RuneSize(RuneText(v)) == |RuneText(v)| > 0
  {
    var b := Utf8.EncodeScalar(v);
    Utf8.DecodeEncodedScalar(v, []);
    assert b + [] == b;
  }

  lemma ReadCharIsOneRune(s: string)
    requires s != "" && ReadChar(s).Some?
    ensures var text := ReadChar(s).value.0; RuneSize(text) == |text| > 0
  {
    var text := ReadChar(s).value.0;
    if s[0] == '\\' {
      if s[1] == 'u' {
        var u := ReadUnit(s).value;
        if !Utf8.IsSurrogate(u) {
          RuneTextIsOneRune(u);
        } else {
          var low := ReadUnit(s[6..]);
          if Utf8.IsHigh(u) && low.Some? && Utf8.IsLow(low.value) {
            RuneTextIsOneRune(Utf8.PairValue(u, low.value));
          } else {
            assert text == REPLACEMENT;
          }
        }
      } else {
        assert text[0] as int < 0x80;
      }
    } else if RuneSize(s) > 0 {
      RuneSizeOfPrefix(s, RuneSize(s), "");
      assert text + "" == text;
    } else {
      assert text == REPLACEMENT;
    }
  }

  /** Whatever a string is read as is valid UTF-8. */
  lemma {:induction false} ReadStringIsValid(s: string)
    ensures ReadString(s).Some? ==> ValidText(ReadString(s).value.0)
    decreases |s|
  {
    if s != "" && s[0] != '"' && ReadString(s).Some? {
      var (text, n) := ReadChar(s).value;
      var rest := ReadString(s[n..]).value.0;
      ReadCharIsOneRune(s);
      ReadStringIsValid(s[n..]);
      RuneSizeOfPrefix(text, |text|, rest);
      assert text[..|text|] == text && (text + rest)[|text|..] == rest;
    }
  }

  lemma ReadHexPair(n: int)
    requires 0 <= n < 16
    ensures HexValue(HexDigit(n)) == Some(n)
  {
  }

  lemma ReadLineSeparator(s: string)
    requires RuneSize(s) > 0 && IsLineSeparator(RuneValue(s))
    ensures s[..RuneSize(s)] == RuneText(RuneValue(s))
  {
    assert RuneSize(s) == 3 && s[0] as int == 0xE2 && s[1] as int == 0x80;
  }

  /** Reading what one step wrote gives the character back, or U+FFFD for an invalid byte. */
  lemma ReadEscapedStep(s: string, tail: string)
    requires s != ""
    ensures EscapedStep(s) != "" && EscapedStep(s)[0] != '"'
    ensures ReadChar(EscapedStep(s) + tail) ==
            Some((if RuneSize(s) > 0 then s[..RuneSize(s)] else REPLACEMENT, |EscapedStep(s)|))
  {
    if s[0] as int < 0x80 {
      ReadEscapedAscii(s, tail);
    } else if RuneSize(s) == 0 {
      ReadReplacement(tail);
    } else if IsLineSeparator(RuneValue(s)) {
      ReadEscapedSeparator(s, tail);
    } else {
      ReadRawRune(s, tail);
    }
  }

  lemma ReadEscapedAscii(s: string, tail: string)
    requires s != "" && s[0] as int < 0x80
    ensures EscapedStep(s) != "" && EscapedStep(s)[0] != '"' && RuneSize(s) == 1
    ensures ReadChar(EscapedStep(s) + tail) == Some((s[..1], |EscapedStep(s)|))
  {
    var e := EscapedStep(s);
    var t := e + tail;
    assert s[..1] == [s[0]];
    if |e| == 6 {
      ReadControl(s[0], tail);
    } else if |e| == 1 {
      assert t[..1] == [s[0]];
    }
  }

  lemma ReadControl(c: char, tail: string)
    requires c as int < 0x20
    ensures var e := ['\\', 'u', '0', '0', HexDigit(c as int / 16), HexDigit(c as int % 16)];
            ReadChar(e + tail) == Some(([c], 6))
  {
    var e := ['\\', 'u', '0', '0', HexDigit(c as int / 16), HexDigit(c as int % 16)];
    ReadHexPair(c as int / 16);
    ReadHexPair(c as int % 16);
    assert ReadUnit(e + tail) == Some(c as int);
    assert RuneText(c as int) == [c];
  }

  lemma ReadReplacement(tail: string)
    ensures ReadChar(REPLACEMENT + tail) == Some((REPLACEMENT, 3))
  {
    assert RuneSize(REPLACEMENT) == 3 && REPLACEMENT[..3] == REPLACEMENT;
    RuneSizeOfPrefix(REPLACEMENT, 3, tail);
    assert (REPLACEMENT + tail)[..3] == REPLACEMENT;
  }

  lemma ReadEscapedSeparator(s: string, tail: string)
    requires s != "" && s[0] as int >= 0x80 && RuneSize(s) > 0 && IsLineSeparator(RuneValue(s))
    ensures EscapedStep(s) != "" && EscapedStep(s)[0] != '"'
    ensures ReadChar(EscapedStep(s) + tail) == Some((s[..RuneSize(s)], |EscapedStep(s)|))
  {
    ReadHexPair(RuneValue(s) % 16);
    assert ReadUnit(EscapedStep(s) + tail) == Some(RuneValue(s));
    ReadLineSeparator(s);
  }

  lemma ReadRawRune(s: string, tail: string)
    requires s != "" && s[0] as int >= 0x80 && RuneSize(s) > 0
    ensures ReadChar(s[..RuneSize(s)] + tail) == Some((s[..RuneSize(s)], RuneSize(s)))
  {
    var n := RuneSize(s);
    RuneSizeOfPrefix(s, n, tail);
    assert (s[..n] + tail)[..n] == s[..n] && (s[..n] + tail)[0] == s[0];
  }

  /** Escaping is undone by reading: the text comes back, each invalid byte as U+FFFD. */
  lemma {:induction false} ReadEscaped(s: string, tail: string)
    ensures ReadString(Escape(s) + "\"" + tail) == Some((Repaired(s), tail))
    decreases |s|
  {
    if s == "" {
      assert "" + "\"" + tail == "\"" + tail;
    } else {
      var e, n := EscapedStep(s), StepSize(s);
      var after := Escape(s[n..]) + "\"" + tail;
      assert Escape(s) + "\"" + tail == e + after;
      ReadEscapedStep(s, after);
      ReadEscaped(s[n..], tail);
      assert (e + after)[|e|..] == after;
    }
  }

  /** So a text reads back unchanged exactly when it is valid UTF-8, and escaping is injective on such texts. */
  lemma EscapeRoundTrip(s: string)
    ensures ReadString(Escape(s) + "\"") == Some((s, "")) <==> ValidText(s)
  {
    ReadEscaped(s, "");
    assert Escape(s) + "\"" + "" == Escape(s) + "\"";
    RepairedIsExact(s);
  }

  lemma EscapeIsInjective(s: string, t: string)
    requires ValidText(s) && ValidText(t) && Escape(s) == Escape(t)
    ensures s == t
  {
    EscapeRoundTrip(s);
    EscapeRoundTrip(t);
  }

  /** A byte that a JSON string may hold: no control character, and no byte over 255. */
  predicate IsPlainByte(c: char) { 0x20 <= c as int < 0x100 }

  /** No line or paragraph separator starts here. */
  predicate NoSeparatorAt(s: string, i: nat)
  {
    !(i + 2 < |s| && s[i] as int == 0xE2 && s[i + 1] as int == 0x80 && s[i + 2] as int in {0xA8, 0xA9})
  }

  predicate IsPlainWithin(e: string, rest: string)
  {
    && (forall c | c in e :: IsPlainByte(c))
    && forall i | 0 <= i < |e| :: NoSeparatorAt(e + rest, i)
  }

  lemma EscapedStepIsPlain(s: string, rest: string)
    requires s != ""
    ensures IsPlainWithin(EscapedStep(s), rest)
  {
    if s[0] as int >= 0x80 && RuneSize(s) > 0 && !IsLineSeparator(RuneValue(s)) {
      RawRuneIsPlain(s, rest);
    } else if s[0] as int >= 0x80 && RuneSize(s) == 0 {
      assert forall i | 0 <= i < 3 :: (REPLACEMENT + rest)[i] == REPLACEMENT[i];
    } else {
      AsciiIsPlain(EscapedStep(s), rest);
    }
  }

  lemma AsciiIsPlain(e: string, rest: string)
    requires forall i | 0 <= i < |e| :: 0x20 <= e[i] as int < 0x80
    ensures IsPlainWithin(e, rest)
  {
    assert forall i | 0 <= i < |e| :: (e + rest)[i] == e[i];
  }

  lemma RawRuneIsPlain(s: string, rest: string)
    requires RuneSize(s) > 0 && s[0] as int >= 0x80 && !IsLineSeparator(RuneValue(s))
    ensures IsPlainWithin(s[..RuneSize(s)], rest)
  {
    var e := s[..RuneSize(s)];
    assert forall i | 0 <= i < |e| :: (e + rest)[i] == e[i] && e[i] == s[i];
  }

  /** What is written holds no raw control byte, no U+2028 and no U+2029. */
  lemma {:induction false} EscapeIsPlain(s: string)
    ensures forall c | c in Escape(s) :: IsPlainByte(c)
    ensures forall i | 0 <= i < |Escape(s)| :: NoSeparatorAt(Escape(s), i)
    decreases |s|
  {
    if s != "" {
      var e, rest := EscapedStep(s), Escape(s[StepSize(s)..]);
      EscapedStepIsPlain(s, rest);
      EscapeIsPlain(s[StepSize(s)..]);
      forall i | 0 <= i < |e + rest|
        ensures NoSeparatorAt(e + rest, i)
      {
        if i >= |e| {
          assert NoSeparatorAt(rest, i - |e|);
        }
      }
    }
  }

  // ----- repairing first changes nothing

  lemma RepairedStep(s: string)
    requires s != ""
    ensures var t := Repaired(s);
            && t != "" && RuneSize(t) > 0
            && EscapedStep(t) == EscapedStep(s)
            && t[RuneSize(t)..] == Repaired(s[StepSize(s)..])
  {
    var rest := Repaired(s[StepSize(s)..]);
    if RuneSize(s) > 0 {
      RuneIsKept(s, rest);
    } else {
      assert RuneSize(REPLACEMENT) == 3;
      ReplacementIsKept(rest);
    }
  }

  lemma RuneIsKept(s: string, rest: string)
    requires RuneSize(s) > 0
    ensures var t := s[..RuneSize(s)] + rest;
            && RuneSize(t) == RuneSize(s) && EscapedStep(t) == EscapedStep(s) && t[RuneSize(s)..] == rest
  {
    var n := RuneSize(s);
    var t := s[..n] + rest;
    RuneSizeOfPrefix(s, n, rest);
    assert t[..n] == s[..n] && t[0] == s[0];
  }

  lemma ReplacementIsKept(rest: string)
    requires RuneSize(REPLACEMENT) == 3
    ensures RuneSize(REPLACEMENT + rest) == 3 && EscapedStep(REPLACEMENT + rest) == REPLACEMENT
    ensures (REPLACEMENT + rest)[3..] == rest
  {
    RuneSizeOfPrefix(REPLACEMENT, 3, rest);
    assert REPLACEMENT[..3] == REPLACEMENT;
    assert RuneValue(REPLACEMENT) == 0xFFFD;
    assert (REPLACEMENT + rest)[..3] == REPLACEMENT;
  }

  /** A text and its repaired form are written alike, and have as many characters. */
  lemma {:induction false} RepairedIsWrittenAlike(s: string)
    ensures Escape(Repaired(s)) == Escape(s) && RuneCount(Repaired(s)) == RuneCount(s)
    decreases |s|
  {
    if s != "" {
      RepairedStep(s);
      RepairedIsWrittenAlike(s[StepSize(s)..]);
    }
  }

  /** Repairing takes and adds no ASCII character. */
  lemma {:induction false} RepairedKeepsAscii(s: string, c: char)
    requires c as int < 0x80
    ensures c in Repaired(s) <==> c in s
    decreases |s|
  {
    if s != "" {
      var n := StepSize(s);
      RepairedKeepsAscii(s[n..], c);
      assert s == s[..n] + s[n..];
      if RuneSize(s) == 0 {
        InvalidIsNotAscii(s, c);
      }
    }
  }

  lemma InvalidIsNotAscii(s: string, c: char)
    requires s != "" && RuneSize(s) == 0 && c as int < 0x80
    ensures c !in s[..1] && c !in REPLACEMENT
  {
    assert s[..1] == [s[0]] && s[0] as int >= 0x80;
  }
}
