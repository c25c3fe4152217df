/**
 * Number formatting: decimal integers, and ECMAScript's Number::toString
 * (section 6.1.6.1.20 of ECMA-262) over the shortest digits and the exponent that
 * the floating-point library supplies.
 */
module JsonNumber {
  import opened Bytes
  import opened Json

  // ----- digits and what they denote

  function DigitChar(d: nat): char
    requires d < 10
  {
    ('0' as int + d) as char
  }

  function DigitValue(c: char): (d: nat)
    requires IsDigit(c)
    ensures d < 10 && DigitChar(d) == c
  {
    c as int - '0' as int
  }

  function DigitsValue(s: string): nat
    requires AllDigits(s)
  {
    if s == "" then 0
    else
      assert s[|s| - 1] in s && forall c | c in s[..|s| - 1] :: c in s;
      10 * DigitsValue(s[..|s| - 1]) + DigitValue(s[|s| - 1])
  }

  function Digits(n: nat): (s: string)
    ensures s != "" && AllDigits(s) && (s[0] == '0' ==> s == "0")
  {
    if n < 10 then [DigitChar(n)] else Digits(n / 10) + [DigitChar(n % 10)]
  }

  lemma {:induction false} DigitsValueOfDigits(n: nat)
    ensures DigitsValue(Digits(n)) == n
  {
    var s := Digits(n);
    if n < 10 {
      assert s[..0] == "";
    } else {
      DigitsValueOfDigits(n / 10);
      assert s[..|s| - 1] == Digits(n / 10);
    }
  }

  lemma {:induction false} DigitsOfDigitsValue(s: string)
    requires s != "" && AllDigits(s) && (s[0] == '0' ==> s == "0")
    ensures Digits(DigitsValue(s)) == s
    ensures s != "0" ==> DigitsValue(s) > 0
  {
    var front, last := s[..|s| - 1], s[|s| - 1];
    FrontIsDigits(s);
    assert s == front + [last];
    if front == "" {
      assert DigitsValue(front) == 0;
    } else {
      assert front[0] == s[0];
      DigitsOfDigitsValue(front);
      assert front != "0";
      DigitsStep(DigitsValue(front), DigitValue(last));
    }
  }

  lemma FrontIsDigits(s: string)
    requires s != "" && AllDigits(s)
    ensures AllDigits(s[..|s| - 1]) && IsDigit(s[|s| - 1])
    ensures DigitsValue(s) == 10 * DigitsValue(s[..|s| - 1]) + DigitValue(s[|s| - 1])
  {
    assert s[|s| - 1] in s && forall c | c in s[..|s| - 1] :: c in s;
  }

  lemma DigitsStep(v: nat, d: nat)
    requires v > 0 && d < 10
    ensures Digits(10 * v + d) == Digits(v) + [DigitChar(d)]
  {
    assert (10 * v + d) / 10 == v && (10 * v + d) % 10 == d;
  }

  function Repeat(c: char, n: nat): (s: string)
    ensures |s| == n && forall x | x in s :: x == c
  {
    if n == 0 then "" else Repeat(c, n - 1) + [c]
  }

  function Power10(n: nat): nat
  {
    if n == 0 then 1 else 10 * Power10(n - 1)
  }

  lemma {:induction false} DigitsValueOfZeros(s: string, n: nat)
    requires AllDigits(s)
    ensures DigitsValue(s + Repeat('0', n)) == DigitsValue(s) * Power10(n)
  {
    var t := s + Repeat('0', n);
    if n == 0 {
      assert t == s;
    } else {
      DigitsValueOfZeros(s, n - 1);
      assert t[..|t| - 1] == s + Repeat('0', n - 1);
    }
  }

  lemma {:induction false} DigitsValueAfterZeros(n: nat, s: string)
    requires AllDigits(s)
    ensures DigitsValue(Repeat('0', n) + s) == DigitsValue(s)
    decreases n + |s|
  {
    var t := Repeat('0', n) + s;
    if s == "" {
      assert t == Repeat('0', n);
      if n > 0 {
        DigitsValueAfterZeros(n - 1, s);
        assert t[..n - 1] == Repeat('0', n - 1) + s;
      }
    } else {
      FrontIsDigits(s);
      DigitsValueAfterZeros(n, s[..|s| - 1]);
      FrontIsDigits(t);
      assert t[..|t| - 1] == Repeat('0', n) + s[..|s| - 1];
    }
  }

  // ----- what a JSON number denotes

  datatype Parts = Parts(negative: bool, whole: string, fraction: string, exponent: int)

  predicate WellFormedParts(p: Parts)
  {
    && p.whole != "" && AllDigits(p.whole) && (p.whole[0] == '0' ==> p.whole == "0")
    && AllDigits(p.fraction)
  }

  function Pow10(e: int): real
    decreases if e < 0 then -e else e
  {
    if e == 0 then 1.0 else if e > 0 then 10.0 * Pow10(e - 1) else Pow10(e + 1) / 10.0
  }

  function Sign(negative: bool): real
  {
    if negative then -1.0 else 1.0
  }

  function Scaled(negative: bool, v: nat, e: int): real
  {
    Sign(negative) * (v as real * Pow10(e))
  }

  function Denotes(p: Parts): real
    requires WellFormedParts(p)
  {
    Scaled(p.negative, DigitsValue(p.whole + p.fraction), p.exponent - |p.fraction|)
  }

  /** The digits of an exponent with its sign. */
  function ExponentValue(s: string): int
  {
    if s != "" && (s[0] == '+' || s[0] == '-') then
      if AllDigits(s[1..]) then (if s[0] == '-' then -(DigitsValue(s[1..]) as int) else DigitsValue(s[1..])) else 0
    else if AllDigits(s) then DigitsValue(s) else 0
  }

  /** The parts of a number's text, along the grammar. */
  function PartsOf(s: string): Parts
    requires IsNumber(s)
  {
    var negative := s[0] == '-';
    var u := if negative then s[1..] else s;
    var whole := IntSize(u);
    var t := u[whole..];
    var fraction := FractionSize(t).value;
    var e := t[fraction..];
    Parts(negative, u[..whole], if fraction == 0 then "" else t[1..fraction],
          if e == "" then 0 else ExponentValue(e[1..]))
  }

  lemma {:induction false} DigitRunOfDigits(s: string, tail: string)
    requires AllDigits(s) && (tail == "" || !IsDigit(tail[0]))
    ensures DigitRun(s + tail) == |s|
  {
    if s == "" {
      assert s + tail == tail;
    } else {
      assert s[0] in s && forall c | c in s[1..] :: c in s;
      assert (s + tail)[1..] == s[1..] + tail;
      DigitRunOfDigits(s[1..], tail);
    }
  }

  function FractionText(fraction: string): string
  {
    if fraction == "" then "" else "." + fraction
  }

  function ExponentText(e: int): string
  {
    "e" + (if e < 0 then "-" else "+") + Digits(if e < 0 then -e else e)
  }

  /** A number written from its parts. A missing exponent is 0. */
  function NumberText(p: Parts, withExponent: bool): string
  {
    (if p.negative then "-" else "") +
    (p.whole + (FractionText(p.fraction) + (if withExponent then ExponentText(p.exponent) else "")))
  }

  lemma ReadExponent(e: int)
    ensures ExponentSize(ExponentText(e)) == Some(|ExponentText(e)|)
    ensures ExponentValue(ExponentText(e)[1..]) == e
  {
    var n := if e < 0 then -e else e;
    DigitsValueOfDigits(n);
    ReadSignedDigits(if e < 0 then "-" else "+", Digits(n));
  }

  lemma ReadSignedDigits(mark: string, d: string)
    requires (mark == "-" || mark == "+") && d != "" && AllDigits(d)
    ensures var s := "e" + mark + d;
            && ExponentSize(s) == Some(|s|)
            && ExponentValue(s[1..]) == if mark == "-" then -(DigitsValue(d) as int) else DigitsValue(d)
  {
    var s := "e" + mark + d;
    assert s[2..] == d && s[1..] == mark + d && (mark + d)[1..] == d;
    DigitRunOfDigits(d, "");
    assert d + "" == d;
  }

  lemma ReadFraction(fraction: string, e: string)
    requires AllDigits(fraction) && (e == "" || e[0] == 'e')
    ensures var t := FractionText(fraction) + e;
            && FractionSize(t) == Some(|FractionText(fraction)|)
            && t[|FractionText(fraction)|..] == e
            && (fraction != "" ==> t[1..|FractionText(fraction)|] == fraction)
            && (t == "" || t[0] == '.' || t[0] == 'e')
  {
    var t := FractionText(fraction) + e;
    if fraction != "" {
      assert t[1..] == fraction + e;
      DigitRunOfDigits(fraction, e);
    }
  }

  /** What follows the integer part of a number. */
  function TailText(p: Parts, withExponent: bool): string
  {
    FractionText(p.fraction) + (if withExponent then ExponentText(p.exponent) else "")
  }

  lemma TailIsRead(p: Parts, withExponent: bool)
    requires WellFormedParts(p) && (!withExponent ==> p.exponent == 0)
    ensures var t := TailText(p, withExponent);
            && TailSize(t) == Some(|t|)
            && (t == "" || t[0] == '.' || t[0] == 'e')
            && FractionSize(t) == Some(|FractionText(p.fraction)|)
            && (p.fraction != "" ==> t[1..|FractionText(p.fraction)|] == p.fraction)
            && t[|FractionText(p.fraction)|..] == if withExponent then ExponentText(p.exponent) else ""
  {
    var t, e := TailText(p, withExponent), if withExponent then ExponentText(p.exponent) else "";
    ReadExponent(p.exponent);
    ReadFraction(p.fraction, e);
    assert ExponentSize("") == Some(0);
    TailIsBoth(t, |FractionText(p.fraction)|, |e|);
  }

  lemma TailIsBoth(t: string, fraction: nat, exponent: nat)
    requires FractionSize(t) == Some(fraction) && ExponentSize(t[fraction..]) == Some(exponent)
    ensures TailSize(t) == Some(fraction + exponent)
  {
  }

  lemma UnsignedIsRead(p: Parts, withExponent: bool)
    requires WellFormedParts(p) && (!withExponent ==> p.exponent == 0)
    ensures var t := TailText(p, withExponent);
            var u := p.whole + t;
            && IntSize(u) == |p.whole| && u[..|p.whole|] == p.whole && u[|p.whole|..] == t
            && UnsignedSize(u) == Some(|u|) && IsDigit(u[0])
  {
    var t := TailText(p, withExponent);
    TailIsRead(p, withExponent);
    WholeIsRead(p.whole, t);
    UnsignedIsBoth(p.whole + t, |p.whole|, |t|);
  }

  lemma WholeIsRead(whole: string, t: string)
    requires whole != "" && AllDigits(whole) && (whole[0] == '0' ==> whole == "0")
    requires t == "" || t[0] == '.' || t[0] == 'e'
    ensures var u := whole + t;
            IntSize(u) == |whole| && u[..|whole|] == whole && u[|whole|..] == t && IsDigit(u[0])
  {
    assert whole[0] in whole && (whole + t)[0] == whole[0];
    DigitRunOfDigits(whole, t);
  }

  lemma UnsignedIsBoth(u: string, whole: nat, tail: nat)
    requires 0 < whole <= |u| && IntSize(u) == whole && TailSize(u[whole..]) == Some(tail)
    ensures UnsignedSize(u) == Some(whole + tail)
  {
  }

  /** A text written from well-formed parts is a JSON number with those parts. */
  lemma NumberTextIsRead(p: Parts, withExponent: bool)
    requires WellFormedParts(p) && (!withExponent ==> p.exponent == 0)
    ensures IsNumber(NumberText(p, withExponent))
    ensures PartsOf(NumberText(p, withExponent)) == p
  {
    var t := TailText(p, withExponent);
    var u := p.whole + t;
    var s := NumberText(p, withExponent);
    TailIsRead(p, withExponent);
    UnsignedIsRead(p, withExponent);
    ReadExponent(p.exponent);
    assert s == (if p.negative then "-" else "") + u;
    if p.negative {
      NegativeIsRead(u);
    } else {
      assert s == u;
    }
  }

  lemma NegativeIsRead(u: string)
    requires UnsignedSize(u) == Some(|u|)
    ensures var s := "-" + u; s[0] == '-' && s[1..] == u && NumberSize(s) == Some(|s|)
  {
    assert ("-" + u)[1..] == u;
  }

  // ----- ECMAScript's Number::toString

  /** A finite number: its shortest digits d.ddd and its exponent. */
  datatype Decimal = Zero | Finite(negative: bool, digits: string, exponent: int)

  /** No zero at either end of the digits. */
  predicate Normal(d: Decimal)
  {
    d.Finite? ==>
      d.digits != "" && AllDigits(d.digits) && d.digits[0] != '0' && d.digits[|d.digits| - 1] != '0'
  }

  function FormatEcmaNumber(d: Decimal): string
    requires Normal(d)
  {
    match d
    case Zero => "0"
    case Finite(negative, digits, exponent) =>
      var sign := if negative then "-" else "";
      var k := |digits|;
      var n := exponent + 1;
      if k <= n <= 21 then sign + digits + Repeat('0', n - k)
      else if 0 < n <= 21 then sign + digits[..n] + "." + digits[n..]
      else if -6 < n <= 0 then sign + "0." + Repeat('0', -n) + digits
      else
        var exponentSign := if n - 1 < 0 then "-" else "+";
        var exponentValue := if n - 1 < 0 then 1 - n else n - 1;
        if k == 1 then sign + digits + "e" + exponentSign + Digits(exponentValue)
        else sign + digits[..1] + "." + digits[1..] + "e" + exponentSign + Digits(exponentValue)
  }

  /** The parts that each of the branches writes. */
  function EcmaParts(d: Decimal): (Parts, bool)
    requires Normal(d)
  {
    match d
    case Zero => (Parts(false, "0", "", 0), false)
    case Finite(negative, digits, exponent) =>
      var k := |digits|;
      var n := exponent + 1;
      if k <= n <= 21 then (Parts(negative, digits + Repeat('0', n - k), "", 0), false)
      else if 0 < n <= 21 then (Parts(negative, digits[..n], digits[n..], 0), false)
      else if -6 < n <= 0 then (Parts(negative, "0", Repeat('0', -n) + digits, 0), false)
      else (Parts(negative, digits[..1], digits[1..], n - 1), true)
  }

  lemma EcmaPartsAreWellFormed(d: Decimal)
    requires Normal(d)
    ensures WellFormedParts(EcmaParts(d).0) && (!EcmaParts(d).1 ==> EcmaParts(d).0.exponent == 0)
  {
    if d.Finite? {
      assert forall i | 0 <= i < |d.digits| :: d.digits[i] in d.digits;
      var n := d.exponent + 1;
      if 0 < n < |d.digits| {
        assert forall c | c in d.digits[..n] :: c in d.digits;
        assert forall c | c in d.digits[n..] :: c in d.digits;
      }
      assert forall c | c in d.digits[1..] :: c in d.digits;
    }
  }

  lemma EcmaText(d: Decimal)
    requires Normal(d)
    ensures FormatEcmaNumber(d) == NumberText(EcmaParts(d).0, EcmaParts(d).1)
  {
    if d.Finite? {
      var n, k := d.exponent + 1, |d.digits|;
      if k <= n <= 21 {
        WholeText(d);
      } else if 0 < n <= 21 || -6 < n <= 0 {
        PlainText(d);
      } else {
        ScientificText(d);
      }
    }
  }

  lemma Assoc3(a: string, b: string, c: string)
    ensures a + b + c == a + (b + c)
  {
  }

  lemma WholeText(d: Decimal)
    requires Normal(d) && d.Finite? && |d.digits| <= d.exponent + 1 <= 21
    ensures FormatEcmaNumber(d) == NumberText(EcmaParts(d).0, false)
  {
    var whole := d.digits + Repeat('0', d.exponent + 1 - |d.digits|);
    assert whole + ("" + "") == whole;
    Assoc3(if d.negative then "-" else "", d.digits, Repeat('0', d.exponent + 1 - |d.digits|));
  }

  lemma PlainText(d: Decimal)
    requires Normal(d) && d.Finite? && !(|d.digits| <= d.exponent + 1 <= 21) && -6 < d.exponent + 1 <= 21
    ensures FormatEcmaNumber(d) == NumberText(EcmaParts(d).0, false)
  {
    var sign := if d.negative then "-" else "";
    var n := d.exponent + 1;
    if 0 < n {
      PointText(sign, d.digits[..n], d.digits[n..]);
    } else {
      PointText(sign, "0", Repeat('0', -n) + d.digits);
      assert "0." == "0" + ".";
      Assoc3(sign, "0", ".");
      Assoc3(sign + "0.", Repeat('0', -n), d.digits);
    }
  }

  lemma PointText(sign: string, whole: string, fraction: string)
    requires fraction != ""
    ensures sign + whole + "." + fraction == sign + (whole + (FractionText(fraction) + ""))
  {
    Assoc3(sign + whole, ".", fraction);
    Assoc3(sign, whole, "." + fraction);
    assert ("." + fraction) + "" == "." + fraction;
  }

  lemma ScientificText(d: Decimal)
    requires Normal(d) && d.Finite? && EcmaParts(d).1
    ensures FormatEcmaNumber(d) == NumberText(EcmaParts(d).0, true)
  {
    var sign := if d.negative then "-" else "";
    var e, head, tail := d.exponent, d.digits[..1], d.digits[1..];
    if |d.digits| == 1 {
      assert head == d.digits && tail == "";
      PowerText(sign + head, e);
      Assoc3(sign, head, ExponentText(e));
      assert "" + ExponentText(e) == ExponentText(e);
    } else {
      PowerText(sign + head + "." + tail, e);
      FivePieces(sign, head, tail, ExponentText(e));
    }
  }

  lemma FivePieces(sign: string, head: string, tail: string, power: string)
    requires tail != ""
    ensures sign + head + "." + tail + power == sign + (head + (FractionText(tail) + power))
  {
    Assoc3(sign + head, ".", tail);
    Assoc3(sign + head, "." + tail, power);
    Assoc3(sign, head, "." + tail + power);
  }

  lemma PowerText(front: string, e: int)
    ensures front + "e" + (if e < 0 then "-" else "+") + Digits(if e < 0 then -e else e) == front + ExponentText(e)
  {
    var mark, power := (if e < 0 then "-" else "+"), Digits(if e < 0 then -e else e);
    Assoc3(front, "e", mark);
    Assoc3(front, "e" + mark, power);
  }

  lemma {:induction false} Pow10OfNat(n: nat)
    ensures Pow10(n) == Power10(n) as real
  {
    if n > 0 {
      Pow10OfNat(n - 1);
    }
  }

  lemma {:induction false} Pow10Positive(e: int)
    ensures Pow10(e) > 0.0
    decreases if e < 0 then -e else e
  {
    if e > 0 {
      Pow10Positive(e - 1);
    } else if e < 0 {
      Pow10Positive(e + 1);
    }
  }

  function DecimalValue(d: Decimal): real
    requires Normal(d)
  {
    if d.Zero? then 0.0
    else Scaled(d.negative, DigitsValue(d.digits), d.exponent + 1 - |d.digits|)
  }

  /**
   * Every branch writes a legal JSON number that denotes exactly
   * sign x digits x 10^(n - k).
   */
  lemma FormatDenotesExactly(d: Decimal)
    requires Normal(d)
    ensures IsNumber(FormatEcmaNumber(d))
    ensures var p := PartsOf(FormatEcmaNumber(d)); WellFormedParts(p) && Denotes(p) == DecimalValue(d)
  {
    EcmaPartsAreWellFormed(d);
    EcmaText(d);
    NumberTextIsRead(EcmaParts(d).0, EcmaParts(d).1);
    PartsDenote(d);
  }

  lemma PartsDenote(d: Decimal)
    requires Normal(d) && WellFormedParts(EcmaParts(d).0)
    ensures Denotes(EcmaParts(d).0) == DecimalValue(d)
  {
    var p := EcmaParts(d).0;
    if d.Zero? {
      assert p.whole + p.fraction == "0";
      assert "0"[..0] == "";
    } else {
      var k, n := |d.digits|, d.exponent + 1;
      if k <= n <= 21 {
        PaddedDenotes(d);
      } else {
        SplitDenotes(d);
      }
    }
  }

  lemma PaddedDenotes(d: Decimal)
    requires Normal(d) && d.Finite? && |d.digits| <= d.exponent + 1 <= 21 && WellFormedParts(EcmaParts(d).0)
    ensures Denotes(EcmaParts(d).0) == DecimalValue(d)
  {
    var p, m := EcmaParts(d).0, d.exponent + 1 - |d.digits|;
    assert p.whole + p.fraction == p.whole;
    DigitsValueOfZeros(d.digits, m);
    ScaledUp(d.negative, DigitsValue(d.digits), m);
  }

  /** In the other branches the digits are all there, behind zeros at most. */
  lemma SplitDenotes(d: Decimal)
    requires Normal(d) && d.Finite? && !(|d.digits| <= d.exponent + 1 <= 21) && WellFormedParts(EcmaParts(d).0)
    ensures Denotes(EcmaParts(d).0) == DecimalValue(d)
  {
    var p, n := EcmaParts(d).0, d.exponent + 1;
    SplitDigits(d);
    assert p.exponent - |p.fraction| == n - |d.digits|;
  }

  /** However the digits are split, they have the same value. */
  lemma SplitDigits(d: Decimal)
    requires Normal(d) && d.Finite? && !(|d.digits| <= d.exponent + 1 <= 21) && WellFormedParts(EcmaParts(d).0)
    ensures var p := EcmaParts(d).0;
            AllDigits(p.whole + p.fraction) && DigitsValue(p.whole + p.fraction) == DigitsValue(d.digits)
  {
    var p, n := EcmaParts(d).0, d.exponent + 1;
    if -6 < n <= 0 {
      ZeroFirst(-n);
      assert p.whole + p.fraction == "0" + Repeat('0', -n) + d.digits;
      DigitsValueAfterZeros(1 - n, d.digits);
    } else {
      assert p.whole + p.fraction == d.digits;
    }
  }

  lemma ScaledUp(negative: bool, v: nat, m: nat)
    ensures Scaled(negative, v * Power10(m), 0) == Scaled(negative, v, m)
  {
    var p := Power10(m);
    Pow10OfNat(m);
    assert (v * p) as real == v as real * p as real;
  }

  lemma {:induction false} ZeroFirst(n: nat)
    ensures "0" + Repeat('0', n) == Repeat('0', n + 1)
  {
    if n > 0 {
      ZeroFirst(n - 1);
    }
  }

  // ----- distinct numbers print distinctly

  lemma NormalValue(digits: string)
    requires Normal(Finite(false, digits, 0))
    ensures DigitsValue(digits) > 0 && DigitsValue(digits) % 10 != 0
  {
    DigitsOfDigitsValue(digits);
    var last := digits[|digits| - 1];
    assert last in digits;
    assert DigitValue(last) != 0;
  }

  lemma Pow10Step(e: int)
    ensures Pow10(e) == 10.0 * Pow10(e - 1)
  {
  }

  lemma TenIsCommon(p: real, q: real)
    ensures 10.0 * (p * q) == p * (10.0 * q)
  {
  }

  lemma {:induction false} Pow10Adds(e: int, n: nat)
    ensures Pow10(e + n) == Pow10(e) * Power10(n) as real
    decreases n
  {
    if n > 0 {
      Pow10Adds(e, n - 1);
      Pow10Step(e + n);
      TenIsCommon(Pow10(e), Power10(n - 1) as real);
    }
  }

  lemma CancelFactor(a: real, b: real, c: real)
    requires c > 0.0 && a * c == b * c
    ensures a == b
  {
    assert (a - b) * c == 0.0;
  }

  /** A scaled value that has no factor 10 was not scaled. */
  lemma SameScale(x: nat, ex: int, y: nat, ey: int)
    requires y % 10 != 0 && ex >= ey
    requires x as real * Pow10(ex) == y as real * Pow10(ey)
    ensures x == y && ex == ey
  {
    var n := ex - ey;
    Pow10Positive(ey);
    Pow10Adds(ey, n);
    SameMultiple(x, y, Power10(n), Pow10(ey), Pow10(ex));
    NotScaled(x, y, n);
  }

  lemma NotScaled(x: nat, y: nat, n: nat)
    ensures x * Power10(n) == y && y % 10 != 0 ==> n == 0 && x == y
  {
    if x * Power10(n) == y && y % 10 != 0 && n > 0 {
      assert Power10(n) == 10 * Power10(n - 1);
      TenDivides(x, Power10(n - 1));
    }
  }

  lemma SameMultiple(x: nat, y: nat, p: nat, scale: real, scaled: real)
    ensures scale > 0.0 && scaled == scale * p as real && x as real * scaled == y as real * scale ==> x * p == y
  {
    if scale > 0.0 && scaled == scale * p as real && x as real * scaled == y as real * scale {
      calc {
        (x as real * p as real) * scale;
        x as real * (scale * p as real);
        x as real * scaled;
        y as real * scale;
      }
      CancelFactor(x as real * p as real, y as real, scale);
      assert (x * p) as real == x as real * p as real;
    }
  }

  lemma TenDivides(x: nat, q: nat)
    ensures x * (10 * q) % 10 == 0
  {
    assert x * (10 * q) == 10 * (x * q);
  }

  /** Distinct numbers print distinctly. */
  lemma FormatIsInjective(a: Decimal, b: Decimal)
    requires Normal(a) && Normal(b) && FormatEcmaNumber(a) == FormatEcmaNumber(b)
    ensures a == b
  {
    FormatDenotesExactly(a);
    FormatDenotesExactly(b);
    assert DecimalValue(a) == DecimalValue(b);
    DecimalIsDetermined(a, b);
  }

  lemma FiniteIsNotZero(a: Decimal)
    requires Normal(a) && a.Finite?
    ensures DecimalValue(a) != 0.0 && (DecimalValue(a) < 0.0 <==> a.negative)
  {
    NormalValue(a.digits);
    Pow10Positive(a.exponent + 1 - |a.digits|);
    var v := DigitsValue(a.digits) as real * Pow10(a.exponent + 1 - |a.digits|);
    assert v > 0.0;
  }

  lemma DecimalIsDetermined(a: Decimal, b: Decimal)
    requires Normal(a) && Normal(b) && DecimalValue(a) == DecimalValue(b)
    ensures a == b
  {
    if a.Finite? {
      FiniteIsNotZero(a);
    }
    if b.Finite? {
      FiniteIsNotZero(b);
    }
    if a.Finite? && b.Finite? {
      SameMagnitude(a, b);
    }
  }

  lemma SameMagnitude(a: Decimal, b: Decimal)
    requires Normal(a) && Normal(b) && a.Finite? && b.Finite? && a.negative == b.negative
    requires DecimalValue(a) == DecimalValue(b)
    ensures a == b
  {
    NormalValue(a.digits);
    NormalValue(b.digits);
    SameScaled(a.negative, DigitsValue(a.digits), a.exponent + 1 - |a.digits|,
               DigitsValue(b.digits), b.exponent + 1 - |b.digits|);
    SameDigits(a.digits, b.digits);
  }

  lemma ScaledIs(negative: bool, v: nat, e: int, magnitude: real)
    requires magnitude == v as real * Pow10(e)
    ensures Scaled(negative, v, e) == if negative then -magnitude else magnitude
  {
  }

  lemma SameScaled(negative: bool, x: nat, ex: int, y: nat, ey: int)
    requires x % 10 != 0 && y % 10 != 0
    requires Scaled(negative, x, ex) == Scaled(negative, y, ey)
    ensures x == y && ex == ey
  {
    var a, b := x as real * Pow10(ex), y as real * Pow10(ey);
    ScaledIs(negative, x, ex, a);
    ScaledIs(negative, y, ey, b);
    SameSign(negative, a, b);
    SameProduct(x, ex, y, ey, a);
  }

  lemma SameSign(negative: bool, a: real, b: real)
    requires (if negative then -a else a) == (if negative then -b else b)
    ensures a == b
  {
  }

  lemma SameProduct(x: nat, ex: int, y: nat, ey: int, v: real)
    requires x % 10 != 0 && y % 10 != 0
    requires v == x as real * Pow10(ex) && v == y as real * Pow10(ey)
    ensures x == y && ex == ey
  {
    if ex >= ey {
      SameScale(x, ex, y, ey);
    } else {
      SameScale(y, ey, x, ex);
    }
  }

  lemma SameDigits(s: string, t: string)
    requires Normal(Finite(false, s, 0)) && Normal(Finite(false, t, 0)) && DigitsValue(s) == DigitsValue(t)
    ensures s == t
  {
    DigitsOfDigitsValue(s);
    DigitsOfDigitsValue(t);
  }

  lemma DigitsLength(n: nat)
    requires n < 1000
    ensures |Digits(n)| <= 3
  {
    if n >= 10 {
      assert Digits(n) == Digits(n / 10) + [DigitChar(n % 10)];
      if n >= 100 {
        assert n / 10 / 10 < 10;
      }
    }
  }

  /** A double has at most 17 shortest digits and an exponent from -324 to 308, and prints in at most 25 characters. */
  lemma FormatIsShort(d: Decimal)
    requires Normal(d)
    requires d.Finite? ==> |d.digits| <= 17 && -324 <= d.exponent <= 308
    ensures |FormatEcmaNumber(d)| <= 25
  {
    if d.Finite? {
      var n := d.exponent + 1;
      DigitsLength(if n - 1 < 0 then 1 - n else n - 1);
    }
  }

  // ----- integers

  /** strconv.AppendInt in base 10. */
  function IntegerText(n: int): string
  {
    if n < 0 then "-" + Digits(-n) else Digits(n)
  }

  const MIN_INT64 := -0x8000_0000_0000_0000
  const MAX_INT64 := 0x7FFF_FFFF_FFFF_FFFF

  /** strconv.ParseInt of a number's text: no fraction, no exponent, 64 bits. */
  function ParseInt64(s: string): Option<int>
  {
    var negative := s != "" && s[0] == '-';
    var u := if negative || (s != "" && s[0] == '+') then s[1..] else s;
    if u == "" || !AllDigits(u) then None
    else
      var v: int := if negative then -(DigitsValue(u) as int) else DigitsValue(u);
      if MIN_INT64 <= v <= MAX_INT64 then Some(v) else None
  }

  lemma IntegerRoundTrip(n: int)
    ensures IsNumber(IntegerText(n))
    ensures MIN_INT64 <= n <= MAX_INT64 ==> ParseInt64(IntegerText(n)) == Some(n)
  {
    IntegerIsNumber(n);
    if MIN_INT64 <= n <= MAX_INT64 {
      IntegerIsParsed(n);
    }
  }

  lemma IntegerIsNumber(n: int)
    ensures IsNumber(IntegerText(n))
  {
    var d := Digits(if n < 0 then -n else n);
    var p := Parts(n < 0, d, "", 0);
    NumberTextIsRead(p, false);
    assert FractionText("") + "" == "";
    assert d + "" == d;
    assert "" + d == d;
  }

  lemma IntegerIsParsed(n: int)
    requires MIN_INT64 <= n <= MAX_INT64
    ensures ParseInt64(IntegerText(n)) == Some(n)
  {
    if n < 0 {
      DigitsValueOfDigits(-n);
      NegativeIsParsed(Digits(-n));
    } else {
      DigitsValueOfDigits(n);
      PositiveIsParsed(Digits(n));
    }
  }

  lemma NegativeIsParsed(d: string)
    requires d != "" && AllDigits(d)
    ensures -(DigitsValue(d) as int) >= MIN_INT64 ==> ParseInt64("-" + d) == Some(-(DigitsValue(d) as int))
  {
    assert ("-" + d)[1..] == d;
  }

  lemma PositiveIsParsed(d: string)
    requires d != "" && AllDigits(d)
    ensures DigitsValue(d) <= MAX_INT64 ==> ParseInt64(d) == Some(DigitsValue(d))
  {
    FirstIsDigit(d);
  }

  lemma FirstIsDigit(d: string)
    requires d != "" && AllDigits(d)
    ensures IsDigit(d[0])
  {
    assert d[0] in d;
  }
}
