/**
 * JSON trees, the canonical rendering of a tree, and a reader of RFC 8259 that
 * stands for the JSON library: it undoes the rendering of every canonical tree.
 */
module Json {
  import opened Bytes
  import opened JsonText

  /** A number is its text, as a reader that keeps numbers as text leaves it. */
  datatype Value =
    | Null
    | Bool(value: bool)
    | Number(digits: string)
    | String(text: string)
    | Array(items: seq<Value>)
    | Object(members: seq<Member>)

  datatype Member = Member(name: string, value: Value)

  // ----- numbers (section 6 of RFC 8259)

  predicate IsDigit(c: char) { '0' <= c <= '9' }

  predicate AllDigits(s: string)
  {
    forall c | c in s :: IsDigit(c)
  }

  /** The run of digits at the start. */
  function DigitRun(s: string): (n: nat)
    ensures n <= |s|
  {
    if s == "" || !IsDigit(s[0]) then 0 else 1 + DigitRun(s[1..])
  }

  /** The length of the integer part, or 0 when there is none. */
  function IntSize(s: string): (n: nat)
    ensures n <= |s|
  {
    if s == "" then 0 else if s[0] == '0' then 1 else DigitRun(s)
  }

  /** The length of the fraction; a point without digits is an error. */
  function FractionSize(s: string): (r: Option<nat>)
    ensures r.Some? ==> r.value <= |s|
  {
    if s == "" || s[0] != '.' then Some(0)
    else if DigitRun(s[1..]) == 0 then None
    else Some(1 + DigitRun(s[1..]))
  }

  function ExponentSize(s: string): (r: Option<nat>)
    ensures r.Some? ==> r.value <= |s|
  {
    if s == "" || (s[0] != 'e' && s[0] != 'E') then Some(0)
    else
      var sign := if |s| > 1 && (s[1] == '+' || s[1] == '-') then 1 else 0;
      if DigitRun(s[1 + sign..]) == 0 then None
      else Some(1 + sign + DigitRun(s[1 + sign..]))
  }

  /** The length of the fraction and the exponent. */
  function TailSize(s: string): (r: Option<nat>)
    ensures r.Some? ==> r.value <= |s|
  {
    match FractionSize(s)
    case None => None
    case Some(fraction) => match ExponentSize(s[fraction..])
      case None => None
      case Some(exponent) => Some(fraction + exponent)
  }

  function UnsignedSize(s: string): (r: Option<nat>)
    ensures r.Some? ==> 0 < r.value <= |s|
  {
    var whole := IntSize(s);
    if whole == 0 then None
    else match TailSize(s[whole..])
      case None => None
      case Some(n) => Some(whole + n)
  }

  /** The length of the number at the start, or an error. */
  function NumberSize(s: string): (r: Option<nat>)
    ensures r.Some? ==> 0 < r.value <= |s|
  {
    if s != "" && s[0] == '-' then
      match UnsignedSize(s[1..])
      case None => None
      case Some(n) => Some(1 + n)
    else UnsignedSize(s)
  }

  predicate IsNumber(s: string)
  {
    NumberSize(s) == Some(|s|)
  }

  // ----- rendering

  function Render(v: Value): string
    decreases v, 1
  {
    match v
    case Null => "null"
    case Bool(b) => if b then "true" else "false"
    case Number(digits) => digits
    case String(text) => Quote(text)
    case Array(items) => "[" + RenderItems(items) + "]"
    case Object(members) => "{" + RenderMembers(members) + "}"
  }

  function RenderItems(items: seq<Value>): string
    decreases items, 0
  {
    if items == [] then ""
    else Render(items[0]) + (if |items| == 1 then "" else "," + RenderItems(items[1..]))
  }

  function RenderMember(m: Member): string
    decreases m, 2
  {
    Quote(m.name) + ":" + Render(m.value)
  }

  function RenderMembers(members: seq<Member>): string
    decreases members, 0
  {
    if members == [] then ""
    else RenderMember(members[0]) + (if |members| == 1 then "" else "," + RenderMembers(members[1..]))
  }

  lemma RenderItem(v: Value)
    ensures RenderItems([v]) == Render(v)
  {
    assert Render(v) + "" == Render(v);
  }

  lemma RenderItemThen(v: Value, rest: seq<Value>)
    requires rest != []
    ensures RenderItems([v] + rest) == Render(v) + ("," + RenderItems(rest))
  {
    assert ([v] + rest)[1..] == rest;
  }

  lemma RenderLone(m: Member)
    ensures RenderMembers([m]) == RenderMember(m)
  {
    assert RenderMember(m) + "" == RenderMember(m);
  }

  lemma RenderMemberThen(m: Member, rest: seq<Member>)
    requires rest != []
    ensures RenderMembers([m] + rest) == RenderMember(m) + ("," + RenderMembers(rest))
  {
    assert ([m] + rest)[1..] == rest;
  }

  lemma CommaAtTheEnd(a: string, b: string, c: string)
    ensures a + ("," + (b + "," + c)) == a + ("," + b) + "," + c
    ensures a + ("," + c) == a + "," + c
  {
  }

  lemma {:induction false} RenderItemsAppend(items: seq<Value>, v: Value)
    ensures RenderItems(items + [v]) == RenderItems(items) + (if items == [] then "" else ",") + Render(v)
  {
    RenderItem(v);
    if items == [] {
      assert items + [v] == [v];
    } else {
      var first, rest := items[0], items[1..];
      assert items == [first] + rest && items + [v] == [first] + (rest + [v]);
      RenderItemThen(first, rest + [v]);
      RenderItemsAppend(rest, v);
      CommaAtTheEnd(Render(first), RenderItems(rest), Render(v));
      if rest == [] {
        RenderItem(first);
      } else {
        RenderItemThen(first, rest);
      }
    }
  }

  lemma {:induction false} RenderMembersAppend(members: seq<Member>, m: Member)
    ensures RenderMembers(members + [m]) == RenderMembers(members) + (if members == [] then "" else ",") + RenderMember(m)
  {
    RenderLone(m);
    if members == [] {
      assert members + [m] == [m];
    } else {
      var first, rest := members[0], members[1..];
      assert members == [first] + rest && members + [m] == [first] + (rest + [m]);
      RenderMemberThen(first, rest + [m]);
      RenderMembersAppend(rest, m);
      CommaAtTheEnd(RenderMember(first), RenderMembers(rest), RenderMember(m));
      if rest == [] {
        RenderLone(first);
      } else {
        RenderMemberThen(first, rest);
      }
    }
  }

  // ----- reading

  predicate IsSpace(c: char) { c == ' ' || c == '\t' || c == '\n' || c == '\r' }

  function SkipSpace(s: string): (t: string)
    ensures |t| <= |s|
    ensures t != "" ==> !IsSpace(t[0])
  {
    if s != "" && IsSpace(s[0]) then SkipSpace(s[1..]) else s
  }

  /** The first value of a text, and what follows it. */
  function ReadValue(text: string): (r: Option<(Value, string)>)
    ensures r.Some? ==> |r.value.1| < |text|
    decreases |text|, 1
  {
    var s := SkipSpace(text);
    if s == "" then None
    else if s[0] == '{' then
      var t := SkipSpace(s[1..]);
      if t != "" && t[0] == '}' then Some((Object([]), t[1..]))
      else match ReadMembers(t)
        case None => None
        case Some((members, rest)) => Some((Object(members), rest))
    else if s[0] == '[' then
      var t := SkipSpace(s[1..]);
      if t != "" && t[0] == ']' then Some((Array([]), t[1..]))
      else match ReadItems(t)
        case None => None
        case Some((items, rest)) => Some((Array(items), rest))
    else ReadScalar(s)
  }

  function ReadScalar(s: string): (r: Option<(Value, string)>)
    requires s != ""
    ensures r.Some? ==> |r.value.1| < |s|
  {
    if s[0] == '"' then
      match ReadString(s[1..])
      case None => None
      case Some((text, rest)) => Some((String(text), rest))
    else if "null" <= s then Some((Null, s[4..]))
    else if "true" <= s then Some((Bool(true), s[4..]))
    else if "false" <= s then Some((Bool(false), s[5..]))
    else match NumberSize(s)
      case None => None
      case Some(n) => Some((Number(s[..n]), s[n..]))
  }

  function ReadItems(text: string): (r: Option<(seq<Value>, string)>)
    ensures r.Some? ==> |r.value.1| < |text|
    decreases |text|, 2
  {
    match ReadValue(text)
    case None => None
    case Some((v, after)) =>
      var s := SkipSpace(after);
      if s == "" then None
      else if s[0] == ']' then Some(([v], s[1..]))
      else if s[0] != ',' then None
      else match ReadItems(s[1..])
        case None => None
        case Some((items, rest)) => Some(([v] + items, rest))
  }

  function ReadMember(text: string): (r: Option<(Member, string)>)
    ensures r.Some? ==> |r.value.1| < |text|
    decreases |text|, 2
  {
    var s := SkipSpace(text);
    if s == "" || s[0] != '"' then None
    else match ReadString(s[1..])
      case None => None
      case Some((name, after)) =>
        var t := SkipSpace(after);
        if t == "" || t[0] != ':' then None
        else match ReadValue(t[1..])
          case None => None
          case Some((v, rest)) => Some((Member(name, v), rest))
  }

  function ReadMembers(text: string): (r: Option<(seq<Member>, string)>)
    ensures r.Some? ==> |r.value.1| < |text|
    decreases |text|, 3
  {
    match ReadMember(text)
    case None => None
    case Some((m, after)) =>
      var s := SkipSpace(after);
      if s == "" then None
      else if s[0] == '}' then Some(([m], s[1..]))
      else if s[0] != ',' then None
      else match ReadMembers(s[1..])
        case None => None
        case Some((members, rest)) => Some(([m] + members, rest))
  }

  // ----- reading undoes rendering

  /** Every text in the tree is valid UTF-8 and every number is a JSON number. */
  predicate Canonical(v: Value)
    decreases v
  {
    match v
    case Null => true
    case Bool(_) => true
    case Number(digits) => IsNumber(digits)
    case String(text) => ValidText(text)
    case Array(items) => forall i | 0 <= i < |items| :: Canonical(items[i])
    case Object(members) => forall i | 0 <= i < |members| :: ValidText(members[i].name) && Canonical(members[i].value)
  }

  /** What may follow a number without being read into it. */
  predicate EndsNumber(tail: string)
  {
    tail == "" || !(IsDigit(tail[0]) || tail[0] in {'.', 'e', 'E'})
  }

  lemma {:induction false} DigitRunExtends(s: string, tail: string)
    requires tail == "" || !IsDigit(tail[0])
    ensures DigitRun(s + tail) == DigitRun(s)
  {
    if s == "" {
      assert s + tail == tail;
    } else {
      assert (s + tail)[1..] == s[1..] + tail;
      DigitRunExtends(s[1..], tail);
    }
  }

  lemma IntSizeExtends(s: string, tail: string)
    requires EndsNumber(tail)
    ensures IntSize(s + tail) == IntSize(s)
  {
    DigitRunExtends(s, tail);
    if s == "" {
      assert s + tail == tail;
    }
  }

  lemma FractionSizeExtends(s: string, tail: string)
    requires EndsNumber(tail)
    ensures FractionSize(s + tail) == FractionSize(s)
  {
    if s == "" {
      assert s + tail == tail;
    } else {
      assert (s + tail)[1..] == s[1..] + tail;
      DigitRunExtends(s[1..], tail);
    }
  }

  lemma ExponentSizeExtends(s: string, tail: string)
    requires EndsNumber(tail)
    requires ExponentSize(s).Some?
    ensures ExponentSize(s + tail) == ExponentSize(s)
  {
    if s == "" {
      assert s + tail == tail;
    } else {
      var sign := if |s| > 1 && (s[1] == '+' || s[1] == '-') then 1 else 0;
      if |s| > 1 {
        assert (s + tail)[1 + sign..] == s[1 + sign..] + tail;
        DigitRunExtends(s[1 + sign..], tail);
      }
    }
  }

  lemma TailSizeExtends(s: string, tail: string)
    requires TailSize(s).Some? && EndsNumber(tail)
    ensures TailSize(s + tail) == TailSize(s)
  {
    var fraction := FractionSize(s).value;
    FractionSizeExtends(s, tail);
    assert (s + tail)[fraction..] == s[fraction..] + tail;
    ExponentSizeExtends(s[fraction..], tail);
  }

  lemma UnsignedSizeExtends(s: string, tail: string)
    requires UnsignedSize(s).Some? && EndsNumber(tail)
    ensures UnsignedSize(s + tail) == UnsignedSize(s)
  {
    IntSizeExtends(s, tail);
    assert (s + tail)[IntSize(s)..] == s[IntSize(s)..] + tail;
    TailSizeExtends(s[IntSize(s)..], tail);
  }

  lemma NumberSizeExtends(s: string, tail: string)
    requires IsNumber(s) && EndsNumber(tail)
    ensures NumberSize(s + tail) == Some(|s|)
  {
    if s[0] == '-' {
      NegativeParts(s);
      NegativeExtends(s[1..], tail);
    } else {
      PositiveSizeExtends(s, tail);
    }
  }

  lemma NegativeSize(u: string)
    ensures NumberSize("-" + u) == match UnsignedSize(u) case None => None case Some(n) => Some(1 + n)
  {
    assert ("-" + u)[1..] == u;
  }

  lemma NegativeParts(s: string)
    requires IsNumber(s) && s[0] == '-'
    ensures s == "-" + s[1..] && UnsignedSize(s[1..]) == Some(|s[1..]|)
  {
  }

  lemma NegativeExtends(u: string, tail: string)
    requires UnsignedSize(u) == Some(|u|) && EndsNumber(tail)
    ensures NumberSize("-" + u + tail) == Some(1 + |u|)
  {
    UnsignedSizeExtends(u, tail);
    NegativeSize(u + tail);
    Associate("-", u, tail);
  }

  lemma PositiveSizeExtends(s: string, tail: string)
    requires IsNumber(s) && s[0] != '-' && EndsNumber(tail)
    ensures NumberSize(s + tail) == Some(|s|)
  {
    assert UnsignedSize(s) == Some(|s|);
    UnsignedSizeExtends(s, tail);
    assert (s + tail)[0] == s[0];
  }

  lemma NumberStart(s: string)
    requires IsNumber(s)
    ensures s != "" && (s[0] == '-' || IsDigit(s[0]))
  {
  }

  lemma ReadQuoted(text: string, tail: string)
    requires ValidText(text)
    ensures Quote(text) != "" && (Quote(text) + tail)[0] == '"'
    ensures ReadString((Quote(text) + tail)[1..]) == Some((text, tail))
  {
    AfterQuote(Escape(text), tail);
    ReadEscaped(text, tail);
    RepairedOfValid(text);
  }

  lemma AfterQuote(e: string, tail: string)
    ensures var s := "\"" + e + "\"" + tail; s[0] == '"' && s[1..] == e + "\"" + tail
  {
  }

  lemma NoSpaceToSkip(s: string)
    requires s == "" || !IsSpace(s[0])
    ensures SkipSpace(s) == s
  {
  }

  /** The first character of a rendering tells its kind and is no white space. */
  lemma RenderStart(v: Value, tail: string)
    requires Canonical(v)
    ensures var s := Render(v) + tail;
            && s != "" && SkipSpace(s) == s
            && s[0] !in {']', '}', ',', ':'}
            && (s[0] == '{' <==> v.Object?) && (s[0] == '[' <==> v.Array?)
  {
    var s := Render(v) + tail;
    match v {
      case Number(digits) =>
        NumberStart(digits);
        assert s[0] == digits[0];
      case String(text) =>
        assert s[0] == '"';
      case Array(items) =>
        assert s[0] == '[';
      case Object(members) =>
        assert s[0] == '{';
      case Null =>
        assert s[0] == 'n';
      case Bool(b) =>
        assert s[0] == if b then 't' else 'f';
    }
  }

  lemma ReadLiteral(word: string, tail: string)
    ensures word <= word + tail && (word + tail)[|word|..] == tail
  {
  }

  lemma ReadNullOrBool(v: Value, tail: string)
    requires v.Null? || v.Bool?
    ensures ReadScalar(Render(v) + tail) == Some((v, tail))
  {
    var s := Render(v) + tail;
    ReadLiteral(Render(v), tail);
    if v.Null? {
      assert s[0] == 'n';
    } else if v.value {
      assert s[0] == 't';
    } else {
      assert s[0] == 'f';
    }
  }

  lemma ReadDigits(digits: string, tail: string)
    requires IsNumber(digits) && EndsNumber(tail)
    ensures ReadScalar(digits + tail) == Some((Number(digits), tail))
  {
    var s := digits + tail;
    NumberStart(digits);
    NumberSizeExtends(digits, tail);
    ScalarIsNumber(s, |digits|);
    assert s[..|digits|] == digits && s[|digits|..] == tail;
  }

  lemma ScalarIsNumber(s: string, n: nat)
    requires s != "" && (s[0] == '-' || IsDigit(s[0])) && NumberSize(s) == Some(n)
    ensures ReadScalar(s) == Some((Number(s[..n]), s[n..]))
  {
  }

  lemma ReadRenderedScalar(v: Value, tail: string)
    requires Canonical(v) && !v.Array? && !v.Object?
    requires v.Number? ==> EndsNumber(tail)
    ensures ReadScalar(Render(v) + tail) == Some((v, tail))
  {
    match v {
      case Number(digits) => ReadDigits(digits, tail);
      case String(text) => ReadQuoted(text, tail);
      case _ => ReadNullOrBool(v, tail);
    }
  }

  /**
   * Reading undoes rendering: the rendering of a canonical tree, with any text
   * after it that cannot be read into a number, reads back as that tree, and the
   * text after it is left.
   */
  lemma {:induction false} ReadRendered(v: Value, tail: string)
    requires Canonical(v)
    requires v.Number? ==> EndsNumber(tail)
    ensures ReadValue(Render(v) + tail) == Some((v, tail))
    decreases v, 1
  {
    match v {
      case Array(items) => ReadRenderedArray(items, tail);
      case Object(members) => ReadRenderedObject(members, tail);
      case _ =>
        RenderStart(v, tail);
        ReadRenderedScalar(v, tail);
    }
  }

  lemma AfterBracket(l: string, text: string, r: string, tail: string)
    requires |l| == 1
    ensures (l + text + r + tail)[1..] == text + (r + tail)
  {
  }

  lemma {:induction false} ReadRenderedArray(items: seq<Value>, tail: string)
    requires Canonical(Array(items))
    ensures ReadValue(Render(Array(items)) + tail) == Some((Array(items), tail))
    decreases items, 1
  {
    RenderStart(Array(items), tail);
    AfterBracket("[", RenderItems(items), "]", tail);
    if items == [] {
      var body := RenderItems(items) + ("]" + tail);
      assert body == "]" + tail;
      NoSpaceToSkip(body);
      assert body[1..] == tail;
    } else {
      ReadRenderedItems(items, tail);
    }
  }

  lemma {:induction false} ReadRenderedObject(members: seq<Member>, tail: string)
    requires Canonical(Object(members))
    ensures ReadValue(Render(Object(members)) + tail) == Some((Object(members), tail))
    decreases members, 1
  {
    RenderStart(Object(members), tail);
    AfterBracket("{", RenderMembers(members), "}", tail);
    if members == [] {
      var body := RenderMembers(members) + ("}" + tail);
      assert body == "}" + tail;
      NoSpaceToSkip(body);
      assert body[1..] == tail;
    } else {
      RenderMembersStart(members, "}" + tail);
      ReadRenderedMembers(members, tail);
    }
  }

  lemma {:induction false} ReadRenderedItems(items: seq<Value>, tail: string)
    requires items != [] && forall i | 0 <= i < |items| :: Canonical(items[i])
    ensures var s := RenderItems(items) + ("]" + tail);
            SkipSpace(s) == s && s[0] != ']' && ReadItems(s) == Some((items, tail))
    decreases items, 0
  {
    var v, rest := items[0], items[1..];
    assert items == [v] + rest;
    if rest == [] {
      assert items == [v];
      RenderItem(v);
      RenderStart(v, "]" + tail);
      ReadRendered(v, "]" + tail);
      ReadLastItem(Render(v) + ("]" + tail), v, tail);
      assert items == [v];
    } else {
      var later := RenderItems(rest) + ("]" + tail);
      RenderItemThen(v, rest);
      ItemsFollow(Render(v), RenderItems(rest), "]" + tail);
      RenderStart(v, "," + later);
      ReadRendered(v, "," + later);
      ReadRenderedItems(rest, tail);
      ReadItemsStep(Render(v) + ("," + later), v, later);
    }
  }

  lemma ItemsFollow(first: string, rest: string, tail: string)
    ensures first + ("," + rest) + tail == first + ("," + (rest + tail))
  {
  }

  lemma ReadLastItem(s: string, v: Value, tail: string)
    requires ReadValue(s) == Some((v, "]" + tail))
    ensures ReadItems(s) == Some(([v], tail))
  {
    NoSpaceToSkip("]" + tail);
    assert ("]" + tail)[1..] == tail;
  }

  lemma ReadItemsStep(s: string, v: Value, later: string)
    requires ReadValue(s) == Some((v, "," + later)) && ReadItems(later).Some?
    ensures ReadItems(s) == Some(([v] + ReadItems(later).value.0, ReadItems(later).value.1))
  {
    NoSpaceToSkip("," + later);
    assert ("," + later)[1..] == later;
  }

  lemma MemberThen(name: string, value: string, tail: string)
    ensures name + ":" + value + tail == name + (":" + (value + tail))
  {
  }

  lemma {:induction false} ReadRenderedMember(m: Member, tail: string)
    requires ValidText(m.name) && Canonical(m.value)
    requires m.value.Number? ==> EndsNumber(tail)
    ensures var s := RenderMember(m) + tail;
            SkipSpace(s) == s && s[0] == '"' && ReadMember(s) == Some((m, tail))
    decreases m, 2
  {
    var s, after := RenderMember(m) + tail, ":" + (Render(m.value) + tail);
    MemberThen(Quote(m.name), Render(m.value), tail);
    ReadQuoted(m.name, after);
    NoSpaceToSkip(s);
    NoSpaceToSkip(after);
    assert after[1..] == Render(m.value) + tail;
    ReadRendered(m.value, tail);
  }

  lemma {:induction false} ReadLastMember(m: Member, tail: string)
    requires ValidText(m.name) && Canonical(m.value)
    ensures var s := RenderMember(m) + ("}" + tail);
            ReadMembers(s) == Some(([m], tail))
    decreases m, 3
  {
    ReadRenderedMember(m, "}" + tail);
    NoSpaceToSkip("}" + tail);
    assert ("}" + tail)[1..] == tail;
  }

  lemma ReadMembersStep(s: string, m: Member, later: string)
    requires ReadMember(s) == Some((m, "," + later)) && ReadMembers(later).Some?
    ensures ReadMembers(s) == Some(([m] + ReadMembers(later).value.0, ReadMembers(later).value.1))
  {
    NoSpaceToSkip("," + later);
    assert ("," + later)[1..] == later;
  }

  lemma RenderMembersStart(members: seq<Member>, tail: string)
    requires members != []
    ensures var s := RenderMembers(members) + tail; s != "" && SkipSpace(s) == s && s[0] == '"'
  {
    var s := RenderMembers(members) + tail;
    var q := Quote(members[0].name);
    assert RenderMember(members[0]) == q + (":" + Render(members[0].value));
    assert q != "" && q[0] == '"';
    assert s[0] == RenderMember(members[0])[0] == q[0];
  }

  lemma {:induction false} ReadRenderedMembers(members: seq<Member>, tail: string)
    requires members != []
    requires forall i | 0 <= i < |members| :: ValidText(members[i].name) && Canonical(members[i].value)
    ensures ReadMembers(RenderMembers(members) + ("}" + tail)) == Some((members, tail))
    decreases members, 0
  {
    var m, rest := members[0], members[1..];
    assert members == [m] + rest;
    if rest == [] {
      assert members == [m];
      RenderLone(m);
      ReadLastMember(m, tail);
    } else {
      var later := RenderMembers(rest) + ("}" + tail);
      RenderMemberThen(m, rest);
      ItemsFollow(RenderMember(m), RenderMembers(rest), "}" + tail);
      ReadRenderedMember(m, "," + later);
      ReadRenderedMembers(rest, tail);
      ReadMembersStep(RenderMember(m) + ("," + later), m, later);
      assert ReadMembers(RenderMember(m) + ("," + later)) == Some(([m] + rest, tail));
    }
  }

  // ----- what is read is canonical

  lemma {:induction false} DigitRunOfPrefix(s: string, m: nat)
    requires DigitRun(s) <= m <= |s|
    ensures DigitRun(s[..m]) == DigitRun(s)
  {
    if s != "" && IsDigit(s[0]) {
      DigitRunOfPrefix(s[1..], m - 1);
      assert s[..m][1..] == s[1..][..m - 1];
    }
  }

  lemma IntSizeOfPrefix(s: string, m: nat)
    requires IntSize(s) <= m <= |s| && 0 < IntSize(s)
    ensures IntSize(s[..m]) == IntSize(s)
  {
    if s[0] != '0' {
      DigitRunOfPrefix(s, m);
    }
  }

  lemma FractionSizeOfPrefix(s: string, m: nat)
    requires FractionSize(s).Some? && FractionSize(s).value <= m <= |s|
    ensures FractionSize(s[..m]) == FractionSize(s)
  {
    if s != "" && s[0] == '.' {
      DigitRunOfPrefix(s[1..], m - 1);
      assert s[..m][1..] == s[1..][..m - 1];
    }
  }

  lemma ExponentSizeOfPrefix(s: string)
    requires ExponentSize(s).Some?
    ensures ExponentSize(s[..ExponentSize(s).value]) == ExponentSize(s)
  {
    var m := ExponentSize(s).value;
    if m > 0 {
      var sign := if |s| > 1 && (s[1] == '+' || s[1] == '-') then 1 else 0;
      DigitRunOfPrefix(s[1 + sign..], m - 1 - sign);
      assert s[..m][1 + sign..] == s[1 + sign..][..m - 1 - sign];
    }
  }

  lemma TailSizeOfPrefix(s: string)
    requires TailSize(s).Some?
    ensures TailSize(s[..TailSize(s).value]) == TailSize(s)
  {
    var m, fraction := TailSize(s).value, FractionSize(s).value;
    FractionSizeOfPrefix(s, m);
    ExponentSizeOfPrefix(s[fraction..]);
    assert s[..m][fraction..] == s[fraction..][..m - fraction];
  }

  lemma UnsignedSizeOfPrefix(s: string)
    requires UnsignedSize(s).Some?
    ensures UnsignedSize(s[..UnsignedSize(s).value]) == UnsignedSize(s)
  {
    var m, whole := UnsignedSize(s).value, IntSize(s);
    IntSizeOfPrefix(s, m);
    TailSizeOfPrefix(s[whole..]);
    assert s[..m][whole..] == s[whole..][..m - whole];
  }

  lemma NumberSizeOfPrefix(s: string)
    requires NumberSize(s).Some?
    ensures IsNumber(s[..NumberSize(s).value])
  {
    var m := NumberSize(s).value;
    if s[0] == '-' {
      UnsignedSizeOfPrefix(s[1..]);
      assert s[..m][1..] == s[1..][..m - 1];
    } else {
      UnsignedSizeOfPrefix(s);
    }
  }

  /** Whatever the reader accepts, it returns a canonical tree. */
  lemma {:induction false} ReadIsCanonical(text: string)
    ensures ReadValue(text).Some? ==> Canonical(ReadValue(text).value.0)
    decreases |text|, 1
  {
    var s := SkipSpace(text);
    if s != "" && ReadValue(text).Some? {
      if s[0] == '{' {
        var t := SkipSpace(s[1..]);
        if !(t != "" && t[0] == '}') {
          ReadMembersAreCanonical(t);
        }
      } else if s[0] == '[' {
        var t := SkipSpace(s[1..]);
        if !(t != "" && t[0] == ']') {
          ReadItemsAreCanonical(t);
        }
      } else if s[0] == '"' {
        ReadStringIsValid(s[1..]);
      } else if NumberSize(s).Some? {
        NumberSizeOfPrefix(s);
      }
    }
  }

  lemma {:induction false} ReadItemsAreCanonical(text: string)
    ensures ReadItems(text).Some? ==> Canonical(Array(ReadItems(text).value.0))
    decreases |text|, 2
  {
    ReadIsCanonical(text);
    if ReadValue(text).Some? {
      var s := SkipSpace(ReadValue(text).value.1);
      if s != "" && s[0] == ',' {
        ReadItemsAreCanonical(s[1..]);
      }
    }
  }

  lemma {:induction false} ReadMemberIsCanonical(text: string)
    ensures ReadMember(text).Some? ==>
              var m := ReadMember(text).value.0; ValidText(m.name) && Canonical(m.value)
    decreases |text|, 2
  {
    if ReadMember(text).Some? {
      var s := SkipSpace(text);
      ReadStringIsValid(s[1..]);
      var t := SkipSpace(ReadString(s[1..]).value.1);
      ReadIsCanonical(t[1..]);
    }
  }

  lemma {:induction false} ReadMembersAreCanonical(text: string)
    ensures ReadMembers(text).Some? ==> Canonical(Object(ReadMembers(text).value.0))
    decreases |text|, 3
  {
    ReadMemberIsCanonical(text);
    if ReadMember(text).Some? {
      var s := SkipSpace(ReadMember(text).value.1);
      if s != "" && s[0] == ',' {
        ReadMembersAreCanonical(s[1..]);
      }
    }
  }

  /** So canonical text is unambiguous: equal renderings come from equal trees. */
  lemma RenderIsInjective(v: Value, w: Value)
    requires Canonical(v) && Canonical(w) && Render(v) == Render(w)
    ensures v == w
  {
    ReadRendered(v, "");
    ReadRendered(w, "");
    assert Render(v) + "" == Render(w) + "";
  }
}
