/**
 * The canonical form of a tree that conforms to a schema: the properties in the order
 * of the schema, each once, and every number in its one spelling. It conforms again,
 * it is its own canonical form, and it is no longer than the schema allows.
 */
module CanonicalForm {
  import opened Bytes
  import opened JsonText
  import opened Json
  import opened Schema
  import JsonNumber

  function Normalised(near: Nearest, s: Schema, v: Value): Value
    decreases s, 1
  {
    match s
    case Integer(_, _) =>
      if AsInt64(v).Some? then Number(JsonNumber.IntegerText(AsInt64(v).value)) else v
    case Float(_, _) =>
      if AsFloat64(near, v).Some? then Number(JsonNumber.FormatEcmaNumber(AsFloat64(near, v).value)) else v
    case List(_, _, _, item) =>
      if v.Array?
      then Array(seq(|v.items|, i requires 0 <= i < |v.items| => Normalised(near, item, v.items[i])))
      else v
    case Struct(fields, _) =>
      if v.Object? then Object(Present(Slots(near, fields, v.members))) else v
    case _ => v
  }

  function Slots(near: Nearest, fields: seq<Field>, members: seq<Member>): (slots: seq<Slot>)
    ensures |slots| == |fields|
    ensures forall i | 0 <= i < |fields| :: slots[i].name == fields[i].name
    decreases fields, 0
  {
    seq(|fields|, i requires 0 <= i < |fields| =>
      Slot(fields[i].name, SlotValue(near, fields[i], Lookup(members, fields[i].name))))
  }

  function SlotValue(near: Nearest, f: Field, v: Option<Value>): Option<Value>
    decreases f, 0
  {
    match v
    case None => None
    case Some(x) => Some(Normalised(near, f.schema, x))
  }

  /** Property names differ, and conditions are on properties that have no other spelling. */
  predicate Sound(s: Schema)
  {
    match s
    case List(_, _, uniqueItems, item) => (uniqueItems ==> item.Text?) && Sound(item)
    case Struct(fields, rules) =>
      && (forall i, j | 0 <= i < j < |fields| :: fields[i].name != fields[j].name)
      && (forall i | 0 <= i < |fields| :: Sound(fields[i].schema))
      && (forall i | 0 <= i < |rules| :: RuleIsSound(fields, rules[i]))
    case _ => true
  }

  predicate RuleIsSound(fields: seq<Field>, r: Rule)
  {
    && (exists i | 0 <= i < |fields| :: fields[i].name == r.property && fields[i].schema.Enum?)
    && Declares(fields, r.name)
  }

  lemma LookupSlots(near: Nearest, fields: seq<Field>, rules: seq<Rule>, members: seq<Member>, i: nat)
    requires Sound(Struct(fields, rules)) && i < |fields|
    ensures Lookup(Present(Slots(near, fields, members)), fields[i].name) ==
            SlotValue(near, fields[i], Lookup(members, fields[i].name))
  {
    LookupPresent(Slots(near, fields, members), i);
  }

  lemma SlotsAreDeclared(near: Nearest, fields: seq<Field>, members: seq<Member>)
    ensures OnlyDeclared(fields, Present(Slots(near, fields, members)))
  {
    var slots := Slots(near, fields, members);
    PresentAreSlots(slots);
    forall m | m in Present(slots) ensures Declares(fields, m.name) {
      var i :| 0 <= i < |slots| && slots[i] == Slot(m.name, Some(m.value));
      assert fields[i].name == m.name;
    }
  }

  lemma RuleIsKept(near: Nearest, fields: seq<Field>, rules: seq<Rule>, members: seq<Member>, r: Rule)
    requires Sound(Struct(fields, rules)) && RuleIsSound(fields, r) && Obeys(r, members)
    ensures Obeys(r, Present(Slots(near, fields, members)))
  {
    var i :| 0 <= i < |fields| && fields[i].name == r.property && fields[i].schema.Enum?;
    var j :| 0 <= j < |fields| && fields[j].name == r.name;
    LookupSlots(near, fields, rules, members, i);
    LookupSlots(near, fields, rules, members, j);
  }

  /** The canonical form of a conforming tree conforms, and is its own canonical form. */
  lemma {:induction false} NormalisedConforms(near: Nearest, s: Schema, v: Value)
    requires Sound(s) && Settles(near) && Conforms(near, s, v)
    ensures Conforms(near, s, Normalised(near, s, v))
    ensures Normalised(near, s, Normalised(near, s, v)) == Normalised(near, s, v)
    decreases s, 1
  {
    match s {
      case Integer(_, _) =>
        JsonNumber.IntegerRoundTrip(AsInt64(v).value);
      case Float(_, _) =>
        assert near(v.digits).Some?;
      case List(_, _, uniqueItems, item) =>
        NormalisedListConforms(near, s, v);
      case Struct(fields, rules) =>
        NormalisedStructConforms(near, fields, rules, v.members);
      case _ =>
    }
  }

  lemma {:induction false} NormalisedListConforms(near: Nearest, s: Schema, v: Value)
    requires s.List? && Sound(s) && Settles(near) && Conforms(near, s, v)
    ensures Conforms(near, s, Normalised(near, s, v))
    ensures Normalised(near, s, Normalised(near, s, v)) == Normalised(near, s, v)
    decreases s, 0
  {
    var w := Normalised(near, s, v);
    forall i | 0 <= i < |v.items|
      ensures Conforms(near, s.item, w.items[i]) && Normalised(near, s.item, w.items[i]) == w.items[i]
    {
      NormalisedConforms(near, s.item, v.items[i]);
    }
    if s.uniqueItems {
      assert w.items == v.items;
    }
    assert Normalised(near, s, w).items == w.items;
  }

  lemma {:induction false} NormalisedStructConforms(
    near: Nearest, fields: seq<Field>, rules: seq<Rule>, members: seq<Member>)
    requires Sound(Struct(fields, rules)) && Settles(near) && Conforms(near, Struct(fields, rules), Object(members))
    ensures var again := Present(Slots(near, fields, members));
            && Conforms(near, Struct(fields, rules), Object(again))
            && Slots(near, fields, again) == Slots(near, fields, members)
    decreases fields, 0
  {
    var again := Present(Slots(near, fields, members));
    SlotsAreDeclared(near, fields, members);
    forall i | 0 <= i < |fields|
      ensures SlotKeeps(near, fields[i], members, again)
    {
      LookupSlots(near, fields, rules, members, i);
      if Lookup(members, fields[i].name).Some? {
        NormalisedConforms(near, fields[i].schema, Lookup(members, fields[i].name).value);
      }
    }
    assert HasRequired(fields, again);
    assert FieldsConform(near, fields, again);
    forall i | 0 <= i < |rules| ensures Obeys(rules[i], again) {
      RuleIsKept(near, fields, rules, members, rules[i]);
    }
    assert Slots(near, fields, again) == Slots(near, fields, members);
  }

  predicate SlotKeeps(near: Nearest, f: Field, members: seq<Member>, again: seq<Member>)
  {
    && SlotValue(near, f, Lookup(again, f.name)) == SlotValue(near, f, Lookup(members, f.name))
    && (Lookup(again, f.name).Some? <==> Lookup(members, f.name).Some?)
    && (Lookup(again, f.name).Some? ==> Conforms(near, f.schema, Lookup(again, f.name).value))
  }

  // ----- text that needs no escape

  predicate IsPlain(c: char)
  {
    0x20 <= c as int < 0x80 && c != '"' && c != '\\'
  }

  predicate AllPlain(s: string)
  {
    forall c | c in s :: IsPlain(c)
  }

  lemma PlainStep(s: string)
    requires s != "" && IsPlain(s[0])
    ensures RuneSize(s) == 1 && StepSize(s) == 1 && EscapedStep(s) == [s[0]]
  {
  }

  lemma {:induction false} PlainText(s: string)
    requires AllPlain(s)
    ensures Escape(s) == s && ValidText(s) && RuneCount(s) == |s|
  {
    if s != "" {
      var rest := s[1..];
      assert s[0] in s && forall c | c in rest :: c in s;
      PlainStep(s);
      PlainText(rest);
      calc {
        Escape(s);
        EscapedStep(s) + Escape(rest);
        [s[0]] + rest;
        s;
      }
    }
  }

  /** The schema allows only characters that are written as they are. */
  predicate PlainSchema(s: Schema)
  {
    match s
    case Text(_, maxLength, pattern) => maxLength > 0 && PlainPattern(pattern)
    case Enum(values) => forall i | 0 <= i < |values| :: AllPlain(values[i])
    case AnyObject => false
    case List(_, _, _, item) => PlainSchema(item)
    case Struct(fields, _) => forall i | 0 <= i < |fields| :: AllPlain(fields[i].name) && PlainSchema(fields[i].schema)
    case _ => true
  }

  predicate PlainPattern(p: Pattern)
  {
    p !in {WebsocketPattern, PrintablePattern, NamePattern, NoNulPattern}
  }

  lemma PlainMatch(p: Pattern, s: string)
    requires PlainPattern(p) && Matches(p, s)
    ensures AllPlain(s)
  {
    forall c | c in s ensures IsPlain(c) {
      assert Allowed(p, c);
    }
  }

  // ----- canonical forms read back, and are short

  function Larger(a: nat, b: nat): nat { if a < b then b else a }

  function Longest(values: seq<string>): nat
  {
    if values == [] then 0 else Larger(|values[0]|, Longest(values[1..]))
  }

  /** The most bytes that a conforming tree needs. */
  function MaxSize(s: Schema): nat
    decreases s, 1
  {
    match s
    case Text(_, maxLength, _) => maxLength + 2
    case Enum(values) => Longest(values) + 2
    case Integer(minimum, maximum) => Larger(|JsonNumber.IntegerText(minimum)|, |JsonNumber.IntegerText(maximum)|)
    case Float(_, _) => 25
    case Boolean => 5
    case AnyObject => 0
    case List(_, maxItems, _, item) => 2 + maxItems * (MaxSize(item) + 1)
    case Struct(fields, _) => 2 + MaxFieldsSize(fields)
  }

  function MaxFieldsSize(fields: seq<Field>): nat
    decreases fields, 0
  {
    if fields == [] then 0 else MaxFieldsSize(fields[..|fields| - 1]) + MaxFieldSize(fields[|fields| - 1])
  }

  /** A comma, the name in quotes, a colon and the value. */
  function MaxFieldSize(f: Field): nat
    decreases f, 0
  {
    |f.name| + 4 + MaxSize(f.schema)
  }

  lemma {:induction false} LongestIsLongest(values: seq<string>, value: string)
    requires value in values
    ensures |value| <= Longest(values)
  {
    if value != values[0] {
      LongestIsLongest(values[1..], value);
    }
  }

  lemma {:induction false} DigitsGrow(m: nat, n: nat)
    requires m <= n
    ensures |JsonNumber.Digits(m)| <= |JsonNumber.Digits(n)|
  {
    if n >= 10 && m >= 10 {
      DigitsGrow(m / 10, n / 10);
    }
  }

  lemma IntegerIsShort(n: int, minimum: int, maximum: int)
    requires minimum <= n <= maximum
    ensures |JsonNumber.IntegerText(n)| <= Larger(|JsonNumber.IntegerText(minimum)|, |JsonNumber.IntegerText(maximum)|)
  {
    if n < 0 {
      DigitsGrow(-n, -minimum);
    } else {
      DigitsGrow(n, maximum);
    }
  }

  /** A conforming tree in canonical form is read back, and its size is bounded. */
  lemma {:induction false} ConformingIsCanonical(near: Nearest, s: Schema, v: Value)
    requires Sound(s) && PlainSchema(s) && Settles(near) && Conforms(near, s, v) && Normalised(near, s, v) == v
    ensures Canonical(v) && |Render(v)| <= MaxSize(s)
    decreases s, 2
  {
    match s {
      case Text(_, _, pattern) =>
        PlainMatch(pattern, v.text);
        PlainText(v.text);
      case Enum(values) =>
        LongestIsLongest(values, v.text);
        PlainText(v.text);
      case Integer(minimum, maximum) =>
        var n := AsInt64(v).value;
        JsonNumber.IntegerRoundTrip(n);
        IntegerIsShort(n, minimum, maximum);
      case Float(_, _) =>
        JsonNumber.FormatDenotesExactly(AsFloat64(near, v).value);
        JsonNumber.FormatIsShort(AsFloat64(near, v).value);
      case List(_, maxItems, _, item) =>
        forall i | 0 <= i < |v.items| ensures Canonical(v.items[i]) && |Render(v.items[i])| <= MaxSize(item) {
          ItemIsItsOwnForm(near, s, v, i);
          ConformingIsCanonical(near, item, v.items[i]);
        }
        ListIsCanonical(v.items, maxItems, MaxSize(item));
      case Struct(fields, rules) =>
        StructIsCanonical(near, fields, rules, v.members);
      case Boolean =>
    }
  }

  lemma ItemIsItsOwnForm(near: Nearest, s: Schema, v: Value, i: nat)
    requires s.List? && v.Array? && i < |v.items|
    ensures Conforms(near, s, v) ==> Conforms(near, s.item, v.items[i])
    ensures Normalised(near, s, v) == v ==> Normalised(near, s.item, v.items[i]) == v.items[i]
  {
    assert Normalised(near, s, v).items[i] == Normalised(near, s.item, v.items[i]);
  }

  lemma ListIsCanonical(items: seq<Value>, maxItems: nat, n: nat)
    requires |items| <= maxItems && forall i | 0 <= i < |items| :: Canonical(items[i]) && |Render(items[i])| <= n
    ensures Canonical(Array(items)) && |Render(Array(items))| <= 2 + maxItems * (n + 1)
  {
    ItemsSize(items, n);
    Multiply(|items|, maxItems, n + 1);
  }

  lemma Multiply(a: nat, b: nat, c: nat)
    requires a <= b
    ensures a * c <= b * c
  {
  }

  lemma {:induction false} ItemsSize(items: seq<Value>, n: nat)
    requires forall i | 0 <= i < |items| :: |Render(items[i])| <= n
    ensures |RenderItems(items)| <= |items| * (n + 1)
  {
    if items != [] {
      ItemsSize(items[1..], n);
      assert |items| * (n + 1) == (|items| - 1) * (n + 1) + n + 1;
    }
  }

  lemma {:induction false} StructIsCanonical(near: Nearest, fields: seq<Field>, rules: seq<Rule>, members: seq<Member>)
    requires var s := Struct(fields, rules);
             Sound(s) && PlainSchema(s) && Conforms(near, s, Object(members))
    requires Settles(near) && Present(Slots(near, fields, members)) == members
    ensures Canonical(Object(members)) && |Render(Object(members))| <= MaxSize(Struct(fields, rules))
    decreases fields, 1
  {
    var slots := Slots(near, fields, members);
    forall i | 0 <= i < |fields| ensures SlotFits(slots[i], fields[i]) {
      LookupSlots(near, fields, rules, members, i);
      PlainText(fields[i].name);
      if Lookup(members, fields[i].name).Some? {
        ConformingIsCanonical(near, fields[i].schema, Lookup(members, fields[i].name).value);
      }
    }
    SlotsFit(slots, fields);
  }

  predicate SlotFits(slot: Slot, f: Field)
  {
    && slot.name == f.name && ValidText(f.name) && |Quote(f.name)| == |f.name| + 2
    && (slot.value.Some? ==> Canonical(slot.value.value) && |Render(slot.value.value)| <= MaxSize(f.schema))
  }

  lemma {:induction false} SlotsFit(slots: seq<Slot>, fields: seq<Field>)
    requires |slots| == |fields| && forall i | 0 <= i < |fields| :: SlotFits(slots[i], fields[i])
    ensures Canonical(Object(Present(slots))) && |RenderMembers(Present(slots))| <= MaxFieldsSize(fields)
  {
    if slots != [] {
      var n := |slots| - 1;
      SlotsFit(slots[..n], fields[..n]);
      assert SlotFits(slots[n], fields[n]);
      if slots[n].value.Some? {
        RenderMembersAppend(Present(slots[..n]), Member(slots[n].name, slots[n].value.value));
      } else {
        assert Present(slots) == Present(slots[..n]);
      }
    }
  }

  // ----- the canonical form of what was read

  predicate NamesAreValid(s: Schema)
  {
    match s
    case List(_, _, _, item) => NamesAreValid(item)
    case Struct(fields, _) => forall i | 0 <= i < |fields| :: ValidText(fields[i].name) && NamesAreValid(fields[i].schema)
    case _ => true
  }

  predicate SlotsAreCanonical(slots: seq<Slot>)
  {
    forall i | 0 <= i < |slots| ::
      ValidText(slots[i].name) && (slots[i].value.Some? ==> Canonical(slots[i].value.value))
  }

  lemma {:induction false} PresentIsCanonical(slots: seq<Slot>)
    requires SlotsAreCanonical(slots)
    ensures Canonical(Object(Present(slots)))
  {
    if slots != [] {
      PresentIsCanonical(slots[..|slots| - 1]);
    }
  }

  /** Normalising keeps a tree canonical, whatever it conforms to. */
  lemma {:induction false} NormalisedIsCanonical(near: Nearest, s: Schema, v: Value)
    requires Canonical(v) && NamesAreValid(s)
    ensures Canonical(Normalised(near, s, v))
    decreases s, 1
  {
    match s {
      case Integer(_, _) =>
        if AsInt64(v).Some? {
          JsonNumber.IntegerRoundTrip(AsInt64(v).value);
        }
      case Float(_, _) =>
        if AsFloat64(near, v).Some? {
          JsonNumber.FormatDenotesExactly(AsFloat64(near, v).value);
        }
      case List(_, _, _, item) =>
        if v.Array? {
          forall i | 0 <= i < |v.items| ensures Canonical(Normalised(near, item, v.items[i])) {
            NormalisedIsCanonical(near, item, v.items[i]);
          }
        }
      case Struct(fields, _) =>
        if v.Object? {
          SlotsAreNormalised(near, fields, v.members);
          PresentIsCanonical(Slots(near, fields, v.members));
        }
      case _ =>
    }
  }

  lemma SlotValueOf(near: Nearest, f: Field, v: Value)
    ensures SlotValue(near, f, Some(v)) == Some(Normalised(near, f.schema, v))
  {
  }

  lemma {:induction false} SlotsAreNormalised(near: Nearest, fields: seq<Field>, members: seq<Member>)
    requires Canonical(Object(members))
    requires forall i | 0 <= i < |fields| :: ValidText(fields[i].name) && NamesAreValid(fields[i].schema)
    ensures SlotsAreCanonical(Slots(near, fields, members))
    decreases fields, 0
  {
    var slots := Slots(near, fields, members);
    forall i | 0 <= i < |slots|
      ensures ValidText(slots[i].name) && (slots[i].value.Some? ==> Canonical(slots[i].value.value))
    {
      var v := Lookup(members, fields[i].name);
      assert slots[i] == Slot(fields[i].name, SlotValue(near, fields[i], v));
      if v.Some? {
        var j :| 0 <= j < |members| && members[j] == Member(fields[i].name, v.value);
        assert Canonical(members[j].value);
        NormalisedIsCanonical(near, fields[i].schema, v.value);
        SlotValueOf(near, fields[i], v.value);
      }
    }
  }
}
