/**
 * Message schemas and what they mean: which JSON trees conform to a schema, the list
 * of violations that is reported for one that does not, and the canonical form of a
 * tree that does.
 */
module Schema {
  import opened Bytes
  import opened JsonText
  import opened Json
  import JsonNumber
  import RepositoryIdentity

  // ----- properties of an object

  /** The value of a property. Of a repeated one, the last: the others are overwritten. */
  function Lookup(members: seq<Member>, name: string): (r: Option<Value>)
    ensures match r
            case Some(v) => Member(name, v) in members
            case None => forall m | m in members :: m.name != name
  {
    if members == [] then None
    else
      var last := members[|members| - 1];
      if last.name == name then Some(last.value) else Lookup(members[..|members| - 1], name)
  }

  /** A property that may be absent. */
  datatype Slot = Slot(name: string, value: Option<Value>)

  /** The members for the properties that are there. */
  function Present(slots: seq<Slot>): seq<Member>
  {
    if slots == [] then []
    else
      var last := slots[|slots| - 1];
      Present(slots[..|slots| - 1]) + (if last.value.Some? then [Member(last.name, last.value.value)] else [])
  }

  predicate DistinctNames(slots: seq<Slot>)
  {
    forall i, j | 0 <= i < j < |slots| :: slots[i].name != slots[j].name
  }

  lemma PresentAppend(slots: seq<Slot>, slot: Slot)
    ensures Present(slots + [slot]) ==
            Present(slots) + (if slot.value.Some? then [Member(slot.name, slot.value.value)] else [])
  {
    assert (slots + [slot])[..|slots|] == slots;
  }

  lemma LookupAppend(members: seq<Member>, m: Member, name: string)
    ensures Lookup(members + [m], name) == if m.name == name then Some(m.value) else Lookup(members, name)
  {
    assert (members + [m])[..|members|] == members;
  }

  lemma {:induction false} PresentNames(slots: seq<Slot>, name: string)
    requires forall i | 0 <= i < |slots| :: slots[i].name != name
    ensures Lookup(Present(slots), name) == None
  {
    if slots != [] {
      var front, last := slots[..|slots| - 1], slots[|slots| - 1];
      PresentNames(front, name);
      if last.value.Some? {
        LookupAppend(Present(front), Member(last.name, last.value.value), name);
      } else {
        assert Present(front) + [] == Present(front);
      }
    }
  }

  lemma {:induction false} LookupPresent(slots: seq<Slot>, k: nat)
    requires DistinctNames(slots) && k < |slots|
    ensures Lookup(Present(slots), slots[k].name) == slots[k].value
  {
    var n := |slots| - 1;
    var front, last := slots[..n], slots[n];
    if last.value.Some? {
      LookupAppend(Present(front), Member(last.name, last.value.value), slots[k].name);
    } else {
      assert Present(front) + [] == Present(front);
    }
    if k < n {
      LookupPresent(front, k);
    } else {
      PresentNames(front, last.name);
    }
  }

  lemma LookupAllPresent(slots: seq<Slot>)
    requires DistinctNames(slots)
    ensures forall k | 0 <= k < |slots| :: Lookup(Present(slots), slots[k].name) == slots[k].value
  {
    forall k | 0 <= k < |slots|
      ensures Lookup(Present(slots), slots[k].name) == slots[k].value
    {
      LookupPresent(slots, k);
    }
  }

  lemma {:induction false} PresentAreSlots(slots: seq<Slot>)
    ensures forall m | m in Present(slots) :: Slot(m.name, Some(m.value)) in slots
  {
    if slots != [] {
      var front, last := slots[..|slots| - 1], slots[|slots| - 1];
      PresentAreSlots(front);
      assert forall s | s in front :: s in slots;
      assert last in slots;
    }
  }

  // ----- keys in byte order

  predicate Before(a: string, b: string)
  {
    b != "" && (a == "" || a[0] < b[0] || (a[0] == b[0] && Before(a[1..], b[1..])))
  }

  lemma {:induction false} BeforeIsTotal(a: string, b: string)
    ensures a == b || Before(a, b) || Before(b, a)
  {
    if a != "" && b != "" && a[0] == b[0] {
      BeforeIsTotal(a[1..], b[1..]);
      assert a == [a[0]] + a[1..] && b == [b[0]] + b[1..];
    }
  }

  lemma {:induction false} BeforeIsTransitive(a: string, b: string, c: string)
    requires Before(a, b) && Before(b, c)
    ensures Before(a, c)
  {
    if a != "" && a[0] == b[0] && b[0] == c[0] {
      BeforeIsTransitive(a[1..], b[1..], c[1..]);
    }
  }

  function Insert(keys: seq<string>, key: string): seq<string>
  {
    if keys == [] then [key]
    else if keys[0] == key then keys
    else if Before(key, keys[0]) then [key] + keys
    else [keys[0]] + Insert(keys[1..], key)
  }

  function SortedKeys(members: seq<Member>): seq<string>
  {
    if members == [] then [] else Insert(SortedKeys(members[..|members| - 1]), members[|members| - 1].name)
  }

  predicate Ascending(keys: seq<string>)
  {
    forall i, j | 0 <= i < j < |keys| :: Before(keys[i], keys[j])
  }

  lemma {:induction false} InsertHas(keys: seq<string>, key: string, k: string)
    ensures k in Insert(keys, key) <==> k in keys || k == key
  {
    if keys != [] && keys[0] != key && !Before(key, keys[0]) {
      InsertHas(keys[1..], key, k);
      assert keys == [keys[0]] + keys[1..];
    }
  }

  lemma AscendingCons(first: string, rest: seq<string>)
    requires Ascending(rest) && forall i | 0 <= i < |rest| :: Before(first, rest[i])
    ensures Ascending([first] + rest)
  {
  }

  lemma {:induction false} InsertAscends(keys: seq<string>, key: string)
    requires Ascending(keys)
    ensures Ascending(Insert(keys, key))
  {
    if keys != [] && keys[0] != key {
      if Before(key, keys[0]) {
        forall i | 0 <= i < |keys| ensures Before(key, keys[i]) {
          if i > 0 {
            BeforeIsTransitive(key, keys[0], keys[i]);
          }
        }
        AscendingCons(key, keys);
      } else {
        BeforeIsTotal(key, keys[0]);
        InsertAscends(keys[1..], key);
        var rest := Insert(keys[1..], key);
        forall i | 0 <= i < |rest| ensures Before(keys[0], rest[i]) {
          InsertHas(keys[1..], key, rest[i]);
        }
        AscendingCons(keys[0], rest);
      }
    }
  }

  lemma InsertKeeps(keys: seq<string>, key: string)
    requires Ascending(keys)
    ensures Ascending(Insert(keys, key))
    ensures forall k :: k in Insert(keys, key) <==> k in keys || k == key
  {
    InsertAscends(keys, key);
    forall k ensures k in Insert(keys, key) <==> k in keys || k == key {
      InsertHas(keys, key, k);
    }
  }

  /** Every property once, in ascending byte order. */
  lemma {:induction false} SortedKeysAreTheNames(members: seq<Member>)
    ensures Ascending(SortedKeys(members))
    ensures forall k :: k in SortedKeys(members) <==> Lookup(members, k).Some?
  {
    if members != [] {
      var front, last := members[..|members| - 1], members[|members| - 1];
      SortedKeysAreTheNames(front);
      InsertKeeps(SortedKeys(front), last.name);
    }
  }

  /** A tree with the properties of every object in order and without repetition. */
  function Ordered(v: Value): Value
    decreases v, 0
  {
    match v
    case Array(items) => Array(seq(|items|, i requires 0 <= i < |items| => Ordered(items[i])))
    case Object(members) => Object(OrderedMembers(SortedKeys(members), members))
    case _ => v
  }

  function OrderedMembers(keys: seq<string>, members: seq<Member>): seq<Member>
    decreases members, |keys|
  {
    if keys == [] then []
    else
      (match Lookup(members, keys[0])
       case None => []
       case Some(v) => [Member(keys[0], Ordered(v))])
      + OrderedMembers(keys[1..], members)
  }

  /** What the items of an array without repetition are compared by. */
  function UniquenessKey(item: Value): string
  {
    if item.String? then "s:" + item.text else "j:" + Render(Ordered(item))
  }

  predicate Repeats(items: seq<Value>)
  {
    exists i, j | 0 <= i < j < |items| :: UniquenessKey(items[i]) == UniquenessKey(items[j])
  }

  // ----- numbers

  /** What a float64 can be: at most 17 significant digits, and a bounded exponent. */
  predicate IsDouble(d: JsonNumber.Decimal)
  {
    JsonNumber.Normal(d) && (d.Finite? ==> |d.digits| <= 17 && -324 <= d.exponent <= 308)
  }

  /** The conversion of a number's text to a float64, which rounds. */
  type Nearest = string -> Option<JsonNumber.Decimal>

  /** A float64 that is written and read again is the same float64. */
  ghost predicate Settles(near: Nearest)
  {
    forall text | near(text).Some? && IsDouble(near(text).value) ::
      near(JsonNumber.FormatEcmaNumber(near(text).value)) == near(text)
  }

  function AsInt64(v: Value): (r: Option<int>)
    ensures r.Some? ==> JsonNumber.MIN_INT64 <= r.value <= JsonNumber.MAX_INT64
  {
    if v.Number? then JsonNumber.ParseInt64(v.digits) else None
  }

  function AsFloat64(near: Nearest, v: Value): (r: Option<JsonNumber.Decimal>)
    ensures r.Some? ==> IsDouble(r.value)
  {
    if v.Number? && near(v.digits).Some? && IsDouble(near(v.digits).value) then near(v.digits) else None
  }

  // ----- patterns

  datatype Pattern =
    | IdentifierPattern | TimestampPattern | WebsocketPattern | VersionPattern | DigestPattern
    | TokenPattern | Base64Pattern | LabelPattern | PrintablePattern | HexPattern | PathHashPattern
    | NamePattern | RepositoryPattern | CapabilityPattern | LowerAlnumPattern | LowerWordPattern
    | HostPattern | DestinationPattern | NoNulPattern

  predicate IsUpper(c: char) { 'A' <= c <= 'Z' }
  predicate IsLower(c: char) { 'a' <= c <= 'z' }
  predicate IsAlnum(c: char) { IsUpper(c) || IsLower(c) || IsDigit(c) }
  predicate IsHex(c: char) { IsDigit(c) || 'a' <= c <= 'f' }
  predicate IsControl(c: char) { c as int < 0x20 || c as int == 0x7F }

  /** The characters that the pattern allows somewhere. */
  predicate Allowed(p: Pattern, c: char)
  {
    match p
    case IdentifierPattern => IsAlnum(c) || c in {'_', '-'}
    case TimestampPattern => IsDigit(c) || c in {'-', 'T', ':', '.', 'Z'}
    case WebsocketPattern => '!' <= c <= '~'
    case VersionPattern => IsAlnum(c) || c in {'.', '+', '-'}
    case DigestPattern => IsAlnum(c) || c in {':', '.', '_', '-'}
    case TokenPattern => IsAlnum(c) || c in {'.', '_', '~', '+', '/', '=', '-'}
    case Base64Pattern => IsAlnum(c) || c in {'+', '/', '='}
    case LabelPattern => IsLower(c) || IsDigit(c) || c in {'.', '_', '-'}
    case PrintablePattern => !IsControl(c)
    case HexPattern => IsHex(c)
    case PathHashPattern => IsLower(c) || IsDigit(c) || c == ':'
    case NamePattern => !IsControl(c) && c != '/' && c != '\\'
    case RepositoryPattern => IsAlnum(c) || c in {':', '/', '.', '_', '~', '-'}
    case CapabilityPattern => IsLower(c) || IsDigit(c) || c == '-'
    case LowerAlnumPattern => IsLower(c) || IsDigit(c)
    case LowerWordPattern => IsLower(c) || IsDigit(c) || c == '_'
    case HostPattern => IsAlnum(c) || c in {'.', ':', '_', '-'}
    case DestinationPattern => IsAlnum(c) || c in {'.', ':', '_', '[', ']', '-'}
    case NoNulPattern => c as int != 0
  }

  /** What a pattern asks beside its characters. */
  predicate Shaped(p: Pattern, s: string)
  {
    match p
    case TimestampPattern => IsTimestamp(s)
    case WebsocketPattern => |s| > 6 && s[..6] == "wss://"
    case VersionPattern => s != "" && IsAlnum(s[0])
    case Base64Pattern => IsPadded(s, 0) || IsPadded(s, 1) || IsPadded(s, 2)
    case LabelPattern => s != "" && (IsLower(s[0]) || IsDigit(s[0]))
    case PathHashPattern => |s| == 71 && s[..7] == "sha256:" && forall c | c in s[7..] :: IsHex(c)
    case RepositoryPattern => RepositoryIdentity.MatchesCanonical(s)
    case CapabilityPattern => s != "" && IsLower(s[0])
    case DestinationPattern =>
      exists k | 0 < k < |s| - 1 :: s[k] == ':' && |s| - 1 - k <= 5 && AllDigits(s[k + 1..])
    case _ => s != ""
  }

  /** The last n characters, and no other, are the padding sign. */
  predicate IsPadded(s: string, n: nat)
  {
    n < |s| && '=' !in s[..|s| - n] && forall i | |s| - n <= i < |s| :: s[i] == '='
  }

  predicate Matches(p: Pattern, s: string)
  {
    (forall c | c in s :: Allowed(p, c)) && Shaped(p, s)
  }

  /** YYYY-MM-DDThh:mm:ss, up to nine digits of a second, and Z. */
  predicate IsTimestamp(s: string)
  {
    && |s| >= 20
    && AllDigits(s[..4]) && s[4] == '-'
    && TwoDigits(s[5], s[6], 1, 12) && s[7] == '-'
    && TwoDigits(s[8], s[9], 1, 31) && s[10] == 'T'
    && TwoDigits(s[11], s[12], 0, 23) && s[13] == ':'
    && TwoDigits(s[14], s[15], 0, 59) && s[16] == ':'
    && TwoDigits(s[17], s[18], 0, 59) && s[|s| - 1] == 'Z'
    && (|s| == 20 || (s[19] == '.' && 22 <= |s| <= 30 && AllDigits(s[20..|s| - 1])))
  }

  predicate TwoDigits(a: char, b: char, minimum: nat, maximum: nat)
  {
    IsDigit(a) && IsDigit(b) &&
    minimum <= 10 * JsonNumber.DigitValue(a) + JsonNumber.DigitValue(b) <= maximum
  }

  // ----- schemas

  datatype Schema =
    | Text(minLength: nat, maxLength: nat, pattern: Pattern)
    | Enum(values: seq<string>)
    | Integer(minimum: int, maximum: int)
    | Float(least: real, most: real)
    | Boolean
    | AnyObject
    | List(minItems: nat, maxItems: nat, uniqueItems: bool, item: Schema)
    | Struct(fields: seq<Field>, rules: seq<Rule>)

  datatype Field = Field(name: string, schema: Schema, required: bool)

  /** When a property has one of some values, another is required, or forbidden. */
  datatype Rule = Rule(property: string, values: seq<string>, name: string, demands: bool)

  /** A maximum of 0 is no maximum. */
  predicate IsWithin(length: nat, maximum: nat) { maximum == 0 || length <= maximum }

  predicate Declares(fields: seq<Field>, name: string)
  {
    exists i | 0 <= i < |fields| :: fields[i].name == name
  }

  predicate Applies(r: Rule, members: seq<Member>)
  {
    match Lookup(members, r.property)
    case None => false
    case Some(v) => v.String? && v.text in r.values
  }

  predicate Requires(fields: seq<Field>, name: string)
  {
    exists i | 0 <= i < |fields| :: fields[i].name == name && fields[i].required
  }

  predicate OnlyDeclared(fields: seq<Field>, members: seq<Member>)
  {
    forall m | m in members :: Declares(fields, m.name)
  }

  predicate HasRequired(fields: seq<Field>, members: seq<Member>)
  {
    forall i | 0 <= i < |fields| :: fields[i].required ==> Lookup(members, fields[i].name).Some?
  }

  predicate Obeys(r: Rule, members: seq<Member>)
  {
    Applies(r, members) ==> (Lookup(members, r.name).Some? <==> r.demands)
  }

  /** The declarative meaning of a schema. */
  predicate Conforms(near: Nearest, s: Schema, v: Value)
    decreases s
  {
    match s
    case Text(minLength, maxLength, pattern) =>
      v.String? && minLength <= RuneCount(v.text) && IsWithin(RuneCount(v.text), maxLength) && Matches(pattern, v.text)
    case Enum(values) => v.String? && v.text in values
    case Integer(minimum, maximum) => AsInt64(v).Some? && minimum <= AsInt64(v).value <= maximum
    case Float(least, most) =>
      AsFloat64(near, v).Some? && least <= JsonNumber.DecimalValue(AsFloat64(near, v).value) <= most
    case Boolean => v.Bool?
    case AnyObject => v.Object?
    case List(minItems, maxItems, uniqueItems, item) =>
      && v.Array? && minItems <= |v.items| <= maxItems && (uniqueItems ==> !Repeats(v.items))
      && forall i | 0 <= i < |v.items| :: Conforms(near, item, v.items[i])
    case Struct(fields, rules) =>
      && v.Object?
      && OnlyDeclared(fields, v.members) && HasRequired(fields, v.members)
      && FieldsConform(near, fields, v.members)
      && (forall i | 0 <= i < |rules| :: Obeys(rules[i], v.members))
  }

  predicate FieldsConform(near: Nearest, fields: seq<Field>, members: seq<Member>)
    decreases fields
  {
    forall i | 0 <= i < |fields| ::
      Lookup(members, fields[i].name).Some? ==>
        Conforms(near, fields[i].schema, Lookup(members, fields[i].name).value)
  }

  // ----- the violations that are reported

  datatype Code =
    | WrongType | Required | Forbidden | UnknownProperty | NotInEnum | PatternMismatch
    | TooShort | TooLong | TooSmall | TooLarge | TooFewItems | TooManyItems | DuplicateItems | NotInteger

  datatype Violation = Violation(path: string, code: Code)

  function Child(path: string, name: string): string { path + "." + name }
  function IndexPath(path: string, index: nat): string { path + "[" + JsonNumber.Digits(index) + "]" }

  function At(path: string, code: Option<Code>): seq<Violation>
  {
    if code.Some? then [Violation(path, code.value)] else []
  }

  function TextFault(v: Value, minLength: nat, maxLength: nat, pattern: Pattern): Option<Code>
  {
    if !v.String? then Some(WrongType)
    else if !IsWithin(RuneCount(v.text), maxLength) then Some(TooLong)
    else if RuneCount(v.text) < minLength then Some(TooShort)
    else if !Matches(pattern, v.text) then Some(PatternMismatch)
    else None
  }

  function EnumFault(v: Value, values: seq<string>): Option<Code>
  {
    if !v.String? then Some(WrongType) else if v.text !in values then Some(NotInEnum) else None
  }

  function IntegerFault(near: Nearest, v: Value, minimum: int, maximum: int): Option<Code>
  {
    if AsInt64(v).None? then (if AsFloat64(near, v).Some? then Some(NotInteger) else Some(WrongType))
    else if AsInt64(v).value < minimum then Some(TooSmall)
    else if AsInt64(v).value > maximum then Some(TooLarge)
    else None
  }

  function FloatFault(near: Nearest, v: Value, least: real, most: real): Option<Code>
  {
    if AsFloat64(near, v).None? then Some(WrongType)
    else if JsonNumber.DecimalValue(AsFloat64(near, v).value) < least then Some(TooSmall)
    else if JsonNumber.DecimalValue(AsFloat64(near, v).value) > most then Some(TooLarge)
    else None
  }

  function ListFault(v: Value, minItems: nat, maxItems: nat, uniqueItems: bool): Option<Code>
  {
    if !v.Array? then Some(WrongType)
    else if |v.items| > maxItems then Some(TooManyItems)
    else if |v.items| < minItems then Some(TooFewItems)
    else if uniqueItems && Repeats(v.items) then Some(DuplicateItems)
    else None
  }

  function UnknownFaults(keys: seq<string>, allowed: seq<string>, path: string): seq<Violation>
  {
    if keys == [] then []
    else
      var key := keys[|keys| - 1];
      UnknownFaults(keys[..|keys| - 1], allowed, path) +
      At(Child(path, key), if key in allowed then None else Some(UnknownProperty))
  }

  function MissingFaults(members: seq<Member>, required: seq<string>, path: string): seq<Violation>
  {
    if required == [] then []
    else
      var key := required[|required| - 1];
      MissingFaults(members, required[..|required| - 1], path) +
      At(Child(path, key), if Lookup(members, key).Some? then None else Some(Required))
  }

  function Names(fields: seq<Field>): seq<string>
  {
    if fields == [] then [] else Names(fields[..|fields| - 1]) + [fields[|fields| - 1].name]
  }

  function RequiredNames(fields: seq<Field>): seq<string>
  {
    if fields == [] then []
    else
      RequiredNames(fields[..|fields| - 1]) +
      (if fields[|fields| - 1].required then [fields[|fields| - 1].name] else [])
  }

  function RuleFault(r: Rule, members: seq<Member>): Option<Code>
  {
    if !Applies(r, members) then None
    else if r.demands && Lookup(members, r.name).None? then Some(Required)
    else if !r.demands && Lookup(members, r.name).Some? then Some(Forbidden)
    else None
  }

  function RuleFaults(rules: seq<Rule>, members: seq<Member>, path: string): seq<Violation>
  {
    if rules == [] then []
    else
      var r := rules[|rules| - 1];
      RuleFaults(rules[..|rules| - 1], members, path) + At(Child(path, r.name), RuleFault(r, members))
  }

  /** The violations of a tree, in the order in which they are found. */
  function Check(near: Nearest, s: Schema, v: Value, path: string): seq<Violation>
    decreases s, 1
  {
    match s
    case Text(minLength, maxLength, pattern) => At(path, TextFault(v, minLength, maxLength, pattern))
    case Enum(values) => At(path, EnumFault(v, values))
    case Integer(minimum, maximum) => At(path, IntegerFault(near, v, minimum, maximum))
    case Float(least, most) => At(path, FloatFault(near, v, least, most))
    case Boolean => At(path, if v.Bool? then None else Some(WrongType))
    case AnyObject => At(path, if v.Object? then None else Some(WrongType))
    case List(minItems, maxItems, uniqueItems, item) =>
      if ListFault(v, minItems, maxItems, uniqueItems).Some?
      then At(path, ListFault(v, minItems, maxItems, uniqueItems))
      else ItemFaults(near, item, v.items, path)
    case Struct(fields, rules) =>
      if !v.Object? then At(path, Some(WrongType))
      else
        UnknownFaults(SortedKeys(v.members), Names(fields), path) +
        MissingFaults(v.members, RequiredNames(fields), path) +
        FieldFaults(near, fields, v.members, path) +
        RuleFaults(rules, v.members, path)
  }

  function ItemFaults(near: Nearest, item: Schema, items: seq<Value>, path: string): seq<Violation>
    decreases item, 2, |items|
  {
    if items == [] then []
    else
      ItemFaults(near, item, items[..|items| - 1], path) +
      Check(near, item, items[|items| - 1], IndexPath(path, |items| - 1))
  }

  function FieldFault(near: Nearest, f: Field, members: seq<Member>, path: string): seq<Violation>
    decreases f, 0
  {
    match Lookup(members, f.name)
    case None => []
    case Some(x) => Check(near, f.schema, x, Child(path, f.name))
  }

  function FieldFaults(near: Nearest, fields: seq<Field>, members: seq<Member>, path: string): seq<Violation>
    decreases fields, 0
  {
    if fields == [] then []
    else
      FieldFaults(near, fields[..|fields| - 1], members, path) +
      FieldFault(near, fields[|fields| - 1], members, path)
  }

  // ----- no violation is reported exactly when the tree conforms

  lemma {:induction false} NamesAreDeclared(fields: seq<Field>, name: string)
    ensures name in Names(fields) <==> Declares(fields, name)
    ensures name in RequiredNames(fields) <==> Requires(fields, name)
  {
    if fields != [] {
      var front, last := fields[..|fields| - 1], fields[|fields| - 1];
      assert fields == front + [last];
      NamesAreDeclared(front, name);
      OneMoreDeclares(front, last, name);
    }
  }

  lemma OneMoreDeclares(front: seq<Field>, last: Field, name: string)
    ensures Declares(front + [last], name) <==> Declares(front, name) || last.name == name
    ensures Requires(front + [last], name) <==> Requires(front, name) || (last.name == name && last.required)
  {
    var fields := front + [last];
    assert fields[|front|] == last;
    forall i | 0 <= i < |front| ensures fields[i] == front[i] && front[i].name == fields[i].name {
    }
  }

  lemma {:induction false} NoUnknownFaults(keys: seq<string>, allowed: seq<string>, path: string)
    ensures UnknownFaults(keys, allowed, path) == [] <==> forall i | 0 <= i < |keys| :: keys[i] in allowed
  {
    if keys != [] {
      var front, last := keys[..|keys| - 1], keys[|keys| - 1];
      NoUnknownFaults(front, allowed, path);
      assert keys == front + [last];
    }
  }

  lemma {:induction false} NoMissingFaults(members: seq<Member>, required: seq<string>, path: string)
    ensures MissingFaults(members, required, path) == [] <==> forall i | 0 <= i < |required| :: Lookup(members, required[i]).Some?
  {
    if required != [] {
      var front, last := required[..|required| - 1], required[|required| - 1];
      NoMissingFaults(members, front, path);
      assert required == front + [last];
    }
  }

  lemma NoRuleFault(r: Rule, members: seq<Member>)
    ensures RuleFault(r, members) == None <==> Obeys(r, members)
  {
  }

  lemma {:induction false} NoRuleFaults(rules: seq<Rule>, members: seq<Member>, path: string)
    ensures RuleFaults(rules, members, path) == [] <==> forall i | 0 <= i < |rules| :: Obeys(rules[i], members)
  {
    if rules != [] {
      var front, last := rules[..|rules| - 1], rules[|rules| - 1];
      NoRuleFaults(front, members, path);
      NoRuleFault(last, members);
      assert rules == front + [last];
    }
  }

  lemma {:induction false} NoFieldFaults(near: Nearest, fields: seq<Field>, members: seq<Member>, path: string)
    ensures FieldFaults(near, fields, members, path) == [] <==> FieldsConform(near, fields, members)
    decreases fields, 0
  {
    if fields != [] {
      var front, last := fields[..|fields| - 1], fields[|fields| - 1];
      assert fields == front + [last];
      NoFieldFaults(near, front, members, path);
      if Lookup(members, last.name).Some? {
        CheckIsExact(near, last.schema, Lookup(members, last.name).value, Child(path, last.name));
      }
      LastFieldFaults(near, front, last, members, path);
      OneMoreField(near, front, last, members);
    }
  }

  lemma LastFieldFaults(near: Nearest, front: seq<Field>, last: Field, members: seq<Member>, path: string)
    ensures FieldFaults(near, front + [last], members, path) == [] <==>
            && FieldFaults(near, front, members, path) == []
            && (Lookup(members, last.name).Some? ==>
                Check(near, last.schema, Lookup(members, last.name).value, Child(path, last.name)) == [])
  {
    assert (front + [last])[..|front|] == front;
  }

  lemma OneMoreField(near: Nearest, front: seq<Field>, last: Field, members: seq<Member>)
    ensures FieldsConform(near, front + [last], members) <==>
            && FieldsConform(near, front, members)
            && (Lookup(members, last.name).Some? ==> Conforms(near, last.schema, Lookup(members, last.name).value))
  {
    var fields := front + [last];
    assert fields[|front|] == last && forall i | 0 <= i < |front| :: fields[i] == front[i];
  }

  lemma {:induction false} NoItemFaults(near: Nearest, item: Schema, items: seq<Value>, path: string)
    ensures ItemFaults(near, item, items, path) == [] <==>
            forall i | 0 <= i < |items| :: Conforms(near, item, items[i])
    decreases item, 2, |items|
  {
    if items != [] {
      var front, last := items[..|items| - 1], items[|items| - 1];
      assert items == front + [last];
      NoItemFaults(near, item, front, path);
      CheckIsExact(near, item, last, IndexPath(path, |items| - 1));
      LastItemFaults(near, item, front, last, path);
      OneMoreConforms(near, item, front, last);
    }
  }

  lemma LastItemFaults(near: Nearest, item: Schema, front: seq<Value>, last: Value, path: string)
    ensures ItemFaults(near, item, front + [last], path) ==
            ItemFaults(near, item, front, path) + Check(near, item, last, IndexPath(path, |front|))
  {
    assert (front + [last])[..|front|] == front;
  }

  lemma OneMoreConforms(near: Nearest, item: Schema, front: seq<Value>, last: Value)
    ensures (forall i | 0 <= i < |front + [last]| :: Conforms(near, item, (front + [last])[i])) <==>
            (forall i | 0 <= i < |front| :: Conforms(near, item, front[i])) && Conforms(near, item, last)
  {
    var items := front + [last];
    assert items[|front|] == last && forall i | 0 <= i < |front| :: items[i] == front[i];
  }

  lemma {:induction false} CheckIsExact(near: Nearest, s: Schema, v: Value, path: string)
    ensures Check(near, s, v, path) == [] <==> Conforms(near, s, v)
    decreases s, 1
  {
    match s {
      case List(_, _, _, item) =>
        if v.Array? {
          NoItemFaults(near, item, v.items, path);
        }
      case Struct(fields, rules) =>
        if v.Object? {
          StructCheckIsExact(near, fields, rules, v.members, path);
        }
      case _ =>
    }
  }

  lemma {:induction false} StructCheckIsExact(
    near: Nearest, fields: seq<Field>, rules: seq<Rule>, members: seq<Member>, path: string)
    ensures Check(near, Struct(fields, rules), Object(members), path) == [] <==>
            Conforms(near, Struct(fields, rules), Object(members))
    decreases fields, 1
  {
    UnknownIsExact(fields, members, path);
    MissingIsExact(fields, members, path);
    NoFieldFaults(near, fields, members, path);
    NoRuleFaults(rules, members, path);
    AllEmpty(
      UnknownFaults(SortedKeys(members), Names(fields), path), MissingFaults(members, RequiredNames(fields), path),
      FieldFaults(near, fields, members, path), RuleFaults(rules, members, path));
    StructChecks(near, fields, rules, members, path);
    StructConforms(near, fields, rules, members);
  }

  lemma StructChecks(near: Nearest, fields: seq<Field>, rules: seq<Rule>, members: seq<Member>, path: string)
    ensures Check(near, Struct(fields, rules), Object(members), path) ==
            UnknownFaults(SortedKeys(members), Names(fields), path) +
            MissingFaults(members, RequiredNames(fields), path) +
            FieldFaults(near, fields, members, path) + RuleFaults(rules, members, path)
  {
  }

  lemma StructConforms(near: Nearest, fields: seq<Field>, rules: seq<Rule>, members: seq<Member>)
    ensures Conforms(near, Struct(fields, rules), Object(members)) <==>
            && OnlyDeclared(fields, members) && HasRequired(fields, members) && FieldsConform(near, fields, members)
            && forall i | 0 <= i < |rules| :: Obeys(rules[i], members)
  {
  }

  lemma AllEmpty(a: seq<Violation>, b: seq<Violation>, c: seq<Violation>, d: seq<Violation>)
    ensures a + b + c + d == [] <==> a == [] && b == [] && c == [] && d == []
  {
  }

  lemma UnknownIsExact(fields: seq<Field>, members: seq<Member>, path: string)
    ensures UnknownFaults(SortedKeys(members), Names(fields), path) == [] <==> OnlyDeclared(fields, members)
  {
    NoUnknownFaults(SortedKeys(members), Names(fields), path);
    SortedKeysAreTheNames(members);
    forall name ensures name in Names(fields) <==> Declares(fields, name) {
      NamesAreDeclared(fields, name);
    }
    var keys := SortedKeys(members);
    if forall i | 0 <= i < |keys| :: keys[i] in Names(fields) {
      forall m | m in members ensures Declares(fields, m.name) {
        assert Lookup(members, m.name).Some? && m.name in keys;
      }
    }
    if OnlyDeclared(fields, members) {
      forall i | 0 <= i < |keys| ensures keys[i] in Names(fields) {
        assert keys[i] in keys;
      }
    }
  }

  lemma MissingIsExact(fields: seq<Field>, members: seq<Member>, path: string)
    ensures MissingFaults(members, RequiredNames(fields), path) == [] <==> HasRequired(fields, members)
  {
    var required := RequiredNames(fields);
    NoMissingFaults(members, required, path);
    if forall i | 0 <= i < |required| :: Lookup(members, required[i]).Some? {
      forall i | 0 <= i < |fields| && fields[i].required ensures Lookup(members, fields[i].name).Some? {
        NamesAreDeclared(fields, fields[i].name);
      }
    }
    if HasRequired(fields, members) {
      forall i | 0 <= i < |required| ensures Lookup(members, required[i]).Some? {
        NamesAreDeclared(fields, required[i]);
      }
    }
  }
}
