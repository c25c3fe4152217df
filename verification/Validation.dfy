/**
 * The validation primitives, and the validator that they make up. The list of
 * violations is shared: every call appends to it what the schema's meaning says.
 */
module Validation {
  import opened Bytes
  import JsonText
  import opened Json
  import opened Schema
  import JsonNumber

  lemma StructFaults(
    near: Nearest, fields: seq<Field>, rules: seq<Rule>, members: seq<Member>, path: string, out: seq<Violation>)
    ensures
      out + (UnknownFaults(SortedKeys(members), Names(fields), path) +
             MissingFaults(members, RequiredNames(fields), path)) +
      FieldFaults(near, fields, members, path) + RuleFaults(rules, members, path)
      == out + Check(near, Struct(fields, rules), Object(members), path)
  {
    Regroup(out, UnknownFaults(SortedKeys(members), Names(fields), path),
      MissingFaults(members, RequiredNames(fields), path),
      FieldFaults(near, fields, members, path), RuleFaults(rules, members, path));
  }

  lemma Regroup<T>(out: seq<T>, a: seq<T>, b: seq<T>, c: seq<T>, d: seq<T>)
    ensures out + (a + b) + c + d == out + (a + b + c + d)
  {
  }

  lemma NextItem(near: Nearest, item: Schema, items: seq<Value>, i: nat, path: string)
    requires i < |items|
    ensures ItemFaults(near, item, items[..i + 1], path) ==
            ItemFaults(near, item, items[..i], path) + Check(near, item, items[i], IndexPath(path, i))
  {
    assert items[..i + 1][..i] == items[..i];
  }

  lemma NextKey(keys: seq<string>, i: nat, allowed: seq<string>, path: string)
    requires i < |keys|
    ensures UnknownFaults(keys[..i + 1], allowed, path) ==
            UnknownFaults(keys[..i], allowed, path) +
            (if keys[i] in allowed then [] else [Violation(Child(path, keys[i]), UnknownProperty)])
  {
    assert keys[..i + 1][..i] == keys[..i];
  }

  class Validator {
    const near: Nearest
    var out: seq<Violation>

    constructor (near: Nearest)
      ensures this.near == near && out == []
    {
      this.near := near;
      out := [];
    }

    method Report(path: string, code: Code)
      modifies this
      ensures out == old(out) + At(path, Some(code))
    {
      out := out + [Violation(path, code)];
    }

    method CheckString(value: Value, path: string, minLength: nat, maxLength: nat, pattern: Pattern) returns (ok: bool)
      modifies this
      ensures out == old(out) + Check(near, Text(minLength, maxLength, pattern), value, path)
      ensures ok == Conforms(near, Text(minLength, maxLength, pattern), value)
    {
      if !value.String? {
        Report(path, WrongType);
        return false;
      }
      var length := JsonText.RuneCount(value.text);
      if maxLength > 0 && length > maxLength {
        Report(path, TooLong);
        return false;
      }
      if minLength > 0 && length < minLength {
        Report(path, TooShort);
        return false;
      }
      if !Matches(pattern, value.text) {
        Report(path, PatternMismatch);
        return false;
      }
      return true;
    }

    method CheckValues(value: Value, path: string, values: seq<string>) returns (ok: bool)
      modifies this
      ensures out == old(out) + Check(near, Enum(values), value, path)
      ensures ok == Conforms(near, Enum(values), value)
    {
      if !value.String? {
        Report(path, WrongType);
        return false;
      }
      if value.text !in values {
        Report(path, NotInEnum);
        return false;
      }
      return true;
    }

    method CheckInteger(value: Value, path: string, minimum: int, maximum: int) returns (ok: bool)
      modifies this
      ensures out == old(out) + Check(near, Integer(minimum, maximum), value, path)
      ensures ok == Conforms(near, Integer(minimum, maximum), value)
    {
      var number := AsInt64(value);
      if number.None? {
        if AsFloat64(near, value).Some? {
          Report(path, NotInteger);
          return false;
        }
        Report(path, WrongType);
        return false;
      }
      if number.value < minimum {
        Report(path, TooSmall);
        return false;
      }
      if number.value > maximum {
        Report(path, TooLarge);
        return false;
      }
      return true;
    }

    method CheckNumber(value: Value, path: string, least: real, most: real) returns (ok: bool)
      modifies this
      ensures out == old(out) + Check(near, Float(least, most), value, path)
      ensures ok == Conforms(near, Float(least, most), value)
    {
      var number := AsFloat64(near, value);
      if number.None? {
        Report(path, WrongType);
        return false;
      }
      if JsonNumber.DecimalValue(number.value) < least {
        Report(path, TooSmall);
        return false;
      }
      if JsonNumber.DecimalValue(number.value) > most {
        Report(path, TooLarge);
        return false;
      }
      return true;
    }

    method CheckBoolean(value: Value, path: string) returns (ok: bool)
      modifies this
      ensures out == old(out) + Check(near, Boolean, value, path) && ok == value.Bool?
    {
      if !value.Bool? {
        Report(path, WrongType);
        return false;
      }
      return true;
    }

    method CheckPlainObject(value: Value, path: string) returns (ok: bool)
      modifies this
      ensures out == old(out) + Check(near, AnyObject, value, path) && ok == value.Object?
    {
      if !value.Object? {
        Report(path, WrongType);
        return false;
      }
      return true;
    }

    /** The keys that were seen are compared, item by item; the first that comes again is the fault. */
    method CheckArray(value: Value, path: string, minItems: nat, maxItems: nat, uniqueItems: bool)
      returns (items: Option<seq<Value>>)
      modifies this
      ensures out == old(out) + At(path, ListFault(value, minItems, maxItems, uniqueItems))
      ensures items.Some? <==> ListFault(value, minItems, maxItems, uniqueItems).None?
      ensures items.Some? ==> value == Array(items.value)
    {
      if !value.Array? {
        Report(path, WrongType);
        return None;
      }
      if |value.items| > maxItems {
        Report(path, TooManyItems);
        return None;
      }
      if |value.items| < minItems {
        Report(path, TooFewItems);
        return None;
      }
      if uniqueItems {
        var seen: set<string> := {};
        for i := 0 to |value.items|
          invariant out == old(out)
          invariant seen == set k | 0 <= k < i :: UniquenessKey(value.items[k])
          invariant forall j, k | 0 <= j < k < i :: UniquenessKey(value.items[j]) != UniquenessKey(value.items[k])
        {
          var key := UniquenessKey(value.items[i]);
          if key in seen {
            Report(path, DuplicateItems);
            return None;
          }
          seen := seen + {key};
        }
      }
      return Some(value.items);
    }

    /** Unknown properties are reported in byte order, missing ones in the order of the schema. */
    method CheckObject(value: Value, path: string, allowed: seq<string>, required: seq<string>)
      returns (source: Option<seq<Member>>)
      modifies this
      ensures source == if value.Object? then Some(value.members) else None
      ensures out == old(out) +
        if !value.Object? then At(path, Some(WrongType))
        else
          UnknownFaults(SortedKeys(value.members), allowed, path) + MissingFaults(value.members, required, path)
    {
      if !value.Object? {
        Report(path, WrongType);
        return None;
      }
      ReportUnknown(SortedKeys(value.members), path, allowed);
      ReportMissing(value.members, path, required);
      return Some(value.members);
    }

    method ReportUnknown(keys: seq<string>, path: string, allowed: seq<string>)
      modifies this
      ensures out == old(out) + UnknownFaults(keys, allowed, path)
    {
      for i := 0 to |keys|
        invariant out == old(out) + UnknownFaults(keys[..i], allowed, path)
      {
        NextKey(keys, i, allowed, path);
        if keys[i] !in allowed {
          Report(Child(path, keys[i]), UnknownProperty);
        }
      }
      assert keys[..|keys|] == keys;
    }

    method ReportMissing(source: seq<Member>, path: string, required: seq<string>)
      modifies this
      ensures out == old(out) + MissingFaults(source, required, path)
    {
      for i := 0 to |required|
        invariant out == old(out) + MissingFaults(source, required[..i], path)
      {
        if Lookup(source, required[i]).None? {
          Report(Child(path, required[i]), Required);
        }
        assert required[..i + 1][..i] == required[..i];
      }
      assert required[..|required|] == required;
    }

    method RequireProperty(source: seq<Member>, path: string, name: string)
      modifies this
      ensures out == old(out) + At(Child(path, name), if Lookup(source, name).Some? then None else Some(Required))
    {
      if Lookup(source, name).None? {
        Report(Child(path, name), Required);
      }
    }

    method ForbidProperty(source: seq<Member>, path: string, name: string)
      modifies this
      ensures out == old(out) + At(Child(path, name), if Lookup(source, name).Some? then Some(Forbidden) else None)
    {
      if Lookup(source, name).Some? {
        Report(Child(path, name), Forbidden);
      }
    }

    /** The validator of a schema: the shape of an object, then its properties, then its conditions. */
    method Validate(s: Schema, value: Value, path: string)
      modifies this
      ensures out == old(out) + Check(near, s, value, path)
      decreases s, 1
    {
      match s {
        case Text(minLength, maxLength, pattern) => var _ := CheckString(value, path, minLength, maxLength, pattern);
        case Enum(values) => var _ := CheckValues(value, path, values);
        case Integer(minimum, maximum) => var _ := CheckInteger(value, path, minimum, maximum);
        case Float(least, most) => var _ := CheckNumber(value, path, least, most);
        case Boolean => var _ := CheckBoolean(value, path);
        case AnyObject => var _ := CheckPlainObject(value, path);
        case List(minItems, maxItems, uniqueItems, item) =>
          var items := CheckArray(value, path, minItems, maxItems, uniqueItems);
          if items.Some? {
            ValidateItems(item, items.value, path);
          }
        case Struct(fields, rules) =>
          ValidateStruct(fields, rules, value, path);
      }
    }

    method ValidateStruct(fields: seq<Field>, rules: seq<Rule>, value: Value, path: string)
      modifies this
      ensures out == old(out) + Check(near, Struct(fields, rules), value, path)
      decreases fields, 1
    {
      var source := CheckObject(value, path, Names(fields), RequiredNames(fields));
      if source.Some? {
        ValidateFields(fields, source.value, path);
        ValidateRules(rules, source.value, path);
        StructFaults(near, fields, rules, value.members, path, old(out));
      }
    }

    method ValidateItems(item: Schema, items: seq<Value>, path: string)
      modifies this
      ensures out == old(out) + ItemFaults(near, item, items, path)
      decreases item, 2
    {
      for i := 0 to |items|
        invariant out == old(out) + ItemFaults(near, item, items[..i], path)
      {
        Validate(item, items[i], IndexPath(path, i));
        NextItem(near, item, items, i, path);
        Associate(old(out), ItemFaults(near, item, items[..i], path), Check(near, item, items[i], IndexPath(path, i)));
      }
      assert items[..|items|] == items;
    }

    method ValidateFields(fields: seq<Field>, source: seq<Member>, path: string)
      modifies this
      ensures out == old(out) + FieldFaults(near, fields, source, path)
      decreases fields, 0
    {
      for i := 0 to |fields|
        invariant out == old(out) + FieldFaults(near, fields[..i], source, path)
      {
        var field := Lookup(source, fields[i].name);
        if field.Some? {
          Validate(fields[i].schema, field.value, Child(path, fields[i].name));
        }
        assert fields[..i + 1][..i] == fields[..i];
      }
      assert fields[..|fields|] == fields;
    }

    method ValidateRules(rules: seq<Rule>, source: seq<Member>, path: string)
      modifies this
      ensures out == old(out) + RuleFaults(rules, source, path)
    {
      for i := 0 to |rules|
        invariant out == old(out) + RuleFaults(rules[..i], source, path)
      {
        if Applies(rules[i], source) {
          if rules[i].demands {
            RequireProperty(source, path, rules[i].name);
          } else {
            ForbidProperty(source, path, rules[i].name);
          }
        }
        assert rules[..i + 1][..i] == rules[..i];
      }
      assert rules[..|rules|] == rules;
    }
  }
}
