/**
 * Tool argument schemas: the definitions that a schema reaches through `$ref`, over a
 * graph that may have cycles, and the self-contained schema that is made of them.
 */
module ToolSchemas {
  import opened Bytes
  import Schema

  datatype Node = Scalar | Text(text: string) | List(items: seq<Node>) | Object(entries: seq<Entry>)

  /** A property. The keys of an object differ. */
  datatype Entry = Entry(key: string, value: Node)

  /** The definitions of the document, each an object. */
  type Definitions = map<string, seq<Entry>>

  const REF_PREFIX := "#/$defs/"

  /** The definition that a property refers to. */
  function Reference(e: Entry): Option<string>
  {
    if e.key == "$ref" && e.value.Text? && REF_PREFIX <= e.value.text
    then Some(e.value.text[|REF_PREFIX|..])
    else None
  }

  /** The names that occur in a node itself. */
  function Refs(node: Node): set<string>
  {
    match node
    case List(items) => RefsOfItems(items)
    case Object(entries) => RefsOfEntries(entries)
    case _ => {}
  }

  function RefsOfItems(items: seq<Node>): set<string>
  {
    if items == [] then {} else RefsOfItems(items[..|items| - 1]) + Refs(items[|items| - 1])
  }

  function RefsOfEntry(e: Entry): set<string>
  {
    match Reference(e)
    case Some(name) => {name}
    case None => Refs(e.value)
  }

  function RefsOfEntries(entries: seq<Entry>): set<string>
  {
    if entries == [] then {} else RefsOfEntries(entries[..|entries| - 1]) + RefsOfEntry(entries[|entries| - 1])
  }

  // ----- what is reachable

  function RefsOfName(defs: Definitions, name: string): set<string>
  {
    if name in defs then RefsOfEntries(defs[name]) else {}
  }

  /** Each name is referred to by the one before it, and the first by the start. */
  predicate IsPath(defs: Definitions, start: set<string>, path: seq<string>)
  {
    && path != [] && path[0] in start
    && forall i | 0 < i < |path| :: path[i] in RefsOfName(defs, path[i - 1])
  }

  ghost predicate Reachable(defs: Definitions, start: set<string>, name: string)
  {
    exists path :: IsPath(defs, start, path) && path[|path| - 1] == name
  }

  /** The names' own references are among the names. */
  predicate ClosedIn(defs: Definitions, names: set<string>, all: set<string>)
  {
    forall n | n in names :: RefsOfName(defs, n) <= all
  }

  lemma DirectlyReachable(defs: Definitions, start: set<string>, name: string)
    requires name in start
    ensures Reachable(defs, start, name)
  {
    assert IsPath(defs, start, [name]) && [name][|[name]| - 1] == name;
  }

  lemma ReachableThrough(defs: Definitions, start: set<string>, via: string, name: string)
    requires via in start && Reachable(defs, RefsOfName(defs, via), name)
    ensures Reachable(defs, start, name)
  {
    var path :| IsPath(defs, RefsOfName(defs, via), path) && path[|path| - 1] == name;
    var longer := [via] + path;
    assert IsPath(defs, start, longer) && longer[|longer| - 1] == name;
  }

  lemma ReachableFromMore(defs: Definitions, start: set<string>, more: set<string>, name: string)
    requires start <= more && Reachable(defs, start, name)
    ensures Reachable(defs, more, name)
  {
    var path :| IsPath(defs, start, path) && path[|path| - 1] == name;
    assert IsPath(defs, more, path);
  }

  /** A closed set with the start in it has everything that is reachable. */
  lemma {:induction false} ClosedHasPath(defs: Definitions, start: set<string>, all: set<string>, path: seq<string>)
    requires start <= all && ClosedIn(defs, all, all) && IsPath(defs, start, path)
    ensures path[|path| - 1] in all
    decreases |path|
  {
    if |path| > 1 {
      var front := path[..|path| - 1];
      assert IsPath(defs, start, front);
      ClosedHasPath(defs, start, all, front);
    }
  }

  /** So a closed set of reachable names with the start in it is the set of the reachable names. */
  lemma ClosedIsExact(defs: Definitions, start: set<string>, all: set<string>, name: string)
    requires start <= all && ClosedIn(defs, all, all)
    ensures Reachable(defs, start, name) ==> name in all
  {
    if Reachable(defs, start, name) {
      var path :| IsPath(defs, start, path) && path[|path| - 1] == name;
      ClosedHasPath(defs, start, all, path);
    }
  }

  // ----- collecting

  /**
   * What collecting some references does to a set of names: they are in it, and the
   * names that are new are reachable from them and have their own references in it.
   */
  ghost predicate Collected(defs: Definitions, before: set<string>, after: set<string>, start: set<string>)
  {
    && before <= after && start <= after
    && ClosedIn(defs, after - before, after)
    && forall n | n in after - before :: Reachable(defs, start, n)
  }

  lemma CollectNothing(defs: Definitions, names: set<string>, start: set<string>)
    requires start <= names
    ensures Collected(defs, names, names, start)
  {
  }

  lemma CollectBoth(
    defs: Definitions, a: set<string>, b: set<string>, c: set<string>, first: set<string>, second: set<string>)
    requires Collected(defs, a, b, first) && Collected(defs, b, c, second)
    ensures Collected(defs, a, c, first + second)
  {
    forall n | n in c - a
      ensures RefsOfName(defs, n) <= c && Reachable(defs, first + second, n)
    {
      if n in b {
        assert n in b - a;
        ReachableFromMore(defs, first, first + second, n);
      } else {
        assert n in c - b;
        ReachableFromMore(defs, second, first + second, n);
      }
    }
  }

  /** A new name is added, and then its definition is walked. */
  lemma CollectName(defs: Definitions, a: set<string>, c: set<string>, name: string)
    requires Collected(defs, a + {name}, c, RefsOfName(defs, name))
    ensures Collected(defs, a, c, {name})
  {
    forall n | n in c - a
      ensures RefsOfName(defs, n) <= c && Reachable(defs, {name}, n)
    {
      if n == name {
        DirectlyReachable(defs, {name}, name);
      } else {
        assert n in c - (a + {name});
        ReachableThrough(defs, {name}, name, n);
      }
    }
  }

  lemma Shrinks(all: set<string>, before: set<string>, after: set<string>)
    requires before <= after
    ensures |all - after| <= |all - before|
    ensures (exists n | n in all :: n in after && n !in before) ==> |all - after| < |all - before|
  {
    var gone := (all - before) - (all - after);
    assert all - before == (all - after) + gone;
    if exists n | n in all :: n in after && n !in before {
      var n :| n in all && n in after && n !in before;
      assert n in gone;
    }
  }

  class Collector {
    const defs: Definitions
    var into: set<string>

    constructor (defs: Definitions)
      ensures this.defs == defs && into == {}
    {
      this.defs := defs;
      into := {};
    }

    /**
     * It ends on every graph, also on one with cycles: a definition is walked only when
     * its name is new, so the definitions that are left get fewer.
     */
    method CollectReferences(node: Node)
      modifies this
      ensures Collected(defs, old(into), into, Refs(node))
      decreases |defs.Keys - into|, node
    {
      match node {
        case List(items) => CollectItems(items);
        case Object(entries) => CollectEntries(entries);
        case _ => CollectNothing(defs, into, {});
      }
    }

    method CollectItems(items: seq<Node>)
      modifies this
      ensures Collected(defs, old(into), into, RefsOfItems(items))
      decreases |defs.Keys - into|, items
    {
      CollectNothing(defs, into, {});
      for i := 0 to |items|
        invariant Collected(defs, old(into), into, RefsOfItems(items[..i]))
      {
        ghost var before := into;
        Shrinks(defs.Keys, old(into), into);
        CollectReferences(items[i]);
        CollectBoth(defs, old(into), before, into, RefsOfItems(items[..i]), Refs(items[i]));
        assert items[..i + 1][..i] == items[..i];
      }
      assert items[..|items|] == items;
    }

    method CollectEntries(entries: seq<Entry>)
      modifies this
      ensures Collected(defs, old(into), into, RefsOfEntries(entries))
      decreases |defs.Keys - into|, entries
    {
      CollectNothing(defs, into, {});
      for i := 0 to |entries|
        invariant Collected(defs, old(into), into, RefsOfEntries(entries[..i]))
      {
        ghost var before := into;
        Shrinks(defs.Keys, old(into), into);
        CollectEntry(entries[i]);
        CollectBoth(defs, old(into), before, into, RefsOfEntries(entries[..i]), RefsOfEntry(entries[i]));
        assert entries[..i + 1][..i] == entries[..i];
      }
      assert entries[..|entries|] == entries;
    }

    method CollectEntry(e: Entry)
      modifies this
      ensures Collected(defs, old(into), into, RefsOfEntry(e))
      decreases |defs.Keys - into|, e
    {
      var name := Reference(e);
      if name.None? {
        CollectReferences(e.value);
        return;
      }
      if name.value in into {
        CollectNothing(defs, into, {name.value});
        return;
      }
      into := into + {name.value};
      if name.value in defs {
        Shrinks(defs.Keys, old(into), into);
        CollectEntries(defs[name.value]);
      } else {
        CollectNothing(defs, into, {});
      }
      CollectName(defs, old(into), into, name.value);
    }
  }

  // ----- the published schema

  const PRIVATE_PREFIX := "x-"

  /** The entries without the private ones, at every depth that is not inside a list. */
  function Stripped(entries: seq<Entry>): seq<Entry>
  {
    if entries == [] then []
    else
      var last := entries[|entries| - 1];
      Stripped(entries[..|entries| - 1]) +
      (if PRIVATE_PREFIX <= last.key then [] else [Entry(last.key, StrippedValue(last.value))])
  }

  function StrippedValue(v: Node): Node
  {
    if v.Object? then Object(Stripped(v.entries)) else v
  }

  method Strip(entries: seq<Entry>) returns (copy: seq<Entry>)
    ensures copy == Stripped(entries)
    decreases entries
  {
    copy := [];
    for i := 0 to |entries|
      invariant copy == Stripped(entries[..i])
    {
      assert entries[..i + 1][..i] == entries[..i];
      if PRIVATE_PREFIX <= entries[i].key {
        continue;
      }
      var value := entries[i].value;
      if value.Object? {
        var inner := Strip(entries[i].value.entries);
        value := Object(inner);
      }
      copy := copy + [Entry(entries[i].key, value)];
    }
    assert entries[..|entries|] == entries;
  }

  /** A property is set in its place, or added after the others. */
  function Put(entries: seq<Entry>, key: string, value: Node): seq<Entry>
  {
    if entries == [] then [Entry(key, value)]
    else if entries[0].key == key then [Entry(key, value)] + entries[1..]
    else [entries[0]] + Put(entries[1..], key, value)
  }

  function PutAll(entries: seq<Entry>, more: seq<Entry>): seq<Entry>
    decreases |more|
  {
    if more == [] then entries
    else PutAll(Put(entries, more[0].key, more[0].value), more[1..])
  }

  function Get(entries: seq<Entry>, key: string): Option<Node>
  {
    if entries == [] then None
    else if entries[0].key == key then Some(entries[0].value)
    else Get(entries[1..], key)
  }

  datatype Failure = Undeclared | Dangling

  /** The names of a set, in ascending order. */
  method Sorted(names: set<string>) returns (s: seq<string>)
    ensures Schema.Ascending(s) && forall n :: n in s <==> n in names
  {
    s := [];
    var left := names;
    while left != {}
      invariant left <= names && Schema.Ascending(s)
      invariant forall n :: n in s <==> n in names - left
      decreases |left|
    {
      var n :| n in left;
      Schema.InsertKeeps(s, n);
      s := Schema.Insert(s, n);
      left := left - {n};
    }
  }

  const DRAFT := Text("https://json-schema.org/draft/2020-12/schema")

  function Assembled(definition: seq<Entry>, published: seq<Entry>): seq<Entry>
  {
    var head := PutAll([Entry("$schema", DRAFT)], Stripped(definition));
    if published == [] then head else Put(head, "$defs", Object(published))
  }

  /** One entry for each name, in order, with its definition stripped. */
  predicate Publishes(defs: Definitions, names: seq<string>, published: seq<Entry>)
  {
    && |published| == |names|
    && forall i | 0 <= i < |names| ::
         names[i] in defs && published[i] == Entry(names[i], Object(Stripped(defs[names[i]])))
  }

  method ToolInputSchema(defs: Definitions, definitionName: string) returns (r: Result<seq<Entry>, Failure>, ghost names: seq<string>)
    ensures definitionName !in defs ==> r == Err(Undeclared)
    ensures definitionName in defs ==>
              && Schema.Ascending(names)
              && (forall n :: n in names <==> Reachable(defs, RefsOfEntries(defs[definitionName]), n))
              && (if forall n | n in names :: n in defs
                  then exists published ::
                         Publishes(defs, names, published) && r == Ok(Assembled(defs[definitionName], published))
                  else r == Err(Dangling))
  {
    names := [];
    if definitionName !in defs {
      return Err(Undeclared), names;
    }
    var definition := defs[definitionName];
    var collector := new Collector(defs);
    collector.CollectEntries(definition);
    var start := RefsOfEntries(definition);
    var all := collector.into;
    forall n ensures n in all <==> Reachable(defs, start, n) {
      ClosedIsExact(defs, start, all, n);
    }
    var order := Sorted(all);
    names := order;
    var published: seq<Entry> := [];
    for i := 0 to |order|
      invariant Publishes(defs, order[..i], published)
    {
      if order[i] !in defs {
        return Err(Dangling), names;
      }
      var body := Strip(defs[order[i]]);
      published := published + [Entry(order[i], Object(body))];
    }
    assert order[..|order|] == order;
    return Ok(Assembled(definition, published)), names;
  }

  // ----- every reference that is left resolves

  lemma {:induction false} StrippedRefs(entries: seq<Entry>)
    ensures RefsOfEntries(Stripped(entries)) <= RefsOfEntries(entries)
    decreases entries
  {
    if entries != [] {
      var front, last := entries[..|entries| - 1], entries[|entries| - 1];
      StrippedRefs(front);
      if PRIVATE_PREFIX <= last.key {
        assert Stripped(entries) == Stripped(front);
      } else {
        var e := Entry(last.key, StrippedValue(last.value));
        if last.value.Object? {
          StrippedRefs(last.value.entries);
        }
        assert RefsOfEntry(e) <= RefsOfEntry(last);
        RefsAppend(Stripped(front), e);
      }
    }
  }

  lemma RefsAppend(entries: seq<Entry>, e: Entry)
    ensures RefsOfEntries(entries + [e]) == RefsOfEntries(entries) + RefsOfEntry(e)
  {
    assert (entries + [e])[..|entries|] == entries;
  }

  lemma {:induction false} RefsConcat(a: seq<Entry>, b: seq<Entry>)
    ensures RefsOfEntries(a + b) == RefsOfEntries(a) + RefsOfEntries(b)
    decreases |b|
  {
    if b == [] {
      assert a + b == a;
    } else {
      var front, last := b[..|b| - 1], b[|b| - 1];
      RefsConcat(a, front);
      RefsAppend(a + front, last);
      assert a + b == a + front + [last];
    }
  }

  lemma {:induction false} PutRefs(entries: seq<Entry>, key: string, value: Node)
    ensures RefsOfEntries(Put(entries, key, value)) <= RefsOfEntries(entries) + RefsOfEntry(Entry(key, value))
    ensures Get(Put(entries, key, value), key) == Some(value)
  {
    if entries == [] {
      RefsAppend([], Entry(key, value));
      assert [] + [Entry(key, value)] == [Entry(key, value)];
    } else {
      var first, rest := entries[0], entries[1..];
      RefsConcat([first], rest);
      assert entries == [first] + rest;
      RefsAppend([], first);
      assert [] + [first] == [first];
      if first.key == key {
        RefsConcat([Entry(key, value)], rest);
        RefsAppend([], Entry(key, value));
        assert [] + [Entry(key, value)] == [Entry(key, value)];
      } else {
        PutRefs(rest, key, value);
        RefsConcat([first], Put(rest, key, value));
      }
    }
  }

  lemma {:induction false} PutAllRefs(entries: seq<Entry>, more: seq<Entry>)
    ensures RefsOfEntries(PutAll(entries, more)) <= RefsOfEntries(entries) + RefsOfEntries(more)
    decreases |more|
  {
    if more != [] {
      var e := more[0];
      PutRefs(entries, e.key, e.value);
      PutAllRefs(Put(entries, e.key, e.value), more[1..]);
      RefsConcat([e], more[1..]);
      assert more == [e] + more[1..];
      RefsAppend([], e);
      assert [] + [e] == [e];
    }
  }

  lemma ReachableStep(defs: Definitions, start: set<string>, via: string, name: string)
    requires Reachable(defs, start, via) && name in RefsOfName(defs, via)
    ensures Reachable(defs, start, name)
  {
    var path :| IsPath(defs, start, path) && path[|path| - 1] == via;
    var longer := path + [name];
    forall i | 0 < i < |longer| ensures longer[i] in RefsOfName(defs, longer[i - 1]) {
      if i < |path| {
        assert longer[i] == path[i];
      }
    }
    assert IsPath(defs, start, longer) && longer[|longer| - 1] == name;
  }

  lemma {:induction false} PublishedRefs(defs: Definitions, names: seq<string>, published: seq<Entry>, name: string)
    requires Publishes(defs, names, published) && name in RefsOfEntries(published)
    ensures exists n | n in names :: name in RefsOfName(defs, n)
    decreases |names|
  {
    var k := |names| - 1;
    var last := published[k];
    if name in RefsOfEntry(last) {
      assert last == Entry(names[k], Object(Stripped(defs[names[k]])));
      assert RefsOfEntry(last) == Refs(last.value) == RefsOfEntries(Stripped(defs[names[k]]));
      StrippedRefs(defs[names[k]]);
      assert names[k] in names && name in RefsOfName(defs, names[k]);
    } else {
      PublishedRefs(defs, names[..k], published[..k], name);
      var n :| n in names[..k] && name in RefsOfName(defs, n);
      assert n in names;
    }
  }

  lemma {:induction false} GetPublished(defs: Definitions, names: seq<string>, published: seq<Entry>, name: string)
    requires Publishes(defs, names, published) && name in names
    ensures name in defs && Get(published, name) == Some(Object(Stripped(defs[name])))
    decreases |names|
  {
    if names[0] != name {
      GetPublished(defs, names[1..], published[1..], name);
    }
  }

  /**
   * In the schema that is published, every reference resolves: its name has an entry
   * under `$defs`, and the entry is the definition of that name.
   */
  lemma EveryReferenceResolves(
    defs: Definitions, definition: seq<Entry>, names: seq<string>, published: seq<Entry>, name: string)
    requires forall n :: n in names <==> Reachable(defs, RefsOfEntries(definition), n)
    requires Publishes(defs, names, published) && name in RefsOfEntries(Assembled(definition, published))
    ensures Get(Assembled(definition, published), "$defs") == Some(Object(published))
    ensures name in defs && Get(published, name) == Some(Object(Stripped(defs[name])))
  {
    var start := RefsOfEntries(definition);
    HeadRefs(definition);
    if published != [] {
      PutRefs(PutAll([Entry("$schema", DRAFT)], Stripped(definition)), "$defs", Object(published));
    }
    if name in start {
      DirectlyReachable(defs, start, name);
    } else {
      PublishedRefs(defs, names, published, name);
      var n :| n in names && name in RefsOfName(defs, n);
      ReachableStep(defs, start, n, name);
    }
    GetPublished(defs, names, published, name);
  }

  lemma HeadRefs(definition: seq<Entry>)
    ensures RefsOfEntries(PutAll([Entry("$schema", DRAFT)], Stripped(definition))) <= RefsOfEntries(definition)
  {
    var schema := Entry("$schema", DRAFT);
    PutAllRefs([schema], Stripped(definition));
    StrippedRefs(definition);
    assert RefsOfEntry(schema) == {};
    RefsAppend([], schema);
    assert [] + [schema] == [schema];
  }
}
