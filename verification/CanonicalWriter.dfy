/**
 * The canonical writer: a buffer, and one flag for each open object or array that
 * says whether its next entry is the first.
 */
module CanonicalWriter {
  import opened Bytes
  import opened JsonText
  import opened Json
  import JsonNumber

  datatype WriterError = NotFinite

  /** A float64: a finite number, or a NaN or infinity. */
  datatype Float = Number(value: JsonNumber.Decimal) | NotANumber

  // ----- the calls, one by one

  datatype Call =
    | BeginObject
    | EndObject
    | BeginArray
    | EndArray
    | Key(name: string)
    | Item
    | Text(text: string)
    | Literal(text: string)

  datatype State = State(buf: string, first: seq<bool>)

  /** A comma, except before the first entry and outside everything. */
  function Separator(first: seq<bool>): string
  {
    if first == [] || first[|first| - 1] then "" else ","
  }

  function Used(first: seq<bool>): (r: seq<bool>)
    ensures |r| == |first|
  {
    if first == [] then first else first[|first| - 1 := false]
  }

  function Popped(first: seq<bool>): seq<bool>
  {
    if first == [] then first else first[..|first| - 1]
  }

  function Step(s: State, call: Call): State
  {
    match call
    case BeginObject => State(s.buf + "{", s.first + [true])
    case EndObject => State(s.buf + "}", Popped(s.first))
    case BeginArray => State(s.buf + "[", s.first + [true])
    case EndArray => State(s.buf + "]", Popped(s.first))
    case Key(name) => State(s.buf + Separator(s.first) + Quote(name) + ":", Used(s.first))
    case Item => State(s.buf + Separator(s.first), Used(s.first))
    case Text(text) => State(s.buf + Quote(text), s.first)
    case Literal(text) => State(s.buf + text, s.first)
  }

  function Run(s: State, calls: seq<Call>): State
    decreases |calls|
  {
    if calls == [] then s else Run(Step(s, calls[0]), calls[1..])
  }

  lemma {:induction false} RunConcat(s: State, a: seq<Call>, b: seq<Call>)
    ensures Run(s, a + b) == Run(Run(s, a), b)
    decreases |a|
  {
    if a == [] {
      assert a + b == b;
    } else {
      assert (a + b)[1..] == a[1..] + b;
      RunConcat(Step(s, a[0]), a[1..], b);
    }
  }

  /** The calls that an encoder makes for a tree. */
  function Calls(v: Value): seq<Call>
    decreases v, 1
  {
    match v
    case Null => [Literal("null")]
    case Bool(b) => [Literal(if b then "true" else "false")]
    case Number(digits) => [Literal(digits)]
    case String(text) => [Text(text)]
    case Array(items) => [BeginArray] + (ItemCalls(items) + [EndArray])
    case Object(members) => [BeginObject] + (MemberCalls(members) + [EndObject])
  }

  function ItemCalls(items: seq<Value>): seq<Call>
    decreases items, 0
  {
    if items == [] then [] else [Item] + (Calls(items[0]) + ItemCalls(items[1..]))
  }

  function MemberCalls(members: seq<Member>): seq<Call>
    decreases members, 0
  {
    if members == [] then [] else [Key(members[0].name)] + (Calls(members[0].value) + MemberCalls(members[1..]))
  }

  lemma RunCons(s: State, call: Call, rest: seq<Call>)
    ensures Run(s, [call] + rest) == Run(Step(s, call), rest)
  {
    assert ([call] + rest)[1..] == rest;
  }

  lemma RunOne(s: State, call: Call)
    ensures Run(s, [call]) == Step(s, call)
  {
    RunCons(s, call, []);
    assert [call] + [] == [call];
  }

  /** A call, what it opens, and the rest. */
  lemma EntryRuns(s: State, call: Call, body: seq<Call>, rest: seq<Call>)
    ensures Run(s, [call] + (body + rest)) == Run(Run(Step(s, call), body), rest)
  {
    RunCons(s, call, body + rest);
    RunConcat(Step(s, call), body, rest);
  }

  /**
   * The writer refines the renderer: for every tree, in every state of the writer,
   * its calls append exactly the rendering of the tree and leave the flags as they
   * were. So a comma stands exactly between siblings, at every depth.
   */
  lemma {:induction false} CallsRender(v: Value, s: State)
    ensures Run(s, Calls(v)) == State(s.buf + Render(v), s.first)
    decreases v, 1
  {
    match v {
      case Array(items) =>
        var start := Step(s, BeginArray);
        var filled := State(start.buf + RenderItems(items), s.first + [items == []]);
        ItemCallsRender(items, start, s.first, true);
        NoComma(start.buf, RenderItems(items));
        ArrayCloses(s, items, filled);
      case Object(members) =>
        var start := Step(s, BeginObject);
        var filled := State(start.buf + RenderMembers(members), s.first + [members == []]);
        MemberCallsRender(members, start, s.first, true);
        NoComma(start.buf, RenderMembers(members));
        ObjectCloses(s, members, filled);
      case String(text) =>
        RunOne(s, Text(text));
      case _ =>
        RunOne(s, Calls(v)[0]);
    }
  }

  lemma NoComma(a: string, b: string)
    ensures a + "" + b == a + b
  {
  }

  lemma ArrayCloses(s: State, items: seq<Value>, filled: State)
    requires Run(Step(s, BeginArray), ItemCalls(items)) == filled
    requires filled == State(s.buf + "[" + RenderItems(items), s.first + [items == []])
    ensures Run(s, Calls(Array(items))) == State(s.buf + Render(Array(items)), s.first)
  {
    EntryRuns(s, BeginArray, ItemCalls(items), [EndArray]);
    RunOne(filled, EndArray);
    EndArrayStep(s, RenderItems(items), items == []);
  }

  lemma EndArrayStep(s: State, text: string, flag: bool)
    ensures Step(State(s.buf + "[" + text, s.first + [flag]), EndArray) == State(s.buf + ("[" + text + "]"), s.first)
  {
    PoppedOne(s.first, flag);
    Bracketed(s.buf, "[", text, "]");
  }

  lemma ObjectCloses(s: State, members: seq<Member>, filled: State)
    requires Run(Step(s, BeginObject), MemberCalls(members)) == filled
    requires filled == State(s.buf + "{" + RenderMembers(members), s.first + [members == []])
    ensures Run(s, Calls(Object(members))) == State(s.buf + Render(Object(members)), s.first)
  {
    EntryRuns(s, BeginObject, MemberCalls(members), [EndObject]);
    RunOne(filled, EndObject);
    EndObjectStep(s, RenderMembers(members), members == []);
  }

  lemma EndObjectStep(s: State, text: string, flag: bool)
    ensures Step(State(s.buf + "{" + text, s.first + [flag]), EndObject) == State(s.buf + ("{" + text + "}"), s.first)
  {
    PoppedOne(s.first, flag);
    Bracketed(s.buf, "{", text, "}");
  }

  lemma PoppedOne(first: seq<bool>, flag: bool)
    ensures Popped(first + [flag]) == first
  {
  }

  lemma Bracketed(buf: string, l: string, text: string, r: string)
    ensures buf + l + text + r == buf + (l + text + r)
  {
  }

  function Comma(wanted: bool): string
  {
    if wanted then "," else ""
  }

  lemma {:induction false} ItemCallsRender(items: seq<Value>, s: State, outer: seq<bool>, isFirst: bool)
    requires s.first == outer + [isFirst]
    ensures Run(s, ItemCalls(items)) ==
            State(s.buf + Comma(items != [] && !isFirst) + RenderItems(items), outer + [isFirst && items == []])
    decreases items, 0
  {
    if items == [] {
      NothingFollows(s.buf);
    } else {
      var v, rest := items[0], items[1..];
      var next := Step(s, Item);
      var after := State(next.buf + Render(v), next.first);
      CallsRender(v, next);
      EntryRuns(s, Item, Calls(v), ItemCalls(rest));
      UsedOne(outer, isFirst);
      ItemCallsRender(rest, after, outer, false);
      EntriesText(s.buf + Comma(!isFirst), Render(v), rest != [], RenderItems(rest));
    }
  }

  lemma NothingFollows(buf: string)
    ensures buf + "" + "" == buf
  {
  }

  lemma UsedOne(outer: seq<bool>, isFirst: bool)
    ensures Used(outer + [isFirst]) == outer + [false] && Separator(outer + [isFirst]) == Comma(!isFirst)
  {
  }

  lemma EntriesText(front: string, entry: string, more: bool, rest: string)
    requires !more ==> rest == ""
    ensures front + entry + Comma(more) + rest == front + (entry + (if more then "," + rest else ""))
  {
  }

  lemma {:induction false} MemberCallsRender(members: seq<Member>, s: State, outer: seq<bool>, isFirst: bool)
    requires s.first == outer + [isFirst]
    ensures Run(s, MemberCalls(members)) ==
            State(s.buf + Comma(members != [] && !isFirst) + RenderMembers(members), outer + [isFirst && members == []])
    decreases members, 0
  {
    if members == [] {
      NothingFollows(s.buf);
    } else {
      var m, rest := members[0], members[1..];
      var next := Step(s, Key(m.name));
      var after := State(next.buf + Render(m.value), next.first);
      CallsRender(m.value, next);
      EntryRuns(s, Key(m.name), Calls(m.value), MemberCalls(rest));
      UsedOne(outer, isFirst);
      MemberCallsRender(rest, after, outer, false);
      MemberText(s.buf + Comma(!isFirst), m);
      EntriesText(s.buf + Comma(!isFirst), RenderMember(m), rest != [], RenderMembers(rest));
    }
  }

  lemma MemberText(front: string, m: Member)
    ensures front + Quote(m.name) + ":" + Render(m.value) == front + RenderMember(m)
  {
  }

  // ----- a partly written document

  /** What has been written so far: the open objects and arrays and their finished entries. */
  datatype Document =
    | Top(text: string)
    | InObject(outer: Document, members: seq<Member>, key: Option<string>)
    | InArray(outer: Document, items: seq<Value>, ready: bool)

  predicate ExpectsValue(d: Document)
  {
    d.Top? || (d.InObject? && d.key.Some?) || (d.InArray? && d.ready)
  }

  predicate ExpectsKey(d: Document) { d.InObject? && d.key.None? }
  predicate ExpectsItem(d: Document) { d.InArray? && !d.ready }

  function Written(d: Document): string
  {
    match d
    case Top(text) => text
    case InObject(outer, members, key) =>
      Written(outer) + "{" + RenderMembers(members) +
      (if key.None? then "" else (if members == [] then "" else ",") + Quote(key.value) + ":")
    case InArray(outer, items, ready) =>
      Written(outer) + "[" + RenderItems(items) + (if ready && items != [] then "," else "")
  }

  function Flags(d: Document): seq<bool>
  {
    match d
    case Top(_) => []
    case InObject(outer, members, key) => Flags(outer) + [members == [] && key.None?]
    case InArray(outer, items, ready) => Flags(outer) + [items == [] && !ready]
  }

  function PutValue(d: Document, v: Value): Document
  {
    match d
    case Top(text) => Top(text + Render(v))
    case InObject(outer, members, key) =>
      if key.None? then d else InObject(outer, members + [Member(key.value, v)], None)
    case InArray(outer, items, ready) => InArray(outer, items + [v], false)
  }

  function PutKey(d: Document, name: string): Document
  {
    if d.InObject? then d.(key := Some(name)) else d
  }

  function PutItem(d: Document): Document
  {
    if d.InArray? then d.(ready := true) else d
  }

  function Closed(d: Document): Document
  {
    match d
    case Top(_) => d
    case InObject(outer, members, _) => PutValue(outer, Object(members))
    case InArray(outer, items, _) => PutValue(outer, Array(items))
  }

  /** A value that is put where one is expected is what is written next, and only that. */
  lemma PutValueWrites(d: Document, v: Value)
    requires ExpectsValue(d)
    ensures Written(PutValue(d, v)) == Written(d) + Render(v)
    ensures Flags(PutValue(d, v)) == Flags(d)
  {
    match d {
      case Top(_) =>
      case InObject(outer, members, key) =>
        PutMemberWrites(outer, members, key.value, v);
      case InArray(outer, items, _) =>
        PutItemWrites(outer, items, v);
    }
  }

  lemma PutMemberWrites(outer: Document, members: seq<Member>, key: string, v: Value)
    ensures Written(InObject(outer, members + [Member(key, v)], None)) ==
            Written(InObject(outer, members, Some(key))) + Render(v)
  {
    var m, front, sep := Member(key, v), Written(outer) + "{", if members == [] then "" else ",";
    var head := Quote(key) + ":";
    RenderMembersAppend(members, m);
    calc {
      Written(InObject(outer, members + [m], None));
      front + RenderMembers(members + [m]) + "";
      front + (RenderMembers(members) + sep + (head + Render(v)));
      { Regroup(front, RenderMembers(members), sep, head, Render(v)); }
      front + RenderMembers(members) + (sep + head) + Render(v);
      front + RenderMembers(members) + (sep + Quote(key) + ":") + Render(v);
    }
  }

  lemma Regroup(a: string, b: string, c: string, d: string, e: string)
    ensures a + (b + c + (d + e)) == a + b + (c + d) + e
  {
  }

  lemma PutItemWrites(outer: Document, items: seq<Value>, v: Value)
    ensures Written(InArray(outer, items + [v], false)) == Written(InArray(outer, items, true)) + Render(v)
  {
    var front, sep := Written(outer) + "[", if items == [] then "" else ",";
    RenderItemsAppend(items, v);
    calc {
      Written(InArray(outer, items + [v], false));
      front + RenderItems(items + [v]) + "";
      front + (RenderItems(items) + sep + Render(v));
      front + RenderItems(items) + sep + Render(v);
    }
  }

  lemma PutKeyWrites(outer: Document, members: seq<Member>, name: string)
    ensures var d := InObject(outer, members, None);
            var k := InObject(outer, members, Some(name));
            && Written(k) == Written(d) + Separator(Flags(d)) + Quote(name) + ":"
            && Flags(k) == Used(Flags(d))
  {
    var front, sep := Written(outer) + "{" + RenderMembers(members), if members == [] then "" else ",";
    assert front + "" == front;
    assert front + (sep + Quote(name) + ":") == front + sep + Quote(name) + ":";
  }

  class Writer {
    var buf: string
    var first: seq<bool>
    var err: Option<WriterError>
    ghost var doc: Document

    ghost function Now(): State
      reads this
    {
      State(buf, first)
    }

    /** The buffer and the flags are those of the document. */
    ghost predicate Tracks()
      reads this
    {
      buf == Written(doc) && first == Flags(doc)
    }

    constructor ()
      ensures Now() == State("", []) && err == None
      ensures doc == Top("") && Tracks()
    {
      buf, first, err := "", [], None;
      doc := Top("");
    }

    method OpenObject()
      modifies this
      ensures Now() == Step(old(Now()), BeginObject) && err == old(err)
      ensures doc == InObject(old(doc), [], None)
      ensures old(Tracks()) ==> Tracks()
    {
      buf := buf + "{";
      first := first + [true];
      doc := InObject(doc, [], None);
      assert Written(doc) == Written(old(doc)) + "{" + "" + "";
    }

    method CloseObject()
      modifies this
      ensures Now() == Step(old(Now()), EndObject) && err == old(err)
      ensures doc == Closed(old(doc))
      ensures old(Tracks()) && ExpectsKey(old(doc)) && ExpectsValue(old(doc).outer) ==> Tracks()
    {
      buf := buf + "}";
      Pop();
      if ExpectsKey(doc) && ExpectsValue(doc.outer) {
        PutValueWrites(doc.outer, Object(doc.members));
        assert old(Written(doc)) + "}" == Written(doc.outer) + ("{" + RenderMembers(doc.members) + "}");
      }
      doc := Closed(doc);
    }

    method OpenArray()
      modifies this
      ensures Now() == Step(old(Now()), BeginArray) && err == old(err)
      ensures doc == InArray(old(doc), [], false)
      ensures old(Tracks()) ==> Tracks()
    {
      buf := buf + "[";
      first := first + [true];
      doc := InArray(doc, [], false);
      assert Written(doc) == Written(old(doc)) + "[" + "" + "";
    }

    method CloseArray()
      modifies this
      ensures Now() == Step(old(Now()), EndArray) && err == old(err)
      ensures doc == Closed(old(doc))
      ensures old(Tracks()) && ExpectsItem(old(doc)) && ExpectsValue(old(doc).outer) ==> Tracks()
    {
      buf := buf + "]";
      Pop();
      if ExpectsItem(doc) && ExpectsValue(doc.outer) {
        PutValueWrites(doc.outer, Array(doc.items));
        assert old(Written(doc)) + "]" == Written(doc.outer) + ("[" + RenderItems(doc.items) + "]");
      }
      doc := Closed(doc);
    }

    method Pop()
      modifies this`first
      ensures first == Popped(old(first))
    {
      if |first| > 0 {
        first := first[..|first| - 1];
      }
    }

    method Separate()
      modifies this`buf, this`first
      ensures buf == old(buf) + Separator(old(first)) && first == Used(old(first))
    {
      if |first| == 0 {
        return;
      }
      if first[|first| - 1] {
        first := first[|first| - 1 := false];
        return;
      }
      assert first == Used(first);
      buf := buf + ",";
    }

    method WriteKey(name: string)
      modifies this
      ensures Now() == Step(old(Now()), Key(name)) && err == old(err)
      ensures doc == PutKey(old(doc), name)
      ensures old(Tracks()) && ExpectsKey(old(doc)) ==> Tracks()
    {
      Separate();
      buf := AppendJSONString(buf, name);
      buf := buf + ":";
      doc := PutKey(doc, name);
      ghost var was := old(doc);
      if old(Tracks()) && ExpectsKey(was) {
        PutKeyWrites(was.outer, was.members, name);
      }
    }

    method WriteItem()
      modifies this
      ensures Now() == Step(old(Now()), Item) && err == old(err)
      ensures doc == PutItem(old(doc))
      ensures old(Tracks()) && ExpectsItem(old(doc)) ==> Tracks()
    {
      Separate();
      doc := PutItem(doc);
      ghost var was := old(doc);
      if old(Tracks()) && ExpectsItem(was) {
        assert Separator(Flags(was)) == if was.items == [] then "" else ",";
      }
    }

    method WriteString(value: string)
      modifies this
      ensures Now() == Step(old(Now()), Text(value)) && err == old(err)
      ensures doc == PutValue(old(doc), String(value))
      ensures old(Tracks()) && ExpectsValue(old(doc)) ==> Tracks()
    {
      buf := AppendJSONString(buf, value);
      if ExpectsValue(doc) {
        PutValueWrites(doc, String(value));
      }
      doc := PutValue(doc, String(value));
    }

    method WriteInteger(value: int)
      modifies this
      ensures Now() == Step(old(Now()), Literal(JsonNumber.IntegerText(value))) && err == old(err)
      ensures doc == PutValue(old(doc), Value.Number(JsonNumber.IntegerText(value)))
      ensures old(Tracks()) && ExpectsValue(old(doc)) ==> Tracks()
    {
      buf := buf + JsonNumber.IntegerText(value);
      if ExpectsValue(doc) {
        PutValueWrites(doc, Value.Number(JsonNumber.IntegerText(value)));
      }
      doc := PutValue(doc, Value.Number(JsonNumber.IntegerText(value)));
    }

    /** A value that JSON cannot hold is remembered as an error, and "0" is written in its place. */
    method WriteNumber(value: Float)
      requires value.Number? ==> JsonNumber.Normal(value.value)
      modifies this
      ensures Now() == Step(old(Now()), Literal(FloatText(value)))
      ensures err == if value.NotANumber? then Some(NotFinite) else old(err)
      ensures doc == PutValue(old(doc), Value.Number(FloatText(value)))
      ensures old(Tracks()) && ExpectsValue(old(doc)) ==> Tracks()
    {
      if ExpectsValue(doc) {
        PutValueWrites(doc, Value.Number(FloatText(value)));
      }
      doc := PutValue(doc, Value.Number(FloatText(value)));
      if value.NotANumber? {
        err := Some(NotFinite);
        buf := buf + "0";
        return;
      }
      buf := buf + JsonNumber.FormatEcmaNumber(value.value);
    }

    method WriteBoolean(value: bool)
      modifies this
      ensures Now() == Step(old(Now()), Literal(if value then "true" else "false")) && err == old(err)
      ensures doc == PutValue(old(doc), Bool(value))
      ensures old(Tracks()) && ExpectsValue(old(doc)) ==> Tracks()
    {
      if ExpectsValue(doc) {
        PutValueWrites(doc, Bool(value));
      }
      doc := PutValue(doc, Bool(value));
      if value {
        buf := buf + "true";
        return;
      }
      buf := buf + "false";
    }

    /** Text that is already a rendered value. */
    method WriteRaw(value: string, ghost v: Value)
      modifies this
      ensures Now() == Step(old(Now()), Literal(value)) && err == old(err)
      ensures doc == PutValue(old(doc), v)
      ensures old(Tracks()) && ExpectsValue(old(doc)) && value == Render(v) ==> Tracks()
    {
      buf := buf + value;
      if ExpectsValue(doc) {
        PutValueWrites(doc, v);
      }
      doc := PutValue(doc, v);
    }

    method Result() returns (r: Result<string, WriterError>)
      ensures r == if err.Some? then Err(err.value) else Ok(buf)
    {
      if err.Some? {
        return Err(err.value);
      }
      r := Ok(buf);
    }
  }

  function FloatText(value: Float): string
    requires value.Number? ==> JsonNumber.Normal(value.value)
  {
    if value.Number? then JsonNumber.FormatEcmaNumber(value.value) else "0"
  }
}
