/**
 * The envelope that every control frame has around its payload.
 */
module ControlEnvelope {
  import opened Bytes
  import opened Json
  import opened Schema
  import opened CanonicalForm
  import opened Messages
  import opened MessageBounds

  const REGISTRATION_REQUEST_TYPE := "connector.registration.request"
  const REGISTRATION_RESPONSE_TYPE := "connector.registration.response"
  const HEARTBEAT_TYPE := "heartbeat"
  const ROUTE_PUBLISH_TYPE := "route.publish"
  const ROUTE_PUBLISH_ACK_TYPE := "route.publish.ack"
  const RECONNECT_REQUEST_TYPE := "connector.reconnect.request"
  const RECONNECT_RESPONSE_TYPE := "connector.reconnect.response"
  const WORKSPACE_OBSERVED_TYPE := "workspace.observed"

  const REGISTRATION_TYPES := [REGISTRATION_REQUEST_TYPE, REGISTRATION_RESPONSE_TYPE]
  const ATTRIBUTED_TYPES := [
    HEARTBEAT_TYPE, ROUTE_PUBLISH_TYPE, ROUTE_PUBLISH_ACK_TYPE,
    RECONNECT_REQUEST_TYPE, RECONNECT_RESPONSE_TYPE, WORKSPACE_OBSERVED_TYPE]
  const MESSAGE_TYPES := REGISTRATION_TYPES + ATTRIBUTED_TYPES

  const ENVELOPE_FIELDS := [
    Field("protocol_version", Integer(1, 1), true),
    Field("message_id", IDENTIFIER, true),
    Field("type", Enum(MESSAGE_TYPES), true),
    Field("sent_at", TIMESTAMP, true),
    Field("connector_id", IDENTIFIER, false),
    Field("correlation_id", IDENTIFIER, false),
    Field("payload", AnyObject, true)]

  /** A message before enrolment names no connector, a later one names its own. */
  const ENVELOPE_RULES := [
    Rule("type", REGISTRATION_TYPES, "connector_id", false),
    Rule("type", ATTRIBUTED_TYPES, "connector_id", true)]

  const ENVELOPE := Struct(ENVELOPE_FIELDS, ENVELOPE_RULES)

  datatype Envelope = Envelope(
    protocolVersion: Int64, messageId: string, messageType: string, sentAt: string,
    connectorId: Option<string>, correlationId: Option<string>)

  function EnvelopeSlots(e: Envelope, payload: Value): seq<Slot>
  {
    [ Slot("protocol_version", Some(IntegerTree(e.protocolVersion))),
      Slot("message_id", Some(TextTree(e.messageId))),
      Slot("type", Some(TextTree(e.messageType))),
      Slot("sent_at", Some(TextTree(e.sentAt))),
      Slot("connector_id", Optional(e.connectorId, TextTree)),
      Slot("correlation_id", Optional(e.correlationId, TextTree)),
      Slot("payload", Some(payload))]
  }

  function EnvelopeTree(e: Envelope, payload: Value): Value { Object(Present(EnvelopeSlots(e, payload))) }

  function EnvelopeOf(value: Value): Envelope
  {
    var source := Members(value);
    Envelope(
      IntegerOf(Property(source, "protocol_version")),
      TextOf(Property(source, "message_id")),
      TextOf(Property(source, "type")),
      TextOf(Property(source, "sent_at")),
      Mapped(Lookup(source, "connector_id"), TextOf),
      Mapped(Lookup(source, "correlation_id"), TextOf))
  }

  lemma EnvelopeNames(e: Envelope, payload: Value)
    ensures DistinctNames(EnvelopeSlots(e, payload))
  {
  }

  lemma EnvelopeSlotIsRead(e: Envelope, payload: Value, k: nat)
    requires k < 7
    ensures Lookup(Present(EnvelopeSlots(e, payload)), ENVELOPE_FIELDS[k].name) == EnvelopeSlots(e, payload)[k].value
  {
    EnvelopeNames(e, payload);
    LookupPresent(EnvelopeSlots(e, payload), k);
    assert k == 0 || k == 1 || k == 2 || k == 3 || k == 4 || k == 5 || k == 6;
  }

  lemma EnvelopeStartIsRead(e: Envelope, payload: Value)
    ensures Lookup(Present(EnvelopeSlots(e, payload)), "protocol_version") == Some(IntegerTree(e.protocolVersion))
    ensures Lookup(Present(EnvelopeSlots(e, payload)), "message_id") == Some(TextTree(e.messageId))
    ensures Lookup(Present(EnvelopeSlots(e, payload)), "type") == Some(TextTree(e.messageType))
    ensures Lookup(Present(EnvelopeSlots(e, payload)), "sent_at") == Some(TextTree(e.sentAt))
  {
    EnvelopeNames(e, payload);
    LookupPresent(EnvelopeSlots(e, payload), 0);
    LookupPresent(EnvelopeSlots(e, payload), 1);
    LookupPresent(EnvelopeSlots(e, payload), 2);
    LookupPresent(EnvelopeSlots(e, payload), 3);
  }

  lemma EnvelopeEndIsRead(e: Envelope, payload: Value)
    ensures Lookup(Present(EnvelopeSlots(e, payload)), "connector_id") == Optional(e.connectorId, TextTree)
    ensures Lookup(Present(EnvelopeSlots(e, payload)), "correlation_id") == Optional(e.correlationId, TextTree)
    ensures Lookup(Present(EnvelopeSlots(e, payload)), "payload") == Some(payload)
  {
    EnvelopeNames(e, payload);
    LookupPresent(EnvelopeSlots(e, payload), 4);
    LookupPresent(EnvelopeSlots(e, payload), 5);
    LookupPresent(EnvelopeSlots(e, payload), 6);
  }

  lemma EnvelopeIsRead(e: Envelope, payload: Value)
    ensures EnvelopeOf(EnvelopeTree(e, payload)) == e
    ensures Property(Present(EnvelopeSlots(e, payload)), "payload") == payload
    ensures Property(Present(EnvelopeSlots(e, payload)), "protocol_version") == IntegerTree(e.protocolVersion)
    ensures Property(Present(EnvelopeSlots(e, payload)), "type") == TextTree(e.messageType)
  {
    EnvelopeStartIsRead(e, payload);
    EnvelopeEndIsRead(e, payload);
    EnvelopeFrom(Present(EnvelopeSlots(e, payload)), e);
  }

  lemma EnvelopeFrom(source: seq<Member>, e: Envelope)
    requires Lookup(source, "protocol_version") == Some(IntegerTree(e.protocolVersion))
    requires Lookup(source, "message_id") == Some(TextTree(e.messageId))
    requires Lookup(source, "type") == Some(TextTree(e.messageType))
    requires Lookup(source, "sent_at") == Some(TextTree(e.sentAt))
    requires Lookup(source, "connector_id") == Optional(e.connectorId, TextTree)
    requires Lookup(source, "correlation_id") == Optional(e.correlationId, TextTree)
    ensures EnvelopeOf(Object(source)) == e
  {
    IntegerIsRead(e.protocolVersion);
    OptionalTextIsRead(e.connectorId);
    OptionalTextIsRead(e.correlationId);
    assert TextOf(TextTree(e.messageId)) == e.messageId && TextOf(TextTree(e.messageType)) == e.messageType;
    assert TextOf(TextTree(e.sentAt)) == e.sentAt;
  }

  lemma EnvelopeSlot(near: Nearest, members: seq<Member>, k: nat)
    requires k < 6
    ensures IsLeaf(ENVELOPE_FIELDS[k].schema)
    ensures EnvelopeSlots(EnvelopeOf(Object(members)), Property(members, "payload"))[k] ==
            Rewritten(near, ENVELOPE_FIELDS[k], members)
  {
    assert k == 0 || k == 1 || k == 2 || k == 3 || k == 4 || k == 5;
  }

  lemma EnvelopeIsNormalised(near: Nearest, members: seq<Member>)
    requires Read(near, ENVELOPE_FIELDS, members)
    ensures EnvelopeSlots(EnvelopeOf(Object(members)), Property(members, "payload")) == Slots(near, ENVELOPE_FIELDS, members)
  {
    var slots := EnvelopeSlots(EnvelopeOf(Object(members)), Property(members, "payload"));
    forall k | 0 <= k < |slots| ensures slots[k] == FieldSlot(near, ENVELOPE_FIELDS[k], members) {
      if k < 6 {
        EnvelopeSlot(near, members, k);
        RewrittenIsNormalised(near, ENVELOPE_FIELDS, members, k);
      } else {
        EnvelopePayload(near, members);
      }
    }
    SlotsAre(near, ENVELOPE_FIELDS, members, slots);
  }

  lemma EnvelopePayload(near: Nearest, members: seq<Member>)
    requires Read(near, ENVELOPE_FIELDS, members)
    ensures FieldSlot(near, ENVELOPE_FIELDS[6], members) == Slot("payload", Some(Property(members, "payload")))
    ensures Property(members, "payload").Object?
  {
    assert ENVELOPE_FIELDS[6] == Field("payload", AnyObject, true);
    assert Lookup(members, ENVELOPE_FIELDS[6].name).Some?;
    assert Conforms(near, ENVELOPE_FIELDS[6].schema, Lookup(members, ENVELOPE_FIELDS[6].name).value);
  }

  // ----- a valid envelope

  /** The envelope satisfies its schema, around any payload. */
  predicate EnvelopeIsValid(near: Nearest, e: Envelope)
  {
    Conforms(near, ENVELOPE, EnvelopeTree(e, Object([])))
  }

  lemma EnvelopeDiffer()
    ensures Differ(ENVELOPE_FIELDS)
    ensures forall i | 0 <= i < |ENVELOPE_RULES| :: RuleIsSound(ENVELOPE_FIELDS, ENVELOPE_RULES[i])
  {
    RuleHolds(ENVELOPE_FIELDS, ENVELOPE_RULES[0], 2, 4);
    RuleHolds(ENVELOPE_FIELDS, ENVELOPE_RULES[1], 2, 4);
  }

  lemma EnvelopeIsSound()
    ensures Sound(ENVELOPE)
  {
    EnvelopeDiffer();
  }

  lemma EnvelopeDeclares(e: Envelope, payload: Value)
    ensures OnlyDeclared(ENVELOPE_FIELDS, Present(EnvelopeSlots(e, payload)))
  {
    var slots := EnvelopeSlots(e, payload);
    PresentAreSlots(slots);
    forall m | m in Present(slots) ensures Declares(ENVELOPE_FIELDS, m.name) {
      var i :| 0 <= i < |slots| && slots[i] == Slot(m.name, Some(m.value));
      assert ENVELOPE_FIELDS[i].name == m.name;
    }
  }

  /** What the schema asks of an envelope does not depend on the payload, as long as that is an object. */
  lemma EnvelopeAround(near: Nearest, e: Envelope, p: Value, q: Value)
    requires p.Object? && q.Object? && Conforms(near, ENVELOPE, EnvelopeTree(e, p))
    ensures Conforms(near, ENVELOPE, EnvelopeTree(e, q))
  {
    var f, before, after := ENVELOPE_FIELDS, Present(EnvelopeSlots(e, p)), Present(EnvelopeSlots(e, q));
    EnvelopeDeclares(e, q);
    forall k | 0 <= k < 6 ensures Lookup(after, f[k].name) == Lookup(before, f[k].name) {
      EnvelopeSlotIsRead(e, p, k);
      EnvelopeSlotIsRead(e, q, k);
    }
    EnvelopeSlotIsRead(e, q, 6);
    SamePropertiesConform(near, before, after, q);
  }

  lemma SamePropertiesConform(near: Nearest, before: seq<Member>, after: seq<Member>, q: Value)
    requires Conforms(near, ENVELOPE, Object(before)) && OnlyDeclared(ENVELOPE_FIELDS, after)
    requires forall k | 0 <= k < 6 :: Lookup(after, ENVELOPE_FIELDS[k].name) == Lookup(before, ENVELOPE_FIELDS[k].name)
    requires Lookup(after, ENVELOPE_FIELDS[6].name) == Some(q) && q.Object?
    ensures Conforms(near, ENVELOPE, Object(after))
  {
    var f := ENVELOPE_FIELDS;
    assert HasRequired(f, before) && FieldsConform(near, f, before);
    forall k | 0 <= k < |f|
      ensures f[k].required ==> Lookup(after, f[k].name).Some?
      ensures Lookup(after, f[k].name).Some? ==> Conforms(near, f[k].schema, Lookup(after, f[k].name).value)
    {
      if k < 6 {
        assert Lookup(after, f[k].name) == Lookup(before, f[k].name);
      } else {
        assert f[k].schema == AnyObject;
      }
    }
    SameRulesHold(before, after);
  }

  lemma SameRulesHold(before: seq<Member>, after: seq<Member>)
    requires forall k | 0 <= k < 6 :: Lookup(after, ENVELOPE_FIELDS[k].name) == Lookup(before, ENVELOPE_FIELDS[k].name)
    requires forall i | 0 <= i < |ENVELOPE_RULES| :: Obeys(ENVELOPE_RULES[i], before)
    ensures forall i | 0 <= i < |ENVELOPE_RULES| :: Obeys(ENVELOPE_RULES[i], after)
  {
    assert ENVELOPE_FIELDS[2].name == "type" && ENVELOPE_FIELDS[4].name == "connector_id";
    assert Obeys(ENVELOPE_RULES[0], before) && Obeys(ENVELOPE_RULES[1], before);
  }

  /** What the two rules say: the connector is named unless it is being registered. */
  predicate NamesConnector(e: Envelope)
  {
    && (e.messageType in REGISTRATION_TYPES ==> e.connectorId.None?)
    && (e.messageType in ATTRIBUTED_TYPES ==> e.connectorId.Some?)
  }

  lemma RulesAreObeyed(e: Envelope, payload: Value)
    requires NamesConnector(e)
    ensures forall i | 0 <= i < |ENVELOPE_RULES| :: Obeys(ENVELOPE_RULES[i], Present(EnvelopeSlots(e, payload)))
  {
    EnvelopeStartIsRead(e, payload);
    EnvelopeEndIsRead(e, payload);
  }

  /** An envelope whose properties conform one by one, and that obeys the rules, is valid. */
  lemma PropertiesConform(near: Nearest, e: Envelope)
    requires NamesConnector(e)
    requires forall k | 0 <= k < 6 :: SlotIsRight(near, EnvelopeSlots(e, Object([]))[k], ENVELOPE_FIELDS[k])
    ensures EnvelopeIsValid(near, e)
  {
    var source := Present(EnvelopeSlots(e, Object([])));
    EnvelopeDeclares(e, Object([]));
    RulesAreObeyed(e, Object([]));
    forall k | 0 <= k < |ENVELOPE_FIELDS| ensures PropertyIsRight(near, ENVELOPE_FIELDS[k], source) {
      EnvelopeSlotIsRead(e, Object([]), k);
      if k < 6 {
        assert SlotIsRight(near, EnvelopeSlots(e, Object([]))[k], ENVELOPE_FIELDS[k]);
      } else {
        assert ENVELOPE_FIELDS[k].schema == AnyObject;
      }
    }
    RightProperties(near, ENVELOPE_FIELDS, ENVELOPE_RULES, source);
  }

  predicate SlotIsRight(near: Nearest, slot: Slot, f: Field)
  {
    if slot.value.Some? then Conforms(near, f.schema, slot.value.value) else !f.required
  }

  predicate PropertyIsRight(near: Nearest, f: Field, members: seq<Member>)
  {
    SlotIsRight(near, Slot(f.name, Lookup(members, f.name)), f)
  }

  lemma RightProperties(near: Nearest, fields: seq<Field>, rules: seq<Rule>, members: seq<Member>)
    requires OnlyDeclared(fields, members) && forall k | 0 <= k < |fields| :: PropertyIsRight(near, fields[k], members)
    requires forall i | 0 <= i < |rules| :: Obeys(rules[i], members)
    ensures Conforms(near, Struct(fields, rules), Object(members))
  {
    forall k | 0 <= k < |fields|
      ensures fields[k].required ==> Lookup(members, fields[k].name).Some?
      ensures Lookup(members, fields[k].name).Some? ==> Conforms(near, fields[k].schema, Lookup(members, fields[k].name).value)
    {
      assert PropertyIsRight(near, fields[k], members);
    }
  }

  // ----- its size

  lemma TypesFit()
    ensures FitsIn(Enum(MESSAGE_TYPES), 33)
  {
    PlainTypes();
    EnumFits(MESSAGE_TYPES, 31);
  }

  lemma PlainTypes()
    ensures forall i | 0 <= i < |MESSAGE_TYPES| :: |MESSAGE_TYPES[i]| <= 31 && AllPlain(MESSAGE_TYPES[i])
  {
    assert |MESSAGE_TYPES| == 8;
  }

  lemma PlainEnvelopeNames()
    ensures AllPlain("protocol_version") && AllPlain("message_id") && AllPlain("type") && AllPlain("sent_at")
    ensures AllPlain("connector_id") && AllPlain("correlation_id") && AllPlain("payload")
  {
  }

  lemma EnvelopeStart()
    ensures PrefixFits(ENVELOPE_FIELDS, 3, 142)
  {
    var f := ENVELOPE_FIELDS;
    PlainEnvelopeNames();
    TypesFit();
    IntegerFits(1, 1, 1);
    Adds(f, 0, 0, 21);
    Adds(f, 1, 21, 80);
    Adds(f, 2, 101, 41);
  }

  lemma EnvelopeHeadFits()
    ensures PrefixFits(ENVELOPE_FIELDS, 6, 351)
  {
    var f := ENVELOPE_FIELDS;
    PlainEnvelopeNames();
    EnvelopeStart();
    Adds(f, 3, 142, 43);
    Adds(f, 4, 185, 82);
    Adds(f, 5, 267, 84);
  }

  lemma EnvelopeSlotFits(near: Nearest, e: Envelope, k: nat)
    requires Settles(near) && EnvelopeIsValid(near, e) && k < 6
    ensures SlotFits(EnvelopeSlots(e, Object([]))[k], ENVELOPE_FIELDS[k])
  {
    var slots, f := EnvelopeSlots(e, Object([])), ENVELOPE_FIELDS[k];
    var source := Present(slots);
    EnvelopeIsRead(e, Object([]));
    EnvelopeIsNormalised(near, source);
    EnvelopeSlotIsRead(e, Object([]), k);
    EnvelopeHeadFits();
    PlainText(f.name);
    assert slots[k].value == SlotValue(near, f, slots[k].value);
    if slots[k].value.Some? {
      assert FieldsConform(near, ENVELOPE_FIELDS, source);
      assert Conforms(near, f.schema, slots[k].value.value);
      SlotValueOf(near, f, slots[k].value.value);
      ConformingIsCanonical(near, f.schema, slots[k].value.value);
    }
  }

  function EnvelopeHead(e: Envelope): (slots: seq<Slot>)
    ensures |slots| == 6
  {
    EnvelopeSlots(e, Object([]))[..6]
  }

  lemma EnvelopeHeadIsShort(near: Nearest, e: Envelope)
    requires Settles(near) && EnvelopeIsValid(near, e)
    ensures Canonical(Object(Present(EnvelopeHead(e)))) && |RenderMembers(Present(EnvelopeHead(e)))| <= 351
  {
    var head, f := EnvelopeHead(e), ENVELOPE_FIELDS[..6];
    forall k | 0 <= k < 6 ensures SlotFits(head[k], f[k]) {
      EnvelopeSlotFits(near, e, k);
    }
    SlotsFit(head, f);
    EnvelopeHeadFits();
  }

  lemma EnvelopeSplits(e: Envelope, payload: Value)
    ensures EnvelopeSlots(e, payload) == EnvelopeHead(e) + [Slot("payload", Some(payload))]
  {
  }

  lemma LastMember(head: seq<Slot>, name: string, v: Value)
    requires Canonical(Object(Present(head))) && Canonical(v) && AllPlain(name)
    ensures var all := Present(head + [Slot(name, Some(v))]);
            && Canonical(Object(all))
            && |RenderMembers(all)| <= |RenderMembers(Present(head))| + |name| + 4 + |Render(v)|
  {
    PresentAppend(head, Slot(name, Some(v)));
    RenderMembersAppend(Present(head), Member(name, v));
    PlainText(name);
  }

  /** A valid envelope adds a bounded number of bytes to its payload. */
  lemma EnvelopeIsShort(near: Nearest, e: Envelope, payload: Value)
    requires Settles(near) && EnvelopeIsValid(near, e) && Canonical(payload)
    ensures Canonical(EnvelopeTree(e, payload))
    ensures |Render(EnvelopeTree(e, payload))| <= 364 + |Render(payload)|
  {
    EnvelopeHeadIsShort(near, e);
    PlainEnvelopeNames();
    LastMember(EnvelopeHead(e), "payload", payload);
    EnvelopeSplits(e, payload);
  }
}
