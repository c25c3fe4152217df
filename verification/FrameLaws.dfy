/**
 * The laws of the frame entry points.
 */
module FrameLaws {
  import opened Bytes
  import opened JsonText
  import opened Json
  import opened Schema
  import opened CanonicalForm
  import opened Messages
  import opened MessageBounds
  import opened TreeMessages
  import opened ControlEnvelope
  import opened Frames

  // ----- payloads

  /** The load of a heartbeat is a number, and the one that its text is read as. */
  predicate LoadIsKept(near: Nearest, p: Payload)
  {
    p.HeartbeatPayload? && p.heartbeat.resourceSummary.Some? ==> LoadIsRead(near, p.heartbeat.resourceSummary.value)
  }

  /** A tree that some value of the type has: in canonical form, and its texts are UTF-8. */
  predicate TreeIsKept(near: Nearest, p: Payload)
  {
    p.TreePayload? ==>
      p.messageType in TREE_TYPES && Canonical(p.tree) &&
      Normalised(near, PayloadSchema(p.messageType), p.tree) == p.tree
  }

  predicate PayloadIsValid(near: Nearest, p: Payload)
  {
    Conforms(near, PayloadSchema(TypeOf(p)), PayloadTree(p)) && LoadIsKept(near, p) && TreeIsKept(near, p)
  }

  lemma TypesDiffer(messageType: string)
    requires messageType in TREE_TYPES
    ensures messageType in MESSAGE_TYPES && !IsTyped(messageType)
  {
    assert MESSAGE_TYPES[0] == REGISTRATION_REQUEST_TYPE && MESSAGE_TYPES[1] == REGISTRATION_RESPONSE_TYPE;
    assert MESSAGE_TYPES[5] == RECONNECT_REQUEST_TYPE && MESSAGE_TYPES[7] == WORKSPACE_OBSERVED_TYPE;
  }

  lemma SchemasOfTypes()
    ensures PayloadSchema(HEARTBEAT_TYPE) == HEARTBEAT
    ensures PayloadSchema(ROUTE_PUBLISH_TYPE) == ROUTE_PUBLISH
    ensures PayloadSchema(ROUTE_PUBLISH_ACK_TYPE) == ROUTE_PUBLISH_ACK
    ensures PayloadSchema(RECONNECT_RESPONSE_TYPE) == RECONNECT_RESPONSE
  {
  }

  /** The decoders of the typed payloads. */
  lemma TypedPayloads(near: Nearest, v: Value)
    ensures PayloadOf(near, HEARTBEAT_TYPE, v) == HeartbeatPayload(HeartbeatOf(near, v))
    ensures PayloadOf(near, ROUTE_PUBLISH_TYPE, v) == RoutePublishPayload(RoutePublishOf(v))
    ensures PayloadOf(near, ROUTE_PUBLISH_ACK_TYPE, v) == RoutePublishAckPayload(RoutePublishAckOf(v))
    ensures PayloadOf(near, RECONNECT_RESPONSE_TYPE, v) == ReconnectResponsePayload(ReconnectResponseOf(v))
  {
  }

  predicate IsTyped(messageType: string)
  {
    messageType == HEARTBEAT_TYPE || messageType == ROUTE_PUBLISH_TYPE ||
    messageType == ROUTE_PUBLISH_ACK_TYPE || messageType == RECONNECT_RESPONSE_TYPE
  }

  lemma OtherPayloads(near: Nearest, messageType: string, v: Value)
    requires !IsTyped(messageType)
    ensures PayloadOf(near, messageType, v) == TreePayload(messageType, Normalised(near, PayloadSchema(messageType), v))
  {
  }

  predicate IsRewritten(near: Nearest, messageType: string, v: Value)
  {
    && PayloadTree(PayloadOf(near, messageType, v)) == Normalised(near, PayloadSchema(messageType), v)
    && TypeOf(PayloadOf(near, messageType, v)) == messageType
  }

  lemma HeartbeatIsRewritten(near: Nearest, v: Value)
    requires Conforms(near, PayloadSchema(HEARTBEAT_TYPE), v)
    ensures IsRewritten(near, HEARTBEAT_TYPE, v)
  {
    SchemasOfTypes();
    TypedPayloads(near, v);
    HeartbeatIsNormalised(near, v.members);
  }

  lemma RoutePublishIsRewritten(near: Nearest, v: Value)
    requires Conforms(near, PayloadSchema(ROUTE_PUBLISH_TYPE), v)
    ensures IsRewritten(near, ROUTE_PUBLISH_TYPE, v)
  {
    SchemasOfTypes();
    TypedPayloads(near, v);
    RoutePublishIsNormalised(near, v.members);
  }

  lemma RoutePublishAckIsRewritten(near: Nearest, v: Value)
    requires Conforms(near, PayloadSchema(ROUTE_PUBLISH_ACK_TYPE), v)
    ensures IsRewritten(near, ROUTE_PUBLISH_ACK_TYPE, v)
  {
    SchemasOfTypes();
    TypedPayloads(near, v);
    RoutePublishAckIsNormalised(near, v.members);
  }

  lemma ReconnectResponseIsRewritten(near: Nearest, v: Value)
    requires Conforms(near, PayloadSchema(RECONNECT_RESPONSE_TYPE), v)
    ensures IsRewritten(near, RECONNECT_RESPONSE_TYPE, v)
  {
    SchemasOfTypes();
    TypedPayloads(near, v);
    ReconnectResponseIsNormalised(near, v.members);
  }

  lemma TypedIsRewritten(near: Nearest, messageType: string, v: Value)
    requires IsTyped(messageType) && Conforms(near, PayloadSchema(messageType), v)
    ensures IsRewritten(near, messageType, v)
  {
    if messageType == HEARTBEAT_TYPE {
      HeartbeatIsRewritten(near, v);
    } else if messageType == ROUTE_PUBLISH_TYPE {
      RoutePublishIsRewritten(near, v);
    } else if messageType == ROUTE_PUBLISH_ACK_TYPE {
      RoutePublishAckIsRewritten(near, v);
    } else {
      ReconnectResponseIsRewritten(near, v);
    }
  }

  /** Decoding a conforming payload and writing it again gives its canonical form. */
  lemma PayloadIsNormalised(near: Nearest, messageType: string, v: Value)
    requires Conforms(near, PayloadSchema(messageType), v)
    ensures PayloadTree(PayloadOf(near, messageType, v)) == Normalised(near, PayloadSchema(messageType), v)
    ensures TypeOf(PayloadOf(near, messageType, v)) == messageType
  {
    if IsTyped(messageType) {
      TypedIsRewritten(near, messageType, v);
    } else {
      OtherPayloads(near, messageType, v);
    }
  }

  /** Decoding the tree of a valid payload gives the payload. */
  lemma PayloadIsRead(near: Nearest, p: Payload)
    requires LoadIsKept(near, p) && TreeIsKept(near, p)
    ensures PayloadOf(near, TypeOf(p), PayloadTree(p)) == p
  {
    TypedPayloads(near, PayloadTree(p));
    match p {
      case HeartbeatPayload(v) => HeartbeatIsRead(near, v);
      case RoutePublishPayload(v) => RoutePublishIsRead(v);
      case RoutePublishAckPayload(v) => RoutePublishAckIsRead(v);
      case ReconnectResponsePayload(v) => ReconnectResponseIsRead(v);
      case TreePayload(messageType, tree) =>
        TypesDiffer(messageType);
        OtherPayloads(near, messageType, tree);
    }
  }

  lemma SchemasAreSound(messageType: string)
    ensures Sound(PayloadSchema(messageType)) && NamesAreValid(PayloadSchema(messageType))
  {
    HeartbeatFits();
    RoutePublishFits();
    RoutePublishAckFits();
    ReconnectResponseFits();
    PlainIsReadable(HEARTBEAT);
    PlainIsReadable(ROUTE_PUBLISH);
    PlainIsReadable(ROUTE_PUBLISH_ACK);
    PlainIsReadable(RECONNECT_RESPONSE);
    RegistrationRequestIsReadable();
    RegistrationResponseIsReadable();
    ReconnectRequestIsReadable();
    WorkspaceObservationIsReadable();
  }

  lemma {:induction false} PlainIsReadable(s: Schema)
    requires PlainSchema(s)
    ensures NamesAreValid(s)
  {
    match s {
      case List(_, _, _, item) => PlainIsReadable(item);
      case Struct(fields, _) =>
        forall i | 0 <= i < |fields| ensures ValidText(fields[i].name) && NamesAreValid(fields[i].schema) {
          PlainText(fields[i].name);
          PlainIsReadable(fields[i].schema);
        }
      case _ =>
    }
  }

  /** The typed payloads, and the bound that their schema implies. */
  function SchemaBound(p: Payload): nat
    requires !p.TreePayload?
  {
    match p
    case HeartbeatPayload(_) => 236
    case RoutePublishPayload(_) => 2774
    case RoutePublishAckPayload(_) => 430
    case ReconnectResponsePayload(_) => 49197
  }

  lemma TypedPayloadFits(p: Payload)
    requires !p.TreePayload?
    ensures FitsIn(PayloadSchema(TypeOf(p)), SchemaBound(p))
  {
    SchemasOfTypes();
    match p {
      case HeartbeatPayload(_) => HeartbeatFits();
      case RoutePublishPayload(_) => RoutePublishFits();
      case RoutePublishAckPayload(_) => RoutePublishAckFits();
      case ReconnectResponsePayload(_) => ReconnectResponseFits();
    }
  }

  lemma ValidPayloadIsCanonical(near: Nearest, p: Payload)
    requires Settles(near) && PayloadIsValid(near, p)
    ensures Canonical(PayloadTree(p))
    ensures Normalised(near, PayloadSchema(TypeOf(p)), PayloadTree(p)) == PayloadTree(p)
    ensures !p.TreePayload? ==> |Render(PayloadTree(p))| <= SchemaBound(p)
  {
    if !p.TreePayload? {
      PayloadIsRead(near, p);
      PayloadIsNormalised(near, TypeOf(p), PayloadTree(p));
      TypedPayloadFits(p);
      ConformingIsCanonical(near, PayloadSchema(TypeOf(p)), PayloadTree(p));
    }
  }

  /** What is decoded from a conforming tree is a valid payload. */
  lemma DecodedPayloadIsValid(near: Nearest, messageType: string, v: Value)
    requires Settles(near) && messageType in MESSAGE_TYPES
    requires Conforms(near, PayloadSchema(messageType), v) && Canonical(v)
    ensures PayloadIsValid(near, PayloadOf(near, messageType, v))
  {
    PayloadIsNormalised(near, messageType, v);
    SchemasAreSound(messageType);
    NormalisedConforms(near, PayloadSchema(messageType), v);
    DecodedPayloadIsKept(near, messageType, v);
  }

  lemma DecodedPayloadIsKept(near: Nearest, messageType: string, v: Value)
    requires Settles(near) && messageType in MESSAGE_TYPES
    requires Conforms(near, PayloadSchema(messageType), v) && Canonical(v)
    ensures LoadIsKept(near, PayloadOf(near, messageType, v))
    ensures TreeIsKept(near, PayloadOf(near, messageType, v))
  {
    if IsTyped(messageType) {
      SchemasOfTypes();
      TypedPayloads(near, v);
      if messageType == HEARTBEAT_TYPE {
        DecodedLoadIsKept(near, v);
      }
    } else {
      OtherPayloads(near, messageType, v);
      TreeTypes(messageType);
      SchemasAreSound(messageType);
      NormalisedIsCanonical(near, PayloadSchema(messageType), v);
      NormalisedConforms(near, PayloadSchema(messageType), v);
    }
  }

  lemma TreeTypes(messageType: string)
    requires messageType in MESSAGE_TYPES && !IsTyped(messageType)
    ensures messageType in TREE_TYPES
  {
    var i :| 0 <= i < |MESSAGE_TYPES| && MESSAGE_TYPES[i] == messageType;
    assert i == 0 || i == 1 || i == 5 || i == 7;
    assert TREE_TYPES[0] == REGISTRATION_REQUEST_TYPE && TREE_TYPES[1] == REGISTRATION_RESPONSE_TYPE;
    assert TREE_TYPES[2] == RECONNECT_REQUEST_TYPE && TREE_TYPES[3] == WORKSPACE_OBSERVED_TYPE;
  }

  lemma DecodedLoadIsKept(near: Nearest, v: Value)
    requires Settles(near) && Conforms(near, HEARTBEAT, v)
    ensures LoadIsKept(near, HeartbeatPayload(HeartbeatOf(near, v)))
  {
    var summary := Lookup(v.members, "resource_summary");
    if summary.Some? {
      assert HEARTBEAT_FIELDS[5] == Field("resource_summary", RESOURCE_SUMMARY, false);
      PresentField(near, HEARTBEAT_FIELDS, v.members, 5, summary.value);
      SummaryLoadIsKept(near, summary.value);
    }
  }

  lemma SummaryLoadIsKept(near: Nearest, v: Value)
    requires Settles(near) && Conforms(near, RESOURCE_SUMMARY, v)
    ensures LoadIsRead(near, ResourceSummaryOf(near, v))
  {
    var load := Lookup(v.members, "load");
    if load.Some? {
      assert RESOURCE_SUMMARY_FIELDS[0] == Field("load", Float(0.0, 1024.0), false);
      PresentField(near, RESOURCE_SUMMARY_FIELDS, v.members, 0, load.value);
    }
  }

  lemma PresentField(near: Nearest, fields: seq<Field>, source: seq<Member>, k: nat, v: Value)
    requires FieldsConform(near, fields, source) && k < |fields| && Lookup(source, fields[k].name) == Some(v)
    ensures Conforms(near, fields[k].schema, v)
  {
  }

  // ----- frames

  predicate FrameIsValid(near: Nearest, f: Frame)
  {
    && f.payload.Some? && PayloadIsValid(near, f.payload.value)
    && f.envelope.messageType == TypeOf(f.payload.value) && EnvelopeIsValid(near, f.envelope)
  }

  function FrameTree(f: Frame): Value
    requires f.payload.Some?
  {
    EnvelopeTree(f.envelope, PayloadTree(f.payload.value))
  }

  lemma ConformingObjects(near: Nearest, messageType: string, v: Value)
    requires Conforms(near, PayloadSchema(messageType), v)
    ensures v.Object?
  {
  }

  lemma BoundIsAtMost(messageType: string)
    ensures PayloadMaxBytes(messageType) <= 57344
  {
  }

  lemma ValidIsFinite(near: Nearest, p: Payload)
    requires PayloadIsValid(near, p)
    ensures IsFinite(p)
  {
  }

  /**
   * A valid frame is refused by the encoder exactly when its payload is over the bound
   * of its type: the bound of the whole frame is never the one that is hit.
   */
  lemma EncodesExactly(near: Nearest, f: Frame)
    requires Settles(near) && FrameIsValid(near, f)
    ensures EncodedFrame(f) ==
            if |Render(PayloadTree(f.payload.value))| > PayloadMaxBytes(TypeOf(f.payload.value))
            then Err(EncodeError.PayloadTooLarge) else Ok(Render(FrameTree(f)))
    ensures Canonical(FrameTree(f))
  {
    var p := f.payload.value;
    ValidIsFinite(near, p);
    ValidPayloadIsCanonical(near, p);
    EnvelopeIsShort(near, f.envelope, PayloadTree(p));
    BoundIsAtMost(TypeOf(p));
  }

  /** So the only typed payload that can be too large is a publication. */
  lemma OnlyPublicationsAreTooLarge(near: Nearest, f: Frame)
    requires Settles(near) && FrameIsValid(near, f)
    requires !f.payload.value.TreePayload? && !f.payload.value.RoutePublishPayload?
    ensures EncodedFrame(f) == Ok(Render(FrameTree(f)))
  {
    EncodesExactly(near, f);
    ValidPayloadIsCanonical(near, f.payload.value);
    SchemaBoundFits(f.payload.value);
  }

  lemma SchemaBoundFits(p: Payload)
    requires !p.TreePayload? && !p.RoutePublishPayload?
    ensures SchemaBound(p) <= PayloadMaxBytes(TypeOf(p))
  {
  }

  lemma CanonicalIsParsed(v: Value, maxBytes: nat)
    requires Canonical(v) && v.Object? && |Render(v)| <= maxBytes
    ensures ParseBounded(Render(v), maxBytes) == Ok(v.members)
  {
    ReadRendered(v, "");
    assert Render(v) + "" == Render(v);
  }

  /** Decoding undoes encoding, for every valid frame that is encoded. */
  lemma DecodeUndoesEncode(near: Nearest, f: Frame, raw: string)
    requires Settles(near) && FrameIsValid(near, f) && EncodedFrame(f) == Ok(raw)
    ensures DecodedFrame(near, raw) == Ok(f)
  {
    var p, tree := f.payload.value, FrameTree(f);
    EncodesExactly(near, f);
    CanonicalIsParsed(tree, MAX_CONTROL_FRAME_BYTES);
    EnvelopeIsRead(f.envelope, PayloadTree(p));
    FrameConforms(near, f);
    PayloadIsDecoded(near, p);
    assert EnvelopeFaults(near, tree.members) == [];
  }

  lemma FrameConforms(near: Nearest, f: Frame)
    requires FrameIsValid(near, f)
    ensures EnvelopeFaults(near, FrameTree(f).members) == []
    ensures AsInt64(Property(FrameTree(f).members, "protocol_version")) == Some(PROTOCOL_VERSION)
    ensures f.envelope.messageType in MESSAGE_TYPES
  {
    var p := f.payload.value;
    ConformingObjects(near, TypeOf(p), PayloadTree(p));
    EnvelopeAround(near, f.envelope, Object([]), PayloadTree(p));
    CheckIsExact(near, ENVELOPE, FrameTree(f), "$");
    EnvelopeHasVersion(near, f.envelope, PayloadTree(p));
    EnvelopeHasType(near, f.envelope, PayloadTree(p));
  }

  lemma EnvelopeHasVersion(near: Nearest, e: Envelope, payload: Value)
    requires Conforms(near, ENVELOPE, EnvelopeTree(e, payload))
    ensures AsInt64(Property(Present(EnvelopeSlots(e, payload)), "protocol_version")) == Some(PROTOCOL_VERSION)
  {
    var source := Present(EnvelopeSlots(e, payload));
    EnvelopeSlotIsRead(e, payload, 0);
    assert ENVELOPE_FIELDS[0] == Field("protocol_version", Integer(1, 1), true);
    RequiredField(near, ENVELOPE_FIELDS, source, 0);
  }

  lemma EnvelopeHasType(near: Nearest, e: Envelope, payload: Value)
    requires Conforms(near, ENVELOPE, EnvelopeTree(e, payload))
    ensures e.messageType in MESSAGE_TYPES
  {
    var source := Present(EnvelopeSlots(e, payload));
    EnvelopeSlotIsRead(e, payload, 2);
    RequiredField(near, ENVELOPE_FIELDS, source, 2);
    EnumOf(near, MESSAGE_TYPES, e.messageType);
  }

  lemma EnumOf(near: Nearest, values: seq<string>, text: string)
    requires Conforms(near, Enum(values), TextTree(text))
    ensures text in values
  {
  }

  lemma RequiredField(near: Nearest, fields: seq<Field>, source: seq<Member>, k: nat)
    requires FieldsConform(near, fields, source) && HasRequired(fields, source) && k < |fields| && fields[k].required
    ensures Conforms(near, fields[k].schema, Property(source, fields[k].name))
  {
  }

  lemma PayloadIsDecoded(near: Nearest, p: Payload)
    requires PayloadIsValid(near, p) && |Render(PayloadTree(p))| <= PayloadMaxBytes(TypeOf(p))
    ensures DecodedPayload(near, TypeOf(p), PayloadTree(p)) == Ok(p)
  {
    CheckIsExact(near, PayloadSchema(TypeOf(p)), PayloadTree(p), "$.payload");
    PayloadIsRead(near, p);
    ValidIsFinite(near, p);
  }

  // ----- what is decoded

  /** Whatever is decoded is a valid frame, and it can be encoded: nothing is accepted that cannot be sent on. */
  lemma DecodedIsValid(near: Nearest, raw: string, f: Frame)
    requires Settles(near) && DecodedFrame(near, raw) == Ok(f)
    ensures FrameIsValid(near, f)
    ensures EncodedFrame(f) == Ok(Render(FrameTree(f)))
    ensures DecodedFrame(near, Render(FrameTree(f))) == Ok(f)
  {
    var source := ParseBounded(raw, MAX_CONTROL_FRAME_BYTES).value;
    var messageType := TextOf(Property(source, "type"));
    ReadIsCanonical(raw);
    DecodedEnvelopeIsValid(near, source);
    DecodedPartIsValid(near, messageType, Property(source, "payload"));
    EncodesExactly(near, f);
    DecodeUndoesEncode(near, f, Render(FrameTree(f)));
  }

  lemma DecodedEnvelopeIsValid(near: Nearest, source: seq<Member>)
    requires Settles(near) && EnvelopeFaults(near, source) == [] && Canonical(Object(source))
    ensures EnvelopeIsValid(near, EnvelopeOf(Object(source)))
    ensures Canonical(Property(source, "payload"))
  {
    CheckIsExact(near, ENVELOPE, Object(source), "$");
    EnvelopeIsNormalised(near, source);
    EnvelopeIsSound();
    NormalisedConforms(near, ENVELOPE, Object(source));
    EnvelopePayload(near, source);
    EnvelopeAround(near, EnvelopeOf(Object(source)), Property(source, "payload"), Object([]));
  }

  lemma DecodedPartIsValid(near: Nearest, messageType: string, v: Value)
    requires Settles(near) && messageType in MESSAGE_TYPES && Canonical(v)
    requires DecodedPayload(near, messageType, v).Ok?
    ensures var p := DecodedPayload(near, messageType, v).value;
            PayloadIsValid(near, p) && TypeOf(p) == messageType && |Render(PayloadTree(p))| <= PayloadMaxBytes(messageType)
  {
    CheckIsExact(near, PayloadSchema(messageType), v, "$.payload");
    DecodedPayloadIsValid(near, messageType, v);
    PayloadIsNormalised(near, messageType, v);
  }

  // ----- what follows the object

  /**
   * A frame with something after its object is refused, unless the first character
   * there is a closing bracket: then whatever follows is ignored.
   */
  lemma TrailingDataIsRefused(v: Value, tail: string, maxBytes: nat)
    requires Canonical(v) && v.Object? && |Render(v) + tail| <= maxBytes
    ensures ParseBounded(Render(v) + tail, maxBytes) == if More(tail) then Err(MalformedJson) else Ok(v.members)
    ensures More(tail) <==> SkipSpace(tail) != "" && SkipSpace(tail)[0] !in {']', '}'}
  {
    ReadRendered(v, tail);
  }

  /** For any frame that is accepted, its canonical bytes with a bracket and anything else are accepted as well. */
  lemma BracketsAreAccepted(near: Nearest, f: Frame, junk: string)
    requires Settles(near) && FrameIsValid(near, f) && EncodedFrame(f).Ok?
    requires |Render(FrameTree(f)) + ("]" + junk)| <= MAX_CONTROL_FRAME_BYTES
    ensures DecodedFrame(near, Render(FrameTree(f)) + ("]" + junk)) == Ok(f)
  {
    EncodesExactly(near, f);
    DecodeUndoesEncode(near, f, Render(FrameTree(f)));
    CanonicalIsParsed(FrameTree(f), MAX_CONTROL_FRAME_BYTES);
    TrailingDataIsRefused(FrameTree(f), "]" + junk, MAX_CONTROL_FRAME_BYTES);
    assert SkipSpace("]" + junk) == "]" + junk;
    SameParse(near, Render(FrameTree(f)), Render(FrameTree(f)) + ("]" + junk));
  }

  lemma SameParse(near: Nearest, a: string, b: string)
    requires ParseBounded(a, MAX_CONTROL_FRAME_BYTES) == ParseBounded(b, MAX_CONTROL_FRAME_BYTES)
    ensures DecodedFrame(near, a) == DecodedFrame(near, b)
  {
  }
}
