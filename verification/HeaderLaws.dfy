/**
 * The laws of the data-stream header, and the size of a publication.
 */
module HeaderLaws {
  import opened Bytes
  import opened Json
  import opened Schema
  import opened CanonicalForm
  import opened Messages
  import opened MessageBounds
  import opened Frames
  import opened ControlEnvelope
  import FrameLaws
  import JsonNumber

  predicate HeaderIsValid(near: Nearest, header: DataStreamHeader)
  {
    Conforms(near, DATA_STREAM_HEADER, DataStreamHeaderTree(header))
  }

  lemma ValidHeaderIsCanonical(near: Nearest, header: DataStreamHeader)
    requires Settles(near) && HeaderIsValid(near, header)
    ensures Canonical(DataStreamHeaderTree(header)) && |Render(DataStreamHeaderTree(header))| <= 891
  {
    var tree := DataStreamHeaderTree(header);
    DataStreamHeaderIsRead(header);
    DataStreamHeaderIsNormalised(near, tree.members);
    assert Normalised(near, DATA_STREAM_HEADER, tree) == tree;
    DataStreamHeaderFits();
    ConformingIsCanonical(near, DATA_STREAM_HEADER, tree);
  }

  /** Every valid header is encoded, well within its bound, and decoding gives it back. */
  lemma HeaderRoundTrip(near: Nearest, header: DataStreamHeader)
    requires Settles(near) && HeaderIsValid(near, header)
    ensures EncodedHeader(header) == Ok(Render(DataStreamHeaderTree(header)))
    ensures |Render(DataStreamHeaderTree(header))| <= 891
    ensures DecodedHeader(near, Render(DataStreamHeaderTree(header))) == Ok(header)
  {
    var tree := DataStreamHeaderTree(header);
    ValidHeaderIsCanonical(near, header);
    FrameLaws.CanonicalIsParsed(tree, MAX_DATA_STREAM_HEADER_BYTES);
    CheckIsExact(near, DATA_STREAM_HEADER, tree, "$");
    DataStreamHeaderIsRead(header);
  }

  /** Whatever is decoded is a valid header. */
  lemma DecodedHeaderIsValid(near: Nearest, raw: string, header: DataStreamHeader)
    requires Settles(near) && DecodedHeader(near, raw) == Ok(header)
    ensures HeaderIsValid(near, header)
    ensures DecodedHeader(near, Render(DataStreamHeaderTree(header))) == Ok(header)
  {
    var source := ParseBounded(raw, MAX_DATA_STREAM_HEADER_BYTES).value;
    CheckIsExact(near, DATA_STREAM_HEADER, Object(source), "$");
    DataStreamHeaderIsNormalised(near, source);
    DataStreamHeaderFits();
    NormalisedConforms(near, DATA_STREAM_HEADER, Object(source));
    HeaderRoundTrip(near, header);
  }

  // ----- a publication can be too large

  function Session(k: nat): string
    requires k < 32
  {
    [(if k < 26 then 'a' as int + k else 'A' as int + k - 26) as char] + seq(63, i => 'x')
  }

  const SESSIONS: seq<string> := seq(32, k requires 0 <= k < 32 => Session(k))

  const LARGE_PUBLICATION := RoutePublish(
    "r", "r", "r", "localhost", 3000, "http", EXPIRY, SESSIONS)

  lemma SessionConforms(near: Nearest, k: nat)
    requires k < 32
    ensures Conforms(near, IDENTIFIER, TextTree(Session(k))) && |Render(TextTree(Session(k)))| == 66
  {
    var s := Session(k);
    forall c | c in s ensures IsPlain(c) && Allowed(IdentifierPattern, c) {
    }
    PlainText(s);
  }

  lemma SessionsConform(near: Nearest)
    ensures Conforms(near, ALLOWED_SESSIONS, Trees(SESSIONS, TextTree))
  {
    var items := Trees(SESSIONS, TextTree).items;
    forall i | 0 <= i < |items| ensures Conforms(near, IDENTIFIER, items[i]) {
      SessionConforms(near, i);
    }
    forall i, j | 0 <= i < j < |items| ensures UniquenessKey(items[i]) != UniquenessKey(items[j]) {
      KeysDiffer(Session(i), Session(j));
    }
  }

  lemma KeyOfText(s: string)
    ensures UniquenessKey(TextTree(s)) == "s:" + s
  {
  }

  lemma KeysDiffer(s: string, t: string)
    requires s != "" && t != "" && s[0] != t[0]
    ensures UniquenessKey(TextTree(s)) != UniquenessKey(TextTree(t))
  {
    KeyOfText(s);
    KeyOfText(t);
    assert ("s:" + s)[2] == s[0] && ("s:" + t)[2] == t[0];
  }

  lemma {:induction false} ItemsAreLong(items: seq<Value>, n: nat)
    requires forall i | 0 <= i < |items| :: |Render(items[i])| == n
    ensures |RenderItems(items)| >= |items| * n
  {
    if items != [] {
      ItemsAreLong(items[1..], n);
      assert |items| * n == n + (|items| - 1) * n;
    }
  }

  lemma {:induction false} MemberIsInside(members: seq<Member>, k: nat)
    requires k < |members|
    ensures |RenderMembers(members)| >= |Render(members[k].value)|
  {
    if k > 0 {
      MemberIsInside(members[1..], k - 1);
    }
  }

  lemma ShortTextConforms(near: Nearest, text: string, maxLength: nat, pattern: Pattern)
    requires AllPlain(text) && 1 <= |text| <= maxLength && Matches(pattern, text)
    ensures Conforms(near, Text(1, maxLength, pattern), TextTree(text))
  {
    PlainText(text);
  }

  lemma IdentifierConforms(near: Nearest)
    ensures Conforms(near, IDENTIFIER, TextTree("r"))
  {
    ShortTextConforms(near, "r", 64, IdentifierPattern);
  }

  lemma HostConforms(near: Nearest)
    ensures Conforms(near, Text(1, 255, HostPattern), TextTree("localhost"))
  {
    ShortTextConforms(near, "localhost", 255, HostPattern);
  }

  lemma PortConforms(near: Nearest)
    ensures Conforms(near, Integer(1, 65535), IntegerTree(3000))
  {
    JsonNumber.IntegerRoundTrip(3000);
  }

  const EXPIRY := "2026-01-01T00:00:00Z"

  lemma ExpiryIsTimestamp()
    ensures IsTimestamp(EXPIRY)
  {
  }

  lemma ExpiryIsPlain()
    ensures forall c | c in EXPIRY :: IsPlain(c) && Allowed(TimestampPattern, c)
  {
  }

  lemma ExpiryConforms(near: Nearest)
    ensures Conforms(near, TIMESTAMP, TextTree(EXPIRY))
  {
    ExpiryIsTimestamp();
    ExpiryIsPlain();
    TimestampConforms(near, EXPIRY);
  }

  lemma TimestampConforms(near: Nearest, text: string)
    requires AllPlain(text) && 20 <= |text| <= 30 && Matches(TimestampPattern, text)
    ensures Conforms(near, TIMESTAMP, TextTree(text))
  {
    PlainText(text);
  }

  predicate SlotConforms(near: Nearest, slot: Slot, f: Field)
  {
    slot.name == f.name && slot.value.Some? && Conforms(near, f.schema, slot.value.value)
  }

  lemma SlotIs(near: Nearest, slot: Slot, f: Field, name: string, v: Value, schema: Schema)
    ensures slot == Slot(name, Some(v)) && f == Field(name, schema, true) && Conforms(near, schema, v) ==>
            SlotConforms(near, slot, f)
  {
  }

  lemma LargeTextsConform(near: Nearest, k: nat)
    requires k < 4
    ensures SlotConforms(near, RoutePublishSlots(LARGE_PUBLICATION)[k], ROUTE_PUBLISH_FIELDS[k])
  {
    var slot, f := RoutePublishSlots(LARGE_PUBLICATION)[k], ROUTE_PUBLISH_FIELDS[k];
    if k == 3 {
      HostConforms(near);
      SlotIs(near, slot, f, "local_host", TextTree("localhost"), Text(1, 255, HostPattern));
    } else {
      IdentifierConforms(near);
      assert k == 0 || k == 1 || k == 2;
      SlotIs(near, slot, f, f.name, TextTree("r"), IDENTIFIER);
    }
  }

  lemma LargeOthersConform(near: Nearest, k: nat)
    requires 4 <= k < 8
    ensures SlotConforms(near, RoutePublishSlots(LARGE_PUBLICATION)[k], ROUTE_PUBLISH_FIELDS[k])
  {
    if k == 4 {
      PortConforms(near);
    } else if k == 6 {
      ExpiryConforms(near);
    } else if k == 7 {
      SessionsConform(near);
    }
  }

  lemma LargeSlotConforms(near: Nearest, k: nat)
    requires k < 8
    ensures SlotConforms(near, RoutePublishSlots(LARGE_PUBLICATION)[k], ROUTE_PUBLISH_FIELDS[k])
  {
    if k < 4 {
      LargeTextsConform(near, k);
    } else {
      LargeOthersConform(near, k);
    }
  }

  lemma LargePublicationConforms(near: Nearest)
    ensures Conforms(near, ROUTE_PUBLISH, RoutePublishTree(LARGE_PUBLICATION))
  {
    var slots, f := RoutePublishSlots(LARGE_PUBLICATION), ROUTE_PUBLISH_FIELDS;
    var source := Present(slots);
    RoutePublishNames(LARGE_PUBLICATION);
    PresentAreSlots(slots);
    forall k | 0 <= k < |f|
      ensures Lookup(source, f[k].name).Some? && Conforms(near, f[k].schema, Lookup(source, f[k].name).value)
    {
      LargeSlotConforms(near, k);
      LookupPresent(slots, k);
    }
    forall m | m in source ensures Declares(f, m.name) {
      var i :| 0 <= i < |slots| && slots[i] == Slot(m.name, Some(m.value));
      LargeSlotConforms(near, i);
    }
  }

  lemma SessionsAreLong()
    ensures |Render(Trees(SESSIONS, TextTree))| > 2048
  {
    var items := Trees(SESSIONS, TextTree).items;
    forall i | 0 <= i < |items| ensures |Render(items[i])| == 66 {
      SessionConforms(_ => None, i);
    }
    ItemsAreLong(items, 66);
  }

  lemma SlotIsInside(slots: seq<Slot>, k: nat)
    requires DistinctNames(slots) && k < |slots| && slots[k].value.Some?
    ensures |Render(Object(Present(slots)))| >= |Render(slots[k].value.value)|
  {
    LookupPresent(slots, k);
    var i :| 0 <= i < |Present(slots)| && Present(slots)[i] == Member(slots[k].name, slots[k].value.value);
    MemberIsInside(Present(slots), i);
  }

  lemma LargePublicationIsLarge()
    ensures |Render(RoutePublishTree(LARGE_PUBLICATION))| > 2048
  {
    RoutePublishNames(LARGE_PUBLICATION);
    SlotIsInside(RoutePublishSlots(LARGE_PUBLICATION), 7);
    SessionsAreLong();
  }

  /** A publication with as many sessions as the schema allows is valid, and is refused for its size. */
  lemma PublicationsCanBeTooLarge(near: Nearest, f: Frame)
    requires f.payload == Some(RoutePublishPayload(LARGE_PUBLICATION))
    requires f.envelope.messageType == ROUTE_PUBLISH_TYPE && EnvelopeIsValid(near, f.envelope)
    ensures FrameLaws.FrameIsValid(near, f)
    ensures EncodedFrame(f) == Err(EncodeError.PayloadTooLarge)
  {
    LargePublicationConforms(near);
    LargePublicationIsLarge();
    FrameLaws.SchemasOfTypes();
  }

  const PUBLICATION_ENVELOPE := Envelope(1, "r", ROUTE_PUBLISH_TYPE, EXPIRY, Some("r"), None)

  lemma VersionConforms(near: Nearest)
    ensures Conforms(near, Integer(1, 1), IntegerTree(1))
  {
    JsonNumber.IntegerRoundTrip(1);
  }

  lemma PublicationIsAttributed()
    ensures ROUTE_PUBLISH_TYPE in ATTRIBUTED_TYPES && ROUTE_PUBLISH_TYPE in MESSAGE_TYPES
    ensures ROUTE_PUBLISH_TYPE !in REGISTRATION_TYPES
  {
    assert ATTRIBUTED_TYPES[1] == ROUTE_PUBLISH_TYPE && MESSAGE_TYPES[3] == ROUTE_PUBLISH_TYPE;
  }

  lemma TypeConforms(near: Nearest)
    ensures Conforms(near, Enum(MESSAGE_TYPES), TextTree(ROUTE_PUBLISH_TYPE))
  {
    PublicationIsAttributed();
  }

  lemma SlotHolds(near: Nearest, slot: Slot, f: Field, v: Value, schema: Schema)
    ensures slot.value == Some(v) && f.schema == schema && Conforms(near, schema, v) ==> SlotIsRight(near, slot, f)
  {
  }

  lemma SentAtIsRight(near: Nearest, e: Envelope)
    ensures Conforms(near, TIMESTAMP, TextTree(e.sentAt)) ==>
            SlotIsRight(near, EnvelopeSlots(e, Object([]))[3], ENVELOPE_FIELDS[3])
  {
    SlotHolds(near, EnvelopeSlots(e, Object([]))[3], ENVELOPE_FIELDS[3], TextTree(e.sentAt), TIMESTAMP);
  }

  lemma PublicationHeadIsRight(near: Nearest, k: nat)
    requires k < 3
    ensures SlotIsRight(near, EnvelopeSlots(PUBLICATION_ENVELOPE, Object([]))[k], ENVELOPE_FIELDS[k])
  {
    var slot, f := EnvelopeSlots(PUBLICATION_ENVELOPE, Object([]))[k], ENVELOPE_FIELDS[k];
    if k == 0 {
      VersionConforms(near);
      SlotHolds(near, slot, f, IntegerTree(1), Integer(1, 1));
    } else if k == 1 {
      IdentifierConforms(near);
      SlotHolds(near, slot, f, TextTree("r"), IDENTIFIER);
    } else {
      TypeConforms(near);
      SlotHolds(near, slot, f, TextTree(ROUTE_PUBLISH_TYPE), Enum(MESSAGE_TYPES));
    }
  }

  lemma PublicationRestIsRight(near: Nearest, k: nat)
    requires 3 <= k < 6
    ensures SlotIsRight(near, EnvelopeSlots(PUBLICATION_ENVELOPE, Object([]))[k], ENVELOPE_FIELDS[k])
  {
    var slot, f := EnvelopeSlots(PUBLICATION_ENVELOPE, Object([]))[k], ENVELOPE_FIELDS[k];
    if k == 3 {
      ExpiryConforms(near);
      SentAtIsRight(near, PUBLICATION_ENVELOPE);
    } else if k == 4 {
      IdentifierConforms(near);
      SlotHolds(near, slot, f, TextTree("r"), IDENTIFIER);
    } else {
      assert slot.value.None? && !f.required;
    }
  }

  lemma PublicationNamesConnector()
    ensures NamesConnector(PUBLICATION_ENVELOPE)
  {
    PublicationIsAttributed();
  }

  lemma PublicationEnvelopeIsValid(near: Nearest)
    ensures EnvelopeIsValid(near, PUBLICATION_ENVELOPE)
  {
    var e := PUBLICATION_ENVELOPE;
    PublicationNamesConnector();
    forall k | 0 <= k < 6 ensures SlotIsRight(near, EnvelopeSlots(e, Object([]))[k], ENVELOPE_FIELDS[k]) {
      if k < 3 {
        PublicationHeadIsRight(near, k);
      } else {
        PublicationRestIsRight(near, k);
      }
    }
    PropertiesConform(near, e);
  }

  /** Such a frame: nothing is wrong with it but its size. */
  lemma LargePublicationExample(near: Nearest)
    ensures var f := Frame(PUBLICATION_ENVELOPE, Some(RoutePublishPayload(LARGE_PUBLICATION)));
            FrameLaws.FrameIsValid(near, f) && EncodedFrame(f) == Err(EncodeError.PayloadTooLarge)
  {
    PublicationEnvelopeIsValid(near);
    PublicationsCanBeTooLarge(near, Frame(PUBLICATION_ENVELOPE, Some(RoutePublishPayload(LARGE_PUBLICATION))));
  }
}
