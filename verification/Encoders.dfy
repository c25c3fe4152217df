/**
 * The encoders: each drives the canonical writer through the properties of a message,
 * and so writes the rendering of the message's tree.
 */
module Encoders {
  import opened Bytes
  import opened Json
  import opened Schema
  import opened CanonicalWriter
  import opened Messages
  import opened ControlEnvelope

  function PutMember(d: Document, name: string, v: Value): Document
  {
    if d.InObject? then InObject(d.outer, d.members + [Member(name, v)], None) else d
  }

  function PutOptional(d: Document, name: string, v: Option<Value>): Document
  {
    match v
    case None => d
    case Some(x) => PutMember(d, name, x)
  }

  /** The members with one more, if it is there. */
  function With(members: seq<Member>, name: string, v: Option<Value>): seq<Member>
  {
    match v
    case None => members
    case Some(x) => members + [Member(name, x)]
  }

  lemma NextSlot(slots: seq<Slot>, k: nat)
    requires k < |slots|
    ensures Present(slots[..k + 1]) == With(Present(slots[..k]), slots[k].name, slots[k].value)
  {
    PresentAppend(slots[..k], slots[k]);
    assert slots[..k + 1] == slots[..k] + [slots[k]];
  }

  lemma NextTree<T>(items: seq<T>, i: nat, tree: T -> Value)
    requires i < |items|
    ensures Trees(items[..i + 1], tree).items == Trees(items[..i], tree).items + [tree(items[i])]
  {
  }

  method PutText(w: Writer, name: string, value: string)
    requires w.Tracks() && ExpectsKey(w.doc)
    modifies w
    ensures w.Tracks() && w.err == old(w.err) && w.doc == PutMember(old(w.doc), name, TextTree(value))
  {
    w.WriteKey(name);
    w.WriteString(value);
  }

  method PutInteger(w: Writer, name: string, value: int)
    requires w.Tracks() && ExpectsKey(w.doc)
    modifies w
    ensures w.Tracks() && w.err == old(w.err) && w.doc == PutMember(old(w.doc), name, IntegerTree(value))
  {
    w.WriteKey(name);
    w.WriteInteger(value);
  }

  method PutRaw(w: Writer, name: string, text: string, ghost v: Value)
    requires w.Tracks() && ExpectsKey(w.doc) && text == Render(v)
    modifies w
    ensures w.Tracks() && w.err == old(w.err) && w.doc == PutMember(old(w.doc), name, v)
  {
    w.WriteKey(name);
    w.WriteRaw(text, v);
  }

  method PutOptionalText(w: Writer, name: string, value: Option<string>)
    requires w.Tracks() && ExpectsKey(w.doc)
    modifies w
    ensures w.Tracks() && w.err == old(w.err) && w.doc == PutOptional(old(w.doc), name, Optional(value, TextTree))
  {
    if value.Some? {
      PutText(w, name, value.value);
    }
  }

  method PutOptionalInteger(w: Writer, name: string, value: Option<Int64>)
    requires w.Tracks() && ExpectsKey(w.doc)
    modifies w
    ensures w.Tracks() && w.err == old(w.err) && w.doc == PutOptional(old(w.doc), name, OptionalInteger(value))
  {
    if value.Some? {
      PutInteger(w, name, value.value);
    }
  }

  method PutOptionalNumber(w: Writer, name: string, value: Option<Float64>)
    requires w.Tracks() && ExpectsKey(w.doc)
    modifies w
    ensures w.Tracks() && w.doc == PutOptional(old(w.doc), name, OptionalFloat(value))
    ensures w.err == if value == Some(Float.NotANumber) then Some(NotFinite) else old(w.err)
  {
    if value.Some? {
      w.WriteKey(name);
      w.WriteNumber(value.value);
    }
  }

  method PutTexts(w: Writer, name: string, items: seq<string>)
    requires w.Tracks() && ExpectsKey(w.doc)
    modifies w
    ensures w.Tracks() && w.err == old(w.err) && w.doc == PutMember(old(w.doc), name, Trees(items, TextTree))
  {
    w.WriteKey(name);
    ghost var keyed := w.doc;
    w.OpenArray();
    var i := 0;
    while i < |items|
      invariant 0 <= i <= |items|
      invariant w.Tracks() && w.err == old(w.err)
      invariant w.doc == InArray(keyed, Trees(items[..i], TextTree).items, false)
    {
      w.WriteItem();
      w.WriteString(items[i]);
      NextTree(items, i, TextTree);
      i := i + 1;
    }
    assert items[..i] == items;
    w.CloseArray();
  }

  lemma RoutePublishStart(v: RoutePublish)
    ensures Present(RoutePublishSlots(v)[..4]) ==
            [] +
            [Member("route_id", TextTree(v.routeId))] +
            [Member("project_id", TextTree(v.projectId))] +
            [Member("workspace_id", TextTree(v.workspaceId))] +
            [Member("local_host", TextTree(v.localHost))]
  {
    var slots := RoutePublishSlots(v);
    NextSlot(slots, 0);
    NextSlot(slots, 1);
    NextSlot(slots, 2);
    NextSlot(slots, 3);
    assert slots[..0] == [];
  }

  lemma RoutePublishMembers(v: RoutePublish)
    ensures Present(RoutePublishSlots(v)) ==
            [] +
            [Member("route_id", TextTree(v.routeId))] +
            [Member("project_id", TextTree(v.projectId))] +
            [Member("workspace_id", TextTree(v.workspaceId))] +
            [Member("local_host", TextTree(v.localHost))] +
            [Member("local_port", IntegerTree(v.localPort))] +
            [Member("protocol", TextTree(v.protocol))] +
            [Member("expires_at", TextTree(v.expiresAt))] +
            [Member("allowed_browser_session_ids", Trees(v.allowedBrowserSessionIds, TextTree))]
  {
    var slots := RoutePublishSlots(v);
    RoutePublishStart(v);
    NextSlot(slots, 4);
    NextSlot(slots, 5);
    NextSlot(slots, 6);
    NextSlot(slots, 7);
    assert slots[..8] == slots;
  }

  method EncodeRoutePublishInto(w: Writer, value: RoutePublish)
    requires w.Tracks() && ExpectsValue(w.doc)
    modifies w
    ensures w.Tracks() && w.doc == PutValue(old(w.doc), RoutePublishTree(value))
    ensures w.err == old(w.err)
  {
    w.OpenObject();
    PutText(w, "route_id", value.routeId);
    PutText(w, "project_id", value.projectId);
    PutText(w, "workspace_id", value.workspaceId);
    PutText(w, "local_host", value.localHost);
    PutInteger(w, "local_port", value.localPort);
    PutText(w, "protocol", value.protocol);
    PutText(w, "expires_at", value.expiresAt);
    PutTexts(w, "allowed_browser_session_ids", value.allowedBrowserSessionIds);
    RoutePublishMembers(value);
    w.CloseObject();
  }

  lemma RoutePublishAckMembers(v: RoutePublishAck)
    ensures Present(RoutePublishAckSlots(v)) ==
            With(With([] +
            [Member("route_id", TextTree(v.routeId))] +
            [Member("status", TextTree(v.status))],
              "observed_destination", Optional(v.observedDestination, TextTree)),
              "error_class", Optional(v.errorClass, TextTree))
  {
    var slots := RoutePublishAckSlots(v);
    NextSlot(slots, 0);
    NextSlot(slots, 1);
    NextSlot(slots, 2);
    NextSlot(slots, 3);
    assert slots[..0] == [] && slots[..4] == slots;
  }

  method EncodeRoutePublishAckInto(w: Writer, value: RoutePublishAck)
    requires w.Tracks() && ExpectsValue(w.doc)
    modifies w
    ensures w.Tracks() && w.doc == PutValue(old(w.doc), RoutePublishAckTree(value))
    ensures w.err == old(w.err)
  {
    w.OpenObject();
    PutText(w, "route_id", value.routeId);
    PutText(w, "status", value.status);
    PutOptionalText(w, "observed_destination", value.observedDestination);
    PutOptionalText(w, "error_class", value.errorClass);
    RoutePublishAckMembers(value);
    w.CloseObject();
  }

  lemma DataStreamHeaderStart(v: DataStreamHeader)
    ensures Present(DataStreamHeaderSlots(v)[..4]) ==
            [] +
            [Member("route_id", TextTree(v.routeId))] +
            [Member("browser_session_id", TextTree(v.browserSessionId))] +
            [Member("session_capability", TextTree(v.sessionCapability))] +
            [Member("stream_id", TextTree(v.streamId))]
  {
    var slots := DataStreamHeaderSlots(v);
    NextSlot(slots, 0);
    NextSlot(slots, 1);
    NextSlot(slots, 2);
    NextSlot(slots, 3);
    assert slots[..0] == [];
  }

  lemma DataStreamHeaderMembers(v: DataStreamHeader)
    ensures Present(DataStreamHeaderSlots(v)) ==
            With([] +
            [Member("route_id", TextTree(v.routeId))] +
            [Member("browser_session_id", TextTree(v.browserSessionId))] +
            [Member("session_capability", TextTree(v.sessionCapability))] +
            [Member("stream_id", TextTree(v.streamId))] +
            [Member("destination_protocol", TextTree(v.destinationProtocol))] +
            [Member("deadline", TextTree(v.deadline))],
              "stream_mode", Optional(v.streamMode, TextTree))
  {
    var slots := DataStreamHeaderSlots(v);
    DataStreamHeaderStart(v);
    NextSlot(slots, 4);
    NextSlot(slots, 5);
    NextSlot(slots, 6);
    assert slots[..7] == slots;
  }

  method EncodeDataStreamHeaderInto(w: Writer, value: DataStreamHeader)
    requires w.Tracks() && ExpectsValue(w.doc)
    modifies w
    ensures w.Tracks() && w.doc == PutValue(old(w.doc), DataStreamHeaderTree(value))
    ensures w.err == old(w.err)
  {
    w.OpenObject();
    PutText(w, "route_id", value.routeId);
    PutText(w, "browser_session_id", value.browserSessionId);
    PutText(w, "session_capability", value.sessionCapability);
    PutText(w, "stream_id", value.streamId);
    PutText(w, "destination_protocol", value.destinationProtocol);
    PutText(w, "deadline", value.deadline);
    PutOptionalText(w, "stream_mode", value.streamMode);
    DataStreamHeaderMembers(value);
    w.CloseObject();
  }

  lemma ResourceSummaryMembers(v: ResourceSummary)
    ensures Present(ResourceSummarySlots(v)) ==
            With(With([],
              "load", OptionalFloat(v.load)),
              "memory_available_bytes", OptionalInteger(v.memoryAvailableBytes))
  {
    var slots := ResourceSummarySlots(v);
    NextSlot(slots, 0);
    NextSlot(slots, 1);
    assert slots[..0] == [] && slots[..2] == slots;
  }

  method EncodeResourceSummaryInto(w: Writer, value: ResourceSummary)
    requires w.Tracks() && ExpectsValue(w.doc)
    modifies w
    ensures w.Tracks() && w.doc == PutValue(old(w.doc), ResourceSummaryTree(value))
    ensures w.err == if value.load == Some(Float.NotANumber) then Some(NotFinite) else old(w.err)
  {
    w.OpenObject();
    PutOptionalNumber(w, "load", value.load);
    PutOptionalInteger(w, "memory_available_bytes", value.memoryAvailableBytes);
    ResourceSummaryMembers(value);
    w.CloseObject();
  }

  method PutOptionalSummary(w: Writer, name: string, value: Option<ResourceSummary>)
    requires w.Tracks() && ExpectsKey(w.doc)
    modifies w
    ensures w.Tracks() && w.doc == PutOptional(old(w.doc), name, Optional(value, ResourceSummaryTree))
    ensures w.err ==
            if value.Some? && value.value.load == Some(Float.NotANumber) then Some(NotFinite) else old(w.err)
  {
    if value.Some? {
      w.WriteKey(name);
      EncodeResourceSummaryInto(w, value.value);
    }
  }

  lemma HeartbeatStart(v: Heartbeat)
    ensures Present(HeartbeatSlots(v)[..3]) ==
            [] +
            [Member("status", TextTree(v.status))] +
            [Member("uptime_seconds", IntegerTree(v.uptimeSeconds))] +
            [Member("version", TextTree(v.version))]
  {
    var slots := HeartbeatSlots(v);
    NextSlot(slots, 0);
    NextSlot(slots, 1);
    NextSlot(slots, 2);
    assert slots[..0] == [];
  }

  lemma HeartbeatMembers(v: Heartbeat)
    ensures Present(HeartbeatSlots(v)) ==
            With([] +
            [Member("status", TextTree(v.status))] +
            [Member("uptime_seconds", IntegerTree(v.uptimeSeconds))] +
            [Member("version", TextTree(v.version))] +
            [Member("active_routes", IntegerTree(v.activeRoutes))] +
            [Member("active_streams", IntegerTree(v.activeStreams))],
              "resource_summary", Optional(v.resourceSummary, ResourceSummaryTree))
  {
    var slots := HeartbeatSlots(v);
    HeartbeatStart(v);
    NextSlot(slots, 3);
    NextSlot(slots, 4);
    NextSlot(slots, 5);
    assert slots[..6] == slots;
  }

  predicate LoadIsNotANumber(value: Heartbeat)
  {
    value.resourceSummary.Some? && value.resourceSummary.value.load == Some(Float.NotANumber)
  }

  method EncodeHeartbeatInto(w: Writer, value: Heartbeat)
    requires w.Tracks() && ExpectsValue(w.doc)
    modifies w
    ensures w.Tracks() && w.doc == PutValue(old(w.doc), HeartbeatTree(value))
    ensures w.err == if LoadIsNotANumber(value) then Some(NotFinite) else old(w.err)
  {
    w.OpenObject();
    PutText(w, "status", value.status);
    PutInteger(w, "uptime_seconds", value.uptimeSeconds);
    PutText(w, "version", value.version);
    PutInteger(w, "active_routes", value.activeRoutes);
    PutInteger(w, "active_streams", value.activeStreams);
    PutOptionalSummary(w, "resource_summary", value.resourceSummary);
    HeartbeatMembers(value);
    w.CloseObject();
  }

  method PutOptionalRoute(w: Writer, name: string, value: Option<RoutePublish>)
    requires w.Tracks() && ExpectsKey(w.doc)
    modifies w
    ensures w.Tracks() && w.err == old(w.err) && w.doc == PutOptional(old(w.doc), name, Optional(value, RoutePublishTree))
  {
    if value.Some? {
      w.WriteKey(name);
      EncodeRoutePublishInto(w, value.value);
    }
  }

  lemma RouteDecisionMembers(v: RouteDecision)
    ensures Present(RouteDecisionSlots(v)) ==
            With([] +
            [Member("route_id", TextTree(v.routeId))] +
            [Member("decision", TextTree(v.decision))] +
            [Member("reason", TextTree(v.reason))],
              "route", Optional(v.route, RoutePublishTree))
  {
    var slots := RouteDecisionSlots(v);
    NextSlot(slots, 0);
    NextSlot(slots, 1);
    NextSlot(slots, 2);
    NextSlot(slots, 3);
    assert slots[..0] == [] && slots[..4] == slots;
  }

  method EncodeRouteDecisionInto(w: Writer, value: RouteDecision)
    requires w.Tracks() && ExpectsValue(w.doc)
    modifies w
    ensures w.Tracks() && w.doc == PutValue(old(w.doc), RouteDecisionTree(value))
    ensures w.err == old(w.err)
  {
    w.OpenObject();
    PutText(w, "route_id", value.routeId);
    PutText(w, "decision", value.decision);
    PutText(w, "reason", value.reason);
    PutOptionalRoute(w, "route", value.route);
    RouteDecisionMembers(value);
    w.CloseObject();
  }

  lemma SessionDecisionMembers(v: SessionDecision)
    ensures Present(SessionDecisionSlots(v)) ==
            [] +
            [Member("browser_session_id", TextTree(v.browserSessionId))] +
            [Member("decision", TextTree(v.decision))] +
            [Member("reason", TextTree(v.reason))]
  {
    var slots := SessionDecisionSlots(v);
    NextSlot(slots, 0);
    NextSlot(slots, 1);
    NextSlot(slots, 2);
    assert slots[..0] == [] && slots[..3] == slots;
  }

  method EncodeSessionDecisionInto(w: Writer, value: SessionDecision)
    requires w.Tracks() && ExpectsValue(w.doc)
    modifies w
    ensures w.Tracks() && w.doc == PutValue(old(w.doc), SessionDecisionTree(value))
    ensures w.err == old(w.err)
  {
    w.OpenObject();
    PutText(w, "browser_session_id", value.browserSessionId);
    PutText(w, "decision", value.decision);
    PutText(w, "reason", value.reason);
    SessionDecisionMembers(value);
    w.CloseObject();
  }

  lemma ReconnectResponseMembers(v: ReconnectResponse)
    ensures Present(ReconnectResponseSlots(v)) ==
            [] +
            [Member("reconciled_at", TextTree(v.reconciledAt))] +
            [Member("upgrade", TextTree(v.upgrade))] +
            [Member("routes", Trees(v.routes, RouteDecisionTree))] +
            [Member("sessions", Trees(v.sessions, SessionDecisionTree))]
  {
    var slots := ReconnectResponseSlots(v);
    NextSlot(slots, 0);
    NextSlot(slots, 1);
    NextSlot(slots, 2);
    NextSlot(slots, 3);
    assert slots[..0] == [] && slots[..4] == slots;
  }

  method PutRouteDecisions(w: Writer, name: string, items: seq<RouteDecision>)
    requires w.Tracks() && ExpectsKey(w.doc)
    modifies w
    ensures w.Tracks() && w.err == old(w.err) && w.doc == PutMember(old(w.doc), name, Trees(items, RouteDecisionTree))
  {
    w.WriteKey(name);
    ghost var keyed := w.doc;
    w.OpenArray();
    var i := 0;
    while i < |items|
      invariant 0 <= i <= |items|
      invariant w.Tracks() && w.err == old(w.err)
      invariant w.doc == InArray(keyed, Trees(items[..i], RouteDecisionTree).items, false)
    {
      w.WriteItem();
      EncodeRouteDecisionInto(w, items[i]);
      NextTree(items, i, RouteDecisionTree);
      i := i + 1;
    }
    assert items[..i] == items;
    w.CloseArray();
  }

  method PutSessionDecisions(w: Writer, name: string, items: seq<SessionDecision>)
    requires w.Tracks() && ExpectsKey(w.doc)
    modifies w
    ensures w.Tracks() && w.err == old(w.err) && w.doc == PutMember(old(w.doc), name, Trees(items, SessionDecisionTree))
  {
    w.WriteKey(name);
    ghost var keyed := w.doc;
    w.OpenArray();
    var i := 0;
    while i < |items|
      invariant 0 <= i <= |items|
      invariant w.Tracks() && w.err == old(w.err)
      invariant w.doc == InArray(keyed, Trees(items[..i], SessionDecisionTree).items, false)
    {
      w.WriteItem();
      EncodeSessionDecisionInto(w, items[i]);
      NextTree(items, i, SessionDecisionTree);
      i := i + 1;
    }
    assert items[..i] == items;
    w.CloseArray();
  }

  method EncodeReconnectResponseInto(w: Writer, value: ReconnectResponse)
    requires w.Tracks() && ExpectsValue(w.doc)
    modifies w
    ensures w.Tracks() && w.doc == PutValue(old(w.doc), ReconnectResponseTree(value))
    ensures w.err == old(w.err)
  {
    w.OpenObject();
    PutText(w, "reconciled_at", value.reconciledAt);
    PutText(w, "upgrade", value.upgrade);
    PutRouteDecisions(w, "routes", value.routes);
    PutSessionDecisions(w, "sessions", value.sessions);
    ReconnectResponseMembers(value);
    w.CloseObject();
  }

  lemma EnvelopeStartMembers(e: Envelope, payload: Value)
    ensures Present(EnvelopeSlots(e, payload)[..4]) ==
            [] +
            [Member("protocol_version", IntegerTree(e.protocolVersion))] +
            [Member("message_id", TextTree(e.messageId))] +
            [Member("type", TextTree(e.messageType))] +
            [Member("sent_at", TextTree(e.sentAt))]
  {
    var slots := EnvelopeSlots(e, payload);
    NextSlot(slots, 0);
    NextSlot(slots, 1);
    NextSlot(slots, 2);
    NextSlot(slots, 3);
    assert slots[..0] == [];
  }

  lemma EnvelopeHeadMembers(e: Envelope, payload: Value)
    ensures Present(EnvelopeSlots(e, payload)[..6]) ==
            With(With(Present(EnvelopeSlots(e, payload)[..4]),
              "connector_id", Optional(e.connectorId, TextTree)),
              "correlation_id", Optional(e.correlationId, TextTree))
  {
    var slots := EnvelopeSlots(e, payload);
    NextSlot(slots, 4);
    NextSlot(slots, 5);
  }

  lemma EnvelopeMembers(e: Envelope, payload: Value)
    ensures Present(EnvelopeSlots(e, payload)) ==
            With(With([] +
            [Member("protocol_version", IntegerTree(e.protocolVersion))] +
            [Member("message_id", TextTree(e.messageId))] +
            [Member("type", TextTree(e.messageType))] +
            [Member("sent_at", TextTree(e.sentAt))],
              "connector_id", Optional(e.connectorId, TextTree)),
              "correlation_id", Optional(e.correlationId, TextTree)) +
            [Member("payload", payload)]
  {
    var slots := EnvelopeSlots(e, payload);
    EnvelopeStartMembers(e, payload);
    EnvelopeHeadMembers(e, payload);
    NextSlot(slots, 6);
    assert slots[..7] == slots;
  }

  method PutEnvelopeOptions(w: Writer, value: Envelope)
    requires w.Tracks() && ExpectsKey(w.doc)
    modifies w
    ensures w.Tracks() && w.err == old(w.err) && ExpectsKey(w.doc) && w.doc.outer == old(w.doc.outer)
    ensures w.doc.members ==
            With(With(old(w.doc.members), "connector_id", Optional(value.connectorId, TextTree)),
              "correlation_id", Optional(value.correlationId, TextTree))
  {
    PutOptionalText(w, "connector_id", value.connectorId);
    PutOptionalText(w, "correlation_id", value.correlationId);
  }

  /** The payload is already written: its text goes in as it is. */
  method EncodeEnvelopeInto(w: Writer, value: Envelope, payloadJson: string, ghost payload: Value)
    requires w.Tracks() && ExpectsValue(w.doc) && payloadJson == Render(payload)
    modifies w
    ensures w.Tracks() && w.doc == PutValue(old(w.doc), EnvelopeTree(value, payload))
    ensures w.err == old(w.err)
  {
    w.OpenObject();
    PutInteger(w, "protocol_version", value.protocolVersion);
    PutText(w, "message_id", value.messageId);
    PutText(w, "type", value.messageType);
    PutText(w, "sent_at", value.sentAt);
    PutEnvelopeOptions(w, value);
    PutRaw(w, "payload", payloadJson, payload);
    EnvelopeMembers(value, payload);
    w.CloseObject();
  }
}
