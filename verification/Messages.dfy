/**
 * The messages of the connector protocol: their schemas, their typed values, the tree
 * of each value and the decoder that reads it back.
 */
module Messages {
  import opened Bytes
  import opened Json
  import opened Schema
  import opened CanonicalForm
  import CanonicalWriter
  import JsonNumber

  // ----- schemas of the properties

  const IDENTIFIER := Text(1, 64, IdentifierPattern)
  const TIMESTAMP := Text(20, 30, TimestampPattern)
  const VERSION := Text(1, 32, VersionPattern)
  const SESSION_CAPABILITY := Text(16, 512, TokenPattern)
  const OBSERVED_DESTINATION := Text(3, 262, DestinationPattern)
  const DESTINATION_PROTOCOL := Enum(["http", "https"])
  const ERROR_CLASS := Enum([
    "ENROLMENT_TOKEN_INVALID", "IDENTITY_REVOKED", "PROTOCOL_UNSUPPORTED", "PROJECT_NOT_AUTHORISED",
    "WORKSPACE_NOT_FOUND", "DESTINATION_NOT_ALLOWED", "PORT_NOT_LISTENING", "ROUTE_LIMIT_EXCEEDED",
    "ROUTE_EXPIRED", "STREAM_LIMIT_EXCEEDED", "CONTROL_PLANE_UNAVAILABLE", "UPGRADE_REQUIRED"])
  const ROUTE_REASON := Enum([
    "authorised", "unknown_route", "expired", "revoked", "not_authorised", "destination_mismatch"])
  const SESSION_REASON := Enum(["route_resumed", "route_revoked", "session_ended", "connector_reconnected"])
  const ALLOWED_SESSIONS := List(1, 32, true, IDENTIFIER)

  // ----- typed values

  type Int64 = x: int | JsonNumber.MIN_INT64 <= x <= JsonNumber.MAX_INT64

  /** A float64: a NaN or infinity, or a number. */
  type Float64 = f: CanonicalWriter.Float | f.Number? ==> IsDouble(f.value) witness CanonicalWriter.NotANumber

  datatype RoutePublish = RoutePublish(
    routeId: string, projectId: string, workspaceId: string, localHost: string, localPort: Int64,
    protocol: string, expiresAt: string, allowedBrowserSessionIds: seq<string>)

  datatype RoutePublishAck = RoutePublishAck(
    routeId: string, status: string, observedDestination: Option<string>, errorClass: Option<string>)

  datatype DataStreamHeader = DataStreamHeader(
    routeId: string, browserSessionId: string, sessionCapability: string, streamId: string,
    destinationProtocol: string, deadline: string, streamMode: Option<string>)

  datatype ResourceSummary = ResourceSummary(
    load: Option<Float64>, memoryAvailableBytes: Option<Int64>)

  datatype Heartbeat = Heartbeat(
    status: string, uptimeSeconds: Int64, version: string, activeRoutes: Int64, activeStreams: Int64,
    resourceSummary: Option<ResourceSummary>)

  datatype RouteDecision = RouteDecision(
    routeId: string, decision: string, reason: string, route: Option<RoutePublish>)

  datatype SessionDecision = SessionDecision(
    browserSessionId: string, decision: string, reason: string)

  datatype ReconnectResponse = ReconnectResponse(
    reconciledAt: string, upgrade: string, routes: seq<RouteDecision>, sessions: seq<SessionDecision>)

  // ----- trees

  function TextTree(s: string): Value { String(s) }
  function IntegerTree(n: int): Value { Value.Number(JsonNumber.IntegerText(n)) }
  function FloatTree(f: Float64): Value { Value.Number(CanonicalWriter.FloatText(f)) }

  function Trees<T>(items: seq<T>, tree: T -> Value): Value
  {
    Array(seq(|items|, i requires 0 <= i < |items| => tree(items[i])))
  }

  function Optional<T>(v: Option<T>, tree: T -> Value): Option<Value>
  {
    match v
    case None => None
    case Some(x) => Some(tree(x))
  }

  function OptionalInteger(n: Option<Int64>): Option<Value>
  {
    match n
    case None => None
    case Some(x) => Some(IntegerTree(x))
  }

  function OptionalFloat(f: Option<Float64>): Option<Value>
  {
    match f
    case None => None
    case Some(x) => Some(FloatTree(x))
  }

  // ----- reading

  function Members(v: Value): seq<Member>
  {
    if v.Object? then v.members else []
  }

  /** A property, or null when it is absent. */
  function Property(source: seq<Member>, name: string): Value
  {
    match Lookup(source, name)
    case None => Null
    case Some(v) => v
  }

  /** A property that may be absent. */
  function Mapped<T>(v: Option<Value>, decode: Value -> T): Option<T>
  {
    match v
    case None => None
    case Some(x) => Some(decode(x))
  }

  function TextOf(v: Value): string { if v.String? then v.text else "" }
  function IntegerOf(v: Value): Int64 { if AsInt64(v).Some? then AsInt64(v).value else 0 }

  function FloatOf(near: Nearest, v: Value): Float64
  {
    CanonicalWriter.Float.Number(if AsFloat64(near, v).Some? then AsFloat64(near, v).value else JsonNumber.Zero)
  }

  function MappedInteger(v: Option<Value>): Option<Int64>
  {
    match v
    case None => None
    case Some(x) => Some(IntegerOf(x))
  }

  function MappedFloat(near: Nearest, v: Option<Value>): Option<Float64>
  {
    match v
    case None => None
    case Some(x) => Some(FloatOf(near, x))
  }

  function SliceOf<T>(v: Value, decode: Value -> T): seq<T>
  {
    if v.Array? then seq(|v.items|, i requires 0 <= i < |v.items| => decode(v.items[i])) else []
  }

  method DecodeSlice<T>(v: Value, decode: Value -> T) returns (result: seq<T>)
    ensures result == SliceOf(v, decode)
  {
    result := [];
    if !v.Array? {
      return;
    }
    for i := 0 to |v.items|
      invariant result == SliceOf(Array(v.items[..i]), decode)
    {
      result := result + [decode(v.items[i])];
      assert v.items[..i + 1][..i] == v.items[..i];
    }
    assert v.items[..|v.items|] == v.items;
  }

  lemma OptionalTextIsRead(v: Option<string>)
    ensures Mapped(Optional(v, TextTree), TextOf) == v
  {
  }

  lemma IntegerIsRead(n: Int64)
    ensures IntegerOf(IntegerTree(n)) == n
  {
    JsonNumber.IntegerRoundTrip(n);
  }

  /** A number, and the one that its text is read as. */
  predicate FloatIsKept(near: Nearest, f: Float64)
  {
    f.Number? && near(CanonicalWriter.FloatText(f)) == Some(f.value)
  }

  lemma FloatIsRead(near: Nearest, f: Float64)
    requires FloatIsKept(near, f)
    ensures FloatOf(near, FloatTree(f)) == f
  {
  }

  lemma ListIsRead<T>(items: seq<T>, decode: Value -> T, tree: T -> Value)
    requires forall x :: decode(tree(x)) == x
    ensures SliceOf(Trees(items, tree), decode) == items
  {
  }

  // ----- what a conforming property is read as

  predicate Read(near: Nearest, fields: seq<Field>, members: seq<Member>)
  {
    HasRequired(fields, members) && FieldsConform(near, fields, members)
  }

  function FieldSlot(near: Nearest, f: Field, members: seq<Member>): Slot
  {
    Slot(f.name, SlotValue(near, f, Lookup(members, f.name)))
  }

  lemma SlotsAre(near: Nearest, fields: seq<Field>, members: seq<Member>, slots: seq<Slot>)
    requires |slots| == |fields| && forall i | 0 <= i < |slots| :: slots[i] == FieldSlot(near, fields[i], members)
    ensures Slots(near, fields, members) == slots
  {
  }

  predicate IsLeaf(s: Schema)
  {
    s.Text? || s.Enum? || s.Integer? || s.Float? || (s.List? && s.item.Text?)
  }

  /** A value without properties, read and written again. */
  function Reread(near: Nearest, s: Schema, v: Value): Value
  {
    match s
    case Integer(_, _) => IntegerTree(IntegerOf(v))
    case Float(_, _) => FloatTree(FloatOf(near, v))
    case List(_, _, _, _) => Trees(SliceOf(v, TextOf), TextTree)
    case _ => TextTree(TextOf(v))
  }

  function Rewritten(near: Nearest, f: Field, members: seq<Member>): Slot
  {
    Slot(f.name,
      if f.required then Some(Reread(near, f.schema, Property(members, f.name)))
      else match Lookup(members, f.name)
        case None => None
        case Some(v) => Some(Reread(near, f.schema, v)))
  }

  lemma RereadIsNormalised(near: Nearest, s: Schema, v: Value)
    requires IsLeaf(s) && Conforms(near, s, v)
    ensures Reread(near, s, v) == Normalised(near, s, v)
  {
    if s.List? {
      assert Normalised(near, s, v).items == Trees(SliceOf(v, TextOf), TextTree).items;
    }
  }

  lemma RewrittenIsNormalised(near: Nearest, fields: seq<Field>, members: seq<Member>, k: nat)
    requires Read(near, fields, members) && k < |fields| && IsLeaf(fields[k].schema)
    ensures Rewritten(near, fields[k], members) == FieldSlot(near, fields[k], members)
  {
    var v := Lookup(members, fields[k].name);
    if v.Some? {
      RereadIsNormalised(near, fields[k].schema, v.value);
    }
  }

  /** A message whose properties are all without properties of their own. */
  lemma FlatIsNormalised(near: Nearest, fields: seq<Field>, members: seq<Member>, slots: seq<Slot>)
    requires Read(near, fields, members) && |slots| == |fields|
    requires forall k | 0 <= k < |slots| ::
               slots[k] == Rewritten(near, fields[k], members) && IsLeaf(fields[k].schema)
    ensures Slots(near, fields, members) == slots
  {
    forall k | 0 <= k < |slots| ensures slots[k] == FieldSlot(near, fields[k], members) {
      RewrittenIsNormalised(near, fields, members, k);
    }
    SlotsAre(near, fields, members, slots);
  }

  /** A property that is a message, and may be absent. */
  lemma OptionalIsNormalised<T>(
    near: Nearest, fields: seq<Field>, members: seq<Member>, k: nat, decode: Value -> T, tree: T -> Value)
    requires Read(near, fields, members) && k < |fields|
    requires forall x | Conforms(near, fields[k].schema, x) :: tree(decode(x)) == Normalised(near, fields[k].schema, x)
    ensures Slot(fields[k].name, Optional(Mapped(Lookup(members, fields[k].name), decode), tree)) ==
            FieldSlot(near, fields[k], members)
  {
  }

  /** A list whose items are messages. */
  lemma ListIsNormalised<T>(near: Nearest, s: Schema, v: Value, decode: Value -> T, tree: T -> Value)
    requires s.List? && Conforms(near, s, v)
    requires forall x | Conforms(near, s.item, x) :: tree(decode(x)) == Normalised(near, s.item, x)
    ensures Normalised(near, s, v) == Trees(SliceOf(v, decode), tree)
  {
    assert Normalised(near, s, v).items == Trees(SliceOf(v, decode), tree).items;
  }

  // ----- RoutePublish

  const ROUTE_PUBLISH_FIELDS := [
    Field("route_id", IDENTIFIER, true),
    Field("project_id", IDENTIFIER, true),
    Field("workspace_id", IDENTIFIER, true),
    Field("local_host", Text(1, 255, HostPattern), true),
    Field("local_port", Integer(1, 65535), true),
    Field("protocol", DESTINATION_PROTOCOL, true),
    Field("expires_at", TIMESTAMP, true),
    Field("allowed_browser_session_ids", ALLOWED_SESSIONS, true)]

  const ROUTE_PUBLISH := Struct(ROUTE_PUBLISH_FIELDS, [])

  function RoutePublishSlots(v: RoutePublish): seq<Slot>
  {
    [ Slot("route_id", Some(TextTree(v.routeId))),
      Slot("project_id", Some(TextTree(v.projectId))),
      Slot("workspace_id", Some(TextTree(v.workspaceId))),
      Slot("local_host", Some(TextTree(v.localHost))),
      Slot("local_port", Some(IntegerTree(v.localPort))),
      Slot("protocol", Some(TextTree(v.protocol))),
      Slot("expires_at", Some(TextTree(v.expiresAt))),
      Slot("allowed_browser_session_ids", Some(Trees(v.allowedBrowserSessionIds, TextTree)))]
  }

  function RoutePublishTree(v: RoutePublish): Value { Object(Present(RoutePublishSlots(v))) }

  function RoutePublishOf(value: Value): RoutePublish
  {
    var source := Members(value);
    RoutePublish(
      TextOf(Property(source, "route_id")),
      TextOf(Property(source, "project_id")),
      TextOf(Property(source, "workspace_id")),
      TextOf(Property(source, "local_host")),
      IntegerOf(Property(source, "local_port")),
      TextOf(Property(source, "protocol")),
      TextOf(Property(source, "expires_at")),
      SliceOf(Property(source, "allowed_browser_session_ids"), TextOf))
  }

  lemma RoutePublishNames(v: RoutePublish)
    ensures DistinctNames(RoutePublishSlots(v))
  {
  }

  lemma RoutePublishStartIsFound(v: RoutePublish)
    ensures Lookup(Present(RoutePublishSlots(v)), "route_id") == Some(TextTree(v.routeId))
    ensures Lookup(Present(RoutePublishSlots(v)), "project_id") == Some(TextTree(v.projectId))
    ensures Lookup(Present(RoutePublishSlots(v)), "workspace_id") == Some(TextTree(v.workspaceId))
    ensures Lookup(Present(RoutePublishSlots(v)), "local_host") == Some(TextTree(v.localHost))
  {
    RoutePublishNames(v);
    LookupPresent(RoutePublishSlots(v), 0);
    LookupPresent(RoutePublishSlots(v), 1);
    LookupPresent(RoutePublishSlots(v), 2);
    LookupPresent(RoutePublishSlots(v), 3);
  }

  lemma RoutePublishEndIsFound(v: RoutePublish)
    ensures Lookup(Present(RoutePublishSlots(v)), "local_port") == Some(IntegerTree(v.localPort))
    ensures Lookup(Present(RoutePublishSlots(v)), "protocol") == Some(TextTree(v.protocol))
    ensures Lookup(Present(RoutePublishSlots(v)), "expires_at") == Some(TextTree(v.expiresAt))
    ensures Lookup(Present(RoutePublishSlots(v)), "allowed_browser_session_ids") == Some(Trees(v.allowedBrowserSessionIds, TextTree))
  {
    RoutePublishNames(v);
    LookupPresent(RoutePublishSlots(v), 4);
    LookupPresent(RoutePublishSlots(v), 5);
    LookupPresent(RoutePublishSlots(v), 6);
    LookupPresent(RoutePublishSlots(v), 7);
  }

  lemma RoutePublishFrom(source: seq<Member>, v: RoutePublish)
    requires Lookup(source, "route_id") == Some(TextTree(v.routeId))
    requires Lookup(source, "project_id") == Some(TextTree(v.projectId))
    requires Lookup(source, "workspace_id") == Some(TextTree(v.workspaceId))
    requires Lookup(source, "local_host") == Some(TextTree(v.localHost))
    requires Lookup(source, "local_port") == Some(IntegerTree(v.localPort))
    requires Lookup(source, "protocol") == Some(TextTree(v.protocol))
    requires Lookup(source, "expires_at") == Some(TextTree(v.expiresAt))
    requires Lookup(source, "allowed_browser_session_ids") == Some(Trees(v.allowedBrowserSessionIds, TextTree))
    ensures RoutePublishOf(Object(source)) == v
  {
    IntegerIsRead(v.localPort);
    ListIsRead(v.allowedBrowserSessionIds, TextOf, TextTree);
  }

  lemma RoutePublishIsRead(v: RoutePublish)
    ensures RoutePublishOf(RoutePublishTree(v)) == v
  {
    RoutePublishStartIsFound(v);
    RoutePublishEndIsFound(v);
    RoutePublishFrom(Present(RoutePublishSlots(v)), v);
  }

  lemma RoutePublishSlot(near: Nearest, members: seq<Member>, k: nat)
    requires k < 8
    ensures IsLeaf(ROUTE_PUBLISH_FIELDS[k].schema)
    ensures RoutePublishSlots(RoutePublishOf(Object(members)))[k] == Rewritten(near, ROUTE_PUBLISH_FIELDS[k], members)
  {
    assert k == 0 || k == 1 || k == 2 || k == 3 || k == 4 || k == 5 || k == 6 || k == 7;
  }

  lemma RoutePublishIsNormalised(near: Nearest, members: seq<Member>)
    requires Read(near, ROUTE_PUBLISH_FIELDS, members)
    ensures RoutePublishSlots(RoutePublishOf(Object(members))) == Slots(near, ROUTE_PUBLISH_FIELDS, members)
  {
    var slots := RoutePublishSlots(RoutePublishOf(Object(members)));
    forall k | 0 <= k < |slots|
      ensures slots[k] == Rewritten(near, ROUTE_PUBLISH_FIELDS[k], members) && IsLeaf(ROUTE_PUBLISH_FIELDS[k].schema)
    {
      RoutePublishSlot(near, members, k);
    }
    FlatIsNormalised(near, ROUTE_PUBLISH_FIELDS, members, slots);
  }

  // ----- RoutePublishAck

  const ROUTE_PUBLISH_ACK_FIELDS := [
    Field("route_id", IDENTIFIER, true),
    Field("status", Enum(["ready", "rejected"]), true),
    Field("observed_destination", OBSERVED_DESTINATION, false),
    Field("error_class", ERROR_CLASS, false)]

  const ROUTE_PUBLISH_ACK_RULES := [
    Rule("status", ["ready"], "observed_destination", true),
    Rule("status", ["ready"], "error_class", false),
    Rule("status", ["rejected"], "error_class", true),
    Rule("status", ["rejected"], "observed_destination", false)]

  const ROUTE_PUBLISH_ACK := Struct(ROUTE_PUBLISH_ACK_FIELDS, ROUTE_PUBLISH_ACK_RULES)

  function RoutePublishAckSlots(v: RoutePublishAck): seq<Slot>
  {
    [ Slot("route_id", Some(TextTree(v.routeId))),
      Slot("status", Some(TextTree(v.status))),
      Slot("observed_destination", Optional(v.observedDestination, TextTree)),
      Slot("error_class", Optional(v.errorClass, TextTree))]
  }

  function RoutePublishAckTree(v: RoutePublishAck): Value { Object(Present(RoutePublishAckSlots(v))) }

  function RoutePublishAckOf(value: Value): RoutePublishAck
  {
    var source := Members(value);
    RoutePublishAck(
      TextOf(Property(source, "route_id")),
      TextOf(Property(source, "status")),
      Mapped(Lookup(source, "observed_destination"), TextOf),
      Mapped(Lookup(source, "error_class"), TextOf))
  }

  lemma RoutePublishAckNames(v: RoutePublishAck)
    ensures DistinctNames(RoutePublishAckSlots(v))
  {
  }

  lemma RoutePublishAckIsRead(v: RoutePublishAck)
    ensures RoutePublishAckOf(RoutePublishAckTree(v)) == v
  {
    var slots, source := RoutePublishAckSlots(v), Present(RoutePublishAckSlots(v));
    RoutePublishAckNames(v);
    LookupAllPresent(slots);
    assert Lookup(source, "route_id") == slots[0].value;
    assert Lookup(source, "status") == slots[1].value;
    assert Lookup(source, "observed_destination") == slots[2].value;
    assert Lookup(source, "error_class") == slots[3].value;
  }

  lemma RoutePublishAckSlot(near: Nearest, members: seq<Member>, k: nat)
    requires k < 4
    ensures IsLeaf(ROUTE_PUBLISH_ACK_FIELDS[k].schema)
    ensures RoutePublishAckSlots(RoutePublishAckOf(Object(members)))[k] == Rewritten(near, ROUTE_PUBLISH_ACK_FIELDS[k], members)
  {
    assert k == 0 || k == 1 || k == 2 || k == 3;
  }

  lemma RoutePublishAckIsNormalised(near: Nearest, members: seq<Member>)
    requires Read(near, ROUTE_PUBLISH_ACK_FIELDS, members)
    ensures RoutePublishAckSlots(RoutePublishAckOf(Object(members))) == Slots(near, ROUTE_PUBLISH_ACK_FIELDS, members)
  {
    var slots := RoutePublishAckSlots(RoutePublishAckOf(Object(members)));
    forall k | 0 <= k < |slots|
      ensures slots[k] == Rewritten(near, ROUTE_PUBLISH_ACK_FIELDS[k], members) && IsLeaf(ROUTE_PUBLISH_ACK_FIELDS[k].schema)
    {
      RoutePublishAckSlot(near, members, k);
    }
    FlatIsNormalised(near, ROUTE_PUBLISH_ACK_FIELDS, members, slots);
  }

  // ----- DataStreamHeader

  const DATA_STREAM_HEADER_FIELDS := [
    Field("route_id", IDENTIFIER, true),
    Field("browser_session_id", IDENTIFIER, true),
    Field("session_capability", SESSION_CAPABILITY, true),
    Field("stream_id", IDENTIFIER, true),
    Field("destination_protocol", DESTINATION_PROTOCOL, true),
    Field("deadline", TIMESTAMP, true),
    Field("stream_mode", Enum(["request_response", "upgrade"]), false)]

  const DATA_STREAM_HEADER := Struct(DATA_STREAM_HEADER_FIELDS, [])

  function DataStreamHeaderSlots(v: DataStreamHeader): seq<Slot>
  {
    [ Slot("route_id", Some(TextTree(v.routeId))),
      Slot("browser_session_id", Some(TextTree(v.browserSessionId))),
      Slot("session_capability", Some(TextTree(v.sessionCapability))),
      Slot("stream_id", Some(TextTree(v.streamId))),
      Slot("destination_protocol", Some(TextTree(v.destinationProtocol))),
      Slot("deadline", Some(TextTree(v.deadline))),
      Slot("stream_mode", Optional(v.streamMode, TextTree))]
  }

  function DataStreamHeaderTree(v: DataStreamHeader): Value { Object(Present(DataStreamHeaderSlots(v))) }

  function DataStreamHeaderOf(value: Value): DataStreamHeader
  {
    var source := Members(value);
    DataStreamHeader(
      TextOf(Property(source, "route_id")),
      TextOf(Property(source, "browser_session_id")),
      TextOf(Property(source, "session_capability")),
      TextOf(Property(source, "stream_id")),
      TextOf(Property(source, "destination_protocol")),
      TextOf(Property(source, "deadline")),
      Mapped(Lookup(source, "stream_mode"), TextOf))
  }

  lemma DataStreamHeaderNames(v: DataStreamHeader)
    ensures DistinctNames(DataStreamHeaderSlots(v))
  {
  }

  lemma DataStreamHeaderStartIsFound(v: DataStreamHeader)
    ensures Lookup(Present(DataStreamHeaderSlots(v)), "route_id") == Some(TextTree(v.routeId))
    ensures Lookup(Present(DataStreamHeaderSlots(v)), "browser_session_id") == Some(TextTree(v.browserSessionId))
    ensures Lookup(Present(DataStreamHeaderSlots(v)), "session_capability") == Some(TextTree(v.sessionCapability))
    ensures Lookup(Present(DataStreamHeaderSlots(v)), "stream_id") == Some(TextTree(v.streamId))
  {
    DataStreamHeaderNames(v);
    LookupPresent(DataStreamHeaderSlots(v), 0);
    LookupPresent(DataStreamHeaderSlots(v), 1);
    LookupPresent(DataStreamHeaderSlots(v), 2);
    LookupPresent(DataStreamHeaderSlots(v), 3);
  }

  lemma DataStreamHeaderEndIsFound(v: DataStreamHeader)
    ensures Lookup(Present(DataStreamHeaderSlots(v)), "destination_protocol") == Some(TextTree(v.destinationProtocol))
    ensures Lookup(Present(DataStreamHeaderSlots(v)), "deadline") == Some(TextTree(v.deadline))
    ensures Lookup(Present(DataStreamHeaderSlots(v)), "stream_mode") == Optional(v.streamMode, TextTree)
  {
    DataStreamHeaderNames(v);
    LookupPresent(DataStreamHeaderSlots(v), 4);
    LookupPresent(DataStreamHeaderSlots(v), 5);
    LookupPresent(DataStreamHeaderSlots(v), 6);
  }

  lemma DataStreamHeaderFrom(source: seq<Member>, v: DataStreamHeader)
    requires Lookup(source, "route_id") == Some(TextTree(v.routeId))
    requires Lookup(source, "browser_session_id") == Some(TextTree(v.browserSessionId))
    requires Lookup(source, "session_capability") == Some(TextTree(v.sessionCapability))
    requires Lookup(source, "stream_id") == Some(TextTree(v.streamId))
    requires Lookup(source, "destination_protocol") == Some(TextTree(v.destinationProtocol))
    requires Lookup(source, "deadline") == Some(TextTree(v.deadline))
    requires Lookup(source, "stream_mode") == Optional(v.streamMode, TextTree)
    ensures DataStreamHeaderOf(Object(source)) == v
  {
    OptionalTextIsRead(v.streamMode);
  }

  lemma DataStreamHeaderIsRead(v: DataStreamHeader)
    ensures DataStreamHeaderOf(DataStreamHeaderTree(v)) == v
  {
    DataStreamHeaderStartIsFound(v);
    DataStreamHeaderEndIsFound(v);
    DataStreamHeaderFrom(Present(DataStreamHeaderSlots(v)), v);
  }

  lemma DataStreamHeaderSlot(near: Nearest, members: seq<Member>, k: nat)
    requires k < 7
    ensures IsLeaf(DATA_STREAM_HEADER_FIELDS[k].schema)
    ensures DataStreamHeaderSlots(DataStreamHeaderOf(Object(members)))[k] == Rewritten(near, DATA_STREAM_HEADER_FIELDS[k], members)
  {
    assert k == 0 || k == 1 || k == 2 || k == 3 || k == 4 || k == 5 || k == 6;
  }

  lemma DataStreamHeaderIsNormalised(near: Nearest, members: seq<Member>)
    requires Read(near, DATA_STREAM_HEADER_FIELDS, members)
    ensures DataStreamHeaderSlots(DataStreamHeaderOf(Object(members))) == Slots(near, DATA_STREAM_HEADER_FIELDS, members)
  {
    var slots := DataStreamHeaderSlots(DataStreamHeaderOf(Object(members)));
    forall k | 0 <= k < |slots|
      ensures slots[k] == Rewritten(near, DATA_STREAM_HEADER_FIELDS[k], members) && IsLeaf(DATA_STREAM_HEADER_FIELDS[k].schema)
    {
      DataStreamHeaderSlot(near, members, k);
    }
    FlatIsNormalised(near, DATA_STREAM_HEADER_FIELDS, members, slots);
  }

  // ----- ResourceSummary

  const RESOURCE_SUMMARY_FIELDS := [
    Field("load", Float(0.0, 1024.0), false),
    Field("memory_available_bytes", Integer(0, 9007199254740991), false)]

  const RESOURCE_SUMMARY := Struct(RESOURCE_SUMMARY_FIELDS, [])

  function ResourceSummarySlots(v: ResourceSummary): seq<Slot>
  {
    [ Slot("load", OptionalFloat(v.load)),
      Slot("memory_available_bytes", OptionalInteger(v.memoryAvailableBytes))]
  }

  function ResourceSummaryTree(v: ResourceSummary): Value { Object(Present(ResourceSummarySlots(v))) }

  function ResourceSummaryOf(near: Nearest, value: Value): ResourceSummary
  {
    var source := Members(value);
    ResourceSummary(
      MappedFloat(near, Lookup(source, "load")),
      MappedInteger(Lookup(source, "memory_available_bytes")))
  }

  lemma ResourceSummaryNames(v: ResourceSummary)
    ensures DistinctNames(ResourceSummarySlots(v))
  {
  }

  /** A load that is a number, and that its text is read as. */
  predicate LoadIsRead(near: Nearest, v: ResourceSummary)
  {
    v.load.Some? ==> FloatIsKept(near, v.load.value)
  }

  lemma ResourceSummaryIsRead(near: Nearest, v: ResourceSummary)
    requires LoadIsRead(near, v)
    ensures ResourceSummaryOf(near, ResourceSummaryTree(v)) == v
  {
    var slots, source := ResourceSummarySlots(v), Present(ResourceSummarySlots(v));
    ResourceSummaryNames(v);
    LookupAllPresent(slots);
    if v.load.Some? {
      FloatIsRead(near, v.load.value);
    }
    if v.memoryAvailableBytes.Some? {
      IntegerIsRead(v.memoryAvailableBytes.value);
    }
    assert Lookup(source, "load") == slots[0].value;
    assert Lookup(source, "memory_available_bytes") == slots[1].value;
  }

  lemma ResourceSummarySlot(near: Nearest, members: seq<Member>, k: nat)
    requires k < 2
    ensures IsLeaf(RESOURCE_SUMMARY_FIELDS[k].schema)
    ensures ResourceSummarySlots(ResourceSummaryOf(near, Object(members)))[k] == Rewritten(near, RESOURCE_SUMMARY_FIELDS[k], members)
  {
    var f := RESOURCE_SUMMARY_FIELDS[k];
    var summary := ResourceSummaryOf(near, Object(members));
    match Lookup(members, f.name) {
      case None =>
        assert k == 0 || k == 1;
      case Some(v) =>
        if k == 0 {
          assert summary.load == Some(FloatOf(near, v));
        } else {
          assert k == 1 && summary.memoryAvailableBytes == Some(IntegerOf(v));
        }
    }
  }

  lemma ResourceSummaryIsNormalised(near: Nearest, members: seq<Member>)
    requires Read(near, RESOURCE_SUMMARY_FIELDS, members)
    ensures ResourceSummarySlots(ResourceSummaryOf(near, Object(members))) == Slots(near, RESOURCE_SUMMARY_FIELDS, members)
  {
    var slots := ResourceSummarySlots(ResourceSummaryOf(near, Object(members)));
    forall k | 0 <= k < |slots|
      ensures slots[k] == Rewritten(near, RESOURCE_SUMMARY_FIELDS[k], members) && IsLeaf(RESOURCE_SUMMARY_FIELDS[k].schema)
    {
      ResourceSummarySlot(near, members, k);
    }
    FlatIsNormalised(near, RESOURCE_SUMMARY_FIELDS, members, slots);
  }

  // ----- Heartbeat

  const HEARTBEAT_FIELDS := [
    Field("status", Enum(["healthy", "degraded"]), true),
    Field("uptime_seconds", Integer(0, 3153600000), true),
    Field("version", VERSION, true),
    Field("active_routes", Integer(0, 1024), true),
    Field("active_streams", Integer(0, 65535), true),
    Field("resource_summary", RESOURCE_SUMMARY, false)]

  const HEARTBEAT := Struct(HEARTBEAT_FIELDS, [])

  function HeartbeatSlots(v: Heartbeat): seq<Slot>
  {
    [ Slot("status", Some(TextTree(v.status))),
      Slot("uptime_seconds", Some(IntegerTree(v.uptimeSeconds))),
      Slot("version", Some(TextTree(v.version))),
      Slot("active_routes", Some(IntegerTree(v.activeRoutes))),
      Slot("active_streams", Some(IntegerTree(v.activeStreams))),
      Slot("resource_summary", Optional(v.resourceSummary, ResourceSummaryTree))]
  }

  function HeartbeatTree(v: Heartbeat): Value { Object(Present(HeartbeatSlots(v))) }

  function HeartbeatOf(near: Nearest, value: Value): Heartbeat
  {
    var source := Members(value);
    Heartbeat(
      TextOf(Property(source, "status")),
      IntegerOf(Property(source, "uptime_seconds")),
      TextOf(Property(source, "version")),
      IntegerOf(Property(source, "active_routes")),
      IntegerOf(Property(source, "active_streams")),
      Mapped(Lookup(source, "resource_summary"), v => ResourceSummaryOf(near, v)))
  }

  lemma HeartbeatNames(v: Heartbeat)
    ensures DistinctNames(HeartbeatSlots(v))
  {
  }

  lemma HeartbeatStartIsFound(v: Heartbeat)
    ensures Lookup(Present(HeartbeatSlots(v)), "status") == Some(TextTree(v.status))
    ensures Lookup(Present(HeartbeatSlots(v)), "uptime_seconds") == Some(IntegerTree(v.uptimeSeconds))
    ensures Lookup(Present(HeartbeatSlots(v)), "version") == Some(TextTree(v.version))
  {
    HeartbeatNames(v);
    LookupPresent(HeartbeatSlots(v), 0);
    LookupPresent(HeartbeatSlots(v), 1);
    LookupPresent(HeartbeatSlots(v), 2);
  }

  lemma HeartbeatEndIsFound(v: Heartbeat)
    ensures Lookup(Present(HeartbeatSlots(v)), "active_routes") == Some(IntegerTree(v.activeRoutes))
    ensures Lookup(Present(HeartbeatSlots(v)), "active_streams") == Some(IntegerTree(v.activeStreams))
    ensures Lookup(Present(HeartbeatSlots(v)), "resource_summary") == Optional(v.resourceSummary, ResourceSummaryTree)
  {
    HeartbeatNames(v);
    LookupPresent(HeartbeatSlots(v), 3);
    LookupPresent(HeartbeatSlots(v), 4);
    LookupPresent(HeartbeatSlots(v), 5);
  }

  lemma HeartbeatFrom(near: Nearest, source: seq<Member>, v: Heartbeat)
    requires Lookup(source, "status") == Some(TextTree(v.status))
    requires Lookup(source, "uptime_seconds") == Some(IntegerTree(v.uptimeSeconds))
    requires Lookup(source, "version") == Some(TextTree(v.version))
    requires Lookup(source, "active_routes") == Some(IntegerTree(v.activeRoutes))
    requires Lookup(source, "active_streams") == Some(IntegerTree(v.activeStreams))
    requires Lookup(source, "resource_summary") == Optional(v.resourceSummary, ResourceSummaryTree)
    requires v.resourceSummary.Some? ==> LoadIsRead(near, v.resourceSummary.value)
    ensures HeartbeatOf(near, Object(source)) == v
  {
    IntegerIsRead(v.uptimeSeconds);
    IntegerIsRead(v.activeRoutes);
    IntegerIsRead(v.activeStreams);
    if v.resourceSummary.Some? {
      ResourceSummaryIsRead(near, v.resourceSummary.value);
    }
  }

  lemma HeartbeatIsRead(near: Nearest, v: Heartbeat)
    requires v.resourceSummary.Some? ==> LoadIsRead(near, v.resourceSummary.value)
    ensures HeartbeatOf(near, HeartbeatTree(v)) == v
  {
    HeartbeatStartIsFound(v);
    HeartbeatEndIsFound(v);
    HeartbeatFrom(near, Present(HeartbeatSlots(v)), v);
  }

  lemma HeartbeatSlot(near: Nearest, members: seq<Member>, k: nat)
    requires k < 5
    ensures IsLeaf(HEARTBEAT_FIELDS[k].schema)
    ensures HeartbeatSlots(HeartbeatOf(near, Object(members)))[k] == Rewritten(near, HEARTBEAT_FIELDS[k], members)
  {
    assert k == 0 || k == 1 || k == 2 || k == 3 || k == 4;
  }

  lemma HeartbeatIsNormalised(near: Nearest, members: seq<Member>)
    requires Read(near, HEARTBEAT_FIELDS, members)
    ensures HeartbeatSlots(HeartbeatOf(near, Object(members))) == Slots(near, HEARTBEAT_FIELDS, members)
  {
    var slots := HeartbeatSlots(HeartbeatOf(near, Object(members)));
    forall k | 0 <= k < |slots| ensures slots[k] == FieldSlot(near, HEARTBEAT_FIELDS[k], members) {
      if k < 5 {
        HeartbeatSlot(near, members, k);
        RewrittenIsNormalised(near, HEARTBEAT_FIELDS, members, k);
      } else {
        HeartbeatNested(near, members);
      }
    }
    SlotsAre(near, HEARTBEAT_FIELDS, members, slots);
  }

  lemma HeartbeatNested(near: Nearest, members: seq<Member>)
    requires Read(near, HEARTBEAT_FIELDS, members)
    ensures HeartbeatSlots(HeartbeatOf(near, Object(members)))[5] == FieldSlot(near, HEARTBEAT_FIELDS[5], members)
  {
    var v := Lookup(members, HEARTBEAT_FIELDS[5].name);
    if v.Some? {
      assert Conforms(near, HEARTBEAT_FIELDS[5].schema, v.value);
      ResourceSummaryIsNormalised(near, v.value.members);
    }
  }

  // ----- RouteDecision

  const ROUTE_DECISION_FIELDS := [
    Field("route_id", IDENTIFIER, true),
    Field("decision", Enum(["continue", "revoke"]), true),
    Field("reason", ROUTE_REASON, true),
    Field("route", ROUTE_PUBLISH, false)]

  const ROUTE_DECISION_RULES := [
    Rule("decision", ["continue"], "route", true),
    Rule("decision", ["revoke"], "route", false)]

  const ROUTE_DECISION := Struct(ROUTE_DECISION_FIELDS, ROUTE_DECISION_RULES)

  function RouteDecisionSlots(v: RouteDecision): seq<Slot>
  {
    [ Slot("route_id", Some(TextTree(v.routeId))),
      Slot("decision", Some(TextTree(v.decision))),
      Slot("reason", Some(TextTree(v.reason))),
      Slot("route", Optional(v.route, RoutePublishTree))]
  }

  function RouteDecisionTree(v: RouteDecision): Value { Object(Present(RouteDecisionSlots(v))) }

  function RouteDecisionOf(value: Value): RouteDecision
  {
    var source := Members(value);
    RouteDecision(
      TextOf(Property(source, "route_id")),
      TextOf(Property(source, "decision")),
      TextOf(Property(source, "reason")),
      Mapped(Lookup(source, "route"), RoutePublishOf))
  }

  lemma RouteDecisionNames(v: RouteDecision)
    ensures DistinctNames(RouteDecisionSlots(v))
  {
  }

  lemma RouteDecisionIsRead(v: RouteDecision)
    ensures RouteDecisionOf(RouteDecisionTree(v)) == v
  {
    var slots, source := RouteDecisionSlots(v), Present(RouteDecisionSlots(v));
    RouteDecisionNames(v);
    LookupAllPresent(slots);
    if v.route.Some? {
      RoutePublishIsRead(v.route.value);
    }
    assert Lookup(source, "route_id") == slots[0].value;
    assert Lookup(source, "decision") == slots[1].value;
    assert Lookup(source, "reason") == slots[2].value;
    assert Lookup(source, "route") == slots[3].value;
  }

  lemma RouteDecisionSlot(near: Nearest, members: seq<Member>, k: nat)
    requires k < 3
    ensures IsLeaf(ROUTE_DECISION_FIELDS[k].schema)
    ensures RouteDecisionSlots(RouteDecisionOf(Object(members)))[k] == Rewritten(near, ROUTE_DECISION_FIELDS[k], members)
  {
    assert k == 0 || k == 1 || k == 2;
  }

  lemma RouteDecisionIsNormalised(near: Nearest, members: seq<Member>)
    requires Read(near, ROUTE_DECISION_FIELDS, members)
    ensures RouteDecisionSlots(RouteDecisionOf(Object(members))) == Slots(near, ROUTE_DECISION_FIELDS, members)
  {
    var slots := RouteDecisionSlots(RouteDecisionOf(Object(members)));
    forall k | 0 <= k < |slots| ensures slots[k] == FieldSlot(near, ROUTE_DECISION_FIELDS[k], members) {
      if k < 3 {
        RouteDecisionSlot(near, members, k);
        RewrittenIsNormalised(near, ROUTE_DECISION_FIELDS, members, k);
      } else {
        RouteDecisionNested(near, members);
      }
    }
    SlotsAre(near, ROUTE_DECISION_FIELDS, members, slots);
  }

  lemma RouteDecisionNested(near: Nearest, members: seq<Member>)
    requires Read(near, ROUTE_DECISION_FIELDS, members)
    ensures RouteDecisionSlots(RouteDecisionOf(Object(members)))[3] == FieldSlot(near, ROUTE_DECISION_FIELDS[3], members)
  {
    forall x | Conforms(near, ROUTE_DECISION_FIELDS[3].schema, x)
      ensures RoutePublishTree(RoutePublishOf(x)) == Normalised(near, ROUTE_DECISION_FIELDS[3].schema, x)
    {
      RoutePublishIsNormalised(near, x.members);
    }
    OptionalIsNormalised(near, ROUTE_DECISION_FIELDS, members, 3, RoutePublishOf, RoutePublishTree);
  }

  // ----- SessionDecision

  const SESSION_DECISION_FIELDS := [
    Field("browser_session_id", IDENTIFIER, true),
    Field("decision", Enum(["re_establish", "end"]), true),
    Field("reason", SESSION_REASON, true)]

  const SESSION_DECISION := Struct(SESSION_DECISION_FIELDS, [])

  function SessionDecisionSlots(v: SessionDecision): seq<Slot>
  {
    [ Slot("browser_session_id", Some(TextTree(v.browserSessionId))),
      Slot("decision", Some(TextTree(v.decision))),
      Slot("reason", Some(TextTree(v.reason)))]
  }

  function SessionDecisionTree(v: SessionDecision): Value { Object(Present(SessionDecisionSlots(v))) }

  function SessionDecisionOf(value: Value): SessionDecision
  {
    var source := Members(value);
    SessionDecision(
      TextOf(Property(source, "browser_session_id")),
      TextOf(Property(source, "decision")),
      TextOf(Property(source, "reason")))
  }

  lemma SessionDecisionNames(v: SessionDecision)
    ensures DistinctNames(SessionDecisionSlots(v))
  {
  }

  lemma SessionDecisionIsRead(v: SessionDecision)
    ensures SessionDecisionOf(SessionDecisionTree(v)) == v
  {
    var slots, source := SessionDecisionSlots(v), Present(SessionDecisionSlots(v));
    SessionDecisionNames(v);
    LookupAllPresent(slots);
    assert Lookup(source, "browser_session_id") == slots[0].value;
    assert Lookup(source, "decision") == slots[1].value;
    assert Lookup(source, "reason") == slots[2].value;
  }

  lemma SessionDecisionSlot(near: Nearest, members: seq<Member>, k: nat)
    requires k < 3
    ensures IsLeaf(SESSION_DECISION_FIELDS[k].schema)
    ensures SessionDecisionSlots(SessionDecisionOf(Object(members)))[k] == Rewritten(near, SESSION_DECISION_FIELDS[k], members)
  {
    assert k == 0 || k == 1 || k == 2;
  }

  lemma SessionDecisionIsNormalised(near: Nearest, members: seq<Member>)
    requires Read(near, SESSION_DECISION_FIELDS, members)
    ensures SessionDecisionSlots(SessionDecisionOf(Object(members))) == Slots(near, SESSION_DECISION_FIELDS, members)
  {
    var slots := SessionDecisionSlots(SessionDecisionOf(Object(members)));
    forall k | 0 <= k < |slots|
      ensures slots[k] == Rewritten(near, SESSION_DECISION_FIELDS[k], members) && IsLeaf(SESSION_DECISION_FIELDS[k].schema)
    {
      SessionDecisionSlot(near, members, k);
    }
    FlatIsNormalised(near, SESSION_DECISION_FIELDS, members, slots);
  }

  // ----- ReconnectResponse

  const RECONNECT_RESPONSE_FIELDS := [
    Field("reconciled_at", TIMESTAMP, true),
    Field("upgrade", Enum(["compatible", "upgrade_recommended", "upgrade_required", "unsupported"]), true),
    Field("routes", List(0, 16, false, ROUTE_DECISION), true),
    Field("sessions", List(0, 16, false, SESSION_DECISION), true)]

  const RECONNECT_RESPONSE := Struct(RECONNECT_RESPONSE_FIELDS, [])

  function ReconnectResponseSlots(v: ReconnectResponse): seq<Slot>
  {
    [ Slot("reconciled_at", Some(TextTree(v.reconciledAt))),
      Slot("upgrade", Some(TextTree(v.upgrade))),
      Slot("routes", Some(Trees(v.routes, RouteDecisionTree))),
      Slot("sessions", Some(Trees(v.sessions, SessionDecisionTree)))]
  }

  function ReconnectResponseTree(v: ReconnectResponse): Value { Object(Present(ReconnectResponseSlots(v))) }

  function ReconnectResponseOf(value: Value): ReconnectResponse
  {
    var source := Members(value);
    ReconnectResponse(
      TextOf(Property(source, "reconciled_at")),
      TextOf(Property(source, "upgrade")),
      SliceOf(Property(source, "routes"), RouteDecisionOf),
      SliceOf(Property(source, "sessions"), SessionDecisionOf))
  }

  lemma ReconnectResponseNames(v: ReconnectResponse)
    ensures DistinctNames(ReconnectResponseSlots(v))
  {
  }

  lemma ReconnectResponseIsRead(v: ReconnectResponse)
    ensures ReconnectResponseOf(ReconnectResponseTree(v)) == v
  {
    var slots, source := ReconnectResponseSlots(v), Present(ReconnectResponseSlots(v));
    ReconnectResponseNames(v);
    LookupAllPresent(slots);
    forall x ensures RouteDecisionOf(RouteDecisionTree(x)) == x {
      RouteDecisionIsRead(x);
    }
    ListIsRead(v.routes, RouteDecisionOf, RouteDecisionTree);
    forall x ensures SessionDecisionOf(SessionDecisionTree(x)) == x {
      SessionDecisionIsRead(x);
    }
    ListIsRead(v.sessions, SessionDecisionOf, SessionDecisionTree);
    assert Lookup(source, "reconciled_at") == slots[0].value;
    assert Lookup(source, "upgrade") == slots[1].value;
    assert Lookup(source, "routes") == slots[2].value;
    assert Lookup(source, "sessions") == slots[3].value;
  }

  lemma ReconnectResponseSlot(near: Nearest, members: seq<Member>, k: nat)
    requires k < 2
    ensures IsLeaf(RECONNECT_RESPONSE_FIELDS[k].schema)
    ensures ReconnectResponseSlots(ReconnectResponseOf(Object(members)))[k] == Rewritten(near, RECONNECT_RESPONSE_FIELDS[k], members)
  {
    assert k == 0 || k == 1;
  }

  lemma ReconnectResponseIsNormalised(near: Nearest, members: seq<Member>)
    requires Read(near, RECONNECT_RESPONSE_FIELDS, members)
    ensures ReconnectResponseSlots(ReconnectResponseOf(Object(members))) == Slots(near, RECONNECT_RESPONSE_FIELDS, members)
  {
    var slots := ReconnectResponseSlots(ReconnectResponseOf(Object(members)));
    forall k | 0 <= k < |slots| ensures slots[k] == FieldSlot(near, RECONNECT_RESPONSE_FIELDS[k], members) {
      if k < 2 {
        ReconnectResponseSlot(near, members, k);
        RewrittenIsNormalised(near, RECONNECT_RESPONSE_FIELDS, members, k);
      } else {
        RouteDecisionsAreNormalised(near, members);
        SessionDecisionsAreNormalised(near, members);
      }
    }
    SlotsAre(near, RECONNECT_RESPONSE_FIELDS, members, slots);
  }

  lemma RouteDecisionsAreNormalised(near: Nearest, members: seq<Member>)
    requires Read(near, RECONNECT_RESPONSE_FIELDS, members)
    ensures ReconnectResponseSlots(ReconnectResponseOf(Object(members)))[2] == FieldSlot(near, RECONNECT_RESPONSE_FIELDS[2], members)
  {
    var v := Lookup(members, RECONNECT_RESPONSE_FIELDS[2].name);
    assert v.Some? && Conforms(near, RECONNECT_RESPONSE_FIELDS[2].schema, v.value);
    forall x | Conforms(near, RECONNECT_RESPONSE_FIELDS[2].schema.item, x)
      ensures RouteDecisionTree(RouteDecisionOf(x)) == Normalised(near, RECONNECT_RESPONSE_FIELDS[2].schema.item, x)
    {
      RouteDecisionIsNormalised(near, x.members);
    }
    ListIsNormalised(near, RECONNECT_RESPONSE_FIELDS[2].schema, v.value, RouteDecisionOf, RouteDecisionTree);
  }

  lemma SessionDecisionsAreNormalised(near: Nearest, members: seq<Member>)
    requires Read(near, RECONNECT_RESPONSE_FIELDS, members)
    ensures ReconnectResponseSlots(ReconnectResponseOf(Object(members)))[3] == FieldSlot(near, RECONNECT_RESPONSE_FIELDS[3], members)
  {
    var v := Lookup(members, RECONNECT_RESPONSE_FIELDS[3].name);
    assert v.Some? && Conforms(near, RECONNECT_RESPONSE_FIELDS[3].schema, v.value);
    forall x | Conforms(near, RECONNECT_RESPONSE_FIELDS[3].schema.item, x)
      ensures SessionDecisionTree(SessionDecisionOf(x)) == Normalised(near, RECONNECT_RESPONSE_FIELDS[3].schema.item, x)
    {
      SessionDecisionIsNormalised(near, x.members);
    }
    ListIsNormalised(near, RECONNECT_RESPONSE_FIELDS[3].schema, v.value, SessionDecisionOf, SessionDecisionTree);
  }
}
