/**
 * What the schemas of the connector messages imply: their properties are told apart,
 * their text needs no escape, and their sizes are bounded.
 */
module MessageBounds {
  import opened Schema
  import opened CanonicalForm
  import opened Messages
  import JsonNumber

  predicate FitsIn(s: Schema, n: nat)
  {
    Sound(s) && PlainSchema(s) && MaxSize(s) <= n
  }

  predicate FieldFits(f: Field, n: nat)
  {
    AllPlain(f.name) && n >= |f.name| + 4 && FitsIn(f.schema, n - |f.name| - 4)
  }

  /** The first k properties together. */
  predicate PrefixFits(fields: seq<Field>, k: nat, n: nat)
  {
    && k <= |fields| && MaxFieldsSize(fields[..k]) <= n
    && forall i | 0 <= i < k :: AllPlain(fields[i].name) && Sound(fields[i].schema) && PlainSchema(fields[i].schema)
  }

  predicate Differ(fields: seq<Field>)
  {
    forall i, j | 0 <= i < j < |fields| :: fields[i].name != fields[j].name
  }

  lemma Adds(fields: seq<Field>, k: nat, n: nat, m: nat)
    requires PrefixFits(fields, k, n) && k < |fields| && FieldFits(fields[k], m)
    ensures PrefixFits(fields, k + 1, n + m)
  {
    assert fields[..k + 1][..k] == fields[..k];
  }

  lemma AddsTwo(fields: seq<Field>, k: nat, n: nat, a: nat, b: nat)
    requires k + 2 <= |fields|
    ensures PrefixFits(fields, k, n) && FieldFits(fields[k], a) && FieldFits(fields[k + 1], b) ==>
            PrefixFits(fields, k + 2, n + a + b)
  {
    if PrefixFits(fields, k, n) && FieldFits(fields[k], a) && FieldFits(fields[k + 1], b) {
      Adds(fields, k, n, a);
      Adds(fields, k + 1, n + a, b);
    }
  }

  predicate ThreeFit(fields: seq<Field>, k: nat, a: nat, b: nat, c: nat)
  {
    k + 3 <= |fields| && FieldFits(fields[k], a) && FieldFits(fields[k + 1], b) && FieldFits(fields[k + 2], c)
  }

  lemma AddsThree(fields: seq<Field>, k: nat, n: nat, a: nat, b: nat, c: nat)
    ensures PrefixFits(fields, k, n) && ThreeFit(fields, k, a, b, c) ==> PrefixFits(fields, k + 3, n + a + b + c)
  {
    if PrefixFits(fields, k, n) && ThreeFit(fields, k, a, b, c) {
      AddsTwo(fields, k, n, a, b);
      Adds(fields, k + 2, n + a + b, c);
    }
  }

  lemma StructFits(fields: seq<Field>, rules: seq<Rule>, n: nat)
    ensures PrefixFits(fields, |fields|, n) && Differ(fields) &&
            RulesAreSound(fields, rules) ==>
            FitsIn(Struct(fields, rules), n + 2)
  {
    assert fields[..|fields|] == fields;
  }

  lemma AddsFour(fields: seq<Field>, k: nat, n: nat, a: nat, b: nat, c: nat, d: nat)
    requires k + 4 <= |fields|
    ensures PrefixFits(fields, k, n) && FieldFits(fields[k], a) && FieldFits(fields[k + 1], b) &&
            FieldFits(fields[k + 2], c) && FieldFits(fields[k + 3], d) ==>
            PrefixFits(fields, k + 4, n + a + b + c + d)
  {
    AddsTwo(fields, k, n, a, b);
    AddsTwo(fields, k + 2, n + a + b, c, d);
  }

  lemma FourFit(fields: seq<Field>, a: nat, b: nat, c: nat, d: nat)
    requires |fields| == 4
    ensures FieldFits(fields[0], a) && FieldFits(fields[1], b) && FieldFits(fields[2], c) && FieldFits(fields[3], d) ==>
            PrefixFits(fields, 4, a + b + c + d)
  {
    NothingYet(fields);
    AddsFour(fields, 0, 0, a, b, c, d);
  }

  lemma SixFit(fields: seq<Field>, a: nat, b: nat, c: nat, d: nat, e: nat, g: nat)
    ensures ThreeFit(fields, 0, a, b, c) && ThreeFit(fields, 3, d, e, g) ==> PrefixFits(fields, 6, a + b + c + d + e + g)
  {
    NothingYet(fields);
    AddsThree(fields, 0, 0, a, b, c);
    AddsThree(fields, 3, a + b + c, d, e, g);
  }

  predicate RulesAreSound(fields: seq<Field>, rules: seq<Rule>)
  {
    forall i | 0 <= i < |rules| :: RuleIsSound(fields, rules[i])
  }

  lemma NothingYet(fields: seq<Field>)
    ensures PrefixFits(fields, 0, 0)
  {
  }

  lemma RuleHolds(fields: seq<Field>, r: Rule, i: nat, j: nat)
    requires i < |fields| && fields[i].name == r.property && fields[i].schema.Enum?
    requires j < |fields| && fields[j].name == r.name
    ensures RuleIsSound(fields, r)
  {
  }

  lemma {:induction false} LongestIsAtMost(values: seq<string>, n: nat)
    requires forall i | 0 <= i < |values| :: |values[i]| <= n
    ensures Longest(values) <= n
  {
    if values != [] {
      LongestIsAtMost(values[1..], n);
    }
  }

  lemma EnumFits(values: seq<string>, n: nat)
    requires forall i | 0 <= i < |values| :: |values[i]| <= n && AllPlain(values[i])
    ensures FitsIn(Enum(values), n + 2)
  {
    LongestIsAtMost(values, n);
  }

  lemma IntegerFits(minimum: nat, maximum: nat, n: nat)
    requires minimum <= maximum && 1 <= n && maximum < JsonNumber.Power10(n)
    ensures FitsIn(Integer(minimum, maximum), n)
  {
    DigitsAreShort(minimum, n);
    DigitsAreShort(maximum, n);
  }

  lemma Powers()
    ensures JsonNumber.Power10(10) == 10000000000 && JsonNumber.Power10(16) == 10000000000000000
  {
    assert JsonNumber.Power10(2) == 100;
    assert JsonNumber.Power10(4) == 10000;
    assert JsonNumber.Power10(6) == 1000000;
    assert JsonNumber.Power10(8) == 100000000;
    assert JsonNumber.Power10(10) == 10000000000;
    assert JsonNumber.Power10(12) == 1000000000000;
    assert JsonNumber.Power10(14) == 100000000000000;
  }

  lemma PortFits()
    ensures FitsIn(Integer(1, 65535), 5)
  {
    IntegerFits(1, 65535, 5);
  }

  lemma UptimeFits()
    ensures FitsIn(Integer(0, 3153600000), 10)
  {
    Powers();
    IntegerFits(0, 3153600000, 10);
  }

  lemma MemoryFits()
    ensures FitsIn(Integer(0, 9007199254740991), 16)
  {
    Powers();
    IntegerFits(0, 9007199254740991, 16);
  }

  lemma CountsFit()
    ensures FitsIn(Integer(0, 1024), 4) && FitsIn(Integer(0, 65535), 5)
  {
    IntegerFits(0, 1024, 4);
    IntegerFits(0, 65535, 5);
  }

  lemma {:induction false} DigitsAreShort(v: nat, n: nat)
    requires 1 <= n && v < JsonNumber.Power10(n)
    ensures |JsonNumber.Digits(v)| <= n
  {
    if v >= 10 {
      DigitsAreShort(v / 10, n - 1);
    }
  }

  lemma RouteNames()
    ensures AllPlain("route_id")
    ensures AllPlain("project_id")
    ensures AllPlain("workspace_id")
    ensures AllPlain("local_host")
    ensures AllPlain("local_port")
  {
  }

  lemma PublicationNames()
    ensures AllPlain("protocol")
    ensures AllPlain("expires_at")
    ensures AllPlain("allowed_browser_session_ids")
  {
  }

  lemma AckNames()
    ensures AllPlain("status")
    ensures AllPlain("observed_destination")
    ensures AllPlain("error_class")
  {
  }

  lemma SessionNames()
    ensures AllPlain("browser_session_id")
    ensures AllPlain("session_capability")
  {
  }

  lemma StreamNames()
    ensures AllPlain("stream_id")
    ensures AllPlain("destination_protocol")
    ensures AllPlain("deadline")
    ensures AllPlain("stream_mode")
  {
  }

  lemma SummaryNames()
    ensures AllPlain("load")
    ensures AllPlain("memory_available_bytes")
  {
  }

  lemma HeartbeatNames()
    ensures AllPlain("uptime_seconds")
    ensures AllPlain("version")
    ensures AllPlain("active_routes")
    ensures AllPlain("active_streams")
    ensures AllPlain("resource_summary")
  {
  }

  lemma DecisionNames()
    ensures AllPlain("decision")
    ensures AllPlain("reason")
    ensures AllPlain("route")
  {
  }

  lemma ResponseNames()
    ensures AllPlain("reconciled_at")
    ensures AllPlain("upgrade")
    ensures AllPlain("routes")
    ensures AllPlain("sessions")
  {
  }

  lemma ProtocolFits()
    ensures FitsIn(DESTINATION_PROTOCOL, 7)
  {
    EnumFits(DESTINATION_PROTOCOL.values, 5);
  }

  lemma StatusFits()
    ensures FitsIn(Enum(["ready", "rejected"]), 10)
  {
    EnumFits(Enum(["ready", "rejected"]).values, 8);
  }

  lemma EnrolmentErrors()
    ensures AllPlain("ENROLMENT_TOKEN_INVALID")
    ensures AllPlain("IDENTITY_REVOKED")
    ensures AllPlain("PROTOCOL_UNSUPPORTED")
  {
  }

  lemma ProjectErrors()
    ensures AllPlain("PROJECT_NOT_AUTHORISED")
    ensures AllPlain("WORKSPACE_NOT_FOUND")
    ensures AllPlain("DESTINATION_NOT_ALLOWED")
  {
  }

  lemma RouteErrors()
    ensures AllPlain("PORT_NOT_LISTENING")
    ensures AllPlain("ROUTE_LIMIT_EXCEEDED")
    ensures AllPlain("ROUTE_EXPIRED")
  {
  }

  lemma ServiceErrors()
    ensures AllPlain("STREAM_LIMIT_EXCEEDED")
    ensures AllPlain("CONTROL_PLANE_UNAVAILABLE")
    ensures AllPlain("UPGRADE_REQUIRED")
  {
  }

  lemma ErrorClassFits()
    ensures FitsIn(ERROR_CLASS, 27)
  {
    EnrolmentErrors();
    ProjectErrors();
    RouteErrors();
    ServiceErrors();
    EnumFits(ERROR_CLASS.values, 25);
  }

  lemma StreamModeFits()
    ensures FitsIn(Enum(["request_response", "upgrade"]), 18)
  {
    EnumFits(Enum(["request_response", "upgrade"]).values, 16);
  }

  lemma HealthFits()
    ensures FitsIn(Enum(["healthy", "degraded"]), 10)
  {
    EnumFits(Enum(["healthy", "degraded"]).values, 8);
  }

  lemma RouteChoiceFits()
    ensures FitsIn(Enum(["continue", "revoke"]), 10)
  {
    EnumFits(Enum(["continue", "revoke"]).values, 8);
  }

  lemma RouteReasonFits()
    ensures FitsIn(ROUTE_REASON, 22)
  {
    EnumFits(ROUTE_REASON.values, 20);
  }

  lemma SessionChoiceFits()
    ensures FitsIn(Enum(["re_establish", "end"]), 14)
  {
    EnumFits(Enum(["re_establish", "end"]).values, 12);
  }

  lemma SessionReasonFits()
    ensures FitsIn(SESSION_REASON, 23)
  {
    EnumFits(SESSION_REASON.values, 21);
  }

  lemma UpgradeFits()
    ensures FitsIn(Enum(["compatible", "upgrade_recommended", "upgrade_required", "unsupported"]), 21)
  {
    EnumFits(Enum(["compatible", "upgrade_recommended", "upgrade_required", "unsupported"]).values, 19);
  }

  lemma RouteAndProjectFit()
    ensures FieldFits(ROUTE_PUBLISH_FIELDS[0], 78)
    ensures FieldFits(ROUTE_PUBLISH_FIELDS[1], 80)
  {
    RouteNames();
  }

  lemma WorkspaceAndHostFit()
    ensures FieldFits(ROUTE_PUBLISH_FIELDS[2], 82)
    ensures FieldFits(ROUTE_PUBLISH_FIELDS[3], 271)
  {
    RouteNames();
  }

  lemma PortAndProtocolFit()
    ensures FieldFits(ROUTE_PUBLISH_FIELDS[4], 19)
    ensures FieldFits(ROUTE_PUBLISH_FIELDS[5], 19)
  {
    RouteNames();
    PublicationNames();
    PortFits();
    ProtocolFits();
  }

  lemma ExpiryAndSessionsFit()
    ensures FieldFits(ROUTE_PUBLISH_FIELDS[6], 46)
    ensures FieldFits(ROUTE_PUBLISH_FIELDS[7], 2177)
  {
    PublicationNames();
  }

  lemma RoutePublishDiffer()
    ensures Differ(ROUTE_PUBLISH_FIELDS)
  {
  }

  lemma RoutePublishPrefix()
    ensures PrefixFits(ROUTE_PUBLISH_FIELDS, 8, 2772)
  {
    RouteAndProjectFit();
    WorkspaceAndHostFit();
    PortAndProtocolFit();
    ExpiryAndSessionsFit();
    NothingYet(ROUTE_PUBLISH_FIELDS);
    AddsFour(ROUTE_PUBLISH_FIELDS, 0, 0, 78, 80, 82, 271);
    AddsFour(ROUTE_PUBLISH_FIELDS, 4, 511, 19, 19, 46, 2177);
  }

  lemma RoutePublishFits()
    ensures FitsIn(ROUTE_PUBLISH, 2774)
  {
    RoutePublishPrefix();
    RoutePublishDiffer();
    StructFits(ROUTE_PUBLISH_FIELDS, [], 2772);
  }

  lemma AcknowledgedRouteFits()
    ensures FieldFits(ROUTE_PUBLISH_ACK_FIELDS[0], 78)
    ensures FieldFits(ROUTE_PUBLISH_ACK_FIELDS[1], 20)
  {
    RouteNames();
    AckNames();
    StatusFits();
  }

  lemma OutcomeFits()
    ensures FieldFits(ROUTE_PUBLISH_ACK_FIELDS[2], 288)
    ensures FieldFits(ROUTE_PUBLISH_ACK_FIELDS[3], 42)
  {
    AckNames();
    ErrorClassFits();
  }

  lemma RoutePublishAckDiffer()
    ensures Differ(ROUTE_PUBLISH_ACK_FIELDS)
    ensures RulesAreSound(ROUTE_PUBLISH_ACK_FIELDS, ROUTE_PUBLISH_ACK_RULES)
  {
    RuleHolds(ROUTE_PUBLISH_ACK_FIELDS, ROUTE_PUBLISH_ACK_RULES[0], 1, 2);
    RuleHolds(ROUTE_PUBLISH_ACK_FIELDS, ROUTE_PUBLISH_ACK_RULES[1], 1, 3);
    RuleHolds(ROUTE_PUBLISH_ACK_FIELDS, ROUTE_PUBLISH_ACK_RULES[2], 1, 3);
    RuleHolds(ROUTE_PUBLISH_ACK_FIELDS, ROUTE_PUBLISH_ACK_RULES[3], 1, 2);
  }

  lemma RoutePublishAckPrefix()
    ensures PrefixFits(ROUTE_PUBLISH_ACK_FIELDS, 4, 428)
  {
    AcknowledgedRouteFits();
    OutcomeFits();
    FourFit(ROUTE_PUBLISH_ACK_FIELDS, 78, 20, 288, 42);
  }

  lemma RoutePublishAckFits()
    ensures FitsIn(ROUTE_PUBLISH_ACK, 430)
  {
    RoutePublishAckPrefix();
    RoutePublishAckDiffer();
    StructFits(ROUTE_PUBLISH_ACK_FIELDS, ROUTE_PUBLISH_ACK_RULES, 428);
  }

  lemma StreamSessionFits()
    ensures FieldFits(DATA_STREAM_HEADER_FIELDS[0], 78)
    ensures FieldFits(DATA_STREAM_HEADER_FIELDS[1], 88)
    ensures FieldFits(DATA_STREAM_HEADER_FIELDS[2], 536)
  {
    RouteNames();
    SessionNames();
  }

  lemma StreamAndProtocolFit()
    ensures FieldFits(DATA_STREAM_HEADER_FIELDS[3], 79)
    ensures FieldFits(DATA_STREAM_HEADER_FIELDS[4], 31)
  {
    StreamNames();
    ProtocolFits();
  }

  lemma DeadlineAndModeFit()
    ensures FieldFits(DATA_STREAM_HEADER_FIELDS[5], 44)
    ensures FieldFits(DATA_STREAM_HEADER_FIELDS[6], 33)
  {
    StreamNames();
    StreamModeFits();
  }

  lemma DataStreamHeaderDiffer()
    ensures Differ(DATA_STREAM_HEADER_FIELDS)
  {
  }

  lemma DataStreamHeaderPrefix()
    ensures PrefixFits(DATA_STREAM_HEADER_FIELDS, 7, 889)
  {
    StreamSessionFits();
    StreamAndProtocolFit();
    DeadlineAndModeFit();
    NothingYet(DATA_STREAM_HEADER_FIELDS);
    AddsThree(DATA_STREAM_HEADER_FIELDS, 0, 0, 78, 88, 536);
    AddsFour(DATA_STREAM_HEADER_FIELDS, 3, 702, 79, 31, 44, 33);
  }

  lemma DataStreamHeaderFits()
    ensures FitsIn(DATA_STREAM_HEADER, 891)
  {
    DataStreamHeaderPrefix();
    DataStreamHeaderDiffer();
    StructFits(DATA_STREAM_HEADER_FIELDS, [], 889);
  }

  lemma LoadAndMemoryFit()
    ensures FieldFits(RESOURCE_SUMMARY_FIELDS[0], 33)
    ensures FieldFits(RESOURCE_SUMMARY_FIELDS[1], 42)
  {
    SummaryNames();
    MemoryFits();
  }

  lemma ResourceSummaryDiffer()
    ensures Differ(RESOURCE_SUMMARY_FIELDS)
  {
  }

  lemma ResourceSummaryPrefix()
    ensures PrefixFits(RESOURCE_SUMMARY_FIELDS, 2, 75)
  {
    LoadAndMemoryFit();
    NothingYet(RESOURCE_SUMMARY_FIELDS);
    AddsTwo(RESOURCE_SUMMARY_FIELDS, 0, 0, 33, 42);
  }

  lemma ResourceSummaryFits()
    ensures FitsIn(RESOURCE_SUMMARY, 77)
  {
    ResourceSummaryPrefix();
    ResourceSummaryDiffer();
    StructFits(RESOURCE_SUMMARY_FIELDS, [], 75);
  }

  lemma HealthAndUptimeFit()
    ensures FieldFits(HEARTBEAT_FIELDS[0], 20)
    ensures FieldFits(HEARTBEAT_FIELDS[1], 28)
    ensures FieldFits(HEARTBEAT_FIELDS[2], 45)
  {
    AckNames();
    HeartbeatNames();
    HealthFits();
    UptimeFits();
  }

  lemma ActivityFits()
    ensures FieldFits(HEARTBEAT_FIELDS[3], 21)
    ensures FieldFits(HEARTBEAT_FIELDS[4], 23)
    ensures FieldFits(HEARTBEAT_FIELDS[5], 97)
  {
    HeartbeatNames();
    CountsFit();
    ResourceSummaryFits();
  }

  lemma HeartbeatDiffer()
    ensures Differ(HEARTBEAT_FIELDS)
  {
  }

  lemma HeartbeatPrefix()
    ensures PrefixFits(HEARTBEAT_FIELDS, 6, 234)
  {
    HealthAndUptimeFit();
    ActivityFits();
    SixFit(HEARTBEAT_FIELDS, 20, 28, 45, 21, 23, 97);
  }

  lemma HeartbeatFits()
    ensures FitsIn(HEARTBEAT, 236)
  {
    HeartbeatPrefix();
    HeartbeatDiffer();
    StructFits(HEARTBEAT_FIELDS, [], 234);
  }

  lemma DecidedRouteFits()
    ensures FieldFits(ROUTE_DECISION_FIELDS[0], 78)
    ensures FieldFits(ROUTE_DECISION_FIELDS[1], 22)
  {
    RouteNames();
    DecisionNames();
    RouteChoiceFits();
  }

  lemma ReasonAndRouteFit()
    ensures FieldFits(ROUTE_DECISION_FIELDS[2], 32)
    ensures FieldFits(ROUTE_DECISION_FIELDS[3], 2783)
  {
    DecisionNames();
    RouteReasonFits();
    RoutePublishFits();
  }

  lemma RouteDecisionDiffer()
    ensures Differ(ROUTE_DECISION_FIELDS)
    ensures RulesAreSound(ROUTE_DECISION_FIELDS, ROUTE_DECISION_RULES)
  {
    RuleHolds(ROUTE_DECISION_FIELDS, ROUTE_DECISION_RULES[0], 1, 3);
    RuleHolds(ROUTE_DECISION_FIELDS, ROUTE_DECISION_RULES[1], 1, 3);
  }

  lemma RouteDecisionPrefix()
    ensures PrefixFits(ROUTE_DECISION_FIELDS, 4, 2915)
  {
    DecidedRouteFits();
    ReasonAndRouteFit();
    FourFit(ROUTE_DECISION_FIELDS, 78, 22, 32, 2783);
  }

  lemma RouteDecisionFits()
    ensures FitsIn(ROUTE_DECISION, 2917)
  {
    RouteDecisionPrefix();
    RouteDecisionDiffer();
    StructFits(ROUTE_DECISION_FIELDS, ROUTE_DECISION_RULES, 2915);
  }

  lemma DecidedSessionFits()
    ensures FieldFits(SESSION_DECISION_FIELDS[0], 88)
    ensures FieldFits(SESSION_DECISION_FIELDS[1], 26)
    ensures FieldFits(SESSION_DECISION_FIELDS[2], 33)
  {
    SessionNames();
    DecisionNames();
    SessionChoiceFits();
    SessionReasonFits();
  }

  lemma SessionDecisionDiffer()
    ensures Differ(SESSION_DECISION_FIELDS)
  {
  }

  lemma SessionDecisionPrefix()
    ensures PrefixFits(SESSION_DECISION_FIELDS, 3, 147)
  {
    DecidedSessionFits();
    NothingYet(SESSION_DECISION_FIELDS);
    AddsThree(SESSION_DECISION_FIELDS, 0, 0, 88, 26, 33);
  }

  lemma SessionDecisionFits()
    ensures FitsIn(SESSION_DECISION, 149)
  {
    SessionDecisionPrefix();
    SessionDecisionDiffer();
    StructFits(SESSION_DECISION_FIELDS, [], 147);
  }

  lemma ReconciledAndUpgradeFit()
    ensures FieldFits(RECONNECT_RESPONSE_FIELDS[0], 49)
    ensures FieldFits(RECONNECT_RESPONSE_FIELDS[1], 32)
  {
    ResponseNames();
    UpgradeFits();
  }

  lemma DecisionsFit()
    ensures FieldFits(RECONNECT_RESPONSE_FIELDS[2], 46700)
    ensures FieldFits(RECONNECT_RESPONSE_FIELDS[3], 2414)
  {
    ResponseNames();
    RouteDecisionFits();
    SessionDecisionFits();
  }

  lemma ReconnectResponseDiffer()
    ensures Differ(RECONNECT_RESPONSE_FIELDS)
  {
  }

  lemma ReconnectResponsePrefix()
    ensures PrefixFits(RECONNECT_RESPONSE_FIELDS, 4, 49195)
  {
    ReconciledAndUpgradeFit();
    DecisionsFit();
    FourFit(RECONNECT_RESPONSE_FIELDS, 49, 32, 46700, 2414);
  }

  lemma ReconnectResponseFits()
    ensures FitsIn(RECONNECT_RESPONSE, 49197)
  {
    ReconnectResponsePrefix();
    ReconnectResponseDiffer();
    StructFits(RECONNECT_RESPONSE_FIELDS, [], 49195);
  }
}
