/**
 * The frame entry points: what turns bytes into protocol values and back. On valid
 * frames they undo each other, and whatever is decoded is valid.
 */
module Frames {
  import opened Bytes
  import opened Json
  import opened Schema
  import opened CanonicalForm
  import CanonicalWriter
  import opened Messages
  import opened TreeMessages
  import opened ControlEnvelope
  import Encoders
  import Validation

  const MAX_CONTROL_FRAME_BYTES := 65536
  const MAX_DATA_STREAM_HEADER_BYTES := 4096
  const PROTOCOL_VERSION := 1

  /** A payload. Those of the last kind are kept as their canonical trees. */
  datatype Payload =
    | HeartbeatPayload(heartbeat: Heartbeat)
    | RoutePublishPayload(publish: RoutePublish)
    | RoutePublishAckPayload(ack: RoutePublishAck)
    | ReconnectResponsePayload(response: ReconnectResponse)
    | TreePayload(messageType: string, tree: Value)

  datatype Frame = Frame(envelope: Envelope, payload: Option<Payload>)

  const TREE_TYPES := [
    REGISTRATION_REQUEST_TYPE, REGISTRATION_RESPONSE_TYPE, RECONNECT_REQUEST_TYPE, WORKSPACE_OBSERVED_TYPE]

  function TypeOf(p: Payload): string
  {
    match p
    case HeartbeatPayload(_) => HEARTBEAT_TYPE
    case RoutePublishPayload(_) => ROUTE_PUBLISH_TYPE
    case RoutePublishAckPayload(_) => ROUTE_PUBLISH_ACK_TYPE
    case ReconnectResponsePayload(_) => RECONNECT_RESPONSE_TYPE
    case TreePayload(messageType, _) => messageType
  }

  function PayloadTree(p: Payload): Value
  {
    match p
    case HeartbeatPayload(v) => HeartbeatTree(v)
    case RoutePublishPayload(v) => RoutePublishTree(v)
    case RoutePublishAckPayload(v) => RoutePublishAckTree(v)
    case ReconnectResponsePayload(v) => ReconnectResponseTree(v)
    case TreePayload(_, tree) => tree
  }

  function PayloadSchema(messageType: string): Schema
  {
    if messageType == REGISTRATION_REQUEST_TYPE then REGISTRATION_REQUEST
    else if messageType == REGISTRATION_RESPONSE_TYPE then REGISTRATION_RESPONSE
    else if messageType == HEARTBEAT_TYPE then HEARTBEAT
    else if messageType == ROUTE_PUBLISH_TYPE then ROUTE_PUBLISH
    else if messageType == ROUTE_PUBLISH_ACK_TYPE then ROUTE_PUBLISH_ACK
    else if messageType == RECONNECT_REQUEST_TYPE then RECONNECT_REQUEST
    else if messageType == RECONNECT_RESPONSE_TYPE then RECONNECT_RESPONSE
    else WORKSPACE_OBSERVATION
  }

  function PayloadMaxBytes(messageType: string): nat
  {
    if messageType == REGISTRATION_REQUEST_TYPE then 4096
    else if messageType == REGISTRATION_RESPONSE_TYPE then 8192
    else if messageType == HEARTBEAT_TYPE then 1024
    else if messageType == ROUTE_PUBLISH_TYPE then 2048
    else if messageType == ROUTE_PUBLISH_ACK_TYPE then 1024
    else if messageType == RECONNECT_REQUEST_TYPE then 32768
    else if messageType == RECONNECT_RESPONSE_TYPE then 57344
    else 2048
  }

  // ----- encoding

  datatype EncodeError = UnknownPayload | TypeMismatch | NotFinite | PayloadTooLarge | FrameTooLarge

  predicate IsFinite(p: Payload)
  {
    p.HeartbeatPayload? ==> !Encoders.LoadIsNotANumber(p.heartbeat)
  }

  function EncodedPayload(p: Payload): Result<string, EncodeError>
  {
    if IsFinite(p) then Ok(Render(PayloadTree(p))) else Err(NotFinite)
  }

  function EncodedFrame(frame: Frame): Result<string, EncodeError>
  {
    if frame.payload.None? then Err(UnknownPayload)
    else
      var p := frame.payload.value;
      if frame.envelope.messageType != TypeOf(p) then Err(TypeMismatch)
      else if !IsFinite(p) then Err(NotFinite)
      else if |Render(PayloadTree(p))| > PayloadMaxBytes(frame.envelope.messageType) then Err(PayloadTooLarge)
      else if |Render(EnvelopeTree(frame.envelope, PayloadTree(p)))| > MAX_CONTROL_FRAME_BYTES then Err(FrameTooLarge)
      else Ok(Render(EnvelopeTree(frame.envelope, PayloadTree(p))))
  }

  lemma TopWrites(v: Value)
    ensures CanonicalWriter.Written(CanonicalWriter.PutValue(CanonicalWriter.Top(""), v)) == Render(v)
  {
    assert "" + Render(v) == Render(v);
  }

  method EncodePayload(p: Payload) returns (r: Result<string, EncodeError>)
    ensures r == EncodedPayload(p)
  {
    var w := new CanonicalWriter.Writer();
    match p {
      case HeartbeatPayload(v) => Encoders.EncodeHeartbeatInto(w, v);
      case RoutePublishPayload(v) => Encoders.EncodeRoutePublishInto(w, v);
      case RoutePublishAckPayload(v) => Encoders.EncodeRoutePublishAckInto(w, v);
      case ReconnectResponsePayload(v) => Encoders.EncodeReconnectResponseInto(w, v);
      case TreePayload(_, tree) => w.WriteRaw(Render(tree), tree);
    }
    TopWrites(PayloadTree(p));
    var text := w.Result();
    match text {
      case Ok(t) => r := Ok(t);
      case Err(_) => r := Err(NotFinite);
    }
  }

  method EncodeEnvelope(e: Envelope, payloadJson: string, ghost payload: Value) returns (r: string)
    requires payloadJson == Render(payload)
    ensures r == Render(EnvelopeTree(e, payload))
  {
    var w := new CanonicalWriter.Writer();
    Encoders.EncodeEnvelopeInto(w, e, payloadJson, payload);
    TopWrites(EnvelopeTree(e, payload));
    r := w.buf;
  }

  method EncodeControlFrame(frame: Frame) returns (r: Result<string, EncodeError>)
    ensures r == EncodedFrame(frame)
  {
    if frame.payload.None? {
      return Err(UnknownPayload);
    }
    var p := frame.payload.value;
    if frame.envelope.messageType != TypeOf(p) {
      return Err(TypeMismatch);
    }
    var payloadJson := EncodePayload(p);
    if payloadJson.Err? {
      return Err(payloadJson.error);
    }
    if |payloadJson.value| > PayloadMaxBytes(frame.envelope.messageType) {
      return Err(PayloadTooLarge);
    }
    var encoded := EncodeEnvelope(frame.envelope, payloadJson.value, PayloadTree(p));
    if |encoded| > MAX_CONTROL_FRAME_BYTES {
      return Err(FrameTooLarge);
    }
    return Ok(encoded);
  }

  // ----- decoding

  datatype Refusal =
    | FrameOverBound
    | MalformedJson
    | NotAnObject
    | UnsupportedVersion
    | UnknownType
    | EnvelopeViolations(violations: seq<Violation>)
    | PayloadViolations(violations: seq<Violation>)
    | HeaderViolations(violations: seq<Violation>)
    | PayloadUnencodable
    | PayloadOverBound

  /** Another value follows, as the library tells it: a closing bracket does not count. */
  predicate More(rest: string)
  {
    var t := SkipSpace(rest);
    t != "" && t[0] != ']' && t[0] != '}'
  }

  function ParseBounded(raw: string, maxBytes: nat): Result<seq<Member>, Refusal>
  {
    if |raw| > maxBytes then Err(FrameOverBound)
    else match ReadValue(raw)
      case None => Err(MalformedJson)
      case Some((v, rest)) =>
        if More(rest) then Err(MalformedJson)
        else if !v.Object? then Err(NotAnObject)
        else Ok(v.members)
  }

  function PayloadOf(near: Nearest, messageType: string, v: Value): Payload
  {
    if messageType == HEARTBEAT_TYPE then HeartbeatPayload(HeartbeatOf(near, v))
    else if messageType == ROUTE_PUBLISH_TYPE then RoutePublishPayload(RoutePublishOf(v))
    else if messageType == ROUTE_PUBLISH_ACK_TYPE then RoutePublishAckPayload(RoutePublishAckOf(v))
    else if messageType == RECONNECT_RESPONSE_TYPE then ReconnectResponsePayload(ReconnectResponseOf(v))
    else TreePayload(messageType, Normalised(near, PayloadSchema(messageType), v))
  }

  function EnvelopeFaults(near: Nearest, source: seq<Member>): seq<Violation>
  {
    Check(near, ENVELOPE, Object(source), "$")
  }

  function PayloadFaults(near: Nearest, messageType: string, v: Value): seq<Violation>
  {
    Check(near, PayloadSchema(messageType), v, "$.payload")
  }

  function DecodedFrame(near: Nearest, raw: string): Result<Frame, Refusal>
  {
    match ParseBounded(raw, MAX_CONTROL_FRAME_BYTES)
    case Err(e) => Err(e)
    case Ok(source) =>
      if AsInt64(Property(source, "protocol_version")) != Some(PROTOCOL_VERSION) then Err(UnsupportedVersion)
      else
        var messageType := Property(source, "type");
        if !messageType.String? || TextOf(messageType) !in MESSAGE_TYPES then Err(UnknownType)
        else if EnvelopeFaults(near, source) != [] then Err(EnvelopeViolations(EnvelopeFaults(near, source)))
        else
          match DecodedPayload(near, TextOf(messageType), Property(source, "payload"))
          case Err(e) => Err(e)
          case Ok(p) => Ok(Frame(EnvelopeOf(Object(source)), Some(p)))
  }

  function DecodedPayload(near: Nearest, messageType: string, v: Value): Result<Payload, Refusal>
  {
    var violations := PayloadFaults(near, messageType, v);
    if violations != [] then Err(PayloadViolations(violations))
    else
      var p := PayloadOf(near, messageType, v);
      if !IsFinite(p) then Err(PayloadUnencodable)
      else if |Render(PayloadTree(p))| > PayloadMaxBytes(messageType) then Err(PayloadOverBound)
      else Ok(p)
  }

  method DecodeRoutePublish(v: Value) returns (out: RoutePublish)
    ensures out == RoutePublishOf(v)
  {
    var source := Members(v);
    var sessions := DecodeSlice(Property(source, "allowed_browser_session_ids"), TextOf);
    out := RoutePublish(
      TextOf(Property(source, "route_id")),
      TextOf(Property(source, "project_id")),
      TextOf(Property(source, "workspace_id")),
      TextOf(Property(source, "local_host")),
      IntegerOf(Property(source, "local_port")),
      TextOf(Property(source, "protocol")),
      TextOf(Property(source, "expires_at")),
      sessions);
  }

  method DecodeReconnectResponse(v: Value) returns (out: ReconnectResponse)
    ensures out == ReconnectResponseOf(v)
  {
    var source := Members(v);
    var routes := DecodeSlice(Property(source, "routes"), RouteDecisionOf);
    var sessions := DecodeSlice(Property(source, "sessions"), SessionDecisionOf);
    out := ReconnectResponse(
      TextOf(Property(source, "reconciled_at")), TextOf(Property(source, "upgrade")), routes, sessions);
  }

  method DecodePayload(near: Nearest, messageType: string, v: Value) returns (p: Payload)
    ensures p == PayloadOf(near, messageType, v)
  {
    if messageType == ROUTE_PUBLISH_TYPE {
      var publish := DecodeRoutePublish(v);
      return RoutePublishPayload(publish);
    }
    if messageType == RECONNECT_RESPONSE_TYPE {
      var response := DecodeReconnectResponse(v);
      return ReconnectResponsePayload(response);
    }
    return PayloadOf(near, messageType, v);
  }

  method DecodeControlFrame(near: Nearest, raw: string) returns (r: Result<Frame, Refusal>)
    ensures r == DecodedFrame(near, raw)
  {
    var parsed := ParseBounded(raw, MAX_CONTROL_FRAME_BYTES);
    if parsed.Err? {
      return Err(parsed.error);
    }
    var source := parsed.value;
    var version := AsInt64(Property(source, "protocol_version"));
    if version.None? || version.value != PROTOCOL_VERSION {
      return Err(UnsupportedVersion);
    }
    var messageType := Property(source, "type");
    if !messageType.String? || messageType.text !in MESSAGE_TYPES {
      return Err(UnknownType);
    }
    var violations := ValidateEnvelope(near, source);
    if |violations| > 0 {
      return Err(EnvelopeViolations(violations));
    }
    var p := ValidatedPayload(near, messageType.text, Property(source, "payload"));
    if p.Err? {
      return Err(p.error);
    }
    return Ok(Frame(EnvelopeOf(Object(source)), Some(p.value)));
  }

  method ValidateEnvelope(near: Nearest, source: seq<Member>) returns (violations: seq<Violation>)
    ensures violations == EnvelopeFaults(near, source)
  {
    var validator := new Validation.Validator(near);
    validator.Validate(ENVELOPE, Object(source), "$");
    return validator.out;
  }

  method ValidatePayload(near: Nearest, messageType: string, v: Value) returns (violations: seq<Violation>)
    ensures violations == PayloadFaults(near, messageType, v)
  {
    var validator := new Validation.Validator(near);
    validator.Validate(PayloadSchema(messageType), v, "$.payload");
    return validator.out;
  }

  method ValidatedPayload(near: Nearest, messageType: string, v: Value) returns (r: Result<Payload, Refusal>)
    ensures r == DecodedPayload(near, messageType, v)
  {
    var violations := ValidatePayload(near, messageType, v);
    if |violations| > 0 {
      return Err(PayloadViolations(violations));
    }
    var p := DecodePayload(near, messageType, v);
    var encoded := EncodePayload(p);
    if encoded.Err? {
      return Err(PayloadUnencodable);
    }
    if |encoded.value| > PayloadMaxBytes(messageType) {
      return Err(PayloadOverBound);
    }
    return Ok(p);
  }

  // ----- the header of a data stream

  function EncodedHeader(header: DataStreamHeader): Result<string, EncodeError>
  {
    if |Render(DataStreamHeaderTree(header))| > MAX_DATA_STREAM_HEADER_BYTES then Err(FrameTooLarge)
    else Ok(Render(DataStreamHeaderTree(header)))
  }

  method EncodeDataStreamHeaderFrame(header: DataStreamHeader) returns (r: Result<string, EncodeError>)
    ensures r == EncodedHeader(header)
  {
    var w := new CanonicalWriter.Writer();
    Encoders.EncodeDataStreamHeaderInto(w, header);
    TopWrites(DataStreamHeaderTree(header));
    var encoded := w.buf;
    if |encoded| > MAX_DATA_STREAM_HEADER_BYTES {
      return Err(FrameTooLarge);
    }
    return Ok(encoded);
  }

  function DecodedHeader(near: Nearest, raw: string): Result<DataStreamHeader, Refusal>
  {
    match ParseBounded(raw, MAX_DATA_STREAM_HEADER_BYTES)
    case Err(e) => Err(e)
    case Ok(source) =>
      if HeaderFaults(near, source) != [] then Err(HeaderViolations(HeaderFaults(near, source)))
      else Ok(DataStreamHeaderOf(Object(source)))
  }

  function HeaderFaults(near: Nearest, source: seq<Member>): seq<Violation>
  {
    Check(near, DATA_STREAM_HEADER, Object(source), "$")
  }

  method DecodeDataStreamHeaderFrame(near: Nearest, raw: string) returns (r: Result<DataStreamHeader, Refusal>)
    ensures r == DecodedHeader(near, raw)
  {
    var parsed := ParseBounded(raw, MAX_DATA_STREAM_HEADER_BYTES);
    if parsed.Err? {
      return Err(parsed.error);
    }
    var violations := ValidateDataStreamHeader(near, parsed.value);
    if |violations| > 0 {
      return Err(HeaderViolations(violations));
    }
    return Ok(DataStreamHeaderOf(Object(parsed.value)));
  }

  method ValidateDataStreamHeader(near: Nearest, source: seq<Member>) returns (violations: seq<Violation>)
    ensures violations == HeaderFaults(near, source)
  {
    var validator := new Validation.Validator(near);
    validator.Validate(DATA_STREAM_HEADER, Object(source), "$");
    return validator.out;
  }
}
