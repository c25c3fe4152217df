/**
 * The schemas of the four message types whose payloads are kept as trees. Their names
 * are told apart and can be written, which is all that reading them back needs.
 */
module TreeMessages {
  import opened Bytes
  import opened JsonText
  import opened Json
  import opened Schema
  import opened CanonicalForm
  import opened Messages
  import opened MessageBounds

  const DIGEST := Text(8, 128, DigestPattern)
  const WEBSOCKET_URL := Text(8, 2048, WebsocketPattern)
  const GIT_BRANCH := Text(1, 255, PrintablePattern)
  const GIT_COMMIT := Text(7, 64, HexPattern)
  const CAPABILITIES := List(0, 32, true, Text(1, 64, CapabilityPattern))

  const ENVIRONMENT_FIELDS := [
    Field("name", Text(1, 128, PrintablePattern), true),
    Field("platform", Text(1, 32, LowerAlnumPattern), true),
    Field("architecture", Text(1, 32, LowerWordPattern), true),
    Field("labels", List(0, 16, true, Text(1, 64, LabelPattern)), false)]

  const ENVIRONMENT := Struct(ENVIRONMENT_FIELDS, [])

  const CONNECTOR_FIELDS := [
    Field("version", VERSION, true),
    Field("capabilities", CAPABILITIES, true)]

  const CONNECTOR := Struct(CONNECTOR_FIELDS, [])

  const REGISTRATION_REQUEST_FIELDS := [
    Field("enrolment_token", Text(16, 256, TokenPattern), true),
    Field("public_key", Text(32, 2048, Base64Pattern), true),
    Field("environment", ENVIRONMENT, true),
    Field("connector", CONNECTOR, true)]

  const REGISTRATION_REQUEST := Struct(REGISTRATION_REQUEST_FIELDS, [])

  const SIGNED_IDENTITY_FIELDS := [
    Field("certificate", Text(32, 8192, Base64Pattern), true),
    Field("certificate_fingerprint", DIGEST, true),
    Field("expires_at", TIMESTAMP, true)]

  const SIGNED_IDENTITY := Struct(SIGNED_IDENTITY_FIELDS, [])

  const ENDPOINTS_FIELDS := [
    Field("control_url", WEBSOCKET_URL, true),
    Field("data_url", WEBSOCKET_URL, true)]

  const ENDPOINTS := Struct(ENDPOINTS_FIELDS, [])

  const REGISTRATION_RESPONSE_FIELDS := [
    Field("connector_id", IDENTIFIER, true),
    Field("signed_identity", SIGNED_IDENTITY, true),
    Field("control_plane_endpoints", ENDPOINTS, true),
    Field("policy_digest", DIGEST, true)]

  const REGISTRATION_RESPONSE := Struct(REGISTRATION_RESPONSE_FIELDS, [])

  const RECONNECT_ROUTE_FIELDS := [
    Field("route_id", IDENTIFIER, true),
    Field("project_id", IDENTIFIER, true),
    Field("workspace_id", IDENTIFIER, true),
    Field("observed_destination", OBSERVED_DESTINATION, true),
    Field("expires_at", TIMESTAMP, true)]

  const RECONNECT_ROUTE := Struct(RECONNECT_ROUTE_FIELDS, [])

  const RECONNECT_STREAM_FIELDS := [
    Field("stream_id", IDENTIFIER, true),
    Field("route_id", IDENTIFIER, true),
    Field("browser_session_id", IDENTIFIER, true),
    Field("deadline", TIMESTAMP, true)]

  const RECONNECT_STREAM := Struct(RECONNECT_STREAM_FIELDS, [])

  const WORKSPACE_HEAD_FIELDS := [
    Field("workspace_id", IDENTIFIER, true),
    Field("branch", GIT_BRANCH, true),
    Field("head_commit", GIT_COMMIT, true),
    Field("dirty", Boolean, true)]

  const WORKSPACE_HEAD := Struct(WORKSPACE_HEAD_FIELDS, [])

  const RECONNECT_REQUEST_FIELDS := [
    Field("connector_version", VERSION, true),
    Field("capabilities", CAPABILITIES, true),
    Field("active_routes", List(0, 16, false, RECONNECT_ROUTE), true),
    Field("active_streams", List(0, 32, false, RECONNECT_STREAM), true),
    Field("known_agent_sessions", List(0, 32, true, IDENTIFIER), true),
    Field("workspace_head_state", List(0, 8, false, WORKSPACE_HEAD), true)]

  const RECONNECT_REQUEST := Struct(RECONNECT_REQUEST_FIELDS, [])

  const WORKSPACE_OBSERVATION_FIELDS := [
    Field("workspace_id", IDENTIFIER, true),
    Field("project_id", IDENTIFIER, true),
    Field("path_hash", Text(71, 71, PathHashPattern), true),
    Field("display_label", Text(1, 128, NamePattern), true),
    Field("repository_identity", Text(3, 255, RepositoryPattern), false),
    Field("branch", GIT_BRANCH, true),
    Field("head_commit", GIT_COMMIT, true),
    Field("dirty", Boolean, true),
    Field("observed_at", TIMESTAMP, true)]

  const WORKSPACE_OBSERVATION := Struct(WORKSPACE_OBSERVATION_FIELDS, [])

  predicate Readable(s: Schema)
  {
    Sound(s) && NamesAreValid(s)
  }

  /**
   * What that is for: the canonical form of a conforming tree that was read is valid,
   * its text reads back, and every property of the schema is found in it in its own
   * canonical form exactly when it was there.
   */
  lemma TreeIsReadBack(near: Nearest, s: Schema, v: Value)
    requires s.Struct? && Readable(s) && Settles(near) && Canonical(v) && Conforms(near, s, v)
    ensures var w := Normalised(near, s, v);
            && Conforms(near, s, w) && ReadValue(Render(w)) == Some((w, ""))
            && forall k | 0 <= k < |s.fields| ::
                 Lookup(w.members, s.fields[k].name) == SlotValue(near, s.fields[k], Lookup(v.members, s.fields[k].name))
  {
    var w := Normalised(near, s, v);
    NormalisedConforms(near, s, v);
    NormalisedIsCanonical(near, s, v);
    ReadRendered(w, "");
    assert Render(w) + "" == Render(w);
    forall k | 0 <= k < |s.fields|
      ensures Lookup(w.members, s.fields[k].name) == SlotValue(near, s.fields[k], Lookup(v.members, s.fields[k].name))
    {
      LookupSlots(near, s.fields, s.rules, v.members, k);
    }
  }

  lemma StructIsReadable(fields: seq<Field>)
    requires Differ(fields)
    requires forall i | 0 <= i < |fields| :: AllPlain(fields[i].name) && Readable(fields[i].schema)
    ensures Readable(Struct(fields, []))
  {
    forall i | 0 <= i < |fields| ensures ValidText(fields[i].name) {
      PlainText(fields[i].name);
    }
  }

  lemma EnvironmentDiffer()
    ensures Differ(ENVIRONMENT_FIELDS)
  {
  }

  lemma EnvironmentNames()
    ensures AllPlain("name") && AllPlain("platform")
    ensures AllPlain("architecture") && AllPlain("labels")
  {
  }

  lemma EnvironmentIsReadable()
    ensures Readable(ENVIRONMENT)
  {
    var f := ENVIRONMENT_FIELDS;
    EnvironmentDiffer();
    EnvironmentNames();
    forall i | 0 <= i < |f| ensures AllPlain(f[i].name) && Readable(f[i].schema) {
      assert i == 0 || i == 1 || i == 2 || i == 3;
    }
    StructIsReadable(f);
  }

  lemma ConnectorDiffer()
    ensures Differ(CONNECTOR_FIELDS)
  {
  }

  lemma ConnectorNames()
    ensures AllPlain("version") && AllPlain("capabilities")
  {
  }

  lemma ConnectorIsReadable()
    ensures Readable(CONNECTOR)
  {
    var f := CONNECTOR_FIELDS;
    ConnectorDiffer();
    ConnectorNames();
    forall i | 0 <= i < |f| ensures AllPlain(f[i].name) && Readable(f[i].schema) {
      assert i == 0 || i == 1;
    }
    StructIsReadable(f);
  }

  lemma RegistrationRequestDiffer()
    ensures Differ(REGISTRATION_REQUEST_FIELDS)
  {
  }

  lemma RegistrationRequestNames()
    ensures AllPlain("enrolment_token") && AllPlain("public_key")
    ensures AllPlain("environment") && AllPlain("connector")
  {
  }

  lemma RegistrationRequestIsReadable()
    ensures Readable(REGISTRATION_REQUEST)
  {
    var f := REGISTRATION_REQUEST_FIELDS;
    RegistrationRequestDiffer();
    RegistrationRequestNames();
    EnvironmentIsReadable();
    ConnectorIsReadable();
    forall i | 0 <= i < |f| ensures AllPlain(f[i].name) && Readable(f[i].schema) {
      assert i == 0 || i == 1 || i == 2 || i == 3;
    }
    StructIsReadable(f);
  }

  lemma SignedIdentityDiffer()
    ensures Differ(SIGNED_IDENTITY_FIELDS)
  {
  }

  lemma SignedIdentityNames()
    ensures AllPlain("certificate") && AllPlain("certificate_fingerprint")
    ensures AllPlain("expires_at")
  {
  }

  lemma SignedIdentityIsReadable()
    ensures Readable(SIGNED_IDENTITY)
  {
    var f := SIGNED_IDENTITY_FIELDS;
    SignedIdentityDiffer();
    SignedIdentityNames();
    forall i | 0 <= i < |f| ensures AllPlain(f[i].name) && Readable(f[i].schema) {
      assert i == 0 || i == 1 || i == 2;
    }
    StructIsReadable(f);
  }

  lemma EndpointsDiffer()
    ensures Differ(ENDPOINTS_FIELDS)
  {
  }

  lemma EndpointsNames()
    ensures AllPlain("control_url") && AllPlain("data_url")
  {
  }

  lemma EndpointsIsReadable()
    ensures Readable(ENDPOINTS)
  {
    var f := ENDPOINTS_FIELDS;
    EndpointsDiffer();
    EndpointsNames();
    forall i | 0 <= i < |f| ensures AllPlain(f[i].name) && Readable(f[i].schema) {
      assert i == 0 || i == 1;
    }
    StructIsReadable(f);
  }

  lemma RegistrationResponseDiffer()
    ensures Differ(REGISTRATION_RESPONSE_FIELDS)
  {
  }

  lemma RegistrationResponseNames()
    ensures AllPlain("connector_id") && AllPlain("signed_identity")
    ensures AllPlain("control_plane_endpoints") && AllPlain("policy_digest")
  {
  }

  lemma RegistrationResponseIsReadable()
    ensures Readable(REGISTRATION_RESPONSE)
  {
    var f := REGISTRATION_RESPONSE_FIELDS;
    RegistrationResponseDiffer();
    RegistrationResponseNames();
    SignedIdentityIsReadable();
    EndpointsIsReadable();
    forall i | 0 <= i < |f| ensures AllPlain(f[i].name) && Readable(f[i].schema) {
      assert i == 0 || i == 1 || i == 2 || i == 3;
    }
    StructIsReadable(f);
  }

  lemma ReconnectRouteDiffer()
    ensures Differ(RECONNECT_ROUTE_FIELDS)
  {
  }

  lemma ReconnectRouteNames()
    ensures AllPlain("route_id") && AllPlain("project_id")
    ensures AllPlain("workspace_id") && AllPlain("observed_destination")
    ensures AllPlain("expires_at")
  {
  }

  lemma ReconnectRouteIsReadable()
    ensures Readable(RECONNECT_ROUTE)
  {
    var f := RECONNECT_ROUTE_FIELDS;
    ReconnectRouteDiffer();
    ReconnectRouteNames();
    forall i | 0 <= i < |f| ensures AllPlain(f[i].name) && Readable(f[i].schema) {
      assert i == 0 || i == 1 || i == 2 || i == 3 || i == 4;
    }
    StructIsReadable(f);
  }

  lemma ReconnectStreamDiffer()
    ensures Differ(RECONNECT_STREAM_FIELDS)
  {
  }

  lemma ReconnectStreamNames()
    ensures AllPlain("stream_id") && AllPlain("route_id")
    ensures AllPlain("browser_session_id") && AllPlain("deadline")
  {
  }

  lemma ReconnectStreamIsReadable()
    ensures Readable(RECONNECT_STREAM)
  {
    var f := RECONNECT_STREAM_FIELDS;
    ReconnectStreamDiffer();
    ReconnectStreamNames();
    forall i | 0 <= i < |f| ensures AllPlain(f[i].name) && Readable(f[i].schema) {
      assert i == 0 || i == 1 || i == 2 || i == 3;
    }
    StructIsReadable(f);
  }

  lemma WorkspaceHeadDiffer()
    ensures Differ(WORKSPACE_HEAD_FIELDS)
  {
  }

  lemma WorkspaceHeadNames()
    ensures AllPlain("workspace_id") && AllPlain("branch")
    ensures AllPlain("head_commit") && AllPlain("dirty")
  {
  }

  lemma WorkspaceHeadIsReadable()
    ensures Readable(WORKSPACE_HEAD)
  {
    var f := WORKSPACE_HEAD_FIELDS;
    WorkspaceHeadDiffer();
    WorkspaceHeadNames();
    forall i | 0 <= i < |f| ensures AllPlain(f[i].name) && Readable(f[i].schema) {
      assert i == 0 || i == 1 || i == 2 || i == 3;
    }
    StructIsReadable(f);
  }

  lemma ReconnectRequestDiffer()
    ensures Differ(RECONNECT_REQUEST_FIELDS)
  {
  }

  lemma ReconnectRequestNames()
    ensures AllPlain("connector_version") && AllPlain("capabilities")
    ensures AllPlain("active_routes") && AllPlain("active_streams")
    ensures AllPlain("known_agent_sessions")
  {
  }

  lemma WorkspaceStateName()
    ensures AllPlain("workspace_head_state")
  {
  }

  lemma ReconnectRequestIsReadable()
    ensures Readable(RECONNECT_REQUEST)
  {
    var f := RECONNECT_REQUEST_FIELDS;
    ReconnectRequestDiffer();
    ReconnectRequestNames();
    WorkspaceStateName();
    ReconnectRouteIsReadable();
    ReconnectStreamIsReadable();
    WorkspaceHeadIsReadable();
    forall i | 0 <= i < |f| ensures AllPlain(f[i].name) && Readable(f[i].schema) {
      assert i == 0 || i == 1 || i == 2 || i == 3 || i == 4 || i == 5;
    }
    StructIsReadable(f);
  }

  lemma WorkspaceObservationDiffer()
    ensures Differ(WORKSPACE_OBSERVATION_FIELDS)
  {
  }

  lemma ObservedWorkspaceNames()
    ensures AllPlain("workspace_id") && AllPlain("project_id")
    ensures AllPlain("path_hash") && AllPlain("display_label")
    ensures AllPlain("repository_identity")
  {
  }

  lemma ObservedStateNames()
    ensures AllPlain("branch") && AllPlain("head_commit")
    ensures AllPlain("dirty") && AllPlain("observed_at")
  {
  }

  lemma WorkspaceObservationIsReadable()
    ensures Readable(WORKSPACE_OBSERVATION)
  {
    var f := WORKSPACE_OBSERVATION_FIELDS;
    WorkspaceObservationDiffer();
    ObservedWorkspaceNames();
    ObservedStateNames();
    forall i | 0 <= i < |f| ensures AllPlain(f[i].name) && Readable(f[i].schema) {
      assert i == 0 || i == 1 || i == 2 || i == 3 || i == 4 || i == 5 || i == 6 || i == 7 || i == 8;
    }
    StructIsReadable(f);
  }
}
