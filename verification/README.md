# The protocol runtime, modelled and proved

This project models the wire code that the connector, the control plane, the browser
worker and the web client share: live-view record framing, canonical JSON and the frame
entry points above it, route capabilities, pagination cursors, repository identities,
annotation geometry, and the pruning of tool schemas. Each part is stated in the form it
has in the program (loops over buffers as methods with invariants, objects that hold
state as classes, expressions as functions) and is proved against a meaning of its own.

`dafny verify dfyconfig.toml` checks everything.

| module | what it is about |
|---|---|
| `Bytes`, `Strings`, `Utf8`, `Base64` | big-endian numbers, string operations, UTF-8 over UTF-16 code units, unpadded base64url |
| `LiveStream` | length-prefixed records, the incremental decoder, the worker's transport |
| `Capability` | the payload layout, minting and verifying, in TypeScript and in Go |
| `RepositoryIdentity`, `RepositoryIdentityLaws` | the clone-URL normaliser and sanitiser, and their laws |
| `JsonText`, `Json`, `JsonNumber` | string escaping, JSON trees with their renderer and an RFC 8259 reader, ECMAScript number text |
| `CanonicalWriter` | the imperative writer, against the renderer |
| `Schema`, `CanonicalForm`, `Validation` | what a schema means, the canonical form of a conforming tree, the validators |
| `Messages`, `MessageBounds`, `TreeMessages`, `ControlEnvelope`, `Encoders` | the connector messages: schemas, typed values, decoders, encoders, size bounds |
| `Frames`, `FrameLaws`, `HeaderLaws` | the frame entry points and their laws |
| `Cursor` | pagination cursors |
| `Geometry`, `Stroke` | annotation geometry over the reals, stroke decimation |
| `ToolSchemas` | `$ref` reachability and the published tool schema |

A Go string is a sequence of bytes; it is written as a `string` whose characters stand
for bytes. A JavaScript string is a sequence of UTF-16 code units. The MAC is an arbitrary
function. The conversion of a number's text to a float64 is an arbitrary function that
settles: what it gives, written and read again, is itself.

## What turned out different from the documentation

* `writeFrame` writes the metadata record before it finds that the payload is over its
  bound, so an oversized payload leaves metadata with no payload after it
  (`MetadataIsFollowedByItsPayload` gives the exact condition, `OrphanMetadataExample` an
  input).
* A capability payload that the TypeScript reader accepts lays out to itself exactly when
  its fields are valid UTF-8, because the reader replaces bytes that are not
  (`RelayoutIsExact`); claims come back unchanged exactly when no field has a lone
  surrogate (`PayloadRoundTrip`). The Go reader takes a token with a line break at its end
  for the same token (`GoTokenIsNotUnique`).
* Sanitising a clone URL can change what it names. A value with no scheme whose first
  userinfo has a colon, and whose rest looks scp-like, loses its host:
  `SanitisingKeepsIdentity` says exactly when, `LosesHostExample` gives a whole family.
* A canonical identity that still ends in `.git` is not a fixed point
  (`CanonicalIsFixed`). One `.git` is taken off whatever is under it
  (`OneSuffixIsDropped`), so every value with two of them has such an identity
  (`TwoSuffixesAreNotFixed`): `h/a.git.git` becomes `h/a.git`, which becomes `h/a`.
* The frame parser refuses trailing data unless its first character is a closing bracket,
  after which anything may follow (`TrailingDataIsRefused`, `BracketsAreAccepted`).
* A valid publication can be over the bound of its message type
  (`PublicationsCanBeTooLarge`, with a whole frame in `LargePublicationExample`); no other
  typed payload can (`OnlyPublicationsAreTooLarge`).
* A cursor can be decoded whose claims do not fit a cursor: the canonical text writes
  U+2028 in six bytes where a caller may have three. `DecodedClaimsAreValid` says exactly
  which decoded claims are encoded again, `OverlongExample` gives a family that is not.

## Model

| member | source | states |
|---|---|---|
| `LiveStream.EncodeLiveRecord` | packages/protocol/src/live-view-stream.ts:41-61 | a record within its bound becomes its kind byte, its big-endian length and its bytes; a longer one is refused |
| `LiveStream.ScanSplits` | packages/protocol/src/live-view-stream.ts:83-119 | every byte stream is whole in-bound records followed by a rest that starts none |
| `LiveStream.ScanIsUnique` | packages/protocol/src/live-view-stream.ts:83-119 | records written one after the other are the ones found, so the split is the only one |
| `LiveStream.LiveRecordDecoder.Push` | packages/protocol/src/live-view-stream.ts:83-119 | a push returns the records that became complete, or throws, and the buffer is exactly the rest of the scan |
| `LiveStream.LiveRecordDecoder.constructor` | packages/protocol/src/live-view-stream.ts:75-81 | a new decoder holds no bytes |
| `LiveStream.ChunkingIndependence` | packages/protocol/src/live-view-stream.ts:83-119 | however a stream is cut, the same bytes are held at the end and, without a framing error, the same records are delivered; with one, some push throws |
| `LiveStream.PushThrowsOnFramingError` | packages/protocol/src/live-view-stream.ts:83-119 | a push throws exactly when the stream up to it has a framing error, and the last one throws whenever the stream has one |
| `LiveStream.PendingIsBounded` | packages/protocol/src/live-view-stream.ts:79-119 | without an error the bytes held are fewer than a header plus the bound of their kind |
| `LiveStream.ResponseTransport.OnDrain` | apps/browser-worker/src/http-server.ts:113-118 | a drain clears the saturation and nothing else |
| `LiveStream.ResponseTransport.WriteMessage` | apps/browser-worker/src/http-server.ts:123-126 | the new state of the transport is the step of the event, on a closed response nothing |
| `LiveStream.ResponseTransport.WriteFrame` | apps/browser-worker/src/http-server.ts:127-133 | the new state of the transport is the step of the event, metadata before payload |
| `LiveStream.RecordRoundTrip` | apps/browser-worker/src/http-server.ts:113-133 | after any run of the transport and any cutting, the decoder returns exactly the records written and holds nothing |
| `LiveStream.PayloadFollowsItsMetadata` | apps/browser-worker/src/http-server.ts:127-133 | in every run a payload record stands right after its own metadata |
| `LiveStream.MetadataIsFollowedByItsPayload` | apps/browser-worker/src/http-server.ts:127-133 | a frame's metadata is followed by its payload exactly when the payload is within its bound |
| `LiveStream.OrphanMetadataExample` | apps/browser-worker/src/http-server.ts:127-133 | an oversized payload that leaves its metadata alone |
| `Utf8.ByteLength` | packages/protocol/src/canonical.ts:54-76 | the count is the length of the UTF-8 encoding, a lone surrogate counting three |
| `Utf8.ByteLengthIsAdditive` | packages/protocol/src/canonical.ts:54-76 | the count adds up over a cut exactly when the cut is not inside a surrogate pair, and is off by two when it is |
| `Utf8.DecodeEncode` | packages/protocol/src/capability.ts:156-160 | encoding and decoding a string gives it back exactly when it has no lone surrogate |
| `Utf8.EncodeDecode` | packages/protocol/src/capability.ts:204-213 | decoding and encoding bytes gives them back exactly when they are valid UTF-8 |
| `Base64.DecodeExactIsInverse` | packages/protocol/src/capability.ts:128-138 | the TypeScript decoder accepts exactly the one encoding of what it returns |
| `Base64.DecodeLaxOfEncode` | packages/protocol/connectorv1/capability.go:169-205 | the Go decoder undoes the encoder |
| `Base64.LaxSkipsLineBreak` | packages/protocol/connectorv1/capability.go:169-205 | the Go decoder does not see a line break at the end |
| `Capability.AppendField` | packages/protocol/src/capability.ts:156-160 | a length byte and the UTF-8 bytes are appended |
| `Capability.AppendUint64` | packages/protocol/src/capability.ts:162-167 | eight big-endian bytes are appended |
| `Capability.EncodeCapabilityPayload` | packages/protocol/src/capability.ts:147-194 | the loops write exactly the layout of the claims, or refuse them for the first bound they miss |
| `Capability.ReadFieldAt` | packages/protocol/src/capability.ts:204-213 | the field at the cursor and the cursor after it, or nothing when it does not fit |
| `Capability.ReadUint64` | packages/protocol/src/capability.ts:215-221 | the big-endian value of the eight bytes at the cursor |
| `Capability.DecodeCapabilityPayload` | packages/protocol/src/capability.ts:223-272 | the cursor reads exactly the fields of the layout, with nothing left over |
| `Capability.ParseOfLayout` | packages/protocol/connectorv1/capability.go:217-300 | what is laid out is parsed back |
| `Capability.LayoutOfParse` | packages/protocol/connectorv1/capability.go:217-300 | what is parsed lays out to the same bytes |
| `Capability.PayloadRoundTrip` | packages/protocol/src/capability.ts:169-272 | decoding an encoded payload gives the claims with lone surrogates replaced, the claims themselves exactly when there are none |
| `Capability.RelayoutIsExact` | packages/protocol/src/capability.ts:223-272 | laying an accepted payload's claims out again gives the payload exactly when its fields are valid UTF-8 |
| `Capability.MintNeverTooLong` | packages/protocol/src/capability.ts:281-298 | every token that can be minted is at most 462 characters, so the bound of 512 refuses none |
| `Capability.VerifyExactly` | packages/protocol/src/capability.ts:314-349 | a token is accepted exactly when it is the signed token of a payload under the key the payload names, within the bound and before its expiry |
| `Capability.MintedVerifies` | packages/protocol/src/capability.ts:281-349 | a minted token verifies to its claims at every instant before expiry, under every keyring with its key |
| `Capability.TokenIsUnique` | packages/protocol/src/capability.ts:132-145 | an accepted token is the one layout of its claims exactly when the payload's fields are valid UTF-8 |
| `Capability.InexactExamples` | packages/protocol/src/capability.ts:204-213 | a payload that is not laid out the same, and claims that do not come back |
| `Capability.GoPayloadIsExact` | packages/protocol/connectorv1/capability.go:217-300 | over raw bytes the codec is exact both ways |
| `Capability.GoVerifyExactly` | packages/protocol/connectorv1/capability.go:169-205 | the Go verifier accepts a token exactly when it is within the bound, has three parts, its decoder reads the second as the layout of the claims and the third as the MAC of that under the key they name, and they have not expired |
| `Capability.GoVerifyIsSound` | packages/protocol/connectorv1/capability.go:169-205 | the Go verifier accepts only what carries the signature of the layout of the claims it returns |
| `Capability.GoMintedVerifies` | packages/protocol/connectorv1/capability.go:141-205 | a Go token verifies to its claims before its expiry |
| `Capability.GoTokenIsNotUnique` | packages/protocol/connectorv1/capability.go:169-205 | the Go verifier gives the same answer for a token with a line break after it |
| `RepositoryIdentity.Utf16Length` | packages/protocol/platformv1/repository_identity.go:343-352 | the loop counts UTF-16 code units |
| `RepositoryIdentity.SplitSchemeLoop` | packages/protocol/platformv1/repository_identity.go:234-254 | the scheme before "://" and what follows, or none |
| `RepositoryIdentity.StartsWithPortLoop` | packages/protocol/platformv1/repository_identity.go:283-290 | digits up to a slash or the end |
| `RepositoryIdentity.SplitPortLoop` | packages/protocol/platformv1/repository_identity.go:292-309 | a last colon followed by one to five digits |
| `RepositoryIdentity.SegmentsLoop` | packages/protocol/platformv1/repository_identity.go:145-155 | the trimmed pieces between slashes that are not empty |
| `RepositoryIdentity.CanonicaliseCloneURL` | packages/protocol/platformv1/repository_identity.go:88-176 | the whole normaliser, step by step, is the function that the laws are about |
| `RepositoryIdentityLaws.SpellingReduces` | packages/protocol/platformv1/repository_identity.go:88-176 | a value in any of the accepted forms is reduced to its host, effective port and path |
| `RepositoryIdentityLaws.SpellingIndependence` | packages/protocol/platformv1/repository_identity.go:88-176 | userinfo, scheme, default port, host case, suffix, extra slashes and form do not change the canonical string |
| `RepositoryIdentityLaws.CanonicalHasParts` | packages/protocol/platformv1/repository_identity.go:160-176 | every canonical string is assembled from a host, an optional port and segments |
| `RepositoryIdentityLaws.CanonicalIsFixed` | packages/protocol/platformv1/repository_identity.go:88-176 | a canonical string is a fixed point exactly when it does not still end in ".git" |
| `RepositoryIdentityLaws.OneSuffixIsDropped` | packages/protocol/platformv1/repository_identity.go:156-176 | one ".git", in any case, is taken off the last segment, whatever that segment ends in under it |
| `RepositoryIdentityLaws.TwoSuffixesAreNotFixed` | packages/protocol/platformv1/repository_identity.go:88-176 | with two suffixes on any legal parts the result still ends in ".git", and canonicalises to another identity |
| `RepositoryIdentityLaws.TwoSuffixesExample` | packages/protocol/platformv1/repository_identity.go:88-176 | "h/a.git.git" gives "h/a.git", which is no fixed point |
| `RepositoryIdentityLaws.SanitisingKeepsIdentity` | packages/protocol/platformv1/repository_identity.go:207-227 | sanitising keeps the identity exactly when the value is not one that loses its host |
| `RepositoryIdentityLaws.HostIsLost` | packages/protocol/platformv1/repository_identity.go:207-227 | in the other case the sanitised value has no host |
| `RepositoryIdentityLaws.LosesHostExample` | packages/protocol/platformv1/repository_identity.go:207-227 | a family of accepted values whose sanitised form is refused |
| `JsonText.EscapeAt` | packages/protocol/connectorv1/canonical_gen.go:122-167 | what one turn of the loop appends, and how far it moves |
| `JsonText.AppendJSONString` | packages/protocol/connectorv1/canonical_gen.go:122-167 | the index loop appends the quoted text |
| `JsonText.EscapeRoundTrip` | packages/protocol/connectorv1/canonical_gen.go:122-167 | reading an escaped text gives it back exactly when it is valid UTF-8; otherwise each invalid byte is U+FFFD |
| `JsonText.EscapeIsInjective` | packages/protocol/connectorv1/canonical_gen.go:122-167 | different valid texts are written differently |
| `JsonText.EscapeIsPlain` | packages/protocol/connectorv1/canonical_gen.go:122-167 | no raw control byte, U+2028 or U+2029 is written |
| `JsonText.ReadStringIsValid` | packages/protocol/connectorv1/frame.go:53-58 | whatever string is read is valid UTF-8 |
| `JsonNumber.FormatDenotesExactly` | packages/protocol/connectorv1/canonical_gen.go:174-223 | in all four branches the text is a JSON number and denotes exactly the value |
| `JsonNumber.FormatIsInjective` | packages/protocol/connectorv1/canonical_gen.go:174-223 | different numbers print differently |
| `JsonNumber.FormatIsShort` | packages/protocol/connectorv1/canonical_gen.go:174-223 | a float64 takes at most 25 characters |
| `JsonNumber.IntegerRoundTrip` | packages/protocol/connectorv1/canonical_gen.go:85-87 | an integer's text is a JSON number, and a 64-bit one is parsed back |
| `Json.ReadRendered` | packages/protocol/connectorv1/frame.go:53-61 | reading the rendering of a canonical tree gives the tree and leaves what follows |
| `Json.RenderIsInjective` | packages/protocol/connectorv1/encode_gen.go:6-9 | equal bytes come from equal trees |
| `Json.ReadIsCanonical` | packages/protocol/connectorv1/frame.go:53-58 | every tree that is read can be rendered and read again |
| `CanonicalWriter.CallsRender` | packages/protocol/connectorv1/canonical_gen.go:28-115 | for every tree and every state, the calls append exactly its rendering and leave the flags as they were |
| `CanonicalWriter.Writer.OpenObject` | packages/protocol/connectorv1/canonical_gen.go:34-37 | the step of the call, and an empty open object in the document |
| `CanonicalWriter.Writer.CloseObject` | packages/protocol/connectorv1/canonical_gen.go:39-42 | the step of the call; the finished object is put where a value was expected |
| `CanonicalWriter.Writer.OpenArray` | packages/protocol/connectorv1/canonical_gen.go:44-47 | the step of the call, and an empty open array in the document |
| `CanonicalWriter.Writer.CloseArray` | packages/protocol/connectorv1/canonical_gen.go:49-52 | the step of the call; the finished array is put where a value was expected |
| `CanonicalWriter.Writer.Separate` | packages/protocol/connectorv1/canonical_gen.go:60-69 | a comma, except before a first entry and outside everything |
| `CanonicalWriter.Writer.WriteKey` | packages/protocol/connectorv1/canonical_gen.go:71-75 | separator, quoted name and colon; the document waits for the value |
| `CanonicalWriter.Writer.WriteItem` | packages/protocol/connectorv1/canonical_gen.go:77-79 | the separator; the document waits for the value |
| `CanonicalWriter.Writer.WriteString` | packages/protocol/connectorv1/canonical_gen.go:81-83 | the quoted text, put into the document |
| `CanonicalWriter.Writer.WriteInteger` | packages/protocol/connectorv1/canonical_gen.go:85-87 | the integer's text is appended and joins the document |
| `CanonicalWriter.Writer.WriteBoolean` | packages/protocol/connectorv1/canonical_gen.go:98-104 | the word is appended and joins the document |
| `CanonicalWriter.Writer.WriteNumber` | packages/protocol/connectorv1/canonical_gen.go:89-96 | the ECMAScript text, or an error and "0" for what JSON cannot hold |
| `CanonicalWriter.Writer.WriteRaw` | packages/protocol/connectorv1/canonical_gen.go:106-108 | a rendered value goes in as it is |
| `CanonicalWriter.Writer.Result` | packages/protocol/connectorv1/canonical_gen.go:110-115 | the buffer, or the error that was remembered |
| `CanonicalWriter.PutValueWrites` | packages/protocol/connectorv1/canonical_gen.go:60-79 | a value put into a partly written document is what is written next, at every depth |
| `Schema.LookupPresent` | packages/protocol/connectorv1/decode_gen.go:139-153 | an optional property is found exactly when it was written |
| `Schema.SortedKeysAreTheNames` | packages/protocol/connectorv1/validate_runtime_gen.go:239-246 | every property once, in byte order |
| `Schema.CheckIsExact` | packages/protocol/connectorv1/validate_runtime_gen.go:37-187 | for every schema and tree, no violation is reported exactly when the tree conforms |
| `Validation.Validator.CheckString` | packages/protocol/connectorv1/validate_runtime_gen.go:37-66 | appends the violation of a text's type, length or pattern, and nothing for a conforming one |
| `Validation.Validator.CheckValues` | packages/protocol/connectorv1/validate_runtime_gen.go:37-49 | the same for a closed vocabulary |
| `Validation.Validator.CheckInteger` | packages/protocol/connectorv1/validate_runtime_gen.go:68-87 | the same for an integer, a fraction told apart from another type |
| `Validation.Validator.CheckNumber` | packages/protocol/connectorv1/validate_runtime_gen.go:89-104 | the same for a number |
| `Validation.Validator.CheckBoolean` | packages/protocol/connectorv1/validate_runtime_gen.go:106-112 | the same for a boolean |
| `Validation.Validator.CheckArray` | packages/protocol/connectorv1/validate_runtime_gen.go:114-140 | size faults before repetition, found by the set of keys seen |
| `Validation.Validator.CheckPlainObject` | packages/protocol/connectorv1/validate_runtime_gen.go:142-148 | the same for an object |
| `Validation.Validator.CheckObject` | packages/protocol/connectorv1/validate_runtime_gen.go:153-170 | unknown properties in byte order, then missing ones in schema order |
| `Validation.Validator.RequireProperty` | packages/protocol/connectorv1/validate_runtime_gen.go:177-181 | reports an absent property |
| `Validation.Validator.ForbidProperty` | packages/protocol/connectorv1/validate_runtime_gen.go:183-187 | reports a present property |
| `Validation.Validator.Validate` | packages/protocol/connectorv1/validate_gen.go:30-879 | the loops of the generated validators append exactly the violations that the schema's meaning gives |
| `CanonicalForm.NormalisedConforms` | packages/protocol/connectorv1/decode_gen.go:6-8 | the canonical form of a conforming tree conforms, and is its own canonical form |
| `CanonicalForm.ConformingIsCanonical` | packages/protocol/connectorv1/validate_gen.go:30-879 | a conforming tree in canonical form reads back, and is no longer than its schema allows |
| `CanonicalForm.NormalisedIsCanonical` | packages/protocol/connectorv1/decode_gen.go:6-8 | the canonical form of what was read reads back |
| `Messages.DecodeSlice` | packages/protocol/connectorv1/decode_runtime_gen.go:30-40 | the appending loop decodes every item in order |
| `Messages.RoutePublishIsRead` | packages/protocol/connectorv1/decode_gen.go:124-136 | decoding the tree of a publication gives the publication |
| `Messages.RoutePublishIsNormalised` | packages/protocol/connectorv1/decode_gen.go:124-136 | decoding a conforming tree and writing it again gives its canonical form |
| `Messages.RoutePublishAckIsRead` | packages/protocol/connectorv1/decode_gen.go:139-153 | the same for an acknowledgement, with its optional properties |
| `Messages.RoutePublishAckIsNormalised` | packages/protocol/connectorv1/decode_gen.go:139-153 | the same for an acknowledgement |
| `Messages.DataStreamHeaderIsRead` | packages/protocol/connectorv1/decode_gen.go:156-170 | the same for a data-stream header |
| `Messages.HeartbeatIsRead` | packages/protocol/connectorv1/decode_gen.go:108-121 | the same for a heartbeat whose load its text gives back |
| `Messages.HeartbeatIsNormalised` | packages/protocol/connectorv1/decode_gen.go:108-121 | the same for a heartbeat |
| `Messages.RouteDecisionIsRead` | packages/protocol/connectorv1/decode_gen.go:239-250 | the same for a decision with or without a publication |
| `Messages.ReconnectResponseIsRead` | packages/protocol/connectorv1/decode_gen.go:263-271 | the same for lists of decisions |
| `Messages.ReconnectResponseIsNormalised` | packages/protocol/connectorv1/decode_gen.go:263-271 | the same for lists of decisions |
| `MessageBounds.HeartbeatFits` | packages/protocol/connectorv1/validate_gen.go:394-463 | the schema of a heartbeat allows 236 bytes at most |
| `MessageBounds.RoutePublishAckFits` | packages/protocol/connectorv1/validate_gen.go:521-557 | the schema of an acknowledgement allows 430 bytes at most |
| `MessageBounds.DataStreamHeaderFits` | packages/protocol/connectorv1/validate_gen.go:560-586 | the schema of a data-stream header allows 891 bytes at most |
| `MessageBounds.ReconnectResponseFits` | packages/protocol/connectorv1/validate_gen.go:796-879 | the schema of a reconnect response allows 49197 bytes at most |
| `TreeMessages.TreeIsReadBack` | packages/protocol/connectorv1/dispatch_gen.go:32-75 | for a readable schema, the canonical form of a conforming tree conforms, its text reads back to it, and each property is found in it, in canonical form, exactly when it was in the tree |
| `TreeMessages.RegistrationRequestIsReadable` | packages/protocol/connectorv1/validate_gen.go:324-341 | the schema of a registration request is readable: at every depth its property names differ and are valid text, and lists compared for repetition are lists of text |
| `TreeMessages.RegistrationResponseIsReadable` | packages/protocol/connectorv1/validate_gen.go:375-392 | the same for a registration response |
| `TreeMessages.ReconnectRequestIsReadable` | packages/protocol/connectorv1/validate_gen.go:770-793 | the same for a reconnect request |
| `TreeMessages.WorkspaceObservationIsReadable` | packages/protocol/connectorv1/validate_gen.go:671-703 | the same for a workspace observation |
| `ControlEnvelope.EnvelopeIsRead` | packages/protocol/connectorv1/decode_gen.go:11-27 | decoding the tree of an envelope gives the envelope and its payload |
| `ControlEnvelope.EnvelopeAround` | packages/protocol/connectorv1/validate_gen.go:215-247 | whether an envelope is valid does not depend on which object it carries |
| `ControlEnvelope.EnvelopeIsShort` | packages/protocol/connectorv1/validate_gen.go:215-247 | a valid envelope adds 364 bytes at most to its payload |
| `Encoders.EncodeEnvelopeInto` | packages/protocol/connectorv1/encode_gen.go:12-33 | the writer's document gets the tree of the envelope around its payload |
| `Encoders.EncodeResourceSummaryInto` | packages/protocol/connectorv1/encode_gen.go:178-189 | the writer's document gets the tree, and a load that JSON cannot hold is an error |
| `Encoders.EncodeHeartbeatInto` | packages/protocol/connectorv1/encode_gen.go:199-216 | the writer's document gets the tree of the heartbeat |
| `Encoders.EncodeRoutePublishInto` | packages/protocol/connectorv1/encode_gen.go:226-250 | the writer's document gets the tree of the publication |
| `Encoders.EncodeRoutePublishAckInto` | packages/protocol/connectorv1/encode_gen.go:260-275 | the writer's document gets the tree of the acknowledgement |
| `Encoders.EncodeDataStreamHeaderInto` | packages/protocol/connectorv1/encode_gen.go:285-304 | the writer's document gets the tree of the header |
| `Encoders.EncodeRouteDecisionInto` | packages/protocol/connectorv1/encode_gen.go:463-476 | the writer's document gets the tree of the decision |
| `Encoders.EncodeSessionDecisionInto` | packages/protocol/connectorv1/encode_gen.go:486-495 | the writer's document gets the tree of the decision |
| `Encoders.EncodeReconnectResponseInto` | packages/protocol/connectorv1/encode_gen.go:505-526 | the writer's document gets the tree of the response, item by item |
| `Frames.EncodePayload` | packages/protocol/connectorv1/dispatch_gen.go:55-75 | the rendering of the payload's tree, through the encoder of its type for the four typed messages, or an error for a load that is no number |
| `Frames.EncodeControlFrame` | packages/protocol/connectorv1/frame.go:134-167 | the rendering of the frame's tree, or the first refusal in the order of the checks |
| `Frames.DecodeControlFrame` | packages/protocol/connectorv1/frame.go:76-131 | size, JSON, version, type, envelope, payload and payload bound are checked in this order |
| `Frames.DecodePayload` | packages/protocol/connectorv1/dispatch_gen.go:32-52 | the decoder of the message type for the four typed messages, the canonical form of the tree for the other four |
| `Frames.EncodeDataStreamHeaderFrame` | packages/protocol/connectorv1/frame.go:190-202 | the rendering of the header's tree, or a refusal of its size |
| `Frames.DecodeDataStreamHeaderFrame` | packages/protocol/connectorv1/frame.go:171-187 | size, JSON and schema are checked in this order |
| `FrameLaws.DecodeUndoesEncode` | packages/protocol/connectorv1/frame.go:76-167 | for every valid frame that is encoded, decoding gives the same frame |
| `FrameLaws.DecodedIsValid` | packages/protocol/connectorv1/frame.go:76-131 | whatever is decoded is a valid frame, is encoded without refusal, and is decoded again from that |
| `FrameLaws.EncodesExactly` | packages/protocol/connectorv1/frame.go:134-167 | a valid frame is refused exactly when its payload is over its bound, never for the size of the frame |
| `FrameLaws.OnlyPublicationsAreTooLarge` | packages/protocol/connectorv1/frame.go:148-155 | no valid heartbeat, acknowledgement or reconnect response is ever refused |
| `FrameLaws.PayloadIsNormalised` | packages/protocol/connectorv1/dispatch_gen.go:32-75 | for the four typed messages, decoding a conforming payload and writing it again gives its canonical form; the other four are kept in that form, so for them it holds by definition |
| `FrameLaws.TrailingDataIsRefused` | packages/protocol/connectorv1/frame.go:59-61 | trailing data is refused exactly when it does not begin with a closing bracket |
| `FrameLaws.BracketsAreAccepted` | packages/protocol/connectorv1/frame.go:59-61 | an accepted frame with a bracket and anything after it decodes to the same frame |
| `HeaderLaws.HeaderRoundTrip` | packages/protocol/connectorv1/frame.go:171-202 | every valid header is encoded within 891 bytes and decodes to itself |
| `HeaderLaws.DecodedHeaderIsValid` | packages/protocol/connectorv1/frame.go:171-187 | whatever is decoded is a valid header, and decodes again from its own encoding |
| `HeaderLaws.PublicationsCanBeTooLarge` | packages/protocol/connectorv1/types_gen.go:261-270 | in every valid envelope of its type, a publication with 32 sessions is valid and is refused for its size |
| `HeaderLaws.LargePublicationExample` | packages/protocol/connectorv1/frame.go:148-155 | such a frame with all its parts: it is valid, and it is refused |
| `Cursor.EncodeCursor` | packages/protocol/platformv1/cursor.go:60-83 | version, schema and length are checked around the canonical text in base64url |
| `Cursor.EncodeCursorClaims` | packages/protocol/platformv1/encode_gen.go:1539-1548 | the writer writes the rendering of the claims' tree |
| `Cursor.EncodesExactly` | packages/protocol/platformv1/cursor.go:60-83 | claims are encoded exactly when they are valid and their cursor is within 512 characters |
| `Cursor.CursorRoundTrip` | packages/protocol/platformv1/cursor.go:60-123 | decoding an encoded cursor gives the claims, exactly when the sort key is valid UTF-8, and otherwise the repaired ones |
| `Cursor.DecodedClaimsAreValid` | packages/protocol/platformv1/cursor.go:60-123 | whatever is decoded is valid claims; they are encoded, to a cursor that decodes to them, exactly when the escaped sort key and the id have 349 bytes or fewer together, and are too long otherwise |
| `Cursor.OverlongExample` | packages/protocol/platformv1/cursor.go:60-123 | a cursor with up to 116 unescaped U+2028 is decoded; with more than 58 its claims are too long for a cursor of their own |
| `Geometry.RoundIsNearest` | packages/protocol/src/annotation-geometry.ts:463-465 | the clamped value is rounded to the nearest step of the grid, upwards on a tie |
| `Geometry.CheckGeometryForType` | packages/protocol/src/annotation-geometry.ts:202-281 | the loop over the members and the box check report exactly the faults, in order |
| `Geometry.CheckPath` | packages/protocol/src/annotation-geometry.ts:293-369 | size faults first, then the faults of the first bad point only |
| `Geometry.FaultsAreExact` | packages/protocol/src/annotation-geometry.ts:202-369 | nothing is reported exactly when required members are there, others are allowed, coordinates are in range and the box fits |
| `Geometry.DragIsValid` | packages/protocol/src/annotation-geometry.ts:480-504 | for any two points, even outside the image, a drag makes a valid geometry of every shape but freehand |
| `Geometry.DragIsAccurate` | packages/protocol/src/annotation-geometry.ts:480-504 | inside the image the recorded box is the dragged one to within a step, whichever way it was dragged |
| `Geometry.RectangleIsContained` | packages/protocol/src/annotation-geometry.ts:380-401 | the rectangle is inside its box, touches it, is centred and keeps the aspect ratio |
| `Geometry.ContainedIsUnique` | packages/protocol/src/annotation-geometry.ts:380-401 | no other rectangle does |
| `Geometry.PixelRatioIsNeutral` | packages/protocol/src/annotation-geometry.ts:380-401 | scaling both content dimensions changes nothing |
| `Geometry.ConversionsAreInverse` | packages/protocol/src/annotation-geometry.ts:404-431 | the two conversions undo each other exactly when the rectangle is not degenerate |
| `Stroke.DecimateStroke` | packages/protocol/src/annotation-geometry.ts:526-560 | the loops return the first thinning that is small enough, or the even sampling |
| `Stroke.DecimatedIsBounded` | packages/protocol/src/annotation-geometry.ts:526-560 | a stroke of more than two points is cut to the maximum, a shorter one is kept |
| `Stroke.DecimatedPicks` | packages/protocol/src/annotation-geometry.ts:526-560 | only rounded points of the stroke are listed, in its order, and both ends are kept |
| `Stroke.GuardIsUnreachable` | packages/protocol/src/annotation-geometry.ts:518-523 | within the image one of the first eleven attempts succeeds, and it is the first that can |
| `Stroke.PathBounds` | packages/protocol/src/annotation-geometry.ts:624-643 | the box holds every point and each side touches one |
| `Stroke.BoundsAreUnique` | packages/protocol/src/annotation-geometry.ts:624-643 | there is only one such box |
| `Stroke.FreehandIsValid` | packages/protocol/src/annotation-geometry.ts:526-643 | a decimated stroke with its box is a valid freehand mark exactly when it has two points or more |
| `ToolSchemas.Collector.CollectReferences` | apps/mcp-server/src/schemas.ts:63-80 | it ends on every graph; the names that are new are reachable, and have their own references in the set |
| `ToolSchemas.ClosedIsExact` | apps/mcp-server/src/schemas.ts:63-80 | a closed set with the start in it has everything reachable |
| `ToolSchemas.Strip` | apps/mcp-server/src/schemas.ts:108-118 | the loop drops private properties at every depth outside lists |
| `ToolSchemas.ToolInputSchema` | apps/mcp-server/src/schemas.ts:89-106 | the published definitions are exactly the reachable ones, in order and stripped; a dangling name is an error |
| `ToolSchemas.EveryReferenceResolves` | apps/mcp-server/src/schemas.ts:89-106 | every reference left in the result has its definition in the result |

## Left out

- Frames.DecodePayload: the registration messages, the reconnect request and the workspace
  observation have their schemas here and take part in the frame laws as canonical trees,
  without typed structures and decoders of their own: those would repeat the ones that are
  here. A tree payload must be valid UTF-8 to count as valid, since the reader repairs what
  is not.
- Frames.EncodePayload: the same four messages are written as rendered trees.
- FrameLaws.PayloadIsNormalised: says nothing of the generated code of these four messages.
- CanonicalWriter.Writer.WriteBoolean: only messages that are kept as trees have booleans,
  so no encoder of the model calls it.
- Validation.Validator.Validate: one method walks the schema where the program has a
  generated function for each message, each with the same steps written out; the texts of
  the violation messages are not modelled, their paths and codes are.
- Capability.VerifyExactly: the MAC is an arbitrary function and the comparison has no
  timing.
- Json.ReadRendered: the reader stands for the JSON library without its limit of 10000
  nested values; the escapes that the library adds when it marshals a value for a
  uniqueness key are left out, because they keep different keys different.
- Messages.HeartbeatIsRead: the rounding of a number's text to a float64, and the search
  for the shortest digits, are a function that is only assumed to settle; digits and
  exponent are the input of number formatting.
- RepositoryIdentity.CanonicaliseCloneURL: a value is a sequence of Unicode scalar values,
  so a Go string with invalid UTF-8 is not modelled.
- RepositoryIdentity.SegmentsLoop: the one loop of the normaliser is split over several
  methods.
- Geometry.CheckGeometryForType: coordinates are real numbers with one value for what is
  not finite. A sum that overflows, for which no box fault is reported, is modelled; the
  rounding of other sums and differences to a float64 is not, so that a box over the edge
  by less than half a last digit is a fault here and none in the program.
- Stroke.DecimateStroke: the maximum is a natural number; distances are compared through
  their squares.
- ToolSchemas.ToolInputSchema: property order in an object is the order of its entries;
  JavaScript's reordering of integer-like keys is not modelled.
- LiveStream.ResponseTransport.WriteFrame: whether the response accepts a write without
  saturating, and when it drains or closes, are inputs.
- HTTP, WebSocket, database and process code, services and user interface: plumbing around
  the parts above.
- Tables and pretty-printing: error texts, geometry descriptions, rendered boxes, arrows
  and paths follow directly from what is modelled.
