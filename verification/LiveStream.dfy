/**
 * The internal leg of the live-view channel: length-prefixed records, the
 * incremental reader that holds a buffer across chunks, and the worker's
 * transport that produces the byte stream.
 */
module LiveStream {
  import opened Bytes
  import Utf8

  const HEADER_BYTES := 5
  const MAX_LIVE_MESSAGE_BYTES := 8192
  const MAX_FRAME_PAYLOAD_BYTES := 4194304

  datatype Kind = Message | FramePayload

  datatype LiveRecord = LiveRecord(kind: Kind, bytes: seq<Byte>)

  datatype FramingError = UnknownKind(byte: Byte) | TooLong(length: nat)

  function KindByte(kind: Kind): Byte
  {
    if kind.Message? then 1 else 2
  }

  function BoundFor(kind: Kind): nat
  {
    if kind.Message? then MAX_LIVE_MESSAGE_BYTES else MAX_FRAME_PAYLOAD_BYTES
  }

  predicate InBound(r: LiveRecord)
  {
    |r.bytes| <= BoundFor(r.kind)
  }

  /** A record on the wire. */
  function Wire(r: LiveRecord): seq<Byte>
  {
    [KindByte(r.kind)] + BigEndian(|r.bytes|, 4) + r.bytes
  }

  function WireAll(rs: seq<LiveRecord>): seq<Byte>
  {
    if rs == [] then [] else Wire(rs[0]) + WireAll(rs[1..])
  }

  lemma {:induction false} WireAllAppend(a: seq<LiveRecord>, b: seq<LiveRecord>)
    ensures WireAll(a + b) == WireAll(a) + WireAll(b)
  {
    if a == [] {
      assert a + b == b;
    } else {
      WireAllAppend(a[1..], b);
      assert (a + b)[0] == a[0] && (a + b)[1..] == a[1..] + b;
      Associate(Wire(a[0]), WireAll(a[1..]), WireAll(b));
    }
  }

  lemma WireAllCons(r: LiveRecord, rs: seq<LiveRecord>, rest: seq<Byte>)
    ensures WireAll([r] + rs) + rest == Wire(r) + (WireAll(rs) + rest)
  {
    assert ([r] + rs)[1..] == rs;
  }

  /** encodeLiveRecord: the bound first, then one allocation that is filled in place. */
  method EncodeLiveRecord(kind: Kind, bytes: seq<Byte>) returns (r: Result<seq<Byte>, FramingError>)
    ensures r == if InBound(LiveRecord(kind, bytes)) then Ok(Wire(LiveRecord(kind, bytes)))
                 else Err(TooLong(|bytes|))
  {
    var bound := BoundFor(kind);
    if |bytes| > bound {
      return Err(TooLong(|bytes|));
    }
    var out := new Byte[HEADER_BYTES + |bytes|](_ => 0);
    out[0] := KindByte(kind);
    var length: seq<Byte> := BigEndian(|bytes|, 4);
    forall i | 0 <= i < 4 { out[1 + i] := length[i]; }
    forall i | 0 <= i < |bytes| { out[HEADER_BYTES + i] := bytes[i]; }
    assert out[..] == Wire(LiveRecord(kind, bytes));
    r := Ok(out[..]);
  }

  // ----- what a buffer holds

  /** What the first bytes of a buffer say. */
  datatype Head =
    | Incomplete
    | Whole(record: LiveRecord)
    | Bad(error: FramingError)

  function HeadOf(b: seq<Byte>): (h: Head)
    ensures h.Whole? ==> |Wire(h.record)| <= |b|
  {
    if |b| < HEADER_BYTES then Incomplete
    else if b[0] != 1 && b[0] != 2 then Bad(UnknownKind(b[0]))
    else
      var kind := if b[0] == 1 then Message else FramePayload;
      var length := FromBigEndian(b[1..5]);
      if length > BoundFor(kind) then Bad(TooLong(length))
      else if |b| < HEADER_BYTES + length then Incomplete
      else Whole(LiveRecord(kind, b[HEADER_BYTES..HEADER_BYTES + length]))
  }

  /** What a reader makes of a whole byte stream. */
  datatype Scanned = Scanned(records: seq<LiveRecord>, rest: seq<Byte>)
  {
    predicate Failed() { HeadOf(rest).Bad? }
  }

  function Scan(b: seq<Byte>): Scanned
    decreases |b|
  {
    match HeadOf(b)
    case Whole(record) =>
      var s := Scan(b[|Wire(record)|..]);
      Scanned([record] + s.records, s.rest)
    case _ => Scanned([], b)
  }

  predicate AllInBound(rs: seq<LiveRecord>)
  {
    forall r | r in rs :: InBound(r)
  }

  lemma HeadOfWire(r: LiveRecord, tail: seq<Byte>)
    requires InBound(r)
    ensures HeadOf(Wire(r) + tail) == Whole(r)
    ensures (Wire(r) + tail)[|Wire(r)|..] == tail
  {
    var b := Wire(r) + tail;
    FromBigEndianOfBigEndian(|r.bytes|, 4) by { assert Pow256(4) == 0x1_0000_0000; }
    assert b[1..5] == BigEndian(|r.bytes|, 4);
    assert b[HEADER_BYTES..HEADER_BYTES + |r.bytes|] == r.bytes;
  }

  lemma WireOfHead(b: seq<Byte>)
    requires HeadOf(b).Whole?
    ensures InBound(HeadOf(b).record)
    ensures b[..|Wire(HeadOf(b).record)|] == Wire(HeadOf(b).record)
  {
    BigEndianOfFromBigEndian(b[1..5]);
  }

  /** Scanning splits the stream into whole in-bound records and a rest that starts no record. */
  lemma {:induction false} ScanSplits(b: seq<Byte>)
    ensures b == WireAll(Scan(b).records) + Scan(b).rest
    ensures AllInBound(Scan(b).records) && !HeadOf(Scan(b).rest).Whole?
    decreases |b|
  {
    if HeadOf(b).Whole? {
      var n := |Wire(HeadOf(b).record)|;
      ScanSplits(b[n..]);
      WireOfHead(b);
      JoinHead(b, n, HeadOf(b).record, Scan(b[n..]).records, Scan(b[n..]).rest);
      ScanUnfolds(b);
    }
  }

  lemma ScanUnfolds(b: seq<Byte>)
    requires HeadOf(b).Whole?
    ensures var r := HeadOf(b).record;
            var s := Scan(b[|Wire(r)|..]);
            Scan(b) == Scanned([r] + s.records, s.rest)
  {
  }

  lemma JoinHead(b: seq<Byte>, n: nat, r: LiveRecord, rs: seq<LiveRecord>, rest: seq<Byte>)
    requires n <= |b| && b[..n] == Wire(r) && b[n..] == WireAll(rs) + rest
    requires InBound(r) && AllInBound(rs)
    ensures b == WireAll([r] + rs) + rest && AllInBound([r] + rs)
  {
    WireAllCons(r, rs, rest);
    InBoundCons(r, rs);
    assert b == b[..n] + b[n..];
  }

  lemma InBoundCons(r: LiveRecord, rs: seq<LiveRecord>)
    ensures AllInBound([r] + rs) <==> InBound(r) && AllInBound(rs)
  {
    assert ([r] + rs)[0] == r && ([r] + rs)[1..] == rs;
    if AllInBound([r] + rs) {
      assert r in [r] + rs && forall x | x in rs :: x in [r] + rs;
    }
  }

  lemma ScanWire(r: LiveRecord, tail: seq<Byte>)
    requires InBound(r)
    ensures Scan(Wire(r) + tail) == Scanned([r] + Scan(tail).records, Scan(tail).rest)
  {
    HeadOfWire(r, tail);
  }

  /** That split is the only one, so the scan is determined by it. */
  lemma {:induction false} ScanIsUnique(rs: seq<LiveRecord>, rest: seq<Byte>)
    requires AllInBound(rs)
    ensures Scan(WireAll(rs) + rest) == Scanned(rs + Scan(rest).records, Scan(rest).rest)
  {
    var s := Scan(rest);
    if rs == [] {
      assert WireAll(rs) + rest == rest;
      assert rs + s.records == s.records;
    } else {
      var r, more := rs[0], rs[1..];
      var tail := WireAll(more) + rest;
      assert rs == [r] + more;
      InBoundCons(r, more);
      ScanIsUnique(more, rest);
      WireAllCons(r, more, rest);
      ScanWire(r, tail);
      Associate([r], more, s.records);
    }
  }

  /** A stream that arrives in two pieces is scanned like one that arrives whole. */
  lemma ScanConcat(a: seq<Byte>, b: seq<Byte>)
    ensures Scan(a + b) == Scanned(Scan(a).records + Scan(Scan(a).rest + b).records, Scan(Scan(a).rest + b).rest)
  {
    var records, rest := Scan(a).records, Scan(a).rest;
    ScanSplits(a);
    ScanIsUnique(records, rest + b);
    Associate(WireAll(records), rest, b);
  }

  /** A header that is refused stays refused however much follows it. */
  lemma BadStaysBad(a: seq<Byte>, b: seq<Byte>)
    requires HeadOf(a).Bad?
    ensures HeadOf(a + b) == HeadOf(a)
  {
    assert (a + b)[1..5] == a[1..5];
  }

  // ----- the incremental reader

  type Delivery = Result<seq<LiveRecord>, FramingError>

  /** What one push returns for a buffer that now holds `b`. */
  function DeliveryOf(b: seq<Byte>): Delivery
  {
    var s := Scan(b);
    if s.Failed() then Err(HeadOf(s.rest).error) else Ok(s.records)
  }

  lemma NextRecord(buffer: seq<Byte>, record: LiveRecord, total: nat, before: seq<LiveRecord>)
    requires HeadOf(buffer) == Whole(record) && total == |Wire(record)| && total <= |buffer|
    ensures before + Scan(buffer).records == before + [record] + Scan(buffer[total..]).records
    ensures Scan(buffer).rest == Scan(buffer[total..]).rest
  {
    ScanUnfolds(buffer);
    Associate(before, [record], Scan(buffer[total..]).records);
  }

  class LiveRecordDecoder {
    var buffer: seq<Byte>

    constructor ()
      ensures buffer == []
    {
      buffer := [];
    }

    /** Bytes currently held awaiting completion of a record. */
    function Pending(): nat
      reads this
    {
      |buffer|
    }

    /**
     * The records that became complete. A refused header throws: what was read
     * in the same call is lost and the refused bytes stay in the buffer.
     */
    method Push(chunk: seq<Byte>) returns (r: Delivery)
      modifies this
      ensures r == DeliveryOf(old(buffer) + chunk)
      ensures buffer == Scan(old(buffer) + chunk).rest
    {
      ghost var whole := buffer + chunk;
      buffer := buffer + chunk;
      var records: seq<LiveRecord> := [];
      while true
        invariant Scan(whole).records == records + Scan(buffer).records
        invariant Scan(whole).rest == Scan(buffer).rest
        decreases |buffer|
      {
        if |buffer| < HEADER_BYTES {
          break;
        }
        var byte := buffer[0];
        if byte != 1 && byte != 2 {
          return Err(UnknownKind(byte));
        }
        var kind := if byte == 1 then Message else FramePayload;
        var length := FromBigEndian(buffer[1..HEADER_BYTES]);
        var bound := BoundFor(kind);
        if length > bound {
          return Err(TooLong(length));
        }
        var total := HEADER_BYTES + length;
        if |buffer| < total {
          break;
        }
        var record := LiveRecord(kind, buffer[HEADER_BYTES..total]);
        NextRecord(buffer, record, total, records);
        records := records + [record];
        buffer := buffer[total..];
      }
      assert records + [] == records;
      r := Ok(records);
    }
  }

  /** The outcomes of pushing a list of chunks, and the bytes still held at the end. */
  datatype Feeding = Feeding(outcomes: seq<Delivery>, rest: seq<Byte>)

  function Feed(buffer: seq<Byte>, chunks: seq<seq<Byte>>): (f: Feeding)
    ensures |f.outcomes| == |chunks|
    decreases |chunks|
  {
    if chunks == [] then Feeding([], buffer)
    else
      var held := buffer + chunks[0];
      var f := Feed(Scan(held).rest, chunks[1..]);
      Feeding([DeliveryOf(held)] + f.outcomes, f.rest)
  }

  function Delivered(outcomes: seq<Delivery>): seq<LiveRecord>
  {
    if outcomes == [] then []
    else (if outcomes[0].Ok? then outcomes[0].value else []) + Delivered(outcomes[1..])
  }

  /** One push, then the rest of the stream. */
  lemma FeedStep(buffer: seq<Byte>, chunk: seq<Byte>, later: seq<Byte>)
    ensures var held := Scan(buffer + chunk);
            var s := Scan(buffer + (chunk + later));
            && s == Scanned(held.records + Scan(held.rest + later).records, Scan(held.rest + later).rest)
            && !HeadOf(held.rest).Whole?
            && (held.Failed() ==> s.Failed() && Scan(held.rest + later).records == [])
  {
    Associate(buffer, chunk, later);
    ScanConcat(buffer + chunk, later);
    ScanSplits(buffer + chunk);
    if HeadOf(Scan(buffer + chunk).rest).Bad? {
      BadStaysBad(Scan(buffer + chunk).rest, later);
    }
  }

  lemma {:induction false} FeedFrom(buffer: seq<Byte>, chunks: seq<seq<Byte>>)
    requires !HeadOf(buffer).Whole?
    ensures var s := Scan(buffer + Concat(chunks));
            var f := Feed(buffer, chunks);
            && f.rest == s.rest
            && Delivered(f.outcomes) <= s.records
            && (!s.Failed() ==> Delivered(f.outcomes) == s.records)
    decreases |chunks|
  {
    if chunks == [] {
      assert buffer + Concat(chunks) == buffer;
    } else {
      var rest := Scan(buffer + chunks[0]).rest;
      FeedStep(buffer, chunks[0], Concat(chunks[1..]));
      FeedFrom(rest, chunks[1..]);
      var f := Feed(rest, chunks[1..]);
      assert Delivered([DeliveryOf(buffer + chunks[0])] + f.outcomes) ==
             (if DeliveryOf(buffer + chunks[0]).Ok? then Scan(buffer + chunks[0]).records else []) + Delivered(f.outcomes);
    }
  }

  /** A push throws exactly when what has arrived so far holds a framing error. */
  lemma {:induction false} PushThrows(buffer: seq<Byte>, chunks: seq<seq<Byte>>, i: nat)
    requires i < |chunks|
    ensures Feed(buffer, chunks).outcomes[i].Err? <==> Scan(buffer + Concat(chunks[..i + 1])).Failed()
    decreases |chunks|
  {
    var rest, later := Scan(buffer + chunks[0]).rest, Concat(chunks[1..][..i]);
    FeedStep(buffer, chunks[0], later);
    FirstChunk(chunks, i);
    if i == 0 {
      assert later == [] && rest + later == rest;
    } else {
      PushThrows(rest, chunks[1..], i - 1);
    }
  }

  lemma FirstChunk(chunks: seq<seq<Byte>>, i: nat)
    requires i < |chunks|
    ensures Concat(chunks[..i + 1]) == chunks[0] + Concat(chunks[1..][..i])
  {
    assert chunks[..i + 1][1..] == chunks[1..][..i];
  }

  lemma NothingBefore(b: seq<Byte>)
    ensures [] + b == b
  {
  }

  /** A framing error in the first chunks is one in the whole stream. */
  lemma FailureShows(chunks: seq<seq<Byte>>, n: nat)
    requires n <= |chunks| && Scan(Concat(chunks[..n])).Failed()
    ensures Scan(Concat(chunks)).Failed()
  {
    var a, b := Concat(chunks[..n]), Concat(chunks[n..]);
    assert chunks == chunks[..n] + chunks[n..];
    ConcatAppend(chunks[..n], chunks[n..]);
    ScanConcat(a, b);
    BadStaysBad(Scan(a).rest, b);
  }

  /** Push `i` throws exactly when the stream up to and including chunk `i` holds a framing error. */
  lemma PushThrowsOnFramingError(chunks: seq<seq<Byte>>, i: nat)
    requires i < |chunks|
    ensures Feed([], chunks).outcomes[i].Err? <==> Scan(Concat(chunks[..i + 1])).Failed()
    ensures Feed([], chunks).outcomes[i].Err? ==> Scan(Concat(chunks)).Failed()
    ensures i == |chunks| - 1 && Scan(Concat(chunks)).Failed() ==> Feed([], chunks).outcomes[i].Err?
  {
    PushThrows([], chunks, i);
    NothingBefore(Concat(chunks[..i + 1]));
    if Feed([], chunks).outcomes[i].Err? {
      FailureShows(chunks, i + 1);
    }
    if i == |chunks| - 1 {
      assert chunks[..i + 1] == chunks;
    }
  }

  /**
   * Chunking independence. However a stream is cut, the bytes held at the end are
   * those one scan of the whole stream leaves. A stream with no framing error
   * delivers exactly its records and no push throws; a stream with one makes some
   * push throw, and what was delivered before is a prefix of its records.
   */
  lemma ChunkingIndependence(chunks: seq<seq<Byte>>)
    ensures var s := Scan(Concat(chunks));
            var f := Feed([], chunks);
            && f.rest == s.rest
            && Delivered(f.outcomes) <= s.records
            && (!s.Failed() ==> Delivered(f.outcomes) == s.records)
            && (!s.Failed() <==> forall i | 0 <= i < |chunks| :: f.outcomes[i].Ok?)
  {
    assert [] + Concat(chunks) == Concat(chunks);
    FeedFrom([], chunks);
    forall i | 0 <= i < |chunks|
      ensures Feed([], chunks).outcomes[i].Err? ==> Scan(Concat(chunks)).Failed()
    {
      PushThrowsOnFramingError(chunks, i);
    }
    if Scan(Concat(chunks)).Failed() {
      assert chunks != [];
      PushThrowsOnFramingError(chunks, |chunks| - 1);
    }
  }

  /** After a push that does not throw, less than one record of the kind being read is held. */
  lemma PendingIsBounded(b: seq<Byte>)
    requires DeliveryOf(b).Ok?
    ensures var held := Scan(b).rest;
            |held| < HEADER_BYTES ||
            (held[0] in {1, 2} &&
             |held| < HEADER_BYTES + BoundFor(if held[0] == 1 then Message else FramePayload))
  {
    ScanSplits(b);
  }

  // ----- the worker's transport

  /** What the producer asks for, and what happens to the response body meanwhile. */
  datatype Event =
    | WriteMessage(json: seq<Utf8.CodeUnit>, accepted: bool)
    | WriteFrame(metadata: seq<Utf8.CodeUnit>, payload: seq<Byte>, accepted: bool)
    | Drained
    | Closed

  datatype Transport = Transport(open: bool, saturated: bool, written: seq<LiveRecord>)

  function MessageRecord(json: seq<Utf8.CodeUnit>): LiveRecord
  {
    LiveRecord(Message, Utf8.Encode(json))
  }

  function PayloadRecord(payload: seq<Byte>): LiveRecord
  {
    LiveRecord(FramePayload, payload)
  }

  function Step(t: Transport, e: Event): Transport
  {
    match e
    case Drained => t.(saturated := false)
    case Closed => t.(open := false)
    case WriteMessage(json, accepted) =>
      if !t.open || !InBound(MessageRecord(json)) then t
      else Transport(true, t.saturated || !accepted, t.written + [MessageRecord(json)])
    case WriteFrame(metadata, payload, accepted) =>
      if !t.open || !InBound(MessageRecord(metadata)) then t
      else if !InBound(PayloadRecord(payload)) then t.(written := t.written + [MessageRecord(metadata)])
      else Transport(true, t.saturated || !accepted, t.written + [MessageRecord(metadata), PayloadRecord(payload)])
  }

  function Run(t: Transport, events: seq<Event>): Transport
  {
    if events == [] then t
    else Step(Run(t, events[..|events| - 1]), events[|events| - 1])
  }

  class ResponseTransport {
    var open: bool
    var saturated: bool
    var body: seq<Byte>
    ghost var written: seq<LiveRecord>

    ghost predicate Valid()
      reads this
    {
      body == WireAll(written) && AllInBound(written)
    }

    ghost function State(): Transport
      reads this
    {
      Transport(open, saturated, written)
    }

    constructor ()
      ensures Valid() && State() == Transport(true, false, [])
    {
      open, saturated, body, written := true, false, [], [];
    }

    method OnDrain()
      requires Valid()
      modifies this
      ensures Valid() && body == old(body) && State() == Step(old(State()), Drained)
    {
      saturated := false;
    }

    method Close()
      requires Valid()
      modifies this
      ensures Valid() && body == old(body) && State() == Step(old(State()), Closed)
    {
      open := false;
    }

    /** response.write: the bytes always join the body; the answer is the socket's backpressure signal. */
    method Write(record: LiveRecord, bytes: seq<Byte>, accepted: bool) returns (ok: bool)
      requires Valid() && InBound(record) && bytes == Wire(record)
      modifies this`body, this`written
      ensures Valid() && written == old(written) + [record] && ok == accepted
    {
      WireAllAppend(written, [record]);
      assert WireAll([record]) == Wire(record);
      body := body + bytes;
      written := written + [record];
      ok := accepted;
    }

    method WriteMessage(json: seq<Utf8.CodeUnit>, accepted: bool) returns (r: Result<(), FramingError>)
      requires Valid()
      modifies this
      ensures Valid() && State() == Step(old(State()), Event.WriteMessage(json, accepted))
      ensures r.Err? <==> old(open) && !InBound(MessageRecord(json))
    {
      if !open {
        return Ok(());
      }
      var encoded := EncodeLiveRecord(Message, Utf8.Encode(json));
      if encoded.Err? {
        return Err(encoded.error);
      }
      var ok := Write(MessageRecord(json), encoded.value, accepted);
      if !ok {
        saturated := true;
      }
      r := Ok(());
    }

    /** Metadata, then payload. The signal of the first write is not looked at. */
    method WriteFrame(metadata: seq<Utf8.CodeUnit>, payload: seq<Byte>, first: bool, accepted: bool)
      returns (r: Result<(), FramingError>)
      requires Valid()
      modifies this
      ensures Valid() && State() == Step(old(State()), Event.WriteFrame(metadata, payload, accepted))
      ensures r.Err? <==> old(open) && !(InBound(MessageRecord(metadata)) && InBound(PayloadRecord(payload)))
    {
      if !open {
        return Ok(());
      }
      var head := EncodeLiveRecord(Message, Utf8.Encode(metadata));
      if head.Err? {
        return Err(head.error);
      }
      var _ := Write(MessageRecord(metadata), head.value, first);
      var tail := EncodeLiveRecord(FramePayload, payload);
      if tail.Err? {
        return Err(tail.error);
      }
      var ok := Write(PayloadRecord(payload), tail.value, accepted);
      assert written == old(written) + [MessageRecord(metadata), PayloadRecord(payload)];
      if !ok {
        saturated := true;
      }
      r := Ok(());
    }
  }

  const FRESH := Transport(true, false, [])

  lemma {:induction false} RunKeepsBounds(events: seq<Event>)
    ensures AllInBound(Run(FRESH, events).written)
  {
    if events != [] {
      RunKeepsBounds(events[..|events| - 1]);
    }
  }

  /**
   * Record round trip: whatever the producer did, and however the body it wrote
   * is cut, the reader throws on no chunk, returns exactly the written records
   * and holds nothing at the end.
   */
  lemma RecordRoundTrip(events: seq<Event>, chunks: seq<seq<Byte>>)
    requires Concat(chunks) == WireAll(Run(FRESH, events).written)
    ensures var f := Feed([], chunks);
            && (forall i | 0 <= i < |chunks| :: f.outcomes[i].Ok?)
            && Delivered(f.outcomes) == Run(FRESH, events).written
            && f.rest == []
  {
    var rs := Run(FRESH, events).written;
    RunKeepsBounds(events);
    ScanIsUnique(rs, []);
    assert WireAll(rs) + [] == WireAll(rs) && rs + [] == rs;
    ChunkingIndependence(chunks);
  }

  /** Every frame payload on the wire directly follows the metadata it was written with. */
  lemma {:induction false} PayloadFollowsItsMetadata(events: seq<Event>, i: nat)
    requires i < |Run(FRESH, events).written| && Run(FRESH, events).written[i].kind == FramePayload
    ensures var rs := Run(FRESH, events).written;
            i > 0 &&
            exists e | e in events ::
              e.WriteFrame? && rs[i - 1] == MessageRecord(e.metadata) && rs[i] == PayloadRecord(e.payload)
  {
    if events != [] {
      var before, e := Run(FRESH, events[..|events| - 1]).written, events[|events| - 1];
      if i < |before| {
        PayloadFollowsItsMetadata(events[..|events| - 1], i);
      } else {
        assert e.WriteFrame? && i == |before| + 1;
        assert e in events;
      }
    }
  }

  /**
   * The other direction fails: metadata whose payload is too long is already on
   * the wire when the payload is refused. A write of a frame leaves both records
   * adjacent exactly when both are in bound.
   */
  lemma MetadataIsFollowedByItsPayload(t: Transport, metadata: seq<Utf8.CodeUnit>, payload: seq<Byte>, accepted: bool)
    requires t.open
    ensures var added := Step(t, WriteFrame(metadata, payload, accepted)).written[|t.written|..];
            && (added == [MessageRecord(metadata), PayloadRecord(payload)] <==>
                InBound(MessageRecord(metadata)) && |payload| <= MAX_FRAME_PAYLOAD_BYTES)
            && (added == [MessageRecord(metadata)] <==>
                InBound(MessageRecord(metadata)) && |payload| > MAX_FRAME_PAYLOAD_BYTES)
  {
    var after := Step(t, WriteFrame(metadata, payload, accepted)).written;
    var both := [MessageRecord(metadata), PayloadRecord(payload)];
    assert t.written[|t.written|..] == [];
    assert (t.written + both)[|t.written|..] == both;
    assert (t.written + [MessageRecord(metadata)])[|t.written|..] == [MessageRecord(metadata)];
  }

  lemma OrphanMetadataExample()
    ensures exists payload: seq<Byte> ::
              Run(FRESH, [WriteFrame([], payload, true)]).written == [MessageRecord([])]
  {
    var payload: seq<Byte> := seq(MAX_FRAME_PAYLOAD_BYTES + 1, _ => 0);
    var e := WriteFrame([], payload, true);
    assert [e][..0] == [];
    assert Run(FRESH, [e]) == Step(FRESH, e);
    assert Run(FRESH, [WriteFrame([], payload, true)]).written == [MessageRecord([])];
  }
}
