/** The checkpoint wire frames: the encoders and decoders of checkpoint.rs, those of the Python
    worker, and the laws that tie them together. */
module WireCodec {
  import opened Common
  import BigEndian

  const MAGIC: Bytes := [0x4D, 0x47, 0x43, 0x50]
  const VERSION: u8 := 1
  const REQUEST_KIND: u8 := 1
  const ACKNOWLEDGEMENT_KIND: u8 := 2
  const HELLO_KIND: u8 := 3
  const READY_KIND: u8 := 4
  const REQUEST_BODY_BYTES: nat := 54
  const ACKNOWLEDGEMENT_BODY_BYTES: nat := 57
  const NEGOTIATION_BODY_BYTES: nat := 38
  const MAX_CHECKPOINT_FRAME_BYTES: nat := 128

  type Nonce = b: Bytes | |b| == 32 witness seq(32, _ => 0)

  datatype WorkerStatus = Completed | Failed | Cancelled
  datatype ArtifactKind = File | Directory | OpaqueArtifact
  datatype Artifact = Artifact(kind: ArtifactKind, sizeBytes: Option<u64>)
  datatype Request = Request(nonce: Nonce, requestId: u64, deadlineNs: u64)
  datatype Acknowledgement = Acknowledgement(
    nonce: Nonce, requestId: u64, status: WorkerStatus, artifact: Option<Artifact>)

  // ---- Encoders ----

  function Header(kind: u8): (r: Bytes)
    ensures |r| == 6
  {
    MAGIC + [VERSION, kind]
  }

  function EncodeBody(body: Bytes): Bytes {
    BigEndian.Encode(|body|, 4) + body
  }

  function EncodeNegotiation(kind: u8, nonce: Nonce): Bytes {
    EncodeBody(Header(kind) + nonce)
  }

  function EncodeRequest(r: Request): Bytes {
    EncodeBody(Header(REQUEST_KIND) + r.nonce + BigEndian.Encode(r.requestId, 8) + BigEndian.Encode(r.deadlineNs, 8))
  }

  function StatusByte(s: WorkerStatus): u8 {
    match s case Completed => 1 case Failed => 2 case Cancelled => 3
  }

  function KindByte(k: ArtifactKind): u8 {
    match k case File => 1 case Directory => 2 case OpaqueArtifact => 3
  }

  /** Artifact kind, has-size flag and size, zero where there is nothing to say. */
  function ArtifactFields(a: Option<Artifact>): (u8, u8, u64) {
    match a
    case None => (0, 0, 0)
    case Some(m) => (KindByte(m.kind), if m.sizeBytes.Some? then 1 else 0,
                     if m.sizeBytes.Some? then m.sizeBytes.value else 0)
  }

  function EncodeAcknowledgement(a: Acknowledgement): Bytes {
    var (kind, hasSize, size) := ArtifactFields(a.artifact);
    EncodeBody(Header(ACKNOWLEDGEMENT_KIND) + a.nonce + BigEndian.Encode(a.requestId, 8)
               + [StatusByte(a.status), kind, hasSize] + BigEndian.Encode(size, 8))
  }

  // ---- Decoders of the supervisor ----

  function ExactBody(frame: Bytes, expected: nat): (r: Option<Bytes>)
    ensures r.Some? ==> |r.value| == expected
  {
    if |frame| != 4 + expected then None
    else
      var length := BigEndian.Decode(frame[..4]);
      if length != expected || length > MAX_CHECKPOINT_FRAME_BYTES then None else Some(frame[4..])
  }

  predicate HasHeader(body: Bytes, kind: u8)
    requires |body| >= 6
  {
    body[..4] == MAGIC && body[4] == VERSION && body[5] == kind
  }

  function DecodeNegotiation(frame: Bytes, kind: u8): Option<Nonce> {
    match ExactBody(frame, NEGOTIATION_BODY_BYTES)
    case None => None
    case Some(body) => if !HasHeader(body, kind) then None else Some(body[6..38])
  }

  function DecodeRequest(frame: Bytes): Option<Request> {
    BigEndian.Widths();
    match ExactBody(frame, REQUEST_BODY_BYTES)
    case None => None
    case Some(body) =>
      var id := BigEndian.Decode(body[38..46]);
      var deadline := BigEndian.Decode(body[46..54]);
      if !HasHeader(body, REQUEST_KIND) || id == 0 || deadline == 0 then None
      else Some(Request(body[6..38], id, deadline))
  }

  function DecodeStatus(b: u8): Option<WorkerStatus> {
    if b == 1 then Some(Completed) else if b == 2 then Some(Failed) else if b == 3 then Some(Cancelled) else None
  }

  function DecodeArtifact(kind: u8, hasSize: u8, size: u64): Option<Option<Artifact>> {
    if kind == 0 && hasSize == 0 && size == 0 then Some(None)
    else if 1 <= kind <= 3 && hasSize <= 1 && (hasSize == 1 || size == 0) then
      Some(Some(Artifact(if kind == 1 then File else if kind == 2 then Directory else OpaqueArtifact,
                         if hasSize == 1 then Some(size) else None)))
    else None
  }

  function DecodeAcknowledgement(frame: Bytes): Option<Acknowledgement> {
    BigEndian.Widths();
    match ExactBody(frame, ACKNOWLEDGEMENT_BODY_BYTES)
    case None => None
    case Some(body) =>
      var id := BigEndian.Decode(body[38..46]);
      var status := DecodeStatus(body[46]);
      var artifact := DecodeArtifact(body[47], body[48], BigEndian.Decode(body[49..57]));
      if !HasHeader(body, ACKNOWLEDGEMENT_KIND) || id == 0 || status.None? || artifact.None? then None
      else Some(Acknowledgement(body[6..38], id, status.value, artifact.value))
  }

  // ---- The framing law ----

  lemma HeaderIsPrefix(body: Bytes, kind: u8)
    requires |body| >= 6
    ensures HasHeader(body, kind) <==> body[..6] == Header(kind)
  {
    assert body[..6][..4] == body[..4] && Header(kind)[..4] == MAGIC;
    if HasHeader(body, kind) {
      assert body[..6] == body[..4] + [body[4], body[5]];
    }
  }

  /** A frame holds a body of the expected length if and only if it is the encoding of that body. */
  lemma FrameIsBody(frame: Bytes, expected: nat, body: Bytes)
    requires expected <= MAX_CHECKPOINT_FRAME_BYTES
    ensures ExactBody(frame, expected) == Some(body) <==> |body| == expected && frame == EncodeBody(body)
  {
    BigEndian.Widths();
    BigEndian.DecodeOfEncode(expected, 4);
    if |frame| == 4 + expected {
      BigEndian.EncodeOfDecode(frame[..4]);
      assert frame == frame[..4] + frame[4..];
    }
    if |body| == expected {
      var encoded := EncodeBody(body);
      assert encoded[..4] == BigEndian.Encode(expected, 4) && encoded[4..] == body;
    }
  }

  /** The fields of a request body. */
  lemma RequestFields(r: Request, body: Bytes)
    ensures |body| == REQUEST_BODY_BYTES
            && body[..6] == Header(REQUEST_KIND) && body[6..38] == r.nonce
            && body[38..46] == BigEndian.Encode(r.requestId, 8) && body[46..54] == BigEndian.Encode(r.deadlineNs, 8)
            <==> body == Header(REQUEST_KIND) + r.nonce + BigEndian.Encode(r.requestId, 8)
                         + BigEndian.Encode(r.deadlineNs, 8)
  {
    if |body| == REQUEST_BODY_BYTES {
      assert body == body[..6] + body[6..38] + body[38..46] + body[46..54];
    }
  }

  /** Decoding a request and encoding it are inverse: a frame is accepted as `r` exactly when it is
      the encoding of `r`, whose id and deadline are not zero. */
  lemma RequestCodec(frame: Bytes, r: Request)
    ensures DecodeRequest(frame) == Some(r) <==> frame == EncodeRequest(r) && r.requestId != 0 && r.deadlineNs != 0
  {
    BigEndian.Widths();
    var body := Header(REQUEST_KIND) + r.nonce + BigEndian.Encode(r.requestId, 8) + BigEndian.Encode(r.deadlineNs, 8);
    FrameIsBody(frame, REQUEST_BODY_BYTES, body);
    RequestFields(r, body);
    HeaderIsPrefix(body, REQUEST_KIND);
    BigEndian.DecodeOfEncode(r.requestId, 8);
    BigEndian.DecodeOfEncode(r.deadlineNs, 8);
    if DecodeRequest(frame) == Some(r) {
      var got := ExactBody(frame, REQUEST_BODY_BYTES).value;
      FrameIsBody(frame, REQUEST_BODY_BYTES, got);
      HeaderIsPrefix(got, REQUEST_KIND);
      BigEndian.EncodeOfDecode(got[38..46]);
      BigEndian.EncodeOfDecode(got[46..54]);
      RequestFields(r, got);
    }
  }

  lemma NegotiationCodec(frame: Bytes, kind: u8, nonce: Nonce)
    ensures DecodeNegotiation(frame, kind) == Some(nonce) <==> frame == EncodeNegotiation(kind, nonce)
  {
    var body := Header(kind) + nonce;
    FrameIsBody(frame, NEGOTIATION_BODY_BYTES, body);
    HeaderIsPrefix(body, kind);
    assert body[..6] == Header(kind) && body[6..38] == nonce;
    if DecodeNegotiation(frame, kind) == Some(nonce) {
      var got := ExactBody(frame, NEGOTIATION_BODY_BYTES).value;
      FrameIsBody(frame, NEGOTIATION_BODY_BYTES, got);
      HeaderIsPrefix(got, kind);
      assert got == got[..6] + got[6..38];
    }
  }

  lemma AcknowledgementFields(a: Acknowledgement, body: Bytes, kind: u8, hasSize: u8, size: u64)
    ensures |body| == ACKNOWLEDGEMENT_BODY_BYTES
            && body[..6] == Header(ACKNOWLEDGEMENT_KIND) && body[6..38] == a.nonce
            && body[38..46] == BigEndian.Encode(a.requestId, 8)
            && body[46] == StatusByte(a.status) && body[47] == kind && body[48] == hasSize
            && body[49..57] == BigEndian.Encode(size, 8)
            <==> body == Header(ACKNOWLEDGEMENT_KIND) + a.nonce + BigEndian.Encode(a.requestId, 8)
                         + [StatusByte(a.status), kind, hasSize] + BigEndian.Encode(size, 8)
  {
    if |body| == ACKNOWLEDGEMENT_BODY_BYTES {
      assert body == body[..6] + body[6..38] + body[38..46] + [body[46], body[47], body[48]] + body[49..57];
    }
  }

  /** The artifact bytes decode to an artifact exactly when they are that artifact's fields. */
  lemma ArtifactCodec(kind: u8, hasSize: u8, size: u64, a: Option<Artifact>)
    ensures DecodeArtifact(kind, hasSize, size) == Some(a) <==> (kind, hasSize, size) == ArtifactFields(a)
  {
  }

  lemma AcknowledgementCodec(frame: Bytes, a: Acknowledgement)
    ensures DecodeAcknowledgement(frame) == Some(a) <==> frame == EncodeAcknowledgement(a) && a.requestId != 0
  {
    BigEndian.Widths();
    var (kind, hasSize, size) := ArtifactFields(a.artifact);
    var body := Header(ACKNOWLEDGEMENT_KIND) + a.nonce + BigEndian.Encode(a.requestId, 8)
                + [StatusByte(a.status), kind, hasSize] + BigEndian.Encode(size, 8);
    FrameIsBody(frame, ACKNOWLEDGEMENT_BODY_BYTES, body);
    AcknowledgementFields(a, body, kind, hasSize, size);
    HeaderIsPrefix(body, ACKNOWLEDGEMENT_KIND);
    BigEndian.DecodeOfEncode(a.requestId, 8);
    BigEndian.DecodeOfEncode(size, 8);
    ArtifactCodec(kind, hasSize, size, a.artifact);
    if DecodeAcknowledgement(frame) == Some(a) {
      var got := ExactBody(frame, ACKNOWLEDGEMENT_BODY_BYTES).value;
      FrameIsBody(frame, ACKNOWLEDGEMENT_BODY_BYTES, got);
      HeaderIsPrefix(got, ACKNOWLEDGEMENT_KIND);
      BigEndian.EncodeOfDecode(got[38..46]);
      BigEndian.EncodeOfDecode(got[49..57]);
      ArtifactCodec(got[47], got[48], BigEndian.Decode(got[49..57]), a.artifact);
      AcknowledgementFields(a, got, kind, hasSize, size);
    }
  }

  // ---- The Python worker's side ----

  /** A worker response; only a completed one carries an artifact, but the frames do not depend on that. */
  datatype Response = Response(status: WorkerStatus, artifact: Option<Artifact>)

  function WorkerFrame(body: Bytes): Bytes {
    BigEndian.Encode(|body|, 4) + body
  }

  function WorkerExactBody(frame: Bytes, length: nat, kind: u8): (r: Option<Bytes>)
    requires length >= 6
    ensures r.Some? ==> |r.value| == length
  {
    if |frame| != 4 + length then None
    else
      var body := frame[4..];
      if BigEndian.Decode(frame[..4]) != length || body[..4] != MAGIC || body[4] != VERSION || body[5] != kind
      then None else Some(body)
  }

  function WorkerDecodeHello(frame: Bytes): Option<Nonce> {
    match WorkerExactBody(frame, NEGOTIATION_BODY_BYTES, HELLO_KIND)
    case None => None
    case Some(body) => Some(body[6..38])
  }

  /** The request id and the deadline, when the frame is well formed and carries the worker's nonce. */
  function WorkerDecodeRequest(frame: Bytes, expected: Nonce): Option<(nat, nat)> {
    match WorkerExactBody(frame, REQUEST_BODY_BYTES, REQUEST_KIND)
    case None => None
    case Some(body) =>
      if body[6..38] != expected then None
      else
        var id := BigEndian.Decode(body[38..46]);
        var deadline := BigEndian.Decode(body[46..54]);
        if id == 0 || deadline == 0 then None else Some((id, deadline))
  }

  /** The ready frame the worker answers a hello with. */
  function WorkerReadyFrame(nonce: Nonce): Bytes {
    WorkerFrame(MAGIC + [VERSION, READY_KIND] + nonce)
  }

  /** The acknowledgement frame of `_send`; a missing size is written as zero. */
  function WorkerAcknowledgementFrame(nonce: Nonce, r: Response, requestId: u64): Bytes {
    var kind: u8 := if r.artifact.None? then 0 else KindByte(r.artifact.value.kind);
    var hasSize: u8 := if r.artifact.Some? && r.artifact.value.sizeBytes.Some? then 1 else 0;
    var size: u64 := if hasSize == 1 then r.artifact.value.sizeBytes.value else 0;
    WorkerFrame(MAGIC + [VERSION, ACKNOWLEDGEMENT_KIND] + nonce + BigEndian.Encode(requestId, 8)
                + [StatusByte(r.status), kind, hasSize] + BigEndian.Encode(size, 8))
  }

  lemma WorkerBodyAgrees(frame: Bytes, length: nat, kind: u8)
    requires 6 <= length <= MAX_CHECKPOINT_FRAME_BYTES
    ensures var r := ExactBody(frame, length);
            WorkerExactBody(frame, length, kind) == if r.Some? && HasHeader(r.value, kind) then r else None
  {
  }

  /** Across the two languages: a supervisor hello gives the worker its nonce and the worker's ready
      frame gives it back; a request reaches the worker with the same id and deadline, and only under
      the worker's own nonce; the worker's acknowledgement decodes to exactly the response it sent. */
  lemma WorkerSpeaksTheSameWire(nonce: Nonce, r: Request, response: Response, requestId: u64)
    ensures WorkerDecodeHello(EncodeNegotiation(HELLO_KIND, nonce)) == Some(nonce)
    ensures DecodeNegotiation(WorkerReadyFrame(nonce), READY_KIND) == Some(nonce)
    ensures WorkerDecodeRequest(EncodeRequest(r), nonce)
         == if r.nonce == nonce && r.requestId != 0 && r.deadlineNs != 0 then Some((r.requestId, r.deadlineNs)) else None
    ensures DecodeAcknowledgement(WorkerAcknowledgementFrame(nonce, response, requestId))
         == if requestId != 0 then Some(Acknowledgement(nonce, requestId, response.status, response.artifact)) else None
  {
    NegotiationCodec(EncodeNegotiation(HELLO_KIND, nonce), HELLO_KIND, nonce);
    WorkerBodyAgrees(EncodeNegotiation(HELLO_KIND, nonce), NEGOTIATION_BODY_BYTES, HELLO_KIND);
    NegotiationCodec(WorkerReadyFrame(nonce), READY_KIND, nonce);
    WorkerReadsRequest(nonce, r);
    var ack := Acknowledgement(nonce, requestId, response.status, response.artifact);
    assert WorkerAcknowledgementFrame(nonce, response, requestId) == EncodeAcknowledgement(ack);
    AcknowledgementIsDecided(EncodeAcknowledgement(ack), ack);
  }

  /** An encoded acknowledgement decodes to itself or, with a zero id, to nothing. */
  lemma AcknowledgementIsDecided(frame: Bytes, a: Acknowledgement)
    requires frame == EncodeAcknowledgement(a)
    ensures DecodeAcknowledgement(frame) == if a.requestId != 0 then Some(a) else None
  {
    AcknowledgementCodec(frame, a);
    if DecodeAcknowledgement(frame).Some? {
      var b := DecodeAcknowledgement(frame).value;
      AcknowledgementCodec(frame, b);
      SameFrameSameId(a, b);
    }
  }

  lemma SameFrameSameId(a: Acknowledgement, b: Acknowledgement)
    requires EncodeAcknowledgement(a) == EncodeAcknowledgement(b)
    ensures a.requestId == b.requestId
  {
    var fa, fb := ArtifactFields(a.artifact), ArtifactFields(b.artifact);
    var bodyA := EncodeAcknowledgement(a)[4..];
    AcknowledgementFields(a, bodyA, fa.0, fa.1, fa.2);
    AcknowledgementFields(b, bodyA, fb.0, fb.1, fb.2);
    BigEndian.Widths();
    BigEndian.DecodeOfEncode(a.requestId, 8);
    BigEndian.DecodeOfEncode(b.requestId, 8);
  }

  lemma WorkerReadsRequest(nonce: Nonce, r: Request)
    ensures WorkerDecodeRequest(EncodeRequest(r), nonce)
         == if r.nonce == nonce && r.requestId != 0 && r.deadlineNs != 0 then Some((r.requestId, r.deadlineNs)) else None
  {
    BigEndian.Widths();
    var body := EncodeRequest(r)[4..];
    RequestFields(r, body);
    FrameIsBody(EncodeRequest(r), REQUEST_BODY_BYTES, body);
    HeaderIsPrefix(body, REQUEST_KIND);
    WorkerBodyAgrees(EncodeRequest(r), REQUEST_BODY_BYTES, REQUEST_KIND);
    BigEndian.DecodeOfEncode(r.requestId, 8);
    BigEndian.DecodeOfEncode(r.deadlineNs, 8);
  }
}
