/** The published wire format, byte by byte, and the encoders that write exactly it. */
module WireFormat {
  import opened Common
  import BigEndian
  import opened WireCodec

  /** Length, magic `MGCP`, version 1, kind and nonce: what every frame starts with. */
  predicate Opens(frame: Bytes, bodyLength: u8, kind: u8, nonce: Nonce) {
    && |frame| == 4 + bodyLength && bodyLength >= 38
    && frame[..4] == [0, 0, 0, bodyLength]
    && frame[4] == 'M' as int && frame[5] == 'G' as int && frame[6] == 'C' as int && frame[7] == 'P' as int
    && frame[8] == 1 && frame[9] == kind && frame[10..42] == nonce
  }

  predicate HelloLaidOut(frame: Bytes, nonce: Nonce) {
    Opens(frame, 38, 3, nonce)
  }

  predicate ReadyLaidOut(frame: Bytes, nonce: Nonce) {
    Opens(frame, 38, 4, nonce)
  }

  predicate RequestLaidOut(frame: Bytes, r: Request) {
    && Opens(frame, 54, 1, r.nonce) && frame[42..50] == BigEndian.EightBytes(r.requestId)
    && frame[50..58] == BigEndian.EightBytes(r.deadlineNs)
  }

  /** Status 1 completed, 2 failed, 3 cancelled; artifact 0 none, 1 file, 2 directory, 3 opaque; then whether a
      size follows, and the size, zero without one. */
  predicate AcknowledgementLaidOut(frame: Bytes, a: Acknowledgement) {
    && Opens(frame, 57, 2, a.nonce) && frame[42..50] == BigEndian.EightBytes(a.requestId)
    && (match frame[50] case 1 => a.status.Completed? case 2 => a.status.Failed? case 3 => a.status.Cancelled? case _ => false)
    && (match frame[51]
        case 0 => a.artifact.None?
        case 1 => a.artifact.Some? && a.artifact.value.kind.File?
        case 2 => a.artifact.Some? && a.artifact.value.kind.Directory?
        case 3 => a.artifact.Some? && a.artifact.value.kind.OpaqueArtifact?
        case _ => false)
    && (match frame[52]
        case 0 => (a.artifact.Some? ==> a.artifact.value.sizeBytes.None?) && frame[53..61] == BigEndian.EightBytes(0)
        case 1 => a.artifact.Some? && a.artifact.value.sizeBytes.Some?
                  && frame[53..61] == BigEndian.EightBytes(a.artifact.value.sizeBytes.value)
        case _ => false)
  }

  /** A frame opens that way exactly when it is the encoding of a body that starts with that header and nonce. */
  lemma OpensIsEncoded(frame: Bytes, bodyLength: u8, kind: u8, nonce: Nonce)
    requires |frame| == 4 + bodyLength && bodyLength >= 38
    ensures Opens(frame, bodyLength, kind, nonce) <==>
              frame[..42] == BigEndian.Encode(bodyLength, 4) + (Header(kind) + nonce)
  {
    BigEndian.EncodesFour(bodyLength);
    var opening := BigEndian.Encode(bodyLength, 4) + (Header(kind) + nonce);
    assert opening[..4] == BigEndian.FourBytes(bodyLength) == [0, 0, 0, bodyLength];
    assert opening[4..10] == Header(kind) && opening[10..42] == nonce;
    assert frame[..42] == frame[..4] + ([frame[4], frame[5], frame[6], frame[7], frame[8], frame[9]] + frame[10..42]);
    assert frame[..42][..4] == frame[..4] && frame[..42][10..42] == frame[10..42];
    assert frame[..42] == opening ==> forall i :: 4 <= i < 10 ==> frame[i] == frame[..42][i] == opening[i] == Header(kind)[i - 4];
  }

  lemma NegotiationIsLaidOut(frame: Bytes, nonce: Nonce)
    ensures frame == EncodeNegotiation(HELLO_KIND, nonce) <==> HelloLaidOut(frame, nonce)
    ensures frame == EncodeNegotiation(READY_KIND, nonce) <==> ReadyLaidOut(frame, nonce)
  {
    if |frame| == 42 {
      assert frame[..42] == frame;
      OpensIsEncoded(frame, 38, HELLO_KIND, nonce);
      OpensIsEncoded(frame, 38, READY_KIND, nonce);
    }
  }

  lemma RequestIsLaidOut(frame: Bytes, r: Request)
    ensures frame == EncodeRequest(r) <==> RequestLaidOut(frame, r)
  {
    hide BigEndian.Encode, Opens, BigEndian.EightBytes;
    BigEndian.EncodesEight(r.requestId);
    BigEndian.EncodesEight(r.deadlineNs);
    var opening := BigEndian.Encode(54, 4) + (Header(REQUEST_KIND) + r.nonce);
    var encoded := EncodeRequest(r);
    assert encoded == opening + (BigEndian.EightBytes(r.requestId) + BigEndian.EightBytes(r.deadlineNs));
    OpensLength(frame, 54, REQUEST_KIND, r.nonce);
    if |frame| == 58 {
      OpensIsEncoded(frame, 54, REQUEST_KIND, r.nonce);
      assert frame == frame[..42] + (frame[42..50] + frame[50..58]);
    }
    assert encoded[..42] == opening && encoded[42..50] == BigEndian.EightBytes(r.requestId)
        && encoded[50..58] == BigEndian.EightBytes(r.deadlineNs);
  }

  lemma OpensLength(frame: Bytes, bodyLength: u8, kind: u8, nonce: Nonce)
    ensures Opens(frame, bodyLength, kind, nonce) ==> |frame| == 4 + bodyLength
  {
  }

  lemma AcknowledgementIsLaidOut(frame: Bytes, a: Acknowledgement)
    ensures frame == EncodeAcknowledgement(a) <==> AcknowledgementLaidOut(frame, a)
  {
    hide BigEndian.Encode, Opens, BigEndian.EightBytes;
    var (kind, hasSize, size) := ArtifactFields(a.artifact);
    BigEndian.EncodesEight(a.requestId);
    BigEndian.EncodesEight(size);
    var opening := BigEndian.Encode(57, 4) + (Header(ACKNOWLEDGEMENT_KIND) + a.nonce);
    var encoded := EncodeAcknowledgement(a);
    assert encoded == opening + (BigEndian.EightBytes(a.requestId)
                                 + ([StatusByte(a.status), kind, hasSize] + BigEndian.EightBytes(size)));
    assert encoded[..42] == opening && encoded[42..50] == BigEndian.EightBytes(a.requestId)
        && encoded[53..61] == BigEndian.EightBytes(size);
    assert encoded[50] == StatusByte(a.status) && encoded[51] == kind && encoded[52] == hasSize;
    OpensLength(frame, 57, ACKNOWLEDGEMENT_KIND, a.nonce);
    if |frame| == 61 {
      OpensIsEncoded(frame, 57, ACKNOWLEDGEMENT_KIND, a.nonce);
      assert frame == frame[..42] + (frame[42..50] + ([frame[50], frame[51], frame[52]] + frame[53..61]));
    }
  }
}
