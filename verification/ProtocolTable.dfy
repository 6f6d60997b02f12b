/** The documented validation rules of the checkpoint exchange, call by call: what every input is answered
    with in every state, and what it leaves behind. */
module ProtocolTable {
  import opened Common
  import BigEndian
  import opened WireCodec
  import opened CheckpointProtocol

  /** Answered with one rejection. */
  predicate Refused(poll: Poll, r: Rejection) {
    poll.acknowledgement.None? && poll.rejections == [r]
  }

  /** The exchange is over: nothing buffered, nothing awaited. */
  predicate Ended(p: Protocol, q: Protocol, state: ProtocolState) {
    q == p.(state := state, buffer := [], activeRequestId := None, deadlineAt := None, endpointExited := q.endpointExited)
  }

  /** Data after the end: nothing changes, and the rejection says how the exchange had ended. */
  lemma AfterTheEnd(p: Protocol, at: Duration, chunk: Bytes)
    ensures var (q, poll) := IngestStep(p, at, chunk);
            && (p.endpointExited ==> q == p && Refused(poll, PostExit))
            && (!p.endpointExited && (p.state.AcknowledgedUnverifiedDurability? || p.state.WorkerFailed?) ==>
                  q == p && Refused(poll, Duplicate))
            && (!p.endpointExited && p.state.TimedOut? ==> q == p && Refused(poll, Late))
            && (!p.endpointExited && p.state.Cancelled? ==> q == p && Refused(poll, PostCancel))
  {
  }

  /** Before any request, data is malformed; at or after the deadline, it is late, whatever it is. */
  lemma OutsideTheWindow(p: Protocol, at: Duration, chunk: Bytes)
    requires Inv(p)
    ensures var (q, poll) := IngestStep(p, at, chunk);
            && (p.state.Idle? ==> q == p && Refused(poll, Malformed))
            && (p.state.RequestedUnverified? && at >= p.deadlineAt.value ==>
                  q == p.(state := TimedOut, buffer := []) && Refused(poll, Late))
  {
  }

  /** While a request is open: a partial frame waits; one that is too large, longer than it announces, not an
      acknowledgement, under another nonce or for another request is thrown away with its own rejection and the
      request stays open; and only the answer to the open request settles it. */
  lemma WhileOpen(p: Protocol, at: Duration, chunk: Bytes, a: Acknowledgement)
    requires Inv(p) && p.state.RequestedUnverified? && at < p.deadlineAt.value
    ensures var (q, poll) := IngestStep(p, at, chunk);
            var data := p.buffer + chunk;
            var dropped := p.(buffer := []);
            var whole := |data| >= 4 && |data| == 4 + BigEndian.FirstNumber(data) <= 132;
            && (|data| > 132 || (|data| >= 4 && BigEndian.FirstNumber(data) > 128) ==> q == dropped && Refused(poll, Oversized))
            && (|data| < 4 || |data| < 4 + BigEndian.FirstNumber(data) <= 132 ==> q == p.(buffer := data) && poll == PENDING)
            && (|data| >= 4 && 4 + BigEndian.FirstNumber(data) < |data| <= 132 ==>
                  q == dropped && Refused(poll, Malformed))
            && (whole && DecodeAcknowledgement(data).None? ==> q == dropped && Refused(poll, Malformed))
            && (data == EncodeAcknowledgement(a) && a.requestId != 0 && a.nonce != p.nonce ==>
                  q == dropped && Refused(poll, WrongNonce))
            && (data == EncodeAcknowledgement(a) && a.requestId != 0 && a.nonce == p.nonce
                && p.activeRequestId != Some(a.requestId) ==>
                  q == dropped && Refused(poll, Replay))
            && (data == EncodeAcknowledgement(a) && a.nonce == p.nonce && p.activeRequestId == Some(a.requestId) ==>
                  && poll == Poll(Some(a), [])
                  && Ended(p, q, match a.status
                                 case Completed => AcknowledgedUnverifiedDurability
                                 case Failed => WorkerFailed
                                 case Cancelled => ProtocolState.Cancelled))
  {
    hide DecodeAcknowledgement, EncodeAcknowledgement, BigEndian.Decode;
    var data := p.buffer + chunk;
    if |data| >= 4 {
      BigEndian.FirstIsDecoded(data);
    }
    AcknowledgementCodec(data, a);
    if data == EncodeAcknowledgement(a) {
      WholeFrame(a);
    }
  }

  /** An encoded acknowledgement announces its own length. */
  lemma WholeFrame(a: Acknowledgement)
    ensures var frame := EncodeAcknowledgement(a); |frame| == 61 && BigEndian.Decode(frame[..4]) == 57
  {
    BigEndian.Widths();
    BigEndian.DecodeOfEncode(57, 4);
    assert EncodeAcknowledgement(a)[..4] == BigEndian.Encode(57, 4);
  }

  /** A request is opened only by an idle exchange, under a nonzero id and a deadline still to come that fits
      64 bits of nanoseconds; a refusal changes nothing. */
  lemma Opening(p: Protocol, id: u64, requestedAt: Duration, deadlineAt: Duration)
    ensures var (q, r) := BeginStep(p, id, requestedAt, deadlineAt);
            && (!p.state.Idle? <==> r == Err(ActiveRequest))
            && (p.state.Idle? && (id == 0 || deadlineAt <= requestedAt || p.endpointExited) <==> r == Err(InvalidRequest))
            && (p.state.Idle? && id != 0 && requestedAt < deadlineAt && !p.endpointExited && deadlineAt > U64_MAX
                <==> r == Err(DeadlineOutOfRange))
            && (r.Err? ==> q == p)
            && (r.Ok? ==>
                  && q == p.(state := ProtocolState.RequestedUnverified, activeRequestId := Some(id),
                          deadlineAt := Some(deadlineAt))
                  && DecodeRequest(r.value) == Some(Request(p.nonce, id, deadlineAt)))
  {
    if BeginStep(p, id, requestedAt, deadlineAt).1.Ok? {
      RequestCodec(EncodeRequest(Request(p.nonce, id, deadlineAt)), Request(p.nonce, id, deadlineAt));
    }
  }

  /** Cancelling or losing the worker ends the exchange; what was left of a frame is reported as partial. */
  lemma Ending(p: Protocol)
    ensures var (q, poll) := CancelStep(p);
            && Ended(p, q, ProtocolState.Cancelled) && q.endpointExited == p.endpointExited
            && poll == Poll(None, if p.buffer == [] then [] else [Partial])
    ensures var (q, poll) := ExitStep(p);
            && Ended(p, q, ProtocolState.Cancelled) && q.endpointExited
            && poll == Poll(None, if p.buffer == [] then [EndpointExited] else [Partial, EndpointExited])
  {
  }
}
