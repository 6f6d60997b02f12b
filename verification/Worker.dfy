/** The Python worker's side of the exchange (_checkpoint.py): exact reads over a channel that delivers
    short chunks or fails, and a callback run at most once. */
module Worker {
  import opened Common
  import BigEndian
  import opened WireCodec
  import opened CheckpointProtocol

  datatype ReadError = ClosedDuringFrame | OversizedFrame | ReadFailed

  /** The next whole frame of a byte stream, or why there is none. */
  function FrameOf(stream: Bytes): Result<Bytes, ReadError> {
    if |stream| < 4 then Err(ClosedDuringFrame)
    else
      var length := BigEndian.Decode(stream[..4]);
      if length > MAX_CHECKPOINT_FRAME_BYTES then Err(OversizedFrame)
      else if |stream| < 4 + length then Err(ClosedDuringFrame)
      else Ok(stream[..4 + length])
  }

  /** A connected stream socket: `unread` is everything the peer will ever still deliver. */
  class Channel {
    var unread: Bytes
    var sent: seq<Bytes>
    /** Some receive or send has failed. */
    ghost var faulted: bool

    constructor (unread: Bytes)
      ensures this.unread == unread && sent == [] && !faulted
    {
      this.unread, sent, faulted := unread, [], false;
    }

    /** At most `n` bytes, as many as happen to have arrived; none only at the end of the stream. */
    method Recv(n: nat) returns (r: Result<Bytes, ReadError>)
      requires n > 0
      modifies this`unread, this`faulted
      ensures faulted == (old(faulted) || r.Err?)
      ensures r.Err? ==> r.error.ReadFailed? && unread == old(unread)
      ensures r.Ok? ==> old(unread) == r.value + unread && |r.value| <= n
      ensures r.Ok? && r.value == [] ==> old(unread) == []
    {
      if * {
        faulted := true;
        return Err(ReadFailed);
      }
      var count := Min(n, |unread|);
      if count > 0 {
        count :| 1 <= count <= Min(n, |unread|);
      }
      r := Ok(unread[..count]);
      unread := unread[count..];
    }

    method SendAll(frame: Bytes) returns (ok: bool)
      modifies this`sent, this`faulted
      ensures faulted == (old(faulted) || !ok)
      ensures sent == if ok then old(sent) + [frame] else old(sent)
    {
      ok := *;
      faulted := faulted || !ok;
      if ok {
        sent := sent + [frame];
      }
    }

    /** However the bytes arrive, an exact read returns the next `length` of them, reports a closed
        channel when the stream ends before, and a failed read only when one failed. */
    method ReadExact(length: nat) returns (r: Result<Bytes, ReadError>)
      modifies this`unread, this`faulted
      ensures faulted == (old(faulted) || r == Err(ReadFailed))
      ensures r.Ok? ==> |r.value| == length && old(unread) == r.value + unread
      ensures r.Err? ==> r.error.ReadFailed? || (r.error.ClosedDuringFrame? && |old(unread)| < length)
    {
      var joined: Bytes := [];
      var remaining := length;
      while remaining > 0
        invariant |joined| + remaining == length && remaining >= 0
        invariant old(unread) == joined + unread && faulted == old(faulted)
      {
        var chunk := Recv(remaining);
        if chunk.Err? {
          return Err(ReadFailed);
        }
        if chunk.value == [] {
          return Err(ClosedDuringFrame);
        }
        joined := joined + chunk.value;
        remaining := remaining - |chunk.value|;
      }
      return Ok(joined);
    }

    /** The next frame of the stream, or the code's refusal, unless a receive failed. */
    method ReadFrame() returns (r: Result<Bytes, ReadError>)
      modifies this`unread, this`faulted
      ensures faulted == (old(faulted) || r == Err(ReadFailed))
      ensures r == Err(ReadFailed) || r == FrameOf(old(unread))
      ensures r.Ok? ==> old(unread) == r.value + unread
    {
      var header := ReadExact(4);
      if header.Err? {
        return header;
      }
      assert old(unread)[..4] == header.value;
      var bodyLength := BigEndian.Decode(header.value);
      if bodyLength > MAX_CHECKPOINT_FRAME_BYTES {
        return Err(OversizedFrame);
      }
      var body := ReadExact(bodyLength);
      if body.Err? {
        return body;
      }
      assert old(unread) == (header.value + body.value) + unread;
      return Ok(header.value + body.value);
    }
  }

  /** What a user callback can do. */
  datatype CallbackResult = Returned(response: Response) | ReturnedOther | RaisedException | RaisedOther

  datatype PollOutcome =
    | NothingPending | WorkerClosed | Repeated | BadRequest | CallbackFailed | WriteFailed
    | Responded(response: Response)

  const FAILED_RESPONSE := Response(Failed, None)

  function ResponseTo(c: CallbackResult): Response {
    if c.Returned? then c.response else FAILED_RESPONSE
  }

  class CheckpointWorker {
    const channel: Channel
    const nonce: Nonce
    const callback: ((u64, u64)) -> CallbackResult
    var pending: bool
    var handled: bool
    var closed: bool
    /** The requests the callback was run on. */
    ghost var called: seq<(u64, u64)>

    /** The callback has run at most once, and nothing was sent that does not answer its request. */
    ghost predicate Valid()
      reads this, channel
    {
      && |called| <= 1 && |channel.sent| <= |called|
      && (called != [] ==> handled)
      && (channel.sent != [] ==>
            channel.sent == [WorkerAcknowledgementFrame(nonce, ResponseTo(callback(called[0])), called[0].0)])
    }

    constructor (channel: Channel, nonce: Nonce, callback: ((u64, u64)) -> CallbackResult)
      requires channel.sent == []
      ensures this.channel == channel && this.nonce == nonce && this.callback == callback
      ensures Valid() && called == [] && !pending && !handled && !closed
    {
      this.channel, this.nonce, this.callback := channel, nonce, callback;
      pending, handled, closed, called := false, false, false, [];
    }

    method OnSignal()
      requires Valid()
      modifies this`pending
      ensures Valid() && pending
    {
      pending := true;
    }

    method Close()
      requires Valid()
      modifies this`closed
      ensures Valid() && closed
    {
      closed := true;
    }

    /** Run at most one pending callback, and answer exactly the request it was run on. A request is
        refused only if it is none under this nonce, or the channel failed. */
    method Poll() returns (r: PollOutcome)
      requires Valid()
      modifies this`pending, this`handled, this`called, channel
      ensures Valid()
      ensures r.WorkerClosed? <==> closed
      ensures r.NothingPending? <==> !closed && !old(pending)
      ensures r.Repeated? <==> !closed && old(pending) && old(handled)
      ensures r.WorkerClosed? || r.NothingPending? ==> pending == old(pending) && handled == old(handled)
      ensures !r.WorkerClosed? && !r.NothingPending? ==> !pending && handled
      ensures var tried := !r.WorkerClosed? && !r.NothingPending? && !r.Repeated?;
              && (!tried || r.BadRequest? ==> called == old(called) && channel.sent == old(channel.sent))
              && (!tried ==> channel.unread == old(channel.unread))
              && (tried && r.BadRequest? && !channel.faulted ==>
                    var frame := FrameOf(old(channel.unread));
                    frame.Err? || WorkerDecodeRequest(frame.value, nonce).None?)
              && (r.WriteFailed? ==> channel.faulted)
              && (tried && !r.BadRequest? ==>
                    && FrameOf(old(channel.unread)).Ok?
                    && |called| == 1
                    && WorkerDecodeRequest(FrameOf(old(channel.unread)).value, nonce) == Some((called[0].0, called[0].1))
                    && |channel.sent| == (if r.WriteFailed? then 0 else 1)
                    && (r.CallbackFailed? ==> !callback(called[0]).Returned?)
                    && (r.Responded? ==> callback(called[0]) == Returned(r.response)))
    {
      if closed {
        return WorkerClosed;
      }
      if !pending {
        return NothingPending;
      }
      pending := false;
      if handled {
        return Repeated;
      }
      handled := true;
      var frame := channel.ReadFrame();
      if frame.Err? {
        return BadRequest;
      }
      var request := WorkerDecodeRequest(frame.value, nonce);
      if request.None? {
        return BadRequest;
      }
      DecodedFieldsFit(frame.value, nonce);
      var id: u64, deadline: u64 := request.value.0, request.value.1;
      var result := callback((id, deadline));
      called := called + [(id, deadline)];
      var response := ResponseTo(result);
      var written := channel.SendAll(WorkerAcknowledgementFrame(nonce, response, id));
      if !written {
        return WriteFailed;
      }
      return if result.Returned? then Responded(result.response) else CallbackFailed;
    }
  }

  lemma DecodedFieldsFit(frame: Bytes, nonce: Nonce)
    requires WorkerDecodeRequest(frame, nonce).Some?
    ensures WorkerDecodeRequest(frame, nonce).value.0 <= U64_MAX
    ensures WorkerDecodeRequest(frame, nonce).value.1 <= U64_MAX
  {
    BigEndian.Widths();
  }

  // ---- The whole exchange ----

  /** The first frame of a stream that starts with an encoded body is that encoding. */
  lemma FrameComesFirst(body: Bytes, rest: Bytes)
    requires |body| <= MAX_CHECKPOINT_FRAME_BYTES
    ensures FrameOf(EncodeBody(body) + rest) == Ok(EncodeBody(body))
  {
    BigEndian.Widths();
    BigEndian.DecodeOfEncode(|body|, 4);
    var stream := EncodeBody(body) + rest;
    assert stream[..4] == EncodeBody(body)[..4] == BigEndian.Encode(|body|, 4);
    assert stream[..4 + |body|] == EncodeBody(body);
  }

  /** A request the supervisor opens reaches the worker's callback with the same id and deadline,
      whatever follows it on the channel; and whatever response the callback gives, its frame, cut into
      any chunks that arrive before the deadline, makes the supervisor accept exactly that response, once. */
  lemma ExchangeCompletes(p: Protocol, requestId: u64, requestedAt: Duration, deadlineAt: Duration,
                          frame: Bytes, trailing: Bytes,
                          response: Response, times: seq<Duration>, chunks: seq<Bytes>)
    requires Inv(p) && BeginStep(p, requestId, requestedAt, deadlineAt).1 == Ok(frame)
    requires |times| == |chunks| && Before(times, deadlineAt)
    requires Joined(chunks) == WorkerAcknowledgementFrame(p.nonce, response, requestId)
    ensures FrameOf(frame + trailing) == Ok(frame)
    ensures WorkerDecodeRequest(frame, p.nonce) == Some((requestId, deadlineAt))
    ensures var waiting := BeginStep(p, requestId, requestedAt, deadlineAt).0;
            IngestAll(waiting, times, chunks).1
            == [Acknowledgement(p.nonce, requestId, response.status, response.artifact)]
  {
    hide IngestStep, IngestAll, EncodeAcknowledgement;
    var request := Request(p.nonce, requestId, deadlineAt);
    WorkerReadsRequest(p.nonce, request);
    FrameComesFirst(Header(REQUEST_KIND) + p.nonce + BigEndian.Encode(requestId, 8)
                    + BigEndian.Encode(deadlineAt, 8), trailing);
    var waiting := BeginStep(p, requestId, requestedAt, deadlineAt).0;
    var a := Acknowledgement(p.nonce, requestId, response.status, response.artifact);
    WorkerFrameIsAcknowledgement(p.nonce, response, requestId);
    assert waiting.buffer + Joined(chunks) == Joined(chunks);
    ChunkingInvariance(waiting, times, chunks, a);
  }

  lemma WorkerFrameIsAcknowledgement(nonce: Nonce, response: Response, requestId: u64)
    ensures WorkerAcknowledgementFrame(nonce, response, requestId)
         == EncodeAcknowledgement(Acknowledgement(nonce, requestId, response.status, response.artifact))
  {
  }
}
