/** The supervisor's side of the checkpoint exchange (checkpoint.rs): incremental reassembly of one
    bounded frame and the at-most-once request state. */
module CheckpointProtocol {
  import opened Common
  import BigEndian
  import opened WireCodec

  datatype ProtocolState =
    | Idle | RequestedUnverified | AcknowledgedUnverifiedDurability | WorkerFailed | TimedOut | Cancelled

  datatype Rejection =
    | WrongNonce | Replay | Duplicate | Malformed | Oversized | Partial | Late
    | EndpointExited | PostExit | PostCancel

  datatype ProtocolError = ActiveRequest | InvalidRequest | DeadlineOutOfRange

  datatype Poll = Poll(acknowledgement: Option<Acknowledgement>, rejections: seq<Rejection>)

  const PENDING := Poll(None, [])
  /** The largest frame: a length and a body. */
  const CAPACITY: nat := MAX_CHECKPOINT_FRAME_BYTES + 4

  /** The protocol's fields as one value. */
  datatype Protocol = Protocol(
    nonce: Nonce,
    state: ProtocolState,
    activeRequestId: Option<u64>,
    deadlineAt: Option<Duration>,
    buffer: Bytes,
    endpointExited: bool)

  function New(nonce: Nonce): Protocol {
    Protocol(nonce, Idle, None, None, [], false)
  }

  function Rejected(r: Rejection): Poll {
    Poll(None, [r])
  }

  // ---- The protocol as a function ----

  function BeginStep(p: Protocol, requestId: u64, requestedAt: Duration, deadlineAt: Duration)
    : (Protocol, Result<Bytes, ProtocolError>)
  {
    if !p.state.Idle? then (p, Err(ActiveRequest))
    else if requestId == 0 || deadlineAt <= requestedAt || p.endpointExited then (p, Err(InvalidRequest))
    else if deadlineAt > U64_MAX then (p, Err(DeadlineOutOfRange))
    else (p.(state := RequestedUnverified, activeRequestId := Some(requestId), deadlineAt := Some(deadlineAt)),
          Ok(EncodeRequest(Request(p.nonce, requestId, deadlineAt))))
  }

  /** The buffer after one chunk, and the frame it completes. */
  function ReceiveStep(buffer: Bytes, chunk: Bytes): (Bytes, Result<Option<Bytes>, Rejection>) {
    if |buffer| + |chunk| > CAPACITY then ([], Err(Oversized))
    else
      var all := buffer + chunk;
      if |all| < 4 then (all, Ok(None))
      else
        var bodyLength := BigEndian.Decode(all[..4]);
        if bodyLength > MAX_CHECKPOINT_FRAME_BYTES then ([], Err(Oversized))
        else if |all| < 4 + bodyLength then (all, Ok(None))
        else if |all| != 4 + bodyLength then ([], Err(Malformed))
        else ([], Ok(Some(all)))
  }

  function StateFor(status: WorkerStatus): ProtocolState {
    match status
    case Completed => AcknowledgedUnverifiedDurability
    case Failed => WorkerFailed
    case Cancelled => ProtocolState.Cancelled
  }

  function AcceptStep(p: Protocol, frame: Bytes): (Protocol, Poll) {
    match DecodeAcknowledgement(frame)
    case None => (p, Rejected(Malformed))
    case Some(a) =>
      if a.nonce != p.nonce then (p, Rejected(WrongNonce))
      else if p.activeRequestId != Some(a.requestId) then (p, Rejected(Replay))
      else (p.(activeRequestId := None, deadlineAt := None, state := StateFor(a.status)), Poll(Some(a), []))
  }

  function IngestStep(p: Protocol, at: Duration, chunk: Bytes): (Protocol, Poll) {
    if p.endpointExited then (p, Rejected(PostExit))
    else if p.state.AcknowledgedUnverifiedDurability? || p.state.WorkerFailed? then (p, Rejected(Duplicate))
    else if p.state.TimedOut? then (p, Rejected(Late))
    else if p.state.Cancelled? then (p, Rejected(PostCancel))
    else if p.deadlineAt.Some? && at >= p.deadlineAt.value then
      (p.(state := TimedOut, buffer := []), Rejected(Late))
    else if !p.state.RequestedUnverified? then (p, Rejected(Malformed))
    else
      var (buffer, received) := ReceiveStep(p.buffer, chunk);
      var q := p.(buffer := buffer);
      match received
      case Err(rejection) => (q, Rejected(rejection))
      case Ok(None) => (q, PENDING)
      case Ok(Some(frame)) => AcceptStep(q, frame)
  }

  function Leftover(p: Protocol): seq<Rejection> {
    if p.buffer == [] then [] else [Partial]
  }

  function CancelStep(p: Protocol): (Protocol, Poll) {
    (p.(buffer := [], activeRequestId := None, deadlineAt := None, state := ProtocolState.Cancelled),
     Poll(None, Leftover(p)))
  }

  function ExitStep(p: Protocol): (Protocol, Poll) {
    (CancelStep(p).0.(endpointExited := true), Poll(None, Leftover(p) + [EndpointExited]))
  }

  // ---- The protocol itself ----

  class CheckpointProtocol {
    const nonce: Nonce
    var state: ProtocolState
    var activeRequestId: Option<u64>
    var deadlineAt: Option<Duration>
    var buffer: Bytes
    var endpointExited: bool

    function View(): Protocol
      reads this
    {
      Protocol(nonce, state, activeRequestId, deadlineAt, buffer, endpointExited)
    }

    constructor (nonce: Nonce)
      ensures View() == New(nonce)
    {
      this.nonce, state, activeRequestId, deadlineAt, buffer, endpointExited := nonce, Idle, None, None, [], false;
    }

    method BeginRequest(requestId: u64, requestedAt: Duration, deadlineAt: Duration)
      returns (r: Result<Bytes, ProtocolError>)
      modifies this
      ensures (View(), r) == BeginStep(old(View()), requestId, requestedAt, deadlineAt)
    {
      if !state.Idle? {
        return Err(ActiveRequest);
      }
      if requestId == 0 || deadlineAt <= requestedAt || endpointExited {
        return Err(InvalidRequest);
      }
      if deadlineAt > U64_MAX {
        return Err(DeadlineOutOfRange);
      }
      state := RequestedUnverified;
      activeRequestId := Some(requestId);
      this.deadlineAt := Some(deadlineAt);
      return Ok(EncodeRequest(Request(nonce, requestId, deadlineAt)));
    }

    method Ingest(at: Duration, chunk: Bytes) returns (poll: Poll)
      modifies this
      ensures (View(), poll) == IngestStep(old(View()), at, chunk)
    {
      if endpointExited {
        return Rejected(PostExit);
      }
      if state.AcknowledgedUnverifiedDurability? || state.WorkerFailed? {
        return Rejected(Duplicate);
      }
      if state.TimedOut? {
        return Rejected(Late);
      }
      if state.Cancelled? {
        return Rejected(PostCancel);
      }
      if deadlineAt.Some? && at >= deadlineAt.value {
        state := TimedOut;
        buffer := [];
        return Rejected(Late);
      }
      if !state.RequestedUnverified? {
        return Rejected(Malformed);
      }
      var received := ReceiveFrame(chunk);
      if received.Err? {
        return Rejected(received.error);
      }
      if received.value.None? {
        return PENDING;
      }
      var decoded := DecodeAcknowledgement(received.value.value);
      if decoded.None? {
        return Rejected(Malformed);
      }
      var acknowledgement := decoded.value;
      if acknowledgement.nonce != nonce {
        return Rejected(WrongNonce);
      }
      if activeRequestId != Some(acknowledgement.requestId) {
        return Rejected(Replay);
      }
      activeRequestId := None;
      deadlineAt := None;
      match acknowledgement.status {
        case Completed => state := AcknowledgedUnverifiedDurability;
        case Failed => state := WorkerFailed;
        case Cancelled => state := ProtocolState.Cancelled;
      }
      return Poll(Some(acknowledgement), []);
    }

    method ReceiveFrame(chunk: Bytes) returns (r: Result<Option<Bytes>, Rejection>)
      modifies this`buffer
      ensures (buffer, r) == ReceiveStep(old(buffer), chunk)
    {
      if |buffer| + |chunk| > CAPACITY {
        buffer := [];
        return Err(Oversized);
      }
      buffer := buffer + chunk;
      if |buffer| < 4 {
        return Ok(None);
      }
      var bodyLength := BigEndian.Decode(buffer[..4]);
      if bodyLength > MAX_CHECKPOINT_FRAME_BYTES {
        buffer := [];
        return Err(Oversized);
      }
      if |buffer| < 4 + bodyLength {
        return Ok(None);
      }
      if |buffer| != 4 + bodyLength {
        buffer := [];
        return Err(Malformed);
      }
      var frame := buffer;
      buffer := [];
      return Ok(Some(frame));
    }

    method EndpointExit() returns (poll: Poll)
      modifies this
      ensures (View(), poll) == ExitStep(old(View()))
    {
      var rejections := if buffer == [] then [] else [Partial];
      rejections := rejections + [EndpointExited];
      buffer := [];
      activeRequestId := None;
      deadlineAt := None;
      endpointExited := true;
      state := ProtocolState.Cancelled;
      return Poll(None, rejections);
    }

    method Cancel() returns (poll: Poll)
      modifies this
      ensures (View(), poll) == CancelStep(old(View()))
    {
      var rejections := if buffer == [] then [] else [Partial];
      buffer := [];
      activeRequestId := None;
      deadlineAt := None;
      state := ProtocolState.Cancelled;
      return Poll(None, rejections);
    }
  }

  // ---- Whole call sequences ----

  datatype Call =
    | Begin(requestId: u64, requestedAt: Duration, deadlineAt: Duration)
    | Ingest(at: Duration, chunk: Bytes)
    | EndpointExit
    | Cancel

  function Step(p: Protocol, c: Call): Protocol {
    match c
    case Begin(id, at, deadline) => BeginStep(p, id, at, deadline).0
    case Ingest(at, chunk) => IngestStep(p, at, chunk).0
    case EndpointExit => ExitStep(p).0
    case Cancel => CancelStep(p).0
  }

  /** The acknowledgement a call returns, if any. */
  function Answer(p: Protocol, c: Call): Option<Acknowledgement> {
    match c
    case Ingest(at, chunk) => IngestStep(p, at, chunk).1.acknowledgement
    case _ => None
  }

  function After(p: Protocol, calls: seq<Call>, k: nat): Protocol
    requires k <= |calls|
  {
    if k == 0 then p else Step(After(p, calls, k - 1), calls[k - 1])
  }

  /** Nothing decodable is ever left in the buffer: it is shorter than the frame it announces. */
  predicate Incomplete(buffer: Bytes) {
    |buffer| < 4
    || (BigEndian.Decode(buffer[..4]) <= MAX_CHECKPOINT_FRAME_BYTES
        && |buffer| < 4 + BigEndian.Decode(buffer[..4]))
  }

  predicate Inv(p: Protocol) {
    && Incomplete(p.buffer) && |p.buffer| < CAPACITY
    && (p.buffer != [] ==> p.state.RequestedUnverified?)
    && (p.state.RequestedUnverified? ==>
          !p.endpointExited && p.activeRequestId.Some? && p.activeRequestId.value != 0 && p.deadlineAt.Some?)
    && (p.state.Idle? ==> p.activeRequestId.None? && p.deadlineAt.None? && !p.endpointExited)
  }

  lemma StepKeepsInv(p: Protocol, c: Call)
    requires Inv(p)
    ensures Inv(Step(p, c)) && Step(p, c).nonce == p.nonce
    ensures Step(p, c).state.Idle? ==> p.state.Idle? && Step(p, c) == p
    ensures Step(p, c).state.RequestedUnverified? && p.state.RequestedUnverified? ==>
              Step(p, c) == p.(buffer := Step(p, c).buffer)
    ensures Step(p, c).state.RequestedUnverified? ==> p.state.RequestedUnverified? || p.state.Idle?
  {
    hide DecodeAcknowledgement, EncodeRequest, BigEndian.Decode;
  }

  /** Between calls, over every call sequence, the buffer stays below the largest frame and never
      holds a complete one. */
  lemma {:induction false} RunKeepsInv(nonce: Nonce, calls: seq<Call>, k: nat)
    requires k <= |calls|
    ensures Inv(After(New(nonce), calls, k)) && After(New(nonce), calls, k).nonce == nonce
  {
    if k > 0 {
      RunKeepsInv(nonce, calls, k - 1);
      StepKeepsInv(After(New(nonce), calls, k - 1), calls[k - 1]);
    }
  }

  /** Exactly one of the first `k` calls opened the request the protocol is waiting for. */
  ghost predicate Opened(nonce: Nonce, calls: seq<Call>, k: nat, j: nat)
    requires k <= |calls|
  {
    && j < k && calls[j].Begin?
    && var p := After(New(nonce), calls, k);
       && p.activeRequestId == Some(calls[j].requestId) && p.deadlineAt == Some(calls[j].deadlineAt)
       && calls[j].deadlineAt <= U64_MAX
       && BeginStep(After(New(nonce), calls, j), calls[j].requestId, calls[j].requestedAt, calls[j].deadlineAt).1
          == Ok(EncodeRequest(Request(nonce, calls[j].requestId, calls[j].deadlineAt)))
  }

  lemma {:induction false} WaitingWasOpened(nonce: Nonce, calls: seq<Call>, k: nat) returns (j: nat)
    requires k <= |calls| && After(New(nonce), calls, k).state.RequestedUnverified?
    ensures Opened(nonce, calls, k, j)
  {
    var p := After(New(nonce), calls, k - 1);
    RunKeepsInv(nonce, calls, k - 1);
    StepKeepsInv(p, calls[k - 1]);
    if p.state.RequestedUnverified? {
      j := WaitingWasOpened(nonce, calls, k - 1);
    } else {
      j := k - 1;
    }
  }

  predicate Finished(p: Protocol) {
    !p.state.Idle? && !p.state.RequestedUnverified?
  }

  lemma {:induction false} FinishedStaysFinished(nonce: Nonce, calls: seq<Call>, j: nat, k: nat)
    requires j <= k <= |calls| && Finished(After(New(nonce), calls, j))
    ensures Finished(After(New(nonce), calls, k))
  {
    if j < k {
      FinishedStaysFinished(nonce, calls, j, k - 1);
      RunKeepsInv(nonce, calls, k - 1);
      StepKeepsInv(After(New(nonce), calls, k - 1), calls[k - 1]);
    }
  }

  lemma AnswerFinishes(p: Protocol, c: Call)
    requires Inv(p) && Answer(p, c).Some?
    ensures p.state.RequestedUnverified? && Finished(Step(p, c))
    ensures Answer(p, c).value.nonce == p.nonce && p.activeRequestId == Some(Answer(p, c).value.requestId)
    ensures c.Ingest? && c.at < p.deadlineAt.value
  {
  }

  /** At most once, over every call sequence: an acknowledgement is returned only for a request an
      earlier call opened, under the protocol's own nonce, with that request's id, strictly before that
      request's deadline; and after it no call ever returns another. */
  lemma AcknowledgedAtMostOnce(nonce: Nonce, calls: seq<Call>, k: nat) returns (j: nat)
    requires k < |calls| && Answer(After(New(nonce), calls, k), calls[k]).Some?
    ensures Opened(nonce, calls, k, j)
    ensures var a := Answer(After(New(nonce), calls, k), calls[k]).value;
            a.nonce == nonce && a.requestId == calls[j].requestId
    ensures calls[k].Ingest? && calls[k].at < calls[j].deadlineAt
    ensures forall i :: 0 <= i < |calls| && i != k ==> Answer(After(New(nonce), calls, i), calls[i]).None?
  {
    hide Step, Answer, Inv, BeginStep;
    var p := After(New(nonce), calls, k);
    RunKeepsInv(nonce, calls, k);
    AnswerFinishes(p, calls[k]);
    j := WaitingWasOpened(nonce, calls, k);
    forall i | 0 <= i < |calls| && i != k ensures Answer(After(New(nonce), calls, i), calls[i]).None? {
      var first, second := if i < k then i else k, if i < k then k else i;
      if Answer(After(New(nonce), calls, i), calls[i]).Some? {
        RunKeepsInv(nonce, calls, i);
        AnswerFinishes(After(New(nonce), calls, i), calls[i]);
        FinishedStaysFinished(nonce, calls, first + 1, second);
        assert false;
      }
    }
  }

  // ---- Chunking ----

  function Joined(chunks: seq<Bytes>): Bytes {
    if chunks == [] then [] else chunks[0] + Joined(chunks[1..])
  }

  /** The acknowledgements and the protocol left by ingesting chunks in turn. */
  function IngestAll(p: Protocol, times: seq<Duration>, chunks: seq<Bytes>): (Protocol, seq<Acknowledgement>)
    requires |times| == |chunks|
    decreases |chunks|
  {
    if chunks == [] then (p, [])
    else
      var (q, poll) := IngestStep(p, times[0], chunks[0]);
      var (r, rest) := IngestAll(q, times[1..], chunks[1..]);
      (r, (if poll.acknowledgement.Some? then [poll.acknowledgement.value] else []) + rest)
  }

  lemma {:induction false} NothingAfterTheEnd(p: Protocol, times: seq<Duration>, chunks: seq<Bytes>)
    requires |times| == |chunks| && Finished(p)
    ensures IngestAll(p, times, chunks) == (p, [])
    decreases |chunks|
  {
    if chunks != [] {
      assert IngestStep(p, times[0], chunks[0]).0 == p;
      assert IngestStep(p, times[0], chunks[0]).1.acknowledgement.None?;
      NothingAfterTheEnd(p, times[1..], chunks[1..]);
      var none: seq<Acknowledgement> := [];
      assert none + none == none;
    }
  }

  predicate Before(times: seq<Duration>, deadline: Duration) {
    forall i :: 0 <= i < |times| ==> times[i] < deadline
  }

  /** A strict prefix of a frame is buffered and nothing else happens. */
  lemma PrefixIsPending(p: Protocol, at: Duration, chunk: Bytes, rest: Bytes, body: Bytes)
    requires Inv(p) && p.state.RequestedUnverified? && at < p.deadlineAt.value
    requires |body| <= MAX_CHECKPOINT_FRAME_BYTES && p.buffer + chunk + rest == EncodeBody(body)
    ensures rest != [] ==> IngestStep(p, at, chunk) == (p.(buffer := p.buffer + chunk), PENDING)
    ensures rest == [] ==> IngestStep(p, at, chunk) == AcceptStep(p.(buffer := []), EncodeBody(body))
  {
    var all := p.buffer + chunk;
    BigEndian.Widths();
    BigEndian.DecodeOfEncode(|body|, 4);
    assert |all| + |rest| == 4 + |body|;
    if |all| >= 4 {
      assert all[..4] == (all + rest)[..4] == EncodeBody(body)[..4] == BigEndian.Encode(|body|, 4);
    }
    if rest == [] {
      assert all == all + rest;
    }
  }

  /** An incomplete buffer is not a whole frame. */
  lemma BufferIsIncomplete(buffer: Bytes, body: Bytes)
    requires Incomplete(buffer) && |body| <= MAX_CHECKPOINT_FRAME_BYTES
    ensures buffer != EncodeBody(body)
  {
    BigEndian.Widths();
    BigEndian.DecodeOfEncode(|body|, 4);
    assert EncodeBody(body)[..4] == BigEndian.Encode(|body|, 4);
  }

  lemma AcknowledgementIsAFrame(a: Acknowledgement) returns (body: Bytes)
    ensures EncodeAcknowledgement(a) == EncodeBody(body) && |body| <= MAX_CHECKPOINT_FRAME_BYTES
  {
    var (kind, hasSize, size) := ArtifactFields(a.artifact);
    body := Header(ACKNOWLEDGEMENT_KIND) + a.nonce + BigEndian.Encode(a.requestId, 8)
            + [StatusByte(a.status), kind, hasSize] + BigEndian.Encode(size, 8);
  }

  lemma MatchingFrameIsAccepted(p: Protocol, a: Acknowledgement)
    requires a.nonce == p.nonce && p.activeRequestId == Some(a.requestId) && a.requestId != 0
    ensures AcceptStep(p, EncodeAcknowledgement(a))
         == (p.(activeRequestId := None, deadlineAt := None, state := StateFor(a.status)), Poll(Some(a), []))
    ensures Finished(AcceptStep(p, EncodeAcknowledgement(a)).0)
  {
    AcknowledgementCodec(EncodeAcknowledgement(a), a);
  }

  /** However a valid matching acknowledgement is cut into chunks, empty ones included, ingesting them
      before the deadline returns exactly that acknowledgement, once, and leaves the same protocol. */
  lemma {:induction false} ChunkingInvariance(
    p: Protocol, times: seq<Duration>, chunks: seq<Bytes>, a: Acknowledgement)
    requires Inv(p) && p.state.RequestedUnverified?
    requires |times| == |chunks| && Before(times, p.deadlineAt.value)
    requires a.nonce == p.nonce && p.activeRequestId == Some(a.requestId)
    requires p.buffer + Joined(chunks) == EncodeAcknowledgement(a)
    ensures IngestAll(p, times, chunks)
         == (p.(buffer := [], activeRequestId := None, deadlineAt := None, state := StateFor(a.status)), [a])
    decreases |chunks|
  {
    hide IngestStep, EncodeAcknowledgement, AcceptStep, EncodeBody, StateFor;
    var body := AcknowledgementIsAFrame(a);
    if chunks == [] {
      BufferIsIncomplete(p.buffer, body);
    } else {
      var rest := Joined(chunks[1..]);
      assert p.buffer + Joined(chunks) == p.buffer + chunks[0] + rest;
      PrefixIsPending(p, times[0], chunks[0], rest, body);
      var q := IngestStep(p, times[0], chunks[0]).0;
      if rest == [] {
        MatchingFrameIsAccepted(p.(buffer := []), a);
        NothingAfterTheEnd(q, times[1..], chunks[1..]);
        assert [a] + [] == [a];
      } else {
        StepKeepsInv(p, Ingest(times[0], chunks[0]));
        ChunkingInvariance(q, times[1..], chunks[1..], a);
        assert [] + [a] == [a];
      }
    }
  }

  // ---- Rejected frames do not end the exchange ----

  /** A whole frame that is no acknowledgement of the open request under the own nonce. */
  predicate Foreign(p: Protocol, body: Bytes) {
    |body| <= MAX_CHECKPOINT_FRAME_BYTES
    && match DecodeAcknowledgement(EncodeBody(body))
       case None => true
       case Some(a) => a.nonce != p.nonce || p.activeRequestId != Some(a.requestId)
  }

  lemma ForeignIsRejected(p: Protocol, body: Bytes)
    requires Foreign(p, body)
    ensures AcceptStep(p, EncodeBody(body)).0 == p && AcceptStep(p, EncodeBody(body)).1.acknowledgement.None?
  {
  }

  lemma EmptyChunkIsPending(p: Protocol, at: Duration)
    requires Inv(p) && p.state.RequestedUnverified? && at < p.deadlineAt.value && p.buffer == []
    ensures IngestStep(p, at, []) == (p, PENDING)
  {
  }

  lemma {:induction false} EmptyChunksDoNothing(p: Protocol, times: seq<Duration>, chunks: seq<Bytes>)
    requires Inv(p) && p.state.RequestedUnverified? && p.buffer == []
    requires |times| == |chunks| && Before(times, p.deadlineAt.value) && Joined(chunks) == []
    ensures IngestAll(p, times, chunks) == (p, [])
    decreases |chunks|
  {
    hide IngestStep;
    if chunks != [] {
      assert chunks[0] == [] && Joined(chunks[1..]) == [];
      EmptyChunkIsPending(p, times[0]);
      EmptyChunksDoNothing(p, times[1..], chunks[1..]);
      var none: seq<Acknowledgement> := [];
      assert none + none == none;
    }
  }

  /** However a foreign frame is cut, it is rejected and leaves the exchange waiting as before. */
  lemma {:induction false} ForeignFrameIsIgnored(p: Protocol, times: seq<Duration>, chunks: seq<Bytes>, body: Bytes)
    requires Inv(p) && p.state.RequestedUnverified? && Foreign(p, body)
    requires |times| == |chunks| && Before(times, p.deadlineAt.value) && p.buffer + Joined(chunks) == EncodeBody(body)
    ensures IngestAll(p, times, chunks) == (p.(buffer := []), [])
    decreases |chunks|
  {
    hide IngestStep, AcceptStep, EncodeBody, DecodeAcknowledgement;
    if chunks == [] {
      BufferIsIncomplete(p.buffer, body);
    } else {
      var rest := Joined(chunks[1..]);
      assert p.buffer + Joined(chunks) == p.buffer + chunks[0] + rest;
      PrefixIsPending(p, times[0], chunks[0], rest, body);
      StepKeepsInv(p, Ingest(times[0], chunks[0]));
      var q := IngestStep(p, times[0], chunks[0]).0;
      var none: seq<Acknowledgement> := [];
      assert none + none == none;
      if rest == [] {
        ForeignIsRejected(p.(buffer := []), body);
        EmptyChunksDoNothing(q, times[1..], chunks[1..]);
      } else {
        ForeignFrameIsIgnored(q, times[1..], chunks[1..], body);
      }
    }
  }

  lemma {:induction false} IngestAllConcat(p: Protocol, ts: seq<Duration>, xs: seq<Bytes>, us: seq<Duration>, ys: seq<Bytes>)
    requires |ts| == |xs| && |us| == |ys|
    ensures var (q, first) := IngestAll(p, ts, xs);
            var (r, rest) := IngestAll(q, us, ys);
            IngestAll(p, ts + us, xs + ys) == (r, first + rest)
    decreases |xs|
  {
    hide IngestStep;
    if xs == [] {
      assert ts + us == us && xs + ys == ys;
      var (r, rest) := IngestAll(p, us, ys);
      assert [] + rest == rest;
    } else {
      assert (ts + us)[1..] == ts[1..] + us && (xs + ys)[1..] == xs[1..] + ys;
      var (next, poll) := IngestStep(p, ts[0], xs[0]);
      IngestAllConcat(next, ts[1..], xs[1..], us, ys);
      var (q, middle) := IngestAll(next, ts[1..], xs[1..]);
      var (r, rest) := IngestAll(q, us, ys);
      var head := if poll.acknowledgement.Some? then [poll.acknowledgement.value] else [];
      assert head + (middle + rest) == (head + middle) + rest;
    }
  }

  function Flat<T>(parts: seq<seq<T>>): seq<T> {
    if parts == [] then [] else parts[0] + Flat(parts[1..])
  }

  /** Frames delivered one after the other: each entry's chunks join to the frame of its body. */
  ghost predicate Delivers(times: seq<seq<Duration>>, chunks: seq<seq<Bytes>>, bodies: seq<Bytes>, deadline: Duration) {
    && |times| == |chunks| == |bodies|
    && (forall i :: 0 <= i < |bodies| ==>
          |times[i]| == |chunks[i]| && Before(times[i], deadline) && Joined(chunks[i]) == EncodeBody(bodies[i]))
  }

  lemma {:induction false} FlatTogether(times: seq<seq<Duration>>, chunks: seq<seq<Bytes>>)
    requires |times| == |chunks| && forall i :: 0 <= i < |times| ==> |times[i]| == |chunks[i]|
    ensures |Flat(times)| == |Flat(chunks)|
  {
    if times != [] {
      FlatTogether(times[1..], chunks[1..]);
    }
  }

  lemma {:induction false} ForeignFramesAreIgnored(p: Protocol, times: seq<seq<Duration>>, chunks: seq<seq<Bytes>>,
                                                   bodies: seq<Bytes>)
    requires Inv(p) && p.state.RequestedUnverified? && p.buffer == []
    requires Delivers(times, chunks, bodies, p.deadlineAt.value)
    requires forall i :: 0 <= i < |bodies| ==> Foreign(p, bodies[i])
    ensures |Flat(times)| == |Flat(chunks)| && IngestAll(p, Flat(times), Flat(chunks)) == (p, [])
    decreases |bodies|
  {
    hide IngestStep, Foreign, EncodeBody, Before;
    if bodies != [] {
      FlatTogether(times, chunks);
      FlatTogether(times[1..], chunks[1..]);
      assert p.buffer + Joined(chunks[0]) == Joined(chunks[0]);
      ForeignFrameIsIgnored(p, times[0], chunks[0], bodies[0]);
      ForeignFramesAreIgnored(p, times[1..], chunks[1..], bodies[1..]);
      IngestAllConcat(p, times[0], chunks[0], Flat(times[1..]), Flat(chunks[1..]));
      var none: seq<Acknowledgement> := [];
      assert none + none == none;
    }
  }

  /** Any number of whole frames with a wrong nonce, a wrong id or no meaning, each cut in any way, cannot
      keep a later valid acknowledgement, cut in any way, from being accepted before the deadline, once. */
  lemma AcceptedAfterRejections(p: Protocol, times: seq<seq<Duration>>, chunks: seq<seq<Bytes>>, bodies: seq<Bytes>,
                                last: seq<Duration>, cut: seq<Bytes>, a: Acknowledgement)
    requires Inv(p) && p.state.RequestedUnverified? && p.buffer == []
    requires Delivers(times, chunks, bodies, p.deadlineAt.value)
    requires forall i :: 0 <= i < |bodies| ==> Foreign(p, bodies[i])
    requires |last| == |cut| && Before(last, p.deadlineAt.value) && Joined(cut) == EncodeAcknowledgement(a)
    requires a.nonce == p.nonce && p.activeRequestId == Some(a.requestId)
    ensures |Flat(times) + last| == |Flat(chunks) + cut|
    ensures IngestAll(p, Flat(times) + last, Flat(chunks) + cut)
         == (p.(activeRequestId := None, deadlineAt := None, state := StateFor(a.status)), [a])
  {
    hide IngestAll, Foreign, EncodeBody, Delivers, EncodeAcknowledgement, Joined, Flat;
    ForeignFramesAreIgnored(p, times, chunks, bodies);
    assert p.buffer + Joined(cut) == Joined(cut);
    ChunkingInvariance(p, last, cut, a);
    IngestAllConcat(p, Flat(times), Flat(chunks), last, cut);
    assert [] + [a] == [a];
  }
}
