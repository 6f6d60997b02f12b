/** The whole checkpoint exchange from the worker's callback to the event the policy loop sees, through the
    bytes on the channel. */
module Exchange {
  import opened Common
  import opened Policy
  import opened ProcessActuator
  import Protocol = CheckpointProtocol
  import WireCodec
  import Worker

  /** What the supervisor learns from the polls that read these chunks in turn. */
  function Observed(s: Supervised, times: seq<Duration>, chunks: seq<Bytes>): (Supervised, seq<Observation>)
    requires |times| == |chunks|
    decreases |chunks|
  {
    if chunks == [] then (s, [])
    else
      var (next, seen) := PollCheckpoint(s, times[0], Ok(chunks[0]));
      var (last, rest) := Observed(next, times[1..], chunks[1..]);
      (last, (if seen.Some? && seen.value.event.Some? then [seen.value] else []) + rest)
  }

  /** What a worker's callback result must be seen as: only a returned, completed response acknowledges. */
  function Expected(r: Worker.CallbackResult, at: Duration, id: u64): Observation {
    if r.Returned? && r.response.status.Completed?
    then Observation(Some(CheckpointAck(at, id, true)), r.response.artifact)
    else Observation(Some(ActuationFailed(at, CheckpointKind, CheckpointRejected)), None)
  }

  predicate NoEmptyChunk(chunks: seq<Bytes>) {
    forall i :: 0 <= i < |chunks| ==> chunks[i] != []
  }

  /** A poll that reads part of the frame sees nothing and only buffers it. */
  lemma PartIsBuffered(s: Supervised, at: Duration, chunk: Bytes, rest: Bytes, a: WireCodec.Acknowledgement)
    requires s.channel.Some? && Protocol.Inv(s.channel.value.protocol) && chunk != [] && rest != []
    requires var p := s.channel.value.protocol;
             p.state.RequestedUnverified? && at < p.deadlineAt.value
             && p.buffer + chunk + rest == WireCodec.EncodeAcknowledgement(a)
    ensures var c := s.channel.value;
            PollCheckpoint(s, at, Ok(chunk))
            == (s.(channel := Some(c.(protocol := c.protocol.(buffer := c.protocol.buffer + chunk)))),
                Some(Observation(None, None)))
  {
    hide Protocol.IngestStep, WireCodec.EncodeAcknowledgement, Protocol.Inv, WireCodec.EncodeBody;
    EmptyReadOnlyChecksDeadline(s.channel.value.protocol, at);
    var body := Protocol.AcknowledgementIsAFrame(a);
    Protocol.PrefixIsPending(s.channel.value.protocol, at, chunk, rest, body);
  }

  /** However the worker's answer is cut, the polls before its last chunk see nothing, and the one that reads
      the last chunk sees exactly what the callback's result means. */
  lemma {:induction false} AnswerIsSeen(s: Supervised, times: seq<Duration>, chunks: seq<Bytes>, r: Worker.CallbackResult,
                                        id: u64)
    requires s.channel.Some? && Protocol.Inv(s.channel.value.protocol)
    requires |times| == |chunks| && NoEmptyChunk(chunks)
    requires var p := s.channel.value.protocol;
             && p.state.RequestedUnverified? && p.activeRequestId == Some(id) && Protocol.Before(times, p.deadlineAt.value)
             && p.buffer + Protocol.Joined(chunks)
                == WireCodec.WorkerAcknowledgementFrame(p.nonce, Worker.ResponseTo(r), id)
    ensures chunks != [] && Observed(s, times, chunks).1 == [Expected(r, times[|times| - 1], id)]
    decreases |chunks|
  {
    hide PollCheckpoint, WireCodec.WorkerAcknowledgementFrame, WireCodec.EncodeAcknowledgement, Protocol.Inv;
    var p := s.channel.value.protocol;
    var response := Worker.ResponseTo(r);
    var a := WireCodec.Acknowledgement(p.nonce, id, response.status, response.artifact);
    Worker.WorkerFrameIsAcknowledgement(p.nonce, response, id);
    if chunks == [] {
      NotWholeYet(p, a);
    } else {
      var rest := Protocol.Joined(chunks[1..]);
      assert p.buffer + Protocol.Joined(chunks) == p.buffer + chunks[0] + rest;
      if rest == [] {
        NothingJoined(chunks[1..]);
        assert p.buffer + chunks[0] + [] == p.buffer + chunks[0];
        WaitingHasDeadline(p);
        assert CompletesAnswer(p, times[0], Ok(chunks[0]), a);
        PollMeans(s, times[0], Ok(chunks[0]), a);
        assert [Expected(r, times[0], id)] + [] == [Expected(r, times[0], id)];
      } else {
        PartIsBuffered(s, times[0], chunks[0], rest, a);
        var next := PollCheckpoint(s, times[0], Ok(chunks[0])).0;
        BufferedIsInv(p, times[0], chunks[0], rest, a);
        assert p.buffer + chunks[0] + rest == (p.buffer + chunks[0]) + rest;
        AnswerIsSeen(next, times[1..], chunks[1..], r, id);
        assert [] + Observed(next, times[1..], chunks[1..]).1 == Observed(next, times[1..], chunks[1..]).1;
      }
    }
  }

  lemma NothingJoined(chunks: seq<Bytes>)
    requires NoEmptyChunk(chunks)
    ensures Protocol.Joined(chunks) == [] ==> chunks == []
  {
    if chunks != [] {
      assert |Protocol.Joined(chunks)| >= |chunks[0]|;
    }
  }

  lemma NotWholeYet(p: Protocol.Protocol, a: WireCodec.Acknowledgement)
    requires Protocol.Inv(p)
    ensures p.buffer + Protocol.Joined([]) != WireCodec.EncodeAcknowledgement(a)
  {
    var body := Protocol.AcknowledgementIsAFrame(a);
    Protocol.BufferIsIncomplete(p.buffer, body);
    assert p.buffer + [] == p.buffer;
  }

  lemma BufferedIsInv(p: Protocol.Protocol, at: Duration, chunk: Bytes, rest: Bytes, a: WireCodec.Acknowledgement)
    requires Protocol.Inv(p) && p.state.RequestedUnverified? && at < p.deadlineAt.value && rest != []
    requires p.buffer + chunk + rest == WireCodec.EncodeAcknowledgement(a)
    ensures Protocol.Inv(p.(buffer := p.buffer + chunk))
  {
    hide Protocol.IngestStep, WireCodec.EncodeAcknowledgement, WireCodec.EncodeBody, Protocol.Inv;
    var body := Protocol.AcknowledgementIsAFrame(a);
    Protocol.PrefixIsPending(p, at, chunk, rest, body);
    Protocol.StepKeepsInv(p, Protocol.Ingest(at, chunk));
  }

  /** From the request to the event: the worker is asked under the same id and deadline, and its answer, cut
      into any nonempty chunks that arrive before the deadline, is seen once, as an acknowledgement with its
      artifact when the callback returned a completed response, and as a rejected checkpoint otherwise. */
  lemma CallbackDecides(s: Supervised, id: u64, requestedAt: Duration, deadlineAt: Duration, frame: Bytes, trailing: Bytes,
                        r: Worker.CallbackResult, times: seq<Duration>, chunks: seq<Bytes>)
    requires s.channel.Some? && Protocol.Inv(s.channel.value.protocol)
    requires Protocol.BeginStep(s.channel.value.protocol, id, requestedAt, deadlineAt).1 == Ok(frame)
    requires |times| == |chunks| && NoEmptyChunk(chunks) && Protocol.Before(times, deadlineAt)
    requires Protocol.Joined(chunks)
             == WireCodec.WorkerAcknowledgementFrame(s.channel.value.protocol.nonce, Worker.ResponseTo(r), id)
    ensures Worker.FrameOf(frame + trailing) == Ok(frame)
    ensures WireCodec.WorkerDecodeRequest(frame, s.channel.value.protocol.nonce) == Some((id, deadlineAt))
    ensures var c := s.channel.value;
            var waiting := s.(channel := Some(c.(protocol := Protocol.BeginStep(c.protocol, id, requestedAt, deadlineAt).0)));
            chunks != [] && Observed(waiting, times, chunks).1 == [Expected(r, times[|times| - 1], id)]
  {
    hide WireCodec.WorkerAcknowledgementFrame, Worker.FrameOf, Observed, Protocol.Joined, Protocol.IngestAll;
    var c := s.channel.value;
    Worker.ExchangeCompletes(c.protocol, id, requestedAt, deadlineAt, frame, trailing, Worker.ResponseTo(r), times, chunks);
    var waiting := Protocol.BeginStep(c.protocol, id, requestedAt, deadlineAt).0;
    Protocol.StepKeepsInv(c.protocol, Protocol.Begin(id, requestedAt, deadlineAt));
    assert waiting.buffer == [];
    assert [] + Protocol.Joined(chunks) == Protocol.Joined(chunks);
    AnswerIsSeen(s.(channel := Some(c.(protocol := waiting))), times, chunks, r, id);
  }
}
