/** The actuator the supervisor really uses (intervention.rs) and the checkpoint channel inside it
    (checkpoint.rs): every reply of the operating system is an input. */
module ProcessActuator {
  import opened Common
  import opened Policy
  import opened Actuations
  import opened Intervention
  import WireCodec
  import Protocol = CheckpointProtocol
  import Identity
  import Tracking
  import Report

  // ---- The channel ----

  datatype ReadFailure = WouldBlock | PeerGone | Broken

  /** A nonblocking read; no bytes means the peer closed its end. */
  type ReadOutcome = Result<Bytes, ReadFailure>

  datatype Channel = Channel(protocol: Protocol.Protocol, negotiationStarted: bool, ready: bool, handshake: Bytes)

  const READY_FRAME_BYTES: nat := WireCodec.NEGOTIATION_BODY_BYTES + 4

  /** Poll for the worker's readiness frame: ready, not yet, or failed. */
  function PollReady(c: Channel, read: ReadOutcome): (Channel, Option<bool>) {
    if c.ready then (c, Some(true))
    else if !c.negotiationStarted then (c, Some(false))
    else match read
      case Err(WouldBlock) => (c, Some(false))
      case Err(_) => (c, None)
      case Ok(bytes) =>
        if bytes == [] then (c, None)
        else if |c.handshake| + |bytes| > READY_FRAME_BYTES then (c.(handshake := []), None)
        else
          var d := c.(handshake := c.handshake + bytes);
          if |d.handshake| < READY_FRAME_BYTES then (d, Some(false))
          else if WireCodec.DecodeNegotiation(d.handshake, WireCodec.READY_KIND) != Some(c.protocol.nonce) then (d, None)
          else (d.(handshake := [], ready := true), Some(true))
  }

  /** A channel becomes ready exactly on the last byte of a readiness frame under its own nonce. */
  lemma ReadyMeansOwnNonce(c: Channel, read: ReadOutcome)
    requires !c.ready
    ensures PollReady(c, read).0.ready <==>
              && c.negotiationStarted && read.Ok? && read.value != []
              && c.handshake + read.value == WireCodec.EncodeNegotiation(WireCodec.READY_KIND, c.protocol.nonce)
  {
    if read.Ok? {
      WireCodec.NegotiationCodec(c.handshake + read.value, WireCodec.READY_KIND, c.protocol.nonce);
    }
  }

  /** Poll for the acknowledgement: the deadline first, then one read; no result when the read broke. */
  function PollChannel(c: Channel, at: Duration, read: ReadOutcome): (Channel, Option<Protocol.Poll>) {
    if !c.protocol.state.RequestedUnverified? then (c, Some(Protocol.PENDING))
    else
      var (early, deadlinePoll) := Protocol.IngestStep(c.protocol, at, []);
      if deadlinePoll.rejections != [] then (c.(protocol := early), Some(deadlinePoll))
      else match read
        case Err(WouldBlock) => (c.(protocol := early), Some(Protocol.PENDING))
        case Err(Broken) => (c.(protocol := early), None)
        case Err(PeerGone) =>
          var (p, poll) := Protocol.ExitStep(early);
          (c.(protocol := p), Some(poll))
        case Ok(bytes) =>
          var (p, poll) := if bytes == [] then Protocol.ExitStep(early) else Protocol.IngestStep(early, at, bytes);
          (c.(protocol := p), Some(poll))
  }

  // ---- The actuator ----

  /** What the system answers to one execution: whether the request frame was written whole, the signal
      call's result, and whether the owned group still shows a live member. */
  datatype OsReply = OsReply(written: bool, signal: Result<Report.SignalResult, ActuationFailure>, live: bool)

  /** The replies still to come; afterwards everything is delivered. */
  datatype Supervised = Supervised(channel: Option<Channel>, replies: seq<OsReply>)

  const DELIVERED := OsReply(true, Ok(Report.SignalResult.Delivered), true)

  function NextReply(s: Supervised): OsReply {
    if s.replies == [] then DELIVERED else s.replies[0]
  }

  function Consumed(s: Supervised): Supervised {
    if s.replies == [] then s else s.(replies := s.replies[1..])
  }

  function MapSignal(r: Report.SignalResult, endpointOnly: bool): Reply {
    match r
    case Delivered => Ok(Outcome.Delivered)
    case ProcessMissing => if endpointOnly then Err(ActuationFailure.ProcessMissing) else Ok(Missing)
    case PermissionDenied => Err(ActuationFailure.PermissionDenied)
    case Failed => Err(SignalFailed)
  }

  predicate ConfirmedGone(f: Identity.ObservationFailure) {
    f.kind.Disappeared? && f.pid.Some?
  }

  predicate AllGone(failures: seq<Identity.ObservationFailure>) {
    forall i :: 0 <= i < |failures| ==> ConfirmedGone(failures[i])
  }

  predicate NoneLive(t: Identity.Tracker, os: seq<Identity.Observation>) {
    forall i :: 0 <= i < |os| ==> !Tracking.LiveMember(t, os[i])
  }

  /** Whether a fresh scan of the group shows a member a signal could still reach. */
  predicate FrameShowsLiveMember(frame: Identity.Frame) {
    frame.ownedMembers != [] || !AllGone(frame.failures)
  }

  /** An observed process that is the root or in the owned group. */
  predicate OfTheGroup(t: Identity.Tracker, o: Identity.Observation) {
    && o.identity.pid > 0 && o.identity.startAbstime != 0
    && (o.identity == t.root || o.processGroupId == t.ownedGroup)
  }

  /** Absence is shown exactly when the scan saw no process, of the root's identity or in the group, that has not
      exited, and every process it could not read is named and has disappeared. */
  lemma AbsenceIsShown(t: Identity.Tracker, snapshot: Identity.Snapshot)
    ensures var os := Identity.ByPid(snapshot.observations);
            !FrameShowsLiveMember(Tracking.UpdateOf(t, snapshot).frame) <==>
              && (forall i :: 0 <= i < |os| && OfTheGroup(t, os[i]) ==> os[i].exited)
              && (forall i :: 0 <= i < |snapshot.failures| ==>
                    snapshot.failures[i].kind.Disappeared? && snapshot.failures[i].pid.Some?)
  {
    AbsenceOf(t, snapshot);
    hide Tracking.UpdateOf, FrameShowsLiveMember, Identity.ByPid;
  }

  lemma AbsenceOf(t: Identity.Tracker, snapshot: Identity.Snapshot)
    ensures !FrameShowsLiveMember(Tracking.UpdateOf(t, snapshot).frame)
            <==> NoneLive(t, Identity.ByPid(snapshot.observations)) && AllGone(snapshot.failures)
  {
    hide Tracking.ScanAll, Tracking.AggregateOf, AllGone, NoneLive, Tracking.LiveMembers, Tracking.RelevantFailures;
    var os := Identity.ByPid(snapshot.observations);
    Tracking.MembersAreTheLiveOnes(t, os, |os|);
    NoneLiveOf(t, os);
    RelevantGone(t.root, snapshot.failures);
  }

  lemma NoneLiveOf(t: Identity.Tracker, os: seq<Identity.Observation>)
    ensures NoneLive(t, os) <==> Tracking.LiveMembers(t, os, |os|) == []
  {
    NoLiveMembers(t, os, |os|);
  }

  /** The failures that are left out are all confirmed disappearances. */
  lemma RelevantGone(root: Identity.ProcessIdentity, failures: seq<Identity.ObservationFailure>)
    ensures AllGone(Tracking.RelevantFailures(root, failures)) <==> AllGone(failures)
  {
    var relevant := Tracking.RelevantFailures(root, failures);
    if AllGone(failures) {
      forall i | 0 <= i < |relevant| ensures ConfirmedGone(relevant[i]) {
        assert relevant[i] in failures;
      }
    } else {
      var i :| 0 <= i < |failures| && !ConfirmedGone(failures[i]);
      assert failures[i] in relevant;
    }
  }

  lemma {:induction false} NoLiveMembers(t: Identity.Tracker, os: seq<Identity.Observation>, k: nat)
    requires k <= |os|
    ensures Tracking.LiveMembers(t, os, k) == [] <==> forall i :: 0 <= i < k ==> !Tracking.LiveMember(t, os[i])
  {
    hide Tracking.LiveMember;
    if k > 0 {
      NoLiveMembers(t, os, k - 1);
    }
  }

  /** A refused group signal means the command has ended, unless the group still has a live member. */
  function MapGroupSignal(r: Report.SignalResult, live: bool): Reply {
    if r.PermissionDenied? && !live then Ok(Missing) else MapSignal(r, false)
  }

  function Execute(s: Supervised, at: Duration, x: Actuation): (Supervised, Reply) {
    var reply := NextReply(s);
    var after := Consumed(s);
    match x
    case Checkpoint(requestId, _, deadlineAt) =>
      (match s.channel
       case None => (s, Err(CheckpointUnavailable))
       case Some(c) =>
         if !c.ready then (s, Err(CheckpointUnavailable))
         else
           var (requested, frame) := Protocol.BeginStep(c.protocol, requestId, at, deadlineAt);
           if frame.Err? then (s, Err(CheckpointRejected))
           else
             var asked := after.(channel := Some(c.(protocol := requested)));
             if !reply.written then (asked, Err(CheckpointUnavailable))
             else
               var result := if reply.signal.Err? then Err(reply.signal.error) else MapSignal(reply.signal.value, true);
               if result.Err? then (after.(channel := Some(c.(protocol := Protocol.CancelStep(requested).0))), result)
               else (asked, result))
    case _ =>
      (after, if reply.signal.Err? then Err(reply.signal.error) else MapGroupSignal(reply.signal.value, reply.live))
  }

  /** A checkpoint execution either delivers a request the idle protocol now waits for, under the same id
      and deadline, or fails. */
  lemma DeliveredMeansRequested(s: Supervised, at: Duration, requestId: u64, overshoot: u64, deadlineAt: Duration)
    ensures var (after, reply) := Execute(s, at, Checkpoint(requestId, overshoot, deadlineAt));
            reply.Ok? ==>
              && reply == Ok(Outcome.Delivered) && s.channel.Some? && s.channel.value.ready && requestId != 0
              && s.channel.value.protocol.state.Idle?
              && after.channel == Some(s.channel.value.(protocol := s.channel.value.protocol.(
                   state := Protocol.RequestedUnverified, activeRequestId := Some(requestId),
                   deadlineAt := Some(deadlineAt))))
  {
  }

  // ---- Observing the channel ----

  datatype Observation = Observation(event: Option<Event>, artifact: Option<WireCodec.Artifact>)

  predicate EndpointFailed(rejections: seq<Protocol.Rejection>) {
    Protocol.EndpointExited in rejections || Protocol.PostExit in rejections
  }

  function ObservationOf(at: Duration, poll: Protocol.Poll): Observation {
    match poll.acknowledgement
    case Some(a) =>
      if a.status.Completed? then Observation(Some(CheckpointAck(at, a.requestId, true)), a.artifact)
      else Observation(Some(ActuationFailed(at, CheckpointKind, CheckpointRejected)), None)
    case None =>
      Observation(if EndpointFailed(poll.rejections)
                  then Some(ActuationFailed(at, CheckpointKind, CheckpointUnavailable)) else None, None)
  }

  /** One poll of the channel, and what the policy loop learns from it; no result when it failed. */
  function PollCheckpoint(s: Supervised, at: Duration, read: ReadOutcome): (Supervised, Option<Observation>) {
    match s.channel
    case None => (s, None)
    case Some(c) =>
      var (d, poll) := PollChannel(c, at, read);
      (s.(channel := Some(d)), match poll case None => None case Some(p) => Some(ObservationOf(at, p)))
  }

  /** The protocol waits for exactly this request, or has already given up on its deadline. */
  predicate Waiting(p: Protocol.Protocol, requestId: Option<u64>, deadlineAt: Option<Duration>) {
    && Protocol.Inv(p)
    && (p.state.TimedOut? || (p.state.RequestedUnverified? && p.activeRequestId == requestId && p.deadlineAt == deadlineAt))
  }

  /** While a request is open, a poll that reports nothing leaves it open or timed out, and the only
      acknowledgement it can report carries the open request's id and comes before its deadline; an
      artifact comes only with one. */
  lemma PollAnswersTheRequest(s: Supervised, at: Duration, read: ReadOutcome, requestId: Option<u64>,
                              deadlineAt: Option<Duration>)
    requires s.channel.Some? && Waiting(s.channel.value.protocol, requestId, deadlineAt)
    ensures var (after, seen) := PollCheckpoint(s, at, read);
            && after.channel.Some? && after.channel.value.ready == s.channel.value.ready
            && (seen.None? || seen.value.event.None? ==> Waiting(after.channel.value.protocol, requestId, deadlineAt))
            && (seen.Some? && seen.value.artifact.Some? ==> seen.value.event.Some? && seen.value.event.value.CheckpointAck?)
            && (seen.Some? && seen.value.event.Some? ==>
                  match seen.value.event.value
                  case CheckpointAck(t, id, authenticated) =>
                    t == at && authenticated && requestId == Some(id) && deadlineAt.Some? && at < deadlineAt.value
                  case ActuationFailed(t, kind, _) => t == at && kind.CheckpointKind?
                  case _ => false)
  {
    hide Protocol.Inv, Protocol.IngestStep;
    var c := s.channel.value;
    var p := c.protocol;
    if p.state.RequestedUnverified? {
      IngestWhileWaiting(p, at, [], requestId, deadlineAt);
      var early := Protocol.IngestStep(p, at, []).0;
      if read.Ok? && early.state.RequestedUnverified? {
        IngestWhileWaiting(early, at, read.value, requestId, deadlineAt);
      }
    }
  }

  lemma IngestWhileWaiting(p: Protocol.Protocol, at: Duration, chunk: Bytes, requestId: Option<u64>,
                           deadlineAt: Option<Duration>)
    requires Waiting(p, requestId, deadlineAt) && p.state.RequestedUnverified?
    ensures var (q, poll) := Protocol.IngestStep(p, at, chunk);
            && Protocol.Inv(q)
            && (poll.acknowledgement.None? ==> Waiting(q, requestId, deadlineAt) && !EndpointFailed(poll.rejections))
            && (poll.acknowledgement.Some? ==>
                  poll.rejections == [] && requestId == Some(poll.acknowledgement.value.requestId)
                  && deadlineAt.Some? && at < deadlineAt.value)
            && (chunk == [] ==> poll.acknowledgement.None?)
            && (poll.rejections == [] && poll.acknowledgement.None? ==> q.state.RequestedUnverified?)
  {
    hide WireCodec.DecodeAcknowledgement;
    Protocol.StepKeepsInv(p, Protocol.Ingest(at, chunk));
    if chunk == [] {
      assert p.buffer + [] == p.buffer;
    }
  }

  // ---- Which bytes become which event ----

  /** The request is open, the deadline not reached, and the bytes just read complete the frame of `a`. */
  predicate CompletesAnswer(p: Protocol.Protocol, at: Duration, read: ReadOutcome, a: WireCodec.Acknowledgement) {
    && p.state.RequestedUnverified? && p.deadlineAt.Some? && at < p.deadlineAt.value
    && read.Ok? && read.value != [] && p.buffer + read.value == WireCodec.EncodeAcknowledgement(a)
    && a.nonce == p.nonce && p.activeRequestId == Some(a.requestId)
  }

  /** The worker's end of the channel is seen closed while the request is open. */
  predicate SeesPeerGone(p: Protocol.Protocol, at: Duration, read: ReadOutcome) {
    && p.state.RequestedUnverified? && p.deadlineAt.Some? && at < p.deadlineAt.value
    && (read == Err(PeerGone) || read == Ok([]))
  }

  lemma EmptyReadOnlyChecksDeadline(p: Protocol.Protocol, at: Duration)
    requires Protocol.Inv(p) && p.state.RequestedUnverified?
    ensures Protocol.IngestStep(p, at, [])
         == if at < p.deadlineAt.value then (p, Protocol.PENDING)
            else (p.(state := Protocol.TimedOut, buffer := []), Protocol.Rejected(Protocol.Late))
  {
    assert p.buffer + [] == p.buffer;
  }

  /** Ingesting bytes accepts exactly the frame of an acknowledgement of the open request. */
  lemma IngestAcceptsExactly(p: Protocol.Protocol, at: Duration, bytes: Bytes, a: WireCodec.Acknowledgement)
    requires Protocol.Inv(p) && p.state.RequestedUnverified? && at < p.deadlineAt.value
    ensures Protocol.IngestStep(p, at, bytes).1.acknowledgement == Some(a) <==>
              p.buffer + bytes == WireCodec.EncodeAcknowledgement(a)
              && a.nonce == p.nonce && p.activeRequestId == Some(a.requestId)
    ensures Protocol.IngestStep(p, at, bytes).1.acknowledgement.None? ==>
              !EndpointFailed(Protocol.IngestStep(p, at, bytes).1.rejections)
  {
    hide WireCodec.EncodeAcknowledgement, WireCodec.DecodeAcknowledgement, WireCodec.EncodeBody;
    WireCodec.AcknowledgementCodec(p.buffer + bytes, a);
    if p.buffer + bytes == WireCodec.EncodeAcknowledgement(a) {
      var body := Protocol.AcknowledgementIsAFrame(a);
      assert p.buffer + bytes + [] == p.buffer + bytes;
      Protocol.PrefixIsPending(p, at, bytes, [], body);
    }
  }

  /** What a poll of the channel tells the loop, exactly. A completed answer to the open request, and nothing
      else, is an acknowledgement, with the artifact it carried; any other answer to it is a rejected
      checkpoint without one; a closed channel is an unavailable one; and everything else is silence. */
  lemma PollMeans(s: Supervised, at: Duration, read: ReadOutcome, a: WireCodec.Acknowledgement)
    requires s.channel.Some? && Protocol.Inv(s.channel.value.protocol)
    ensures var p := s.channel.value.protocol;
            var seen := PollCheckpoint(s, at, read).1;
            var rejected := ActuationFailed(at, CheckpointKind, CheckpointRejected);
            var unavailable := ActuationFailed(at, CheckpointKind, CheckpointUnavailable);
            && (CompletesAnswer(p, at, read, a) && a.status.Completed? ==>
                  seen == Some(Observation(Some(CheckpointAck(at, a.requestId, true)), a.artifact)))
            && (CompletesAnswer(p, at, read, a) && !a.status.Completed? ==> seen == Some(Observation(Some(rejected), None)))
            && (seen.Some? && seen.value.event.Some? && seen.value.event.value.CheckpointAck? ==>
                  exists b: WireCodec.Acknowledgement ::
                    CompletesAnswer(p, at, read, b) && b.status.Completed?
                    && seen.value == Observation(Some(CheckpointAck(at, b.requestId, true)), b.artifact))
            && (seen.Some? && seen.value.event == Some(rejected) ==>
                  exists b: WireCodec.Acknowledgement :: CompletesAnswer(p, at, read, b) && !b.status.Completed?)
            && (SeesPeerGone(p, at, read) <==> seen == Some(Observation(Some(unavailable), None)))
            && (seen.None? <==> p.state.RequestedUnverified? && at < p.deadlineAt.value && read == Err(Broken))
  {
    hide Protocol.Inv, Protocol.IngestStep, WireCodec.EncodeAcknowledgement;
    var p := s.channel.value.protocol;
    if p.state.RequestedUnverified? {
      WaitingHasDeadline(p);
      EmptyReadOnlyChecksDeadline(p, at);
      if at < p.deadlineAt.value && read.Ok? && read.value != [] {
        IngestAcceptsExactly(p, at, read.value, a);
        var polled := Protocol.IngestStep(p, at, read.value).1;
        if polled.acknowledgement.Some? {
          IngestAcceptsExactly(p, at, read.value, polled.acknowledgement.value);
          assert CompletesAnswer(p, at, read, polled.acknowledgement.value);
        }
      }
    }
  }

  /** What a poll leaves in the channel: after the deadline the request is timed out and its buffer dropped; a
      worker that is gone ends the exchange for good; bytes are ingested; and nothing else changes anything. */
  lemma PollLeaves(s: Supervised, at: Duration, read: ReadOutcome)
    requires s.channel.Some? && Protocol.Inv(s.channel.value.protocol)
    ensures var c := s.channel.value;
            var p := c.protocol;
            PollCheckpoint(s, at, read).0
            == s.(channel := Some(c.(protocol :=
                 if !p.state.RequestedUnverified? then p
                 else if at >= p.deadlineAt.value then p.(state := Protocol.TimedOut, buffer := [])
                 else if read == Err(PeerGone) || read == Ok([]) then
                   p.(state := Protocol.ProtocolState.Cancelled, buffer := [], activeRequestId := None, deadlineAt := None,
                      endpointExited := true)
                 else if read.Err? then p
                 else Protocol.IngestStep(p, at, read.value).0)))
  {
    hide Protocol.Inv, Protocol.IngestStep;
    var p := s.channel.value.protocol;
    if p.state.RequestedUnverified? {
      WaitingHasDeadline(p);
      EmptyReadOnlyChecksDeadline(p, at);
    }
  }

  lemma WaitingHasDeadline(p: Protocol.Protocol)
    requires Protocol.Inv(p) && p.state.RequestedUnverified?
    ensures p.deadlineAt.Some?
  {
  }

  // ---- Which replies are failures ----

  /** A signal to the owned group fails exactly when the call itself failed, or was refused although a member
      of the group is still alive; a group that is gone is a success, and so is a refusal by a group that
      has no live member left. */
  lemma GroupSignalFailsExactly(s: Supervised, at: Duration, x: Actuation)
    requires !x.Checkpoint?
    ensures var (after, reply) := Execute(s, at, x);
            var os := if s.replies == [] then DELIVERED else s.replies[0];
            && after.channel == s.channel && after.replies == (if s.replies == [] then [] else s.replies[1..])
            && match os.signal
               case Err(f) => reply == Err(f)
               case Ok(Delivered) => reply == Ok(Outcome.Delivered)
               case Ok(ProcessMissing) => reply == Ok(Missing)
               case Ok(PermissionDenied) => reply == if os.live then Err(ActuationFailure.PermissionDenied) else Ok(Missing)
               case Ok(Failed) => reply == Err(SignalFailed)
  {
  }

  /** A checkpoint is delivered exactly when a ready channel with an idle protocol accepts the request, its
      frame is written whole and its signal delivered; a missing or refusing endpoint is a failure, and the
      exchange is cancelled when the signal failed. */
  lemma CheckpointFailsExactly(s: Supervised, at: Duration, id: u64, overshoot: u64, deadline: Duration)
    ensures var (after, reply) := Execute(s, at, Checkpoint(id, overshoot, deadline));
            var os := if s.replies == [] then DELIVERED else s.replies[0];
            var open := s.channel.Some? && s.channel.value.ready;
            var accepted := open && s.channel.value.protocol.state.Idle? && !s.channel.value.protocol.endpointExited
                            && id != 0 && at < deadline <= U64_MAX;
            && (!open ==> reply == Err(CheckpointUnavailable) && after == s)
            && (open && !accepted ==> reply == Err(CheckpointRejected) && after == s)
            && (accepted && !os.written ==> reply == Err(CheckpointUnavailable))
            && (accepted && os.written ==>
                  && (match os.signal
                      case Err(f) => reply == Err(f)
                      case Ok(Delivered) => reply == Ok(Outcome.Delivered)
                      case Ok(ProcessMissing) => reply == Err(ActuationFailure.ProcessMissing)
                      case Ok(PermissionDenied) => reply == Err(ActuationFailure.PermissionDenied)
                      case Ok(Failed) => reply == Err(SignalFailed))
                  && after.channel.Some?
                  && (if reply.Ok? then after.channel.value.protocol.state.RequestedUnverified?
                      else after.channel.value.protocol.state.Cancelled?))
  {
  }
}
