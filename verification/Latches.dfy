/** The runtime's labels and checkpoint latches (runtime.rs) and their agreement with the policy machine
    and the wire protocol at every event of a run. */
module Latches {
  import opened Common
  import opened Policy
  import opened Actuations
  import opened PolicyRuns
  import opened Intervention
  import opened Cascades
  import opened ProcessActuator
  import Protocol = CheckpointProtocol
  import WireCodec
  import Report

  type Reason = Option<Report.SignalReason>

  datatype Latches = Latches(
    cause: Reason,
    shutdown: Reason,
    status: Report.CheckpointStatus,
    atMs: Option<u64>,
    requestId: Option<u64>,
    reason: Reason,
    artifact: Option<WireCodec.Artifact>)

  const NO_LATCHES := Latches(None, None, Report.CheckpointStatus.NotNegotiated, None, None, None, None)

  function RecordOf(l: Latches): Report.CheckpointRecord {
    Report.CheckpointRecord(l.status, l.atMs, l.requestId, l.reason, l.artifact)
  }

  // ---- Labels ----

  function ShutdownReasonFor(e: Event): Reason {
    match e
    case ExternalSignal(_, _) => Some(Report.SignalReason.ExternalSignal)
    case RootExited(_) => Some(Report.SignalReason.RootExitCleanup)
    case ParentExited(_) => Some(Report.SignalReason.ParentExit)
    case _ => None
  }

  predicate MayLabelShutdown(e: Event, state: PolicyState) {
    match e
    case ParentExited(_) => state.Normal? || state.Warning?
    case RootExited(_) => state.Normal? || state.Warning? || state.CheckpointRequested?
    case _ => true
  }

  function InterventionCauseFor(e: Event): Reason {
    match e
    case Sample(_) => Some(Report.SignalReason.Footprint)
    case Tick(_) => Some(Report.SignalReason.WallTime)
    case _ => None
  }

  function ActuationReason(x: Actuation, cause: Reason, shutdown: Reason): Reason {
    match x
    case Checkpoint(_, _, _) => cause
    case Term(disposition) =>
      (match disposition
       case SkippedRootExited => Some(Report.SignalReason.RootExitCleanup)
       case SkippedObservationFailure => Some(Report.SignalReason.ObservationFailure)
       case SkippedSupervisorFailure => Some(Report.SignalReason.SupervisorFault)
       case SkippedParentExited => Some(Report.SignalReason.ParentExit)
       case _ => cause)
    case Forward(_) => Some(Report.SignalReason.ExternalSignal)
    case Kill => if shutdown.Some? then shutdown else cause
  }

  /** The checkpoint status one executed actuation proves, if any. */
  function CheckpointProgress(x: Actuation, reply: Reply, negotiated: bool): Option<Report.CheckpointStatus> {
    match x
    case Checkpoint(_, _, _) =>
      (match reply
       case Ok(Delivered) => Some(Report.CheckpointStatus.RequestedUnverified)
       case Ok(Missing) => None
       case Err(_) => if negotiated then Some(Report.CheckpointStatus.Cancelled) else None)
    case Term(TimedOut) => Some(Report.CheckpointStatus.TimedOut)
    case _ => None
  }

  // ---- How one event moves the latches ----

  /** Before the policy decides: the shutdown label, and an authenticated acknowledgement. */
  function BeforeEvent(l: Latches, e: Event, state: PolicyState): Latches {
    var labelled := if MayLabelShutdown(e, state) && ShutdownReasonFor(e).Some?
                    then l.(shutdown := ShutdownReasonFor(e)) else l;
    if e.CheckpointAck? && e.authenticated
    then labelled.(status := Report.CheckpointStatus.AcknowledgedUnverifiedDurability, atMs := Some(Ms(e.ackAt)))
    else labelled
  }

  predicate OpensIntervention(t: Transition) {
    && (t.from.Normal? || t.from.Warning?)
    && (t.to.CheckpointRequested? || t.to.Terminating? || t.to.Emergency?)
  }

  /** The first transition out of normal supervision latches the event's cause. */
  function NoteTransition(l: Latches, cause: Reason, t: Transition): Latches {
    if l.cause.None? && OpensIntervention(t) then l.(cause := cause) else l
  }

  function NoteTransitions(l: Latches, cause: Reason, trace: seq<Effect>): Latches
    decreases trace
  {
    if trace == [] then l
    else match trace[0]
      case Moved(t) => NoteTransitions(NoteTransition(l, cause, t), cause, trace[1..])
      case Executed(_) => NoteTransitions(l, cause, trace[1..])
  }

  function NoteAttempt(l: Latches, negotiated: bool, a: Attempt): Latches {
    var reason := ActuationReason(a.action, l.cause, l.shutdown);
    var named :=
      if a.action.Checkpoint?
      then l.(reason := reason,
              requestId := if a.reply == Ok(Outcome.Delivered) then Some(a.action.requestId) else l.requestId)
      else l.(shutdown := reason);
    match CheckpointProgress(a.action, a.reply, negotiated)
    case Some(status) => named.(status := status, atMs := Some(Ms(a.requestedAt)))
    case None => named
  }

  function NoteAttempts(l: Latches, negotiated: bool, attempts: seq<Attempt>): Latches
    decreases attempts
  {
    if attempts == [] then l else NoteAttempts(NoteAttempt(l, negotiated, attempts[0]), negotiated, attempts[1..])
  }

  /** The reason each attempt is recorded with. */
  function ReasonsOf(l: Latches, negotiated: bool, attempts: seq<Attempt>): (r: seq<Reason>)
    ensures |r| == |attempts|
    decreases attempts
  {
    if attempts == [] then []
    else [ActuationReason(attempts[0].action, l.cause, l.shutdown)]
         + ReasonsOf(NoteAttempt(l, negotiated, attempts[0]), negotiated, attempts[1..])
  }

  predicate AllReasoned(reasons: seq<Reason>) {
    forall i :: 0 <= i < |reasons| ==> reasons[i].Some?
  }

  /** The latches when the engine has handled the event, and the attempts are about to be recorded. */
  function Decided(l: Latches, e: Event, state: PolicyState, trace: seq<Effect>): Latches {
    NoteTransitions(BeforeEvent(l, e, state), InterventionCauseFor(e), trace)
  }

  // ---- Coherence ----

  predicate LimitReason(r: Reason) {
    r.Some? ==> r.value.Footprint? || r.value.WallTime?
  }

  predicate Untouched(s: Supervised, l: Latches) {
    && l.cause.None? && l.shutdown.None? && RecordOf(l) == RecordOf(NO_LATCHES)
    && (s.channel.Some? ==> s.channel.value.protocol.state.Idle? && Protocol.Inv(s.channel.value.protocol))
  }

  /** A request is open: the report already names it, and the channel waits for the same one. */
  predicate Requested(m: Machine, l: Latches) {
    && l.cause.Some? && l.shutdown.None? && l.status.RequestedUnverified? && l.atMs.Some?
    && l.requestId == m.activeRequestId && l.reason == l.cause
  }

  predicate ChannelWaits(m: Machine, s: Supervised) {
    s.channel.Some? && Waiting(s.channel.value.protocol, m.activeRequestId, m.checkpointDeadline)
  }

  /** The part of coherence that polling the channel may suspend until its event is applied. */
  predicate CoherentBut(m: Machine, s: Supervised, l: Latches) {
    && Inv(m) && LimitReason(l.cause)
    && (Live(m) ==> Untouched(s, l))
    && (m.state.CheckpointRequested? ==> Requested(m, l))
    && (m.state.Terminating? || m.state.Emergency? || m.state.SupervisorError? ==> l.shutdown.Some?)
  }

  predicate Coherent(m: Machine, s: Supervised, l: Latches) {
    && CoherentBut(m, s, l) && Report.ValidCheckpoint(RecordOf(l))
    && (m.state.CheckpointRequested? ==> ChannelWaits(m, s) && l.artifact.None?)
  }

  /** The events the runtime applies: anything that happens to the run, and for an open request the
      acknowledgement or failure its channel reported. */
  predicate Allowed(m: Machine, e: Event) {
    match e
    case CheckpointAck(_, id, authenticated) =>
      m.state.CheckpointRequested? && authenticated && m.activeRequestId == Some(id)
    case ActuationFailed(_, kind, _) => m.state.CheckpointRequested? && kind.CheckpointKind?
    case _ => true
  }

  /** What must hold when an event is applied. */
  predicate ReadyFor(m: Machine, s: Supervised, l: Latches, e: Event) {
    && Allowed(m, e)
    && if e.CheckpointAck? || e.ActuationFailed?
       then CoherentBut(m, s, l) && Report.ValidCheckpoint(RecordOf(l.(artifact := None)))
            && (l.artifact.Some? ==> e.CheckpointAck?)
       else Coherent(m, s, l)
  }

  // ---- What one step selects, and what it leaves ----

  /** The facts about one policy step that coherence rests on. */
  ghost predicate StepFits(m: Machine, e: Event, d: Decision, tried: seq<Actuation>) {
    && |tried| <= 1 && Inv(d.machine)
    && (m.state.Exited? ==> tried == [] && d.machine.state.Exited?)
    && (tried == [] && Phase(d.machine) <= 1 ==> ShutdownReasonFor(e).None? || !MayLabelShutdown(e, m.state))
    && (tried == [] ==>
          || d.machine.state.Exited?
          || (Live(m) && Live(d.machine))
          || (m.state.CheckpointRequested? && d.machine.state.CheckpointRequested?
              && d.machine.activeRequestId == m.activeRequestId && d.machine.checkpointDeadline == m.checkpointDeadline
              && !e.CheckpointAck? && !e.ActuationFailed?)
          || (Phase(m) == 2 && Phase(d.machine) == 2))
    && (tried != [] ==>
          match tried[0]
          case Checkpoint(id, _, deadline) =>
            Live(m) && InterventionCauseFor(e).Some? && ShutdownReasonFor(e).None? && d.machine.state.CheckpointRequested?
            && d.machine.activeRequestId == Some(id) && d.machine.checkpointDeadline == Some(deadline)
            && d.machine.lastEventAt == Some(e.At())
          case Term(disposition) =>
            Phase(m) <= 1 && Phase(d.machine) == 2 && d.machine.interventionStarted && !d.machine.state.Exited?
            && (disposition.TimedOut? ==> m.state.CheckpointRequested? && !e.CheckpointAck?)
            && (disposition.AcknowledgedUnverifiedDurability? || disposition.SkippedCheckpointFailure? ==>
                  m.state.CheckpointRequested?)
            && (disposition.SkippedNotNegotiated? ==>
                  Live(m) && d.machine.state.Terminating? && InterventionCauseFor(e).Some?)
          case Forward(_) =>
            Phase(m) <= 1 && Phase(d.machine) == 2 && d.machine.interventionStarted && !d.machine.state.Exited?
          case Kill =>
            Phase(d.machine) == 2 && d.machine.interventionStarted && !d.machine.state.Exited?
            && (Live(m) ==> d.machine.state.Emergency? && InterventionCauseFor(e).Some?))
  }

  lemma StepFitsAll(m: Machine, e: Event)
    requires Inv(m) && Allowed(m, e)
    ensures StepFits(m, e, Step(m, e), ActuationsOf(Step(m, e).actions))
  {
    StepKeepsInv(m, e);
    StepSelects(m, e);
    var d := Step(m, e);
    var tried := ActuationsOf(d.actions);
    ActuationsOfShort(d.actions);
    assert tried == (if d.actions == [] || Selected(d.actions).None? then [] else [Selected(d.actions).value]);
    hide ActuationsOf;
    if tried == [] {
      NothingSelected(m, e, d);
    } else {
      SomethingSelected(m, e, d, tried[0]);
    }
  }

  lemma NothingSelected(m: Machine, e: Event, d: Decision)
    requires Inv(m) && Allowed(m, e) && d == Step(m, e) && |d.actions| <= 3
    requires d.actions == [] || Selected(d.actions).None?
    ensures || d.machine.state.Exited?
            || (Live(m) && Live(d.machine))
            || (m.state.CheckpointRequested? && d.machine.state.CheckpointRequested?
                && d.machine.activeRequestId == m.activeRequestId && d.machine.checkpointDeadline == m.checkpointDeadline
                && !e.CheckpointAck? && !e.ActuationFailed?)
            || (Phase(m) == 2 && Phase(d.machine) == 2)
    ensures m.state.Exited? ==> d.machine.state.Exited?
    ensures Phase(d.machine) <= 1 ==> ShutdownReasonFor(e).None? || !MayLabelShutdown(e, m.state)
  {
  }

  lemma SomethingSelected(m: Machine, e: Event, d: Decision, x: Actuation)
    requires Inv(m) && Allowed(m, e) && d == Step(m, e) && Inv(d.machine)
    requires 0 < |d.actions| <= 3 && Selected(d.actions) == Some(x)
    ensures StepFits(m, e, d, [x])
  {
  }

  // ---- Transitions after the first never latch ----

  predicate NeverFromLive(trace: seq<Effect>)
    decreases trace
  {
    trace == [] || ((trace[0].Moved? ==> !OpensIntervention(trace[0].transition)) && NeverFromLive(trace[1..]))
  }

  lemma {:induction false} NeverFromLiveConcat(a: seq<Effect>, b: seq<Effect>)
    requires NeverFromLive(a) && NeverFromLive(b)
    ensures NeverFromLive(a + b)
  {
    if a == [] {
      assert a + b == b;
    } else {
      assert (a + b)[1..] == a[1..] + b;
      NeverFromLiveConcat(a[1..], b);
    }
  }

  lemma {:induction false} NothingLatches(l: Latches, cause: Reason, trace: seq<Effect>)
    requires NeverFromLive(trace)
    ensures NoteTransitions(l, cause, trace) == l
  {
    if trace != [] {
      NothingLatches(l, cause, trace[1..]);
    }
  }

  lemma MoveFromElsewhere(at: Duration, from: PolicyState, to: PolicyState)
    requires !from.Normal? && !from.Warning?
    ensures NeverFromLive(Move(at, from, to))
  {
  }

  lemma {:induction false} CascadeStaysBeyond(s: Supervised, m: Machine, at: Duration, x: Actuation)
    requires Inv(m) && !Live(m)
    ensures NeverFromLive(Cascade(Execute, m, s, at, x).trace)
    decreases Unstarted(m), Rank(x)
  {
    hide Step, Inv, Escalates, Execute;
    var (t, reply) := Execute(s, at, x);
    var done := [Executed(Attempt(at, x, reply))];
    assert NeverFromLive(done);
    if reply.Err? {
      var e := ActuationFailed(at, x.Kind(), reply.error);
      var d := Answered(m, at, x, reply.error);
      StaysBeyond(m, e);
      StepKeepsInv(m, e);
      MoveFromElsewhere(at, m.state, d.machine.state);
      NeverFromLiveConcat(done, Move(at, m.state, d.machine.state));
      FailureLowersRank(m, at, x, reply.error);
      AnswerIsOne(m, at, x, reply.error);
      var tried := ActuationsOf(d.actions);
      if tried != [] {
        CascadeStaysBeyond(t, d.machine, at, tried[0]);
        NeverFromLiveConcat(done + Move(at, m.state, d.machine.state),
                            Cascade(Execute, d.machine, t, at, tried[0]).trace);
      }
    }
  }

  lemma StaysBeyond(m: Machine, e: Event)
    requires Inv(m) && !Live(m)
    ensures !Live(Step(m, e).machine)
  {
    StepEscalates(m, e);
  }

  /** The cause latch after a whole event. */
  lemma CauseAfter(l: Latches, s: Supervised, m: Machine, e: Event, d: Decision, tried: seq<Actuation>)
    requires Inv(m) && d == Step(m, e) && tried == ActuationsOf(d.actions) && |tried| <= 1 && StepFits(m, e, d, tried)
    ensures var trace := Move(e.At(), m.state, d.machine.state) + Pending(Execute, d.machine, s, e.At(), tried).trace;
            var before := BeforeEvent(l, e, m.state);
            Decided(l, e, m.state, trace)
            == if l.cause.None? && OpensIntervention(Transition(e.At(), m.state, d.machine.state))
               then before.(cause := InterventionCauseFor(e)) else before
  {
    hide Step, Inv, Execute, StepFits, BeforeEvent;
    var move := Move(e.At(), m.state, d.machine.state);
    var c := Pending(Execute, d.machine, s, e.At(), tried);
    var before := BeforeEvent(l, e, m.state);
    CauseUnlabelled(l, e, m.state);
    if tried != [] {
      TriedIsBeyond(m, e, d, tried);
      CascadeStaysBeyond(s, d.machine, e.At(), tried[0]);
    }
    if move == [] {
      assert move + c.trace == c.trace;
      NothingLatches(before, InterventionCauseFor(e), c.trace);
    } else {
      assert (move + c.trace)[1..] == c.trace;
      NothingLatches(NoteTransition(before, InterventionCauseFor(e), move[0].transition), InterventionCauseFor(e),
                     c.trace);
    }
  }

  lemma CauseUnlabelled(l: Latches, e: Event, state: PolicyState)
    ensures BeforeEvent(l, e, state).cause == l.cause
  {
  }

  lemma TriedIsBeyond(m: Machine, e: Event, d: Decision, tried: seq<Actuation>)
    requires StepFits(m, e, d, tried) && tried != []
    ensures Inv(d.machine) && !Live(d.machine)
  {
  }
}
