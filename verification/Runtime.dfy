/** The event-handling methods of the run loop (runtime.rs): what each event does to the engine, the
    latches, the retained samples and the journal entries. */
module Runtime {
  import opened Common
  import opened Policy
  import opened Actuations
  import opened Intervention
  import opened ProcessActuator
  import opened Latches
  import EngineEvidence
  import Identity
  import Sampling
  import Report

  const MAX_SAMPLE_HISTORY: nat := Sampling.MAX_SAMPLE_HISTORY_CAPACITY
  /** SIGUSR1 on Darwin. */
  const CHECKPOINT_SIGNAL: SignalNumber := 30

  datatype Negotiation = Pending | Ready | Unavailable

  datatype Diagnostic = FootprintObservationFailed | SignalDeliveryFailed | SupervisorFaulted | SupervisionFailedClosed

  /** What events act on. */
  datatype Control<X> = Control(
    engine: Engine<Supervised>,
    negotiation: Negotiation,
    latches: Latches,
    interventionStarted: bool,
    supervisorError: Option<Diagnostic>,
    footprint: Report.Observed<u64>,
    log: seq<Report.Entry<X>>)

  datatype Runtime<X> = Runtime(
    control: Control<X>,
    sampler: Sampling.Sampler,
    windows: seq<Report.SampleWindow<X>>,
    escapeDetected: bool)

  // ---- One event ----

  /** A forwarded signal and survivor cleanup are asked for by the world, not chosen by the run. */
  predicate OpensAnUncountedShutdown(e: Event) {
    e.ExternalSignal? || e.RootExited?
  }

  function SupervisorErrorDiagnostic(e: Event): Diagnostic {
    match e
    case Sample(_) => FootprintObservationFailed
    case ActuationFailed(_, _, _) => SignalDeliveryFailed
    case SupervisorFault(_) => SupervisorFaulted
    case _ => SupervisionFailedClosed
  }

  function ObservedValue(o: Report.Observed<u64>): Option<u64> {
    if o.Available? then Some(o.value) else None
  }

  /** The first failure to supervise is the one that is reported. */
  function NoteError(current: Option<Diagnostic>, diagnostic: Diagnostic, trace: seq<Effect>): Option<Diagnostic>
    decreases trace
  {
    if trace == [] then current
    else
      var first := trace[0];
      NoteError(if current.None? && first.Moved? && first.transition.to.SupervisorError? then Some(diagnostic)
                else current, diagnostic, trace[1..])
  }

  function TransitionEntry<X>(t: Transition, footprint: Option<u64>): Report.Entry<X> {
    Report.Transition(Report.TransitionRecord(Ms(t.at), t.from, t.to, footprint))
  }

  /** One journal entry per transition of a trace. */
  function TransitionLog<X>(trace: seq<Effect>, footprint: Option<u64>): seq<Report.Entry<X>>
    decreases trace
  {
    if trace == [] then []
    else (if trace[0].Moved? then [TransitionEntry(trace[0].transition, footprint)] else [])
         + TransitionLog(trace[1..], footprint)
  }

  function SignalResultOf(r: Reply): Report.SignalResult {
    match r
    case Ok(Delivered) => Report.SignalResult.Delivered
    case Ok(Missing) => Report.SignalResult.ProcessMissing
    case Err(ProcessMissing) => Report.SignalResult.ProcessMissing
    case Err(PermissionDenied) => Report.SignalResult.PermissionDenied
    case Err(_) => Report.SignalResult.Failed
  }

  /** A checkpoint that never reached its endpoint sent no signal. */
  predicate Unsent(a: Attempt) {
    a.action.Checkpoint? && a.reply.Err? && (a.reply.error.CheckpointUnavailable? || a.reply.error.CheckpointRejected?)
  }

  function SignalOf(x: Actuation): u8 {
    match x
    case Checkpoint(_, _, _) => CHECKPOINT_SIGNAL
    case Term(_) => 15
    case Kill => 9
    case Forward(signal) => signal
  }

  /** Everything sent is one record. */
  function SignalRecordOf(a: Attempt, reason: Reason): Option<Report.SignalRecord> {
    if Unsent(a) then None
    else
      Some(Report.SignalRecord(
        Ms(a.requestedAt), SignalOf(a.action),
        if a.action.Checkpoint? then Report.CooperativeEndpoint else Report.OwnedProcessGroup,
        SignalResultOf(a.reply), reason))
  }

  /** One journal entry per signal sent, each with the reason in force when it is recorded. */
  function SignalLog<X>(l: Latches, negotiated: bool, attempts: seq<Attempt>): seq<Report.Entry<X>>
    decreases attempts
  {
    if attempts == [] then []
    else
      var record := SignalRecordOf(attempts[0], ActuationReason(attempts[0].action, l.cause, l.shutdown));
      (if record.Some? then [Report.Signal(record.value)] else [])
      + SignalLog(NoteAttempt(l, negotiated, attempts[0]), negotiated, attempts[1..])
  }

  function AttemptsOf(records: seq<Record>): (r: seq<Attempt>)
    ensures |r| == |records| && forall i :: 0 <= i < |r| ==> r[i] == records[i].attempt
  {
    if records == [] then [] else [records[0].attempt] + AttemptsOf(records[1..])
  }

  /** Label the event, let the engine handle it, and journal its transitions. */
  function DecideStep<X>(rt: Control<X>, e: Event): Control<X> {
    var h := HandleEvent(Execute, rt.engine, e);
    rt.(engine := h.engine,
        latches := Decided(rt.latches, e, rt.engine.machine.state, h.trace),
        supervisorError := NoteError(rt.supervisorError, SupervisorErrorDiagnostic(e), h.trace),
        log := rt.log + TransitionLog(h.trace, ObservedValue(rt.footprint)))
  }

  /** The attempts made between two states of the engine, as the evidence has them. */
  function NewAttempts(before: Engine<Supervised>, after: Engine<Supervised>): seq<Attempt> {
    AttemptsOf(EngineEvidence.NewRecords(after.evidence, before.evidence.totalAttempts))
  }

  /** Label and journal the attempts. */
  function RecordStep<X>(rt: Control<X>, attempts: seq<Attempt>): Control<X> {
    rt.(latches := NoteAttempts(rt.latches, rt.negotiation.Ready?, attempts),
        log := rt.log + SignalLog(rt.latches, rt.negotiation.Ready?, attempts))
  }

  /** The whole effect of one event. */
  function ApplyStep<X>(rt: Control<X>, e: Event): Control<X> {
    var decided := DecideStep(rt, e);
    var attempts := NewAttempts(rt.engine, decided.engine);
    RecordStep(decided.(interventionStarted := rt.interventionStarted
                                               || (!OpensAnUncountedShutdown(e) && attempts != [])),
               attempts)
  }

  // ---- Polling the checkpoint channel ----

  /** Readiness is polled until it is decided. */
  function Negotiate<X>(rt: Control<X>, handshake: ReadOutcome): Control<X> {
    if !rt.negotiation.Pending? then rt
    else match rt.engine.actuator.channel
      case None => rt.(negotiation := Unavailable)
      case Some(c) =>
        var (d, ready) := PollReady(c, handshake);
        rt.(engine := rt.engine.(actuator := rt.engine.actuator.(channel := Some(d))),
            negotiation := match ready
                           case None => Unavailable
                           case Some(done) => if done then Ready else Pending)
  }

  /** One poll of the channel: negotiation first, then the acknowledgement of an open request. */
  function PollStep<X>(rt0: Control<X>, at: Duration, handshake: ReadOutcome, read: ReadOutcome): Control<X> {
    var rt := Negotiate(rt0, handshake);
    if !rt.negotiation.Ready? || !rt.engine.machine.state.CheckpointRequested? then rt
    else
      var (actuator, seen) := PollCheckpoint(rt.engine.actuator, at, read);
      var polled := rt.(engine := rt.engine.(actuator := actuator));
      match seen
      case None => ApplyStep(polled, ActuationFailed(at, CheckpointKind, CheckpointUnavailable))
      case Some(o) =>
        var latched := polled.(latches := if o.artifact.Some? then polled.latches.(artifact := o.artifact)
                                          else polled.latches);
        if o.event.Some? then ApplyStep(latched, o.event.value) else latched
  }

  // ---- Samples ----

  function SnapshotFailure(kind: Identity.FailureKind): Report.Observed<u64> {
    match kind
    case Unsupported => Report.Unavailable(Report.NotSupported)
    case Unavailable => Report.Unavailable(Report.NotSupported)
    case PermissionDenied => Report.ObservationFailed(Report.ObservationError.PermissionDenied)
    case Disappeared => Report.ObservationFailed(Report.ObservationError.ProcessMissing)
    case StaleIdentity => Report.ObservationFailed(Report.ObservationError.ProcessMissing)
    case MalformedData => Report.ObservationFailed(Report.MalformedKernelData)
    case EnumerationFailed => Report.ObservationFailed(Report.Internal)
  }

  function SampleObservation(o: Sampling.SampleOutcome): Report.Observed<u64> {
    match o
    case CompleteTotal(total) => Report.Available(total)
    case Partial(_, _, _) => Report.Unknown
    case TotalOverflow => Report.ObservationFailed(Report.Internal)
    case SnapshotFailed(kind) => SnapshotFailure(kind)
    case ClockDiscontinuity => Report.ObservationFailed(Report.ClockAnomaly)
  }

  /** Milliseconds, but never zero for a positive duration. */
  function PositiveMs(d: Duration): u64 {
    if Ms(d) == 0 && d > 0 then 1 else Ms(d)
  }

  function WindowOf<X>(sample: Sampling.FootprintSample, processedAt: Duration, advisory: X): Report.SampleWindow<X> {
    Report.SampleWindow(Ms(sample.finishedAt), Ms(processedAt),
                        PositiveMs(SatSub(sample.finishedAt, sample.startedAt)),
                        SampleObservation(sample.outcome), advisory)
  }

  /** One snapshot and the clock readings around it. */
  datatype Taken<+X> = Taken(
    startedAt: Duration, finishedAt: Duration, snapshot: Sampling.SnapshotResult, processedAt: Duration, advisory: X)

  ghost function RecordedSample<X>(rt: Runtime<X>, t: Taken<X>): Sampling.Recorded
    requires rt.sampler.config.historyCapacity > 0
  {
    Sampling.RecordOf(rt.sampler, t.startedAt, t.finishedAt, t.snapshot)
  }

  /** Retain the sample, and journal it while the history has never wrapped. */
  ghost function RetainStep<X>(rt: Runtime<X>, t: Taken<X>): Runtime<X>
    requires rt.sampler.config.historyCapacity > 0
  {
    var recorded := RecordedSample(rt, t);
    var window := WindowOf(recorded.sample, t.processedAt, t.advisory);
    var journaled := if recorded.sample.sequence < MAX_SAMPLE_HISTORY then [Report.Sample(window)] else [];
    Runtime(rt.control.(footprint := window.footprint, log := rt.control.log + journaled),
            recorded.sampler, Push(rt.windows, window, MAX_SAMPLE_HISTORY),
            rt.escapeDetected || recorded.sample.escapeObserved)
  }

  /** The policy input of the sample just retained. */
  ghost function SampleInput<X>(rt: Runtime<X>, t: Taken<X>): Event
    requires rt.sampler.config.historyCapacity > 0
  {
    var recorded := RecordedSample(rt, t);
    Event.Sample(Sampling.PolicyEvent(recorded.sampler, recorded.sample, t.processedAt))
  }

  /** One whole sample: retain it, then let the policy decide on it. */
  ghost function SnapshotStep<X>(rt: Runtime<X>, t: Taken<X>): Runtime<X>
    requires rt.sampler.config.historyCapacity > 0
  {
    var retained := RetainStep(rt, t);
    retained.(control := ApplyStep(retained.control, SampleInput(rt, t)))
  }

  // ---- The end of a run ----

  /** A wrapped history replaces the journaled samples. */
  function RecentHistory<X>(history: seq<Sampling.FootprintSample>, windows: seq<Report.SampleWindow<X>>)
    : seq<Report.Entry<X>>
  {
    if history == [] || history[0].sequence == 0 then []
    else [Report.SampleHistoryReset] + Report.SampleEntries(windows)
  }

  /** Everything journaled by the end of the run. */
  function FinalLog<X>(rt: Runtime<X>, outcome: Report.TerminalOutcome): seq<Report.Entry<X>> {
    var count := rt.sampler.tracker.escapedCount;
    rt.control.log + RecentHistory(rt.sampler.history, rt.windows)
    + [Report.Checkpoint(RecordOf(rt.control.latches))]
    + [Report.Escape(Report.EscapeEvidence(Report.Available(rt.escapeDetected),
                                           if count > 0 then Some(count) else None))]
    + [Report.Outcome(outcome)]
  }

  // ---- The runtime itself ----

  class RunRuntime<X(!new)> {
    const engine: InterventionEngine<Supervised>
    const sampler: Sampling.FootprintSampler
    var negotiation: Negotiation
    var checkpointStatus: Report.CheckpointStatus
    var checkpointAtMs: Option<u64>
    var checkpointRequestId: Option<u64>
    var checkpointReason: Reason
    var checkpointArtifact: Option<WireCodec.Artifact>
    var interventionCause: Reason
    var shutdownReason: Reason
    var interventionStarted: bool
    var supervisorError: Option<Diagnostic>
    var windows: seq<Report.SampleWindow<X>>
    var finalFootprint: Report.Observed<u64>
    var escapeDetected: bool
    /** Everything handed to the journal. */
    var log: seq<Report.Entry<X>>

    ghost predicate Valid() {
      engine.exec == Execute
    }

    function Latched(): Latches
      reads this`interventionCause, this`shutdownReason, this`checkpointStatus, this`checkpointAtMs,
            this`checkpointRequestId, this`checkpointReason, this`checkpointArtifact
    {
      Latches(interventionCause, shutdownReason, checkpointStatus, checkpointAtMs, checkpointRequestId,
              checkpointReason, checkpointArtifact)
    }

    function Controlled(): Control<X>
      reads this, engine, engine.policy, engine.evidence
    {
      Control(engine.View(), negotiation, Latched(), interventionStarted, supervisorError, finalFootprint, log)
    }

    ghost function View(): Runtime<X>
      reads this, engine, engine.policy, engine.evidence, sampler, sampler.tracker
    {
      Runtime(Controlled(), sampler.View(), windows, escapeDetected)
    }

    constructor (engine: InterventionEngine<Supervised>, sampler: Sampling.FootprintSampler,
                 header: Report.Entry<X>)
      requires engine.exec == Execute
      ensures Valid() && this.engine == engine && this.sampler == sampler
      ensures View() == Runtime(Control(engine.View(), Pending, NO_LATCHES, false, None, Report.Unknown, [header]),
                                sampler.View(), [], false)
    {
      this.engine, this.sampler, negotiation := engine, sampler, Pending;
      checkpointStatus, checkpointAtMs, checkpointRequestId := Report.CheckpointStatus.NotNegotiated, None, None;
      checkpointReason, checkpointArtifact, interventionCause, shutdownReason := None, None, None, None;
      interventionStarted, supervisorError, windows := false, None, [];
      finalFootprint, escapeDetected, log := Report.Unknown, false, [header];
    }

    method ApplyEvent(event: Event)
      requires Valid()
      modifies this`interventionCause, this`shutdownReason, this`checkpointStatus, this`checkpointAtMs,
               this`checkpointRequestId,
               this`checkpointReason, this`interventionStarted, this`supervisorError, this`log,
               engine, engine.policy, engine.evidence
      ensures Controlled() == ApplyStep(old(Controlled()), event)
    {
      hide DecideStep, RecordStep, OpensAnUncountedShutdown, AttemptsOf, EngineEvidence.NewRecords;
      var newRecords := Decide(event);
      interventionStarted := interventionStarted || (!OpensAnUncountedShutdown(event) && newRecords != []);
      RecordActuations(newRecords);
    }

    /** Label the event, handle it, and journal its transitions; the attempts it made are still to be
        recorded. */
    method Decide(event: Event) returns (newRecords: seq<Record>)
      requires Valid()
      modifies this`shutdownReason, this`checkpointStatus, this`checkpointAtMs, this`interventionCause,
               this`supervisorError, this`log, engine, engine.policy, engine.evidence
      ensures Controlled() == DecideStep(old(Controlled()), event)
      ensures AttemptsOf(newRecords) == NewAttempts(old(engine.View()), engine.View())
    {
      hide HandleEvent, BeforeEvent, NoteTransitions, NoteError, TransitionLog, EngineEvidence.NewRecords, Latched,
           SupervisorErrorDiagnostic, InterventionCauseFor, ObservedValue;
      LatchBeforeEvent(event, engine.policy.state);
      newRecords := HandleEventAndLog(event);
    }

    /** The shutdown label, and an authenticated acknowledgement. */
    method LatchBeforeEvent(event: Event, state: PolicyState)
      modifies this`shutdownReason, this`checkpointStatus, this`checkpointAtMs
      ensures Latched() == BeforeEvent(old(Latched()), event, state)
    {
      if MayLabelShutdown(event, state) && ShutdownReasonFor(event).Some? {
        shutdownReason := ShutdownReasonFor(event);
      }
      if event.CheckpointAck? && event.authenticated {
        checkpointStatus := Report.CheckpointStatus.AcknowledgedUnverifiedDurability;
        checkpointAtMs := Some(Ms(event.ackAt));
      }
    }

    /** Let the engine handle the event, journal every transition, and return the attempts it made. */
    method HandleEventAndLog(event: Event) returns (newRecords: seq<Record>)
      requires Valid()
      modifies this`interventionCause, this`supervisorError, this`log, engine, engine.policy, engine.evidence
      ensures var h := HandleEvent(Execute, old(engine.View()), event);
              && engine.View() == h.engine
              && Latched() == NoteTransitions(old(Latched()), InterventionCauseFor(event), h.trace)
              && supervisorError == NoteError(old(supervisorError), SupervisorErrorDiagnostic(event), h.trace)
              && log == old(log) + TransitionLog(h.trace, ObservedValue(finalFootprint))
              && newRecords == EngineEvidence.NewRecords(h.engine.evidence, old(engine.evidence.totalAttempts))
    {
      hide HandleEvent;
      var previousAttempts := engine.evidence.totalAttempts;
      var decisions, trace := engine.Handle(event);
      ObserveTransitions(trace, InterventionCauseFor(event), SupervisorErrorDiagnostic(event));
      var newAttempts := SatSub(engine.evidence.totalAttempts, previousAttempts);
      newRecords := Last(engine.evidence.records, newAttempts);
    }

    /** The transition observer, called in order. */
    method ObserveTransitions(trace: seq<Effect>, cause: Reason, diagnostic: Diagnostic)
      modifies this`interventionCause, this`supervisorError, this`log
      ensures Latched() == NoteTransitions(old(Latched()), cause, trace)
      ensures supervisorError == NoteError(old(supervisorError), diagnostic, trace)
      ensures log == old(log) + TransitionLog(trace, ObservedValue(finalFootprint))
    {
      assert trace[0..] == trace;
      for i := 0 to |trace|
        invariant NoteTransitions(Latched(), cause, trace[i..]) == NoteTransitions(old(Latched()), cause, trace)
        invariant NoteError(supervisorError, diagnostic, trace[i..]) == NoteError(old(supervisorError), diagnostic, trace)
        invariant log + TransitionLog(trace[i..], ObservedValue(finalFootprint))
               == old(log) + TransitionLog(trace, ObservedValue(finalFootprint))
      {
        assert trace[i..][1..] == trace[i + 1..];
        ghost var rest: seq<Report.Entry<X>> := TransitionLog(trace[i + 1..], ObservedValue(finalFootprint));
        match trace[i] {
          case Moved(t) =>
            if interventionCause.None? && OpensIntervention(t) {
              interventionCause := cause;
            }
            if t.to.SupervisorError? && supervisorError.None? {
              supervisorError := Some(diagnostic);
            }
            var entry: Report.Entry<X> := TransitionEntry(t, ObservedValue(finalFootprint));
            assert log + ([entry] + rest) == (log + [entry]) + rest;
            log := log + [entry];
          case Executed(_) =>
            assert [] + rest == rest;
        }
      }
      assert log + [] == log;
    }

    /** Label and journal the new attempts one by one. */
    method RecordActuations(newRecords: seq<Record>)
      modifies this`checkpointReason, this`checkpointRequestId, this`shutdownReason, this`checkpointStatus,
               this`checkpointAtMs, this`log
      ensures Controlled() == RecordStep(old(Controlled()), AttemptsOf(newRecords))
    {
      hide NoteAttempt, SignalRecordOf;
      ghost var attempts := AttemptsOf(newRecords);
      assert attempts[0..] == attempts;
      for i := 0 to |newRecords|
        invariant NoteAttempts(Latched(), negotiation.Ready?, attempts[i..])
               == NoteAttempts(old(Latched()), negotiation.Ready?, attempts)
        invariant log + SignalLog(Latched(), negotiation.Ready?, attempts[i..])
               == old(log) + SignalLog(old(Latched()), negotiation.Ready?, attempts)
      {
        var attempt := newRecords[i].attempt;
        assert attempts[i..][0] == attempt && attempts[i..][1..] == attempts[i + 1..];
        ghost var soFar := log;
        ghost var l := Latched();
        var added := RecordOne(attempt);
        ghost var rest: seq<Report.Entry<X>> := SignalLog(Latched(), negotiation.Ready?, attempts[i + 1..]);
        assert soFar + (added + rest) == (soFar + added) + rest;
      }
      assert log + [] == log;
    }

    method RecordOne(attempt: Attempt) returns (added: seq<Report.Entry<X>>)
      modifies this`checkpointReason, this`checkpointRequestId, this`shutdownReason, this`checkpointStatus,
               this`checkpointAtMs, this`log
      ensures Latched() == NoteAttempt(old(Latched()), negotiation.Ready?, attempt)
      ensures var record := SignalRecordOf(attempt, ActuationReason(attempt.action, old(interventionCause),
                                                                    old(shutdownReason)));
              added == (if record.Some? then [Report.Signal(record.value)] else []) && log == old(log) + added
    {
      var reason := ActuationReason(attempt.action, interventionCause, shutdownReason);
      if attempt.action.Checkpoint? {
        checkpointReason := reason;
        if attempt.reply == Ok(Outcome.Delivered) {
          checkpointRequestId := Some(attempt.action.requestId);
        }
      } else {
        shutdownReason := reason;
      }
      var progress := CheckpointProgress(attempt.action, attempt.reply, negotiation.Ready?);
      if progress.Some? {
        checkpointStatus := progress.value;
        checkpointAtMs := Some(Ms(attempt.requestedAt));
      }
      var record := SignalRecordOf(attempt, reason);
      added := if record.Some? then [Report.Signal(record.value)] else [];
      log := log + added;
    }

    /** Poll for the worker's readiness until it is decided. */
    method NegotiateChannel(handshake: ReadOutcome)
      modifies this`negotiation, engine`actuator
      ensures Controlled() == Negotiate(old(Controlled()), handshake)
    {
      hide PollReady;
      if !negotiation.Pending? {
        return;
      }
      if engine.actuator.channel.None? {
        negotiation := Unavailable;
        return;
      }
      var (channel, ready) := PollReady(engine.actuator.channel.value, handshake);
      engine.actuator := engine.actuator.(channel := Some(channel));
      if ready.None? {
        negotiation := Unavailable;
      } else if ready.value {
        negotiation := Ready;
      }
    }

    method PollCheckpointChannel(now: Duration, handshake: ReadOutcome, read: ReadOutcome)
      requires Valid()
      modifies this`negotiation, this`checkpointArtifact, this`interventionCause, this`shutdownReason,
               this`checkpointStatus, this`checkpointAtMs,
               this`checkpointRequestId, this`checkpointReason, this`interventionStarted, this`supervisorError,
               this`log, engine, engine.policy, engine.evidence
      ensures Controlled() == PollStep(old(Controlled()), now, handshake, read)
    {
      hide ApplyStep, Negotiate, PollCheckpoint;
      NegotiateChannel(handshake);
      if !negotiation.Ready? || !engine.policy.state.CheckpointRequested? {
        return;
      }
      var (actuator, seen) := PollCheckpoint(engine.actuator, now, read);
      engine.actuator := actuator;
      if seen.None? {
        ApplyEvent(ActuationFailed(now, CheckpointKind, CheckpointUnavailable));
        return;
      }
      if seen.value.artifact.Some? {
        checkpointArtifact := seen.value.artifact;
      }
      if seen.value.event.Some? {
        ApplyEvent(seen.value.event.value);
      }
    }

    /** Record a snapshot, retain its window, and return the event the policy must decide on. */
    method RetainSample(taken: Taken<X>) returns (event: Event)
      requires sampler.config.historyCapacity > 0
      modifies this`windows, this`finalFootprint, this`escapeDetected, this`log, sampler, sampler.tracker
      ensures View() == RetainStep(old(View()), taken) && event == SampleInput(old(View()), taken)
    {
      hide Sampling.RecordOf, Sampling.PolicyEvent, WindowOf, Push;
      ghost var recorded := RecordedSample(View(), taken);
      var sample := sampler.RecordSnapshot(taken.startedAt, taken.finishedAt, taken.snapshot);
      assert sampler.View() == recorded.sampler && sample == recorded.sample;
      hide RecordedSample;
      Keep(sample, WindowOf(sample, taken.processedAt, taken.advisory));
      event := Event.Sample(Sampling.PolicyEvent(sampler.View(), sample, taken.processedAt));
    }

    /** Retain a recorded sample's window. */
    method Keep(sample: Sampling.FootprintSample, window: Report.SampleWindow<X>)
      modifies this`windows, this`finalFootprint, this`escapeDetected, this`log
      ensures windows == Push(old(windows), window, MAX_SAMPLE_HISTORY) && finalFootprint == window.footprint
      ensures escapeDetected == (old(escapeDetected) || sample.escapeObserved)
      ensures log == old(log) + if sample.sequence < MAX_SAMPLE_HISTORY then [Report.Sample(window)] else []
    {
      RetainRecentSample(window);
      finalFootprint := window.footprint;
      escapeDetected := escapeDetected || sample.escapeObserved;
      log := log + if sample.sequence < MAX_SAMPLE_HISTORY then [Report.Sample(window)] else [];
    }

    method SampleOnce(taken: Taken<X>)
      requires Valid() && sampler.config.historyCapacity > 0
      modifies this, engine, engine.policy, engine.evidence, sampler, sampler.tracker
      ensures View() == SnapshotStep(old(View()), taken)
    {
      hide ApplyStep, RetainStep, SampleInput;
      var event := RetainSample(taken);
      ApplyEvent(event);
    }

    method RetainRecentSample(window: Report.SampleWindow<X>)
      modifies this`windows
      ensures windows == Push(old(windows), window, MAX_SAMPLE_HISTORY)
    {
      if |windows| == MAX_SAMPLE_HISTORY {
        windows := windows[1..];
      }
      windows := windows + [window];
    }

    method RecordTerminal(outcome: Report.TerminalOutcome)
      modifies this`log
      ensures log == FinalLog(old(View()), outcome)
    {
      hide RecentHistory;
      RecordRecentSampleHistory();
      log := log + [Report.Checkpoint(Report.CheckpointRecord(
                      checkpointStatus, checkpointAtMs, checkpointRequestId, checkpointReason, checkpointArtifact))];
      var count := sampler.tracker.escapedCount;
      log := log + [Report.Escape(Report.EscapeEvidence(Report.Available(escapeDetected),
                                                        if count > 0 then Some(count) else None))];
      log := log + [Report.Outcome(outcome)];
    }

    method RecordRecentSampleHistory()
      modifies this`log
      ensures log == old(log) + RecentHistory(sampler.history, windows)
    {
      if sampler.history == [] || sampler.history[0].sequence == 0 {
        assert log + [] == log;
        return;
      }
      log := log + [Report.SampleHistoryReset];
      ghost var start := log;
      for i := 0 to |windows|
        invariant log == start + Report.SampleEntries(windows[..i])
      {
        assert windows[..i + 1][..i] == windows[..i];
        assert Report.SampleEntries(windows[..i + 1]) == Report.SampleEntries(windows[..i]) + [Report.Sample(windows[i])];
        log := log + [Report.Sample(windows[i])];
      }
      assert windows[..|windows|] == windows;
    }
  }
}
