/** The enforcement state machine of policy.rs: first as a transition function on values, then as
    the mutable machine whose methods are proved to compute that function. */
module Policy {
  import opened Common

  type SignalNumber = x: int | 1 <= x <= 127 witness 1

  datatype PolicyConfig = PolicyConfig(
    limitBytes: u64,
    warningBytes: u64,
    recoveryBytes: u64,
    emergencyBytes: u64,
    requiredBreachSamples: u32,
    maxMissingSamples: u32,
    maxSampleAge: Duration,
    maxSampleWindow: Duration,
    checkpointTimeout: Option<Duration>,
    termGrace: Duration,
    wallTime: Option<Duration>)

  datatype PolicyState =
    | Observing | Normal | Warning | CheckpointRequested
    | Terminating | Emergency | Exited | SupervisorError

  datatype PolicyMode = Observe | Enforce

  datatype CheckpointDisposition =
    | AcknowledgedUnverifiedDurability | TimedOut
    | SkippedCheckpointFailure | SkippedObservationFailure | SkippedSupervisorFailure
    | SkippedNotNegotiated | SkippedRootExited | SkippedParentExited

  datatype ActuationKind = CheckpointKind | TermKind | KillKind | ForwardSignalKind

  datatype ActuationFailure =
    | CheckpointUnavailable | CheckpointRejected | ProcessMissing
    | PermissionDenied | InvalidTarget | SignalFailed

  datatype SampleEvent = SampleEvent(
    capturedAt: Duration, processedAt: Duration, window: Duration, aggregateBytes: Option<u64>)

  datatype Event =
    | Sample(sample: SampleEvent)
    | Tick(tickAt: Duration)
    | CheckpointAck(ackAt: Duration, requestId: u64, authenticated: bool)
    | ExternalSignal(signalAt: Duration, signal: SignalNumber)
    | ActuationFailed(failedAt: Duration, action: ActuationKind, failure: ActuationFailure)
    | SupervisorFault(faultAt: Duration)
    | ProcessExited(exitedAt: Duration, finalFootprintBytes: Option<u64>)
    | RootExited(rootExitedAt: Duration)
    | ParentExited(parentExitedAt: Duration)
  {
    function At(): Duration {
      match this
      case Sample(s) => s.processedAt
      case Tick(at) => at
      case CheckpointAck(at, _, _) => at
      case ExternalSignal(at, _) => at
      case ActuationFailed(at, _, _) => at
      case SupervisorFault(at) => at
      case ProcessExited(at, _) => at
      case RootExited(at) => at
      case ParentExited(at) => at
    }
  }

  datatype Action =
    | RecordObservation
    | RecordMissing
    | RequestCheckpoint(requestId: u64, overshootBytes: u64, deadlineAt: Duration)
    | SendTerm(checkpoint: CheckpointDisposition)
    | SendKill
    | RecordOvershoot(bytes: u64)
    | StopObserving
    | ForwardSignal(signal: SignalNumber)
    | ReportExit(footprint: Option<u64>, postSignalObservations: u32)
    | ReportSupervisorError(failedAction: ActuationKind, failure: ActuationFailure)

  /** The machine's fields as one value. */
  datatype Machine = Machine(
    mode: PolicyMode,
    state: PolicyState,
    config: PolicyConfig,
    breachStreak: u32,
    missingStreak: u32,
    nextRequestId: u64,
    activeRequestId: Option<u64>,
    checkpointDeadline: Option<Duration>,
    termDeadline: Option<Duration>,
    lastEventAt: Option<Duration>,
    postSignalObservations: u32,
    interventionStarted: bool)

  datatype Decision = Decision(machine: Machine, actions: seq<Action>)

  predicate ValidConfig(c: PolicyConfig) {
    && c.recoveryBytes < c.warningBytes < c.limitBytes < c.emergencyBytes
    && c.requiredBreachSamples > 0 && c.maxMissingSamples > 0
    && c.maxSampleAge > 0 && c.maxSampleWindow > 0 && c.termGrace > 0
    && (c.checkpointTimeout.Some? ==> c.checkpointTimeout.value > 0)
    && (c.wallTime.Some? ==> c.wallTime.value > 0)
  }

  function Enforcing(config: PolicyConfig, initialRequestId: u64): Machine {
    Machine(Enforce, Normal, config, 0, 0, initialRequestId, None, None, None, None, 0, false)
  }

  function ObservingConfig(age: Duration, window: Duration, maxMissing: u32): PolicyConfig {
    PolicyConfig(U64_MAX, U64_MAX - 1, U64_MAX - 2, U64_MAX, U32_MAX, maxMissing, age, window,
                 None, DURATION_MAX, None)
  }

  predicate Usable(c: PolicyConfig, s: SampleEvent) {
    && s.aggregateBytes.Some?
    && s.processedAt >= s.capturedAt
    && s.processedAt - s.capturedAt <= c.maxSampleAge
    && s.window <= c.maxSampleWindow
  }

  // ---- Transition function ----

  function GraceEnd(m: Machine, at: Duration): Option<Duration> {
    Some(SatAddDuration(at, m.config.termGrace))
  }

  /** Leave the checkpoint phase and start the TERM grace. */
  function Terminate(m: Machine, at: Duration, action: Action): Decision {
    Decision(m.(activeRequestId := None, checkpointDeadline := None, state := Terminating,
                interventionStarted := true, termDeadline := GraceEnd(m, at)),
             [action])
  }

  function GracefulStep(m: Machine, at: Duration, overshoot: u64): Decision {
    match m.config.checkpointTimeout
    case Some(timeout) =>
      var deadline := SatAddDuration(at, timeout);
      Decision(m.(nextRequestId := SatAdd64(m.nextRequestId, 1), activeRequestId := Some(m.nextRequestId),
                  checkpointDeadline := Some(deadline), state := CheckpointRequested),
               [RequestCheckpoint(m.nextRequestId, overshoot, deadline)])
    case None =>
      Decision(m.(state := Terminating, interventionStarted := true, termDeadline := GraceEnd(m, at)),
               [SendTerm(SkippedNotNegotiated)])
  }

  function MissingStep(m0: Machine, at: Duration): Decision {
    var m := m0.(missingStreak := SatAdd32(m0.missingStreak, 1));
    if m.missingStreak < m.config.maxMissingSamples || m.state.SupervisorError? || m.interventionStarted then
      Decision(m, [RecordMissing])
    else if m.mode.Observe? then
      Decision(m.(state := SupervisorError), [RecordMissing, StopObserving])
    else
      Decision(m.(state := SupervisorError, interventionStarted := true, termDeadline := GraceEnd(m, at)),
               [RecordMissing, SendTerm(SkippedObservationFailure)])
  }

  function BreachStep(m0: Machine, at: Duration, bytes: u64): Decision {
    var m := m0.(breachStreak := SatAdd32(m0.breachStreak, 1), state := Warning);
    if m.breachStreak < m.config.requiredBreachSamples then
      Decision(m, [RecordObservation])
    else
      var overshoot := SatSub(bytes, m.config.limitBytes);
      var d := GracefulStep(m, at, overshoot);
      Decision(d.machine,
               [RecordObservation] + d.actions
               + if m.config.checkpointTimeout.None? then [RecordOvershoot(overshoot)] else [])
  }

  function SampleStep(m0: Machine, s: SampleEvent): Decision {
    if !Usable(m0.config, s) then
      MissingStep(m0, s.processedAt)
    else
      var m := m0.(missingStreak := 0,
                   postSignalObservations := if m0.interventionStarted then SatAdd32(m0.postSignalObservations, 1)
                                             else m0.postSignalObservations);
      var bytes := s.aggregateBytes.value;
      if m.mode.Observe? || m.interventionStarted then
        Decision(m, [RecordObservation])
      else if bytes >= m.config.emergencyBytes then
        Decision(m.(state := Emergency, interventionStarted := true),
                 [RecordObservation, SendKill, RecordOvershoot(SatSub(bytes, m.config.limitBytes))])
      else if m.state.CheckpointRequested? then
        Decision(m, [RecordObservation])
      else if bytes >= m.config.limitBytes then
        BreachStep(m, s.processedAt, bytes)
      else
        Decision(m.(breachStreak := 0,
                    state := if bytes >= m.config.warningBytes then Warning
                             else if bytes <= m.config.recoveryBytes then Normal
                             else m.state),
                 [RecordObservation])
  }

  function AckStep(m: Machine, at: Duration, requestId: u64, authenticated: bool): Decision {
    if !m.state.CheckpointRequested? || m.activeRequestId != Some(requestId) || !authenticated then
      Decision(m, [])
    else
      Terminate(m, at, SendTerm(AcknowledgedUnverifiedDurability))
  }

  predicate Due(deadline: Option<Duration>, at: Duration) {
    deadline.Some? && at >= deadline.value
  }

  function TickStep(m: Machine, at: Duration): Decision {
    if m.state.CheckpointRequested? && Due(m.checkpointDeadline, at) then
      Terminate(m, at, SendTerm(TimedOut))
    else if (m.state.Terminating? || m.state.SupervisorError?) && Due(m.termDeadline, at) then
      Decision(m.(state := Emergency), [SendKill])
    else if !m.interventionStarted && (m.state.Normal? || m.state.Warning?) && Due(m.config.wallTime, at) then
      GracefulStep(m, at, 0)
    else
      Decision(m, [])
  }

  function SignalStep(m: Machine, at: Duration, signal: SignalNumber): Decision {
    if m.state.Terminating? || m.state.SupervisorError? || m.state.Emergency? then
      Decision(m.(state := Emergency, interventionStarted := true), [SendKill])
    else
      Terminate(m, at, ForwardSignal(signal))
  }

  function RootExitStep(m: Machine, at: Duration): Decision {
    if m.state.Normal? || m.state.Warning? || m.state.CheckpointRequested?
    then Terminate(m, at, SendTerm(SkippedRootExited))
    else Decision(m, [])
  }

  function ParentExitStep(m: Machine, at: Duration): Decision {
    if m.state.Normal? || m.state.Warning?
    then Terminate(m, at, SendTerm(SkippedParentExited))
    else Decision(m, [])
  }

  function FailureStep(m: Machine, at: Duration, action: ActuationKind, failure: ActuationFailure): Decision {
    if action.CheckpointKind? && m.state.CheckpointRequested? then
      Terminate(m, at, SendTerm(SkippedCheckpointFailure))
    else
      var ended := m.(activeRequestId := None, checkpointDeadline := None, termDeadline := None,
                      interventionStarted := true);
      if action.TermKind? || action.ForwardSignalKind? then
        Decision(ended.(state := Emergency), [SendKill])
      else
        Decision(ended.(state := SupervisorError), [ReportSupervisorError(action, failure)])
  }

  function FaultStep(m0: Machine, at: Duration): Decision {
    var m := m0.(activeRequestId := None, checkpointDeadline := None, state := SupervisorError);
    if m.mode.Observe? then
      Decision(m, [StopObserving])
    else if m.interventionStarted then
      Decision(m, [])
    else
      Decision(m.(interventionStarted := true, termDeadline := GraceEnd(m, at)),
               [SendTerm(SkippedSupervisorFailure)])
  }

  function ClockStep(m: Machine): Decision {
    if m.interventionStarted || m.state.SupervisorError? then
      Decision(m, [])
    else if m.mode.Observe? then
      Decision(m.(state := SupervisorError), [RecordMissing, StopObserving])
    else
      Decision(m.(state := SupervisorError, interventionStarted := true,
                  termDeadline := if m.lastEventAt.Some? then GraceEnd(m, m.lastEventAt.value) else None),
               [RecordMissing, SendTerm(SkippedObservationFailure)])
  }

  predicate ClockRegressed(m: Machine, at: Duration) {
    m.lastEventAt.Some? && at < m.lastEventAt.value
  }

  /** One event on a machine whose clock did not regress. */
  function Dispatch(m: Machine, e: Event): Decision {
    match e
    case Sample(s) => SampleStep(m, s)
    case Tick(at) => TickStep(m, at)
    case CheckpointAck(at, id, authenticated) => AckStep(m, at, id, authenticated)
    case ExternalSignal(at, signal) => SignalStep(m, at, signal)
    case ActuationFailed(at, action, failure) => FailureStep(m, at, action, failure)
    case SupervisorFault(at) => FaultStep(m, at)
    case ProcessExited(_, footprint) =>
      Decision(m.(state := Exited), [ReportExit(footprint, m.postSignalObservations)])
    case RootExited(at) => RootExitStep(m, at)
    case ParentExited(at) => ParentExitStep(m, at)
  }

  /** The whole decision contract: one event in, next machine and ordered actions out. */
  function Step(m: Machine, e: Event): Decision {
    if m.state.Exited? then
      Decision(m, [])
    else if e.ProcessExited? then
      Dispatch(m, e)
    else if ClockRegressed(m, e.At()) then
      ClockStep(m)
    else
      Dispatch(m.(lastEventAt := Some(e.At())), e)
  }

  function NextDeadline(m: Machine): Option<Duration> {
    match m.state
    case CheckpointRequested => m.checkpointDeadline
    case Terminating | SupervisorError => m.termDeadline
    case _ => None
  }

  // ---- The machine itself ----

  class PolicyMachine {
    var mode: PolicyMode
    var state: PolicyState
    var config: PolicyConfig
    var breachStreak: u32
    var missingStreak: u32
    var nextRequestId: u64
    var activeRequestId: Option<u64>
    var checkpointDeadline: Option<Duration>
    var termDeadline: Option<Duration>
    var lastEventAt: Option<Duration>
    var postSignalObservations: u32
    var interventionStarted: bool

    function View(): Machine
      reads this
    {
      Machine(mode, state, config, breachStreak, missingStreak, nextRequestId, activeRequestId,
              checkpointDeadline, termDeadline, lastEventAt, postSignalObservations, interventionStarted)
    }

    constructor (mode: PolicyMode, config: PolicyConfig, initialRequestId: u64)
      ensures View() == Enforcing(config, initialRequestId)
                        .(mode := mode, state := if mode.Observe? then Observing else Normal)
    {
      this.mode, this.config, this.nextRequestId := mode, config, initialRequestId;
      state := if mode.Observe? then Observing else Normal;
      breachStreak, missingStreak, postSignalObservations := 0, 0, 0;
      activeRequestId, checkpointDeadline, termDeadline, lastEventAt := None, None, None, None;
      interventionStarted := false;
    }

    /** The enforcing constructor: rejects exactly the invalid configurations and the zero seed. */
    static method EnforceWithInitialRequestId(config: PolicyConfig, initialRequestId: u64)
      returns (r: Option<PolicyMachine>)
      ensures r.Some? <==>
                && config.recoveryBytes < config.warningBytes < config.limitBytes < config.emergencyBytes
                && config.requiredBreachSamples != 0 && config.maxMissingSamples != 0 && config.maxSampleAge != 0
                && config.maxSampleWindow != 0 && config.termGrace != 0 && config.checkpointTimeout != Some(0)
                && config.wallTime != Some(0) && initialRequestId != 0
      ensures r.Some? ==> fresh(r.value) && r.value.View() == Enforcing(config, initialRequestId)
    {
      if !ValidConfig(config) || initialRequestId == 0 {
        return None;
      }
      var machine := new PolicyMachine(Enforce, config, initialRequestId);
      return Some(machine);
    }

    static method NewObserver(age: Duration, window: Duration, maxMissing: u32) returns (machine: PolicyMachine)
      ensures fresh(machine)
      ensures machine.View()
           == Machine(Observe, Observing, ObservingConfig(age, window, maxMissing), 0, 0, 1,
                      None, None, None, None, 0, false)
    {
      machine := new PolicyMachine(Observe, ObservingConfig(age, window, maxMissing), 1);
    }

    method Apply(event: Event) returns (actions: seq<Action>)
      modifies this
      ensures Decision(View(), actions) == Step(old(View()), event)
    {
      if state.Exited? {
        return [];
      }
      if event.ProcessExited? {
        state := Exited;
        return [ReportExit(event.finalFootprintBytes, postSignalObservations)];
      }
      var at := event.At();
      if lastEventAt.Some? && at < lastEventAt.value {
        actions := FailClock();
        return;
      }
      lastEventAt := Some(at);
      match event {
        case Sample(s) => actions := ApplySample(s);
        case Tick(_) => actions := ApplyTick(at);
        case CheckpointAck(_, id, authenticated) => actions := ApplyCheckpointAck(at, id, authenticated);
        case ExternalSignal(_, signal) => actions := ApplyExternalSignal(at, signal);
        case ActuationFailed(_, action, failure) => actions := ApplyActuationFailed(at, action, failure);
        case SupervisorFault(_) => actions := ApplySupervisorFault(at);
        case RootExited(_) => actions := ApplyRootExited(at);
        case ParentExited(_) => actions := ApplyParentExited(at);
      }
    }

    method ApplySample(sample: SampleEvent) returns (actions: seq<Action>)
      modifies this
      ensures Decision(View(), actions) == SampleStep(old(View()), sample)
    {
      var age := SatSub(sample.processedAt, sample.capturedAt);
      var valid := sample.aggregateBytes.Some?
        && sample.processedAt >= sample.capturedAt
        && age <= config.maxSampleAge
        && sample.window <= config.maxSampleWindow;
      if !valid {
        actions := ApplyMissing(sample.processedAt);
        return;
      }
      missingStreak := 0;
      if interventionStarted {
        postSignalObservations := SatAdd32(postSignalObservations, 1);
      }
      if mode.Observe? || interventionStarted {
        return [RecordObservation];
      }
      var bytes := sample.aggregateBytes.value;
      if bytes >= config.emergencyBytes {
        state := Emergency;
        interventionStarted := true;
        return [RecordObservation, SendKill, RecordOvershoot(SatSub(bytes, config.limitBytes))];
      }
      if state.CheckpointRequested? {
        return [RecordObservation];
      }
      if bytes >= config.limitBytes {
        breachStreak := SatAdd32(breachStreak, 1);
        state := Warning;
        actions := [RecordObservation];
        if breachStreak >= config.requiredBreachSamples {
          var overshoot := SatSub(bytes, config.limitBytes);
          var graceful := BeginGraceful(sample.processedAt, overshoot);
          actions := actions + graceful;
          if config.checkpointTimeout.None? {
            actions := actions + [RecordOvershoot(overshoot)];
          }
        }
        return;
      }
      breachStreak := 0;
      if bytes >= config.warningBytes {
        state := Warning;
      } else if bytes <= config.recoveryBytes {
        state := Normal;
      }
      return [RecordObservation];
    }

    method ApplyMissing(at: Duration) returns (actions: seq<Action>)
      modifies this
      ensures Decision(View(), actions) == MissingStep(old(View()), at)
    {
      missingStreak := SatAdd32(missingStreak, 1);
      actions := [RecordMissing];
      if missingStreak < config.maxMissingSamples || state.SupervisorError? || interventionStarted {
        return;
      }
      state := SupervisorError;
      if mode.Observe? {
        actions := actions + [StopObserving];
      } else {
        interventionStarted := true;
        termDeadline := Some(SatAddDuration(at, config.termGrace));
        actions := actions + [SendTerm(SkippedObservationFailure)];
      }
    }

    method BeginGraceful(at: Duration, overshoot: u64) returns (actions: seq<Action>)
      modifies this
      ensures Decision(View(), actions) == GracefulStep(old(View()), at, overshoot)
    {
      if config.checkpointTimeout.Some? {
        var requestId := nextRequestId;
        var deadline := SatAddDuration(at, config.checkpointTimeout.value);
        nextRequestId := SatAdd64(nextRequestId, 1);
        activeRequestId := Some(requestId);
        checkpointDeadline := Some(deadline);
        state := CheckpointRequested;
        actions := [RequestCheckpoint(requestId, overshoot, deadline)];
      } else {
        state := Terminating;
        interventionStarted := true;
        termDeadline := Some(SatAddDuration(at, config.termGrace));
        actions := [SendTerm(SkippedNotNegotiated)];
      }
    }

    /** The five assignments every path into the TERM grace performs. */
    method EnterTerminating(at: Duration)
      modifies this
      ensures View() == Terminate(old(View()), at, SendKill).machine
    {
      activeRequestId := None;
      checkpointDeadline := None;
      state := Terminating;
      interventionStarted := true;
      termDeadline := Some(SatAddDuration(at, config.termGrace));
    }

    method ApplyCheckpointAck(at: Duration, requestId: u64, authenticated: bool) returns (actions: seq<Action>)
      modifies this
      ensures Decision(View(), actions) == AckStep(old(View()), at, requestId, authenticated)
    {
      if !state.CheckpointRequested? || activeRequestId != Some(requestId) || !authenticated {
        return [];
      }
      EnterTerminating(at);
      return [SendTerm(AcknowledgedUnverifiedDurability)];
    }

    method ApplyTick(at: Duration) returns (actions: seq<Action>)
      modifies this
      ensures Decision(View(), actions) == TickStep(old(View()), at)
    {
      if state.CheckpointRequested? && Due(checkpointDeadline, at) {
        EnterTerminating(at);
        return [SendTerm(TimedOut)];
      }
      if (state.Terminating? || state.SupervisorError?) && Due(termDeadline, at) {
        state := Emergency;
        return [SendKill];
      }
      if !interventionStarted && (state.Normal? || state.Warning?) && Due(config.wallTime, at) {
        actions := BeginGraceful(at, 0);
        return;
      }
      return [];
    }

    method ApplyExternalSignal(at: Duration, signal: SignalNumber) returns (actions: seq<Action>)
      modifies this
      ensures Decision(View(), actions) == SignalStep(old(View()), at, signal)
    {
      if state.Terminating? || state.SupervisorError? || state.Emergency? {
        state := Emergency;
        interventionStarted := true;
        return [SendKill];
      }
      EnterTerminating(at);
      return [ForwardSignal(signal)];
    }

    method ApplyRootExited(at: Duration) returns (actions: seq<Action>)
      modifies this
      ensures Decision(View(), actions) == RootExitStep(old(View()), at)
    {
      if !(state.Normal? || state.Warning? || state.CheckpointRequested?) {
        return [];
      }
      EnterTerminating(at);
      return [SendTerm(SkippedRootExited)];
    }

    method ApplyParentExited(at: Duration) returns (actions: seq<Action>)
      modifies this
      ensures Decision(View(), actions) == ParentExitStep(old(View()), at)
    {
      if !(state.Normal? || state.Warning?) {
        return [];
      }
      EnterTerminating(at);
      return [SendTerm(SkippedParentExited)];
    }

    method ApplyActuationFailed(at: Duration, action: ActuationKind, failure: ActuationFailure)
      returns (actions: seq<Action>)
      modifies this
      ensures Decision(View(), actions) == FailureStep(old(View()), at, action, failure)
    {
      if action.CheckpointKind? && state.CheckpointRequested? {
        EnterTerminating(at);
        return [SendTerm(SkippedCheckpointFailure)];
      }
      activeRequestId, checkpointDeadline, termDeadline := None, None, None;
      interventionStarted := true;
      if action.TermKind? || action.ForwardSignalKind? {
        state := Emergency;
        return [SendKill];
      }
      state := SupervisorError;
      return [ReportSupervisorError(action, failure)];
    }

    method ApplySupervisorFault(at: Duration) returns (actions: seq<Action>)
      modifies this
      ensures Decision(View(), actions) == FaultStep(old(View()), at)
    {
      var signalAlreadyRequested := interventionStarted;
      activeRequestId, checkpointDeadline := None, None;
      state := SupervisorError;
      if mode.Observe? {
        return [StopObserving];
      }
      if signalAlreadyRequested {
        return [];
      }
      interventionStarted := true;
      termDeadline := Some(SatAddDuration(at, config.termGrace));
      return [SendTerm(SkippedSupervisorFailure)];
    }

    method FailClock() returns (actions: seq<Action>)
      modifies this
      ensures Decision(View(), actions) == ClockStep(old(View()))
    {
      if interventionStarted || state.SupervisorError? {
        return [];
      }
      state := SupervisorError;
      if mode.Observe? {
        return [RecordMissing, StopObserving];
      }
      interventionStarted := true;
      termDeadline := if lastEventAt.Some? then Some(SatAddDuration(lastEventAt.value, config.termGrace)) else None;
      return [RecordMissing, SendTerm(SkippedObservationFailure)];
    }
  }
}
