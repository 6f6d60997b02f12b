/** The documented transition table, row by row: which state and actions each event leads to, told in the
    table's own terms, for every machine a run can reach whose clock did not go back. */
module PolicyTable {
  import opened Common
  import opened Policy
  import opened PolicyRuns
  import opened SignalCauses

  /** Nothing but the clock moves, and nothing is asked for. */
  predicate Ignored(m: Machine, d: Decision, at: Duration) {
    d.actions == [] && d.machine == m.(lastEventAt := Some(at))
  }

  /** TERM or a forwarded signal, and the grace that starts with it. */
  predicate Terminates(m: Machine, d: Decision, at: Duration, action: Action) {
    && d.actions == [action]
    && d.machine.state.Terminating? && d.machine.interventionStarted
    && d.machine.termDeadline == Some(Min(at + m.config.termGrace, DURATION_MAX))
    && d.machine.activeRequestId.None? && d.machine.checkpointDeadline.None?
  }

  /** The graceful path: a checkpoint request with the next id, or TERM when checkpoints are off. */
  predicate Graceful(m: Machine, d: Decision, at: Duration, overshoot: u64, sampled: bool) {
    var first := if sampled then 1 else 0;
    && |d.actions| > first && (sampled ==> d.actions[0] == RecordObservation)
    && match m.config.checkpointTimeout
       case Some(timeout) =>
         var deadline := Min(at + timeout, DURATION_MAX);
         && d.actions[first..] == [RequestCheckpoint(m.nextRequestId, overshoot, deadline)]
         && d.machine.state.CheckpointRequested? && !d.machine.interventionStarted
         && d.machine.activeRequestId == Some(m.nextRequestId) && d.machine.checkpointDeadline == Some(deadline)
         && d.machine.nextRequestId == Min(m.nextRequestId + 1, U64_MAX)
       case None =>
         && d.actions[first..] == [SendTerm(SkippedNotNegotiated)] + (if sampled then [RecordOvershoot(overshoot)] else [])
         && d.machine.state.Terminating? && d.machine.interventionStarted
         && d.machine.termDeadline == Some(Min(at + m.config.termGrace, DURATION_MAX))
  }

  /** Valid samples before anything has begun. */
  lemma SampleRows(m: Machine, s: SampleEvent)
    requires Inv(m) && Live(m) && !ClockRegressed(m, s.processedAt) && Measures(m.config, s)
    ensures var c, bytes, d := m.config, s.aggregateBytes.value, Step(m, Sample(s));
            && (bytes <= c.recoveryBytes ==> d.machine.state.Normal? && d.actions == [RecordObservation])
            && (c.recoveryBytes < bytes < c.warningBytes ==> d.machine.state == m.state && d.actions == [RecordObservation])
            && (c.warningBytes <= bytes < c.limitBytes ==> d.machine.state.Warning? && d.actions == [RecordObservation])
            && (bytes < c.limitBytes ==> d.machine.breachStreak == 0)
            && (c.limitBytes <= bytes < c.emergencyBytes && m.breachStreak + 1 < c.requiredBreachSamples ==>
                  d.machine.state.Warning? && d.actions == [RecordObservation]
                  && d.machine.breachStreak == m.breachStreak + 1)
            && (c.limitBytes <= bytes < c.emergencyBytes && m.breachStreak + 1 >= c.requiredBreachSamples ==>
                  Graceful(m, d, s.processedAt, bytes - c.limitBytes, true))
            && d.machine.missingStreak == 0
  {
  }

  /** An emergency skips checkpoint and grace, in every state before an intervention. */
  lemma EmergencyRow(m: Machine, s: SampleEvent)
    requires Inv(m) && (Live(m) || m.state.CheckpointRequested?) && !ClockRegressed(m, s.processedAt)
    requires Measures(m.config, s) && s.aggregateBytes.value >= m.config.emergencyBytes
    ensures var d := Step(m, Sample(s));
            && d.machine.state.Emergency? && d.machine.interventionStarted
            && d.actions == [RecordObservation, SendKill, RecordOvershoot(s.aggregateBytes.value - m.config.limitBytes)]
  {
  }

  /** Samples once a checkpoint is awaited or a signal was sent are only recorded, and counted after one. */
  lemma LaterSampleRows(m: Machine, s: SampleEvent)
    requires Inv(m) && !Live(m) && !m.state.Exited? && !ClockRegressed(m, s.processedAt) && Measures(m.config, s)
    requires m.state.CheckpointRequested? ==> s.aggregateBytes.value < m.config.emergencyBytes
    ensures var d := Step(m, Sample(s));
            && d.actions == [RecordObservation]
            && d.machine == m.(lastEventAt := Some(s.processedAt), missingStreak := 0,
                               postSignalObservations := if m.state.CheckpointRequested? then m.postSignalObservations
                                                         else Min(m.postSignalObservations + 1, U32_MAX))
  {
  }

  /** Unusable samples count, and fail closed at the allowed run unless a signal was sent. */
  lemma MissingRows(m: Machine, s: SampleEvent)
    requires Inv(m) && !m.state.Exited? && !ClockRegressed(m, s.processedAt) && !Measures(m.config, s)
    ensures var c, d := m.config, Step(m, Sample(s));
            && d.machine.missingStreak == Min(m.missingStreak + 1, U32_MAX)
            && (if m.interventionStarted || d.machine.missingStreak < c.maxMissingSamples
                then d.actions == [RecordMissing] && d.machine.state == m.state
                else && d.actions == [RecordMissing, SendTerm(SkippedObservationFailure)]
                     && d.machine.state.SupervisorError? && d.machine.interventionStarted
                     && d.machine.termDeadline == Some(Min(s.processedAt + c.termGrace, DURATION_MAX)))
  {
  }

  /** Ticks: nothing before a deadline, the next phase at it. */
  lemma TickRows(m: Machine, at: Duration)
    requires Inv(m) && !m.state.Exited? && !ClockRegressed(m, at)
    ensures var c, d := m.config, Step(m, Tick(at));
            && (Live(m) && (c.wallTime.None? || at < c.wallTime.value) ==> Ignored(m, d, at))
            && (Live(m) && c.wallTime.Some? && at >= c.wallTime.value ==> Graceful(m, d, at, 0, false))
            && (m.state.CheckpointRequested? && at < m.checkpointDeadline.value ==> Ignored(m, d, at))
            && (m.state.CheckpointRequested? && at >= m.checkpointDeadline.value ==>
                  Terminates(m, d, at, SendTerm(TimedOut)))
            && (m.state.Terminating? && at < m.termDeadline.value ==> Ignored(m, d, at))
            && (m.state.SupervisorError? && (m.termDeadline.None? || at < m.termDeadline.value) ==> Ignored(m, d, at))
            && ((m.state.Terminating? || m.state.SupervisorError?) && m.termDeadline.Some? && at >= m.termDeadline.value ==>
                  d.actions == [SendKill] && d.machine.state.Emergency? && d.machine.interventionStarted)
            && (m.state.Emergency? ==> Ignored(m, d, at))
  {
  }

  /** The deadline the machine asks to be woken at is the one it waits for: a tick before it changes nothing,
      and one at or after it moves on to TERM or to KILL; without one, only the wall time is left to wait for. */
  lemma DeadlineRow(m: Machine, at: Duration)
    requires Inv(m) && !m.state.Exited? && !ClockRegressed(m, at)
    ensures var d := Step(m, Tick(at));
            match NextDeadline(m)
            case Some(deadline) =>
              !Live(m) && if at < deadline then Ignored(m, d, at)
                          else d.actions == [if m.state.CheckpointRequested? then SendTerm(TimedOut) else SendKill]
            case None => Live(m) || Ignored(m, d, at)
  {
  }

  /** Acknowledgements: only the authenticated one of the open request ends the checkpoint phase. */
  lemma AcknowledgementRows(m: Machine, at: Duration, id: u64, authenticated: bool)
    requires Inv(m) && !m.state.Exited? && !ClockRegressed(m, at)
    ensures var d := Step(m, CheckpointAck(at, id, authenticated));
            if m.state.CheckpointRequested? && authenticated && m.activeRequestId == Some(id)
            then Terminates(m, d, at, SendTerm(AcknowledgedUnverifiedDurability))
            else Ignored(m, d, at)
  {
  }

  /** Failures to act, by what failed. */
  lemma FailureRows(m: Machine, at: Duration, kind: ActuationKind, failure: ActuationFailure)
    requires Inv(m) && !m.state.Exited? && !ClockRegressed(m, at)
    ensures var d := Step(m, ActuationFailed(at, kind, failure));
            && (m.state.CheckpointRequested? && kind.CheckpointKind? ==>
                  Terminates(m, d, at, SendTerm(SkippedCheckpointFailure)))
            && (kind.TermKind? || kind.ForwardSignalKind? ==>
                  && d.actions == [SendKill] && d.machine.state.Emergency? && d.machine.interventionStarted
                  && d.machine.activeRequestId.None? && d.machine.checkpointDeadline.None? && d.machine.termDeadline.None?)
            && (kind.KillKind? || (kind.CheckpointKind? && !m.state.CheckpointRequested?) ==>
                  && d.actions == [ReportSupervisorError(kind, failure)]
                  && d.machine.state.SupervisorError? && d.machine.interventionStarted
                  && d.machine.activeRequestId.None? && d.machine.checkpointDeadline.None? && d.machine.termDeadline.None?)
  {
  }

  /** Signals received: forwarded once, then KILL. */
  lemma SignalRows(m: Machine, at: Duration, signal: SignalNumber)
    requires Inv(m) && !m.state.Exited? && !ClockRegressed(m, at)
    ensures var d := Step(m, ExternalSignal(at, signal));
            if m.interventionStarted
            then d.actions == [SendKill] && d.machine.state.Emergency? && d.machine.interventionStarted
            else Terminates(m, d, at, ForwardSignal(signal))
  {
  }

  /** What happens to the root, the parent, the process and the supervisor. */
  lemma WorldRows(m: Machine, at: Duration, footprint: Option<u64>)
    requires Inv(m) && !m.state.Exited? && !ClockRegressed(m, at)
    ensures if m.interventionStarted then Ignored(m, Step(m, RootExited(at)), at)
            else Terminates(m, Step(m, RootExited(at)), at, SendTerm(SkippedRootExited))
    ensures if Live(m) then Terminates(m, Step(m, ParentExited(at)), at, SendTerm(SkippedParentExited))
            else Ignored(m, Step(m, ParentExited(at)), at)
    ensures var d := Step(m, SupervisorFault(at));
            && d.machine.state.SupervisorError? && d.machine.interventionStarted
            && d.machine.activeRequestId.None? && d.machine.checkpointDeadline.None?
            && (if m.interventionStarted then d.actions == [] && d.machine.termDeadline == m.termDeadline
                else && d.actions == [SendTerm(SkippedSupervisorFailure)]
                     && d.machine.termDeadline == Some(Min(at + m.config.termGrace, DURATION_MAX)))
  {
  }

  /** The process' end is final whatever the clock says, and a clock that went back fails closed once, with
      the grace counted from the last good time. */
  lemma EndRows(m: Machine, e: Event)
    requires Inv(m)
    ensures var d := Step(m, e);
            && (m.state.Exited? ==> d.actions == [] && d.machine == m)
            && (!m.state.Exited? && e.ProcessExited? ==>
                  d.machine.state.Exited? && d.actions == [ReportExit(e.finalFootprintBytes, m.postSignalObservations)])
            && (!m.state.Exited? && !e.ProcessExited? && ClockRegressed(m, e.At()) ==>
                  if m.interventionStarted then d.actions == [] && d.machine == m
                  else && d.actions == [RecordMissing, SendTerm(SkippedObservationFailure)]
                       && d.machine.state.SupervisorError? && d.machine.interventionStarted
                       && d.machine.termDeadline == Some(Min(m.lastEventAt.value + m.config.termGrace, DURATION_MAX)))
  {
  }
}
