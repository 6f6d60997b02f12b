/** Why and when each side effect of a run is selected: never before its deadline, and only for the event
    and the earlier opening the documentation names. */
module SignalCauses {
  import opened Common
  import opened Policy
  import opened Actuations
  import opened PolicyRuns
  import opened Intervention
  import opened Cascades
  import opened InterventionRuns
  import opened EscalationTiming

  /** A sample that counts: it has a total, was captured no later than it was processed, and is neither too
      old nor collected over too wide a window. */
  predicate Measures(c: PolicyConfig, s: SampleEvent) {
    && s.aggregateBytes.Some? && s.capturedAt <= s.processedAt <= s.capturedAt + c.maxSampleAge
    && s.window <= c.maxSampleWindow
  }

  /** A fresh machine: nothing begun, no deadline, no clock. */
  predicate Unopened(m: Machine) {
    Inv(m) && Live(m) && m.lastEventAt.None? && m.termDeadline.None? && m.checkpointDeadline.None?
  }

  predicate Requests(actions: seq<Action>, id: u64, deadline: Duration) {
    exists a :: 0 <= a < |actions| && actions[a].RequestCheckpoint? && actions[a].requestId == id
                && actions[a].deadlineAt == deadline
  }

  /** The shutdown has begun: something was sent to the group, or a failure to send was reported. */
  predicate Shuts(actions: seq<Action>) {
    exists a :: 0 <= a < |actions| && (actions[a].SendTerm? || actions[a].ForwardSignal? || actions[a].SendKill?
                                       || actions[a].ReportSupervisorError?)
  }

  /** Event `i` sent TERM or forwarded a signal, and its grace ends then. */
  ghost predicate TermOpened(m: Machine, es: seq<Event>, i: nat, deadline: Duration)
    requires i < |es|
  {
    OpensTerm(Out(m, es, i)) && deadline == Min(es[i].At() + m.config.termGrace, DURATION_MAX)
  }

  /** Event `i` asked for the checkpoint with that id, to be acknowledged before then. */
  ghost predicate CheckpointOpened(m: Machine, es: seq<Event>, i: nat, id: u64, deadline: Duration)
    requires i < |es|
  {
    && m.config.checkpointTimeout.Some? && Requests(Out(m, es, i), id, deadline)
    && deadline == Min(es[i].At() + m.config.checkpointTimeout.value, DURATION_MAX)
  }

  /** A limit was reached: a counted total at or above the limit and short of the emergency, or the wall time. */
  predicate LimitReached(c: PolicyConfig, e: Event, overshoot: u64) {
    || (e.Sample? && Measures(c, e.sample)
        && c.limitBytes <= e.sample.aggregateBytes.value < c.emergencyBytes
        && overshoot == e.sample.aggregateBytes.value - c.limitBytes)
    || (e.Tick? && c.wallTime.Some? && e.At() >= c.wallTime.value && overshoot == 0)
  }

  /** What event `j` of an ordered run must be, and what must have come before it, to select a side effect. */
  ghost predicate Caused(m: Machine, es: seq<Event>, j: nat, x: Actuation)
    requires j < |es|
  {
    var c, e := m.config, es[j];
    match x
    case Checkpoint(id, overshoot, deadline) =>
      && c.checkpointTimeout.Some? && deadline == Min(e.At() + c.checkpointTimeout.value, DURATION_MAX)
      && id == m.nextRequestId && LimitReached(c, e, overshoot)
    case Forward(signal) => e.ExternalSignal? && e.signal == signal
    case Kill =>
      (match e
       case Sample(s) => Measures(c, s) && s.aggregateBytes.value >= c.emergencyBytes
       case Tick(at) => exists i: nat, deadline: Duration :: i < j && TermOpened(m, es, i, deadline) && at >= deadline
       case ExternalSignal(_, _) => exists i: nat :: i < j && Shuts(Out(m, es, i))
       case ActuationFailed(_, kind, _) => kind.TermKind? || kind.ForwardSignalKind?
       case _ => false)
    case Term(disposition) => TermCaused(m, es, j, disposition)
  }

  ghost predicate TermCaused(m: Machine, es: seq<Event>, j: nat, disposition: CheckpointDisposition)
    requires j < |es|
  {
    var c, e := m.config, es[j];
    match disposition
    case AcknowledgedUnverifiedDurability =>
      e.CheckpointAck? && e.authenticated
      && exists i: nat, deadline: Duration :: i < j && CheckpointOpened(m, es, i, e.requestId, deadline)
    case TimedOut =>
      e.Tick?
      && exists i: nat, id: u64, deadline: Duration ::
           i < j && CheckpointOpened(m, es, i, id, deadline) && e.At() >= deadline
    case SkippedCheckpointFailure =>
      e.ActuationFailed? && e.action.CheckpointKind?
      && exists i: nat, id: u64, deadline: Duration :: i < j && CheckpointOpened(m, es, i, id, deadline)
    case SkippedObservationFailure => e.Sample? && !Measures(c, e.sample)
    case SkippedSupervisorFailure => e.SupervisorFault?
    case SkippedNotNegotiated => c.checkpointTimeout.None? && exists overshoot: u64 :: LimitReached(c, e, overshoot)
    case SkippedRootExited => e.RootExited?
    case SkippedParentExited => e.ParentExited?
  }

  // ---- What the machine remembers ----

  /** Every deadline, open request and shutdown the machine knows of was opened by an earlier event. */
  ghost predicate Remembers(m: Machine, es: seq<Event>, k: nat)
    requires k <= |es|
  {
    var n := After(m, es, k);
    && (n.termDeadline.Some? ==> exists i: nat :: i < k && TermOpened(m, es, i, n.termDeadline.value))
    && (n.checkpointDeadline.Some? ==>
          n.activeRequestId.Some?
          && exists i: nat :: i < k && CheckpointOpened(m, es, i, n.activeRequestId.value, n.checkpointDeadline.value))
    && (n.state.Terminating? || n.state.Emergency? || n.state.SupervisorError? ==>
          exists i: nat :: i < k && Shuts(Out(m, es, i)))
    && (Live(n) ==> n.nextRequestId == m.nextRequestId)
  }

  /** What one step may newly remember. */
  ghost predicate Opens(n: Machine, e: Event, d: Decision) {
    var c := n.config;
    && (d.machine.termDeadline.Some? ==>
          d.machine.termDeadline == n.termDeadline
          || (OpensTerm(d.actions) && d.machine.termDeadline.value == Min(e.At() + c.termGrace, DURATION_MAX)))
    && (d.machine.checkpointDeadline.Some? ==>
          || (d.machine.checkpointDeadline == n.checkpointDeadline && d.machine.activeRequestId == n.activeRequestId)
          || (c.checkpointTimeout.Some? && d.machine.activeRequestId.Some?
              && Requests(d.actions, d.machine.activeRequestId.value, d.machine.checkpointDeadline.value)
              && d.machine.checkpointDeadline.value == Min(e.At() + c.checkpointTimeout.value, DURATION_MAX)))
    && (d.machine.state.Terminating? || d.machine.state.Emergency? || d.machine.state.SupervisorError? ==>
          n.state.Terminating? || n.state.Emergency? || n.state.SupervisorError? || Shuts(d.actions))
    && (Live(d.machine) ==> Live(n) && d.machine.nextRequestId == n.nextRequestId)
  }

  lemma StepOpens(n: Machine, e: Event)
    requires Inv(n) && !ClockRegressed(n, e.At())
    ensures Opens(n, e, Step(n, e))
  {
    var actions := Step(n, e).actions;
    assert |actions| > 0 ==> actions[0] == actions[0];
    match e
    case Sample(s) => SampleOpens(n, e);
    case _ => assert |actions| <= 1;
  }

  lemma SampleOpens(n: Machine, e: Event)
    requires Inv(n) && !ClockRegressed(n, e.At()) && e.Sample?
    ensures Opens(n, e, Step(n, e))
  {
    var actions := Step(n, e).actions;
    assert |actions| > 1 ==> actions[1].RequestCheckpoint? || actions[1].SendTerm? || actions[1].SendKill?;
  }

  lemma {:induction false} RunRemembers(m: Machine, es: seq<Event>, k: nat)
    requires Unopened(m) && Ordered(es) && k <= |es|
    ensures Remembers(m, es, k)
  {
    hide Step, Inv, TermOpened, CheckpointOpened, Shuts;
    if k > 0 {
      RunRemembers(m, es, k - 1);
      RunKeepsInv(m, es, k - 1);
      NoRegression(m, es, k - 1);
      StepOpens(After(m, es, k - 1), es[k - 1]);
      RemembersNext(m, es, k - 1);
    }
  }

  lemma RemembersNext(m: Machine, es: seq<Event>, k: nat)
    requires k < |es| && Remembers(m, es, k) && After(m, es, k).config == m.config
    requires Opens(After(m, es, k), es[k], Step(After(m, es, k), es[k]))
    ensures Remembers(m, es, k + 1)
  {
    hide Step, OpensTerm, Requests, Shuts;
    var n, d := After(m, es, k), Step(After(m, es, k), es[k]);
    assert d.actions == Out(m, es, k) && d.machine == After(m, es, k + 1);
    if d.machine.termDeadline.Some? && d.machine.termDeadline != n.termDeadline {
      assert TermOpened(m, es, k, d.machine.termDeadline.value);
    }
    if d.machine.checkpointDeadline.Some?
       && !(d.machine.checkpointDeadline == n.checkpointDeadline && d.machine.activeRequestId == n.activeRequestId) {
      assert CheckpointOpened(m, es, k, d.machine.activeRequestId.value, d.machine.checkpointDeadline.value);
    }
  }

  // ---- What one step selects ----

  /** The cause of a side effect in terms of the machine that selects it. */
  predicate CausedNow(n: Machine, e: Event, x: Actuation) {
    var c := n.config;
    match x
    case Checkpoint(id, overshoot, deadline) =>
      && c.checkpointTimeout.Some? && deadline == Min(e.At() + c.checkpointTimeout.value, DURATION_MAX)
      && Live(n) && id == n.nextRequestId && LimitReached(c, e, overshoot)
    case Forward(signal) => e.ExternalSignal? && e.signal == signal
    case Kill =>
      (match e
       case Sample(s) => Measures(c, s) && s.aggregateBytes.value >= c.emergencyBytes
       case Tick(at) => n.termDeadline.Some? && at >= n.termDeadline.value
       case ExternalSignal(_, _) => n.state.Terminating? || n.state.Emergency? || n.state.SupervisorError?
       case ActuationFailed(_, kind, _) => kind.TermKind? || kind.ForwardSignalKind?
       case _ => false)
    case Term(disposition) => TermCausedNow(n, e, disposition)
  }

  predicate TermCausedNow(n: Machine, e: Event, disposition: CheckpointDisposition) {
    var c := n.config;
    match disposition
    case AcknowledgedUnverifiedDurability =>
      e.CheckpointAck? && e.authenticated && n.checkpointDeadline.Some? && n.activeRequestId == Some(e.requestId)
    case TimedOut => e.Tick? && n.checkpointDeadline.Some? && e.At() >= n.checkpointDeadline.value
    case SkippedCheckpointFailure => e.ActuationFailed? && e.action.CheckpointKind? && n.checkpointDeadline.Some?
    case SkippedObservationFailure => e.Sample? && !Measures(c, e.sample)
    case SkippedSupervisorFailure => e.SupervisorFault?
    case SkippedNotNegotiated =>
      c.checkpointTimeout.None?
      && LimitReached(c, e, if e.Sample? && Measures(c, e.sample) then SatSub(e.sample.aggregateBytes.value, c.limitBytes) else 0)
    case SkippedRootExited => e.RootExited?
    case SkippedParentExited => e.ParentExited?
  }

  lemma SelectionIsCaused(n: Machine, e: Event)
    requires Inv(n) && !ClockRegressed(n, e.At())
    ensures var d := Step(n, e);
            0 < |d.actions| <= 3 && Selected(d.actions).Some? ==> CausedNow(n, e, Selected(d.actions).value)
  {
    match e
    case Sample(s) =>
    case Tick(at) =>
    case _ =>
  }

  /** In an ordered run every side effect has its documented cause. A KILL at a tick comes no earlier than the
      TERM or forwarded signal before it plus the grace; a TERM for a missing acknowledgement no earlier than
      the request plus its timeout; a limit opens the graceful path only when it was reached; an
      acknowledgement counts only for the id that was asked for; and the forwarded signal is the one received. */
  lemma EverySideEffectIsCaused(m: Machine, es: seq<Event>, j: nat, x: Actuation)
    requires Unopened(m) && Ordered(es) && j < |es| && x in ActuationsOf(Out(m, es, j))
    ensures Caused(m, es, j, x)
  {
    hide Step, Inv, Measures, LimitReached, Shuts, Requests;
    var n, e := After(m, es, j), es[j];
    RunKeepsInv(m, es, j);
    NoRegression(m, es, j);
    RunRemembers(m, es, j);
    StepSelects(n, e);
    SelectionIsCaused(n, e);
    ActuationsOfShort(Step(n, e).actions);
    CauseOfRun(m, es, j, x);
  }

  lemma CauseOfRun(m: Machine, es: seq<Event>, j: nat, x: Actuation)
    requires j < |es| && Remembers(m, es, j) && After(m, es, j).config == m.config && CausedNow(After(m, es, j), es[j], x)
    ensures Caused(m, es, j, x)
  {
    hide Step, LimitReached, Shuts, TermOpened, CheckpointOpened, After;
    if x.Term? {
      match x.checkpoint
      case SkippedNotNegotiated =>
        var c, e := m.config, es[j];
        var overshoot: u64 := if e.Sample? && Measures(c, e.sample) then SatSub(e.sample.aggregateBytes.value, c.limitBytes)
                              else 0;
        assert LimitReached(c, e, overshoot);
      case _ =>
    }
  }

  /** A KILL at a tick waits for the grace of a TERM or forwarded signal sent before. */
  lemma KillWaitsForGrace(m: Machine, es: seq<Event>, j: nat) returns (i: nat)
    requires Unopened(m) && Ordered(es) && j < |es| && es[j].Tick? && SendKill in Out(m, es, j)
    ensures i < j && OpensTerm(Out(m, es, i)) && es[j].At() >= Min(es[i].At() + m.config.termGrace, DURATION_MAX)
  {
    hide Step, Out;
    SelectedIsTried(Out(m, es, j), SendKill);
    EverySideEffectIsCaused(m, es, j, Kill);
    var opening: nat, deadline: Duration :| opening < j && TermOpened(m, es, opening, deadline) && es[j].At() >= deadline;
    i := opening;
  }

  lemma {:induction false} SelectedIsTried(actions: seq<Action>, a: Action)
    requires a in actions && ActuationFor(a).Some?
    ensures ActuationFor(a).value in ActuationsOf(actions)
  {
    if actions[0] != a {
      SelectedIsTried(actions[1..], a);
    }
  }

  // ---- Under the engine ----

  lemma {:induction false} CallIsSelected(m: Machine, es: seq<Event>, k: nat, x: Actuation) returns (j: nat)
    requires k <= |es| && x in Calls(m, es, k)
    ensures j < k && x in ActuationsOf(Out(m, es, j))
  {
    hide Step, After, Out, ActuationsOf;
    if x in ActuationsOf(Out(m, es, k - 1)) {
      j := k - 1;
    } else {
      j := CallIsSelected(m, es, k - 1, x);
    }
  }

  /** Everything an engine run attempts, whatever the actuator replies, has its documented cause among the
      events and the failures fed back. */
  lemma EveryAttemptIsCaused<A>(exec: Actuator<A>, g: Engine<A>, es: seq<Event>, x: Actuation) returns (j: nat)
    requires Unopened(g.machine) && Ordered(es) && x in Tried(RunEngine(exec, g, es, |es|).trace)
    ensures var fed := RunEngine(exec, g, es, |es|).fed;
            j < |fed| && x in ActuationsOf(Out(g.machine, fed, j)) && Caused(g.machine, fed, j, x)
  {
    hide RunEngine, Out, Calls, Caused;
    var fed := RunEngine(exec, g, es, |es|).fed;
    EngineRunIsPolicyRun(exec, g, es, |es|);
    FeedbackKeepsOrder(exec, g, es, |es|);
    j := CallIsSelected(g.machine, fed, |fed|, x);
    EverySideEffectIsCaused(g.machine, fed, j, x);
  }
}
