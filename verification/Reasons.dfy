/** Why each signal was sent: the reason recorded with a side effect names the event that opened the
    shutdown, not the path the machine took to it. */
module Reasons {
  import opened Common
  import opened Policy
  import opened Actuations
  import opened PolicyRuns
  import opened Intervention
  import opened Cascades
  import opened ProcessActuator
  import opened Latches
  import opened Coherence
  import Report

  /** The reason an event gives the side effects it causes, told from the event and the labels already in
      force: a limit, a loss of observation, a request from outside, or the shutdown in flight. */
  function ReasonOfEvent(m: Machine, l: Latches, e: Event): Reason {
    if Phase(m) <= 1 && ClockRegressed(m, e.At()) then Some(Report.SignalReason.ObservationFailure)
    else match e
      case ExternalSignal(_, _) => Some(Report.SignalReason.ExternalSignal)
      case RootExited(_) => Some(Report.SignalReason.RootExitCleanup)
      case ParentExited(_) => Some(Report.SignalReason.ParentExit)
      case SupervisorFault(_) => Some(Report.SignalReason.SupervisorFault)
      case Sample(s) =>
        if !Usable(m.config, s) then Some(Report.SignalReason.ObservationFailure)
        else if Live(m) then Some(Report.SignalReason.Footprint) else l.cause
      case Tick(_) =>
        if Live(m) then Some(Report.SignalReason.WallTime)
        else if m.state.CheckpointRequested? then l.cause else l.shutdown
      case _ => l.cause
  }

  predicate AllAre(reasons: seq<Reason>, reason: Reason) {
    forall i :: 0 <= i < |reasons| ==> reasons[i] == reason
  }

  /** The first side effect of an event is recorded with the event's own reason. */
  lemma FirstReason(m: Machine, l: Latches, e: Event, d: Decision, x: Actuation, before: Latches)
    requires Inv(m) && Allowed(m, e) && d == Step(m, e)
    requires 0 < |d.actions| <= 3 && Selected(d.actions) == Some(x)
    requires Entering(m, l, e, d, before)
    requires Live(m) || m.state.CheckpointRequested? ==> l.shutdown.None?
    requires Live(m) <==> l.cause.None? && Phase(m) <= 1
    requires m.state.Terminating? || m.state.Emergency? || m.state.SupervisorError? ==> l.shutdown.Some?
    ensures ActuationReason(x, before.cause, before.shutdown) == ReasonOfEvent(m, l, e)
    ensures ReasonOfEvent(m, l, e).Some?
  {
    match e
    case Sample(s) =>
    case Tick(at) =>
    case ExternalSignal(at, signal) =>
    case _ =>
  }

  /** Later side effects of the same event inherit the reason of the one they answer. */
  lemma SignalsShareReason(l: Latches, negotiated: bool, attempts: seq<Attempt>, x: Actuation, reason: Reason)
    requires SignalAttempts(attempts, x) && (x.Term? || x.Forward?)
    requires ActuationReason(x, l.cause, l.shutdown) == reason && reason.Some?
    ensures AllAre(ReasonsOf(l, negotiated, attempts), reason)
  {
    if |attempts| == 2 {
      assert attempts[1..][1..] == [] && attempts[1..][0] == attempts[1];
      assert ReasonsOf(l, negotiated, attempts)
          == [reason] + ReasonsOf(NoteAttempt(l, negotiated, attempts[0]), negotiated, attempts[1..]);
    } else {
      assert attempts[1..] == [];
    }
  }

  lemma CheckpointSharesReason(l: Latches, negotiated: bool, attempts: seq<Attempt>, x: Actuation)
    requires x.Checkpoint? && CheckpointFailed(attempts, x) && l.cause.Some?
    ensures AllAre(ReasonsOf(l, negotiated, attempts), l.cause)
  {
    var l1 := NoteAttempt(l, negotiated, attempts[0]);
    SignalsShareReason(l1, negotiated, attempts[1..], Term(SkippedCheckpointFailure), l.cause);
    assert ReasonsOf(l, negotiated, attempts) == [l.cause] + ReasonsOf(l1, negotiated, attempts[1..]);
  }

  lemma NothingShares(l: Latches, negotiated: bool, reason: Reason)
    ensures AllAre(ReasonsOf(l, negotiated, []), reason)
  {
  }

  lemma EnteringIs(m: Machine, l: Latches, e: Event, d: Decision, before: Latches)
    requires before == if l.cause.None? && OpensIntervention(Transition(e.At(), m.state, d.machine.state))
                       then BeforeEvent(l, e, m.state).(cause := InterventionCauseFor(e)) else BeforeEvent(l, e, m.state)
    ensures Entering(m, l, e, d, before)
  {
  }

  lemma OneShares(l: Latches, negotiated: bool, a: Attempt)
    ensures AllAre(ReasonsOf(l, negotiated, [a]), ActuationReason(a.action, l.cause, l.shutdown))
  {
    assert [a][1..] == [];
  }

  /** What coherence says about the labels before an event. */
  lemma LabelsBefore(m: Machine, s: Supervised, l: Latches, e: Event)
    requires ReadyFor(m, s, l, e)
    ensures Live(m) || m.state.CheckpointRequested? ==> l.shutdown.None?
    ensures Live(m) <==> l.cause.None? && Phase(m) <= 1
    ensures m.state.Terminating? || m.state.Emergency? || m.state.SupervisorError? ==> l.shutdown.Some?
  {
  }

  lemma AttemptsShareReason(m: Machine, s: Supervised, negotiated: bool, e: Event, d: Decision, x: Actuation,
                            before: Latches, reason: Reason)
    requires StepFits(m, e, d, [x]) && reason.Some? && ActuationReason(x, before.cause, before.shutdown) == reason
    ensures var c := Cascade(Execute, d.machine, s, e.At(), x);
            AllAre(ReasonsOf(before, negotiated, Attempts(c.trace)), reason)
  {
    hide Execute, NoteAttempt, ReasonsOf, Cascade, AllAre, Inv;
    var c := Cascade(Execute, d.machine, s, e.At(), x);
    match x
    case Checkpoint(_, _, _) =>
      CascadeOfCheckpoint(s, d.machine, e.At(), x);
      if Execute(s, e.At(), x).1.Ok? {
        OneShares(before, negotiated, Attempt(e.At(), x, Execute(s, e.At(), x).1));
      } else {
        CheckpointSharesReason(before, negotiated, Attempts(c.trace), x);
      }
    case Kill =>
      CascadeOfKill(s, d.machine, e.At());
      OneShares(before, negotiated, Attempt(e.At(), Kill, Execute(s, e.At(), Kill).1));
    case _ =>
      CascadeOfSignal(s, d.machine, e.At(), x);
      SignalsShareReason(before, negotiated, Attempts(c.trace), x, reason);
  }

  /** In a coherent run, whatever the system replies, all side effects of one event are recorded with one
      and the same reason, and it is the event's: the limit it breached, the observation it lost, what the
      world asked for, or the shutdown it escalates. */
  lemma EventHasOneReason(m: Machine, s: Supervised, l: Latches, negotiated: bool, e: Event)
    requires ReadyFor(m, s, l, e)
    ensures |ActuationsOf(Step(m, e).actions)| <= 1
    ensures var d := Step(m, e);
            var trace := Move(e.At(), m.state, d.machine.state)
                         + Cascades.Pending(Execute, d.machine, s, e.At(), ActuationsOf(d.actions)).trace;
            AllAre(EventReasons(l, negotiated, e, m.state, trace), ReasonOfEvent(m, l, e))
  {
    hide Step, Inv, Execute, StepFits, ReadyFor, ReasonsOf, Decided, BeforeEvent, AllAre, Cascade, ReasonOfEvent,
         Entering,
         Escalates;
    ReadyIsInv(m, s, l, e);
    LabelsBefore(m, s, l, e);
    var d := Step(m, e);
    var tried := ActuationsOf(d.actions);
    StepFitsAll(m, e);
    StepSelects(m, e);
    StepEscalates(m, e);
    ActuationsOfShort(d.actions);
    var c := Cascades.Pending(Execute, d.machine, s, e.At(), tried);
    var trace := Move(e.At(), m.state, d.machine.state) + c.trace;
    CauseAfter(l, s, m, e, d, tried);
    MoveTriesNothing(e.At(), m.state, d.machine.state);
    TraceConcat(Move(e.At(), m.state, d.machine.state), c.trace);
    assert [] + Attempts(c.trace) == Attempts(c.trace);
    var before := Decided(l, e, m.state, trace);
    if tried == [] {
      NothingShares(before, negotiated, ReasonOfEvent(m, l, e));
    } else {
      assert tried == [tried[0]];
      assert Entering(m, l, e, d, before) by {
        EnteringIs(m, l, e, d, before);
      }
      FirstReason(m, l, e, d, tried[0], before);
      AttemptsShareReason(m, s, negotiated, e, d, tried[0], before, ReasonOfEvent(m, l, e));
    }
  }

  // ---- What the labels become ----

  /** Something other than a checkpoint was tried. */
  predicate TriedSignal(attempts: seq<Attempt>) {
    exists i :: 0 <= i < |attempts| && !attempts[i].action.Checkpoint?
  }

  /** Recording attempts that share a reason leaves that reason as the shutdown's, if any of them was a signal. */
  lemma {:induction false} LabelIsTheReason(l: Latches, negotiated: bool, attempts: seq<Attempt>, reason: Reason)
    requires AllAre(ReasonsOf(l, negotiated, attempts), reason)
    ensures NoteAttempts(l, negotiated, attempts).shutdown == if TriedSignal(attempts) then reason else l.shutdown
    ensures NoteAttempts(l, negotiated, attempts).cause == l.cause
    decreases attempts
  {
    if attempts != [] {
      var next, rest := NoteAttempt(l, negotiated, attempts[0]), attempts[1..];
      var reasons := ReasonsOf(l, negotiated, attempts);
      assert reasons[0] == ActuationReason(attempts[0].action, l.cause, l.shutdown);
      assert forall i :: 0 <= i < |rest| ==> ReasonsOf(next, negotiated, rest)[i] == reasons[i + 1];
      LabelIsTheReason(next, negotiated, rest, reason);
      assert TriedSignal(attempts) <==> !attempts[0].action.Checkpoint? || TriedSignal(rest) by {
        assert forall i :: 0 < i < |attempts| ==> attempts[i] == rest[i - 1];
      }
    }
  }

  /** The cause a move out of normal supervision latches: the kind of limit, if it was one. */
  function LimitOf(e: Event): Reason {
    if e.Sample? then Some(Report.SignalReason.Footprint)
    else if e.Tick? then Some(Report.SignalReason.WallTime)
    else None
  }

  /** The labels after an event: the shutdown's reason is that of the signals the event sent, or the signal
      received when it could send none, and nothing else relabels a shutdown; the cause is latched once, by the
      event that ended normal supervision. */
  predicate LabelsMove(m: Machine, l: Latches, e: Event, left: bool, attempts: seq<Attempt>, n: Latches) {
    && n.shutdown == (if TriedSignal(attempts) then ReasonOfEvent(m, l, e)
                      else if e.ExternalSignal? then Some(Report.SignalReason.ExternalSignal) else l.shutdown)
    && n.cause == (if left && l.cause.None? then LimitOf(e) else l.cause)
  }

  lemma EventMovesLabels(m: Machine, s: Supervised, l: Latches, negotiated: bool, e: Event)
    requires ReadyFor(m, s, l, e)
    ensures |ActuationsOf(Step(m, e).actions)| <= 1
    ensures var d := Step(m, e);
            var trace := Move(e.At(), m.state, d.machine.state)
                         + Cascades.Pending(Execute, d.machine, s, e.At(), ActuationsOf(d.actions)).trace;
            LabelsMove(m, l, e, OpensIntervention(Transition(e.At(), m.state, d.machine.state)), Attempts(trace),
                       AfterEvent(l, negotiated, e, m.state, trace))
  {
    hide Step, Inv, Execute, StepFits, ReadyFor, ReasonsOf, NoteAttempts, Decided, AllAre, Cascade, ReasonOfEvent,
         TriedSignal,
         BeforeEvent, Attempts;
    EventHasOneReason(m, s, l, negotiated, e);
    ReadyIsInv(m, s, l, e);
    StepFitsAll(m, e);
    var d := Step(m, e);
    var tried := ActuationsOf(d.actions);
    var c := Cascades.Pending(Execute, d.machine, s, e.At(), tried);
    var trace := Move(e.At(), m.state, d.machine.state) + c.trace;
    CauseAfter(l, s, m, e, d, tried);
    LabelIsTheReason(Decided(l, e, m.state, trace), negotiated, Attempts(trace), ReasonOfEvent(m, l, e));
    LabelledBefore(m, s, l, e, d, tried);
    CauseUnlabelled(l, e, m.state);
    MoveTriesNothing(e.At(), m.state, d.machine.state);
    TraceConcat(Move(e.At(), m.state, d.machine.state), c.trace);
    assert [] + Attempts(c.trace) == Attempts(c.trace);
    PendingTriesSignal(s, d, e.At(), tried);
  }

  /** A side effect that is selected is tried. */
  lemma PendingTriesSignal(s: Supervised, d: Decision, at: Duration, tried: seq<Actuation>)
    requires |tried| <= 1
    ensures tried != [] && !tried[0].Checkpoint? ==>
              TriedSignal(Attempts(Cascades.Pending(Execute, d.machine, s, at, tried).trace))
    ensures tried == [] ==> !TriedSignal(Attempts(Cascades.Pending(Execute, d.machine, s, at, tried).trace))
  {
    hide Execute, Step;
    if tried != [] {
      var x := tried[0];
      var reply := Execute(s, at, x).1;
      var c := Cascade(Execute, d.machine, s, at, x);
      var d1 := if reply.Err? then Answered(d.machine, at, x, reply.error) else d;
      var rest := if reply.Err? && ActuationsOf(d1.actions) != []
                  then Cascade(Execute, d1.machine, Execute(s, at, x).0, at, ActuationsOf(d1.actions)[0]).trace else [];
      OneAttempt(at, Attempt(at, x, reply), d.machine.state, d1.machine.state, rest);
      hide Attempts;
      assert Attempts(c.trace)[0] == Attempt(at, x, reply);
    }
  }

  /** The label an event gives before it is decided matters only when it is a received signal or the event goes on
      to send one. */
  lemma LabelledBefore(m: Machine, s: Supervised, l: Latches, e: Event, d: Decision, tried: seq<Actuation>)
    requires ReadyFor(m, s, l, e) && StepFits(m, e, d, tried) && d == Step(m, e) && tried == ActuationsOf(d.actions)
    ensures tried == [] || tried[0].Checkpoint? ==>
              BeforeEvent(l, e, m.state).shutdown
              == if e.ExternalSignal? then Some(Report.SignalReason.ExternalSignal) else l.shutdown
  {
    OnlyExitsExit(m, e);
    hide Step;
  }

  lemma OnlyExitsExit(m: Machine, e: Event)
    ensures Step(m, e).machine.state.Exited? ==> m.state.Exited? || e.ProcessExited?
  {
  }
}
