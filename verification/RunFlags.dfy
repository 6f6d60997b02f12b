/** The two flags the run's outcome is decided by: whether the run intervened, and the first reason
    supervision itself failed. */
module RunFlags {
  import opened Common
  import opened Policy
  import opened PolicyRuns
  import opened Intervention
  import opened Cascades
  import opened ProcessActuator
  import opened Latches
  import opened Coherence
  import opened Runtime
  import opened SignalRecords
  import opened RuntimeRuns
  import InterventionRuns
  import EngineEvidence

  /** An input that only asks the run to pass something on: a signal received, or the root's exit. */
  predicate PassesOn<X>(i: Input<X>) {
    i.Happened? && (i.event.ExternalSignal? || i.event.RootExited?)
  }

  /** One of the moves ended in a supervisor error. */
  predicate Fails(moves: seq<Seen>) {
    exists j :: 0 <= j < |moves| && moves[j].move.to.SupervisorError?
  }

  /** What the operator is told about a supervisor error, by the event that brought it. */
  predicate DiagnosticTells(d: Diagnostic, e: Event) {
    match d
    case FootprintObservationFailed => e.Sample?
    case SignalDeliveryFailed => e.ActuationFailed?
    case SupervisorFaulted => e.SupervisorFault?
    case SupervisionFailedClosed => !e.Sample? && !e.ActuationFailed? && !e.SupervisorFault?
  }

  /** How one input moves the flags. */
  ghost predicate FlagsMove<X>(before: Control<X>, i: Input<X>, after: Control<X>, does: Doings) {
    && (after.interventionStarted <==> before.interventionStarted || (does.made != [] && !PassesOn(i)))
    && (if before.supervisorError.Some? || !Fails(does.moves) then after.supervisorError == before.supervisorError
        else after.supervisorError.Some? && does.fed != [] && DiagnosticTells(after.supervisorError.value, does.fed[0]))
  }

  lemma {:induction false} ErrorNoted(current: Option<Diagnostic>, d: Diagnostic, trace: seq<Effect>, total: Option<u64>)
    ensures NoteError(current, d, trace)
         == if current.Some? then current else if Fails(MovesOf(trace, total)) then Some(d) else None
    decreases trace
  {
    if trace != [] {
      var next := if current.None? && trace[0].Moved? && trace[0].transition.to.SupervisorError? then Some(d) else current;
      ErrorNoted(next, d, trace[1..], total);
      var head := if trace[0].Moved? then [Seen(trace[0].transition, total)] else [];
      FailsSomewhere(head, MovesOf(trace[1..], total));
    }
  }

  lemma FailsSomewhere(a: seq<Seen>, b: seq<Seen>)
    ensures Fails(a + b) <==> Fails(a) || Fails(b)
    ensures |a| == 1 ==> (Fails(a) <==> a[0].move.to.SupervisorError?)
    ensures a == [] ==> !Fails(a)
  {
    var all := a + b;
    if Fails(b) {
      var j :| 0 <= j < |b| && b[j].move.to.SupervisorError?;
      assert all[|a| + j] == b[j];
    }
    if Fails(a) {
      var j :| 0 <= j < |a| && a[j].move.to.SupervisorError?;
      assert all[j] == a[j];
    }
  }

  lemma ApplyMovesFlags<X>(c: Control<X>, e: Event, all: seq<Attempt>, total: Option<u64>)
    requires Applicable(c, e, all) && |all| + 3 <= U64_MAX
    ensures var h := HandleEvent(Execute, c.engine, e);
            var n := ApplyStep(c, e);
            && (n.interventionStarted <==> c.interventionStarted
                                           || (Attempts(h.trace) != [] && !e.ExternalSignal? && !e.RootExited?))
            && (if c.supervisorError.Some? || !Fails(MovesOf(h.trace, total)) then n.supervisorError == c.supervisorError
                else n.supervisorError.Some? && DiagnosticTells(n.supervisorError.value, e))
            && h.fed != [] && h.fed[0] == e
  {
    hide HandleEvent, Step, Execute, ReadyFor, EngineEvidence.EvidenceFits, Inv, EngineEvidence.NewRecords, AttemptsOf,
         NoteError, Fails;
    var h := HandleEvent(Execute, c.engine, e);
    ReadyIsInv(c.engine.machine, c.engine.actuator, c.latches, e);
    EngineEvidence.SliceIsTheEvent(Execute, c.engine, e, all);
    SameAttempts(EngineEvidence.NewRecords(h.engine.evidence, c.engine.evidence.totalAttempts), Attempts(h.trace));
    ErrorNoted(c.supervisorError, SupervisorErrorDiagnostic(e), h.trace, total);
    InterventionRuns.HandleIsPolicyRun(Execute, c.engine, e);
  }

  lemma StepMovesFlags<X>(rt: Runtime<X>, i: Input<X>, all: seq<Attempt>)
    requires rt.sampler.config.historyCapacity > 0 && Permitted(i) && Coherently(rt.control, all) && |all| + 3 <= U64_MAX
    ensures FlagsMove(rt.control, i, RunStep(rt, i).control, StepDoes(rt, i))
  {
    hide ApplyStep, HandleEvent, PollStep, Coherently, Applicable, RetainStep, SampleInput, PollOf, Negotiate, Fails,
         DiagnosticTells;
    var c := rt.control;
    NothingFails();
    match i
    case Happened(e) =>
      LoopEventsAreReady(c, e, all);
      ApplyMovesFlags(c, e, all, LatestTotal(rt));
    case Took(t) =>
      RetainKeeps(rt, t, all);
      RetainFlags(rt, t);
      ApplyMovesFlags(RetainStep(rt, t).control, SampleInput(rt, t), all, LatestTotal(RetainStep(rt, t)));
    case Polled(at, handshake, read) =>
      var n := Negotiate(c, handshake);
      PollStepIs(c, at, handshake, read);
      NegotiationKeeps(c, handshake, all);
      NegotiateFlags(c, handshake);
      if n.negotiation.Ready? && n.engine.machine.state.CheckpointRequested? {
        PollIsReady(n, at, read, all);
        PollFlags(n, at, read);
        var (p, event) := PollOf(n, at, read);
        if event.Some? {
          ApplyMovesFlags(p, event.value, all, LatestTotal(rt));
        }
      }
  }

  lemma NothingFails()
    ensures !Fails([])
  {
  }

  lemma RetainFlags<X>(rt: Runtime<X>, t: Taken<X>)
    requires rt.sampler.config.historyCapacity > 0
    ensures RetainStep(rt, t).control.interventionStarted == rt.control.interventionStarted
    ensures RetainStep(rt, t).control.supervisorError == rt.control.supervisorError
  {
    hide RecordedSample, WindowOf;
  }

  lemma NegotiateFlags<X>(c: Control<X>, handshake: ReadOutcome)
    ensures Negotiate(c, handshake).interventionStarted == c.interventionStarted
    ensures Negotiate(c, handshake).supervisorError == c.supervisorError
  {
    hide PollReady;
  }

  lemma PollFlags<X>(c: Control<X>, at: Duration, read: ReadOutcome)
    ensures PollOf(c, at, read).0.interventionStarted == c.interventionStarted
    ensures PollOf(c, at, read).0.supervisorError == c.supervisorError
    ensures PollOf(c, at, read).1.Some? ==> !PollOf(c, at, read).1.value.ExternalSignal? && !PollOf(c, at, read).1.value.RootExited?
  {
    hide PollChannel;
  }

  // ---- A whole run ----

  /** Input `i` made the run try something of its own. */
  ghost predicate IntervenesAt<X>(start: Runtime<X>, inputs: seq<Input<X>>, i: nat)
    requires start.sampler.config.historyCapacity > 0
  {
    i < |inputs| && StepDoes(RunAfter(start, inputs, i), inputs[i]).made != [] && !PassesOn(inputs[i])
  }

  ghost predicate FailsAt<X>(start: Runtime<X>, inputs: seq<Input<X>>, i: nat)
    requires start.sampler.config.historyCapacity > 0
  {
    i < |inputs| && Fails(StepDoes(RunAfter(start, inputs, i), inputs[i]).moves)
  }

  /** Input `i` is the first that ended in a supervisor error, and `d` says which event it was. */
  ghost predicate FirstFailure<X>(start: Runtime<X>, inputs: seq<Input<X>>, i: nat, d: Diagnostic)
    requires start.sampler.config.historyCapacity > 0
  {
    && FailsAt(start, inputs, i) && (forall j: nat :: j < i ==> !FailsAt(start, inputs, j))
    && var fed := StepDoes(RunAfter(start, inputs, i), inputs[i]).fed;
       fed != [] && DiagnosticTells(d, fed[0])
  }

  ghost predicate FlagsFit<X>(start: Runtime<X>, inputs: seq<Input<X>>, k: nat)
    requires start.sampler.config.historyCapacity > 0 && k <= |inputs|
  {
    var c := RunAfter(start, inputs, k).control;
    && (c.interventionStarted <==> exists i: nat :: i < k && IntervenesAt(start, inputs, i))
    && match c.supervisorError
       case None => forall i: nat :: i < k ==> !FailsAt(start, inputs, i)
       case Some(d) => exists i: nat :: i < k && FirstFailure(start, inputs, i, d)
  }

  lemma FlagsNext<X>(start: Runtime<X>, inputs: seq<Input<X>>, k: nat)
    requires start.sampler.config.historyCapacity > 0 && k < |inputs| && FlagsFit(start, inputs, k)
    requires FlagsMove(RunAfter(start, inputs, k).control, inputs[k], RunAfter(start, inputs, k + 1).control,
                       StepDoes(RunAfter(start, inputs, k), inputs[k]))
    ensures FlagsFit(start, inputs, k + 1)
  {
    hide RunAfter, StepDoes, PassesOn, Fails, DiagnosticTells;
    var c, n := RunAfter(start, inputs, k).control, RunAfter(start, inputs, k + 1).control;
    assert IntervenesAt(start, inputs, k) <==> StepDoes(RunAfter(start, inputs, k), inputs[k]).made != [] && !PassesOn(inputs[k]);
    assert FailsAt(start, inputs, k) <==> Fails(StepDoes(RunAfter(start, inputs, k), inputs[k]).moves);
    if c.interventionStarted {
      var i: nat :| i < k && IntervenesAt(start, inputs, i);
      assert i < k + 1;
    }
    match c.supervisorError
    case Some(d) =>
      var i: nat :| i < k && FirstFailure(start, inputs, i, d);
      assert i < k + 1;
    case None =>
      if n.supervisorError.Some? {
        assert FirstFailure(start, inputs, k, n.supervisorError.value);
      }
  }

  /** The run counts as having intervened exactly when some input other than a received signal or the root's
      exit made it try a side effect; and its diagnostic is that of the first event that ended in a
      supervisor error, absent exactly when none did. */
  lemma {:induction false} RunFlagsTell<X>(start: Runtime<X>, inputs: seq<Input<X>>, k: nat)
    requires Fresh(start) && start.sampler.config.historyCapacity > 0
    requires !start.control.interventionStarted && start.control.supervisorError.None?
    requires k <= |inputs| && (forall i :: 0 <= i < |inputs| ==> Permitted(inputs[i]))
    requires 3 * |inputs| + 3 <= U64_MAX
    ensures FlagsFit(start, inputs, k)
  {
    hide RunStep, StepDoes, Coherently, Accounted, Fresh, FlagsMove, IntervenesAt, FailsAt, FirstFailure;
    if k > 0 {
      RunFlagsTell(start, inputs, k - 1);
      RunIsAccounted(start, inputs, k - 1);
      StepMovesFlags(RunAfter(start, inputs, k - 1), inputs[k - 1], RunDoes(start, inputs, k - 1).made);
      FlagsNext(start, inputs, k - 1);
    }
  }
}
