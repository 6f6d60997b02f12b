/** What one handled event leaves behind: the path of observed transitions, the answer to a failed
    signal, and the bounded list of attempts. */
module EngineEvidence {
  import opened Common
  import opened Policy
  import opened Actuations
  import opened PolicyRuns
  import opened Intervention
  import opened InterventionRuns
  import opened Cascades

  // ---- Transitions are observed before what they select ----

  /** The state a side effect belongs to. */
  predicate BelongsTo(a: Actuation, s: PolicyState) {
    match a
    case Checkpoint(_, _, _) => s.CheckpointRequested?
    case Term(_) => s.Terminating? || s.SupervisorError?
    case Forward(_) => s.Terminating?
    case Kill => s.Emergency?
  }

  /** The trace's transitions lead from one state to the other without a gap, and every side effect
      is executed in the state the transitions before it have already reported. */
  predicate PathFits(from: PolicyState, trace: seq<Effect>, to: PolicyState)
    decreases trace
  {
    if trace == [] then from == to
    else match trace[0]
      case Moved(t) => t.from == from && t.to != from && PathFits(t.to, trace[1..], to)
      case Executed(attempt) => BelongsTo(attempt.action, from) && PathFits(from, trace[1..], to)
  }

  lemma {:induction false} PathConcat(from: PolicyState, a: seq<Effect>, mid: PolicyState, b: seq<Effect>, to: PolicyState)
    requires PathFits(from, a, mid) && PathFits(mid, b, to)
    ensures PathFits(from, a + b, to)
    decreases a
  {
    if a == [] {
      assert a + b == b;
    } else {
      assert (a + b)[1..] == a[1..] + b;
      PathConcat(if a[0].Moved? then a[0].transition.to else from, a[1..], mid, b, to);
    }
  }

  lemma MoveIsPath(at: Duration, from: PolicyState, to: PolicyState)
    ensures PathFits(from, Move(at, from, to), to)
  {
  }

  lemma SelectedBelongs(m: Machine, e: Event)
    requires Inv(m)
    ensures var d := Step(m, e);
            0 < |d.actions| <= 3 && Selected(d.actions).Some? ==> BelongsTo(Selected(d.actions).value, d.machine.state)
  {
  }

  lemma StepBelongs(m: Machine, e: Event)
    requires Inv(m)
    ensures var d := Step(m, e);
            |ActuationsOf(d.actions)| <= 1
            && (ActuationsOf(d.actions) != [] ==> BelongsTo(ActuationsOf(d.actions)[0], d.machine.state))
  {
    hide Step, BelongsTo, Inv;
    StepSelects(m, e);
    SelectedBelongs(m, e);
    ActuationsOfShort(Step(m, e).actions);
  }

  lemma {:induction false} CascadePath<A>(exec: Actuator<A>, m: Machine, a: A, at: Duration, x: Actuation)
    requires Inv(m) && BelongsTo(x, m.state)
    ensures var c := Cascade(exec, m, a, at, x);
            PathFits(m.state, c.trace, c.machine.state)
    decreases Unstarted(m), Rank(x)
  {
    hide Step, Inv, BelongsTo;
    var (actuator, reply) := exec(a, at, x);
    var done := [Executed(Attempt(at, x, reply))];
    assert PathFits(m.state, done, m.state);
    if reply.Err? {
      var e := ActuationFailed(at, x.Kind(), reply.error);
      var d := Answered(m, at, x, reply.error);
      var move, tried := Move(at, m.state, d.machine.state), ActuationsOf(d.actions);
      StepKeepsInv(m, e);
      StepBelongs(m, e);
      FailureLowersRank(m, at, x, reply.error);
      AnswerIsOne(m, at, x, reply.error);
      MoveIsPath(at, m.state, d.machine.state);
      PathConcat(m.state, done, m.state, move, d.machine.state);
      if tried != [] {
        var next := Cascade(exec, d.machine, actuator, at, tried[0]);
        CascadePath(exec, d.machine, actuator, at, tried[0]);
        PathConcat(m.state, done + move, d.machine.state, next.trace, next.machine.state);
      }
    }
  }

  /** The observed transitions of one event form a contiguous path from the old state to the new one,
      and no side effect is executed before the transition into its state has been observed. */
  lemma TransitionsComeFirst<A>(exec: Actuator<A>, g: Engine<A>, e: Event)
    requires Inv(g.machine)
    ensures var h := HandleEvent(exec, g, e);
            PathFits(g.machine.state, h.trace, h.engine.machine.state)
  {
    hide Step, Inv, HandleEvent, Cascade, BelongsTo;
    var d := Step(g.machine, e);
    var tried := ActuationsOf(d.actions);
    StepKeepsInv(g.machine, e);
    StepBelongs(g.machine, e);
    HandleIsCascade(exec, g, e);
    var c := Pending(exec, d.machine, g.actuator, e.At(), tried);
    if tried != [] {
      CascadePath(exec, d.machine, g.actuator, e.At(), tried[0]);
    }
    MoveIsPath(e.At(), g.machine.state, d.machine.state);
    PathConcat(g.machine.state, Move(e.At(), g.machine.state, d.machine.state), d.machine.state,
               c.trace, c.machine.state);
  }

  // ---- A failed TERM or forwarded signal ----

  predicate GroupSignal(a: Actuation) {
    a.Term? || a.Forward?
  }

  /** Within one event, an attempt is followed by another exactly when it failed and was a
      checkpoint request, or a TERM or forwarded signal of an event whose time did not regress. */
  predicate AnsweredExactly(attempts: seq<Attempt>, regressed: bool) {
    forall k :: 0 <= k < |attempts| ==>
      (k + 1 < |attempts| <==>
         attempts[k].reply.Err? && (attempts[k].action.Checkpoint? || (GroupSignal(attempts[k].action) && !regressed)))
  }

  /** A machine that has just selected `x` at time `at`. */
  predicate HasSelected(m: Machine, at: Duration, x: Actuation) {
    && !m.state.Exited?
    && (if x.Checkpoint? then m.state.CheckpointRequested? && !ClockRegressed(m, at) else m.interventionStarted)
  }

  lemma FailureAnswer(m: Machine, at: Duration, x: Actuation, f: ActuationFailure)
    requires HasSelected(m, at, x)
    ensures var d := Answered(m, at, x, f);
            var tried := ActuationsOf(d.actions);
            && |tried| == (if x.Checkpoint? || (GroupSignal(x) && !ClockRegressed(m, at)) then 1 else 0)
            && (tried != [] ==> HasSelected(d.machine, at, tried[0]))
            && (ClockRegressed(d.machine, at) <==> ClockRegressed(m, at))
  {
    ActuationsOfShort(Answered(m, at, x, f).actions);
  }

  lemma AnsweredNext(attempt: Attempt, rest: seq<Attempt>, regressed: bool)
    requires AnsweredExactly(rest, regressed)
    requires rest != [] <==>
               attempt.reply.Err? && (attempt.action.Checkpoint? || (GroupSignal(attempt.action) && !regressed))
    ensures AnsweredExactly([attempt] + rest, regressed)
  {
    assert forall k :: 0 < k <= |rest| ==> ([attempt] + rest)[k] == rest[k - 1];
  }

  lemma LastAttempt(attempt: Attempt, regressed: bool)
    requires !(attempt.reply.Err? && (attempt.action.Checkpoint? || (GroupSignal(attempt.action) && !regressed)))
    ensures AnsweredExactly([attempt], regressed)
  {
  }

  lemma {:induction false} CascadeAnswers<A>(exec: Actuator<A>, m: Machine, a: A, at: Duration, x: Actuation)
    requires HasSelected(m, at, x)
    ensures var attempts := Attempts(Cascade(exec, m, a, at, x).trace);
            && attempts != [] && attempts[0] == Attempt(at, x, exec(a, at, x).1)
            && AnsweredExactly(attempts, ClockRegressed(m, at))
    decreases Unstarted(m), Rank(x)
  {
    hide Step, HasSelected, AnsweredExactly, ClockRegressed;
    var (actuator, reply) := exec(a, at, x);
    var attempt, regressed := Attempt(at, x, reply), ClockRegressed(m, at);
    assert Attempts([Executed(attempt)]) == [attempt];
    if reply.Ok? {
      LastAttempt(attempt, regressed);
    } else {
      var d := Answered(m, at, x, reply.error);
      var tried := ActuationsOf(d.actions);
      FailureAnswer(m, at, x, reply.error);
      FailureLowersRank(m, at, x, reply.error);
      AnswerIsOne(m, at, x, reply.error);
      MoveTriesNothing(at, m.state, d.machine.state);
      TraceConcat([Executed(attempt)], Move(at, m.state, d.machine.state));
      if tried == [] {
        LastAttempt(attempt, regressed);
      } else {
        var next := Cascade(exec, d.machine, actuator, at, tried[0]);
        CascadeAnswers(exec, d.machine, actuator, at, tried[0]);
        TraceConcat([Executed(attempt)] + Move(at, m.state, d.machine.state), next.trace);
        AnsweredNext(attempt, Attempts(next.trace), regressed);
      }
    }
  }

  /** A failed TERM or forwarded signal is answered by a KILL in the same event if and only if that
      event's time did not regress, the TERM that answered a failed checkpoint included. After a
      regression the failure is dropped. */
  lemma FailedSignalIsAnswered<A>(exec: Actuator<A>, g: Engine<A>, e: Event)
    requires Inv(g.machine)
    ensures var attempts := Attempts(HandleEvent(exec, g, e).trace);
            var regressed := ClockRegressed(g.machine, e.At());
            && AnsweredExactly(attempts, regressed)
            && forall k :: 0 <= k < |attempts| && GroupSignal(attempts[k].action) && attempts[k].reply.Err? ==>
                 (k + 1 < |attempts| && attempts[k + 1].action.Kill? <==> !regressed)
  {
    hide Step, Inv, HandleEvent, Cascade, ClockRegressed, HasSelected;
    var d := Step(g.machine, e);
    var tried := ActuationsOf(d.actions);
    StepEscalates(g.machine, e);
    HandleIsCascade(exec, g, e);
    FeedbackIsBounded(exec, g, e);
    var c := Pending(exec, d.machine, g.actuator, e.At(), tried);
    MoveTriesNothing(e.At(), g.machine.state, d.machine.state);
    TraceConcat(Move(e.At(), g.machine.state, d.machine.state), c.trace);
    if tried != [] {
      SelectedIsReady(g.machine, e);
      CascadeAnswers(exec, d.machine, g.actuator, e.At(), tried[0]);
    }
  }

  lemma SelectionIsReady(m: Machine, e: Event)
    requires Inv(m)
    ensures var d := Step(m, e);
            0 < |d.actions| <= 3 && Selected(d.actions).Some? ==>
              HasSelected(d.machine, e.At(), Selected(d.actions).value)
              && (ClockRegressed(d.machine, e.At()) <==> ClockRegressed(m, e.At()))
  {
  }

  lemma SelectedIsReady(m: Machine, e: Event)
    requires Inv(m)
    ensures var d := Step(m, e);
            var tried := ActuationsOf(d.actions);
            tried != [] ==> HasSelected(d.machine, e.At(), tried[0])
                            && (ClockRegressed(d.machine, e.At()) <==> ClockRegressed(m, e.At()))
  {
    hide Step, HasSelected, ClockRegressed, Inv;
    StepSelects(m, e);
    SelectionIsReady(m, e);
    ActuationsOfShort(Step(m, e).actions);
  }

  /** An actuator that can never deliver anything. */
  function Refuse(a: (), at: Duration, x: Actuation): ((), Reply) {
    ((), Err(SignalFailed))
  }

  lemma RegressedTick(config: PolicyConfig)
    requires ValidConfig(config) && config.wallTime.None?
    ensures var m := Step(Enforcing(config, 1), Tick(5)).machine;
            var d := Step(m, Tick(3));
            && Inv(m) && d.actions == [RecordMissing, SendTerm(SkippedObservationFailure)]
            && d.machine.interventionStarted && !d.machine.state.Exited? && ClockRegressed(d.machine, 3)
  {
  }

  /** The dropped failure, on a concrete run: a tick at 3 after a tick at 5 sends TERM, the actuator
      refuses it, and no KILL follows. */
  lemma FailedTermAfterRegression(g: Engine<()>, config: PolicyConfig)
    requires ValidConfig(config) && config.wallTime.None?
    requires g.machine == Step(Enforcing(config, 1), Tick(5)).machine
    ensures var h := HandleEvent(Refuse, g, Tick(3));
            |Attempts(h.trace)| == 1
            && Attempts(h.trace)[0].action == Term(SkippedObservationFailure)
            && Attempts(h.trace)[0].reply.Err?
  {
    hide Step, Inv, HandleEvent, Cascade, ClockRegressed;
    var d := Step(g.machine, Tick(3));
    var x := Term(SkippedObservationFailure);
    RegressedTick(config);
    ActuationsOfShort(d.actions);
    HandleIsCascade(Refuse, g, Tick(3));
    CascadeAnswers(Refuse, d.machine, g.actuator, 3, x);
    MoveTriesNothing(3, g.machine.state, d.machine.state);
    TraceConcat(Move(3, g.machine.state, d.machine.state), Cascade(Refuse, d.machine, g.actuator, 3, x).trace);
  }

  // ---- Nothing is lost from the evidence ----

  /** The evidence holds the last 64 attempts and counts all of them. */
  predicate EvidenceFits(ev: Evidence, all: seq<Attempt>) {
    && |ev.records| == Min(|all|, MAX_INTERVENTION_RECORDS)
    && (forall i :: 0 <= i < |ev.records| ==> ev.records[i].attempt == all[|all| - |ev.records| + i])
    && ev.totalAttempts == Min(|all|, U64_MAX)
    && ev.droppedRecords == Min(|all| - |ev.records|, U64_MAX)
  }

  lemma AttemptFits(ev: Evidence, all: seq<Attempt>, attempt: Attempt, baseline: Option<u64>)
    requires EvidenceFits(ev, all)
    ensures EvidenceFits(WithAttempt(ev, attempt, baseline), all + [attempt])
  {
  }

  /** Performing an action records exactly the attempt it made. */
  lemma PerformRecords<A>(exec: Actuator<A>, g: Engine<A>, at: Duration, action: Action)
    ensures var p := Perform(exec, g, at, action);
            match ActuationFor(action)
            case None => Attempts(p.effects) == [] && p.engine.evidence == Noted(g.evidence, action)
            case Some(x) =>
              var attempt := Attempt(at, x, exec(g.actuator, at, x).1);
              Attempts(p.effects) == [attempt]
              && p.engine.evidence == WithAttempt(Noted(g.evidence, action), attempt, g.lastObserved)
  {
    hide Step;
    match ActuationFor(action)
    case None =>
    case Some(x) =>
      var reply := exec(g.actuator, at, x).1;
      if reply.Err? {
        var next := Step(g.machine, ActuationFailed(at, x.Kind(), reply.error)).machine.state;
        MoveTriesNothing(at, g.machine.state, next);
        TraceConcat([Executed(Attempt(at, x, reply))], Move(at, g.machine.state, next));
      }
  }

  lemma PerformFits<A>(exec: Actuator<A>, g: Engine<A>, at: Duration, action: Action, all: seq<Attempt>)
    requires EvidenceFits(g.evidence, all)
    ensures var p := Perform(exec, g, at, action);
            EvidenceFits(p.engine.evidence, all + Attempts(p.effects))
  {
    hide Step, Perform, Attempts;
    PerformRecords(exec, g, at, action);
    match ActuationFor(action)
    case None =>
      assert all + [] == all;
    case Some(x) =>
      AttemptFits(Noted(g.evidence, action), all, Attempt(at, x, exec(g.actuator, at, x).1), g.lastObserved);
  }

  lemma {:induction false} DrainFits<A>(exec: Actuator<A>, g: Engine<A>, at: Duration, pending: seq<Action>, all: seq<Attempt>)
    requires EvidenceFits(g.evidence, all)
    ensures var r := Drain(exec, g, at, pending);
            EvidenceFits(r.engine.evidence, all + Attempts(r.trace))
    decreases Unstarted(g.machine), Weight(pending), |pending|
  {
    hide Step, Perform, EvidenceFits;
    if pending == [] {
      assert all + Attempts([]) == all;
    } else {
      var p := Perform(exec, g, at, pending[0]);
      var rest := pending[1..] + p.more;
      PerformDecreases(exec, g, at, pending);
      PerformFits(exec, g, at, pending[0], all);
      DrainFits(exec, p.engine, at, rest, all + Attempts(p.effects));
      var r := Drain(exec, p.engine, at, rest);
      TraceConcat(p.effects, r.trace);
      assert all + Attempts(p.effects) + Attempts(r.trace) == all + (Attempts(p.effects) + Attempts(r.trace));
    }
  }

  lemma HandleFits<A>(exec: Actuator<A>, g: Engine<A>, e: Event, all: seq<Attempt>)
    requires EvidenceFits(g.evidence, all)
    ensures var h := HandleEvent(exec, g, e);
            EvidenceFits(h.engine.evidence, all + Attempts(h.trace))
  {
    hide Step, Drain;
    var d := Step(g.machine, e);
    var noted := NoteSample(g.(machine := d.machine), e, d.actions);
    DrainFits(exec, noted, e.At(), d.actions, all);
    MoveTriesNothing(e.At(), g.machine.state, d.machine.state);
    TraceConcat(Move(e.At(), g.machine.state, d.machine.state), Drain(exec, noted, e.At(), d.actions).trace);
  }

  /** Over a whole run the evidence is the last min(total, 64) attempts, in execution order. */
  lemma {:induction false} RunFits<A>(exec: Actuator<A>, g: Engine<A>, es: seq<Event>, k: nat)
    requires g.evidence == NO_EVIDENCE && k <= |es|
    ensures var r := RunEngine(exec, g, es, k);
            EvidenceFits(r.engine.evidence, Attempts(r.trace))
  {
    hide Step, HandleEvent;
    if k > 0 {
      RunFits(exec, g, es, k - 1);
      var p := RunEngine(exec, g, es, k - 1);
      HandleFits(exec, p.engine, es[k - 1], Attempts(p.trace));
      TraceConcat(p.trace, HandleEvent(exec, p.engine, es[k - 1]).trace);
    }
  }

  /** The runtime's slice: the newest records, as many as the attempt counter has moved. */
  function NewRecords(ev: Evidence, previousAttempts: u64): seq<Record> {
    Last(ev.records, SatSub(ev.totalAttempts, previousAttempts))
  }

  /** The slice is exactly the attempts of that event, as long as the counter has room for them. */
  lemma SliceIsTheEvent<A>(exec: Actuator<A>, g: Engine<A>, e: Event, all: seq<Attempt>)
    requires Inv(g.machine) && EvidenceFits(g.evidence, all) && |all| + 3 <= U64_MAX
    ensures var h := HandleEvent(exec, g, e);
            var slice := NewRecords(h.engine.evidence, g.evidence.totalAttempts);
            |slice| == |Attempts(h.trace)|
            && forall i :: 0 <= i < |slice| ==> slice[i].attempt == Attempts(h.trace)[i]
  {
    hide Step, HandleEvent, Inv, EvidenceFits, NewRecords, Chained;
    HandleFits(exec, g, e, all);
    FeedbackIsBounded(exec, g, e);
    var attempts := Attempts(HandleEvent(exec, g, e).trace);
    ChainedIsShort(attempts);
    TotalOfAll(g.evidence, all);
    SliceOfNew(HandleEvent(exec, g, e).engine.evidence, all, attempts);
  }

  lemma ChainedIsShort(attempts: seq<Attempt>)
    requires Chained(attempts)
    ensures |attempts| <= 3
  {
  }

  lemma TotalOfAll(ev: Evidence, all: seq<Attempt>)
    requires EvidenceFits(ev, all)
    ensures ev.totalAttempts == Min(|all|, U64_MAX)
  {
  }

  /** The newest records are the newest attempts. */
  lemma SliceOfNew(ev: Evidence, all: seq<Attempt>, added: seq<Attempt>)
    requires EvidenceFits(ev, all + added) && |added| <= 3 && |all| + 3 <= U64_MAX
    ensures var slice := NewRecords(ev, Min(|all|, U64_MAX));
            && |slice| == |added| && forall i :: 0 <= i < |slice| ==> slice[i].attempt == added[i]
  {
    var slice := NewRecords(ev, |all|);
    forall i | 0 <= i < |added| ensures |slice| == |added| && slice[i].attempt == added[i] {
      assert (all + added)[|all| + i] == added[i];
    }
  }
}
