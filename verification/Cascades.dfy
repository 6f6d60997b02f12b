/** The engine without its queue: one side effect, and the stronger one its failure leads to. Handling
    an event refines this, whatever else is waiting in the queue. */
module Cascades {
  import opened Common
  import opened Policy
  import opened Actuations
  import opened PolicyRuns
  import opened Intervention

  function Attempts(trace: seq<Effect>): seq<Attempt> {
    if trace == [] then []
    else (if trace[0].Executed? then [trace[0].attempt] else []) + Attempts(trace[1..])
  }

  function Tried(trace: seq<Effect>): seq<Actuation> {
    if trace == [] then []
    else (if trace[0].Executed? then [trace[0].attempt.action] else []) + Tried(trace[1..])
  }

  lemma HeadOfTrace(head: Effect, rest: seq<Effect>)
    ensures Attempts([head] + rest) == (if head.Executed? then [head.attempt] else []) + Attempts(rest)
    ensures Tried([head] + rest) == (if head.Executed? then [head.attempt.action] else []) + Tried(rest)
  {
    assert ([head] + rest)[1..] == rest;
  }

  lemma {:induction false} TraceConcat(a: seq<Effect>, b: seq<Effect>)
    ensures Attempts(a + b) == Attempts(a) + Attempts(b)
    ensures Tried(a + b) == Tried(a) + Tried(b)
  {
    if a == [] {
      assert a + b == b;
    } else {
      var head := [a[0]];
      assert a + b == head + (a[1..] + b) && a == head + a[1..];
      TraceConcat(a[1..], b);
      HeadOfTrace(a[0], a[1..] + b);
      HeadOfTrace(a[0], a[1..]);
      hide Attempts, Tried;
    }
  }

  lemma MoveTriesNothing(at: Duration, from: PolicyState, to: PolicyState)
    ensures Tried(Move(at, from, to)) == [] && Attempts(Move(at, from, to)) == []
  {
  }

  lemma NoteSampleKeepsMachine<A>(g: Engine<A>, e: Event, initial: seq<Action>)
    ensures NoteSample(g, e, initial).machine == g.machine && NoteSample(g, e, initial).actuator == g.actuator
  {
  }

  lemma ActuationsOfHead(pending: seq<Action>)
    requires pending != []
    ensures ActuationsOf(pending)
         == (match ActuationFor(pending[0]) case Some(x) => [x] case None => []) + ActuationsOf(pending[1..])
  {
  }

  /** What one side effect leaves: the machine, the actuator, the effects, and the failures fed back. */
  datatype Cascaded<A> = Cascaded(machine: Machine, actuator: A, trace: seq<Effect>, fed: seq<Event>)

  /** What a failed attempt selects next. */
  function Answered(m: Machine, at: Duration, x: Actuation, f: ActuationFailure): Decision {
    Step(m, ActuationFailed(at, x.Kind(), f))
  }

  lemma AnswerIsOne(m: Machine, at: Duration, x: Actuation, f: ActuationFailure)
    ensures |Answered(m, at, x, f).actions| <= 2 && |ActuationsOf(Answered(m, at, x, f).actions)| <= 1
    ensures var tried := ActuationsOf(Answered(m, at, x, f).actions);
            tried != [] ==> Rank(tried[0]) <= Weight(Answered(m, at, x, f).actions)
  {
    var actions := Answered(m, at, x, f).actions;
    ActuationsOfShort(actions);
    assert |actions| > 1 ==> actions[1..][0] == actions[1] && Weight(actions[1..][1..]) == 0;
  }

  function Cascade<A>(exec: Actuator<A>, m: Machine, a: A, at: Duration, x: Actuation): Cascaded<A>
    decreases Unstarted(m), Rank(x)
  {
    var (actuator, reply) := exec(a, at, x);
    var done := [Executed(Attempt(at, x, reply))];
    match reply
    case Ok(_) => Cascaded(m, actuator, done, [])
    case Err(failure) =>
      var d := Answered(m, at, x, failure);
      var moved := done + Move(at, m.state, d.machine.state);
      var fed := [ActuationFailed(at, x.Kind(), failure)];
      var tried := ActuationsOf(d.actions);
      FailureLowersRank(m, at, x, failure);
      AnswerIsOne(m, at, x, failure);
      if tried == [] then Cascaded(d.machine, actuator, moved, fed)
      else
        var next := Cascade(exec, d.machine, actuator, at, tried[0]);
        Cascaded(next.machine, next.actuator, moved + next.trace, fed + next.fed)
  }

  /** The cascade of at most one pending side effect. */
  function Pending<A>(exec: Actuator<A>, m: Machine, a: A, at: Duration, tried: seq<Actuation>): Cascaded<A>
    requires |tried| <= 1
  {
    if tried == [] then Cascaded(m, a, [], []) else Cascade(exec, m, a, at, tried[0])
  }

  lemma {:induction false} DrainIsCascade<A>(exec: Actuator<A>, g: Engine<A>, at: Duration, pending: seq<Action>)
    requires |ActuationsOf(pending)| <= 1
    ensures var r := Drain(exec, g, at, pending);
            Cascaded(r.engine.machine, r.engine.actuator, r.trace, r.fed)
            == Pending(exec, g.machine, g.actuator, at, ActuationsOf(pending))
    decreases Unstarted(g.machine), Weight(pending), |pending|
  {
    hide Step;
    if pending != [] {
      var p := Perform(exec, g, at, pending[0]);
      var rest := pending[1..] + p.more;
      PerformDecreases(exec, g, at, pending);
      ActuationsOfHead(pending);
      ActuationsOfConcat(pending[1..], p.more);
      var r := Drain(exec, p.engine, at, rest);
      match ActuationFor(pending[0])
      case None =>
        assert rest == pending[1..];
        DrainIsCascade(exec, p.engine, at, rest);
      case Some(x) =>
        var reply := exec(g.actuator, at, x).1;
        if reply.Ok? {
          assert rest == pending[1..];
          DrainIsCascade(exec, p.engine, at, rest);
        } else {
          AnswerIsOne(g.machine, at, x, reply.error);
          DrainIsCascade(exec, p.engine, at, rest);
        }
    }
  }

  /** Handling an event is its own transition followed by the cascade of the one side effect it
      selects. */
  lemma HandleIsCascade<A>(exec: Actuator<A>, g: Engine<A>, e: Event)
    requires Inv(g.machine)
    ensures var d := Step(g.machine, e);
            var h := HandleEvent(exec, g, e);
            && |ActuationsOf(d.actions)| <= 1
            && var c := Pending(exec, d.machine, g.actuator, e.At(), ActuationsOf(d.actions));
               && h.engine.machine == c.machine && h.engine.actuator == c.actuator
               && h.trace == Move(e.At(), g.machine.state, d.machine.state) + c.trace && h.fed == [e] + c.fed
  {
    hide Step, Inv, Drain, NoteSample, Escalates;
    var d := Step(g.machine, e);
    var noted := NoteSample(g.(machine := d.machine), e, d.actions);
    NoteSampleKeepsMachine(g.(machine := d.machine), e, d.actions);
    StepEscalates(g.machine, e);
    DrainIsCascade(exec, noted, e.At(), d.actions);
  }

  // ---- One event: at most three attempts, each answering a failure ----

  /** What a failed attempt may be followed by. */
  predicate Answers(failed: Attempt, next: Attempt) {
    && failed.reply.Err?
    && ((failed.action.Checkpoint? && next.action.Term?)
        || ((failed.action.Term? || failed.action.Forward?) && next.action.Kill?))
  }

  predicate Chained(attempts: seq<Attempt>) {
    match |attempts|
    case 0 => true
    case 1 => true
    case 2 => Answers(attempts[0], attempts[1])
    case 3 => Answers(attempts[0], attempts[1]) && Answers(attempts[1], attempts[2])
    case _ => false
  }

  /** The machine has this event's time, or no longer needs it. */
  predicate Clocked(m: Machine, at: Duration) {
    m.interventionStarted || m.state.Exited? || m.lastEventAt == Some(at)
  }

  /** What a fed-back failure selects: the next stronger signal, or nothing. */
  lemma FailureSelects(m: Machine, at: Duration, x: Actuation, f: ActuationFailure)
    requires Clocked(m, at) && (x.Checkpoint? ==> m.state.CheckpointRequested? || m.interventionStarted)
    ensures var d := Step(m, ActuationFailed(at, x.Kind(), f));
            && Clocked(d.machine, at)
            && (d.actions == [] || (|d.actions| == 1 &&
                 match d.actions[0]
                 case SendTerm(_) => x.Checkpoint?
                 case SendKill => x.Term? || x.Forward?
                 case ReportSupervisorError(_, _) => true
                 case _ => false))
  {
  }

  lemma {:induction false} CascadeChains<A>(exec: Actuator<A>, m: Machine, a: A, at: Duration, x: Actuation)
    requires Clocked(m, at) && (x.Checkpoint? ==> m.state.CheckpointRequested? || m.interventionStarted)
    ensures var attempts := Attempts(Cascade(exec, m, a, at, x).trace);
            attempts != [] && attempts[0].action == x && Chained(attempts)
    decreases Unstarted(m), Rank(x)
  {
    hide Step;
    var (actuator, reply) := exec(a, at, x);
    var attempt := Attempt(at, x, reply);
    if reply.Err? {
      var d := Answered(m, at, x, reply.error);
      var tried := ActuationsOf(d.actions);
      FailureSelects(m, at, x, reply.error);
      FailureLowersRank(m, at, x, reply.error);
      AnswerIsOne(m, at, x, reply.error);
      ActuationsOfShort(d.actions);
      MoveTriesNothing(at, m.state, d.machine.state);
      TraceConcat([Executed(attempt)], Move(at, m.state, d.machine.state));
      if tried != [] {
        var rest := Cascade(exec, d.machine, actuator, at, tried[0]).trace;
        CascadeChains(exec, d.machine, actuator, at, tried[0]);
        TraceConcat([Executed(attempt)] + Move(at, m.state, d.machine.state), rest);
        assert Attempts([Executed(attempt)]) == [attempt];
      }
    }
  }

  /** One event causes at most three actuator calls (checkpoint, TERM, KILL), and each call after the
      first answers the failure of the one before it. */
  lemma FeedbackIsBounded<A>(exec: Actuator<A>, g: Engine<A>, e: Event)
    requires Inv(g.machine)
    ensures Chained(Attempts(HandleEvent(exec, g, e).trace))
  {
    hide Step, Inv, HandleEvent, Cascade, Escalates;
    var d := Step(g.machine, e);
    var tried := ActuationsOf(d.actions);
    StepEscalates(g.machine, e);
    HandleIsCascade(exec, g, e);
    MoveTriesNothing(e.At(), g.machine.state, d.machine.state);
    TraceConcat(Move(e.At(), g.machine.state, d.machine.state),
                Pending(exec, d.machine, g.actuator, e.At(), tried).trace);
    if tried != [] {
      SelectedIsClocked(g.machine, e);
      CascadeChains(exec, d.machine, g.actuator, e.At(), tried[0]);
    }
  }

  lemma SelectedIsClocked(m: Machine, e: Event)
    requires Inv(m)
    ensures var d := Step(m, e);
            ActuationsOf(d.actions) != [] ==>
              Clocked(d.machine, e.At())
              && (ActuationsOf(d.actions)[0].Checkpoint? ==> d.machine.state.CheckpointRequested?)
  {
    StepEscalates(m, e);
    ActuationsOfShort(Step(m, e).actions);
  }
}
