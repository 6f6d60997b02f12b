/** Report coherence over every enforcing run: one event at a time, the labels, the checkpoint latches,
    the policy machine and the wire protocol keep agreeing, and every executed side effect has a reason. */
module Coherence {
  import opened Common
  import opened Policy
  import opened Actuations
  import opened PolicyRuns
  import opened Intervention
  import opened Cascades
  import opened ProcessActuator
  import opened Latches
  import Report

  // ---- The three cascades ----

  predicate Beyond(m: Machine) {
    Inv(m) && Phase(m) == 2
  }

  lemma AnswerToKill(m: Machine, at: Duration, f: ActuationFailure)
    requires Beyond(m) && m.interventionStarted
    ensures Beyond(Answered(m, at, Kill, f).machine) && ActuationsOf(Answered(m, at, Kill, f).actions) == []
  {
    var e := ActuationFailed(at, KillKind, f);
    StepKeepsInv(m, e);
    StepEscalates(m, e);
    ActuationsOfShort(Step(m, e).actions);
  }

  lemma AnswerToSignal(m: Machine, at: Duration, x: Actuation, f: ActuationFailure)
    requires Beyond(m) && m.interventionStarted && (x.Term? || x.Forward?)
    ensures var d := Answered(m, at, x, f);
            && Beyond(d.machine) && d.machine.interventionStarted
            && (ActuationsOf(d.actions) == [] || ActuationsOf(d.actions) == [Kill])
  {
    var e := ActuationFailed(at, x.Kind(), f);
    StepKeepsInv(m, e);
    StepEscalates(m, e);
    ActuationsOfShort(Step(m, e).actions);
  }

  lemma AnswerToCheckpoint(m: Machine, at: Duration, x: Actuation, f: ActuationFailure)
    requires Inv(m) && m.state.CheckpointRequested? && m.lastEventAt == Some(at) && x.Checkpoint?
    ensures var d := Answered(m, at, x, f);
            && Beyond(d.machine) && d.machine.interventionStarted
            && ActuationsOf(d.actions) == [Term(SkippedCheckpointFailure)]
  {
    var e := ActuationFailed(at, CheckpointKind, f);
    StepKeepsInv(m, e);
    ActuationsOfShort(Step(m, e).actions);
  }

  lemma OneAttempt(at: Duration, a: Attempt, from: PolicyState, to: PolicyState, rest: seq<Effect>)
    ensures Attempts([Executed(a)] + Move(at, from, to) + rest) == [a] + Attempts(rest)
    ensures Attempts([Executed(a)] + Move(at, from, to)) == [a] && Attempts([Executed(a)]) == [a]
  {
    MoveTriesNothing(at, from, to);
    TraceConcat([Executed(a)], Move(at, from, to));
    TraceConcat([Executed(a)] + Move(at, from, to), rest);
  }

  /** Only a checkpoint execution touches the channel. */
  lemma SignalsLeaveChannel(s: Supervised, at: Duration, x: Actuation)
    requires !x.Checkpoint?
    ensures Execute(s, at, x).0.channel == s.channel
  {
  }

  lemma CascadeOfKill(s: Supervised, m: Machine, at: Duration)
    requires Beyond(m) && m.interventionStarted
    ensures var c := Cascade(Execute, m, s, at, Kill);
            && Attempts(c.trace) == [Attempt(at, Kill, Execute(s, at, Kill).1)]
            && Beyond(c.machine) && c.actuator.channel == s.channel
  {
    hide Step, Beyond, Answered, Execute;
    var reply := Execute(s, at, Kill).1;
    SignalsLeaveChannel(s, at, Kill);
    OneAttempt(at, Attempt(at, Kill, reply), m.state, m.state, []);
    if reply.Err? {
      AnswerToKill(m, at, reply.error);
      OneAttempt(at, Attempt(at, Kill, reply), m.state, Answered(m, at, Kill, reply.error).machine.state, []);
    }
  }

  /** A signal, then a KILL if it failed. */
  predicate SignalAttempts(attempts: seq<Attempt>, x: Actuation) {
    && 1 <= |attempts| <= 2 && attempts[0].action == x
    && (|attempts| == 2 ==> attempts[1].action.Kill?)
  }

  lemma CascadeOfSignal(s: Supervised, m: Machine, at: Duration, x: Actuation)
    requires Beyond(m) && m.interventionStarted && (x.Term? || x.Forward?)
    ensures var c := Cascade(Execute, m, s, at, x);
            && SignalAttempts(Attempts(c.trace), x) && (forall a :: a in Attempts(c.trace) ==> a.requestedAt == at)
            && Beyond(c.machine) && c.actuator.channel == s.channel
  {
    hide Step, Beyond, Answered, Execute;
    var (t, reply) := Execute(s, at, x);
    SignalsLeaveChannel(s, at, x);
    OneAttempt(at, Attempt(at, x, reply), m.state, m.state, []);
    if reply.Err? {
      var d := Answered(m, at, x, reply.error);
      AnswerToSignal(m, at, x, reply.error);
      if ActuationsOf(d.actions) != [] {
        CascadeOfKill(t, d.machine, at);
      }
      OneAttempt(at, Attempt(at, x, reply), m.state, d.machine.state, Cascade(Execute, d.machine, t, at, Kill).trace);
    }
  }

  predicate CheckpointFailed(attempts: seq<Attempt>, x: Actuation) {
    && 2 <= |attempts| <= 3 && attempts[0].action == x && attempts[0].reply.Err?
    && attempts[1].action == Term(SkippedCheckpointFailure)
    && (|attempts| == 3 ==> attempts[2].action.Kill?)
  }

  /** A delivered checkpoint leaves the machine waiting; a failed one is answered by a TERM at once. */
  lemma CascadeOfCheckpoint(s: Supervised, m: Machine, at: Duration, x: Actuation)
    requires Inv(m) && m.state.CheckpointRequested? && m.lastEventAt == Some(at) && x.Checkpoint?
    ensures var c := Cascade(Execute, m, s, at, x);
            var (t, reply) := Execute(s, at, x);
            && (forall a :: a in Attempts(c.trace) ==> a.requestedAt == at)
            && (reply.Ok? ==> c.machine == m && c.actuator == t && Attempts(c.trace) == [Attempt(at, x, reply)])
            && (reply.Err? ==> Beyond(c.machine) && CheckpointFailed(Attempts(c.trace), x))
  {
    hide Step, Beyond, Answered, Execute;
    var (t, reply) := Execute(s, at, x);
    OneAttempt(at, Attempt(at, x, reply), m.state, m.state, []);
    if reply.Err? {
      var d := Answered(m, at, x, reply.error);
      var term := Term(SkippedCheckpointFailure);
      AnswerToCheckpoint(m, at, x, reply.error);
      CascadeOfSignal(t, d.machine, at, term);
      OneAttempt(at, Attempt(at, x, reply), m.state, d.machine.state, Cascade(Execute, d.machine, t, at, term).trace);
    }
  }

  // ---- Recording the attempts ----

  /** A signal with a reason, and the KILL after it, are recorded with reasons; only a timed-out TERM
      touches the checkpoint status. */
  lemma SignalNoted(l: Latches, negotiated: bool, attempts: seq<Attempt>, x: Actuation)
    requires SignalAttempts(attempts, x) && (x.Term? || x.Forward?)
    requires ActuationReason(x, l.cause, l.shutdown).Some?
    ensures var n := NoteAttempts(l, negotiated, attempts);
            && n.shutdown.Some? && AllReasoned(ReasonsOf(l, negotiated, attempts))
            && n == (if x == Term(TimedOut)
                     then l.(shutdown := n.shutdown, status := Report.CheckpointStatus.TimedOut,
                             atMs := Some(Ms(attempts[0].requestedAt)))
                     else l.(shutdown := n.shutdown))
  {
    var l1 := NoteAttempt(l, negotiated, attempts[0]);
    assert NoteAttempts(l, negotiated, attempts) == NoteAttempts(l1, negotiated, attempts[1..]);
    if |attempts| == 2 {
      assert attempts[1..][1..] == [] && attempts[1..][0] == attempts[1];
    }
  }

  lemma KillNoted(l: Latches, negotiated: bool, a: Attempt)
    requires a.action.Kill? && (l.shutdown.Some? || l.cause.Some?)
    ensures var n := NoteAttempts(l, negotiated, [a]);
            && n.shutdown.Some? && n == l.(shutdown := n.shutdown) && AllReasoned(ReasonsOf(l, negotiated, [a]))
  {
    assert [a][1..] == [];
  }

  lemma DeliveryNoted(l: Latches, negotiated: bool, a: Attempt)
    requires a.action.Checkpoint? && l.cause.Some? && a.reply == Ok(Outcome.Delivered)
    ensures NoteAttempts(l, negotiated, [a])
         == l.(reason := l.cause, requestId := Some(a.action.requestId),
               status := Report.CheckpointStatus.RequestedUnverified, atMs := Some(Ms(a.requestedAt)))
    ensures AllReasoned(ReasonsOf(l, negotiated, [a]))
  {
    assert [a][1..] == [];
  }

  lemma FailedCheckpointNoted(l: Latches, negotiated: bool, attempts: seq<Attempt>, x: Actuation)
    requires x.Checkpoint? && CheckpointFailed(attempts, x) && l.cause.Some?
    ensures var n := NoteAttempts(l, negotiated, attempts);
            && n.shutdown.Some? && AllReasoned(ReasonsOf(l, negotiated, attempts))
            && n == l.(shutdown := n.shutdown, reason := l.cause, status := n.status, atMs := n.atMs)
            && (if negotiated then n.status.Cancelled? && n.atMs == Some(Ms(attempts[0].requestedAt))
                else n.status == l.status && n.atMs == l.atMs)
  {
    var l1 := NoteAttempt(l, negotiated, attempts[0]);
    SignalNoted(l1, negotiated, attempts[1..], Term(SkippedCheckpointFailure));
    assert ReasonsOf(l, negotiated, attempts)
        == [ActuationReason(x, l.cause, l.shutdown)] + ReasonsOf(l1, negotiated, attempts[1..]);
  }

  // ---- One event ----

  /** Everything one event does to the latches. */
  function AfterEvent(l: Latches, negotiated: bool, e: Event, state: PolicyState, trace: seq<Effect>): Latches {
    NoteAttempts(Decided(l, e, state, trace), negotiated, Attempts(trace))
  }

  /** The reasons of the side effects one event executes. */
  function EventReasons(l: Latches, negotiated: bool, e: Event, state: PolicyState, trace: seq<Effect>): seq<Reason> {
    ReasonsOf(Decided(l, e, state, trace), negotiated, Attempts(trace))
  }

  /** What an event with these latches at decision time leaves. */
  ghost predicate Kept(l: Latches, negotiated: bool, c: Cascaded<Supervised>, attempts: seq<Attempt>) {
    && Coherent(c.machine, c.actuator, NoteAttempts(l, negotiated, attempts))
    && AllReasoned(ReasonsOf(l, negotiated, attempts))
  }

  /** The latches at decision time: labelled, acknowledged and with the cause of an opened intervention. */
  ghost predicate Entering(m: Machine, l: Latches, e: Event, d: Decision, before: Latches) {
    before == var b := BeforeEvent(l, e, m.state);
              if l.cause.None? && OpensIntervention(Transition(e.At(), m.state, d.machine.state))
              then b.(cause := InterventionCauseFor(e)) else b
  }

  lemma QuietEvent(m: Machine, s: Supervised, l: Latches, negotiated: bool, e: Event, d: Decision, before: Latches)
    requires ReadyFor(m, s, l, e) && StepFits(m, e, d, []) && Entering(m, l, e, d, before)
    ensures Kept(before, negotiated, Cascaded(d.machine, s, [], []), [])
  {
  }

  lemma KillEvent(m: Machine, s: Supervised, l: Latches, negotiated: bool, e: Event, d: Decision, before: Latches)
    requires ReadyFor(m, s, l, e) && StepFits(m, e, d, [Kill]) && Entering(m, l, e, d, before)
    ensures var c := Cascade(Execute, d.machine, s, e.At(), Kill);
            Kept(before, negotiated, c, Attempts(c.trace))
  {
    hide Execute, NoteAttempts, ReasonsOf;
    CascadeOfKill(s, d.machine, e.At());
    KillNoted(before, negotiated, Attempt(e.At(), Kill, Execute(s, e.At(), Kill).1));
  }

  lemma SignalEvent(m: Machine, s: Supervised, l: Latches, negotiated: bool, e: Event, d: Decision, x: Actuation,
                    before: Latches)
    requires ReadyFor(m, s, l, e) && StepFits(m, e, d, [x]) && Entering(m, l, e, d, before) && (x.Term? || x.Forward?)
    ensures var c := Cascade(Execute, d.machine, s, e.At(), x);
            Kept(before, negotiated, c, Attempts(c.trace))
  {
    hide Execute, NoteAttempts, ReasonsOf, Cascade;
    CascadeOfSignal(s, d.machine, e.At(), x);
    var c := Cascade(Execute, d.machine, s, e.At(), x);
    SignalNoted(before, negotiated, Attempts(c.trace), x);
  }

  lemma CheckpointEvent(m: Machine, s: Supervised, l: Latches, negotiated: bool, e: Event, d: Decision, x: Actuation,
                        before: Latches)
    requires ReadyFor(m, s, l, e) && StepFits(m, e, d, [x]) && Entering(m, l, e, d, before) && x.Checkpoint?
    ensures var c := Cascade(Execute, d.machine, s, e.At(), x);
            Kept(before, negotiated, c, Attempts(c.trace))
  {
    hide Execute, NoteAttempts, ReasonsOf, Cascade;
    var (t, reply) := Execute(s, e.At(), x);
    var c := Cascade(Execute, d.machine, s, e.At(), x);
    CascadeOfCheckpoint(s, d.machine, e.At(), x);
    if reply.Ok? {
      DeliveredMeansRequested(s, e.At(), x.requestId, x.overshootBytes, x.deadlineAt);
      DeliveryNoted(before, negotiated, Attempt(e.At(), x, reply));
    } else {
      FailedCheckpointNoted(before, negotiated, Attempts(c.trace), x);
    }
  }

  /** Whatever the policy decides and the system replies, one event keeps the run coherent, and every side
      effect executed for it is recorded with a reason. */
  lemma EventKeepsCoherent(m: Machine, s: Supervised, l: Latches, negotiated: bool, e: Event)
    requires ReadyFor(m, s, l, e)
    ensures var d := Step(m, e);
            var tried := ActuationsOf(d.actions);
            && |tried| <= 1
            && var c := Pending(Execute, d.machine, s, e.At(), tried);
               var trace := Move(e.At(), m.state, d.machine.state) + c.trace;
               && Coherent(c.machine, c.actuator, AfterEvent(l, negotiated, e, m.state, trace))
               && AllReasoned(EventReasons(l, negotiated, e, m.state, trace))
  {
    hide Step, Inv, Execute, StepFits, ReadyFor, Coherent, NoteAttempts, ReasonsOf, Decided, BeforeEvent;
    ReadyIsInv(m, s, l, e);
    var d := Step(m, e);
    var tried := ActuationsOf(d.actions);
    StepFitsAll(m, e);
    StepEscalates(m, e);
    var c := Pending(Execute, d.machine, s, e.At(), tried);
    var trace := Move(e.At(), m.state, d.machine.state) + c.trace;
    CauseAfter(l, s, m, e, d, tried);
    MoveTriesNothing(e.At(), m.state, d.machine.state);
    TraceConcat(Move(e.At(), m.state, d.machine.state), c.trace);
    assert [] + Attempts(c.trace) == Attempts(c.trace);
    var before := Decided(l, e, m.state, trace);
    if tried == [] {
      QuietEvent(m, s, l, negotiated, e, d, before);
    } else {
      assert tried == [tried[0]];
      match tried[0] {
        case Checkpoint(_, _, _) => CheckpointEvent(m, s, l, negotiated, e, d, tried[0], before);
        case Kill => KillEvent(m, s, l, negotiated, e, d, before);
        case _ => SignalEvent(m, s, l, negotiated, e, d, tried[0], before);
      }
    }
  }

  lemma ReadyIsInv(m: Machine, s: Supervised, l: Latches, e: Event)
    requires ReadyFor(m, s, l, e)
    ensures Inv(m) && Allowed(m, e)
  {
  }
}
