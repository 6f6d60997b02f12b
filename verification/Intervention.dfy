/** The intervention engine of intervention.rs: it executes what the policy machine selects through
    an arbitrary actuator and feeds every failure back into the same machine. */
module Intervention {
  import opened Common
  import opened Policy
  import opened Actuations

  datatype Outcome = Delivered | Missing
  type Reply = Result<Outcome, ActuationFailure>

  /** Any actuator: its state, and what one execution returns and leaves behind. */
  type Actuator<!A> = (A, Duration, Actuation) -> (A, Reply)

  const MAX_INTERVENTION_RECORDS: nat := 64

  datatype Attempt = Attempt(requestedAt: Duration, action: Actuation, reply: Reply)

  datatype Transition = Transition(at: Duration, from: PolicyState, to: PolicyState)

  /** What the engine does to the outside, in order. */
  datatype Effect = Moved(transition: Transition) | Executed(attempt: Attempt)

  // ---- Evidence ----

  datatype Record = Record(
    attempt: Attempt,
    baseline: Option<u64>,
    firstObservation: Option<Duration>,
    footprintDecrease: Option<Duration>,
    groupEmpty: Option<Duration>)

  datatype Evidence = Evidence(
    records: seq<Record>, totalAttempts: u64, droppedRecords: u64, maximumOvershoot: u64)

  const NO_EVIDENCE := Evidence([], 0, 0, 0)

  function WithAttempt(ev: Evidence, attempt: Attempt, baseline: Option<u64>): Evidence {
    ev.(records := Push(ev.records, Record(attempt, baseline, None, None, None), MAX_INTERVENTION_RECORDS),
        totalAttempts := SatAdd64(ev.totalAttempts, 1),
        droppedRecords := if |ev.records| == MAX_INTERVENTION_RECORDS then SatAdd64(ev.droppedRecords, 1)
                          else ev.droppedRecords)
  }

  function WithOvershoot(ev: Evidence, bytes: u64): Evidence {
    ev.(maximumOvershoot := if bytes > ev.maximumOvershoot then bytes else ev.maximumOvershoot)
  }

  /** A valid sample dates the first observation, and the first decrease, of every earlier attempt. */
  function ObserveRecord(r: Record, at: Duration, bytes: Option<u64>): Record {
    if at <= r.attempt.requestedAt then r
    else
      var latency := at - r.attempt.requestedAt;
      r.(firstObservation := if r.firstObservation.None? then Some(latency) else r.firstObservation,
         footprintDecrease :=
           if r.footprintDecrease.None? && r.baseline.Some? && bytes.Some? && bytes.value < r.baseline.value
           then Some(latency) else r.footprintDecrease)
  }

  function ObserveRecords(records: seq<Record>, at: Duration, bytes: Option<u64>): (r: seq<Record>)
    ensures |r| == |records| && forall i :: 0 <= i < |r| ==> r[i] == ObserveRecord(records[i], at, bytes)
  {
    if records == [] then [] else [ObserveRecord(records[0], at, bytes)] + ObserveRecords(records[1..], at, bytes)
  }

  /** The record of an attempt once the group is seen empty at a time. */
  function DatedEmpty(r: Record, at: Duration): Record {
    if at > r.attempt.requestedAt && r.groupEmpty.None? then r.(groupEmpty := Some(at - r.attempt.requestedAt)) else r
  }

  class InterventionEvidence {
    var records: seq<Record>
    var totalAttempts: u64
    var droppedRecords: u64
    var maximumOvershoot: u64

    function View(): Evidence
      reads this
    {
      Evidence(records, totalAttempts, droppedRecords, maximumOvershoot)
    }

    constructor ()
      ensures View() == NO_EVIDENCE
    {
      records, totalAttempts, droppedRecords, maximumOvershoot := [], 0, 0, 0;
    }

    method RecordOvershoot(bytes: u64)
      modifies this
      ensures View() == WithOvershoot(old(View()), bytes)
    {
      if bytes > maximumOvershoot {
        maximumOvershoot := bytes;
      }
    }

    method RecordAttempt(attempt: Attempt, baseline: Option<u64>)
      modifies this
      ensures View() == WithAttempt(old(View()), attempt, baseline)
    {
      totalAttempts := SatAdd64(totalAttempts, 1);
      if |records| == MAX_INTERVENTION_RECORDS {
        records := records[1..];
        droppedRecords := SatAdd64(droppedRecords, 1);
      }
      records := records + [Record(attempt, baseline, None, None, None)];
    }

    method Observe(at: Duration, bytes: Option<u64>)
      modifies this
      ensures View() == old(View()).(records := ObserveRecords(old(records), at, bytes))
    {
      for i := 0 to |records|
        invariant |records| == |old(records)|
        invariant View() == old(View()).(records := records)
        invariant forall k :: 0 <= k < i ==> records[k] == ObserveRecord(old(records)[k], at, bytes)
        invariant forall k :: i <= k < |records| ==> records[k] == old(records)[k]
      {
        records := records[i := ObserveRecord(records[i], at, bytes)];
      }
    }

    /** Date the empty group on every attempt that preceded it and is not dated yet. */
    method ObserveGroupEmpty(at: Duration)
      modifies this
      ensures View() == old(View()).(records := records) && |records| == |old(records)|
      ensures forall k :: 0 <= k < |records| ==> records[k] == DatedEmpty(old(records)[k], at)
    {
      for i := 0 to |records|
        invariant |records| == |old(records)|
        invariant View() == old(View()).(records := records)
        invariant forall k :: i <= k < |records| ==> records[k] == old(records)[k]
        invariant forall k :: 0 <= k < i ==> records[k] == DatedEmpty(old(records)[k], at)
      {
        var r := records[i];
        if at > r.attempt.requestedAt && r.groupEmpty.None? {
          records := records[i := r.(groupEmpty := Some(at - r.attempt.requestedAt))];
        }
      }
    }
  }

  // ---- The engine as a function ----

  datatype Engine<A> = Engine(machine: Machine, actuator: A, evidence: Evidence, lastObserved: Option<u64>)

  /** One handled event: the engine left behind, the decisions and effects in order, and every event
      the policy machine was given (the event itself, then the failures fed back). */
  datatype Handled<A> = Handled(engine: Engine<A>, decisions: seq<Action>, trace: seq<Effect>, fed: seq<Event>)

  function Move(at: Duration, from: PolicyState, to: PolicyState): seq<Effect> {
    if from == to then [] else [Moved(Transition(at, from, to))]
  }

  function Rank(a: Actuation): nat {
    match a
    case Checkpoint(_, _, _) => 3
    case Term(_) => 2
    case Forward(_) => 2
    case Kill => 1
  }

  /** What is still to be escalated: the measure that ends the failure feedback. */
  function Weight(pending: seq<Action>): nat {
    if pending == [] then 0
    else Weight(pending[1..]) + match ActuationFor(pending[0]) case Some(a) => Rank(a) case None => 0
  }

  lemma {:induction false} WeightOfConcat(a: seq<Action>, b: seq<Action>)
    ensures Weight(a + b) == Weight(a) + Weight(b)
  {
    if a == [] {
      assert a + b == b;
    } else {
      assert (a + b)[1..] == a[1..] + b;
      WeightOfConcat(a[1..], b);
    }
  }

  function Unstarted(m: Machine): nat {
    if m.interventionStarted then 0 else 1
  }

  /** A fed-back failure either starts the intervention or selects something of lower rank. */
  lemma FailureLowersRank(m: Machine, at: Duration, a: Actuation, f: ActuationFailure)
    ensures var d := Step(m, ActuationFailed(at, a.Kind(), f));
            Unstarted(d.machine) < Unstarted(m)
            || (Unstarted(d.machine) == Unstarted(m) && Weight(d.actions) < Rank(a))
  {
    var d := Step(m, ActuationFailed(at, a.Kind(), f));
    assert |d.actions| <= 2;
    assert |d.actions| > 0 ==> Weight(d.actions[1..]) <= 2;
  }

  function Noted(ev: Evidence, action: Action): Evidence {
    match action
    case RecordOvershoot(bytes) => WithOvershoot(ev, bytes)
    case RequestCheckpoint(_, overshoot, _) => WithOvershoot(ev, overshoot)
    case _ => ev
  }

  /** One popped action: the engine after it, its effects, and the actions a failure adds. */
  datatype Performed<A> = Performed(engine: Engine<A>, effects: seq<Effect>, more: seq<Action>, fed: seq<Event>)

  function Perform<A>(exec: Actuator<A>, g: Engine<A>, at: Duration, action: Action): Performed<A> {
    var noted := g.(evidence := Noted(g.evidence, action));
    match ActuationFor(action)
    case None => Performed(noted, [], [], [])
    case Some(x) =>
      var (actuator, reply) := exec(g.actuator, at, x);
      var attempt := Attempt(at, x, reply);
      var tried := noted.(actuator := actuator, evidence := WithAttempt(noted.evidence, attempt, g.lastObserved));
      match reply
      case Ok(_) => Performed(tried, [Executed(attempt)], [], [])
      case Err(failure) =>
        var e := ActuationFailed(at, x.Kind(), failure);
        var d := Step(g.machine, e);
        Performed(tried.(machine := d.machine),
                  [Executed(attempt)] + Move(at, g.machine.state, d.machine.state), d.actions, [e])
  }

  /** Performing one action brings the end of the feedback closer. */
  lemma PerformDecreases<A>(exec: Actuator<A>, g: Engine<A>, at: Duration, pending: seq<Action>)
    requires pending != []
    ensures var p := Perform(exec, g, at, pending[0]);
            var next := pending[1..] + p.more;
            Unstarted(p.engine.machine) < Unstarted(g.machine)
            || (Unstarted(p.engine.machine) == Unstarted(g.machine)
                && (Weight(next) < Weight(pending) || (Weight(next) == Weight(pending) && |next| < |pending|)))
  {
    var p := Perform(exec, g, at, pending[0]);
    WeightOfConcat(pending[1..], p.more);
    match ActuationFor(pending[0])
    case None =>
    case Some(x) =>
      var reply := exec(g.actuator, at, x).1;
      if reply.Err? {
        FailureLowersRank(g.machine, at, x, reply.error);
      }
  }

  function Drain<A>(exec: Actuator<A>, g: Engine<A>, at: Duration, pending: seq<Action>): Handled<A>
    decreases Unstarted(g.machine), Weight(pending), |pending|
  {
    if pending == [] then
      Handled(g, [], [], [])
    else
      var p := Perform(exec, g, at, pending[0]);
      PerformDecreases(exec, g, at, pending);
      var r := Drain(exec, p.engine, at, pending[1..] + p.more);
      Handled(r.engine, [pending[0]] + r.decisions, p.effects + r.trace, p.fed + r.fed)
  }

  /** A valid sample is evidence about earlier attempts and the baseline of later ones. */
  function NoteSample<A>(g: Engine<A>, e: Event, initial: seq<Action>): Engine<A> {
    if RecordObservation in initial && e.Sample? then
      g.(evidence := g.evidence.(records := ObserveRecords(g.evidence.records, e.At(), e.sample.aggregateBytes)),
         lastObserved := e.sample.aggregateBytes)
    else g
  }

  function HandleEvent<A>(exec: Actuator<A>, g: Engine<A>, e: Event): Handled<A> {
    var d := Step(g.machine, e);
    var r := Drain(exec, NoteSample(g.(machine := d.machine), e, d.actions), e.At(), d.actions);
    r.(trace := Move(e.At(), g.machine.state, d.machine.state) + r.trace, fed := [e] + r.fed)
  }

  datatype Progress = ObserveUntil(deadlineAt: Option<Duration>) | GroupEmpty | TerminalSupervisorError

  // ---- The engine itself ----

  class InterventionEngine<A(!new)> {
    const policy: PolicyMachine
    const evidence: InterventionEvidence
    const exec: Actuator<A>
    var actuator: A
    var lastObserved: Option<u64>

    function View(): Engine<A>
      reads this, policy, evidence
    {
      Engine(policy.View(), actuator, evidence.View(), lastObserved)
    }

    constructor (policy: PolicyMachine, exec: Actuator<A>, actuator: A)
      ensures this.policy == policy && this.exec == exec && fresh(evidence)
      ensures View() == Engine(policy.View(), actuator, NO_EVIDENCE, None)
    {
      this.policy, this.exec, this.actuator, this.lastObserved := policy, exec, actuator, None;
      evidence := new InterventionEvidence();
    }

    /** Apply one event, execute what it selects, feed failures back, and return everything done. */
    method Handle(event: Event) returns (decisions: seq<Action>, trace: seq<Effect>)
      modifies this, policy, evidence
      ensures var h := HandleEvent(exec, old(View()), event);
              View() == h.engine && decisions == h.decisions && trace == h.trace
    {
      hide Step, Perform, ObserveRecords, Weight;
      var at := event.At();
      ghost var expected := HandleEvent(exec, View(), event);
      var previousState := policy.state;
      var pending := policy.Apply(event);
      trace := Move(at, previousState, policy.state);
      if RecordObservation in pending && event.Sample? {
        evidence.Observe(at, event.sample.aggregateBytes);
        lastObserved := event.sample.aggregateBytes;
      }
      decisions := [];
      while pending != []
        invariant var r := Drain(exec, View(), at, pending);
                  && r.engine == expected.engine
                  && decisions + r.decisions == expected.decisions
                  && trace + r.trace == expected.trace
        decreases Unstarted(policy.View()), Weight(pending), |pending|
      {
        PerformDecreases(exec, View(), at, pending);
        var action := pending[0];
        var effects, more := Execute(at, action);
        pending := pending[1..] + more;
        decisions := decisions + [action];
        trace := trace + effects;
      }
    }

    /** Carry out one action and report what its failure adds. */
    method Execute(at: Duration, action: Action) returns (effects: seq<Effect>, more: seq<Action>)
      modifies this, policy, evidence
      ensures var p := Perform(exec, old(View()), at, action);
              View() == p.engine && effects == p.effects && more == p.more
    {
      match action {
        case RecordOvershoot(bytes) => evidence.RecordOvershoot(bytes);
        case RequestCheckpoint(_, overshoot, _) => evidence.RecordOvershoot(overshoot);
        case _ =>
      }
      effects, more := [], [];
      var actuation := ActuationFor(action);
      if actuation.Some? {
        var (next, reply) := exec(actuator, at, actuation.value);
        actuator := next;
        var attempt := Attempt(at, actuation.value, reply);
        evidence.RecordAttempt(attempt, lastObserved);
        effects := [Executed(attempt)];
        if reply.Err? {
          var previousState := policy.state;
          more := policy.Apply(ActuationFailed(at, actuation.value.Kind(), reply.error));
          effects := effects + Move(at, previousState, policy.state);
        }
      }
    }

    /** One group-status observation: date an empty group on the evidence and stop, give up only in a supervisor error with
        no deadline left, and otherwise wait for the machine's own deadline. */
    method ObserveGroupStatus(at: Duration, groupExists: bool) returns (progress: Progress)
      modifies evidence
      ensures progress.GroupEmpty? <==> !groupExists
      ensures groupExists ==> View() == old(View())
      ensures !groupExists ==>
                && View() == old(View()).(evidence := old(View()).evidence.(records := evidence.records))
                && |evidence.records| == |old(evidence.records)|
                && forall k :: 0 <= k < |evidence.records| ==>
                     evidence.records[k] == DatedEmpty(old(evidence.records)[k], at)
      ensures progress.TerminalSupervisorError? <==>
                groupExists && policy.state.SupervisorError? && policy.termDeadline.None?
      ensures progress.ObserveUntil? ==> progress.deadlineAt == NextDeadline(policy.View())
    {
      if !groupExists {
        evidence.ObserveGroupEmpty(at);
        return GroupEmpty;
      }
      var deadline := NextDeadline(policy.View());
      if policy.state.SupervisorError? && deadline.None? {
        return TerminalSupervisorError;
      }
      return ObserveUntil(deadline);
    }
  }
}
