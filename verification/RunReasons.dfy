/** Why every signal of a run was sent: each record in its journal gives the reason of the event it answers. */
module RunReasons {
  import opened Common
  import opened Policy
  import opened PolicyRuns
  import opened Intervention
  import opened Cascades
  import opened ProcessActuator
  import opened Latches
  import opened Coherence
  import opened Reasons
  import opened Runtime
  import opened SignalRecords
  import opened RuntimeRuns
  import EngineEvidence
  import Report

  function Repeated(reason: Reason, n: nat): (r: seq<Reason>)
    ensures |r| == n && forall i :: 0 <= i < n ==> r[i] == reason
  {
    if n == 0 then [] else [reason] + Repeated(reason, n - 1)
  }

  /** The journal grew by signals that give these reasons. */
  ghost predicate WhyTold<X>(before: seq<Report.Entry<X>>, after: seq<Report.Entry<X>>, made: seq<Attempt>, why: seq<Reason>) {
    |why| == |made|
    && exists told: seq<Report.SignalRecord> ::
         ReasonsTold(told, made, why) && Report.SignalsOf(after) == Report.SignalsOf(before) + told
  }

  lemma WhyToldTwice<X>(a: seq<Report.Entry<X>>, b: seq<Report.Entry<X>>, c: seq<Report.Entry<X>>,
                        first: seq<Attempt>, v: seq<Reason>, next: seq<Attempt>, w: seq<Reason>)
    requires WhyTold(a, b, first, v) && WhyTold(b, c, next, w)
    ensures WhyTold(a, c, first + next, v + w)
  {
    hide ReasonsTold, Report.SignalsOf;
    var told :| ReasonsTold(told, first, v) && Report.SignalsOf(b) == Report.SignalsOf(a) + told;
    var more :| ReasonsTold(more, next, w) && Report.SignalsOf(c) == Report.SignalsOf(b) + more;
    ReasonsToldConcat(told, first, v, more, next, w);
    assert Report.SignalsOf(c) == Report.SignalsOf(a) + (told + more);
  }

  lemma NothingToldWhy<X>(before: seq<Report.Entry<X>>, after: seq<Report.Entry<X>>)
    requires Report.SignalsOf(after) == Report.SignalsOf(before)
    ensures WhyTold(before, after, [], [])
  {
    assert ReasonsTold([], [], []) && Report.SignalsOf(before) + [] == Report.SignalsOf(before);
  }

  /** The signals journaled for one event all give the event's own reason. */
  lemma ApplyTellsWhy<X>(c: Control<X>, e: Event, all: seq<Attempt>)
    requires Applicable(c, e, all) && |all| + 3 <= U64_MAX
    ensures var made := Attempts(HandleEvent(Execute, c.engine, e).trace);
            WhyTold(c.log, ApplyStep(c, e).log, made, Repeated(ReasonOfEvent(c.engine.machine, c.latches, e), |made|))
  {
    hide HandleEvent, Step, Execute, Coherent, ReadyFor, Cascades.Pending, EngineEvidence.EvidenceFits, Decided,
         ReasonsOf,
         NoteAttempts, Inv, ApplyStep, Coherently, ReasonOfEvent, TransitionLog, SignalLog, Report.SignalsOf, ReasonsTold;
    var h := HandleEvent(Execute, c.engine, e);
    var made := Attempts(h.trace);
    ReadyIsInv(c.engine.machine, c.engine.actuator, c.latches, e);
    ApplyKeeps(c, e, all);
    EventHasOneReason(c.engine.machine, c.engine.actuator, c.latches, c.negotiation.Ready?, e);
    HandleIsCascade(Execute, c.engine, e);
    var decided := Decided(c.latches, e, c.engine.machine.state, h.trace);
    var moves: seq<Report.Entry<X>> := TransitionLog(h.trace, ObservedValue(c.footprint));
    var signals: seq<Report.Entry<X>> := SignalLog(decided, c.negotiation.Ready?, made);
    LogTellsReasons<X>(decided, c.negotiation.Ready?, made);
    assert ReasonsOf(decided, c.negotiation.Ready?, made) == Repeated(ReasonOfEvent(c.engine.machine, c.latches, e), |made|);
    TransitionsTellNothing<X>(h.trace, ObservedValue(c.footprint));
    SignalsOfConcat(c.log, moves);
    SignalsOfConcat(c.log + moves, signals);
    assert Report.SignalsOf(c.log) + [] == Report.SignalsOf(c.log);
  }

  /** The reason each side effect of one input is recorded with: the reason of the event the machine was given. */
  ghost function StepWhy<X>(rt: Runtime<X>, i: Input<X>): (r: seq<Reason>)
    requires rt.sampler.config.historyCapacity > 0
    ensures |r| == |StepDoes(rt, i).made|
  {
    var m, l, n := rt.control.engine.machine, rt.control.latches, |StepDoes(rt, i).made|;
    match i
    case Happened(e) => Repeated(ReasonOfEvent(m, l, e), n)
    case Took(t) => Repeated(ReasonOfEvent(m, l, SampleInput(rt, t)), n)
    case Polled(at, handshake, read) =>
      var event := PollOf(Negotiate(rt.control, handshake), at, read).1;
      Repeated(if event.Some? then ReasonOfEvent(m, l, event.value) else None, n)
  }

  ghost function RunWhy<X>(start: Runtime<X>, inputs: seq<Input<X>>, k: nat): (r: seq<Reason>)
    requires k <= |inputs| && start.sampler.config.historyCapacity > 0
    ensures |r| == |RunDoes(start, inputs, k).made|
  {
    if k == 0 then [] else RunWhy(start, inputs, k - 1) + StepWhy(RunAfter(start, inputs, k - 1), inputs[k - 1])
  }

  lemma StepTellsWhy<X>(rt: Runtime<X>, i: Input<X>, all: seq<Attempt>)
    requires rt.sampler.config.historyCapacity > 0 && Permitted(i) && Coherently(rt.control, all) && |all| + 3 <= U64_MAX
    ensures WhyTold(rt.control.log, RunStep(rt, i).control.log, StepDoes(rt, i).made, StepWhy(rt, i))
  {
    hide ApplyStep, HandleEvent, PollStep, Coherently, Applicable, RetainStep, SampleInput, ReasonOfEvent, WhyTold;
    match i
    case Happened(e) =>
      LoopEventsAreReady(rt.control, e, all);
      ApplyTellsWhy(rt.control, e, all);
    case Took(t) =>
      RetainKeeps(rt, t, all);
      RetainIsQuiet(rt, t);
      RetainLatches(rt, t);
      ApplyTellsWhy(RetainStep(rt, t).control, SampleInput(rt, t), all);
      SameSignals(rt.control.log, RetainStep(rt, t).control.log, RunStep(rt, i).control.log, StepDoes(rt, i).made,
                  StepWhy(rt, i));
    case Polled(_, _, _) => PollTellsWhy(rt, i, all);
  }

  lemma SameSignals<X>(a: seq<Report.Entry<X>>, b: seq<Report.Entry<X>>, c: seq<Report.Entry<X>>, made: seq<Attempt>,
                       why: seq<Reason>)
    requires Report.SignalsOf(a) == Report.SignalsOf(b) && WhyTold(b, c, made, why)
    ensures WhyTold(a, c, made, why)
  {
  }

  lemma PollTellsWhy<X>(rt: Runtime<X>, i: Input<X>, all: seq<Attempt>)
    requires rt.sampler.config.historyCapacity > 0 && Coherently(rt.control, all) && |all| + 3 <= U64_MAX && i.Polled?
    ensures WhyTold(rt.control.log, RunStep(rt, i).control.log, StepDoes(rt, i).made, StepWhy(rt, i))
  {
    hide ApplyStep, HandleEvent, PollStep, Coherently, Applicable, PollOf, Negotiate, ReasonOfEvent, WhyTold;
    var c := rt.control;
    var n := Negotiate(c, i.handshake);
    PollStepIs(c, i.at, i.handshake, i.read);
    NegotiationKeeps(c, i.handshake, all);
    NothingToldWhy(c.log, n.log);
    if n.negotiation.Ready? && n.engine.machine.state.CheckpointRequested? {
      PollIsReady(n, i.at, i.read, all);
      var (p, event) := PollOf(n, i.at, i.read);
      NothingToldWhy(c.log, p.log);
      if event.Some? {
        ApplyTellsWhy(p, event.value, all);
        ArtifactGivesNoReason(c.engine.machine, c.latches, p.latches, event.value);
      }
    }
  }

  lemma ArtifactGivesNoReason(m: Machine, l: Latches, n: Latches, e: Event)
    requires n == l.(artifact := n.artifact)
    ensures ReasonOfEvent(m, n, e) == ReasonOfEvent(m, l, e)
  {
  }

  /** Every signal a run journals gives the reason of the event that made the run send it: the limit it
      breached, the observation it lost, what the world asked for, or the shutdown it escalates. */
  lemma {:induction false} RunTellsWhy<X>(start: Runtime<X>, inputs: seq<Input<X>>, k: nat)
    requires Fresh(start) && start.sampler.config.historyCapacity > 0
    requires k <= |inputs| && (forall i :: 0 <= i < |inputs| ==> Permitted(inputs[i]))
    requires 3 * |inputs| + 3 <= U64_MAX
    ensures WhyTold(start.control.log, RunAfter(start, inputs, k).control.log, RunDoes(start, inputs, k).made,
                    RunWhy(start, inputs, k))
    ensures ReasonsTold(Report.SignalsOf(RunAfter(start, inputs, k).control.log), RunDoes(start, inputs, k).made,
                        RunWhy(start, inputs, k))
  {
    hide RunStep, StepDoes, StepWhy, Coherently, Accounted, Untouched, Inv, ReasonsTold, Report.SignalsOf;
    if k == 0 {
      NothingToldWhy(start.control.log, start.control.log);
    } else {
      RunTellsWhy(start, inputs, k - 1);
      RunIsAccounted(start, inputs, k - 1);
      var rt, before := RunAfter(start, inputs, k - 1), RunDoes(start, inputs, k - 1);
      StepTellsWhy(rt, inputs[k - 1], before.made);
      WhyToldTwice(start.control.log, rt.control.log, RunAfter(start, inputs, k).control.log,
                   before.made, RunWhy(start, inputs, k - 1), StepDoes(rt, inputs[k - 1]).made, StepWhy(rt, inputs[k - 1]));
    }
    FromTheStart(start, RunAfter(start, inputs, k).control.log, RunDoes(start, inputs, k).made,
                 RunWhy(start, inputs, k));
  }

  lemma FromTheStart<X>(start: Runtime<X>, log: seq<Report.Entry<X>>, made: seq<Attempt>, why: seq<Reason>)
    requires Report.SignalsOf(start.control.log) == [] && WhyTold(start.control.log, log, made, why)
    ensures ReasonsTold(Report.SignalsOf(log), made, why)
  {
    hide ReasonsTold, Report.SignalsOf;
    var told :| ReasonsTold(told, made, why) && Report.SignalsOf(log) == Report.SignalsOf(start.control.log) + told;
    assert [] + told == told;
  }

  // ---- The labels over a run ----

  lemma ApplyMovesLabels<X>(c: Control<X>, e: Event, all: seq<Attempt>)
    requires Applicable(c, e, all) && |all| + 3 <= U64_MAX
    ensures var m := c.engine.machine;
            LabelsMove(m, c.latches, e, OpensIntervention(Transition(e.At(), m.state, Step(m, e).machine.state)),
                       Attempts(HandleEvent(Execute, c.engine, e).trace), ApplyStep(c, e).latches)
  {
    hide HandleEvent, Step, Execute, Coherent, ReadyFor, Cascades.Pending, EngineEvidence.EvidenceFits, Decided,
         ReasonsOf,
         NoteAttempts, Inv, ApplyStep, Coherently, LabelsMove;
    ReadyIsInv(c.engine.machine, c.engine.actuator, c.latches, e);
    ApplyKeeps(c, e, all);
    EventMovesLabels(c.engine.machine, c.engine.actuator, c.latches, c.negotiation.Ready?, e);
    HandleIsCascade(Execute, c.engine, e);
  }

  /** The event the machine is given for an input, if any. */
  ghost function Given<X>(rt: Runtime<X>, i: Input<X>): Option<Event>
    requires rt.sampler.config.historyCapacity > 0
  {
    match i
    case Happened(e) => Some(e)
    case Took(t) => Some(SampleInput(rt, t))
    case Polled(at, handshake, read) =>
      var c := Negotiate(rt.control, handshake);
      if !c.negotiation.Ready? || !c.engine.machine.state.CheckpointRequested? then None else PollOf(c, at, read).1
  }

  /** How one input moves the labels. */
  ghost predicate LabelsFollow<X>(rt: Runtime<X>, i: Input<X>, n: Runtime<X>)
    requires rt.sampler.config.historyCapacity > 0
  {
    var m, l := rt.control.engine.machine, rt.control.latches;
    match Given(rt, i)
    case None => n.control.latches.shutdown == l.shutdown && n.control.latches.cause == l.cause
    case Some(e) =>
      LabelsMove(m, l, e, OpensIntervention(Transition(e.At(), m.state, Step(m, e).machine.state)),
                 StepDoes(rt, i).made,
                 n.control.latches)
  }

  lemma StepMovesLabels<X>(rt: Runtime<X>, i: Input<X>, all: seq<Attempt>)
    requires rt.sampler.config.historyCapacity > 0 && Permitted(i) && Coherently(rt.control, all) && |all| + 3 <= U64_MAX
    ensures LabelsFollow(rt, i, RunStep(rt, i))
  {
    hide ApplyStep, HandleEvent, PollStep, Coherently, Applicable, RetainStep, SampleInput, Step, PollOf, Negotiate,
         LabelsMove;
    var c := rt.control;
    match i
    case Happened(e) =>
      LoopEventsAreReady(c, e, all);
      ApplyMovesLabels(c, e, all);
    case Took(t) =>
      RetainKeeps(rt, t, all);
      RetainIsQuiet(rt, t);
      RetainLatches(rt, t);
      ApplyMovesLabels(RetainStep(rt, t).control, SampleInput(rt, t), all);
    case Polled(at, handshake, read) =>
      var n := Negotiate(c, handshake);
      PollStepIs(c, at, handshake, read);
      NegotiationKeeps(c, handshake, all);
      if n.negotiation.Ready? && n.engine.machine.state.CheckpointRequested? {
        PollIsReady(n, at, read, all);
        var (p, event) := PollOf(n, at, read);
        if event.Some? {
          ApplyMovesLabels(p, event.value, all);
          ArtifactMovesNoLabel(c.engine.machine, c.latches, p.latches, event.value, StepDoes(rt, i).made,
                               RunStep(rt, i).control.latches);
        }
      }
  }

  lemma ArtifactMovesNoLabel(m: Machine, l: Latches, p: Latches, e: Event, made: seq<Attempt>, n: Latches)
    requires p == l.(artifact := p.artifact)
    ensures var left := OpensIntervention(Transition(e.At(), m.state, Step(m, e).machine.state));
            LabelsMove(m, p, e, left, made, n) <==> LabelsMove(m, l, e, left, made, n)
  {
    hide Step;
    ArtifactGivesNoReason(m, l, p, e);
    hide ReasonOfEvent;
  }

  /** At every input of every run: the shutdown's reason becomes that of the signals just sent, or of a received
      signal that could send none, and nothing else ever relabels it; the cause is latched once, by the limit that
      ended normal supervision. */
  lemma RunMovesLabels<X>(start: Runtime<X>, inputs: seq<Input<X>>, k: nat)
    requires Fresh(start) && start.sampler.config.historyCapacity > 0
    requires k < |inputs| && (forall i :: 0 <= i < |inputs| ==> Permitted(inputs[i]))
    requires 3 * |inputs| + 3 <= U64_MAX
    ensures LabelsFollow(RunAfter(start, inputs, k), inputs[k], RunAfter(start, inputs, k + 1))
  {
    hide RunStep, StepDoes, Coherently, Accounted, Fresh, LabelsFollow;
    RunIsAccounted(start, inputs, k);
    StepMovesLabels(RunAfter(start, inputs, k), inputs[k], RunDoes(start, inputs, k).made);
  }
}
