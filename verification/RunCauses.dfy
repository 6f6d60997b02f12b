/** Why and when a run of the loop does what it does: every side effect it attempts, through the real
    actuator, has its documented cause among the events it met and the failures fed back, at the attempt's
    own time. */
module RunCauses {
  import opened Common
  import opened Policy
  import opened Actuations
  import opened PolicyRuns
  import opened Intervention
  import opened InterventionRuns
  import opened EscalationTiming
  import opened SignalCauses
  import opened Cascades
  import opened Runtime
  import opened SignalRecords
  import opened RuntimeRuns
  import opened RunTiming
  import RunReports

  /** The attempt was selected for event `j`, at that event's time. */
  ghost predicate SelectedAt(m: Machine, fed: seq<Event>, j: nat, a: Attempt) {
    j < |fed| && a.action in ActuationsOf(Out(m, fed, j)) && fed[j].At() == a.requestedAt
  }

  ghost predicate AllSelected(m: Machine, does: Doings) {
    forall a :: a in does.made ==> exists j: nat :: SelectedAt(m, does.fed, j, a)
  }

  lemma OutConcat(m: Machine, xs: seq<Event>, ys: seq<Event>, j: nat)
    requires j < |xs| + |ys|
    ensures Out(m, xs + ys, j) == if j < |xs| then Out(m, xs, j) else Out(After(m, xs, |xs|), ys, j - |xs|)
  {
    hide Step, After;
    if j < |xs| {
      PrefixIndependent(m, xs, ys, j);
    } else {
      RunConcat(m, xs, ys, j - |xs|);
    }
  }

  lemma SelectedTwice(m: Machine, first: Doings, next: Doings)
    requires AllSelected(m, first) && AllSelected(After(m, first.fed, |first.fed|), next)
    ensures AllSelected(m, Then(first, next))
  {
    hide After, Out, ActuationsOf;
    var n := After(m, first.fed, |first.fed|);
    forall a | a in first.made + next.made ensures exists j: nat :: SelectedAt(m, first.fed + next.fed, j, a) {
      if a in first.made {
        var j: nat :| SelectedAt(m, first.fed, j, a);
        OutConcat(m, first.fed, next.fed, j);
        assert SelectedAt(m, first.fed + next.fed, j, a);
      } else {
        var j: nat :| SelectedAt(n, next.fed, j, a);
        OutConcat(m, first.fed, next.fed, |first.fed| + j);
        assert SelectedAt(m, first.fed + next.fed, |first.fed| + j, a);
      }
    }
  }

  /** One input's attempts are made at its time. */
  lemma StepMadeAt<X>(rt: Runtime<X>, i: Input<X>, all: seq<Attempt>)
    requires rt.sampler.config.historyCapacity > 0 && Coherently(rt.control, all)
    ensures forall k :: 0 <= k < |StepDoes(rt, i).made| ==> StepDoes(rt, i).made[k].requestedAt == TimeOf(i)
  {
    hide HandleEvent, RetainStep, SampleInput, PollOf, Negotiate, Attempts;
    CoherentlyInv(rt.control, all);
    match i
    case Happened(e) => RunReports.HandledAt(rt.control.engine, e);
    case Took(t) =>
      RetainKeeps(rt, t, all);
      RetainIsQuiet(rt, t);
      RunReports.HandledAt(RetainStep(rt, t).control.engine, SampleInput(rt, t));
    case Polled(at, handshake, read) =>
      NegotiationKeeps(rt.control, handshake, all);
      var c := Negotiate(rt.control, handshake);
      if c.negotiation.Ready? && c.engine.machine.state.CheckpointRequested? {
        PollIsReady(c, at, read, all);
        var (n, event) := PollOf(c, at, read);
        if event.Some? {
          RunReports.HandledAt(n.engine, event.value);
        }
      }
  }

  lemma MadeIsCalled(made: seq<Attempt>, a: Attempt)
    requires a in made
    ensures a.action in Actions(made)
  {
    if made[0] != a {
      MadeIsCalled(made[1..], a);
    }
  }

  lemma StepSelectsAll<X>(rt: Runtime<X>, i: Input<X>, all: seq<Attempt>)
    requires rt.sampler.config.historyCapacity > 0 && Permitted(i)
    requires Coherently(rt.control, all) && FootprintFits(rt) && |all| + 3 <= U64_MAX
    ensures AllSelected(rt.control.engine.machine, StepDoes(rt, i))
  {
    hide StepDoes, RunStep, Coherently, Out, Calls, After, ActuationsOf, FootprintFits, SignalsTold, MovesTold,
         IsPath, Actions;
    var m, does := rt.control.engine.machine, StepDoes(rt, i);
    RunStepKeeps(rt, i, all);
    StepMadeAt(rt, i, all);
    forall a | a in does.made ensures exists j: nat :: SelectedAt(m, does.fed, j, a) {
      MadeIsCalled(does.made, a);
      var j := CallIsSelected(m, does.fed, |does.fed|, a.action);
      assert SelectedAt(m, does.fed, j, a);
    }
  }

  lemma {:induction false} RunSelectsAll<X>(start: Runtime<X>, inputs: seq<Input<X>>, k: nat)
    requires Fresh(start) && start.sampler.config.historyCapacity > 0
    requires k <= |inputs| && (forall i :: 0 <= i < |inputs| ==> Permitted(inputs[i]))
    requires 3 * |inputs| + 3 <= U64_MAX
    ensures AllSelected(start.control.engine.machine, RunDoes(start, inputs, k))
  {
    hide RunStep, StepDoes, Coherently, Fresh, AllSelected, FootprintFits, SignalsTold, MovesTold, IsPath, Calls, After;
    if k == 0 {
      assert AllSelected(start.control.engine.machine, NOTHING) by { NothingSelected(start.control.engine.machine); }
    } else {
      RunSelectsAll(start, inputs, k - 1);
      RunIsAccounted(start, inputs, k - 1);
      var rt := RunAfter(start, inputs, k - 1);
      StepSelectsAll(rt, inputs[k - 1], RunDoes(start, inputs, k - 1).made);
      SelectedTwice(start.control.engine.machine, RunDoes(start, inputs, k - 1), StepDoes(rt, inputs[k - 1]));
    }
  }

  lemma NothingSelected(m: Machine)
    ensures AllSelected(m, NOTHING)
  {
  }

  /** Everything a run attempts, from an unopened machine and with its inputs in time order, whatever the
      world, the worker and the system do, was selected at its own time for an event that is its documented
      cause: never a KILL at a tick before the grace of an earlier TERM or forwarded signal has passed, never
      a TERM for silence before the checkpoint's timeout, and never a checkpoint before a limit was reached. */
  lemma EveryAttemptIsCaused<X>(start: Runtime<X>, inputs: seq<Input<X>>, a: Attempt) returns (j: nat)
    requires Fresh(start) && Unopened(start.control.engine.machine) && start.sampler.config.historyCapacity > 0
    requires TimesOrdered(inputs) && (forall i :: 0 <= i < |inputs| ==> Permitted(inputs[i]))
    requires 3 * |inputs| + 3 <= U64_MAX && a in RunDoes(start, inputs, |inputs|).made
    ensures var m, fed := start.control.engine.machine, RunDoes(start, inputs, |inputs|).fed;
            SelectedAt(m, fed, j, a) && Caused(m, fed, j, a.action)
  {
    hide RunDoes, Out, ActuationsOf, Caused, Fresh, Unopened, TimesOrdered;
    var m, fed := start.control.engine.machine, RunDoes(start, inputs, |inputs|).fed;
    RunSelectsAll(start, inputs, |inputs|);
    RunFeedsInOrder(start, inputs, |inputs|);
    var selecting: nat :| SelectedAt(m, fed, selecting, a);
    j := selecting;
    EverySideEffectIsCaused(m, fed, j, a.action);
  }

  /** In particular, a job is killed at a tick only after the grace of a TERM or a forwarded signal that was
      selected for it before. */
  lemma KillWaitsForGrace<X>(start: Runtime<X>, inputs: seq<Input<X>>, j: nat) returns (i: nat)
    requires Fresh(start) && Unopened(start.control.engine.machine) && start.sampler.config.historyCapacity > 0
    requires TimesOrdered(inputs) && (forall k :: 0 <= k < |inputs| ==> Permitted(inputs[k]))
    requires 3 * |inputs| + 3 <= U64_MAX
    requires var fed := RunDoes(start, inputs, |inputs|).fed;
             j < |fed| && fed[j].Tick? && SendKill in Out(start.control.engine.machine, fed, j)
    ensures var m, fed := start.control.engine.machine, RunDoes(start, inputs, |inputs|).fed;
            i < j && OpensTerm(Out(m, fed, i)) && fed[j].At() >= Min(fed[i].At() + m.config.termGrace, DURATION_MAX)
  {
    hide RunDoes, Out, Fresh, Unopened, TimesOrdered, OpensTerm;
    RunFeedsInOrder(start, inputs, |inputs|);
    i := SignalCauses.KillWaitsForGrace(start.control.engine.machine, RunDoes(start, inputs, |inputs|).fed, j);
  }
}
