/** The escalation bounds on runs of the runtime itself: its inputs, polls and samples, the real
    actuator, and the failures fed back. */
module RunTiming {
  import opened Common
  import opened Policy
  import opened PolicyRuns
  import opened InterventionRuns
  import opened EscalationTiming
  import opened Runtime
  import opened RuntimeRuns

  ghost predicate TimesOrdered<X>(inputs: seq<Input<X>>) {
    forall i, j :: 0 <= i < j < |inputs| ==> TimeOf(inputs[i]) <= TimeOf(inputs[j])
  }

  ghost predicate LoopTicksWithin<X>(inputs: seq<Input<X>>, from: int, gap: nat) {
    exists k :: 0 <= k < |inputs| && inputs[k].Happened? && inputs[k].event.Tick? && from <= TimeOf(inputs[k]) <= from + gap
  }

  /** The loop ticks in every stretch of `gap` from its first input until a time. */
  ghost predicate LoopTicksUntil<X>(inputs: seq<Input<X>>, gap: nat, until: int) {
    |inputs| > 0 && forall from :: TimeOf(inputs[0]) <= from && from + gap <= until ==> LoopTicksWithin(inputs, from, gap)
  }

  /** The events fed to the machine by the first `k` inputs: ordered, within their times, and keeping
      every event that happened. */
  ghost predicate FedFits<X>(fed: seq<Event>, inputs: seq<Input<X>>, k: nat)
    requires k <= |inputs|
  {
    && Ordered(fed)
    && (forall x :: 0 <= x < |fed| ==> k > 0 && TimeOf(inputs[0]) <= fed[x].At() <= TimeOf(inputs[k - 1]))
    && (forall i :: 0 <= i < k && inputs[i].Happened? ==> inputs[i].event in fed)
  }

  lemma FedFitsNext<X>(fed: seq<Event>, more: seq<Event>, inputs: seq<Input<X>>, k: nat)
    requires k < |inputs| && TimesOrdered(inputs) && FedFits(fed, inputs, k)
    requires forall x :: 0 <= x < |more| ==> more[x].At() == TimeOf(inputs[k])
    requires inputs[k].Happened? ==> inputs[k].event in more
    ensures FedFits(fed + more, inputs, k + 1)
  {
    assert k > 0 ==> TimeOf(inputs[k - 1]) <= TimeOf(inputs[k]);
    assert k > 0 ==> TimeOf(inputs[0]) <= TimeOf(inputs[k]);
    OrderedConcat(fed, more, TimeOf(inputs[k]));
  }

  lemma {:induction false} RunFeedsInOrder<X>(start: Runtime<X>, inputs: seq<Input<X>>, k: nat)
    requires Fresh(start) && start.sampler.config.historyCapacity > 0 && TimesOrdered(inputs)
    requires k <= |inputs| && (forall i :: 0 <= i < |inputs| ==> Permitted(inputs[i]))
    requires 3 * |inputs| + 3 <= U64_MAX
    ensures FedFits(RunDoes(start, inputs, k).fed, inputs, k)
  {
    hide RunStep, StepDoes, Coherently, Accounted, Fresh, FedFits, TimesOrdered;
    if k == 0 {
      NothingFed(inputs);
    } else {
      RunFeedsInOrder(start, inputs, k - 1);
      RunIsAccounted(start, inputs, k - 1);
      var rt := RunAfter(start, inputs, k - 1);
      RunStepKeeps(rt, inputs[k - 1], RunDoes(start, inputs, k - 1).made);
      FedFitsNext(RunDoes(start, inputs, k - 1).fed, StepDoes(rt, inputs[k - 1]).fed, inputs, k - 1);
    }
  }

  lemma NothingFed<X>(inputs: seq<Input<X>>)
    ensures FedFits([], inputs, 0)
  {
  }

  lemma FedTicks<X>(fed: seq<Event>, inputs: seq<Input<X>>, gap: nat, until: int)
    requires FedFits(fed, inputs, |inputs|) && LoopTicksUntil(inputs, gap, until) && fed != []
    ensures TicksUntil(fed, gap, until)
  {
    forall from | fed[0].At() <= from && from + gap <= until ensures TickWithin(fed, from, gap) {
      assert LoopTicksWithin(inputs, from, gap);
      var k :| 0 <= k < |inputs| && inputs[k].Happened? && inputs[k].event.Tick? && from <= TimeOf(inputs[k]) <= from + gap;
      var x :| 0 <= x < |fed| && fed[x] == inputs[k].event;
    }
  }

  /** Whatever the world, the worker and the system do: in a run whose inputs come in time order and whose
      loop ticks in every gap, a checkpoint request settles (KILL requested, exit observed or supervisor
      error reported) within timeout, grace and two gaps, and a TERM or forwarded signal within grace and
      one gap, if the loop goes on that long. */
  lemma RunEscalationIsBounded<X>(start: Runtime<X>, inputs: seq<Input<X>>, i: nat, gap: nat, until: int) returns (j: nat)
    requires Fresh(start) && start.sampler.config.historyCapacity > 0 && start.control.engine.machine.lastEventAt.None?
    requires TimesOrdered(inputs) && (forall k :: 0 <= k < |inputs| ==> Permitted(inputs[k]))
    requires 3 * |inputs| + 3 <= U64_MAX && LoopTicksUntil(inputs, gap, until)
    requires var m, fed := start.control.engine.machine, RunDoes(start, inputs, |inputs|).fed;
             && i < |fed| && (OpensTerm(Out(m, fed, i)) || OpensCheckpoint(Out(m, fed, i)))
             && fed[i].At() + TimeToSettle(m.config, Out(m, fed, i), gap) <= until
    ensures var m, fed := start.control.engine.machine, RunDoes(start, inputs, |inputs|).fed;
            && i < j < |fed| && Settled(Out(m, fed, j))
            && fed[j].At() <= fed[i].At() + TimeToSettle(m.config, Out(m, fed, i), gap)
  {
    hide RunDoes, Out, OpensTerm, OpensCheckpoint, Settled, TicksUntil, TimeToSettle, Inv;
    var m, fed := start.control.engine.machine, RunDoes(start, inputs, |inputs|).fed;
    RunFeedsInOrder(start, inputs, |inputs|);
    FedTicks(fed, inputs, gap, until);
    j := OpeningIsBounded(m, fed, i, gap, until);
  }
}
