/** Runs of the loop that nothing disturbs: ticks before the wall limit, polls and samples. They stay
    untouched exactly while their samples are calm, so isolated spikes never stop a job. */
module QuietRuns {
  import opened Common
  import opened Policy
  import opened PolicyRuns
  import opened PolicyHistory
  import opened Intervention
  import opened Cascades
  import opened ProcessActuator
  import opened Runtime
  import opened SignalRecords
  import opened RuntimeRuns
  import opened RunTiming
  import Report

  /** The samples the policy decides on for the first `k` inputs. */
  ghost function PolicySamples<X>(start: Runtime<X>, inputs: seq<Input<X>>, k: nat): seq<SampleEvent>
    requires k <= |inputs| && start.sampler.config.historyCapacity > 0
  {
    if k == 0 then []
    else PolicySamples(start, inputs, k - 1)
         + if inputs[k - 1].Took? then [SampleInput(RunAfter(start, inputs, k - 1), inputs[k - 1].taken).sample] else []
  }

  /** Samples, polls, and ticks before the wall limit. */
  predicate QuietInput<X>(c: PolicyConfig, i: Input<X>) {
    i.Happened? ==> i.event.Tick? && !Due(c.wallTime, i.event.tickAt)
  }

  ghost predicate QuietRun<X>(start: Runtime<X>, inputs: seq<Input<X>>, config: PolicyConfig, seed: u64) {
    && Fresh(start) && start.sampler.config.historyCapacity > 0 && ValidConfig(config) && seed > 0
    && start.control.engine.machine == Enforcing(config, seed)
    && TimesOrdered(inputs) && 3 * |inputs| + 3 <= U64_MAX
    && forall i :: 0 <= i < |inputs| ==> QuietInput(config, inputs[i])
  }

  /** Nothing was attempted, and the machine was given the quiet inputs' own events only. */
  ghost predicate Untouched(config: PolicyConfig, does: Doings, samples: seq<SampleEvent>) {
    && does.made == [] && Undisturbed(config, does.fed, |does.fed|)
    && Samples(does.fed, |does.fed|) == samples
  }

  /** An event that leaves the machine live is all the machine is given for it. */
  lemma QuietStep(g: Engine<Supervised>, e: Event, total: Option<u64>)
    requires Inv(g.machine) && Live(Step(g.machine, e).machine)
    ensures Handling(g, e, total).made == [] && Handling(g, e, total).fed == [e]
  {
    hide Step, Inv, HandleEvent, Cascade;
    StepEscalates(g.machine, e);
    HandleIsCascade(Execute, g, e);
    var d := Step(g.machine, e);
    MoveTriesNothing(e.At(), g.machine.state, d.machine.state);
    TraceConcat(Move(e.At(), g.machine.state, d.machine.state), []);
  }

  lemma {:induction false} NeverLiveAgain(m: Machine, es: seq<Event>, k: nat)
    requires Inv(m) && k <= |es|
    requires !Live(m) || (k > 0 && !Live(Step(m, es[0]).machine))
    ensures !Live(After(m, es, k))
  {
    hide Step, Inv;
    if k == 1 {
      if !Live(m) && Live(Step(m, es[0]).machine) {
        UnsignalledBefore(m, es[0]);
      }
      assert After(m, es, 0) == m;
    } else if k > 1 {
      NeverLiveAgain(m, es, k - 1);
      RunKeepsInv(m, es, k - 1);
      if Live(After(m, es, k)) {
        UnsignalledBefore(After(m, es, k - 1), es[k - 1]);
      }
    }
  }

  /** One more event of a quiet run. */
  lemma QuietEvent(config: PolicyConfig, seed: u64, fed: seq<Event>, e: Event)
    requires ValidConfig(config) && seed > 0 && Undisturbed(config, fed, |fed|) && Harmless(config, e)
    requires fed != [] ==> fed[|fed| - 1].At() <= e.At()
    ensures var m := After(Enforcing(config, seed), fed, |fed|);
            var samples := Samples(fed, |fed|) + if e.Sample? then [e.sample] else [];
            && (Live(Step(m, e).machine) <==> Calm(config, samples))
            && Undisturbed(config, fed + [e], |fed + [e]|) && Samples(fed + [e], |fed + [e]|) == samples
  {
    hide Step, Calm, Harmless;
    var es := fed + [e];
    PrefixIndependent(Enforcing(config, seed), fed, [e], |fed|);
    SamplesOfPrefix(fed, [e], |fed|);
    UndisturbedPrefix(config, fed, e);
    UndisturbedNext(config, es, |fed|);
    StopsExactlyWhenNotCalm(config, seed, es, |es|);
  }

  lemma UndisturbedPrefix(config: PolicyConfig, fed: seq<Event>, e: Event)
    requires Undisturbed(config, fed, |fed|)
    ensures Undisturbed(config, fed + [e], |fed|)
  {
    assert forall i :: 0 <= i < |fed| ==> (fed + [e])[i] == fed[i];
  }

  /** What the machine is given for an input that gives it anything. */
  ghost function EventOf<X>(rt: Runtime<X>, i: Input<X>): Option<Event>
    requires rt.sampler.config.historyCapacity > 0
  {
    match i
    case Happened(e) => Some(e)
    case Took(t) => Some(SampleInput(rt, t))
    case Polled(_, _, _) => None
  }

  lemma LivePollDoesNothing<X>(rt: Runtime<X>, i: Input<X>, all: seq<Attempt>)
    requires rt.sampler.config.historyCapacity > 0 && Coherently(rt.control, all)
    requires i.Polled? && Live(rt.control.engine.machine)
    ensures StepDoes(rt, i) == NOTHING
  {
    hide Coherently, Negotiate;
    NegotiationKeeps(rt.control, i.handshake, all);
  }

  lemma EventDoes<X>(rt: Runtime<X>, i: Input<X>)
    requires rt.sampler.config.historyCapacity > 0 && Inv(rt.control.engine.machine) && !i.Polled?
    ensures var e := EventOf(rt, i).value;
            && e.At() == TimeOf(i) && StepDoes(rt, i).fed != [] && StepDoes(rt, i).fed[0] == e
            && (Live(Step(rt.control.engine.machine, e).machine) ==> StepDoes(rt, i).made == [] && StepDoes(rt, i).fed == [e])
  {
    hide Step, Inv, RetainStep, SampleInput;
    if i.Took? {
      RetainIsQuiet(rt, i.taken);
      SampleTime(rt, i.taken);
    }
    var g := if i.Took? then RetainStep(rt, i.taken).control.engine else rt.control.engine;
    var e := EventOf(rt, i).value;
    if Live(Step(rt.control.engine.machine, e).machine) {
      QuietStep(g, e, LatestTotal(if i.Took? then RetainStep(rt, i.taken) else rt));
    }
  }

  /** One input of a quiet run whose samples so far are calm. */
  lemma QuietInputKeeps<X>(start: Runtime<X>, inputs: seq<Input<X>>, k: nat, config: PolicyConfig, seed: u64)
    requires QuietRun(start, inputs, config, seed) && k < |inputs|
    requires Live(RunAfter(start, inputs, k).control.engine.machine)
    requires Calm(config, PolicySamples(start, inputs, k))
    requires Untouched(config, RunDoes(start, inputs, k), PolicySamples(start, inputs, k))
    ensures var samples := PolicySamples(start, inputs, k + 1);
            && (Live(RunAfter(start, inputs, k + 1).control.engine.machine) <==> Calm(config, samples))
            && (Calm(config, samples) ==> Untouched(config, RunDoes(start, inputs, k + 1), samples))
  {
    hide RunStep, StepDoes, Coherently, Calm, Step, Inv, SampleInput, Undisturbed, Harmless, TimesOrdered, FedFits,
         SignalsTold, MovesTold, IsPath, Calls;
    var rt, i, does := RunAfter(start, inputs, k), inputs[k], RunDoes(start, inputs, k);
    var m, fed := rt.control.engine.machine, does.fed;
    QuietIsPermitted(config, inputs);
    RunIsAccounted(start, inputs, k);
    RunStepKeeps(rt, i, does.made);
    RunKeepsInv(start.control.engine.machine, fed, |fed|);
    if i.Polled? {
      LivePollDoesNothing(rt, i, does.made);
      assert does.made + [] == does.made && fed + [] == fed;
      assert PolicySamples(start, inputs, k) + [] == PolicySamples(start, inputs, k);
      assert RunStep(rt, i).control.engine.machine == After(m, [], 0) == m;
    } else {
      EventDoes(rt, i);
      var e := EventOf(rt, i).value;
      RunFeedsInOrder(start, inputs, k);
      FedEndsBefore(fed, inputs, k);
      EventIsHarmless(rt, i, config);
      QuietEvent(config, seed, fed, e);
      if !Live(Step(m, e).machine) {
        NeverLiveAgain(m, StepDoes(rt, i).fed, |StepDoes(rt, i).fed|);
      } else {
        assert After(m, [e], 1) == Step(m, e).machine by {
          assert After(m, [e], 0) == m;
        }
      }
    }
  }

  lemma QuietIsPermitted<X>(config: PolicyConfig, inputs: seq<Input<X>>)
    requires forall i :: 0 <= i < |inputs| ==> QuietInput(config, inputs[i])
    ensures forall i :: 0 <= i < |inputs| ==> Permitted(inputs[i])
  {
    forall i | 0 <= i < |inputs| ensures Permitted(inputs[i]) {
      assert QuietInput(config, inputs[i]);
    }
  }

  lemma FedEndsBefore<X>(fed: seq<Event>, inputs: seq<Input<X>>, k: nat)
    requires k < |inputs| && TimesOrdered(inputs) && FedFits(fed, inputs, k)
    ensures fed != [] ==> fed[|fed| - 1].At() <= TimeOf(inputs[k])
  {
    if fed != [] {
      var last := fed[|fed| - 1];
      assert k > 0 && last.At() <= TimeOf(inputs[k - 1]);
      assert TimeOf(inputs[k - 1]) <= TimeOf(inputs[k]);
    }
  }

  lemma EventIsHarmless<X>(rt: Runtime<X>, i: Input<X>, config: PolicyConfig)
    requires rt.sampler.config.historyCapacity > 0 && QuietInput(config, i) && !i.Polled?
    ensures var e := EventOf(rt, i).value; Harmless(config, e) && (e.Sample? <==> i.Took?)
  {
  }

  /** An undisturbed run of the loop is untouched, with nothing attempted, if and only if the samples it
      decided on are calm: no emergency, no required run of breaches, no allowed run of unusable samples. */
  lemma {:induction false} QuietRunIsStoppedExactlyWhenNotCalm<X>(
    start: Runtime<X>, inputs: seq<Input<X>>, k: nat, config: PolicyConfig, seed: u64)
    requires QuietRun(start, inputs, config, seed) && k <= |inputs|
    ensures var samples := PolicySamples(start, inputs, k);
            && (Live(RunAfter(start, inputs, k).control.engine.machine) <==> Calm(config, samples))
            && (Calm(config, samples) ==> Untouched(config, RunDoes(start, inputs, k), samples))
  {
    hide RunStep, StepDoes, Calm, Step, Inv, SampleInput, Undisturbed, Harmless, TimesOrdered, Coherently;
    if k == 0 {
      NothingIsCalm(config, []);
    } else {
      QuietRunIsStoppedExactlyWhenNotCalm(start, inputs, k - 1, config, seed);
      var rt := RunAfter(start, inputs, k - 1);
      if Calm(config, PolicySamples(start, inputs, k - 1)) {
        QuietInputKeeps(start, inputs, k - 1, config, seed);
      } else {
        QuietIsPermitted(config, inputs);
        RunIsAccounted(start, inputs, k - 1);
        RunStepKeeps(rt, inputs[k - 1], RunDoes(start, inputs, k - 1).made);
        RunKeepsInv(start.control.engine.machine, RunDoes(start, inputs, k - 1).fed,
                    |RunDoes(start, inputs, k - 1).fed|);
        var fed := StepDoes(rt, inputs[k - 1]).fed;
        NeverLiveAgain(rt.control.engine.machine, fed, |fed|);
        StaysUncalm(start, inputs, k - 1, config);
      }
    }
  }

  lemma StaysUncalm<X>(start: Runtime<X>, inputs: seq<Input<X>>, k: nat, config: PolicyConfig)
    requires k < |inputs| && start.sampler.config.historyCapacity > 0 && !Calm(config, PolicySamples(start, inputs, k))
    ensures !Calm(config, PolicySamples(start, inputs, k + 1))
  {
    hide Calm, RunAfter, RecordedSample;
    var samples := PolicySamples(start, inputs, k);
    if inputs[k].Took? {
      CalmNext(config, samples, SampleInput(RunAfter(start, inputs, k), inputs[k].taken).sample);
    } else {
      assert samples + [] == samples;
    }
  }

  /** The promise to the user: when two or more breaches are required, a job that only spikes above the limit
      one sample at a time, below the emergency threshold, and whose measurements stay available, is never
      stopped: the run attempts nothing and its journal holds no signal. */
  lemma SpikingJobIsNeverStopped<X>(start: Runtime<X>, inputs: seq<Input<X>>, config: PolicyConfig, seed: u64)
    requires QuietRun(start, inputs, config, seed) && config.requiredBreachSamples >= 2
    requires var samples := PolicySamples(start, inputs, |inputs|);
             IsolatedSpikes(config, samples) && NeverBlind(config, samples) && NeverEmergency(config, samples)
    ensures Live(RunAfter(start, inputs, |inputs|).control.engine.machine)
    ensures RunDoes(start, inputs, |inputs|).made == []
    ensures Report.SignalsOf(RunAfter(start, inputs, |inputs|).control.log) == []
  {
    hide RunAfter, RunDoes, Calm, Undisturbed, IsolatedSpikes, NeverBlind, NeverEmergency, Inv, Coherently, SignalShape;
    SpikesAreCalm(config, PolicySamples(start, inputs, |inputs|));
    QuietRunIsStoppedExactlyWhenNotCalm(start, inputs, |inputs|, config, seed);
    QuietIsPermitted(config, inputs);
    RunIsCoherent(start, inputs, |inputs|);
  }
}
