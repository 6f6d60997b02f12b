/** The observing mode over whole runs: it never acts on its own, whatever it measures, and it gives up
    exactly when the allowed run of unusable samples is reached. */
module ObserveRuns {
  import opened Common
  import opened Policy
  import opened Actuations
  import opened PolicyRuns
  import opened PolicyHistory
  import opened Intervention
  import opened Cascades
  import opened InterventionRuns

  /** The machine observation starts with. */
  function Observer(age: Duration, window: Duration, maxMissing: u32): Machine {
    Machine(Observe, Observing, ObservingConfig(age, window, maxMissing), 0, 0, 1, None, None, None, None, 0, false)
  }

  /** Still only watching: nothing was sent, and no deadline is pending. */
  predicate Watching(m: Machine) {
    && m.mode.Observe? && !m.interventionStarted && m.config.wallTime.None? && m.config.checkpointTimeout.None?
    && m.activeRequestId.None? && m.checkpointDeadline.None? && m.termDeadline.None?
    && (m.state.Observing? || m.state.SupervisorError? || m.state.Exited?)
  }

  /** Somebody else asks for a signal, or a signal sent on their behalf has failed. */
  predicate AsksForSignal(e: Event) {
    e.ExternalSignal? || e.ActuationFailed?
  }

  predicate NobodyAsks(es: seq<Event>, k: nat)
    requires k <= |es|
  {
    forall i :: 0 <= i < k ==> !AsksForSignal(es[i])
  }

  lemma StepWatches(m: Machine, e: Event)
    requires Watching(m) && !AsksForSignal(e)
    ensures Watching(Step(m, e).machine) && Step(m, e).machine.config == m.config
    ensures ActuationsOf(Step(m, e).actions) == []
  {
    var actions := Step(m, e).actions;
    ActuationsOfTwo(actions);
  }

  /** Whatever it measures, whatever the clock, the root, the parent or the supervisor do: an observing
      machine selects no side effect until somebody asks for one. */
  lemma {:induction false} NeverActsOnItsOwn(age: Duration, window: Duration, maxMissing: u32, es: seq<Event>, k: nat)
    requires k <= |es| && NobodyAsks(es, k)
    ensures var m := Observer(age, window, maxMissing);
            Calls(m, es, k) == [] && Watching(After(m, es, k)) && After(m, es, k).config == m.config
  {
    hide Step, Watching;
    var m := Observer(age, window, maxMissing);
    if k == 0 {
      assert Watching(m) by { ObserverWatches(age, window, maxMissing); }
    } else {
      NeverActsOnItsOwn(age, window, maxMissing, es, k - 1);
      StepWatches(After(m, es, k - 1), es[k - 1]);
    }
  }

  lemma ObserverWatches(age: Duration, window: Duration, maxMissing: u32)
    ensures Watching(Observer(age, window, maxMissing))
  {
  }

  lemma {:induction false} DrainIsQuiet<A>(exec: Actuator<A>, g: Engine<A>, at: Duration, pending: seq<Action>)
    requires ActuationsOf(pending) == []
    ensures var r := Drain(exec, g, at, pending);
            r.trace == [] && r.fed == [] && r.engine.machine == g.machine && r.engine.actuator == g.actuator
    decreases |pending|
  {
    hide Step;
    if pending != [] {
      assert pending[1..] + [] == pending[1..];
      DrainIsQuiet(exec, Perform(exec, g, at, pending[0]).engine, at, pending[1..]);
    }
  }

  /** The same under the engine, whatever the actuator would do: it is never called. */
  lemma {:induction false} EngineNeverActs<A>(exec: Actuator<A>, g: Engine<A>, es: seq<Event>, k: nat)
    requires Watching(g.machine) && k <= |es| && NobodyAsks(es, k)
    ensures var r := RunEngine(exec, g, es, k);
            Tried(r.trace) == [] && r.engine.actuator == g.actuator && Watching(r.engine.machine)
  {
    hide Step, Watching;
    if k > 0 {
      EngineNeverActs(exec, g, es, k - 1);
      var p, e := RunEngine(exec, g, es, k - 1), es[k - 1];
      var d := Step(p.engine.machine, e);
      StepWatches(p.engine.machine, e);
      DrainIsQuiet(exec, NoteSample(p.engine.(machine := d.machine), e, d.actions), e.At(), d.actions);
      MoveTriesNothing(e.At(), p.engine.machine.state, d.machine.state);
      assert Move(e.At(), p.engine.machine.state, d.machine.state) + [] == Move(e.At(), p.engine.machine.state, d.machine.state);
      TraceConcat(p.trace, HandleEvent(exec, p.engine, e).trace);
    }
  }

  /** Samples and ticks in time order. */
  ghost predicate OnlyMeasures(es: seq<Event>) {
    Ordered(es) && forall i :: 0 <= i < |es| ==> es[i].Sample? || es[i].Tick?
  }

  /** The history has ended, at some point, in a run of unusable samples of the allowed length. */
  predicate WentBlind(c: PolicyConfig, history: seq<SampleEvent>) {
    exists k :: 0 < k <= |history| && LastUnusable(c, history[..k], Max(c.maxMissingSamples, 1))
  }

  lemma BlindNext(c: PolicyConfig, history: seq<SampleEvent>, s: SampleEvent)
    ensures WentBlind(c, history + [s]) <==>
              WentBlind(c, history) || LastUnusable(c, history + [s], Max(c.maxMissingSamples, 1))
  {
    hide LastUnusable;
    var more := history + [s];
    assert more[..|more|] == more;
    assert forall k :: 0 < k <= |history| ==> more[..k] == history[..k];
  }

  /** What an observing machine remembers of its samples. */
  ghost predicate Watched(m: Machine, c: PolicyConfig, history: seq<SampleEvent>) {
    && Watching(m) && m.config == c && !m.state.Exited?
    && (m.state.SupervisorError? <==> WentBlind(c, history))
    && (m.state.Observing? ==> MissingRun(c, history, m.missingStreak) && m.missingStreak < Max(c.maxMissingSamples, 1))
  }

  /** A sample that measures is recorded; one that does not is counted, and ends the observation when it
      completes the allowed run, once. */
  lemma SampleIsWatched(m: Machine, c: PolicyConfig, history: seq<SampleEvent>, s: SampleEvent)
    requires Watched(m, c, history) && !ClockRegressed(m, s.processedAt)
    ensures var d := Step(m, Sample(s));
            && Watched(d.machine, c, history + [s])
            && d.actions == if Usable(c, s) then [RecordObservation]
                            else if d.machine.state.SupervisorError? && m.state.Observing? then [RecordMissing, StopObserving]
                            else [RecordMissing]
  {
    BlindNext(c, history, s);
    hide WentBlind;
    if m.state.Observing? {
      MissingRunNext(c, history, m.missingStreak, s);
      MissingReaches(c, history + [s], if Usable(c, s) then 0 else m.missingStreak + 1, Max(c.maxMissingSamples, 1));
    }
    hide LastUnusable, MissingRun;
  }

  lemma TickIsWatched(m: Machine, c: PolicyConfig, history: seq<SampleEvent>, at: Duration)
    requires Watched(m, c, history) && !ClockRegressed(m, at)
    ensures Watched(Step(m, Tick(at)).machine, c, history) && Step(m, Tick(at)).actions == []
  {
    hide WentBlind, MissingRun;
  }

  lemma {:induction false} ClockFollows(m: Machine, es: seq<Event>, k: nat)
    requires m.lastEventAt.None? && m.state.Observing? && OnlyMeasures(es) && k <= |es|
    requires forall i :: 0 <= i <= k ==> !After(m, es, i).state.Exited?
    ensures After(m, es, k).lastEventAt == if k == 0 then None else Some(es[k - 1].At())
  {
    hide Step;
    if k > 0 {
      ClockFollows(m, es, k - 1);
      assert k > 1 ==> es[k - 2].At() <= es[k - 1].At();
      ClockMoves(After(m, es, k - 1), es[k - 1]);
    }
  }

  lemma ClockMoves(m: Machine, e: Event)
    requires !m.state.Exited? && !e.ProcessExited? && !ClockRegressed(m, e.At())
    ensures Step(m, e).machine.lastEventAt == Some(e.At())
  {
  }

  lemma {:induction false} ObserverRemembers(age: Duration, window: Duration, maxMissing: u32, es: seq<Event>, k: nat)
    requires OnlyMeasures(es) && k <= |es|
    ensures var m := Observer(age, window, maxMissing);
            forall i :: 0 <= i <= k ==> Watched(After(m, es, i), m.config, Samples(es, i))
  {
    hide Step, Watched;
    var m := Observer(age, window, maxMissing);
    if k == 0 {
      assert Watched(m, m.config, []) by { NothingWatched(age, window, maxMissing); }
    } else {
      ObserverRemembers(age, window, maxMissing, es, k - 1);
      var before := After(m, es, k - 1);
      assert Watched(before, m.config, Samples(es, k - 1));
      NeverExits(m, es, k - 1);
      ClockFollows(m, es, k - 1);
      assert k > 1 ==> es[k - 2].At() <= es[k - 1].At();
      match es[k - 1]
      case Sample(s) => SampleIsWatched(before, m.config, Samples(es, k - 1), s);
      case Tick(at) =>
        TickIsWatched(before, m.config, Samples(es, k - 1), at);
        assert Samples(es, k - 1) + [] == Samples(es, k - 1);
    }
  }

  lemma NeverExits(m: Machine, es: seq<Event>, k: nat)
    requires k <= |es| && forall i :: 0 <= i <= k ==> Watched(After(m, es, i), m.config, Samples(es, i))
    ensures forall i :: 0 <= i <= k ==> !After(m, es, i).state.Exited?
  {
    hide WentBlind, MissingRun, After, Samples;
  }

  lemma NothingWatched(age: Duration, window: Duration, maxMissing: u32)
    ensures var m := Observer(age, window, maxMissing); Watched(m, m.config, [])
  {
  }

  /** Over samples and ticks in time order, observation is given up exactly when some run of unusable samples
      has reached the allowed length, and no total however large has any part in it. */
  lemma GivesUpExactlyWhenBlind(age: Duration, window: Duration, maxMissing: u32, es: seq<Event>, k: nat)
    requires OnlyMeasures(es) && k <= |es|
    ensures var m := Observer(age, window, maxMissing);
            && (After(m, es, k).state.SupervisorError? <==> WentBlind(m.config, Samples(es, k)))
            && (After(m, es, k).state.Observing? <==> !WentBlind(m.config, Samples(es, k)))
  {
    hide After, Samples, WentBlind, MissingRun;
    ObserverRemembers(age, window, maxMissing, es, k);
    var m := Observer(age, window, maxMissing);
    assert Watched(After(m, es, k), m.config, Samples(es, k));
  }
}
