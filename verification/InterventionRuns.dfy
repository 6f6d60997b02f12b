/** Whole runs of the intervention engine: they are runs of the policy machine on the events and the
    failures fed back, whatever the actuator does. */
module InterventionRuns {
  import opened Common
  import opened Policy
  import opened Actuations
  import opened PolicyRuns
  import opened Intervention
  import opened Cascades

  /** Running `e` and then `es`. */
  lemma {:induction false} RunCons(m: Machine, e: Event, es: seq<Event>, k: nat)
    requires k <= |es|
    ensures After(m, [e] + es, k + 1) == After(Step(m, e).machine, es, k)
    ensures Calls(m, [e] + es, k + 1) == ActuationsOf(Step(m, e).actions) + Calls(Step(m, e).machine, es, k)
  {
    hide Step;
    if k == 0 {
      assert After(m, [e] + es, 1) == Step(After(m, [e] + es, 0), e).machine;
      assert Calls(m, [e] + es, 1) == Calls(m, [e] + es, 0) + ActuationsOf(Out(m, [e] + es, 0));
    } else {
      RunCons(m, e, es, k - 1);
      assert ([e] + es)[k] == es[k - 1];
    }
  }

  lemma {:induction false} RunConcat(m: Machine, xs: seq<Event>, ys: seq<Event>, k: nat)
    requires k <= |ys|
    ensures After(m, xs + ys, |xs| + k) == After(After(m, xs, |xs|), ys, k)
    ensures Calls(m, xs + ys, |xs| + k) == Calls(m, xs, |xs|) + Calls(After(m, xs, |xs|), ys, k)
  {
    hide Step;
    if k == 0 {
      PrefixIndependent(m, xs, ys, |xs|);
    } else {
      RunConcat(m, xs, ys, k - 1);
      assert (xs + ys)[|xs| + k - 1] == ys[k - 1];
    }
  }

  lemma RunOne(m: Machine, e: Event)
    ensures After(m, [e], 1) == Step(m, e).machine
    ensures Calls(m, [e], 1) == ActuationsOf(Step(m, e).actions)
  {
    hide Step;
    assert [e] + [] == [e];
    RunCons(m, e, [], 0);
  }

  lemma NoCalls(m: Machine)
    ensures Calls(m, [], 0) == []
  {
  }

  lemma OneTried(attempt: Attempt)
    ensures Tried([Executed(attempt)]) == [attempt.action]
  {
  }

  /** A cascade runs the machine on exactly the failures it feeds back, and tries what that run selects. */
  lemma {:induction false} CascadeIsPolicyRun<A>(exec: Actuator<A>, m: Machine, a: A, at: Duration, x: Actuation)
    requires Inv(m)
    ensures var c := Cascade(exec, m, a, at, x);
            && c.machine == After(m, c.fed, |c.fed|) && Inv(c.machine)
            && Tried(c.trace) == [x] + Calls(m, c.fed, |c.fed|)
            && forall i :: 0 <= i < |c.fed| ==> c.fed[i].At() == at
    decreases Unstarted(m), Rank(x)
  {
    hide Step, Inv, Escalates, Calls, Tried;
    var (actuator, reply) := exec(a, at, x);
    var attempt := Attempt(at, x, reply);
    OneTried(attempt);
    NoCalls(m);
    if reply.Err? {
      var e := ActuationFailed(at, x.Kind(), reply.error);
      var d := Answered(m, at, x, reply.error);
      var tried := ActuationsOf(d.actions);
      StepKeepsInv(m, e);
      FailureLowersRank(m, at, x, reply.error);
      AnswerIsOne(m, at, x, reply.error);
      MoveTriesNothing(at, m.state, d.machine.state);
      TraceConcat([Executed(attempt)], Move(at, m.state, d.machine.state));
      if tried == [] {
        RunOne(m, e);
      } else {
        var next := Cascade(exec, d.machine, actuator, at, tried[0]);
        CascadeIsPolicyRun(exec, d.machine, actuator, at, tried[0]);
        TraceConcat([Executed(attempt)] + Move(at, m.state, d.machine.state), next.trace);
        RunCons(m, e, next.fed, |next.fed|);
        assert tried == [tried[0]];
      }
    }
  }

  /** Handling an event is a policy run on the event followed by its fed-back failures. */
  lemma HandleIsPolicyRun<A>(exec: Actuator<A>, g: Engine<A>, e: Event)
    requires Inv(g.machine)
    ensures var h := HandleEvent(exec, g, e);
            && h.engine.machine == After(g.machine, h.fed, |h.fed|) && Inv(h.engine.machine)
            && Tried(h.trace) == Calls(g.machine, h.fed, |h.fed|)
            && |h.fed| > 0 && h.fed[0] == e
            && forall i :: 0 <= i < |h.fed| ==> h.fed[i].At() == e.At()
  {
    hide Step, Inv, HandleEvent, Cascade, Escalates;
    var d := Step(g.machine, e);
    var tried := ActuationsOf(d.actions);
    StepKeepsInv(g.machine, e);
    HandleIsCascade(exec, g, e);
    var c := Pending(exec, d.machine, g.actuator, e.At(), tried);
    MoveTriesNothing(e.At(), g.machine.state, d.machine.state);
    TraceConcat(Move(e.At(), g.machine.state, d.machine.state), c.trace);
    RunCons(g.machine, e, c.fed, |c.fed|);
    if tried != [] {
      CascadeIsPolicyRun(exec, d.machine, g.actuator, e.At(), tried[0]);
      assert tried == [tried[0]];
    }
  }

  /** The engine after the first `k` events, with everything it did so far. */
  function RunEngine<A>(exec: Actuator<A>, g: Engine<A>, es: seq<Event>, k: nat): Handled<A>
    requires k <= |es|
  {
    if k == 0 then Handled(g, [], [], [])
    else
      var p := RunEngine(exec, g, es, k - 1);
      var h := HandleEvent(exec, p.engine, es[k - 1]);
      Handled(h.engine, p.decisions + h.decisions, p.trace + h.trace, p.fed + h.fed)
  }

  lemma {:induction false} EngineRunIsPolicyRun<A>(exec: Actuator<A>, g: Engine<A>, es: seq<Event>, k: nat)
    requires Inv(g.machine) && k <= |es|
    ensures var r := RunEngine(exec, g, es, k);
            && r.engine.machine == After(g.machine, r.fed, |r.fed|) && Inv(r.engine.machine)
            && Tried(r.trace) == Calls(g.machine, r.fed, |r.fed|)
  {
    hide Step, Inv, HandleEvent;
    if k > 0 {
      EngineRunIsPolicyRun(exec, g, es, k - 1);
      var p := RunEngine(exec, g, es, k - 1);
      HandleIsPolicyRun(exec, p.engine, es[k - 1]);
      var h := HandleEvent(exec, p.engine, es[k - 1]);
      RunConcat(g.machine, p.fed, h.fed, |h.fed|);
      TraceConcat(p.trace, h.trace);
    }
  }

  /** For every event sequence and every actuator, the calls an enforcing engine makes over the whole
      run are at most one checkpoint, then at most one TERM or forwarded signal, then KILLs only. */
  lemma EngineEscalates<A>(exec: Actuator<A>, g: Engine<A>, es: seq<Event>)
    requires Inv(g.machine) && Live(g.machine)
    ensures EscalationShape(Tried(RunEngine(exec, g, es, |es|).trace))
  {
    EngineRunIsPolicyRun(exec, g, es, |es|);
    var fed := RunEngine(exec, g, es, |es|).fed;
    WholeRunShape(g.machine, fed, |fed|);
  }

  lemma OrderedConcat(xs: seq<Event>, ys: seq<Event>, at: Duration)
    requires Ordered(xs) && (forall i :: 0 <= i < |xs| ==> xs[i].At() <= at)
    requires forall i :: 0 <= i < |ys| ==> ys[i].At() == at
    ensures Ordered(xs + ys) && forall i :: 0 <= i < |xs + ys| ==> (xs + ys)[i].At() <= at
  {
  }

  /** Feedback happens at the time of the event that caused it, so an ordered run stays ordered. */
  lemma {:induction false} FeedbackKeepsOrder<A>(exec: Actuator<A>, g: Engine<A>, es: seq<Event>, k: nat)
    requires Inv(g.machine) && Ordered(es) && k <= |es|
    ensures Ordered(RunEngine(exec, g, es, k).fed)
    ensures var fed := RunEngine(exec, g, es, k).fed;
            forall i :: 0 <= i < |fed| ==> k > 0 && fed[i].At() <= es[k - 1].At()
  {
    hide Step, Inv, HandleEvent, After, Calls, Tried;
    if k > 0 {
      assert k > 1 ==> es[k - 2].At() <= es[k - 1].At();
      hide Ordered;
      FeedbackKeepsOrder(exec, g, es, k - 1);
      EngineRunIsPolicyRun(exec, g, es, k - 1);
      var p := RunEngine(exec, g, es, k - 1);
      HandleIsPolicyRun(exec, p.engine, es[k - 1]);
      var h := HandleEvent(exec, p.engine, es[k - 1]);
      OrderedConcat(p.fed, h.fed, es[k - 1].At());
    }
  }
}
