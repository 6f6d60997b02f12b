/** Whole runs of the policy machine: the state after every prefix of an event sequence, what the
    machine keeps at every step, and the escalation pattern of its side effects. */
module PolicyRuns {
  import opened Common
  import opened Policy
  import opened Actuations

  /** The machine after the first `k` events. */
  function After(m: Machine, es: seq<Event>, k: nat): Machine
    requires k <= |es|
  {
    if k == 0 then m else Step(After(m, es, k - 1), es[k - 1]).machine
  }

  /** The actions selected for event `k`. */
  function Out(m: Machine, es: seq<Event>, k: nat): seq<Action>
    requires k < |es|
  {
    Step(After(m, es, k), es[k]).actions
  }

  /** Every side effect selected for the first `k` events, in order. */
  function Calls(m: Machine, es: seq<Event>, k: nat): seq<Actuation>
    requires k <= |es|
  {
    if k == 0 then [] else Calls(m, es, k - 1) + ActuationsOf(Out(m, es, k - 1))
  }

  /** A prefix of a run does not depend on what follows it. */
  lemma {:induction false} PrefixIndependent(m: Machine, es: seq<Event>, more: seq<Event>, k: nat)
    requires k <= |es|
    ensures After(m, es + more, k) == After(m, es, k)
    ensures Calls(m, es + more, k) == Calls(m, es, k)
  {
    if k > 0 {
      PrefixIndependent(m, es, more, k - 1);
    }
  }

  // ---- What every step keeps ----

  /** No intervention has begun and none is pending. */
  predicate Live(m: Machine) {
    m.state.Normal? || m.state.Warning?
  }

  predicate Inv(m: Machine) {
    && m.mode.Enforce? && ValidConfig(m.config) && !m.state.Observing?
    && m.nextRequestId > 0
    && (Live(m) ==> !m.interventionStarted && m.activeRequestId.None?
                    && m.breachStreak < m.config.requiredBreachSamples
                    && m.missingStreak < m.config.maxMissingSamples)
    && (m.state.CheckpointRequested? ==>
          !m.interventionStarted && m.checkpointDeadline.Some?
          && m.activeRequestId.Some? && m.activeRequestId.value > 0)
    && (m.state.Terminating? ==> m.interventionStarted && m.termDeadline.Some?)
    && (m.state.Emergency? || m.state.SupervisorError? ==> m.interventionStarted)
  }

  lemma EnforcingKeepsInv(config: PolicyConfig, initialRequestId: u64)
    requires ValidConfig(config) && initialRequestId > 0
    ensures Inv(Enforcing(config, initialRequestId))
  {
  }

  lemma SampleKeepsInv(m: Machine, s: SampleEvent)
    requires Inv(m) && !m.state.Exited?
    ensures Inv(SampleStep(m, s).machine) && SampleStep(m, s).machine.config == m.config
  {
  }

  lemma StepKeepsInv(m: Machine, e: Event)
    requires Inv(m)
    ensures Inv(Step(m, e).machine) && Step(m, e).machine.config == m.config
  {
    if e.Sample? && !m.state.Exited? {
      SampleKeepsInv(m.(lastEventAt := Some(e.At())), e.sample);
    }
    hide SampleStep;
  }

  lemma {:induction false} RunKeepsInv(m: Machine, es: seq<Event>, k: nat)
    requires Inv(m) && k <= |es|
    ensures Inv(After(m, es, k)) && After(m, es, k).config == m.config
  {
    if k > 0 {
      RunKeepsInv(m, es, k - 1);
      StepKeepsInv(After(m, es, k - 1), es[k - 1]);
    }
  }

  // ---- Shape of the whole run's side effects ----

  predicate ShapedAt(calls: seq<Actuation>, i: nat, j: nat) {
    && i <= j <= |calls| && i <= 1 && j - i <= 1
    && (forall k :: 0 <= k < i ==> calls[k].Checkpoint?)
    && (forall k :: i <= k < j ==> calls[k].Term? || calls[k].Forward?)
    && (forall k :: j <= k < |calls| ==> calls[k].Kill?)
  }

  /** Checkpoint? (Term | Forward)? Kill* */
  ghost predicate EscalationShape(calls: seq<Actuation>) {
    exists i: nat, j: nat :: ShapedAt(calls, i, j)
  }

  /** How far a machine has escalated: 0 untouched, 1 waiting for a checkpoint, 2 beyond. */
  function Phase(m: Machine): nat {
    if Live(m) then 0 else if m.state.CheckpointRequested? then 1 else 2
  }

  ghost predicate CallsFit(calls: seq<Actuation>, phase: nat) {
    match phase
    case 0 => calls == []
    case 1 => |calls| == 1 && calls[0].Checkpoint?
    case _ => EscalationShape(calls)
  }

  /** The side effect a decision selects, when its actions hold at most one. */
  function Selected(actions: seq<Action>): Option<Actuation>
    requires 0 < |actions| <= 3
  {
    if ActuationFor(actions[0]).Some? then ActuationFor(actions[0])
    else if |actions| > 1 then ActuationFor(actions[1])
    else None
  }

  /** The phase may only grow, and each kind of side effect needs and leads to its own phase. */
  predicate Escalates(before: nat, after: nat, a: Option<Actuation>) {
    && before <= after
    && match a
       case None => after == before || after == 2
       case Some(Checkpoint(_, _, _)) => before == 0 && after == 1
       case Some(Kill) => after == 2
       case Some(_) => before <= 1 && after == 2
  }

  lemma StepSelects(m: Machine, e: Event)
    requires Inv(m)
    ensures var d := Step(m, e);
            && |d.actions| <= 3
            && (|d.actions| > 1 && ActuationFor(d.actions[0]).Some? ==> ActuationFor(d.actions[1]).None?)
            && (|d.actions| > 2 ==> ActuationFor(d.actions[2]).None?)
            && Escalates(Phase(m), Phase(d.machine), if d.actions == [] then None else Selected(d.actions))
  {
    match e
    case Sample(s) =>
    case Tick(at) =>
    case _ =>
  }

  /** One step selects at most one side effect, and only one its phase still allows. */
  lemma StepEscalates(m: Machine, e: Event)
    requires Inv(m)
    ensures var calls := ActuationsOf(Step(m, e).actions);
            |calls| <= 1
            && Escalates(Phase(m), Phase(Step(m, e).machine), if calls == [] then None else Some(calls[0]))
  {
    hide Step, Inv, Escalates;
    StepSelects(m, e);
    ActuationsOfShort(Step(m, e).actions);
  }

  lemma CallsStillFit(calls: seq<Actuation>, m: Machine, e: Event)
    requires Inv(m) && CallsFit(calls, Phase(m))
    ensures CallsFit(calls + ActuationsOf(Step(m, e).actions), Phase(Step(m, e).machine))
  {
    hide Step, Inv;
    StepEscalates(m, e);
    var added := ActuationsOf(Step(m, e).actions);
    if added == [] {
      assert calls + added == calls;
      if Phase(m) != 2 && Phase(Step(m, e).machine) == 2 {
        assert ShapedAt(calls, |calls|, |calls|);
      }
    } else if added[0].Term? || added[0].Forward? {
      assert ShapedAt(calls + added, |calls|, |calls| + 1);
    } else if added[0].Kill? {
      if Phase(m) == 2 {
        var i: nat, j: nat :| ShapedAt(calls, i, j);
        assert ShapedAt(calls + added, i, j);
      } else {
        assert ShapedAt(calls + added, |calls|, |calls|);
      }
    }
  }

  /** Over every event sequence, backward clocks and injected failures included, the side effects
      of an enforcing machine are at most one checkpoint request, then at most one TERM or
      forwarded signal, then only KILLs. */
  lemma {:induction false} WholeRunShape(m: Machine, es: seq<Event>, k: nat)
    requires Inv(m) && Live(m) && k <= |es|
    ensures CallsFit(Calls(m, es, k), Phase(After(m, es, k)))
    ensures EscalationShape(Calls(m, es, k))
  {
    hide Step, Inv;
    if k > 0 {
      WholeRunShape(m, es, k - 1);
      RunKeepsInv(m, es, k - 1);
      CallsStillFit(Calls(m, es, k - 1), After(m, es, k - 1), es[k - 1]);
    }
    var calls := Calls(m, es, k);
    if Phase(After(m, es, k)) != 2 {
      assert ShapedAt(calls, |calls|, |calls|);
    }
  }

  // ---- Clocks ----

  /** Event times never decrease. */
  predicate Ordered(es: seq<Event>) {
    forall i, j :: 0 <= i < j < |es| ==> es[i].At() <= es[j].At()
  }

  lemma StepClock(m: Machine, e: Event)
    ensures var clock := Step(m, e).machine.lastEventAt;
            clock == m.lastEventAt || clock == Some(e.At())
  {
  }

  /** In an ordered run no event regresses the machine's clock. */
  lemma {:induction false} NoRegression(m: Machine, es: seq<Event>, k: nat)
    requires Ordered(es) && k < |es| && m.lastEventAt.None?
    ensures !ClockRegressed(After(m, es, k), es[k].At())
    ensures k > 0 && After(m, es, k).lastEventAt.Some? ==> After(m, es, k).lastEventAt.value <= es[k - 1].At()
  {
    if k > 0 {
      NoRegression(m, es, k - 1);
      StepClock(After(m, es, k - 1), es[k - 1]);
      assert es[k - 1].At() <= es[k].At();
      if k > 1 {
        assert es[k - 2].At() <= es[k - 1].At();
      }
    }
  }
}
