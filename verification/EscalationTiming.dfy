/** How long an escalation can last: deadlines opened by the machine are met by its ticks. */
module EscalationTiming {
  import opened Policy
  import opened PolicyRuns
  import opened Intervention
  import opened InterventionRuns

  lemma InOrder(es: seq<Event>, i: nat, j: nat)
    requires Ordered(es) && i <= j < |es|
    ensures es[i].At() <= es[j].At()
  {
  }

  ghost predicate TickWithin(es: seq<Event>, from: int, gap: nat) {
    exists k :: 0 <= k < |es| && es[k].Tick? && from <= es[k].At() <= from + gap
  }

  /** Every stretch of `gap` from the first event until a time holds a tick. */
  ghost predicate TicksUntil(es: seq<Event>, gap: nat, until: int) {
    |es| > 0 && forall from :: es[0].At() <= from && from + gap <= until ==> TickWithin(es, from, gap)
  }

  predicate Settles(a: Action) {
    a.SendKill? || a.ReportExit? || a.ReportSupervisorError?
  }

  /** The escalation ended: KILL was requested, the exit observed, or the supervisor error reported. */
  predicate Settled(actions: seq<Action>) {
    exists i :: 0 <= i < |actions| && Settles(actions[i])
  }

  predicate OpensTerm(actions: seq<Action>) {
    exists i :: 0 <= i < |actions| && (actions[i].SendTerm? || actions[i].ForwardSignal?)
  }

  predicate OpensCheckpoint(actions: seq<Action>) {
    exists i :: 0 <= i < |actions| && actions[i].RequestCheckpoint?
  }

  predicate TermPending(m: Machine, limit: int) {
    Inv(m) && (m.state.Terminating? || m.state.SupervisorError?) && m.termDeadline.Some? && m.termDeadline.value <= limit
  }

  predicate CheckpointPending(m: Machine, limit: int) {
    Inv(m) && m.state.CheckpointRequested? && m.checkpointDeadline.value <= limit
  }

  /** Nothing but settling can end a TERM grace, and the first tick at its deadline settles it. */
  lemma TermStep(m: Machine, e: Event, limit: int)
    requires TermPending(m, limit) && !ClockRegressed(m, e.At())
    ensures Settled(Step(m, e).actions) || TermPending(Step(m, e).machine, limit)
    ensures e.Tick? && e.At() >= limit ==> Settled(Step(m, e).actions)
  {
    StepKeepsInv(m, e);
    var actions := Step(m, e).actions;
    assert |actions| > 0 ==> Settles(actions[0]) || actions[0].RecordMissing? || actions[0].RecordObservation?;
  }

  /** A pending checkpoint can only settle, turn into a TERM grace, or stay pending until its deadline. */
  lemma CheckpointStep(m: Machine, e: Event, limit: int)
    requires CheckpointPending(m, limit) && !ClockRegressed(m, e.At())
    ensures var d := Step(m, e);
            Settled(d.actions) || OpensTerm(d.actions) || CheckpointPending(d.machine, limit)
    ensures var d := Step(m, e);
            e.Tick? && e.At() >= limit ==> OpensTerm(d.actions)
  {
    StepKeepsInv(m, e);
    var actions := Step(m, e).actions;
    assert |actions| > 1 ==> Settles(actions[1]) || actions[1].SendTerm?;
    assert |actions| == 1 ==>
        Settles(actions[0]) || actions[0].SendTerm? || actions[0].ForwardSignal?
        || actions[0].RecordMissing? || actions[0].RecordObservation?;
  }

  /** Whatever opens a TERM grace or a checkpoint sets the matching deadline. */
  lemma Opening(m: Machine, e: Event)
    requires Inv(m) && !ClockRegressed(m, e.At())
    ensures var d := Step(m, e);
            && (OpensTerm(d.actions) ==> TermPending(d.machine, e.At() + m.config.termGrace))
            && (OpensCheckpoint(d.actions) ==>
                  m.config.checkpointTimeout.Some?
                  && CheckpointPending(d.machine, e.At() + m.config.checkpointTimeout.value))
  {
    StepKeepsInv(m, e);
  }

  /** The deadline an opening event of a run leaves behind. */
  lemma OpeningOfRun(m: Machine, es: seq<Event>, i: nat)
    requires Inv(m) && m.lastEventAt.None? && Ordered(es) && i < |es|
    ensures OpensTerm(Out(m, es, i)) ==> TermPending(After(m, es, i + 1), es[i].At() + m.config.termGrace)
    ensures OpensCheckpoint(Out(m, es, i)) ==>
              m.config.checkpointTimeout.Some?
              && CheckpointPending(After(m, es, i + 1), es[i].At() + m.config.checkpointTimeout.value)
  {
    RunKeepsInv(m, es, i);
    NoRegression(m, es, i);
    Opening(After(m, es, i), es[i]);
  }

  lemma {:induction false} FollowTerm(m: Machine, es: seq<Event>, from: nat, tick: nat, limit: int)
    returns (j: nat)
    requires Inv(m) && m.lastEventAt.None? && Ordered(es)
    requires from <= tick < |es| && es[tick].Tick? && es[tick].At() >= limit
    requires TermPending(After(m, es, from), limit)
    ensures from <= j <= tick && Settled(Out(m, es, j))
    decreases tick - from
  {
    hide Step, Inv, TermPending, Settled;
    NoRegression(m, es, from);
    TermStep(After(m, es, from), es[from], limit);
    j := from;
    if !Settled(Out(m, es, from)) {
      j := FollowTerm(m, es, from + 1, tick, limit);
    }
  }

  lemma {:induction false} FollowCheckpoint(m: Machine, es: seq<Event>, from: nat, tick: nat, limit: int)
    returns (j: nat)
    requires Inv(m) && m.lastEventAt.None? && Ordered(es)
    requires from <= tick < |es| && es[tick].Tick? && es[tick].At() >= limit
    requires CheckpointPending(After(m, es, from), limit)
    ensures from <= j <= tick && (Settled(Out(m, es, j)) || OpensTerm(Out(m, es, j)))
    decreases tick - from
  {
    hide Step, Inv, CheckpointPending, Settled, OpensTerm;
    NoRegression(m, es, from);
    CheckpointStep(After(m, es, from), es[from], limit);
    j := from;
    if !Settled(Out(m, es, from)) && !OpensTerm(Out(m, es, from)) {
      j := FollowCheckpoint(m, es, from + 1, tick, limit);
    }
  }

  /** The tick the runtime delivers within one gap of a deadline later than event `i`. */
  lemma TickAfter(es: seq<Event>, i: nat, deadline: int, gap: nat, until: int) returns (tick: nat)
    requires Ordered(es) && TicksUntil(es, gap, until) && i < |es|
    requires es[i].At() < deadline && deadline + gap <= until
    ensures i < tick < |es| && es[tick].Tick? && deadline <= es[tick].At() <= deadline + gap
  {
    assert es[0].At() <= es[i].At();
    assert TickWithin(es, deadline, gap);
    tick :| 0 <= tick < |es| && es[tick].Tick? && deadline <= es[tick].At() <= deadline + gap;
    if tick <= i {
      InOrder(es, tick, i);
    }
  }

  /** A pending TERM grace ends at the first tick at or after its deadline, if not before. */
  lemma PendingTermIsBounded(m: Machine, es: seq<Event>, i: nat, deadline: int, gap: nat, until: int)
    returns (j: nat)
    requires Inv(m) && m.lastEventAt.None? && Ordered(es) && TicksUntil(es, gap, until) && i < |es|
    requires TermPending(After(m, es, i + 1), deadline)
    requires es[i].At() < deadline && deadline + gap <= until
    ensures i < j < |es| && Settled(Out(m, es, j)) && es[j].At() <= deadline + gap
  {
    var tick := TickAfter(es, i, deadline, gap, until);
    j := FollowTerm(m, es, i + 1, tick, deadline);
    InOrder(es, j, tick);
  }

  /** A TERM or a forwarded signal leads, within the grace and one tick gap, to a KILL request, an
      observed exit or a reported supervisor error, whatever events arrive in between. */
  lemma TermIsBounded(m: Machine, es: seq<Event>, i: nat, gap: nat, until: int) returns (j: nat)
    requires Inv(m) && m.lastEventAt.None? && Ordered(es) && TicksUntil(es, gap, until)
    requires i < |es| && OpensTerm(Out(m, es, i))
    requires es[i].At() + m.config.termGrace + gap <= until
    ensures i < j < |es| && Settled(Out(m, es, j))
    ensures es[j].At() <= es[i].At() + m.config.termGrace + gap
  {
    OpeningOfRun(m, es, i);
    j := PendingTermIsBounded(m, es, i, es[i].At() + m.config.termGrace, gap, until);
  }

  /** A checkpoint request leads to the same end within the acknowledgement timeout, the grace and
      two tick gaps. */
  lemma CheckpointIsBounded(m: Machine, es: seq<Event>, i: nat, gap: nat, until: int) returns (j: nat)
    requires Inv(m) && m.lastEventAt.None? && Ordered(es) && TicksUntil(es, gap, until)
    requires i < |es| && OpensCheckpoint(Out(m, es, i))
    requires m.config.checkpointTimeout.Some? ==>
               es[i].At() + m.config.checkpointTimeout.value + m.config.termGrace + 2 * gap <= until
    ensures m.config.checkpointTimeout.Some?
    ensures i < j < |es| && Settled(Out(m, es, j))
    ensures es[j].At() <= es[i].At() + m.config.checkpointTimeout.value + m.config.termGrace + 2 * gap
  {
    OpeningOfRun(m, es, i);
    var deadline := es[i].At() + m.config.checkpointTimeout.value;
    var tick := TickAfter(es, i, deadline, gap, until);
    j := FollowCheckpoint(m, es, i + 1, tick, deadline);
    InOrder(es, j, tick);
    if !Settled(Out(m, es, j)) {
      j := TermIsBounded(m, es, j, gap, until);
    }
  }

  /** How long what was opened may take: a TERM grace and one gap, or a checkpoint's timeout, the
      grace after it, and a gap for each. */
  function TimeToSettle(c: PolicyConfig, opening: seq<Action>, gap: nat): nat {
    if OpensTerm(opening) then c.termGrace + gap
    else (if c.checkpointTimeout.Some? then c.checkpointTimeout.value else 0) + c.termGrace + 2 * gap
  }

  /** Either way, if the ticks go on that long. */
  lemma OpeningIsBounded(m: Machine, es: seq<Event>, i: nat, gap: nat, until: int) returns (j: nat)
    requires Inv(m) && m.lastEventAt.None? && Ordered(es) && TicksUntil(es, gap, until)
    requires i < |es| && (OpensTerm(Out(m, es, i)) || OpensCheckpoint(Out(m, es, i)))
    requires es[i].At() + TimeToSettle(m.config, Out(m, es, i), gap) <= until
    ensures i < j < |es| && Settled(Out(m, es, j))
    ensures es[j].At() <= es[i].At() + TimeToSettle(m.config, Out(m, es, i), gap)
  {
    hide Inv, Out, OpensTerm, OpensCheckpoint, Settled, TicksUntil;
    if OpensTerm(Out(m, es, i)) {
      j := TermIsBounded(m, es, i, gap, until);
    } else {
      j := CheckpointIsBounded(m, es, i, gap, until);
    }
  }

  // ---- Under the engine ----

  /** `fed` holds the first `k` events, and begins and ends when they do. */
  ghost predicate Holds(fed: seq<Event>, es: seq<Event>, k: nat)
    requires k <= |es|
  {
    && (forall i :: 0 <= i < k ==> es[i] in fed)
    && (if k == 0 then fed == [] else fed != [] && fed[0] == es[0] && fed[|fed| - 1].At() == es[k - 1].At())
  }

  lemma HoldsMore(fed: seq<Event>, more: seq<Event>, es: seq<Event>, k: nat)
    requires k < |es| && Holds(fed, es, k)
    requires more != [] && more[0] == es[k] && forall i :: 0 <= i < |more| ==> more[i].At() == es[k].At()
    ensures Holds(fed + more, es, k + 1)
  {
    assert (fed + more)[|fed|] == es[k];
  }

  /** The events the engine gives the machine keep every event of the run. */
  lemma {:induction false} FedKeepsEvents<A>(exec: Actuator<A>, g: Engine<A>, es: seq<Event>, k: nat)
    requires Inv(g.machine) && k <= |es|
    ensures Holds(RunEngine(exec, g, es, k).fed, es, k)
  {
    hide Step, Inv, HandleEvent, After, Calls, Holds;
    if k > 0 {
      FedKeepsEvents(exec, g, es, k - 1);
      EngineRunIsPolicyRun(exec, g, es, k - 1);
      var p := RunEngine(exec, g, es, k - 1);
      var h := HandleEvent(exec, p.engine, es[k - 1]);
      assert RunEngine(exec, g, es, k).fed == p.fed + h.fed;
      hide RunEngine;
      HandleIsPolicyRun(exec, p.engine, es[k - 1]);
      HoldsMore(p.fed, h.fed, es, k - 1);
    } else {
      NothingHeld(es);
    }
  }

  lemma NothingHeld(es: seq<Event>)
    ensures Holds([], es, 0)
  {
  }

  lemma FedKeepsTicks<A>(exec: Actuator<A>, g: Engine<A>, es: seq<Event>, gap: nat, until: int)
    requires Inv(g.machine) && TicksUntil(es, gap, until)
    ensures TicksUntil(RunEngine(exec, g, es, |es|).fed, gap, until)
  {
    hide RunEngine, Inv;
    FedKeepsEvents(exec, g, es, |es|);
    var fed := RunEngine(exec, g, es, |es|).fed;
    forall from | fed[0].At() <= from && from + gap <= until ensures TickWithin(fed, from, gap) {
      assert TickWithin(es, from, gap);
      var k :| 0 <= k < |es| && es[k].Tick? && from <= es[k].At() <= from + gap;
      var j :| 0 <= j < |fed| && fed[j] == es[k];
    }
  }

  /** Whatever the actuator replies: in an engine run with ordered times and a tick in every gap, a
      checkpoint request settles within timeout, grace and two gaps, and a TERM or forwarded signal, the
      ones answering a failed checkpoint included, within grace and one gap, if the ticks go on that long. */
  lemma EngineEscalationIsBounded<A>(exec: Actuator<A>, g: Engine<A>, es: seq<Event>, i: nat, gap: nat, until: int)
    returns (j: nat)
    requires Inv(g.machine) && g.machine.lastEventAt.None? && Ordered(es) && TicksUntil(es, gap, until)
    requires i < |RunEngine(exec, g, es, |es|).fed|
    requires var fed := RunEngine(exec, g, es, |es|).fed;
             var opening := Out(g.machine, fed, i);
             && (OpensTerm(opening) || OpensCheckpoint(opening))
             && fed[i].At() + TimeToSettle(g.machine.config, opening, gap) <= until
    ensures var fed := RunEngine(exec, g, es, |es|).fed;
            && i < j < |fed| && Settled(Out(g.machine, fed, j))
            && fed[j].At() <= fed[i].At() + TimeToSettle(g.machine.config, Out(g.machine, fed, i), gap)
  {
    hide RunEngine, Inv, Out, OpensTerm, OpensCheckpoint, Settled, TicksUntil, TimeToSettle;
    var fed := RunEngine(exec, g, es, |es|).fed;
    FedKeepsTicks(exec, g, es, gap, until);
    FeedbackKeepsOrder(exec, g, es, |es|);
    j := OpeningIsBounded(g.machine, fed, i, gap, until);
  }
}
