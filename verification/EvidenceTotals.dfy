/** What else the evidence of a run says: each attempt's baseline is the latest total observed before it, and
    the maximum overshoot is the highest the run decided on. */
module EvidenceTotals {
  import opened Common
  import opened Policy
  import opened Actuations
  import opened Intervention
  import opened Cascades
  import opened InterventionRuns
  import opened EvidenceDates

  // ---- Baselines ----

  /** What the latest observation measured, if there was one. */
  function LatestBytes(notes: seq<Note>): Option<u64> {
    if notes == [] then None
    else
      match notes[|notes| - 1]
      case Observed(_, bytes) => bytes
      case _ => LatestBytes(notes[..|notes| - 1])
  }

  /** Every attempt's baseline is what was observed last before it. */
  ghost predicate Based(notes: seq<Note>) {
    forall p :: 0 <= p < |notes| && notes[p].Tried? ==> notes[p].baseline == LatestBytes(notes[..p])
  }

  lemma BasedNext(notes: seq<Note>, n: Note)
    requires Based(notes) && (n.Tried? ==> n.baseline == LatestBytes(notes))
    ensures Based(notes + [n])
    ensures LatestBytes(notes + [n]) == if n.Observed? then n.bytes else LatestBytes(notes)
  {
    var more := notes + [n];
    assert more[..|notes|] == notes;
    forall p | 0 <= p < |more| && more[p].Tried? ensures more[p].baseline == LatestBytes(more[..p]) {
      assert p < |notes| ==> more[..p] == notes[..p] && more[p] == notes[p];
    }
  }

  lemma {:induction false} BasedTried(notes: seq<Note>, attempts: seq<Attempt>)
    requires Based(notes)
    ensures var more := notes + TriedNotes(attempts, LatestBytes(notes));
            Based(more) && LatestBytes(more) == LatestBytes(notes)
  {
    hide Based, LatestBytes;
    var baseline := LatestBytes(notes);
    if attempts == [] {
      assert notes + [] == notes;
    } else {
      var last := |attempts| - 1;
      BasedTried(notes, attempts[..last]);
      var before := notes + TriedNotes(attempts[..last], baseline);
      BasedNext(before, Tried(attempts[last], baseline));
      assert notes + TriedNotes(attempts, baseline) == before + [Tried(attempts[last], baseline)];
    }
  }

  lemma {:induction false} DrainKeepsBaseline<A>(exec: Actuator<A>, g: Engine<A>, at: Duration, pending: seq<Action>)
    ensures Drain(exec, g, at, pending).engine.lastObserved == g.lastObserved
    decreases Unstarted(g.machine), Weight(pending), |pending|
  {
    hide Step, Perform;
    if pending != [] {
      PerformDecreases(exec, g, at, pending);
      PerformKeepsBaseline(exec, g, at, pending[0]);
      DrainKeepsBaseline(exec, Perform(exec, g, at, pending[0]).engine, at,
                         pending[1..] + Perform(exec, g, at, pending[0]).more);
    }
  }

  lemma EventIsBased<A>(exec: Actuator<A>, g: Engine<A>, e: Event, notes: seq<Note>)
    requires Based(notes) && g.lastObserved == LatestBytes(notes)
    ensures var more := notes + EventNotes(exec, g, e);
            Based(more) && HandleEvent(exec, g, e).engine.lastObserved == LatestBytes(more)
  {
    hide Step, Drain, Based, LatestBytes, TriedNotes, Attempts;
    var d := Step(g.machine, e);
    var noted := NoteSample(g.(machine := d.machine), e, d.actions);
    var heard := if RecordObservation in d.actions && e.Sample? then [Observed(e.At(), e.sample.aggregateBytes)] else [];
    if heard == [] {
      assert notes + heard == notes;
    } else {
      BasedNext(notes, heard[0]);
    }
    DrainKeepsBaseline(exec, noted, e.At(), d.actions);
    var attempts := Attempts(HandleEvent(exec, g, e).trace);
    BasedTried(notes + heard, attempts);
    assert notes + (heard + TriedNotes(attempts, noted.lastObserved)) == notes + heard + TriedNotes(attempts, noted.lastObserved);
  }

  /** Over every run of the engine, the baseline recorded with an attempt is the total of the latest counted
      sample before it, and absent exactly when there was none. */
  lemma {:induction false} BaselineIsLatest<A>(exec: Actuator<A>, g: Engine<A>, calls: seq<Call>, k: nat)
    requires g.lastObserved.None? && k <= |calls|
    ensures Based(RunNotes(exec, g, calls, k))
    ensures EngineAfter(exec, g, calls, k).lastObserved == LatestBytes(RunNotes(exec, g, calls, k))
  {
    hide Step, HandleEvent, EventNotes, Based;
    if k == 0 {
      assert Based([]) by { NothingIsBased(); }
    } else {
      BaselineIsLatest(exec, g, calls, k - 1);
      var notes := RunNotes(exec, g, calls, k - 1);
      match calls[k - 1]
      case Handles(e) => EventIsBased(exec, EngineAfter(exec, g, calls, k - 1), e, notes);
      case SeesEmpty(at) => BasedNext(notes, Emptied(at));
    }
  }

  lemma NothingIsBased()
    ensures Based([])
  {
  }

  // ---- Overshoot ----

  /** How far above the limit an action says the run went, if it says so. */
  function Overshot(a: Action): Option<u64> {
    match a
    case RecordOvershoot(bytes) => Some(bytes)
    case RequestCheckpoint(_, bytes, _) => Some(bytes)
    case _ => None
  }

  /** `top` is the highest overshoot the actions tell, on top of one already known. */
  ghost predicate Tops(known: u64, actions: seq<Action>, top: u64) {
    && known <= top && (forall i :: 0 <= i < |actions| && Overshot(actions[i]).Some? ==> Overshot(actions[i]).value <= top)
    && (top == known || exists i :: 0 <= i < |actions| && Overshot(actions[i]) == Some(top))
  }

  lemma TopsTwice(known: u64, a: seq<Action>, mid: u64, b: seq<Action>, top: u64)
    requires Tops(known, a, mid) && Tops(mid, b, top)
    ensures Tops(known, a + b, top)
  {
    var all := a + b;
    assert forall i :: 0 <= i < |b| ==> all[|a| + i] == b[i];
    assert forall i :: 0 <= i < |a| ==> all[i] == a[i];
    if top != mid {
      var i :| 0 <= i < |b| && Overshot(b[i]) == Some(top);
      assert Overshot(all[|a| + i]) == Some(top);
    } else if mid != known {
      var i :| 0 <= i < |a| && Overshot(a[i]) == Some(mid);
      assert Overshot(all[i]) == Some(top);
    }
  }

  lemma PerformTops<A>(exec: Actuator<A>, g: Engine<A>, at: Duration, action: Action)
    ensures Tops(g.evidence.maximumOvershoot, [action], Perform(exec, g, at, action).engine.evidence.maximumOvershoot)
  {
    hide Step;
    assert [action][0] == action;
  }

  lemma {:induction false} DrainTops<A>(exec: Actuator<A>, g: Engine<A>, at: Duration, pending: seq<Action>)
    ensures var r := Drain(exec, g, at, pending);
            Tops(g.evidence.maximumOvershoot, r.decisions, r.engine.evidence.maximumOvershoot)
    decreases Unstarted(g.machine), Weight(pending), |pending|
  {
    hide Step, Perform, Overshot;
    if pending != [] {
      var p := Perform(exec, g, at, pending[0]);
      var rest := pending[1..] + p.more;
      PerformDecreases(exec, g, at, pending);
      PerformTops(exec, g, at, pending[0]);
      DrainTops(exec, p.engine, at, rest);
      var r := Drain(exec, p.engine, at, rest);
      TopsTwice(g.evidence.maximumOvershoot, [pending[0]], p.engine.evidence.maximumOvershoot, r.decisions,
                r.engine.evidence.maximumOvershoot);
    }
  }

  /** Everything the machine decided over a run, the answers to failures included. */
  function RunDecisions<A>(exec: Actuator<A>, g: Engine<A>, es: seq<Event>, k: nat): seq<Action>
    requires k <= |es|
  {
    if k == 0 then []
    else RunDecisions(exec, g, es, k - 1) + HandleEvent(exec, RunEngine(exec, g, es, k - 1).engine, es[k - 1]).decisions
  }

  /** The maximum overshoot in the evidence is the highest that any decision of the run told, and zero when
      none did. */
  lemma {:induction false} MaximumIsHighest<A>(exec: Actuator<A>, g: Engine<A>, es: seq<Event>, k: nat)
    requires g.evidence == NO_EVIDENCE && k <= |es|
    ensures Tops(0, RunDecisions(exec, g, es, k), RunEngine(exec, g, es, k).engine.evidence.maximumOvershoot)
  {
    hide Step, HandleEvent, Tops;
    if k == 0 {
      assert Tops(0, [], 0) by { NothingTops(); }
    } else {
      MaximumIsHighest(exec, g, es, k - 1);
      var before, e := RunEngine(exec, g, es, k - 1).engine, es[k - 1];
      EventTops(exec, before, e);
      TopsTwice(0, RunDecisions(exec, g, es, k - 1), before.evidence.maximumOvershoot,
                HandleEvent(exec, before, e).decisions,
                HandleEvent(exec, before, e).engine.evidence.maximumOvershoot);
    }
  }

  lemma NothingTops()
    ensures Tops(0, [], 0)
  {
  }

  /** The decisions of an event begin with the policy's own. */
  lemma EventTops<A>(exec: Actuator<A>, g: Engine<A>, e: Event)
    ensures var h := HandleEvent(exec, g, e);
            Tops(g.evidence.maximumOvershoot, h.decisions, h.engine.evidence.maximumOvershoot)
  {
    hide Step, Drain, Tops;
    var d := Step(g.machine, e);
    DrainTops(exec, NoteSample(g.(machine := d.machine), e, d.actions), e.At(), d.actions);
  }
}
