/** What the latencies in the evidence mean over a whole engine run: each is the time from its attempt to
    the first later sample, the first lower one, or the first sight of an empty group. */
module EvidenceDates {
  import opened Common
  import opened Policy
  import opened Actuations
  import opened Intervention
  import opened Cascades
  import opened EngineEvidence

  /** Everything the evidence ever hears of, in order. */
  datatype Note =
    | Tried(attempt: Attempt, baseline: Option<u64>)
    | Observed(observedAt: Duration, bytes: Option<u64>)
    | Emptied(emptiedAt: Duration)

  function Undated(n: Note): Record
    requires n.Tried?
  {
    Record(n.attempt, n.baseline, None, None, None)
  }

  /** One later note on an attempt's record. */
  function Heard(r: Record, n: Note): Record {
    match n
    case Tried(_, _) => r
    case Observed(at, bytes) => ObserveRecord(r, at, bytes)
    case Emptied(at) => DatedEmpty(r, at)
  }

  function HeardByAll(records: seq<Record>, n: Note): (r: seq<Record>)
    ensures |r| == |records| && forall i :: 0 <= i < |r| ==> r[i] == Heard(records[i], n)
  {
    if records == [] then [] else [Heard(records[0], n)] + HeardByAll(records[1..], n)
  }

  /** The records of all attempts, as an unbounded list would keep them. */
  function AllRecords(notes: seq<Note>): seq<Record> {
    if notes == [] then []
    else
      var before, last := AllRecords(notes[..|notes| - 1]), notes[|notes| - 1];
      if last.Tried? then before + [Undated(last)] else HeardByAll(before, last)
  }

  // ---- What a record's dates are ----

  datatype Dating = BySample | ByDecrease | ByEmptyGroup

  function Latency(r: Record, d: Dating): Option<Duration> {
    match d
    case BySample => r.firstObservation
    case ByDecrease => r.footprintDecrease
    case ByEmptyGroup => r.groupEmpty
  }

  function NotedAt(n: Note): Duration {
    match n
    case Tried(attempt, _) => attempt.requestedAt
    case Observed(at, _) => at
    case Emptied(at) => at
  }

  /** The note is one that dates an earlier attempt: a sample, a sample below its baseline, or an empty
      group, at a later time. */
  predicate Dates(n: Note, d: Dating, attempt: Attempt, baseline: Option<u64>) {
    && NotedAt(n) > attempt.requestedAt
    && match d
       case BySample => n.Observed?
       case ByDecrease => n.Observed? && baseline.Some? && n.bytes.Some? && n.bytes.value < baseline.value
       case ByEmptyGroup => n.Emptied?
  }

  /** Note `i` is the first that dates the attempt. */
  predicate FirstToDate(after: seq<Note>, i: nat, d: Dating, attempt: Attempt, baseline: Option<u64>)
    requires i < |after|
  {
    Dates(after[i], d, attempt, baseline) && forall j :: 0 <= j < i ==> !Dates(after[j], d, attempt, baseline)
  }

  /** The latency is to the first note that dates the attempt, or absent when none does. */
  ghost predicate DatedByFirst(r: Record, d: Dating, after: seq<Note>) {
    match Latency(r, d)
    case None => forall i :: 0 <= i < |after| ==> !Dates(after[i], d, r.attempt, r.baseline)
    case Some(latency) =>
      exists i :: 0 <= i < |after| && FirstToDate(after, i, d, r.attempt, r.baseline)
                  && latency == NotedAt(after[i]) - r.attempt.requestedAt
  }

  lemma HearingKeepsFirst(r: Record, d: Dating, after: seq<Note>, n: Note)
    requires DatedByFirst(r, d, after)
    ensures DatedByFirst(Heard(r, n), d, after + [n])
    ensures Heard(r, n).attempt == r.attempt && Heard(r, n).baseline == r.baseline
  {
    var more := after + [n];
    assert more[|after|] == n && forall i :: 0 <= i < |after| ==> more[i] == after[i];
    if Latency(r, d).Some? {
      var i :| 0 <= i < |after| && FirstToDate(after, i, d, r.attempt, r.baseline)
               && Latency(r, d).value == NotedAt(after[i]) - r.attempt.requestedAt;
      assert FirstToDate(more, i, d, r.attempt, r.baseline);
    } else if Dates(n, d, r.attempt, r.baseline) {
      assert FirstToDate(more, |after|, d, r.attempt, r.baseline);
    }
  }

  function TriedCount(notes: seq<Note>): nat {
    if notes == [] then 0
    else TriedCount(notes[..|notes| - 1]) + if notes[|notes| - 1].Tried? then 1 else 0
  }

  lemma {:induction false} AllAreRecorded(notes: seq<Note>)
    ensures |AllRecords(notes)| == TriedCount(notes)
  {
    if notes != [] {
      AllAreRecorded(notes[..|notes| - 1]);
    }
  }

  lemma {:induction false} TriedGrows(notes: seq<Note>, p: nat)
    requires p < |notes| && notes[p].Tried?
    ensures TriedCount(notes[..p]) < TriedCount(notes)
  {
    var last := |notes| - 1;
    if p < last {
      assert notes[..last][..p] == notes[..p];
      TriedGrows(notes[..last], p);
    }
  }

  /** The record of every attempt carries its baseline, and each of its three latencies is to the first
      later note that dates it. */
  lemma {:induction false} RecordIsDatedByFirsts(notes: seq<Note>, p: nat, d: Dating)
    requires p < |notes| && notes[p].Tried?
    ensures TriedCount(notes[..p]) < |AllRecords(notes)|
    ensures var r := AllRecords(notes)[TriedCount(notes[..p])];
            && r.attempt == notes[p].attempt && r.baseline == notes[p].baseline
            && DatedByFirst(r, d, notes[p + 1..])
  {
    hide DatedByFirst, Heard;
    AllAreRecorded(notes);
    TriedGrows(notes, p);
    var last := |notes| - 1;
    var front := notes[..last];
    AllAreRecorded(front);
    if p == last {
      FreshIsUndated(notes[p], d);
      assert notes[p + 1..] == [] && notes[..p] == front;
      assert AllRecords(notes)[TriedCount(front)] == Undated(notes[p]);
    } else {
      assert front[..p] == notes[..p] && notes[p + 1..] == front[p + 1..] + [notes[last]];
      RecordIsDatedByFirsts(front, p, d);
      var r := AllRecords(front)[TriedCount(notes[..p])];
      HearingKeepsFirst(r, d, front[p + 1..], notes[last]);
      if notes[last].Tried? {
        TriedIsNotHeard(r, notes[last]);
      }
    }
  }

  lemma FreshIsUndated(n: Note, d: Dating)
    requires n.Tried?
    ensures DatedByFirst(Undated(n), d, [])
  {
  }

  lemma TriedIsNotHeard(r: Record, n: Note)
    requires n.Tried?
    ensures Heard(r, n) == r
  {
  }

  // ---- What an engine run notes ----

  /** One call on the engine: an event, or a look that found the group empty. */
  datatype Call = Handles(event: Event) | SeesEmpty(at: Duration)

  /** The engine after an empty group was seen. */
  function EmptySeen<A>(g: Engine<A>, at: Duration): Engine<A> {
    g.(evidence := g.evidence.(records := HeardByAll(g.evidence.records, Emptied(at))))
  }

  function TriedNotes(attempts: seq<Attempt>, baseline: Option<u64>): seq<Note> {
    if attempts == [] then [] else TriedNotes(attempts[..|attempts| - 1], baseline) + [Tried(attempts[|attempts| - 1], baseline)]
  }

  /** What handling an event adds: the sample it was, if it counted as one, then the attempts it caused,
      each with the latest observed total as baseline. */
  function EventNotes<A>(exec: Actuator<A>, g: Engine<A>, e: Event): seq<Note> {
    var d := Step(g.machine, e);
    var noted := NoteSample(g.(machine := d.machine), e, d.actions);
    (if RecordObservation in d.actions && e.Sample? then [Observed(e.At(), e.sample.aggregateBytes)] else [])
    + TriedNotes(Attempts(HandleEvent(exec, g, e).trace), noted.lastObserved)
  }

  function EngineAfter<A>(exec: Actuator<A>, g: Engine<A>, calls: seq<Call>, k: nat): Engine<A>
    requires k <= |calls|
  {
    if k == 0 then g
    else
      match calls[k - 1]
      case Handles(e) => HandleEvent(exec, EngineAfter(exec, g, calls, k - 1), e).engine
      case SeesEmpty(at) => EmptySeen(EngineAfter(exec, g, calls, k - 1), at)
  }

  function RunNotes<A>(exec: Actuator<A>, g: Engine<A>, calls: seq<Call>, k: nat): seq<Note>
    requires k <= |calls|
  {
    if k == 0 then []
    else
      RunNotes(exec, g, calls, k - 1)
      + match calls[k - 1]
        case Handles(e) => EventNotes(exec, EngineAfter(exec, g, calls, k - 1), e)
        case SeesEmpty(at) => [Emptied(at)]
  }

  /** The evidence keeps the latest records. */
  ghost predicate Keeps(ev: Evidence, notes: seq<Note>) {
    ev.records == Last(AllRecords(notes), MAX_INTERVENTION_RECORDS)
  }

  lemma NextIsHeard(ev: Evidence, notes: seq<Note>, n: Note)
    requires Keeps(ev, notes) && !n.Tried?
    ensures Keeps(ev.(records := HeardByAll(ev.records, n)), notes + [n])
  {
    assert (notes + [n])[..|notes|] == notes;
    var all := AllRecords(notes);
    var heard := HeardByAll(all, n);
    assert AllRecords(notes + [n]) == heard;
    assert HeardByAll(Last(all, MAX_INTERVENTION_RECORDS), n) == Last(heard, MAX_INTERVENTION_RECORDS);
  }

  lemma NextIsTried(ev: Evidence, notes: seq<Note>, attempt: Attempt, baseline: Option<u64>)
    requires Keeps(ev, notes)
    ensures Keeps(WithAttempt(ev, attempt, baseline), notes + [Tried(attempt, baseline)])
  {
    var n := Tried(attempt, baseline);
    assert (notes + [n])[..|notes|] == notes;
    PushKeepsLatest(AllRecords(notes), Undated(n), MAX_INTERVENTION_RECORDS);
  }

  lemma {:induction false} TriedNotesConcat(a: seq<Attempt>, b: seq<Attempt>, baseline: Option<u64>)
    ensures TriedNotes(a + b, baseline) == TriedNotes(a, baseline) + TriedNotes(b, baseline)
  {
    if b == [] {
      assert a + b == a;
    } else {
      var last := |b| - 1;
      assert (a + b)[..|a + b| - 1] == a + b[..last];
      TriedNotesConcat(a, b[..last], baseline);
    }
  }

  lemma PerformKeeps<A>(exec: Actuator<A>, g: Engine<A>, at: Duration, action: Action, notes: seq<Note>)
    requires Keeps(g.evidence, notes)
    ensures var p := Perform(exec, g, at, action);
            Keeps(p.engine.evidence, notes + TriedNotes(Attempts(p.effects), g.lastObserved))
            && p.engine.lastObserved == g.lastObserved
  {
    hide Step, Attempts, AllRecords;
    PerformRecords(exec, g, at, action);
    PerformKeepsBaseline(exec, g, at, action);
    hide Perform;
    match ActuationFor(action)
    case None =>
      assert notes + [] == notes;
    case Some(x) =>
      var attempt := Attempt(at, x, exec(g.actuator, at, x).1);
      assert [attempt][..0] == [];
      assert TriedNotes([attempt], g.lastObserved) == [Tried(attempt, g.lastObserved)];
      NextIsTried(Noted(g.evidence, action), notes, attempt, g.lastObserved);
  }

  lemma PerformKeepsBaseline<A>(exec: Actuator<A>, g: Engine<A>, at: Duration, action: Action)
    ensures Perform(exec, g, at, action).engine.lastObserved == g.lastObserved
  {
    hide Step;
  }

  lemma {:induction false} DrainKeeps<A>(exec: Actuator<A>, g: Engine<A>, at: Duration, pending: seq<Action>, notes: seq<Note>)
    requires Keeps(g.evidence, notes)
    ensures var r := Drain(exec, g, at, pending);
            Keeps(r.engine.evidence, notes + TriedNotes(Attempts(r.trace), g.lastObserved))
    decreases Unstarted(g.machine), Weight(pending), |pending|
  {
    hide Step, Perform, Keeps, TriedNotes;
    if pending == [] {
      NothingTried(notes, g.lastObserved);
    } else {
      var p := Perform(exec, g, at, pending[0]);
      var rest := pending[1..] + p.more;
      PerformDecreases(exec, g, at, pending);
      PerformKeeps(exec, g, at, pending[0], notes);
      var more := notes + TriedNotes(Attempts(p.effects), g.lastObserved);
      DrainKeeps(exec, p.engine, at, rest, more);
      var r := Drain(exec, p.engine, at, rest);
      TraceConcat(p.effects, r.trace);
      TriedNotesConcat(Attempts(p.effects), Attempts(r.trace), g.lastObserved);
      assert more + TriedNotes(Attempts(r.trace), g.lastObserved)
          == notes + (TriedNotes(Attempts(p.effects), g.lastObserved) + TriedNotes(Attempts(r.trace), g.lastObserved));
    }
  }

  lemma NothingTried(notes: seq<Note>, baseline: Option<u64>)
    ensures notes + TriedNotes(Attempts([]), baseline) == notes
  {
  }

  lemma SampleIsHeard<A>(g: Engine<A>, e: Event, actions: seq<Action>, notes: seq<Note>)
    requires Keeps(g.evidence, notes)
    ensures var heard := if RecordObservation in actions && e.Sample? then [Observed(e.At(), e.sample.aggregateBytes)] else [];
            Keeps(NoteSample(g, e, actions).evidence, notes + heard)
  {
    if RecordObservation in actions && e.Sample? {
      var n := Observed(e.At(), e.sample.aggregateBytes);
      NextIsHeard(g.evidence, notes, n);
      assert HeardByAll(g.evidence.records, n) == ObserveRecords(g.evidence.records, e.At(), e.sample.aggregateBytes);
    } else {
      assert notes + [] == notes;
    }
  }

  lemma EventKeeps<A>(exec: Actuator<A>, g: Engine<A>, e: Event, notes: seq<Note>)
    requires Keeps(g.evidence, notes)
    ensures Keeps(HandleEvent(exec, g, e).engine.evidence, notes + EventNotes(exec, g, e))
  {
    hide Step, Drain, Keeps, TriedNotes, NoteSample;
    var d := Step(g.machine, e);
    var moved := g.(machine := d.machine);
    var noted := NoteSample(moved, e, d.actions);
    var heard := if RecordObservation in d.actions && e.Sample? then [Observed(e.At(), e.sample.aggregateBytes)] else [];
    SampleIsHeard(moved, e, d.actions, notes);
    DrainKeeps(exec, noted, e.At(), d.actions, notes + heard);
    var r := Drain(exec, noted, e.At(), d.actions);
    MoveTriesNothing(e.At(), g.machine.state, d.machine.state);
    TraceConcat(Move(e.At(), g.machine.state, d.machine.state), r.trace);
    assert [] + Attempts(r.trace) == Attempts(r.trace);
    assert notes + heard + TriedNotes(Attempts(r.trace), noted.lastObserved)
        == notes + (heard + TriedNotes(Attempts(r.trace), noted.lastObserved));
  }

  /** Over every run of the engine the evidence is the latest 64 records of all its attempts, dated as an
      unbounded list would be. */
  lemma {:induction false} RunKeepsDates<A>(exec: Actuator<A>, g: Engine<A>, calls: seq<Call>, k: nat)
    requires g.evidence == NO_EVIDENCE && k <= |calls|
    ensures Keeps(EngineAfter(exec, g, calls, k).evidence, RunNotes(exec, g, calls, k))
  {
    hide Step, HandleEvent, EventNotes;
    if k > 0 {
      RunKeepsDates(exec, g, calls, k - 1);
      var before := EngineAfter(exec, g, calls, k - 1);
      var notes := RunNotes(exec, g, calls, k - 1);
      match calls[k - 1]
      case Handles(e) => EventKeeps(exec, before, e, notes);
      case SeesEmpty(at) => NextIsHeard(before.evidence, notes, Emptied(at));
    }
  }

  /** Every kept record of a run is the record of one of its latest 64 attempts, and each of its latencies
      is to the first later sample, the first later sample below its baseline, or the first later sight of
      an empty group; a latency is absent exactly when the run had none. */
  lemma RunDatesFirsts<A>(exec: Actuator<A>, g: Engine<A>, calls: seq<Call>, k: nat, p: nat, d: Dating)
    requires g.evidence == NO_EVIDENCE && k <= |calls|
    requires p < |RunNotes(exec, g, calls, k)| && RunNotes(exec, g, calls, k)[p].Tried?
    ensures var notes := RunNotes(exec, g, calls, k);
            var records := EngineAfter(exec, g, calls, k).evidence.records;
            var dropped := Max(TriedCount(notes) - MAX_INTERVENTION_RECORDS, 0);
            var i := TriedCount(notes[..p]) - dropped;
            && |records| == TriedCount(notes) - dropped && i < |records|
            && (i >= 0 ==> records[i].attempt == notes[p].attempt && records[i].baseline == notes[p].baseline
                           && DatedByFirst(records[i], d, notes[p + 1..]))
  {
    hide RunNotes, EngineAfter, DatedByFirst, AllRecords, TriedCount;
    var notes := RunNotes(exec, g, calls, k);
    RunKeepsDates(exec, g, calls, k);
    AllAreRecorded(notes);
    RecordIsDatedByFirsts(notes, p, d);
  }
}
