/** The report a whole run leaves: for inputs in time order, what the runtime journaled is a well-shaped
    sequence whose report keeps exactly the latest samples and passes the validator, apart from the parts
    the model does not look into. */
module RunReports {
  import opened Common
  import opened Policy
  import opened Actuations
  import opened PolicyRuns
  import opened Intervention
  import opened Cascades
  import opened ProcessActuator
  import opened Latches
  import opened Coherence
  import opened Runtime
  import opened RuntimeRuns
  import opened SignalRecords
  import RunReasons
  import Sampling
  import Identity
  import Tracking
  import WireCodec
  import Protocol = CheckpointProtocol
  import Report
  import Journal
  import JournalFiles
  import ReportJournal

  lemma MsMonotone(a: Duration, b: Duration)
    ensures a <= b ==> Ms(a) <= Ms(b)
  {
  }

  // ---- The journal while the run lasts ----

  /** Nothing in the lists is later than `now`, and they are in order. */
  ghost predicate ListsFit<X>(log: seq<Report.Entry<X>>, now: u64) {
    && Report.TransitionsOrdered(Report.TransitionsOf(log)) && Report.SignalsOrdered(Report.SignalsOf(log))
    && Report.ErrorsOf(log) == []
    && (forall i :: 0 <= i < |Report.TransitionsOf(log)| ==> Report.TransitionsOf(log)[i].atMs <= now)
    && (forall i :: 0 <= i < |Report.SignalsOf(log)| ==>
          Report.SignalsOf(log)[i].atMs <= now && Report.SignalsOf(log)[i].reason.Some?)
  }

  /** One header, first, and none of the components that end a report. */
  ghost predicate Headed<X>(log: seq<Report.Entry<X>>) {
    && log != [] && log[0].Header? && Report.Latest(log, Report.HeaderKind) == Some(log[0])
    && Report.Count(log, Report.HeaderKind) == 1 && Report.Count(log, Report.ResetKind) == 0
    && Report.Count(log, Report.CheckpointKind) == 0 && Report.Count(log, Report.EscapeKind) == 0
    && Report.Count(log, Report.CalibrationKind) == 0 && Report.Count(log, Report.OutcomeKind) == 0
  }

  ghost predicate LogFits<X>(log: seq<Report.Entry<X>>, now: u64, samples: seq<Report.SampleWindow<X>>) {
    Headed(log) && ListsFit(log, now) && Report.SamplesOf(log) == samples
  }

  /** An entry that may be appended while the run lasts. */
  predicate Timely<X>(e: Report.Entry<X>, now: u64) {
    match e
    case Transition(t) => t.atMs == now && t.from != t.to
    case Signal(s) => s.atMs == now && Report.ValidSignal(s.signal) && s.reason.Some?
    case Sample(_) => true
    case _ => false
  }

  lemma AppendFits<X>(log: seq<Report.Entry<X>>, before: u64, now: u64, samples: seq<Report.SampleWindow<X>>,
                      e: Report.Entry<X>)
    requires LogFits(log, before, samples) && before <= now && Timely(e, now)
    ensures LogFits(log + [e], now, if e.Sample? then samples + [e.sample] else samples)
  {
    hide Report.Count, Report.Latest, Report.SamplesOf, Report.TransitionsOf, Report.SignalsOf, Report.ErrorsOf;
    Report.Appended(log, e);
  }

  lemma TimePasses<X>(log: seq<Report.Entry<X>>, before: u64, now: u64, samples: seq<Report.SampleWindow<X>>)
    requires LogFits(log, before, samples) && before <= now
    ensures LogFits(log, now, samples)
  {
    hide Report.Count, Report.Latest, Report.SamplesOf, Report.TransitionsOf, Report.SignalsOf, Report.ErrorsOf, Headed;
  }

  /** Entries that are all timely and no samples. */
  predicate AllTimely<X>(es: seq<Report.Entry<X>>, now: u64) {
    forall i :: 0 <= i < |es| ==> Timely(es[i], now) && !es[i].Sample?
  }

  lemma {:induction false} AppendAllFits<X>(log: seq<Report.Entry<X>>, now: u64,
                                            samples: seq<Report.SampleWindow<X>>, es: seq<Report.Entry<X>>)
    requires LogFits(log, now, samples) && AllTimely(es, now)
    ensures LogFits(log + es, now, samples)
  {
    hide LogFits, Timely;
    if es == [] {
      assert log + es == log;
    } else {
      var last := |es| - 1;
      AppendAllFits(log, now, samples, es[..last]);
      AppendFits(log + es[..last], now, now, samples, es[last]);
      assert log + es == log + es[..last] + [es[last]];
    }
  }

  // ---- What one event journals is timely ----

  /** Every effect carries the event's time, and every transition changes the state. */
  predicate EffectsAt(trace: seq<Effect>, at: Duration)
    decreases trace
  {
    trace == []
    || ((match trace[0]
         case Moved(t) => t.at == at && t.from != t.to
         case Executed(a) => a.requestedAt == at)
        && EffectsAt(trace[1..], at))
  }

  lemma {:induction false} EffectsConcat(a: seq<Effect>, b: seq<Effect>, at: Duration)
    requires EffectsAt(a, at) && EffectsAt(b, at)
    ensures EffectsAt(a + b, at)
  {
    if a == [] {
      assert a + b == b;
    } else {
      assert (a + b)[1..] == a[1..] + b;
      EffectsConcat(a[1..], b, at);
    }
  }

  lemma MoveAt(at: Duration, from: PolicyState, to: PolicyState)
    ensures EffectsAt(Move(at, from, to), at)
  {
  }

  lemma {:induction false} CascadeAt<A>(exec: Actuator<A>, m: Machine, a: A, at: Duration, x: Actuation)
    ensures EffectsAt(Cascade(exec, m, a, at, x).trace, at)
    decreases Unstarted(m), Rank(x)
  {
    hide Step;
    var (b, reply) := exec(a, at, x);
    var done := [Executed(Attempt(at, x, reply))];
    assert EffectsAt(done, at);
    if reply.Err? {
      var d := Answered(m, at, x, reply.error);
      MoveAt(at, m.state, d.machine.state);
      EffectsConcat(done, Move(at, m.state, d.machine.state), at);
      FailureLowersRank(m, at, x, reply.error);
      AnswerIsOne(m, at, x, reply.error);
      var tried := ActuationsOf(d.actions);
      if tried != [] {
        CascadeAt(exec, d.machine, b, at, tried[0]);
        EffectsConcat(done + Move(at, m.state, d.machine.state), Cascade(exec, d.machine, b, at, tried[0]).trace, at);
      }
    }
  }

  lemma HandledAt(g: Engine<Supervised>, e: Event)
    requires Inv(g.machine)
    ensures EffectsAt(HandleEvent(Execute, g, e).trace, e.At())
    ensures forall i :: 0 <= i < |Attempts(HandleEvent(Execute, g, e).trace)| ==>
              Attempts(HandleEvent(Execute, g, e).trace)[i].requestedAt == e.At()
  {
    hide HandleEvent, Step, Inv, Execute;
    HandleIsCascade(Execute, g, e);
    var d := Step(g.machine, e);
    var tried := ActuationsOf(d.actions);
    if tried != [] {
      CascadeAt(Execute, d.machine, g.actuator, e.At(), tried[0]);
    }
    MoveAt(e.At(), g.machine.state, d.machine.state);
    EffectsConcat(Move(e.At(), g.machine.state, d.machine.state),
                  Cascades.Pending(Execute, d.machine, g.actuator, e.At(), tried).trace, e.At());
    AttemptsAt(HandleEvent(Execute, g, e).trace, e.At());
  }

  lemma {:induction false} AttemptsAt(trace: seq<Effect>, at: Duration)
    requires EffectsAt(trace, at)
    ensures forall i :: 0 <= i < |Attempts(trace)| ==> Attempts(trace)[i].requestedAt == at
  {
    if trace != [] {
      AttemptsAt(trace[1..], at);
    }
  }

  lemma {:induction false} TransitionsAreTimely<X>(trace: seq<Effect>, at: Duration, footprint: Option<u64>)
    requires EffectsAt(trace, at)
    ensures AllTimely<X>(TransitionLog(trace, footprint), Ms(at))
  {
    if trace != [] {
      TransitionsAreTimely<X>(trace[1..], at, footprint);
    }
  }

  predicate AllAt(attempts: seq<Attempt>, at: Duration) {
    forall i :: 0 <= i < |attempts| ==> attempts[i].requestedAt == at
  }

  lemma {:induction false} SignalsAreTimely<X>(l: Latches, negotiated: bool, attempts: seq<Attempt>, at: Duration)
    requires AllAt(attempts, at) && AllReasoned(ReasonsOf(l, negotiated, attempts))
    ensures AllTimely<X>(SignalLog(l, negotiated, attempts), Ms(at))
    decreases attempts
  {
    hide NoteAttempt;
    if attempts != [] {
      var rest := ReasonsOf(NoteAttempt(l, negotiated, attempts[0]), negotiated, attempts[1..]);
      var reasons := ReasonsOf(l, negotiated, attempts);
      assert reasons[0] == ActuationReason(attempts[0].action, l.cause, l.shutdown);
      assert forall i :: 0 <= i < |rest| ==> rest[i] == reasons[i + 1];
      SignalsAreTimely<X>(NoteAttempt(l, negotiated, attempts[0]), negotiated, attempts[1..], at);
    }
  }

  // ---- The checkpoint time ----

  predicate LatchedBy(l: Latches, now: u64) {
    l.atMs.Some? ==> l.atMs.value <= now
  }

  lemma {:induction false} TransitionsKeepTime(l: Latches, cause: Reason, trace: seq<Effect>)
    ensures NoteTransitions(l, cause, trace).atMs == l.atMs
    decreases trace
  {
    if trace != [] {
      match trace[0]
      case Moved(t) => TransitionsKeepTime(NoteTransition(l, cause, t), cause, trace[1..]);
      case Executed(_) => TransitionsKeepTime(l, cause, trace[1..]);
    }
  }

  lemma {:induction false} AttemptsKeepTime(l: Latches, negotiated: bool, attempts: seq<Attempt>, at: Duration)
    requires LatchedBy(l, Ms(at)) && AllAt(attempts, at)
    ensures LatchedBy(NoteAttempts(l, negotiated, attempts), Ms(at))
    decreases attempts
  {
    if attempts != [] {
      AttemptsKeepTime(NoteAttempt(l, negotiated, attempts[0]), negotiated, attempts[1..], at);
    }
  }

  lemma EventKeepsTime(l: Latches, e: Event, state: PolicyState, trace: seq<Effect>, negotiated: bool, before: u64)
    requires LatchedBy(l, before) && before <= Ms(e.At()) && AllAt(Attempts(trace), e.At())
    ensures LatchedBy(NoteAttempts(Decided(l, e, state, trace), negotiated, Attempts(trace)), Ms(e.At()))
  {
    hide NoteAttempts;
    TransitionsKeepTime(BeforeEvent(l, e, state), InterventionCauseFor(e), trace);
    AttemptsKeepTime(Decided(l, e, state, trace), negotiated, Attempts(trace), e.At());
  }

  /** The journal and the checkpoint time after one applied event. */
  lemma ApplyJournals<X>(c: Control<X>, e: Event, all: seq<Attempt>, before: u64, samples: seq<Report.SampleWindow<X>>)
    requires Applicable(c, e, all) && |all| + 3 <= U64_MAX
    requires LogFits(c.log, before, samples) && LatchedBy(c.latches, before) && before <= Ms(e.At())
    ensures LogFits(ApplyStep(c, e).log, Ms(e.At()), samples) && LatchedBy(ApplyStep(c, e).latches, Ms(e.At()))
  {
    hide HandleEvent, ApplyStep, LogFits, Decided, NoteAttempts, ReasonsOf, TransitionLog, SignalLog, LatchedBy,
         AllReasoned,
         Coherently, ReadyFor, Inv;
    var trace := HandleEvent(Execute, c.engine, e).trace;
    ReadyIsInv(c.engine.machine, c.engine.actuator, c.latches, e);
    ApplyKeeps(c, e, all);
    HandledAt(c.engine, e);
    var decided := Decided(c.latches, e, c.engine.machine.state, trace);
    var negotiated := c.negotiation.Ready?;
    TransitionsAreTimely<X>(trace, e.At(), ObservedValue(c.footprint));
    SignalsAreTimely<X>(decided, negotiated, Attempts(trace), e.At());
    EventKeepsTime(c.latches, e, c.engine.machine.state, trace, negotiated, before);
    TimePasses(c.log, before, Ms(e.At()), samples);
    AppendAllFits(c.log, Ms(e.At()), samples, TransitionLog(trace, ObservedValue(c.footprint)));
    AppendAllFits(c.log + TransitionLog(trace, ObservedValue(c.footprint)), Ms(e.At()), samples,
                  SignalLog(decided, negotiated, Attempts(trace)));
  }

  // ---- The retained samples ----

  /** How many of `n` samples are kept. */
  function Kept(n: nat): nat {
    Min(n, MAX_SAMPLE_HISTORY)
  }

  /** The sampler's history, the runtime's windows and the escape flag after these samples. */
  ghost predicate Sampled<X>(rt: Runtime<X>, taken: seq<Report.SampleWindow<X>>) {
    var n := |taken|;
    var history := rt.sampler.history;
    && rt.sampler.config.historyCapacity == MAX_SAMPLE_HISTORY
    && rt.windows == Last(taken, MAX_SAMPLE_HISTORY)
    && rt.sampler.nextSequence == Min(n, U64_MAX) && |history| == Kept(n)
    && (forall i :: 0 <= i < |history| ==> history[i].sequence == Min(n - |history| + i, U64_MAX))
    && (rt.sampler.tracker.escapedCount > 0 ==> rt.escapeDetected)
  }

  /** The samples journaled before the run ends: all of them, up to the capacity. */
  function Journaled<X>(taken: seq<Report.SampleWindow<X>>): seq<Report.SampleWindow<X>> {
    taken[..Kept(|taken|)]
  }

  ghost function NextWindow<X>(rt: Runtime<X>, t: Taken<X>): Report.SampleWindow<X>
    requires rt.sampler.config.historyCapacity > 0
  {
    WindowOf(RecordedSample(rt, t).sample, t.processedAt, t.advisory)
  }

  lemma RecordedFits<X>(rt: Runtime<X>, t: Taken<X>, taken: seq<Report.SampleWindow<X>>)
    requires Sampled(rt, taken)
    ensures var r := RecordedSample(rt, t);
            && r.sample.sequence == Min(|taken|, U64_MAX) && r.sampler.nextSequence == Min(|taken| + 1, U64_MAX)
            && r.sampler.history == Push(rt.sampler.history, r.sample, MAX_SAMPLE_HISTORY)
            && r.sampler.config == rt.sampler.config
            && r.sample.startedAt == t.startedAt && r.sample.finishedAt == t.finishedAt
            && (r.sampler.tracker.escapedCount > 0 ==> rt.sampler.tracker.escapedCount > 0 || r.sample.escapeObserved)
  {
    hide Tracking.ScanAll, Sampling.OutcomeOf, Push;
  }

  lemma PushedHistoryFits<X>(rt: Runtime<X>, t: Taken<X>, taken: seq<Report.SampleWindow<X>>)
    requires Sampled(rt, taken)
    ensures Sampled(RetainStep(rt, t), taken + [NextWindow(rt, t)])
  {
    hide RecordedSample, WindowOf;
    RecordedFits(rt, t, taken);
    PushKeepsLatest(taken, NextWindow(rt, t), MAX_SAMPLE_HISTORY);
  }

  /** Retaining a sample journals it exactly while the history has room. */
  lemma RetainJournals<X>(rt: Runtime<X>, t: Taken<X>, taken: seq<Report.SampleWindow<X>>, now: u64)
    requires Sampled(rt, taken) && LogFits(rt.control.log, now, Journaled(taken))
    ensures LogFits(RetainStep(rt, t).control.log, now, Journaled(taken + [NextWindow(rt, t)]))
    ensures RetainStep(rt, t).control.latches == rt.control.latches
  {
    hide RecordedSample, WindowOf, LogFits;
    RecordedFits(rt, t, taken);
    var window := NextWindow(rt, t);
    if |taken| < MAX_SAMPLE_HISTORY {
      AppendFits(rt.control.log, now, now, Journaled(taken), Report.Sample(window));
      assert Journaled(taken + [window]) == Journaled(taken) + [window];
    } else {
      assert rt.control.log + [] == rt.control.log;
      assert Journaled(taken + [window]) == Journaled(taken);
    }
  }

  /** The windows are in processing order, none later than `now`, and captured before they were processed. */
  ghost predicate WindowsFit<X>(taken: seq<Report.SampleWindow<X>>, now: u64) {
    && (forall i, j :: 0 <= i < j < |taken| ==> taken[i].processedAtMs <= taken[j].processedAtMs)
    && (forall i :: 0 <= i < |taken| ==> taken[i].capturedAtMs <= taken[i].processedAtMs <= now)
  }

  lemma NextWindowFits<X>(rt: Runtime<X>, t: Taken<X>, taken: seq<Report.SampleWindow<X>>, now: u64)
    requires Sampled(rt, taken) && WindowsFit(taken, now) && now <= Ms(t.processedAt) && t.finishedAt <= t.processedAt
    ensures WindowsFit(taken + [NextWindow(rt, t)], Ms(t.processedAt))
  {
    hide RecordedSample;
    RecordedFits(rt, t, taken);
    MsMonotone(t.finishedAt, t.processedAt);
  }

  // ---- A whole run ----

  /** The clock readings of one input are in order. */
  predicate WellTimed<X>(i: Input<X>) {
    i.Took? ==> i.taken.startedAt <= i.taken.finishedAt <= i.taken.processedAt
  }

  ghost predicate InOrder<X>(inputs: seq<Input<X>>) {
    && (forall i :: 0 <= i < |inputs| ==> Permitted(inputs[i]) && WellTimed(inputs[i]))
    && (forall i, j :: 0 <= i < j < |inputs| ==> TimeOf(inputs[i]) <= TimeOf(inputs[j]))
  }

  ghost predicate RunFits<X>(rt: Runtime<X>, all: seq<Attempt>, taken: seq<Report.SampleWindow<X>>, now: Duration) {
    && Coherently(rt.control, all) && FootprintFits(rt) && Sampled(rt, taken) && WindowsFit(taken, Ms(now))
    && LogFits(rt.control.log, Ms(now), Journaled(taken)) && LatchedBy(rt.control.latches, Ms(now))
  }

  /** The windows of all samples taken so far. */
  ghost function WindowsTaken<X>(start: Runtime<X>, inputs: seq<Input<X>>, k: nat): seq<Report.SampleWindow<X>>
    requires k <= |inputs| && start.sampler.config.historyCapacity > 0
  {
    if k == 0 then []
    else WindowsTaken(start, inputs, k - 1)
         + if inputs[k - 1].Took? then [NextWindow(RunAfter(start, inputs, k - 1), inputs[k - 1].taken)] else []
  }

  lemma LatchedLater(l: Latches, before: Duration, now: Duration)
    requires LatchedBy(l, Ms(before)) && before <= now
    ensures LatchedBy(l, Ms(now)) && Ms(before) <= Ms(now)
  {
    MsMonotone(before, now);
  }

  lemma HappenedFits<X>(rt: Runtime<X>, e: Event, all: seq<Attempt>, taken: seq<Report.SampleWindow<X>>, before: Duration)
    requires RunFits(rt, all, taken, before) && before <= e.At() && FromTheLoop(e) && |all| + 3 <= U64_MAX
    ensures var n := rt.(control := ApplyStep(rt.control, e));
            Sampled(n, taken) && WindowsFit(taken, Ms(e.At())) && LogFits(n.control.log, Ms(e.At()), Journaled(taken))
            && LatchedBy(n.control.latches, Ms(e.At()))
  {
    hide ApplyStep, LogFits, Coherently, Applicable;
    LatchedLater(rt.control.latches, before, e.At());
    LoopEventsAreReady(rt.control, e, all);
    ApplyJournals(rt.control, e, all, Ms(before), Journaled(taken));
  }

  lemma TookFits<X>(rt: Runtime<X>, t: Taken<X>, all: seq<Attempt>, taken: seq<Report.SampleWindow<X>>, before: Duration)
    requires RunFits(rt, all, taken, before) && before <= t.processedAt && |all| + 3 <= U64_MAX
    requires t.startedAt <= t.finishedAt <= t.processedAt
    ensures var n := SnapshotStep(rt, t);
            var more := taken + [NextWindow(rt, t)];
            Sampled(n, more) && WindowsFit(more, Ms(t.processedAt)) && LogFits(n.control.log, Ms(t.processedAt), Journaled(more))
            && LatchedBy(n.control.latches, Ms(t.processedAt))
  {
    hide ApplyStep, LogFits, Coherently, Applicable, RetainStep, SampleInput, NextWindow, WindowsFit;
    LatchedLater(rt.control.latches, before, t.processedAt);
    RetainKeeps(rt, t, all);
    PushedHistoryFits(rt, t, taken);
    RetainJournals(rt, t, taken, Ms(before));
    NextWindowFits(rt, t, taken, Ms(before));
    ApplyJournals(RetainStep(rt, t).control, SampleInput(rt, t), all, Ms(before),
                  Journaled(taken + [NextWindow(rt, t)]));
  }

  lemma PolledFits<X>(rt: Runtime<X>, at: Duration, handshake: ReadOutcome, read: ReadOutcome, all: seq<Attempt>,
                      taken: seq<Report.SampleWindow<X>>, before: Duration)
    requires RunFits(rt, all, taken, before) && before <= at && |all| + 3 <= U64_MAX
    ensures var n := rt.(control := PollStep(rt.control, at, handshake, read));
            Sampled(n, taken) && WindowsFit(taken, Ms(at)) && LogFits(n.control.log, Ms(at), Journaled(taken))
            && LatchedBy(n.control.latches, Ms(at))
  {
    hide ApplyStep, LogFits, Coherently, Applicable, PollStep, PollOf, Negotiate;
    LatchedLater(rt.control.latches, before, at);
    TimePasses(rt.control.log, Ms(before), Ms(at), Journaled(taken));
    PollStepIs(rt.control, at, handshake, read);
    NegotiationKeeps(rt.control, handshake, all);
    var c := Negotiate(rt.control, handshake);
    if c.negotiation.Ready? && c.engine.machine.state.CheckpointRequested? {
      PollIsReady(c, at, read, all);
      var (n, event) := PollOf(c, at, read);
      if event.Some? {
        ApplyJournals(n, event.value, all, Ms(at), Journaled(taken));
      }
    }
  }

  /** A run the report theorems are about: a fresh start whose journal fits, inputs in time order, and
      room in the 64-bit attempt counter. */
  ghost predicate ProperInputs<X>(start: Runtime<X>, inputs: seq<Input<X>>, begun: Duration) {
    && start.sampler.config.historyCapacity == MAX_SAMPLE_HISTORY
    && (|inputs| > 0 ==> begun <= TimeOf(inputs[0])) && 3 * |inputs| + 3 <= U64_MAX
    && Fresh(start) && RunFits(start, [], [], begun) && InOrder(inputs)
  }

  /** The time of the latest of the first `k` inputs. */
  function LatestOf<X>(inputs: seq<Input<X>>, k: nat, begun: Duration): Duration
    requires k <= |inputs|
  {
    if k == 0 then begun else TimeOf(inputs[k - 1])
  }

  ghost predicate RunFitsAt<X>(start: Runtime<X>, inputs: seq<Input<X>>, k: nat, begun: Duration)
    requires k <= |inputs| && start.sampler.config.historyCapacity > 0
  {
    && RunFits(RunAfter(start, inputs, k), RunDoes(start, inputs, k).made, WindowsTaken(start, inputs, k),
               LatestOf(inputs, k, begun))
    && |RunDoes(start, inputs, k).made| <= 3 * k
  }

  lemma {:induction false} RunKeepsReport<X>(start: Runtime<X>, inputs: seq<Input<X>>, k: nat, begun: Duration)
    requires k <= |inputs| && ProperInputs(start, inputs, begun)
    ensures RunFitsAt(start, inputs, k, begun)
  {
    hide RunStep, StepDoes, Coherently, Sampled, WindowsFit, LogFits, LatchedBy, Fresh, WellTimed;
    if k > 0 {
      RunKeepsReport(start, inputs, k - 1, begun);
      var rt := RunAfter(start, inputs, k - 1);
      var taken := WindowsTaken(start, inputs, k - 1);
      var last := LatestOf(inputs, k - 1, begun);
      assert last <= TimeOf(inputs[k - 1]);
      StepKeepsReport(rt, inputs[k - 1], RunDoes(start, inputs, k - 1).made, taken, last);
      assert taken + [] == taken;
    }
  }

  lemma StepKeepsReport<X>(rt: Runtime<X>, i: Input<X>, all: seq<Attempt>, taken: seq<Report.SampleWindow<X>>,
                           last: Duration)
    requires rt.sampler.config.historyCapacity > 0
    requires RunFits(rt, all, taken, last) && last <= TimeOf(i) && Permitted(i) && WellTimed(i)
    requires |all| + 3 <= U64_MAX
    ensures RunFits(RunStep(rt, i), all + StepDoes(rt, i).made,
                    taken + (if i.Took? then [NextWindow(rt, i.taken)] else []), TimeOf(i))
    ensures |StepDoes(rt, i).made| <= 3
  {
    hide Coherently, Sampled, WindowsFit, LogFits, LatchedBy, ApplyStep, SnapshotStep, PollStep, NextWindow, StepDoes,
         Accounted;
    RunStepKeeps(rt, i, all);
    assert taken + [] == taken;
    match i
    case Happened(e) => HappenedFits(rt, e, all, taken, last);
    case Polled(at, handshake, read) => PolledFits(rt, at, handshake, read, all, taken, last);
    case Took(t) => TookFits(rt, t, all, taken, last);
  }

  // ---- Windows of no length ----

  /** The samples taken by the first `k` inputs. */
  function SamplesTaken<X>(inputs: seq<Input<X>>, k: nat): seq<Taken<X>>
    requires k <= |inputs|
  {
    if k == 0 then []
    else SamplesTaken(inputs, k - 1) + if inputs[k - 1].Took? then [inputs[k - 1].taken] else []
  }

  /** Every sample the report keeps took time: its two clock readings differ. */
  predicate KeptTookTime<X>(inputs: seq<Input<X>>) {
    var kept := Last(SamplesTaken(inputs, |inputs|), MAX_SAMPLE_HISTORY);
    forall i :: 0 <= i < |kept| ==> kept[i].startedAt < kept[i].finishedAt
  }

  lemma WindowLength<X>(rt: Runtime<X>, t: Taken<X>)
    requires rt.sampler.config.historyCapacity > 0 && t.startedAt <= t.finishedAt
    ensures NextWindow(rt, t).windowMs > 0 <==> t.startedAt < t.finishedAt
  {
    hide Tracking.ScanAll, Sampling.OutcomeOf, Push;
  }

  lemma {:induction false} WindowsTookTime<X>(start: Runtime<X>, inputs: seq<Input<X>>, k: nat)
    requires k <= |inputs| && start.sampler.config.historyCapacity > 0 && InOrder(inputs)
    ensures var windows, taken := WindowsTaken(start, inputs, k), SamplesTaken(inputs, k);
            && |windows| == |taken|
            && forall i :: 0 <= i < |taken| ==> (windows[i].windowMs > 0 <==> taken[i].startedAt < taken[i].finishedAt)
  {
    hide RunAfter, NextWindow, Permitted;
    if k > 0 {
      WindowsTookTime(start, inputs, k - 1);
      if inputs[k - 1].Took? {
        assert WellTimed(inputs[k - 1]);
        WindowLength(RunAfter(start, inputs, k - 1), inputs[k - 1].taken);
      }
    }
  }

  lemma KeptWindowsTookTime<X>(start: Runtime<X>, inputs: seq<Input<X>>)
    requires start.sampler.config.historyCapacity > 0 && InOrder(inputs)
    ensures var kept := Last(WindowsTaken(start, inputs, |inputs|), MAX_SAMPLE_HISTORY);
            (forall i :: 0 <= i < |kept| ==> kept[i].windowMs > 0) <==> KeptTookTime(inputs)
  {
    WindowsTookTime(start, inputs, |inputs|);
    hide WindowsTaken, SamplesTaken, InOrder;
    var windows, taken := WindowsTaken(start, inputs, |inputs|), SamplesTaken(inputs, |inputs|);
    var kept, last := Last(windows, MAX_SAMPLE_HISTORY), Last(taken, MAX_SAMPLE_HISTORY);
    var skipped: nat := if |taken| <= MAX_SAMPLE_HISTORY then 0 else |taken| - MAX_SAMPLE_HISTORY;
    assert kept == windows[skipped..] && last == taken[skipped..];
    assert forall i :: 0 <= i < |last| ==> (kept[i].windowMs > 0 <==> last[i].startedAt < last[i].finishedAt);
  }

  // ---- The end of a run ----

  /** A journal whose retained history has been written, or did not need to be. */
  ghost predicate Closed<X>(log: seq<Report.Entry<X>>, of: seq<Report.Entry<X>>, samples: seq<Report.SampleWindow<X>>) {
    && log != [] && of != [] && log[0] == of[0] && Report.Latest(log, Report.HeaderKind) == Some(log[0])
    && Report.Count(log, Report.HeaderKind) == 1 && Report.Count(log, Report.ResetKind) <= 1
    && Report.Count(log, Report.CheckpointKind) == 0 && Report.Count(log, Report.EscapeKind) == 0
    && Report.Count(log, Report.CalibrationKind) == 0 && Report.Count(log, Report.OutcomeKind) == 0
    && Report.SamplesOf(log) == samples && Report.TransitionsOf(log) == Report.TransitionsOf(of)
    && Report.SignalsOf(log) == Report.SignalsOf(of) && Report.ErrorsOf(log) == Report.ErrorsOf(of)
  }

  lemma {:induction false} SamplesClose<X>(log: seq<Report.Entry<X>>, of: seq<Report.Entry<X>>,
                                           samples: seq<Report.SampleWindow<X>>)
    requires Closed(log, of, [])
    ensures Closed(log + Report.SampleEntries(samples), of, samples)
  {
    hide Report.Count, Report.Latest, Report.SamplesOf, Report.TransitionsOf, Report.SignalsOf, Report.ErrorsOf;
    if samples == [] {
      assert log + Report.SampleEntries(samples) == log;
    } else {
      var last := |samples| - 1;
      var shorter := log + Report.SampleEntries(samples[..last]);
      SamplesClose(log, of, samples[..last]);
      Report.Appended(shorter, Report.Sample(samples[last]));
      assert log + Report.SampleEntries(samples) == shorter + [Report.Sample(samples[last])];
      assert samples == samples[..last] + [samples[last]];
    }
  }

  /** Before the closing records, the journal replays to exactly the latest samples, whether or not the
      history had to be rewritten. */
  lemma HistoryCloses<X>(rt: Runtime<X>, taken: seq<Report.SampleWindow<X>>, now: u64)
    requires Sampled(rt, taken) && LogFits(rt.control.log, now, Journaled(taken))
    ensures Closed(rt.control.log + RecentHistory(rt.sampler.history, rt.windows), rt.control.log,
                   Last(taken, MAX_SAMPLE_HISTORY))
  {
    hide Report.Count, Report.Latest, Report.SamplesOf, Report.TransitionsOf, Report.SignalsOf, Report.ErrorsOf,
         ListsFit;
    var log := rt.control.log;
    if rt.sampler.history == [] || rt.sampler.history[0].sequence == 0 {
      assert |taken| <= MAX_SAMPLE_HISTORY;
      assert log + [] == log && Journaled(taken) == taken;
    } else {
      var reset: Report.Entry<X> := Report.SampleHistoryReset;
      Report.Appended(log, reset);
      SamplesClose(log + [reset], log, rt.windows);
      assert log + ([reset] + Report.SampleEntries(rt.windows)) == log + [reset] + Report.SampleEntries(rt.windows);
    }
  }

  /** The closing records complete a well-shaped sequence, whatever they say. */
  lemma ClosingCompletes<X>(log: seq<Report.Entry<X>>, of: seq<Report.Entry<X>>, samples: seq<Report.SampleWindow<X>>,
                            checkpoint: Report.CheckpointRecord, escape: Report.EscapeEvidence,
                            outcome: Report.TerminalOutcome)
    requires Closed(log, of, samples) && of[0].Header?
    ensures var all := log + [Report.Checkpoint(checkpoint)] + [Report.Escape(escape)] + [Report.Outcome(outcome)];
            && Report.WellShaped(all)
            && Report.ReportOf(all) == Report.Report(
                 of[0].header, of[0].configuration, samples, Report.TransitionsOf(of), Report.SignalsOf(of),
                 checkpoint, escape, Report.ErrorsOf(of), outcome, None)
  {
    hide Report.Count, Report.Latest, Report.SamplesOf, Report.TransitionsOf, Report.SignalsOf, Report.ErrorsOf;
    Report.Appended(log, Report.Checkpoint(checkpoint));
    Report.Appended(log + [Report.Checkpoint(checkpoint)], Report.Escape(escape));
    Report.Appended(log + [Report.Checkpoint(checkpoint)] + [Report.Escape(escape)], Report.Outcome(outcome));
  }

  /** What the validator asks of a run's report that its inputs do not settle: the parts the model does not
      look into, the configuration and the outcome. */
  ghost predicate Acceptable<X>(rules: Report.Rules<X>, r: Report.Report<X>) {
    && rules.header(r.header) && Report.ValidConfiguration(r.configuration, r.outcome) && Report.ValidOutcome(r.outcome)
    && (forall i :: 0 <= i < |r.samples| ==> rules.advisory(r.samples[i].advisory, r.samples[i].processedAtMs))
  }

  /** Kept windows are in order, none after `now`, and fail the validator only by taking no time. */
  lemma KeptWindowsFit<X>(taken: seq<Report.SampleWindow<X>>, kept: seq<Report.SampleWindow<X>>, now: u64)
    requires kept == Last(taken, MAX_SAMPLE_HISTORY) && WindowsFit(taken, now)
    ensures Report.SamplesOrdered(kept) <==> forall i :: 0 <= i < |kept| ==> kept[i].windowMs > 0
    ensures forall i :: 0 <= i < |kept| ==> kept[i].processedAtMs <= now
  {
    var skipped: nat := if |taken| <= MAX_SAMPLE_HISTORY then 0 else |taken| - MAX_SAMPLE_HISTORY;
    assert kept == taken[skipped..];
  }

  /** The recorded lists end by `now`. */
  ghost predicate ListsEndBy<X>(r: Report.Report<X>, now: u64) {
    && (forall i :: 0 <= i < |r.transitions| ==> r.transitions[i].atMs <= now)
    && (forall i :: 0 <= i < |r.signals| ==> r.signals[i].atMs <= now)
    && (r.checkpoint.atMs.Some? ==> r.checkpoint.atMs.value <= now)
    && r.artifactErrors == []
  }

  lemma NothingAfterOutcome<X>(r: Report.Report<X>, now: u64)
    requires ListsEndBy(r, now) && now <= r.outcome.atMs
    requires forall i :: 0 <= i < |r.samples| ==> r.samples[i].processedAtMs <= now
    ensures Report.OutcomeIsLast(r)
  {
  }

  lemma RunIsAcceptable<X>(rules: Report.Rules<X>, r: Report.Report<X>, taken: seq<Report.SampleWindow<X>>, now: u64)
    requires r.samples == Last(taken, MAX_SAMPLE_HISTORY) && WindowsFit(taken, now) && now <= r.outcome.atMs
    requires Report.TransitionsOrdered(r.transitions) && Report.SignalsOrdered(r.signals) && ListsEndBy(r, now)
    requires Report.ValidCheckpoint(r.checkpoint) && Report.ValidEscape(r.escape) && r.calibration.None?
    ensures Report.ValidReport(rules, r) <==>
              Acceptable(rules, r) && forall i :: 0 <= i < |r.samples| ==> r.samples[i].windowMs > 0
  {
    hide Report.ValidConfiguration, Report.ValidOutcome, Report.ValidCheckpoint, Report.ValidEscape,
         Report.SamplesOrdered,
         Report.TransitionsOrdered, Report.SignalsOrdered, Report.OutcomeIsLast, WindowsFit, Last, ListsEndBy;
    KeptWindowsFit(taken, r.samples, now);
    NothingAfterOutcome(r, now);
    NoErrorsAreOrdered(r, now);
  }

  lemma NoErrorsAreOrdered<X>(r: Report.Report<X>, now: u64)
    requires ListsEndBy(r, now)
    ensures Report.ErrorsOrdered(r.artifactErrors)
  {
  }

  /** The runtime as it is built before the loop: a valid policy and a nonzero request id, no sample, no
      attempt, nothing latched, the header journaled, and a channel, if any, that was never used. */
  function Start<X>(policy: PolicyConfig, requestId: u64, channel: Option<Channel>, replies: seq<OsReply>,
                    sampling: Sampling.SamplingConfig, tracker: Identity.Tracker, header: X,
                    configuration: Report.Configuration): Runtime<X>
  {
    Runtime(Control(Engine(Enforcing(policy, requestId), Supervised(channel, replies), NO_EVIDENCE, None),
                    Negotiation.Pending, NO_LATCHES, false, None, Report.Unknown,
                    [Report.Header(header, configuration)]),
            Sampling.Sampler(sampling, tracker, [], 0, None), [], false)
  }

  lemma HeaderFits<X>(header: X, configuration: Report.Configuration, now: u64)
    ensures LogFits([Report.Header(header, configuration)], now, [])
  {
    hide Report.Count, Report.Latest, Report.SamplesOf, Report.TransitionsOf, Report.SignalsOf, Report.ErrorsOf;
    var entry: Report.Entry<X> := Report.Header(header, configuration);
    Report.NothingCollected<X>();
    Report.Appended([], entry);
    assert [] + [entry] == [entry];
  }

  lemma NewChannelIsUntouched(nonce: WireCodec.Nonce, replies: seq<OsReply>)
    ensures Untouched(Supervised(Some(Channel(Protocol.New(nonce), true, false, [])), replies), NO_LATCHES)
  {
  }

  /** A runtime built on a new channel is one a run may start from. */
  lemma StartFits<X>(policy: PolicyConfig, requestId: u64, nonce: WireCodec.Nonce, replies: seq<OsReply>,
                     sampling: Sampling.SamplingConfig, root: Identity.ProcessIdentity, group: i32, header: X,
                     configuration: Report.Configuration, begun: Duration)
    requires ValidConfig(policy) && requestId != 0 && sampling.historyCapacity == MAX_SAMPLE_HISTORY
    ensures var channel := Channel(Protocol.New(nonce), true, false, []);
            var start := Start(policy, requestId, Some(channel), replies, sampling,
                               Identity.Tracker(root, group, [], {}, 0, false), header, configuration);
            Fresh(start) && RunFits(start, [], [], begun)
  {
    hide LogFits, Inv, Untouched, Protocol.New, Coherently, Ms;
    EnforcingKeepsInv(policy, requestId);
    NewChannelIsUntouched(nonce, replies);
    HeaderFits(header, configuration, Ms(begun));
    var channel := Channel(Protocol.New(nonce), true, false, []);
    StartIsCoherent(Start(policy, requestId, Some(channel), replies, sampling,
                          Identity.Tracker(root, group, [], {}, 0, false), header, configuration));
  }

  /** Such a run, ended by an outcome no earlier than its last input. */
  ghost predicate ProperRun<X>(start: Runtime<X>, inputs: seq<Input<X>>, begun: Duration, outcome: Report.TerminalOutcome) {
    Ms(LatestOf(inputs, |inputs|, begun)) <= outcome.atMs && ProperInputs(start, inputs, begun)
  }

  /** The report says whether an escape was seen, and how many were counted, if any. */
  predicate TellsEscapes<X>(r: Report.EscapeEvidence, rt: Runtime<X>) {
    && r.detected == Report.Available(rt.escapeDetected)
    && (if rt.sampler.tracker.escapedCount == 0 then r.escapedCount.None?
        else r.escapedCount == Some(rt.sampler.tracker.escapedCount))
  }

  /** What replaying the whole journal of a run gives: a report with exactly the last min(n, 4096) of its n
      samples, in order, the latched checkpoint record and the escapes counted; its signals tell exactly what
      the run attempted and sent, each with the reason of the event that caused it, in the escalation's shape; its transitions tell exactly
      the machine's moves, each with the latest retained total, without a gap from the first state to the
      last; and it is accepted exactly when every kept sample took time and the parts the inputs do not settle
      are acceptable. */
  ghost predicate ReportTells<X>(start: Runtime<X>, inputs: seq<Input<X>>, outcome: Report.TerminalOutcome,
                                 rules: Report.Rules<X>)
    requires start.sampler.config.historyCapacity > 0
  {
    var journal := FinalLog(RunAfter(start, inputs, |inputs|), outcome);
    && Report.WellShaped(journal)
    && var r := Report.ReportOf(journal);
       && r.samples == Last(WindowsTaken(start, inputs, |inputs|), MAX_SAMPLE_HISTORY)
       && r.checkpoint == RecordOf(RunAfter(start, inputs, |inputs|).control.latches)
       && TellsEscapes(r.escape, RunAfter(start, inputs, |inputs|))
       && Recorded(r.signals, RunDoes(start, inputs, |inputs|).made) && SignalShape(r.signals)
       && ReasonsTold(r.signals, RunDoes(start, inputs, |inputs|).made, RunReasons.RunWhy(start, inputs, |inputs|))
       && MovesRecorded(r.transitions, RunDoes(start, inputs, |inputs|).moves)
       && IsPath(start.control.engine.machine.state, RunDoes(start, inputs, |inputs|).moves,
                 RunAfter(start, inputs, |inputs|).control.engine.machine.state)
       && Report.Replay(rules, journal) == if KeptTookTime(inputs) && Acceptable(rules, r) then Some(r) else None
  }

  lemma RunReport<X>(start: Runtime<X>, inputs: seq<Input<X>>, begun: Duration, outcome: Report.TerminalOutcome,
                     rules: Report.Rules<X>)
    requires ProperRun(start, inputs, begun, outcome)
    ensures ReportTells(start, inputs, outcome, rules)
  {
    hide RunAfter, RunDoes, Coherent, Sampled, WindowsFit, Headed, Report.WellShaped, Report.ReportOf,
         Report.ValidReport,
         Acceptable, Report.Count, Report.Latest, Report.SamplesOf, Report.TransitionsOf, Report.SignalsOf,
         Report.ErrorsOf, RecentHistory, Fresh, KeptTookTime, Recorded, SignalShape, WindowsTaken, Last, MovesRecorded,
         IsPath, FootprintFits, ReasonsTold, RunReasons.RunWhy, RunReasons.WhyTold;
    RunKeepsReport(start, inputs, |inputs|, begun);
    RunIsCoherent(start, inputs, |inputs|);
    RunReasons.RunTellsWhy(start, inputs, |inputs|);
    KeptWindowsTookTime(start, inputs);
    hide InOrder;
    var rt := RunAfter(start, inputs, |inputs|);
    var taken := WindowsTaken(start, inputs, |inputs|);
    var now := Ms(LatestOf(inputs, |inputs|, begun));
    HistoryCloses(rt, taken, now);
    var closed := rt.control.log + RecentHistory(rt.sampler.history, rt.windows);
    var count := rt.sampler.tracker.escapedCount;
    var escape := Report.EscapeEvidence(Report.Available(rt.escapeDetected), if count > 0 then Some(count) else None);
    HeaderFirst(rt.control.log);
    EscapeIsValid(rt, taken);
    ClosingCompletes(closed, rt.control.log, Last(taken, MAX_SAMPLE_HISTORY), RecordOf(rt.control.latches), escape,
                     outcome);
    RunIsAcceptable(rules, Report.ReportOf(FinalLog(rt, outcome)), taken, now);
  }

  lemma OneEmptySample<X>(t: Taken<X>)
    requires t.startedAt == t.finishedAt <= t.processedAt
    ensures InOrder([Took(t)]) && !KeptTookTime([Took(t)])
  {
    var inputs := [Took(t)];
    assert SamplesTaken(inputs, 0) == [];
    assert SamplesTaken(inputs, 1) == [t];
    assert Last(SamplesTaken(inputs, |inputs|), MAX_SAMPLE_HISTORY)[0] == t;
  }

  /** One sample whose two clock readings are equal costs the run its whole report. */
  lemma EmptyWindowLosesReport<X>(start: Runtime<X>, t: Taken<X>, outcome: Report.TerminalOutcome, rules: Report.Rules<X>)
    requires Fresh(start) && RunFits(start, [], [], 0) && start.sampler.config.historyCapacity == MAX_SAMPLE_HISTORY
    requires t.startedAt == t.finishedAt <= t.processedAt && Ms(t.processedAt) <= outcome.atMs
    ensures Report.Replay(rules, FinalLog(RunAfter(start, [Took(t)], 1), outcome)) == None
  {
    hide RunAfter, Fresh, RunFits, Acceptable, FinalLog, Report.WellShaped, Report.ReportOf, Recorded, SignalShape,
         InOrder,
         KeptTookTime, Ms, Report.Replay;
    OneEmptySample(t);
    RunReport(start, [Took(t)], 0, outcome, rules);
  }

  /** The run's report through its file: if every journaled entry reached the file, within the record size
      bound, finalizing the file gives what replaying the journal gives, provided it holds no more than
      65,536 records; and a file cut anywhere at or after the magic gives none. */
  lemma RunSurvivesItsJournal<X(!new)>(
    start: Runtime<X>, inputs: seq<Input<X>>, begun: Duration, outcome: Report.TerminalOutcome, rules: Report.Rules<X>,
    c: Journal.Codec<Report.Entry<X>>, journal: seq<Report.Entry<X>>, cut: nat)
    requires ProperRun(start, inputs, begun, outcome)
    requires journal == FinalLog(RunAfter(start, inputs, |inputs|), outcome)
    requires Journal.Lawful(c) && Journal.Bounded(c, journal) && cut <= |Journal.Log(c, journal)|
    ensures ReportTells(start, inputs, outcome, rules)
    ensures ReportJournal.ReportOfFile(c, rules, (Journal.JOURNAL_MAGIC + Journal.Log(c, journal))[..8 + cut])
         == if cut == |Journal.Log(c, journal)| && |journal| <= Journal.MAX_RECOVERED_RECORDS
            then Report.Replay(rules, journal) else None
  {
    hide RunAfter, FinalLog, Fresh, RunFits, InOrder, Acceptable, KeptTookTime, Report.WellShaped, Report.ReportOf,
         Report.Replay, ReportJournal.ReportOfFile, Journal.Log, Journal.Lawful, Journal.Bounded, Recorded, SignalShape;
    RunReport(start, inputs, begun, outcome, rules);
    ReportJournal.CutFileGivesNothing(c, rules, journal, cut);
  }

  /** A run whose disk failed: when any record before the outcome could not be written, whatever part of it
      reached the file, finalizing the file gives no report; when only the outcome failed, it gives none or
      the whole one. */
  lemma FailedDiskLosesReport<X(!new)>(
    start: Runtime<X>, inputs: seq<Input<X>>, begun: Duration, outcome: Report.TerminalOutcome, rules: Report.Rules<X>,
    c: Journal.Codec<Report.Entry<X>>, journal: seq<Report.Entry<X>>, k: nat, file: Bytes,
    attempted: Option<Report.Entry<X>>)
    requires ProperRun(start, inputs, begun, outcome)
    requires journal == FinalLog(RunAfter(start, inputs, |inputs|), outcome) && k < |journal|
    requires Journal.Lawful(c) && Journal.Bounded(c, journal[..k])
    requires attempted == None || attempted == Some(journal[k])
    requires JournalFiles.Holds(c, file, journal[..k], attempted)
    ensures k + 1 < |journal| || attempted == None ==> ReportJournal.ReportOfFile(c, rules, file) == None
    ensures ReportJournal.ReportOfFile(c, rules, file) == None
            || ReportJournal.ReportOfFile(c, rules, file) == Report.Replay(rules, journal)
  {
    hide RunAfter, FinalLog, Fresh, RunFits, InOrder, Acceptable, KeptTookTime, Report.WellShaped, Report.ReportOf,
         Report.Replay, ReportJournal.ReportOfFile, Journal.Log, Journal.Lawful, Journal.Bounded, Recorded, SignalShape,
         JournalFiles.Holds;
    RunReport(start, inputs, begun, outcome, rules);
    ReportJournal.FailedDiskGivesNothing(c, rules, journal, k, file, attempted);
  }

  lemma HeaderFirst<X>(log: seq<Report.Entry<X>>)
    requires Headed(log)
    ensures log != [] && log[0].Header?
  {
  }

  lemma EscapeIsValid<X>(rt: Runtime<X>, taken: seq<Report.SampleWindow<X>>)
    requires Sampled(rt, taken)
    ensures rt.sampler.tracker.escapedCount > 0 ==> rt.escapeDetected
  {
  }
}
