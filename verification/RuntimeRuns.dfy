/** Whole runs of the runtime: every input the loop can meet, in any order, keeps the report coherent. */
module RuntimeRuns {
  import opened Common
  import opened Policy
  import opened PolicyRuns
  import opened Intervention
  import opened InterventionRuns
  import opened Cascades
  import opened ProcessActuator
  import opened Latches
  import opened Coherence
  import opened Runtime
  import opened SignalRecords
  import EngineEvidence
  import Sampling
  import Report

  /** One thing the loop does: apply an event it met, poll the checkpoint channel, or take a sample. */
  datatype Input<+X> =
    | Happened(event: Event)
    | Polled(at: Duration, handshake: ReadOutcome, read: ReadOutcome)
    | Took(taken: Taken<X>)

  /** Acknowledgements and failures reach the policy only through the channel and the engine. */
  predicate FromTheLoop(e: Event) {
    e.Tick? || e.ExternalSignal? || e.SupervisorFault? || e.ProcessExited? || e.RootExited? || e.ParentExited?
  }

  function TimeOf<X>(i: Input<X>): Duration {
    match i
    case Happened(e) => e.At()
    case Polled(at, _, _) => at
    case Took(t) => t.processedAt
  }

  predicate Permitted<X>(i: Input<X>) {
    i.Happened? ==> FromTheLoop(i.event)
  }

  ghost function RunStep<X>(rt: Runtime<X>, i: Input<X>): Runtime<X>
    requires rt.sampler.config.historyCapacity > 0
  {
    match i
    case Happened(e) => rt.(control := ApplyStep(rt.control, e))
    case Polled(at, handshake, read) => rt.(control := PollStep(rt.control, at, handshake, read))
    case Took(taken) => SnapshotStep(rt, taken)
  }

  ghost function RunAfter<X>(rt: Runtime<X>, inputs: seq<Input<X>>, k: nat): Runtime<X>
    requires k <= |inputs| && rt.sampler.config.historyCapacity > 0
    ensures RunAfter(rt, inputs, k).sampler.config == rt.sampler.config
  {
    if k == 0 then rt else
      var before := RunAfter(rt, inputs, k - 1);
      StepKeepsConfig(before, inputs[k - 1]);
      RunStep(before, inputs[k - 1])
  }

  lemma StepKeepsConfig<X>(rt: Runtime<X>, i: Input<X>)
    requires rt.sampler.config.historyCapacity > 0
    ensures RunStep(rt, i).sampler.config == rt.sampler.config
  {
    hide ApplyStep, PollStep;
  }

  // ---- Coherence of the control state ----

  /** The latches agree with the machine and the channel, and the evidence holds the latest attempts. */
  ghost predicate Coherently<X>(c: Control<X>, all: seq<Attempt>) {
    && Coherent(c.engine.machine, c.engine.actuator, c.latches)
    && EngineEvidence.EvidenceFits(c.engine.evidence, all)
  }

  /** What applying an event requires of the control state. */
  ghost predicate Applicable<X>(c: Control<X>, e: Event, all: seq<Attempt>) {
    && ReadyFor(c.engine.machine, c.engine.actuator, c.latches, e)
    && EngineEvidence.EvidenceFits(c.engine.evidence, all)
  }

  /** What an event does besides moving the machine: its trace, and the latches its attempts meet. */
  ghost predicate Explained<X>(c: Control<X>, e: Event, n: Control<X>, trace: seq<Effect>) {
    var decided := Decided(c.latches, e, c.engine.machine.state, trace);
    var negotiated := c.negotiation.Ready?;
    && AllReasoned(ReasonsOf(decided, negotiated, Attempts(trace)))
    && n.latches == NoteAttempts(decided, negotiated, Attempts(trace))
    && n.log == c.log + TransitionLog(trace, ObservedValue(c.footprint)) + SignalLog(decided, negotiated, Attempts(trace))
    && n.negotiation == c.negotiation && n.footprint == c.footprint
  }

  lemma SameAttempts(records: seq<Record>, attempts: seq<Attempt>)
    requires |records| == |attempts| && forall i :: 0 <= i < |records| ==> records[i].attempt == attempts[i]
    ensures AttemptsOf(records) == attempts
  {
  }

  /** Applying an event keeps the control state coherent and records exactly the attempts it made, as
      long as the attempt counter has room for them. */
  lemma ApplyKeeps<X>(c: Control<X>, e: Event, all: seq<Attempt>)
    requires Applicable(c, e, all) && |all| + 3 <= U64_MAX
    ensures var trace := HandleEvent(Execute, c.engine, e).trace;
            && Coherently(ApplyStep(c, e), all + Attempts(trace)) && |Attempts(trace)| <= 3
            && Explained(c, e, ApplyStep(c, e), trace)
  {
    hide HandleEvent, Step, Execute, Coherent, ReadyFor, Cascades.Pending, EngineEvidence.EvidenceFits, Decided,
         ReasonsOf, NoteAttempts,
         NoteError, TransitionLog, SignalLog, EngineEvidence.NewRecords, Inv, AttemptsOf;
    var g := c.engine;
    var h := HandleEvent(Execute, g, e);
    ReadyIsInv(g.machine, g.actuator, c.latches, e);
    EventKeepsCoherent(g.machine, g.actuator, c.latches, c.negotiation.Ready?, e);
    HandleIsCascade(Execute, g, e);
    FeedbackIsBounded(Execute, g, e);
    EngineEvidence.SliceIsTheEvent(Execute, g, e, all);
    EngineEvidence.HandleFits(Execute, g, e, all);
    SameAttempts(EngineEvidence.NewRecords(h.engine.evidence, g.evidence.totalAttempts), Attempts(h.trace));
  }

  // ---- Polling ----

  lemma NegotiationKeeps<X>(c: Control<X>, handshake: ReadOutcome, all: seq<Attempt>)
    requires Coherently(c, all)
    ensures var n := Negotiate(c, handshake);
            && Coherently(n, all) && n.latches == c.latches && n.log == c.log && n.footprint == c.footprint
            && n.engine == c.engine.(actuator := n.engine.actuator)
  {
    hide Inv, EngineEvidence.EvidenceFits, Protocol.Inv;
    if c.engine.actuator.channel.Some? {
      PollReadyKeepsProtocol(c, handshake);
    }
  }

  lemma PollReadyKeepsProtocol<X>(c: Control<X>, handshake: ReadOutcome)
    requires c.engine.actuator.channel.Some?
    ensures PollReady(c.engine.actuator.channel.value, handshake).0.protocol == c.engine.actuator.channel.value.protocol
  {
  }

  /** What one poll hands to the policy: the latched control state, and the event to apply, if any. */
  function PollOf<X>(c: Control<X>, at: Duration, read: ReadOutcome): (Control<X>, Option<Event>) {
    var (actuator, seen) := PollCheckpoint(c.engine.actuator, at, read);
    var polled := c.(engine := c.engine.(actuator := actuator));
    match seen
    case None => (polled, Some(ActuationFailed(at, CheckpointKind, CheckpointUnavailable)))
    case Some(o) =>
      (polled.(latches := if o.artifact.Some? then polled.latches.(artifact := o.artifact) else polled.latches), o.event)
  }

  /** A poll of an open request leaves a coherent state, or an event that is ready to be applied. */
  lemma PollIsReady<X>(c: Control<X>, at: Duration, read: ReadOutcome, all: seq<Attempt>)
    requires Coherently(c, all) && c.engine.machine.state.CheckpointRequested?
    ensures var (n, event) := PollOf(c, at, read);
            && (event.None? ==> Coherently(n, all) && n.latches == c.latches)
            && (event.Some? ==> Applicable(n, event.value, all) && event.value.At() == at)
            && n.log == c.log && n.negotiation == c.negotiation && n.footprint == c.footprint
            && n.engine == c.engine.(actuator := n.engine.actuator)
            && n.latches == c.latches.(artifact := n.latches.artifact)
  {
    hide PollCheckpoint, EngineEvidence.EvidenceFits, Waiting;
    var m := c.engine.machine;
    PollAnswersTheRequest(c.engine.actuator, at, read, m.activeRequestId, m.checkpointDeadline);
    var seen := PollCheckpoint(c.engine.actuator, at, read).1;
    var (n, event) := PollOf(c, at, read);
    assert seen.Some? ==> event == seen.value.event;
    if event.None? {
      assert n.latches == c.latches && ChannelWaits(m, n.engine.actuator);
    } else {
      assert event.value.At() == at && Allowed(m, event.value);
    }
  }

  lemma PollStepIs<X>(c0: Control<X>, at: Duration, handshake: ReadOutcome, read: ReadOutcome)
    ensures var c := Negotiate(c0, handshake);
            PollStep(c0, at, handshake, read)
            == if !c.negotiation.Ready? || !c.engine.machine.state.CheckpointRequested? then c
               else var (n, event) := PollOf(c, at, read); if event.Some? then ApplyStep(n, event.value) else n
  {
    hide ApplyStep, Negotiate, PollCheckpoint;
  }

  // ---- Whole runs ----

  /** The side effects attempted for one input or more, the events the machine was given for them, and
      its moves. */
  datatype Doings = Doings(made: seq<Attempt>, fed: seq<Event>, moves: seq<Seen>)

  const NOTHING := Doings([], [], [])

  function Handling(g: Engine<Supervised>, e: Event, total: Option<u64>): Doings {
    var h := HandleEvent(Execute, g, e);
    Doings(Attempts(h.trace), h.fed, MovesOf(h.trace, total))
  }

  /** The total of the latest retained sample, if it had one. */
  function LatestTotal<X>(rt: Runtime<X>): Option<u64> {
    if rt.windows == [] then None
    else
      match rt.windows[|rt.windows| - 1].footprint
      case Available(total) => Some(total)
      case _ => None
  }

  ghost function StepDoes<X>(rt: Runtime<X>, i: Input<X>): Doings
    requires rt.sampler.config.historyCapacity > 0
  {
    match i
    case Happened(e) => Handling(rt.control.engine, e, LatestTotal(rt))
    case Took(t) =>
      Handling(RetainStep(rt, t).control.engine, SampleInput(rt, t), LatestTotal(RetainStep(rt, t)))
    case Polled(at, handshake, read) =>
      var c := Negotiate(rt.control, handshake);
      if !c.negotiation.Ready? || !c.engine.machine.state.CheckpointRequested? then NOTHING
      else
        var (n, event) := PollOf(c, at, read);
        if event.Some? then Handling(n.engine, event.value, LatestTotal(rt)) else NOTHING
  }

  /** Everything a run attempts, every event its machine is given, and every move it makes, up to an input. */
  ghost function RunDoes<X>(start: Runtime<X>, inputs: seq<Input<X>>, k: nat): Doings
    requires k <= |inputs| && start.sampler.config.historyCapacity > 0
  {
    if k == 0 then NOTHING
    else Then(RunDoes(start, inputs, k - 1), StepDoes(RunAfter(start, inputs, k - 1), inputs[k - 1]))
  }

  function Then(first: Doings, next: Doings): Doings {
    Doings(first.made + next.made, first.fed + next.fed, first.moves + next.moves)
  }

  ghost predicate SignalsTold<X>(before: seq<Report.Entry<X>>, after: seq<Report.Entry<X>>, made: seq<Attempt>) {
    exists told: seq<Report.SignalRecord> ::
      Recorded(told, made) && Report.SignalsOf(after) == Report.SignalsOf(before) + told
  }

  ghost predicate MovesTold<X>(before: seq<Report.Entry<X>>, after: seq<Report.Entry<X>>, moves: seq<Seen>) {
    exists told: seq<Report.TransitionRecord> ::
      MovesRecorded(told, moves) && Report.TransitionsOf(after) == Report.TransitionsOf(before) + told
  }

  /** The machine moves as the policy does on the events it was given, along the path of the moves; the
      attempts are exactly what the policy selects for those events; and the journal tells exactly the
      attempts that sent something, and exactly the moves. */
  ghost predicate Accounted<X>(before: Control<X>, after: Control<X>, does: Doings) {
    && after.engine.machine == After(before.engine.machine, does.fed, |does.fed|)
    && Actions(does.made) == Calls(before.engine.machine, does.fed, |does.fed|)
    && IsPath(before.engine.machine.state, does.moves, after.engine.machine.state)
    && SignalsTold(before.log, after.log, does.made) && MovesTold(before.log, after.log, does.moves)
  }

  /** Journals that agree on signals and transitions. */
  predicate SameTold<X>(a: seq<Report.Entry<X>>, b: seq<Report.Entry<X>>) {
    Report.SignalsOf(a) == Report.SignalsOf(b) && Report.TransitionsOf(a) == Report.TransitionsOf(b)
  }

  lemma NothingDone<X>(before: Control<X>, after: Control<X>)
    requires after.engine.machine == before.engine.machine && SameTold(after.log, before.log)
    ensures Accounted(before, after, NOTHING)
  {
    assert Recorded([], []) && Report.SignalsOf(before.log) + [] == Report.SignalsOf(before.log);
    assert MovesRecorded([], []) && Report.TransitionsOf(before.log) + [] == Report.TransitionsOf(before.log);
  }

  lemma SignalsToldTwice<X>(a: seq<Report.Entry<X>>, b: seq<Report.Entry<X>>, c: seq<Report.Entry<X>>,
                            first: seq<Attempt>, next: seq<Attempt>)
    requires SignalsTold(a, b, first) && SignalsTold(b, c, next)
    ensures SignalsTold(a, c, first + next)
  {
    hide Recorded, Report.SignalsOf;
    var told :| Recorded(told, first) && Report.SignalsOf(b) == Report.SignalsOf(a) + told;
    var more :| Recorded(more, next) && Report.SignalsOf(c) == Report.SignalsOf(b) + more;
    RecordedConcat(told, first, more, next);
    assert Report.SignalsOf(c) == Report.SignalsOf(a) + (told + more);
  }

  lemma MovesToldTwice<X>(a: seq<Report.Entry<X>>, b: seq<Report.Entry<X>>, c: seq<Report.Entry<X>>,
                          first: seq<Seen>, next: seq<Seen>)
    requires MovesTold(a, b, first) && MovesTold(b, c, next)
    ensures MovesTold(a, c, first + next)
  {
    hide MovesRecorded, Report.TransitionsOf;
    var told :| MovesRecorded(told, first) && Report.TransitionsOf(b) == Report.TransitionsOf(a) + told;
    var more :| MovesRecorded(more, next) && Report.TransitionsOf(c) == Report.TransitionsOf(b) + more;
    MovesRecordedConcat(told, first, more, next);
    assert Report.TransitionsOf(c) == Report.TransitionsOf(a) + (told + more);
  }

  lemma AccountedTwice<X>(a: Control<X>, b: Control<X>, c: Control<X>, first: Doings, next: Doings)
    requires Accounted(a, b, first) && Accounted(b, c, next)
    ensures Accounted(a, c, Then(first, next))
  {
    hide After, Calls, SignalsTold, MovesTold, IsPath;
    SignalsToldTwice(a.log, b.log, c.log, first.made, next.made);
    MovesToldTwice(a.log, b.log, c.log, first.moves, next.moves);
    RunConcat(a.engine.machine, first.fed, next.fed, |next.fed|);
    ActionsConcat(first.made, next.made);
    PathThrough(a.engine.machine.state, first.moves, b.engine.machine.state, next.moves, c.engine.machine.state);
  }

  lemma ExplainedTells<X>(c: Control<X>, e: Event, n: Control<X>, trace: seq<Effect>)
    requires Explained(c, e, n, trace)
    ensures SignalsTold(c.log, n.log, Attempts(trace))
    ensures MovesTold(c.log, n.log, MovesOf(trace, ObservedValue(c.footprint)))
  {
    hide Decided, TransitionLog, SignalLog, Report.SignalsOf, Report.TransitionsOf, Recorded, MovesRecorded,
         NoteAttempts;
    var decided := Decided(c.latches, e, c.engine.machine.state, trace);
    var moves: seq<Report.Entry<X>> := TransitionLog(trace, ObservedValue(c.footprint));
    var signals: seq<Report.Entry<X>> := SignalLog(decided, c.negotiation.Ready?, Attempts(trace));
    TransitionsTellNothing<X>(trace, ObservedValue(c.footprint));
    LogTells<X>(decided, c.negotiation.Ready?, Attempts(trace));
    LogTellsMoves<X>(trace, ObservedValue(c.footprint));
    SignalsMoveNothing<X>(decided, c.negotiation.Ready?, Attempts(trace));
    SignalsOfConcat(c.log, moves);
    SignalsOfConcat(c.log + moves, signals);
    TransitionsOfConcat(c.log, moves);
    TransitionsOfConcat(c.log + moves, signals);
    assert Report.SignalsOf(c.log) + [] == Report.SignalsOf(c.log);
    assert Report.TransitionsOf(n.log) == Report.TransitionsOf(c.log) + Report.TransitionsOf(moves);
  }

  /** Applying an event is accounted for. */
  lemma ApplyIsAccounted<X>(c: Control<X>, e: Event, all: seq<Attempt>)
    requires Applicable(c, e, all) && |all| + 3 <= U64_MAX
    ensures var does := Handling(c.engine, e, ObservedValue(c.footprint));
            && Coherently(ApplyStep(c, e), all + does.made) && |does.made| <= 3
            && Accounted(c, ApplyStep(c, e), does)
            && does.fed != [] && does.fed[0] == e && (forall i :: 0 <= i < |does.fed| ==> does.fed[i].At() == e.At())
            && ApplyStep(c, e).footprint == c.footprint
  {
    hide HandleEvent, ApplyStep, Coherently, ReadyFor, Explained, Inv, Report.SignalsOf, Recorded, After, Calls, Tried,
         Attempts, MovesOf, IsPath, SignalsTold, MovesTold;
    var h := HandleEvent(Execute, c.engine, e);
    ReadyIsInv(c.engine.machine, c.engine.actuator, c.latches, e);
    ApplyKeeps(c, e, all);
    ApplyMovesMachine(c, e);
    HandleIsPolicyRun(Execute, c.engine, e);
    TriedIsActions(h.trace);
    ExplainedTells(c, e, ApplyStep(c, e), h.trace);
    EngineEvidence.TransitionsComeFirst(Execute, c.engine, e);
    MovesArePath(c.engine.machine.state, h.trace, h.engine.machine.state, ObservedValue(c.footprint));
  }

  lemma ApplyMovesMachine<X>(c: Control<X>, e: Event)
    ensures ApplyStep(c, e).engine.machine == HandleEvent(Execute, c.engine, e).engine.machine
    ensures ApplyStep(c, e).footprint == c.footprint
  {
    hide HandleEvent;
  }

  /** The total journaled with transitions is the latest retained sample's. */
  predicate FootprintFits<X>(rt: Runtime<X>) {
    ObservedValue(rt.control.footprint) == LatestTotal(rt)
  }

  /** What one input keeps, and what it does. */
  ghost predicate StepExplained<X>(rt: Runtime<X>, i: Input<X>, n: Runtime<X>, all: seq<Attempt>, does: Doings) {
    && Coherently(n.control, all + does.made) && |does.made| <= 3
    && Accounted(rt.control, n.control, does) && FootprintFits(n)
    && (forall k :: 0 <= k < |does.fed| ==> does.fed[k].At() == TimeOf(i))
    && (i.Happened? ==> i.event in does.fed)
  }

  lemma RunStepKeeps<X>(rt: Runtime<X>, i: Input<X>, all: seq<Attempt>)
    requires rt.sampler.config.historyCapacity > 0 && Permitted(i)
    requires Coherently(rt.control, all) && FootprintFits(rt) && |all| + 3 <= U64_MAX
    ensures StepExplained(rt, i, RunStep(rt, i), all, StepDoes(rt, i))
  {
    hide ApplyStep, Handling, PollStep, RetainStep, SampleInput, Coherently, Applicable, PollOf, Negotiate, Accounted,
         SameTold, ObservedValue;
    var c := rt.control;
    assert all + [] == all;
    match i
    case Happened(e) =>
      LoopEventsAreReady(c, e, all);
      ApplyIsAccounted(c, e, all);
    case Took(t) =>
      var retained := RetainStep(rt, t);
      RetainKeeps(rt, t, all);
      RetainIsQuiet(rt, t);
      ApplyIsAccounted(retained.control, SampleInput(rt, t), all);
      SameBefore(c, retained.control, RunStep(rt, i).control, StepDoes(rt, i));
    case Polled(at, handshake, read) => PollExplained(rt, at, handshake, read, all);
  }

  /** Whatever changes neither the machine nor what was told changes no account. */
  lemma SameBefore<X>(a: Control<X>, b: Control<X>, n: Control<X>, does: Doings)
    requires Accounted(b, n, does) && a.engine.machine == b.engine.machine && SameTold(a.log, b.log)
    ensures Accounted(a, n, does)
  {
    hide After, Calls, Recorded, Report.SignalsOf, Report.TransitionsOf, MovesRecorded, IsPath;
  }

  lemma RetainIsQuiet<X>(rt: Runtime<X>, t: Taken<X>)
    requires rt.sampler.config.historyCapacity > 0
    ensures RetainStep(rt, t).control.engine == rt.control.engine
    ensures SameTold(rt.control.log, RetainStep(rt, t).control.log) && FootprintFits(RetainStep(rt, t))
  {
    hide RecordedSample, WindowOf, SameTold;
    var window := WindowOf(RecordedSample(rt, t).sample, t.processedAt, t.advisory);
    var retained := RetainStep(rt, t);
    SamplesTellNothing(rt.control.log, window);
    assert rt.control.log + [] == rt.control.log;
    assert retained.windows[|retained.windows| - 1] == window && retained.control.footprint == window.footprint;
  }

  lemma RetainLatches<X>(rt: Runtime<X>, t: Taken<X>)
    requires rt.sampler.config.historyCapacity > 0
    ensures RetainStep(rt, t).control.latches == rt.control.latches
    ensures RetainStep(rt, t).control.negotiation == rt.control.negotiation
  {
    hide RecordedSample, WindowOf;
  }

  lemma SamplesTellNothing<X>(log: seq<Report.Entry<X>>, window: Report.SampleWindow<X>)
    ensures SameTold(log, log + [Report.Sample(window)]) && SameTold(log, log)
  {
    var entry: Report.Entry<X> := Report.Sample(window);
    assert (log + [entry])[..|log|] == log && (log + [entry])[|log|] == entry;
  }

  lemma PollExplained<X>(rt: Runtime<X>, at: Duration, handshake: ReadOutcome, read: ReadOutcome, all: seq<Attempt>)
    requires rt.sampler.config.historyCapacity > 0 && Coherently(rt.control, all) && FootprintFits(rt)
    requires |all| + 3 <= U64_MAX
    ensures var i := Polled(at, handshake, read);
            StepExplained(rt, i, RunStep(rt, i), all, StepDoes(rt, i))
  {
    hide ApplyStep, Handling, PollStep, Coherently, Applicable, PollOf, Negotiate, Accounted, ObservedValue,
         Report.SignalsOf, Report.TransitionsOf;
    var c := rt.control;
    PollStepIs(c, at, handshake, read);
    NegotiationKeeps(c, handshake, all);
    assert all + [] == all;
    var n := Negotiate(c, handshake);
    NothingDone(c, n);
    if n.negotiation.Ready? && n.engine.machine.state.CheckpointRequested? {
      PollIsReady(n, at, read, all);
      var (p, event) := PollOf(n, at, read);
      NothingDone(c, p);
      if event.Some? {
        ApplyIsAccounted(p, event.value, all);
        SameBefore(c, p, ApplyStep(p, event.value), Handling(p.engine, event.value, LatestTotal(rt)));
      }
    }
  }

  lemma LoopEventsAreReady<X>(c: Control<X>, e: Event, all: seq<Attempt>)
    requires Coherently(c, all) && (FromTheLoop(e) || e.Sample?)
    ensures Applicable(c, e, all)
  {
  }

  lemma RetainKeeps<X>(rt: Runtime<X>, t: Taken<X>, all: seq<Attempt>)
    requires rt.sampler.config.historyCapacity > 0 && Coherently(rt.control, all)
    ensures SampleInput(rt, t).Sample? && SampleInput(rt, t).At() == t.processedAt
    ensures Applicable(RetainStep(rt, t).control, SampleInput(rt, t), all)
  {
    hide RecordedSample, WindowOf, Sampling.PolicyEvent, Coherent, EngineEvidence.EvidenceFits;
    var n := RetainStep(rt, t).control;
    assert Coherently(n, all);
    LoopEventsAreReady(n, SampleInput(rt, t), all);
    SampleTime(rt, t);
  }

  lemma SampleTime<X>(rt: Runtime<X>, t: Taken<X>)
    requires rt.sampler.config.historyCapacity > 0
    ensures SampleInput(rt, t).At() == t.processedAt
  {
    hide RecordedSample;
  }

  /** A run about to start: an enforcing machine that has not intervened, nothing latched, no signal or
      transition journaled, no sample retained, and a channel, if there is one, whose protocol is idle. */
  ghost predicate Fresh<X>(rt: Runtime<X>) {
    && Inv(rt.control.engine.machine) && Live(rt.control.engine.machine)
    && rt.control.latches == NO_LATCHES && Untouched(rt.control.engine.actuator, NO_LATCHES)
    && rt.control.engine.evidence == NO_EVIDENCE
    && Report.SignalsOf(rt.control.log) == [] && Report.TransitionsOf(rt.control.log) == []
    && rt.windows == [] && rt.control.footprint.Unknown?
  }

  /** What every input of a run keeps. */
  lemma {:induction false} RunIsAccounted<X>(start: Runtime<X>, inputs: seq<Input<X>>, k: nat)
    requires Fresh(start) && start.sampler.config.historyCapacity > 0
    requires k <= |inputs| && (forall i :: 0 <= i < |inputs| ==> Permitted(inputs[i]))
    requires 3 * |inputs| + 3 <= U64_MAX
    ensures var rt := RunAfter(start, inputs, k);
            var does := RunDoes(start, inputs, k);
            && Coherently(rt.control, does.made) && |does.made| <= 3 * k
            && Accounted(start.control, rt.control, does) && FootprintFits(rt)
  {
    hide RunStep, StepDoes, Coherently, Accounted, Inv, Untouched;
    if k == 0 {
      StartIsCoherent(start);
      NothingDone(start.control, start.control);
    } else {
      var before := RunDoes(start, inputs, k - 1);
      var rt := RunAfter(start, inputs, k - 1);
      RunIsAccounted(start, inputs, k - 1);
      RunStepKeeps(rt, inputs[k - 1], before.made);
      AccountedTwice(start.control, rt.control, RunStep(rt, inputs[k - 1]).control, before,
                     StepDoes(rt, inputs[k - 1]));
    }
  }

  /** Report coherence over every enforcing run: for every sequence of events, polls, worker bytes, samples
      and system replies, clock regressions included, the final checkpoint record passes the validator, its
      reason is a limit, an open request is named under the id the wire protocol waits for, every shutdown
      in flight has a reason, and the journaled signals tell exactly what the run attempted and sent, in
      order, each with a reason: at most one to the checkpoint endpoint, then at most one TERM or forwarded
      signal, then only KILLs. The journaled transitions tell exactly the machine's moves, each with the
      latest retained sample's total, and lead without a gap from the first state to the last. The only bound
      is the attempt counter's 64 bits. */
  lemma RunIsCoherent<X>(start: Runtime<X>, inputs: seq<Input<X>>, k: nat)
    requires Fresh(start) && start.sampler.config.historyCapacity > 0
    requires k <= |inputs| && (forall i :: 0 <= i < |inputs| ==> Permitted(inputs[i]))
    requires 3 * |inputs| + 3 <= U64_MAX
    ensures var rt := RunAfter(start, inputs, k);
            var signals := Report.SignalsOf(rt.control.log);
            && Coherently(rt.control, RunDoes(start, inputs, k).made)
            && Report.ValidCheckpoint(RecordOf(rt.control.latches)) && LimitReason(rt.control.latches.reason)
            && Recorded(signals, RunDoes(start, inputs, k).made)
            && (forall i :: 0 <= i < |signals| ==> signals[i].reason.Some?)
            && SignalShape(signals)
            && MovesRecorded(Report.TransitionsOf(rt.control.log), RunDoes(start, inputs, k).moves)
            && IsPath(start.control.engine.machine.state, RunDoes(start, inputs, k).moves, rt.control.engine.machine.state)
  {
    hide RunAfter, RunDoes, Inv, Coherently, After, Calls, Untouched, SignalShape, EscalationShape, CallsFit, IsPath,
         Report.SignalsOf, Report.TransitionsOf;
    var rt, does := RunAfter(start, inputs, k), RunDoes(start, inputs, k);
    RunIsAccounted(start, inputs, k);
    CoherentIsValid(rt.control, does.made);
    var told :| Recorded(told, does.made) && Report.SignalsOf(rt.control.log) == Report.SignalsOf(start.control.log) + told;
    assert [] + told == told;
    var moved :| MovesRecorded(moved, does.moves)
                 && Report.TransitionsOf(rt.control.log) == Report.TransitionsOf(start.control.log) + moved;
    assert [] + moved == moved;
    WholeRunShape(start.control.engine.machine, does.fed, |does.fed|);
    RecordsKeepShape(told, does.made);
  }

  lemma StartIsCoherent<X>(start: Runtime<X>)
    requires Fresh(start)
    ensures Coherently(start.control, [])
  {
  }

  lemma CoherentlyInv<X>(c: Control<X>, all: seq<Attempt>)
    requires Coherently(c, all)
    ensures Inv(c.engine.machine)
  {
  }

  lemma CoherentIsValid<X>(c: Control<X>, all: seq<Attempt>)
    requires Coherently(c, all)
    ensures Report.ValidCheckpoint(RecordOf(c.latches)) && LimitReason(c.latches.reason)
  {
  }
}
