/** What the checkpoint record of a run means: it moves only with the attempts made and the answers read, and
    it is acknowledged exactly when a completed answer to the open request was read from the worker. */
module CheckpointRecords {
  import opened Common
  import opened Policy
  import opened Actuations
  import opened PolicyRuns
  import opened Intervention
  import opened Cascades
  import opened ProcessActuator
  import opened Latches
  import opened Coherence
  import opened Runtime
  import opened RuntimeRuns
  import opened RunNegotiation
  import EngineEvidence
  import WireCodec
  import Protocol = CheckpointProtocol
  import Report

  // ---- One event ----

  /** The attempts after the first can only be the answers to its failure. */
  predicate OnlyFirst(attempts: seq<Attempt>) {
    forall i :: 1 <= i < |attempts| ==> attempts[i].action.Kill? || attempts[i].action == Term(SkippedCheckpointFailure)
  }

  /** How one event moves the record. An acknowledgement marks the open request; a delivered checkpoint opens
      one, with the event's kind of limit as its reason; a failed checkpoint is cancelled if a worker had been
      negotiated with; a TERM for silence times the open request out; and nothing else moves it. */
  predicate RecordMoves(before: Report.CheckpointRecord, negotiated: bool, e: Event, attempts: seq<Attempt>,
                        after: Report.CheckpointRecord)
  {
    var now := Some(Ms(e.At()));
    && OnlyFirst(attempts)
    && if e.CheckpointAck? then
         && before.status.RequestedUnverified? && before.requestId == Some(e.requestId)
         && after == before.(status := Report.CheckpointStatus.AcknowledgedUnverifiedDurability, atMs := now)
         && (attempts != [] ==> !attempts[0].action.Checkpoint? && attempts[0].action != Term(TimedOut))
       else if attempts == [] then after == before
       else match attempts[0].action
         case Checkpoint(id, _, _) =>
           var asked := before.(reason := Some(if e.Sample? then Report.SignalReason.Footprint else Report.SignalReason.WallTime));
           && before == Report.CheckpointRecord(Report.CheckpointStatus.NotNegotiated, None, None, None, None)
           && (if attempts[0].reply == Ok(Outcome.Delivered)
               then after == asked.(status := Report.CheckpointStatus.RequestedUnverified, requestId := Some(id), atMs := now)
               else attempts[0].reply.Err?
                    && after == if negotiated then asked.(status := Report.CheckpointStatus.Cancelled, atMs := now) else asked)
         case Term(TimedOut) =>
           before.status.RequestedUnverified? && after == before.(status := Report.CheckpointStatus.TimedOut, atMs := now)
         case _ => after == before
  }

  /** The latches an event starts from, as the record has them without an artifact still to be explained. */
  ghost predicate MovesOn(m: Machine, l: Latches, negotiated: bool, e: Event, before: Latches, attempts: seq<Attempt>) {
    RecordMoves(RecordOf(l), negotiated, e, attempts, RecordOf(NoteAttempts(before, negotiated, attempts)))
  }

  lemma QuietMoves(m: Machine, s: Supervised, l: Latches, negotiated: bool, e: Event, d: Decision, before: Latches)
    requires ReadyFor(m, s, l, e) && StepFits(m, e, d, []) && Entering(m, l, e, d, before)
    ensures MovesOn(m, l, negotiated, e, before, [])
  {
  }

  lemma KillMoves(m: Machine, s: Supervised, l: Latches, negotiated: bool, e: Event, d: Decision, before: Latches)
    requires ReadyFor(m, s, l, e) && StepFits(m, e, d, [Kill]) && Entering(m, l, e, d, before)
    ensures MovesOn(m, l, negotiated, e, before, Attempts(Cascade(Execute, d.machine, s, e.At(), Kill).trace))
  {
    hide Execute, NoteAttempts;
    CascadeOfKill(s, d.machine, e.At());
    KillNoted(before, negotiated, Attempt(e.At(), Kill, Execute(s, e.At(), Kill).1));
  }

  lemma SignalMoves(m: Machine, s: Supervised, l: Latches, negotiated: bool, e: Event, d: Decision, x: Actuation,
                    before: Latches)
    requires ReadyFor(m, s, l, e) && StepFits(m, e, d, [x]) && Entering(m, l, e, d, before) && (x.Term? || x.Forward?)
    ensures MovesOn(m, l, negotiated, e, before, Attempts(Cascade(Execute, d.machine, s, e.At(), x).trace))
  {
    hide Execute, NoteAttempts, Cascade;
    CascadeOfSignal(s, d.machine, e.At(), x);
    var attempts := Attempts(Cascade(Execute, d.machine, s, e.At(), x).trace);
    assert attempts[0] in attempts;
    SignalNoted(before, negotiated, attempts, x);
  }

  lemma CheckpointMoves(m: Machine, s: Supervised, l: Latches, negotiated: bool, e: Event, d: Decision, x: Actuation,
                        before: Latches)
    requires ReadyFor(m, s, l, e) && StepFits(m, e, d, [x]) && Entering(m, l, e, d, before) && x.Checkpoint?
    ensures MovesOn(m, l, negotiated, e, before, Attempts(Cascade(Execute, d.machine, s, e.At(), x).trace))
  {
    hide Execute, NoteAttempts, Cascade;
    var (t, reply) := Execute(s, e.At(), x);
    var attempts := Attempts(Cascade(Execute, d.machine, s, e.At(), x).trace);
    CascadeOfCheckpoint(s, d.machine, e.At(), x);
    if reply.Ok? {
      DeliveredMeansRequested(s, e.At(), x.requestId, x.overshootBytes, x.deadlineAt);
      DeliveryNoted(before, negotiated, Attempt(e.At(), x, reply));
    } else {
      assert attempts[0] in attempts;
      FailedCheckpointNoted(before, negotiated, attempts, x);
    }
  }

  /** Every event moves the record so, whatever the policy decides and the system replies. */
  lemma EventMovesRecord(m: Machine, s: Supervised, l: Latches, negotiated: bool, e: Event)
    requires ReadyFor(m, s, l, e)
    ensures var d := Step(m, e);
            var tried := ActuationsOf(d.actions);
            && |tried| <= 1
            && var trace := Move(e.At(), m.state, d.machine.state) + Cascades.Pending(Execute, d.machine, s, e.At(), tried).trace;
               RecordMoves(RecordOf(l), negotiated, e, Attempts(trace),
                           RecordOf(AfterEvent(l, negotiated, e, m.state, trace)))
  {
    hide Step, Inv, Execute, StepFits, ReadyFor, NoteAttempts, Decided, BeforeEvent, RecordMoves;
    ReadyIsInv(m, s, l, e);
    var d := Step(m, e);
    var tried := ActuationsOf(d.actions);
    StepFitsAll(m, e);
    StepEscalates(m, e);
    var c := Cascades.Pending(Execute, d.machine, s, e.At(), tried);
    var trace := Move(e.At(), m.state, d.machine.state) + c.trace;
    CauseAfter(l, s, m, e, d, tried);
    MoveTriesNothing(e.At(), m.state, d.machine.state);
    TraceConcat(Move(e.At(), m.state, d.machine.state), c.trace);
    assert [] + Attempts(c.trace) == Attempts(c.trace);
    var before := Decided(l, e, m.state, trace);
    if tried == [] {
      QuietMoves(m, s, l, negotiated, e, d, before);
    } else {
      assert tried == [tried[0]];
      match tried[0] {
        case Checkpoint(_, _, _) => CheckpointMoves(m, s, l, negotiated, e, d, tried[0], before);
        case Kill => KillMoves(m, s, l, negotiated, e, d, before);
        case _ => SignalMoves(m, s, l, negotiated, e, d, tried[0], before);
      }
    }
  }

  lemma ApplyMovesRecord<X>(c: Control<X>, e: Event, all: seq<Attempt>)
    requires Applicable(c, e, all) && |all| + 3 <= U64_MAX
    ensures RecordMoves(RecordOf(c.latches), c.negotiation.Ready?, e, Attempts(HandleEvent(Execute, c.engine, e).trace),
                        RecordOf(ApplyStep(c, e).latches))
  {
    hide HandleEvent, Step, Execute, Coherent, ReadyFor, Cascades.Pending, EngineEvidence.EvidenceFits, Decided,
         ReasonsOf,
         NoteAttempts, Inv, ApplyStep, RecordMoves, Coherently;
    ReadyIsInv(c.engine.machine, c.engine.actuator, c.latches, e);
    ApplyKeeps(c, e, all);
    EventMovesRecord(c.engine.machine, c.engine.actuator, c.latches, c.negotiation.Ready?, e);
    HandleIsCascade(Execute, c.engine, e);
  }

  // ---- One input ----

  /** This input reads a completed answer to the open request: the bytes it reads from the negotiated worker
      complete the acknowledgement's frame, under the channel's nonce and the open id, before the deadline. */
  ghost predicate Answers<X>(rt: Runtime<X>, i: Input<X>, a: WireCodec.Acknowledgement) {
    && i.Polled? && a.status.Completed?
    && var c := Negotiate(rt.control, i.handshake);
       && c.negotiation.Ready? && c.engine.machine.state.CheckpointRequested? && c.engine.actuator.channel.Some?
       && CompletesAnswer(c.engine.actuator.channel.value.protocol, i.at, i.read, a)
  }

  /** How one input that read no completed answer moves the record, by what it made the run attempt. */
  ghost predicate InputMoves<X>(i: Input<X>, before: Report.CheckpointRecord, negotiated: bool, made: seq<Attempt>,
                                after: Report.CheckpointRecord)
  {
    || (made == [] && after == before)
    || exists e: Event ::
         !e.CheckpointAck? && e.At() == TimeOf(i) && (e.Sample? <==> i.Took?) && RecordMoves(before, negotiated, e, made, after)
  }

  /** The record after an input that read the answer `a`. */
  predicate Acknowledges(before: Report.CheckpointRecord, at: Duration, made: seq<Attempt>, a: WireCodec.Acknowledgement,
                         after: Report.CheckpointRecord)
  {
    && before.status.RequestedUnverified? && before.requestId == Some(a.requestId)
    && after == before.(status := Report.CheckpointStatus.AcknowledgedUnverifiedDurability, atMs := Some(Ms(at)),
                        artifact := a.artifact)
    && forall i :: 0 <= i < |made| ==> !made[i].action.Checkpoint? && made[i].action != Term(TimedOut)
  }

  ghost predicate StepRecords<X>(rt: Runtime<X>, i: Input<X>, n: Runtime<X>, made: seq<Attempt>) {
    var before, after := RecordOf(rt.control.latches), RecordOf(n.control.latches);
    && (forall a: WireCodec.Acknowledgement :: Answers(rt, i, a) ==> Acknowledges(before, TimeOf(i), made, a, after))
    && ((forall a: WireCodec.Acknowledgement :: !Answers(rt, i, a)) ==>
          InputMoves(i, before, rt.control.negotiation.Ready? || i.Polled?, made, after))
  }

  lemma PollRecords<X>(rt: Runtime<X>, i: Input<X>, all: seq<Attempt>)
    requires rt.sampler.config.historyCapacity > 0 && Coherently(rt.control, all) && |all| + 3 <= U64_MAX && i.Polled?
    ensures StepRecords(rt, i, RunStep(rt, i), StepDoes(rt, i).made)
  {
    hide ApplyStep, HandleEvent, PollStep, Coherently, Applicable, PollOf, Negotiate, RecordMoves, CompletesAnswer;
    var c := rt.control;
    var n := Negotiate(c, i.handshake);
    PollStepIs(c, i.at, i.handshake, i.read);
    NegotiationKeeps(c, i.handshake, all);
    if n.negotiation.Ready? && n.engine.machine.state.CheckpointRequested? {
      PollIsReady(n, i.at, i.read, all);
      PollIsTheAnswer(n, i.at, i.read, all);
      var (p, event) := PollOf(n, i.at, i.read);
      if event.Some? {
        ApplyMovesRecord(p, event.value, all);
        if event.value.CheckpointAck? {
          AnswerRecords(rt, i, all);
        } else {
          assert RecordMoves(RecordOf(c.latches), p.negotiation.Ready?, event.value, StepDoes(rt, i).made,
                             RecordOf(RunStep(rt, i).control.latches));
        }
      }
    }
  }

  /** A poll gives an acknowledgement exactly when it reads a completed answer, and then its artifact. */
  lemma PollIsTheAnswer<X>(n: Control<X>, at: Duration, read: ReadOutcome, all: seq<Attempt>)
    requires Coherently(n, all) && n.engine.machine.state.CheckpointRequested?
    ensures n.engine.actuator.channel.Some? && n.latches.artifact.None?
    ensures var (p, event) := PollOf(n, at, read);
            var protocol := n.engine.actuator.channel.value.protocol;
            && (forall a: WireCodec.Acknowledgement :: CompletesAnswer(protocol, at, read, a) && a.status.Completed? ==>
                  event == Some(CheckpointAck(at, a.requestId, true)) && p.latches == n.latches.(artifact := a.artifact))
            && (event.Some? && event.value.CheckpointAck? ==>
                  exists a: WireCodec.Acknowledgement :: CompletesAnswer(protocol, at, read, a) && a.status.Completed?)
            && (event.Some? && !event.value.CheckpointAck? ==> p.latches == n.latches && !event.value.Sample?)
  {
    hide PollCheckpoint, CompletesAnswer, EngineEvidence.EvidenceFits, Inv;
    CoherentWaits(n, all);
    var s := n.engine.actuator;
    var protocol := s.channel.value.protocol;
    forall a: WireCodec.Acknowledgement | CompletesAnswer(protocol, at, read, a) && a.status.Completed?
      ensures var (p, event) := PollOf(n, at, read);
              event == Some(CheckpointAck(at, a.requestId, true)) && p.latches == n.latches.(artifact := a.artifact)
    {
      PollMeans(s, at, read, a);
    }
    var any := WireCodec.Acknowledgement(protocol.nonce, 0, WireCodec.Completed, None);
    PollMeans(s, at, read, any);
    PollAnswersTheRequest(s, at, read, n.engine.machine.activeRequestId, n.engine.machine.checkpointDeadline);
  }

  lemma CoherentWaits<X>(n: Control<X>, all: seq<Attempt>)
    requires Coherently(n, all) && n.engine.machine.state.CheckpointRequested?
    ensures n.engine.actuator.channel.Some? && n.latches.artifact.None?
    ensures Waiting(n.engine.actuator.channel.value.protocol, n.engine.machine.activeRequestId,
                    n.engine.machine.checkpointDeadline)
    ensures Protocol.Inv(n.engine.actuator.channel.value.protocol)
  {
  }

  lemma AnswerRecords<X>(rt: Runtime<X>, i: Input<X>, all: seq<Attempt>)
    requires rt.sampler.config.historyCapacity > 0 && Coherently(rt.control, all) && |all| + 3 <= U64_MAX && i.Polled?
    requires var n := Negotiate(rt.control, i.handshake);
             && n.negotiation.Ready? && n.engine.machine.state.CheckpointRequested?
             && PollOf(n, i.at, i.read).1.Some? && PollOf(n, i.at, i.read).1.value.CheckpointAck?
    ensures exists a: WireCodec.Acknowledgement :: Answers(rt, i, a)
    ensures StepRecords(rt, i, RunStep(rt, i), StepDoes(rt, i).made)
  {
    hide ApplyStep, HandleEvent, PollStep, Coherently, Applicable, PollOf, Negotiate, CompletesAnswer;
    var n := Negotiate(rt.control, i.handshake);
    PollStepIs(rt.control, i.at, i.handshake, i.read);
    NegotiationKeeps(rt.control, i.handshake, all);
    PollIsReady(n, i.at, i.read, all);
    PollIsTheAnswer(n, i.at, i.read, all);
    var (p, event) := PollOf(n, i.at, i.read);
    ApplyMovesRecord(p, event.value, all);
    var read: WireCodec.Acknowledgement :|
      CompletesAnswer(n.engine.actuator.channel.value.protocol, i.at, i.read, read) && read.status.Completed?;
    assert Answers(rt, i, read);
  }

  lemma StepMovesRecord<X>(rt: Runtime<X>, i: Input<X>, all: seq<Attempt>)
    requires rt.sampler.config.historyCapacity > 0 && Permitted(i) && Coherently(rt.control, all) && |all| + 3 <= U64_MAX
    ensures StepRecords(rt, i, RunStep(rt, i), StepDoes(rt, i).made)
  {
    hide ApplyStep, HandleEvent, PollStep, Coherently, Applicable, RetainStep, SampleInput, RecordMoves;
    match i
    case Happened(e) =>
      LoopEventsAreReady(rt.control, e, all);
      ApplyMovesRecord(rt.control, e, all);
      assert RecordMoves(RecordOf(rt.control.latches), rt.control.negotiation.Ready?, e, StepDoes(rt, i).made,
                         RecordOf(RunStep(rt, i).control.latches));
    case Took(t) =>
      RetainKeeps(rt, t, all);
      RetainLatches(rt, t);
      var retained := RetainStep(rt, t).control;
      ApplyMovesRecord(retained, SampleInput(rt, t), all);
      assert RecordMoves(RecordOf(rt.control.latches), retained.negotiation.Ready?, SampleInput(rt, t), StepDoes(rt, i).made,
                         RecordOf(RunStep(rt, i).control.latches));
    case Polled(_, _, _) => PollRecords(rt, i, all);
  }

  // ---- A whole run ----

  ghost predicate AnswersAt<X>(start: Runtime<X>, inputs: seq<Input<X>>, i: nat, a: WireCodec.Acknowledgement)
    requires start.sampler.config.historyCapacity > 0
  {
    i < |inputs| && Answers(RunAfter(start, inputs, i), inputs[i], a)
  }

  predicate DeliveredCheckpoint(a: Attempt) {
    a.action.Checkpoint? && a.reply == Ok(Outcome.Delivered)
  }

  /** The record is acknowledged exactly when a completed answer was read, and then names the request it
      answered, its artifact and its time. */
  ghost predicate TellsAnswers<X>(start: Runtime<X>, inputs: seq<Input<X>>, k: nat, r: Report.CheckpointRecord)
    requires start.sampler.config.historyCapacity > 0 && k <= |inputs|
  {
    && (r.status.AcknowledgedUnverifiedDurability? ==>
          exists i: nat, a: WireCodec.Acknowledgement :: i < k && AnswersAt(start, inputs, i, a))
    && (forall i: nat, a: WireCodec.Acknowledgement :: i < k && AnswersAt(start, inputs, i, a) ==>
          && NonceOf(start.control) == Some(a.nonce)
          && r.status.AcknowledgedUnverifiedDurability? && r.requestId == Some(a.requestId) && r.artifact == a.artifact
          && r.atMs == Some(Ms(TimeOf(inputs[i]))))
  }

  /** The record names a request exactly when its delivery was attempted and succeeded, and is timed out
      exactly when a TERM was attempted for silence; a cancelled one failed to be delivered. */
  ghost predicate TellsAttempts(made: seq<Attempt>, r: Report.CheckpointRecord) {
    && (forall a :: a in made && DeliveredCheckpoint(a) ==> r.requestId == Some(a.action.requestId))
    && (r.requestId.Some? ==> exists a :: a in made && DeliveredCheckpoint(a))
    && (r.status.TimedOut? <==> exists a :: a in made && a.action == Term(TimedOut))
    && (r.status.Cancelled? ==> exists a :: a in made && a.action.Checkpoint? && a.reply.Err?)
    && (r.status.NotNegotiated? || r.status.Cancelled? ==> r.requestId.None?)
  }

  predicate Asked(made: seq<Attempt>) {
    exists a :: a in made && a.action.Checkpoint?
  }

  /** Which parts of the record are present, by its status: the documented table. */
  predicate FollowsStatus(r: Report.CheckpointRecord, made: seq<Attempt>) {
    match r.status
    case NotNegotiated => r.requestId.None? && r.artifact.None? && r.atMs.None? && (r.reason.Some? <==> Asked(made))
    case RequestedUnverified => r.requestId.Some? && r.reason.Some? && r.artifact.None? && r.atMs.Some? && Asked(made)
    case TimedOut => r.requestId.Some? && r.reason.Some? && r.artifact.None? && r.atMs.Some? && Asked(made)
    case AcknowledgedUnverifiedDurability => r.requestId.Some? && r.reason.Some? && r.atMs.Some? && Asked(made)
    case Cancelled => r.requestId.None? && r.reason.Some? && r.artifact.None? && r.atMs.Some? && Asked(made)
  }

  lemma StatusNext<X>(rt: Runtime<X>, i: Input<X>, n: Runtime<X>, all: seq<Attempt>, made: seq<Attempt>)
    requires FollowsStatus(RecordOf(rt.control.latches), all) && StepRecords(rt, i, n, made)
    ensures FollowsStatus(RecordOf(n.control.latches), all + made)
  {
    hide Answers, RecordOf;
    var before, after := RecordOf(rt.control.latches), RecordOf(n.control.latches);
    assert forall a :: a in all + made <==> a in all || a in made;
    if a: WireCodec.Acknowledgement :| Answers(rt, i, a) {
      assert Acknowledges(before, TimeOf(i), made, a, after);
      AskedMore(all, made);
    } else if made == [] && after == before {
      assert all + made == all;
    } else {
      var negotiated := rt.control.negotiation.Ready? || i.Polled?;
      assert InputMoves(i, before, negotiated, made, after);
      var e: Event :| !e.CheckpointAck? && RecordMoves(before, negotiated, e, made, after);
      MovesFollowStatus(before, negotiated, e, all, made, after);
    }
  }

  lemma AskedMore(all: seq<Attempt>, made: seq<Attempt>)
    ensures Asked(all + made) <==> Asked(all) || Asked(made)
  {
    assert forall a :: a in all + made <==> a in all || a in made;
  }

  lemma MovesFollowStatus(before: Report.CheckpointRecord, negotiated: bool, e: Event, all: seq<Attempt>, made: seq<Attempt>,
                          after: Report.CheckpointRecord)
    requires FollowsStatus(before, all) && !e.CheckpointAck? && RecordMoves(before, negotiated, e, made, after)
    ensures FollowsStatus(after, all + made)
  {
    hide Asked;
    AskedMore(all, made);
    FirstAsks(made);
  }

  lemma FirstAsks(made: seq<Attempt>)
    requires OnlyFirst(made)
    ensures Asked(made) <==> made != [] && made[0].action.Checkpoint?
  {
    if made != [] && made[0].action.Checkpoint? {
      assert made[0] in made;
    }
  }

  lemma AnswerNonce<X>(rt: Runtime<X>, i: Input<X>, a: WireCodec.Acknowledgement)
    requires Answers(rt, i, a)
    ensures NonceOf(rt.control) == Some(a.nonce)
  {
    hide PollReady, WireCodec.EncodeAcknowledgement;
    if rt.control.engine.actuator.channel.Some? {
      PollReadyKeepsProtocol(rt.control, i.handshake);
    }
  }

  lemma AnswersNext<X>(start: Runtime<X>, inputs: seq<Input<X>>, k: nat, made: seq<Attempt>)
    requires start.sampler.config.historyCapacity > 0 && k < |inputs|
    requires TellsAnswers(start, inputs, k, RecordOf(RunAfter(start, inputs, k).control.latches))
    requires StepRecords(RunAfter(start, inputs, k), inputs[k], RunAfter(start, inputs, k + 1), made)
    requires NonceOf(RunAfter(start, inputs, k).control) == NonceOf(start.control)
    ensures TellsAnswers(start, inputs, k + 1, RecordOf(RunAfter(start, inputs, k + 1).control.latches))
  {
    hide RunAfter, Answers, RecordOf, OnlyFirst, NonceOf;
    var rt := RunAfter(start, inputs, k);
    var before, after := RecordOf(rt.control.latches), RecordOf(RunAfter(start, inputs, k + 1).control.latches);
    if a: WireCodec.Acknowledgement :| Answers(rt, inputs[k], a) {
      assert AnswersAt(start, inputs, k, a);
      assert Acknowledges(before, TimeOf(inputs[k]), made, a, after);
      forall b: WireCodec.Acknowledgement | Answers(rt, inputs[k], b) ensures NonceOf(start.control) == Some(b.nonce) {
        AnswerNonce(rt, inputs[k], b);
      }
    } else {
      assert InputMoves(inputs[k], before, rt.control.negotiation.Ready? || inputs[k].Polled?, made, after);
      assert before.status.AcknowledgedUnverifiedDurability? <==> after.status.AcknowledgedUnverifiedDurability?;
      assert before.status.AcknowledgedUnverifiedDurability? ==> after == before;
    }
  }

  lemma AttemptsNext<X>(rt: Runtime<X>, i: Input<X>, n: Runtime<X>, all: seq<Attempt>, made: seq<Attempt>)
    requires TellsAttempts(all, RecordOf(rt.control.latches)) && StepRecords(rt, i, n, made)
    ensures TellsAttempts(all + made, RecordOf(n.control.latches))
  {
    hide Answers, RecordOf;
    var before, after := RecordOf(rt.control.latches), RecordOf(n.control.latches);
    assert forall a :: a in all + made <==> a in all || a in made;
    if a: WireCodec.Acknowledgement :| Answers(rt, i, a) {
      assert Acknowledges(before, TimeOf(i), made, a, after);
    } else if made == [] && after == before {
      assert all + made == all;
    } else {
      var negotiated := rt.control.negotiation.Ready? || i.Polled?;
      assert InputMoves(i, before, negotiated, made, after);
      var e: Event :| !e.CheckpointAck? && RecordMoves(before, negotiated, e, made, after);
      MovesTellAttempts(before, negotiated, e, all, made, after);
    }
  }

  lemma MovesTellAttempts(before: Report.CheckpointRecord, negotiated: bool, e: Event, all: seq<Attempt>, made: seq<Attempt>,
                          after: Report.CheckpointRecord)
    requires TellsAttempts(all, before) && !e.CheckpointAck? && RecordMoves(before, negotiated, e, made, after)
    ensures TellsAttempts(all + made, after)
  {
    assert forall a :: a in all + made <==> a in all || a in made;
    if made == [] {
      assert all + made == all;
    } else {
      assert made[0] in all + made;
      assert forall a :: a in made ==> a == made[0] || a.action.Kill? || a.action == Term(SkippedCheckpointFailure);
    }
  }

  ghost predicate RecordFits<X>(start: Runtime<X>, inputs: seq<Input<X>>, k: nat)
    requires start.sampler.config.historyCapacity > 0 && k <= |inputs|
  {
    var c := RunAfter(start, inputs, k).control;
    && NonceOf(c) == NonceOf(start.control)
    && TellsAnswers(start, inputs, k, RecordOf(c.latches)) && TellsAttempts(RunDoes(start, inputs, k).made, RecordOf(c.latches))
    && FollowsStatus(RecordOf(c.latches), RunDoes(start, inputs, k).made)
  }

  lemma {:induction false} RunMovesRecord<X>(start: Runtime<X>, inputs: seq<Input<X>>, k: nat)
    requires Fresh(start) && start.sampler.config.historyCapacity > 0
    requires k <= |inputs| && (forall i :: 0 <= i < |inputs| ==> Permitted(inputs[i]))
    requires 3 * |inputs| + 3 <= U64_MAX
    ensures RecordFits(start, inputs, k)
  {
    hide RunStep, StepDoes, Coherently, Accounted, Inv, Untouched, StepRecords, TellsAnswers, TellsAttempts,
         FollowsStatus, RecordOf, Fresh,
         NonceOf;
    if k == 0 {
      NothingTold(start, inputs);
    } else {
      RunMovesRecord(start, inputs, k - 1);
      RunIsAccounted(start, inputs, k - 1);
      var rt, does := RunAfter(start, inputs, k - 1), RunDoes(start, inputs, k - 1);
      StepMovesRecord(rt, inputs[k - 1], does.made);
      InputKeepsNonce(rt, inputs[k - 1], does.made);
      AnswersNext(start, inputs, k - 1, StepDoes(rt, inputs[k - 1]).made);
      AttemptsNext(rt, inputs[k - 1], RunAfter(start, inputs, k), does.made, StepDoes(rt, inputs[k - 1]).made);
      StatusNext(rt, inputs[k - 1], RunAfter(start, inputs, k), does.made, StepDoes(rt, inputs[k - 1]).made);
    }
  }

  lemma NothingTold<X>(start: Runtime<X>, inputs: seq<Input<X>>)
    requires Fresh(start) && start.sampler.config.historyCapacity > 0
    ensures TellsAnswers(start, inputs, 0, RecordOf(start.control.latches)) && TellsAttempts([], RecordOf(start.control.latches))
    ensures FollowsStatus(RecordOf(start.control.latches), [])
  {
    hide RunAfter, Untouched;
    assert start.control.latches == NO_LATCHES;
  }

  /** The checkpoint record of every run, from the bytes its worker sent. It is acknowledged exactly when some
      poll read the last byte of a completed acknowledgement, under the nonce the run was started with and the
      id of the open request, before its deadline; it then names that id, that artifact and that time. It
      names a request exactly when one was delivered, is timed out exactly when a TERM was tried for
      silence, and its other parts are present as its status says. */
  lemma RecordIsTheExchange<X>(start: Runtime<X>, inputs: seq<Input<X>>, k: nat)
    requires Fresh(start) && start.sampler.config.historyCapacity > 0
    requires k <= |inputs| && (forall i :: 0 <= i < |inputs| ==> Permitted(inputs[i]))
    requires 3 * |inputs| + 3 <= U64_MAX
    ensures var c := RunAfter(start, inputs, k).control;
            && TellsAnswers(start, inputs, k, RecordOf(c.latches))
            && TellsAttempts(RunDoes(start, inputs, k).made, RecordOf(c.latches))
            && FollowsStatus(RecordOf(c.latches), RunDoes(start, inputs, k).made)
  {
    hide RunAfter, RunDoes, TellsAnswers, TellsAttempts, FollowsStatus, Fresh;
    RunMovesRecord(start, inputs, k);
  }
}
