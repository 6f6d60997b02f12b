/** How a run negotiates with its worker: over any polls, the channel is ready exactly when the reads so far
    were parts of a readiness frame under its nonce and the last one completed it. */
module RunNegotiation {
  import opened Common
  import opened Policy
  import opened Actuations
  import opened PolicyRuns
  import opened Intervention
  import opened Cascades
  import opened ProcessActuator
  import opened Runtime
  import opened RuntimeRuns
  import WireCodec
  import Protocol = CheckpointProtocol

  // ---- The link ----

  /** The channel without the state of its protocol: its nonce, and how far negotiation has come. */
  function LinkOf(s: Supervised): Option<Channel> {
    match s.channel
    case None => None
    case Some(c) => Some(c.(protocol := Protocol.New(c.protocol.nonce)))
  }

  lemma ExecuteKeepsLink(s: Supervised, at: Duration, x: Actuation)
    ensures LinkOf(Execute(s, at, x).0) == LinkOf(s)
  {
  }

  lemma {:induction false} CascadeKeepsLink(s: Supervised, m: Machine, at: Duration, x: Actuation)
    ensures LinkOf(Cascade(Execute, m, s, at, x).actuator) == LinkOf(s)
    decreases Unstarted(m), Rank(x)
  {
    hide Step, Execute, LinkOf;
    var (t, reply) := Execute(s, at, x);
    ExecuteKeepsLink(s, at, x);
    if reply.Err? {
      var d := Answered(m, at, x, reply.error);
      FailureLowersRank(m, at, x, reply.error);
      AnswerIsOne(m, at, x, reply.error);
      var tried := ActuationsOf(d.actions);
      if tried != [] {
        CascadeKeepsLink(t, d.machine, at, tried[0]);
      }
    }
  }

  lemma ApplyKeepsLink<X>(c: Control<X>, e: Event)
    requires Inv(c.engine.machine)
    ensures LinkOf(ApplyStep(c, e).engine.actuator) == LinkOf(c.engine.actuator)
    ensures ApplyStep(c, e).negotiation == c.negotiation
  {
    hide Step, Execute, LinkOf, HandleEvent, Inv;
    HandleIsCascade(Execute, c.engine, e);
    var d := Step(c.engine.machine, e);
    if ActuationsOf(d.actions) != [] {
      CascadeKeepsLink(c.engine.actuator, d.machine, e.At(), ActuationsOf(d.actions)[0]);
    }
  }

  lemma PollKeepsLink<X>(c: Control<X>, at: Duration, read: ReadOutcome)
    ensures LinkOf(PollOf(c, at, read).0.engine.actuator) == LinkOf(c.engine.actuator)
  {
    hide Protocol.IngestStep, Protocol.ExitStep, ObservationOf, WireCodec.DecodeAcknowledgement;
    if c.engine.actuator.channel.Some? {
      var p := c.engine.actuator.channel.value.protocol;
      var early := Protocol.IngestStep(p, at, []).0;
      StepKeepsNonce(p, at, []);
      StepKeepsNonce(early, at, if read.Ok? then read.value else []);
    }
  }

  lemma StepKeepsNonce(p: Protocol.Protocol, at: Duration, chunk: Bytes)
    ensures Protocol.IngestStep(p, at, chunk).0.nonce == p.nonce && Protocol.ExitStep(p).0.nonce == p.nonce
  {
    hide WireCodec.DecodeAcknowledgement;
  }

  function NonceOf<X>(c: Control<X>): Option<WireCodec.Nonce> {
    match c.engine.actuator.channel
    case None => None
    case Some(channel) => Some(channel.protocol.nonce)
  }

  // ---- What the polls read ----

  /** The handshake reads of the polls among the first `k` inputs. */
  function Handshakes<X>(inputs: seq<Input<X>>, k: nat): seq<ReadOutcome>
    requires k <= |inputs|
  {
    if k == 0 then []
    else Handshakes(inputs, k - 1) + if inputs[k - 1].Polled? then [inputs[k - 1].handshake] else []
  }

  /** All the bytes read. */
  function Joined(heard: seq<ReadOutcome>): Bytes {
    if heard == [] then []
    else
      var last := heard[|heard| - 1];
      Joined(heard[..|heard| - 1]) + if last.Ok? then last.value else []
  }

  /** Nothing failed or ended, and what was read is shorter than a readiness frame. */
  predicate Partial(heard: seq<ReadOutcome>) {
    && (forall i :: 0 <= i < |heard| ==> heard[i] == Err(WouldBlock) || (heard[i].Ok? && heard[i].value != []))
    && |Joined(heard)| < 42
  }

  /** Read `p` ends the readiness frame that the ones before it began. */
  predicate Completes(heard: seq<ReadOutcome>, p: nat, nonce: WireCodec.Nonce)
    requires p < |heard|
  {
    && Partial(heard[..p]) && heard[p].Ok? && heard[p].value != []
    && Joined(heard[..p]) + heard[p].value == WireCodec.EncodeNegotiation(WireCodec.READY_KIND, nonce)
  }

  ghost predicate Completed(heard: seq<ReadOutcome>, nonce: WireCodec.Nonce) {
    exists p :: 0 <= p < |heard| && Completes(heard, p, nonce)
  }

  /** Where negotiation stands after these reads. Without a channel the first poll gives up; with one it is
      pending exactly while the reads are partial, ready exactly when one completed the frame, and otherwise the
      worker is unavailable. */
  ghost predicate NegotiationTells<X>(c: Control<X>, heard: seq<ReadOutcome>) {
    match c.engine.actuator.channel
    case None => c.negotiation == if heard == [] then Negotiation.Pending else Unavailable
    case Some(channel) =>
      && (c.negotiation.Pending? <==> Partial(heard))
      && (c.negotiation.Ready? <==> Completed(heard, channel.protocol.nonce))
      && (c.negotiation.Pending? ==> channel.negotiationStarted && !channel.ready && channel.handshake == Joined(heard))
  }

  /** A channel whose hello has been sent and whose answer has not begun to arrive. */
  predicate Unanswered(channel: Option<Channel>) {
    channel.Some? ==> channel.value.negotiationStarted && !channel.value.ready && channel.value.handshake == []
  }

  lemma NextRead(heard: seq<ReadOutcome>, r: ReadOutcome, nonce: WireCodec.Nonce)
    ensures var more := heard + [r];
            && Joined(more) == Joined(heard) + (if r.Ok? then r.value else [])
            && (Partial(more) <==> Partial(heard) && (r == Err(WouldBlock) || (r.Ok? && r.value != [])) && |Joined(more)| < 42)
            && (Completed(more, nonce) <==> Completed(heard, nonce) || Completes(more, |heard|, nonce))
  {
    hide WireCodec.EncodeNegotiation;
    var more := heard + [r];
    assert more[..|heard|] == heard && more[|heard|] == r;
    assert forall i :: 0 <= i < |heard| ==> more[i] == heard[i] && more[..i] == heard[..i];
    if Completed(heard, nonce) {
      var p :| 0 <= p < |heard| && Completes(heard, p, nonce);
      assert Completes(more, p, nonce);
    }
    if Completed(more, nonce) {
      var p :| 0 <= p < |more| && Completes(more, p, nonce);
      assert p < |heard| ==> Completes(heard, p, nonce);
    }
  }

  /** Reads that completed the frame are no longer partial. */
  lemma CompletedIsWhole(heard: seq<ReadOutcome>, nonce: WireCodec.Nonce)
    requires Completed(heard, nonce)
    ensures !Partial(heard)
  {
    hide WireCodec.EncodeNegotiation;
    var p :| 0 <= p < |heard| && Completes(heard, p, nonce);
    ReadyLength(nonce);
    JoinedGrows(heard, p + 1);
    assert heard[..p + 1][..p] == heard[..p];
  }

  lemma ReadyLength(nonce: WireCodec.Nonce)
    ensures |WireCodec.EncodeNegotiation(WireCodec.READY_KIND, nonce)| == 42
  {
  }

  lemma {:induction false} JoinedGrows(heard: seq<ReadOutcome>, k: nat)
    requires k <= |heard|
    ensures |Joined(heard[..k])| <= |Joined(heard)|
  {
    if k < |heard| {
      assert heard[..|heard| - 1][..k] == heard[..k];
      JoinedGrows(heard[..|heard| - 1], k);
    } else {
      assert heard[..k] == heard;
    }
  }

  /** What one poll for readiness does: nothing once ready or before the hello, and otherwise it adds what it reads
      to the frame being read, which a failure, an end, too many bytes or another frame spoil. */
  lemma PollReadyTells(c: Channel, handshake: ReadOutcome)
    ensures var (d, answer) := PollReady(c, handshake);
            if c.ready then d == c && answer == Some(true)
            else if !c.negotiationStarted || handshake == Err(WouldBlock) then d == c && answer == Some(false)
            else match handshake
              case Err(_) => d == c && answer.None?
              case Ok(bytes) =>
                var all := c.handshake + bytes;
                if bytes == [] then d == c && answer.None?
                else if |all| > 42 then d == c.(handshake := []) && answer.None?
                else if |all| < 42 then d == c.(handshake := all) && answer == Some(false)
                else if all == WireCodec.EncodeNegotiation(WireCodec.READY_KIND, c.protocol.nonce)
                then d == c.(handshake := [], ready := true) && answer == Some(true)
                else d == c.(handshake := all) && answer.None?
  {
    hide WireCodec.DecodeNegotiation, WireCodec.EncodeNegotiation;
    if handshake.Ok? {
      WireCodec.NegotiationCodec(c.handshake + handshake.value, WireCodec.READY_KIND, c.protocol.nonce);
    }
  }

  /** One poll. */
  lemma PollNegotiates<X>(c: Control<X>, heard: seq<ReadOutcome>, handshake: ReadOutcome)
    requires NegotiationTells(c, heard)
    ensures NegotiationTells(Negotiate(c, handshake), heard + [handshake])
  {
    hide WireCodec.EncodeNegotiation, Joined, Partial, Completes, Completed, PollReady;
    if c.engine.actuator.channel.Some? {
      var channel := c.engine.actuator.channel.value;
      var nonce := channel.protocol.nonce;
      NextRead(heard, handshake, nonce);
      if c.negotiation.Pending? {
        PollReadyTells(channel, handshake);
        ReadyLength(nonce);
        NothingCompleted(heard, nonce);
        CompletesLast(heard, handshake, nonce);
        PartialIsShort(heard);
        PartialIsShort(heard + [handshake]);
      } else {
        NotPartialYet(heard, handshake, nonce);
      }
    }
  }

  lemma PartialIsShort(heard: seq<ReadOutcome>)
    ensures Partial(heard) ==> |Joined(heard)| < 42
  {
  }

  lemma NothingCompleted(heard: seq<ReadOutcome>, nonce: WireCodec.Nonce)
    requires Partial(heard)
    ensures !Completed(heard, nonce)
  {
    if Completed(heard, nonce) {
      CompletedIsWhole(heard, nonce);
    }
  }

  lemma CompletesLast(heard: seq<ReadOutcome>, r: ReadOutcome, nonce: WireCodec.Nonce)
    requires Partial(heard)
    ensures Completes(heard + [r], |heard|, nonce) <==>
              r.Ok? && r.value != [] && Joined(heard) + r.value == WireCodec.EncodeNegotiation(WireCodec.READY_KIND, nonce)
  {
    assert (heard + [r])[..|heard|] == heard;
  }

  lemma NotPartialYet(heard: seq<ReadOutcome>, r: ReadOutcome, nonce: WireCodec.Nonce)
    requires !Partial(heard)
    ensures !Partial(heard + [r]) && !Completes(heard + [r], |heard|, nonce)
  {
    NextRead(heard, r, nonce);
    assert (heard + [r])[..|heard|] == heard;
  }

  // ---- A whole run ----

  lemma SameNonce<X>(a: Control<X>, b: Control<X>)
    requires LinkOf(a.engine.actuator) == LinkOf(b.engine.actuator)
    ensures NonceOf(a) == NonceOf(b)
  {
    assert a.engine.actuator.channel.Some? ==> Protocol.New(a.engine.actuator.channel.value.protocol.nonce).nonce
                                               == a.engine.actuator.channel.value.protocol.nonce;
    assert b.engine.actuator.channel.Some? ==> Protocol.New(b.engine.actuator.channel.value.protocol.nonce).nonce
                                               == b.engine.actuator.channel.value.protocol.nonce;
  }

  lemma NegotiateKeepsNonce<X>(c: Control<X>, handshake: ReadOutcome)
    ensures NonceOf(Negotiate(c, handshake)) == NonceOf(c)
  {
    hide PollReady;
    if c.engine.actuator.channel.Some? {
      PollReadyKeepsProtocol(c, handshake);
    }
  }

  /** No input ever changes the channel's nonce. */
  lemma InputKeepsNonce<X>(rt: Runtime<X>, i: Input<X>, all: seq<Attempt>)
    requires rt.sampler.config.historyCapacity > 0 && Coherently(rt.control, all)
    ensures NonceOf(RunStep(rt, i).control) == NonceOf(rt.control)
  {
    hide ApplyStep, PollStep, Coherently, RetainStep, SampleInput, PollOf, Negotiate, LinkOf, Inv, NonceOf;
    var c := rt.control;
    CoherentlyInv(c, all);
    match i
    case Happened(e) =>
      ApplyKeepsLink(c, e);
      SameNonce(RunStep(rt, i).control, c);
    case Took(t) =>
      RetainIsQuiet(rt, t);
      ApplyKeepsLink(RetainStep(rt, t).control, SampleInput(rt, t));
      SameNonce(RunStep(rt, i).control, c);
    case Polled(at, handshake, read) =>
      var n := Negotiate(c, handshake);
      PollStepIs(c, at, handshake, read);
      NegotiationKeeps(c, handshake, all);
      NegotiateKeepsNonce(c, handshake);
      if n.negotiation.Ready? && n.engine.machine.state.CheckpointRequested? {
        PollIsReady(n, at, read, all);
        PollKeepsLink(n, at, read);
        var (p, event) := PollOf(n, at, read);
        if event.Some? {
          ApplyKeepsLink(p, event.value);
        }
        SameNonce(RunStep(rt, i).control, n);
      }
  }

  lemma SameLink<X>(a: Control<X>, b: Control<X>, heard: seq<ReadOutcome>)
    requires LinkOf(a.engine.actuator) == LinkOf(b.engine.actuator) && a.negotiation == b.negotiation
    ensures NegotiationTells(a, heard) <==> NegotiationTells(b, heard)
  {
    hide Partial, Completed, Joined;
    assert a.engine.actuator.channel.Some? ==> Protocol.New(a.engine.actuator.channel.value.protocol.nonce).nonce
                                               == a.engine.actuator.channel.value.protocol.nonce;
    assert b.engine.actuator.channel.Some? ==> Protocol.New(b.engine.actuator.channel.value.protocol.nonce).nonce
                                               == b.engine.actuator.channel.value.protocol.nonce;
  }

  function ReadOf<X>(i: Input<X>): seq<ReadOutcome> {
    if i.Polled? then [i.handshake] else []
  }

  /** One input. */
  lemma StepNegotiates<X>(rt: Runtime<X>, i: Input<X>, all: seq<Attempt>, heard: seq<ReadOutcome>)
    requires rt.sampler.config.historyCapacity > 0 && Coherently(rt.control, all) && NegotiationTells(rt.control, heard)
    ensures NegotiationTells(RunStep(rt, i).control, heard + ReadOf(i))
  {
    hide ApplyStep, PollStep, Coherently, RetainStep, SampleInput, PollOf, Negotiate, LinkOf, Inv, NegotiationTells,
         NonceOf;
    var c := rt.control;
    CoherentlyInv(c, all);
    assert heard + [] == heard;
    match i
    case Happened(e) =>
      ApplyKeepsLink(c, e);
      SameLink(RunStep(rt, i).control, c, heard);
    case Took(t) =>
      RetainIsQuiet(rt, t);
      RetainLatches(rt, t);
      ApplyKeepsLink(RetainStep(rt, t).control, SampleInput(rt, t));
      SameLink(RunStep(rt, i).control, c, heard);
    case Polled(at, handshake, read) =>
      var n := Negotiate(c, handshake);
      PollStepIs(c, at, handshake, read);
      NegotiationKeeps(c, handshake, all);
      PollNegotiates(c, heard, handshake);
      if n.negotiation.Ready? && n.engine.machine.state.CheckpointRequested? {
        PollIsReady(n, at, read, all);
        PollKeepsLink(n, at, read);
        var (p, event) := PollOf(n, at, read);
        if event.Some? {
          ApplyKeepsLink(p, event.value);
        }
        SameLink(RunStep(rt, i).control, n, heard + [handshake]);
      }
  }

  /** Over every run that starts with an unanswered channel or none, negotiation stands where the reads of its
      polls say: a worker counts as negotiated with exactly when they were, cut in any way, a readiness frame
      under the run's nonce. */
  lemma {:induction false} RunNegotiates<X>(start: Runtime<X>, inputs: seq<Input<X>>, k: nat)
    requires Fresh(start) && start.sampler.config.historyCapacity > 0
    requires start.control.negotiation.Pending? && Unanswered(start.control.engine.actuator.channel)
    requires k <= |inputs| && (forall i :: 0 <= i < |inputs| ==> Permitted(inputs[i]))
    requires 3 * |inputs| + 3 <= U64_MAX
    ensures NegotiationTells(RunAfter(start, inputs, k).control, Handshakes(inputs, k))
  {
    hide RunStep, StepDoes, Coherently, Accounted, Inv, NegotiationTells, NonceOf, Fresh;
    if k == 0 {
      NothingRead(start.control);
    } else {
      RunNegotiates(start, inputs, k - 1);
      RunIsAccounted(start, inputs, k - 1);
      StepNegotiates(RunAfter(start, inputs, k - 1), inputs[k - 1], RunDoes(start, inputs, k - 1).made,
                     Handshakes(inputs, k - 1));
    }
  }

  lemma NothingRead<X>(c: Control<X>)
    requires c.negotiation.Pending? && Unanswered(c.engine.actuator.channel)
    ensures NegotiationTells(c, [])
  {
  }
}
