/** What the journal says of a run's side effects and transitions: one record per side effect that was
    sent, in order, each with its time, number, target, result and a reason, and one per move of the machine. */
module SignalRecords {
  import opened Common
  import opened Policy
  import opened Actuations
  import opened PolicyRuns
  import opened Intervention
  import opened Cascades
  import opened Latches
  import opened Runtime
  import EngineEvidence
  import Report

  function Actions(attempts: seq<Attempt>): (r: seq<Actuation>)
    ensures |r| == |attempts| && forall i :: 0 <= i < |r| ==> r[i] == attempts[i].action
  {
    if attempts == [] then [] else [attempts[0].action] + Actions(attempts[1..])
  }

  lemma {:induction false} TriedIsActions(trace: seq<Effect>)
    ensures Tried(trace) == Actions(Attempts(trace))
  {
    if trace != [] {
      TriedIsActions(trace[1..]);
      var head := if trace[0].Executed? then [trace[0].attempt] else [];
      assert (head + Attempts(trace[1..]))[|head|..] == Attempts(trace[1..]);
    }
  }

  lemma ActionsConcat(a: seq<Attempt>, b: seq<Attempt>)
    ensures Actions(a + b) == Actions(a) + Actions(b)
  {
  }

  /** A checkpoint request that no channel or protocol took: nothing was sent. */
  predicate ReachedNoOne(a: Attempt) {
    a.action.Checkpoint? && (a.reply == Err(CheckpointUnavailable) || a.reply == Err(CheckpointRejected))
  }

  /** The attempts that sent something. */
  function Sent(attempts: seq<Attempt>): seq<Attempt> {
    if attempts == [] then []
    else (if ReachedNoOne(attempts[0]) then [] else [attempts[0]]) + Sent(attempts[1..])
  }

  /** The reasons of the attempts that sent something. */
  function SentWhy(attempts: seq<Attempt>, why: seq<Reason>): (r: seq<Reason>)
    requires |why| == |attempts|
    ensures |r| == |Sent(attempts)|
    decreases attempts
  {
    if attempts == [] then []
    else (if ReachedNoOne(attempts[0]) then [] else [why[0]]) + SentWhy(attempts[1..], why[1..])
  }

  /** Each record gives the reason of the attempt it tells. */
  predicate ReasonsTold(signals: seq<Report.SignalRecord>, attempts: seq<Attempt>, why: seq<Reason>)
    requires |why| == |attempts|
  {
    |signals| == |Sent(attempts)| && forall i :: 0 <= i < |signals| ==> signals[i].reason == SentWhy(attempts, why)[i]
  }

  lemma {:induction false} SentWhyConcat(a: seq<Attempt>, v: seq<Reason>, b: seq<Attempt>, w: seq<Reason>)
    requires |v| == |a| && |w| == |b|
    ensures SentWhy(a + b, v + w) == SentWhy(a, v) + SentWhy(b, w)
    decreases a
  {
    if a == [] {
      assert a + b == b && v + w == w;
    } else {
      assert (a + b)[1..] == a[1..] + b && (v + w)[1..] == v[1..] + w;
      SentWhyConcat(a[1..], v[1..], b, w);
    }
  }

  lemma ReasonsToldConcat(s: seq<Report.SignalRecord>, a: seq<Attempt>, v: seq<Reason>,
                          t: seq<Report.SignalRecord>, b: seq<Attempt>, w: seq<Reason>)
    requires |v| == |a| && |w| == |b| && ReasonsTold(s, a, v) && ReasonsTold(t, b, w)
    ensures ReasonsTold(s + t, a + b, v + w)
  {
    SentConcat(a, b);
    SentWhyConcat(a, v, b, w);
  }

  lemma {:induction false} SentConcat(a: seq<Attempt>, b: seq<Attempt>)
    ensures Sent(a + b) == Sent(a) + Sent(b)
  {
    if a == [] {
      assert a + b == b;
    } else {
      assert (a + b)[1..] == a[1..] + b;
      SentConcat(a[1..], b);
    }
  }

  /** The record tells the attempt, and has a reason. */
  predicate Tells(s: Report.SignalRecord, a: Attempt) {
    && s.atMs == Min(a.requestedAt / 1_000_000, U64_MAX) && s.reason.Some?
    && (match a.action
        case Checkpoint(_, _, _) => s.signal == 30 && s.target.CooperativeEndpoint?
        case Term(_) => s.signal == 15 && s.target.OwnedProcessGroup?
        case Kill => s.signal == 9 && s.target.OwnedProcessGroup?
        case Forward(signal) => s.signal == signal && s.target.OwnedProcessGroup?)
    && match s.result
       case Delivered => a.reply == Ok(Outcome.Delivered)
       case ProcessMissing => a.reply == Ok(Missing) || a.reply == Err(ActuationFailure.ProcessMissing)
       case PermissionDenied => a.reply == Err(ActuationFailure.PermissionDenied)
       case Failed => a.reply.Err? && !a.reply.error.ProcessMissing? && !a.reply.error.PermissionDenied?
  }

  /** The records tell exactly the attempts that sent something, in order. */
  predicate Recorded(signals: seq<Report.SignalRecord>, attempts: seq<Attempt>) {
    |signals| == |Sent(attempts)| && forall i :: 0 <= i < |signals| ==> Tells(signals[i], Sent(attempts)[i])
  }

  lemma RecordedConcat(s: seq<Report.SignalRecord>, a: seq<Attempt>, t: seq<Report.SignalRecord>, b: seq<Attempt>)
    requires Recorded(s, a) && Recorded(t, b)
    ensures Recorded(s + t, a + b)
  {
    SentConcat(a, b);
  }

  lemma {:induction false} SignalsOfConcat<X>(a: seq<Report.Entry<X>>, b: seq<Report.Entry<X>>)
    ensures Report.SignalsOf(a + b) == Report.SignalsOf(a) + Report.SignalsOf(b)
  {
    if b == [] {
      assert a + b == a;
    } else {
      var last := |b| - 1;
      assert (a + b)[..|a + b| - 1] == a + b[..last];
      SignalsOfConcat(a, b[..last]);
    }
  }

  lemma {:induction false} TransitionsTellNothing<X>(trace: seq<Effect>, footprint: Option<u64>)
    ensures Report.SignalsOf(TransitionLog<X>(trace, footprint)) == []
    decreases trace
  {
    if trace != [] {
      var head: seq<Report.Entry<X>> := if trace[0].Moved? then [TransitionEntry(trace[0].transition, footprint)] else [];
      assert head != [] ==> head[..0] == [];
      TransitionsTellNothing<X>(trace[1..], footprint);
      SignalsOfConcat(head, TransitionLog(trace[1..], footprint));
    }
  }

  /** Recording attempts that all have reasons tells exactly those that sent something. */
  lemma {:induction false} LogTells<X>(l: Latches, negotiated: bool, attempts: seq<Attempt>)
    requires AllReasoned(ReasonsOf(l, negotiated, attempts))
    ensures Recorded(Report.SignalsOf(SignalLog<X>(l, negotiated, attempts)), attempts)
    decreases attempts
  {
    hide NoteAttempt;
    if attempts != [] {
      var next := NoteAttempt(l, negotiated, attempts[0]);
      var reason := ActuationReason(attempts[0].action, l.cause, l.shutdown);
      var rest := ReasonsOf(next, negotiated, attempts[1..]);
      assert ReasonsOf(l, negotiated, attempts)[0] == reason;
      assert forall i :: 0 <= i < |rest| ==> rest[i] == ReasonsOf(l, negotiated, attempts)[i + 1];
      LogTells<X>(next, negotiated, attempts[1..]);
      var record := SignalRecordOf(attempts[0], reason);
      var head: seq<Report.Entry<X>> := if record.Some? then [Report.Signal(record.value)] else [];
      OneTells(head, attempts[0], reason);
      SignalsOfConcat(head, SignalLog<X>(next, negotiated, attempts[1..]));
      RecordedConcat(Report.SignalsOf(head), [attempts[0]],
                     Report.SignalsOf(SignalLog<X>(next, negotiated, attempts[1..])), attempts[1..]);
      assert [attempts[0]] + attempts[1..] == attempts;
    }
  }

  lemma OneTells<X>(head: seq<Report.Entry<X>>, a: Attempt, reason: Reason)
    requires reason.Some?
    requires var record := SignalRecordOf(a, reason);
             head == if record.Some? then [Report.Signal(record.value)] else []
    ensures Recorded(Report.SignalsOf(head), [a])
  {
    assert Sent([a]) == if ReachedNoOne(a) then [] else [a];
    assert head != [] ==> head[..0] == [];
  }

  /** Recording attempts gives each record the reason its attempt had. */
  lemma {:induction false} LogTellsReasons<X>(l: Latches, negotiated: bool, attempts: seq<Attempt>)
    ensures ReasonsTold(Report.SignalsOf(SignalLog<X>(l, negotiated, attempts)), attempts, ReasonsOf(l, negotiated, attempts))
    decreases attempts
  {
    hide NoteAttempt, ActuationReason;
    if attempts != [] {
      var next := NoteAttempt(l, negotiated, attempts[0]);
      var reason := ActuationReason(attempts[0].action, l.cause, l.shutdown);
      LogTellsReasons<X>(next, negotiated, attempts[1..]);
      var record := SignalRecordOf(attempts[0], reason);
      var head: seq<Report.Entry<X>> := if record.Some? then [Report.Signal(record.value)] else [];
      OneTellsReason(head, attempts[0], reason);
      SignalsOfConcat(head, SignalLog<X>(next, negotiated, attempts[1..]));
      ReasonsToldConcat(Report.SignalsOf(head), [attempts[0]], [reason],
                        Report.SignalsOf(SignalLog<X>(next, negotiated, attempts[1..])), attempts[1..],
                        ReasonsOf(next, negotiated, attempts[1..]));
      assert [attempts[0]] + attempts[1..] == attempts;
    }
  }

  lemma OneTellsReason<X>(head: seq<Report.Entry<X>>, a: Attempt, reason: Reason)
    requires var record := SignalRecordOf(a, reason);
             head == if record.Some? then [Report.Signal(record.value)] else []
    ensures ReasonsTold(Report.SignalsOf(head), [a], [reason])
  {
    assert Sent([a]) == if ReachedNoOne(a) then [] else [a];
    assert SentWhy([a], [reason]) == if ReachedNoOne(a) then [] else [reason];
    assert head != [] ==> head[..0] == [];
  }

  // ---- Transitions ----

  /** A move of the machine, and the total that was the latest known when it happened. */
  datatype Seen = Seen(move: Transition, total: Option<u64>)

  function MovesOf(trace: seq<Effect>, total: Option<u64>): seq<Seen> {
    if trace == [] then []
    else (if trace[0].Moved? then [Seen(trace[0].transition, total)] else []) + MovesOf(trace[1..], total)
  }

  /** The record tells the move: its time, where it came from, where it went, and the total. */
  predicate TellsMove(r: Report.TransitionRecord, seen: Seen) {
    && r.atMs == Min(seen.move.at / 1_000_000, U64_MAX) && r.from == seen.move.from && r.to == seen.move.to
    && r.footprint == seen.total
  }

  predicate MovesRecorded(records: seq<Report.TransitionRecord>, moves: seq<Seen>) {
    |records| == |moves| && forall i :: 0 <= i < |records| ==> TellsMove(records[i], moves[i])
  }

  lemma MovesRecordedConcat(r: seq<Report.TransitionRecord>, a: seq<Seen>, t: seq<Report.TransitionRecord>, b: seq<Seen>)
    requires MovesRecorded(r, a) && MovesRecorded(t, b)
    ensures MovesRecorded(r + t, a + b)
  {
  }

  lemma {:induction false} TransitionsOfConcat<X>(a: seq<Report.Entry<X>>, b: seq<Report.Entry<X>>)
    ensures Report.TransitionsOf(a + b) == Report.TransitionsOf(a) + Report.TransitionsOf(b)
  {
    if b == [] {
      assert a + b == a;
    } else {
      var last := |b| - 1;
      assert (a + b)[..|a + b| - 1] == a + b[..last];
      TransitionsOfConcat(a, b[..last]);
    }
  }

  /** Journaling a trace tells exactly its moves. */
  lemma {:induction false} LogTellsMoves<X>(trace: seq<Effect>, total: Option<u64>)
    ensures MovesRecorded(Report.TransitionsOf(TransitionLog<X>(trace, total)), MovesOf(trace, total))
    decreases trace
  {
    if trace != [] {
      var head: seq<Report.Entry<X>> := if trace[0].Moved? then [TransitionEntry(trace[0].transition, total)] else [];
      assert head != [] ==> head[..0] == [];
      LogTellsMoves<X>(trace[1..], total);
      TransitionsOfConcat(head, TransitionLog<X>(trace[1..], total));
      var first: seq<Seen> := if trace[0].Moved? then [Seen(trace[0].transition, total)] else [];
      MovesRecordedConcat(Report.TransitionsOf(head), first,
                          Report.TransitionsOf(TransitionLog<X>(trace[1..], total)), MovesOf(trace[1..], total));
    }
  }

  lemma {:induction false} SignalsMoveNothing<X>(l: Latches, negotiated: bool, attempts: seq<Attempt>)
    ensures Report.TransitionsOf(SignalLog<X>(l, negotiated, attempts)) == []
    decreases attempts
  {
    hide NoteAttempt;
    if attempts != [] {
      var record := SignalRecordOf(attempts[0], ActuationReason(attempts[0].action, l.cause, l.shutdown));
      var head: seq<Report.Entry<X>> := if record.Some? then [Report.Signal(record.value)] else [];
      assert head != [] ==> head[..0] == [];
      SignalsMoveNothing<X>(NoteAttempt(l, negotiated, attempts[0]), negotiated, attempts[1..]);
      TransitionsOfConcat(head, SignalLog<X>(NoteAttempt(l, negotiated, attempts[0]), negotiated, attempts[1..]));
    }
  }

  /** The moves lead from one state to the other without a gap, and each changes the state. */
  predicate IsPath(from: PolicyState, moves: seq<Seen>, to: PolicyState)
    decreases moves
  {
    if moves == [] then from == to
    else moves[0].move.from == from && moves[0].move.to != from && IsPath(moves[0].move.to, moves[1..], to)
  }

  lemma {:induction false} PathThrough(from: PolicyState, a: seq<Seen>, mid: PolicyState, b: seq<Seen>, to: PolicyState)
    requires IsPath(from, a, mid) && IsPath(mid, b, to)
    ensures IsPath(from, a + b, to)
    decreases a
  {
    if a == [] {
      assert a + b == b;
    } else {
      assert (a + b)[1..] == a[1..] + b;
      PathThrough(a[0].move.to, a[1..], mid, b, to);
    }
  }

  /** The moves of a trace are the path its transitions take. */
  lemma {:induction false} MovesArePath(from: PolicyState, trace: seq<Effect>, to: PolicyState, total: Option<u64>)
    requires EngineEvidence.PathFits(from, trace, to)
    ensures IsPath(from, MovesOf(trace, total), to)
    decreases trace
  {
    hide EngineEvidence.BelongsTo;
    if trace != [] {
      match trace[0]
      case Moved(t) =>
        MovesArePath(t.to, trace[1..], to, total);
        assert ([Seen(t, total)] + MovesOf(trace[1..], total))[1..] == MovesOf(trace[1..], total);
      case Executed(_) =>
        MovesArePath(from, trace[1..], to, total);
        assert [] + MovesOf(trace[1..], total) == MovesOf(trace[1..], total);
    }
  }

  // ---- Their shape ----

  predicate SignalsShapedAt(signals: seq<Report.SignalRecord>, i: nat, j: nat) {
    && i <= j <= |signals| && i <= 1 && j - i <= 1
    && (forall k :: 0 <= k < i ==> signals[k].target.CooperativeEndpoint? && signals[k].signal == CHECKPOINT_SIGNAL)
    && (forall k :: i <= k < |signals| ==> signals[k].target.OwnedProcessGroup?)
    && (forall k :: j <= k < |signals| ==> signals[k].signal == 9)
  }

  /** At most one signal to the checkpoint endpoint, then at most one TERM or forwarded signal to the
      group, then only KILLs. */
  ghost predicate SignalShape(signals: seq<Report.SignalRecord>) {
    exists i: nat, j: nat :: SignalsShapedAt(signals, i, j)
  }

  lemma {:induction false} SignalsAreSent(attempts: seq<Attempt>)
    requires forall i :: 0 <= i < |attempts| ==> !attempts[i].action.Checkpoint?
    ensures Sent(attempts) == attempts
  {
    if attempts != [] {
      SignalsAreSent(attempts[1..]);
    }
  }

  /** Records of an escalation have its shape. */
  lemma RecordsKeepShape(signals: seq<Report.SignalRecord>, all: seq<Attempt>)
    requires Recorded(signals, all) && EscalationShape(Actions(all))
    ensures SignalShape(signals)
  {
    var i: nat, j: nat :| ShapedAt(Actions(all), i, j);
    if i == 0 {
      SignalsAreSent(all);
      assert SignalsShapedAt(signals, 0, j);
    } else {
      SignalsAreSent(all[1..]);
      if Unsent(all[0]) {
        assert SignalsShapedAt(signals, 0, j - 1);
      } else {
        assert Sent(all) == all;
        assert SignalsShapedAt(signals, 1, j);
      }
    }
  }
}
