/** The platform side effects the policy machine can select. */
module Actuations {
  import opened Common
  import opened Policy

  datatype Actuation =
    | Checkpoint(requestId: u64, overshootBytes: u64, deadlineAt: Duration)
    | Term(checkpoint: CheckpointDisposition)
    | Kill
    | Forward(signal: SignalNumber)
  {
    function Kind(): ActuationKind {
      match this
      case Checkpoint(_, _, _) => CheckpointKind
      case Term(_) => TermKind
      case Kill => KillKind
      case Forward(_) => ForwardSignalKind
    }
  }

  function ActuationFor(a: Action): Option<Actuation> {
    match a
    case RequestCheckpoint(id, overshoot, deadline) => Some(Checkpoint(id, overshoot, deadline))
    case SendTerm(disposition) => Some(Term(disposition))
    case SendKill => Some(Kill)
    case ForwardSignal(signal) => Some(Forward(signal))
    case _ => None
  }

  /** The side effects among a list of actions, in order. */
  function ActuationsOf(actions: seq<Action>): seq<Actuation> {
    if actions == [] then []
    else
      var rest := ActuationsOf(actions[1..]);
      match ActuationFor(actions[0])
      case Some(a) => [a] + rest
      case None => rest
  }

  lemma {:induction false} ActuationsOfConcat(a: seq<Action>, b: seq<Action>)
    ensures ActuationsOf(a + b) == ActuationsOf(a) + ActuationsOf(b)
  {
    if a == [] {
      assert a + b == b;
    } else {
      assert (a + b)[1..] == a[1..] + b;
      ActuationsOfConcat(a[1..], b);
    }
  }

  function ActuationOf(a: Action): seq<Actuation> {
    if ActuationFor(a).Some? then [ActuationFor(a).value] else []
  }

  lemma ActuationsOfTwo(actions: seq<Action>)
    requires |actions| <= 2
    ensures ActuationsOf(actions)
         == (if |actions| > 0 then ActuationOf(actions[0]) else [])
          + (if |actions| > 1 then ActuationOf(actions[1]) else [])
  {
    if |actions| > 0 {
      var t := actions[1..];
      assert |t| > 0 ==> t[0] == actions[1] && t[1..] == [];
    }
  }

  /** The actions of one decision, unfolded. */
  lemma ActuationsOfShort(actions: seq<Action>)
    requires |actions| <= 3
    ensures ActuationsOf(actions)
         == (if |actions| > 0 then ActuationOf(actions[0]) else [])
          + (if |actions| > 1 then ActuationOf(actions[1]) else [])
          + (if |actions| > 2 then ActuationOf(actions[2]) else [])
  {
    if |actions| > 0 {
      var t := actions[1..];
      ActuationsOfTwo(t);
      assert |t| > 0 ==> t[0] == actions[1];
      assert |t| > 1 ==> t[1] == actions[2];
      hide ActuationFor;
    }
  }
}
