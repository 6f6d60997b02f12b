/** What the samples and the escapes a run reports say about the snapshots it took. */
module RunSamples {
  import opened Common
  import opened Runtime
  import opened RuntimeRuns
  import opened RunReports
  import Identity
  import Tracking
  import Sampling
  import Escapes
  import Report

  // ---- One retained window ----

  /** The window's clock readings in milliseconds, a positive length never shown as zero. */
  ghost predicate TellsTimes<X>(w: Report.SampleWindow<X>, t: Taken<X>) {
    && w.capturedAtMs == Min(t.finishedAt / 1_000_000, U64_MAX)
    && w.processedAtMs == Min(t.processedAt / 1_000_000, U64_MAX)
    && (t.startedAt <= t.finishedAt ==>
          var length := t.finishedAt - t.startedAt;
          w.windowMs == if 0 < length < 1_000_000 then 1 else Min(length / 1_000_000, U64_MAX))
    && w.advisory == t.advisory
  }

  /** How a snapshot that could not be taken is recorded. */
  predicate TellsFailure(o: Report.Observed<u64>, kind: Identity.FailureKind) {
    match o
    case Unavailable(reason) => reason.NotSupported? && (kind.Unsupported? || kind.Unavailable?)
    case ObservationFailed(e) =>
      (match e
       case PermissionDenied => kind.PermissionDenied?
       case ProcessMissing => kind.Disappeared? || kind.StaleIdentity?
       case MalformedKernelData => kind.MalformedData?
       case Internal => kind.EnumerationFailed?
       case _ => false)
    case _ => false
  }

  /** The clock ran backwards, against the window itself or the window before it. */
  predicate OutOfOrder(s: Sampling.Sampler, startedAt: Duration, finishedAt: Duration) {
    finishedAt < startedAt || (s.lastStartedAt.Some? && startedAt < s.lastStartedAt.value)
  }

  /** A retained window tells its sample: the exact total of the live members when there is one, an unknown
      one when something was missing, and otherwise why there is none. */
  lemma WindowTells<X>(rt: Runtime<X>, t: Taken<X>, bytes: u64)
    requires rt.sampler.config.historyCapacity > 0
    ensures var w := NextWindow(rt, t);
            && TellsTimes(w, t)
            && (w.footprint == Report.Available(bytes) <==>
                  Sampling.ExactTotal(rt.sampler, t.startedAt, t.finishedAt, t.snapshot, bytes))
            && (OutOfOrder(rt.sampler, t.startedAt, t.finishedAt) ==>
                  w.footprint == Report.ObservationFailed(Report.ClockAnomaly))
            && (!OutOfOrder(rt.sampler, t.startedAt, t.finishedAt) && t.snapshot.Err? ==>
                  TellsFailure(w.footprint, t.snapshot.error))
            && (!OutOfOrder(rt.sampler, t.startedAt, t.finishedAt) && t.snapshot.Ok? ==>
                  match Tracking.UpdateOf(rt.sampler.tracker, t.snapshot.value).frame.aggregate
                  case Complete(_) => w.footprint.Available? || w.footprint.Unknown?
                  case Incomplete(_, _) => w.footprint.Unknown?
                  case Overflow => w.footprint == Report.ObservationFailed(Report.Internal))
  {
    hide Tracking.UpdateOf, Sampling.ExactTotal, Sampling.PolicyEvent;
    Sampling.MeasuredExactly(rt.sampler, t.startedAt, t.finishedAt, t.snapshot, t.processedAt, bytes);
  }

  // ---- The escapes of a run ----

  /** The snapshots of the first `k` inputs that were taken in good order. */
  ghost function GoodSnapshots<X>(start: Runtime<X>, inputs: seq<Input<X>>, k: nat): seq<Identity.Snapshot>
    requires k <= |inputs| && start.sampler.config.historyCapacity > 0
  {
    if k == 0 then []
    else
      var before := GoodSnapshots(start, inputs, k - 1);
      match inputs[k - 1]
      case Took(t) =>
        if !OutOfOrder(RunAfter(start, inputs, k - 1).sampler, t.startedAt, t.finishedAt) && t.snapshot.Ok?
        then before + [t.snapshot.value] else before
      case _ => before
  }

  /** The tracker's escape count and the run's flag after the snapshots seen. */
  ghost predicate TracksSnapshots<X>(rt: Runtime<X>, tracker: Identity.Tracker, snapshots: seq<Identity.Snapshot>) {
    && rt.sampler.tracker == Escapes.TrackerAfter(tracker, snapshots, |snapshots|)
    && (rt.escapeDetected <==> rt.sampler.tracker.escapedCount > 0)
  }

  lemma RetainTracks<X>(rt: Runtime<X>, t: Taken<X>)
    requires rt.sampler.config.historyCapacity > 0
    ensures var n := RetainStep(rt, t);
            if !OutOfOrder(rt.sampler, t.startedAt, t.finishedAt) && t.snapshot.Ok?
            then && n.sampler.tracker == Tracking.UpdateOf(rt.sampler.tracker, t.snapshot.value).tracker
                 && (n.escapeDetected <==> rt.escapeDetected || n.sampler.tracker.escapedCount > 0)
            else n.sampler.tracker == rt.sampler.tracker && n.escapeDetected == rt.escapeDetected
  {
    hide Tracking.ScanAll, Tracking.AggregateOf, WindowOf, Push, Sampling.OutcomeOf;
  }

  lemma SnapshotsNext(tracker: Identity.Tracker, snapshots: seq<Identity.Snapshot>, next: Identity.Snapshot)
    ensures var more := snapshots + [next];
            Escapes.TrackerAfter(tracker, more, |more|)
            == Tracking.UpdateOf(Escapes.TrackerAfter(tracker, snapshots, |snapshots|), next).tracker
  {
    hide Tracking.UpdateOf;
    EarlierSnapshots(tracker, snapshots, [next], |snapshots|);
  }

  lemma {:induction false} EarlierSnapshots(tracker: Identity.Tracker, snapshots: seq<Identity.Snapshot>,
                                            more: seq<Identity.Snapshot>, k: nat)
    requires k <= |snapshots|
    ensures Escapes.TrackerAfter(tracker, snapshots + more, k) == Escapes.TrackerAfter(tracker, snapshots, k)
  {
    hide Tracking.UpdateOf;
    if k > 0 {
      EarlierSnapshots(tracker, snapshots, more, k - 1);
    }
  }

  lemma {:induction false} RunTracks<X>(start: Runtime<X>, inputs: seq<Input<X>>, k: nat, root: Identity.ProcessIdentity,
                                        group: i32)
    requires k <= |inputs| && start.sampler.config.historyCapacity > 0 && !start.escapeDetected
    requires start.sampler.tracker == Identity.Tracker(root, group, [], {}, 0, false)
    ensures TracksSnapshots(RunAfter(start, inputs, k), start.sampler.tracker, GoodSnapshots(start, inputs, k))
  {
    hide ApplyStep, PollStep, RetainStep, Tracking.UpdateOf;
    if k > 0 {
      RunTracks(start, inputs, k - 1, root, group);
      var rt, i := RunAfter(start, inputs, k - 1), inputs[k - 1];
      var before := GoodSnapshots(start, inputs, k - 1);
      if i.Took? {
        RetainTracks(rt, i.taken);
        if i.taken.snapshot.Ok? {
          SnapshotsNext(start.sampler.tracker, before, i.taken.snapshot.value);
          var more := before + [i.taken.snapshot.value];
          Escapes.EscapesAreMonotone(root, group, more, |before|, |more|);
          EarlierSnapshots(start.sampler.tracker, before, [i.taken.snapshot.value], |before|);
        }
      }
    }
  }

  /** The escapes in a run's report are the processes seen outside the owned group in its good snapshots: the
      report says whether there was any, and counts at least the distinct ones, exactly while at most 64. */
  lemma ReportTellsEscapes<X>(start: Runtime<X>, inputs: seq<Input<X>>, root: Identity.ProcessIdentity, group: i32,
                              r: Report.EscapeEvidence)
    requires start.sampler.config.historyCapacity > 0 && !start.escapeDetected
    requires start.sampler.tracker == Identity.Tracker(root, group, [], {}, 0, false)
    requires TellsEscapes(r, RunAfter(start, inputs, |inputs|))
    ensures var snapshots := GoodSnapshots(start, inputs, |inputs|);
            var ever := Escapes.EverEscaped(root, group, snapshots, |snapshots|);
            && r.detected == Report.Available(ever != {})
            && (ever == {} ==> r.escapedCount.None?)
            && (ever != {} ==> r.escapedCount.Some? && r.escapedCount.value >= Min(|ever|, U64_MAX))
            && (0 < |ever| <= Identity.MAX_ESCAPED_EVIDENCE ==> r.escapedCount == Some(|ever|))
  {
    hide RunAfter, GoodSnapshots, Escapes.TrackerAfter, Escapes.MarksKnown, Escapes.EverEscaped, Escapes.Followed;
    RunTracks(start, inputs, |inputs|, root, group);
    var snapshots := GoodSnapshots(start, inputs, |inputs|);
    Escapes.EscapeCounting(root, group, snapshots, |snapshots|);
    var ever := Escapes.EverEscaped(root, group, snapshots, |snapshots|);
    assert |ever| == 0 <==> ever == {};
  }
}
