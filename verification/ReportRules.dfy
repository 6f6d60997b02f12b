/** The report validator as the code runs it (report.rs): neighbours compared pair by pair, the latest time
    folded over every list, and the first rule broken reported; and the rules it comes to. */
module ReportRules {
  import opened Common
  import opened Report

  datatype ReportError =
    | InvalidHeader | InvalidConfiguration | InvalidAdvisoryMetrics | InvalidEventOrder | InvalidCalibration

  // ---- The code's own walks ----

  /** Every two neighbours are in order. */
  predicate OrderedBy(times: seq<u64>) {
    |times| < 2 || (times[0] <= times[1] && OrderedBy(times[1..]))
  }

  /** Every two neighbours pass, and so does the last item on its own. */
  predicate SamplePairsPass<X>(samples: seq<SampleWindow<X>>) {
    if samples == [] then true
    else
      && samples[0].capturedAtMs <= samples[0].processedAtMs && samples[0].windowMs > 0
      && (|samples| == 1 || (samples[0].processedAtMs <= samples[1].processedAtMs && SamplePairsPass(samples[1..])))
  }

  function TimesOfTransitions(ts: seq<TransitionRecord>): (r: seq<u64>)
    ensures |r| == |ts| && forall i :: 0 <= i < |r| ==> r[i] == ts[i].atMs
  {
    if ts == [] then [] else [ts[0].atMs] + TimesOfTransitions(ts[1..])
  }

  function TimesOfSignals(ss: seq<SignalRecord>): (r: seq<u64>)
    ensures |r| == |ss| && forall i :: 0 <= i < |r| ==> r[i] == ss[i].atMs
  {
    if ss == [] then [] else [ss[0].atMs] + TimesOfSignals(ss[1..])
  }

  function TimesOfErrors(es: seq<ArtifactErrorRecord>): (r: seq<u64>)
    ensures |r| == |es| && forall i :: 0 <= i < |r| ==> r[i] == es[i].atMs
  {
    if es == [] then [] else [es[0].atMs] + TimesOfErrors(es[1..])
  }

  function TimesOfSamples<X>(samples: seq<SampleWindow<X>>): (r: seq<u64>)
    ensures |r| == |samples| && forall i :: 0 <= i < |r| ==> r[i] == samples[i].processedAtMs
  {
    if samples == [] then [] else [samples[0].processedAtMs] + TimesOfSamples(samples[1..])
  }

  /** The latest of the times, and zero when there is none. */
  function Latest(times: seq<u64>): u64 {
    if times == [] then 0 else Max(times[0], Latest(times[1..]))
  }

  function LastEvent<X>(r: Report<X>): u64 {
    Latest(TimesOfSamples(r.samples) + TimesOfTransitions(r.transitions) + TimesOfSignals(r.signals)
           + TimesOfErrors(r.artifactErrors) + if r.checkpoint.atMs.Some? then [r.checkpoint.atMs.value] else [])
  }

  predicate DeliveredStatus(status: CheckpointStatus) {
    status.RequestedUnverified? || status.AcknowledgedUnverifiedDurability? || status.TimedOut?
  }

  predicate CheckpointPasses(c: CheckpointRecord) {
    && (match c.status
        case NotNegotiated => c.atMs.None?
        case _ => c.atMs.Some?)
    && (c.requestId.None? || c.requestId.value != 0) && (c.requestId.None? || DeliveredStatus(c.status))
    && (c.artifact.None? || c.status.AcknowledgedUnverifiedDurability?)
    && (c.reason.None? || c.reason == Some(SignalReason.Footprint) || c.reason == Some(SignalReason.WallTime))
  }

  predicate SignalInRange(signal: u8) {
    1 <= signal <= 127
  }

  predicate OutcomePasses(o: TerminalOutcome) {
    && (match o.kind
        case ChildSignaled(signal) => SignalInRange(signal)
        case _ => true)
    && (match o.childStatus
        case Some(Signaled(signal)) => SignalInRange(signal)
        case _ => true)
    && (match o.kind
        case ChildExited(code) => o.childStatus.None? || o.childStatus == Some(Exited(code))
        case ChildSignaled(signal) => o.childStatus.None? || o.childStatus == Some(Signaled(signal))
        case _ => true)
    && (o.parentExitedAtMs.None? || o.parentExitedAtMs.value <= o.atMs)
  }

  predicate EscapePasses(e: EscapeEvidence) {
    e.escapedCount.None? || (e.escapedCount.value > 0 && e.detected == Available(true))
  }

  predicate ConfigurationPasses(c: Configuration, o: TerminalOutcome) {
    && c.sampleIntervalMs > 0 && c.requiredBreachSamples > 0 && c.maxMissingSamples > 0 && c.maxSampleAgeMs > 0
    && c.maxSampleWindowMs > 0 && c.termGraceMs > 0
    && (c.checkpointTimeoutMs.None? || c.checkpointTimeoutMs.value > 0) && (c.wallTimeMs.None? || c.wallTimeMs.value > 0)
    && (if c.mode.Observe?
        then (c.limitBytes, c.warningBytes, c.recoveryBytes, c.emergencyBytes) == (None, None, None, None)
             && c.wallTimeMs.None? && c.checkpointTimeoutMs.None?
        else match (c.recoveryBytes, c.warningBytes, c.limitBytes, c.emergencyBytes)
             case (Some(recovery), Some(warning), Some(limit), Some(emergency)) =>
               recovery < warning && warning < limit && limit < emergency
             case _ => false)
    && (!(c.parentWatch == Some(DetachedWatch)) || c.onParentExit == Some(OnParentExit.Detach))
    && (c.onParentExit != Some(OnParentExit.Detach)
        || c.parentWatch == Some(DetachedWatch) || c.parentWatch == Some(ParentUnobservable))
    && (o.parentExitedAtMs.None? || c.parentWatch == Some(Active) || c.parentWatch == Some(DetachedWatch))
  }

  predicate TransitionsPass(ts: seq<TransitionRecord>) {
    OrderedBy(TimesOfTransitions(ts)) && forall i :: 0 <= i < |ts| ==> ts[i].from != ts[i].to
  }

  predicate SignalsPass(ss: seq<SignalRecord>) {
    OrderedBy(TimesOfSignals(ss)) && forall i :: 0 <= i < |ss| ==> SignalInRange(ss[i].signal)
  }

  predicate EventsPass<X>(r: Report<X>) {
    && SamplePairsPass(r.samples) && TransitionsPass(r.transitions) && SignalsPass(r.signals)
    && OrderedBy(TimesOfErrors(r.artifactErrors)) && CheckpointPasses(r.checkpoint) && OutcomePasses(r.outcome)
    && EscapePasses(r.escape) && !(r.outcome.atMs < LastEvent(r))
  }

  predicate AdvisoryPasses<X>(rules: Rules<X>, r: Report<X>) {
    forall i :: 0 <= i < |r.samples| ==> rules.advisory(r.samples[i].advisory, r.samples[i].processedAtMs)
  }

  /** The first rule broken, if any. */
  function Validate<X>(rules: Rules<X>, r: Report<X>): Option<ReportError> {
    if !rules.header(r.header) then Some(InvalidHeader)
    else if !ConfigurationPasses(r.configuration, r.outcome) then Some(ReportError.InvalidConfiguration)
    else if !AdvisoryPasses(rules, r) then Some(InvalidAdvisoryMetrics)
    else if !EventsPass(r) then Some(InvalidEventOrder)
    else match r.calibration
      case None => None
      case Some(calibration) =>
        if !r.configuration.mode.Observe? || !rules.calibration(calibration) then Some(InvalidCalibration) else None
  }

  // ---- What they come to ----

  lemma {:induction false} NeighboursOrderAll(times: seq<u64>)
    ensures OrderedBy(times) <==> forall i, j :: 0 <= i < j < |times| ==> times[i] <= times[j]
  {
    if |times| >= 2 {
      var rest := times[1..];
      NeighboursOrderAll(rest);
      if OrderedBy(times) {
        forall i, j | 0 <= i < j < |times| ensures times[i] <= times[j] {
          assert times[j] == rest[j - 1];
          if i > 0 {
            assert times[i] == rest[i - 1];
          } else if j > 1 {
            assert rest[0] <= rest[j - 1];
          }
        }
      } else if times[0] <= times[1] {
        var i, j :| 0 <= i < j < |rest| && rest[i] > rest[j];
        assert times[i + 1] > times[j + 1];
      }
    }
  }

  lemma {:induction false} PairsOrderSamples<X>(samples: seq<SampleWindow<X>>)
    ensures SamplePairsPass(samples) <==> SamplesOrdered(samples)
  {
    if samples != [] {
      var rest := samples[1..];
      PairsOrderSamples(rest);
      if SamplePairsPass(samples) {
        forall i, j | 0 <= i < j < |samples| ensures samples[i].processedAtMs <= samples[j].processedAtMs {
          assert samples[j] == rest[j - 1];
          if i > 0 {
            assert samples[i] == rest[i - 1];
          } else if j > 1 {
            assert rest[0].processedAtMs <= rest[j - 1].processedAtMs;
          }
        }
        assert forall i :: 0 < i < |samples| ==> samples[i] == rest[i - 1];
      } else if SamplesOrdered(samples) && |samples| > 1 {
        assert forall i :: 0 <= i < |rest| ==> rest[i] == samples[i + 1];
        assert SamplesOrdered(rest);
      }
    }
  }

  lemma {:induction false} LatestBounds(times: seq<u64>, bound: u64)
    ensures Latest(times) <= bound <==> forall i :: 0 <= i < |times| ==> times[i] <= bound
  {
    if times != [] {
      LatestBounds(times[1..], bound);
      assert (forall i :: 0 <= i < |times| ==> times[i] <= bound)
        <==> times[0] <= bound && forall i :: 0 <= i < |times[1..]| ==> times[1..][i] <= bound by {
        assert forall i :: 0 < i < |times| ==> times[i] == times[1..][i - 1];
      }
    }
  }

  lemma LatestOfTwo(a: seq<u64>, b: seq<u64>, bound: u64)
    ensures Latest(a + b) <= bound <==> Latest(a) <= bound && Latest(b) <= bound
  {
    LatestBounds(a, bound);
    LatestBounds(b, bound);
    LatestBounds(a + b, bound);
    var all := a + b;
    assert forall i :: 0 <= i < |a| ==> all[i] == a[i];
    assert forall i :: 0 <= i < |b| ==> all[|a| + i] == b[i];
  }

  /** No event is later than the outcome exactly when the latest one is not. */
  lemma LastEventIsLast<X>(r: Report<X>)
    ensures LastEvent(r) <= r.outcome.atMs <==> OutcomeIsLast(r)
  {
    var bound := r.outcome.atMs;
    var samples, moves := TimesOfSamples(r.samples), TimesOfTransitions(r.transitions);
    var signals, errors := TimesOfSignals(r.signals), TimesOfErrors(r.artifactErrors);
    var checkpoint := if r.checkpoint.atMs.Some? then [r.checkpoint.atMs.value] else [];
    LatestOfTwo(samples + moves + signals + errors, checkpoint, bound);
    LatestOfTwo(samples + moves + signals, errors, bound);
    LatestOfTwo(samples + moves, signals, bound);
    LatestOfTwo(samples, moves, bound);
    LatestBounds(samples, bound);
    LatestBounds(moves, bound);
    LatestBounds(signals, bound);
    LatestBounds(errors, bound);
    LatestBounds(checkpoint, bound);
    hide Latest;
  }

  /** The validator's walk accepts exactly the reports that keep the rules; and it blames the configuration, the
      events or the calibration only for a rule of theirs. */
  lemma ValidatorKeepsRules<X>(rules: Rules<X>, r: Report<X>)
    ensures Validate(rules, r).None? <==> ValidReport(rules, r)
    ensures Validate(rules, r) == Some(ReportError.InvalidConfiguration) <==>
              rules.header(r.header) && !ValidConfiguration(r.configuration, r.outcome)
    ensures Validate(rules, r) == Some(InvalidCalibration) <==>
              rules.header(r.header) && ValidConfiguration(r.configuration, r.outcome) && ValidEvents(rules, r)
              && r.calibration.Some? && !(r.configuration.mode.Observe? && rules.calibration(r.calibration.value))
  {
    hide OrderedBy, SamplePairsPass, LastEvent, SamplesOrdered, OutcomeIsLast;
    NeighboursOrderAll(TimesOfTransitions(r.transitions));
    NeighboursOrderAll(TimesOfSignals(r.signals));
    NeighboursOrderAll(TimesOfErrors(r.artifactErrors));
    PairsOrderSamples(r.samples);
    LastEventIsLast(r);
    ConfigurationRules(r.configuration, r.outcome);
    RecordRules(r);
    hide ConfigurationPasses, ValidConfiguration, CheckpointPasses, OutcomePasses, EscapePasses, ValidCheckpoint,
         ValidOutcome,
         ValidEscape;
  }

  lemma ConfigurationRules(c: Configuration, o: TerminalOutcome)
    ensures ConfigurationPasses(c, o) <==> ValidConfiguration(c, o)
  {
  }

  lemma RecordRules<X>(r: Report<X>)
    ensures CheckpointPasses(r.checkpoint) <==> ValidCheckpoint(r.checkpoint)
    ensures OutcomePasses(r.outcome) <==> ValidOutcome(r.outcome)
    ensures EscapePasses(r.escape) <==> ValidEscape(r.escape)
  {
  }
}
