/** Report records, the validator they must pass (report.rs), and the replay that rebuilds a report
    from journal entries (persistence.rs).

    `X` stands for the parts of a report this model does not look into: identity, version,
    capabilities and privacy in the header, advisory metrics in a sample, and the calibration artifact.
    `Rules` says which of them are valid. */
module Report {
  import opened Common
  import Policy
  import WireCodec

  datatype UnavailableReason = NotSupported | NotNegotiated | NotApplicable | NonUtf8
  datatype ObservationError = PermissionDenied | ProcessMissing | MalformedKernelData | ClockAnomaly | Internal
  datatype Observed<+T> =
    | Available(value: T)
    | Unknown
    | Unavailable(reason: UnavailableReason)
    | Stale(lastSeenAtMs: u64)
    | ObservationFailed(code: ObservationError)

  datatype ReportMode = Observe | Enforce
  datatype OnParentExit = Terminate | Detach
  datatype ParentWatch = Active | ParentIsLaunchd | HangupIgnored | DetachedWatch | ParentUnobservable

  datatype Configuration = Configuration(
    mode: ReportMode,
    limitBytes: Option<u64>,
    warningBytes: Option<u64>,
    recoveryBytes: Option<u64>,
    emergencyBytes: Option<u64>,
    requiredBreachSamples: u32,
    maxMissingSamples: u32,
    wallTimeMs: Option<u64>,
    sampleIntervalMs: u64,
    maxSampleAgeMs: u64,
    maxSampleWindowMs: u64,
    checkpointTimeoutMs: Option<u64>,
    termGraceMs: u64,
    onParentExit: Option<OnParentExit>,
    parentWatch: Option<ParentWatch>)

  datatype SampleWindow<+X> = SampleWindow(
    capturedAtMs: u64, processedAtMs: u64, windowMs: u64, footprint: Observed<u64>, advisory: X)

  datatype TransitionRecord = TransitionRecord(
    atMs: u64, from: Policy.PolicyState, to: Policy.PolicyState, footprint: Option<u64>)

  datatype SignalTarget = OwnedProcessGroup | CooperativeEndpoint
  datatype SignalResult = Delivered | ProcessMissing | PermissionDenied | Failed
  datatype SignalReason =
    | Footprint | WallTime | ExternalSignal | RootExitCleanup | ParentExit | ObservationFailure | SupervisorFault
  datatype SignalRecord = SignalRecord(
    atMs: u64, signal: u8, target: SignalTarget, result: SignalResult, reason: Option<SignalReason>)

  datatype CheckpointStatus =
    | NotNegotiated | RequestedUnverified | AcknowledgedUnverifiedDurability | TimedOut | Cancelled
  datatype CheckpointRecord = CheckpointRecord(
    status: CheckpointStatus, atMs: Option<u64>, requestId: Option<u64>, reason: Option<SignalReason>,
    artifact: Option<WireCodec.Artifact>)

  datatype EscapeEvidence = EscapeEvidence(detected: Observed<bool>, escapedCount: Option<u64>)

  datatype ArtifactErrorCode = CreateFailed | WriteFailed | SyncFailed | RenameFailed | PermissionFailed
  datatype ArtifactErrorRecord = ArtifactErrorRecord(atMs: u64, code: ArtifactErrorCode)

  datatype TerminalKind =
    | ChildExited(exitCode: u8) | ChildSignaled(killedBy: u8) | LaunchNotFound | LaunchNotExecutable
    | InvalidConfiguration | PolicyIntervention | SupervisorFailure | PartialArtifactFailure
  datatype ChildStatus = Exited(code: u8) | Signaled(signal: u8)
  datatype TerminalOutcome = TerminalOutcome(
    atMs: u64, kind: TerminalKind, finalFootprint: Observed<u64>, childStatus: Option<ChildStatus>,
    survivors: Option<bool>, parentExitedAtMs: Option<u64>)

  datatype Report<+X> = Report(
    header: X,
    configuration: Configuration,
    samples: seq<SampleWindow<X>>,
    transitions: seq<TransitionRecord>,
    signals: seq<SignalRecord>,
    checkpoint: CheckpointRecord,
    escape: EscapeEvidence,
    artifactErrors: seq<ArtifactErrorRecord>,
    outcome: TerminalOutcome,
    calibration: Option<X>)

  datatype Rules<!X> = Rules(header: X -> bool, advisory: (X, u64) -> bool, calibration: X -> bool)

  // ---- Validation ----

  predicate Positive(v: Option<u64>) {
    v.Some? ==> v.value > 0
  }

  predicate BandsOrdered(c: Configuration) {
    && c.recoveryBytes.Some? && c.warningBytes.Some? && c.limitBytes.Some? && c.emergencyBytes.Some?
    && c.recoveryBytes.value < c.warningBytes.value < c.limitBytes.value < c.emergencyBytes.value
  }

  predicate ValidConfiguration(c: Configuration, outcome: TerminalOutcome) {
    && c.sampleIntervalMs > 0 && c.requiredBreachSamples > 0 && c.maxMissingSamples > 0
    && c.maxSampleAgeMs > 0 && c.maxSampleWindowMs > 0 && c.termGraceMs > 0
    && Positive(c.checkpointTimeoutMs) && Positive(c.wallTimeMs)
    && (match c.mode
        case Observe =>
          c.limitBytes.None? && c.warningBytes.None? && c.recoveryBytes.None? && c.emergencyBytes.None?
          && c.wallTimeMs.None? && c.checkpointTimeoutMs.None?
        case Enforce => BandsOrdered(c))
    && (c.parentWatch == Some(DetachedWatch) ==> c.onParentExit == Some(Detach))
    && (c.onParentExit == Some(Detach) ==>
          c.parentWatch == Some(DetachedWatch) || c.parentWatch == Some(ParentUnobservable))
    && (outcome.parentExitedAtMs.Some? ==>
          c.parentWatch == Some(Active) || c.parentWatch == Some(DetachedWatch))
  }

  /** No later item has an earlier time. */
  predicate SamplesOrdered<X>(samples: seq<SampleWindow<X>>) {
    && (forall i, j :: 0 <= i < j < |samples| ==> samples[i].processedAtMs <= samples[j].processedAtMs)
    && (forall i :: 0 <= i < |samples| ==> samples[i].capturedAtMs <= samples[i].processedAtMs && samples[i].windowMs > 0)
  }

  predicate TransitionsOrdered(ts: seq<TransitionRecord>) {
    && (forall i, j :: 0 <= i < j < |ts| ==> ts[i].atMs <= ts[j].atMs)
    && (forall i :: 0 <= i < |ts| ==> ts[i].from != ts[i].to)
  }

  predicate ValidSignal(signal: u8) {
    1 <= signal <= 127
  }

  predicate SignalsOrdered(ss: seq<SignalRecord>) {
    && (forall i, j :: 0 <= i < j < |ss| ==> ss[i].atMs <= ss[j].atMs)
    && (forall i :: 0 <= i < |ss| ==> ValidSignal(ss[i].signal))
  }

  predicate ErrorsOrdered(es: seq<ArtifactErrorRecord>) {
    forall i, j :: 0 <= i < j < |es| ==> es[i].atMs <= es[j].atMs
  }

  predicate ValidCheckpoint(c: CheckpointRecord) {
    && (c.status.NotNegotiated? <==> c.atMs.None?)
    && (c.requestId.Some? ==>
          && c.requestId.value != 0
          && (c.status.RequestedUnverified? || c.status.AcknowledgedUnverifiedDurability? || c.status.TimedOut?))
    && (c.artifact.Some? ==> c.status.AcknowledgedUnverifiedDurability?)
    && (c.reason.Some? ==> c.reason.value.Footprint? || c.reason.value.WallTime?)
  }

  predicate ValidOutcome(o: TerminalOutcome) {
    && (o.kind.ChildSignaled? ==> ValidSignal(o.kind.killedBy))
    && (o.childStatus.Some? && o.childStatus.value.Signaled? ==> ValidSignal(o.childStatus.value.signal))
    && (o.kind.ChildExited? && o.childStatus.Some? ==> o.childStatus.value == Exited(o.kind.exitCode))
    && (o.kind.ChildSignaled? && o.childStatus.Some? ==> o.childStatus.value == Signaled(o.kind.killedBy))
    && (o.parentExitedAtMs.Some? ==> o.parentExitedAtMs.value <= o.atMs)
  }

  predicate ValidEscape(e: EscapeEvidence) {
    e.escapedCount.Some? ==> e.escapedCount.value > 0 && e.detected == Available(true)
  }

  /** No event of the report comes after its outcome. */
  predicate OutcomeIsLast<X>(r: Report<X>) {
    && (forall i :: 0 <= i < |r.samples| ==> r.samples[i].processedAtMs <= r.outcome.atMs)
    && (forall i :: 0 <= i < |r.transitions| ==> r.transitions[i].atMs <= r.outcome.atMs)
    && (forall i :: 0 <= i < |r.signals| ==> r.signals[i].atMs <= r.outcome.atMs)
    && (forall i :: 0 <= i < |r.artifactErrors| ==> r.artifactErrors[i].atMs <= r.outcome.atMs)
    && (r.checkpoint.atMs.Some? ==> r.checkpoint.atMs.value <= r.outcome.atMs)
  }

  predicate ValidEvents<X>(rules: Rules<X>, r: Report<X>) {
    && (forall i :: 0 <= i < |r.samples| ==> rules.advisory(r.samples[i].advisory, r.samples[i].processedAtMs))
    && SamplesOrdered(r.samples) && TransitionsOrdered(r.transitions) && SignalsOrdered(r.signals)
    && ErrorsOrdered(r.artifactErrors) && ValidCheckpoint(r.checkpoint) && ValidOutcome(r.outcome)
    && ValidEscape(r.escape) && OutcomeIsLast(r)
  }

  predicate ValidReport<X>(rules: Rules<X>, r: Report<X>) {
    && rules.header(r.header)
    && ValidConfiguration(r.configuration, r.outcome)
    && ValidEvents(rules, r)
    && (r.calibration.Some? ==> r.configuration.mode.Observe? && rules.calibration(r.calibration.value))
  }

  // ---- Journal entries ----

  datatype Entry<+X> =
    | Header(header: X, configuration: Configuration)
    | Sample(sample: SampleWindow<X>)
    | SampleHistoryReset
    | Transition(transition: TransitionRecord)
    | Signal(signal: SignalRecord)
    | Checkpoint(checkpoint: CheckpointRecord)
    | Escape(escape: EscapeEvidence)
    | ArtifactError(error: ArtifactErrorRecord)
    | Calibration(calibration: X)
    | Outcome(outcome: TerminalOutcome)

  predicate RequiresSync<X>(e: Entry<X>) {
    e.Header? || e.SampleHistoryReset? || e.Transition? || e.Signal? || e.Checkpoint? || e.Outcome?
  }

  datatype Kind = HeaderKind | SampleKind | ResetKind | TransitionKind | SignalKind | CheckpointKind
                | EscapeKind | ErrorKind | CalibrationKind | OutcomeKind

  function KindOf<X>(e: Entry<X>): Kind {
    match e
    case Header(_, _) => HeaderKind
    case Sample(_) => SampleKind
    case SampleHistoryReset => ResetKind
    case Transition(_) => TransitionKind
    case Signal(_) => SignalKind
    case Checkpoint(_) => CheckpointKind
    case Escape(_) => EscapeKind
    case ArtifactError(_) => ErrorKind
    case Calibration(_) => CalibrationKind
    case Outcome(_) => OutcomeKind
  }

  /** How many entries are of a kind. */
  function Count<X>(entries: seq<Entry<X>>, kind: Kind): nat {
    if entries == [] then 0
    else Count(entries[..|entries| - 1], kind) + if KindOf(entries[|entries| - 1]) == kind then 1 else 0
  }

  /** The component sequences replay accepts. */
  predicate WellShaped<X>(entries: seq<Entry<X>>) {
    && |entries| > 0
    && entries[0].Header? && Count(entries, HeaderKind) == 1
    && entries[|entries| - 1].Outcome? && Count(entries, OutcomeKind) == 1
    && Count(entries, CheckpointKind) == 1 && Count(entries, EscapeKind) == 1
    && Count(entries, ResetKind) <= 1 && Count(entries, CalibrationKind) <= 1
  }

  // ---- What replay reads out of a sequence ----

  /** The samples since the last history reset. */
  function SamplesOf<X>(entries: seq<Entry<X>>): seq<SampleWindow<X>> {
    if entries == [] then []
    else
      var last := entries[|entries| - 1];
      var before := SamplesOf(entries[..|entries| - 1]);
      if last.Sample? then before + [last.sample] else if last.SampleHistoryReset? then [] else before
  }

  function TransitionsOf<X>(entries: seq<Entry<X>>): seq<TransitionRecord> {
    if entries == [] then []
    else
      var last := entries[|entries| - 1];
      TransitionsOf(entries[..|entries| - 1]) + if last.Transition? then [last.transition] else []
  }

  function SignalsOf<X>(entries: seq<Entry<X>>): seq<SignalRecord> {
    if entries == [] then []
    else
      var last := entries[|entries| - 1];
      SignalsOf(entries[..|entries| - 1]) + if last.Signal? then [last.signal] else []
  }

  function ErrorsOf<X>(entries: seq<Entry<X>>): seq<ArtifactErrorRecord> {
    if entries == [] then []
    else
      var last := entries[|entries| - 1];
      ErrorsOf(entries[..|entries| - 1]) + if last.ArtifactError? then [last.error] else []
  }

  /** The last entry of a kind. */
  function Latest<X>(entries: seq<Entry<X>>, kind: Kind): (r: Option<Entry<X>>)
    ensures r.Some? <==> Count(entries, kind) > 0
    ensures r.Some? ==> KindOf(r.value) == kind && r.value in entries
  {
    if entries == [] then None
    else if KindOf(entries[|entries| - 1]) == kind then Some(entries[|entries| - 1])
    else Latest(entries[..|entries| - 1], kind)
  }

  /** The report a well-shaped sequence describes. */
  function ReportOf<X>(entries: seq<Entry<X>>): Report<X>
    requires WellShaped(entries)
  {
    var header := Latest(entries, HeaderKind).value;
    var calibration := Latest(entries, CalibrationKind);
    Report(header.header, header.configuration, SamplesOf(entries), TransitionsOf(entries), SignalsOf(entries),
           Latest(entries, CheckpointKind).value.checkpoint, Latest(entries, EscapeKind).value.escape,
           ErrorsOf(entries), Latest(entries, OutcomeKind).value.outcome,
           if calibration.Some? then Some(calibration.value.calibration) else None)
  }

  /** Replay accepts exactly the well-shaped sequences whose report passes validation. */
  function Replay<X>(rules: Rules<X>, entries: seq<Entry<X>>): Option<Report<X>> {
    if WellShaped(entries) && ValidReport(rules, ReportOf(entries)) then Some(ReportOf(entries)) else None
  }

  // ---- The replay loop ----

  /** The replay loop's variables. */
  datatype Found<+X> = Found(
    header: Option<Entry<X>>, samples: seq<SampleWindow<X>>, reset: bool,
    transitions: seq<TransitionRecord>, signals: seq<SignalRecord>,
    checkpoint: Option<CheckpointRecord>, escape: Option<EscapeEvidence>,
    errors: seq<ArtifactErrorRecord>, outcome: Option<TerminalOutcome>, calibration: Option<X>)

  /** What the loop has collected, and whether the entries so far can still be a report. */
  ghost predicate Collected<X>(seen: seq<Entry<X>>, f: Found<X>, done: bool) {
    && f.header == Latest(seen, HeaderKind) && Count(seen, HeaderKind) <= 1
    && (f.header.Some? ==> seen[0].Header?)
    && f.samples == SamplesOf(seen) && Count(seen, ResetKind) == (if f.reset then 1 else 0)
    && f.transitions == TransitionsOf(seen) && f.signals == SignalsOf(seen) && f.errors == ErrorsOf(seen)
    && Count(seen, CheckpointKind) <= 1 && Count(seen, EscapeKind) <= 1 && Count(seen, CalibrationKind) <= 1
    && Count(seen, OutcomeKind) <= 1
    && (f.checkpoint.Some? <==> Count(seen, CheckpointKind) == 1)
    && (f.checkpoint.Some? ==> Latest(seen, CheckpointKind) == Some(Checkpoint(f.checkpoint.value)))
    && (f.escape.Some? <==> Count(seen, EscapeKind) == 1)
    && (f.escape.Some? ==> Latest(seen, EscapeKind) == Some(Escape(f.escape.value)))
    && (f.calibration.Some? <==> Count(seen, CalibrationKind) == 1)
    && (f.calibration.Some? ==> Latest(seen, CalibrationKind) == Some(Calibration(f.calibration.value)))
    && (f.outcome.Some? <==> Count(seen, OutcomeKind) == 1)
    && (f.outcome.Some? ==> done && Latest(seen, OutcomeKind) == Some(Outcome(f.outcome.value))
                            && seen[|seen| - 1].Outcome?)
  }

  function Take<X>(f: Found<X>, e: Entry<X>): Found<X> {
    match e
    case Header(_, _) => f.(header := Some(e))
    case Sample(value) => f.(samples := f.samples + [value])
    case SampleHistoryReset => f.(samples := [], reset := true)
    case Transition(value) => f.(transitions := f.transitions + [value])
    case Signal(value) => f.(signals := f.signals + [value])
    case Checkpoint(value) => f.(checkpoint := Some(value))
    case Escape(value) => f.(escape := Some(value))
    case ArtifactError(value) => f.(errors := f.errors + [value])
    case Calibration(value) => f.(calibration := Some(value))
    case Outcome(value) => f.(outcome := Some(value))
  }

  /** Entry `k` of `n` repeats a part that may come once, or is out of its place. */
  predicate Surplus<X>(f: Found<X>, e: Entry<X>, k: nat, n: nat) {
    match e
    case Header(_, _) => f.header.Some? || k != 0
    case SampleHistoryReset => f.reset
    case Checkpoint(_) => f.checkpoint.Some?
    case Escape(_) => f.escape.Some?
    case Calibration(_) => f.calibration.Some?
    case Outcome(_) => f.outcome.Some? || k + 1 != n
    case _ => false
  }

  /** An entry that may come any number of times. */
  lemma TakeListed<X>(seen: seq<Entry<X>>, f: Found<X>, e: Entry<X>, done: bool)
    requires Collected(seen, f, false)
    requires e.Sample? || e.Transition? || e.Signal? || e.ArtifactError?
    ensures Collected(seen + [e], Take(f, e), done)
  {
    hide Count, Latest, SamplesOf, TransitionsOf, SignalsOf, ErrorsOf;
    Appended(seen, e);
  }

  lemma TakeKeeps<X>(seen: seq<Entry<X>>, f: Found<X>, e: Entry<X>, n: nat)
    requires Collected(seen, f, false) && !Surplus(f, e, |seen|, n)
    ensures Collected(seen + [e], Take(f, e), |seen| + 1 == n)
  {
    hide Count, Latest, SamplesOf, TransitionsOf, SignalsOf, ErrorsOf;
    if e.Sample? || e.Transition? || e.Signal? || e.ArtifactError? {
      TakeListed(seen, f, e, |seen| + 1 == n);
    } else {
      Appended(seen, e);
    }
  }

  /** Counts only grow, so a surplus in a prefix is a surplus in the whole. */
  lemma {:induction false} CountGrows<X>(entries: seq<Entry<X>>, k: nat, kind: Kind)
    requires k <= |entries|
    ensures Count(entries[..k], kind) <= Count(entries, kind)
  {
    if k < |entries| {
      var shorter := entries[..|entries| - 1];
      assert shorter[..k] == entries[..k];
      CountGrows(shorter, k, kind);
    } else {
      assert entries[..k] == entries;
    }
  }

  predicate MisplacedAt<X>(entries: seq<Entry<X>>, k: nat)
    requires k < |entries|
  {
    || (KindOf(entries[k]) != SampleKind && KindOf(entries[k]) != TransitionKind
        && KindOf(entries[k]) != SignalKind && KindOf(entries[k]) != ErrorKind
        && Count(entries[..k], KindOf(entries[k])) > 0)
    || (entries[k].Header? && k > 0)
    || (entries[k].Outcome? && k + 1 < |entries|)
  }

  /** A second header, reset, checkpoint, escape, calibration or outcome, a header later than first or an
      outcome earlier than last makes the whole sequence unacceptable. */
  lemma Misplaced<X>(entries: seq<Entry<X>>, k: nat)
    requires k < |entries| && MisplacedAt(entries, k)
    ensures !WellShaped(entries)
  {
    var kind := KindOf(entries[k]);
    assert entries[..k + 1][..k] == entries[..k];
    CountGrows(entries, k + 1, kind);
    if entries[k].Header? && k > 0 && entries[0].Header? {
      HeaderCounted(entries, k);
    }
    if entries[k].Outcome? && k + 1 < |entries| {
      CountGrows(entries[..|entries| - 1], k + 1, kind);
      assert entries[..|entries| - 1][..k + 1] == entries[..k + 1];
    }
  }

  lemma HeaderCounted<X>(entries: seq<Entry<X>>, k: nat)
    requires 0 < k <= |entries| && entries[0].Header?
    ensures Count(entries[..k], HeaderKind) > 0
  {
    assert entries[..1][..0] == [] && entries[..1][0] == entries[0];
    CountGrows(entries[..k], 1, HeaderKind);
    assert entries[..k][..1] == entries[..1];
  }

  /** One entry more. */
  lemma Appended<X>(seen: seq<Entry<X>>, e: Entry<X>)
    ensures forall k: Kind :: Count(seen + [e], k) == Count(seen, k) + (if k == KindOf(e) then 1 else 0)
    ensures forall k: Kind :: Latest(seen + [e], k) == if k == KindOf(e) then Some(e) else Latest(seen, k)
    ensures SamplesOf(seen + [e])
         == if e.Sample? then SamplesOf(seen) + [e.sample] else if e.SampleHistoryReset? then [] else SamplesOf(seen)
    ensures TransitionsOf(seen + [e]) == TransitionsOf(seen) + (if e.Transition? then [e.transition] else [])
    ensures SignalsOf(seen + [e]) == SignalsOf(seen) + (if e.Signal? then [e.signal] else [])
    ensures ErrorsOf(seen + [e]) == ErrorsOf(seen) + (if e.ArtifactError? then [e.error] else [])
  {
    assert (seen + [e])[..|seen|] == seen;
  }

  method ToReport<X>(rules: Rules<X>, entries: seq<Entry<X>>) returns (r: Option<Report<X>>)
    ensures r == Replay(rules, entries)
  {
    hide WellShaped, ValidReport, Count, Latest, SamplesOf, TransitionsOf, SignalsOf, ErrorsOf, Replay, ReportOf,
         Collected;
    NothingCollected<X>();
    var header: Option<Entry<X>>, samples, reset := None, [], false;
    var transitions, signals, errors := [], [], [];
    var checkpoint, escape, outcome := None, None, None;
    var calibration: Option<X> := None;
    for index := 0 to |entries|
      invariant Collected(entries[..index],
                          Found(header, samples, reset, transitions, signals, checkpoint, escape, errors, outcome,
                                calibration),
                          index > 0 && index == |entries|)
    {
      var entry := entries[index];
      ghost var found := Found(header, samples, reset, transitions, signals, checkpoint, escape, errors, outcome,
                               calibration);
      assert entries[..index + 1] == entries[..index] + [entry];
      match entry {
        case Header(_, _) =>
          if header.Some? || index != 0 {
            Refused(rules, entries, index, found);
            return None;
          }
          header := Some(entry);
        case Sample(value) =>
          samples := samples + [value];
        case SampleHistoryReset =>
          if reset {
            Refused(rules, entries, index, found);
            return None;
          }
          samples, reset := [], true;
        case Transition(value) =>
          transitions := transitions + [value];
        case Signal(value) =>
          signals := signals + [value];
        case Checkpoint(value) =>
          if checkpoint.Some? {
            Refused(rules, entries, index, found);
            return None;
          }
          checkpoint := Some(value);
        case Escape(value) =>
          if escape.Some? {
            Refused(rules, entries, index, found);
            return None;
          }
          escape := Some(value);
        case ArtifactError(value) =>
          errors := errors + [value];
        case Calibration(value) =>
          if calibration.Some? {
            Refused(rules, entries, index, found);
            return None;
          }
          calibration := Some(value);
        case Outcome(value) =>
          if outcome.Some? || index + 1 != |entries| {
            Refused(rules, entries, index, found);
            return None;
          }
          outcome := Some(value);
      }
      TakeKeeps(entries[..index], found, entry, |entries|);
    }
    assert entries[..|entries|] == entries;
    CollectedAll(entries, Found(header, samples, reset, transitions, signals, checkpoint, escape, errors, outcome,
                                calibration));
    Replayed(rules, entries);
    if header.None? || checkpoint.None? || escape.None? || outcome.None? {
      return None;
    }
    var report := Report(header.value.header, header.value.configuration, samples, transitions, signals,
                         checkpoint.value, escape.value, errors, outcome.value, calibration);
    return if ValidReport(rules, report) then Some(report) else None;
  }

  lemma Refused<X>(rules: Rules<X>, entries: seq<Entry<X>>, k: nat, f: Found<X>)
    requires k < |entries| && Collected(entries[..k], f, false) && Surplus(f, entries[k], k, |entries|)
    ensures Replay(rules, entries) == None
  {
    Misplaced(entries, k);
  }

  lemma Replayed<X>(rules: Rules<X>, entries: seq<Entry<X>>)
    ensures !WellShaped(entries) ==> Replay(rules, entries) == None
    ensures WellShaped(entries) ==>
              Replay(rules, entries) == if ValidReport(rules, ReportOf(entries)) then Some(ReportOf(entries)) else None
  {
  }

  lemma NothingCollected<X>()
    ensures Count<X>([], HeaderKind) == Count<X>([], ResetKind) == Count<X>([], CheckpointKind) == 0
    ensures Count<X>([], EscapeKind) == Count<X>([], CalibrationKind) == Count<X>([], OutcomeKind) == 0
    ensures forall k: Kind :: Latest<X>([], k) == None
    ensures SamplesOf<X>([]) == [] && TransitionsOf<X>([]) == [] && SignalsOf<X>([]) == [] && ErrorsOf<X>([]) == []
    ensures Collected<X>([], Found(None, [], false, [], [], None, None, [], None, None), false)
  {
  }

  lemma CollectedAll<X>(entries: seq<Entry<X>>, f: Found<X>)
    requires Collected(entries, f, |entries| > 0)
    ensures WellShaped(entries) <==> f.header.Some? && f.checkpoint.Some? && f.escape.Some? && f.outcome.Some?
    ensures f.header.Some? ==> f.header.value.Header?
    ensures WellShaped(entries) ==>
              ReportOf(entries) == Report(f.header.value.header, f.header.value.configuration, f.samples,
                                          f.transitions, f.signals, f.checkpoint.value, f.escape.value, f.errors,
                                          f.outcome.value, f.calibration)
  {
    hide SamplesOf, TransitionsOf, SignalsOf, ErrorsOf;
  }

  // ---- Writing a report and reading it back ----

  function SampleEntries<X>(s: seq<SampleWindow<X>>): (r: seq<Entry<X>>)
    ensures forall i :: 0 <= i < |r| ==> r[i].Sample?
  {
    if s == [] then [] else SampleEntries(s[..|s| - 1]) + [Sample(s[|s| - 1])]
  }

  function TransitionEntries<X>(s: seq<TransitionRecord>): (r: seq<Entry<X>>)
    ensures forall i :: 0 <= i < |r| ==> r[i].Transition?
  {
    if s == [] then [] else TransitionEntries(s[..|s| - 1]) + [Transition(s[|s| - 1])]
  }

  function SignalEntries<X>(s: seq<SignalRecord>): (r: seq<Entry<X>>)
    ensures forall i :: 0 <= i < |r| ==> r[i].Signal?
  {
    if s == [] then [] else SignalEntries(s[..|s| - 1]) + [Signal(s[|s| - 1])]
  }

  function ErrorEntries<X>(s: seq<ArtifactErrorRecord>): (r: seq<Entry<X>>)
    ensures forall i :: 0 <= i < |r| ==> r[i].ArtifactError?
  {
    if s == [] then [] else ErrorEntries(s[..|s| - 1]) + [ArtifactError(s[|s| - 1])]
  }

  /** What has been read of a report whose components are still being written. */
  datatype Progress<+X> = Progress(
    samples: seq<SampleWindow<X>>, transitions: seq<TransitionRecord>, signals: seq<SignalRecord>,
    errors: seq<ArtifactErrorRecord>,
    checkpoint: Option<Entry<X>>, escape: Option<Entry<X>>, calibration: Option<Entry<X>>)

  function One(e: Option): nat {
    if e.Some? then 1 else 0
  }

  ghost predicate Built<X>(a: seq<Entry<X>>, r: Report<X>, p: Progress<X>) {
    && a != [] && a[0] == Header(r.header, r.configuration)
    && Count(a, HeaderKind) == 1 && Latest(a, HeaderKind) == Some(a[0])
    && Count(a, ResetKind) == 0 && Count(a, OutcomeKind) == 0
    && SamplesOf(a) == p.samples && TransitionsOf(a) == p.transitions && SignalsOf(a) == p.signals
    && ErrorsOf(a) == p.errors
    && Count(a, CheckpointKind) == One(p.checkpoint) && Latest(a, CheckpointKind) == p.checkpoint
    && Count(a, EscapeKind) == One(p.escape) && Latest(a, EscapeKind) == p.escape
    && Count(a, CalibrationKind) == One(p.calibration) && Latest(a, CalibrationKind) == p.calibration
  }

  function With<X>(p: Progress<X>, e: Entry<X>): Progress<X> {
    match e
    case Sample(v) => p.(samples := p.samples + [v])
    case Transition(v) => p.(transitions := p.transitions + [v])
    case Signal(v) => p.(signals := p.signals + [v])
    case ArtifactError(v) => p.(errors := p.errors + [v])
    case Checkpoint(_) => p.(checkpoint := Some(e))
    case Escape(_) => p.(escape := Some(e))
    case Calibration(_) => p.(calibration := Some(e))
    case _ => p
  }

  lemma AddOne<X>(a: seq<Entry<X>>, r: Report<X>, p: Progress<X>, e: Entry<X>)
    requires Built(a, r, p) && !e.Header? && !e.SampleHistoryReset? && !e.Outcome?
    requires (e.Checkpoint? ==> p.checkpoint.None?) && (e.Escape? ==> p.escape.None?)
    requires e.Calibration? ==> p.calibration.None?
    ensures Built(a + [e], r, With(p, e))
  {
    hide Count, Latest, SamplesOf, TransitionsOf, SignalsOf, ErrorsOf;
    Appended(a, e);
  }

  lemma {:induction false} AddSamples<X>(a: seq<Entry<X>>, r: Report<X>, p: Progress<X>, s: seq<SampleWindow<X>>)
    requires Built(a, r, p)
    ensures Built(a + SampleEntries<X>(s), r, p.(samples := p.samples + s))
  {
    hide Built;
    if s == [] {
      assert a + SampleEntries<X>(s) == a && p.samples + s == p.samples;
    } else {
      var last := |s| - 1;
      AddSamples(a, r, p, s[..last]);
      AddOne(a + SampleEntries<X>(s[..last]), r, p.(samples := p.samples + s[..last]), Sample(s[last]));
      assert a + SampleEntries<X>(s) == a + SampleEntries<X>(s[..last]) + [Sample(s[last])];
      assert p.samples + s == p.samples + s[..last] + [s[last]];
    }
  }

  lemma {:induction false} AddTransitions<X>(a: seq<Entry<X>>, r: Report<X>, p: Progress<X>, s: seq<TransitionRecord>)
    requires Built(a, r, p)
    ensures Built(a + TransitionEntries<X>(s), r, p.(transitions := p.transitions + s))
  {
    hide Built;
    if s == [] {
      assert a + TransitionEntries<X>(s) == a && p.transitions + s == p.transitions;
    } else {
      var last := |s| - 1;
      AddTransitions(a, r, p, s[..last]);
      AddOne(a + TransitionEntries<X>(s[..last]), r, p.(transitions := p.transitions + s[..last]), Transition(s[last]));
      assert a + TransitionEntries<X>(s) == a + TransitionEntries<X>(s[..last]) + [Transition(s[last])];
      assert p.transitions + s == p.transitions + s[..last] + [s[last]];
    }
  }

  lemma {:induction false} AddSignals<X>(a: seq<Entry<X>>, r: Report<X>, p: Progress<X>, s: seq<SignalRecord>)
    requires Built(a, r, p)
    ensures Built(a + SignalEntries<X>(s), r, p.(signals := p.signals + s))
  {
    hide Built;
    if s == [] {
      assert a + SignalEntries<X>(s) == a && p.signals + s == p.signals;
    } else {
      var last := |s| - 1;
      AddSignals(a, r, p, s[..last]);
      AddOne(a + SignalEntries<X>(s[..last]), r, p.(signals := p.signals + s[..last]), Signal(s[last]));
      assert a + SignalEntries<X>(s) == a + SignalEntries<X>(s[..last]) + [Signal(s[last])];
      assert p.signals + s == p.signals + s[..last] + [s[last]];
    }
  }

  lemma {:induction false} AddErrors<X>(a: seq<Entry<X>>, r: Report<X>, p: Progress<X>, s: seq<ArtifactErrorRecord>)
    requires Built(a, r, p)
    ensures Built(a + ErrorEntries<X>(s), r, p.(errors := p.errors + s))
  {
    hide Built;
    if s == [] {
      assert a + ErrorEntries<X>(s) == a && p.errors + s == p.errors;
    } else {
      var last := |s| - 1;
      AddErrors(a, r, p, s[..last]);
      AddOne(a + ErrorEntries<X>(s[..last]), r, p.(errors := p.errors + s[..last]), ArtifactError(s[last]));
      assert a + ErrorEntries<X>(s) == a + ErrorEntries<X>(s[..last]) + [ArtifactError(s[last])];
      assert p.errors + s == p.errors + s[..last] + [s[last]];
    }
  }

  lemma HeaderIsBuilt<X>(r: Report<X>)
    ensures Built([Header(r.header, r.configuration)], r, Progress([], [], [], [], None, None, None))
  {
    hide Count, Latest, SamplesOf, TransitionsOf, SignalsOf, ErrorsOf;
    NothingCollected<X>();
    var header: Entry<X> := Header(r.header, r.configuration);
    Appended([], header);
    assert [] + [header] == [header];
  }

  /** Everything but the outcome, in the order it is written. */
  function BeforeOutcome<X>(r: Report<X>): seq<Entry<X>> {
    var listed := [Header(r.header, r.configuration)] + SampleEntries(r.samples) + TransitionEntries(r.transitions)
                  + SignalEntries(r.signals);
    var stated := listed + [Checkpoint(r.checkpoint)] + [Escape(r.escape)] + ErrorEntries(r.artifactErrors);
    if r.calibration.Some? then stated + [Calibration(r.calibration.value)] else stated
  }

  lemma WrittenIsBuilt<X>(r: Report<X>)
    ensures Built(BeforeOutcome(r), r,
                  Progress(r.samples, r.transitions, r.signals, r.artifactErrors, Some(Checkpoint(r.checkpoint)),
                           Some(Escape(r.escape)),
                           if r.calibration.Some? then Some(Calibration(r.calibration.value)) else None))
  {
    hide Built, SampleEntries, TransitionEntries, SignalEntries, ErrorEntries;
    assert [] + r.samples == r.samples && [] + r.transitions == r.transitions;
    assert [] + r.signals == r.signals && [] + r.artifactErrors == r.artifactErrors;
    var p := Progress([], [], [], [], None, None, None);
    var a: seq<Entry<X>> := [Header(r.header, r.configuration)];
    HeaderIsBuilt(r);
    AddSamples(a, r, p, r.samples);
    a, p := a + SampleEntries(r.samples), p.(samples := [] + r.samples);
    AddTransitions(a, r, p, r.transitions);
    a, p := a + TransitionEntries(r.transitions), p.(transitions := [] + r.transitions);
    AddSignals(a, r, p, r.signals);
    a, p := a + SignalEntries(r.signals), p.(signals := [] + r.signals);
    AddOne(a, r, p, Checkpoint(r.checkpoint));
    a, p := a + [Checkpoint(r.checkpoint)], With(p, Checkpoint(r.checkpoint));
    AddOne(a, r, p, Escape(r.escape));
    a, p := a + [Escape(r.escape)], With(p, Escape(r.escape));
    AddErrors(a, r, p, r.artifactErrors);
    a, p := a + ErrorEntries(r.artifactErrors), p.(errors := [] + r.artifactErrors);
    if r.calibration.Some? {
      AddOne(a, r, p, Calibration(r.calibration.value));
    }
  }

  function ReportEntries<X>(r: Report<X>): seq<Entry<X>> {
    BeforeOutcome(r) + [Outcome(r.outcome)]
  }

  /** Writing any report as components and replaying them gives the same report back, and replay
      accepts what was written exactly when the report is valid. */
  lemma ComponentsRoundTrip<X>(rules: Rules<X>, r: Report<X>)
    ensures WellShaped(ReportEntries(r)) && ReportOf(ReportEntries(r)) == r
    ensures Replay(rules, ReportEntries(r)) == if ValidReport(rules, r) then Some(r) else None
  {
    hide Count, Latest, SamplesOf, TransitionsOf, SignalsOf, ErrorsOf, ValidReport;
    WrittenIsBuilt(r);
    Appended(BeforeOutcome(r), Outcome(r.outcome));
  }

  lemma {:induction false} OutcomeCounted<X>(entries: seq<Entry<X>>)
    requires entries != [] && entries[|entries| - 1].Outcome?
    ensures Count(entries, OutcomeKind) > 0
  {
  }

  /** No proper prefix of an acceptable sequence is acceptable: a journal cut short at a record boundary
      replays to nothing. */
  lemma CutSequenceIsRefused<X>(rules: Rules<X>, entries: seq<Entry<X>>, k: nat)
    requires WellShaped(entries) && k < |entries|
    ensures Replay(rules, entries[..k]) == None
  {
    var shorter, cut := entries[..|entries| - 1], entries[..k];
    assert shorter[..k] == cut;
    CountGrows(shorter, k, OutcomeKind);
    if WellShaped(cut) {
      OutcomeCounted(cut);
    }
  }
}
