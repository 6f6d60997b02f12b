/** The sampler of sampling.rs: snapshots with their collection window become retained samples, and a
    sample becomes policy input only when its total and its clocks are beyond doubt. */
module Sampling {
  import opened Common
  import opened Identity
  import opened Tracking
  import Policy
  import PolicyRuns
  import PolicyHistory

  const MIN_SAMPLE_INTERVAL: nat := 10_000_000
  const MAX_SAMPLE_INTERVAL: nat := 10_000_000_000
  const MAX_SAMPLE_HISTORY_CAPACITY: nat := 4096

  datatype SamplingConfig = SamplingConfig(
    interval: Duration, maxSampleAge: Duration, maxSampleWindow: Duration, historyCapacity: nat)

  datatype SamplingConfigError = IntervalOutOfRange | InvalidQualityWindow | HistoryCapacityOutOfRange

  predicate ValidSampling(c: SamplingConfig) {
    && MIN_SAMPLE_INTERVAL <= c.interval <= MAX_SAMPLE_INTERVAL
    && 0 < c.maxSampleWindow <= c.maxSampleAge
    && 1 <= c.historyCapacity <= MAX_SAMPLE_HISTORY_CAPACITY
  }

  function NewSamplingConfig(interval: Duration, age: Duration, window: Duration, capacity: nat)
    : (r: Result<SamplingConfig, SamplingConfigError>)
    ensures r.Ok? <==> ValidSampling(SamplingConfig(interval, age, window, capacity))
    ensures r.Ok? ==> r.value == SamplingConfig(interval, age, window, capacity)
    ensures r.Err? ==>
              && (r.error.IntervalOutOfRange? <==> !(MIN_SAMPLE_INTERVAL <= interval <= MAX_SAMPLE_INTERVAL))
              && (r.error.HistoryCapacityOutOfRange? ==> 0 < window <= age && !(1 <= capacity <= MAX_SAMPLE_HISTORY_CAPACITY))
              && (r.error.InvalidQualityWindow? ==> !(0 < window <= age))
  {
    if !(MIN_SAMPLE_INTERVAL <= interval <= MAX_SAMPLE_INTERVAL) then Err(IntervalOutOfRange)
    else if window == 0 || age == 0 || window > age then Err(InvalidQualityWindow)
    else if !(1 <= capacity <= MAX_SAMPLE_HISTORY_CAPACITY) then Err(HistoryCapacityOutOfRange)
    else Ok(SamplingConfig(interval, age, window, capacity))
  }

  datatype SampleOutcome =
    | CompleteTotal(totalBytes: u64)
    | Partial(knownBytes: u64, missing: set<ProcessIdentity>, failures: seq<ObservationFailure>)
    | TotalOverflow
    | SnapshotFailed(kind: FailureKind)
    | ClockDiscontinuity

  datatype FootprintSample = FootprintSample(
    sequence: u64, startedAt: Duration, finishedAt: Duration, outcome: SampleOutcome, escapeObserved: bool)

  datatype Sampler = Sampler(
    config: SamplingConfig, tracker: Tracker, history: seq<FootprintSample>, nextSequence: u64,
    lastStartedAt: Option<Duration>)

  type SnapshotResult = Result<Snapshot, FailureKind>

  function OutcomeOf(frame: Frame): SampleOutcome {
    match frame.aggregate
    case Complete(total) =>
      if frame.failures == [] then CompleteTotal(total) else Partial(total, {}, frame.failures)
    case Incomplete(known, missing) => Partial(known, missing, frame.failures)
    case Overflow => TotalOverflow
  }

  predicate Discontinuous(s: Sampler, startedAt: Duration, finishedAt: Duration) {
    finishedAt < startedAt || (s.lastStartedAt.Some? && startedAt < s.lastStartedAt.value)
  }

  datatype Recorded = Recorded(sampler: Sampler, sample: FootprintSample)

  /** One snapshot recorded. */
  ghost function RecordOf(s: Sampler, startedAt: Duration, finishedAt: Duration, snapshot: SnapshotResult): Recorded
    requires s.config.historyCapacity > 0
  {
    var broken := Discontinuous(s, startedAt, finishedAt);
    var tracker := if broken || snapshot.Err? then s.tracker else UpdateOf(s.tracker, snapshot.value).tracker;
    var outcome := if broken then ClockDiscontinuity
                   else if snapshot.Err? then SnapshotFailed(snapshot.error)
                   else OutcomeOf(UpdateOf(s.tracker, snapshot.value).frame);
    var escape := !broken && snapshot.Ok? && UpdateOf(s.tracker, snapshot.value).frame.escapeObserved;
    var sample := FootprintSample(s.nextSequence, startedAt, finishedAt, outcome, escape);
    Recorded(
      s.(tracker := tracker, history := Push(s.history, sample, s.config.historyCapacity),
         nextSequence := SatAdd64(s.nextSequence, 1),
         lastStartedAt := if broken then s.lastStartedAt else Some(startedAt)),
      sample)
  }

  /** The policy input one retained sample projects to. */
  function PolicyEvent(s: Sampler, sample: FootprintSample, processedAt: Duration): Policy.SampleEvent {
    var window := SatSub(sample.finishedAt, sample.startedAt);
    var age := SatSub(processedAt, sample.finishedAt);
    var clocksValid := sample.finishedAt >= sample.startedAt && processedAt >= sample.finishedAt
                       && (s.lastStartedAt.Some? ==> sample.startedAt <= s.lastStartedAt.value);
    var usable := clocksValid && window > 0 && window <= s.config.maxSampleWindow && age <= s.config.maxSampleAge;
    Policy.SampleEvent(sample.finishedAt, processedAt, window,
                       if sample.outcome.CompleteTotal? && usable then Some(sample.outcome.totalBytes) else None)
  }

  class FootprintSampler {
    const config: SamplingConfig
    const tracker: IdentityTracker
    var history: seq<FootprintSample>
    var nextSequence: u64
    var lastStartedAt: Option<Duration>

    function View(): Sampler
      reads this, tracker
    {
      Sampler(config, tracker.View(), history, nextSequence, lastStartedAt)
    }

    constructor (config: SamplingConfig, tracker: IdentityTracker)
      ensures this.tracker == tracker && View() == Sampler(config, tracker.View(), [], 0, None)
    {
      this.config, this.tracker := config, tracker;
      history, nextSequence, lastStartedAt := [], 0, None;
    }

    method RecordSnapshot(startedAt: Duration, finishedAt: Duration, snapshot: SnapshotResult)
      returns (sample: FootprintSample)
      requires config.historyCapacity > 0
      modifies this, tracker
      ensures Recorded(View(), sample) == RecordOf(old(View()), startedAt, finishedAt, snapshot)
    {
      var outcome, escape := ClockDiscontinuity, false;
      if !(finishedAt < startedAt || (lastStartedAt.Some? && startedAt < lastStartedAt.value)) {
        lastStartedAt := Some(startedAt);
        if snapshot.Ok? {
          var frame := tracker.Update(snapshot.value);
          outcome, escape := OutcomeOf(frame), frame.escapeObserved;
        } else {
          outcome := SnapshotFailed(snapshot.error);
        }
      }
      sample := FootprintSample(nextSequence, startedAt, finishedAt, outcome, escape);
      nextSequence := SatAdd64(nextSequence, 1);
      if |history| == config.historyCapacity {
        history := history[1..];
      }
      history := history + [sample];
    }

    /** Time left until the next window start; an error exactly when the clock ran backwards. */
    method DelayUntilNext(now: Duration) returns (r: Option<Duration>)
      ensures r.None? <==> lastStartedAt.Some? && now < lastStartedAt.value
      ensures lastStartedAt.None? ==> r == Some(0)
      ensures lastStartedAt.Some? && r.Some? ==>
                r.value == if now - lastStartedAt.value >= config.interval then 0
                           else lastStartedAt.value + config.interval - now
    {
      if lastStartedAt.None? {
        return Some(0);
      }
      if now < lastStartedAt.value {
        return None;
      }
      return Some(SatSub(config.interval, now - lastStartedAt.value));
    }
  }

  // ---- A partial total never triggers a limit ----

  /** The footprint actions: a checkpoint request, a TERM without one, or a KILL. */
  predicate OpensFootprintIntervention(actions: seq<Policy.Action>) {
    PolicyHistory.StopsGracefully(actions) || Policy.SendKill in actions
  }

  lemma OpeningNeedsTotal(m: Policy.Machine, e: Policy.SampleEvent)
    requires PolicyRuns.Inv(m)
    requires OpensFootprintIntervention(Policy.Step(m, Policy.Sample(e)).actions)
    ensures e.aggregateBytes.Some? && e.aggregateBytes.value >= m.config.limitBytes
    ensures Policy.Usable(m.config, e)
  {
  }

  /** The snapshot was taken in good order and its total is exact. */
  ghost predicate ExactTotal(s: Sampler, startedAt: Duration, finishedAt: Duration, snapshot: SnapshotResult, bytes: nat) {
    && startedAt <= finishedAt && (s.lastStartedAt.Some? ==> s.lastStartedAt.value <= startedAt) && snapshot.Ok?
    && var os := ByPid(snapshot.value.observations);
       && bytes == LiveTotal(s.tracker, snapshot.value.observations) <= U64_MAX
       && (forall i :: 0 <= i < |os| && LiveMember(s.tracker, os[i]) ==> os[i].footprint.Some?)
       && (forall f :: f in snapshot.value.failures ==> !RelevantFailure(s.tracker.root, f))
       && (RootSeen(s.tracker, os) || RootExitSeen(s.tracker, os))
  }

  /** Whenever a sample opens a footprint intervention, the compared bytes are the exact sum over all
      live members of the snapshot just taken, without overflow, with every member measured, nothing
      failed to be observed, the root accounted for, and the limit reached. */
  lemma PartialTotalNeverTriggers(s: Sampler, startedAt: Duration, finishedAt: Duration, snapshot: SnapshotResult,
                                  processedAt: Duration, m: Policy.Machine)
    requires s.config.historyCapacity > 0 && PolicyRuns.Inv(m)
    requires var r := RecordOf(s, startedAt, finishedAt, snapshot);
             OpensFootprintIntervention(
               Policy.Step(m, Policy.Sample(PolicyEvent(r.sampler, r.sample, processedAt))).actions)
    ensures var r := RecordOf(s, startedAt, finishedAt, snapshot);
            var e := PolicyEvent(r.sampler, r.sample, processedAt);
            && e.aggregateBytes.Some? && e.aggregateBytes.value >= m.config.limitBytes
            && ExactTotal(s, startedAt, finishedAt, snapshot, e.aggregateBytes.value)
  {
    hide Policy.Step;
    var r := RecordOf(s, startedAt, finishedAt, snapshot);
    OpeningNeedsTotal(m, PolicyEvent(r.sampler, r.sample, processedAt));
    CompleteIsExact(s.tracker, snapshot.value);
  }

  /** The other way round too: the policy is given a total exactly when the snapshot was taken in good order
      and within the quality bounds and its total is exact, and then it is given that total. */
  lemma MeasuredExactly(s: Sampler, startedAt: Duration, finishedAt: Duration, snapshot: SnapshotResult,
                        processedAt: Duration, bytes: u64)
    requires s.config.historyCapacity > 0
    ensures var r := RecordOf(s, startedAt, finishedAt, snapshot);
            var e := PolicyEvent(r.sampler, r.sample, processedAt);
            && e.capturedAt == finishedAt && e.processedAt == processedAt
            && e.window == (if startedAt <= finishedAt then finishedAt - startedAt else 0)
            && (e.aggregateBytes == Some(bytes) <==>
                  && ExactTotal(s, startedAt, finishedAt, snapshot, bytes)
                  && startedAt < finishedAt <= startedAt + s.config.maxSampleWindow
                  && finishedAt <= processedAt <= finishedAt + s.config.maxSampleAge)
            && (r.sample.outcome == CompleteTotal(bytes) <==> ExactTotal(s, startedAt, finishedAt, snapshot, bytes))
  {
    hide LiveTotal, ByPid, RelevantFailure, RootSeen, RootExitSeen, LiveMember;
    var r := RecordOf(s, startedAt, finishedAt, snapshot);
    if snapshot.Ok? {
      if UpdateOf(s.tracker, snapshot.value).frame.aggregate.Complete? {
        CompleteIsExact(s.tracker, snapshot.value);
      }
      if NothingMissing(s.tracker, snapshot.value) {
        NothingMissingIsComplete(s.tracker, snapshot.value);
      }
    }
    hide UpdateOf;
  }

  /** A partial sample keeps the frame's known bytes, its missing identities and its failures. */
  lemma PartialTells(s: Sampler, startedAt: Duration, finishedAt: Duration, snapshot: SnapshotResult)
    requires s.config.historyCapacity > 0
    ensures var outcome := RecordOf(s, startedAt, finishedAt, snapshot).sample.outcome;
            outcome.Partial? ==>
              && snapshot.Ok?
              && var frame := UpdateOf(s.tracker, snapshot.value).frame;
                 && outcome.failures == frame.failures
                 && match frame.aggregate
                    case Complete(bytes) => outcome.knownBytes == bytes && outcome.missing == {} && frame.failures != []
                    case Incomplete(bytes, missing) => outcome.knownBytes == bytes && outcome.missing == missing
                    case Overflow => false
  {
    hide UpdateOf, Push;
  }

  // ---- The retained history is the latest samples ----

  datatype Take = Take(startedAt: Duration, finishedAt: Duration, snapshot: SnapshotResult)

  ghost function SamplerAfter(s: Sampler, takes: seq<Take>, k: nat): Sampler
    requires k <= |takes| && s.config.historyCapacity > 0
    ensures SamplerAfter(s, takes, k).config == s.config
  {
    if k == 0 then s
    else RecordOf(SamplerAfter(s, takes, k - 1), takes[k - 1].startedAt, takes[k - 1].finishedAt,
                  takes[k - 1].snapshot).sampler
  }

  ghost function AllSamples(s: Sampler, takes: seq<Take>, k: nat): seq<FootprintSample>
    requires k <= |takes| && s.config.historyCapacity > 0
  {
    if k == 0 then []
    else AllSamples(s, takes, k - 1)
         + [RecordOf(SamplerAfter(s, takes, k - 1), takes[k - 1].startedAt, takes[k - 1].finishedAt,
                     takes[k - 1].snapshot).sample]
  }

  lemma RecordNumbers(s: Sampler, t: Take)
    requires s.config.historyCapacity > 0
    ensures var r := RecordOf(s, t.startedAt, t.finishedAt, t.snapshot);
            && r.sample.sequence == s.nextSequence && r.sampler.nextSequence == Min(s.nextSequence + 1, U64_MAX)
            && r.sampler.history == Push(s.history, r.sample, s.config.historyCapacity)
  {
    hide UpdateOf, OutcomeOf, Push;
  }

  /** For any number of samples the history holds the latest of them, in order, and sample `i` carries
      sequence number `i` for as long as that fits 64 bits. */
  lemma {:induction false} HistoryIsLatest(config: SamplingConfig, tracker: Tracker, takes: seq<Take>, k: nat)
    requires ValidSampling(config) && k <= |takes|
    ensures var s := Sampler(config, tracker, [], 0, None);
            var all := AllSamples(s, takes, k);
            && |all| == k && SamplerAfter(s, takes, k).history == Last(all, config.historyCapacity)
            && SamplerAfter(s, takes, k).nextSequence == Min(k, U64_MAX)
            && forall i :: 0 <= i < k ==> all[i].sequence == Min(i, U64_MAX)
  {
    hide RecordOf, Push;
    var s := Sampler(config, tracker, [], 0, None);
    if k > 0 {
      hide Last;
      HistoryIsLatest(config, tracker, takes, k - 1);
      RecordNumbers(SamplerAfter(s, takes, k - 1), takes[k - 1]);
      PushKeepsLatest(AllSamples(s, takes, k - 1), AllSamples(s, takes, k)[k - 1], config.historyCapacity);
    }
  }
}
