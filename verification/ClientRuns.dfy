/** What a Python client's configuration means for the run it starts: the policy, the sampler and the report
    in the client's own numbers, and the limits the loop then enforces. */
module ClientRuns {
  import opened Common
  import opened Policy
  import opened Actuations
  import opened PolicyRuns
  import opened Intervention
  import opened Configuration
  import opened SignalCauses
  import opened SignalRecords
  import opened Runtime
  import opened RuntimeRuns
  import opened RunTiming
  import PolicyTable
  import Sampling
  import Report

  const NANOS: nat := 1_000_000

  /** A tenth of the limit, and at least one byte. */
  function Band(c: RunConfig): int {
    if c.maxFootprintBytes < 10 then 1 else c.maxFootprintBytes / 10
  }

  /** How long a sample stays usable, and how long it may take, in milliseconds. */
  function AgeMs(c: RunConfig): int {
    if c.sampleIntervalMs <= 250 then 500 else 2 * c.sampleIntervalMs
  }

  function WindowMs(c: RunConfig): int {
    if c.sampleIntervalMs <= 250 then 250 else c.sampleIntervalMs
  }

  function CheckpointMs(c: RunConfig): int {
    if c.checkpointTimeoutMs.Some? then c.checkpointTimeoutMs.value else 1000
  }

  /** The policy a client's configuration stands for. */
  predicate PolicyTells(c: RunConfig, p: PolicyConfig) {
    && p.limitBytes == c.maxFootprintBytes && p.warningBytes == c.maxFootprintBytes - Band(c)
    && p.recoveryBytes == c.maxFootprintBytes - 2 * Band(c) && p.emergencyBytes == c.maxFootprintBytes + Band(c)
    && p.requiredBreachSamples == 2 && p.maxMissingSamples == 3
    && p.maxSampleAge == AgeMs(c) * NANOS && p.maxSampleWindow == WindowMs(c) * NANOS
    && p.checkpointTimeout == Some(CheckpointMs(c) * NANOS) && p.termGrace == 1000 * NANOS
    && (if c.wallTimeMs.None? then p.wallTime.None? else p.wallTime == Some(c.wallTimeMs.value * NANOS))
  }

  predicate SamplerTells(c: RunConfig, s: Sampling.SamplingConfig) {
    && s.interval == c.sampleIntervalMs * NANOS && s.historyCapacity == 4096
    && s.maxSampleAge == AgeMs(c) * NANOS && s.maxSampleWindow == WindowMs(c) * NANOS
  }

  predicate ReportTellsClient(c: RunConfig, r: Report.Configuration) {
    && r.mode.Enforce? && r.limitBytes == Some(c.maxFootprintBytes) && r.warningBytes == Some(c.maxFootprintBytes - Band(c))
    && r.recoveryBytes == Some(c.maxFootprintBytes - 2 * Band(c)) && r.emergencyBytes == Some(c.maxFootprintBytes + Band(c))
    && r.requiredBreachSamples == 2 && r.maxMissingSamples == 3 && r.wallTimeMs == c.wallTimeMs
    && r.sampleIntervalMs == c.sampleIntervalMs && r.maxSampleAgeMs == AgeMs(c) && r.maxSampleWindowMs == WindowMs(c)
    && r.checkpointTimeoutMs == Some(CheckpointMs(c)) && r.termGraceMs == 1000
    && r.onParentExit == Some(if c.onParentExit == Some("detach") then Report.OnParentExit.Detach else Report.OnParentExit.Terminate)
  }

  lemma MillisBack(n: nat)
    requires n <= U64_MAX
    ensures Ms(n * NANOS) == n
  {
  }

  /** A client's configuration that reaches the command line is what the policy machine and the sampler are
      built with, and what the report says they were. */
  lemma ClientConfigures(c: RunConfig, readyFd: Option<int>, watch: Report.ParentWatch)
    requires ClientAccepts(c) && Expressible(c, readyFd)
    ensures var parsed := ParseRun(Arguments(c, readyFd));
            && parsed.Some? && PolicyTells(c, RunPolicyConfig(parsed.value))
            && RunSamplingConfig(parsed.value).Ok? && SamplerTells(c, RunSamplingConfig(parsed.value).value)
            && ReportTellsClient(c, ReportedConfiguration(parsed.value, watch))
            && ReportedConfiguration(parsed.value, watch).parentWatch == Some(watch)
  {
    hide ParseRun, Arguments, ClientEnv, EnvMap, Ms;
    ClientIsReadBack(c, readyFd);
    MillisBack(c.sampleIntervalMs);
    MillisBack(AgeMs(c));
    MillisBack(WindowMs(c));
    MillisBack(CheckpointMs(c));
    MillisBack(1000);
    if c.wallTimeMs.Some? {
      MillisBack(c.wallTimeMs.value);
    }
  }

  // ---- The limits the loop enforces ----

  /** A sample the client's run counts. */
  predicate Counts(c: RunConfig, s: SampleEvent) {
    && s.aggregateBytes.Some? && s.capturedAt <= s.processedAt <= s.capturedAt + AgeMs(c) * NANOS
    && s.window <= WindowMs(c) * NANOS
  }

  /** The checkpoint request of a run that began with this machine. */
  function Request(m: Machine, c: RunConfig, at: Duration, overshoot: u64): Action
    requires PolicyTells(c, m.config)
  {
    RequestCheckpoint(m.nextRequestId, overshoot, Min(at + CheckpointMs(c) * NANOS, DURATION_MAX))
  }

  lemma WhileLive(m: Machine, es: seq<Event>, j: nat)
    requires Unopened(m) && Ordered(es) && j < |es| && Live(After(m, es, j))
    ensures var n := After(m, es, j);
            Inv(n) && n.config == m.config && n.nextRequestId == m.nextRequestId && !ClockRegressed(n, es[j].At())
  {
    hide Step, Inv, After;
    RunKeepsInv(m, es, j);
    NoRegression(m, es, j);
    RunRemembers(m, es, j);
  }

  /** As long as nothing has begun, ticks do nothing before the client's wall time, and the first one at or
      after it asks for the checkpoint. */
  lemma WallTimeIsEnforced(m: Machine, c: RunConfig, es: seq<Event>, j: nat)
    requires Unopened(m) && PolicyTells(c, m.config) && Ordered(es)
    requires j < |es| && es[j].Tick? && Live(After(m, es, j))
    ensures if c.wallTimeMs.Some? && es[j].At() >= c.wallTimeMs.value * NANOS
            then Out(m, es, j) == [Request(m, c, es[j].At(), 0)] && After(m, es, j + 1).state.CheckpointRequested?
            else Out(m, es, j) == [] && Live(After(m, es, j + 1))
  {
    hide Step, Inv;
    WhileLive(m, es, j);
    PolicyTable.TickRows(After(m, es, j), es[j].At());
  }

  /** As long as nothing has begun, a counted sample a tenth above the client's limit kills at once, and the
      second of two counted samples in a row at the limit asks for the checkpoint. */
  lemma FootprintIsEnforced(m: Machine, c: RunConfig, es: seq<Event>, j: nat)
    requires Unopened(m) && PolicyTells(c, m.config) && Ordered(es)
    requires j < |es| && es[j].Sample? && Counts(c, es[j].sample) && Live(After(m, es, j))
    ensures var bytes := es[j].sample.aggregateBytes.value;
            && (bytes >= c.maxFootprintBytes + Band(c) ==>
                  Out(m, es, j) == [RecordObservation, SendKill, RecordOvershoot(bytes - c.maxFootprintBytes)])
            && (c.maxFootprintBytes <= bytes < c.maxFootprintBytes + Band(c) && j > 0 && es[j - 1].Sample?
                && Counts(c, es[j - 1].sample) && es[j - 1].sample.aggregateBytes.value >= c.maxFootprintBytes ==>
                  Out(m, es, j) == [RecordObservation, Request(m, c, es[j].At(), bytes - c.maxFootprintBytes)])
  {
    hide Step, Inv;
    WhileLive(m, es, j);
    var n, s := After(m, es, j), es[j].sample;
    if s.aggregateBytes.value >= c.maxFootprintBytes + Band(c) {
      PolicyTable.EmergencyRow(n, s);
    } else if j > 0 && es[j - 1].Sample? && Counts(c, es[j - 1].sample)
              && es[j - 1].sample.aggregateBytes.value >= c.maxFootprintBytes {
      BreachCounts(m, c, es, j);
      PolicyTable.SampleRows(n, s);
    }
  }

  lemma BreachCounts(m: Machine, c: RunConfig, es: seq<Event>, j: nat)
    requires Unopened(m) && PolicyTells(c, m.config) && Ordered(es) && 0 < j <= |es| && Live(After(m, es, j))
    requires es[j - 1].Sample? && Counts(c, es[j - 1].sample) && es[j - 1].sample.aggregateBytes.value >= c.maxFootprintBytes
    ensures After(m, es, j).breachStreak >= 1
  {
    hide Step, Inv;
    var before := After(m, es, j - 1);
    RunKeepsInv(m, es, j - 1);
    NoRegression(m, es, j - 1);
    StepOpens(before, es[j - 1]);
    WhileLive(m, es, j - 1);
    if es[j - 1].sample.aggregateBytes.value >= c.maxFootprintBytes + Band(c) {
      PolicyTable.EmergencyRow(before, es[j - 1].sample);
    }
    PolicyTable.SampleRows(before, es[j - 1].sample);
  }

  lemma {:induction false} SelectionIsCalled(m: Machine, es: seq<Event>, j: nat, k: nat, x: Actuation)
    requires j < k <= |es| && x in ActuationsOf(Out(m, es, j))
    ensures x in Calls(m, es, k)
  {
    hide Out, ActuationsOf;
    if j < k - 1 {
      SelectionIsCalled(m, es, j, k - 1, x);
    }
  }

  /** The client's wall time stops the run of the loop itself: the tick at or after it makes an untouched run
      ask its worker for a checkpoint. */
  lemma WallTimeStopsTheRun<X>(start: Runtime<X>, inputs: seq<Input<X>>, k: nat, c: RunConfig) returns (a: Attempt)
    requires Fresh(start) && start.sampler.config.historyCapacity > 0
    requires Unopened(start.control.engine.machine) && PolicyTells(c, start.control.engine.machine.config)
    requires TimesOrdered(inputs) && (forall i :: 0 <= i < |inputs| ==> Permitted(inputs[i])) && 3 * |inputs| + 3 <= U64_MAX
    requires k < |inputs| && inputs[k].Happened? && inputs[k].event.Tick?
    requires c.wallTimeMs.Some? && inputs[k].event.At() >= c.wallTimeMs.value * NANOS
    requires Live(RunAfter(start, inputs, k).control.engine.machine)
    ensures a in RunDoes(start, inputs, k + 1).made
    ensures a.action == Actuation.Checkpoint(start.control.engine.machine.nextRequestId, 0,
                                             Min(inputs[k].event.At() + CheckpointMs(c) * NANOS, DURATION_MAX))
  {
    hide Out, After, Calls, Coherently, Fresh, Unopened, TimesOrdered, RunStep, Inv, ActuationsOf, PolicyTells,
         RunDoes, Live,
         FootprintFits, SignalsTold, MovesTold, IsPath;
    var m, e := start.control.engine.machine, inputs[k].event;
    var does, j := RunDoes(start, inputs, k + 1), |RunDoes(start, inputs, k).fed|;
    RunIsAccounted(start, inputs, k + 1);
    TickIsFed(start, inputs, k);
    WallTimeIsEnforced(m, c, does.fed, j);
    var request := Request(m, c, e.At(), 0);
    var x := Actuation.Checkpoint(request.requestId, 0, request.deadlineAt);
    OneRequest(request);
    SelectionIsCalled(m, does.fed, j, |does.fed|, x);
    a := AttemptOf(does.made, x);
  }

  lemma NextDoes<X>(start: Runtime<X>, inputs: seq<Input<X>>, k: nat)
    requires k < |inputs| && start.sampler.config.historyCapacity > 0
    ensures RunDoes(start, inputs, k + 1) == Then(RunDoes(start, inputs, k), StepDoes(RunAfter(start, inputs, k), inputs[k]))
  {
    hide RunAfter, StepDoes;
  }

  lemma HappenedIsFed<X>(rt: Runtime<X>, e: Event, all: seq<Attempt>)
    requires rt.sampler.config.historyCapacity > 0 && FromTheLoop(e) && Coherently(rt.control, all) && |all| + 3 <= U64_MAX
    requires FootprintFits(rt)
    ensures StepDoes(rt, Happened(e)).fed != [] && StepDoes(rt, Happened(e)).fed[0] == e
  {
    hide Coherently, Applicable, Handling, ApplyStep, Accounted, ObservedValue;
    LoopEventsAreReady(rt.control, e, all);
    ApplyIsAccounted(rt.control, e, all);
  }

  lemma TickIsFed<X>(start: Runtime<X>, inputs: seq<Input<X>>, k: nat)
    requires Fresh(start) && start.sampler.config.historyCapacity > 0
    requires TimesOrdered(inputs) && (forall i :: 0 <= i < |inputs| ==> Permitted(inputs[i])) && 3 * |inputs| + 3 <= U64_MAX
    requires k < |inputs| && inputs[k].Happened?
    ensures var before, fed := RunDoes(start, inputs, k).fed, RunDoes(start, inputs, k + 1).fed;
            && |before| < |fed| && fed[|before|] == inputs[k].event && Ordered(fed)
            && After(start.control.engine.machine, fed, |before|) == RunAfter(start, inputs, k).control.engine.machine
  {
    hide After, Calls, Coherently, Fresh, TimesOrdered, FedFits, FootprintFits, SignalsTold, MovesTold, IsPath,
         StepDoes, RunStep;
    var rt, before := RunAfter(start, inputs, k), RunDoes(start, inputs, k);
    var more := StepDoes(rt, inputs[k]).fed;
    RunIsAccounted(start, inputs, k);
    HappenedIsFed(rt, inputs[k].event, before.made);
    NextDoes(start, inputs, k);
    RunFeedsInOrder(start, inputs, k + 1);
    FedInOrder(RunDoes(start, inputs, k + 1).fed, inputs, k + 1);
    PrefixIndependent(start.control.engine.machine, before.fed, more, |before.fed|);
  }

  lemma FedInOrder<X>(fed: seq<Event>, inputs: seq<Input<X>>, k: nat)
    requires k <= |inputs| && FedFits(fed, inputs, k)
    ensures Ordered(fed)
  {
  }

  lemma OneRequest(a: Action)
    requires a.RequestCheckpoint?
    ensures Actuation.Checkpoint(a.requestId, a.overshootBytes, a.deadlineAt) in ActuationsOf([a])
  {
  }

  lemma {:induction false} AttemptOf(made: seq<Attempt>, x: Actuation) returns (a: Attempt)
    requires x in Actions(made)
    ensures a in made && a.action == x
  {
    if made[0].action == x {
      a := made[0];
    } else {
      a := AttemptOf(made[1..], x);
    }
  }
}
