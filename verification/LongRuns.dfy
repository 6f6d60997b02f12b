/** A run that nothing ever stops and whose report is lost all the same: its total swings around the
    warning band, and each swing journals a transition, without limit. */
module LongRuns {
  import opened Common
  import opened Policy
  import opened PolicyRuns
  import opened Intervention
  import opened Cascades
  import opened ProcessActuator
  import opened Runtime
  import opened RuntimeRuns
  import opened RunReports
  import Identity
  import Tracking
  import Sampling
  import Report
  import Journal
  import ReportJournal

  /** The live root, alone in its group, with some bytes. */
  function Alone(root: Identity.ProcessIdentity, group: i32, bytes: u64): Identity.Observation {
    Identity.Observation(root, 0, group, Some(bytes), false)
  }

  /** Sample `i`: up to the warning threshold when `i` is even, down to the recovery threshold when odd. */
  function Swing<X>(c: PolicyConfig, root: Identity.ProcessIdentity, group: i32, advisory: X, i: nat): Taken<X>
    requires i <= U64_MAX
  {
    var bytes := if i % 2 == 0 then c.warningBytes else c.recoveryBytes;
    Taken(2 * i, 2 * i + 1, Ok(Identity.Snapshot([Alone(root, group, bytes)], [])), 2 * i + 1, advisory)
  }

  function Swings<X>(c: PolicyConfig, root: Identity.ProcessIdentity, group: i32, advisory: X, n: nat): (r: seq<Input<X>>)
    requires n <= U64_MAX
    ensures |r| == n && forall i :: 0 <= i < n ==> r[i] == Took(Swing(c, root, group, advisory, i))
  {
    if n == 0 then [] else Swings(c, root, group, advisory, n - 1) + [Took(Swing(c, root, group, advisory, n - 1))]
  }

  /** The machine and the sampler after `k` swings. */
  ghost predicate Swung<X>(rt: Runtime<X>, c: PolicyConfig, root: Identity.ProcessIdentity, group: i32, k: nat) {
    var m := rt.control.engine.machine;
    && Inv(m) && m.config == c && m.state == (if k % 2 == 0 then Normal else Warning)
    && (m.lastEventAt.Some? ==> m.lastEventAt.value <= 2 * k)
    && rt.sampler.tracker.root == root && rt.sampler.tracker.ownedGroup == group
    && (rt.sampler.lastStartedAt.Some? ==> rt.sampler.lastStartedAt.value <= 2 * k)
  }

  predicate SwingFits(c: PolicyConfig, s: Sampling.SamplingConfig, root: Identity.ProcessIdentity) {
    ValidConfig(c) && s.maxSampleWindow > 0 && root.pid > 0 && root.startAbstime != 0 && s.historyCapacity > 0
  }

  /** The policy sees exactly the swing's bytes. */
  lemma SwingIsMeasured<X>(rt: Runtime<X>, c: PolicyConfig, root: Identity.ProcessIdentity, group: i32, advisory: X, k: nat)
    requires Swung(rt, c, root, group, k) && SwingFits(c, rt.sampler.config, root) && k < U64_MAX
    ensures var t := Swing(c, root, group, advisory, k);
            && SampleInput(rt, t) == Sample(SampleEvent(2 * k + 1, 2 * k + 1, 1,
                 Some(if k % 2 == 0 then c.warningBytes else c.recoveryBytes)))
            && var s := RetainStep(rt, t).sampler;
               && s.tracker.root == root && s.tracker.ownedGroup == group && s.config == rt.sampler.config
               && s.lastStartedAt == Some(2 * k)
  {
    hide Inv, Push, WindowOf, Tracking.ScanAll, Tracking.AggregateOf, Tracking.GroupTotal, Tracking.RelevantFailures;
    var bytes := if k % 2 == 0 then c.warningBytes else c.recoveryBytes;
    Tracking.LoneRootIsCounted(rt.sampler.tracker, Alone(root, group, bytes));
  }

  /** One swing moves the machine across the band. */
  lemma SwingMoves(m: Machine, k: nat, at: Duration)
    requires Inv(m) && m.state == (if k % 2 == 0 then Normal else Warning) && !ClockRegressed(m, at)
    requires at == 2 * k + 1
    ensures var bytes := if k % 2 == 0 then m.config.warningBytes else m.config.recoveryBytes;
            var n := Step(m, Sample(SampleEvent(at, at, 1, Some(bytes)))).machine;
            && n.state == (if k % 2 == 0 then Warning else Normal) && n.config == m.config
            && n.lastEventAt == Some(at) && Inv(n)
  {
  }

  /** An event that leaves the machine live journals its transition. */
  lemma LiveTransitionIsLogged<X>(c: Control<X>, e: Event)
    requires Inv(c.engine.machine) && Live(Step(c.engine.machine, e).machine)
    requires Step(c.engine.machine, e).machine.state != c.engine.machine.state
    ensures ApplyStep(c, e).engine.machine == Step(c.engine.machine, e).machine
    ensures |ApplyStep(c, e).log| >= |c.log| + 1
  {
    hide Step, Inv, Cascade, NewAttempts, SignalLog, HandleEvent, Execute;
    StepEscalates(c.engine.machine, e);
    HandleIsCascade(Execute, c.engine, e);
    var h := HandleEvent(Execute, c.engine, e);
    var d := Step(c.engine.machine, e);
    var move := Transition(e.At(), c.engine.machine.state, d.machine.state);
    assert h.trace == [Moved(move)];
    assert TransitionLog<X>(h.trace, ObservedValue(c.footprint)) == [TransitionEntry(move, ObservedValue(c.footprint))];
  }

  lemma SwingStep<X>(rt: Runtime<X>, c: PolicyConfig, root: Identity.ProcessIdentity, group: i32, advisory: X, k: nat)
    requires Swung(rt, c, root, group, k) && SwingFits(c, rt.sampler.config, root) && k < U64_MAX
    ensures var n := RunStep(rt, Took(Swing(c, root, group, advisory, k)));
            && Swung(n, c, root, group, k + 1) && n.sampler.config == rt.sampler.config
            && |n.control.log| >= |rt.control.log| + 1
  {
    hide Step, Inv, RetainStep, SampleInput, ApplyStep;
    var t := Swing(c, root, group, advisory, k);
    SwingIsMeasured(rt, c, root, group, advisory, k);
    RetainIsQuiet(rt, t);
    RetainKeepsLog(rt, t);
    var m := rt.control.engine.machine;
    SwingMoves(m, k, 2 * k + 1);
    LiveTransitionIsLogged(RetainStep(rt, t).control, SampleInput(rt, t));
  }

  lemma RetainKeepsLog<X>(rt: Runtime<X>, t: Taken<X>)
    requires rt.sampler.config.historyCapacity > 0
    ensures |RetainStep(rt, t).control.log| >= |rt.control.log|
  {
    hide RecordedSample, WindowOf;
  }

  lemma {:induction false} SwingsAreLogged<X>(start: Runtime<X>, c: PolicyConfig, root: Identity.ProcessIdentity, group: i32,
                                              advisory: X, n: nat, k: nat)
    requires Swung(start, c, root, group, 0) && SwingFits(c, start.sampler.config, root) && k <= n < U64_MAX
    ensures var rt := RunAfter(start, Swings(c, root, group, advisory, n), k);
            Swung(rt, c, root, group, k) && |rt.control.log| >= k
  {
    hide RunStep, Swung, Swing;
    if k > 0 {
      SwingsAreLogged(start, c, root, group, advisory, n, k - 1);
      SwingStep(RunAfter(start, Swings(c, root, group, advisory, n), k - 1), c, root, group, advisory, k - 1);
    }
  }

  lemma SwingsAreInOrder<X>(c: PolicyConfig, root: Identity.ProcessIdentity, group: i32, advisory: X, n: nat)
    requires n <= U64_MAX
    ensures InOrder(Swings(c, root, group, advisory, n)) && KeptTookTime(Swings(c, root, group, advisory, n))
  {
    var inputs := Swings(c, root, group, advisory, n);
    TakenSwings(c, root, group, advisory, n, n);
    hide Swings;
    var taken := SamplesTaken(inputs, n);
    var kept := Last(taken, MAX_SAMPLE_HISTORY);
    forall i | 0 <= i < |kept| ensures kept[i].startedAt < kept[i].finishedAt {
      assert kept[i] in taken;
    }
  }

  lemma {:induction false} TakenSwings<X>(c: PolicyConfig, root: Identity.ProcessIdentity, group: i32, advisory: X,
                                          n: nat, k: nat)
    requires k <= n <= U64_MAX
    ensures forall t :: t in SamplesTaken(Swings(c, root, group, advisory, n), k) ==> t.startedAt < t.finishedAt
  {
    if k > 0 {
      TakenSwings(c, root, group, advisory, n, k - 1);
    }
  }

  /** The runtime as it is built before the loop is ready to swing. */
  lemma StartSwings<X>(policy: PolicyConfig, requestId: u64, channel: Option<Channel>, replies: seq<OsReply>,
                       sampling: Sampling.SamplingConfig, root: Identity.ProcessIdentity, group: i32, header: X,
                       configuration: Report.Configuration)
    requires ValidConfig(policy) && requestId != 0
    ensures Swung(Start(policy, requestId, channel, replies, sampling, Identity.Tracker(root, group, [], {}, 0, false),
                        header, configuration), policy, root, group, 0)
  {
    hide Inv;
    EnforcingKeepsInv(policy, requestId);
  }

  lemma SwingsAreProper<X>(start: Runtime<X>, c: PolicyConfig, root: Identity.ProcessIdentity, group: i32, advisory: X,
                           n: nat, outcome: Report.TerminalOutcome)
    requires start.sampler.config.historyCapacity == MAX_SAMPLE_HISTORY
    requires 3 * n + 3 <= U64_MAX && Ms(2 * n) <= outcome.atMs
    requires Fresh(start) && RunFits(start, [], [], 0)
    ensures ProperRun(start, Swings(c, root, group, advisory, n), 0, outcome)
  {
    hide Fresh, RunFits, InOrder, KeptTookTime, Swings;
    SwingsAreInOrder(c, root, group, advisory, n);
    MsMonotone(LatestOf(Swings(c, root, group, advisory, n), n, 0), 2 * n);
  }

  lemma JournalIsLonger<X>(rt: Runtime<X>, outcome: Report.TerminalOutcome)
    ensures |FinalLog(rt, outcome)| >= |rt.control.log| + 3
  {
    hide RecentHistory;
  }

  /** An enforced run of 65,536 samples or more whose total swings between the warning and the recovery
      threshold: it is in order, every kept sample took time and the machine stays in its band states, yet
      its journal holds more records than recovery accepts, and its file gives no report. */
  lemma LongRunLosesReport<X(!new)>(
    start: Runtime<X>, policy: PolicyConfig, root: Identity.ProcessIdentity, group: i32, advisory: X, n: nat,
    outcome: Report.TerminalOutcome, rules: Report.Rules<X>, c: Journal.Codec<Report.Entry<X>>)
    requires start.sampler.config.historyCapacity == MAX_SAMPLE_HISTORY && SwingFits(policy, start.sampler.config, root)
    requires Journal.MAX_RECOVERED_RECORDS <= n && 3 * n + 3 <= U64_MAX && Ms(2 * n) <= outcome.atMs
    requires Swung(start, policy, root, group, 0) && Fresh(start) && RunFits(start, [], [], 0) && Journal.Lawful(c)
    ensures var inputs := Swings(policy, root, group, advisory, n);
            var rt := RunAfter(start, inputs, n);
            var journal := FinalLog(rt, outcome);
            && ProperRun(start, inputs, 0, outcome) && KeptTookTime(inputs)
            && Live(rt.control.engine.machine) && |journal| > Journal.MAX_RECOVERED_RECORDS
            && (Journal.Bounded(c, journal) ==>
                  ReportJournal.ReportOfFile(c, rules, Journal.JOURNAL_MAGIC + Journal.Log(c, journal)) == None)
  {
    hide RunAfter, Fresh, RunFits, ProperRun, KeptTookTime, InOrder, Swings, Inv, Ms, FinalLog, Journal.Log,
         Journal.Bounded,
         Journal.Lawful, ReportJournal.ReportOfFile, Report.Replay;
    var inputs := Swings(policy, root, group, advisory, n);
    var rt := RunAfter(start, inputs, n);
    SwingsAreProper(start, policy, root, group, advisory, n, outcome);
    SwingsAreInOrder(policy, root, group, advisory, n);
    SwingsAreLogged(start, policy, root, group, advisory, n, n);
    JournalIsLonger(rt, outcome);
    if Journal.Bounded(c, FinalLog(rt, outcome)) {
      ReportJournal.FileReplays(c, rules, FinalLog(rt, outcome));
    }
  }
}
