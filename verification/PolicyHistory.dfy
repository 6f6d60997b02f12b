/** The machine's counters as functions of the sample history: what a run that has not intervened
    remembers, exactly when a sample stops it, and why isolated spikes never do. */
module PolicyHistory {
  import opened Common
  import opened Policy
  import opened PolicyRuns

  /** The samples among the first `k` events. */
  function Samples(es: seq<Event>, k: nat): seq<SampleEvent>
    requires k <= |es|
  {
    if k == 0 then []
    else Samples(es, k - 1) + if es[k - 1].Sample? then [es[k - 1].sample] else []
  }

  /** The measured totals of the usable samples, unusable ones left out. */
  function Totals(c: PolicyConfig, history: seq<SampleEvent>): (r: seq<u64>)
    ensures |r| <= |history|
  {
    if history == [] then []
    else
      var n := |history| - 1;
      Totals(c, history[..n]) + if Usable(c, history[n]) then [history[n].aggregateBytes.value] else []
  }

  /** The last `n` usable totals exist and are all at or above `limit`. */
  predicate LastAtLeast(totals: seq<u64>, n: nat, limit: u64) {
    n <= |totals| && forall i :: |totals| - n <= i < |totals| ==> totals[i] >= limit
  }

  /** The last `n` samples exist and are all unusable. */
  predicate LastUnusable(c: PolicyConfig, history: seq<SampleEvent>, n: nat) {
    n <= |history| && forall i :: |history| - n <= i < |history| ==> !Usable(c, history[i])
  }

  /** `n` is the length of the longest run of totals at or above the limit ending the history. */
  predicate BreachRun(totals: seq<u64>, n: nat, limit: u64) {
    LastAtLeast(totals, n, limit) && !LastAtLeast(totals, n + 1, limit)
  }

  predicate MissingRun(c: PolicyConfig, history: seq<SampleEvent>, n: nat) {
    LastUnusable(c, history, n) && !LastUnusable(c, history, n + 1)
  }

  /** Hysteresis: some total reached the warning threshold and none since fell to recovery. */
  ghost predicate WarningHeld(c: PolicyConfig, totals: seq<u64>) {
    exists i :: 0 <= i < |totals| && totals[i] >= c.warningBytes
                && forall j :: i <= j < |totals| ==> totals[j] > c.recoveryBytes
  }

  /** No signal has been sent: nothing has begun, or a checkpoint is still awaited. */
  predicate Unsignalled(m: Machine) {
    Live(m) || m.state.CheckpointRequested?
  }

  /** The machine's memory is exactly the history's: the missing streak until a signal is sent, the
      breach streak and the band until anything begins. */
  ghost predicate Remembers(m: Machine, history: seq<SampleEvent>) {
    var totals := Totals(m.config, history);
    && MissingRun(m.config, history, m.missingStreak)
    && (Live(m) ==> BreachRun(totals, m.breachStreak, m.config.limitBytes)
                    && (m.state.Warning? <==> WarningHeld(m.config, totals)))
  }

  lemma TotalsOfNext(c: PolicyConfig, history: seq<SampleEvent>, s: SampleEvent)
    ensures Totals(c, history + [s])
         == if Usable(c, s) then Totals(c, history) + [s.aggregateBytes.value] else Totals(c, history)
  {
    assert (history + [s])[..|history|] == history;
  }

  lemma LastAtLeastNext(totals: seq<u64>, n: nat, limit: u64, next: u64)
    ensures LastAtLeast(totals + [next], n + 1, limit) <==> next >= limit && LastAtLeast(totals, n, limit)
  {
    var more := totals + [next];
    if LastAtLeast(more, n + 1, limit) {
      assert more[|totals|] >= limit;
      assert forall i :: |totals| - n <= i < |totals| ==> totals[i] == more[i];
    }
  }

  lemma LastUnusableNext(c: PolicyConfig, history: seq<SampleEvent>, n: nat, s: SampleEvent)
    ensures LastUnusable(c, history + [s], n + 1) <==> !Usable(c, s) && LastUnusable(c, history, n)
  {
    var more := history + [s];
    if LastUnusable(c, more, n + 1) {
      assert !Usable(c, more[|history|]);
      assert forall i :: |history| - n <= i < |history| ==> history[i] == more[i];
    }
  }

  lemma BreachRunNext(totals: seq<u64>, n: nat, limit: u64, next: u64)
    requires BreachRun(totals, n, limit)
    ensures BreachRun(totals + [next], if next >= limit then n + 1 else 0, limit)
  {
    LastAtLeastNext(totals, 0, limit, next);
    LastAtLeastNext(totals, n, limit, next);
    LastAtLeastNext(totals, n + 1, limit, next);
  }

  lemma MissingRunNext(c: PolicyConfig, history: seq<SampleEvent>, n: nat, s: SampleEvent)
    requires MissingRun(c, history, n)
    ensures MissingRun(c, history + [s], if Usable(c, s) then 0 else n + 1)
  {
    LastUnusableNext(c, history, 0, s);
    LastUnusableNext(c, history, n, s);
    LastUnusableNext(c, history, n + 1, s);
  }

  lemma WarningHeldNext(c: PolicyConfig, totals: seq<u64>, next: u64)
    requires c.recoveryBytes < c.warningBytes
    ensures WarningHeld(c, totals + [next]) <==>
              next >= c.warningBytes || (next > c.recoveryBytes && WarningHeld(c, totals))
  {
    var more := totals + [next];
    if next >= c.warningBytes {
      assert more[|totals|] >= c.warningBytes;
    } else if WarningHeld(c, totals) && next > c.recoveryBytes {
      var i :| 0 <= i < |totals| && totals[i] >= c.warningBytes
               && forall j :: i <= j < |totals| ==> totals[j] > c.recoveryBytes;
      assert more[i] >= c.warningBytes;
    } else if WarningHeld(c, more) {
      var i :| 0 <= i < |more| && more[i] >= c.warningBytes
               && forall j :: i <= j < |more| ==> more[j] > c.recoveryBytes;
      assert more[|totals|] > c.recoveryBytes;
      assert totals[i] >= c.warningBytes && forall j :: i <= j < |totals| ==> totals[j] == more[j];
    }
  }

  /** Only a machine that has sent no signal leads to such a one, and only a live one to a live one. */
  lemma UnsignalledBefore(m: Machine, e: Event)
    requires Inv(m) && Unsignalled(Step(m, e).machine)
    ensures Unsignalled(m) && !ClockRegressed(m, e.At())
    ensures Live(Step(m, e).machine) ==> Live(m)
    ensures !e.Sample? ==>
              var n := Step(m, e).machine;
              n.missingStreak == m.missingStreak
              && (Live(n) ==> n.state == m.state && n.breachStreak == m.breachStreak)
  {
  }

  lemma SampleIsDispatched(m: Machine, s: SampleEvent)
    requires !m.state.Exited? && !ClockRegressed(m, s.processedAt)
    ensures Step(m, Sample(s)) == SampleStep(m.(lastEventAt := Some(s.processedAt)), s)
  {
  }

  /** How one sample moves the memory of a machine that sends no signal for it. */
  predicate MemoryMoves(m: Machine, n: Machine, s: SampleEvent) {
    var c := m.config;
    && n.config == c
    && n.missingStreak == (if Usable(c, s) then 0 else m.missingStreak + 1)
    && (Live(n) ==> Live(m))
    && (Live(n) && !Usable(c, s) ==> n.breachStreak == m.breachStreak && n.state == m.state)
    && (Live(n) && Usable(c, s) ==>
          var bytes := s.aggregateBytes.value;
          && n.breachStreak == (if bytes >= c.limitBytes then m.breachStreak + 1 else 0)
          && (n.state.Warning? <==> bytes >= c.warningBytes || (bytes > c.recoveryBytes && m.state.Warning?)))
  }

  lemma MissingMovesMemory(m: Machine, s: SampleEvent)
    requires Inv(m) && Unsignalled(m) && !Usable(m.config, s) && Unsignalled(SampleStep(m, s).machine)
    ensures MemoryMoves(m, SampleStep(m, s).machine, s)
  {
  }

  lemma SampleMovesMemory(m: Machine, s: SampleEvent)
    requires Inv(m) && Unsignalled(m) && Unsignalled(SampleStep(m, s).machine)
    ensures MemoryMoves(m, SampleStep(m, s).machine, s)
  {
    if !Usable(m.config, s) {
      MissingMovesMemory(m, s);
    }
  }

  lemma SampleUpdatesMemory(m: Machine, n: Machine, history: seq<SampleEvent>, s: SampleEvent)
    requires ValidConfig(m.config) && Remembers(m, history) && MemoryMoves(m, n, s)
    ensures Remembers(n, history + [s])
  {
    TotalsOfNext(m.config, history, s);
    MissingRunNext(m.config, history, m.missingStreak, s);
    if Live(n) && Usable(m.config, s) {
      BreachRunNext(Totals(m.config, history), m.breachStreak, m.config.limitBytes, s.aggregateBytes.value);
      WarningHeldNext(m.config, Totals(m.config, history), s.aggregateBytes.value);
    }
  }

  lemma StepUpdatesMemory(m: Machine, history: seq<SampleEvent>, e: Event)
    requires Inv(m) && Remembers(m, history) && Unsignalled(Step(m, e).machine)
    ensures Remembers(Step(m, e).machine, if e.Sample? then history + [e.sample] else history)
  {
    UnsignalledBefore(m, e);
    StepKeepsInv(m, e);
    if e.Sample? {
      var clocked := m.(lastEventAt := Some(e.At()));
      SampleIsDispatched(m, e.sample);
      hide Step, SampleStep;
      SampleMovesMemory(clocked, e.sample);
      SampleUpdatesMemory(clocked, SampleStep(clocked, e.sample).machine, history, e.sample);
    }
  }

  /** Until a signal is sent, the missing streak is a function of the samples seen so far; until
      anything begins, so are the breach streak and the warning band, whatever other events came
      between the samples. */
  lemma {:induction false} HistoryRefinement(config: PolicyConfig, seed: u64, es: seq<Event>, k: nat)
    requires ValidConfig(config) && seed > 0 && k <= |es|
    requires Unsignalled(After(Enforcing(config, seed), es, k))
    ensures Remembers(After(Enforcing(config, seed), es, k), Samples(es, k))
    ensures After(Enforcing(config, seed), es, k).config == config
  {
    hide Step, SampleStep;
    var m := Enforcing(config, seed);
    RunKeepsInv(m, es, k);
    if k > 0 {
      RunKeepsInv(m, es, k - 1);
      var before := After(m, es, k - 1);
      UnsignalledBefore(before, es[k - 1]);
      HistoryRefinement(config, seed, es, k - 1);
      StepUpdatesMemory(before, Samples(es, k - 1), es[k - 1]);
      if !es[k - 1].Sample? {
        assert Samples(es, k) == Samples(es, k - 1);
      }
    }
  }

  // ---- Exactly when a sample stops the run ----

  predicate StopsGracefully(actions: seq<Action>) {
    exists i :: 0 <= i < |actions| && (actions[i].RequestCheckpoint? || actions[i] == SendTerm(SkippedNotNegotiated))
  }

  predicate EmergencyTotal(c: PolicyConfig, s: SampleEvent) {
    Usable(c, s) && s.aggregateBytes.value >= c.emergencyBytes
  }

  lemma ShorterRun(totals: seq<u64>, n: nat, k: nat, limit: u64)
    requires LastAtLeast(totals, n, limit) && k <= n
    ensures LastAtLeast(totals, k, limit)
  {
  }

  lemma ShorterMissingRun(c: PolicyConfig, history: seq<SampleEvent>, n: nat, k: nat)
    requires LastUnusable(c, history, n) && k <= n
    ensures LastUnusable(c, history, k)
  {
  }

  lemma RunReaches(totals: seq<u64>, n: nat, limit: u64, needed: nat)
    requires BreachRun(totals, n, limit)
    ensures LastAtLeast(totals, needed, limit) <==> needed <= n
  {
    var longer: nat := n + 1;
    if needed > n && LastAtLeast(totals, needed, limit) {
      ShorterRun(totals, needed, longer, limit);
    }
  }

  lemma MissingReaches(c: PolicyConfig, history: seq<SampleEvent>, n: nat, needed: nat)
    requires MissingRun(c, history, n)
    ensures LastUnusable(c, history, needed) <==> needed <= n
  {
    var longer: nat := n + 1;
    if needed > n && LastUnusable(c, history, needed) {
      ShorterMissingRun(c, history, needed, longer);
    }
  }

  /** The last required usable totals, the sample's included, are all at or above the limit. */
  predicate Breaches(c: PolicyConfig, history: seq<SampleEvent>, s: SampleEvent) {
    && Usable(c, s) && !EmergencyTotal(c, s)
    && LastAtLeast(Totals(c, history + [s]), c.requiredBreachSamples, c.limitBytes)
  }

  /** What deciding on one sample does to a machine that has sent no signal: KILL exactly on an
      emergency total, the graceful path exactly when a breach run completes before anything began,
      the observation-failure TERM exactly when the allowed run of unusable samples completes. */
  predicate Verdict(m: Machine, d: Decision, s: SampleEvent, breaches: bool, blind: bool) {
    && (SendKill in d.actions <==> EmergencyTotal(m.config, s))
    && (StopsGracefully(d.actions) <==> Live(m) && breaches)
    && (SendTerm(SkippedObservationFailure) in d.actions <==> blind)
    && (Live(d.machine) <==> Live(m) && !EmergencyTotal(m.config, s) && !breaches && !blind)
    && (Unsignalled(d.machine) <==>
          !EmergencyTotal(m.config, s) && !blind
          && (Live(m) && breaches ==> m.config.checkpointTimeout.Some?))
  }

  lemma MissingDecision(m: Machine, s: SampleEvent)
    requires Inv(m) && Unsignalled(m) && !Usable(m.config, s)
    ensures Verdict(m, SampleStep(m, s), s, false, m.missingStreak + 1 >= m.config.maxMissingSamples)
  {
    var actions := SampleStep(m, s).actions;
    assert |actions| > 1 ==> actions[1] in actions;
  }

  lemma UsableDecision(m: Machine, s: SampleEvent, breaches: bool)
    requires Inv(m) && Unsignalled(m) && Usable(m.config, s)
    requires Live(m) ==> (breaches <==> !EmergencyTotal(m.config, s) && s.aggregateBytes.value >= m.config.limitBytes
                                        && m.breachStreak + 1 >= m.config.requiredBreachSamples)
    ensures Verdict(m, SampleStep(m, s), s, breaches, false)
  {
    var actions := SampleStep(m, s).actions;
    assert |actions| > 1 ==> actions[1] in actions;
  }

  lemma VerdictOfMemory(m: Machine, h: seq<SampleEvent>, s: SampleEvent)
    requires Inv(m) && Unsignalled(m) && Remembers(m, h)
    ensures Verdict(m, SampleStep(m, s), s, Breaches(m.config, h, s),
                    LastUnusable(m.config, h + [s], m.config.maxMissingSamples))
  {
    hide SampleStep, Verdict;
    var c := m.config;
    TotalsOfNext(c, h, s);
    MissingRunNext(c, h, m.missingStreak, s);
    MissingReaches(c, h + [s], if Usable(c, s) then 0 else m.missingStreak + 1, c.maxMissingSamples);
    if Usable(c, s) {
      if Live(m) {
        var bytes := s.aggregateBytes.value;
        var streak := if bytes >= c.limitBytes then m.breachStreak + 1 else 0;
        BreachRunNext(Totals(c, h), m.breachStreak, c.limitBytes, bytes);
        RunReaches(Totals(c, h + [s]), streak, c.limitBytes, c.requiredBreachSamples);
      }
      UsableDecision(m, s, Breaches(c, h, s));
    } else {
      MissingDecision(m, s);
    }
  }

  lemma ClockDoesNotMatter(m: Machine, clock: Option<Duration>, d: Decision, s: SampleEvent, breaches: bool, blind: bool)
    requires Verdict(m.(lastEventAt := clock), d, s, breaches, blind)
    ensures Verdict(m, d, s, breaches, blind)
  {
  }

  /** The verdict on the next sample of any run that has sent no signal, in terms of the samples
      seen alone. */
  lemma SampleVerdict(config: PolicyConfig, seed: u64, es: seq<Event>, k: nat, s: SampleEvent)
    requires ValidConfig(config) && seed > 0 && k <= |es|
    requires var m := After(Enforcing(config, seed), es, k);
             Unsignalled(m) && !ClockRegressed(m, s.processedAt)
    ensures var m := After(Enforcing(config, seed), es, k);
            m.config == config
            && Verdict(m, Step(m, Sample(s)), s, Breaches(config, Samples(es, k), s),
                       LastUnusable(config, Samples(es, k) + [s], config.maxMissingSamples))
  {
    var m := After(Enforcing(config, seed), es, k);
    hide Step, SampleStep, After, Verdict, LastUnusable, Breaches;
    RunKeepsInv(Enforcing(config, seed), es, k);
    HistoryRefinement(config, seed, es, k);
    SampleIsDispatched(m, s);
    VerdictOfMemory(m.(lastEventAt := Some(s.processedAt)), Samples(es, k), s);
    ClockDoesNotMatter(m, Some(s.processedAt), Step(m, Sample(s)), s, Breaches(config, Samples(es, k), s),
                       LastUnusable(config, Samples(es, k) + [s], config.maxMissingSamples));
  }

  /** A sample requests KILL exactly when no intervention has begun and its total is an emergency:
      in the normal and warning states, and in the checkpoint-requested state too. */
  lemma EmergencyKills(m: Machine, s: SampleEvent)
    requires Inv(m) && !m.state.Exited? && !ClockRegressed(m, s.processedAt)
    ensures SendKill in Step(m, Sample(s)).actions <==> !m.interventionStarted && EmergencyTotal(m.config, s)
    ensures Unsignalled(m) ==> (SendKill in Step(m, Sample(s)).actions <==> EmergencyTotal(m.config, s))
  {
    var actions := Step(m, Sample(s)).actions;
    assert |actions| > 1 ==> actions[1] in actions;
  }

  /** The documented table lists the emergency for the normal and warning states only. This run has
      asked for a checkpoint at its first sample and is killed at its second. */
  lemma EmergencyDuringCheckpoint()
    ensures var config := PolicyConfig(3, 2, 1, 4, 1, 1, 1, 1, Some(9), 9, None);
            var es := [Sample(SampleEvent(0, 0, 0, Some(3))), Sample(SampleEvent(1, 1, 0, Some(4)))];
            && ValidConfig(config)
            && After(Enforcing(config, 1), es, 1).state == CheckpointRequested
            && SendKill in Out(Enforcing(config, 1), es, 1)
  {
    var config := PolicyConfig(3, 2, 1, 4, 1, 1, 1, 1, Some(9), 9, None);
    var es := [Sample(SampleEvent(0, 0, 0, Some(3))), Sample(SampleEvent(1, 1, 0, Some(4)))];
    var m := After(Enforcing(config, 1), es, 1);
    assert m == Step(Enforcing(config, 1), es[0]).machine by {
      assert After(Enforcing(config, 1), es, 0) == Enforcing(config, 1);
    }
    RunKeepsInv(Enforcing(config, 1), es, 1);
    EmergencyKills(m, es[1].sample);
  }

  // ---- Exactly when a run is stopped ----

  predicate NeverEmergency(c: PolicyConfig, history: seq<SampleEvent>) {
    forall i :: 0 <= i < |history| ==> !EmergencyTotal(c, history[i])
  }

  /** The history never ends, at any point, in a run of unusable samples of the configured length. */
  predicate NeverBlind(c: PolicyConfig, history: seq<SampleEvent>) {
    forall k :: 0 <= k <= |history| ==> !LastUnusable(c, history[..k], c.maxMissingSamples)
  }

  /** Nothing in the history stops a run: no emergency total, no run of breaches and no run of
      unusable samples of the configured lengths, anywhere. */
  predicate Calm(c: PolicyConfig, history: seq<SampleEvent>) {
    && NeverEmergency(c, history)
    && (forall k :: 0 <= k <= |history| ==>
          !LastAtLeast(Totals(c, history[..k]), c.requiredBreachSamples, c.limitBytes))
    && NeverBlind(c, history)
  }

  lemma {:induction false} SamplesOfPrefix(es: seq<Event>, more: seq<Event>, k: nat)
    requires k <= |es|
    ensures Samples(es + more, k) == Samples(es, k)
  {
    if k > 0 {
      SamplesOfPrefix(es, more, k - 1);
    }
  }

  lemma CalmNext(c: PolicyConfig, h: seq<SampleEvent>, s: SampleEvent)
    ensures Calm(c, h + [s]) <==>
              Calm(c, h) && !EmergencyTotal(c, s)
              && !LastAtLeast(Totals(c, h + [s]), c.requiredBreachSamples, c.limitBytes)
              && !LastUnusable(c, h + [s], c.maxMissingSamples)
  {
    var more := h + [s];
    assert more[..|more|] == more;
    assert forall k :: 0 <= k <= |h| ==> more[..k] == h[..k];
    assert forall i :: 0 <= i < |h| ==> more[i] == h[i];
    assert more[|h|] == s;
  }

  /** Events that leave an untouched run untouched whatever it has seen: acknowledgements of
      requests it never made, and ticks before the wall limit. */
  predicate Harmless(c: PolicyConfig, e: Event) {
    e.Sample? || e.CheckpointAck? || (e.Tick? && !Due(c.wallTime, e.tickAt))
  }

  /** The first `k` events come in time order and, samples aside, are harmless. */
  predicate Undisturbed(c: PolicyConfig, es: seq<Event>, k: nat)
    requires k <= |es|
  {
    && (forall i :: 0 <= i < k ==> Harmless(c, es[i]))
    && (forall i, j :: 0 <= i < j < k ==> es[i].At() <= es[j].At())
  }

  lemma LiveClock(m: Machine, e: Event)
    requires Inv(m) && Live(Step(m, e).machine)
    ensures Step(m, e).machine.lastEventAt == Some(e.At())
  {
  }

  lemma OthersKeepLive(m: Machine, e: Event)
    requires Inv(m) && !e.Sample?
    ensures Live(Step(m, e).machine) <==> Live(m) && !ClockRegressed(m, e.At()) && Harmless(m.config, e)
  {
  }

  /** One sample keeps a run untouched exactly when it comes in order, is no emergency, and
      completes neither the required breaches nor the allowed run of unusable samples. */
  lemma SampleKeepsLive(config: PolicyConfig, seed: u64, es: seq<Event>, k: nat, s: SampleEvent)
    requires ValidConfig(config) && seed > 0 && k <= |es|
    requires Calm(config, Samples(es, k))
    ensures var m := After(Enforcing(config, seed), es, k);
            Live(Step(m, Sample(s)).machine) <==>
              Live(m) && !ClockRegressed(m, s.processedAt) && Calm(config, Samples(es, k) + [s])
  {
    var m := After(Enforcing(config, seed), es, k);
    var history := Samples(es, k);
    hide Step, SampleStep, After, Calm, LastAtLeast, LastUnusable;
    RunKeepsInv(Enforcing(config, seed), es, k);
    CalmNext(config, history, s);
    TotalsOfNext(config, history, s);
    CalmEndsCalm(config, history);
    if Live(m) && !ClockRegressed(m, s.processedAt) {
      SampleVerdict(config, seed, es, k, s);
    } else if Live(Step(m, Sample(s)).machine) {
      UnsignalledBefore(m, Sample(s));
    }
  }

  lemma CalmEndsCalm(c: PolicyConfig, h: seq<SampleEvent>)
    requires Calm(c, h)
    ensures !LastAtLeast(Totals(c, h), c.requiredBreachSamples, c.limitBytes)
  {
    assert h[..|h|] == h;
  }

  lemma UndisturbedNext(c: PolicyConfig, es: seq<Event>, k: nat)
    requires k < |es|
    ensures Undisturbed(c, es, k + 1) <==>
              Undisturbed(c, es, k) && Harmless(c, es[k]) && (k > 0 ==> es[k - 1].At() <= es[k].At())
  {
    if Undisturbed(c, es, k) && k > 0 && es[k - 1].At() <= es[k].At() {
      assert forall i :: 0 <= i < k ==> i == k - 1 || es[i].At() <= es[k - 1].At();
    }
  }

  /** After any sequence of events at all, nothing has been stopped or begun if and only if the
      events came in time order, those that are not samples were harmless, and the samples are calm. */
  lemma {:induction false} StopsExactlyWhenNotCalm(config: PolicyConfig, seed: u64, es: seq<Event>, k: nat)
    requires ValidConfig(config) && seed > 0 && k <= |es|
    ensures Live(After(Enforcing(config, seed), es, k)) <==>
              Undisturbed(config, es, k) && Calm(config, Samples(es, k))
  {
    hide Step, SampleStep, Calm, Undisturbed;
    var m := Enforcing(config, seed);
    if k == 0 {
      NothingIsCalm(config, es);
    } else {
      var before, e := After(m, es, k - 1), es[k - 1];
      StopsExactlyWhenNotCalm(config, seed, es, k - 1);
      RunKeepsInv(m, es, k - 1);
      UndisturbedNext(config, es, k - 1);
      if k > 1 {
        RunKeepsInv(m, es, k - 2);
        if Live(before) {
          LiveClock(After(m, es, k - 2), es[k - 2]);
        }
      }
      if !Live(before) {
        OnlyLiveStaysLive(config, before, Samples(es, k - 1), e);
      } else if e.Sample? {
        SampleKeepsLive(config, seed, es, k - 1, e.sample);
      } else {
        OthersKeepLive(before, e);
        assert Samples(es, k) == Samples(es, k - 1);
      }
    }
  }

  lemma NothingIsCalm(c: PolicyConfig, es: seq<Event>)
    requires ValidConfig(c)
    ensures Undisturbed(c, es, 0) && Calm(c, Samples(es, 0))
  {
    assert Totals(c, Samples(es, 0)[..0]) == [];
  }

  lemma OnlyLiveStaysLive(c: PolicyConfig, m: Machine, history: seq<SampleEvent>, e: Event)
    requires Inv(m) && !Live(m)
    ensures !Live(Step(m, e).machine)
    ensures e.Sample? && Calm(c, history + [e.sample]) ==> Calm(c, history)
    ensures history + [] == history
  {
    if Live(Step(m, e).machine) {
      UnsignalledBefore(m, e);
    }
    if e.Sample? {
      CalmNext(c, history, e.sample);
    }
  }

  /** Usable totals at or above the limit never come twice in a row. */
  ghost predicate IsolatedSpikes(c: PolicyConfig, history: seq<SampleEvent>) {
    var totals := Totals(c, history);
    forall i, j :: 0 <= i < j < |totals| && j == i + 1 ==> totals[i] < c.limitBytes || totals[j] < c.limitBytes
  }

  lemma {:induction false} TotalsOfPrefix(c: PolicyConfig, history: seq<SampleEvent>, k: nat)
    requires k <= |history|
    ensures Totals(c, history[..k]) <= Totals(c, history)
  {
    if k < |history| {
      var n := |history| - 1;
      assert history[..n][..k] == history[..k];
      TotalsOfPrefix(c, history[..n], k);
    } else {
      assert history[..k] == history;
    }
  }

  lemma SpikesNeverRun(c: PolicyConfig, history: seq<SampleEvent>, k: nat)
    requires k <= |history| && IsolatedSpikes(c, history) && c.requiredBreachSamples >= 2
    ensures !LastAtLeast(Totals(c, history[..k]), c.requiredBreachSamples, c.limitBytes)
  {
    TotalsOfPrefix(c, history, k);
    var part, all := Totals(c, history[..k]), Totals(c, history);
    var n := |part|;
    if n >= 2 {
      assert part[n - 2] == all[n - 2] && part[n - 1] == all[n - 1];
    }
  }

  lemma SpikesAreCalm(c: PolicyConfig, history: seq<SampleEvent>)
    requires c.requiredBreachSamples >= 2 && IsolatedSpikes(c, history) && NeverBlind(c, history)
    requires NeverEmergency(c, history)
    ensures Calm(c, history)
  {
    forall k | 0 <= k <= |history|
      ensures !LastAtLeast(Totals(c, history[..k]), c.requiredBreachSamples, c.limitBytes)
    {
      SpikesNeverRun(c, history, k);
    }
  }

  /** When two or more breaches are required, isolated spikes below the emergency threshold never
      stop a job whose measurements stay available: no side effect at all is selected, whatever
      ticks and stray acknowledgements come between the samples. */
  lemma IsolatedSpikesNeverStop(config: PolicyConfig, seed: u64, es: seq<Event>, k: nat)
    requires ValidConfig(config) && seed > 0 && k <= |es| && Undisturbed(config, es, k)
    requires config.requiredBreachSamples >= 2 && IsolatedSpikes(config, Samples(es, k))
    requires NeverBlind(config, Samples(es, k)) && NeverEmergency(config, Samples(es, k))
    ensures Live(After(Enforcing(config, seed), es, k)) && Calls(Enforcing(config, seed), es, k) == []
  {
    SpikesAreCalm(config, Samples(es, k));
    StopsExactlyWhenNotCalm(config, seed, es, k);
    WholeRunShape(Enforcing(config, seed), es, k);
  }
}
