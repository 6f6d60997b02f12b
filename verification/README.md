# Verified model of mlx-guard

mlx-guard supervises a process group on macOS: it samples the group's memory footprint, escalates from
a cooperative checkpoint to TERM to KILL when a limit is reached, and leaves a report that survives a
crash. This project models its safety logic in Dafny and proves properties of whole runs of it. Nothing
in it was executed.

| files | what they hold |
|---|---|
| `Common` | machine integers, saturating arithmetic, the bounded ring |
| `Policy`, `PolicyTable`, `PolicyRuns`, `EscalationTiming`, `SignalCauses`, `PolicyHistory`, `ObserveRuns` | the enforcement machine, the documented table it keeps, its runs, how long an escalation lasts and waits, what its memory means, and the observing mode |
| `Actuations`, `Intervention`, `Cascades`, `InterventionRuns`, `EngineEvidence`, `EvidenceDates`, `EvidenceTotals` | the engine that executes decisions through an arbitrary actuator and feeds failures back, and what its evidence means |
| `Identity`, `Tracking`, `Aggregates`, `Escapes`, `Sampling` | process graph walks, the identity tracker, what its totals and its escape counts mean, the sampler |
| `BigEndian`, `WireCodec`, `WireFormat`, `CheckpointProtocol`, `ProtocolTable`, `Worker`, `Exchange` | checkpoint frames and their published bytes, the supervisor's protocol state and its documented rules, the Python worker, and the exchange from callback to event |
| `Checksum`, `Journal`, `JournalLayout`, `JournalFiles`, `Report`, `ReportRules`, `ReportJournal` | the journal, its bytes, checksum and recovery, the report, its validator and replay |
| `ProcessActuator`, `Latches`, `Coherence`, `Reasons`, `Runtime` | the real actuator and channel, the run loop's event methods, labels and latches |
| `SignalRecords`, `RuntimeRuns`, `RunReasons`, `RunFlags`, `RunNegotiation`, `CheckpointRecords`, `RunTiming`, `RunCauses`, `QuietRuns`, `RunSamples`, `RunReports`, `LongRuns` | whole runs of the loop: what they attempt and journal and why, what their checkpoint record means, how long they escalate and wait, when they are never stopped, what their samples say, and the report they leave or lose |
| `Quantities`, `Configuration`, `ClientRuns`, `Formatting` | unit parsing, configuration from the Python client to the machine, the limits the loop then enforces, rounding formatters |

Each state-changing object is a class whose methods are proved to compute a transition function on plain
values; the theorems about steps, runs and round trips are lemmas about those functions. A `Duration` is
a number of nanoseconds up to the largest Rust duration, and 64-bit counters saturate where the code
saturates them. The actuator, snapshots, operating-system replies, short reads and failed writes are
arbitrary inputs. Record text is an abstract codec of which only `decode(encode(r)) == Some(r)` is
required. A byte becomes a 32-bit word bit by bit, because conversions between integers and bit-vectors
are costly to reason about; the checksum itself is on 32-bit words.

## What the code does where its documents say otherwise

- `docs/INTERVENTION.md` (lines 20-21) says a failed TERM or forwarded signal selects KILL. In an event
  whose clock regressed the failure is dropped: `EngineEvidence.FailedTermAfterRegression` is such a run,
  and `EngineEvidence.FailedSignalIsAnswered` gives the exact condition.
- `docs/POLICY.md` (line 17) lists the emergency KILL for the normal and warning states; the code sends it
  from the checkpoint-requested state too: `PolicyHistory.EmergencyDuringCheckpoint` is such a run, and
  `PolicyHistory.EmergencyKills` says exactly when a sample requests KILL.
- `docs/IDENTITY_AND_CONTAINMENT.md` (line 59) admits only observations with the owned PGID to the total;
  the code also counts the live root whatever its group. `Tracking.RootElsewhereIsCounted` is such a
  snapshot, and `Tracking.TotalIsTheGroupsUnlessRootLeft` gives the exact condition.
- A journal of more than 65,536 records is written without complaint but recovers as corrupt
  (`Journal.WholeFile`). An ordinary run gets there: `LongRuns.LongRunLosesReport` is one whose total swings
  around the warning band, is never stopped, and loses its report.
- A sampling window of zero length is recorded as zero milliseconds, which the report validator refuses,
  so one such kept sample costs the whole report (`RunReports.EmptyWindowLosesReport`); the condition
  `RunReports.KeptTookTime` on the inputs is part of what `RunReports.RunReport` proves.
- The Python client accepts a report, a working directory or an environment key that begins with a hyphen;
  the command line takes such a value for another flag and refuses it
  (`Configuration.HyphenReportIsRefused`, with the exact condition in `Configuration.ClientIsReadBack`).

## Model

| member | source | states |
|---|---|---|
| Policy.PolicyMachine.EnforceWithInitialRequestId | crates/mlx-guard-core/src/policy.rs:266-288 | construction fails exactly for an invalid configuration or a zero request seed, and otherwise gives the untouched enforcing machine |
| Policy.PolicyMachine.NewObserver | crates/mlx-guard-core/src/policy.rs:214-242 | the observing machine: maximal limits, the given quality bounds, and nothing started |
| Policy.PolicyMachine.Apply | crates/mlx-guard-core/src/policy.rs:325-367 | one event: nothing after exit, exits before the clock check, a regressed clock fails closed, otherwise the event's own transition; the whole new state and the actions equal the transition function the run theorems are about |
| Policy.PolicyMachine.ApplySample | crates/mlx-guard-core/src/policy.rs:384-448 | a sample in code order: quality, emergency, open checkpoint, limit streak, hysteresis band |
| Policy.PolicyMachine.ApplyMissing | crates/mlx-guard-core/src/policy.rs:450-472 | an unusable sample counts up and fails closed only at the allowed run, before any intervention |
| Policy.PolicyMachine.BeginGraceful | crates/mlx-guard-core/src/policy.rs:474-500 | checkpoint request with the next id and a saturating deadline, or TERM when no timeout is configured |
| Policy.PolicyMachine.ApplyCheckpointAck | crates/mlx-guard-core/src/policy.rs:502-522 | only the authenticated active id ends the checkpoint phase |
| Policy.PolicyMachine.ApplyTick | crates/mlx-guard-core/src/policy.rs:524-556 | checkpoint deadline, TERM deadline, wall limit, in that order and not before they are due; the whole new state and the actions equal the transition function that `PolicyTable.TickRows` and `SignalCauses` pin from both sides |
| Policy.PolicyMachine.ApplyExternalSignal | crates/mlx-guard-core/src/policy.rs:558-578 | forward once, KILL when a shutdown is already under way |
| Policy.PolicyMachine.ApplyRootExited | crates/mlx-guard-core/src/policy.rs:580-601 | survivor cleanup only before a shutdown |
| Policy.PolicyMachine.ApplyParentExited | crates/mlx-guard-core/src/policy.rs:603-615 | acts only before any intervention |
| Policy.PolicyMachine.ApplyActuationFailed | crates/mlx-guard-core/src/policy.rs:617-651 | checkpoint failure to TERM, TERM or forward failure to KILL, KILL failure to a reported error |
| Policy.PolicyMachine.ApplySupervisorFault | crates/mlx-guard-core/src/policy.rs:653-669 | fail closed, with TERM unless a signal was already requested |
| Policy.PolicyMachine.FailClock | crates/mlx-guard-core/src/policy.rs:671-691 | a regressed clock fails closed once, with the grace counted from the last good time |
| PolicyTable.SampleRows | docs/POLICY.md:14-16 | the documented rows for counted samples before anything has begun: bands, breach counting and the graceful path with its overshoot, id and deadline |
| PolicyTable.EmergencyRow | crates/mlx-guard-core/src/policy.rs:398-417 | a counted total at the emergency threshold kills at once and records its overshoot, from every state before an intervention |
| PolicyTable.LaterSampleRows | crates/mlx-guard-core/src/policy.rs:384-397 | once a checkpoint is awaited or a signal was sent, counted samples are only recorded, and counted after a signal |
| PolicyTable.MissingRows | crates/mlx-guard-core/src/policy.rs:450-472 | unusable samples count, and complete the allowed run with a TERM and its grace unless a signal was sent |
| PolicyTable.TickRows | docs/POLICY.md:18-22 | ticks do nothing before a deadline or the wall limit, and exactly the next phase at it |
| PolicyTable.DeadlineRow | crates/mlx-guard-core/src/policy.rs:312-322 | the deadline the machine asks to be woken at is exactly the one a tick waits for |
| PolicyTable.AcknowledgementRows | docs/POLICY.md:19 | only the authenticated acknowledgement of the open request ends the checkpoint phase; any other changes nothing but the clock |
| PolicyTable.FailureRows | docs/POLICY.md:21-24 | each kind of failed side effect leads to the documented next one |
| PolicyTable.SignalRows | crates/mlx-guard-core/src/policy.rs:558-578 | a received signal is forwarded once with its grace, and repeated it kills |
| PolicyTable.WorldRows | docs/POLICY.md:27-31 | root exit, parent exit and supervisor fault: who acts on them, with which disposition, and who ignores them |
| PolicyTable.EndRows | crates/mlx-guard-core/src/policy.rs:325-367 | exit is final whatever the clock says, and a clock that went back fails closed once with the grace from the last good time |
| PolicyRuns.StepKeepsInv | crates/mlx-guard-core/src/policy.rs:325-691 | every event keeps the state invariant: which deadline, id and streak each state carries, and the configuration unchanged |
| PolicyRuns.StepEscalates | crates/mlx-guard-core/src/policy.rs:325-691 | one event selects at most one side effect, the escalation phase never goes back, and each kind of effect needs and leads to its own phase |
| PolicyRuns.WholeRunShape | crates/mlx-guard-core/src/policy.rs:325-691 | over every event sequence the side effects are at most one checkpoint, then at most one TERM or forward, then only KILLs |
| PolicyRuns.NoRegression | crates/mlx-guard-core/src/policy.rs:325-367 | with nondecreasing times no event is ever taken for a clock regression |
| EscalationTiming.TermIsBounded | crates/mlx-guard-core/src/policy.rs:450-669 | from a TERM or forwarded signal, grace plus one tick gap to a KILL request, an exit or a reported error, whatever arrives in between |
| EscalationTiming.CheckpointIsBounded | crates/mlx-guard-core/src/policy.rs:474-669 | from a checkpoint request, timeout plus grace plus two tick gaps to the same end |
| EscalationTiming.EngineEscalationIsBounded | crates/mlx-guard-core/src/intervention.rs:522-582 | the same bounds for engine runs with an arbitrary failing actuator, the fed-back failures included, with ticks needed only as long as the bound |
| SignalCauses.EverySideEffectIsCaused | crates/mlx-guard-core/src/policy.rs:325-691 | over every ordered run, each selected side effect has its cause: a KILL at a tick comes no earlier than an earlier TERM or forward plus the grace, a timed-out TERM no earlier than its request plus the timeout, a graceful path only at a reached limit with that overshoot, an acknowledgement only for the open id, and the forwarded signal is the one received |
| SignalCauses.KillWaitsForGrace | crates/mlx-guard-core/src/policy.rs:539-546 | the lower bound alone: a KILL at a tick names an earlier opening whose grace has passed |
| SignalCauses.EveryAttemptIsCaused | crates/mlx-guard-core/src/intervention.rs:522-582 | the same for everything an engine run attempts, whatever the actuator replies, its fed-back failures included |
| PolicyHistory.HistoryRefinement | crates/mlx-guard-core/src/policy.rs:384-472 | until a signal is sent the missing streak, and until anything begins the breach streak and Normal or Warning, are functions of the sample history alone |
| PolicyHistory.SampleVerdict | crates/mlx-guard-core/src/policy.rs:384-472 | in every run that has sent no signal, a checkpoint in flight included: exactly when the next sample requests KILL, opens the graceful path, or sends the observation-failure TERM; missing samples do not reset the breach run |
| PolicyHistory.EmergencyKills | crates/mlx-guard-core/src/policy.rs:398-417 | in every state, a sample requests KILL if and only if no intervention has begun and its total is an emergency |
| PolicyHistory.EmergencyDuringCheckpoint | docs/POLICY.md:17 | the concrete run that is killed in the checkpoint-requested state, which the documented row leaves out |
| PolicyHistory.StopsExactlyWhenNotCalm | crates/mlx-guard-core/src/policy.rs:325-691 | after any event sequence at all, nothing has begun if and only if times never decreased, every other event was harmless (a stray acknowledgement or a tick before the wall limit) and the samples hold no emergency, required run of breaches or allowed run of unusable ones |
| PolicyHistory.IsolatedSpikesNeverStop | README.md:144-148 | with two required breaches, single sub-emergency spikes never make the machine select any side effect, whatever ticks and stray acknowledgements come between the samples |
| ObserveRuns.NeverActsOnItsOwn | docs/POLICY.md:13 | whatever it measures and whatever the clock, the root, the parent or the supervisor do, an observing machine selects no side effect until somebody asks for a signal |
| ObserveRuns.EngineNeverActs | crates/mlx-guard-core/src/intervention.rs:522-582 | the same under the engine: an arbitrary actuator is never called |
| ObserveRuns.GivesUpExactlyWhenBlind | crates/mlx-guard-core/src/policy.rs:450-472 | over samples and ticks in time order observation is given up exactly when a run of unusable samples has reached the allowed length |
| Intervention.InterventionEvidence.RecordAttempt | crates/mlx-guard-core/src/intervention.rs:404-425 | a full list evicts its oldest record and counts it as dropped |
| Intervention.InterventionEvidence.Observe | crates/mlx-guard-core/src/intervention.rs:427-443 | every earlier attempt gets its first-observation latency once, and its decrease latency at the first total below its own baseline |
| Intervention.InterventionEvidence.ObserveGroupEmpty | crates/mlx-guard-core/src/intervention.rs:445-451 | every earlier undated attempt gets the empty-group latency |
| Intervention.InterventionEngine.Handle | crates/mlx-guard-core/src/intervention.rs:522-582 | the queue loop terminates and computes the engine function: decisions, observed transitions and executed attempts in order |
| Intervention.InterventionEngine.ObserveGroupStatus | crates/mlx-guard-core/src/intervention.rs:494-511 | an empty group dates the evidence and stops; give up only in a supervisor error without deadline, else wait for the machine's deadline |
| Cascades.HandleIsCascade | crates/mlx-guard-core/src/intervention.rs:522-582 | the queue is a plain recursion: one side effect, then the one its failure selects |
| Cascades.FeedbackIsBounded | crates/mlx-guard-core/src/intervention.rs:522-582 | one event makes at most three actuator calls, and each after the first answers the failure before it |
| InterventionRuns.HandleIsPolicyRun | crates/mlx-guard-core/src/intervention.rs:522-582 | handling an event is a policy run on the event and the failures fed back, and tries exactly what that run selects |
| InterventionRuns.EngineRunIsPolicyRun | crates/mlx-guard-core/src/intervention.rs:522-582 | the same for whole engine runs |
| InterventionRuns.EngineEscalates | crates/mlx-guard-core/src/intervention.rs:522-582 | for every event sequence and every actuator the calls are Checkpoint? (Term or Forward)? Kill* |
| InterventionRuns.FeedbackKeepsOrder | crates/mlx-guard-core/src/intervention.rs:562-577 | failures are fed back at their event's time, so an ordered run stays ordered |
| EngineEvidence.TransitionsComeFirst | crates/mlx-guard-core/src/intervention.rs:516-545 | observed transitions form one contiguous path to the current state, each reported before the side effect it selects |
| EngineEvidence.FailedSignalIsAnswered | crates/mlx-guard-core/src/intervention.rs:567-578 | every failed TERM or forward of an event, one that answers a failed checkpoint included, is answered by KILL in the same event if and only if that event's clock did not regress; nothing else is answered but a failed checkpoint |
| EngineEvidence.FailedTermAfterRegression | docs/INTERVENTION.md:20-21 | the concrete run on which the documented KILL does not follow a failed TERM |
| EngineEvidence.RunFits | crates/mlx-guard-core/src/intervention.rs:404-425 | over a whole run the evidence is the last min(total, 64) attempts in order, with exact totals |
| EvidenceDates.RunDatesFirsts | crates/mlx-guard-core/src/intervention.rs:404-451 | over every engine run each kept record's latencies are to the first later sample, the first later sample below its baseline and the first later sight of an empty group, absent exactly when the run had none |
| EvidenceTotals.BaselineIsLatest | crates/mlx-guard-core/src/intervention.rs:522-567 | over every run each attempt's baseline is the total of the latest counted sample before it, absent exactly when there was none |
| EvidenceTotals.MaximumIsHighest | docs/INTERVENTION.md:39-40 | the maximum overshoot of a run is the highest any of its decisions told, zero when none did |
| EngineEvidence.SliceIsTheEvent | crates/mlx-guard-cli/src/runtime.rs:943-951 | the runtime's slice of the evidence is exactly the attempts of that event |
| Identity.DescendsFromRoot | crates/mlx-guard-core/src/identity.rs:380-397 | terminates on cyclic parent links and is true exactly when the chain of positive observed parents reaches the root |
| Aggregates.DescentIsAChain | crates/mlx-guard-core/src/identity.rs:380-397 | descending from the root is a chain of observed parents of positive pids that leads up to it |
| Identity.ListRelevantPids | crates/mlx-guard-core/src/identity.rs:734-760 | exactly the least set with the root, the tracked and the group pids that is closed under children; fails only when the listing of a required pid failed |
| Tracking.Aggregate | crates/mlx-guard-core/src/identity.rs:399-447 | overflow, exact total or typed partial total with every missing identity |
| Tracking.IdentityTracker.New | crates/mlx-guard-core/src/identity.rs:172-190 | construction fails exactly for an unbound root or group |
| Tracking.IdentityTracker.PrepareSnapshot | crates/mlx-guard-core/src/identity.rs:307-361 | the first observation of every pid, and every failure that is not a confirmed disappearance of another process |
| Tracking.IdentityTracker.Update | crates/mlx-guard-core/src/identity.rs:211-305 | one snapshot: tracked set, members, evidence, count and aggregate equal the scan function; who is followed and who escapes is told from the observations themselves in `Escapes.UpdateFollows` and `Escapes.EscapeCounting` |
| Tracking.CompleteIsExact | crates/mlx-guard-core/src/identity.rs:211-361 | a complete total is the exact sum over all live members of the snapshot, whatever was tracked before, with nothing unread and the root accounted for |
| Tracking.NothingMissingIsComplete | crates/mlx-guard-core/src/identity.rs:399-447 | the converse: when every live member was measured, nothing failed, the sum fits and the root is accounted for, the total is complete |
| Aggregates.AggregateTells | crates/mlx-guard-core/src/identity.rs:399-447 | told from the raw snapshot: the known bytes are the measured total of the live root and group by the first observation of each pid, the missing identities are exactly those nothing vouches for, and it is complete exactly when there are none and no failure was a loss |
| Tracking.TotalIsTheGroupsUnlessRootLeft | docs/IDENTITY_AND_CONTAINMENT.md:59 | every total is the sum over the owned group alone, as documented, if and only if the root is not first observed live with some bytes in another group |
| Tracking.RootElsewhereIsCounted | docs/IDENTITY_AND_CONTAINMENT.md:59 | the concrete snapshot whose complete total is a root outside the owned group |
| Escapes.UpdateFollows | crates/mlx-guard-core/src/identity.rs:211-305 | after a snapshot exactly these are followed: the first observation of each pid that is the root, in the owned group, a descendant of the root through observed parents, or was followed before |
| Escapes.EscapeCounting | crates/mlx-guard-core/src/identity.rs:137-164 | told from the raw snapshots: with ever escaped the live processes seen outside the group that descend from the root or were followed before, count and evidence equal the distinct ones up to 64; beyond, the count never falls below and evidence stays at 64 |
| Escapes.ParentsAreRemembered | crates/mlx-guard-core/src/identity.rs:249-286 | whoever is followed is remembered with the parent it was just observed with |
| Escapes.EscapeIsReported | crates/mlx-guard-core/src/identity.rs:287-304 | a frame reports an escape exactly when some followed process has been seen outside the group in this or an earlier snapshot |
| Escapes.RootExitIsRemembered | crates/mlx-guard-core/src/identity.rs:211-305 | the tracker remembers the root's exit exactly when some snapshot showed it |
| Escapes.EscapesAreMonotone | crates/mlx-guard-core/src/identity.rs:214-305 | neither the count nor the evidence ever shrinks |
| Sampling.NewSamplingConfig | crates/mlx-guard-core/src/sampling.rs:37-62 | accepted exactly within the interval, quality and capacity bounds, with the first violated bound named |
| Sampling.FootprintSampler.RecordSnapshot | crates/mlx-guard-core/src/sampling.rs:194-273 | clock discontinuities and failed snapshots leave the tracker alone; every sample is retained and numbered |
| Sampling.FootprintSampler.DelayUntilNext | crates/mlx-guard-core/src/sampling.rs:305-312 | the time left to the next window, an error exactly when the clock ran backwards |
| Sampling.PartialTotalNeverTriggers | crates/mlx-guard-core/src/sampling.rs:194-298 | a sample that opens a footprint intervention compares the exact, non-overflowing sum over all live members, with nothing failed and the root seen |
| Sampling.MeasuredExactly | crates/mlx-guard-core/src/sampling.rs:194-298 | a sample measures these bytes exactly when the clocks were in order and they are the fitting sum over all live members with nothing missing, and it is usable exactly within the window and age bounds |
| Sampling.PartialTells | crates/mlx-guard-core/src/sampling.rs:194-273 | a partial sample keeps the frame's known bytes, missing identities and failures |
| Sampling.HistoryIsLatest | crates/mlx-guard-core/src/sampling.rs:255-271 | the history is the latest samples in order and sample i carries number i |
| Checksum.Crc32 | crates/mlx-guard-core/src/persistence.rs:893-903 | the bit loop computes the checksum function |
| Checksum.ShiftInjective | crates/mlx-guard-core/src/persistence.rs:897-900 | one shift step never merges two values |
| Checksum.ShortErrorsDetected | crates/mlx-guard-core/src/persistence.rs:893-903 | any change confined to four consecutive bytes changes the checksum |
| Checksum.KnownChecksum | crates/mlx-guard-core/src/persistence.rs:893-903 | the checksum of a two-letter text is the published CRC-32 value |
| Journal.CrashPrefix | crates/mlx-guard-core/src/persistence.rs:573-648 | a cut at or after the magic of a log of any length recovers exactly the records wholly before it, up to 65,536; Complete on a boundary, Corrupt only inside a record past that limit, otherwise Truncated |
| Journal.WholeFile | crates/mlx-guard-core/src/persistence.rs:573-648 | an uncut file recovers completely exactly up to 65,536 records; a longer one stops Corrupt after them |
| Journal.DamageStopsRecovery | crates/mlx-guard-core/src/persistence.rs:611-646 | a payload damaged within four bytes, or any changed checksum, stops recovery Corrupt at that record with exactly the earlier ones |
| JournalLayout.RecordOnDisk | crates/mlx-guard-core/src/persistence.rs:354-394 | entry k of a journal stands directly after the ones before it: four length bytes, the payload of version 1 numbered k, four checksum bytes |
| JournalLayout.RecoveredIsThere | crates/mlx-guard-core/src/persistence.rs:573-648 | of any file at all recovery returns only records that stand in it, in order, undamaged, numbered from zero, at most 65,536, and its status says what the rest was |
| JournalFiles.SecureJournal.Append | crates/mlx-guard-core/src/persistence.rs:354-394 | refused exactly for a latched failure, version, sequence, durability or size, touching nothing; otherwise it appends one entry unless a write or sync fails, and that latches with at most one more frame, whole after a failed sync, in the file |
| JournalFiles.SecureJournal.Flush | crates/mlx-guard-core/src/persistence.rs:401-410 | it fails exactly when the journal is latched now, and a failed synchronization latches it against later writes |
| JournalFiles.ResilientJournal.Record | crates/mlx-guard-core/src/persistence.rs:151-168 | the first failure is final, reported as such from then on, and never retried |
| JournalFiles.RunJournal.Record | crates/mlx-guard-cli/src/runtime.rs:1966-1976 | while persistence works the runtime's record is appended next or the disk failed; it is refused only for durability or size, never for its sequence number |
| JournalFiles.FileRecovers | crates/mlx-guard-core/src/persistence.rs:354-394 | after any failure and at any length the file recovers to the appended entries, at most the failed one besides, up to 65,536; corrupt only beyond that many, and always when more were appended |
| JournalFiles.SyncedSurvive | crates/mlx-guard-core/src/persistence.rs:343-394 | whatever a crash leaves of the file down to its synchronized part, recovery returns every appended entry that had to be synchronized, with all before it, up to 65,536 |
| JournalFiles.JournalReader.ReadRemaining | crates/mlx-guard-core/src/persistence.rs:881-891 | exact reads over arbitrarily short ones, failing only when a read failed |
| JournalFiles.JournalReader.Recover | crates/mlx-guard-core/src/persistence.rs:573-648 | the recovery loop returns what the bytes determine, however they are delivered, unless a read failed |
| Report.ToReport | crates/mlx-guard-core/src/persistence.rs:655-726 | the replay loop accepts exactly the well-shaped sequences whose report is valid, and returns that report |
| ReportRules.ValidatorKeepsRules | crates/mlx-guard-core/src/report.rs:663-889 | the validator's walk over neighbours and its folded latest time accept exactly the reports that keep the declared rules, and the configuration and the calibration are blamed exactly for theirs |
| Report.ComponentsRoundTrip | crates/mlx-guard-core/src/persistence.rs:417-478 | writing any report as components and replaying them gives the same report, accepted exactly when valid |
| Report.CutSequenceIsRefused | crates/mlx-guard-core/src/persistence.rs:655-726 | no proper prefix of an acceptable sequence is acceptable |
| ReportJournal.AppendReport | crates/mlx-guard-core/src/persistence.rs:417-478 | success leaves exactly the report's components in the journal, failure a prefix of them; invalid reports and used journals are refused untouched, a component only for its size or a stricter durability rule, and any other failure is the disk's |
| ReportJournal.RecordAll | crates/mlx-guard-cli/src/runtime.rs:1037-1039 | entries handed over one by one are all in the journal or it latched after a prefix of them, and with the runtime's durabilities only an oversized record is refused |
| ReportJournal.FileReplays | crates/mlx-guard-core/src/persistence.rs:573-726 | a journal file finalizes to what replaying its entries gives, within the record count recovery accepts |
| ReportJournal.CutFileGivesNothing | crates/mlx-guard-core/src/persistence.rs:573-726 | a file of well-shaped entries gives nothing when cut or longer than recovery accepts, and what its entries replay to otherwise |
| ReportJournal.FailedDiskGivesNothing | crates/mlx-guard-core/src/persistence.rs:573-726 | the file of a log whose writing failed before its last entry gives nothing, whatever part of the failed record reached it |
| ReportJournal.ReportSurvives | crates/mlx-guard-core/src/persistence.rs:417-478 | a valid report of up to 65,536 records survives its journal file exactly, a longer one never, and any cut of the file yields no report |
| BigEndian.DecodeOfEncode | crates/mlx-guard-core/src/checkpoint.rs:799-808 | fixed-width big-endian numbers decode to themselves |
| WireCodec.FrameIsBody | crates/mlx-guard-core/src/checkpoint.rs:810-823 | a frame holds a body of the expected length exactly when it is that body's encoding |
| WireCodec.RequestCodec | crates/mlx-guard-core/src/checkpoint.rs:120-136 | a request frame is accepted as r exactly when it is the encoding of r with nonzero id and deadline |
| WireCodec.NegotiationCodec | crates/mlx-guard-core/src/checkpoint.rs:779-797 | hello and ready frames are accepted exactly when they encode that nonce |
| WireCodec.AcknowledgementCodec | crates/mlx-guard-core/src/checkpoint.rs:825-868 | an acknowledgement frame is accepted as a exactly when it is the encoding of a, artifact fields included |
| WireCodec.WorkerSpeaksTheSameWire | python/mlx_guard/_checkpoint.py:218-314 | hello, ready, request and acknowledgement frames mean the same in both languages |
| WireFormat.NegotiationIsLaidOut | docs/CHECKPOINT_PROTOCOL.md:55 | a frame is the hello or the ready frame of a nonce exactly when it has the published bytes |
| WireFormat.RequestIsLaidOut | docs/CHECKPOINT_PROTOCOL.md:56 | the same for requests, offset by offset |
| WireFormat.AcknowledgementIsLaidOut | docs/CHECKPOINT_PROTOCOL.md:57 | the same for acknowledgements, with every status, artifact kind and size flag |
| CheckpointProtocol.CheckpointProtocol.BeginRequest | crates/mlx-guard-core/src/checkpoint.rs:328-353 | one request per run, with the code's refusal order |
| CheckpointProtocol.CheckpointProtocol.Ingest | crates/mlx-guard-core/src/checkpoint.rs:357-410 | state checks, deadline, reassembly, nonce and id, in code order, and the whole new state |
| CheckpointProtocol.CheckpointProtocol.ReceiveFrame | crates/mlx-guard-core/src/checkpoint.rs:412-442 | bounded reassembly: oversized and overlong input clears the buffer, a whole frame empties it |
| CheckpointProtocol.CheckpointProtocol.EndpointExit | crates/mlx-guard-core/src/checkpoint.rs:446-462 | leftover bytes are reported and the exchange is cancelled for good |
| CheckpointProtocol.CheckpointProtocol.Cancel | crates/mlx-guard-core/src/checkpoint.rs:465-478 | cancellation is never read as success |
| ProtocolTable.AfterTheEnd | docs/CHECKPOINT_PROTOCOL.md:68-73 | data after the end changes nothing and is refused as duplicate, late, after cancellation or after the worker's exit, by how the exchange had ended |
| ProtocolTable.OutsideTheWindow | docs/CHECKPOINT_PROTOCOL.md:68-73 | data before any request is malformed, and at or after the deadline late, whatever it is |
| ProtocolTable.WhileOpen | docs/CHECKPOINT_PROTOCOL.md:68-73 | while a request is open partial frames wait, oversized, overlong, foreign and replayed ones are dropped with their own rejection and leave it open, and only its answer settles it, into the state of its status |
| ProtocolTable.Opening | crates/mlx-guard-core/src/checkpoint.rs:328-353 | a request is opened exactly by an idle exchange under a nonzero id and a deadline still to come that fits 64 bits, each refusal named, and its frame reads as that request |
| ProtocolTable.Ending | crates/mlx-guard-core/src/checkpoint.rs:446-478 | cancelling or losing the worker ends the exchange and reports what was left of a frame |
| CheckpointProtocol.RunKeepsInv | crates/mlx-guard-core/src/checkpoint.rs:328-478 | between calls the buffer is shorter than 132 bytes and never holds a complete frame |
| CheckpointProtocol.AcknowledgedAtMostOnce | crates/mlx-guard-core/src/checkpoint.rs:328-478 | over every call sequence at most one acknowledgement is returned: for an opened request, under the own nonce and that id, strictly before its deadline |
| CheckpointProtocol.ChunkingInvariance | crates/mlx-guard-core/src/checkpoint.rs:357-442 | however a matching acknowledgement is cut, empty chunks included, it is returned exactly once and leaves the same state |
| CheckpointProtocol.AcceptedAfterRejections | crates/mlx-guard-core/src/checkpoint.rs:357-442 | any number of foreign or meaningless whole frames, cut in any way, cannot keep a later valid acknowledgement from being accepted once |
| Worker.Channel.ReadExact | python/mlx_guard/_checkpoint.py:261-270 | exact reads over short ones; a closed channel is reported only when the stream really ends, a failed read only when one failed |
| Worker.Channel.ReadFrame | python/mlx_guard/_checkpoint.py:248-258 | the next whole frame of the stream, or the code's refusal, unless a receive failed |
| Worker.CheckpointWorker.Poll | python/mlx_guard/_checkpoint.py:170-193 | the callback runs at most once, on a request under the worker's nonce, and only that request is answered, with its response or a failure; it is refused only if it is no such request or the channel failed |
| Worker.ExchangeCompletes | python/mlx_guard/_checkpoint.py:170-291 | a request the supervisor opens reaches the callback unchanged, and the response, cut into any chunks before the deadline, is accepted exactly once as sent |
| ProcessActuator.ReadyMeansOwnNonce | crates/mlx-guard-core/src/checkpoint.rs:636-668 | readiness is reached exactly on the last byte of a ready frame under the channel's nonce |
| ProcessActuator.AbsenceIsShown | crates/mlx-guard-core/src/intervention.rs:311-336 | a refused group signal counts as the command having ended exactly when the scan saw no live member and every unread process is a confirmed disappearance |
| ProcessActuator.GroupSignalFailsExactly | crates/mlx-guard-core/src/intervention.rs:232-280 | a group signal fails exactly when the call failed, or was refused while a member is alive |
| ProcessActuator.CheckpointFailsExactly | crates/mlx-guard-core/src/intervention.rs:243-281 | a checkpoint is delivered exactly when a ready idle channel takes the request, its frame is written and its signal delivered, each failure named, and the exchange is cancelled when only the signal failed |
| ProcessActuator.PollAnswersTheRequest | crates/mlx-guard-core/src/intervention.rs:152-204 | an open request can be acknowledged only under its own id before its deadline, and artifacts come only with an acknowledgement; which answer is one is `ProcessActuator.PollMeans` |
| ProcessActuator.PollMeans | crates/mlx-guard-core/src/intervention.rs:152-204 | from the bytes read: a completed answer to the open request, and nothing else, is seen as an acknowledgement with the artifact it carried; any other answer to it as a rejected checkpoint; a closed channel as an unavailable one; and everything else as nothing |
| ProcessActuator.PollLeaves | crates/mlx-guard-core/src/checkpoint.rs:690-740 | what one poll leaves in the channel: timed out at the deadline, ended when the worker is gone, the bytes ingested, otherwise untouched |
| Exchange.CallbackDecides | python/mlx_guard/_checkpoint.py:170-291 | from the callback to the event: the worker is asked under the same id and deadline, and its answer, cut into any nonempty chunks before the deadline, is seen once, as an acknowledgement with its artifact exactly when the callback returned a completed response |
| Coherence.EventKeepsCoherent | crates/mlx-guard-cli/src/runtime.rs:878-991 | one event keeps labels, checkpoint latches, machine and wire protocol in agreement, and records every side effect with a reason |
| Reasons.EventHasOneReason | crates/mlx-guard-cli/src/runtime.rs:1804-1890 | all side effects of one event are recorded with one reason, and it is the event's own: the limit it breached, the observation it lost, what the world asked for, or the shutdown it escalates |
| Runtime.RunRuntime.ApplyEvent | crates/mlx-guard-cli/src/runtime.rs:878-897 | label, acknowledgement latch, engine, intervention flag and signal records, as one state change |
| Runtime.RunRuntime.HandleEventAndLog | crates/mlx-guard-cli/src/runtime.rs:901-951 | every transition is journaled and latched in order, and the returned records are the new slice of the evidence; what the journaled transitions say is `SignalRecords.LogTellsMoves` |
| Runtime.RunRuntime.RecordActuations | crates/mlx-guard-cli/src/runtime.rs:954-991 | attempts are labelled and journaled one by one, each under the labels the ones before it left |
| Runtime.RunRuntime.PollCheckpointChannel | crates/mlx-guard-cli/src/runtime.rs:813-851 | negotiation until decided, then one poll of an open request, artifact latched before its event |
| Runtime.RunRuntime.SampleOnce | crates/mlx-guard-cli/src/runtime.rs:853-876 | a sample is retained, journaled while the history has room, and decided on |
| Runtime.RunRuntime.RecordTerminal | crates/mlx-guard-cli/src/runtime.rs:993-1035 | the closing records, preceded by a rewritten history exactly when it had wrapped |
| RuntimeRuns.ApplyKeeps | crates/mlx-guard-cli/src/runtime.rs:878-991 | an applied event records exactly the attempts it made |
| SignalRecords.LogTells | crates/mlx-guard-cli/src/runtime.rs:954-991 | the journaled signals of an event are exactly its attempts that sent something, in order, each with its time, number, target, result and a reason, spelled out |
| SignalRecords.LogTellsMoves | crates/mlx-guard-cli/src/runtime.rs:932-941 | the journaled transitions of an event are exactly its moves, in order, each with its time, where it came from, where it went and the total known |
| RuntimeRuns.RunIsCoherent | crates/mlx-guard-cli/src/runtime.rs:813-991 | over every run, clock regressions and system failures included: the checkpoint record is valid and its reason is a limit; the journaled signals tell exactly what the run attempted and sent; they are at most one endpoint signal, then at most one TERM or forward, then only KILLs; and the journaled transitions tell exactly the machine's moves, each with the latest retained total, from the first state to the last without a gap |
| RunReasons.RunTellsWhy | crates/mlx-guard-cli/src/runtime.rs:954-991 | over every run each journaled signal gives the reason of the event that made the run send it |
| RunReasons.RunMovesLabels | crates/mlx-guard-cli/src/runtime.rs:878-991 | at every input of every run the shutdown label becomes the reason of the signals just sent or of a signal received, nothing else relabels it, and the cause is latched once, by the limit that ended normal supervision |
| RunFlags.RunFlagsTell | crates/mlx-guard-cli/src/runtime.rs:878-941 | a run counts as having intervened exactly when something other than a received signal or the root's exit made it try a side effect, and its diagnostic is that of the first event that ended in a supervisor error |
| RunNegotiation.PollReadyTells | crates/mlx-guard-core/src/checkpoint.rs:636-668 | what one poll for readiness does to the channel and answers, for every read |
| RunNegotiation.RunNegotiates | crates/mlx-guard-cli/src/runtime.rs:813-829 | over every run negotiation stands where the reads of its polls say: pending while they are part of a readiness frame, ready exactly when, cut in any way, they were one under the run's nonce, and otherwise unavailable, as at once without a channel |
| CheckpointRecords.EventMovesRecord | crates/mlx-guard-cli/src/runtime.rs:878-991 | one event moves the checkpoint record only by an acknowledgement of the open request, a delivered or failed request or a timed-out TERM, and exactly so |
| CheckpointRecords.RecordIsTheExchange | crates/mlx-guard-cli/src/runtime.rs:813-991 | over every run the record is acknowledged exactly when some poll read the last byte of a completed acknowledgement under the run's nonce and the open id before its deadline, and then carries that id, artifact and time; it names a request exactly when one was delivered, and is timed out exactly when a TERM was tried for silence |
| CheckpointRecords.StatusNext | docs/REPORTS.md:46-52 | which parts of the record are present follows its status as documented, kept by every input of a run |
| RunTiming.RunEscalationIsBounded | crates/mlx-guard-cli/src/runtime.rs:727-794 | the escalation bounds for runs of the loop itself with the real actuator, from its own ticks and inputs |
| RunCauses.EveryAttemptIsCaused | crates/mlx-guard-cli/src/runtime.rs:727-794 | everything a run of the loop attempts was selected at its own time for an event that is its documented cause, with the lower bounds of `SignalCauses` |
| RunCauses.KillWaitsForGrace | crates/mlx-guard-cli/src/runtime.rs:777-779 | a run kills at a tick only after the grace of a TERM or forwarded signal selected for it before |
| QuietRuns.QuietRunIsStoppedExactlyWhenNotCalm | crates/mlx-guard-cli/src/runtime.rs:727-794 | a run of samples, polls and ticks before the wall limit stays untouched, with nothing attempted, if and only if the samples it decided on are calm |
| QuietRuns.SpikingJobIsNeverStopped | README.md:144-148 | a measured job that only spikes one sample at a time below the emergency threshold is never stopped by the loop: nothing is attempted and no signal is journaled |
| RunSamples.WindowTells | crates/mlx-guard-cli/src/runtime.rs:853-876 | a retained window tells its sample: the exact total if and only if there is one, unknown when something was missing, otherwise why there is none, with its clock readings |
| RunSamples.ReportTellsEscapes | crates/mlx-guard-cli/src/runtime.rs:1005-1013 | the escapes in a run's report are those of the good snapshots it took: detected exactly when there was one, and counted exactly while at most 64 |
| RunReports.StartFits | crates/mlx-guard-cli/src/runtime.rs:378-411 | a runtime built on a valid policy, a nonzero request seed and an unused channel is one the run theorems apply to |
| RunReports.HistoryCloses | crates/mlx-guard-cli/src/runtime.rs:1018-1035 | before the closing records the journal replays to exactly the latest min(n, 4096) samples, rewritten or not |
| RunReports.RunReport | crates/mlx-guard-cli/src/runtime.rs:813-1035 | the whole journal of an ordered run is well shaped; its report keeps exactly the latest samples, tells exactly the signals sent with the reasons of their events and exactly the moves made as one path with the latest totals, carries the escapes counted and the latched checkpoint record, and is accepted exactly when every kept sample took time and the parts the inputs do not settle are acceptable |
| RunReports.EmptyWindowLosesReport | crates/mlx-guard-cli/src/runtime.rs:853-876 | a run with one sample whose two clock readings are equal replays to no report |
| RunReports.RunSurvivesItsJournal | crates/mlx-guard-cli/src/runtime.rs:853-1035 | an ordered run's journal file gives back that report, if accepted and within 65,536 records, nothing beyond them, and any cut of the file gives none |
| RunReports.FailedDiskLosesReport | crates/mlx-guard-cli/src/runtime.rs:993-1039 | an ordered run whose disk failed before the outcome record finalizes to no report, and one whose outcome record failed to none or the whole |
| LongRuns.LongRunLosesReport | crates/mlx-guard-cli/src/runtime.rs:853-951 | an in-order run of 65,536 samples or more that swings around the warning band stays untouched, journals more records than recovery accepts, and its file gives no report |
| Quantities.ParseBytesExactly | crates/mlx-guard-cli/src/lib.rs:193-212 | accepted exactly when the text spells the amount in plain digits and one of the five units |
| Quantities.ParseDurationExactly | crates/mlx-guard-cli/src/lib.rs:219-232 | the same for the four duration units |
| Quantities.UnitsAsDocumented | docs/CLI.md:61-68 | what each of the nine documented suffixes stands for, for every positive count |
| Configuration.ArgvFor | python/mlx_guard/_client.py:523-553 | the argument list, in the order the client writes it |
| Configuration.ClientIsReadBack | python/mlx_guard/_client.py:89-120 | the command line applies the client's checks of the four numeric options, and reads back every option of a configuration the client accepts, exactly when no path or environment key begins with a hyphen and the descriptor is above 2 |
| Configuration.EveryOptionIsReadBack | python/mlx_guard/_client.py:523-553 | a configuration that uses every option is accepted by both sides and read back option by option |
| Configuration.HyphenReportIsRefused | crates/mlx-guard-cli/src/lib.rs:401-427 | a configuration the client accepts and the command line refuses, for its report name |
| Configuration.LineRules | crates/mlx-guard-cli/src/lib.rs:401-427 | a line is refused when it repeats a flag other than `--env`, or lacks the limit, the report or the command |
| Configuration.DefaultsAsDocumented | docs/CLI.md:61-68 | the shortest accepted line and the defaults it stands for |
| Configuration.AcceptedOptionsConstruct | crates/mlx-guard-cli/src/runtime.rs:1715-1738 | accepted options give ordered bands without saturation, a machine and sampler that cannot be refused, and a valid report configuration; what each field is, in the client's numbers, is `ClientRuns.ClientConfigures` |
| ClientRuns.ClientConfigures | crates/mlx-guard-cli/src/runtime.rs:1694-1738 | every number of a client's configuration, and every default, is what the policy machine and the sampler are built with and what the report says |
| ClientRuns.WallTimeIsEnforced | crates/mlx-guard-cli/src/runtime.rs:1715-1738 | an untouched machine ignores ticks before the client's wall time and asks for the checkpoint at the first one at or after it |
| ClientRuns.FootprintIsEnforced | crates/mlx-guard-cli/src/runtime.rs:1715-1738 | an untouched machine kills at a tenth above the client's limit and asks for the checkpoint at the second counted sample in a row at the limit |
| ClientRuns.WallTimeStopsTheRun | crates/mlx-guard-cli/src/runtime.rs:727-794 | the same in the loop: the tick at or after the client's wall time makes an untouched run ask its worker for the checkpoint |
| Formatting.BytesAgree | python/mlx_guard/_explain.py:209-219 | both languages print every byte count alike |
| Formatting.BytesAreFaithful | crates/mlx-guard-core/src/explain.rs:249-268 | off by at most half of the last digit, never 1024.00 KiB or MiB |
| Formatting.BytesAreMonotone | crates/mlx-guard-core/src/explain.rs:249-268 | a larger count is never printed smaller, across all unit steps |
| Formatting.TwoDigitsSpell | crates/mlx-guard-core/src/explain.rs:249-268 | hundredths are printed as two digits of their own value |
| Formatting.ComparedAreDistinct | crates/mlx-guard-core/src/explain.rs:322-333 | compared values are printed alike exactly when they are equal |
| Formatting.DurationsAreFaithful | crates/mlx-guard-core/src/explain.rs:271-292 | off by at most half of the last unit, and never a remainder of 60 |
| Formatting.DurationsAreMonotone | crates/mlx-guard-core/src/explain.rs:271-292 | a longer duration is never printed shorter |
| Formatting.BytesAsTested | crates/mlx-guard-core/src/explain.rs:1123-1142 | the texts the byte formatter's own tests print |
| Formatting.DurationsAsTested | crates/mlx-guard-core/src/explain.rs:1237-1248 | the texts the duration formatter's own tests print |

## Left out

- Native system calls, signal handlers, pipes, sockets, process launch and the sleeping outer loops: every result they can hand to the modelled methods is an input.
- Paths, permissions, `openat` and `rename`: a journal is its byte string. A synchronization is taken to make everything written before it durable, a crash to keep at least that, and `CrashPrefix` allows any cut after the magic.
- JSON text: the codec is abstract.
- Command-line syntax the client never writes: attached values (`--flag=value`), help and version requests, and the observe command.
- Report header fields (identity, version, capabilities, privacy), advisory metrics and the calibration artifact: they are values of a type parameter with an arbitrary validity rule.
- ReportRules.ValidatorKeepsRules: takes the header's rules as one, although the code checks privacy after the configuration, so which of the two it would blame first is not stated.
- The containment event list, the per-pid records behind it and the member list of a sample: they do not reach the policy.
- The completion table that turns the supervisor diagnostic and the counted-intervention flag into an outcome: what the two mean over a run is `RunFlags.RunFlagsTell`.
- The observe-only runtime, `completion.rs`, `outcome.rs`, the advisory projections and the rule tables of the explanations: short case tables.
- The Python client's type checks, its sorting of the environment and the encoding of paths: a configuration is its normalized form, as text.
- The actuator and its channel are values, not objects: the engine's actuator is passed by value through an arbitrary function, so sharing of one channel between two owners is not represented.
- Intervention.InterventionEngine.Handle: reports transitions and executions as one ordered trace instead of calling an observer back, so an observer that itself changes the engine is not represented.
- JournalFiles.JournalReader.Recover: a failing read, which a ghost flag marks, may happen at any point and then says only that it failed, because nothing about the file can be concluded from it.
- RuntimeRuns.RunIsCoherent: has the same bound as `RunReports.RunReport`, for the same reason.
- RunReports.RunReport: needs 3 x inputs + 3 to fit 64 bits, because the runtime finds an event's attempts by the difference of a saturating 64-bit counter.
- Sampling.FootprintSampler.RecordSnapshot: starts from the snapshot; the scan that fills it is `Identity.ListRelevantPids` with an abstract child listing.
