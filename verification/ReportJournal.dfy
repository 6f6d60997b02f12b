/** Reports through the journal (persistence.rs): appending a report as records, and the report a
    journal file, whole or cut short, gives back. */
module ReportJournal {
  import opened Common
  import Journal
  import opened JournalFiles
  import opened Report

  function EntriesOf<E>(records: seq<Journal.Record<E>>): (r: seq<E>)
    ensures |r| == |records| && forall i :: 0 <= i < |r| ==> r[i] == records[i].entry
  {
    if records == [] then [] else [records[0].entry] + EntriesOf(records[1..])
  }

  /** The report a recovery finalizes to. */
  function FinalReport<X>(rules: Rules<X>, recovery: Journal.Recovery<Entry<X>>): Option<Report<X>> {
    if recovery.status.Complete? then Replay(rules, EntriesOf(recovery.records)) else None
  }

  /** A journal file recovered and finalized. */
  function ReportOfFile<X>(c: Journal.Codec<Entry<X>>, rules: Rules<X>, file: Bytes): Option<Report<X>> {
    match Journal.RecoverFile(c, file)
    case Ok(recovery) => FinalReport(rules, recovery)
    case Err(_) => None
  }

  /** Entry `n` is one the journal must refuse: too large, or given a weaker durability than its
      rule demands when each entry is written with the durability its kind needs. */
  ghost predicate RefusedAt<X>(c: Journal.Codec<Entry<X>>, rule: Entry<X> -> bool, all: seq<Entry<X>>, n: nat) {
    n < |all| && (|c.encode(Journal.RecordAt(n, all[n]))| > Journal.MAX_RECORD_BYTES
                  || (rule(all[n]) && !RequiresSync(all[n])))
  }

  /** `r` is what appending `all` to a working journal may return: success, a refusal of the first
      entry not appended, or a system failure, which latches the journal. */
  ghost predicate Explained<X(!new)>(journal: SecureJournal<Entry<X>>, r: Result<(), StorageError>, all: seq<Entry<X>>)
    reads journal
  {
    match r
    case Ok(_) => !journal.failed && journal.entries == all
    case Err(InvalidAppend) =>
      && journal.entries <= all && !journal.failed
      && RefusedAt(journal.codec, journal.requiresSync, all, |journal.entries|)
    case Err(_) => journal.entries <= all && journal.failed
  }

  lemma ExplainedWithin<X(!new)>(journal: SecureJournal<Entry<X>>, r: Result<(), StorageError>,
                                 part: seq<Entry<X>>, all: seq<Entry<X>>)
    requires Explained(journal, r, part) && part <= all && r.Err?
    ensures Explained(journal, r, all)
  {
  }

  method AppendNext<X(!new)>(journal: SecureJournal<Entry<X>>, entry: Entry<X>, durability: Durability)
    returns (r: Result<(), StorageError>)
    requires journal.Valid() && (durability.Sync? <==> RequiresSync(entry))
    modifies journal
    ensures journal.Valid()
    ensures old(journal.failed) ==> r == Err(InvalidAppend)
    ensures !old(journal.failed) ==> Explained(journal, r, old(journal.entries) + [entry])
    ensures r.Err? ==> journal.entries == old(journal.entries)
  {
    hide Journal.Log, Journal.Frame;
    r := journal.Append(Journal.Record(Journal.RECORD_VERSION, journal.nextSequence, entry), durability);
    assert (old(journal.entries) + [entry])[|old(journal.entries)|] == entry;
  }

  /** Append one list of components in order. */
  method AppendAll<X(!new)>(journal: SecureJournal<Entry<X>>, batch: seq<Entry<X>>, durability: Durability)
    returns (r: Result<(), StorageError>)
    requires journal.Valid() && !journal.failed
    requires forall e :: e in batch ==> (durability.Sync? <==> RequiresSync(e))
    modifies journal
    ensures journal.Valid() && Explained(journal, r, old(journal.entries) + batch)
  {
    hide Journal.Log, Journal.Frame, RefusedAt;
    r := Ok(());
    assert batch[..0] == [];
    for i := 0 to |batch|
      invariant r.Ok? && journal.Valid() && !journal.failed
      invariant journal.entries == old(journal.entries) + batch[..i]
    {
      assert batch[i] in batch && batch[..i] + [batch[i]] == batch[..i + 1] <= batch;
      r := AppendNext(journal, batch[i], durability);
      if r.Err? {
        ExplainedWithin(journal, r, old(journal.entries) + batch[..i] + [batch[i]], old(journal.entries) + batch);
        return;
      }
    }
    assert batch[..|batch|] == batch;
  }

  /** The header and the three lists. */
  function Listed<X>(r: Report<X>): seq<Entry<X>> {
    [Header(r.header, r.configuration)] + SampleEntries(r.samples) + TransitionEntries(r.transitions)
    + SignalEntries(r.signals)
  }

  lemma ListsNeedTheirDurability<X>(r: Report<X>)
    ensures forall e :: e in SampleEntries(r.samples) ==> !RequiresSync(e)
    ensures forall e :: e in TransitionEntries<X>(r.transitions) ==> RequiresSync(e)
    ensures forall e :: e in SignalEntries<X>(r.signals) ==> RequiresSync(e)
    ensures forall e :: e in ErrorEntries<X>(r.artifactErrors) ==> !RequiresSync(e)
  {
  }

  method AppendListed<X(!new)>(journal: SecureJournal<Entry<X>>, report: Report<X>)
    returns (r: Result<(), StorageError>)
    requires journal.Valid() && journal.entries == []
    modifies journal
    ensures journal.Valid()
    ensures old(journal.failed) ==> r == Err(InvalidAppend) && journal.entries == []
    ensures !old(journal.failed) ==> Explained(journal, r, Listed(report))
  {
    hide Journal.Log, Journal.Frame, SampleEntries, TransitionEntries, SignalEntries, RefusedAt;
    ghost var head: seq<Entry<X>> := [Header(report.header, report.configuration)];
    ghost var sampled := head + SampleEntries(report.samples);
    ghost var moved := sampled + TransitionEntries(report.transitions);
    ListsNeedTheirDurability(report);
    assert journal.entries + head == head;
    assert moved + SignalEntries(report.signals) == Listed(report);
    r := AppendNext(journal, Header(report.header, report.configuration), Sync);
    if r.Err? {
      if !old(journal.failed) {
        ExplainedWithin(journal, r, head, Listed(report));
      }
      return;
    }
    r := AppendAll(journal, SampleEntries(report.samples), Buffered);
    if r.Err? {
      ExplainedWithin(journal, r, sampled, Listed(report));
      return;
    }
    r := AppendAll(journal, TransitionEntries(report.transitions), Sync);
    if r.Err? {
      ExplainedWithin(journal, r, moved, Listed(report));
      return;
    }
    r := AppendAll(journal, SignalEntries(report.signals), Sync);
  }

  method AppendRest<X(!new)>(journal: SecureJournal<Entry<X>>, report: Report<X>)
    returns (r: Result<(), StorageError>)
    requires journal.Valid() && !journal.failed && journal.entries == Listed(report)
    modifies journal
    ensures journal.Valid() && Explained(journal, r, ReportEntries(report))
  {
    hide Journal.Log, Journal.Frame, Listed, ErrorEntries, RefusedAt;
    ghost var checked := Listed(report) + [Checkpoint(report.checkpoint)];
    ghost var stated := checked + [Escape(report.escape)];
    ghost var erred := stated + ErrorEntries(report.artifactErrors);
    ghost var whole := ReportEntries(report);
    ListsNeedTheirDurability(report);
    ReportInParts(report);
    r := AppendNext(journal, Checkpoint(report.checkpoint), Sync);
    if r.Err? {
      ExplainedWithin(journal, r, checked, whole);
      return;
    }
    r := AppendNext(journal, Escape(report.escape), Buffered);
    if r.Err? {
      ExplainedWithin(journal, r, stated, whole);
      return;
    }
    r := AppendAll(journal, ErrorEntries(report.artifactErrors), Buffered);
    if r.Err? {
      ExplainedWithin(journal, r, erred, whole);
      return;
    }
    if report.calibration.Some? {
      r := AppendNext(journal, Calibration(report.calibration.value), Buffered);
      if r.Err? {
        ExplainedWithin(journal, r, erred + [Calibration(report.calibration.value)], whole);
        return;
      }
    }
    r := AppendNext(journal, Outcome(report.outcome), Sync);
  }

  lemma ReportInParts<X>(r: Report<X>)
    ensures var stated := Listed(r) + [Checkpoint(r.checkpoint)] + [Escape(r.escape)];
            var erred := stated + ErrorEntries(r.artifactErrors);
            && Listed(r) + [Checkpoint(r.checkpoint)] <= ReportEntries(r)
            && stated <= ReportEntries(r) && erred <= ReportEntries(r)
            && ReportEntries(r)
               == (if r.calibration.Some? then erred + [Calibration(r.calibration.value)] else erred) + [Outcome(r.outcome)]
            && BeforeOutcome(r) <= ReportEntries(r)
  {
    hide SampleEntries, TransitionEntries, SignalEntries, ErrorEntries;
  }

  /** Append a report. An invalid report or a journal that is not fresh is refused untouched. Otherwise
      success means the report's components, all of them in order, are what the journal holds; a refusal
      comes from one component that is too large or under a stricter durability rule than its kind's; and
      any other failure is the disk's. */
  method AppendReport<X(!new)>(journal: SecureJournal<Entry<X>>, rules: Rules<X>, report: Report<X>)
    returns (r: Result<(), StorageError>)
    requires journal.Valid()
    modifies journal
    ensures journal.Valid()
    ensures !ValidReport(rules, report) || old(journal.nextSequence) != 0 || old(journal.failed) ==>
              r == Err(InvalidAppend) && journal.entries == old(journal.entries)
    ensures ValidReport(rules, report) && old(journal.nextSequence) == 0 && !old(journal.failed) ==>
              Explained(journal, r, ReportEntries(report))
  {
    hide ValidReport, Journal.Log, Journal.Frame, Listed, RefusedAt, ReportEntries;
    if !ValidReport(rules, report) || journal.nextSequence != 0 {
      return Err(InvalidAppend);
    }
    assert journal.entries == [];
    r := AppendListed(journal, report);
    if r.Err? {
      ReportInParts(report);
      if !old(journal.failed) {
        ExplainedWithin(journal, r, Listed(report), ReportEntries(report));
      }
      return;
    }
    r := AppendRest(journal, report);
  }

  // ---- The run's own journal ----

  /** The durability the runtime records each kind of entry with. */
  function DurabilityOf<X>(e: Entry<X>): Durability {
    if e.Sample? || e.Escape? || e.ArtifactError? || e.Calibration? then Buffered else Sync
  }

  /** Some entry is too large at some position. */
  ghost predicate Oversized<X>(c: Journal.Codec<Entry<X>>, log: seq<Entry<X>>) {
    exists i: nat, n: nat :: i < |log| && |c.encode(Journal.RecordAt(n, log[i]))| > Journal.MAX_RECORD_BYTES
  }

  /** The journal holds the first `k` entries of a log after what it had, and at most tried the next one. */
  ghost predicate StoppedAt<X(!new)>(j: SecureJournal<Entry<X>>, had: seq<Entry<X>>, log: seq<Entry<X>>, k: nat)
    requires k < |log|
    reads j
  {
    j.entries == had + log[..k] && (j.attempted == None || j.attempted == Some(log[k]))
  }

  /** Handing entries to the run's journal one by one. While nothing fails they are all in the file's log;
      after the first failure the journal holds a prefix of them and stays disabled; and with the durability
      the runtime uses the only refusal is an oversized record. At most the next entry's frame besides is in
      the file, whole or in part. */
  method RecordAll<X(!new)>(run: RunJournal<Entry<X>>, log: seq<Entry<X>>) returns (ghost refused: bool)
    requires run.Valid() && run.resilient.journal.Some?
    requires forall e: Entry<X> :: run.resilient.journal.value.requiresSync(e) <==> RequiresSync(e)
    modifies run, run.resilient, run.resilient.journal.value
    ensures run.Valid()
    ensures var j := old(run.resilient.journal).value;
            && j.Valid()
            && (run.resilient.journal.Some? ==>
                  run.resilient.journal == Some(j) && j.entries == old(j.entries) + log && !refused)
            && (run.resilient.journal.None? ==>
                  exists k :: 0 <= k < |log| && StoppedAt(j, old(j.entries), log, k))
            && (refused ==> Oversized(j.codec, log))
  {
    hide Journal.Log, Journal.Frame;
    var j := run.resilient.journal.value;
    refused := false;
    for i := 0 to |log|
      invariant run.Valid() && run.resilient.journal == Some(j) && !refused
      invariant j.entries == old(j.entries) + log[..i]
    {
      ghost var n := |j.entries|;
      var attempt := run.Record(log[i], DurabilityOf(log[i]));
      if !attempt.Persisted? {
        assert StoppedAt(j, old(j.entries), log, i);
        refused := attempt == PersistenceAttempt.Failed(InvalidAppend);
        assert refused ==> |j.codec.encode(Journal.RecordAt(n, log[i]))| > Journal.MAX_RECORD_BYTES;
        return;
      }
    }
    assert log[..|log|] == log;
  }

  lemma EntriesOfRecords<E>(entries: seq<E>)
    ensures EntriesOf(Journal.Records(entries)) == entries
  {
  }

  lemma EntriesOfPrefix<E>(entries: seq<E>, k: nat)
    requires k <= |entries|
    ensures EntriesOf(Journal.Records(entries)[..k]) == entries[..k]
  {
  }

  /** A whole journal file gives back exactly what replaying its entries gives, unless it holds more
      records than recovery accepts, and then nothing. */
  lemma FileReplays<X(!new)>(c: Journal.Codec<Entry<X>>, rules: Rules<X>, entries: seq<Entry<X>>)
    requires Journal.Lawful(c) && Journal.Bounded(c, entries)
    ensures ReportOfFile(c, rules, Journal.JOURNAL_MAGIC + Journal.Log(c, entries))
         == if |entries| <= Journal.MAX_RECOVERED_RECORDS then Replay(rules, entries) else None
  {
    hide Replay, Journal.RecoverFile, Journal.Log, Journal.Records, Journal.Lawful;
    Journal.WholeFile(c, entries);
    EntriesOfRecords(entries);
  }

  /** A journal of well-shaped entries, cut anywhere at or after the magic, gives back nothing unless it is
      whole and holds no more records than recovery accepts, and then what replaying its entries gives. */
  lemma CutFileGivesNothing<X(!new)>(c: Journal.Codec<Entry<X>>, rules: Rules<X>, entries: seq<Entry<X>>, cut: nat)
    requires Journal.Lawful(c) && WellShaped(entries) && Journal.Bounded(c, entries)
    requires cut <= |Journal.Log(c, entries)|
    ensures ReportOfFile(c, rules, (Journal.JOURNAL_MAGIC + Journal.Log(c, entries))[..8 + cut])
         == if cut == |Journal.Log(c, entries)| && |entries| <= Journal.MAX_RECOVERED_RECORDS
            then Replay(rules, entries) else None
  {
    hide Replay, WellShaped, Journal.RecoverFile, Journal.Log, Journal.Records, Journal.Lawful, Journal.CutStatus,
         ReportOfFile;
    var file := Journal.JOURNAL_MAGIC + Journal.Log(c, entries);
    if cut == |Journal.Log(c, entries)| {
      assert file[..8 + cut] == file;
      FileReplays(c, rules, entries);
    } else {
      var whole := Journal.SomeAreWhollyBefore(c, entries, cut);
      SomeIsCut(c, entries, cut, whole);
      Journal.CrashPrefix(c, entries, cut, whole);
      RefusedPrefix(c, rules, entries, file[..8 + cut], Min(whole, Journal.MAX_RECOVERED_RECORDS));
    }
  }

  lemma SomeIsCut<E>(c: Journal.Codec<E>, entries: seq<E>, cut: nat, whole: nat)
    requires Journal.WhollyBefore(c, entries, cut, whole) && cut < |Journal.Log(c, entries)|
    ensures whole < |entries|
  {
    hide Journal.Log;
    assert entries[..|entries|] == entries;
  }

  lemma RefusedPrefix<X(!new)>(c: Journal.Codec<Entry<X>>, rules: Rules<X>, entries: seq<Entry<X>>, file: Bytes, k: nat)
    requires WellShaped(entries) && k < |entries|
    requires Journal.RecoverFile(c, file).Ok? && Journal.RecoverFile(c, file).value.records == Journal.Records(entries)[..k]
    ensures ReportOfFile(c, rules, file) == None
  {
    hide WellShaped, Replay, Journal.RecoverFile, Journal.Records;
    EntriesOfPrefix(entries, k);
    CutSequenceIsRefused(rules, entries, k);
  }

  /** When the disk failed on a record before the last, the file gives back nothing, whatever part of that
      record reached it; when it failed on the last one, the file gives nothing or the whole. */
  lemma FailedDiskGivesNothing<X(!new)>(c: Journal.Codec<Entry<X>>, rules: Rules<X>, log: seq<Entry<X>>, k: nat,
                                        file: Bytes, attempted: Option<Entry<X>>)
    requires Journal.Lawful(c) && WellShaped(log) && k < |log| && Journal.Bounded(c, log[..k])
    requires attempted == None || attempted == Some(log[k])
    requires JournalFiles.Holds(c, file, log[..k], attempted)
    ensures k + 1 < |log| || attempted == None ==> ReportOfFile(c, rules, file) == None
    ensures ReportOfFile(c, rules, file) == None || ReportOfFile(c, rules, file) == Replay(rules, log)
  {
    hide Replay, WellShaped, Journal.RecoverFile, Journal.Log, Journal.Records, Journal.Lawful, JournalFiles.Holds;
    JournalFiles.FileRecovers(c, file, log[..k], attempted);
    assert log[..k] + [log[k]] == log[..k + 1] && log[..k] + [] == log[..k];
    RecoveredPrefix(c, rules, log, k, file);
    RecoveredPrefix(c, rules, log, k + 1, file);
  }

  /** A file that recovers to no more than the first `k` entries of a well-shaped log. */
  lemma RecoveredPrefix<X(!new)>(c: Journal.Codec<Entry<X>>, rules: Rules<X>, log: seq<Entry<X>>, k: nat, file: Bytes)
    requires WellShaped(log) && k <= |log| && Journal.RecoverFile(c, file).Ok?
    ensures Journal.RecoverFile(c, file).value.records
            == Journal.Records(log[..k])[..Min(k, Journal.MAX_RECOVERED_RECORDS)] ==>
              && (k < |log| ==> ReportOfFile(c, rules, file) == None)
              && (ReportOfFile(c, rules, file) == None || ReportOfFile(c, rules, file) == Replay(rules, log))
  {
    hide WellShaped, Replay, Journal.RecoverFile, Journal.Records;
    var n := Min(k, Journal.MAX_RECOVERED_RECORDS);
    JournalFiles.RecordsOfPrefix(log[..k], log, n);
    EntriesOfPrefix(log, n);
    if n < |log| {
      CutSequenceIsRefused(rules, log, n);
    } else {
      assert log[..n] == log;
    }
  }

  /** Within the record size bound, a journal of a valid report's components gives back exactly that report
      when it holds no more than 65,536 records; cut anywhere at or after the magic, it gives back none. */
  lemma ReportSurvives<X(!new)>(c: Journal.Codec<Entry<X>>, rules: Rules<X>, report: Report<X>, cut: nat)
    requires Journal.Lawful(c) && ValidReport(rules, report) && Journal.Bounded(c, ReportEntries(report))
    requires cut <= |Journal.Log(c, ReportEntries(report))|
    ensures ReportOfFile(c, rules, (Journal.JOURNAL_MAGIC + Journal.Log(c, ReportEntries(report)))[..8 + cut])
         == if cut == |Journal.Log(c, ReportEntries(report))|
               && |ReportEntries(report)| <= Journal.MAX_RECOVERED_RECORDS
            then Some(report) else None
  {
    hide ValidReport, Replay, ReportEntries, WellShaped, ReportOfFile, Journal.Log, Journal.Lawful;
    ComponentsRoundTrip(rules, report);
    CutFileGivesNothing(c, rules, ReportEntries(report), cut);
  }
}
