/** The journal as the program drives it (persistence.rs): appends that may stop half-way, the latch
    that disables persistence after the first failure, and recovery through short reads. */
module JournalFiles {
  import opened Common
  import BigEndian
  import Checksum
  import opened Journal

  datatype Durability = Buffered | Sync

  datatype StorageError = InvalidAppend | WriteFailed | SyncFailed

  /** `file` holds every entry's frame and at most part of the frame of one more. */
  ghost predicate Holds<E>(c: Codec<E>, file: Bytes, entries: seq<E>, attempted: Option<E>) {
    && JOURNAL_MAGIC + Log(c, entries) <= file
    && match attempted
       case None => file == JOURNAL_MAGIC + Log(c, entries)
       case Some(x) => Bounded(c, entries + [x]) && file <= JOURNAL_MAGIC + Log(c, entries + [x])
  }

  /** Every entry that must be synchronized stands, with everything before it, in the durable part of the file. */
  ghost predicate Safe<E>(c: Codec<E>, rule: E -> bool, entries: seq<E>, durable: Bytes) {
    && JOURNAL_MAGIC <= durable
    && forall i :: 0 <= i < |entries| && rule(entries[i]) ==> JOURNAL_MAGIC + Log(c, entries[..i + 1]) <= durable
  }

  class SecureJournal<E(!new)> {
    const codec: Codec<E>
    const requiresSync: E -> bool
    var file: Bytes
    var nextSequence: u64
    var failed: bool
    /** Some write or synchronization has failed. */
    ghost var faulted: bool
    /** What the file held when it was last synchronized. */
    ghost var durable: Bytes
    /** The entries whose append succeeded, and the one whose append failed on the way to the file. */
    ghost var entries: seq<E>
    ghost var attempted: Option<E>

    ghost predicate Valid()
      reads this
    {
      && nextSequence == SequenceAt(|entries|) && Bounded(codec, entries)
      && Holds(codec, file, entries, attempted) && (attempted.Some? ==> failed)
      && failed == faulted && durable <= file && Safe(codec, requiresSync, entries, durable)
    }

    constructor (codec: Codec<E>, requiresSync: E -> bool)
      ensures Valid() && this.codec == codec && this.requiresSync == requiresSync
      ensures entries == [] && nextSequence == 0 && !failed && file == JOURNAL_MAGIC
    {
      this.codec, this.requiresSync := codec, requiresSync;
      file, durable := JOURNAL_MAGIC, JOURNAL_MAGIC;
      nextSequence, failed, faulted, entries, attempted := 0, false, false, [], None;
    }

    /** What the journal refuses before touching the file. */
    predicate Refuses(record: Record<E>, durability: Durability)
      reads this
    {
      || failed || record.version != RECORD_VERSION || record.sequence != nextSequence
      || (requiresSync(record.entry) && !durability.Sync?)
      || |codec.encode(record)| > MAX_RECORD_BYTES
    }

    /** Write all the bytes, or some of them and fail. */
    method WriteAll(bytes: Bytes) returns (ok: bool)
      modifies this`file, this`faulted
      ensures faulted == (old(faulted) || !ok)
      ensures ok ==> file == old(file) + bytes
      ensures !ok ==> old(file) <= file <= old(file) + bytes
    {
      ok := *;
      var written := |bytes|;
      if !ok {
        written :| 0 <= written <= |bytes|;
      }
      file := file + bytes[..written];
      faulted := faulted || !ok;
    }

    /** Three writes in turn; a failure leaves part of the frame. */
    method WriteFrame(length: Bytes, payload: Bytes, trailer: Bytes) returns (ok: bool)
      modifies this`file, this`faulted
      ensures faulted == (old(faulted) || !ok)
      ensures ok ==> file == old(file) + (length + payload + trailer)
      ensures old(file) <= file <= old(file) + (length + payload + trailer)
    {
      ok := WriteAll(length);
      if ok {
        ok := WriteAll(payload);
        if ok {
          ok := WriteAll(trailer);
        }
      }
      PrefixOfFrame(old(file), length, payload, trailer, file);
    }

    /** Synchronized, everything written is durable. */
    method SyncAll() returns (ok: bool)
      modifies this`faulted, this`durable
      ensures faulted == (old(faulted) || !ok) && durable == if ok then file else old(durable)
    {
      ok := *;
      faulted := faulted || !ok;
      if ok {
        durable := file;
      }
    }

    /** A refused record changes nothing. Otherwise the record is appended unless a system call
        failed, and then the journal is latched: a failed write left part of the frame, a failed
        synchronization all of it. */
    method Append(record: Record<E>, durability: Durability) returns (r: Result<(), StorageError>)
      requires Valid()
      modifies this
      ensures Valid()
      ensures r == Err(InvalidAppend) <==> old(Refuses(record, durability))
      ensures r == Err(InvalidAppend) ==>
                file == old(file) && failed == old(failed) && entries == old(entries) && attempted == old(attempted)
      ensures r.Ok? ==> !failed && entries == old(entries) + [record.entry] && attempted == old(attempted)
      ensures r.Err? && r.error != InvalidAppend ==>
                failed && entries == old(entries) && attempted == Some(record.entry)
      ensures r == Err(SyncFailed) ==>
                durability.Sync? && file == JOURNAL_MAGIC + Log(codec, entries + [record.entry])
    {
      hide Log, Frame, Checksum.Crc, Safe;
      if failed || record.version != RECORD_VERSION || record.sequence != nextSequence
         || (requiresSync(record.entry) && !durability.Sync?) {
        return Err(InvalidAppend);
      }
      var payload := codec.encode(record);
      if |payload| > MAX_RECORD_BYTES {
        return Err(InvalidAppend);
      }
      var checksum := Checksum.Crc32(payload);
      LogGrows(codec, entries, record.entry, payload);
      var written := WriteFrame(BigEndian.Encode(|payload|, 4), payload, BigEndian.Encode(checksum as int, 4));
      FrameGrows(JOURNAL_MAGIC, Log(codec, entries), Frame(payload), file);
      if !written {
        failed, attempted := true, Some(record.entry);
        return Err(WriteFailed);
      }
      if durability.Sync? {
        var synced := SyncAll();
        if !synced {
          failed, attempted := true, Some(record.entry);
          return Err(SyncFailed);
        }
      }
      SafeNext(codec, requiresSync, entries, record.entry, old(durable), durable);
      entries := entries + [record.entry];
      nextSequence := SatAdd64(nextSequence, 1);
      return Ok(());
    }

    /** Only a failed synchronization, now or before, fails it, and that disables the journal. */
    method Flush() returns (r: Result<(), StorageError>)
      requires Valid()
      modifies this`failed, this`faulted, this`durable
      ensures Valid() && (old(failed) ==> failed)
      ensures r == if failed then Err(SyncFailed) else Ok(())
      ensures r.Ok? ==> durable == file
    {
      if failed {
        return Err(SyncFailed);
      }
      var synced := SyncAll();
      if !synced {
        failed := true;
        return Err(SyncFailed);
      }
      return Ok(());
    }
  }

  /** One entry more is safe when it need not be synchronized, or everything has been. */
  lemma SafeNext<E>(c: Codec<E>, rule: E -> bool, entries: seq<E>, entry: E, before: Bytes, durable: Bytes)
    requires Safe(c, rule, entries, before)
    requires durable == JOURNAL_MAGIC + Log(c, entries + [entry]) || (durable == before && !rule(entry))
    ensures Safe(c, rule, entries + [entry], durable)
  {
    hide FrameOf;
    var more := entries + [entry];
    forall i | 0 <= i < |more| && rule(more[i]) ensures JOURNAL_MAGIC + Log(c, more[..i + 1]) <= durable {
      if durable == JOURNAL_MAGIC + Log(c, more) {
        LogPrefix(c, more, i + 1);
        PrefixAfter(JOURNAL_MAGIC, Log(c, more[..i + 1]), Log(c, more));
      } else {
        assert i < |entries| && more[..i + 1] == entries[..i + 1];
      }
    }
  }

  lemma PrefixAfter(head: Bytes, a: Bytes, b: Bytes)
    requires a <= b
    ensures head + a <= head + b
  {
  }

  /** Appending the next entry's frame is logging one entry more. */
  lemma LogGrows<E>(c: Codec<E>, entries: seq<E>, entry: E, payload: Bytes)
    requires payload == c.encode(RecordAt(|entries|, entry)) && |payload| <= MAX_RECORD_BYTES
    requires Bounded(c, entries)
    ensures Bounded(c, entries + [entry])
    ensures Log(c, entries + [entry]) == Log(c, entries) + Frame(payload)
    ensures Frame(payload) == BigEndian.Encode(|payload|, 4) + payload
                              + BigEndian.Encode(Checksum.Crc(payload) as int, 4)
  {
    hide Checksum.Crc;
    assert (entries + [entry])[..|entries|] == entries;
  }

  lemma FrameGrows(magic: Bytes, log: Bytes, frame: Bytes, file: Bytes)
    requires magic + log <= file <= magic + log + frame
    ensures file <= magic + (log + frame)
    ensures file == magic + log + frame ==> file == magic + (log + frame)
  {
    assert magic + log + frame == magic + (log + frame);
  }

  lemma PrefixOfFrame(file: Bytes, length: Bytes, payload: Bytes, trailer: Bytes, now: Bytes)
    requires || file <= now <= file + length
             || file + length <= now <= file + length + payload
             || file + length + payload <= now <= file + length + payload + trailer
    ensures file <= now <= file + (length + payload + trailer)
    ensures now == file + length + payload + trailer ==> now == file + (length + payload + trailer)
  {
    assert file + length <= file + length + payload <= file + length + payload + trailer;
    assert file + length + payload + trailer == file + (length + payload + trailer);
    assert file <= file + length;
    PrefixTransitive(file, file + length, now);
    PrefixTransitive(file, file + length + payload, now);
    PrefixTransitive(now, file + length, file + length + payload + trailer);
    PrefixTransitive(now, file + length + payload, file + length + payload + trailer);
  }

  lemma PrefixTransitive(a: Bytes, b: Bytes, c: Bytes)
    ensures a <= b && b <= c ==> a <= c
  {
  }

  /** Whatever failures happened and however long the file grew, it recovers to every appended entry, and at
      most the one whose append failed besides, up to the 65,536 records recovery accepts. It is corrupt only
      beyond that many, and always so when more than that many were appended. */
  lemma FileRecovers<E(!new)>(c: Codec<E>, file: Bytes, entries: seq<E>, attempted: Option<E>)
    requires Lawful(c) && Bounded(c, entries) && Holds(c, file, entries, attempted)
    ensures var all := entries + (if attempted.Some? then [attempted.value] else []);
            var r := RecoverFile(c, file);
            && r.Ok?
            && (r.value.records == Records(entries)[..Min(|entries|, MAX_RECOVERED_RECORDS)]
                || r.value.records == Records(all)[..Min(|all|, MAX_RECOVERED_RECORDS)])
            && (|all| <= MAX_RECOVERED_RECORDS ==> !r.value.status.Corrupt?)
            && (|entries| > MAX_RECOVERED_RECORDS ==> r.value.status.Corrupt?)
            && (attempted.None? ==> (r.value.status.Complete? <==> |entries| <= MAX_RECOVERED_RECORDS))
  {
    hide RecoverFile, Lawful, FrameOf, Log;
    var all := entries + (if attempted.Some? then [attempted.value] else []);
    assert attempted.None? ==> all == entries;
    var cut := |file| - |JOURNAL_MAGIC|;
    assert file == (JOURNAL_MAGIC + Log(c, all))[..|JOURNAL_MAGIC| + cut];
    var whole := SomeAreWhollyBefore(c, all, cut);
    assert all[..|entries|] == entries && all[..|all|] == all;
    if whole < |entries| {
      LogPrefix(c, entries, whole + 1);
      PrefixOfAll(entries, all, whole + 1);
      assert false;
    }
    CrashPrefix(c, all, cut, whole);
    RecordsOfPrefix(entries, all, Min(whole, MAX_RECOVERED_RECORDS));
    if |entries| > MAX_RECOVERED_RECORDS {
      NextFrame(c, entries, MAX_RECOVERED_RECORDS);
      FrameIsLong(c, MAX_RECOVERED_RECORDS, entries[MAX_RECOVERED_RECORDS]);
      PrefixOfAll(entries, all, MAX_RECOVERED_RECORDS);
    }
  }

  /** A crash may lose whatever was not synchronized, and never more: from whatever of the file survives, down to its
      durable part, recovery returns every entry that had to be synchronized, with all the entries before it, up to
      the number it accepts. */
  lemma SyncedSurvive<E(!new)>(c: Codec<E>, rule: E -> bool, file: Bytes, entries: seq<E>, attempted: Option<E>, durable: Bytes,
                               cut: nat, i: nat)
    requires Lawful(c) && Bounded(c, entries) && Holds(c, file, entries, attempted)
    requires Safe(c, rule, entries, durable) && durable <= file && |durable| <= cut <= |file|
    requires i < |entries| && i < MAX_RECOVERED_RECORDS && rule(entries[i])
    ensures var r := RecoverFile(c, file[..cut]);
            r.Ok? && i < |r.value.records| && r.value.records[..i + 1] == Records(entries)[..i + 1]
  {
    hide RecoverFile, Lawful, FrameOf, Log, Records, Holds, Bounded, CutStatus;
    var all := entries + (if attempted.Some? then [attempted.value] else []);
    var left := cut - |JOURNAL_MAGIC|;
    CutOfFile(c, file, entries, attempted, all, cut);
    var whole := SomeAreWhollyBefore(c, all, left);
    PrefixOfAll(entries, all, i + 1);
    DurableFits(Log(c, all[..i + 1]), durable, cut);
    KeptWhole(c, all, left, whole, i + 1);
    CrashPrefix(c, all, left, whole);
    FirstOfKept(entries, all, Min(whole, MAX_RECOVERED_RECORDS), i + 1);
  }

  lemma CutOfFile<E>(c: Codec<E>, file: Bytes, entries: seq<E>, attempted: Option<E>, all: seq<E>, cut: nat)
    requires Bounded(c, entries) && Holds(c, file, entries, attempted) && |JOURNAL_MAGIC| <= cut <= |file|
    requires all == entries + if attempted.Some? then [attempted.value] else []
    ensures Bounded(c, all) && cut - |JOURNAL_MAGIC| <= |Log(c, all)|
    ensures file[..cut] == (JOURNAL_MAGIC + Log(c, all))[..|JOURNAL_MAGIC| + (cut - |JOURNAL_MAGIC|)]
  {
    hide Log;
    assert attempted.None? ==> all == entries;
  }

  lemma FirstOfKept<E>(entries: seq<E>, all: seq<E>, kept: nat, n: nat)
    requires entries <= all && n <= |entries| && n <= kept <= |all|
    ensures Records(all)[..kept][..n] == Records(entries)[..n]
  {
    RecordsOfPrefix(entries, all, n);
    hide Records;
    assert Records(all)[..kept][..n] == Records(all)[..n];
  }

  /** What fits before the cut is wholly before it. */
  lemma KeptWhole<E>(c: Codec<E>, all: seq<E>, left: nat, whole: nat, n: nat)
    requires WhollyBefore(c, all, left, whole) && n <= |all| && |Log(c, all[..n])| <= left
    ensures n <= whole
  {
    hide Log;
    if whole < n {
      LogPrefix(c, all[..n], whole + 1);
      PrefixOfAll(all[..n], all, whole + 1);
    }
  }

  lemma DurableFits(log: Bytes, durable: Bytes, cut: nat)
    requires JOURNAL_MAGIC + log <= durable && |durable| <= cut
    ensures |log| <= cut - |JOURNAL_MAGIC|
  {
  }

  lemma PrefixOfAll<E>(entries: seq<E>, all: seq<E>, k: nat)
    requires entries <= all && k <= |entries|
    ensures all[..k] == entries[..k]
  {
  }

  lemma RecordsOfPrefix<E>(entries: seq<E>, all: seq<E>, k: nat)
    requires entries <= all && k <= |all|
    ensures k <= |entries| ==> Records(all)[..k] == Records(entries)[..k]
  {
    hide Records;
  }

  // ---- The latch ----

  datatype PersistenceAttempt = Persisted | Failed(failed: StorageError) | Disabled(since: StorageError)

  /** Best-effort persistence: the first failure is final, and the caller carries on. */
  class ResilientJournal<E(!new)> {
    var journal: Option<SecureJournal<E>>
    var failure: Option<StorageError>

    ghost predicate Valid()
      reads this, if journal.Some? then {journal.value} else {}
    {
      (journal.Some? <==> failure.None?) && (journal.Some? ==> journal.value.Valid())
    }

    constructor (journal: SecureJournal<E>)
      requires journal.Valid()
      ensures Valid() && this.journal == Some(journal)
    {
      this.journal, failure := Some(journal), None;
    }

    method Record(record: Record<E>, durability: Durability) returns (r: PersistenceAttempt)
      requires Valid()
      modifies this, if journal.Some? then {journal.value} else {}
      ensures Valid()
      ensures old(journal).None? ==>
                failure.Some? && r == Disabled(failure.value) && failure == old(failure) && journal.None?
      ensures old(journal).Some? ==>
                var j := old(journal).value;
                && j.Valid()
                && (r.Persisted? ==> journal == old(journal) && !j.failed && j.entries == old(j.entries) + [record.entry])
                && (!r.Persisted? ==> r.Failed? && journal.None? && failure == Some(r.failed)
                                      && j.entries == old(j.entries))
                && (r == Failed(InvalidAppend) <==> old(j.Refuses(record, durability)))
                && j.attempted == (if r.Failed? && r.failed != InvalidAppend then Some(record.entry)
                                   else old(j.attempted))
    {
      if journal.None? {
        return Disabled(failure.value);
      }
      var appended := journal.value.Append(record, durability);
      if appended.Ok? {
        return Persisted;
      }
      failure := Some(appended.error);
      journal := None;
      return Failed(appended.error);
    }
  }

  /** The runtime's journal and the sequence number it gives the next record. */
  class RunJournal<E(!new)> {
    const resilient: ResilientJournal<E>
    var sequence: u64

    ghost predicate Valid()
      reads this, resilient, if resilient.journal.Some? then {resilient.journal.value} else {}
    {
      resilient.Valid() && (resilient.journal.Some? ==>
                              sequence == resilient.journal.value.nextSequence && !resilient.journal.value.failed)
    }

    constructor (journal: SecureJournal<E>)
      requires journal.Valid() && journal.nextSequence == 0 && !journal.failed
      ensures Valid() && fresh(resilient) && resilient.journal == Some(journal)
    {
      resilient := new ResilientJournal<E>(journal);
      sequence := 0;
    }

    /** While persistence works, a record with the durability its entry needs and a size within the
        bound is refused never: it is appended next, or the disk failed. */
    method Record(entry: E, durability: Durability) returns (r: PersistenceAttempt)
      requires Valid()
      modifies this, resilient, if resilient.journal.Some? then {resilient.journal.value} else {}
      ensures Valid()
      ensures old(resilient.journal).None? <==> r.Disabled?
      ensures old(resilient.journal).Some? ==>
                var j := old(resilient.journal).value;
                && j.Valid() && (r.Persisted? <==> resilient.journal.Some?)
                && (r.Persisted? ==> resilient.journal == old(resilient.journal))
                && j.entries == old(j.entries) + (if r.Persisted? then [entry] else [])
                && (r.Persisted? ==> j.attempted.None?)
                && (j.attempted == None || j.attempted == Some(entry))
                && (r == Failed(InvalidAppend) <==>
                      || (j.requiresSync(entry) && !durability.Sync?)
                      || |j.codec.encode(Journal.Record(RECORD_VERSION, old(sequence), entry))| > MAX_RECORD_BYTES)
    {
      r := resilient.Record(Journal.Record(RECORD_VERSION, sequence, entry), durability);
      if r.Persisted? {
        sequence := SatAdd64(sequence, 1);
      }
    }
  }

  // ---- Recovery through short reads ----

  /** An open journal file: a read returns as many bytes as it likes, and none only at the end. */
  class JournalReader<E> {
    const codec: Codec<E>
    var unread: Bytes
    /** Some read has failed. */
    ghost var faulted: bool

    constructor (codec: Codec<E>, file: Bytes)
      ensures this.codec == codec && unread == file && !faulted
    {
      this.codec, unread, faulted := codec, file, false;
    }

    method Read(n: nat) returns (r: Result<Bytes, FileError>)
      requires n > 0
      modifies this`unread, this`faulted
      ensures faulted == (old(faulted) || r.Err?)
      ensures r.Err? ==> r.error.ReadFailed?
      ensures r.Ok? ==> old(unread) == r.value + unread && |r.value| <= n && (r.value == [] ==> old(unread) == [])
    {
      if * {
        faulted := true;
        return Err(ReadFailed);
      }
      var count := Min(n, |unread|);
      if count > 0 {
        count :| 1 <= count <= Min(n, |unread|);
      }
      r := Ok(unread[..count]);
      unread := unread[count..];
    }

    /** Exactly `n` more bytes, or none when the file ends first. */
    method ReadRemaining(n: nat) returns (r: Result<Option<Bytes>, FileError>)
      modifies this`unread, this`faulted
      ensures faulted == (old(faulted) || r.Err?)
      ensures r.Err? ==> r.error.ReadFailed?
      ensures r.Ok? ==> (r.value.None? <==> |old(unread)| < n)
      ensures r.Ok? && r.value.Some? ==> |r.value.value| == n && old(unread) == r.value.value + unread
    {
      var filled: Bytes := [];
      while |filled| < n
        invariant |filled| <= n && old(unread) == filled + unread && faulted == old(faulted)
      {
        var chunk := Read(n - |filled|);
        if chunk.Err? {
          return Err(ReadFailed);
        }
        if chunk.value == [] {
          return Ok(None);
        }
        filled := filled + chunk.value;
      }
      return Ok(Some(filled));
    }

    /** One turn of the recovery loop: the next record, or why recovery stops. */
    method ReadRecord(count: nat) returns (r: Result<Next<E>, FileError>)
      modifies this`unread, this`faulted
      ensures faulted == (old(faulted) || r.Err?)
      ensures r.Err? ==> r.error.ReadFailed?
      ensures r.Ok? ==> r.value == ReadNext(codec, old(unread), count)
      ensures r.Ok? && r.value.Read? ==> unread == r.value.rest
    {
      ghost var data := unread;
      var first := Read(4);
      if first.Err? {
        return Err(ReadFailed);
      }
      if first.value == [] {
        return Ok(Stop(Complete));
      }
      var header := first.value;
      if |header| < 4 {
        var more := ReadRemaining(4 - |header|);
        if more.Err? {
          return Err(ReadFailed);
        }
        if more.value.None? {
          return Ok(Stop(Truncated));
        }
        header := header + more.value.value;
      }
      assert data == header + unread && data[..4] == header;
      var length := BigEndian.Decode(header);
      if length > MAX_RECORD_BYTES || count == MAX_RECOVERED_RECORDS {
        return Ok(Stop(Corrupt));
      }
      var payload := ReadRemaining(length);
      if payload.Err? {
        return Err(ReadFailed);
      }
      if payload.value.None? {
        return Ok(Stop(Truncated));
      }
      var checksum := ReadRemaining(4);
      if checksum.Err? {
        return Err(ReadFailed);
      }
      if checksum.value.None? {
        return Ok(Stop(Truncated));
      }
      DataParts(data, header, payload.value.value, checksum.value.value, unread);
      r := Decide(payload.value.value, checksum.value.value, count, data);
    }

    /** The checks on a whole frame. */
    method Decide(payload: Bytes, checksum: Bytes, count: nat, ghost data: Bytes)
      returns (r: Result<Next<E>, FileError>)
      requires |payload| <= MAX_RECORD_BYTES && |checksum| == 4 && count != MAX_RECOVERED_RECORDS
      requires |data| == 8 + |payload| + |unread| && BigEndian.Decode(data[..4]) == |payload|
      requires data[4..4 + |payload|] == payload && data[4 + |payload|..8 + |payload|] == checksum
      requires data[8 + |payload|..] == unread
      ensures r == Ok(ReadNext(codec, data, count))
      ensures r.value.Read? ==> unread == r.value.rest
    {
      hide Checksum.Crc;
      var computed := Checksum.Crc32(payload);
      if computed as int != BigEndian.Decode(checksum) {
        return Ok(Stop(Corrupt));
      }
      var record := codec.decode(payload);
      if record.None? {
        return Ok(Stop(Corrupt));
      }
      if record.value.version != RECORD_VERSION || record.value.sequence != count {
        return Ok(Stop(Corrupt));
      }
      return Ok(Next.Read(record.value, unread));
    }

    /** Recovery returns what the file's bytes determine, however they are delivered, unless a read
        fails, and then it says so. */
    method Recover() returns (r: Result<Recovery<E>, FileError>)
      modifies this`unread, this`faulted
      ensures !faulted ==> r == RecoverFile(codec, old(unread))
      ensures faulted && !old(faulted) ==> r == Err(ReadFailed)
    {
      hide ReadNext;
      var magic := ReadRemaining(|JOURNAL_MAGIC|);
      if magic.Err? || magic.value.None? {
        return Err(ReadFailed);
      }
      ghost var body := unread;
      assert old(unread)[..|JOURNAL_MAGIC|] == magic.value.value && old(unread)[|JOURNAL_MAGIC|..] == body;
      if magic.value.value != JOURNAL_MAGIC {
        return Err(InvalidRecord);
      }
      var records: seq<Record<E>> := [];
      while true
        invariant RecoverFrom(codec, body, 0)
               == var tail := RecoverFrom(codec, unread, |records|); Recovery(records + tail.records, tail.status)
        invariant faulted == old(faulted)
        decreases |unread|
      {
        var next := ReadRecord(|records|);
        if next.Err? {
          return Err(ReadFailed);
        }
        match next.value {
          case Stop(status) =>
            assert records + [] == records;
            return Ok(Recovery(records, status));
          case Read(record, rest) =>
            ghost var tail := RecoverFrom(codec, rest, |records| + 1);
            assert records + ([record] + tail.records) == (records + [record]) + tail.records;
            records := records + [record];
        }
      }
    }
  }

  lemma DataParts(data: Bytes, header: Bytes, payload: Bytes, checksum: Bytes, rest: Bytes)
    requires |header| == 4 && |checksum| == 4 && data == header + (payload + (checksum + rest))
    ensures |data| == 8 + |payload| + |rest| && data[..4] == header && data[4..4 + |payload|] == payload
    ensures data[4 + |payload|..8 + |payload|] == checksum && data[8 + |payload|..] == rest
  {
  }
}
