/** The crash-resilient journal (persistence.rs): length-prefixed, checksummed, sequence-numbered
    records, what a partly written file recovers to, and the latch that isolates storage failures. */
module Journal {
  import opened Common
  import BigEndian
  import Checksum

  /** "MLXGJNL" and the format version. */
  const JOURNAL_MAGIC: Bytes := [0x4D, 0x4C, 0x58, 0x47, 0x4A, 0x4E, 0x4C, 0x01]
  const RECORD_VERSION: nat := 1
  const MAX_RECORD_BYTES: nat := 65536
  const MAX_RECOVERED_RECORDS: nat := 65536

  datatype Record<+E> = Record(version: nat, sequence: u64, entry: E)

  /** How records are written as text and read back; the only law assumed is that reading inverts
      writing. */
  datatype Codec<!E> = Codec(encode: Record<E> -> Bytes, decode: Bytes -> Option<Record<E>>)

  ghost predicate Lawful<E(!new)>(c: Codec<E>) {
    forall r: Record<E> :: c.decode(c.encode(r)) == Some(r)
  }

  function ChecksumOf(payload: Bytes): u32 {
    Checksum.Crc(payload) as int
  }

  lemma ChecksumDetects(a: Bytes, b: Bytes, at: nat, width: nat)
    requires Checksum.DifferWithinFour(a, b, at, width)
    ensures ChecksumOf(a) != ChecksumOf(b)
  {
    hide Checksum.Crc;
    Checksum.ShortErrorsDetected(a, b, at, width);
    NumberInjective(Checksum.Crc(a), Checksum.Crc(b));
  }

  lemma NumberInjective(a: bv32, b: bv32)
    ensures a as int == b as int ==> a == b
  {
    assert (a as int) as bv32 == a && (b as int) as bv32 == b;
  }

  /** One record on disk. */
  function FrameWith(payload: Bytes, checksum: Bytes): Bytes {
    BigEndian.Encode(|payload|, 4) + payload + checksum
  }

  function Frame(payload: Bytes): Bytes {
    FrameWith(payload, BigEndian.Encode(ChecksumOf(payload), 4))
  }

  /** The sequence number of the entry at an index; the counter saturates. */
  function SequenceAt(index: nat): u64 {
    Min(index, U64_MAX)
  }

  function RecordAt<E>(index: nat, entry: E): Record<E> {
    Record(RECORD_VERSION, SequenceAt(index), entry)
  }

  function FrameOf<E>(c: Codec<E>, index: nat, entry: E): Bytes {
    Frame(c.encode(RecordAt(index, entry)))
  }

  /** The frames of all entries, in order, after the magic. */
  function Log<E>(c: Codec<E>, entries: seq<E>): Bytes {
    if entries == [] then []
    else
      var last := |entries| - 1;
      Log(c, entries[..last]) + FrameOf(c, last, entries[last])
  }

  function Records<E>(entries: seq<E>): (r: seq<Record<E>>)
    ensures |r| == |entries|
    ensures forall i :: 0 <= i < |r| ==> r[i] == RecordAt(i, entries[i])
  {
    if entries == [] then []
    else
      var last := |entries| - 1;
      Records(entries[..last]) + [RecordAt(last, entries[last])]
  }

  ghost predicate Bounded<E>(c: Codec<E>, entries: seq<E>) {
    forall i :: 0 <= i < |entries| ==> |c.encode(RecordAt(i, entries[i]))| <= MAX_RECORD_BYTES
  }

  // ---- Recovery as a function ----

  datatype Status = Complete | Truncated | Corrupt

  datatype Recovery<+E> = Recovery(records: seq<Record<E>>, status: Status)

  /** The outcome of reading one record when `count` came before it. */
  datatype Next<+E> = Stop(status: Status) | Read(record: Record<E>, rest: Bytes)

  function ReadNext<E>(c: Codec<E>, data: Bytes, count: nat): (r: Next<E>)
    ensures r.Read? ==> |r.rest| < |data|
  {
    if data == [] then Stop(Complete)
    else if |data| < 4 then Stop(Truncated)
    else
      var length := BigEndian.Decode(data[..4]);
      if length > MAX_RECORD_BYTES || count == MAX_RECOVERED_RECORDS then Stop(Corrupt)
      else if |data| < 8 + length then Stop(Truncated)
      else
        var payload := data[4..4 + length];
        if ChecksumOf(payload) != BigEndian.Decode(data[4 + length..8 + length]) then Stop(Corrupt)
        else match c.decode(payload)
          case None => Stop(Corrupt)
          case Some(record) =>
            if record.version != RECORD_VERSION || record.sequence != count then Stop(Corrupt)
            else Read(record, data[8 + length..])
  }

  function RecoverFrom<E>(c: Codec<E>, data: Bytes, count: nat): Recovery<E>
    decreases |data|
  {
    match ReadNext(c, data, count)
    case Stop(status) => Recovery([], status)
    case Read(record, rest) =>
      var tail := RecoverFrom(c, rest, count + 1);
      Recovery([record] + tail.records, tail.status)
  }

  datatype FileError = ReadFailed | InvalidRecord

  function RecoverFile<E>(c: Codec<E>, file: Bytes): Result<Recovery<E>, FileError> {
    if |file| < |JOURNAL_MAGIC| then Err(ReadFailed)
    else if file[..|JOURNAL_MAGIC|] != JOURNAL_MAGIC then Err(InvalidRecord)
    else Ok(RecoverFrom(c, file[|JOURNAL_MAGIC|..], 0))
  }

  lemma MagicIsSkipped<E>(c: Codec<E>, body: Bytes)
    ensures RecoverFile(c, JOURNAL_MAGIC + body) == Ok(RecoverFrom(c, body, 0))
  {
    var file := JOURNAL_MAGIC + body;
    assert file[|JOURNAL_MAGIC|..] == body && file[..|JOURNAL_MAGIC|] == JOURNAL_MAGIC;
  }

  // ---- Whole frames are read back ----

  lemma FrameParts(payload: Bytes, checksum: Bytes, rest: Bytes)
    requires |payload| <= MAX_RECORD_BYTES && |checksum| == 4
    ensures var data := FrameWith(payload, checksum) + rest;
            && |data| == 8 + |payload| + |rest|
            && BigEndian.Decode(data[..4]) == |payload|
            && data[4..4 + |payload|] == payload
            && data[4 + |payload|..8 + |payload|] == checksum && data[8 + |payload|..] == rest
  {
    BigEndian.Widths();
    BigEndian.DecodeOfEncode(|payload|, 4);
    var data := FrameWith(payload, checksum) + rest;
    assert data[..4] == BigEndian.Encode(|payload|, 4);
  }

  lemma FrameIsRead<E(!new)>(c: Codec<E>, index: nat, entry: E, rest: Bytes)
    requires Lawful(c) && |c.encode(RecordAt(index, entry))| <= MAX_RECORD_BYTES
    requires index < MAX_RECOVERED_RECORDS
    ensures ReadNext(c, FrameOf(c, index, entry) + rest, index) == Read(RecordAt(index, entry), rest)
  {
    hide ChecksumOf;
    var payload := c.encode(RecordAt(index, entry));
    var checksum := BigEndian.Encode(ChecksumOf(payload), 4);
    FrameParts(payload, checksum, rest);
    BigEndian.Widths();
    BigEndian.DecodeOfEncode(ChecksumOf(payload), 4);
  }

  /** Reading a log of whole frames leaves what follows them to be read next. */
  lemma {:induction false} LogIsRead<E(!new)>(c: Codec<E>, entries: seq<E>, rest: Bytes)
    requires Lawful(c) && Bounded(c, entries) && |entries| <= MAX_RECOVERED_RECORDS
    ensures var tail := RecoverFrom(c, rest, |entries|);
            RecoverFrom(c, Log(c, entries) + rest, 0) == Recovery(Records(entries) + tail.records, tail.status)
  {
    hide ReadNext, FrameOf, Lawful;
    if entries == [] {
      assert Log(c, entries) + rest == rest;
      assert Records(entries) + RecoverFrom(c, rest, 0).records == RecoverFrom(c, rest, 0).records;
    } else {
      var last := |entries| - 1;
      var frame := FrameOf(c, last, entries[last]);
      LogIsRead(c, entries[..last], frame + rest);
      FrameIsRead(c, last, entries[last], rest);
      assert Log(c, entries) + rest == Log(c, entries[..last]) + (frame + rest);
      var tail := RecoverFrom(c, rest, |entries|);
      assert RecoverFrom(c, frame + rest, last).records == [RecordAt(last, entries[last])] + tail.records;
      assert Records(entries) + tail.records
          == Records(entries[..last]) + ([RecordAt(last, entries[last])] + tail.records);
    }
  }

  // ---- Crash prefixes ----

  /** `whole` frames of the log lie wholly before the cut. */
  ghost predicate WhollyBefore<E>(c: Codec<E>, entries: seq<E>, cut: nat, whole: nat) {
    && whole <= |entries| && |Log(c, entries[..whole])| <= cut
    && (whole < |entries| ==> cut < |Log(c, entries[..whole + 1])|)
  }

  lemma {:induction false} LogPrefix<E>(c: Codec<E>, entries: seq<E>, k: nat)
    requires k <= |entries|
    ensures Log(c, entries[..k]) <= Log(c, entries)
  {
    if k < |entries| {
      var last := |entries| - 1;
      LogPrefix(c, entries[..last], k);
      assert entries[..last][..k] == entries[..k];
    } else {
      assert entries[..k] == entries;
    }
  }

  lemma {:induction false} SomeAreWhollyBefore<E>(c: Codec<E>, entries: seq<E>, cut: nat) returns (whole: nat)
    ensures WhollyBefore(c, entries, cut, whole)
  {
    if entries == [] {
      whole := 0;
    } else if |Log(c, entries)| <= cut {
      whole := |entries|;
      assert entries[..whole] == entries;
    } else {
      var last := |entries| - 1;
      whole := SomeAreWhollyBefore(c, entries[..last], cut);
      assert entries[..last][..whole] == entries[..whole];
      if whole < last {
        assert entries[..last][..whole + 1] == entries[..whole + 1];
      } else {
        assert entries[..whole + 1] == entries;
      }
    }
  }

  /** A strict prefix of a frame is a truncated record, never a corrupt one. */
  lemma PartialFrame<E>(c: Codec<E>, index: nat, entry: E, part: Bytes)
    requires |c.encode(RecordAt(index, entry))| <= MAX_RECORD_BYTES && index < MAX_RECOVERED_RECORDS
    requires part < FrameOf(c, index, entry)
    ensures ReadNext(c, part, index) == Stop(if part == [] then Complete else Truncated)
  {
    hide ChecksumOf;
    var payload := c.encode(RecordAt(index, entry));
    var frame := FrameOf(c, index, entry);
    FrameParts(payload, BigEndian.Encode(ChecksumOf(payload), 4), []);
    assert frame + [] == frame;
    if |part| >= 4 {
      assert part[..4] == frame[..4];
    }
  }

  /** How recovery ends on a log cut in or after its frame `whole`. */
  function CutStatus<E>(c: Codec<E>, entries: seq<E>, cut: nat, whole: nat): Status
    requires whole <= |entries|
  {
    var read := Min(whole, MAX_RECOVERED_RECORDS);
    var left := cut - |Log(c, entries[..read])|;
    if left == 0 then Complete
    else if read < MAX_RECOVERED_RECORDS || left < 4 then Truncated
    else Corrupt
  }

  /** Cutting the file anywhere at or after the magic loses exactly the records whose frames are not
      wholly before the cut, and those past the first 65,536; the status says whether the cut fell on a
      frame boundary; and only a record past the limit is ever reported as corrupt. */
  lemma CrashPrefix<E(!new)>(c: Codec<E>, entries: seq<E>, cut: nat, whole: nat)
    requires Lawful(c) && Bounded(c, entries)
    requires cut <= |Log(c, entries)| && WhollyBefore(c, entries, cut, whole)
    ensures RecoverFile(c, (JOURNAL_MAGIC + Log(c, entries))[..|JOURNAL_MAGIC| + cut])
         == Ok(Recovery(Records(entries)[..Min(whole, MAX_RECOVERED_RECORDS)], CutStatus(c, entries, cut, whole)))
  {
    hide ReadNext, FrameOf, Lawful, RecoverFile, RecoverFrom, Log;
    var log := Log(c, entries);
    assert (JOURNAL_MAGIC + log)[..|JOURNAL_MAGIC| + cut] == JOURNAL_MAGIC + log[..cut];
    MagicIsSkipped(c, log[..cut]);
    var read := Min(whole, MAX_RECOVERED_RECORDS);
    var before := Log(c, entries[..read]);
    LogPrefix(c, entries[..whole], read);
    assert entries[..whole][..read] == entries[..read];
    LogPrefix(c, entries, read);
    var part := log[..cut][|before|..];
    assert log[..cut] == before + part;
    LogIsRead(c, entries[..read], part);
    if read == MAX_RECOVERED_RECORDS {
      AtTheLimit(c, part);
    } else if whole < |entries| {
      NextFrame(c, entries, whole);
      PartIsInsideFrame(log, before, FrameOf(c, whole, entries[whole]), cut);
      PartialFrame(c, whole, entries[whole], part);
    } else {
      assert entries[..whole] == entries;
      EndOfLog(c, whole);
    }
    StopsHere(c, part, read);
    PrefixOfRecords(entries, read);
  }

  lemma NextFrame<E>(c: Codec<E>, entries: seq<E>, k: nat)
    requires k < |entries|
    ensures Log(c, entries[..k + 1]) == Log(c, entries[..k]) + FrameOf(c, k, entries[k]) <= Log(c, entries)
  {
    LogPrefix(c, entries, k + 1);
    assert entries[..k + 1][..k] == entries[..k];
  }

  lemma AtTheLimit<E>(c: Codec<E>, part: Bytes)
    ensures ReadNext(c, part, MAX_RECOVERED_RECORDS)
         == Stop(if part == [] then Complete else if |part| < 4 then Truncated else Corrupt)
  {
  }

  lemma StopsHere<E>(c: Codec<E>, data: Bytes, count: nat)
    ensures ReadNext(c, data, count).Stop? ==>
              RecoverFrom(c, data, count) == Recovery([], ReadNext(c, data, count).status)
  {
  }

  lemma PartIsInsideFrame(log: Bytes, before: Bytes, frame: Bytes, cut: nat)
    requires before + frame <= log && |before| <= cut < |before| + |frame|
    ensures log[..cut][|before|..] < frame
  {
    assert log[..|before| + |frame|] == before + frame;
    assert log[..cut][|before|..] == (before + frame)[..cut][|before|..] == frame[..cut - |before|];
  }

  lemma EndOfLog<E>(c: Codec<E>, count: nat)
    ensures RecoverFrom(c, [], count) == Recovery([], Complete)
  {
  }

  lemma PrefixOfRecords<E>(entries: seq<E>, k: nat)
    requires k <= |entries|
    ensures Records(entries[..k]) + [] == Records(entries)[..k]
  {
  }

  /** A whole file recovers completely exactly when it holds no more records than recovery accepts;
      a longer one stops as corrupt after the first 65,536. */
  lemma WholeFile<E(!new)>(c: Codec<E>, entries: seq<E>)
    requires Lawful(c) && Bounded(c, entries)
    ensures RecoverFile(c, JOURNAL_MAGIC + Log(c, entries))
         == Ok(if |entries| <= MAX_RECOVERED_RECORDS then Recovery(Records(entries), Complete)
               else Recovery(Records(entries)[..MAX_RECOVERED_RECORDS], Corrupt))
  {
    hide ReadNext, FrameOf, Lawful, RecoverFile, RecoverFrom, Log;
    var file, all := JOURNAL_MAGIC + Log(c, entries), |entries|;
    assert entries[..all] == entries && file[..|JOURNAL_MAGIC| + |Log(c, entries)|] == file;
    CrashPrefix(c, entries, |Log(c, entries)|, all);
    if all <= MAX_RECOVERED_RECORDS {
      assert Records(entries)[..all] == Records(entries);
    } else {
      NextFrame(c, entries, MAX_RECOVERED_RECORDS);
      FrameIsLong(c, MAX_RECOVERED_RECORDS, entries[MAX_RECOVERED_RECORDS]);
    }
  }

  lemma FrameIsLong<E>(c: Codec<E>, index: nat, entry: E)
    ensures |FrameOf(c, index, entry)| >= 8
  {
    hide ChecksumOf;
  }

  // ---- Corruption ----

  /** If the payload of one record is damaged only within four consecutive bytes, or any of its four
      checksum bytes change, recovery stops there as corrupt and returns exactly the earlier records,
      whatever follows. */
  lemma DamageStopsRecovery<E(!new)>(c: Codec<E>, entries: seq<E>, k: nat, payload: Bytes, checksum: Bytes, rest: Bytes,
                                     at: nat, width: nat)
    requires Lawful(c) && Bounded(c, entries) && k < |entries| && k < MAX_RECOVERED_RECORDS
    requires |checksum| == 4
    requires var original := c.encode(RecordAt(k, entries[k]));
             || (Checksum.DifferWithinFour(payload, original, at, width)
                 && checksum == BigEndian.Encode(ChecksumOf(original), 4))
             || (payload == original && checksum != BigEndian.Encode(ChecksumOf(original), 4))
    ensures RecoverFile(c, JOURNAL_MAGIC + Log(c, entries[..k]) + FrameWith(payload, checksum) + rest)
         == Ok(Recovery(Records(entries)[..k], Corrupt))
  {
    hide ReadNext, Lawful, RecoverFile, RecoverFrom, FrameWith, Log, ChecksumOf, Checksum.DifferWithinFour;
    var tail := FrameWith(payload, checksum) + rest;
    assert JOURNAL_MAGIC + Log(c, entries[..k]) + FrameWith(payload, checksum) + rest
        == JOURNAL_MAGIC + (Log(c, entries[..k]) + tail);
    MagicIsSkipped(c, Log(c, entries[..k]) + tail);
    DamagedFrame(c, c.encode(RecordAt(k, entries[k])), payload, checksum, rest, k, at, width);
    StopsHere(c, tail, k);
    LogIsRead(c, entries[..k], tail);
    PrefixOfRecords(entries, k);
  }

  lemma DamagedFrame<E>(c: Codec<E>, original: Bytes, payload: Bytes, checksum: Bytes, rest: Bytes,
                        count: nat, at: nat, width: nat)
    requires |original| <= MAX_RECORD_BYTES && |checksum| == 4 && count < MAX_RECOVERED_RECORDS
    requires || (Checksum.DifferWithinFour(payload, original, at, width)
                 && checksum == BigEndian.Encode(ChecksumOf(original), 4))
             || (payload == original && checksum != BigEndian.Encode(ChecksumOf(original), 4))
    ensures ReadNext(c, FrameWith(payload, checksum) + rest, count) == Stop(Corrupt)
  {
    hide ChecksumOf;
    if payload != original {
      ChecksumDetects(payload, original, at, width);
    }
    FrameParts(payload, checksum, rest);
    BigEndian.Widths();
    BigEndian.DecodeOfEncode(ChecksumOf(original), 4);
    BigEndian.EncodeOfDecode(checksum);
  }
}
