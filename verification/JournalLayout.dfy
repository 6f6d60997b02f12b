/** The journal file byte by byte, and what recovery says of any file whatever: it invents nothing. */
module JournalLayout {
  import opened Common
  import BigEndian
  import opened Journal

  /** One record on disk: its payload's length, the payload, and the payload's checksum. */
  function OnDisk(payload: Bytes): Bytes
    requires |payload| <= U32_MAX
  {
    BigEndian.FourBytes(|payload|) + payload + BigEndian.FourBytes(ChecksumOf(payload))
  }

  lemma FrameIsOnDisk(payload: Bytes)
    requires |payload| <= U32_MAX
    ensures Frame(payload) == OnDisk(payload)
  {
    hide ChecksumOf;
    BigEndian.EncodesFour(|payload|);
    BigEndian.EncodesFour(ChecksumOf(payload));
  }

  lemma MagicSpelled()
    ensures JOURNAL_MAGIC == ['M' as int, 'L' as int, 'X' as int, 'G' as int, 'J' as int, 'N' as int, 'L' as int, 1]
  {
  }

  /** Entry `k` of a journal stands directly after the entries before it, as version 1 with its own index as
      sequence number. */
  lemma {:induction false} RecordOnDisk<E>(c: Codec<E>, entries: seq<E>, k: nat)
    requires Bounded(c, entries) && k < |entries|
    ensures var payload := c.encode(Record(1, Min(k, U64_MAX), entries[k]));
            Log(c, entries[..k]) + OnDisk(payload) <= Log(c, entries)
  {
    hide Frame, OnDisk;
    var last := |entries| - 1;
    var payload := c.encode(RecordAt(k, entries[k]));
    if k < last {
      var earlier := entries[..last];
      assert earlier[..k] == entries[..k] && earlier[k] == entries[k];
      RecordOnDisk(c, earlier, k);
      assert Log(c, earlier) <= Log(c, entries);
    } else {
      FrameIsOnDisk(payload);
      assert Log(c, entries) == Log(c, entries[..k]) + OnDisk(payload);
    }
  }

  // ---- Any file ----

  function Frames(payloads: seq<Bytes>): Bytes
    requires forall i :: 0 <= i < |payloads| ==> |payloads[i]| <= MAX_RECORD_BYTES
  {
    if payloads == [] then [] else OnDisk(payloads[0]) + Frames(payloads[1..])
  }

  /** Why reading stopped at what is left, after `count` records. */
  predicate StoppedBy<E>(c: Codec<E>, status: Status, rest: Bytes, count: nat) {
    match status
    case Complete => rest == []
    case Truncated =>
      rest != [] && (|rest| < 4 || (|rest| < 8 + BigEndian.FirstNumber(rest) && BigEndian.FirstNumber(rest) <= MAX_RECORD_BYTES
                                    && count < MAX_RECOVERED_RECORDS))
    case Corrupt =>
      && |rest| >= 4
      && (|| BigEndian.FirstNumber(rest) > MAX_RECORD_BYTES || count == MAX_RECOVERED_RECORDS
          || (|rest| >= 8 + BigEndian.FirstNumber(rest)
              && var payload := rest[4..4 + BigEndian.FirstNumber(rest)];
                 || !(OnDisk(payload) <= rest) || c.decode(payload).None?
                 || c.decode(payload).value.version != 1 || c.decode(payload).value.sequence != count))
  }

  /** The records are exactly what these payloads read as, each version 1 and numbered on from `count`, and the
      data is those payloads' frames and what is left. */
  ghost predicate Explains<E>(c: Codec<E>, data: Bytes, count: nat, r: Recovery<E>, payloads: seq<Bytes>, rest: Bytes) {
    && |payloads| == |r.records| && count + |payloads| <= MAX_RECOVERED_RECORDS
    && (forall i :: 0 <= i < |payloads| ==>
          && |payloads[i]| <= MAX_RECORD_BYTES && c.decode(payloads[i]) == Some(r.records[i])
          && r.records[i].version == 1 && r.records[i].sequence == count + i)
    && data == Frames(payloads) + rest && StoppedBy(c, r.status, rest, count + |payloads|)
  }

  lemma OneRecord<E>(c: Codec<E>, data: Bytes, count: nat) returns (payload: Bytes)
    requires count <= MAX_RECOVERED_RECORDS && ReadNext(c, data, count).Read?
    ensures var r := ReadNext(c, data, count);
            && |payload| <= MAX_RECORD_BYTES && data == OnDisk(payload) + r.rest && c.decode(payload) == Some(r.record)
            && r.record.version == 1 && r.record.sequence == count && count < MAX_RECOVERED_RECORDS
  {
    hide ChecksumOf, OnDisk, Frame, BigEndian.Decode, BigEndian.Encode;
    var length := BigEndian.Decode(data[..4]);
    payload := data[4..4 + length];
    var trailer := data[4 + length..8 + length];
    FrameIsOnDisk(payload);
    BigEndian.EncodeOfDecode(data[..4]);
    BigEndian.EncodeOfDecode(trailer);
    FrameTogether(payload, trailer);
    assert data == data[..4] + payload + trailer + data[8 + length..];
  }

  lemma FrameTogether(payload: Bytes, trailer: Bytes)
    requires trailer == BigEndian.Encode(ChecksumOf(payload), 4)
    ensures Frame(payload) == BigEndian.Encode(|payload|, 4) + payload + trailer
  {
  }

  lemma NoRecord<E>(c: Codec<E>, data: Bytes, count: nat)
    requires count <= MAX_RECOVERED_RECORDS && ReadNext(c, data, count).Stop?
    ensures StoppedBy(c, ReadNext(c, data, count).status, data, count)
  {
    hide ChecksumOf;
    if |data| >= 4 {
      BigEndian.FirstIsDecoded(data);
      var length := BigEndian.FirstNumber(data);
      if length <= MAX_RECORD_BYTES && |data| >= 8 + length {
        var payload, trailer := data[4..4 + length], data[4 + length..8 + length];
        FrameIsOnDisk(payload);
        BigEndian.Widths();
        BigEndian.DecodeOfEncode(ChecksumOf(payload), 4);
        if OnDisk(payload) <= data {
          assert trailer == OnDisk(payload)[4 + length..8 + length] == BigEndian.Encode(ChecksumOf(payload), 4);
        }
      }
    }
  }

  lemma {:induction false} ReadingIsSound<E>(c: Codec<E>, data: Bytes, count: nat) returns (payloads: seq<Bytes>, rest: Bytes)
    requires count <= MAX_RECOVERED_RECORDS
    ensures Explains(c, data, count, RecoverFrom(c, data, count), payloads, rest)
    decreases |data|
  {
    hide ReadNext, OnDisk, StoppedBy;
    match ReadNext(c, data, count)
    case Stop(status) =>
      NoRecord(c, data, count);
      payloads, rest := [], data;
      assert [] + data == data;
    case Read(record, remaining) =>
      var payload := OneRecord(c, data, count);
      var more, left := ReadingIsSound(c, remaining, count + 1);
      payloads, rest := [payload] + more, left;
      assert payloads[1..] == more;
      assert data == OnDisk(payload) + (Frames(more) + rest) == Frames(payloads) + rest;
  }

  /** Recovery invents nothing. Of any file at all it returns only records that stand in it, in order, undamaged by
      their checksums, numbered from zero, at most 65,536 of them; complete means there was nothing else, and a
      truncated or corrupt file says what was wrong with the rest. */
  lemma RecoveredIsThere<E>(c: Codec<E>, file: Bytes) returns (payloads: seq<Bytes>, rest: Bytes)
    requires RecoverFile(c, file).Ok?
    ensures JOURNAL_MAGIC <= file
    ensures Explains(c, file[|JOURNAL_MAGIC|..], 0, RecoverFile(c, file).value, payloads, rest)
  {
    payloads, rest := ReadingIsSound(c, file[|JOURNAL_MAGIC|..], 0);
  }
}
