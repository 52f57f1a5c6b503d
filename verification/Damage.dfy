/** Exactly which files a load accepts, whatever follows the last whole record, and
    what damage it reports instead. */
module Damage {
  import opened Wrappers
  import opened Widths
  import opened ChangeTypes
  import opened Bytes
  import opened Codec
  import opened LogFile
  import opened Loading
  import opened LoadingInverse
  import opened Recovery
  import opened CrashSafety

  // ---------------------------------------------------------------------------
  // Whole records, and then something else
  // ---------------------------------------------------------------------------

  lemma {:induction false} AtBefore(p: seq<byte>, rest: seq<byte>, off: nat, bs: seq<byte>)
    requires At(p, off, bs)
    ensures At(p + rest, off, bs)
  {
    assert (p + rest)[off..off + |bs|] == p[off..off + |bs|];
  }

  /** The records of a log load one after the other, whatever follows them. */
  lemma {:induction false} LoadsPast(crc: Checksum, h: Header, log: seq<Record>, rest: seq<byte>, i: nat, outcome: u64 -> Outcome,
                                     lenient: bool, rs: seq<PreparedRecord>)
    requires LoadableLog(h, log) && i <= |log| && LoadRecords(log[..i], outcome) == Ok(rs)
    ensures var bytes := FileBytes(crc, h, log) + rest;
            LoadFrom(crc, bytes, FileSize(h, log[..i]), h, outcome, lenient, rs) ==
            match LoadRecords(log, outcome)
            case Err(e) => Err(e)
            case Ok(all) => LoadFrom(crc, bytes, FileSize(h, log), h, outcome, lenient, all)
    decreases |log| - i
  {
    hide RecordBytes, RecordSize, LoadableRecord, FileBytes, FileSize, NextChunk, LoadStep;
    if i == |log| {
      assert log[..i] == log;
    } else {
      var file, off := FileBytes(crc, h, log), FileSize(h, log[..i]);
      RecordInFile(crc, h, log, i);
      AtBefore(file, rest, off, RecordBytes(crc, h, log[i]));
      WholeChunk(crc, file + rest, off, h, log[i]);
      assert log[..i + 1][..i] == log[..i] && log[..i + 1][i] == log[i];
      assert LoadRecords(log[..i + 1], outcome) == LoadStep(rs, log[i], RecordSize(log[i]), outcome);
      if LoadRecords(log[..i + 1], outcome).Ok? {
        LoadsPast(crc, h, log, rest, i + 1, outcome, lenient, LoadRecords(log[..i + 1], outcome).value);
      } else {
        LoadErrorStays(log, outcome, i + 1);
      }
    }
  }

  lemma {:induction false} HeaderBefore(crc: Checksum, h: Header, log: seq<Record>, rest: seq<byte>)
    requires ValidHeader(h) && LoadableLog(h, log)
    ensures LoadHeader(crc, FileBytes(crc, h, log) + rest) == Ok(h)
  {
    hide LogBytes, LogSize, LoadableLog, ValidHeader, LoadHeader, HeaderBody, Enc32;
    var head := EncodeHeader(crc, h);
    assert (FileBytes(crc, h, log) + rest)[..|head|] == head;
    HeaderInFront(crc, h, FileBytes(crc, h, log) + rest);
  }

  /** A file that starts with the encoding of a log: the load gets past it, or fails as the log does. */
  lemma {:induction false} LoadFileWith(crc: Checksum, h: Header, log: seq<Record>, rest: seq<byte>, outcome: u64 -> Outcome, lenient: bool)
    requires ValidHeader(h) && h.active && LoadableLog(h, log)
    ensures var bytes := FileBytes(crc, h, log) + rest;
            LoadFile(crc, bytes, outcome, lenient) ==
            match LoadRecords(log, outcome)
            case Err(e) => Err(e)
            case Ok(all) =>
              match LoadFrom(crc, bytes, FileSize(h, log), h, outcome, lenient, all)
              case Err(e) => Err(e)
              case Ok(loaded) => Ok((h, loaded))
  {
    hide LoadFrom, LoadRecords, LoadHeader, FileBytes, LogSize, ValidHeader, LoadableLog;
    HeaderBefore(crc, h, log, rest);
    assert log[..0] == [];
    LoadNothing(h, outcome);
    LoadsPast(crc, h, log, rest, 0, outcome, lenient, []);
  }

  // ---------------------------------------------------------------------------
  // A torn tail
  // ---------------------------------------------------------------------------

  /** What an append that was cut short can leave: fewer than the four bytes of a
      length, or a length a record can have and fewer bytes than it announces. */
  predicate PartialFrame(tail: seq<byte>) {
    || |tail| < 4
    || (1 <= FromLE(tail[..4]) <= MAX_RECORD_BYTES && |tail| < FromLE(tail[..4]) + 8)
  }

  lemma {:induction false} PartialIsTorn(crc: Checksum, front: seq<byte>, tail: seq<byte>, h: Header)
    requires PartialFrame(tail)
    ensures NextChunk(crc, front + tail, |front|, h) == Ok(if tail == [] then End else Torn)
  {
    hide ParseRecord, FromLE;
    if |tail| >= 4 { assert (front + tail)[|front|..|front| + 4] == tail[..4]; }
  }

  lemma {:induction false} TornIsPartial(crc: Checksum, bytes: seq<byte>, off: nat, h: Header)
    requires off <= |bytes| && NextChunk(crc, bytes, off, h).Ok? && !NextChunk(crc, bytes, off, h).value.Whole?
    ensures PartialFrame(bytes[off..])
    ensures NextChunk(crc, bytes, off, h).value.End? <==> off == |bytes|
  {
    hide ParseRecord, FromLE;
    if off + 4 <= |bytes| { assert bytes[off..][..4] == bytes[off..off + 4]; }
  }

  /** The bytes are the file of `log`, which loads, and a partial frame behind it. */
  predicate FileThenTail(crc: Checksum, bytes: seq<byte>, h: Header, log: seq<Record>, tail: seq<byte>, outcome: u64 -> Outcome) {
    && ValidHeader(h) && h.active && LoadableLog(h, log) && LoadRecords(log, outcome).Ok?
    && PartialFrame(tail) && bytes == FileBytes(crc, h, log) + tail
  }

  /** What such a file loads as: exactly its records, ending where they end; a strict
      load refuses the tail. */
  lemma {:induction false} TailLoads(crc: Checksum, bytes: seq<byte>, h: Header, log: seq<Record>, tail: seq<byte>, outcome: u64 -> Outcome,
                                     lenient: bool)
    requires FileThenTail(crc, bytes, h, log, tail, outcome)
    ensures LoadFile(crc, bytes, outcome, lenient) ==
            if lenient || tail == [] then Ok((h, Loaded(FileSize(h, log), LoadRecords(log, outcome).value)))
            else Err(Truncated(FileSize(h, log)))
  {
    hide LoadFile, LoadRecords, FileBytes, LoadableLog, ValidHeader, NextChunk, PartialFrame;
    LoadFileWith(crc, h, log, tail, outcome, lenient);
    PartialIsTorn(crc, FileBytes(crc, h, log), tail, h);
  }

  /** What a load accepts ends in a partial frame, or in nothing. */
  lemma {:induction false} LoadFromTail(crc: Checksum, bytes: seq<byte>, off: nat, h: Header, outcome: u64 -> Outcome, lenient: bool,
                                        rs: seq<PreparedRecord>)
    requires off <= |bytes| && LoadFrom(crc, bytes, off, h, outcome, lenient, rs).Ok?
    ensures var end := LoadFrom(crc, bytes, off, h, outcome, lenient, rs).value.fileBytes;
            off <= end <= |bytes| && PartialFrame(bytes[end..])
    decreases |bytes| - off
  {
    hide NextChunk, LoadStep, PartialFrame;
    var chunk := NextChunk(crc, bytes, off, h).value;
    if chunk.Whole? {
      WholeFits(crc, bytes, off, h);
      LoadFromTail(crc, bytes, off + chunk.size, h, outcome, lenient, LoadStep(rs, chunk.record, chunk.size, outcome).value);
    } else {
      TornIsPartial(crc, bytes, off, h);
    }
  }

  lemma WholeFits(crc: Checksum, bytes: seq<byte>, off: nat, h: Header)
    requires NextChunk(crc, bytes, off, h).Ok? && NextChunk(crc, bytes, off, h).value.Whole?
    ensures off + NextChunk(crc, bytes, off, h).value.size <= |bytes| && NextChunk(crc, bytes, off, h).value.size > 8
  {
  }

  /** Lenient acceptance, both ways: the bytes are accepted as an active log exactly
      when they are the encoding of a valid active header and of records that load,
      and then at most a partial frame. */
  lemma {:induction false} LenientAcceptsExactly(crc: Checksum, bytes: seq<byte>, outcome: u64 -> Outcome)
    ensures (LoadFile(crc, bytes, outcome, true).Ok? && LoadFile(crc, bytes, outcome, true).value.0.active) <==>
            exists h: Header, log: seq<Record>, tail: seq<byte> :: FileThenTail(crc, bytes, h, log, tail, outcome)
  {
    hide LoadRecords, FileBytes, LoadableLog, ValidHeader, LoadFrom, LoadHeader, PartialFrame;
    if LoadFile(crc, bytes, outcome, true).Ok? && LoadFile(crc, bytes, outcome, true).value.0.active {
      var log := LoadInverse(crc, bytes, outcome, true);
      var (h, loaded) := LoadFile(crc, bytes, outcome, true).value;
      HeaderLoaded(crc, bytes);
      LoadFromTail(crc, bytes, HeaderSize(h), h, outcome, true, []);
      var tail := bytes[loaded.fileBytes..];
      assert bytes == bytes[..loaded.fileBytes] + tail;
      assert FileThenTail(crc, bytes, h, log, tail, outcome);
    }
    forall h: Header, log: seq<Record>, tail: seq<byte> | FileThenTail(crc, bytes, h, log, tail, outcome)
      ensures LoadFile(crc, bytes, outcome, true).Ok? && LoadFile(crc, bytes, outcome, true).value.0.active
    {
      TailLoads(crc, bytes, h, log, tail, outcome, true);
    }
  }

  /** The same for both kinds of load: a strict one leaves no tail. */
  lemma {:induction false} LoadAcceptsExactly(crc: Checksum, bytes: seq<byte>, outcome: u64 -> Outcome, lenient: bool)
    ensures (LoadFile(crc, bytes, outcome, lenient).Ok? && LoadFile(crc, bytes, outcome, lenient).value.0.active) <==>
            exists h: Header, log: seq<Record>, tail: seq<byte> ::
              FileThenTail(crc, bytes, h, log, tail, outcome) && (lenient || tail == [])
  {
    hide LoadFile, LoadRecords, FileBytes, LoadableLog, ValidHeader;
    if lenient {
      LenientAcceptsExactly(crc, bytes, outcome);
    } else {
      StrictAcceptsExactly(crc, bytes, outcome);
      forall h: Header, log: seq<Record>
        | ValidHeader(h) && h.active && LoadableLog(h, log) && LoadRecords(log, outcome).Ok? && bytes == FileBytes(crc, h, log)
        ensures FileThenTail(crc, bytes, h, log, [], outcome)
      {
        assert bytes + [] == bytes;
      }
      forall h: Header, log: seq<Record> | FileThenTail(crc, bytes, h, log, [], outcome) ensures bytes == FileBytes(crc, h, log) {
        assert FileBytes(crc, h, log) + [] == FileBytes(crc, h, log);
      }
    }
  }

  // ---------------------------------------------------------------------------
  // A damaged record
  // ---------------------------------------------------------------------------

  /** A frame whose stored checksum is not that of its payload. */
  predicate BadFrame(crc: Checksum, payload: seq<byte>, sum: u32) {
    0 < |payload| <= MAX_RECORD_BYTES && crc(payload) != sum
  }

  /** Behind any whole records, and whatever follows it, such a frame fails the load
      at its own offset, lenient or not; it is never taken for a torn tail. */
  lemma {:induction false} ChecksumIsReported(crc: Checksum, h: Header, log: seq<Record>, payload: seq<byte>, sum: u32, rest: seq<byte>,
                                              outcome: u64 -> Outcome, lenient: bool)
    requires ValidHeader(h) && h.active && LoadableLog(h, log) && LoadRecords(log, outcome).Ok? && BadFrame(crc, payload, sum)
    ensures LoadFile(crc, FileBytes(crc, h, log) + (LE(4, |payload|) + payload + LE(4, sum) + rest), outcome, lenient) ==
            Err(ChecksumMismatch(FileSize(h, log)))
  {
    hide LoadFile, LoadRecords, FileBytes, LoadableLog, ValidHeader, NextChunk, LE;
    var front, frame := FileBytes(crc, h, log), LE(4, |payload|) + payload + LE(4, sum);
    LoadFileWith(crc, h, log, frame + rest, outcome, lenient);
    BadChunk(crc, front, payload, sum, rest, h);
  }

  lemma {:induction false} BadChunk(crc: Checksum, front: seq<byte>, payload: seq<byte>, sum: u32, rest: seq<byte>, h: Header)
    requires BadFrame(crc, payload, sum)
    ensures NextChunk(crc, front + (LE(4, |payload|) + payload + LE(4, sum) + rest), |front|, h) == Err(ChecksumMismatch(|front|))
  {
    hide ParseRecord, LE, Dec32;
    var off, n := |front|, |payload|;
    var bytes := front + (LE(4, n) + payload + LE(4, sum) + rest);
    assert bytes[off..off + 4] == Enc32(n) by { assert Enc32(n) == LE(4, n); }
    assert bytes[off + 4..off + 4 + n] == payload;
    assert bytes[off + 4 + n..off + 8 + n] == Enc32(sum) by { assert Enc32(sum) == LE(4, sum); }
    DecEnc32(n);
    DecEnc32(sum);
  }

  /** The file with the payload of record `i` replaced by as many other bytes. */
  function Overwritten(crc: Checksum, h: Header, log: seq<Record>, i: nat, payload: seq<byte>): seq<byte>
    requires LoadableLog(h, log) && i < |log| && |payload| == |RecordPayload(h, log[i])|
  {
    var file, off := FileBytes(crc, h, log), FileSize(h, log[..i]);
    RecordInFile(crc, h, log, i);
    file[..off + 4] + payload + file[off + 4 + |payload|..]
  }

  /** A whole log with one record damaged: nothing of it is opened. */
  lemma {:induction false} DamagedRecordIsReported(crc: Checksum, h: Header, log: seq<Record>, i: nat, payload: seq<byte>,
                                                   outcome: u64 -> Outcome, lenient: bool)
    requires ValidHeader(h) && h.active && LoadableLog(h, log) && i < |log| && LoadRecords(log[..i], outcome).Ok?
    requires |payload| == |RecordPayload(h, log[i])| && crc(payload) != crc(RecordPayload(h, log[i]))
    ensures LoadFile(crc, Overwritten(crc, h, log, i, payload), outcome, lenient) == Err(ChecksumMismatch(FileSize(h, log[..i])))
  {
    hide LoadFile, LoadRecords, FileBytes, ValidHeader, LE, LoadableRecord, RecordPayload, Overwritten, FileSize;
    var rest := OverwrittenIs(crc, h, log, i, payload);
    ChecksumIsReported(crc, h, log[..i], payload, crc(RecordPayload(h, log[i])), rest, outcome, lenient);
  }

  lemma {:induction false} OverwrittenIs(crc: Checksum, h: Header, log: seq<Record>, i: nat, payload: seq<byte>) returns (rest: seq<byte>)
    requires LoadableLog(h, log) && i < |log| && |payload| == |RecordPayload(h, log[i])|
    ensures LoadableLog(h, log[..i])
    ensures Overwritten(crc, h, log, i, payload) ==
            FileBytes(crc, h, log[..i]) + (LE(4, |payload|) + payload + LE(4, crc(RecordPayload(h, log[i]))) + rest)
  {
    hide FileBytes, LE, LoadableRecord, RecordPayload, FileSize;
    var file, off, p, n := FileBytes(crc, h, log), FileSize(h, log[..i]), RecordPayload(h, log[i]), |payload|;
    RecordInFile(crc, h, log, i);
    FrontOfFile(crc, h, log, i);
    FrameIs(crc, h, log[i]);
    AtSplit(file, off, LE(4, n) + p, LE(4, crc(p)));
    AtSplit(file, off, LE(4, n), p);
    rest := file[off + 8 + n..];
    Reassemble(file, off, LE(4, n), payload, LE(4, crc(p)));
  }

  lemma FrameIs(crc: Checksum, h: Header, r: Record)
    requires LoadableRecord(h, r)
    ensures RecordBytes(crc, h, r) == LE(4, |RecordPayload(h, r)|) + RecordPayload(h, r) + LE(4, crc(RecordPayload(h, r)))
  {
  }

  lemma {:induction false} FrontOfFile(crc: Checksum, h: Header, log: seq<Record>, i: nat)
    requires LoadableLog(h, log) && i <= |log|
    ensures FileSize(h, log[..i]) <= FileSize(h, log)
    ensures FileBytes(crc, h, log)[..FileSize(h, log[..i])] == FileBytes(crc, h, log[..i])
  {
    hide LoadableRecord, RecordBytes, RecordSize, EncodeHeader;
    LogBytesPrefix(crc, h, log, i);
    var file, hs, n := FileBytes(crc, h, log), HeaderSize(h), LogSize(log[..i]);
    assert file[..hs + n] == file[..hs] + file[hs..hs + n];
    assert file[hs..hs + n] == LogBytes(crc, h, log)[..n];
  }

  lemma {:induction false} Reassemble(file: seq<byte>, off: nat, a: seq<byte>, b: seq<byte>, c: seq<byte>)
    requires At(file, off, a) && At(file, off + |a| + |b|, c)
    ensures file[..off + |a|] + b + file[off + |a| + |b|..] == file[..off] + (a + b + c + file[off + |a| + |b| + |c|..])
  {
    assert file[..off + |a|] == file[..off] + a;
    assert file[off + |a| + |b|..] == c + file[off + |a| + |b| + |c|..];
  }

  /** A length no record can have fails the load, too. */
  lemma {:induction false} BadLengthIsReported(crc: Checksum, h: Header, log: seq<Record>, n: u32, rest: seq<byte>, outcome: u64 -> Outcome,
                                               lenient: bool)
    requires ValidHeader(h) && h.active && LoadableLog(h, log) && LoadRecords(log, outcome).Ok? && (n == 0 || n > MAX_RECORD_BYTES)
    ensures LoadFile(crc, FileBytes(crc, h, log) + (LE(4, n) + rest), outcome, lenient) == Err(RecordTooLarge(n))
  {
    hide LoadFile, LoadRecords, FileBytes, LoadableLog, ValidHeader, ParseRecord, LE, Dec32;
    LoadFileWith(crc, h, log, LE(4, n) + rest, outcome, lenient);
    var front := FileBytes(crc, h, log);
    assert (front + (LE(4, n) + rest))[|front|..|front| + 4] == Enc32(n) by { assert Enc32(n) == LE(4, n); }
    DecEnc32(n);
  }

  // ---------------------------------------------------------------------------
  // Opening
  // ---------------------------------------------------------------------------

  /** A log with one record damaged does not open. */
  lemma {:induction false} DamagedLogDoesNotOpen(crc: Checksum, h: Header, log: seq<Record>, i: nat, payload: seq<byte>, outcome: u64 -> Outcome)
    requires ValidHeader(h) && h.active && LoadableLog(h, log) && i < |log| && LoadRecords(log[..i], outcome).Ok?
    requires |payload| == |RecordPayload(h, log[i])| && crc(payload) != crc(RecordPayload(h, log[i]))
    ensures OpenBytes(crc, Overwritten(crc, h, log, i, payload), outcome) == Err(ChecksumMismatch(FileSize(h, log[..i])))
  {
    hide LoadFile, LoadRecords, FileBytes, LoadableRecord, RecordPayload, Overwritten, FileSize, ValidHeader;
    DamagedRecordIsReported(crc, h, log, i, payload, outcome, true);
  }
}
