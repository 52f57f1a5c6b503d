/** Only what the encoder could have written is ever loaded. */
module LoadingInverse {
  import opened Wrappers
  import opened Widths
  import opened ChangeTypes
  import opened Bytes
  import opened Codec
  import opened LogFile
  import opened Loading

  lemma {:induction false} ParseInverse(p: seq<byte>, h: Header)
    requires 0 < |p| <= MAX_RECORD_BYTES && ParseRecord(p, h).Ok?
    ensures LoadableRecord(h, ParseRecord(p, h).value)
    ensures RecordPayload(h, ParseRecord(p, h).value) == p
  {
    hide DecodeRecord, DecodeFinalize, FinalizePayload, Payload, Encodable;
    if p[0] == PREPARED_TAG {
      RecordInverse(p, h);
    } else {
      FinalizeInverse(p);
    }
  }

  /** A chunk read as a whole record is that record's own encoding. */
  lemma {:induction false} ChunkInverse(crc: Checksum, bytes: seq<byte>, off: nat, h: Header)
    requires NextChunk(crc, bytes, off, h).Ok? && NextChunk(crc, bytes, off, h).value.Whole?
    ensures var c := NextChunk(crc, bytes, off, h).value;
            LoadableRecord(h, c.record) && c.size == RecordSize(c.record) && bytes[off..off + c.size] == RecordBytes(crc, h, c.record)
  {
    hide ParseRecord, LoadableRecord, RecordPayload, Enc32, Dec32;
    var n := Dec32(bytes[off..off + 4]);
    var p, sum := bytes[off + 4..off + 4 + n], bytes[off + 4 + n..off + 8 + n];
    ParseInverse(p, h);
    assert bytes[off..off + 8 + n] == bytes[off..off + 4] + p + sum;
  }

  lemma {:induction false} LogOneMore(crc: Checksum, h: Header, log: seq<Record>, r: Record,
                                      outcome: u64 -> Outcome, rs: seq<PreparedRecord>)
    requires LoadableLog(h, log) && LoadableRecord(h, r) && LoadRecords(log, outcome) == Ok(rs)
    ensures LoadableLog(h, log + [r]) && LogBytes(crc, h, log + [r]) == LogBytes(crc, h, log) + RecordBytes(crc, h, r)
    ensures LogSize(log + [r]) == LogSize(log) + RecordSize(r)
    ensures LoadRecords(log + [r], outcome) == LoadStep(rs, r, RecordSize(r), outcome)
  {
    hide LoadableRecord, RecordBytes, RecordSize, LoadStep;
    assert (log + [r])[..|log|] == log;
  }

  /** Loading on from a boundary reads the records whose encoding the bytes are. */
  lemma {:induction false} LoadFromInverse(crc: Checksum, bytes: seq<byte>, off: nat, h: Header,
                                           outcome: u64 -> Outcome, lenient: bool,
                                           rs: seq<PreparedRecord>, start: nat, before: seq<Record>) returns (log: seq<Record>)
    requires LoadFrom(crc, bytes, off, h, outcome, lenient, rs).Ok?
    requires LoadableLog(h, before) && LoadRecords(before, outcome) == Ok(rs)
    requires start <= off <= |bytes| && bytes[start..off] == LogBytes(crc, h, before)
    ensures var loaded := LoadFrom(crc, bytes, off, h, outcome, lenient, rs).value;
            && LoadableLog(h, log) && LoadRecords(log, outcome) == Ok(loaded.records)
            && start <= loaded.fileBytes <= |bytes| && bytes[start..loaded.fileBytes] == LogBytes(crc, h, log)
            && (!lenient ==> loaded.fileBytes == |bytes|)
    decreases |bytes| - off
  {
    hide NextChunk, LoadStep, LoadRecords, LogBytes, LoadableLog, RecordBytes, RecordSize, LoadableRecord;
    var chunk := NextChunk(crc, bytes, off, h).value;
    log := before;
    if chunk.End? { EndOnlyAtEnd(crc, bytes, off, h); }
    if chunk.Whole? {
      ChunkInverse(crc, bytes, off, h);
      var r, size := chunk.record, chunk.size;
      LogOneMore(crc, h, before, r, outcome, rs);
      var rs' := LoadStep(rs, r, size, outcome).value;
      assert bytes[start..off + size] == bytes[start..off] + bytes[off..off + size];
      log := LoadFromInverse(crc, bytes, off + size, h, outcome, lenient, rs', start, before + [r]);
    }
  }

  lemma EndOnlyAtEnd(crc: Checksum, bytes: seq<byte>, off: nat, h: Header)
    requires off <= |bytes| && NextChunk(crc, bytes, off, h) == Ok(End)
    ensures off == |bytes|
  {
  }

  /** Any file a load accepts is, up to the byte it reports, the encoding of its
      header and of records that load to the same; a strict load leaves no byte over. */
  lemma {:induction false} LoadInverse(crc: Checksum, bytes: seq<byte>,
                                       outcome: u64 -> Outcome, lenient: bool) returns (log: seq<Record>)
    requires LoadFile(crc, bytes, outcome, lenient).Ok? && LoadFile(crc, bytes, outcome, lenient).value.0.active
    ensures var (h, loaded) := LoadFile(crc, bytes, outcome, lenient).value;
            && ValidHeader(h) && LoadableLog(h, log) && LoadRecords(log, outcome) == Ok(loaded.records)
            && HeaderSize(h) <= loaded.fileBytes <= |bytes| && bytes[..loaded.fileBytes] == FileBytes(crc, h, log)
            && (!lenient ==> loaded.fileBytes == |bytes|)
  {
    hide LoadFrom, LoadRecords, LogBytes, DecodeHeader, ValidHeader, EncodeHeader, Dec16;
    var h := LoadFile(crc, bytes, outcome, lenient).value.0;
    HeaderLoaded(crc, bytes);
    var hs := HeaderSize(h);
    EmptyLog(crc, h, outcome);
    assert bytes[hs..hs] == [];
    log := LoadFromInverse(crc, bytes, hs, h, outcome, lenient, [], hs, []);
    var end := LoadFile(crc, bytes, outcome, lenient).value.1.fileBytes;
    assert bytes[..end] == bytes[..hs] + bytes[hs..end];
  }

  lemma EmptyLog(crc: Checksum, h: Header, outcome: u64 -> Outcome)
    ensures LoadableLog(h, []) && LogBytes(crc, h, []) == [] && LoadRecords([], outcome) == Ok([])
  {
  }

  lemma {:induction false} HeaderLoaded(crc: Checksum, bytes: seq<byte>)
    requires LoadHeader(crc, bytes).Ok?
    ensures var h := LoadHeader(crc, bytes).value;
            ValidHeader(h) && HeaderSize(h) <= |bytes| && bytes[..HeaderSize(h)] == EncodeHeader(crc, h)
  {
    hide DecodeHeader, ValidHeader, EncodeHeader, Dec16;
    var version := Dec16(bytes[4..6]);
    var size := if version == 1 then V1_HEADER_SIZE else V2_HEADER_SIZE;
    HeaderInverse(crc, bytes[..size]);
    EncodedLength(crc, LoadHeader(crc, bytes).value);
  }

  lemma EncodedLength(crc: Checksum, h: Header)
    ensures |EncodeHeader(crc, h)| == HeaderSize(h)
  {
  }

  /** Strict acceptance, both ways: the bytes are accepted as an active log exactly
      when they are the encoding of a valid active header and of records that load. */
  lemma {:induction false} StrictAcceptsExactly(crc: Checksum, bytes: seq<byte>, outcome: u64 -> Outcome)
    ensures (LoadFile(crc, bytes, outcome, false).Ok? && LoadFile(crc, bytes, outcome, false).value.0.active) <==>
            exists h: Header, log: seq<Record> ::
              ValidHeader(h) && h.active && LoadableLog(h, log) && LoadRecords(log, outcome).Ok? && bytes == FileBytes(crc, h, log)
  {
    hide LoadFile, LoadRecords, FileBytes, LoadableLog, ValidHeader, FileSize;
    if LoadFile(crc, bytes, outcome, false).Ok? && LoadFile(crc, bytes, outcome, false).value.0.active {
      var log := LoadInverse(crc, bytes, outcome, false);
      assert bytes[..|bytes|] == bytes;
      var h := LoadFile(crc, bytes, outcome, false).value.0;
      assert bytes == FileBytes(crc, h, log);
    }
    forall h: Header, log: seq<Record>
      | ValidHeader(h) && h.active && LoadableLog(h, log) && LoadRecords(log, outcome).Ok? && bytes == FileBytes(crc, h, log)
      ensures LoadFile(crc, bytes, outcome, false).Ok? && LoadFile(crc, bytes, outcome, false).value.0.active
    {
      WholeFileLoads(crc, h, log, outcome, false);
    }
  }

  lemma {:induction false} WholeFileLoads(crc: Checksum, h: Header, log: seq<Record>, outcome: u64 -> Outcome, lenient: bool)
    requires ValidHeader(h) && h.active && LoadableLog(h, log) && LoadRecords(log, outcome).Ok?
    ensures LoadFile(crc, FileBytes(crc, h, log), outcome, lenient) == Ok((h, Loaded(FileSize(h, log), LoadRecords(log, outcome).value)))
  {
    hide LoadFile, LoadRecords, FileBytes, LoadableLog, ValidHeader, LogSize;
    var size := FileSize(h, log);
    TornTailRecovery(crc, h, log, size, outcome, lenient);
    var k := WholeRecords(h, log, size);
    assert log[..|log|] == log;
    if k < |log| { FileSizeMonotone(h, log, k + 1, |log|); }
    var bytes := FileBytes(crc, h, log);
    assert bytes[..size] == bytes;
  }
}
