/** Loading a log: record by record, and from the bytes a crash left behind. */
module Loading {
  import opened Wrappers
  import opened Widths
  import opened ChangeTypes
  import opened Bytes
  import opened Codec
  import opened LogFile

  /** One prepared transaction as the stream remembers it. */
  datatype PreparedRecord = PreparedRecord(
    batch: Batch,
    outcome: Outcome,
    finalized: bool,
    preparedDurable: bool,
    stagedFinalize: Option<Option<u64>>,
    preparedFileBytes: nat,
    retainedFileBytes: nat)

  // ---------------------------------------------------------------------------
  // Record by record
  // ---------------------------------------------------------------------------

  /** The first loaded record of a transaction. */
  function FindTxn(rs: seq<PreparedRecord>, txn: u64): (p: Option<nat>)
    ensures p.Some? ==> p.value < |rs| && rs[p.value].batch.txn == txn
    ensures p.Some? ==> forall i :: 0 <= i < p.value ==> rs[i].batch.txn != txn
    ensures p.None? ==> forall i :: 0 <= i < |rs| ==> rs[i].batch.txn != txn
  {
    if rs == [] then None
    else
      var before := FindTxn(rs[..|rs| - 1], txn);
      if before.Some? then before
      else if rs[|rs| - 1].batch.txn == txn then Some(|rs| - 1) else None
  }

  function LoadStep(rs: seq<PreparedRecord>, r: Record, size: nat, outcome: u64 -> Outcome)
      : Result<seq<PreparedRecord>, StreamError>
  {
    match r
    case Prepared(b) =>
      Ok(rs + [PreparedRecord(b, outcome(b.txn), false, true, None, size, size)])
    case Finalize(txn, commit) =>
      match FindTxn(rs, txn)
      case None => Err(InvalidRecord(FinalizeWithoutPrepare))
      case Some(i) =>
        if rs[i].finalized then Err(InvalidRecord(DuplicateFinalize))
        else Ok(rs[i := rs[i].(finalized := true, outcome := Committed(commit),
                               retainedFileBytes := rs[i].retainedFileBytes + size)])
  }

  /** A record the encoder can write and the decoder gives back. */
  predicate LoadableRecord(h: Header, r: Record) {
    match r
    case Prepared(b) => Encodable(h, b)
    case Finalize(txn, commit) => txn != 0 && commit != Some(0)
  }

  predicate LoadableLog(h: Header, log: seq<Record>) {
    forall i :: 0 <= i < |log| ==> LoadableRecord(h, log[i])
  }

  function RecordPayload(h: Header, r: Record): (bs: seq<byte>)
    requires LoadableRecord(h, r)
    ensures 0 < |bs| <= MAX_RECORD_BYTES && |bs| + 8 == RecordSize(r)
  {
    match r
    case Prepared(b) => Payload(b)
    case Finalize(txn, commit) => FinalizePayload(txn, commit)
  }

  /** The bytes a record takes in the file, frame included. */
  function RecordSize(r: Record): nat {
    match r
    case Prepared(b) => PayloadSize(b) + 8
    case Finalize(_, _) => 32
  }

  function LoadRecords(log: seq<Record>, outcome: u64 -> Outcome): Result<seq<PreparedRecord>, StreamError> {
    if log == [] then Ok([])
    else
      var n := |log| - 1;
      var rs :- LoadRecords(log[..n], outcome);
      LoadStep(rs, log[n], RecordSize(log[n]), outcome)
  }

  /** An error while loading a prefix is the error of the whole. */
  lemma {:induction false} LoadErrorStays(log: seq<Record>, outcome: u64 -> Outcome, k: nat)
    requires k <= |log| && LoadRecords(log[..k], outcome).Err?
    ensures LoadRecords(log, outcome) == LoadRecords(log[..k], outcome)
  {
    if k == |log| {
      assert log[..k] == log;
    } else {
      assert log[..|log| - 1][..k] == log[..k];
      LoadErrorStays(log[..|log| - 1], outcome, k);
    }
  }

  // ---------------------------------------------------------------------------
  // The bytes of a log
  // ---------------------------------------------------------------------------

  function RecordBytes(crc: Checksum, h: Header, r: Record): (bs: seq<byte>)
    requires LoadableRecord(h, r)
    ensures |bs| == RecordSize(r)
  {
    Frame(crc, RecordPayload(h, r))
  }

  function LogBytes(crc: Checksum, h: Header, log: seq<Record>): (bs: seq<byte>)
    requires LoadableLog(h, log)
    ensures |bs| == LogSize(log)
  {
    if log == [] then []
    else LogBytes(crc, h, log[..|log| - 1]) + RecordBytes(crc, h, log[|log| - 1])
  }

  function LogSize(log: seq<Record>): nat {
    if log == [] then 0 else LogSize(log[..|log| - 1]) + RecordSize(log[|log| - 1])
  }

  function FileBytes(crc: Checksum, h: Header, log: seq<Record>): (bs: seq<byte>)
    requires LoadableLog(h, log)
    ensures |bs| == FileSize(h, log)
  {
    EncodeHeader(crc, h) + LogBytes(crc, h, log)
  }

  function FileSize(h: Header, log: seq<Record>): nat {
    HeaderSize(h) + LogSize(log)
  }

  lemma {:induction false} LogBytesPrefix(crc: Checksum, h: Header, log: seq<Record>, k: nat)
    requires LoadableLog(h, log) && k <= |log|
    ensures LogSize(log[..k]) <= LogSize(log)
    ensures LogBytes(crc, h, log)[..LogSize(log[..k])] == LogBytes(crc, h, log[..k])
  {
    hide RecordBytes, RecordSize, LoadableRecord;
    if k == |log| {
      assert log[..k] == log;
      assert LogBytes(crc, h, log)[..|LogBytes(crc, h, log)|] == LogBytes(crc, h, log);
    } else {
      var front := log[..|log| - 1];
      assert front[..k] == log[..k];
      LogBytesPrefix(crc, h, front, k);
      assert LogBytes(crc, h, log)[..LogSize(front)] == LogBytes(crc, h, front);
    }
  }

  /** Record `i` stands in the file right after the first `i` records. */
  lemma {:induction false} RecordInFile(crc: Checksum, h: Header, log: seq<Record>, i: nat)
    requires LoadableLog(h, log) && i < |log|
    ensures FileSize(h, log[..i]) + RecordSize(log[i]) == FileSize(h, log[..i + 1]) <= FileSize(h, log)
    ensures At(FileBytes(crc, h, log), FileSize(h, log[..i]), RecordBytes(crc, h, log[i]))
  {
    hide RecordBytes, RecordSize, LoadableRecord, EncodeHeader;
    assert log[..i + 1][..i] == log[..i] && log[..i + 1][i] == log[i];
    LogBytesPrefix(crc, h, log, i + 1);
    var file, hs := FileBytes(crc, h, log), HeaderSize(h);
    var body := LogBytes(crc, h, log);
    assert body[..LogSize(log[..i + 1])] == LogBytes(crc, h, log[..i]) + RecordBytes(crc, h, log[i]);
    var a, b := LogSize(log[..i]), LogSize(log[..i + 1]);
    assert file[hs + a..hs + b] == body[a..b] == body[..b][a..];
  }

  // ---------------------------------------------------------------------------
  // Loading bytes
  // ---------------------------------------------------------------------------

  datatype Loaded = Loaded(fileBytes: nat, records: seq<PreparedRecord>)

  function ParseRecord(p: seq<byte>, h: Header): Result<Record, StreamError>
    requires p != []
  {
    if p[0] == PREPARED_TAG then
      var b :- DecodeRecord(p, h);
      Ok(Prepared(b))
    else if p[0] == FINALIZE_TAG then
      var f :- DecodeFinalize(p);
      Ok(Finalize(f.0, f.1))
    else Err(InvalidRecord(UnknownTag))
  }

  /** What the bytes from `off` hold: the end, a torn record, or a record and where it ends. */
  datatype Chunk = End | Torn | Whole(record: Record, size: nat)

  function NextChunk(crc: Checksum, bytes: seq<byte>, off: nat, h: Header): (r: Result<Chunk, StreamError>)
    ensures r.Ok? && r.value.Whole? ==> off + r.value.size <= |bytes| && r.value.size > 8
  {
    if off >= |bytes| then Ok(End)
    else if off + 4 > |bytes| then Ok(Torn)
    else
      var length := Dec32(bytes[off..off + 4]);
      if length == 0 || length > MAX_RECORD_BYTES then Err(RecordTooLarge(length))
      else if off + 8 + length > |bytes| then Ok(Torn)
      else
        var payload := bytes[off + 4..off + 4 + length];
        if crc(payload) != Dec32(bytes[off + 4 + length..off + 8 + length]) then Err(ChecksumMismatch(off))
        else
          var r :- ParseRecord(payload, h);
          Ok(Whole(r, 8 + length))
  }

  /** Loading from `off` with `rs` already loaded.  A torn tail ends a lenient load
      at the last whole record and fails a strict one. */
  function LoadFrom(crc: Checksum, bytes: seq<byte>, off: nat, h: Header, outcome: u64 -> Outcome,
                    lenient: bool, rs: seq<PreparedRecord>): Result<Loaded, StreamError>
    decreases |bytes| - off
  {
    var chunk :- NextChunk(crc, bytes, off, h);
    match chunk
    case End => Ok(Loaded(|bytes|, rs))
    case Torn => if lenient then Ok(Loaded(off, rs)) else Err(Truncated(off))
    case Whole(r, size) =>
      var rs' :- LoadStep(rs, r, size, outcome);
      LoadFrom(crc, bytes, off + size, h, outcome, lenient, rs')
  }

  /** Opening a file: its header, then its records.  An inactive header ends the load. */
  function LoadFile(crc: Checksum, bytes: seq<byte>, outcome: u64 -> Outcome, lenient: bool)
      : Result<(Header, Loaded), StreamError>
  {
    var h :- LoadHeader(crc, bytes);
    if !h.active then Ok((h, Loaded(|bytes|, [])))
    else
      var loaded :- LoadFrom(crc, bytes, HeaderSize(h), h, outcome, lenient, []);
      Ok((h, loaded))
  }

  function LoadHeader(crc: Checksum, bytes: seq<byte>): Result<Header, StreamError> {
    if |bytes| < 6 then Err(Truncated(0))
    else if bytes[0..4] != MAGIC then Err(InvalidMagic)
    else
      var version := Dec16(bytes[4..6]);
      if version != 1 && version != FORMAT_VERSION then Err(UnsupportedVersion(version))
      else
        var size := if version == 1 then V1_HEADER_SIZE else V2_HEADER_SIZE;
        if |bytes| < size then Err(Truncated(0)) else DecodeHeader(crc, bytes[..size])
  }

  lemma {:induction false} ParseRoundTrip(h: Header, r: Record)
    requires LoadableRecord(h, r)
    ensures ParseRecord(RecordPayload(h, r), h) == Ok(r)
  {
    match r
    case Prepared(b) =>
      RecordRoundTrip(h, b);
      assert Payload(b)[0] == PREPARED_TAG;
    case Finalize(txn, commit) =>
      FinalizeRoundTrip(txn, commit);
      assert FinalizePayload(txn, commit)[0] == FINALIZE_TAG;
  }

  /** A whole frame in the bytes is read as the record it was written from. */
  lemma {:induction false} WholeChunk(crc: Checksum, bytes: seq<byte>, off: nat, h: Header, r: Record)
    requires LoadableRecord(h, r) && At(bytes, off, RecordBytes(crc, h, r))
    ensures NextChunk(crc, bytes, off, h) == Ok(Whole(r, RecordSize(r)))
  {
    hide RecordPayload, LoadableRecord, ParseRecord, Enc32, Dec32;
    var p := RecordPayload(h, r);
    AtSplit(bytes, off, Enc32(|p|) + p, Enc32(crc(p)));
    AtSplit(bytes, off, Enc32(|p|), p);
    DecEnc32(|p|);
    DecEnc32(crc(p));
    ParseRoundTrip(h, r);
    var n := |p|;
    assert bytes[off..off + 4] == Enc32(n);
    assert bytes[off + 4..off + 4 + n] == p;
    assert bytes[off + 4 + n..off + 8 + n] == Enc32(crc(p));
  }

  /** A frame cut short is read as torn, never as something else. */
  lemma {:induction false} TornChunk(crc: Checksum, bytes: seq<byte>, off: nat, h: Header, r: Record, cut: nat)
    requires LoadableRecord(h, r) && At(bytes, off, RecordBytes(crc, h, r))
    requires off < cut < off + RecordSize(r)
    ensures NextChunk(crc, bytes[..cut], off, h) == Ok(Torn)
  {
    hide RecordPayload, LoadableRecord, ParseRecord, Enc32, Dec32;
    var p := RecordPayload(h, r);
    AtSplit(bytes, off, Enc32(|p|) + p, Enc32(crc(p)));
    AtSplit(bytes, off, Enc32(|p|), p);
    DecEnc32(|p|);
    if off + 4 <= cut {
      assert bytes[..cut][off..off + 4] == bytes[off..off + 4] == Enc32(|p|);
    }
  }

  // ---------------------------------------------------------------------------
  // Torn tails
  // ---------------------------------------------------------------------------

  function WholeFrom(h: Header, log: seq<Record>, cut: nat, i: nat): (k: nat)
    requires i <= |log| && FileSize(h, log[..i]) <= cut
    ensures k <= |log| && FileSize(h, log[..k]) <= cut
    ensures k < |log| ==> cut < FileSize(h, log[..k + 1])
    decreases |log| - i
  {
    if i < |log| && FileSize(h, log[..i + 1]) <= cut then WholeFrom(h, log, cut, i + 1) else i
  }

  /** How many records lie wholly inside the first `cut` bytes of the file. */
  function WholeRecords(h: Header, log: seq<Record>, cut: nat): (k: nat)
    requires HeaderSize(h) <= cut
    ensures k <= |log| && FileSize(h, log[..k]) <= cut
    ensures k < |log| ==> cut < FileSize(h, log[..k + 1])
  {
    assert log[..0] == [];
    WholeFrom(h, log, cut, 0)
  }

  /** From the boundary after record `i`, loading the first `cut` bytes does what
      loading the records wholly inside them does, and then meets the tail. */
  lemma {:induction false} LoadFromBoundary(crc: Checksum, h: Header, log: seq<Record>, cut: nat, i: nat,
                           outcome: u64 -> Outcome, lenient: bool, rs: seq<PreparedRecord>)
    requires LoadableLog(h, log) && HeaderSize(h) <= cut <= FileSize(h, log)
    requires i <= WholeRecords(h, log, cut) && LoadRecords(log[..i], outcome) == Ok(rs)
    ensures var k := WholeRecords(h, log, cut);
            LoadFrom(crc, FileBytes(crc, h, log)[..cut], FileSize(h, log[..i]), h, outcome, lenient, rs) ==
            match LoadRecords(log[..k], outcome)
            case Err(e) => Err(e)
            case Ok(all) =>
              if lenient || cut == FileSize(h, log[..k]) then Ok(Loaded(FileSize(h, log[..k]), all))
              else Err(Truncated(FileSize(h, log[..k])))
    decreases |log| - i
  {
    hide RecordBytes, RecordSize, LoadableRecord, FileBytes, FileSize, NextChunk, LoadStep;
    var file := FileBytes(crc, h, log);
    var k := WholeRecords(h, log, cut);
    var bytes := file[..cut];
    if i < k {
      RecordInFile(crc, h, log, i);
      FileSizeMonotone(h, log, i + 1, k);
      CutKeeps(file, cut, FileSize(h, log[..i]), RecordBytes(crc, h, log[i]));
      WholeChunk(crc, bytes, FileSize(h, log[..i]), h, log[i]);
      assert log[..i + 1][..i] == log[..i] && log[..i + 1][i] == log[i];
      assert LoadRecords(log[..i + 1], outcome) == LoadStep(rs, log[i], RecordSize(log[i]), outcome);
      if LoadRecords(log[..i + 1], outcome).Ok? {
        LoadFromBoundary(crc, h, log, cut, i + 1, outcome, lenient, LoadRecords(log[..i + 1], outcome).value);
      } else {
        assert log[..k][..i + 1] == log[..i + 1];
        LoadErrorStays(log[..k], outcome, i + 1);
      }
    } else {
      TailChunk(crc, h, log, cut);
    }
  }

  lemma {:induction false} CutKeeps(file: seq<byte>, cut: nat, off: nat, bs: seq<byte>)
    requires At(file, off, bs) && off + |bs| <= cut <= |file|
    ensures At(file[..cut], off, bs)
  {
    assert file[..cut][off..off + |bs|] == file[off..off + |bs|];
  }

  lemma {:induction false} FileSizeMonotone(h: Header, log: seq<Record>, i: nat, k: nat)
    requires i <= k <= |log|
    ensures FileSize(h, log[..i]) <= FileSize(h, log[..k])
    decreases k
  {
    if i < k {
      assert log[..k][..k - 1] == log[..k - 1];
      FileSizeMonotone(h, log, i, k - 1);
    }
  }

  lemma {:induction false} TailChunk(crc: Checksum, h: Header, log: seq<Record>, cut: nat)
    requires LoadableLog(h, log) && HeaderSize(h) <= cut <= FileSize(h, log)
    ensures var off := FileSize(h, log[..WholeRecords(h, log, cut)]);
            off <= cut &&
            NextChunk(crc, FileBytes(crc, h, log)[..cut], off, h) == Ok(if cut == off then End else Torn)
  {
    hide RecordBytes, RecordSize, LoadableRecord, FileBytes, FileSize;
    var k := WholeRecords(h, log, cut);
    var off := FileSize(h, log[..k]);
    if cut == off {
    } else {
      assert log[..|log|] == log;
      RecordInFile(crc, h, log, k);
      hide NextChunk;
      TornChunk(crc, FileBytes(crc, h, log), off, h, log[k], cut);
    }
  }

  /** For every log and every cut at or after its header: a lenient load keeps
      exactly the records wholly inside the cut and ends the file there, and a
      strict load of a cut inside a record is refused. */
  lemma {:induction false} TornTailRecovery(crc: Checksum, h: Header, log: seq<Record>, cut: nat,
                                            outcome: u64 -> Outcome, lenient: bool)
    requires ValidHeader(h) && h.active && LoadableLog(h, log)
    requires HeaderSize(h) <= cut <= FileSize(h, log)
    ensures var k := WholeRecords(h, log, cut);
            LoadFile(crc, FileBytes(crc, h, log)[..cut], outcome, lenient) ==
            match LoadRecords(log[..k], outcome)
            case Err(e) => Err(e)
            case Ok(rs) =>
              if lenient || cut == FileSize(h, log[..k]) then Ok((h, Loaded(FileSize(h, log[..k]), rs)))
              else Err(Truncated(FileSize(h, log[..k])))
  {
    hide LoadFrom, WholeRecords, LoadRecords, DecodeHeader, LogBytes, LogSize, ValidHeader, LoadableLog;
    var bytes := FileBytes(crc, h, log)[..cut];
    HeaderLoads(crc, h, log, cut);
    assert log[..0] == [];
    LoadNothing(h, outcome);
    LoadFromBoundary(crc, h, log, cut, 0, outcome, lenient, []);
  }

  lemma LoadNothing(h: Header, outcome: u64 -> Outcome)
    ensures LoadRecords([], outcome) == Ok([])
    ensures FileSize(h, []) == HeaderSize(h)
  {
  }

  lemma {:induction false} HeaderLoads(crc: Checksum, h: Header, log: seq<Record>, cut: nat)
    requires ValidHeader(h) && LoadableLog(h, log) && HeaderSize(h) <= cut <= FileSize(h, log)
    ensures LoadHeader(crc, FileBytes(crc, h, log)[..cut]) == Ok(h)
  {
    hide LogBytes, LogSize, LoadableLog, ValidHeader, LoadHeader, HeaderBody, Enc32;
    var head := EncodeHeader(crc, h);
    assert FileBytes(crc, h, log)[..cut][..|head|] == head;
    HeaderInFront(crc, h, FileBytes(crc, h, log)[..cut]);
  }

  /** An encoded header at the front of any bytes is read back. */
  lemma {:induction false} HeaderInFront(crc: Checksum, h: Header, bytes: seq<byte>)
    requires ValidHeader(h) && HeaderSize(h) <= |bytes| && bytes[..HeaderSize(h)] == EncodeHeader(crc, h)
    ensures LoadHeader(crc, bytes) == Ok(h)
  {
    hide DecodeHeader, Enc16, Dec16, Enc32, HeaderBody;
    var head := EncodeHeader(crc, h);
    HeaderRoundTrip(crc, h);
    assert At(head, 0, HeaderBody(h)) by { assert head[0..|HeaderBody(h)|] == HeaderBody(h); }
    HeaderBodyAt(head, h);
    assert bytes[0..4] == head[0..4] && bytes[4..6] == head[4..6];
    DecEnc16(h.version);
  }
}
