/** What the byte format refuses, and as what. */
module Refusals {
  import opened Wrappers
  import opened Widths
  import opened ChangeTypes
  import opened Bytes
  import opened Codec
  import opened LogFile
  import opened Loading
  import opened Format

  // ---------------------------------------------------------------------------
  // Writing a record
  // ---------------------------------------------------------------------------

  predicate HasKey(c: Change, k: VersionKey) {
    match c
    case Insert(n, _) => k == n
    case Update(o, n, _) => k == o || k == n
    case Delete(o) => k == o
  }

  /** What the error says of a change is so. */
  ghost predicate WriteFault(c: Change, storageId: u64, e: StreamError) {
    match e
    case ContextMismatch => exists k :: HasKey(c, k) && k.storageId != storageId
    case InvalidRecord(fault) =>
      || (fault == ZeroHeapGeneration && exists k :: HasKey(c, k) && k.HeapKey? && k.generation == 0)
      || (fault == ZeroLsmRow && exists k :: HasKey(c, k) && k.LsmKey? && k.rowId == 0)
    case RowPayloadTooLarge(n) => !c.Delete? && n == |c.after| > 16_777_216
    case _ => false
  }

  /** The first change that cannot be written is the one reported, for what is wrong with it. */
  lemma {:induction false} EncoderRefusesAs(crc: Checksum, b: Batch, i: nat)
    requires i < |b.mutations| <= 1_000_000 && !ChangeTaken(b.mutations[i], b.storageId)
    requires forall j :: 0 <= j < i ==> ChangeTaken(b.mutations[j], b.storageId)
    ensures EncodeRecord(crc, b).Err? && WriteFault(b.mutations[i], b.storageId, EncodeRecord(crc, b).error)
  {
    hide ChangeTaken, MutationError, PayloadSize, WriteFault;
    FirstIs(b.mutations, b.storageId, i);
    ChangeRefused(b.mutations[i], b.storageId);
  }

  lemma {:induction false} ChangeRefused(c: Change, storageId: u64)
    requires !ChangeTaken(c, storageId)
    ensures MutationError(c, storageId).Some? && WriteFault(c, storageId, MutationError(c, storageId).value)
  {
    match c
    case Insert(n, _) => assert HasKey(c, n);
    case Update(o, n, _) => assert HasKey(c, o) && HasKey(c, n);
    case Delete(o) => assert HasKey(c, o);
  }

  lemma {:induction false} FirstIs(ms: seq<Change>, storageId: u64, i: nat)
    requires i < |ms| && !ChangeTaken(ms[i], storageId) && forall j :: 0 <= j < i ==> ChangeTaken(ms[j], storageId)
    ensures FirstError(ms, storageId) == MutationError(ms[i], storageId) && FirstError(ms, storageId).Some?
    decreases i
  {
    hide ChangeTaken, MutationError;
    if i > 0 {
      TakenIff(ms[0], storageId);
      forall j | 0 <= j < i - 1 ensures ChangeTaken(ms[1..][j], storageId) { assert ms[1..][j] == ms[j + 1]; }
      FirstIs(ms[1..], storageId, i - 1);
    } else {
      TakenIff(ms[0], storageId);
    }
  }

  lemma TakenIff(c: Change, storageId: u64)
    ensures MutationError(c, storageId).None? <==> ChangeTaken(c, storageId)
  {
  }

  /** A batch with no change or too many is refused by their number, one with changes
      that can all be written by its size. */
  lemma {:induction false} EncoderRefusesSizes(crc: Checksum, b: Batch)
    ensures |b.mutations| == 0 || |b.mutations| > 1_000_000 ==> EncodeRecord(crc, b) == Err(MutationCountTooLarge(|b.mutations|))
    ensures 1 <= |b.mutations| <= 1_000_000 && PayloadSize(b) > 67_108_864 &&
            (forall i :: 0 <= i < |b.mutations| ==> ChangeTaken(b.mutations[i], b.storageId)) ==>
              EncodeRecord(crc, b) == Err(RecordTooLarge(PayloadSize(b)))
  {
    hide PayloadSize, ChangeTaken, FirstError;
    AllTaken(b.mutations, b.storageId);
  }

  // ---------------------------------------------------------------------------
  // Reading a record
  // ---------------------------------------------------------------------------

  /** A change the engine can have staged: versions of its kind, and no placeholder retired. */
  predicate EngineChange(kind: StorageKind, c: Change) {
    match (c, kind)
    case (Insert(n, _), HeapStorage) => n.HeapKey?
    case (Insert(n, _), LsmStorage) => n.LsmKey?
    case (Update(o, n, _), HeapStorage) => o.HeapKey? && n.HeapKey?
    case (Update(o, n, _), LsmStorage) => o.LsmKey? && o.version != 0 && n.LsmKey?
    case (Delete(o), HeapStorage) => o.HeapKey?
    case (Delete(o), LsmStorage) => o.LsmKey? && o.version != 0
  }

  /** `p` is the payload of `b`, which can be written and belongs to this log. */
  predicate IsRecord(h: Header, b: Batch, p: seq<byte>) {
    && 1 <= |b.mutations| <= 1_000_000 && AllFit(b.mutations) && p == Payload(b)
    && b.sequence != 0 && b.txn != 0 && b.databaseTxn != Some(0)
    && b.tableId == h.tableId && b.storageId == h.storageId && b.fingerprint == h.fingerprint
    && forall i :: 0 <= i < |b.mutations| ==> ChangeTaken(b.mutations[i], b.storageId) && EngineChange(h.kind, b.mutations[i])
  }

  /** Exactly which payloads are read, and as what. */
  lemma {:induction false} DecoderTakesExactly(p: seq<byte>, h: Header)
    requires |p| <= 67_108_864
    ensures DecodeRecord(p, h).Ok? <==> exists b :: IsRecord(h, b, p)
    ensures DecodeRecord(p, h).Ok? ==> IsRecord(h, DecodeRecord(p, h).value, p)
  {
    hide DecodeRecord, Payload, PayloadSize, ChangeTaken, EngineChange, FirstError, ValidPending, AllFit;
    if DecodeRecord(p, h).Ok? {
      var b := DecodeRecord(p, h).value;
      RecordInverse(p, h);
      AllTaken(b.mutations, b.storageId);
      forall i | 0 <= i < |b.mutations| ensures EngineChange(h.kind, b.mutations[i]) { EngineIff(h.kind, b.mutations[i]); }
      assert IsRecord(h, b, p);
    }
    forall b | IsRecord(h, b, p) ensures DecodeRecord(p, h) == Ok(b) {
      AllTaken(b.mutations, b.storageId);
      forall i | 0 <= i < |b.mutations| ensures ValidPending(h.kind, b.mutations[i]) { EngineIff(h.kind, b.mutations[i]); }
      SizeOfPayload(b);
      RecordRoundTrip(h, b);
    }
  }

  lemma SizeOfPayload(b: Batch)
    requires |b.mutations| <= MAX_MUTATIONS && AllFit(b.mutations)
    ensures |Payload(b)| == PayloadSize(b)
  {
  }

  lemma EngineIff(kind: StorageKind, c: Change)
    ensures EngineChange(kind, c) <==> ValidPending(kind, c)
  {
  }

  /** A record that was written is refused on reading for a zero identity, then for the
      context of the log, and then for its first change that does not fit the engine. */
  lemma {:induction false} DecoderRefusesAs(crc: Checksum, h: Header, b: Batch)
    requires EncodeRecord(crc, b).Ok?
    ensures EncoderAccepts(b)
    ensures var r := DecodeRecord(Payload(b), h);
            if b.sequence == 0 || b.txn == 0 then r == Err(InvalidRecord(ZeroRecordIdentity))
            else if b.tableId != h.tableId || b.storageId != h.storageId || b.fingerprint != h.fingerprint then
              r == Err(InvalidRecord(RecordContext))
            else if forall i :: 0 <= i < |b.mutations| ==> EngineChange(h.kind, b.mutations[i]) then
              r == Ok(b.(databaseTxn := if b.databaseTxn == Some(0) then None else b.databaseTxn))
            else r.Err? && exists i :: 0 <= i < |b.mutations| && ReadFault(b.mutations, h.kind, i, r.error)
  {
    hide FixedBytes, ListBytes, ListSize, FirstError, AllFit, ValidPending, DecodeList, Enc64, Enc32, Dec64, Dec32, EngineChange, ReadFault;
    EncoderAcceptsIff(crc, b);
    var p := Payload(b);
    AtSplit(p, 0, FixedBytes(b), ListBytes(b.mutations));
    assert At(p, 0, p);
    FixedAt(p, b);
    DecEnc64(b.sequence); DecEnc64(b.txn); DecEnc64(OptionWord(b.databaseTxn));
    DecEnc64(b.tableId); DecEnc64(b.storageId); DecEnc64(b.before); DecEnc64(b.after);
    DecEnc32(|b.mutations|);
    if forall i :: 0 <= i < |b.mutations| ==> EngineChange(h.kind, b.mutations[i]) {
      forall i | 0 <= i < |b.mutations| ensures ValidPending(h.kind, b.mutations[i]) { EngineIff(h.kind, b.mutations[i]); }
      ListRoundTrip(p, FIXED, b.mutations, b.storageId, h.kind);
    } else {
      var i := ListRefused(p, FIXED, b.mutations, b.storageId, h.kind);
    }
  }

  /** Change `i` is the first that does not fit, and the error says how: a version of the
      other engine, or a placeholder that is retired. */
  predicate ReadFault(ms: seq<Change>, kind: StorageKind, i: nat, e: StreamError)
    requires i < |ms|
  {
    && !EngineChange(kind, ms[i]) && (forall j :: 0 <= j < i ==> EngineChange(kind, ms[j]))
    && match e
       case InvalidRecord(ZeroLsmVersion) => !ms[i].Insert? && ms[i].oldVersion.LsmKey? && ms[i].oldVersion.version == 0
       case InvalidRecord(KeyKindMismatch) =>
         || (!ms[i].Insert? && ms[i].oldVersion.HeapKey? != kind.HeapStorage?)
         || (!ms[i].Delete? && ms[i].newVersion.HeapKey? != kind.HeapStorage?)
       case _ => false
  }

  lemma {:induction false} ListRefused(p: seq<byte>, off: nat, ms: seq<Change>, storageId: u64, kind: StorageKind) returns (i: nat)
    requires FirstError(ms, storageId) == None && AllFit(ms) && At(p, off, ListBytes(ms))
    requires !forall i :: 0 <= i < |ms| ==> EngineChange(kind, ms[i])
    ensures i < |ms| && DecodeList(p, off, |ms|, storageId, kind).Err?
    ensures ReadFault(ms, kind, i, DecodeList(p, off, |ms|, storageId, kind).error)
    decreases |ms|
  {
    hide MutationBytes, MutationSize, At, DecodeMutation, MutationError, ValidPending, EngineChange, CheckPending, ReadFault;
    AtSplit(p, off, MutationBytes(ms[0]), ListBytes(ms[1..]));
    MutationRoundTrip(p, off, ms[0], storageId);
    PendingRefused(ms, kind);
    if EngineChange(kind, ms[0]) {
      RestIsUnfit(ms, kind);
      var k := ListRefused(p, off + |MutationBytes(ms[0])|, ms[1..], storageId, kind);
      i := k + 1;
      LaterFault(ms, kind, k, DecodeList(p, off, |ms|, storageId, kind).error);
    } else {
      i := 0;
    }
  }

  lemma {:induction false} PendingRefused(ms: seq<Change>, kind: StorageKind)
    requires ms != []
    ensures EngineChange(kind, ms[0]) <==> CheckPending(ms[0], kind).Ok?
    ensures !EngineChange(kind, ms[0]) ==> ReadFault(ms, kind, 0, CheckPending(ms[0], kind).error)
  {
  }

  lemma {:induction false} RestIsUnfit(ms: seq<Change>, kind: StorageKind)
    requires ms != [] && EngineChange(kind, ms[0]) && !forall i :: 0 <= i < |ms| ==> EngineChange(kind, ms[i])
    ensures !forall i :: 0 <= i < |ms[1..]| ==> EngineChange(kind, ms[1..][i])
  {
    hide EngineChange;
    var i :| 0 <= i < |ms| && !EngineChange(kind, ms[i]);
    assert ms[1..][i - 1] == ms[i];
  }

  lemma {:induction false} LaterFault(ms: seq<Change>, kind: StorageKind, k: nat, e: StreamError)
    requires ms != [] && EngineChange(kind, ms[0]) && k < |ms[1..]| && ReadFault(ms[1..], kind, k, e)
    ensures ReadFault(ms, kind, k + 1, e)
  {
    hide EngineChange;
    assert ms[1..][k] == ms[k + 1];
    forall j | 0 <= j < k + 1 ensures EngineChange(kind, ms[j]) { if j > 0 { assert ms[1..][j - 1] == ms[j]; } }
  }

  /** Bytes behind a record are not part of it. */
  lemma {:induction false} TrailingBytesAreRefused(h: Header, b: Batch, extra: seq<byte>)
    requires Encodable(h, b) && extra != []
    ensures DecodeRecord(Payload(b) + extra, h) == Err(InvalidRecord(TrailingBytes))
  {
    hide FixedBytes, ListBytes, ListSize, FirstError, AllFit, ValidPending, DecodeList, Enc64, Enc32, Dec64, Dec32;
    var p := Payload(b) + extra;
    assert At(p, 0, Payload(b)) by { assert p[0..|Payload(b)|] == Payload(b); }
    AtSplit(p, 0, FixedBytes(b), ListBytes(b.mutations));
    FixedAt(p, b);
    DecEnc64(b.sequence); DecEnc64(b.txn); DecEnc64(OptionWord(b.databaseTxn));
    DecEnc64(b.tableId); DecEnc64(b.storageId); DecEnc64(b.before); DecEnc64(b.after);
    DecEnc32(|b.mutations|);
    ListRoundTrip(p, FIXED, b.mutations, b.storageId, h.kind);
  }

  /** A record cut short so that its mutations cannot all be there is refused at once. */
  lemma {:induction false} CutRecordIsRefused(h: Header, b: Batch, cut: nat)
    requires Encodable(h, b) && cut < 104 + 16 * |b.mutations|
    ensures cut <= |Payload(b)|
    ensures DecodeRecord(Payload(b)[..cut], h) == Err(if cut < 104 then Truncated(0) else InvalidRecord(CountExceedsBytes))
  {
    hide FixedBytes, ListBytes, ListSize, FirstError, AllFit, ValidPending, DecodeList, Enc64, Enc32, Dec64, Dec32;
    if cut >= 104 {
      var p := Payload(b)[..cut];
      assert At(p, 0, FixedBytes(b)) by { assert p[0..104] == FixedBytes(b); }
      FixedAt(p, b);
      DecEnc64(b.sequence); DecEnc64(b.txn); DecEnc64(b.tableId); DecEnc64(b.storageId);
      DecEnc32(|b.mutations|);
    }
  }

  // ---------------------------------------------------------------------------
  // Markers and headers
  // ---------------------------------------------------------------------------

  /** A marker is 24 bytes with its tag, zeros and a transaction. */
  lemma {:induction false} MarkerBytesRefusedAs(p: seq<byte>)
    ensures DecodeFinalize(p) == Err(InvalidRecord(InvalidFinalize)) <==> !(|p| == 24 && p[0] == 2 && p[1..8] == [0, 0, 0, 0, 0, 0, 0])
    ensures DecodeFinalize(p).Err? && DecodeFinalize(p) != Err(InvalidRecord(InvalidFinalize)) ==>
              |p| == 24 && FromLE(p[8..16]) == 0 && DecodeFinalize(p) == Err(InvalidRecord(ZeroTransaction))
    ensures |p| == 24 && DecodeFinalize(p).Ok? ==> FromLE(p[8..16]) != 0
  {
    hide FromLE;
    ZeroBytes();
  }

  /** A written header is refused for a zero identity, then for its frontiers, then for a
      zero next sequence; the older version keeps one frontier and counts from one. */
  lemma {:induction false} HeaderRefusedAs(crc: Checksum, h: Header)
    requires h.version == 1 || h.version == 2
    ensures DecodeHeader(crc, EncodeHeader(crc, h)) ==
            if h.storageId == 0 || h.tableId == 0 || h.generation == 0 then Err(InvalidHeader(ZeroIdentity))
            else if h.version == 2 && !(h.origin <= h.earliest <= h.current) then Err(InvalidHeader(FrontiersOutOfOrder))
            else if h.version == 2 && h.nextSequence == 0 then Err(InvalidHeader(ZeroNextSequence))
            else Ok(if h.version == 1 then h.(earliest := h.origin, current := h.origin, nextSequence := 1) else h)
  {
    hide HeaderIdentity, HeaderBody, Enc64, Enc32, Enc16, Dec64, Dec32, Dec16;
    var p := EncodeHeader(crc, h);
    var body, size := HeaderBody(h), HeaderSize(h);
    assert p[..size - 4] == body && p[size - 4..size] == Enc32(crc(body));
    assert At(p, 0, body);
    HeaderBodyAt(p, h);
    DecEnc16(h.version); DecEnc64(h.storageId); DecEnc64(h.tableId); DecEnc64(h.generation);
    DecEnc64(h.origin); DecEnc64(h.earliest); DecEnc64(h.current); DecEnc64(h.nextSequence);
    DecEnc32(crc(body));
  }

  /** Bytes that are no header of this format: too few, without the magic, of an unknown
      version, with an unknown flag, or with a checksum that is not theirs. */
  lemma {:induction false} HeaderDamageIsReported(crc: Checksum, bytes: seq<byte>)
    ensures |bytes| < 6 ==> LoadHeader(crc, bytes) == Err(Truncated(0))
    ensures |bytes| >= 6 && bytes[0..4] != [78, 66, 67, 76] ==> LoadHeader(crc, bytes) == Err(InvalidMagic)
    ensures |bytes| >= 6 && bytes[0..4] == [78, 66, 67, 76] ==>
              var version := bytes[4] as int + 256 * bytes[5] as int;
              var size := if version == 1 then 80 else 104;
              if version != 1 && version != 2 then LoadHeader(crc, bytes) == Err(UnsupportedVersion(version))
              else if |bytes| < size then LoadHeader(crc, bytes) == Err(Truncated(0))
              else if bytes[6] > 1 || bytes[size - 8..size - 4] != [0, 0, 0, 0] then LoadHeader(crc, bytes) == Err(InvalidHeader(FlagsOrReserved))
              else LoadHeader(crc, bytes) == Err(ChecksumMismatch(0)) <==> crc(bytes[..size - 4]) != FromLE(bytes[size - 4..size])
  {
    hide FromLE, DecodeHeaderFields;
    ZeroBytes();
    if |bytes| >= 6 {
      NoDigits();
      Digit(bytes[5], []);
      Digit(bytes[4], [bytes[5]]);
      assert bytes[4..6] == [bytes[4]] + ([bytes[5]] + []) && [bytes[5]] + [] == [bytes[5]];
      var version := bytes[4] as int + 256 * bytes[5] as int;
      var size := if version == 1 then 80 else 104;
      if |bytes| >= size {
        var p := bytes[..size];
        assert p[0..4] == bytes[0..4] && p[4..6] == bytes[4..6] && p[size - 8..size - 4] == bytes[size - 8..size - 4];
        assert p[..size - 4] == bytes[..size - 4] && p[size - 4..size] == bytes[size - 4..size];
        if version == 1 || version == 2 { FieldErrors(p, version); }
      }
    }
  }

  lemma FieldErrors(p: seq<byte>, version: u16)
    requires |p| == if version == 1 then V1_HEADER_SIZE else V2_HEADER_SIZE
    ensures DecodeHeaderFields(p, version) != Err(ChecksumMismatch(0))
  {
  }

  /** A header is read as a heap's or an LSM's by its engine byte, and refused for no
      engine only if that is neither. */
  lemma {:induction false} EngineByteIsRead(crc: Checksum, p: seq<byte>)
    ensures DecodeHeader(crc, p).Ok? ==>
              |p| > 7 && (p[7] == 1 || p[7] == 2) && (DecodeHeader(crc, p).value.kind.HeapStorage? <==> p[7] == 1)
    ensures DecodeHeader(crc, p) == Err(InvalidHeader(UnknownStorageKind)) ==> |p| > 7 && p[7] != 1 && p[7] != 2
  {
  }
}
