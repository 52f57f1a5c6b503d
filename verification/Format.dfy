/** The bytes of the NBCL format, spelled out: which byte of an integer goes where,
    and one record, one marker and one header of each version as they stand in a file. */
module Format {
  import opened Wrappers
  import opened Widths
  import opened ChangeTypes
  import opened Bytes
  import opened Codec
  import opened LogFile

  // ---------------------------------------------------------------------------
  // Integers
  // ---------------------------------------------------------------------------

  lemma {:induction false} DivideTwice(v: nat, p: nat)
    requires p > 0
    ensures (v / 256) / p == v / (256 * p)
  {
    var q, r := v / (256 * p), v % (256 * p);
    assert v == 256 * (p * q) + r && r / 256 < p;
    assert v / 256 == p * q + r / 256;
    DivideExactly(p, q, r / 256);
  }

  lemma {:induction false} DivideExactly(p: nat, q: nat, r: nat)
    requires r < p
    ensures (p * q + r) / p == q
  {
    var d := (p * q + r) / p;
    assert p * (d - q) < p && p * (q - d) < p by {
      assert p * (d - q) == p * d - p * q && p * (q - d) == p * q - p * d;
    }
    NoMultiple(p, d - q);
    NoMultiple(p, q - d);
  }

  lemma NoMultiple(p: nat, k: int)
    requires p * k < p
    ensures k <= 0
  {
  }

  /** Integers are little-endian: byte `i` is the digit of 256 to the power `i`. */
  lemma {:induction false} LittleEndian(n: nat, v: nat, i: nat)
    requires i < n
    ensures LE(n, v)[i] == (v / Pow256(i)) % 256
  {
    if i > 0 {
      LittleEndian(n - 1, v / 256, i - 1);
      DivideTwice(v, Pow256(i - 1));
    }
  }

  /** And a byte string reads as the sum of its digits. */
  lemma {:induction false} DigitSum(bs: seq<byte>, i: nat)
    requires i < |bs|
    ensures (FromLE(bs) / Pow256(i)) % 256 == bs[i]
  {
    ToFromLE(bs);
    LittleEndian(|bs|, FromLE(bs), i);
  }

  lemma {:induction false} Digit(a: byte, rest: seq<byte>)
    ensures FromLE([a] + rest) == a + 256 * FromLE(rest)
  {
    assert ([a] + rest)[1..] == rest;
  }

  lemma {:induction false} Two(a: byte, b: byte)
    ensures Enc16(a + 256 * b) == [a, b]
  {
    hide LE, FromLE;
    NoDigits();
    Digit(b, []);
    Digit(a, [b]);
    assert [a] + [b] == [a, b] && [b] + [] == [b];
    ToFromLE([a, b]);
  }

  lemma {:induction false} Four(a: byte, b: byte, c: byte, d: byte)
    ensures Enc32(a + 256 * (b + 256 * (c + 256 * d))) == [a, b, c, d]
  {
    hide LE, FromLE;
    FourDigits(a, b, c, d, []);
    NoDigits();
    assert [a, b, c, d] + [] == [a, b, c, d];
    ToFromLE([a, b, c, d]);
  }

  lemma {:induction false} FourDigits(a: byte, b: byte, c: byte, d: byte, rest: seq<byte>)
    ensures FromLE([a, b, c, d] + rest) == a + 256 * (b + 256 * (c + 256 * (d + 256 * FromLE(rest))))
  {
    hide FromLE;
    Digit(d, rest);
    Digit(c, [d] + rest);
    Digit(b, [c] + ([d] + rest));
    Digit(a, [b] + ([c] + ([d] + rest)));
    assert [a] + ([b] + ([c] + ([d] + rest))) == [a, b, c, d] + rest;
  }

  lemma NoDigits()
    ensures FromLE([]) == 0
  {
  }

  lemma {:induction false} Eight(a: byte, b: byte, c: byte, d: byte, e: byte, f: byte, g: byte, h: byte)
    ensures FromLE([a, b, c, d, e, f, g, h]) <= MAX_U64
    ensures Enc64(FromLE([a, b, c, d, e, f, g, h])) == [a, b, c, d, e, f, g, h]
    ensures FromLE([a, b, c, d, e, f, g, h]) ==
            a + 256 * (b + 256 * (c + 256 * (d + 256 * (e + 256 * (f + 256 * (g + 256 * h))))))
  {
    hide LE, FromLE;
    NoDigits();
    FourDigits(e, f, g, h, []);
    FourDigits(a, b, c, d, [e, f, g, h]);
    assert [e, f, g, h] + [] == [e, f, g, h] && [a, b, c, d] + [e, f, g, h] == [a, b, c, d, e, f, g, h];
    ToFromLE([a, b, c, d, e, f, g, h]);
    Powers();
  }

  /** `v` stands in the bytes at `off`, in `n` bytes, the lowest digit first. */
  predicate Digits(bs: seq<byte>, off: nat, n: nat, v: nat) {
    off + n <= |bs| && forall i :: 0 <= i < n ==> bs[off + i] == (v / Pow256(i)) % 256
  }

  lemma {:induction false} DigitsAt(bs: seq<byte>, off: nat, n: nat, v: nat)
    requires At(bs, off, LE(n, v))
    ensures Digits(bs, off, n, v)
  {
    hide LE, Pow256;
    forall i | 0 <= i < n ensures bs[off + i] == (v / Pow256(i)) % 256 {
      assert bs[off + i] == bs[off..off + n][i];
      LittleEndian(n, v, i);
    }
  }

  // ---------------------------------------------------------------------------
  // Every record
  // ---------------------------------------------------------------------------

  /** Where the parts of a framed record stand: the length of its payload, the tag, the
      fields of the batch, the number of mutations, and behind them the checksum. */
  predicate RecordLayout(crc: Checksum, b: Batch, f: seq<byte>) {
    var n := PayloadSize(b);
    && |f| == n + 8 && Digits(f, 0, 4, n)
    && f[4] == 1 && f[5..12] == [0, 0, 0, 0, 0, 0, 0]
    && Digits(f, 12, 8, b.sequence) && Digits(f, 20, 8, b.txn)
    && Digits(f, 28, 8, if b.databaseTxn.Some? then b.databaseTxn.value else 0)
    && Digits(f, 36, 8, b.tableId) && Digits(f, 44, 8, b.storageId) && f[52..84] == b.fingerprint
    && Digits(f, 84, 8, b.before) && Digits(f, 92, 8, b.after)
    && Digits(f, 100, 4, |b.mutations|) && f[104..108] == [0, 0, 0, 0]
    && Digits(f, n + 4, 4, crc(f[4..n + 4]))
  }

  lemma {:induction false} RecordIsLaidOut(crc: Checksum, b: Batch)
    requires EncoderAccepts(b)
    ensures EncodeRecord(crc, b).Ok? && RecordLayout(crc, b, EncodeRecord(crc, b).value)
  {
    hide FirstError, AllFit, ListBytes, ListSize, FixedBytes, LE, Digits, Enc64, Enc32;
    EncoderAcceptsIff(crc, b);
    var p, n := Payload(b), PayloadSize(b);
    var f := EncodeRecord(crc, b).value;
    assert f == Enc32(n) + p + Enc32(crc(p));
    assert f[4..n + 4] == p;
    WordsAreLE();
    AtSplit(f, 0, Enc32(n) + p, Enc32(crc(p)));
    AtSplit(f, 0, Enc32(n), p);
    assert At(f, 0, f);
    DigitsAt(f, 0, 4, n);
    DigitsAt(f, n + 4, 4, crc(p));
    FieldsLaidOut(b, p, f);
  }

  /** Whatever the encoder takes it lays out so. */
  lemma {:induction false} EncodedIsLaidOut(crc: Checksum, b: Batch)
    ensures EncodeRecord(crc, b).Ok? <==> EncoderAccepts(b)
    ensures EncodeRecord(crc, b).Ok? ==> RecordLayout(crc, b, EncodeRecord(crc, b).value)
  {
    hide RecordLayout, EncodeRecord, EncoderAccepts;
    EncoderAcceptsIff(crc, b);
    if EncoderAccepts(b) { RecordIsLaidOut(crc, b); }
  }

  lemma WordsAreLE()
    ensures forall v: u64 :: Enc64(v) == LE(8, v)
    ensures forall v: u32 :: Enc32(v) == LE(4, v)
  {
  }

  lemma {:induction false} FieldsLaidOut(b: Batch, p: seq<byte>, f: seq<byte>)
    requires |b.mutations| <= MAX_MUTATIONS && AllFit(b.mutations) && p == Payload(b) && At(f, 4, p)
    ensures f[4] == 1 && f[5..12] == [0, 0, 0, 0, 0, 0, 0]
    ensures Digits(f, 12, 8, b.sequence) && Digits(f, 20, 8, b.txn)
    ensures Digits(f, 28, 8, if b.databaseTxn.Some? then b.databaseTxn.value else 0)
    ensures Digits(f, 36, 8, b.tableId) && Digits(f, 44, 8, b.storageId) && f[52..84] == b.fingerprint
    ensures Digits(f, 84, 8, b.before) && Digits(f, 92, 8, b.after)
    ensures Digits(f, 100, 4, |b.mutations|) && f[104..108] == [0, 0, 0, 0]
  {
    hide AllFit, ListBytes, ListSize, FixedBytes, LE, Digits, Enc64, Enc32;
    AtSplit(p, 0, FixedBytes(b), ListBytes(b.mutations));
    assert At(p, 0, p);
    FixedAt(p, b);
    WordsAreLE();
    Shifted(f, p, 1, 8);
    Shifted(f, p, 48, 80);
    Shifted(f, p, 100, 104);
    assert f[4] == p[0];
    assert Zeros(7) == [0, 0, 0, 0, 0, 0, 0] && Zeros(4) == [0, 0, 0, 0];
    FieldAt(f, p, 8, 8, b.sequence);
    FieldAt(f, p, 16, 8, b.txn);
    FieldAt(f, p, 24, 8, OptionWord(b.databaseTxn));
    FieldAt(f, p, 32, 8, b.tableId);
    FieldAt(f, p, 40, 8, b.storageId);
    FieldAt(f, p, 80, 8, b.before);
    FieldAt(f, p, 88, 8, b.after);
    FieldAt(f, p, 96, 4, |b.mutations|);
  }

  lemma {:induction false} Shifted(f: seq<byte>, p: seq<byte>, i: nat, j: nat)
    requires At(f, 4, p) && i <= j <= |p|
    ensures f[4 + i..4 + j] == p[i..j]
  {
    forall k | i <= k < j ensures f[4 + k] == p[k] { assert f[4 + k] == f[4..4 + |p|][k]; }
  }

  lemma {:induction false} FieldAt(f: seq<byte>, p: seq<byte>, off: nat, n: nat, v: nat)
    requires At(f, 4, p) && off + n <= |p| && p[off..off + n] == LE(n, v)
    ensures Digits(f, 4 + off, n, v)
  {
    hide LE, Digits;
    Shifted(f, p, off, off + n);
    DigitsAt(f, 4 + off, n, v);
  }

  // ---------------------------------------------------------------------------
  // What may be written
  // ---------------------------------------------------------------------------

  /** A key of the stream's storage with a generation, or a row, that is not zero. */
  predicate KeyTaken(k: VersionKey, storageId: u64) {
    match k
    case HeapKey(storage, _, _, generation) => storage == storageId && generation != 0
    case LsmKey(storage, row, _) => storage == storageId && row != 0
  }

  predicate ChangeTaken(c: Change, storageId: u64) {
    match c
    case Insert(n, row) => KeyTaken(n, storageId) && |row| <= 16_777_216
    case Update(o, n, row) => KeyTaken(o, storageId) && KeyTaken(n, storageId) && |row| <= 16_777_216
    case Delete(o) => KeyTaken(o, storageId)
  }

  /** The encoder takes a batch of one up to a million mutations, all of them over keys
      of its storage and with rows of at most 16 MiB, in a payload of at most 64 MiB. */
  lemma {:induction false} EncoderTakesExactly(crc: Checksum, b: Batch)
    ensures EncodeRecord(crc, b).Ok? <==>
            && 1 <= |b.mutations| <= 1_000_000 && PayloadSize(b) <= 67_108_864
            && forall i :: 0 <= i < |b.mutations| ==> ChangeTaken(b.mutations[i], b.storageId)
  {
    hide PayloadSize, EncodeRecord, ChangeTaken;
    EncoderAcceptsIff(crc, b);
    AllTaken(b.mutations, b.storageId);
    if FirstError(b.mutations, b.storageId).None? { NoErrorFits(b.mutations, b.storageId); }
  }

  lemma {:induction false} AllTaken(ms: seq<Change>, storageId: u64)
    ensures FirstError(ms, storageId) == None <==> forall i :: 0 <= i < |ms| ==> ChangeTaken(ms[i], storageId)
    decreases |ms|
  {
    if ms != [] {
      AllTaken(ms[1..], storageId);
      assert MutationError(ms[0], storageId).None? <==> ChangeTaken(ms[0], storageId);
      assert forall i :: 0 < i < |ms| ==> ms[i] == ms[1..][i - 1];
      assert forall i :: 0 <= i < |ms| - 1 ==> ms[1..][i] == ms[i + 1];
    }
  }

  /** The decoder's check on a change: only keys of the engine, and no LSM placeholder as an old version. */
  lemma {:induction false} PendingCheckIff(c: Change, kind: StorageKind)
    ensures CheckPending(c, kind).Ok? <==>
            match (c, kind)
            case (Insert(n, _), HeapStorage) => n.HeapKey?
            case (Insert(n, _), LsmStorage) => n.LsmKey?
            case (Update(o, n, _), HeapStorage) => o.HeapKey? && n.HeapKey?
            case (Update(o, n, _), LsmStorage) => o.LsmKey? && o.version != 0 && n.LsmKey?
            case (Delete(o), HeapStorage) => o.HeapKey?
            case (Delete(o), LsmStorage) => o.LsmKey? && o.version != 0
  {
  }

  /** An encoded header is read back exactly when it is of a known version, names a
      storage, a table and a generation, and has its frontiers in order and a next
      sequence; the older version has room for one frontier only. */
  lemma {:induction false} HeaderReadBackIff(crc: Checksum, h: Header)
    requires h.version == 1 || h.version == 2
    ensures DecodeHeader(crc, EncodeHeader(crc, h)) == Ok(h) <==>
            && h.storageId != 0 && h.tableId != 0 && h.generation != 0 && h.nextSequence != 0
            && h.origin <= h.earliest <= h.current
            && (h.version == 1 ==> h.origin == h.earliest == h.current && h.nextSequence == 1)
  {
    hide EncodeHeader, DecodeHeader;
    if ValidHeader(h) { HeaderRoundTrip(crc, h); }
    if DecodeHeader(crc, EncodeHeader(crc, h)).Ok? { HeaderInverse(crc, EncodeHeader(crc, h)); }
  }

  // ---------------------------------------------------------------------------
  // One record
  // ---------------------------------------------------------------------------

  const FINGERPRINT: seq<byte> := [100, 101, 102, 103, 104, 105, 106, 107, 108, 109, 110, 111, 112, 113, 114, 115,
                                   116, 117, 118, 119, 120, 121, 122, 123, 124, 125, 126, 127, 128, 129, 130, 131]

  function SampleInsert(): Change {
    Insert(HeapKey(0x090A, 0x1112, 0x1314, 0x1516_1718), [0xA1, 0xA2])
  }

  function SampleUpdate(): Change {
    Update(LsmKey(0x090A, 0x2122, 0x2324), LsmKey(0x090A, 0x2122, 0), [0xB1])
  }

  function SampleDelete(): Change {
    Delete(HeapKey(0x090A, 0x3132, 0x3334, 0x3536_3738))
  }

  function SampleBatch(): Batch {
    Batch(0x0807_0605_0403_0201, 0x0304, Some(0x0506), 0x0708, 0x090A, FINGERPRINT, 0x0B0C, 0x0B0D,
          [SampleInsert(), SampleUpdate(), SampleDelete()])
  }

  const SAMPLE_FIXED: seq<byte> :=
    [1] + [0, 0, 0, 0, 0, 0, 0] + [1, 2, 3, 4, 5, 6, 7, 8] + [4, 3, 0, 0, 0, 0, 0, 0] + [6, 5, 0, 0, 0, 0, 0, 0] +
    [8, 7, 0, 0, 0, 0, 0, 0] + [10, 9, 0, 0, 0, 0, 0, 0] + FINGERPRINT + [12, 11, 0, 0, 0, 0, 0, 0] + [13, 11, 0, 0, 0, 0, 0, 0] +
    [3, 0, 0, 0] + [0, 0, 0, 0]

  const SAMPLE_INSERT: seq<byte> := [1] + ([1, 18, 17, 0, 0, 0, 0, 0, 0, 20, 19, 24, 23, 22, 21] + [2, 0, 0, 0, 161, 162])

  const SAMPLE_UPDATE: seq<byte> :=
    [2] + ([2, 34, 33, 0, 0, 0, 0, 0, 0, 36, 35, 0, 0, 0, 0, 0, 0] +
           ([2, 34, 33, 0, 0, 0, 0, 0, 0, 0, 0, 0, 0, 0, 0, 0, 0] + [1, 0, 0, 0, 177]))

  const SAMPLE_DELETE: seq<byte> := [3] + [1, 50, 49, 0, 0, 0, 0, 0, 0, 52, 51, 56, 55, 54, 53]

  const SAMPLE_PAYLOAD: seq<byte> := SAMPLE_FIXED + SAMPLE_INSERT + SAMPLE_UPDATE + SAMPLE_DELETE

  lemma {:induction false} InsertBytes()
    ensures MutationBytes(SampleInsert()) == SAMPLE_INSERT
  {
    hide Enc64, Enc32, Enc16, FromLE;
    Eight(18, 17, 0, 0, 0, 0, 0, 0);
    Two(20, 19);
    Four(24, 23, 22, 21);
    Four(2, 0, 0, 0);
    assert KeyBytes(HeapKey(0x090A, 0x1112, 0x1314, 0x1516_1718)) == [1, 18, 17, 0, 0, 0, 0, 0, 0, 20, 19, 24, 23, 22, 21];
    assert RowBytes([0xA1, 0xA2]) == [2, 0, 0, 0, 161, 162];
  }

  lemma {:induction false} OldKeyBytes()
    ensures KeyBytes(LsmKey(0x090A, 0x2122, 0x2324)) == [2, 34, 33, 0, 0, 0, 0, 0, 0, 36, 35, 0, 0, 0, 0, 0, 0]
  {
    hide Enc64, FromLE;
    Eight(34, 33, 0, 0, 0, 0, 0, 0);
    Eight(36, 35, 0, 0, 0, 0, 0, 0);
  }

  lemma {:induction false} NewKeyBytes()
    ensures KeyBytes(LsmKey(0x090A, 0x2122, 0)) == [2, 34, 33, 0, 0, 0, 0, 0, 0, 0, 0, 0, 0, 0, 0, 0, 0]
  {
    hide Enc64, FromLE;
    Eight(34, 33, 0, 0, 0, 0, 0, 0);
    Eight(0, 0, 0, 0, 0, 0, 0, 0);
  }

  lemma {:induction false} UpdateBytes()
    ensures MutationBytes(SampleUpdate()) == SAMPLE_UPDATE
  {
    hide KeyBytes, Enc32;
    OldKeyBytes();
    NewKeyBytes();
    Four(1, 0, 0, 0);
    assert RowBytes([0xB1]) == [1, 0, 0, 0, 177];
  }

  lemma {:induction false} DeleteBytes()
    ensures MutationBytes(SampleDelete()) == SAMPLE_DELETE
  {
    hide Enc64, Enc32, Enc16, FromLE;
    Eight(50, 49, 0, 0, 0, 0, 0, 0);
    Two(52, 51);
    Four(56, 55, 54, 53);
    assert KeyBytes(HeapKey(0x090A, 0x3132, 0x3334, 0x3536_3738)) == [1, 50, 49, 0, 0, 0, 0, 0, 0, 52, 51, 56, 55, 54, 53];
  }

  lemma {:induction false} FixedPart()
    ensures FixedBytes(SampleBatch()) == SAMPLE_FIXED
  {
    hide Enc64, Enc32, FromLE, Zeros;
    ZeroBytes();
    Eight(1, 2, 3, 4, 5, 6, 7, 8);
    Eight(4, 3, 0, 0, 0, 0, 0, 0);
    Eight(6, 5, 0, 0, 0, 0, 0, 0);
    Eight(8, 7, 0, 0, 0, 0, 0, 0);
    Eight(10, 9, 0, 0, 0, 0, 0, 0);
    Eight(12, 11, 0, 0, 0, 0, 0, 0);
    Eight(13, 11, 0, 0, 0, 0, 0, 0);
    Four(3, 0, 0, 0);
  }

  lemma ZeroBytes()
    ensures Zeros(7) == [0, 0, 0, 0, 0, 0, 0] && Zeros(4) == [0, 0, 0, 0]
  {
  }

  /** A record with an insert, an update and a delete, framed: its length, the
      payload, its checksum. */
  lemma {:induction false} RecordBytesAre(crc: Checksum)
    ensures |SAMPLE_PAYLOAD| == 182
    ensures EncodeRecord(crc, SampleBatch()) == Ok([182, 0, 0, 0] + SAMPLE_PAYLOAD + LE(4, crc(SAMPLE_PAYLOAD)))
  {
    hide MutationBytes, FixedBytes, Enc64, LE;
    var b := SampleBatch();
    SampleAccepted();
    EncoderAcceptsIff(crc, b);
    FixedPart();
    InsertBytes();
    UpdateBytes();
    DeleteBytes();
    var ms := b.mutations;
    assert ms[1..] == [SampleUpdate(), SampleDelete()] && ms[1..][1..] == [SampleDelete()] && [SampleDelete()][1..] == [];
    assert ListBytes([SampleDelete()]) == SAMPLE_DELETE;
    assert ListBytes(ms) == SAMPLE_INSERT + (SAMPLE_UPDATE + SAMPLE_DELETE);
    assert SAMPLE_FIXED + (SAMPLE_INSERT + (SAMPLE_UPDATE + SAMPLE_DELETE)) == SAMPLE_PAYLOAD;
    LengthBytes();
  }

  lemma LengthBytes()
    ensures LE(4, 182) == [182, 0, 0, 0]
  {
  }

  lemma {:induction false} SampleAccepted()
    ensures EncoderAccepts(SampleBatch())
  {
    var b := SampleBatch();
    var ms := b.mutations;
    assert ms[1..] == [SampleUpdate(), SampleDelete()] && ms[1..][1..] == [SampleDelete()] && [SampleDelete()][1..] == [];
    assert ListSize([SampleDelete()]) == 16 && ListSize(ms[1..]) == 56 && ListSize(ms) == 78;
    assert FirstError([SampleDelete()], 0x090A) == None && FirstError(ms[1..], 0x090A) == None && FirstError(ms, 0x090A) == None;
  }

  // ---------------------------------------------------------------------------
  // A marker and two headers
  // ---------------------------------------------------------------------------

  const SAMPLE_MARKER: seq<byte> := [2] + [0, 0, 0, 0, 0, 0, 0] + [4, 3, 0, 0, 0, 0, 0, 0] + [57, 1, 0, 0, 0, 0, 0, 0]

  lemma {:induction false} MarkerBytesAre()
    ensures FinalizePayload(0x0304, Some(0x0139)) == SAMPLE_MARKER
  {
    hide Enc64, FromLE;
    assert Zeros(7) == [0, 0, 0, 0, 0, 0, 0];
    Eight(4, 3, 0, 0, 0, 0, 0, 0);
    Eight(57, 1, 0, 0, 0, 0, 0, 0);
  }

  function SampleHeader(version: u16): Header {
    Header(version, true, LsmStorage, 0x0102, 0x0304, FINGERPRINT, 0x0506, 0x0708, if version == 1 then 0x0708 else 0x090A,
           if version == 1 then 0x0708 else 0x0B0C, if version == 1 then 1 else 0x0D0E)
  }

  function SampleIdentity(version: byte): (bs: seq<byte>)
    ensures |bs| == 72
  {
    [78, 66, 67, 76] + [version, 0] + [1] + [2] + [2, 1, 0, 0, 0, 0, 0, 0] + [4, 3, 0, 0, 0, 0, 0, 0] + FINGERPRINT +
    [6, 5, 0, 0, 0, 0, 0, 0] + [8, 7, 0, 0, 0, 0, 0, 0]
  }

  const SAMPLE_V1: seq<byte> := SampleIdentity(1) + [0, 0, 0, 0]

  const SAMPLE_V2: seq<byte> :=
    SampleIdentity(2) + ([10, 9, 0, 0, 0, 0, 0, 0] + [12, 11, 0, 0, 0, 0, 0, 0] + [14, 13, 0, 0, 0, 0, 0, 0] + [0, 0, 0, 0])

  lemma {:induction false} IdentityBytes(version: u16)
    requires version == 1 || version == 2
    ensures HeaderIdentity(SampleHeader(version)) == SampleIdentity(version)
  {
    hide Enc64, Enc16, FromLE;
    Two(1, 0);
    Two(2, 0);
    Eight(2, 1, 0, 0, 0, 0, 0, 0);
    Eight(4, 3, 0, 0, 0, 0, 0, 0);
    Eight(6, 5, 0, 0, 0, 0, 0, 0);
    Eight(8, 7, 0, 0, 0, 0, 0, 0);
  }

  /** A header of each version, with its checksum. */
  lemma {:induction false} HeaderBytesAre(crc: Checksum)
    ensures |SAMPLE_V1| == 76 && |SAMPLE_V2| == 100
    ensures ValidHeader(SampleHeader(1)) && EncodeHeader(crc, SampleHeader(1)) == SAMPLE_V1 + LE(4, crc(SAMPLE_V1))
    ensures ValidHeader(SampleHeader(2)) && EncodeHeader(crc, SampleHeader(2)) == SAMPLE_V2 + LE(4, crc(SAMPLE_V2))
  {
    hide HeaderIdentity, SampleIdentity, LE;
    IdentityBytes(1);
    IdentityBytes(2);
    Frontiers();
    assert Zeros(4) == [0, 0, 0, 0];
  }

  lemma {:induction false} Frontiers()
    ensures Enc64(0x090A) == [10, 9, 0, 0, 0, 0, 0, 0] && Enc64(0x0B0C) == [12, 11, 0, 0, 0, 0, 0, 0]
    ensures Enc64(0x0D0E) == [14, 13, 0, 0, 0, 0, 0, 0]
  {
    hide Enc64, FromLE;
    Eight(10, 9, 0, 0, 0, 0, 0, 0);
    Eight(12, 11, 0, 0, 0, 0, 0, 0);
    Eight(14, 13, 0, 0, 0, 0, 0, 0);
  }
}
