/** Finalize markers, log headers, framing, and loading a log file back. */
module LogFile {
  import opened Wrappers
  import opened Widths
  import opened ChangeTypes
  import opened Bytes
  import opened Codec

  const MAGIC: seq<byte> := [78, 66, 67, 76]   // "NBCL"
  const FORMAT_VERSION: u16 := 2
  const V1_HEADER_SIZE: nat := 80
  const V2_HEADER_SIZE: nat := 104

  // ---------------------------------------------------------------------------
  // Finalize markers
  // ---------------------------------------------------------------------------

  function FinalizePayload(txn: u64, commit: Option<u64>): (bs: seq<byte>)
    ensures |bs| == 24
  {
    [FINALIZE_TAG] + Zeros(7) + Enc64(txn) + Enc64(OptionWord(commit))
  }

  function DecodeFinalize(p: seq<byte>): Result<(u64, Option<u64>), StreamError> {
    if |p| != 24 || p[0] != FINALIZE_TAG || p[1..8] != Zeros(7) then Err(InvalidRecord(InvalidFinalize))
    else
      var txn := Dec64(p[8..16]);
      if txn == 0 then Err(InvalidRecord(ZeroTransaction))
      else Ok((txn, WordOption(Dec64(p[16..24]))))
  }

  /** A marker comes back unless its commit is the reserved zero, which reads as absent. */
  lemma {:induction false} FinalizeRoundTrip(txn: u64, commit: Option<u64>)
    requires txn != 0
    ensures DecodeFinalize(FinalizePayload(txn, commit)) == Ok((txn, commit)) <==> commit != Some(0)
  {
    var p := FinalizePayload(txn, commit);
    assert p[1..8] == Zeros(7) && p[8..16] == Enc64(txn) && p[16..24] == Enc64(OptionWord(commit));
    DecEnc64(txn);
    DecEnc64(OptionWord(commit));
  }

  /** The commit that is read back from the marker of `commit`. */
  function ReadBack(commit: Option<u64>): Option<u64> {
    if commit == Some(0) then None else commit
  }

  lemma {:induction false} FinalizeReadsBack(txn: u64, commit: Option<u64>)
    requires txn != 0
    ensures DecodeFinalize(FinalizePayload(txn, commit)) == Ok((txn, ReadBack(commit)))
    ensures FinalizePayload(txn, commit) == FinalizePayload(txn, ReadBack(commit))
  {
    assert OptionWord(commit) == OptionWord(ReadBack(commit));
    FinalizeRoundTrip(txn, ReadBack(commit));
  }

  lemma {:induction false} FinalizeInverse(p: seq<byte>)
    requires DecodeFinalize(p).Ok?
    ensures var (txn, commit) := DecodeFinalize(p).value;
            txn != 0 && commit != Some(0) && FinalizePayload(txn, commit) == p
  {
    var (txn, commit) := DecodeFinalize(p).value;
    assert p == [p[0]] + p[1..8] + p[8..16] + p[16..24];
    assert OptionWord(commit) == Dec64(p[16..24]);
  }

  // ---------------------------------------------------------------------------
  // Headers
  // ---------------------------------------------------------------------------

  function KindTag(kind: StorageKind): byte {
    if kind.HeapStorage? then HEAP_TAG else LSM_TAG
  }

  /** The headers the decoder gives back. */
  predicate ValidHeader(h: Header) {
    && (h.version == 1 || h.version == FORMAT_VERSION)
    && h.storageId != 0 && h.tableId != 0 && h.generation != 0
    && h.origin <= h.earliest <= h.current
    && h.nextSequence != 0
    && (h.version == 1 ==> h.origin == h.earliest == h.current && h.nextSequence == 1)
  }

  function HeaderSize(h: Header): nat {
    if h.version == 1 then V1_HEADER_SIZE else V2_HEADER_SIZE
  }

  function HeaderIdentity(h: Header): (bs: seq<byte>)
    ensures |bs| == 72
  {
    MAGIC + Enc16(if h.version == 1 then 1 else h.version) +
    [if h.active then 1 else 0] + [KindTag(h.kind)] +
    Enc64(h.storageId) + Enc64(h.tableId) + h.fingerprint + Enc64(h.generation) + Enc64(h.origin)
  }

  function HeaderBody(h: Header): (bs: seq<byte>)
    ensures |bs| == HeaderSize(h) - 4
  {
    if h.version == 1 then HeaderIdentity(h) + Zeros(4)
    else HeaderIdentity(h) + (Enc64(h.earliest) + Enc64(h.current) + Enc64(h.nextSequence) + Zeros(4))
  }

  function EncodeHeader(crc: Checksum, h: Header): (bs: seq<byte>)
    ensures |bs| == HeaderSize(h)
  {
    HeaderBody(h) + Enc32(crc(HeaderBody(h)))
  }

  function DecodeHeader(crc: Checksum, p: seq<byte>): (r: Result<Header, StreamError>) {
    if |p| < 6 then Err(Truncated(|p|))
    else if p[0..4] != MAGIC then Err(InvalidMagic)
    else
      var version := Dec16(p[4..6]);
      if version != 1 && version != FORMAT_VERSION then Err(UnsupportedVersion(version))
      else
        var size := if version == 1 then V1_HEADER_SIZE else V2_HEADER_SIZE;
        if |p| != size then Err(Truncated(|p|))
        else if p[6] > 1 || p[size - 8..size - 4] != Zeros(4) then Err(InvalidHeader(FlagsOrReserved))
        else if crc(p[..size - 4]) != Dec32(p[size - 4..size]) then Err(ChecksumMismatch(0))
        else DecodeHeaderFields(p, version)
  }

  function DecodeHeaderFields(p: seq<byte>, version: u16): (r: Result<Header, StreamError>)
    requires |p| == if version == 1 then V1_HEADER_SIZE else V2_HEADER_SIZE
  {
    var storageId := Dec64(p[8..16]);
    var tableId := Dec64(p[16..24]);
    var generation := Dec64(p[56..64]);
    if storageId == 0 || tableId == 0 || generation == 0 then Err(InvalidHeader(ZeroIdentity))
    else
      var origin := Dec64(p[64..72]);
      var earliest := if version == 1 then origin else Dec64(p[72..80]);
      var current := if version == 1 then origin else Dec64(p[80..88]);
      var nextSequence := if version == 1 then 1 else Dec64(p[88..96]);
      if origin > earliest || earliest > current then Err(InvalidHeader(FrontiersOutOfOrder))
      else if nextSequence == 0 then Err(InvalidHeader(ZeroNextSequence))
      else if p[7] != HEAP_TAG && p[7] != LSM_TAG then Err(InvalidHeader(UnknownStorageKind))
      else
        Ok(Header(version, p[6] == 1, if p[7] == HEAP_TAG then HeapStorage else LsmStorage,
                  storageId, tableId, p[24..56], generation, origin, earliest, current, nextSequence))
  }

  lemma {:induction false} IdentityAt(p: seq<byte>, h: Header)
    requires At(p, 0, HeaderIdentity(h))
    ensures p[0..4] == MAGIC && p[4..6] == Enc16(if h.version == 1 then 1 else h.version)
    ensures p[6] == (if h.active then 1 else 0) && p[7] == KindTag(h.kind)
    ensures p[8..16] == Enc64(h.storageId) && p[16..24] == Enc64(h.tableId) && p[24..56] == h.fingerprint
    ensures p[56..64] == Enc64(h.generation) && p[64..72] == Enc64(h.origin)
  {
    hide Enc64, Enc16;
    var f := HeaderIdentity(h);
    assert p[0..72] == f;
    assert forall i :: 0 <= i < 72 ==> p[i] == f[i];
  }

  lemma {:induction false} FrontiersAt(p: seq<byte>, h: Header)
    requires h.version != 1 && At(p, 0, HeaderBody(h))
    ensures p[72..80] == Enc64(h.earliest) && p[80..88] == Enc64(h.current)
    ensures p[88..96] == Enc64(h.nextSequence) && p[96..100] == Zeros(4)
  {
    hide Enc64, HeaderIdentity;
    var tail := Enc64(h.earliest) + Enc64(h.current) + Enc64(h.nextSequence) + Zeros(4);
    AtSplit(p, 0, HeaderIdentity(h), tail);
    assert p[72..100] == tail;
    assert forall i :: 72 <= i < 100 ==> p[i] == tail[i - 72];
  }

  /** Decoding an encoded header, of either version, gives it back. */
  lemma {:induction false} HeaderRoundTrip(crc: Checksum, h: Header)
    requires ValidHeader(h)
    ensures DecodeHeader(crc, EncodeHeader(crc, h)) == Ok(h)
  {
    hide HeaderIdentity, HeaderBody, Enc64, Enc32, Enc16, Dec64, Dec32, Dec16;
    var p := EncodeHeader(crc, h);
    var body := HeaderBody(h);
    var size := HeaderSize(h);
    assert p[..size - 4] == body && p[size - 4..size] == Enc32(crc(body));
    assert At(p, 0, body);
    HeaderBodyAt(p, h);
    DecEnc16(h.version); DecEnc64(h.storageId); DecEnc64(h.tableId); DecEnc64(h.generation);
    DecEnc64(h.origin); DecEnc64(h.earliest); DecEnc64(h.current); DecEnc64(h.nextSequence);
    DecEnc32(crc(body));
  }

  lemma {:induction false} HeaderBodyAt(p: seq<byte>, h: Header)
    requires At(p, 0, HeaderBody(h))
    ensures At(p, 0, HeaderIdentity(h))
    ensures p[0..4] == MAGIC && p[4..6] == Enc16(if h.version == 1 then 1 else h.version)
    ensures p[6] == (if h.active then 1 else 0) && p[7] == KindTag(h.kind)
    ensures p[8..16] == Enc64(h.storageId) && p[16..24] == Enc64(h.tableId) && p[24..56] == h.fingerprint
    ensures p[56..64] == Enc64(h.generation) && p[64..72] == Enc64(h.origin)
    ensures p[HeaderSize(h) - 8..HeaderSize(h) - 4] == Zeros(4)
    ensures h.version != 1 ==> p[72..80] == Enc64(h.earliest) && p[80..88] == Enc64(h.current) && p[88..96] == Enc64(h.nextSequence)
  {
    hide HeaderIdentity, Enc64, Enc16;
    if h.version == 1 {
      AtSplit(p, 0, HeaderIdentity(h), Zeros(4));
    } else {
      AtSplit(p, 0, HeaderIdentity(h), Enc64(h.earliest) + Enc64(h.current) + Enc64(h.nextSequence) + Zeros(4));
      FrontiersAt(p, h);
    }
    IdentityAt(p, h);
  }

  /** Whatever the decoder accepts is exactly what the encoder writes for it. */
  lemma {:induction false} HeaderInverse(crc: Checksum, p: seq<byte>)
    requires DecodeHeader(crc, p).Ok?
    ensures ValidHeader(DecodeHeader(crc, p).value)
    ensures EncodeHeader(crc, DecodeHeader(crc, p).value) == p
  {
    hide HeaderBody, Enc32, Dec32, Dec64, Dec16;
    var h := DecodeHeader(crc, p).value;
    HeaderBodyFrom(p, h);
    var size := HeaderSize(h);
    assert p[..size - 4] == HeaderBody(h);
    assert p == p[..size - 4] + p[size - 4..size];
  }

  lemma {:induction false} HeaderBodyFrom(p: seq<byte>, h: Header)
    requires DecodeHeaderFieldsOk(p, h)
    ensures p[..HeaderSize(h) - 4] == HeaderBody(h)
  {
    hide Enc64, Enc16, Dec64, Dec16;
    var size := HeaderSize(h);
    Fields(p);
    if h.version == 1 {
      assert p[..size - 4] == p[..72] + p[72..76];
    } else {
      assert p[..size - 4] == p[..72] + (p[72..80] + p[80..88] + p[88..96] + p[96..100]);
    }
  }

  /** The first 72 bytes, field by field. */
  lemma {:induction false} Fields(p: seq<byte>)
    requires |p| >= 72
    ensures p[..72] == p[0..4] + p[4..6] + [p[6]] + [p[7]] + p[8..16] + p[16..24] + p[24..56] + p[56..64] + p[64..72]
  {
    assert p[..6] == p[0..4] + p[4..6];
    assert p[..7] == p[..6] + [p[6]];
    assert p[..8] == p[..7] + [p[7]];
    assert p[..16] == p[..8] + p[8..16];
    assert p[..24] == p[..16] + p[16..24];
    assert p[..56] == p[..24] + p[24..56];
    assert p[..64] == p[..56] + p[56..64];
    assert p[..72] == p[..64] + p[64..72];
  }

  /** The facts a successful decode leaves behind, field by field. */
  predicate DecodeHeaderFieldsOk(p: seq<byte>, h: Header) {
    && (h.version == 1 || h.version == 2)
    && |p| == HeaderSize(h)
    && p[0..4] == MAGIC && p[4..6] == Enc16(h.version) && p[6] <= 1 && h.active == (p[6] == 1)
    && p[7] == KindTag(h.kind)
    && p[8..16] == Enc64(h.storageId) && p[16..24] == Enc64(h.tableId) && p[24..56] == h.fingerprint
    && p[56..64] == Enc64(h.generation) && p[64..72] == Enc64(h.origin)
    && p[HeaderSize(h) - 8..HeaderSize(h) - 4] == Zeros(4)
    && (h.version != 1 ==> p[72..80] == Enc64(h.earliest) && p[80..88] == Enc64(h.current) && p[88..96] == Enc64(h.nextSequence))
  }
}
