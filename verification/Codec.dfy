/** The NBCL byte format: version keys, mutations, prepared records and finalize
    markers.  The checksum is a parameter: everything holds for any function of
    the bytes.  A row travels as its canonical encoding. */
module Codec {
  import opened Wrappers
  import opened Widths
  import opened ChangeTypes
  import opened Bytes

  const MAX_RECORD_BYTES: int := 64 * 1024 * 1024
  const MAX_MUTATIONS: int := 1_000_000
  const MAX_ROW_BYTES: int := 16 * 1024 * 1024
  const FIXED: nat := 104

  const PREPARED_TAG: byte := 1
  const FINALIZE_TAG: byte := 2
  const HEAP_TAG: byte := 1
  const LSM_TAG: byte := 2
  const INSERT_TAG: byte := 1
  const UPDATE_TAG: byte := 2
  const DELETE_TAG: byte := 3

  type Checksum = seq<byte> -> u32

  // ---------------------------------------------------------------------------
  // Places in a byte string
  // ---------------------------------------------------------------------------

  /** `bs` stands in `p` at `off`. */
  predicate At(p: seq<byte>, off: nat, bs: seq<byte>) {
    off + |bs| <= |p| && p[off..off + |bs|] == bs
  }

  lemma {:induction false} AtSplit(p: seq<byte>, off: nat, a: seq<byte>, b: seq<byte>)
    ensures At(p, off, a + b) <==> At(p, off, a) && At(p, off + |a|, b)
  {
    if At(p, off, a + b) {
      assert p[off..off + |a|] == (a + b)[..|a|];
      assert p[off + |a|..off + |a| + |b|] == (a + b)[|a|..];
    }
    if At(p, off, a) && At(p, off + |a|, b) {
      assert p[off..off + |a + b|] == p[off..off + |a|] + p[off + |a|..off + |a| + |b|];
    }
  }

  lemma EmptyAt(p: seq<byte>, off: nat)
    requires off <= |p|
    ensures At(p, off, [])
  {
  }

  function Take(p: seq<byte>, off: nat, n: nat): (r: Result<seq<byte>, StreamError>)
    ensures r.Ok? <==> off + n <= |p|
    ensures r.Ok? ==> |r.value| == n && At(p, off, r.value)
    ensures forall bs :: |bs| == n && At(p, off, bs) ==> r == Ok(bs)
  {
    if off + n <= |p| then Ok(p[off..off + n]) else Err(Truncated(off))
  }

  // ---------------------------------------------------------------------------
  // Version keys
  // ---------------------------------------------------------------------------

  function KeySize(k: VersionKey): nat {
    if k.HeapKey? then 15 else 17
  }

  function KeyBytes(k: VersionKey): (bs: seq<byte>)
    ensures |bs| == KeySize(k)
  {
    match k
    case HeapKey(_, page, slot, generation) => [HEAP_TAG] + (Enc64(page) + (Enc16(slot) + Enc32(generation)))
    case LsmKey(_, row, version) => [LSM_TAG] + (Enc64(row) + Enc64(version))
  }

  /** What the encoder refuses in a key, in the order it looks. */
  function KeyError(k: VersionKey, storageId: u64): Option<StreamError> {
    if k.storageId != storageId then Some(ContextMismatch)
    else match k
      case HeapKey(_, _, _, generation) => if generation == 0 then Some(InvalidRecord(ZeroHeapGeneration)) else None
      case LsmKey(_, row, _) => if row == 0 then Some(InvalidRecord(ZeroLsmRow)) else None
  }

  function DecodeKey(p: seq<byte>, off: nat, storageId: u64): Result<(VersionKey, nat), StreamError> {
    var tag :- Take(p, off, 1);
    if tag[0] == HEAP_TAG then
      var page :- Take(p, off + 1, 8);
      var slot :- Take(p, off + 9, 2);
      var generation :- Take(p, off + 11, 4);
      if Dec32(generation) == 0 then Err(InvalidRecord(ZeroHeapGeneration))
      else Ok((HeapKey(storageId, Dec64(page), Dec16(slot), Dec32(generation)), off + 15))
    else if tag[0] == LSM_TAG then
      var row :- Take(p, off + 1, 8);
      var version :- Take(p, off + 9, 8);
      if Dec64(row) == 0 then Err(InvalidRecord(ZeroLsmRow))
      else Ok((LsmKey(storageId, Dec64(row), Dec64(version)), off + 17))
    else Err(InvalidRecord(InvalidKeyTag))
  }

  lemma {:induction false} KeyInverse(p: seq<byte>, off: nat, storageId: u64)
    requires DecodeKey(p, off, storageId).Ok?
    ensures var (k, end) := DecodeKey(p, off, storageId).value;
            && KeyError(k, storageId) == None
            && end == off + |KeyBytes(k)| <= |p|
            && At(p, off, KeyBytes(k))
  {
    hide At, Take, Enc64, Enc32, Enc16, Dec64, Dec32, Dec16;
    var tag := Take(p, off, 1).value;
    assert tag == [tag[0]];
    match DecodeKey(p, off, storageId).value.0
    case HeapKey(_, page, slot, generation) =>
      AtSplit(p, off + 9, Enc16(slot), Enc32(generation));
      AtSplit(p, off + 1, Enc64(page), Enc16(slot) + Enc32(generation));
      AtSplit(p, off, tag, Enc64(page) + (Enc16(slot) + Enc32(generation)));
    case LsmKey(_, row, version) =>
      AtSplit(p, off + 1, Enc64(row), Enc64(version));
      AtSplit(p, off, tag, Enc64(row) + Enc64(version));
  }

  lemma {:induction false} KeyRoundTrip(p: seq<byte>, off: nat, k: VersionKey, storageId: u64)
    requires At(p, off, KeyBytes(k)) && KeyError(k, storageId) == None
    ensures DecodeKey(p, off, storageId) == Ok((k, off + |KeyBytes(k)|))
  {
    hide At, Take, Enc64, Enc32, Enc16, Dec64, Dec32, Dec16;
    match k
    case HeapKey(_, page, slot, generation) =>
      AtSplit(p, off, [HEAP_TAG], Enc64(page) + (Enc16(slot) + Enc32(generation)));
      AtSplit(p, off + 1, Enc64(page), Enc16(slot) + Enc32(generation));
      AtSplit(p, off + 9, Enc16(slot), Enc32(generation));
      DecEnc64(page); DecEnc16(slot); DecEnc32(generation);
    case LsmKey(_, row, version) =>
      AtSplit(p, off, [LSM_TAG], Enc64(row) + Enc64(version));
      AtSplit(p, off + 1, Enc64(row), Enc64(version));
      DecEnc64(row); DecEnc64(version);
  }

  // ---------------------------------------------------------------------------
  // Rows and mutations
  // ---------------------------------------------------------------------------

  function RowBytes(row: Row): seq<byte>
    requires |row| <= MAX_ROW_BYTES
  {
    Enc32(|row|) + row
  }

  function DecodeRow(p: seq<byte>, off: nat): (r: Result<(Row, nat), StreamError>)
    ensures r.Ok? ==>
              && |r.value.0| <= MAX_ROW_BYTES
              && r.value.1 == off + |RowBytes(r.value.0)| <= |p|
              && At(p, off, RowBytes(r.value.0))
  {
    var size :- Take(p, off, 4);
    var length := Dec32(size);
    if length > MAX_ROW_BYTES then Err(RowPayloadTooLarge(length))
    else
      var row :- Take(p, off + 4, length);
      AtSplit(p, off, size, row);
      Ok((row, off + 4 + length))
  }

  lemma {:induction false} RowRoundTrip(p: seq<byte>, off: nat, row: Row)
    requires |row| <= MAX_ROW_BYTES && At(p, off, RowBytes(row))
    ensures DecodeRow(p, off) == Ok((row, off + |RowBytes(row)|))
  {
    AtSplit(p, off, Enc32(|row|), row);
    DecEnc32(|row|);
    assert Take(p, off, 4) == Ok(Enc32(|row|));
    assert Take(p, off + 4, |row|) == Ok(row);
  }

  /** What the encoder refuses in a mutation, in the order it looks. */
  function MutationError(c: Change, storageId: u64): Option<StreamError> {
    var oldError := if c.Insert? then None else KeyError(c.oldVersion, storageId);
    if oldError.Some? then oldError
    else if c.Delete? then None
    else if KeyError(c.newVersion, storageId).Some? then KeyError(c.newVersion, storageId)
    else if |c.after| > MAX_ROW_BYTES then Some(RowPayloadTooLarge(|c.after|))
    else None
  }

  predicate Fits(c: Change) {
    c.Delete? || |c.after| <= MAX_ROW_BYTES
  }

  function MutationSize(c: Change): (n: nat)
    ensures n >= 16
  {
    match c
    case Insert(k, after) => 1 + KeySize(k) + 4 + |after|
    case Update(o, k, after) => 1 + KeySize(o) + KeySize(k) + 4 + |after|
    case Delete(o) => 1 + KeySize(o)
  }

  function MutationBytes(c: Change): (bs: seq<byte>)
    requires Fits(c)
    ensures |bs| == MutationSize(c)
  {
    match c
    case Insert(n, after) => [INSERT_TAG] + (KeyBytes(n) + RowBytes(after))
    case Update(o, n, after) => [UPDATE_TAG] + (KeyBytes(o) + (KeyBytes(n) + RowBytes(after)))
    case Delete(o) => [DELETE_TAG] + KeyBytes(o)
  }

  function DecodeMutation(p: seq<byte>, off: nat, storageId: u64): Result<(Change, nat), StreamError> {
    var tag :- Take(p, off, 1);
    if tag[0] == INSERT_TAG then
      var n :- DecodeKey(p, off + 1, storageId);
      var row :- DecodeRow(p, n.1);
      Ok((Insert(n.0, row.0), row.1))
    else if tag[0] == UPDATE_TAG then
      var o :- DecodeKey(p, off + 1, storageId);
      var n :- DecodeKey(p, o.1, storageId);
      var row :- DecodeRow(p, n.1);
      Ok((Update(o.0, n.0, row.0), row.1))
    else if tag[0] == DELETE_TAG then
      var o :- DecodeKey(p, off + 1, storageId);
      Ok((Delete(o.0), o.1))
    else Err(InvalidRecord(UnknownMutationTag))
  }

  lemma {:induction false} MutationInverse(p: seq<byte>, off: nat, storageId: u64)
    requires DecodeMutation(p, off, storageId).Ok?
    ensures var (c, end) := DecodeMutation(p, off, storageId).value;
            && MutationError(c, storageId) == None && Fits(c)
            && end == off + |MutationBytes(c)| <= |p|
            && At(p, off, MutationBytes(c))
  {
    hide KeyBytes, RowBytes, At, DecodeKey, DecodeRow, KeyError, Take;
    var tag := Take(p, off, 1).value;
    assert tag == [tag[0]];
    KeyInverse(p, off + 1, storageId);
    match DecodeMutation(p, off, storageId).value.0
    case Insert(n, after) =>
      AtSplit(p, off + 1, KeyBytes(n), RowBytes(after));
      AtSplit(p, off, tag, KeyBytes(n) + RowBytes(after));
    case Update(o, n, after) =>
      KeyInverse(p, off + 1 + |KeyBytes(o)|, storageId);
      AtSplit(p, off + 1 + |KeyBytes(o)|, KeyBytes(n), RowBytes(after));
      AtSplit(p, off + 1, KeyBytes(o), KeyBytes(n) + RowBytes(after));
      AtSplit(p, off, tag, KeyBytes(o) + (KeyBytes(n) + RowBytes(after)));
    case Delete(o) =>
      AtSplit(p, off, tag, KeyBytes(o));
  }

  lemma {:induction false} MutationRoundTrip(p: seq<byte>, off: nat, c: Change, storageId: u64)
    requires MutationError(c, storageId) == None && At(p, off, MutationBytes(c))
    ensures DecodeMutation(p, off, storageId) == Ok((c, off + |MutationBytes(c)|))
  {
    hide KeyBytes, RowBytes, At, DecodeKey, DecodeRow, KeyError, Take;
    match c
    case Insert(n, after) =>
      AtSplit(p, off, [INSERT_TAG], KeyBytes(n) + RowBytes(after));
      AtSplit(p, off + 1, KeyBytes(n), RowBytes(after));
      KeyRoundTrip(p, off + 1, n, storageId);
      RowRoundTrip(p, off + 1 + |KeyBytes(n)|, after);
    case Update(o, n, after) =>
      AtSplit(p, off, [UPDATE_TAG], KeyBytes(o) + (KeyBytes(n) + RowBytes(after)));
      AtSplit(p, off + 1, KeyBytes(o), KeyBytes(n) + RowBytes(after));
      AtSplit(p, off + 1 + |KeyBytes(o)|, KeyBytes(n), RowBytes(after));
      KeyRoundTrip(p, off + 1, o, storageId);
      KeyRoundTrip(p, off + 1 + |KeyBytes(o)|, n, storageId);
      RowRoundTrip(p, off + 1 + |KeyBytes(o)| + |KeyBytes(n)|, after);
    case Delete(o) =>
      AtSplit(p, off, [DELETE_TAG], KeyBytes(o));
      KeyRoundTrip(p, off + 1, o, storageId);
  }

  // ---------------------------------------------------------------------------
  // Mutation lists
  // ---------------------------------------------------------------------------

  function FirstError(ms: seq<Change>, storageId: u64): Option<StreamError> {
    if ms == [] then None
    else if MutationError(ms[0], storageId).Some? then MutationError(ms[0], storageId)
    else FirstError(ms[1..], storageId)
  }

  predicate AllFit(ms: seq<Change>) {
    forall i :: 0 <= i < |ms| ==> Fits(ms[i])
  }

  lemma {:induction false} NoErrorFits(ms: seq<Change>, storageId: u64)
    requires FirstError(ms, storageId) == None
    ensures AllFit(ms)
    ensures forall i :: 0 <= i < |ms| ==> MutationError(ms[i], storageId) == None
  {
    if ms != [] {
      NoErrorFits(ms[1..], storageId);
      assert forall i :: 0 < i < |ms| ==> ms[i] == ms[1..][i - 1];
    }
  }

  function ListSize(ms: seq<Change>): (n: nat)
    ensures n >= 16 * |ms|
  {
    if ms == [] then 0 else MutationSize(ms[0]) + ListSize(ms[1..])
  }

  function ListBytes(ms: seq<Change>): (bs: seq<byte>)
    requires AllFit(ms)
    ensures |bs| == ListSize(ms)
  {
    if ms == [] then [] else MutationBytes(ms[0]) + ListBytes(ms[1..])
  }

  /** Decodes `n` mutations and checks each against the storage engine. */
  function DecodeList(p: seq<byte>, off: nat, n: nat, storageId: u64, kind: StorageKind)
      : (r: Result<(seq<Change>, nat), StreamError>)
    ensures r.Ok? ==> |r.value.0| == n
    decreases n
  {
    if n == 0 then Ok(([], off))
    else
      var first :- DecodeMutation(p, off, storageId);
      var _ :- CheckPending(first.0, kind);
      var rest :- DecodeList(p, first.1, n - 1, storageId, kind);
      Ok(([first.0] + rest.0, rest.1))
  }

  /** The mutation check of the decoder, with its error. */
  function CheckPending(c: Change, kind: StorageKind): (r: Result<bool, StreamError>)
    ensures r.Ok? <==> ValidPending(kind, c)
  {
    var _ :- if OldKey(c).Some? then CheckKeyKind(OldKey(c).value, kind, false) else Ok(true);
    if NewKey(c).Some? then CheckKeyKind(NewKey(c).value, kind, true) else Ok(true)
  }

  function CheckKeyKind(k: VersionKey, kind: StorageKind, allowPending: bool): (r: Result<bool, StreamError>)
    ensures r.Ok? <==> KeyMatchesKind(kind, k, allowPending)
  {
    if KeyMatchesKind(kind, k, allowPending) then Ok(true)
    else if kind.LsmStorage? && k.LsmKey? then Err(InvalidRecord(ZeroLsmVersion))
    else Err(InvalidRecord(KeyKindMismatch))
  }

  lemma {:induction false} ListRoundTrip(p: seq<byte>, off: nat, ms: seq<Change>, storageId: u64, kind: StorageKind)
    requires FirstError(ms, storageId) == None && AllFit(ms) && At(p, off, ListBytes(ms))
    requires forall i :: 0 <= i < |ms| ==> ValidPending(kind, ms[i])
    ensures DecodeList(p, off, |ms|, storageId, kind) == Ok((ms, off + |ListBytes(ms)|))
    decreases |ms|
  {
    hide MutationBytes, MutationSize, At, DecodeMutation, MutationError, ValidPending;
    if ms != [] {
      AtSplit(p, off, MutationBytes(ms[0]), ListBytes(ms[1..]));
      MutationRoundTrip(p, off, ms[0], storageId);
      ListRoundTrip(p, off + |MutationBytes(ms[0])|, ms[1..], storageId, kind);
      assert ms == [ms[0]] + ms[1..];
    }
  }

  lemma {:induction false} ListInverse(p: seq<byte>, off: nat, n: nat, storageId: u64, kind: StorageKind)
    requires off <= |p| && DecodeList(p, off, n, storageId, kind).Ok?
    ensures var (ms, end) := DecodeList(p, off, n, storageId, kind).value;
            && FirstError(ms, storageId) == None && AllFit(ms)
            && (forall i :: 0 <= i < |ms| ==> ValidPending(kind, ms[i]))
            && end == off + |ListBytes(ms)| && At(p, off, ListBytes(ms))
    decreases n
  {
    hide MutationBytes, MutationSize, At, DecodeMutation, MutationError, ValidPending;
    if n == 0 {
      EmptyAt(p, off);
    } else {
      var first := DecodeMutation(p, off, storageId).value;
      MutationInverse(p, off, storageId);
      ListInverse(p, first.1, n - 1, storageId, kind);
      var rest := DecodeList(p, first.1, n - 1, storageId, kind).value;
      var ms := [first.0] + rest.0;
      assert ms[1..] == rest.0;
      AtSplit(p, off, MutationBytes(first.0), ListBytes(rest.0));
    }
  }

  // ---------------------------------------------------------------------------
  // Prepared records
  // ---------------------------------------------------------------------------

  function OptionWord(o: Option<u64>): u64 {
    if o.Some? then o.value else 0
  }

  function WordOption(w: u64): Option<u64> {
    if w == 0 then None else Some(w)
  }

  function FixedBytes(b: Batch): (bs: seq<byte>)
    requires |b.mutations| <= MAX_MUTATIONS
    ensures |bs| == FIXED
  {
    [PREPARED_TAG] + Zeros(7) + Enc64(b.sequence) + Enc64(b.txn) + Enc64(OptionWord(b.databaseTxn)) +
    Enc64(b.tableId) + Enc64(b.storageId) + b.fingerprint + Enc64(b.before) + Enc64(b.after) +
    Enc32(|b.mutations|) + Zeros(4)
  }

  function Payload(b: Batch): (bs: seq<byte>)
    requires |b.mutations| <= MAX_MUTATIONS && AllFit(b.mutations)
    ensures |bs| == PayloadSize(b)
  {
    FixedBytes(b) + ListBytes(b.mutations)
  }

  function PayloadSize(b: Batch): (n: nat)
    ensures n >= FIXED + 16 * |b.mutations|
  {
    FIXED + ListSize(b.mutations)
  }

  function Frame(crc: Checksum, payload: seq<byte>): (bs: seq<byte>)
    requires |payload| <= MAX_RECORD_BYTES
    ensures |bs| == |payload| + 8
  {
    Enc32(|payload|) + payload + Enc32(crc(payload))
  }

  /** Why the encoder refuses a batch, in the order it looks. */
  function EncodeError(b: Batch): Option<StreamError> {
    if b.mutations == [] || |b.mutations| > MAX_MUTATIONS then Some(MutationCountTooLarge(|b.mutations|))
    else if FirstError(b.mutations, b.storageId).Some? then FirstError(b.mutations, b.storageId)
    else if PayloadSize(b) > MAX_RECORD_BYTES then Some(RecordTooLarge(PayloadSize(b)))
    else None
  }

  function EncodeRecord(crc: Checksum, b: Batch): (r: Result<seq<byte>, StreamError>) {
    match EncodeError(b)
    case Some(e) => Err(e)
    case None =>
      NoErrorFits(b.mutations, b.storageId);
      Ok(Frame(crc, Payload(b)))
  }

  function DecodeRecord(p: seq<byte>, h: Header): (r: Result<Batch, StreamError>) {
    if |p| < FIXED then Err(Truncated(0))
    else if p[0] != PREPARED_TAG then Err(InvalidRecord(UnknownTag))
    else if p[1..8] != Zeros(7) then Err(InvalidRecord(ReservedBytes))
    else
      var sequence := Dec64(p[8..16]);
      var txn := Dec64(p[16..24]);
      var database := Dec64(p[24..32]);
      var tableId := Dec64(p[32..40]);
      var storageId := Dec64(p[40..48]);
      var fingerprint: Fingerprint := p[48..80];
      var before := Dec64(p[80..88]);
      var after := Dec64(p[88..96]);
      var count := Dec32(p[96..100]);
      if p[100..104] != Zeros(4) then Err(InvalidRecord(ReservedBytes))
      else if sequence == 0 || txn == 0 then Err(InvalidRecord(ZeroRecordIdentity))
      else if tableId != h.tableId || storageId != h.storageId || fingerprint != h.fingerprint then
        Err(InvalidRecord(RecordContext))
      else if count == 0 || count > MAX_MUTATIONS then Err(MutationCountTooLarge(count))
      else if count > (|p| - FIXED) / 16 then Err(InvalidRecord(CountExceedsBytes))
      else
        var list :- DecodeList(p, FIXED, count, storageId, h.kind);
        if list.1 != |p| then Err(InvalidRecord(TrailingBytes))
        else Ok(Batch(sequence, txn, WordOption(database), tableId, storageId, fingerprint, before, after, list.0))
  }

  /** The batches the decoder gives back: what the encoder accepts, and besides
      that non-zero identities, the log's own context, and mutations that fit the engine. */
  predicate Encodable(h: Header, b: Batch) {
    && EncoderAccepts(b)
    && LoadableIdentity(h, b)
  }

  predicate EncoderAccepts(b: Batch) {
    && 0 < |b.mutations| <= MAX_MUTATIONS
    && FirstError(b.mutations, b.storageId) == None
    && AllFit(b.mutations)
    && PayloadSize(b) <= MAX_RECORD_BYTES
  }

  predicate LoadableIdentity(h: Header, b: Batch) {
    && b.sequence != 0 && b.txn != 0 && b.databaseTxn != Some(0)
    && b.tableId == h.tableId && b.storageId == h.storageId && b.fingerprint == h.fingerprint
    && (forall i :: 0 <= i < |b.mutations| ==> ValidPending(h.kind, b.mutations[i]))
  }

  lemma {:induction false} EncoderAcceptsIff(crc: Checksum, b: Batch)
    ensures EncodeRecord(crc, b).Ok? <==> EncoderAccepts(b)
    ensures EncoderAccepts(b) ==> EncodeRecord(crc, b) == Ok(Frame(crc, Payload(b)))
  {
    if FirstError(b.mutations, b.storageId) == None {
      NoErrorFits(b.mutations, b.storageId);
    }
  }

  /** The twelve fields of the fixed part, each at the offset the decoder reads. */
  lemma {:induction false} FixedAt(p: seq<byte>, b: Batch)
    requires |b.mutations| <= MAX_MUTATIONS && At(p, 0, FixedBytes(b))
    ensures p[0] == PREPARED_TAG && p[1..8] == Zeros(7)
    ensures p[8..16] == Enc64(b.sequence) && p[16..24] == Enc64(b.txn)
    ensures p[24..32] == Enc64(OptionWord(b.databaseTxn)) && p[32..40] == Enc64(b.tableId)
    ensures p[40..48] == Enc64(b.storageId) && p[48..80] == b.fingerprint
    ensures p[80..88] == Enc64(b.before) && p[88..96] == Enc64(b.after)
    ensures p[96..100] == Enc32(|b.mutations|) && p[100..104] == Zeros(4)
  {
    hide Enc64, Enc32, Zeros;
    var f := FixedBytes(b);
    assert p[0..FIXED] == f;
    assert forall i :: 0 <= i < FIXED ==> p[i] == f[i];
  }

  /** And back: fields read at those offsets rebuild the fixed part. */
  lemma {:induction false} FixedFrom(p: seq<byte>, b: Batch)
    requires |b.mutations| <= MAX_MUTATIONS && |p| >= FIXED
    requires p[0] == PREPARED_TAG && p[1..8] == Zeros(7)
    requires p[8..16] == Enc64(b.sequence) && p[16..24] == Enc64(b.txn)
    requires p[24..32] == Enc64(OptionWord(b.databaseTxn)) && p[32..40] == Enc64(b.tableId)
    requires p[40..48] == Enc64(b.storageId) && p[48..80] == b.fingerprint
    requires p[80..88] == Enc64(b.before) && p[88..96] == Enc64(b.after)
    requires p[96..100] == Enc32(|b.mutations|) && p[100..104] == Zeros(4)
    ensures At(p, 0, FixedBytes(b))
  {
    hide Enc64, Enc32, Zeros;
    RecordFields(p);
    assert p[0..FIXED] == p[..FIXED];
  }

  /** The fixed part, field by field. */
  lemma {:induction false} RecordFields(p: seq<byte>)
    requires |p| >= FIXED
    ensures p[..FIXED] == [p[0]] + p[1..8] + p[8..16] + p[16..24] + p[24..32] + p[32..40] + p[40..48] + p[48..80] +
                          p[80..88] + p[88..96] + p[96..100] + p[100..104]
  {
    assert p[..8] == [p[0]] + p[1..8];
    assert p[..16] == p[..8] + p[8..16];
    assert p[..24] == p[..16] + p[16..24];
    assert p[..32] == p[..24] + p[24..32];
    assert p[..40] == p[..32] + p[32..40];
    assert p[..48] == p[..40] + p[40..48];
    assert p[..80] == p[..48] + p[48..80];
    assert p[..88] == p[..80] + p[80..88];
    assert p[..96] == p[..88] + p[88..96];
    assert p[..100] == p[..96] + p[96..100];
    assert p[..104] == p[..100] + p[100..104];
  }

  /** Decoding an encoded batch gives it back. */
  lemma {:induction false} RecordRoundTrip(h: Header, b: Batch)
    requires Encodable(h, b)
    ensures DecodeRecord(Payload(b), h) == Ok(b)
  {
    hide FixedBytes, ListBytes, ListSize, FirstError, AllFit, ValidPending, DecodeList, Enc64, Enc32, Dec64, Dec32;
    var p := Payload(b);
    AtSplit(p, 0, FixedBytes(b), ListBytes(b.mutations));
    assert At(p, 0, p);
    FixedAt(p, b);
    DecEnc64(b.sequence); DecEnc64(b.txn); DecEnc64(OptionWord(b.databaseTxn));
    DecEnc64(b.tableId); DecEnc64(b.storageId); DecEnc64(b.before); DecEnc64(b.after);
    DecEnc32(|b.mutations|);
    ListRoundTrip(p, FIXED, b.mutations, b.storageId, h.kind);
  }

  /** Whatever the decoder accepts is exactly what the encoder writes for it. */
  lemma {:induction false} RecordInverse(p: seq<byte>, h: Header)
    requires |p| <= MAX_RECORD_BYTES && DecodeRecord(p, h).Ok?
    ensures Encodable(h, DecodeRecord(p, h).value)
    ensures Payload(DecodeRecord(p, h).value) == p
  {
    hide FixedBytes, ListBytes, ListSize, FirstError, AllFit, ValidPending, DecodeList, Enc64, Enc32, Dec64, Dec32;
    var b := DecodeRecord(p, h).value;
    ListInverse(p, FIXED, Dec32(p[96..100]), b.storageId, h.kind);
    FixedFrom(p, b);
    AtSplit(p, 0, FixedBytes(b), ListBytes(b.mutations));
    assert p[0..|p|] == p;
  }

  /** Encoding alone does not make a record loadable.  Among the batches the
      encoder accepts, exactly those with a loadable identity come back. */
  lemma {:induction false} LoadableExactly(crc: Checksum, h: Header, b: Batch)
    requires EncodeRecord(crc, b).Ok?
    ensures EncoderAccepts(b)
    ensures DecodeRecord(Payload(b), h) == Ok(b) <==> LoadableIdentity(h, b)
  {
    EncoderAcceptsIff(crc, b);
    if LoadableIdentity(h, b) {
      RecordRoundTrip(h, b);
    }
    if DecodeRecord(Payload(b), h) == Ok(b) {
      RecordInverse(Payload(b), h);
    }
  }

  /** A delete of a pending LSM version: the encoder writes it, the decoder refuses it. */
  lemma {:induction false} PendingDeleteIsRefused(crc: Checksum, h: Header)
    ensures var b := Batch(1, 1, None, h.tableId, h.storageId, h.fingerprint, 0, 1, [Delete(LsmKey(h.storageId, 1, 0))]);
            EncodeRecord(crc, b).Ok? && EncoderAccepts(b) && DecodeRecord(Payload(b), h) != Ok(b)
  {
    var ms := [Delete(LsmKey(h.storageId, 1, 0))];
    assert FirstError(ms[1..], h.storageId) == None && ListSize(ms[1..]) == 0;
    var b := Batch(1, 1, None, h.tableId, h.storageId, h.fingerprint, 0, 1, ms);
    LoadableExactly(crc, h, b);
    assert !ValidPending(h.kind, b.mutations[0]);
  }
}
