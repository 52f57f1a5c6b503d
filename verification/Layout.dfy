/** Where every part of a header, a marker and a mutation stands in the file, for any
    of them, byte by byte. */
module Layout {
  import opened Wrappers
  import opened Widths
  import opened ChangeTypes
  import opened Bytes
  import opened Codec
  import opened LogFile
  import opened Format

  // ---------------------------------------------------------------------------
  // Headers and markers
  // ---------------------------------------------------------------------------

  /** The magic, the version, whether the log is active, the engine, the identities, the
      frontiers, and behind reserved zeros the checksum of everything before it. */
  predicate HeaderLayout(crc: Checksum, h: Header, f: seq<byte>) {
    var size := if h.version == 1 then 80 else 104;
    && |f| == size && f[0..4] == [78, 66, 67, 76] && Digits(f, 4, 2, h.version)
    && f[6] == (if h.active then 1 else 0) && f[7] == (if h.kind.HeapStorage? then 1 else 2)
    && Digits(f, 8, 8, h.storageId) && Digits(f, 16, 8, h.tableId) && f[24..56] == h.fingerprint
    && Digits(f, 56, 8, h.generation) && Digits(f, 64, 8, h.origin)
    && (h.version != 1 ==> Digits(f, 72, 8, h.earliest) && Digits(f, 80, 8, h.current) && Digits(f, 88, 8, h.nextSequence))
    && f[size - 8..size - 4] == [0, 0, 0, 0] && Digits(f, size - 4, 4, crc(f[..size - 4]))
  }

  lemma {:induction false} HeaderIsLaidOut(crc: Checksum, h: Header)
    ensures HeaderLayout(crc, h, EncodeHeader(crc, h))
  {
    hide HeaderIdentity, HeaderBody, Digits, LE, Enc64, Enc32, Enc16;
    var f, body, size := EncodeHeader(crc, h), HeaderBody(h), HeaderSize(h);
    assert f[..size - 4] == body && At(f, 0, body) && At(f, size - 4, Enc32(crc(body)));
    HeaderBodyAt(f, h);
    ZeroBytes();
    Word16(f, 4, h.version);
    Word64(f, 8, h.storageId);
    Word64(f, 16, h.tableId);
    Word64(f, 56, h.generation);
    Word64(f, 64, h.origin);
    Word32(f, size - 4, crc(body));
    if h.version != 1 {
      Word64(f, 72, h.earliest);
      Word64(f, 80, h.current);
      Word64(f, 88, h.nextSequence);
    }
  }

  lemma {:induction false} Word64(f: seq<byte>, off: nat, v: u64)
    requires At(f, off, Enc64(v))
    ensures Digits(f, off, 8, v)
  {
    hide LE, Digits;
    DigitsAt(f, off, 8, v);
  }

  lemma {:induction false} Word32(f: seq<byte>, off: nat, v: u32)
    requires At(f, off, Enc32(v))
    ensures Digits(f, off, 4, v)
  {
    hide LE, Digits;
    DigitsAt(f, off, 4, v);
  }

  lemma {:induction false} Word16(f: seq<byte>, off: nat, v: u16)
    requires At(f, off, Enc16(v))
    ensures Digits(f, off, 2, v)
  {
    hide LE, Digits;
    DigitsAt(f, off, 2, v);
  }

  /** A framed marker: its length, its tag, the transaction and the commit, none as zero. */
  lemma {:induction false} MarkerIsLaidOut(crc: Checksum, txn: u64, commit: Option<u64>)
    ensures var f := Frame(crc, FinalizePayload(txn, commit));
            && |f| == 32 && f[0..12] == [24, 0, 0, 0] + [2] + [0, 0, 0, 0, 0, 0, 0]
            && Digits(f, 12, 8, txn) && Digits(f, 20, 8, if commit.Some? then commit.value else 0)
            && Digits(f, 28, 4, crc(f[4..28]))
  {
    hide LE, Digits, Enc64, Enc32;
    var p := FinalizePayload(txn, commit);
    var f := Frame(crc, p);
    ZeroBytes();
    Four(24, 0, 0, 0);
    assert f == [24, 0, 0, 0] + p + Enc32(crc(p));
    assert f[4..28] == p;
    assert f[12..20] == Enc64(txn) && f[20..28] == Enc64(OptionWord(commit)) && f[28..32] == Enc32(crc(p));
    Word64(f, 12, txn);
    Word64(f, 20, OptionWord(commit));
    Word32(f, 28, crc(p));
  }

  // ---------------------------------------------------------------------------
  // Mutations
  // ---------------------------------------------------------------------------

  function KeyWidth(k: VersionKey): nat {
    if k.HeapKey? then 15 else 17
  }

  predicate KeyLayout(f: seq<byte>, off: nat, k: VersionKey) {
    && off + KeyWidth(k) <= |f|
    && match k
       case HeapKey(_, page, slot, generation) =>
         f[off] == 1 && Digits(f, off + 1, 8, page) && Digits(f, off + 9, 2, slot) && Digits(f, off + 11, 4, generation)
       case LsmKey(_, row, version) => f[off] == 2 && Digits(f, off + 1, 8, row) && Digits(f, off + 9, 8, version)
  }

  predicate RowLayout(f: seq<byte>, off: nat, row: Row) {
    off + 4 + |row| <= |f| && Digits(f, off, 4, |row|) && f[off + 4..off + 4 + |row|] == row
  }

  function ChangeWidth(c: Change): nat {
    match c
    case Insert(n, row) => 1 + KeyWidth(n) + 4 + |row|
    case Update(o, n, row) => 1 + KeyWidth(o) + KeyWidth(n) + 4 + |row|
    case Delete(o) => 1 + KeyWidth(o)
  }

  /** A tag, the versions, the old one first, and the row behind its length. */
  predicate ChangeLayout(f: seq<byte>, off: nat, c: Change) {
    && off < |f|
    && match c
       case Insert(n, row) => f[off] == 1 && KeyLayout(f, off + 1, n) && RowLayout(f, off + 1 + KeyWidth(n), row)
       case Update(o, n, row) =>
         && f[off] == 2 && KeyLayout(f, off + 1, o) && KeyLayout(f, off + 1 + KeyWidth(o), n)
         && RowLayout(f, off + 1 + KeyWidth(o) + KeyWidth(n), row)
       case Delete(o) => f[off] == 3 && KeyLayout(f, off + 1, o)
  }

  function WidthOf(cs: seq<Change>): nat {
    if cs == [] then 0 else ChangeWidth(cs[0]) + WidthOf(cs[1..])
  }

  lemma {:induction false} KeyIsLaidOut(f: seq<byte>, off: nat, k: VersionKey)
    requires At(f, off, KeyBytes(k))
    ensures KeyLayout(f, off, k)
  {
    hide At, LE, Digits, Enc64, Enc32, Enc16;
    match k
    case HeapKey(_, page, slot, generation) =>
      AtSplit(f, off, [HEAP_TAG], Enc64(page) + (Enc16(slot) + Enc32(generation)));
      AtSplit(f, off + 1, Enc64(page), Enc16(slot) + Enc32(generation));
      AtSplit(f, off + 9, Enc16(slot), Enc32(generation));
      OneByte(f, off, HEAP_TAG);
      Word64(f, off + 1, page);
      Word16(f, off + 9, slot);
      Word32(f, off + 11, generation);
      Inside(f, off, KeyBytes(k));
    case LsmKey(_, row, version) =>
      AtSplit(f, off, [LSM_TAG], Enc64(row) + Enc64(version));
      AtSplit(f, off + 1, Enc64(row), Enc64(version));
      OneByte(f, off, LSM_TAG);
      Word64(f, off + 1, row);
      Word64(f, off + 9, version);
      Inside(f, off, KeyBytes(k));
  }

  lemma {:induction false} OneByte(f: seq<byte>, off: nat, x: byte)
    requires At(f, off, [x])
    ensures off < |f| && f[off] == x
  {
    assert f[off] == f[off..off + 1][0];
  }

  lemma Inside(f: seq<byte>, off: nat, bs: seq<byte>)
    requires At(f, off, bs)
    ensures off + |bs| <= |f|
  {
  }

  lemma {:induction false} RowIsLaidOut(f: seq<byte>, off: nat, row: Row)
    requires |row| <= MAX_ROW_BYTES && At(f, off, RowBytes(row))
    ensures RowLayout(f, off, row)
  {
    hide LE, Digits, Enc32;
    AtSplit(f, off, Enc32(|row|), row);
    Word32(f, off, |row|);
  }

  lemma {:induction false} ChangeIsLaidOut(f: seq<byte>, off: nat, c: Change)
    requires Fits(c) && At(f, off, MutationBytes(c))
    ensures ChangeLayout(f, off, c) && |MutationBytes(c)| == ChangeWidth(c)
  {
    hide At, KeyBytes, RowBytes, KeyLayout, RowLayout;
    match c
    case Insert(n, row) =>
      AtSplit(f, off, [INSERT_TAG], KeyBytes(n) + RowBytes(row));
      AtSplit(f, off + 1, KeyBytes(n), RowBytes(row));
      OneByte(f, off, INSERT_TAG);
      KeyIsLaidOut(f, off + 1, n);
      RowIsLaidOut(f, off + 1 + |KeyBytes(n)|, row);
    case Update(o, n, row) =>
      AtSplit(f, off, [UPDATE_TAG], KeyBytes(o) + (KeyBytes(n) + RowBytes(row)));
      AtSplit(f, off + 1, KeyBytes(o), KeyBytes(n) + RowBytes(row));
      AtSplit(f, off + 1 + |KeyBytes(o)|, KeyBytes(n), RowBytes(row));
      OneByte(f, off, UPDATE_TAG);
      KeyIsLaidOut(f, off + 1, o);
      KeyIsLaidOut(f, off + 1 + |KeyBytes(o)|, n);
      RowIsLaidOut(f, off + 1 + |KeyBytes(o)| + |KeyBytes(n)|, row);
    case Delete(o) =>
      AtSplit(f, off, [DELETE_TAG], KeyBytes(o));
      OneByte(f, off, DELETE_TAG);
      KeyIsLaidOut(f, off + 1, o);
  }

  lemma {:induction false} ListIsLaidOut(f: seq<byte>, off: nat, cs: seq<Change>, i: nat)
    requires AllFit(cs) && At(f, off, ListBytes(cs)) && i < |cs|
    ensures ChangeLayout(f, off + WidthOf(cs[..i]), cs[i])
    decreases i
  {
    hide At, MutationBytes, ChangeLayout, ChangeWidth, MutationSize, Fits;
    AtSplit(f, off, MutationBytes(cs[0]), ListBytes(cs[1..]));
    ChangeIsLaidOut(f, off, cs[0]);
    if i > 0 {
      ListIsLaidOut(f, off + |MutationBytes(cs[0])|, cs[1..], i - 1);
      assert cs[..i][1..] == cs[1..][..i - 1];
    }
  }

  lemma {:induction false} WidthIsSize(cs: seq<Change>)
    ensures WidthOf(cs) == ListSize(cs)
    decreases |cs|
  {
    if cs != [] { WidthIsSize(cs[1..]); }
  }

  /** In any framed record the mutations stand one behind the other from byte 108 on, and
      the payload ends behind the last of them. */
  lemma {:induction false} ChangesAreLaidOut(crc: Checksum, b: Batch, i: nat)
    requires EncodeRecord(crc, b).Ok? && i < |b.mutations|
    ensures ChangeLayout(EncodeRecord(crc, b).value, 108 + WidthOf(b.mutations[..i]), b.mutations[i])
    ensures |EncodeRecord(crc, b).value| == 104 + WidthOf(b.mutations) + 8
  {
    hide FirstError, AllFit, ListBytes, FixedBytes, Enc32, ChangeLayout;
    EncoderAcceptsIff(crc, b);
    WidthIsSize(b.mutations);
    var p := Payload(b);
    var f := EncodeRecord(crc, b).value;
    assert f == Enc32(|p|) + p + Enc32(crc(p));
    assert At(f, 4, p) by { assert f[4..4 + |p|] == p; }
    AtSplit(f, 4, FixedBytes(b), ListBytes(b.mutations));
    ListIsLaidOut(f, 108, b.mutations, i);
  }
}
