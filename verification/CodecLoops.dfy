/** The loops of the codec, each proved against the specification function it computes. */
module CodecLoops {
  import opened Wrappers
  import opened Widths
  import opened ChangeTypes
  import opened Codec
  import opened LogFile
  import opened Loading
  import opened LoadingInverse
  import opened Format
  import opened Damage

  lemma {:induction false} ListBytesAppend(ms: seq<Change>, c: Change)
    requires AllFit(ms) && Fits(c)
    ensures AllFit(ms + [c]) && ListBytes(ms + [c]) == ListBytes(ms) + MutationBytes(c)
  {
    hide MutationBytes;
    if ms == [] {
      assert (ms + [c])[1..] == [];
    } else {
      assert (ms + [c])[1..] == ms[1..] + [c];
      ListBytesAppend(ms[1..], c);
    }
  }

  /** Appends every mutation to the payload and frames it. */
  method EncodeRecordBytes(crc: Checksum, b: Batch) returns (r: Result<seq<byte>, StreamError>)
    ensures r == EncodeRecord(crc, b)
    ensures r.Ok? <==> EncoderAccepts(b)
    ensures r.Ok? ==> RecordLayout(crc, b, r.value)
  {
    hide RecordLayout, MutationBytes, MutationError, FixedBytes, Frame, MutationSize, ListSize, EncoderAccepts;
    EncodedIsLaidOut(crc, b);
    if b.mutations == [] || |b.mutations| > MAX_MUTATIONS {
      return Err(MutationCountTooLarge(|b.mutations|));
    }
    var payload := FixedBytes(b);
    var i := 0;
    while i < |b.mutations|
      invariant i <= |b.mutations|
      invariant FirstError(b.mutations, b.storageId) == FirstError(b.mutations[i..], b.storageId)
      invariant AllFit(b.mutations[..i]) && payload == FixedBytes(b) + ListBytes(b.mutations[..i])
    {
      var c := b.mutations[i];
      assert b.mutations[i..][0] == c && b.mutations[i..][1..] == b.mutations[i + 1..];
      var e := MutationError(c, b.storageId);
      if e.Some? {
          return Err(e.value);
      }
      NoErrorFitsOne(c, b.storageId);
      ListBytesAppend(b.mutations[..i], c);
      assert b.mutations[..i + 1] == b.mutations[..i] + [c];
      payload := payload + MutationBytes(c);
      i := i + 1;
    }
    assert b.mutations[..i] == b.mutations && b.mutations[i..] == [];
    if |payload| > MAX_RECORD_BYTES {
      return Err(RecordTooLarge(|payload|));
    }
    r := Ok(Frame(crc, payload));
  }

  lemma NoErrorFitsOne(c: Change, storageId: u64)
    requires MutationError(c, storageId) == None
    ensures Fits(c)
  {
  }

  /** Prepends already decoded mutations to the result of decoding the rest. */
  function Prepend(acc: seq<Change>, r: Result<(seq<Change>, nat), StreamError>): Result<(seq<Change>, nat),
                   StreamError> {
    match r
    case Ok(v) => Ok((acc + v.0, v.1))
    case Err(e) => Err(e)
  }

  lemma {:induction false} PrependNothing(r: Result<(seq<Change>, nat), StreamError>)
    ensures Prepend([], r) == r
  {
    assert r.Ok? ==> [] + r.value.0 == r.value.0;
  }

  lemma {:induction false} PrependPrepend(ms: seq<Change>, c: Change, r: Result<(seq<Change>, nat), StreamError>)
    ensures Prepend(ms, Prepend([c], r)) == Prepend(ms + [c], r)
  {
    assert r.Ok? ==> ms + ([c] + r.value.0) == ms + [c] + r.value.0;
  }

  /** One step of the list decoder. */
  lemma {:induction false} DecodeNext(p: seq<byte>, off: nat, count: nat, storageId: u64, kind: StorageKind)
    requires count > 0
    ensures var m := DecodeMutation(p, off, storageId);
            DecodeList(p, off, count, storageId, kind) ==
            if m.Err? then Err(m.error)
            else if CheckPending(m.value.0, kind).Err? then Err(CheckPending(m.value.0, kind).error)
            else Prepend([m.value.0], DecodeList(p, m.value.1, count - 1, storageId, kind))
  {
    hide DecodeMutation, CheckPending;
  }

  lemma {:induction false} DecodeNothing(p: seq<byte>, off: nat, storageId: u64, kind: StorageKind, ms: seq<Change>)
    ensures Prepend(ms, DecodeList(p, off, 0, storageId, kind)) == Ok((ms, off))
  {
    assert ms + [] == ms;
  }

  lemma PrependError(ms: seq<Change>, e: StreamError)
    ensures Prepend(ms, Err(e)) == Err(e)
  {
  }

  /** Decodes `count` mutations by advancing an offset. */
  method DecodeListBytes(p: seq<byte>, count: nat, storageId: u64, kind: StorageKind)
      returns (r: Result<(seq<Change>, nat), StreamError>)
    ensures r == DecodeList(p, FIXED, count, storageId, kind)
  {
    hide DecodeMutation, CheckPending, DecodeList, Prepend;
    var offset := FIXED;
    var mutations: seq<Change> := [];
    var i := 0;
    PrependNothing(DecodeList(p, FIXED, count, storageId, kind));
    while i < count
      invariant i <= count
      invariant DecodeList(p, FIXED, count, storageId, kind) ==
                Prepend(mutations, DecodeList(p, offset, count - i, storageId, kind))
    {
      DecodeNext(p, offset, count - i, storageId, kind);
      var mutation := DecodeMutation(p, offset, storageId);
      if mutation.Err? {
        PrependError(mutations, mutation.error);
        return Err(mutation.error);
      }
      var valid := CheckPending(mutation.value.0, kind);
      if valid.Err? {
        PrependError(mutations, valid.error);
        return Err(valid.error);
      }
      PrependPrepend(mutations, mutation.value.0, DecodeList(p, mutation.value.1, count - i - 1, storageId, kind));
      mutations := mutations + [mutation.value.0];
      offset := mutation.value.1;
      i := i + 1;
    }
    r := Ok((mutations, offset));
    DecodeNothing(p, offset, storageId, kind, mutations);
  }

  /** Reads a log file: header, then frame by frame up to the end or a torn tail. */
  method LoadFileBytes(crc: Checksum, bytes: seq<byte>, outcome: u64 -> Outcome, lenient: bool)
      returns (r: Result<(Header, Loaded), StreamError>)
    ensures r == LoadFile(crc, bytes, outcome, lenient)
    ensures r.Ok? && r.value.0.active <==>
            exists h: Header, log: seq<Record>, tail: seq<byte> ::
              FileThenTail(crc, bytes, h, log, tail, outcome) && (lenient || tail == [])
  {
    LoadAcceptsExactly(crc, bytes, outcome, lenient);
    hide FileThenTail, LoadHeader, NextChunk, LoadStep;
    var head := LoadHeader(crc, bytes);
    if head.Err? {
      return Err(head.error);
    }
    var h := head.value;
    if !h.active {
      return Ok((h, Loaded(|bytes|, [])));
    }
    var records: seq<PreparedRecord> := [];
    var offset := HeaderSize(h);
    while true
      invariant LoadFrom(crc, bytes, HeaderSize(h), h, outcome, lenient, []) ==
                LoadFrom(crc, bytes, offset, h, outcome, lenient, records)
      decreases |bytes| - offset
    {
      var next := NextChunk(crc, bytes, offset, h);
      if next.Err? {
        return Err(next.error);
      }
      match next.value
      case End => return Ok((h, Loaded(|bytes|, records)));
      case Torn => return if lenient then Ok((h, Loaded(offset, records))) else Err(Truncated(offset));
      case Whole(record, size) =>
        var step := LoadStep(records, record, size, outcome);
        if step.Err? {
          return Err(step.error);
        }
        records := step.value;
        offset := offset + size;
    }
  }
}
