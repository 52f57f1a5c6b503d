/** Which calls succeed in every reachable world, and how the others are refused,
    said of frontiers, pins and limits. */
module Acceptance {
  import opened Wrappers
  import opened Widths
  import opened ChangeTypes
  import opened Codec
  import opened LogFile
  import opened Loading
  import opened LogViews
  import opened StreamSpec
  import opened DiskInvariant
  import opened StreamInvariant
  import opened ProtocolGc
  import opened Replay
  import opened World
  import opened ManagerSpec
  import opened ManagerRuns
  import opened Format
  import opened Meaning

  lemma {:induction false} LiveIsReadable(w: World)
    requires Inv(w) && w.state.Enabled?
    ensures Readable(w.state.stream)
  {
    hide StreamInv, DiskInv, PinsInv, Readable;
    ReachableIsReadable(w.state.stream, w.file.disk, w.truth, w.history);
  }

  // ---------------------------------------------------------------------------
  // Read and pins
  // ---------------------------------------------------------------------------

  /** Why a cursor is refused: another storage, another incarnation, or a frontier
      outside the history.  A gap is never the reason. */
  predicate RefusedAs(s: Stream, c: Cursor, e: StreamError) {
    && (e == ContextMismatch <==> c.storageId != s.header.storageId)
    && (e == StreamIdentityMismatch <==> c.storageId == s.header.storageId && c.generation != s.header.generation)
    && (e == HistoryUnavailable <==>
          && c.storageId == s.header.storageId && c.generation == s.header.generation
          && !(s.header.earliest <= c.frontier <= Current(s)))
    && (e == ContextMismatch || e == StreamIdentityMismatch || e == HistoryUnavailable)
  }

  /** Every read of a reachable stream succeeds for a cursor inside the history, and is
      refused for its reason otherwise, whatever its limits. */
  lemma {:induction false} ReadAnswers(w: World, c: Cursor, maxBatches: nat, maxBytes: u64)
    requires Inv(w) && w.state.Enabled?
    ensures Readable(w.state.stream)
    ensures var s, r := w.state.stream, Read(w.state.stream, c, maxBatches, maxBytes);
            && (r.Ok? <==> InRange(s, c)) && (r.Err? ==> RefusedAs(s, c, r.error))
  {
    hide Inv, StartAt, SelectFrom, Current, Chain;
    LiveIsReadable(w);
    ReadAccepts(w.state.stream, c, maxBatches, maxBytes);
  }

  /** A cursor can be pinned exactly when it can be read, unless every id was given out;
      it is refused for the same reason. */
  lemma {:induction false} AcquireSucceedsIff(w: World, syncs: nat, c: Cursor)
    requires Inv(w) && w.state.Enabled?
    ensures var r := AcquireCall(ViewOf(w, syncs), c).1;
            && (r.Ok? <==> InRange(w.state.stream, c) && w.pins.nextId < MAX_U64)
            && (r.Err? && !InRange(w.state.stream, c) ==> RefusedAs(w.state.stream, c, r.error))
            && (r.Err? && InRange(w.state.stream, c) ==> r.error == VersionExhausted)
  {
    hide Inv, Current;
  }

  /** A pin can be moved to a frontier exactly when that is no step back, its cursor can
      be read there, and it is still registered for its incarnation; the first of these
      that fails is reported. */
  lemma {:induction false} AdvanceSucceedsIff(w: World, syncs: nat, pin: Pin, frontier: u64)
    requires Inv(w) && w.state.Enabled?
    ensures var p := pin.entry;
            var moved := Cursor(p.storageId, p.generation, frontier);
            var r := AdvanceCall(ViewOf(w, syncs), pin, frontier).1;
            if frontier < p.frontier then r == Err(RetentionPinRegression(p.frontier, frontier))
            else if !InRange(w.state.stream, moved) then r.Err? && RefusedAs(w.state.stream, moved, r.error)
            else if !Registered(w, pin) then r == Err(RetentionPinUnavailable)
            else r.Ok?
  {
    hide Inv, Current;
  }

  /** The holder has not given the pin up, and the registry knows it for the same stream. */
  predicate Registered(w: World, pin: Pin) {
    && pin.active && pin.id in w.pins.pins
    && w.pins.pins[pin.id].storageId == pin.entry.storageId && w.pins.pins[pin.id].generation == pin.entry.generation
  }

  // ---------------------------------------------------------------------------
  // GC
  // ---------------------------------------------------------------------------

  /** No pin of the live incarnation holds history before the frontier. */
  predicate PinsAllow(h: Header, pins: map<u64, PinEntry>, frontier: u64) {
    forall id :: id in pins && pins[id].storageId == h.storageId && pins[id].generation == h.generation ==> frontier <= pins[id].frontier
  }

  /** `low` is where the lowest pin of the live incarnation stands. */
  predicate LowestAt(h: Header, pins: map<u64, PinEntry>, low: int) {
    && (exists id :: id in pins && pins[id].storageId == h.storageId && pins[id].generation == h.generation && pins[id].frontier == low)
    && (forall id :: id in pins && pins[id].storageId == h.storageId && pins[id].generation == h.generation ==> low <= pins[id].frontier)
  }

  /** In every reachable world GC, if it can write, succeeds exactly for the frontiers
      of the history that no live pin holds back, once nothing is reserved and nothing
      waits for a checkpoint.  Otherwise it is refused for what is reserved, what waits,
      the lowest live pin, or the range, in this order. */
  lemma {:induction false} GcSucceedsIff(w: World, syncs: nat, frontier: u64)
    requires Inv(w) && w.state.Enabled?
    ensures var s := w.state.stream;
            var r := GcCall(ViewOf(w, syncs), frontier, true).1;
            && (r.Ok? <==>
                  && s.unresolved.Keys == {} && s.pending.Keys == {}
                  && s.header.earliest <= frontier <= Current(s) && PinsAllow(s.header, w.pins.pins, frontier))
            && (r == Err(Busy) <==> s.unresolved.Keys != {})
            && (r == Err(FinalizeCheckpointPending) <==> s.unresolved.Keys == {} && s.pending.Keys != {})
            && (s.unresolved.Keys == {} && s.pending.Keys == {} ==>
                  if !PinsAllow(s.header, w.pins.pins, frontier) then
                    r.Err? && r.error.RetentionPinned? && r.error.requested == frontier && LowestAt(s.header, w.pins.pins, r.error.pinned)
                  else r == Err(HistoryUnavailable) <==> !(s.header.earliest <= frontier <= Current(s)))
  {
    hide Inv, GcLog, GcRangeError, Pinned, PinBlocks, PinsAllow, LowestAt, Current, Reclaimable, AfterGc, Readable;
    var s := w.state.stream;
    assert s.unresolved == map[] <==> s.unresolved.Keys == {};
    assert s.pending == map[] <==> s.pending.Keys == {};
    RangeHolds(w, frontier);
    RewriteHolds(w, frontier);
    LowestReported(s.header, w.pins.pins, frontier);
  }

  lemma {:induction false} RangeHolds(w: World, frontier: u64)
    requires Inv(w) && w.state.Enabled?
    ensures GcRangeError(w.state.stream, frontier).None? <==> w.state.stream.header.earliest <= frontier <= Current(w.state.stream)
    ensures GcRangeError(w.state.stream, frontier).Some? ==> GcRangeError(w.state.stream, frontier) == Some(HistoryUnavailable)
  {
    hide Inv, Current;
    LiveIsReadable(w);
    GcRangeIff(w.state.stream, frontier);
  }

  lemma {:induction false} RewriteHolds(w: World, frontier: u64)
    requires Inv(w) && w.state.Enabled?
    ensures GcLog(w.state.stream, frontier).Ok?
  {
    hide StreamInv, PinsInv, GcLog, RewrittenFrom;
    GcRewrites(w.state.stream, w.file.disk, w.truth, w.history, frontier);
  }

  lemma {:induction false} LowestReported(h: Header, pins: map<u64, PinEntry>, frontier: u64)
    ensures PinsAllow(h, pins, frontier) <==> !(Pinned(h, pins).Some? && frontier > Pinned(h, pins).value)
    ensures Pinned(h, pins).Some? ==> LowestAt(h, pins, Pinned(h, pins).value)
  {
    PinnedBlocks(h, pins, frontier);
  }

  /** The checks of GC on any enabled stream: what is reserved, what waits, the lowest live
      pin, and then a frontier at which no retained batch begins. */
  lemma {:induction false} GcCheckAnswers(v: View, frontier: u64)
    requires v.state.Enabled?
    ensures var s, e := v.state.stream, GcRefusal(v, frontier);
            && (e == Some(Busy) <==> s.unresolved.Keys != {})
            && (e == Some(FinalizeCheckpointPending) <==> s.unresolved.Keys == {} && s.pending.Keys != {})
            && (s.unresolved.Keys == {} && s.pending.Keys == {} ==>
                  if !PinsAllow(s.header, v.pins.pins, frontier) then
                    e.Some? && e.value.RetentionPinned? && e.value.requested == frontier && LowestAt(s.header, v.pins.pins, e.value.pinned)
                  else e == if CutsAt(s, frontier) then None else Some(HistoryUnavailable))
  {
    hide Pinned, PinsAllow, LowestAt, Reclaimable, Current;
    var s := v.state.stream;
    assert s.unresolved == map[] <==> s.unresolved.Keys == {};
    assert s.pending == map[] <==> s.pending.Keys == {};
    LowestReported(s.header, v.pins.pins, frontier);
  }

  /** The history can be cut there: between the ends, and at the end or where the first batch
      that ends behind the frontier begins. */
  predicate CutsAt(s: Stream, frontier: u64) {
    var first := Reclaimable(s.batches, frontier);
    && s.header.earliest <= frontier <= Current(s)
    && if first == |s.batches| then frontier == Current(s) else s.batches[first].before == frontier
  }

  // ---------------------------------------------------------------------------
  // Stage
  // ---------------------------------------------------------------------------

  /** In every reachable world a transaction without a reservation gets one exactly when
      a frontier, a sequence and the bytes are left for it and its changes can be written. */
  lemma {:induction false} StageSucceedsIff(crc: Checksum, w: World, syncs: nat, txn: u64, databaseTxn: Option<u64>, changes: seq<Change>)
    requires Inv(w) && w.state.Enabled? && changes != [] && txn !in w.state.stream.unresolved
    ensures var s := w.state.stream;
            var before := Current(s) + |s.unresolved|;
            StageCall(ViewOf(w, syncs), txn, databaseTxn, changes, Appended).1.Ok? <==>
              && before < MAX_U64 && s.nextSequence < MAX_U64 && |changes| <= 1_000_000
              && (forall i :: 0 <= i < |changes| ==> ChangeTaken(changes[i], s.header.storageId))
              && var b := StagedBatch(s, before, txn, databaseTxn, changes);
                 PayloadSize(b) <= 67_108_864 && s.fileBytes + PayloadSize(b) + 8 <= MAX_U64
  {
    hide Inv, Current, PayloadSize, EncodeRecord, ChangeTaken, IsTail, EncodeError;
    var s := w.state.stream;
    SameState(w, syncs);
    ReservedIs(w);
    if ReservedFrontier(s) < MAX_U64 && s.nextSequence < MAX_U64 {
      var b := StagedBatch(s, ReservedFrontier(s), txn, databaseTxn, changes);
      EncoderTakesExactly(crc, b);
      EncodesIff(crc, b);
    }
  }

  lemma {:induction false} EncodesIff(crc: Checksum, b: Batch)
    ensures EncodeRecord(crc, b).Ok? <==> EncodeError(b).None?
    ensures RecordSize(Prepared(b)) == PayloadSize(b) + 8
  {
    hide EncodeError;
  }
}
