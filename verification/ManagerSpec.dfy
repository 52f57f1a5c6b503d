/** What each call on a manager does to everything a manager holds. */
module ManagerSpec {
  import opened Wrappers
  import opened Widths
  import opened ChangeTypes
  import opened Codec
  import opened LogFile
  import opened Loading
  import opened LogViews
  import opened StreamSpec
  import opened ProtocolSteps
  import opened ProtocolFinalize
  import opened ProtocolGc

  /** What stands at the head of the file: nothing before the first enable, and
      afterwards the header of a disabled or of an enabled incarnation. */
  datatype FileHead = NoLog | InactiveLog(generation: u64) | ActiveLog(header: Header)

  /** Everything a manager holds: its state, the file behind it with the part it
      takes to be on the medium, the syncs so far, the pins, and the generation in the
      guard file beside the log. */
  datatype View = View(
    state: State,
    head: FileHead,
    log: seq<Record>,
    synced: nat,
    syncs: nat,
    pins: PinRegistry,
    guard: Option<u64>)

  /** How an append ends: done, or failed with the record in the file or not. */
  datatype Append = Appended | AppendFailed(persisted: bool)

  datatype FinalizeFault = NoFault | MarkerFails(at: nat, persisted: bool) | SyncFails

  /** A failing file leaves the stream unavailable and forgets what it held. */
  function Unusable(v: View): View {
    v.(state := Unavailable(if v.state.Unavailable? then v.state.lastGeneration else Some(PriorGeneration(v.state))))
  }

  /** Every unresolved record stands under its own transaction and advances by one. */
  predicate Reserved(m: map<u64, PreparedRecord>) {
    forall t :: t in m ==> m[t].batch.txn == t && m[t].batch.after == m[t].batch.before + 1
  }

  // ---------------------------------------------------------------------------
  // Prepare
  // ---------------------------------------------------------------------------

  ghost function StageCall(v: View, txn: u64, databaseTxn: Option<u64>, changes: seq<Change>, append: Append)
      : (View, Result<Option<PreparedChange>, StreamError>)
  {
    if changes == [] || v.state.Disabled? then (v, Ok(None))
    else if v.state.Unavailable? then (v, Err(StreamUnavailable))
    else
      var r := Stage(v.state.stream, txn, databaseTxn, changes);
      if r.appended == [] then (v, r.result)
      else if append.AppendFailed? then (Unusable(v).(log := if append.persisted then v.log + r.appended else v.log), Err(Io))
      else (v.(state := Enabled(r.stream), log := v.log + r.appended), r.result)
  }

  lemma {:induction false} DurableKnown(s: Stream, cands: seq<PrepareCandidate>, exact: bool)
    requires Reserved(s.unresolved) && DurabilizeError(s, cands, exact).None?
    ensures CandidatesKnown(s, cands)
  {
    var ids := ReservationOrder(s.unresolved);
    NoDurableError(s, ids, cands, exact, 0);
    forall i | 0 <= i < |cands| ensures cands[i].txn in s.unresolved {
      assert DurableErrorAt(s, ids, cands, exact, i).None?;
    }
  }

  ghost function DurabilizeCall(v: View, cands: seq<PrepareCandidate>, exact: bool, syncs: bool): (View,
                                Result<nat, StreamError>)
    requires v.state.Enabled? ==> Reserved(v.state.stream.unresolved)
  {
    if cands == [] then (v, Err(InvalidRecord(EmptyDurabilityBatch)))
    else if !v.state.Enabled? then (v, Err(StreamUnavailable))
    else
      var e := DurabilizeError(v.state.stream, cands, exact);
      if e.Some? then (v, Err(e.value))
      else
        DurableKnown(v.state.stream, cands, exact);
        if !NeedsSync(v.state.stream, cands) then (v, Ok(0))
        else if !syncs then (Unusable(v), Err(Io))
        else (v.(state := Enabled(Durabilized(v.state.stream, cands)), synced := |v.log|, syncs := v.syncs + 1), Ok(1))
  }

  predicate NamedBy(cands: seq<PrepareCandidate>, txn: u64) {
    exists i :: 0 <= i < |cands| && cands[i].txn == txn
  }

  /** What a barrier that succeeds has done: every record it names is durable, no
      other is touched, and the file was synced, once, exactly when one was not
      durable before; then nothing waits for a checkpoint any more. */
  predicate BarrierDone(v: View, cands: seq<PrepareCandidate>, v': View, syncs: nat) {
    && v.state.Enabled? && v'.state.Enabled? && v'.log == v.log && v'.head == v.head && v'.pins == v.pins && v'.guard == v.guard
    && var m, m' := v.state.stream.unresolved, v'.state.stream.unresolved;
       && m'.Keys == m.Keys
       && (forall i :: 0 <= i < |cands| ==> cands[i].txn in m && m'[cands[i].txn] == m[cands[i].txn].(preparedDurable := true))
       && (forall t :: t in m && !NamedBy(cands, t) ==> m'[t] == m[t])
       && syncs == (if exists i :: 0 <= i < |cands| && !m[cands[i].txn].preparedDurable then 1 else 0)
       && v'.synced == (if syncs == 1 then |v.log| else v.synced) && v'.syncs == v.syncs + syncs
       && v'.state.stream.pending == (if syncs == 1 then map[] else v.state.stream.pending)
       && v'.state.stream.checkpointed ==
          (if syncs == 1 && v.state.stream.pending.Keys != {} then Current(v.state.stream) else v.state.stream.checkpointed)
       && v'.state.stream == v.state.stream.(unresolved := m', pending := v'.state.stream.pending, checkpointed := v'.state.stream.checkpointed)
  }

  lemma {:induction false} BarrierMeans(v: View, cands: seq<PrepareCandidate>, exact: bool, syncing: bool)
    requires v.state.Enabled? ==> Reserved(v.state.stream.unresolved)
    ensures var (v', r) := DurabilizeCall(v, cands, exact, syncing); r.Ok? ==> BarrierDone(v, cands, v', r.value)
  {
    hide DurabilizeError, ReservationOrder;
    var (v', r) := DurabilizeCall(v, cands, exact, syncing);
    if r.Ok? {
      DurableKnown(v.state.stream, cands, exact);
      var m, ids := v.state.stream.unresolved, CandidateIds(cands);
      assert MarkDurable(m, ids).Keys == m.Keys;
      assert v.state.stream.pending == map[] <==> v.state.stream.pending.Keys == {};
      forall i | 0 <= i < |cands| ensures cands[i].txn in ids {}
      forall t | t in ids ensures NamedBy(cands, t) {}
    }
  }

  // ---------------------------------------------------------------------------
  // Publish
  // ---------------------------------------------------------------------------

  /** Every candidate is among the published batches. */
  predicate AllAmong(cands: seq<FinalizeCandidate>, bs: seq<Batch>) {
    forall i :: 0 <= i < |cands| ==> Among(cands[i].txn, bs)
  }

  predicate Among(txn: u64, bs: seq<Batch>) {
    exists j :: 0 <= j < |bs| && bs[j].txn == txn
  }

  lemma {:induction false} AmongIff(s: Stream, cands: seq<FinalizeCandidate>)
    ensures AlreadyPublished(s, cands) <==> AllAmong(cands, s.batches)
  {
    forall i | 0 <= i < |cands| ensures HasTxn(s.batches, cands[i].txn) <==> Among(cands[i].txn, s.batches) {}
  }

  /** What a finalize that publishes has appended: for each candidate its reservation,
      under the version its commit gives it. */
  predicate Appends(s: Stream, cands: seq<FinalizeCandidate>, s': Stream) {
    && |s'.batches| == |s.batches| + |cands| && s'.batches[..|s.batches|] == s.batches
    && forall i :: 0 <= i < |cands| ==>
         cands[i].txn in s.unresolved && PublishedAs(s.unresolved[cands[i].txn].batch, cands[i].commit, s'.batches[|s.batches| + i])
  }

  lemma {:induction false} PromotedMeans(s: Stream, cands: seq<FinalizeCandidate>, s': Stream)
    requires FinalizersKnown(s, cands) && s'.batches == s.batches + Promoted(s, cands)
    ensures Appends(s, cands, s')
  {
    hide Resolve, PublishedAs;
    forall i | 0 <= i < |cands|
      ensures PublishedAs(s.unresolved[cands[i].txn].batch, cands[i].commit, s'.batches[|s.batches| + i])
    {
      ResolvePublishes(s.unresolved[cands[i].txn].batch, cands[i].commit, Promoted(s, cands)[i]);
    }
  }

  /** A finalize that succeeds publishes its candidates, unless all of them are published. */
  lemma {:induction false} FinalizeMeans(v: View, cands: seq<FinalizeCandidate>, immediate: bool, fault: FinalizeFault)
    ensures var (v', r) := FinalizeCall(v, cands, immediate, fault);
            r.Ok? ==>
              && v.state.Enabled? && v'.state.Enabled? && cands != []
              && if AllAmong(cands, v.state.stream.batches) then v' == v && r.value == 0 else Appends(v.state.stream, cands, v'.state.stream)
  {
    hide FinalizeError, MarkersToStage, Appends, Promoted;
    var (v', r) := FinalizeCall(v, cands, immediate, fault);
    if r.Ok? {
      var s := v.state.stream;
      AmongIff(s, cands);
      if !AlreadyPublished(s, cands) {
        FinalKnown(s, cands, immediate);
        PromotedMeans(s, cands, v'.state.stream);
      }
    }
  }

  lemma {:induction false} FinalKnown(s: Stream, cands: seq<FinalizeCandidate>, immediate: bool)
    requires FinalizeError(s, cands, immediate).None? && !AlreadyPublished(s, cands)
    ensures cands != [] && FinalizersKnown(s, cands)
    ensures forall i :: 0 <= i < |cands| ==> FinalizeErrorAt(s, cands, immediate, i).None?
  {
    NoFinalizeError(s, cands, immediate, 0);
    forall i | 0 <= i < |cands| ensures cands[i].txn in s.unresolved {
      assert FinalizeErrorAt(s, cands, immediate, i).None?;
    }
  }

  ghost function FinalizeCall(v: View, cands: seq<FinalizeCandidate>, immediate: bool, fault: FinalizeFault): (View,
                              Result<nat, StreamError>) {
    if cands == [] then (v, Err(InvalidRecord(EmptyFinalizeBatch)))
    else if !v.state.Enabled? then (v, Err(StreamUnavailable))
    else
      var e := FinalizeError(v.state.stream, cands, immediate);
      if e.Some? then (v, Err(e.value))
      else if AlreadyPublished(v.state.stream, cands) then (v, Ok(0))
      else
        FinalKnown(v.state.stream, cands, immediate);
        var markers := MarkersToStage(v.state.stream, cands);
        if fault.MarkerFails? && fault.at < |markers| then
          (Unusable(v).(log := v.log + markers[..if fault.persisted then fault.at + 1 else fault.at]), Err(Io))
        else if immediate && fault.SyncFails? then (Unusable(v).(log := v.log + markers), Err(Io))
        else
          (v.(state := Enabled(Finalized(v.state.stream, cands, immediate)), log := v.log + markers,
              synced := if immediate then |v.log + markers| else v.synced,
              syncs := v.syncs + if immediate then 1 else 0),
           Ok(|markers|))
  }

  function CheckpointCall(v: View, syncs: bool): (View, Result<nat, StreamError>) {
    if !v.state.Enabled? || v.state.stream.pending == map[] then (v, Ok(0))
    else if !syncs then (Unusable(v), Err(Io))
    else (v.(state := Enabled(Synced(v.state.stream)), synced := |v.log|, syncs := v.syncs + 1), Ok(1))
  }

  ghost function AbandonCall(v: View, txn: u64): (View, Result<bool, StreamError>) {
    if !v.state.Enabled? then (v, Ok(false))
    else if AbandonRefused(v.state.stream, txn) then (v, Err(InvalidRecord(NotChainTail)))
    else (v.(state := Enabled(Abandoned(v.state.stream, txn))), Ok(txn in v.state.stream.unresolved))
  }

  // ---------------------------------------------------------------------------
  // Read, pins and GC
  // ---------------------------------------------------------------------------

  function NotEnabled(state: State): StreamError {
    if state.Disabled? then StreamDisabled else StreamUnavailable
  }

  function ReadCall(v: View, c: Cursor, maxBatches: nat, maxBytes: u64): Result<ReadResult, StreamError>
    requires v.state.Enabled? ==> |v.state.stream.batches| == |v.state.stream.batchFileBytes|
  {
    if !v.state.Enabled? then Err(NotEnabled(v.state)) else Read(v.state.stream, c, maxBatches, maxBytes)
  }

  /** What the holder of a retention pin keeps. */
  datatype Pin = Pin(id: u64, entry: PinEntry, active: bool)

  function AcquireCall(v: View, c: Cursor): (View, Result<Pin, StreamError>) {
    if !v.state.Enabled? then (v, Err(NotEnabled(v.state)))
    else
      var e := CursorError(v.state.stream.header, Current(v.state.stream), c);
      if e.Some? then (v, Err(e.value))
      else if v.pins.nextId == MAX_U64 then (v, Err(VersionExhausted))
      else
        var entry := PinEntry(c.storageId, c.generation, c.frontier);
        (v.(pins := PinRegistry(v.pins.nextId + 1, v.pins.pins[v.pins.nextId := entry])), Ok(Pin(v.pins.nextId, entry, true)))
  }

  function AdvanceCall(v: View, pin: Pin, frontier: u64): (View, Result<Pin, StreamError>) {
    var p := pin.entry;
    if frontier < p.frontier then (v, Err(RetentionPinRegression(p.frontier, frontier)))
    else if !v.state.Enabled? then (v, Err(StreamIdentityMismatch))
    else
      var e := CursorError(v.state.stream.header, Current(v.state.stream), Cursor(p.storageId, p.generation, frontier));
      if e.Some? then (v, Err(e.value))
      else if !pin.active || pin.id !in v.pins.pins then (v, Err(RetentionPinUnavailable))
      else
        var entry := v.pins.pins[pin.id];
        if entry.storageId != p.storageId || entry.generation != p.generation then (v, Err(RetentionPinUnavailable))
        else
          (v.(pins := v.pins.(pins := v.pins.pins[pin.id := entry.(frontier := frontier)])),
           Ok(pin.(entry := p.(frontier := frontier))))
  }

  datatype GcReport = GcReport(removed: nat, bytesBefore: nat, bytesAfter: nat)

  /** The lowest frontier a pin of the live incarnation holds. */
  ghost function Pinned(h: Header, pins: map<u64, PinEntry>): Option<u64> {
    if exists id :: LowestPin(h, pins, id) then
      var id :| LowestPin(h, pins, id);
      Some(pins[id].frontier)
    else None
  }

  /** What GC refuses, in the order it looks. */
  ghost function GcRefusal(v: View, frontier: u64): Option<StreamError> {
    if !v.state.Enabled? then Some(NotEnabled(v.state))
    else
      var s := v.state.stream;
      var lowest := Pinned(s.header, v.pins.pins);
      if s.unresolved != map[] then Some(Busy)
      else if s.pending != map[] then Some(FinalizeCheckpointPending)
      else if lowest.Some? && frontier > lowest.value then Some(RetentionPinned(frontier, lowest.value))
      else GcRangeError(s, frontier)
  }

  ghost function GcCall(v: View, frontier: u64, rewrites: bool): (View, Result<GcReport, StreamError>) {
    var e := GcRefusal(v, frontier);
    if e.Some? then (v, Err(e.value))
    else
      var s := v.state.stream;
      if frontier == s.header.earliest && s.header.version == FORMAT_VERSION then (v, Ok(GcReport(0, s.fileBytes, s.fileBytes)))
      else
        match GcLog(s, frontier)
        case Err(error) => (v, Err(if rewrites then error else Io))
        case Ok(log) =>
          if !rewrites then (v, Err(Io))
          else
            var s' := AfterGc(s, frontier, log);
            (v.(state := Enabled(s'), head := ActiveLog(s'.header), log := log, synced := |log|, guard := Some(s'.header.generation)),
             Ok(GcReport(Reclaimable(s.batches, frontier), s.fileBytes, s'.fileBytes)))
  }

  // ---------------------------------------------------------------------------
  // Incarnations
  // ---------------------------------------------------------------------------

  /** How replacing the log by a bare header, and the guard with it, ends. */
  datatype Replace = Replaced | ReplaceFailed(reach: Reach)

  function EnableCall(v: View, kind: StorageKind, storageId: u64, tableId: u64, fingerprint: Fingerprint,
                      baseline: u64, replace: Replace)
      : (View, Result<Cursor, StreamError>)
  {
    if v.state.Enabled? then
      var s := v.state.stream;
      (v, Ok(Cursor(s.header.storageId, s.header.generation, Current(s))))
    else
      var prior := PriorGeneration(v.state);
      if prior == MAX_U64 then (v, Err(VersionExhausted))
      else
        var h := Header(FORMAT_VERSION, true, kind, storageId, tableId, fingerprint, prior + 1, baseline, baseline, baseline, 1);
        var emptied := v.(head := ActiveLog(h), log := [], synced := 0);
        if replace == ReplaceFailed(NothingWritten) then (v.(state := Unavailable(Some(prior + 1))), Err(Io))
        else if replace == ReplaceFailed(HeaderWritten) then (emptied.(state := Unavailable(Some(prior + 1))), Err(Io))
        else if replace.ReplaceFailed? then (emptied.(state := Unavailable(Some(prior + 1)), guard := Some(prior + 1)), Err(Io))
        else (emptied.(state := Enabled(FreshStream(h)), guard := Some(prior + 1)), Ok(Cursor(storageId, prior + 1, baseline)))
  }

  function DisableCall(v: View, replace: Replace): (View, Result<bool, StreamError>) {
    if v.state.Disabled? then (v, Ok(false))
    else if replace == ReplaceFailed(NothingWritten) then (v, Err(Io))
    else
      var g := PriorGeneration(v.state);
      var disabled := v.(state := Disabled(g), head := InactiveLog(g), log := [], synced := 0);
      if replace == ReplaceFailed(HeaderWritten) then (disabled, Err(Io))
      else (disabled.(guard := None), if replace.ReplaceFailed? then Err(Io) else Ok(true))
  }
}
