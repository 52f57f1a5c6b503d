/** Every call on a manager is a step of the run model, so what is proved of runs holds of it. */
module ManagerRuns {
  import opened Wrappers
  import opened Widths
  import opened ChangeTypes
  import opened Codec
  import opened LogFile
  import opened Loading
  import opened LogViews
  import opened StreamSpec
  import opened DiskInvariant
  import opened StreamInvariant
  import opened ProtocolSteps
  import opened ProtocolFinalize
  import opened ProtocolGc
  import opened World
  import opened Runs
  import opened ManagerSpec

  /** What the manager of a world holds. */
  function ViewOf(w: World, syncs: nat): View {
    match w.file
    case NoFile => View(w.state, NoLog, [], 0, syncs, w.pins, w.guard)
    case Inactive(g) => View(w.state, InactiveLog(g), [], 0, syncs, w.pins, w.guard)
    case Active(d) => View(w.state, ActiveLog(d.header), d.log, d.synced, syncs, w.pins, w.guard)
  }

  // ---------------------------------------------------------------------------
  // Incarnations
  // ---------------------------------------------------------------------------

  /** Enabling is the enable step or its failure, and the cursor it returns is at the
      end of the live incarnation. */
  lemma {:induction false} EnableIsStep(w: World, syncs: nat, baseline: u64, replace: Replace)
    requires Inv(w)
    ensures var (v, r) := EnableCall(ViewOf(w, syncs), w.context.kind, w.context.storageId, w.context.tableId, w.context.fingerprint, baseline, replace);
            var w' := if replace.Replaced? then StepEnable(w, baseline) else StepEnableFails(w, baseline, replace.reach);
            && v == ViewOf(w', syncs) && (r.Ok? <==> w'.state.Enabled?)
            && (r.Ok? ==>
                  && r.value.generation == w'.issued && |w'.state.stream.batches| == |w'.state.stream.batchFileBytes|
                  && forall n: nat, bytes: u64 ::
                       Read(w'.state.stream, r.value, n, bytes) == Ok(ReadResult([], Current(w'.state.stream), false)))
  {
    hide DiskInv, StreamInv, PinsInv, StartAt, SelectFrom;
    if w.state.Enabled? {
      StreamHeader(w);
      StreamFacts(w.state.stream, w.file.disk, w.truth, w.history);
      ReservedHolds(w);
    }
  }

  /** Disabling is the disable step or its failure. */
  lemma {:induction false} DisableIsStep(w: World, syncs: nat, replace: Replace)
    requires Inv(w)
    ensures var w' := if replace.Replaced? then StepDisable(w) else StepDisableFails(w, replace.reach);
            DisableCall(ViewOf(w, syncs), replace).0 == ViewOf(w', syncs)
  {
    hide DiskInv, StreamInv, PinsInv;
  }

  /** Disabling and enabling again: the next generation, an empty stream at the new
      baseline, and no cursor of the old one reads from it. */
  lemma {:induction false} ReenablingStartsAfresh(v: View, kind: StorageKind, storageId: u64, tableId: u64, fingerprint: Fingerprint, baseline: u64,
                                                  c: Cursor, n: nat, bytes: u64, replace: Replace)
    requires replace != ReplaceFailed(NothingWritten)
    requires PriorGeneration(v.state) < MAX_U64 && c.generation <= PriorGeneration(v.state)
    ensures var (v', r) := EnableCall(DisableCall(v, replace).0, kind, storageId, tableId, fingerprint, baseline, Replaced);
            && r == Ok(Cursor(storageId, PriorGeneration(v.state) + 1, baseline))
            && v'.state.Enabled? && v'.log == [] && v'.guard == Some(r.value.generation) && ReadCall(v', r.value, n, bytes) == Ok(ReadResult([], baseline, false))
            && ReadCall(v', c, n, bytes).Err?
  {
    hide StartAt, SelectFrom;
  }

  // ---------------------------------------------------------------------------
  // Prepare
  // ---------------------------------------------------------------------------

  lemma {:induction false} ReservedHolds(w: World)
    requires Inv(w) && w.state.Enabled?
    ensures w.file.Active? && Reserved(w.state.stream.unresolved)
    ensures |w.state.stream.batches| == |w.state.stream.batchFileBytes|
  {
    hide DiskInv, PreparedOf, MarkersOf, LiveOf, PinsInv;
    StreamHeader(w);
    var s, d := w.state.stream, w.file.disk;
    StreamFacts(s, d, w.truth, w.history);
    forall t | t in s.unresolved ensures s.unresolved[t].batch.txn == t && s.unresolved[t].batch.after == s.unresolved[t].batch.before + 1 {
      var i := ReservationOf(s.unresolved, Rest(s, d, w.truth), |SyncedLive(d, w.truth)| - |s.batches|, t);
    }
  }

  lemma {:induction false} StageIsStep(w: World, syncs: nat, txn: u64, databaseTxn: Option<u64>,
                                       changes: seq<Change>, append: Append)
    requires w.state.Enabled? ==> w.file.Active?
    ensures StageCall(ViewOf(w, syncs), txn, databaseTxn, changes, append).0 == ViewOf(StagedWorld(w, txn, databaseTxn, changes, append), syncs)
  {
    hide EncodeError, RecordSize;
    var log := ViewOf(w, syncs).log;
    assert log + [] == log;
  }

  /** The stage step, or its failure. */
  ghost function StagedWorld(w: World, txn: u64, databaseTxn: Option<u64>, changes: seq<Change>, append: Append): World {
    if append.Appended? then StepStage(w, txn, databaseTxn, changes) else StepStageFails(w, txn, databaseTxn, changes, append.persisted)
  }

  /** The barrier step, or its failure. */
  ghost function BarrierWorld(w: World, cands: seq<PrepareCandidate>, exact: bool, syncing: bool): World {
    if syncing then StepDurabilize(w, cands, exact) else StepDurabilizeFails(w, cands, exact)
  }

  lemma {:induction false} DurabilizeIsStep(w: World, syncs: nat, cands: seq<PrepareCandidate>, exact: bool,
                                            syncing: bool)
    requires Inv(w)
    ensures w.state.Enabled? ==> Reserved(w.state.stream.unresolved)
    ensures var v' := DurabilizeCall(ViewOf(w, syncs), cands, exact, syncing).0;
            v' == ViewOf(BarrierWorld(w, cands, exact, syncing), v'.syncs)
  {
    hide Inv, NeedsSync, ReservationOrder;
    if w.state.Enabled? {
      ReservedHolds(w);
      if DurabilizeError(w.state.stream, cands, exact).None? { DurableKnown(w.state.stream, cands, exact); }
    }
  }

  /** Preparing one transaction is the stage step, and behind a new or known
      reservation the barrier step for it alone. */
  lemma {:induction false} PrepareIsSteps(w: World, syncs: nat, txn: u64, databaseTxn: Option<u64>, changes: seq<Change>, append: Append,
                                          syncing: bool)
    requires Inv(w) && Admissible(w, Event.Stage(txn, databaseTxn, changes))
    ensures Inv(StagedWorld(w, txn, databaseTxn, changes, append))
    ensures var w1 := StagedWorld(w, txn, databaseTxn, changes, append);
            var staged := StageCall(ViewOf(w, syncs), txn, databaseTxn, changes, append);
            && staged.0 == ViewOf(w1, syncs)
            && (staged.1.Ok? && staged.1.value.Some? ==>
                  && (w1.state.Enabled? ==> Reserved(w1.state.stream.unresolved))
                  && var cands := [PrepareCandidate(txn, databaseTxn, staged.1.value.value)];
                     var v' := DurabilizeCall(staged.0, cands, false, syncing).0;
                     v' == ViewOf(BarrierWorld(w1, cands, false, syncing), v'.syncs))
  {
    hide Inv, Admissible, StepStage, StepStageFails, StepDurabilize, StepDurabilizeFails, StageCall, DurabilizeCall,
         Reserved;
    StageStepKeeps(w, txn, databaseTxn, changes, append.AppendFailed? && append.persisted);
    LiveIsActive(w);
    StageIsStep(w, syncs, txn, databaseTxn, changes, append);
    var w1, staged := StagedWorld(w, txn, databaseTxn, changes, append), StageCall(ViewOf(w, syncs), txn, databaseTxn, changes, append);
    SameState(w1, syncs);
    if staged.1.Ok? && staged.1.value.Some? {
      DurabilizeIsStep(w1, syncs, [PrepareCandidate(txn, databaseTxn, staged.1.value.value)], false, syncing);
    }
  }

  lemma LiveIsActive(w: World)
    requires Inv(w)
    ensures w.state.Enabled? ==> w.file.Active?
  {
  }

  lemma SameState(w: World, syncs: nat)
    ensures ViewOf(w, syncs).state == w.state
  {
  }

  /** How many markers a failing finalize leaves in the file. */
  function MarkersLeft(fault: FinalizeFault, all: nat): nat {
    match fault
    case MarkerFails(at, persisted) => if persisted then at + 1 else at
    case _ => all
  }

  predicate Fails(fault: FinalizeFault, immediate: bool, all: nat) {
    (fault.MarkerFails? && fault.at < all) || (immediate && fault.SyncFails?)
  }

  lemma {:induction false} FinalizeIsStep(w: World, syncs: nat, cands: seq<FinalizeCandidate>, immediate: bool,
                                          fault: FinalizeFault)
    requires w.state.Enabled? ==> w.file.Active?
    ensures var all := if w.state.Enabled? && Publishes(w.state.stream, cands, immediate) then |MarkersToStage(w.state.stream, cands)| else 0;
            var w' := if Fails(fault, immediate, all) then StepFinalizeFails(w, cands, immediate, MarkersLeft(fault, all))
                      else StepFinalize(w, cands, immediate);
            var v' := FinalizeCall(ViewOf(w, syncs), cands, immediate, fault).0;
            v' == ViewOf(w', v'.syncs)
  {
    hide FinalizeError, AlreadyPublished, MarkersToStage, Finalized, FinalizersKnown;
    if w.state.Enabled? {
      var s := w.state.stream;
      if FinalizeError(s, cands, immediate).None? && !AlreadyPublished(s, cands) && cands != [] {
        FinalKnown(s, cands, immediate);
        var markers := MarkersToStage(s, cands);
        assert markers[..|markers|] == markers;
      }
    }
  }

  lemma CheckpointIsStep(w: World, syncs: nat, syncing: bool)
    requires w.state.Enabled? ==> w.file.Active?
    ensures var w' := if syncing then StepCheckpoint(w) else StepCheckpointFails(w);
            var v' := CheckpointCall(ViewOf(w, syncs), syncing).0;
            v' == ViewOf(w', v'.syncs)
  {
  }

  /** Abandoning what the ledger aborts. */
  lemma {:induction false} AbandonIsStep(w: World, syncs: nat, txn: u64)
    requires Inv(w) && w.file.Active? && AbortAdmissible(w.file.disk, w.truth, w.history, txn)
    ensures AbandonCall(ViewOf(w, syncs), txn).0 == ViewOf(StepAbort(w, txn), syncs)
  {
    hide DiskInv, StreamInv, PinsInv, AbortAdmissible;
    if w.state.Enabled? {
      AbandonKeeps(w.state.stream, w.file.disk, w.truth, w.history, txn);
    }
  }

  lemma {:induction false} PinsAreSteps(w: World, syncs: nat, c: Cursor, pin: Pin, frontier: u64)
    ensures AcquireCall(ViewOf(w, syncs), c).0 == ViewOf(StepAcquire(w, c), syncs)
    ensures pin.active && pin.id in w.pins.pins && w.pins.pins[pin.id] == pin.entry ==>
              AdvanceCall(ViewOf(w, syncs), pin, frontier).0 == ViewOf(StepAdvance(w, pin.id, frontier), syncs)
  {
    hide Current;
  }

  lemma {:induction false} PinnedBlocks(h: Header, pins: map<u64, PinEntry>, frontier: u64)
    ensures PinBlocks(h, pins, frontier) <==> Pinned(h, pins).Some? && frontier > Pinned(h, pins).value
  {
    if PinBlocks(h, pins, frontier) {
      var id :| id in pins && LivePin(h, pins[id]) && pins[id].frontier < frontier;
      LowestExists(h, pins, id);
    }
  }

  /** Below a live pin there is a lowest one. */
  lemma {:induction false} LowestExists(h: Header, pins: map<u64, PinEntry>, id: u64)
    requires id in pins && LivePin(h, pins[id])
    ensures exists low :: LowestPin(h, pins, low)
    decreases pins[id].frontier
  {
    if !LowestPin(h, pins, id) {
      var lower :| lower in pins && LivePin(h, pins[lower]) && pins[lower].frontier < pins[id].frontier;
      LowestExists(h, pins, lower);
    }
  }

  /** A GC that succeeds is the GC step; one that is refused or cannot write changes nothing. */
  lemma {:induction false} GcIsStep(w: World, syncs: nat, frontier: u64, rewrites: bool)
    requires Inv(w)
    ensures var w' := if rewrites then StepGc(w, frontier) else w;
            GcCall(ViewOf(w, syncs), frontier, rewrites).0 == ViewOf(w', syncs)
  {
    hide Inv, GcLog, GcRangeError, Pinned, PinBlocks, AfterGc;
    LiveIsActive(w);
    if w.state.Enabled? {
      PinnedBlocks(w.state.stream.header, w.pins.pins, frontier);
      RewrittenHeader(w.state.stream, frontier);
    }
  }

  lemma RewrittenHeader(s: Stream, frontier: u64)
    ensures forall log :: AfterGc(s, frontier, log).header == GcHeader(s, frontier)
  {
  }
}
