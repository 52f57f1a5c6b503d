/** Every step of every run keeps the world's invariant, and what follows from it. */
module Runs {
  import opened Wrappers
  import opened Widths
  import opened ChangeTypes
  import opened Codec
  import opened LogFile
  import opened Loading
  import opened LogViews
  import opened StreamSpec
  import opened DiskInvariant
  import opened StreamInvariant
  import opened Recovery
  import opened RecoveryProof
  import opened CrashSafety
  import opened ProtocolSteps
  import opened ProtocolFinalize
  import opened ProtocolGc
  import opened Restarts
  import opened World

  // ---------------------------------------------------------------------------
  // Incarnations
  // ---------------------------------------------------------------------------

  lemma EmptyViews(h: Header, truth: Ledger)
    ensures PreparedOf([]) == [] && MarkersOf([]) == [] && LiveOf([], truth) == []
    ensures WellFormedLog(h, []) && FileSize(h, []) == HeaderSize(h)
  {
  }

  lemma {:induction false} FreshDisk(h: Header, truth: Ledger)
    requires ValidHeader(h) && h.active && h.origin == h.earliest == h.current
    ensures DiskInv(Disk(h, [], 0), truth, [])
  {
    hide PreparedOf, MarkersOf, LiveOf, WellFormedLog;
    EmptyViews(h, truth);
    var d := Disk(h, [], 0);
    assert d.log[..0] == [];
    DiskInvFrom(d, truth, []);
  }

  lemma {:induction false} FreshPublished(h: Header, truth: Ledger)
    requires h.origin == h.earliest == h.current
    ensures PublishedInv(FreshStream(h), truth, [])
  {
    hide HeaderSize;
    assert VersionsOf([], truth) == map[];
    var s := FreshStream(h);
    assert s.batches[Checkpointed(s)..] == [];
  }

  lemma {:induction false} FreshInv(h: Header, truth: Ledger)
    requires ValidHeader(h) && h.active && h.origin == h.earliest == h.current && h.nextSequence == 1
    ensures DiskInv(Disk(h, [], 0), truth, []) && StreamInv(FreshStream(h), Disk(h, [], 0), truth, [])
  {
    hide PreparedOf, MarkersOf, LiveOf, DiskInv, PublishedInv, FileSize;
    FreshDisk(h, truth);
    FreshPublished(h, truth);
    EmptyViews(h, truth);
    var d := Disk(h, [], 0);
    assert d.log[..0] == [];
    NothingUnresolved(map[]);
    FreshHistory(h);
  }

  lemma FreshHistory(h: Header)
    requires ValidHeader(h) && h.active && h.origin == h.earliest == h.current
    ensures HistoryFits(h, []) && Unreclaimed(h, []) == []
  {
  }

  lemma {:induction false} EnableKeeps(w: World, baseline: u64)
    requires Inv(w)
    ensures Inv(StepEnable(w, baseline))
  {
    hide DiskInv, StreamInv;
    var prior := PriorGeneration(w.state);
    if !w.state.Enabled? && prior < MAX_U64 {
      FreshInv(FreshHeader(w.context, prior + 1, baseline), w.truth);
    }
  }

  lemma {:induction false} EnableFailsKeeps(w: World, baseline: u64, reach: Reach)
    requires Inv(w)
    ensures Inv(StepEnableFails(w, baseline, reach))
  {
    hide DiskInv, StreamInv;
    var prior := PriorGeneration(w.state);
    if !w.state.Enabled? && prior < MAX_U64 {
      FreshInv(FreshHeader(w.context, prior + 1, baseline), w.truth);
    }
  }

  lemma {:induction false} DisableKeeps(w: World, reach: Reach)
    requires Inv(w)
    ensures Inv(StepDisable(w)) && Inv(StepDisableFails(w, reach))
  {
    hide DiskInv, StreamInv;
    if w.state.Enabled? {
      StreamHeader(w);
    }
  }

  /** The header of the live stream, as far as generations go. */
  lemma StreamHeader(w: World)
    requires Inv(w) && w.state.Enabled?
    ensures w.file.Active? && DiskInv(w.file.disk, w.truth, w.history) && w.state.stream.header == w.file.disk.header
    ensures w.state.stream.header.generation == w.issued > 0 && ValidHeader(w.state.stream.header)
    ensures InContext(w.state.stream.header, w.context)
  {
  }

  // ---------------------------------------------------------------------------
  // Steps of the live stream
  // ---------------------------------------------------------------------------

  /** A step of the live stream that keeps its header and never moves the frontier back. */
  lemma {:induction false} LiveStep(w: World, s: Stream, d: Disk, truth: Ledger, history: seq<Batch>, medium: nat)
    requires Inv(w) && w.state.Enabled? && StreamInv(s, d, truth, history) && medium <= d.synced
    requires s.header == w.state.stream.header && Current(w.state.stream) <= Current(s)
    ensures Inv(w.(state := Enabled(s), file := Active(d), truth := truth, history := history, medium := medium))
  {
    hide DiskInv, StreamInv, Current;
    StreamHeader(w);
    SameHeader(s, d, truth, history);
  }

  /** A failed I/O leaves an unavailable stream over a recoverable disk. */
  lemma {:induction false} PoisonStep(w: World, d: Disk)
    requires Inv(w) && w.state.Enabled? && DiskInv(d, w.truth, w.history) && d.header == w.state.stream.header
    requires w.medium <= d.synced
    ensures Inv(w.(state := Poisoned(w.state.stream), file := Active(d)))
  {
    hide DiskInv, StreamInv, Current;
    StreamHeader(w);
  }

  lemma {:induction false} StageStepKeeps(w: World, txn: u64, db: Option<u64>, changes: seq<Change>, written: bool)
    requires Inv(w) && Admissible(w, Event.Stage(txn, db, changes))
    ensures Inv(StepStage(w, txn, db, changes))
    ensures Inv(StepStageFails(w, txn, db, changes, written))
  {
    hide DiskInv, StreamInv, PinsInv, StageAdmissible, StreamSpec.Stage, PreparedOf, LiveOf;
    if w.state.Enabled? {
      var s, d := w.state.stream, w.file.disk;
      StreamHeader(w);
      StageKeeps(s, d, w.truth, w.history, txn, db, changes);
      StageShape(s, txn, db, changes);
      var r := StreamSpec.Stage(s, txn, db, changes);
      var d' := d.(log := d.log + r.appended);
      LiveStep(w, r.stream, d', w.truth, w.history, w.medium);
      SameHeader(r.stream, d', w.truth, w.history);
      PoisonStep(w, d');
      PoisonStep(w, d);
    }
  }

  lemma StageShape(s: Stream, txn: u64, db: Option<u64>, changes: seq<Change>)
    ensures var r := StreamSpec.Stage(s, txn, db, changes);
            r.stream.header == s.header && Current(r.stream) == Current(s)
  {
  }

  lemma {:induction false} DurabilizeStepKeeps(w: World, prepares: seq<PrepareCandidate>, exact: bool)
    requires Inv(w)
    ensures Inv(StepDurabilize(w, prepares, exact)) && Inv(StepDurabilizeFails(w, prepares, exact))
  {
    hide DiskInv, StreamInv, PinsInv, NeedsSync, DurabilizeError;
    if w.state.Enabled? && CandidatesKnown(w.state.stream, prepares) {
      var s, d := w.state.stream, w.file.disk;
      StreamHeader(w);
      DurabilizeKeeps(s, d, w.truth, w.history, prepares);
      if NeedsSync(s, prepares) {
        LiveStep(w, Durabilized(s, prepares), d.(synced := |d.log|), w.truth, w.history, |d.log|);
      }
      PoisonStep(w, d);
    }
  }

  lemma {:induction false} CheckpointStepKeeps(w: World)
    requires Inv(w)
    ensures Inv(StepCheckpoint(w)) && Inv(StepCheckpointFails(w))
  {
    hide DiskInv, StreamInv, PinsInv;
    if w.state.Enabled? {
      var s, d := w.state.stream, w.file.disk;
      StreamHeader(w);
      SyncKeeps(s, d, w.truth, w.history);
      LiveStep(w, Synced(s), d.(synced := |d.log|), w.truth, w.history, |d.log|);
      PoisonStep(w, d);
    }
  }

  lemma {:induction false} CommitStepKeeps(w: World, txn: u64, commit: Option<u64>)
    requires Inv(w) && Admissible(w, Event.Commit(txn, commit))
    ensures Inv(StepCommit(w, txn, commit))
  {
    hide DiskInv, StreamInv, PinsInv, CommitFits, HistoryFits, PreparedOf, LiveOf;
    var d := w.file.disk;
    if w.state.Enabled? {
      var s := w.state.stream;
      StreamHeader(w);
      StreamFacts(s, d, w.truth, w.history);
      CommitKeeps(s, d, w.truth, w.history, txn, commit);
      CommitBatch(s, d, w.truth, w.history, txn);
      LiveStep(w, s, d, StepCommit(w, txn, commit).truth, StepCommit(w, txn, commit).history, w.medium);
    } else {
      DiskFacts(d, w.truth, w.history);
      DiskAfterCommit(d, w.truth, w.history, commit);
      if d.log == [] { EmptyViews(d.header, w.truth); }
      DarkStep(w, StepCommit(w, txn, commit).truth, StepCommit(w, txn, commit).history);
    }
  }

  lemma {:induction false} CommitBatch(s: Stream, d: Disk, truth: Ledger, history: seq<Batch>, txn: u64)
    requires StreamInv(s, d, truth, history) && txn in s.unresolved && HistoryFits(d.header, history)
    requires |Unreclaimed(d.header, history)| < |Live(d, truth)| && Live(d, truth)[|Unreclaimed(d.header, history)|].txn == txn
    ensures s.unresolved[txn].batch == Live(d, truth)[|Unreclaimed(d.header, history)|]
  {
    hide StreamInv, UnresolvedInv, PreparedOf, LiveOf;
    StreamFacts(s, d, truth, history);
    var m := |s.batches|;
    ReservationAt(s.unresolved, Rest(s, d, truth), |SyncedLive(d, truth)| - m, |Unreclaimed(d.header, history)| - m);
  }

  /** The engine decides while the stream is unavailable. */
  lemma {:induction false} DarkStep(w: World, truth: Ledger, history: seq<Batch>)
    requires Inv(w) && !w.state.Enabled? && w.file.Active? && DiskInv(w.file.disk, truth, history)
    requires history == w.history || GuardFits(w.guard, w.file.disk.header)
    ensures Inv(w.(truth := truth, history := history))
  {
    hide DiskInv;
  }

  lemma {:induction false} AbortStepKeeps(w: World, txn: u64)
    requires Inv(w) && Admissible(w, Event.Abort(txn))
    ensures Inv(StepAbort(w, txn))
  {
    hide DiskInv, StreamInv, PinsInv, HistoryFits, PreparedOf, LiveOf;
    var d := w.file.disk;
    if w.state.Enabled? {
      var s := w.state.stream;
      AbandonKeeps(s, d, w.truth, w.history, txn);
      LiveStep(w, Abandoned(s, txn), d, w.truth[txn := Aborted], w.history, w.medium);
    } else {
      DiskAfterAbort(d, w.truth, w.history);
      DarkStep(w, w.truth[txn := Aborted], w.history);
    }
  }

  lemma {:induction false} FinalizeStepKeeps(w: World, cands: seq<FinalizeCandidate>, immediate: bool, appended: nat)
    requires Inv(w) && Admissible(w, Event.Finalize(cands, immediate))
    ensures Inv(StepFinalize(w, cands, immediate)) && Inv(StepFinalizeFails(w, cands, immediate, appended))
  {
    hide DiskInv, StreamInv, PinsInv, PreparedOf, LiveOf, FinalizeError, AlreadyPublished, MatchesPrefix, Truthful,
         Finalized, MarkersToStage, FinalizersKnown;
    if w.state.Enabled? && w.file.Active? && Publishes(w.state.stream, cands, immediate) {
      var s, d := w.state.stream, w.file.disk;
      StreamHeader(w);
      FinalizeTakesPrefix(s, d, w.truth, w.history, cands, immediate);
      PipelinedKeeps(s, d, w.truth, w.history, cands);
      ImmediateKeeps(s, d, w.truth, w.history, cands);
      FinalizeAdvances(s, d, w.truth, w.history, cands);
      var log := d.log + MarkersToStage(s, cands);
      LiveStep(w, Finalized(s, cands, immediate), Disk(d.header, log, if immediate then |log| else d.synced), w.truth, w.history,
               if immediate then |log| else w.medium);
      FinalizePartial(s, d, w.truth, w.history, cands, if appended <= |cands| then appended else |cands|);
      PoisonStep(w, d.(log := d.log + MarkersToStage(s, cands)[..if appended <= |cands| then appended else |cands|]));
    }
  }

  lemma {:induction false} FinalizeAdvances(s: Stream, d: Disk, truth: Ledger, history: seq<Batch>,
                                            cands: seq<FinalizeCandidate>)
    requires StreamInv(s, d, truth, history) && |s.batches| <= |Live(d, truth)|
    requires MatchesPrefix(s, cands, Rest(s, d, truth)) && Truthful(cands, truth)
    ensures FinalizersKnown(s, cands)
    ensures forall immediate :: Finalized(s, cands, immediate).header == s.header &&
                                Current(s) <= Current(Finalized(s, cands, immediate))
  {
    hide DiskInv, PreparedOf, LiveOf, MarkersOf, UnresolvedInv, PublishedInv, CandidateMatches, Truthful;
    StreamFacts(s, d, truth, history);
    FinalizePublishes(s, d, truth, history, cands);
    var s' := Finalized(s, cands, false);
    HistoryChain(d.header, history);
    CurrentIs(s', truth, Unreclaimed(d.header, history));
    assert Finalized(s, cands, true).batches == s'.batches;
  }

  lemma {:induction false} GcStepKeeps(w: World, frontier: u64)
    requires Inv(w)
    ensures Inv(StepGc(w, frontier))
  {
    hide DiskInv, StreamInv, PreparedOf, LiveOf, GcReady, GcLog, Reclaimable;
    if GcRuns(w, frontier) {
      var s, d := w.state.stream, w.file.disk;
      StreamHeader(w);
      GcKeeps(s, d, w.truth, w.history, frontier);
      var s' := AfterGc(s, frontier, GcLog(s, frontier).value);
      SameHeader(s', GcDisk(s, frontier), w.truth, w.history);
      CurrentAfterGc(s, frontier);
    }
  }

  /** GC never moves the committed frontier. */
  lemma CurrentAfterGc(s: Stream, frontier: u64)
    ensures forall log :: Current(AfterGc(s, frontier, log)) == Current(s)
  {
  }

  lemma {:induction false} PinStepsKeep(w: World, c: Cursor, id: u64, frontier: u64)
    requires Inv(w)
    ensures Inv(StepAcquire(w, c)) && Inv(StepAdvance(w, id, frontier))
    ensures Inv(w.(pins := w.pins.(pins := w.pins.pins - {id})))
  {
    hide DiskInv, StreamInv, Current;
    if w.state.Enabled? { StreamHeader(w); }
  }

  /** An open that rebuilds the stream leaves a world that satisfies the invariant. */
  lemma {:induction false} ReopenedKeeps(w: World, s: Stream, d: Disk, medium: nat)
    requires Inv(w) && w.file.Active? && StreamInv(s, d, w.truth, w.history) && d.header == w.file.disk.header && medium <= d.synced
    ensures Inv(w.(pins := PinRegistry(0, map[]), state := Enabled(s), file := Active(d), issued := d.header.generation, medium := medium,
                   guard := Some(d.header.generation)))
  {
    hide DiskInv, StreamInv, Current;
    SameHeader(s, d, w.truth, w.history);
    FactsForLoad(w.file.disk, w.truth, w.history);
  }

  /** One that refuses a guard leaves an unavailable stream. */
  lemma {:induction false} RefusedKeeps(w: World)
    requires Inv(w) && w.file.Active?
    ensures Inv(w.(pins := PinRegistry(0, map[]), state := Unavailable(Some(w.file.disk.header.generation))))
  {
    hide DiskInv, StreamInv, Current;
    FactsForLoad(w.file.disk, w.truth, w.history);
  }

  /** Without an active log there is nothing to rebuild. */
  lemma {:induction false} DisabledKeeps(crc: Checksum, w: World, torn: seq<Record>, cut: nat, reported: Ledger)
    requires Inv(w) && !w.file.Active?
    ensures Inv(StepCrash(crc, w, cut, reported)) && Inv(StepRestart(crc, w, torn, cut, reported))
  {
  }

  lemma {:induction false} CrashStepKeeps(crc: Checksum, w: World, cut: nat, reported: Ledger)
    requires Inv(w) && Admissible(w, Event.Crash(cut, reported))
    ensures Inv(StepCrash(crc, w, cut, reported))
  {
    hide DiskInv, StreamInv, Current, OpenBytes, FileBytes, FileSize, LoadableLog, WholeRecords, Reports, PreparedOf,
         MarkersOf, LiveOf, CommittedKept, Inv;
    if !w.file.Active? {
      DisabledKeeps(crc, w, [], cut, reported);
    } else {
      var d := w.file.disk;
      FileFacts(w);
      RefusedKeeps(w);
      CrashBounds(d, w.medium, w.truth, w.history, cut, reported);
      AtMedium(d, w.truth, w.history, w.medium);
      CrashSafetyBytes(crc, d.(synced := w.medium), w.truth, w.history, Callback(reported), cut);
      var built := OpenBytes(crc, FileBytes(crc, d.header, d.log)[..cut], Callback(reported)).value;
      var log := d.log[..WholeRecords(d.header, d.log, cut)] + built.repairs;
      ReopenedKeeps(w, built.stream, Disk(d.header, log, |log|), |log|);
    }
  }

  lemma FileFacts(w: World)
    requires Inv(w) && w.file.Active?
    ensures DiskInv(w.file.disk, w.truth, w.history) && w.medium <= w.file.disk.synced
  {
  }

  lemma {:induction false} RestartStepKeeps(crc: Checksum, w: World, torn: seq<Record>, cut: nat, reported: Ledger)
    requires Inv(w) && Admissible(w, Event.Restart(torn, cut, reported))
    ensures Inv(StepRestart(crc, w, torn, cut, reported))
  {
    hide DiskInv, StreamInv, Current, OpenBytes, FileBytes, FileSize, LoadableLog, Reports, PreparedOf, MarkersOf,
         LiveOf, TornTail, Rebuilt, Repaired, LastSequence, HistoryFits, Inv;
    if !w.file.Active? {
      DisabledKeeps(crc, w, torn, cut, reported);
    } else {
      var d := w.file.disk;
      FileFacts(w);
      RefusedKeeps(w);
      RestartOpens(crc, d, w.truth, w.history, torn, cut, Callback(reported));
      FactsForLoad(d, w.truth, w.history);
      RepairedLog(d, w.truth, w.history);
      var s, rep := Rebuilt(d.(synced := |d.log|), w.truth, w.history), Repaired(d.(synced := |d.log|), w.truth, w.history);
      ReopenedKeeps(w, s, rep, |rep.log|);
      ReopenedKeeps(w, s, rep, w.medium);
    }
  }

  /** What an open leaves behind the records it read. */
  lemma {:induction false} RepairedLog(d: Disk, truth: Ledger, history: seq<Batch>)
    requires DiskInv(d, truth, history) && DiskInv(d.(synced := |d.log|), truth, history)
    requires |MarkersOf(d.log)| <= |Unreclaimed(d.header, history)| <= |Live(d, truth)|
    ensures var rep := Repaired(d.(synced := |d.log|), truth, history);
            d.synced <= |d.log| <= |rep.log| == rep.synced && rep.header == d.header && d.log + rep.log[|d.log|..] == rep.log
  {
    hide PreparedOf, MarkersOf, LiveOf, RepairList, HistoryFits, WellFormedLog, ViewInv;
  }

  // ---------------------------------------------------------------------------
  // Every step, every run
  // ---------------------------------------------------------------------------

  /** A step that may fail is admissible when it may succeed. */
  lemma {:induction false} FailingIsAdmissible(w: World, e: Event)
    requires Inv(w) && Admissible(w, e)
    ensures e.StageFails? ==> Admissible(w, Event.Stage(e.txn, e.databaseTxn, e.changes))
    ensures e.FinalizeFails? ==> Admissible(w, Event.Finalize(e.cands, e.immediate))
  {
    hide DiskInv, StreamInv, PinsInv, StageAdmissible;
  }

  lemma {:induction false} StepKeeps(crc: Checksum, w: World, e: Event)
    requires Inv(w) && Admissible(w, e)
    ensures Inv(Step(crc, w, e))
  {
    hide Inv, Admissible, StepEnable, StepEnableFails, StepDisable, StepDisableFails, StepStage, StepStageFails, StepDurabilize,
         StepDurabilizeFails, StepCommit, StepAbort, StepFinalize, StepFinalizeFails, StepCheckpoint,
         StepCheckpointFails, StepGc, StepAcquire, StepAdvance, StepCrash, StepRestart;
    match e
    case Enable(baseline) => EnableKeeps(w, baseline);
    case EnableFails(baseline, reach) => EnableFailsKeeps(w, baseline, reach);
    case Disable => DisableKeeps(w, NothingWritten);
    case DisableFails(reach) => DisableKeeps(w, reach);
    case Stage(txn, db, changes) => StageStepKeeps(w, txn, db, changes, false);
    case StageFails(txn, db, changes, written) =>
      FailingIsAdmissible(w, e);
      StageStepKeeps(w, txn, db, changes, written);
    case Durabilize(prepares, exact) => DurabilizeStepKeeps(w, prepares, exact);
    case DurabilizeFails(prepares, exact) => DurabilizeStepKeeps(w, prepares, exact);
    case Commit(txn, commit) => CommitStepKeeps(w, txn, commit);
    case Abort(txn) => AbortStepKeeps(w, txn);
    case Finalize(cands, immediate) => FinalizeStepKeeps(w, cands, immediate, 0);
    case FinalizeFails(cands, immediate, appended) =>
      FailingIsAdmissible(w, e);
      FinalizeStepKeeps(w, cands, immediate, appended);
    case Checkpoint => CheckpointStepKeeps(w);
    case CheckpointFails => CheckpointStepKeeps(w);
    case Gc(frontier) => GcStepKeeps(w, frontier);
    case AcquirePin(c) => PinStepsKeep(w, c, 0, 0);
    case AdvancePin(id, frontier) => PinStepsKeep(w, Cursor(0, 0, 0), id, frontier);
    case ReleasePin(id) => PinStepsKeep(w, Cursor(0, 0, 0), id, 0);
    case Crash(cut, reported) => CrashStepKeeps(crc, w, cut, reported);
    case Restart(torn, cut, reported) => RestartStepKeeps(crc, w, torn, cut, reported);
  }

  /** A run: every event is admissible in the world the events before it lead to. */
  ghost predicate Possible(crc: Checksum, w: World, events: seq<Event>)
    requires Inv(w)
    decreases |events|
  {
    events == [] || (Admissible(w, events[0]) && (StepKeeps(crc, w, events[0]); Possible(crc, Step(crc, w, events[0]), events[1..])))
  }

  /** The world a run leads to.  Whatever it does, the invariant holds there. */
  ghost function After(crc: Checksum, w: World, events: seq<Event>): (w': World)
    requires Inv(w) && Possible(crc, w, events)
    ensures Inv(w') && w'.context == w.context
    decreases |events|
  {
    if events == [] then w
    else StepKeeps(crc, w, events[0]); SameContext(crc, w, events[0]); After(crc, Step(crc, w, events[0]), events[1..])
  }

  lemma {:induction false} SameContext(crc: Checksum, w: World, e: Event)
    ensures Step(crc, w, e).context == w.context
  {
    hide OpenBytes, FileBytes, FileSize, LoadableLog, StreamSpec.Stage, DurabilizeError, NeedsSync, FinalizeError,
         GcLog, GcReady, Current, TornTail, LiveOf, PreparedOf;
  }

  lemma StartInv(c: Context)
    ensures Inv(Start(c)) <==> c.storageId != 0 && c.tableId != 0
  {
  }
}
