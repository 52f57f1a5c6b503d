/** What is on the medium, over whole runs: which restarts the promises of the
    stream survive, and the runs in which they do not. */
module Durability {
  import opened Wrappers
  import opened Widths
  import opened ChangeTypes
  import opened Codec
  import opened LogFile
  import opened Loading
  import opened LogViews
  import opened StreamSpec
  import opened DiskInvariant
  import opened StreamInvariant
  import opened Recovery
  import opened RecoveryProof
  import opened CrashSafety
  import opened ProtocolSteps
  import opened ProtocolFinalize
  import opened ProtocolGc
  import opened Restarts
  import opened World
  import opened Runs
  import opened RunTheorems

  /** Behind the medium, what the stream takes for synced is nothing but aborted reservations. */
  predicate Backed(w: World) {
    w.file.Active? ==> Quiet(w.file.disk.log, w.medium, w.file.disk.synced, w.truth)
  }

  /** The restarts that keep a stream backed: the open syncs the file, or there is
      nothing live and no marker to sync. */
  predicate Covered(w: World, torn: seq<Record>)
    requires Inv(w)
  {
    w.file.Active? ==>
      RestartSyncs(w.file.disk, w.history, torn) || Quiet(w.file.disk.log, w.medium, |w.file.disk.log|, w.truth)
  }

  // ---------------------------------------------------------------------------
  // What a backed stream promises of the medium
  // ---------------------------------------------------------------------------

  lemma {:induction false} BackedViews(w: World)
    requires Inv(w) && Backed(w) && w.file.Active?
    ensures var d := w.file.disk;
            && w.medium <= d.synced <= |d.log|
            && LiveOf(PreparedOf(d.log[..w.medium]), w.truth) == SyncedLive(d, w.truth)
            && MarkersOf(d.log[..w.medium]) == MarkersOf(d.log[..d.synced])
  {
    hide StreamInv, PinsInv, PreparedOf, MarkersOf, LiveOf, Quiet, WellFormedLog, ViewInv;
    QuietViews(w.file.disk.log, w.medium, w.file.disk.synced, w.truth);
  }

  /** A backed stream keeps its whole invariant over the medium alone. */
  lemma {:induction false} BackedInv(w: World)
    requires Inv(w) && Backed(w) && w.file.Active?
    ensures CommittedKept(w.file.disk, w.medium, w.truth, w.history)
    ensures w.state.Enabled? ==> StreamInv(w.state.stream, w.file.disk.(synced := w.medium), w.truth, w.history)
  {
    hide StreamInv, DiskInv, PinsInv, PreparedOf, MarkersOf, LiveOf, Quiet;
    BackedViews(w);
    DiskFacts(w.file.disk, w.truth, w.history);
    if w.state.Enabled? { SyncedSame(w.state.stream, w.file.disk, w.truth, w.history, w.medium); }
  }

  /** Up to the checkpoint, the markers of a backed stream are on the medium. */
  lemma {:induction false} CheckpointsAreDurable(w: World)
    requires Inv(w) && Backed(w) && w.state.Enabled?
    ensures Conserved(w.state.stream, w.file.disk.(synced := w.medium))
  {
    hide StreamInv, DiskInv, PinsInv, Conserved, Backed, CommittedKept;
    BackedInv(w);
    StreamConserves(w.state.stream, w.file.disk.(synced := w.medium), w.truth, w.history);
  }

  // ---------------------------------------------------------------------------
  // Which steps keep a stream backed
  // ---------------------------------------------------------------------------

  /** Appending records, and aborting transactions, changes nothing before `b`. */
  lemma QuietExtends(log: seq<Record>, more: seq<Record>, a: nat, b: nat, truth: Ledger)
    requires b <= |log| && Quiet(log, a, b, truth)
    ensures Quiet(log + more, a, b, truth)
  {
  }

  lemma {:induction false} CommitBacked(w: World, txn: u64, commit: Option<u64>)
    requires Inv(w) && Backed(w) && Admissible(w, Event.Commit(txn, commit))
    ensures Backed(StepCommit(w, txn, commit))
  {
    hide StreamInv, DiskInv, PinsInv, PreparedOf, LiveOf, CommitFits, HistoryFits;
    var d := w.file.disk;
    if w.state.Enabled? { StreamFacts(w.state.stream, d, w.truth, w.history); }
    DiskFacts(d, w.truth, w.history);
    LiveNotAborted(PreparedOf(d.log), w.truth, |Unreclaimed(d.header, w.history)|);
  }

  lemma {:induction false} LiveNotAborted(bs: seq<Batch>, truth: Ledger, i: nat)
    requires i < |LiveOf(bs, truth)|
    ensures !OutcomeOf(truth, LiveOf(bs, truth)[i].txn).Aborted?
  {
    var n := |bs| - 1;
    if i < |LiveOf(bs[..n], truth)| { LiveNotAborted(bs[..n], truth, i); }
  }

  lemma {:induction false} StagingBacked(w: World, txn: u64, db: Option<u64>, changes: seq<Change>, written: bool)
    requires Inv(w) && Backed(w)
    ensures Backed(StepStage(w, txn, db, changes)) && Backed(StepStageFails(w, txn, db, changes, written))
  {
    hide StreamInv, PinsInv, StreamSpec.Stage, Quiet, WellFormedLog, ViewInv;
    if w.file.Active? {
      var d := w.file.disk;
      if w.state.Enabled? { QuietExtends(d.log, StreamSpec.Stage(w.state.stream, txn, db, changes).appended, w.medium, d.synced, w.truth); }
    }
  }

  lemma {:induction false} FinalizeBacked(w: World, cands: seq<FinalizeCandidate>, immediate: bool, appended: nat)
    requires Inv(w) && Backed(w)
    ensures Backed(StepFinalize(w, cands, immediate)) && Backed(StepFinalizeFails(w, cands, immediate, appended))
  {
    hide StreamInv, PinsInv, FinalizeError, AlreadyPublished, MarkersToStage, Finalized, WellFormedLog, ViewInv;
    if w.file.Active? && w.state.Enabled? && Publishes(w.state.stream, cands, immediate) {
      var d, markers := w.file.disk, MarkersToStage(w.state.stream, cands);
      QuietExtends(d.log, markers, w.medium, d.synced, w.truth);
      QuietExtends(d.log, markers[..if appended <= |markers| then appended else |markers|], w.medium, d.synced, w.truth);
    }
  }

  /** A restart keeps a stream backed, or makes it so, exactly when it is covered. */
  lemma {:induction false} RestartBackedIff(crc: Checksum, w: World, torn: seq<Record>, cut: nat, reported: Ledger)
    requires Inv(w) && Admissible(w, Event.Restart(torn, cut, reported))
    ensures Backed(StepRestart(crc, w, torn, cut, reported)) <==> Covered(w, torn)
  {
    hide DiskInv, StreamInv, PinsInv, OpenBytes, FileBytes, FileSize, LoadableLog, Reports, PreparedOf, MarkersOf,
         LiveOf, TornTail, Rebuilt, Repaired, LastSequence, HistoryFits, Quiet;
    if w.file.Active? && !GuardFits(w.guard, w.file.disk.header) {
      EmptyIsQuiet(w);
    } else if w.file.Active? {
      var d := w.file.disk;
      RestartOpens(crc, d, w.truth, w.history, torn, cut, Callback(reported));
      FactsForLoad(d, w.truth, w.history);
      LoadableOf(d, torn, cut);
      RepairedLog(d, w.truth, w.history);
      var rep := Repaired(d.(synced := |d.log|), w.truth, w.history);
      if !RestartSyncs(d, w.history, torn) { assert d.log + [] == d.log; } else { NothingBetween(rep.log, |rep.log|, w.truth); }
    }
  }

  /** Beside the guard of an earlier generation nothing was ever written. */
  lemma {:induction false} EmptyIsQuiet(w: World)
    requires Inv(w) && w.file.Active? && !GuardFits(w.guard, w.file.disk.header)
    ensures Quiet(w.file.disk.log, w.medium, w.file.disk.synced, w.truth) && Quiet(w.file.disk.log, w.medium, |w.file.disk.log|, w.truth)
  {
    hide StreamInv, PinsInv, WellFormedLog, ViewInv;
  }

  lemma NothingBetween(log: seq<Record>, a: nat, truth: Ledger)
    ensures Quiet(log, a, a, truth)
  {
  }

  lemma {:induction false} CrashBacked(crc: Checksum, w: World, cut: nat, reported: Ledger)
    requires Backed(w)
    ensures Backed(StepCrash(crc, w, cut, reported))
  {
    hide OpenBytes, FileBytes, FileSize, LoadableLog, WholeRecords, OutcomeOf;
  }

  lemma {:induction false} SyncBacked(w: World, prepares: seq<PrepareCandidate>, exact: bool, baseline: u64, reach: Reach, frontier: u64)
    requires Backed(w)
    ensures Backed(StepDurabilize(w, prepares, exact)) && Backed(StepDurabilizeFails(w, prepares, exact))
    ensures Backed(StepCheckpoint(w)) && Backed(StepCheckpointFails(w)) && Backed(StepGc(w, frontier))
    ensures Backed(StepEnable(w, baseline)) && Backed(StepEnableFails(w, baseline, reach))
    ensures Backed(StepDisable(w)) && Backed(StepDisableFails(w, reach))
  {
    hide DurabilizeError, NeedsSync, CandidatesKnown, Durabilized, Synced, GcReady, GcLog, GcDisk, AfterGc,
         OutcomeOf, PinBlocks;
  }

  lemma AbortBacked(w: World, txn: u64)
    requires Backed(w)
    ensures Backed(StepAbort(w, txn))
  {
  }

  lemma {:induction false} PinsBacked(w: World, c: Cursor, id: u64, frontier: u64)
    requires Backed(w)
    ensures Backed(StepAcquire(w, c)) && Backed(StepAdvance(w, id, frontier))
    ensures Backed(w.(pins := w.pins.(pins := w.pins.pins - {id})))
  {
    hide Current, Quiet;
  }

  /** Every step but an uncovered restart keeps a stream backed. */
  lemma {:induction false} StepBacked(crc: Checksum, w: World, e: Event)
    requires Inv(w) && Admissible(w, e) && Backed(w) && (e.Restart? ==> Covered(w, e.torn))
    ensures Backed(Step(crc, w, e))
  {
    hide Inv, Admissible, Backed, Covered, StepEnable, StepEnableFails, StepDisable, StepDisableFails, StepStage, StepStageFails,
         StepDurabilize, StepDurabilizeFails, StepCommit, StepAbort, StepFinalize, StepFinalizeFails, StepCheckpoint,
         StepCheckpointFails, StepGc, StepAcquire, StepAdvance, StepCrash, StepRestart;
    match e
    case Enable(baseline) => SyncBacked(w, [], false, baseline, NothingWritten, 0);
    case EnableFails(baseline, reach) => SyncBacked(w, [], false, baseline, reach, 0);
    case Disable => SyncBacked(w, [], false, 0, NothingWritten, 0);
    case DisableFails(reach) => SyncBacked(w, [], false, 0, reach, 0);
    case Stage(txn, db, changes) => StagingBacked(w, txn, db, changes, false);
    case StageFails(txn, db, changes, written) => StagingBacked(w, txn, db, changes, written);
    case Durabilize(prepares, exact) => SyncBacked(w, prepares, exact, 0, NothingWritten, 0);
    case DurabilizeFails(prepares, exact) => SyncBacked(w, prepares, exact, 0, NothingWritten, 0);
    case Commit(txn, commit) => CommitBacked(w, txn, commit);
    case Abort(txn) => AbortBacked(w, txn);
    case Finalize(cands, immediate) => FinalizeBacked(w, cands, immediate, 0);
    case FinalizeFails(cands, immediate, appended) => FinalizeBacked(w, cands, immediate, appended);
    case Checkpoint => SyncBacked(w, [], false, 0, NothingWritten, 0);
    case CheckpointFails => SyncBacked(w, [], false, 0, NothingWritten, 0);
    case Gc(frontier) => SyncBacked(w, [], false, 0, NothingWritten, frontier);
    case AcquirePin(c) => PinsBacked(w, c, 0, 0);
    case AdvancePin(id, frontier) => PinsBacked(w, Cursor(0, 0, 0), id, frontier);
    case ReleasePin(id) => PinsBacked(w, Cursor(0, 0, 0), id, 0);
    case Crash(cut, reported) => CrashBacked(crc, w, cut, reported);
    case Restart(torn, cut, reported) => RestartBackedIff(crc, w, torn, cut, reported);
  }

  /** A run whose every restart is covered. */
  ghost predicate AllCovered(crc: Checksum, w: World, events: seq<Event>)
    requires Inv(w) && Possible(crc, w, events)
    decreases |events|
  {
    events == [] ||
      (&& (events[0].Restart? ==> Covered(w, events[0].torn))
       && (StepKeeps(crc, w, events[0]); AllCovered(crc, Step(crc, w, events[0]), events[1..])))
  }

  lemma {:induction false} RunBacked(crc: Checksum, w: World, events: seq<Event>)
    requires Inv(w) && Possible(crc, w, events) && AllCovered(crc, w, events) && Backed(w)
    ensures Backed(After(crc, w, events))
    decreases |events|
  {
    hide Inv, Step, Admissible, Backed, Covered;
    if events != [] {
      StepKeeps(crc, w, events[0]);
      StepBacked(crc, w, events[0]);
      RunBacked(crc, Step(crc, w, events[0]), events[1..]);
    }
  }

  /** Durability of whole runs.  After any run from a fresh stream whose restarts are
      all covered, no machine crash that keeps the medium loses anything: every such
      crash is recovered exactly, and the markers up to the checkpoint are on the
      medium. */
  lemma {:induction false} DurabilityOfRuns(crc: Checksum, c: Context, events: seq<Event>, w: World, cut: nat, reported: Ledger)
    requires RunsTo(crc, c, events, w) && AllCovered(crc, Start(c), events)
    requires w.file.Active? && CrashPossible(w.file.disk, w.medium, w.truth, cut, reported)
    ensures var d := w.file.disk;
            && HistoryFits(d.header, w.history) && Cuttable(d, cut)
            && var reopened := OpenBytes(crc, FileBytes(crc, d.header, d.log)[..cut], Callback(reported));
               && reopened.Ok?
               && reopened.value.stream.batches == Unreclaimed(d.header, w.history) == CommittedOf(PreparedOf(d.log), w.truth)
               && Current(reopened.value.stream) == d.header.origin + |w.history|
               && (w.state.Enabled? ==> Conserved(w.state.stream, d.(synced := w.medium)))
  {
    hide Inv, Possible, Step, After, AllCovered, DiskInv, StreamInv, PreparedOf, MarkersOf, LiveOf, OpenBytes,
         FileBytes, CommittedOf, Reports, FileSize, LoadableLog, CommittedKept, Conserved, Backed, HistoryFits,
         Chain, Current, CrashPossible, Cuttable;
    assert Backed(Start(c)) by { StartBacked(c); }
    RunBacked(crc, Start(c), events);
    BackedInv(w);
    CrashSafetyOfRuns(crc, c, events, w, cut, reported);
    if w.state.Enabled? { CheckpointsAreDurable(w); }
  }

  lemma StartBacked(c: Context)
    ensures Backed(Start(c))
  {
  }
}
