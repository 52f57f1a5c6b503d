/** What holds in every world a run can reach, and between any two of them. */
module RunTheorems {
  import opened Wrappers
  import opened Widths
  import opened ChangeTypes
  import opened Codec
  import opened LogFile
  import opened Loading
  import opened LogViews
  import opened StreamSpec
  import opened DiskInvariant
  import opened StreamInvariant
  import opened Recovery
  import opened RecoveryProof
  import opened CrashSafety
  import opened ProtocolSteps
  import opened ProtocolFinalize
  import opened ProtocolGc
  import opened Replay
  import opened Restarts
  import opened World
  import opened Runs

  // ---------------------------------------------------------------------------
  // One step between two worlds
  // ---------------------------------------------------------------------------

  /** Which incarnation the file holds; disabling ends one for good. */
  function Epoch(w: World): nat {
    match w.file
    case NoFile => 0
    case Inactive(g) => 2 + 3 * g
    case Active(d) => 1 + 3 * d.header.generation
  }

  /** The frontier readers have been or will be shown after a recovery. */
  function Frontier(w: World): int {
    match w.state
    case Enabled(s) => Current(s)
    case _ => if w.file.Active? then w.file.disk.header.origin + |w.history| else 0
  }

  /** `w'` continues the incarnation of `w`: the history only grows and the frontier only advances. */
  predicate Continues(w: World, w': World) {
    && w.file.Active? && w'.file.Active?
    && w'.file.disk.header.origin == w.file.disk.header.origin
    && w'.file.disk.header.earliest >= w.file.disk.header.earliest
    && w.history <= w'.history && Frontier(w) <= Frontier(w')
  }

  predicate Follows(w: World, w': World) {
    && Epoch(w) <= Epoch(w') && w.issued <= w'.issued
    && (w.file.Active? && w'.file.Active? && Epoch(w) == Epoch(w') ==> Continues(w, w'))
  }

  lemma FollowsItself(w: World)
    ensures Follows(w, w)
  {
  }

  lemma {:induction false} FollowsTransitively(w: World, w1: World, w2: World)
    requires Follows(w, w1) && Follows(w1, w2)
    ensures Follows(w, w2)
  {
    if w.file.Active? && w2.file.Active? && Epoch(w) == Epoch(w2) {
      assert Epoch(w1) == Epoch(w);
    }
  }

  /** A live stream shows at most what has been committed. */
  lemma {:induction false} FrontierBounded(w: World)
    requires Inv(w) && w.state.Enabled?
    ensures w.file.Active? && HistoryFits(w.file.disk.header, w.history)
    ensures w.state.stream.header == w.file.disk.header
    ensures Frontier(w) <= w.file.disk.header.origin + |w.history|
  {
    hide DiskInv, StreamInv, PreparedOf, LiveOf, PinsInv;
    StreamHeader(w);
    StreamFacts(w.state.stream, w.file.disk, w.truth, w.history);
  }

  lemma {:induction false} EnableFollows(w: World, baseline: u64, reach: Reach)
    requires Inv(w)
    ensures Follows(w, StepEnable(w, baseline)) && Follows(w, StepEnableFails(w, baseline, reach))
    ensures Follows(w, StepDisable(w)) && Follows(w, StepDisableFails(w, reach))
  {
    hide DiskInv, StreamInv, Current;
    if w.state.Enabled? { StreamHeader(w); }
  }

  lemma {:induction false} StageFollows(w: World, txn: u64, db: Option<u64>, changes: seq<Change>, written: bool)
    requires Inv(w)
    ensures Follows(w, StepStage(w, txn, db, changes)) && Follows(w, StepStageFails(w, txn, db, changes, written))
  {
    hide DiskInv, StreamInv, StreamSpec.Stage, Current;
    if w.state.Enabled? {
      FrontierBounded(w);
      StageShape(w.state.stream, txn, db, changes);
    }
  }

  lemma {:induction false} SyncFollows(w: World, prepares: seq<PrepareCandidate>, exact: bool)
    requires Inv(w)
    ensures Follows(w, StepDurabilize(w, prepares, exact)) && Follows(w, StepDurabilizeFails(w, prepares, exact))
    ensures Follows(w, StepCheckpoint(w)) && Follows(w, StepCheckpointFails(w))
  {
    hide DiskInv, StreamInv, NeedsSync, DurabilizeError, CandidatesKnown;
    if w.state.Enabled? { FrontierBounded(w); }
  }

  lemma {:induction false} DecisionFollows(w: World, txn: u64, commit: Option<u64>)
    requires Inv(w)
    ensures Follows(w, StepCommit(w, txn, commit)) && Follows(w, StepAbort(w, txn))
  {
    hide DiskInv, StreamInv, HistoryFits, LiveOf, PreparedOf;
    if w.state.Enabled? { FrontierBounded(w); }
  }

  lemma {:induction false} FinalizeFollows(w: World, cands: seq<FinalizeCandidate>, immediate: bool, appended: nat)
    requires Inv(w) && Admissible(w, Event.Finalize(cands, immediate))
    ensures Follows(w, StepFinalize(w, cands, immediate)) && Follows(w, StepFinalizeFails(w, cands, immediate, appended))
  {
    hide DiskInv, StreamInv, PreparedOf, LiveOf, FinalizeError, AlreadyPublished, MatchesPrefix, Truthful, Finalized,
         MarkersToStage, FinalizersKnown, Current;
    if w.state.Enabled? {
      FrontierBounded(w);
      if Publishes(w.state.stream, cands, immediate) {
        FinalizeTakesPrefix(w.state.stream, w.file.disk, w.truth, w.history, cands, immediate);
        FinalizeAdvances(w.state.stream, w.file.disk, w.truth, w.history, cands);
      }
    }
  }

  lemma {:induction false} GcFollows(w: World, frontier: u64)
    requires Inv(w)
    ensures Follows(w, StepGc(w, frontier))
  {
    hide DiskInv, StreamInv, GcLog, Reclaimable, Current;
    if GcRuns(w, frontier) {
      FrontierBounded(w);
      CurrentAfterGc(w.state.stream, frontier);
    }
  }

  /** An open that shows the whole committed history continues the incarnation. */
  lemma {:induction false} ReopenedFollows(w: World, s: Stream, d: Disk, medium: nat)
    requires Inv(w) && w.file.Active? && d.header == w.file.disk.header && Current(s) == d.header.origin + |w.history|
    ensures Follows(w, w.(pins := PinRegistry(0, map[]), state := Enabled(s), file := Active(d), issued := d.header.generation, medium := medium,
                          guard := Some(d.header.generation)))
  {
    hide DiskInv, StreamInv, Current, PinsInv, HistoryFits;
    if w.state.Enabled? { FrontierBounded(w); }
  }

  lemma {:induction false} RefusedFollows(w: World)
    requires Inv(w) && w.file.Active?
    ensures Follows(w, w.(pins := PinRegistry(0, map[]), state := Unavailable(Some(w.file.disk.header.generation))))
  {
    hide DiskInv, StreamInv, Current, PinsInv, HistoryFits;
    if w.state.Enabled? { FrontierBounded(w); }
  }

  lemma {:induction false} DisabledFollows(crc: Checksum, w: World, torn: seq<Record>, cut: nat, reported: Ledger)
    requires Inv(w) && !w.file.Active?
    ensures Follows(w, StepCrash(crc, w, cut, reported)) && Follows(w, StepRestart(crc, w, torn, cut, reported))
  {
  }

  lemma {:induction false} CrashFollows(crc: Checksum, w: World, cut: nat, reported: Ledger)
    requires Inv(w) && Admissible(w, Event.Crash(cut, reported))
    ensures Follows(w, StepCrash(crc, w, cut, reported))
  {
    hide DiskInv, StreamInv, OpenBytes, FileBytes, FileSize, LoadableLog, WholeRecords, Reports, PreparedOf,
         MarkersOf, LiveOf, CommittedOf, CommittedKept, Inv, Follows;
    if !w.file.Active? {
      DisabledFollows(crc, w, [], cut, reported);
    } else {
      var d := w.file.disk;
      FileFacts(w);
      RefusedFollows(w);
      CrashBounds(d, w.medium, w.truth, w.history, cut, reported);
      AtMedium(d, w.truth, w.history, w.medium);
      CrashSafetyBytes(crc, d.(synced := w.medium), w.truth, w.history, Callback(reported), cut);
      FactsForLoad(d, w.truth, w.history);
      var built := OpenBytes(crc, FileBytes(crc, d.header, d.log)[..cut], Callback(reported)).value;
      var log := d.log[..WholeRecords(d.header, d.log, cut)] + built.repairs;
      SameHeader(built.stream, Disk(d.header, log, |log|), w.truth, w.history);
      HistoryReaches(d.header, w.history);
      ReopenedFollows(w, built.stream, Disk(d.header, log, |log|), |log|);
    }
  }

  lemma {:induction false} RestartFollows(crc: Checksum, w: World, torn: seq<Record>, cut: nat, reported: Ledger)
    requires Inv(w) && Admissible(w, Event.Restart(torn, cut, reported))
    ensures Follows(w, StepRestart(crc, w, torn, cut, reported))
  {
    hide DiskInv, StreamInv, OpenBytes, FileBytes, FileSize, LoadableLog, Reports, PreparedOf, MarkersOf, LiveOf,
         TornTail, Rebuilt, Repaired, LastSequence, HistoryFits, Current, Inv, Follows;
    if !w.file.Active? {
      DisabledFollows(crc, w, torn, cut, reported);
    } else {
      var d := w.file.disk;
      FileFacts(w);
      RefusedFollows(w);
      RestartOpens(crc, d, w.truth, w.history, torn, cut, Callback(reported));
      LoadableOf(d, torn, cut);
      FactsForLoad(d, w.truth, w.history);
      var all := d.(synced := |d.log|);
      RebuiltFrontier(all, w.truth, w.history);
      RepairedLog(d, w.truth, w.history);
      var log := d.log + Repaired(all, w.truth, w.history).log[|d.log|..];
      ReopenedFollows(w, Rebuilt(all, w.truth, w.history), Disk(d.header, log, |log|), |log|);
      ReopenedFollows(w, Rebuilt(all, w.truth, w.history), Disk(d.header, log, |log|), w.medium);
    }
  }

  /** A rebuilt stream shows the whole committed history. */
  lemma {:induction false} RebuiltFrontier(d: Disk, truth: Ledger, history: seq<Batch>)
    requires DiskInv(d, truth, history) && LastSequence(PreparedOf(d.log)) < MAX_U64
    requires |MarkersOf(d.log)| <= |Unreclaimed(d.header, history)| <= |Live(d, truth)|
    requires StreamInv(Rebuilt(d, truth, history), Repaired(d, truth, history), truth, history)
    ensures Rebuilt(d, truth, history).batches == Unreclaimed(d.header, history)
    ensures Current(Rebuilt(d, truth, history)) == d.header.origin + |history|
  {
    hide DiskInv, StreamInv, PreparedOf, MarkersOf, LiveOf, LastSequence, SizesOf, VersionsOf, UnresolvedMap,
         RepairList;
    StreamFacts(Rebuilt(d, truth, history), Repaired(d, truth, history), truth, history);
  }

  lemma {:induction false} StepFollows(crc: Checksum, w: World, e: Event)
    requires Inv(w) && Admissible(w, e)
    ensures Follows(w, Step(crc, w, e))
  {
    hide Inv, Admissible, Follows, StepEnable, StepEnableFails, StepDisable, StepDisableFails, StepStage, StepStageFails,
         StepDurabilize, StepDurabilizeFails, StepCommit, StepAbort, StepFinalize, StepFinalizeFails, StepCheckpoint,
         StepCheckpointFails, StepGc, StepAcquire, StepAdvance, StepCrash, StepRestart;
    match e
    case Enable(baseline) => EnableFollows(w, baseline, NothingWritten);
    case EnableFails(baseline, reach) => EnableFollows(w, baseline, reach);
    case Disable => EnableFollows(w, 0, NothingWritten);
    case DisableFails(reach) => EnableFollows(w, 0, reach);
    case Stage(txn, db, changes) => StageFollows(w, txn, db, changes, false);
    case StageFails(txn, db, changes, written) => StageFollows(w, txn, db, changes, written);
    case Durabilize(prepares, exact) => SyncFollows(w, prepares, exact);
    case DurabilizeFails(prepares, exact) => SyncFollows(w, prepares, exact);
    case Commit(txn, commit) => DecisionFollows(w, txn, commit);
    case Abort(txn) => DecisionFollows(w, txn, None);
    case Finalize(cands, immediate) => FinalizeFollows(w, cands, immediate, 0);
    case FinalizeFails(cands, immediate, appended) =>
      FailingIsAdmissible(w, e);
      FinalizeFollows(w, cands, immediate, appended);
    case Checkpoint => SyncFollows(w, [], false);
    case CheckpointFails => SyncFollows(w, [], false);
    case Gc(frontier) => GcFollows(w, frontier);
    case AcquirePin(c) => PinFollows(w, c, 0, 0);
    case AdvancePin(id, frontier) => PinFollows(w, Cursor(0, 0, 0), id, frontier);
    case ReleasePin(id) => PinFollows(w, Cursor(0, 0, 0), id, 0);
    case Crash(cut, reported) => CrashFollows(crc, w, cut, reported);
    case Restart(torn, cut, reported) => RestartFollows(crc, w, torn, cut, reported);
  }

  lemma {:induction false} PinFollows(w: World, c: Cursor, id: u64, frontier: u64)
    ensures Follows(w, StepAcquire(w, c)) && Follows(w, StepAdvance(w, id, frontier))
    ensures Follows(w, w.(pins := w.pins.(pins := w.pins.pins - {id})))
  {
    hide Current;
  }

  /** Between any two worlds of a run: incarnations only move forward, and within
      one of them the history only grows and the frontier only advances. */
  lemma {:induction false} RunFollows(crc: Checksum, w: World, events: seq<Event>)
    requires Inv(w) && Possible(crc, w, events)
    ensures Follows(w, After(crc, w, events))
    decreases |events|
  {
    hide Inv, Follows, Step, Admissible;
    if events == [] {
      FollowsItself(w);
    } else {
      StepKeeps(crc, w, events[0]);
      StepFollows(crc, w, events[0]);
      var w1 := Step(crc, w, events[0]);
      RunFollows(crc, w1, events[1..]);
      FollowsTransitively(w, w1, After(crc, w1, events[1..]));
    }
  }

  // ---------------------------------------------------------------------------
  // Crash safety of whole runs
  // ---------------------------------------------------------------------------

  /** `w` is where `events` lead from a stream that was never enabled. */
  ghost predicate RunsTo(crc: Checksum, c: Context, events: seq<Event>, w: World) {
    Inv(Start(c)) && Possible(crc, Start(c), events) && After(crc, Start(c), events) == w
  }

  /** Crash safety over whole runs.  After any run from a fresh stream (any mix of
      staging, durability, finalize, checkpoints, aborts, GC, failing I/O, pins,
      incarnations, restarts and earlier crashes), whatever byte behind the medium a
      machine crash cuts the log at, reopening succeeds and gives exactly the batches
      the ledger committed and no GC reclaimed: in order, unchanged, gap-free from the
      earliest frontier.  The crash is admissible when every committed batch is
      prepared on the medium, which only a restart can undo. */
  lemma {:induction false} CrashSafetyOfRuns(crc: Checksum, c: Context, events: seq<Event>, w: World, cut: nat,
                                             reported: Ledger)
    requires RunsTo(crc, c, events, w)
    requires w.file.Active? && CrashAdmissible(w, cut, reported)
    ensures var d := w.file.disk;
            && HistoryFits(d.header, w.history) && Cuttable(d, cut)
            && var reopened := OpenBytes(crc, FileBytes(crc, d.header, d.log)[..cut], Callback(reported));
               && reopened.Ok?
               && reopened.value.stream.batches == Unreclaimed(d.header, w.history) == CommittedOf(PreparedOf(d.log), w.truth)
               && Chain(reopened.value.stream.batches, d.header.earliest)
               && Current(reopened.value.stream) == d.header.origin + |w.history|
  {
    hide Possible, Step, DiskInv, StreamInv, PinsInv, PreparedOf, MarkersOf, LiveOf, OpenBytes, FileBytes,
         CommittedOf, Reports, WholeRecords, FileSize, LoadableLog, After, CommittedKept;
    var d := w.file.disk;
    CrashBounds(d, w.medium, w.truth, w.history, cut, reported);
    AtMedium(d, w.truth, w.history, w.medium);
    CrashSafetyBytes(crc, d.(synced := w.medium), w.truth, w.history, Callback(reported), cut);
    FactsForLoad(d, w.truth, w.history);
    HistoryReaches(d.header, w.history);
    var built := OpenBytes(crc, FileBytes(crc, d.header, d.log)[..cut], Callback(reported)).value;
    var log := d.log[..WholeRecords(d.header, d.log, cut)] + built.repairs;
    SameHeader(built.stream, Disk(d.header, log, |log|), w.truth, w.history);
  }

  // ---------------------------------------------------------------------------
  // Readers over time
  // ---------------------------------------------------------------------------

  /** The batches of a live stream are the history from its earliest frontier on. */
  lemma {:induction false} BatchIsHistory(w: World, f: int)
    requires Inv(w) && w.state.Enabled? && w.state.stream.header.earliest <= f < Current(w.state.stream)
    ensures w.file.Active? && w.state.stream.header == w.file.disk.header
    ensures 0 <= f - w.file.disk.header.origin < |w.history|
    ensures f - w.state.stream.header.earliest < |w.state.stream.batches|
    ensures w.state.stream.batches[f - w.state.stream.header.earliest] == w.history[f - w.file.disk.header.origin]
  {
    hide DiskInv, StreamInv, PreparedOf, LiveOf, PinsInv;
    StreamHeader(w);
    StreamFacts(w.state.stream, w.file.disk, w.truth, w.history);
  }

  /** What was published stays published.  Between any two worlds of a run in which
      the same incarnation is live, with any crashes, failures and GCs in between,
      the frontier has not moved back, and every frontier both can read has the
      same batch in both. */
  lemma {:induction false} PublishedIsForever(crc: Checksum, w: World, events: seq<Event>, f: int)
    requires Inv(w) && Possible(crc, w, events)
    ensures var w' := After(crc, w, events);
            w.state.Enabled? && w'.state.Enabled? && w'.state.stream.header.generation == w.state.stream.header.generation ==>
              var s, s' := w.state.stream, w'.state.stream;
              && Current(s) <= Current(s') && s.header.earliest <= s'.header.earliest
              && (s'.header.earliest <= f < Current(s) ==>
                    && 0 <= f - s.header.earliest < |s.batches| && f - s'.header.earliest < |s'.batches|
                    && s'.batches[f - s'.header.earliest] == s.batches[f - s.header.earliest])
  {
    hide Possible, Step, After, DiskInv, StreamInv, PinsInv;
    var w' := After(crc, w, events);
    if w.state.Enabled? && w'.state.Enabled? && w'.state.stream.header.generation == w.state.stream.header.generation {
      StreamHeader(w);
      StreamHeader(w');
      RunFollows(crc, w, events);
      if w'.state.stream.header.earliest <= f < Current(w.state.stream) {
        BatchIsHistory(w, f);
        BatchIsHistory(w', f);
      }
    }
  }

  /** Cursors and pins of an earlier incarnation are worthless in a later one: no
      read, acquire or advance accepts them, and they never hold GC back. */
  lemma {:induction false} IncarnationsNeverMix(crc: Checksum, w: World, events: seq<Event>, c: Cursor, id: u64,
                                                frontier: u64)
    requires Inv(w) && Possible(crc, w, events)
    ensures var w' := After(crc, w, events);
            w'.state.Enabled? ==>
              var s' := w'.state.stream;
              && s'.header.generation == w'.issued >= w.issued && |s'.batches| == |s'.batchFileBytes|
              && (c.generation < w'.issued ==>
                    && (forall maxBatches: nat, maxBytes: u64 :: Read(s', c, maxBatches, maxBytes).Err?)
                    && StepAcquire(w', c) == w')
              && (id in w'.pins.pins && w'.pins.pins[id].generation < w'.issued ==>
                    && StepAdvance(w', id, frontier) == w'
                    && PinBlocks(s'.header, w'.pins.pins, frontier) == PinBlocks(s'.header, w'.pins.pins - {id}, frontier))
  {
    hide Possible, Step, After, DiskInv, StreamInv, PinsInv, StartAt, SelectFrom, Current;
    var w' := After(crc, w, events);
    RunFollows(crc, w, events);
    if w'.state.Enabled? {
      StreamHeader(w');
      ReachableIsReadable(w'.state.stream, w'.file.disk, w'.truth, w'.history);
      if id in w'.pins.pins && w'.pins.pins[id].generation < w'.issued {
        DeadPinIgnored(w'.state.stream.header, w'.pins.pins, id, frontier);
      }
    }
  }

  lemma {:induction false} DeadPinIgnored(h: Header, pins: map<u64, PinEntry>, id: u64, frontier: u64)
    requires id in pins && !LivePin(h, pins[id])
    ensures PinBlocks(h, pins, frontier) == PinBlocks(h, pins - {id}, frontier)
  {
    if PinBlocks(h, pins, frontier) {
      var j :| j in pins && LivePin(h, pins[j]) && pins[j].frontier < frontier;
      assert j in pins - {id};
    }
  }

  /** Enabling always starts an incarnation no reader has seen. */
  lemma {:induction false} FreshGeneration(w: World, baseline: u64)
    requires Inv(w) && StepEnable(w, baseline) != w
    ensures var w' := StepEnable(w, baseline);
            && !w.state.Enabled? && w'.state.Enabled? && w'.issued > w.issued
            && w'.state.stream.header.generation == w'.issued > FileGeneration(w.file)
            && forall id :: id in w'.pins.pins ==> !LivePin(w'.state.stream.header, w'.pins.pins[id])
  {
    hide DiskInv, StreamInv, Current;
  }

  /** Only these replace the log or open it again. */
  predicate Reincarnates(e: Event) {
    e.Enable? || e.EnableFails? || e.Disable? || e.DisableFails? || e.Crash? || e.Restart?
  }

  /** An unavailable stream stays unavailable until it is disabled, enabled afresh or reopened. */
  lemma PoisonIsSticky(crc: Checksum, w: World, e: Event)
    requires w.state.Unavailable?
    ensures Step(crc, w, e).state != w.state ==> Reincarnates(e)
    ensures Step(crc, w, e).file != w.file ==> Reincarnates(e)
  {
  }

  // ---------------------------------------------------------------------------
  // Every reachable stream
  // ---------------------------------------------------------------------------

  /** Every pin of the live incarnation stays inside the history and readable, with
      any limits, in every reachable world. */
  lemma {:induction false} PinsStayReadable(w: World, id: u64, maxBatches: nat, maxBytes: u64)
    requires Inv(w) && w.state.Enabled? && id in w.pins.pins && LivePin(w.state.stream.header, w.pins.pins[id])
    ensures var s, p := w.state.stream, w.pins.pins[id];
            && |s.batches| == |s.batchFileBytes|
            && s.header.earliest <= p.frontier <= Current(s)
            && Read(s, Cursor(p.storageId, p.generation, p.frontier), maxBatches, maxBytes).Ok?
  {
    hide DiskInv, StreamInv, Read, Current;
    StreamHeader(w);
    var s, p := w.state.stream, w.pins.pins[id];
    ReachableIsReadable(s, w.file.disk, w.truth, w.history);
    ReadAccepts(s, Cursor(p.storageId, p.generation, p.frontier), maxBatches, maxBytes);
  }

  /** The reservation chain: the unresolved records, ordered by sequence, start at
      the committed frontier and advance by one. */
  lemma {:induction false} ReservationsFormChain(w: World)
    requires Inv(w) && w.state.Enabled?
    ensures var m, ids := w.state.stream.unresolved, ReservationOrder(w.state.stream.unresolved);
            && |ids| == |m| && (forall t :: t in m ==> t in ids)
            && forall i :: 0 <= i < |ids| ==>
                 && ids[i] in m && m[ids[i]].batch.txn == ids[i]
                 && m[ids[i]].batch.before == Current(w.state.stream) + i && m[ids[i]].batch.after == Current(w.state.stream) + i + 1
                 && (i > 0 ==> m[ids[i - 1]].batch.sequence < m[ids[i]].batch.sequence)
  {
    hide DiskInv, StreamInv, PreparedOf, LiveOf, Current, ReservationOrder, UnresolvedInv, PinsInv;
    StreamHeader(w);
    var s, d := w.state.stream, w.file.disk;
    StreamFacts(s, d, w.truth, w.history);
    var rest, durable := Rest(s, d, w.truth), |SyncedLive(d, w.truth)| - |s.batches|;
    OrderIsChain(s.unresolved, rest, durable);
    var ids := ReservationOrder(s.unresolved);
    forall i | 0 <= i < |rest|
      ensures rest[i].txn in s.unresolved && s.unresolved[rest[i].txn].batch == rest[i]
    {
      ReservationAt(s.unresolved, rest, durable, i);
    }
    forall t | t in s.unresolved ensures t in ids {
      var i := ReservationOf(s.unresolved, rest, durable, t);
      assert ids[i] == t;
    }
  }

  /** One pending checkpoint per batch. */
  lemma {:induction false} PendingCount(bs: seq<Batch>)
    requires Ordered(bs)
    ensures |PendingOf(bs)| == |bs|
  {
    if bs != [] {
      var n := |bs| - 1;
      PendingCount(bs[..n]);
      var front, k := PendingOf(bs[..n]), bs[n].sequence;
      if k in front { PendingKeys(bs[..n], k); }
      assert (front[k := bs[n].txn]).Keys == front.Keys + {k};
    }
  }

  lemma {:induction false} PendingHas(bs: seq<Batch>, i: nat)
    requires Ordered(bs) && i < |bs|
    ensures bs[i].sequence in PendingOf(bs) && PendingOf(bs)[bs[i].sequence] == bs[i].txn
  {
    var n := |bs| - 1;
    if i < n {
      PendingHas(bs[..n], i);
      assert bs[i].sequence < bs[n].sequence;
    }
  }

  /** The checkpoint and the pending checkpoints add up to the committed frontier,
      the pending ones are exactly the newest batches, and the marker of every batch
      up to the checkpoint is among the first `d.synced` records. */
  predicate Conserved(s: Stream, d: Disk) {
    && s.header.earliest <= s.checkpointed && s.checkpointed + |s.pending| == Current(s)
    && d.synced <= |d.log|
    && forall i :: 0 <= i < |s.batches| ==>
         if s.header.earliest + i < s.checkpointed then Marked(MarkersOf(d.log[..d.synced]), s.batches[i].txn)
         else s.batches[i].sequence in s.pending && s.pending[s.batches[i].sequence] == s.batches[i].txn
  }

  lemma {:induction false} StreamConserves(s: Stream, d: Disk, truth: Ledger, history: seq<Batch>)
    requires StreamInv(s, d, truth, history)
    ensures Conserved(s, d)
  {
    hide DiskInv, PreparedOf, MarkersOf, LiveOf, UnresolvedInv, PendingOf, Current;
    StreamFacts(s, d, truth, history);
    BatchesOrdered(s, d, truth, history);
    var k := Checkpointed(s);
    PendingCount(s.batches[k..]);
    forall i | 0 <= i < |s.batches|
      ensures if i < k then Marked(MarkersOf(d.log[..d.synced]), s.batches[i].txn)
              else s.batches[i].sequence in s.pending && s.pending[s.batches[i].sequence] == s.batches[i].txn
    {
      if i < k { SyncedMarker(s, d, truth, history, i); } else { PendingHas(s.batches[k..], i - k); }
    }
  }

  /** Checkpoint conservation in every reachable world, over the records the stream takes for synced. */
  lemma {:induction false} CheckpointsAreConserved(w: World)
    requires Inv(w) && w.state.Enabled?
    ensures Conserved(w.state.stream, w.file.disk)
  {
    hide DiskInv, StreamInv, PinsInv, Conserved;
    StreamConserves(w.state.stream, w.file.disk, w.truth, w.history);
  }

  lemma {:induction false} SyncedMarker(s: Stream, d: Disk, truth: Ledger, history: seq<Batch>, i: nat)
    requires StreamInv(s, d, truth, history) && i < |s.batches| && i < Checkpointed(s)
    ensures d.synced <= |d.log| && Marked(MarkersOf(d.log[..d.synced]), s.batches[i].txn)
  {
    hide PreparedOf, MarkersOf, LiveOf, UnresolvedInv, PublishedInv;
    BatchTxns(s, d, truth, history);
    ViewsPrefix(d.log, d.synced);
    assert MarkersOf(d.log[..d.synced])[i] == MarkersOf(d.log)[i];
  }
}
