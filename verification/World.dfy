/** Whole runs of one change stream: the manager, its file, the engine's ledger,
    crashes of the machine, restarts of the process, failing I/O, retention pins and
    successive incarnations. */
module World {
  import opened Wrappers
  import opened Widths
  import opened ChangeTypes
  import opened Codec
  import opened LogFile
  import opened Loading
  import opened LogViews
  import opened StreamSpec
  import opened DiskInvariant
  import opened StreamInvariant
  import opened Recovery
  import opened RecoveryProof
  import opened CrashSafety
  import opened ProtocolSteps
  import opened ProtocolFinalize
  import opened ProtocolGc
  import opened Restarts

  /** What a manager is created for. */
  datatype Context = Context(kind: StorageKind, storageId: u64, tableId: u64, fingerprint: Fingerprint)

  datatype File = NoFile | Inactive(generation: u64) | Active(disk: Disk)

  datatype World = World(
    context: Context,
    state: State,
    file: File,
    truth: Ledger,
    /** Every batch committed since the live incarnation was enabled. */
    history: seq<Batch>,
    pins: PinRegistry,
    /** The highest generation a reader may hold a cursor of. */
    issued: u64,
    /** How many records of the file are on the medium.  The stream takes
        `file.disk.synced` of them to be, which is more after a restart that read
        back records nobody had synced. */
    medium: nat,
    /** The generation in the guard file beside the log, if there is one. */
    guard: Option<u64>)

  function Start(context: Context): World {
    World(context, Disabled(0), NoFile, map[], [], PinRegistry(0, map[]), 0, 0, None)
  }

  datatype Event =
    | Enable(baseline: u64)
    | EnableFails(baseline: u64, reach: Reach)
    | Disable
    | DisableFails(reach: Reach)
    | Stage(txn: u64, databaseTxn: Option<u64>, changes: seq<Change>)
    | StageFails(txn: u64, databaseTxn: Option<u64>, changes: seq<Change>, written: bool)
    | Durabilize(prepares: seq<PrepareCandidate>, exact: bool)
    | DurabilizeFails(prepares: seq<PrepareCandidate>, exact: bool)
    | Commit(txn: u64, commit: Option<u64>)
    | Abort(txn: u64)
    | Finalize(cands: seq<FinalizeCandidate>, immediate: bool)
    | FinalizeFails(cands: seq<FinalizeCandidate>, immediate: bool, appended: nat)
    | Checkpoint
    | CheckpointFails
    | Gc(frontier: u64)
    | AcquirePin(cursor: Cursor)
    | AdvancePin(id: u64, frontier: u64)
    | ReleasePin(id: u64)
    /** The machine stops; the medium keeps the first `cut` bytes of the file. */
    | Crash(cut: nat, reported: Ledger)
    /** The process ends and the file is opened again with every byte written so
        far; `torn` holds the record whose append was cut short at byte `cut`. */
    | Restart(torn: seq<Record>, cut: nat, reported: Ledger)

  // ---------------------------------------------------------------------------
  // Incarnations
  // ---------------------------------------------------------------------------

  function FreshHeader(c: Context, generation: u64, baseline: u64): Header {
    Header(FORMAT_VERSION, true, c.kind, c.storageId, c.tableId, c.fingerprint, generation, baseline, baseline, baseline, 1)
  }

  function FileGeneration(file: File): nat {
    match file
    case NoFile => 0
    case Inactive(g) => g
    case Active(d) => d.header.generation
  }

  // ---------------------------------------------------------------------------
  // The invariant of a world
  // ---------------------------------------------------------------------------

  predicate InContext(h: Header, c: Context) {
    h.kind == c.kind && h.storageId == c.storageId && h.tableId == c.tableId && h.fingerprint == c.fingerprint
  }

  predicate FileInv(w: World) {
    match w.file
    case NoFile => w.issued == 0
    case Inactive(g) => 0 < g && w.issued <= g
    case Active(d) =>
      && DiskInv(d, w.truth, w.history) && InContext(d.header, w.context) && w.issued <= d.header.generation
      && w.medium <= d.synced
  }

  predicate StateInv(w: World) {
    match w.state
    case Disabled(g) => w.file == (if g == 0 then NoFile else Inactive(g)) && w.issued <= g
    case Enabled(s) => w.file.Active? && StreamInv(s, w.file.disk, w.truth, w.history) && s.header.generation == w.issued
    case Unavailable(g) => g.Some? && 0 < g.value && w.issued <= g.value && FileGeneration(w.file) <= g.value
  }

  /** Every pin of the live incarnation lies inside the readable history. */
  predicate PinsInv(w: World) {
    forall id :: id in w.pins.pins ==>
      && id < w.pins.nextId && w.pins.pins[id].generation <= w.issued
      && (w.state.Enabled? && LivePin(w.state.stream.header, w.pins.pins[id]) ==>
            w.state.stream.header.earliest <= w.pins.pins[id].frontier <= Current(w.state.stream))
  }

  /** The check of an open: a guard, if there is one, is of the generation of the log. */
  predicate GuardFits(guard: Option<u64>, h: Header) {
    guard.Some? ==> guard.value == h.generation
  }

  /** The guard names the live generation; one left over from an earlier generation
      stands beside a log in which nothing was ever written. */
  predicate GuardInv(w: World) {
    match w.file
    case NoFile => w.guard.None?
    case Inactive(g) => w.guard.Some? ==> w.guard.value <= g
    case Active(d) =>
      && (w.guard.Some? ==> w.guard.value <= d.header.generation)
      && (w.state.Enabled? ==> w.guard == Some(d.header.generation))
      && (!GuardFits(w.guard, d.header) ==> d.log == [] && w.history == [])
  }

  predicate Inv(w: World) {
    w.context.storageId != 0 && w.context.tableId != 0 && FileInv(w) && StateInv(w) && PinsInv(w) && GuardInv(w)
  }

  // ---------------------------------------------------------------------------
  // What the engine and the medium guarantee
  // ---------------------------------------------------------------------------

  /** The reported outcomes, as the callback an open is given. */
  function Callback(reported: Ledger): u64 -> Outcome {
    (t: u64) => OutcomeOf(reported, t)
  }

  /** A machine crash keeps what is on the medium and any further bytes, and the
      next open is told the truth about every transaction not marked there. */
  ghost predicate CrashPossible(d: Disk, medium: nat, truth: Ledger, cut: nat, reported: Ledger) {
    && medium <= |d.log|
    && FileSize(d.header, d.log[..medium]) <= cut <= FileSize(d.header, d.log)
    && Reports(Callback(reported), truth, MarkersOf(d.log[..medium]))
  }

  ghost predicate CrashAdmissible(w: World, cut: nat, reported: Ledger) {
    w.file.Active? ==>
      && CrashPossible(w.file.disk, w.medium, w.truth, cut, reported)
      && CommittedKept(w.file.disk, w.medium, w.truth, w.history)
  }

  /** A restart finds all whole records, and at most one torn behind them. */
  ghost predicate RestartAdmissible(w: World, torn: seq<Record>, cut: nat, reported: Ledger) {
    w.file.Active? ==>
      var d := w.file.disk;
      && TornTail(d, torn, cut)
      && Reports(Callback(reported), w.truth, MarkersOf(d.log))
  }

  ghost predicate CommitPossible(w: World, txn: u64, commit: Option<u64>)
    requires Inv(w)
  {
    match w.state
    case Enabled(s) => CommitAdmissible(s, w.file.disk, w.truth, w.history, txn, commit)
    case _ =>
      w.file.Active? && CommitFits(w.file.disk.header.kind, commit) &&
      var n := |Unreclaimed(w.file.disk.header, w.history)|;
      n < |SyncedLive(w.file.disk, w.truth)| && n < |Live(w.file.disk, w.truth)| && Live(w.file.disk, w.truth)[n].txn == txn
  }

  ghost predicate Admissible(w: World, e: Event)
    requires Inv(w)
  {
    match e
    case Stage(txn, db, changes) =>
      w.state.Enabled? ==> StageAdmissible(w.state.stream, w.file.disk, w.truth, txn, db, changes)
    case StageFails(txn, db, changes, _) =>
      w.state.Enabled? ==> StageAdmissible(w.state.stream, w.file.disk, w.truth, txn, db, changes)
    case Commit(txn, commit) => CommitPossible(w, txn, commit)
    case Abort(txn) => w.file.Active? && AbortAdmissible(w.file.disk, w.truth, w.history, txn)
    case Finalize(cands, _) => Truthful(cands, w.truth)
    case FinalizeFails(cands, _, _) => Truthful(cands, w.truth)
    case Crash(cut, reported) => CrashAdmissible(w, cut, reported)
    case Restart(torn, cut, reported) => RestartAdmissible(w, torn, cut, reported)
    case _ => true
  }

  // ---------------------------------------------------------------------------
  // Steps
  // ---------------------------------------------------------------------------

  function StepEnable(w: World, baseline: u64): World {
    var prior := PriorGeneration(w.state);
    if w.state.Enabled? || prior == MAX_U64 then w
    else
      var h := FreshHeader(w.context, prior + 1, baseline);
      w.(state := Enabled(FreshStream(h)), file := Active(Disk(h, [], 0)), history := [], issued := prior + 1, medium := 0,
         guard := Some(prior + 1))
  }

  function StepEnableFails(w: World, baseline: u64, reach: Reach): World {
    var prior := PriorGeneration(w.state);
    if w.state.Enabled? || prior == MAX_U64 then w
    else
      var failed := w.(state := Unavailable(Some(prior + 1)));
      if reach.NothingWritten? then failed
      else
        failed.(file := Active(Disk(FreshHeader(w.context, prior + 1, baseline), [], 0)), history := [], medium := 0,
                guard := if reach.GuardWritten? then Some(prior + 1) else w.guard)
  }

  function StepDisable(w: World): World {
    if w.state.Disabled? then w
    else
      var g := PriorGeneration(w.state);
      w.(state := Disabled(g), file := Inactive(g), history := [], guard := None)
  }

  /** The stream counts as disabled once the header is written, whether the guard goes or not. */
  function StepDisableFails(w: World, reach: Reach): World {
    if w.state.Disabled? || reach.NothingWritten? then w
    else StepDisable(w).(guard := if reach.GuardWritten? then None else w.guard)
  }

  ghost function StepStage(w: World, txn: u64, db: Option<u64>, changes: seq<Change>): World {
    if w.state.Enabled? && w.file.Active? then
      var r := StreamSpec.Stage(w.state.stream, txn, db, changes);
      w.(state := Enabled(r.stream), file := Active(w.file.disk.(log := w.file.disk.log + r.appended)))
    else w
  }

  ghost function StepStageFails(w: World, txn: u64, db: Option<u64>, changes: seq<Change>, written: bool): World {
    if w.state.Enabled? && w.file.Active? && StreamSpec.Stage(w.state.stream, txn, db, changes).appended != [] then
      var r := StreamSpec.Stage(w.state.stream, txn, db, changes);
      w.(state := Poisoned(w.state.stream),
         file := if written then Active(w.file.disk.(log := w.file.disk.log + r.appended)) else w.file)
    else w
  }

  ghost function StepDurabilize(w: World, prepares: seq<PrepareCandidate>, exact: bool): World {
    if w.state.Enabled? && w.file.Active? && DurabilizeError(w.state.stream, prepares, exact).None? &&
       CandidatesKnown(w.state.stream, prepares) && NeedsSync(w.state.stream, prepares) then
      w.(state := Enabled(Durabilized(w.state.stream, prepares)),
         file := Active(w.file.disk.(synced := |w.file.disk.log|)), medium := |w.file.disk.log|)
    else w
  }

  ghost function StepDurabilizeFails(w: World, prepares: seq<PrepareCandidate>, exact: bool): World {
    if w.state.Enabled? && DurabilizeError(w.state.stream, prepares, exact).None? &&
       CandidatesKnown(w.state.stream, prepares) && NeedsSync(w.state.stream, prepares) then
      w.(state := Poisoned(w.state.stream))
    else w
  }

  function StepCommit(w: World, txn: u64, commit: Option<u64>): World {
    if w.file.Active? && HistoryFits(w.file.disk.header, w.history) &&
       |Unreclaimed(w.file.disk.header, w.history)| < |Live(w.file.disk, w.truth)| then
      var b := Live(w.file.disk, w.truth)[|Unreclaimed(w.file.disk.header, w.history)|];
      w.(truth := w.truth[txn := Committed(commit)], history := w.history + [Resolve(b, commit)])
    else w
  }

  function StepAbort(w: World, txn: u64): World {
    w.(truth := w.truth[txn := Aborted],
       state := if w.state.Enabled? then Enabled(Abandoned(w.state.stream, txn)) else w.state)
  }

  predicate Publishes(s: Stream, cands: seq<FinalizeCandidate>, immediate: bool) {
    FinalizeError(s, cands, immediate).None? && !AlreadyPublished(s, cands) && cands != [] && FinalizersKnown(s, cands)
  }

  function StepFinalize(w: World, cands: seq<FinalizeCandidate>, immediate: bool): World {
    if w.state.Enabled? && w.file.Active? && Publishes(w.state.stream, cands, immediate) then
      var d := w.file.disk;
      var log := d.log + MarkersToStage(w.state.stream, cands);
      w.(state := Enabled(Finalized(w.state.stream, cands, immediate)),
         file := Active(Disk(d.header, log, if immediate then |log| else d.synced)),
         medium := if immediate then |log| else w.medium)
    else w
  }

  function StepFinalizeFails(w: World, cands: seq<FinalizeCandidate>, immediate: bool, appended: nat): World {
    if w.state.Enabled? && w.file.Active? && Publishes(w.state.stream, cands, immediate) then
      var d, markers := w.file.disk, MarkersToStage(w.state.stream, cands);
      var j := if appended <= |markers| then appended else |markers|;
      w.(state := Poisoned(w.state.stream), file := Active(d.(log := d.log + markers[..j])))
    else w
  }

  function StepCheckpoint(w: World): World {
    if w.state.Enabled? && w.file.Active? && w.state.stream.pending != map[] then
      w.(state := Enabled(Synced(w.state.stream)), file := Active(w.file.disk.(synced := |w.file.disk.log|)),
         medium := |w.file.disk.log|)
    else w
  }

  function StepCheckpointFails(w: World): World {
    if w.state.Enabled? && w.state.stream.pending != map[] then w.(state := Poisoned(w.state.stream)) else w
  }

  ghost predicate GcRuns(w: World, frontier: u64) {
    && w.state.Enabled? && w.file.Active?
    && GcReady(w.state.stream, frontier)
    && !PinBlocks(w.state.stream.header, w.pins.pins, frontier)
    && !(frontier == w.state.stream.header.earliest && w.state.stream.header.version == FORMAT_VERSION)
    && GcLog(w.state.stream, frontier).Ok?
  }

  ghost function StepGc(w: World, frontier: u64): World {
    if GcRuns(w, frontier) then
      w.(state := Enabled(AfterGc(w.state.stream, frontier, GcLog(w.state.stream, frontier).value)),
         file := Active(GcDisk(w.state.stream, frontier)), medium := |GcDisk(w.state.stream, frontier).log|,
         guard := Some(w.state.stream.header.generation))
    else w
  }

  function StepAcquire(w: World, c: Cursor): World {
    if w.state.Enabled? && CursorError(w.state.stream.header, Current(w.state.stream), c).None? && w.pins.nextId < MAX_U64 then
      w.(pins := PinRegistry(w.pins.nextId + 1, w.pins.pins[w.pins.nextId := PinEntry(c.storageId, c.generation, c.frontier)]))
    else w
  }

  function StepAdvance(w: World, id: u64, frontier: u64): World {
    if id in w.pins.pins && w.state.Enabled? then
      var p := w.pins.pins[id];
      if frontier >= p.frontier &&
         CursorError(w.state.stream.header, Current(w.state.stream), Cursor(p.storageId, p.generation, frontier)).None? then
        w.(pins := w.pins.(pins := w.pins.pins[id := p.(frontier := frontier)]))
      else w
    else w
  }

  predicate Cuttable(d: Disk, cut: nat) {
    LoadableLog(d.header, d.log) && HeaderSize(d.header) <= cut <= FileSize(d.header, d.log)
  }

  /** After a machine crash the next open sees what the medium kept, and all of it is on the
      medium.  It refuses a log beside the guard of another generation, and writes a guard
      beside any other active log. */
  ghost function StepCrash(crc: Checksum, w: World, cut: nat, reported: Ledger): World {
    var w0 := w.(pins := PinRegistry(0, map[]));
    match w.file
    case NoFile => w0.(state := if w.guard.None? then Disabled(0) else Unavailable(w.guard))
    case Inactive(g) => w0.(state := Disabled(g), guard := None)
    case Active(d) =>
      if !Cuttable(d, cut) then w
      else if !GuardFits(w.guard, d.header) then w0.(state := Unavailable(Some(d.header.generation)))
      else
        match OpenBytes(crc, FileBytes(crc, d.header, d.log)[..cut], Callback(reported))
        case Err(_) => w0.(state := Unavailable(Some(d.header.generation)), guard := Some(d.header.generation))
        case Ok(built) =>
          var log := d.log[..WholeRecords(d.header, d.log, cut)] + built.repairs;
          w0.(state := Enabled(built.stream), file := Active(Disk(d.header, log, |log|)), issued := d.header.generation,
              medium := |log|, guard := Some(d.header.generation))
  }

  /** After a restart the next open sees every byte, and takes every record for
      durable, whether it syncs the file or not. */
  ghost function StepRestart(crc: Checksum, w: World, torn: seq<Record>, cut: nat, reported: Ledger): World {
    var w0 := w.(pins := PinRegistry(0, map[]));
    match w.file
    case NoFile => w0.(state := if w.guard.None? then Disabled(0) else Unavailable(w.guard))
    case Inactive(g) => w0.(state := Disabled(g), guard := None)
    case Active(d) =>
      if !TornTail(d, torn, cut) || !Cuttable(d.(log := d.log + torn), cut) then w
      else if !GuardFits(w.guard, d.header) then w0.(state := Unavailable(Some(d.header.generation)))
      else
        match OpenBytes(crc, FileBytes(crc, d.header, d.log + torn)[..cut], Callback(reported))
        case Err(_) => w0.(state := Unavailable(Some(d.header.generation)), guard := Some(d.header.generation))
        case Ok(built) =>
          var log := d.log + built.repairs;
          w0.(state := Enabled(built.stream), file := Active(Disk(d.header, log, |log|)), issued := d.header.generation,
              medium := if OpenSyncs(torn, built.repairs) then |log| else w.medium, guard := Some(d.header.generation))
  }

  lemma {:induction false} CrashBounds(d: Disk, medium: nat, truth: Ledger, history: seq<Batch>, cut: nat, reported: Ledger)
    requires DiskInv(d, truth, history) && CrashPossible(d, medium, truth, cut, reported)
    ensures Cuttable(d, cut)
  {
    FactsForLoad(d, truth, history);
    SizePositive(d.header, d.log[..medium]);
  }

  ghost function Step(crc: Checksum, w: World, e: Event): World
  {
    match e
    case Enable(baseline) => StepEnable(w, baseline)
    case EnableFails(baseline, reach) => StepEnableFails(w, baseline, reach)
    case Disable => StepDisable(w)
    case DisableFails(reach) => StepDisableFails(w, reach)
    case Stage(txn, db, changes) => StepStage(w, txn, db, changes)
    case StageFails(txn, db, changes, written) => StepStageFails(w, txn, db, changes, written)
    case Durabilize(prepares, exact) => StepDurabilize(w, prepares, exact)
    case DurabilizeFails(prepares, exact) => StepDurabilizeFails(w, prepares, exact)
    case Commit(txn, commit) => StepCommit(w, txn, commit)
    case Abort(txn) => StepAbort(w, txn)
    case Finalize(cands, immediate) => StepFinalize(w, cands, immediate)
    case FinalizeFails(cands, immediate, appended) => StepFinalizeFails(w, cands, immediate, appended)
    case Checkpoint => StepCheckpoint(w)
    case CheckpointFails => StepCheckpointFails(w)
    case Gc(frontier) => StepGc(w, frontier)
    case AcquirePin(c) => StepAcquire(w, c)
    case AdvancePin(id, frontier) => StepAdvance(w, id, frontier)
    case ReleasePin(id) => w.(pins := w.pins.(pins := w.pins.pins - {id}))
    case Crash(cut, reported) => StepCrash(crc, w, cut, reported)
    case Restart(torn, cut, reported) => StepRestart(crc, w, torn, cut, reported)
  }
}
