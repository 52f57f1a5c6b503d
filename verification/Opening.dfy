/** Opening a manager from the files it finds: the log, and beside it the guard that
    remembers which generation is active. */
module Opening {
  import opened Wrappers
  import opened Widths
  import opened ChangeTypes
  import opened Codec
  import opened LogFile
  import opened Loading
  import opened LogViews
  import opened StreamSpec
  import opened DiskInvariant
  import opened StreamInvariant
  import opened Recovery
  import opened RecoveryProof
  import opened Rebuilding
  import opened CrashSafety
  import opened Restarts
  import opened Damage
  import opened World
  import opened Runs
  import opened Progress
  import opened CodecLoops
  import opened ManagerLoops
  import Rebuildable

  /** The bytes of the log and of the guard, as far as the files exist. */
  datatype Files = Files(log: Option<seq<byte>>, guard: Option<seq<byte>>)

  function GuardGeneration(crc: Checksum, guard: Option<seq<byte>>): Option<u64> {
    if guard.None? then None
    else
      match DecodeHeader(crc, guard.value)
      case Ok(g) => Some(g.generation)
      case Err(_) => None
  }

  /** Both are headers of one active incarnation. */
  predicate SameIdentity(g: Header, h: Header) {
    && g.active && h.active && g.kind == h.kind && g.storageId == h.storageId && g.tableId == h.tableId
    && g.fingerprint == h.fingerprint && g.generation == h.generation
  }

  /** There is no guard, or it is a header of the same incarnation. */
  predicate GuardAllows(crc: Checksum, guard: Option<seq<byte>>, h: Header) {
    guard.None? || (DecodeHeader(crc, guard.value).Ok? && SameIdentity(DecodeHeader(crc, guard.value).value, h))
  }

  /** The state a manager of this context opens in. */
  function OpenState(crc: Checksum, files: Files, c: Context, outcome: u64 -> Outcome): State {
    if files.log.None? then
      if files.guard.None? then Disabled(0) else Unavailable(GuardGeneration(crc, files.guard))
    else
      match LoadFile(crc, files.log.value, outcome, true)
      case Err(_) => Unavailable(GuardGeneration(crc, files.guard))
      case Ok((h, loaded)) =>
        if !InContext(h, c) then Unavailable(Some(h.generation))
        else if !h.active then Disabled(h.generation)
        else if !GuardAllows(crc, files.guard, h) then Unavailable(Some(h.generation))
        else
          match Build(h, loaded.fileBytes, loaded.records)
          case Err(_) => Unavailable(Some(h.generation))
          case Ok(built) => Enabled(built.stream)
  }

  /** Opening as the manager does it: load, check the context and the guard, rebuild. */
  method Open(crc: Checksum, files: Files, c: Context, outcome: u64 -> Outcome) returns (state: State)
    ensures state == OpenState(crc, files, c, outcome)
    ensures state.Enabled? <==> files.log.Some? && exists h: Header, log: seq<Record>, tail: seq<byte> :: Opens(crc, files, c, outcome, h, log, tail)
    ensures !state.Enabled? ==> NotOpened(crc, files, c, outcome, state)
  {
    hide LoadFile, Build, Opens, FileThenTail, RebuiltFrom, DecodeHeader, NotOpened;
    OpensIff(crc, files, c, outcome);
    OpenAnswers(crc, files, c, outcome);
    if files.log.None? { return if files.guard.None? then Disabled(0) else Unavailable(GuardGeneration(crc, files.guard)); }
    var loaded := LoadFileBytes(crc, files.log.value, outcome, true);
    if loaded.Err? { return Unavailable(GuardGeneration(crc, files.guard)); }
    var h := loaded.value.0;
    if !InContext(h, c) { return Unavailable(Some(h.generation)); }
    if !h.active { return Disabled(h.generation); }
    if !GuardAllows(crc, files.guard, h) { return Unavailable(Some(h.generation)); }
    var built := BuildEnabledState(h, loaded.value.1.fileBytes, loaded.value.1.records);
    if built.Err? { return Unavailable(Some(h.generation)); }
    return Enabled(built.value.stream);
  }

  // ---------------------------------------------------------------------------
  // Which files open
  // ---------------------------------------------------------------------------

  /** The log is the file of records that load and rebuild, for this context, with at
      most a partial frame behind them, and the guard is of the same incarnation. */
  ghost predicate Opens(crc: Checksum, files: Files, c: Context, outcome: u64 -> Outcome, h: Header, log: seq<Record>, tail: seq<byte>)
    requires files.log.Some?
  {
    && FileThenTail(crc, files.log.value, h, log, tail, outcome)
    && h.kind == c.kind && h.storageId == c.storageId && h.tableId == c.tableId && h.fingerprint == c.fingerprint
    && (files.guard.Some? ==> IsGuardOf(crc, files.guard.value, h))
    && Rebuildable.CanRebuild(h, FileSize(h, log), LoadRecords(log, outcome).value)
  }

  /** The bytes are a header of the incarnation of `h`, with whatever frontiers. */
  predicate IsGuardOf(crc: Checksum, bytes: seq<byte>, h: Header) {
    && DecodeHeader(crc, bytes).Ok?
    && var g := DecodeHeader(crc, bytes).value;
       && g.active && g.kind == h.kind && g.storageId == h.storageId && g.tableId == h.tableId
       && g.fingerprint == h.fingerprint && g.generation == h.generation
  }

  lemma {:induction false} OpensIff(crc: Checksum, files: Files, c: Context, outcome: u64 -> Outcome)
    ensures OpenState(crc, files, c, outcome).Enabled? <==>
            files.log.Some? && exists h: Header, log: seq<Record>, tail: seq<byte> :: Opens(crc, files, c, outcome, h, log, tail)
  {
    hide LoadFile, Build, FileThenTail, DecodeHeader, LoadRecords, Rebuildable.CanRebuild;
    if files.log.Some? {
      var bytes := files.log.value;
      LenientAcceptsExactly(crc, bytes, outcome);
      if OpenState(crc, files, c, outcome).Enabled? {
        var h, log, tail :| FileThenTail(crc, bytes, h, log, tail, outcome);
        TailLoads(crc, bytes, h, log, tail, outcome, true);
        Loads(crc, bytes, h, log, tail, outcome);
        Rebuildable.BuildsIff(h, FileSize(h, log), LoadRecords(log, outcome).value);
        assert Opens(crc, files, c, outcome, h, log, tail);
      }
      forall h: Header, log: seq<Record>, tail: seq<byte> | Opens(crc, files, c, outcome, h, log, tail)
        ensures OpenState(crc, files, c, outcome).Enabled?
      {
        TailLoads(crc, bytes, h, log, tail, outcome, true);
        Loads(crc, bytes, h, log, tail, outcome);
        Rebuildable.BuildsIff(h, FileSize(h, log), LoadRecords(log, outcome).value);
      }
    }
  }

  lemma Loads(crc: Checksum, bytes: seq<byte>, h: Header, log: seq<Record>, tail: seq<byte>, outcome: u64 -> Outcome)
    requires FileThenTail(crc, bytes, h, log, tail, outcome)
    ensures h.active && LoadRecords(log, outcome).Ok?
  {
  }

  /** The state of a stream that does not open, for any files whatsoever.  It is disabled,
      and takes no changes, only if there is neither log nor guard, or an inactive log of
      this context; a log that loads and does not open keeps its generation, so that
      enabling again goes past it. */
  predicate NotOpened(crc: Checksum, files: Files, c: Context, outcome: u64 -> Outcome, state: State) {
    if files.log.None? then
      state == if files.guard.None? then Disabled(0) else Unavailable(GuardGeneration(crc, files.guard))
    else
      match LoadFile(crc, files.log.value, outcome, true)
      case Err(_) => state == Unavailable(GuardGeneration(crc, files.guard))
      case Ok((h, _)) =>
        state == if !h.active && h.kind == c.kind && h.storageId == c.storageId && h.tableId == c.tableId && h.fingerprint == c.fingerprint
                 then Disabled(h.generation) else Unavailable(Some(h.generation))
  }

  lemma {:induction false} OpenAnswers(crc: Checksum, files: Files, c: Context, outcome: u64 -> Outcome)
    ensures var state := OpenState(crc, files, c, outcome);
            && (!state.Enabled? ==> NotOpened(crc, files, c, outcome, state))
            && (state.Disabled? <==>
                  || (files.log.None? && files.guard.None?)
                  || (files.log.Some? && InactiveOf(crc, files.log.value, c, outcome)))
  {
    hide LoadFile, Build, GuardAllows, DecodeHeader;
  }

  /** The log loads, is inactive and of this context. */
  predicate InactiveOf(crc: Checksum, bytes: seq<byte>, c: Context, outcome: u64 -> Outcome) {
    && LoadFile(crc, bytes, outcome, true).Ok?
    && var h := LoadFile(crc, bytes, outcome, true).value.0;
       !h.active && h.kind == c.kind && h.storageId == c.storageId && h.tableId == c.tableId && h.fingerprint == c.fingerprint
  }

  /** Enabling after an open never goes back to a generation of the log or of the guard. */
  lemma {:induction false} OpenedGenerationIsPast(crc: Checksum, files: Files, c: Context, outcome: u64 -> Outcome)
    ensures var prior := PriorGeneration(OpenState(crc, files, c, outcome));
            && (files.log.Some? && LoadFile(crc, files.log.value, outcome, true).Ok? ==>
                  prior == LoadFile(crc, files.log.value, outcome, true).value.0.generation)
            && (files.log.None? || LoadFile(crc, files.log.value, outcome, true).Err? ==>
                  (GuardGeneration(crc, files.guard).Some? ==> prior == GuardGeneration(crc, files.guard).value))
  {
    hide LoadFile, Build, GuardAllows, DecodeHeader;
    if files.log.Some? && LoadFile(crc, files.log.value, outcome, true).Ok? {
      var (h, loaded) := LoadFile(crc, files.log.value, outcome, true).value;
      BuildKeepsHeader(h, loaded.fileBytes, loaded.records);
    }
  }

  /** What the guard is for.  Beside the guard of an incarnation no log whatsoever opens
      under another one, and a log that is missing or cannot be read leaves the stream
      unavailable under the guard's generation, so that enabling again cannot reuse it. */
  lemma {:induction false} GuardProtects(crc: Checksum, g: Header, log: Option<seq<byte>>, c: Context, outcome: u64 -> Outcome)
    requires ValidHeader(g) && g.active
    ensures var state := OpenState(crc, Files(log, Some(EncodeHeader(crc, g))), c, outcome);
            && (state.Enabled? ==>
                  var h := state.stream.header;
                  h.kind == g.kind && h.storageId == g.storageId && h.tableId == g.tableId && h.fingerprint == g.fingerprint && h.generation == g.generation)
            && (log.None? || LoadFile(crc, log.value, outcome, true).Err? ==> state == Unavailable(Some(g.generation)))
  {
    hide LoadFile, Build, EncodeHeader, DecodeHeader, ValidHeader;
    HeaderRoundTrip(crc, g);
    if log.Some? && LoadFile(crc, log.value, outcome, true).Ok? {
      var (h, loaded) := LoadFile(crc, log.value, outcome, true).value;
      BuildKeepsHeader(h, loaded.fileBytes, loaded.records);
    }
  }

  lemma BuildKeepsHeader(h: Header, fileBytes: nat, rs: seq<PreparedRecord>)
    ensures Build(h, fileBytes, rs).Ok? ==> Build(h, fileBytes, rs).value.stream.header == h
  {
    hide Gather, SortBySequence, ChainError;
  }

  // ---------------------------------------------------------------------------
  // The files of a world
  // ---------------------------------------------------------------------------

  /** What disabling leaves in place of the log. */
  function DisabledHeader(c: Context, generation: u64): Header {
    Header(FORMAT_VERSION, false, c.kind, c.storageId, c.tableId, c.fingerprint, generation, 0, 0, 0, 1)
  }

  /** A guard was written as the header of its generation, with the frontiers it had then. */
  predicate GuardIs(crc: Checksum, c: Context, guard: Option<u64>, bytes: Option<seq<byte>>, g: Header) {
    if guard.None? then bytes.None?
    else ValidHeader(g) && g.active && InContext(g, c) && g.generation == guard.value && bytes == Some(EncodeHeader(crc, g))
  }

  /** The files of the world, the log with `torn` behind it and up to byte `cut`. */
  predicate FilesOf(crc: Checksum, w: World, torn: seq<Record>, cut: nat, files: Files, g: Header) {
    && GuardIs(crc, w.context, w.guard, files.guard, g)
    && match w.file
       case NoFile => files.log.None?
       case Inactive(generation) => files.log == Some(EncodeHeader(crc, DisabledHeader(w.context, generation)))
       case Active(d) =>
         && LoadableLog(d.header, d.log + torn) && cut <= FileSize(d.header, d.log + torn)
         && files.log == Some(FileBytes(crc, d.header, d.log + torn)[..cut])
  }

  lemma {:induction false} GuardAllowsIff(crc: Checksum, c: Context, guard: Option<u64>, bytes: Option<seq<byte>>, g: Header, h: Header)
    requires GuardIs(crc, c, guard, bytes, g) && InContext(h, c) && h.active
    ensures GuardAllows(crc, bytes, h) <==> GuardFits(guard, h)
    ensures GuardGeneration(crc, bytes) == guard
  {
    hide EncodeHeader, DecodeHeader, ValidHeader;
    if guard.Some? { HeaderRoundTrip(crc, g); }
  }

  /** The bytes of a disabled log open as what they were. */
  lemma {:induction false} DisabledOpens(crc: Checksum, w: World, torn: seq<Record>, cut: nat, files: Files, g: Header, outcome: u64 -> Outcome)
    requires Inv(w) && !w.file.Active? && FilesOf(crc, w, torn, cut, files, g)
    ensures OpenState(crc, files, w.context, outcome) == if w.file.NoFile? then Disabled(0) else Disabled(w.file.generation)
  {
    hide EncodeHeader, DecodeHeader, LoadHeader, Build;
    if w.file.Inactive? {
      var h := DisabledHeader(w.context, w.file.generation);
      assert EncodeHeader(crc, h)[..HeaderSize(h)] == EncodeHeader(crc, h);
      HeaderInFront(crc, h, EncodeHeader(crc, h));
    }
  }

  /** An active log that opens at all opens unless the guard is of another generation. */
  lemma {:induction false} ActiveOpens(crc: Checksum, w: World, torn: seq<Record>, cut: nat, files: Files, g: Header, outcome: u64 -> Outcome)
    requires Inv(w) && w.file.Active? && FilesOf(crc, w, torn, cut, files, g)
    requires HeaderSize(w.file.disk.header) <= cut && OpenBytes(crc, files.log.value, outcome).Ok?
    ensures OpenState(crc, files, w.context, outcome) ==
            if GuardFits(w.guard, w.file.disk.header) then Enabled(OpenBytes(crc, files.log.value, outcome).value.stream)
            else Unavailable(Some(w.file.disk.header.generation))
  {
    hide DiskInv, StreamInv, PinsInv, EncodeHeader, DecodeHeader, LoadHeader, LoadFrom, Build, FileBytes, LoadableLog, GuardAllows, ValidHeader;
    var d := w.file.disk;
    FactsForLoad(d, w.truth, w.history);
    HeaderLoads(crc, d.header, d.log + torn, cut);
    GuardAllowsIff(crc, w.context, w.guard, files.guard, g, d.header);
  }

  /** After any admissible machine crash, opening the files that are left gives exactly
      the state the run goes on in. */
  lemma {:induction false} OpensAsCrashed(crc: Checksum, w: World, cut: nat, reported: Ledger, files: Files, g: Header)
    requires Inv(w) && CrashAdmissible(w, cut, reported) && FilesOf(crc, w, [], cut, files, g)
    ensures OpenState(crc, files, w.context, Callback(reported)) == StepCrash(crc, w, cut, reported).state
  {
    hide Inv, DiskInv, StreamInv, OpenBytes, OpenState, FileBytes, FileSize, LoadableLog, WholeRecords, Reports, CommittedKept,
         CommittedOf, GuardIs, MarkersOf;
    if w.file.Active? {
      var d := w.file.disk;
      FileFacts(w);
      assert d.log + [] == d.log;
      CrashBounds(d, w.medium, w.truth, w.history, cut, reported);
      AtMedium(d, w.truth, w.history, w.medium);
      CrashSafetyBytes(crc, d.(synced := w.medium), w.truth, w.history, Callback(reported), cut);
      ActiveOpens(crc, w, [], cut, files, g, Callback(reported));
    } else {
      DisabledOpens(crc, w, [], cut, files, g, Callback(reported));
      if w.file.NoFile? { NoFileNoGuard(w); }
    }
  }

  /** The same after any restart of the process. */
  lemma {:induction false} OpensAsRestarted(crc: Checksum, w: World, torn: seq<Record>, cut: nat, reported: Ledger, files: Files, g: Header)
    requires Inv(w) && RestartAdmissible(w, torn, cut, reported) && FilesOf(crc, w, torn, cut, files, g)
    ensures OpenState(crc, files, w.context, Callback(reported)) == StepRestart(crc, w, torn, cut, reported).state
  {
    hide Inv, DiskInv, StreamInv, OpenBytes, OpenState, FileBytes, FileSize, LoadableLog, Reports, GuardIs, MarkersOf, PreparedOf, LiveOf,
         Rebuilt, Repaired, LastSequence, HistoryFits, TornTail;
    if w.file.Active? {
      var d := w.file.disk;
      FileFacts(w);
      RestartOpens(crc, d, w.truth, w.history, torn, cut, Callback(reported));
      LoadableOf(d, torn, cut);
      ActiveOpens(crc, w, torn, cut, files, g, Callback(reported));
    } else {
      DisabledOpens(crc, w, torn, cut, files, g, Callback(reported));
      if w.file.NoFile? { NoFileNoGuard(w); }
    }
  }

  lemma NoFileNoGuard(w: World)
    requires Inv(w) && w.file.NoFile?
    ensures w.guard.None?
  {
  }

  // ---------------------------------------------------------------------------
  // The guard over whole runs
  // ---------------------------------------------------------------------------

  /** In every reachable world an admissible machine crash reopens the stream unless the
      guard is of an earlier generation; and then nothing was ever written under the
      generation of the log. */
  lemma {:induction false} CrashReopensIff(crc: Checksum, w: World, cut: nat, reported: Ledger)
    requires Inv(w) && w.file.Active? && CrashAdmissible(w, cut, reported)
    ensures var state := StepCrash(crc, w, cut, reported).state;
            && (state.Enabled? <==> GuardFits(w.guard, w.file.disk.header))
            && (!state.Enabled? ==> state == Unavailable(Some(w.file.disk.header.generation)) && w.file.disk.log == [] && w.history == [])
  {
    hide DiskInv, StreamInv, PinsInv, OpenBytes, FileBytes, FileSize, LoadableLog, WholeRecords, Reports, CommittedKept, CommittedOf, MarkersOf;
    var d := w.file.disk;
    CrashBounds(d, w.medium, w.truth, w.history, cut, reported);
    AtMedium(d, w.truth, w.history, w.medium);
    CrashSafetyBytes(crc, d.(synced := w.medium), w.truth, w.history, Callback(reported), cut);
  }

  /** The same for a restart of the process. */
  lemma {:induction false} RestartReopensIff(crc: Checksum, w: World, torn: seq<Record>, cut: nat, reported: Ledger)
    requires Inv(w) && w.file.Active? && RestartAdmissible(w, torn, cut, reported)
    ensures var state := StepRestart(crc, w, torn, cut, reported).state;
            && (state.Enabled? <==> GuardFits(w.guard, w.file.disk.header))
            && (!state.Enabled? ==> state == Unavailable(Some(w.file.disk.header.generation)) && w.file.disk.log == [] && w.history == [])
  {
    hide DiskInv, StreamInv, PinsInv, OpenBytes, FileBytes, FileSize, LoadableLog, Reports, MarkersOf, PreparedOf, LiveOf, Rebuilt, Repaired,
         LastSequence, HistoryFits, TornTail;
    var d := w.file.disk;
    RestartOpens(crc, d, w.truth, w.history, torn, cut, Callback(reported));
    LoadableOf(d, torn, cut);
  }

  /** An enable that gets as far as the header and not the guard.  Whatever world it is
      called in, and whenever the machine then stops, the fresh incarnation opens if and
      only if no guard of an earlier one was there; otherwise the stream is unavailable,
      under a generation that enabling again leaves behind. */
  lemma {:induction false} InterruptedEnableOpensIff(crc: Checksum, w: World, baseline: u64, cut: nat, reported: Ledger)
    requires Inv(w) && !w.state.Enabled? && PriorGeneration(w.state) < MAX_U64 - 1
    requires CrashAdmissible(StepEnableFails(w, baseline, HeaderWritten), cut, reported)
    ensures var generation := PriorGeneration(w.state) + 1;
            var w' := StepCrash(crc, StepEnableFails(w, baseline, HeaderWritten), cut, reported);
            && (w'.state.Enabled? <==> w.guard.None?)
            && (!w'.state.Enabled? ==>
                  && w'.state == Unavailable(Some(generation))
                  && StepEnable(w', baseline).state.Enabled? && StepEnable(w', baseline).issued == generation + 1)
  {
    hide Inv, CrashAdmissible, StepCrash, FreshHeader, FreshStream;
    EnableFailsKeeps(w, baseline, HeaderWritten);
    var w1 := StepEnableFails(w, baseline, HeaderWritten);
    if w.guard.Some? { GuardIsOlder(w); }
    assert w1.file.disk.header.generation == PriorGeneration(w.state) + 1 by { FreshGenerationIs(w.context, PriorGeneration(w.state) + 1, baseline); }
    CrashReopensIff(crc, w1, cut, reported);
  }

  /** Opening a disabled log settles the matter: it removes what guard is left, so the
      next enable opens wherever it is interrupted behind its header. */
  lemma {:induction false} OpenSettlesGuard(crc: Checksum, w: World, cut: nat, reported: Ledger, baseline: u64, cut': nat, reported': Ledger)
    requires Inv(w) && !w.file.Active? && FileGeneration(w.file) < MAX_U64 - 1
    requires CrashAdmissible(StepEnableFails(StepCrash(crc, w, cut, reported), baseline, HeaderWritten), cut', reported')
    ensures var w1 := StepCrash(crc, w, cut, reported);
            && w1.state == Disabled(FileGeneration(w.file)) && w1.guard.None?
            && StepCrash(crc, StepEnableFails(w1, baseline, HeaderWritten), cut', reported').state.Enabled?
  {
    hide Inv, CrashAdmissible;
    DisabledKeeps(crc, w, [], cut, reported);
    if w.file.NoFile? { NoFileNoGuard(w); }
    var w1 := StepCrash(crc, w, cut, reported);
    hide StepCrash;
    InterruptedEnableOpensIff(crc, w1, baseline, cut', reported');
  }

  /** So does a disable that succeeds. */
  lemma {:induction false} DisableSettlesGuard(crc: Checksum, w: World, baseline: u64, cut: nat, reported: Ledger)
    requires Inv(w) && !w.state.Disabled? && PriorGeneration(w.state) < MAX_U64 - 1
    requires CrashAdmissible(StepEnableFails(StepDisable(w), baseline, HeaderWritten), cut, reported)
    ensures StepCrash(crc, StepEnableFails(StepDisable(w), baseline, HeaderWritten), cut, reported).state.Enabled?
  {
    hide Inv, CrashAdmissible, StepCrash;
    DisableKeeps(w, NothingWritten);
    InterruptedEnableOpensIff(crc, StepDisable(w), baseline, cut, reported);
  }

  lemma FreshGenerationIs(c: Context, generation: u64, baseline: u64)
    ensures FreshHeader(c, generation, baseline).generation == generation
  {
  }

  /** A guard is never of a generation that is still to come. */
  lemma {:induction false} GuardIsOlder(w: World)
    requires Inv(w) && w.guard.Some?
    ensures w.guard.value <= PriorGeneration(w.state)
  {
    hide DiskInv, StreamInv, PinsInv;
    if w.state.Enabled? { StreamHeader(w); }
  }

  /** A log with nothing in it, right behind its header. */
  lemma {:induction false} EmptyCrash(w: World)
    requires Inv(w) && w.file.Active? && w.file.disk.log == [] && w.file.disk.header.version == FORMAT_VERSION && w.history == []
    requires w.truth == map[]
    ensures CrashAdmissible(w, V2_HEADER_SIZE, map[]) && Cuttable(w.file.disk, V2_HEADER_SIZE)
  {
    hide StreamInv, PinsInv;
    FactsForLoad(w.file.disk, w.truth, w.history);
    AtMedium(w.file.disk, w.truth, w.history, w.medium);
    assert w.file.disk.(synced := w.medium) == w.file.disk;
  }

  /** Such a world is four events from a stream that was never enabled: the guard survives
      a disable that cannot remove it, and meets the log of the next generation. */
  lemma {:induction false} StaleGuardRun(crc: Checksum, c: Context, baseline: u64)
    requires c.storageId != 0 && c.tableId != 0
    ensures Inv(Start(c))
    ensures var events := [Event.Enable(baseline), DisableFails(HeaderWritten), EnableFails(baseline, HeaderWritten),
                           Event.Crash(V2_HEADER_SIZE, map[])];
            Possible(crc, Start(c), events) && After(crc, Start(c), events).state == Unavailable(Some(2))
  {
    hide Inv, DiskInv, StreamInv, OpenBytes, FileBytes, WholeRecords, CrashAdmissible, Cuttable;
    var e1, e2, e3, e4 := Event.Enable(baseline), DisableFails(HeaderWritten), EnableFails(baseline, HeaderWritten), Event.Crash(V2_HEADER_SIZE, map[]);
    StartInv(c);
    var w0 := Start(c);
    StepKeeps(crc, w0, e1);
    var w1 := Step(crc, w0, e1);
    StepKeeps(crc, w1, e2);
    var w2 := Step(crc, w1, e2);
    StepKeeps(crc, w2, e3);
    var w3 := Step(crc, w2, e3);
    EmptyCrash(w3);
    StepKeeps(crc, w3, e4);
    FourSteps(crc, w0, e1, e2, e3, e4);
  }
}
