/** The runs in which a restart costs the stream its durability: a marker that was
    only written is reported as checkpointed, and a reservation that was only written
    is reported as durable and then committed. */
module RestartRuns {
  import opened Wrappers
  import opened Widths
  import opened ChangeTypes
  import opened Codec
  import opened LogFile
  import opened Loading
  import opened LogViews
  import opened StreamSpec
  import opened DiskInvariant
  import opened StreamInvariant
  import opened Recovery
  import opened RecoveryProof
  import opened CrashSafety
  import opened ProtocolSteps
  import opened Restarts
  import opened World
  import opened Runs
  import opened RunTheorems
  import opened Durability
  import opened GroupCommit
  import opened Progress
  import opened Draining

  /** Ending the process between two appends and opening the file again. */
  ghost function Reopening(w: World): Event
    requires w.file.Active?
  {
    Event.Restart([], FileSize(w.file.disk.header, w.file.disk.log), w.truth)
  }

  /** The records as the reopened stream takes them. */
  function TakenForSynced(d: Disk): Disk {
    d.(synced := |d.log|)
  }

  lemma {:induction false} ReopeningAdmissible(w: World)
    requires Inv(w) && w.file.Active?
    ensures Admissible(w, Reopening(w)) && TornTail(w.file.disk, [], FileSize(w.file.disk.header, w.file.disk.log))
    ensures Reports(Callback(w.truth), w.truth, MarkersOf(w.file.disk.log))
  {
    hide DiskInv, StreamInv, PinsInv, FileSize, LoadableLog, MarkersOf;
    FactsForLoad(w.file.disk, w.truth, w.history);
    assert w.file.disk.log + [] == w.file.disk.log;
  }

  /** With every committed batch marked, reopening writes nothing, syncs nothing and
      takes the whole log for synced. */
  lemma {:induction false} ReopeningWritesNothing(crc: Checksum, w: World)
    requires Inv(w) && w.file.Active? && w.guard == Some(w.file.disk.header.generation) && HistoryFits(w.file.disk.header, w.history)
    requires |MarkersOf(w.file.disk.log)| == |Unreclaimed(w.file.disk.header, w.history)|
    ensures var d := TakenForSynced(w.file.disk);
            && DiskInv(d, w.truth, w.history) && |MarkersOf(d.log)| <= |Unreclaimed(d.header, w.history)| <= |Live(d, w.truth)|
            && LastSequence(PreparedOf(d.log)) < MAX_U64
            && StepRestart(crc, w, [], FileSize(d.header, d.log), w.truth) ==
               w.(pins := PinRegistry(0, map[]), state := Enabled(Rebuilt(d, w.truth, w.history)), file := Active(d), issued := d.header.generation)
            && Inv(StepRestart(crc, w, [], FileSize(d.header, d.log), w.truth))
  {
    hide DiskInv, StreamInv, PinsInv, OpenBytes, FileBytes, FileSize, LoadableLog, Reports, PreparedOf, MarkersOf,
         LiveOf, TornTail, Rebuilt, Repaired, LastSequence, HistoryFits;
    var d := w.file.disk;
    ReopeningAdmissible(w);
    LoadableOf(d, [], FileSize(d.header, d.log));
    RestartOpens(crc, d, w.truth, w.history, [], FileSize(d.header, d.log), Callback(w.truth));
    RestartStepKeeps(crc, w, [], FileSize(d.header, d.log), w.truth);
    assert d.log + [] == d.log;
  }

  // ---------------------------------------------------------------------------
  // A checkpoint that is not on the medium
  // ---------------------------------------------------------------------------

  /** Everything committed is published, and the marker of the newest batch is not on the medium. */
  predicate MarkerUnsynced(w: World) {
    && w.state.Enabled? && w.file.Active? && HistoryFits(w.file.disk.header, w.history) && w.medium <= |w.file.disk.log|
    && |MarkersOf(w.file.disk.log[..w.medium])| < |w.state.stream.batches| == |Unreclaimed(w.file.disk.header, w.history)|
  }

  /** The stream reports every batch as checkpointed, the medium lacks the marker of
      the newest, and a checkpoint does nothing about it. */
  predicate ForgotMarker(w: World) {
    && Inv(w) && w.state.Enabled? && w.medium <= |w.file.disk.log|
    && w.state.stream.checkpointed == Current(w.state.stream) && w.state.stream.pending == map[]
    && w.state.stream.batches != []
    && !Marked(MarkersOf(w.file.disk.log[..w.medium]), w.state.stream.batches[|w.state.stream.batches| - 1].txn)
    && !Conserved(w.state.stream, w.file.disk.(synced := w.medium)) && !Backed(w)
    && StepCheckpoint(w) == w
  }

  lemma {:induction false} ReopeningForgets(crc: Checksum, w: World)
    requires Inv(w) && MarkerUnsynced(w)
    ensures Admissible(w, Reopening(w)) && ForgotMarker(StepRestart(crc, w, [], FileSize(w.file.disk.header, w.file.disk.log), w.truth))
  {
    hide DiskInv, StreamInv, PinsInv, PreparedOf, MarkersOf, LiveOf, FileSize, Current, Conserved, Quiet,
         HistoryFits, Rebuilt, LastSequence, Marked;
    var d := TakenForSynced(w.file.disk);
    ReopeningAdmissible(w);
    MarkersOfStream(w);
    ReopeningWritesNothing(crc, w);
    var w' := StepRestart(crc, w, [], FileSize(d.header, d.log), w.truth);
    RebuiltChecks(d, w.truth, w.history);
    NewestUnmarked(w'.state.stream, d, w.truth, w.history, w.medium);
    NotConserved(w'.state.stream, d.(synced := w.medium));
    BackedConserves(w');
  }

  lemma MarkersOfStream(w: World)
    requires Inv(w) && w.state.Enabled?
    ensures |MarkersOf(w.file.disk.log)| == |w.state.stream.batches|
  {
  }

  lemma {:induction false} RebuiltChecks(d: Disk, truth: Ledger, history: seq<Batch>)
    requires DiskInv(d, truth, history) && LastSequence(PreparedOf(d.log)) < MAX_U64
    requires |MarkersOf(d.log)| <= |Unreclaimed(d.header, history)| <= |Live(d, truth)|
    ensures var s := Rebuilt(d, truth, history);
            s.pending == map[] && s.checkpointed == Current(s) && s.batches == Unreclaimed(d.header, history) && s.header == d.header
  {
    hide DiskInv, PreparedOf, MarkersOf, LiveOf, LastSequence, SizesOf, VersionsOf, UnresolvedMap, HistoryFits;
  }

  lemma {:induction false} NewestUnmarked(s: Stream, d: Disk, truth: Ledger, history: seq<Batch>, medium: nat)
    requires StreamInv(s, d, truth, history) && medium <= |d.log| && |MarkersOf(d.log[..medium])| < |s.batches|
    ensures !Marked(MarkersOf(d.log[..medium]), s.batches[|s.batches| - 1].txn)
  {
    hide PreparedOf, MarkersOf, LiveOf, UnresolvedInv, PublishedInv, WellFormedLog, Agrees, HistoryFits, Chain;
    StreamFacts(s, d, truth, history);
    BatchTxns(s, d, truth, history);
    ViewsPrefix(d.log, medium);
    var ms, n := MarkersOf(d.log[..medium]), |s.batches| - 1;
    forall i | 0 <= i < |ms| ensures ms[i].txn != s.batches[n].txn {
      assert ms[i] == MarkersOf(d.log)[i] && ms[i].txn == Live(d, truth)[i].txn;
    }
  }

  lemma {:induction false} BackedConserves(w: World)
    requires Inv(w) && w.state.Enabled?
    ensures Backed(w) ==> Conserved(w.state.stream, w.file.disk.(synced := w.medium))
  {
    hide Inv, Backed, Conserved;
    if Backed(w) { CheckpointsAreDurable(w); }
  }

  lemma {:induction false} NotConserved(s: Stream, d: Disk)
    requires d.synced <= |d.log| && s.batches != [] && s.checkpointed == Current(s) && s.pending == map[]
    requires !Marked(MarkersOf(d.log[..d.synced]), s.batches[|s.batches| - 1].txn)
    ensures !Conserved(s, d)
  {
    hide MarkersOf, Marked, Current;
    assert s.batches[|s.batches| - 1].sequence !in s.pending;
  }

  /** A pipelined finalize, the end of the process, an open: from every reachable
      world with one committed batch to publish, the checkpoint is reported and the
      marker is not on the medium. */
  lemma {:induction false} PipelinedFinalizeIsForgotten(crc: Checksum, w: World, b: Batch)
    requires Inv(w) && Oldest(w, b) && DurableIn(w, b.txn) && OneToPublish(w)
    ensures OutcomeOf(w.truth, b.txn).Committed?
    ensures var commit := OutcomeOf(w.truth, b.txn).commit;
            var w1 := StepFinalize(w, [FinalizeCandidate(b.txn, Identity(b), commit)], false);
            && w1.file.Active?
            && Possible(crc, w, [PublishFor(b, commit, false), Reopening(w1)])
            && ForgotMarker(After(crc, w, [PublishFor(b, commit, false), Reopening(w1)]))
  {
    hide Inv, Admissible, Step, StepFinalize, StepRestart, Possible, After, PreparedOf, LiveOf, MarkersOf, FileSize,
         ForgotMarker, Undecided, HistoryFits;
    OneIsDecided(w);
    PublishOldest(w, b, false);
    var commit := OutcomeOf(w.truth, b.txn).commit;
    StepsAre(crc, w, b, commit, false);
    var w1 := StepFinalize(w, [FinalizeCandidate(b.txn, Identity(b), commit)], false);
    LastMarkerUnsynced(w, w1, b, commit);
    ReopeningForgets(crc, w1);
    ReopeningIsStep(crc, w1);
    ForgotInv(Step(crc, w1, Reopening(w1)));
    TwoSteps(crc, w, PublishFor(b, commit, false), Reopening(w1));
  }

  /** Exactly one committed batch is not published yet. */
  predicate OneToPublish(w: World) {
    && w.state.Enabled? && w.file.Active? && HistoryFits(w.file.disk.header, w.history)
    && |w.state.stream.batches| + 1 == |Unreclaimed(w.file.disk.header, w.history)|
  }

  lemma OneIsDecided(w: World)
    requires Inv(w) && OneToPublish(w)
    ensures !Undecided(w)
  {
  }

  lemma {:induction false} LastMarkerUnsynced(w: World, w': World, b: Batch, commit: Option<u64>)
    requires Inv(w) && OneToPublish(w) && Inv(w') && w'.state.Enabled? && w'.file.Active? && w'.file.disk.header == w.file.disk.header
    requires |w'.state.stream.batches| == |w.state.stream.batches| + 1 && w'.history == w.history && w'.medium == w.medium
    requires w'.file.disk.log == w.file.disk.log + [Record.Finalize(b.txn, commit)]
    ensures MarkerUnsynced(w')
  {
    hide StreamInv, PinsInv, PreparedOf, MarkersOf, LiveOf, WellFormedLog, ViewInv, HistoryFits;
    MarkersOfStream(w);
    ViewsPrefix(w.file.disk.log, w.medium);
    assert w'.file.disk.log[..w.medium] == w.file.disk.log[..w.medium];
  }

  lemma {:induction false} ReopeningIsStep(crc: Checksum, w: World)
    requires w.file.Active?
    ensures Step(crc, w, Reopening(w)) == StepRestart(crc, w, [], FileSize(w.file.disk.header, w.file.disk.log), w.truth)
  {
    hide StepRestart, FileSize;
  }

  lemma ForgotInv(w: World)
    requires ForgotMarker(w)
    ensures Inv(w)
  {
  }

  // ---------------------------------------------------------------------------
  // A commit that is not on the medium
  // ---------------------------------------------------------------------------

  /** The oldest reservation is undecided, and its record is not on the medium. */
  predicate RecordUnsynced(w: World, b: Batch) {
    && Oldest(w, b) && HistoryFits(w.file.disk.header, w.history) && w.medium <= |w.file.disk.log|
    && |LiveOf(PreparedOf(w.file.disk.log[..w.medium]), w.truth)| <= |w.state.stream.batches| == |Unreclaimed(w.file.disk.header, w.history)|
  }

  /** Staging, the end of the process, an open and a commit: the reservation counts as
      durable although nobody synced it, so the engine may commit it; then a machine
      crash right behind the medium loses the committed batch. */
  lemma {:induction false} StagedCommitIsLost(crc: Checksum, w: World, b: Batch, commit: Option<u64>, reported: Ledger)
    requires Inv(w) && RecordUnsynced(w, b) && CommitFits(w.file.disk.header.kind, commit)
    ensures Possible(crc, w, [Reopening(w), Event.Commit(b.txn, commit)])
    ensures var w' := After(crc, w, [Reopening(w), Event.Commit(b.txn, commit)]);
            && w'.file.Active? && w'.medium <= |w'.file.disk.log| && HistoryFits(w'.file.disk.header, w'.history)
            && w'.history == w.history + [Resolve(b, commit)]
            && !CommittedKept(w'.file.disk, w'.medium, w'.truth, w'.history)
            && var d, cut := w'.file.disk, FileSize(w'.file.disk.header, w'.file.disk.log[..w'.medium]);
               Reports(Callback(reported), w'.truth, MarkersOf(d.log[..w'.medium])) ==>
                 && CrashPossible(d, w'.medium, w'.truth, cut, reported) && Cuttable(d, cut)
                 && var reopened := OpenBytes(crc, FileBytes(crc, d.header, d.log)[..cut], Callback(reported));
                    reopened.Ok? ==> |reopened.value.stream.batches| < |Unreclaimed(d.header, w'.history)|
  {
    hide Inv, Admissible, Step, StepCommit, StepRestart, Possible, After, PreparedOf, LiveOf, MarkersOf, FileSize,
         HistoryFits, CommitFits, Resolve, Reports, OpenBytes, FileBytes, CommittedKept, CrashPossible, Cuttable;
    UnsyncedReopens(crc, w, b);
    var w1 := StepRestart(crc, w, [], FileSize(w.file.disk.header, w.file.disk.log), w.truth);
    ReopeningIsStep(crc, w);
    CommitOldest(w1, b, commit);
    StepsAre(crc, w1, b, commit, false);
    TwoSteps(crc, w, Reopening(w), Event.Commit(b.txn, commit));
    var w2 := StepCommit(w1, b.txn, commit);
    CommitOffMedium(w, w2, b, commit);
    if Reports(Callback(reported), w2.truth, MarkersOf(w2.file.disk.log[..w2.medium])) { CrashLoses(crc, w2, reported); }
  }

  /** Reopening makes the reservation durable in name. */
  lemma {:induction false} UnsyncedReopens(crc: Checksum, w: World, b: Batch)
    requires Inv(w) && RecordUnsynced(w, b)
    ensures Admissible(w, Reopening(w))
    ensures var w1 := StepRestart(crc, w, [], FileSize(w.file.disk.header, w.file.disk.log), w.truth);
            && Inv(w1) && Oldest(w1, b) && DurableIn(w1, b.txn) && Undecided(w1)
            && w1.file == Active(TakenForSynced(w.file.disk)) && w1.medium == w.medium && w1.truth == w.truth && w1.history == w.history
  {
    hide DiskInv, StreamInv, PinsInv, PreparedOf, MarkersOf, LiveOf, FileSize, HistoryFits, Rebuilt, LastSequence,
         UnresolvedMap, UnresolvedInv, Current, Rest;
    ReopeningAdmissible(w);
    MarkersOfStream(w);
    ReopeningWritesNothing(crc, w);
    var d := TakenForSynced(w.file.disk);
    RebuiltChecks(d, w.truth, w.history);
    RebuiltDurable(d, w.truth, w.history, b);
  }

  lemma {:induction false} RebuiltDurable(d: Disk, truth: Ledger, history: seq<Batch>, b: Batch)
    requires DiskInv(d, truth, history) && LastSequence(PreparedOf(d.log)) < MAX_U64
    requires |MarkersOf(d.log)| <= |Unreclaimed(d.header, history)| < |Live(d, truth)| && Live(d, truth)[|Unreclaimed(d.header, history)|] == b
    ensures var m := Rebuilt(d, truth, history).unresolved; b.txn in m && m[b.txn].preparedDurable
  {
    hide DiskInv, PreparedOf, MarkersOf, LiveOf, LastSequence, SizesOf, VersionsOf, HistoryFits, UnresolvedMap,
         UnresolvedInv, FileSize, Ordered;
    DiskFacts(d, truth, history);
    var n := |Unreclaimed(d.header, history)|;
    var rest := Live(d, truth)[n..];
    RebuiltUnresolved(Live(d, truth), n, |Live(d, truth)|);
    ReservationAt(UnresolvedMap(rest), rest, |Live(d, truth)| - n, 0);
    AllDurable(rest);
  }

  lemma {:induction false} CommitOffMedium(w: World, w': World, b: Batch, commit: Option<u64>)
    requires Inv(w) && RecordUnsynced(w, b) && Inv(w')
    requires w'.file == Active(TakenForSynced(w.file.disk)) && w'.medium == w.medium
    requires w'.truth == w.truth[b.txn := Committed(commit)] && w'.history == w.history + [Resolve(b, commit)]
    ensures w'.medium <= |w'.file.disk.log| && HistoryFits(w'.file.disk.header, w'.history)
    ensures !CommittedKept(w'.file.disk, w'.medium, w'.truth, w'.history)
  {
    hide DiskInv, StreamInv, PinsInv, PreparedOf, LiveOf, Resolve;
    FactsForLoad(w'.file.disk, w'.truth, w'.history);
    LiveNotAborted(PreparedOf(w.file.disk.log), w.truth, |w.state.stream.batches|);
    LiveAfterCommit(PreparedOf(w.file.disk.log[..w.medium]), w.truth, b.txn, commit);
  }

  lemma {:induction false} CrashLoses(crc: Checksum, w: World, reported: Ledger)
    requires Inv(w) && w.file.Active? && w.medium <= |w.file.disk.log|
    requires !CommittedKept(w.file.disk, w.medium, w.truth, w.history)
    requires Reports(Callback(reported), w.truth, MarkersOf(w.file.disk.log[..w.medium]))
    ensures var d, cut := w.file.disk, FileSize(w.file.disk.header, w.file.disk.log[..w.medium]);
            && CrashPossible(d, w.medium, w.truth, cut, reported) && Cuttable(d, cut) && HistoryFits(d.header, w.history)
            && var reopened := OpenBytes(crc, FileBytes(crc, d.header, d.log)[..cut], Callback(reported));
               reopened.Ok? ==> |reopened.value.stream.batches| < |Unreclaimed(d.header, w.history)|
  {
    hide StreamInv, PinsInv, DiskInv, PreparedOf, LiveOf, MarkersOf, FileSize, HistoryFits, Reports, OpenBytes,
         FileBytes, CommittedKept, LoadableLog;
    var d, cut := w.file.disk, FileSize(w.file.disk.header, w.file.disk.log[..w.medium]);
    CommitIsLost(crc, d, w.truth, w.history, w.medium, Callback(reported));
    CrashBounds(d, w.medium, w.truth, w.history, cut, reported);
  }

  // ---------------------------------------------------------------------------
  // Both happen from the start
  // ---------------------------------------------------------------------------

  /** The smallest transaction of each engine: one delete. */
  function Sample(c: Context): Member {
    if c.kind.HeapStorage? then Member(1, None, [Delete(HeapKey(c.storageId, 0, 0, 1))], None)
    else Member(1, None, [Delete(LsmKey(c.storageId, 1, 1))], Some(1))
  }

  lemma {:induction false} SampleEncodes(c: Context, s: Stream)
    requires c.storageId != 0 && c.tableId != 0 && s.header.kind == c.kind && s.header.storageId == c.storageId && Room(s, [Sample(c)])
    requires s.nextSequence != 0
    ensures var b := MemberBatch(s, [Sample(c)], 0);
            && EncodeError(b).None? && LoadableIdentity(s.header, b) && ValidCommittedBatch(c.kind, Resolve(b, Sample(c).commit))
            && RecordSize(Prepared(b)) <= MAX_RECORD_BYTES + 8
  {
    hide Current;
    var ms := Sample(c).changes;
    var b := MemberBatch(s, [Sample(c)], 0);
    assert ms[1..] == [] && ms[..0] == [];
    assert FirstError(ms[1..], c.storageId).None? && MutationError(ms[0], c.storageId).None?;
    assert FirstError(ms, c.storageId).None? && ListSize(ms) == MutationSize(ms[0]);
    assert b.mutations == ms;
  }

  /** A stream that was just enabled can take it. */
  lemma {:induction false} FreshTakesSample(c: Context, baseline: u64)
    requires c.storageId != 0 && c.tableId != 0 && baseline < MAX_U64
    ensures var w := StepEnable(Start(c), baseline);
            Inv(w) && Committable(w, Sample(c)) && w.state.Enabled? && w.file.Active? && w.file.disk.log == [] && w.medium == 0
            && w.state.stream.batches == [] && w.history == []
  {
    hide Inv, EncodeError, LoadableIdentity, ValidCommittedBatch, Resolve, RecordSize, ReservedSize, PreparedOf, HasTxn;
    StartInv(c);
    EnableKeeps(Start(c), baseline);
    var w, m := StepEnable(Start(c), baseline), Sample(c);
    var s := w.state.stream;
    SampleEncodes(c, s);
    var b := MemberBatch(s, [m], 0);
    assert Batches(s, [m]) == [b];
    OneReserved(b);
    NothingReserved(m.txn);
  }

  lemma NothingReserved(txn: u64)
    ensures PreparedOf([]) == [] && ReservedSize([]) == 0 && !HasTxn([], txn)
  {
  }

  /** The sample staged in a fresh stream. */
  lemma {:induction false} SampleStaged(crc: Checksum, c: Context, baseline: u64) returns (b: Batch)
    requires c.storageId != 0 && c.tableId != 0 && baseline < MAX_U64
    ensures Inv(Start(c))
    ensures var events := [Event.Enable(baseline), Staging(Sample(c))];
            && Possible(crc, Start(c), events)
            && var w' := After(crc, Start(c), events);
               Oldest(w', b) && Undecided(w') && RecordUnsynced(w', b) && w'.history == [] && CommitFits(w'.file.disk.header.kind, Sample(c).commit)
               && w'.state.stream.batches == []
  {
    hide Inv, Admissible, Step, Possible, After, Committable, MemberBatch, PreparedOf, LiveOf, StepEnable;
    StartInv(c);
    FreshTakesSample(c, baseline);
    var w, m := StepEnable(Start(c), baseline), Sample(c);
    RoomOf(w, m);
    b := MemberBatch(w.state.stream, [m], 0);
    StageSucceeds(crc, w, m);
    EnablingIsStep(crc, Start(c), baseline);
    StepKeeps(crc, w, Staging(m));
    TwoSteps(crc, Start(c), Event.Enable(baseline), Staging(m));
    StagedIsOldest(w, m, b);
  }

  lemma EnablingIsStep(crc: Checksum, w: World, baseline: u64)
    ensures Step(crc, w, Event.Enable(baseline)) == StepEnable(w, baseline)
    ensures Inv(w) ==> Admissible(w, Event.Enable(baseline))
  {
  }

  lemma {:induction false} StagedIsOldest(w: World, m: Member, b: Batch)
    requires Inv(w) && Committable(w, m) && Room(w.state.stream, [m]) && b == MemberBatch(w.state.stream, [m], 0)
    requires w.state.Enabled? && w.file.Active? && w.file.disk.log == [] && w.medium == 0 && w.state.stream.batches == [] && w.history == []
    requires w.state.stream.nextSequence < MAX_U64 && Inv(Progress.Staged(w, b))
    ensures var w' := Progress.Staged(w, b);
            Oldest(w', b) && Undecided(w') && RecordUnsynced(w', b) && CommitFits(w'.file.disk.header.kind, m.commit)
  {
    hide DiskInv, StreamInv, PinsInv, PreparedOf, LiveOf, GroupFits, LoadableIdentity, ReservedSize, RecordSize,
         HasTxn, CommitFits;
    StreamHeader(w);
    FactsForLoad(w.file.disk, w.truth, w.history);
    LiveWith([], b, w.truth);
    EmptyViews(w.file.disk.header, w.truth);
    assert [] + [Prepared(b)] == [Prepared(b)];
    assert Progress.Staged(w, b).file.disk.log[..0] == [];
  }

  /** From a fresh stream of either engine, six events lead to a checkpoint that is not on the medium. */
  lemma {:induction false} FreshRunForgets(crc: Checksum, c: Context, baseline: u64) returns (events: seq<Event>)
    requires c.storageId != 0 && c.tableId != 0 && baseline < MAX_U64
    ensures Inv(Start(c)) && Possible(crc, Start(c), events) && ForgotMarker(After(crc, Start(c), events))
  {
    hide Inv, Admissible, Step, Possible, After, MemberBatch, PreparedOf, LiveOf, StepEnable, StepDurabilize,
         StepCommit, StepFinalize, StepRestart, Oldest, Undecided, RecordUnsynced, ForgotMarker, CommitFits;
    var b := SampleStaged(crc, c, baseline);
    var commit := Sample(c).commit;
    var staging := [Event.Enable(baseline), Staging(Sample(c))];
    var w := After(crc, Start(c), staging);
    StepsAre(crc, w, b, commit, false);
    BarrierForOldest(w, b);
    var w1 := Step(crc, w, BarrierFor(b));
    SameDecision(w, w1);
    KindOf(w, w1);
    CommitOldest(w1, b, commit);
    StepsAre(crc, w1, b, commit, false);
    TwoSteps(crc, w, BarrierFor(b), Event.Commit(b.txn, commit));
    var w2 := Step(crc, w1, Event.Commit(b.txn, commit));
    ReadyToPublish(w1, w2, b, commit);
    PipelinedFinalizeIsForgotten(crc, w2, b);
    var publish := PublishFor(b, OutcomeOf(w2.truth, b.txn).commit, false);
    var w3 := StepFinalize(w2, [FinalizeCandidate(b.txn, Identity(b), OutcomeOf(w2.truth, b.txn).commit)], false);
    Joined(crc, w, [BarrierFor(b), Event.Commit(b.txn, commit)], [publish, Reopening(w3)]);
    Joined(crc, Start(c), staging, [BarrierFor(b), Event.Commit(b.txn, commit)] + [publish, Reopening(w3)]);
    events := staging + ([BarrierFor(b), Event.Commit(b.txn, commit)] + [publish, Reopening(w3)]);
  }

  lemma KindOf(w: World, w': World)
    requires SameStory(w, w')
    ensures w'.file.disk.header == w.file.disk.header
  {
  }

  lemma {:induction false} ReadyToPublish(w: World, w': World, b: Batch, commit: Option<u64>)
    requires Inv(w) && Oldest(w, b) && DurableIn(w, b.txn) && Undecided(w) && Inv(w')
    requires w' == w.(truth := w.truth[b.txn := Committed(commit)], history := w.history + [Resolve(b, commit)])
    requires Live(w.file.disk, w.truth[b.txn := Committed(commit)]) == Live(w.file.disk, w.truth)
    ensures Oldest(w', b) && DurableIn(w', b.txn) && OneToPublish(w')
  {
    hide DiskInv, StreamInv, PinsInv, PreparedOf, LiveOf, Resolve;
    StreamHeader(w);
    FactsForLoad(w.file.disk, w.truth, w.history);
    FactsForLoad(w'.file.disk, w'.truth, w'.history);
  }

  /** From a fresh stream of either engine, four events and a machine crash lose a committed batch. */
  lemma {:induction false} FreshRunLoses(crc: Checksum, c: Context, baseline: u64) returns (events: seq<Event>)
    requires c.storageId != 0 && c.tableId != 0 && baseline < MAX_U64
    ensures Inv(Start(c)) && Possible(crc, Start(c), events)
    ensures var w := After(crc, Start(c), events);
            && w.file.Active? && |w.history| == 1 && w.medium <= |w.file.disk.log|
            && !CommittedKept(w.file.disk, w.medium, w.truth, w.history)
            && var d, cut := w.file.disk, FileSize(w.file.disk.header, w.file.disk.log[..w.medium]);
               && CrashPossible(d, w.medium, w.truth, cut, w.truth) && Cuttable(d, cut)
               && var reopened := OpenBytes(crc, FileBytes(crc, d.header, d.log)[..cut], Callback(w.truth));
                  reopened.Ok? ==> reopened.value.stream.batches == []
  {
    hide Inv, Admissible, Step, Possible, After, MemberBatch, PreparedOf, LiveOf, StepEnable, StepCommit,
         StepRestart, Oldest, Undecided, RecordUnsynced, CommitFits, OpenBytes, FileBytes, Reports, CrashPossible,
         Cuttable, FileSize, HistoryFits, CommittedKept, MarkersOf;
    var b := SampleStaged(crc, c, baseline);
    var commit := Sample(c).commit;
    var staging := [Event.Enable(baseline), Staging(Sample(c))];
    var w := After(crc, Start(c), staging);
    OldestIsActive(w, b);
    var run := [Reopening(w), Event.Commit(b.txn, commit)];
    StagedCommitIsLost(crc, w, b, commit, w.truth);
    var w' := After(crc, w, run);
    StagedCommitIsLost(crc, w, b, commit, w'.truth);
    TruthReports(w'.truth, MarkersOf(w'.file.disk.log[..w'.medium]));
    AtMostHistory(w'.file.disk.header, w'.history);
    events := staging + [Reopening(w), Event.Commit(b.txn, commit)];
    Joined(crc, Start(c), staging, [Reopening(w), Event.Commit(b.txn, commit)]);
  }

  lemma OldestIsActive(w: World, b: Batch)
    requires Oldest(w, b)
    ensures w.state.Enabled? && w.file.Active?
  {
  }

  lemma TruthReports(truth: Ledger, ms: seq<Marker>)
    ensures Reports(Callback(truth), truth, ms)
  {
  }

  lemma AtMostHistory(h: Header, history: seq<Batch>)
    requires HistoryFits(h, history)
    ensures |Unreclaimed(h, history)| <= |history|
  {
  }
}
