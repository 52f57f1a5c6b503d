/** The protocol makes progress: a transaction that fits can always be carried from
    staging to publication, and the run that does so is one of the runs proved about. */
module Progress {
  import opened Wrappers
  import opened Widths
  import opened ChangeTypes
  import opened Codec
  import opened LogFile
  import opened Loading
  import opened LogViews
  import opened StreamSpec
  import opened DiskInvariant
  import opened StreamInvariant
  import opened ProtocolSteps
  import opened ProtocolFinalize
  import opened World
  import opened Runs
  import opened GroupCommit

  /** A transaction the stream can take now: it fits on its own, the engine never
      prepared it, its record loads again, and its commit is one an engine reports. */
  ghost predicate Committable(w: World, m: Member) {
    && w.state.Enabled? && w.file.Active?
    && GroupFits(w.state.stream, [m])
    && CommitFits(w.file.disk.header.kind, m.commit)
    && !HasTxn(PreparedOf(w.file.disk.log), m.txn) && OutcomeOf(w.truth, m.txn) == Unresolved
    && LoadableIdentity(w.state.stream.header, MemberBatch(w.state.stream, [m], 0))
    && V2_HEADER_SIZE + ReservedSize(PreparedOf(w.file.disk.log)) + RecordSize(Prepared(MemberBatch(w.state.stream, [m], 0))) + 32 <= MAX_U64
  }

  ghost function Staging(m: Member): Event {
    Event.Stage(m.txn, m.databaseTxn, m.changes)
  }

  ghost function Barrier(m: Member, b: Batch): Event {
    Event.Durabilize([PrepareCandidate(m.txn, m.databaseTxn, Identity(b))], false)
  }

  ghost function Publishing(m: Member, b: Batch): Event {
    Event.Finalize([FinalizeCandidate(m.txn, Identity(b), m.commit)], true)
  }

  /** The world with the record appended. */
  function Staged(w: World, b: Batch): World
    requires w.state.Enabled? && w.file.Active? && w.state.stream.nextSequence < MAX_U64
  {
    w.(state := Enabled(AfterStage(w.state.stream, b)), file := Active(w.file.disk.(log := w.file.disk.log + [Prepared(b)])))
  }

  lemma {:induction false} StageSucceeds(crc: Checksum, w: World, m: Member)
    requires Inv(w) && Committable(w, m)
    ensures Admissible(w, Staging(m)) && w.state.stream.nextSequence < MAX_U64
    ensures Step(crc, w, Staging(m)) == Staged(w, MemberBatch(w.state.stream, [m], 0))
  {
    hide DiskInv, StreamInv, PinsInv, StreamSpec.Stage, GroupFits, AfterStage, LoadableIdentity, HasTxn, PreparedOf,
         ReservedSize, RecordSize;
    RoomFor(w.state.stream, [m]);
    StageAlone(w.state.stream, m);
  }

  /** The world with the record durably prepared. */
  function Durable(w: World, b: Batch): World
    requires w.state.Enabled? && w.file.Active? && w.state.stream.nextSequence < MAX_U64
  {
    var log := w.file.disk.log + [Prepared(b)];
    w.(state := Enabled(BetweenBarriers(w.state.stream, b)), file := Active(Disk(w.file.disk.header, log, |log|)), medium := |log|)
  }

  lemma {:induction false} BarrierSucceeds(crc: Checksum, w: World, m: Member)
    requires Committable(w, m) && w.state.stream.nextSequence < MAX_U64
    ensures var b := MemberBatch(w.state.stream, [m], 0);
            Step(crc, Staged(w, b), Barrier(m, b)) == Durable(w, b)
  {
    hide DurabilizeError, NeedsSync, Durabilized, AfterStage, BetweenBarriers, LoadableIdentity, HasTxn, PreparedOf,
         ReservedSize, RecordSize, EncodeError, ValidCommittedBatch;
    DurabilizeAlone(w.state.stream, MemberBatch(w.state.stream, [m], 0), m.databaseTxn);
  }

  /** The only reservation is the next one the engine may commit. */
  lemma {:induction false} NextToCommit(w: World, m: Member)
    requires Inv(w) && Committable(w, m) && w.state.stream.nextSequence < MAX_U64
    requires Inv(Durable(w, MemberBatch(w.state.stream, [m], 0)))
    ensures var b := MemberBatch(w.state.stream, [m], 0);
            var w2 := Durable(w, b);
            && Admissible(w2, Event.Commit(m.txn, m.commit))
            && StepCommit(w2, m.txn, m.commit) ==
               w2.(truth := w.truth[m.txn := Committed(m.commit)], history := w.history + [Resolve(b, m.commit)])
  {
    hide DiskInv, StreamInv, PinsInv, LoadableIdentity, HasTxn, PreparedOf, LiveOf, ReservedSize, RecordSize,
         EncodeError, ValidCommittedBatch, Resolve, HistoryFits;
    var s, d := w.state.stream, w.file.disk;
    var b := MemberBatch(s, [m], 0);
    StreamHeader(w);
    StreamHeader(Durable(w, b));
    StreamFacts(s, d, w.truth, w.history);
    TailIsLast(s.unresolved, Rest(s, d, w.truth), |SyncedLive(d, w.truth)| - |s.batches|);
    LiveWith(d.log, b, w.truth);
    BetweenHas(s, b);
  }

  lemma {:induction false} LiveWith(log: seq<Record>, b: Batch, truth: Ledger)
    requires OutcomeOf(truth, b.txn) == Unresolved
    ensures LiveOf(PreparedOf(log + [Prepared(b)]), truth) == LiveOf(PreparedOf(log), truth) + [b]
  {
    PreparedAppend(log, Prepared(b));
    LiveAppend(PreparedOf(log), b, truth);
  }

  lemma BetweenHas(s: Stream, b: Batch)
    requires s.nextSequence < MAX_U64
    ensures b.txn in BetweenBarriers(s, b).unresolved && BetweenBarriers(s, b).unresolved[b.txn].preparedDurable
    ensures BetweenBarriers(s, b).header == s.header && BetweenBarriers(s, b).batches == s.batches
  {
  }

  lemma {:induction false} PublishSucceeds(crc: Checksum, w: World, m: Member)
    requires Committable(w, m) && w.state.stream.nextSequence < MAX_U64
    ensures var b := MemberBatch(w.state.stream, [m], 0);
            var w3 := Durable(w, b).(truth := w.truth[m.txn := Committed(m.commit)], history := w.history + [Resolve(b, m.commit)]);
            var log := w.file.disk.log + [Prepared(b), Record.Finalize(m.txn, m.commit)];
            && Truthful([FinalizeCandidate(m.txn, Identity(b), m.commit)], w3.truth)
            && Step(crc, w3, Publishing(m, b)) ==
               w3.(state := Enabled(Published(w.state.stream, [m])), file := Active(Disk(w.file.disk.header, log, |log|)), medium := |log|)
  {
    hide FinalizeError, AlreadyPublished, Finalized, MarkersToStage, BetweenBarriers, LoadableIdentity, PreparedOf,
         ReservedSize, RecordSize, EncodeError, Resolve, GroupCommit.Published;
    var s := w.state.stream;
    var b := MemberBatch(s, [m], 0);
    FinalizeAlone(s, b, m.commit);
    PublishedAlone(s, m);
    assert w.file.disk.log + [Prepared(b)] + [Record.Finalize(m.txn, m.commit)] == w.file.disk.log + [Prepared(b), Record.Finalize(m.txn, m.commit)];
  }

  /** From every reachable world, a transaction that fits is committed by the four
      steps of the protocol: each is admissible where it is taken, and in the end the
      batch is in the history, published, marked and checkpointed. */
  lemma {:induction false} CommitCycle(crc: Checksum, w: World, m: Member)
    requires Inv(w) && Committable(w, m)
    ensures var s, b := w.state.stream, MemberBatch(w.state.stream, [m], 0);
            var events := [Staging(m), Barrier(m, b), Event.Commit(m.txn, m.commit), Publishing(m, b)];
            && Possible(crc, w, events)
            && var w' := After(crc, w, events);
               && w'.state == Enabled(Published(s, [m]))
               && w'.history == w.history + [Resolve(b, m.commit)] && w'.truth == w.truth[m.txn := Committed(m.commit)]
               && w'.file == Active(Disk(w.file.disk.header, w.file.disk.log + [Prepared(b), Record.Finalize(m.txn, m.commit)], |w.file.disk.log| + 2))
  {
    hide Inv, Committable, Step, Possible, After, Staged, Durable, GroupCommit.Published, Resolve, Truthful;
    RoomOf(w, m);
    var b := MemberBatch(w.state.stream, [m], 0);
    StageSucceeds(crc, w, m);
    var w1 := Staged(w, b);
    StepKeeps(crc, w, Staging(m));
    BarrierSucceeds(crc, w, m);
    var w2 := Durable(w, b);
    AlwaysAdmissible(w1, m, b);
    StepKeeps(crc, w1, Barrier(m, b));
    NextToCommit(w, m);
    var commit := Event.Commit(m.txn, m.commit);
    var w3 := StepCommit(w2, m.txn, m.commit);
    CommitIsStep(crc, w2, m.txn, m.commit);
    StepKeeps(crc, w2, commit);
    PublishSucceeds(crc, w, m);
    TruthfulIsAdmissible(w3, m, b);
    FourSteps(crc, w, Staging(m), Barrier(m, b), commit, Publishing(m, b));
  }

  lemma RoomOf(w: World, m: Member)
    requires Committable(w, m)
    ensures w.state.Enabled? && w.file.Active? && Room(w.state.stream, [m])
  {
  }

  lemma CommitIsStep(crc: Checksum, w: World, txn: u64, commit: Option<u64>)
    ensures Step(crc, w, Event.Commit(txn, commit)) == StepCommit(w, txn, commit)
  {
  }

  lemma AlwaysAdmissible(w: World, m: Member, b: Batch)
    requires Inv(w)
    ensures Admissible(w, Barrier(m, b))
  {
  }

  lemma TruthfulIsAdmissible(w: World, m: Member, b: Batch)
    requires Inv(w) && Truthful([FinalizeCandidate(m.txn, Identity(b), m.commit)], w.truth)
    ensures Admissible(w, Publishing(m, b))
  {
  }

  /** Four admissible steps make a run. */
  lemma {:induction false} FourSteps(crc: Checksum, w: World, e1: Event, e2: Event, e3: Event, e4: Event)
    requires Inv(w) && Admissible(w, e1)
    requires Inv(Step(crc, w, e1)) && Admissible(Step(crc, w, e1), e2)
    requires Inv(Step(crc, Step(crc, w, e1), e2)) && Admissible(Step(crc, Step(crc, w, e1), e2), e3)
    requires Inv(Step(crc, Step(crc, Step(crc, w, e1), e2), e3)) && Admissible(Step(crc, Step(crc, Step(crc, w, e1), e2), e3), e4)
    ensures Possible(crc, w, [e1, e2, e3, e4])
    ensures After(crc, w, [e1, e2, e3, e4]) == Step(crc, Step(crc, Step(crc, Step(crc, w, e1), e2), e3), e4)
  {
    hide Inv, Admissible, Step;
    StepKeeps(crc, Step(crc, Step(crc, Step(crc, w, e1), e2), e3), e4);
    ThreeSteps(crc, Step(crc, w, e1), e2, e3, e4);
    OneStep(crc, w, e1, [e2, e3, e4]);
    assert [e1, e2, e3, e4] == [e1] + [e2, e3, e4];
  }

  lemma {:induction false} TwoSteps(crc: Checksum, w: World, e1: Event, e2: Event)
    requires Inv(w) && Admissible(w, e1) && Inv(Step(crc, w, e1)) && Admissible(Step(crc, w, e1), e2)
    requires Inv(Step(crc, Step(crc, w, e1), e2))
    ensures Possible(crc, w, [e1, e2]) && After(crc, w, [e1, e2]) == Step(crc, Step(crc, w, e1), e2)
  {
    hide Inv, Admissible, Step;
    OneStep(crc, Step(crc, w, e1), e2, []);
    OneStep(crc, w, e1, [e2]);
    assert [e2] == [e2] + [] && [e1, e2] == [e1] + [e2];
  }

  lemma {:induction false} ThreeSteps(crc: Checksum, w: World, e1: Event, e2: Event, e3: Event)
    requires Inv(w) && Admissible(w, e1) && Inv(Step(crc, w, e1)) && Admissible(Step(crc, w, e1), e2)
    requires Inv(Step(crc, Step(crc, w, e1), e2)) && Admissible(Step(crc, Step(crc, w, e1), e2), e3)
    requires Inv(Step(crc, Step(crc, Step(crc, w, e1), e2), e3))
    ensures Possible(crc, w, [e1, e2, e3]) && After(crc, w, [e1, e2, e3]) == Step(crc, Step(crc, Step(crc, w, e1), e2), e3)
  {
    hide Inv, Admissible, Step;
    TwoSteps(crc, Step(crc, w, e1), e2, e3);
    OneStep(crc, w, e1, [e2, e3]);
    assert [e1, e2, e3] == [e1] + [e2, e3];
  }

  lemma {:induction false} OneStep(crc: Checksum, w: World, e: Event, rest: seq<Event>)
    requires Inv(w) && Admissible(w, e) && Inv(Step(crc, w, e)) && Possible(crc, Step(crc, w, e), rest)
    ensures Possible(crc, w, [e] + rest) && After(crc, w, [e] + rest) == After(crc, Step(crc, w, e), rest)
  {
    hide Inv, Admissible, Step;
    assert ([e] + rest)[1..] == rest && ([e] + rest)[0] == e;
  }
}
