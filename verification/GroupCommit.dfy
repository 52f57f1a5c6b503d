/** Committing a group under one barrier each way, against committing its members one by one. */
module GroupCommit {
  import opened Wrappers
  import opened Widths
  import opened ChangeTypes
  import opened Codec
  import opened LogFile
  import opened Loading
  import opened LogViews
  import opened StreamSpec
  import opened DiskInvariant
  import opened StreamInvariant
  import opened ProtocolSteps
  import opened ProtocolFinalize

  /** One transaction of a group, with the commit its engine reports. */
  datatype Member = Member(txn: u64, databaseTxn: Option<u64>, changes: seq<Change>, commit: Option<u64>)

  /** How far a commit has come: the stream, the records appended so far, and the syncs it took. */
  datatype Progress = Progress(stream: Stream, log: seq<Record>, syncs: nat)

  // ---------------------------------------------------------------------------
  // The two ways to commit
  // ---------------------------------------------------------------------------

  ghost function StageStep(p: Progress, m: Member): Result<(Progress, Option<PreparedChange>), StreamError> {
    var r := Stage(p.stream, m.txn, m.databaseTxn, m.changes);
    if r.result.Err? then Err(r.result.error) else Ok((Progress(r.stream, p.log + r.appended, p.syncs), r.result.value))
  }

  ghost function DurabilizeStep(p: Progress, cands: seq<PrepareCandidate>, exact: bool): Result<Progress, StreamError> {
    var e := DurabilizeError(p.stream, cands, exact);
    if e.Some? then Err(e.value)
    else if !CandidatesKnown(p.stream, cands) then Err(InvalidRecord(PreparedMissing))
    else Ok(Progress(Durabilized(p.stream, cands), p.log, p.syncs + if NeedsSync(p.stream, cands) then 1 else 0))
  }

  function FinalizeStep(p: Progress, cands: seq<FinalizeCandidate>, immediate: bool): Result<Progress, StreamError> {
    var e := FinalizeError(p.stream, cands, immediate);
    if e.Some? then Err(e.value)
    else if AlreadyPublished(p.stream, cands) then Ok(p)
    else if cands == [] || !FinalizersKnown(p.stream, cands) then Err(InvalidRecord(PreparedMissing))
    else Ok(Progress(Finalized(p.stream, cands, immediate), p.log + MarkersToStage(p.stream, cands),
                     p.syncs + if immediate then 1 else 0))
  }

  function CheckpointStep(p: Progress): Progress {
    if p.stream.pending == map[] then p else Progress(Synced(p.stream), p.log, p.syncs + 1)
  }

  /** One member on its own: prepare durably, then publish. */
  ghost function CommitOne(p: Progress, m: Member): Result<Progress, StreamError> {
    var staged :- StageStep(p, m);
    if staged.1.None? then Ok(staged.0)
    else
      var durable :- DurabilizeStep(staged.0, [PrepareCandidate(m.txn, m.databaseTxn, staged.1.value)], false);
      FinalizeStep(durable, [FinalizeCandidate(m.txn, staged.1.value, m.commit)], true)
  }

  ghost function CommitEach(p: Progress, ms: seq<Member>): Result<Progress, StreamError> {
    if ms == [] then Ok(p)
    else
      var q :- CommitEach(p, ms[..|ms| - 1]);
      CommitOne(q, ms[|ms| - 1])
  }

  ghost function StageEach(p: Progress, ms: seq<Member>): Result<Progress, StreamError> {
    if ms == [] then Ok(p)
    else
      var q :- StageEach(p, ms[..|ms| - 1]);
      var r :- StageStep(q, ms[|ms| - 1]);
      Ok(r.0)
  }

  /** The whole group: stage every member, one barrier, publish all, and one more
      barrier, either inside the finalize or as a later checkpoint. */
  ghost function CommitTogether(p: Progress, ms: seq<Member>, immediate: bool): Result<Progress, StreamError> {
    var staged :- StageEach(p, ms);
    var durable :- DurabilizeStep(staged, PrepareCandidates(p.stream, ms), true);
    var done :- FinalizeStep(durable, FinalizeCandidates(p.stream, ms), immediate);
    Ok(if immediate then done else CheckpointStep(done))
  }

  // ---------------------------------------------------------------------------
  // What both come to
  // ---------------------------------------------------------------------------

  /** The reservation member `i` gets when `s` has no other. */
  function MemberBatch(s: Stream, ms: seq<Member>, i: nat): Batch
    requires i < |ms| && Current(s) + |ms| <= MAX_U64 && s.nextSequence + |ms| <= MAX_U64
  {
    Batch(s.nextSequence + i, ms[i].txn, ms[i].databaseTxn, s.header.tableId, s.header.storageId, s.header.fingerprint,
          Current(s) + i, Current(s) + i + 1, ms[i].changes)
  }

  function PrepareCandidates(s: Stream, ms: seq<Member>): (cs: seq<PrepareCandidate>)
    ensures |cs| == |ms|
  {
    seq(|ms|, i requires 0 <= i < |ms| => PrepareCandidate(ms[i].txn, ms[i].databaseTxn, Reserved(s, i)))
  }

  function FinalizeCandidates(s: Stream, ms: seq<Member>): (cs: seq<FinalizeCandidate>)
    ensures |cs| == |ms|
  {
    seq(|ms|, i requires 0 <= i < |ms| => FinalizeCandidate(ms[i].txn, Reserved(s, i), ms[i].commit))
  }

  function Reserved(s: Stream, i: nat): PreparedChange {
    if Current(s) + i < MAX_U64 && s.nextSequence + i <= MAX_U64 then
      PreparedChange(s.nextSequence + i, Current(s) + i, Current(s) + i + 1)
    else PreparedChange(0, 0, 0)
  }

  predicate Room(s: Stream, ms: seq<Member>) {
    Current(s) + |ms| <= MAX_U64 && s.nextSequence + |ms| <= MAX_U64
  }

  function Batches(s: Stream, ms: seq<Member>): (bs: seq<Batch>)
    requires Room(s, ms)
    ensures |bs| == |ms|
  {
    seq(|ms|, i requires 0 <= i < |ms| => MemberBatch(s, ms, i))
  }

  function ResolvedBatches(s: Stream, ms: seq<Member>): (bs: seq<Batch>)
    requires Room(s, ms)
    ensures |bs| == |ms|
  {
    seq(|ms|, i requires 0 <= i < |ms| => Resolve(MemberBatch(s, ms, i), ms[i].commit))
  }

  /** A group that can be committed: fresh distinct transactions whose changes the
      encoder takes and whose commits leave no placeholder, and room for it. */
  predicate GroupFits(s: Stream, ms: seq<Member>) {
    && s.unresolved == map[] && Room(s, ms)
    && s.fileBytes + ReservedSize(Batches(s, ms)) <= MAX_U64
    && (forall i, j :: 0 <= i < j < |ms| ==> ms[i].txn != ms[j].txn)
    && (forall i :: 0 <= i < |ms| ==>
          && ms[i].changes != [] && ms[i].txn != 0 && !HasTxn(s.batches, ms[i].txn)
          && EncodeError(MemberBatch(s, ms, i)).None?
          && ValidCommittedBatch(s.header.kind, Resolve(MemberBatch(s, ms, i), ms[i].commit)))
  }

  /** The stream with the whole group published and checkpointed. */
  function Published(s: Stream, ms: seq<Member>): Stream
    requires Room(s, ms)
  {
    s.(fileBytes := s.fileBytes + ReservedSize(Batches(s, ms)),
       batches := s.batches + ResolvedBatches(s, ms),
       batchFileBytes := s.batchFileBytes + SizesOf(ResolvedBatches(s, ms)),
       finalizeVersions := s.finalizeVersions + CommitMap(FinalizeCandidates(s, ms)),
       pending := if ms == [] then s.pending else map[],
       checkpointed := if ms == [] then s.checkpointed else Current(s) + |ms|,
       nextSequence := s.nextSequence + |ms|)
  }

  // ---------------------------------------------------------------------------
  // One member
  // ---------------------------------------------------------------------------

  lemma {:induction false} StageAlone(s: Stream, m: Member)
    requires GroupFits(s, [m])
    ensures var b := MemberBatch(s, [m], 0);
            Stage(s, m.txn, m.databaseTxn, m.changes) == StageResult(AfterStage(s, b), [Prepared(b)], Ok(Some(Identity(b))))
  {
    hide EncodeError, ValidCommittedBatch, RecordSize;
    var b := MemberBatch(s, [m], 0);
    assert Batches(s, [m]) == [] + [b];
    ReservedAppend([], b);
    assert s.unresolved.Keys == {};
  }

  /** The stream between the two barriers of a single commit. */
  function BetweenBarriers(s: Stream, b: Batch): Stream
    requires s.nextSequence < MAX_U64
  {
    Synced(AfterStage(s, b)).(unresolved := map[b.txn := StagedRecord(b, true)])
  }

  lemma {:induction false} DurabilizeAlone(s: Stream, b: Batch, databaseTxn: Option<u64>)
    requires s.unresolved == map[] && s.nextSequence < MAX_U64 && b.databaseTxn == databaseTxn
    ensures var s1, cands := AfterStage(s, b), [PrepareCandidate(b.txn, databaseTxn, Identity(b))];
            && DurabilizeError(s1, cands, false).None? && CandidatesKnown(s1, cands) && NeedsSync(s1, cands)
            && Durabilized(s1, cands) == BetweenBarriers(s, b)
  {
    hide RecordSize;
    var s1, cands := AfterStage(s, b), [PrepareCandidate(b.txn, databaseTxn, Identity(b))];
    NoDurableError(s1, ReservationOrder(s1.unresolved), cands, false, 0);
    assert cands[0].txn in CandidateIds(cands);
    assert MarkDurable(s1.unresolved, CandidateIds(cands)) == map[b.txn := StagedRecord(b, true)];
  }

  /** A durable record alone at the committed frontier is accepted. */
  lemma {:induction false} AloneAccepted(s: Stream, b: Batch, commit: Option<u64>)
    requires s.unresolved == map[b.txn := StagedRecord(b, true)] && b.before == Current(s)
    requires b.txn != 0 && !HasTxn(s.batches, b.txn) && ValidCommittedBatch(s.header.kind, Resolve(b, commit))
    ensures var cands := [FinalizeCandidate(b.txn, Identity(b), commit)];
            && FinalizeError(s, cands, true).None? && !AlreadyPublished(s, cands) && FinalizersKnown(s, cands)
            && MarkersToStage(s, cands) == [Finalize(b.txn, commit)]
  {
    hide RecordSize, Resolve, Current, HasTxn;
    var cands := [FinalizeCandidate(b.txn, Identity(b), commit)];
    NoFinalizeError(s, cands, true, 0);
    assert !HasTxn(s.batches, cands[0].txn);
    assert cands[..0] == [];
  }

  lemma {:induction false} FinalizeAlone(s: Stream, b: Batch, commit: Option<u64>)
    requires s.unresolved == map[] && s.nextSequence < MAX_U64 && b.before == Current(s) && b.after == b.before + 1
    requires b.txn != 0 && !HasTxn(s.batches, b.txn) && ValidCommittedBatch(s.header.kind, Resolve(b, commit))
    ensures var s2, cands := BetweenBarriers(s, b), [FinalizeCandidate(b.txn, Identity(b), commit)];
            && FinalizeError(s2, cands, true).None? && !AlreadyPublished(s2, cands) && FinalizersKnown(s2, cands)
            && MarkersToStage(s2, cands) == [Finalize(b.txn, commit)]
            && Finalized(s2, cands, true) ==
               s.(fileBytes := s.fileBytes + RecordSize(Prepared(b)) + 32,
                  batches := s.batches + [Resolve(b, commit)],
                  batchFileBytes := s.batchFileBytes + [SizeOf(Resolve(b, commit))],
                  finalizeVersions := s.finalizeVersions[b.txn := commit],
                  pending := map[], checkpointed := b.after, nextSequence := s.nextSequence + 1)
  {
    hide RecordSize, Resolve, FinalizeError, AlreadyPublished, MarkersToStage, HasTxn, ValidCommittedBatch;
    var s2, cands := BetweenBarriers(s, b), [FinalizeCandidate(b.txn, Identity(b), commit)];
    assert Current(s2) == Current(s);
    AloneAccepted(s2, b, commit);
    ResolveKeepsRecordSize(b, commit);
    assert Promoted(s2, cands) == [Resolve(b, commit)];
    assert PromotedBytes(s2, cands) == [SizeOf(Resolve(b, commit))];
    assert cands[..0] == [] && CommitMap(cands) == map[b.txn := commit];
    assert FinalizerIds(cands) == {b.txn} by { assert cands[0].txn == b.txn; }
  }

  lemma {:induction false} ResolveKeepsRecordSize(b: Batch, commit: Option<u64>)
    ensures RecordSize(Prepared(Resolve(b, commit))) == RecordSize(Prepared(b))
    ensures Resolve(b, commit).sequence == b.sequence && Resolve(b, commit).after == b.after && Resolve(b, commit).txn == b.txn
  {
    ResolveKeepsSize(b, commit);
  }

  /** A member committed on its own: two records, two syncs. */
  lemma {:induction false} CommitAlone(s: Stream, log: seq<Record>, syncs: nat, m: Member)
    requires GroupFits(s, [m])
    ensures CommitOne(Progress(s, log, syncs), m) ==
            Ok(Progress(Published(s, [m]), log + [Prepared(MemberBatch(s, [m], 0)), Finalize(m.txn, m.commit)], syncs + 2))
  {
    hide EncodeError, ValidCommittedBatch, RecordSize, Stage, Finalized, Durabilized, DurabilizeError, FinalizeError,
         AlreadyPublished, Resolve, NeedsSync, BetweenBarriers, MarkersToStage, ReservedSize, HasTxn;
    var b := MemberBatch(s, [m], 0);
    StageAlone(s, m);
    DurabilizeAlone(s, b, m.databaseTxn);
    FinalizeAlone(s, b, m.commit);
    PublishedAlone(s, m);
    assert log + [Prepared(b)] + [Finalize(m.txn, m.commit)] == log + [Prepared(b), Finalize(m.txn, m.commit)];
  }

  lemma {:induction false} PublishedAlone(s: Stream, m: Member)
    requires Room(s, [m])
    ensures var b := MemberBatch(s, [m], 0);
            Published(s, [m]) ==
            s.(fileBytes := s.fileBytes + RecordSize(Prepared(b)) + 32,
               batches := s.batches + [Resolve(b, m.commit)],
               batchFileBytes := s.batchFileBytes + [SizeOf(Resolve(b, m.commit))],
               finalizeVersions := s.finalizeVersions[b.txn := m.commit],
               pending := map[], checkpointed := b.after, nextSequence := s.nextSequence + 1)
  {
    hide RecordSize, Resolve;
    var b := MemberBatch(s, [m], 0);
    assert Batches(s, [m]) == [] + [b];
    ReservedAppend([], b);
    assert ResolvedBatches(s, [m]) == [Resolve(b, m.commit)];
    var cs := FinalizeCandidates(s, [m]);
    assert cs[..0] == [];
    assert CommitMap(cs) == map[m.txn := m.commit];
  }

  // ---------------------------------------------------------------------------
  // Member after member
  // ---------------------------------------------------------------------------

  /** The records of individual commits: each prepare is followed by its marker. */
  function PairLog(s: Stream, ms: seq<Member>, n: nat): seq<Record>
    requires Room(s, ms) && n <= |ms|
  {
    if n == 0 then [] else PairLog(s, ms, n - 1) + [Prepared(MemberBatch(s, ms, n - 1)), Finalize(ms[n - 1].txn, ms[n - 1].commit)]
  }

  lemma {:induction false} FrontFits(s: Stream, ms: seq<Member>, n: nat)
    requires GroupFits(s, ms) && n <= |ms|
    ensures GroupFits(s, ms[..n]) && Batches(s, ms)[..n] == Batches(s, ms[..n])
    ensures ResolvedBatches(s, ms)[..n] == ResolvedBatches(s, ms[..n])
    ensures FinalizeCandidates(s, ms)[..n] == FinalizeCandidates(s, ms[..n])
    ensures PrepareCandidates(s, ms)[..n] == PrepareCandidates(s, ms[..n])
  {
    hide EncodeError, ValidCommittedBatch, RecordSize, Resolve, HasTxn;
    assert Batches(s, ms)[..n] == Batches(s, ms[..n]);
    ReservedPrefix(Batches(s, ms[..n]), Batches(s, ms));
    forall i | 0 <= i < n ensures MemberBatch(s, ms[..n], i) == MemberBatch(s, ms, i) {}
  }

  lemma {:induction false} PublishedCurrent(s: Stream, ms: seq<Member>)
    requires Room(s, ms)
    ensures Current(Published(s, ms)) == Current(s) + |ms|
  {
    if ms != [] {
      var bs := Published(s, ms).batches;
      assert bs[|bs| - 1] == ResolvedBatches(s, ms)[|ms| - 1];
    }
  }

  /** After the front is published, the last member fits on its own, with the same reservation. */
  lemma {:induction false} LastFits(s: Stream, ms: seq<Member>)
    requires ms != [] && GroupFits(s, ms)
    ensures var n := |ms| - 1;
            var q := Published(s, ms[..n]);
            Room(q, [ms[n]]) && GroupFits(q, [ms[n]]) && MemberBatch(q, [ms[n]], 0) == MemberBatch(s, ms, n)
  {
    hide EncodeError, ValidCommittedBatch, RecordSize, Resolve, Current, ReservedSize, CommitMap, SizesOf, HasTxn;
    var n := |ms| - 1;
    var q, m := Published(s, ms[..n]), ms[n];
    FrontFits(s, ms, n);
    PublishedCurrent(s, ms[..n]);
    var b := MemberBatch(s, ms, n);
    assert MemberBatch(q, [m], 0) == b;
    assert Batches(s, ms) == Batches(s, ms[..n]) + [b];
    ReservedAppend(Batches(s, ms[..n]), b);
    assert Batches(q, [m]) == [b];
    OneReserved(b);
    NewTxn(s, ms);
  }

  /** What the last member adds to each part of the published group. */
  lemma {:induction false} LastAdds(s: Stream, ms: seq<Member>)
    requires ms != [] && GroupFits(s, ms)
    ensures var n := |ms| - 1;
            && Room(s, ms[..n])
            && var b, c := MemberBatch(s, ms, n), ms[n].commit;
               && ReservedSize(Batches(s, ms)) == ReservedSize(Batches(s, ms[..n])) + RecordSize(Prepared(b)) + 32
               && ResolvedBatches(s, ms) == ResolvedBatches(s, ms[..n]) + [Resolve(b, c)]
               && SizesOf(ResolvedBatches(s, ms)) == SizesOf(ResolvedBatches(s, ms[..n])) + [SizeOf(Resolve(b, c))]
               && CommitMap(FinalizeCandidates(s, ms)) == CommitMap(FinalizeCandidates(s, ms[..n]))[b.txn := c]
  {
    hide GroupFits, RecordSize, Resolve, Current, ReservedSize, CommitMap, SizesOf;
    RoomFor(s, ms);
    var n := |ms| - 1;
    FrontFits(s, ms, n);
    var b, m := MemberBatch(s, ms, n), ms[n];
    assert Batches(s, ms) == Batches(s, ms[..n]) + [b];
    ReservedAppend(Batches(s, ms[..n]), b);
    assert ResolvedBatches(s, ms) == ResolvedBatches(s, ms[..n]) + [Resolve(b, m.commit)];
    SizesAppend(ResolvedBatches(s, ms[..n]), Resolve(b, m.commit));
    CommitMapLast(FinalizeCandidates(s, ms));
  }

  /** Publishing the front and then the last is publishing all. */
  lemma {:induction false} PublishedNext(s: Stream, ms: seq<Member>)
    requires ms != [] && GroupFits(s, ms)
    ensures var n := |ms| - 1;
            var q := Published(s, ms[..n]);
            Room(q, [ms[n]]) && Published(q, [ms[n]]) == Published(s, ms)
  {
    hide GroupFits, RecordSize, Resolve, Current, ReservedSize, CommitMap, SizesOf, MemberBatch, Batches,
         ResolvedBatches, FinalizeCandidates;
    RoomFor(s, ms);
    var n := |ms| - 1;
    LastFits(s, ms);
    LastAdds(s, ms);
    MemberEnds(s, ms, n);
    PublishedAlone(Published(s, ms[..n]), ms[n]);
    var front, r := ResolvedBatches(s, ms[..n]), Resolve(MemberBatch(s, ms, n), ms[n].commit);
    Regroup(s.batches, front, r);
    Regroup(s.batchFileBytes, SizesOf(front), SizeOf(r));
    Overwrite(s.finalizeVersions, CommitMap(FinalizeCandidates(s, ms[..n])), ms[n].txn, ms[n].commit);
  }

  lemma MemberEnds(s: Stream, ms: seq<Member>, i: nat)
    requires Room(s, ms) && i < |ms|
    ensures MemberBatch(s, ms, i).after == Current(s) + i + 1 && MemberBatch(s, ms, i).txn == ms[i].txn
  {
  }

  lemma {:induction false} OneReserved(b: Batch)
    ensures ReservedSize([b]) == RecordSize(Prepared(b)) + 32
  {
    assert [b][..0] == [];
  }

  lemma CommitMapLast(cs: seq<FinalizeCandidate>)
    requires cs != []
    ensures CommitMap(cs) == CommitMap(cs[..|cs| - 1])[cs[|cs| - 1].txn := cs[|cs| - 1].commit]
  {
  }

  lemma {:induction false} NewTxn(s: Stream, ms: seq<Member>)
    requires ms != [] && GroupFits(s, ms)
    ensures !HasTxn(Published(s, ms[..|ms| - 1]).batches, ms[|ms| - 1].txn)
  {
    hide EncodeError, ValidCommittedBatch, RecordSize;
    var n := |ms| - 1;
    var more := ResolvedBatches(s, ms[..n]);
    forall i | 0 <= i < |s.batches + more| ensures (s.batches + more)[i].txn != ms[n].txn {
      if i >= |s.batches| { assert more[i - |s.batches|].txn == ms[i - |s.batches|].txn; }
    }
  }

  /** Committing member by member: every call succeeds, two syncs each. */
  lemma {:induction false} EachCommits(s: Stream, log: seq<Record>, ms: seq<Member>)
    requires GroupFits(s, ms)
    ensures CommitEach(Progress(s, log, 0), ms) == Ok(Progress(Published(s, ms), log + PairLog(s, ms, |ms|), 2 * |ms|))
    decreases |ms|
  {
    hide GroupFits, CommitOne, Published, MemberBatch;
    if ms == [] {
      PublishedNothing(s);
      assert log + [] == log;
    } else {
      var n := |ms| - 1;
      FrontFits(s, ms, n);
      RoomFor(s, ms);
      EachCommits(s, log, ms[..n]);
      LastFits(s, ms);
      PublishedNext(s, ms);
      PairFront(s, ms, n);
      CommitAlone(Published(s, ms[..n]), log + PairLog(s, ms, n), 2 * n, ms[n]);
      assert log + PairLog(s, ms, |ms|) == log + PairLog(s, ms, n) + [Prepared(MemberBatch(s, ms, n)), Finalize(ms[n].txn, ms[n].commit)];
    }
  }

  lemma RoomFor(s: Stream, ms: seq<Member>)
    requires GroupFits(s, ms)
    ensures Room(s, ms)
  {
  }

  lemma {:induction false} PublishedNothing(s: Stream)
    requires Room(s, [])
    ensures Published(s, []) == s
  {
    assert Batches(s, []) == [] && ResolvedBatches(s, []) == [] && FinalizeCandidates(s, []) == [];
    assert s.batches + [] == s.batches && s.batchFileBytes + [] == s.batchFileBytes;
  }

  lemma {:induction false} PairFront(s: Stream, ms: seq<Member>, n: nat)
    requires Room(s, ms) && n <= |ms|
    ensures Room(s, ms[..n]) && PairLog(s, ms[..n], n) == PairLog(s, ms, n)
    decreases n
  {
    if n > 0 {
      PairFront(s, ms, n - 1);
      PairFront(s, ms[..n], n - 1);
      assert ms[..n][..n - 1] == ms[..n - 1];
    }
  }

  // ---------------------------------------------------------------------------
  // The group at once
  // ---------------------------------------------------------------------------

  /** The stream with the first `n` members staged and nothing else done. */
  ghost predicate Staged(s: Stream, ms: seq<Member>, n: nat, t: Stream)
    requires Room(s, ms) && n <= |ms|
  {
    && t == s.(fileBytes := t.fileBytes, nextSequence := s.nextSequence + n, unresolved := t.unresolved)
    && t.fileBytes + 32 * n == s.fileBytes + ReservedSize(Batches(s, ms)[..n])
    && UnresolvedInv(t.unresolved, Batches(s, ms)[..n], 0)
  }

  lemma {:induction false} BatchesShape(s: Stream, ms: seq<Member>)
    requires GroupFits(s, ms)
    ensures Ordered(Batches(s, ms)) && Chain(Batches(s, ms), Current(s))
  {
    hide EncodeError, ValidCommittedBatch, RecordSize, HasTxn;
  }

  function StageLog(bs: seq<Batch>): seq<Record> {
    if bs == [] then [] else StageLog(bs[..|bs| - 1]) + [Prepared(bs[|bs| - 1])]
  }

  lemma {:induction false} StageNext(s: Stream, ms: seq<Member>, n: nat, t: Stream)
    requires GroupFits(s, ms) && n < |ms| && Staged(s, ms, n, t)
    ensures var b := MemberBatch(s, ms, n);
            && Stage(t, ms[n].txn, ms[n].databaseTxn, ms[n].changes) == StageResult(AfterStage(t, b), [Prepared(b)], Ok(Some(Identity(b))))
            && Staged(s, ms, n + 1, AfterStage(t, b))
  {
    hide EncodeError, ValidCommittedBatch, RecordSize, HasTxn, UnresolvedInv, ReservedSize, Ordered;
    var all, b := Batches(s, ms), MemberBatch(s, ms, n);
    BatchesShape(s, ms);
    assert Ordered(all[..n]) by { OrderedPrefix(all, n); }
    TailIsLast(t.unresolved, all[..n], 0);
    if n > 0 { ReservationAt(t.unresolved, all[..n], 0, n - 1); }
    NotReserved(t.unresolved, all, n);
    assert all[..n + 1] == all[..n] + [b];
    ReservedAppend(all[..n], b);
    ReservedPrefix(all[..n + 1], all);
    UnresolvedAfterStage(t.unresolved, all[..n], 0, b);
  }

  lemma {:induction false} NotReserved(m: map<u64, PreparedRecord>, all: seq<Batch>, n: nat)
    requires n < |all| && Ordered(all) && UnresolvedInv(m, all[..n], 0)
    ensures all[n].txn !in m && forall i :: 0 <= i < n ==> all[..n][i].txn != all[n].txn
  {
    LaterIsNew(all, n, n);
  }

  lemma {:induction false} StageAll(s: Stream, log: seq<Record>, ms: seq<Member>, n: nat)
    requires GroupFits(s, ms) && n <= |ms|
    ensures var r := StageEach(Progress(s, log, 0), ms[..n]);
            && r.Ok? && Staged(s, ms, n, r.value.stream) && r.value.syncs == 0
            && r.value.log == log + StageLog(Batches(s, ms)[..n])
    decreases n
  {
    hide GroupFits, Staged, Stage, MemberBatch;
    RoomFor(s, ms);
    if n == 0 {
      StagedNothing(s, ms);
      assert Batches(s, ms)[..0] == [] && log + [] == log;
    } else {
      StageAll(s, log, ms, n - 1);
      assert ms[..n][..n - 1] == ms[..n - 1];
      var q := StageEach(Progress(s, log, 0), ms[..n - 1]).value;
      StageNext(s, ms, n - 1, q.stream);
      var bs := Batches(s, ms);
      assert bs[..n][..n - 1] == bs[..n - 1];
      assert q.log + [Prepared(bs[n - 1])] == log + StageLog(bs[..n]);
    }
  }

  lemma {:induction false} StagedNothing(s: Stream, ms: seq<Member>)
    requires GroupFits(s, ms)
    ensures Staged(s, ms, 0, s)
  {
    hide EncodeError, ValidCommittedBatch, RecordSize, HasTxn;
    assert Batches(s, ms)[..0] == [];
    assert s.unresolved.Keys == {};
  }

  /** Every member durably prepared, nothing published yet. */
  ghost predicate Ready(s: Stream, ms: seq<Member>, u: Stream)
    requires Room(s, ms)
  {
    && u.header == s.header && u.batches == s.batches && u.batchFileBytes == s.batchFileBytes && u.finalizeVersions == s.finalizeVersions
    && u.nextSequence == s.nextSequence + |ms| && u.pending == map[]
    && u.fileBytes + 32 * |ms| == s.fileBytes + ReservedSize(Batches(s, ms))
    && u.unresolved.Keys == TxnsOf(Batches(s, ms))
    && Names(u, FinalizeCandidates(s, ms), Batches(s, ms), 0)
  }

  lemma CandidatesMatch(s: Stream, ms: seq<Member>, i: nat)
    requires Room(s, ms) && i < |ms|
    ensures PrepareCandidates(s, ms)[i] == PrepareCandidate(ms[i].txn, ms[i].databaseTxn, Identity(MemberBatch(s, ms, i)))
    ensures FinalizeCandidates(s, ms)[i] == FinalizeCandidate(ms[i].txn, Identity(MemberBatch(s, ms, i)), ms[i].commit)
  {
  }

  /** The barrier takes the whole group. */
  lemma {:induction false} BarrierAccepts(s: Stream, ms: seq<Member>, t: Stream)
    requires ms != [] && GroupFits(s, ms) && Staged(s, ms, |ms|, t)
    ensures var cands := PrepareCandidates(s, ms);
            DurabilizeError(t, cands, true).None? && CandidatesKnown(t, cands) && NeedsSync(t, cands)
  {
    hide EncodeError, ValidCommittedBatch, RecordSize, HasTxn, UnresolvedInv, ReservedSize, Ordered,
         FirstDurableError, ReservationOrder, PrepareCandidates, FinalizeCandidates, Current;
    var all, cands := Batches(s, ms), PrepareCandidates(s, ms);
    BatchesShape(s, ms);
    assert all[..|ms|] == all;
    OrderIsChain(t.unresolved, all, 0);
    var ids := ReservationOrder(t.unresolved);
    assert |t.unresolved| == |t.unresolved.Keys|;
    forall i | 0 <= i < |ms|
      ensures cands[i] == PrepareCandidate(ms[i].txn, ms[i].databaseTxn, Identity(all[i])) && all[i].txn == ms[i].txn
      ensures all[i].txn in t.unresolved && t.unresolved[all[i].txn] == StagedRecord(all[i], false)
    {
      CandidatesMatch(s, ms, i);
      ReservationAt(t.unresolved, all, 0, i);
    }
    NoDurableError(t, ids, cands, true, 0);
    assert !t.unresolved[cands[0].txn].preparedDurable;
  }

  lemma {:induction false} BarrierReadies(s: Stream, ms: seq<Member>, t: Stream)
    requires ms != [] && GroupFits(s, ms) && Staged(s, ms, |ms|, t) && CandidatesKnown(t, PrepareCandidates(s, ms))
    requires NeedsSync(t, PrepareCandidates(s, ms))
    ensures Ready(s, ms, Durabilized(t, PrepareCandidates(s, ms)))
  {
    hide EncodeError, ValidCommittedBatch, RecordSize, HasTxn, ReservedSize, Ordered, PrepareCandidates,
         FinalizeCandidates, NeedsSync, Resolve;
    var all, cands := Batches(s, ms), PrepareCandidates(s, ms);
    assert all[..|ms|] == all;
    var u := Durabilized(t, cands);
    forall i | 0 <= i < |ms|
      ensures FinalizeCandidates(s, ms)[i].txn == all[i].txn && all[i].txn in u.unresolved && u.unresolved[all[i].txn] == StagedRecord(all[i], true)
    {
      CandidatesMatch(s, ms, i);
      ReservationAt(t.unresolved, all, 0, i);
      assert cands[i].txn in CandidateIds(cands);
    }
    assert u.unresolved.Keys == t.unresolved.Keys;
  }

  function MarkLog(ms: seq<Member>): seq<Record> {
    if ms == [] then [] else MarkLog(ms[..|ms| - 1]) + [Finalize(ms[|ms| - 1].txn, ms[|ms| - 1].commit)]
  }

  lemma {:induction false} MarkersAreMarks(u: Stream, cs: seq<FinalizeCandidate>, ms: seq<Member>)
    requires FinalizersKnown(u, cs) && |cs| == |ms|
    requires forall i :: 0 <= i < |cs| ==> cs[i].txn == ms[i].txn && cs[i].commit == ms[i].commit && u.unresolved[cs[i].txn].stagedFinalize.None?
    ensures MarkersToStage(u, cs) == MarkLog(ms) && |MarkLog(ms)| == |ms|
    decreases |ms|
  {
    if ms != [] { MarkersAreMarks(u, cs[..|ms| - 1], ms[..|ms| - 1]); }
  }

  /** Candidate `i` names the durable record of member `i`. */
  lemma {:induction false} CandidateReady(s: Stream, ms: seq<Member>, u: Stream, i: nat)
    requires Room(s, ms) && Ready(s, ms, u) && i < |ms|
    ensures var c, b := FinalizeCandidates(s, ms)[i], MemberBatch(s, ms, i);
            && c == FinalizeCandidate(ms[i].txn, Identity(b), ms[i].commit) && c.txn in u.unresolved
            && u.unresolved[c.txn].batch == b && u.unresolved[c.txn].stagedFinalize.None? && u.unresolved[c.txn].preparedDurable
  {
    hide ReservedSize, FinalizeCandidates, Current, StagedRecord, RecordSize, MemberBatch;
    CandidatesMatch(s, ms, i);
    var b := Batches(s, ms)[i];
    NotStaged(b);
    DurableStaged(b);
  }

  lemma {:induction false} CandidateAccepted(s: Stream, ms: seq<Member>, u: Stream, immediate: bool, i: nat)
    requires GroupFits(s, ms) && Ready(s, ms, u) && i < |ms|
    ensures FinalizeErrorAt(u, FinalizeCandidates(s, ms), immediate, i).None?
  {
    hide EncodeError, ReservedSize, FinalizeCandidates, Resolve, HasTxn, Batches;
    CandidateReady(s, ms, u, i);
    if i > 0 { CandidatesMatch(s, ms, i - 1); }
  }

  lemma {:induction false} GroupAccepted(s: Stream, ms: seq<Member>, u: Stream, immediate: bool)
    requires ms != [] && GroupFits(s, ms) && Ready(s, ms, u)
    ensures var cs := FinalizeCandidates(s, ms);
            && FinalizeError(u, cs, immediate).None? && !AlreadyPublished(u, cs) && FinalizersKnown(u, cs)
            && MarkersToStage(u, cs) == MarkLog(ms) && |MarkLog(ms)| == |ms|
  {
    hide GroupFits, Ready, FinalizeCandidates, FirstFinalizeError, FinalizeErrorAt, MarkersToStage, MarkLog, HasTxn,
         Current;
    RoomFor(s, ms);
    var cs := FinalizeCandidates(s, ms);
    forall i | 0 <= i < |ms|
      ensures cs[i].txn == ms[i].txn && cs[i].commit == ms[i].commit && cs[i].txn in u.unresolved && u.unresolved[cs[i].txn].stagedFinalize.None?
      ensures FinalizeErrorAt(u, cs, immediate, i).None?
    {
      CandidateReady(s, ms, u, i);
      CandidateAccepted(s, ms, u, immediate, i);
    }
    NoFinalizeError(u, cs, immediate, 0);
    MarkersAreMarks(u, cs, ms);
    FirstIsNew(s, ms, u);
  }

  /** The group starts at the committed frontier, with a transaction not published before. */
  lemma {:induction false} FirstIsNew(s: Stream, ms: seq<Member>, u: Stream)
    requires ms != [] && GroupFits(s, ms) && Ready(s, ms, u)
    ensures var cs := FinalizeCandidates(s, ms); cs[0].prepared.before == Current(u) && !HasTxn(u.batches, cs[0].txn)
  {
    hide EncodeError, ReservedSize, ValidCommittedBatch, Resolve, HasTxn, Current;
    CandidatesMatch(s, ms, 0);
    SameCurrent(s, u);
  }

  lemma DurableStaged(b: Batch)
    ensures StagedRecord(b, true).preparedDurable
  {
  }

  lemma SameCurrent(s: Stream, u: Stream)
    requires u.header == s.header && u.batches == s.batches
    ensures Current(u) == Current(s)
  {
  }

  lemma {:induction false} GroupPublishes(s: Stream, ms: seq<Member>, u: Stream)
    requires ms != [] && GroupFits(s, ms) && Ready(s, ms, u) && FinalizersKnown(u, FinalizeCandidates(s, ms))
    requires MarkersToStage(u, FinalizeCandidates(s, ms)) == MarkLog(ms) && |MarkLog(ms)| == |ms|
    ensures Finalized(u, FinalizeCandidates(s, ms), true) == Published(s, ms)
    ensures Current(Finalized(u, FinalizeCandidates(s, ms), false)) == Current(s) + |ms|
  {
    hide EncodeError, RecordSize, ReservedSize, FinalizeCandidates, Resolve, HasTxn, Current, StagedRecord,
         GroupFits, MarkersToStage, MarkLog, CommitMap, SizesOf, TxnsOf, Batches, ResolvedBatches, Promoted,
         PromotedBytes, FinalizerIds, PendingOf;
    RoomFor(s, ms);
    var cs := FinalizeCandidates(s, ms);
    PromotedGroup(s, ms, u);
    CandidatesMatch(s, ms, |ms| - 1);
    MemberEnds(s, ms, |ms| - 1);
    PublishedCurrent(s, ms);
    CurrentFromBatches(Published(s, ms), Finalized(u, cs, false));
    assert u.unresolved - FinalizerIds(cs) == map[];
    EmptyUnresolved(s, ms);
  }

  lemma EmptyUnresolved(s: Stream, ms: seq<Member>)
    requires GroupFits(s, ms)
    ensures s.unresolved == map[]
  {
  }

  lemma CurrentFromBatches(s: Stream, t: Stream)
    requires s.header == t.header && s.batches == t.batches
    ensures Current(s) == Current(t)
  {
  }

  lemma {:induction false} PromotedGroup(s: Stream, ms: seq<Member>, u: Stream)
    requires ms != [] && GroupFits(s, ms) && Ready(s, ms, u) && FinalizersKnown(u, FinalizeCandidates(s, ms))
    ensures Promoted(u, FinalizeCandidates(s, ms)) == ResolvedBatches(s, ms)
    ensures PromotedBytes(u, FinalizeCandidates(s, ms)) == SizesOf(ResolvedBatches(s, ms))
    ensures FinalizerIds(FinalizeCandidates(s, ms)) == TxnsOf(Batches(s, ms))
  {
    hide GroupFits, Ready, Names, Batches, ResolvedBatches, FinalizeCandidates, FinalizersKnown, Promoted,
         PromotedBytes, SizesOf, Resolve, TxnsOf, FinalizerIds, MemberBatch, Current;
    RoomFor(s, ms);
    var cs, all := FinalizeCandidates(s, ms), Batches(s, ms);
    forall i | 0 <= i < |ms|
      ensures cs[i].txn == all[i].txn && ResolvedBatches(s, ms)[i] == Resolve(all[0 + i], cs[i].commit)
    {
      ResolvedAt(s, ms, i);
    }
    ReadyNames(s, ms, u);
    PromotedAre(u, cs, all, 0, ResolvedBatches(s, ms));
    IdsAre(cs, all);
  }

  lemma ReadyNames(s: Stream, ms: seq<Member>, u: Stream)
    requires Room(s, ms) && Ready(s, ms, u)
    ensures Names(u, FinalizeCandidates(s, ms), Batches(s, ms), 0)
  {
  }

  lemma {:induction false} ResolvedAt(s: Stream, ms: seq<Member>, i: nat)
    requires Room(s, ms) && i < |ms|
    ensures FinalizeCandidates(s, ms)[i].txn == Batches(s, ms)[i].txn
    ensures ResolvedBatches(s, ms)[i] == Resolve(Batches(s, ms)[i], FinalizeCandidates(s, ms)[i].commit)
  {
    hide Resolve, Current, FinalizeCandidates;
    CandidatesMatch(s, ms, i);
  }

  /** Committing together: every call succeeds, two syncs in all. */
  lemma {:induction false} TogetherCommits(s: Stream, log: seq<Record>, ms: seq<Member>, immediate: bool)
    requires ms != [] && GroupFits(s, ms)
    ensures CommitTogether(Progress(s, log, 0), ms, immediate) ==
            Ok(Progress(Published(s, ms), log + StageLog(Batches(s, ms)) + MarkLog(ms), 2))
  {
    hide GroupFits, Staged, Ready, StageEach, DurabilizeError, CandidatesKnown, NeedsSync, Durabilized,
         FinalizeError, AlreadyPublished, FinalizersKnown, Finalized, MarkersToStage, PrepareCandidates,
         FinalizeCandidates, Published, StageLog, MarkLog, Current, Batches;
    RoomFor(s, ms);
    StageAll(s, log, ms, |ms|);
    assert ms[..|ms|] == ms && Batches(s, ms)[..|ms|] == Batches(s, ms);
    var t := StageEach(Progress(s, log, 0), ms).value.stream;
    BarrierAccepts(s, ms, t);
    BarrierReadies(s, ms, t);
    var u, cs := Durabilized(t, PrepareCandidates(s, ms)), FinalizeCandidates(s, ms);
    GroupAccepted(s, ms, u, immediate);
    GroupPublishes(s, ms, u);
    if !immediate {
      LastReserved(s, ms);
      ImmediateIsPipelinedThenSync(u, cs);
      StillPending(u, cs);
    }
  }

  lemma LastReserved(s: Stream, ms: seq<Member>)
    requires ms != [] && Room(s, ms)
    ensures FinalizeCandidates(s, ms)[|ms| - 1].prepared.after == Current(s) + |ms|
  {
  }

  lemma {:induction false} StillPending(u: Stream, cs: seq<FinalizeCandidate>)
    requires cs != [] && FinalizersKnown(u, cs)
    ensures Finalized(u, cs, false).pending != map[]
  {
    PendingNonempty(Promoted(u, cs));
    var k :| k in PendingOf(Promoted(u, cs));
    assert k in Finalized(u, cs, false).pending;
  }

  /** Group commit refines individual commit: for every group that fits, staging
      all members, one barrier and one finalize (or a pipelined finalize and one
      checkpoint) end in the identical stream as preparing and publishing the
      members one after the other; with two syncs instead of two per member. */
  lemma {:induction false} GroupRefinesIndividual(s: Stream, log: seq<Record>, ms: seq<Member>, immediate: bool)
    requires ms != [] && GroupFits(s, ms)
    ensures var each, together := CommitEach(Progress(s, log, 0), ms), CommitTogether(Progress(s, log, 0), ms, immediate);
            && each.Ok? && together.Ok? && together.value.stream == each.value.stream
            && together.value.stream.batches == s.batches + ResolvedBatches(s, ms)
            && Current(together.value.stream) == Current(s) + |ms|
            && together.value.syncs == 2 && each.value.syncs == 2 * |ms|
  {
    hide GroupFits, CommitEach, CommitTogether, Current, Batches, ResolvedBatches;
    RoomFor(s, ms);
    EachCommits(s, log, ms);
    TogetherCommits(s, log, ms, immediate);
    PublishedCurrent(s, ms);
  }
}
