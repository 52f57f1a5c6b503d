/** How calls that do not go through are answered: what each refusal says is so, what a
    failing file leaves, and what a stream that is not enabled tells its callers. */
module Answers {
  import opened Wrappers
  import opened Widths
  import opened ChangeTypes
  import opened Codec
  import opened LogFile
  import opened Loading
  import opened LogViews
  import opened StreamSpec
  import opened DiskInvariant
  import opened StreamInvariant
  import opened ProtocolSteps
  import opened ProtocolFinalize
  import opened World
  import opened ManagerSpec
  import opened ManagerRuns
  import opened Meaning

  // ---------------------------------------------------------------------------
  // The check on what is published
  // ---------------------------------------------------------------------------

  /** A committed change passes exactly when every version in it is of the engine and no
      LSM version, old or new, is zero. */
  lemma {:induction false} CommittedCheckIff(c: Change, kind: StorageKind)
    ensures CommittedChangeError(c, kind).None? <==>
            match (c, kind)
            case (Insert(n, _), HeapStorage) => n.HeapKey?
            case (Insert(n, _), LsmStorage) => n.LsmKey? && n.version != 0
            case (Update(o, n, _), HeapStorage) => o.HeapKey? && n.HeapKey?
            case (Update(o, n, _), LsmStorage) => o.LsmKey? && o.version != 0 && n.LsmKey? && n.version != 0
            case (Delete(o), HeapStorage) => o.HeapKey?
            case (Delete(o), LsmStorage) => o.LsmKey? && o.version != 0
    ensures CommittedChangeError(c, kind).Some? ==> PublishFault(c, kind, CommittedChangeError(c, kind).value)
  {
  }

  /** What the error says of a change is so. */
  predicate PublishFault(c: Change, kind: StorageKind, e: StreamError) {
    match e
    case InvalidRecord(ZeroLsmVersion) =>
      || (!c.Insert? && c.oldVersion.LsmKey? && c.oldVersion.version == 0)
      || (!c.Delete? && c.newVersion.LsmKey? && c.newVersion.version == 0)
    case InvalidRecord(KeyKindMismatch) =>
      || (!c.Insert? && c.oldVersion.HeapKey? != kind.HeapStorage?)
      || (!c.Delete? && c.newVersion.HeapKey? != kind.HeapStorage?)
    case _ => false
  }

  lemma {:induction false} CommittedErrorMeans(ms: seq<Change>, kind: StorageKind)
    requires CommittedError(ms, kind).Some?
    ensures exists j :: 0 <= j < |ms| && PublishFault(ms[j], kind, CommittedError(ms, kind).value)
    decreases |ms|
  {
    hide CommittedChangeError, PublishFault;
    if CommittedChangeError(ms[0], kind).Some? {
      CommittedCheckIff(ms[0], kind);
    } else {
      CommittedErrorMeans(ms[1..], kind);
      var j :| 0 <= j < |ms[1..]| && PublishFault(ms[1..][j], kind, CommittedError(ms[1..], kind).value);
      assert ms[j + 1] == ms[1..][j];
    }
  }

  /** Publishing the batch under this commit would leave a version of zero. */
  predicate LeavesPlaceholder(b: Batch, commit: Option<u64>) {
    exists j :: 0 <= j < |b.mutations| && !b.mutations[j].Delete? && b.mutations[j].newVersion.LsmKey? &&
                b.mutations[j].newVersion.version == 0 && (commit.None? || commit.value == 0)
  }

  /** For a batch that loads, leaving a placeholder is the only thing the check can find. */
  lemma {:induction false} PlaceholderIff(h: Header, b: Batch, commit: Option<u64>)
    requires Encodable(h, b)
    ensures CommittedError(Resolve(b, commit).mutations, h.kind) ==
            if LeavesPlaceholder(b, commit) then Some(InvalidRecord(ZeroLsmVersion)) else None
  {
    hide EncoderAccepts, CommittedError;
    var ms := Resolve(b, commit).mutations;
    forall j | 0 <= j < |ms|
      ensures ValidPending(h.kind, ms[j])
      ensures !ValidCommitted(h.kind, ms[j]) <==> !b.mutations[j].Delete? && b.mutations[j].newVersion.LsmKey? &&
                                                  b.mutations[j].newVersion.version == 0 && (commit.None? || commit.value == 0)
    {
      assert ValidPending(h.kind, b.mutations[j]);
    }
    PendingButZero(ms, h.kind);
  }

  lemma {:induction false} PendingButZero(ms: seq<Change>, kind: StorageKind)
    requires forall j :: 0 <= j < |ms| ==> ValidPending(kind, ms[j])
    ensures CommittedError(ms, kind) == None || CommittedError(ms, kind) == Some(InvalidRecord(ZeroLsmVersion))
    ensures CommittedError(ms, kind) == None <==> forall j :: 0 <= j < |ms| ==> ValidCommitted(kind, ms[j])
    decreases |ms|
  {
    hide ValidPending, ValidCommitted;
    if ms != [] {
      assert ValidPending(kind, ms[0]);
      forall j | 0 <= j < |ms[1..]| ensures ValidPending(kind, ms[1..][j]) { assert ms[1..][j] == ms[j + 1]; }
      PendingButZero(ms[1..], kind);
    }
  }

  // ---------------------------------------------------------------------------
  // Finalize
  // ---------------------------------------------------------------------------

  /** The candidates are the oldest reservations, in order and under their identities, and durable. */
  ghost predicate OldestDurable(s: Stream, cands: seq<FinalizeCandidate>) {
    var ids := ReservationOrder(s.unresolved);
    && 0 < |cands| <= |ids|
    && forall i :: 0 <= i < |cands| ==>
         && cands[i].txn == ids[i] && cands[i].prepared == Identity(s.unresolved[ids[i]].batch)
         && s.unresolved[ids[i]].preparedDurable
  }

  /** In every reachable world publishing the oldest durable reservations succeeds exactly
      when no version of zero would be published, and is otherwise refused for one. */
  lemma {:induction false} PublishesUnlessZero(w: World, syncs: nat, cands: seq<FinalizeCandidate>, immediate: bool)
    requires Inv(w) && w.state.Enabled? && OldestDurable(w.state.stream, cands)
    ensures forall i :: 0 <= i < |cands| ==> cands[i].txn in w.state.stream.unresolved
    ensures var m := w.state.stream.unresolved;
            var r := FinalizeCall(ViewOf(w, syncs), cands, immediate, NoFault).1;
            if exists i :: 0 <= i < |cands| && LeavesPlaceholder(m[cands[i].txn].batch, cands[i].commit) then r == Err(InvalidRecord(ZeroLsmVersion))
            else r == Ok(|cands|)
  {
    hide Inv, FinalizeError, MarkersToStage, Finalized, LeavesPlaceholder, OldestDurable;
    var s := w.state.stream;
    SameState(w, syncs);
    OldestAreKnown(s, cands);
    OldestNotPublished(w, cands);
    OldestError(w, cands, immediate);
    if FinalizeError(s, cands, immediate).None? {
      FinalKnown(s, cands, immediate);
      EveryMarker(w, cands);
    }
  }

  lemma {:induction false} OldestAreKnown(s: Stream, cands: seq<FinalizeCandidate>)
    requires OldestDurable(s, cands)
    ensures cands != [] && FinalizersKnown(s, cands)
  {
    hide ReservationOrder;
  }

  /** What the reservations of a reachable world are. */
  lemma {:induction false} OldestFacts(w: World, cands: seq<FinalizeCandidate>, i: nat)
    requires Inv(w) && w.state.Enabled? && OldestDurable(w.state.stream, cands) && i < |cands|
    ensures var s := w.state.stream;
            && cands[i].txn in s.unresolved
            && var r := s.unresolved[cands[i].txn];
               && Encodable(s.header, r.batch) && r.preparedDurable && r.stagedFinalize.None? && cands[i].txn != 0
               && cands[i].prepared == Identity(r.batch) && r.batch.sequence !in s.pending
               && r.batch.before == Current(s) + i && r.batch.after == Current(s) + i + 1
               && !HasTxn(s.batches, cands[i].txn)
  {
    hide DiskInv, StreamInv, PinsInv, PreparedOf, MarkersOf, LiveOf, UnresolvedInv, ReservationOrder, Current, Encodable, HasTxn;
    var s, d := w.state.stream, w.file.disk;
    StreamFacts(s, d, w.truth, w.history);
    InvDisk(w);
    var rest, durable := Rest(s, d, w.truth), |SyncedLive(d, w.truth)| - |s.batches|;
    OrderIsChain(s.unresolved, rest, durable);
    ReservationAt(s.unresolved, rest, durable, i);
    NotPending(s, d, w.truth, w.history, |s.batches| + i);
    LiveLoadableAt(d, w.truth, w.history, |s.batches| + i);
    assert rest[i] == Live(d, w.truth)[|s.batches| + i];
    RestNotPublished(s, d, w.truth, w.history, i);
  }

  lemma InvDisk(w: World)
    requires Inv(w) && w.state.Enabled?
    ensures w.file.Active? && StreamInv(w.state.stream, w.file.disk, w.truth, w.history) && DiskInv(w.file.disk, w.truth, w.history)
    ensures w.state.stream.header == w.file.disk.header
  {
  }

  lemma {:induction false} RestNotPublished(s: Stream, d: Disk, truth: Ledger, history: seq<Batch>, i: nat)
    requires StreamInv(s, d, truth, history) && |s.batches| + i < |Live(d, truth)|
    ensures !HasTxn(s.batches, Live(d, truth)[|s.batches| + i].txn)
  {
    hide PreparedOf, MarkersOf, LiveOf, DiskInv, PublishedInv, UnresolvedInv, Ordered;
    StreamFacts(s, d, truth, history);
    BatchTxns(s, d, truth, history);
    var live := Live(d, truth);
    forall j | 0 <= j < |s.batches| ensures s.batches[j].txn != live[|s.batches| + i].txn { assert s.batches[j].txn == live[j].txn; }
  }

  lemma {:induction false} OldestNotPublished(w: World, cands: seq<FinalizeCandidate>)
    requires Inv(w) && w.state.Enabled? && OldestDurable(w.state.stream, cands)
    ensures cands != [] && !AlreadyPublished(w.state.stream, cands)
  {
    hide Inv, OldestDurable, HasTxn;
    OldestAreKnown(w.state.stream, cands);
    OldestFacts(w, cands, 0);
  }

  lemma {:induction false} OldestErrorAt(w: World, cands: seq<FinalizeCandidate>, immediate: bool, i: nat)
    requires Inv(w) && w.state.Enabled? && OldestDurable(w.state.stream, cands) && i < |cands| && cands[i].txn in w.state.stream.unresolved
    ensures FinalizeErrorAt(w.state.stream, cands, immediate, i) ==
            if LeavesPlaceholder(w.state.stream.unresolved[cands[i].txn].batch, cands[i].commit) then Some(InvalidRecord(ZeroLsmVersion)) else None
  {
    hide Inv, OldestDurable, HasTxn, Encodable, LeavesPlaceholder, Current, CommittedError, Resolve;
    var s := w.state.stream;
    OldestFacts(w, cands, i);
    if i > 0 { OldestFacts(w, cands, i - 1); }
    PlaceholderIff(s.header, s.unresolved[cands[i].txn].batch, cands[i].commit);
  }

  lemma {:induction false} OldestError(w: World, cands: seq<FinalizeCandidate>, immediate: bool)
    requires Inv(w) && w.state.Enabled? && OldestDurable(w.state.stream, cands) && cands != []
    requires FinalizersKnown(w.state.stream, cands) && !AlreadyPublished(w.state.stream, cands)
    ensures FinalizeError(w.state.stream, cands, immediate) ==
            if exists i :: 0 <= i < |cands| && LeavesPlaceholder(w.state.stream.unresolved[cands[i].txn].batch, cands[i].commit)
            then Some(InvalidRecord(ZeroLsmVersion)) else None
  {
    hide Inv, OldestDurable, FinalizeErrorAt, LeavesPlaceholder, HasTxn, Encodable, Current;
    OldestFacts(w, cands, 0);
    OldestFrom(w, cands, immediate, 0);
  }

  lemma {:induction false} OldestFrom(w: World, cands: seq<FinalizeCandidate>, immediate: bool, k: nat)
    requires Inv(w) && w.state.Enabled? && OldestDurable(w.state.stream, cands) && k <= |cands| && FinalizersKnown(w.state.stream, cands)
    ensures FirstFinalizeError(w.state.stream, cands, immediate, k) ==
            if exists i :: k <= i < |cands| && LeavesPlaceholder(w.state.stream.unresolved[cands[i].txn].batch, cands[i].commit)
            then Some(InvalidRecord(ZeroLsmVersion)) else None
    decreases |cands| - k
  {
    hide Inv, OldestDurable, FinalizeErrorAt, LeavesPlaceholder;
    if k < |cands| {
      OldestErrorAt(w, cands, immediate, k);
      OldestFrom(w, cands, immediate, k + 1);
    }
  }

  /** What a refusal of finalize says of the candidates is so, in any stream. */
  ghost predicate FinalizeFaultIs(s: Stream, cands: seq<FinalizeCandidate>, immediate: bool, e: StreamError) {
    || (cands == [] && e == InvalidRecord(EmptyFinalizeBatch))
    || (cands != [] && cands[0].prepared.before != Current(s) && e == ChangeGap(Current(s), cands[0].prepared.before))
    || (exists i :: 0 <= i < |cands| && CandidateFault(s, cands, immediate, i, e))
  }

  /** What the error says of candidate `i` is so. */
  ghost predicate CandidateFault(s: Stream, cands: seq<FinalizeCandidate>, immediate: bool, i: nat, e: StreamError)
    requires i < |cands|
  {
    var c := cands[i];
    match e
    case ChangeGap(expected, actual) =>
      i > 0 && cands[i - 1].prepared.after == expected && c.prepared.before == actual && expected != actual
    case InvalidRecord(fault) =>
      if fault.PreparedMissing? then c.txn !in s.unresolved
      else if fault.ZeroTransaction? then c.txn == 0
      else
        && c.txn in s.unresolved
        && var r := s.unresolved[c.txn];
           if fault.DuplicateCheckpoint? then !immediate && c.prepared.sequence in s.pending
           else if fault.PreparedChanged? then Identity(r.batch) != c.prepared || !r.preparedDurable
           else if fault.FinalizeChanged? then r.stagedFinalize.Some? && r.stagedFinalize.value != c.commit
           else VersionFault(r.batch, c.commit, s.header.kind, e)
    case _ => false
  }

  /** Some change, as it would be published, has the fault. */
  ghost predicate VersionFault(b: Batch, commit: Option<u64>, kind: StorageKind, e: StreamError) {
    exists j :: 0 <= j < |b.mutations| && exists published :: ChangePublishedAs(b.mutations[j], commit, published) && PublishFault(published, kind, e)
  }

  lemma {:induction false} VersionFaultIs(b: Batch, commit: Option<u64>, kind: StorageKind)
    requires CommittedError(Resolve(b, commit).mutations, kind).Some?
    ensures VersionFault(b, commit, kind, CommittedError(Resolve(b, commit).mutations, kind).value)
    ensures var e := CommittedError(Resolve(b, commit).mutations, kind).value; e == InvalidRecord(ZeroLsmVersion) || e == InvalidRecord(KeyKindMismatch)
  {
    hide CommittedError, PublishFault, ChangePublishedAs;
    var ms := Resolve(b, commit).mutations;
    CommittedErrorMeans(ms, kind);
    var j :| 0 <= j < |ms| && PublishFault(ms[j], kind, CommittedError(ms, kind).value);
    ResolvePublishes(b, commit, Resolve(b, commit));
    assert ChangePublishedAs(b.mutations[j], commit, ms[j]);
    OnlyFaults(ms[j], kind, CommittedError(ms, kind).value);
  }

  lemma OnlyFaults(c: Change, kind: StorageKind, e: StreamError)
    requires PublishFault(c, kind, e)
    ensures e == InvalidRecord(ZeroLsmVersion) || e == InvalidRecord(KeyKindMismatch)
  {
  }

  lemma {:induction false} FinalizeFaultAt(s: Stream, cands: seq<FinalizeCandidate>, immediate: bool, i: nat)
    requires i < |cands| && FinalizeErrorAt(s, cands, immediate, i).Some?
    ensures CandidateFault(s, cands, immediate, i, FinalizeErrorAt(s, cands, immediate, i).value)
  {
    hide CommittedError, Resolve, VersionFault;
    var c := cands[i];
    if c.txn in s.unresolved && CommittedError(Resolve(s.unresolved[c.txn].batch, c.commit).mutations, s.header.kind).Some? {
      VersionFaultIs(s.unresolved[c.txn].batch, c.commit, s.header.kind);
    }
  }

  lemma {:induction false} FinalizeFaultFrom(s: Stream, cands: seq<FinalizeCandidate>, immediate: bool, i: nat)
    requires i <= |cands| && FirstFinalizeError(s, cands, immediate, i).Some?
    ensures FinalizeFaultIs(s, cands, immediate, FirstFinalizeError(s, cands, immediate, i).value)
    decreases |cands| - i
  {
    hide FinalizeErrorAt, CandidateFault;
    if FinalizeErrorAt(s, cands, immediate, i).Some? { FinalizeFaultAt(s, cands, immediate, i); } else { FinalizeFaultFrom(s, cands, immediate, i + 1); }
  }

  /** The candidates continue the stream, each names a durable reservation under its whole
      identity, whose marker, if it has one, is of the same commit, and which the commit
      leaves without a placeholder. */
  ghost predicate Finalizable(s: Stream, cands: seq<FinalizeCandidate>, immediate: bool) {
    && cands != [] && cands[0].prepared.before == Current(s)
    && forall i :: 0 <= i < |cands| ==>
         && (i > 0 ==> cands[i - 1].prepared.after == cands[i].prepared.before)
         && FinalizableAs(s, cands[i], immediate)
  }

  ghost predicate FinalizableAs(s: Stream, c: FinalizeCandidate, immediate: bool) {
    && c.txn in s.unresolved && c.txn != 0
    && (!immediate ==> c.prepared.sequence !in s.pending)
    && var r := s.unresolved[c.txn];
       && Identity(r.batch) == c.prepared && r.preparedDurable
       && (r.stagedFinalize.Some? ==> r.stagedFinalize.value == c.commit)
       && forall b :: PublishedAs(r.batch, c.commit, b) ==> ValidCommittedBatch(s.header.kind, b)
  }

  lemma {:induction false} FinalizableAt(s: Stream, cands: seq<FinalizeCandidate>, immediate: bool, i: nat)
    requires i < |cands|
    ensures FinalizeErrorAt(s, cands, immediate, i).None? <==>
            (i > 0 ==> cands[i - 1].prepared.after == cands[i].prepared.before) && FinalizableAs(s, cands[i], immediate)
  {
    hide Resolve, PublishedAs, ValidCommittedBatch, ValidCommitted;
    var c := cands[i];
    if c.txn in s.unresolved {
      var staged := s.unresolved[c.txn].batch;
      var b := Resolve(staged, c.commit);
      forall p ensures PublishedAs(staged, c.commit, p) <==> p == b { ResolvePublishes(staged, c.commit, p); }
      CommittedIff(s.header.kind, b);
    }
  }

  lemma {:induction false} FinalizableFrom(s: Stream, cands: seq<FinalizeCandidate>, immediate: bool, i: nat)
    requires i <= |cands|
    ensures FirstFinalizeError(s, cands, immediate, i).None? <==>
            forall k :: i <= k < |cands| ==>
              (k > 0 ==> cands[k - 1].prepared.after == cands[k].prepared.before) && FinalizableAs(s, cands[k], immediate)
    decreases |cands| - i
  {
    hide FinalizeErrorAt, FinalizableAs;
    if i < |cands| {
      FinalizableAt(s, cands, immediate, i);
      FinalizableFrom(s, cands, immediate, i + 1);
    }
  }

  /** The check on the candidates of a finalize passes exactly for these, in any stream,
      and what it finds in others is so. */
  lemma {:induction false} FinalizeCheckIff(s: Stream, cands: seq<FinalizeCandidate>, immediate: bool)
    requires cands != [] && !AlreadyPublished(s, cands)
    ensures var e := FinalizeError(s, cands, immediate);
            && (e.None? <==> Finalizable(s, cands, immediate))
            && (e.Some? ==> FinalizeFaultIs(s, cands, immediate, e.value))
  {
    hide FinalizeErrorAt, FirstFinalizeError, FinalizableAs, AlreadyPublished;
    FinalizableFrom(s, cands, immediate, 0);
    if cands[0].prepared.before == Current(s) && FirstFinalizeError(s, cands, immediate, 0).Some? {
      hide FinalizeFaultIs;
      FinalizeFaultFrom(s, cands, immediate, 0);
    }
  }

  /** A finalize that is refused changes nothing, and what it says is so. */
  lemma {:induction false} FinalizeRefusedAs(v: View, cands: seq<FinalizeCandidate>, immediate: bool, fault: FinalizeFault)
    requires v.state.Enabled?
    ensures var (v', r) := FinalizeCall(v, cands, immediate, fault);
            r.Err? && r.error != Io ==> v' == v && FinalizeFaultIs(v.state.stream, cands, immediate, r.error)
  {
    hide FinalizeErrorAt, FirstFinalizeError, AlreadyPublished, MarkersToStage, Finalized, FinalizersKnown;
    var s := v.state.stream;
    if cands != [] && FinalizeError(s, cands, immediate).Some? && cands[0].prepared.before == Current(s) {
      hide FinalizeFaultIs;
      FinalizeFaultFrom(s, cands, immediate, 0);
    }
  }

  // ---------------------------------------------------------------------------
  // The barrier
  // ---------------------------------------------------------------------------

  /** What a refusal of a barrier says of the candidates is so. */
  ghost predicate BarrierFaultIs(s: Stream, cands: seq<PrepareCandidate>, exact: bool, e: StreamError) {
    || (cands == [] && e == InvalidRecord(EmptyDurabilityBatch))
    || (exact && |s.unresolved| < |cands| && e == InvalidRecord(NotUnresolvedPrefix))
    || (exists i :: 0 <= i < |cands| && PrepareFault(s, cands, exact, i, e))
  }

  ghost predicate PrepareFault(s: Stream, cands: seq<PrepareCandidate>, exact: bool, i: nat, e: StreamError)
    requires i < |cands|
  {
    match e
    case ChangeGap(expected, actual) =>
      i > 0 && cands[i - 1].prepared.after == expected && cands[i].prepared.before == actual && expected != actual
    case InvalidRecord(fault) =>
      || (fault.PreparedMissing? && !exact && cands[i].txn !in s.unresolved)
      || (fault.NotExactPrefix? && !NamedAt(s, cands, exact, i))
    case _ => false
  }

  /** Candidate `i` is a reservation under its whole identity, and in a group the one whose turn it is. */
  ghost predicate NamedAt(s: Stream, cands: seq<PrepareCandidate>, exact: bool, i: nat)
    requires i < |cands|
  {
    && cands[i].txn in s.unresolved
    && s.unresolved[cands[i].txn].batch.databaseTxn == cands[i].databaseTxn && Identity(s.unresolved[cands[i].txn].batch) == cands[i].prepared
    && (exact ==> i < |ReservationOrder(s.unresolved)| && ReservationOrder(s.unresolved)[i] == cands[i].txn)
  }

  lemma {:induction false} BarrierFaultAt(s: Stream, cands: seq<PrepareCandidate>, exact: bool, i: nat)
    requires i < |cands| && (exact ==> |cands| <= |ReservationOrder(s.unresolved)|) && Reserved(s.unresolved)
    requires DurableErrorAt(s, ReservationOrder(s.unresolved), cands, exact, i).Some?
    ensures PrepareFault(s, cands, exact, i, DurableErrorAt(s, ReservationOrder(s.unresolved), cands, exact, i).value)
  {
    var ids := ReservationOrder(s.unresolved);
    if exact { assert ids[i] in s.unresolved; }
    if DurableErrorAt(s, ids, cands, exact, i) == Some(InvalidRecord(NotExactPrefix)) { assert !NamedAt(s, cands, exact, i); }
  }

  lemma {:induction false} BarrierFaultFrom(s: Stream, cands: seq<PrepareCandidate>, exact: bool, i: nat)
    requires i <= |cands| && (exact ==> |cands| <= |ReservationOrder(s.unresolved)|) && Reserved(s.unresolved)
    requires FirstDurableError(s, ReservationOrder(s.unresolved), cands, exact, i).Some?
    ensures BarrierFaultIs(s, cands, exact, FirstDurableError(s, ReservationOrder(s.unresolved), cands, exact, i).value)
    decreases |cands| - i
  {
    hide DurableErrorAt, PrepareFault, ReservationOrder, Reserved;
    if DurableErrorAt(s, ReservationOrder(s.unresolved), cands, exact, i).Some? {
      BarrierFaultAt(s, cands, exact, i);
    } else {
      BarrierFaultFrom(s, cands, exact, i + 1);
    }
  }

  /** A barrier that is refused changes nothing, and what it says is so. */
  lemma {:induction false} BarrierRefusedAs(v: View, cands: seq<PrepareCandidate>, exact: bool, syncing: bool)
    requires v.state.Enabled? && Reserved(v.state.stream.unresolved)
    ensures var (v', r) := DurabilizeCall(v, cands, exact, syncing);
            r.Err? && r.error != Io ==> v' == v && BarrierFaultIs(v.state.stream, cands, exact, r.error)
  {
    hide DurableErrorAt, FirstDurableError, ReservationOrder, NeedsSync, Reserved;
    var s := v.state.stream;
    assert |s.unresolved| == |s.unresolved.Keys|;
    if cands != [] && !(exact && |s.unresolved| < |cands|) && DurabilizeError(s, cands, exact).Some? {
      BarrierFaultFrom(s, cands, exact, 0);
    }
  }

  // ---------------------------------------------------------------------------
  // Stage
  // ---------------------------------------------------------------------------

  /** In every reachable world a transaction without a reservation is refused for want of
      a frontier or a sequence, as its record is by the encoder, or for want of bytes. */
  lemma {:induction false} StageRefusedAs(crc: Checksum, w: World, syncs: nat, txn: u64, databaseTxn: Option<u64>, changes: seq<Change>)
    requires Inv(w) && w.state.Enabled? && changes != [] && txn !in w.state.stream.unresolved
    ensures var s, before := w.state.stream, Current(w.state.stream) + |w.state.stream.unresolved|;
            var (v', r) := StageCall(ViewOf(w, syncs), txn, databaseTxn, changes, Appended);
            && (r.Err? ==> v' == ViewOf(w, syncs))
            && if before >= MAX_U64 || s.nextSequence == MAX_U64 then r == Err(VersionExhausted)
               else
                 var b := Batch(s.nextSequence, txn, databaseTxn, s.header.tableId, s.header.storageId, s.header.fingerprint, before, before + 1, changes);
                 match EncodeRecord(crc, b)
                 case Err(e) => r == Err(e)
                 case Ok(bytes) =>
                   if s.fileBytes + |bytes| > MAX_U64 then r == Err(RecordTooLarge(MAX_U64))
                   else r == Ok(Some(PreparedChange(s.nextSequence, before, before + 1))) && v'.log == ViewOf(w, syncs).log + [Prepared(b)]
  {
    hide Inv, Current, IsTail, EncodeError, PayloadSize, Payload;
    SameState(w, syncs);
    ReservedIs(w);
  }

  // ---------------------------------------------------------------------------
  // A failing file
  // ---------------------------------------------------------------------------

  /** The stream is unavailable under its generation; nothing is lost from the file, and
      nothing else is touched. */
  predicate Poisons(v: View, v': View) {
    && v.state.Enabled? && v'.state == Unavailable(Some(v.state.stream.header.generation))
    && v.log <= v'.log && v' == v.(state := v'.state, log := v'.log)
  }

  /** A stage that would write, and cannot: the record is in the file or not. */
  lemma {:induction false} FailedStagePoisons(v: View, txn: u64, databaseTxn: Option<u64>, changes: seq<Change>, persisted: bool)
    ensures var done, failed := StageCall(v, txn, databaseTxn, changes, Appended), StageCall(v, txn, databaseTxn, changes, AppendFailed(persisted));
            if done.0 == v then failed == done
            else failed.1 == Err(Io) && Poisons(v, failed.0) && failed.0.log == if persisted then done.0.log else v.log
  {
    hide EncodeError, RecordSize, IsTail;
    if v.state.Enabled? {
      var appended := StreamSpec.Stage(v.state.stream, txn, databaseTxn, changes).appended;
      assert appended != [] ==> |v.log + appended| > |v.log|;
    }
  }

  /** A barrier or a checkpoint that would sync, and cannot. */
  lemma {:induction false} FailedSyncPoisons(v: View, cands: seq<PrepareCandidate>, exact: bool)
    requires v.state.Enabled? ==> Reserved(v.state.stream.unresolved)
    ensures var done, failed := DurabilizeCall(v, cands, exact, true), DurabilizeCall(v, cands, exact, false);
            if done.1 == Ok(1) then failed.1 == Err(Io) && Poisons(v, failed.0) && failed.0.log == v.log else failed == done
    ensures var done, failed := CheckpointCall(v, true), CheckpointCall(v, false);
            if done.1 == Ok(1) then failed.1 == Err(Io) && Poisons(v, failed.0) && failed.0.log == v.log else failed == done
  {
    hide DurabilizeError, NeedsSync, Durabilized, Reserved;
  }

  /** A finalize that would write, and cannot: the markers up to the fault are in the file. */
  lemma {:induction false} FailedFinalizePoisons(v: View, cands: seq<FinalizeCandidate>, immediate: bool, at: nat, persisted: bool)
    ensures var done := FinalizeCall(v, cands, immediate, NoFault);
            var failed, unsynced := FinalizeCall(v, cands, immediate, MarkerFails(at, persisted)), FinalizeCall(v, cands, immediate, SyncFails);
            && v.log <= done.0.log
            && (if at < |done.0.log| - |v.log| then
                  && failed.1 == Err(Io) && Poisons(v, failed.0)
                  && failed.0.log == done.0.log[..|v.log| + at + if persisted then 1 else 0]
                else failed == done)
            && (if immediate && done.0 != v then unsynced.1 == Err(Io) && Poisons(v, unsynced.0) && unsynced.0.log == done.0.log
                else unsynced == done)
  {
    hide FinalizeError, AlreadyPublished, MarkersToStage, Promoted, PromotedBytes, CommitMap, PendingOf, FinalizerIds, FinalizersKnown;
    if v.state.Enabled? && cands != [] && FinalizeError(v.state.stream, cands, immediate).None? && !AlreadyPublished(v.state.stream, cands) {
      FinalKnown(v.state.stream, cands, immediate);
      var markers := MarkersToStage(v.state.stream, cands);
      var log := v.log + markers;
      assert log[..|v.log|] == v.log;
      forall k | 0 <= k <= |markers| ensures log[..|v.log| + k] == v.log + markers[..k] {}
    }
  }

  // ---------------------------------------------------------------------------
  // A stream that is not enabled
  // ---------------------------------------------------------------------------

  /** A disabled stream takes no changes and says so to readers; an unavailable one says
      so to everybody, except that it has nothing to checkpoint or to abandon. */
  lemma {:induction false} NotEnabledAnswers(v: View, c: Cursor, pin: Pin, frontier: u64, n: nat, bytes: u64, txn: u64, changes: seq<Change>,
                                             append: Append, prepares: seq<PrepareCandidate>, cands: seq<FinalizeCandidate>, flag: bool, fault: FinalizeFault)
    requires !v.state.Enabled?
    ensures var e := if v.state.Disabled? then StreamDisabled else StreamUnavailable;
            ReadCall(v, c, n, bytes) == Err(e) && AcquireCall(v, c) == (v, Err(e)) && GcCall(v, frontier, flag) == (v, Err(e))
    ensures AdvanceCall(v, pin, frontier) ==
            (v, Err(if frontier < pin.entry.frontier then RetentionPinRegression(pin.entry.frontier, frontier) else StreamIdentityMismatch))
    ensures StageCall(v, txn, None, changes, append) == (v, if changes == [] || v.state.Disabled? then Ok(None) else Err(StreamUnavailable))
    ensures prepares != [] ==> DurabilizeCall(v, prepares, flag, flag) == (v, Err(StreamUnavailable))
    ensures cands != [] ==> FinalizeCall(v, cands, flag, fault) == (v, Err(StreamUnavailable))
    ensures CheckpointCall(v, flag) == (v, Ok(0)) && AbandonCall(v, txn) == (v, Ok(false))
  {
  }

  // ---------------------------------------------------------------------------
  // Incarnations
  // ---------------------------------------------------------------------------

  /** What enabling comes to, in any state: an enabled stream answers where it stands, the
      last generation has no successor, and otherwise the next one begins at the baseline,
      with nothing in it and the first sequence still to give. */
  lemma {:induction false} EnableMeans(v: View, kind: StorageKind, storageId: u64, tableId: u64, fingerprint: Fingerprint, baseline: u64, replace: Replace)
    ensures var (v', r) := EnableCall(v, kind, storageId, tableId, fingerprint, baseline, replace);
            && v'.pins == v.pins && v'.syncs == v.syncs
            && if v.state.Enabled? then
                 v' == v && r == Ok(Cursor(v.state.stream.header.storageId, v.state.stream.header.generation, Current(v.state.stream)))
               else if PriorGeneration(v.state) == MAX_U64 then v' == v && r == Err(VersionExhausted)
               else if replace.ReplaceFailed? then r == Err(Io) && v'.state == Unavailable(Some(PriorGeneration(v.state) + 1))
               else
                 && r == Ok(Cursor(storageId, PriorGeneration(v.state) + 1, baseline))
                 && v'.state.Enabled? && v'.log == [] && v'.synced == 0 && v'.guard == Some(PriorGeneration(v.state) + 1)
                 && var s := v'.state.stream;
                    && s.batches == [] && s.unresolved == map[] && s.pending == map[] && s.nextSequence == 1
                    && Current(s) == s.checkpointed == baseline && s.fileBytes == 104 && v'.head == ActiveLog(s.header)
                    && s.header.version == 2 && s.header.active && s.header.kind == kind && s.header.storageId == storageId
                    && s.header.tableId == tableId && s.header.fingerprint == fingerprint && s.header.generation == PriorGeneration(v.state) + 1
                    && s.header.origin == s.header.earliest == s.header.current == baseline && s.header.nextSequence == 1
  {
  }

  /** Disabling leaves an inactive log of the same generation and no guard, and the next
      enable, for whatever storage, takes the generation after it; pins are not touched. */
  lemma {:induction false} DisableMeans(v: View, replace: Replace, kind: StorageKind, storageId: u64, tableId: u64, fingerprint: Fingerprint, baseline: u64)
    ensures var (v', r) := DisableCall(v, replace);
            && v'.pins == v.pins && v'.syncs == v.syncs
            && (r == Ok(false) <==> v.state.Disabled?)
            && (r == Ok(true) <==> !v.state.Disabled? && replace.Replaced?)
            && (v.state.Disabled? || replace == ReplaceFailed(NothingWritten) ==> v' == v)
            && (!v.state.Disabled? && replace != ReplaceFailed(NothingWritten) ==>
                  var g := PriorGeneration(v.state);
                  && v'.state == Disabled(g) && v'.head == InactiveLog(g) && v'.log == []
                  && v'.guard == (if replace == ReplaceFailed(HeaderWritten) then v.guard else None)
                  && (g < MAX_U64 ==> EnableCall(v', kind, storageId, tableId, fingerprint, baseline, Replaced).1 == Ok(Cursor(storageId, g + 1, baseline))))
  {
  }
}
