/** Every step of the protocol keeps the stream invariant. */
module ProtocolSteps {
  import opened Wrappers
  import opened Widths
  import opened ChangeTypes
  import opened Codec
  import opened LogFile
  import opened Loading
  import opened LogViews
  import opened StreamSpec
  import opened DiskInvariant
  import opened StreamInvariant
  import opened RecoveryProof

  // ---------------------------------------------------------------------------
  // Shape of a reachable stream
  // ---------------------------------------------------------------------------

  /** The reservations not published yet. */
  function Rest(s: Stream, d: Disk, truth: Ledger): seq<Batch>
    requires |s.batches| <= |Live(d, truth)|
  {
    Live(d, truth)[|s.batches|..]
  }

  /** The plain facts of the invariant, for proofs that do not need its parts. */
  lemma {:induction false} StreamFacts(s: Stream, d: Disk, truth: Ledger, history: seq<Batch>)
    requires StreamInv(s, d, truth, history)
    ensures HistoryFits(d.header, history) && d.synced <= |d.log|
    ensures |s.batches| <= |Unreclaimed(d.header, history)| <= |Live(d, truth)|
    ensures |Unreclaimed(d.header, history)| <= |SyncedLive(d, truth)| <= |Live(d, truth)|
    ensures Current(s) == d.header.earliest + |s.batches|
    ensures Chain(s.batches, d.header.earliest) && Chain(Rest(s, d, truth), Current(s))
    ensures Ordered(Rest(s, d, truth)) && Ordered(Live(d, truth))
    ensures s.batches <= Unreclaimed(d.header, history)
    ensures UnresolvedInv(s.unresolved, Rest(s, d, truth), |SyncedLive(d, truth)| - |s.batches|)
  {
    hide PreparedOf, MarkersOf, LiveOf, UnresolvedInv, DiskInv, Ordered, Chain, HistoryFits;
    DiskFacts(d, truth, history);
    HistoryChain(d.header, history);
    CurrentIs(s, truth, Unreclaimed(d.header, history));
    RestFacts(Live(d, truth), |s.batches|, d.header.earliest);
  }

  lemma {:induction false} DiskFacts(d: Disk, truth: Ledger, history: seq<Batch>)
    requires DiskInv(d, truth, history)
    ensures HistoryFits(d.header, history) && d.synced <= |d.log|
    ensures |MarkersOf(d.log)| <= |Unreclaimed(d.header, history)| <= |SyncedLive(d, truth)| <= |Live(d, truth)|
    ensures Chain(Live(d, truth), d.header.earliest) && Ordered(Live(d, truth))
  {
    hide PreparedOf, MarkersOf, LiveOf;
    LiveOrdered(PreparedOf(d.log), truth);
    ViewsPrefix(d.log, d.synced);
    LivePrefix(PreparedOf(d.log[..d.synced]), PreparedOf(d.log), truth);
  }

  lemma RestFacts(live: seq<Batch>, m: nat, earliest: int)
    requires Ordered(live) && Chain(live, earliest) && m <= |live|
    ensures Ordered(live[m..]) && Chain(live[m..], earliest + m)
  {
  }

  /** An unresolved transaction is one of the reservations. */
  lemma {:induction false} ReservationOf(m: map<u64, PreparedRecord>, rest: seq<Batch>, durable: int,
                                         t: u64) returns (i: nat)
    requires UnresolvedInv(m, rest, durable) && t in m
    ensures i < |rest| && rest[i].txn == t && m[t] == StagedRecord(rest[i], m[t].preparedDurable)
    ensures m[t].preparedDurable ==> i < durable
  {
    assert t in TxnsOf(rest);
    i :| 0 <= i < |rest| && rest[i].txn == t;
    assert UnresolvedAt(m, rest[i], i < durable);
  }

  lemma {:induction false} ReservationAt(m: map<u64, PreparedRecord>, rest: seq<Batch>, durable: int, i: nat)
    requires UnresolvedInv(m, rest, durable) && i < |rest|
    ensures rest[i].txn in m && m[rest[i].txn] == StagedRecord(rest[i], m[rest[i].txn].preparedDurable)
    ensures m[rest[i].txn].preparedDurable ==> i < durable
  {
    assert UnresolvedAt(m, rest[i], i < durable);
  }

  /** The newest reservation is the last of the chain. */
  lemma {:induction false} TailIsLast(m: map<u64, PreparedRecord>, rest: seq<Batch>, durable: int)
    requires UnresolvedInv(m, rest, durable) && Ordered(rest)
    ensures m.Keys == {} <==> rest == []
    ensures rest != [] ==> Tail(m) == rest[|rest| - 1].txn
  {
    if rest == [] {
      assert TxnsOf(rest) == {};
    } else {
      var n := |rest| - 1;
      ReservationAt(m, rest, durable, n);
      var t := Tail(m);
      var i := ReservationOf(m, rest, durable, t);
    }
  }

  /** Reservation order is the chain. */
  lemma {:induction false} OrderIsChain(m: map<u64, PreparedRecord>, rest: seq<Batch>, durable: int)
    requires UnresolvedInv(m, rest, durable) && Ordered(rest)
    ensures |ReservationOrder(m)| == |rest| == |m.Keys|
    ensures forall i :: 0 <= i < |rest| ==> ReservationOrder(m)[i] == rest[i].txn
    decreases |rest|
  {
    hide UnresolvedInv, IsTail;
    TailIsLast(m, rest, durable);
    if rest != [] {
      var n := |rest| - 1;
      var t := rest[n].txn;
      UnresolvedWithout(m, rest, durable);
      OrderIsChain(m - {t}, rest[..n], durable);
      ReservationAt(m, rest, durable, n);
      assert (m - {t}).Keys == m.Keys - {t};
    }
  }

  lemma {:induction false} UnresolvedWithout(m: map<u64, PreparedRecord>, rest: seq<Batch>, durable: int)
    requires UnresolvedInv(m, rest, durable) && Ordered(rest) && rest != []
    ensures UnresolvedInv(m - {rest[|rest| - 1].txn}, rest[..|rest| - 1], durable)
  {
    var n := |rest| - 1;
    var front, b := rest[..n], rest[n];
    assert rest == front + [b];
    TxnsAppend(front, b);
    assert b.txn !in TxnsOf(front) by {
      forall i | 0 <= i < n ensures front[i].txn != b.txn { assert rest[i].txn != rest[n].txn; }
    }
    forall i | 0 <= i < n ensures UnresolvedAt(m - {b.txn}, front[i], i < durable) {
      assert UnresolvedAt(m, rest[i], i < durable);
      assert front[i] == rest[i] && rest[i].txn != rest[n].txn;
    }
  }

  // ---------------------------------------------------------------------------
  // Stage
  // ---------------------------------------------------------------------------

  /** The next reservation starts where the chain ends. */
  lemma {:induction false} ReservedFrontierIs(s: Stream, d: Disk, truth: Ledger, history: seq<Batch>)
    requires StreamInv(s, d, truth, history)
    ensures |s.batches| <= |Live(d, truth)|
    ensures ReservedFrontier(s) == d.header.earliest + |Live(d, truth)|
  {
    hide StreamInv, UnresolvedInv, LiveOf, PreparedOf, Ordered;
    StreamFacts(s, d, truth, history);
    var rest, durable := Rest(s, d, truth), |SyncedLive(d, truth)| - |s.batches|;
    TailIsLast(s.unresolved, rest, durable);
    if rest != [] {
      ReservationAt(s.unresolved, rest, durable, |rest| - 1);
    }
  }

  /** What the engine must supply for a stage: a transaction it never prepared
      before, changes the decoder accepts, and a file that 64 bits can measure. */
  ghost predicate StageAdmissible(s: Stream, d: Disk, truth: Ledger, txn: u64, databaseTxn: Option<u64>,
                                  changes: seq<Change>) {
    var r := Stage(s, txn, databaseTxn, changes);
    r.appended != [] ==>
      && !HasTxn(PreparedOf(d.log), txn) && OutcomeOf(truth, txn) == Unresolved
      && LoadableIdentity(s.header, r.appended[0].batch)
      && V2_HEADER_SIZE + ReservedSize(PreparedOf(d.log)) + RecordSize(r.appended[0]) + 32 <= MAX_U64
  }

  lemma {:induction false} StageKeeps(s: Stream, d: Disk, truth: Ledger, history: seq<Batch>, txn: u64,
                                      databaseTxn: Option<u64>, changes: seq<Change>)
    requires StreamInv(s, d, truth, history) && StageAdmissible(s, d, truth, txn, databaseTxn, changes)
    ensures var r := Stage(s, txn, databaseTxn, changes);
            StreamInv(r.stream, d.(log := d.log + r.appended), truth, history)
  {
    hide StreamInv, EncodeError, RecordSize, ReservedFrontier, LoadableIdentity, PreparedOf, ReservedSize, LiveOf,
         HasTxn;
    StreamFacts(s, d, truth, history);
    SameHeader(s, d, truth, history);
    var r := Stage(s, txn, databaseTxn, changes);
    if r.appended == [] {
      assert d.log + [] == d.log;
    } else {
      var b := r.appended[0].batch;
      assert r.appended == [Prepared(b)];
      StagedIsLoadable(s, b);
      ReservedFrontierIs(s, d, truth, history);
      StagedKeeps(s, d, truth, history, b);
    }
  }

  lemma SameHeader(s: Stream, d: Disk, truth: Ledger, history: seq<Batch>)
    requires StreamInv(s, d, truth, history)
    ensures DiskInv(d, truth, history) && s.header == d.header && s.fileBytes == FileSize(d.header, d.log)
  {
  }

  lemma {:induction false} StagedIsLoadable(s: Stream, b: Batch)
    requires EncodeError(b).None? && LoadableIdentity(s.header, b)
    ensures LoadableRecord(s.header, Prepared(b))
  {
    NoErrorFits(b.mutations, b.storageId);
  }

  lemma {:induction false} StagedKeeps(s: Stream, d: Disk, truth: Ledger, history: seq<Batch>, b: Batch)
    requires StreamInv(s, d, truth, history) && LoadableRecord(d.header, Prepared(b))
    requires !HasTxn(PreparedOf(d.log), b.txn) && OutcomeOf(truth, b.txn) == Unresolved
    requires b.sequence == s.nextSequence < MAX_U64
    requires b.before == d.header.earliest + |Live(d, truth)| && b.after == b.before + 1
    requires V2_HEADER_SIZE + ReservedSize(PreparedOf(d.log)) + RecordSize(Prepared(b)) + 32 <= MAX_U64
    ensures StreamInv(AfterStage(s, b), d.(log := d.log + [Prepared(b)]), truth, history)
  {
    hide LoadableRecord, PreparedOf, MarkersOf, LiveOf, DiskInv, PublishedInv, HasTxn, RecordSize, UnresolvedInv,
         ReservedSize;
    StreamFacts(s, d, truth, history);
    var d' := d.(log := d.log + [Prepared(b)]);
    DiskAfterStage(d, truth, history, b);
    AppendKeepsSynced(d, Prepared(b), truth);
    PreparedAppend(d.log, Prepared(b));
    FileAppend(d.header, d.log, Prepared(b));
    RestIsPrepared(s, d, truth);
    UnresolvedAfterStage(s.unresolved, Rest(s, d, truth), |SyncedLive(d, truth)| - |s.batches|, b);
    PublishedSame(s, AfterStage(s, b), truth, Unreclaimed(d.header, history));
    assert (d.log + [Prepared(b)])[..d.synced] == d.log[..d.synced];
    assert Live(d', truth)[|s.batches|..] == Rest(s, d, truth) + [b];
  }

  /** Publication facts depend only on the published part. */
  lemma PublishedSame(s: Stream, s': Stream, truth: Ledger, hist: seq<Batch>)
    requires PublishedInv(s, truth, hist)
    requires s'.header == s.header && s'.batches == s.batches && s'.batchFileBytes == s.batchFileBytes
    requires s'.finalizeVersions == s.finalizeVersions && s'.pending == s.pending && s'.checkpointed == s.checkpointed
    ensures PublishedInv(s', truth, hist)
  {
  }

  lemma {:induction false} FileAppend(h: Header, log: seq<Record>, r: Record)
    ensures FileSize(h, log + [r]) == FileSize(h, log) + RecordSize(r)
  {
    assert (log + [r])[..|log|] == log;
  }

  lemma {:induction false} RestIsPrepared(s: Stream, d: Disk, truth: Ledger)
    requires |s.batches| <= |Live(d, truth)|
    ensures forall i :: 0 <= i < |Rest(s, d, truth)| ==> HasTxn(PreparedOf(d.log), Rest(s, d, truth)[i].txn)
  {
    forall i | 0 <= i < |Rest(s, d, truth)| ensures HasTxn(PreparedOf(d.log), Rest(s, d, truth)[i].txn) {
      HasTxnLive(PreparedOf(d.log), truth, |s.batches| + i);
    }
  }

  lemma {:induction false} UnresolvedAfterStage(m: map<u64, PreparedRecord>, rest: seq<Batch>, durable: int, b: Batch)
    requires UnresolvedInv(m, rest, durable) && durable <= |rest|
    requires forall i :: 0 <= i < |rest| ==> rest[i].txn != b.txn
    ensures UnresolvedInv(m[b.txn := StagedRecord(b, false)], rest + [b], durable)
  {
    var m', rest' := m[b.txn := StagedRecord(b, false)], rest + [b];
    TxnsAppend(rest, b);
    forall i | 0 <= i < |rest'| ensures UnresolvedAt(m', rest'[i], i < durable) {
      if i < |rest| { assert UnresolvedAt(m, rest[i], i < durable); }
    }
  }

  // ---------------------------------------------------------------------------
  // Sync, checkpoint and prepared durability
  // ---------------------------------------------------------------------------

  lemma {:induction false} PendingNonempty(bs: seq<Batch>)
    ensures PendingOf(bs) == map[] <==> bs == []
  {
    if bs != [] {
      assert bs[|bs| - 1].sequence in PendingOf(bs);
    }
  }

  /** A successful sync: the checkpoint reaches the committed frontier. */
  lemma {:induction false} SyncKeeps(s: Stream, d: Disk, truth: Ledger, history: seq<Batch>)
    requires StreamInv(s, d, truth, history)
    ensures StreamInv(Synced(s), d.(synced := |d.log|), truth, history)
    ensures Synced(s).checkpointed == Current(s) && Synced(s).pending == map[]
    ensures SyncedLive(d.(synced := |d.log|), truth) == Live(d, truth)
  {
    hide PreparedOf, MarkersOf, LiveOf, DiskInv, UnresolvedInv;
    StreamFacts(s, d, truth, history);
    DiskAfterSyncAll(d, truth, history);
    assert d.log[..|d.log|] == d.log;
    PublishedAfterSync(s, truth, Unreclaimed(d.header, history));
    UnresolvedMore(s.unresolved, Rest(s, d, truth), |SyncedLive(d, truth)| - |s.batches|, |Live(d, truth)| - |s.batches|);
  }

  lemma {:induction false} DiskAfterSyncAll(d: Disk, truth: Ledger, history: seq<Batch>)
    requires DiskInv(d, truth, history)
    ensures DiskInv(d.(synced := |d.log|), truth, history)
  {
    DiskAfterSync(d, truth, history, |d.log|);
  }

  lemma {:induction false} PublishedAfterSync(s: Stream, truth: Ledger, hist: seq<Batch>)
    requires PublishedInv(s, truth, hist) && Current(s) == s.header.earliest + |s.batches|
    ensures PublishedInv(Synced(s), truth, hist)
    ensures Synced(s).checkpointed == Current(s) && Synced(s).pending == map[]
  {
    PendingNonempty(s.batches[Checkpointed(s)..]);
    assert s.batches[|s.batches|..] == [];
  }

  lemma {:induction false} UnresolvedMore(m: map<u64, PreparedRecord>, rest: seq<Batch>, durable: int, durable': int)
    requires UnresolvedInv(m, rest, durable) && durable <= durable'
    ensures UnresolvedInv(m, rest, durable')
  {
    forall i | 0 <= i < |rest| ensures UnresolvedAt(m, rest[i], i < durable') {
      assert UnresolvedAt(m, rest[i], i < durable);
    }
  }

  /** Marking records durable after a sync of the whole log. */
  lemma {:induction false} UnresolvedMarked(m: map<u64, PreparedRecord>, rest: seq<Batch>, durable: int, ids: set<u64>)
    requires UnresolvedInv(m, rest, durable) && |rest| <= durable
    ensures UnresolvedInv(MarkDurable(m, ids), rest, durable)
  {
    var m' := MarkDurable(m, ids);
    assert m'.Keys == m.Keys;
    forall i | 0 <= i < |rest| ensures UnresolvedAt(m', rest[i], i < durable) {
      assert UnresolvedAt(m, rest[i], i < durable);
    }
  }

  lemma {:induction false} DurabilizeKeeps(s: Stream, d: Disk, truth: Ledger, history: seq<Batch>,
                                           cands: seq<PrepareCandidate>)
    requires StreamInv(s, d, truth, history) && CandidatesKnown(s, cands)
    ensures StreamInv(Durabilized(s, cands), if NeedsSync(s, cands) then d.(synced := |d.log|) else d, truth, history)
  {
    if NeedsSync(s, cands) {
      hide PreparedOf, MarkersOf, LiveOf, StreamInv, UnresolvedInv, CandidateIds, MarkDurable, NeedsSync;
      StreamFacts(s, d, truth, history);
      SyncKeeps(s, d, truth, history);
      UnresolvedMore(s.unresolved, Rest(s, d, truth), |SyncedLive(d, truth)| - |s.batches|, |Live(d, truth)| - |s.batches|);
      UnresolvedMarked(s.unresolved, Rest(s, d, truth), |Live(d, truth)| - |s.batches|, CandidateIds(cands));
      UnresolvedReplaced(Synced(s), d.(synced := |d.log|), truth, history, MarkDurable(s.unresolved, CandidateIds(cands)));
    }
  }

  lemma {:induction false} UnresolvedReplaced(s: Stream, d: Disk, truth: Ledger, history: seq<Batch>,
                                              m: map<u64, PreparedRecord>)
    requires StreamInv(s, d, truth, history) && |s.batches| <= |Live(d, truth)|
    requires UnresolvedInv(m, Rest(s, d, truth), |SyncedLive(d, truth)| - |s.batches|)
    ensures StreamInv(s.(unresolved := m), d, truth, history)
  {
    hide PreparedOf, MarkersOf, LiveOf, UnresolvedInv, DiskInv;
    StreamFacts(s, d, truth, history);
    PublishedSame(s, s.(unresolved := m), truth, Unreclaimed(d.header, history));
  }

  // ---------------------------------------------------------------------------
  // The engine commits or aborts
  // ---------------------------------------------------------------------------

  /** The engine commits the oldest undecided reservation once it is durably prepared. */
  ghost predicate CommitAdmissible(s: Stream, d: Disk, truth: Ledger, history: seq<Batch>, txn: u64,
                                   commit: Option<u64>)
    requires StreamInv(s, d, truth, history)
  {
    var n := |Unreclaimed(d.header, history)|;
    && CommitFits(d.header.kind, commit)
    && n < |Live(d, truth)| && Live(d, truth)[n].txn == txn
    && txn in s.unresolved && s.unresolved[txn].preparedDurable
  }

  lemma {:induction false} CommitKeeps(s: Stream, d: Disk, truth: Ledger, history: seq<Batch>, txn: u64,
                                       commit: Option<u64>)
    requires StreamInv(s, d, truth, history) && CommitAdmissible(s, d, truth, history, txn, commit)
    ensures StreamInv(s, d, truth[txn := Committed(commit)], history + [Resolve(s.unresolved[txn].batch, commit)])
  {
    hide PreparedOf, MarkersOf, LiveOf, UnresolvedInv, PublishedInv, DiskInv, CommitFits;
    StreamFacts(s, d, truth, history);
    var n, m := |Unreclaimed(d.header, history)|, |s.batches|;
    var rest, durable := Rest(s, d, truth), |SyncedLive(d, truth)| - m;
    ReservationAt(s.unresolved, rest, durable, n - m);
    var b := Live(d, truth)[n];
    var truth' := truth[txn := Committed(commit)];
    DiskAfterCommit(d, truth, history, commit);
    NotAborted(d, truth, n);
    SyncedAfterCommit(d, truth, txn, commit);
    assert rest[n - m] == b;
    HistoryGrows(d.header, history, Resolve(b, commit));
    BatchTxns(s, d, truth, history);
    PublishedAfterDecision(s, truth, Unreclaimed(d.header, history), txn, Committed(commit));
    PublishedLonger(s, truth', Unreclaimed(d.header, history), Resolve(b, commit));
  }

  /** Published batches are the first reservations, resolved. */
  lemma {:induction false} BatchTxns(s: Stream, d: Disk, truth: Ledger, history: seq<Batch>)
    requires StreamInv(s, d, truth, history)
    ensures |s.batches| <= |Live(d, truth)|
    ensures forall i :: 0 <= i < |s.batches| ==> s.batches[i].txn == Live(d, truth)[i].txn
    ensures forall i :: |s.batches| <= i < |Live(d, truth)| ==> Live(d, truth)[i].txn !in TxnsOf(s.batches)
  {
    hide PreparedOf, MarkersOf, LiveOf, UnresolvedInv, DiskInv;
    StreamFacts(s, d, truth, history);
    forall i | 0 <= i < |s.batches| ensures s.batches[i].txn == Live(d, truth)[i].txn {
      CommittedAt(d, truth, history, i);
    }
  }

  /** A decision about a transaction that is not published changes nothing published. */
  lemma {:induction false} PublishedAfterDecision(s: Stream, truth: Ledger, hist: seq<Batch>, txn: u64, o: Outcome)
    requires PublishedInv(s, truth, hist) && txn !in TxnsOf(s.batches)
    ensures PublishedInv(s, truth[txn := o], hist)
  {
    assert VersionsOf(s.batches, truth[txn := o]) == VersionsOf(s.batches, truth);
  }

  lemma PublishedLonger(s: Stream, truth: Ledger, hist: seq<Batch>, b: Batch)
    requires PublishedInv(s, truth, hist)
    ensures PublishedInv(s, truth, hist + [b])
  {
  }

  lemma {:induction false} NotAborted(d: Disk, truth: Ledger, i: nat)
    requires i < |Live(d, truth)|
    ensures !OutcomeOf(truth, Live(d, truth)[i].txn).Aborted?
  {
    LiveIn(PreparedOf(d.log), truth, Live(d, truth)[i]);
  }

  lemma {:induction false} SyncedAfterCommit(d: Disk, truth: Ledger, txn: u64, commit: Option<u64>)
    requires d.synced <= |d.log| && !OutcomeOf(truth, txn).Aborted?
    ensures SyncedLive(d, truth[txn := Committed(commit)]) == SyncedLive(d, truth)
    ensures Live(d, truth[txn := Committed(commit)]) == Live(d, truth)
  {
    LiveAfterCommit(PreparedOf(d.log[..d.synced]), truth, txn, commit);
    LiveAfterCommit(PreparedOf(d.log), truth, txn, commit);
  }

  /** The engine aborts only the newest reservation, and only while undecided. */
  ghost predicate AbortAdmissible(d: Disk, truth: Ledger, history: seq<Batch>, txn: u64)
    requires DiskInv(d, truth, history)
  {
    var live := Live(d, truth);
    |Unreclaimed(d.header, history)| < |live| && live[|live| - 1].txn == txn
  }

  /** Aborting the newest reservation in the ledger and abandoning it in the stream. */
  lemma {:induction false} AbandonKeeps(s: Stream, d: Disk, truth: Ledger, history: seq<Batch>, txn: u64)
    requires StreamInv(s, d, truth, history) && AbortAdmissible(d, truth, history, txn)
    ensures !AbandonRefused(s, txn)
    ensures StreamInv(Abandoned(s, txn), d, truth[txn := Aborted], history)
  {
    hide PreparedOf, MarkersOf, LiveOf, UnresolvedInv, PublishedInv, DiskInv;
    StreamFacts(s, d, truth, history);
    var live, m := Live(d, truth), |s.batches|;
    var rest, durable := Rest(s, d, truth), |SyncedLive(d, truth)| - m;
    assert rest != [] && rest[|rest| - 1] == live[|live| - 1];
    TailIsLast(s.unresolved, rest, durable);
    UnresolvedWithout(s.unresolved, rest, durable);
    DiskAfterAbort(d, truth, history);
    BatchTxns(s, d, truth, history);
    PublishedAfterDecision(s, truth, Unreclaimed(d.header, history), txn, Aborted);
    PublishedSame(s, Abandoned(s, txn), truth[txn := Aborted], Unreclaimed(d.header, history));
    assert live[..|live| - 1][m..] == rest[..|rest| - 1];
    UnresolvedFewer(Abandoned(s, txn).unresolved, rest[..|rest| - 1], durable, |SyncedLive(d, truth[txn := Aborted])| - m);
  }

  lemma {:induction false} UnresolvedFewer(m: map<u64, PreparedRecord>, rest: seq<Batch>, durable: int, durable': int)
    requires UnresolvedInv(m, rest, durable) && (durable <= durable' || |rest| <= durable')
    ensures UnresolvedInv(m, rest, durable')
  {
    forall i | 0 <= i < |rest| ensures UnresolvedAt(m, rest[i], i < durable') {
      assert UnresolvedAt(m, rest[i], i < durable);
    }
  }

  /** Only the chain's tail can be abandoned. */
  lemma {:induction false} AbandonOnlyTail(s: Stream, d: Disk, truth: Ledger, history: seq<Batch>, txn: u64)
    requires StreamInv(s, d, truth, history)
    ensures |s.batches| <= |Live(d, truth)|
    ensures AbandonRefused(s, txn) <==>
            exists i :: 0 <= i < |Rest(s, d, truth)| - 1 && Rest(s, d, truth)[i].txn == txn
  {
    hide StreamInv, UnresolvedInv, LiveOf, PreparedOf;
    StreamFacts(s, d, truth, history);
    var rest, durable := Rest(s, d, truth), |SyncedLive(d, truth)| - |s.batches|;
    TailIsLast(s.unresolved, rest, durable);
    if txn in s.unresolved {
      var i := ReservationOf(s.unresolved, rest, durable, txn);
    }
    forall i | 0 <= i < |rest| ensures rest[i].txn in s.unresolved {
      ReservationAt(s.unresolved, rest, durable, i);
    }
  }

  // ---------------------------------------------------------------------------
  // Which candidates the durability barrier accepts
  // ---------------------------------------------------------------------------

  predicate PrepareMatches(c: PrepareCandidate, b: Batch) {
    c.txn == b.txn && c.databaseTxn == b.databaseTxn && c.prepared == Identity(b)
  }

  lemma {:induction false} NoDurableError(s: Stream, ids: seq<u64>, cands: seq<PrepareCandidate>, exact: bool, i: nat)
    requires i <= |cands| && (exact ==> |cands| <= |ids|)
    ensures FirstDurableError(s, ids, cands, exact, i).None? <==>
            forall j :: i <= j < |cands| ==> DurableErrorAt(s, ids, cands, exact, j).None?
    decreases |cands| - i
  {
    hide DurableErrorAt;
    if i < |cands| { NoDurableError(s, ids, cands, exact, i + 1); }
  }

  /** An accepted barrier names known transactions only. */
  lemma {:induction false} DurableAreKnown(s: Stream, d: Disk, truth: Ledger, history: seq<Batch>,
                                           cands: seq<PrepareCandidate>, exact: bool)
    requires StreamInv(s, d, truth, history) && DurabilizeError(s, cands, exact).None?
    ensures CandidatesKnown(s, cands)
  {
    hide StreamInv, UnresolvedInv, LiveOf, PreparedOf, ReservationOrder, FirstDurableError;
    StreamFacts(s, d, truth, history);
    var rest, durable, ids := Rest(s, d, truth), |SyncedLive(d, truth)| - |s.batches|, ReservationOrder(s.unresolved);
    OrderIsChain(s.unresolved, rest, durable);
    NoDurableError(s, ids, cands, exact, 0);
    forall i | 0 <= i < |cands| ensures cands[i].txn in s.unresolved {
      assert DurableErrorAt(s, ids, cands, exact, i).None?;
      if exact { ReservationAt(s.unresolved, rest, durable, i); }
    }
  }

  /** In every reachable state the group barrier accepts exactly the oldest
      reservations, in chain order and under their own identities. */
  lemma {:induction false} DurabilizeTakesPrefix(s: Stream, d: Disk, truth: Ledger, history: seq<Batch>,
                                                 cands: seq<PrepareCandidate>)
    requires StreamInv(s, d, truth, history)
    ensures |s.batches| <= |Live(d, truth)|
    ensures DurabilizeError(s, cands, true).None? <==>
            0 < |cands| <= |Rest(s, d, truth)| && forall i :: 0 <= i < |cands| ==> PrepareMatches(cands[i], Rest(s, d, truth)[i])
  {
    hide StreamInv, UnresolvedInv, LiveOf, PreparedOf, ReservationOrder, FirstDurableError;
    StreamFacts(s, d, truth, history);
    var rest, durable, ids := Rest(s, d, truth), |SyncedLive(d, truth)| - |s.batches|, ReservationOrder(s.unresolved);
    OrderIsChain(s.unresolved, rest, durable);
    assert |s.unresolved| == |s.unresolved.Keys|;
    if 0 < |cands| <= |rest| {
      NoDurableError(s, ids, cands, true, 0);
      forall i | 0 <= i < |rest| ensures rest[i].txn in s.unresolved && s.unresolved[rest[i].txn].batch == rest[i] {
        ReservationAt(s.unresolved, rest, durable, i);
      }
      if forall i :: 0 <= i < |cands| ==> PrepareMatches(cands[i], rest[i]) {
        forall i | 0 <= i < |cands| ensures DurableErrorAt(s, ids, cands, true, i).None? {
          assert PrepareMatches(cands[i], rest[i]);
          assert i > 0 ==> PrepareMatches(cands[i - 1], rest[i - 1]);
        }
      } else {
        var i :| 0 <= i < |cands| && !PrepareMatches(cands[i], rest[i]);
        assert DurableErrorAt(s, ids, cands, true, i).Some?;
      }
    }
  }

  /** The candidates name the reservations from `start` on, one after the other. */
  predicate PrepareRun(cands: seq<PrepareCandidate>, rest: seq<Batch>, start: nat) {
    start + |cands| <= |rest| && forall i :: 0 <= i < |cands| ==> PrepareMatches(cands[i], rest[start + i])
  }

  /** In every reachable state a barrier of its own accepts exactly a stretch of
      consecutive reservations, wherever it starts. */
  lemma {:induction false} DurabilizeTakesRun(s: Stream, d: Disk, truth: Ledger, history: seq<Batch>, cands: seq<PrepareCandidate>)
    requires StreamInv(s, d, truth, history)
    ensures |s.batches| <= |Live(d, truth)|
    ensures DurabilizeError(s, cands, false).None? <==>
            cands != [] && exists start: nat :: PrepareRun(cands, Rest(s, d, truth), start)
  {
    hide StreamInv, UnresolvedInv, LiveOf, PreparedOf, ReservationOrder, FirstDurableError, PrepareRun, DurableErrorAt, Current;
    StreamFacts(s, d, truth, history);
    var rest, durable, ids := Rest(s, d, truth), |SyncedLive(d, truth)| - |s.batches|, ReservationOrder(s.unresolved);
    NoDurableError(s, ids, cands, false, 0);
    if DurabilizeError(s, cands, false).None? {
      AcceptedNames(s, ids, cands, 0);
      var start := ReservationOf(s.unresolved, rest, durable, cands[0].txn);
      RunFrom(s, rest, durable, ids, cands, start, |cands|);
      assert PrepareRun(cands, rest, start) by { RunIs(cands, rest, start); }
    }
    if cands != [] && exists start: nat :: PrepareRun(cands, rest, start) {
      var start: nat :| PrepareRun(cands, rest, start);
      forall i | 0 <= i < |cands| ensures DurableErrorAt(s, ids, cands, false, i).None? {
        RunAccepted(s, rest, durable, ids, cands, start, i);
      }
    }
  }

  lemma RunIs(cands: seq<PrepareCandidate>, rest: seq<Batch>, start: nat)
    requires start + |cands| <= |rest| && forall i :: 0 <= i < |cands| ==> PrepareMatches(cands[i], rest[start + i])
    ensures PrepareRun(cands, rest, start)
  {
  }

  lemma AcceptedNames(s: Stream, ids: seq<u64>, cands: seq<PrepareCandidate>, i: nat)
    requires i < |cands| && DurableErrorAt(s, ids, cands, false, i).None?
    ensures cands[i].txn in s.unresolved && PrepareMatches(cands[i], s.unresolved[cands[i].txn].batch)
    ensures i > 0 ==> cands[i - 1].prepared.after == cands[i].prepared.before
  {
  }

  lemma {:induction false} RunFrom(s: Stream, rest: seq<Batch>, durable: int, ids: seq<u64>, cands: seq<PrepareCandidate>, start: nat, n: nat)
    requires UnresolvedInv(s.unresolved, rest, durable) && Chain(rest, Current(s)) && 0 < n <= |cands|
    requires start < |rest| && rest[start].txn == cands[0].txn
    requires forall i :: 0 <= i < |cands| ==> DurableErrorAt(s, ids, cands, false, i).None?
    ensures start + n <= |rest| && forall i :: 0 <= i < n ==> PrepareMatches(cands[i], rest[start + i])
  {
    hide UnresolvedInv, DurableErrorAt, Current;
    AcceptedNames(s, ids, cands, n - 1);
    var k := ReservationOf(s.unresolved, rest, durable, cands[n - 1].txn);
    if n == 1 {
      AcceptedNames(s, ids, cands, 0);
      ReservationAt(s.unresolved, rest, durable, start);
    } else {
      RunFrom(s, rest, durable, ids, cands, start, n - 1);
      assert PrepareMatches(cands[n - 2], rest[start + (n - 2)]);
      assert k == start + n - 1;
    }
  }

  lemma {:induction false} RunAccepted(s: Stream, rest: seq<Batch>, durable: int, ids: seq<u64>, cands: seq<PrepareCandidate>, start: nat, i: nat)
    requires UnresolvedInv(s.unresolved, rest, durable) && Chain(rest, Current(s)) && PrepareRun(cands, rest, start) && i < |cands|
    ensures DurableErrorAt(s, ids, cands, false, i).None?
  {
    hide UnresolvedInv, Current;
    ReservationAt(s.unresolved, rest, durable, start + i);
    assert PrepareMatches(cands[i], rest[start + i]);
    if i > 0 { assert PrepareMatches(cands[i - 1], rest[start + (i - 1)]); }
  }
}
