/** Finalize publishes a prefix of the reservation chain and nothing else. */
module ProtocolFinalize {
  import opened Wrappers
  import opened Widths
  import opened ChangeTypes
  import opened Codec
  import opened Loading
  import opened LogViews
  import opened StreamSpec
  import opened DiskInvariant
  import opened StreamInvariant
  import opened RecoveryProof
  import opened ProtocolSteps

  // ---------------------------------------------------------------------------
  // Which candidates are accepted
  // ---------------------------------------------------------------------------

  /** Candidate `i` names reservation `b`: same identity, durably prepared, and
      a commit that leaves no placeholder behind. */
  predicate CandidateMatches(s: Stream, c: FinalizeCandidate, b: Batch) {
    && c.txn == b.txn && c.prepared == Identity(b)
    && b.txn in s.unresolved && s.unresolved[b.txn].preparedDurable
    && ValidCommittedBatch(s.header.kind, Resolve(b, c.commit))
  }

  predicate MatchesPrefix(s: Stream, cands: seq<FinalizeCandidate>, rest: seq<Batch>) {
    && 0 < |cands| <= |rest|
    && forall i :: 0 <= i < |cands| ==> CandidateMatches(s, cands[i], rest[i])
  }

  lemma {:induction false} NoFinalizeError(s: Stream, cands: seq<FinalizeCandidate>, immediate: bool, i: nat)
    requires i <= |cands|
    ensures FirstFinalizeError(s, cands, immediate, i).None? <==>
            forall j :: i <= j < |cands| ==> FinalizeErrorAt(s, cands, immediate, j).None?
    decreases |cands| - i
  {
    hide FinalizeErrorAt;
    if i < |cands| {
      NoFinalizeError(s, cands, immediate, i + 1);
    }
  }

  /** An accepted candidate is the reservation at the frontier it names. */
  lemma {:induction false} AcceptedAt(s: Stream, rest: seq<Batch>, durable: int, cands: seq<FinalizeCandidate>,
                                      immediate: bool, i: nat)
    requires UnresolvedInv(s.unresolved, rest, durable) && Chain(rest, Current(s))
    requires i < |cands| && FinalizeErrorAt(s, cands, immediate, i).None?
    requires cands[i].prepared.before == Current(s) + i
    ensures i < |rest| && CandidateMatches(s, cands[i], rest[i])
    ensures cands[i].prepared.after == Current(s) + i + 1
  {
    hide UnresolvedInv, ValidCommitted, ValidCommittedBatch;
    var j := ReservationOf(s.unresolved, rest, durable, cands[i].txn);
    assert rest[j].before == Current(s) + j;
    CommittedIff(s.header.kind, Resolve(rest[j], cands[i].commit));
  }

  lemma {:induction false} AcceptedPrefix(s: Stream, rest: seq<Batch>, durable: int, cands: seq<FinalizeCandidate>,
                                          immediate: bool, n: nat)
    requires UnresolvedInv(s.unresolved, rest, durable) && Chain(rest, Current(s))
    requires 0 < n <= |cands| && cands[0].prepared.before == Current(s)
    requires forall j :: 0 <= j < |cands| ==> FinalizeErrorAt(s, cands, immediate, j).None?
    ensures n <= |rest| && cands[n - 1].prepared.after == Current(s) + n
    ensures forall i :: 0 <= i < n ==> CandidateMatches(s, cands[i], rest[i])
  {
    hide UnresolvedInv, CandidateMatches, Chain;
    if n > 1 {
      AcceptedPrefix(s, rest, durable, cands, immediate, n - 1);
      ChainedCandidate(s, cands, immediate, n - 1);
    }
    AcceptedAt(s, rest, durable, cands, immediate, n - 1);
  }

  lemma ChainedCandidate(s: Stream, cands: seq<FinalizeCandidate>, immediate: bool, i: nat)
    requires 0 < i < |cands| && FinalizeErrorAt(s, cands, immediate, i).None?
    ensures cands[i].prepared.before == cands[i - 1].prepared.after
  {
  }

  lemma {:induction false} PendingKeys(bs: seq<Batch>, k: u64)
    requires k in PendingOf(bs)
    ensures exists i :: 0 <= i < |bs| && bs[i].sequence == k
  {
    var n := |bs| - 1;
    if bs[n].sequence != k {
      PendingKeys(bs[..n], k);
      var i :| 0 <= i < n && bs[..n][i].sequence == k;
      assert bs[i].sequence == k;
    }
  }

  /** A reservation that is not published has no pending checkpoint. */
  lemma {:induction false} NotPending(s: Stream, d: Disk, truth: Ledger, history: seq<Batch>, i: nat)
    requires StreamInv(s, d, truth, history) && |s.batches| <= i < |Live(d, truth)|
    ensures Live(d, truth)[i].sequence !in s.pending
  {
    hide PreparedOf, MarkersOf, LiveOf, UnresolvedInv, DiskInv, PendingOf;
    StreamFacts(s, d, truth, history);
    var k := Live(d, truth)[i].sequence;
    if k in s.pending {
      PendingKeys(s.batches[Checkpointed(s)..], k);
      var j :| 0 <= j < |s.batches[Checkpointed(s)..]| && s.batches[Checkpointed(s)..][j].sequence == k;
      var at := Checkpointed(s) + j;
      CommittedAt(d, truth, history, at);
    }
  }

  lemma {:induction false} MatchingAccepted(s: Stream, d: Disk, truth: Ledger, history: seq<Batch>,
                                            cands: seq<FinalizeCandidate>, immediate: bool, i: nat)
    requires StreamInv(s, d, truth, history) && |s.batches| <= |Live(d, truth)|
    requires MatchesPrefix(s, cands, Rest(s, d, truth)) && i < |cands|
    ensures FinalizeErrorAt(s, cands, immediate, i).None?
  {
    hide PreparedOf, MarkersOf, LiveOf, DiskInv, PublishedInv, UnresolvedInv;
    StreamFacts(s, d, truth, history);
    var rest, m := Rest(s, d, truth), |s.batches|;
    assert CandidateMatches(s, cands[i], rest[i]);
    if i > 0 { assert CandidateMatches(s, cands[i - 1], rest[i - 1]); }
    NotPending(s, d, truth, history, m + i);
    LiveLoadableAt(d, truth, history, m + i);
    ReservationAt(s.unresolved, rest, |SyncedLive(d, truth)| - m, i);
  }

  /** In every reachable state a finalize that publishes something is accepted
      exactly when its candidates are the oldest reservations, in chain order. */
  lemma {:induction false} FinalizeTakesPrefix(s: Stream, d: Disk, truth: Ledger, history: seq<Batch>,
                                               cands: seq<FinalizeCandidate>, immediate: bool)
    requires StreamInv(s, d, truth, history)
    ensures |s.batches| <= |Live(d, truth)|
    ensures FinalizeError(s, cands, immediate).None? && !AlreadyPublished(s, cands) <==>
            MatchesPrefix(s, cands, Rest(s, d, truth))
  {
    hide PreparedOf, MarkersOf, LiveOf, StreamInv, UnresolvedInv, FinalizeErrorAt, CandidateMatches,
         FirstFinalizeError;
    StreamFacts(s, d, truth, history);
    var rest, durable := Rest(s, d, truth), |SyncedLive(d, truth)| - |s.batches|;
    NoFinalizeError(s, cands, immediate, 0);
    if FinalizeError(s, cands, immediate).None? && !AlreadyPublished(s, cands) {
      AcceptedPrefix(s, rest, durable, cands, immediate, |cands|);
    }
    if MatchesPrefix(s, cands, rest) {
      forall i | 0 <= i < |cands| ensures FinalizeErrorAt(s, cands, immediate, i).None? {
        MatchingAccepted(s, d, truth, history, cands, immediate, i);
      }
      FirstMatches(s, d, truth, history, cands);
    }
  }

  lemma {:induction false} FirstMatches(s: Stream, d: Disk, truth: Ledger, history: seq<Batch>,
                                        cands: seq<FinalizeCandidate>)
    requires StreamInv(s, d, truth, history) && |s.batches| <= |Live(d, truth)|
    requires MatchesPrefix(s, cands, Rest(s, d, truth))
    ensures cands[0].prepared.before == Current(s) && !AlreadyPublished(s, cands)
  {
    hide PreparedOf, MarkersOf, LiveOf, DiskInv, PublishedInv, UnresolvedInv;
    StreamFacts(s, d, truth, history);
    BatchTxns(s, d, truth, history);
    var rest := Rest(s, d, truth);
    assert CandidateMatches(s, cands[0], rest[0]);
    assert rest[0] == Live(d, truth)[|s.batches|];
    assert !HasTxn(s.batches, cands[0].txn) by {
      forall i | 0 <= i < |s.batches| ensures s.batches[i].txn != cands[0].txn { TxnsHas(s.batches, i); }
    }
  }

  // ---------------------------------------------------------------------------
  // What an accepted finalize does
  // ---------------------------------------------------------------------------

  /** The engine publishes a transaction only after committing it, with that commit. */
  predicate Truthful(cands: seq<FinalizeCandidate>, truth: Ledger) {
    forall i :: 0 <= i < |cands| ==> OutcomeOf(truth, cands[i].txn) == Committed(cands[i].commit)
  }

  /** Candidate `i` names reservation `m + i`, staged and durable. */
  predicate Names(s: Stream, cands: seq<FinalizeCandidate>, live: seq<Batch>, m: nat) {
    && m + |cands| <= |live|
    && forall i :: 0 <= i < |cands| ==>
         && cands[i].txn == live[m + i].txn && cands[i].txn in s.unresolved
         && s.unresolved[cands[i].txn] == StagedRecord(live[m + i], true)
  }

  lemma {:induction false} MatchNames(s: Stream, live: seq<Batch>, m: nat, durable: int, cands: seq<FinalizeCandidate>)
    requires m <= |live| && MatchesPrefix(s, cands, live[m..]) && UnresolvedInv(s.unresolved, live[m..], durable)
    ensures Names(s, cands, live, m) && FinalizersKnown(s, cands)
  {
    hide UnresolvedInv, ValidCommittedBatch;
    forall i | 0 <= i < |cands|
      ensures cands[i].txn == live[m + i].txn && cands[i].txn in s.unresolved
      ensures s.unresolved[cands[i].txn] == StagedRecord(live[m + i], true)
    {
      assert CandidateMatches(s, cands[i], live[m..][i]);
      ReservationAt(s.unresolved, live[m..], durable, i);
    }
  }

  /** The markers appended are those of the next live reservations. */
  lemma {:induction false} MarkersAre(s: Stream, cands: seq<FinalizeCandidate>, live: seq<Batch>, truth: Ledger, m: nat)
    requires Names(s, cands, live, m) && FinalizersKnown(s, cands) && Truthful(cands, truth)
    ensures MarkersToStage(s, cands) == RepairList(live, truth, m, m + |cands|)
    decreases |cands|
  {
    hide StagedRecord;
    if cands != [] {
      var n := |cands| - 1;
      MarkersAre(s, cands[..n], live, truth, m);
      NotStaged(live[m + n]);
    }
  }

  lemma NotStaged(b: Batch)
    ensures StagedRecord(b, true).stagedFinalize == None
    ensures StagedRecord(b, true).batch == b
    ensures StagedRecord(b, true).preparedFileBytes == StagedRecord(b, true).retainedFileBytes == RecordSize(Prepared(b))
  {
  }

  lemma {:induction false} PromotedAre(s: Stream, cands: seq<FinalizeCandidate>, live: seq<Batch>, m: nat,
                                       committed: seq<Batch>)
    requires Names(s, cands, live, m) && FinalizersKnown(s, cands) && |committed| == |cands|
    requires forall i :: 0 <= i < |cands| ==> committed[i] == Resolve(live[m + i], cands[i].commit)
    ensures Promoted(s, cands) == committed
    ensures PromotedBytes(s, cands) == SizesOf(committed)
  {
    hide Resolve, StagedRecord;
    forall i | 0 <= i < |cands|
      ensures Promoted(s, cands)[i] == committed[i] && PromotedBytes(s, cands)[i] == SizeOf(committed[i])
    {
      NotStaged(live[m + i]);
      ResolveKeepsSize(live[m + i], cands[i].commit);
    }
  }

  lemma {:induction false} CommitMapIs(cands: seq<FinalizeCandidate>, committed: seq<Batch>, truth: Ledger)
    requires |cands| == |committed| && Truthful(cands, truth)
    requires forall i :: 0 <= i < |cands| ==> committed[i].txn == cands[i].txn
    ensures CommitMap(cands) == VersionsOf(committed, truth)
  {
    if cands != [] {
      var n := |cands| - 1;
      CommitMapIs(cands[..n], committed[..n], truth);
      TxnsAppend(committed[..n], committed[n]);
      assert committed == committed[..n] + [committed[n]];
      assert OutcomeOf(truth, cands[n].txn) == Committed(cands[n].commit);
    }
  }

  lemma {:induction false} VersionsConcat(a: seq<Batch>, b: seq<Batch>, truth: Ledger)
    ensures VersionsOf(a + b, truth) == VersionsOf(a, truth) + VersionsOf(b, truth)
  {
    TxnsConcat(a, b);
  }

  lemma {:induction false} PendingConcat(a: seq<Batch>, b: seq<Batch>)
    ensures PendingOf(a + b) == PendingOf(a) + PendingOf(b)
  {
    if b == [] {
      assert a + b == a;
    } else {
      var n := |b| - 1;
      assert (a + b)[..|a + b| - 1] == a + b[..n];
      PendingConcat(a, b[..n]);
    }
  }

  lemma {:induction false} UnresolvedAfterFinalize(m: map<u64, PreparedRecord>, rest: seq<Batch>, durable: int,
                                                   k: nat, ids: set<u64>)
    requires UnresolvedInv(m, rest, durable) && Ordered(rest) && k <= |rest| && ids == TxnsOf(rest[..k])
    ensures UnresolvedInv(m - ids, rest[k..], durable - k)
  {
    hide StagedRecord;
    var m', rest' := m - ids, rest[k..];
    assert rest == rest[..k] + rest[k..];
    TxnsConcat(rest[..k], rest[k..]);
    forall i | 0 <= i < |rest'| ensures rest'[i].txn !in ids {
      LaterIsNew(rest, k, k + i);
    }
    forall i | 0 <= i < |rest'| ensures UnresolvedAt(m', rest'[i], i < durable - k) {
      assert UnresolvedAt(m, rest[k + i], k + i < durable);
    }
    assert m'.Keys == TxnsOf(rest');
  }

  lemma {:induction false} IdsAre(cands: seq<FinalizeCandidate>, bs: seq<Batch>)
    requires |cands| == |bs| && forall i :: 0 <= i < |bs| ==> cands[i].txn == bs[i].txn
    ensures FinalizerIds(cands) == TxnsOf(bs)
  {
    forall t | t in TxnsOf(bs) ensures t in FinalizerIds(cands) {
      var i :| 0 <= i < |bs| && bs[i].txn == t;
      assert cands[i].txn == t;
    }
    forall t | t in FinalizerIds(cands) ensures t in TxnsOf(bs) {
      var i :| 0 <= i < |cands| && cands[i].txn == t;
      assert bs[i].txn == t;
    }
  }

  /** Truthful candidates on a matching prefix are the next history batches. */
  lemma {:induction false} NextHistory(s: Stream, d: Disk, truth: Ledger, history: seq<Batch>,
                                       cands: seq<FinalizeCandidate>)
    requires StreamInv(s, d, truth, history) && |s.batches| <= |Live(d, truth)|
    requires MatchesPrefix(s, cands, Rest(s, d, truth)) && Truthful(cands, truth)
    ensures HistoryFits(d.header, history)
    ensures |s.batches| + |cands| <= |Unreclaimed(d.header, history)|
    ensures forall i :: 0 <= i < |cands| ==>
              && cands[i].txn == Live(d, truth)[|s.batches| + i].txn
              && Unreclaimed(d.header, history)[|s.batches| + i] == Resolve(Live(d, truth)[|s.batches| + i], cands[i].commit)
              && Unreclaimed(d.header, history)[|s.batches| + i].txn == cands[i].txn
  {
    hide PreparedOf, MarkersOf, LiveOf, DiskInv, PublishedInv, UnresolvedInv, ValidCommittedBatch;
    StreamFacts(s, d, truth, history);
    var live, m := Live(d, truth), |s.batches|;
    forall i | 0 <= i < |cands|
      ensures cands[i].txn == live[m + i].txn && m + i < |Unreclaimed(d.header, history)|
      ensures Unreclaimed(d.header, history)[m + i] == Resolve(live[m + i], cands[i].commit)
    {
      assert CandidateMatches(s, cands[i], Rest(s, d, truth)[i]);
      LiveDecided(d, truth, history, m + i);
      CommittedAt(d, truth, history, m + i);
    }
    assert cands[|cands| - 1].txn == live[m + |cands| - 1].txn;
  }

  lemma {:induction false} LiveDecided(d: Disk, truth: Ledger, history: seq<Batch>, i: nat)
    requires DiskInv(d, truth, history) && i < |Live(d, truth)| && OutcomeOf(truth, Live(d, truth)[i].txn).Committed?
    ensures i < |Unreclaimed(d.header, history)|
  {
    LiveOutcome(d.header.kind, Live(d, truth), truth, Unreclaimed(d.header, history), i);
  }

  lemma {:induction false} RepairListPrefix(live: seq<Batch>, truth: Ledger, m: nat, upTo: nat, j: nat)
    requires m + j <= upTo <= |live|
    ensures RepairList(live, truth, m, upTo)[..j] == RepairList(live, truth, m, m + j)
    decreases upTo
  {
    if m + j < upTo {
      RepairListPrefix(live, truth, m, upTo - 1, j);
      assert RepairList(live, truth, m, upTo)[..j] == RepairList(live, truth, m, upTo - 1)[..j];
    } else {
      assert RepairList(live, truth, m, upTo)[..j] == RepairList(live, truth, m, upTo);
    }
  }

  /** Any prefix of the markers of an accepted finalize leaves a recoverable disk. */
  lemma {:induction false} FinalizePartial(s: Stream, d: Disk, truth: Ledger, history: seq<Batch>,
                                           cands: seq<FinalizeCandidate>, j: nat)
    requires StreamInv(s, d, truth, history) && |s.batches| <= |Live(d, truth)|
    requires MatchesPrefix(s, cands, Rest(s, d, truth)) && Truthful(cands, truth) && j <= |cands|
    ensures FinalizersKnown(s, cands) && |MarkersToStage(s, cands)| == |cands|
    ensures var d' := d.(log := d.log + MarkersToStage(s, cands)[..j]);
            && DiskInv(d', truth, history) && Live(d', truth) == Live(d, truth)
            && PreparedOf(d'.log) == PreparedOf(d.log) && |MarkersOf(d'.log)| == |s.batches| + j
            && FileSize(d.header, d'.log) == FileSize(d.header, d.log) + 32 * j
  {
    hide PreparedOf, MarkersOf, LiveOf, DiskInv, PublishedInv, UnresolvedInv, MatchesPrefix, Truthful,
         MarkersToStage, RepairList, FileSize;
    StreamFacts(s, d, truth, history);
    var live, m := Live(d, truth), |s.batches|;
    MatchNames(s, live, m, |SyncedLive(d, truth)| - m, cands);
    NextHistory(s, d, truth, history, cands);
    MarkersAre(s, cands, live, truth, m);
    RepairListPrefix(live, truth, m, m + |cands|, j);
    DiskAfterRepairs(d, truth, history, m + j);
  }

  lemma SizesConcat(a: seq<Batch>, b: seq<Batch>)
    ensures SizesOf(a + b) == SizesOf(a) + SizesOf(b)
  {
  }

  lemma {:induction false} PublishedExtended(s: Stream, s': Stream, truth: Ledger, hist: seq<Batch>, more: seq<Batch>)
    requires PublishedInv(s, truth, hist) && s.batches + more <= hist
    requires s'.header == s.header && s'.batches == s.batches + more && s'.checkpointed == s.checkpointed
    requires s'.batchFileBytes == s.batchFileBytes + SizesOf(more)
    requires s'.finalizeVersions == s.finalizeVersions + VersionsOf(more, truth)
    requires s'.pending == s.pending + PendingOf(more)
    ensures PublishedInv(s', truth, hist)
  {
    hide VersionsOf, PendingOf, SizesOf;
    VersionsConcat(s.batches, more, truth);
    SizesConcat(s.batches, more);
    PendingConcat(s.batches[Checkpointed(s)..], more);
    assert s'.batches[Checkpointed(s)..] == s.batches[Checkpointed(s)..] + more;
  }

  lemma FinalizedParts(s: Stream, cands: seq<FinalizeCandidate>)
    requires cands != [] && FinalizersKnown(s, cands)
    ensures var s' := Finalized(s, cands, false);
            && s'.header == s.header && s'.batches == s.batches + Promoted(s, cands) && s'.checkpointed == s.checkpointed
            && s'.batchFileBytes == s.batchFileBytes + PromotedBytes(s, cands)
            && s'.finalizeVersions == s.finalizeVersions + CommitMap(cands)
            && s'.pending == s.pending + PendingOf(Promoted(s, cands))
  {
  }

  lemma {:induction false} FinalizePublishes(s: Stream, d: Disk, truth: Ledger, history: seq<Batch>,
                                             cands: seq<FinalizeCandidate>)
    requires StreamInv(s, d, truth, history) && |s.batches| <= |Live(d, truth)|
    requires MatchesPrefix(s, cands, Rest(s, d, truth)) && Truthful(cands, truth)
    ensures HistoryFits(d.header, history) && FinalizersKnown(s, cands)
    ensures |s.batches| + |cands| <= |Unreclaimed(d.header, history)|
    ensures PublishedInv(Finalized(s, cands, false), truth, Unreclaimed(d.header, history))
    ensures Finalized(s, cands, false).batches == Unreclaimed(d.header, history)[..|s.batches| + |cands|]
  {
    hide PreparedOf, MarkersOf, LiveOf, StreamInv, PublishedInv, UnresolvedInv, Truthful, Promoted, PromotedBytes, Names,
         CandidateMatches, FinalizersKnown, CommitMap, Finalized, Resolve, VersionsOf, SizesOf, PendingOf, HistoryFits, Chain,
         Ordered, Current;
    StreamFacts(s, d, truth, history);
    var live, m := Live(d, truth), |s.batches|;
    var hist := Unreclaimed(d.header, history);
    MatchNames(s, live, m, |SyncedLive(d, truth)| - m, cands);
    NextHistory(s, d, truth, history, cands);
    var new_ := hist[m..m + |cands|];
    PromotedAre(s, cands, live, m, new_);
    CommitMapIs(cands, new_, truth);
    BatchesWith(s.batches, hist, m + |cands|);
    FinalizedParts(s, cands);
    PublishedOf(s, d, truth, history);
    PublishedExtended(s, Finalized(s, cands, false), truth, hist, new_);
  }

  lemma BatchesWith(bs: seq<Batch>, hist: seq<Batch>, n: nat)
    requires bs <= hist && |bs| <= n <= |hist|
    ensures bs + hist[|bs|..n] == hist[..n]
  {
  }

  lemma PublishedOf(s: Stream, d: Disk, truth: Ledger, history: seq<Batch>)
    requires StreamInv(s, d, truth, history)
    ensures HistoryFits(d.header, history) && PublishedInv(s, truth, Unreclaimed(d.header, history))
  {
  }

  lemma {:induction false} FinalizeUnresolved(s: Stream, d: Disk, truth: Ledger, history: seq<Batch>,
                                              cands: seq<FinalizeCandidate>)
    requires StreamInv(s, d, truth, history) && |s.batches| <= |Live(d, truth)|
    requires MatchesPrefix(s, cands, Rest(s, d, truth))
    ensures d.synced <= |d.log| && |s.batches| + |cands| <= |Live(d, truth)|
    ensures UnresolvedInv(s.unresolved - FinalizerIds(cands), Live(d, truth)[|s.batches| + |cands|..],
                          |SyncedLive(d, truth)| - (|s.batches| + |cands|))
  {
    hide PreparedOf, MarkersOf, LiveOf, DiskInv, PublishedInv, UnresolvedInv;
    StreamFacts(s, d, truth, history);
    var rest, m, k := Rest(s, d, truth), |s.batches|, |cands|;
    forall i | 0 <= i < k ensures cands[i].txn == rest[..k][i].txn {
      assert CandidateMatches(s, cands[i], rest[i]);
    }
    hide CandidateMatches, FinalizerIds, TxnsOf;
    IdsAre(cands, rest[..k]);
    UnresolvedAfterFinalize(s.unresolved, rest, |SyncedLive(d, truth)| - m, k, FinalizerIds(cands));
    assert rest[k..] == Live(d, truth)[m + k..];
  }

  /** A pipelined finalize accepted for committed transactions keeps the
      invariant and publishes exactly the next batches of the history. */
  lemma {:induction false} PipelinedKeeps(s: Stream, d: Disk, truth: Ledger, history: seq<Batch>,
                                          cands: seq<FinalizeCandidate>)
    requires StreamInv(s, d, truth, history) && |s.batches| <= |Live(d, truth)|
    requires MatchesPrefix(s, cands, Rest(s, d, truth)) && Truthful(cands, truth)
    ensures FinalizersKnown(s, cands)
    ensures StreamInv(Finalized(s, cands, false), d.(log := d.log + MarkersToStage(s, cands)), truth, history)
  {
    hide PreparedOf, MarkersOf, LiveOf, DiskInv, PublishedInv, UnresolvedInv, MatchesPrefix, Truthful,
         MarkersToStage, FileSize, Promoted, PromotedBytes, CommitMap, FinalizerIds, PendingOf;
    StreamFacts(s, d, truth, history);
    FinalizePublishes(s, d, truth, history, cands);
    FinalizePartial(s, d, truth, history, cands, |cands|);
    FinalizeUnresolved(s, d, truth, history, cands);
    assert MarkersToStage(s, cands)[..|cands|] == MarkersToStage(s, cands);
    var log := d.log + MarkersToStage(s, cands);
    assert log[..d.synced] == d.log[..d.synced];
  }

  /** Finalizing with an immediate barrier is finalizing pipelined and then syncing. */
  lemma {:induction false} ImmediateIsPipelinedThenSync(s: Stream, cands: seq<FinalizeCandidate>)
    requires cands != [] && FinalizersKnown(s, cands)
    requires cands[|cands| - 1].prepared.after == Current(Finalized(s, cands, false))
    ensures Finalized(s, cands, true) == Synced(Finalized(s, cands, false))
  {
    var n := |cands| - 1;
    assert Promoted(s, cands) != [];
    PendingNonempty(Promoted(s, cands));
    var p := Finalized(s, cands, false).pending;
    var k :| k in PendingOf(Promoted(s, cands));
    assert k in p;
  }

  lemma {:induction false} LastCandidate(s: Stream, d: Disk, truth: Ledger, history: seq<Batch>,
                                         cands: seq<FinalizeCandidate>)
    requires StreamInv(s, d, truth, history) && |s.batches| <= |Live(d, truth)|
    requires MatchesPrefix(s, cands, Rest(s, d, truth))
    ensures FinalizersKnown(s, cands)
    ensures cands[|cands| - 1].prepared.after == Current(Finalized(s, cands, false))
  {
    hide PreparedOf, MarkersOf, LiveOf, DiskInv, PublishedInv, UnresolvedInv, MarkersToStage, FinalizerIds,
         CommitMap, PendingOf, PromotedBytes;
    StreamFacts(s, d, truth, history);
    MatchNames(s, Live(d, truth), |s.batches|, |SyncedLive(d, truth)| - |s.batches|, cands);
    var n := |cands| - 1;
    assert CandidateMatches(s, cands[n], Rest(s, d, truth)[n]);
    NotStaged(Live(d, truth)[|s.batches| + n]);
    assert Finalized(s, cands, false).batches[|s.batches| + n] == Promoted(s, cands)[n];
  }

  /** The same for a finalize with an immediate barrier. */
  lemma {:induction false} ImmediateKeeps(s: Stream, d: Disk, truth: Ledger, history: seq<Batch>,
                                          cands: seq<FinalizeCandidate>)
    requires StreamInv(s, d, truth, history) && |s.batches| <= |Live(d, truth)|
    requires MatchesPrefix(s, cands, Rest(s, d, truth)) && Truthful(cands, truth)
    ensures FinalizersKnown(s, cands)
    ensures var log := d.log + MarkersToStage(s, cands);
            StreamInv(Finalized(s, cands, true), Disk(d.header, log, |log|), truth, history)
  {
    hide StreamInv, PreparedOf, MarkersOf, LiveOf, MarkersToStage, Finalized, Truthful, FinalizersKnown, Synced,
         Current;
    PipelinedKeeps(s, d, truth, history, cands);
    LastCandidate(s, d, truth, history, cands);
    ImmediateIsPipelinedThenSync(s, cands);
    SyncKeeps(Finalized(s, cands, false), d.(log := d.log + MarkersToStage(s, cands)), truth, history);
  }
}
