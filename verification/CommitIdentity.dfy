/** A finalize with any commit at all, and what an open makes of its marker. */
module CommitIdentity {
  import opened Wrappers
  import opened Widths
  import opened ChangeTypes
  import opened Codec
  import opened LogFile
  import opened Loading
  import opened LoadingInverse
  import opened LogViews
  import opened StreamSpec
  import opened DiskInvariant
  import opened StreamInvariant
  import opened Recovery
  import opened RecoveryProof
  import opened CrashSafety
  import opened ProtocolSteps
  import opened ProtocolFinalize
  import opened Reopening
  import opened Restarts

  /** The file after a finalize of one candidate: its marker is appended as the candidate says. */
  function MarkedBytes(crc: Checksum, d: Disk, txn: u64, commit: Option<u64>): seq<byte>
    requires LoadableLog(d.header, d.log)
  {
    FileBytes(crc, d.header, d.log) + Frame(crc, FinalizePayload(txn, commit))
  }

  /** The log that file decodes to. */
  function MarkedLog(d: Disk, txn: u64, commit: Option<u64>): seq<Record> {
    d.log + [Record.Finalize(txn, ReadBack(commit))]
  }

  lemma {:induction false} MarkedBytesAre(crc: Checksum, d: Disk, txn: u64, commit: Option<u64>)
    requires LoadableLog(d.header, d.log) && txn != 0
    ensures LoadableLog(d.header, MarkedLog(d, txn, commit))
    ensures FileBytes(crc, d.header, MarkedLog(d, txn, commit)) == MarkedBytes(crc, d, txn, commit)
  {
    hide FinalizePayload, Frame, EncodeHeader;
    FinalizeReadsBack(txn, commit);
    var log := MarkedLog(d, txn, commit);
    assert log[..|log| - 1] == d.log;
    var head, front, last := EncodeHeader(crc, d.header), LogBytes(crc, d.header, d.log), Frame(crc, FinalizePayload(txn, commit));
    assert head + (front + last) == (head + front) + last;
  }

  /** A single candidate that finalize accepts: the oldest reservation, which the
      engine has just decided with the candidate's commit, whatever that is.  The
      ledger is the one before the decision. */
  ghost predicate Accepted(s: Stream, d: Disk, truth: Ledger, history: seq<Batch>, c: FinalizeCandidate, immediate: bool) {
    && StreamInv(s, d, truth, history) && HistoryFits(d.header, history)
    && |s.batches| == |Unreclaimed(d.header, history)|
    && FinalizeError(s, [c], immediate).None? && !AlreadyPublished(s, [c])
  }

  /** Then it names the oldest reservation, which is durable. */
  lemma {:induction false} AcceptedIsOldest(s: Stream, d: Disk, truth: Ledger, history: seq<Batch>, c: FinalizeCandidate, immediate: bool)
    requires Accepted(s, d, truth, history, c, immediate)
    ensures |s.batches| < |Live(d, truth)| && CandidateMatches(s, c, Live(d, truth)[|s.batches|])
    ensures c.txn in s.unresolved && s.unresolved[c.txn].batch == Live(d, truth)[|s.batches|] && c.txn != 0
    ensures OutcomeOf(truth, c.txn) == Unresolved && FinalizersKnown(s, [c])
    ensures LoadableLog(d.header, d.log) && s.header == d.header
  {
    hide StreamInv, DiskInv, PreparedOf, LiveOf, UnresolvedInv, FinalizeError, AlreadyPublished, CandidateMatches,
         Encodable, LoadableLog;
    StreamFacts(s, d, truth, history);
    SameHeader(s, d, truth, history);
    FinalizeTakesPrefix(s, d, truth, history, [c], immediate);
    var b := Live(d, truth)[|s.batches|];
    assert Rest(s, d, truth)[0] == b;
    assert CandidateMatches(s, [c][0], b);
    NamesIt(s, c, b);
    ReservationAt(s.unresolved, Rest(s, d, truth), |SyncedLive(d, truth)| - |s.batches|, 0);
    LiveLoadableAt(d, truth, history, |s.batches|);
    FactsForLoad(d, truth, history);
    UndecidedAt(d, truth, history, |s.batches|);
  }

  lemma NamesIt(s: Stream, c: FinalizeCandidate, b: Batch)
    requires CandidateMatches(s, c, b)
    ensures c.txn == b.txn && c.prepared == Identity(b) && b.txn in s.unresolved && s.unresolved[b.txn].preparedDurable
  {
  }

  lemma {:induction false} UndecidedAt(d: Disk, truth: Ledger, history: seq<Batch>, i: nat)
    requires DiskInv(d, truth, history) && |Unreclaimed(d.header, history)| <= i < |Live(d, truth)|
    ensures OutcomeOf(truth, Live(d, truth)[i].txn) == Unresolved
  {
  }

  // ---------------------------------------------------------------------------
  // A commit that is read back as one an engine reports
  // ---------------------------------------------------------------------------

  /** The stream a reopen rebuilds behind that marker. */
  lemma {:induction false} FitReopens(crc: Checksum, s: Stream, d: Disk, truth: Ledger, history: seq<Batch>, c: FinalizeCandidate,
                                      immediate: bool, outcome: u64 -> Outcome)
    requires Accepted(s, d, truth, history, c, immediate) && CommitFits(d.header.kind, ReadBack(c.commit))
    requires Reports(outcome, truth[c.txn := Committed(ReadBack(c.commit))], MarkersOf(MarkedLog(d, c.txn, c.commit)))
    ensures LoadableLog(d.header, d.log) && FinalizersKnown(s, [c])
    ensures var reopened := OpenBytes(crc, MarkedBytes(crc, d, c.txn, c.commit), outcome);
            && reopened.Ok?
            && reopened.value.stream.batches == s.batches + [Resolve(s.unresolved[c.txn].batch, ReadBack(c.commit))]
            && reopened.value.stream.finalizeVersions == s.finalizeVersions[c.txn := ReadBack(c.commit)]
  {
    hide StreamInv, DiskInv, PreparedOf, MarkersOf, LiveOf, Reports, OpenBytes, FileBytes, FinalizeError,
         AlreadyPublished, CommitFits, LoadableLog, HistoryFits, Rebuilt, LastSequence, Resolve, CandidateMatches,
         Accepted, MarkedBytes, MarkersToStage, Finalized;
    var c', truth' := c.(commit := ReadBack(c.commit)), truth[c.txn := Committed(ReadBack(c.commit))];
    AcceptedIsOldest(s, d, truth, history, c, immediate);
    MarkedBytesAre(crc, d, c.txn, c.commit);
    var b := s.unresolved[c.txn].batch;
    var history' := history + [Resolve(b, c'.commit)];
    FinalizeFits(s, d, truth, history, c, immediate);
    var d1 := d.(log := MarkedLog(d, c.txn, c.commit));
    var d' := d1.(synced := |d1.log|);
    DiskAfterSyncAll(d1, truth', history');
    OpenComplete(crc, d', truth', history', outcome);
    RebuiltVersions(d', truth', history');
    AllMarked(Finalized(s, [c'], false), d1, truth', history');
    VersionsAre(Finalized(s, [c'], false), d1, truth', history');
  }

  /** As a commit the engine could report, it goes through the ordinary protocol. */
  lemma {:induction false} FinalizeFits(s: Stream, d: Disk, truth: Ledger, history: seq<Batch>, c: FinalizeCandidate, immediate: bool)
    requires Accepted(s, d, truth, history, c, immediate) && CommitFits(d.header.kind, ReadBack(c.commit))
    ensures c.txn in s.unresolved && FinalizersKnown(s, [c])
    ensures var c', truth' := c.(commit := ReadBack(c.commit)), truth[c.txn := Committed(ReadBack(c.commit))];
            var b := s.unresolved[c.txn].batch;
            var d1, history' := d.(log := MarkedLog(d, c.txn, c.commit)), history + [Resolve(b, c'.commit)];
            && FinalizersKnown(s, [c'])
            && DiskInv(d1, truth', history') && StreamInv(Finalized(s, [c'], false), d1, truth', history')
            && |MarkersOf(d1.log)| == |Unreclaimed(d.header, history')|
            && Finalized(s, [c'], false).batches == s.batches + [Resolve(b, c'.commit)]
            && Finalized(s, [c'], false).finalizeVersions == s.finalizeVersions[c.txn := c'.commit]
  {
    hide Accepted, StreamInv, DiskInv, PreparedOf, MarkersOf, LiveOf, CommitFits, HistoryFits, Resolve,
         MatchesPrefix, CandidateMatches, Truthful, Finalized, FinalizersKnown, MarkersToStage;
    CommitReady(s, d, truth, history, c, immediate);
    NotYetStaged(s, d, truth, history, c, immediate);
    AcceptedFacts(s, d, truth, history, c, immediate);
    var c', truth' := c.(commit := ReadBack(c.commit)), truth[c.txn := Committed(ReadBack(c.commit))];
    var b := s.unresolved[c.txn].batch;
    var d1, history' := d.(log := MarkedLog(d, c.txn, c.commit)), history + [Resolve(b, c'.commit)];
    FinalizedOne(s, c', b);
    PipelinedKeeps(s, d, truth', history', [c']);
    SameHeader(Finalized(s, [c'], false), d1, truth', history');
    AllMarked(Finalized(s, [c'], false), d1, truth', history');
    GrownByOne(d.header, history, Resolve(b, c'.commit));
  }

  lemma {:induction false} CommitReady(s: Stream, d: Disk, truth: Ledger, history: seq<Batch>, c: FinalizeCandidate, immediate: bool)
    requires Accepted(s, d, truth, history, c, immediate) && CommitFits(d.header.kind, ReadBack(c.commit))
    ensures c.txn in s.unresolved && FinalizersKnown(s, [c])
    ensures var c', truth' := c.(commit := ReadBack(c.commit)), truth[c.txn := Committed(ReadBack(c.commit))];
            var history' := history + [Resolve(s.unresolved[c.txn].batch, c'.commit)];
            && StreamInv(s, d, truth', history') && |s.batches| <= |Live(d, truth')|
            && MatchesPrefix(s, [c'], Rest(s, d, truth')) && Truthful([c'], truth')
  {
    hide StreamInv, DiskInv, PreparedOf, LiveOf, FinalizeError, AlreadyPublished, CommitFits, HistoryFits, Resolve,
         ValidCommittedBatch, Encodable, UnresolvedInv;
    AcceptedIsOldest(s, d, truth, history, c, immediate);
    var commit, b := ReadBack(c.commit), s.unresolved[c.txn].batch;
    SameHeader(s, d, truth, history);
    CommitKeeps(s, d, truth, history, c.txn, commit);
    DiskFacts(d, truth, history);
    SyncedAfterCommit(d, truth, c.txn, commit);
    LiveLoadableAt(d, truth, history, |s.batches|);
    CommitMakesValid(d.header, b, commit);
    assert Live(d, truth)[|s.batches|..][0] == b && CandidateMatches(s, c.(commit := commit), b);
  }

  lemma {:induction false} GrownByOne(h: Header, history: seq<Batch>, b: Batch)
    requires HistoryFits(h, history) && HistoryFits(h, history + [b])
    ensures |Unreclaimed(h, history + [b])| == |Unreclaimed(h, history)| + 1
  {
  }

  lemma AllMarked(s: Stream, d: Disk, truth: Ledger, history: seq<Batch>)
    requires StreamInv(s, d, truth, history)
    ensures |MarkersOf(d.log)| == |s.batches| && HistoryFits(d.header, history)
  {
  }

  lemma {:induction false} FinalizedOne(s: Stream, c: FinalizeCandidate, b: Batch)
    requires c.txn in s.unresolved && s.unresolved[c.txn].batch == b && s.unresolved[c.txn].stagedFinalize.None?
    ensures FinalizersKnown(s, [c]) && MarkersToStage(s, [c]) == [Record.Finalize(c.txn, c.commit)]
    ensures forall immediate :: Finalized(s, [c], immediate).batches == s.batches + [Resolve(b, c.commit)]
    ensures forall immediate :: Finalized(s, [c], immediate).finalizeVersions == s.finalizeVersions[c.txn := c.commit]
  {
    hide Resolve;
    var cs := [c];
    assert cs[..0] == [] && Promoted(s, cs) == [Resolve(b, c.commit)] && CommitMap(cs) == map[c.txn := c.commit];
  }

  lemma {:induction false} RebuiltVersions(d: Disk, truth: Ledger, history: seq<Batch>)
    requires DiskInv(d, truth, history) && LastSequence(PreparedOf(d.log)) < MAX_U64
    requires |MarkersOf(d.log)| <= |Unreclaimed(d.header, history)| <= |Live(d, truth)|
    ensures var s := Rebuilt(d, truth, history);
            s.batches == Unreclaimed(d.header, history) && s.finalizeVersions == VersionsOf(s.batches, truth)
  {
    hide DiskInv, PreparedOf, MarkersOf, LiveOf, LastSequence, SizesOf, VersionsOf, UnresolvedMap, HistoryFits;
  }

  lemma {:induction false} VersionsAre(s: Stream, d: Disk, truth: Ledger, history: seq<Batch>)
    requires StreamInv(s, d, truth, history) && HistoryFits(d.header, history) && |s.batches| == |Unreclaimed(d.header, history)|
    ensures s.batches == Unreclaimed(d.header, history) && s.finalizeVersions == VersionsOf(s.batches, truth)
  {
    hide DiskInv, PreparedOf, MarkersOf, LiveOf, VersionsOf, UnresolvedInv, SizesOf;
  }

  // ---------------------------------------------------------------------------
  // A commit that is not
  // ---------------------------------------------------------------------------

  /** The records of the marked log, whatever the commit. */
  lemma {:induction false} MarkedLoads(s: Stream, d: Disk, truth: Ledger, history: seq<Batch>, c: FinalizeCandidate, immediate: bool,
                                       outcome: u64 -> Outcome)
    requires Accepted(s, d, truth, history, c, immediate)
    requires Reports(outcome, truth[c.txn := Committed(ReadBack(c.commit))], MarkersOf(MarkedLog(d, c.txn, c.commit)))
    ensures var truth', log := truth[c.txn := Committed(ReadBack(c.commit))], MarkedLog(d, c.txn, c.commit);
            && PreparedOf(log) == PreparedOf(d.log) && MarkersOf(log) == MarkersOf(d.log) + [Marker(c.txn, ReadBack(c.commit))]
            && LoadRecords(log, outcome) == Ok(TruthRecords(PreparedOf(d.log), truth', MarkersOf(log)))
  {
    hide StreamInv, DiskInv, PreparedOf, MarkersOf, LiveOf, FinalizeError, AlreadyPublished, CandidateMatches,
         Accepted, LoadRecords, Reports, MarkersFollow, Ordered, MarkersAgree;
    AcceptedIsOldest(s, d, truth, history, c, immediate);
    var truth', log := truth[c.txn := Committed(ReadBack(c.commit))], MarkedLog(d, c.txn, c.commit);
    PreparedAppend(d.log, Record.Finalize(c.txn, ReadBack(c.commit)));
    MarkerFits(s, d, truth, history, c, immediate);
    LoadsTruth(log, Live(d, truth), truth', outcome);
  }

  lemma {:induction false} MarkerFits(s: Stream, d: Disk, truth: Ledger, history: seq<Batch>, c: FinalizeCandidate, immediate: bool)
    requires Accepted(s, d, truth, history, c, immediate)
    ensures var truth', log := truth[c.txn := Committed(ReadBack(c.commit))], MarkedLog(d, c.txn, c.commit);
            MarkersFollow(log) && Ordered(PreparedOf(d.log)) &&
            MarkersAgree(MarkersOf(d.log) + [Marker(c.txn, ReadBack(c.commit))], Live(d, truth), truth')
  {
    hide PreparedOf, MarkersOf, LiveOf, FinalizeError, AlreadyPublished, CandidateMatches, LoadableLog,
         UnresolvedInv, PublishedInv, Chain, HistoryFits, Agrees;
    AcceptedIsOldest(s, d, truth, history, c, immediate);
    StreamFacts(s, d, truth, history);
    NamesIt(s, c, Live(d, truth)[|s.batches|]);
    var live, m, ms := Live(d, truth), |s.batches|, MarkersOf(d.log);
    var log := MarkedLog(d, c.txn, c.commit);
    assert log[..|log| - 1] == d.log;
    forall i | 0 <= i < |ms| ensures ms[i].txn == live[i].txn && ms[i].txn != c.txn { TxnDiffers(live, i, m); }
    HasTxnLive(PreparedOf(d.log), truth, m);
  }

  lemma TxnDiffers(bs: seq<Batch>, i: nat, j: nat)
    requires Ordered(bs) && i < j < |bs|
    ensures bs[i].txn != bs[j].txn
  {
  }

  /** Without a sequence, an LSM marker ends the open. */
  lemma {:induction false} UnfitRefused(crc: Checksum, s: Stream, d: Disk, truth: Ledger, history: seq<Batch>, c: FinalizeCandidate,
                                        immediate: bool, outcome: u64 -> Outcome)
    requires Accepted(s, d, truth, history, c, immediate) && d.header.kind.LsmStorage? && ReadBack(c.commit).None?
    requires Reports(outcome, truth[c.txn := Committed(ReadBack(c.commit))], MarkersOf(MarkedLog(d, c.txn, c.commit)))
    ensures LoadableLog(d.header, d.log)
    ensures OpenBytes(crc, MarkedBytes(crc, d, c.txn, c.commit), outcome) == Err(InvalidRecord(LsmFinalizeWithoutCommit))
  {
    hide StreamInv, DiskInv, PreparedOf, MarkersOf, LiveOf, FinalizeError, AlreadyPublished, CandidateMatches,
         Accepted, LoadRecords, Reports, Gather, LoadableLog, FileBytes, MarkedBytes, LoadFile, TruthRecords,
         MarkedLog, FileSize, HistoryFits;
    AcceptedIsOldest(s, d, truth, history, c, immediate);
    MarkedBytesAre(crc, d, c.txn, c.commit);
    MarkedLoads(s, d, truth, history, c, immediate, outcome);
    AcceptedFacts(s, d, truth, history, c, immediate);
    FactsForLoad(d, truth, history);
    WholeFileLoads(crc, d.header, MarkedLog(d, c.txn, c.commit), outcome, true);
    GatherRefuses(s, d, truth, history, c, immediate, FileSize(d.header, MarkedLog(d, c.txn, c.commit)));
  }

  lemma {:induction false} AcceptedFacts(s: Stream, d: Disk, truth: Ledger, history: seq<Batch>, c: FinalizeCandidate, immediate: bool)
    requires Accepted(s, d, truth, history, c, immediate)
    ensures DiskInv(d, truth, history) && HistoryFits(d.header, history)
    ensures |MarkersOf(d.log)| == |s.batches| == |Unreclaimed(d.header, history)| < |Live(d, truth)|
  {
    hide DiskInv, PreparedOf, MarkersOf, LiveOf, FinalizeError, AlreadyPublished, CandidateMatches, HistoryFits;
    AcceptedIsOldest(s, d, truth, history, c, immediate);
  }

  lemma {:induction false} GatherRefuses(s: Stream, d: Disk, truth: Ledger, history: seq<Batch>, c: FinalizeCandidate, immediate: bool,
                                         fileBytes: nat)
    requires Accepted(s, d, truth, history, c, immediate) && d.header.kind.LsmStorage? && ReadBack(c.commit).None?
    requires fileBytes == FileSize(d.header, MarkedLog(d, c.txn, c.commit))
    ensures var truth', ms' := truth[c.txn := Committed(ReadBack(c.commit))], MarkersOf(d.log) + [Marker(c.txn, ReadBack(c.commit))];
            Gather(d.header.kind, TruthRecords(PreparedOf(d.log), truth', ms'), fileBytes) == Err(InvalidRecord(LsmFinalizeWithoutCommit))
  {
    hide StreamInv, DiskInv, PreparedOf, MarkersOf, LiveOf, FinalizeError, AlreadyPublished, CandidateMatches,
         Accepted, Ordered, Recoverable, MarksCommitted, RepairsOf, CommittedOf, UnresolvedOf, Marked, FileSize,
         HistoryFits, Agrees, MarkersAgree, TxnsOf;
    AcceptedIsOldest(s, d, truth, history, c, immediate);
    AcceptedFacts(s, d, truth, history, c, immediate);
    var bs, ms, commit := PreparedOf(d.log), MarkersOf(d.log), ReadBack(c.commit);
    var k := IndexOf(s, d, truth, history, c, immediate);
    MarkedSize(s, d, truth, history, c, immediate);
    FrontGathers(d, truth, history, k, fileBytes);
    SameFront(bs, k, truth, ms, commit);
    RefusedAt(d.header.kind, bs, k, truth[c.txn := Committed(commit)], ms + [Marker(c.txn, commit)], fileBytes);
  }

  /** The rebuild ends at the first LSM record committed without a sequence. */
  lemma {:induction false} RefusedAt(kind: StorageKind, bs: seq<Batch>, k: nat, truth: Ledger, ms: seq<Marker>, fileBytes: nat)
    requires kind.LsmStorage? && k < |bs| && OutcomeOf(truth, bs[k].txn) == Committed(None)
    requires Gather(kind, TruthRecords(bs, truth, ms)[..k], fileBytes).Ok?
    requires bs[k].txn !in Gather(kind, TruthRecords(bs, truth, ms)[..k], fileBytes).value.seen
    ensures Gather(kind, TruthRecords(bs, truth, ms), fileBytes) == Err(InvalidRecord(LsmFinalizeWithoutCommit))
  {
    hide Marked, GatherOne;
    var rs := TruthRecords(bs, truth, ms);
    OneRefused(kind, Gather(kind, rs[..k], fileBytes).value, rs[k]);
    GatherNext(kind, rs, k, fileBytes);
    GatherErrorStays(kind, rs, fileBytes, k + 1);
  }

  lemma OneRefused(kind: StorageKind, g: Gathered, r: PreparedRecord)
    requires kind.LsmStorage? && r.outcome == Committed(None) && r.batch.txn !in g.seen
    ensures GatherOne(kind, g, r) == Err(InvalidRecord(LsmFinalizeWithoutCommit))
  {
  }

  lemma {:induction false} GatherNext(kind: StorageKind, rs: seq<PreparedRecord>, k: nat, fileBytes: nat)
    requires k < |rs| && Gather(kind, rs[..k], fileBytes).Ok?
    ensures Gather(kind, rs[..k + 1], fileBytes) == GatherOne(kind, Gather(kind, rs[..k], fileBytes).value, rs[k])
  {
    hide GatherOne;
    assert rs[..k + 1][..k] == rs[..k];
  }

  /** Where the reservation stands in the log. */
  lemma {:induction false} IndexOf(s: Stream, d: Disk, truth: Ledger, history: seq<Batch>, c: FinalizeCandidate, immediate: bool) returns (k: nat)
    requires Accepted(s, d, truth, history, c, immediate)
    ensures c.txn in s.unresolved && k < |PreparedOf(d.log)| && PreparedOf(d.log)[k] == s.unresolved[c.txn].batch
    ensures s.unresolved[c.txn].batch.txn == c.txn && Ordered(PreparedOf(d.log)) && c.txn !in TxnsOf(PreparedOf(d.log)[..k])
  {
    hide PreparedOf, MarkersOf, LiveOf, FinalizeError, AlreadyPublished, UnresolvedInv, PublishedInv, ViewInv,
         LoadableLog, HistoryFits;
    AcceptedIsOldest(s, d, truth, history, c, immediate);
    var b := Live(d, truth)[|s.batches|];
    assert b in Live(d, truth);
    LiveIn(PreparedOf(d.log), truth, b);
    k :| 0 <= k < |PreparedOf(d.log)| && PreparedOf(d.log)[k] == b;
    LaterIsNew(PreparedOf(d.log), k, k);
  }

  /** The records before it are gathered, and need no repair. */
  lemma {:induction false} FrontGathers(d: Disk, truth: Ledger, history: seq<Batch>, k: nat, fileBytes: nat)
    requires DiskInv(d, truth, history) && k <= |PreparedOf(d.log)| && fileBytes <= MAX_U64
    requires HistoryFits(d.header, history) && |MarkersOf(d.log)| == |Unreclaimed(d.header, history)|
    ensures var g := Gather(d.header.kind, TruthRecords(PreparedOf(d.log)[..k], truth, MarkersOf(d.log)), fileBytes);
            g.Ok? && g.value.seen == TxnsOf(PreparedOf(d.log)[..k])
  {
    hide PreparedOf, MarkersOf, LiveOf, Gather, TruthRecords, Recoverable, MarksCommitted, RepairsOf, CommittedOf,
         UnresolvedOf, TxnsOf, HistoryFits, WellFormedLog, Chain, UnresolvedMap, EntriesOf, VersionsOf, LastSequence,
         Agrees, MarkersAgree, DiskInv;
    var bs, ms, live := PreparedOf(d.log), MarkersOf(d.log), Live(d, truth);
    PrefixFacts(d, truth, history, |d.log|);
    assert d.log[..|d.log|] == d.log;
    AllRecoverable(d, truth, history);
    OrderedPrefix(bs, k);
    LivePrefix(bs[..k], bs, truth);
    RepairsAre(d.header.kind, bs[..k], live, truth, ms, Unreclaimed(d.header, history));
    GatherShape(d.header, bs[..k], truth, ms, fileBytes);
  }

  /** One more marker and one more decision change nothing about other transactions. */
  lemma {:induction false} SameFront(bs: seq<Batch>, k: nat, truth: Ledger, ms: seq<Marker>, commit: Option<u64>)
    requires Ordered(bs) && k < |bs|
    ensures TruthRecords(bs, truth[bs[k].txn := Committed(commit)], ms + [Marker(bs[k].txn, commit)])[..k] == TruthRecords(bs[..k], truth, ms)
  {
    hide Marked;
    var t, ms' := bs[k].txn, ms + [Marker(bs[k].txn, commit)];
    forall i | 0 <= i < k ensures TruthRecord(bs[i], truth[t := Committed(commit)], ms') == TruthRecord(bs[i], truth, ms) {
      assert ms'[..|ms'| - 1] == ms;
      MarkedFront(ms', bs[i].txn);
    }
  }

  lemma {:induction false} MarkedSize(s: Stream, d: Disk, truth: Ledger, history: seq<Batch>, c: FinalizeCandidate, immediate: bool)
    requires Accepted(s, d, truth, history, c, immediate)
    ensures FileSize(d.header, MarkedLog(d, c.txn, c.commit)) <= MAX_U64
  {
    hide PreparedOf, MarkersOf, LiveOf, FinalizeError, AlreadyPublished, CandidateMatches, FileSize, LoadableLog,
         ReservedSize, Accepted, ViewInv, HistoryFits;
    AcceptedFacts(s, d, truth, history, c, immediate);
    FileAppend(d.header, d.log, Record.Finalize(c.txn, ReadBack(c.commit)));
    FileSizeSplit(d.header, d.log);
    LiveShorter(PreparedOf(d.log), truth);
  }

  // ---------------------------------------------------------------------------
  // Exactly when a published batch survives
  // ---------------------------------------------------------------------------

  /** The marked transaction may be reported in any way. */
  lemma ReportsDecided(outcome: u64 -> Outcome, truth: Ledger, ms: seq<Marker>, txn: u64, commit: Option<u64>)
    requires Reports(outcome, truth, ms) && Marked(ms, txn)
    ensures Reports(outcome, truth[txn := Committed(commit)], ms)
  {
  }

  lemma {:induction false} MarkedIsMarked(d: Disk, txn: u64, commit: Option<u64>)
    ensures Marked(MarkersOf(MarkedLog(d, txn, commit)), txn)
  {
    hide MarkersOf;
    PreparedAppend(d.log, Record.Finalize(txn, ReadBack(commit)));
    var ms := MarkersOf(MarkedLog(d, txn, commit));
    assert ms[|ms| - 1].txn == txn;
  }

  /** In every reachable state, for every commit the oldest undecided reservation is
      decided with: a batch that finalize publishes is read back from the file as it
      was published, batch and commit, if and only if the commit is not zero and, on
      LSM storage, is there at all.  Finalize itself checks neither of a batch without
      placeholders; an LSM log with such a marker does not open. */
  lemma {:induction false} FinalizedReopensIff(crc: Checksum, s: Stream, d: Disk, truth: Ledger, history: seq<Batch>, c: FinalizeCandidate,
                                               immediate: bool, outcome: u64 -> Outcome)
    requires Accepted(s, d, truth, history, c, immediate)
    requires Reports(outcome, truth, MarkersOf(MarkedLog(d, c.txn, c.commit)))
    ensures LoadableLog(d.header, d.log) && FinalizersKnown(s, [c])
    ensures var reopened := OpenBytes(crc, MarkedBytes(crc, d, c.txn, c.commit), outcome);
            var published := Finalized(s, [c], immediate);
            && ((reopened.Ok? && reopened.value.stream.batches == published.batches &&
                 reopened.value.stream.finalizeVersions == published.finalizeVersions) <==> CommitFits(d.header.kind, c.commit))
            && (d.header.kind.LsmStorage? && !CommitFits(d.header.kind, c.commit) ==> reopened == Err(InvalidRecord(LsmFinalizeWithoutCommit)))
  {
    hide StreamInv, MarkersOf, Reports, OpenBytes, MarkedBytes, FinalizeError, AlreadyPublished, LoadableLog,
         Resolve, CandidateMatches, Accepted, Finalized, MarkedLog, PreparedOf, LiveOf;
    AcceptedIsOldest(s, d, truth, history, c, immediate);
    MarkedIsMarked(d, c.txn, c.commit);
    ReportsDecided(outcome, truth, MarkersOf(MarkedLog(d, c.txn, c.commit)), c.txn, ReadBack(c.commit));
    NotYetStaged(s, d, truth, history, c, immediate);
    FinalizedOne(s, c, s.unresolved[c.txn].batch);
    if d.header.kind.LsmStorage? && ReadBack(c.commit).None? {
      UnfitRefused(crc, s, d, truth, history, c, immediate, outcome);
    } else {
      FitReopens(crc, s, d, truth, history, c, immediate, outcome);
      Differs(s.finalizeVersions, c.txn, c.commit);
    }
  }

  /** A zero commit is read back as none. */
  lemma {:induction false} Differs(m: map<u64, Option<u64>>, txn: u64, commit: Option<u64>)
    ensures m[txn := ReadBack(commit)] == m[txn := commit] <==> commit != Some(0)
  {
    assert m[txn := ReadBack(commit)][txn] == ReadBack(commit);
  }

  lemma {:induction false} NotYetStaged(s: Stream, d: Disk, truth: Ledger, history: seq<Batch>, c: FinalizeCandidate, immediate: bool)
    requires Accepted(s, d, truth, history, c, immediate)
    ensures c.txn in s.unresolved && s.unresolved[c.txn].stagedFinalize.None?
  {
    hide StreamInv, PreparedOf, LiveOf, FinalizeError, AlreadyPublished, UnresolvedInv, CandidateMatches, HistoryFits;
    AcceptedIsOldest(s, d, truth, history, c, immediate);
    StreamFacts(s, d, truth, history);
    NamesIt(s, c, Rest(s, d, truth)[0]);
    ReservationAt(s.unresolved, Rest(s, d, truth), |SyncedLive(d, truth)| - |s.batches|, 0);
  }

  /** LSM deletes alone have no placeholder to resolve, so finalize takes them
      without a sequence; the log then does not open. */
  lemma {:induction false} LsmDeleteWithoutCommit(crc: Checksum, s: Stream, d: Disk, truth: Ledger, history: seq<Batch>, commit: Option<u64>,
                                                  immediate: bool, outcome: u64 -> Outcome)
    requires StreamInv(s, d, truth, history) && HistoryFits(d.header, history) && d.header.kind.LsmStorage?
    requires |s.batches| == |Unreclaimed(d.header, history)| < |Live(d, truth)| && (commit == None || commit == Some(0))
    requires var b := Live(d, truth)[|s.batches|];
             && b.txn in s.unresolved && s.unresolved[b.txn].preparedDurable
             && (forall i :: 0 <= i < |b.mutations| ==> b.mutations[i].Delete?)
             && Reports(outcome, truth, MarkersOf(MarkedLog(d, b.txn, commit)))
    ensures var b := Live(d, truth)[|s.batches|];
            var c := FinalizeCandidate(b.txn, Identity(b), commit);
            && FinalizeError(s, [c], immediate).None? && !AlreadyPublished(s, [c]) && LoadableLog(d.header, d.log)
            && OpenBytes(crc, MarkedBytes(crc, d, b.txn, commit), outcome) == Err(InvalidRecord(LsmFinalizeWithoutCommit))
  {
    hide StreamInv, DiskInv, PreparedOf, LiveOf, MarkersOf, FinalizeError, AlreadyPublished, Reports, OpenBytes,
         MarkedBytes, LoadableLog, MarkedLog, UnresolvedInv, EncoderAccepts;
    var b := Live(d, truth)[|s.batches|];
    var c := FinalizeCandidate(b.txn, Identity(b), commit);
    StreamFacts(s, d, truth, history);
    SameHeader(s, d, truth, history);
    LiveLoadableAt(d, truth, history, |s.batches|);
    DeletesAreValid(d.header, b, commit);
    assert Rest(s, d, truth)[0] == b && CandidateMatches(s, [c][0], b);
    FinalizeTakesPrefix(s, d, truth, history, [c], immediate);
    FinalizedReopensIff(crc, s, d, truth, history, c, immediate, outcome);
  }

  lemma {:induction false} DeletesAreValid(h: Header, b: Batch, commit: Option<u64>)
    requires Encodable(h, b) && forall i :: 0 <= i < |b.mutations| ==> b.mutations[i].Delete?
    ensures ValidCommittedBatch(h.kind, Resolve(b, commit))
  {
    var r := Resolve(b, commit);
    forall i | 0 <= i < |r.mutations| ensures ValidCommitted(h.kind, r.mutations[i]) {
      assert ValidPending(h.kind, b.mutations[i]);
    }
  }
}
