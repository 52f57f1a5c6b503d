/** Reclaiming history: the rewritten log holds exactly the retained batches. */
module ProtocolGc {
  import opened Wrappers
  import opened Widths
  import opened ChangeTypes
  import opened Codec
  import opened LogFile
  import opened Loading
  import opened LogViews
  import opened StreamSpec
  import opened DiskInvariant
  import opened StreamInvariant
  import opened RecoveryProof
  import opened ProtocolSteps

  // ---------------------------------------------------------------------------
  // The rewritten log
  // ---------------------------------------------------------------------------

  /** A committed batch that can be written back with its marker. */
  predicate Rewritable(h: Header, b: Batch, versions: map<u64, Option<u64>>) {
    Encodable(h, b) && b.txn in versions && versions[b.txn] != Some(0)
  }

  lemma RewritableEncodes(h: Header, b: Batch, versions: map<u64, Option<u64>>)
    requires Rewritable(h, b, versions)
    ensures EncodeError(b).None? && b.txn in versions && b.txn != 0
    ensures LoadableRecord(h, Prepared(b)) && LoadableRecord(h, Finalize(b.txn, versions[b.txn]))
  {
  }

  predicate MarkersMatch(ms: seq<Marker>, bs: seq<Batch>, versions: map<u64, Option<u64>>) {
    && |ms| == |bs|
    && forall i :: 0 <= i < |bs| ==>
         ms[i].txn == bs[i].txn && bs[i].txn in versions && ms[i].commit == versions[bs[i].txn]
  }

  predicate RewrittenFrom(h: Header, log: seq<Record>, bs: seq<Batch>, versions: map<u64, Option<u64>>) {
    && PreparedOf(log) == bs && MarkersMatch(MarkersOf(log), bs, versions)
    && MarkersFollow(log) && LoadableLog(h, log) && LogSize(log) == ReservedSize(bs)
  }

  lemma {:induction false} RetainedShape(h: Header, bs: seq<Batch>, versions: map<u64, Option<u64>>)
    requires Ordered(bs) && forall i :: 0 <= i < |bs| ==> Rewritable(h, bs[i], versions)
    ensures RetainedLog(bs, versions).Ok?
    ensures RewrittenFrom(h, RetainedLog(bs, versions).value, bs, versions)
  {
    hide Rewritable, EncodeError, RewrittenFrom;
    if bs == [] {
      RetainedNothing(h, versions);
    } else {
      var n := |bs| - 1;
      var front, b := bs[..n], bs[n];
      RetainedShape(h, front, versions);
      RewritableEncodes(h, b, versions);
      assert bs == front + [b];
      RetainedPair(h, front, RetainedLog(front, versions).value, b, versions);
    }
  }

  lemma RetainedNothing(h: Header, versions: map<u64, Option<u64>>)
    ensures RewrittenFrom(h, [], [], versions)
  {
  }

  /** Adding one batch and its marker to a rewritten log. */
  lemma {:induction false} RetainedPair(h: Header, front: seq<Batch>, log0: seq<Record>, b: Batch,
                                        versions: map<u64, Option<u64>>)
    requires RewrittenFrom(h, log0, front, versions) && Ordered(front + [b]) && b.txn in versions
    requires LoadableRecord(h, Prepared(b)) && LoadableRecord(h, Finalize(b.txn, versions[b.txn]))
    ensures RewrittenFrom(h, log0 + [Prepared(b), Finalize(b.txn, versions[b.txn])], front + [b], versions)
  {
    hide LoadableRecord, RecordSize, PreparedOf, MarkersOf, LoadableLog, MarkersFollow, LogSize, MarkersMatch,
         ReservedSize, HasTxn, Marked, Ordered;
    var mark := Finalize(b.txn, versions[b.txn]);
    var log1 := log0 + [Prepared(b)];
    var log := log1 + [mark];
    assert log == log0 + [Prepared(b), mark];
    FollowsOneMore(h, log0, Prepared(b));
    PreparedAppend(log0, Prepared(b));
    PairIsNew(front, MarkersOf(log0), b, versions);
    FollowsOneMore(h, log1, mark);
    PreparedAppend(log1, mark);
    ReservedAppend(front, b);
    MarkerSize(mark);
  }

  lemma {:induction false} FollowsOneMore(h: Header, log: seq<Record>, r: Record)
    requires LoadableLog(h, log) && LoadableRecord(h, r) && MarkersFollow(log)
    requires r.Finalize? ==> HasTxn(PreparedOf(log), r.txn) && !Marked(MarkersOf(log), r.txn)
    ensures LoadableLog(h, log + [r]) && MarkersFollow(log + [r]) && LogSize(log + [r]) == LogSize(log) + RecordSize(r)
  {
    hide LoadableRecord, RecordSize, PreparedOf, MarkersOf, HasTxn, Marked;
    assert (log + [r])[..|log|] == log;
  }

  lemma {:induction false} PairIsNew(front: seq<Batch>, ms: seq<Marker>, b: Batch, versions: map<u64, Option<u64>>)
    requires Ordered(front + [b]) && MarkersMatch(ms, front, versions) && b.txn in versions
    ensures HasTxn(front + [b], b.txn) && !Marked(ms, b.txn)
    ensures MarkersMatch(ms + [Marker(b.txn, versions[b.txn])], front + [b], versions)
  {
    var all := front + [b];
    assert all[|front|].txn == b.txn;
    forall i | 0 <= i < |ms| ensures ms[i].txn != b.txn {
      assert all[i].txn == front[i].txn;
    }
  }

  // ---------------------------------------------------------------------------
  // Sizes
  // ---------------------------------------------------------------------------

  lemma {:induction false} ReservedOfLive(bs: seq<Batch>, truth: Ledger)
    ensures ReservedSize(LiveOf(bs, truth)) <= ReservedSize(bs)
  {
    hide RecordSize;
    if bs != [] {
      var n := |bs| - 1;
      ReservedOfLive(bs[..n], truth);
      assert bs == bs[..n] + [bs[n]];
      LiveAppend(bs[..n], bs[n], truth);
      hide LiveOf;
      ReservedAppend(LiveOf(bs[..n], truth), bs[n]);
    }
  }

  lemma {:induction false} ReservedSame(bs: seq<Batch>, bs': seq<Batch>)
    requires |bs| == |bs'| && forall i :: 0 <= i < |bs| ==> PayloadSize(bs[i]) == PayloadSize(bs'[i])
    ensures ReservedSize(bs) == ReservedSize(bs')
  {
    if bs != [] { ReservedSame(bs[..|bs| - 1], bs'[..|bs| - 1]); }
  }

  lemma {:induction false} ReservedSuffix(bs: seq<Batch>, k: nat)
    requires k <= |bs|
    ensures ReservedSize(bs[k..]) <= ReservedSize(bs)
    decreases |bs|
  {
    hide RecordSize;
    if k < |bs| {
      var n := |bs| - 1;
      ReservedSuffix(bs[..n], k);
      assert bs[k..][..n - k] == bs[..n][k..];
    }
  }

  // ---------------------------------------------------------------------------
  // What GC may reclaim
  // ---------------------------------------------------------------------------

  lemma {:induction false} ReclaimableIs(bs: seq<Batch>, earliest: int, frontier: u64)
    requires Chain(bs, earliest) && earliest <= frontier <= earliest + |bs|
    ensures Reclaimable(bs, frontier) == frontier - earliest
  {
    var k := Reclaimable(bs, frontier);
    if k < |bs| { assert bs[k].after == earliest + k + 1; }
    if k > 0 { assert bs[k - 1].after == earliest + k; }
  }

  /** On a gap-free stream GC accepts exactly the frontiers it still holds. */
  lemma {:induction false} GcRangeIff(s: Stream, frontier: u64)
    requires Chain(s.batches, s.header.earliest) && Current(s) == s.header.earliest + |s.batches|
    ensures GcRangeError(s, frontier).None? <==> s.header.earliest <= frontier <= Current(s)
  {
    if s.header.earliest <= frontier <= Current(s) {
      ReclaimableIs(s.batches, s.header.earliest, frontier);
    }
  }

  /** The conditions on the stream under which GC rewrites the log. */
  predicate GcReady(s: Stream, frontier: u64) {
    s.unresolved == map[] && s.pending == map[] && GcRangeError(s, frontier).None?
  }

  /** With nothing unresolved or pending, everything live is published and checkpointed. */
  lemma {:induction false} NothingLeft(s: Stream, d: Disk, truth: Ledger, history: seq<Batch>)
    requires StreamInv(s, d, truth, history) && s.unresolved == map[] && s.pending == map[]
    ensures HistoryFits(d.header, history)
    ensures s.batches == Unreclaimed(d.header, history) && |s.batches| == |Live(d, truth)|
    ensures Checkpointed(s) == |s.batches|
  {
    hide PreparedOf, MarkersOf, LiveOf, DiskInv, UnresolvedInv;
    StreamFacts(s, d, truth, history);
    TailIsLast(s.unresolved, Rest(s, d, truth), |SyncedLive(d, truth)| - |s.batches|);
    PendingNonempty(s.batches[Checkpointed(s)..]);
  }

  lemma {:induction false} BatchRewritable(s: Stream, d: Disk, truth: Ledger, history: seq<Batch>, frontier: u64,
                                           i: nat)
    requires StreamInv(s, d, truth, history) && i < |s.batches|
    ensures Rewritable(GcHeader(s, frontier), s.batches[i], s.finalizeVersions)
    ensures CommittedAs(d.header.kind, s.batches[i], truth, s.batches[i])
    ensures s.finalizeVersions[s.batches[i].txn] == CommitOf(OutcomeOf(truth, s.batches[i].txn))
    ensures i < |Live(d, truth)| && PayloadSize(s.batches[i]) == PayloadSize(Live(d, truth)[i])
  {
    hide PreparedOf, MarkersOf, LiveOf, UnresolvedInv, Encodable, DiskInv, PendingOf;
    StreamFacts(s, d, truth, history);
    CommittedAt(d, truth, history, i);
    LiveLoadableAt(d, truth, history, i);
    var b := Live(d, truth)[i];
    var commit := CommitOf(OutcomeOf(truth, b.txn));
    ResolveStaysEncodable(d.header, b, commit);
    ResolveTwice(b, commit);
    ResolveKeepsSize(b, commit);
    EncodableAnyHeader(d.header, GcHeader(s, frontier), s.batches[i]);
    TxnsHas(s.batches, i);
  }

  lemma EncodableAnyHeader(h: Header, h': Header, b: Batch)
    requires Encodable(h, b) && h'.tableId == h.tableId && h'.storageId == h.storageId
    requires h'.fingerprint == h.fingerprint && h'.kind == h.kind
    ensures Encodable(h', b)
  {
  }

  // ---------------------------------------------------------------------------
  // GC keeps the invariant
  // ---------------------------------------------------------------------------

  /** The log GC writes for `frontier`. */
  function GcLog(s: Stream, frontier: u64): Result<seq<Record>, StreamError> {
    RetainedLog(s.batches[Reclaimable(s.batches, frontier)..], s.finalizeVersions)
  }

  /** The rewrite never fails, and holds exactly the retained batches with their markers. */
  lemma {:induction false} GcRewrites(s: Stream, d: Disk, truth: Ledger, history: seq<Batch>, frontier: u64)
    requires StreamInv(s, d, truth, history)
    ensures GcLog(s, frontier).Ok?
    ensures RewrittenFrom(GcHeader(s, frontier), GcLog(s, frontier).value,
                          s.batches[Reclaimable(s.batches, frontier)..], s.finalizeVersions)
  {
    hide PreparedOf, MarkersOf, LiveOf, UnresolvedInv, DiskInv, PublishedInv, RewrittenFrom, Rewritable, GcHeader,
         RetainedLog;
    StreamFacts(s, d, truth, history);
    BatchesOrdered(s, d, truth, history);
    var k := Reclaimable(s.batches, frontier);
    forall i | 0 <= i < |s.batches[k..]| ensures Rewritable(GcHeader(s, frontier), s.batches[k..][i], s.finalizeVersions) {
      BatchRewritable(s, d, truth, history, frontier, k + i);
    }
    RetainedShape(GcHeader(s, frontier), s.batches[k..], s.finalizeVersions);
  }

  lemma {:induction false} BatchesOrdered(s: Stream, d: Disk, truth: Ledger, history: seq<Batch>)
    requires StreamInv(s, d, truth, history)
    ensures Ordered(s.batches)
  {
    hide PreparedOf, MarkersOf, LiveOf, UnresolvedInv, DiskInv;
    HistoryOrdered(d, truth, history);
  }

  lemma {:induction false} GcHeaderFits(s: Stream, d: Disk, truth: Ledger, history: seq<Batch>, frontier: u64)
    requires StreamInv(s, d, truth, history) && GcReady(s, frontier)
    ensures Reclaimable(s.batches, frontier) == frontier - d.header.earliest
    ensures HistoryFits(GcHeader(s, frontier), history)
    ensures Unreclaimed(GcHeader(s, frontier), history) == s.batches[Reclaimable(s.batches, frontier)..]
  {
    hide PreparedOf, MarkersOf, LiveOf, UnresolvedInv, DiskInv, PendingOf, SizesOf, VersionsOf;
    StreamFacts(s, d, truth, history);
    GcRangeIff(s, frontier);
    ReclaimableIs(s.batches, s.header.earliest, frontier);
    NothingLeft(s, d, truth, history);
  }

  lemma {:induction false} GcWellFormed(s: Stream, d: Disk, truth: Ledger, history: seq<Batch>, frontier: u64)
    requires StreamInv(s, d, truth, history) && GcReady(s, frontier)
    ensures GcLog(s, frontier).Ok? && WellFormedLog(GcHeader(s, frontier), GcLog(s, frontier).value)
  {
    hide PreparedOf, MarkersOf, LiveOf, StreamInv, GcHeader, RetainedLog, GcRangeError, Reclaimable, MarkersMatch,
         LoadableLog, MarkersFollow, LogSize, ReservedSize;
    GcRewrites(s, d, truth, history, frontier);
    BatchesOrdered(s, d, truth, history);
    RetainedFits(s, d, truth, history, Reclaimable(s.batches, frontier));
    BatchSequences(s, d, truth, history);
    var k := Reclaimable(s.batches, frontier);
    assert forall i :: 0 <= i < |s.batches[k..]| ==> s.batches[k..][i] == s.batches[k + i];
  }

  /** What is retained takes no more room than it did. */
  lemma {:induction false} RetainedFits(s: Stream, d: Disk, truth: Ledger, history: seq<Batch>, k: nat)
    requires StreamInv(s, d, truth, history) && s.unresolved == map[] && s.pending == map[] && k <= |s.batches|
    ensures V2_HEADER_SIZE + ReservedSize(s.batches[k..]) <= MAX_U64
  {
    hide PreparedOf, MarkersOf, LiveOf, StreamInv, Rewritable, CommittedAs, PayloadSize, ReservedSize;
    NothingLeft(s, d, truth, history);
    SameHeader(s, d, truth, history);
    forall i | 0 <= i < |s.batches| ensures PayloadSize(s.batches[i]) == PayloadSize(Live(d, truth)[i]) {
      BatchRewritable(s, d, truth, history, 0, i);
    }
    ReservedSame(s.batches, Live(d, truth));
    ReservedSuffix(s.batches, k);
    ReservedOfLive(PreparedOf(d.log), truth);
    DiskReserved(d, truth, history);
  }

  lemma DiskReserved(d: Disk, truth: Ledger, history: seq<Batch>)
    requires DiskInv(d, truth, history)
    ensures V2_HEADER_SIZE + ReservedSize(PreparedOf(d.log)) <= MAX_U64
  {
  }

  /** Published batches carry sequences the stream has used. */
  lemma {:induction false} BatchSequences(s: Stream, d: Disk, truth: Ledger, history: seq<Batch>)
    requires StreamInv(s, d, truth, history)
    ensures forall i :: 0 <= i < |s.batches| ==> s.batches[i].sequence < s.nextSequence && s.batches[i].sequence < MAX_U64
  {
    hide MarkersOf, LiveOf, UnresolvedInv, PublishedInv, PreparedOf;
    StreamFacts(s, d, truth, history);
    forall i | 0 <= i < |s.batches| ensures s.batches[i].sequence < s.nextSequence && s.batches[i].sequence < MAX_U64 {
      CommittedAt(d, truth, history, i);
      LiveIn(PreparedOf(d.log), truth, Live(d, truth)[i]);
      var j :| 0 <= j < |PreparedOf(d.log)| && PreparedOf(d.log)[j] == Live(d, truth)[i];
    }
  }

  lemma {:induction false} GcAgrees(s: Stream, d: Disk, truth: Ledger, history: seq<Batch>, k: nat)
    requires StreamInv(s, d, truth, history) && k <= |s.batches|
    ensures Agrees(d.header.kind, s.batches[k..], truth, s.batches[k..])
    ensures LiveOf(s.batches[k..], truth) == s.batches[k..]
    ensures forall ms :: MarkersMatch(ms, s.batches[k..], s.finalizeVersions) ==> MarkersAgree(ms, s.batches[k..], truth)
  {
    hide PreparedOf, MarkersOf, LiveOf, UnresolvedInv, DiskInv, PublishedInv, CommitFits, Resolve;
    StreamFacts(s, d, truth, history);
    var bs := s.batches[k..];
    forall i | 0 <= i < |bs|
      ensures CommittedAs(d.header.kind, bs[i], truth, bs[i])
      ensures bs[i].txn in s.finalizeVersions && s.finalizeVersions[bs[i].txn] == CommitOf(OutcomeOf(truth, bs[i].txn))
    {
      BatchRewritable(s, d, truth, history, d.header.earliest, k + i);
      VersionKnown(s, truth, history, d, k + i);
    }
    AllLive(bs, truth);
  }

  lemma {:induction false} VersionKnown(s: Stream, truth: Ledger, history: seq<Batch>, d: Disk, i: nat)
    requires StreamInv(s, d, truth, history) && i < |s.batches|
    ensures s.batches[i].txn in s.finalizeVersions
  {
    hide PreparedOf, MarkersOf, LiveOf, UnresolvedInv, DiskInv;
    TxnsHas(s.batches, i);
  }

  lemma {:induction false} AllLive(bs: seq<Batch>, truth: Ledger)
    requires forall i :: 0 <= i < |bs| ==> !OutcomeOf(truth, bs[i].txn).Aborted?
    ensures LiveOf(bs, truth) == bs
  {
    if bs != [] {
      var n := |bs| - 1;
      AllLive(bs[..n], truth);
      assert bs == bs[..n] + [bs[n]];
    }
  }

  /** The disk after GC: new header, rewritten log, all of it synced before the rename. */
  function GcDisk(s: Stream, frontier: u64): Disk
    requires GcLog(s, frontier).Ok?
  {
    Disk(GcHeader(s, frontier), GcLog(s, frontier).value, |GcLog(s, frontier).value|)
  }

  lemma {:induction false} GcDiskInv(s: Stream, d: Disk, truth: Ledger, history: seq<Batch>, frontier: u64)
    requires StreamInv(s, d, truth, history) && GcReady(s, frontier)
    ensures GcLog(s, frontier).Ok? && DiskInv(GcDisk(s, frontier), truth, history)
    ensures var d' := GcDisk(s, frontier);
            var bs := s.batches[Reclaimable(s.batches, frontier)..];
            && PreparedOf(d'.log) == Live(d', truth) == SyncedLive(d', truth) == bs
            && |MarkersOf(d'.log)| == |MarkersOf(d'.log[..d'.synced])| == |bs|
  {
    hide PreparedOf, MarkersOf, LiveOf, UnresolvedInv, PublishedInv, DiskInv, RetainedLog, WellFormedLog,
         HistoryFits, Agrees, MarkersMatch, MarkersAgree, GcRangeError, MarkersFollow, LoadableLog, LogSize,
         Reclaimable;
    SameHeader(s, d, truth, history);
    GcRewrites(s, d, truth, history, frontier);
    GcWellFormed(s, d, truth, history, frontier);
    GcHeaderFits(s, d, truth, history, frontier);
    var d', k := GcDisk(s, frontier), Reclaimable(s.batches, frontier);
    GcAgrees(s, d, truth, history, k);
    HistoryChain(d'.header, history);
    assert d'.log[..d'.synced] == d'.log;
    MatchedLength(MarkersOf(d'.log), s.batches[k..], s.finalizeVersions);
    DiskInvFrom(d', truth, history);
  }

  lemma MatchedLength(ms: seq<Marker>, bs: seq<Batch>, versions: map<u64, Option<u64>>)
    requires MarkersMatch(ms, bs, versions)
    ensures |ms| == |bs|
  {
  }

  lemma {:induction false} DiskInvFrom(d: Disk, truth: Ledger, history: seq<Batch>)
    requires d.synced <= |d.log| && WellFormedLog(d.header, d.log) && HistoryFits(d.header, history)
    requires Chain(Live(d, truth), d.header.earliest)
    requires Agrees(d.header.kind, Live(d, truth), truth, Unreclaimed(d.header, history))
    requires MarkersAgree(MarkersOf(d.log), Live(d, truth), truth)
    requires |MarkersOf(d.log)| <= |Unreclaimed(d.header, history)| <= |SyncedLive(d, truth)|
    ensures DiskInv(d, truth, history)
  {
    hide PreparedOf, MarkersOf, LiveOf, WellFormedLog, HistoryFits, Chain, Agrees, MarkersAgree;
  }

  lemma {:induction false} GcPublished(s: Stream, d: Disk, truth: Ledger, history: seq<Batch>, frontier: u64,
                                       log: seq<Record>)
    requires StreamInv(s, d, truth, history) && GcReady(s, frontier)
    ensures HistoryFits(GcHeader(s, frontier), history)
    ensures PublishedInv(AfterGc(s, frontier, log), truth, Unreclaimed(GcHeader(s, frontier), history))
    ensures Checkpointed(AfterGc(s, frontier, log)) == |AfterGc(s, frontier, log).batches|
  {
    hide PreparedOf, MarkersOf, LiveOf, UnresolvedInv, DiskInv, PendingOf, GcRangeError, LogSize, SizesOf,
         VersionsOf, TxnsOf, HistoryFits, Chain;
    StreamFacts(s, d, truth, history);
    GcHeaderFits(s, d, truth, history, frontier);
    GcRangeIff(s, frontier);
    NothingLeft(s, d, truth, history);
    BatchesOrdered(s, d, truth, history);
    var k := Reclaimable(s.batches, frontier);
    VersionsSuffix(s.batches, truth, k);
    assert s.batches[k..][|s.batches| - k..] == [];
    PendingNonempty([]);
    SizesSuffix(s.batches, k);
  }

  lemma SizesSuffix(bs: seq<Batch>, k: nat)
    requires k <= |bs|
    ensures SizesOf(bs)[k..] == SizesOf(bs[k..])
  {
  }

  lemma {:induction false} VersionsSuffix(bs: seq<Batch>, truth: Ledger, k: nat)
    requires Ordered(bs) && k <= |bs|
    ensures VersionsOf(bs, truth) - TxnsOf(bs[..k]) == VersionsOf(bs[k..], truth)
  {
    assert bs == bs[..k] + bs[k..];
    TxnsConcat(bs[..k], bs[k..]);
    forall t | t in TxnsOf(bs[k..]) ensures t !in TxnsOf(bs[..k]) {
      var i :| 0 <= i < |bs[k..]| && bs[k..][i].txn == t;
      LaterIsNew(bs, k, k + i);
    }
  }

  /** A successful GC keeps the invariant. */
  lemma {:induction false} GcKeeps(s: Stream, d: Disk, truth: Ledger, history: seq<Batch>, frontier: u64)
    requires StreamInv(s, d, truth, history) && GcReady(s, frontier)
    ensures GcLog(s, frontier).Ok?
    ensures StreamInv(AfterGc(s, frontier, GcLog(s, frontier).value), GcDisk(s, frontier), truth, history)
  {
    hide PreparedOf, MarkersOf, LiveOf, UnresolvedInv, PublishedInv, DiskInv, RetainedLog, HistoryFits, GcRangeError,
         FileSize, Reclaimable;
    GcDiskInv(s, d, truth, history, frontier);
    var log := GcLog(s, frontier).value;
    GcPublished(s, d, truth, history, frontier, log);
    BatchSequences(s, d, truth, history);
    var bs := s.batches[Reclaimable(s.batches, frontier)..];
    assert bs[|bs|..] == [];
    assert forall i :: 0 <= i < |bs| ==> bs[i] == s.batches[Reclaimable(s.batches, frontier) + i];
    NothingUnresolved(s.unresolved);
  }

  lemma NothingUnresolved(m: map<u64, PreparedRecord>)
    requires m == map[]
    ensures UnresolvedInv(m, [], 0)
  {
  }
}
