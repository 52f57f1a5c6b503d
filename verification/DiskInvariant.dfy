/** The file on disk against the truth: the invariant every step of the protocol
    keeps, whatever the in-memory stream looks like. */
module DiskInvariant {
  import opened Wrappers
  import opened Widths
  import opened ChangeTypes
  import opened Codec
  import opened LogFile
  import opened Loading
  import opened LogViews

  /** A log file: its header, its records, and how many of them count as synced. */
  datatype Disk = Disk(header: Header, log: seq<Record>, synced: nat)

  /** Not-aborted batches in reservation order. */
  function Live(d: Disk, truth: Ledger): seq<Batch> {
    LiveOf(PreparedOf(d.log), truth)
  }

  function SyncedLive(d: Disk, truth: Ledger): seq<Batch>
    requires d.synced <= |d.log|
  {
    LiveOf(PreparedOf(d.log[..d.synced]), truth)
  }

  /** The bytes of the prepared records with one finalize marker each. */
  function ReservedSize(bs: seq<Batch>): nat {
    if bs == [] then 0 else ReservedSize(bs[..|bs| - 1]) + RecordSize(Prepared(bs[|bs| - 1])) + 32
  }

  /** A log that can be loaded: records in reservation order, markers after them,
      and a size that 64 bits can count even once every record is marked. */
  predicate WellFormedLog(h: Header, log: seq<Record>) {
    && LoadableLog(h, log)
    && Ordered(PreparedOf(log))
    && MarkersFollow(log)
    && (forall i :: 0 <= i < |PreparedOf(log)| ==> PreparedOf(log)[i].sequence < MAX_U64)
    && V2_HEADER_SIZE + ReservedSize(PreparedOf(log)) <= MAX_U64
  }

  /** `history` is every batch committed since the stream's origin. */
  predicate HistoryFits(h: Header, history: seq<Batch>) {
    && ValidHeader(h) && h.active
    && h.earliest - h.origin <= |history|
    && Chain(history, h.origin)
    && h.current <= h.origin + |history|
  }

  /** The committed batches no GC has reclaimed. */
  function Unreclaimed(h: Header, history: seq<Batch>): seq<Batch>
    requires HistoryFits(h, history)
  {
    history[h.earliest - h.origin..]
  }

  predicate CommittedAs(kind: StorageKind, b: Batch, truth: Ledger, committed: Batch) {
    var o := OutcomeOf(truth, b.txn);
    o.Committed? && CommitFits(kind, o.commit) && committed == Resolve(b, o.commit)
  }

  /** The ledger committed exactly a prefix of the live reservations, as `hist`. */
  predicate Agrees(kind: StorageKind, live: seq<Batch>, truth: Ledger, hist: seq<Batch>) {
    && |hist| <= |live|
    && (forall i :: 0 <= i < |hist| ==> CommittedAs(kind, live[i], truth, hist[i]))
    && (forall i :: |hist| <= i < |live| ==> OutcomeOf(truth, live[i].txn) == Unresolved)
  }

  /** The markers finalize the first live reservations, in order, as the ledger committed them. */
  predicate MarkersAgree(ms: seq<Marker>, live: seq<Batch>, truth: Ledger) {
    && |ms| <= |live|
    && (forall i :: 0 <= i < |ms| ==> ms[i].txn == live[i].txn && OutcomeOf(truth, ms[i].txn) == Committed(ms[i].commit))
  }

  /** The invariant on the views: `live` reservations, `ms` markers, and the
      first `durable` reservations synced. */
  predicate ViewInv(h: Header, live: seq<Batch>, ms: seq<Marker>, durable: nat, truth: Ledger, history: seq<Batch>) {
    && HistoryFits(h, history)
    && Chain(live, h.earliest)
    && Agrees(h.kind, live, truth, Unreclaimed(h, history))
    && MarkersAgree(ms, live, truth)
    && |ms| <= |Unreclaimed(h, history)| <= durable
  }

  predicate DiskInv(d: Disk, truth: Ledger, history: seq<Batch>) {
    && d.synced <= |d.log|
    && WellFormedLog(d.header, d.log)
    && ViewInv(d.header, Live(d, truth), MarkersOf(d.log), |SyncedLive(d, truth)|, truth, history)
  }

  lemma ViewBounds(h: Header, live: seq<Batch>, ms: seq<Marker>, durable: nat, truth: Ledger, history: seq<Batch>)
    requires ViewInv(h, live, ms, durable, truth, history)
    ensures HistoryFits(h, history)
    ensures |ms| <= |Unreclaimed(h, history)| <= durable && |Unreclaimed(h, history)| <= |live|
  {
  }

  lemma {:induction false} ViewAfterStage(h: Header, live: seq<Batch>, ms: seq<Marker>, durable: nat, truth: Ledger,
                                          history: seq<Batch>, b: Batch)
    requires ViewInv(h, live, ms, durable, truth, history)
    requires OutcomeOf(truth, b.txn) == Unresolved
    requires b.before == h.earliest + |live| && b.after == b.before + 1
    ensures ViewInv(h, live + [b], ms, durable, truth, history)
  {
    hide HistoryFits, CommittedAs;
  }

  lemma {:induction false} ViewAfterMark(h: Header, live: seq<Batch>, ms: seq<Marker>, durable: nat, truth: Ledger,
                                         history: seq<Batch>, commit: Option<u64>)
    requires ViewInv(h, live, ms, durable, truth, history)
    requires |ms| < |Unreclaimed(h, history)| && OutcomeOf(truth, live[|ms|].txn) == Committed(commit)
    ensures ViewInv(h, live, ms + [Marker(live[|ms|].txn, commit)], durable, truth, history)
  {
    hide HistoryFits, CommittedAs;
  }

  /** Fewer reservations and fewer markers, as long as nothing committed is lost. */
  lemma {:induction false} ViewPrefix(h: Header, live: seq<Batch>, ms: seq<Marker>, durable: nat,
                   live': seq<Batch>, ms': seq<Marker>, durable': nat, truth: Ledger, history: seq<Batch>)
    requires ViewInv(h, live, ms, durable, truth, history)
    requires live' <= live && ms' <= ms && |Unreclaimed(h, history)| <= durable' <= |live'|
    ensures ViewInv(h, live', ms', durable', truth, history)
  {
    hide HistoryFits, CommittedAs;
  }

  lemma {:induction false} ViewAfterCommit(h: Header, live: seq<Batch>, ms: seq<Marker>, durable: nat, truth: Ledger,
                                           history: seq<Batch>, commit: Option<u64>)
    requires ViewInv(h, live, ms, durable, truth, history) && Ordered(live) && CommitFits(h.kind, commit)
    requires |Unreclaimed(h, history)| < durable <= |live|
    ensures var b := live[|Unreclaimed(h, history)|];
            ViewInv(h, live, ms, durable, truth[b.txn := Committed(commit)], history + [Resolve(b, commit)])
  {
    var n := |Unreclaimed(h, history)|;
    var b := live[n];
    HistoryGrows(h, history, Resolve(b, commit));
    AgreesAfterCommit(h.kind, live, truth, Unreclaimed(h, history), commit);
    hide HistoryFits, CommittedAs, Agrees;
    forall i | 0 <= i < |ms| ensures OutcomeOf(truth[b.txn := Committed(commit)], ms[i].txn) == OutcomeOf(truth, ms[i].txn) {
      assert live[i].txn != live[n].txn;
    }
  }

  lemma {:induction false} ViewAfterAbort(h: Header, live: seq<Batch>, ms: seq<Marker>, durable: nat, durable': nat,
                                          truth: Ledger, history: seq<Batch>)
    requires ViewInv(h, live, ms, durable, truth, history) && Ordered(live)
    requires |Unreclaimed(h, history)| < |live| && |Unreclaimed(h, history)| <= durable'
    ensures ViewInv(h, live[..|live| - 1], ms, durable', truth[live[|live| - 1].txn := Aborted], history)
  {
    AgreesAfterAbort(h.kind, live, truth, Unreclaimed(h, history));
    hide HistoryFits, CommittedAs, Agrees;
    forall i | 0 <= i < |ms| ensures ms[i].txn != live[|live| - 1].txn {
      assert live[i].txn != live[|live| - 1].txn;
    }
  }

  // ---------------------------------------------------------------------------
  // Appending
  // ---------------------------------------------------------------------------

  lemma {:induction false} ReservedAppend(bs: seq<Batch>, b: Batch)
    ensures ReservedSize(bs + [b]) == ReservedSize(bs) + RecordSize(Prepared(b)) + 32
  {
    assert (bs + [b])[..|bs|] == bs;
  }

  lemma {:induction false} LogAppend(h: Header, log: seq<Record>, r: Record)
    requires WellFormedLog(h, log) && LoadableRecord(h, r)
    requires r.Prepared? ==>
               && V2_HEADER_SIZE + ReservedSize(PreparedOf(log)) + RecordSize(r) + 32 <= MAX_U64
               && !HasTxn(PreparedOf(log), r.batch.txn) && r.batch.sequence < MAX_U64
               && forall i :: 0 <= i < |PreparedOf(log)| ==> PreparedOf(log)[i].sequence < r.batch.sequence
    requires r.Finalize? ==> HasTxn(PreparedOf(log), r.txn) && !Marked(MarkersOf(log), r.txn)
    ensures WellFormedLog(h, log + [r])
    ensures FileSize(h, log + [r]) == FileSize(h, log) + RecordSize(r)
  {
    hide LoadableRecord, RecordSize, PreparedOf, MarkersOf;
    assert (log + [r])[..|log|] == log;
    PreparedAppend(log, r);
    if r.Prepared? {
      assert r == Prepared(r.batch);
      ReservedAppend(PreparedOf(log), r.batch);
    }
  }

  lemma {:induction false} AppendKeepsSynced(d: Disk, r: Record, truth: Ledger)
    requires d.synced <= |d.log|
    ensures SyncedLive(d.(log := d.log + [r]), truth) == SyncedLive(d, truth)
  {
    assert (d.log + [r])[..d.synced] == d.log[..d.synced];
  }

  lemma {:induction false} DiskAfterStage(d: Disk, truth: Ledger, history: seq<Batch>, b: Batch)
    requires DiskInv(d, truth, history)
    requires LoadableRecord(d.header, Prepared(b))
    requires !HasTxn(PreparedOf(d.log), b.txn) && OutcomeOf(truth, b.txn) == Unresolved
    requires b.sequence < MAX_U64
    requires forall i :: 0 <= i < |PreparedOf(d.log)| ==> PreparedOf(d.log)[i].sequence < b.sequence
    requires b.before == d.header.earliest + |Live(d, truth)| && b.after == b.before + 1
    requires V2_HEADER_SIZE + ReservedSize(PreparedOf(d.log)) + RecordSize(Prepared(b)) + 32 <= MAX_U64
    ensures DiskInv(d.(log := d.log + [Prepared(b)]), truth, history)
    ensures Live(d.(log := d.log + [Prepared(b)]), truth) == Live(d, truth) + [b]
    ensures MarkersOf(d.log + [Prepared(b)]) == MarkersOf(d.log)
  {
    hide WellFormedLog, LoadableRecord, RecordSize, PreparedOf, MarkersOf, LiveOf;
    LogAppend(d.header, d.log, Prepared(b));
    AppendKeepsSynced(d, Prepared(b), truth);
    PreparedAppend(d.log, Prepared(b));
    LiveAppend(PreparedOf(d.log), b, truth);
    ViewAfterStage(d.header, Live(d, truth), MarkersOf(d.log), |SyncedLive(d, truth)|, truth, history, b);
  }

  lemma {:induction false} DiskAfterMark(d: Disk, truth: Ledger, history: seq<Batch>, txn: u64, commit: Option<u64>)
    requires DiskInv(d, truth, history)
    requires |MarkersOf(d.log)| < |Unreclaimed(d.header, history)|
    requires Live(d, truth)[|MarkersOf(d.log)|].txn == txn && OutcomeOf(truth, txn) == Committed(commit)
    ensures DiskInv(d.(log := d.log + [Finalize(txn, commit)]), truth, history)
    ensures Live(d.(log := d.log + [Finalize(txn, commit)]), truth) == Live(d, truth)
    ensures MarkersOf(d.log + [Finalize(txn, commit)]) == MarkersOf(d.log) + [Marker(txn, commit)]
    ensures FileSize(d.header, d.log + [Finalize(txn, commit)]) == FileSize(d.header, d.log) + 32
  {
    var r := Finalize(txn, commit);
    var n := |MarkersOf(d.log)|;
    NextUnmarked(d, truth, history);
    LogAppend(d.header, d.log, r);
    AppendKeepsSynced(d, r, truth);
    PreparedAppend(d.log, r);
    ViewAfterMark(d.header, Live(d, truth), MarkersOf(d.log), |SyncedLive(d, truth)|, truth, history, commit);
    hide WellFormedLog, ViewInv, LoadableRecord, PreparedOf, MarkersOf, LiveOf;
    assert PreparedOf(d.log + [r]) == PreparedOf(d.log);
  }

  /** The next reservation to mark is prepared, committed, loadable and not marked yet. */
  lemma {:induction false} NextUnmarked(d: Disk, truth: Ledger, history: seq<Batch>)
    requires DiskInv(d, truth, history)
    requires |MarkersOf(d.log)| < |Unreclaimed(d.header, history)|
    ensures var b := Live(d, truth)[|MarkersOf(d.log)|];
            && HasTxn(PreparedOf(d.log), b.txn) && !Marked(MarkersOf(d.log), b.txn)
            && OutcomeOf(truth, b.txn).Committed?
            && LoadableRecord(d.header, Finalize(b.txn, CommitOf(OutcomeOf(truth, b.txn))))
  {
    var live, n := Live(d, truth), |MarkersOf(d.log)|;
    HasTxnLive(PreparedOf(d.log), truth, n);
    LiveOrdered(PreparedOf(d.log), truth);
    assert CommittedAs(d.header.kind, live[n], truth, Unreclaimed(d.header, history)[n]);
    LiveLoadable(d, truth, n);
    forall i | 0 <= i < n ensures MarkersOf(d.log)[i].txn != live[n].txn {
      assert live[i].txn != live[n].txn;
    }
  }

  lemma {:induction false} PreparedLoadable(h: Header, log: seq<Record>, b: Batch)
    requires LoadableLog(h, log) && b in PreparedOf(log)
    ensures Encodable(h, b)
  {
    hide Encodable;
    var n := |log| - 1;
    assert LoadableRecord(h, log[n]);
    if b in PreparedOf(log[..n]) {
      PreparedLoadable(h, log[..n], b);
    }
  }

  lemma {:induction false} LiveLoadable(d: Disk, truth: Ledger, i: nat)
    requires WellFormedLog(d.header, d.log) && i < |Live(d, truth)|
    ensures Encodable(d.header, Live(d, truth)[i]) && Live(d, truth)[i].txn != 0
  {
    LiveIn(PreparedOf(d.log), truth, Live(d, truth)[i]);
    PreparedLoadable(d.header, d.log, Live(d, truth)[i]);
  }

  lemma {:induction false} LiveLoadableAt(d: Disk, truth: Ledger, history: seq<Batch>, i: nat)
    requires DiskInv(d, truth, history) && i < |Live(d, truth)|
    ensures Encodable(d.header, Live(d, truth)[i]) && Live(d, truth)[i].txn != 0
  {
    LiveLoadable(d, truth, i);
  }

  // ---------------------------------------------------------------------------
  // Syncing and cutting
  // ---------------------------------------------------------------------------

  lemma {:induction false} DiskAfterSync(d: Disk, truth: Ledger, history: seq<Batch>, synced: nat)
    requires DiskInv(d, truth, history) && d.synced <= synced <= |d.log|
    ensures DiskInv(d.(synced := synced), truth, history)
  {
    assert d.log[..synced][..d.synced] == d.log[..d.synced];
    ViewsPrefix(d.log[..synced], d.synced);
    LivePrefix(PreparedOf(d.log[..d.synced]), PreparedOf(d.log[..synced]), truth);
    hide WellFormedLog, HistoryFits, Chain, Agrees, MarkersAgree, PreparedOf, MarkersOf, LiveOf;
  }

  lemma {:induction false} ReservedPrefix(bs: seq<Batch>, bs': seq<Batch>)
    requires bs <= bs'
    ensures ReservedSize(bs) <= ReservedSize(bs')
    decreases |bs'|
  {
    hide RecordSize;
    if |bs| == |bs'| {
      assert bs == bs';
    } else {
      ReservedPrefix(bs, bs'[..|bs'| - 1]);
    }
  }

  lemma ViewsOfNothing()
    ensures PreparedOf([]) == [] && MarkersOf([]) == []
  {
  }

  lemma MarkerSize(r: Record)
    ensures r.Finalize? ==> RecordSize(r) == 32
  {
  }

  /** The file holds its header, its prepared records, and a marker for each of `MarkersOf`. */
  lemma {:induction false} FileSizeSplit(h: Header, log: seq<Record>)
    ensures FileSize(h, log) + 32 * |PreparedOf(log)| ==
            HeaderSize(h) + ReservedSize(PreparedOf(log)) + 32 * |MarkersOf(log)|
  {
    hide RecordSize, PreparedOf, MarkersOf;
    if log == [] {
      ViewsOfNothing();
    } else {
      var n := |log| - 1;
      FileSizeSplit(h, log[..n]);
      MarkerSize(log[n]);
      PreparedAppend(log[..n], log[n]);
      assert log == log[..n] + [log[n]];
      if log[n].Prepared? {
        assert log[n] == Prepared(log[n].batch);
        ReservedAppend(PreparedOf(log[..n]), log[n].batch);
      }
    }
  }

  lemma {:induction false} WellFormedPrefix(h: Header, log: seq<Record>, k: nat)
    requires WellFormedLog(h, log) && k <= |log|
    ensures WellFormedLog(h, log[..k])
  {
    hide LoadableRecord, RecordSize, PreparedOf, MarkersOf, MarkersFollow, ReservedSize;
    ViewsPrefix(log, k);
    FollowPrefix(log, k);
    ReservedPrefix(PreparedOf(log[..k]), PreparedOf(log));
  }

  /** Losing any records after the synced ones loses nothing that was committed. */
  lemma {:induction false} DiskAfterCut(d: Disk, truth: Ledger, history: seq<Batch>, k: nat)
    requires DiskInv(d, truth, history) && d.synced <= k <= |d.log|
    ensures DiskInv(Disk(d.header, d.log[..k], k), truth, history)
    ensures Live(Disk(d.header, d.log[..k], k), truth) <= Live(d, truth)
  {
    hide WellFormedLog, ViewInv, PreparedOf, MarkersOf, LiveOf;
    ViewBounds(d.header, Live(d, truth), MarkersOf(d.log), |SyncedLive(d, truth)|, truth, history);
    var d' := Disk(d.header, d.log[..k], k);
    WellFormedPrefix(d.header, d.log, k);
    ViewsPrefix(d.log, k);
    LivePrefix(PreparedOf(d.log[..k]), PreparedOf(d.log), truth);
    assert d.log[..k][..d.synced] == d.log[..d.synced] && d.log[..k][..k] == d.log[..k];
    ViewsPrefix(d.log[..k], d.synced);
    LivePrefix(PreparedOf(d.log[..d.synced]), PreparedOf(d.log[..k]), truth);
    ViewPrefix(d.header, Live(d, truth), MarkersOf(d.log), |SyncedLive(d, truth)|,
               Live(d', truth), MarkersOf(d'.log), |SyncedLive(d', truth)|, truth, history);
  }

  // ---------------------------------------------------------------------------
  // The engine decides
  // ---------------------------------------------------------------------------

  lemma {:induction false} DiskAfterCommit(d: Disk, truth: Ledger, history: seq<Batch>, commit: Option<u64>)
    requires DiskInv(d, truth, history) && CommitFits(d.header.kind, commit)
    requires |Unreclaimed(d.header, history)| < |SyncedLive(d, truth)|
    ensures |Unreclaimed(d.header, history)| < |Live(d, truth)|
    ensures var b := Live(d, truth)[|Unreclaimed(d.header, history)|];
            var truth' := truth[b.txn := Committed(commit)];
            DiskInv(d, truth', history + [Resolve(b, commit)]) && Live(d, truth') == Live(d, truth)
  {
    ViewsPrefix(d.log, d.synced);
    LivePrefix(PreparedOf(d.log[..d.synced]), PreparedOf(d.log), truth);
    var live, n := Live(d, truth), |Unreclaimed(d.header, history)|;
    var b := live[n];
    var truth' := truth[b.txn := Committed(commit)];
    LiveAfterCommit(PreparedOf(d.log), truth, b.txn, commit);
    LiveAfterCommit(PreparedOf(d.log[..d.synced]), truth, b.txn, commit);
    LiveOrdered(PreparedOf(d.log), truth);
    ViewAfterCommit(d.header, live, MarkersOf(d.log), |SyncedLive(d, truth)|, truth, history, commit);
    hide WellFormedLog, ViewInv, PreparedOf, MarkersOf, LiveOf;
  }

  lemma HistoryGrows(h: Header, history: seq<Batch>, b: Batch)
    requires HistoryFits(h, history)
    requires b.before == h.origin + |history| && b.after == b.before + 1
    ensures HistoryFits(h, history + [b])
    ensures Unreclaimed(h, history + [b]) == Unreclaimed(h, history) + [b]
  {
  }

  lemma {:induction false} AgreesAfterCommit(kind: StorageKind, live: seq<Batch>, truth: Ledger, hist: seq<Batch>,
                                             commit: Option<u64>)
    requires Agrees(kind, live, truth, hist) && Ordered(live) && |hist| < |live| && CommitFits(kind, commit)
    ensures var b := live[|hist|];
            Agrees(kind, live, truth[b.txn := Committed(commit)], hist + [Resolve(b, commit)])
  {
    var b := live[|hist|];
    var truth' := truth[b.txn := Committed(commit)];
    forall i | 0 <= i < |live| && i != |hist| ensures OutcomeOf(truth', live[i].txn) == OutcomeOf(truth, live[i].txn) {}
    forall i | 0 <= i < |hist| ensures CommittedAs(kind, live[i], truth', hist[i]) {
      assert CommittedAs(kind, live[i], truth, hist[i]);
    }
  }

  lemma {:induction false} DiskAfterAbort(d: Disk, truth: Ledger, history: seq<Batch>)
    requires DiskInv(d, truth, history)
    requires |Unreclaimed(d.header, history)| < |Live(d, truth)|
    ensures var live, synced := Live(d, truth), SyncedLive(d, truth);
            var truth' := truth[live[|live| - 1].txn := Aborted];
            && DiskInv(d, truth', history) && Live(d, truth') == live[..|live| - 1]
            && SyncedLive(d, truth') == if |synced| < |live| then synced else live[..|live| - 1]
  {
    hide PreparedOf, MarkersOf, LiveOf, ViewInv;
    ViewBounds(d.header, Live(d, truth), MarkersOf(d.log), |SyncedLive(d, truth)|, truth, history);
    var all, before := PreparedOf(d.log), PreparedOf(d.log[..d.synced]);
    var live, synced := Live(d, truth), SyncedLive(d, truth);
    var truth' := truth[live[|live| - 1].txn := Aborted];
    ViewsPrefix(d.log, d.synced);
    LiveAfterAbort(all, truth, live[|live| - 1].txn);
    PrefixAfterAbort(before, all, truth);
    LiveOrdered(all, truth);
    ViewAfterAbort(d.header, live, MarkersOf(d.log), |synced|, |SyncedLive(d, truth')|, truth, history);
  }

  /** A prefix whose live view is shorter does not hold the newest live reservation. */
  lemma {:induction false} NewestIsLater(before: seq<Batch>, all: seq<Batch>, truth: Ledger)
    requires before <= all && Ordered(all) && |LiveOf(before, truth)| < |LiveOf(all, truth)|
    ensures !HasTxn(before, LiveOf(all, truth)[|LiveOf(all, truth)| - 1].txn)
  {
    hide LiveOf;
    var live := LiveOf(all, truth);
    LivePrefix(before, all, truth);
    LiveOrdered(all, truth);
    LiveIn(all, truth, live[|live| - 1]);
    forall i | 0 <= i < |before| ensures before[i].txn != live[|live| - 1].txn {
      if !OutcomeOf(truth, before[i].txn).Aborted? {
        LiveHasAll(before, truth, i);
        var j :| 0 <= j < |LiveOf(before, truth)| && LiveOf(before, truth)[j] == before[i];
        assert live[j] == before[i];
      }
    }
  }

  lemma {:induction false} PrefixAfterAbort(before: seq<Batch>, all: seq<Batch>, truth: Ledger)
    requires before <= all && Ordered(all) && LiveOf(all, truth) != []
    ensures var live, synced := LiveOf(all, truth), LiveOf(before, truth);
            |synced| <= |live| &&
            LiveOf(before, truth[live[|live| - 1].txn := Aborted]) == if |synced| < |live| then synced else live[..|live| - 1]
  {
    var live, synced := LiveOf(all, truth), LiveOf(before, truth);
    var txn := live[|live| - 1].txn;
    LivePrefix(before, all, truth);
    hide LiveOf;
    if |synced| < |live| {
      NewestIsLater(before, all, truth);
      LiveAfterForeignAbort(before, truth, txn);
    } else {
      assert synced == live;
      LiveAfterAbort(before, truth, txn);
    }
  }

  /** A batch whose transaction is live is in the live view. */
  lemma {:induction false} LiveHasAll(bs: seq<Batch>, truth: Ledger, i: nat)
    requires i < |bs| && !OutcomeOf(truth, bs[i].txn).Aborted?
    ensures bs[i] in LiveOf(bs, truth)
  {
    var n := |bs| - 1;
    if i < n {
      LiveHasAll(bs[..n], truth, i);
    }
  }

  lemma {:induction false} AgreesAfterAbort(kind: StorageKind, live: seq<Batch>, truth: Ledger, hist: seq<Batch>)
    requires Agrees(kind, live, truth, hist) && Ordered(live) && |hist| < |live|
    ensures Agrees(kind, live[..|live| - 1], truth[live[|live| - 1].txn := Aborted], hist)
  {
    var truth' := truth[live[|live| - 1].txn := Aborted];
    forall i | 0 <= i < |live| - 1 ensures OutcomeOf(truth', live[i].txn) == OutcomeOf(truth, live[i].txn) {}
    forall i | 0 <= i < |hist| ensures CommittedAs(kind, live[i], truth', hist[i]) {
      assert CommittedAs(kind, live[i], truth, hist[i]);
    }
  }
}
