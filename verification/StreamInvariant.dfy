/** What the in-memory stream knows, against the file and the truth. */
module StreamInvariant {
  import opened Wrappers
  import opened Widths
  import opened ChangeTypes
  import opened Codec
  import opened LogFile
  import opened Loading
  import opened LogViews
  import opened StreamSpec
  import opened DiskInvariant

  /** The exact file contribution of a batch: its prepared record, and that plus its marker. */
  function SizeOf(b: Batch): BatchFileBytes {
    BatchFileBytes(RecordSize(Prepared(b)), RecordSize(Prepared(b)) + 32)
  }

  function SizesOf(bs: seq<Batch>): (r: seq<BatchFileBytes>)
    ensures |r| == |bs|
  {
    seq(|bs|, i requires 0 <= i < |bs| => SizeOf(bs[i]))
  }

  function VersionsOf(bs: seq<Batch>, truth: Ledger): map<u64, Option<u64>> {
    map t | t in TxnsOf(bs) :: CommitOf(OutcomeOf(truth, t))
  }

  /** The unresolved map holds exactly the reservations `rest`; a record marked
      durable is one of the first `durable`. */
  predicate UnresolvedInv(m: map<u64, PreparedRecord>, rest: seq<Batch>, durable: int) {
    && m.Keys == TxnsOf(rest)
    && forall i :: 0 <= i < |rest| ==> UnresolvedAt(m, rest[i], i < durable)
  }

  predicate UnresolvedAt(m: map<u64, PreparedRecord>, b: Batch, durable: bool) {
    && b.txn in m
    && m[b.txn] == StagedRecord(b, m[b.txn].preparedDurable)
    && (m[b.txn].preparedDurable ==> durable)
  }

  /** How many batches count as having their marker synced. */
  function Checkpointed(s: Stream): int {
    s.checkpointed - s.header.earliest
  }

  /** Everything about published batches. */
  predicate PublishedInv(s: Stream, truth: Ledger, hist: seq<Batch>) {
    && s.batches <= hist
    && s.header.earliest <= s.header.current <= s.header.earliest + |s.batches|
    && s.batchFileBytes == SizesOf(s.batches)
    && s.finalizeVersions == VersionsOf(s.batches, truth)
    && 0 <= Checkpointed(s) <= |s.batches|
    && s.pending == PendingOf(s.batches[Checkpointed(s)..])
  }

  predicate StreamInv(s: Stream, d: Disk, truth: Ledger, history: seq<Batch>) {
    && DiskInv(d, truth, history)
    && s.header == d.header
    && s.fileBytes == FileSize(d.header, d.log)
    && PublishedInv(s, truth, Unreclaimed(d.header, history))
    && |MarkersOf(d.log)| == |s.batches|
    && Checkpointed(s) <= |MarkersOf(d.log[..d.synced])|
    && UnresolvedInv(s.unresolved, Live(d, truth)[|s.batches|..], |SyncedLive(d, truth)| - |s.batches|)
    && s.header.nextSequence <= s.nextSequence
    && (forall i :: 0 <= i < |PreparedOf(d.log)| ==> PreparedOf(d.log)[i].sequence < s.nextSequence)
  }

  /** The frontier of the stream counts its batches. */
  lemma CurrentIs(s: Stream, truth: Ledger, hist: seq<Batch>)
    requires PublishedInv(s, truth, hist) && Chain(hist, s.header.earliest)
    ensures Current(s) == s.header.earliest + |s.batches|
    ensures Chain(s.batches, s.header.earliest)
  {
  }

  lemma HistoryChain(h: Header, history: seq<Batch>)
    requires HistoryFits(h, history)
    ensures Chain(Unreclaimed(h, history), h.earliest)
  {
  }

  lemma {:induction false} TxnsAppend(bs: seq<Batch>, b: Batch)
    ensures TxnsOf(bs + [b]) == TxnsOf(bs) + {b.txn}
  {
    var l := bs + [b];
    forall t | t in TxnsOf(bs) ensures t in TxnsOf(l) {
      var i :| 0 <= i < |bs| && bs[i].txn == t;
      assert l[i] == bs[i];
    }
    assert l[|bs|] == b;
  }

  lemma TxnsHas(bs: seq<Batch>, i: nat)
    requires i < |bs|
    ensures bs[i].txn in TxnsOf(bs)
  {
  }

  lemma SizesAppend(bs: seq<Batch>, b: Batch)
    ensures SizesOf(bs + [b]) == SizesOf(bs) + [SizeOf(b)]
  {
  }

  lemma {:induction false} TxnsConcat(a: seq<Batch>, b: seq<Batch>)
    ensures TxnsOf(a + b) == TxnsOf(a) + TxnsOf(b)
  {
    var l := a + b;
    forall t | t in TxnsOf(a) ensures t in TxnsOf(l) {
      var i :| 0 <= i < |a| && a[i].txn == t;
      assert l[i] == a[i];
    }
    forall t | t in TxnsOf(b) ensures t in TxnsOf(l) {
      var i :| 0 <= i < |b| && b[i].txn == t;
      assert l[|a| + i] == b[i];
    }
  }

  lemma {:induction false} LaterIsNew(bs: seq<Batch>, k: nat, i: nat)
    requires Ordered(bs) && k <= i < |bs|
    ensures bs[i].txn !in TxnsOf(bs[..k])
  {
    forall j | 0 <= j < k ensures bs[..k][j].txn != bs[i].txn {}
  }
}
