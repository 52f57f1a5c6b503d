/** Recovery is exact: from any disk that satisfies the invariant, an open gives
    back every committed, unreclaimed batch and nothing else. */
module RecoveryProof {
  import opened Wrappers
  import opened Widths
  import opened ChangeTypes
  import opened Codec
  import opened Loading
  import opened LogViews
  import opened StreamSpec
  import opened DiskInvariant
  import opened StreamInvariant
  import opened Recovery

  // ---------------------------------------------------------------------------
  // The loaded records
  // ---------------------------------------------------------------------------

  lemma {:induction false} MarkersTellTruth(ms: seq<Marker>, live: seq<Batch>, truth: Ledger, b: Batch,
                                            outcome: u64 -> Outcome)
    requires MarkersAgree(ms, live, truth) && Reports(outcome, truth, ms)
    ensures LoadedRecord(b, outcome, ms) == TruthRecord(b, truth, ms)
  {
    match MarkerOf(ms, b.txn)
    case Some(commit) =>
      var i :| 0 <= i < |ms| && ms[i] == Marker(b.txn, commit);
    case None =>
  }

  /** A log whose markers tell the truth about the live reservations loads as the truth. */
  lemma {:induction false} LoadsTruth(log: seq<Record>, live: seq<Batch>, truth: Ledger, outcome: u64 -> Outcome)
    requires MarkersFollow(log) && Ordered(PreparedOf(log)) && MarkersAgree(MarkersOf(log), live, truth)
    requires Reports(outcome, truth, MarkersOf(log))
    ensures LoadRecords(log, outcome) == Ok(TruthRecords(PreparedOf(log), truth, MarkersOf(log)))
  {
    LoadShape(log, outcome);
    hide PreparedOf, MarkersOf, LoadRecords, LoadedRecord, TruthRecord, MarkersFollow, MarkerOf;
    var bs, ms, rs := PreparedOf(log), MarkersOf(log), LoadRecords(log, outcome).value;
    forall i | 0 <= i < |bs| ensures rs[i] == TruthRecord(bs[i], truth, ms) {
      MarkersTellTruth(ms, live, truth, bs[i], outcome);
    }
    assert rs == TruthRecords(bs, truth, ms);
  }

  lemma {:induction false} TruthShape(d: Disk, truth: Ledger, history: seq<Batch>, outcome: u64 -> Outcome)
    requires DiskInv(d, truth, history) && Reports(outcome, truth, MarkersOf(d.log))
    ensures LoadRecords(d.log, outcome) == Ok(TruthRecords(PreparedOf(d.log), truth, MarkersOf(d.log)))
  {
    hide PreparedOf, MarkersOf, LiveOf, LoadRecords, MarkersFollow, Reports, Ordered, MarkersAgree, TruthRecords;
    LoadsTruth(d.log, Live(d, truth), truth, outcome);
  }

  // ---------------------------------------------------------------------------
  // Gathering
  // ---------------------------------------------------------------------------

  function CommittedOf(bs: seq<Batch>, truth: Ledger): seq<Batch> {
    if bs == [] then []
    else
      var n := |bs| - 1;
      var o := OutcomeOf(truth, bs[n].txn);
      if o.Committed? then CommittedOf(bs[..n], truth) + [Resolve(bs[n], o.commit)] else CommittedOf(bs[..n], truth)
  }

  function UnresolvedOf(bs: seq<Batch>, truth: Ledger): seq<Batch> {
    if bs == [] then []
    else
      var n := |bs| - 1;
      if OutcomeOf(truth, bs[n].txn).Unresolved? then UnresolvedOf(bs[..n], truth) + [bs[n]]
      else UnresolvedOf(bs[..n], truth)
  }

  /** Markers for the committed batches that have none. */
  function RepairsOf(bs: seq<Batch>, truth: Ledger, ms: seq<Marker>): seq<Record> {
    if bs == [] then []
    else
      var n := |bs| - 1;
      var o := OutcomeOf(truth, bs[n].txn);
      if o.Committed? && !Marked(ms, bs[n].txn) then RepairsOf(bs[..n], truth, ms) + [Finalize(bs[n].txn, o.commit)]
      else RepairsOf(bs[..n], truth, ms)
  }

  function UnresolvedMap(bs: seq<Batch>): map<u64, PreparedRecord> {
    if bs == [] then map[]
    else UnresolvedMap(bs[..|bs| - 1])[bs[|bs| - 1].txn := StagedRecord(bs[|bs| - 1], true)]
  }

  function EntryOf(b: Batch): CommittedEntry {
    CommittedEntry(b, SizeOf(b))
  }

  function EntriesOf(bs: seq<Batch>): (es: seq<CommittedEntry>)
    ensures |es| == |bs|
  {
    seq(|bs|, i requires 0 <= i < |bs| => EntryOf(bs[i]))
  }

  function LastSequence(bs: seq<Batch>): nat {
    if bs == [] then 0 else bs[|bs| - 1].sequence
  }

  /** Everything gathered from a list of batches, in closed form. */
  function GatheredFrom(bs: seq<Batch>, truth: Ledger, ms: seq<Marker>, fileBytes: nat): Gathered {
    Gathered(EntriesOf(CommittedOf(bs, truth)), VersionsOf(CommittedOf(bs, truth), truth),
             UnresolvedMap(UnresolvedOf(bs, truth)), RepairsOf(bs, truth, ms),
             fileBytes + 32 * |RepairsOf(bs, truth, ms)|, LastSequence(bs), TxnsOf(bs))
  }

  predicate Recoverable(h: Header, b: Batch, truth: Ledger) {
    var o := OutcomeOf(truth, b.txn);
    Encodable(h, b) && (o.Committed? ==> CommitFits(h.kind, o.commit))
  }

  /** No unresolved transaction is marked: a marker says committed. */
  predicate MarksCommitted(ms: seq<Marker>, truth: Ledger) {
    forall i :: 0 <= i < |ms| ==> OutcomeOf(truth, ms[i].txn).Committed?
  }

  /** What one more batch adds to each gathered part. */
  lemma {:induction false} GatherViews(bs: seq<Batch>, b: Batch, truth: Ledger, ms: seq<Marker>)
    ensures var l, o := bs + [b], OutcomeOf(truth, b.txn);
            && CommittedOf(l, truth) == (if o.Committed? then CommittedOf(bs, truth) + [Resolve(b, o.commit)] else CommittedOf(bs, truth))
            && UnresolvedOf(l, truth) == (if o.Unresolved? then UnresolvedOf(bs, truth) + [b] else UnresolvedOf(bs, truth))
            && RepairsOf(l, truth, ms) == (if o.Committed? && !Marked(ms, b.txn) then RepairsOf(bs, truth, ms) + [Finalize(b.txn, o.commit)]
                                           else RepairsOf(bs, truth, ms))
            && LastSequence(l) == b.sequence && TxnsOf(l) == TxnsOf(bs) + {b.txn}
  {
    var l := bs + [b];
    assert l[..|bs|] == bs && l[|bs|] == b;
    TxnsAppend(bs, b);
  }

  lemma {:induction false} GatherFresh(bs: seq<Batch>, b: Batch)
    requires Ordered(bs + [b])
    ensures b.txn !in TxnsOf(bs) && LastSequence(bs) <= b.sequence
  {
    var l := bs + [b];
    assert l[|bs|] == b;
    forall i | 0 <= i < |bs| ensures bs[i].txn != b.txn && bs[i].sequence < b.sequence { assert l[i] == bs[i]; }
  }

  lemma {:induction false} UnresolvedMapAppend(bs: seq<Batch>, b: Batch)
    ensures UnresolvedMap(bs + [b]) == UnresolvedMap(bs)[b.txn := StagedRecord(b, true)]
  {
    assert (bs + [b])[..|bs|] == bs;
  }

  lemma {:induction false} GatherStep(h: Header, bs: seq<Batch>, b: Batch, truth: Ledger, ms: seq<Marker>,
                                      fileBytes: nat)
    requires Ordered(bs + [b]) && Recoverable(h, b, truth) && MarksCommitted(ms, truth)
    requires fileBytes + 32 * |RepairsOf(bs + [b], truth, ms)| <= MAX_U64
    ensures GatherOne(h.kind, GatheredFrom(bs, truth, ms, fileBytes), TruthRecord(b, truth, ms)) ==
            Ok(GatheredFrom(bs + [b], truth, ms, fileBytes))
  {
    hide CommittedOf, UnresolvedOf, RepairsOf, UnresolvedMap, TxnsOf, EntriesOf, VersionsOf, Resolve, CommittedError,
         Recoverable, Ordered, LastSequence, RecordSize;
    GatherViews(bs, b, truth, ms);
    GatherFresh(bs, b);
    match OutcomeOf(truth, b.txn)
    case Committed(commit) =>
      GatherCommitted(h, bs, b, truth, ms, commit);
      assert RepairsOf(bs, truth, ms) + [] == RepairsOf(bs, truth, ms);
    case Aborted =>
    case Unresolved =>
      UnresolvedMapAppend(UnresolvedOf(bs, truth), b);
  }

  lemma {:induction false} GatherCommitted(h: Header, bs: seq<Batch>, b: Batch, truth: Ledger, ms: seq<Marker>,
                                           commit: Option<u64>)
    requires Recoverable(h, b, truth) && OutcomeOf(truth, b.txn) == Committed(commit)
    ensures !(h.kind.LsmStorage? && commit.None?) && b.txn != 0
    ensures CommittedError(Resolve(b, commit).mutations, h.kind).None?
    ensures var c := CommittedOf(bs, truth);
            EntriesOf(c + [Resolve(b, commit)]) == EntriesOf(c) + [EntryOf(Resolve(b, commit))]
    ensures var c := CommittedOf(bs, truth);
            VersionsOf(c + [Resolve(b, commit)], truth) == VersionsOf(c, truth)[b.txn := commit]
    ensures RecordSize(Prepared(Resolve(b, commit))) == RecordSize(Prepared(b))
  {
    CommitMakesValid(h, b, commit);
    ResolveKeepsSize(b, commit);
    TxnsAppend(CommittedOf(bs, truth), Resolve(b, commit));
    hide CommittedOf, PayloadSize, TxnsOf, ResolveAll;
  }

  lemma {:induction false} GatherShape(h: Header, bs: seq<Batch>, truth: Ledger, ms: seq<Marker>, fileBytes: nat)
    requires Ordered(bs) && MarksCommitted(ms, truth)
    requires forall i :: 0 <= i < |bs| ==> Recoverable(h, bs[i], truth)
    requires fileBytes + 32 * |RepairsOf(bs, truth, ms)| <= MAX_U64
    ensures Gather(h.kind, TruthRecords(bs, truth, ms), fileBytes) == Ok(GatheredFrom(bs, truth, ms, fileBytes))
  {
    hide GatherOne, GatheredFrom, TruthRecord, Recoverable, MarksCommitted;
    if bs == [] {
      GatherNothing(truth, ms, fileBytes);
    } else {
      var n := |bs| - 1;
      var front := bs[..n];
      assert bs == front + [bs[n]];
      GatherShape(h, front, truth, ms, fileBytes);
      var rs := TruthRecords(bs, truth, ms);
      assert rs[..n] == TruthRecords(front, truth, ms) && rs[n] == TruthRecord(bs[n], truth, ms);
      GatherStep(h, front, bs[n], truth, ms, fileBytes);
    }
  }

  lemma GatherNothing(truth: Ledger, ms: seq<Marker>, fileBytes: nat)
    ensures GatheredFrom([], truth, ms, fileBytes) == Nothing(fileBytes)
  {
  }

  // ---------------------------------------------------------------------------
  // What was gathered, against the truth
  // ---------------------------------------------------------------------------

  lemma {:induction false} AgreesPrefix(kind: StorageKind, live: seq<Batch>, truth: Ledger, hist: seq<Batch>, k: nat)
    requires Agrees(kind, live, truth, hist) && k <= |live|
    ensures Agrees(kind, live[..k], truth, if |hist| <= k then hist else hist[..k])
  {
    hide CommittedAs;
  }

  /** The committed batches are the history, and what is left of the live ones is unresolved. */
  lemma {:induction false} SplitCommitted(kind: StorageKind, bs: seq<Batch>, truth: Ledger, hist: seq<Batch>)
    requires Agrees(kind, LiveOf(bs, truth), truth, hist)
    ensures CommittedOf(bs, truth) == hist
    ensures UnresolvedOf(bs, truth) == LiveOf(bs, truth)[|hist|..]
  {
    hide CommitFits, Resolve, Agrees;
    if bs == [] {
      AgreesShort(kind, [], truth, hist);
    } else {
      var n := |bs| - 1;
      var front, b, o := bs[..n], bs[n], OutcomeOf(truth, bs[n].txn);
      var live, before := LiveOf(bs, truth), LiveOf(front, truth);
      AgreesShort(kind, live, truth, hist);
      AgreesPrefix(kind, live, truth, hist, |before|);
      if o.Aborted? {
        assert live[..|before|] == before;
        SplitCommitted(kind, front, truth, hist);
      } else {
        assert live == before + [b] && live[..|before|] == before;
        LiveOutcome(kind, live, truth, hist, |before|);
        SplitCommitted(kind, front, truth, if |hist| <= |before| then hist else hist[..|before|]);
        if o.Committed? {
          CommittedIs(kind, live, truth, hist, |before|);
          assert hist == hist[..|before|] + [hist[|before|]];
        }
      }
    }
  }

  lemma AgreesShort(kind: StorageKind, live: seq<Batch>, truth: Ledger, hist: seq<Batch>)
    requires Agrees(kind, live, truth, hist)
    ensures |hist| <= |live|
  {
  }

  lemma {:induction false} CommittedIs(kind: StorageKind, live: seq<Batch>, truth: Ledger, hist: seq<Batch>, i: nat)
    requires Agrees(kind, live, truth, hist) && i < |hist|
    ensures i < |live| && hist[i] == Resolve(live[i], CommitOf(OutcomeOf(truth, live[i].txn)))
  {
    assert CommittedAs(kind, live[i], truth, hist[i]);
  }

  /** Markers for `live[start..upTo]`, as the ledger committed them. */
  function RepairList(live: seq<Batch>, truth: Ledger, start: nat, upTo: nat): (r: seq<Record>)
    requires start <= upTo <= |live|
    ensures |r| == upTo - start
    decreases upTo
  {
    if start == upTo then []
    else RepairList(live, truth, start, upTo - 1) + [Finalize(live[upTo - 1].txn, CommitOf(OutcomeOf(truth, live[upTo - 1].txn)))]
  }

  /** A live reservation is marked exactly when it is among the first. */
  lemma {:induction false} MarkedExactly(ms: seq<Marker>, live: seq<Batch>, truth: Ledger, i: nat)
    requires MarkersAgree(ms, live, truth) && Ordered(live) && i < |live|
    ensures Marked(ms, live[i].txn) <==> i < |ms|
  {
    if i < |ms| {
      assert ms[i].txn == live[i].txn;
    } else {
      forall j | 0 <= j < |ms| ensures ms[j].txn != live[i].txn {
        assert live[j].txn != live[i].txn;
      }
    }
  }

  /** The repairs are the markers of the committed reservations that had none, in order. */
  lemma {:induction false} RepairsAre(kind: StorageKind, bs: seq<Batch>, live: seq<Batch>, truth: Ledger,
                                      ms: seq<Marker>, hist: seq<Batch>)
    requires LiveOf(bs, truth) <= live && Ordered(live) && MarkersAgree(ms, live, truth)
    requires Agrees(kind, live, truth, hist) && |ms| <= |hist|
    ensures var reached := if |LiveOf(bs, truth)| < |hist| then |LiveOf(bs, truth)| else |hist|;
            RepairsOf(bs, truth, ms) == RepairList(live, truth, |ms|, if reached < |ms| then |ms| else reached)
  {
    hide CommittedAs;
    if bs != [] {
      var n := |bs| - 1;
      var front, b, o := bs[..n], bs[n], OutcomeOf(truth, bs[n].txn);
      var before := LiveOf(front, truth);
      assert before <= live;
      RepairsAre(kind, front, live, truth, ms, hist);
      if !o.Aborted? {
        assert LiveOf(bs, truth) == before + [b];
        var i := |before|;
        assert live[i] == b;
        MarkedExactly(ms, live, truth, i);
        LiveOutcome(kind, live, truth, hist, i);
      }
    }
  }

  lemma {:induction false} LiveOutcome(kind: StorageKind, live: seq<Batch>, truth: Ledger, hist: seq<Batch>, i: nat)
    requires Agrees(kind, live, truth, hist) && i < |live|
    ensures OutcomeOf(truth, live[i].txn).Committed? <==> i < |hist|
    ensures OutcomeOf(truth, live[i].txn).Unresolved? <==> i >= |hist|
  {
    if i < |hist| { assert CommittedAs(kind, live[i], truth, hist[i]); }
  }

  /** Appending the missing markers, oldest first, keeps the disk invariant. */
  lemma {:induction false} DiskAfterRepairs(d: Disk, truth: Ledger, history: seq<Batch>, upTo: nat)
    requires DiskInv(d, truth, history)
    requires |MarkersOf(d.log)| <= upTo <= |Unreclaimed(d.header, history)| <= |Live(d, truth)|
    ensures var d' := d.(log := d.log + RepairList(Live(d, truth), truth, |MarkersOf(d.log)|, upTo));
            && DiskInv(d', truth, history) && Live(d', truth) == Live(d, truth)
            && PreparedOf(d'.log) == PreparedOf(d.log) && |MarkersOf(d'.log)| == upTo
            && FileSize(d.header, d'.log) == FileSize(d.header, d.log) + 32 * (upTo - |MarkersOf(d.log)|)
    decreases upTo
  {
    hide DiskInv, MarkersOf, PreparedOf, LiveOf;
    var live, start := Live(d, truth), |MarkersOf(d.log)|;
    if upTo == start {
      assert d.log + [] == d.log;
    } else {
      DiskAfterRepairs(d, truth, history, upTo - 1);
      var d1 := d.(log := d.log + RepairList(live, truth, start, upTo - 1));
      var txn := live[upTo - 1].txn;
      CommittedAt(d1, truth, history, upTo - 1);
      var commit := CommitOf(OutcomeOf(truth, txn));
      DiskAfterMark(d1, truth, history, txn, commit);
      PreparedAppend(d1.log, Finalize(txn, commit));
      assert d.log + RepairList(live, truth, start, upTo) == d1.log + [Finalize(txn, commit)];
    }
  }

  lemma {:induction false} CommittedAt(d: Disk, truth: Ledger, history: seq<Batch>, i: nat)
    requires DiskInv(d, truth, history) && i < |Unreclaimed(d.header, history)|
    ensures i < |Live(d, truth)| && OutcomeOf(truth, Live(d, truth)[i].txn).Committed?
    ensures CommitFits(d.header.kind, CommitOf(OutcomeOf(truth, Live(d, truth)[i].txn)))
    ensures Unreclaimed(d.header, history)[i] == Resolve(Live(d, truth)[i], CommitOf(OutcomeOf(truth, Live(d, truth)[i].txn)))
  {
    assert CommittedAs(d.header.kind, Live(d, truth)[i], truth, Unreclaimed(d.header, history)[i]);
  }

  // ---------------------------------------------------------------------------
  // The rebuilt stream
  // ---------------------------------------------------------------------------

  lemma {:induction false} UnresolvedMapInv(bs: seq<Batch>)
    requires Ordered(bs)
    ensures UnresolvedMap(bs).Keys == TxnsOf(bs)
    ensures forall i :: 0 <= i < |bs| ==> UnresolvedMap(bs)[bs[i].txn] == StagedRecord(bs[i], true)
  {
    if bs != [] {
      var n := |bs| - 1;
      UnresolvedMapInv(bs[..n]);
      TxnsAppend(bs[..n], bs[n]);
      assert bs == bs[..n] + [bs[n]];
      forall i | 0 <= i < n ensures UnresolvedMap(bs)[bs[i].txn] == StagedRecord(bs[i], true) {
        assert bs[..n][i] == bs[i] && bs[i].txn != bs[n].txn;
      }
    }
  }

  lemma {:induction false} LiveShorter(bs: seq<Batch>, truth: Ledger)
    ensures |LiveOf(bs, truth)| <= |bs|
  {
    if bs != [] { LiveShorter(bs[..|bs| - 1], truth); }
  }

  /** History batches keep the sequences of their reservations. */
  lemma {:induction false} HistoryOrdered(d: Disk, truth: Ledger, history: seq<Batch>)
    requires DiskInv(d, truth, history)
    ensures Ordered(Unreclaimed(d.header, history))
  {
    var hist, live := Unreclaimed(d.header, history), Live(d, truth);
    LiveOrdered(PreparedOf(d.log), truth);
    forall i | 0 <= i < |hist| ensures hist[i].sequence == live[i].sequence && hist[i].txn == live[i].txn {
      CommittedAt(d, truth, history, i);
    }
  }

  /** Every prepared batch can be gathered. */
  lemma {:induction false} AllRecoverable(d: Disk, truth: Ledger, history: seq<Batch>)
    requires DiskInv(d, truth, history)
    ensures forall i :: 0 <= i < |PreparedOf(d.log)| ==> Recoverable(d.header, PreparedOf(d.log)[i], truth)
    ensures MarksCommitted(MarkersOf(d.log), truth)
  {
    hide LiveOf, PreparedOf, MarkersOf, Encodable;
    var bs := PreparedOf(d.log);
    forall i | 0 <= i < |bs| ensures Recoverable(d.header, bs[i], truth) {
      PreparedLoadable(d.header, d.log, bs[i]);
      if OutcomeOf(truth, bs[i].txn).Committed? {
        LiveHasAll(bs, truth, i);
        var j :| 0 <= j < |Live(d, truth)| && Live(d, truth)[j] == bs[i];
        LiveOutcome(d.header.kind, Live(d, truth), truth, Unreclaimed(d.header, history), j);
        CommittedAt(d, truth, history, j);
      }
    }
  }

  /** What is gathered from a whole disk. */
  lemma {:induction false} GatherDisk(d: Disk, truth: Ledger, history: seq<Batch>)
    requires DiskInv(d, truth, history)
    ensures var bs, ms, hist, live := PreparedOf(d.log), MarkersOf(d.log), Unreclaimed(d.header, history), Live(d, truth);
            && |ms| <= |hist| <= |live|
            && FileSize(d.header, d.log) + 32 * (|hist| - |ms|) <= MAX_U64
            && Gather(d.header.kind, TruthRecords(bs, truth, ms), FileSize(d.header, d.log)) ==
               Ok(Gathered(EntriesOf(hist), VersionsOf(hist, truth), UnresolvedMap(live[|hist|..]),
                           RepairList(live, truth, |ms|, |hist|),
                           FileSize(d.header, d.log) + 32 * (|hist| - |ms|), LastSequence(bs), TxnsOf(bs)))
  {
    hide PreparedOf, MarkersOf, LiveOf, FileSize, Agrees, MarkersAgree, TruthRecords, TxnsOf, Gather, RepairsOf,
         CommittedOf, UnresolvedOf, Ordered, Recoverable, MarksCommitted, LastSequence;
    var bs, ms, hist, live := PreparedOf(d.log), MarkersOf(d.log), Unreclaimed(d.header, history), Live(d, truth);
    ViewBounds(d.header, live, ms, |SyncedLive(d, truth)|, truth, history);
    SplitCommitted(d.header.kind, bs, truth, hist);
    LiveOrdered(bs, truth);
    RepairsAre(d.header.kind, bs, live, truth, ms, hist);
    AllRecoverable(d, truth, history);
    FileSizeSplit(d.header, d.log);
    LiveShorter(bs, truth);
    GatherShape(d.header, bs, truth, ms, FileSize(d.header, d.log));
  }

  lemma {:induction false} SortEntries(bs: seq<Batch>)
    requires Ordered(bs)
    ensures SortBySequence(EntriesOf(bs)) == EntriesOf(bs)
    ensures BatchesOf(EntriesOf(bs)) == bs && BytesOf(EntriesOf(bs)) == SizesOf(bs)
  {
    SortOfSorted(EntriesOf(bs));
  }

  /** The stream rebuilt from a disk: the whole history, everything checkpointed. */
  function Rebuilt(d: Disk, truth: Ledger, history: seq<Batch>): Stream
    requires DiskInv(d, truth, history)
    requires |MarkersOf(d.log)| <= |Unreclaimed(d.header, history)| <= |Live(d, truth)|
    requires LastSequence(PreparedOf(d.log)) < MAX_U64
  {
    var h, hist := d.header, Unreclaimed(d.header, history);
    var next := LastSequence(PreparedOf(d.log)) + 1;
    Stream(h, FileSize(h, d.log) + 32 * (|hist| - |MarkersOf(d.log)|), hist, SizesOf(hist), VersionsOf(hist, truth),
           UnresolvedMap(Live(d, truth)[|hist|..]), map[], EffectiveCurrent(h, hist),
           if h.nextSequence > next then h.nextSequence else next)
  }

  lemma SequencesBounded(d: Disk, truth: Ledger, history: seq<Batch>)
    requires DiskInv(d, truth, history)
    ensures LastSequence(PreparedOf(d.log)) < MAX_U64
    ensures forall i :: 0 <= i < |PreparedOf(d.log)| ==> PreparedOf(d.log)[i].sequence <= LastSequence(PreparedOf(d.log))
    ensures HistoryFits(d.header, history)
    ensures |MarkersOf(d.log)| <= |Unreclaimed(d.header, history)| <= |Live(d, truth)|
  {
  }

  /** Building from the records of a disk succeeds and rebuilds exactly its history. */
  lemma {:induction false} BuildDisk(d: Disk, truth: Ledger, history: seq<Batch>)
    requires DiskInv(d, truth, history)
    ensures LastSequence(PreparedOf(d.log)) < MAX_U64
    ensures |MarkersOf(d.log)| <= |Unreclaimed(d.header, history)| <= |Live(d, truth)|
    ensures Build(d.header, FileSize(d.header, d.log), TruthRecords(PreparedOf(d.log), truth, MarkersOf(d.log))) ==
            Ok(Built(Rebuilt(d, truth, history),
                     RepairList(Live(d, truth), truth, |MarkersOf(d.log)|, |Unreclaimed(d.header, history)|)))
  {
    hide Gather, TruthRecords, EntriesOf, VersionsOf, UnresolvedMap, RepairList, PreparedOf, MarkersOf, LiveOf,
         FileSize, SortBySequence, BatchesOf, BytesOf, SizesOf, ChainError, TxnsOf, LastSequence, WellFormedLog,
         ViewInv, Ordered, Chain, HistoryFits;
    SequencesBounded(d, truth, history);
    GatherDisk(d, truth, history);
    HistoryOrdered(d, truth, history);
    SortEntries(Unreclaimed(d.header, history));
    HistoryReaches(d.header, history);
    HistoryChain(d.header, history);
    ChainErrorIff(d.header.earliest, Unreclaimed(d.header, history));
  }

  /** The retained history reaches at least the frontier the header promises. */
  lemma HistoryReaches(h: Header, history: seq<Batch>)
    requires HistoryFits(h, history)
    ensures EffectiveCurrent(h, Unreclaimed(h, history)) == h.earliest + |Unreclaimed(h, history)| >= h.current
    ensures Unreclaimed(h, history) == [] ==> h.earliest == h.current
  {
  }
}
