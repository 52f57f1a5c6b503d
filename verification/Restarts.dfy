/** Opening a file nobody cut: a restart of the process.  Such an open syncs the file
    only if it cuts a torn tail or appends a marker, and takes every record for
    durable all the same. */
module Restarts {
  import opened Wrappers
  import opened Widths
  import opened ChangeTypes
  import opened Codec
  import opened LogFile
  import opened Loading
  import opened LogViews
  import opened StreamSpec
  import opened DiskInvariant
  import opened StreamInvariant
  import opened Recovery
  import opened RecoveryProof
  import opened CrashSafety
  import opened ProtocolSteps

  // ---------------------------------------------------------------------------
  // What is on the medium
  // ---------------------------------------------------------------------------

  /** Every committed, unreclaimed batch is prepared in the first `medium` records. */
  predicate CommittedKept(d: Disk, medium: nat, truth: Ledger, history: seq<Batch>) {
    && medium <= |d.log| && HistoryFits(d.header, history)
    && |Unreclaimed(d.header, history)| <= |LiveOf(PreparedOf(d.log[..medium]), truth)|
  }

  /** That is all the disk invariant asks of the medium. */
  lemma {:induction false} AtMedium(d: Disk, truth: Ledger, history: seq<Batch>, medium: nat)
    requires DiskInv(d, truth, history) && medium <= |d.log|
    ensures DiskInv(d.(synced := medium), truth, history) <==> CommittedKept(d, medium, truth, history)
  {
    hide WellFormedLog, PreparedOf, MarkersOf, LiveOf, Agrees, MarkersAgree, Chain;
  }

  /** From record `a` up to record `b` the log holds nothing but prepared records of aborted transactions. */
  predicate Quiet(log: seq<Record>, a: nat, b: nat, truth: Ledger) {
    forall i :: a <= i < b <= |log| ==> log[i].Prepared? && OutcomeOf(truth, log[i].batch.txn).Aborted?
  }

  lemma {:induction false} QuietViews(log: seq<Record>, a: nat, b: nat, truth: Ledger)
    requires a <= b <= |log| && Quiet(log, a, b, truth)
    ensures LiveOf(PreparedOf(log[..a]), truth) == LiveOf(PreparedOf(log[..b]), truth)
    ensures MarkersOf(log[..a]) == MarkersOf(log[..b])
    decreases b
  {
    hide PreparedOf, MarkersOf, LiveOf;
    if a < b {
      var r := log[b - 1];
      QuietViews(log, a, b - 1, truth);
      assert log[..b] == log[..b - 1] + [r];
      PreparedAppend(log[..b - 1], r);
      LiveAppend(PreparedOf(log[..b - 1]), r.batch, truth);
    }
  }

  /** Whatever else lies there shows in one of the two views. */
  lemma {:induction false} ViewsQuiet(log: seq<Record>, a: nat, b: nat, truth: Ledger)
    requires a <= b <= |log|
    requires |LiveOf(PreparedOf(log[..a]), truth)| >= |LiveOf(PreparedOf(log[..b]), truth)|
    requires |MarkersOf(log[..a])| >= |MarkersOf(log[..b])|
    ensures Quiet(log, a, b, truth)
    decreases b
  {
    hide PreparedOf, MarkersOf, LiveOf;
    if a < b {
      var r := log[b - 1];
      assert log[..b] == log[..b - 1] + [r];
      assert log[..b - 1][..a] == log[..a];
      ViewsPrefix(log[..b - 1], a);
      LivePrefix(PreparedOf(log[..a]), PreparedOf(log[..b - 1]), truth);
      PreparedAppend(log[..b - 1], r);
      if r.Prepared? { LiveAppend(PreparedOf(log[..b - 1]), r.batch, truth); }
      ViewsQuiet(log, a, b - 1, truth);
    }
  }

  // ---------------------------------------------------------------------------
  // Opening after a restart
  // ---------------------------------------------------------------------------

  /** The bytes a restart finds end behind the last record, or inside one that was being appended. */
  predicate TornTail(d: Disk, torn: seq<Record>, cut: nat) {
    && LoadableLog(d.header, d.log + torn)
    && (if torn == [] then cut == FileSize(d.header, d.log)
        else |torn| == 1 && FileSize(d.header, d.log) < cut < FileSize(d.header, d.log + torn))
  }

  /** The open syncs the file exactly when it cut a torn tail or appended a marker. */
  predicate OpenSyncs(torn: seq<Record>, repairs: seq<Record>) {
    torn != [] || repairs != []
  }

  /** When that is: a tail is torn, or a committed batch has no marker. */
  predicate RestartSyncs(d: Disk, history: seq<Batch>, torn: seq<Record>)
    requires HistoryFits(d.header, history)
  {
    torn != [] || |MarkersOf(d.log)| < |Unreclaimed(d.header, history)|
  }

  lemma {:induction false} TornBounds(d: Disk, torn: seq<Record>, cut: nat)
    requires TornTail(d, torn, cut)
    ensures HeaderSize(d.header) <= cut <= FileSize(d.header, d.log + torn)
    ensures WholeRecords(d.header, d.log + torn, cut) == |d.log|
  {
    hide FileSize, LoadableLog;
    SizePositive(d.header, d.log);
    var all := d.log + torn;
    assert all[..|d.log|] == d.log && all[..|all|] == all;
    FileSizeMonotone(d.header, all, |d.log|, |all|);
    var k := WholeRecords(d.header, all, cut);
    if k < |d.log| { FileSizeMonotone(d.header, all, k + 1, |d.log|); }
  }

  /** With every record read back, an open rebuilds the whole stream and appends the missing markers. */
  lemma {:induction false} RestartOpens(crc: Checksum, d: Disk, truth: Ledger, history: seq<Batch>, torn: seq<Record>, cut: nat,
                                        outcome: u64 -> Outcome)
    requires DiskInv(d, truth, history) && TornTail(d, torn, cut) && Reports(outcome, truth, MarkersOf(d.log))
    ensures HeaderSize(d.header) <= cut <= FileSize(d.header, d.log + torn)
    ensures var all := d.(synced := |d.log|);
            && DiskInv(all, truth, history)
            && |MarkersOf(d.log)| <= |Unreclaimed(d.header, history)| <= |Live(d, truth)|
            && LastSequence(PreparedOf(d.log)) < MAX_U64
            && OpenBytes(crc, FileBytes(crc, d.header, d.log + torn)[..cut], outcome) ==
               Ok(Built(Rebuilt(all, truth, history), Repaired(all, truth, history).log[|d.log|..]))
            && StreamInv(Rebuilt(all, truth, history), Repaired(all, truth, history), truth, history)
            && (OpenSyncs(torn, Repaired(all, truth, history).log[|d.log|..]) <==> RestartSyncs(d, history, torn))
  {
    hide PreparedOf, MarkersOf, LiveOf, FileSize, LoadRecords, Build, DiskInv, StreamInv, RepairList, Reports,
         LoadFile, WholeRecords, LastSequence, Rebuilt, Repaired, LoadableLog;
    var all := d.(synced := |d.log|);
    TornBounds(d, torn, cut);
    FactsForLoad(d, truth, history);
    DiskAfterSyncAll(d, truth, history);
    assert (d.log + torn)[..|d.log|] == d.log == d.log[..|d.log|];
    LoadableOf(d, torn, cut);
    TornTailRecovery(crc, d.header, d.log + torn, cut, outcome, true);
    RecoveryIsExact(all, truth, history, outcome, |d.log|);
    RepairsIff(all, truth, history);
  }

  /** Markers are appended exactly when one is missing. */
  lemma {:induction false} RepairsIff(d: Disk, truth: Ledger, history: seq<Batch>)
    requires DiskInv(d, truth, history) && |MarkersOf(d.log)| <= |Unreclaimed(d.header, history)| <= |Live(d, truth)|
    ensures Repaired(d, truth, history).log[|d.log|..] == [] <==> |MarkersOf(d.log)| == |Unreclaimed(d.header, history)|
  {
    hide PreparedOf, MarkersOf, LiveOf, DiskInv, HistoryFits;
    FactsForLoad(d, truth, history);
    var repairs := RepairList(Live(d, truth), truth, |MarkersOf(d.log)|, |Unreclaimed(d.header, history)|);
    assert (d.log + repairs)[|d.log|..] == repairs;
  }

  lemma LoadableOf(d: Disk, torn: seq<Record>, cut: nat)
    requires TornTail(d, torn, cut)
    ensures LoadableLog(d.header, d.log + torn)
  {
  }

  /** What a restart makes of a stream, exactly: the protocol's invariant holds of what
      is on the medium if and only if the open synced the file, or the log holds nothing
      live and no marker behind what is on the medium. */
  lemma {:induction false} RestartKeepsIff(crc: Checksum, d: Disk, truth: Ledger, history: seq<Batch>, medium: nat,
                                           torn: seq<Record>, cut: nat, outcome: u64 -> Outcome)
    requires DiskInv(d, truth, history) && medium <= |d.log|
    requires TornTail(d, torn, cut) && Reports(outcome, truth, MarkersOf(d.log))
    ensures HeaderSize(d.header) <= cut <= FileSize(d.header, d.log + torn)
    ensures var built := OpenBytes(crc, FileBytes(crc, d.header, d.log + torn)[..cut], outcome);
            && built.Ok?
            && var log := d.log + built.value.repairs;
               var synced := if OpenSyncs(torn, built.value.repairs) then |log| else medium;
               && HistoryFits(d.header, history)
               && (OpenSyncs(torn, built.value.repairs) <==> RestartSyncs(d, history, torn))
               && (StreamInv(built.value.stream, Disk(d.header, log, synced), truth, history) <==>
                   RestartSyncs(d, history, torn) || Quiet(d.log, medium, |d.log|, truth))
  {
    hide PreparedOf, MarkersOf, LiveOf, FileSize, DiskInv, StreamInv, RepairList, Reports, LastSequence, OpenBytes,
         FileBytes, TornTail, Rebuilt, HistoryFits;
    RestartOpens(crc, d, truth, history, torn, cut, outcome);
    FactsForLoad(d, truth, history);
    var all := d.(synced := |d.log|);
    var rep := Repaired(all, truth, history);
    assert d.log + rep.log[|d.log|..] == rep.log by { assert rep.log[..|d.log|] == d.log; }
    if rep.log[|d.log|..] == [] && torn == [] {
      MediumIff(d, truth, history, medium);
      assert d.log + [] == d.log && Disk(d.header, d.log, medium) == d.(synced := medium);
    }
  }

  /** A rebuilt stream without repairs, against the first `medium` records. */
  lemma {:induction false} MediumIff(d: Disk, truth: Ledger, history: seq<Batch>, medium: nat)
    requires DiskInv(d, truth, history) && medium <= |d.log|
    requires |MarkersOf(d.log)| == |Unreclaimed(d.header, history)| <= |Live(d, truth)|
    requires LastSequence(PreparedOf(d.log)) < MAX_U64 && DiskInv(d.(synced := |d.log|), truth, history)
    ensures var s := Rebuilt(d.(synced := |d.log|), truth, history);
            StreamInv(s, d.(synced := medium), truth, history) <==> Quiet(d.log, medium, |d.log|, truth)
  {
    hide PreparedOf, MarkersOf, LiveOf, FileSize, DiskInv, LastSequence, HistoryFits, StreamInv, Rebuilt, Quiet;
    var all := d.(synced := |d.log|);
    var s := Rebuilt(all, truth, history);
    RebuiltWhole(d, truth, history);
    if Quiet(d.log, medium, |d.log|, truth) {
      assert d.log[..|d.log|] == d.log;
      QuietViews(d.log, medium, |d.log|, truth);
      SyncedSame(s, all, truth, history, medium);
    }
    if StreamInv(s, d.(synced := medium), truth, history) { MediumHolds(s, d, truth, history, medium); }
  }

  lemma {:induction false} RebuiltWhole(d: Disk, truth: Ledger, history: seq<Batch>)
    requires DiskInv(d, truth, history) && DiskInv(d.(synced := |d.log|), truth, history)
    requires |MarkersOf(d.log)| == |Unreclaimed(d.header, history)| <= |Live(d, truth)|
    requires LastSequence(PreparedOf(d.log)) < MAX_U64
    ensures var all := d.(synced := |d.log|);
            && StreamInv(Rebuilt(all, truth, history), all, truth, history)
            && Checkpointed(Rebuilt(all, truth, history)) == |Rebuilt(all, truth, history).batches| == |Unreclaimed(d.header, history)|
            && forall t :: t in Rebuilt(all, truth, history).unresolved ==> Rebuilt(all, truth, history).unresolved[t].preparedDurable
  {
    hide PreparedOf, MarkersOf, LiveOf, FileSize, DiskInv, LastSequence, HistoryFits, StreamInv, UnresolvedMap,
         SizesOf, VersionsOf;
    var all := d.(synced := |d.log|);
    RebuiltInv(all, truth, history);
    RebuiltPublished(all, truth, history);
    FactsForLoad(d, truth, history);
    assert d.log + [] == d.log;
    AllDurable(Live(d, truth)[|Unreclaimed(d.header, history)|..]);
  }

  lemma {:induction false} AllDurable(bs: seq<Batch>)
    ensures forall t :: t in UnresolvedMap(bs) ==> UnresolvedMap(bs)[t].preparedDurable
    decreases |bs|
  {
    if bs != [] { AllDurable(bs[..|bs| - 1]); }
  }

  /** The invariant looks at the synced part through its two views only. */
  lemma {:induction false} SyncedSame(s: Stream, d: Disk, truth: Ledger, history: seq<Batch>, synced: nat)
    requires StreamInv(s, d, truth, history) && synced <= |d.log| && d.synced <= |d.log|
    requires LiveOf(PreparedOf(d.log[..synced]), truth) == SyncedLive(d, truth)
    requires MarkersOf(d.log[..synced]) == MarkersOf(d.log[..d.synced])
    ensures StreamInv(s, d.(synced := synced), truth, history)
  {
    hide PreparedOf, MarkersOf, LiveOf, FileSize, WellFormedLog, HistoryFits, Agrees, MarkersAgree, Chain,
         UnresolvedInv, PublishedInv;
  }

  /** What the invariant promises is on the medium: every marker and every live reservation. */
  lemma {:induction false} MediumHolds(s: Stream, d: Disk, truth: Ledger, history: seq<Batch>, medium: nat)
    requires StreamInv(s, d.(synced := medium), truth, history) && medium <= |d.log|
    requires Checkpointed(s) == |s.batches| && forall t :: t in s.unresolved ==> s.unresolved[t].preparedDurable
    ensures Quiet(d.log, medium, |d.log|, truth)
  {
    hide PreparedOf, MarkersOf, LiveOf, FileSize, DiskInv, PublishedInv, UnresolvedInv, Quiet;
    var m := d.(synced := medium);
    StreamFacts(s, m, truth, history);
    var rest, durable := Rest(s, m, truth), |SyncedLive(m, truth)| - |s.batches|;
    if rest != [] { ReservationAt(s.unresolved, rest, durable, |rest| - 1); }
    assert d.log[..|d.log|] == d.log;
    ViewsQuiet(d.log, medium, |d.log|, truth);
  }

  // ---------------------------------------------------------------------------
  // A machine crash after a restart
  // ---------------------------------------------------------------------------

  /** Markers stand behind their records: the marked reservations are live in any prefix. */
  lemma {:induction false} MarkersBehind(d: Disk, truth: Ledger, history: seq<Batch>, a: nat)
    requires DiskInv(d, truth, history) && a <= |d.log|
    ensures LiveOf(PreparedOf(d.log[..a]), truth) <= Live(d, truth)
    ensures MarkersOf(d.log[..a]) <= MarkersOf(d.log)
    ensures |MarkersOf(d.log[..a])| <= |LiveOf(PreparedOf(d.log[..a]), truth)|
  {
    hide PreparedOf, MarkersOf, LiveOf, ReservedSize, LoadableLog, MarkersFollow;
    var bs, ms, live := PreparedOf(d.log[..a]), MarkersOf(d.log[..a]), Live(d, truth);
    ViewsPrefix(d.log, a);
    LivePrefix(bs, PreparedOf(d.log), truth);
    LiveOrdered(PreparedOf(d.log), truth);
    if ms != [] {
      var j := |ms| - 1;
      FollowPrefix(d.log, a);
      MarkerPrepared(d.log[..a], j);
      var i :| 0 <= i < |bs| && bs[i].txn == ms[j].txn;
      assert ms[j] == MarkersOf(d.log)[j];
      LiveHasAll(bs, truth, i);
      var k :| 0 <= k < |LiveOf(bs, truth)| && LiveOf(bs, truth)[k] == bs[i];
      assert live[k].txn == live[j].txn;
      TxnUnique(live, k, j);
    }
  }

  /** What is gathered from a prefix that misses committed records: the committed ones it still has. */
  lemma {:induction false} GatherLost(d: Disk, truth: Ledger, history: seq<Batch>, a: nat)
    requires DiskInv(d, truth, history) && a <= |d.log| && !CommittedKept(d, a, truth, history)
    ensures var bs, ms := PreparedOf(d.log[..a]), MarkersOf(d.log[..a]);
            var n := |LiveOf(bs, truth)|;
            && n < |Unreclaimed(d.header, history)|
            && var g := Gather(d.header.kind, TruthRecords(bs, truth, ms), FileSize(d.header, d.log[..a]));
               g.Ok? && g.value.committed == EntriesOf(Unreclaimed(d.header, history)[..n])
  {
    hide PreparedOf, MarkersOf, LiveOf, FileSize, Agrees, MarkersAgree, TruthRecords, TxnsOf, Gather, RepairsOf,
         CommittedOf, UnresolvedOf, Ordered, Recoverable, MarksCommitted, LastSequence, WellFormedLog, HistoryFits,
         Chain;
    var bs, ms, hist, live := PreparedOf(d.log[..a]), MarkersOf(d.log[..a]), Unreclaimed(d.header, history), Live(d, truth);
    var n := |LiveOf(bs, truth)|;
    DiskFacts(d, truth, history);
    MarkersBehind(d, truth, history, a);
    PrefixFacts(d, truth, history, a);
    AgreesPrefix(d.header.kind, live, truth, hist, n);
    assert live[..n] == LiveOf(bs, truth);
    SplitCommitted(d.header.kind, bs, truth, hist[..n]);
    RepairsAre(d.header.kind, bs, live, truth, ms, hist);
    FileSizeSplit(d.header, d.log[..a]);
    LiveShorter(bs, truth);
    GatherShape(d.header, bs, truth, ms, FileSize(d.header, d.log[..a]));
  }

  lemma {:induction false} PrefixFacts(d: Disk, truth: Ledger, history: seq<Batch>, a: nat)
    requires DiskInv(d, truth, history) && a <= |d.log|
    ensures var bs, ms := PreparedOf(d.log[..a]), MarkersOf(d.log[..a]);
            && Ordered(bs) && Ordered(Live(d, truth)) && MarkersFollow(d.log[..a])
            && MarkersAgree(ms, Live(d, truth), truth) && |ms| <= |Unreclaimed(d.header, history)|
            && Agrees(d.header.kind, Live(d, truth), truth, Unreclaimed(d.header, history))
            && MarksCommitted(ms, truth) && (forall i :: 0 <= i < |bs| ==> Recoverable(d.header, bs[i], truth))
            && HeaderSize(d.header) + ReservedSize(bs) <= MAX_U64
  {
    hide PreparedOf, MarkersOf, LiveOf, ReservedSize, LoadableLog, MarkersFollow, Agrees, Recoverable;
    ViewsPrefix(d.log, a);
    FollowPrefix(d.log, a);
    LiveOrdered(PreparedOf(d.log), truth);
    AllRecoverable(d, truth, history);
    ReservedPrefix(PreparedOf(d.log[..a]), PreparedOf(d.log));
  }

  lemma {:induction false} CutAtRecord(h: Header, log: seq<Record>, a: nat)
    requires a <= |log|
    ensures HeaderSize(h) <= FileSize(h, log[..a]) <= FileSize(h, log)
    ensures WholeRecords(h, log, FileSize(h, log[..a])) == a
  {
    hide RecordSize;
    SizePositive(h, log[..a]);
    assert log[..|log|] == log;
    FileSizeMonotone(h, log, a, |log|);
    var k := WholeRecords(h, log, FileSize(h, log[..a]));
    if k < a { FileSizeMonotone(h, log, k + 1, a); }
    if a < k {
      assert log[..a + 1][..a] == log[..a] && log[..a + 1][a] == log[a];
      SomeSize(log[a]);
      FileSizeMonotone(h, log, a + 1, k);
    }
  }

  lemma SomeSize(r: Record)
    ensures RecordSize(r) > 0
  {
  }

  /** A machine crash right behind the medium, when a committed record is not on it:
      the reopened stream, if there is one, ends before the history does. */
  lemma {:induction false} CommitIsLost(crc: Checksum, d: Disk, truth: Ledger, history: seq<Batch>, medium: nat, outcome: u64 -> Outcome)
    requires DiskInv(d, truth, history) && medium <= |d.log| && !CommittedKept(d, medium, truth, history)
    requires Reports(outcome, truth, MarkersOf(d.log[..medium]))
    ensures LoadableLog(d.header, d.log) && HistoryFits(d.header, history)
    ensures var cut := FileSize(d.header, d.log[..medium]);
            && cut <= FileSize(d.header, d.log)
            && var n := |LiveOf(PreparedOf(d.log[..medium]), truth)|;
               var reopened := OpenBytes(crc, FileBytes(crc, d.header, d.log)[..cut], outcome);
               && n < |Unreclaimed(d.header, history)|
               && (reopened.Ok? ==> reopened.value.stream.batches == Unreclaimed(d.header, history)[..n])
  {
    hide PreparedOf, MarkersOf, LiveOf, FileSize, LoadRecords, DiskInv, Reports, LoadFile, WholeRecords, LoadableLog,
         HistoryFits, Gather, TruthRecords, SortBySequence, EntriesOf, BatchesOf, BytesOf, Ordered, MarkersFollow,
         MarkersAgree, Agrees, Recoverable, MarksCommitted, CommittedKept, ChainError, ReservedSize;
    var cut := FileSize(d.header, d.log[..medium]);
    FactsForLoad(d, truth, history);
    CutAtRecord(d.header, d.log, medium);
    TornTailRecovery(crc, d.header, d.log, cut, outcome, true);
    PrefixFacts(d, truth, history, medium);
    LoadsTruth(d.log[..medium], Live(d, truth), truth, outcome);
    GatherLost(d, truth, history, medium);
    var n := |LiveOf(PreparedOf(d.log[..medium]), truth)|;
    HistoryOrdered(d, truth, history);
    OrderedPrefix(Unreclaimed(d.header, history), n);
    SortEntries(Unreclaimed(d.header, history)[..n]);
  }

  /** Whether the file can be lost no further than that: every machine crash that keeps
      the medium is recovered exactly, if and only if every committed batch is
      prepared on the medium. */
  lemma {:induction false} MachineCrashExactIff(crc: Checksum, d: Disk, truth: Ledger, history: seq<Batch>, medium: nat,
                                                outcome: u64 -> Outcome)
    requires DiskInv(d, truth, history) && medium <= |d.log| && Reports(outcome, truth, MarkersOf(d.log[..medium]))
    ensures LoadableLog(d.header, d.log) && HistoryFits(d.header, history)
    ensures (forall cut: nat | FileSize(d.header, d.log[..medium]) <= cut <= FileSize(d.header, d.log) ::
               RecoversHistory(crc, d, history, cut, outcome)) <==>
            CommittedKept(d, medium, truth, history)
  {
    hide PreparedOf, MarkersOf, LiveOf, FileSize, DiskInv, StreamInv, Reports, OpenBytes, FileBytes, LoadableLog,
         HistoryFits, CommittedKept, WholeRecords, Chain, CommittedOf;
    FactsForLoad(d, truth, history);
    if CommittedKept(d, medium, truth, history) {
      AtMedium(d, truth, history, medium);
      forall cut: nat | FileSize(d.header, d.log[..medium]) <= cut <= FileSize(d.header, d.log)
        ensures RecoversHistory(crc, d, history, cut, outcome)
      {
        CrashSafetyBytes(crc, d.(synced := medium), truth, history, outcome, cut);
      }
    } else {
      CommitIsLost(crc, d, truth, history, medium, outcome);
      assert !RecoversHistory(crc, d, history, FileSize(d.header, d.log[..medium]), outcome);
    }
  }

  /** Opening the first `cut` bytes gives back the whole unreclaimed history. */
  predicate RecoversHistory(crc: Checksum, d: Disk, history: seq<Batch>, cut: nat, outcome: u64 -> Outcome)
    requires LoadableLog(d.header, d.log) && HistoryFits(d.header, history) && cut <= FileSize(d.header, d.log)
  {
    var reopened := OpenBytes(crc, FileBytes(crc, d.header, d.log)[..cut], outcome);
    reopened.Ok? && reopened.value.stream.batches == Unreclaimed(d.header, history)
  }
}
