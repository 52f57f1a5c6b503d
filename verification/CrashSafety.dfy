/** Crash safety: whatever a machine crash leaves of the log after its synced
    records, an open rebuilds exactly the committed, unreclaimed batches. */
module CrashSafety {
  import opened Wrappers
  import opened Widths
  import opened ChangeTypes
  import opened Codec
  import opened LogFile
  import opened Loading
  import opened LogViews
  import opened StreamSpec
  import opened DiskInvariant
  import opened StreamInvariant
  import opened Recovery
  import opened RecoveryProof

  /** The disk an open leaves behind after a machine crash: the surviving records,
      which are on the medium because they were read from it, and the missing markers,
      which the open syncs.  Restarts are about records that were read back from
      elsewhere. */
  function Repaired(d: Disk, truth: Ledger, history: seq<Batch>): Disk
    requires DiskInv(d, truth, history)
    requires |MarkersOf(d.log)| <= |Unreclaimed(d.header, history)| <= |Live(d, truth)|
  {
    var log := d.log + RepairList(Live(d, truth), truth, |MarkersOf(d.log)|, |Unreclaimed(d.header, history)|);
    Disk(d.header, log, |log|)
  }

  lemma {:induction false} RepairedDisk(d: Disk, truth: Ledger, history: seq<Batch>)
    requires DiskInv(d, truth, history)
    ensures |MarkersOf(d.log)| <= |Unreclaimed(d.header, history)| <= |Live(d, truth)|
    ensures var d' := Repaired(d, truth, history);
            && DiskInv(d', truth, history) && Live(d', truth) == Live(d, truth) == SyncedLive(d', truth)
            && PreparedOf(d'.log) == PreparedOf(d.log)
            && |MarkersOf(d'.log)| == |MarkersOf(d'.log[..d'.synced])| == |Unreclaimed(d.header, history)|
            && FileSize(d.header, d'.log) == FileSize(d.header, d.log) + 32 * (|Unreclaimed(d.header, history)| - |MarkersOf(d.log)|)
  {
    hide ViewInv, WellFormedLog, PreparedOf, MarkersOf, LiveOf, FileSize;
    SequencesBounded(d, truth, history);
    var upTo := |Unreclaimed(d.header, history)|;
    DiskAfterRepairs(d, truth, history, upTo);
    var d1 := d.(log := d.log + RepairList(Live(d, truth), truth, |MarkersOf(d.log)|, upTo));
    DiskAfterSync(d1, truth, history, |d1.log|);
    assert d1.log[..|d1.log|] == d1.log;
  }

  lemma {:induction false} RebuiltPublished(d: Disk, truth: Ledger, history: seq<Batch>)
    requires DiskInv(d, truth, history)
    ensures LastSequence(PreparedOf(d.log)) < MAX_U64
    ensures |MarkersOf(d.log)| <= |Unreclaimed(d.header, history)| <= |Live(d, truth)|
    ensures var s := Rebuilt(d, truth, history);
            PublishedInv(s, truth, Unreclaimed(d.header, history)) && Checkpointed(s) == |s.batches|
  {
    hide PreparedOf, MarkersOf, LiveOf, FileSize, SizesOf, VersionsOf, UnresolvedMap, LastSequence, ViewInv,
         WellFormedLog;
    SequencesBounded(d, truth, history);
    HistoryReaches(d.header, history);
    var hist := Unreclaimed(d.header, history);
    assert hist[|hist|..] == [];
    HeaderOrder(d.header, history);
  }

  lemma HeaderOrder(h: Header, history: seq<Batch>)
    requires HistoryFits(h, history)
    ensures h.earliest <= h.current <= h.earliest + |Unreclaimed(h, history)|
  {
  }

  lemma {:induction false} RebuiltUnresolved(live: seq<Batch>, n: nat, durable: nat)
    requires Ordered(live) && n <= |live| && |live| <= durable
    ensures UnresolvedInv(UnresolvedMap(live[n..]), live[n..], durable - n)
  {
    hide UnresolvedMap, TxnsOf;
    UnresolvedMapInv(live[n..]);
    forall i | 0 <= i < |live[n..]| ensures UnresolvedAt(UnresolvedMap(live[n..]), live[n..][i], i < durable - n) {
      TxnsHas(live[n..], i);
    }
  }

  lemma {:induction false} LiveOfDiskOrdered(d: Disk, truth: Ledger, history: seq<Batch>)
    requires DiskInv(d, truth, history)
    ensures Ordered(Live(d, truth))
  {
    LiveOrdered(PreparedOf(d.log), truth);
  }

  /** The rebuilt stream and the repaired disk satisfy the protocol's invariant. */
  lemma {:induction false} RebuiltInv(d: Disk, truth: Ledger, history: seq<Batch>)
    requires DiskInv(d, truth, history)
    ensures LastSequence(PreparedOf(d.log)) < MAX_U64
    ensures |MarkersOf(d.log)| <= |Unreclaimed(d.header, history)| <= |Live(d, truth)|
    ensures StreamInv(Rebuilt(d, truth, history), Repaired(d, truth, history), truth, history)
  {
    hide PreparedOf, MarkersOf, LiveOf, FileSize, SizesOf, VersionsOf, UnresolvedMap, LastSequence, DiskInv,
         PublishedInv, UnresolvedInv, Ordered, RepairList, HistoryFits;
    LiveOfDiskOrdered(d, truth, history);
    SequencesBounded(d, truth, history);
    RepairedDisk(d, truth, history);
    RebuiltPublished(d, truth, history);
    RebuiltUnresolved(Live(d, truth), |Unreclaimed(d.header, history)|, |Live(d, truth)|);
  }

  /** Recovery after a machine crash that lost every record past `k`: the outcome
      function need only be right about transactions whose marker was not synced. */
  lemma {:induction false} RecoveryIsExact(d: Disk, truth: Ledger, history: seq<Batch>, outcome: u64 -> Outcome, k: nat)
    requires DiskInv(d, truth, history) && d.synced <= k <= |d.log|
    requires Reports(outcome, truth, MarkersOf(d.log[..d.synced]))
    ensures LoadRecords(d.log[..k], outcome).Ok?
    ensures var kept := Disk(d.header, d.log[..k], k);
            && DiskInv(kept, truth, history)
            && |MarkersOf(kept.log)| <= |Unreclaimed(d.header, history)| <= |Live(kept, truth)|
            && LastSequence(PreparedOf(kept.log)) < MAX_U64
            && Build(d.header, FileSize(d.header, kept.log), LoadRecords(d.log[..k], outcome).value) ==
               Ok(Built(Rebuilt(kept, truth, history), Repaired(kept, truth, history).log[k..]))
            && StreamInv(Rebuilt(kept, truth, history), Repaired(kept, truth, history), truth, history)
  {
    var kept := Disk(d.header, d.log[..k], k);
    ReportsMore(d.log, outcome, truth, d.synced, k);
    hide PreparedOf, MarkersOf, LiveOf, FileSize, LoadRecords, Build, Rebuilt, DiskInv, StreamInv, RepairList,
         TruthRecords, Reports, LastSequence;
    DiskAfterCut(d, truth, history, k);
    TruthShape(kept, truth, history, outcome);
    BuildDisk(kept, truth, history);
    RebuiltInv(kept, truth, history);
    var repairs := RepairList(Live(kept, truth), truth, |MarkersOf(kept.log)|, |Unreclaimed(d.header, history)|);
    assert (kept.log + repairs)[k..] == repairs;
  }

  /** Fewer synced markers ask for more truth. */
  lemma {:induction false} ReportsMore(log: seq<Record>, outcome: u64 -> Outcome, truth: Ledger, synced: nat, k: nat)
    requires synced <= k <= |log| && Reports(outcome, truth, MarkersOf(log[..synced]))
    ensures Reports(outcome, truth, MarkersOf(log[..k]))
  {
    assert log[..k][..synced] == log[..synced];
    ViewsPrefix(log[..k], synced);
    hide MarkersOf;
    forall t: u64 | !Marked(MarkersOf(log[..k]), t) ensures !Marked(MarkersOf(log[..synced]), t) {
      forall i | 0 <= i < |MarkersOf(log[..synced])| ensures MarkersOf(log[..synced])[i].txn != t {
        assert MarkersOf(log[..k])[i] == MarkersOf(log[..synced])[i];
      }
    }
  }

  /** Opening a file: load it leniently, then rebuild. */
  function OpenBytes(crc: Checksum, bytes: seq<byte>, outcome: u64 -> Outcome): Result<Built, StreamError> {
    var loaded :- LoadFile(crc, bytes, outcome, true);
    Build(loaded.0, loaded.1.fileBytes, loaded.1.records)
  }

  /** What the medium keeps when a crash cuts the file at byte `cut`. */
  function Kept(d: Disk, cut: nat): Disk
    requires HeaderSize(d.header) <= cut
  {
    var k := WholeRecords(d.header, d.log, cut);
    Disk(d.header, d.log[..k], k)
  }

  /** Opening the bytes a crash left rebuilds the stream of the kept records and
      appends exactly the missing markers. */
  lemma {:induction false} OpenIsExact(crc: Checksum, d: Disk, truth: Ledger, history: seq<Batch>,
                                       outcome: u64 -> Outcome, cut: nat)
    requires DiskInv(d, truth, history)
    requires FileSize(d.header, d.log[..d.synced]) <= cut <= FileSize(d.header, d.log)
    requires Reports(outcome, truth, MarkersOf(d.log[..d.synced]))
    ensures HeaderSize(d.header) <= cut && LoadableLog(d.header, d.log) && d.synced <= |Kept(d, cut).log|
    ensures var kept := Kept(d, cut);
            && DiskInv(kept, truth, history)
            && |MarkersOf(kept.log)| <= |Unreclaimed(d.header, history)| <= |Live(kept, truth)|
            && LastSequence(PreparedOf(kept.log)) < MAX_U64
            && OpenBytes(crc, FileBytes(crc, d.header, d.log)[..cut], outcome) ==
               Ok(Built(Rebuilt(kept, truth, history), Repaired(kept, truth, history).log[|kept.log|..]))
            && StreamInv(Rebuilt(kept, truth, history), Repaired(kept, truth, history), truth, history)
  {
    hide PreparedOf, MarkersOf, LiveOf, FileSize, LoadRecords, Build, DiskInv, StreamInv, RepairList, Reports,
         LoadFile, WholeRecords, LastSequence, Rebuilt, Repaired;
    FactsForLoad(d, truth, history);
    SizePositive(d.header, d.log[..d.synced]);
    SyncedKept(d.header, d.log, d.synced, cut);
    TornTailRecovery(crc, d.header, d.log, cut, outcome, true);
    RecoveryIsExact(d, truth, history, outcome, WholeRecords(d.header, d.log, cut));
  }

  /** Crash safety over bytes: for every disk that satisfies the invariant, every
      byte at which a crash may cut the file without losing a synced record, and
      every outcome function that is right about the transactions without a synced
      marker, opening what is left succeeds; its batches are exactly the committed,
      unreclaimed ones, gap-free from `earliest`, nothing is pending, and the
      protocol's invariant holds again. */
  lemma {:induction false} CrashSafetyBytes(crc: Checksum, d: Disk, truth: Ledger, history: seq<Batch>,
                                            outcome: u64 -> Outcome, cut: nat)
    requires DiskInv(d, truth, history)
    requires FileSize(d.header, d.log[..d.synced]) <= cut <= FileSize(d.header, d.log)
    requires Reports(outcome, truth, MarkersOf(d.log[..d.synced]))
    ensures HeaderSize(d.header) <= cut && LoadableLog(d.header, d.log)
    ensures var reopened := OpenBytes(crc, FileBytes(crc, d.header, d.log)[..cut], outcome);
            && reopened.Ok?
            && reopened.value.stream.batches == Unreclaimed(d.header, history) == CommittedOf(PreparedOf(d.log), truth)
            && Chain(reopened.value.stream.batches, d.header.earliest)
            && reopened.value.stream.pending == map[]
            && var log := d.log[..WholeRecords(d.header, d.log, cut)] + reopened.value.repairs;
               StreamInv(reopened.value.stream, Disk(d.header, log, |log|), truth, history)
  {
    hide PreparedOf, MarkersOf, LiveOf, FileSize, DiskInv, StreamInv, RepairList, Reports, WholeRecords,
         LastSequence, Chain, OpenBytes, CommittedOf, HistoryFits, Agrees, SizesOf, VersionsOf, UnresolvedMap,
         EffectiveCurrent;
    OpenIsExact(crc, d, truth, history, outcome, cut);
    CommittedInLog(d, truth, history);
    HistoryChain(d.header, history);
    var kept := Kept(d, cut);
    var rep := Repaired(kept, truth, history);
    assert kept.log + rep.log[|kept.log|..] == rep.log by { assert rep.log[..|kept.log|] == kept.log; }
  }

  /** The unreclaimed history is what the ledger committed among the prepared records. */
  lemma {:induction false} CommittedInLog(d: Disk, truth: Ledger, history: seq<Batch>)
    requires DiskInv(d, truth, history)
    ensures HistoryFits(d.header, history) && Unreclaimed(d.header, history) == CommittedOf(PreparedOf(d.log), truth)
  {
    hide PreparedOf, MarkersOf, LiveOf, Agrees, CommittedOf;
    SplitCommitted(d.header.kind, PreparedOf(d.log), truth, Unreclaimed(d.header, history));
  }

  lemma SizePositive(h: Header, log: seq<Record>)
    ensures FileSize(h, log) >= HeaderSize(h)
  {
  }

  lemma FactsForLoad(d: Disk, truth: Ledger, history: seq<Batch>)
    requires DiskInv(d, truth, history)
    ensures ValidHeader(d.header) && d.header.active && LoadableLog(d.header, d.log) && d.synced <= |d.log|
    ensures HistoryFits(d.header, history)
  {
  }

  lemma {:induction false} SyncedKept(h: Header, log: seq<Record>, k0: nat, cut: nat)
    requires k0 <= |log| && HeaderSize(h) <= FileSize(h, log[..k0]) <= cut
    ensures k0 <= WholeRecords(h, log, cut)
  {
    var k := WholeRecords(h, log, cut);
    if k < k0 {
      FileSizeMonotone(h, log, k + 1, k0);
    }
  }
}
