/** Opening twice, and opening around a GC. */
module Reopening {
  import opened Wrappers
  import opened Widths
  import opened ChangeTypes
  import opened Codec
  import opened LogFile
  import opened Loading
  import opened LogViews
  import opened StreamSpec
  import opened DiskInvariant
  import opened StreamInvariant
  import opened Recovery
  import opened RecoveryProof
  import opened CrashSafety
  import opened ProtocolSteps
  import opened ProtocolGc
  import opened Replay

  // ---------------------------------------------------------------------------
  // Recovery is a fixed point
  // ---------------------------------------------------------------------------

  /** Opening a file whose every record is synced and whose every committed batch
      is marked writes nothing. */
  lemma {:induction false} OpenComplete(crc: Checksum, d: Disk, truth: Ledger, history: seq<Batch>,
                                        outcome: u64 -> Outcome)
    requires DiskInv(d, truth, history) && d.synced == |d.log| && Reports(outcome, truth, MarkersOf(d.log))
    requires |MarkersOf(d.log)| == |Unreclaimed(d.header, history)|
    ensures |Unreclaimed(d.header, history)| <= |Live(d, truth)| && LastSequence(PreparedOf(d.log)) < MAX_U64
    ensures LoadableLog(d.header, d.log)
    ensures OpenBytes(crc, FileBytes(crc, d.header, d.log), outcome) == Ok(Built(Rebuilt(d, truth, history), []))
  {
    hide PreparedOf, MarkersOf, LiveOf, DiskInv, StreamInv, Reports, LastSequence, OpenBytes, FileBytes, HistoryFits,
         Rebuilt, LogSize;
    assert d.log[..d.synced] == d.log;
    var size := FileSize(d.header, d.log);
    OpenIsExact(crc, d, truth, history, outcome, size);
    AllKept(d);
    var bytes := FileBytes(crc, d.header, d.log);
    assert bytes[..size] == bytes;
    assert d.log + [] == d.log;
    assert Repaired(d, truth, history).log[|d.log|..] == [];
  }

  lemma {:induction false} AllKept(d: Disk)
    requires d.synced == |d.log|
    ensures HeaderSize(d.header) <= FileSize(d.header, d.log)
    ensures Kept(d, FileSize(d.header, d.log)) == d
  {
    hide FileSize;
    SizePositive(d.header, d.log);
    var k := WholeRecords(d.header, d.log, FileSize(d.header, d.log));
    assert d.log[..|d.log|] == d.log;
    if k < |d.log| { FileSizeMonotone(d.header, d.log, k + 1, |d.log|); }
  }

  /** Repairing changes nothing that a rebuild looks at. */
  lemma {:induction false} RebuiltAfterRepair(d: Disk, truth: Ledger, history: seq<Batch>)
    requires DiskInv(d, truth, history)
    ensures |MarkersOf(d.log)| <= |Unreclaimed(d.header, history)| <= |Live(d, truth)| && LastSequence(PreparedOf(d.log)) < MAX_U64
    ensures var d' := Repaired(d, truth, history);
            && DiskInv(d', truth, history) && d'.synced == |d'.log|
            && |MarkersOf(d'.log)| == |Unreclaimed(d.header, history)| <= |Live(d', truth)|
            && LastSequence(PreparedOf(d'.log)) < MAX_U64
            && Rebuilt(d', truth, history) == Rebuilt(d, truth, history)
  {
    hide PreparedOf, MarkersOf, LiveOf, DiskInv, LastSequence, RepairList, FileSize, SizesOf, VersionsOf,
         UnresolvedMap, EffectiveCurrent, HistoryFits;
    SequencesBounded(d, truth, history);
    RepairedDisk(d, truth, history);
  }

  /** Recovery is a fixed point: after any crash and any recovery, every committed
      batch is marked in the file, and opening the recovered file again, under any
      outcome function that is right about the still unmarked transactions, writes
      nothing and rebuilds the identical stream. */
  lemma {:induction false} RecoveryIsFixedPoint(crc: Checksum, d: Disk, truth: Ledger, history: seq<Batch>,
                                                outcome: u64 -> Outcome, cut: nat,
                             again: u64 -> Outcome)
    requires DiskInv(d, truth, history)
    requires FileSize(d.header, d.log[..d.synced]) <= cut <= FileSize(d.header, d.log)
    requires Reports(outcome, truth, MarkersOf(d.log[..d.synced]))
    ensures HeaderSize(d.header) <= cut && LoadableLog(d.header, d.log)
    ensures var opening := OpenBytes(crc, FileBytes(crc, d.header, d.log)[..cut], outcome);
            && opening.Ok?
            && var log := Kept(d, cut).log + opening.value.repairs;
               && |MarkersOf(log)| == |opening.value.stream.batches| && LoadableLog(d.header, log)
               && (Reports(again, truth, MarkersOf(log)) ==>
                     OpenBytes(crc, FileBytes(crc, d.header, log), again) == Ok(Built(opening.value.stream, [])))
  {
    hide PreparedOf, MarkersOf, LiveOf, DiskInv, StreamInv, Reports, LastSequence, OpenBytes, FileBytes, HistoryFits,
         FileSize, WholeRecords, LoadableLog, SizesOf, VersionsOf, UnresolvedMap, EffectiveCurrent, RepairList;
    OpenIsExact(crc, d, truth, history, outcome, cut);
    var kept := Kept(d, cut);
    RebuiltAfterRepair(kept, truth, history);
    var d' := Repaired(kept, truth, history);
    assert kept.log + d'.log[|kept.log|..] == d'.log by { assert d'.log[..|kept.log|] == kept.log; }
    FactsForLoad(d', truth, history);
    if Reports(again, truth, MarkersOf(d'.log)) { OpenComplete(crc, d', truth, history, again); }
  }

  /** The sizes a recovery rebuilds are the ones the live stream carried. */
  lemma {:induction false} RecoveredSizesMatch(crc: Checksum, s: Stream, d: Disk, truth: Ledger, history: seq<Batch>,
                                               outcome: u64 -> Outcome, cut: nat)
    requires StreamInv(s, d, truth, history)
    requires FileSize(d.header, d.log[..d.synced]) <= cut <= FileSize(d.header, d.log)
    requires Reports(outcome, truth, MarkersOf(d.log[..d.synced]))
    ensures HeaderSize(d.header) <= cut && LoadableLog(d.header, d.log)
    ensures var opening := OpenBytes(crc, FileBytes(crc, d.header, d.log)[..cut], outcome);
            opening.Ok? && s.batches <= opening.value.stream.batches && s.batchFileBytes <= opening.value.stream.batchFileBytes
  {
    hide PreparedOf, MarkersOf, LiveOf, DiskInv, Reports, LastSequence, OpenBytes, FileBytes, FileSize, WholeRecords,
         LoadableLog, UnresolvedInv, VersionsOf, UnresolvedMap, EffectiveCurrent, RepairList, PendingOf;
    OpenIsExact(crc, d, truth, history, outcome, cut);
    StreamFacts(s, d, truth, history);
  }

  // ---------------------------------------------------------------------------
  // GC and crashes
  // ---------------------------------------------------------------------------

  lemma {:induction false} GcComplete(s: Stream, d: Disk, truth: Ledger, history: seq<Batch>, frontier: u64)
    requires StreamInv(s, d, truth, history) && GcReady(s, frontier)
    ensures GcLog(s, frontier).Ok?
    ensures var d' := GcDisk(s, frontier);
            && DiskInv(d', truth, history) && d'.synced == |d'.log|
            && |MarkersOf(d'.log)| == |Unreclaimed(d'.header, history)| == |Live(d', truth)|
            && LastSequence(PreparedOf(d'.log)) < s.nextSequence
            && Unreclaimed(d'.header, history) == s.batches[Reclaimable(s.batches, frontier)..]
  {
    hide PreparedOf, MarkersOf, LiveOf, DiskInv, StreamInv, GcReady, GcLog, Reclaimable;
    GcDiskInv(s, d, truth, history, frontier);
    GcHeaderFits(s, d, truth, history, frontier);
    BatchSequences(s, d, truth, history);
    FirstSequence(s, d, truth, history);
    var k := Reclaimable(s.batches, frontier);
    assert forall i :: 0 <= i < |s.batches[k..]| ==> s.batches[k..][i] == s.batches[k + i];
  }

  lemma {:induction false} FirstSequence(s: Stream, d: Disk, truth: Ledger, history: seq<Batch>)
    requires StreamInv(s, d, truth, history)
    ensures 0 < s.nextSequence
  {
    hide PreparedOf, MarkersOf, LiveOf, UnresolvedInv, PublishedInv;
  }

  /** Opening the file GC wrote gives back the stream GC left in memory, exactly. */
  lemma {:induction false} GcReopensAsItself(crc: Checksum, s: Stream, d: Disk, truth: Ledger, history: seq<Batch>,
                                             frontier: u64, outcome: u64 -> Outcome)
    requires StreamInv(s, d, truth, history) && GcReady(s, frontier)
    requires GcLog(s, frontier).Ok? && Reports(outcome, truth, MarkersOf(GcLog(s, frontier).value))
    ensures LoadableLog(GcHeader(s, frontier), GcLog(s, frontier).value)
    ensures OpenBytes(crc, FileBytes(crc, GcHeader(s, frontier), GcLog(s, frontier).value), outcome) ==
            Ok(Built(AfterGc(s, frontier, GcLog(s, frontier).value), []))
  {
    hide PreparedOf, MarkersOf, LiveOf, DiskInv, StreamInv, GcReady, GcLog, Reclaimable, Reports, LastSequence,
         OpenBytes, FileBytes, LoadableLog, UnresolvedMap, HistoryFits, LogSize, SizesOf, VersionsOf;
    GcComplete(s, d, truth, history, frontier);
    var d', log := GcDisk(s, frontier), GcLog(s, frontier).value;
    OpenComplete(crc, d', truth, history, outcome);
    GcKeeps(s, d, truth, history, frontier);
    GcStream(s, d, truth, history, frontier);
    var r := Rebuilt(d', truth, history);
    assert Live(d', truth)[|Live(d', truth)|..] == [];
    NothingRebuilt();
  }

  lemma NothingRebuilt()
    ensures UnresolvedMap([]) == map[]
  {
  }

  /** The stream GC leaves, in terms of the history. */
  lemma {:induction false} GcStream(s: Stream, d: Disk, truth: Ledger, history: seq<Batch>, frontier: u64)
    requires StreamInv(s, d, truth, history) && GcReady(s, frontier) && GcLog(s, frontier).Ok?
    ensures HistoryFits(GcHeader(s, frontier), history)
    ensures var s', hist := AfterGc(s, frontier, GcLog(s, frontier).value), Unreclaimed(GcHeader(s, frontier), history);
            && s'.batches == hist && s'.batchFileBytes == SizesOf(hist) && s'.finalizeVersions == VersionsOf(hist, truth)
            && s'.unresolved == map[] && s'.pending == map[] && s'.checkpointed == EffectiveCurrent(s'.header, hist)
  {
    hide PreparedOf, MarkersOf, LiveOf, DiskInv, StreamInv, GcRangeError, GcLog, Reclaimable, HistoryFits, SizesOf,
         VersionsOf, PendingOf;
    GcPublished(s, d, truth, history, frontier, GcLog(s, frontier).value);
    GcHeaderFits(s, d, truth, history, frontier);
  }

  /** GC is crash-atomic: a crash before its rename reopens the complete old
      history and a crash after it the complete new one.  Neither is refused, both
      end at the same frontier, and every read from the GC frontier on is the same. */
  lemma {:induction false} GcIsCrashAtomic(crc: Checksum, s: Stream, d: Disk, truth: Ledger, history: seq<Batch>,
                                           frontier: u64,
                        outcome: u64 -> Outcome, cut: nat, c: Cursor, maxBatches: nat, maxBytes: u64)
    requires StreamInv(s, d, truth, history) && GcReady(s, frontier) && frontier <= c.frontier
    requires GcLog(s, frontier).Ok? && Reports(outcome, truth, MarkersOf(GcLog(s, frontier).value))
    requires FileSize(d.header, d.log[..d.synced]) <= cut <= FileSize(d.header, d.log)
    requires Reports(outcome, truth, MarkersOf(d.log[..d.synced]))
    ensures HeaderSize(d.header) <= cut && LoadableLog(d.header, d.log)
    ensures LoadableLog(GcHeader(s, frontier), GcLog(s, frontier).value)
    ensures var before := OpenBytes(crc, FileBytes(crc, d.header, d.log)[..cut], outcome);
            var after := OpenBytes(crc, FileBytes(crc, GcHeader(s, frontier), GcLog(s, frontier).value), outcome);
            && before.Ok? && after.Ok? && Readable(before.value.stream) && Readable(after.value.stream)
            && before.value.stream.batches == s.batches && after.value.stream.batches == s.batches[Reclaimable(s.batches, frontier)..]
            && Current(before.value.stream) == Current(after.value.stream) == Current(s)
            && Read(before.value.stream, c, maxBatches, maxBytes) == Read(after.value.stream, c, maxBatches, maxBytes)
  {
    hide PreparedOf, MarkersOf, LiveOf, DiskInv, StreamInv, GcRangeError, GcLog, Reclaimable, Reports, OpenBytes,
         FileBytes, LoadableLog, HistoryFits, LogSize, FileSize, SizesOf, VersionsOf, WholeRecords, RepairList,
         LastSequence, UnresolvedMap, Read, Readable;
    SameHeader(s, d, truth, history);
    GcReopensAsItself(crc, s, d, truth, history, frontier, outcome);
    OpenIsExact(crc, d, truth, history, outcome, cut);
    var old_, new_ := Rebuilt(Kept(d, cut), truth, history), AfterGc(s, frontier, GcLog(s, frontier).value);
    ReachableIsReadable(s, d, truth, history);
    ReachableIsReadable(old_, Repaired(Kept(d, cut), truth, history), truth, history);
    GcTrims(s, d, truth, history, frontier);
    OldIsSame(s, d, truth, history);
    TrimmedReadsSame(s, new_, frontier - s.header.earliest, c, maxBatches, maxBytes);
    ReadsSame(s, old_, c, maxBatches, maxBytes);
  }

  lemma {:induction false} OldIsSame(s: Stream, d: Disk, truth: Ledger, history: seq<Batch>)
    requires StreamInv(s, d, truth, history) && s.unresolved == map[] && s.pending == map[]
    ensures HistoryFits(d.header, history) && s.header == d.header
    ensures s.batches == Unreclaimed(d.header, history) && s.batchFileBytes == SizesOf(Unreclaimed(d.header, history))
  {
    hide PreparedOf, MarkersOf, LiveOf, DiskInv, UnresolvedInv, PendingOf, VersionsOf, SizesOf;
    NothingLeft(s, d, truth, history);
  }

  /** Reading looks at nothing but the header and the batches with their sizes. */
  lemma ReadsSame(s: Stream, s': Stream, c: Cursor, maxBatches: nat, maxBytes: u64)
    requires Readable(s) && s'.header == s.header && s'.batches == s.batches && s'.batchFileBytes == s.batchFileBytes
    ensures Readable(s') && Read(s', c, maxBatches, maxBytes) == Read(s, c, maxBatches, maxBytes)
  {
  }
}
