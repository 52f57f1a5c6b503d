/** Reading: what a cursor gets, that bounded reads lose nothing, and that
    reclaiming history does not show to a reader past the reclaimed part. */
module Replay {
  import opened Wrappers
  import opened Widths
  import opened ChangeTypes
  import opened Codec
  import opened LogFile
  import opened Loading
  import opened LogViews
  import opened StreamSpec
  import opened DiskInvariant
  import opened StreamInvariant
  import opened ProtocolSteps
  import opened ProtocolGc

  /** A stream whose batches form a chain from its earliest frontier to its current one. */
  predicate Readable(s: Stream) {
    && |s.batches| == |s.batchFileBytes|
    && Chain(s.batches, s.header.earliest)
    && Current(s) == s.header.earliest + |s.batches|
  }

  lemma {:induction false} ReachableIsReadable(s: Stream, d: Disk, truth: Ledger, history: seq<Batch>)
    requires StreamInv(s, d, truth, history)
    ensures Readable(s)
  {
    hide PreparedOf, MarkersOf, LiveOf, DiskInv, UnresolvedInv, PendingOf, VersionsOf;
    StreamFacts(s, d, truth, history);
  }

  predicate InRange(s: Stream, c: Cursor) {
    && c.storageId == s.header.storageId && c.generation == s.header.generation
    && s.header.earliest <= c.frontier <= Current(s)
  }

  // ---------------------------------------------------------------------------
  // One read
  // ---------------------------------------------------------------------------

  /** The change bytes of `n` batches from `k` on. */
  function Bytes(sizes: seq<BatchFileBytes>, k: nat, n: nat): nat
    requires k + n <= |sizes|
    decreases n
  {
    if n == 0 then 0 else sizes[k].changeBytes + Bytes(sizes, k + 1, n - 1)
  }

  /** `n` batches from `k` on are the most that two limits allow. */
  predicate Longest(sizes: seq<BatchFileBytes>, k: nat, n: nat, maxBatches: nat, maxBytes: int)
    requires k + n <= |sizes|
  {
    && n <= maxBatches && (n > 0 ==> Bytes(sizes, k, n) <= maxBytes)
    && (k + n < |sizes| ==> n == maxBatches || Bytes(sizes, k, n + 1) > maxBytes)
  }

  lemma {:induction false} BytesMonotone(sizes: seq<BatchFileBytes>, k: nat, n: nat, m: nat)
    requires n <= m && k + m <= |sizes|
    ensures Bytes(sizes, k, n) <= Bytes(sizes, k, m)
    decreases m
  {
    if n > 0 { BytesMonotone(sizes, k + 1, n - 1, m - 1); }
  }

  /** At most one count is the longest. */
  lemma {:induction false} LongestIsUnique(sizes: seq<BatchFileBytes>, k: nat, n: nat, m: nat, maxBatches: nat,
                                           maxBytes: int)
    requires k + n <= |sizes| && k + m <= |sizes|
    requires Longest(sizes, k, n, maxBatches, maxBytes) && Longest(sizes, k, m, maxBatches, maxBytes)
    ensures n == m
  {
    if n < m { BytesMonotone(sizes, k, n + 1, m); }
    if m < n { BytesMonotone(sizes, k, m + 1, n); }
  }

  lemma {:induction false} SelectLongest(bs: seq<Batch>, sizes: seq<BatchFileBytes>, from: int, k: nat,
                                         expected: u64, left: nat, room: int)
    returns (n: nat)
    requires |bs| == |sizes| && k <= |bs| && Chain(bs, from) && expected == from + k
    ensures k + n <= |bs| && Longest(sizes, k, n, left, room)
    ensures SelectFrom(bs, sizes, k, expected, left, room) == Ok(bs[k..k + n])
    decreases |bs| - k
  {
    if k == |bs| || left == 0 || sizes[k].changeBytes > room {
      n := 0;
      assert bs[k..k] == [];
      assert k < |bs| ==> bs[k].before == expected && Bytes(sizes, k, 1) == sizes[k].changeBytes + Bytes(sizes, k + 1, 0);
    } else {
      var m := SelectLongest(bs, sizes, from, k + 1, bs[k].after, left - 1, room - sizes[k].changeBytes);
      n := m + 1;
      assert bs[k..k + n] == [bs[k]] + bs[k + 1..k + 1 + m];
      if k + n < |sizes| {
        assert Bytes(sizes, k, n + 1) == sizes[k].changeBytes + Bytes(sizes, k + 1, m + 1);
      }
      assert Bytes(sizes, k, n) == sizes[k].changeBytes + Bytes(sizes, k + 1, m);
    }
  }

  lemma {:induction false} StartIs(bs: seq<Batch>, from: int, frontier: u64)
    requires Chain(bs, from) && from <= frontier < from + |bs|
    ensures StartAt(bs, frontier) == Some(frontier - from)
  {
    hide StartAt;
    assert bs[frontier - from].before == frontier;
    var p := StartAt(bs, frontier);
    assert p.Some?;
    assert bs[p.value].before == from + p.value;
  }

  /** A cursor of the live incarnation inside the history always reads: the
      longest run of batches from its frontier that the two limits allow, with
      no history missing and no gap. */
  lemma {:induction false} ReadIsLongest(s: Stream, c: Cursor, maxBatches: nat, maxBytes: u64) returns (n: nat)
    requires Readable(s) && InRange(s, c)
    ensures var k := c.frontier - s.header.earliest;
            && k + n <= |s.batches| && Longest(s.batchFileBytes, k, n, maxBatches, maxBytes)
            && Read(s, c, maxBatches, maxBytes) == Ok(ReadResult(s.batches[k..k + n], Current(s), k + n < |s.batches|))
  {
    hide StartAt, SelectFrom, Bytes;
    var k := c.frontier - s.header.earliest;
    if c.frontier == Current(s) {
      n := 0;
      assert s.batches[k..k] == [];
    } else {
      StartIs(s.batches, s.header.earliest, c.frontier);
      n := SelectLongest(s.batches, s.batchFileBytes, s.header.earliest, k, c.frontier, maxBatches, maxBytes);
      assert n > 0 ==> s.batches[k..k + n][n - 1] == s.batches[k + n - 1];
    }
  }

  /** Read succeeds exactly for cursors of the live incarnation inside the history. */
  lemma {:induction false} ReadAccepts(s: Stream, c: Cursor, maxBatches: nat, maxBytes: u64)
    requires Readable(s)
    ensures Read(s, c, maxBatches, maxBytes).Ok? <==> InRange(s, c)
  {
    if InRange(s, c) { var _ := ReadIsLongest(s, c, maxBatches, maxBytes); }
  }

  // ---------------------------------------------------------------------------
  // Bounded replay
  // ---------------------------------------------------------------------------

  /** Every batch fits a read on its own. */
  predicate EachFits(s: Stream, maxBytes: u64) {
    forall i :: 0 <= i < |s.batchFileBytes| ==> s.batchFileBytes[i].changeBytes <= maxBytes
  }

  function Reached(c: Cursor, r: ReadResult): Cursor {
    if r.batches == [] then c else c.(frontier := r.batches[|r.batches| - 1].after)
  }

  lemma {:induction false} ReadMoves(s: Stream, c: Cursor, maxBatches: nat, maxBytes: u64)
    requires Readable(s) && InRange(s, c) && maxBatches > 0 && EachFits(s, maxBytes)
    ensures var r := Read(s, c, maxBatches, maxBytes);
            && r.Ok? && InRange(s, Reached(c, r.value))
            && Reached(c, r.value).frontier == c.frontier + |r.value.batches|
            && (r.value.hasMore ==> c.frontier < Reached(c, r.value).frontier < Current(s))
  {
    var n := ReadIsLongest(s, c, maxBatches, maxBytes);
    var k := c.frontier - s.header.earliest;
    if n > 0 {
      assert s.batches[k..k + n][n - 1] == s.batches[k + n - 1];
    }
    assert k < |s.batches| ==> Bytes(s.batchFileBytes, k, 1) == s.batchFileBytes[k].changeBytes + Bytes(s.batchFileBytes, k + 1, 0);
  }

  /** Reading on from where the last read stopped, until nothing more is reported. */
  function ReplayAll(s: Stream, c: Cursor, maxBatches: nat, maxBytes: u64): seq<Batch>
    requires Readable(s) && InRange(s, c) && maxBatches > 0 && EachFits(s, maxBytes)
    decreases Current(s) - c.frontier
  {
    ReadMoves(s, c, maxBatches, maxBytes);
    var r := Read(s, c, maxBatches, maxBytes).value;
    if r.hasMore then r.batches + ReplayAll(s, Reached(c, r), maxBatches, maxBytes) else r.batches
  }

  /** Bounded replay is complete: the pieces make up the whole retained history
      from the cursor on. */
  lemma {:induction false} ReplayIsComplete(s: Stream, c: Cursor, maxBatches: nat, maxBytes: u64)
    requires Readable(s) && InRange(s, c) && maxBatches > 0 && EachFits(s, maxBytes)
    ensures ReplayAll(s, c, maxBatches, maxBytes) == s.batches[c.frontier - s.header.earliest..]
    decreases Current(s) - c.frontier
  {
    hide Longest, Read, EachFits, Chain;
    var n := ReadIsLongest(s, c, maxBatches, maxBytes);
    ReadMoves(s, c, maxBatches, maxBytes);
    var r := Read(s, c, maxBatches, maxBytes).value;
    var k := c.frontier - s.header.earliest;
    if r.hasMore {
      ReplayIsComplete(s, Reached(c, r), maxBatches, maxBytes);
      assert s.batches[k..] == s.batches[k..k + n] + s.batches[k + n..];
    }
  }

  /** One read without effective limits returns the same. */
  lemma {:induction false} UnboundedRead(s: Stream, c: Cursor, maxBatches: nat, maxBytes: u64)
    requires Readable(s) && InRange(s, c)
    requires |s.batches| <= maxBatches && Bytes(s.batchFileBytes, 0, |s.batchFileBytes|) <= maxBytes
    ensures Read(s, c, maxBatches, maxBytes) ==
            Ok(ReadResult(s.batches[c.frontier - s.header.earliest..], Current(s), false))
  {
    var n := ReadIsLongest(s, c, maxBatches, maxBytes);
    var k := c.frontier - s.header.earliest;
    if k + n < |s.batches| {
      BytesMonotone(s.batchFileBytes, k, n + 1, |s.batches| - k);
      BytesSuffix(s.batchFileBytes, 0, k);
    }
    assert s.batches[k..|s.batches|] == s.batches[k..];
  }

  lemma {:induction false} BytesSuffix(sizes: seq<BatchFileBytes>, i: nat, k: nat)
    requires i <= k <= |sizes|
    ensures Bytes(sizes, k, |sizes| - k) <= Bytes(sizes, i, |sizes| - i)
    decreases k - i
  {
    if i < k { BytesSuffix(sizes, i + 1, k); }
  }

  // ---------------------------------------------------------------------------
  // Two streams that agree past a frontier
  // ---------------------------------------------------------------------------

  /** `s'` is `s` without its first `k` batches. */
  predicate Trimmed(s: Stream, s': Stream, k: nat) {
    && k <= |s.batches| == |s.batchFileBytes|
    && s'.header.storageId == s.header.storageId && s'.header.generation == s.header.generation
    && s'.header.earliest == s.header.earliest + k
    && s'.batches == s.batches[k..] && s'.batchFileBytes == s.batchFileBytes[k..]
    && Current(s') == Current(s)
  }

  lemma {:induction false} SelectTrimmed(bs: seq<Batch>, sizes: seq<BatchFileBytes>, k: nat, i: nat, expected: u64,
                                         left: nat, room: int)
    requires |bs| == |sizes| && k <= i <= |bs|
    ensures SelectFrom(bs[k..], sizes[k..], i - k, expected, left, room) == SelectFrom(bs, sizes, i, expected, left, room)
    decreases |bs| - i
  {
    if i < |bs| && bs[i].before == expected && left > 0 && sizes[i].changeBytes <= room {
      SelectTrimmed(bs, sizes, k, i + 1, bs[i].after, left - 1, room - sizes[i].changeBytes);
    }
  }

  /** A reader at or past the trimmed part cannot tell the two apart, whatever
      cursor and limits it uses. */
  lemma {:induction false} TrimmedReadsSame(s: Stream, s': Stream, k: nat, c: Cursor, maxBatches: nat, maxBytes: u64)
    requires Readable(s) && Trimmed(s, s', k) && s'.header.earliest <= c.frontier
    ensures Readable(s') && Read(s', c, maxBatches, maxBytes) == Read(s, c, maxBatches, maxBytes)
  {
    hide StartAt, SelectFrom;
    assert Chain(s'.batches, s'.header.earliest);
    if InRange(s, c) && c.frontier < Current(s) {
      var i := c.frontier - s.header.earliest;
      StartIs(s.batches, s.header.earliest, c.frontier);
      StartIs(s'.batches, s'.header.earliest, c.frontier);
      SelectTrimmed(s.batches, s.batchFileBytes, k, i, c.frontier, maxBatches, maxBytes);
    }
  }

  // ---------------------------------------------------------------------------
  // GC does not show
  // ---------------------------------------------------------------------------

  /** After a GC every read from its frontier on returns the identical result;
      the committed frontier and the next sequence stay. */
  lemma {:induction false} GcIsTransparent(s: Stream, d: Disk, truth: Ledger, history: seq<Batch>, frontier: u64,
                        c: Cursor, maxBatches: nat, maxBytes: u64)
    requires StreamInv(s, d, truth, history) && GcReady(s, frontier) && frontier <= c.frontier
    ensures |s.batches| == |s.batchFileBytes| && GcLog(s, frontier).Ok?
    ensures var s' := AfterGc(s, frontier, GcLog(s, frontier).value);
            && Readable(s')
            && Read(s', c, maxBatches, maxBytes) == Read(s, c, maxBatches, maxBytes)
            && Current(s') == Current(s) && s'.nextSequence == s.nextSequence && s'.header.earliest == frontier
  {
    hide StreamInv, GcReady, GcLog, Read, AfterGc, Chain, Current;
    ReachableIsReadable(s, d, truth, history);
    GcTrims(s, d, truth, history, frontier);
    GcCounters(s, frontier, GcLog(s, frontier).value);
    TrimmedReadsSame(s, AfterGc(s, frontier, GcLog(s, frontier).value), frontier - s.header.earliest, c, maxBatches, maxBytes);
  }

  lemma GcCounters(s: Stream, frontier: u64, log: seq<Record>)
    ensures AfterGc(s, frontier, log).nextSequence == s.nextSequence && AfterGc(s, frontier, log).header.earliest == frontier
  {
  }

  lemma {:induction false} GcTrims(s: Stream, d: Disk, truth: Ledger, history: seq<Batch>, frontier: u64)
    requires StreamInv(s, d, truth, history) && GcReady(s, frontier)
    ensures s.header.earliest <= frontier && GcLog(s, frontier).Ok?
    ensures Trimmed(s, AfterGc(s, frontier, GcLog(s, frontier).value), frontier - s.header.earliest)
  {
    hide StreamInv, GcReady, GcLog, Reclaimable, PreparedOf, MarkersOf, LiveOf;
    ReachableIsReadable(s, d, truth, history);
    SameHeader(s, d, truth, history);
    GcRewrites(s, d, truth, history, frontier);
    GcHeaderFits(s, d, truth, history, frontier);
  }

  // ---------------------------------------------------------------------------
  // Exact sizes
  // ---------------------------------------------------------------------------

  /** The retained file bytes of `n` batches from `k` on. */
  function Retained(sizes: seq<BatchFileBytes>): nat {
    if sizes == [] then 0 else Retained(sizes[..|sizes| - 1]) + sizes[|sizes| - 1].retainedFileBytes
  }

  lemma {:induction false} RetainedIsReserved(bs: seq<Batch>)
    ensures Retained(SizesOf(bs)) == ReservedSize(bs)
  {
    if bs != [] {
      var n := |bs| - 1;
      RetainedIsReserved(bs[..n]);
      assert SizesOf(bs)[..n] == SizesOf(bs[..n]);
    }
  }

  /** GC writes exactly the version-2 header and the retained bytes of the
      batches it keeps, as the size metadata said before. */
  lemma {:induction false} GcSizeIsExact(s: Stream, d: Disk, truth: Ledger, history: seq<Batch>, frontier: u64)
    requires StreamInv(s, d, truth, history) && GcReady(s, frontier)
    ensures GcLog(s, frontier).Ok? && Reclaimable(s.batches, frontier) <= |s.batchFileBytes|
    ensures var s' := AfterGc(s, frontier, GcLog(s, frontier).value);
            s'.fileBytes == V2_HEADER_SIZE + Retained(s.batchFileBytes[Reclaimable(s.batches, frontier)..])
  {
    hide PreparedOf, MarkersOf, LiveOf, DiskInv, UnresolvedInv, GcRangeError, RetainedLog, Reclaimable, Retained,
         ReservedSize, SizesOf, LogSize, MarkersMatch, MarkersFollow, LoadableLog, PendingOf, VersionsOf;
    GcRewrites(s, d, truth, history, frontier);
    var k := Reclaimable(s.batches, frontier);
    SizesSuffix(s.batches, k);
    RetainedIsReserved(s.batches[k..]);
  }

  lemma {:induction false} BytesLast(sizes: seq<BatchFileBytes>, k: nat, n: nat)
    requires k + n < |sizes|
    ensures Bytes(sizes, k, n + 1) == Bytes(sizes, k, n) + sizes[k + n].changeBytes
    decreases n
  {
    if n > 0 { BytesLast(sizes, k + 1, n - 1); }
  }

  lemma {:induction false} BytesBelowReserved(bs: seq<Batch>, n: nat)
    requires n <= |bs|
    ensures Bytes(SizesOf(bs), 0, n) <= ReservedSize(bs[..n])
  {
    hide RecordSize;
    if n > 0 {
      BytesBelowReserved(bs, n - 1);
      BytesLast(SizesOf(bs), 0, n - 1);
      assert bs[..n][..n - 1] == bs[..n - 1];
    }
  }

  /** In every reachable state one read with the largest limits returns everything
      from the cursor on, which is also what bounded replay adds up to. */
  lemma {:induction false} FullReadIsComplete(s: Stream, d: Disk, truth: Ledger, history: seq<Batch>, c: Cursor,
                                              maxBatches: nat, maxBytes: u64)
    requires StreamInv(s, d, truth, history) && Readable(s) && InRange(s, c) && maxBatches > 0 && EachFits(s, maxBytes)
    ensures Read(s, c, |s.batches|, MAX_U64) == Ok(ReadResult(ReplayAll(s, c, maxBatches, maxBytes), Current(s), false))
  {
    hide StreamInv, Read, ReplayAll, Bytes, SizesOf, ReservedSize, Chain;
    BatchesFit(s, d, truth, history);
    SizesAre(s, d, truth, history);
    BytesBelowReserved(s.batches, |s.batches|);
    assert s.batches[..|s.batches|] == s.batches;
    UnboundedRead(s, c, |s.batches|, MAX_U64);
    ReplayIsComplete(s, c, maxBatches, maxBytes);
  }

  lemma SizesAre(s: Stream, d: Disk, truth: Ledger, history: seq<Batch>)
    requires StreamInv(s, d, truth, history)
    ensures s.batchFileBytes == SizesOf(s.batches)
  {
  }

  /** The published batches with their markers fit the file. */
  lemma {:induction false} BatchesFit(s: Stream, d: Disk, truth: Ledger, history: seq<Batch>)
    requires StreamInv(s, d, truth, history)
    ensures ReservedSize(s.batches) <= MAX_U64
  {
    hide PreparedOf, MarkersOf, LiveOf, StreamInv, Rewritable, CommittedAs, PayloadSize, ReservedSize;
    StreamFacts(s, d, truth, history);
    SameHeader(s, d, truth, history);
    var live, m := Live(d, truth), |s.batches|;
    forall i | 0 <= i < m ensures PayloadSize(s.batches[i]) == PayloadSize(live[..m][i]) {
      BatchRewritable(s, d, truth, history, 0, i);
    }
    ReservedSame(s.batches, live[..m]);
    ReservedPrefix(live[..m], live);
    ReservedOfLive(PreparedOf(d.log), truth);
    DiskReserved(d, truth, history);
  }
}
