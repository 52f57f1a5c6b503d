/** Validating a log file without opening it. */
module Validation {
  import opened Wrappers
  import opened Widths
  import opened ChangeTypes
  import opened Codec
  import opened LogFile
  import opened Loading
  import opened LoadingInverse
  import opened Damage
  import opened LogViews
  import opened StreamSpec
  import opened DiskInvariant
  import opened StreamInvariant
  import opened Recovery
  import opened RecoveryProof
  import opened ProtocolSteps
  import opened ProtocolGc
  import Rebuildable

  // ---------------------------------------------------------------------------
  // It never writes
  // ---------------------------------------------------------------------------

  /** A record loaded without asking the engine is committed only if it is marked. */
  predicate MarkedIfCommitted(rs: seq<PreparedRecord>) {
    forall i :: 0 <= i < |rs| ==> (rs[i].outcome.Committed? ==> rs[i].finalized)
  }

  function AskNobody(): u64 -> Outcome {
    (t: u64) => Unresolved
  }

  lemma {:induction false} LoadAsksNobody(crc: Checksum, bytes: seq<byte>, off: nat, h: Header, lenient: bool,
                                          rs: seq<PreparedRecord>)
    requires MarkedIfCommitted(rs)
    ensures var r := LoadFrom(crc, bytes, off, h, AskNobody(), lenient, rs);
            r.Ok? ==> MarkedIfCommitted(r.value.records)
    decreases |bytes| - off
  {
    hide NextChunk;
    var chunk := NextChunk(crc, bytes, off, h);
    if chunk.Ok? && chunk.value.Whole? {
      var rs' := LoadStep(rs, chunk.value.record, chunk.value.size, AskNobody());
      if rs'.Ok? { LoadAsksNobody(crc, bytes, off + chunk.value.size, h, lenient, rs'.value); }
    }
  }

  lemma {:induction false} GatherWritesNothing(kind: StorageKind, rs: seq<PreparedRecord>, fileBytes: nat)
    requires MarkedIfCommitted(rs)
    ensures var g := Gather(kind, rs, fileBytes); g.Ok? ==> g.value.repairs == [] && g.value.fileBytes == fileBytes
  {
    hide CommittedError, Resolve;
    if rs != [] { GatherWritesNothing(kind, rs[..|rs| - 1], fileBytes); }
  }

  /** The strict check of a log file. */
  function Validate(crc: Checksum, bytes: seq<byte>, tableId: u64, fingerprint: Fingerprint): Result<seq<Record>,
                    StreamError> {
    var loaded :- LoadFile(crc, bytes, AskNobody(), false);
    var h := loaded.0;
    if h.tableId != tableId || h.fingerprint != fingerprint then Err(InvalidHeader(SchemaMismatch))
    else if !h.active then Ok([])
    else
      var built :- Build(h, loaded.1.fileBytes, loaded.1.records);
      Ok(built.repairs)
  }

  /** Validation never writes, on any bytes whatsoever: no marker is appended, not
      even before a later record is refused, and no tail is cut off. */
  lemma {:induction false} ValidateNeverWrites(crc: Checksum, bytes: seq<byte>, tableId: u64, fingerprint: Fingerprint)
    ensures Validate(crc, bytes, tableId, fingerprint).Ok? ==> Validate(crc, bytes, tableId, fingerprint).value == []
    ensures var loaded := LoadFile(crc, bytes, AskNobody(), false);
            loaded.Ok? ==>
              && loaded.value.1.fileBytes == |bytes|
              && forall k :: 0 <= k <= |loaded.value.1.records| ==>
                   var g := Gather(loaded.value.0.kind, loaded.value.1.records[..k], |bytes|);
                   g.Ok? ==> g.value.repairs == []
  {
    hide LoadFrom, Gather, LoadHeader;
    var loaded := LoadFile(crc, bytes, AskNobody(), false);
    if loaded.Ok? {
      var h, rs := loaded.value.0, loaded.value.1.records;
      if h.active {
        LoadAsksNobody(crc, bytes, HeaderSize(h), h, false, []);
        StrictKeepsAll(crc, bytes, HeaderSize(h), h, AskNobody(), []);
      }
      forall k | 0 <= k <= |rs|
        ensures var g := Gather(h.kind, rs[..k], |bytes|); g.Ok? ==> g.value.repairs == []
      {
        GatherWritesNothing(h.kind, rs[..k], |bytes|);
      }
      assert rs[..|rs|] == rs;
    }
  }

  /** The bytes are, to the last one, the active file of a log whose markers are in
      place, for this table, and a stream can be built from what the markers say. */
  ghost predicate ValidFile(crc: Checksum, bytes: seq<byte>, tableId: u64, fingerprint: Fingerprint, h: Header, log: seq<Record>) {
    && ValidHeader(h) && h.active && LoadableLog(h, log) && bytes == FileBytes(crc, h, log) && MarkersFollow(log)
    && h.tableId == tableId && h.fingerprint == fingerprint
    && LoadRecords(log, AskNobody()).Ok? && Rebuildable.CanRebuild(h, |bytes|, LoadRecords(log, AskNobody()).value)
  }

  /** The header of any file a load gets past. */
  ghost predicate ActiveHeader(crc: Checksum, bytes: seq<byte>) {
    LoadHeader(crc, bytes).Ok? && LoadHeader(crc, bytes).value.active
  }

  /** Which active files pass, exactly. */
  lemma {:induction false} ValidatesIff(crc: Checksum, bytes: seq<byte>, tableId: u64, fingerprint: Fingerprint)
    ensures ActiveHeader(crc, bytes) && Validate(crc, bytes, tableId, fingerprint).Ok? <==>
            exists h: Header, log: seq<Record> :: ValidFile(crc, bytes, tableId, fingerprint, h, log)
  {
    hide LoadFrom, LoadHeader, LoadRecords, FileBytes, Build, MarkersFollow, ValidHeader, LoadableLog, Rebuildable.CanRebuild;
    if ActiveHeader(crc, bytes) && Validate(crc, bytes, tableId, fingerprint).Ok? {
      var log := LoadInverse(crc, bytes, AskNobody(), false);
      LoadsIff(log, AskNobody());
      assert bytes[..|bytes|] == bytes;
      var h := LoadFile(crc, bytes, AskNobody(), false).value.0;
      Rebuildable.BuildsIff(h, |bytes|, LoadRecords(log, AskNobody()).value);
      assert ValidFile(crc, bytes, tableId, fingerprint, h, log);
    }
    forall h: Header, log: seq<Record> | ValidFile(crc, bytes, tableId, fingerprint, h, log)
      ensures ActiveHeader(crc, bytes) && Validate(crc, bytes, tableId, fingerprint).Ok?
    {
      WholeFileLoads(crc, h, log, AskNobody(), false);
      Rebuildable.BuildsIff(h, |bytes|, LoadRecords(log, AskNobody()).value);
    }
  }

  /** An inactive file passes exactly when its header loads and names this table and its
      schema, whatever follows the header; a file of another table or schema is refused as such. */
  lemma {:induction false} InactiveValidatesIff(crc: Checksum, bytes: seq<byte>, tableId: u64, fingerprint: Fingerprint)
    requires !ActiveHeader(crc, bytes)
    ensures Validate(crc, bytes, tableId, fingerprint).Ok? <==>
            && LoadHeader(crc, bytes).Ok? && LoadHeader(crc, bytes).value.tableId == tableId
            && LoadHeader(crc, bytes).value.fingerprint == fingerprint
    ensures LoadHeader(crc, bytes).Err? ==> Validate(crc, bytes, tableId, fingerprint) == Err(LoadHeader(crc, bytes).error)
    ensures LoadHeader(crc, bytes).Ok? && Validate(crc, bytes, tableId, fingerprint).Err? ==>
            Validate(crc, bytes, tableId, fingerprint) == Err(InvalidHeader(SchemaMismatch))
  {
    hide LoadHeader, LoadFrom, Build;
  }

  /** So is an active one, once its records load. */
  lemma {:induction false} OtherSchemaIsRefused(crc: Checksum, bytes: seq<byte>, tableId: u64, fingerprint: Fingerprint)
    requires LoadFile(crc, bytes, AskNobody(), false).Ok?
    ensures var h := LoadFile(crc, bytes, AskNobody(), false).value.0;
            h.tableId != tableId || h.fingerprint != fingerprint ==>
              Validate(crc, bytes, tableId, fingerprint) == Err(InvalidHeader(SchemaMismatch))
  {
    hide LoadFile, Build;
  }

  lemma {:induction false} StrictKeepsAll(crc: Checksum, bytes: seq<byte>, off: nat, h: Header,
                                          outcome: u64 -> Outcome, rs: seq<PreparedRecord>)
    ensures var r := LoadFrom(crc, bytes, off, h, outcome, false, rs);
            r.Ok? ==> r.value.fileBytes == |bytes|
    decreases |bytes| - off
  {
    hide NextChunk, LoadStep;
    var chunk := NextChunk(crc, bytes, off, h);
    if chunk.Ok? && chunk.value.Whole? {
      var rs' := LoadStep(rs, chunk.value.record, chunk.value.size, outcome);
      if rs'.Ok? { StrictKeepsAll(crc, bytes, off + chunk.value.size, h, outcome, rs'.value); }
    }
  }

  // ---------------------------------------------------------------------------
  // It accepts every live file
  // ---------------------------------------------------------------------------

  /** What the markers alone say. */
  function Shown(ms: seq<Marker>): Ledger {
    if ms == [] then map[] else Shown(ms[..|ms| - 1])[ms[|ms| - 1].txn := Committed(ms[|ms| - 1].commit)]
  }

  lemma {:induction false} ShownIs(ms: seq<Marker>, t: u64)
    ensures OutcomeOf(Shown(ms), t) == if MarkerOf(ms, t).Some? then Committed(MarkerOf(ms, t).value) else Unresolved
    decreases |ms|
  {
    if ms != [] { ShownIs(ms[..|ms| - 1], t); }
  }

  lemma {:induction false} LoadedAsShown(b: Batch, ms: seq<Marker>)
    ensures LoadedRecord(b, AskNobody(), ms) == TruthRecord(b, Shown(ms), ms)
  {
    hide Shown, MarkerOf;
    ShownIs(ms, b.txn);
  }

  /** A marked live reservation is shown as the ledger committed it; no other is. */
  lemma {:induction false} ShownLive(ms: seq<Marker>, live: seq<Batch>, truth: Ledger, i: nat)
    requires MarkersAgree(ms, live, truth) && Ordered(live) && i < |live|
    ensures OutcomeOf(Shown(ms), live[i].txn) == if i < |ms| then OutcomeOf(truth, live[i].txn) else Unresolved
  {
    hide Shown;
    ShownIs(ms, live[i].txn);
    MarkedExactly(ms, live, truth, i);
    if i < |ms| { MarkerTruth(ms, live, truth, live[i].txn); }
  }

  lemma {:induction false} MarkerTruth(ms: seq<Marker>, live: seq<Batch>, truth: Ledger, t: u64)
    requires MarkersAgree(ms, live, truth) && MarkerOf(ms, t).Some?
    ensures OutcomeOf(truth, t) == Committed(MarkerOf(ms, t).value)
  {
    var j :| 0 <= j < |ms| && ms[j] == Marker(t, MarkerOf(ms, t).value);
  }

  lemma {:induction false} AbortedNotShown(ms: seq<Marker>, live: seq<Batch>, truth: Ledger, t: u64)
    requires MarkersAgree(ms, live, truth) && OutcomeOf(truth, t).Aborted?
    ensures OutcomeOf(Shown(ms), t) == Unresolved
  {
    hide Shown;
    ShownIs(ms, t);
    if MarkerOf(ms, t).Some? { MarkerTruth(ms, live, truth, t); }
  }

  function Least(a: nat, b: nat): nat {
    if a < b then a else b
  }

  /** What the markers show as committed is the marked part of the history. */
  lemma {:induction false} CommittedShown(kind: StorageKind, bs: seq<Batch>, live: seq<Batch>, truth: Ledger,
                                          ms: seq<Marker>, hist: seq<Batch>)
    requires LiveOf(bs, truth) <= live && Ordered(live) && MarkersAgree(ms, live, truth)
    requires Agrees(kind, live, truth, hist) && |ms| <= |hist|
    ensures CommittedOf(bs, Shown(ms)) == hist[..Least(|LiveOf(bs, truth)|, |ms|)]
    ensures RepairsOf(bs, Shown(ms), ms) == []
    decreases |bs|
  {
    hide Shown, Agrees, MarkersAgree, Ordered, Resolve, Marked;
    if bs != [] {
      var n := |bs| - 1;
      var front, b := bs[..n], bs[n];
      CommittedShown(kind, front, live, truth, ms, hist);
      ShownMarked(ms, b.txn);
      if OutcomeOf(truth, b.txn).Aborted? {
        AbortedNotShown(ms, live, truth, b.txn);
      } else {
        var i := |LiveOf(front, truth)|;
        assert live[i] == b;
        ShownLive(ms, live, truth, i);
        if i < |ms| { CommittedIs(kind, live, truth, hist, i); LiveOutcome(kind, live, truth, hist, i); }
      }
    }
  }

  lemma {:induction false} ShownMarked(ms: seq<Marker>, t: u64)
    ensures OutcomeOf(Shown(ms), t).Committed? <==> Marked(ms, t)
  {
    hide Shown;
    ShownIs(ms, t);
  }

  /** Every prepared batch can be gathered from what the markers show. */
  lemma {:induction false} ShownRecoverable(d: Disk, truth: Ledger, history: seq<Batch>)
    requires DiskInv(d, truth, history)
    ensures MarksCommitted(MarkersOf(d.log), Shown(MarkersOf(d.log)))
    ensures forall i :: 0 <= i < |PreparedOf(d.log)| ==> Recoverable(d.header, PreparedOf(d.log)[i], Shown(MarkersOf(d.log)))
  {
    hide PreparedOf, MarkersOf, LiveOf, Shown, Encodable;
    var bs, ms := PreparedOf(d.log), MarkersOf(d.log);
    forall i | 0 <= i < |ms| ensures OutcomeOf(Shown(ms), ms[i].txn).Committed? { ShownMarked(ms, ms[i].txn); }
    forall i | 0 <= i < |bs| ensures Recoverable(d.header, bs[i], Shown(ms)) {
      PreparedLoadable(d.header, d.log, bs[i]);
      ShownIs(ms, bs[i].txn);
      if MarkerOf(ms, bs[i].txn).Some? { MarkerFits(d, truth, history, bs[i].txn); }
    }
  }

  lemma {:induction false} MarkerFits(d: Disk, truth: Ledger, history: seq<Batch>, t: u64)
    requires DiskInv(d, truth, history) && MarkerOf(MarkersOf(d.log), t).Some?
    ensures CommitFits(d.header.kind, MarkerOf(MarkersOf(d.log), t).value)
  {
    hide PreparedOf, MarkersOf, LiveOf, WellFormedLog;
    var ms := MarkersOf(d.log);
    var j :| 0 <= j < |ms| && ms[j] == Marker(t, MarkerOf(ms, t).value);
    CommittedAt(d, truth, history, j);
  }

  /** Gathering a live file without asking anybody: the published batches, nothing to repair. */
  lemma {:induction false} GatherLive(s: Stream, d: Disk, truth: Ledger, history: seq<Batch>)
    requires StreamInv(s, d, truth, history)
    ensures var bs, ms := PreparedOf(d.log), MarkersOf(d.log);
            var g := Gather(d.header.kind, TruthRecords(bs, Shown(ms), ms), FileSize(d.header, d.log));
            g.Ok? && g.value.committed == EntriesOf(s.batches) && g.value.repairs == [] && g.value.maxSequence == LastSequence(bs)
  {
    hide PreparedOf, MarkersOf, LiveOf, FileSize, Shown, Gather, TruthRecords, CommittedOf, UnresolvedOf, RepairsOf,
         Recoverable, MarksCommitted, UnresolvedInv, PublishedInv, Agrees, MarkersAgree, LastSequence;
    var bs, ms := PreparedOf(d.log), MarkersOf(d.log);
    StreamFacts(s, d, truth, history);
    LiveOrdered(bs, truth);
    CommittedShown(d.header.kind, bs, Live(d, truth), truth, ms, Unreclaimed(d.header, history));
    ShownRecoverable(d, truth, history);
    FileSizeSplit(d.header, d.log);
    MarkersShort(d, truth, history);
    GatherShape(d.header, bs, Shown(ms), ms, FileSize(d.header, d.log));
  }

  lemma {:induction false} MarkersShort(d: Disk, truth: Ledger, history: seq<Batch>)
    requires DiskInv(d, truth, history)
    ensures |MarkersOf(d.log)| <= |PreparedOf(d.log)|
  {
    hide PreparedOf, MarkersOf, LiveOf, WellFormedLog;
    LiveShorter(PreparedOf(d.log), truth);
  }

  lemma {:induction false} LoadsAsShown(d: Disk, truth: Ledger, history: seq<Batch>)
    requires DiskInv(d, truth, history)
    ensures LoadRecords(d.log, AskNobody()) == Ok(TruthRecords(PreparedOf(d.log), Shown(MarkersOf(d.log)), MarkersOf(d.log)))
  {
    LoadShape(d.log, AskNobody());
    hide PreparedOf, MarkersOf, LiveOf, LoadRecords, LoadedRecord, TruthRecord, Shown, MarkersFollow;
    var bs, ms, rs := PreparedOf(d.log), MarkersOf(d.log), LoadRecords(d.log, AskNobody()).value;
    forall i | 0 <= i < |bs| ensures rs[i] == TruthRecord(bs[i], Shown(ms), ms) { LoadedAsShown(bs[i], ms); }
    assert rs == TruthRecords(bs, Shown(ms), ms);
  }

  /** Strict validation accepts the file of every reachable enabled stream, and writes nothing. */
  lemma {:induction false} ValidateAcceptsLive(crc: Checksum, s: Stream, d: Disk, truth: Ledger, history: seq<Batch>)
    requires StreamInv(s, d, truth, history)
    ensures LoadableLog(d.header, d.log)
    ensures Validate(crc, FileBytes(crc, d.header, d.log), d.header.tableId, d.header.fingerprint) == Ok([])
  {
    hide PreparedOf, MarkersOf, LiveOf, FileBytes, LoadFile, LoadRecords, StreamInv, DiskInv, Gather, TruthRecords,
         Shown, FileSize, LastSequence, Chain, SortBySequence, EntriesOf, BatchesOf, BytesOf, ChainError,
         HistoryFits;
    SameHeader(s, d, truth, history);
    LoadableFacts(d, truth, history);
    LoadsAsShown(d, truth, history);
    WholeFileLoads(crc, d.header, d.log, AskNobody(), false);
    GatherLive(s, d, truth, history);
    BatchesOrdered(s, d, truth, history);
    SortEntries(s.batches);
    StreamFacts(s, d, truth, history);
    ChainErrorIff(d.header.earliest, s.batches);
    SequencesBounded(d, truth, history);
    ReachesHeader(s, d, truth, history);
  }

  lemma LoadableFacts(d: Disk, truth: Ledger, history: seq<Batch>)
    requires DiskInv(d, truth, history)
    ensures ValidHeader(d.header) && d.header.active && LoadableLog(d.header, d.log)
  {
  }

  lemma {:induction false} ReachesHeader(s: Stream, d: Disk, truth: Ledger, history: seq<Batch>)
    requires StreamInv(s, d, truth, history)
    ensures s.batches == [] ==> d.header.earliest == d.header.current
    ensures EffectiveCurrent(d.header, s.batches) >= d.header.current
  {
    hide PreparedOf, MarkersOf, LiveOf, DiskInv, UnresolvedInv, PendingOf, VersionsOf, SizesOf;
    StreamFacts(s, d, truth, history);
  }
}
