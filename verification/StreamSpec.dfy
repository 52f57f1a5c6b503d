/** The enabled stream as a value, and what each of its operations does to it.
    The imperative manager is proved against these functions; the protocol
    theorems are about them. */
module StreamSpec {
  import opened Wrappers
  import opened Widths
  import opened ChangeTypes
  import opened Codec
  import opened LogFile
  import opened Loading
  import opened LogViews

  datatype BatchFileBytes = BatchFileBytes(changeBytes: nat, retainedFileBytes: nat)

  datatype Stream = Stream(
    header: Header,
    fileBytes: nat,
    batches: seq<Batch>,
    batchFileBytes: seq<BatchFileBytes>,
    finalizeVersions: map<u64, Option<u64>>,
    unresolved: map<u64, PreparedRecord>,
    pending: map<u64, u64>,
    checkpointed: u64,
    nextSequence: u64)

  datatype State =
    | Disabled(generation: u64)
    | Enabled(stream: Stream)
    | Unavailable(lastGeneration: Option<u64>)

  /** How far a call that replaces the log by a bare header got before it failed:
      the header first, then the guard file beside it, which holds the generation. */
  datatype Reach = NothingWritten | HeaderWritten | GuardWritten

  function PriorGeneration(state: State): u64 {
    match state
    case Disabled(g) => g
    case Enabled(s) => s.header.generation
    case Unavailable(g) => if g.Some? then g.value else 0
  }

  function FreshStream(h: Header): Stream {
    Stream(h, HeaderSize(h), [], [], map[], map[], map[], h.origin, 1)
  }

  function Poisoned(s: Stream): State {
    Unavailable(Some(s.header.generation))
  }

  /** The reservation a prepare returns. */
  datatype PreparedChange = PreparedChange(sequence: u64, before: u64, after: u64)

  function Identity(b: Batch): PreparedChange {
    PreparedChange(b.sequence, b.before, b.after)
  }

  function EffectiveCurrent(h: Header, batches: seq<Batch>): u64 {
    if batches == [] then h.current else batches[|batches| - 1].after
  }

  function Current(s: Stream): u64 {
    EffectiveCurrent(s.header, s.batches)
  }

  // ---------------------------------------------------------------------------
  // Reservation order
  // ---------------------------------------------------------------------------

  /** Reservations are ordered by sequence; equal sequences fall back to the transaction id. */
  predicate Earlier(m: map<u64, PreparedRecord>, t: u64, u: u64)
    requires t in m && u in m
  {
    m[t].batch.sequence < m[u].batch.sequence || (m[t].batch.sequence == m[u].batch.sequence && t < u)
  }

  predicate IsTail(m: map<u64, PreparedRecord>, t: u64) {
    t in m && forall u :: u in m ==> u == t || Earlier(m, u, t)
  }

  lemma {:induction false} TailExists(m: map<u64, PreparedRecord>)
    requires m.Keys != {}
    ensures exists t :: IsTail(m, t)
    decreases |m.Keys|
  {
    var t :| t in m;
    var rest := m - {t};
    assert rest.Keys == m.Keys - {t};
    if rest.Keys == {} {
      assert m.Keys == {t};
      assert forall u :: u in m ==> u == t;
      assert IsTail(m, t);
    } else {
      TailExists(rest);
      var u :| IsTail(rest, u);
      var best := if Earlier(m, u, t) then t else u;
      forall v | v in m ensures v == best || Earlier(m, v, best) {
        assert v == t || v in rest;
        assert v in rest ==> v == u || Earlier(rest, v, u);
      }
      assert IsTail(m, best);
    }
  }

  /** The newest reservation. */
  ghost function Tail(m: map<u64, PreparedRecord>): (t: u64)
    requires m.Keys != {}
    ensures IsTail(m, t)
  {
    TailExists(m);
    var t :| IsTail(m, t);
    t
  }

  /** The unresolved transactions in reservation order. */
  ghost function ReservationOrder(m: map<u64, PreparedRecord>): (ids: seq<u64>)
    ensures |ids| == |m.Keys|
    ensures forall i :: 0 <= i < |ids| ==> ids[i] in m
    decreases |m.Keys|
  {
    if m.Keys == {} then []
    else
      var t := Tail(m);
      var rest := m - {t};
      assert rest.Keys == m.Keys - {t};
      ReservationOrder(rest) + [t]
  }

  // ---------------------------------------------------------------------------
  // Stage
  // ---------------------------------------------------------------------------

  ghost function ReservedFrontier(s: Stream): u64 {
    if s.unresolved.Keys == {} then Current(s) else s.unresolved[Tail(s.unresolved)].batch.after
  }

  datatype StageResult = StageResult(stream: Stream, appended: seq<Record>, result: Result<Option<PreparedChange>, StreamError>)

  function StagedBatch(s: Stream, before: u64, txn: u64, databaseTxn: Option<u64>, changes: seq<Change>): Batch
    requires before < MAX_U64
  {
    Batch(s.nextSequence, txn, databaseTxn, s.header.tableId, s.header.storageId, s.header.fingerprint,
          before, before + 1, changes)
  }

  function StagedRecord(b: Batch, durable: bool): PreparedRecord {
    PreparedRecord(b, Unresolved, false, durable, None, RecordSize(Prepared(b)), RecordSize(Prepared(b)))
  }

  function AfterStage(s: Stream, b: Batch): Stream
    requires s.nextSequence < MAX_U64
  {
    s.(fileBytes := s.fileBytes + RecordSize(Prepared(b)),
       nextSequence := s.nextSequence + 1,
       unresolved := s.unresolved[b.txn := StagedRecord(b, false)])
  }

  /** Reserving the next frontier for a transaction, when the append succeeds. */
  ghost function Stage(s: Stream, txn: u64, databaseTxn: Option<u64>, changes: seq<Change>): StageResult {
    if changes == [] then StageResult(s, [], Ok(None))
    else if txn in s.unresolved then StageResult(s, [], Ok(Some(Identity(s.unresolved[txn].batch))))
    else
      var before := ReservedFrontier(s);
      if before == MAX_U64 || s.nextSequence == MAX_U64 then StageResult(s, [], Err(VersionExhausted))
      else
        var b := StagedBatch(s, before, txn, databaseTxn, changes);
        if EncodeError(b).Some? then StageResult(s, [], Err(EncodeError(b).value))
        else if s.fileBytes + RecordSize(Prepared(b)) > MAX_U64 then StageResult(s, [], Err(RecordTooLarge(MAX_U64)))
        else StageResult(AfterStage(s, b), [Prepared(b)], Ok(Some(Identity(b))))
  }

  // ---------------------------------------------------------------------------
  // Sync and prepared durability
  // ---------------------------------------------------------------------------

  /** A successful sync checkpoints every finalize appended before it. */
  function Synced(s: Stream): Stream {
    if s.pending == map[] then s else s.(checkpointed := Current(s), pending := map[])
  }

  datatype PrepareCandidate = PrepareCandidate(txn: u64, databaseTxn: Option<u64>, prepared: PreparedChange)

  function DurableErrorAt(s: Stream, ids: seq<u64>, cands: seq<PrepareCandidate>, exact: bool,
                          i: nat): Option<StreamError>
    requires i < |cands| && (exact ==> |cands| <= |ids|)
  {
    var c := cands[i];
    var id := if exact then ids[i] else c.txn;
    if id !in s.unresolved then Some(InvalidRecord(PreparedMissing))
    else
      var b := s.unresolved[id].batch;
      if b.txn != c.txn || b.databaseTxn != c.databaseTxn || Identity(b) != c.prepared then
        Some(InvalidRecord(NotExactPrefix))
      else if i != 0 && cands[i - 1].prepared.after != c.prepared.before then
        Some(ChangeGap(cands[i - 1].prepared.after, c.prepared.before))
      else None
  }

  function FirstDurableError(s: Stream, ids: seq<u64>, cands: seq<PrepareCandidate>, exact: bool,
                             i: nat): Option<StreamError>
    requires i <= |cands| && (exact ==> |cands| <= |ids|)
    decreases |cands| - i
  {
    if i == |cands| then None
    else
      var e := DurableErrorAt(s, ids, cands, exact, i);
      if e.Some? then e else FirstDurableError(s, ids, cands, exact, i + 1)
  }

  ghost function DurabilizeError(s: Stream, cands: seq<PrepareCandidate>, exact: bool): Option<StreamError> {
    if cands == [] then Some(InvalidRecord(EmptyDurabilityBatch))
    else if exact && |s.unresolved| < |cands| then Some(InvalidRecord(NotUnresolvedPrefix))
    else FirstDurableError(s, ReservationOrder(s.unresolved), cands, exact, 0)
  }

  predicate CandidatesKnown(s: Stream, cands: seq<PrepareCandidate>) {
    forall i :: 0 <= i < |cands| ==> cands[i].txn in s.unresolved
  }

  predicate NeedsSync(s: Stream, cands: seq<PrepareCandidate>)
    requires CandidatesKnown(s, cands)
  {
    exists i :: 0 <= i < |cands| && !s.unresolved[cands[i].txn].preparedDurable
  }

  function CandidateIds(cands: seq<PrepareCandidate>): set<u64> {
    set i | 0 <= i < |cands| :: cands[i].txn
  }

  function MarkDurable(m: map<u64, PreparedRecord>, ids: set<u64>): map<u64, PreparedRecord> {
    map t | t in m :: if t in ids then m[t].(preparedDurable := true) else m[t]
  }

  /** The stream after the durability barrier for `cands`. */
  function Durabilized(s: Stream, cands: seq<PrepareCandidate>): Stream
    requires CandidatesKnown(s, cands)
  {
    if NeedsSync(s, cands) then Synced(s).(unresolved := MarkDurable(s.unresolved, CandidateIds(cands))) else s
  }

  // ---------------------------------------------------------------------------
  // Finalize
  // ---------------------------------------------------------------------------

  datatype FinalizeCandidate = FinalizeCandidate(txn: u64, prepared: PreparedChange, commit: Option<u64>)

  predicate AlreadyPublished(s: Stream, cands: seq<FinalizeCandidate>) {
    forall i :: 0 <= i < |cands| ==> HasTxn(s.batches, cands[i].txn)
  }

  /** The check on one committed mutation, with its error. */
  function CommittedChangeError(c: Change, kind: StorageKind): (e: Option<StreamError>)
    ensures e.None? <==> ValidCommitted(kind, c)
  {
    var pending := CheckPending(c, kind);
    if pending.Err? then Some(pending.error)
    else if NewKey(c).Some? && NewKey(c).value.LsmKey? && NewKey(c).value.version == 0 then
      Some(InvalidRecord(ZeroLsmVersion))
    else None
  }

  function CommittedError(ms: seq<Change>, kind: StorageKind): (e: Option<StreamError>)
    ensures e.None? <==> forall i :: 0 <= i < |ms| ==> ValidCommitted(kind, ms[i])
  {
    if ms == [] then None
    else
      var first := CommittedChangeError(ms[0], kind);
      if first.Some? then first
      else
        assert forall i :: 0 < i < |ms| ==> ms[i] == ms[1..][i - 1];
        assert forall i :: 0 <= i < |ms| - 1 ==> ms[1..][i] == ms[i + 1];
        CommittedError(ms[1..], kind)
  }

  function FinalizeErrorAt(s: Stream, cands: seq<FinalizeCandidate>, immediate: bool, i: nat): Option<StreamError>
    requires i < |cands|
  {
    var c := cands[i];
    if i != 0 && cands[i - 1].prepared.after != c.prepared.before then
      Some(ChangeGap(cands[i - 1].prepared.after, c.prepared.before))
    else if c.txn !in s.unresolved then Some(InvalidRecord(PreparedMissing))
    else
      var r := s.unresolved[c.txn];
      if !immediate && c.prepared.sequence in s.pending then Some(InvalidRecord(DuplicateCheckpoint))
      else if Identity(r.batch) != c.prepared || !r.preparedDurable then Some(InvalidRecord(PreparedChanged))
      else if CommittedError(Resolve(r.batch, c.commit).mutations, s.header.kind).Some? then
        CommittedError(Resolve(r.batch, c.commit).mutations, s.header.kind)
      else if c.txn == 0 then Some(InvalidRecord(ZeroTransaction))
      else if r.stagedFinalize.Some? && r.stagedFinalize.value != c.commit then Some(InvalidRecord(FinalizeChanged))
      else None
  }

  function FirstFinalizeError(s: Stream, cands: seq<FinalizeCandidate>, immediate: bool, i: nat): Option<StreamError>
    requires i <= |cands|
    decreases |cands| - i
  {
    if i == |cands| then None
    else
      var e := FinalizeErrorAt(s, cands, immediate, i);
      if e.Some? then e else FirstFinalizeError(s, cands, immediate, i + 1)
  }

  function FinalizeError(s: Stream, cands: seq<FinalizeCandidate>, immediate: bool): Option<StreamError> {
    if cands == [] then Some(InvalidRecord(EmptyFinalizeBatch))
    else if AlreadyPublished(s, cands) then None
    else if cands[0].prepared.before != Current(s) then Some(ChangeGap(Current(s), cands[0].prepared.before))
    else FirstFinalizeError(s, cands, immediate, 0)
  }

  predicate FinalizersKnown(s: Stream, cands: seq<FinalizeCandidate>) {
    forall i :: 0 <= i < |cands| ==> cands[i].txn in s.unresolved
  }

  /** The finalize markers that are not in the log yet. */
  function MarkersToStage(s: Stream, cands: seq<FinalizeCandidate>): seq<Record>
    requires FinalizersKnown(s, cands)
  {
    if cands == [] then []
    else
      var n := |cands| - 1;
      var c := cands[n];
      MarkersToStage(s, cands[..n]) +
      (if s.unresolved[c.txn].stagedFinalize.Some? then [] else [Finalize(c.txn, c.commit)])
  }

  function Promoted(s: Stream, cands: seq<FinalizeCandidate>): (bs: seq<Batch>)
    requires FinalizersKnown(s, cands)
    ensures |bs| == |cands|
  {
    seq(|cands|, i requires 0 <= i < |cands| => Resolve(s.unresolved[cands[i].txn].batch, cands[i].commit))
  }

  function PromotedBytes(s: Stream, cands: seq<FinalizeCandidate>): (bs: seq<BatchFileBytes>)
    requires FinalizersKnown(s, cands)
    ensures |bs| == |cands|
  {
    seq(|cands|, i requires 0 <= i < |cands| =>
      var r := s.unresolved[cands[i].txn];
      BatchFileBytes(r.preparedFileBytes, r.retainedFileBytes + if r.stagedFinalize.Some? then 0 else 32))
  }

  function FinalizerIds(cands: seq<FinalizeCandidate>): set<u64> {
    set i | 0 <= i < |cands| :: cands[i].txn
  }

  function CommitMap(cands: seq<FinalizeCandidate>): map<u64, Option<u64>> {
    if cands == [] then map[]
    else CommitMap(cands[..|cands| - 1])[cands[|cands| - 1].txn := cands[|cands| - 1].commit]
  }

  /** Pending checkpoints: the sequence of each batch, with its transaction. */
  function PendingOf(bs: seq<Batch>): map<u64, u64> {
    if bs == [] then map[] else PendingOf(bs[..|bs| - 1])[bs[|bs| - 1].sequence := bs[|bs| - 1].txn]
  }

  /** The stream after publishing `cands` in order, each under its own batch. */
  function Finalized(s: Stream, cands: seq<FinalizeCandidate>, immediate: bool): Stream
    requires cands != [] && FinalizersKnown(s, cands)
  {
    s.(fileBytes := s.fileBytes + 32 * |MarkersToStage(s, cands)|,
       batches := s.batches + Promoted(s, cands),
       batchFileBytes := s.batchFileBytes + PromotedBytes(s, cands),
       finalizeVersions := s.finalizeVersions + CommitMap(cands),
       unresolved := s.unresolved - FinalizerIds(cands),
       pending := if immediate then map[] else s.pending + PendingOf(Promoted(s, cands)),
       checkpointed := if immediate then cands[|cands| - 1].prepared.after else s.checkpointed)
  }

  // ---------------------------------------------------------------------------
  // Abandon
  // ---------------------------------------------------------------------------

  ghost predicate AbandonRefused(s: Stream, txn: u64) {
    txn in s.unresolved && Tail(s.unresolved) != txn
  }

  function Abandoned(s: Stream, txn: u64): Stream {
    s.(unresolved := s.unresolved - {txn})
  }

  // ---------------------------------------------------------------------------
  // Read
  // ---------------------------------------------------------------------------

  datatype Cursor = Cursor(storageId: u64, generation: u64, frontier: u64)

  datatype ReadResult = ReadResult(batches: seq<Batch>, currentFrontier: u64, hasMore: bool)

  /** Identity and range checks shared by read and the pins. */
  function CursorError(h: Header, current: u64, c: Cursor): Option<StreamError> {
    if c.storageId != h.storageId then Some(ContextMismatch)
    else if c.generation != h.generation then Some(StreamIdentityMismatch)
    else if c.frontier < h.earliest || c.frontier > current then Some(HistoryUnavailable)
    else None
  }

  /** The first batch that starts at `frontier`. */
  function StartAt(bs: seq<Batch>, frontier: u64): (p: Option<nat>)
    ensures p.Some? ==> p.value < |bs| && bs[p.value].before == frontier
    ensures p.Some? ==> forall i :: 0 <= i < p.value ==> bs[i].before != frontier
    ensures p.None? ==> forall i :: 0 <= i < |bs| ==> bs[i].before != frontier
  {
    if bs == [] then None
    else
      var front := StartAt(bs[..|bs| - 1], frontier);
      if front.Some? then front
      else if bs[|bs| - 1].before == frontier then Some(|bs| - 1) else None
  }

  /** Batches from `i` on, while they continue the chain and fit the two limits. */
  function SelectFrom(bs: seq<Batch>, sizes: seq<BatchFileBytes>, i: nat, expected: u64, left: nat, room: int)
      : Result<seq<Batch>, StreamError>
    requires i <= |bs| == |sizes|
    decreases |bs| - i
  {
    if i == |bs| then Ok([])
    else if bs[i].before != expected then Err(ChangeGap(expected, bs[i].before))
    else if left == 0 || sizes[i].changeBytes > room then Ok([])
    else
      var rest :- SelectFrom(bs, sizes, i + 1, bs[i].after, left - 1, room - sizes[i].changeBytes);
      Ok([bs[i]] + rest)
  }

  function Read(s: Stream, c: Cursor, maxBatches: nat, maxBytes: u64): Result<ReadResult, StreamError>
    requires |s.batches| == |s.batchFileBytes|
  {
    var current := Current(s);
    var e := CursorError(s.header, current, c);
    if e.Some? then Err(e.value)
    else if c.frontier == current then Ok(ReadResult([], current, false))
    else
      match StartAt(s.batches, c.frontier)
      case None => Err(HistoryUnavailable)
      case Some(start) =>
        var selected :- SelectFrom(s.batches, s.batchFileBytes, start, c.frontier, maxBatches, maxBytes);
        var reached := if selected == [] then c.frontier else selected[|selected| - 1].after;
        Ok(ReadResult(selected, current, reached != current))
  }

  // ---------------------------------------------------------------------------
  // Retention pins and GC
  // ---------------------------------------------------------------------------

  datatype PinEntry = PinEntry(storageId: u64, generation: u64, frontier: u64)

  datatype PinRegistry = PinRegistry(nextId: u64, pins: map<u64, PinEntry>)

  predicate LivePin(h: Header, p: PinEntry) {
    p.storageId == h.storageId && p.generation == h.generation
  }

  /** A pin of the live incarnation that holds history at or before every other one. */
  predicate LowestPin(h: Header, pins: map<u64, PinEntry>, id: u64) {
    && id in pins && LivePin(h, pins[id])
    && forall j :: j in pins && LivePin(h, pins[j]) ==> pins[id].frontier <= pins[j].frontier
  }

  predicate PinBlocks(h: Header, pins: map<u64, PinEntry>, frontier: u64) {
    exists id :: id in pins && LivePin(h, pins[id]) && pins[id].frontier < frontier
  }

  /** How many leading batches end at or before `frontier`. */
  function Reclaimable(bs: seq<Batch>, frontier: u64): (k: nat)
    ensures k <= |bs|
    ensures forall i :: 0 <= i < k ==> bs[i].after <= frontier
    ensures k < |bs| ==> bs[k].after > frontier
  {
    if bs == [] || bs[0].after > frontier then 0
    else
      assert forall i :: 0 < i < |bs| ==> bs[i] == bs[1..][i - 1];
      1 + Reclaimable(bs[1..], frontier)
  }

  /** The refusals of GC that do not depend on pins. */
  function GcRangeError(s: Stream, frontier: u64): Option<StreamError> {
    var current := Current(s);
    var first := Reclaimable(s.batches, frontier);
    if frontier < s.header.earliest || frontier > current then Some(HistoryUnavailable)
    else if first < |s.batches| && s.batches[first].before != frontier then Some(HistoryUnavailable)
    else if first == |s.batches| && frontier != current then Some(HistoryUnavailable)
    else None
  }

  function GcHeader(s: Stream, frontier: u64): Header {
    s.header.(version := FORMAT_VERSION, active := true, earliest := frontier, current := Current(s), nextSequence := s.nextSequence)
  }

  /** The rewritten log: each retained batch, resolved, followed by its marker. */
  function RetainedLog(bs: seq<Batch>, versions: map<u64, Option<u64>>): Result<seq<Record>, StreamError> {
    if bs == [] then Ok([])
    else
      var n := |bs| - 1;
      var front :- RetainedLog(bs[..n], versions);
      var b := bs[n];
      if EncodeError(b).Some? then Err(EncodeError(b).value)
      else if b.txn !in versions then Err(InvalidRecord(NoFinalizeIdentity))
      else if b.txn == 0 then Err(InvalidRecord(ZeroTransaction))
      else Ok(front + [Prepared(b), Finalize(b.txn, versions[b.txn])])
  }

  function TxnsOf(bs: seq<Batch>): set<u64> {
    set i | 0 <= i < |bs| :: bs[i].txn
  }

  function AfterGc(s: Stream, frontier: u64, log: seq<Record>): Stream {
    var first := Reclaimable(s.batches, frontier);
    s.(header := GcHeader(s, frontier),
       fileBytes := FileSize(GcHeader(s, frontier), log),
       batches := s.batches[first..],
       batchFileBytes := if first <= |s.batchFileBytes| then s.batchFileBytes[first..] else [],
       finalizeVersions := s.finalizeVersions - TxnsOf(s.batches[..first]),
       checkpointed := Current(s))
  }
}
