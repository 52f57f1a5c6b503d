/** Rebuilding the stream from the records a load returned (build_enabled_state). */
module Recovery {
  import opened Wrappers
  import opened Widths
  import opened ChangeTypes
  import opened Codec
  import opened LogFile
  import opened Loading
  import opened LogViews
  import opened StreamSpec
  import opened DiskInvariant
  import opened StreamInvariant

  datatype CommittedEntry = CommittedEntry(batch: Batch, bytes: BatchFileBytes)

  datatype Gathered = Gathered(
    committed: seq<CommittedEntry>,
    versions: map<u64, Option<u64>>,
    unresolved: map<u64, PreparedRecord>,
    repairs: seq<Record>,
    fileBytes: nat,
    maxSequence: nat,
    seen: set<u64>)

  function Nothing(fileBytes: nat): Gathered {
    Gathered([], map[], map[], [], fileBytes, 0, {})
  }

  /** Sorting one loaded record by the engine's outcome; a committed record that
      has no marker gets one appended. */
  function GatherOne(kind: StorageKind, g: Gathered, r: PreparedRecord): Result<Gathered, StreamError> {
    var t := r.batch.txn;
    if t in g.seen then Err(InvalidRecord(DuplicateTransaction))
    else
      var g1 := g.(maxSequence := if r.batch.sequence > g.maxSequence then r.batch.sequence else g.maxSequence,
                   seen := g.seen + {t});
      match r.outcome
      case Aborted => Ok(g1)
      case Unresolved => Ok(g1.(unresolved := g1.unresolved[t := r]))
      case Committed(commit) =>
        var b := Resolve(r.batch, commit);
        if kind.LsmStorage? && commit.None? then Err(InvalidRecord(LsmFinalizeWithoutCommit))
        else if CommittedError(b.mutations, kind).Some? then Err(CommittedError(b.mutations, kind).value)
        else if !r.finalized && t == 0 then Err(InvalidRecord(ZeroTransaction))
        else if !r.finalized && g1.fileBytes + 32 > MAX_U64 then Err(RecordTooLarge(MAX_U64))
        else
          var marker := if r.finalized then [] else [Finalize(t, commit)];
          var retained := r.retainedFileBytes + if r.finalized then 0 else 32;
          Ok(g1.(committed := g1.committed + [CommittedEntry(b, BatchFileBytes(r.preparedFileBytes, retained))],
                 versions := g1.versions[t := commit],
                 repairs := g1.repairs + marker,
                 fileBytes := g1.fileBytes + 32 * |marker|))
  }

  function Gather(kind: StorageKind, rs: seq<PreparedRecord>, fileBytes: nat): Result<Gathered, StreamError> {
    if rs == [] then Ok(Nothing(fileBytes))
    else
      var g :- Gather(kind, rs[..|rs| - 1], fileBytes);
      GatherOne(kind, g, rs[|rs| - 1])
  }

  /** A record that cannot be gathered ends the rebuild. */
  lemma {:induction false} GatherErrorStays(kind: StorageKind, rs: seq<PreparedRecord>, fileBytes: nat, k: nat)
    requires k <= |rs| && Gather(kind, rs[..k], fileBytes).Err?
    ensures Gather(kind, rs, fileBytes) == Gather(kind, rs[..k], fileBytes)
    decreases |rs|
  {
    hide GatherOne;
    if k == |rs| {
      assert rs[..k] == rs;
    } else {
      assert rs[..|rs| - 1][..k] == rs[..k];
      GatherErrorStays(kind, rs[..|rs| - 1], fileBytes, k);
    }
  }

  /** Stable insertion by sequence. */
  function InsertBySequence(es: seq<CommittedEntry>, e: CommittedEntry): seq<CommittedEntry> {
    if es == [] || es[|es| - 1].batch.sequence <= e.batch.sequence then es + [e]
    else InsertBySequence(es[..|es| - 1], e) + [es[|es| - 1]]
  }

  function SortBySequence(es: seq<CommittedEntry>): seq<CommittedEntry> {
    if es == [] then [] else InsertBySequence(SortBySequence(es[..|es| - 1]), es[|es| - 1])
  }

  lemma {:induction false} InsertKeepsAll(es: seq<CommittedEntry>, e: CommittedEntry)
    ensures multiset(InsertBySequence(es, e)) == multiset(es) + multiset{e}
    decreases |es|
  {
    if es != [] {
      var n := |es| - 1;
      InsertKeepsAll(es[..n], e);
      assert es == es[..n] + [es[n]];
    }
  }

  lemma {:induction false} SortKeepsAll(es: seq<CommittedEntry>)
    ensures multiset(SortBySequence(es)) == multiset(es)
    decreases |es|
  {
    hide InsertBySequence;
    if es != [] {
      var n := |es| - 1;
      SortKeepsAll(es[..n]);
      InsertKeepsAll(SortBySequence(es[..n]), es[n]);
      assert es == es[..n] + [es[n]];
    }
  }

  predicate SortedBySequence(es: seq<CommittedEntry>) {
    forall i, j :: 0 <= i < j < |es| ==> es[i].batch.sequence <= es[j].batch.sequence
  }

  lemma {:induction false} SortOfSorted(es: seq<CommittedEntry>)
    requires SortedBySequence(es)
    ensures SortBySequence(es) == es
  {
    if es != [] {
      var n := |es| - 1;
      SortOfSorted(es[..n]);
      assert es == es[..n] + [es[n]];
    }
  }

  /** The frontier check on the committed batches. */
  function ChainError(from: u64, bs: seq<Batch>): (e: Option<StreamError>)
    decreases |bs|
  {
    if bs == [] then None
    else
      var b := bs[0];
      if b.before != from then Some(ChangeGap(from, b.before))
      else if b.before == MAX_U64 then Some(VersionExhausted)
      else if b.after != b.before + 1 then Some(InvalidRecord(VersionNotAdvancing))
      else ChainError(b.after, bs[1..])
  }

  lemma {:induction false} ChainErrorIff(from: u64, bs: seq<Batch>)
    ensures ChainError(from, bs).None? <==> Chain(bs, from)
    decreases |bs|
  {
    if bs != [] {
      var b := bs[0];
      if b.before == from && b.after == b.before + 1 {
        ChainErrorIff(b.after, bs[1..]);
        if Chain(bs[1..], b.after) {
          forall i | 0 <= i < |bs| ensures bs[i].before == from + i && bs[i].after == from + i + 1 {
            if i > 0 { assert bs[i] == bs[1..][i - 1]; }
          }
        }
      }
    }
  }

  /** The first batch that does not continue the chain is the one reported. */
  lemma {:induction false} ChainErrorIs(from: u64, bs: seq<Batch>, i: nat)
    requires i < |bs| && Chain(bs[..i], from) && from + i <= MAX_U64 && !(bs[i].before == from + i && bs[i].after == from + i + 1)
    ensures ChainError(from, bs) ==
            Some(if bs[i].before != from + i then ChangeGap(from + i, bs[i].before)
                 else if bs[i].before == MAX_U64 then VersionExhausted else InvalidRecord(VersionNotAdvancing))
    decreases i
  {
    if i > 0 {
      assert bs[0] == bs[..i][0];
      assert bs[1..][..i - 1] == bs[..i][1..];
      ChainErrorIs(bs[0].after, bs[1..], i - 1);
    }
  }

  function BatchesOf(es: seq<CommittedEntry>): (bs: seq<Batch>)
    ensures |bs| == |es|
  {
    seq(|es|, i requires 0 <= i < |es| => es[i].batch)
  }

  function BytesOf(es: seq<CommittedEntry>): (bs: seq<BatchFileBytes>)
    ensures |bs| == |es|
  {
    seq(|es|, i requires 0 <= i < |es| => es[i].bytes)
  }

  datatype Built = Built(stream: Stream, repairs: seq<Record>)

  function BuildFrom(h: Header, g: Gathered): Result<Built, StreamError> {
    var es := SortBySequence(g.committed);
    var bs := BatchesOf(es);
    var e := ChainError(h.earliest, bs);
    if e.Some? then Err(e.value)
    else if bs == [] && h.earliest != h.current then Err(InvalidHeader(EmptyLogFrontiers))
    else if EffectiveCurrent(h, bs) < h.current then Err(InvalidHeader(HistoryEndsEarly))
    else if g.maxSequence >= MAX_U64 then Err(VersionExhausted)
    else
      var next := if h.nextSequence > g.maxSequence + 1 then h.nextSequence else g.maxSequence + 1;
      Ok(Built(Stream(h, g.fileBytes, bs, BytesOf(es), g.versions, g.unresolved, map[], EffectiveCurrent(h, bs), next),
               g.repairs))
  }

  /** The stream an open rebuilds, and the markers it appends (and then syncs). */
  function Build(h: Header, fileBytes: nat, rs: seq<PreparedRecord>): Result<Built, StreamError> {
    var g :- Gather(h.kind, rs, fileBytes);
    BuildFrom(h, g)
  }

  // ---------------------------------------------------------------------------
  // What loading a well-formed log yields
  // ---------------------------------------------------------------------------

  /** The record a load makes of a prepared batch, when outcomes and markers agree with the truth. */
  function TruthRecord(b: Batch, truth: Ledger, ms: seq<Marker>): PreparedRecord {
    var size := RecordSize(Prepared(b));
    PreparedRecord(b, OutcomeOf(truth, b.txn), Marked(ms, b.txn), true, None, size,
                   size + if Marked(ms, b.txn) then 32 else 0)
  }

  function TruthRecords(bs: seq<Batch>, truth: Ledger, ms: seq<Marker>): (rs: seq<PreparedRecord>)
    ensures |rs| == |bs|
  {
    seq(|bs|, i requires 0 <= i < |bs| => TruthRecord(bs[i], truth, ms))
  }

  /** What a load must be told: the truth, except that a transaction whose marker
      is in the log may be reported in any way, because the marker decides. */
  ghost predicate Reports(outcome: u64 -> Outcome, truth: Ledger, ms: seq<Marker>) {
    forall t: u64 :: !Marked(ms, t) ==> outcome(t) == OutcomeOf(truth, t)
  }

  /** Loading reports each marked transaction as its marker says and each other one as asked. */
  function LoadedRecord(b: Batch, outcome: u64 -> Outcome, ms: seq<Marker>): PreparedRecord {
    var size := RecordSize(Prepared(b));
    match MarkerOf(ms, b.txn)
    case Some(commit) => PreparedRecord(b, Committed(commit), true, true, None, size, size + 32)
    case None => PreparedRecord(b, outcome(b.txn), false, true, None, size, size)
  }

  function MarkerOf(ms: seq<Marker>, txn: u64): (c: Option<Option<u64>>)
    ensures c.Some? <==> Marked(ms, txn)
    ensures c.Some? ==> Marker(txn, c.value) in ms
  {
    if ms == [] then None
    else if ms[|ms| - 1].txn == txn then Some(ms[|ms| - 1].commit)
    else
      MarkedFront(ms, txn);
      MarkerOf(ms[..|ms| - 1], txn)
  }

  lemma {:induction false} MarkedFront(ms: seq<Marker>, txn: u64)
    requires ms != [] && ms[|ms| - 1].txn != txn
    ensures Marked(ms, txn) <==> Marked(ms[..|ms| - 1], txn)
  {
    if Marked(ms, txn) {
      var i :| 0 <= i < |ms| && ms[i].txn == txn;
      assert ms[..|ms| - 1][i].txn == txn;
    }
  }

  lemma {:induction false} LoadShape(log: seq<Record>, outcome: u64 -> Outcome)
    requires MarkersFollow(log) && Ordered(PreparedOf(log))
    ensures LoadRecords(log, outcome).Ok?
    ensures |LoadRecords(log, outcome).value| == |PreparedOf(log)|
    ensures forall i :: 0 <= i < |PreparedOf(log)| ==>
              LoadRecords(log, outcome).value[i] == LoadedRecord(PreparedOf(log)[i], outcome, MarkersOf(log))
  {
    if log != [] {
      var n := |log| - 1;
      var front := log[..n];
      ViewsPrefix(log, n);
      LoadShape(front, outcome);
      var rs := LoadRecords(front, outcome).value;
      match log[n]
      case Prepared(b) =>
        LoadedNew(front, b, outcome);
        assert MarkersOf(log) == MarkersOf(front) && PreparedOf(log) == PreparedOf(front) + [b];
        assert LoadRecords(log, outcome).value == rs + [LoadedRecord(b, outcome, MarkersOf(front))];
      case Finalize(txn, commit) =>
        LoadedMark(front, txn, commit, outcome, rs);
    }
  }

  /** A freshly prepared transaction has no marker yet. */
  lemma {:induction false} LoadedNew(front: seq<Record>, b: Batch, outcome: u64 -> Outcome)
    requires MarkersFollow(front) && Ordered(PreparedOf(front) + [b])
    ensures !Marked(MarkersOf(front), b.txn)
  {
    if Marked(MarkersOf(front), b.txn) {
      var i :| 0 <= i < |MarkersOf(front)| && MarkersOf(front)[i].txn == b.txn;
      MarkerPrepared(front, i);
      var j :| 0 <= j < |PreparedOf(front)| && PreparedOf(front)[j].txn == b.txn;
      var all := PreparedOf(front) + [b];
      TxnUnique(all, j, |all| - 1);
    }
  }

  lemma {:induction false} MarkerPrepared(log: seq<Record>, i: nat)
    requires MarkersFollow(log) && i < |MarkersOf(log)|
    ensures HasTxn(PreparedOf(log), MarkersOf(log)[i].txn)
  {
    var n := |log| - 1;
    if i < |MarkersOf(log[..n])| {
      MarkerPrepared(log[..n], i);
    }
    var j :| 0 <= j < |PreparedOf(log[..n])| && PreparedOf(log[..n])[j].txn == MarkersOf(log)[i].txn;
    assert PreparedOf(log)[j].txn == MarkersOf(log)[i].txn;
  }

  lemma {:induction false} LoadedMark(front: seq<Record>, txn: u64, commit: Option<u64>,
                                      outcome: u64 -> Outcome, rs: seq<PreparedRecord>)
    requires Ordered(PreparedOf(front)) && |rs| == |PreparedOf(front)|
    requires forall i :: 0 <= i < |rs| ==> rs[i] == LoadedRecord(PreparedOf(front)[i], outcome, MarkersOf(front))
    requires HasTxn(PreparedOf(front), txn) && !Marked(MarkersOf(front), txn)
    ensures var r := LoadStep(rs, Finalize(txn, commit), 32, outcome);
            var ms := MarkersOf(front) + [Marker(txn, commit)];
            r.Ok? && |r.value| == |rs| &&
            forall i :: 0 <= i < |rs| ==> r.value[i] == LoadedRecord(PreparedOf(front)[i], outcome, ms)
  {
    var ms := MarkersOf(front) + [Marker(txn, commit)];
    assert ms[..|ms| - 1] == MarkersOf(front);
    var at := FindTxn(rs, txn);
    assert at.Some? by {
      var j :| 0 <= j < |PreparedOf(front)| && PreparedOf(front)[j].txn == txn;
      assert rs[j].batch.txn == txn;
    }
    assert !rs[at.value].finalized;
    forall i | 0 <= i < |rs| && i != at.value ensures PreparedOf(front)[i].txn != txn {
      assert rs[at.value].batch == PreparedOf(front)[at.value];
    }
  }

  /** A transaction counts as marked exactly when its first record was. */
  predicate LoadedFrom(log: seq<Record>, rs: seq<PreparedRecord>) {
    && |rs| == |PreparedOf(log)|
    && (forall i :: 0 <= i < |rs| ==> rs[i].batch == PreparedOf(log)[i])
    && (forall i :: 0 <= i < |rs| && (forall j :: 0 <= j < i ==> rs[j].batch.txn != rs[i].batch.txn) ==>
          (rs[i].finalized <==> Marked(MarkersOf(log), rs[i].batch.txn)))
    && (forall t :: Marked(MarkersOf(log), t) ==> HasTxn(PreparedOf(log), t))
  }

  /** Exactly which logs load: each marker follows a record of its transaction and is its only one. */
  lemma {:induction false} LoadsIff(log: seq<Record>, outcome: u64 -> Outcome)
    ensures LoadRecords(log, outcome).Ok? <==> MarkersFollow(log)
    ensures LoadRecords(log, outcome).Ok? ==> LoadedFrom(log, LoadRecords(log, outcome).value)
    decreases |log|
  {
    hide LoadedFrom, LoadStep;
    if log == [] {
      LoadedNothing();
    } else {
      var n := |log| - 1;
      LoadsIff(log[..n], outcome);
      if LoadRecords(log[..n], outcome).Ok? {
        LoadsOneMore(log[..n], log[n], LoadRecords(log[..n], outcome).value, outcome);
        assert log == log[..n] + [log[n]];
      }
    }
  }

  lemma LoadedNothing()
    ensures LoadedFrom([], [])
  {
  }

  lemma {:induction false} LoadsOneMore(front: seq<Record>, r: Record, rs: seq<PreparedRecord>, outcome: u64 -> Outcome)
    requires LoadedFrom(front, rs)
    ensures LoadStep(rs, r, RecordSize(r), outcome).Ok? <==>
            (r.Finalize? ==> HasTxn(PreparedOf(front), r.txn) && !Marked(MarkersOf(front), r.txn))
    ensures LoadStep(rs, r, RecordSize(r), outcome).Ok? ==> LoadedFrom(front + [r], LoadStep(rs, r, RecordSize(r), outcome).value)
  {
    hide PreparedOf, MarkersOf, RecordSize;
    PreparedAppend(front, r);
    var bs, ms := PreparedOf(front), MarkersOf(front);
    match r {
      case Prepared(b) => LoadsPrepared(front, b, rs, outcome);
      case Finalize(txn, commit) => LoadsMarker(front, txn, commit, rs, outcome);
    }
  }

  /** A marker behind records that load is refused for want of a record of its
      transaction, or for being the second, and for nothing else. */
  lemma {:induction false} MarkerRefusedAs(front: seq<Record>, txn: u64, commit: Option<u64>, outcome: u64 -> Outcome)
    requires LoadRecords(front, outcome).Ok?
    ensures var r := LoadRecords(front + [Finalize(txn, commit)], outcome);
            && (r == Err(InvalidRecord(FinalizeWithoutPrepare)) <==> !HasTxn(PreparedOf(front), txn))
            && (r == Err(InvalidRecord(DuplicateFinalize)) <==> HasTxn(PreparedOf(front), txn) && Marked(MarkersOf(front), txn))
            && (r.Ok? <==> HasTxn(PreparedOf(front), txn) && !Marked(MarkersOf(front), txn))
  {
    hide PreparedOf, MarkersOf, RecordSize, LoadedFrom;
    LoadsIff(front, outcome);
    var rs, log := LoadRecords(front, outcome).value, front + [Finalize(txn, commit)];
    assert log[..|log| - 1] == front;
    LoadsMarker(front, txn, commit, rs, outcome);
    var at := FindTxn(rs, txn);
    assert at.Some? <==> HasTxn(PreparedOf(front), txn) by { FoundIff(front, rs, txn); }
    assert LoadRecords(log, outcome) == LoadStep(rs, Finalize(txn, commit), RecordSize(Finalize(txn, commit)), outcome);
  }

  lemma {:induction false} FoundIff(front: seq<Record>, rs: seq<PreparedRecord>, txn: u64)
    requires LoadedFrom(front, rs)
    ensures FindTxn(rs, txn).Some? <==> HasTxn(PreparedOf(front), txn)
  {
    hide PreparedOf, MarkersOf;
    var bs := PreparedOf(front);
    if FindTxn(rs, txn).Some? { assert bs[FindTxn(rs, txn).value].txn == txn; }
    if HasTxn(bs, txn) { var j :| 0 <= j < |bs| && bs[j].txn == txn; assert rs[j].batch.txn == txn; }
  }

  lemma {:induction false} LoadsPrepared(front: seq<Record>, b: Batch, rs: seq<PreparedRecord>, outcome: u64 -> Outcome)
    requires LoadedFrom(front, rs)
    ensures LoadedFrom(front + [Prepared(b)], LoadStep(rs, Prepared(b), RecordSize(Prepared(b)), outcome).value)
  {
    hide PreparedOf, MarkersOf, RecordSize, Marked;
    PreparedAppend(front, Prepared(b));
    var bs, ms := PreparedOf(front), MarkersOf(front);
    var rs' := LoadStep(rs, Prepared(b), RecordSize(Prepared(b)), outcome).value;
    var n := |rs|;
    if Marked(ms, b.txn) {
      var j :| 0 <= j < |bs| && bs[j].txn == b.txn;
      assert rs'[j].batch == rs[j].batch && rs'[j].batch.txn == b.txn;
    }
    forall t | Marked(ms, t) ensures HasTxn(bs + [b], t) {
      var j :| 0 <= j < |bs| && bs[j].txn == t;
      assert (bs + [b])[j].txn == t;
    }
    forall i | 0 <= i < |rs'| && (forall j :: 0 <= j < i ==> rs'[j].batch.txn != rs'[i].batch.txn)
      ensures rs'[i].finalized <==> Marked(ms, rs'[i].batch.txn)
    {
      if i < n { assert forall j :: 0 <= j < i ==> rs'[j] == rs[j]; }
    }
  }

  lemma {:induction false} LoadsMarker(front: seq<Record>, txn: u64, commit: Option<u64>, rs: seq<PreparedRecord>, outcome: u64 -> Outcome)
    requires LoadedFrom(front, rs)
    ensures var step := LoadStep(rs, Finalize(txn, commit), 32, outcome);
            && (step.Ok? <==> HasTxn(PreparedOf(front), txn) && !Marked(MarkersOf(front), txn))
            && (step.Ok? ==> LoadedFrom(front + [Finalize(txn, commit)], step.value))
  {
    hide PreparedOf, MarkersOf;
    PreparedAppend(front, Finalize(txn, commit));
    var bs, ms := PreparedOf(front), MarkersOf(front);
    var at := FindTxn(rs, txn);
    assert at.Some? <==> HasTxn(bs, txn) by {
      if at.Some? { assert bs[at.value].txn == txn; }
      if HasTxn(bs, txn) { var j :| 0 <= j < |bs| && bs[j].txn == txn; assert rs[j].batch.txn == txn; }
    }
    var step := LoadStep(rs, Finalize(txn, commit), 32, outcome);
    if step.Ok? {
      var ms' := ms + [Marker(txn, commit)];
      forall t ensures Marked(ms', t) <==> Marked(ms, t) || t == txn {
        assert ms'[|ms|].txn == txn && ms'[..|ms'| - 1] == ms;
        if t != txn { MarkedFront(ms', t); }
      }
    }
  }
}
