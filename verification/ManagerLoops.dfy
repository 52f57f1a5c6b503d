/** The stateless loops of the manager and of recovery, each against its specification. */
module ManagerLoops {
  import opened Wrappers
  import opened Widths
  import opened ChangeTypes
  import opened Codec
  import opened LogFile
  import opened Loading
  import opened LogViews
  import opened StreamSpec
  import opened StreamInvariant
  import opened Recovery
  import opened Rebuilding

  // ---------------------------------------------------------------------------
  // Reservations
  // ---------------------------------------------------------------------------

  lemma TailUnique(m: map<u64, PreparedRecord>, t: u64, u: u64)
    requires IsTail(m, t) && IsTail(m, u)
    ensures t == u
  {
  }

  /** The newest reservation, by one pass over the map. */
  method NewestReservation(m: map<u64, PreparedRecord>) returns (newest: Option<u64>)
    ensures newest.None? <==> m.Keys == {}
    ensures newest.Some? ==> newest.value == Tail(m)
  {
    newest := None;
    var left := m.Keys;
    while left != {}
      invariant left <= m.Keys
      invariant newest.None? <==> left == m.Keys
      invariant newest.Some? ==> newest.value in m && newest.value !in left
      invariant newest.Some? ==> forall u :: u in m && u !in left ==> u == newest.value || Earlier(m, u, newest.value)
      decreases left
    {
      var t :| t in left;
      left := left - {t};
      if newest.None? || Earlier(m, newest.value, t) { newest := Some(t); }
    }
    if newest.Some? {
      assert IsTail(m, newest.value);
      TailUnique(m, newest.value, Tail(m));
    }
  }

  /** The unresolved transactions, oldest reservation first. */
  method SortedReservations(m: map<u64, PreparedRecord>) returns (ids: seq<u64>)
    ensures ids == ReservationOrder(m)
  {
    hide IsTail;
    ids := [];
    var left := m;
    while left.Keys != {}
      invariant ReservationOrder(m) == ReservationOrder(left) + ids
      decreases |left.Keys|
    {
      var newest := NewestReservation(left);
      var rest := left - {newest.value};
      assert rest.Keys == left.Keys - {newest.value};
      assert newest.value in left by { TailIn(left); }
      ids := [newest.value] + ids;
      left := rest;
    }
  }

  lemma TailIn(m: map<u64, PreparedRecord>)
    requires m.Keys != {}
    ensures Tail(m) in m
  {
  }

  // ---------------------------------------------------------------------------
  // Reading
  // ---------------------------------------------------------------------------

  /** The position of the first batch that starts at `frontier`. */
  method FindStart(batches: seq<Batch>, frontier: u64) returns (start: Option<nat>)
    ensures start == StartAt(batches, frontier)
  {
    var i := 0;
    while i < |batches|
      invariant i <= |batches| && forall j :: 0 <= j < i ==> batches[j].before != frontier
    {
      if batches[i].before == frontier { return Some(i); }
      i := i + 1;
    }
    return None;
  }

  /** Selecting batches from `start` while they continue the chain and fit the limits. */
  method SelectBatches(batches: seq<Batch>, sizes: seq<BatchFileBytes>, start: nat, frontier: u64, maxBatches: nat,
                       maxBytes: u64)
    returns (r: Result<(seq<Batch>, u64), StreamError>)
    requires start <= |batches| == |sizes|
    ensures SelectFrom(batches, sizes, start, frontier, maxBatches, maxBytes) ==
            match r case Ok(v) => Ok(v.0) case Err(e) => Err(e)
    ensures r.Ok? ==> r.value.1 == if r.value.0 == [] then frontier else r.value.0[|r.value.0| - 1].after
  {
    var expected, bytes := frontier, 0;
    var selected: seq<Batch> := [];
    var i := start;
    ghost var whole := SelectFrom(batches, sizes, start, frontier, maxBatches, maxBytes);
    assert whole.Ok? ==> [] + whole.value == whole.value;
    while i < |batches|
      invariant start <= i <= |batches| && |selected| == i - start && |selected| <= maxBatches
      invariant bytes <= maxBytes
      invariant expected == if selected == [] then frontier else selected[|selected| - 1].after
      invariant SelectFrom(batches, sizes, start, frontier, maxBatches, maxBytes) ==
                match SelectFrom(batches, sizes, i, expected, maxBatches - |selected|, maxBytes - bytes)
                case Ok(v) => Ok(selected + v) case Err(e) => Err(e)
    {
      if batches[i].before != expected { return Err(ChangeGap(expected, batches[i].before)); }
      if |selected| >= maxBatches || bytes + sizes[i].changeBytes > maxBytes {
        assert selected + [] == selected;
        return Ok((selected, expected));
      }
      ghost var before := selected;
      ghost var rest := SelectFrom(batches, sizes, i + 1, batches[i].after, maxBatches - |before| - 1, maxBytes - bytes - sizes[i].changeBytes);
      assert rest.Ok? ==> before + ([batches[i]] + rest.value) == (before + [batches[i]]) + rest.value;
      bytes := bytes + sizes[i].changeBytes;
      expected := batches[i].after;
      selected := selected + [batches[i]];
      i := i + 1;
    }
    assert selected + [] == selected;
    return Ok((selected, expected));
  }

  // ---------------------------------------------------------------------------
  // Pins and GC
  // ---------------------------------------------------------------------------

  /** The lowest frontier a pin of the live incarnation holds. */
  method LowestPinned(h: Header, pins: map<u64, PinEntry>) returns (lowest: Option<u64>)
    ensures lowest.Some? ==> exists id :: LowestPin(h, pins, id) && pins[id].frontier == lowest.value
    ensures lowest.None? ==> forall id :: id in pins ==> !LivePin(h, pins[id])
    ensures forall f: u64 :: (lowest.Some? && f > lowest.value) <==> PinBlocks(h, pins, f)
  {
    lowest := None;
    ghost var at: u64 := 0;
    var left := pins.Keys;
    while left != {}
      invariant left <= pins.Keys
      invariant lowest.Some? ==> at in pins && LivePin(h, pins[at]) && pins[at].frontier == lowest.value
      invariant forall id :: id in pins && id !in left && LivePin(h, pins[id]) ==> lowest.Some? && lowest.value <= pins[id].frontier
      decreases left
    {
      var id :| id in left;
      left := left - {id};
      if LivePin(h, pins[id]) && (lowest.None? || pins[id].frontier < lowest.value) {
        lowest := Some(pins[id].frontier);
        at := id;
      }
    }
    assert lowest.Some? ==> LowestPin(h, pins, at);
  }

  /** How many leading batches end at or before `frontier`. */
  method FirstRetained(batches: seq<Batch>, frontier: u64) returns (first: nat)
    ensures first == Reclaimable(batches, frontier)
  {
    first := 0;
    while first < |batches|
      invariant first <= |batches| && forall i :: 0 <= i < first ==> batches[i].after <= frontier
    {
      if batches[first].after > frontier { break; }
      first := first + 1;
    }
    ReclaimableUnique(batches, frontier, first);
  }

  lemma ReclaimableUnique(bs: seq<Batch>, frontier: u64, k: nat)
    requires k <= |bs| && (forall i :: 0 <= i < k ==> bs[i].after <= frontier) && (k < |bs| ==> bs[k].after > frontier)
    ensures Reclaimable(bs, frontier) == k
  {
  }

  /** Writing each retained batch followed by its marker. */
  method RewriteRetained(h: Header, batches: seq<Batch>, versions: map<u64, Option<u64>>)
    returns (r: Result<(seq<Record>, nat), StreamError>)
    ensures match r
            case Ok(v) => RetainedLog(batches, versions) == Ok(v.0) && v.1 == FileSize(h, v.0)
            case Err(e) => RetainedLog(batches, versions) == Err(e)
  {
    hide EncodeError, RecordSize;
    var out: seq<Record>, bytes := [], HeaderSize(h);
    var i := 0;
    while i < |batches|
      invariant i <= |batches| && RetainedLog(batches[..i], versions) == Ok(out) && bytes == FileSize(h, out)
    {
      var b := batches[i];
      assert batches[..i + 1][..i] == batches[..i];
      var e := EncodeError(b);
      if e.Some? {
        RetainedErrorStays(batches, versions, i + 1);
        return Err(e.value);
      }
      if b.txn !in versions {
        RetainedErrorStays(batches, versions, i + 1);
        return Err(InvalidRecord(NoFinalizeIdentity));
      }
      if b.txn == 0 {
        RetainedErrorStays(batches, versions, i + 1);
        return Err(InvalidRecord(ZeroTransaction));
      }
      var marker := Finalize(b.txn, versions[b.txn]);
      PairGrows(h, out, Prepared(b), marker);
      out := out + [Prepared(b), marker];
      bytes := bytes + RecordSize(Prepared(b)) + RecordSize(marker);
      i := i + 1;
    }
    assert batches[..i] == batches;
    return Ok((out, bytes));
  }

  lemma {:induction false} PairGrows(h: Header, log: seq<Record>, a: Record, b: Record)
    ensures FileSize(h, log + [a, b]) == FileSize(h, log) + RecordSize(a) + RecordSize(b)
  {
    hide RecordSize;
    assert log + [a, b] == (log + [a]) + [b];
    OneGrows(log, a);
    OneGrows(log + [a], b);
  }

  lemma {:induction false} OneGrows(log: seq<Record>, r: Record)
    ensures LogSize(log + [r]) == LogSize(log) + RecordSize(r)
  {
    assert (log + [r])[..|log|] == log;
  }

  lemma {:induction false} RetainedErrorStays(bs: seq<Batch>, versions: map<u64, Option<u64>>, k: nat)
    requires k <= |bs| && RetainedLog(bs[..k], versions).Err?
    ensures RetainedLog(bs, versions) == RetainedLog(bs[..k], versions)
    decreases |bs|
  {
    if k == |bs| {
      assert bs[..k] == bs;
    } else {
      assert bs[..|bs| - 1][..k] == bs[..k];
      RetainedErrorStays(bs[..|bs| - 1], versions, k);
    }
  }

  // ---------------------------------------------------------------------------
  // Recovery
  // ---------------------------------------------------------------------------

  /** Checking that the committed batches advance by one from `earliest`. */
  method ValidateCommittedChain(earliest: u64, batches: seq<Batch>) returns (e: Option<StreamError>)
    ensures e == ChainError(earliest, batches)
    ensures e.None? <==> Chain(batches, earliest)
  {
    var expected := earliest;
    var i := 0;
    while i < |batches|
      invariant i <= |batches| && ChainError(earliest, batches) == ChainError(expected, batches[i..])
    {
      var b := batches[i];
      assert batches[i..][1..] == batches[i + 1..];
      if b.before != expected { ChainErrorIff(earliest, batches); return Some(ChangeGap(expected, b.before)); }
      if b.before == MAX_U64 { ChainErrorIff(earliest, batches); return Some(VersionExhausted); }
      if b.after != b.before + 1 { ChainErrorIff(earliest, batches); return Some(InvalidRecord(VersionNotAdvancing)); }
      expected := b.after;
      i := i + 1;
    }
    ChainErrorIff(earliest, batches);
    return None;
  }

  lemma {:induction false} InsertKeepsOrder(es: seq<CommittedEntry>, e: CommittedEntry)
    requires SortedBySequence(es)
    ensures SortedBySequence(InsertBySequence(es, e))
    decreases |es|
  {
    if es != [] && es[|es| - 1].batch.sequence > e.batch.sequence {
      var n := |es| - 1;
      InsertKeepsOrder(es[..n], e);
      var r := InsertBySequence(es[..n], e);
      hide InsertBySequence;
      forall i | 0 <= i < |r| ensures r[i].batch.sequence <= es[n].batch.sequence {
        InsertKeepsAll(es[..n], e);
        assert r[i] in multiset(r);
        assert r[i] in es[..n] || r[i] == e;
      }
    }
  }

  lemma SortedNothing()
    ensures SortBySequence([]) == [] && SortedBySequence([])
  {
  }

  lemma {:induction false} SortedNext(es: seq<CommittedEntry>, i: nat)
    requires i < |es|
    ensures SortBySequence(es[..i + 1]) == InsertBySequence(SortBySequence(es[..i]), es[i])
    ensures multiset(es[..i + 1]) == multiset(es[..i]) + multiset{es[i]}
  {
    assert es[..i + 1][..i] == es[..i] && es[..i + 1] == es[..i] + [es[i]];
  }

  /** Sorting the committed records by sequence, one insertion at a time. */
  method SortCommitted(es: seq<CommittedEntry>) returns (sorted: seq<CommittedEntry>)
    ensures sorted == SortBySequence(es)
    ensures SortedBySequence(sorted) && multiset(sorted) == multiset(es)
  {
    hide InsertBySequence, SortedBySequence, SortBySequence;
    sorted := [];
    SortedNothing();
    var i := 0;
    while i < |es|
      invariant i <= |es| && sorted == SortBySequence(es[..i])
      invariant SortedBySequence(sorted) && multiset(sorted) == multiset(es[..i])
    {
      SortedNext(es, i);
      InsertKeepsAll(sorted, es[i]);
      InsertKeepsOrder(sorted, es[i]);
      sorted := InsertBySequence(sorted, es[i]);
      i := i + 1;
    }
    assert es[..i] == es;
  }

  /** Rebuilding the stream from loaded records: gather them in file order, append
      the missing markers, sort the committed ones and check their chain. */
  method BuildEnabledState(h: Header, fileBytes: nat,
                           records: seq<PreparedRecord>) returns (r: Result<Built, StreamError>)
    ensures r == Build(h, fileBytes, records)
    ensures r.Ok? ==> RebuiltFrom(records, r.value.stream)
  {
    BuildMeans(h, fileBytes, records);
    hide GatherOne, SortBySequence, ChainError, RebuiltFrom;
    var g := Nothing(fileBytes);
    var i := 0;
    while i < |records|
      invariant i <= |records| && Gather(h.kind, records[..i], fileBytes) == Ok(g)
    {
      assert records[..i + 1][..i] == records[..i];
      var next := GatherOne(h.kind, g, records[i]);
      if next.Err? {
        GatherErrorStays(h.kind, records, fileBytes, i + 1);
        return Err(next.error);
      }
      g := next.value;
      i := i + 1;
    }
    assert records[..i] == records;
    var sorted := SortCommitted(g.committed);
    var batches := BatchesOf(sorted);
    var e := ValidateCommittedChain(h.earliest, batches);
    if e.Some? { return Err(e.value); }
    if batches == [] && h.earliest != h.current { return Err(InvalidHeader(EmptyLogFrontiers)); }
    if EffectiveCurrent(h, batches) < h.current { return Err(InvalidHeader(HistoryEndsEarly)); }
    if g.maxSequence >= MAX_U64 { return Err(VersionExhausted); }
    var next := if h.nextSequence > g.maxSequence + 1 then h.nextSequence else g.maxSequence + 1;
    return Ok(Built(Stream(h, g.fileBytes, batches, BytesOf(sorted), g.versions, g.unresolved, map[], EffectiveCurrent(h, batches), next),
                    g.repairs));
  }
}
