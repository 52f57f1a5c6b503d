/** The change stream manager: one storage's stream, updated in place. */
module Manager {
  import opened Wrappers
  import opened Widths
  import opened ChangeTypes
  import opened Codec
  import opened LogFile
  import opened Loading
  import opened LogViews
  import opened StreamSpec
  import opened StreamInvariant
  import opened ProtocolSteps
  import opened ProtocolFinalize
  import opened ProtocolGc
  import opened ManagerLoops
  import opened ManagerSpec
  import Acceptance
  import Answers

  // ---------------------------------------------------------------------------
  // Marking and promoting, one candidate at a time
  // ---------------------------------------------------------------------------

  /** No transaction is named twice. */
  predicate Distinct(cands: seq<FinalizeCandidate>) {
    forall i, j :: 0 <= i < j < |cands| ==> cands[i].txn != cands[j].txn
  }

  /** The unresolved records once the first `j` markers are appended. */
  function Marking(m: map<u64, PreparedRecord>, cands: seq<FinalizeCandidate>, j: nat): (m': map<u64, PreparedRecord>)
    requires j <= |cands| && forall i :: 0 <= i < |cands| ==> cands[i].txn in m
    ensures m'.Keys == m.Keys
  {
    if j == 0 then m
    else
      var before := Marking(m, cands, j - 1);
      var c := cands[j - 1];
      var r := before[c.txn];
      if r.stagedFinalize.Some? then before
      else before[c.txn := r.(retainedFileBytes := r.retainedFileBytes + 32, stagedFinalize := Some(c.commit))]
  }

  /** One of the first `j` candidates names `t`. */
  predicate Named(cands: seq<FinalizeCandidate>, j: nat, t: u64)
    requires j <= |cands|
  {
    exists i :: 0 <= i < j && cands[i].txn == t
  }

  lemma {:induction false} NamedNext(cands: seq<FinalizeCandidate>, j: nat, t: u64)
    requires j < |cands| && Distinct(cands)
    ensures Named(cands, j + 1, t) <==> Named(cands, j, t) || cands[j].txn == t
    ensures cands[j].txn == t ==> !Named(cands, j, t)
  {
    if Named(cands, j, t) {
      var i :| 0 <= i < j && cands[i].txn == t;
      assert cands[i].txn != cands[j].txn;
    }
  }

  /** Marking touches only the named records, and each of them once. */
  lemma {:induction false} MarkingAt(m: map<u64, PreparedRecord>, cands: seq<FinalizeCandidate>, j: nat, t: u64)
    requires j <= |cands| && Distinct(cands) && (forall i :: 0 <= i < |cands| ==> cands[i].txn in m) && t in m
    ensures Marking(m, cands, j)[t].batch == m[t].batch && Marking(m, cands, j)[t].preparedFileBytes == m[t].preparedFileBytes
    ensures !Named(cands, j, t) ==> Marking(m, cands, j)[t] == m[t]
    ensures Named(cands, j, t) ==>
              Marking(m, cands, j)[t].retainedFileBytes == m[t].retainedFileBytes + if m[t].stagedFinalize.Some? then 0 else 32
    decreases j
  {
    hide Named, Distinct;
    if j == 0 {
      assert !Named(cands, 0, t) by { NobodyNamed(cands, t); }
    } else {
      MarkingAt(m, cands, j - 1, t);
      NamedNext(cands, j - 1, t);
    }
  }

  lemma NobodyNamed(cands: seq<FinalizeCandidate>, t: u64)
    ensures !Named(cands, 0, t)
  {
  }

  lemma {:induction false} MarkersNext(s: Stream, cands: seq<FinalizeCandidate>, j: nat)
    requires j < |cands| && FinalizersKnown(s, cands)
    ensures MarkersToStage(s, cands[..j + 1]) ==
            if s.unresolved[cands[j].txn].stagedFinalize.Some? then MarkersToStage(s, cands[..j])
            else MarkersToStage(s, cands[..j]) + [Finalize(cands[j].txn, cands[j].commit)]
  {
    assert cands[..j + 1][..j] == cands[..j];
  }

  lemma {:induction false} MarkersPrefix(s: Stream, cands: seq<FinalizeCandidate>, j: nat)
    requires j <= |cands| && FinalizersKnown(s, cands)
    ensures MarkersToStage(s, cands[..j]) <= MarkersToStage(s, cands)
    decreases |cands| - j
  {
    if j == |cands| {
      assert cands[..j] == cands;
    } else {
      MarkersNext(s, cands, j);
      MarkersPrefix(s, cands, j + 1);
    }
  }

  /** Accepted candidates continue each other, so no two are the same. */
  lemma {:induction false} ChainedBefore(s: Stream, cands: seq<FinalizeCandidate>, immediate: bool, i: nat)
    requires Reserved(s.unresolved) && i < |cands|
    requires forall k :: 0 <= k < |cands| ==> FinalizeErrorAt(s, cands, immediate, k).None?
    ensures cands[i].txn in s.unresolved && s.unresolved[cands[i].txn].batch.before == cands[0].prepared.before + i
  {
    assert FinalizeErrorAt(s, cands, immediate, i).None?;
    if i > 0 {
      ChainedBefore(s, cands, immediate, i - 1);
      assert FinalizeErrorAt(s, cands, immediate, i - 1).None?;
    }
  }

  lemma {:induction false} AcceptedDistinct(s: Stream, cands: seq<FinalizeCandidate>, immediate: bool)
    requires Reserved(s.unresolved)
    requires forall k :: 0 <= k < |cands| ==> FinalizeErrorAt(s, cands, immediate, k).None?
    ensures Distinct(cands)
  {
    forall i, j | 0 <= i < j < |cands| ensures cands[i].txn != cands[j].txn {
      ChainedBefore(s, cands, immediate, i);
      ChainedBefore(s, cands, immediate, j);
    }
  }

  lemma StageAgain(s: Stream, txn: u64, databaseTxn: Option<u64>, changes: seq<Change>)
    requires changes != [] && txn in s.unresolved
    ensures Stage(s, txn, databaseTxn, changes) == StageResult(s, [], Ok(Some(Identity(s.unresolved[txn].batch))))
  {
  }

  class ChangeStreamManager {
    const kind: StorageKind
    const storageId: u64
    const tableId: u64
    const fingerprint: Fingerprint

    var state: State
    /** What the file starts with, its records, and how many of them count as synced. */
    var head: FileHead
    var log: seq<Record>
    var synced: nat
    var syncs: nat
    var pins: PinRegistry
    /** The generation in the guard file beside the log. */
    var guard: Option<u64>

    ghost predicate Valid()
      reads this
    {
      && synced <= |log|
      && (state.Enabled? ==> |state.stream.batches| == |state.stream.batchFileBytes| && Reserved(state.stream.unresolved))
    }

    ghost function V(): View
      reads this
    {
      View(state, head, log, synced, syncs, pins, guard)
    }

    /** An error of the file leaves the stream unavailable. */
    method Poison()
      modifies this`state
      ensures V() == Unusable(old(V()))
      ensures old(state.Enabled?) ==> state == Unavailable(Some(old(state.stream.header.generation)))
    {
      state := Unavailable(if state.Unavailable? then state.lastGeneration else Some(PriorGeneration(state)));
    }

    // -------------------------------------------------------------------------
    // Prepare
    // -------------------------------------------------------------------------

    /** The batch a new reservation would hold, or why there is none. */
    method NextReservation(txn: u64, databaseTxn: Option<u64>,
                           changes: seq<Change>) returns (r: Result<Batch, StreamError>)
      requires Valid() && state.Enabled? && changes != [] && txn !in state.stream.unresolved
      ensures r.Err? ==> Stage(state.stream, txn, databaseTxn, changes) == StageResult(state.stream, [], Err(r.error))
      ensures r.Ok? ==> state.stream.nextSequence < MAX_U64 && r.value.txn == txn && r.value.after == r.value.before + 1
      ensures r.Ok? ==> Stage(state.stream, txn, databaseTxn, changes) ==
                        StageResult(AfterStage(state.stream, r.value), [Prepared(r.value)], Ok(Some(Identity(r.value))))
    {
      hide EncodeError, RecordSize, IsTail;
      var h, unresolved := state.stream.header, state.stream.unresolved;
      var newest := NewestReservation(unresolved);
      if newest.Some? { TailIn(unresolved); }
      var before := if newest.Some? then unresolved[newest.value].batch.after else EffectiveCurrent(h, state.stream.batches);
      if before == MAX_U64 || state.stream.nextSequence == MAX_U64 { return Err(VersionExhausted); }
      var b := Batch(state.stream.nextSequence, txn, databaseTxn, h.tableId, h.storageId, h.fingerprint, before, before + 1, changes);
      var e := EncodeError(b);
      if e.Some? { return Err(e.value); }
      if state.stream.fileBytes + RecordSize(Prepared(b)) > MAX_U64 { return Err(RecordTooLarge(MAX_U64)); }
      return Ok(b);
    }

    method StagePrepare(txn: u64, databaseTxn: Option<u64>, changes: seq<Change>, append: Append)
      returns (r: Result<Option<PreparedChange>, StreamError>)
      requires Valid()
      modifies this`state, this`log
      ensures Valid()
      ensures (V(), r) == StageCall(old(V()), txn, databaseTxn, changes, append)
    {
      hide Stage, RecordSize;
      if changes == [] || state.Disabled? { return Ok(None); }
      if state.Unavailable? { return Err(StreamUnavailable); }
      if txn in state.stream.unresolved {
        StageAgain(state.stream, txn, databaseTxn, changes);
        return Ok(Some(Identity(state.stream.unresolved[txn].batch)));
      }
      var next := NextReservation(txn, databaseTxn, changes);
      if next.Err? { return Err(next.error); }
      var b, size := next.value, RecordSize(Prepared(next.value));
      if append.AppendFailed? {
        if append.persisted { log := log + [Prepared(b)]; }
        Poison();
        return Err(Io);
      }
      log := log + [Prepared(b)];
      var s := state.stream;
      state := Enabled(s.(fileBytes := s.fileBytes + size, nextSequence := s.nextSequence + 1,
                          unresolved := s.unresolved[txn := PreparedRecord(b, Unresolved, false, false, None, size, size)]));
      return Ok(Some(Identity(b)));
    }

    /** A successful sync of the whole file. */
    method Sync()
      requires Valid() && state.Enabled?
      modifies this`state, this`synced, this`syncs
      ensures Valid()
      ensures V() == old(V()).(state := Enabled(Synced(old(state.stream))), synced := |log|, syncs := old(syncs) + 1)
    {
      synced, syncs := |log|, syncs + 1;
      if state.stream.pending != map[] {
        state := Enabled(state.stream.(checkpointed := EffectiveCurrent(state.stream.header, state.stream.batches), pending := map[]));
      }
    }

    /** Checking every candidate of a durability barrier, and whether one still needs it. */
    method CheckDurable(cands: seq<PrepareCandidate>, exact: bool) returns (r: Result<bool, StreamError>)
      requires Valid() && state.Enabled? && cands != []
      ensures match r
              case Err(e) => DurabilizeError(state.stream, cands, exact) == Some(e)
              case Ok(needs) =>
                && DurabilizeError(state.stream, cands, exact).None? && CandidatesKnown(state.stream, cands)
                && (needs <==> exists i :: 0 <= i < |cands| && !state.stream.unresolved[cands[i].txn].preparedDurable)
    {
      hide ReservationOrder;
      var unresolved := state.stream.unresolved;
      var ids := SortedReservations(unresolved);
      if exact && |unresolved| < |cands| { return Err(InvalidRecord(NotUnresolvedPrefix)); }
      assert |unresolved| == |unresolved.Keys|;
      assert exact ==> |cands| <= |ids|;
      var needs, i := false, 0;
      while i < |cands|
        invariant i <= |cands| && FirstDurableError(state.stream, ids, cands, exact, 0) == FirstDurableError(state.stream, ids, cands, exact, i)
        invariant forall k :: 0 <= k < i ==> cands[k].txn in unresolved
        invariant needs <==> exists k :: 0 <= k < i && !unresolved[cands[k].txn].preparedDurable
      {
        var c := cands[i];
        var id := if exact then ids[i] else c.txn;
        if id !in unresolved { return Err(InvalidRecord(PreparedMissing)); }
        var b := unresolved[id].batch;
        if b.txn != c.txn || b.databaseTxn != c.databaseTxn || Identity(b) != c.prepared { return Err(InvalidRecord(NotExactPrefix)); }
        if i != 0 && cands[i - 1].prepared.after != c.prepared.before {
          return Err(ChangeGap(cands[i - 1].prepared.after, c.prepared.before));
        }
        assert id == c.txn;
        needs := needs || !unresolved[id].preparedDurable;
        i := i + 1;
      }
      return Ok(needs);
    }

    /** The durability barrier for staged reservations; `syncing` says whether the sync succeeds. */
    method DurabilizePrepared(cands: seq<PrepareCandidate>, exact: bool,
                              syncing: bool) returns (r: Result<nat, StreamError>)
      requires Valid()
      modifies this`state, this`synced, this`syncs
      ensures Valid()
      ensures (V(), r) == DurabilizeCall(old(V()), cands, exact, syncing)
      ensures r.Ok? ==> BarrierDone(old(V()), cands, V(), r.value)
    {
      hide DurabilizeError, BarrierDone;
      BarrierMeans(V(), cands, exact, syncing);
      if cands == [] { return Err(InvalidRecord(EmptyDurabilityBatch)); }
      if !state.Enabled? { return Err(StreamUnavailable); }
      var checked := CheckDurable(cands, exact);
      if checked.Err? { return Err(checked.error); }
      if !checked.value { return Ok(0); }
      if !syncing {
        Poison();
        return Err(Io);
      }
      Sync();
      MarkAll(cands);
      return Ok(1);
    }

    /** After the barrier every candidate is durable. */
    method MarkAll(cands: seq<PrepareCandidate>)
      requires Valid() && state.Enabled? && CandidatesKnown(state.stream, cands)
      modifies this`state
      ensures Valid()
      ensures state == Enabled(old(state.stream).(unresolved := MarkDurable(old(state.stream).unresolved, CandidateIds(cands))))
    {
      hide MarkDurable, CandidateIds;
      var i, m := 0, state.stream.unresolved;
      ghost var m0 := m;
      MarkNobody(m0, cands);
      while i < |cands|
        invariant state == old(state) && i <= |cands| && m == MarkDurable(m0, CandidateIds(cands[..i]))
      {
        var t := cands[i].txn;
        MarkOneMore(m0, cands, i);
        m := m[t := m[t].(preparedDurable := true)];
        i := i + 1;
      }
      assert cands[..i] == cands;
      MarkKeepsReserved(m0, CandidateIds(cands));
      state := Enabled(state.stream.(unresolved := m));
    }

    /** Preparing one transaction on its own: stage it, then its own barrier. */
    method Prepare(txn: u64, databaseTxn: Option<u64>, changes: seq<Change>, append: Append, syncing: bool)
      returns (r: Result<Option<PreparedChange>, StreamError>)
      requires Valid()
      modifies this`state, this`log, this`synced, this`syncs
      ensures Valid()
      ensures var staged := StageCall(old(V()), txn, databaseTxn, changes, append);
              match staged.1
              case Err(_) => (V(), r) == staged
              case Ok(None) => (V(), r) == staged
              case Ok(Some(prepared)) =>
                && (staged.0.state.Enabled? ==> Reserved(staged.0.state.stream.unresolved))
                && var durable := DurabilizeCall(staged.0, [PrepareCandidate(txn, databaseTxn, prepared)], false, syncing);
                   V() == durable.0 && r == if durable.1.Ok? then staged.1 else Err(durable.1.error)
    {
      hide StageCall, DurabilizeCall, Reserved;
      r := StagePrepare(txn, databaseTxn, changes, append);
      if r.Ok? && r.value.Some? {
        var durable := DurabilizePrepared([PrepareCandidate(txn, databaseTxn, r.value.value)], false, syncing);
        if durable.Err? { r := Err(durable.error); }
      }
    }

    // -------------------------------------------------------------------------
    // Publish
    // -------------------------------------------------------------------------

    /** Checking every candidate of a finalize. */
    method CheckFinalize(cands: seq<FinalizeCandidate>, immediate: bool) returns (e: Option<StreamError>)
      requires Valid() && state.Enabled? && cands != [] && !AlreadyPublished(state.stream, cands)
      ensures e == FinalizeError(state.stream, cands, immediate)
      ensures e.None? <==> Answers.Finalizable(state.stream, cands, immediate)
      ensures e.Some? ==> Answers.FinalizeFaultIs(state.stream, cands, immediate, e.value)
    {
      hide CommittedError, Resolve, Answers.Finalizable, Answers.FinalizeFaultIs;
      Answers.FinalizeCheckIff(state.stream, cands, immediate);
      var current := EffectiveCurrent(state.stream.header, state.stream.batches);
      if cands[0].prepared.before != current { return Some(ChangeGap(current, cands[0].prepared.before)); }
      var i := 0;
      while i < |cands|
        invariant i <= |cands| && FirstFinalizeError(state.stream, cands, immediate, 0) == FirstFinalizeError(state.stream, cands, immediate, i)
      {
        var c := cands[i];
        if i != 0 && cands[i - 1].prepared.after != c.prepared.before {
          return Some(ChangeGap(cands[i - 1].prepared.after, c.prepared.before));
        }
        if c.txn !in state.stream.unresolved { return Some(InvalidRecord(PreparedMissing)); }
        var record := state.stream.unresolved[c.txn];
        if !immediate && c.prepared.sequence in state.stream.pending { return Some(InvalidRecord(DuplicateCheckpoint)); }
        if Identity(record.batch) != c.prepared || !record.preparedDurable { return Some(InvalidRecord(PreparedChanged)); }
        var invalid := CommittedError(Resolve(record.batch, c.commit).mutations, state.stream.header.kind);
        if invalid.Some? { return invalid; }
        if c.txn == 0 { return Some(InvalidRecord(ZeroTransaction)); }
        if record.stagedFinalize.Some? && record.stagedFinalize.value != c.commit { return Some(InvalidRecord(FinalizeChanged)); }
        i := i + 1;
      }
      return None;
    }

    /** Whether every candidate has been published before. */
    method AllPublished(cands: seq<FinalizeCandidate>) returns (all: bool)
      requires state.Enabled?
      ensures all <==> AlreadyPublished(state.stream, cands)
    {
      var i := 0;
      while i < |cands|
        invariant i <= |cands| && forall k :: 0 <= k < i ==> HasTxn(state.stream.batches, cands[k].txn)
      {
        var found, j := false, 0;
        while j < |state.stream.batches|
          invariant j <= |state.stream.batches| && (found <==> exists k :: 0 <= k < j && state.stream.batches[k].txn == cands[i].txn)
        {
          found := found || state.stream.batches[j].txn == cands[i].txn;
          j := j + 1;
        }
        if !found {
          assert !HasTxn(state.stream.batches, cands[i].txn);
          return false;
        }
        i := i + 1;
      }
      return true;
    }

    /** Appending the markers that are not in the file yet; fails where the fault says. */
    method AppendMarkers(cands: seq<FinalizeCandidate>, fault: FinalizeFault) returns (ok: bool)
      requires Valid() && state.Enabled? && FinalizersKnown(state.stream, cands) && Distinct(cands)
      modifies this`state, this`log
      ensures state.Enabled?
      ensures var s, markers := old(state.stream), MarkersToStage(old(state.stream), cands);
              && (ok <==> !(fault.MarkerFails? && fault.at < |markers|))
              && (ok ==> log == old(log) + markers && state.stream == WithMarkers(s, cands))
              && (!ok ==> log == old(log) + markers[..if fault.persisted then fault.at + 1 else fault.at] &&
                          state.stream.header.generation == s.header.generation)
    {
      hide MarkersToStage, Marking, Distinct, Reserved;
      var s := state.stream;
      var i, m, markers := 0, s.unresolved, [];
      NoMarkers(s, cands);
      while i < |cands|
        invariant state == old(state) && log == old(log)
        invariant i <= |cands| && markers == MarkersToStage(s, cands[..i]) && m == Marking(s.unresolved, cands, i)
        invariant fault.MarkerFails? ==> |markers| <= fault.at
      {
        var c := cands[i];
        MarkersNext(s, cands, i);
        MarkersPrefix(s, cands, i + 1);
        MarkingNext(s.unresolved, cands, i);
        var record := m[c.txn];
        if record.stagedFinalize.None? {
          if fault.MarkerFails? && fault.at == |markers| {
            log := log + if fault.persisted then markers + [Finalize(c.txn, c.commit)] else markers;
            return false;
          }
          markers := markers + [Finalize(c.txn, c.commit)];
          m := m[c.txn := record.(retainedFileBytes := record.retainedFileBytes + 32, stagedFinalize := Some(c.commit))];
        }
        i := i + 1;
      }
      assert cands[..i] == cands;
      log := log + markers;
      state := Enabled(s.(fileBytes := s.fileBytes + 32 * |markers|, unresolved := m));
      return true;
    }

    /** Moving each candidate from the unresolved records to the published batches. */
    method Promote(cands: seq<FinalizeCandidate>, immediate: bool, ghost s: Stream)
      requires state.Enabled? && FinalizersKnown(s, cands) && Distinct(cands) && Reserved(s.unresolved)
      requires state.stream == Promoting(s, cands, immediate, 0, state.stream.checkpointed)
      modifies this`state
      ensures state == Enabled(Promoting(s, cands, immediate, |cands|, old(state.stream.checkpointed)))
      ensures Appends(s, cands, state.stream)
    {
      PromotingAppends(s, cands, immediate, state.stream.checkpointed);
      hide Promoting, Appends;
      ghost var start := state.stream.checkpointed;
      var i := 0;
      while i < |cands|
        invariant i <= |cands| && state == Enabled(Promoting(s, cands, immediate, i, start))
      {
        var c, t := cands[i], state.stream;
        PromotingNext(s, cands, immediate, i, start);
        var record := t.unresolved[c.txn];
        var b := Resolve(record.batch, c.commit);
        state := Enabled(t.(unresolved := t.unresolved - {c.txn},
                            finalizeVersions := t.finalizeVersions[c.txn := c.commit],
                            batchFileBytes := t.batchFileBytes + [BatchFileBytes(record.preparedFileBytes, record.retainedFileBytes)],
                            batches := t.batches + [b],
                            checkpointed := if immediate then c.prepared.after else t.checkpointed,
                            pending := if immediate then t.pending else t.pending[b.sequence := c.txn]));
        i := i + 1;
      }
    }

    /** Publishing committed transactions in reservation order, with or without its own barrier. */
    method FinalizeBatch(cands: seq<FinalizeCandidate>, immediate: bool,
                         fault: FinalizeFault) returns (r: Result<nat, StreamError>)
      requires Valid()
      modifies this`state, this`log, this`synced, this`syncs
      ensures Valid()
      ensures (V(), r) == FinalizeCall(old(V()), cands, immediate, fault)
      ensures r.Ok? ==> old(state.Enabled?) && state.Enabled? &&
                        (AllAmong(cands, old(state.stream.batches)) || Appends(old(state.stream), cands, state.stream))
    {
      FinalizeMeans(V(), cands, immediate, fault);
      hide AllAmong, Appends, FinalizeError, AlreadyPublished, Finalized, MarkersToStage, FinalizersKnown, Distinct, WithMarkers,
           Promoting, Reserved;
      if cands == [] { return Err(InvalidRecord(EmptyFinalizeBatch)); }
      if !state.Enabled? { return Err(StreamUnavailable); }
      ghost var s := state.stream;
      var published := AllPublished(cands);
      if published {
        NothingToPublish(s, cands, immediate);
        return Ok(0);
      }
      var e := CheckFinalize(cands, immediate);
      if e.Some? { return Err(e.value); }
      FinalKnown(s, cands, immediate);
      AcceptedDistinct(s, cands, immediate);
      var before := |log|;
      var appended := AppendMarkers(cands, fault);
      if !appended || (immediate && fault.SyncFails?) {
        WithMarkersFacts(s, cands);
        Poison();
        return Err(Io);
      }
      var count := |log| - before;
      WithMarkersFacts(s, cands);
      if immediate { Sync(); }
      ReadyToPromote(s, cands, immediate);
      ghost var start := state.stream.checkpointed;
      Promote(cands, immediate, s);
      assert !immediate ==> start == s.checkpointed by { SameCheckpoint(s, cands); }
      PromotedAll(s, cands, immediate, start);
      return Ok(count);
    }

    /** The explicit barrier for markers left by pipelined finalizes. */
    method CheckpointPendingFinalizes(syncing: bool) returns (r: Result<nat, StreamError>)
      requires Valid()
      modifies this`state, this`synced, this`syncs
      ensures Valid()
      ensures (V(), r) == CheckpointCall(old(V()), syncing)
    {
      if !state.Enabled? || state.stream.pending == map[] { return Ok(0); }
      if !syncing {
        Poison();
        return Err(Io);
      }
      Sync();
      return Ok(1);
    }

    /** Giving up the newest reservation. */
    method Abandon(txn: u64) returns (r: Result<bool, StreamError>)
      requires Valid()
      modifies this`state
      ensures Valid()
      ensures (V(), r) == AbandonCall(old(V()), txn)
    {
      hide IsTail;
      if !state.Enabled? { return Ok(false); }
      var m := state.stream.unresolved;
      if txn in m {
        var newest := NewestReservation(m);
        if newest != Some(txn) { return Err(InvalidRecord(NotChainTail)); }
      }
      state := Enabled(state.stream.(unresolved := m - {txn}));
      return Ok(txn in m);
    }

    // -------------------------------------------------------------------------
    // Read
    // -------------------------------------------------------------------------

    method Read(c: Cursor, maxBatches: nat, maxBytes: u64) returns (r: Result<ReadResult, StreamError>)
      requires Valid()
      ensures r == ReadCall(V(), c, maxBatches, maxBytes)
    {
      hide StartAt, SelectFrom;
      if !state.Enabled? { return Err(if state.Disabled? then StreamDisabled else StreamUnavailable); }
      var h, batches := state.stream.header, state.stream.batches;
      if c.storageId != h.storageId { return Err(ContextMismatch); }
      if c.generation != h.generation { return Err(StreamIdentityMismatch); }
      var current := EffectiveCurrent(h, batches);
      if c.frontier < h.earliest || c.frontier > current { return Err(HistoryUnavailable); }
      if c.frontier == current { return Ok(ReadResult([], current, false)); }
      var start := FindStart(batches, c.frontier);
      if start.None? { return Err(HistoryUnavailable); }
      var selected := SelectBatches(batches, state.stream.batchFileBytes, start.value, c.frontier, maxBatches, maxBytes);
      if selected.Err? { return Err(selected.error); }
      return Ok(ReadResult(selected.value.0, current, selected.value.1 != current));
    }

    // -------------------------------------------------------------------------
    // Pins and GC
    // -------------------------------------------------------------------------

    method AcquirePin(c: Cursor) returns (r: Result<Pin, StreamError>)
      requires Valid()
      modifies this`pins
      ensures Valid() && (V(), r) == AcquireCall(old(V()), c)
    {
      if !state.Enabled? { return Err(if state.Disabled? then StreamDisabled else StreamUnavailable); }
      var e := CursorError(state.stream.header, EffectiveCurrent(state.stream.header, state.stream.batches), c);
      if e.Some? { return Err(e.value); }
      var id := pins.nextId;
      if id == MAX_U64 { return Err(VersionExhausted); }
      var entry := PinEntry(c.storageId, c.generation, c.frontier);
      pins := PinRegistry(id + 1, pins.pins[id := entry]);
      return Ok(Pin(id, entry, true));
    }

    method AdvancePin(pin: Pin, frontier: u64) returns (r: Result<Pin, StreamError>)
      requires Valid()
      modifies this`pins
      ensures Valid() && (V(), r) == AdvanceCall(old(V()), pin, frontier)
    {
      var p := pin.entry;
      if frontier < p.frontier { return Err(RetentionPinRegression(p.frontier, frontier)); }
      if !state.Enabled? { return Err(StreamIdentityMismatch); }
      var e := CursorError(state.stream.header, EffectiveCurrent(state.stream.header, state.stream.batches),
                           Cursor(p.storageId, p.generation, frontier));
      if e.Some? { return Err(e.value); }
      if !pin.active || pin.id !in pins.pins { return Err(RetentionPinUnavailable); }
      var entry := pins.pins[pin.id];
      if entry.storageId != p.storageId || entry.generation != p.generation { return Err(RetentionPinUnavailable); }
      pins := pins.(pins := pins.pins[pin.id := entry.(frontier := frontier)]);
      return Ok(pin.(entry := p.(frontier := frontier)));
    }

    /** Everything GC checks before it writes; the number of batches it may drop. */
    method CheckGc(frontier: u64) returns (r: Result<nat, StreamError>)
      requires Valid()
      ensures match r
              case Err(e) => GcRefusal(V(), frontier) == Some(e)
              case Ok(first) => GcRefusal(V(), frontier).None? && first == Reclaimable(state.stream.batches, frontier)
      ensures !state.Enabled? ==> r == Err(if state.Disabled? then StreamDisabled else StreamUnavailable)
      ensures state.Enabled? ==>
                var s := state.stream;
                && (r == Err(Busy) <==> s.unresolved.Keys != {})
                && (r == Err(FinalizeCheckpointPending) <==> s.unresolved.Keys == {} && s.pending.Keys != {})
                && (s.unresolved.Keys == {} && s.pending.Keys == {} ==>
                      if Acceptance.PinsAllow(s.header, pins.pins, frontier) then
                        if Acceptance.CutsAt(s, frontier) then r.Ok? else r == Err(HistoryUnavailable)
                      else
                        && r.Err? && r.error.RetentionPinned? && r.error.requested == frontier
                        && Acceptance.LowestAt(s.header, pins.pins, r.error.pinned))
    {
      hide Reclaimable, Acceptance.PinsAllow, Acceptance.LowestAt, Acceptance.CutsAt;
      if !state.Enabled? { return Err(if state.Disabled? then StreamDisabled else StreamUnavailable); }
      Acceptance.GcCheckAnswers(V(), frontier);
      var s := state.stream;
      if s.unresolved != map[] { return Err(Busy); }
      if s.pending != map[] { return Err(FinalizeCheckpointPending); }
      var lowest := LowestPinned(s.header, pins.pins);
      PinnedIs(s.header, pins.pins, lowest);
      if lowest.Some? && frontier > lowest.value { return Err(RetentionPinned(frontier, lowest.value)); }
      var current := EffectiveCurrent(s.header, s.batches);
      if frontier < s.header.earliest || frontier > current { return Err(HistoryUnavailable); }
      var first := FirstRetained(s.batches, frontier);
      if first < |s.batches| && s.batches[first].before != frontier { return Err(HistoryUnavailable); }
      if first == |s.batches| && frontier != current { return Err(HistoryUnavailable); }
      return Ok(first);
    }

    /** Rewriting the log without the batches at or before `frontier`. */
    method GcThrough(frontier: u64, rewrites: bool) returns (r: Result<GcReport, StreamError>)
      requires Valid()
      modifies this`state, this`head, this`log, this`synced, this`guard
      ensures Valid()
      ensures (V(), r) == GcCall(old(V()), frontier, rewrites)
    {
      hide RetainedLog, Reclaimable, TxnsOf, FileSize, Reserved;
      var first := CheckGc(frontier);
      if first.Err? { return Err(first.error); }
      RefusedUnlessEnabled(V(), frontier);
      var s, k := state.stream, first.value;
      var current := EffectiveCurrent(s.header, s.batches);
      hide GcRefusal;
      if frontier == s.header.earliest && s.header.version == FORMAT_VERSION { return Ok(GcReport(0, s.fileBytes, s.fileBytes)); }
      var h := s.header.(version := FORMAT_VERSION, active := true, earliest := frontier, current := current, nextSequence := s.nextSequence);
      var rewritten := RewriteRetained(h, s.batches[k..], s.finalizeVersions);
      if !rewrites { return Err(Io); }
      if rewritten.Err? { return Err(rewritten.error); }
      var versions := WithoutTxns(s.finalizeVersions, s.batches[..k]);
      head, log, guard := ActiveLog(h), rewritten.value.0, Some(h.generation);
      synced := |log|;
      state := Enabled(s.(header := h, fileBytes := rewritten.value.1, batches := s.batches[k..], batchFileBytes := s.batchFileBytes[k..],
                          finalizeVersions := versions, checkpointed := current));
      return Ok(GcReport(k, s.fileBytes, rewritten.value.1));
    }

    // -------------------------------------------------------------------------
    // Incarnations
    // -------------------------------------------------------------------------

    /** A manager before its first incarnation. */
    constructor (kind: StorageKind, storageId: u64, tableId: u64, fingerprint: Fingerprint)
      ensures Valid() && V() == View(Disabled(0), NoLog, [], 0, 0, PinRegistry(0, map[]), None)
      ensures this.kind == kind && this.storageId == storageId && this.tableId == tableId && this.fingerprint == fingerprint
    {
      this.kind, this.storageId, this.tableId, this.fingerprint := kind, storageId, tableId, fingerprint;
      state, head, log, synced, syncs, pins, guard := Disabled(0), NoLog, [], 0, 0, PinRegistry(0, map[]), None;
    }

    /** Starting an incarnation under the next generation.  The cursor returned is at
        its end, and no older cursor reads from it; a failed replacement uses the
        generation up. */
    method Enable(baseline: u64, replace: Replace) returns (r: Result<Cursor, StreamError>)
      requires Valid()
      modifies this`state, this`head, this`log, this`synced, this`guard
      ensures Valid()
      ensures (V(), r) == EnableCall(old(V()), kind, storageId, tableId, fingerprint, baseline, replace)
      ensures old(state.Enabled?) ==> V() == old(V())
      ensures r.Ok? <==> state.Enabled?
      ensures r.Ok? && !old(state.Enabled?) ==>
                && r.value.generation == PriorGeneration(old(state)) + 1 == PriorGeneration(state)
                && (forall n: nat, bytes: u64 :: ReadCall(V(), r.value, n, bytes) == Ok(ReadResult([], baseline, false)))
                && (forall c: Cursor, n: nat, bytes: u64 :: c.generation <= PriorGeneration(old(state)) ==> ReadCall(V(), c, n, bytes).Err?)
      ensures r.Err? && old(PriorGeneration(state)) < MAX_U64 ==> state == Unavailable(Some(PriorGeneration(old(state)) + 1))
    {
      if state.Enabled? {
        var s := state.stream;
        return Ok(Cursor(s.header.storageId, s.header.generation, EffectiveCurrent(s.header, s.batches)));
      }
      var prior := PriorGeneration(state);
      if prior == MAX_U64 { return Err(VersionExhausted); }
      var h := Header(FORMAT_VERSION, true, kind, storageId, tableId, fingerprint, prior + 1, baseline, baseline, baseline, 1);
      if replace != ReplaceFailed(NothingWritten) {
        head, log, synced := ActiveLog(h), [], 0;
        if replace != ReplaceFailed(HeaderWritten) { guard := Some(prior + 1); }
      }
      if replace.ReplaceFailed? {
        state := Unavailable(Some(prior + 1));
        return Err(Io);
      }
      state := Enabled(Stream(h, HeaderSize(h), [], [], map[], map[], map[], baseline, 1));
      return Ok(Cursor(storageId, prior + 1, baseline));
    }

    /** Ending an incarnation: its generation stays used, and every cursor is refused. */
    method Disable(replace: Replace) returns (r: Result<bool, StreamError>)
      requires Valid()
      modifies this`state, this`head, this`log, this`synced, this`guard
      ensures Valid()
      ensures (V(), r) == DisableCall(old(V()), replace)
      ensures PriorGeneration(state) == PriorGeneration(old(state)) && (r == Ok(true) ==> guard.None?)
      ensures r.Err? && replace == ReplaceFailed(NothingWritten) ==> V() == old(V())
      ensures r.Ok? || replace != ReplaceFailed(NothingWritten) ==> state == Disabled(PriorGeneration(old(state)))
      ensures state.Disabled? ==> forall c: Cursor, n: nat, bytes: u64 :: ReadCall(V(), c, n, bytes) == Err(StreamDisabled)
    {
      if state.Disabled? { return Ok(false); }
      if replace == ReplaceFailed(NothingWritten) { return Err(Io); }
      state, head, log, synced := Disabled(PriorGeneration(state)), InactiveLog(PriorGeneration(state)), [], 0;
      if replace == ReplaceFailed(HeaderWritten) { return Err(Io); }
      guard := None;
      if replace.ReplaceFailed? { return Err(Io); }
      return Ok(true);
    }
  }

  lemma RefusedUnlessEnabled(v: View, frontier: u64)
    ensures GcRefusal(v, frontier).None? ==> v.state.Enabled?
  {
  }

  lemma PinnedIs(h: Header, pins: map<u64, PinEntry>, lowest: Option<u64>)
    requires lowest.Some? ==> exists id :: LowestPin(h, pins, id) && pins[id].frontier == lowest.value
    requires lowest.None? ==> forall id :: id in pins ==> !LivePin(h, pins[id])
    ensures Pinned(h, pins) == lowest
  {
  }

  /** Dropping the commit identities of the reclaimed batches, one by one. */
  method WithoutTxns(versions: map<u64, Option<u64>>, removed: seq<Batch>) returns (r: map<u64, Option<u64>>)
    ensures r == versions - TxnsOf(removed)
  {
    r := versions;
    var i := 0;
    while i < |removed|
      invariant i <= |removed| && r == versions - TxnsOf(removed[..i])
    {
      assert removed[..i + 1] == removed[..i] + [removed[i]];
      TxnsAppend(removed[..i], removed[i]);
      r := r - {removed[i].txn};
      i := i + 1;
    }
    assert removed[..i] == removed;
  }

  lemma MarkNobody(m: map<u64, PreparedRecord>, cands: seq<PrepareCandidate>)
    ensures MarkDurable(m, CandidateIds(cands[..0])) == m
  {
  }

  lemma MarkKeepsReserved(m: map<u64, PreparedRecord>, ids: set<u64>)
    requires Reserved(m)
    ensures Reserved(MarkDurable(m, ids))
  {
  }

  lemma {:induction false} MarkOneMore(m: map<u64, PreparedRecord>, cands: seq<PrepareCandidate>, i: nat)
    requires i < |cands| && cands[i].txn in m
    ensures var before, t := MarkDurable(m, CandidateIds(cands[..i])), cands[i].txn;
            t in before && MarkDurable(m, CandidateIds(cands[..i + 1])) == before[t := before[t].(preparedDurable := true)]
  {
    IdsGrow(cands, i);
  }

  lemma {:induction false} IdsGrow(cands: seq<PrepareCandidate>, i: nat)
    requires i < |cands|
    ensures CandidateIds(cands[..i + 1]) == CandidateIds(cands[..i]) + {cands[i].txn}
  {
    var a, b := cands[..i + 1], cands[..i];
    forall t | t in CandidateIds(b) ensures t in CandidateIds(a) {
      var k :| 0 <= k < |b| && b[k].txn == t;
      assert a[k].txn == t;
    }
    assert a[i] == cands[i];
  }

  /** The stream once every marker is in the file. */
  function WithMarkers(s: Stream, cands: seq<FinalizeCandidate>): Stream
    requires FinalizersKnown(s, cands)
  {
    s.(fileBytes := s.fileBytes + 32 * |MarkersToStage(s, cands)|, unresolved := Marking(s.unresolved, cands, |cands|))
  }

  lemma NoMarkers(s: Stream, cands: seq<FinalizeCandidate>)
    requires FinalizersKnown(s, cands)
    ensures MarkersToStage(s, cands[..0]) == [] && Marking(s.unresolved, cands, 0) == s.unresolved
  {
  }

  lemma {:induction false} MarkingNext(m: map<u64, PreparedRecord>, cands: seq<FinalizeCandidate>, i: nat)
    requires i < |cands| && Distinct(cands) && forall k :: 0 <= k < |cands| ==> cands[k].txn in m
    ensures var before, c := Marking(m, cands, i), cands[i];
            && c.txn in before && before[c.txn] == m[c.txn]
            && Marking(m, cands, i + 1) ==
               if m[c.txn].stagedFinalize.Some? then before
               else before[c.txn := m[c.txn].(retainedFileBytes := m[c.txn].retainedFileBytes + 32, stagedFinalize := Some(c.commit))]
  {
    MarkingAt(m, cands, i, cands[i].txn);
    NamedNext(cands, i, cands[i].txn);
  }

  /** The stream while the first `i` candidates have been promoted. */
  function Promoting(s: Stream, cands: seq<FinalizeCandidate>, immediate: bool, i: nat, start: u64): Stream
    requires i <= |cands| && FinalizersKnown(s, cands)
  {
    s.(fileBytes := s.fileBytes + 32 * |MarkersToStage(s, cands)|,
       batches := s.batches + Promoted(s, cands)[..i],
       batchFileBytes := s.batchFileBytes + PromotedBytes(s, cands)[..i],
       finalizeVersions := s.finalizeVersions + CommitMap(cands[..i]),
       unresolved := Marking(s.unresolved, cands, |cands|) - FinalizerIds(cands[..i]),
       pending := if immediate then map[] else s.pending + PendingOf(Promoted(s, cands)[..i]),
       checkpointed := if immediate && i > 0 then cands[i - 1].prepared.after else start)
  }

  lemma {:induction false} PromotingAppends(s: Stream, cands: seq<FinalizeCandidate>, immediate: bool, start: u64)
    requires FinalizersKnown(s, cands)
    ensures Appends(s, cands, Promoting(s, cands, immediate, |cands|, start))
  {
    hide Appends, Marking, MarkersToStage, CommitMap, PendingOf, PromotedBytes;
    assert Promoted(s, cands)[..|cands|] == Promoted(s, cands);
    PromotedMeans(s, cands, Promoting(s, cands, immediate, |cands|, start));
  }

  lemma {:induction false} FinalizersGrow(cands: seq<FinalizeCandidate>, i: nat)
    requires i < |cands|
    ensures FinalizerIds(cands[..i + 1]) == FinalizerIds(cands[..i]) + {cands[i].txn}
  {
    var a, b := cands[..i + 1], cands[..i];
    forall t | t in FinalizerIds(b) ensures t in FinalizerIds(a) {
      var k :| 0 <= k < |b| && b[k].txn == t;
      assert a[k].txn == t;
    }
    assert a[i] == cands[i];
  }

  /** The record a promotion step takes out, and what it adds. */
  lemma {:induction false} PromotedRecord(s: Stream, cands: seq<FinalizeCandidate>, i: nat)
    requires i < |cands| && FinalizersKnown(s, cands) && Distinct(cands)
    ensures cands[i].txn !in FinalizerIds(cands[..i])
    ensures Promoted(s, cands)[i] == Resolve(Marking(s.unresolved, cands, |cands|)[cands[i].txn].batch, cands[i].commit)
    ensures PromotedBytes(s, cands)[i] ==
            BatchFileBytes(Marking(s.unresolved, cands, |cands|)[cands[i].txn].preparedFileBytes,
                           Marking(s.unresolved, cands, |cands|)[cands[i].txn].retainedFileBytes)
  {
    hide Resolve, Marking;
    MarkingAt(s.unresolved, cands, |cands|, cands[i].txn);
    forall k | 0 <= k < i ensures cands[..i][k].txn != cands[i].txn {}
  }

  lemma {:induction false} PromotingNext(s: Stream, cands: seq<FinalizeCandidate>, immediate: bool, i: nat, start: u64)
    requires i < |cands| && FinalizersKnown(s, cands) && Distinct(cands) && Reserved(s.unresolved)
    ensures var t, c := Promoting(s, cands, immediate, i, start), cands[i];
            && c.txn in t.unresolved
            && var record := t.unresolved[c.txn];
               var b := Resolve(record.batch, c.commit);
               Promoting(s, cands, immediate, i + 1, start) ==
               t.(unresolved := t.unresolved - {c.txn},
                  finalizeVersions := t.finalizeVersions[c.txn := c.commit],
                  batchFileBytes := t.batchFileBytes + [BatchFileBytes(record.preparedFileBytes, record.retainedFileBytes)],
                  batches := t.batches + [b],
                  checkpointed := if immediate then c.prepared.after else t.checkpointed,
                  pending := if immediate then t.pending else t.pending[b.sequence := c.txn])
  {
    hide Resolve, Marking, MarkersToStage, FinalizerIds, CommitMap, PendingOf, Promoted, PromotedBytes;
    var c := cands[i];
    PromotedRecord(s, cands, i);
    FinalizersGrow(cands, i);
    var m := Marking(s.unresolved, cands, |cands|);
    assert m - FinalizerIds(cands[..i + 1]) == (m - FinalizerIds(cands[..i])) - {c.txn};
    CommitsGrow(cands, i);
    Overwrite(s.finalizeVersions, CommitMap(cands[..i]), c.txn, c.commit);
    Extends(s.batches, Promoted(s, cands), i);
    Extends(s.batchFileBytes, PromotedBytes(s, cands), i);
    PendingGrows(Promoted(s, cands), i);
    PromotedTxn(s, cands, i);
    Overwrite(s.pending, PendingOf(Promoted(s, cands)[..i]), Promoted(s, cands)[i].sequence, Promoted(s, cands)[i].txn);
  }

  lemma {:induction false} CommitsGrow(cands: seq<FinalizeCandidate>, i: nat)
    requires i < |cands|
    ensures CommitMap(cands[..i + 1]) == CommitMap(cands[..i])[cands[i].txn := cands[i].commit]
  {
    assert cands[..i + 1][..i] == cands[..i];
  }

  lemma {:induction false} PendingGrows(bs: seq<Batch>, i: nat)
    requires i < |bs|
    ensures PendingOf(bs[..i + 1]) == PendingOf(bs[..i])[bs[i].sequence := bs[i].txn]
  {
    assert bs[..i + 1][..i] == bs[..i];
  }

  lemma Extends<T>(a: seq<T>, b: seq<T>, i: nat)
    requires i < |b|
    ensures a + b[..i + 1] == (a + b[..i]) + [b[i]]
  {
  }

  lemma PromotedTxn(s: Stream, cands: seq<FinalizeCandidate>, i: nat)
    requires i < |cands| && FinalizersKnown(s, cands)
    ensures Promoted(s, cands)[i].txn == s.unresolved[cands[i].txn].batch.txn
  {
  }

  lemma NothingToPublish(s: Stream, cands: seq<FinalizeCandidate>, immediate: bool)
    requires cands != [] && AlreadyPublished(s, cands)
    ensures FinalizeError(s, cands, immediate).None?
  {
  }

  /** Appending markers changes no identity. */
  lemma {:induction false} WithMarkersFacts(s: Stream, cands: seq<FinalizeCandidate>)
    requires FinalizersKnown(s, cands) && Distinct(cands) && Reserved(s.unresolved)
    ensures var t := WithMarkers(s, cands);
            && t.header == s.header && t.batches == s.batches && t.batchFileBytes == s.batchFileBytes && Reserved(t.unresolved)
  {
    hide Marking, MarkersToStage;
    var m := Marking(s.unresolved, cands, |cands|);
    forall t | t in m ensures m[t].batch == s.unresolved[t].batch {
      MarkingAt(s.unresolved, cands, |cands|, t);
    }
  }

  lemma SameCheckpoint(s: Stream, cands: seq<FinalizeCandidate>)
    requires FinalizersKnown(s, cands)
    ensures WithMarkers(s, cands).checkpointed == s.checkpointed
  {
  }

  lemma {:induction false} ReadyToPromote(s: Stream, cands: seq<FinalizeCandidate>, immediate: bool)
    requires FinalizersKnown(s, cands)
    ensures var t := WithMarkers(s, cands);
            var u := if immediate then Synced(t) else t;
            u == Promoting(s, cands, immediate, 0, u.checkpointed)
  {
    hide Marking, MarkersToStage;
    assert cands[..0] == [] && Promoted(s, cands)[..0] == [] && PromotedBytes(s, cands)[..0] == [];
    assert s.batches + [] == s.batches && s.batchFileBytes + [] == s.batchFileBytes;
    assert CommitMap([]) == map[] && FinalizerIds([]) == {} && PendingOf([]) == map[];
    var m := Marking(s.unresolved, cands, |cands|);
    assert m - {} == m;
  }

  /** Promoting every candidate is publishing them. */
  lemma {:induction false} PromotedAll(s: Stream, cands: seq<FinalizeCandidate>, immediate: bool, start: u64)
    requires cands != [] && FinalizersKnown(s, cands) && Distinct(cands) && Reserved(s.unresolved)
    requires |s.batches| == |s.batchFileBytes| && (!immediate ==> start == s.checkpointed)
    ensures Promoting(s, cands, immediate, |cands|, start) == Finalized(s, cands, immediate)
    ensures var t := Finalized(s, cands, immediate); |t.batches| == |t.batchFileBytes| && Reserved(t.unresolved)
  {
    hide Marking, MarkersToStage, CommitMap, PendingOf;
    var n := |cands|;
    assert cands[..n] == cands && Promoted(s, cands)[..n] == Promoted(s, cands) && PromotedBytes(s, cands)[..n] == PromotedBytes(s, cands);
    var m, ids := Marking(s.unresolved, cands, n), FinalizerIds(cands);
    forall t | t in m && t !in ids ensures m[t] == s.unresolved[t] {
      MarkingAt(s.unresolved, cands, n, t);
      forall i | 0 <= i < n ensures cands[i].txn != t { assert cands[i].txn in ids; }
    }
    assert m - ids == s.unresolved - ids;
  }
}
