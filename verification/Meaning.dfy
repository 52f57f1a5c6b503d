/** What the calls of a manager come to in every reachable world, and what an open
    gives back, said of the records in the file and of the versions readers see. */
module Meaning {
  import opened Wrappers
  import opened Widths
  import opened ChangeTypes
  import opened Codec
  import opened LogFile
  import opened Loading
  import opened LogViews
  import opened StreamSpec
  import opened DiskInvariant
  import opened StreamInvariant
  import opened Recovery
  import opened RecoveryProof
  import opened CrashSafety
  import opened ProtocolSteps
  import opened ProtocolFinalize
  import opened ProtocolGc
  import opened Replay
  import opened World
  import opened Runs
  import opened RunTheorems
  import opened ManagerSpec
  import opened ManagerRuns

  // ---------------------------------------------------------------------------
  // Staging
  // ---------------------------------------------------------------------------

  /** What staging a new transaction leaves: a reservation that holds what it was
      given, under the next sequence, behind the records already in the file. */
  predicate StagedNew(v: View, txn: u64, databaseTxn: Option<u64>, changes: seq<Change>, v': View) {
    && v.state.Enabled? && v'.state.Enabled? && v'.head == v.head && v'.synced == v.synced && v'.syncs == v.syncs && v'.pins == v.pins && v'.guard == v.guard
    && var s, s' := v.state.stream, v'.state.stream;
       && s'.unresolved.Keys == s.unresolved.Keys + {txn} && (forall t :: t in s.unresolved ==> s'.unresolved[t] == s.unresolved[t])
       && s'.batches == s.batches && s'.header == s.header && s'.nextSequence == s.nextSequence + 1
       && var r := s'.unresolved[txn];
          && r.batch.txn == txn && r.batch.databaseTxn == databaseTxn && r.batch.mutations == changes && r.batch.sequence == s.nextSequence
          && r.batch.tableId == s.header.tableId && r.batch.storageId == s.header.storageId && r.batch.fingerprint == s.header.fingerprint
          && r.batch.after == r.batch.before + 1 && !r.preparedDurable && v'.log == v.log + [Prepared(r.batch)]
  }

  /** A stage call answers nothing for no changes or a disabled stream; otherwise it
      answers the reservation the transaction has, or now gets. */
  lemma {:induction false} StageMeans(v: View, txn: u64, databaseTxn: Option<u64>, changes: seq<Change>, append: Append)
    ensures var (v', r) := StageCall(v, txn, databaseTxn, changes, append);
            && (r == Ok(None) <==> changes == [] || v.state.Disabled?)
            && (r.Ok? && r.value.Some? ==>
                  && v'.state.Enabled? && txn in v'.state.stream.unresolved && Identity(v'.state.stream.unresolved[txn].batch) == r.value.value
                  && if v.state.Enabled? && txn in v.state.stream.unresolved then v' == v else StagedNew(v, txn, databaseTxn, changes, v'))
  {
    hide EncodeError, RecordSize, IsTail;
  }

  /** The next reservation starts at the committed frontier, moved on by the number of reservations. */
  lemma {:induction false} ReservedIs(w: World)
    requires Inv(w) && w.state.Enabled?
    ensures ReservedFrontier(w.state.stream) == Current(w.state.stream) + |w.state.stream.unresolved|
  {
    hide DiskInv, StreamInv, PinsInv, PreparedOf, LiveOf, UnresolvedInv, Current, ReservationOrder;
    var s, d := w.state.stream, w.file.disk;
    StreamFacts(s, d, w.truth, w.history);
    var rest, durable := Rest(s, d, w.truth), |SyncedLive(d, w.truth)| - |s.batches|;
    OrderIsChain(s.unresolved, rest, durable);
    TailIsLast(s.unresolved, rest, durable);
    assert |s.unresolved| == |s.unresolved.Keys|;
    if rest != [] { ReservationAt(s.unresolved, rest, durable, |rest| - 1); }
  }

  /** In every reachable world the reservation starts where the last one ends: at the
      committed frontier, moved on by the number of reservations. */
  lemma {:induction false} StageContinues(w: World, syncs: nat, txn: u64, databaseTxn: Option<u64>, changes: seq<Change>)
    requires Inv(w) && w.state.Enabled? && txn !in w.state.stream.unresolved
    ensures var (v, r) := StageCall(ViewOf(w, syncs), txn, databaseTxn, changes, Appended);
            r.Ok? && r.value.Some? ==> r.value.value.before == Current(w.state.stream) + |w.state.stream.unresolved|
  {
    hide Inv, EncodeError, RecordSize, Current, IsTail;
    SameState(w, syncs);
    ReservedIs(w);
  }

  // ---------------------------------------------------------------------------
  // The barrier
  // ---------------------------------------------------------------------------

  lemma {:induction false} PreparedInLog(log: seq<Record>, b: Batch)
    requires b in PreparedOf(log)
    ensures Prepared(b) in log
  {
    var n := |log| - 1;
    if b in PreparedOf(log[..n]) { PreparedInLog(log[..n], b); }
  }

  /** A record that counts as durable is among the records that count as synced. */
  lemma {:induction false} DurableIsSynced(s: Stream, d: Disk, truth: Ledger, history: seq<Batch>, t: u64)
    requires StreamInv(s, d, truth, history) && t in s.unresolved && s.unresolved[t].preparedDurable
    ensures d.synced <= |d.log| && Prepared(s.unresolved[t].batch) in d.log[..d.synced]
  {
    hide PreparedOf, MarkersOf, LiveOf, StreamInv, UnresolvedInv, DiskInv;
    StreamFacts(s, d, truth, history);
    var i := ReservationOf(s.unresolved, Rest(s, d, truth), |SyncedLive(d, truth)| - |s.batches|, t);
    ViewsPrefix(d.log, d.synced);
    LivePrefix(PreparedOf(d.log[..d.synced]), PreparedOf(d.log), truth);
    var b := Live(d, truth)[|s.batches| + i];
    assert b == SyncedLive(d, truth)[|s.batches| + i];
    LiveIn(PreparedOf(d.log[..d.synced]), truth, b);
    PreparedInLog(d.log[..d.synced], b);
  }

  /** A barrier that succeeds, in every reachable world: each record it was called for
      is durable and lies among the synced records of the file. */
  lemma {:induction false} BarrierReachesFile(w: World, syncs: nat, cands: seq<PrepareCandidate>, exact: bool, syncing: bool)
    requires Inv(w)
    ensures w.state.Enabled? ==> Reserved(w.state.stream.unresolved)
    ensures var (v, r) := DurabilizeCall(ViewOf(w, syncs), cands, exact, syncing);
            r.Ok? ==>
              && BarrierDone(ViewOf(w, syncs), cands, v, r.value) && v.synced <= |v.log|
              && forall i :: 0 <= i < |cands| ==> Prepared(v.state.stream.unresolved[cands[i].txn].batch) in v.log[..v.synced]
  {
    hide Inv, DurabilizeCall, StepDurabilize, StepDurabilizeFails, Reserved;
    DurabilizeIsStep(w, syncs, cands, exact, syncing);
    BarrierOfView(w, syncs, cands, exact, syncing);
    var (v, r) := DurabilizeCall(ViewOf(w, syncs), cands, exact, syncing);
    if r.Ok? {
      DurabilizeStepKeeps(w, cands, exact);
      var w' := BarrierWorld(w, cands, exact, syncing);
      forall i | 0 <= i < |cands|
        ensures v.synced <= |v.log| && Prepared(v.state.stream.unresolved[cands[i].txn].batch) in v.log[..v.synced]
      {
        SyncedInWorld(w', cands[i].txn);
      }
      SyncedBounded(w', v.syncs);
    }
  }

  lemma BarrierOfView(w: World, syncs: nat, cands: seq<PrepareCandidate>, exact: bool, syncing: bool)
    requires w.state.Enabled? ==> Reserved(w.state.stream.unresolved)
    ensures var (v, r) := DurabilizeCall(ViewOf(w, syncs), cands, exact, syncing);
            r.Ok? ==> BarrierDone(ViewOf(w, syncs), cands, v, r.value)
  {
    hide DurabilizeCall, BarrierDone, Reserved;
    SameState(w, syncs);
    BarrierMeans(ViewOf(w, syncs), cands, exact, syncing);
  }

  lemma {:induction false} SyncedInWorld(w: World, t: u64)
    requires Inv(w) && w.state.Enabled? && t in w.state.stream.unresolved && w.state.stream.unresolved[t].preparedDurable
    ensures w.file.Active? && w.file.disk.synced <= |w.file.disk.log|
    ensures Prepared(w.state.stream.unresolved[t].batch) in w.file.disk.log[..w.file.disk.synced]
  {
    hide StreamInv, DiskInv, PinsInv;
    DurableIsSynced(w.state.stream, w.file.disk, w.truth, w.history, t);
  }

  lemma {:induction false} SyncedBounded(w: World, syncs: nat)
    requires Inv(w)
    ensures ViewOf(w, syncs).synced <= |ViewOf(w, syncs).log|
  {
    hide StreamInv, PinsInv, WellFormedLog, ViewInv;
  }

  // ---------------------------------------------------------------------------
  // Finalize
  // ---------------------------------------------------------------------------

  /** In every reachable world a finalize answers that it wrote nothing if and only if
      it was given candidates and every one of them is among the published batches;
      otherwise it writes one marker for each. */
  lemma {:induction false} NothingWrittenIff(w: World, syncs: nat, cands: seq<FinalizeCandidate>, immediate: bool, fault: FinalizeFault)
    requires Inv(w) && w.state.Enabled?
    ensures FinalizeCall(ViewOf(w, syncs), cands, immediate, fault).1 == Ok(0) <==>
            cands != [] && AllAmong(cands, w.state.stream.batches)
    ensures var r := FinalizeCall(ViewOf(w, syncs), cands, immediate, fault).1;
            r.Ok? && r.value != 0 ==> r.value == |cands|
  {
    hide Inv, FinalizeError, MarkersToStage, AllAmong, Finalized, FinalizersKnown;
    var s := w.state.stream;
    SameState(w, syncs);
    AmongIff(s, cands);
    if cands != [] && AlreadyPublished(s, cands) { PublishedIsNoError(s, cands, immediate); }
    if FinalizeError(s, cands, immediate).None? && !AlreadyPublished(s, cands) {
      FinalKnown(s, cands, immediate);
      EveryMarker(w, cands);
    }
  }

  /** In every reachable world a finalize that publishes has written one marker for each
      candidate, in order, and synced them if it was to; their reservations are gone, and
      unless it synced each waits for its checkpoint. */
  lemma {:induction false} FinalizeWrites(w: World, syncs: nat, cands: seq<FinalizeCandidate>, immediate: bool, fault: FinalizeFault)
    requires Inv(w) && w.state.Enabled?
    ensures var v := ViewOf(w, syncs);
            var (v', r) := FinalizeCall(v, cands, immediate, fault);
            r.Ok? && r.value != 0 ==>
              && v'.state.Enabled? && v' == v.(state := v'.state, log := v'.log, synced := v'.synced, syncs := v'.syncs)
              && v'.log == v.log + seq(|cands|, i requires 0 <= i < |cands| => Record.Finalize(cands[i].txn, cands[i].commit))
              && v'.synced == (if immediate then |v'.log| else v.synced) && v'.syncs == v.syncs + (if immediate then 1 else 0)
              && var s, s' := v.state.stream, v'.state.stream;
                 && s'.unresolved == s.unresolved - (set i | 0 <= i < |cands| :: cands[i].txn)
                 && s'.header == s.header && s'.nextSequence == s.nextSequence && s'.fileBytes == s.fileBytes + 32 * |cands|
                 && (immediate ==> s'.pending == map[] && s'.checkpointed == cands[|cands| - 1].prepared.after)
                 && (!immediate ==>
                       && s'.checkpointed == s.checkpointed
                       && forall q :: q in s'.pending <==> q in s.pending || exists i :: 0 <= i < |cands| && cands[i].prepared.sequence == q)
  {
    hide Inv, FinalizeError, MarkersToStage, AlreadyPublished, PromotedBytes, CommitMap, Promoted, PendingOf;
    var s := w.state.stream;
    SameState(w, syncs);
    if FinalizeError(s, cands, immediate).None? && !AlreadyPublished(s, cands) {
      FinalKnown(s, cands, immediate);
      MarkersAre(w, cands);
      var bs := Promoted(s, cands);
      forall i | 0 <= i < |cands| ensures bs[i].sequence == cands[i].prepared.sequence { PromotedSequence(s, cands, immediate, i); }
      forall q ensures q in PendingOf(bs) <==> exists i :: 0 <= i < |cands| && cands[i].prepared.sequence == q {
        PendingOfIff(bs, q);
        if exists i :: 0 <= i < |bs| && bs[i].sequence == q {
          var i :| 0 <= i < |bs| && bs[i].sequence == q;
          assert cands[i].prepared.sequence == q;
        }
        if exists i :: 0 <= i < |cands| && cands[i].prepared.sequence == q {
          var i :| 0 <= i < |cands| && cands[i].prepared.sequence == q;
          assert bs[i].sequence == q;
        }
      }
    }
  }

  lemma {:induction false} PromotedSequence(s: Stream, cands: seq<FinalizeCandidate>, immediate: bool, i: nat)
    requires FinalizersKnown(s, cands) && i < |cands| && FinalizeErrorAt(s, cands, immediate, i).None?
    ensures Promoted(s, cands)[i].sequence == cands[i].prepared.sequence
  {
    hide CommittedError;
  }

  lemma {:induction false} PendingOfIff(bs: seq<Batch>, q: u64)
    ensures q in PendingOf(bs) <==> exists i :: 0 <= i < |bs| && bs[i].sequence == q
    decreases |bs|
  {
    if bs != [] {
      var n := |bs| - 1;
      PendingOfIff(bs[..n], q);
      if q in PendingOf(bs[..n]) { var i :| 0 <= i < n && bs[..n][i].sequence == q; assert bs[i].sequence == q; }
      if exists i :: 0 <= i < |bs| && bs[i].sequence == q {
        var i :| 0 <= i < |bs| && bs[i].sequence == q;
        if i < n { assert bs[..n][i].sequence == q; }
      }
    }
  }

  lemma {:induction false} MarkersAre(w: World, cands: seq<FinalizeCandidate>)
    requires Inv(w) && w.state.Enabled? && FinalizersKnown(w.state.stream, cands)
    ensures MarkersToStage(w.state.stream, cands) == seq(|cands|, i requires 0 <= i < |cands| => Record.Finalize(cands[i].txn, cands[i].commit))
    decreases |cands|
  {
    hide Inv;
    if cands != [] {
      var n := |cands| - 1;
      MarkersAre(w, cands[..n]);
      NotMarkedYet(w, cands[n].txn);
    }
  }

  lemma PublishedIsNoError(s: Stream, cands: seq<FinalizeCandidate>, immediate: bool)
    requires cands != [] && AlreadyPublished(s, cands)
    ensures FinalizeError(s, cands, immediate).None?
  {
  }

  /** No reservation of a reachable stream has its marker in the file already. */
  lemma {:induction false} EveryMarker(w: World, cands: seq<FinalizeCandidate>)
    requires Inv(w) && w.state.Enabled? && FinalizersKnown(w.state.stream, cands)
    ensures |MarkersToStage(w.state.stream, cands)| == |cands|
    decreases |cands|
  {
    hide Inv;
    if cands != [] {
      var n := |cands| - 1;
      EveryMarker(w, cands[..n]);
      NotMarkedYet(w, cands[n].txn);
    }
  }

  lemma {:induction false} NotMarkedYet(w: World, t: u64)
    requires Inv(w) && w.state.Enabled? && t in w.state.stream.unresolved
    ensures w.state.stream.unresolved[t].stagedFinalize.None?
  {
    hide StreamInv, DiskInv, PinsInv, UnresolvedInv, PreparedOf, LiveOf;
    var s, d := w.state.stream, w.file.disk;
    StreamFacts(s, d, w.truth, w.history);
    var i := ReservationOf(s.unresolved, Rest(s, d, w.truth), |SyncedLive(d, w.truth)| - |s.batches|, t);
  }

  // ---------------------------------------------------------------------------
  // Checkpoint and abandon
  // ---------------------------------------------------------------------------

  /** A checkpoint syncs, once, exactly when something was pending; then nothing is, the
      whole file counts as synced and the checkpoint is at the committed frontier. */
  lemma {:induction false} CheckpointMeans(v: View, syncing: bool)
    ensures var (v', r) := CheckpointCall(v, syncing);
            && (r.Ok? ==> r.value == (if v.state.Enabled? && v.state.stream.pending.Keys != {} then 1 else 0))
            && (r == Ok(0) ==> v' == v)
            && (r == Ok(1) ==>
                  && v'.state.Enabled? && v'.state.stream == v.state.stream.(pending := map[], checkpointed := Current(v.state.stream))
                  && v' == v.(state := v'.state, synced := |v.log|, syncs := v.syncs + 1))
  {
    hide Current;
    if v.state.Enabled? { assert v.state.stream.pending == map[] <==> v.state.stream.pending.Keys == {}; }
  }

  /** Abandoning removes that reservation and no other, and refuses exactly a
      reservation that another one was made after. */
  lemma {:induction false} AbandonMeans(v: View, txn: u64)
    requires v.state.Enabled?
    ensures var (v', r) := AbandonCall(v, txn);
            var m := v.state.stream.unresolved;
            && (r.Err? <==> txn in m && exists t :: t in m && t != txn && Earlier(m, txn, t))
            && (r.Err? ==> v' == v && r.error == InvalidRecord(NotChainTail))
            && (r.Ok? ==>
                  && (r.value <==> txn in m) && v'.state.Enabled?
                  && v' == v.(state := Enabled(v.state.stream.(unresolved := m - {txn}))))
  {
    var m := v.state.stream.unresolved;
    if txn in m {
      var tail := Tail(m);
      if tail != txn { assert Earlier(m, txn, tail); }
    }
  }

  // ---------------------------------------------------------------------------
  // Which versions readers see
  // ---------------------------------------------------------------------------

  /** In every reachable world batch `i` of the unreclaimed history is the reservation
      it was prepared as, under the version its commit gives it. */
  lemma {:induction false} HistoryIsPublished(d: Disk, truth: Ledger, history: seq<Batch>, i: nat)
    requires DiskInv(d, truth, history) && i < |Unreclaimed(d.header, history)|
    ensures i < |Live(d, truth)| && OutcomeOf(truth, Live(d, truth)[i].txn).Committed?
    ensures PublishedAs(Live(d, truth)[i], OutcomeOf(truth, Live(d, truth)[i].txn).commit, Unreclaimed(d.header, history)[i])
  {
    hide DiskInv, LiveOf, PreparedOf, Resolve, PublishedAs, HistoryFits;
    FactsForLoad(d, truth, history);
    CommittedAt(d, truth, history, i);
    ResolvePublishes(Live(d, truth)[i], OutcomeOf(truth, Live(d, truth)[i].txn).commit, Unreclaimed(d.header, history)[i]);
  }

  /** Opening what any machine crash left: batch `i` is the `i`-th live record of the
      log as it was prepared, under the version its commit gives it. */
  lemma {:induction false} RecoveredIsPublished(crc: Checksum, d: Disk, truth: Ledger, history: seq<Batch>, outcome: u64 -> Outcome, cut: nat)
    requires DiskInv(d, truth, history)
    requires FileSize(d.header, d.log[..d.synced]) <= cut <= FileSize(d.header, d.log)
    requires Reports(outcome, truth, MarkersOf(d.log[..d.synced]))
    ensures LoadableLog(d.header, d.log)
    ensures var reopened := OpenBytes(crc, FileBytes(crc, d.header, d.log)[..cut], outcome);
            && reopened.Ok? && |reopened.value.stream.batches| <= |Live(d, truth)|
            && forall i :: 0 <= i < |reopened.value.stream.batches| ==>
                 && OutcomeOf(truth, Live(d, truth)[i].txn).Committed?
                 && PublishedAs(Live(d, truth)[i], OutcomeOf(truth, Live(d, truth)[i].txn).commit, reopened.value.stream.batches[i])
  {
    hide DiskInv, StreamInv, LiveOf, PreparedOf, MarkersOf, PublishedAs, HistoryFits, OpenBytes, FileBytes, FileSize, Reports, WholeRecords, CommittedOf,
         Chain, LoadableLog;
    FactsForLoad(d, truth, history);
    DiskFacts(d, truth, history);
    CrashSafetyBytes(crc, d, truth, history, outcome, cut);
    forall i | 0 <= i < |Unreclaimed(d.header, history)|
      ensures OutcomeOf(truth, Live(d, truth)[i].txn).Committed?
      ensures PublishedAs(Live(d, truth)[i], OutcomeOf(truth, Live(d, truth)[i].txn).commit, Unreclaimed(d.header, history)[i])
    {
      HistoryIsPublished(d, truth, history, i);
    }
  }

  /** The sizes a stream keeps for its batches are lengths in the file: of the framed
      record, and of the record with its marker. */
  lemma {:induction false} SizesAreBytes(crc: Checksum, s: Stream, d: Disk, truth: Ledger, history: seq<Batch>, i: nat, commit: Option<u64>)
    requires StreamInv(s, d, truth, history) && i < |s.batches|
    ensures i < |s.batchFileBytes| && EncodeRecord(crc, s.batches[i]).Ok?
    ensures s.batchFileBytes[i].changeBytes == |EncodeRecord(crc, s.batches[i]).value|
    ensures s.batchFileBytes[i].retainedFileBytes ==
            |EncodeRecord(crc, s.batches[i]).value| + |Frame(crc, FinalizePayload(s.batches[i].txn, commit))|
  {
    hide DiskInv, PreparedOf, MarkersOf, LiveOf, UnresolvedInv, VersionsOf, PendingOf, Resolve, Payload, FinalizePayload, FirstError, AllFit, PayloadSize;
    StreamFacts(s, d, truth, history);
    var b, c := Live(d, truth)[i], CommitOf(OutcomeOf(truth, Live(d, truth)[i].txn));
    CommittedAt(d, truth, history, i);
    LiveLoadableAt(d, truth, history, i);
    ResolveStaysEncodable(d.header, b, c);
    EncoderAcceptsIff(crc, s.batches[i]);
  }

  // ---------------------------------------------------------------------------
  // Pins
  // ---------------------------------------------------------------------------

  /** Acquiring registers exactly the cursor, under an id no pin has, and touches no other pin. */
  lemma {:induction false} AcquireMeans(v: View, c: Cursor)
    requires forall id :: id in v.pins.pins ==> id < v.pins.nextId
    ensures var (v', r) := AcquireCall(v, c);
            && v'.pins.nextId >= v.pins.nextId && v' == v.(pins := v'.pins)
            && (r.Err? ==> v' == v)
            && (r.Ok? ==>
                  && r.value.active && r.value.id !in v.pins.pins && r.value.entry == PinEntry(c.storageId, c.generation, c.frontier)
                  && v'.pins.pins == v.pins.pins[r.value.id := r.value.entry] && r.value.id < v'.pins.nextId)
  {
    hide Current, CursorError;
  }

  /** Advancing moves that pin to the frontier asked for, never back, and touches no other. */
  lemma {:induction false} AdvanceMeans(v: View, pin: Pin, frontier: u64)
    ensures var (v', r) := AdvanceCall(v, pin, frontier);
            && v' == v.(pins := v'.pins) && (r.Err? ==> v' == v)
            && (r.Ok? ==>
                  && frontier >= pin.entry.frontier && pin.id in v.pins.pins && r.value == pin.(entry := pin.entry.(frontier := frontier))
                  && v'.pins.pins == v.pins.pins[pin.id := v.pins.pins[pin.id].(frontier := frontier)])
  {
    hide Current, CursorError;
  }

  /** The event moves, gives up or forgets the pin. */
  predicate Touches(e: Event, id: u64) {
    (e.AdvancePin? && e.id == id) || (e.ReleasePin? && e.id == id) || e.Crash? || e.Restart?
  }

  lemma {:induction false} PinStays(crc: Checksum, w: World, e: Event, id: u64)
    requires Inv(w) && id in w.pins.pins && !Touches(e, id)
    ensures id in Step(crc, w, e).pins.pins && Step(crc, w, e).pins.pins[id] == w.pins.pins[id]
  {
    hide StreamSpec.Stage, DurabilizeError, NeedsSync, CandidatesKnown, FinalizeError, AlreadyPublished, GcLog, GcReady, Current, PinBlocks, CursorError,
         DiskInv, StreamInv, HistoryFits, LiveOf, PreparedOf, StepCrash, StepRestart, MarkersToStage, Finalized;
  }

  lemma {:induction false} PinStaysThrough(crc: Checksum, w: World, events: seq<Event>, id: u64)
    requires Inv(w) && Possible(crc, w, events) && id in w.pins.pins && forall k :: 0 <= k < |events| ==> !Touches(events[k], id)
    ensures id in After(crc, w, events).pins.pins && After(crc, w, events).pins.pins[id] == w.pins.pins[id]
    decreases |events|
  {
    hide Inv, Step, Admissible;
    if events != [] {
      StepKeeps(crc, w, events[0]);
      PinStays(crc, w, events[0], id);
      PinStaysThrough(crc, Step(crc, w, events[0]), events[1..], id);
    }
  }

  /** What a pin is for: from the moment a cursor is pinned, through any run that does
      not touch the pin and whatever GC is asked for, the cursor reads on in its incarnation. */
  lemma {:induction false} PinnedCursorReads(crc: Checksum, w: World, c: Cursor, events: seq<Event>, maxBatches: nat, maxBytes: u64)
    requires Inv(w) && StepAcquire(w, c) != w && Inv(StepAcquire(w, c)) && Possible(crc, StepAcquire(w, c), events)
    requires forall k :: 0 <= k < |events| ==> !Touches(events[k], w.pins.nextId)
    ensures var w' := After(crc, StepAcquire(w, c), events);
            w'.state.Enabled? && w'.state.stream.header.storageId == c.storageId && w'.state.stream.header.generation == c.generation ==>
              && |w'.state.stream.batches| == |w'.state.stream.batchFileBytes|
              && Read(w'.state.stream, c, maxBatches, maxBytes).Ok?
  {
    hide Inv, Step, Admissible, Possible, After, Current, CursorError, Read;
    var w1, id := StepAcquire(w, c), w.pins.nextId;
    assert w1.pins.pins[id] == PinEntry(c.storageId, c.generation, c.frontier);
    PinStaysThrough(crc, w1, events, id);
    var w' := After(crc, w1, events);
    if w'.state.Enabled? && LivePin(w'.state.stream.header, w'.pins.pins[id]) { PinsStayReadable(w', id, maxBatches, maxBytes); }
  }

  // ---------------------------------------------------------------------------
  // GC
  // ---------------------------------------------------------------------------

  /** Two headers of one incarnation of one stream, which began at the same frontier. */
  predicate SameStream(h: Header, h': Header) {
    && h'.kind == h.kind && h'.storageId == h.storageId && h'.tableId == h.tableId && h'.fingerprint == h.fingerprint
    && h'.generation == h.generation && h'.origin == h.origin
  }

  /** What a GC that succeeds has done: dropped exactly the leading batches that end at
      or before the frontier, past no pin of the incarnation, and reported what it did.
      The stream stays the same incarnation, up to the same frontier. */
  lemma {:induction false} GcMeans(v: View, frontier: u64, rewrites: bool)
    ensures var (v', r) := GcCall(v, frontier, rewrites);
            if r.Err? then v' == v
            else
              && v.state.Enabled? && v'.state.Enabled? && v'.pins == v.pins
              && var s, s' := v.state.stream, v'.state.stream;
                 && r.value.removed <= |s.batches| && s'.batches == s.batches[r.value.removed..]
                 && r.value.bytesBefore == s.fileBytes && r.value.bytesAfter == s'.fileBytes
                 && s'.header.earliest == frontier && s'.header.version == 2
                 && (v' == v ==> r.value.removed == 0)
                 && (v' != v ==>
                       && SameStream(s.header, s'.header) && s'.header.earliest == frontier && s'.header.current == Current(s)
                       && s'.nextSequence == s.nextSequence && s'.header.nextSequence == s.nextSequence
                       && (forall i :: 0 <= i < r.value.removed ==> s.batches[i].after <= frontier)
                       && (r.value.removed < |s.batches| ==> s.batches[r.value.removed].before == frontier))
                 && (forall id :: id in v.pins.pins && LivePin(s.header, v.pins.pins[id]) ==> v.pins.pins[id].frontier >= frontier)
  {
    hide GcLog, Pinned, FileSize, Current, TxnsOf;
    if GcRefusal(v, frontier).None? {
      var s := v.state.stream;
      assert s.batches[0..] == s.batches;
      PinnedBlocks(s.header, v.pins.pins, frontier);
    }
  }
}
