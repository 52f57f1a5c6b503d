/** Any backlog of reservations drains: in every reachable world the oldest
    reservation can be made durable, committed and published, and then the next. */
module Draining {
  import opened Wrappers
  import opened Widths
  import opened ChangeTypes
  import opened Codec
  import opened LogFile
  import opened Loading
  import opened LogViews
  import opened StreamSpec
  import opened DiskInvariant
  import opened StreamInvariant
  import opened RecoveryProof
  import opened ProtocolSteps
  import opened ProtocolFinalize
  import opened World
  import opened Runs
  import opened Progress

  /** The stream is live and `b` is its oldest reservation. */
  predicate Oldest(w: World, b: Batch) {
    && w.state.Enabled? && w.file.Active?
    && |w.state.stream.batches| < |Live(w.file.disk, w.truth)|
    && Live(w.file.disk, w.truth)[|w.state.stream.batches|] == b
  }

  /** The next batch in line is not decided yet. */
  predicate Undecided(w: World)
    requires Inv(w) && w.state.Enabled?
  {
    |w.state.stream.batches| == |Unreclaimed(w.file.disk.header, w.history)|
  }

  predicate DurableIn(w: World, txn: u64) {
    w.state.Enabled? && txn in w.state.stream.unresolved && w.state.stream.unresolved[txn].preparedDurable
  }

  /** Same log and decisions, same batches. */
  predicate SameStory(w: World, w': World) {
    && w.state.Enabled? && w'.state.Enabled? && w.file.Active? && w'.file.Active?
    && w'.file.disk.header == w.file.disk.header && w'.file.disk.log == w.file.disk.log
    && w'.truth == w.truth && w'.history == w.history && w'.state.stream.batches == w.state.stream.batches
  }

  ghost function BarrierFor(b: Batch): Event {
    Event.Durabilize([PrepareCandidate(b.txn, b.databaseTxn, Identity(b))], true)
  }

  ghost function PublishFor(b: Batch, commit: Option<u64>, immediate: bool): Event {
    Event.Finalize([FinalizeCandidate(b.txn, Identity(b), commit)], immediate)
  }

  lemma {:induction false} BarrierForOldest(w: World, b: Batch)
    requires Inv(w) && Oldest(w, b)
    ensures var cands := [PrepareCandidate(b.txn, b.databaseTxn, Identity(b))];
            var w' := StepDurabilize(w, cands, true);
            Inv(w') && SameStory(w, w') && Oldest(w', b) && DurableIn(w', b.txn)
  {
    hide DiskInv, StreamInv, PinsInv, PreparedOf, LiveOf, DurabilizeError, UnresolvedInv, Current;
    var s, d := w.state.stream, w.file.disk;
    var cands := [PrepareCandidate(b.txn, b.databaseTxn, Identity(b))];
    StreamFacts(s, d, w.truth, w.history);
    assert Rest(s, d, w.truth)[0] == b;
    DurabilizeTakesPrefix(s, d, w.truth, w.history, cands);
    ReservationAt(s.unresolved, Rest(s, d, w.truth), |SyncedLive(d, w.truth)| - |s.batches|, 0);
    assert cands[0].txn in CandidateIds(cands);
    assert !s.unresolved[b.txn].preparedDurable ==> NeedsSync(s, cands) by {
      if !s.unresolved[b.txn].preparedDurable { assert cands[0].txn == b.txn; }
    }
    DurabilizeStepKeeps(w, cands, true);
  }

  lemma {:induction false} CommitOldest(w: World, b: Batch, commit: Option<u64>)
    requires Inv(w) && Oldest(w, b) && DurableIn(w, b.txn) && Undecided(w) && CommitFits(w.file.disk.header.kind, commit)
    ensures Admissible(w, Event.Commit(b.txn, commit)) && Inv(StepCommit(w, b.txn, commit))
    ensures StepCommit(w, b.txn, commit) ==
            w.(truth := w.truth[b.txn := Committed(commit)], history := w.history + [Resolve(b, commit)])
    ensures Live(w.file.disk, w.truth[b.txn := Committed(commit)]) == Live(w.file.disk, w.truth)
  {
    hide DiskInv, StreamInv, PinsInv, PreparedOf, LiveOf, CommitFits, Resolve, HistoryFits;
    StreamHeader(w);
    StreamFacts(w.state.stream, w.file.disk, w.truth, w.history);
    CommitStepKeeps(w, b.txn, commit);
    NotAborted(w.file.disk, w.truth, |w.state.stream.batches|);
    SyncedAfterCommit(w.file.disk, w.truth, b.txn, commit);
  }

  /** A committed, durable reservation is the next a finalize takes. */
  lemma {:induction false} OldestMatches(w: World, b: Batch)
    requires Inv(w) && Oldest(w, b) && DurableIn(w, b.txn) && !Undecided(w)
    ensures OutcomeOf(w.truth, b.txn).Committed?
    ensures var cands := [FinalizeCandidate(b.txn, Identity(b), OutcomeOf(w.truth, b.txn).commit)];
            && StreamInv(w.state.stream, w.file.disk, w.truth, w.history)
            && MatchesPrefix(w.state.stream, cands, Rest(w.state.stream, w.file.disk, w.truth)) && Truthful(cands, w.truth)
            && FinalizersKnown(w.state.stream, cands)
            && MarkersToStage(w.state.stream, cands) == [Record.Finalize(b.txn, OutcomeOf(w.truth, b.txn).commit)]
  {
    hide DiskInv, StreamInv, PinsInv, PreparedOf, LiveOf, MarkersOf, UnresolvedInv, Resolve, Encodable,
         ValidCommittedBatch, CommitFits, Current, HistoryFits;
    var s, d := w.state.stream, w.file.disk;
    var m := |s.batches|;
    StreamHeader(w);
    StreamFacts(s, d, w.truth, w.history);
    CommittedAt(d, w.truth, w.history, m);
    var commit := OutcomeOf(w.truth, b.txn).commit;
    var cands := [FinalizeCandidate(b.txn, Identity(b), commit)];
    LiveLoadableAt(d, w.truth, w.history, m);
    CommitMakesValid(d.header, b, commit);
    assert Rest(s, d, w.truth)[0] == b;
    assert CandidateMatches(s, cands[0], b);
    ReservationAt(s.unresolved, Rest(s, d, w.truth), |SyncedLive(d, w.truth)| - m, 0);
    assert cands[..0] == [];
  }

  /** What a finalize of that one candidate leaves. */
  lemma {:induction false} PublishOldest(w: World, b: Batch, immediate: bool)
    requires Inv(w) && Oldest(w, b) && DurableIn(w, b.txn) && !Undecided(w)
    ensures OutcomeOf(w.truth, b.txn).Committed?
    ensures var commit := OutcomeOf(w.truth, b.txn).commit;
            var w' := StepFinalize(w, [FinalizeCandidate(b.txn, Identity(b), commit)], immediate);
            && Admissible(w, PublishFor(b, commit, immediate)) && Inv(w')
            && w'.state.Enabled? && w'.file.Active? && w'.file.disk.header == w.file.disk.header
            && Live(w'.file.disk, w'.truth) == Live(w.file.disk, w.truth)
            && w'.truth == w.truth && w'.history == w.history
            && |w'.state.stream.batches| == |w.state.stream.batches| + 1
            && w'.file.disk.log == w.file.disk.log + [Record.Finalize(b.txn, commit)]
            && w'.medium == if immediate then |w'.file.disk.log| else w.medium
  {
    hide DiskInv, StreamInv, PinsInv, PreparedOf, LiveOf, MarkersOf, FinalizeError, AlreadyPublished, MatchesPrefix,
         Truthful, FileSize, Current, FinalizersKnown, MarkersToStage, Undecided;
    OldestMatches(w, b);
    var s, d := w.state.stream, w.file.disk;
    var cands := [FinalizeCandidate(b.txn, Identity(b), OutcomeOf(w.truth, b.txn).commit)];
    FinalizeTakesPrefix(s, d, w.truth, w.history, cands, immediate);
    FinalizePartial(s, d, w.truth, w.history, cands, 1);
    assert MarkersToStage(s, cands)[..1] == MarkersToStage(s, cands);
    FinalizeStepKeeps(w, cands, immediate, 0);
  }

  // ---------------------------------------------------------------------------
  // One reservation, and all of them
  // ---------------------------------------------------------------------------

  lemma StepsAre(crc: Checksum, w: World, b: Batch, commit: Option<u64>, immediate: bool)
    ensures Step(crc, w, BarrierFor(b)) == StepDurabilize(w, [PrepareCandidate(b.txn, b.databaseTxn, Identity(b))], true)
    ensures Step(crc, w, Event.Commit(b.txn, commit)) == StepCommit(w, b.txn, commit)
    ensures Step(crc, w, PublishFor(b, commit, immediate)) == StepFinalize(w, [FinalizeCandidate(b.txn, Identity(b), commit)], immediate)
    ensures Inv(w) ==> Admissible(w, BarrierFor(b))
  {
  }

  /** `w'` has published the oldest reservation of `w`, under the commit it was
      decided with, or under `commit` when it was undecided. */
  predicate OneDrained(w: World, w': World, b: Batch, commit: Option<u64>)
    requires Inv(w) && Oldest(w, b)
  {
    && Inv(w') && w'.state.Enabled? && w'.file.Active? && w'.file.disk.header == w.file.disk.header
    && Live(w'.file.disk, w'.truth) == Live(w.file.disk, w.truth)
    && |w'.state.stream.batches| == |w.state.stream.batches| + 1
    && w'.history == if Undecided(w) then w.history + [Resolve(b, commit)] else w.history
  }

  lemma {:induction false} DrainOne(crc: Checksum, w: World, b: Batch, commit: Option<u64>, immediate: bool) returns (events: seq<Event>)
    requires Inv(w) && Oldest(w, b) && CommitFits(w.file.disk.header.kind, commit)
    ensures Possible(crc, w, events) && OneDrained(w, After(crc, w, events), b, commit)
  {
    hide Inv, Admissible, Step, StepDurabilize, StepCommit, StepFinalize, Resolve, CommitFits, PreparedOf, LiveOf,
         Possible, After;
    StepsAre(crc, w, b, commit, immediate);
    BarrierForOldest(w, b);
    var w1 := Step(crc, w, BarrierFor(b));
    SameDecision(w, w1);
    if Undecided(w) {
      CommitOldest(w1, b, commit);
      StepsAre(crc, w1, b, commit, immediate);
      var w2 := Step(crc, w1, Event.Commit(b.txn, commit));
      DecidedAfter(w1, w2, b, commit);
      PublishOldest(w2, b, immediate);
      StepsAre(crc, w2, b, commit, immediate);
      ThreeSteps(crc, w, BarrierFor(b), Event.Commit(b.txn, commit), PublishFor(b, commit, immediate));
      events := [BarrierFor(b), Event.Commit(b.txn, commit), PublishFor(b, commit, immediate)];
    } else {
      PublishOldest(w1, b, immediate);
      var reported := OutcomeOf(w1.truth, b.txn).commit;
      StepsAre(crc, w1, b, reported, immediate);
      TwoSteps(crc, w, BarrierFor(b), PublishFor(b, reported, immediate));
      events := [BarrierFor(b), PublishFor(b, reported, immediate)];
    }
  }

  lemma SameDecision(w: World, w': World)
    requires Inv(w) && Inv(w') && SameStory(w, w')
    ensures Undecided(w') == Undecided(w)
  {
  }

  lemma {:induction false} DecidedAfter(w: World, w': World, b: Batch, commit: Option<u64>)
    requires Inv(w) && w.state.Enabled? && Undecided(w) && Inv(w')
    requires w' == w.(truth := w.truth[b.txn := Committed(commit)], history := w.history + [Resolve(b, commit)])
    ensures !Undecided(w')
  {
    hide DiskInv, StreamInv, PinsInv, Resolve;
    StreamHeader(w);
    DiskFacts(w.file.disk, w.truth, w.history);
  }

  /** The undecided reservations from the `n`-th on, each resolved with the commit chosen for it. */
  function Resolved(live: seq<Batch>, n: nat, commits: u64 -> Option<u64>): seq<Batch>
    requires n <= |live|
    decreases |live| - n
  {
    if n == |live| then [] else [Resolve(live[n], commits(live[n].txn))] + Resolved(live, n + 1, commits)
  }

  /** From every reachable world with a live stream, whatever reservations it holds:
      the backlog drains in chain order.  The decided ones are published as decided,
      the others under any commits an engine may report, and nothing is left. */
  lemma {:induction false} BacklogDrains(crc: Checksum, w: World, commits: u64 -> Option<u64>, immediate: bool) returns (events: seq<Event>)
    requires Inv(w) && w.state.Enabled?
    requires forall t :: CommitFits(w.file.disk.header.kind, commits(t))
    ensures Possible(crc, w, events)
    ensures var w' := After(crc, w, events);
            && w'.state.Enabled? && w'.file.Active? && w'.file.disk.header == w.file.disk.header
            && w'.state.stream.unresolved == map[]
            && HistoryFits(w.file.disk.header, w.history) && |Unreclaimed(w.file.disk.header, w.history)| <= |Live(w.file.disk, w.truth)|
            && w'.history == w.history + Resolved(Live(w.file.disk, w.truth), |Unreclaimed(w.file.disk.header, w.history)|, commits)
            && HistoryFits(w.file.disk.header, w'.history)
            && w'.state.stream.batches == Unreclaimed(w.file.disk.header, w'.history)
    decreases |Live(w.file.disk, w.truth)| - |w.state.stream.batches|
  {
    hide Step, Admissible, PreparedOf, LiveOf, DiskInv, StreamInv, PinsInv, CommitFits, Resolve, Possible, After,
         Oldest, UnresolvedInv, HistoryFits, Current;
    StreamHeader(w);
    var s, d := w.state.stream, w.file.disk;
    StreamFacts(s, d, w.truth, w.history);
    var live, n := Live(d, w.truth), |Unreclaimed(d.header, w.history)|;
    if |s.batches| == |live| {
      TailIsLast(s.unresolved, Rest(s, d, w.truth), |SyncedLive(d, w.truth)| - |s.batches|);
      assert w.history + [] == w.history;
      events := [];
      Nothing(crc, w);
    } else {
      var b := live[|s.batches|];
      IsOldest(w, b);
      var first := DrainOne(crc, w, b, commits(b.txn), immediate);
      var w1 := After(crc, w, first);
      GrowsByOne(w, w1, b, commits);
      var rest := BacklogDrains(crc, w1, commits, immediate);
      Joined(crc, w, first, rest);
      events := first + rest;
    }
  }

  lemma IsOldest(w: World, b: Batch)
    requires w.state.Enabled? && w.file.Active? && |w.state.stream.batches| < |Live(w.file.disk, w.truth)|
    requires Live(w.file.disk, w.truth)[|w.state.stream.batches|] == b
    ensures Oldest(w, b)
  {
  }

  lemma Nothing(crc: Checksum, w: World)
    requires Inv(w)
    ensures Possible(crc, w, []) && After(crc, w, []) == w
  {
  }

  /** Draining one reservation adds its batch to the history exactly when it was undecided. */
  lemma {:induction false} GrowsByOne(w: World, w': World, b: Batch, commits: u64 -> Option<u64>)
    requires Inv(w) && Oldest(w, b) && OneDrained(w, w', b, commits(b.txn))
    ensures var h, live := w.file.disk.header, Live(w.file.disk, w.truth);
            && HistoryFits(h, w.history) && HistoryFits(h, w'.history)
            && |Unreclaimed(h, w.history)| <= |live| && |Unreclaimed(h, w'.history)| <= |live|
            && w.history + Resolved(live, |Unreclaimed(h, w.history)|, commits) ==
               w'.history + Resolved(live, |Unreclaimed(h, w'.history)|, commits)
  {
    hide Inv, PreparedOf, LiveOf, Resolve, Resolved, HistoryFits, Current;
    Bounds(w);
    Bounds(w');
    var live, n := Live(w.file.disk, w.truth), |Unreclaimed(w.file.disk.header, w.history)|;
    if Undecided(w) { NextResolved(w.history, live, n, commits); }
  }

  lemma {:induction false} Bounds(w: World)
    requires Inv(w) && w.state.Enabled?
    ensures w.file.Active? && HistoryFits(w.file.disk.header, w.history)
    ensures |w.state.stream.batches| <= |Unreclaimed(w.file.disk.header, w.history)| <= |Live(w.file.disk, w.truth)|
    ensures |Unreclaimed(w.file.disk.header, w.history)| == |w.history| - (w.file.disk.header.earliest - w.file.disk.header.origin)
  {
    hide DiskInv, StreamInv, PinsInv, PreparedOf, LiveOf, Current;
    StreamFacts(w.state.stream, w.file.disk, w.truth, w.history);
  }

  lemma {:induction false} NextResolved(history: seq<Batch>, live: seq<Batch>, n: nat, commits: u64 -> Option<u64>)
    requires n < |live|
    ensures history + Resolved(live, n, commits) == (history + [Resolve(live[n], commits(live[n].txn))]) + Resolved(live, n + 1, commits)
  {
    hide Resolve;
    var first, rest := [Resolve(live[n], commits(live[n].txn))], Resolved(live, n + 1, commits);
    assert history + (first + rest) == (history + first) + rest;
  }

  /** Runs join. */
  lemma {:induction false} Joined(crc: Checksum, w: World, a: seq<Event>, b: seq<Event>)
    requires Inv(w) && Possible(crc, w, a) && Possible(crc, After(crc, w, a), b)
    ensures Possible(crc, w, a + b) && After(crc, w, a + b) == After(crc, After(crc, w, a), b)
    decreases |a|
  {
    hide Inv, Admissible, Step;
    if a == [] {
      assert a + b == b;
    } else {
      StepKeeps(crc, w, a[0]);
      Joined(crc, Step(crc, w, a[0]), a[1..], b);
      assert (a + b)[1..] == a[1..] + b;
    }
  }
}
