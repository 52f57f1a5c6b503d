/** What the two ways of committing leave on disk recovers the same. */
module GroupRecovery {
  import opened Wrappers
  import opened Widths
  import opened ChangeTypes
  import opened Codec
  import opened LogFile
  import opened Loading
  import opened LogViews
  import opened StreamSpec
  import opened DiskInvariant
  import opened Recovery
  import opened GroupCommit

  // ---------------------------------------------------------------------------
  // Recovery cannot tell them apart
  // ---------------------------------------------------------------------------

  function MarksOf(ms: seq<Member>): (r: seq<Marker>)
    ensures |r| == |ms|
  {
    seq(|ms|, i requires 0 <= i < |ms| => Marker(ms[i].txn, ms[i].commit))
  }

  /** What a log holds as far as loading it goes. */
  predicate Holds(log: seq<Record>, bs: seq<Batch>, marks: seq<Marker>) {
    PreparedOf(log) == bs && MarkersOf(log) == marks && MarkersFollow(log)
  }

  lemma {:induction false} HoldsPrepared(log: seq<Record>, bs: seq<Batch>, marks: seq<Marker>, b: Batch)
    requires Holds(log, bs, marks)
    ensures Holds(log + [Prepared(b)], bs + [b], marks)
  {
    PreparedAppend(log, Prepared(b));
    assert (log + [Prepared(b)])[..|log|] == log;
  }

  lemma {:induction false} HoldsMarker(log: seq<Record>, bs: seq<Batch>, marks: seq<Marker>, txn: u64,
                                       commit: Option<u64>)
    requires Holds(log, bs, marks) && HasTxn(bs, txn) && !Marked(marks, txn)
    ensures Holds(log + [Finalize(txn, commit)], bs, marks + [Marker(txn, commit)])
  {
    PreparedAppend(log, Finalize(txn, commit));
    assert (log + [Finalize(txn, commit)])[..|log|] == log;
  }

  /** A log the group is new to. */
  predicate NewTo(s: Stream, ms: seq<Member>, bs: seq<Batch>, marks: seq<Marker>)
    requires Room(s, ms)
  {
    && Ordered(bs + Batches(s, ms))
    && forall i :: 0 <= i < |ms| ==> !Marked(marks, ms[i].txn)
  }

  /** A member is not marked by the markers of the members before it. */
  lemma {:induction false} NotYetMarked(s: Stream, ms: seq<Member>, bs: seq<Batch>, marks: seq<Marker>, n: nat)
    requires GroupFits(s, ms) && NewTo(s, ms, bs, marks) && n < |ms|
    ensures !Marked(marks + MarksOf(ms)[..n], ms[n].txn)
  {
    hide EncodeError, ValidCommittedBatch, RecordSize, HasTxn;
    var all := marks + MarksOf(ms)[..n];
    forall i | 0 <= i < |all| ensures all[i].txn != ms[n].txn {
      if i < |marks| { assert all[i] == marks[i]; } else { assert all[i] == MarksOf(ms)[i - |marks|]; }
    }
  }

  lemma {:induction false} PairsHold(s: Stream, ms: seq<Member>, log: seq<Record>, bs: seq<Batch>,
                                     marks: seq<Marker>, n: nat)
    requires GroupFits(s, ms) && NewTo(s, ms, bs, marks) && Holds(log, bs, marks) && n <= |ms|
    ensures Holds(log + PairLog(s, ms, n), bs + Batches(s, ms)[..n], marks + MarksOf(ms)[..n])
    decreases n
  {
    hide GroupFits, NewTo, Holds, HasTxn, Marked, MemberBatch;
    RoomFor(s, ms);
    var all := Batches(s, ms);
    if n == 0 {
      assert log + [] == log && bs + all[..0] == bs && marks + MarksOf(ms)[..0] == marks;
    } else {
      PairsHold(s, ms, log, bs, marks, n - 1);
      var b, m := MemberBatch(s, ms, n - 1), ms[n - 1];
      var log', bs', marks' := log + PairLog(s, ms, n - 1), bs + all[..n - 1], marks + MarksOf(ms)[..n - 1];
      HoldsPrepared(log', bs', marks', b);
      assert bs' + [b] == bs + all[..n];
      NotYetMarked(s, ms, bs, marks, n - 1);
      MemberEnds(s, ms, n - 1);
      LastTxn(bs', b);
      HoldsMarker(log' + [Prepared(b)], bs + all[..n], marks', m.txn, m.commit);
      assert marks' + [Marker(m.txn, m.commit)] == marks + MarksOf(ms)[..n];
      assert log + PairLog(s, ms, n) == log' + [Prepared(b)] + [Finalize(m.txn, m.commit)];
    }
  }

  lemma {:induction false} LastTxn(bs: seq<Batch>, b: Batch)
    ensures HasTxn(bs + [b], b.txn)
  {
    assert (bs + [b])[|bs|].txn == b.txn;
  }

  lemma {:induction false} StagesHold(log: seq<Record>, bs: seq<Batch>, marks: seq<Marker>, all: seq<Batch>)
    requires Holds(log, bs, marks)
    ensures Holds(log + StageLog(all), bs + all, marks)
    decreases |all|
  {
    hide Holds;
    if all == [] {
      assert log + [] == log && bs + [] == bs;
    } else {
      var n := |all| - 1;
      StagesHold(log, bs, marks, all[..n]);
      HoldsPrepared(log + StageLog(all[..n]), bs + all[..n], marks, all[n]);
      assert bs + all[..n] + [all[n]] == bs + all;
      assert log + StageLog(all) == log + StageLog(all[..n]) + [Prepared(all[n])];
    }
  }

  lemma {:induction false} MarksHold(s: Stream, ms: seq<Member>, log: seq<Record>, bs: seq<Batch>,
                                     marks: seq<Marker>, n: nat)
    requires GroupFits(s, ms) && NewTo(s, ms, bs, marks) && Holds(log, bs + Batches(s, ms), marks) && n <= |ms|
    ensures Holds(log + MarkLog(ms[..n]), bs + Batches(s, ms), marks + MarksOf(ms)[..n])
    decreases n
  {
    hide GroupFits, NewTo, Holds, HasTxn, Marked, MemberBatch;
    RoomFor(s, ms);
    var all := Batches(s, ms);
    if n == 0 {
      assert log + [] == log && marks + MarksOf(ms)[..0] == marks;
    } else {
      MarksHold(s, ms, log, bs, marks, n - 1);
      assert ms[..n][..n - 1] == ms[..n - 1];
      var m, marks' := ms[n - 1], marks + MarksOf(ms)[..n - 1];
      NotYetMarked(s, ms, bs, marks, n - 1);
      MemberEnds(s, ms, n - 1);
      TxnAt(bs, all, n - 1);
      HoldsMarker(log + MarkLog(ms[..n - 1]), bs + all, marks', m.txn, m.commit);
      assert marks' + [Marker(m.txn, m.commit)] == marks + MarksOf(ms)[..n];
      assert log + MarkLog(ms[..n]) == log + MarkLog(ms[..n - 1]) + [Finalize(m.txn, m.commit)];
    }
  }

  lemma {:induction false} TxnAt(bs: seq<Batch>, all: seq<Batch>, i: nat)
    requires i < |all|
    ensures HasTxn(bs + all, all[i].txn)
  {
    assert (bs + all)[|bs| + i] == all[i];
  }

  /** Two logs that hold the same load the same, whatever the engine reports. */
  lemma {:induction false} HoldsLoadsSame(log: seq<Record>, log': seq<Record>, bs: seq<Batch>, marks: seq<Marker>,
                                          outcome: u64 -> Outcome)
    requires Holds(log, bs, marks) && Holds(log', bs, marks) && Ordered(bs)
    ensures LoadRecords(log, outcome).Ok? && LoadRecords(log', outcome) == LoadRecords(log, outcome)
  {
    LoadShape(log, outcome);
    LoadShape(log', outcome);
    hide PreparedOf, MarkersOf, MarkersFollow, LoadRecords, LoadedRecord;
    var a, b := LoadRecords(log, outcome).value, LoadRecords(log', outcome).value;
    assert forall i :: 0 <= i < |a| ==> a[i] == b[i];
    assert a == b;
  }

  /** Recovery cannot tell the two ways apart: their logs have the same size, load
      to the same records and rebuild the same stream, whatever the engine reports. */
  lemma {:induction false} GroupRecoversSame(s: Stream, ms: seq<Member>, h: Header, log: seq<Record>,
                                             outcome: u64 -> Outcome)
    requires ms != [] && GroupFits(s, ms) && MarkersFollow(log) && Ordered(PreparedOf(log) + Batches(s, ms))
    requires forall i :: 0 <= i < |ms| ==> !Marked(MarkersOf(log), ms[i].txn)
    ensures CommitEach(Progress(s, log, 0), ms).Ok?
    ensures forall immediate :: CommitTogether(Progress(s, log, 0), ms, immediate).Ok?
    ensures forall immediate ::
              var each, together := CommitEach(Progress(s, log, 0), ms).value.log, CommitTogether(Progress(s, log, 0), ms, immediate).value.log;
              && FileSize(h, together) == FileSize(h, each)
              && LoadRecords(each, outcome).Ok? && LoadRecords(together, outcome) == LoadRecords(each, outcome)
              && Build(h, FileSize(h, together), LoadRecords(together, outcome).value) == Build(h, FileSize(h, each), LoadRecords(each, outcome).value)
  {
    hide GroupFits, Holds, CommitEach, CommitTogether, PreparedOf, MarkersOf, MarkersFollow, LoadRecords, Build,
         FileSize, Ordered, Marked;
    RoomFor(s, ms);
    var bs, marks, all := PreparedOf(log), MarkersOf(log), Batches(s, ms);
    EachCommits(s, log, ms);
    forall immediate ensures CommitTogether(Progress(s, log, 0), ms, immediate) == Ok(Progress(Published(s, ms), log + StageLog(all) + MarkLog(ms), 2)) {
      TogetherCommits(s, log, ms, immediate);
    }
    assert Holds(log, bs, marks) by { HoldsItself(log); }
    PairsHold(s, ms, log, bs, marks, |ms|);
    StagesHold(log, bs, marks, all);
    MarksHold(s, ms, log + StageLog(all), bs, marks, |ms|);
    assert ms[..|ms|] == ms && all[..|ms|] == all && MarksOf(ms)[..|ms|] == MarksOf(ms);
    var each, together := log + PairLog(s, ms, |ms|), log + StageLog(all) + MarkLog(ms);
    HoldsLoadsSame(each, together, bs + all, marks + MarksOf(ms), outcome);
    SizeFromViews(h, each, bs + all, marks + MarksOf(ms));
    SizeFromViews(h, together, bs + all, marks + MarksOf(ms));
  }

  lemma HoldsItself(log: seq<Record>)
    requires MarkersFollow(log)
    ensures Holds(log, PreparedOf(log), MarkersOf(log))
  {
  }

  lemma {:induction false} SizeFromViews(h: Header, log: seq<Record>, bs: seq<Batch>, marks: seq<Marker>)
    requires Holds(log, bs, marks)
    ensures FileSize(h, log) == HeaderSize(h) + ReservedSize(bs) + 32 * |marks| - 32 * |bs|
  {
    FileSizeSplit(h, log);
  }
}
