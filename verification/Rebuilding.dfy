/** What a rebuild makes of any loaded records, whether or not a stream wrote them. */
module Rebuilding {
  import opened Wrappers
  import opened Widths
  import opened ChangeTypes
  import opened Loading
  import opened LogViews
  import opened StreamSpec
  import opened Recovery

  function CommittedCount(rs: seq<PreparedRecord>): nat {
    if rs == [] then 0 else CommittedCount(rs[..|rs| - 1]) + if rs[|rs| - 1].outcome.Committed? then 1 else 0
  }

  /** Batch `b` is what a committed record was published as. */
  predicate FromCommitted(rs: seq<PreparedRecord>, b: Batch) {
    exists i :: 0 <= i < |rs| && rs[i].outcome.Committed? && PublishedAs(rs[i].batch, rs[i].outcome.commit, b)
  }

  /** Record `r` is published as one of the batches. */
  predicate PublishedIn(r: PreparedRecord, bs: seq<Batch>)
    requires r.outcome.Committed?
  {
    exists j :: 0 <= j < |bs| && PublishedAs(r.batch, r.outcome.commit, bs[j])
  }

  /** The batches are the committed records, each published once; the reservations
      are exactly the undecided records; every commit is remembered. */
  predicate RebuiltFrom(rs: seq<PreparedRecord>, s: Stream) {
    && |s.batches| == CommittedCount(rs)
    && (forall j :: 0 <= j < |s.batches| ==> FromCommitted(rs, s.batches[j]))
    && (forall i :: 0 <= i < |rs| && rs[i].outcome.Committed? ==> PublishedIn(rs[i], s.batches))
    && Sorted(rs, s.unresolved, s.finalizeVersions)
  }

  /** Where the records go by their outcomes; no transaction comes twice. */
  predicate Sorted(rs: seq<PreparedRecord>, unresolved: map<u64, PreparedRecord>, versions: map<u64, Option<u64>>) {
    && (forall i, j :: 0 <= i < j < |rs| ==> rs[i].batch.txn != rs[j].batch.txn)
    && (forall i :: 0 <= i < |rs| ==>
          match rs[i].outcome
          case Committed(commit) => rs[i].batch.txn !in unresolved && rs[i].batch.txn in versions && versions[rs[i].batch.txn] == commit
          case Aborted => rs[i].batch.txn !in unresolved && rs[i].batch.txn !in versions
          case Unresolved => rs[i].batch.txn in unresolved && unresolved[rs[i].batch.txn] == rs[i] && rs[i].batch.txn !in versions)
    && (forall t :: t in unresolved || t in versions ==> HasRecord(rs, t))
  }

  predicate HasRecord(rs: seq<PreparedRecord>, txn: u64) {
    exists i :: 0 <= i < |rs| && rs[i].batch.txn == txn
  }

  /** Every committed record has a commit its engine gives and leaves no placeholder,
      and every sequence has a successor. */
  ghost predicate CommitsFit(kind: StorageKind, rs: seq<PreparedRecord>) {
    forall i :: 0 <= i < |rs| ==>
      && rs[i].batch.sequence < MAX_U64
      && (rs[i].outcome.Committed? ==>
            && (kind.LsmStorage? ==> rs[i].outcome.commit.Some?)
            && forall b :: PublishedAs(rs[i].batch, rs[i].outcome.commit, b) ==> ValidCommittedBatch(kind, b))
  }

  lemma {:induction false} GatherFits(kind: StorageKind, rs: seq<PreparedRecord>, fileBytes: nat)
    requires Gather(kind, rs, fileBytes).Ok? && Gather(kind, rs, fileBytes).value.maxSequence < MAX_U64
    ensures CommitsFit(kind, rs)
    ensures forall i :: 0 <= i < |rs| ==> rs[i].batch.sequence <= Gather(kind, rs, fileBytes).value.maxSequence
    decreases |rs|
  {
    hide GatherOne, PublishedAs, ValidCommittedBatch;
    if rs != [] {
      var n := |rs| - 1;
      OneFits(kind, Gather(kind, rs[..n], fileBytes).value, rs[n]);
      GatherFits(kind, rs[..n], fileBytes);
      forall i | 0 <= i < n ensures rs[i] == rs[..n][i] {}
    }
  }

  lemma {:induction false} OneFits(kind: StorageKind, g: Gathered, r: PreparedRecord)
    requires GatherOne(kind, g, r).Ok?
    ensures var g' := GatherOne(kind, g, r).value; g'.maxSequence >= g.maxSequence && g'.maxSequence >= r.batch.sequence
    ensures r.outcome.Committed? ==>
              && (kind.LsmStorage? ==> r.outcome.commit.Some?)
              && forall b :: PublishedAs(r.batch, r.outcome.commit, b) ==> ValidCommittedBatch(kind, b)
  {
    hide Resolve, PublishedAs;
    if r.outcome.Committed? {
      forall b | PublishedAs(r.batch, r.outcome.commit, b) ensures ValidCommittedBatch(kind, b) {
        ResolvePublishes(r.batch, r.outcome.commit, b);
      }
    }
  }

  lemma {:induction false} HasRecordFront(rs: seq<PreparedRecord>, txn: u64)
    requires rs != []
    ensures HasRecord(rs, txn) <==> HasRecord(rs[..|rs| - 1], txn) || rs[|rs| - 1].batch.txn == txn
  {
    var n := |rs| - 1;
    if HasRecord(rs, txn) {
      var i :| 0 <= i < |rs| && rs[i].batch.txn == txn;
      if i < n { assert rs[..n][i].batch.txn == txn; }
    }
    if HasRecord(rs[..n], txn) {
      var i :| 0 <= i < n && rs[..n][i].batch.txn == txn;
      assert rs[i].batch.txn == txn;
    }
  }

  /** One more record, by its outcome. */
  lemma {:induction false} GatherOneMeans(kind: StorageKind, g: Gathered, r: PreparedRecord)
    requires GatherOne(kind, g, r).Ok?
    ensures var g' := GatherOne(kind, g, r).value;
            && r.batch.txn !in g.seen && g'.seen == g.seen + {r.batch.txn}
            && match r.outcome
               case Aborted => g'.committed == g.committed && g'.unresolved == g.unresolved && g'.versions == g.versions
               case Unresolved =>
                 g'.committed == g.committed && g'.unresolved == g.unresolved[r.batch.txn := r] && g'.versions == g.versions
               case Committed(commit) =>
                 && (kind.LsmStorage? ==> commit.Some?)
                 && |g'.committed| == |g.committed| + 1 && g'.committed[..|g.committed|] == g.committed
                 && PublishedAs(r.batch, commit, g'.committed[|g.committed|].batch)
                 && g'.unresolved == g.unresolved && g'.versions == g.versions[r.batch.txn := commit]
  {
    hide CommittedError, Resolve, PublishedAs;
    if r.outcome.Committed? { ResolvePublishes(r.batch, r.outcome.commit, Resolve(r.batch, r.outcome.commit)); }
  }

  predicate GatheredRight(rs: seq<PreparedRecord>, g: Gathered) {
    && (forall t :: t in g.seen <==> HasRecord(rs, t))
    && Sorted(rs, g.unresolved, g.versions)
    && |g.committed| == CommittedCount(rs)
    && (forall j :: 0 <= j < |g.committed| ==> FromCommitted(rs, g.committed[j].batch))
    && (forall i :: 0 <= i < |rs| && rs[i].outcome.Committed? ==> InEntries(rs[i], g.committed))
  }

  predicate InEntries(r: PreparedRecord, es: seq<CommittedEntry>)
    requires r.outcome.Committed?
  {
    exists j :: 0 <= j < |es| && PublishedAs(r.batch, r.outcome.commit, es[j].batch)
  }

  lemma {:induction false} FromCommittedFront(rs: seq<PreparedRecord>, b: Batch)
    requires rs != [] && FromCommitted(rs[..|rs| - 1], b)
    ensures FromCommitted(rs, b)
  {
    hide PublishedAs;
    var front := rs[..|rs| - 1];
    var i :| 0 <= i < |front| && front[i].outcome.Committed? && PublishedAs(front[i].batch, front[i].outcome.commit, b);
    assert rs[i] == front[i];
  }

  lemma {:induction false} InEntriesMore(r: PreparedRecord, es: seq<CommittedEntry>, more: seq<CommittedEntry>)
    requires r.outcome.Committed? && es <= more && InEntries(r, es)
    ensures InEntries(r, more)
  {
    hide PublishedAs;
    var j :| 0 <= j < |es| && PublishedAs(r.batch, r.outcome.commit, es[j].batch);
    assert more[j] == es[j];
  }

  lemma {:induction false} SortedMore(rs: seq<PreparedRecord>, g: Gathered, g': Gathered, kind: StorageKind)
    requires rs != [] && Sorted(rs[..|rs| - 1], g.unresolved, g.versions) && forall t :: t in g.seen <==> HasRecord(rs[..|rs| - 1], t)
    requires GatherOne(kind, g, rs[|rs| - 1]) == Ok(g')
    ensures Sorted(rs, g'.unresolved, g'.versions)
  {
    hide GatherOne, PublishedAs, HasRecord;
    var n := |rs| - 1;
    var front, r := rs[..n], rs[n];
    GatherOneMeans(kind, g, r);
    forall i | 0 <= i < n ensures rs[i].batch.txn != r.batch.txn && rs[i] == front[i] { HasAt(front, i); }
    forall t | t in g'.unresolved || t in g'.versions ensures HasRecord(rs, t) { HasRecordFront(rs, t); }
    HasAt(rs, n);
    forall t | t in g.unresolved || t in g.versions ensures t != r.batch.txn {}
  }

  lemma HasAt(rs: seq<PreparedRecord>, i: nat)
    requires i < |rs|
    ensures HasRecord(rs, rs[i].batch.txn)
  {
  }

  lemma {:induction false} GatherMeans(kind: StorageKind, rs: seq<PreparedRecord>, fileBytes: nat)
    requires Gather(kind, rs, fileBytes).Ok?
    ensures GatheredRight(rs, Gather(kind, rs, fileBytes).value)
    decreases |rs|
  {
    hide GatherOne, PublishedAs, Sorted, HasRecord, FromCommitted, InEntries;
    if rs == [] {
      NothingGathered(fileBytes);
    } else {
      var n := |rs| - 1;
      var front, r := rs[..n], rs[n];
      GatherMeans(kind, front, fileBytes);
      var g, g' := Gather(kind, front, fileBytes).value, Gather(kind, rs, fileBytes).value;
      GatherOneMeans(kind, g, r);
      SortedMore(rs, g, g', kind);
      forall t ensures t in g'.seen <==> HasRecord(rs, t) { HasRecordFront(rs, t); }
      forall j | 0 <= j < |g'.committed| ensures FromCommitted(rs, g'.committed[j].batch) {
        if j < |g.committed| {
          assert g'.committed[j] == g.committed[j];
          FromCommittedFront(rs, g'.committed[j].batch);
        } else {
          LastCommitted(rs, g'.committed[j].batch);
        }
      }
      forall i | 0 <= i < |rs| && rs[i].outcome.Committed? ensures InEntries(rs[i], g'.committed) {
        if i < n { assert rs[i] == front[i]; InEntriesMore(rs[i], g.committed, g'.committed); } else { LastEntry(r, g'.committed); }
      }
    }
  }

  lemma NothingGathered(fileBytes: nat)
    ensures GatheredRight([], Nothing(fileBytes))
  {
  }

  lemma LastCommitted(rs: seq<PreparedRecord>, b: Batch)
    requires rs != [] && rs[|rs| - 1].outcome.Committed? && PublishedAs(rs[|rs| - 1].batch, rs[|rs| - 1].outcome.commit, b)
    ensures FromCommitted(rs, b)
  {
  }

  lemma LastEntry(r: PreparedRecord, es: seq<CommittedEntry>)
    requires r.outcome.Committed? && es != [] && PublishedAs(r.batch, r.outcome.commit, es[|es| - 1].batch)
    ensures InEntries(r, es)
  {
  }

  /** What a rebuild that succeeds gives back, for any records: the committed ones
      under their published versions, in order of their frontiers, and the rest by outcome. */
  lemma {:induction false} BuildMeans(h: Header, fileBytes: nat, rs: seq<PreparedRecord>)
    ensures Build(h, fileBytes, rs).Ok? ==>
              var s := Build(h, fileBytes, rs).value.stream;
              && RebuiltFrom(rs, s) && s.header == h
              && Chain(s.batches, h.earliest) && h.current <= h.earliest + |s.batches| && (s.batches == [] ==> h.earliest == h.current)
              && CommitsFit(h.kind, rs)
  {
    hide GatherOne, PublishedAs, Sorted, HasRecord, FromCommitted, InEntries, PublishedIn, SortBySequence, ChainError, Chain, CommitsFit;
    if Build(h, fileBytes, rs).Ok? {
      GatherMeans(h.kind, rs, fileBytes);
      GatherFits(h.kind, rs, fileBytes);
      var g := Gather(h.kind, rs, fileBytes).value;
      var es := SortBySequence(g.committed);
      SortKeepsAll(g.committed);
      ChainErrorIff(h.earliest, BatchesOf(es));
      EndsAt(h, BatchesOf(es));
      assert |es| == |multiset(es)| == |g.committed|;
      forall j | 0 <= j < |es| ensures FromCommitted(rs, BatchesOf(es)[j]) {
        assert es[j] in multiset(g.committed);
      }
      forall i | 0 <= i < |rs| && rs[i].outcome.Committed? ensures PublishedIn(rs[i], BatchesOf(es)) {
        EntryStays(rs[i], g.committed, es);
      }
    }
  }

  lemma EndsAt(h: Header, bs: seq<Batch>)
    requires Chain(bs, h.earliest)
    ensures bs != [] ==> EffectiveCurrent(h, bs) == h.earliest + |bs|
  {
  }

  lemma {:induction false} EntryStays(r: PreparedRecord, es: seq<CommittedEntry>, sorted: seq<CommittedEntry>)
    requires r.outcome.Committed? && InEntries(r, es) && multiset(sorted) == multiset(es)
    ensures PublishedIn(r, BatchesOf(sorted))
  {
    hide PublishedAs;
    var j :| 0 <= j < |es| && PublishedAs(r.batch, r.outcome.commit, es[j].batch);
    assert es[j] in multiset(sorted);
    var k :| 0 <= k < |sorted| && sorted[k] == es[j];
    assert BatchesOf(sorted)[k] == es[j].batch;
  }
}
