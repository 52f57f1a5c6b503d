/** Exactly which loaded records rebuild, and what is wrong with those that do not. */
module Rebuildable {
  import opened Wrappers
  import opened Widths
  import opened ChangeTypes
  import opened Loading
  import opened LogViews
  import opened StreamSpec
  import opened Recovery
  import opened Rebuilding
  import Answers

  // ---------------------------------------------------------------------------
  // The order of the committed records
  // ---------------------------------------------------------------------------

  /** Record `i` goes before record `j`: by sequence, and by place in the log where that is equal. */
  predicate Precedes(rs: seq<PreparedRecord>, i: nat, j: nat)
    requires i < |rs| && j < |rs|
  {
    rs[i].batch.sequence < rs[j].batch.sequence || (rs[i].batch.sequence == rs[j].batch.sequence && i < j)
  }

  /** The committed records, by index, in that order. */
  predicate InOrder(rs: seq<PreparedRecord>, order: seq<nat>) {
    && (forall k :: 0 <= k < |order| ==> order[k] < |rs| && rs[order[k]].outcome.Committed?)
    && (forall k, l :: 0 <= k < l < |order| ==> Precedes(rs, order[k], order[l]))
    && (forall i :: 0 <= i < |rs| && rs[i].outcome.Committed? ==> i in order)
  }

  /** The batches are those of the records, published. */
  predicate Matches(rs: seq<PreparedRecord>, order: seq<nat>, es: seq<CommittedEntry>) {
    && |order| == |es|
    && forall k :: 0 <= k < |order| ==>
         order[k] < |rs| && rs[order[k]].outcome.Committed? && PublishedAs(rs[order[k]].batch, rs[order[k]].outcome.commit, es[k].batch)
  }

  function Put(rs: seq<PreparedRecord>, order: seq<nat>, i: nat): (r: seq<nat>)
    requires i < |rs| && forall k :: 0 <= k < |order| ==> order[k] < |rs|
    ensures |r| == |order| + 1 && forall x :: x in r <==> x in order || x == i
  {
    if order == [] || rs[order[|order| - 1]].batch.sequence <= rs[i].batch.sequence then order + [i]
    else
      assert order == order[..|order| - 1] + [order[|order| - 1]];
      Put(rs, order[..|order| - 1], i) + [order[|order| - 1]]
  }

  lemma {:induction false} PutMatches(rs: seq<PreparedRecord>, order: seq<nat>, es: seq<CommittedEntry>, e: CommittedEntry, i: nat)
    requires i < |rs| && Matches(rs, order, es) && rs[i].outcome.Committed? && PublishedAs(rs[i].batch, rs[i].outcome.commit, e.batch)
    ensures Matches(rs, Put(rs, order, i), InsertBySequence(es, e))
    decreases |order|
  {
    if order != [] && rs[order[|order| - 1]].batch.sequence > rs[i].batch.sequence {
      PutMatches(rs, order[..|order| - 1], es[..|es| - 1], e, i);
    }
  }

  /** The last record goes behind all that do not come after it. */
  lemma {:induction false} PutInOrder(rs: seq<PreparedRecord>, order: seq<nat>, i: nat)
    requires i < |rs| && (forall k :: 0 <= k < |order| ==> order[k] < i)
    requires forall k, l :: 0 <= k < l < |order| ==> Precedes(rs, order[k], order[l])
    ensures var r := Put(rs, order, i); forall k, l :: 0 <= k < l < |r| ==> r[k] < |rs| && r[l] < |rs| && Precedes(rs, r[k], r[l])
    decreases |order|
  {
    var r := Put(rs, order, i);
    var n := |order| - 1;
    if order != [] && rs[order[n]].batch.sequence > rs[i].batch.sequence {
      PutInOrder(rs, order[..n], i);
      forall k | 0 <= k < n + 1 ensures r[k] < |rs| && Precedes(rs, r[k], order[n]) {
        assert r[k] in Put(rs, order[..n], i);
        if r[k] != i { var l :| 0 <= l < n && order[l] == r[k]; }
      }
    } else {
      forall k | 0 <= k < |order| ensures Precedes(rs, order[k], i) {
        if k < n { assert Precedes(rs, order[k], order[n]); }
      }
    }
  }

  ghost predicate OrderedAs(rs: seq<PreparedRecord>, order: seq<nat>, committed: seq<CommittedEntry>) {
    InOrder(rs, order) && Matches(rs, order, SortBySequence(committed))
  }

  /** Gathering and sorting puts the committed records in order. */
  lemma {:induction false} SortOrders(kind: StorageKind, rs: seq<PreparedRecord>, fileBytes: nat) returns (order: seq<nat>)
    requires Gather(kind, rs, fileBytes).Ok?
    ensures OrderedAs(rs, order, Gather(kind, rs, fileBytes).value.committed)
    decreases |rs|
  {
    hide GatherOne, PublishedAs, InsertBySequence;
    if rs == [] { return []; }
    var n := |rs| - 1;
    var front, r := rs[..n], rs[n];
    var before := SortOrders(kind, front, fileBytes);
    var g, g' := Gather(kind, front, fileBytes).value, Gather(kind, rs, fileBytes).value;
    GatherOneMeans(kind, g, r);
    LongerOrder(rs, before, SortBySequence(g.committed));
    if r.outcome.Committed? {
      var e := g'.committed[|g.committed|];
      assert g'.committed[..|g'.committed| - 1] == g.committed;
      order := Put(rs, before, n);
      PutMatches(rs, before, SortBySequence(g.committed), e, n);
      PutInOrder(rs, before, n);
      WithLast(rs, before);
    } else {
      order := before;
    }
  }

  lemma {:induction false} WithLast(rs: seq<PreparedRecord>, before: seq<nat>)
    requires rs != [] && rs[|rs| - 1].outcome.Committed?
    requires forall k :: 0 <= k < |before| ==> before[k] < |rs| && rs[before[k]].outcome.Committed?
    requires forall i :: 0 <= i < |rs| - 1 && rs[i].outcome.Committed? ==> i in before
    ensures var order := Put(rs, before, |rs| - 1);
            && (forall k :: 0 <= k < |order| ==> order[k] < |rs| && rs[order[k]].outcome.Committed?)
            && (forall i :: 0 <= i < |rs| && rs[i].outcome.Committed? ==> i in order)
  {
    hide Put;
    var order := Put(rs, before, |rs| - 1);
    forall k | 0 <= k < |order| ensures order[k] < |rs| && rs[order[k]].outcome.Committed? {
      assert order[k] in order;
      if order[k] != |rs| - 1 { var l :| 0 <= l < |before| && before[l] == order[k]; }
    }
  }

  lemma {:induction false} LongerOrder(rs: seq<PreparedRecord>, order: seq<nat>, es: seq<CommittedEntry>)
    requires rs != [] && InOrder(rs[..|rs| - 1], order) && Matches(rs[..|rs| - 1], order, es)
    ensures Matches(rs, order, es) && (forall k :: 0 <= k < |order| ==> order[k] < |rs| - 1)
    ensures forall k, l :: 0 <= k < l < |order| ==> Precedes(rs, order[k], order[l])
    ensures forall i :: 0 <= i < |rs| - 1 && rs[i].outcome.Committed? ==> i in order
  {
    hide PublishedAs;
    var front := rs[..|rs| - 1];
    forall i | 0 <= i < |front| ensures front[i] == rs[i] {}
    forall k, l | 0 <= k < l < |order| ensures Precedes(rs, order[k], order[l]) { assert Precedes(front, order[k], order[l]); }
    forall i | 0 <= i < |rs| - 1 && rs[i].outcome.Committed? ensures i in order { assert front[i].outcome.Committed?; }
  }

  predicate Ascending(rs: seq<PreparedRecord>, order: seq<nat>) {
    && (forall k :: 0 <= k < |order| ==> order[k] < |rs|)
    && (forall k, l :: 0 <= k < l < |order| ==> Precedes(rs, order[k], order[l]))
  }

  function Members(order: seq<nat>): set<nat> {
    set x | x in order
  }

  lemma {:induction false} WithoutLast(rs: seq<PreparedRecord>, a: seq<nat>)
    requires a != [] && Ascending(rs, a)
    ensures Ascending(rs, a[..|a| - 1]) && Members(a[..|a| - 1]) == Members(a) - {a[|a| - 1]}
  {
    var m := |a| - 1;
    forall x | x in a[..m] ensures x in a && x != a[m] {
      var k :| 0 <= k < m && a[k] == x;
      assert Precedes(rs, a[k], a[m]);
    }
  }

  lemma {:induction false} NoMembers(a: seq<nat>)
    ensures Members(a) == {} <==> a == []
  {
    if a != [] { assert a[0] in Members(a); }
  }

  /** The last of an ascending sequence is preceded by every other member. */
  lemma {:induction false} LastIs(rs: seq<PreparedRecord>, a: seq<nat>, x: nat)
    requires a != [] && Ascending(rs, a) && x in Members(a)
    ensures x < |rs| && (x == a[|a| - 1] || Precedes(rs, x, a[|a| - 1]))
  {
    var k :| 0 <= k < |a| && a[k] == x;
  }

  /** There is one such order. */
  lemma {:induction false} OrderIsUnique(rs: seq<PreparedRecord>, a: seq<nat>, b: seq<nat>)
    requires Ascending(rs, a) && Ascending(rs, b) && Members(a) == Members(b)
    ensures a == b
    decreases |a|
  {
    hide Ascending;
    NoMembers(a);
    NoMembers(b);
    if a != [] {
      var m, n := |a| - 1, |b| - 1;
      assert a[m] in Members(b) && b[n] in Members(a);
      LastIs(rs, b, a[m]);
      LastIs(rs, a, b[n]);
      WithoutLast(rs, a);
      WithoutLast(rs, b);
      OrderIsUnique(rs, a[..m], b[..n]);
      assert a == a[..m] + [a[m]] && b == b[..n] + [b[n]];
    }
  }

  // ---------------------------------------------------------------------------
  // Which records are gathered
  // ---------------------------------------------------------------------------

  /** The committed records without a marker; each gets one appended. */
  function Unmarked(rs: seq<PreparedRecord>): nat {
    if rs == [] then 0
    else Unmarked(rs[..|rs| - 1]) + if rs[|rs| - 1].outcome.Committed? && !rs[|rs| - 1].finalized then 1 else 0
  }

  predicate DistinctTxns(rs: seq<PreparedRecord>) {
    forall i, j :: 0 <= i < j < |rs| ==> rs[i].batch.txn != rs[j].batch.txn
  }

  /** A record that a rebuild can publish. */
  ghost predicate Publishable(kind: StorageKind, r: PreparedRecord) {
    r.outcome.Committed? ==>
      && (kind.LsmStorage? ==> r.outcome.commit.Some?)
      && (forall b :: PublishedAs(r.batch, r.outcome.commit, b) ==> ValidCommittedBatch(kind, b))
      && (r.finalized || r.batch.txn != 0)
  }

  ghost predicate AllPublishable(kind: StorageKind, rs: seq<PreparedRecord>) {
    forall i :: 0 <= i < |rs| ==> Publishable(kind, rs[i])
  }

  /** There is room for the markers to append. */
  predicate RoomToMark(rs: seq<PreparedRecord>, fileBytes: nat) {
    Unmarked(rs) > 0 ==> fileBytes + 32 * Unmarked(rs) <= MAX_U64
  }

  lemma {:induction false} OneGathers(kind: StorageKind, g: Gathered, r: PreparedRecord)
    ensures GatherOne(kind, g, r).Ok? <==>
            && r.batch.txn !in g.seen && Publishable(kind, r)
            && (r.outcome.Committed? && !r.finalized ==> g.fileBytes + 32 <= MAX_U64)
    ensures GatherOne(kind, g, r).Ok? ==>
            var g' := GatherOne(kind, g, r).value;
            && g'.fileBytes == g.fileBytes + (if r.outcome.Committed? && !r.finalized then 32 else 0)
            && g'.maxSequence == if r.batch.sequence > g.maxSequence then r.batch.sequence else g.maxSequence
  {
    hide Resolve, PublishedAs, ValidCommittedBatch, ValidCommitted;
    if r.outcome.Committed? {
      var b := Resolve(r.batch, r.outcome.commit);
      forall p ensures PublishedAs(r.batch, r.outcome.commit, p) <==> p == b { ResolvePublishes(r.batch, r.outcome.commit, p); }
      CommittedIff(kind, b);
    }
  }

  lemma {:induction false} GathersIff(kind: StorageKind, rs: seq<PreparedRecord>, fileBytes: nat)
    ensures Gather(kind, rs, fileBytes).Ok? <==> DistinctTxns(rs) && AllPublishable(kind, rs) && RoomToMark(rs, fileBytes)
    ensures Gather(kind, rs, fileBytes).Ok? ==>
            var g := Gather(kind, rs, fileBytes).value;
            && g.fileBytes == fileBytes + 32 * Unmarked(rs)
            && (g.maxSequence < MAX_U64 <==> forall i :: 0 <= i < |rs| ==> rs[i].batch.sequence < MAX_U64)
    decreases |rs|
  {
    hide GatherOne, Publishable;
    if rs != [] {
      var n := |rs| - 1;
      var front, r := rs[..n], rs[n];
      GathersIff(kind, front, fileBytes);
      forall i | 0 <= i < n ensures front[i] == rs[i] {}
      if Gather(kind, front, fileBytes).Ok? {
        var g := Gather(kind, front, fileBytes).value;
        OneGathers(kind, g, r);
        GatherMeans(kind, front, fileBytes);
        assert r.batch.txn in g.seen <==> HasRecord(front, r.batch.txn);
        DistinctFront(rs);
      }
    }
  }

  lemma {:induction false} DistinctFront(rs: seq<PreparedRecord>)
    requires rs != []
    ensures DistinctTxns(rs) <==> DistinctTxns(rs[..|rs| - 1]) && !HasRecord(rs[..|rs| - 1], rs[|rs| - 1].batch.txn)
  {
    var n := |rs| - 1;
    var front := rs[..n];
    forall i | 0 <= i < n ensures front[i] == rs[i] {}
    if HasRecord(front, rs[n].batch.txn) {
      var i :| 0 <= i < n && front[i].batch.txn == rs[n].batch.txn;
      assert rs[i].batch.txn == rs[n].batch.txn;
    }
    if DistinctTxns(front) && !HasRecord(front, rs[n].batch.txn) {
      forall i, j | 0 <= i < j < |rs| ensures rs[i].batch.txn != rs[j].batch.txn {
        assert front[i].batch.txn == rs[i].batch.txn;
        if j < n { assert front[i].batch.txn != front[j].batch.txn; }
      }
    }
  }

  // ---------------------------------------------------------------------------
  // Which records rebuild
  // ---------------------------------------------------------------------------

  /** In order, the committed records lead from the earliest frontier, without a gap,
      at least as far as the header says the stream had come. */
  predicate Leads(h: Header, rs: seq<PreparedRecord>, order: seq<nat>)
    requires forall k :: 0 <= k < |order| ==> order[k] < |rs|
  {
    && (forall k :: 0 <= k < |order| ==> rs[order[k]].batch.before == h.earliest + k && rs[order[k]].batch.after == h.earliest + k + 1)
    && h.current <= h.earliest + |order|
    && (order == [] ==> h.earliest == h.current)
  }

  ghost predicate CanRebuild(h: Header, fileBytes: nat, rs: seq<PreparedRecord>) {
    && DistinctTxns(rs) && AllPublishable(h.kind, rs) && RoomToMark(rs, fileBytes)
    && (forall i :: 0 <= i < |rs| ==> rs[i].batch.sequence < MAX_U64)
    && exists order: seq<nat> :: InOrder(rs, order) && Leads(h, rs, order)
  }

  lemma {:induction false} LeadsIff(h: Header, rs: seq<PreparedRecord>, order: seq<nat>, es: seq<CommittedEntry>)
    requires Matches(rs, order, es)
    ensures var bs := BatchesOf(es);
            Leads(h, rs, order) <==> Chain(bs, h.earliest) && h.current <= EffectiveCurrent(h, bs) && (bs == [] ==> h.earliest == h.current)
  {
    var bs := BatchesOf(es);
    forall k | 0 <= k < |order|
      ensures bs[k].before == rs[order[k]].batch.before && bs[k].after == rs[order[k]].batch.after
    {
      assert PublishedAs(rs[order[k]].batch, rs[order[k]].outcome.commit, es[k].batch);
    }
    if Chain(bs, h.earliest) { EndsAt(h, bs); }
  }

  /** A rebuild succeeds exactly on these records. */
  lemma {:induction false} BuildsIff(h: Header, fileBytes: nat, rs: seq<PreparedRecord>)
    ensures Build(h, fileBytes, rs).Ok? <==> CanRebuild(h, fileBytes, rs)
  {
    hide Gather, SortBySequence, ChainError, Chain, Matches, InOrder, Leads, DistinctTxns, AllPublishable, RoomToMark;
    GathersIff(h.kind, rs, fileBytes);
    if Gather(h.kind, rs, fileBytes).Ok? {
      var g := Gather(h.kind, rs, fileBytes).value;
      var order := SortOrders(h.kind, rs, fileBytes);
      var bs := BatchesOf(SortBySequence(g.committed));
      ChainErrorIff(h.earliest, bs);
      Indexes(rs, order);
      LeadsIff(h, rs, order, SortBySequence(g.committed));
      forall other: seq<nat> | InOrder(rs, other) ensures other == order { OneOrder(rs, order, other); }
    }
  }

  lemma Indexes(rs: seq<PreparedRecord>, order: seq<nat>)
    requires InOrder(rs, order)
    ensures forall k :: 0 <= k < |order| ==> order[k] < |rs|
  {
  }

  lemma {:induction false} OneOrder(rs: seq<PreparedRecord>, a: seq<nat>, b: seq<nat>)
    requires InOrder(rs, a) && InOrder(rs, b)
    ensures a == b
  {
    forall x | x in a ensures x in b { var k :| 0 <= k < |a| && a[k] == x; assert rs[a[k]].outcome.Committed?; }
    forall x | x in b ensures x in a { var k :| 0 <= k < |b| && b[k] == x; assert rs[b[k]].outcome.Committed?; }
    assert Members(a) == Members(b);
    OrderIsUnique(rs, a, b);
  }

  // ---------------------------------------------------------------------------
  // What is wrong with the others
  // ---------------------------------------------------------------------------

  /** What the error says of the records is so. */
  ghost predicate BuildFault(h: Header, fileBytes: nat, rs: seq<PreparedRecord>, e: StreamError) {
    match e
    case InvalidRecord(DuplicateTransaction) => !DistinctTxns(rs)
    case InvalidRecord(LsmFinalizeWithoutCommit) => h.kind.LsmStorage? && exists i :: 0 <= i < |rs| && rs[i].outcome == Committed(None)
    case InvalidRecord(ZeroTransaction) => exists i :: 0 <= i < |rs| && rs[i].outcome.Committed? && !rs[i].finalized && rs[i].batch.txn == 0
    case RecordTooLarge(limit) => limit == MAX_U64 && fileBytes + 32 * Unmarked(rs) > MAX_U64
    case InvalidHeader(EmptyLogFrontiers) => h.earliest != h.current && forall i :: 0 <= i < |rs| ==> !rs[i].outcome.Committed?
    case InvalidHeader(HistoryEndsEarly) => exists order: seq<nat> :: InOrder(rs, order) && h.earliest + |order| < h.current
    case ChangeGap(expected, actual) =>
      exists order: seq<nat>, k: nat ::
        BreaksAt(h, rs, order, k) && expected == h.earliest + k && actual == rs[order[k]].batch.before && actual != expected
    case InvalidRecord(VersionNotAdvancing) =>
      exists order: seq<nat>, k: nat :: BreaksAt(h, rs, order, k) && rs[order[k]].batch.before == h.earliest + k < MAX_U64
    case VersionExhausted =>
      || (exists i :: 0 <= i < |rs| && rs[i].batch.sequence == MAX_U64)
      || (exists i :: 0 <= i < |rs| && rs[i].outcome.Committed? && rs[i].batch.before == MAX_U64)
    case _ => exists i :: 0 <= i < |rs| && Unpublishable(h.kind, rs[i], e)
  }

  /** The record is the first, in order, that does not continue the chain. */
  predicate BreaksAt(h: Header, rs: seq<PreparedRecord>, order: seq<nat>, k: nat) {
    && InOrder(rs, order) && k < |order|
    && (forall l :: 0 <= l < k ==> rs[order[l]].batch.before == h.earliest + l && rs[order[l]].batch.after == h.earliest + l + 1)
    && !(rs[order[k]].batch.before == h.earliest + k && rs[order[k]].batch.after == h.earliest + k + 1)
  }

  /** Published, one of its changes has the version or the engine the error complains of. */
  ghost predicate Unpublishable(kind: StorageKind, r: PreparedRecord, e: StreamError) {
    && r.outcome.Committed?
    && exists b: Batch, j: nat :: PublishedAs(r.batch, r.outcome.commit, b) && j < |b.mutations| && Answers.PublishFault(b.mutations[j], kind, e)
  }

  lemma {:induction false} FirstBreak(from: u64, bs: seq<Batch>) returns (i: nat)
    requires ChainError(from, bs).Some?
    ensures i < |bs| && Chain(bs[..i], from) && from + i <= MAX_U64 && !(bs[i].before == from + i && bs[i].after == from + i + 1)
    decreases |bs|
  {
    if bs[0].before == from && bs[0].after == from + 1 {
      var j := FirstBreak(bs[0].after, bs[1..]);
      i := j + 1;
      forall k | 0 <= k < i ensures bs[k].before == from + k && bs[k].after == from + k + 1 {
        if k > 0 { assert bs[k] == bs[1..][..j][k - 1]; }
      }
    } else {
      i := 0;
    }
  }

  lemma {:induction false} OneRefusedAs(kind: StorageKind, g: Gathered, r: PreparedRecord)
    requires GatherOne(kind, g, r).Err?
    ensures match GatherOne(kind, g, r).error
            case InvalidRecord(DuplicateTransaction) => r.batch.txn in g.seen
            case InvalidRecord(LsmFinalizeWithoutCommit) => kind.LsmStorage? && r.outcome == Committed(None)
            case InvalidRecord(ZeroTransaction) => r.outcome.Committed? && !r.finalized && r.batch.txn == 0
            case RecordTooLarge(limit) => limit == MAX_U64 && r.outcome.Committed? && !r.finalized && g.fileBytes + 32 > MAX_U64
            case _ => Unpublishable(kind, r, GatherOne(kind, g, r).error)
  {
    hide Resolve, PublishedAs, CommittedError, Answers.PublishFault;
    if r.outcome.Committed? {
      var b := Resolve(r.batch, r.outcome.commit);
      ResolvePublishes(r.batch, r.outcome.commit, b);
      if CommittedError(b.mutations, kind).Some? {
        var e := CommittedError(b.mutations, kind).value;
        Answers.CommittedErrorMeans(b.mutations, kind);
        var j :| 0 <= j < |b.mutations| && Answers.PublishFault(b.mutations[j], kind, e);
        OnlyVersions(b.mutations[j], kind, e);
        if GatherOne(kind, g, r).error == e { assert Unpublishable(kind, r, e); }
      }
    }
  }

  lemma OnlyVersions(c: Change, kind: StorageKind, e: StreamError)
    requires Answers.PublishFault(c, kind, e)
    ensures e == InvalidRecord(ZeroLsmVersion) || e == InvalidRecord(KeyKindMismatch)
  {
  }

  lemma {:induction false} GatherRefusedAs(h: Header, rs: seq<PreparedRecord>, fileBytes: nat)
    requires Gather(h.kind, rs, fileBytes).Err?
    ensures match Gather(h.kind, rs, fileBytes).error
            case InvalidRecord(DuplicateTransaction) => !DistinctTxns(rs)
            case InvalidRecord(LsmFinalizeWithoutCommit) => h.kind.LsmStorage? && exists i :: 0 <= i < |rs| && rs[i].outcome == Committed(None)
            case InvalidRecord(ZeroTransaction) => exists i :: 0 <= i < |rs| && rs[i].outcome.Committed? && !rs[i].finalized && rs[i].batch.txn == 0
            case RecordTooLarge(limit) => limit == MAX_U64 && fileBytes + 32 * Unmarked(rs) > MAX_U64
            case _ => exists i :: 0 <= i < |rs| && Unpublishable(h.kind, rs[i], Gather(h.kind, rs, fileBytes).error)
    decreases |rs|
  {
    hide GatherOne, Unpublishable, HasRecord;
    var n := |rs| - 1;
    var front, r := rs[..n], rs[n];
    forall i | 0 <= i < n ensures front[i] == rs[i] {}
    DistinctFront(rs);
    if Gather(h.kind, front, fileBytes).Err? {
      GatherRefusedAs(h, front, fileBytes);
    } else {
      var g := Gather(h.kind, front, fileBytes).value;
      GathersIff(h.kind, front, fileBytes);
      GatherMeans(h.kind, front, fileBytes);
      OneRefusedAs(h.kind, g, r);
    }
  }

  /** The chain breaks at the first committed record, in order, that does not continue it. */
  lemma {:induction false} ChainRefusedAs(h: Header, fileBytes: nat, rs: seq<PreparedRecord>, order: seq<nat>, es: seq<CommittedEntry>)
    requires InOrder(rs, order) && Matches(rs, order, es) && ChainError(h.earliest, BatchesOf(es)).Some?
    ensures BuildFault(h, fileBytes, rs, ChainError(h.earliest, BatchesOf(es)).value)
  {
    hide InOrder, DistinctTxns, Unpublishable, Unmarked, ChainError;
    var bs := BatchesOf(es);
    var k := FirstBreak(h.earliest, bs);
    ChainErrorIs(h.earliest, bs, k);
    forall l | 0 <= l < |order| ensures bs[l].before == rs[order[l]].batch.before && bs[l].after == rs[order[l]].batch.after {
      assert PublishedAs(rs[order[l]].batch, rs[order[l]].outcome.commit, es[l].batch);
    }
    forall l | 0 <= l < k ensures rs[order[l]].batch.before == h.earliest + l && rs[order[l]].batch.after == h.earliest + l + 1 {
      assert bs[..k][l] == bs[l];
    }
    assert BreaksAt(h, rs, order, k);
    assert rs[order[k]].outcome.Committed?;
  }

  lemma {:induction false} UnpublishableIs(kind: StorageKind, r: PreparedRecord, e: StreamError)
    requires Unpublishable(kind, r, e)
    ensures e == InvalidRecord(ZeroLsmVersion) || e == InvalidRecord(KeyKindMismatch)
  {
    hide PublishedAs, Answers.PublishFault;
    var b: Batch, j: nat :| PublishedAs(r.batch, r.outcome.commit, b) && j < |b.mutations| && Answers.PublishFault(b.mutations[j], kind, e);
    OnlyVersions(b.mutations[j], kind, e);
  }

  lemma OrderLength(rs: seq<PreparedRecord>, order: seq<nat>, es: seq<CommittedEntry>)
    requires InOrder(rs, order) && Matches(rs, order, es)
    ensures |order| == |es| && (es == [] ==> forall i :: 0 <= i < |rs| ==> !rs[i].outcome.Committed?)
  {
  }

  /** A rebuild that is refused is refused for what is so of its records. */
  lemma {:induction false} BuildRefusedAs(h: Header, fileBytes: nat, rs: seq<PreparedRecord>)
    requires Build(h, fileBytes, rs).Err?
    ensures BuildFault(h, fileBytes, rs, Build(h, fileBytes, rs).error)
  {
    hide Gather, SortBySequence, ChainError, Matches, InOrder, DistinctTxns, Unpublishable, BreaksAt;
    if Gather(h.kind, rs, fileBytes).Err? {
      GatherRefusedAs(h, rs, fileBytes);
      var e := Gather(h.kind, rs, fileBytes).error;
      forall i | 0 <= i < |rs| && Unpublishable(h.kind, rs[i], e)
        ensures e == InvalidRecord(ZeroLsmVersion) || e == InvalidRecord(KeyKindMismatch)
      {
        UnpublishableIs(h.kind, rs[i], e);
      }
    } else {
      var g := Gather(h.kind, rs, fileBytes).value;
      GathersIff(h.kind, rs, fileBytes);
      var order := SortOrders(h.kind, rs, fileBytes);
      var es := SortBySequence(g.committed);
      if ChainError(h.earliest, BatchesOf(es)).Some? {
        ChainRefusedAs(h, fileBytes, rs, order, es);
      } else {
        ChainErrorIff(h.earliest, BatchesOf(es));
        EndsAt(h, BatchesOf(es));
        OrderLength(rs, order, es);
      }
    }
  }
}
