/** What a log says, read against the engine's ledger: which batches it prepared,
    which it marked finalized, and which of them are live. */
module LogViews {
  import opened Wrappers
  import opened Widths
  import opened ChangeTypes
  import opened Codec

  // ---------------------------------------------------------------------------
  // Placeholder resolution
  // ---------------------------------------------------------------------------

  function ResolveKey(k: VersionKey, commit: u64): VersionKey {
    if k.LsmKey? && k.version == 0 then k.(version := commit) else k
  }

  function ResolveChange(c: Change, commit: u64): Change {
    if c.Delete? then c else c.(newVersion := ResolveKey(c.newVersion, commit))
  }

  function ResolveAll(ms: seq<Change>, commit: u64): (r: seq<Change>)
    ensures |r| == |ms|
  {
    seq(|ms|, i requires 0 <= i < |ms| => ResolveChange(ms[i], commit))
  }

  /** The committed form of a batch: placeholders become the commit sequence. */
  function Resolve(b: Batch, commit: Option<u64>): Batch {
    if commit.None? then b else b.(mutations := ResolveAll(b.mutations, commit.value))
  }

  /** The new version of a change as its commit publishes it: a placeholder of an LSM
      key takes the commit sequence, every other key stays. */
  predicate VersionPublishedAs(staged: VersionKey, commit: Option<u64>, published: VersionKey) {
    if staged.LsmKey? && staged.version == 0 && commit.Some? then published == LsmKey(staged.storageId, staged.rowId, commit.value)
    else published == staged
  }

  predicate ChangePublishedAs(staged: Change, commit: Option<u64>, published: Change) {
    match staged
    case Insert(n, row) => published.Insert? && published.after == row && VersionPublishedAs(n, commit, published.newVersion)
    case Update(o, n, row) =>
      published.Update? && published.oldVersion == o && published.after == row && VersionPublishedAs(n, commit, published.newVersion)
    case Delete(o) => published == Delete(o)
  }

  /** `published` is the staged batch with its placeholders replaced, and nothing else changed. */
  predicate PublishedAs(staged: Batch, commit: Option<u64>, published: Batch) {
    && published.sequence == staged.sequence && published.txn == staged.txn && published.databaseTxn == staged.databaseTxn
    && published.tableId == staged.tableId && published.storageId == staged.storageId && published.fingerprint == staged.fingerprint
    && published.before == staged.before && published.after == staged.after
    && |published.mutations| == |staged.mutations|
    && forall j :: 0 <= j < |staged.mutations| ==> ChangePublishedAs(staged.mutations[j], commit, published.mutations[j])
  }

  /** Resolution publishes a batch, and there is no other way to. */
  lemma {:induction false} ResolvePublishes(b: Batch, commit: Option<u64>, published: Batch)
    ensures PublishedAs(b, commit, published) <==> published == Resolve(b, commit)
  {
    var r := Resolve(b, commit);
    assert forall j :: 0 <= j < |b.mutations| ==> ChangePublishedAs(b.mutations[j], commit, r.mutations[j]);
    if PublishedAs(b, commit, published) {
      forall j | 0 <= j < |b.mutations| ensures published.mutations[j] == r.mutations[j] {
        assert ChangePublishedAs(b.mutations[j], commit, published.mutations[j]);
      }
      assert published.mutations == r.mutations;
    }
  }

  /** A version of this engine, and for an LSM one that a commit has given its sequence. */
  predicate Versioned(kind: StorageKind, k: VersionKey) {
    if kind.HeapStorage? then k.HeapKey? else k.LsmKey? && k.version != 0
  }

  /** A batch readers may see: every version in it is one of the engine, and none a placeholder. */
  predicate ValidCommittedBatch(kind: StorageKind, b: Batch) {
    forall i :: 0 <= i < |b.mutations| ==>
      match b.mutations[i]
      case Insert(n, _) => Versioned(kind, n)
      case Update(o, n, _) => Versioned(kind, o) && Versioned(kind, n)
      case Delete(o) => Versioned(kind, o)
  }

  /** The check on committed mutations passes for exactly these batches. */
  lemma {:induction false} CommittedIff(kind: StorageKind, b: Batch)
    ensures ValidCommittedBatch(kind, b) <==> forall i :: 0 <= i < |b.mutations| ==> ValidCommitted(kind, b.mutations[i])
  {
    forall i | 0 <= i < |b.mutations|
      ensures ValidCommitted(kind, b.mutations[i]) <==>
              match b.mutations[i]
              case Insert(n, _) => Versioned(kind, n)
              case Update(o, n, _) => Versioned(kind, o) && Versioned(kind, n)
              case Delete(o) => Versioned(kind, o)
    {
    }
  }

  /** The commit identity an engine reports: an LSM commit has a sequence, and zero is never one. */
  predicate CommitFits(kind: StorageKind, commit: Option<u64>) {
    commit != Some(0) && (kind.LsmStorage? ==> commit.Some?)
  }

  lemma {:induction false} ResolveTwice(b: Batch, commit: Option<u64>)
    requires commit != Some(0)
    ensures Resolve(Resolve(b, commit), commit) == Resolve(b, commit)
  {
    if commit.Some? {
      var r := ResolveAll(b.mutations, commit.value);
      assert ResolveAll(r, commit.value) == r;
    }
  }

  /** Resolution never changes an encoded length. */
  lemma {:induction false} ResolveKeepsListSize(ms: seq<Change>, commit: u64)
    ensures ListSize(ResolveAll(ms, commit)) == ListSize(ms)
  {
    if ms != [] {
      assert ResolveAll(ms, commit)[1..] == ResolveAll(ms[1..], commit);
      ResolveKeepsListSize(ms[1..], commit);
    }
  }

  lemma {:induction false} ResolveKeepsSize(b: Batch, commit: Option<u64>)
    ensures PayloadSize(Resolve(b, commit)) == PayloadSize(b)
  {
    if commit.Some? { ResolveKeepsListSize(b.mutations, commit.value); }
  }

  lemma {:induction false} ResolveKeepsErrors(ms: seq<Change>, commit: u64, storageId: u64)
    ensures FirstError(ResolveAll(ms, commit), storageId) == FirstError(ms, storageId)
  {
    if ms != [] {
      assert ResolveAll(ms, commit)[1..] == ResolveAll(ms[1..], commit);
      ResolveKeepsErrors(ms[1..], commit, storageId);
    }
  }

  /** A resolved batch can be written and loaded again whenever the original can. */
  lemma {:induction false} ResolveStaysEncodable(h: Header, b: Batch, commit: Option<u64>)
    requires Encodable(h, b) && commit != Some(0)
    ensures Encodable(h, Resolve(b, commit))
  {
    ResolveKeepsSize(b, commit);
    if commit.Some? {
      ResolveKeepsErrors(b.mutations, commit.value, b.storageId);
      var ms, r := b.mutations, ResolveAll(b.mutations, commit.value);
      assert forall i :: 0 <= i < |ms| ==> r[i] == ResolveChange(ms[i], commit.value);
      assert AllFit(r) by { assert forall i :: 0 <= i < |ms| ==> Fits(ms[i]); }
      assert forall i :: 0 <= i < |r| ==> ValidPending(h.kind, r[i]) by {
        forall i | 0 <= i < |r| ensures ValidPending(h.kind, r[i]) { assert ValidPending(h.kind, ms[i]); }
      }
    }
  }

  /** An engine-shaped commit makes every loadable batch a valid committed one. */
  lemma {:induction false} CommitMakesValid(h: Header, b: Batch, commit: Option<u64>)
    requires Encodable(h, b) && CommitFits(h.kind, commit)
    ensures ValidCommittedBatch(h.kind, Resolve(b, commit))
  {
    var r := Resolve(b, commit);
    forall i | 0 <= i < |r.mutations| ensures ValidCommitted(h.kind, r.mutations[i]) {
      assert ValidPending(h.kind, b.mutations[i]);
    }
  }

  // ---------------------------------------------------------------------------
  // Ledgers
  // ---------------------------------------------------------------------------

  type Ledger = map<u64, Outcome>

  function OutcomeOf(truth: Ledger, txn: u64): Outcome {
    if txn in truth then truth[txn] else Unresolved
  }

  function CommitOf(o: Outcome): Option<u64> {
    if o.Committed? then o.commit else None
  }

  // ---------------------------------------------------------------------------
  // Views
  // ---------------------------------------------------------------------------

  function PreparedOf(log: seq<Record>): seq<Batch> {
    if log == [] then []
    else
      var n := |log| - 1;
      PreparedOf(log[..n]) + (if log[n].Prepared? then [log[n].batch] else [])
  }

  datatype Marker = Marker(txn: u64, commit: Option<u64>)

  function MarkersOf(log: seq<Record>): seq<Marker> {
    if log == [] then []
    else
      var n := |log| - 1;
      MarkersOf(log[..n]) + (if log[n].Finalize? then [Marker(log[n].txn, log[n].commit)] else [])
  }

  /** The batches whose transaction has not been aborted. */
  function LiveOf(bs: seq<Batch>, truth: Ledger): seq<Batch> {
    if bs == [] then []
    else
      var n := |bs| - 1;
      LiveOf(bs[..n], truth) + (if OutcomeOf(truth, bs[n].txn).Aborted? then [] else [bs[n]])
  }

  predicate HasTxn(bs: seq<Batch>, txn: u64) {
    exists i :: 0 <= i < |bs| && bs[i].txn == txn
  }

  predicate Marked(ms: seq<Marker>, txn: u64) {
    exists i :: 0 <= i < |ms| && ms[i].txn == txn
  }

  /** Reservation order: sequences grow and no transaction appears twice. */
  predicate Ordered(bs: seq<Batch>) {
    forall i, j :: 0 <= i < j < |bs| ==> bs[i].sequence < bs[j].sequence && bs[i].txn != bs[j].txn
  }

  lemma OrderedPrefix(bs: seq<Batch>, n: nat)
    requires Ordered(bs) && n <= |bs|
    ensures Ordered(bs[..n])
  {
  }

  /** Frontiers advance by one from `from`. */
  predicate Chain(bs: seq<Batch>, from: int) {
    forall i :: 0 <= i < |bs| ==> bs[i].before == from + i && bs[i].after == from + i + 1
  }

  /** Every marker follows its prepared record and none is repeated. */
  predicate MarkersFollow(log: seq<Record>) {
    log == [] ||
    var n := |log| - 1;
    && MarkersFollow(log[..n])
    && (log[n].Finalize? ==> HasTxn(PreparedOf(log[..n]), log[n].txn) && !Marked(MarkersOf(log[..n]), log[n].txn))
  }

  lemma {:induction false} PreparedAppend(log: seq<Record>, r: Record)
    ensures PreparedOf(log + [r]) == if r.Prepared? then PreparedOf(log) + [r.batch] else PreparedOf(log)
    ensures MarkersOf(log + [r]) == if r.Finalize? then MarkersOf(log) + [Marker(r.txn, r.commit)] else MarkersOf(log)
  {
    assert (log + [r])[..|log|] == log;
  }

  lemma {:induction false} LiveAppend(bs: seq<Batch>, b: Batch, truth: Ledger)
    ensures LiveOf(bs + [b], truth) == if OutcomeOf(truth, b.txn).Aborted? then LiveOf(bs, truth) else LiveOf(bs, truth) + [b]
  {
    assert (bs + [b])[..|bs|] == bs;
  }

  lemma {:induction false} ViewsPrefix(log: seq<Record>, k: nat)
    requires k <= |log|
    ensures PreparedOf(log[..k]) <= PreparedOf(log) && MarkersOf(log[..k]) <= MarkersOf(log)
  {
    if k == |log| {
      assert log[..k] == log;
    } else {
      var n := |log| - 1;
      assert log[..n][..k] == log[..k];
      ViewsPrefix(log[..n], k);
    }
  }

  lemma {:induction false} FollowPrefix(log: seq<Record>, k: nat)
    requires k <= |log| && MarkersFollow(log)
    ensures MarkersFollow(log[..k])
  {
    if k == |log| {
      assert log[..k] == log;
    } else {
      assert log[..|log| - 1][..k] == log[..k];
      FollowPrefix(log[..|log| - 1], k);
    }
  }

  lemma {:induction false} LivePrefix(bs: seq<Batch>, bs': seq<Batch>, truth: Ledger)
    requires bs <= bs'
    ensures LiveOf(bs, truth) <= LiveOf(bs', truth)
    decreases |bs'|
  {
    if |bs| == |bs'| {
      assert bs == bs';
    } else {
      LivePrefix(bs, bs'[..|bs'| - 1], truth);
    }
  }

  lemma {:induction false} LiveIn(bs: seq<Batch>, truth: Ledger, b: Batch)
    requires b in LiveOf(bs, truth)
    ensures b in bs && !OutcomeOf(truth, b.txn).Aborted?
  {
    var n := |bs| - 1;
    if b in LiveOf(bs[..n], truth) {
      LiveIn(bs[..n], truth, b);
    }
  }

  lemma {:induction false} LiveOrdered(bs: seq<Batch>, truth: Ledger)
    requires Ordered(bs)
    ensures Ordered(LiveOf(bs, truth))
  {
    if bs != [] {
      var n := |bs| - 1;
      var front := LiveOf(bs[..n], truth);
      LiveOrdered(bs[..n], truth);
      forall i | 0 <= i < |front| ensures front[i].sequence < bs[n].sequence && front[i].txn != bs[n].txn {
        LiveIn(bs[..n], truth, front[i]);
      }
    }
  }

  /** Committing a transaction that was not aborted changes no live view. */
  lemma {:induction false} LiveAfterCommit(bs: seq<Batch>, truth: Ledger, txn: u64, commit: Option<u64>)
    requires !OutcomeOf(truth, txn).Aborted?
    ensures LiveOf(bs, truth[txn := Committed(commit)]) == LiveOf(bs, truth)
  {
    if bs != [] { LiveAfterCommit(bs[..|bs| - 1], truth, txn, commit); }
  }

  /** Aborting a transaction outside the list changes nothing. */
  lemma {:induction false} LiveAfterForeignAbort(bs: seq<Batch>, truth: Ledger, txn: u64)
    requires !HasTxn(bs, txn)
    ensures LiveOf(bs, truth[txn := Aborted]) == LiveOf(bs, truth)
  {
    if bs != [] {
      var n := |bs| - 1;
      assert bs[n].txn != txn;
      assert forall i :: 0 <= i < n ==> bs[..n][i] == bs[i];
      LiveAfterForeignAbort(bs[..n], truth, txn);
    }
  }

  /** Aborting the newest live reservation removes it and nothing else. */
  lemma {:induction false} LiveAfterAbort(bs: seq<Batch>, truth: Ledger, txn: u64)
    requires Ordered(bs) && LiveOf(bs, truth) != []
    requires LiveOf(bs, truth)[|LiveOf(bs, truth)| - 1].txn == txn
    ensures LiveOf(bs, truth[txn := Aborted]) == LiveOf(bs, truth)[..|LiveOf(bs, truth)| - 1]
  {
    var n := |bs| - 1;
    var front := bs[..n];
    if OutcomeOf(truth, bs[n].txn).Aborted? {
      LiveAfterAbort(front, truth, txn);
    } else {
      assert !HasTxn(front, txn);
      LiveAfterForeignAbort(front, truth, txn);
    }
  }

  lemma {:induction false} HasTxnLive(bs: seq<Batch>, truth: Ledger, i: nat)
    requires i < |LiveOf(bs, truth)|
    ensures HasTxn(bs, LiveOf(bs, truth)[i].txn)
  {
    LiveIn(bs, truth, LiveOf(bs, truth)[i]);
    var j :| 0 <= j < |bs| && bs[j] == LiveOf(bs, truth)[i];
  }

  /** In an ordered list a transaction has one place. */
  lemma TxnUnique(bs: seq<Batch>, i: nat, j: nat)
    requires Ordered(bs) && i < |bs| && j < |bs| && bs[i].txn == bs[j].txn
    ensures i == j
  {
  }
}
