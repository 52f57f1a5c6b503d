/** Transaction-local coalescing of row changes (PendingChangeSet).

    Three levels are connected here: the raw trace of row operations, the naive
    list that coalesces at once, and the class that indexes a vector with holes. */
module Pending {
  import opened Wrappers
  import opened ChangeTypes

  // ---------------------------------------------------------------------------
  // The naive list
  // ---------------------------------------------------------------------------

  /** Where `key` is currently made live, if anywhere. */
  function Position(list: seq<Change>, key: VersionKey): (p: Option<nat>)
    ensures p.Some? ==> p.value < |list| && NewKey(list[p.value]) == Some(key)
    ensures p.None? ==> forall i :: 0 <= i < |list| ==> NewKey(list[i]) != Some(key)
  {
    if list == [] then None
    else if NewKey(list[|list| - 1]) == Some(key) then Some(|list| - 1)
    else Position(list[..|list| - 1], key)
  }

  function WithNew(c: Change, key: VersionKey, row: Row): Change
    requires !c.Delete?
  {
    if c.Insert? then Insert(key, row) else Update(c.oldVersion, key, row)
  }

  function NaiveInsert(list: seq<Change>, key: VersionKey, row: Row): seq<Change> {
    list + [Insert(key, row)]
  }

  function NaiveUpdate(list: seq<Change>, old_: VersionKey, new_: VersionKey, row: Row): seq<Change> {
    match Position(list, old_)
    case Some(i) => list[i := WithNew(list[i], new_, row)]
    case None => list + [Update(old_, new_, row)]
  }

  function NaiveDelete(list: seq<Change>, old_: VersionKey): seq<Change> {
    match Position(list, old_)
    case Some(i) =>
      if list[i].Insert? then Without(list, i)
      else list[i := Delete(list[i].oldVersion)]
    case None => list + [Delete(old_)]
  }

  predicate DistinctNew(list: seq<Change>) {
    forall i, j :: 0 <= i < j < |list| && NewKey(list[i]).Some? ==> NewKey(list[i]) != NewKey(list[j])
  }

  lemma PositionUnique(list: seq<Change>, key: VersionKey, i: nat)
    requires DistinctNew(list) && i < |list| && NewKey(list[i]) == Some(key)
    ensures Position(list, key) == Some(i)
  {
  }

  // ---------------------------------------------------------------------------
  // Coalescing preserves meaning
  // ---------------------------------------------------------------------------

  type Versions = map<VersionKey, Row>

  datatype Operation =
    | DoInsert(key: VersionKey, row: Row)
    | DoUpdate(oldKey: VersionKey, newKey: VersionKey, row: Row)
    | DoDelete(oldKey: VersionKey)

  /** What one row operation does to the versions a reader would see. */
  function Perform(m: Versions, op: Operation): Versions {
    match op
    case DoInsert(k, row) => m[k := row]
    case DoUpdate(o, n, row) => (m - {o})[n := row]
    case DoDelete(o) => m - {o}
  }

  function PerformAll(base: Versions, ops: seq<Operation>): Versions {
    if ops == [] then base
    else Perform(PerformAll(base, ops[..|ops| - 1]), ops[|ops| - 1])
  }

  /** What the engine guarantees of an operation: it retires a version that is
      live, and the version it creates is neither in the base snapshot nor live;
      a pending version may be reused by its own row's next update. */
  predicate ValidOperation(base: Versions, m: Versions, op: Operation) {
    match op
    case DoInsert(k, _) => k !in base && k !in m
    case DoUpdate(o, n, _) => o in m && n !in base && (n == o || n !in m)
    case DoDelete(o) => o in m
  }

  predicate ValidTrace(base: Versions, ops: seq<Operation>) {
    ops == [] ||
    (ValidTrace(base, ops[..|ops| - 1]) &&
     ValidOperation(base, PerformAll(base, ops[..|ops| - 1]), ops[|ops| - 1]))
  }

  function Coalesce(list: seq<Change>, op: Operation): seq<Change> {
    match op
    case DoInsert(k, row) => NaiveInsert(list, k, row)
    case DoUpdate(o, n, row) => NaiveUpdate(list, o, n, row)
    case DoDelete(o) => NaiveDelete(list, o)
  }

  function CoalesceAll(ops: seq<Operation>): seq<Change> {
    if ops == [] then []
    else Coalesce(CoalesceAll(ops[..|ops| - 1]), ops[|ops| - 1])
  }

  /** Replaying one published change, as a change-stream consumer does. */
  function Replay(m: Versions, c: Change): Versions {
    match c
    case Insert(k, row) => m[k := row]
    case Update(o, n, row) => (m - {o})[n := row]
    case Delete(o) => m - {o}
  }

  function ReplayAll(base: Versions, list: seq<Change>): Versions {
    if list == [] then base
    else Replay(ReplayAll(base, list[..|list| - 1]), list[|list| - 1])
  }

  /** The shape every published list has: each old version is a base version
      retired once, each new version is fresh and made live once. */
  predicate Normal(base: Versions, list: seq<Change>) {
    && DistinctNew(list)
    && DistinctOld(list)
    && (forall i :: 0 <= i < |list| && OldKey(list[i]).Some? ==> OldKey(list[i]).value in base)
    && (forall i :: 0 <= i < |list| && NewKey(list[i]).Some? ==> NewKey(list[i]).value !in base)
  }

  predicate DistinctOld(list: seq<Change>) {
    forall i, j :: 0 <= i < j < |list| && OldKey(list[i]).Some? ==> OldKey(list[i]) != OldKey(list[j])
  }

  predicate Retired(list: seq<Change>, k: VersionKey) {
    exists i :: 0 <= i < |list| && OldKey(list[i]) == Some(k)
  }

  function Lookup(m: Versions, k: VersionKey): Option<Row> {
    if k in m then Some(m[k]) else None
  }

  /** The row a list leaves under `k`, whatever the order it is replayed in. */
  function Net(base: Versions, list: seq<Change>, k: VersionKey): Option<Row> {
    match Position(list, k)
    case Some(p) => Some(list[p].after)
    case None => if k in base && !Retired(list, k) then Some(base[k]) else None
  }

  ghost predicate Shows(m: Versions, base: Versions, list: seq<Change>) {
    forall k :: Lookup(m, k) == Net(base, list, k)
  }

  lemma {:induction false} ShowsUnique(m: Versions, m': Versions, base: Versions, list: seq<Change>)
    requires Shows(m, base, list) && Shows(m', base, list)
    ensures m == m'
  {
    forall k ensures (k in m <==> k in m') && (k in m ==> m[k] == m'[k]) {
      assert Lookup(m, k) == Lookup(m', k);
    }
  }

  lemma {:induction false} RetiredAppend(list: seq<Change>, c: Change, k: VersionKey)
    ensures Retired(list + [c], k) <==> Retired(list, k) || OldKey(c) == Some(k)
  {
    var l := list + [c];
    if Retired(list, k) {
      var i :| 0 <= i < |list| && OldKey(list[i]) == Some(k);
      assert l[i] == list[i];
    }
    if OldKey(c) == Some(k) {
      assert l[|list|] == c;
    }
  }

  lemma {:induction false} NetAppend(base: Versions, list: seq<Change>, c: Change, k: VersionKey)
    ensures Net(base, list + [c], k) ==
            if NewKey(c) == Some(k) then Some(c.after)
            else if Position(list, k).None? && OldKey(c) == Some(k) then None
            else Net(base, list, k)
  {
    assert (list + [c])[..|list|] == list;
    RetiredAppend(list, c, k);
  }

  /** Replaying a normal list one change at a time has its net effect. */
  lemma {:induction false} ReplayIsNet(base: Versions, list: seq<Change>)
    requires Normal(base, list)
    ensures Shows(ReplayAll(base, list), base, list)
  {
    if list != [] {
      var n := |list| - 1;
      var rest, c := list[..n], list[n];
      assert list == rest + [c];
      ReplayIsNet(base, rest);
      forall k ensures Lookup(ReplayAll(base, list), k) == Net(base, list, k) {
        assert Lookup(ReplayAll(base, rest), k) == Net(base, rest, k);
        NetAppend(base, rest, c, k);
      }
    }
  }

  /** Changing what position `i` makes live leaves the other positions alone. */
  lemma {:induction false} NetReplace(base: Versions, list: seq<Change>, i: nat, c: Change, o: VersionKey,
                                      k: VersionKey)
    requires DistinctNew(list) && i < |list| && NewKey(list[i]) == Some(o)
    requires OldKey(list[i]) == OldKey(c) && o !in base
    requires DistinctNew(list[i := c])
    ensures Net(base, list[i := c], k) ==
            if NewKey(c) == Some(k) then Some(c.after)
            else if k == o then None
            else Net(base, list, k)
  {
    var list' := list[i := c];
    assert Retired(list', k) == Retired(list, k) by { RetiredReplace(list, i, c, k); }
    var p := Position(list, k);
    if NewKey(c) == Some(k) {
      PositionUnique(list', k, i);
    } else if p.Some? && p.value != i {
      assert list'[p.value] == list[p.value];
      PositionUnique(list', k, p.value);
    } else {
      assert forall j :: 0 <= j < |list| && j != i ==> NewKey(list'[j]) != Some(k) by {
        forall j | 0 <= j < |list| && j != i ensures NewKey(list'[j]) != Some(k) {
          assert list'[j] == list[j];
          if p.Some? { assert NewKey(list[i]) == Some(k); }
        }
      }
    }
  }

  lemma {:induction false} RetiredReplace(list: seq<Change>, i: nat, c: Change, k: VersionKey)
    requires i < |list| && OldKey(list[i]) == OldKey(c)
    ensures Retired(list[i := c], k) == Retired(list, k)
  {
    var list' := list[i := c];
    assert forall j :: 0 <= j < |list| ==> OldKey(list'[j]) == OldKey(list[j]);
  }

  function Without(list: seq<Change>, i: nat): seq<Change>
    requires i < |list|
  {
    list[..i] + list[i + 1..]
  }

  lemma {:induction false} WithoutDistinct(list: seq<Change>, i: nat)
    requires DistinctNew(list) && i < |list|
    ensures DistinctNew(Without(list, i))
  {
    var cut := Without(list, i);
    assert forall j :: 0 <= j < |cut| ==> cut[j] == list[if j < i then j else j + 1];
  }

  lemma {:induction false} PositionRemove(list: seq<Change>, i: nat, k: VersionKey)
    requires DistinctNew(list) && i < |list| && NewKey(list[i]) != Some(k)
    ensures Position(list, k).Some? <==> Position(Without(list, i), k).Some?
    ensures Position(list, k).Some? ==>
              Without(list, i)[Position(Without(list, i), k).value] == list[Position(list, k).value]
  {
    var cut := Without(list, i);
    WithoutDistinct(list, i);
    var p := Position(list, k);
    if p.Some? {
      var p' := if p.value < i then p.value else p.value - 1;
      assert cut[p'] == list[p.value];
      PositionUnique(cut, k, p');
    } else {
      forall j | 0 <= j < |cut| ensures NewKey(cut[j]) != Some(k) {
        assert cut[j] == list[if j < i then j else j + 1];
      }
    }
  }

  lemma {:induction false} NetRemove(base: Versions, list: seq<Change>, i: nat, k: VersionKey)
    requires DistinctNew(list) && i < |list| && list[i].Insert? && list[i].newVersion !in base
    ensures Net(base, Without(list, i), k) == if NewKey(list[i]) == Some(k) then None else Net(base, list, k)
  {
    var cut := Without(list, i);
    if NewKey(list[i]) == Some(k) {
      forall j | 0 <= j < |cut| ensures NewKey(cut[j]) != Some(k) {
        assert cut[j] == list[if j < i then j else j + 1];
      }
    } else {
      RetiredRemove(list, i, k);
      PositionRemove(list, i, k);
    }
  }

  lemma {:induction false} RetiredRemove(list: seq<Change>, i: nat, k: VersionKey)
    requires i < |list| && list[i].Insert?
    ensures Retired(Without(list, i), k) == Retired(list, k)
  {
    var cut := Without(list, i);
    if Retired(list, k) {
      var j :| 0 <= j < |list| && OldKey(list[j]) == Some(k);
      assert cut[if j < i then j else j - 1] == list[j];
    }
    if Retired(cut, k) {
      var j :| 0 <= j < |cut| && OldKey(cut[j]) == Some(k);
      assert list[if j < i then j else j + 1] == cut[j];
    }
  }

  /** One coalescing step keeps the list normal and tracks the visible versions. */
  lemma {:induction false} CoalesceStep(base: Versions, list: seq<Change>, m: Versions, op: Operation)
    requires Normal(base, list) && Shows(m, base, list)
    requires ValidOperation(base, m, op)
    ensures Normal(base, Coalesce(list, op))
    ensures Shows(Perform(m, op), base, Coalesce(list, op))
  {
    match op
    case DoInsert(k, row) =>
      assert Lookup(m, k) == Net(base, list, k);
      AppendStep(base, list, m, Insert(k, row));
    case DoUpdate(o, n, row) =>
      assert Lookup(m, o) == Net(base, list, o);
      assert Lookup(m, n) == Net(base, list, n);
      if Position(list, o).Some? {
        ReplaceStep(base, list, m, WithNew(list[Position(list, o).value], n, row), o);
      } else {
        AppendStep(base, list, m, Update(o, n, row));
      }
    case DoDelete(o) =>
      assert Lookup(m, o) == Net(base, list, o);
      match Position(list, o) {
        case Some(i) =>
          if list[i].Insert? {
            RemoveStep(base, list, m, i, o);
          } else {
            ReplaceStep(base, list, m, Delete(list[i].oldVersion), o);
          }
        case None => AppendStep(base, list, m, Delete(o));
      }
  }

  lemma {:induction false} AppendStep(base: Versions, list: seq<Change>, m: Versions, c: Change)
    requires Normal(base, list) && Shows(m, base, list)
    requires OldKey(c).Some? ==> OldKey(c).value in base && !Retired(list, OldKey(c).value) && Position(list, OldKey(c).value).None?
    requires NewKey(c).Some? ==> NewKey(c).value !in base && Position(list, NewKey(c).value).None?
    ensures Normal(base, list + [c])
    ensures Shows(Replay(m, c), base, list + [c])
  {
    forall k ensures Lookup(Replay(m, c), k) == Net(base, list + [c], k) {
      assert Lookup(m, k) == Net(base, list, k);
      NetAppend(base, list, c, k);
    }
  }

  lemma {:induction false} ReplaceStep(base: Versions, list: seq<Change>, m: Versions, c: Change, o: VersionKey)
    requires Normal(base, list) && Shows(m, base, list)
    requires Position(list, o).Some? && OldKey(list[Position(list, o).value]) == OldKey(c)
    requires NewKey(c).Some? ==>
               NewKey(c).value !in base && (NewKey(c).value == o || Position(list, NewKey(c).value).None?)
    ensures Normal(base, list[Position(list, o).value := c])
    ensures Shows(if c.Delete? then m - {o} else (m - {o})[c.newVersion := c.after],
                  base, list[Position(list, o).value := c])
  {
    var i := Position(list, o).value;
    var list' := list[i := c];
    var m' := if c.Delete? then m - {o} else (m - {o})[c.newVersion := c.after];
    assert forall j :: 0 <= j < |list| ==> OldKey(list'[j]) == OldKey(list[j]);
    assert forall j :: 0 <= j < |list| && j != i ==> NewKey(list'[j]) == NewKey(list[j]);
    assert NewKey(list[i]).value !in base;
    assert DistinctNew(list');
    forall k ensures Lookup(m', k) == Net(base, list', k) {
      assert Lookup(m, k) == Net(base, list, k);
      NetReplace(base, list, i, c, o, k);
    }
  }

  lemma {:induction false} RemoveStep(base: Versions, list: seq<Change>, m: Versions, i: nat, o: VersionKey)
    requires Normal(base, list) && Shows(m, base, list)
    requires Position(list, o) == Some(i) && list[i].Insert?
    ensures Normal(base, Without(list, i))
    ensures Shows(m - {o}, base, Without(list, i))
  {
    var cut := Without(list, i);
    assert forall j :: 0 <= j < |cut| ==> cut[j] == list[if j < i then j else j + 1];
    assert NewKey(list[i]).value !in base;
    forall k ensures Lookup(m - {o}, k) == Net(base, cut, k) {
      assert Lookup(m, k) == Net(base, list, k);
      NetRemove(base, list, i, k);
    }
  }

  lemma {:induction false} TraceShows(base: Versions, ops: seq<Operation>)
    requires ValidTrace(base, ops)
    ensures Normal(base, CoalesceAll(ops))
    ensures Shows(PerformAll(base, ops), base, CoalesceAll(ops))
  {
    if ops != [] {
      var front := ops[..|ops| - 1];
      TraceShows(base, front);
      CoalesceStep(base, CoalesceAll(front), PerformAll(base, front), ops[|ops| - 1]);
    }
  }

  /** For every valid trace of row operations, replaying the published list over
      the base snapshot shows exactly what the raw trace shows; every old version
      in it is a base version retired once, and every new version is live in the
      result and made live once. */
  lemma {:induction false} CoalescingPreservesMeaning(base: Versions, ops: seq<Operation>)
    requires ValidTrace(base, ops)
    ensures ReplayAll(base, CoalesceAll(ops)) == PerformAll(base, ops)
    ensures Normal(base, CoalesceAll(ops))
    ensures forall i :: 0 <= i < |CoalesceAll(ops)| && NewKey(CoalesceAll(ops)[i]).Some? ==>
              Lookup(PerformAll(base, ops), NewKey(CoalesceAll(ops)[i]).value) == Some(CoalesceAll(ops)[i].after)
  {
    var list := CoalesceAll(ops);
    TraceShows(base, ops);
    ReplayIsNet(base, list);
    ShowsUnique(ReplayAll(base, list), PerformAll(base, ops), base, list);
    forall i | 0 <= i < |list| && NewKey(list[i]).Some?
      ensures Lookup(PerformAll(base, ops), NewKey(list[i]).value) == Some(list[i].after)
    {
      PositionUnique(list, NewKey(list[i]).value, i);
    }
  }

  function CreatedKey(op: Operation): Option<VersionKey> {
    match op
    case DoInsert(k, _) => Some(k)
    case DoUpdate(_, n, _) => Some(n)
    case DoDelete(_) => None
  }

  lemma {:induction false} NewKeysAreCreated(ops: seq<Operation>, kind: StorageKind)
    requires forall i :: 0 <= i < |ops| && CreatedKey(ops[i]).Some? ==>
               KeyMatchesKind(kind, CreatedKey(ops[i]).value, true)
    ensures forall i :: 0 <= i < |CoalesceAll(ops)| && NewKey(CoalesceAll(ops)[i]).Some? ==>
              KeyMatchesKind(kind, NewKey(CoalesceAll(ops)[i]).value, true)
  {
    hide KeyMatchesKind;
    if ops != [] {
      var front, op := ops[..|ops| - 1], ops[|ops| - 1];
      NewKeysAreCreated(front, kind);
      assert CreatedKey(op).Some? ==> KeyMatchesKind(kind, CreatedKey(op).value, true);
    }
  }

  /** A published list always passes the decoder's mutation check: the versions it
      retires are committed base versions, and the rest may be placeholders. */
  lemma {:induction false} PublishedListPassesDecoder(base: Versions, ops: seq<Operation>, kind: StorageKind)
    requires ValidTrace(base, ops)
    requires forall k :: k in base ==> KeyMatchesKind(kind, k, false)
    requires forall i :: 0 <= i < |ops| && CreatedKey(ops[i]).Some? ==>
               KeyMatchesKind(kind, CreatedKey(ops[i]).value, true)
    ensures forall i :: 0 <= i < |CoalesceAll(ops)| ==> ValidPending(kind, CoalesceAll(ops)[i])
  {
    TraceShows(base, ops);
    NewKeysAreCreated(ops, kind);
  }

  /** The accumulator may be asked to record every operation of a valid trace: a
      version it must make live is not live in the list, except for the reuse case. */
  lemma {:induction false} ValidTraceIsRecordable(base: Versions, ops: seq<Operation>, op: Operation)
    requires ValidTrace(base, ops + [op])
    ensures op.DoInsert? ==> Position(CoalesceAll(ops), op.key).None?
    ensures op.DoUpdate? ==> op.newKey == op.oldKey || Position(CoalesceAll(ops), op.newKey).None?
  {
    assert (ops + [op])[..|ops|] == ops;
    TraceShows(base, ops);
    if op.DoInsert? {
      assert Lookup(PerformAll(base, ops), op.key) == Net(base, CoalesceAll(ops), op.key);
    } else if op.DoUpdate? {
      assert Lookup(PerformAll(base, ops), op.newKey) == Net(base, CoalesceAll(ops), op.newKey);
    }
  }

  /** Reusing a base version as a new version is what the assumption rules out:
      the published insert then comes before the delete it depends on. */
  lemma {:induction false} ReusedBaseVersionIsLost(a: VersionKey, b: VersionKey, row: Row)
    requires a != b
    ensures var base := map[a := row];
            var ops := [DoInsert(b, row), DoDelete(a), DoUpdate(b, a, row)];
            a in PerformAll(base, ops) && a !in ReplayAll(base, CoalesceAll(ops))
  {
    var base := map[a := row];
    var ops := [DoInsert(b, row), DoDelete(a), DoUpdate(b, a, row)];
    assert ops[..2] == [DoInsert(b, row), DoDelete(a)] && ops[..2][..1] == [DoInsert(b, row)] && ops[..2][..1][..0] == [];
    assert CoalesceAll(ops[..2][..1]) == [Insert(b, row)];
    assert Position([Insert(b, row)], a) == None;
    assert CoalesceAll(ops[..2]) == [Insert(b, row), Delete(a)];
    assert Position([Insert(b, row), Delete(a)], b) == Some(0);
    assert CoalesceAll(ops) == [Insert(a, row), Delete(a)];
  }
}
