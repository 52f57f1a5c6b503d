/** The indexed accumulator: a vector with holes, an index from live version to
    position, and lazy compaction.  Every method is proved to act on the surviving
    changes exactly as the naive list of module Pending does. */
module PendingSet {
  import opened Wrappers
  import opened ChangeTypes
  import opened Pending

  /** The changes outside the holes, in first-recorded order. */
  function Survivors(ms: seq<Change>, removed: set<nat>): seq<Change> {
    if ms == [] then []
    else
      var n := |ms| - 1;
      Survivors(ms[..n], removed) + (if n in removed then [] else [ms[n]])
  }

  /** How many survivors stand before position `p`. */
  function Rank(ms: seq<Change>, removed: set<nat>, p: nat): nat
    requires p <= |ms|
  {
    |Survivors(ms[..p], removed)|
  }

  /** The index holds exactly the live Insert/Update versions, each at its position. */
  ghost predicate Indexed(ms: seq<Change>, cv: map<VersionKey, nat>, removed: set<nat>) {
    && (forall k :: k in cv ==> cv[k] < |ms| && cv[k] !in removed && NewKey(ms[cv[k]]) == Some(k))
    && (forall p: nat :: p < |ms| && p !in removed && NewKey(ms[p]).Some? ==>
          NewKey(ms[p]).value in cv && cv[NewKey(ms[p]).value] == p)
  }

  lemma {:induction false} SurvivorsAppend(ms: seq<Change>, removed: set<nat>, c: Change)
    requires forall p :: p in removed ==> p < |ms|
    ensures Survivors(ms + [c], removed) == Survivors(ms, removed) + [c]
  {
    assert (ms + [c])[..|ms|] == ms;
  }

  lemma {:induction false} SurvivorAt(ms: seq<Change>, removed: set<nat>, p: nat)
    requires p < |ms| && p !in removed
    ensures Rank(ms, removed, p) < |Survivors(ms, removed)|
    ensures Survivors(ms, removed)[Rank(ms, removed, p)] == ms[p]
  {
    var n := |ms| - 1;
    if p < n {
      assert ms[..n][..p] == ms[..p];
      SurvivorAt(ms[..n], removed, p);
    }
  }

  lemma {:induction false} SurvivorSource(ms: seq<Change>, removed: set<nat>, idx: nat) returns (p: nat)
    requires idx < |Survivors(ms, removed)|
    ensures p < |ms| && p !in removed && Rank(ms, removed, p) == idx
    ensures Survivors(ms, removed)[idx] == ms[p]
  {
    var n := |ms| - 1;
    if idx < |Survivors(ms[..n], removed)| {
      p := SurvivorSource(ms[..n], removed, idx);
      assert ms[..n][..p] == ms[..p];
    } else {
      p := n;
    }
  }

  lemma {:induction false} SurvivorsCount(ms: seq<Change>, removed: set<nat>)
    requires forall p :: p in removed ==> p < |ms|
    ensures |Survivors(ms, removed)| == |ms| - |removed|
  {
    if ms == [] {
      assert removed == {};
    } else {
      var n := |ms| - 1;
      var rest := removed - {n};
      SurvivorsSame(ms[..n], ms[..n], removed, rest);
      SurvivorsCount(ms[..n], rest);
    }
  }

  /** Only the positions outside the holes matter. */
  lemma {:induction false} SurvivorsSame(ms: seq<Change>, ms': seq<Change>, removed: set<nat>, removed': set<nat>)
    requires |ms| == |ms'|
    requires forall p: nat :: p < |ms| ==> (p in removed <==> p in removed')
    requires forall p: nat :: p < |ms| && p !in removed ==> ms[p] == ms'[p]
    ensures Survivors(ms, removed) == Survivors(ms', removed')
  {
    if ms != [] {
      var n := |ms| - 1;
      SurvivorsSame(ms[..n], ms'[..n], removed, removed');
    }
  }

  lemma {:induction false} SurvivorsReplace(ms: seq<Change>, removed: set<nat>, p: nat, c: Change)
    requires p < |ms| && p !in removed
    ensures Rank(ms, removed, p) < |Survivors(ms, removed)|
    ensures Survivors(ms[p := c], removed) == Survivors(ms, removed)[Rank(ms, removed, p) := c]
  {
    SurvivorAt(ms, removed, p);
    var n := |ms| - 1;
    if p < n {
      assert ms[..n][..p] == ms[..p];
      assert ms[p := c][..n] == ms[..n][p := c];
      SurvivorsReplace(ms[..n], removed, p, c);
    } else {
      assert ms[p := c][..n] == ms[..n];
    }
  }

  lemma {:induction false} SurvivorsHole(ms: seq<Change>, removed: set<nat>, p: nat, c: Change)
    requires p < |ms| && p !in removed
    ensures Rank(ms, removed, p) < |Survivors(ms, removed)|
    ensures Survivors(ms[p := c], removed + {p}) == Without(Survivors(ms, removed), Rank(ms, removed, p))
  {
    SurvivorAt(ms, removed, p);
    var n := |ms| - 1;
    if p < n {
      assert ms[..n][..p] == ms[..p];
      assert ms[p := c][..n] == ms[..n][p := c];
      SurvivorsHole(ms[..n], removed, p, c);
    } else {
      SurvivorsSame(ms[p := c][..n], ms[..n], removed + {p}, removed);
    }
  }

  /** Through the index, distinct positions carry distinct live versions. */
  lemma {:induction false} IndexedDistinct(ms: seq<Change>, cv: map<VersionKey, nat>, removed: set<nat>)
    requires Indexed(ms, cv, removed)
    ensures DistinctNew(Survivors(ms, removed))
  {
    var list := Survivors(ms, removed);
    forall i, j | 0 <= i < j < |list| && NewKey(list[i]).Some?
      ensures NewKey(list[i]) != NewKey(list[j])
    {
      var p := SurvivorSource(ms, removed, i);
      var q := SurvivorSource(ms, removed, j);
      assert p != q;
      assert cv[NewKey(ms[p]).value] == p;
    }
  }

  /** The index finds what a scan of the naive list finds. */
  lemma {:induction false} IndexedLookup(ms: seq<Change>, cv: map<VersionKey, nat>, removed: set<nat>, k: VersionKey)
    requires Indexed(ms, cv, removed)
    ensures k in cv <==> Position(Survivors(ms, removed), k).Some?
    ensures k in cv ==> Position(Survivors(ms, removed), k) == Some(Rank(ms, removed, cv[k]))
  {
    IndexedDistinct(ms, cv, removed);
    var list := Survivors(ms, removed);
    if k in cv {
      SurvivorAt(ms, removed, cv[k]);
      PositionUnique(list, k, Rank(ms, removed, cv[k]));
    } else {
      forall i | 0 <= i < |list| ensures NewKey(list[i]) != Some(k) {
        var p := SurvivorSource(ms, removed, i);
      }
    }
  }

  lemma DistinctIndexed(ms: seq<Change>, cv: map<VersionKey, nat>)
    requires DistinctNew(ms)
    requires forall k :: k in cv ==> cv[k] < |ms| && NewKey(ms[cv[k]]) == Some(k)
    requires forall p: nat :: p < |ms| && NewKey(ms[p]).Some? ==> NewKey(ms[p]).value in cv
    ensures Indexed(ms, cv, {})
  {
  }

  lemma LiveBound(ms: seq<Change>, cv: map<VersionKey, nat>, removed: set<nat>, o: VersionKey)
    requires Indexed(ms, cv, removed) && o in cv
    ensures cv[o] < |ms| && !ms[cv[o]].Delete?
  {
  }

  lemma {:induction false} IndexedAppend(ms: seq<Change>, cv: map<VersionKey, nat>, removed: set<nat>, c: Change)
    requires Indexed(ms, cv, removed) && |ms| !in removed
    requires NewKey(c).Some? ==> NewKey(c).value !in cv
    ensures Indexed(ms + [c], if c.Delete? then cv else cv[c.newVersion := |ms|], removed)
  {
    assert forall p: nat :: p < |ms| ==> (ms + [c])[p] == ms[p];
  }

  /** Rewriting the change that makes `o` live: its entry moves to the new version, or goes. */
  lemma {:induction false} IndexedReplace(ms: seq<Change>, cv: map<VersionKey, nat>, removed: set<nat>,
                                          o: VersionKey, c: Change)
    requires Indexed(ms, cv, removed) && o in cv
    requires NewKey(c).Some? ==> NewKey(c).value == o || NewKey(c).value !in cv
    ensures Indexed(ms[cv[o] := c], if c.Delete? then cv - {o} else (cv - {o})[c.newVersion := cv[o]], removed)
  {
    var ms' := ms[cv[o] := c];
    var cv' := if c.Delete? then cv - {o} else (cv - {o})[c.newVersion := cv[o]];
    assert forall p: nat :: p < |ms| && p != cv[o] ==> ms'[p] == ms[p];
    assert ms'[cv[o]] == c;
    forall k | k in cv' ensures cv'[k] < |ms'| && cv'[k] !in removed && NewKey(ms'[cv'[k]]) == Some(k) {
      if NewKey(c) != Some(k) { assert cv[k] != cv[o]; }
    }
  }

  lemma {:induction false} IndexedHole(ms: seq<Change>, cv: map<VersionKey, nat>, removed: set<nat>, o: VersionKey,
                                       c: Change)
    requires Indexed(ms, cv, removed) && o in cv && c.Delete?
    ensures Indexed(ms[cv[o] := c], cv - {o}, removed + {cv[o]})
  {
    IndexedReplace(ms, cv, removed, o, c);
    forall k | k in cv - {o} ensures cv[k] != cv[o] {
      assert NewKey(ms[cv[k]]) == Some(k);
    }
  }

  /** Rewriting through the index is rewriting the naive list at the scanned position. */
  lemma {:induction false} RewriteLive(ms: seq<Change>, cv: map<VersionKey, nat>, removed: set<nat>, o: VersionKey,
                                       c: Change)
    requires Indexed(ms, cv, removed) && o in cv
    requires NewKey(c).Some? ==> NewKey(c).value == o || NewKey(c).value !in cv
    ensures Indexed(ms[cv[o] := c], if c.Delete? then cv - {o} else (cv - {o})[c.newVersion := cv[o]], removed)
    ensures var list := Survivors(ms, removed);
            var p := Position(list, o);
            p.Some? && list[p.value] == ms[cv[o]] && Survivors(ms[cv[o] := c], removed) == list[p.value := c]
  {
    IndexedLookup(ms, cv, removed, o);
    SurvivorAt(ms, removed, cv[o]);
    SurvivorsReplace(ms, removed, cv[o], c);
    IndexedReplace(ms, cv, removed, o, c);
  }

  lemma {:induction false} CancelLive(ms: seq<Change>, cv: map<VersionKey, nat>, removed: set<nat>, o: VersionKey,
                                      c: Change)
    requires Indexed(ms, cv, removed) && o in cv && c.Delete?
    ensures cv[o] !in removed && Indexed(ms[cv[o] := c], cv - {o}, removed + {cv[o]})
    ensures var list := Survivors(ms, removed);
            var p := Position(list, o);
            p.Some? && list[p.value] == ms[cv[o]] && Survivors(ms[cv[o] := c], removed + {cv[o]}) == Without(list, p.value)
  {
    IndexedLookup(ms, cv, removed, o);
    SurvivorAt(ms, removed, cv[o]);
    SurvivorsHole(ms, removed, cv[o], c);
    IndexedHole(ms, cv, removed, o, c);
  }

  lemma {:induction false} AppendLive(ms: seq<Change>, cv: map<VersionKey, nat>, removed: set<nat>, c: Change)
    requires Indexed(ms, cv, removed) && (forall p :: p in removed ==> p < |ms|)
    requires NewKey(c).Some? ==> NewKey(c).value !in cv
    ensures Indexed(ms + [c], if c.Delete? then cv else cv[c.newVersion := |ms|], removed)
    ensures Survivors(ms + [c], removed) == Survivors(ms, removed) + [c]
  {
    SurvivorsAppend(ms, removed, c);
    IndexedAppend(ms, cv, removed, c);
  }

  lemma {:induction false} UpdateRefines(ms: seq<Change>, cv: map<VersionKey, nat>, removed: set<nat>,
                      o: VersionKey, n: VersionKey, row: Row)
    requires Indexed(ms, cv, removed) && (forall p :: p in removed ==> p < |ms|)
    requires n == o || n !in cv
    ensures o in cv ==>
              && cv[o] < |ms| && !ms[cv[o]].Delete?
              && Indexed(ms[cv[o] := WithNew(ms[cv[o]], n, row)], (cv - {o})[n := cv[o]], removed)
              && Survivors(ms[cv[o] := WithNew(ms[cv[o]], n, row)], removed) ==
                 NaiveUpdate(Survivors(ms, removed), o, n, row)
    ensures o !in cv ==>
              && Indexed(ms + [Update(o, n, row)], cv[n := |ms|], removed)
              && Survivors(ms + [Update(o, n, row)], removed) == NaiveUpdate(Survivors(ms, removed), o, n, row)
  {
    if o in cv {
      RewriteLive(ms, cv, removed, o, WithNew(ms[cv[o]], n, row));
    } else {
      IndexedLookup(ms, cv, removed, o);
      AppendLive(ms, cv, removed, Update(o, n, row));
    }
  }

  datatype PendingChangeIndex = PendingChangeIndex(currentVersions: map<VersionKey, nat>, removed: set<nat>)

  class PendingChangeSet {
    var mutations: seq<Change>
    var index: Option<PendingChangeIndex>
    /** Slots copied by compaction, as the source's own instrumentation counts them. */
    var compactedSlots: nat
    /** Of those, the slots copied by the compactions that deletions trigger. */
    ghost var automaticSlots: nat
    /** Inserts cancelled by a later delete in the same transaction. */
    ghost var cancelled: nat
    /** The row operations recorded since the last clear. */
    ghost var trace: seq<Operation>

    ghost function Removed(): set<nat>
      reads this
    {
      if index.Some? then index.value.removed else {}
    }

    ghost function Live(): map<VersionKey, nat>
      reads this
    {
      if index.Some? then index.value.currentVersions else map[]
    }

    /** The naive list this set stands for. */
    ghost function Contents(): seq<Change>
      reads this
    {
      Survivors(mutations, Removed())
    }

    ghost predicate Valid()
      reads this
    {
      Consistent() && Contents() == CoalesceAll(trace)
    }

    ghost predicate Consistent()
      reads this
    {
      && (forall p :: p in Removed() ==> p < |mutations|)
      && Indexed(mutations, Live(), Removed())
      && 2 * |Removed()| <= |mutations|
      && automaticSlots + 2 * |Removed()| <= 2 * cancelled
    }

    constructor ()
      ensures Valid() && Contents() == [] && index == None && trace == []
      ensures compactedSlots == automaticSlots == cancelled == 0
    {
      mutations := [];
      index := None;
      compactedSlots := 0;
      automaticSlots := 0;
      cancelled := 0;
      trace := [];
    }

    /** Holes never outnumber survivors, and automatic compaction is linear in
        the number of inserts cancelled. */
    lemma {:induction false} Bounds()
      requires Valid()
      ensures |mutations| <= 2 * |Contents()|
      ensures automaticSlots <= 2 * cancelled
    {
      SurvivorsCount(mutations, Removed());
    }

    method RecordInsert(newVersion: VersionKey, after: Row)
      requires Valid() && newVersion !in Live()
      modifies this
      ensures Valid() && Contents() == NaiveInsert(old(Contents()), newVersion, after)
      ensures trace == old(trace) + [DoInsert(newVersion, after)]
      ensures automaticSlots == old(automaticSlots) && cancelled == old(cancelled)
    {
      hide Indexed, Survivors, CoalesceAll, Rank, Position;
      CoalesceAppend(trace, DoInsert(newVersion, after));
      AppendLive(mutations, Live(), Removed(), Insert(newVersion, after));
      var idx := if index.Some? then index.value else PendingChangeIndex(map[], {});
      index := Some(idx.(currentVersions := idx.currentVersions[newVersion := |mutations|]));
      mutations := mutations + [Insert(newVersion, after)];
      trace := trace + [DoInsert(newVersion, after)];
    }

    method RecordUpdate(oldVersion: VersionKey, newVersion: VersionKey, after: Row)
      requires Valid() && (newVersion == oldVersion || newVersion !in Live())
      modifies this
      ensures Valid() && Contents() == NaiveUpdate(old(Contents()), oldVersion, newVersion, after)
      ensures trace == old(trace) + [DoUpdate(oldVersion, newVersion, after)]
      ensures automaticSlots == old(automaticSlots) && cancelled == old(cancelled)
    {
      hide Indexed, Survivors, CoalesceAll, Rank, Position;
      CoalesceAppend(trace, DoUpdate(oldVersion, newVersion, after));
      UpdateRefines(mutations, Live(), Removed(), oldVersion, newVersion, after);
      if index.Some? && oldVersion in index.value.currentVersions {
        var idx := index.value;
        var position := idx.currentVersions[oldVersion];
        var c := WithNew(mutations[position], newVersion, after);
        mutations := mutations[position := c];
        index := Some(idx.(currentVersions := (idx.currentVersions - {oldVersion})[newVersion := position]));
      } else {
        var idx := if index.Some? then index.value else PendingChangeIndex(map[], {});
        index := Some(idx.(currentVersions := idx.currentVersions[newVersion := |mutations|]));
        mutations := mutations + [Update(oldVersion, newVersion, after)];
      }
      trace := trace + [DoUpdate(oldVersion, newVersion, after)];
    }

    method RecordDelete(oldVersion: VersionKey)
      requires Valid()
      modifies this
      ensures Valid() && Contents() == NaiveDelete(old(Contents()), oldVersion)
      ensures trace == old(trace) + [DoDelete(oldVersion)]
      ensures cancelled - old(cancelled) == if |Contents()| < |old(Contents())| then 1 else 0
    {
      hide Indexed, Survivors, CoalesceAll, Rank, Position;
      CoalesceAppend(trace, DoDelete(oldVersion));
      if index.Some? && oldVersion in index.value.currentVersions {
        var idx := index.value;
        var position := idx.currentVersions[oldVersion];
        LiveBound(mutations, idx.currentVersions, idx.removed, oldVersion);
        var previous := mutations[position];
        if previous.Insert? {
          CancelInsert(oldVersion);
        } else {
          RewriteLive(mutations, idx.currentVersions, idx.removed, oldVersion, Delete(previous.oldVersion));
          mutations := mutations[position := Delete(previous.oldVersion)];
          index := Some(idx.(currentVersions := idx.currentVersions - {oldVersion}));
        }
      } else {
        IndexedLookup(mutations, Live(), Removed(), oldVersion);
        AppendLive(mutations, Live(), Removed(), Delete(oldVersion));
        mutations := mutations + [Delete(oldVersion)];
      }
      trace := trace + [DoDelete(oldVersion)];
    }

    /** The branch of RecordDelete that leaves a payload-free hole, compacting
        once holes are more than half of the slots. */
    method CancelInsert(oldVersion: VersionKey)
      requires Consistent() && index.Some? && oldVersion in index.value.currentVersions
      requires mutations[index.value.currentVersions[oldVersion]].Insert?
      modifies this
      ensures Consistent() && cancelled == old(cancelled) + 1 && trace == old(trace)
      ensures var p := Position(old(Contents()), oldVersion);
              p.Some? && old(Contents())[p.value].Insert? && Contents() == Without(old(Contents()), p.value)
    {
      hide Survivors, CoalesceAll, Rank;
      var idx := index.value;
      var position := idx.currentVersions[oldVersion];
      CancelLive(mutations, idx.currentVersions, idx.removed, oldVersion, Delete(oldVersion));
      mutations := mutations[position := Delete(oldVersion)];
      index := Some(PendingChangeIndex(idx.currentVersions - {oldVersion}, idx.removed + {position}));
      cancelled := cancelled + 1;
      if |index.value.removed| > |mutations| / 2 {
        automaticSlots := automaticSlots + |mutations|;
        Compact();
      }
    }

    /** Drops the holes and rebuilds the index; needs only a consistent index. */
    method Compact()
      requires (forall p :: p in Removed() ==> p < |mutations|) && Indexed(mutations, Live(), Removed())
      modifies this`mutations, this`index, this`compactedSlots
      ensures Indexed(mutations, Live(), Removed()) && Removed() == {}
      ensures mutations == Contents() == old(Contents())
      ensures compactedSlots == old(compactedSlots) + if old(Removed()) == {} then 0 else old(|mutations|)
      ensures index.Some? == old(index.Some?)
    {
      if index.None? || index.value.removed == {} {
        KeepAll(mutations);
        return;
      }
      compactedSlots := compactedSlots + |mutations|;
      var removed := index.value.removed;
      IndexedDistinct(mutations, Live(), removed);
      var kept := [];
      var position := 0;
      while position < |mutations|
        invariant position <= |mutations|
        invariant kept == Survivors(mutations[..position], removed)
      {
        assert mutations[..position + 1][..position] == mutations[..position];
        if position !in removed {
          kept := kept + [mutations[position]];
        }
        position := position + 1;
      }
      assert mutations[..position] == mutations;
      var versions: map<VersionKey, nat> := map[];
      position := 0;
      while position < |kept|
        invariant position <= |kept|
        invariant forall k :: k in versions ==> versions[k] < position && NewKey(kept[versions[k]]) == Some(k)
        invariant forall p: nat :: p < position && NewKey(kept[p]).Some? ==> NewKey(kept[p]).value in versions
      {
        if !kept[position].Delete? {
          versions := versions[kept[position].newVersion := position];
        }
        position := position + 1;
      }
      mutations := kept;
      index := Some(PendingChangeIndex(versions, {}));
      DistinctIndexed(kept, versions);
      KeepAll(kept);
    }

    method AsSlice() returns (slice: seq<Change>)
      requires Valid()
      modifies this
      ensures Valid() && slice == Contents() == old(Contents()) && trace == old(trace)
      ensures forall base :: ValidTrace(base, trace) ==>
                Normal(base, slice) && ReplayAll(base, slice) == PerformAll(base, trace)
      ensures automaticSlots == old(automaticSlots) && cancelled == old(cancelled)
    {
      Compact();
      slice := mutations;
      forall base | ValidTrace(base, trace)
        ensures Normal(base, slice) && ReplayAll(base, slice) == PerformAll(base, trace)
      {
        CoalescingPreservesMeaning(base, trace);
      }
    }

    method Clear()
      modifies this
      requires Valid()
      ensures Valid() && Contents() == [] && index == None
    {
      mutations := [];
      index := None;
      trace := [];
    }
  }

  lemma {:induction false} CoalesceAppend(ops: seq<Operation>, op: Operation)
    ensures CoalesceAll(ops + [op]) == Coalesce(CoalesceAll(ops), op)
  {
    assert (ops + [op])[..|ops|] == ops;
  }

  lemma {:induction false} KeepAll(ms: seq<Change>)
    ensures Survivors(ms, {}) == ms
  {
    if ms != [] {
      KeepAll(ms[..|ms| - 1]);
      assert ms == ms[..|ms| - 1] + [ms[|ms| - 1]];
    }
  }
}
