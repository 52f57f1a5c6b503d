/** The maintenance planner: ranking candidates behind a fairness cursor. */
module Planner {
  import opened Wrappers
  import opened Widths

  datatype Action =
    | AdvanceColumnar(projectionId: u64, maxBatches: u64, maxChangeBytes: u64)
    | CompactColumnar(projectionId: u64)
    | GcChangeStream(tableId: u64, storageId: u64)
    | FlushLsm(tableId: u64, storageId: u64)
    | CompactLsm(tableId: u64, storageId: u64)

  datatype Reason = LsmMemtableFlush | ProjectionLag | ChangeHistoryReclaim | LsmCompactionPressure | ColumnarDeltaCost

  datatype Bound = HardBoundedInput | EstimateGatedAtomic | HardBoundedRewrite

  datatype Estimate = Estimate(workUnits: u64, readBytes: u64, writeBytes: u64)

  datatype Budget = Budget(maxWorkUnits: u64, maxReadBytes: u64, maxWriteBytes: u64, maxActions: u32)

  datatype Blocker =
    | ActionBudgetExhausted | WorkBudgetExceeded | ReadBudgetExceeded | WriteBudgetExceeded | Busy
    | SnapshotProjection | ProjectionFresh | ProjectionLagging | RebuildRequired | NotAvailable | NoDelta
    | NoRetentionConsumer | NoReclaimableHistory | RetentionUnsafe | NoHistory | RecoveryRequired | MemtableNotEmpty

  datatype Candidate = Candidate(action: Action, reason: Reason, bound: Bound, estimate: Estimate, eligible: bool, blocker: Option<Blocker>)

  datatype Decision = Decision(action: Action, reason: Reason, bound: Bound, estimated: Estimate)

  /** A class of actions and one target in it. */
  datatype Cursor = Cursor(class_: u8, target: u64)

  type u8 = x: int | 0 <= x < 256

  // ---------------------------------------------------------------------------
  // Candidates
  // ---------------------------------------------------------------------------

  function BudgetBlocker(e: Estimate, b: Budget): Option<Blocker> {
    if b.maxActions == 0 then Some(ActionBudgetExhausted)
    else if e.workUnits > b.maxWorkUnits then Some(WorkBudgetExceeded)
    else if e.readBytes > b.maxReadBytes then Some(ReadBudgetExceeded)
    else if e.writeBytes > b.maxWriteBytes then Some(WriteBudgetExceeded)
    else None
  }

  predicate Admits(b: Budget, e: Estimate) {
    b.maxActions != 0 && e.workUnits <= b.maxWorkUnits && e.readBytes <= b.maxReadBytes && e.writeBytes <= b.maxWriteBytes
  }

  /** The first limit of the budget the estimate does not keep, if there is one. */
  ghost function FirstLimit(b: Budget, e: Estimate): (r: Option<Blocker>)
    ensures r.None? <==> Admits(b, e)
  {
    if b.maxActions == 0 then Some(ActionBudgetExhausted)
    else if b.maxWorkUnits < e.workUnits then Some(WorkBudgetExceeded)
    else if b.maxReadBytes < e.readBytes then Some(ReadBudgetExceeded)
    else if b.maxWriteBytes < e.writeBytes then Some(WriteBudgetExceeded)
    else None
  }

  /** A candidate is eligible exactly when nothing blocks it and the budget admits its estimate. */
  function MakeCandidate(action: Action, reason: Reason, bound: Bound, e: Estimate, structural: Option<Blocker>,
                         busy: bool, b: Budget)
      : (c: Candidate)
    ensures c.eligible <==> structural.None? && !busy && Admits(b, e)
    ensures structural.Some? ==> c.blocker == structural
    ensures structural.None? && busy ==> c.blocker == Some(Busy)
    ensures structural.None? && !busy ==> c.blocker == FirstLimit(b, e)
    ensures c.action == action && c.reason == reason && c.bound == bound && c.estimate == e
  {
    var blocker := if structural.Some? then structural else if busy then Some(Busy) else BudgetBlocker(e, b);
    Candidate(action, reason, bound, e, blocker.None?, blocker)
  }

  // ---------------------------------------------------------------------------
  // Order
  // ---------------------------------------------------------------------------

  function Priority(a: Action): u8 {
    match a
    case FlushLsm(_, _) => 0
    case AdvanceColumnar(_, _, _) => 1
    case GcChangeStream(_, _) => 2
    case CompactLsm(_, _) => 3
    case CompactColumnar(_) => 4
  }

  function ActionCursor(a: Action): Cursor {
    match a
    case FlushLsm(_, storage) => Cursor(0, storage)
    case AdvanceColumnar(projection, _, _) => Cursor(1, projection)
    case GcChangeStream(_, storage) => Cursor(2, storage)
    case CompactLsm(_, storage) => Cursor(3, storage)
    case CompactColumnar(projection) => Cursor(4, projection)
  }

  function KeyOf(c: Candidate): Cursor {
    ActionCursor(c.action)
  }

  datatype Ordering = Less | Equal | Greater

  function CompareInt(a: int, b: int): Ordering {
    if a < b then Less else if a > b then Greater else Equal
  }

  function Compare(a: Candidate, b: Candidate): Ordering {
    var priority := CompareInt(Priority(a.action), Priority(b.action));
    if priority != Equal then priority
    else
      var class_ := CompareInt(KeyOf(a).class_, KeyOf(b).class_);
      if class_ != Equal then class_ else CompareInt(KeyOf(a).target, KeyOf(b).target)
  }

  function CompareWithCursor(a: Candidate, b: Candidate, cursor: Option<Cursor>): Ordering {
    var priority := CompareInt(Priority(a.action), Priority(b.action));
    if priority != Equal then priority
    else
      var left, right := KeyOf(a), KeyOf(b);
      if left.class_ != right.class_ then CompareInt(left.class_, right.class_)
      else if cursor.None? || cursor.value.class_ != left.class_ then CompareInt(left.target, right.target)
      else
        var leftAfter, rightAfter := left.target > cursor.value.target, right.target > cursor.value.target;
        if leftAfter != rightAfter then (if leftAfter then Less else Greater)
        else CompareInt(left.target, right.target)
  }

  /** How far round the ring of targets `x` lies past `from`; `from` itself is last. */
  function Turn(from: u64, x: u64): int {
    if x > from then x - from else x - from + MAX_U64 + 1
  }

  /** Where a target stands in its class, seen from the cursor. */
  function Rank(key: Cursor, cursor: Option<Cursor>): int {
    if cursor.Some? && cursor.value.class_ == key.class_ then Turn(cursor.value.target, key.target) else key.target
  }

  /** The comparator is the order by class, then round the ring from the cursor. */
  lemma CompareIsRank(a: Candidate, b: Candidate, cursor: Option<Cursor>)
    ensures CompareWithCursor(a, b, cursor) ==
            (if KeyOf(a).class_ != KeyOf(b).class_ then CompareInt(KeyOf(a).class_, KeyOf(b).class_)
             else CompareInt(Rank(KeyOf(a), cursor), Rank(KeyOf(b), cursor)))
    ensures CompareWithCursor(a, b, cursor) == Equal <==> KeyOf(a) == KeyOf(b)
  {
  }

  /** `k` comes no later than any key of `cs`, as the cursor sees it. */
  predicate Leads(k: Cursor, other: Cursor, cursor: Option<Cursor>) {
    k.class_ < other.class_ || (k.class_ == other.class_ && Rank(k, cursor) <= Rank(other, cursor))
  }

  // ---------------------------------------------------------------------------
  // Planning
  // ---------------------------------------------------------------------------

  predicate SortedByKey(cs: seq<Candidate>) {
    forall i, j :: 0 <= i < j < |cs| ==> Compare(cs[i], cs[j]) != Greater
  }

  /** Where `c` goes: after everything that does not come after it. */
  function Insert(cs: seq<Candidate>, c: Candidate): seq<Candidate> {
    if cs == [] || Compare(cs[|cs| - 1], c) != Greater then cs + [c]
    else Insert(cs[..|cs| - 1], c) + [cs[|cs| - 1]]
  }

  function Sort(cs: seq<Candidate>): seq<Candidate> {
    if cs == [] then [] else Insert(Sort(cs[..|cs| - 1]), cs[|cs| - 1])
  }

  /** The first of the least eligible candidates. */
  function Best(cs: seq<Candidate>, cursor: Option<Cursor>): Option<Candidate> {
    if cs == [] then None
    else
      var n := |cs| - 1;
      var best := Best(cs[..n], cursor);
      if !cs[n].eligible then best
      else if best.None? || CompareWithCursor(cs[n], best.value, cursor) == Less then Some(cs[n])
      else best
  }

  function Decide(c: Candidate): Decision {
    Decision(c.action, c.reason, c.bound, c.estimate)
  }

  datatype Inspection = Inspection(decision: Option<Decision>, candidates: seq<Candidate>)

  function Plan(cs: seq<Candidate>, cursor: Option<Cursor>): Inspection {
    var sorted := Sort(cs);
    var best := Best(sorted, cursor);
    Inspection(if best.None? then None else Some(Decide(best.value)), sorted)
  }

  /** Sorting the candidates in place and taking the least eligible one. */
  method PlanMaintenance(candidates: seq<Candidate>, cursor: Option<Cursor>) returns (r: Inspection)
    ensures r == Plan(candidates, cursor)
    ensures InWorkOrder(r.candidates) && multiset(r.candidates) == multiset(candidates)
    ensures forall kind: nat, target: u64 :: Those(r.candidates, kind, target) == Those(candidates, kind, target)
    ensures match r.decision
            case None => forall d :: d in candidates ==> !d.eligible
            case Some(d) => exists c :: Chosen(c, candidates, cursor) && Decides(Some(d), c)
  {
    hide Insert, SortedByKey, Compare, CompareWithCursor, InWorkOrder, Those, Chosen;
    PlanChooses(candidates, cursor);
    SortedIsWorkOrder(candidates);
    forall kind: nat, target: u64 ensures Those(Sort(candidates), kind, target) == Those(candidates, kind, target) {
      SortIsStable(candidates, kind, target);
    }
    var sorted: seq<Candidate>, i := [], 0;
    SortedEmpty();
    while i < |candidates|
      invariant i <= |candidates| && sorted == Sort(candidates[..i])
      invariant SortedByKey(sorted) && multiset(sorted) == multiset(candidates[..i])
    {
      assert candidates[..i + 1][..i] == candidates[..i] && candidates[..i + 1] == candidates[..i] + [candidates[i]];
      InsertKeeps(sorted, candidates[i]);
      InsertSorts(sorted, candidates[i]);
      sorted := Insert(sorted, candidates[i]);
      i := i + 1;
    }
    assert candidates[..i] == candidates;
    var best: Option<Candidate> := None;
    var j := 0;
    while j < |sorted|
      invariant j <= |sorted| && best == Best(sorted[..j], cursor)
    {
      assert sorted[..j + 1][..j] == sorted[..j];
      if sorted[j].eligible && (best.None? || CompareWithCursor(sorted[j], best.value, cursor) == Less) { best := Some(sorted[j]); }
      j := j + 1;
    }
    assert sorted[..j] == sorted;
    return Inspection(if best.None? then None else Some(Decide(best.value)), sorted);
  }

  lemma SortedEmpty()
    ensures SortedByKey([]) && Sort([]) == []
  {
  }

  lemma {:induction false} InsertKeeps(cs: seq<Candidate>, c: Candidate)
    ensures multiset(Insert(cs, c)) == multiset(cs) + multiset{c}
    decreases |cs|
  {
    hide Compare;
    if cs != [] {
      var n := |cs| - 1;
      InsertKeeps(cs[..n], c);
      assert cs == cs[..n] + [cs[n]];
    }
  }

  lemma {:induction false} InsertSorts(cs: seq<Candidate>, c: Candidate)
    requires SortedByKey(cs)
    ensures SortedByKey(Insert(cs, c))
    decreases |cs|
  {
    hide Compare;
    if cs == [] || Compare(cs[|cs| - 1], c) != Greater {
      SortedEnd(cs, c);
    } else {
      var n := |cs| - 1;
      InsertSorts(cs[..n], c);
      var r := Insert(cs[..n], c);
      hide Insert;
      forall i | 0 <= i < |r| ensures Compare(r[i], cs[n]) != Greater {
        InsertKeeps(cs[..n], c);
        assert r[i] in multiset(r);
        if r[i] == c { CompareFlips(cs[n], c); } else { assert r[i] in cs[..n]; }
      }
    }
  }

  lemma CompareFlips(a: Candidate, b: Candidate)
    ensures Compare(a, b) == Greater ==> Compare(b, a) != Greater
    ensures Compare(a, b) == Equal <==> KeyOf(a) == KeyOf(b)
    ensures Compare(a, b) != Greater && Compare(b, a) != Greater ==> KeyOf(a) == KeyOf(b)
  {
  }

  lemma CompareTransitive(a: Candidate, b: Candidate, c: Candidate)
    requires Compare(a, b) != Greater && Compare(b, c) != Greater
    ensures Compare(a, c) != Greater
  {
  }

  lemma {:induction false} SortedEnd(cs: seq<Candidate>, c: Candidate)
    requires SortedByKey(cs) && (cs == [] || Compare(cs[|cs| - 1], c) != Greater)
    ensures SortedByKey(cs + [c])
  {
    hide Compare;
    var l := cs + [c];
    forall i, j | 0 <= i < j < |l| ensures Compare(l[i], l[j]) != Greater {
      if j == |cs| && i < |cs| - 1 { CompareTransitive(cs[i], cs[|cs| - 1], c); }
    }
  }

  lemma {:induction false} SortKeeps(cs: seq<Candidate>)
    ensures SortedByKey(Sort(cs)) && multiset(Sort(cs)) == multiset(cs)
    decreases |cs|
  {
    hide Insert, SortedByKey;
    if cs == [] {
      SortedEmpty();
    } else {
      var n := |cs| - 1;
      SortKeeps(cs[..n]);
      InsertKeeps(Sort(cs[..n]), cs[n]);
      InsertSorts(Sort(cs[..n]), cs[n]);
      assert cs == cs[..n] + [cs[n]];
    }
  }

  // ---------------------------------------------------------------------------
  // The decision is the leading eligible candidate
  // ---------------------------------------------------------------------------

  /** The decision is the candidate's own action, for its reason, under its bound and its estimate. */
  predicate Decides(d: Option<Decision>, c: Candidate) {
    && d.Some? && d.value.action == c.action && d.value.reason == c.reason && d.value.bound == c.bound
    && d.value.estimated.workUnits == c.estimate.workUnits && d.value.estimated.readBytes == c.estimate.readBytes
    && d.value.estimated.writeBytes == c.estimate.writeBytes
  }

  predicate Chosen(c: Candidate, cs: seq<Candidate>, cursor: Option<Cursor>) {
    && c in cs && c.eligible
    && forall d :: d in cs && d.eligible ==> Leads(KeyOf(c), KeyOf(d), cursor)
  }

  lemma {:induction false} BestIsChosen(cs: seq<Candidate>, cursor: Option<Cursor>)
    ensures Best(cs, cursor).None? <==> forall d :: d in cs ==> !d.eligible
    ensures Best(cs, cursor).Some? ==> Chosen(Best(cs, cursor).value, cs, cursor)
    decreases |cs|
  {
    hide CompareWithCursor;
    if cs != [] {
      var n := |cs| - 1;
      var front := Best(cs[..n], cursor);
      BestIsChosen(cs[..n], cursor);
      assert forall d :: d in cs <==> d in cs[..n] || d == cs[n];
      if front.Some? { CompareIsRank(cs[n], front.value, cursor); }
    }
  }

  /** The decision is an eligible candidate that leads all others; there is none
      exactly when nothing is eligible. */
  lemma {:induction false} PlanChooses(cs: seq<Candidate>, cursor: Option<Cursor>)
    ensures Plan(cs, cursor).decision.None? <==> forall d :: d in cs ==> !d.eligible
    ensures Plan(cs, cursor).decision.Some? ==>
              exists c :: Chosen(c, cs, cursor) && Decides(Plan(cs, cursor).decision, c)
  {
    SortKeeps(cs);
    BestIsChosen(Sort(cs), cursor);
    SameMembers(Sort(cs), cs);
    var best := Best(Sort(cs), cursor);
    if best.Some? { assert Chosen(best.value, cs, cursor); }
  }

  // ---------------------------------------------------------------------------
  // Which action that is
  // ---------------------------------------------------------------------------

  /** Some eligible candidate proposes such an action. */
  predicate Offers(cs: seq<Candidate>, wanted: Action -> bool) {
    exists c :: c in cs && c.eligible && wanted(c.action)
  }

  /** What an action works on: a storage, or a columnar projection. */
  function Target(a: Action): u64 {
    match a
    case AdvanceColumnar(projection, _, _) => projection
    case CompactColumnar(projection) => projection
    case GcChangeStream(_, storage) => storage
    case FlushLsm(_, storage) => storage
    case CompactLsm(_, storage) => storage
  }

  predicate SameKind(a: Action, b: Action) {
    || (a.FlushLsm? && b.FlushLsm?) || (a.AdvanceColumnar? && b.AdvanceColumnar?) || (a.GcChangeStream? && b.GcChangeStream?)
    || (a.CompactLsm? && b.CompactLsm?) || (a.CompactColumnar? && b.CompactColumnar?)
  }

  /** The order of work: a flush if one is eligible, else an advance of a projection,
      else a collection of change history, else a compaction of an LSM, else a
      compaction of a projection. */
  lemma {:induction false} PlanByKind(cs: seq<Candidate>, cursor: Option<Cursor>)
    requires Plan(cs, cursor).decision.Some?
    ensures var a := Plan(cs, cursor).decision.value.action;
            if Offers(cs, (x: Action) => x.FlushLsm?) then a.FlushLsm?
            else if Offers(cs, (x: Action) => x.AdvanceColumnar?) then a.AdvanceColumnar?
            else if Offers(cs, (x: Action) => x.GcChangeStream?) then a.GcChangeStream?
            else if Offers(cs, (x: Action) => x.CompactLsm?) then a.CompactLsm?
            else a.CompactColumnar?
  {
    hide Plan;
    PlanChooses(cs, cursor);
    var best :| Chosen(best, cs, cursor) && Decides(Plan(cs, cursor).decision, best);
    var a := best.action;
    forall c | c in cs && c.eligible ensures ActionCursor(a).class_ <= ActionCursor(c.action).class_ {
      assert Leads(KeyOf(best), KeyOf(c), cursor);
    }
    assert a.FlushLsm? ==> Offers(cs, (x: Action) => x.FlushLsm?);
    assert a.AdvanceColumnar? ==> Offers(cs, (x: Action) => x.AdvanceColumnar?);
    assert a.GcChangeStream? ==> Offers(cs, (x: Action) => x.GcChangeStream?);
    assert a.CompactLsm? ==> Offers(cs, (x: Action) => x.CompactLsm?);
  }

  /** And within the kind: behind a cursor left by an action of that kind the next
      higher target, or the lowest if there is none; otherwise the lowest. */
  lemma {:induction false} PlanByTarget(cs: seq<Candidate>, cursor: Option<Cursor>, last: Action, c: Candidate)
    requires Plan(cs, cursor).decision.Some? && c in cs && c.eligible && SameKind(c.action, Plan(cs, cursor).decision.value.action)
    requires cursor.None? || cursor.value == ActionCursor(last)
    ensures var a := Plan(cs, cursor).decision.value.action;
            if cursor.None? || !SameKind(last, a) then Target(a) <= Target(c.action)
            else if Target(a) > Target(last) then Target(c.action) <= Target(last) || Target(a) <= Target(c.action)
            else Target(c.action) <= Target(last) && Target(a) <= Target(c.action)
  {
    hide Plan;
    PlanChooses(cs, cursor);
    var best :| Chosen(best, cs, cursor) && Decides(Plan(cs, cursor).decision, best);
    assert Leads(KeyOf(best), KeyOf(c), cursor);
  }

  /** The place of a kind in the order of work. */
  function WorkPlace(a: Action): nat {
    if a.FlushLsm? then 0 else if a.AdvanceColumnar? then 1 else if a.GcChangeStream? then 2 else if a.CompactLsm? then 3 else 4
  }

  /** By kind, in the order of work, and by target within a kind. */
  predicate InWorkOrder(cs: seq<Candidate>) {
    forall i, j :: 0 <= i < j < |cs| ==>
      || WorkPlace(cs[i].action) < WorkPlace(cs[j].action)
      || (WorkPlace(cs[i].action) == WorkPlace(cs[j].action) && Target(cs[i].action) <= Target(cs[j].action))
  }

  lemma {:induction false} SortedIsWorkOrder(cs: seq<Candidate>)
    ensures InWorkOrder(Sort(cs))
  {
    hide Sort;
    SortKeeps(cs);
    var l := Sort(cs);
    forall i, j | 0 <= i < j < |l|
      ensures || WorkPlace(l[i].action) < WorkPlace(l[j].action)
              || (WorkPlace(l[i].action) == WorkPlace(l[j].action) && Target(l[i].action) <= Target(l[j].action))
    {
      assert Compare(l[i], l[j]) != Greater;
    }
  }

  predicate IsOf(c: Candidate, kind: nat, target: u64) {
    WorkPlace(c.action) == kind && Target(c.action) == target
  }

  /** The candidates of one kind and target, in the order they stand. */
  function Those(cs: seq<Candidate>, kind: nat, target: u64): seq<Candidate> {
    if cs == [] then []
    else Those(cs[..|cs| - 1], kind, target) + if IsOf(cs[|cs| - 1], kind, target) then [cs[|cs| - 1]] else []
  }

  lemma {:induction false} InsertIsStable(cs: seq<Candidate>, c: Candidate, kind: nat, target: u64)
    ensures Those(Insert(cs, c), kind, target) == Those(cs, kind, target) + if IsOf(c, kind, target) then [c] else []
    decreases |cs|
  {
    hide Compare, IsOf;
    if cs == [] || Compare(cs[|cs| - 1], c) != Greater {
      assert (cs + [c])[..|cs|] == cs;
    } else {
      var n := |cs| - 1;
      InsertIsStable(cs[..n], c, kind, target);
      var r := Insert(cs[..n], c);
      assert (r + [cs[n]])[..|r|] == r;
      GreaterIsOther(cs[n], c, kind, target);
    }
  }

  lemma GreaterIsOther(a: Candidate, b: Candidate, kind: nat, target: u64)
    requires Compare(a, b) == Greater
    ensures !(IsOf(a, kind, target) && IsOf(b, kind, target))
  {
  }

  /** Sorting keeps candidates of one kind and target in the order they came in. */
  lemma {:induction false} SortIsStable(cs: seq<Candidate>, kind: nat, target: u64)
    ensures Those(Sort(cs), kind, target) == Those(cs, kind, target)
    decreases |cs|
  {
    hide Insert, IsOf;
    if cs != [] {
      SortIsStable(cs[..|cs| - 1], kind, target);
      InsertIsStable(Sort(cs[..|cs| - 1]), cs[|cs| - 1], kind, target);
    }
  }

  /** And of those the first eligible one is decided on. */
  lemma {:induction false} FirstOfThose(cs: seq<Candidate>, cursor: Option<Cursor>)
    requires Plan(cs, cursor).decision.Some?
    ensures exists k: nat :: k < |Sort(cs)| && FirstDecided(Sort(cs), cursor, k) && Decides(Plan(cs, cursor).decision, Sort(cs)[k])
  {
    hide Sort;
    var k := BestIsFirst(Sort(cs), cursor);
    assert FirstDecided(Sort(cs), cursor, k);
  }

  /** No eligible candidate of its kind and target stands before it. */
  predicate FirstDecided(cs: seq<Candidate>, cursor: Option<Cursor>, k: nat)
    requires k < |cs|
  {
    && Chosen(cs[k], cs, cursor)
    && forall j :: 0 <= j < k && cs[j].eligible ==> !IsOf(cs[j], WorkPlace(cs[k].action), Target(cs[k].action))
  }

  lemma {:induction false} BestIsFirst(cs: seq<Candidate>, cursor: Option<Cursor>) returns (k: nat)
    requires Best(cs, cursor).Some?
    ensures k < |cs| && cs[k] == Best(cs, cursor).value && FirstDecided(cs, cursor, k)
    decreases |cs|
  {
    BestIsChosen(cs, cursor);
    hide CompareWithCursor, Chosen;
    var n := |cs| - 1;
    var front := Best(cs[..n], cursor);
    if front.Some? && Best(cs, cursor) == front {
      k := BestIsFirst(cs[..n], cursor);
    } else {
      k := n;
      BestIsChosen(cs[..n], cursor);
      forall j | 0 <= j < k && cs[j].eligible ensures !IsOf(cs[j], WorkPlace(cs[k].action), Target(cs[k].action)) {
        assert cs[..n][j] == cs[j];
        LeadsOther(cs[..n], front, cursor, j, cs[n]);
      }
    }
  }

  lemma {:induction false} LeadsOther(cs: seq<Candidate>, best: Option<Candidate>, cursor: Option<Cursor>, j: nat, c: Candidate)
    requires j < |cs| && cs[j].eligible && best == Best(cs, cursor)
    requires best.Some? ==> CompareWithCursor(c, best.value, cursor) == Less
    ensures !IsOf(cs[j], WorkPlace(c.action), Target(c.action))
  {
    hide Best;
    BestIsChosen(cs, cursor);
    assert cs[j] in cs;
    assert Leads(KeyOf(best.value), KeyOf(cs[j]), cursor);
    CompareIsRank(c, best.value, cursor);
  }

  lemma {:induction false} SameMembers<T>(a: seq<T>, b: seq<T>)
    requires multiset(a) == multiset(b)
    ensures forall x :: x in a <==> x in b
  {
    forall x ensures x in a <==> x in b {
      assert x in a <==> x in multiset(a);
      assert x in b <==> x in multiset(b);
    }
  }

  /** Whatever the order of the candidates, the decision has the same class and target. */
  lemma {:induction false} DecisionKeyIsOrderFree(cs: seq<Candidate>, cs': seq<Candidate>, cursor: Option<Cursor>)
    requires multiset(cs) == multiset(cs')
    ensures Plan(cs, cursor).decision.Some? <==> Plan(cs', cursor).decision.Some?
    ensures Plan(cs, cursor).decision.Some? ==>
              ActionCursor(Plan(cs, cursor).decision.value.action) == ActionCursor(Plan(cs', cursor).decision.value.action)
  {
    hide Plan;
    PlanChooses(cs, cursor);
    PlanChooses(cs', cursor);
    SameMembers(cs, cs');
    if Plan(cs, cursor).decision.Some? {
      var c :| Chosen(c, cs, cursor) && Decides(Plan(cs, cursor).decision, c);
      var c' :| Chosen(c', cs', cursor) && Decides(Plan(cs', cursor).decision, c');
      assert Leads(KeyOf(c), KeyOf(c'), cursor) && Leads(KeyOf(c'), KeyOf(c), cursor);
    }
  }

  predicate DistinctKeys(cs: seq<Candidate>) {
    forall i, j :: 0 <= i < j < |cs| ==> KeyOf(cs[i]) != KeyOf(cs[j])
  }

  /** With distinct keys the whole inspection is the same for every order of the input. */
  lemma {:induction false} PlanIsOrderFree(cs: seq<Candidate>, cs': seq<Candidate>, cursor: Option<Cursor>)
    requires multiset(cs) == multiset(cs') && DistinctKeys(cs)
    ensures Plan(cs', cursor) == Plan(cs, cursor)
  {
    SortKeeps(cs);
    SortKeeps(cs');
    KeysOfMultiset(cs, Sort(cs));
    KeysOfMultiset(cs, Sort(cs'));
    hide Sort, SortedByKey, DistinctKeys;
    SortedUnique(Sort(cs), Sort(cs'));
  }

  /** Keys are distinct exactly when no key has two occurrences. */
  lemma {:induction false} KeysOfMultiset(cs: seq<Candidate>, cs': seq<Candidate>)
    requires multiset(cs) == multiset(cs') && DistinctKeys(cs)
    ensures DistinctKeys(cs')
  {
    forall i, j | 0 <= i < j < |cs'| ensures KeyOf(cs'[i]) != KeyOf(cs'[j]) {
      if KeyOf(cs'[i]) == KeyOf(cs'[j]) {
        var a, b := cs'[i], cs'[j];
        assert a in multiset(cs') && b in multiset(cs');
        assert a in cs && b in cs;
        var p :| 0 <= p < |cs| && cs[p] == a;
        var q :| 0 <= q < |cs| && cs[q] == b;
        assert p == q;
        TwiceInMultiset(cs', i, j);
        OnceInMultiset(cs, p);
      }
    }
  }

  lemma {:induction false} TwiceInMultiset<T>(s: seq<T>, i: nat, j: nat)
    requires i < j < |s| && s[i] == s[j]
    ensures multiset(s)[s[i]] >= 2
  {
    assert s == s[..j] + s[j..];
    assert s[..j][i] == s[i] && s[j..][0] == s[j];
    assert s[i] in multiset(s[..j]) && s[j] in multiset(s[j..]);
  }

  lemma {:induction false} OnceInMultiset(s: seq<Candidate>, p: nat)
    requires p < |s| && DistinctKeys(s)
    ensures multiset(s)[s[p]] == 1
  {
    assert s == s[..p] + [s[p]] + s[p + 1..];
    assert s[p] !in s[..p] && s[p] !in s[p + 1..];
    assert s[p] !in multiset(s[..p]) && s[p] !in multiset(s[p + 1..]);
  }

  lemma {:induction false} FrontOf(a: seq<Candidate>)
    requires a != [] && SortedByKey(a) && DistinctKeys(a)
    ensures multiset(a[..|a| - 1]) == multiset(a) - multiset{a[|a| - 1]}
    ensures SortedByKey(a[..|a| - 1]) && DistinctKeys(a[..|a| - 1])
  {
    hide Compare;
    var n := |a| - 1;
    assert a == a[..n] + [a[n]];
  }

  /** Two sorted arrangements of the same candidates with distinct keys are equal. */
  lemma {:induction false} SortedUnique(a: seq<Candidate>, b: seq<Candidate>)
    requires multiset(a) == multiset(b) && SortedByKey(a) && SortedByKey(b) && DistinctKeys(a) && DistinctKeys(b)
    ensures a == b
    decreases |a|
  {
    hide SortedByKey, DistinctKeys;
    SameSize(a, b);
    if a != [] {
      var n := |a| - 1;
      LastIsGreatest(a, b);
      FrontOf(a);
      FrontOf(b);
      SortedUnique(a[..n], b[..n]);
      SameEnds(a, b);
    }
  }

  lemma SameEnds<T>(a: seq<T>, b: seq<T>)
    requires a != [] && |a| == |b| && a[..|a| - 1] == b[..|b| - 1] && a[|a| - 1] == b[|b| - 1]
    ensures a == b
  {
    var n := |a| - 1;
    assert a == a[..n] + [a[n]] && b == b[..n] + [b[n]];
  }

  lemma {:induction false} SameSize<T>(a: seq<T>, b: seq<T>)
    requires multiset(a) == multiset(b)
    ensures |a| == |b|
  {
    assert |multiset(a)| == |a| && |multiset(b)| == |b|;
  }

  lemma {:induction false} LastIsGreatest(a: seq<Candidate>, b: seq<Candidate>)
    requires a != [] && |a| == |b| && multiset(a) == multiset(b) && SortedByKey(a) && SortedByKey(b) && DistinctKeys(a)
    ensures a[|a| - 1] == b[|b| - 1]
  {
    hide Compare;
    var n := |a| - 1;
    SameMembers(a, b);
    assert a[n] in b && b[n] in a;
    var p :| 0 <= p < |b| && b[p] == a[n];
    var q :| 0 <= q < |a| && a[q] == b[n];
    if q < n {
      assert Compare(a[q], a[n]) != Greater;
      if p < n { assert Compare(b[p], b[n]) != Greater; CompareFlips(a[q], a[n]); }
    }
  }
}

/** Over any run of planned steps the cursor makes every waiting target come round. */
module PlannerFairness {
  import opened Wrappers
  import opened Widths
  import opened Planner

  /** One maintenance step: the candidates it sees, and whether its action succeeds.
      Only an action that succeeds moves the cursor. */
  datatype Step = Step(candidates: seq<Candidate>, succeeds: bool)

  function Decided(step: Step, cursor: Option<Cursor>): Option<Cursor> {
    var d := Plan(step.candidates, cursor).decision;
    if d.None? then None else Some(ActionCursor(d.value.action))
  }

  /** The cursor before step `i`. */
  function CursorAt(start: Option<Cursor>, steps: seq<Step>, i: nat): Option<Cursor>
    requires i <= |steps|
  {
    if i == 0 then start
    else
      var before := CursorAt(start, steps, i - 1);
      var d := Decided(steps[i - 1], before);
      if d.Some? && steps[i - 1].succeeds then d else before
  }

  /** The class and target step `i` decides on. */
  function Choice(start: Option<Cursor>, steps: seq<Step>, i: nat): Option<Cursor>
    requires i < |steps|
  {
    Decided(steps[i], CursorAt(start, steps, i))
  }

  /** `key` is eligible and no class before it is. */
  predicate Waiting(cs: seq<Candidate>, key: Cursor) {
    && (exists c :: c in cs && c.eligible && KeyOf(c) == key)
    && forall c :: c in cs && c.eligible ==> key.class_ <= KeyOf(c).class_
  }

  /** While `key` waits, every step chooses in its class, and nothing behind it. */
  lemma {:induction false} ChoiceLeads(step: Step, cursor: Option<Cursor>, key: Cursor)
    requires Waiting(step.candidates, key)
    ensures Decided(step, cursor).Some?
    ensures var k := Decided(step, cursor).value;
            k.class_ == key.class_ && Rank(k, cursor) <= Rank(key, cursor)
  {
    hide Plan;
    PlanChooses(step.candidates, cursor);
    var c :| c in step.candidates && c.eligible && KeyOf(c) == key;
    var best :| Chosen(best, step.candidates, cursor) && Decides(Plan(step.candidates, cursor).decision, best);
    assert Leads(KeyOf(best), KeyOf(c), cursor);
  }

  /** `x` lies strictly before `t` on the way round from `u`; `u` itself is at the start. */
  predicate Before(u: u64, x: u64, t: u64) {
    x == u || Turn(u, x) < Turn(u, t)
  }

  /** From a place before `t`, what is not behind `t` lies before `t` too, and is not the start. */
  lemma RingStep(u: u64, x: u64, y: u64, t: u64)
    requires u != t && Before(u, x, t) && x != t && y != t && Turn(x, y) <= Turn(x, t)
    ensures Before(u, y, t) && y != u
  {
  }

  /** Step `i` takes an action on `key`, and it succeeds. */
  predicate Served(start: Option<Cursor>, steps: seq<Step>, key: Cursor, i: nat)
    requires i < |steps|
  {
    steps[i].succeeds && Choice(start, steps, i) == Some(key)
  }

  /** Between two choices of the same other target the waiting one is served: a
      target whose action succeeded does not come up again while `key` waits,
      whatever fails in between. */
  lemma {:induction false} NotChosenAgain(start: Option<Cursor>, steps: seq<Step>, key: Cursor, a: nat, b: nat)
    requires a < b < |steps|
    requires forall i :: a <= i <= b ==> Waiting(steps[i].candidates, key)
    requires forall i :: a <= i < b ==> !Served(start, steps, key, i)
    requires steps[a].succeeds
    ensures Choice(start, steps, a).Some? && Choice(start, steps, b).Some?
    ensures Choice(start, steps, b) != Choice(start, steps, a)
    ensures var u, cursor := Choice(start, steps, a).value.target, CursorAt(start, steps, b);
            && u != key.target && cursor.Some? && cursor.value.class_ == key.class_ && cursor.value.target != key.target
            && Before(u, cursor.value.target, key.target)
    decreases b
  {
    hide Decided, Waiting, Turn;
    ChoiceLeads(steps[a], CursorAt(start, steps, a), key);
    assert !Served(start, steps, key, a);
    var u := Choice(start, steps, a).value.target;
    if b > a + 1 {
      NotChosenAgain(start, steps, key, a, b - 1);
      var before := CursorAt(start, steps, b - 1);
      ChoiceLeads(steps[b - 1], before, key);
      assert !Served(start, steps, key, b - 1);
      if steps[b - 1].succeeds {
        RingStep(u, before.value.target, Choice(start, steps, b - 1).value.target, key.target);
      }
    }
    var cursor := CursorAt(start, steps, b);
    ChoiceLeads(steps[b], cursor, key);
    if Choice(start, steps, b) != Some(key) {
      RingStep(u, cursor.value.target, Choice(start, steps, b).value.target, key.target);
    }
  }

  /** How many steps from `a` up to `b` succeed. */
  function Successes(steps: seq<Step>, a: nat, b: nat): nat
    requires a <= b <= |steps|
  {
    if a == b then 0 else Successes(steps, a, b - 1) + if steps[b - 1].succeeds then 1 else 0
  }

  /** The targets whose actions succeed in those steps. */
  function ServedIn(start: Option<Cursor>, steps: seq<Step>, a: nat, b: nat): set<Option<Cursor>>
    requires a <= b <= |steps|
  {
    set i | a <= i < b && steps[i].succeeds :: Choice(start, steps, i)
  }

  /** While `key` waits unserved, every success serves a target not served before. */
  lemma {:induction false} AllDifferent(start: Option<Cursor>, steps: seq<Step>, key: Cursor, a: nat, b: nat)
    requires a <= b <= |steps|
    requires forall i :: a <= i < b ==> Waiting(steps[i].candidates, key) && !Served(start, steps, key, i)
    ensures |ServedIn(start, steps, a, b)| == Successes(steps, a, b)
    decreases b - a
  {
    hide Choice, Waiting, Served;
    if a == b {
      assert ServedIn(start, steps, a, b) == {};
    } else {
      AllDifferent(start, steps, key, a, b - 1);
      var front, last := ServedIn(start, steps, a, b - 1), Choice(start, steps, b - 1);
      if steps[b - 1].succeeds {
        assert last !in front by {
          forall i | a <= i < b - 1 && steps[i].succeeds ensures Choice(start, steps, i) != last { NotChosenAgain(start, steps, key, i, b - 1); }
        }
        assert ServedIn(start, steps, a, b) == front + {last};
      } else {
        assert ServedIn(start, steps, a, b) == front;
      }
    }
  }

  /** Bounded waiting: in any stretch of steps in which as many actions succeed as
      there are targets, a target that waits throughout is served, however candidates
      come and go and whatever fails in between. */
  lemma {:induction false} BoundedWaiting(start: Option<Cursor>, steps: seq<Step>, key: Cursor, a: nat, b: nat,
                                          targets: set<Option<Cursor>>)
    requires a <= b <= |steps| && Some(key) in targets && |targets| <= Successes(steps, a, b)
    requires forall i :: a <= i < b ==>
               Waiting(steps[i].candidates, key) && (steps[i].succeeds ==> Choice(start, steps, i) in targets)
    ensures exists i :: a <= i < b && Served(start, steps, key, i)
  {
    hide Choice, Waiting;
    if forall i :: a <= i < b ==> !Served(start, steps, key, i) {
      AllDifferent(start, steps, key, a, b);
      var served := ServedIn(start, steps, a, b);
      assert served <= targets - {Some(key)};
      Smaller(served, targets - {Some(key)});
    }
  }

  lemma {:induction false} Smaller<T>(a: set<T>, b: set<T>)
    requires a <= b
    ensures |a| <= |b|
  {
    assert b == a + (b - a);
    assert |b| == |a| + |b - a|;
  }

  // ---------------------------------------------------------------------------
  // Failing actions
  // ---------------------------------------------------------------------------

  /** Among unchanged candidates, with another target of the class waiting, the same
      target is chosen again if and only if its action failed. */
  lemma {:induction false} RetriedIffFailed(start: Option<Cursor>, steps: seq<Step>, key: Cursor, i: nat)
    requires i + 1 < |steps| && steps[i + 1].candidates == steps[i].candidates
    requires Waiting(steps[i].candidates, key) && Choice(start, steps, i) != Some(key)
    ensures Choice(start, steps, i + 1) == Choice(start, steps, i) <==> !steps[i].succeeds
  {
    hide Plan, Waiting;
    if steps[i].succeeds { NotChosenAgain(start, steps, key, i, i + 1); }
  }

  /** Bounded waiting fails without successes: through any run of failures among
      unchanged candidates, however long, every choice is the first one, and every
      other waiting target goes unserved. */
  lemma {:induction false} FailuresStarve(start: Option<Cursor>, steps: seq<Step>, key: Cursor, a: nat, b: nat)
    requires a <= b < |steps| && Choice(start, steps, a) != Some(key)
    requires forall i :: a <= i < b ==> !steps[i].succeeds
    requires forall i :: a <= i <= b ==> steps[i].candidates == steps[a].candidates
    ensures forall i :: a <= i <= b ==> Choice(start, steps, i) == Choice(start, steps, a) != Some(key)
    ensures CursorAt(start, steps, b) == CursorAt(start, steps, a)
    decreases b
  {
    hide Plan;
    if a < b { FailuresStarve(start, steps, key, a, b - 1); }
  }
}
