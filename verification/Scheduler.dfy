/** The logical-tick scheduler: when a tick may run maintenance. */
module Scheduler {
  import opened Wrappers
  import opened Widths

  // ---------------------------------------------------------------------------
  // Policy
  // ---------------------------------------------------------------------------

  datatype Policy = Policy(minimum: u64, idle: u64, noProgress: u64, trial: u64)

  datatype PolicyError =
    | ZeroMinimumCadence
    | IdleRetryBelowMinimum(minimum: u64, received: u64)
    | NoProgressRetryBelowMinimum(minimum: u64, received: u64)
    | TrialRetryBelowMinimum(minimum: u64, received: u64)

  predicate ValidPolicy(p: Policy) {
    0 < p.minimum <= p.idle && p.minimum <= p.noProgress && p.minimum <= p.trial
  }

  /** A policy is accepted exactly when no retry undercuts a positive minimum cadence. */
  function NewPolicy(minimum: u64, idle: u64, noProgress: u64, trial: u64): (r: Result<Policy, PolicyError>)
    ensures r.Ok? <==> ValidPolicy(Policy(minimum, idle, noProgress, trial))
    ensures r.Ok? ==> r.value == Policy(minimum, idle, noProgress, trial)
    ensures r.Err? ==>
              match r.error
              case ZeroMinimumCadence => minimum == 0
              case IdleRetryBelowMinimum(m, received) => m == minimum && received == idle < m
              case NoProgressRetryBelowMinimum(m, received) => m == minimum && received == noProgress < m
              case TrialRetryBelowMinimum(m, received) => m == minimum && received == trial < m
  {
    if minimum == 0 then Err(ZeroMinimumCadence)
    else if idle < minimum then Err(IdleRetryBelowMinimum(minimum, idle))
    else if noProgress < minimum then Err(NoProgressRetryBelowMinimum(minimum, noProgress))
    else if trial < minimum then Err(TrialRetryBelowMinimum(minimum, trial))
    else Ok(Policy(minimum, idle, noProgress, trial))
  }

  // ---------------------------------------------------------------------------
  // The gate
  // ---------------------------------------------------------------------------

  datatype Evidence = Evidence(windowEpoch: u64, schemaGeneration: Option<u64>, recordedReports: u64)

  datatype Delay = Normal | Idle | NoProgress

  datatype Fault = MaintenanceEnvelopeExceeded | StepFailed | ConsumptionOverflow

  datatype Renewal = ColumnarPhysicalStateChanged | ColumnarEligibilityChanged | AuthoritativeLsmLayoutChanged

  datatype Gate =
    | Open(delay: Delay)
    | AwaitingTrialProgress(evidence: Evidence)
    | AwaitingEvidenceRenewal(blockedEpoch: u64, recommendation: Renewal)
    | Faulted(fault: Fault)

  datatype State = State(lastObserved: Option<u64>, lastRun: Option<u64>, gate: Gate)

  const INITIAL := State(None, None, Open(Normal))

  datatype HoldReason =
    | DuplicateTick
    | MinimumCadence(lastRun: u64, required: u64)
    | IdleBackoff(lastRun: u64, required: u64)
    | NoProgressBackoff(lastRun: u64, required: u64)
    | AwaitingTrialEvidenceOrRetry(lastRun: u64, retry: u64, evidence: Evidence)
    | AwaitingRenewal(blockedEpoch: u64, observedEpoch: u64, recommendation: Renewal)
    | HeldByFault(fault: Fault)

  datatype Inspection = WouldRunNow | Held(reason: HoldReason)

  datatype TickError = OutOfOrderTick(previous: u64, received: u64)

  /** A run is always one of the ticks observed. */
  predicate ValidState(s: State) {
    s.lastRun.Some? ==> s.lastObserved.Some? && s.lastRun.value <= s.lastObserved.value
  }

  function Required(p: Policy, delay: Delay): u64 {
    match delay
    case Normal => p.minimum
    case Idle => p.idle
    case NoProgress => p.noProgress
  }

  function Backoff(delay: Delay, lastRun: u64, required: u64): HoldReason {
    match delay
    case Normal => MinimumCadence(lastRun, required)
    case Idle => IdleBackoff(lastRun, required)
    case NoProgress => NoProgressBackoff(lastRun, required)
  }

  /** The ticks since the last run; the subtraction never underflows. */
  function Elapsed(s: State, tick: u64): u64
    requires ValidState(s) && s.lastRun.Some? && tick > s.lastObserved.value
  {
    tick - s.lastRun.value
  }

  function Evaluate(s: State, p: Policy, evidence: Evidence, tick: u64): Result<Inspection, TickError>
    requires ValidState(s)
  {
    if s.lastObserved.Some? && tick < s.lastObserved.value then Err(OutOfOrderTick(s.lastObserved.value, tick))
    else if s.lastObserved.Some? && tick == s.lastObserved.value then Ok(Held(DuplicateTick))
    else if s.lastRun.None? then Ok(WouldRunNow)
    else
      var last, elapsed := s.lastRun.value, Elapsed(s, tick);
      match s.gate
      case Open(delay) =>
        var required := Required(p, delay);
        if elapsed >= required then Ok(WouldRunNow) else Ok(Held(Backoff(delay, last, required)))
      case AwaitingTrialProgress(previous) =>
        if evidence != previous && elapsed >= p.minimum then Ok(WouldRunNow)
        else if elapsed >= p.trial then Ok(WouldRunNow)
        else if evidence != previous then Ok(Held(MinimumCadence(last, p.minimum)))
        else Ok(Held(AwaitingTrialEvidenceOrRetry(last, p.trial, previous)))
      case AwaitingEvidenceRenewal(blocked, recommendation) =>
        if evidence.windowEpoch <= blocked then Ok(Held(AwaitingRenewal(blocked, evidence.windowEpoch, recommendation)))
        else if elapsed >= p.minimum then Ok(WouldRunNow)
        else Ok(Held(MinimumCadence(last, p.minimum)))
      case Faulted(fault) => Ok(Held(HeldByFault(fault)))
  }

  /** Nothing runs before the minimum cadence, whatever the gate and the evidence. */
  lemma RunsKeepCadence(s: State, p: Policy, evidence: Evidence, tick: u64)
    requires ValidState(s) && ValidPolicy(p) && Evaluate(s, p, evidence, tick) == Ok(WouldRunNow)
    ensures s.lastObserved.Some? ==> tick > s.lastObserved.value
    ensures s.lastRun.Some? ==> tick >= s.lastRun.value + p.minimum
  {
  }

  // ---------------------------------------------------------------------------
  // Ticking
  // ---------------------------------------------------------------------------

  /** Why a run that was reported stopped. */
  datatype StopReason =
    | NoReadyWork
    | StepLimitReached
    | TrialBoundaryResolved
    | SelectedCandidateDidNotProgress
    | ActiveTrial
    | EvidenceRenewalRecommended(recommendation: Renewal)
    | EnvelopeExceeded

  /** The gate a reported run leaves, given the evidence it ran on. */
  function GateAfter(stop: StopReason, evidence: Evidence): Gate {
    match stop
    case NoReadyWork => Open(Idle)
    case StepLimitReached => Open(Normal)
    case TrialBoundaryResolved => Open(Normal)
    case SelectedCandidateDidNotProgress => Open(NoProgress)
    case ActiveTrial => AwaitingTrialProgress(evidence)
    case EvidenceRenewalRecommended(recommendation) => AwaitingEvidenceRenewal(evidence.windowEpoch, recommendation)
    case EnvelopeExceeded => Faulted(MaintenanceEnvelopeExceeded)
  }

  /** How the runner ends, if the gate lets it run: with a report, with a fault, or
      refused before it did anything. */
  datatype Runner = Reports(stop: StopReason) | Fails(fault: Fault) | Refuses

  datatype Input = Input(tick: u64, evidence: Evidence, runner: Runner)

  datatype Outcome = Rejected(error: TickError) | HeldBack(reason: HoldReason) | Ran | NotRun

  function TickOnce(s: State, p: Policy, i: Input): (r: (State, Outcome))
    requires ValidState(s)
    ensures ValidState(r.0)
  {
    match Evaluate(s, p, i.evidence, i.tick)
    case Err(e) => (s, Rejected(e))
    case Ok(Held(reason)) => (if reason.DuplicateTick? then s else s.(lastObserved := Some(i.tick)), HeldBack(reason))
    case Ok(WouldRunNow) =>
      match i.runner
      case Reports(stop) => (State(Some(i.tick), Some(i.tick), GateAfter(stop, i.evidence)), Ran)
      case Fails(fault) => (State(Some(i.tick), Some(i.tick), Faulted(fault)), Ran)
      case Refuses => (s, NotRun)
  }

  /** The scheduler a caller owns. */
  class AutomaticScheduler {
    const policy: Policy
    var state: State

    ghost predicate Valid()
      reads this
    {
      ValidPolicy(policy) && ValidState(state)
    }

    constructor (policy: Policy)
      requires ValidPolicy(policy)
      ensures Valid() && this.policy == policy && state == INITIAL
    {
      this.policy, this.state := policy, INITIAL;
    }

    /** One cooperative tick: at most one run, and never within the minimum of the last. */
    method Tick(i: Input) returns (o: Outcome)
      requires Valid()
      modifies this`state
      ensures Valid()
      ensures (state, o) == TickOnce(old(state), policy, i)
      ensures o.Ran? || o.NotRun? <==> Reaches(old(state), policy, i)
      ensures o.Ran? ==> state.lastRun == Some(i.tick) && (old(state.lastRun).Some? ==> i.tick >= old(state.lastRun).value + policy.minimum)
    {
      var inspection := Evaluate(state, policy, i.evidence, i.tick);
      if inspection.Err? { return Rejected(inspection.error); }
      if inspection.value.Held? {
        if !inspection.value.reason.DuplicateTick? { state := state.(lastObserved := Some(i.tick)); }
        return HeldBack(inspection.value.reason);
      }
      RunsKeepCadence(state, policy, i.evidence, i.tick);
      match i.runner {
        case Reports(stop) => state := State(Some(i.tick), Some(i.tick), GateAfter(stop, i.evidence));
        case Fails(fault) => state := State(Some(i.tick), Some(i.tick), Faulted(fault));
        case Refuses => return NotRun;
      }
      return Ran;
    }
  }

  // ---------------------------------------------------------------------------
  // Whole runs
  // ---------------------------------------------------------------------------

  function StateAfter(s: State, p: Policy, inputs: seq<Input>): (r: State)
    requires ValidState(s)
    ensures ValidState(r)
  {
    if inputs == [] then s
    else TickOnce(StateAfter(s, p, inputs[..|inputs| - 1]), p, inputs[|inputs| - 1]).0
  }

  /** The ticks at which maintenance ran. */
  function RunTicks(s: State, p: Policy, inputs: seq<Input>): seq<u64>
    requires ValidState(s)
  {
    if inputs == [] then []
    else
      var n := |inputs| - 1;
      var before := RunTicks(s, p, inputs[..n]);
      if TickOnce(StateAfter(s, p, inputs[..n]), p, inputs[n]).1.Ran? then before + [inputs[n].tick] else before
  }

  predicate Spaced(ticks: seq<u64>, minimum: u64) {
    forall i :: 0 <= i < |ticks| - 1 ==> ticks[i + 1] >= ticks[i] + minimum
  }

  /** In every run, over any inputs, consecutive runs are the minimum apart, and the
      state remembers the last of them. */
  lemma {:induction false} RunsAreSpaced(s: State, p: Policy, inputs: seq<Input>)
    requires ValidState(s) && ValidPolicy(p)
    ensures Spaced(RunTicks(s, p, inputs), p.minimum)
    ensures RunTicks(s, p, inputs) == [] ==> StateAfter(s, p, inputs).lastRun == s.lastRun
    ensures RunTicks(s, p, inputs) != [] ==>
              StateAfter(s, p, inputs).lastRun == Some(RunTicks(s, p, inputs)[|RunTicks(s, p, inputs)| - 1])
    decreases |inputs|
  {
    hide Evaluate;
    if inputs != [] {
      var n := |inputs| - 1;
      RunsAreSpaced(s, p, inputs[..n]);
      var before := StateAfter(s, p, inputs[..n]);
      if TickOnce(before, p, inputs[n]).1.Ran? { RunsKeepCadence(before, p, inputs[n].evidence, inputs[n].tick); }
    }
  }

  lemma {:induction false} FarApart(ticks: seq<u64>, minimum: u64, i: nat, j: nat)
    requires Spaced(ticks, minimum) && i <= j < |ticks|
    ensures ticks[j] - ticks[i] >= (j - i) * minimum
    decreases j - i
  {
    if i < j {
      FarApart(ticks, minimum, i, j - 1);
      assert (j - i) * minimum == (j - 1 - i) * minimum + minimum;
    }
  }

  /** Runs number `i` and `j` of any whole run are at least `j - i` minimum cadences
      apart; so a window of `window` ticks holds at most `1 + window / minimum` of them. */
  lemma {:induction false} RunsPerWindow(s: State, p: Policy, inputs: seq<Input>, i: nat, j: nat, window: nat)
    requires ValidState(s) && ValidPolicy(p) && i <= j < |RunTicks(s, p, inputs)|
    requires RunTicks(s, p, inputs)[j] - RunTicks(s, p, inputs)[i] <= window
    ensures j - i + 1 <= 1 + window / p.minimum
  {
    var ticks := RunTicks(s, p, inputs);
    RunsAreSpaced(s, p, inputs);
    FarApart(ticks, p.minimum, i, j);
    DivideBound(j - i, p.minimum, window);
  }

  lemma {:induction false} DivideBound(k: nat, minimum: u64, window: nat)
    requires minimum > 0 && k * minimum <= window
    ensures k <= window / minimum
  {
    var q := window / minimum;
    assert window < (q + 1) * minimum;
    if q + 1 <= k { Grows(q + 1, k, minimum); }
  }

  lemma Grows(a: nat, b: nat, m: nat)
    requires a <= b
    ensures a * m <= b * m
  {
  }

  /** A faulted scheduler never runs again. */
  lemma {:induction false} FaultIsFinal(s: State, p: Policy, inputs: seq<Input>)
    requires ValidState(s) && s.lastRun.Some? && s.gate.Faulted?
    ensures RunTicks(s, p, inputs) == []
    ensures var s' := StateAfter(s, p, inputs); s'.lastRun == s.lastRun && s'.gate == s.gate
    decreases |inputs|
  {
    if inputs != [] { FaultIsFinal(s, p, inputs[..|inputs| - 1]); }
  }

  // ---------------------------------------------------------------------------
  // When the next run comes
  // ---------------------------------------------------------------------------

  /** The tick gets past the gate, so the runner is asked. */
  predicate Reaches(s: State, p: Policy, i: Input)
    requires ValidState(s)
  {
    TickOnce(s, p, i).1.Ran? || TickOnce(s, p, i).1.NotRun?
  }

  /** No tick of these gets past the gate. */
  predicate AllHeld(s: State, p: Policy, inputs: seq<Input>)
    requires ValidState(s)
  {
    forall k :: 0 <= k < |inputs| ==> !Reaches(StateAfter(s, p, inputs[..k]), p, inputs[k])
  }

  /** The tick is later than `from` and than every tick before it. */
  predicate Fresh(from: u64, inputs: seq<Input>, tick: u64) {
    tick > from && forall k :: 0 <= k < |inputs| ==> tick > inputs[k].tick
  }

  /** What the last run, which got `ran`, makes the next one wait for: the minimum
      cadence after ordinary work, the longer retries after an idle or a fruitless
      run, changed evidence or the trial retry during a trial, a newer evidence
      window where renewal was recommended, and nothing after a fault. */
  predicate DueAfter(p: Policy, ran: Input, i: Input) {
    && ran.runner.Reports?
    && (ran.runner.stop == NoReadyWork ==> i.tick >= ran.tick + p.idle)
    && (ran.runner.stop == StepLimitReached ==> i.tick >= ran.tick + p.minimum)
    && (ran.runner.stop == TrialBoundaryResolved ==> i.tick >= ran.tick + p.minimum)
    && (ran.runner.stop == SelectedCandidateDidNotProgress ==> i.tick >= ran.tick + p.noProgress)
    && (ran.runner.stop == ActiveTrial ==>
          i.tick >= ran.tick + p.trial || (i.evidence != ran.evidence && i.tick >= ran.tick + p.minimum))
    && (ran.runner.stop.EvidenceRenewalRecommended? ==>
          i.evidence.windowEpoch > ran.evidence.windowEpoch && i.tick >= ran.tick + p.minimum)
    && ran.runner.stop != EnvelopeExceeded
  }

  function Latest(from: u64, inputs: seq<Input>): u64 {
    if inputs == [] then from
    else
      var before, last := Latest(from, inputs[..|inputs| - 1]), inputs[|inputs| - 1].tick;
      if last > before then last else before
  }

  lemma {:induction false} FreshIsLater(from: u64, inputs: seq<Input>, tick: u64)
    ensures Fresh(from, inputs, tick) <==> tick > Latest(from, inputs)
    decreases |inputs|
  {
    if inputs != [] {
      var n := |inputs| - 1;
      FreshIsLater(from, inputs[..n], tick);
      assert forall k :: 0 <= k < n ==> inputs[..n][k] == inputs[k];
    }
  }

  lemma {:induction false} HeldFront(s: State, p: Policy, inputs: seq<Input>)
    requires ValidState(s) && inputs != [] && AllHeld(s, p, inputs)
    ensures AllHeld(s, p, inputs[..|inputs| - 1]) && !Reaches(StateAfter(s, p, inputs[..|inputs| - 1]), p, inputs[|inputs| - 1])
  {
    hide TickOnce, StateAfter;
    var n := |inputs| - 1;
    var front := inputs[..n];
    forall k | 0 <= k < |front| ensures !Reaches(StateAfter(s, p, front[..k]), p, front[k]) {
      assert front[..k] == inputs[..k];
    }
  }

  /** Ticks that are held change nothing but the latest tick seen. */
  lemma {:induction false} HeldState(s: State, p: Policy, inputs: seq<Input>)
    requires ValidState(s) && s.lastObserved.Some? && AllHeld(s, p, inputs)
    ensures StateAfter(s, p, inputs) == s.(lastObserved := Some(Latest(s.lastObserved.value, inputs)))
    decreases |inputs|
  {
    if inputs != [] {
      HeldFront(s, p, inputs);
      HeldState(s, p, inputs[..|inputs| - 1]);
      HeldOnce(StateAfter(s, p, inputs[..|inputs| - 1]), p, inputs[|inputs| - 1]);
    }
  }

  lemma HeldOnce(s: State, p: Policy, i: Input)
    requires ValidState(s) && s.lastObserved.Some? && !Reaches(s, p, i)
    ensures TickOnce(s, p, i).0 == s.(lastObserved := Some(if i.tick > s.lastObserved.value then i.tick else s.lastObserved.value))
  {
  }

  /** Exactly when the next run comes.  After a run on `ran`, and any ticks that were
      held since, a tick gets past the gate if and only if it is later than all of
      them and meets what the run asked for. */
  lemma {:induction false} NextRunIff(s: State, p: Policy, ran: Input, held: seq<Input>, i: Input)
    requires ValidState(s) && ValidPolicy(p) && TickOnce(s, p, ran).1.Ran? && AllHeld(TickOnce(s, p, ran).0, p, held)
    ensures Reaches(StateAfter(TickOnce(s, p, ran).0, p, held), p, i) <==> Fresh(ran.tick, held, i.tick) && DueAfter(p, ran, i)
  {
    hide StateAfter, AllHeld, Fresh;
    var after := TickOnce(s, p, ran).0;
    HeldState(after, p, held);
    FreshIsLater(ran.tick, held, i.tick);
    LatestBounds(ran.tick, held);
  }

  lemma {:induction false} LatestBounds(from: u64, inputs: seq<Input>)
    ensures Latest(from, inputs) >= from
    decreases |inputs|
  {
    if inputs != [] { LatestBounds(from, inputs[..|inputs| - 1]); }
  }

  /** A tick that is due in its place. */
  predicate DueAt(p: Policy, ran: Input, inputs: seq<Input>, k: nat)
    requires k < |inputs|
  {
    Fresh(ran.tick, inputs[..k], inputs[k].tick) && DueAfter(p, ran, inputs[k])
  }

  /** So the first tick that is due gets past the gate, and none before it does. */
  lemma {:induction false} FirstDueRuns(s: State, p: Policy, ran: Input, inputs: seq<Input>, n: nat)
    requires ValidState(s) && ValidPolicy(p) && TickOnce(s, p, ran).1.Ran? && n <= |inputs|
    requires forall k :: 0 <= k < n ==> !DueAt(p, ran, inputs, k)
    ensures AllHeld(TickOnce(s, p, ran).0, p, inputs[..n])
    ensures n < |inputs| && DueAt(p, ran, inputs, n) ==> Reaches(StateAfter(TickOnce(s, p, ran).0, p, inputs[..n]), p, inputs[n])
    decreases n
  {
    hide TickOnce, StateAfter, DueAfter, Fresh;
    var after := TickOnce(s, p, ran).0;
    if n > 0 {
      FirstDueRuns(s, p, ran, inputs, n - 1);
      NextRunIff(s, p, ran, inputs[..n - 1], inputs[n - 1]);
      assert !DueAt(p, ran, inputs, n - 1);
      HeldMore(after, p, inputs, n - 1);
    }
    if n < |inputs| { NextRunIff(s, p, ran, inputs[..n], inputs[n]); }
  }

  lemma {:induction false} HeldMore(s: State, p: Policy, inputs: seq<Input>, n: nat)
    requires ValidState(s) && n < |inputs| && AllHeld(s, p, inputs[..n]) && !Reaches(StateAfter(s, p, inputs[..n]), p, inputs[n])
    ensures AllHeld(s, p, inputs[..n + 1])
  {
    hide TickOnce, StateAfter;
    var more := inputs[..n + 1];
    forall k | 0 <= k < |more| ensures !Reaches(StateAfter(s, p, more[..k]), p, more[k]) {
      assert more[..k] == inputs[..k];
      if k < n { assert inputs[..n][..k] == inputs[..k] && inputs[..n][k] == inputs[k]; }
    }
  }

  /** A scheduler that has not faulted is never held forever: past the longest retry,
      any new tick (with a newer window, if renewal was recommended) gets past the gate. */
  lemma {:induction false} NeverHeldForever(s: State, p: Policy, ran: Input, held: seq<Input>, i: Input)
    requires ValidState(s) && ValidPolicy(p) && TickOnce(s, p, ran).1.Ran? && AllHeld(TickOnce(s, p, ran).0, p, held)
    requires ran.runner.Reports? && ran.runner.stop != EnvelopeExceeded && Fresh(ran.tick, held, i.tick)
    requires i.tick >= ran.tick + p.idle && i.tick >= ran.tick + p.noProgress && i.tick >= ran.tick + p.trial
    requires ran.runner.stop.EvidenceRenewalRecommended? ==> i.evidence.windowEpoch > ran.evidence.windowEpoch
    ensures Reaches(StateAfter(TickOnce(s, p, ran).0, p, held), p, i)
  {
    hide TickOnce, StateAfter, AllHeld, Fresh;
    NextRunIff(s, p, ran, held, i);
  }

  /** Until something has run, every tick gets past the gate. */
  lemma {:induction false} FirstRun(p: Policy, inputs: seq<Input>, i: Input)
    requires RunTicks(INITIAL, p, inputs) == []
    ensures StateAfter(INITIAL, p, inputs) == INITIAL && Reaches(INITIAL, p, i)
    decreases |inputs|
  {
    if inputs != [] { FirstRun(p, inputs[..|inputs| - 1], i); }
  }

  /** What a hold says is so: it names the last run and a delay that has not passed,
      and once it has passed a new tick on the same evidence runs. */
  lemma {:induction false} HoldIsExact(s: State, p: Policy, evidence: Evidence, tick: u64, later: u64)
    requires ValidState(s) && ValidPolicy(p) && s.lastRun.Some? && Evaluate(s, p, evidence, tick).Ok? && Evaluate(s, p, evidence, tick).value.Held?
    requires later > s.lastObserved.value
    ensures match Evaluate(s, p, evidence, tick).value.reason
            case DuplicateTick => s.lastObserved == Some(tick)
            case MinimumCadence(last, required) => DelayIs(s, p, evidence, tick, later, last, required) && required == p.minimum
            case IdleBackoff(last, required) => DelayIs(s, p, evidence, tick, later, last, required) && required == p.idle
            case NoProgressBackoff(last, required) => DelayIs(s, p, evidence, tick, later, last, required) && required == p.noProgress
            case AwaitingTrialEvidenceOrRetry(last, retry, waited) =>
              DelayIs(s, p, evidence, tick, later, last, retry) && retry == p.trial && waited == evidence
            case AwaitingRenewal(blocked, observed, _) => observed == evidence.windowEpoch <= blocked
            case HeldByFault(fault) => s.gate == Faulted(fault)
  {
  }

  predicate DelayIs(s: State, p: Policy, evidence: Evidence, tick: u64, later: u64, last: u64, required: u64)
    requires ValidState(s)
  {
    s.lastRun == Some(last) && tick < last + required && (later >= last + required ==> Evaluate(s, p, evidence, later) == Ok(WouldRunNow))
  }

  /** What the tick after a run, and any ticks held since, is told if it is not due: by the
      run's own tick, evidence, recommendation or fault. */
  function HoldAfter(p: Policy, ran: Input, i: Input): HoldReason {
    if ran.runner.Fails? then HeldByFault(ran.runner.fault)
    else if !ran.runner.Reports? then DuplicateTick
    else
      match ran.runner.stop
      case NoReadyWork => IdleBackoff(ran.tick, p.idle)
      case SelectedCandidateDidNotProgress => NoProgressBackoff(ran.tick, p.noProgress)
      case StepLimitReached => MinimumCadence(ran.tick, p.minimum)
      case TrialBoundaryResolved => MinimumCadence(ran.tick, p.minimum)
      case ActiveTrial =>
        if i.evidence == ran.evidence then AwaitingTrialEvidenceOrRetry(ran.tick, p.trial, ran.evidence)
        else MinimumCadence(ran.tick, p.minimum)
      case EvidenceRenewalRecommended(recommendation) =>
        if i.evidence.windowEpoch <= ran.evidence.windowEpoch then
          AwaitingRenewal(ran.evidence.windowEpoch, i.evidence.windowEpoch, recommendation)
        else MinimumCadence(ran.tick, p.minimum)
      case EnvelopeExceeded => HeldByFault(MaintenanceEnvelopeExceeded)
  }

  /** Over runs: after a run on `ran` and any ticks held since, a new tick that is not due
      is held for exactly that; the latest tick again is a duplicate, an older one is
      turned away by the latest. */
  lemma {:induction false} HeldAfterRun(s: State, p: Policy, ran: Input, held: seq<Input>, i: Input)
    requires ValidState(s) && ValidPolicy(p) && TickOnce(s, p, ran).1.Ran? && AllHeld(TickOnce(s, p, ran).0, p, held)
    ensures var o, latest := TickOnce(StateAfter(TickOnce(s, p, ran).0, p, held), p, i).1, Latest(ran.tick, held);
            && (i.tick > latest && !DueAfter(p, ran, i) ==> o == HeldBack(HoldAfter(p, ran, i)))
            && (i.tick == latest ==> o == HeldBack(DuplicateTick))
            && (i.tick < latest ==> o == Rejected(OutOfOrderTick(latest, i.tick)))
  {
    hide StateAfter, AllHeld;
    HeldState(TickOnce(s, p, ran).0, p, held);
    LatestBounds(ran.tick, held);
  }

  /** A run is recorded under its tick; a runner that refuses, a hold and a rejection leave
      the last run and the gate as they were. */
  lemma {:induction false} OnlyRunsAreRecorded(s: State, p: Policy, i: Input)
    requires ValidState(s)
    ensures var (s', o) := TickOnce(s, p, i);
            && (o.Ran? ==> s'.lastRun == s'.lastObserved == Some(i.tick))
            && (!o.Ran? ==> s'.lastRun == s.lastRun && s'.gate == s.gate)
            && (o.NotRun? || o.Rejected? ==> s' == s)
            && (o.Ran? <==> Reaches(s, p, i) && !i.runner.Refuses?)
            && (o.NotRun? <==> Reaches(s, p, i) && i.runner.Refuses?)
  {
  }

  /** A tick is turned away only for being older than one already seen. */
  lemma RejectedIff(s: State, p: Policy, i: Input)
    requires ValidState(s)
    ensures TickOnce(s, p, i).1.Rejected? <==> s.lastObserved.Some? && i.tick < s.lastObserved.value
    ensures TickOnce(s, p, i).1.Rejected? ==> TickOnce(s, p, i) == (s, Rejected(OutOfOrderTick(s.lastObserved.value, i.tick)))
  {
  }
}
