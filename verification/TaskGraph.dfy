/**
 The pipeline engine as an object: `run`, the retry loop of a node, and the operator controls, each
 updating its fields.  The events it goes through are those of the state machine.
 */
module TaskGraph {
  import opened Text
  import opened RunMachine
  import opened RunSafety

  const RETRY_JITTER := 0.3

  function Power(base: real, k: nat): real {
    if k == 0 then 1.0 else base * Power(base, k - 1)
  }

  /** What a run meets besides its operators: attempts, error callback and budget. */
  datatype World = World(maxRetries: int, outcome: Node -> nat -> Option<string>, waves: Node -> bool,
                         overBudget: nat -> bool)

  /** The event says what the world said. */
  ghost predicate Says(w: World, nodes: seq<Node>, e: Engine, ev: Event)
    requires Can(nodes, e, ev)
  {
    match ev
    case BudgetChecked(over) => over == w.overBudget(e.stage.i)
    case Ended(success, waved) =>
      var node := nodes[e.stage.i];
      (success <==> RetrySucceeds(w.outcome(node), w.maxRetries)) && waved == w.waves(node)
    case _ => true
  }

  /** All events do: a node ends as its retry rule says, the budget check as the budget is. */
  ghost predicate Honest(w: World, nodes: seq<Node>, e: Engine, evs: seq<Event>)
    requires Happens(nodes, e, evs)
    decreases |evs|
  {
    evs == [] || (Says(w, nodes, e, evs[0]) && Honest(w, nodes, Next(nodes, e, evs[0]), evs[1..]))
  }

  lemma {:induction false} HonestJoin(w: World, nodes: seq<Node>, e: Engine, a: seq<Event>, ev: Event)
    requires Happens(nodes, e, a) && Happens(nodes, e, a + [ev]) && Can(nodes, After(nodes, e, a), ev)
    requires Honest(w, nodes, e, a) && Says(w, nodes, After(nodes, e, a), ev)
    ensures Honest(w, nodes, e, a + [ev])
    decreases |a|
  {
    hide Says, Can, Next;
    if a == [] {
      assert a + [ev] == [ev] && [ev][1..] == [];
      assert Honest(w, nodes, Next(nodes, e, ev), []);
    } else {
      assert (a + [ev])[1..] == a[1..] + [ev] && (a + [ev])[0] == a[0];
      HonestJoin(w, nodes, Next(nodes, e, a[0]), a[1..], ev);
    }
  }

  lemma HonestNone(w: World, nodes: seq<Node>, e: Engine)
    ensures Happens(nodes, e, []) && Honest(w, nodes, e, [])
  {
  }

  function Min(a: real, b: real): real {
    if a <= b then a else b
  }

  function Abs(a: real): real {
    if a < 0.0 then -a else a
  }

  /**
   The outcomes of a node's attempts in order: None for success, else the signature of the error.
   The node succeeds exactly when some attempt within `maxRetries + 1` does and no two failures
   before it have the same signature.
   */
  ghost predicate RetrySucceeds(outcome: nat -> Option<string>, maxRetries: int) {
    exists k: nat :: k <= maxRetries && SucceedsAt(outcome, k)
  }

  ghost predicate SucceedsAt(outcome: nat -> Option<string>, k: nat) {
    outcome(k).None? && DistinctFailures(outcome, k)
  }

  /** The attempt after `n` different failures fails too, with a signature seen before or as the last one allowed. */
  ghost predicate GivesUpAt(outcome: nat -> Option<string>, maxRetries: int, n: nat) {
    DistinctFailures(outcome, n) && outcome(n).Some? && (n == maxRetries || SeenBefore(outcome, n, outcome(n).value))
  }

  /** The first `n` attempts fail, each with another signature. */
  ghost predicate DistinctFailures(outcome: nat -> Option<string>, n: nat) {
    (forall i: nat :: i < n ==> outcome(i).Some?) &&
    (forall i: nat, j: nat :: i < j < n ==> outcome(i) != outcome(j))
  }

  /** `seen` holds the signatures of the first `n` attempts, all failures and all different. */
  ghost predicate Tracks(seen: set<string>, outcome: nat -> Option<string>, n: nat) {
    DistinctFailures(outcome, n) && forall s :: s in seen <==> SeenBefore(outcome, n, s)
  }

  ghost predicate SeenBefore(outcome: nat -> Option<string>, n: nat, s: string) {
    exists i: nat :: i < n && outcome(i) == Some(s)
  }

  lemma TracksNone(outcome: nat -> Option<string>)
    ensures Tracks({}, outcome, 0)
  {
    assert forall s :: !SeenBefore(outcome, 0, s);
  }

  lemma TrackOne(seen: set<string>, outcome: nat -> Option<string>, n: nat)
    requires Tracks(seen, outcome, n) && outcome(n).Some? && outcome(n).value !in seen
    ensures Tracks(seen + {outcome(n).value}, outcome, n + 1)
  {
    var s := outcome(n).value;
    assert !SeenBefore(outcome, n, s);
    assert DistinctFailures(outcome, n + 1);
    forall x
      ensures SeenBefore(outcome, n + 1, x) <==> SeenBefore(outcome, n, x) || x == s
    {
      assert SeenBefore(outcome, n, x) ==> SeenBefore(outcome, n + 1, x);
    }
  }

  lemma SuccessCounts(seen: set<string>, outcome: nat -> Option<string>, n: nat, maxRetries: int)
    requires Tracks(seen, outcome, n) && outcome(n).None? && n <= maxRetries
    ensures RetrySucceeds(outcome, maxRetries)
  {
    assert SucceedsAt(outcome, n);
  }

  /** A repeated signature is final: no later attempt could make the node succeed. */
  lemma RepeatIsFinal(seen: set<string>, outcome: nat -> Option<string>, n: nat, maxRetries: int)
    requires Tracks(seen, outcome, n) && outcome(n).Some? && outcome(n).value in seen
    ensures !RetrySucceeds(outcome, maxRetries)
  {
    assert SeenBefore(outcome, n, outcome(n).value);
    var i: nat :| i < n && outcome(i) == outcome(n);
    forall k: nat
      ensures !SucceedsAt(outcome, k)
    {
      if k > n {
        assert !DistinctFailures(outcome, k);
      }
    }
  }

  /** So is running out of attempts. */
  lemma ExhaustedIsFinal(seen: set<string>, outcome: nat -> Option<string>, n: nat, maxRetries: int)
    requires Tracks(seen, outcome, n) && n > maxRetries
    ensures !RetrySucceeds(outcome, maxRetries)
  {
    assert forall k: nat :: k <= maxRetries ==> outcome(k).Some?;
  }

  lemma NoEvents(nodes: seq<Node>, e: Engine)
    ensures Happens(nodes, e, []) && After(nodes, e, []) == e
  {
  }

  // ---------------------------------------------------------------- merged runs and the retry rule

  ghost predicate ByRule(w: World, passed: seq<Passed>) {
    forall p :: p in passed ==> (p.succeeded <==> RetrySucceeds(w.outcome(p.node), w.maxRetries))
  }

  lemma RuleStep(w: World, nodes: seq<Node>, e: Engine, ev: Event)
    requires Can(nodes, e, ev) && Says(w, nodes, e, ev) && ByRule(w, e.passed)
    ensures ByRule(w, Next(nodes, e, ev).passed)
    ensures (forall node :: !w.waves(node)) ==> ev != Ended(false, true)
  {
    hide RetrySucceeds, NodeStatus, FinalStatus;
  }

  lemma {:induction false} RuleRun(w: World, nodes: seq<Node>, e: Engine, evs: seq<Event>)
    requires Happens(nodes, e, evs) && Honest(w, nodes, e, evs) && ByRule(w, e.passed)
    ensures ByRule(w, After(nodes, e, evs).passed)
    ensures (forall node :: !w.waves(node)) ==> Ended(false, true) !in evs
    decreases |evs|
  {
    hide ByRule, Can, Next, Says;
    if evs != [] {
      RuleStep(w, nodes, e, evs[0]);
      RuleRun(w, nodes, Next(nodes, e, evs[0]), evs[1..]);
    }
  }

  /**
   A merged run went through all its nodes, and each that counts as succeeded did so by the retry rule; without an error
   callback that waves failures on, all of them did.
   */
  lemma MergedByRule(w: World, nodes: seq<Node>, start: Engine, evs: seq<Event>)
    requires IsRun(nodes, start, evs) && Happens(nodes, start, evs) && Honest(w, nodes, start, evs)
    requires Outcome(nodes, start, evs) == Merged
    ensures var passed := Deciding(nodes, start, evs).passed;
            |passed| == |nodes| &&
            (forall k :: 0 <= k < |nodes| ==>
              passed[k].node == nodes[k] &&
              (passed[k].succeeded <==> RetrySucceeds(w.outcome(nodes[k]), w.maxRetries))) &&
            ((forall node :: !w.waves(node)) ==> forall k :: 0 <= k < |nodes| ==> passed[k].succeeded)
  {
    hide MayMerge, GateOpen, FinalStatus, RetrySucceeds, IsRun, Honest;
    MergedRunIsSafe(nodes, start, evs);
    StartsEmpty(nodes, start, evs);
    RuleRun(w, nodes, start, evs);
    if forall node :: !w.waves(node) {
      MergedRunSucceeded(nodes, start, evs);
    }
  }

  lemma StartsEmpty(nodes: seq<Node>, start: Engine, evs: seq<Event>)
    requires IsRun(nodes, start, evs)
    ensures start.passed == [] && Happens(nodes, start, evs) && Deciding(nodes, start, evs) == After(nodes, start, evs)
  {
    RunSplits(nodes, start, evs);
  }

  class TaskGraph {
    const maxRetries: int
    const retryBase: real
    const retryFactor: real
    const retryMax: real

    // What the run meets: the outcome of each attempt of a node, random numbers in [0, 1), the error
    // callback's answer for a node, and whether the budget is exceeded before the i-th node.
    const outcome: Node -> nat -> Option<string>
    const random: nat -> real
    const waves: Node -> bool
    const overBudget: nat -> bool

    var isPaused: bool
    var isCancelled: bool
    var stepMode: bool
    var runStatus: RunStatus
    var shared: Shared
    var nodes: seq<Node>
    var stage: Stage

    ghost var start: Engine
    ghost var events: seq<Event>
    ghost var passed: seq<Passed>

    ghost function State(): Engine
      reads this
    {
      Engine(isPaused, isCancelled, stepMode, runStatus, shared, stage, passed)
    }

    /** The fields are where the events of this run have led. */
    ghost predicate Valid()
      reads this
    {
      start == Begin(start.paused, start.cancelled, start.stepMode, start.shared) &&
      Happens(nodes, start, events) && After(nodes, start, events) == State() && Honest(Meets(), nodes, start, events)
    }

    function Meets(): World {
      World(maxRetries, outcome, waves, overBudget)
    }

    static ghost predicate Undecided(events: seq<Event>) {
      forall ev :: ev in events ==> !ev.Decided?
    }

    constructor (maxRetries: int, retryBase: real, retryFactor: real, retryMax: real,
                 outcome: Node -> nat -> Option<string>, random: nat -> real, waves: Node -> bool,
                 overBudget: nat -> bool, shared: Shared)
      ensures !isPaused && !isCancelled && !stepMode && runStatus == Queued && this.shared == shared
      ensures this.maxRetries == maxRetries && this.retryBase == retryBase && this.retryFactor == retryFactor
        && this.retryMax == retryMax && this.outcome == outcome && this.random == random && this.waves == waves
        && this.overBudget == overBudget
    {
      this.maxRetries, this.retryBase, this.retryFactor, this.retryMax := maxRetries, retryBase, retryFactor, retryMax;
      this.outcome, this.random, this.waves, this.overBudget := outcome, random, waves, overBudget;
      isPaused, isCancelled, stepMode, runStatus := false, false, false, Queued;
      this.shared := shared;
      nodes, stage, passed, events := [], Head(0), [], [];
      start := Begin(false, false, false, shared);
    }

    // -------------------------------------------------------------- operator controls

    method Pause()
      requires Valid() && AtAwait(State())
      modifies this
      ensures Valid() && State() == Operate(old(State()), Control.Pause)
      ensures isPaused && isCancelled == old(isCancelled) && stepMode == old(stepMode) && runStatus == old(runStatus)
      ensures events == old(events) + [Controlled(Control.Pause)] && nodes == old(nodes) && start == old(start)
    {
      ghost var before := State();
      isPaused := true;
      Log(Controlled(Control.Pause), before);
    }

    method Resume()
      requires Valid() && AtAwait(State())
      modifies this
      ensures Valid() && State() == Operate(old(State()), Control.Resume)
      ensures !isPaused && !stepMode && isCancelled == old(isCancelled) && runStatus == old(runStatus)
      ensures events == old(events) + [Controlled(Control.Resume)] && nodes == old(nodes) && start == old(start)
    {
      ghost var before := State();
      isPaused := false;
      stepMode := false;
      Log(Controlled(Control.Resume), before);
    }

    method StepOver()
      requires Valid() && AtAwait(State())
      modifies this
      ensures Valid() && State() == Operate(old(State()), Control.StepOver)
      ensures !isPaused && stepMode && isCancelled == old(isCancelled) && runStatus == old(runStatus)
      ensures events == old(events) + [Controlled(Control.StepOver)] && nodes == old(nodes) && start == old(start)
    {
      ghost var before := State();
      isPaused := false;
      stepMode := true;
      Log(Controlled(Control.StepOver), before);
    }

    method Cancel()
      requires Valid() && AtAwait(State())
      modifies this
      ensures Valid() && State() == Operate(old(State()), Control.Cancel)
      ensures isCancelled && !isPaused && stepMode == old(stepMode) && runStatus == old(runStatus)
      ensures events == old(events) + [Controlled(Control.Cancel)] && nodes == old(nodes) && start == old(start)
    {
      ghost var before := State();
      isCancelled := true;
      isPaused := false;
      Log(Controlled(Control.Cancel), before);
    }

    method Rollback()
      requires Valid() && AtAwait(State())
      modifies this
      ensures Valid() && State() == Operate(old(State()), Control.Rollback)
      ensures runStatus == RolledBack && isPaused == old(isPaused) && isCancelled == old(isCancelled) && stepMode == old(stepMode)
      ensures events == old(events) + [Controlled(Control.Rollback)] && nodes == old(nodes) && start == old(start)
    {
      ghost var before := State();
      runStatus := RolledBack;
      Log(Controlled(Control.Rollback), before);
    }

    /** Records event `ev`, which led from `before` to the present fields. */
    ghost method Log(ev: Event, before: Engine)
      requires Happens(nodes, start, events) && After(nodes, start, events) == before
      requires start == Begin(start.paused, start.cancelled, start.stepMode, start.shared)
      requires Can(nodes, before, ev) && Next(nodes, before, ev) == State()
      requires Honest(Meets(), nodes, start, events) && Says(Meets(), nodes, before, ev)
      modifies this`events
      ensures Valid() && events == old(events) + [ev]
    {
      HappensJoin(nodes, start, events, [ev]);
      OneEvent(nodes, before, ev);
      hide Can, Next, Happens, After, Honest, Says;
      HonestJoin(Meets(), nodes, start, events, ev);
      events := events + [ev];
    }

    /** An await: any number of operator controls and changes of the shared data happen. */
    method Await()
      requires Valid() && AtAwait(State())
      modifies this
      ensures Valid() && stage == old(stage) && passed == old(passed) && nodes == old(nodes) && start == old(start)
      ensures Undecided(old(events)) ==> Undecided(events)
    {
    }

    // -------------------------------------------------------------- one node

    function Capped(attempt: nat): real {
      Min(Exponential(retryBase, retryFactor, attempt), retryMax)
    }

    static function Exponential(base: real, factor: real, k: nat): real {
      base * Power(factor, k)
    }

    static predicate Near(delay: real, capped: real) {
      Abs(delay - capped) <= RETRY_JITTER * Abs(capped)
    }

    static function Jittered(capped: real, r: real): (delay: real)
      requires 0.0 <= r <= 1.0
      ensures Near(delay, capped)
    {
      var x := r * 2.0 - 1.0;
      JitterBound(capped, x);
      capped + capped * RETRY_JITTER * x
    }

    /** `_compute_backoff`: within thirty percent of the capped exponential delay. */
    function ComputeBackoff(attempt: nat, r: real): (delay: real)
      requires 0.0 <= r <= 1.0
      ensures Near(delay, Capped(attempt))
    {
      Jittered(Capped(attempt), r)
    }

    /** The delay for the middle of the random range is the capped one; the ends are thirty percent away. */
    lemma JitterSpans(attempt: nat)
      ensures ComputeBackoff(attempt, 0.5) == Capped(attempt)
      ensures ComputeBackoff(attempt, 0.0) == Capped(attempt) * 0.7 && ComputeBackoff(attempt, 1.0) == Capped(attempt) * 1.3
    {
    }

    /** No delay is negative or above 1.3 times the configured maximum. */
    lemma BackoffBounded(attempt: nat, r: real)
      requires 0.0 <= retryBase && 0.0 <= retryFactor && 0.0 <= retryMax && 0.0 <= r <= 1.0
      ensures 0.0 <= Capped(attempt) <= retryMax
      ensures 0.0 <= ComputeBackoff(attempt, r) <= 1.3 * retryMax
    {
      ExponentialFacts(retryBase, retryFactor, attempt);
      hide Exponential;
    }

    /**
     The first delay is the base, and each next one is `retryFactor` times as long, until the maximum is reached, where
     it stays.
     */
    lemma BackoffGrows(attempt: nat)
      requires 0.0 <= retryBase && 1.0 <= retryFactor && 0.0 <= retryMax
      ensures Capped(0) == if retryBase <= retryMax then retryBase else retryMax
      ensures GrowsTo(Capped(attempt), Capped(attempt + 1), retryFactor, retryMax)
    {
      ExponentialFacts(retryBase, retryFactor, attempt);
      hide Exponential, GrowsTo;
      MinGrows(Exponential(retryBase, retryFactor, attempt), Exponential(retryBase, retryFactor, attempt + 1), retryFactor, retryMax);
    }

    static predicate GrowsTo(now: real, next: real, factor: real, max: real) {
      next == (if factor * now <= max then factor * now else max) && now <= next
    }

    static lemma MinGrows(x: real, y: real, factor: real, max: real)
      requires 0.0 <= x && y == factor * x && 1.0 <= factor && 0.0 <= max
      ensures GrowsTo(Min(x, max), Min(y, max), factor, max)
    {
      Grown(factor, x);
      Grown(factor, max);
    }

    static lemma ExponentialFacts(base: real, factor: real, k: nat)
      requires 0.0 <= base && 0.0 <= factor
      ensures 0.0 <= Exponential(base, factor, k) && Exponential(base, factor, 0) == base
      ensures Exponential(base, factor, k + 1) == factor * Exponential(base, factor, k)
    {
      PowerPositive(factor, k);
      NonNegativeProduct(base, Power(factor, k));
      Swap(base, factor, Power(factor, k));
    }

    static lemma Swap(a: real, b: real, c: real)
      ensures a * (b * c) == b * (a * c)
    {
    }

    static lemma NonNegativeProduct(a: real, b: real)
      requires 0.0 <= a && 0.0 <= b
      ensures 0.0 <= a * b
    {
    }

    static lemma Grown(factor: real, x: real)
      requires 1.0 <= factor && 0.0 <= x
      ensures x <= factor * x
    {
      NonNegativeProduct(factor - 1.0, x);
    }

    static lemma {:induction false} PowerPositive(base: real, k: nat)
      requires 0.0 <= base
      ensures 0.0 <= Power(base, k)
    {
      if k > 0 {
        PowerPositive(base, k - 1);
        NonNegativeProduct(base, Power(base, k - 1));
      }
    }

    static lemma Scaled(a: real, x: real)
      requires a >= 0.0 && -1.0 <= x <= 1.0
      ensures -a <= a * x <= a
    {
      assert a * (1.0 - x) >= 0.0 && a * (1.0 + x) >= 0.0;
    }

    static lemma JitterBound(c: real, x: real)
      requires -1.0 <= x <= 1.0
      ensures Abs(c * RETRY_JITTER * x) <= RETRY_JITTER * Abs(c)
    {
      var d := c * RETRY_JITTER;
      Scaled(Abs(d), x);
      assert d * x == if d < 0.0 then -(Abs(d) * x) else Abs(d) * x;
    }

    method ExecuteNodeWithRetry(node: Node) returns (success: bool, delays: seq<real>)
      requires Valid() && stage.InNode? && forall k :: 0.0 <= random(k) <= 1.0
      modifies this
      ensures Valid() && stage == old(stage) && passed == old(passed) && nodes == old(nodes) && start == old(start)
      ensures Undecided(old(events)) ==> Undecided(events)
      ensures success <==> RetrySucceeds(outcome(node), maxRetries)
      ensures |delays| <= if maxRetries < 0 then 0 else maxRetries
      ensures success ==> SucceedsAt(outcome(node), |delays|)
      ensures !success && maxRetries >= 0 ==> GivesUpAt(outcome(node), maxRetries, |delays|)
      ensures forall k :: 0 <= k < |delays| ==> Near(delays[k], Capped(k))
    {
      hide Happens, After, RetrySucceeds, DistinctFailures, Capped, Near;
      var previousErrors: set<string> := {};
      assert Tracks({}, outcome(node), 0) by {
        TracksNone(outcome(node));
      }
      delays := [];
      var attempt := 0;
      while attempt < maxRetries + 1
        invariant Valid() && stage == old(stage) && passed == old(passed) && nodes == old(nodes) && start == old(start)
        invariant Undecided(old(events)) ==> Undecided(events)
        invariant 0 <= attempt && (attempt > 0 ==> attempt <= maxRetries)
        invariant Tracks(previousErrors, outcome(node), attempt)
        invariant |delays| == attempt && forall k :: 0 <= k < |delays| ==> Near(delays[k], Capped(k))
      {
        Await();
        var failure := outcome(node)(attempt);
        if failure.None? {
          SuccessCounts(previousErrors, outcome(node), attempt, maxRetries);
          return true, delays;
        }
        if failure.value in previousErrors && attempt > 0 {
          RepeatIsFinal(previousErrors, outcome(node), attempt, maxRetries);
          return false, delays;
        }
        assert failure.value !in previousErrors by {
          if attempt == 0 {
            assert !SeenBefore(outcome(node), 0, failure.value);
          }
        }
        TrackOne(previousErrors, outcome(node), attempt);
        previousErrors := previousErrors + {failure.value};
        if attempt >= maxRetries {
          ExhaustedIsFinal(previousErrors, outcome(node), attempt + 1, maxRetries);
          return false, delays;
        }
        delays := delays + [ComputeBackoff(attempt, random(attempt))];
        Await();
        attempt := attempt + 1;
      }
      ExhaustedIsFinal(previousErrors, outcome(node), attempt, maxRetries);
      return false, delays;
    }

    // -------------------------------------------------------------- the run

    /** The gates after a node and the error callback; says whether the loop goes on. */
    method PassGate(nodeName: Node, success: bool) returns (goOn: bool)
      requires stage.InNode?
      modifies this`runStatus, this`shared, this`isPaused, this`stage
      ensures State() == Gate(nodeName, old(State()), success, waves(nodeName))
      ensures stage == if goOn then old(stage) else Leaving
    {
      if success && nodeName.OnboardingNode? && (!shared.repoMap || !shared.onboardingSummary) {
        runStatus := FailedRun;
        stage := Leaving;
        return false;
      }
      if success && nodeName.ReproductionNode? {
        if !shared.reproductionTest || shared.evidence.NoEvidence? {
          runStatus := FailedRun;
          stage := Leaving;
          return false;
        }
        if shared.evidence.status != Some("reproduced") {
          runStatus := FailedRun;
          stage := Leaving;
          return false;
        }
      }
      if success && nodeName.PatcherNode? {
        if !shared.gatewayAllowed {
          runStatus := SecurityHold;
          shared := shared.(verificationDecision := Some("security_hold"));
          stage := Leaving;
          return false;
        }
        if ApprovalRequired(shared) && !shared.patchApproved {
          runStatus := PendingApproval;
          isPaused := true;
          stage := Leaving;
          return false;
        }
      }
      if !success {
        runStatus := FailedRun;
        if !waves(nodeName) {
          stage := Leaving;
          return false;
        }
      }
      return true;
    }

    /** What follows a node: its gate, and the pause that a step-over asked for. */
    method FinishNode(nodeName: Node, success: bool) returns (goOn: bool)
      requires Valid() && stage.InNode? && stage.i < |nodes| && nodes[stage.i] == nodeName && Undecided(events)
      requires success <==> RetrySucceeds(outcome(nodeName), maxRetries)
      modifies this
      ensures Valid() && nodes == old(nodes) && start == old(start) && Undecided(events)
      ensures stage == if goOn then Head(old(stage).i + 1) else Leaving
    {
      hide Happens, After;
      ghost var before := State();
      goOn := PassGate(nodeName, success);
      hide Gate, Begin;
      if goOn {
        passed := passed + [Passed(nodeName, success, shared)];
        if stepMode {
          isPaused := true;
          stepMode := false;
        }
        stage := Head(stage.i + 1);
      }
      Log(Ended(success, waves(nodeName)), before);
    }

    /** The merge decision and the final status. */
    method FinalLadder()
      modifies this`runStatus
      ensures runStatus == FinalStatus(old(State()))
    {
      if runStatus == PendingApproval {
        return;
      }
      var d := ComputeMergeDecision(shared.verificationPassed, Confidence(shared), Threshold(shared),
                                    shared.verificationDecision, shared.conflictDetected);
      hide ComputeMergeDecision;
      if runStatus == FailedRun || runStatus == RolledBack || runStatus == Cancelled {
      } else if isCancelled {
        runStatus := Cancelled;
      } else if shared.budgetExceeded {
        runStatus := FailedRun;
      } else if d.securityHold {
        runStatus := SecurityHold;
      } else if d.conflictDetected {
        runStatus := ConflictResolution;
      } else if !shared.verificationPassed
          || (shared.verificationDecision.Some? && StartsWith(shared.verificationDecision.value, "reject_")) {
        runStatus := FailedRun;
      } else if d.autoMerge {
        runStatus := Merged;
      } else if d.needsHumanReview {
        runStatus := EvidenceReview;
      } else {
        runStatus := FailedRun;
      }
    }

    method Decide()
      requires Valid() && Can(nodes, State(), Event.Decided) && Undecided(events)
      modifies this
      ensures Valid() && stage == Over && nodes == old(nodes) && start == old(start)
      ensures events == old(events) + [Event.Decided] && IsRun(nodes, start, old(events))
      ensures runStatus == Outcome(nodes, start, old(events))
    {
      hide Happens, After, FinalStatus;
      ghost var before := State();
      FinalLadder();
      stage := Over;
      Log(Event.Decided, before);
    }

    /** The head of the loop: budget, cancellation, pause, then the node's status.  Says whether the node has started. */
    method ReachNode(i: nat, polls: nat) returns (started: bool, left: nat)
      requires Valid() && stage == Head(i) && i < |nodes| && Undecided(events)
      modifies this
      ensures Valid() && nodes == old(nodes) && start == old(start) && Undecided(events)
      ensures if started then stage == InNode(i) && !isPaused && !isCancelled && !overBudget(i)
              else if stage.Leaving? then overBudget(i) || isCancelled
              else stage == Waiting(i) && isPaused
    {
      hide Happens, After;
      left := polls;
      ghost var before := State();
      if overBudget(i) {
        runStatus := FailedRun;
        shared := shared.(budgetExceeded := true);
        stage := Leaving;
        Log(BudgetChecked(true), before);
        return false, left;
      }
      stage := Waiting(i);
      Log(BudgetChecked(false), before);
      while isPaused && !isCancelled && left > 0
        invariant nodes == old(nodes) && start == old(start) && Valid() && stage == Waiting(i) && Undecided(events)
        decreases left
      {
        Await();
        left := left - 1;
      }
      before := State();
      if isCancelled {
        stage := Leaving;
        Log(Halted, before);
        return false, left;
      }
      if isPaused {
        return false, left;
      }
      var newStatus := NodeStatus(nodes[i]);
      if newStatus.Some? {
        runStatus := newStatus.value;
      }
      stage := InNode(i);
      Log(Started, before);
      return true, left;
    }

    /**
     `run`.  `polls` bounds how often a paused run looks again before the call is given up on; such a
     call returns while still waiting.  Otherwise the run has decided, and its events are those of a
     run of the state machine.
     */
    method Run(resumeFrom: Option<Node>, polls: nat)
      requires forall k :: 0.0 <= random(k) <= 1.0
      modifies this
      ensures Valid() && nodes == Sequence(resumeFrom) && (stage.Over? || (stage.Waiting? && isPaused))
      ensures start == Begin(old(isPaused), old(isCancelled), old(stepMode), old(shared))
      ensures stage.Over? ==> exists evs :: IsRun(nodes, start, evs) && events == evs + [Event.Decided]
                                            && runStatus == Outcome(nodes, start, evs)
    {
      hide Happens, After, Honest, RetrySucceeds, Near, IsRun, Outcome, Can, Sequence;
      runStatus := Queued;
      nodes, stage, passed, events := Sequence(resumeFrom), Head(0), [], [];
      start := State();
      NoEvents(nodes, start);
      HonestNone(Meets(), nodes, start);
      var left, i := polls, 0;
      while i < |nodes|
        invariant nodes == Sequence(resumeFrom) && i <= |nodes| && Valid() && stage == Head(i) && Undecided(events)
        invariant start == Begin(old(isPaused), old(isCancelled), old(stepMode), old(shared))
      {
        var started;
        started, left := ReachNode(i, left);
        if !started {
          if stage.Waiting? {
            return;
          }
          break;
        }
        var nodeName := nodes[i];
        var success, delays := ExecuteNodeWithRetry(nodeName);
        var goOn := FinishNode(nodeName, success);
        if !goOn {
          break;
        }
        i := i + 1;
      }
      CanDecide();
      Decide();
    }

    lemma CanDecide()
      requires stage.Leaving? || (stage.Head? && stage.i >= |nodes|)
      ensures Can(nodes, State(), Event.Decided)
    {
    }
  }
}
