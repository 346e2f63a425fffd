/**
 The pipeline engine as a state machine: nodes run one after another behind gates while an operator
 pauses, resumes, steps, cancels or rolls back, and the final status is computed from a merge decision.
 Agents, and whatever else shares the run's data, are arbitrary changes to that data.
 */
module RunMachine {
  import opened Text

  datatype RunStatus =
    | Queued | Onboarding | Reproducing | Planning | Patching | Verifying | EvidenceReview | ConflictResolution
    | SecurityHold | PendingApproval | Merged | FailedRun | RolledBack | Cancelled

  /** Node names; `Other` is any name outside the node sequence. */
  datatype Node = OnboardingNode | ReproductionNode | PlannerNode | PatcherNode | VerifierNode | ReviewerNode | Other(name: string)

  const NODES: seq<Node> := [OnboardingNode, ReproductionNode, PlannerNode, PatcherNode, VerifierNode, ReviewerNode]

  /** `STATUS_NODE_MAP`; a node outside it leaves the status alone. */
  function NodeStatus(node: Node): Option<RunStatus> {
    match node
    case OnboardingNode => Some(Onboarding)
    case ReproductionNode => Some(Reproducing)
    case PlannerNode => Some(Planning)
    case PatcherNode => Some(Patching)
    case VerifierNode => Some(Verifying)
    case ReviewerNode => Some(EvidenceReview)
    case Other(_) => None
  }

  /** Reproduction evidence: absent, or with the status it carries. */
  datatype Evidence = NoEvidence | Evidence(status: Option<string>)

  /** The parts of the run's state that gates and the final decision read. */
  datatype Shared = Shared(
    repoMap: bool, onboardingSummary: bool,
    reproductionTest: bool, evidence: Evidence,
    gatewayAllowed: bool,
    requirePatchApproval: bool, requireHumanApproval: bool, orgRequiresApproval: bool, riskyPatch: bool, patchApproved: bool,
    verificationPassed: bool, verificationDecision: Option<string>,
    conflictDetected: bool, confidence: Option<real>, threshold: Option<real>, budgetExceeded: bool)

  // ---------------------------------------------------------------- merge decision

  datatype Actor = Agent | Human | Nobody

  datatype Decision = Decision(verificationDecision: string, securityHold: bool, conflictDetected: bool,
                               autoMerge: bool, needsHumanReview: bool, actor: Actor)

  function EffectiveDecision(passed: bool, decision: Option<string>): string {
    if decision.Some? then decision.value else if passed then "auto_merge" else "reject_unverified"
  }

  function ComputeMergeDecision(passed: bool, confidence: real, threshold: real, decision: Option<string>, conflict: bool): Decision {
    var effective := EffectiveDecision(passed, decision);
    var hold := effective == "security_hold";
    if !passed then Decision(effective, hold, conflict, false, false, Nobody)
    else if hold then Decision(effective, hold, conflict, false, true, Human)
    else if StartsWith(effective, "reject_") then Decision(effective, hold, conflict, false, false, Nobody)
    else if conflict then Decision(effective, hold, conflict, false, true, Human)
    else if effective == "auto_merge" && confidence >= threshold then Decision(effective, hold, conflict, true, false, Agent)
    else Decision(effective, hold, conflict, false, true, Human)
  }

  function Confidence(s: Shared): real {
    if s.confidence.Some? then s.confidence.value else 0.0
  }

  function Threshold(s: Shared): real {
    if s.threshold.Some? then s.threshold.value else 0.95
  }

  function DecisionFor(s: Shared): Decision {
    ComputeMergeDecision(s.verificationPassed, Confidence(s), Threshold(s), s.verificationDecision, s.conflictDetected)
  }

  /** What an automatic merge needs of the run's data. */
  predicate MayMerge(s: Shared) {
    s.verificationPassed && (s.verificationDecision.None? || s.verificationDecision.value == "auto_merge")
    && !s.conflictDetected
    && (if s.confidence.Some? then s.confidence.value else 0.0) >= (if s.threshold.Some? then s.threshold.value else 0.95)
  }

  /** The decision merges exactly when everything asks for it, and then nobody is asked to review. */
  lemma AutoMergeExactly(s: Shared)
    ensures DecisionFor(s).autoMerge <==> MayMerge(s)
    ensures DecisionFor(s).autoMerge ==> !DecisionFor(s).needsHumanReview
    ensures DecisionFor(s).actor == if DecisionFor(s).autoMerge then Agent else if DecisionFor(s).needsHumanReview then Human else Nobody
  {
    assert "auto_merge"[0] != "reject_"[0] && "auto_merge"[0] != "security_hold"[0];
  }

  /** The status ladder; `Unreached` marks its closing else. */
  datatype Rung = Final(status: RunStatus) | Unreached

  function Ladder(status: RunStatus, cancelled: bool, s: Shared): Rung {
    var d := DecisionFor(s);
    if status == FailedRun || status == RolledBack || status == Cancelled then Final(status)
    else if cancelled then Final(Cancelled)
    else if s.budgetExceeded then Final(FailedRun)
    else if d.securityHold then Final(SecurityHold)
    else if d.conflictDetected then Final(ConflictResolution)
    else if !s.verificationPassed || (s.verificationDecision.Some? && StartsWith(s.verificationDecision.value, "reject_"))
      then Final(FailedRun)
    else if d.autoMerge then Final(Merged)
    else if d.needsHumanReview then Final(EvidenceReview)
    else Unreached
  }

  /** The closing else of the ladder is unreachable. */
  lemma LadderComplete(status: RunStatus, cancelled: bool, s: Shared)
    ensures Ladder(status, cancelled, s).Final?
  {
    assert "auto_merge"[0] != "reject_"[0];
  }

  /** The ladder gives MERGED exactly under these conditions. */
  lemma MergedExactly(status: RunStatus, cancelled: bool, s: Shared)
    requires status != Merged
    ensures Ladder(status, cancelled, s) == Final(Merged) <==>
      status != FailedRun && status != RolledBack && status != Cancelled && !cancelled && !s.budgetExceeded && MayMerge(s)
  {
    AutoMergeExactly(s);
    assert "auto_merge"[0] != "reject_"[0] && "auto_merge"[0] != "security_hold"[0];
  }

  predicate Rejected(s: Shared) {
    s.verificationDecision.Some? && StartsWith(s.verificationDecision.value, "reject_")
  }

  /** Exactly when the ladder gives each status, from the fields of the run. */
  lemma LadderExactly(status: RunStatus, cancelled: bool, s: Shared)
    ensures var r := Ladder(status, cancelled, s);
            var stopped := status == FailedRun || status == RolledBack || status == Cancelled;
            var open := !stopped && !cancelled && !s.budgetExceeded;
            var held := s.verificationDecision == Some("security_hold");
            var failed := !s.verificationPassed || Rejected(s);
            (r == Final(RolledBack) <==> status == RolledBack) &&
            (r == Final(Cancelled) <==> status == Cancelled || (!stopped && cancelled)) &&
            (r == Final(SecurityHold) <==> open && held) &&
            (r == Final(ConflictResolution) <==> open && !held && s.conflictDetected) &&
            (r == Final(FailedRun) <==>
               status == FailedRun || (!stopped && !cancelled && s.budgetExceeded) ||
               (open && !held && !s.conflictDetected && failed)) &&
            (r == Final(Merged) <==> open && MayMerge(s)) &&
            (r == Final(EvidenceReview) <==> open && !held && !s.conflictDetected && !failed && !MayMerge(s))
  {
    assert "auto_merge"[0] != "reject_"[0] && "auto_merge"[0] != "security_hold"[0] && "reject_"[0] != "security_hold"[0];
  }

  // ---------------------------------------------------------------- gates

  predicate ApprovalRequired(s: Shared) {
    s.requirePatchApproval || s.requireHumanApproval || s.orgRequiresApproval || s.riskyPatch
  }

  predicate GateOpen(node: Node, s: Shared) {
    (node.OnboardingNode? ==> s.repoMap && s.onboardingSummary) &&
    (node.ReproductionNode? ==> s.reproductionTest && s.evidence == Evidence(Some("reproduced"))) &&
    (node.PatcherNode? ==>
       s.gatewayAllowed &&
       (s.requirePatchApproval || s.requireHumanApproval || s.orgRequiresApproval || s.riskyPatch ==> s.patchApproved))
  }

  /** The nodes of a run: all of them, or those from `resumeFrom` on. */
  function Sequence(resumeFrom: Option<Node>): seq<Node> {
    if resumeFrom.None? || resumeFrom.value == Other("") then NODES else From(NODES, resumeFrom.value)
  }

  function From(nodes: seq<Node>, name: Node): seq<Node> {
    if nodes == [] || nodes[0] == name then nodes else From(nodes[1..], name)
  }

  /** Without a name to resume at a run has all six nodes; resumed at one of them it has that one and those after it. */
  lemma SequenceExactly(resumeFrom: Option<Node>)
    ensures var all := [OnboardingNode, ReproductionNode, PlannerNode, PatcherNode, VerifierNode, ReviewerNode];
            (resumeFrom.None? || resumeFrom == Some(Other("")) ==> Sequence(resumeFrom) == all) &&
            (forall k :: 0 <= k < |all| && resumeFrom == Some(all[k]) ==> Sequence(resumeFrom) == all[k..]) &&
            (resumeFrom.Some? && resumeFrom.value.Other? && resumeFrom.value != Other("") ==> Sequence(resumeFrom) == [])
  {
    var all := [OnboardingNode, ReproductionNode, PlannerNode, PatcherNode, VerifierNode, ReviewerNode];
    hide From;
    if resumeFrom.Some? {
      if resumeFrom.value in all {
        var k :| 0 <= k < |all| && all[k] == resumeFrom.value;
        FromIndex(all, k);
      } else {
        FromNowhere(all, resumeFrom.value);
      }
    }
  }

  lemma {:induction false} FromIndex(nodes: seq<Node>, k: nat)
    requires k < |nodes| && forall i, j :: 0 <= i < j < |nodes| ==> nodes[i] != nodes[j]
    ensures From(nodes, nodes[k]) == nodes[k..]
    decreases k
  {
    if k > 0 {
      FromIndex(nodes[1..], k - 1);
    }
  }

  lemma {:induction false} FromNowhere(nodes: seq<Node>, name: Node)
    requires name !in nodes
    ensures From(nodes, name) == []
    decreases |nodes|
  {
    if nodes != [] {
      FromNowhere(nodes[1..], name);
    }
  }

  /** Each node of the sequence has the status of its own place. */
  lemma StatusOfNode(k: nat)
    requires k < |NODES|
    ensures NodeStatus(NODES[k]) ==
            Some([Onboarding, Reproducing, Planning, Patching, Verifying, EvidenceReview][k])
  {
  }

  // ---------------------------------------------------------------- the engine

  datatype Control = Pause | Resume | StepOver | Cancel | Rollback

  /**
   Where `run` is: before the budget check of node `i`, between that check and the node's start,
   inside the node, past the loop, or done.
   */
  datatype Stage = Head(i: nat) | Waiting(i: nat) | InNode(i: nat) | Leaving | Over

  /** A node that ended without stopping the run, with the data its gate saw. */
  datatype Passed = Passed(node: Node, succeeded: bool, seen: Shared)

  /** `passed` is a record of the run for its proof; the program does not read it. */
  datatype Engine = Engine(paused: bool, cancelled: bool, stepMode: bool, status: RunStatus, shared: Shared,
                           stage: Stage, passed: seq<Passed>)

  datatype Event =
    | Controlled(control: Control)
    | Changed(shared: Shared)
    | BudgetChecked(over: bool)
    | Started
    | Halted
    | Ended(success: bool, waved: bool)   // `waved`: the error callback lets the run go on
    | Decided

  function Begin(paused: bool, cancelled: bool, stepMode: bool, shared: Shared): Engine {
    Engine(paused, cancelled, stepMode, Queued, shared, Head(0), [])
  }

  /** Operators and other writers act at awaits: while a node runs or the run waits. */
  predicate AtAwait(e: Engine) {
    e.stage.Waiting? || e.stage.InNode? || e.stage.Over?
  }

  predicate Can(nodes: seq<Node>, e: Engine, ev: Event) {
    match ev
    case Controlled(_) => AtAwait(e)
    case Changed(_) => AtAwait(e)
    case BudgetChecked(_) => e.stage.Head? && e.stage.i < |nodes|
    case Started => e.stage.Waiting? && e.stage.i < |nodes| && !e.paused && !e.cancelled
    case Halted => e.stage.Waiting? && e.cancelled
    case Ended(_, _) => e.stage.InNode? && e.stage.i < |nodes|
    case Decided => e.stage.Leaving? || (e.stage.Head? && e.stage.i >= |nodes|)
  }

  function Operate(e: Engine, c: Control): Engine {
    match c
    case Pause => e.(paused := true)
    case Resume => e.(paused := false, stepMode := false)
    case StepOver => e.(paused := false, stepMode := true)
    case Cancel => e.(cancelled := true, paused := false)
    case Rollback => e.(status := RolledBack)
  }

  /** The gate after a node and the error callback: the run leaves, or it stays in the node for what follows. */
  function Gate(node: Node, e: Engine, success: bool, waved: bool): Engine {
    var s := e.shared;
    if success && node.OnboardingNode? && !(s.repoMap && s.onboardingSummary) then
      e.(status := FailedRun, stage := Leaving)
    else if success && node.ReproductionNode?
      && (!s.reproductionTest || s.evidence.NoEvidence? || s.evidence.status != Some("reproduced")) then
      e.(status := FailedRun, stage := Leaving)
    else if success && node.PatcherNode? && !s.gatewayAllowed then
      e.(status := SecurityHold, shared := s.(verificationDecision := Some("security_hold")), stage := Leaving)
    else if success && node.PatcherNode? && ApprovalRequired(s) && !s.patchApproved then
      e.(status := PendingApproval, paused := true, stage := Leaving)
    else if !success then e.(status := FailedRun, stage := if waved then e.stage else Leaving)
    else e
  }

  /** On to the next node, after the pause that a step-over asked for. */
  function Continue(node: Node, e: Engine, success: bool): Engine
    requires e.stage.InNode?
  {
    e.(paused := e.paused || e.stepMode, stepMode := false, stage := Head(e.stage.i + 1),
       passed := e.passed + [Passed(node, success, e.shared)])
  }

  function EndNode(node: Node, e: Engine, success: bool, waved: bool): Engine
    requires e.stage.InNode?
  {
    var g := Gate(node, e, success, waved);
    if g.stage.Leaving? then g else Continue(node, g, success)
  }

  function FinalStatus(e: Engine): RunStatus {
    if e.status == PendingApproval then PendingApproval
    else match Ladder(e.status, e.cancelled, e.shared)
      case Final(status) => status
      case Unreached => FailedRun
  }

  function Next(nodes: seq<Node>, e: Engine, ev: Event): Engine
    requires Can(nodes, e, ev)
  {
    match ev
    case Controlled(c) => Operate(e, c)
    case Changed(shared) => e.(shared := shared)
    case BudgetChecked(over) =>
      if over then e.(status := FailedRun, shared := e.shared.(budgetExceeded := true), stage := Leaving)
      else e.(stage := Waiting(e.stage.i))
    case Started =>
      var status := NodeStatus(nodes[e.stage.i]);
      e.(status := if status.Some? then status.value else e.status, stage := InNode(e.stage.i))
    case Halted => e.(stage := Leaving)
    case Ended(success, waved) => EndNode(nodes[e.stage.i], e, success, waved)
    case Decided => e.(status := FinalStatus(e), stage := Over)
  }

  /** `evs` can happen from `e`. */
  predicate Happens(nodes: seq<Node>, e: Engine, evs: seq<Event>)
    decreases |evs|
  {
    evs == [] || (Can(nodes, e, evs[0]) && Happens(nodes, Next(nodes, e, evs[0]), evs[1..]))
  }

  /** The engine after `evs`. */
  function After(nodes: seq<Node>, e: Engine, evs: seq<Event>): Engine
    requires Happens(nodes, e, evs)
    decreases |evs|
  {
    if evs == [] then e else After(nodes, Next(nodes, e, evs[0]), evs[1..])
  }

  lemma {:induction false} HappensJoin(nodes: seq<Node>, e: Engine, a: seq<Event>, b: seq<Event>)
    requires Happens(nodes, e, a)
    ensures Happens(nodes, e, a + b) == Happens(nodes, After(nodes, e, a), b)
    ensures Happens(nodes, e, a + b) ==> After(nodes, e, a + b) == After(nodes, After(nodes, e, a), b)
    decreases |a|
  {
    if a == [] {
      assert a + b == b;
    } else {
      HappensJoin(nodes, Next(nodes, e, a[0]), a[1..], b);
      assert (a + b)[1..] == a[1..] + b;
    }
  }

  // ---------------------------------------------------------------- what ends MERGED

  predicate Stopped(status: RunStatus) {
    status == FailedRun || status == RolledBack || status == Cancelled
  }

  /** Each passed node is the next of the sequence, and either its gate was open or its failure was waved on. */
  predicate PassedInOrder(nodes: seq<Node>, e: Engine) {
    |e.passed| <= |nodes| &&
    forall k :: 0 <= k < |e.passed| ==> e.passed[k].node == nodes[k] && (e.passed[k].succeeded ==> GateOpen(nodes[k], e.passed[k].seen))
  }

  /** A run that left the loop early can only end without merging. */
  predicate Barred(e: Engine) {
    Stopped(e.status) || e.cancelled || e.status == PendingApproval
    || (e.status == SecurityHold && e.shared.verificationDecision == Some("security_hold"))
  }

  predicate RunInv(nodes: seq<Node>, e: Engine) {
    PassedInOrder(nodes, e) &&
    (!e.stage.Over? ==> e.status != Merged) &&
    (match e.stage
     case Head(i) =>
       i == |e.passed| && e.status != PendingApproval
       && (i > 0 && !e.passed[i - 1].succeeded ==> Stopped(e.status))
     case Waiting(i) => i == |e.passed| && i < |nodes| && e.status != PendingApproval
     case InNode(i) => i == |e.passed| && i < |nodes| && e.status != PendingApproval
     case Leaving => Barred(e)
     case Over => true)
  }

  lemma EndKeepsRunInv(nodes: seq<Node>, e: Engine, success: bool, waved: bool)
    requires RunInv(nodes, e) && e.stage.InNode?
    ensures RunInv(nodes, EndNode(nodes[e.stage.i], e, success, waved))
  {
  }

  lemma StepKeepsRunInv(nodes: seq<Node>, e: Engine, ev: Event)
    requires RunInv(nodes, e) && Can(nodes, e, ev) && !ev.Decided? && !e.stage.Over?
    ensures RunInv(nodes, Next(nodes, e, ev))
  {
    hide EndNode, GateOpen;
    if ev.Ended? {
      EndKeepsRunInv(nodes, e, ev.success, ev.waved);
    }
  }
}
