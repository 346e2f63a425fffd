/** What every run of the pipeline engine satisfies, under any interleaving of operator controls. */
module RunSafety {
  import opened Text
  import opened RunMachine

  // ---------------------------------------------------------------- states along a run

  /** The engine after the first `k` events. */
  function At(nodes: seq<Node>, e: Engine, evs: seq<Event>, k: nat): Engine
    requires Happens(nodes, e, evs) && k <= |evs|
  {
    PrefixHappens(nodes, e, evs, k);
    After(nodes, e, evs[..k])
  }

  lemma PrefixHappens(nodes: seq<Node>, e: Engine, evs: seq<Event>, k: nat)
    requires Happens(nodes, e, evs) && k <= |evs|
    ensures Happens(nodes, e, evs[..k]) && Happens(nodes, After(nodes, e, evs[..k]), evs[k..])
    ensures After(nodes, After(nodes, e, evs[..k]), evs[k..]) == After(nodes, e, evs)
    decreases |evs|
  {
    if k == 0 {
      assert evs[..0] == [] && evs[0..] == evs;
    } else {
      PrefixHappens(nodes, Next(nodes, e, evs[0]), evs[1..], k - 1);
      assert evs[..k][1..] == evs[1..][..k - 1] && evs[k..] == evs[1..][k - 1..];
    }
  }

  lemma Advance(nodes: seq<Node>, e: Engine, evs: seq<Event>, k: nat)
    requires Happens(nodes, e, evs) && k < |evs|
    ensures Can(nodes, At(nodes, e, evs, k), evs[k])
    ensures At(nodes, e, evs, k + 1) == Next(nodes, At(nodes, e, evs, k), evs[k])
  {
    hide Can, Next;
    PrefixHappens(nodes, e, evs, k);
    PrefixHappens(nodes, e, evs, k + 1);
    assert evs[..k + 1] == evs[..k] + [evs[k]];
    HappensJoin(nodes, e, evs[..k], [evs[k]]);
    OneEvent(nodes, After(nodes, e, evs[..k]), evs[k]);
  }

  lemma OneEvent(nodes: seq<Node>, e: Engine, ev: Event)
    ensures Happens(nodes, e, [ev]) == Can(nodes, e, ev)
    ensures Can(nodes, e, ev) ==> After(nodes, e, [ev]) == Next(nodes, e, ev)
  {
    assert [ev][1..] == [];
  }

  // ---------------------------------------------------------------- MERGED

  /** A run: events up to its decision, from the state `run()` begins in. */
  predicate IsRun(nodes: seq<Node>, start: Engine, evs: seq<Event>) {
    start == Begin(start.paused, start.cancelled, start.stepMode, start.shared) &&
    Happens(nodes, start, evs + [Decided]) && forall ev :: ev in evs ==> !ev.Decided?
  }

  lemma RunSplits(nodes: seq<Node>, start: Engine, evs: seq<Event>)
    requires IsRun(nodes, start, evs)
    ensures Happens(nodes, start, evs) && Can(nodes, After(nodes, start, evs), Decided)
    ensures After(nodes, start, evs + [Decided]) == Next(nodes, After(nodes, start, evs), Decided)
  {
    hide Can, Next;
    PrefixHappens(nodes, start, evs + [Decided], |evs|);
    assert (evs + [Decided])[..|evs|] == evs;
    HappensJoin(nodes, start, evs, [Decided]);
    OneEvent(nodes, After(nodes, start, evs), Decided);
  }

  lemma {:induction false} NeverOver(nodes: seq<Node>, e: Engine, evs: seq<Event>)
    requires Happens(nodes, e, evs) && RunInv(nodes, e) && !e.stage.Over? && forall ev :: ev in evs ==> !ev.Decided?
    ensures RunInv(nodes, After(nodes, e, evs)) && !After(nodes, e, evs).stage.Over?
    decreases |evs|
  {
    if evs != [] {
      StepKeepsRunInv(nodes, e, evs[0]);
      NeverOver(nodes, Next(nodes, e, evs[0]), evs[1..]);
    }
  }

  /** The status a run ends with. */
  function Outcome(nodes: seq<Node>, start: Engine, evs: seq<Event>): RunStatus
    requires IsRun(nodes, start, evs)
  {
    After(nodes, start, evs + [Decided]).status
  }

  /** The state a run decides in. */
  function Deciding(nodes: seq<Node>, start: Engine, evs: seq<Event>): Engine
    requires IsRun(nodes, start, evs)
  {
    RunSplits(nodes, start, evs);
    After(nodes, start, evs)
  }

  lemma DecidingFacts(nodes: seq<Node>, start: Engine, evs: seq<Event>)
    requires IsRun(nodes, start, evs)
    ensures var e := Deciding(nodes, start, evs);
      RunInv(nodes, e) && (e.stage.Leaving? || e.stage == Head(|nodes|)) && Outcome(nodes, start, evs) == FinalStatus(e)
  {
    RunSplits(nodes, start, evs);
    NeverOver(nodes, start, evs);
    hide Happens, After, EndNode;
  }

  /**
   A run ends MERGED if and only if it went through its whole sequence, nothing barred it, and its data
   asks for an automatic merge.
   */
  lemma MergedIff(nodes: seq<Node>, start: Engine, evs: seq<Event>)
    requires IsRun(nodes, start, evs)
    ensures var e := Deciding(nodes, start, evs);
      Outcome(nodes, start, evs) == Merged <==>
        e.stage == Head(|nodes|) && !Stopped(e.status) && !e.cancelled && !e.shared.budgetExceeded && MayMerge(e.shared)
  {
    var e := Deciding(nodes, start, evs);
    DecidingFacts(nodes, start, evs);
    LadderComplete(e.status, e.cancelled, e.shared);
    MergedExactly(e.status, e.cancelled, e.shared);
    if e.stage.Leaving? && e.status == SecurityHold && e.shared.verificationDecision == Some("security_hold") {
      HoldNeverMerges(e.shared);
    }
    hide Ladder, MayMerge, IsRun, Happens;
  }

  lemma HoldNeverMerges(s: Shared)
    requires s.verificationDecision == Some("security_hold")
    ensures !MayMerge(s)
  {
    assert "auto_merge"[0] != "security_hold"[0];
  }

  /**
   Run safety: a run that ends MERGED has been through every node of its sequence in order, the last
   one succeeded, each that succeeded had its gate open, and the data at the decision asks for a merge.
   */
  lemma MergedRunIsSafe(nodes: seq<Node>, start: Engine, evs: seq<Event>)
    requires IsRun(nodes, start, evs) && Outcome(nodes, start, evs) == Merged
    ensures var e := Deciding(nodes, start, evs);
      |e.passed| == |nodes| && MayMerge(e.shared) &&
      (forall k :: 0 <= k < |nodes| ==> e.passed[k].node == nodes[k] && (e.passed[k].succeeded ==> GateOpen(nodes[k], e.passed[k].seen))) &&
      (nodes != [] ==> e.passed[|nodes| - 1].succeeded)
  {
    MergedIff(nodes, start, evs);
    DecidingFacts(nodes, start, evs);
    hide MayMerge, GateOpen, Happens, IsRun, FinalStatus;
  }

  lemma {:induction false} WavedNodes(nodes: seq<Node>, e: Engine, evs: seq<Event>)
    requires Happens(nodes, e, evs) && Ended(false, true) !in evs
    requires forall p :: p in e.passed ==> p.succeeded
    ensures forall p :: p in After(nodes, e, evs).passed ==> p.succeeded
    decreases |evs|
  {
    if evs != [] {
      assert evs[0] in evs;
      var f := Next(nodes, e, evs[0]);
      assert forall p :: p in f.passed ==> p in e.passed || p.succeeded;
      hide Can, Next;
      WavedNodes(nodes, f, evs[1..]);
    }
  }

  /** When no error callback waves a failure on, every node of a merged run succeeded behind an open gate. */
  lemma MergedRunSucceeded(nodes: seq<Node>, start: Engine, evs: seq<Event>)
    requires IsRun(nodes, start, evs) && Outcome(nodes, start, evs) == Merged && Ended(false, true) !in evs
    ensures var e := Deciding(nodes, start, evs);
      |e.passed| == |nodes| &&
      forall k :: 0 <= k < |nodes| ==> e.passed[k].node == nodes[k] && e.passed[k].succeeded && GateOpen(nodes[k], e.passed[k].seen)
  {
    MergedRunIsSafe(nodes, start, evs);
    RunSplits(nodes, start, evs);
    WavedNodes(nodes, start, evs);
    hide MayMerge, GateOpen, Happens, IsRun, FinalStatus;
  }

  /**
   How a run ends that a gate sends out of the loop: a patch the commit gateway refuses is held, one that needs approval
   waits for it, and everything else has failed.
   */
  lemma GateEnds(node: Node, e: Engine, success: bool, waved: bool)
    requires e.stage.InNode?
    ensures var g, s := Gate(node, e, success, waved), e.shared;
            var refused := success && node == PatcherNode && !s.gatewayAllowed;
            var waiting := success && node == PatcherNode && s.gatewayAllowed && !s.patchApproved &&
                           (s.requirePatchApproval || s.requireHumanApproval || s.orgRequiresApproval || s.riskyPatch);
            var missing := success &&
                           ((node == OnboardingNode && !(s.repoMap && s.onboardingSummary)) ||
                            (node == ReproductionNode && !(s.reproductionTest && s.evidence == Evidence(Some("reproduced")))));
            (g.stage.Leaving? <==> refused || waiting || missing || (!success && !waved)) &&
            (refused ==> FinalStatus(g) == if e.cancelled then Cancelled else if s.budgetExceeded then FailedRun else SecurityHold) &&
            (waiting ==> FinalStatus(g) == PendingApproval && g.paused) &&
            (missing || !success ==> g.status == FailedRun && FinalStatus(g) == FailedRun) &&
            (!g.stage.Leaving? && success ==> g == e)
  {
    assert "security_hold"[0] != "reject_"[0];
  }

  // ---------------------------------------------------------------- cancellation, refusal, rollback

  lemma {:induction false} StaysCancelled(nodes: seq<Node>, e: Engine, evs: seq<Event>)
    requires Happens(nodes, e, evs) && e.cancelled
    ensures After(nodes, e, evs).cancelled && forall ev :: ev in evs ==> !ev.Started?
    decreases |evs|
  {
    if evs != [] {
      StaysCancelled(nodes, Next(nodes, e, evs[0]), evs[1..]);
    }
  }

  /** After a cancel no node starts, and the run does not end MERGED. */
  lemma CancelIsFinal(nodes: seq<Node>, start: Engine, evs: seq<Event>, k: nat)
    requires IsRun(nodes, start, evs) && k < |evs| && evs[k] == Controlled(Cancel)
    ensures forall j :: k < j < |evs| ==> !evs[j].Started?
    ensures Outcome(nodes, start, evs) != Merged
  {
    RunSplits(nodes, start, evs);
    Advance(nodes, start, evs, k);
    PrefixHappens(nodes, start, evs, k + 1);
    StaysCancelled(nodes, At(nodes, start, evs, k + 1), evs[k + 1..]);
    assert forall j :: k < j < |evs| ==> evs[j] == evs[k + 1..][j - k - 1];
    MergedIff(nodes, start, evs);
    hide IsRun, Happens, Next;
  }

  /** So for a run that begins cancelled. */
  lemma BegunCancelled(nodes: seq<Node>, start: Engine, evs: seq<Event>)
    requires IsRun(nodes, start, evs) && start.cancelled
    ensures forall ev :: ev in evs ==> !ev.Started?
    ensures Outcome(nodes, start, evs) != Merged
  {
    RunSplits(nodes, start, evs);
    StaysCancelled(nodes, start, evs);
    MergedIff(nodes, start, evs);
    hide IsRun, Happens, Next;
  }

  /** A patch that the commit gateway refuses is not merged by the run. */
  lemma RefusedIsNotMerged(nodes: seq<Node>, start: Engine, evs: seq<Event>, k: nat, waved: bool)
    requires IsRun(nodes, start, evs) && k < |evs| && evs[k] == Ended(true, waved)
    requires Happens(nodes, start, evs)
    requires var e := At(nodes, start, evs, k);
      e.stage.InNode? && e.stage.i < |nodes| && nodes[e.stage.i] == PatcherNode && !e.shared.gatewayAllowed
    ensures Outcome(nodes, start, evs) != Merged
  {
    RunSplits(nodes, start, evs);
    Advance(nodes, start, evs, k);
    var e := At(nodes, start, evs, k + 1);
    assert e.stage == Leaving;
    assert k + 1 < |evs| ==> evs[k + 1] in evs;
    if k + 1 < |evs| {
      Advance(nodes, start, evs, k + 1);
    }
    assert k + 1 == |evs|;
    assert evs[..k + 1] == evs;
    MergedIff(nodes, start, evs);
    hide IsRun, Happens, Next;
  }

  /** The node that starts next has a status of its own, which `run` writes. */
  predicate StartsMapped(nodes: seq<Node>, e: Engine, ev: Event) {
    ev.Started? && e.stage.Waiting? && e.stage.i < |nodes| && NodeStatus(nodes[e.stage.i]).Some?
  }

  /** A node with a status of its own starts somewhere in `evs`. */
  predicate Restarts(nodes: seq<Node>, e: Engine, evs: seq<Event>)
    requires Happens(nodes, e, evs)
    decreases |evs|
  {
    evs != [] && (StartsMapped(nodes, e, evs[0]) || Restarts(nodes, Next(nodes, e, evs[0]), evs[1..]))
  }

  lemma StopLasts(nodes: seq<Node>, e: Engine, ev: Event)
    requires Can(nodes, e, ev) && !ev.Decided? && !StartsMapped(nodes, e, ev) && !e.stage.Over?
    requires Stopped(e.status) || e.stage.Leaving?
    ensures var f := Next(nodes, e, ev); (Stopped(f.status) || f.stage.Leaving?) && !f.stage.Over?
  {
  }

  lemma {:induction false} StaysRolledBack(nodes: seq<Node>, e: Engine, evs: seq<Event>)
    requires Happens(nodes, e, evs) && !e.stage.Over? && forall ev :: ev in evs ==> !ev.Decided?
    requires !Restarts(nodes, e, evs) && (Stopped(e.status) || e.stage.Leaving?)
    ensures var f := After(nodes, e, evs); Stopped(f.status) || f.stage.Leaving?
    decreases |evs|
  {
    if evs != [] {
      assert evs[0] in evs;
      StopLasts(nodes, e, evs[0]);
      hide Can, Next;
      StaysRolledBack(nodes, Next(nodes, e, evs[0]), evs[1..]);
    }
  }

  /** A rollback keeps a run from merging unless a node with a status of its own starts after it. */
  lemma RollbackHolds(nodes: seq<Node>, start: Engine, evs: seq<Event>, k: nat)
    requires IsRun(nodes, start, evs) && Happens(nodes, start, evs) && k < |evs| && evs[k] == Controlled(Rollback)
    requires SpanHappens(nodes, start, evs, k + 1) && !Restarts(nodes, At(nodes, start, evs, k + 1), evs[k + 1..])
    ensures Outcome(nodes, start, evs) != Merged
  {
    RunSplits(nodes, start, evs);
    Advance(nodes, start, evs, k);
    PrefixHappens(nodes, start, evs, k + 1);
    assert forall ev :: ev in evs[..k + 1] ==> ev in evs;
    assert forall ev :: ev in evs[k + 1..] ==> ev in evs;
    NeverOver(nodes, start, evs[..k + 1]);
    StaysRolledBack(nodes, At(nodes, start, evs, k + 1), evs[k + 1..]);
    MergedIff(nodes, start, evs);
    hide IsRun, Happens, Next;
  }

  /** What follows the first `k` events happens from the state they lead to. */
  ghost predicate SpanHappens(nodes: seq<Node>, start: Engine, evs: seq<Event>, k: nat)
    requires Happens(nodes, start, evs) && k <= |evs|
  {
    Happens(nodes, At(nodes, start, evs, k), evs[k..])
  }

  // ---------------------------------------------------------------- a rollback that is overwritten

  /** The same engine but for its status. */
  predicate Similar(e: Engine, f: Engine) {
    f == e.(status := f.status)
  }

  /** No event but the decision looks at the status, and a start with a status of its own overwrites it. */
  lemma SimilarStep(nodes: seq<Node>, e: Engine, f: Engine, ev: Event)
    requires Similar(e, f) && Can(nodes, e, ev) && !ev.Decided?
    ensures Can(nodes, f, ev) && Similar(Next(nodes, e, ev), Next(nodes, f, ev))
    ensures e == f || StartsMapped(nodes, e, ev) ==> Next(nodes, e, ev) == Next(nodes, f, ev)
  {
  }

  lemma {:induction false} SimilarRuns(nodes: seq<Node>, e: Engine, f: Engine, evs: seq<Event>)
    requires Similar(e, f) && Happens(nodes, e, evs) && forall ev :: ev in evs ==> !ev.Decided?
    ensures Happens(nodes, f, evs) && Similar(After(nodes, e, evs), After(nodes, f, evs))
    ensures e == f || Restarts(nodes, e, evs) ==> After(nodes, e, evs) == After(nodes, f, evs)
    decreases |evs|
  {
    if evs != [] {
      assert evs[0] in evs;
      SimilarStep(nodes, e, f, evs[0]);
      hide Can, Next, StartsMapped;
      SimilarRuns(nodes, Next(nodes, e, evs[0]), Next(nodes, f, evs[0]), evs[1..]);
    }
  }

  function Without(evs: seq<Event>, k: nat): seq<Event>
    requires k < |evs|
  {
    evs[..k] + evs[k + 1..]
  }

  /** Leaving a rollback out gives a run; if a node with a status of its own starts after it, the run ends the same. */
  lemma RollbackForgotten(nodes: seq<Node>, start: Engine, evs: seq<Event>, k: nat)
    requires IsRun(nodes, start, evs) && Happens(nodes, start, evs) && k < |evs| && evs[k] == Controlled(Rollback)
    ensures IsRun(nodes, start, Without(evs, k)) && SpanHappens(nodes, start, evs, k + 1)
    ensures Restarts(nodes, At(nodes, start, evs, k + 1), evs[k + 1..]) ==>
              Outcome(nodes, start, Without(evs, k)) == Outcome(nodes, start, evs)
  {
    var e, rest := At(nodes, start, evs, k), evs[k + 1..];
    Advance(nodes, start, evs, k);
    RollbackOnly(nodes, e);
    RunSplits(nodes, start, evs);
    PrefixHappens(nodes, start, evs, k);
    PrefixHappens(nodes, start, evs, k + 1);
    assert forall ev :: ev in rest ==> ev in evs;
    assert forall ev :: ev in Without(evs, k) ==> ev in evs;
    hide Can, Next, StartsMapped, Begin;
    SimilarRuns(nodes, At(nodes, start, evs, k + 1), e, rest);
    HappensJoin(nodes, start, evs[..k], rest);
    var last, other := After(nodes, start, evs), After(nodes, start, Without(evs, k));
    assert Similar(last, other);
    DecideAlike(nodes, last, other);
    HappensJoin(nodes, start, Without(evs, k), [Decided]);
    OneEvent(nodes, other, Decided);
    RunSplitsIf(nodes, start, Without(evs, k));
  }

  lemma RollbackOnly(nodes: seq<Node>, e: Engine)
    requires Can(nodes, e, Controlled(Rollback))
    ensures Similar(Next(nodes, e, Controlled(Rollback)), e)
  {
  }

  lemma DecideAlike(nodes: seq<Node>, e: Engine, f: Engine)
    requires Similar(e, f) && Can(nodes, e, Decided)
    ensures Can(nodes, f, Decided)
  {
  }

  lemma RunSplitsIf(nodes: seq<Node>, start: Engine, evs: seq<Event>)
    requires IsRun(nodes, start, evs)
    ensures Happens(nodes, start, evs) && Can(nodes, After(nodes, start, evs), Decided)
    ensures Outcome(nodes, start, evs) == Next(nodes, After(nodes, start, evs), Decided).status
  {
    RunSplits(nodes, start, evs);
    hide Can, Next;
  }

  /**
   Exactly when a rolled-back run ends MERGED: a node with a status of its own starts after the rollback, and the run
   would have merged without it.
   */
  lemma RollbackExactly(nodes: seq<Node>, start: Engine, evs: seq<Event>, k: nat)
    requires IsRun(nodes, start, evs) && Happens(nodes, start, evs) && k < |evs| && evs[k] == Controlled(Rollback)
    ensures IsRun(nodes, start, Without(evs, k)) && SpanHappens(nodes, start, evs, k + 1)
    ensures Outcome(nodes, start, evs) == Merged <==>
              Restarts(nodes, At(nodes, start, evs, k + 1), evs[k + 1..]) &&
              Outcome(nodes, start, Without(evs, k)) == Merged
  {
    RollbackForgotten(nodes, start, evs, k);
    hide IsRun, Happens, At, Outcome, Without;
    if !Restarts(nodes, At(nodes, start, evs, k + 1), evs[k + 1..]) {
      RollbackHolds(nodes, start, evs, k);
    }
  }

  /** So a run that was rolled back can still merge: paused, rolled back, resumed at its last node. */
  lemma RolledBackRunCanMerge(s: Shared)
    requires MayMerge(s) && !s.budgetExceeded
    ensures var nodes := [ReviewerNode];
      var start := Begin(true, false, false, s);
      var evs := [BudgetChecked(false), Controlled(Rollback), Controlled(Resume), Started, Ended(true, false)];
      IsRun(nodes, start, evs) && Outcome(nodes, start, evs) == Merged
  {
    hide MayMerge;
    var nodes := [ReviewerNode];
    var e0 := Begin(true, false, false, s);
    var e1 := Next(nodes, e0, BudgetChecked(false));
    var e2 := Next(nodes, e1, Controlled(Rollback));
    var e3 := Next(nodes, e2, Controlled(Resume));
    var e4 := Next(nodes, e3, Started);
    var e5 := Next(nodes, e4, Ended(true, false));
    assert e5 == Engine(false, false, false, EvidenceReview, s, Head(1), [Passed(ReviewerNode, true, s)]);
    LadderComplete(EvidenceReview, false, s);
    MergedExactly(EvidenceReview, false, s);
    FiveThenDecide(nodes, e0, e1, e2, e3, e4, e5,
                   [BudgetChecked(false), Controlled(Rollback), Controlled(Resume), Started, Ended(true, false)]);
    hide Happens, After, Ladder;
  }

  lemma FiveThenDecide(nodes: seq<Node>, e0: Engine, e1: Engine, e2: Engine, e3: Engine, e4: Engine, e5: Engine, evs: seq<Event>)
    requires |evs| == 5
    requires Can(nodes, e0, evs[0]) && e1 == Next(nodes, e0, evs[0])
    requires Can(nodes, e1, evs[1]) && e2 == Next(nodes, e1, evs[1])
    requires Can(nodes, e2, evs[2]) && e3 == Next(nodes, e2, evs[2])
    requires Can(nodes, e3, evs[3]) && e4 == Next(nodes, e3, evs[3])
    requires Can(nodes, e4, evs[4]) && e5 == Next(nodes, e4, evs[4])
    requires Can(nodes, e5, Decided)
    ensures Happens(nodes, e0, evs + [Decided])
    ensures After(nodes, e0, evs + [Decided]) == Next(nodes, e5, Decided)
  {
    hide Can, Next;
    var f := [Decided];
    OneEvent(nodes, e5, Decided);
    Cons(nodes, e4, evs[4], f);
    Cons(nodes, e3, evs[3], [evs[4]] + f);
    Cons(nodes, e2, evs[2], [evs[3]] + ([evs[4]] + f));
    Cons(nodes, e1, evs[1], [evs[2]] + ([evs[3]] + ([evs[4]] + f)));
    Cons(nodes, e0, evs[0], [evs[1]] + ([evs[2]] + ([evs[3]] + ([evs[4]] + f))));
    assert evs + f == [evs[0]] + ([evs[1]] + ([evs[2]] + ([evs[3]] + ([evs[4]] + f))));
  }

  lemma Cons(nodes: seq<Node>, e: Engine, ev: Event, evs: seq<Event>)
    ensures Can(nodes, e, ev) ==> Happens(nodes, e, [ev] + evs) == Happens(nodes, Next(nodes, e, ev), evs)
    ensures Can(nodes, e, ev) && Happens(nodes, Next(nodes, e, ev), evs) ==>
      After(nodes, e, [ev] + evs) == After(nodes, Next(nodes, e, ev), evs)
  {
    assert ([ev] + evs)[1..] == evs;
  }

  // ---------------------------------------------------------------- pause and step-over

  predicate Unpauses(ev: Event) {
    ev == Controlled(Resume) || ev == Controlled(StepOver)
  }

  /** No node can start here without a resume or a step-over first. */
  predicate Blocked(e: Engine) {
    e.paused || e.cancelled || e.stage.Leaving? || e.stage.Over?
  }

  lemma {:induction false} StaysBlocked(nodes: seq<Node>, e: Engine, evs: seq<Event>)
    requires Happens(nodes, e, evs) && (Blocked(e) || (e.stage.InNode? && e.stepMode))
    requires forall ev :: ev in evs ==> !Unpauses(ev)
    ensures forall ev :: ev in evs ==> !ev.Started?
    decreases |evs|
  {
    if evs != [] {
      assert evs[0] in evs;
      StaysBlocked(nodes, Next(nodes, e, evs[0]), evs[1..]);
    }
  }

  /** No node starts while paused: between a pause and the next start there is a resume or a step-over. */
  lemma PauseHolds(nodes: seq<Node>, start: Engine, evs: seq<Event>, i: nat, j: nat)
    requires Happens(nodes, start, evs) && i < j < |evs| && evs[i] == Controlled(Pause) && evs[j] == Started
    ensures exists k :: i < k < j && Unpauses(evs[k])
  {
    assert Started in evs[i + 1..j + 1] by {
      assert evs[i + 1..j + 1][j - i - 1] == Started;
    }
    Advance(nodes, start, evs, i);
    if forall k :: i < k < j ==> !Unpauses(evs[k]) {
      BlockedSpan(nodes, start, evs, i + 1, j + 1);
    }
  }

  /** In a run that begins paused no node starts before a resume or a step-over. */
  lemma BegunPaused(nodes: seq<Node>, start: Engine, evs: seq<Event>, j: nat)
    requires Happens(nodes, start, evs) && start.paused && j < |evs| && evs[j] == Started
    ensures exists k :: 0 <= k < j && Unpauses(evs[k])
  {
    assert Started in evs[0..j + 1] by {
      assert evs[0..j + 1][j] == Started;
    }
    assert !Unpauses(Started);
    if forall k :: 0 <= k < j ==> !Unpauses(evs[k]) {
      assert At(nodes, start, evs, 0) == start by { assert evs[..0] == []; }
      BlockedSpan(nodes, start, evs, 0, j + 1);
    }
  }

  lemma BlockedSpan(nodes: seq<Node>, start: Engine, evs: seq<Event>, i: nat, j: nat)
    requires Happens(nodes, start, evs) && i <= j <= |evs|
    requires var e := At(nodes, start, evs, i); Blocked(e) || (e.stage.InNode? && e.stepMode)
    requires forall k :: i <= k < j ==> !Unpauses(evs[k])
    ensures forall ev :: ev in evs[i..j] ==> !ev.Started?
  {
    hide Happens, After, At;
    SpanIsRun(nodes, start, evs, i, j);
    StaysBlocked(nodes, At(nodes, start, evs, i), evs[i..j]);
  }

  lemma {:induction false} StepModeLasts(nodes: seq<Node>, e: Engine, evs: seq<Event>)
    requires Happens(nodes, e, evs) && (e.stepMode || Blocked(e))
    requires forall ev :: ev in evs ==> !Unpauses(ev) && !ev.Started?
    ensures var f := After(nodes, e, evs); f.stepMode || Blocked(f)
    decreases |evs|
  {
    if evs != [] {
      assert evs[0] in evs;
      StepModeLasts(nodes, Next(nodes, e, evs[0]), evs[1..]);
    }
  }

  lemma {:induction false} FirstStart(evs: seq<Event>, i: nat, j: nat) returns (first: nat)
    requires i < j < |evs| && evs[j] == Started
    ensures i < first <= j && evs[first] == Started && forall x :: i < x < first ==> !evs[x].Started?
    decreases j - i
  {
    if evs[i + 1].Started? {
      first := i + 1;
    } else {
      first := FirstStart(evs, i + 1, j);
    }
  }

  /** After a step-over at most one node starts until the next resume or step-over. */
  lemma StepOverRunsOneNode(nodes: seq<Node>, start: Engine, evs: seq<Event>, i: nat, mid: nat, k: nat)
    requires Happens(nodes, start, evs) && i < mid < k < |evs|
    requires evs[i] == Controlled(StepOver) && evs[mid] == Started && evs[k] == Started
    ensures exists m :: i < m < k && Unpauses(evs[m])
  {
    var j := FirstStart(evs, i, mid);
    hide Happens, After, Next, Can;
    assert Started in evs[j + 1..k + 1] by {
      assert evs[j + 1..k + 1][k - j - 1] == Started;
    }
    if forall m :: i < m < k ==> !Unpauses(evs[m]) {
      AfterStepOver(nodes, start, evs, i, j);
      BlockedSpan(nodes, start, evs, j + 1, k + 1);
    }
  }

  lemma SpanIsRun(nodes: seq<Node>, start: Engine, evs: seq<Event>, i: nat, j: nat)
    requires Happens(nodes, start, evs) && i <= j <= |evs|
    ensures Happens(nodes, At(nodes, start, evs, i), evs[i..j])
    ensures After(nodes, At(nodes, start, evs, i), evs[i..j]) == At(nodes, start, evs, j)
  {
    PrefixHappens(nodes, start, evs, i);
    PrefixHappens(nodes, start, evs, j);
    HappensJoin(nodes, start, evs[..i], evs[i..j]);
    assert evs[..i] + evs[i..j] == evs[..j];
    hide Happens, After;
  }

  lemma AfterStepOver(nodes: seq<Node>, start: Engine, evs: seq<Event>, i: nat, j: nat)
    requires Happens(nodes, start, evs) && i < j < |evs| && evs[i] == Controlled(StepOver) && evs[j] == Started
    requires forall x :: i < x < j ==> !Unpauses(evs[x]) && !evs[x].Started?
    ensures var e := At(nodes, start, evs, j + 1); e.stage.InNode? && e.stepMode
  {
    hide Happens, After, At;
    Advance(nodes, start, evs, i);
    Advance(nodes, start, evs, j);
    SpanIsRun(nodes, start, evs, i + 1, j);
    StepModeLasts(nodes, At(nodes, start, evs, i + 1), evs[i + 1..j]);
  }

  // ---------------------------------------------------------------- resuming at an unknown node

  lemma {:induction false} NotFound(nodes: seq<Node>, name: Node)
    requires name !in nodes
    ensures From(nodes, name) == []
    decreases |nodes|
  {
    if nodes != [] {
      NotFound(nodes[1..], name);
    }
  }

  /** A run resumed at a name outside the sequence runs no node, and merges at once if its data asks for it. */
  lemma UnknownResume(name: string, start: Engine)
    requires name != "" && start == Begin(start.paused, start.cancelled, start.stepMode, start.shared)
    ensures Sequence(Some(Other(name))) == [] && IsRun([], start, [])
    ensures Outcome([], start, []) == Merged <==>
              !start.cancelled && !start.shared.budgetExceeded && MayMerge(start.shared)
  {
    NotFound(NODES, Other(name));
    OneEvent([], start, Decided);
    assert [] + [Decided] == [Decided];
    MergedIff([], start, []);
  }
}
