/**
 The queue protocol as a state machine: any number of workers, each between two Redis calls, over
 one store.  Every Redis call is one step; a worker may crash, and a call may raise, at any point.
 */
module QueueMachine {
  import opened Text
  import opened FailurePolicy
  import opened JobStore

  datatype Config = Config(visibility: nat, leaseTtl: nat, maxAttempts: int)

  /**
   A claimed message.  `deadline` is when the lease runs out by the last successful SET or renewal,
   `lost` is the event the heartbeat sets, `beating` says that the heartbeat task is running.
   */
  datatype Claim = Claim(job: Job, msg: nat, token: nat, deadline: int, lost: bool, beating: bool)

  /** The Redis call a worker makes next, or that it is executing its run. */
  datatype Phase =
    | Held                     // lease taken; "running" not written yet
    | Marked                   // "running" written; lease not renewed yet
    | Executing
    | Done                     // run finished; "succeeded" not written yet
    | Recorded                 // "succeeded" written; not acknowledged yet
    | Failed(err: Failure)     // in the failure branch
    | DeadMarked               // "dead_letter" written; not on the dead-letter stream yet
    | Buried                   // on the dead-letter stream; not acknowledged yet
    | RetryMarked              // "retrying" written; successor not enqueued yet
    | Requeued                 // successor on the stream; not listed as "queued" yet
    | Listed                   // successor listed; not acknowledged yet
    | Releasing                // in the finally block

  /** `Trying` holds delivered messages whose leases it has not tried; `direct` when they came from XREADGROUP. */
  datatype Worker =
    | Idle
    | Trying(msgs: seq<nat>, direct: bool)
    | Working(claim: Claim, phase: Phase)

  datatype WorkerAction =
    | AutoClaim
    | ScanFault                // XAUTOCLAIM raises; the exception is swallowed
    | ReadGroup
    | NextMessage
    | GiveUp
    | ClaimFault
    | Call
    | Finish(result: Option<Failure>)
    | NoticeLost
    | Fault(err: Failure)
    | Heartbeat
    | HeartbeatFault
    | Crash

  /** How many stale messages one XAUTOCLAIM takes over. */
  const SCAN_COUNT := 10

  datatype Effect = Effect(store: Store, worker: Worker)

  predicate DeadEnd(cfg: Config, job: Job, err: Failure) {
    !ShouldRetry(err) || job.attempts + 1 >= cfg.maxAttempts
  }

  predicate CanStep(cfg: Config, st: Store, w: Worker, a: WorkerAction) {
    match a
    case AutoClaim => w.Idle?
    case ScanFault => w.Idle?
    case ReadGroup => w == Trying([], false)
    case NextMessage => w.Trying? && w.msgs != [] && w.msgs[0] < |st.stream|
    case GiveUp => w == Trying([], true)
    case ClaimFault => w.Trying? && !w.direct
    case Call => w.Working? && !w.phase.Executing?
    case Finish(_) => w.Working? && w.phase.Executing?
    case NoticeLost => w.Working? && w.phase.Executing? && w.claim.lost
    case Fault(_) => w.Working? && !w.phase.Executing?
    case Heartbeat => w.Working? && !w.phase.Releasing? && w.claim.beating
    case HeartbeatFault => w.Working? && !w.phase.Releasing? && w.claim.beating
    case Crash => true
  }

  /** The next Redis call of a worker that has a claim. */
  function NextCall(cfg: Config, st: Store, c: Claim, phase: Phase): Effect
    requires !phase.Executing?
  {
    match phase
    case Held => Effect(HSet(st, c.job, Running), Working(c, Marked))
    case Marked =>
      var r := Renew(st, c.job.jobId, c.token, cfg.leaseTtl);
      if r.value then Effect(r.store, Working(c.(deadline := st.clock + cfg.leaseTtl), Executing))
      else Effect(r.store, Working(c, Failed(StartLost(c.job.jobId))))
    case Done => Effect(HSet(st, c.job, Succeeded), Working(c, Recorded))
    case Recorded => Effect(XAck(st, c.msg), Working(c, Releasing))
    case Failed(err) =>
      if DeadEnd(cfg, c.job, err) then Effect(HSet(st, c.job, DeadLettered), Working(c, DeadMarked))
      else Effect(HSet(st, c.job, Retrying), Working(c, RetryMarked))
    case DeadMarked => Effect(XAddDead(st, c.job), Working(c, Buried))
    case Buried => Effect(XAck(st, c.msg), Working(c, Releasing))
    case RetryMarked => Effect(XAdd(st, Carries(Retry(c.job))), Working(c, Requeued))
    case Requeued => Effect(HSet(st, Retry(c.job), Queued), Working(c, Listed))
    case Listed => Effect(XAck(st, c.msg), Working(c, Releasing))
    case Releasing => Effect(Release(st, c.job.jobId, c.token).store, Idle)
  }

  /** Where a worker goes when a call raises: the try body to the failure branch, that branch to finally. */
  function AfterFault(c: Claim, phase: Phase, err: Failure): Worker {
    if phase.Releasing? then Idle
    else if phase.Held? || phase.Marked? || phase.Done? || phase.Recorded? then Working(c, Failed(err))
    else Working(c, Releasing)
  }

  function TryMessage(cfg: Config, st: Store, msgs: seq<nat>, direct: bool): Effect
    requires msgs != [] && msgs[0] < |st.stream|
  {
    match st.stream[msgs[0]]
    case Blank => Effect(XAck(st, msgs[0]), Trying(msgs[1..], direct))
    case Carries(job) =>
      var r := Acquire(st, job.jobId, cfg.leaseTtl);
      match r.value
      case None => Effect(r.store, Trying(msgs[1..], direct))
      case Some(token) =>
        Effect(r.store, Working(Claim(job, msgs[0], token, st.clock + cfg.leaseTtl, false, true), Held))
  }

  function Beat(cfg: Config, st: Store, c: Claim, phase: Phase): Effect {
    var r := Renew(st, c.job.jobId, c.token, cfg.leaseTtl);
    if r.value then Effect(r.store, Working(c.(deadline := st.clock + cfg.leaseTtl), phase))
    else Effect(r.store, Working(c.(lost := true, beating := false), phase))
  }

  function Step(cfg: Config, st: Store, w: Worker, a: WorkerAction): Effect
    requires CanStep(cfg, st, w, a)
  {
    match a
    case AutoClaim =>
      var r := XAutoClaim(st, cfg.visibility, SCAN_COUNT);
      Effect(r.store, Trying(r.value, false))
    case ScanFault => Effect(st, Trying([], false))
    case ReadGroup =>
      var r := XReadGroup(st);
      Effect(r.store, Trying(if r.value.Some? then [r.value.value] else [], true))
    case NextMessage => TryMessage(cfg, st, w.msgs, w.direct)
    case GiveUp => Effect(st, Idle)
    case ClaimFault => Effect(st, Trying([], false))
    case Call => NextCall(cfg, st, w.claim, w.phase)
    case Finish(result) =>
      Effect(st, Working(w.claim, if result.Some? then Failed(result.value) else Done))
    case NoticeLost => Effect(st, Working(w.claim, Failed(LeaseLost(w.claim.job.runId))))
    case Fault(err) => Effect(st, AfterFault(w.claim, w.phase, err))
    case Heartbeat => Beat(cfg, st, w.claim, w.phase)
    case HeartbeatFault => Effect(st, Working(w.claim.(beating := false), w.phase))
    case Crash => Effect(st, Idle)
  }

  // ---------------------------------------------------------------- the whole system

  datatype System = System(store: Store, workers: seq<Worker>)

  datatype Action =
    | Tick(d: nat)
    | Submit(job: Job)
    | Junk                              // a foreign producer appends an entry without a job
    | Do(worker: nat, action: WorkerAction)

  predicate Enabled(cfg: Config, s: System, a: Action) {
    match a
    case Do(w, x) => w < |s.workers| && CanStep(cfg, s.store, s.workers[w], x)
    case _ => true
  }

  function Apply(cfg: Config, s: System, a: Action): System
    requires Enabled(cfg, s, a)
  {
    match a
    case Tick(d) => s.(store := s.store.(clock := s.store.clock + d))
    case Submit(job) => s.(store := XAdd(s.store, Carries(job)).(submitted := s.store.submitted + {job}))
    case Junk => s.(store := XAdd(s.store, Blank))
    case Do(w, x) =>
      var e := Step(cfg, s.store, s.workers[w], x);
      System(e.store, s.workers[w := e.worker])
  }

  /** `as` can be carried out from `s` and leads to `t`. */
  predicate Runs(cfg: Config, s: System, acts: seq<Action>, t: System)
    decreases |acts|
  {
    if acts == [] then s == t
    else Enabled(cfg, s, acts[0]) && Runs(cfg, Apply(cfg, s, acts[0]), acts[1..], t)
  }

  function Initial(n: nat): System {
    System(EMPTY, seq(n, i => Idle))
  }

  ghost predicate Reachable(cfg: Config, s: System) {
    exists n, acts :: Runs(cfg, Initial(n), acts, s)
  }

  // ---------------------------------------------------------------- invariants

  /** What must never be undone for the facts about other workers to stay true. */
  ghost predicate Grows(a: Store, b: Store) {
    a.clock <= b.clock && a.stream <= b.stream && a.delivered <= b.delivered && a.acked <= b.acked &&
    a.deadLetters <= b.deadLetters && a.submitted <= b.submitted && a.marks <= b.marks && a.nextToken <= b.nextToken
  }

  /** A delivered message is pending or acknowledged, never neither. */
  ghost predicate Delivery(st: Store) {
    st.delivered <= |st.stream| &&
    (forall m :: m in st.pending || m in st.acked ==> m < st.delivered) &&
    (forall m :: 0 <= m < st.delivered ==> m in st.pending || m in st.acked) &&
    (forall m :: m in st.pending ==> m !in st.acked)
  }

  /** Success recorded, on the dead-letter stream, or its successor enqueued. */
  ghost predicate Handled(st: Store, job: Job) {
    (job, Succeeded) in st.marks || job in st.deadLetters || Carries(Retry(job)) in st.stream
  }

  ghost predicate AckedHandled(st: Store) {
    forall m :: m in st.acked && m < |st.stream| && st.stream[m].Carries? ==> Handled(st, st.stream[m].job)
  }

  /** `job` was submitted, or succeeds an enqueued job that failed in a retryable way with attempts left. */
  ghost predicate Born(cfg: Config, st: Store, job: Job) {
    job in st.submitted ||
    exists p :: (p, Retrying) in st.marks && job == Retry(p) && Carries(p) in st.stream && p.attempts + 1 < cfg.maxAttempts
  }

  ghost predicate Origins(cfg: Config, st: Store) {
    (forall job :: Carries(job) in st.stream ==> Born(cfg, st, job)) &&
    (forall job :: job in st.submitted ==> Carries(job) in st.stream)
  }

  ghost predicate StoreFacts(cfg: Config, st: Store) {
    Delivery(st) && AckedHandled(st) && Origins(cfg, st)
  }

  /** What a worker has done by the time it reaches each phase. */
  ghost predicate WorkFacts(cfg: Config, st: Store, w: Worker) {
    match w
    case Idle => true
    case Trying(msgs, _) => forall m :: m in msgs ==> m < st.delivered
    case Working(c, phase) =>
      c.msg < st.delivered && c.msg < |st.stream| && st.stream[c.msg] == Carries(c.job) &&
      (phase.Recorded? ==> (c.job, Succeeded) in st.marks) &&
      (phase.Buried? ==> c.job in st.deadLetters) &&
      (phase.RetryMarked? ==> (c.job, Retrying) in st.marks && c.job.attempts + 1 < cfg.maxAttempts) &&
      (phase.Requeued? || phase.Listed? ==> Carries(Retry(c.job)) in st.stream)
  }

  ghost predicate Holds(st: Store, c: Claim) {
    c.job.jobId in st.leases && st.leases[c.job.jobId] == Lease(c.token, c.deadline)
  }

  /** Until its deadline passes, a claim's lease is in place; it never has another deadline. */
  ghost predicate LeaseFacts(st: Store, w: Worker) {
    w.Working? ==>
      var c := w.claim;
      c.token < st.nextToken &&
      (st.clock < c.deadline ==> Holds(st, c)) &&
      (c.job.jobId in st.leases && st.leases[c.job.jobId].token == c.token ==> Holds(st, c))
  }

  ghost predicate TokensIssued(st: Store) {
    forall id :: id in st.leases ==> st.leases[id].token < st.nextToken
  }

  ghost predicate TokensDiffer(ws: seq<Worker>) {
    forall i, j :: 0 <= i < j < |ws| && ws[i].Working? && ws[j].Working? ==> ws[i].claim.token != ws[j].claim.token
  }

  ghost predicate Inv(cfg: Config, s: System) {
    StoreFacts(cfg, s.store) && TokensIssued(s.store) && TokensDiffer(s.workers) &&
    forall w :: w in s.workers ==> WorkFacts(cfg, s.store, w) && LeaseFacts(s.store, w)
  }

  // ---------------------------------------------------------------- each step keeps them

  lemma CallGrows(cfg: Config, st: Store, c: Claim, phase: Phase)
    requires !phase.Executing?
    ensures Grows(st, NextCall(cfg, st, c, phase).store)
  {
    hide ShouldRetry, StartLost, Retry;
  }

  lemma StepGrows(cfg: Config, st: Store, w: Worker, a: WorkerAction)
    requires CanStep(cfg, st, w, a)
    ensures Grows(st, Step(cfg, st, w, a).store)
  {
    hide NextCall, ShouldRetry, LeaseLost, StartLost, Retry;
    if a.Call? {
      CallGrows(cfg, st, w.claim, w.phase);
    }
  }

  lemma WorkFactsStay(cfg: Config, a: Store, b: Store, w: Worker)
    requires WorkFacts(cfg, a, w) && Grows(a, b)
    ensures WorkFacts(cfg, b, w)
  {
  }

  lemma CallWorkFacts(cfg: Config, st: Store, c: Claim, phase: Phase)
    requires !phase.Executing? && WorkFacts(cfg, st, Working(c, phase)) && Delivery(st)
    ensures var e := NextCall(cfg, st, c, phase); WorkFacts(cfg, e.store, e.worker)
  {
    hide ShouldRetry, StartLost, Retry;
  }

  lemma StepWorkFacts(cfg: Config, st: Store, w: Worker, a: WorkerAction)
    requires CanStep(cfg, st, w, a) && WorkFacts(cfg, st, w) && Delivery(st)
    ensures var e := Step(cfg, st, w, a); WorkFacts(cfg, e.store, e.worker)
  {
    hide NextCall, LeaseLost, Retry;
    if a.AutoClaim? {
      assert forall m :: m in XAutoClaim(st, cfg.visibility, SCAN_COUNT).value ==> m < st.delivered;
    }
    if a.NextMessage? {
      assert w.msgs[0] in w.msgs;
      assert forall m :: m in w.msgs[1..] ==> m in w.msgs;
    }
    if a.Call? {
      CallWorkFacts(cfg, st, w.claim, w.phase);
    }
  }

  lemma StepDelivery(cfg: Config, st: Store, w: Worker, a: WorkerAction)
    requires CanStep(cfg, st, w, a) && Delivery(st)
    ensures Delivery(Step(cfg, st, w, a).store)
  {
    hide ShouldRetry, LeaseLost, StartLost, Retry;
  }

  lemma CallAckedHandled(cfg: Config, st: Store, c: Claim, phase: Phase)
    requires !phase.Executing? && WorkFacts(cfg, st, Working(c, phase)) && Delivery(st) && AckedHandled(st)
    ensures AckedHandled(NextCall(cfg, st, c, phase).store)
  {
    hide ShouldRetry, StartLost, Retry;
  }

  lemma StepAckedHandled(cfg: Config, st: Store, w: Worker, a: WorkerAction)
    requires CanStep(cfg, st, w, a) && WorkFacts(cfg, st, w) && Delivery(st) && AckedHandled(st)
    ensures AckedHandled(Step(cfg, st, w, a).store)
  {
    hide NextCall, LeaseLost, Retry;
    if a.Call? {
      CallAckedHandled(cfg, st, w.claim, w.phase);
    }
  }

  lemma CallOrigins(cfg: Config, st: Store, c: Claim, phase: Phase)
    requires !phase.Executing? && WorkFacts(cfg, st, Working(c, phase)) && Origins(cfg, st)
    ensures Origins(cfg, NextCall(cfg, st, c, phase).store)
  {
    hide ShouldRetry, Retry;
  }

  lemma StepOrigins(cfg: Config, st: Store, w: Worker, a: WorkerAction)
    requires CanStep(cfg, st, w, a) && WorkFacts(cfg, st, w) && Origins(cfg, st)
    ensures Origins(cfg, Step(cfg, st, w, a).store)
  {
    hide NextCall, LeaseLost, Retry;
    if a.Call? {
      CallOrigins(cfg, st, w.claim, w.phase);
    }
  }

  lemma CallLease(cfg: Config, st: Store, c: Claim, phase: Phase)
    requires !phase.Executing? && LeaseFacts(st, Working(c, phase)) && TokensIssued(st)
    ensures var e := NextCall(cfg, st, c, phase); LeaseFacts(e.store, e.worker) && TokensIssued(e.store)
  {
    hide ShouldRetry, StartLost, Retry;
  }

  lemma TryLease(cfg: Config, st: Store, msgs: seq<nat>, direct: bool)
    requires msgs != [] && msgs[0] < |st.stream| && TokensIssued(st)
    ensures var e := TryMessage(cfg, st, msgs, direct); LeaseFacts(e.store, e.worker) && TokensIssued(e.store)
  {
  }

  lemma StepOwnLease(cfg: Config, st: Store, w: Worker, a: WorkerAction)
    requires CanStep(cfg, st, w, a) && LeaseFacts(st, w) && TokensIssued(st)
    ensures var e := Step(cfg, st, w, a); LeaseFacts(e.store, e.worker) && TokensIssued(e.store)
  {
    hide NextCall, TryMessage, LeaseLost;
    if a.Call? {
      CallLease(cfg, st, w.claim, w.phase);
    } else if a.NextMessage? {
      TryLease(cfg, st, w.msgs, w.direct);
    }
  }

  lemma StepOtherLease(cfg: Config, st: Store, w: Worker, a: WorkerAction, v: Worker)
    requires CanStep(cfg, st, w, a) && LeaseFacts(st, w) && LeaseFacts(st, v)
    requires w.Working? && v.Working? ==> w.claim.token != v.claim.token
    ensures LeaseFacts(Step(cfg, st, w, a).store, v)
  {
    hide ShouldRetry, LeaseLost, StartLost, Retry;
  }

  lemma StepInv(cfg: Config, s: System, w: nat, a: WorkerAction)
    requires Inv(cfg, s) && Enabled(cfg, s, Do(w, a))
    ensures Inv(cfg, Apply(cfg, s, Do(w, a)))
  {
    var st, me := s.store, s.workers[w];
    var e := Step(cfg, st, me, a);
    var t := Apply(cfg, s, Do(w, a));
    StepGrows(cfg, st, me, a);
    StepWorkFacts(cfg, st, me, a);
    StepDelivery(cfg, st, me, a);
    StepAckedHandled(cfg, st, me, a);
    StepOrigins(cfg, st, me, a);
    StepOwnLease(cfg, st, me, a);
    StepTokens(cfg, s, w, a);
    hide Step, WorkFacts, LeaseFacts, StoreFacts, Grows;
    forall i | 0 <= i < |t.workers|
      ensures WorkFacts(cfg, t.store, t.workers[i]) && LeaseFacts(t.store, t.workers[i])
    {
      if i != w {
        var v := s.workers[i];
        assert v in s.workers && t.workers[i] == v;
        WorkFactsStay(cfg, st, e.store, v);
        StepOtherLease(cfg, st, me, a, v);
      }
    }
  }

  lemma StepToken(cfg: Config, st: Store, w: Worker, a: WorkerAction)
    requires CanStep(cfg, st, w, a)
    ensures var v := Step(cfg, st, w, a).worker;
      v.Working? ==> v.claim.token == st.nextToken || (w.Working? && v.claim.token == w.claim.token)
  {
    hide ShouldRetry, LeaseLost, StartLost, Retry;
  }

  lemma StepTokens(cfg: Config, s: System, w: nat, a: WorkerAction)
    requires Inv(cfg, s) && Enabled(cfg, s, Do(w, a))
    ensures TokensDiffer(Apply(cfg, s, Do(w, a)).workers)
  {
    StepToken(cfg, s.store, s.workers[w], a);
    hide Step, WorkFacts, StoreFacts;
    forall i | 0 <= i < |s.workers| && s.workers[i].Working?
      ensures s.workers[i].claim.token < s.store.nextToken
    {
      assert s.workers[i] in s.workers;
      assert LeaseFacts(s.store, s.workers[i]);
    }
  }
}
