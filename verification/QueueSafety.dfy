/** What every reachable state of the queue protocol satisfies. */
module QueueSafety {
  import opened Text
  import opened FailurePolicy
  import opened JobStore
  import opened QueueMachine

  // ---------------------------------------------------------------- the invariant over whole runs

  lemma ClientInv(cfg: Config, s: System, a: Action)
    requires Inv(cfg, s) && !a.Do?
    ensures Inv(cfg, Apply(cfg, s, a))
  {
    var t := Apply(cfg, s, a);
    hide Retry;
    forall w | w in s.workers
      ensures WorkFacts(cfg, t.store, w) && LeaseFacts(t.store, w)
    {
      WorkFactsStay(cfg, s.store, t.store, w);
    }
  }

  lemma {:induction false} RunsInv(cfg: Config, s: System, acts: seq<Action>, t: System)
    requires Inv(cfg, s) && Runs(cfg, s, acts, t)
    ensures Inv(cfg, t)
    decreases |acts|
  {
    if acts != [] {
      if acts[0].Do? {
        StepInv(cfg, s, acts[0].worker, acts[0].action);
      } else {
        ClientInv(cfg, s, acts[0]);
      }
      RunsInv(cfg, Apply(cfg, s, acts[0]), acts[1..], t);
    }
  }

  lemma ReachableInv(cfg: Config, s: System)
    requires Reachable(cfg, s)
    ensures Inv(cfg, s)
  {
    var n, acts :| Runs(cfg, Initial(n), acts, s);
    RunsInv(cfg, Initial(n), acts, s);
  }

  lemma {:induction false} RunsJoin(cfg: Config, s: System, a: seq<Action>, t: System, b: seq<Action>, u: System)
    requires Runs(cfg, s, a, t) && Runs(cfg, t, b, u)
    ensures Runs(cfg, s, a + b, u)
    decreases |a|
  {
    if a == [] {
      assert a + b == b;
    } else {
      RunsJoin(cfg, Apply(cfg, s, a[0]), a[1..], t, b, u);
      assert (a + b)[1..] == a[1..] + b;
    }
  }

  lemma ReachMore(cfg: Config, s: System, acts: seq<Action>, t: System)
    requires Reachable(cfg, s) && Runs(cfg, s, acts, t)
    ensures Reachable(cfg, t)
  {
    var n, before :| Runs(cfg, Initial(n), before, s);
    RunsJoin(cfg, Initial(n), before, s, acts, t);
  }

  lemma ReachStep(cfg: Config, s: System, a: Action)
    requires Reachable(cfg, s) && Enabled(cfg, s, a)
    ensures Reachable(cfg, Apply(cfg, s, a))
  {
    assert [a][1..] == [];
    ReachMore(cfg, s, [a], Apply(cfg, s, a));
  }

  // ---------------------------------------------------------------- no job is lost

  predicate Unacked(st: Store, m: nat, job: Job) {
    m < |st.stream| && m !in st.acked && st.stream[m] == Carries(job)
  }

  /** `job` still has an unacknowledged entry, or its success is recorded, or it is a dead letter. */
  ghost predicate Settled(st: Store, job: Job) {
    (exists m :: Unacked(st, m, job)) || (job, Succeeded) in st.marks || job in st.deadLetters
  }

  function MostAttempts(entries: seq<Entry>): (n: nat)
    ensures forall job :: Carries(job) in entries ==> job.attempts <= n
  {
    if entries == [] then 0
    else
      var n := MostAttempts(entries[1..]);
      if entries[0].Carries? && entries[0].job.attempts > n then entries[0].job.attempts else n
  }

  lemma {:induction false} FollowLineage(st: Store, base: Job, j: nat) returns (k: nat)
    requires AckedHandled(st) && Carries(Lineage(base, j)) in st.stream
    ensures k >= j && Carries(Lineage(base, k)) in st.stream && Settled(st, Lineage(base, k))
    decreases MostAttempts(st.stream) - base.attempts - j
  {
    var job := Lineage(base, j);
    k := j;
    if !Settled(st, job) {
      var m :| 0 <= m < |st.stream| && st.stream[m] == Carries(job);
      assert !Unacked(st, m, job);
      assert Handled(st, job);
      LineageIds(base, j, j);
      LineageIds(base, j + 1, j + 1);
      assert Lineage(base, j + 1) == Retry(job);
      assert Carries(Retry(job)) in st.stream;
      k := FollowLineage(st, base, j + 1);
    }
  }

  /**
   No job is lost.  In every reachable state, for each job a client submitted, some job of its lineage
   has an unacknowledged entry, a recorded success, or a dead letter.
   */
  lemma NoJobLost(cfg: Config, s: System, base: Job)
    requires Reachable(cfg, s) && base in s.store.submitted
    ensures exists k: nat :: Settled(s.store, Lineage(base, k))
  {
    ReachableInv(cfg, s);
    assert Lineage(base, 0) == base;
    var k := FollowLineage(s.store, base, 0);
  }

  /** An unacknowledged entry is still undelivered or on the pending list, where XAUTOCLAIM looks. */
  lemma UnackedIsRecoverable(cfg: Config, s: System, m: nat, job: Job)
    requires Reachable(cfg, s) && Unacked(s.store, m, job)
    ensures m >= s.store.delivered || m in s.store.pending
  {
    ReachableInv(cfg, s);
  }

  // ---------------------------------------------------------------- leases

  predicate Executes(s: System, w: nat, id: string) {
    w < |s.workers| && s.workers[w].Working? && s.workers[w].phase.Executing? && s.workers[w].claim.job.jobId == id
  }

  /** The lease of worker `w` ran out `lease_ttl` after its last renewal. */
  predicate Overdue(s: System, w: nat)
    requires w < |s.workers| && s.workers[w].Working?
  {
    s.store.clock >= s.workers[w].claim.deadline
  }

  /**
   Exclusivity: of two workers with a claim on the same job id, in whatever phase, at least one has
   outlived its lease.
   */
  lemma OneHolder(cfg: Config, s: System, v: nat, w: nat)
    requires Reachable(cfg, s) && v < |s.workers| && w < |s.workers| && v != w
    requires s.workers[v].Working? && s.workers[w].Working?
    requires s.workers[v].claim.job.jobId == s.workers[w].claim.job.jobId
    ensures Overdue(s, v) || Overdue(s, w)
  {
    ReachableInv(cfg, s);
    assert s.workers[v] in s.workers && s.workers[w] in s.workers;
    assert LeaseFacts(s.store, s.workers[v]) && LeaseFacts(s.store, s.workers[w]);
  }

  /** If every executing worker renews in time, no two workers execute the same job id at once. */
  lemma NoOverlap(cfg: Config, s: System, v: nat, w: nat, id: string)
    requires Reachable(cfg, s)
    requires forall x :: 0 <= x < |s.workers| && s.workers[x].Working? && s.workers[x].phase.Executing? ==> !Overdue(s, x)
    requires Executes(s, v, id) && Executes(s, w, id)
    ensures v == w
  {
    if v != w {
      OneHolder(cfg, s, v, w);
    }
  }

  /** No step of another worker changes the lease of a worker whose deadline has not passed. */
  lemma StaleHolderHarmless(cfg: Config, s: System, v: nat, w: nat, a: WorkerAction)
    requires Reachable(cfg, s) && Enabled(cfg, s, Do(v, a))
    requires w < |s.workers| && v != w && s.workers[w].Working? && !Overdue(s, w)
    ensures var c := s.workers[w].claim;
      var t := Apply(cfg, s, Do(v, a)).store;
      c.job.jobId in t.leases && t.leases[c.job.jobId] == Lease(c.token, c.deadline)
      && Current(t, c.job.jobId) == Some(c.token)
  {
    ReachableInv(cfg, s);
    var me, other := s.workers[v], s.workers[w];
    assert me in s.workers && other in s.workers;
    StepOtherLease(cfg, s.store, me, a, other);
    StepClock(cfg, s.store, me, a);
    hide Step;
  }

  lemma StepClock(cfg: Config, st: Store, w: Worker, a: WorkerAction)
    requires CanStep(cfg, st, w, a)
    ensures Step(cfg, st, w, a).store.clock == st.clock
  {
    hide ShouldRetry, Retry, LeaseLost, StartLost;
  }

  // ---------------------------------------------------------------- retries are bounded

  /** Every entry belongs to the lineage of a submitted job. */
  lemma {:induction false} EntryLineage(cfg: Config, st: Store, job: Job) returns (base: Job, k: nat)
    requires Origins(cfg, st) && Carries(job) in st.stream
    ensures base in st.submitted && job == Lineage(base, k)
    ensures k > 0 ==> job.attempts < cfg.maxAttempts
    decreases job.attempts
  {
    assert Born(cfg, st, job);
    if job in st.submitted {
      base, k := job, 0;
    } else {
      var p :| (p, Retrying) in st.marks && job == Retry(p) && Carries(p) in st.stream && p.attempts + 1 < cfg.maxAttempts;
      base, k := EntryLineage(cfg, st, p);
      k := k + 1;
    }
  }

  function Limit(cfg: Config): nat {
    if cfg.maxAttempts < 1 then 1 else cfg.maxAttempts
  }

  /** If jobs are submitted with attempts 0, no entry ever has `max_attempts` attempts or more. */
  lemma AttemptsBounded(cfg: Config, s: System, job: Job)
    requires Reachable(cfg, s) && Carries(job) in s.store.stream
    requires forall b :: b in s.store.submitted ==> b.attempts == 0
    ensures job.attempts < Limit(cfg)
    ensures exists base :: base in s.store.submitted && job == Lineage(base, job.attempts)
  {
    ReachableInv(cfg, s);
    var base, k := EntryLineage(cfg, s.store, job);
    LineageIds(base, k, k);
  }

  /** The ids under which a submitted job and its retries have been enqueued. */
  ghost function IdsOf(st: Store, base: Job): set<string> {
    set i, k | 0 <= i < |st.stream| && 0 <= k <= MostAttempts(st.stream) && st.stream[i] == Carries(Lineage(base, k))
      :: st.stream[i].job.jobId
  }

  ghost function FirstIds(base: Job, n: nat): set<string> {
    if n == 0 then {} else FirstIds(base, n - 1) + {Lineage(base, n - 1).jobId}
  }

  lemma {:induction false} FirstIdsSize(base: Job, n: nat)
    ensures |FirstIds(base, n)| <= n
    ensures forall k :: 0 <= k < n ==> Lineage(base, k).jobId in FirstIds(base, n)
  {
    if n > 0 {
      FirstIdsSize(base, n - 1);
    }
  }

  /**
   A submitted job leads to at most `max_attempts` distinct job ids, however often workers crash
   between enqueuing a successor and acknowledging its predecessor.
   */
  lemma IdsBounded(cfg: Config, s: System, base: Job)
    requires Reachable(cfg, s) && base in s.store.submitted
    requires forall b :: b in s.store.submitted ==> b.attempts == 0
    ensures |IdsOf(s.store, base)| <= Limit(cfg)
  {
    var ids, first := IdsOf(s.store, base), FirstIds(base, Limit(cfg));
    FirstIdsSize(base, Limit(cfg));
    forall id | id in ids
      ensures id in first
    {
      var i, k :| 0 <= i < |s.store.stream| && 0 <= k <= MostAttempts(s.store.stream)
        && s.store.stream[i] == Carries(Lineage(base, k)) && id == s.store.stream[i].job.jobId;
      AttemptsBounded(cfg, s, Lineage(base, k));
      LineageIds(base, k, k);
    }
    SubsetSize(ids, first);
  }

  lemma {:induction false} SubsetSize(a: set<string>, b: set<string>)
    requires a <= b
    ensures |a| <= |b|
  {
    if a != {} {
      var x :| x in a;
      SubsetSize(a - {x}, b - {x});
    }
  }

  /** A successor is only enqueued after a retryable failure of an enqueued job with attempts left. */
  lemma SuccessorHasCause(cfg: Config, s: System, job: Job)
    requires Reachable(cfg, s) && Carries(job) in s.store.stream && job !in s.store.submitted
    ensures exists p :: job == Retry(p) && Carries(p) in s.store.stream && (p, Retrying) in s.store.marks
                        && p.attempts + 1 < cfg.maxAttempts
  {
    ReachableInv(cfg, s);
    assert Born(cfg, s.store, job);
  }

  /** The mark that precedes a successor is written only by a worker whose run failed in a retryable way. */
  lemma RetryMarkCause(cfg: Config, st: Store, w: Worker, a: WorkerAction, p: Job)
    requires CanStep(cfg, st, w, a)
    requires (p, Retrying) !in st.marks && (p, Retrying) in Step(cfg, st, w, a).store.marks
    ensures a.Call? && w.Working? && w.claim.job == p && w.phase.Failed? && !DeadEnd(cfg, p, w.phase.err)
  {
    hide ShouldRetry, Retry, LeaseLost, StartLost;
  }

  // ---------------------------------------------------------------- the job hash

  /**
   Exactly which steps take a "succeeded" out of a job hash: a later claimer of the same id writing
   "running" or its own failure, and the worker that enqueued the job listing it as queued afterwards.
   */
  lemma SuccessOverwritten(cfg: Config, st: Store, w: Worker, a: WorkerAction, id: string)
    requires CanStep(cfg, st, w, a) && id in st.status && st.status[id] == Succeeded
    ensures var t := Step(cfg, st, w, a).store;
      id in t.status &&
      (t.status[id] != Succeeded <==>
        a.Call? && (((w.phase.Held? || w.phase.Failed?) && w.claim.job.jobId == id)
                    || (w.phase.Requeued? && Retry(w.claim.job).jobId == id)))
  {
    hide ShouldRetry, Retry, LeaseLost, StartLost;
  }

  lemma Take(cfg: Config, s: System, w: nat, a: WorkerAction, e: Effect)
    requires Reachable(cfg, s) && Enabled(cfg, s, Do(w, a)) && e == Step(cfg, s.store, s.workers[w], a)
    ensures Reachable(cfg, System(e.store, s.workers[w := e.worker]))
  {
    ReachStep(cfg, s, Do(w, a));
  }

  /** An idle worker reads the next message and takes the lease on its job. */
  lemma ClaimNew(cfg: Config, s: System, w: nat, job: Job) returns (t: System)
    requires Reachable(cfg, s) && w < |s.workers| && s.workers[w].Idle?
    requires s.store.delivered < |s.store.stream| && s.store.stream[s.store.delivered] == Carries(job)
    requires Current(s.store, job.jobId).None?
    ensures Reachable(cfg, t)
    ensures var st := s.store;
      var deadline := st.clock + cfg.leaseTtl;
      t == System(st.(delivered := st.delivered + 1, pending := st.pending[st.delivered := st.clock],
                      leases := st.leases[job.jobId := Lease(st.nextToken, deadline)], nextToken := st.nextToken + 1),
                  s.workers[w := Working(Claim(job, st.delivered, st.nextToken, deadline, false, true), Held)])
  {
    var st := s.store;
    if StaleIds(st, cfg.visibility, st.delivered) == [] {
      assert XAutoClaim(st, cfg.visibility, SCAN_COUNT) == Reply(st, []);
      Take(cfg, s, w, AutoClaim, Effect(st, Trying([], false)));
    } else {
      Take(cfg, s, w, ScanFault, Effect(st, Trying([], false)));
    }
    var s1 := System(st, s.workers[w := Trying([], false)]);
    var st2 := XReadGroup(st).store;
    Take(cfg, s1, w, ReadGroup, Effect(st2, Trying([st.delivered], true)));
    var s2 := System(st2, s1.workers[w := Trying([st.delivered], true)]);
    var e3 := TryMessage(cfg, st2, [st.delivered], true);
    Take(cfg, s2, w, NextMessage, e3);
    t := System(e3.store, s2.workers[w := e3.worker]);
    assert s2.workers[w := e3.worker] == s.workers[w := e3.worker];
  }

  /** Two more calls and the run executes. */
  lemma StartRun(cfg: Config, s: System, w: nat) returns (t: System)
    requires Reachable(cfg, s) && w < |s.workers| && s.workers[w].Working? && s.workers[w].phase == Held
    requires Current(s.store, s.workers[w].claim.job.jobId) == Some(s.workers[w].claim.token)
    requires s.workers[w].claim.deadline == s.store.clock + cfg.leaseTtl
    requires s.store.leases[s.workers[w].claim.job.jobId].deadline == s.store.clock + cfg.leaseTtl
    ensures Reachable(cfg, t)
    ensures t == System(HSet(s.store, s.workers[w].claim.job, Running), s.workers[w := Working(s.workers[w].claim, Executing)])
  {
    var c := s.workers[w].claim;
    var st := HSet(s.store, c.job, Running);
    Take(cfg, s, w, Call, Effect(st, Working(c, Marked)));
    var s1 := System(st, s.workers[w := Working(c, Marked)]);
    assert Renew(st, c.job.jobId, c.token, cfg.leaseTtl).store == st;
    Take(cfg, s1, w, Call, Effect(st, Working(c, Executing)));
    t := System(st, s1.workers[w := Working(c, Executing)]);
    assert t.workers == s.workers[w := Working(c, Executing)];
  }

  lemma TakeCall(cfg: Config, s: System, w: nat, next: Store, phase: Phase) returns (t: System)
    requires Reachable(cfg, s) && w < |s.workers| && s.workers[w].Working? && !s.workers[w].phase.Executing?
    requires NextCall(cfg, s.store, s.workers[w].claim, s.workers[w].phase) == Effect(next, Working(s.workers[w].claim, phase))
    ensures Reachable(cfg, t) && t == System(next, s.workers[w := Working(s.workers[w].claim, phase)])
  {
    Take(cfg, s, w, Call, Effect(next, Working(s.workers[w].claim, phase)));
    t := System(next, s.workers[w := Working(s.workers[w].claim, phase)]);
  }

  lemma RetryIdDiffers(job: Job)
    ensures Retry(job).jobId != job.jobId
  {
    assert |Retry(job).jobId| > |job.jobId|;
  }

  lemma NoWords()
    ensures ShouldRetry(LeaseLost(""))
  {
    hide ShouldRetry;
    MadeIdRetried("");
  }

  /**
   The success of a retry can vanish from its job hash without any lease running out: the successor is
   on the stream before it is listed, and another worker may finish it in between.  Then every message
   is acknowledged, nothing is a dead letter, and the hash says "queued".
   */
  lemma ListedAfterSuccess(cfg: Config, job: Job) returns (s: System)
    requires cfg.leaseTtl > 0 && cfg.maxAttempts > 1 && job.attempts == 0
    ensures Reachable(cfg, s) && s.store.submitted == {job} && s.store.clock == 0 && s.store.deadLetters == []
    ensures s.store.stream == [Carries(job), Carries(Retry(job))] && s.store.acked == {0, 1}
    ensures (Retry(job), Succeeded) in s.store.marks
    ensures Retry(job).jobId in s.store.status && s.store.status[Retry(job).jobId] == Queued
  {
    var s3 := StartFirst(cfg, job);
    var s6 := FailFirst(cfg, s3, job);
    hide Reachable, Retry;
    s := FinishThenList(cfg, s6, job, s6.workers[0].claim);
  }

  lemma StartFirst(cfg: Config, job: Job) returns (t: System)
    requires cfg.leaseTtl > 0
    ensures Reachable(cfg, t)
    ensures t.workers == [Working(Claim(job, 0, 0, cfg.leaseTtl, false, true), Executing), Idle]
    ensures t.store == Store(0, [Carries(job)], 1, map[0 := 0], {}, map[job.jobId := Lease(0, cfg.leaseTtl)], 1, [],
                             map[job.jobId := Running], {job}, {(job, Running)})
  {
    hide Retry;
    var s0 := Initial(2);
    assert Runs(cfg, s0, [], s0);
    ReachStep(cfg, s0, Submit(job));
    var s1 := Apply(cfg, s0, Submit(job));
    var s2 := ClaimNew(cfg, s1, 0, job);
    t := StartRun(cfg, s2, 0);
  }

  lemma FailFirst(cfg: Config, s: System, job: Job) returns (t: System)
    requires Reachable(cfg, s) && cfg.maxAttempts > 1 && job.attempts == 0
    requires |s.workers| == 2 && s.workers[0].Working? && s.workers[0].phase == Executing && s.workers[0].claim.job == job
    ensures Reachable(cfg, t) && t.workers == s.workers[0 := Working(s.workers[0].claim, Requeued)]
    ensures t.store == XAdd(HSet(s.store, job, Retrying), Carries(Retry(job)))
  {
    NoWords();
    hide Retry, ShouldRetry, LeaseLost, Reachable;
    var c, err := s.workers[0].claim, LeaseLost("");
    Take(cfg, s, 0, Finish(Some(err)), Effect(s.store, Working(c, Phase.Failed(err))));
    var s4 := System(s.store, s.workers[0 := Working(c, Phase.Failed(err))]);
    var s5 := TakeCall(cfg, s4, 0, HSet(s.store, job, Retrying), RetryMarked);
    t := TakeCall(cfg, s5, 0, XAdd(s5.store, Carries(Retry(job))), Requeued);
  }

  lemma FinishThenList(cfg: Config, s6: System, job: Job, c: Claim) returns (s: System)
    requires Reachable(cfg, s6) && cfg.leaseTtl > 0 && c.job == job && c.msg == 0
    requires s6.workers == [Working(c, Requeued), Idle]
    requires s6.store.stream == [Carries(job), Carries(Retry(job))] && s6.store.delivered == 1
    requires s6.store.pending == map[0 := 0] && s6.store.acked == {} && s6.store.clock == 0
    requires s6.store.leases.Keys == {job.jobId}
    ensures Reachable(cfg, s) && s.store.submitted == s6.store.submitted && s.store.clock == 0
    ensures s.store.deadLetters == s6.store.deadLetters
    ensures s.store.stream == s6.store.stream && s.store.acked == {0, 1}
    ensures (Retry(job), Succeeded) in s.store.marks
    ensures Retry(job).jobId in s.store.status && s.store.status[Retry(job).jobId] == Queued
  {
    var next := Retry(job);
    RetryIdDiffers(job);
    hide Retry, Reachable, ShouldRetry, LeaseLost, StartLost;
    var s7 := ClaimNew(cfg, s6, 1, next);
    var s8 := StartRun(cfg, s7, 1);
    var d := s8.workers[1].claim;
    Take(cfg, s8, 1, Finish(None), Effect(s8.store, Working(d, Done)));
    var s9 := System(s8.store, s8.workers[1 := Working(d, Done)]);
    var s10 := TakeCall(cfg, s9, 1, HSet(s9.store, next, Succeeded), Recorded);
    var s11 := TakeCall(cfg, s10, 1, XAck(s10.store, 1), Releasing);
    var s12 := TakeCall(cfg, s11, 0, HSet(s11.store, next, Queued), Listed);
    s := TakeCall(cfg, s12, 0, XAck(s12.store, 0), Releasing);
  }
}
