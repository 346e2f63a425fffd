/** Which failures are retried and which are buried, over whole runs of the queue protocol. */
module QueueFailures {
  import opened Text
  import opened FailurePolicy
  import opened JobStore
  import opened QueueMachine
  import opened QueueSafety

  /** The state in which action `k` of the run is carried out. */
  function At(cfg: Config, s: System, acts: seq<Action>, k: nat): System
    requires k <= |acts|
    decreases k
  {
    if k == 0 || !Enabled(cfg, s, acts[0]) then s else At(cfg, Apply(cfg, s, acts[0]), acts[1..], k - 1)
  }

  // ---------------------------------------------------------------- a final failure

  /** The claim `c` after a final failure: dead letter first, then the acknowledgement, or straight to the end. */
  predicate Ending(w: Worker, c: Claim, err: Failure) {
    w.Working? && w.claim.job == c.job && w.claim.msg == c.msg && w.claim.token == c.token &&
    (w.phase == Failed(err) || w.phase.DeadMarked? || w.phase.Buried? || w.phase.Releasing?)
  }

  predicate HasToken(w: Worker, token: nat) {
    w.Working? && w.claim.token == token
  }

  /** Each call of an ending claim: no entry, no "retrying" mark, no acknowledgement before the dead letter. */
  lemma EndingStep(cfg: Config, st: Store, w: Worker, a: WorkerAction, c: Claim, err: Failure)
    requires CanStep(cfg, st, w, a) && Ending(w, c, err) && DeadEnd(cfg, c.job, err)
    ensures var e := Step(cfg, st, w, a);
            (Ending(e.worker, c, err) || e.worker.Idle?) &&
            e.store.stream == st.stream && e.store.marks <= st.marks + {(c.job, DeadLettered)} &&
            (e.store.deadLetters == if a.Call? && w.phase.DeadMarked? then st.deadLetters + [c.job] else st.deadLetters) &&
            (e.store.acked != st.acked ==> a.Call? && w.phase.Buried? && e.store.acked == st.acked + {c.msg})
  {
    hide ShouldRetry, Retry, LeaseLost, StartLost;
  }

  /** Whatever the others do, a worker that gave up a claim never has its token again. */
  lemma {:induction false} EndingRun(cfg: Config, s: System, acts: seq<Action>, t: System, w: nat, c: Claim, err: Failure)
    requires Inv(cfg, s) && Runs(cfg, s, acts, t) && w < |s.workers| && c.token < s.store.nextToken
    requires HasToken(s.workers[w], c.token) ==> Ending(s.workers[w], c, err)
    requires DeadEnd(cfg, c.job, err)
    ensures w < |t.workers| && (HasToken(t.workers[w], c.token) ==> Ending(t.workers[w], c, err))
    decreases |acts|
  {
    if acts != [] {
      hide DeadEnd, WorkFacts, LeaseFacts, StoreFacts, Ending, Step;
      var a := acts[0];
      if a.Do? {
        StepInv(cfg, s, a.worker, a.action);
        StepGrows(cfg, s.store, s.workers[a.worker], a.action);
        if a.worker == w {
          StepToken(cfg, s.store, s.workers[w], a.action);
          if HasToken(s.workers[w], c.token) {
            EndingStep(cfg, s.store, s.workers[w], a.action, c, err);
          }
        }
      } else {
        ClientInv(cfg, s, a);
      }
      EndingRun(cfg, Apply(cfg, s, a), acts[1..], t, w, c, err);
    }
  }

  /**
   Once a worker has failed in a way that is not retried, then after any run of all workers and clients, as long as
   it still has the claim, whatever it does next neither enqueues an entry nor marks the job for a retry, and the
   message is acknowledged only after the job went to the dead letters.
   */
  lemma FinalFailureBuries(cfg: Config, s: System, acts: seq<Action>, t: System, w: nat, c: Claim, err: Failure,
                           a: WorkerAction)
    requires Reachable(cfg, s) && Runs(cfg, s, acts, t) && w < |s.workers| && s.workers[w] == Working(c, Phase.Failed(err))
    requires DeadEnd(cfg, c.job, err)
    requires w < |t.workers| && HasToken(t.workers[w], c.token) && Enabled(cfg, t, Do(w, a))
    ensures Ending(t.workers[w], c, err)
    ensures var u := Apply(cfg, t, Do(w, a)).store;
            u.stream == t.store.stream && u.marks <= t.store.marks + {(c.job, DeadLettered)} &&
            (c.msg in u.acked && c.msg !in t.store.acked ==> c.job in t.store.deadLetters)
  {
    ReachableInv(cfg, s);
    assert s.workers[w] in s.workers && LeaseFacts(s.store, s.workers[w]);
    EndingRun(cfg, s, acts, t, w, c, err);
    EndingStep(cfg, t.store, t.workers[w], a, c, err);
    RunsInv(cfg, s, acts, t);
    assert t.workers[w] in t.workers && WorkFacts(cfg, t.store, t.workers[w]);
  }

  // ---------------------------------------------------------------- a retry

  /** The action is a worker's call in the failure branch of `p`, after a failure that is retried. */
  predicate Retries(cfg: Config, s: System, a: Action, p: Job) {
    FailsWith(s, a, p) && !DeadEnd(cfg, p, s.workers[a.worker].phase.err)
  }

  predicate FailsWith(s: System, a: Action, p: Job) {
    a.Do? && a.action.Call? && a.worker < |s.workers| && s.workers[a.worker].Working? &&
    s.workers[a.worker].claim.job == p && s.workers[a.worker].phase.Failed?
  }

  lemma {:induction false} MarkTrace(cfg: Config, s: System, acts: seq<Action>, t: System, p: Job) returns (k: nat)
    requires Runs(cfg, s, acts, t) && (p, Retrying) !in s.store.marks && (p, Retrying) in t.store.marks
    ensures k < |acts| && Retries(cfg, At(cfg, s, acts, k), acts[k], p)
    decreases |acts|
  {
    hide Step, ShouldRetry;
    var a := acts[0];
    var next := Apply(cfg, s, a);
    if (p, Retrying) in next.store.marks {
      RetryMarkCause(cfg, s.store, s.workers[a.worker], a.action, p);
      k := 0;
    } else {
      k := MarkTrace(cfg, next, acts[1..], t, p);
      k := k + 1;
    }
  }

  lemma RetryInjective(p: Job, q: Job)
    requires Retry(p) == Retry(q)
    ensures p == q
  {
    var suffix := ":retry:" + Decimal(p.attempts + 1);
    assert p.jobId == Retry(p).jobId[..|Retry(p).jobId| - |suffix|];
    assert q.jobId == Retry(q).jobId[..|Retry(q).jobId| - |suffix|];
  }

  /**
   In every run, an entry that no client submitted is the retry of exactly one job, and some step of the run is the
   call of a worker whose run of that job failed in a retryable way with attempts left.
   */
  lemma SuccessorTrace(cfg: Config, n: nat, acts: seq<Action>, s: System, job: Job) returns (p: Job, k: nat)
    requires Runs(cfg, Initial(n), acts, s) && Carries(job) in s.store.stream && job !in s.store.submitted
    ensures job == Retry(p) && k < |acts| && Retries(cfg, At(cfg, Initial(n), acts, k), acts[k], p)
  {
    assert Reachable(cfg, s);
    SuccessorHasCause(cfg, s, job);
    p :| job == Retry(p) && Carries(p) in s.store.stream && (p, Retrying) in s.store.marks && p.attempts + 1 < cfg.maxAttempts;
    k := MarkTrace(cfg, Initial(n), acts, s, p);
  }

  /** A job all of whose failures in a run are final never has a successor, unless a client submits that very job. */
  lemma FinalFailuresEndLineage(cfg: Config, n: nat, acts: seq<Action>, s: System, p: Job)
    requires Runs(cfg, Initial(n), acts, s)
    requires forall k :: 0 <= k < |acts| && FailsWith(At(cfg, Initial(n), acts, k), acts[k], p) ==>
                           DeadEnd(cfg, p, At(cfg, Initial(n), acts, k).workers[acts[k].worker].phase.err)
    ensures Carries(Retry(p)) in s.store.stream ==> Retry(p) in s.store.submitted
  {
    if Carries(Retry(p)) in s.store.stream && Retry(p) !in s.store.submitted {
      var q, k := SuccessorTrace(cfg, n, acts, s, Retry(p));
      RetryInjective(p, q);
    }
  }

  // ---------------------------------------------------------------- lost leases

  lemma {:induction false} DecimalIsHex(n: nat)
    ensures IsHex(Decimal(n))
  {
    if n >= 10 {
      DecimalIsHex(n / 10);
    }
  }

  lemma {:induction false} LineageMade(base: Job, k: nat)
    requires MadeId(base.jobId)
    ensures MadeId(Lineage(base, k).jobId)
  {
    if k > 0 {
      LineageMade(base, k - 1);
      var p := Lineage(base, k - 1);
      DecimalIsHex(p.attempts + 1);
      MadeIds("", p.jobId, Decimal(p.attempts + 1));
    }
  }

  /**
   When all submitted jobs have ids the program made, a worker that notices a lost lease, before or during the run,
   always takes the retry branch while attempts are left.
   */
  lemma LostLeasesRetried(cfg: Config, s: System, w: nat)
    requires Reachable(cfg, s) && w < |s.workers| && s.workers[w].Working?
    requires forall b :: b in s.store.submitted ==> MadeId(b.jobId) && MadeId(b.runId)
    ensures var job := s.workers[w].claim.job;
            forall err :: err == LeaseLost(job.runId) || err == StartLost(job.jobId) ==>
                            (DeadEnd(cfg, job, err) <==> job.attempts + 1 >= cfg.maxAttempts)
  {
    ReachableInv(cfg, s);
    assert s.workers[w] in s.workers && WorkFacts(cfg, s.store, s.workers[w]);
    var job := s.workers[w].claim.job;
    hide ShouldRetry, MadeId, Retry, WorkFacts, LeaseFacts, LeaseLost, StartLost;
    var base, k := EntryLineage(cfg, s.store, job);
    LineageIds(base, k, k);
    LineageMade(base, k);
    MadeIdRetried(job.runId);
    MadeIdRetried(job.jobId);
  }
}
