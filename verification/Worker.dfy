/**
 The worker program over the queue: `JobQueue` and `RunWorker` as objects that issue one Redis command
 after another while everything else in the deployment may run in between.  Every command is shown to
 be the step the protocol takes next, so all that is proved about the protocol holds of the program.
 */
module Worker {
  import opened Text
  import opened FailurePolicy
  import opened JobStore
  import opened QueueMachine
  import opened QueueSafety

  /** What the rest of the deployment may do: anything but a step of `me` other than its heartbeat. */
  predicate Outside(me: nat, a: Action) {
    a.Do? && a.worker == me ==> a.action.Heartbeat? || a.action.HeartbeatFault?
  }

  /** The same claim but for its deadline and heartbeat, in the same phase. */
  predicate SameWork(v: Worker, w: Worker) {
    if v.Working? then
      w.Working? && w.phase == v.phase && w.claim.job == v.claim.job && w.claim.msg == v.claim.msg
      && w.claim.token == v.claim.token
    else w == v
  }

  lemma {:induction false} OutsideKeepsWork(cfg: Config, me: nat, s: System, acts: seq<Action>, t: System)
    requires me < |s.workers| && Runs(cfg, s, acts, t) && forall a :: a in acts ==> Outside(me, a)
    ensures |t.workers| == |s.workers| && SameWork(s.workers[me], t.workers[me])
    ensures Grows(s.store, t.store)
    decreases |acts|
  {
    if acts != [] {
      var a := acts[0];
      var u := Apply(cfg, s, a);
      assert Outside(me, a);
      if a.Do? {
        StepGrows(cfg, s.store, s.workers[a.worker], a.action);
      }
      assert SameWork(s.workers[me], u.workers[me]) by {
        if a.Do? && a.worker == me {
          assert a.action.Heartbeat? || a.action.HeartbeatFault?;
        }
      }
      hide Apply;
      OutsideKeepsWork(cfg, me, u, acts[1..], t);
    }
  }

  lemma NoStale(st: Store, idle: nat)
    ensures StaleIds(st, idle, 0) == []
  {
  }

  lemma StaleNext(st: Store, idle: nat, m: nat)
    ensures StaleIds(st, idle, m + 1) == StaleIds(st, idle, m) + if Stale(st, idle, m) then [m] else []
  {
  }

  /** Where the scan stops, it has the first `count` stale messages. */
  lemma ScanStops(st: Store, idle: nat, count: nat, m: nat)
    requires m <= st.delivered && |StaleIds(st, idle, m)| <= count
    requires m == st.delivered || |StaleIds(st, idle, m)| == count
    ensures StaleIds(st, idle, m) == First(StaleIds(st, idle, st.delivered), count)
  {
    hide StaleIds;
    StalePrefix(st, idle, m, st.delivered);
  }

  lemma {:induction false} StalePrefix(st: Store, idle: nat, m: nat, n: nat)
    requires m <= n
    ensures StaleIds(st, idle, m) <= StaleIds(st, idle, n)
    decreases n
  {
    if m < n {
      StalePrefix(st, idle, m, n - 1);
    }
  }

  /** The first stale messages are the lowest ones, and all of them if they are fewer than the count. */
  lemma FirstLowest(st: Store, idle: nat, count: nat)
    ensures var msgs := First(StaleIds(st, idle, st.delivered), count);
            |msgs| <= count && (forall m :: m in msgs ==> Stale(st, idle, m)) &&
            (forall i, j :: 0 <= i < j < |msgs| ==> msgs[i] < msgs[j]) &&
            (forall x: nat, m :: m in msgs && x < m && Stale(st, idle, x) ==> x in msgs) &&
            (|msgs| < count ==> forall m :: 0 <= m < st.delivered && Stale(st, idle, m) ==> m in msgs)
  {
    var all := StaleIds(st, idle, st.delivered);
    var msgs := First(all, count);
    forall x: nat, m | m in msgs && x < m && Stale(st, idle, x)
      ensures x in msgs
    {
      assert m in all && x in all;
      var i :| 0 <= i < |msgs| && msgs[i] == m;
      var j :| 0 <= j < |all| && all[j] == x;
      assert all[i] == m;
      assert j < i;
      assert msgs[j] == x;
    }
  }

  /** The running deployment: the Redis server's data and the local state of each worker process. */
  class Cluster {
    const cfg: Config
    var clock: int
    var stream: seq<Entry>
    var delivered: nat
    var pending: map<nat, int>
    var acked: set<nat>
    var leases: map<string, Lease>
    var nextToken: nat
    var deadLetters: seq<Job>
    var status: map<string, Status>
    var submitted: set<Job>
    var marks: set<(Job, Status)>
    var workers: seq<Worker>

    /** What the k-th call of the program raises; `calls` have been made. */
    const trouble: nat -> Option<Failure>
    var calls: nat

    constructor (cfg: Config, n: nat, trouble: nat -> Option<Failure>)
      ensures this.cfg == cfg && this.trouble == trouble && calls == 0 && Sys() == Initial(n) && Valid()
    {
      this.cfg, this.trouble, calls := cfg, trouble, 0;
      clock, stream, delivered, pending, acked := 0, [], 0, map[], {};
      leases, nextToken, deadLetters, status := map[], 0, [], map[];
      submitted, marks := {}, {};
      workers := seq(n, i => Idle);
      new;
      assert Runs(cfg, Initial(n), [], Sys());
    }

    function Data(): Store
      reads this
    {
      Store(clock, stream, delivered, pending, acked, leases, nextToken, deadLetters, status, submitted, marks)
    }

    function Sys(): System
      reads this
    {
      System(Data(), workers)
    }

    ghost predicate Valid()
      reads this
    {
      Reachable(cfg, Sys())
    }

    // -------------------------------------------------------------- Redis commands

    method XAdd(entry: Entry)
      modifies this`stream
      ensures Data() == JobStore.XAdd(old(Data()), entry)
    {
      stream := stream + [entry];
    }

    method XAddDead(job: Job)
      modifies this`deadLetters
      ensures Data() == JobStore.XAddDead(old(Data()), job)
    {
      deadLetters := deadLetters + [job];
    }

    method XReadGroup() returns (m: Option<nat>)
      modifies this`delivered, this`pending
      ensures Data() == JobStore.XReadGroup(old(Data())).store && m == JobStore.XReadGroup(old(Data())).value
    {
      if delivered < |stream| {
        m := Some(delivered);
        pending := pending[delivered := clock];
        delivered := delivered + 1;
      } else {
        m := None;
      }
    }

    /** Takes over up to `count` stale messages, lowest id first. */
    method XAutoClaim(idle: nat, count: nat) returns (msgs: seq<nat>)
      modifies this`pending
      ensures |msgs| <= count && forall m :: m in msgs ==> Stale(old(Data()), idle, m)
      ensures forall i, j :: 0 <= i < j < |msgs| ==> msgs[i] < msgs[j]
      ensures forall x: nat, m :: m in msgs && x < m && Stale(old(Data()), idle, x) ==> x in msgs
      ensures |msgs| < count ==> forall m :: 0 <= m < delivered && Stale(old(Data()), idle, m) ==> m in msgs
      ensures var r := JobStore.XAutoClaim(old(Data()), idle, count); Data() == r.store && msgs == r.value
    {
      hide StaleIds;
      msgs := [];
      var m := 0;
      NoStale(Data(), idle);
      while m < delivered && |msgs| < count
        invariant m <= delivered && |msgs| <= count && msgs == StaleIds(Data(), idle, m)
        modifies {}
      {
        StaleNext(Data(), idle, m);
        if m in pending && clock - pending[m] >= idle {
          msgs := msgs + [m];
        }
        m := m + 1;
      }
      ScanStops(Data(), idle, count, m);
      FirstLowest(Data(), idle, count);
      pending := map x | x in pending :: if x in msgs then clock else pending[x];
    }

    method XAck(m: nat)
      modifies this`pending, this`acked
      ensures Data() == JobStore.XAck(old(Data()), m)
    {
      if m in pending {
        pending := pending - {m};
        acked := acked + {m};
      }
    }

    method HSet(job: Job, s: Status)
      modifies this`status, this`marks
      ensures Data() == JobStore.HSet(old(Data()), job, s)
    {
      status := status[job.jobId := s];
      marks := marks + {(job, s)};
    }

    method SetNx(id: string, ttl: nat) returns (token: Option<nat>)
      modifies this`leases, this`nextToken
      ensures Data() == JobStore.Acquire(old(Data()), id, ttl).store && token == JobStore.Acquire(old(Data()), id, ttl).value
    {
      if id in leases && clock < leases[id].deadline {
        return None;
      }
      token := Some(nextToken);
      leases := leases[id := Lease(nextToken, clock + ttl)];
      nextToken := nextToken + 1;
    }

    method CompareExpire(id: string, token: nat, ttl: nat) returns (ok: bool)
      modifies this`leases
      ensures Data() == JobStore.Renew(old(Data()), id, token, ttl).store && ok == JobStore.Renew(old(Data()), id, token, ttl).value
    {
      ok := id in leases && clock < leases[id].deadline && leases[id].token == token;
      if ok {
        leases := leases[id := Lease(token, clock + ttl)];
      }
    }

    method CompareDelete(id: string, token: nat) returns (ok: bool)
      modifies this`leases
      ensures Data() == JobStore.Release(old(Data()), id, token).store && ok == JobStore.Release(old(Data()), id, token).value
    {
      ok := id in leases && clock < leases[id].deadline && leases[id].token == token;
      if ok {
        leases := leases - {id};
      }
    }

    // -------------------------------------------------------------- everything else that runs

    /** Whether the next call raises, and what. */
    method Trouble() returns (err: Option<Failure>)
      modifies this`calls
      ensures err == trouble(old(calls)) && calls == old(calls) + 1
    {
      err := trouble(calls);
      calls := calls + 1;
    }

    /** Some call from the `first`-th on has raised. */
    ghost predicate RaisedSince(first: nat)
      reads this
    {
      exists k :: first <= k < calls && trouble(k).Some?
    }

    /** A mishap needs a reason: the last call raised just that; and a run ends as its execution does. */
    predicate Excused(a: WorkerAction)
      reads this
    {
      match a
      case Fault(err) => calls > 0 && trouble(calls - 1) == Some(err)
      case Finish(result) => calls > 0 && trouble(calls - 1) == result
      case ScanFault => calls > 0 && trouble(calls - 1).Some?
      case ClaimFault => calls > 0 && trouble(calls - 1).Some?
      case Crash => calls > 0 && trouble(calls - 1).Some?
      case _ => true
    }

    /** An await of worker `me`: others, clients, the clock and its own heartbeat run for a while. */
    method Await(me: nat)
      requires Valid() && me < |workers|
      modifies this
      ensures Valid() && |workers| == old(|workers|)
      ensures SameWork(old(workers[me]), workers[me]) && Grows(old(Data()), Data()) && calls == old(calls)
    {
      assert Runs(cfg, Sys(), [], Sys());
      OutsideKeepsWork(cfg, me, Sys(), [], Sys());
    }

    /** Worker `me` moves on to local state `w`: step `a`, whose effect on the store has just been carried out. */
    method MoveTo(me: nat, w: Worker, ghost a: WorkerAction, ghost before: System)
      requires Reachable(cfg, before) && Enabled(cfg, before, Do(me, a)) && workers == before.workers && Excused(a)
      requires Effect(Data(), w) == Step(cfg, before.store, before.workers[me], a)
      modifies this`workers
      ensures Valid() && Data() == old(Data()) && workers == before.workers[me := w]
    {
      ReachStep(cfg, before, Do(me, a));
      workers := workers[me := w];
    }
  }

  /** In the states `tried`, each of these messages had no job, or a job under lease. */
  predicate PassedOver(tried: seq<Store>, msgs: seq<nat>) {
    |tried| == |msgs| &&
    forall i :: 0 <= i < |msgs| ==>
                  msgs[i] < |tried[i].stream| &&
                  (tried[i].stream[msgs[i]].Carries? ==> Current(tried[i], tried[i].stream[msgs[i]].job.jobId).Some?)
  }

  /**
   When new messages were asked for, in state `at`, there was none; or the next one has been delivered, and in state
   `met` it had no job, or a job under lease.
   */
  predicate NoneNew(at: Store, met: Store, now: Store) {
    at.delivered >= |at.stream| ||
    (at.delivered < now.delivered && at.delivered < |met.stream| &&
     (met.stream[at.delivered].Carries? ==> Current(met, met.stream[at.delivered].job.jobId).Some?))
  }

  /** What a worker met while it looked for a job. */
  datatype Search = Search(swallowed: bool, tried: seq<Store>, at: Store, met: Store)

  datatype ClaimedJob = ClaimedJob(job: Job, messageId: nat, leaseToken: nat)

  datatype ClaimReply = Got(claimed: ClaimedJob) | Nothing | Raised(err: Failure)

  /** `JobQueue` of one worker process. */
  class JobQueue {
    const redis: Cluster
    const me: nat
    const cfg: Config

    constructor (redis: Cluster, me: nat)
      ensures this.redis == redis && this.me == me && this.cfg == redis.cfg
    {
      this.redis := redis;
      this.me := me;
      this.cfg := redis.cfg;
    }

    ghost predicate Ready()
      reads this, redis
    {
      redis.Valid() && me < |redis.workers| && cfg == redis.cfg
    }

    function Mine(): Worker
      requires me < |redis.workers|
      reads this, redis
    {
      redis.workers[me]
    }

    /** This process is working on `c` and has reached `phase`. */
    ghost predicate In(c: ClaimedJob, phase: Phase)
      reads this, redis
    {
      Ready() && Mine().Working? && Mine().phase == phase && Mine().claim.job == c.job
      && Mine().claim.msg == c.messageId && Mine().claim.token == c.leaseToken
    }

    method Move(w: Worker, ghost a: WorkerAction, ghost before: System)
      requires cfg == redis.cfg && Reachable(cfg, before) && Enabled(cfg, before, Do(me, a)) && redis.workers == before.workers
      requires Effect(redis.Data(), w) == Step(cfg, before.store, before.workers[me], a) && redis.Excused(a)
      modifies redis
      ensures Ready() && SameWork(w, Mine()) && |redis.workers| == old(|redis.workers|)
      ensures redis.calls == old(redis.calls)
      ensures Grows(old(redis.Data()), redis.Data())
    {
      redis.MoveTo(me, w, a, before);
      redis.Await(me);
    }

    /** Asks whether the next call raises; if it does, the worker goes where an exception takes it. */
    method Guard(c: ClaimedJob, ghost phase: Phase) returns (err: Option<Failure>)
      requires In(c, phase) && !phase.Executing? && !phase.Releasing?
      modifies redis
      ensures err == redis.trouble(old(redis.calls)) && redis.calls == old(redis.calls) + 1
      ensures err.None? ==> In(c, phase) && redis.Sys() == old(redis.Sys())
      ensures err.Some? ==> Ready() && SameWork(AfterFault(old(Mine()).claim, phase, err.value), Mine())
      ensures Grows(old(redis.Data()), redis.Data()) && |redis.workers| == old(|redis.workers|)
    {
      err := redis.Trouble();
      if err.Some? {
        ghost var before := redis.Sys();
        var w := Mine();
        Move(AfterFault(w.claim, w.phase, err.value), QueueMachine.Fault(err.value), before);
      }
    }

    /** `ack` */
    method Ack(c: ClaimedJob, ghost phase: Phase) returns (err: Option<Failure>)
      requires In(c, phase) && (phase.Recorded? || phase.Buried? || phase.Listed?)
      modifies redis
      ensures err.None? ==> In(c, Releasing) && c.messageId in redis.acked
      ensures err.Some? ==> In(c, if phase.Recorded? then Phase.Failed(err.value) else Releasing)
      ensures Grows(old(redis.Data()), redis.Data())
      ensures err == redis.trouble(old(redis.calls)) && redis.calls == old(redis.calls) + 1
    {
      err := Guard(c, phase);
      if err.None? {
        ghost var before := redis.Sys();
        var w := Mine();
        MessageDelivered(before);
        redis.XAck(c.messageId);
        Move(w.(phase := Releasing), QueueMachine.Call, before);
      }
    }

    lemma MessageDelivered(s: System)
      requires Reachable(cfg, s) && me < |s.workers| && s.workers[me].Working?
      ensures s.workers[me].claim.msg in s.store.pending || s.workers[me].claim.msg in s.store.acked
    {
      ReachableInv(cfg, s);
      assert s.workers[me] in s.workers;
      assert WorkFacts(cfg, s.store, s.workers[me]);
    }

    function AfterMark(status: Status): Phase {
      match status
      case DeadLettered => DeadMarked
      case Retrying => RetryMarked
      case _ => Recorded
    }

    /** `mark_finished` */
    method MarkFinished(c: ClaimedJob, status: Status, ghost phase: Phase) returns (err: Option<Failure>)
      requires In(c, phase)
      requires if phase.Done? then status == Succeeded
               else phase.Failed? && status == if DeadEnd(cfg, c.job, phase.err) then DeadLettered else Retrying
      modifies redis
      ensures err.None? ==> In(c, AfterMark(status)) && (c.job, status) in redis.marks
      ensures err.Some? ==> In(c, if phase.Done? then Phase.Failed(err.value) else Releasing)
      ensures err == redis.trouble(old(redis.calls)) && redis.calls == old(redis.calls) + 1
    {
      err := Guard(c, phase);
      if err.None? {
        ghost var before := redis.Sys();
        var w := Mine();
        redis.HSet(c.job, status);
        Move(w.(phase := AfterMark(status)), QueueMachine.Call, before);
      }
    }

    /** `dead_letter` */
    method DeadLetter(c: ClaimedJob) returns (err: Option<Failure>)
      requires In(c, DeadMarked)
      modifies redis
      ensures In(c, if err.None? then Buried else Releasing)
      ensures err.None? ==> c.job in redis.deadLetters
      ensures err == redis.trouble(old(redis.calls)) && redis.calls == old(redis.calls) + 1
    {
      err := Guard(c, DeadMarked);
      if err.None? {
        ghost var before := redis.Sys();
        var w := Mine();
        ghost var n := |redis.deadLetters|;
        redis.XAddDead(c.job);
        Move(w.(phase := Buried), QueueMachine.Call, before);
        assert redis.deadLetters[n] == c.job;
      }
    }

    /** The XADD of `enqueue`. */
    method AppendSuccessor(c: ClaimedJob, job: Job) returns (err: Option<Failure>)
      requires In(c, RetryMarked) && job == Retry(c.job)
      modifies redis
      ensures In(c, if err.None? then Requeued else Releasing)
      ensures err == redis.trouble(old(redis.calls)) && redis.calls == old(redis.calls) + 1
      ensures err.None? ==>
                Carries(job) in redis.stream && Grows(JobStore.XAdd(old(redis.Data()), Carries(job)), redis.Data())
    {
      hide Reachable, ShouldRetry, Retry, DeadEnd;
      err := Guard(c, RetryMarked);
      if err.None? {
        ghost var before := redis.Sys();
        var w := Mine();
        ghost var n := |redis.stream|;
        redis.XAdd(Carries(job));
        Move(w.(phase := Requeued), QueueMachine.Call, before);
        assert redis.stream[n] == Carries(job);
      }
    }

    /** The HSET of `enqueue`. */
    method ListSuccessor(c: ClaimedJob, job: Job) returns (err: Option<Failure>)
      requires In(c, Requeued) && job == Retry(c.job)
      modifies redis
      ensures In(c, if err.None? then Listed else Releasing)
      ensures err == redis.trouble(old(redis.calls)) && redis.calls == old(redis.calls) + 1
      ensures err.None? ==> (job, Queued) in redis.marks && Grows(JobStore.HSet(old(redis.Data()), job, Queued), redis.Data())
      ensures Grows(old(redis.Data()), redis.Data())
    {
      hide Reachable, ShouldRetry, Retry, DeadEnd;
      err := Guard(c, Requeued);
      if err.None? {
        ghost var before := redis.Sys();
        var w := Mine();
        redis.HSet(job, Queued);
        Move(w.(phase := Listed), QueueMachine.Call, before);
      }
    }

    /** `enqueue` of the successor of the job being worked on: appended first, in a later state `at` listed as queued. */
    method EnqueueSuccessor(c: ClaimedJob, job: Job) returns (err: Option<Failure>, ghost at: Store)
      requires In(c, RetryMarked) && job == Retry(c.job)
      modifies redis
      ensures In(c, if err.None? then Listed else Releasing)
      ensures err.None? ==> Carries(job) in redis.stream && (job, Queued) in redis.marks
      ensures err.None? ==> Grows(JobStore.XAdd(old(redis.Data()), Carries(job)), at)
      ensures err.None? ==> Grows(JobStore.HSet(at, job, Queued), redis.Data())
      ensures redis.calls > old(redis.calls) && (err.Some? ==> err == redis.trouble(redis.calls - 1))
    {
      hide Reachable, ShouldRetry, Retry, DeadEnd;
      err := AppendSuccessor(c, job);
      at := redis.Data();
      if err.None? {
        err := ListSuccessor(c, job);
      }
    }

    /** `release_lease`; if it raises, the lease is left to run out. */
    method ReleaseLease(c: ClaimedJob) returns (err: Option<Failure>)
      requires In(c, Releasing)
      modifies redis
      ensures Ready() && Mine().Idle? && Grows(old(redis.Data()), redis.Data())
      ensures err == redis.trouble(old(redis.calls)) && redis.calls == old(redis.calls) + 1
    {
      ghost var before := redis.Sys();
      err := redis.Trouble();
      if err.Some? {
        Move(Idle, QueueMachine.Fault(err.value), before);
      } else {
        var ok := redis.CompareDelete(c.job.jobId, c.leaseToken);
        Move(Idle, QueueMachine.Call, before);
      }
    }

    /** The HSET of `mark_started`. */
    method WriteRunning(c: ClaimedJob) returns (err: Option<Failure>)
      requires In(c, Held)
      modifies redis
      ensures In(c, if err.None? then Marked else Phase.Failed(err.value))
      ensures err == redis.trouble(old(redis.calls)) && redis.calls == old(redis.calls) + 1
      ensures err.None? ==> Grows(JobStore.HSet(old(redis.Data()), c.job, Running), redis.Data())
    {
      hide Reachable, ShouldRetry, Retry;
      err := Guard(c, Held);
      if err.None? {
        ghost var before := redis.Sys();
        var w := Mine();
        redis.HSet(c.job, Running);
        Move(w.(phase := Marked), QueueMachine.Call, before);
      }
    }

    /** The renewal in `mark_started`, or the exception for a lost lease. */
    method RenewOrRaise(c: ClaimedJob) returns (err: Option<Failure>)
      requires In(c, Marked)
      modifies redis
      ensures In(c, if err.None? then Executing else Phase.Failed(err.value))
      ensures redis.calls == old(redis.calls) + 1
      ensures var st := old(redis.Data());
              var current := Current(st, c.job.jobId) == Some(c.leaseToken);
              (err.None? <==> redis.trouble(old(redis.calls)).None? && current) &&
              (err.Some? ==> err == redis.trouble(old(redis.calls)) || (err == Some(StartLost(c.job.jobId)) && !current)) &&
              (err.None? ==> Grows(Renew(st, c.job.jobId, c.leaseToken, cfg.leaseTtl).store, redis.Data()))
    {
      hide Reachable, ShouldRetry, Retry, StartLost;
      err := Guard(c, Marked);
      if err.Some? {
        return;
      }
      ghost var before := redis.Sys();
      var w := Mine();
      var ok := redis.CompareExpire(c.job.jobId, c.leaseToken, cfg.leaseTtl);
      if ok {
        Move(Working(w.claim.(deadline := redis.clock + cfg.leaseTtl), Executing), QueueMachine.Call, before);
      } else {
        err := Some(StartLost(c.job.jobId));
        Move(w.(phase := Phase.Failed(StartLost(c.job.jobId))), QueueMachine.Call, before);
      }
    }

    /** `mark_started`: writes "running", then, in a later state `at`, renews the lease or raises. */
    method MarkStarted(c: ClaimedJob) returns (err: Option<Failure>, ghost at: Store)
      requires In(c, Held)
      modifies redis
      ensures In(c, if err.None? then Executing else Phase.Failed(err.value))
      ensures err.None? ==> Grows(JobStore.HSet(old(redis.Data()), c.job, Running), at)
      ensures err.None? ==> Current(at, c.job.jobId) == Some(c.leaseToken)
      ensures err.None? ==> Grows(Renew(at, c.job.jobId, c.leaseToken, cfg.leaseTtl).store, redis.Data())
      ensures redis.calls > old(redis.calls)
      ensures err.Some? ==>
                err == redis.trouble(redis.calls - 1) ||
                (err == Some(StartLost(c.job.jobId)) && Grows(JobStore.HSet(old(redis.Data()), c.job, Running), at) &&
                 Current(at, c.job.jobId) != Some(c.leaseToken))
    {
      hide Reachable, Grows, ShouldRetry, Retry, StartLost;
      err := WriteRunning(c);
      at := redis.Data();
      if err.None? {
        err := RenewOrRaise(c);
      }
    }

    /** One beat of the heartbeat task: renews the lease, or sets the event that says it is lost. */
    method Heartbeat() returns (ok: bool)
      requires Ready() && Mine().Working? && !Mine().phase.Releasing? && Mine().claim.beating
      modifies redis
      ensures Ready() && |redis.workers| == old(|redis.workers|)
      ensures var c := old(Mine()).claim;
        var r := JobStore.Renew(old(redis.Data()), c.job.jobId, c.token, cfg.leaseTtl);
        ok == r.value && redis.Data() == r.store
        && Mine() == Working(if ok then c.(deadline := redis.clock + cfg.leaseTtl) else c.(lost := true, beating := false), old(Mine()).phase)
    {
      ghost var before := redis.Sys();
      var w := Mine();
      ok := redis.CompareExpire(w.claim.job.jobId, w.claim.token, cfg.leaseTtl);
      var c := if ok then w.claim.(deadline := redis.clock + cfg.leaseTtl) else w.claim.(lost := true, beating := false);
      redis.MoveTo(me, Working(c, w.phase), QueueMachine.Heartbeat, before);
    }

    /** `_try_acquire_lease` on the job of the first message at hand, or acknowledgement of an empty entry. */
    method DecodeAndClaim(m: nat) returns (r: ClaimReply)
      requires Ready() && Mine().Trying? && Mine().msgs != [] && m == Mine().msgs[0]
      modifies redis
      ensures Ready()
      ensures r.Got? ==> In(r.claimed, Held) && r.claimed.messageId == m
      ensures r.Nothing? ==> Mine() == Trying(old(Mine()).msgs[1..], old(Mine()).direct)
      ensures m < old(|redis.stream|)
      ensures match old(redis.stream[m])
              case Blank => !r.Got? && (r.Nothing? ==> m in redis.acked)
              case Carries(job) =>
                (r.Got? ==> r.claimed.job == job && Current(old(redis.Data()), job.jobId).None?) &&
                (r.Nothing? ==> Current(old(redis.Data()), job.jobId).Some?)
      ensures Grows(old(redis.Data()), redis.Data())
      ensures r.Raised? ==> Mine() == old(Mine())
      ensures redis.calls == old(redis.calls) + 1
      ensures if r.Raised? then redis.trouble(old(redis.calls)) == Some(r.err) else redis.trouble(old(redis.calls)) == None
    {
      ghost var before := redis.Sys();
      AtHand(before);
      var err := redis.Trouble();
      if err.Some? {
        return Raised(err.value);
      }
      var w := Mine();
      match redis.stream[m] {
        case Blank =>
          redis.XAck(m);
          r := Nothing;
          Move(Trying(w.msgs[1..], w.direct), QueueMachine.NextMessage, before);
        case Carries(job) =>
          var token := redis.SetNx(job.jobId, cfg.leaseTtl);
          if token.None? {
            r := Nothing;
            Move(Trying(w.msgs[1..], w.direct), QueueMachine.NextMessage, before);
          } else {
            r := Got(ClaimedJob(job, m, token.value));
            Move(Working(Claim(job, m, token.value, redis.clock + cfg.leaseTtl, false, true), Held), QueueMachine.NextMessage, before);
          }
      }
    }

    lemma AtHand(s: System)
      requires Reachable(cfg, s) && me < |s.workers| && s.workers[me].Trying? && s.workers[me].msgs != []
      ensures s.workers[me].msgs[0] < |s.store.stream|
      ensures s.workers[me].msgs[0] in s.store.pending || s.workers[me].msgs[0] in s.store.acked
    {
      ReachableInv(cfg, s);
      assert s.workers[me] in s.workers;
      assert WorkFacts(cfg, s.store, s.workers[me]);
      assert s.workers[me].msgs[0] in s.workers[me].msgs;
    }

    /** The loop over the messages taken over; an exception is logged and swallowed. */
    method TryStale(msgs: seq<nat>) returns (r: ClaimReply, ghost swallowed: bool, ghost tried: seq<Store>)
      requires Ready() && Mine() == Trying(msgs, false)
      modifies redis
      ensures Ready() && !r.Raised? && Grows(old(redis.Data()), redis.Data()) && redis.calls >= old(redis.calls)
      ensures r.Got? ==> In(r.claimed, Held) && r.claimed.messageId in msgs
      ensures r.Nothing? ==> Mine() == Trying([], false)
      ensures if swallowed then redis.RaisedSince(old(redis.calls)) else r.Nothing? ==> PassedOver(tried, msgs)
    {
      hide Reachable, ShouldRetry, StartLost, Retry;
      swallowed, tried := false, [];
      var i := 0;
      while i < |msgs|
        invariant i <= |msgs| && redis.calls >= old(redis.calls)
        invariant Ready() && Mine() == Trying(msgs[i..], false) && Grows(old(redis.Data()), redis.Data())
        invariant !swallowed && PassedOver(tried, msgs[..i])
      {
        tried := tried + [redis.Data()];
        r := DecodeAndClaim(msgs[i]);
        if r.Got? {
          return;
        }
        if r.Raised? {
          ghost var before := redis.Sys();
          Move(Trying([], false), QueueMachine.ClaimFault, before);
          return Nothing, true, tried;
        }
        i := i + 1;
      }
      r := Nothing;
    }

    /** The XAUTOCLAIM part of `claim`, whose exceptions are swallowed as well. */
    method ClaimStale() returns (r: ClaimReply, ghost swallowed: bool, ghost tried: seq<Store>)
      requires Ready() && Mine().Idle?
      modifies redis
      ensures Ready() && !r.Raised? && redis.calls > old(redis.calls)
      ensures r.Got? ==> In(r.claimed, Held)
      ensures r.Got? ==> r.claimed.messageId in JobStore.XAutoClaim(old(redis.Data()), cfg.visibility, SCAN_COUNT).value
      ensures r.Nothing? ==> Mine() == Trying([], false) && Grows(old(redis.Data()), redis.Data())
      ensures if swallowed then redis.RaisedSince(old(redis.calls))
              else r.Nothing? ==>
                PassedOver(tried, JobStore.XAutoClaim(old(redis.Data()), cfg.visibility, SCAN_COUNT).value)
    {
      hide Reachable, ShouldRetry, StartLost, Retry, StaleIds, First, PassedOver;
      ghost var before := redis.Sys();
      var err := redis.Trouble();
      if err.Some? {
        Move(Trying([], false), QueueMachine.ScanFault, before);
        return Nothing, true, [];
      }
      var msgs := redis.XAutoClaim(cfg.visibility, SCAN_COUNT);
      Move(Trying(msgs, false), QueueMachine.AutoClaim, before);
      r, swallowed, tried := TryStale(msgs);
    }

    /** What was read is claimed, or given up. */
    method ClaimRead(m: Option<nat>) returns (r: ClaimReply)
      requires Ready() && Mine() == Trying(if m.Some? then [m.value] else [], true)
      modifies redis
      ensures Ready() && redis.calls >= old(redis.calls) && Grows(old(redis.Data()), redis.Data())
      ensures if r.Got? then In(r.claimed, Held) && m == Some(r.claimed.messageId) else Mine().Idle?
      ensures r.Raised? ==> redis.calls > old(redis.calls) && redis.trouble(redis.calls - 1) == Some(r.err)
      ensures r.Nothing? && m.Some? ==>
                m.value < old(|redis.stream|) &&
                (old(redis.stream[m.value]).Carries? ==>
                  Current(old(redis.Data()), old(redis.stream[m.value]).job.jobId).Some?)
    {
      hide Reachable, ShouldRetry, StartLost, Retry, Current;
      r := Nothing;
      if m.Some? {
        r := DecodeAndClaim(m.value);
      }
      ghost var before := redis.Sys();
      if r.Nothing? {
        Move(Idle, QueueMachine.GiveUp, before);
      } else if r.Raised? {
        Move(Idle, QueueMachine.Crash, before);
      }
    }

    /** The XREADGROUP part of `claim`: the next new message, if there is one. */
    method ClaimNew() returns (r: ClaimReply, ghost at: Store, ghost met: Store)
      requires Ready() && Mine() == Trying([], false)
      modifies redis
      ensures Ready() && redis.calls > old(redis.calls)
      ensures if r.Got? then In(r.claimed, Held) && r.claimed.messageId == old(redis.delivered) else Mine().Idle?
      ensures r.Raised? ==> redis.trouble(redis.calls - 1) == Some(r.err)
      ensures r.Nothing? ==> at == old(redis.Data()) && Grows(at, met) && NoneNew(at, met, redis.Data())
      ensures r.Nothing? ==> Grows(met, redis.Data())
    {
      hide Reachable, ShouldRetry, StartLost, Retry, Current;
      at, met := redis.Data(), redis.Data();
      ghost var before := redis.Sys();
      var err := redis.Trouble();
      if err.Some? {
        Move(Idle, QueueMachine.Crash, before);
        return Raised(err.value), at, met;
      }
      var m := redis.XReadGroup();
      Move(Trying(if m.Some? then [m.value] else [], true), QueueMachine.ReadGroup, before);
      met := redis.Data();
      r := ClaimRead(m);
    }

    /**
     `claim`: stale messages first.  A new message is claimed only if an exception was swallowed before, or every stale
     message taken over had no job or a job under lease when it was tried.  Nothing is claimed only if, besides, no new
     message was there, or the one that was had no job or a job under lease.
     */
    method ClaimNext() returns (r: ClaimReply, ghost s: Search)
      requires Ready() && Mine().Idle?
      modifies redis
      ensures Ready() && redis.calls > old(redis.calls)
      ensures if r.Got? then In(r.claimed, Held) else Mine().Idle?
      ensures r.Raised? ==> redis.trouble(redis.calls - 1) == Some(r.err)
      ensures s.swallowed ==> redis.RaisedSince(old(redis.calls))
      ensures var stale := JobStore.XAutoClaim(old(redis.Data()), cfg.visibility, SCAN_COUNT).value;
              (r.Got? ==> r.claimed.messageId in stale ||
                          (r.claimed.messageId >= old(redis.delivered) && (s.swallowed || PassedOver(s.tried, stale)))) &&
              (r.Nothing? ==> s.swallowed || PassedOver(s.tried, stale))
      ensures r.Nothing? ==> Grows(old(redis.Data()), s.at) && Grows(s.at, s.met) && Grows(s.met, redis.Data())
      ensures r.Nothing? ==> NoneNew(s.at, s.met, redis.Data())
    {
      hide Reachable, ShouldRetry, StartLost, Retry, StaleIds, First, PassedOver, NoneNew;
      ghost var swallowed, tried, at, met;
      r, swallowed, tried := ClaimStale();
      s := Search(swallowed, tried, redis.Data(), redis.Data());
      if r.Got? {
        return;
      }
      r, at, met := ClaimNew();
      s := Search(swallowed, tried, at, met);
    }
  }

  /**
   A turn of the loop: no job, a job acknowledged after its run succeeded or failed, a job left after an exception in
   the failure branch, or an exception while claiming.  `released` is false if releasing the lease raised.
   */
  datatype Outcome =
    | NoJob
    | Acknowledged(claimed: ClaimedJob, failed: Option<Failure>, released: bool)
    | Abandoned(claimed: ClaimedJob)
    | ClaimRaised

  /** No exception leaves the loop. */
  predicate GoesOn(o: Outcome) {
    o.NoJob? || (o.Acknowledged? && o.released)
  }

  /** `RunWorker`: claims a job, runs it, and records, buries or requeues it before acknowledging. */
  class RunWorker {
    const queue: JobQueue
    var stop: bool

    constructor (queue: JobQueue)
      ensures this.queue == queue && !stop
    {
      this.queue := queue;
      stop := false;
    }

    /** `asyncio.wait` on the execution and the lost-lease event: at least one of them has completed. */
    method WaitFirst(c: ClaimedJob) returns (executed: bool)
      requires queue.In(c, Executing)
      modifies queue.redis
      ensures queue.In(c, Executing) && (executed || queue.Mine().claim.lost)
      ensures queue.redis.calls == old(queue.redis.calls)
    {
      queue.redis.Await(queue.me);
      executed := true;
    }

    /** Runs the job until it ends or the lease is lost. */
    method Execute(c: ClaimedJob) returns (exc: Option<Failure>)
      requires queue.In(c, Executing)
      modifies queue.redis
      ensures queue.In(c, if exc.None? then Done else Phase.Failed(exc.value))
      ensures queue.redis.calls == old(queue.redis.calls) + 1
      ensures exc == queue.redis.trouble(old(queue.redis.calls)) || exc == Some(LeaseLost(c.job.runId))
    {
      var executed := WaitFirst(c);
      ghost var before := queue.redis.Sys();
      var w := queue.Mine();
      exc := queue.redis.Trouble();
      if !executed && exc.None? {
        // A cancelled run that lets no exception of its own out.
        exc := Some(LeaseLost(c.job.runId));
        queue.Move(w.(phase := Phase.Failed(exc.value)), NoticeLost, before);
        return;
      }
      queue.Move(w.(phase := if exc.Some? then Phase.Failed(exc.value) else Done), Finish(exc), before);
    }

    /** A failure has a reason: a call or the run raised it, or the lease was lost before or during the run. */
    ghost predicate Caused(c: ClaimedJob, exc: Failure, first: nat)
      reads queue.redis
    {
      exc == StartLost(c.job.jobId) || exc == LeaseLost(c.job.runId) ||
      exists k :: first <= k < queue.redis.calls && queue.redis.trouble(k) == Some(exc)
    }

    /** The try body: start, run, record the success, acknowledge. */
    method TryBody(c: ClaimedJob) returns (exc: Option<Failure>)
      requires queue.In(c, Held)
      modifies queue.redis
      ensures queue.In(c, if exc.None? then Releasing else Phase.Failed(exc.value))
      ensures queue.redis.calls > old(queue.redis.calls)
      ensures exc.None? ==> c.messageId in queue.redis.acked && (c.job, Succeeded) in queue.redis.marks
      ensures exc.Some? ==> Caused(c, exc.value, old(queue.redis.calls))
    {
      hide Reachable, ShouldRetry, Retry;
      ghost var at;
      exc, at := queue.MarkStarted(c);
      if exc.Some? {
        return;
      }
      exc := Execute(c);
      if exc.Some? {
        return;
      }
      exc := queue.MarkFinished(c, Succeeded, Done);
      if exc.Some? {
        return;
      }
      exc := queue.Ack(c, Recorded);
    }

    /** The failure branch: dead letter, or a successor with one more attempt. */
    method HandleFailure(c: ClaimedJob, exc: Failure) returns (raised: Option<Failure>)
      requires queue.In(c, Phase.Failed(exc))
      modifies queue.redis
      ensures queue.In(c, Releasing)
      ensures queue.redis.calls > old(queue.redis.calls)
      ensures raised.Some? ==> raised == queue.redis.trouble(queue.redis.calls - 1)
      ensures raised.None? ==> c.messageId in queue.redis.acked
      ensures raised.None? ==> if DeadEnd(queue.cfg, c.job, exc) then c.job in queue.redis.deadLetters
                               else Carries(Retry(c.job)) in queue.redis.stream
    {
      hide Reachable, ShouldRetry;
      var nextAttempt := c.job.attempts + 1;
      if !ShouldRetry(exc) || nextAttempt >= queue.cfg.maxAttempts {
        raised := Bury(c, exc);
      } else {
        raised := Requeue(c, exc, nextAttempt);
      }
    }

    method Bury(c: ClaimedJob, exc: Failure) returns (raised: Option<Failure>)
      requires queue.In(c, Phase.Failed(exc)) && DeadEnd(queue.cfg, c.job, exc)
      modifies queue.redis
      ensures queue.In(c, Releasing) && queue.redis.calls > old(queue.redis.calls)
      ensures raised.Some? ==> raised == queue.redis.trouble(queue.redis.calls - 1)
      ensures raised.None? ==> c.messageId in queue.redis.acked && c.job in queue.redis.deadLetters
    {
      hide Reachable, DeadEnd;
      raised := queue.MarkFinished(c, DeadLettered, Phase.Failed(exc));
      if raised.Some? {
        return;
      }
      raised := queue.DeadLetter(c);
      if raised.Some? {
        return;
      }
      raised := queue.Ack(c, Buried);
    }

    method Requeue(c: ClaimedJob, exc: Failure, nextAttempt: nat) returns (raised: Option<Failure>)
      requires queue.In(c, Phase.Failed(exc)) && !DeadEnd(queue.cfg, c.job, exc) && nextAttempt == c.job.attempts + 1
      modifies queue.redis
      ensures queue.In(c, Releasing) && queue.redis.calls > old(queue.redis.calls)
      ensures raised.Some? ==> raised == queue.redis.trouble(queue.redis.calls - 1)
      ensures raised.None? ==> c.messageId in queue.redis.acked && Carries(Retry(c.job)) in queue.redis.stream
    {
      hide Reachable, DeadEnd;
      raised := queue.MarkFinished(c, Retrying, Phase.Failed(exc));
      if raised.Some? {
        return;
      }
      var job := c.job.(jobId := c.job.jobId + ":retry:" + Decimal(nextAttempt), attempts := nextAttempt);
      ghost var at;
      raised, at := queue.EnqueueSuccessor(c, job);
      if raised.Some? {
        return;
      }
      raised := queue.Ack(c, Listed);
    }

    /**
     One turn of the worker loop.  Whatever runs meanwhile and whatever raises, the deployment stays in a reachable
     state of the protocol.  An acknowledged job has its success recorded if its run did not fail, else a dead letter or
     its successor in the stream, and a failure has a reason.  Without an acknowledgement some call raised, or there
     was neither a stale nor a new message with a free job.
     */
    method RunOnce() returns (o: Outcome, ghost s: Search)
      requires queue.Ready() && queue.Mine().Idle?
      modifies queue.redis
      ensures queue.Ready() && queue.Mine().Idle? && queue.redis.calls > old(queue.redis.calls)
      ensures o.Acknowledged? ==> o.claimed.messageId in queue.redis.acked && Handled(queue.redis.Data(), o.claimed.job)
      ensures o.Acknowledged? ==>
                match o.failed
                case None => (o.claimed.job, Succeeded) in queue.redis.marks
                case Some(exc) =>
                  Caused(o.claimed, exc, old(queue.redis.calls)) &&
                  if DeadEnd(queue.cfg, o.claimed.job, exc) then o.claimed.job in queue.redis.deadLetters
                  else Carries(Retry(o.claimed.job)) in queue.redis.stream
      ensures !GoesOn(o) ==> queue.redis.RaisedSince(old(queue.redis.calls))
      ensures o.NoJob? ==> Grows(old(queue.redis.Data()), s.at) && Grows(s.at, s.met) && Grows(s.met, queue.redis.Data())
      ensures o.NoJob? ==> NoneNew(s.at, s.met, queue.redis.Data())
      ensures o.NoJob? ==>
                queue.redis.RaisedSince(old(queue.redis.calls)) ||
                PassedOver(s.tried, JobStore.XAutoClaim(old(queue.redis.Data()), queue.cfg.visibility, SCAN_COUNT).value)
    {
      hide Reachable, ShouldRetry, StartLost, Retry, StaleIds, First, PassedOver, NoneNew;
      var r;
      r, s := queue.ClaimNext();
      if r.Raised? {
        return ClaimRaised, s;
      }
      if r.Nothing? {
        return NoJob, s;
      }
      var c := r.claimed;
      o := Work(c);
    }

    /** What follows a claim. */
    method Work(c: ClaimedJob) returns (o: Outcome)
      requires queue.In(c, Held)
      modifies queue.redis
      ensures queue.Ready() && queue.Mine().Idle? && queue.redis.calls > old(queue.redis.calls)
      ensures (o.Acknowledged? || o.Abandoned?) && o.claimed == c
      ensures o.Acknowledged? ==> c.messageId in queue.redis.acked && Handled(queue.redis.Data(), c.job)
      ensures o.Acknowledged? ==>
                match o.failed
                case None => (c.job, Succeeded) in queue.redis.marks
                case Some(exc) =>
                  Caused(c, exc, old(queue.redis.calls)) &&
                  if DeadEnd(queue.cfg, c.job, exc) then c.job in queue.redis.deadLetters
                  else Carries(Retry(c.job)) in queue.redis.stream
      ensures !GoesOn(o) ==> queue.redis.RaisedSince(old(queue.redis.calls))
    {
      hide Reachable, ShouldRetry, StartLost, Retry, DeadEnd;
      var exc := TryBody(c);
      var raised: Option<Failure> := None;
      if exc.Some? {
        raised := HandleFailure(c, exc.value);
      }
      MessageCarries(c);
      var err := queue.ReleaseLease(c);
      if raised.Some? {
        return Abandoned(c);
      }
      AckedIsHandled(c);
      o := Acknowledged(c, exc, err.None?);
    }

    lemma MessageCarries(c: ClaimedJob)
      requires queue.In(c, Releasing)
      ensures c.messageId < |queue.redis.stream| && queue.redis.stream[c.messageId] == Carries(c.job)
    {
      ReachableInv(queue.cfg, queue.redis.Sys());
      assert queue.Mine() in queue.redis.workers;
      assert WorkFacts(queue.cfg, queue.redis.Data(), queue.Mine());
    }

    lemma AckedIsHandled(c: ClaimedJob)
      requires queue.Ready() && c.messageId in queue.redis.acked
      requires c.messageId < |queue.redis.stream| && queue.redis.stream[c.messageId] == Carries(c.job)
      ensures Handled(queue.redis.Data(), c.job)
    {
      ReachableInv(queue.cfg, queue.redis.Sys());
    }

    /** `run_forever`, for at most `turns` turns; an exception that leaves a turn ends the loop. */
    method RunForever(turns: nat)
      requires queue.Ready() && queue.Mine().Idle?
      modifies queue.redis
      ensures queue.Ready() && queue.Mine().Idle?
      ensures stop || queue.redis.RaisedSince(old(queue.redis.calls)) ||
              queue.redis.calls >= old(queue.redis.calls) + turns
    {
      var i := 0;
      while i < turns && !stop
        invariant queue.Ready() && queue.Mine().Idle? && queue.redis.calls >= old(queue.redis.calls) + i
      {
        ghost var s;
        var o;
        o, s := RunOnce();
        i := i + 1;
        if !GoesOn(o) {
          return;
        }
      }
    }
  }
}
