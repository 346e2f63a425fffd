/**
 The Redis side of the durable job queue: the job stream with its consumer group, the per-job
 leases, the job hashes and the dead-letter stream, and the atomic effect of each command used.
 `submitted` and `marks` are bookkeeping: every job a client enqueued, and every status ever written.
 */
module JobStore {
  import opened Text

  datatype Spec = Spec(orgId: string, repoPath: string, issue: string, model: Option<string>, mock: bool,
                       sandboxTier: string, autoMergeThreshold: real, createdAt: real)

  datatype Job = Job(jobId: string, runId: string, spec: Spec, attempts: nat)

  /** A stream entry; `Blank` is one without a job field. */
  datatype Entry = Blank | Carries(job: Job)

  datatype Lease = Lease(token: nat, deadline: int)

  datatype Status = Queued | Running | Succeeded | Retrying | DeadLettered

  /**
   Message ids are positions in `stream`; the group has been handed the first `delivered` of them.
   `pending` maps each delivered message that is not acknowledged to the time of its last delivery.
   */
  datatype Store = Store(
    clock: int,
    stream: seq<Entry>, delivered: nat, pending: map<nat, int>, acked: set<nat>,
    leases: map<string, Lease>, nextToken: nat,
    deadLetters: seq<Job>,
    status: map<string, Status>,
    submitted: set<Job>, marks: set<(Job, Status)>)

  const EMPTY := Store(0, [], 0, map[], {}, map[], 0, [], map[], {}, {})

  datatype Reply<T> = Reply(store: Store, value: T)

  /** XADD on the job stream */
  function XAdd(st: Store, entry: Entry): Store {
    st.(stream := st.stream + [entry])
  }

  /** XADD on the dead-letter stream */
  function XAddDead(st: Store, job: Job): Store {
    st.(deadLetters := st.deadLetters + [job])
  }

  /** XREADGROUP with ">" and a count of one */
  function XReadGroup(st: Store): Reply<Option<nat>> {
    if st.delivered < |st.stream| then
      Reply(st.(delivered := st.delivered + 1, pending := st.pending[st.delivered := st.clock]), Some(st.delivered))
    else Reply(st, None)
  }

  /** Messages whose last delivery is at least `idle` old */
  predicate Stale(st: Store, idle: nat, m: nat) {
    m in st.pending && st.clock - st.pending[m] >= idle
  }

  /** The stale messages before message `n`, lowest id first */
  function StaleIds(st: Store, idle: nat, n: nat): (ids: seq<nat>)
    ensures forall m: nat :: m in ids <==> m < n && Stale(st, idle, m)
    ensures forall i, j :: 0 <= i < j < |ids| ==> ids[i] < ids[j]
  {
    if n == 0 then [] else
      var ids := StaleIds(st, idle, n - 1);
      if Stale(st, idle, n - 1) then
        assert forall i :: 0 <= i < |ids| ==> ids[i] in ids;
        ids + [n - 1]
      else ids
  }

  function First(ids: seq<nat>, count: nat): (first: seq<nat>)
    ensures forall m :: m in first ==> m in ids
  {
    if |ids| <= count then ids else ids[..count]
  }

  /** XAUTOCLAIM from the start of the stream: takes over the first `count` stale messages */
  function XAutoClaim(st: Store, idle: nat, count: nat): Reply<seq<nat>> {
    var msgs := First(StaleIds(st, idle, st.delivered), count);
    Reply(st.(pending := map m | m in st.pending :: if m in msgs then st.clock else st.pending[m]), msgs)
  }

  /** XACK */
  function XAck(st: Store, m: nat): Store {
    if m in st.pending then st.(pending := st.pending - {m}, acked := st.acked + {m}) else st
  }

  /** HSET of a job's status */
  function HSet(st: Store, job: Job, status: Status): Store {
    st.(status := st.status[job.jobId := status], marks := st.marks + {(job, status)})
  }

  /** The token of the lease on `id`, if it has not expired */
  function Current(st: Store, id: string): Option<nat> {
    if id in st.leases && st.clock < st.leases[id].deadline then Some(st.leases[id].token) else None
  }

  /** SET NX EX with a fresh token */
  function Acquire(st: Store, id: string, ttl: nat): Reply<Option<nat>> {
    if Current(st, id).Some? then Reply(st, None)
    else
      Reply(st.(leases := st.leases[id := Lease(st.nextToken, st.clock + ttl)], nextToken := st.nextToken + 1),
            Some(st.nextToken))
  }

  /** The compare-and-expire script */
  function Renew(st: Store, id: string, token: nat, ttl: nat): Reply<bool> {
    if Current(st, id) == Some(token) then
      Reply(st.(leases := st.leases[id := Lease(token, st.clock + ttl)]), true)
    else Reply(st, false)
  }

  /** The compare-and-delete script */
  function Release(st: Store, id: string, token: nat): Reply<bool> {
    if Current(st, id) == Some(token) then Reply(st.(leases := st.leases - {id}), true)
    else Reply(st, false)
  }

  // ---------------------------------------------------------------- retries of a job

  /** The job enqueued after a retryable failure of `job` */
  function Retry(job: Job): Job {
    job.(jobId := job.jobId + ":retry:" + Decimal(job.attempts + 1), attempts := job.attempts + 1)
  }

  /** The k-th retry of `base` */
  function Lineage(base: Job, k: nat): Job {
    if k == 0 then base else Retry(Lineage(base, k - 1))
  }

  /** All jobs of a lineage have different ids, and the same request otherwise. */
  lemma {:induction false} LineageIds(base: Job, j: nat, k: nat)
    requires j <= k
    ensures Lineage(base, k).attempts == base.attempts + k
    ensures Lineage(base, k).runId == base.runId && Lineage(base, k).spec == base.spec
    ensures |Lineage(base, k).jobId| >= |Lineage(base, j).jobId| + (k - j)
    decreases k
  {
    if k > 0 {
      LineageIds(base, if j < k then j else k - 1, k - 1);
    }
  }
}
