/** No pending message is stuck: what one worker that goes on working reaches by itself. */
module QueueProgress {
  import opened Text
  import opened FailurePolicy
  import opened JobStore
  import opened QueueMachine
  import opened QueueSafety

  // ---------------------------------------------------------------- runs of one worker without a mishap

  /** Time passes, or worker `w` goes on: no crash, no exception, and every run it executes succeeds. */
  predicate Smooth(w: nat, a: Action) {
    a.Tick? ||
    (a.Do? && a.worker == w &&
     (a.action.AutoClaim? || a.action.ReadGroup? || a.action.NextMessage? || a.action.GiveUp? || a.action.Call? ||
      a.action == Finish(None)))
  }

  ghost predicate Goes(cfg: Config, s: System, w: nat, t: System) {
    exists acts :: Runs(cfg, s, acts, t) && forall a :: a in acts ==> Smooth(w, a)
  }

  lemma GoesNowhere(cfg: Config, s: System, w: nat)
    ensures Goes(cfg, s, w, s)
  {
    assert Runs(cfg, s, [], s);
  }

  lemma GoesOn(cfg: Config, s: System, w: nat, t: System, u: System)
    requires Goes(cfg, s, w, t) && Goes(cfg, t, w, u)
    ensures Goes(cfg, s, w, u)
  {
    var a :| Runs(cfg, s, a, t) && forall x :: x in a ==> Smooth(w, x);
    var b :| Runs(cfg, t, b, u) && forall x :: x in b ==> Smooth(w, x);
    RunsJoin(cfg, s, a, t, b, u);
  }

  lemma GoesInv(cfg: Config, s: System, w: nat, t: System)
    requires Inv(cfg, s) && Goes(cfg, s, w, t)
    ensures Inv(cfg, t)
  {
    var acts :| Runs(cfg, s, acts, t) && forall a :: a in acts ==> Smooth(w, a);
    RunsInv(cfg, s, acts, t);
  }

  lemma GoesStep(cfg: Config, s: System, w: nat, a: Action)
    requires Inv(cfg, s) && Enabled(cfg, s, a) && Smooth(w, a)
    ensures Goes(cfg, s, w, Apply(cfg, s, a)) && Inv(cfg, Apply(cfg, s, a))
  {
    hide Apply, Enabled, Inv, Smooth;
    var t := Apply(cfg, s, a);
    assert [a][1..] == [] && Runs(cfg, t, [], t);
    assert Runs(cfg, s, [a], t);
    GoesInv(cfg, s, w, t);
  }

  /** Worker `w` takes action `a`, whose effect is `e`. */
  lemma Act(cfg: Config, s: System, w: nat, a: WorkerAction, e: Effect) returns (t: System)
    requires Inv(cfg, s) && w < |s.workers| && CanStep(cfg, s.store, s.workers[w], a) && Smooth(w, Do(w, a))
    requires e == Step(cfg, s.store, s.workers[w], a)
    ensures t == System(e.store, s.workers[w := e.worker]) && Goes(cfg, s, w, t) && Inv(cfg, t)
  {
    hide Step, CanStep, Inv, Smooth;
    GoesStep(cfg, s, w, Do(w, a));
    t := Apply(cfg, s, Do(w, a));
  }

  // ---------------------------------------------------------------- what stays

  ghost predicate Onward(a: Store, b: Store) {
    a.clock == b.clock && a.stream <= b.stream && a.delivered <= b.delivered
  }

  /** All leases have run out. */
  ghost predicate Free(st: Store) {
    forall id :: id in st.leases ==> st.leases[id].deadline <= st.clock
  }

  /** All leases have run out but the one of claim `c`. */
  ghost predicate OnlyOf(st: Store, c: Claim) {
    forall id :: id in st.leases ==>
                   st.leases[id].deadline <= st.clock || (id == c.job.jobId && st.leases[id].token == c.token)
  }

  // ---------------------------------------------------------------- a claimed job is worked off

  /** Calls left until the claim is released. */
  function CallsLeft(phase: Phase): nat {
    match phase
    case Held => 7
    case Marked => 6
    case Executing => 5
    case Failed(_) => 4
    case RetryMarked => 3
    case Done => 2
    case DeadMarked => 2
    case Requeued => 2
    case Recorded => 1
    case Buried => 1
    case Listed => 1
    case Releasing => 0
  }

  function WorkAction(phase: Phase): WorkerAction {
    if phase.Executing? then Finish(None) else Call
  }

  lemma WorkStep(cfg: Config, st: Store, c: Claim, phase: Phase)
    requires OnlyOf(st, c) && CanStep(cfg, st, Working(c, phase), WorkAction(phase))
    ensures var e := Step(cfg, st, Working(c, phase), WorkAction(phase));
            Onward(st, e.store) && e.store.delivered == st.delivered &&
            e.store.pending == (if CallsLeft(phase) == 1 then st.pending - {c.msg} else st.pending) &&
            if phase.Releasing? then e.worker == Idle && Free(e.store)
            else
              e.worker.Working? && OnlyOf(e.store, e.worker.claim) && e.worker.claim.msg == c.msg &&
              CallsLeft(e.worker.phase) < CallsLeft(phase) && (CallsLeft(phase) == 1 <==> e.worker.phase.Releasing?)
  {
    hide ShouldRetry, StartLost, Retry;
  }

  lemma {:induction false} CompleteWork(cfg: Config, s: System, w: nat) returns (t: System)
    requires Inv(cfg, s) && w < |s.workers| && s.workers[w].Working? && OnlyOf(s.store, s.workers[w].claim)
    ensures Goes(cfg, s, w, t) && Inv(cfg, t) && t.workers == s.workers[w := Idle]
    ensures Onward(s.store, t.store) && t.store.delivered == s.store.delivered && Free(t.store)
    ensures t.store.pending ==
            if s.workers[w].phase.Releasing? then s.store.pending else s.store.pending - {s.workers[w].claim.msg}
    decreases CallsLeft(s.workers[w].phase)
  {
    hide Inv, Goes, OnlyOf, Free, Step;
    var c, phase := s.workers[w].claim, s.workers[w].phase;
    WorkStep(cfg, s.store, c, phase);
    var u := Act(cfg, s, w, WorkAction(phase), Step(cfg, s.store, s.workers[w], WorkAction(phase)));
    if phase.Releasing? {
      t := u;
    } else {
      t := CompleteWork(cfg, u, w);
      GoesOn(cfg, s, w, u, t);
      assert u.workers[w := Idle] == s.workers[w := Idle];
    }
  }

  // ---------------------------------------------------------------- the messages at hand

  predicate Ascending(msgs: seq<nat>) {
    forall i, j :: 0 <= i < j < |msgs| ==> msgs[i] < msgs[j]
  }

  /** Worker `w` holds a fresh claim on message `m`. */
  ghost predicate Took(s: System, w: nat, m: nat) {
    w < |s.workers| && s.workers[w].Working? && s.workers[w].phase == Held && s.workers[w].claim.msg == m &&
    m < |s.store.stream| && s.store.stream[m] == Carries(s.workers[w].claim.job) &&
    OnlyOf(s.store, s.workers[w].claim) && Holds(s.store, s.workers[w].claim)
  }

  /** No message leaves the pending list but acknowledged ones of `msgs` that have no job. */
  ghost predicate KeepsPending(a: Store, b: Store, msgs: seq<nat>) {
    b.pending.Keys <= a.pending.Keys &&
    forall x :: x in a.pending && x !in b.pending ==> x in msgs && x < |a.stream| && a.stream[x].Blank?
  }

  /** The first message that has a job is claimed; if none has, all are acknowledged. */
  ghost predicate Tried(s: System, w: nat, msgs: seq<nat>, t: System) {
    t.store.stream == s.store.stream && t.store.clock == s.store.clock && t.store.delivered == s.store.delivered &&
    w < |t.workers| == |s.workers| && KeepsPending(s.store, t.store, msgs) &&
    ((Free(t.store) && t.workers[w].Trying? && t.workers[w].msgs == [] &&
      forall x :: x in msgs ==> x !in t.store.pending && (x < |s.store.stream| ==> s.store.stream[x].Blank?)) ||
     (t.workers[w].Working? && Took(t, w, t.workers[w].claim.msg) && t.workers[w].claim.msg in msgs &&
      forall x :: x in msgs && x < |s.store.stream| && s.store.stream[x].Carries? ==> t.workers[w].claim.msg <= x))
  }

  lemma TriedNone(s: System, w: nat)
    requires w < |s.workers| && s.workers[w].Trying? && s.workers[w].msgs == [] && Free(s.store)
    ensures Tried(s, w, [], s)
  {
  }

  /** The first message has a job, and no lease is in the way. */
  lemma TryJob(cfg: Config, s: System, w: nat)
    requires w < |s.workers| && s.workers[w].Trying? && s.workers[w].msgs != [] && Free(s.store)
    requires var msgs := s.workers[w].msgs;
             Ascending(msgs) && msgs[0] < |s.store.stream| && s.store.stream[msgs[0]].Carries?
    ensures var e := TryMessage(cfg, s.store, s.workers[w].msgs, s.workers[w].direct);
            e.worker.Working? && Tried(s, w, s.workers[w].msgs, System(e.store, s.workers[w := e.worker]))
  {
  }

  /** The first message has no job. */
  lemma TryBlank(cfg: Config, s: System, w: nat)
    requires w < |s.workers| && s.workers[w].Trying? && s.workers[w].msgs != [] && Free(s.store)
    requires var m := s.workers[w].msgs[0]; m < |s.store.stream| && s.store.stream[m].Blank?
    ensures var msgs, e := s.workers[w].msgs, TryMessage(cfg, s.store, s.workers[w].msgs, s.workers[w].direct);
            e == Effect(XAck(s.store, msgs[0]), Trying(msgs[1..], s.workers[w].direct)) && Free(e.store)
  {
  }

  /** A message without a job in front changes nothing for the others. */
  lemma TriedCons(s: System, w: nat, msgs: seq<nat>, u: System, t: System)
    requires msgs != [] && Ascending(msgs) && msgs[0] < |s.store.stream| && s.store.stream[msgs[0]].Blank?
    requires u.store == XAck(s.store, msgs[0]) && |u.workers| == |s.workers| && Tried(u, w, msgs[1..], t)
    ensures Tried(s, w, msgs, t)
  {
    hide Free, Took;
    assert forall x :: x in msgs <==> x == msgs[0] || x in msgs[1..];
  }

  lemma {:induction false} TryAll(cfg: Config, s: System, w: nat) returns (t: System)
    requires Inv(cfg, s) && w < |s.workers| && s.workers[w].Trying? && Ascending(s.workers[w].msgs) && Free(s.store)
    ensures Goes(cfg, s, w, t) && Inv(cfg, t) && Tried(s, w, s.workers[w].msgs, t)
    ensures t.workers[w].Trying? ==> t.workers[w].direct == s.workers[w].direct
    decreases |s.workers[w].msgs|
  {
    hide Inv, Goes, Free, Tried, TryMessage;
    var st, msgs := s.store, s.workers[w].msgs;
    if msgs == [] {
      GoesNowhere(cfg, s, w);
      TriedNone(s, w);
      t := s;
    } else {
      AtHand(cfg, s, w);
      var u := Act(cfg, s, w, NextMessage, TryMessage(cfg, st, msgs, s.workers[w].direct));
      if st.stream[msgs[0]].Carries? {
        TryJob(cfg, s, w);
        t := u;
      } else {
        TryBlank(cfg, s, w);
        t := TryAll(cfg, u, w);
        GoesOn(cfg, s, w, u, t);
        TriedCons(s, w, msgs, u, t);
      }
    }
  }

  lemma AtHand(cfg: Config, s: System, w: nat)
    requires Inv(cfg, s) && w < |s.workers| && s.workers[w].Trying? && s.workers[w].msgs != []
    ensures s.workers[w].msgs[0] < |s.store.stream|
    ensures s.workers[w].msgs[0] in s.store.pending || s.workers[w].msgs[0] in s.store.acked
  {
    assert s.workers[w] in s.workers;
    assert WorkFacts(cfg, s.store, s.workers[w]);
    assert s.workers[w].msgs[0] in s.workers[w].msgs;
  }

  // ---------------------------------------------------------------- after the stale messages, a new one

  lemma GiveUpAfter(cfg: Config, s: System, u: System, w: nat) returns (t: System)
    requires Inv(cfg, u) && Goes(cfg, s, w, u) && w < |u.workers| && u.workers[w] == Trying([], true)
    ensures Goes(cfg, s, w, t) && Inv(cfg, t) && t.store == u.store && t.workers == u.workers[w := Idle]
  {
    hide Goes, Inv;
    t := Act(cfg, u, w, GiveUp, Effect(u.store, Idle));
    GoesOn(cfg, s, w, u, t);
  }

  /** The one new message at hand is worked off. */
  lemma TryNew(cfg: Config, s: System, w: nat, m: nat) returns (t: System)
    requires Inv(cfg, s) && w < |s.workers| && s.workers[w] == Trying([m], true) && Free(s.store)
    ensures Goes(cfg, s, w, t) && Inv(cfg, t) && |t.workers| == |s.workers| && t.workers[w].Idle?
    ensures t.store.pending.Keys == s.store.pending.Keys - {m} && s.store.stream <= t.store.stream
  {
    hide Inv, Goes, Free, OnlyOf, Holds;
    var v := TryAll(cfg, s, w);
    assert m in [m];
    if v.workers[w].Trying? {
      assert v.store.pending.Keys == s.store.pending.Keys - {m};
      t := GiveUpAfter(cfg, s, v, w);
    } else {
      assert v.workers[w].claim.msg == m;
      assert v.store.pending.Keys - {m} == s.store.pending.Keys - {m};
      t := CompleteWork(cfg, v, w);
      GoesOn(cfg, s, w, v, t);
    }
  }

  /** With no stale job left, the worker reads a new message, if there is one, and works it off. */
  lemma ReadNew(cfg: Config, s: System, w: nat) returns (t: System)
    requires Inv(cfg, s) && w < |s.workers| && s.workers[w] == Trying([], false) && Free(s.store)
    ensures Goes(cfg, s, w, t) && Inv(cfg, t) && |t.workers| == |s.workers| && t.workers[w].Idle?
    ensures t.store.pending.Keys == s.store.pending.Keys && s.store.stream <= t.store.stream
  {
    var st, m := s.store, s.store.delivered;
    assert StoreFacts(cfg, st) && Delivery(st);
    assert m !in st.pending;
    hide Inv, Goes, StoreFacts;
    var r := XReadGroup(st);
    var u := Act(cfg, s, w, ReadGroup, Effect(r.store, Trying(if r.value.Some? then [r.value.value] else [], true)));
    if r.value.None? {
      t := GiveUpAfter(cfg, s, u, w);
    } else {
      t := TryNew(cfg, u, w, m);
      GoesOn(cfg, s, w, u, t);
      assert u.store.pending.Keys - {m} == st.pending.Keys;
    }
  }

  // ---------------------------------------------------------------- waiting

  lemma {:induction false} Bound<K>(times: map<K, int>) returns (b: int)
    ensures forall k :: k in times ==> times[k] <= b
    decreases |times|
  {
    if times == map[] {
      b := 0;
    } else {
      var k :| k in times;
      var rest := times - {k};
      assert |rest.Keys| < |times.Keys| by {
        assert rest.Keys == times.Keys - {k};
      }
      var more := Bound(rest);
      b := if times[k] > more then times[k] else more;
      assert forall x :: x in times && x != k ==> x in rest && rest[x] == times[x];
    }
  }

  ghost predicate AllStale(st: Store, idle: nat) {
    forall m :: m in st.pending ==> Stale(st, idle, m)
  }

  /** After some time all leases have run out and all pending messages are stale. */
  lemma LongEnough(st: Store, idle: nat) returns (d: nat)
    ensures Free(st.(clock := st.clock + d)) && AllStale(st.(clock := st.clock + d), idle)
  {
    var deadlines := map id | id in st.leases :: st.leases[id].deadline;
    var a := Bound(st.pending);
    var b := Bound(deadlines);
    var latest := if a + idle > b then a + idle else b;
    d := if latest > st.clock then latest - st.clock else 0;
    forall id | id in st.leases
      ensures st.leases[id].deadline <= st.clock + d
    {
      assert id in deadlines && deadlines[id] <= b;
    }
  }

  // ---------------------------------------------------------------- one round

  ghost function Before(st: Store, m: nat): set<nat> {
    set x | x in st.pending && x < m
  }

  /** Message `m` waits to be taken over. */
  ghost predicate Waits(s: System, w: nat, m: nat, job: Job) {
    w < |s.workers| && s.workers[w].Idle? && m in s.store.pending && m < |s.store.stream| &&
    s.store.stream[m] == Carries(job)
  }

  /** The scan finds the lowest pending messages once all are stale. */
  lemma ScanLowest(st: Store, idle: nat, m: nat)
    requires AllStale(st, idle) && m in st.pending && m < st.delivered
    ensures var msgs := XAutoClaim(st, idle, SCAN_COUNT).value;
            Ascending(msgs) && (forall x :: x in msgs ==> x in st.pending) && msgs != [] &&
            (m in msgs || forall x :: x in msgs ==> x < m)
  {
    var all := StaleIds(st, idle, st.delivered);
    hide StaleIds;
    assert m in all;
    var k :| 0 <= k < |all| && all[k] == m;
    var msgs := First(all, SCAN_COUNT);
    if k < |msgs| {
      assert msgs[k] == m;
    } else {
      forall x | x in msgs
        ensures x < m
      {
        var i :| 0 <= i < |msgs| && msgs[i] == x;
        assert all[i] == x && i < k;
      }
    }
  }

  /** The worker waits until everything is stale and scans. */
  lemma WaitAndScan(cfg: Config, s: System, w: nat, m: nat, job: Job) returns (t: System)
    requires Inv(cfg, s) && Waits(s, w, m, job)
    ensures Goes(cfg, s, w, t) && Inv(cfg, t) && |t.workers| == |s.workers| && t.workers[w].Trying?
    ensures !t.workers[w].direct && Ascending(t.workers[w].msgs) && Free(t.store)
    ensures t.store.stream == s.store.stream && t.store.pending.Keys == s.store.pending.Keys
    ensures var msgs := t.workers[w].msgs;
            msgs != [] && (forall x :: x in msgs ==> x in s.store.pending) &&
            (m in msgs || forall x :: x in msgs ==> x < m)
  {
    hide Goes, StaleIds, First;
    var d := LongEnough(s.store, cfg.visibility);
    GoesStep(cfg, s, w, Tick(d));
    var u := Apply(cfg, s, Tick(d));
    assert StoreFacts(cfg, u.store) && Delivery(u.store);
    ScanLowest(u.store, cfg.visibility, m);
    var r := XAutoClaim(u.store, cfg.visibility, SCAN_COUNT);
    t := Act(cfg, u, w, AutoClaim, Effect(r.store, Trying(r.value, false)));
    GoesOn(cfg, s, w, u, t);
  }

  /** Either `m` is taken over, or the worker has dealt with a message before it and is idle again. */
  lemma Round(cfg: Config, s: System, w: nat, m: nat, job: Job) returns (t: System)
    requires Inv(cfg, s) && Waits(s, w, m, job)
    ensures Goes(cfg, s, w, t) && Inv(cfg, t)
    ensures (Took(t, w, m) && t.workers[w].claim.job == job) ||
            (Waits(t, w, m, job) && Before(t.store, m) < Before(s.store, m))
  {
    hide Goes, Inv, Free, OnlyOf, Holds;
    var u := WaitAndScan(cfg, s, w, m, job);
    var msgs := u.workers[w].msgs;
    var v := TryAll(cfg, u, w);
    GoesOn(cfg, s, w, u, v);
    assert u.store.stream[m].Carries?;
    if v.workers[w].Working? {
      var k := v.workers[w].claim.msg;
      if k == m {
        t := v;
      } else {
        assert k < m;
        t := CompleteWork(cfg, v, w);
        GoesOn(cfg, s, w, v, t);
        assert k in Before(s.store, m) && k !in Before(t.store, m);
      }
    } else {
      assert m !in msgs;
      t := ReadNew(cfg, v, w);
      GoesOn(cfg, s, w, v, t);
      assert msgs[0] in msgs;
      assert msgs[0] in Before(s.store, m) && msgs[0] !in Before(t.store, m);
    }
  }

  lemma {:induction false} TakesOver(cfg: Config, s: System, w: nat, m: nat, job: Job) returns (t: System)
    requires Inv(cfg, s) && Waits(s, w, m, job)
    ensures Goes(cfg, s, w, t) && Inv(cfg, t) && Took(t, w, m) && t.workers[w].claim.job == job
    decreases Before(s.store, m)
  {
    hide Inv, Goes, Waits, Before, OnlyOf, Holds;
    var u := Round(cfg, s, w, m, job);
    if Took(u, w, m) && u.workers[w].claim.job == job {
      t := u;
    } else {
      t := TakesOver(cfg, u, w, m, job);
      GoesOn(cfg, s, w, u, t);
    }
  }

  /**
   A pending message is never stuck.  From every reachable state an idle worker that just goes on working by itself,
   without any crash or exception, takes it over with a lease of its own, whatever its last consumer did and however
   many messages are pending before it: it waits, scans, and works off what the scan finds first.
   */
  lemma PendingIsReclaimed(cfg: Config, s: System, w: nat, m: nat, job: Job) returns (t: System)
    requires Reachable(cfg, s) && w < |s.workers| && s.workers[w].Idle?
    requires m in s.store.pending && m < |s.store.stream| && s.store.stream[m] == Carries(job)
    ensures Goes(cfg, s, w, t) && Reachable(cfg, t) && w < |t.workers| && t.workers[w].Working?
    ensures t.workers[w].claim.job == job && t.workers[w].claim.msg == m && t.workers[w].phase == Held
    ensures Holds(t.store, t.workers[w].claim)
  {
    hide Inv, Runs;
    ReachableInv(cfg, s);
    t := TakesOver(cfg, s, w, m, job);
    var acts :| Runs(cfg, s, acts, t) && forall a :: a in acts ==> Smooth(w, a);
    ReachMore(cfg, s, acts, t);
  }
}
