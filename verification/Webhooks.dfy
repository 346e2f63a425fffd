/** Outbound webhook delivery: bounded retries with exponential backoff, then one dead letter. */
module Webhooks {
  datatype Status = Pending | Delivered | Failed | Retrying

  /** What one HTTP post comes back with. */
  datatype Response = Code(code: int) | Timeout | OtherError

  predicate Succeeds(r: Response) {
    r.Code? && 200 <= r.code < 300
  }

  /** `org == ""` in a query means any organization. */
  datatype Subscription = Subscription(id: string, orgId: string, events: set<string>, active: bool,
                                       maxRetries: int, backoffBase: int)

  predicate Matches(s: Subscription, event: string, org: string) {
    s.active && (org != "" ==> s.orgId == org) && event in s.events
  }

  function Pow2(n: nat): nat {
    if n == 0 then 1 else 2 * Pow2(n - 1)
  }

  /** The most posts one delivery gets: `maxRetries` counts the first post too, except that 1 still allows two. */
  function PostLimit(maxRetries: int): nat {
    if maxRetries <= 0 then 1 else if maxRetries < 2 then 2 else maxRetries
  }

  /**
   How a delivery with these answers must end: after `posts` posts, the earlier ones unsuccessful, delivered if the
   last one succeeded and given up only at the limit.
   */
  ghost predicate Ends(maxRetries: int, answer: nat -> Response, posts: nat, delivered: bool) {
    1 <= posts <= PostLimit(maxRetries) && (forall k :: 0 <= k < posts - 1 ==> !Succeeds(answer(k))) &&
    (delivered <==> Succeeds(answer(posts - 1))) && (!delivered ==> posts == PostLimit(maxRetries))
  }

  /** There is exactly one such end, and it is a delivery exactly when a post within the limit would succeed. */
  lemma EndIsUnique(maxRetries: int, answer: nat -> Response, p: nat, d: bool, p': nat, d': bool)
    requires Ends(maxRetries, answer, p, d) && Ends(maxRetries, answer, p', d')
    ensures p == p' && d == d'
    ensures d <==> exists k: nat :: k < PostLimit(maxRetries) && Succeeds(answer(k))
  {
    assert d ==> Succeeds(answer(p - 1));
    assert d' ==> Succeeds(answer(p' - 1));
  }

  class Delivery {
    const id: string
    const subscriptionId: string
    /** The answer to its k-th post. */
    const answer: nat -> Response
    var status: Status
    var attemptNumber: nat

    constructor (id: string, subscriptionId: string, answer: nat -> Response)
      ensures this.id == id && this.subscriptionId == subscriptionId && this.answer == answer && status == Pending && attemptNumber == 0
    {
      this.id, this.subscriptionId, this.answer, status, attemptNumber := id, subscriptionId, answer, Pending, 0;
    }
  }

  class Engine {
    /** Ids of the deliveries appended to the dead-letter file. */
    var deadLetters: seq<string>
    var slept: int

    constructor ()
      ensures deadLetters == [] && slept == 0
    {
      deadLetters, slept := [], 0;
    }

    method DeliverOne(d: Delivery)
      modifies d
      ensures d.attemptNumber == old(d.attemptNumber) + 1
      ensures d.status == if Succeeds(d.answer(old(d.attemptNumber))) then Delivered else Failed
    {
      d.attemptNumber := d.attemptNumber + 1;
      d.status := Retrying;
      match d.answer(d.attemptNumber - 1)
      case Code(code) => d.status := if 200 <= code < 300 then Delivered else Failed;
      case Timeout => d.status := Failed;
      case OtherError => d.status := Failed;
    }

    /** The retries after a first post that failed. */
    method RetryDelivery(sub: Subscription, d: Delivery)
      requires d.attemptNumber == 1 && d.status == Failed && !Succeeds(d.answer(0))
      modifies this, d
      ensures Ends(sub.maxRetries, d.answer, d.attemptNumber, d.status == Delivered)
      ensures d.status == Delivered || d.status == Failed
      ensures deadLetters == old(deadLetters) + if d.status == Delivered then [] else [d.id]
      ensures slept == old(slept) + sub.backoffBase * (Pow2(d.attemptNumber - 1) - 1)
    {
      var attempt := 0;
      while attempt < sub.maxRetries
        invariant 0 <= attempt && d.attemptNumber == attempt + 1 && d.status == Failed
        invariant attempt < sub.maxRetries ==> attempt + 1 < PostLimit(sub.maxRetries)
        invariant attempt >= sub.maxRetries ==> sub.maxRetries <= 0 && attempt == 0
        invariant forall k :: 0 <= k <= attempt ==> !Succeeds(d.answer(k))
        invariant deadLetters == old(deadLetters)
        invariant slept == old(slept) + sub.backoffBase * (Pow2(attempt) - 1)
      {
        slept := slept + sub.backoffBase * Pow2(attempt);
        Doubling(sub.backoffBase, attempt);
        DeliverOne(d);
        if d.status == Delivered {
          return;
        }
        attempt := attempt + 1;
        if d.attemptNumber >= sub.maxRetries {
          break;
        }
      }
      deadLetters := deadLetters + [d.id];
    }

    /** The task `dispatch` starts for one delivery. */
    method Attempt(sub: Subscription, d: Delivery)
      requires d.attemptNumber == 0
      modifies this, d
      ensures Ends(sub.maxRetries, d.answer, d.attemptNumber, d.status == Delivered)
      ensures d.status == Delivered || d.status == Failed
      ensures deadLetters == old(deadLetters) + if d.status == Delivered then [] else [d.id]
      ensures slept == old(slept) + sub.backoffBase * (Pow2(d.attemptNumber - 1) - 1)
    {
      DeliverOne(d);
      if d.status != Delivered {
        RetryDelivery(sub, d);
      }
    }

    /**
     All matching subscriptions get a delivery each, with the ids and answers given. The tasks are run one after the
     other here; `ScheduleIrrelevant` says that no interleaving ends otherwise, but for the order of the dead letters.
     */
    method Dispatch(subscriptions: seq<Subscription>, event: string, org: string, ids: nat -> string,
                    answers: nat -> nat -> Response) returns (subs: seq<Subscription>, deliveries: seq<Delivery>)
      modifies this
      ensures Receivers(subscriptions, event, org, subs) && |deliveries| == |subs|
      ensures forall i :: 0 <= i < |subs| ==>
                fresh(deliveries[i]) && deliveries[i].id == ids(i) && deliveries[i].subscriptionId == subs[i].id &&
                deliveries[i].answer == answers(i) &&
                Ends(subs[i].maxRetries, answers(i), deliveries[i].attemptNumber, deliveries[i].status == Delivered)
      ensures deadLetters == old(deadLetters) + Undelivered(deliveries)
    {
      hide Ends, Matching, Undelivered, Receivers;
      subs, deliveries := Matching(subscriptions, event, org), [];
      MatchingPicks(subscriptions, event, org);
      while |deliveries| < |subs|
        invariant |deliveries| <= |subs| && Apart(deliveries) && forall i :: 0 <= i < |deliveries| ==> fresh(deliveries[i])
        invariant forall i :: 0 <= i < |deliveries| ==>
                    deliveries[i].id == ids(i) && deliveries[i].subscriptionId == subs[i].id &&
                    deliveries[i].answer == answers(i) && deliveries[i].attemptNumber == 0
        modifies {}
      {
        var d := new Delivery(ids(|deliveries|), subs[|deliveries|].id, answers(|deliveries|));
        deliveries := deliveries + [d];
      }
      AttemptAll(subs, deliveries);
    }

    method AttemptAll(subs: seq<Subscription>, deliveries: seq<Delivery>)
      requires |subs| == |deliveries| && Apart(deliveries)
      requires forall i :: 0 <= i < |deliveries| ==> deliveries[i].attemptNumber == 0
      modifies this, deliveries
      ensures forall i :: 0 <= i < |subs| ==>
                Ends(subs[i].maxRetries, deliveries[i].answer, deliveries[i].attemptNumber, deliveries[i].status == Delivered)
      ensures deadLetters == old(deadLetters) + Undelivered(deliveries)
    {
      hide Ends, Pow2, Undelivered;
      UndeliveredNone(deliveries);
      var n := 0;
      while n < |subs|
        invariant n <= |subs|
        invariant forall i :: n <= i < |subs| ==> deliveries[i].attemptNumber == 0
        invariant forall i :: 0 <= i < n ==>
                    Ends(subs[i].maxRetries, deliveries[i].answer, deliveries[i].attemptNumber, deliveries[i].status == Delivered)
        invariant deadLetters == old(deadLetters) + Undelivered(deliveries[..n])
      {
        var d := deliveries[n];
        assert forall i :: 0 <= i < |subs| && i != n ==> deliveries[i] != d;
        assert d !in deliveries[..n];
        ghost var before := Undelivered(deliveries[..n]);
        Attempt(subs[n], d);
        assert before == Undelivered(deliveries[..n]);
        UndeliveredNext(deliveries, n);
        n := n + 1;
      }
      assert deliveries[..n] == deliveries;
    }
  }

  ghost predicate Apart(deliveries: seq<Delivery>) {
    forall i, j :: 0 <= i < j < |deliveries| ==> deliveries[i] != deliveries[j]
  }

  function Matching(subs: seq<Subscription>, event: string, org: string): seq<Subscription> {
    if subs == [] then [] else
      Matching(subs[..|subs| - 1], event, org) +
      if Matches(subs[|subs| - 1], event, org) then [subs[|subs| - 1]] else []
  }

  /**
   `subs` are exactly the subscriptions of the list that are active, of the organization if one is named, and have the
   event; each as often as in the list, and in its order.
   */
  ghost predicate Receivers(all: seq<Subscription>, event: string, org: string, subs: seq<Subscription>) {
    exists at: seq<nat> :: TakenFrom(all, event, org, subs, at)
  }

  /** The k-th one comes from place `at[k]` of the list. */
  ghost predicate TakenFrom(all: seq<Subscription>, event: string, org: string, subs: seq<Subscription>, at: seq<nat>) {
    |at| == |subs| && (forall k :: 0 <= k < |at| ==> at[k] < |all| && subs[k] == all[at[k]]) &&
    (forall j, k :: 0 <= j < k < |at| ==> at[j] < at[k]) &&
    forall i: nat :: i < |all| ==>
                       (i in at <==> all[i].active && (org == "" || all[i].orgId == org) && event in all[i].events)
  }

  lemma {:induction false} MatchingPlaces(all: seq<Subscription>, event: string, org: string) returns (at: seq<nat>)
    ensures TakenFrom(all, event, org, Matching(all, event, org), at)
    decreases |all|
  {
    if all == [] {
      at := [];
    } else {
      var n := |all| - 1;
      var before := MatchingPlaces(all[..n], event, org);
      hide TakenFrom, Matches;
      if Matches(all[n], event, org) {
        at := before + [n];
        OneTaken(all, event, org, Matching(all[..n], event, org), before);
      } else {
        at := before;
        NoneTaken(all, event, org, Matching(all[..n], event, org), before);
      }
    }
  }

  lemma OneTaken(all: seq<Subscription>, event: string, org: string, subs: seq<Subscription>, at: seq<nat>)
    requires all != [] && Matches(all[|all| - 1], event, org) && TakenFrom(all[..|all| - 1], event, org, subs, at)
    ensures TakenFrom(all, event, org, subs + [all[|all| - 1]], at + [|all| - 1])
  {
    var n, more := |all| - 1, at + [|all| - 1];
    forall i: nat | i < |all|
      ensures i in more <==> all[i].active && (org == "" || all[i].orgId == org) && event in all[i].events
    {
      assert i in more <==> i in at || i == n;
      if i < n {
        assert all[..n][i] == all[i];
      }
    }
    assert forall k :: 0 <= k < |at| ==> more[k] == at[k] < n && all[..n][at[k]] == all[at[k]];
  }

  lemma NoneTaken(all: seq<Subscription>, event: string, org: string, subs: seq<Subscription>, at: seq<nat>)
    requires all != [] && !Matches(all[|all| - 1], event, org) && TakenFrom(all[..|all| - 1], event, org, subs, at)
    ensures TakenFrom(all, event, org, subs, at)
  {
    var n := |all| - 1;
    assert forall k :: 0 <= k < |at| ==> at[k] < n && all[..n][at[k]] == all[at[k]];
    forall i: nat | i < |all|
      ensures i in at <==> all[i].active && (org == "" || all[i].orgId == org) && event in all[i].events
    {
      if i < n {
        assert all[..n][i] == all[i];
      }
    }
  }

  lemma MatchingPicks(all: seq<Subscription>, event: string, org: string)
    ensures Receivers(all, event, org, Matching(all, event, org))
  {
    var at := MatchingPlaces(all, event, org);
  }

  /** The ids of the deliveries that did not succeed, in order. */
  function Undelivered(deliveries: seq<Delivery>): seq<string>
    reads deliveries
  {
    if deliveries == [] then [] else
      Undelivered(deliveries[..|deliveries| - 1]) +
      if deliveries[|deliveries| - 1].status == Delivered then [] else [deliveries[|deliveries| - 1].id]
  }

  lemma UndeliveredNone(deliveries: seq<Delivery>)
    ensures Undelivered(deliveries[..0]) == []
  {
  }

  lemma UndeliveredNext(deliveries: seq<Delivery>, n: nat)
    requires n < |deliveries|
    ensures Undelivered(deliveries[..n + 1]) ==
            Undelivered(deliveries[..n]) + if deliveries[n].status == Delivered then [] else [deliveries[n].id]
  {
    assert deliveries[..n + 1][..n] == deliveries[..n];
  }

  lemma Doubling(base: int, n: nat)
    ensures base * (Pow2(n) - 1) + base * Pow2(n) == base * (Pow2(n + 1) - 1)
  {
    assert base * (Pow2(n) - 1) + base * Pow2(n) == base * (Pow2(n) - 1 + Pow2(n));
  }

  // ---------------------------------------------------------------- deliveries side by side

  /** The task of one delivery between two posts. */
  datatype Task = Task(posts: nat, delivered: bool, over: bool)

  /** All tasks of one dispatch, and the deliveries given up so far, by number. */
  datatype Fleet = Fleet(tasks: seq<Task>, dead: seq<nat>)

  /** Task `i` posts once more; after the last unsuccessful post the dead letter is written without another await. */
  function Post(subs: seq<Subscription>, answers: nat -> nat -> Response, f: Fleet, i: nat): Fleet {
    if i >= |f.tasks| || i >= |subs| || f.tasks[i].over then f else
      var posts, ok := f.tasks[i].posts + 1, Succeeds(answers(i)(f.tasks[i].posts));
      var over := ok || posts >= PostLimit(subs[i].maxRetries);
      Fleet(f.tasks[i := Task(posts, ok, over)], if over && !ok then f.dead + [i] else f.dead)
  }

  /** `schedule` says which task goes on at each turn of the event loop. */
  function Scheduled(subs: seq<Subscription>, answers: nat -> nat -> Response, schedule: seq<nat>): Fleet {
    if schedule == [] then Fleet(seq(|subs|, _ => Task(0, false, false)), []) else
      Post(subs, answers, Scheduled(subs, answers, schedule[..|schedule| - 1]), schedule[|schedule| - 1])
  }

  /** Once for each task that has given up. */
  function DeadLettersOf(t: Task): nat {
    if t.over && !t.delivered then 1 else 0
  }

  ghost predicate TaskOk(sub: Subscription, answer: nat -> Response, t: Task) {
    if t.over then Ends(sub.maxRetries, answer, t.posts, t.delivered)
    else !t.delivered && t.posts < PostLimit(sub.maxRetries) && forall k :: 0 <= k < t.posts ==> !Succeeds(answer(k))
  }

  ghost predicate FleetOk(subs: seq<Subscription>, answers: nat -> nat -> Response, f: Fleet) {
    |f.tasks| == |subs| && (forall x :: x in f.dead ==> x < |subs|) &&
    forall i :: 0 <= i < |subs| ==>
                  TaskOk(subs[i], answers(i), f.tasks[i]) && multiset(f.dead)[i] == DeadLettersOf(f.tasks[i])
  }

  lemma PostOk(sub: Subscription, answer: nat -> Response, t: Task)
    requires TaskOk(sub, answer, t) && !t.over
    ensures var ok := Succeeds(answer(t.posts));
            TaskOk(sub, answer, Task(t.posts + 1, ok, ok || t.posts + 1 >= PostLimit(sub.maxRetries)))
  {
  }

  lemma PostKeeps(subs: seq<Subscription>, answers: nat -> nat -> Response, f: Fleet, i: nat)
    requires FleetOk(subs, answers, f)
    ensures FleetOk(subs, answers, Post(subs, answers, f, i))
  {
    if i < |subs| && !f.tasks[i].over {
      PostOk(subs[i], answers(i), f.tasks[i]);
      hide TaskOk;
      var g := Post(subs, answers, f, i);
      assert g.dead == f.dead || g.dead == f.dead + [i];
      assert multiset(f.dead + [i]) == multiset(f.dead) + multiset{i};
      forall j | 0 <= j < |subs|
        ensures TaskOk(subs[j], answers(j), g.tasks[j]) && multiset(g.dead)[j] == DeadLettersOf(g.tasks[j])
      {
        assert j != i ==> g.tasks[j] == f.tasks[j];
      }
    }
  }

  /** Under every schedule each task that is over has ended as it must, and exactly the failed ones left a dead letter. */
  lemma {:induction false} EveryInterleaving(subs: seq<Subscription>, answers: nat -> nat -> Response,
                                             schedule: seq<nat>)
    ensures FleetOk(subs, answers, Scheduled(subs, answers, schedule))
    decreases |schedule|
  {
    if schedule != [] {
      hide FleetOk, Post;
      EveryInterleaving(subs, answers, schedule[..|schedule| - 1]);
      PostKeeps(subs, answers, Scheduled(subs, answers, schedule[..|schedule| - 1]), schedule[|schedule| - 1]);
    }
  }

  ghost predicate AllOver(f: Fleet) {
    forall i :: 0 <= i < |f.tasks| ==> f.tasks[i].over
  }

  lemma SameFleet(subs: seq<Subscription>, answers: nat -> nat -> Response, f: Fleet, g: Fleet)
    requires FleetOk(subs, answers, f) && FleetOk(subs, answers, g) && AllOver(f) && AllOver(g)
    ensures f.tasks == g.tasks && multiset(f.dead) == multiset(g.dead)
  {
    hide Ends;
    forall i | 0 <= i < |subs|
      ensures f.tasks[i] == g.tasks[i]
    {
      EndIsUnique(subs[i].maxRetries, answers(i), f.tasks[i].posts, f.tasks[i].delivered,
                  g.tasks[i].posts, g.tasks[i].delivered);
    }
    assert f.tasks == g.tasks;
    forall x: nat
      ensures multiset(f.dead)[x] == multiset(g.dead)[x]
    {
      if x >= |subs| {
        assert x !in f.dead && x !in g.dead;
      }
    }
  }

  /** Two complete schedules end every delivery alike and write the same dead letters, in whatever order. */
  lemma ScheduleIrrelevant(subs: seq<Subscription>, answers: nat -> nat -> Response, a: seq<nat>, b: seq<nat>)
    requires AllOver(Scheduled(subs, answers, a)) && AllOver(Scheduled(subs, answers, b))
    ensures Scheduled(subs, answers, a).tasks == Scheduled(subs, answers, b).tasks
    ensures multiset(Scheduled(subs, answers, a).dead) == multiset(Scheduled(subs, answers, b).dead)
  {
    hide FleetOk, AllOver, Scheduled;
    EveryInterleaving(subs, answers, a);
    EveryInterleaving(subs, answers, b);
    SameFleet(subs, answers, Scheduled(subs, answers, a), Scheduled(subs, answers, b));
  }
}
