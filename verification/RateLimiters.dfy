/** The three limiters, each deciding what the sliding-window reference decides. */
module RateLimiters {
  import opened SlidingWindow
  import opened Text

  /** Past requests of a limiter, none of them later than `clock`. */
  ghost predicate UpTo(past: seq<Request>, clock: Time) {
    0.0 <= clock && forall i :: 0 <= i < |past| ==> 0.0 <= past[i].at <= clock
  }

  lemma {:induction false} AdmittedUpTo(p: Policy, past: seq<Request>, key: string, clock: Time)
    requires UpTo(past, clock)
    ensures forall t :: t in Admitted(p, past, key) ==> 0.0 <= t <= clock
    decreases |past|
  {
    if past != [] {
      AdmittedUpTo(p, past[..|past| - 1], key, clock);
    }
  }

  lemma AdmittedStep(p: Policy, past: seq<Request>, key: string, now: Time, other: string)
    ensures Admitted(p, past + [Request(key, now)], other) ==
            if key == other && Allows(p, Admitted(p, past, key), now) then Admitted(p, past, key) + [now]
            else Admitted(p, past, other)
  {
    assert (past + [Request(key, now)])[..|past|] == past;
  }

  /** What a limiter keeps for each key stands for the whole past as far as later decisions go. */
  ghost predicate Represents(p: Policy, store: map<string, seq<Time>>, past: seq<Request>, clock: Time) {
    forall key: string :: Covers(Held(store, key), Admitted(p, past, key), p.Cut(clock))
  }

  function Held(store: map<string, seq<Time>>, key: string): seq<Time> {
    if key in store then store[key] else []
  }

  ghost predicate StoreOk(store: map<string, seq<Time>>, clock: Time) {
    forall key :: key in store ==> Times(store[key], clock)
  }

  predicate Times(times: seq<Time>, clock: Time) {
    Sorted(times) && forall i :: 0 <= i < |times| ==> times[i] <= clock
  }

  lemma HeldTimes(store: map<string, seq<Time>>, clock: Time, key: string)
    requires StoreOk(store, clock)
    ensures Times(Held(store, key), clock)
  {
  }

  lemma Stored(store: map<string, seq<Time>>, clock: Time, key: string, times: seq<Time>, now: Time)
    requires StoreOk(store, clock) && clock <= now && Times(times, now)
    ensures StoreOk(store[key := times], now) && StoreOk(store[key := times + [now]], now) && StoreOk(store, now)
  {
    hide Sorted;
    assert forall k :: k in store ==> Times(store[k], clock);
    assert Sorted(times + [now]) by { AppendSorted(times, now); }
  }

  lemma AppendSorted(times: seq<Time>, now: Time)
    requires Times(times, now)
    ensures Sorted(times + [now])
  {
  }

  lemma CoversLater(held: seq<Time>, all: seq<Time>, cut: Time, later: Time)
    requires Covers(held, all, cut) && cut <= later
    ensures Covers(held, all, later)
  {
  }

  /** `kept` are the times of `key` still inside the window; their number decides. */
  lemma Decided(p: Policy, store: map<string, seq<Time>>, past: seq<Request>, clock: Time, key: string, now: Time)
    requires Represents(p, store, past, clock) && clock <= now
    ensures |After(Held(store, key), p.Cut(now))| < p.limit <==> Allows(p, Admitted(p, past, key), now)
  {
    assert Covers(Held(store, key), Admitted(p, past, key), p.Cut(clock));
  }

  /** A refused request leaves the store standing for the past, with or without dropping old times of its key. */
  lemma Refused(p: Policy, store: map<string, seq<Time>>, past: seq<Request>, clock: Time, key: string, now: Time)
    requires Represents(p, store, past, clock) && clock <= now && !Allows(p, Admitted(p, past, key), now)
    ensures Represents(p, store, past + [Request(key, now)], now)
    ensures Represents(p, store[key := After(Held(store, key), p.Cut(now))], past + [Request(key, now)], now)
  {
    hide Covers, Allows;
    var kept := After(Held(store, key), p.Cut(now));
    forall other: string
      ensures Covers(Held(store, other), Admitted(p, past + [Request(key, now)], other), p.Cut(now))
      ensures Covers(Held(store[key := kept], other), Admitted(p, past + [Request(key, now)], other), p.Cut(now))
    {
      Others(p, store, past, clock, key, now, other);
    }
  }

  /** An admitted request is appended to the times kept. */
  lemma Granted(p: Policy, store: map<string, seq<Time>>, past: seq<Request>, clock: Time, key: string, now: Time)
    requires Represents(p, store, past, clock) && clock <= now && Allows(p, Admitted(p, past, key), now)
    ensures Represents(p, store[key := After(Held(store, key), p.Cut(now)) + [now]], past + [Request(key, now)], now)
  {
    hide Covers, Allows;
    var kept := After(Held(store, key), p.Cut(now));
    forall other: string
      ensures Covers(Held(store[key := kept + [now]], other), Admitted(p, past + [Request(key, now)], other), p.Cut(now))
    {
      Others(p, store, past, clock, key, now, other);
      if other == key {
        CoversAppend(kept, Admitted(p, past, key), p.Cut(now), now);
      }
    }
  }

  lemma Others(p: Policy, store: map<string, seq<Time>>, past: seq<Request>, clock: Time, key: string, now: Time,
               other: string)
    requires Represents(p, store, past, clock) && clock <= now
    ensures Covers(Held(store, other), Admitted(p, past, other), p.Cut(now))
    ensures Covers(After(Held(store, other), p.Cut(now)), Admitted(p, past, other), p.Cut(now))
    ensures Admitted(p, past + [Request(key, now)], other) ==
            if key == other && Allows(p, Admitted(p, past, key), now) then Admitted(p, past, key) + [now]
            else Admitted(p, past, other)
  {
    hide Allows, Admitted;
    assert Covers(Held(store, other), Admitted(p, past, other), p.Cut(clock));
    CoversLater(Held(store, other), Admitted(p, past, other), p.Cut(clock), p.Cut(now));
    CoversFilter(Held(store, other), Admitted(p, past, other), p.Cut(now));
    AdmittedStep(p, past, key, now, other);
  }

  lemma FilteredTimes(s: seq<Time>, clock: Time, cut: Time)
    requires Times(s, clock)
    ensures Times(After(s, cut), clock)
  {
    AfterSorted(s, cut);
    assert forall i :: 0 <= i < |After(s, cut)| ==> After(s, cut)[i] in s;
  }

  lemma AllAfter(s: seq<Time>, cut: Time)
    requires Sorted(s) && (s != [] ==> cut < s[0])
    ensures After(s, cut) == s
  {
    assert forall i :: 0 <= i < |s| ==> s[0] <= s[i];
    AfterAll(s, cut);
  }

  // ---------------------------------------------------------------- the in-process deque

  class LocalLimiter {
    const policy: Policy
    /** False in production, unless the local fallback is allowed explicitly. */
    const mayRunLocally: bool
    var local: map<string, seq<Time>>
    ghost var past: seq<Request>
    ghost var clock: Time

    ghost predicate Valid()
      reads this
    {
      Represents(policy, local, past, clock) && StoreOk(local, clock)
    }

    constructor (policy: Policy, mayRunLocally: bool)
      ensures this.policy == policy && this.mayRunLocally == mayRunLocally && Valid() && past == [] && clock == 0.0
    {
      this.policy, this.mayRunLocally := policy, mayRunLocally;
      local, past, clock := map[], [], 0.0;
    }

    /** `None` stands for the refusal to run without Redis in production. */
    method Allow(key: string, now: Time) returns (r: Option<bool>)
      requires Valid() && clock <= now
      modifies this
      ensures Valid()
      ensures !mayRunLocally ==> r == None && past == old(past) && clock == old(clock)
      ensures mayRunLocally ==> past == old(past) + [Request(key, now)] && clock == now
      ensures mayRunLocally ==> r == Some(Allows(policy, Admitted(policy, old(past), key), now))
    {
      hide Represents, StoreOk, Allows, Admitted, After;
      if !mayRunLocally {
        return None;
      }
      HeldTimes(local, clock, key);
      var state := Held(local, key);
      while state != [] && now - state[0] >= policy.window as real
        invariant Times(state, now) && After(state, policy.Cut(now)) == After(Held(local, key), policy.Cut(now))
        modifies {}
      {
        AfterDropFirst(state, policy.Cut(now));
        state := state[1..];
      }
      AllAfter(state, policy.Cut(now));
      Stored(local, clock, key, state, now);
      Decided(policy, local, past, clock, key, now);
      if |state| >= policy.limit {
        Refused(policy, local, past, clock, key, now);
        local := local[key := state];
        r := Some(false);
      } else {
        Granted(policy, local, past, clock, key, now);
        local := local[key := state + [now]];
        r := Some(true);
      }
      past, clock := past + [Request(key, now)], now;
    }
  }

  // ---------------------------------------------------------------- the list in the HTTP middleware

  const EVICT_ABOVE := 5000

  /** A key none of whose times can count any more. */
  predicate Stale(p: Policy, times: seq<Time>, now: Time) {
    times == [] || now - times[|times| - 1] > p.window as real
  }

  /** Forgetting stale keys changes nothing a later decision can see. */
  lemma EvictionKeepsMeaning(p: Policy, store: map<string, seq<Time>>, past: seq<Request>, clock: Time, now: Time)
    requires Represents(p, store, past, clock) && StoreOk(store, clock) && clock <= now
    ensures Represents(p, map k | k in store && !Stale(p, store[k], now) :: store[k], past, now)
    ensures StoreOk(map k | k in store && !Stale(p, store[k], now) :: store[k], now)
  {
    var left := map k | k in store && !Stale(p, store[k], now) :: store[k];
    forall key: string
      ensures Covers(Held(left, key), Admitted(p, past, key), p.Cut(now))
    {
      var all := Admitted(p, past, key);
      CoversLater(Held(store, key), all, p.Cut(clock), p.Cut(now));
      if key in store && Stale(p, store[key], now) {
        forall x: Time | p.Cut(now) <= x
          ensures After([], x) == After(all, x)
        {
          AfterNone(store[key], x);
          assert After(store[key], x) == After(all, x);
        }
      }
    }
  }

  class MiddlewareLimiter {
    const policy: Policy
    var rateStore: map<string, seq<Time>>
    ghost var past: seq<Request>
    ghost var clock: Time

    ghost predicate Valid()
      reads this
    {
      Represents(policy, rateStore, past, clock) && StoreOk(rateStore, clock)
    }

    constructor (policy: Policy)
      ensures this.policy == policy && Valid() && past == [] && clock == 0.0
    {
      this.policy := policy;
      rateStore, past, clock := map[], [], 0.0;
    }

    /** `later` is the second reading of the clock, used when stale keys are evicted. */
    method Allow(key: string, now: Time, later: Time) returns (ok: bool)
      requires Valid() && clock <= now <= later
      modifies this
      ensures Valid() && past == old(past) + [Request(key, now)] && now <= clock <= later
      ensures ok == Allows(policy, Admitted(policy, old(past), key), now)
      ensures ok ==> |rateStore| <= EVICT_ABOVE ||
                     forall k :: k in rateStore ==>
                                   rateStore[k] != [] && later - rateStore[k][|rateStore[k]| - 1] <= policy.window as real
    {
      hide Represents, StoreOk, Allows, Admitted, After;
      var timestamps := Recent(Held(rateStore, key), now);
      Decided(policy, rateStore, past, clock, key, now);
      HeldTimes(rateStore, clock, key);
      FilteredTimes(Held(rateStore, key), clock, policy.Cut(now));
      Stored(rateStore, clock, key, timestamps, now);
      if |timestamps| >= policy.limit {
        Refused(policy, rateStore, past, clock, key, now);
        past, clock := past + [Request(key, now)], now;
        return false;
      }
      Granted(policy, rateStore, past, clock, key, now);
      rateStore := rateStore[key := timestamps + [now]];
      past, clock := past + [Request(key, now)], now;
      if |rateStore| > EVICT_ABOVE {
        EvictionKeepsMeaning(policy, rateStore, past, clock, later);
        rateStore := map k | k in rateStore && !Stale(policy, rateStore[k], later) :: rateStore[k];
        clock := later;
      }
      return true;
    }

    /** The list comprehension over the times of one key. */
    method Recent(times: seq<Time>, now: Time) returns (recent: seq<Time>)
      ensures recent == After(times, policy.Cut(now))
    {
      recent := [];
      var i := 0;
      while i < |times|
        invariant i <= |times| && recent == After(times[..i], policy.Cut(now))
      {
        assert times[..i + 1][..i] == times[..i];
        if now - times[i] < policy.window as real {
          recent := recent + [times[i]];
        }
        i := i + 1;
      }
      assert times[..|times|] == times;
    }
  }

  // ---------------------------------------------------------------- the Redis sorted set

  datatype Entry = Entry(member: nat, score: Time)

  /** How much longer than a window the set is kept. */
  const GRACE := 5.0

  /** A sorted set with its expiry; only the number of its entries is ever asked for. */
  datatype ZSet = ZSet(entries: seq<Entry>, expireAt: Time)

  function Scores(entries: seq<Entry>): seq<Time> {
    seq(|entries|, i requires 0 <= i < |entries| => entries[i].score)
  }

  function RemoveByScore(entries: seq<Entry>, lo: Time, hi: Time): seq<Entry> {
    if entries == [] then [] else
      RemoveByScore(entries[..|entries| - 1], lo, hi) +
      if lo <= entries[|entries| - 1].score <= hi then [] else [entries[|entries| - 1]]
  }

  /** `zrem`: at most one entry has the member. */
  function Remove(entries: seq<Entry>, member: nat): seq<Entry> {
    if entries == [] then [] else
      Remove(entries[..|entries| - 1], member) +
      if entries[|entries| - 1].member == member then [] else [entries[|entries| - 1]]
  }

  /**
   What is left of the set when the transaction has dropped the entries outside the window: the client sends its own
   time `now`, and the server runs the transaction, and looks at the expiry, at its time `at`.
   */
  function Purged(p: Policy, z: ZSet, now: Time, at: Time): seq<Entry> {
    RemoveByScore(if z.expireAt <= at then [] else z.entries, 0.0, p.Cut(now))
  }

  /** The whole transaction, for a member that is not in the set: purge, count, add, expire. */
  function Transact(p: Policy, z: ZSet, member: nat, now: Time, at: Time): ZSet {
    ZSet(Purged(p, z, now, at) + [Entry(member, now)], at + p.window as real + GRACE)
  }

  /** Members were issued before `nonce`, and the set outlives its entries' windows. */
  ghost predicate ZSetOk(p: Policy, z: ZSet, nonce: nat, clock: Time) {
    forall e :: e in z.entries ==>
                  e.member < nonce && 0.0 <= e.score <= clock && e.score + p.window as real + GRACE <= z.expireAt
  }

  lemma {:induction false} PurgedScores(entries: seq<Entry>, cut: Time)
    requires forall e :: e in entries ==> 0.0 <= e.score
    ensures Scores(RemoveByScore(entries, 0.0, cut)) == After(Scores(entries), cut)
    ensures forall e :: e in RemoveByScore(entries, 0.0, cut) ==> e in entries
    decreases |entries|
  {
    if entries != [] {
      var rest, last := entries[..|entries| - 1], entries[|entries| - 1];
      assert last in entries && forall e :: e in rest ==> e in entries;
      PurgedScores(rest, cut);
      assert Scores(entries)[..|entries| - 1] == Scores(rest);
      assert last.score > cut ==>
          Scores(RemoveByScore(rest, 0.0, cut) + [last]) == Scores(RemoveByScore(rest, 0.0, cut)) + [last.score];
    }
  }

  /** Neither the expiry nor the purge loses an entry inside the window. */
  lemma PurgedIsWindow(p: Policy, z: ZSet, nonce: nat, clock: Time, now: Time, at: Time)
    requires ZSetOk(p, z, nonce, clock) && at <= now + GRACE
    ensures Scores(Purged(p, z, now, at)) == After(Scores(z.entries), p.Cut(now))
    ensures forall e :: e in Purged(p, z, now, at) ==> e in z.entries
  {
    PurgedScores(z.entries, p.Cut(now));
    if z.expireAt <= at {
      AfterNone(Scores(z.entries), p.Cut(now));
    }
  }

  lemma {:induction false} RemoveFresh(entries: seq<Entry>, member: nat)
    requires forall i :: 0 <= i < |entries| ==> entries[i].member != member
    ensures Remove(entries, member) == entries
    decreases |entries|
  {
    if entries != [] {
      RemoveFresh(entries[..|entries| - 1], member);
    }
  }

  /** Taking back the entry just added leaves what was counted. */
  lemma UndoTransact(p: Policy, z: ZSet, nonce: nat, clock: Time, now: Time, at: Time)
    requires ZSetOk(p, z, nonce, clock)
    ensures Remove(Transact(p, z, nonce, now, at).entries, nonce) == Purged(p, z, now, at)
  {
    PurgedScores(z.entries, p.Cut(now));
    var kept := Purged(p, z, now, at);
    assert forall i :: 0 <= i < |kept| ==> kept[i] in kept;
    RemoveFresh(kept, nonce);
    assert (kept + [Entry(nonce, now)])[..|kept|] == kept;
  }

  lemma TransactOk(p: Policy, z: ZSet, nonce: nat, clock: Time, now: Time, at: Time)
    requires ZSetOk(p, z, nonce, clock) && 0.0 <= now && clock <= now <= at <= now + GRACE
    ensures var add := Transact(p, z, nonce, now, at);
            ZSetOk(p, add, nonce + 1, now) && ZSetOk(p, add.(entries := Purged(p, z, now, at)), nonce + 1, now)
  {
    hide After, RemoveByScore;
    PurgedIsWindow(p, z, nonce, clock, now, at);
  }

  // ---------------------------------------------------------------- one client at a time

  class RedisLimiter {
    const policy: Policy
    var zsets: map<string, ZSet>
    /** Number of members issued: the random part of a member never repeats. */
    var nonce: nat
    ghost var past: seq<Request>
    ghost var clock: Time

    ghost predicate Valid()
      reads this
    {
      ZSetsOk(policy, zsets, nonce, clock) && Represents(policy, AllScores(zsets), past, clock)
    }

    constructor (policy: Policy)
      ensures this.policy == policy && Valid() && past == [] && clock == 0.0
    {
      this.policy := policy;
      zsets, nonce, past, clock := map[], 0, [], 0.0;
    }

    /** The transaction sent at `now` reaches the server at `at`, at most the grace period later. */
    method Allow(key: string, now: Time, at: Time) returns (ok: bool)
      requires Valid() && 0.0 <= clock <= now <= at <= now + GRACE
      modifies this
      ensures Valid() && past == old(past) + [Request(key, now)] && clock == now
      ensures ok == Allows(policy, Admitted(policy, old(past), key), now)
    {
      hide Represents, ZSetsOk, Allows, Admitted, After, Transact, Purged, AllScores;
      var before, member := ZSetOf(zsets, key, now), nonce;
      Transacted(policy, zsets, nonce, clock, key, now, at);
      Decided(policy, AllScores(zsets), past, clock, key, now);
      var z := Transact(policy, before, member, now, at);
      var count := |Purged(policy, before, now, at)|;
      nonce := nonce + 1;
      if count >= policy.limit {
        Refused(policy, AllScores(zsets), past, clock, key, now);
        zsets := zsets[key := z.(entries := Remove(z.entries, member))];
        ok := false;
      } else {
        Granted(policy, AllScores(zsets), past, clock, key, now);
        zsets := zsets[key := z];
        ok := true;
      }
      past, clock := past + [Request(key, now)], now;
    }
  }

  function ZSetOf(zsets: map<string, ZSet>, key: string, now: Time): ZSet {
    if key in zsets then zsets[key] else ZSet([], now)
  }

  ghost function AllScores(zsets: map<string, ZSet>): map<string, seq<Time>> {
    map key | key in zsets :: Scores(zsets[key].entries)
  }

  ghost predicate ZSetsOk(p: Policy, zsets: map<string, ZSet>, nonce: nat, clock: Time) {
    forall key :: key in zsets ==> ZSetOk(p, zsets[key], nonce, clock)
  }

  lemma EmptyZSetOk(p: Policy, nonce: nat, clock: Time, expireAt: Time)
    ensures ZSetOk(p, ZSet([], expireAt), nonce, clock)
  {
  }

  lemma ZSetLater(p: Policy, z: ZSet, nonce: nat, clock: Time, now: Time)
    requires ZSetOk(p, z, nonce, clock) && clock <= now
    ensures ZSetOk(p, z, nonce + 1, now)
  {
  }

  lemma AllScoresUpdate(zsets: map<string, ZSet>, key: string, z: ZSet)
    ensures AllScores(zsets[key := z]) == AllScores(zsets)[key := Scores(z.entries)]
  {
  }

  /** What one transaction, and its undo, do to the times kept. */
  lemma Transacted(p: Policy, zsets: map<string, ZSet>, nonce: nat, clock: Time, key: string, now: Time, at: Time)
    requires ZSetsOk(p, zsets, nonce, clock) && 0.0 <= now && clock <= now <= at <= now + GRACE
    ensures var z := ZSetOf(zsets, key, now);
            var kept := After(Held(AllScores(zsets), key), p.Cut(now));
            var add := Transact(p, z, nonce, now, at);
            var undone := add.(entries := Remove(add.entries, nonce));
            |Purged(p, z, now, at)| == |kept| &&
            AllScores(zsets[key := add]) == AllScores(zsets)[key := kept + [now]] &&
            AllScores(zsets[key := undone]) == AllScores(zsets)[key := kept] &&
            ZSetsOk(p, zsets[key := add], nonce + 1, now) && ZSetsOk(p, zsets[key := undone], nonce + 1, now)
  {
    hide Purged, Remove, After, ZSetOk;
    var z := ZSetOf(zsets, key, now);
    EmptyZSetOk(p, nonce, clock, now);
    assert Held(AllScores(zsets), key) == Scores(z.entries);
    var kept := Purged(p, z, now, at);
    PurgedIsWindow(p, z, nonce, clock, now, at);
    UndoTransact(p, z, nonce, clock, now, at);
    assert Scores(kept + [Entry(nonce, now)]) == Scores(kept) + [now];
    assert |Scores(kept)| == |kept|;
    TransactOk(p, z, nonce, clock, now, at);
    forall k | k in zsets
      ensures ZSetOk(p, zsets[k], nonce + 1, now)
    {
      ZSetLater(p, zsets[k], nonce, clock, now);
    }
    var add := Transact(p, z, nonce, now, at);
    AllScoresUpdate(zsets, key, add);
    AllScoresUpdate(zsets, key, add.(entries := kept));
  }

  // ---------------------------------------------------------------- one trace through all three

  /** The reference's answer to the i-th request. */
  predicate Answer(p: Policy, requests: seq<Request>, i: nat)
    requires i < |requests|
  {
    Allows(p, Admitted(p, requests[..i], requests[i].key), requests[i].at)
  }

  function Decisions(p: Policy, requests: seq<Request>): seq<bool> {
    seq(|requests|, i requires 0 <= i < |requests| => Answer(p, requests, i))
  }

  lemma AnswerIs(p: Policy, requests: seq<Request>, i: nat)
    requires i < |requests|
    ensures Answer(p, requests, i) == Allows(p, Admitted(p, requests[..i], requests[i].key), requests[i].at)
  {
  }

  /** Clock readings never go back, starting from 0. */
  ghost predicate InOrder(requests: seq<Request>) {
    (forall i :: 0 <= i < |requests| ==> 0.0 <= requests[i].at) &&
    forall i, j :: 0 <= i <= j < |requests| ==> requests[i].at <= requests[j].at
  }

  /**
   On a trace with a clock that never goes back all three limiters give the reference's answers. `evictions` are the
   times at which the middleware looks for stale keys after each request, `arrivals` those at which the Redis server
   runs each transaction.
   */
  method SameDecisions(p: Policy, requests: seq<Request>, evictions: seq<Time>, arrivals: seq<Time>)
    returns (local: seq<bool>, http: seq<bool>, redis: seq<bool>)
    requires InOrder(requests) && |evictions| == |arrivals| == |requests|
    requires forall i :: 0 <= i < |requests| ==> requests[i].at <= arrivals[i] <= requests[i].at + GRACE
    requires forall i :: 0 <= i < |requests| ==> requests[i].at <= evictions[i]
    requires forall i :: 0 < i < |requests| ==> evictions[i - 1] <= requests[i].at
    ensures local == http == redis == Decisions(p, requests)
  {
    hide Allows, Admitted, Represents, StoreOk, ZSetsOk, Answer, AllScores;
    var deque := new LocalLimiter(p, true);
    var list := new MiddlewareLimiter(p);
    var zset := new RedisLimiter(p);
    local, http, redis := [], [], [];
    var i := 0;
    while i < |requests|
      invariant i <= |requests| && deque.Valid() && list.Valid() && zset.Valid()
      invariant fresh(deque) && fresh(list) && fresh(zset)
      invariant deque.policy == list.policy == zset.policy == p && deque.mayRunLocally
      invariant deque.past == list.past == zset.past == requests[..i]
      invariant 0.0 <= zset.clock && deque.clock == zset.clock <= list.clock
      invariant i < |requests| ==> list.clock <= requests[i].at
      invariant local == http == redis && |local| == i
      invariant forall j :: 0 <= j < i ==> local[j] == Answer(p, requests, j)
    {
      var r := requests[i];
      var a := deque.Allow(r.key, r.at);
      var b := list.Allow(r.key, r.at, evictions[i]);
      var c := zset.Allow(r.key, r.at, arrivals[i]);
      assert a == Some(b) && b == c == Answer(p, requests, i) by { AnswerIs(p, requests, i); }
      local, http, redis := local + [a.value], http + [b], redis + [c];
      assert requests[..i + 1] == requests[..i] + [r];
      i := i + 1;
    }
  }
}
