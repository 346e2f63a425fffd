/**
 Many clients of one Redis key. The transaction is atomic; a refused client takes its entry back later, or never if
 it crashes in between. Each client stamps its entry with its own clock, and nothing orders the stamps.
 */
module RateLimitRace {
  import opened SlidingWindow
  import opened RateLimiters

  /**
   `rejected` are the members of refused requests, `pending` those still to be taken back; `admitted` are the entries
   of the requests admitted so far, which only the proof looks at.
   */
  datatype State = State(zset: ZSet, nonce: nat, pending: set<nat>, rejected: set<nat>, admitted: seq<Entry>)

  /** A transaction carries the time its client read, `now`, and the time of the server that runs it, `at`. */
  datatype Step = Transaction(now: Time, at: Time) | Undo(member: nat) | Crash(member: nat)

  predicate Can(s: State, step: Step) {
    match step
    case Transaction(now, _) => 0.0 <= now
    case Undo(m) => m in s.pending
    case Crash(m) => m in s.pending
  }

  /** What the transaction counts. */
  function Counted(p: Policy, s: State, now: Time, at: Time): seq<Entry> {
    Purged(p, s.zset, now, at)
  }

  predicate Admits(p: Policy, s: State, now: Time, at: Time) {
    |Counted(p, s, now, at)| < p.limit
  }

  function Next(p: Policy, s: State, step: Step): State {
    match step
    case Transaction(now, at) =>
      var z := Transact(p, s.zset, s.nonce, now, at);
      if Admits(p, s, now, at) then
        s.(zset := z, nonce := s.nonce + 1, admitted := s.admitted + [Entry(s.nonce, now)])
      else
        s.(zset := z, nonce := s.nonce + 1, pending := s.pending + {s.nonce}, rejected := s.rejected + {s.nonce})
    case Undo(m) => s.(zset := s.zset.(entries := Remove(s.zset.entries, m)), pending := s.pending - {m})
    case Crash(m) => s.(pending := s.pending - {m})
  }

  const START := State(ZSet([], 0.0), 0, {}, {}, [])

  function Reached(p: Policy, steps: seq<Step>): State {
    if steps == [] then START else Next(p, Reached(p, steps[..|steps| - 1]), steps[|steps| - 1])
  }

  ghost predicate IsRun(p: Policy, steps: seq<Step>) {
    steps == [] ||
    (IsRun(p, steps[..|steps| - 1]) && Can(Reached(p, steps[..|steps| - 1]), steps[|steps| - 1]))
  }

  /** The entries that stand for admitted requests. */
  function Kept(entries: seq<Entry>, rejected: set<nat>): seq<Entry> {
    if entries == [] then [] else
      Kept(entries[..|entries| - 1], rejected) +
      if entries[|entries| - 1].member in rejected then [] else [entries[|entries| - 1]]
  }

  // ---------------------------------------------------------------- admissions that stop counting

  /** The transaction drops an entry of this time: by the purge, or because the set has expired. */
  predicate Drops(p: Policy, s: State, now: Time, at: Time, t: Time) {
    t <= p.Cut(now) || s.zset.expireAt <= at
  }

  /** Some transaction after the one that admitted `a` dropped it. */
  predicate Lost(p: Policy, steps: seq<Step>, a: Entry) {
    steps != [] &&
    var before, step := steps[..|steps| - 1], steps[|steps| - 1];
    (Lost(p, before, a) ||
     (step.Transaction? && a.member < Reached(p, before).nonce &&
      Drops(p, Reached(p, before), step.now, step.at, a.score)))
  }

  /** No admission inside the window of a transaction at `now` is lost when it runs at `at` after `steps`. */
  ghost predicate NoneLost(p: Policy, steps: seq<Step>, now: Time, at: Time) {
    forall a :: a in Reached(p, steps).admitted && a.score > p.Cut(now) ==> !Lost(p, steps + [Transaction(now, at)], a)
  }

  /** The entries not lost. */
  function Left(p: Policy, steps: seq<Step>, all: seq<Entry>): seq<Entry> {
    if all == [] then [] else
      Left(p, steps, all[..|all| - 1]) + if Lost(p, steps, all[|all| - 1]) then [] else [all[|all| - 1]]
  }

  /** The entries later than `cut`. */
  function Inside(all: seq<Entry>, cut: Time): seq<Entry> {
    if all == [] then [] else
      Inside(all[..|all| - 1], cut) + if all[|all| - 1].score > cut then [all[|all| - 1]] else []
  }

  // ---------------------------------------------------------------- small facts about the entries kept

  lemma {:induction false} KeptSubset(entries: seq<Entry>, rejected: set<nat>)
    ensures forall e :: e in Kept(entries, rejected) ==> e in entries
    ensures |Kept(entries, rejected)| <= |entries|
    ensures (forall e :: e in entries ==> e.member !in rejected) <==> |Kept(entries, rejected)| == |entries|
    decreases |entries|
  {
    if entries != [] {
      var rest, last := entries[..|entries| - 1], entries[|entries| - 1];
      KeptSubset(rest, rejected);
      assert entries == rest + [last];
      assert (forall e :: e in entries ==> e.member !in rejected) <==>
             last.member !in rejected && forall e :: e in rest ==> e.member !in rejected;
    }
  }

  lemma KeptAppend(entries: seq<Entry>, rejected: set<nat>, e: Entry)
    ensures Kept(entries + [e], rejected) == if e.member in rejected then Kept(entries, rejected) else Kept(entries, rejected) + [e]
  {
    assert (entries + [e])[..|entries|] == entries;
  }

  lemma PurgeAppend(entries: seq<Entry>, lo: Time, hi: Time, e: Entry)
    ensures RemoveByScore(entries + [e], lo, hi) ==
            if lo <= e.score <= hi then RemoveByScore(entries, lo, hi) else RemoveByScore(entries, lo, hi) + [e]
  {
    assert (entries + [e])[..|entries|] == entries;
  }

  lemma {:induction false} KeptFresh(entries: seq<Entry>, rejected: set<nat>, member: nat)
    requires forall e :: e in entries ==> e.member != member
    ensures Kept(entries, rejected + {member}) == Kept(entries, rejected)
    decreases |entries|
  {
    if entries != [] {
      var rest, last := entries[..|entries| - 1], entries[|entries| - 1];
      assert last in entries && forall e :: e in rest ==> e in entries;
      KeptFresh(rest, rejected, member);
    }
  }

  lemma {:induction false} KeptRemove(entries: seq<Entry>, rejected: set<nat>, member: nat)
    requires member in rejected
    ensures Kept(Remove(entries, member), rejected) == Kept(entries, rejected)
    decreases |entries|
  {
    if entries != [] {
      var rest, last := entries[..|entries| - 1], entries[|entries| - 1];
      KeptRemove(rest, rejected, member);
      KeptAppend(Remove(rest, member), rejected, last);
      assert Remove(entries, member) == if last.member == member then Remove(rest, member) else Remove(rest, member) + [last];
      assert Kept(entries, rejected) == if last.member in rejected then Kept(rest, rejected) else Kept(rest, rejected) + [last];
    }
  }

  lemma {:induction false} RemoveSubset(entries: seq<Entry>, member: nat)
    ensures forall e :: e in Remove(entries, member) ==> e in entries
    decreases |entries|
  {
    if entries != [] {
      RemoveSubset(entries[..|entries| - 1], member);
    }
  }

  lemma {:induction false} KeptPurge(entries: seq<Entry>, rejected: set<nat>, lo: Time, hi: Time)
    ensures Kept(RemoveByScore(entries, lo, hi), rejected) == RemoveByScore(Kept(entries, rejected), lo, hi)
    decreases |entries|
  {
    if entries != [] {
      var rest, last := entries[..|entries| - 1], entries[|entries| - 1];
      KeptPurge(rest, rejected, lo, hi);
      KeptAppend(RemoveByScore(rest, lo, hi), rejected, last);
      PurgeAppend(Kept(rest, rejected), lo, hi, last);
      var purged, kept := RemoveByScore(rest, lo, hi), Kept(rest, rejected);
      assert RemoveByScore(entries, lo, hi) == if lo <= last.score <= hi then purged else purged + [last];
      assert Kept(entries, rejected) == if last.member in rejected then kept else kept + [last];
    }
  }

  // ---------------------------------------------------------------- what the set holds

  ghost predicate Inv(s: State) {
    (forall e :: e in s.zset.entries ==> e.member < s.nonce && 0.0 <= e.score) &&
    (forall m :: m in s.rejected ==> m < s.nonce) && s.pending <= s.rejected &&
    (forall a :: a in s.admitted ==> a.member < s.nonce && 0.0 <= a.score)
  }

  lemma {:induction false} PurgedSubset(entries: seq<Entry>, lo: Time, hi: Time)
    ensures forall e :: e in RemoveByScore(entries, lo, hi) ==> e in entries
    decreases |entries|
  {
    if entries != [] {
      PurgedSubset(entries[..|entries| - 1], lo, hi);
    }
  }

  lemma NextInv(p: Policy, s: State, step: Step)
    requires Inv(s) && Can(s, step)
    ensures Inv(Next(p, s, step)) && s.nonce <= Next(p, s, step).nonce
  {
    match step
    case Transaction(now, at) =>
      PurgedSubset(if s.zset.expireAt <= at then [] else s.zset.entries, 0.0, p.Cut(now));
    case Undo(m) => RemoveSubset(s.zset.entries, m);
    case Crash(m) =>
  }

  /** Only an entry issued before can have been lost. */
  lemma {:induction false} RunFacts(p: Policy, steps: seq<Step>)
    requires IsRun(p, steps)
    ensures Inv(Reached(p, steps))
    ensures forall a :: Lost(p, steps, a) ==> a.member < Reached(p, steps).nonce
    decreases |steps|
  {
    if steps != [] {
      var before, step := steps[..|steps| - 1], steps[|steps| - 1];
      RunFacts(p, before);
      NextInv(p, Reached(p, before), step);
    }
  }

  lemma {:induction false} LeftAppend(p: Policy, steps: seq<Step>, all: seq<Entry>, a: Entry)
    ensures Left(p, steps, all + [a]) == Left(p, steps, all) + if Lost(p, steps, a) then [] else [a]
  {
    assert (all + [a])[..|all|] == all;
  }

  /** A step that is no transaction loses nothing. */
  lemma {:induction false} LeftSame(p: Policy, steps: seq<Step>, step: Step, all: seq<Entry>)
    requires !step.Transaction?
    ensures Left(p, steps + [step], all) == Left(p, steps, all)
    decreases |all|
  {
    if all != [] {
      LeftSame(p, steps, step, all[..|all| - 1]);
      assert (steps + [step])[..|steps|] == steps;
    }
  }

  /** A transaction loses what it drops, on top of what was lost. */
  lemma LostNext(p: Policy, steps: seq<Step>, now: Time, at: Time, a: Entry)
    requires a.member < Reached(p, steps).nonce
    ensures Lost(p, steps + [Transaction(now, at)], a) <==>
            Lost(p, steps, a) || Drops(p, Reached(p, steps), now, at, a.score)
  {
    assert (steps + [Transaction(now, at)])[..|steps|] == steps;
  }

  /** A transaction loses what it purges, and everything if it finds the set expired. */
  lemma {:induction false} LeftPurge(p: Policy, steps: seq<Step>, now: Time, at: Time, all: seq<Entry>)
    requires forall a :: a in all ==> a.member < Reached(p, steps).nonce && 0.0 <= a.score
    ensures var held := Left(p, steps, all);
            Left(p, steps + [Transaction(now, at)], all) ==
            RemoveByScore(if Reached(p, steps).zset.expireAt <= at then [] else held, 0.0, p.Cut(now))
    decreases |all|
  {
    hide Lost, Reached;
    if all != [] {
      var rest, last := all[..|all| - 1], all[|all| - 1];
      assert last in all && forall a :: a in rest ==> a in all;
      LeftPurge(p, steps, now, at, rest);
      LostNext(p, steps, now, at, last);
      var held := Left(p, steps, rest);
      PurgeAppend(held, 0.0, p.Cut(now), last);
      assert Left(p, steps, all) == if Lost(p, steps, last) then held else held + [last];
    }
  }

  /**
   In every run, whatever the clocks say, the entries of admitted requests in the set are exactly the admissions that
   no later transaction dropped.
   */
  lemma {:induction false} KeptIsLeft(p: Policy, steps: seq<Step>)
    requires IsRun(p, steps)
    ensures Kept(Reached(p, steps).zset.entries, Reached(p, steps).rejected) ==
            Left(p, steps, Reached(p, steps).admitted)
    decreases |steps|
  {
    if steps != [] {
      var before, step := steps[..|steps| - 1], steps[|steps| - 1];
      assert steps == before + [step];
      KeptIsLeft(p, before);
      RunFacts(p, before);
      var s := Reached(p, before);
      match step
      case Transaction(now, at) => TransactionKeeps(p, before, now, at);
      case Undo(m) =>
        KeptRemove(s.zset.entries, s.rejected, m);
        LeftSame(p, before, step, s.admitted);
      case Crash(m) => LeftSame(p, before, step, s.admitted);
    }
  }

  /** What a transaction counts for admitted requests are the admissions still not lost when it runs. */
  lemma CountedIsLeft(p: Policy, steps: seq<Step>, now: Time, at: Time)
    requires IsRun(p, steps)
    requires Kept(Reached(p, steps).zset.entries, Reached(p, steps).rejected) ==
             Left(p, steps, Reached(p, steps).admitted)
    ensures Kept(Counted(p, Reached(p, steps), now, at), Reached(p, steps).rejected) ==
            Left(p, steps + [Transaction(now, at)], Reached(p, steps).admitted)
  {
    var s := Reached(p, steps);
    RunFacts(p, steps);
    KeptPurge(s.zset.entries, s.rejected, 0.0, p.Cut(now));
    LeftPurge(p, steps, now, at, s.admitted);
  }

  lemma TransactionKeeps(p: Policy, steps: seq<Step>, now: Time, at: Time)
    requires IsRun(p, steps) && 0.0 <= now
    requires Kept(Reached(p, steps).zset.entries, Reached(p, steps).rejected) ==
             Left(p, steps, Reached(p, steps).admitted)
    ensures var s := Next(p, Reached(p, steps), Transaction(now, at));
            Kept(s.zset.entries, s.rejected) == Left(p, steps + [Transaction(now, at)], s.admitted)
  {
    hide IsRun, Left, Reached;
    var s, step := Reached(p, steps), Transaction(now, at);
    var counted, entry := Counted(p, s, now, at), Entry(s.nonce, now);
    RunFacts(p, steps);
    CountedIsLeft(p, steps, now, at);
    PurgedSubset(if s.zset.expireAt <= at then [] else s.zset.entries, 0.0, p.Cut(now));
    if Admits(p, s, now, at) {
      KeptAppend(counted, s.rejected, entry);
      LeftAppend(p, steps + [step], s.admitted, entry);
      assert (steps + [step])[..|steps|] == steps;
    } else {
      KeptFresh(counted, s.rejected, s.nonce);
      KeptAppend(counted, s.rejected + {s.nonce}, entry);
    }
  }

  // ---------------------------------------------------------------- what a transaction decides

  lemma {:induction false} InsideScores(all: seq<Entry>, cut: Time)
    ensures Scores(Inside(all, cut)) == After(Scores(all), cut)
    decreases |all|
  {
    if all != [] {
      var rest, last := all[..|all| - 1], all[|all| - 1];
      InsideScores(rest, cut);
      assert Scores(all)[..|all| - 1] == Scores(rest);
      assert Scores(Inside(rest, cut) + [last]) == Scores(Inside(rest, cut)) + [last.score];
    }
  }

  /** A transaction drops all that is outside its window, and what is left is all of the window only if none is lost. */
  lemma {:induction false} LeftInside(p: Policy, steps: seq<Step>, now: Time, at: Time, all: seq<Entry>)
    requires forall a :: a in all ==> a.member < Reached(p, steps).nonce
    ensures var held := Left(p, steps + [Transaction(now, at)], all);
            |held| <= |Inside(all, p.Cut(now))| &&
            ((forall a :: a in all && a.score > p.Cut(now) ==> !Lost(p, steps + [Transaction(now, at)], a)) <==>
             |held| == |Inside(all, p.Cut(now))|) &&
            (|held| == |Inside(all, p.Cut(now))| ==> held == Inside(all, p.Cut(now)))
    decreases |all|
  {
    hide Lost, Reached;
    if all != [] {
      var rest, last := all[..|all| - 1], all[|all| - 1];
      assert last in all && forall a :: a in rest ==> a in all;
      assert forall a :: a in all ==> a in rest || a == last;
      LeftInside(p, steps, now, at, rest);
      LostNext(p, steps, now, at, last);
    }
  }

  /**
   In every run, in any order of the clocks: a transaction counts exactly the admissions of its window if and only if
   none of them is lost, that is, purged by an earlier transaction whose clock was ahead or gone with an expired set.
   It never counts more admissions than its window has.
   */
  lemma CountsExactly(p: Policy, steps: seq<Step>, now: Time, at: Time)
    requires IsRun(p, steps) && 0.0 <= now
    ensures var s := Reached(p, steps);
            var counted := Scores(Kept(Counted(p, s, now, at), s.rejected));
            |counted| <= |After(Scores(s.admitted), p.Cut(now))| &&
            (counted == After(Scores(s.admitted), p.Cut(now)) <==> NoneLost(p, steps, now, at))
  {
    var s := Reached(p, steps);
    RunFacts(p, steps);
    KeptIsLeft(p, steps);
    CountedIsLeft(p, steps, now, at);
    LeftInside(p, steps, now, at, s.admitted);
    InsideScores(s.admitted, p.Cut(now));
  }

  /**
   Entries of refused requests can only cause more refusals: while nothing is lost, whoever is admitted would be
   admitted by the reference, and when none of them is left in the window the two decide alike.
   */
  lemma TransientsOnlyRefuse(p: Policy, steps: seq<Step>, now: Time, at: Time)
    requires IsRun(p, steps) && 0.0 <= now && NoneLost(p, steps, now, at)
    ensures var s := Reached(p, steps);
            (Admits(p, s, now, at) ==> Allows(p, Scores(s.admitted), now)) &&
            ((forall e :: e in Counted(p, s, now, at) ==> e.member !in s.rejected) ==>
               (Admits(p, s, now, at) <==> Allows(p, Scores(s.admitted), now)))
  {
    hide Counted;
    CountsExactly(p, steps, now, at);
    var s := Reached(p, steps);
    KeptSubset(Counted(p, s, now, at), s.rejected);
    assert |Scores(Kept(Counted(p, s, now, at), s.rejected))| == |Kept(Counted(p, s, now, at), s.rejected)|;
  }

  // ---------------------------------------------------------------- whole runs

  /** Every transaction of the run counts all of its window. */
  ghost predicate Lossless(p: Policy, steps: seq<Step>) {
    steps == [] ||
    var before, step := steps[..|steps| - 1], steps[|steps| - 1];
    Lossless(p, before) && (step.Transaction? ==> NoneLost(p, before, step.now, step.at))
  }

  /** In any order of the clocks, no window holds more than `limit` admitted requests as long as none is lost. */
  lemma {:induction false} NeverOverUnlessLost(p: Policy, steps: seq<Step>)
    requires IsRun(p, steps) && Lossless(p, steps)
    ensures NeverOver(p, Scores(Reached(p, steps).admitted))
    decreases |steps|
  {
    if steps != [] {
      hide NeverOver, NoneLost, Allows, Admits;
      var before, step := steps[..|steps| - 1], steps[|steps| - 1];
      NeverOverUnlessLost(p, before);
      var s := Reached(p, before);
      if step.Transaction? && Admits(p, s, step.now, step.at) {
        TransientsOnlyRefuse(p, before, step.now, step.at);
        AdmitKeepsWindows(p, Scores(s.admitted), step.now);
        assert Scores(s.admitted + [Entry(s.nonce, step.now)]) == Scores(s.admitted) + [step.now];
      }
    }
  }

  // ---------------------------------------------------------------- clocks that agree

  /** The stamp of the last transaction. */
  function Clock(steps: seq<Step>): Time {
    if steps == [] then 0.0 else
      match steps[|steps| - 1]
      case Transaction(now, _) => now
      case _ => Clock(steps[..|steps| - 1])
  }

  /**
   Transactions run in the order of their stamps, and how far the server's clock is from a stamp, `skew` for clocks
   that disagree plus the time under way, varies by the grace period at most.
   */
  predicate Timely(steps: seq<Step>, skew: Time) {
    steps == [] ||
    var before, step := steps[..|steps| - 1], steps[|steps| - 1];
    Timely(before, skew) &&
    (step.Transaction? ==> Clock(before) <= step.now && step.now + skew <= step.at <= step.now + skew + GRACE)
  }

  lemma {:induction false} TimelyExpiry(p: Policy, steps: seq<Step>, skew: Time)
    requires IsRun(p, steps) && Timely(steps, skew)
    ensures forall a :: a in Reached(p, steps).admitted ==>
                          a.score <= Clock(steps) &&
                          a.score + skew + p.window as real + GRACE <= Reached(p, steps).zset.expireAt
    decreases |steps|
  {
    hide Purged;
    if steps != [] {
      TimelyExpiry(p, steps[..|steps| - 1], skew);
    }
  }

  lemma {:induction false} TimelyLost(p: Policy, steps: seq<Step>, skew: Time, a: Entry)
    requires IsRun(p, steps) && Timely(steps, skew) && a in Reached(p, steps).admitted && Lost(p, steps, a)
    ensures a.score <= p.Cut(Clock(steps))
    decreases |steps|
  {
    hide Purged;
    var before, step := steps[..|steps| - 1], steps[|steps| - 1];
    RunFacts(p, before);
    TimelyExpiry(p, before, skew);
    if Lost(p, before, a) {
      TimelyLost(p, before, skew, a);
    }
  }

  lemma {:induction false} TimelyLossless(p: Policy, steps: seq<Step>, skew: Time)
    requires IsRun(p, steps) && Timely(steps, skew)
    ensures Lossless(p, steps)
    decreases |steps|
  {
    if steps != [] {
      var before, step := steps[..|steps| - 1], steps[|steps| - 1];
      TimelyLossless(p, before, skew);
      assert steps == before + [step];
      RunFacts(p, before);
      if step.Transaction? {
        forall a | a in Reached(p, before).admitted && a.score > p.Cut(step.now)
          ensures !Lost(p, steps, a)
        {
          if Lost(p, steps, a) {
            TimelyLost(p, steps, skew, a);
          }
        }
      }
    }
  }

  /**
   Whatever the interleaving of transactions, undo steps and crashes, no window holds more than `limit` admitted
   requests when the clocks agree.
   */
  lemma NeverOverAdmits(p: Policy, steps: seq<Step>, skew: Time, t: Time)
    requires IsRun(p, steps) && Timely(steps, skew)
    ensures InWindow(p, Scores(Reached(p, steps).admitted), t) <= AtLeast0(p.limit)
  {
    TimelyLossless(p, steps, skew);
    NeverOverUnlessLost(p, steps);
  }

  // ---------------------------------------------------------------- clocks that do not

  lemma Extend(p: Policy, steps: seq<Step>, step: Step)
    requires IsRun(p, steps) && Can(Reached(p, steps), step)
    ensures IsRun(p, steps + [step]) && Reached(p, steps + [step]) == Next(p, Reached(p, steps), step)
  {
    assert (steps + [step])[..|steps|] == steps;
  }

  /** `n` entries with the members from `first` on. */
  function Rows(first: nat, n: nat, score: Time): (rows: seq<Entry>)
    ensures |rows| == n && forall i :: 0 <= i < n ==> rows[i] == Entry(first + i, score)
  {
    if n == 0 then [] else Rows(first, n - 1, score) + [Entry(first + n - 1, score)]
  }

  lemma {:induction false} PurgeNone(entries: seq<Entry>, lo: Time, hi: Time)
    requires forall i :: 0 <= i < |entries| ==> hi < entries[i].score
    ensures RemoveByScore(entries, lo, hi) == entries
    decreases |entries|
  {
    if entries != [] {
      PurgeNone(entries[..|entries| - 1], lo, hi);
    }
  }

  lemma {:induction false} PurgeAll(entries: seq<Entry>, lo: Time, hi: Time)
    requires forall i :: 0 <= i < |entries| ==> lo <= entries[i].score <= hi
    ensures RemoveByScore(entries, lo, hi) == []
    decreases |entries|
  {
    if entries != [] {
      PurgeAll(entries[..|entries| - 1], lo, hi);
    }
  }

  lemma {:induction false} PurgeFront(front: seq<Entry>, back: seq<Entry>, lo: Time, hi: Time)
    requires RemoveByScore(front, lo, hi) == [] && forall i :: 0 <= i < |back| ==> hi < back[i].score
    ensures RemoveByScore(front + back, lo, hi) == back
    decreases |back|
  {
    hide RemoveByScore;
    if back == [] {
      assert front + back == front;
    } else {
      var rest, last := back[..|back| - 1], back[|back| - 1];
      PurgeFront(front, rest, lo, hi);
      assert front + back == front + rest + [last];
      PurgeAppend(front + rest, lo, hi, last);
    }
  }

  /** The limit is used up at time 0. */
  lemma {:induction false} Burst(p: Policy, n: nat) returns (steps: seq<Step>)
    requires p.window > 0 && n <= p.limit
    ensures IsRun(p, steps) && forall i :: 0 <= i < |steps| ==> steps[i] == Transaction(0.0, 0.0)
    ensures Reached(p, steps) ==
            State(ZSet(Rows(0, n, 0.0), if n == 0 then 0.0 else p.window as real + GRACE), n, {}, {}, Rows(0, n, 0.0))
  {
    if n == 0 {
      steps := [];
    } else {
      steps := Burst(p, n - 1);
      var s := Reached(p, steps);
      if n > 1 {
        PurgeNone(s.zset.entries, 0.0, p.Cut(0.0));
      }
      assert Counted(p, s, 0.0, 0.0) == Rows(0, n - 1, 0.0);
      Extend(p, steps, Transaction(0.0, 0.0));
      steps := steps + [Transaction(0.0, 0.0)];
    }
  }

  lemma {:induction false} ZeroRows(n: nat, lo: Time, hi: Time)
    requires lo < 0.0 <= hi
    ensures Between(Scores(Rows(0, n, 0.0)), lo, hi) == n
  {
    if n > 0 {
      ZeroRows(n - 1, lo, hi);
      assert Scores(Rows(0, n, 0.0))[..n - 1] == Scores(Rows(0, n - 1, 0.0));
    }
  }

  lemma OneMore(p: Policy, n: nat, last: Entry)
    requires p.window > 0 && 0.0 <= last.score < p.window as real
    ensures InWindow(p, Scores(Rows(0, n, 0.0) + [last]), last.score) == n + 1
  {
    ZeroRows(n, p.Cut(last.score), last.score);
    assert Scores(Rows(0, n, 0.0) + [last])[..n] == Scores(Rows(0, n, 0.0));
  }

  /**
   A transaction under way for longer than the grace period finds the set expired: for every positive limit and window
   and every such delay there is a run, with all times in order, after which a window holds `limit + 1` admissions.
   */
  lemma SlowTransactionOverAdmits(p: Policy, delay: Time) returns (steps: seq<Step>)
    requires p.limit >= 1 && p.window > 0 && GRACE < delay
    ensures IsRun(p, steps) && |steps| > 0
    ensures forall i :: 0 <= i < |steps| - 1 ==> steps[i] == Transaction(0.0, 0.0)
    ensures steps[|steps| - 1].Transaction? && 0.0 <= steps[|steps| - 1].now == steps[|steps| - 1].at - delay
    ensures exists t: Time :: InWindow(p, Scores(Reached(p, steps).admitted), t) == p.limit + 1
  {
    steps := Burst(p, p.limit);
    var s, expiry := Reached(p, steps), p.window as real + GRACE;
    var at := if delay < expiry then expiry else delay;
    var now := at - delay;
    assert Counted(p, s, now, at) == [];
    Extend(p, steps, Transaction(now, at));
    OneMore(p, p.limit, Entry(p.limit, now));
    steps := steps + [Transaction(now, at)];
  }

  // ---------------------------------------------------------------- stamps out of order

  function Members(first: nat, n: nat): (members: set<nat>)
    ensures forall m :: m in members <==> first <= m < first + n
  {
    if n == 0 then {} else Members(first, n - 1) + {first + n - 1}
  }

  function Half(p: Policy): Time { p.window as real / 2.0 }

  /** The limit used up at time 0, and `n` requests refused half a window later. */
  function Full(p: Policy, n: nat): State
    requires p.limit >= 1
  {
    State(ZSet(Rows(0, p.limit, 0.0) + Rows(p.limit, n, Half(p)), p.window as real + GRACE), p.limit + n,
          Members(p.limit, n), Members(p.limit, n), Rows(0, p.limit, 0.0))
  }

  lemma RowsNext(first: nat, n: nat, score: Time)
    ensures Rows(first, n + 1, score) == Rows(first, n, score) + [Entry(first + n, score)]
    ensures Members(first, n + 1) == Members(first, n) + {first + n}
  {
  }

  lemma RefusedAgain(p: Policy, n: nat)
    requires p.window > 0 && p.limit >= 1
    ensures Next(p, Full(p, n), Transaction(Half(p), 0.0)) == Full(p, n + 1)
  {
    hide RemoveByScore, Rows, Members;
    var front, back, last := Rows(0, p.limit, 0.0), Rows(p.limit, n, Half(p)), Entry(p.limit + n, Half(p));
    PurgeNone(front + back, 0.0, p.Cut(Half(p)));
    assert Counted(p, Full(p, n), Half(p), 0.0) == front + back;
    RowsNext(p.limit, n, Half(p));
    assert front + back + [last] == front + (back + [last]);
  }

  lemma {:induction false} Refusals(p: Policy, n: nat) returns (steps: seq<Step>)
    requires p.window > 0 && p.limit >= 1
    ensures IsRun(p, steps) && forall i :: 0 <= i < |steps| ==> steps[i].Transaction? && steps[i].at == 0.0
    ensures Reached(p, steps) == Full(p, n)
  {
    hide IsRun, Next, Reached;
    if n == 0 {
      steps := Burst(p, p.limit);
      assert Rows(0, p.limit, 0.0) + Rows(p.limit, 0, Half(p)) == Rows(0, p.limit, 0.0);
    } else {
      steps := Refusals(p, n - 1);
      RefusedAgain(p, n - 1);
      Extend(p, steps, Transaction(Half(p), 0.0));
      steps := steps + [Transaction(Half(p), 0.0)];
    }
  }

  /** A client half a window ahead of the last purges the admissions, and is refused itself. */
  lemma Ahead(p: Policy)
    requires p.window > 0 && p.limit >= 1
    ensures var s := Next(p, Full(p, p.limit), Transaction(p.window as real, 0.0));
            s.admitted == Rows(0, p.limit, 0.0) && forall e :: e in s.zset.entries ==> e.member in s.pending
  {
    hide Rows, Members;
    var s := Full(p, p.limit);
    PurgeAll(Rows(0, p.limit, 0.0), 0.0, p.Cut(p.window as real));
    PurgeFront(Rows(0, p.limit, 0.0), Rows(p.limit, p.limit, Half(p)), 0.0, p.Cut(p.window as real));
    assert Counted(p, s, p.window as real, 0.0) == Rows(p.limit, p.limit, Half(p));
  }

  /** The refused clients take back their entries. */
  lemma {:induction false} UndoAll(p: Policy, steps: seq<Step>) returns (more: seq<Step>)
    requires IsRun(p, steps)
    requires forall e :: e in Reached(p, steps).zset.entries ==> e.member in Reached(p, steps).pending
    ensures IsRun(p, more) && steps <= more && forall i :: |steps| <= i < |more| ==> more[i].Undo?
    ensures Reached(p, more).zset.entries == [] && Reached(p, more).admitted == Reached(p, steps).admitted
    decreases |Reached(p, steps).pending|
  {
    var s := Reached(p, steps);
    if s.zset.entries == [] {
      more := steps;
    } else {
      var m := s.zset.entries[0].member;
      assert s.zset.entries[0] in s.zset.entries;
      Extend(p, steps, Undo(m));
      RemoveSubset(s.zset.entries, m);
      RemoveGone(s.zset.entries, m);
      more := UndoAll(p, steps + [Undo(m)]);
    }
  }

  lemma {:induction false} RemoveGone(entries: seq<Entry>, member: nat)
    ensures forall e :: e in Remove(entries, member) ==> e.member != member
    decreases |entries|
  {
    if entries != [] {
      RemoveGone(entries[..|entries| - 1], member);
    }
  }

  lemma LastAdmitted(p: Policy, s: State)
    requires p.limit >= 1 && s.zset.entries == []
    ensures Next(p, s, Transaction(0.0, 0.0)).admitted == s.admitted + [Entry(s.nonce, 0.0)]
  {
    assert Counted(p, s, 0.0, 0.0) == [];
  }

  /**
   The order of the stamps matters for every positive limit and window: a client whose clock is ahead purges entries
   that still count for the others, and after a run in which nothing expires a window holds `limit + 1` admissions.
   */
  lemma LateStampOverAdmits(p: Policy) returns (steps: seq<Step>)
    requires p.limit >= 1 && p.window > 0
    ensures IsRun(p, steps) && forall i :: 0 <= i < |steps| && steps[i].Transaction? ==> steps[i].at == 0.0
    ensures exists t: Time :: InWindow(p, Scores(Reached(p, steps).admitted), t) == p.limit + 1
  {
    hide IsRun, Next, Reached, Between, Members;
    steps := Refusals(p, p.limit);
    var ahead := Transaction(p.window as real, 0.0);
    Ahead(p);
    Extend(p, steps, ahead);
    steps := UndoAll(p, steps + [ahead]);
    var s := Reached(p, steps);
    LastAdmitted(p, s);
    Extend(p, steps, Transaction(0.0, 0.0));
    OneMore(p, p.limit, Entry(s.nonce, 0.0));
    steps := steps + [Transaction(0.0, 0.0)];
  }
}
