/** Sliding-window admission: what all three limiters are meant to decide. */
module SlidingWindow {
  type Time = real

  datatype Request = Request(key: string, at: Time)

  datatype Policy = Policy(limit: int, window: int) {
    /** Entries at or before this time no longer count at `now`. */
    function Cut(now: Time): Time { now - window as real }
  }

  /** The times later than `cut`. */
  function After(s: seq<Time>, cut: Time): seq<Time> {
    if s == [] then [] else
      After(s[..|s| - 1], cut) + if s[|s| - 1] > cut then [s[|s| - 1]] else []
  }

  /** The reference decision over all times ever admitted for a key. */
  predicate Allows(p: Policy, admitted: seq<Time>, now: Time) {
    |After(admitted, p.Cut(now))| < p.limit
  }

  /** The times admitted for `key` when every request of `past` is decided by the reference. */
  function Admitted(p: Policy, past: seq<Request>, key: string): seq<Time> {
    if past == [] then [] else
      var before, r := Admitted(p, past[..|past| - 1], key), past[|past| - 1];
      if r.key == key && Allows(p, before, r.at) then before + [r.at] else before
  }

  /** How many of the times lie in `(lo, hi]`. */
  function Between(s: seq<Time>, lo: Time, hi: Time): nat {
    if s == [] then 0 else
      Between(s[..|s| - 1], lo, hi) + if lo < s[|s| - 1] <= hi then 1 else 0
  }

  function AtLeast0(n: int): nat { if n < 0 then 0 else n }

  /** No window of the policy's length, wherever it ends, holds more than `limit` of the times. */
  ghost predicate NeverOver(p: Policy, s: seq<Time>) {
    forall t: Time :: InWindow(p, s, t) <= AtLeast0(p.limit)
  }

  /** How many of the times lie in the window that ends at `t`. */
  function InWindow(p: Policy, s: seq<Time>, t: Time): nat {
    Between(s, t - p.window as real, t)
  }

  lemma {:induction false} BetweenAfter(s: seq<Time>, lo: Time, hi: Time, cut: Time)
    requires cut <= lo
    ensures Between(s, lo, hi) <= |After(s, cut)|
    decreases |s|
  {
    if s != [] {
      BetweenAfter(s[..|s| - 1], lo, hi, cut);
    }
  }

  /** Admitting one more time that the reference allows keeps every window within the limit. */
  lemma AdmitKeepsWindows(p: Policy, s: seq<Time>, a: Time)
    requires NeverOver(p, s) && Allows(p, s, a)
    ensures NeverOver(p, s + [a])
  {
    forall t: Time
      ensures InWindow(p, s + [a], t) <= AtLeast0(p.limit)
    {
      assert (s + [a])[..|s|] == s;
      assert InWindow(p, s, t) <= AtLeast0(p.limit);
      if a <= t {
        BetweenAfter(s, p.Cut(t), t, p.Cut(a));
      }
    }
  }

  lemma {:induction false} AfterBetween(s: seq<Time>, lo: Time, hi: Time)
    requires forall i :: 0 <= i < |s| ==> s[i] <= hi
    ensures Between(s, lo, hi) == |After(s, lo)|
    decreases |s|
  {
    if s != [] {
      AfterBetween(s[..|s| - 1], lo, hi);
    }
  }

  lemma {:induction false} EmptyWindow(s: seq<Time>, lo: Time, hi: Time)
    requires lo >= hi
    ensures Between(s, lo, hi) == 0
    decreases |s|
  {
    if s != [] {
      EmptyWindow(s[..|s| - 1], lo, hi);
    }
  }

  /**
   The decision is the most permissive safe one: under a positive limit a request is refused exactly when admitting it
   would overfill a window.
   */
  lemma RefusesOnlyWhenFull(p: Policy, s: seq<Time>, a: Time)
    requires NeverOver(p, s) && forall i :: 0 <= i < |s| ==> s[i] <= a
    ensures Allows(p, s, a) <==> p.limit > 0 && NeverOver(p, s + [a])
  {
    assert (s + [a])[..|s|] == s;
    AfterBetween(s, p.Cut(a), a);
    if p.window > 0 {
      assert InWindow(p, s + [a], a) == |After(s, p.Cut(a))| + 1;
    } else {
      EmptyWindow(s, p.Cut(a), a);
    }
    if Allows(p, s, a) {
      AdmitKeepsWindows(p, s, a);
    }
  }

  /** For all requests, whatever their times, no window of a key holds more than `limit` admissions. */
  lemma {:induction false} ReferenceNeverOver(p: Policy, past: seq<Request>, key: string)
    ensures NeverOver(p, Admitted(p, past, key))
    decreases |past|
  {
    if past != [] {
      var before, r := past[..|past| - 1], past[|past| - 1];
      ReferenceNeverOver(p, before, key);
      if r.key == key && Allows(p, Admitted(p, before, key), r.at) {
        AdmitKeepsWindows(p, Admitted(p, before, key), r.at);
      }
    }
  }

  // ---------------------------------------------------------------- forgetting old times

  /** From `cut` on, `held` has the same times as `all`: what was dropped is older. */
  ghost predicate Covers(held: seq<Time>, all: seq<Time>, cut: Time) {
    forall x: Time :: cut <= x ==> After(held, x) == After(all, x)
  }

  lemma {:induction false} AfterAfter(s: seq<Time>, a: Time, b: Time)
    requires a <= b
    ensures After(After(s, a), b) == After(s, b)
    decreases |s|
  {
    if s != [] {
      AfterAfter(s[..|s| - 1], a, b);
      var rest, last := After(s[..|s| - 1], a), s[|s| - 1];
      assert (rest + [last])[..|rest|] == rest;
      assert last <= a ==> After(s, a) == rest;
    }
  }

  lemma CoversFilter(held: seq<Time>, all: seq<Time>, cut: Time)
    requires Covers(held, all, cut)
    ensures forall later :: cut <= later ==> Covers(After(held, later), all, later)
  {
    forall later, x | cut <= later <= x
      ensures After(After(held, later), x) == After(all, x)
    {
      AfterAfter(held, later, x);
      assert After(held, x) == After(all, x);
    }
  }

  lemma CoversAppend(held: seq<Time>, all: seq<Time>, cut: Time, a: Time)
    requires Covers(held, all, cut)
    ensures Covers(held + [a], all + [a], cut)
  {
    forall x: Time | cut <= x
      ensures After(held + [a], x) == After(all + [a], x)
    {
      assert (held + [a])[..|held|] == held && (all + [a])[..|all|] == all;
      assert After(held, x) == After(all, x);
    }
  }

  lemma {:induction false} AfterDropFirst(s: seq<Time>, cut: Time)
    requires s != [] && s[0] <= cut
    ensures After(s[1..], cut) == After(s, cut)
    decreases |s|
  {
    if |s| > 1 {
      AfterDropFirst(s[..|s| - 1], cut);
      assert s[1..][..|s| - 2] == s[..|s| - 1][1..];
    } else {
      assert s[..0] == [];
    }
  }

  lemma {:induction false} AfterAll(s: seq<Time>, cut: Time)
    requires forall i :: 0 <= i < |s| ==> s[i] > cut
    ensures After(s, cut) == s
    decreases |s|
  {
    if s != [] {
      AfterAll(s[..|s| - 1], cut);
    }
  }

  lemma {:induction false} AfterNone(s: seq<Time>, cut: Time)
    requires forall i :: 0 <= i < |s| ==> s[i] <= cut
    ensures After(s, cut) == []
    decreases |s|
  {
    if s != [] {
      AfterNone(s[..|s| - 1], cut);
    }
  }

  predicate Sorted(s: seq<Time>) {
    forall i, j :: 0 <= i < j < |s| ==> s[i] <= s[j]
  }

  lemma {:induction false} AfterSorted(s: seq<Time>, cut: Time)
    requires Sorted(s)
    ensures Sorted(After(s, cut)) && forall t :: t in After(s, cut) ==> t in s
    decreases |s|
  {
    if s != [] {
      var rest, last := After(s[..|s| - 1], cut), s[|s| - 1];
      AfterSorted(s[..|s| - 1], cut);
      forall i | 0 <= i < |rest|
        ensures rest[i] in s && rest[i] <= last
      {
        assert rest[i] in rest && rest[i] in s[..|s| - 1];
      }
      assert After(s, cut) == rest || After(s, cut) == rest + [last];
    }
  }
}
