/** Retention of snapshot directories: pruning while walking over a copy of the list, and creating one more. */
module Snapshots {
  import opened Text

  /** `stamp` is the number in the directory name, 0 if it has none. */
  datatype Dir = Dir(name: string, stamp: nat, mtime: int)

  predicate NotLater(a: Dir, b: Dir) {
    a.stamp < b.stamp || (a.stamp == b.stamp && a.mtime <= b.mtime)
  }

  predicate Ordered(s: seq<Dir>) {
    forall i, j :: 0 <= i < j < |s| ==> NotLater(s[i], s[j])
  }

  function Insert(s: seq<Dir>, d: Dir): seq<Dir> {
    if s == [] || NotLater(s[|s| - 1], d) then s + [d] else Insert(s[..|s| - 1], d) + [s[|s| - 1]]
  }

  /** The list sorted by `_snapshot_sort_key`, oldest first. */
  function Sort(s: seq<Dir>): seq<Dir> {
    if s == [] then [] else Insert(Sort(s[..|s| - 1]), s[|s| - 1])
  }

  ghost predicate AllBefore(s: seq<Dir>, d: Dir) {
    forall i :: 0 <= i < |s| ==> NotLater(s[i], d)
  }

  lemma OrderedAppend(s: seq<Dir>, d: Dir)
    requires Ordered(s) && AllBefore(s, d)
    ensures Ordered(s + [d])
  {
  }

  lemma OrderedLast(s: seq<Dir>, d: Dir)
    requires Ordered(s) && s != []
    ensures AllBefore(s[..|s| - 1], s[|s| - 1]) && Ordered(s[..|s| - 1])
    ensures NotLater(s[|s| - 1], d) ==> AllBefore(s, d)
  {
  }

  lemma {:induction false} InsertBefore(s: seq<Dir>, d: Dir, x: Dir)
    requires AllBefore(s, x) && NotLater(d, x)
    ensures AllBefore(Insert(s, d), x)
    decreases |s|
  {
    if s != [] && !NotLater(s[|s| - 1], d) {
      InsertBefore(s[..|s| - 1], d, x);
    }
  }

  lemma {:induction false} InsertSorted(s: seq<Dir>, d: Dir)
    requires Ordered(s)
    ensures Ordered(Insert(s, d))
    decreases |s|
  {
    hide Ordered, AllBefore;
    if s == [] {
      OrderedOne(d);
    } else {
      OrderedLast(s, d);
      if NotLater(s[|s| - 1], d) {
        OrderedAppend(s, d);
      } else {
        InsertSorted(s[..|s| - 1], d);
        InsertBefore(s[..|s| - 1], d, s[|s| - 1]);
        OrderedAppend(Insert(s[..|s| - 1], d), s[|s| - 1]);
      }
    }
  }

  lemma OrderedOne(d: Dir)
    ensures Ordered([]) && Ordered([] + [d])
  {
  }

  lemma {:induction false} InsertRows(s: seq<Dir>, d: Dir)
    ensures multiset(Insert(s, d)) == multiset(s) + multiset{d}
    decreases |s|
  {
    if s != [] && !NotLater(s[|s| - 1], d) {
      InsertRows(s[..|s| - 1], d);
      assert s == s[..|s| - 1] + [s[|s| - 1]];
    }
  }

  lemma {:induction false} SortSorts(s: seq<Dir>)
    ensures Ordered(Sort(s)) && multiset(Sort(s)) == multiset(s)
    decreases |s|
  {
    if s != [] {
      hide Ordered, Insert;
      SortSorts(s[..|s| - 1]);
      InsertSorted(Sort(s[..|s| - 1]), s[|s| - 1]);
      InsertRows(Sort(s[..|s| - 1]), s[|s| - 1]);
      assert s == s[..|s| - 1] + [s[|s| - 1]];
    }
  }

  // ---------------------------------------------------------------- what pruning keeps

  datatype Rule = Rule(limit: nat, now: int, maxAge: int) {
    predicate Expired(d: Dir) { now - d.mtime > maxAge }

    /** How many of `n` entries the limit alone removes. */
    function Cut(n: nat): nat { if n > limit then n - limit else 0 }
  }

  /** The entries that have not expired. */
  function Unexpired(r: Rule, s: seq<Dir>): seq<Dir> {
    if s == [] then [] else Unexpired(r, s[..|s| - 1]) + if r.Expired(s[|s| - 1]) then [] else [s[|s| - 1]]
  }

  /** The entries kept among the first `i`, each decided by the length the shrinking list has when it is reached. */
  function Walked(r: Rule, s: seq<Dir>, i: nat): seq<Dir>
    requires i <= |s|
  {
    if i == 0 then [] else
      var before := Walked(r, s, i - 1);
      if r.Expired(s[i - 1]) || |before| + (|s| - (i - 1)) > r.limit then before else before + [s[i - 1]]
  }

  /** For any modification times: the limit takes the first entries, expiry then filters the rest. */
  function Kept(r: Rule, s: seq<Dir>): seq<Dir> {
    Unexpired(r, s[r.Cut(|s|)..])
  }

  lemma {:induction false} WalkedIsKept(r: Rule, s: seq<Dir>, i: nat)
    requires i <= |s|
    ensures i <= r.Cut(|s|) ==> Walked(r, s, i) == []
    ensures i >= r.Cut(|s|) ==> Walked(r, s, i) == Unexpired(r, s[r.Cut(|s|)..i]) && |Walked(r, s, i)| <= i - r.Cut(|s|)
    decreases i
  {
    if i > 0 {
      WalkedIsKept(r, s, i - 1);
      var c := r.Cut(|s|);
      if i > c {
        assert s[c..i][..i - 1 - c] == s[c..i - 1];
      }
    }
  }

  lemma {:induction false} UnexpiredConcat(r: Rule, s: seq<Dir>, t: seq<Dir>)
    ensures Unexpired(r, s + t) == Unexpired(r, s) + Unexpired(r, t)
    decreases |t|
  {
    if t == [] {
      assert s + t == s;
    } else {
      assert (s + t)[..|s + t| - 1] == s + t[..|t| - 1];
      UnexpiredConcat(r, s, t[..|t| - 1]);
    }
  }

  lemma {:induction false} UnexpiredFacts(r: Rule, s: seq<Dir>)
    ensures |Unexpired(r, s)| <= |s|
    ensures forall d :: d in Unexpired(r, s) <==> d in s && !r.Expired(d)
    ensures |Unexpired(r, s)| == |s| <==> Unexpired(r, s) == s
    ensures Unexpired(r, s) == s <==> forall d :: d in s ==> !r.Expired(d)
    ensures Unexpired(r, s) == [] <==> forall d :: d in s ==> r.Expired(d)
    decreases |s|
  {
    if s != [] {
      var rest, last := s[..|s| - 1], s[|s| - 1];
      UnexpiredFacts(r, rest);
      assert s == rest + [last];
      assert forall d :: d in s <==> d in rest || d == last;
    }
  }

  /** The newest unexpired entries, as many as the limit allows: what the documentation says is kept. */
  function Newest(r: Rule, s: seq<Dir>): seq<Dir> {
    var all := Unexpired(r, s);
    all[r.Cut(|all|)..]
  }

  /**
   Pruning keeps the newest unexpired entries exactly when no entry that the limit removes is unexpired or no entry
   after them is expired.
   */
  lemma KeepsNewestExactly(r: Rule, s: seq<Dir>)
    ensures var c := r.Cut(|s|);
            Kept(r, s) == Newest(r, s) <==>
            (forall d :: d in s[..c] ==> r.Expired(d)) || (forall d :: d in s[c..] ==> !r.Expired(d))
  {
    hide Unexpired;
    var c := r.Cut(|s|);
    var a, b := Unexpired(r, s[..c]), Unexpired(r, s[c..]);
    assert s == s[..c] + s[c..];
    UnexpiredConcat(r, s[..c], s[c..]);
    UnexpiredFacts(r, s[..c]);
    UnexpiredFacts(r, s[c..]);
    var all := a + b;
    assert all[|a|..] == b;
    assert all == Unexpired(r, s);
    if b == all[r.Cut(|all|)..] {
      assert |b| == |all| - r.Cut(|all|);
    }
  }

  /** Modification times agree with the order of the names. */
  predicate TimesAgree(s: seq<Dir>) {
    forall i, j :: 0 <= i < j < |s| ==> s[i].mtime <= s[j].mtime
  }

  /** With agreeing times pruning removes exactly the oldest max(expired, n - limit) entries. */
  lemma RemovesOldest(r: Rule, s: seq<Dir>)
    requires TimesAgree(s)
    ensures var expired := |s| - |Unexpired(r, s)|;
            0 <= expired <= |s| && Kept(r, s) == s[if expired > r.Cut(|s|) then expired else r.Cut(|s|)..]
  {
    hide Unexpired;
    var c := r.Cut(|s|);
    var x := ExpiredPrefix(r, s);
    UnexpiredIsSuffix(r, s, 0, x);
    assert s[0..] == s;
    if x <= c {
      SuffixUnexpired(r, s, x, c);
    } else {
      UnexpiredIsSuffix(r, s, c, x);
    }
  }

  lemma UnexpiredIsSuffix(r: Rule, s: seq<Dir>, from: nat, x: nat)
    requires from <= x <= |s|
    requires (forall d :: d in s[..x] ==> r.Expired(d)) && forall d :: d in s[x..] ==> !r.Expired(d)
    ensures Unexpired(r, s[from..]) == s[x..]
  {
    hide Unexpired;
    AllExpired(r, s, from, x);
    SuffixUnexpired(r, s, x, x);
    assert s[from..] == s[from..x] + s[x..];
    UnexpiredConcat(r, s[from..x], s[x..]);
  }

  lemma AllExpired(r: Rule, s: seq<Dir>, from: nat, x: nat)
    requires from <= x <= |s| && forall d :: d in s[..x] ==> r.Expired(d)
    ensures Unexpired(r, s[from..x]) == []
  {
    assert forall i :: from <= i < x ==> s[i] in s[..x];
    UnexpiredFacts(r, s[from..x]);
  }

  lemma SuffixUnexpired(r: Rule, s: seq<Dir>, x: nat, from: nat)
    requires x <= from <= |s| && forall d :: d in s[x..] ==> !r.Expired(d)
    ensures Unexpired(r, s[from..]) == s[from..]
  {
    assert forall i :: x <= i < |s| ==> s[i] in s[x..];
    UnexpiredFacts(r, s[from..]);
  }

  lemma {:induction false} ExpiredPrefix(r: Rule, s: seq<Dir>) returns (x: nat)
    requires TimesAgree(s)
    ensures x <= |s| && (forall d :: d in s[..x] ==> r.Expired(d)) && forall d :: d in s[x..] ==> !r.Expired(d)
    decreases |s|
  {
    if s == [] || r.Expired(s[|s| - 1]) {
      x := |s|;
      assert forall i :: 0 <= i < |s| ==> s[i].mtime <= s[|s| - 1].mtime;
    } else {
      x := ExpiredPrefix(r, s[..|s| - 1]);
      assert s[..|s| - 1][..x] == s[..x];
      assert s[x..] == s[..|s| - 1][x..] + [s[|s| - 1]];
    }
  }

  // ---------------------------------------------------------------- the program

  function RemoveFirst(s: seq<Dir>, d: Dir): seq<Dir> {
    if s == [] then [] else if s[0] == d then s[1..] else [s[0]] + RemoveFirst(s[1..], d)
  }

  lemma {:induction false} RemoveMiddle(a: seq<Dir>, d: Dir, b: seq<Dir>)
    requires d !in a
    ensures RemoveFirst(a + [d] + b, d) == a + b
    decreases |a|
  {
    var s := a + [d] + b;
    if a == [] {
      assert s[1..] == b;
      assert a + b == b;
    } else {
      RemoveMiddle(a[1..], d, b);
      assert s[1..] == a[1..] + [d] + b;
    }
  }

  /** Each directory once, in some order. */
  ghost predicate Lists(listing: seq<Dir>, disk: set<Dir>) {
    (forall d :: d in listing <==> d in disk) && Distinct(listing)
  }

  predicate Distinct(s: seq<Dir>) {
    forall i, j :: 0 <= i < j < |s| ==> s[i] != s[j]
  }

  ghost function NamesOf(dirs: set<Dir>): set<string> {
    set d | d in dirs :: d.name
  }

  function AsSet(s: seq<Dir>): set<Dir> {
    set d | d in s
  }

  lemma {:induction false} OnceEach(s: seq<Dir>, d: Dir)
    requires Distinct(s)
    ensures multiset(s)[d] <= 1
    decreases |s|
  {
    if s != [] {
      var rest, last := s[..|s| - 1], s[|s| - 1];
      assert s == rest + [last];
      OnceEach(rest, d);
      assert last in multiset(rest) ==> last in rest;
    }
  }

  lemma TwiceCounts(s: seq<Dir>, i: nat, j: nat)
    requires i < j < |s| && s[i] == s[j]
    ensures multiset(s)[s[i]] >= 2
  {
    var a, b := s[..j], s[j..];
    assert s == a + b && a[i] == s[i] && b[0] == s[j];
    assert multiset(s) == multiset(a) + multiset(b);
    assert s[i] in multiset(a) && s[i] in multiset(b);
  }

  lemma SortedLists(listing: seq<Dir>, disk: set<Dir>)
    requires Lists(listing, disk)
    ensures Lists(Sort(listing), disk) && |Sort(listing)| == |listing|
  {
    hide Sort;
    SortSorts(listing);
    var s := Sort(listing);
    assert forall d :: d in s <==> d in multiset(s);
    assert forall d :: d in listing <==> d in multiset(listing);
    assert |multiset(s)| == |multiset(listing)|;
    forall i, j | 0 <= i < j < |s|
      ensures s[i] != s[j]
    {
      OnceEach(listing, s[i]);
      if s[i] == s[j] {
        TwiceCounts(s, i, j);
      }
    }
  }

  /** The state of the walk before its i-th entry. */
  ghost predicate Pruning(r: Rule, walk: seq<Dir>, i: nat, entries: seq<Dir>, whole: set<Dir>, disk: set<Dir>,
                          known: set<string>, snapshots: set<string>)
    requires i <= |walk|
  {
    entries == Walked(r, walk, i) + walk[i..] && disk == AsSet(entries) && disk <= whole &&
    snapshots == known - NamesOf(whole - disk)
  }

  lemma StartWalk(r: Rule, walk: seq<Dir>, disk: set<Dir>, snapshots: set<string>)
    requires Lists(walk, disk)
    ensures Pruning(r, walk, 0, walk, disk, disk, snapshots, snapshots)
  {
    assert NamesOf(disk - disk) == {};
  }

  lemma StepWalk(r: Rule, walk: seq<Dir>, i: nat, entries: seq<Dir>, whole: set<Dir>, disk: set<Dir>,
                 known: set<string>, snapshots: set<string>)
    requires i < |walk| && Lists(walk, whole) && Pruning(r, walk, i, entries, whole, disk, known, snapshots)
    ensures if r.Expired(walk[i]) || |entries| > r.limit
            then Pruning(r, walk, i + 1, RemoveFirst(entries, walk[i]), whole, disk - {walk[i]},
                         known, snapshots - {walk[i].name}) &&
                 |RemoveFirst(entries, walk[i])| == |entries| - 1
            else Pruning(r, walk, i + 1, entries, whole, disk, known, snapshots)
  {
    NextWalked(r, walk, i);
    RemoveOne(r, walk, i);
    hide Walked, RemoveFirst, AsSet, NamesOf, Lists;
    NamesGrow(whole, disk, walk[i]);
  }

  lemma EndWalk(r: Rule, walk: seq<Dir>, entries: seq<Dir>, whole: set<Dir>, disk: set<Dir>,
                known: set<string>, snapshots: set<string>)
    requires Pruning(r, walk, |walk|, entries, whole, disk, known, snapshots)
    ensures entries == Kept(r, walk) && disk == AsSet(entries) && disk <= whole && |disk| <= r.limit
    ensures snapshots == known - NamesOf(whole - disk)
  {
    WalkIsKept(r, walk);
    assert walk[|walk|..] == [] && entries == Walked(r, walk, |walk|);
    SetSize(entries);
  }

  lemma NextWalked(r: Rule, s: seq<Dir>, i: nat)
    requires i < |s|
    ensures var entries := Walked(r, s, i) + s[i..];
            Walked(r, s, i + 1) + s[i + 1..] ==
            if r.Expired(s[i]) || |entries| > r.limit then Walked(r, s, i) + s[i + 1..] else entries
  {
  }

  lemma {:induction false} WalkedIn(r: Rule, s: seq<Dir>, i: nat)
    requires i <= |s|
    ensures forall d :: d in Walked(r, s, i) ==> d in s[..i]
    decreases i
  {
    if i > 0 {
      WalkedIn(r, s, i - 1);
      assert s[..i] == s[..i - 1] + [s[i - 1]];
    }
  }

  /** Removing the entry the walk is at, from a list without repeats. */
  lemma RemoveOne(r: Rule, s: seq<Dir>, i: nat)
    requires i < |s| && Distinct(s)
    ensures RemoveFirst(Walked(r, s, i) + s[i..], s[i]) == Walked(r, s, i) + s[i + 1..]
    ensures AsSet(Walked(r, s, i) + s[i + 1..]) == AsSet(Walked(r, s, i) + s[i..]) - {s[i]}
    ensures s[i] in AsSet(Walked(r, s, i) + s[i..])
  {
    hide Walked;
    var w, tail := Walked(r, s, i), s[i + 1..];
    WalkedIn(r, s, i);
    assert s[i] !in s[..i] && s[i] !in tail;
    assert w + s[i..] == w + [s[i]] + tail;
    RemoveMiddle(w, s[i], tail);
    assert forall d :: d in w + [s[i]] + tail <==> d in w || d == s[i] || d in tail;
  }

  lemma NamesGrow(whole: set<Dir>, left: set<Dir>, d: Dir)
    requires d in left && left <= whole
    ensures NamesOf(whole - (left - {d})) == NamesOf(whole - left) + {d.name}
  {
    assert whole - (left - {d}) == (whole - left) + {d};
  }

  lemma {:induction false} SetSize(s: seq<Dir>)
    ensures |AsSet(s)| <= |s|
    decreases |s|
  {
    if s == [] {
      assert AsSet(s) == {};
    } else {
      SetSize(s[..|s| - 1]);
      assert s == s[..|s| - 1] + [s[|s| - 1]];
      assert AsSet(s) == AsSet(s[..|s| - 1]) + {s[|s| - 1]};
    }
  }

  lemma WalkIsKept(r: Rule, s: seq<Dir>)
    ensures Walked(r, s, |s|) == Kept(r, s) && |Kept(r, s)| <= r.limit && forall d :: d in Kept(r, s) ==> d in s
  {
    WalkedIsKept(r, s, |s|);
    assert s[r.Cut(|s|)..|s|] == s[r.Cut(|s|)..];
    UnexpiredFacts(r, s[r.Cut(|s|)..]);
  }

  // ---------------------------------------------------------------- what is kept, by stamps and times

  /** By the number in the name, and among equal ones by modification time. */
  predicate Earlier(a: Dir, b: Dir) {
    a.stamp < b.stamp || (a.stamp == b.stamp && a.mtime < b.mtime)
  }

  /**
   What pruning keeps of `whole`: nothing expired, and fewer than `limit` directories later than any kept one.  A
   removed directory has expired or is no later than `limit` others, and then no later than any kept one.
   */
  ghost predicate Retained(whole: set<Dir>, kept: set<Dir>, limit: nat, maxAge: int, now: int) {
    kept <= whole && |kept| <= limit &&
    (forall a :: a in kept ==> now - a.mtime <= maxAge && |set d | d in whole && Earlier(a, d)| < limit) &&
    (forall b :: b in whole && b !in kept && now - b.mtime <= maxAge ==>
                   |set d | d in whole && d != b && !Earlier(d, b)| >= limit) &&
    forall a, b :: a in kept && b in whole && b !in kept && now - b.mtime <= maxAge ==> !Earlier(a, b)
  }

  /** A later number never goes with an earlier modification time. */
  ghost predicate Consistent(whole: set<Dir>) {
    forall a, b :: a in whole && b in whole && a.stamp < b.stamp ==> a.mtime <= b.mtime
  }

  ghost function ExpiredOf(whole: set<Dir>, maxAge: int, now: int): set<Dir> {
    set d | d in whole && now - d.mtime > maxAge
  }

  /** The removed ones are the oldest, as many as have expired or exceed the limit, whichever is more. */
  ghost predicate OldestRemoved(whole: set<Dir>, kept: set<Dir>, limit: nat, maxAge: int, now: int) {
    var expired, surplus := |ExpiredOf(whole, maxAge, now)|, |whole| - limit;
    |whole| - |kept| == (if expired > surplus then expired else surplus) &&
    forall a, b :: a in kept && b in whole && b !in kept ==> !Earlier(a, b)
  }

  lemma KeptAt(r: Rule, s: seq<Dir>, d: Dir)
    ensures d in Kept(r, s) <==> exists i :: r.Cut(|s|) <= i < |s| && s[i] == d && !r.Expired(d)
  {
    hide Unexpired;
    var c := r.Cut(|s|);
    UnexpiredFacts(r, s[c..]);
    if d in s[c..] {
      var j :| 0 <= j < |s[c..]| && s[c..][j] == d;
      assert s[c + j] == d;
    }
    if i :| c <= i < |s| && s[i] == d {
      assert s[c..][i - c] == d;
    }
  }

  lemma {:induction false} DistinctSize(s: seq<Dir>)
    requires Distinct(s)
    ensures |AsSet(s)| == |s|
    decreases |s|
  {
    if s == [] {
      assert AsSet(s) == {};
    } else {
      var rest, last := s[..|s| - 1], s[|s| - 1];
      DistinctSize(rest);
      assert s == rest + [last];
      assert AsSet(s) == AsSet(rest) + {last} && last !in AsSet(rest);
    }
  }

  lemma {:induction false} FewerOf(a: set<Dir>, b: set<Dir>)
    requires a <= b
    ensures |a| <= |b|
    decreases |a|
  {
    if a != {} {
      var x :| x in a;
      FewerOf(a - {x}, b - {x});
    }
  }

  /** The directories after place `i` of the sorted list are as many as the list goes on, and none is earlier. */
  lemma LaterOnes(s: seq<Dir>, whole: set<Dir>, i: nat)
    requires Lists(s, whole) && Ordered(s) && i < |s|
    ensures |set d | d in whole && Earlier(s[i], d)| <= |s| - 1 - i
    ensures |set d | d in whole && d != s[i] && !Earlier(d, s[i])| >= |s| - 1 - i
  {
    var after := s[i + 1..];
    DistinctSize(after);
    var later, others := set d | d in whole && Earlier(s[i], d), set d | d in whole && d != s[i] && !Earlier(d, s[i]);
    forall d | d in later
      ensures d in AsSet(after)
    {
      var j :| 0 <= j < |s| && s[j] == d;
      assert j <= i ==> NotLater(s[j], s[i]);
      assert after[j - i - 1] == d;
    }
    FewerOf(later, AsSet(after));
    forall d | d in AsSet(after)
      ensures d in others
    {
      var j :| 0 <= j < |after| && after[j] == d;
      assert s[i + 1 + j] == d && NotLater(s[i], s[i + 1 + j]);
    }
    FewerOf(AsSet(after), others);
  }

  lemma PlaceOf(s: seq<Dir>, whole: set<Dir>, d: Dir) returns (i: nat)
    requires Lists(s, whole) && d in whole
    ensures i < |s| && s[i] == d
  {
    i :| 0 <= i < |s| && s[i] == d;
  }

  lemma KeptRetained(r: Rule, s: seq<Dir>, whole: set<Dir>)
    requires Lists(s, whole) && Ordered(s)
    ensures Retained(whole, AsSet(Kept(r, s)), r.limit, r.maxAge, r.now)
  {
    hide Kept, Ordered;
    var kept, c := AsSet(Kept(r, s)), r.Cut(|s|);
    WalkIsKept(r, s);
    SetSize(Kept(r, s));
    forall a | a in kept
      ensures a in whole && r.now - a.mtime <= r.maxAge && |set d | d in whole && Earlier(a, d)| < r.limit
    {
      KeptAt(r, s, a);
      var i :| c <= i < |s| && s[i] == a && !r.Expired(a);
      LaterOnes(s, whole, i);
    }
    forall b | b in whole && b !in kept && r.now - b.mtime <= r.maxAge
      ensures |set d | d in whole && d != b && !Earlier(d, b)| >= r.limit
      ensures forall a :: a in kept ==> !Earlier(a, b)
    {
      var i := PlaceOf(s, whole, b);
      KeptAt(r, s, b);
      assert i < c;
      LaterOnes(s, whole, i);
      forall a | a in kept
        ensures !Earlier(a, b)
      {
        KeptAt(r, s, a);
        var j :| c <= j < |s| && s[j] == a && !r.Expired(a);
        InOrder(s, i, j);
      }
    }
  }

  lemma InOrder(s: seq<Dir>, i: nat, j: nat)
    requires Ordered(s) && i < j < |s|
    ensures !Earlier(s[j], s[i])
  {
    assert NotLater(s[i], s[j]);
  }

  lemma {:induction false} ExpiredCount(r: Rule, s: seq<Dir>)
    requires Distinct(s)
    ensures |ExpiredOf(AsSet(s), r.maxAge, r.now)| == |s| - |Unexpired(r, s)|
    decreases |s|
  {
    if s == [] {
      assert ExpiredOf(AsSet(s), r.maxAge, r.now) == {};
    } else {
      hide AsSet, ExpiredOf;
      var rest, last := s[..|s| - 1], s[|s| - 1];
      ExpiredCount(r, rest);
      assert s == rest + [last] && last !in rest;
      ExpiredLast(r, rest, last);
    }
  }

  lemma ExpiredLast(r: Rule, rest: seq<Dir>, last: Dir)
    requires last !in rest
    ensures |ExpiredOf(AsSet(rest + [last]), r.maxAge, r.now)| ==
            |ExpiredOf(AsSet(rest), r.maxAge, r.now)| + if r.Expired(last) then 1 else 0
  {
    var before, after := ExpiredOf(AsSet(rest), r.maxAge, r.now), ExpiredOf(AsSet(rest + [last]), r.maxAge, r.now);
    assert forall d :: d in rest + [last] <==> d in rest || d == last;
    assert last !in before && after == if r.Expired(last) then before + {last} else before;
  }

  lemma KeptOldest(r: Rule, s: seq<Dir>, whole: set<Dir>)
    requires Lists(s, whole) && Ordered(s) && Consistent(whole)
    ensures OldestRemoved(whole, AsSet(Kept(r, s)), r.limit, r.maxAge, r.now)
  {
    hide Ordered, Unexpired, Kept, ExpiredOf, Consistent, Lists, Distinct, AsSet, Earlier, TimesAgree;
    TimesInOrder(s, whole);
    ListsAll(s, whole);
    RemovesOldest(r, s);
    ExpiredCount(r, s);
    DistinctSize(s);
    var expired := |s| - |Unexpired(r, s)|;
    var k := if expired > r.Cut(|s|) then expired else r.Cut(|s|);
    SuffixDistinct(s, k);
    DistinctSize(s[k..]);
    SuffixOldest(s, whole, k);
  }

  lemma ListsAll(s: seq<Dir>, whole: set<Dir>)
    requires Lists(s, whole)
    ensures AsSet(s) == whole && Distinct(s)
  {
  }

  lemma SuffixDistinct(s: seq<Dir>, k: nat)
    requires Distinct(s) && k <= |s|
    ensures Distinct(s[k..])
  {
  }

  lemma SuffixOldest(s: seq<Dir>, whole: set<Dir>, k: nat)
    requires Lists(s, whole) && Ordered(s) && k <= |s|
    ensures forall a, b :: a in AsSet(s[k..]) && b in whole && b !in AsSet(s[k..]) ==> !Earlier(a, b)
  {
    hide Ordered, Earlier;
    assert forall m :: 0 <= m < |s| - k ==> s[k..][m] == s[k + m];
    assert forall m :: k <= m < |s| ==> s[k..][m - k] == s[m];
    forall a, b | a in AsSet(s[k..]) && b in whole && b !in AsSet(s[k..])
      ensures !Earlier(a, b)
    {
      var i := PlaceOf(s, whole, b);
      var j :| 0 <= j < |s[k..]| && s[k..][j] == a;
      InOrder(s, i, k + j);
    }
  }

  lemma TimesInOrder(s: seq<Dir>, whole: set<Dir>)
    requires Lists(s, whole) && Ordered(s) && Consistent(whole)
    ensures TimesAgree(s)
  {
    forall i, j | 0 <= i < j < |s|
      ensures s[i].mtime <= s[j].mtime
    {
      assert s[i] in whole && s[j] in whole && NotLater(s[i], s[j]);
    }
  }

  class WorktreeManager {
    /** The `snap_` directories on disk. */
    var disk: set<Dir>
    /** The ids in the `snapshots` dictionary. */
    var snapshots: set<string>
    const maxRetained: nat
    const maxAge: int

    ghost predicate Valid()
      reads this
    {
      1 <= maxRetained && forall a, b :: a in disk && b in disk && a.name == b.name ==> a == b
    }

    constructor (maxRetained: int, maxAge: int, disk: set<Dir>)
      requires forall a, b :: a in disk && b in disk && a.name == b.name ==> a == b
      ensures Valid() && this.disk == disk && snapshots == {}
      ensures this.maxRetained == (if maxRetained < 1 then 1 else maxRetained) && this.maxAge == maxAge
    {
      this.maxRetained, this.maxAge := if maxRetained < 1 then 1 else maxRetained, maxAge;
      this.disk, snapshots := disk, {};
    }

    /**
     `listing` is the order in which the directories are found on disk; `None` stands for the manager's own limits.
     The loop walks over a copy while directories leave the list.
     */
    method PruneSnapshots(listing: seq<Dir>, maxRetained: Option<int>, maxAge: Option<int>, now: int)
      returns (removed: nat)
      requires Valid() && Lists(listing, disk)
      modifies this
      ensures Valid()
      ensures var kept := Kept(RuleOf(maxRetained, maxAge, now), Sort(listing));
              disk == AsSet(kept) && snapshots == old(snapshots) - NamesOf(old(disk) - disk) &&
              removed == |listing| - |kept| && |disk| <= RuleOf(maxRetained, maxAge, now).limit &&
              disk <= old(disk)
      ensures var limit := if maxRetained.None? then this.maxRetained else if maxRetained.value < 0 then 0 else maxRetained.value;
              var age := if maxAge.None? then this.maxAge else maxAge.value;
              removed == |old(disk)| - |disk| && Retained(old(disk), disk, limit, age, now) &&
              (Consistent(old(disk)) ==> OldestRemoved(old(disk), disk, limit, age, now))
    {
      hide Walked, Kept, Sort, RemoveFirst, Lists, AsSet, NamesOf, Pruning, Retained, Consistent, OldestRemoved, Ordered;
      var r := RuleOf(maxRetained, maxAge, now);
      removed := 0;
      var entries := Sort(listing);
      SortedLists(listing, disk);
      var walk := entries;
      StartWalk(r, walk, disk, snapshots);
      var i := 0;
      while i < |walk|
        invariant i <= |walk| && Lists(walk, old(disk)) && removed == |walk| - |entries|
        invariant Pruning(r, walk, i, entries, old(disk), disk, old(snapshots), snapshots)
      {
        var entry := walk[i];
        var isExpired, isOverLimit := r.Expired(entry), |entries| > r.limit;
        StepWalk(r, walk, i, entries, old(disk), disk, old(snapshots), snapshots);
        if isExpired || isOverLimit {
          RemoveSnapshotDir(entry);
          entries := RemoveFirst(entries, entry);
          removed := removed + 1;
        }
        i := i + 1;
      }
      EndWalk(r, walk, entries, old(disk), disk, old(snapshots), snapshots);
      SortSorts(listing);
      KeptRetained(r, walk, old(disk));
      if Consistent(old(disk)) {
        KeptOldest(r, walk, old(disk));
      }
      Sizes(r, walk, old(disk));
    }

    lemma Sizes(r: Rule, walk: seq<Dir>, whole: set<Dir>)
      requires Lists(walk, whole)
      ensures |walk| == |whole| && |AsSet(Kept(r, walk))| == |Kept(r, walk)|
    {
      DistinctSize(walk);
      assert AsSet(walk) == whole;
      hide Unexpired;
      UnexpiredDistinct(r, walk[r.Cut(|walk|)..]);
      DistinctSize(Kept(r, walk));
    }

    lemma {:induction false} UnexpiredDistinct(r: Rule, s: seq<Dir>)
      requires Distinct(s)
      ensures Distinct(Unexpired(r, s))
      decreases |s|
    {
      if s != [] {
        var rest, last := s[..|s| - 1], s[|s| - 1];
        UnexpiredDistinct(r, rest);
        UnexpiredFacts(r, rest);
        assert forall d :: d in Unexpired(r, rest) ==> d in rest && d != last;
      }
    }

    method RemoveSnapshotDir(d: Dir)
      modifies this
      ensures disk == old(disk) - {d} && snapshots == old(snapshots) - {d.name}
    {
      disk := disk - {d};
      if d.name in snapshots {
        snapshots := snapshots - {d.name};
      }
    }

    function RuleOf(maxRetained: Option<int>, maxAge: Option<int>, now: int): Rule {
      Rule(if maxRetained.None? then this.maxRetained else if maxRetained.value < 0 then 0 else maxRetained.value,
           now, if maxAge.None? then this.maxAge else maxAge.value)
    }

    lemma NotOnDisk(created: Dir)
      requires created.name !in NamesOf(disk)
      ensures created !in disk
    {
    }

    /** `created` is the new directory, whose name is not on disk; an invalid label is only noticed after pruning. */
    method CreateSnapshot(listing: seq<Dir>, labelValid: bool, created: Dir, now: int) returns (id: Option<string>)
      requires Valid() && Lists(listing, disk) && created.name !in NamesOf(disk)
      modifies this
      ensures Valid() && |disk| <= maxRetained
      ensures id == if labelValid then Some(created.name) else None
      ensures var kept := Kept(RuleOf(Some(maxRetained - 1), None, now), Sort(listing));
              disk == AsSet(kept) + (if labelValid then {created} else {})
      ensures var kept := disk - {created};
              disk == kept + (if labelValid then {created} else {}) &&
              Retained(old(disk), kept, maxRetained - 1, maxAge, now) &&
              (Consistent(old(disk)) ==> OldestRemoved(old(disk), kept, maxRetained - 1, maxAge, now))
      ensures snapshots == old(snapshots) - NamesOf(old(disk) - disk) + if labelValid then {created.name} else {}
    {
      hide Kept, Sort, AsSet, NamesOf, Lists, Retained, Consistent, OldestRemoved;
      NotOnDisk(created);
      ghost var was := disk;
      var removed := PruneSnapshots(listing, Some(maxRetained - 1), None, now);
      ghost var kept := disk;
      assert created !in kept;
      FewerNames(kept, was);
      if labelValid {
        Materialize(created);
        id := Some(created.name);
      } else {
        id := None;
      }
      SameRemoved(was, kept, created);
      assert disk - {created} == kept;
    }

    /** The new directory, and its entry in the dictionary. */
    method Materialize(created: Dir)
      requires Valid() && created.name !in NamesOf(disk)
      modifies this
      ensures Valid() && disk == old(disk) + {created} && snapshots == old(snapshots) + {created.name}
    {
      disk := disk + {created};
      snapshots := snapshots + {created.name};
    }

    lemma FewerNames(kept: set<Dir>, whole: set<Dir>)
      requires kept <= whole
      ensures NamesOf(kept) <= NamesOf(whole)
    {
    }

    lemma SameRemoved(whole: set<Dir>, kept: set<Dir>, created: Dir)
      requires created !in whole
      ensures whole - (kept + {created}) == whole - kept
    {
    }
  }
}
