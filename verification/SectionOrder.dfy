/**
 Diffs with several sections for one file.  Undoing them takes the reversed sections in reversed order; the program
 keeps their order.
 */
module SectionOrder {
  import opened Text
  import opened UnifiedDiff

  /** The reversed sections, last one first. */
  function Backwards(d: Diff): Diff {
    if d == [] then [] else Backwards(d[1..]) + [ReverseFile(d[0])]
  }

  lemma {:induction false} ApplyConcat(a: Diff, b: Diff, t: Tree)
    ensures ApplyDiff(a + b, t) ==
            if ApplyDiff(a, t).None? then None else ApplyDiff(b, ApplyDiff(a, t).value)
    decreases |a|
  {
    if a == [] {
      assert a + b == b;
    } else {
      hide ApplyFile;
      assert (a + b)[1..] == a[1..] + b;
      var next := ApplyFile(a[0], t);
      if next.Some? {
        ApplyConcat(a[1..], b, next.value);
      }
    }
  }

  /** Every diff that applies is undone by its reversed sections in reversed order, however many sections a file has. */
  lemma {:induction false} UndoBackwards(d: Diff, t: Tree, t': Tree)
    requires ApplyDiff(d, t) == Some(t')
    ensures ApplyDiff(Backwards(d), t') == Some(t)
    decreases |d|
  {
    if d != [] {
      hide ApplyFile;
      var f := d[0];
      var t1 := ApplyFile(f, t).value;
      UndoBackwards(d[1..], t1, t');
      UndoFile(f, t, t1);
      ApplyConcat(Backwards(d[1..]), [ReverseFile(f)], t');
      assert [ReverseFile(f)][1..] == [];
    }
  }

  lemma UndoFile(f: FileDiff, t: Tree, t1: Tree)
    requires ApplyFile(f, t) == Some(t1)
    ensures ApplyFile(ReverseFile(f), t1) == Some(t)
  {
    UndoPaths(PathOf(f.oldName), PathOf(f.newName), f.hunks, t, t1);
    hide PathOf;
  }

  // ---------------------------------------------------------------- the same hunks on another file

  /** Line `i` of the old file is named by a hunk, as context or as changed. */
  predicate Covers(hs: seq<Hunk>, i: int) {
    hs != [] && (Index(hs[0].source) <= i < Index(hs[0].source) + Length(hs[0].source) || Covers(hs[1..], i))
  }

  /** Line `k` of the new file is. */
  predicate Writes(hs: seq<Hunk>, k: int) {
    hs != [] && (Index(hs[0].target) <= k < Index(hs[0].target) + Length(hs[0].target) || Writes(hs[1..], k))
  }

  /** Where line `k` of the new file comes from, if no hunk names it: the hunks before it shift it. */
  function Origin(hs: seq<Hunk>, at: int, to: int, k: int): int {
    if hs == [] || k < Index(hs[0].target) then k - to + at
    else Origin(hs[1..], Index(hs[0].source) + Length(hs[0].source), Index(hs[0].target) + Length(hs[0].target), k)
  }

  /** The end of the last hunk in the old file. */
  function Reach(hs: seq<Hunk>, at: int): int {
    if hs == [] then at else Reach(hs[1..], Index(hs[0].source) + Length(hs[0].source))
  }

  /** `f2` is long enough for the hunks and has the lines of `f` that they name, at the same numbers. */
  ghost predicate Agree(hs: seq<Hunk>, at: int, f: seq<string>, f2: seq<string>) {
    Reach(hs, at) <= |f2| && forall i :: 0 <= i < |f| && i < |f2| && Covers(hs, i) ==> f[i] == f2[i]
  }

  /** From line `to` on, `g2` has the lines of `g` that the hunks name, and around them those of `f2`. */
  ghost predicate Overlaid(hs: seq<Hunk>, at: int, to: int, f2: seq<string>, g: seq<string>, g2: seq<string>) {
    forall k :: to <= k < to + |g2| ==>
                  if Writes(hs, k) then k < to + |g| && g2[k - to] == g[k - to]
                  else at <= Origin(hs, at, to, k) < |f2| && 0 <= at && g2[k - to] == f2[Origin(hs, at, to, k)]
  }

  /** Named lines lie between where the hunks start and where the files end. */
  ghost predicate Within(hs: seq<Hunk>, at: int, to: int, oldEnd: int, newEnd: int) {
    at <= Reach(hs, at) <= oldEnd && (forall i :: Covers(hs, i) ==> at <= i < oldEnd) &&
    forall k :: Writes(hs, k) ==> to <= k < newEnd
  }

  ghost predicate Frame(hs: seq<Hunk>, at: nat, to: nat, f: seq<string>, f2: seq<string>, r: Option<seq<string>>,
                        r2: Option<seq<string>>)
  {
    r.Some? && Within(hs, at, to, |f|, to + |r.value|) && (r2.Some? <==> Agree(hs, at, f, f2)) &&
    (r2.Some? ==> |r2.value| + |f| == |r.value| + |f2| && Overlaid(hs, at, to, f2, r.value, r2.value))
  }

  /** One hunk, applied. */
  lemma HunkOnce(hs: seq<Hunk>, f: seq<string>, at: nat, to: nat)
    requires hs != [] && at <= |f| && ApplyHunks(hs, f, at, to).Some?
    ensures var h := hs[0];
            var o, e, n, q := Index(h.source), Index(h.source) + Length(h.source), Index(h.target),
                              Index(h.target) + Length(h.target);
            at <= o <= e <= |f| && to <= n <= q && n - to == o - at && |NewSide(h.body)| == q - n &&
            f[o..e] == OldSide(h.body) && ApplyHunks(hs[1..], f, e, q).Some? &&
            ApplyHunks(hs, f, at, to) == Some(f[at..o] + NewSide(h.body) + ApplyHunks(hs[1..], f, e, q).value)
  {
    hide Index, Length, OldSide, NewSide;
  }

  /** The same hunk on another file. */
  lemma HunkOther(hs: seq<Hunk>, f: seq<string>, f2: seq<string>, at: nat, to: nat)
    requires hs != [] && at <= |f| && at <= |f2| && ApplyHunks(hs, f, at, to).Some?
    ensures var h := hs[0];
            var o, e, q := Index(h.source), Index(h.source) + Length(h.source), Index(h.target) + Length(h.target);
            at <= o <= e <= |f| && 0 <= q &&
            ApplyHunks(hs, f2, at, to) ==
            if e <= |f2| && f2[o..e] == f[o..e] && ApplyHunks(hs[1..], f2, e, q).Some? then
              Some(f2[at..o] + NewSide(h.body) + ApplyHunks(hs[1..], f2, e, q).value)
            else None
  {
    hide Index, Length, OldSide, NewSide;
    assert HunkFits(hs[0], f, at, to);
  }

  /** The ranges of the first hunk, spelled out. */
  ghost predicate Splits(hs: seq<Hunk>, at: int, to: int, o: int, e: int, n: int, q: int) {
    hs != [] && (forall i :: Covers(hs, i) <==> o <= i < e || Covers(hs[1..], i)) &&
    (forall k :: Writes(hs, k) <==> n <= k < q || Writes(hs[1..], k)) && Reach(hs, at) == Reach(hs[1..], e) &&
    forall k :: Origin(hs, at, to, k) == if k < n then k - to + at else Origin(hs[1..], e, q, k)
  }

  lemma SplitsFirst(hs: seq<Hunk>, at: int, to: int)
    requires hs != []
    ensures Splits(hs, at, to, Index(hs[0].source), Index(hs[0].source) + Length(hs[0].source), Index(hs[0].target),
                   Index(hs[0].target) + Length(hs[0].target))
  {
  }

  lemma AgreeCons(hs: seq<Hunk>, at: nat, to: nat, o: nat, e: nat, n: int, q: int, f: seq<string>, f2: seq<string>)
    requires Splits(hs, at, to, o, e, n, q) && o <= e <= |f| && e <= |f2| && e <= Reach(hs[1..], e)
    ensures Agree(hs, at, f, f2) <==> f2[o..e] == f[o..e] && Agree(hs[1..], e, f, f2)
  {
    hide Covers, Writes, Origin, Reach;
    if Agree(hs, at, f, f2) {
      assert forall i :: o <= i < e ==> Covers(hs, i);
      assert forall i :: 0 <= i < e - o ==> f[o..e][i] == f[o + i] && f2[o..e][i] == f2[o + i];
    }
    if f2[o..e] == f[o..e] {
      assert forall i :: o <= i < e ==> f[i] == f[o..e][i - o] && f2[i] == f2[o..e][i - o];
    }
  }

  lemma OverlaidCons(hs: seq<Hunk>, at: nat, to: nat, o: nat, e: nat, n: nat, q: nat, f: seq<string>, f2: seq<string>,
                     lines: seq<string>, rest: seq<string>, rest2: seq<string>)
    requires Splits(hs, at, to, o, e, n, q) && at <= o <= e && o <= |f| && o <= |f2| && to <= n && n - to == o - at
    requires |lines| == q - n && (forall k :: Writes(hs[1..], k) ==> q <= k)
    requires Overlaid(hs[1..], e, q, f2, rest, rest2)
    ensures Overlaid(hs, at, to, f2, f[at..o] + lines + rest, f2[at..o] + lines + rest2)
  {
    hide Covers, Writes, Origin, Reach;
    var g, g2 := f[at..o] + lines + rest, f2[at..o] + lines + rest2;
    forall k | to <= k < to + |g2|
      ensures if Writes(hs, k) then k < to + |g| && g2[k - to] == g[k - to]
              else at <= Origin(hs, at, to, k) < |f2| && g2[k - to] == f2[Origin(hs, at, to, k)]
    {
      if k < n {
        assert g2[k - to] == f2[at..o][k - to];
      } else if k < q {
        assert g2[k - to] == lines[k - n] == g[k - to];
      } else {
        assert g2[k - to] == rest2[k - q];
        assert Writes(hs[1..], k) ==> g[k - to] == rest[k - q];
      }
    }
  }

  lemma FrameCons(hs: seq<Hunk>, at: nat, to: nat, o: nat, e: nat, n: nat, q: nat, f: seq<string>, f2: seq<string>,
                  lines: seq<string>, rest: Option<seq<string>>, rest2: Option<seq<string>>)
    requires Splits(hs, at, to, o, e, n, q) && at <= o <= e <= |f| && e <= |f2| && to <= n <= q && n - to == o - at
    requires |lines| == q - n && Frame(hs[1..], e, q, f, f2, rest, rest2)
    ensures Frame(hs, at, to, f, f2, Some(f[at..o] + lines + rest.value),
                  if f2[o..e] == f[o..e] && rest2.Some? then Some(f2[at..o] + lines + rest2.value) else None)
  {
    hide Covers, Writes, Origin, Reach, Agree, Overlaid;
    AgreeCons(hs, at, to, o, e, n, q, f, f2);
    if rest2.Some? {
      OverlaidCons(hs, at, to, o, e, n, q, f, f2, lines, rest.value, rest2.value);
    }
  }

  lemma FrameShort(hs: seq<Hunk>, at: nat, to: nat, o: nat, e: nat, n: nat, q: nat, f: seq<string>, f2: seq<string>,
                   lines: seq<string>, rest: Option<seq<string>>, rest2: Option<seq<string>>)
    requires Splits(hs, at, to, o, e, n, q) && at <= o <= e <= |f| && e > |f2| && to <= n <= q && n - to == o - at
    requires |lines| == q - n && Frame(hs[1..], e, q, f, f, rest, rest2)
    ensures Frame(hs, at, to, f, f2, Some(f[at..o] + lines + rest.value), None)
  {
    hide Covers, Writes, Origin, Reach, Overlaid;
  }

  lemma FrameNone(f: seq<string>, f2: seq<string>, at: nat, to: nat)
    requires at <= |f| && at <= |f2|
    ensures Frame([], at, to, f, f2, ApplyHunks([], f, at, to), ApplyHunks([], f2, at, to))
  {
  }

  /**
   Hunks look at the lines they name and nothing else: on another file they apply exactly when those lines are there at
   the same numbers, and then they write the same, with the other file's lines, shifted, around it.
   */
  lemma {:induction false} HunksFrame(hs: seq<Hunk>, f: seq<string>, f2: seq<string>, at: nat, to: nat)
    requires at <= |f| && at <= |f2| && ApplyHunks(hs, f, at, to).Some?
    ensures Frame(hs, at, to, f, f2, ApplyHunks(hs, f, at, to), ApplyHunks(hs, f2, at, to))
    decreases |hs|
  {
    hide Index, Length, OldSide, NewSide, ApplyHunks, Frame, Splits;
    if hs == [] {
      FrameNone(f, f2, at, to);
    } else {
      var h := hs[0];
      var o, n := Index(h.source), Index(h.target);
      var e, q := o + Length(h.source), n + Length(h.target);
      HunkOnce(hs, f, at, to);
      HunkOther(hs, f, f2, at, to);
      SplitsFirst(hs, at, to);
      var rest := ApplyHunks(hs[1..], f, e, q);
      if e <= |f2| {
        HunksFrame(hs[1..], f, f2, e, q);
        FrameCons(hs, at, to, o, e, n, q, f, f2, NewSide(h.body), rest, ApplyHunks(hs[1..], f2, e, q));
      } else {
        HunksFrame(hs[1..], f, f, e, q);
        FrameShort(hs, at, to, o, e, n, q, f, f2, NewSide(h.body), rest, rest);
      }
    }
  }

  // ---------------------------------------------------------------- two sections for one file

  /** A section that changes the file `p`. */
  predicate Changes(f: FileDiff, p: string) {
    PathOf(f.oldName) == Some(p) && PathOf(f.newName) == Some(p)
  }

  lemma ApplyChange(f: FileDiff, p: string, t: Tree)
    requires Changes(f, p) && p in t
    ensures var r := ApplyHunks(f.hunks, t[p], 0, 0);
            ApplyFile(f, t) == if r.None? then None else Some(t[p := r.value])
  {
    hide ApplyHunks, PathOf;
    var r := ApplyHunks(f.hunks, t[p], 0, 0);
    if r.Some? {
      assert (t - {p})[p := r.value] == t[p := r.value];
    }
  }

  /** `n` lines: those the hunks write, from `g`, and around them those of `f2`, shifted. */
  function Laid(hs: seq<Hunk>, g: seq<string>, f2: seq<string>, n: int): seq<string> {
    if n < 0 then [] else
      seq(n, k requires 0 <= k < n =>
        if Writes(hs, k) then LineAt(g, k) else LineAt(f2, Origin(hs, 0, 0, k)))
  }

  function LineAt(f: seq<string>, i: int): string {
    if 0 <= i < |f| then f[i] else ""
  }

  lemma LaidIs(hs: seq<Hunk>, g: seq<string>, f2: seq<string>, g2: seq<string>)
    requires Overlaid(hs, 0, 0, f2, g, g2)
    ensures g2 == Laid(hs, g, f2, |g2|)
  {
    hide Writes, Origin;
    assert forall k :: 0 <= k < |g2| ==> g2[k - 0] == Laid(hs, g, f2, |g2|)[k];
  }

  /**
   The file was `a`, then `b`, then `c`.  What the first section wrote is still at its line numbers in `c`; with that put
   back and the lines around it shifted, what the second section wrote is at its line numbers as well; and with that put
   back too, all lines are those of `a`.
   */
  ghost predicate InStep(f: seq<Hunk>, g: seq<Hunk>, a: seq<string>, b: seq<string>, c: seq<string>) {
    var rf, rg := ReverseHunks(f), ReverseHunks(g);
    var x := Laid(rf, a, c, |c| + |a| - |b|);
    Agree(rf, 0, b, c) && Agree(rg, 0, c, x) && Laid(rg, b, x, |a|) == a
  }

  /** A section made `b` of `a`: its reverse, applied to `c` instead of `b`. */
  lemma UndoneOn(hs: seq<Hunk>, a: seq<string>, b: seq<string>, c: seq<string>)
    requires ApplyHunks(hs, a, 0, 0) == Some(b)
    ensures var r := ApplyHunks(ReverseHunks(hs), c, 0, 0);
            (r.Some? <==> Agree(ReverseHunks(hs), 0, b, c)) &&
            (r.Some? ==> |r.value| == |c| + |a| - |b| && r.value == Laid(ReverseHunks(hs), a, c, |c| + |a| - |b|))
  {
    hide ApplyHunks, ReverseHunks, Agree, Overlaid, Laid;
    UndoFileHunks(hs, a, b);
    HunksFrame(ReverseHunks(hs), b, c, 0, 0);
    var r := ApplyHunks(ReverseHunks(hs), c, 0, 0);
    if r.Some? {
      LaidIs(ReverseHunks(hs), a, c, r.value);
    }
  }

  lemma TwoSteps(f: FileDiff, g: FileDiff, t: Tree)
    ensures ApplyDiff([f, g], t) == if ApplyFile(f, t).None? then None else ApplyFile(g, ApplyFile(f, t).value)
  {
    hide ApplyFile;
    assert [f, g][1..] == [g] && [g][1..] == [];
    var next := ApplyFile(f, t);
    assert next.Some? ==> ApplyDiff([g], next.value) == ApplyFile(g, next.value);
  }

  lemma ReverseTwo(f: FileDiff, g: FileDiff)
    ensures Reverse([f, g]) == [ReverseFile(f), ReverseFile(g)]
  {
    assert [f, g][1..] == [g] && [g][1..] == [];
    assert Reverse([g]) == [ReverseFile(g)];
  }

  /** Two sections for one file, however they shift its lines: exactly when the program's order undoes them. */
  lemma TwoSectionsExactly(f: FileDiff, g: FileDiff, p: string, t: Tree, t1: Tree, t2: Tree)
    requires Changes(f, p) && Changes(g, p) && p in t && ApplyFile(f, t) == Some(t1) && ApplyFile(g, t1) == Some(t2)
    ensures p in t1 && p in t2
    ensures ApplyDiff(Reverse([f, g]), t2) == Some(t) <==> InStep(f.hunks, g.hunks, t[p], t1[p], t2[p])
  {
    hide ApplyFile, PathOf, ApplyHunks, Agree, Laid, ReverseHunks;
    ApplyChange(f, p, t);
    ApplyChange(g, p, t1);
    var a, b, c, rf := t[p], t1[p], t2[p], ReverseHunks(f.hunks);
    UndoneOn(f.hunks, a, b, c);
    TwoSteps(ReverseFile(f), ReverseFile(g), t2);
    ReverseTwo(f, g);
    ApplyChange(ReverseFile(f), p, t2);
    var x := ApplyHunks(rf, c, 0, 0);
    if x.Some? {
      UndoneOn(g.hunks, b, c, x.value);
      ApplyChange(ReverseFile(g), p, t2[p := x.value]);
      assert t2[p := x.value][p := a] == t;
    }
  }

  // ---------------------------------------------------------------- hunks that move no line

  /** Each hunk replaces lines by as many, at the place where they were. */
  predicate InPlace(hs: seq<Hunk>) {
    forall h :: h in hs ==> Index(h.source) == Index(h.target) && Length(h.source) == Length(h.target)
  }

  lemma InPlaceTail(hs: seq<Hunk>)
    requires hs != [] && InPlace(hs)
    ensures InPlace(hs[1..])
  {
    hide Index, Length;
    assert forall x :: x in hs[1..] ==> x in hs;
  }

  lemma {:induction false} InPlaceShape(hs: seq<Hunk>, at: int)
    requires InPlace(hs)
    ensures forall k :: Origin(hs, at, at, k) == k && (Writes(hs, k) <==> Covers(hs, k))
    decreases |hs|
  {
    if hs != [] {
      hide Index, Length;
      assert hs[0] in hs;
      InPlaceTail(hs);
      var e := Index(hs[0].source) + Length(hs[0].source);
      InPlaceShape(hs[1..], e);
      SplitsFirst(hs, at, at);
      assert forall k :: Origin(hs[1..], e, e, k) == k;
    }
  }

  lemma {:induction false} InPlaceLength(hs: seq<Hunk>, f: seq<string>, at: nat)
    requires InPlace(hs) && at <= |f| && ApplyHunks(hs, f, at, at).Some?
    ensures |ApplyHunks(hs, f, at, at).value| == |f| - at
    decreases |hs|
  {
    if hs != [] {
      HunkOnce(hs, f, at, at);
      hide Index, Length, OldSide, NewSide, ApplyHunks;
      assert hs[0] in hs;
      InPlaceTail(hs);
      InPlaceLength(hs[1..], f, Index(hs[0].source) + Length(hs[0].source));
    }
  }

  lemma {:induction false} ReverseInPlace(hs: seq<Hunk>)
    requires InPlace(hs)
    ensures InPlace(ReverseHunks(hs)) && forall i :: Covers(ReverseHunks(hs), i) <==> Covers(hs, i)
    decreases |hs|
  {
    if hs != [] {
      var h := hs[0];
      assert h in hs;
      InPlaceTail(hs);
      ReverseInPlace(hs[1..]);
      ExplicitMeaning(h.source);
      ExplicitMeaning(h.target);
      hide Index, Length, Explicit, FlipBody;
      assert ReverseHunks(hs)[1..] == ReverseHunks(hs[1..]);
    }
  }

  /** Such hunks change named lines only. */
  ghost predicate Local(hs: seq<Hunk>, a: seq<string>, b: seq<string>) {
    |a| == |b| && (forall i :: Covers(hs, i) ==> 0 <= i < |a|) &&
    forall i :: 0 <= i < |a| && !Covers(hs, i) ==> a[i] == b[i]
  }

  lemma InPlaceLocal(hs: seq<Hunk>, a: seq<string>, b: seq<string>)
    requires InPlace(hs) && ApplyHunks(hs, a, 0, 0) == Some(b)
    ensures Local(hs, a, b)
  {
    hide ApplyHunks, InPlace, Covers, Writes, Origin, Reach;
    InPlaceLength(hs, a, 0);
    InPlaceShape(hs, 0);
    HunksFrame(hs, a, a, 0, 0);
    assert forall k :: 0 <= k < |b| && !Covers(hs, k) ==> b[k - 0] == a[Origin(hs, 0, 0, k)];
  }

  /** What a reversed section in place looks at and gives. */
  lemma InPlaceBack(hs: seq<Hunk>, a: seq<string>, b: seq<string>, c: seq<string>)
    requires InPlace(hs) && ApplyHunks(hs, a, 0, 0) == Some(b) && |c| == |a| == |b|
    ensures var x := Laid(ReverseHunks(hs), a, c, |a|);
            |x| == |a| && forall k :: 0 <= k < |a| ==> x[k] == if Covers(hs, k) then a[k] else c[k]
    ensures Agree(ReverseHunks(hs), 0, b, c) <==> forall i :: 0 <= i < |b| && Covers(hs, i) ==> b[i] == c[i]
  {
    hide ApplyHunks, InPlace, Covers, Writes, Origin, Reach, ReverseHunks;
    ReverseInPlace(hs);
    InPlaceShape(ReverseHunks(hs), 0);
    UndoFileHunks(hs, a, b);
    HunksFrame(ReverseHunks(hs), b, b, 0, 0);
  }

  /** No line named by both sections is changed by either. */
  ghost predicate Apart(f: seq<Hunk>, g: seq<Hunk>, a: seq<string>, b: seq<string>, c: seq<string>)
    requires |a| == |b| == |c|
  {
    forall i :: 0 <= i < |a| && Covers(f, i) && Covers(g, i) ==> a[i] == b[i] == c[i]
  }

  lemma ApartExactly(f: seq<Hunk>, g: seq<Hunk>, a: seq<string>, b: seq<string>, c: seq<string>)
    requires InPlace(f) && InPlace(g) && ApplyHunks(f, a, 0, 0) == Some(b) && ApplyHunks(g, b, 0, 0) == Some(c)
    ensures |a| == |b| == |c| && (InStep(f, g, a, b, c) <==> Apart(f, g, a, b, c))
  {
    hide ApplyHunks, InPlace, Covers, Agree, Laid, ReverseHunks;
    InPlaceLocal(f, a, b);
    InPlaceLocal(g, b, c);
    InPlaceBack(f, a, b, c);
    var x := Laid(ReverseHunks(f), a, c, |a|);
    InPlaceBack(g, b, c, x);
    var y := Laid(ReverseHunks(g), b, x, |a|);
    assert y == a <==> forall k :: 0 <= k < |a| ==> y[k] == a[k];
  }

  /** Two sections for one file that move no line: the program's order undoes them exactly when they are apart. */
  lemma TwoInPlaceExactly(f: FileDiff, g: FileDiff, p: string, t: Tree, t1: Tree, t2: Tree)
    requires Changes(f, p) && Changes(g, p) && p in t && ApplyFile(f, t) == Some(t1) && ApplyFile(g, t1) == Some(t2)
    requires InPlace(f.hunks) && InPlace(g.hunks)
    ensures p in t1 && p in t2 && |t[p]| == |t1[p]| == |t2[p]|
    ensures ApplyDiff(Reverse([f, g]), t2) == Some(t) <==> Apart(f.hunks, g.hunks, t[p], t1[p], t2[p])
  {
    hide ApplyFile, PathOf, ApplyHunks, InPlace, Apart, InStep;
    ApplyChange(f, p, t);
    ApplyChange(g, p, t1);
    ApartExactly(f.hunks, g.hunks, t[p], t1[p], t2[p]);
    TwoSectionsExactly(f, g, p, t, t1, t2);
  }
}
