/**
 Unified diffs (POSIX.1-2017, `diff` utility, "Diff -u or -U Output Format"): their structure,
 their text, and what applying one to a tree of files means.  The last part proves that applying
 a diff and then its structural reverse restores the tree.
 */
module UnifiedDiff {
  import opened Text

  datatype Mark = Keep | Drop | Add

  /**
   One line of a hunk.  `eol` is "\n", or "" for the last line of a diff that stops short; a "\r" before
   it belongs to the text.  `marker` is the whole "\ No newline at end of file" line that follows, or "".
   */
  datatype BodyLine = BodyLine(mark: Mark, text: string, eol: string, marker: string)

  /** A hunk range, as the digit strings of the header; a missing length means one line. */
  datatype Range = Range(start: string, len: Option<string>)

  /** `section` is whatever follows the closing "@@", terminator included. */
  datatype Hunk = Hunk(source: Range, target: Range, section: string, body: seq<BodyLine>)

  /** `oldName` and `newName` are what follows "--- " and "+++ ", terminator included. */
  datatype FileDiff = FileDiff(preamble: seq<string>, oldName: string, newName: string, hunks: seq<Hunk>)

  type Diff = seq<FileDiff>

  // ---------------------------------------------------------------- text

  function MarkChar(m: Mark): string {
    match m
    case Keep => " "
    case Drop => "-"
    case Add => "+"
  }

  function PrintRange(r: Range): string {
    r.start + if r.len.Some? then "," + r.len.value else ""
  }

  function PrintHeader(h: Hunk): string {
    "@@ -" + PrintRange(h.source) + " +" + PrintRange(h.target) + " @@" + h.section
  }

  function PrintLine(b: BodyLine): seq<string> {
    [MarkChar(b.mark) + b.text + b.eol] + if b.marker == "" then [] else [b.marker]
  }

  function PrintBody(body: seq<BodyLine>): seq<string> {
    if body == [] then [] else PrintLine(body[0]) + PrintBody(body[1..])
  }

  function PrintHunks(hunks: seq<Hunk>): seq<string> {
    if hunks == [] then [] else [PrintHeader(hunks[0])] + PrintBody(hunks[0].body) + PrintHunks(hunks[1..])
  }

  function PrintFile(f: FileDiff): seq<string> {
    f.preamble + ["--- " + f.oldName, "+++ " + f.newName] + PrintHunks(f.hunks)
  }

  function PrintDiff(d: Diff): seq<string> {
    if d == [] then [] else PrintFile(d[0]) + PrintDiff(d[1..])
  }

  function DiffText(d: Diff): string {
    Join(PrintDiff(d))
  }

  // ---------------------------------------------------------------- reversal

  function FlipLine(b: BodyLine): BodyLine {
    b.(mark := match b.mark case Keep => Keep case Drop => Add case Add => Drop)
  }

  function FlipBody(body: seq<BodyLine>): (r: seq<BodyLine>)
    ensures |r| == |body|
  {
    if body == [] then [] else [FlipLine(body[0])] + FlipBody(body[1..])
  }

  /** The same range with its length written out. */
  function Explicit(r: Range): Range {
    Range(r.start, Some(if r.len.Some? then r.len.value else "1"))
  }

  function ReverseHunk(h: Hunk): Hunk {
    Hunk(Explicit(h.target), Explicit(h.source), "\n", FlipBody(h.body))
  }

  function ReverseHunks(hs: seq<Hunk>): seq<Hunk> {
    if hs == [] then [] else [ReverseHunk(hs[0])] + ReverseHunks(hs[1..])
  }

  function ReverseFile(f: FileDiff): FileDiff {
    FileDiff(f.preamble, f.newName, f.oldName, ReverseHunks(f.hunks))
  }

  function Reverse(d: Diff): Diff {
    if d == [] then [] else [ReverseFile(d[0])] + Reverse(d[1..])
  }

  /** Normal form: explicit hunk lengths and no section text. */
  function NormalHunk(h: Hunk): Hunk {
    Hunk(Explicit(h.source), Explicit(h.target), "\n", h.body)
  }

  function NormalHunks(hs: seq<Hunk>): seq<Hunk> {
    if hs == [] then [] else [NormalHunk(hs[0])] + NormalHunks(hs[1..])
  }

  function Normal(d: Diff): Diff {
    if d == [] then [] else [d[0].(hunks := NormalHunks(d[0].hunks))] + Normal(d[1..])
  }

  predicate BodyChanges(body: seq<BodyLine>) {
    exists i :: 0 <= i < |body| && body[i].mark != Keep
  }

  predicate HunksChange(hs: seq<Hunk>) {
    exists i :: 0 <= i < |hs| && BodyChanges(hs[i].body)
  }

  /** Some hunk adds or removes a line. */
  predicate HasChange(d: Diff) {
    exists i :: 0 <= i < |d| && HunksChange(d[i].hunks)
  }

  // ---------------------------------------------------------------- meaning

  /** The line of a file that a body line stands for: the marker takes the terminator away. */
  function FileLine(b: BodyLine): string {
    if b.marker != "" then b.text else b.text + if b.eol == "" then "\n" else b.eol
  }

  function OldSide(body: seq<BodyLine>): seq<string> {
    if body == [] then []
    else (if body[0].mark == Add then [] else [FileLine(body[0])]) + OldSide(body[1..])
  }

  function NewSide(body: seq<BodyLine>): seq<string> {
    if body == [] then []
    else (if body[0].mark == Drop then [] else [FileLine(body[0])]) + NewSide(body[1..])
  }

  /** Value of a decimal numeral. */
  function Numeral(s: string): int {
    if s == "" then 0 else 10 * Numeral(s[..|s| - 1]) + (s[|s| - 1] as int - '0' as int)
  }

  function Length(r: Range): int {
    if r.len.Some? then Numeral(r.len.value) else 1
  }

  /**
   Index in the file of the first line of a range.  Line numbers count from one; an empty range
   names the line just before it.
   */
  function Index(r: Range): int {
    if Length(r) == 0 then Numeral(r.start) else Numeral(r.start) - 1
  }

  /**
   `h` fits file `f` when everything before line `at` has been dealt with and `to` lines have been
   produced so far: both ranges lie where they say, and the old side is there.
   */
  predicate HunkFits(h: Hunk, f: seq<string>, at: nat, to: nat) {
    at <= Index(h.source) &&
    Length(h.source) == |OldSide(h.body)| && Length(h.target) == |NewSide(h.body)| &&
    Index(h.source) + Length(h.source) <= |f| &&
    f[Index(h.source)..Index(h.source) + Length(h.source)] == OldSide(h.body) &&
    Index(h.target) - to == Index(h.source) - at
  }

  /** The new file from line `to` on, or None when some hunk does not fit. */
  function ApplyHunks(hs: seq<Hunk>, f: seq<string>, at: nat, to: nat): Option<seq<string>>
    requires at <= |f|
  {
    if hs == [] then Some(f[at..])
    else if !HunkFits(hs[0], f, at, to) then None
    else
      var h := hs[0];
      var rest := ApplyHunks(hs[1..], f, Index(h.source) + Length(h.source), Index(h.target) + Length(h.target));
      if rest.None? then None
      else Some(f[at..Index(h.source)] + NewSide(h.body) + rest.value)
  }

  /** Files by path, each a sequence of lines with their terminators. */
  type Tree = map<string, seq<string>>

  /** A header up to the tab that starts its time stamp or the end of the line. */
  function HeaderName(header: string): string {
    if header == "" || header[0] == '\t' || IsBoundary(header[0]) then ""
    else [header[0]] + HeaderName(header[1..])
  }

  /** What follows the first "/", or the whole name when there is none. */
  function StripFirst(name: string, whole: string): string {
    if name == "" then whole else if name[0] == '/' then name[1..] else StripFirst(name[1..], whole)
  }

  /** The file a header names; "/dev/null" stands for no file. */
  function PathOf(header: string): Option<string> {
    var name := HeaderName(header);
    if name == "/dev/null" then None else Some(StripFirst(name, name))
  }

  function Paths(f: FileDiff): set<string> {
    PathSet(PathOf(f.oldName)) + PathSet(PathOf(f.newName))
  }

  /** The file must exist to be changed, must not exist to be created, and must end empty to be deleted. */
  function ApplyFile(f: FileDiff, t: Tree): Option<Tree> {
    ApplyPaths(PathOf(f.oldName), PathOf(f.newName), f.hunks, t)
  }

  function ApplyPaths(src: Option<string>, dst: Option<string>, hunks: seq<Hunk>, t: Tree): Option<Tree> {
    if src.None? && dst.None? then None
    else if src.Some? && src.value !in t then None
    else if dst.Some? && dst != src && dst.value in t then None
    else Store(dst, ApplyHunks(hunks, Contents(src, t), 0, 0), Without(src, t))
  }

  function Contents(path: Option<string>, t: Tree): seq<string>
    requires path.Some? ==> path.value in t
  {
    if path.Some? then t[path.value] else []
  }

  function Without(path: Option<string>, t: Tree): Tree {
    if path.Some? then t - {path.value} else t
  }

  function Store(path: Option<string>, result: Option<seq<string>>, t: Tree): Option<Tree> {
    if result.None? then None
    else if path.Some? then Some(t[path.value := result.value])
    else if result.value == [] then Some(t) else None
  }

  function PathSet(path: Option<string>): set<string> {
    if path.Some? then {path.value} else {}
  }

  function ApplyDiff(d: Diff, t: Tree): Option<Tree> {
    if d == [] then Some(t)
    else
      var next := ApplyFile(d[0], t);
      if next.None? then None else ApplyDiff(d[1..], next.value)
  }

  /** Each file has at most one section, as in the output of `git diff`. */
  predicate OneSectionPerFile(d: Diff) {
    forall i, j :: 0 <= i < j < |d| ==> Paths(d[i]) !! Paths(d[j])
  }

  // ---------------------------------------------------------------- undoing hunks

  lemma {:induction false} FlipSides(body: seq<BodyLine>)
    ensures OldSide(FlipBody(body)) == NewSide(body) && NewSide(FlipBody(body)) == OldSide(body)
  {
    if body != [] {
      FlipSides(body[1..]);
      assert FlipBody(body)[1..] == FlipBody(body[1..]);
    }
  }

  lemma ExplicitMeaning(r: Range)
    ensures Length(Explicit(r)) == Length(r) && Index(Explicit(r)) == Index(r)
  {
    assert "1"[..0] == "";
    assert Numeral("1") == 1;
  }

  lemma Splice(g: seq<string>, to: nat, gap: seq<string>, mid: seq<string>, rest: seq<string>)
    requires to <= |g| && g[to..] == gap + mid + rest
    ensures to + |gap| + |mid| <= |g|
    ensures g[to..to + |gap|] == gap
    ensures g[to + |gap|..to + |gap| + |mid|] == mid
    ensures g[to + |gap| + |mid|..] == rest
  {
    var tail, a, b := g[to..], |gap|, |gap| + |mid|;
    TailSlice(g, to, 0, a);
    TailSlice(g, to, a, b);
    TailSlice(g, to, b, |tail|);
    ConcatSlices(gap, mid, rest);
    assert g[to + b..to + |tail|] == g[to + b..];
    assert tail[b..|tail|] == tail[b..];
  }

  lemma TailSlice(g: seq<string>, to: nat, i: nat, j: nat)
    requires to <= |g| && i <= j <= |g| - to
    ensures g[to + i..to + j] == g[to..][i..j]
  {
  }

  lemma ConcatSlices(a: seq<string>, b: seq<string>, c: seq<string>)
    ensures var s := a + b + c;
            s[0..|a|] == a && s[|a|..|a| + |b|] == b && s[|a| + |b|..] == c
  {
    var s := a + b + c;
    assert s[0..|a|] == a;
    assert s[|a|..|a| + |b|] == b;
    assert s[|a| + |b|..] == c;
  }

  lemma Unsplice(f: seq<string>, at: nat, o: nat, end: nat)
    requires at <= o <= end <= |f|
    ensures f[at..] == f[at..o] + f[o..end] + f[end..]
  {
  }

  /**
   If the hunks turn `f` from line `at` on into what follows the first `to` lines of `g`, the
   reversed hunks turn `g` from line `to` on into what follows line `at` of `f`.
   */
  lemma {:induction false} UndoHunks(hs: seq<Hunk>, f: seq<string>, at: nat, to: nat, g: seq<string>)
    requires at <= |f| && to <= |g|
    requires ApplyHunks(hs, f, at, to) == Some(g[to..])
    ensures ApplyHunks(ReverseHunks(hs), g, to, at) == Some(f[at..])
  {
    hide Index, Length, OldSide, NewSide, FlipBody, Explicit;
    if hs != [] {
      var h, r := hs[0], ReverseHunk(hs[0]);
      var o, n := Index(h.source), Index(h.target);
      var oEnd, nEnd := o + Length(h.source), n + Length(h.target);
      var rest := ApplyHunks(hs[1..], f, oEnd, nEnd).value;
      Splice(g, to, f[at..o], NewSide(h.body), rest);
      UndoHunks(hs[1..], f, oEnd, nEnd, g);
      FlipSides(h.body);
      ExplicitMeaning(h.source);
      ExplicitMeaning(h.target);
      assert HunkFits(r, g, to, at);
      assert ReverseHunks(hs)[1..] == ReverseHunks(hs[1..]);
      Unsplice(f, at, o, oEnd);
    }
  }

  /** Reversed hunks undo the hunks, offsets between hunks and empty ranges included. */
  lemma UndoFileHunks(hs: seq<Hunk>, f: seq<string>, g: seq<string>)
    requires ApplyHunks(hs, f, 0, 0) == Some(g)
    ensures ApplyHunks(ReverseHunks(hs), g, 0, 0) == Some(f)
  {
    assert g[0..] == g && f[0..] == f;
    UndoHunks(hs, f, 0, 0, g);
  }

  // ---------------------------------------------------------------- undoing sections

  /** Storing the new file in place of the old one can be taken back. */
  lemma StoreBack(src: Option<string>, dst: Option<string>, g: seq<string>, t: Tree, t': Tree)
    requires src.Some? ==> src.value in t
    requires dst.Some? && dst != src ==> dst.value !in t
    requires Store(dst, Some(g), Without(src, t)) == Some(t')
    ensures dst.Some? ==> dst.value in t'
    ensures src.Some? && src != dst ==> src.value !in t'
    ensures Contents(dst, t') == g && Without(dst, t') == Without(src, t)
    ensures Store(src, Some(Contents(src, t)), Without(src, t)) == Some(t)
  {
    if dst.Some? {
      assert Without(dst, t') == Without(src, t);
    }
    if src.Some? {
      assert Without(src, t)[src.value := t[src.value]] == t;
    }
  }

  lemma UndoPaths(src: Option<string>, dst: Option<string>, hs: seq<Hunk>, t: Tree, t': Tree)
    requires ApplyPaths(src, dst, hs, t) == Some(t')
    ensures ApplyPaths(dst, src, ReverseHunks(hs), t') == Some(t)
  {
    var f := Contents(src, t);
    var g := ApplyHunks(hs, f, 0, 0).value;
    UndoFileHunks(hs, f, g);
    StoreBack(src, dst, g, t, t');
    hide ApplyHunks, ReverseHunks, Store, Without;
  }

  /** `s` on the paths in `over`, and `t` elsewhere. */
  function Graft(t: Tree, s: Tree, over: set<string>): Tree {
    (t - over) + map p | p in s && p in over :: s[p]
  }

  /** A section neither reads nor writes a path it does not name. */
  lemma SectionFrame(src: Option<string>, dst: Option<string>, hs: seq<Hunk>,
                     t: Tree, t': Tree, s: Tree, over: set<string>)
    requires ApplyPaths(src, dst, hs, t) == Some(t') && PathSet(src) + PathSet(dst) !! over
    ensures ApplyPaths(src, dst, hs, Graft(t, s, over)) == Some(Graft(t', s, over))
  {
    hide ApplyHunks;
    var u := Graft(t, s, over);
    assert src.Some? ==> src.value in PathSet(src) + PathSet(dst);
    assert dst.Some? ==> dst.value in PathSet(src) + PathSet(dst);
    assert Contents(src, u) == Contents(src, t);
    assert Without(src, u) == Graft(Without(src, t), s, over);
    StoreFrame(dst, ApplyHunks(hs, Contents(src, t), 0, 0).value, Without(src, t), s, over);
    hide Contents, Without, Graft;
  }

  lemma StoreFrame(dst: Option<string>, result: seq<string>, t: Tree, s: Tree, over: set<string>)
    requires dst.Some? ==> dst.value !in over
    ensures dst.Some? ==> Graft(t, s, over)[dst.value := result] == Graft(t[dst.value := result], s, over)
  {
  }

  function AllPaths(d: Diff): set<string> {
    if d == [] then {} else Paths(d[0]) + AllPaths(d[1..])
  }

  lemma {:induction false} AllPathsDisjoint(s: set<string>, d: Diff)
    requires forall i :: 0 <= i < |d| ==> s !! Paths(d[i])
    ensures s !! AllPaths(d)
  {
    if d != [] {
      assert forall i :: 0 <= i < |d[1..]| ==> d[1..][i] == d[i + 1];
      AllPathsDisjoint(s, d[1..]);
    }
  }

  lemma {:induction false} DiffFrame(d: Diff, t: Tree, t': Tree, s: Tree, over: set<string>)
    requires ApplyDiff(d, t) == Some(t') && AllPaths(d) !! over
    ensures ApplyDiff(d, Graft(t, s, over)) == Some(Graft(t', s, over))
  {
    if d != [] {
      var next := ApplyFile(d[0], t).value;
      SectionFrame(PathOf(d[0].oldName), PathOf(d[0].newName), d[0].hunks, t, next, s, over);
      DiffFrame(d[1..], next, t', s, over);
    }
  }

  /** Applying a diff leaves every path outside its sections alone. */
  lemma {:induction false} DiffTouchesOnlyItsPaths(d: Diff, t: Tree, t': Tree)
    requires ApplyDiff(d, t) == Some(t')
    ensures Graft(t, t', AllPaths(d)) == t'
  {
    if d == [] {
      assert Graft(t, t', {}) == t';
    } else {
      var next := ApplyFile(d[0], t).value;
      var x, y := Paths(d[0]), AllPaths(d[1..]);
      DiffTouchesOnlyItsPaths(d[1..], next, t');
      SectionTouchesOnlyItsPaths(d[0], t, next);
      GraftChain(t, next, t', x, y);
    }
  }

  lemma GraftChain(t: Tree, t1: Tree, t': Tree, x: set<string>, y: set<string>)
    requires Graft(t1, t, x) == t && Graft(t1, t', y) == t'
    ensures Graft(t, t', x + y) == t'
  {
    var u := Graft(t, t', x + y);
    forall p
      ensures (p in u <==> p in t') && (p in u ==> u[p] == t'[p])
    {
      if p !in x && p !in y {
        assert p in t <==> p in Graft(t1, t, x);
        assert p in t' <==> p in Graft(t1, t', y);
        assert p in t ==> t[p] == Graft(t1, t, x)[p];
        assert p in t' ==> t'[p] == Graft(t1, t', y)[p];
      }
    }
  }

  lemma {:induction false} ReversePaths(d: Diff)
    ensures AllPaths(Reverse(d)) == AllPaths(d)
  {
    if d != [] {
      ReversePaths(d[1..]);
      assert Reverse(d)[1..] == Reverse(d[1..]);
    }
  }

  lemma {:induction false} SectionTouchesOnlyItsPaths(f: FileDiff, t: Tree, t': Tree)
    requires ApplyFile(f, t) == Some(t')
    ensures Graft(t', t, Paths(f)) == t
  {
  }

  /** What section `f` does to `t`, it still undoes after other paths have changed. */
  lemma UndoSectionLater(f: FileDiff, t: Tree, t1: Tree, t': Tree, y: set<string>)
    requires ApplyFile(f, t) == Some(t1) && Paths(f) !! y && Graft(t1, t', y) == t'
    ensures ApplyFile(ReverseFile(f), t') == Some(Graft(t, t', y))
  {
    var src, dst := PathOf(f.oldName), PathOf(f.newName);
    UndoPaths(src, dst, f.hunks, t, t1);
    assert PathSet(dst) + PathSet(src) == Paths(f);
    SectionFrame(dst, src, ReverseHunks(f.hunks), t1, t, t', y);
  }

  lemma GraftSwap(t: Tree, t1: Tree, t': Tree, x: set<string>, y: set<string>)
    requires x !! y && Graft(t1, t', y) == t' && Graft(t1, t, x) == t
    ensures Graft(t, t', y) == Graft(t', t, x)
  {
    var a, b := Graft(t, t', y), Graft(t', t, x);
    assert forall p :: p !in x ==> (p in t <==> p in Graft(t1, t, x));
    assert forall p :: p !in y ==> (p in t' <==> p in Graft(t1, t', y));
    forall p
      ensures (p in a <==> p in b) && (p in a ==> a[p] == b[p])
    {
      if p !in x && p !in y {
        assert p in t ==> t[p] == Graft(t1, t, x)[p];
        assert p in t' ==> t'[p] == Graft(t1, t', y)[p];
      }
    }
  }

  /**
   Applying a diff and then its reverse restores the tree.  The sections of the reverse are in the
   order of the original, so this needs each file to have one section only.
   */
  lemma {:induction false} UndoDiff(d: Diff, t: Tree, t': Tree)
    requires ApplyDiff(d, t) == Some(t') && OneSectionPerFile(d)
    ensures ApplyDiff(Reverse(d), t') == Some(t)
  {
    if d != [] {
      var f, rest := d[0], d[1..];
      var t1 := ApplyFile(f, t).value;
      var x, y := Paths(f), AllPaths(rest);
      AllPathsDisjoint(x, rest);
      UndoDiff(rest, t1, t');
      DiffTouchesOnlyItsPaths(rest, t1, t');
      UndoSectionLater(f, t, t1, t', y);
      SectionTouchesOnlyItsPaths(f, t, t1);
      GraftSwap(t, t1, t', x, y);
      ReversePaths(rest);
      DiffFrame(Reverse(rest), t', t1, t, x);
      assert Reverse(d)[1..] == Reverse(rest);
    }
  }

  // ---------------------------------------------------------------- diffs that change no line

  lemma {:induction false} SameSides(body: seq<BodyLine>)
    requires !BodyChanges(body)
    ensures OldSide(body) == NewSide(body)
  {
    if body != [] {
      assert body[0].mark == Keep;
      assert forall i :: 0 <= i < |body[1..]| ==> body[1..][i] == body[i + 1];
      SameSides(body[1..]);
    }
  }

  lemma {:induction false} SameHunks(hs: seq<Hunk>, f: seq<string>, at: nat, to: nat)
    requires at <= |f| && !HunksChange(hs) && ApplyHunks(hs, f, at, to).Some?
    ensures ApplyHunks(hs, f, at, to) == Some(f[at..])
  {
    if hs != [] {
      var h := hs[0];
      assert forall i :: 0 <= i < |hs[1..]| ==> hs[1..][i] == hs[i + 1];
      SameSides(h.body);
      SameHunks(hs[1..], f, Index(h.source) + Length(h.source), Index(h.target) + Length(h.target));
      Unsplice(f, at, Index(h.source), Index(h.source) + Length(h.source));
      hide Index, Length, BodyChanges, HunksChange;
    }
  }

  lemma SameSection(f: FileDiff, t: Tree, t': Tree)
    requires !HunksChange(f.hunks) && ApplyFile(f, t) == Some(t')
    ensures PathOf(f.oldName) == PathOf(f.newName) ==> t' == t
    ensures PathOf(f.oldName) != PathOf(f.newName) ==> exists p :: p in Paths(f) && (p in t) != (p in t')
  {
    var src, dst := PathOf(f.oldName), PathOf(f.newName);
    var base := Contents(src, t);
    SameHunks(f.hunks, base, 0, 0);
    assert base[0..] == base;
    hide ApplyHunks, HunksChange, PathOf;
    if src != dst {
      var p := if dst.Some? then dst.value else src.value;
      assert p in Paths(f) && (p in t) != (p in t');
    }
  }

  /**
   A diff whose hunks change no line leaves the tree as it was if and only if no section renames,
   creates or deletes its file.  So the empty patch generated for such a diff undoes it exactly then.
   */
  lemma {:induction false} NothingToUndo(d: Diff, t: Tree, t': Tree)
    requires !HasChange(d) && OneSectionPerFile(d) && ApplyDiff(d, t) == Some(t')
    ensures t' == t <==> forall f :: f in d ==> PathOf(f.oldName) == PathOf(f.newName)
  {
    if d != [] {
      var f, rest := d[0], d[1..];
      var t1 := ApplyFile(f, t).value;
      assert forall i :: 0 <= i < |rest| ==> rest[i] == d[i + 1];
      assert !HunksChange(f.hunks);
      SameSection(f, t, t1);
      NothingToUndo(rest, t1, t');
      AllPathsDisjoint(Paths(f), rest);
      DiffTouchesOnlyItsPaths(rest, t1, t');
      hide ApplyFile, ApplyDiff, Paths, AllPaths, HunksChange, PathOf;
      assert forall g :: g in d <==> g == f || g in rest;
      if PathOf(f.oldName) != PathOf(f.newName) {
        var p :| p in Paths(f) && (p in t) != (p in t1);
        assert p !in AllPaths(rest);
        assert p in Graft(t1, t', AllPaths(rest)) <==> p in t1;
      }
    }
  }

  /** One line `a` of file "x" replaced by `b`. */
  function Replace(a: string, b: string): FileDiff {
    FileDiff([], "a/x\n", "b/x\n",
             [Hunk(Range("1", None), Range("1", None), "\n",
                   [BodyLine(Drop, a, "\n", ""), BodyLine(Add, b, "\n", "")])])
  }

  lemma NamesFile(prefix: char)
    requires prefix == 'a' || prefix == 'b'
    ensures PathOf([prefix] + "/x\n") == Some("x")
  {
    var whole := [prefix] + "/x\n";
    assert whole[1..] == "/x\n" && "/x\n"[1..] == "x\n" && "x\n"[1..] == "\n";
    assert HeaderName("\n") == "" && HeaderName("x\n") == "x" && HeaderName("/x\n") == "/x";
    assert HeaderName(whole) == [prefix] + "/x";
    var name := [prefix] + "/x";
    assert name[1..] == "/x" && "/x"[1..] == "x";
    assert StripFirst(name, name) == StripFirst("/x", name) == "x";
    assert "/dev/null"[0] != name[0];
  }

  lemma ReplaceHunks(a: string, b: string, f: string)
    ensures ApplyHunks(Replace(a, b).hunks, [f], 0, 0) == if f == a + "\n" then Some([b + "\n"]) else None
  {
    assert Numeral("1") == 1 by { assert "1"[..0] == ""; }
    var hs := Replace(a, b).hunks;
    var body := hs[0].body;
    assert body[1..][1..] == [];
    assert OldSide(body[1..]) == [] && NewSide(body[1..]) == [b + "\n"];
    assert OldSide(body) == [a + "\n"] && NewSide(body) == [b + "\n"];
    assert hs[1..] == [];
    assert [f][0..1] == [f] && [f][1..] == [] && [f][0..0] == [];
    hide Numeral, OldSide, NewSide;
    assert HunkFits(hs[0], [f], 0, 0) <==> f == a + "\n";
  }

  lemma ReplaceSection(a: string, b: string)
    ensures ApplyFile(Replace(a, b), map["x" := [a + "\n"]]) == Some(map["x" := [b + "\n"]])
  {
    NamesFile('a');
    NamesFile('b');
    ReplaceHunks(a, b, a + "\n");
    assert (map["x" := [a + "\n"]] - {"x"})["x" := [b + "\n"]] == map["x" := [b + "\n"]];
    assert ['a'] + "/x\n" == "a/x\n" && ['b'] + "/x\n" == "b/x\n";
    hide ApplyHunks, PathOf;
  }

  /**
   Why one section per file is needed: a diff that changes the same file in two sections applies, and
   its reverse does not, because the reverse keeps the order of the sections.
   */
  lemma TwoSectionsNotUndone()
    ensures var d := [Replace("p", "q"), Replace("q", "r")];
            ApplyDiff(d, map["x" := ["p\n"]]) == Some(map["x" := ["r\n"]])
            && ApplyDiff(Reverse(d), map["x" := ["r\n"]]) == None
  {
    var f, g := Replace("p", "q"), Replace("q", "r");
    var d := [f, g];
    ReplaceSection("p", "q");
    ReplaceSection("q", "r");
    assert "p" + "\n" == "p\n" && "q" + "\n" == "q\n" && "r" + "\n" == "r\n";
    assert d[1..] == [g] && [g][1..] == [];
    hide ApplyFile, PathOf;
    assert ApplyDiff([g], map["x" := ["q\n"]]) == Some(map["x" := ["r\n"]]);
    ReversedReplaceFails("p", "q", "r\n");
    assert Reverse(d)[0] == ReverseFile(f);
  }

  lemma ReversedReplaceFails(a: string, b: string, f: string)
    requires f != b + "\n"
    ensures ApplyFile(ReverseFile(Replace(a, b)), map["x" := [f]]) == None
  {
    var hs := ReverseFile(Replace(a, b)).hunks;
    var body := hs[0].body;
    var lines := Replace(a, b).hunks[0].body;
    assert lines[1..] == [lines[1]] && lines[1..][1..] == [];
    assert FlipBody([lines[1]]) == [FlipLine(lines[1])];
    assert body == FlipBody(lines);
    assert body == [BodyLine(Add, a, "\n", ""), BodyLine(Drop, b, "\n", "")];
    assert body[1..][1..] == [] && OldSide(body[1..]) == [b + "\n"] && OldSide(body) == [b + "\n"];
    assert Numeral("1") == 1 by { assert "1"[..0] == ""; }
    assert [f][0..1] == [f];
    assert !HunkFits(hs[0], [f], 0, 0);
    NamesFile('b');
    assert ['b'] + "/x\n" == "b/x\n";
    hide HunkFits, PathOf;
  }
}
