/**
 What happens when `Mode` stops: the program fails or prints something else than the reversed items.  So a diff is
 reversed exactly when the mode passes.
 */
module RevertExact {
  import opened Text
  import opened UnifiedDiff
  import opened RevertPatch
  import opened RevertReading

  /** The reading fails, or prints something else than `expected`. */
  ghost predicate Wrong(ps: seq<string>, inside: bool, expected: string) {
    !Paired(ps) || Join(Scan(ps, inside).out) != expected
  }

  /** What goes wrong later goes wrong after pieces that are read as they should be. */
  lemma WrongLater(read: seq<string>, ps: seq<string>, before: bool, after: bool, out: seq<string>, changed: bool,
                   expected: string)
    requires Scan(read + ps, before) == Emit(out, changed, Scan(ps, after)) && Wrong(ps, after, expected)
    ensures Wrong(read + ps, before, Join(out) + expected)
  {
    hide Scan;
    JoinAppend(out, Scan(ps, after).out);
    if !Paired(ps) {
      var i :| 0 <= i < |ps| && LacksPartner(ps, i);
      assert LacksPartner(read + ps, |read| + i);
    } else {
      SamePrefix(Join(out), Join(Scan(ps, after).out), expected);
    }
  }

  lemma SamePrefix(p: string, x: string, y: string)
    ensures p + x == p + y ==> x == y
  {
    assert (p + x)[|p|..] == x && (p + y)[|p|..] == y;
  }

  /** A printed line that starts with another character than it should. */
  lemma WrongStart(ps: seq<string>, inside: bool, line: string, changed: bool, rest: Scanned, expected: string)
    requires Scan(ps, inside) == Emit([line], changed, rest)
    requires line != "" && expected != "" && line[0] != expected[0]
    ensures Wrong(ps, inside, expected)
  {
    hide Scan;
    JoinFirst([line], rest.out);
    assert [line][1..] + rest.out == rest.out;
    assert Join(Scan(ps, inside).out)[0] == line[0];
  }

  // ---------------------------------------------------------------- pieces that should be kept

  /**
   What may follow kept pieces: their text ends a line, or nothing follows; and a "+++ " line that follows is an added
   line, to be printed with "-".
   */
  predicate Follows(text: string, rest: seq<string>, expected: string) {
    (EndsLine(text) || (rest == [] && expected == "")) &&
    (rest != [] && StartsWith(rest[0], "+++ ") ==> expected != "" && expected[0] == '-')
  }

  /** `ps` are the pieces of a text. */
  ghost predicate PiecesOf(ps: seq<string>, text: string) {
    SplitLines(text) == ps
  }

  lemma Rest(ps: seq<string>, text: string)
    requires PiecesOf(ps, text) && ps != []
    ensures text == ps[0] + Join(ps[1..]) && PiecesOf(ps[1..], Join(ps[1..])) && text != ""
    ensures Cut(ps[0]) || (NoBoundary(ps[0]) && |ps| == 1)
    ensures EndsLine(text) || |ps| > 1 ==> Cut(ps[0])
    ensures |ps| == 1 ==> ps[0] == text && Join(ps[1..]) == ""
    ensures EndsLine(text) ==> ps[1..] == [] || EndsLine(Join(ps[1..]))
    ensures |ps| > 1 ==> ps[1] != "" && Join(ps[1..]) != "" && Join(ps[1..])[0] == ps[1][0]
    ensures |ps| > 1 && ps[0][|ps[0]| - 1] == '\r' ==> ps[1][0] != '\n'
  {
    PieceFacts(text);
    var more := Join(ps[1..]);
    assert text[|ps[0]|..] == more;
    if more != "" {
      PieceFacts(more);
      assert more[|more| - 1] == text[|text| - 1] && more[0] == text[|ps[0]|];
      assert more == ps[1..][0] + Join(ps[1..][1..]);
    }
  }

  /** Followed by this, the first piece of a text is cut off where it was. */
  lemma CutStays(ps: seq<string>, text: string, expected: string, rest: seq<string>)
    requires PiecesOf(ps, text) && ps != [] && Follows(text, rest, expected) && Cut(ps[0])
    ensures LineLength(ps[0] + (Join(ps[1..]) + expected)) == |ps[0]|
  {
    Rest(ps, text);
    var more := Join(ps[1..]) + expected;
    if |ps| == 1 && EndsLine(text) {
      assert ps[0] == text;
    }
    CutNext(ps[0], more);
  }

  /** A hunk header that is not its own inverse is printed with other text. */
  lemma WrongHeader(ps: seq<string>, text: string, rest: seq<string>, inside: bool, expected: string)
    requires PiecesOf(ps, text) && ps != [] && Follows(text, rest, expected) && (rest == [] || EndsLine(text))
    requires ParseHunk(RStrip(ps[0])).Some? && !Symmetric(ps[0])
    ensures Wrong(ps + rest, inside, text + expected)
  {
    hide ReadLine, Scan, ParseHunk, RStrip, InverseHeader;
    var p, h := ps[0], ParseHunk(RStrip(ps[0])).value;
    var u := InverseHeader(h.0, h.1);
    Rest(ps, text);
    HunkStart(p);
    ReadHunk(p, inside);
    ScanOne(p, ps[1..] + rest, inside);
    assert ps + rest == [p] + (ps[1..] + rest);
    var out, e := Scan(ps[1..] + rest, true).out, Join(ps[1..]) + expected;
    JoinFirst([u], out);
    assert [u][1..] + out == out;
    ConcatAssoc(p, Join(ps[1..]), expected);
    NumeralsOnly(RStrip(p));
    InverseCut(h.0, h.1);
    CutNext(u, Join(out));
    if Cut(p) {
      CutStays(ps, text, expected, rest);
      SameFirst(u, Join(out), p, e);
    } else {
      OpenLine(p);
      assert e == "" && p + e == p;
      SameFirst(u, Join(out), p, e);
    }
  }

  lemma SameFirst(a: string, x: string, b: string, y: string)
    requires a != "" && b != "" && LineLength(a + x) == |a| && LineLength(b + y) == |b|
    ensures a + x == b + y ==> a == b
  {
    if a + x == b + y {
      assert (a + x)[..|a|] == a && (b + y)[..|b|] == b;
    }
  }

  /** An inverse header is one line closed at "\n". */
  lemma InverseCut(a: Range, b: Range)
    requires RangeOk(a) && RangeOk(b)
    ensures Cut(InverseHeader(a, b)) && ClosedLine(InverseHeader(a, b))
  {
    var u := InverseHeader(a, b);
    assert NoBoundary(LengthText(a)) && NoBoundary(LengthText(b)) && NoBoundary(a.start) && NoBoundary(b.start);
    assert u[|u| - 1] == '\n' && NoBoundary(u[..|u| - 1]);
    OpenNext(u[..|u| - 1], "\n");
    assert u[..|u| - 1] + "\n" == u;
  }

  /** A "--- " piece is taken for a file header; its partner is not the piece it should be. */
  lemma WrongPair(ps: seq<string>, text: string, rest: seq<string>, inside: bool, expected: string)
    requires PiecesOf(ps, text) && ps != [] && Follows(text, rest, expected) && (rest == [] || EndsLine(text))
    requires forall i :: 0 <= i < |rest| ==> Cut(rest[i]) || NoBoundary(rest[i])
    requires StartsWith(ps[0], "--- ") && !(|ps| > 1 && ps[1] == "+++ " + ps[0][4..])
    ensures Wrong(ps + rest, inside, text + expected)
  {
    hide ReadLine, Scan, Cut, NoBoundary;
    var all, x := ps + rest, ps[0][4..];
    if |all| == 1 || !StartsWith(all[1], "+++ ") {
      assert LacksPartner(all, 0);
    } else {
      var y, e := all[1][4..], Join(ps[1..]) + expected;
      assert ps[0] == "--- " + x && all[1] == "+++ " + y;
      SecondPiece(ps, text, rest, expected);
      PairTail(ps[0], "--- ");
      PairTail(all[1], "+++ ");
      assert all == ["--- " + x, "+++ " + y] + all[2..];
      ScanPair(x, y, all[2..], inside);
      PairText(y, x, Scan(all[2..], false).out);
      ConcatAssoc(ps[0], Join(ps[1..]), expected);
      ConcatAssoc("--- ", x, e);
      PairDiffers(y, x, Join(Scan(all[2..], false).out), e);
    }
  }

  /** The first piece before a second one is cut off, and what comes after it is the second piece or an added line. */
  lemma SecondPiece(ps: seq<string>, text: string, rest: seq<string>, expected: string)
    requires PiecesOf(ps, text) && ps != [] && Follows(text, rest, expected) && (rest == [] || EndsLine(text))
    requires forall i :: 0 <= i < |rest| ==> Cut(rest[i]) || NoBoundary(rest[i])
    requires |ps + rest| > 1 && StartsWith((ps + rest)[1], "+++ ")
    ensures var e := Join(ps[1..]) + expected; var next := (ps + rest)[1];
            Cut(ps[0]) && (Cut(next) || NoBoundary(next)) && NoBoundary("--- ") && NoBoundary("+++ ") &&
            text == ps[0] + Join(ps[1..]) && e != "" && (|ps| == 1 ==> e[0] == '-') &&
            (ps[0][|ps[0]| - 1] == '\r' ==> e[0] != '\n') && (|ps| > 1 ==> next == ps[1])
  {
    hide Cut, NoBoundary, Join, PiecesOf;
    Rest(ps, text);
    PrefixesPlain();
    if |ps| > 1 {
      assert (ps + rest)[1] == ps[1];
      Rest(ps[1..], Join(ps[1..]));
    }
  }

  lemma PrefixesPlain()
    ensures NoBoundary("--- ") && NoBoundary("+++ ")
  {
  }

  lemma PairText(y: string, x: string, out: seq<string>)
    ensures Join(["--- " + y, "+++ " + x] + out) == "--- " + (y + ("+++ " + (x + Join(out))))
  {
    JoinAppend(["--- " + y, "+++ " + x], out);
    JoinTwo("--- " + y, "+++ " + x);
    ConcatAssoc("--- " + y, "+++ " + x, Join(out));
    ConcatAssoc("+++ ", x, Join(out));
    ConcatAssoc("--- ", y, "+++ " + (x + Join(out)));
  }

  lemma PairTail(q: string, p: string)
    requires StartsWith(q, p) && NoBoundary(p) && |p| == 4 && (Cut(q) || NoBoundary(q))
    ensures Cut(q) ==> Cut(q[4..]) && q[4..][|q| - 5] == q[|q| - 1]
    ensures !Cut(q) ==> NoBoundary(q[4..])
  {
    if Cut(q) {
      assert q[..4] == p && q[3] == p[3];
      assert IsBoundary(q[|q| - 1]) && !IsBoundary(p[3]);
      CutTail(q, 4);
    }
  }

  lemma {:induction false} CutAtLeast(q: string, z: string)
    requires Cut(q)
    ensures LineLength(q + z) >= |q|
    decreases |q|
  {
    var s := q + z;
    if |q| > 1 && !(q[0] == '\r' && q[1] == '\n') {
      assert s[0] == q[0] && s[1] == q[1] && s[1..] == q[1..] + z;
      CutAtLeast(q[1..], z);
    }
  }

  /** Printed is "--- " y "+++ " x, to be printed is "--- " x and then something that is not "+++ " x. */
  lemma PairDiffers(y: string, x: string, z: string, e: string)
    requires Cut(x) && (x[|x| - 1] == '\r' ==> e == "" || e[0] != '\n')
    requires Cut(y) || NoBoundary(y)
    requires e == "" || e[0] != '+' || x != y
    ensures "--- " + (y + ("+++ " + (x + z))) != "--- " + (x + e)
  {
    var u, v := y + ("+++ " + (x + z)), x + e;
    assert ("--- " + u)[4..] == u && ("--- " + v)[4..] == v;
    CutNext(x, e);
    if Cut(y) {
      CutNext(y, "+++ " + (x + z));
      SameFirst(y, "+++ " + (x + z), x, e);
      assert |u| > |y| && u[|y|] == '+';
      assert |v| > |x| ==> v[|x|] == e[0];
    } else {
      OpenNext(y, "+++ " + (x + z));
      OpenNext("+++ ", x + z);
      CutAtLeast(x, z);
    }
  }

  /** Where `PlainMode` stops, the pieces are not printed as they are. */
  lemma {:induction false} WrongPlain(ps: seq<string>, text: string, rest: seq<string>, inside: bool, expected: string)
    requires PiecesOf(ps, text) && Follows(text, rest, expected) && (rest == [] || EndsLine(text))
    requires forall i :: 0 <= i < |rest| ==> Cut(rest[i]) || NoBoundary(rest[i])
    requires PlainMode(ps, inside).None?
    ensures Wrong(ps + rest, inside, text + expected)
    decreases |ps|
  {
    hide Scan, ReadLine, ParseHunk, RStrip, Symmetric, Cut, NoBoundary, PiecesOf, Wrong;
    var p := ps[0];
    Rest(ps, text);
    if StartsWith(p, "--- ") {
      if |ps| > 1 && ps[1] == "+++ " + p[4..] {
        WrongAfterPair(ps, text, rest, inside, expected);
      } else {
        WrongPair(ps, text, rest, inside, expected);
      }
    } else if ParseHunk(RStrip(p)).Some? && !Symmetric(p) {
      WrongHeader(ps, text, rest, inside, expected);
    } else if PlainMode([p], inside).None? {
      SymmetricPasses(p, inside);
      WrongFlipped(ps, text, rest, inside, expected);
    } else {
      var after, more := PlainMode([p], inside).value, Join(ps[1..]);
      PlainStep(ps, inside);
      FollowsRest(ps, text, rest, expected);
      WrongPlain(ps[1..], more, rest, after, expected);
      PlainPiece(p, inside);
      ScanOne(p, ps[1..] + rest, inside);
      WrongLater([p], ps[1..] + rest, inside, after, [p], false, more + expected);
      JoinOne(p);
      assert [p] + (ps[1..] + rest) == ps + rest;
      ConcatAssoc(p, more, expected);
    }
  }

  lemma SymmetricPasses(p: string, inside: bool)
    requires !StartsWith(p, "--- ")
    ensures Symmetric(p) ==> ParseHunk(RStrip(p)).Some? && PlainMode([p], inside).Some?
  {
    hide Symmetric, ParseHunk, RStrip;
    if Symmetric(p) {
      SymmetricHunk(p);
      var none: seq<string> := [p][1..];
      assert none == [];
    }
  }

  lemma SymmetricHunk(p: string)
    requires Symmetric(p)
    ensures ParseHunk(RStrip(p)).Some?
  {
  }

  lemma FollowsRest(ps: seq<string>, text: string, rest: seq<string>, expected: string)
    requires PiecesOf(ps, text) && ps != [] && Follows(text, rest, expected) && (rest == [] || EndsLine(text))
    requires |ps| > 1
    ensures Follows(Join(ps[1..]), rest, expected) && (rest == [] || EndsLine(Join(ps[1..])))
  {
    Rest(ps, text);
  }

  /** A pair of pieces that is printed as it is. */
  lemma WrongAfterPair(ps: seq<string>, text: string, rest: seq<string>, inside: bool, expected: string)
    requires PiecesOf(ps, text) && Follows(text, rest, expected) && (rest == [] || EndsLine(text))
    requires forall i :: 0 <= i < |rest| ==> Cut(rest[i]) || NoBoundary(rest[i])
    requires |ps| > 1 && StartsWith(ps[0], "--- ") && ps[1] == "+++ " + ps[0][4..] && PlainMode(ps[2..], false).None?
    ensures Wrong(ps + rest, inside, text + expected)
    decreases |ps|, 0
  {
    hide Scan, ReadLine, ParseHunk, RStrip, Symmetric, Cut, NoBoundary, PiecesOf, Wrong;
    var x, more := ps[0][4..], Join(ps[2..]);
    Rest(ps, text);
    Rest(ps[1..], Join(ps[1..]));
    FollowsRest(ps, text, rest, expected);
    assert ps[1..][1..] == ps[2..] && ps[2..] != [];
    FollowsRest(ps[1..], Join(ps[1..]), rest, expected);
    WrongPlain(ps[2..], more, rest, false, expected);
    var two := ["--- " + x, "+++ " + x];
    assert ps[0] == "--- " + x && ps + rest == two + (ps[2..] + rest);
    ScanPair(x, x, ps[2..] + rest, inside);
    WrongLater(two, ps[2..] + rest, inside, false, two, false, more + expected);
    JoinTwo("--- " + x, "+++ " + x);
    ConcatAssoc(ps[0], ps[1], more);
    ConcatAssoc(ps[0] + ps[1], more, expected);
  }

  lemma FlippedStart(p: string, inside: bool)
    requires !StartsWith(p, "--- ") && ParseHunk(RStrip(p)).None? && PlainMode([p], inside).None?
    ensures inside && !StartsWith(p, "+++ ") && (StartsWith(p, "+") || StartsWith(p, "-"))
  {
    hide ParseHunk, RStrip;
    var none: seq<string> := [p][1..];
    assert none == [];
  }

  lemma WrongFlipped(ps: seq<string>, text: string, rest: seq<string>, inside: bool, expected: string)
    requires PiecesOf(ps, text) && ps != [] && !StartsWith(ps[0], "--- ")
    requires ParseHunk(RStrip(ps[0])).None? && PlainMode([ps[0]], inside).None?
    ensures Wrong(ps + rest, inside, text + expected)
  {
    hide Scan, ReadLine, ParseHunk, RStrip, Symmetric, PiecesOf, Wrong;
    var p := ps[0];
    Rest(ps, text);
    FirstIs(p);
    FlippedStart(p, inside);
    var mark, tail := p[0], p[1..];
    assert p == [mark] + tail && (mark == '+' || mark == '-');
    ReadFlipped(mark, tail);
    ScanOne(p, ps[1..] + rest, inside);
    assert [p] + (ps[1..] + rest) == ps + rest;
    WrongStart(ps + rest, inside, [FlipChar(mark)] + tail, true, Scan(ps[1..] + rest, true), text + expected);
  }

  // ---------------------------------------------------------------- counting newlines

  /** A header with a cut inside its section text leaves one "\n" too many. */
  function Newlines(s: string): nat {
    if s == "" then 0 else (if s[0] == '\n' then 1 else 0) + Newlines(s[1..])
  }

  lemma {:induction false} NewlinesConcat(a: string, b: string)
    ensures Newlines(a + b) == Newlines(a) + Newlines(b)
    decreases |a|
  {
    if a == "" {
      assert a + b == b;
    } else {
      assert (a + b)[1..] == a[1..] + b;
      NewlinesConcat(a[1..], b);
    }
  }

  lemma {:induction false} NoNewline(s: string)
    requires '\n' !in s
    ensures Newlines(s) == 0
    decreases |s|
  {
    if s != "" {
      NoNewline(s[1..]);
    }
  }

  lemma ClosedCount(s: string)
    requires ClosedLine(s)
    ensures Newlines(s) == 1
  {
    assert s == s[..|s| - 1] + "\n";
    NewlinesConcat(s[..|s| - 1], "\n");
    NoNewline(s[..|s| - 1]);
    assert "\n"[1..] == "";
  }

  lemma PieceCount(p: string)
    requires OneLine(p)
    ensures Newlines(p) == if p[|p| - 1] == '\n' then 1 else 0
  {
    NoBoundaryWithin(p);
    assert p == p[..|p| - 1] + [p[|p| - 1]];
    NewlinesConcat(p[..|p| - 1], [p[|p| - 1]]);
    NoNewline(p[..|p| - 1]);
    assert [p[|p| - 1]][1..] == "";
  }

  /** No step of the reading drops a "\n". */
  lemma StepCount(line: string, next: string, inside: bool)
    requires OneLine(line)
    requires !(StartsWith(line, "--- ") && !StartsWith(next, "+++ "))
    ensures var p := ReadLine(line, next, inside);
            Newlines(Join(p.out)) >= Newlines(line) + if p.taken == 2 then Newlines(next) else 0
  {
    hide ParseHunk, RStrip, InverseHeader;
    if StartsWith(line, "--- ") {
      PrefixCount(line, "--- ");
      PrefixCount(next, "+++ ");
      JoinTwo("--- " + next[4..], "+++ " + line[4..]);
      NewlinesConcat("--- " + next[4..], "+++ " + line[4..]);
      NewlinesConcat("--- ", next[4..]);
      NewlinesConcat("+++ ", line[4..]);
    } else if ParseHunk(RStrip(line)).Some? {
      var h := ParseHunk(RStrip(line)).value;
      NumeralsOnly(RStrip(line));
      InverseCut(h.0, h.1);
      ClosedCount(InverseHeader(h.0, h.1));
      PieceCount(line);
      JoinOne(InverseHeader(h.0, h.1));
    } else {
      StripStarts(line);
      FlipCount(line, '+');
      FlipCount(line, '-');
      JoinOne(line);
      JoinOne("-" + line[1..]);
      JoinOne("+" + line[1..]);
    }
  }

  lemma StripStarts(line: string)
    ensures StartsWith(RStrip(line), "+") ==> line != "" && line[0] == '+'
    ensures StartsWith(RStrip(line), "-") ==> line != "" && line[0] == '-'
  {
    assert RStrip(line) <= line;
  }

  lemma FlipCount(line: string, c: char)
    requires line != "" && c != '\n'
    ensures Newlines([c] + line[1..]) == Newlines(line[1..])
    ensures line[0] != '\n' ==> Newlines(line) == Newlines(line[1..])
  {
    assert ([c] + line[1..])[1..] == line[1..];
  }

  lemma PrefixCount(s: string, p: string)
    requires StartsWith(s, p) && '\n' !in p
    ensures Newlines(s) == Newlines(s[|p|..]) && Newlines(p) == 0
  {
    assert s == p + s[|p|..];
    NewlinesConcat(p, s[|p|..]);
    NoNewline(p);
  }

  lemma {:induction false} ScanCount(ps: seq<string>, inside: bool)
    requires Paired(ps) && forall p :: p in ps ==> OneLine(p)
    ensures Newlines(Join(Scan(ps, inside).out)) >= Newlines(Join(ps))
    decreases |ps|
  {
    if ps != [] {
      hide ReadLine, OneLine;
      var p := ReadLine(ps[0], Next(ps), inside);
      assert !LacksPartner(ps, 0);
      StepCount(ps[0], Next(ps), inside);
      TakenFits(ps, inside);
      PairedDrop(ps, p.taken);
      ScanCount(ps[p.taken..], p.inside);
      JoinAppend(p.out, Scan(ps[p.taken..], p.inside).out);
      NewlinesConcat(Join(p.out), Join(Scan(ps[p.taken..], p.inside).out));
      TakenCount(ps, p.taken);
    }
  }

  lemma TakenFits(ps: seq<string>, inside: bool)
    requires ps != [] && !LacksPartner(ps, 0)
    ensures ReadLine(ps[0], Next(ps), inside).taken <= |ps|
  {
    hide ParseHunk;
  }

  lemma PairedDrop(ps: seq<string>, n: nat)
    requires Paired(ps) && n <= |ps|
    ensures Paired(ps[n..])
  {
    forall i | 0 <= i < |ps[n..]|
      ensures !LacksPartner(ps[n..], i)
    {
      assert !LacksPartner(ps, n + i);
    }
  }

  lemma TakenCount(ps: seq<string>, n: nat)
    requires 1 <= n <= 2 && n <= |ps|
    ensures Newlines(Join(ps)) ==
            Newlines(ps[0]) + (if n == 2 then Newlines(ps[1]) else 0) + Newlines(Join(ps[n..]))
  {
    NewlinesConcat(ps[0], Join(ps[1..]));
    if n == 2 {
      assert ps[1..][1..] == ps[2..];
      NewlinesConcat(ps[1], Join(ps[2..]));
    }
  }

  // ---------------------------------------------------------------- items

  lemma {:induction false} AllPieces(s: string)
    ensures forall p :: p in SplitLines(s) ==> OneLine(p) && (Cut(p) || NoBoundary(p))
    decreases |s|
  {
    if s != "" {
      PieceFacts(s);
      var ps := SplitLines(s);
      AllPieces(s[|ps[0]|..]);
      assert ps == [ps[0]] + ps[1..];
    }
  }

  /** The reversed items have as many newlines as the items. */
  lemma {:induction false} ItemsCount(items: seq<Item>)
    requires ItemsOk(items)
    ensures Newlines(ItemsBack(items)) == Newlines(ItemsText(items))
    decreases |items|
  {
    if items != [] {
      hide ItemText, ItemBack, ItemOk;
      ItemCount(items[0]);
      ItemsCount(items[1..]);
      NewlinesConcat(ItemText(items[0]), ItemsText(items[1..]));
      NewlinesConcat(ItemBack(items[0]), ItemsBack(items[1..]));
    }
  }

  lemma ItemCount(it: Item)
    requires ItemOk(it)
    ensures Newlines(ItemBack(it)) == Newlines(ItemText(it))
  {
    match it
    case Plain(text) =>
    case Flip(mark, tail) =>
      NewlinesConcat([mark], tail);
      NewlinesConcat([FlipChar(mark)], tail);
      NoNewline([mark]);
      NoNewline([FlipChar(mark)]);
    case Head(a, b, section) =>
      HeaderClosedLine(a, b, section);
      ClosedCount(HeaderText(a, b, section));
      InverseCut(a, b);
      ClosedCount(InverseHeader(a, b));
    case Names(x, y) =>
      NewlinesConcat("--- " + x, "+++ " + y);
      NewlinesConcat("--- " + y, "+++ " + x);
      NewlinesConcat("--- ", x);
      NewlinesConcat("--- ", y);
      NewlinesConcat("+++ ", x);
      NewlinesConcat("+++ ", y);
  }

  lemma NumeralPlain(s: string)
    requires IsNumeral(s)
    ensures '\n' !in s
  {
  }

  lemma HeaderClosedLine(a: Range, b: Range, section: string)
    requires RangeOk(a) && RangeOk(b) && ClosedLine(section)
    ensures ClosedLine(HeaderText(a, b, section)) && EndsLine(HeaderText(a, b, section))
  {
    var front := "@@ -" + PrintRange(a) + " +" + PrintRange(b) + " @@";
    RangePlain(a);
    RangePlain(b);
    var line := front + section;
    assert '\n' !in front;
    assert line[..|line| - 1] == front + section[..|section| - 1];
  }

  lemma RangePlain(r: Range)
    requires RangeOk(r)
    ensures '\n' !in PrintRange(r)
  {
    NumeralPlain(r.start);
    if r.len.Some? {
      NumeralPlain(r.len.value);
    }
  }

  /** A hunk header that is cut inside its section text is printed with one more "\n", which nothing later takes back. */
  lemma WrongHead(a: Range, b: Range, section: string, rest: seq<Item>, inside: bool)
    requires ItemOk(Head(a, b, section)) && ItemsOk(rest) && !OneLine(HeaderText(a, b, section))
    ensures Wrong(SplitLines(HeaderText(a, b, section)) + SplitLines(ItemsText(rest)), inside,
                  InverseHeader(a, b) + ItemsBack(rest))
  {
    hide Scan, ReadLine, ParseHunk, RStrip, InverseHeader, Cut, OneLine;
    var text, more := HeaderText(a, b, section), ItemsText(rest);
    var ps := SplitLines(text) + SplitLines(more);
    var line := HeadPiece(a, b, section);
    if Paired(ps) {
      PairedDrop(ps, 1);
      var tail := ps[1..];
      assert ps == [line] + tail;
      ReadHunk(line, inside);
      HunkStart(line);
      ScanOne(line, tail, inside);
      var h := ParseHunk(RStrip(line)).value;
      var u, out := InverseHeader(h.0, h.1), Scan(tail, true).out;
      AllPieces(text);
      AllPieces(more);
      ScanCount(tail, true);
      JoinAppend([u], out);
      JoinOne(u);
      NewlinesConcat(u, Join(out));
      NumeralsOnly(RStrip(line));
      InverseCut(h.0, h.1);
      ClosedCount(u);
      JoinAppend(SplitLines(text), SplitLines(more));
      JoinFirst(ps, []);
      assert ps + [] == ps && tail + [] == tail;
      NewlinesConcat(line, Join(tail));
      NewlinesConcat(text, more);
      ItemsCount([Head(a, b, section)] + rest);
      HeadItems(a, b, section, rest);
    }
  }

  lemma HeadItems(a: Range, b: Range, section: string, rest: seq<Item>)
    requires ItemOk(Head(a, b, section)) && ItemsOk(rest)
    ensures var items := [Head(a, b, section)] + rest;
            ItemsOk(items) && ItemsText(items) == HeaderText(a, b, section) + ItemsText(rest) &&
            ItemsBack(items) == InverseHeader(a, b) + ItemsBack(rest)
  {
    HeaderClosedLine(a, b, section);
    assert ([Head(a, b, section)] + rest)[1..] == rest;
  }

  /** The first piece of such a header still reads as a header, and has no "\n". */
  lemma HeadPiece(a: Range, b: Range, section: string) returns (line: string)
    requires ItemOk(Head(a, b, section)) && !OneLine(HeaderText(a, b, section))
    ensures var ps := SplitLines(HeaderText(a, b, section));
            |ps| > 0 && line == ps[0] && Newlines(line) == 0 && ParseHunk(RStrip(line)).Some?
  {
    hide ParseHunk, RStrip, HeaderText, OneLine, SplitLines;
    var text := HeaderText(a, b, section);
    HeaderClosedLine(a, b, section);
    line := text[..LineLength(text)];
    ShortPiece(text);
    CutHeader(a, b, section, LineLength(text));
  }

  lemma ShortPiece(text: string)
    requires ClosedLine(text) && !OneLine(text)
    ensures SplitLines(text) != [] && SplitLines(text)[0] == text[..LineLength(text)]
    ensures Newlines(text[..LineLength(text)]) == 0
  {
    var line := text[..LineLength(text)];
    assert line == text[..|text| - 1][..|line|];
    NoNewline(line);
  }

  lemma CutHeader(a: Range, b: Range, section: string, n: nat)
    requires RangeOk(a) && RangeOk(b) && section != "" && n == LineLength(HeaderText(a, b, section))
    ensures n <= |HeaderText(a, b, section)| && ParseHunk(RStrip(HeaderText(a, b, section)[..n])).Some?
  {
    hide ParseHunk, RStrip;
    var front := "@@ -" + PrintRange(a) + " +" + PrintRange(b) + " @@";
    FrontPlain(a, b);
    SectionCut(front, section);
    var h := Hunk(a, b, section[..n - |front|], []);
    assert (front + section)[..n] == front + h.section;
    ParsePrintHeader(h);
  }

  lemma FrontPlain(a: Range, b: Range)
    requires RangeOk(a) && RangeOk(b)
    ensures NoBoundary("@@ -" + PrintRange(a) + " +" + PrintRange(b) + " @@")
  {
    assert NoBoundary(PrintRange(a)) && NoBoundary(PrintRange(b));
  }

  lemma SectionCut(front: string, section: string)
    requires NoBoundary(front) && section != ""
    ensures LineLength(front + section) >= |front|
  {
    OpenNext(front, section);
  }

  /** The pieces after a kept line: an added line is the only one that can start with "+++ ". */
  lemma FollowItems(text: string, rest: seq<Item>)
    requires ItemsOk(rest) && (EndsLine(text) || rest == [])
    ensures var ps := SplitLines(ItemsText(rest));
            Follows(text, ps, ItemsBack(rest)) && (ps == [] || EndsLine(text)) &&
            forall i :: 0 <= i < |ps| ==> Cut(ps[i]) || NoBoundary(ps[i])
  {
    var more := ItemsText(rest);
    AllPieces(more);
    if rest != [] {
      NextStart(rest);
      PieceFacts(more);
    }
  }

  lemma NextStart(rest: seq<Item>)
    requires ItemsOk(rest) && rest != []
    ensures ItemsText(rest) != ""
    ensures StartsWith(SplitLines(ItemsText(rest))[0], "+++ ") ==> ItemsBack(rest) != "" && ItemsBack(rest)[0] == '-'
  {
    hide SplitLines;
    var text, more := ItemText(rest[0]), ItemsText(rest[1..]);
    ItemStart(rest[0]);
    PieceFacts(text + more);
    var p := SplitLines(text + more)[0];
    if StartsWith(p, "+++ ") {
      StartChar(p, "+++ ");
      assert text[0] == p[0] && p <= text + more;
      ItemPlus(rest[0], p, text + more, more);
    }
  }

  lemma ItemStart(it: Item)
    requires ItemOk(it)
    ensures ItemText(it) != "" && ItemBack(it) != ""
    ensures it.Names? ==> ItemText(it)[0] == '-'
    ensures it.Head? ==> ItemText(it)[0] == '@'
  {
  }

  /** Only the start of an item that ends its line is looked at. */
  lemma ItemPlus(it: Item, p: string, all: string, more: string)
    requires ItemOk(it) && (EndsLine(ItemText(it)) || more == "") && all == ItemText(it) + more
    requires p <= all && StartsWith(p, "+++ ") && ItemText(it)[0] == '+'
    ensures it.Flip? && ItemBack(it) != "" && ItemBack(it)[0] == '-'
  {
    ItemStart(it);
    if it.Plain? {
      PlainNotPlus(it.text, more, p);
    }
  }

  lemma PlainNotPlus(text: string, more: string, p: string)
    requires (EndsLine(text) || more == "") && p <= text + more && StartsWith(p, "+++ ")
    ensures StartsWith(text, "+++ ")
  {
    var all := text + more;
    assert all[..4] == "+++ ";
    assert |text| >= 4 ==> all[..4] == text[..4];
    assert forall i :: 0 <= i < 4 ==> all[i] == "+++ "[i] && all[i] != '\n';
    assert forall i :: 0 <= i < |text| ==> all[i] == text[i];
  }

  lemma WrongItem(it: Item, rest: seq<Item>, inside: bool)
    requires ItemOk(it) && ItemsOk(rest) && ItemMode(it, inside).None? && (EndsLine(ItemText(it)) || rest == [])
    ensures Wrong(SplitLines(ItemText(it)) + SplitLines(ItemsText(rest)), inside, ItemBack(it) + ItemsBack(rest))
  {
    hide Wrong, PlainMode, Follows, InverseHeader, HeaderText;
    var ps := SplitLines(ItemsText(rest));
    match it
    case Plain(text) =>
      FollowItems(text, rest);
      WrongPlain(SplitLines(text), text, ps, inside, ItemsBack(rest));
    case Flip(mark, tail) =>
      if inside && !HeaderLike(mark, tail) {
        WrongInner(mark, tail, rest);
      } else {
        WrongMark(mark, tail, ps, inside, ItemsBack(rest));
      }
    case Head(a, b, section) =>
      WrongHead(a, b, section, rest, inside);
    case Names(_, _) =>
  }

  /** A later piece of a changed line is not printed as it is. */
  lemma WrongInner(mark: char, tail: string, rest: seq<Item>)
    requires (mark == '+' || mark == '-') && !HeaderLike(mark, tail) && ItemsOk(rest)
    requires EndsLine([mark] + tail) || rest == []
    requires PlainMode(SplitLines([mark] + tail)[1..], true).None?
    ensures Wrong(SplitLines([mark] + tail) + SplitLines(ItemsText(rest)), true,
                  [FlipChar(mark)] + tail + ItemsBack(rest))
  {
    hide Scan, ReadLine, Wrong, PlainMode, Follows, HeaderLike, SplitLines, Join, PiecesOf, Cut, NoBoundary, ItemsText, ItemsBack;
    var all, after := SplitLines([mark] + tail), SplitLines(ItemsText(rest));
    var line, flipped := FirstOfMarked(mark, tail);
    var kept, text, back := all[1..], Join(all[1..]), ItemsBack(rest);
    PiecesMean([mark] + tail);
    Rest(all, [mark] + tail);
    KeptEnds(all, [mark] + tail, rest);
    FollowItems(text, rest);
    WrongPlain(kept, text, after, true, back);
    ReadFlipped(mark, line[1..]);
    ScanOne(line, kept + after, true);
    assert [line] + (kept + after) == all + after;
    WrongLater([line], kept + after, true, true, [flipped], true, text + back);
    JoinOne(flipped);
    ConcatAssoc(flipped, text, back);
  }

  lemma PiecesMean(text: string)
    ensures PiecesOf(SplitLines(text), text)
  {
  }

  lemma KeptEnds(all: seq<string>, text: string, rest: seq<Item>)
    requires PiecesOf(all, text) && all != [] && (EndsLine(text) || rest == [])
    requires PlainMode(all[1..], true).None?
    ensures all[1..] != [] && (EndsLine(Join(all[1..])) || rest == [])
  {
    Rest(all, text);
  }

  /** A changed line outside of a hunk, or one that reads as a file header, is not flipped. */
  lemma WrongMark(mark: char, tail: string, rest: seq<string>, inside: bool, expected: string)
    requires (mark == '+' || mark == '-') && (!inside || HeaderLike(mark, tail))
    ensures Wrong(SplitLines([mark] + tail) + rest, inside, [FlipChar(mark)] + tail + expected)
  {
    hide ReadLine, Scan, ParseHunk, RStrip;
    var text := [mark] + tail;
    PieceFacts(text);
    var ps := SplitLines(text);
    var p, all, e := ps[0], ps + rest, [FlipChar(mark)] + tail + expected;
    assert p[0] == mark;
    if StartsWith(p, "--- ") {
      WrongDashes(all, inside, e);
    } else {
      PieceHeader(mark, tail, p);
      NoHunk(p);
      ReadKept(p, inside);
      ScanOne(p, ps[1..] + rest, inside);
      assert all == [p] + (ps[1..] + rest);
      WrongStart(all, inside, p, false, Scan(ps[1..] + rest, inside && !StartsWith(p, "+++ ")), e);
    }
  }

  lemma PieceHeader(mark: char, tail: string, p: string)
    requires SplitLines([mark] + tail) != [] && p == SplitLines([mark] + tail)[0] && !StartsWith(p, "--- ")
    ensures HeaderLike(mark, tail) ==> StartsWith(p, "+++ ")
  {
    var text := [mark] + tail;
    hide SplitLines;
    PieceFacts(text);
    HeaderPiece(text, "--- ");
    HeaderPiece(text, "+++ ");
  }

  /** A prefix without boundaries lies in the first piece. */
  lemma HeaderPiece(text: string, p: string)
    requires text != "" && NoBoundary(p)
    ensures StartsWith(text, p) ==> SplitLines(text) != [] && StartsWith(SplitLines(text)[0], p)
  {
    if StartsWith(text, p) {
      var rest := text[|p|..];
      assert text == p + rest;
      if rest != "" {
        OpenNext(p, rest);
      } else {
        OpenLine(p);
        assert text == p;
      }
      assert SplitLines(text)[0] == text[..LineLength(text)];
    }
  }

  lemma WrongDashes(all: seq<string>, inside: bool, expected: string)
    requires all != [] && StartsWith(all[0], "--- ") && expected != "" && expected[0] == '+'
    ensures Wrong(all, inside, expected)
  {
    hide Scan;
    if !LacksPartner(all, 0) {
      var x, y := all[0][4..], all[1][4..];
      assert all[0] == "--- " + x && all[1] == "+++ " + y;
      assert all == ["--- " + x, "+++ " + y] + all[2..];
      ScanPair(x, y, all[2..], inside);
      PairText(y, x, Scan(all[2..], false).out);
      assert Join(Scan(all, inside).out)[0] == '-';
    }
  }

  /** Where the mode stops, the program fails or prints something else than the reversed items. */
  lemma {:induction false} ItemsWrong(items: seq<Item>, inside: bool)
    requires ItemsOk(items) && Mode(items, inside).None?
    ensures Wrong(SplitLines(ItemsText(items)), inside, ItemsBack(items))
    decreases |items|
  {
    hide Scan, Wrong, ItemMode, ItemBack, ItemText, ItemOk, SplitLines, Paired;
    var it, rest := items[0], items[1..];
    var ps := SplitLines(ItemsText(rest));
    ItemsSplit(items);
    if ItemMode(it, inside).None? {
      WrongItem(it, rest, inside);
    } else {
      var m := ItemMode(it, inside).value;
      ItemsWrong(rest, m);
      var out := ItemReads(it, ps, inside);
      WrongLater(SplitLines(ItemText(it)), ps, inside, m, out, it.Flip?, ItemsBack(rest));
    }
  }
}
