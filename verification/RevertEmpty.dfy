/** When the generated patch is empty: for any text, and for diffs without a change, read as meant or not. */
module RevertEmpty {
  import opened Text
  import opened UnifiedDiff
  import opened RevertPatch
  import opened RevertReading
  import opened RevertDiff

  // ---------------------------------------------------------------- texts

  /**
   The mode after pieces among which nothing reads as a change, or None.  Headers may be of any kind here, but a "--- "
   piece needs a "+++ " piece behind it.
   */
  function QuietMode(ps: seq<string>, inside: bool): Option<bool> {
    if ps == [] then Some(inside)
    else if StartsWith(ps[0], "--- ") then
      if |ps| > 1 && StartsWith(ps[1], "+++ ") then QuietMode(ps[2..], false) else None
    else if ParseHunk(RStrip(ps[0])).Some? then QuietMode(ps[1..], true)
    else if inside && StartsWith(ps[0], "+++ ") then QuietMode(ps[1..], false)
    else if inside && (StartsWith(ps[0], "+") || StartsWith(ps[0], "-")) then None
    else QuietMode(ps[1..], inside)
  }

  ghost predicate Quiet(ps: seq<string>, inside: bool) {
    Paired(ps) && !Scan(ps, inside).changed
  }

  lemma QuietPair(x: string, y: string, rest: seq<string>, inside: bool)
    ensures Quiet(["--- " + x, "+++ " + y] + rest, inside) <==> Quiet(rest, false)
  {
    hide Scan, LacksPartner;
    var lines := ["--- " + x, "+++ " + y] + rest;
    ScanPair(x, y, rest, inside);
    if Paired(rest) {
      PairedPair(x, y, rest);
    } else {
      var i :| 0 <= i < |rest| && LacksPartner(rest, i);
      LacksLater(lines, rest, 2, i);
    }
  }

  lemma LacksLater(lines: seq<string>, rest: seq<string>, n: nat, i: nat)
    requires n <= |lines| && lines[n..] == rest && i < |rest| && LacksPartner(rest, i)
    ensures !Paired(lines)
  {
    assert lines[n + i] == rest[i] && (i + 1 < |rest| ==> lines[n + i + 1] == rest[i + 1]);
    assert LacksPartner(lines, n + i);
  }

  lemma QuietOne(line: string, rest: seq<string>, inside: bool)
    requires !StartsWith(line, "--- ")
    ensures var p := ReadLine(line, "", inside);
            Quiet([line] + rest, inside) <==> !p.changed && Quiet(rest, p.inside)
  {
    hide Scan, ReadLine, LacksPartner;
    ScanOne(line, rest, inside);
    if Paired(rest) {
      PairedFront(line, rest);
    } else {
      var i :| 0 <= i < |rest| && LacksPartner(rest, i);
      LacksLater([line] + rest, rest, 1, i);
    }
  }

  /** How one piece is read that is no "--- " header. */
  lemma ReadQuiet(line: string, inside: bool)
    requires !StartsWith(line, "--- ")
    ensures var p, m := ReadLine(line, "", inside), QuietMode([line], inside);
            (m.Some? <==> !p.changed) && (m.Some? ==> m.value == p.inside)
  {
    hide ParseHunk;
    assert [line][1..] == [];
    assert RStrip(line) <= line;
    if inside && ParseHunk(RStrip(line)).None? && (StartsWith(line, "+") || StartsWith(line, "-")) {
      StripKeepsFirst(line);
      FirstIs(line);
      FirstIs(RStrip(line));
    }
  }

  lemma QuietStep(ps: seq<string>, inside: bool)
    requires ps != [] && !StartsWith(ps[0], "--- ")
    ensures var first := QuietMode([ps[0]], inside);
            QuietMode(ps, inside) == if first.None? then None else QuietMode(ps[1..], first.value)
  {
    hide ParseHunk, RStrip;
    assert [ps[0]][1..] == [];
  }

  lemma Unpaired(ps: seq<string>)
    requires ps != [] && LacksPartner(ps, 0)
    ensures !Paired(ps)
  {
  }

  lemma {:induction false} QuietExactly(ps: seq<string>, inside: bool)
    ensures QuietMode(ps, inside).Some? <==> Quiet(ps, inside)
    decreases |ps|
  {
    if ps != [] {
      hide Quiet, ReadLine, ParseHunk, RStrip, Paired;
      if !StartsWith(ps[0], "--- ") {
        assert ps == [ps[0]] + ps[1..];
        QuietOne(ps[0], ps[1..], inside);
        ReadQuiet(ps[0], inside);
        QuietStep(ps, inside);
        QuietExactly(ps[1..], ReadLine(ps[0], "", inside).inside);
      } else if |ps| > 1 && StartsWith(ps[1], "+++ ") {
        assert ps[0] == "--- " + ps[0][4..] && ps[1] == "+++ " + ps[1][4..];
        assert ps == [ps[0], ps[1]] + ps[2..];
        QuietPair(ps[0][4..], ps[1][4..], ps[2..], inside);
        QuietExactly(ps[2..], false);
      } else {
        NotQuiet(ps, inside);
      }
    }
  }

  lemma NotQuiet(ps: seq<string>, inside: bool)
    requires ps != [] && StartsWith(ps[0], "--- ") && (|ps| == 1 || !StartsWith(ps[1], "+++ "))
    ensures !Quiet(ps, inside)
  {
    assert LacksPartner(ps, 0);
    Unpaired(ps);
  }

  /** The generated patch of any text is empty exactly when none of its pieces reads as a change or as half a header. */
  lemma EmptyExactly(text: string)
    ensures Revert(text) == Ok("") <==> QuietMode(SplitLines(text), false).Some?
  {
    hide QuietMode, Scan, LacksPartner;
    QuietExactly(SplitLines(text), false);
    if !Malformed(text) && Scan(SplitLines(text), false).changed {
      ChangePrints(SplitLines(text), false);
    }
  }

  lemma {:induction false} ChangePrints(ps: seq<string>, inside: bool)
    requires Scan(ps, inside).changed
    ensures Join(Scan(ps, inside).out) != ""
    decreases |ps|
  {
    hide ParseHunk, RStrip, ReadLine;
    var p := ReadLine(ps[0], Next(ps), inside);
    JoinAppend(p.out, Scan(ps[p.taken..], p.inside).out);
    if p.changed {
      PieceChange(ps[0], Next(ps), inside);
    } else {
      ChangePrints(ps[p.taken..], p.inside);
    }
  }

  lemma PieceChange(line: string, next: string, inside: bool)
    requires ReadLine(line, next, inside).changed
    ensures Join(ReadLine(line, next, inside).out) != ""
  {
    hide ParseHunk, RStrip;
  }

  // ---------------------------------------------------------------- diffs without a change

  /** Each line by itself: its pieces are quiet in the mode in which the lines before have left the program. */
  function QuietItems(items: seq<Item>, inside: bool): Option<bool> {
    if items == [] then Some(inside)
    else
      var m := QuietMode(SplitLines(ItemText(items[0])), inside);
      if m.None? then None else QuietItems(items[1..], m.value)
  }

  /** A line that may be the second half of a file header. */
  predicate StartsPair(ps: seq<string>) {
    ps != [] && StartsWith(ps[0], "+++ ")
  }

  lemma {:induction false} QuietConcat(a: seq<string>, b: seq<string>, inside: bool)
    requires !StartsPair(b)
    ensures var m := QuietMode(a, inside);
            QuietMode(a + b, inside) == if m.None? then None else QuietMode(b, m.value)
    decreases |a|
  {
    hide ParseHunk, RStrip;
    var s := a + b;
    if a == [] {
      assert s == b;
    } else if !StartsWith(a[0], "--- ") {
      QuietStep(a, inside);
      QuietStep(s, inside);
      assert s[0] == a[0] && s[1..] == a[1..] + b;
      var first := QuietMode([a[0]], inside);
      if first.Some? {
        QuietConcat(a[1..], b, first.value);
      }
    } else if |a| > 1 {
      assert s[0] == a[0] && s[1] == a[1] && s[2..] == a[2..] + b;
      QuietConcat(a[2..], b, false);
    } else {
      assert s[0] == a[0] && s[1..] == b;
      assert b != [] ==> s[1] == b[0];
    }
  }

  lemma ItemNoPair(it: Item)
    requires ItemOk(it) && !it.Flip?
    ensures !StartsPair(SplitLines(ItemText(it)))
  {
    hide ParseHunk;
    var text := ItemText(it);
    if text != "" {
      PieceFacts(text);
      assert SplitLines(text)[0] <= text;
      assert !StartsWith(text, "+++ ");
    }
  }

  lemma {:induction false} QuietText(items: seq<Item>, inside: bool)
    requires ItemsOk(items) && !Changes(items)
    ensures QuietItems(items, inside) == QuietMode(SplitLines(ItemsText(items)), inside)
    ensures !StartsPair(SplitLines(ItemsText(items)))
    decreases |items|
  {
    if items != [] {
      hide QuietMode, SplitLines, ItemText, ItemOk;
      var ps, more := SplitLines(ItemText(items[0])), SplitLines(ItemsText(items[1..]));
      ItemsSplit(items);
      ItemNoPair(items[0]);
      QuietText(items[1..], inside);
      QuietConcat(ps, more, inside);
      var m := QuietMode(ps, inside);
      if m.Some? {
        QuietText(items[1..], m.value);
      }
    }
  }

  /**
   For a diff without a change, read as meant or not: the generated patch is empty exactly when no piece of any of its
   lines, cut as `str.splitlines` cuts, reads as a changed line or as half a file header.
   */
  lemma NoChangeExactly(d: Diff)
    requires WellFormed(d) && !HasChange(d)
    ensures Revert(DiffText(d)) == Ok("") <==> QuietItems(Items(d), false).Some?
  {
    hide Revert, WellFormed, HasChange, DiffText, Items, QuietMode, QuietItems, ItemsText, SplitLines, Changes;
    EmptyExactly(DiffText(d));
    WellFormedItems(d);
    DiffItems(d);
    QuietText(Items(d), false);
  }
}
