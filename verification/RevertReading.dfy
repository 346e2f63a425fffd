/**
 How the program reads a diff.  A diff is taken as a row of items: lines to be kept, lines to be flipped, hunk
 headers and file headers.  A line of the diff ends at "\n", but the program also cuts it where `str.splitlines`
 does, and reads each piece as a line of its own.  `Mode` follows its two-valued mode through the pieces and says
 whether every piece is taken for what it is.
 */
module RevertReading {
  import opened Text
  import opened UnifiedDiff
  import opened RevertPatch

  datatype Item =
    | Plain(text: string)                                   // preamble, context, or "\ No newline at end of file"
    | Flip(mark: char, tail: string)                        // an added or dropped line
    | Head(source: Range, target: Range, section: string)   // "@@ -... +... @@"
    | Names(oldName: string, newName: string)               // "--- ..." and "+++ ..."

  function HeaderText(a: Range, b: Range, section: string): string {
    PrintHeader(Hunk(a, b, section, []))
  }

  function ItemText(it: Item): string {
    match it
    case Plain(text) => text
    case Flip(mark, tail) => [mark] + tail
    case Head(a, b, section) => HeaderText(a, b, section)
    case Names(x, y) => "--- " + x + ("+++ " + y)
  }

  function FlipChar(mark: char): char {
    if mark == '+' then '-' else if mark == '-' then '+' else mark
  }

  /** What should be printed for an item. */
  function ItemBack(it: Item): string {
    match it
    case Plain(text) => text
    case Flip(mark, tail) => [FlipChar(mark)] + tail
    case Head(a, b, section) => InverseHeader(a, b)
    case Names(x, y) => "--- " + y + ("+++ " + x)
  }

  function ItemsText(items: seq<Item>): string {
    if items == [] then "" else ItemText(items[0]) + ItemsText(items[1..])
  }

  function ItemsBack(items: seq<Item>): string {
    if items == [] then "" else ItemBack(items[0]) + ItemsBack(items[1..])
  }

  predicate Changes(items: seq<Item>) {
    items != [] && (items[0].Flip? || Changes(items[1..]))
  }

  // ---------------------------------------------------------------- the mode

  /** A header that is its own inverse. */
  predicate Symmetric(p: string) {
    var h := ParseHunk(RStrip(p));
    h.Some? && p == InverseHeader(h.value.0, h.value.1)
  }

  /**
   The mode after pieces that should be printed as they are, or None where one of them would not be.  A "--- " piece
   passes only before a "+++ " piece of the same text, a hunk header only if it is its own inverse; inside a hunk "+"
   and "-" would be flipped, and "+++ " ends the hunk.
   */
  function PlainMode(ps: seq<string>, inside: bool): Option<bool> {
    if ps == [] then Some(inside)
    else if StartsWith(ps[0], "--- ") then
      if |ps| > 1 && ps[1] == "+++ " + ps[0][4..] then PlainMode(ps[2..], false) else None
    else if ParseHunk(RStrip(ps[0])).Some? then
      if Symmetric(ps[0]) then PlainMode(ps[1..], true) else None
    else if inside && StartsWith(ps[0], "+++ ") then PlainMode(ps[1..], false)
    else if inside && (StartsWith(ps[0], "+") || StartsWith(ps[0], "-")) then None
    else PlainMode(ps[1..], inside)
  }

  /** A line that, once marked, reads as a file header. */
  predicate HeaderLike(mark: char, tail: string) {
    StartsWith([mark] + tail, "--- ") || StartsWith([mark] + tail, "+++ ")
  }

  function ItemMode(it: Item, inside: bool): Option<bool> {
    match it
    case Plain(text) => PlainMode(SplitLines(text), inside)
    case Flip(mark, tail) =>
      if !inside || HeaderLike(mark, tail) then None else PlainMode(SplitLines([mark] + tail)[1..], true)
    case Head(_, _, _) => if OneLine(ItemText(it)) then Some(true) else None
    case Names(_, _) => Some(false)
  }

  function Mode(items: seq<Item>, inside: bool): Option<bool> {
    if items == [] then Some(inside)
    else
      var m := ItemMode(items[0], inside);
      if m.None? then None else Mode(items[1..], m.value)
  }

  // ---------------------------------------------------------------- what an item may be

  predicate NameOk(name: string) {
    OneLine(name) && EndsLine(name)
  }

  predicate ItemOk(it: Item) {
    match it
    case Plain(text) => text != "" && !StartsWith(text, "+++ ")
    case Flip(mark, tail) => mark == '+' || mark == '-'
    case Head(a, b, section) => RangeOk(a) && RangeOk(b) && ClosedLine(section)
    case Names(x, y) => NameOk(x) && NameOk(y)
  }

  /** Every item but the last ends at a "\n"; a last kept or changed line may stop short of it. */
  predicate ItemsOk(items: seq<Item>) {
    items == [] ||
    (ItemOk(items[0]) && (EndsLine(ItemText(items[0])) || (|items| == 1 && '\n' !in ItemText(items[0]))) &&
     ItemsOk(items[1..]))
  }

  // ---------------------------------------------------------------- single lines

  /** One line read in front of others. */
  lemma ScanOne(line: string, rest: seq<string>, inside: bool)
    requires !StartsWith(line, "--- ")
    ensures var p := ReadLine(line, "", inside);
            Scan([line] + rest, inside) == Emit(p.out, p.changed, Scan(rest, p.inside))
  {
    hide Scan, ReadLine;
    var lines := [line] + rest;
    NextIrrelevant(line, Next(lines), inside);
    ScanStep(lines, inside, ReadLine(line, "", inside));
    assert lines[1..] == rest;
  }

  lemma NextIrrelevant(line: string, next: string, inside: bool)
    requires !StartsWith(line, "--- ")
    ensures ReadLine(line, next, inside) == ReadLine(line, "", inside)
    ensures ReadLine(line, "", inside).taken == 1
  {
    hide ParseHunk;
  }

  lemma ScanPair(x: string, y: string, rest: seq<string>, inside: bool)
    ensures Scan(["--- " + x, "+++ " + y] + rest, inside) == Emit(["--- " + y, "+++ " + x], false, Scan(rest, false))
  {
    var lines := ["--- " + x, "+++ " + y] + rest;
    assert lines[2..] == rest;
    assert ("--- " + x)[4..] == x && ("+++ " + y)[4..] == y;
    assert ReadLine(lines[0], lines[1], inside) == Piece(["--- " + y, "+++ " + x], false, 2, false);
  }

  lemma StripKeepsFirst(line: string)
    requires line != "" && line[0] != '\n' && line[0] != '\r'
    ensures RStrip(line) != "" && RStrip(line)[0] == line[0]
  {
    RStripAppend([line[0]], line[1..]);
    assert line == [line[0]] + line[1..];
  }

  lemma NoHunk(line: string)
    requires line == "" || line[0] != '@'
    ensures ParseHunk(RStrip(line)).None?
  {
    assert RStrip(line) != "" ==> RStrip(line)[0] == line[0];
    assert !StartsWith(RStrip(line), "@@ -");
  }

  lemma StartChar(line: string, p: string)
    requires p != "" && StartsWith(line, p)
    ensures line != "" && line[0] == p[0]
  {
  }

  lemma OtherStart(line: string, p: string)
    requires p != "" && (line == "" || line[0] != p[0])
    ensures !StartsWith(line, p)
  {
  }

  /** A piece inside a hunk that starts with "+" or "-" and is no header is flipped. */
  lemma ReadFlipped(mark: char, tail: string)
    requires (mark == '+' || mark == '-') && !HeaderLike(mark, tail)
    ensures ReadLine([mark] + tail, "", true) == Piece([[FlipChar(mark)] + tail], true, 1, true)
  {
    var line := [mark] + tail;
    StripKeepsFirst(line);
    NoHunk(line);
    assert line[1..] == tail;
    assert StartsWith(RStrip(line), "+") <==> mark == '+' by { FirstIs(RStrip(line)); }
    assert StartsWith(RStrip(line), "-") <==> mark == '-' by { FirstIs(RStrip(line)); }
    hide ParseHunk, RStrip;
  }

  lemma FirstIs(s: string)
    requires s != ""
    ensures StartsWith(s, "+") <==> s[0] == '+'
    ensures StartsWith(s, "-") <==> s[0] == '-'
  {
  }

  /** The piece read as a line outside of a hunk, or not starting like a changed line. */
  lemma ReadKept(line: string, inside: bool)
    requires !StartsWith(line, "--- ") && ParseHunk(RStrip(line)).None?
    requires inside ==> StartsWith(line, "+++ ") || !(StartsWith(line, "+") || StartsWith(line, "-"))
    ensures ReadLine(line, "", inside) == Piece([line], false, 1, inside && !StartsWith(line, "+++ "))
  {
    hide ParseHunk;
    assert StartsWith(RStrip(line), "+") ==> StartsWith(line, "+");
    assert StartsWith(RStrip(line), "-") ==> StartsWith(line, "-");
  }

  lemma ReadHunk(line: string, inside: bool)
    requires !StartsWith(line, "--- ") && ParseHunk(RStrip(line)).Some?
    ensures var h := ParseHunk(RStrip(line)).value;
            ReadLine(line, "", inside) == Piece([InverseHeader(h.0, h.1)], false, 1, true)
  {
    hide ParseHunk, InverseHeader;
  }

  lemma HunkStart(line: string)
    requires ParseHunk(RStrip(line)).Some?
    ensures line != "" && line[0] == '@' && !StartsWith(line, "--- ")
  {
    assert RStrip(line) <= line;
    StartChar(RStrip(line), "@@ -");
    OtherStart(line, "--- ");
  }

  // ---------------------------------------------------------------- pieces read as they should be

  ghost predicate Paired(lines: seq<string>) {
    forall i :: 0 <= i < |lines| ==> !LacksPartner(lines, i)
  }

  lemma PairedFront(line: string, rest: seq<string>)
    requires !StartsWith(line, "--- ") && Paired(rest)
    ensures Paired([line] + rest)
  {
    var lines := [line] + rest;
    forall i | 0 <= i < |lines|
      ensures !LacksPartner(lines, i)
    {
      if i > 0 {
        assert !LacksPartner(rest, i - 1);
      }
    }
  }

  lemma PairedPair(x: string, y: string, rest: seq<string>)
    requires Paired(rest)
    ensures Paired(["--- " + x, "+++ " + y] + rest)
  {
    var lines := ["--- " + x, "+++ " + y] + rest;
    OtherStart(lines[1], "--- ");
    forall i | 0 <= i < |lines|
      ensures !LacksPartner(lines, i)
    {
      if i > 1 {
        assert !LacksPartner(rest, i - 2);
      }
    }
  }

  lemma {:induction false} PlainReads(ps: seq<string>, rest: seq<string>, inside: bool)
    requires PlainMode(ps, inside).Some?
    ensures Scan(ps + rest, inside) == Emit(ps, false, Scan(rest, PlainMode(ps, inside).value))
    ensures Paired(rest) ==> Paired(ps + rest)
    decreases |ps|
  {
    hide Scan, ReadLine, ParseHunk, RStrip, Paired;
    if ps == [] {
      assert ps + rest == rest;
      assert [] + Scan(rest, inside).out == Scan(rest, inside).out;
    } else if StartsWith(ps[0], "--- ") {
      var x := ps[0][4..];
      var two, more := ["--- " + x, "+++ " + x], ps[2..] + rest;
      assert ps[0] == "--- " + x && ps + rest == two + more && two + ps[2..] == ps;
      PlainReads(ps[2..], rest, false);
      ScanPair(x, x, more, inside);
      EmitEmit(two, false, ps[2..], false, Scan(rest, PlainMode(ps, inside).value));
      if Paired(rest) {
        PairedPair(x, x, more);
      }
    } else {
      var line, more := ps[0], ps[1..] + rest;
      var after := ReadLine(line, "", inside).inside;
      assert ps + rest == [line] + more && [line] + ps[1..] == ps;
      PlainPiece(line, inside);
      PlainStep(ps, inside);
      PlainReads(ps[1..], rest, after);
      ScanOne(line, more, inside);
      EmitEmit([line], false, ps[1..], false, Scan(rest, PlainMode(ps, inside).value));
      if Paired(rest) {
        PairedFront(line, more);
      }
    }
  }

  /** A piece that `PlainMode` lets pass alone is printed as it is. */
  lemma PlainPiece(line: string, inside: bool)
    requires !StartsWith(line, "--- ") && PlainMode([line], inside).Some?
    ensures ReadLine(line, "", inside) == Piece([line], false, 1, PlainMode([line], inside).value)
  {
    hide ParseHunk, RStrip, ReadLine;
    assert [line][1..] == [];
    if ParseHunk(RStrip(line)).Some? {
      ReadHunk(line, inside);
    } else {
      ReadKept(line, inside);
    }
  }

  lemma PlainStep(ps: seq<string>, inside: bool)
    requires ps != [] && !StartsWith(ps[0], "--- ")
    ensures var first := PlainMode([ps[0]], inside);
            PlainMode(ps, inside) == if first.None? then None else PlainMode(ps[1..], first.value)
  {
    hide ParseHunk, RStrip, Symmetric;
    assert [ps[0]][1..] == [];
  }

  // ---------------------------------------------------------------- items read as they should be

  /** `out` is what reading `ps` in front of `rest` prints. */
  ghost predicate Reads(ps: seq<string>, rest: seq<string>, inside: bool, after: bool, out: seq<string>, changed: bool) {
    Scan(ps + rest, inside) == Emit(out, changed, Scan(rest, after)) && (Paired(rest) ==> Paired(ps + rest))
  }

  lemma FlipReads(mark: char, tail: string, rest: seq<string>) returns (out: seq<string>)
    requires (mark == '+' || mark == '-') && ItemMode(Flip(mark, tail), true).Some?
    ensures Reads(SplitLines([mark] + tail), rest, true, ItemMode(Flip(mark, tail), true).value, out, true)
    ensures Join(out) == [FlipChar(mark)] + tail
  {
    hide Scan, ReadLine, ParseHunk, RStrip, Paired, PlainMode;
    var ps, after := SplitLines([mark] + tail), ItemMode(Flip(mark, tail), true).value;
    var line, flipped := FirstOfMarked(mark, tail);
    var kept := ps[1..];
    assert ps + rest == [line] + (kept + rest);
    ReadFlipped(mark, line[1..]);
    ScanOne(line, kept + rest, true);
    PlainReads(kept, rest, true);
    EmitEmit([flipped], true, kept, false, Scan(rest, after));
    out := [flipped] + kept;
    JoinFirst(out, []);
    assert out[1..] == kept;
    if Paired(rest) {
      PairedFront(line, kept + rest);
    }
  }

  /** The first piece of a marked line carries the mark. */
  lemma FirstOfMarked(mark: char, tail: string) returns (line: string, flipped: string)
    requires (mark == '+' || mark == '-') && !HeaderLike(mark, tail)
    ensures var ps := SplitLines([mark] + tail);
            ps != [] && line == ps[0] && line != "" && line == [mark] + line[1..] && !StartsWith(line, "--- ") &&
            !HeaderLike(mark, line[1..]) && flipped == [FlipChar(mark)] + line[1..] &&
            flipped + Join(ps[1..]) == [FlipChar(mark)] + tail
  {
    var text := [mark] + tail;
    PieceFacts(text);
    var ps := SplitLines(text);
    line := ps[0];
    assert line[0] == text[0] == mark && line <= text;
    flipped := [FlipChar(mark)] + line[1..];
    assert [mark] + line[1..] == line;
    assert StartsWith(line, "--- ") ==> StartsWith(text, "--- ");
    assert StartsWith(line, "+++ ") ==> StartsWith(text, "+++ ");
    assert text[1..] == line[1..] + Join(ps[1..]) && text[1..] == tail;
    ConcatAssoc([FlipChar(mark)], line[1..], Join(ps[1..]));
  }

  lemma HeadReads(a: Range, b: Range, section: string, rest: seq<string>, inside: bool)
    requires RangeOk(a) && RangeOk(b) && OneLine(HeaderText(a, b, section))
    ensures Reads(SplitLines(HeaderText(a, b, section)), rest, inside, true, [InverseHeader(a, b)], false)
  {
    hide Scan, ReadLine, ParseHunk, RStrip, Paired, InverseHeader;
    var h := Hunk(a, b, section, []);
    var line := PrintHeader(h);
    OneLineSplit(line);
    ParsePrintHeader(h);
    HunkStart(line);
    ReadHunk(line, inside);
    ScanOne(line, rest, inside);
    if Paired(rest) {
      PairedFront(line, rest);
    }
  }

  lemma NamesLines(x: string, y: string)
    requires NameOk(x) && NameOk(y)
    ensures SplitLines("--- " + x + ("+++ " + y)) == ["--- " + x, "+++ " + y]
  {
    var a, b := "--- " + x, "+++ " + y;
    OneLinePrefix("--- ", x);
    OneLinePrefix("+++ ", y);
    assert a[|a| - 1] == x[|x| - 1];
    SplitConcat(a, b);
    OneLineSplit(a);
    OneLineSplit(b);
  }

  lemma NamesRead(x: string, y: string, rest: seq<string>, inside: bool)
    requires NameOk(x) && NameOk(y)
    ensures Reads(SplitLines("--- " + x + ("+++ " + y)), rest, inside, false, ["--- " + y, "+++ " + x], false)
  {
    hide Scan, SplitLines, Paired, NameOk;
    NamesLines(x, y);
    ScanPair(x, y, rest, inside);
    if Paired(rest) {
      PairedPair(x, y, rest);
    }
  }

  lemma JoinOne(x: string)
    ensures Join([x]) == x
  {
  }

  lemma JoinTwo(x: string, y: string)
    ensures Join([x, y]) == x + y
  {
    assert [x, y][1..] == [y];
    JoinOne(y);
  }

  lemma ItemReads(it: Item, rest: seq<string>, inside: bool) returns (out: seq<string>)
    requires ItemOk(it) && ItemMode(it, inside).Some?
    ensures Reads(SplitLines(ItemText(it)), rest, inside, ItemMode(it, inside).value, out, it.Flip?)
    ensures Join(out) == ItemBack(it)
  {
    hide Scan, Paired, PlainMode, HeaderText, InverseHeader, NameOk, Join;
    match it
    case Plain(text) =>
      PlainReads(SplitLines(text), rest, inside);
      out := SplitLines(text);
    case Flip(mark, tail) =>
      out := FlipReads(mark, tail, rest);
    case Head(a, b, section) =>
      HeadReads(a, b, section, rest, inside);
      out := [InverseHeader(a, b)];
      JoinOne(InverseHeader(a, b));
    case Names(x, y) =>
      NamesRead(x, y, rest, inside);
      out := ["--- " + y, "+++ " + x];
      JoinTwo("--- " + y, "+++ " + x);
  }

  /** When the mode passes through all items, the reading prints what it should. */
  lemma {:induction false} ItemsRead(items: seq<Item>, inside: bool)
    requires ItemsOk(items) && Mode(items, inside).Some?
    ensures var ps := SplitLines(ItemsText(items));
            Join(Scan(ps, inside).out) == ItemsBack(items) && Scan(ps, inside).changed == Changes(items) && Paired(ps)
    decreases |items|
  {
    if items != [] {
      hide Scan, Paired, ItemMode, ItemBack, ItemText, ItemOk, SplitLines;
      var it, rest, m := items[0], items[1..], ItemMode(items[0], inside).value;
      var ps := SplitLines(ItemsText(rest));
      ItemsSplit(items);
      ItemsRead(rest, m);
      var out := ItemReads(it, ps, inside);
      JoinAppend(out, Scan(ps, m).out);
    }
  }

  lemma ItemsSplit(items: seq<Item>)
    requires ItemsOk(items) && items != []
    ensures SplitLines(ItemsText(items)) == SplitLines(ItemText(items[0])) + SplitLines(ItemsText(items[1..]))
  {
    var text, rest := ItemText(items[0]), ItemsText(items[1..]);
    if EndsLine(text) {
      SplitConcat(text, rest);
    } else {
      assert items[1..] == [] && text + "" == text;
      assert SplitLines("") == [];
    }
  }
}
