/**
 Post-merge rollback: the program that prints the patch to undo a merged patch.  `Scan` is a one-pass reading
 of the diff with a two-valued mode; `GenerateRevertPatch` is the index-driven program.
 */
module RevertPatch {
  import opened Text
  import opened UnifiedDiff

  // ---------------------------------------------------------------- hunk headers

  predicate IsDigit(c: char) {
    '0' <= c <= '9'
  }

  predicate IsNumeral(s: string) {
    s != "" && forall i :: 0 <= i < |s| ==> IsDigit(s[i])
  }

  function DigitRun(s: string): (n: nat)
    ensures n <= |s|
  {
    if s == "" || !IsDigit(s[0]) then 0 else 1 + DigitRun(s[1..])
  }

  datatype Parsed = Parsed(range: Range, rest: string)

  /** `(\d+)(?:,(\d+))?` */
  function ParseRange(s: string): Option<Parsed> {
    var n := DigitRun(s);
    if n == 0 then None
    else if n < |s| && s[n] == ',' then
      var tail := s[n + 1..];
      var m := DigitRun(tail);
      if m == 0 then None else Some(Parsed(Range(s[..n], Some(tail[..m])), tail[m..]))
    else Some(Parsed(Range(s[..n], None), s[n..]))
  }

  datatype Header = Header(source: Range, target: Range, section: string)

  /** A hunk header line: "@@ -RANGE +RANGE @@" and whatever follows. */
  function ReadHeader(line: string): Option<Header> {
    if !StartsWith(line, "@@ -") then None
    else match ParseRange(line[4..])
      case None => None
      case Some(a) =>
        if !StartsWith(a.rest, " +") then None
        else match ParseRange(a.rest[2..])
          case None => None
          case Some(b) =>
            if StartsWith(b.rest, " @@") then Some(Header(a.range, b.range, b.rest[3..])) else None
  }

  /** `^@@ -RANGE \+RANGE @@` at the start of the line */
  function ParseHunk(line: string): Option<(Range, Range)> {
    match ReadHeader(line)
    case None => None
    case Some(h) => Some((h.source, h.target))
  }

  // ---------------------------------------------------------------- reference reading

  datatype Scanned = Scanned(out: seq<string>, changed: bool)

  function Emit(lines: seq<string>, change: bool, rest: Scanned): Scanned {
    Scanned(lines + rest.out, change || rest.changed)
  }

  function LengthText(r: Range): string {
    if r.len.Some? then r.len.value else "1"
  }

  function InverseHeader(a: Range, b: Range): string {
    "@@ -" + b.start + "," + LengthText(b) + " +" + a.start + "," + LengthText(a) + " @@\n"
  }

  /** What one reading step prints, whether that is a change, how many lines it takes, and the mode after it. */
  datatype Piece = Piece(out: seq<string>, changed: bool, taken: nat, inside: bool)

  function ReadLine(line: string, next: string, inside: bool): (p: Piece)
    ensures 1 <= p.taken <= 2
  {
    if StartsWith(line, "--- ") then
      if !StartsWith(next, "+++ ") then Piece([], false, 1, false)
      else Piece(["--- " + next[4..], "+++ " + line[4..]], false, 2, false)
    else match ParseHunk(RStrip(line))
      case Some((a, b)) => Piece([InverseHeader(a, b)], false, 1, true)
      case None =>
        if !inside || StartsWith(line, "+++ ") then Piece([line], false, 1, false)
        else if StartsWith(RStrip(line), "+") then Piece(["-" + line[1..]], true, 1, true)
        else if StartsWith(RStrip(line), "-") then Piece(["+" + line[1..]], true, 1, true)
        else Piece([line], false, 1, true)
  }

  function Next(lines: seq<string>): string {
    if |lines| > 1 then lines[1] else ""
  }

  /** Reads the diff once; `inside` says whether a hunk is open. */
  function Scan(lines: seq<string>, inside: bool): Scanned {
    if lines == [] then Scanned([], false)
    else
      var p := ReadLine(lines[0], Next(lines), inside);
      if p.taken > |lines| then Scanned([], false)
      else Emit(p.out, p.changed, Scan(lines[p.taken..], p.inside))
  }

  /** A "--- " line that no "+++ " line follows. */
  predicate LacksPartner(lines: seq<string>, i: nat)
    requires i < |lines|
  {
    StartsWith(lines[i], "--- ") && (i + 1 == |lines| || !StartsWith(lines[i + 1], "+++ "))
  }

  predicate Malformed(patch: string) {
    var lines := SplitLines(patch);
    exists i :: 0 <= i < |lines| && LacksPartner(lines, i)
  }

  const MALFORMED := "Malformed diff: --- header without following +++ header"

  function Revert(patch: string): Result<string> {
    if Malformed(patch) then Err(MALFORMED)
    else
      var s := Scan(SplitLines(patch), false);
      Ok(if s.changed then Join(s.out) else "")
  }

  // ---------------------------------------------------------------- the program

  /** What `str.strip` removes. */
  predicate IsSpace(c: char) {
    IsBoundary(c) || c == '\t' || c == '\U{1F}' || c == ' ' || c == '\U{A0}' || c == '\U{1680}'
    || '\U{2000}' <= c <= '\U{200A}' || c == '\U{202F}' || c == '\U{205F}' || c == '\U{3000}'
  }

  predicate Blank(s: string) {
    forall i :: 0 <= i < |s| ==> IsSpace(s[i])
  }

  ghost predicate BlankLine(line: string) {
    line != "" && Blank(line)
  }

  lemma {:induction false} BlankLines(s: string)
    requires Blank(s)
    ensures forall line :: line in SplitLines(s) ==> BlankLine(line)
  {
    if s != "" {
      BlankLines(s[LineLength(s)..]);
    }
  }

  lemma {:induction false} BlankScan(lines: seq<string>)
    requires forall line :: line in lines ==> BlankLine(line)
    ensures !Scan(lines, false).changed
  {
    if lines != [] {
      var line := lines[0];
      assert BlankLine(line);
      assert IsSpace(line[0]);
      assert forall p: string :: p != "" && StartsWith(RStrip(line), p) ==> p[0] == line[0];
      BlankScan(lines[1..]);
    }
  }

  lemma BlankRevert(patch: string)
    requires Blank(patch)
    ensures Revert(patch) == Ok("")
  {
    var lines := SplitLines(patch);
    BlankLines(patch);
    forall i | 0 <= i < |lines|
      ensures !LacksPartner(lines, i)
    {
      assert BlankLine(lines[i]);
      assert IsSpace(lines[i][0]);
    }
    BlankScan(lines);
  }

  /** Where the inner loop stops, the mode makes no difference. */
  lemma ScanStop(lines: seq<string>)
    requires lines == [] || ParseHunk(RStrip(lines[0])).Some? || StartsWith(lines[0], "--- ") || StartsWith(lines[0], "+++ ")
    ensures Scan(lines, true) == Scan(lines, false)
  {
  }

  /** Lines before `i` have been read and printed to `out`; none of them is a header without partner. */
  ghost predicate Progress(lines: seq<string>, i: nat, inside: bool, out: seq<string>, changed: bool) {
    i <= |lines| && Scan(lines, false) == Emit(out, changed, Scan(lines[i..], inside))
    && forall k :: 0 <= k < i ==> !LacksPartner(lines, k)
  }

  lemma EmitEmit(a: seq<string>, x: bool, b: seq<string>, y: bool, rest: Scanned)
    ensures Emit(a, x, Emit(b, y, rest)) == Emit(a + b, x || y, rest)
  {
    assert a + (b + rest.out) == a + b + rest.out;
  }

  lemma ScanStep(lines: seq<string>, inside: bool, p: Piece)
    requires lines != [] && p == ReadLine(lines[0], Next(lines), inside) && p.taken <= |lines|
    ensures Scan(lines, inside) == Emit(p.out, p.changed, Scan(lines[p.taken..], p.inside))
  {
  }

  lemma TwoTaken(line: string, next: string, inside: bool)
    requires ReadLine(line, next, inside).taken == 2
    ensures StartsWith(next, "+++ ") && !StartsWith(next, "--- ")
  {
    hide ParseHunk;
    assert next[0] == '+';
  }

  /** One step: `p` is what reading line `i` gives. */
  lemma ProgressStep(lines: seq<string>, i: nat, inside: bool, out: seq<string>, changed: bool, p: Piece)
    requires Progress(lines, i, inside, out, changed) && i < |lines| && !LacksPartner(lines, i)
    requires p == ReadLine(lines[i], Next(lines[i..]), inside)
    ensures Progress(lines, i + p.taken, p.inside, out + p.out, changed || p.changed)
  {
    hide Scan, ReadLine;
    if p.taken == 2 {
      TwoTaken(lines[i], Next(lines[i..]), inside);
    }
    ScanStep(lines[i..], inside, p);
    assert lines[i..][p.taken..] == lines[i + p.taken..];
    EmitEmit(out, changed, p.out, p.changed, Scan(lines[i + p.taken..], p.inside));
  }

  lemma StepHeader(lines: seq<string>, i: nat, out: seq<string>, changed: bool)
    requires Progress(lines, i, false, out, changed) && i + 1 < |lines|
    requires StartsWith(lines[i], "--- ") && StartsWith(lines[i + 1], "+++ ")
    ensures Progress(lines, i + 2, false, out + ["--- " + lines[i + 1][4..], "+++ " + lines[i][4..]], changed)
  {
    ProgressStep(lines, i, false, out, changed, ReadLine(lines[i], lines[i + 1], false));
  }

  lemma StepHunk(lines: seq<string>, i: nat, out: seq<string>, changed: bool, a: Range, b: Range)
    requires Progress(lines, i, false, out, changed) && i < |lines| && !StartsWith(lines[i], "--- ")
    requires ParseHunk(RStrip(lines[i])) == Some((a, b))
    ensures Progress(lines, i + 1, true, out + [InverseHeader(a, b)], changed)
  {
    ProgressStep(lines, i, false, out, changed, ReadLine(lines[i], Next(lines[i..]), false));
  }

  lemma StepOutside(lines: seq<string>, i: nat, out: seq<string>, changed: bool)
    requires Progress(lines, i, false, out, changed) && i < |lines| && !StartsWith(lines[i], "--- ")
    requires ParseHunk(RStrip(lines[i])).None?
    ensures Progress(lines, i + 1, false, out + [lines[i]], changed)
  {
    ProgressStep(lines, i, false, out, changed, ReadLine(lines[i], Next(lines[i..]), false));
  }

  /** How a line inside a hunk is printed. */
  function Flipped(content: string): string {
    if StartsWith(RStrip(content), "+") then "-" + content[1..]
    else if StartsWith(RStrip(content), "-") then "+" + content[1..]
    else content
  }

  lemma StepBody(lines: seq<string>, i: nat, out: seq<string>, changed: bool)
    requires Progress(lines, i, true, out, changed) && i < |lines|
    requires !StartsWith(lines[i], "--- ") && !StartsWith(lines[i], "+++ ") && ParseHunk(RStrip(lines[i])).None?
    ensures Progress(lines, i + 1, true, out + [Flipped(lines[i])], changed || StartsWith(RStrip(lines[i]), "+") || StartsWith(RStrip(lines[i]), "-"))
  {
    ProgressStep(lines, i, true, out, changed, ReadLine(lines[i], Next(lines[i..]), true));
  }

  lemma ProgressDone(patch: string, lines: seq<string>, inside: bool, out: seq<string>, changed: bool)
    requires lines == SplitLines(patch) && Progress(lines, |lines|, inside, out, changed)
    ensures Revert(patch) == Ok(if changed then Join(out) else "")
  {
    assert lines[|lines|..] == [] && out + [] == out;
  }

  lemma MalformedRevert(patch: string, i: nat)
    requires i < |SplitLines(patch)| && LacksPartner(SplitLines(patch), i)
    ensures Revert(patch) == Err(MALFORMED)
  {
  }

  lemma ProgressStart(lines: seq<string>)
    ensures Progress(lines, 0, false, [], false)
  {
    assert [] + Scan(lines, false).out == Scan(lines, false).out;
  }

  method GenerateRevertPatch(patch: string) returns (r: Result<string>)
    ensures r == Revert(patch)
  {
    hide Scan, ReadLine, ParseHunk, Revert;
    if Blank(patch) {
      BlankRevert(patch);
      return Ok("");
    }
    var out: seq<string> := [];
    var changed := false;
    var lines := SplitLines(patch);
    var i := 0;
    ProgressStart(lines);
    while i < |lines|
      invariant Progress(lines, i, false, out, changed)
    {
      var line := lines[i];
      if StartsWith(line, "--- ") {
        if !(i + 1 < |lines| && StartsWith(lines[i + 1], "+++ ")) {
          assert LacksPartner(lines, i);
          MalformedRevert(patch, i);
          return Err(MALFORMED);
        }
        StepHeader(lines, i, out, changed);
        out := out + ["--- " + lines[i + 1][4..], "+++ " + line[4..]];
        i := i + 2;
        continue;
      }
      var hunk := ParseHunk(RStrip(line));
      if hunk.Some? {
        var (a, b) := hunk.value;
        StepHunk(lines, i, out, changed, a, b);
        var oldLen := if a.len.Some? then a.len.value else "1";
        var newLen := if b.len.Some? then b.len.value else "1";
        out := out + ["@@ -" + b.start + "," + newLen + " +" + a.start + "," + oldLen + " @@\n"];
        i := i + 1;
        while i < |lines|
          invariant Progress(lines, i, true, out, changed)
        {
          var content := lines[i];
          if ParseHunk(RStrip(content)).Some? || StartsWith(content, "--- ") || StartsWith(content, "+++ ") {
            break;
          }
          StepBody(lines, i, out, changed);
          var stripped := RStrip(content);
          assert Flipped(content) == if StartsWith(stripped, "+") then "-" + content[1..] else if StartsWith(stripped, "-") then "+" + content[1..] else content;
          if StartsWith(stripped, "+") {
            out := out + ["-" + content[1..]];
            changed := true;
          } else if StartsWith(stripped, "-") {
            out := out + ["+" + content[1..]];
            changed := true;
          } else {
            out := out + [content];
          }
          i := i + 1;
        }
        ScanStop(lines[i..]);
        continue;
      }
      StepOutside(lines, i, out, changed);
      out := out + [line];
      i := i + 1;
    }
    ProgressDone(patch, lines, false, out, changed);
    if !changed {
      return Ok("");
    }
    return Ok(Join(out));
  }

  // ---------------------------------------------------------------- headers read back

  predicate RangeOk(r: Range) {
    IsNumeral(r.start) && (r.len.Some? ==> IsNumeral(r.len.value))
  }

  lemma {:induction false} DigitRunOf(digits: string, rest: string)
    requires forall i :: 0 <= i < |digits| ==> IsDigit(digits[i])
    requires rest == "" || !IsDigit(rest[0])
    ensures DigitRun(digits + rest) == |digits|
  {
    if digits == "" {
      assert digits + rest == rest;
    } else {
      DigitRunOf(digits[1..], rest);
      assert (digits + rest)[1..] == digits[1..] + rest;
    }
  }

  lemma ParsePrintRange(r: Range, rest: string)
    requires RangeOk(r) && rest != "" && rest[0] == ' '
    ensures ParseRange(PrintRange(r) + rest) == Some(Parsed(r, rest))
  {
    var s := PrintRange(r) + rest;
    var n := |r.start|;
    if r.len.Some? {
      var tail := r.len.value + rest;
      assert s == r.start + ("," + tail);
      DigitRunOf(r.start, "," + tail);
      DigitRunOf(r.len.value, rest);
      assert s[..n] == r.start && s[n + 1..] == tail;
      assert tail[..|r.len.value|] == r.len.value && tail[|r.len.value|..] == rest;
    } else {
      assert s == r.start + rest;
      DigitRunOf(r.start, rest);
      assert s[..n] == r.start && s[n..] == rest;
    }
  }

  lemma ParsePrinted(a: Range, b: Range, tail: string)
    requires RangeOk(a) && RangeOk(b) && StartsWith(tail, " @@")
    ensures ReadHeader("@@ -" + (PrintRange(a) + (" +" + (PrintRange(b) + tail)))) == Some(Header(a, b, tail[3..]))
  {
    var mid := " +" + (PrintRange(b) + tail);
    var line := "@@ -" + (PrintRange(a) + mid);
    assert line[4..] == PrintRange(a) + mid;
    assert mid[2..] == PrintRange(b) + tail;
    ParsePrintRange(a, mid);
    ParsePrintRange(b, tail);
  }

  lemma Regroup(p: string, a: string, q: string, b: string, r: string, t: string)
    ensures p + a + q + b + r + t == p + (a + (q + (b + (r + t))))
  {
    calc {
      p + a + q + b + r + t;
      p + a + q + b + (r + t);
      p + a + q + (b + (r + t));
      p + a + (q + (b + (r + t)));
      p + (a + (q + (b + (r + t))));
    }
  }

  /** A printed hunk header is read back, whatever section text follows it. */
  lemma ParsePrintHeader(h: Hunk)
    requires RangeOk(h.source) && RangeOk(h.target)
    ensures ParseHunk(RStrip(PrintHeader(h))) == Some((h.source, h.target))
    ensures ReadHeader(PrintHeader(h)) == Some(Header(h.source, h.target, h.section))
  {
    hide ReadHeader;
    var a, b := PrintRange(h.source), PrintRange(h.target);
    StripHeader(h);
    ParsePrinted(h.source, h.target, " @@" + RStrip(h.section));
    Regroup("@@ -", a, " +", b, " @@", h.section);
    ParsePrinted(h.source, h.target, " @@" + h.section);
    assert (" @@" + h.section)[3..] == h.section;
  }

  lemma StripHeader(h: Hunk)
    ensures var a, b := PrintRange(h.source), PrintRange(h.target);
            RStrip(PrintHeader(h)) == "@@ -" + (a + (" +" + (b + (" @@" + RStrip(h.section)))))
  {
    var a, b := PrintRange(h.source), PrintRange(h.target);
    RStripAppend("@@ -" + a + " +" + b + " @@", h.section);
    Regroup("@@ -", a, " +", b, " @@", RStrip(h.section));
  }

  /** The emitted header is the printed header of the reversed hunk. */
  lemma InverseHeaderIsPrinted(h: Hunk)
    ensures InverseHeader(h.source, h.target) == PrintHeader(ReverseHunk(h))
  {
    var x, y := h.target.start, LengthText(h.target);
    var u, v := h.source.start, LengthText(h.source);
    HeaderPieces("@@ -", x, ",", y, " +", u, v, " @@", "\n");
    assert " @@" + "\n" == " @@\n";
  }

  lemma HeaderPieces(p: string, x: string, c: string, y: string, q: string, u: string, v: string, r: string, n: string)
    ensures p + x + c + y + q + u + c + v + (r + n) == p + (x + (c + y)) + q + (u + (c + v)) + r + n
  {
    calc {
      p + x + c + y + q + u + c + v + (r + n);
      { assert p + x + c + y == p + (x + (c + y)); }
      p + (x + (c + y)) + q + u + c + v + (r + n);
      { var w := p + (x + (c + y)) + q; assert w + u + c + v == w + (u + (c + v)); }
      p + (x + (c + y)) + q + (u + (c + v)) + (r + n);
      { var w := p + (x + (c + y)) + q + (u + (c + v)); assert w + (r + n) == w + r + n; }
      p + (x + (c + y)) + q + (u + (c + v)) + r + n;
    }
  }

  lemma NumeralsOnly(line: string)
    requires ParseHunk(line).Some?
    ensures RangeOk(ParseHunk(line).value.0) && RangeOk(ParseHunk(line).value.1)
  {
    var a := ParseRange(line[4..]).value;
    ParsedRangeOk(line[4..]);
    ParsedRangeOk(a.rest[2..]);
  }

  lemma {:induction false} DigitRunDigits(s: string)
    ensures forall i :: 0 <= i < DigitRun(s) ==> IsDigit(s[i])
    decreases |s|
  {
    if s != "" && IsDigit(s[0]) {
      DigitRunDigits(s[1..]);
      assert forall i :: 0 < i < DigitRun(s) ==> s[i] == s[1..][i - 1];
    }
  }

  lemma ParsedRangeOk(s: string)
    requires ParseRange(s).Some?
    ensures RangeOk(ParseRange(s).value.range)
    ensures s == PrintRange(ParseRange(s).value.range) + ParseRange(s).value.rest
  {
    var n := DigitRun(s);
    DigitRunDigits(s);
    if n < |s| && s[n] == ',' {
      var tail := s[n + 1..];
      DigitRunDigits(tail);
      CommaRange(s, n, DigitRun(tail));
    } else {
      assert s == s[..n] + s[n..];
    }
  }

  lemma CommaRange(s: string, n: nat, m: nat)
    requires n < |s| && s[n] == ',' && m <= |s| - n - 1
    ensures var tail := s[n + 1..]; s == s[..n] + ("," + tail[..m]) + tail[m..]
  {
  }
}
