/**
 Reading a unified diff as a patch tool does, by the lengths in the hunk headers: what a diff text means, independently
 of the program under study.  The reader is lossless: the diff it finds prints as the text it has read.
 */
module DiffReader {
  import opened Text
  import opened UnifiedDiff
  import opened RevertPatch
  import opened RevertReading
  import opened RevertDiff

  /** The text cut behind every "\n". */
  function CutLines(s: string): (lines: seq<string>)
    ensures Join(lines) == s
  {
    if s == "" then [] else
      var n := ClosedLength(s);
      [s[..n]] + CutLines(s[n..])
  }

  function ClosedLength(s: string): (n: nat)
    requires s != ""
    ensures 0 < n <= |s|
  {
    if s[0] == '\n' || |s| == 1 then 1 else 1 + ClosedLength(s[1..])
  }

  datatype Body = Body(lines: seq<BodyLine>, rest: seq<string>)

  function WithoutEnd(line: string): string {
    if EndsLine(line) then line[..|line| - 1] else line
  }

  function EndOf(line: string): string {
    if EndsLine(line) then "\n" else ""
  }

  function ReadMark(c: char): Option<Mark> {
    if c == ' ' then Some(Keep) else if c == '-' then Some(Drop) else if c == '+' then Some(Add) else None
  }

  /** Whether a marker follows the first line. */
  predicate Marked(lines: seq<string>) {
    |lines| > 1 && StartsWith(lines[1], "\\")
  }

  function Taken(lines: seq<string>): nat {
    if Marked(lines) then 2 else 1
  }

  predicate HasMark(lines: seq<string>) {
    lines != [] && lines[0] != "" && ReadMark(lines[0][0]).Some?
  }

  /** The first line of a hunk, with the marker that may follow it. */
  function HeadLine(lines: seq<string>): BodyLine
    requires HasMark(lines)
  {
    var tail := lines[0][1..];
    BodyLine(ReadMark(lines[0][0]).value, WithoutEnd(tail), EndOf(tail), if Marked(lines) then lines[1] else "")
  }

  function OldCount(b: BodyLine): int { if b.mark == Add then 0 else 1 }

  function NewCount(b: BodyLine): int { if b.mark == Drop then 0 else 1 }

  /** Lines of a hunk until `olds` lines of the old side and `news` lines of the new side have been read. */
  function ReadBody(lines: seq<string>, olds: int, news: int): Option<Body>
    decreases |lines|
  {
    if olds <= 0 && news <= 0 then (if olds == 0 && news == 0 then Some(Body([], lines)) else None)
    else if !HasMark(lines) then None
    else
      var b := HeadLine(lines);
      var more := ReadBody(lines[Taken(lines)..], olds - OldCount(b), news - NewCount(b));
      if more.None? then None else Some(Body([b] + more.value.lines, more.value.rest))
  }

  datatype Hunks = Hunks(hunks: seq<Hunk>, rest: seq<string>)

  /** Hunks as long as the next line is a hunk header. */
  function ReadHunks(lines: seq<string>): (r: Option<Hunks>)
    ensures r.Some? ==> |r.value.rest| <= |lines|
    decreases |lines|
  {
    if lines == [] || ReadHeader(lines[0]).None? then Some(Hunks([], lines))
    else
      var h := ReadHeader(lines[0]).value;
      var body := ReadBody(lines[1..], Length(h.source), Length(h.target));
      if body.None? || |body.value.rest| >= |lines| then None
      else
        var more := ReadHunks(body.value.rest);
        if more.None? then None
        else Some(Hunks([Hunk(h.source, h.target, h.section, body.value.lines)] + more.value.hunks, more.value.rest))
  }

  /** Sections, each after its preamble; nothing may follow the last one. */
  function ReadDiff(lines: seq<string>, preamble: seq<string>): Option<Diff>
    decreases |lines|
  {
    if lines == [] then (if preamble == [] then Some([]) else None)
    else if StartsWith(lines[0], "--- ") then
      if |lines| == 1 || !StartsWith(lines[1], "+++ ") then None
      else
        var hunks := ReadHunks(lines[2..]);
        if hunks.None? then None
        else
          var more := ReadDiff(hunks.value.rest, []);
          if more.None? then None
          else Some([FileDiff(preamble, lines[0][4..], lines[1][4..], hunks.value.hunks)] + more.value)
    else ReadDiff(lines[1..], preamble + [lines[0]])
  }

  function Parse(text: string): Option<Diff> {
    ReadDiff(CutLines(text), [])
  }

  /** Applying a diff given as text. */
  function ApplyText(text: string, t: Tree): Option<Tree> {
    var d := Parse(text);
    if d.None? then None else ApplyDiff(d.value, t)
  }

  // ---------------------------------------------------------------- printed diffs are read back

  /** The header lengths are those of the two sides. */
  predicate LengthsFit(d: Diff) {
    forall f :: f in d ==> HunksFit(f.hunks)
  }

  predicate HunksFit(hs: seq<Hunk>) {
    forall h :: h in hs ==> Length(h.source) == |OldSide(h.body)| && Length(h.target) == |NewSide(h.body)|
  }

  lemma {:induction false} CutClosed(line: string, rest: string)
    requires ClosedLine(line)
    ensures ClosedLength(line + rest) == |line|
    decreases |line|
  {
    if |line| > 1 {
      assert line[0] == line[..|line| - 1][0];
      assert line[1..][..|line| - 2] == line[..|line| - 1][1..];
      assert (line + rest)[1..] == line[1..] + rest;
      CutClosed(line[1..], rest);
    }
  }

  lemma {:induction false} CutOpen(line: string)
    requires line != "" && '\n' !in line
    ensures ClosedLength(line) == |line|
    decreases |line|
  {
    if |line| > 1 {
      CutOpen(line[1..]);
    }
  }

  lemma {:induction false} CutJoin(lines: seq<string>)
    requires ClosedLines(lines)
    ensures CutLines(Join(lines)) == lines
    decreases |lines|
  {
    if lines != [] {
      var line, rest := lines[0], Join(lines[1..]);
      if ClosedLine(line) {
        CutClosed(line, rest);
      } else {
        assert lines[1..] == [] && line + rest == line;
        CutOpen(line);
      }
      assert (line + rest)[..|line|] == line && (line + rest)[|line|..] == rest;
      assert forall i :: 0 <= i < |lines[1..]| ==> lines[1..][i] == lines[i + 1];
      CutJoin(lines[1..]);
    }
  }

  /** What cannot be taken for a "\ No newline" marker. */
  predicate NoMarkerNext(rest: seq<string>) {
    rest != [] ==> !StartsWith(rest[0], "\\")
  }

  /** Reading one more line in front. */
  lemma ReadStep(lines: seq<string>, olds: int, news: int)
    requires HasMark(lines) && (olds > 0 || news > 0)
    ensures var b := HeadLine(lines);
            var more := ReadBody(lines[Taken(lines)..], olds - OldCount(b), news - NewCount(b));
            ReadBody(lines, olds, news) == if more.None? then None else Some(Body([b] + more.value.lines, more.value.rest))
  {
  }

  lemma {:induction false} ReadPrintedBody(body: seq<BodyLine>, rest: seq<string>)
    requires (forall b :: b in body ==> BodyLineOk(b)) && NoMarkerNext(rest)
    ensures ReadBody(PrintBody(body) + rest, |OldSide(body)|, |NewSide(body)|) == Some(Body(body, rest))
    decreases |body|
  {
    if body == [] {
      assert PrintBody(body) + rest == rest;
    } else {
      hide HeadLine, Taken, HasMark, BodyLineOk, PrintLine, OldSide, NewSide, NoMarkerNext, OldCount, NewCount, ReadBody;
      var b, tail := body[0], body[1..];
      var more := PrintBody(tail) + rest;
      assert BodyLineOk(b);
      Regroup3(PrintLine(b), PrintBody(tail), rest);
      ReadPrintedBody(tail, rest);
      BodyStart(tail, rest);
      ReadPrintedLine(b, more);
      SideCounts(body);
      ReadStep(PrintLine(b) + more, |OldSide(body)|, |NewSide(body)|);
      assert [b] + tail == body;
    }
  }

  lemma SideCounts(body: seq<BodyLine>)
    requires body != []
    ensures |OldSide(body)| == OldCount(body[0]) + |OldSide(body[1..])|
    ensures |NewSide(body)| == NewCount(body[0]) + |NewSide(body[1..])|
    ensures OldCount(body[0]) + NewCount(body[0]) > 0
  {
  }

  lemma BodyStart(body: seq<BodyLine>, rest: seq<string>)
    requires NoMarkerNext(rest)
    ensures NoMarkerNext(PrintBody(body) + rest)
  {
    if body == [] {
      assert PrintBody(body) + rest == rest;
    } else {
      assert (PrintBody(body) + rest)[0] == PrintLine(body[0])[0];
      assert PrintLine(body[0])[0][0] == MarkChar(body[0].mark)[0];
    }
  }

  lemma ReadPrintedLine(b: BodyLine, more: seq<string>)
    requires BodyLineOk(b) && NoMarkerNext(more)
    ensures var lines := PrintLine(b) + more;
            HasMark(lines) && HeadLine(lines) == b && Taken(lines) <= |lines| && lines[Taken(lines)..] == more
  {
    var lines := PrintLine(b) + more;
    var tail := b.text + b.eol;
    assert lines[0] == MarkChar(b.mark) + tail by { ConcatAssoc(MarkChar(b.mark), b.text, b.eol); }
    assert lines[0][1..] == tail && ReadMark(lines[0][0]) == Some(b.mark);
    TailBack(b.text, b.eol);
    if b.marker == "" {
      assert lines[1..] == more;
    } else {
      assert lines[1] == b.marker && lines[2..] == more;
      assert StartsWith(b.marker, "\\");
    }
    hide PrintLine;
  }

  lemma TailBack(text: string, eol: string)
    requires '\n' !in text && (eol == "" || eol == "\n")
    ensures WithoutEnd(text + eol) == text && EndOf(text + eol) == eol
  {
    if eol == "" {
      assert text + eol == text;
      assert text != "" ==> text[|text| - 1] in text;
    }
  }

  /** Neither a hunk header nor a marker: where the hunks of a section end. */
  predicate EndsHunks(rest: seq<string>) {
    NoMarkerNext(rest) && (rest != [] ==> ReadHeader(rest[0]).None?)
  }

  /** Reading one more hunk in front. */
  lemma ReadHunkStep(h: Hunk, lines: seq<string>, rest: seq<string>)
    requires ReadHeader(PrintHeader(h)) == Some(Header(h.source, h.target, h.section)) && |rest| <= |lines|
    requires ReadBody(lines, Length(h.source), Length(h.target)) == Some(Body(h.body, rest))
    ensures var more := ReadHunks(rest);
            ReadHunks([PrintHeader(h)] + lines) ==
            if more.None? then None else Some(Hunks([h] + more.value.hunks, more.value.rest))
  {
    hide PrintHeader, ReadHeader, ReadBody, Length;
    var all := [PrintHeader(h)] + lines;
    assert all[0] == PrintHeader(h) && all[1..] == lines;
  }

  lemma {:induction false} ReadPrintedHunks(hs: seq<Hunk>, rest: seq<string>)
    requires (forall h :: h in hs ==> HunkOk(h)) && HunksFit(hs) && EndsHunks(rest)
    ensures ReadHunks(PrintHunks(hs) + rest) == Some(Hunks(hs, rest))
    decreases |hs|
  {
    if hs == [] {
      assert PrintHunks(hs) + rest == rest;
    } else {
      hide PrintHeader, PrintBody, ReadHeader, ReadBody, Length, OldSide, NewSide, ReadHunks, PrintHunks, RangeOk;
      var h, tail := hs[0], hs[1..];
      var more := PrintHunks(tail) + rest;
      assert h in hs && HunkOk(h);
      assert [h] + tail == hs;
      HunkPrinted(h, tail, rest);
      ReadPrintedHunks(tail, rest);
      ParsePrintHeader(h);
      HunksStart(tail, rest);
      ReadPrintedBody(h.body, more);
      ReadHunkStep(h, PrintBody(h.body) + more, more);
    }
  }

  lemma HunksStart(hs: seq<Hunk>, rest: seq<string>)
    requires NoMarkerNext(rest)
    ensures NoMarkerNext(PrintHunks(hs) + rest)
  {
    if hs == [] {
      assert PrintHunks(hs) + rest == rest;
    } else {
      var line := PrintHeader(hs[0]);
      assert (PrintHunks(hs) + rest)[0] == line;
      assert line[0] == '@';
    }
  }

  lemma {:induction false} ReadPreamble(lines: seq<string>, rest: seq<string>, before: seq<string>)
    requires forall line :: line in lines ==> PreambleLineOk(line)
    ensures ReadDiff(lines + rest, before) == ReadDiff(rest, before + lines)
    decreases |lines|
  {
    if lines == [] {
      assert lines + rest == rest && before + lines == before;
    } else {
      assert PreambleLineOk(lines[0]);
      assert (lines + rest)[0] == lines[0] && (lines + rest)[1..] == lines[1..] + rest;
      ReadPreamble(lines[1..], rest, before + [lines[0]]);
      assert before + [lines[0]] + lines[1..] == before + lines;
    }
  }

  lemma DiffStart(d: Diff)
    requires forall f :: f in d ==> FileOk(f)
    ensures EndsHunks(PrintDiff(d))
  {
    if d != [] {
      var f := d[0];
      assert FileOk(f);
      var line := PrintDiff(d)[0];
      if f.preamble != [] {
        assert line == f.preamble[0] && PreambleLineOk(line);
      } else {
        assert line == "--- " + f.oldName;
        assert line[0] == '-';
        OtherStart(line, "@@ -");
      }
    }
  }

  lemma ReadPrintedFile(f: FileDiff, rest: seq<string>, more: Diff)
    requires FileOk(f) && HunksFit(f.hunks) && EndsHunks(rest) && ReadDiff(rest, []) == Some(more)
    ensures ReadDiff(PrintFile(f) + rest, []) == Some([f] + more)
  {
    hide HunkOk, PreambleLineOk, NameOk, EndsHunks, HunksFit, ReadHunks, PrintHunks;
    var a, b := "--- " + f.oldName, "+++ " + f.newName;
    var lines := [a, b] + (PrintHunks(f.hunks) + rest);
    assert PrintFile(f) + rest == f.preamble + lines;
    ReadPreamble(f.preamble, lines, []);
    assert [] + f.preamble == f.preamble;
    assert lines[0] == a && lines[1] == b && lines[2..] == PrintHunks(f.hunks) + rest;
    assert a[4..] == f.oldName && b[4..] == f.newName && StartsWith(a, "--- ") && StartsWith(b, "+++ ");
    ReadPrintedHunks(f.hunks, rest);
  }

  lemma {:induction false} ReadPrintedLines(d: Diff)
    requires (forall f :: f in d ==> FileOk(f)) && LengthsFit(d)
    ensures ReadDiff(PrintDiff(d), []) == Some(d)
    decreases |d|
  {
    if d != [] {
      hide FileOk, PrintFile, HunksFit, EndsHunks;
      assert FileOk(d[0]) && HunksFit(d[0].hunks);
      ReadPrintedLines(d[1..]);
      DiffStart(d[1..]);
      ReadPrintedFile(d[0], PrintDiff(d[1..]), d[1..]);
      assert [d[0]] + d[1..] == d;
    }
  }

  /** A well-formed diff whose lengths fit is read back from its text. */
  lemma ReadPrinted(d: Diff)
    requires WellFormed(d) && LengthsFit(d)
    ensures Parse(DiffText(d)) == Some(d)
  {
    hide FileOk, ReadDiff, PrintDiff, ClosedLines;
    CutJoin(PrintDiff(d));
    ReadPrintedLines(d);
  }

  // ---------------------------------------------------------------- what is read prints as the text

  ghost predicate Lossless(lines: seq<string>, olds: int, news: int, b: Body) {
    lines == PrintBody(b.lines) + b.rest && |OldSide(b.lines)| == olds && |NewSide(b.lines)| == news
  }

  lemma {:induction false} ReadBodyLossless(lines: seq<string>, olds: int, news: int)
    requires ReadBody(lines, olds, news).Some?
    ensures Lossless(lines, olds, news, ReadBody(lines, olds, news).value)
    decreases |lines|
  {
    hide HeadLine, Taken, HasMark, OldCount, NewCount, ReadBody, Lossless;
    if olds > 0 || news > 0 {
      ReadHasMark(lines, olds, news);
      ReadStep(lines, olds, news);
      var head, rest := HeadLine(lines), lines[Taken(lines)..];
      ReadBodyLossless(rest, olds - OldCount(head), news - NewCount(head));
      LosslessStep(lines, olds, news, ReadBody(rest, olds - OldCount(head), news - NewCount(head)).value);
    } else {
      ReadNothing(lines, olds, news);
    }
  }

  lemma LosslessStep(lines: seq<string>, olds: int, news: int, more: Body)
    requires HasMark(lines) && Taken(lines) <= |lines|
    requires var head := HeadLine(lines);
             Lossless(lines[Taken(lines)..], olds - OldCount(head), news - NewCount(head), more)
    ensures Lossless(lines, olds, news, Body([HeadLine(lines)] + more.lines, more.rest))
  {
    HeadLineLossless(lines);
    var head := HeadLine(lines);
    var all := [head] + more.lines;
    assert all[1..] == more.lines;
    SideCounts(all);
    hide HeadLine, Taken, HasMark, PrintLine, OldSide, NewSide, OldCount, NewCount;
    Regroup3(PrintLine(head), PrintBody(more.lines), more.rest);
  }

  lemma ReadNothing(lines: seq<string>, olds: int, news: int)
    requires ReadBody(lines, olds, news).Some? && olds <= 0 && news <= 0
    ensures var b := ReadBody(lines, olds, news).value;
            b == Body([], lines) && Lossless(lines, olds, news, b)
  {
  }

  lemma ReadHasMark(lines: seq<string>, olds: int, news: int)
    requires ReadBody(lines, olds, news).Some? && (olds > 0 || news > 0)
    ensures HasMark(lines) && 1 <= Taken(lines) <= |lines|
  {
  }

  lemma HeadLineLossless(lines: seq<string>)
    requires HasMark(lines)
    ensures Taken(lines) <= |lines| && lines == PrintLine(HeadLine(lines)) + lines[Taken(lines)..]
  {
    var b := HeadLine(lines);
    FirstLossless(lines);
    if Marked(lines) {
      assert lines[1] != "" && b.marker == lines[1];
      assert PrintLine(b) == [lines[0], lines[1]];
    } else {
      assert PrintLine(b) == [lines[0]];
    }
    hide HeadLine, PrintLine;
  }

  lemma FirstLossless(lines: seq<string>)
    requires HasMark(lines)
    ensures var b := HeadLine(lines); MarkChar(b.mark) + b.text + b.eol == lines[0]
  {
    var tail := lines[0][1..];
    var mark := MarkChar(ReadMark(lines[0][0]).value);
    assert tail == WithoutEnd(tail) + EndOf(tail) && lines[0] == mark + tail;
    hide Marked;
    ConcatAssoc(mark, WithoutEnd(tail), EndOf(tail));
  }

  lemma Front(s: string, p: string)
    requires StartsWith(s, p)
    ensures s == p + s[|p|..]
  {
  }

  lemma HeaderLossless(line: string)
    requires ReadHeader(line).Some?
    ensures var h := ReadHeader(line).value;
            RangeOk(h.source) && RangeOk(h.target) &&
            forall body :: line == PrintHeader(Hunk(h.source, h.target, h.section, body))
  {
    var a := ParseRange(line[4..]).value;
    var b := ParseRange(a.rest[2..]).value;
    var h := ReadHeader(line).value;
    assert h == Header(a.range, b.range, b.rest[3..]);
    ParsedRangeOk(line[4..]);
    ParsedRangeOk(a.rest[2..]);
    Front(line, "@@ -");
    Front(a.rest, " +");
    Front(b.rest, " @@");
    hide ReadHeader, ParseRange, PrintRange;
    Regroup("@@ -", PrintRange(a.range), " +", PrintRange(b.range), " @@", b.rest[3..]);
  }

  lemma {:induction false} ReadHunksLossless(lines: seq<string>)
    requires ReadHunks(lines).Some?
    ensures var r := ReadHunks(lines).value; lines == PrintHunks(r.hunks) + r.rest && HunksFit(r.hunks)
    decreases |lines|
  {
    if lines == [] || ReadHeader(lines[0]).None? {
      assert PrintHunks([]) + lines == lines;
    } else {
      hide PrintHeader, PrintBody, ReadHeader, ReadBody, Length, OldSide, NewSide, PrintHunks;
      var h := ReadHeader(lines[0]).value;
      var body := ReadBody(lines[1..], Length(h.source), Length(h.target)).value;
      var more := ReadHunks(body.rest).value;
      var hunk := Hunk(h.source, h.target, h.section, body.lines);
      HeaderLossless(lines[0]);
      ReadBodyLossless(lines[1..], Length(h.source), Length(h.target));
      ReadHunksLossless(body.rest);
      HunkPrinted(hunk, more.hunks, more.rest);
      assert lines == [lines[0]] + lines[1..];
    }
  }

  lemma HunkPrinted(h: Hunk, rest: seq<Hunk>, tail: seq<string>)
    ensures PrintHunks([h] + rest) + tail == [PrintHeader(h)] + (PrintBody(h.body) + (PrintHunks(rest) + tail))
  {
    hide PrintHeader, PrintBody;
    assert ([h] + rest)[1..] == rest;
    var a, b, c := [PrintHeader(h)], PrintBody(h.body), PrintHunks(rest);
    assert PrintHunks([h] + rest) == a + b + c;
    Regroup3(a + b, c, tail);
    Regroup3(a, b, c + tail);
  }

  lemma Regroup3(a: seq<string>, b: seq<string>, c: seq<string>)
    ensures a + b + c == a + (b + c)
  {
  }

  lemma {:induction false} ReadDiffLossless(lines: seq<string>, preamble: seq<string>)
    requires ReadDiff(lines, preamble).Some?
    ensures var d := ReadDiff(lines, preamble).value; preamble + lines == PrintDiff(d) && LengthsFit(d)
    decreases |lines|
  {
    hide PrintHunks, ReadHunks, HunksFit;
    var d := ReadDiff(lines, preamble).value;
    if lines == [] {
    } else if StartsWith(lines[0], "--- ") {
      var hunks := ReadHunks(lines[2..]).value;
      ReadHunksLossless(lines[2..]);
      ReadDiffLossless(hunks.rest, []);
      assert d[1..] == ReadDiff(hunks.rest, []).value;
      var f := d[0];
      assert lines[0] == "--- " + f.oldName && lines[1] == "+++ " + f.newName;
      assert lines == [lines[0], lines[1]] + lines[2..];
      assert [] + hunks.rest == hunks.rest;
      assert PrintDiff(d) == preamble + [lines[0], lines[1]] + PrintHunks(f.hunks) + PrintDiff(d[1..]);
    } else {
      ReadDiffLossless(lines[1..], preamble + [lines[0]]);
      assert preamble + [lines[0]] + lines[1..] == preamble + lines;
    }
  }

  /** Whatever text the reader accepts, the diff it finds prints as that text. */
  lemma ParseLossless(text: string)
    requires Parse(text).Some?
    ensures DiffText(Parse(text).value) == text && LengthsFit(Parse(text).value)
  {
    hide ReadDiff, PrintDiff, LengthsFit;
    ReadDiffLossless(CutLines(text), []);
    assert [] + CutLines(text) == CutLines(text);
  }

  // ---------------------------------------------------------------- undo

  lemma {:induction false} AppliedFits(hs: seq<Hunk>, f: seq<string>, at: nat, to: nat)
    requires at <= |f| && ApplyHunks(hs, f, at, to).Some?
    ensures HunksFit(hs)
    decreases |hs|
  {
    if hs != [] {
      hide Length, Index, OldSide, NewSide;
      AppliedFits(hs[1..], f, Index(hs[0].source) + Length(hs[0].source), Index(hs[0].target) + Length(hs[0].target));
    }
  }

  lemma {:induction false} ReverseFits(hs: seq<Hunk>)
    requires HunksFit(hs)
    ensures HunksFit(ReverseHunks(hs))
    decreases |hs|
  {
    if hs != [] {
      hide Length, Index, OldSide, NewSide, FlipBody, Explicit;
      var h := hs[0];
      assert h in hs;
      ReverseFits(hs[1..]);
      FlipSides(h.body);
      ExplicitMeaning(h.source);
      ExplicitMeaning(h.target);
      assert ReverseHunks(hs) == [ReverseHunk(h)] + ReverseHunks(hs[1..]);
    }
  }

  lemma {:induction false} ReverseLengthsFit(d: Diff)
    requires LengthsFit(d)
    ensures LengthsFit(Reverse(d))
    decreases |d|
  {
    if d != [] {
      hide HunksFit, ReverseHunks;
      assert d[0] in d;
      ReverseLengthsFit(d[1..]);
      ReverseFits(d[0].hunks);
      assert Reverse(d) == [ReverseFile(d[0])] + Reverse(d[1..]);
    }
  }

  /**
   Real undo, on texts: if a diff text turns tree `t` into `t'`, the text the program generates from it turns `t'` back
   into `t`, for every well-formed diff with a change that is read as meant and has one section per file.
   */
  lemma RevertUndoes(patch: string, t: Tree, t': Tree)
    requires ApplyText(patch, t) == Some(t')
    requires var d := Parse(patch).value; WellFormed(d) && ReadAsMeant(d) && HasChange(d) && OneSectionPerFile(d)
    ensures Revert(patch).Ok? && ApplyText(Revert(patch).value, t') == Some(t)
  {
    hide Parse, WellFormed, ReadAsMeant, HasChange, Reverse, Revert, DiffText, LengthsFit, ApplyDiff, OneSectionPerFile;
    var d := Parse(patch).value;
    ParseLossless(patch);
    RevertPrinted(d);
    ReverseWellFormed(d);
    ReverseLengthsFit(d);
    ReadPrinted(Reverse(d));
    UndoDiff(d, t, t');
  }
}
