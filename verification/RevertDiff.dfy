/** The results about whole diffs: when the generated patch is the reversed diff, and what reverting twice gives. */
module RevertDiff {
  import opened Text
  import opened UnifiedDiff
  import opened RevertPatch
  import opened RevertReading
  import opened RevertExact

  // ---------------------------------------------------------------- a diff as a row of items

  function LineItem(b: BodyLine): Item {
    if b.mark == Keep then Plain(" " + b.text + b.eol) else Flip(MarkChar(b.mark)[0], b.text + b.eol)
  }

  function BodyItems(body: seq<BodyLine>): seq<Item> {
    if body == [] then []
    else [LineItem(body[0])] + (if body[0].marker == "" then [] else [Plain(body[0].marker)]) + BodyItems(body[1..])
  }

  function HunkItems(hs: seq<Hunk>): seq<Item> {
    if hs == [] then []
    else [Head(hs[0].source, hs[0].target, hs[0].section)] + BodyItems(hs[0].body) + HunkItems(hs[1..])
  }

  function PlainItems(lines: seq<string>): seq<Item> {
    if lines == [] then [] else [Plain(lines[0])] + PlainItems(lines[1..])
  }

  function FileItems(f: FileDiff): seq<Item> {
    PlainItems(f.preamble) + [Names(f.oldName, f.newName)] + HunkItems(f.hunks)
  }

  function Items(d: Diff): seq<Item> {
    if d == [] then [] else FileItems(d[0]) + Items(d[1..])
  }

  // ---------------------------------------------------------------- well-formed diffs

  /** `line` has no "\n" but perhaps at its end. */
  predicate Single(line: string) {
    line != "" && '\n' !in line[..|line| - 1]
  }

  predicate BodyLineOk(b: BodyLine) {
    '\n' !in b.text && (b.eol == "" || b.eol == "\n") && (b.marker == "" || (Single(b.marker) && b.marker[0] == '\\'))
  }

  predicate HunkOk(h: Hunk) {
    RangeOk(h.source) && RangeOk(h.target) && ClosedLine(h.section) && forall b :: b in h.body ==> BodyLineOk(b)
  }

  /** A line before a section ("diff --git ...", "index ...") that is not itself part of a section. */
  predicate PreambleLineOk(line: string) {
    Single(line) && !StartsWith(line, "--- ") && !StartsWith(line, "+++ ") && line[0] != '\\' && ReadHeader(line).None?
  }

  predicate FileOk(f: FileDiff) {
    (forall line :: line in f.preamble ==> PreambleLineOk(line)) && NameOk(f.oldName) && NameOk(f.newName) &&
    forall h :: h in f.hunks ==> HunkOk(h)
  }

  /**
   The syntax of a unified diff: every line ends at its only "\n", except that the last one may stop short of it.  The
   lines of hunks may hold any other characters.  File names hold nothing that `str.splitlines` takes for a line end.
   */
  predicate WellFormed(d: Diff) {
    (forall f :: f in d ==> FileOk(f)) && ClosedLines(PrintDiff(d))
  }

  /**
   The program takes every piece of the diff for what it is: `Mode` passes.  It stops at a dropped "-- " or an added
   "++ " line, at a cut inside a hunk header, and at a piece behind a cut that reads as a change or as a header.
   */
  predicate ReadAsMeant(d: Diff) {
    Mode(Items(d), false).Some?
  }

  // ---------------------------------------------------------------- items and lines

  function ItemLines(it: Item): seq<string> {
    match it
    case Names(x, y) => ["--- " + x, "+++ " + y]
    case _ => [ItemText(it)]
  }

  function ItemsLines(items: seq<Item>): seq<string> {
    if items == [] then [] else ItemLines(items[0]) + ItemsLines(items[1..])
  }

  lemma {:induction false} ItemsJoin(items: seq<Item>)
    ensures ItemsText(items) == Join(ItemsLines(items))
    decreases |items|
  {
    if items != [] {
      hide ItemText, Join;
      var it := items[0];
      ItemsJoin(items[1..]);
      JoinAppend(ItemLines(it), ItemsLines(items[1..]));
      if it.Names? {
        NamesText(it.oldName, it.newName);
        JoinTwo("--- " + it.oldName, "+++ " + it.newName);
      } else {
        JoinOne(ItemText(it));
      }
    } else {
      assert Join([]) == "";
    }
  }

  lemma NamesText(x: string, y: string)
    ensures ItemText(Names(x, y)) == "--- " + x + ("+++ " + y)
  {
  }

  /** The lines and the changes of items in a row. */
  lemma {:induction false} Concat(a: seq<Item>, b: seq<Item>)
    ensures ItemsLines(a + b) == ItemsLines(a) + ItemsLines(b)
    ensures Changes(a + b) == (Changes(a) || Changes(b))
    decreases |a|
  {
    if a == [] {
      assert a + b == b;
    } else {
      hide ItemLines;
      assert (a + b)[1..] == a[1..] + b;
      Concat(a[1..], b);
    }
  }

  lemma OneItem(it: Item)
    ensures ItemsLines([it]) == ItemLines(it) && Changes([it]) == it.Flip?
  {
    assert [it][1..] == [];
  }

  lemma {:induction false} BodyLines(body: seq<BodyLine>)
    ensures ItemsLines(BodyItems(body)) == PrintBody(body) && Changes(BodyItems(body)) == BodyChanges(body)
    decreases |body|
  {
    if body != [] {
      hide ItemsLines, Changes, BodyChanges, PrintLine;
      var b := body[0];
      var more: seq<Item> := if b.marker == "" then [] else [Plain(b.marker)];
      BodyLines(body[1..]);
      Concat([LineItem(b)] + more, BodyItems(body[1..]));
      LineLines(b);
      ChangesCons(body);
    } else {
      NoItems();
    }
  }

  lemma ChangesCons(body: seq<BodyLine>)
    requires body != []
    ensures BodyChanges(body) == (body[0].mark != Keep || BodyChanges(body[1..]))
  {
    if BodyChanges(body[1..]) {
      var i :| 0 <= i < |body[1..]| && body[1..][i].mark != Keep;
      assert body[i + 1].mark != Keep;
    }
    if BodyChanges(body) && body[0].mark == Keep {
      var i :| 0 <= i < |body| && body[i].mark != Keep;
      assert body[1..][i - 1].mark != Keep;
    }
  }

  lemma LineLines(b: BodyLine)
    ensures var more: seq<Item> := if b.marker == "" then [] else [Plain(b.marker)];
            ItemsLines([LineItem(b)] + more) == PrintLine(b) && Changes([LineItem(b)] + more) == (b.mark != Keep)
  {
    ConcatAssoc(MarkChar(b.mark), b.text, b.eol);
    OneItem(LineItem(b));
    OneItem(Plain(b.marker));
    Concat([LineItem(b)], if b.marker == "" then [] else [Plain(b.marker)]);
  }

  lemma NoItems()
    ensures ItemsLines([]) == [] && !Changes([])
  {
  }

  lemma {:induction false} HunksLines(hs: seq<Hunk>)
    ensures ItemsLines(HunkItems(hs)) == PrintHunks(hs) && Changes(HunkItems(hs)) == HunksChange(hs)
    decreases |hs|
  {
    hide ItemsLines, Changes, PrintHeader, PrintBody, BodyItems, HunksChange, BodyChanges;
    HunksChangeCons(hs);
    if hs == [] {
      NoItems();
    } else {
      var h := hs[0];
      var head := Head(h.source, h.target, h.section);
      HunksLines(hs[1..]);
      BodyLines(h.body);
      OneItem(head);
      Concat([head] + BodyItems(h.body), HunkItems(hs[1..]));
      Concat([head], BodyItems(h.body));
      assert ItemLines(head) == [PrintHeader(h)] by { HeadText(h); }
    }
  }

  lemma HeadText(h: Hunk)
    ensures ItemText(Head(h.source, h.target, h.section)) == PrintHeader(h)
  {
  }

  lemma HunksChangeCons(hs: seq<Hunk>)
    ensures HunksChange(hs) == (hs != [] && (BodyChanges(hs[0].body) || HunksChange(hs[1..])))
  {
    if hs != [] && HunksChange(hs[1..]) {
      var i :| 0 <= i < |hs[1..]| && BodyChanges(hs[1..][i].body);
      assert BodyChanges(hs[i + 1].body);
    }
    if HunksChange(hs) && !BodyChanges(hs[0].body) {
      var i :| 0 <= i < |hs| && BodyChanges(hs[i].body);
      assert BodyChanges(hs[1..][i - 1].body);
    }
  }

  lemma {:induction false} PlainLines(lines: seq<string>)
    ensures ItemsLines(PlainItems(lines)) == lines && !Changes(PlainItems(lines))
    decreases |lines|
  {
    if lines != [] {
      PlainLines(lines[1..]);
      assert PlainItems(lines)[1..] == PlainItems(lines[1..]);
    }
  }

  lemma FileLines(f: FileDiff)
    ensures ItemsLines(FileItems(f)) == PrintFile(f) && Changes(FileItems(f)) == HunksChange(f.hunks)
  {
    hide ItemsLines, Changes, HunkItems, PlainItems, HunksChange;
    var names := Names(f.oldName, f.newName);
    PlainLines(f.preamble);
    HunksLines(f.hunks);
    OneItem(names);
    Concat(PlainItems(f.preamble) + [names], HunkItems(f.hunks));
    Concat(PlainItems(f.preamble), [names]);
  }

  lemma {:induction false} DiffLines(d: Diff)
    ensures ItemsLines(Items(d)) == PrintDiff(d) && Changes(Items(d)) == HasChange(d)
    decreases |d|
  {
    hide ItemsLines, Changes, FileItems, PrintFile, HunksChange, HasChange;
    HasChangeCons(d);
    if d == [] {
      NoItems();
    } else {
      DiffLines(d[1..]);
      FileLines(d[0]);
      Concat(FileItems(d[0]), Items(d[1..]));
    }
  }

  lemma HasChangeCons(d: Diff)
    ensures HasChange(d) == (d != [] && (HunksChange(d[0].hunks) || HasChange(d[1..])))
  {
    if d != [] && HasChange(d[1..]) {
      var i :| 0 <= i < |d[1..]| && HunksChange(d[1..][i].hunks);
      assert HunksChange(d[i + 1].hunks);
    }
    if HasChange(d) && !HunksChange(d[0].hunks) {
      var i :| 0 <= i < |d| && HunksChange(d[i].hunks);
      assert HunksChange(d[1..][i - 1].hunks);
    }
  }

  lemma DiffItems(d: Diff)
    ensures ItemsText(Items(d)) == DiffText(d) && Changes(Items(d)) == HasChange(d)
  {
    hide Items, ItemsText, ItemsLines, PrintDiff, HasChange;
    DiffLines(d);
    ItemsJoin(Items(d));
  }

  // ---------------------------------------------------------------- the items of a well-formed diff

  predicate AllOk(items: seq<Item>) {
    forall it :: it in items ==> ItemOk(it)
  }

  /** Items whose lines are closed, and lines that are closed if their items are. */
  lemma {:induction false} ClosedItems(items: seq<Item>)
    requires AllOk(items)
    ensures ClosedLines(ItemsLines(items)) ==> ItemsOk(items)
    decreases |items|
  {
    if items != [] {
      hide ItemOk, ItemText;
      var it, rest := items[0], items[1..];
      var lines, more := ItemsLines(items), ItemsLines(rest);
      assert it in items && forall x :: x in rest ==> x in items;
      ClosedItems(rest);
      assert forall i :: 0 <= i < |more| ==> more[i] == lines[|ItemLines(it)| + i];
      assert lines[|ItemLines(it)| - 1] == ItemLines(it)[|ItemLines(it)| - 1];
      ItemEnds(it);
      if rest != [] {
        assert |ItemLines(rest[0])| > 0;
      }
    }
  }

  lemma ItemEnds(it: Item)
    requires ItemOk(it)
    ensures var last := ItemLines(it)[|ItemLines(it)| - 1];
            (EndsLine(ItemText(it)) <==> EndsLine(last)) && (it.Head? || it.Names? ==> EndsLine(ItemText(it))) &&
            (!it.Names? ==> last == ItemText(it))
  {
    match it
    case Head(a, b, section) => HeaderClosedLine(a, b, section);
    case Names(x, y) =>
      var a, b := "--- " + x, "+++ " + y;
      assert (a + b)[|a + b| - 1] == y[|y| - 1] && b[|b| - 1] == y[|y| - 1];
    case _ =>
  }

  lemma {:induction false} BodyAllOk(body: seq<BodyLine>)
    requires forall b :: b in body ==> BodyLineOk(b)
    ensures AllOk(BodyItems(body))
    decreases |body|
  {
    if body != [] {
      var b := body[0];
      assert BodyLineOk(b);
      BodyAllOk(body[1..]);
      OtherStart(" " + b.text + b.eol, "+++ ");
      OtherStart(b.marker, "+++ ");
      assert ItemOk(LineItem(b)) && (b.marker != "" ==> ItemOk(Plain(b.marker)));
    }
  }

  lemma {:induction false} HunksAllOk(hs: seq<Hunk>)
    requires forall h :: h in hs ==> HunkOk(h)
    ensures AllOk(HunkItems(hs))
    decreases |hs|
  {
    if hs != [] {
      assert HunkOk(hs[0]);
      HunksAllOk(hs[1..]);
      BodyAllOk(hs[0].body);
    }
  }

  lemma {:induction false} PlainAllOk(lines: seq<string>)
    requires forall line :: line in lines ==> PreambleLineOk(line)
    ensures AllOk(PlainItems(lines))
    decreases |lines|
  {
    if lines != [] {
      assert PreambleLineOk(lines[0]);
      PlainAllOk(lines[1..]);
    }
  }

  lemma {:induction false} DiffAllOk(d: Diff)
    requires forall f :: f in d ==> FileOk(f)
    ensures AllOk(Items(d))
    decreases |d|
  {
    if d != [] {
      hide PreambleLineOk, HunkOk, NameOk;
      assert FileOk(d[0]);
      DiffAllOk(d[1..]);
      PlainAllOk(d[0].preamble);
      HunksAllOk(d[0].hunks);
    }
  }

  lemma WellFormedItems(d: Diff)
    requires WellFormed(d)
    ensures ItemsOk(Items(d))
  {
    hide Items, ItemsLines, PrintDiff, FileOk, ItemOk;
    DiffAllOk(d);
    DiffLines(d);
    ClosedItems(Items(d));
  }

  // ---------------------------------------------------------------- reversed items

  function BackItem(it: Item): Item {
    match it
    case Plain(_) => it
    case Flip(mark, tail) => Flip(FlipChar(mark), tail)
    case Head(a, b, _) => Head(Explicit(b), Explicit(a), "\n")
    case Names(x, y) => Names(y, x)
  }

  function BackItems(items: seq<Item>): seq<Item> {
    if items == [] then [] else [BackItem(items[0])] + BackItems(items[1..])
  }

  lemma {:induction false} BackConcat(a: seq<Item>, b: seq<Item>)
    ensures BackItems(a + b) == BackItems(a) + BackItems(b)
    decreases |a|
  {
    if a == [] {
      assert a + b == b;
    } else {
      assert (a + b)[1..] == a[1..] + b;
      BackConcat(a[1..], b);
    }
  }

  lemma OneBack(it: Item)
    ensures BackItems([it]) == [BackItem(it)]
  {
    assert [it][1..] == [];
  }

  lemma {:induction false} BodyBack(body: seq<BodyLine>)
    ensures BodyItems(FlipBody(body)) == BackItems(BodyItems(body))
    decreases |body|
  {
    if body != [] {
      var b, rest := body[0], BodyItems(body[1..]);
      var more: seq<Item> := if b.marker == "" then [] else [Plain(b.marker)];
      BodyBack(body[1..]);
      assert FlipBody(body)[1..] == FlipBody(body[1..]);
      BackConcat([LineItem(b)] + more, rest);
      BackConcat([LineItem(b)], more);
      OneBack(LineItem(b));
      OneBack(Plain(b.marker));
      assert BackItem(LineItem(b)) == LineItem(FlipLine(b));
    }
  }

  lemma {:induction false} HunksBack(hs: seq<Hunk>)
    ensures HunkItems(ReverseHunks(hs)) == BackItems(HunkItems(hs))
    decreases |hs|
  {
    if hs != [] {
      hide BodyItems, FlipBody, Explicit;
      var h := hs[0];
      var head := Head(h.source, h.target, h.section);
      HunksBack(hs[1..]);
      BodyBack(h.body);
      assert ReverseHunks(hs)[1..] == ReverseHunks(hs[1..]);
      BackConcat([head] + BodyItems(h.body), HunkItems(hs[1..]));
      BackConcat([head], BodyItems(h.body));
      OneBack(head);
    }
  }

  lemma {:induction false} PlainBack(lines: seq<string>)
    ensures BackItems(PlainItems(lines)) == PlainItems(lines)
    decreases |lines|
  {
    if lines != [] {
      PlainBack(lines[1..]);
      assert PlainItems(lines)[1..] == PlainItems(lines[1..]);
    }
  }

  /** The items of the reversed diff are the reversed items. */
  lemma {:induction false} DiffBack(d: Diff)
    ensures Items(Reverse(d)) == BackItems(Items(d))
    decreases |d|
  {
    if d != [] {
      hide HunkItems, PlainItems, ReverseHunks;
      var f := d[0];
      var names := Names(f.oldName, f.newName);
      DiffBack(d[1..]);
      assert Reverse(d)[1..] == Reverse(d[1..]);
      BackConcat(FileItems(f), Items(d[1..]));
      BackConcat(PlainItems(f.preamble) + [names], HunkItems(f.hunks));
      BackConcat(PlainItems(f.preamble), [names]);
      PlainBack(f.preamble);
      OneBack(names);
      HunksBack(f.hunks);
    }
  }

  lemma BackText(it: Item)
    ensures ItemText(BackItem(it)) == ItemBack(it)
  {
    if it.Head? {
      InverseHeaderIsPrinted(Hunk(it.source, it.target, it.section, []));
    }
  }

  lemma {:induction false} ItemsBackText(items: seq<Item>)
    ensures ItemsText(BackItems(items)) == ItemsBack(items)
    decreases |items|
  {
    if items != [] {
      hide ItemText, ItemBack, BackItem;
      BackText(items[0]);
      ItemsBackText(items[1..]);
      assert BackItems(items)[1..] == BackItems(items[1..]);
    }
  }

  predicate AllClosed(lines: seq<string>) {
    forall i :: 0 <= i < |lines| ==> ClosedLine(lines[i])
  }

  lemma ClosedConcat(a: seq<string>, b: seq<string>)
    ensures b != [] ==> (ClosedLines(a + b) <==> AllClosed(a) && ClosedLines(b))
    ensures b == [] ==> a + b == a
  {
    hide ClosedLine;
    var all := a + b;
    assert forall i :: 0 <= i < |a| ==> all[i] == a[i];
    assert forall i :: 0 <= i < |b| ==> all[|a| + i] == b[i];
  }

  /** Reversed, a line still ends at its only "\n". */
  lemma BackLine(it: Item)
    requires ItemOk(it)
    ensures AllClosed(ItemLines(it)) ==> AllClosed(ItemLines(BackItem(it)))
    ensures ClosedLines(ItemLines(it)) ==> ClosedLines(ItemLines(BackItem(it)))
  {
    match it
    case Plain(_) =>
    case Flip(mark, tail) =>
      MarkedLine(mark, FlipChar(mark), tail);
      OneClosed([mark] + tail);
      OneClosed([FlipChar(mark)] + tail);
    case Head(a, b, section) =>
      assert RangeOk(Explicit(a)) && RangeOk(Explicit(b));
      HeaderClosedLine(Explicit(b), Explicit(a), "\n");
    case Names(x, y) =>
      NameLine(x, "+++ ");
      NameLine(y, "--- ");
  }

  lemma OneClosed(x: string)
    ensures AllClosed([x]) <==> ClosedLine(x)
    ensures ClosedLines([x]) <==> x != "" && (ClosedLine(x) || '\n' !in x)
  {
    assert [x][0] == x;
  }

  lemma MarkedLine(a: char, b: char, tail: string)
    requires a != '\n' && b != '\n'
    ensures ClosedLine([a] + tail) ==> ClosedLine([b] + tail)
    ensures '\n' !in [a] + tail ==> '\n' !in [b] + tail
  {
    if tail != "" {
      assert ([a] + tail)[..|tail|] == [a] + tail[..|tail| - 1];
      assert ([b] + tail)[..|tail|] == [b] + tail[..|tail| - 1];
    }
  }

  lemma NameLine(x: string, p: string)
    requires NameOk(x) && '\n' !in p
    ensures ClosedLine(p + x)
  {
    NoBoundaryWithin(x);
    assert (p + x)[..|p + x| - 1] == p + x[..|x| - 1];
  }

  lemma {:induction false} BackLines(items: seq<Item>)
    requires AllOk(items) && ClosedLines(ItemsLines(items))
    ensures ClosedLines(ItemsLines(BackItems(items)))
    decreases |items|
  {
    if items != [] {
      hide ItemOk, ItemLines, BackItem, ClosedLines, AllClosed;
      var it, rest := items[0], items[1..];
      assert it in items && forall x :: x in rest ==> x in items;
      assert BackItems(items)[1..] == BackItems(rest);
      ClosedConcat(ItemLines(it), ItemsLines(rest));
      ClosedConcat(ItemLines(BackItem(it)), ItemsLines(BackItems(rest)));
      BackLine(it);
      LinesNone(rest);
      if rest != [] {
        BackLines(rest);
      }
    }
  }

  lemma LinesNone(items: seq<Item>)
    ensures (ItemsLines(items) == [] <==> items == []) && (ItemsLines(BackItems(items)) == [] <==> items == [])
  {
  }

  lemma {:induction false} FlipBodyOk(body: seq<BodyLine>)
    requires forall b :: b in body ==> BodyLineOk(b)
    ensures forall b :: b in FlipBody(body) ==> BodyLineOk(b)
    decreases |body|
  {
    if body != [] {
      FlipBodyOk(body[1..]);
      assert BodyLineOk(body[0]);
    }
  }

  lemma {:induction false} ReverseHunksOk(hs: seq<Hunk>)
    requires forall h :: h in hs ==> HunkOk(h)
    ensures forall h :: h in ReverseHunks(hs) ==> HunkOk(h)
    decreases |hs|
  {
    if hs != [] {
      ReverseHunksOk(hs[1..]);
      assert HunkOk(hs[0]);
      FlipBodyOk(hs[0].body);
      assert RangeOk(Explicit(hs[0].source)) && RangeOk(Explicit(hs[0].target));
      assert HunkOk(ReverseHunk(hs[0]));
    }
  }

  lemma {:induction false} ReverseFilesOk(d: Diff)
    requires forall f :: f in d ==> FileOk(f)
    ensures forall f :: f in Reverse(d) ==> FileOk(f)
    decreases |d|
  {
    if d != [] {
      hide HunkOk, PreambleLineOk, NameOk, ReverseHunks;
      ReverseFilesOk(d[1..]);
      assert FileOk(d[0]);
      ReverseHunksOk(d[0].hunks);
      assert FileOk(ReverseFile(d[0]));
    }
  }

  lemma ReverseWellFormed(d: Diff)
    requires WellFormed(d)
    ensures WellFormed(Reverse(d))
  {
    hide Items, ItemsLines, PrintDiff, FileOk, ItemOk, BackItems;
    ReverseFilesOk(d);
    DiffAllOk(d);
    DiffLines(d);
    DiffBack(d);
    DiffLines(Reverse(d));
    BackLines(Items(d));
  }

  // ---------------------------------------------------------------- results

  lemma BackIsReversed(d: Diff)
    ensures ItemsBack(Items(d)) == DiffText(Reverse(d))
  {
    hide ItemsText, ItemsBack, Items, BackItems, Reverse, DiffText;
    DiffBack(d);
    ItemsBackText(Items(d));
    DiffItems(Reverse(d));
  }

  /** A diff that is read as meant is printed reversed, or as nothing when nothing changes. */
  lemma RevertPrinted(d: Diff)
    requires WellFormed(d) && ReadAsMeant(d)
    ensures Revert(DiffText(d)) == Ok(if HasChange(d) then DiffText(Reverse(d)) else "")
  {
    hide Scan, Items, ItemsText, ItemsBack, Changes, HasChange, Reverse, DiffText, SplitLines, Mode;
    WellFormedItems(d);
    ItemsRead(Items(d), false);
    DiffItems(d);
    BackIsReversed(d);
    assert !Malformed(DiffText(d));
  }

  /** For a diff with a change: the generated patch is the reversed diff exactly when the diff is read as meant. */
  lemma RevertsExactly(d: Diff)
    requires WellFormed(d) && HasChange(d)
    ensures Revert(DiffText(d)) == Ok(DiffText(Reverse(d))) <==> ReadAsMeant(d)
  {
    hide Scan, Items, ItemsText, ItemsBack, Changes, HasChange, Reverse, DiffText, SplitLines, Mode, Join;
    if ReadAsMeant(d) {
      RevertPrinted(d);
    } else {
      WellFormedItems(d);
      ItemsWrong(Items(d), false);
      DiffItems(d);
      BackIsReversed(d);
      NotEmpty(d);
    }
  }

  lemma NotEmpty(d: Diff)
    requires WellFormed(d) && HasChange(d)
    ensures DiffText(Reverse(d)) != ""
  {
    hide Items, HasChange, DiffText, Reverse, ItemBack, WellFormed;
    WellFormedItems(d);
    DiffItems(d);
    BackIsReversed(d);
    ItemStart(Items(d)[0]);
  }

  /** The generated patch is empty exactly when no hunk adds or removes a line. */
  lemma EmptyExactlyWithoutChange(d: Diff)
    requires WellFormed(d) && ReadAsMeant(d)
    ensures Revert(DiffText(d)) == Ok("") <==> !HasChange(d)
  {
    hide Revert, ReadAsMeant, WellFormed, HasChange, Reverse, DiffText;
    RevertPrinted(d);
    if HasChange(d) {
      NotEmpty(d);
    }
  }

  // ---------------------------------------------------------------- reverting twice

  lemma {:induction false} FlipTwice(body: seq<BodyLine>)
    ensures FlipBody(FlipBody(body)) == body
    decreases |body|
  {
    if body != [] {
      FlipTwice(body[1..]);
      assert FlipBody(body)[1..] == FlipBody(body[1..]);
    }
  }

  lemma {:induction false} ReverseHunksTwice(hs: seq<Hunk>)
    ensures ReverseHunks(ReverseHunks(hs)) == NormalHunks(hs)
    decreases |hs|
  {
    if hs != [] {
      ReverseHunksTwice(hs[1..]);
      FlipTwice(hs[0].body);
      assert ReverseHunks(hs)[1..] == ReverseHunks(hs[1..]);
    }
  }

  lemma {:induction false} ReverseTwice(d: Diff)
    ensures Reverse(Reverse(d)) == Normal(d)
    decreases |d|
  {
    if d != [] {
      ReverseTwice(d[1..]);
      ReverseHunksTwice(d[0].hunks);
      assert Reverse(d)[1..] == Reverse(d[1..]);
    }
  }

  lemma {:induction false} ChangesBack(items: seq<Item>)
    ensures Changes(BackItems(items)) == Changes(items)
    decreases |items|
  {
    if items != [] {
      ChangesBack(items[1..]);
      assert BackItems(items)[1..] == BackItems(items[1..]);
    }
  }

  lemma ReverseChanges(d: Diff)
    ensures HasChange(Reverse(d)) == HasChange(d)
  {
    hide Items, Changes, BackItems, HasChange, Reverse;
    DiffItems(d);
    DiffItems(Reverse(d));
    DiffBack(d);
    ChangesBack(Items(d));
  }

  /**
   Reverting twice gives the diff in normal form, with explicit hunk lengths and no section text, exactly when the
   reversed diff is read as meant too.
   */
  lemma RevertTwice(d: Diff)
    requires WellFormed(d) && ReadAsMeant(d) && HasChange(d)
    ensures Revert(DiffText(d)).Ok?
    ensures Revert(Revert(DiffText(d)).value) == Ok(DiffText(Normal(d))) <==> ReadAsMeant(Reverse(d))
  {
    hide Revert, ReadAsMeant, WellFormed, HasChange, Reverse, Normal, DiffText;
    RevertPrinted(d);
    ReverseWellFormed(d);
    ReverseChanges(d);
    ReverseTwice(d);
    RevertsExactly(Reverse(d));
  }

  // ---------------------------------------------------------------- changed lines that read as file headers

  /** A dropped line that starts with "-- ", as a comment in SQL or Lua, or an added one that starts with "++ ". */
  predicate LooksLikeHeader(b: BodyLine) {
    (b.mark == Drop && StartsWith(b.text, "-- ")) || (b.mark == Add && StartsWith(b.text, "++ "))
  }

  predicate BodyLooks(body: seq<BodyLine>) {
    body != [] && (LooksLikeHeader(body[0]) || BodyLooks(body[1..]))
  }

  predicate HunksLook(hs: seq<Hunk>) {
    hs != [] && (BodyLooks(hs[0].body) || HunksLook(hs[1..]))
  }

  /** Some line of some hunk of some section does. */
  predicate HasHeaderLikeLine(d: Diff) {
    d != [] && (HunksLook(d[0].hunks) || HasHeaderLikeLine(d[1..]))
  }

  predicate Stops(it: Item) {
    it.Flip? && HeaderLike(it.mark, it.tail)
  }

  lemma LineStops(b: BodyLine)
    requires LooksLikeHeader(b)
    ensures Stops(LineItem(b)) && b.mark != Keep
  {
    var line := MarkChar(b.mark) + (b.text + b.eol);
    assert line[..4] == MarkChar(b.mark) + b.text[..3];
    assert b.mark == Drop ==> line[..4] == "--- ";
    assert b.mark == Add ==> line[..4] == "+++ ";
  }

  lemma {:induction false} BodyStops(body: seq<BodyLine>)
    requires BodyLooks(body)
    ensures BodyChanges(body) && exists it :: it in BodyItems(body) && Stops(it)
    decreases |body|
  {
    hide Stops, LooksLikeHeader, LineItem;
    if LooksLikeHeader(body[0]) {
      LineStops(body[0]);
      assert LineItem(body[0]) in BodyItems(body);
    } else {
      BodyStops(body[1..]);
      ChangesLater(body);
      var it :| it in BodyItems(body[1..]) && Stops(it);
      assert it in BodyItems(body);
    }
  }

  lemma ChangesLater(body: seq<BodyLine>)
    requires body != [] && BodyChanges(body[1..])
    ensures BodyChanges(body)
  {
    var i :| 0 <= i < |body[1..]| && body[1..][i].mark != Keep;
    assert body[i + 1].mark != Keep;
  }

  lemma {:induction false} HunksStop(hs: seq<Hunk>)
    requires HunksLook(hs)
    ensures HunksChange(hs) && exists it :: it in HunkItems(hs) && Stops(it)
    decreases |hs|
  {
    hide Stops, BodyLooks, BodyItems, BodyChanges;
    if BodyLooks(hs[0].body) {
      BodyStops(hs[0].body);
      var it :| it in BodyItems(hs[0].body) && Stops(it);
      assert it in HunkItems(hs);
    } else {
      HunksStop(hs[1..]);
      var i :| 0 <= i < |hs[1..]| && BodyChanges(hs[1..][i].body);
      assert BodyChanges(hs[i + 1].body);
      var it :| it in HunkItems(hs[1..]) && Stops(it);
      assert it in HunkItems(hs);
    }
  }

  lemma {:induction false} DiffStops(d: Diff)
    requires HasHeaderLikeLine(d)
    ensures HasChange(d) && exists it :: it in Items(d) && Stops(it)
    decreases |d|
  {
    hide Stops, HunksLook, HunkItems, HunksChange, HasChange;
    HasChangeCons(d);
    if HunksLook(d[0].hunks) {
      HunksStop(d[0].hunks);
      var it :| it in HunkItems(d[0].hunks) && Stops(it);
      assert it in Items(d);
    } else {
      DiffStops(d[1..]);
      var it :| it in Items(d[1..]) && Stops(it);
      assert it in Items(d);
    }
  }

  lemma {:induction false} ModeStops(items: seq<Item>, it: Item, inside: bool)
    requires it in items && Stops(it)
    ensures Mode(items, inside).None?
    decreases |items|
  {
    hide PlainMode, HeaderLike;
    var m := ItemMode(items[0], inside);
    if items[0] != it && m.Some? {
      ModeStops(items[1..], it, m.value);
    }
  }

  /** No diff that drops such a comment, or adds such a line, is reversed, whatever else is in it. */
  lemma HeaderLikeLineFails(d: Diff)
    requires WellFormed(d) && HasHeaderLikeLine(d)
    ensures !ReadAsMeant(d) && Revert(DiffText(d)) != Ok(DiffText(Reverse(d)))
  {
    hide WellFormed, HasChange, Revert, Reverse, DiffText, Items, Stops, Mode, HasHeaderLikeLine;
    DiffStops(d);
    var it :| it in Items(d) && Stops(it);
    ModeStops(Items(d), it, false);
    RevertsExactly(d);
  }

  // ---------------------------------------------------------------- a diff with a form feed

  /** File "x" has one line, which is dropped. */
  function DropLine(text: string): Diff {
    [FileDiff([], "a/x\n", "b/x\n",
              [Hunk(Range("1", Some("1")), Range("0", Some("0")), "\n", [BodyLine(Drop, text, "\n", "")])])]
  }

  lemma DropLineItems(text: string)
    ensures Items(DropLine(text)) ==
            [Names("a/x\n", "b/x\n"), Head(Range("1", Some("1")), Range("0", Some("0")), "\n"), Flip('-', text + "\n")]
  {
    var f := DropLine(text)[0];
    var h := f.hunks[0];
    assert DropLine(text)[1..] == [] && f.hunks[1..] == [] && h.body[1..] == [];
    assert HunkItems(f.hunks[1..]) == [] && BodyItems(h.body[1..]) == [] && Items(DropLine(text)[1..]) == [];
    assert BodyItems(h.body) == [Flip('-', text + "\n")];
  }

  lemma DropLineWellFormed(text: string)
    requires '\n' !in text
    ensures WellFormed(DropLine(text)) && HasChange(DropLine(text))
  {
    var d := DropLine(text);
    DropLineOk(text);
    DropLineChanges(text);
    DropLineItems(text);
    DropLineClosed(text);
    hide DropLine, FileOk, Items, ItemsLines, ClosedLines;
    DiffLines(d);
  }

  lemma DropLineChanges(text: string)
    ensures HasChange(DropLine(text))
  {
    var f := DropLine(text)[0];
    assert f.hunks[0].body[0].mark != Keep && BodyChanges(f.hunks[0].body);
    assert HunksChange(f.hunks);
  }

  lemma DropLineOk(text: string)
    requires '\n' !in text
    ensures forall f :: f in DropLine(text) ==> FileOk(f)
  {
    hide NameOk;
    NamePlain('a');
    NamePlain('b');
    assert ['a'] + "/x\n" == "a/x\n" && ['b'] + "/x\n" == "b/x\n";
  }

  lemma DropLineClosed(text: string)
    requires '\n' !in text
    ensures ClosedLines(ItemsLines([Names("a/x\n", "b/x\n"), Head(Range("1", Some("1")), Range("0", Some("0")), "\n"),
                                    Flip('-', text + "\n")]))
  {
    var a, b := Range("1", Some("1")), Range("0", Some("0"));
    var x, y, z := Names("a/x\n", "b/x\n"), Head(a, b, "\n"), Flip('-', text + "\n");
    NamePlain('a');
    NamePlain('b');
    assert ['a'] + "/x\n" == "a/x\n" && ['b'] + "/x\n" == "b/x\n";
    hide HeaderText, ClosedLine, NameOk;
    NameLine("a/x\n", "--- ");
    NameLine("b/x\n", "+++ ");
    assert RangeOk(a) && RangeOk(b) && ClosedLine("\n");
    HeaderClosedLine(a, b, "\n");
    MarkedClosed('-', text);
    hide RangeOk;
    assert AllClosed(ItemLines(x)) && AllClosed(ItemLines(y)) && AllClosed(ItemLines(z));
    ThreeClosed(x, y, z);
  }

  lemma ThreeClosed(x: Item, y: Item, z: Item)
    requires AllClosed(ItemLines(x)) && AllClosed(ItemLines(y)) && AllClosed(ItemLines(z))
    ensures ClosedLines(ItemsLines([x, y, z]))
  {
    hide ItemLines, ClosedLine;
    var items := [x, y, z];
    assert items[1..] == [y, z] && items[1..][1..] == [z];
    OneItem(z);
    assert ItemsLines(items) == ItemLines(x) + (ItemLines(y) + ItemLines(z));
  }

  lemma MarkedClosed(mark: char, text: string)
    requires mark != '\n' && '\n' !in text
    ensures ClosedLine([mark] + (text + "\n"))
  {
    var line := [mark] + (text + "\n");
    assert line[..|line| - 1] == [mark] + text;
  }

  lemma NamePlain(c: char)
    requires c == 'a' || c == 'b'
    ensures NameOk([c] + "/x\n")
  {
    var name := [c] + "/x\n";
    assert NoBoundary([c] + "/x") && name == [c] + "/x" + "\n";
    OneLinePrefix([c] + "/x", "\n");
  }

  lemma LastItemStops(items: seq<Item>)
    requires |items| == 3 && ItemMode(items[2], true).None? && ItemMode(items[2], false).None?
    ensures Mode(items, false).None?
  {
    hide ItemMode;
    assert forall m :: Mode(items[2..], m).None?;
    assert items[1..][1..] == items[2..] && items[1..][0] == items[1];
    assert forall m :: Mode(items[1..], m).None?;
  }

  /** Without a header in sight: behind a form feed, the program takes "+b" for an added line. */
  lemma FormFeed()
    ensures var d := DropLine("a\U{0C}+b");
            WellFormed(d) && !ReadAsMeant(d) && Revert(DiffText(d)) != Ok(DiffText(Reverse(d)))
  {
    hide WellFormed, HasChange, Revert, Reverse, DiffText, Items, HeaderText, PlainMode;
    var text := "a\U{0C}+b";
    DropLineWellFormed(text);
    DropLineItems(text);
    FormFeedPieces();
    PlusStops("+b\n");
    assert "-" + (text + "\n") == "-a\U{0C}+b\n";
    LastItemStops(Items(DropLine(text)));
    RevertsExactly(DropLine(text));
  }

  lemma FormFeedPieces()
    ensures SplitLines("-a\U{0C}+b\n")[1..] == ["+b\n"]
  {
    var s := "-a\U{0C}+b\n";
    var front, back := "-a\U{0C}", "+b\n";
    assert s == front + back;
    assert LineLength(s[2..]) == 1 && s[1..][1..] == s[2..];
    assert LineLength(s) == 3 && s[3..] == back && s[..3] == front;
    assert back[2..] == "\n" && back[1..][1..] == back[2..];
    assert LineLength(back) == 3;
    OneLineSplit(back);
  }

  lemma PlusStops(p: string)
    requires p != "" && p[0] == '+' && !StartsWith(p, "+++ ")
    ensures PlainMode([p], true).None?
  {
    NoHunk(p);
    FirstIs(p);
    OtherStart(p, "--- ");
    hide ParseHunk, RStrip;
  }
}
