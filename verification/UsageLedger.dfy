/** The usage ledger: a log file with one entry per distinct event, mirrored in memory. */
module UsageLedger {
  import opened Text

  datatype Event = Event(runId: string, orgId: string, stepId: string, attempt: int, tokensIn: int, tokensOut: int,
                         wallClockMs: int, costMicros: int, contextHash: string)

  datatype Entry = Entry(dedupKey: string, orgId: string, runId: string, stepId: string, attempt: int,
                         tokensIn: int, tokensOut: int, wallClockMs: int, costMicros: int)

  /**
   A line of the file: blank, not usable at all, an object that has a deduplication key but is no valid entry, or an
   entry.
   */
  datatype Line = Blank | Junk | Partial(key: string) | Row(entry: Entry)

  // ---------------------------------------------------------------- deduplication keys

  function Signed(n: int): string {
    if n < 0 then "-" + Decimal(-n) else Decimal(n)
  }

  const BAR := '|'

  /** The text that is hashed; the hash has no collisions, so the text stands for it. */
  function DedupKey(e: Event): string {
    e.runId + [BAR] + (e.stepId + [BAR] + (Signed(e.attempt) + [BAR] + e.contextHash))
  }

  function EntryOf(e: Event): Entry {
    Entry(DedupKey(e), e.orgId, e.runId, e.stepId, e.attempt, e.tokensIn, e.tokensOut, e.wallClockMs, e.costMicros)
  }

  lemma {:induction false} DecimalDigits(n: nat)
    ensures forall i :: 0 <= i < |Decimal(n)| ==> '0' <= Decimal(n)[i] <= '9'
    decreases n
  {
    if n >= 10 {
      DecimalDigits(n / 10);
    }
  }

  lemma NoBar(n: int)
    ensures BAR !in Signed(n)
  {
    DecimalDigits(if n < 0 then -n else n);
  }

  lemma {:induction false} NaturalInjective(a: nat, b: nat)
    requires Decimal(a) == Decimal(b)
    ensures a == b
    decreases a
  {
    DecimalDigits(a / 10);
    DecimalDigits(b / 10);
    var s, t := Decimal(a), Decimal(b);
    assert s[|s| - 1] == Digit(a % 10) && t[|t| - 1] == Digit(b % 10);
    assert a >= 10 ==> s[..|s| - 1] == Decimal(a / 10);
    assert b >= 10 ==> t[..|t| - 1] == Decimal(b / 10);
    if a >= 10 && b >= 10 {
      NaturalInjective(a / 10, b / 10);
    }
  }

  lemma SignedInjective(a: int, b: int)
    requires Signed(a) == Signed(b)
    ensures a == b
  {
    DecimalDigits(if a < 0 then -a else a);
    DecimalDigits(if b < 0 then -b else b);
    assert a < 0 ==> Signed(a)[0] == '-' && Signed(a)[1..] == Decimal(-a);
    assert b < 0 ==> Signed(b)[0] == '-' && Signed(b)[1..] == Decimal(-b);
    if a >= 0 && b >= 0 {
      NaturalInjective(a, b);
    } else if a < 0 && b < 0 {
      NaturalInjective(-a, -b);
    }
  }

  /** The text before the first bar is determined. */
  lemma FirstBar(a: string, restA: string, b: string, restB: string)
    requires BAR !in a && BAR !in b && a + [BAR] + restA == b + [BAR] + restB
    ensures a == b && restA == restB
  {
    var s, t := a + [BAR] + restA, b + [BAR] + restB;
    assert s[|a|] == BAR && t[|b|] == BAR;
    assert forall i :: 0 <= i < |a| ==> s[i] == a[i];
    assert forall i :: 0 <= i < |b| ==> t[i] == b[i];
    assert s[..|a|] == a && t[..|b|] == b && s[|a| + 1..] == restA && t[|b| + 1..] == restB;
  }

  /** Without a bar in the run and step ids, two events share a key exactly when they are the same attempt on the same input. */
  lemma KeysDistinguish(e: Event, f: Event)
    requires BAR !in e.runId && BAR !in f.runId && BAR !in e.stepId && BAR !in f.stepId
    ensures DedupKey(e) == DedupKey(f) <==>
            e.runId == f.runId && e.stepId == f.stepId && e.attempt == f.attempt && e.contextHash == f.contextHash
  {
    if DedupKey(e) == DedupKey(f) {
      NoBar(e.attempt);
      NoBar(f.attempt);
      FirstBar(e.runId, e.stepId + [BAR] + (Signed(e.attempt) + [BAR] + e.contextHash),
               f.runId, f.stepId + [BAR] + (Signed(f.attempt) + [BAR] + f.contextHash));
      FirstBar(e.stepId, Signed(e.attempt) + [BAR] + e.contextHash,
               f.stepId, Signed(f.attempt) + [BAR] + f.contextHash);
      FirstBar(Signed(e.attempt), e.contextHash, Signed(f.attempt), f.contextHash);
      SignedInjective(e.attempt, f.attempt);
    }
  }

  function Bars(s: string): nat {
    if s == "" then 0 else (if s[0] == BAR then 1 else 0) + Bars(s[1..])
  }

  lemma {:induction false} BarsConcat(a: string, b: string)
    ensures Bars(a + b) == Bars(a) + Bars(b)
    decreases |a|
  {
    if a == "" {
      assert a + b == b;
    } else {
      assert (a + b)[1..] == a[1..] + b;
      BarsConcat(a[1..], b);
    }
  }

  lemma {:induction false} NoBars(s: string)
    ensures Bars(s) == 0 <==> BAR !in s
    decreases |s|
  {
    if s != "" {
      NoBars(s[1..]);
    }
  }

  lemma BarsOfKey(e: Event)
    ensures Bars(DedupKey(e)) == Bars(e.runId) + Bars(e.stepId) + Bars(e.contextHash) + 3
  {
    var tail := Signed(e.attempt) + [BAR] + e.contextHash;
    NoBar(e.attempt);
    NoBars(Signed(e.attempt));
    assert Bars([BAR]) == 1 by { assert [BAR][1..] == ""; }
    BarsConcat(e.runId + [BAR], e.stepId + [BAR] + tail);
    BarsConcat(e.runId, [BAR]);
    BarsConcat(e.stepId + [BAR], tail);
    BarsConcat(e.stepId, [BAR]);
    BarsConcat(Signed(e.attempt) + [BAR], e.contextHash);
    BarsConcat(Signed(e.attempt), [BAR]);
  }

  predicate SameAttempt(e: Event, f: Event) {
    e.runId == f.runId && e.stepId == f.stepId && e.attempt == f.attempt && e.contextHash == f.contextHash
  }

  /** An event that shares the key of `e`, whose ids hold a bar. */
  function Impostor(e: Event): Event
    requires BAR in e.runId || BAR in e.stepId
  {
    if BAR in e.runId then
      var i := FirstAt(e.runId);
      e.(runId := e.runId[..i], stepId := e.runId[i + 1..] + [BAR] + e.stepId)
    else
      var i := FirstAt(e.stepId);
      e.(runId := e.runId + [BAR] + e.stepId[..i], stepId := e.stepId[i + 1..])
  }

  function FirstAt(s: string): (i: nat)
    requires BAR in s
    ensures i < |s| && s[i] == BAR
  {
    if s[0] == BAR then 0 else 1 + FirstAt(s[1..])
  }

  lemma ImpostorShares(e: Event)
    requires BAR in e.runId || BAR in e.stepId
    ensures DedupKey(Impostor(e)) == DedupKey(e) && !SameAttempt(e, Impostor(e))
  {
    var tail := Signed(e.attempt) + [BAR] + e.contextHash;
    if BAR in e.runId {
      SplitFirst(e.runId);
      MoveBar(e.runId[..FirstAt(e.runId)], e.runId[FirstAt(e.runId) + 1..], e.stepId, tail);
    } else {
      var i := FirstAt(e.stepId);
      SplitFirst(e.stepId);
      MoveBar(e.runId, e.stepId[..i], e.stepId[i + 1..], tail);
      assert |e.runId + [BAR] + e.stepId[..i]| > |e.runId|;
    }
  }

  lemma SplitFirst(s: string)
    requires BAR in s
    ensures s == s[..FirstAt(s)] + [BAR] + s[FirstAt(s) + 1..]
  {
  }

  /** A bar between two fields may as well belong to one of them. */
  lemma MoveBar(a: string, b: string, c: string, tail: string)
    ensures a + [BAR] + (b + [BAR] + c + [BAR] + tail) == a + [BAR] + b + [BAR] + (c + [BAR] + tail)
  {
    var bar := [BAR];
    ConcatAssoc(a + bar, b + bar, c + bar + tail);
    ConcatAssoc(b + bar, c + bar, tail);
    ConcatAssoc(b + bar, c, bar);
    ConcatAssoc(a + bar, b, bar);
  }

  /**
   Exactly which events can be mistaken for another one: those with a bar in the run or step id.  The context is a
   hash in hexadecimal, or empty.
   */
  lemma KeyIdentifiesExactly(e: Event)
    requires BAR !in e.contextHash
    ensures (forall f :: DedupKey(f) == DedupKey(e) ==> SameAttempt(e, f)) <==> BAR !in e.runId && BAR !in e.stepId
  {
    if BAR in e.runId || BAR in e.stepId {
      ImpostorShares(e);
    } else {
      forall f | DedupKey(f) == DedupKey(e)
        ensures SameAttempt(e, f)
      {
        BarsOfKey(e);
        BarsOfKey(f);
        NoBars(e.runId);
        NoBars(e.stepId);
        NoBars(e.contextHash);
        NoBars(f.runId);
        NoBars(f.stepId);
        KeysDistinguish(e, f);
      }
    }
  }

  // ---------------------------------------------------------------- the file and its replay

  function Keys(entries: seq<Entry>): set<string> {
    set e | e in entries :: e.dedupKey
  }

  /** The entries a restart restores: the first of each key. */
  function Replay(lines: seq<Line>): seq<Entry> {
    if lines == [] then [] else
      var before, last := Replay(lines[..|lines| - 1]), lines[|lines| - 1];
      if last.Row? && last.entry.dedupKey !in Keys(before) then before + [last.entry] else before
  }

  /** Keys that `record` takes for written when it reads the file; an empty key does not count. */
  function Scan(lines: seq<Line>): set<string> {
    if lines == [] then {} else
      Scan(lines[..|lines| - 1]) + KeyOf(lines[|lines| - 1])
  }

  function KeyOf(line: Line): set<string> {
    match line
    case Row(e) => if e.dedupKey == "" then {} else {e.dedupKey}
    case Partial(k) => if k == "" then {} else {k}
    case _ => {}
  }

  /** The line has this deduplication key, as a valid entry or not. */
  predicate HasKey(line: Line, key: string) {
    (line.Row? && line.entry.dedupKey == key) || (line.Partial? && line.key == key)
  }

  lemma {:induction false} ScanExactly(lines: seq<Line>, key: string)
    requires key != ""
    ensures key in Scan(lines) <==> exists i :: 0 <= i < |lines| && HasKey(lines[i], key)
    decreases |lines|
  {
    if lines != [] {
      var rest, last := lines[..|lines| - 1], lines[|lines| - 1];
      ScanExactly(rest, key);
      if i :| 0 <= i < |lines| && HasKey(lines[i], key) {
        assert i < |rest| ==> HasKey(rest[i], key);
      }
      if i :| 0 <= i < |rest| && HasKey(rest[i], key) {
        assert HasKey(lines[i], key);
      }
      if HasKey(last, key) {
        assert HasKey(lines[|rest|], key);
      }
    }
  }

  /** Line `i` is an entry, and no entry before it has its key. */
  predicate FirstRow(lines: seq<Line>, i: nat)
    requires i < |lines|
  {
    lines[i].Row? && forall j :: 0 <= j < i ==> !(lines[j].Row? && lines[j].entry.dedupKey == lines[i].entry.dedupKey)
  }

  lemma {:induction false} ReplayKeys(lines: seq<Line>, key: string)
    ensures key in Keys(Replay(lines)) <==> exists i :: 0 <= i < |lines| && lines[i].Row? && lines[i].entry.dedupKey == key
    decreases |lines|
  {
    if lines != [] {
      var rest, last := lines[..|lines| - 1], lines[|lines| - 1];
      ReplayKeys(rest, key);
      if last.Row? {
        KeysAppend(Replay(rest), last.entry);
      }
      if i :| 0 <= i < |lines| && lines[i].Row? && lines[i].entry.dedupKey == key {
        assert i < |rest| ==> rest[i].Row? && rest[i].entry.dedupKey == key;
      }
      if i :| 0 <= i < |rest| && rest[i].Row? && rest[i].entry.dedupKey == key {
        assert lines[i].Row? && lines[i].entry.dedupKey == key;
      }
    }
  }

  /** A restart restores exactly the first entry of each key. */
  lemma {:induction false} ReplayExactly(lines: seq<Line>, e: Entry)
    ensures e in Replay(lines) <==> exists i :: 0 <= i < |lines| && FirstRow(lines, i) && lines[i].entry == e
    decreases |lines|
  {
    if lines != [] {
      hide Replay;
      var rest, last := lines[..|lines| - 1], lines[|lines| - 1];
      assert lines == rest + [last];
      ReplayExactly(rest, e);
      ReplayAppend(rest, last);
      if last.Row? {
        ReplayKeys(rest, last.entry.dedupKey);
        assert FirstRow(lines, |rest|) <==> NewRow(rest, last);
      }
      assert forall i :: 0 <= i < |rest| ==> (FirstRow(rest, i) <==> FirstRow(lines, i)) && rest[i] == lines[i];
    }
  }

  datatype State = State(lines: seq<Line>, written: set<string>, entries: seq<Entry>)

  datatype Op =
    | Record(event: Event, writable: bool)
    | Restart
    | Elsewhere(line: Line)
      /** Another process appends to the same file. */

  function Loaded(lines: seq<Line>): State {
    State(lines, Keys(Replay(lines)), Replay(lines))
  }

  predicate Accepts(s: State, event: Event) {
    DedupKey(event) !in s.written + Scan(s.lines)
  }

  function Apply(s: State, op: Op): State {
    match op
    case Record(event, writable) =>
      var written := s.written + Scan(s.lines);
      if DedupKey(event) in written || !writable then s.(written := written)
      else State(s.lines + [Row(EntryOf(event))], written + {DedupKey(event)}, s.entries + [EntryOf(event)])
    case Restart => Loaded(s.lines)
    case Elsewhere(line) => s.(lines := s.lines + [line])
  }

  class Ledger {
    var lines: seq<Line>
    var writtenKeys: set<string>
    var entries: seq<Entry>

    ghost function Here(): State
      reads this
    {
      State(lines, writtenKeys, entries)
    }

    /** A ledger on an existing file. */
    constructor (lines: seq<Line>)
      ensures Here() == Loaded(lines)
    {
      this.lines, writtenKeys, entries := lines, {}, [];
      new;
      LoadExistingEntries();
    }

    method LoadExistingEntries()
      requires writtenKeys == {} && entries == []
      modifies this`writtenKeys, this`entries
      ensures Here() == Loaded(lines)
    {
      var i := 0;
      while i < |lines|
        invariant i <= |lines| && entries == Replay(lines[..i]) && writtenKeys == Keys(entries)
      {
        assert lines[..i + 1][..i] == lines[..i];
        match lines[i] {
          case Row(entry) =>
            if entry.dedupKey !in writtenKeys {
              writtenKeys := writtenKeys + {entry.dedupKey};
              entries := entries + [entry];
            }
          case _ =>
        }
        i := i + 1;
      }
      assert lines[..|lines|] == lines;
    }

    /** `writable` is false when the append fails, which leaves the file as it was. */
    method Record(event: Event, writable: bool) returns (r: Option<Entry>)
      modifies this
      ensures Here() == Apply(old(Here()), Op.Record(event, writable))
      ensures r.Some? <==>
                writable && DedupKey(event) !in old(writtenKeys) &&
                forall i :: 0 <= i < |old(lines)| ==> !HasKey(old(lines)[i], DedupKey(event))
      ensures match r
              case None => lines == old(lines) && entries == old(entries)
              case Some(e) =>
                lines == old(lines) + [Row(e)] && entries == old(entries) + [e] && e.dedupKey == DedupKey(event) &&
                e.orgId == event.orgId && e.runId == event.runId && e.stepId == event.stepId &&
                e.attempt == event.attempt && e.tokensIn == event.tokensIn && e.tokensOut == event.tokensOut &&
                e.wallClockMs == event.wallClockMs && e.costMicros == event.costMicros
    {
      assert BAR in DedupKey(event);
      ScanExactly(lines, DedupKey(event));
      hide HasKey, DedupKey;
      var i := 0;
      while i < |lines|
        invariant i <= |lines| && lines == old(lines) && entries == old(entries)
        invariant writtenKeys == old(writtenKeys) + Scan(lines[..i])
      {
        assert lines[..i + 1][..i] == lines[..i];
        writtenKeys := writtenKeys + KeyOf(lines[i]);
        i := i + 1;
      }
      assert lines[..|lines|] == lines;
      if DedupKey(event) in writtenKeys || !writable {
        return None;
      }
      lines := lines + [Row(EntryOf(event))];
      writtenKeys := writtenKeys + {DedupKey(event)};
      entries := entries + [EntryOf(event)];
      return Some(EntryOf(event));
    }
  }

  // ---------------------------------------------------------------- any mix of records, restarts and other writers

  function After(lines: seq<Line>, ops: seq<Op>): State {
    if ops == [] then Loaded(lines) else Apply(After(lines, ops[..|ops| - 1]), ops[|ops| - 1])
  }

  /** How many distinct events other processes have logged since the ledger was last loaded. */
  function Missed(lines: seq<Line>, ops: seq<Op>): nat {
    if ops == [] then 0 else
      var before, s := Missed(lines, ops[..|ops| - 1]), After(lines, ops[..|ops| - 1]);
      match ops[|ops| - 1]
      case Record(_, _) => before
      case Restart => 0
      case Elsewhere(line) => before + if NewRow(s.lines, line) then 1 else 0
  }

  predicate NewRow(lines: seq<Line>, line: Line) {
    line.Row? && line.entry.dedupKey !in Keys(Replay(lines))
  }

  predicate DistinctKeys(entries: seq<Entry>) {
    forall i, j :: 0 <= i < j < |entries| ==> entries[i].dedupKey != entries[j].dedupKey
  }

  ghost predicate Inv(s: State, missed: nat) {
    DistinctKeys(s.entries) && Keys(s.entries) <= s.written && s.written <= Keys(Replay(s.lines)) + Scan(s.lines) &&
    |Replay(s.lines)| == |s.entries| + missed && (missed == 0 ==> s.entries == Replay(s.lines)) &&
    forall e :: e in s.entries ==> e in Replay(s.lines)
  }

  lemma ReplayAppend(lines: seq<Line>, line: Line)
    ensures Replay(lines + [line]) == if NewRow(lines, line) then Replay(lines) + [line.entry] else Replay(lines)
    ensures Scan(lines + [line]) == Scan(lines) + KeyOf(line)
  {
    assert (lines + [line])[..|lines|] == lines;
  }

  lemma KeysAppend(entries: seq<Entry>, e: Entry)
    ensures Keys(entries + [e]) == Keys(entries) + {e.dedupKey}
  {
    assert forall x :: x in entries + [e] <==> x in entries || x == e;
  }

  lemma {:induction false} ReplayDistinct(lines: seq<Line>)
    ensures DistinctKeys(Replay(lines))
    decreases |lines|
  {
    if lines != [] {
      var before, last := Replay(lines[..|lines| - 1]), lines[|lines| - 1];
      ReplayDistinct(lines[..|lines| - 1]);
      assert forall i :: 0 <= i < |before| ==> before[i] in before && before[i].dedupKey in Keys(before);
    }
  }

  /** Entries with a key of their own are seen by `record`'s scan of the file. */
  lemma {:induction false} ReplayScanned(lines: seq<Line>)
    ensures forall k :: k in Keys(Replay(lines)) && k != "" ==> k in Scan(lines)
    decreases |lines|
  {
    if lines != [] {
      ReplayScanned(lines[..|lines| - 1]);
      if lines[|lines| - 1].Row? {
        KeysAppend(Replay(lines[..|lines| - 1]), lines[|lines| - 1].entry);
      }
    }
  }

  /** An event is accepted exactly when no line of the file carries its key. */
  lemma AcceptsExactlyNew(s: State, missed: nat, event: Event)
    requires Inv(s, missed)
    ensures Accepts(s, event) <==> forall i :: 0 <= i < |s.lines| ==> !HasKey(s.lines[i], DedupKey(event))
    ensures Accepts(s, event) <==> DedupKey(event) !in Scan(s.lines)
    ensures Accepts(s, event) ==> NewRow(s.lines, Row(EntryOf(event)))
  {
    assert BAR in DedupKey(event);
    ReplayScanned(s.lines);
    ScanExactly(s.lines, DedupKey(event));
    hide DedupKey, HasKey;
  }

  lemma RecordInv(s: State, missed: nat, event: Event, writable: bool)
    requires Inv(s, missed)
    ensures Inv(Apply(s, Record(event, writable)), missed)
  {
    hide Replay, Scan, Keys, DedupKey, Accepts;
    var entry := EntryOf(event);
    AcceptsExactlyNew(s, missed, event);
    ReplayAppend(s.lines, Row(entry));
    KeysAppend(s.entries, entry);
    KeysAppend(Replay(s.lines), entry);
    assert Accepts(s, event) <==> DedupKey(event) !in s.written + Scan(s.lines) by { AcceptsMeans(s, event); }
    if Accepts(s, event) && writable {
      DistinctAppend(s.entries, entry);
    }
  }

  lemma AcceptsMeans(s: State, event: Event)
    ensures Accepts(s, event) <==> DedupKey(event) !in s.written + Scan(s.lines)
  {
  }

  lemma DistinctAppend(entries: seq<Entry>, e: Entry)
    requires DistinctKeys(entries) && e.dedupKey !in Keys(entries)
    ensures DistinctKeys(entries + [e])
  {
    assert forall i :: 0 <= i < |entries| ==> entries[i] in entries && entries[i].dedupKey in Keys(entries);
  }

  lemma ElsewhereInv(s: State, missed: nat, line: Line)
    requires Inv(s, missed)
    ensures Inv(Apply(s, Elsewhere(line)), missed + if NewRow(s.lines, line) then 1 else 0)
  {
    hide Replay, Scan, Keys;
    ReplayAppend(s.lines, line);
    if NewRow(s.lines, line) {
      KeysAppend(Replay(s.lines), line.entry);
    }
  }

  lemma {:induction false} RunInv(lines: seq<Line>, ops: seq<Op>)
    ensures Inv(After(lines, ops), Missed(lines, ops))
    decreases |ops|
  {
    if ops == [] {
      ReplayDistinct(lines);
    } else {
      hide Inv, Replay, Scan, Keys;
      var s, missed := After(lines, ops[..|ops| - 1]), Missed(lines, ops[..|ops| - 1]);
      RunInv(lines, ops[..|ops| - 1]);
      match ops[|ops| - 1]
      case Record(event, writable) => RecordInv(s, missed, event, writable);
      case Restart => LoadedInv(s.lines);
      case Elsewhere(line) => ElsewhereInv(s, missed, line);
    }
  }

  lemma LoadedInv(lines: seq<Line>)
    ensures Inv(Loaded(lines), 0)
  {
    ReplayDistinct(lines);
  }

  /**
   After any mix of records, failed writes, restarts and appends by others, memory equals a replay of the file exactly
   when no other process has logged a new event since the last load; and no two entries share a key.
   */
  lemma MemoryIsReplay(lines: seq<Line>, ops: seq<Op>)
    ensures var s := After(lines, ops);
            (s.entries == Replay(s.lines) <==> Missed(lines, ops) == 0) && DistinctKeys(s.entries) &&
            forall e :: e in s.entries ==> e in Replay(s.lines)
  {
    RunInv(lines, ops);
  }

  /** What is logged stays logged, in the same order: later operations only extend the replay of the file. */
  lemma NothingForgotten(lines: seq<Line>, ops: seq<Op>, op: Op)
    ensures Replay(After(lines, ops).lines) <= Replay(After(lines, ops + [op]).lines)
  {
    assert (ops + [op])[..|ops|] == ops;
    match op
    case Record(event, _) => ReplayAppend(After(lines, ops).lines, Row(EntryOf(event)));
    case Restart =>
    case Elsewhere(line) => ReplayAppend(After(lines, ops).lines, line);
  }

  lemma ScanGrows(s: State, op: Op)
    ensures Scan(s.lines) <= Scan(Apply(s, op).lines)
  {
    match op
    case Record(event, _) => ReplayAppend(s.lines, Row(EntryOf(event)));
    case Restart =>
    case Elsewhere(line) => ReplayAppend(s.lines, line);
  }

  /** Once an event has been recorded it is never accepted again, through any later restarts and other writers. */
  lemma {:induction false} RecordedOnce(lines: seq<Line>, ops: seq<Op>, i: nat, event: Event)
    requires i < |ops| && ops[i] == Record(event, true)
    ensures !Accepts(After(lines, ops), event)
    decreases |ops|
  {
    hide Inv, Replay, Keys, Missed, NewRow, Accepts, Apply, Scan, DedupKey;
    var before, op := ops[..|ops| - 1], ops[|ops| - 1];
    var s := After(lines, before);
    RunInv(lines, before);
    RunInv(lines, ops);
    AcceptsExactlyNew(s, Missed(lines, before), event);
    AcceptsExactlyNew(Apply(s, op), Missed(lines, ops), event);
    ScanGrows(s, op);
    if i < |before| {
      RecordedOnce(lines, before, i, event);
    } else {
      RecordScanned(s, event);
    }
  }

  lemma RecordScanned(s: State, event: Event)
    ensures Accepts(s, event) ==> DedupKey(event) in Scan(Apply(s, Record(event, true)).lines)
  {
    hide Replay, Keys, NewRow;
    ReplayAppend(s.lines, Row(EntryOf(event)));
    assert BAR in DedupKey(event);
  }

  // ---------------------------------------------------------------- the events behind the entries

  /** A record of this key could be written. */
  ghost predicate Wrote(ops: seq<Op>, key: string) {
    exists i :: 0 <= i < |ops| && WritesKey(ops[i], key)
  }

  predicate WritesKey(op: Op, key: string) {
    op.Record? && op.writable && DedupKey(op.event) == key
  }

  /** The first event of each key among those that could be written: what is counted of a history. */
  ghost function Counted(ops: seq<Op>): seq<Event> {
    if ops == [] then [] else
      var before, op := ops[..|ops| - 1], ops[|ops| - 1];
      if op.Record? && op.writable && !Wrote(before, DedupKey(op.event)) then Counted(before) + [op.event]
      else Counted(before)
  }

  /** Entry by entry, field by field. */
  ghost predicate Stands(e: Event, entry: Entry) {
    entry.dedupKey == DedupKey(e) && entry.orgId == e.orgId && entry.runId == e.runId && entry.stepId == e.stepId &&
    entry.attempt == e.attempt && entry.tokensIn == e.tokensIn && entry.tokensOut == e.tokensOut &&
    entry.wallClockMs == e.wallClockMs && entry.costMicros == e.costMicros
  }

  ghost predicate StandsFor(events: seq<Event>, entries: seq<Entry>) {
    |events| == |entries| && forall i :: 0 <= i < |events| ==> Stands(events[i], entries[i])
  }

  ghost predicate HasEntry(entries: seq<Entry>, key: string) {
    exists i :: 0 <= i < |entries| && entries[i].dedupKey == key
  }

  ghost predicate NoOthers(ops: seq<Op>) {
    forall i :: 0 <= i < |ops| ==> !ops[i].Elsewhere?
  }

  /** The file holds just the entries, in order. */
  ghost predicate Mirrors(s: State) {
    |s.lines| == |s.entries| && forall i :: 0 <= i < |s.lines| ==> s.lines[i] == Row(s.entries[i])
  }

  lemma {:induction false} NoneMissed(lines: seq<Line>, ops: seq<Op>)
    requires NoOthers(ops)
    ensures Missed(lines, ops) == 0
    decreases |ops|
  {
    if ops != [] {
      NoneMissed(lines, ops[..|ops| - 1]);
    }
  }

  /** The state after a history: what is in the file and in memory is what was counted. */
  ghost predicate Tallies(ops: seq<Op>, s: State) {
    Mirrors(s) && StandsFor(Counted(ops), s.entries) && forall key :: Wrote(ops, key) <==> HasEntry(s.entries, key)
  }

  lemma TalliesNone()
    ensures Tallies([], After([], []))
  {
    assert Replay([]) == [];
  }

  lemma TalliesRestart(ops: seq<Op>, s: State)
    requires Tallies(ops, s) && s.entries == Replay(s.lines)
    ensures Tallies(ops + [Restart], Apply(s, Restart))
  {
    hide Replay, Counted, Wrote;
    WroteNext(ops, Restart);
  }

  /** After a history on an empty file the entries are those of the counted events. */
  lemma {:induction false} CountedEntries(ops: seq<Op>)
    requires NoOthers(ops)
    ensures Tallies(ops, After([], ops))
    decreases |ops|
  {
    hide Inv, Replay, Scan, Counted, Wrote, DedupKey, Tallies, HasKey, Accepts, Apply;
    if ops == [] {
      TalliesNone();
    } else {
      var before, op := ops[..|ops| - 1], ops[|ops| - 1];
      var s := After([], before);
      CountedEntries(before);
      RunInv([], before);
      NoneMissed([], before);
      assert ops == before + [op];
      match op
      case Record(event, writable) =>
        AcceptsExactlyNew(s, 0, event);
        CountedRecord(s, before, event, writable);
      case Restart =>
        MemoryIsReplay([], before);
        TalliesRestart(before, s);
    }
  }

  lemma WroteNext(ops: seq<Op>, op: Op)
    ensures forall key :: Wrote(ops + [op], key) <==> Wrote(ops, key) || WritesKey(op, key)
    ensures Counted(ops + [op]) ==
            if op.Record? && op.writable && !Wrote(ops, DedupKey(op.event)) then Counted(ops) + [op.event] else Counted(ops)
  {
    var more := ops + [op];
    assert more[..|ops|] == ops;
    forall key
      ensures Wrote(more, key) <==> Wrote(ops, key) || WritesKey(op, key)
    {
      if Wrote(ops, key) {
        var i :| 0 <= i < |ops| && WritesKey(ops[i], key);
        assert WritesKey(more[i], key);
      }
      if WritesKey(op, key) {
        assert WritesKey(more[|ops|], key);
      }
      if Wrote(more, key) {
        var i :| 0 <= i < |more| && WritesKey(more[i], key);
        assert i < |ops| ==> WritesKey(ops[i], key);
      }
    }
  }

  lemma CountedRecord(s: State, before: seq<Op>, event: Event, writable: bool)
    requires Tallies(before, s)
    requires Accepts(s, event) <==> forall i :: 0 <= i < |s.lines| ==> !HasKey(s.lines[i], DedupKey(event))
    ensures Tallies(before + [Record(event, writable)], Apply(s, Record(event, writable)))
  {
    hide Scan, Replay, Counted, Wrote, DedupKey;
    var key := DedupKey(event);
    WroteNext(before, Record(event, writable));
    AcceptsMeans(s, event);
    assert Accepts(s, event) <==> !Wrote(before, key);
    var t := Apply(s, Record(event, writable));
    if writable && Accepts(s, event) {
      assert t.entries == s.entries + [EntryOf(event)];
      assert t.entries[|s.entries|].dedupKey == key;
    }
    forall k
      ensures HasEntry(t.entries, k) <==> HasEntry(s.entries, k) || (writable && k == key)
    {
      if i :| 0 <= i < |s.entries| && s.entries[i].dedupKey == k {
        assert t.entries[i].dedupKey == k;
      }
    }
  }
}
