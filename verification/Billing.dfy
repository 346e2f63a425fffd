/** Usage totals and run credits over ledger entries. */
module Billing {
  import opened UsageLedger

  const MAX_RETRIES_PER_STEP := 2
  const MAX_TOKENS := 400_000
  const MAX_SANDBOX_SECONDS := 45 * 60

  // ---------------------------------------------------------------- sums that do not depend on order

  function Sum(f: Entry -> int, s: seq<Entry>): int {
    if s == [] then 0 else Sum(f, s[..|s| - 1]) + f(s[|s| - 1])
  }

  lemma {:induction false} SumConcat(f: Entry -> int, s: seq<Entry>, t: seq<Entry>)
    ensures Sum(f, s + t) == Sum(f, s) + Sum(f, t)
    decreases |t|
  {
    if t == [] {
      assert s + t == s;
    } else {
      assert (s + t)[..|s + t| - 1] == s + t[..|t| - 1];
      SumConcat(f, s, t[..|t| - 1]);
    }
  }

  function Without(s: seq<Entry>, j: nat): seq<Entry>
    requires j < |s|
  {
    s[..j] + s[j + 1..]
  }

  lemma SumWithout(f: Entry -> int, s: seq<Entry>, j: nat)
    requires j < |s|
    ensures Sum(f, s) == Sum(f, Without(s, j)) + f(s[j])
  {
    var p, x, q := s[..j], [s[j]], s[j + 1..];
    assert s == p + (x + q);
    SumConcat(f, p, x + q);
    SumConcat(f, x, q);
    SumConcat(f, p, q);
    assert x[..0] == [];
  }

  lemma RowsWithout(s: seq<Entry>, j: nat)
    requires j < |s|
    ensures multiset(s) == multiset(Without(s, j)) + multiset{s[j]}
  {
    var p, x, q := s[..j], [s[j]], s[j + 1..];
    assert s == p + (x + q);
    assert multiset(p + (x + q)) == multiset(p) + multiset(x) + multiset(q);
  }

  lemma Cancel(a: multiset<Entry>, b: multiset<Entry>, x: Entry)
    ensures a + multiset{x} <= b + multiset{x} ==> a <= b
    ensures a + multiset{x} == b + multiset{x} ==> a == b
  {
    assert a == a + multiset{x} - multiset{x} && b == b + multiset{x} - multiset{x};
  }

  /** The sum depends on the rows but not on their order, and more non-negative rows never lower it. */
  lemma {:induction false} SumOfRows(f: Entry -> int, a: seq<Entry>, b: seq<Entry>)
    requires multiset(a) <= multiset(b)
    ensures multiset(a) == multiset(b) ==> Sum(f, a) == Sum(f, b)
    ensures (forall e :: e in b ==> 0 <= f(e)) ==> Sum(f, a) <= Sum(f, b)
    decreases |b|
  {
    if b == [] {
      assert |multiset(a)| <= |multiset(b)|;
    } else if a == [] {
      var rest := b[..|b| - 1];
      assert forall e :: e in rest ==> e in b;
      SumOfRows(f, [], rest);
      assert b[|b| - 1] in multiset(b);
    } else {
      hide Sum;
      var last, fewer := a[|a| - 1], a[..|a| - 1];
      var j := SameRow(a, b);
      SumWithout(f, a, |a| - 1);
      SumWithout(f, b, j);
      assert Without(a, |a| - 1) == fewer;
      SumOfRows(f, fewer, Without(b, j));
    }
  }

  /** A row of b like the last one of a; without the two the inclusion still holds. */
  lemma SameRow(a: seq<Entry>, b: seq<Entry>) returns (j: nat)
    requires multiset(a) <= multiset(b) && a != []
    ensures j < |b| && b[j] == a[|a| - 1]
    ensures multiset(a[..|a| - 1]) <= multiset(Without(b, j))
    ensures multiset(a) == multiset(b) ==> multiset(a[..|a| - 1]) == multiset(Without(b, j))
    ensures forall e :: e in Without(b, j) ==> e in b
  {
    hide Without;
    var last, fewer := a[|a| - 1], a[..|a| - 1];
    RowsWithout(a, |a| - 1);
    assert Without(a, |a| - 1) == fewer by { WithoutLast(a); }
    assert last in multiset(a) && last in multiset(b);
    j :| 0 <= j < |b| && b[j] == last;
    RowsWithout(b, j);
    Cancel(multiset(fewer), multiset(Without(b, j)), last);
    WithoutIn(b, j);
  }

  lemma WithoutLast(a: seq<Entry>)
    requires a != []
    ensures Without(a, |a| - 1) == a[..|a| - 1]
  {
  }

  lemma WithoutIn(b: seq<Entry>, j: nat)
    requires j < |b|
    ensures forall e :: e in Without(b, j) ==> e in b
  {
    var rest := Without(b, j);
    forall e | e in rest
      ensures e in b
    {
      var i :| 0 <= i < |rest| && rest[i] == e;
      assert e == b[if i < j then i else i + 1];
    }
  }

  // ---------------------------------------------------------------- credits of a run

  function TokensOf(e: Entry): int { e.tokensIn + e.tokensOut }

  function MillisOf(e: Entry): int { e.wallClockMs }

  function CostOf(e: Entry): int { e.costMicros }

  function Tokens(s: seq<Entry>): int { Sum(TokensOf, s) }

  function Millis(s: seq<Entry>): int { Sum(MillisOf, s) }

  /** Some step needed more than the retries a credit covers. */
  predicate RetriesExceeded(s: seq<Entry>) {
    exists e :: e in s && e.attempt > 1 + MAX_RETRIES_PER_STEP
  }

  function Extra(n: int, envelope: int): int
    requires envelope > 0
  {
    if n > envelope then n / envelope else 0
  }

  function CreditsForRun(s: seq<Entry>): int {
    1 + (if RetriesExceeded(s) then 1 else 0) + Extra(Tokens(s), MAX_TOKENS) +
    Extra(Millis(s) / 1000, MAX_SANDBOX_SECONDS)
  }

  /** The number of whole envelopes used, if more than one envelope was. */
  lemma ExtraExactly(n: int, envelope: int)
    requires envelope > 0 && 0 <= n
    ensures n <= envelope ==> Extra(n, envelope) == 0
    ensures n > envelope ==>
              1 <= Extra(n, envelope) && envelope * Extra(n, envelope) <= n < envelope * (Extra(n, envelope) + 1)
  {
    Quotient(n, envelope);
    NextMultiple(envelope, n / envelope);
    ExtraMonotone(n, n, envelope);
  }

  /** The credits of a run, from its rows: for each kind of use the blocks are the whole envelopes in it. */
  lemma CreditsExactly(s: seq<Entry>) returns (tokenBlocks: int, sandboxBlocks: int)
    requires NonNegative(s)
    ensures CreditsForRun(s) == 1 + (if exists e :: e in s && e.attempt > 3 then 1 else 0) + tokenBlocks + sandboxBlocks
    ensures if Tokens(s) <= 400_000 then tokenBlocks == 0
            else 400_000 * tokenBlocks <= Tokens(s) < 400_000 * (tokenBlocks + 1)
    ensures if Millis(s) < 2_701_000 then sandboxBlocks == 0
            else 2_700_000 * sandboxBlocks <= Millis(s) < 2_700_000 * (sandboxBlocks + 1)
  {
    tokenBlocks, sandboxBlocks := Extra(Tokens(s), MAX_TOKENS), Extra(Millis(s) / 1000, MAX_SANDBOX_SECONDS);
    assert forall e :: e in s ==> 0 <= TokensOf(e) && 0 <= MillisOf(e);
    SumNonNegative(TokensOf, s);
    SumNonNegative(MillisOf, s);
    ExtraExactly(Tokens(s), MAX_TOKENS);
    ExtraExactly(Millis(s) / 1000, MAX_SANDBOX_SECONDS);
  }

  lemma {:induction false} SumNonNegative(f: Entry -> int, s: seq<Entry>)
    requires forall e :: e in s ==> 0 <= f(e)
    ensures 0 <= Sum(f, s)
    decreases |s|
  {
    if s != [] {
      assert forall e :: e in s[..|s| - 1] ==> e in s;
      SumNonNegative(f, s[..|s| - 1]);
    }
  }

  lemma ExtraMonotone(m: int, n: int, envelope: int)
    requires envelope > 0 && m <= n
    ensures 0 <= Extra(m, envelope) <= Extra(n, envelope)
    ensures Extra(n, envelope) == 0 <==> n <= envelope
  {
    DivMonotone(m, n, envelope);
    DivMonotone(envelope, n, envelope);
    DivMonotone(envelope, m, envelope);
    OneEnvelope(envelope);
  }

  lemma DivMonotone(m: int, n: int, d: int)
    requires d > 0
    ensures m <= n ==> m / d <= n / d
  {
    var a, b := m / d, n / d;
    Quotient(m, d);
    Quotient(n, d);
    if a > b {
      StepUp(d, a, b);
    }
  }

  lemma Quotient(n: int, d: int)
    requires d > 0
    ensures d * (n / d) <= n < d * (n / d) + d
  {
  }

  lemma {:induction false} StepUp(d: int, a: int, b: int)
    requires d > 0 && a > b
    ensures d * a >= d * b + d
    decreases a - b
  {
    if a == b + 1 {
      NextMultiple(d, b);
    } else {
      StepUp(d, a - 1, b);
      NextMultiple(d, a - 1);
    }
  }

  lemma NextMultiple(d: int, n: int)
    ensures d * (n + 1) == d * n + d
  {
  }

  lemma OneEnvelope(d: int)
    requires d > 0
    ensures d / d == 1
  {
    var q := d / d;
    Quotient(d, d);
    if q > 1 {
      StepUp(d, q, 1);
    } else if q < 1 {
      StepUp(d, 1, q);
    }
  }

  ghost predicate NonNegative(s: seq<Entry>) {
    forall e :: e in s ==> 0 <= e.tokensIn && 0 <= e.tokensOut && 0 <= e.wallClockMs
  }

  /** Credits depend on the rows of a run but not on their order, and never fall as rows are added. */
  lemma CreditsOfRows(a: seq<Entry>, b: seq<Entry>)
    requires multiset(a) <= multiset(b)
    ensures multiset(a) == multiset(b) ==> CreditsForRun(a) == CreditsForRun(b)
    ensures NonNegative(b) ==> 1 <= CreditsForRun(a) <= CreditsForRun(b)
  {
    SumOfRows(TokensOf, a, b);
    SumOfRows(MillisOf, a, b);
    assert forall e :: e in a <==> e in multiset(a);
    assert forall e :: e in b <==> e in multiset(b);
    if Tokens(a) <= Tokens(b) && Millis(a) <= Millis(b) {
      DivMonotone(Millis(a), Millis(b), 1000);
      ExtraMonotone(Tokens(a), Tokens(b), MAX_TOKENS);
      ExtraMonotone(Millis(a) / 1000, Millis(b) / 1000, MAX_SANDBOX_SECONDS);
    }
  }

  /** One credit exactly for the runs inside the envelope; the number of agent steps is not looked at. */
  lemma OneCreditInEnvelope(s: seq<Entry>)
    ensures CreditsForRun(s) >= 1
    ensures CreditsForRun(s) == 1 <==>
            (forall e :: e in s ==> e.attempt <= 3) && Tokens(s) <= 400_000 && Millis(s) / 1000 <= 2700
  {
    ExtraMonotone(Tokens(s), Tokens(s), MAX_TOKENS);
    ExtraMonotone(Millis(s) / 1000, Millis(s) / 1000, MAX_SANDBOX_SECONDS);
  }

  /** The envelope of steps that the pricing text promises is not enforced: a run of any number of steps can cost 1. */
  lemma ManyStepsOneCredit(n: nat) returns (s: seq<Entry>)
    ensures |s| == n && CreditsForRun(s) == 1
    ensures forall i, j :: 0 <= i < j < n ==> s[i].stepId != s[j].stepId
    decreases n
  {
    s := Idle(n);
    OneCreditInEnvelope(s);
  }

  /** `n` entries of different steps that used nothing. */
  lemma {:induction false} Idle(n: nat) returns (s: seq<Entry>)
    ensures |s| == n && Tokens(s) == 0 && Millis(s) == 0
    ensures forall i :: 0 <= i < n ==> |s[i].stepId| == i && s[i].attempt == 1
    decreases n
  {
    if n == 0 {
      s := [];
    } else {
      var before := Idle(n - 1);
      s := before + [Entry("", "", "", seq(n - 1, _ => 's'), 1, 0, 0, 0, 0)];
      assert s[..n - 1] == before;
    }
  }

  /** One of the first `n` rows is an attempt beyond the envelope. */
  ghost predicate Beyond(events: seq<Entry>, n: nat)
    requires n <= |events|
  {
    exists j :: 0 <= j < n && events[j].attempt > 1 + MAX_RETRIES_PER_STEP
  }

  lemma BeyondAll(events: seq<Entry>)
    ensures Beyond(events, |events|) <==> RetriesExceeded(events)
  {
    if e :| e in events && e.attempt > 1 + MAX_RETRIES_PER_STEP {
      var j :| 0 <= j < |events| && events[j] == e;
    }
  }

  lemma BeyondNone(events: seq<Entry>)
    ensures !Beyond(events, 0)
  {
  }

  lemma BeyondNext(events: seq<Entry>, n: nat)
    requires n < |events|
    ensures Beyond(events, n + 1) <==> Beyond(events, n) || events[n].attempt > 1 + MAX_RETRIES_PER_STEP
  {
  }

  /** The dictionary of attempts per step, and the test on its values. */
  method RunMaxRetriesExceeded(events: seq<Entry>) returns (exceeded: bool)
    ensures exceeded <==> RetriesExceeded(events)
  {
    hide Beyond, RetriesExceeded;
    var attempts: map<string, int> := map[];
    var i := 0;
    BeyondNone(events);
    while i < |events|
      invariant i <= |events|
      invariant (exists step :: step in attempts && attempts[step] > 1 + MAX_RETRIES_PER_STEP) <==> Beyond(events, i)
    {
      var e := events[i];
      BeyondNext(events, i);
      RaiseAttempt(attempts, e);
      attempts := attempts[e.stepId := Max(if e.stepId in attempts then attempts[e.stepId] else 0, e.attempt)];
      i := i + 1;
    }
    BeyondAll(events);
    exceeded := exists step :: step in attempts && attempts[step] > 1 + MAX_RETRIES_PER_STEP;
  }

  lemma RaiseAttempt(attempts: map<string, int>, e: Entry)
    ensures var raised := attempts[e.stepId := Max(if e.stepId in attempts then attempts[e.stepId] else 0, e.attempt)];
            (exists step :: step in raised && raised[step] > 1 + MAX_RETRIES_PER_STEP) <==>
            (exists step :: step in attempts && attempts[step] > 1 + MAX_RETRIES_PER_STEP) ||
            e.attempt > 1 + MAX_RETRIES_PER_STEP
  {
    var raised := attempts[e.stepId := Max(if e.stepId in attempts then attempts[e.stepId] else 0, e.attempt)];
    assert e.stepId in raised;
    if step :| step in attempts && attempts[step] > 1 + MAX_RETRIES_PER_STEP {
      assert step in raised && raised[step] >= attempts[step];
    }
  }

  function Max(a: int, b: int): int { if a < b then b else a }

  method ComputeCreditsForRun(events: seq<Entry>) returns (credits: int)
    ensures credits == CreditsForRun(events)
  {
    credits := 1;
    var exceeded := RunMaxRetriesExceeded(events);
    if exceeded {
      credits := credits + 1;
    }
    var tokens := Tokens(events);
    if tokens > MAX_TOKENS {
      credits := credits + tokens / MAX_TOKENS;
    }
    var sandboxSeconds := Millis(events) / 1000;
    if sandboxSeconds > MAX_SANDBOX_SECONDS {
      credits := credits + sandboxSeconds / MAX_SANDBOX_SECONDS;
    }
  }

  // ---------------------------------------------------------------- grouping by run and by organization

  function OfRun(s: seq<Entry>, run: string): seq<Entry> {
    if s == [] then [] else
      OfRun(s[..|s| - 1], run) + if s[|s| - 1].runId == run then [s[|s| - 1]] else []
  }

  method CreditsForLedgerEntries(entries: seq<Entry>) returns (credits: map<string, int>)
    ensures forall run :: run in credits <==> OfRun(entries, run) != []
    ensures forall run :: run in credits ==> credits[run] == CreditsForRun(OfRun(entries, run))
  {
    hide OfRun, CreditsForRun;
    var runs := GroupByRun(entries);
    credits := map[];
    var left := runs.Keys;
    while left != {}
      invariant credits.Keys == runs.Keys - left && left <= runs.Keys
      invariant forall run :: run in credits ==> credits[run] == CreditsForRun(runs[run])
      decreases |left|
    {
      var run :| run in left;
      var n := ComputeCreditsForRun(runs[run]);
      credits := credits[run := n];
      left := left - {run};
    }
  }

  method GroupByRun(entries: seq<Entry>) returns (runs: map<string, seq<Entry>>)
    ensures forall run :: run in runs <==> OfRun(entries, run) != []
    ensures forall run :: run in runs ==> runs[run] == OfRun(entries, run)
  {
    hide OfRun;
    runs := map[];
    var i := 0;
    NoRows();
    assert entries[..0] == [];
    while i < |entries|
      invariant i <= |entries|
      invariant forall run :: run in runs <==> OfRun(entries[..i], run) != []
      invariant forall run :: run in runs ==> runs[run] == OfRun(entries[..i], run)
    {
      var e := entries[i];
      NextRow(entries, i);
      runs := runs[e.runId := (if e.runId in runs then runs[e.runId] else []) + [e]];
      i := i + 1;
    }
    assert entries[..i] == entries;
  }

  lemma NoRows()
    ensures forall run :: OfRun([], run) == []
  {
  }

  lemma NextRow(entries: seq<Entry>, i: nat)
    requires i < |entries|
    ensures forall run :: OfRun(entries[..i + 1], run) ==
                          if entries[i].runId == run then OfRun(entries[..i], run) + [entries[i]] else OfRun(entries[..i], run)
  {
    assert entries[..i + 1][..i] == entries[..i];
  }

  lemma {:induction false} OfRunRows(a: seq<Entry>, run: string, x: Entry)
    ensures multiset(OfRun(a, run))[x] == if x.runId == run then multiset(a)[x] else 0
    decreases |a|
  {
    if a != [] {
      var rest, last := a[..|a| - 1], a[|a| - 1];
      assert a == rest + [last];
      OfRunRows(rest, run, x);
    }
  }

  /** The credits of every run depend on the ledger's rows but not on their order, and never fall as rows are added. */
  lemma LedgerCredits(a: seq<Entry>, b: seq<Entry>, run: string)
    requires multiset(a) <= multiset(b)
    ensures multiset(a) == multiset(b) ==> CreditsForRun(OfRun(a, run)) == CreditsForRun(OfRun(b, run))
    ensures NonNegative(b) ==> CreditsForRun(OfRun(a, run)) <= CreditsForRun(OfRun(b, run))
  {
    forall x: Entry
      ensures multiset(OfRun(a, run))[x] <= multiset(OfRun(b, run))[x]
      ensures multiset(a) == multiset(b) ==> multiset(OfRun(a, run))[x] == multiset(OfRun(b, run))[x]
      ensures x in OfRun(b, run) ==> x in b
    {
      OfRunRows(a, run, x);
      OfRunRows(b, run, x);
      assert x in OfRun(b, run) ==> x in multiset(OfRun(b, run));
    }
    CreditsOfRows(OfRun(a, run), OfRun(b, run));
  }

  // ---------------------------------------------------------------- snapshots of organizations

  datatype Totals = Totals(runs: nat, tokens: int, sandboxMs: int, costMicros: int)

  function OfOrg(s: seq<Entry>, org: string): seq<Entry> {
    if s == [] then [] else
      OfOrg(s[..|s| - 1], org) + if s[|s| - 1].orgId == org then [s[|s| - 1]] else []
  }

  function Cost(s: seq<Entry>): int { Sum(CostOf, s) }

  function Snapshot(s: seq<Entry>, org: string): Totals {
    var mine := OfOrg(s, org);
    Totals(|set e | e in mine :: e.runId|, Tokens(mine), Millis(mine), Cost(mine))
  }

  /** What one more row adds to a snapshot: its use, if it is the organization's, and its run, if that is a new one. */
  lemma SnapshotRow(s: seq<Entry>, e: Entry, org: string)
    ensures Snapshot([], org) == Totals(0, 0, 0, 0)
    ensures var before, after := Snapshot(s, org), Snapshot(s + [e], org);
            if e.orgId != org then after == before
            else
              after.tokens == before.tokens + e.tokensIn + e.tokensOut && after.sandboxMs == before.sandboxMs + e.wallClockMs &&
              after.costMicros == before.costMicros + e.costMicros &&
              after.runs == before.runs + if exists x :: x in s && x.orgId == org && x.runId == e.runId then 0 else 1
  {
    hide Sum, OfOrg;
    OfOrgNext(s, e, org);
    NoneOfOrg(org);
    if e.orgId == org {
      SumLast(TokensOf, OfOrg(s, org), e);
      SumLast(MillisOf, OfOrg(s, org), e);
      SumLast(CostOf, OfOrg(s, org), e);
      RunsNext(s, e, org);
    }
  }

  lemma NoneOfOrg(org: string)
    ensures Snapshot([], org) == Totals(0, 0, 0, 0)
  {
    assert (set e: Entry | e in [] :: e.runId) == {};
  }

  lemma OfOrgNext(s: seq<Entry>, e: Entry, org: string)
    ensures OfOrg(s + [e], org) == if e.orgId == org then OfOrg(s, org) + [e] else OfOrg(s, org)
  {
    assert (s + [e])[..|s|] == s;
  }

  lemma SumLast(f: Entry -> int, s: seq<Entry>, e: Entry)
    ensures Sum(f, s + [e]) == Sum(f, s) + f(e)
  {
    assert (s + [e])[..|s|] == s;
  }

  lemma RunsNext(s: seq<Entry>, e: Entry, org: string)
    requires e.orgId == org
    ensures var mine := OfOrg(s, org);
            |set x | x in mine + [e] :: x.runId| ==
            |set x | x in mine :: x.runId| + if exists x :: x in s && x.orgId == org && x.runId == e.runId then 0 else 1
  {
    hide OfOrg;
    var mine := OfOrg(s, org);
    OfOrgRows(s, org);
    var runs := set x | x in mine :: x.runId;
    assert (set x | x in mine + [e] :: x.runId) == runs + {e.runId};
    assert e.runId in runs <==> exists x :: x in s && x.orgId == org && x.runId == e.runId;
  }

  lemma {:induction false} OfOrgRows(s: seq<Entry>, org: string)
    ensures forall x :: x in OfOrg(s, org) <==> x in s && x.orgId == org
    decreases |s|
  {
    if s != [] {
      OfOrgRows(s[..|s| - 1], org);
      assert s == s[..|s| - 1] + [s[|s| - 1]];
    }
  }

  function SumOrgs(f: Entry -> int, s: seq<Entry>, orgs: seq<string>): int {
    if orgs == [] then 0 else SumOrgs(f, s, orgs[..|orgs| - 1]) + Sum(f, OfOrg(s, orgs[|orgs| - 1]))
  }

  predicate Distinct(orgs: seq<string>) {
    forall i, j :: 0 <= i < j < |orgs| ==> orgs[i] != orgs[j]
  }

  /** One more row counts for its own organization and for no other. */
  lemma {:induction false} SumOrgsRow(f: Entry -> int, s: seq<Entry>, e: Entry, orgs: seq<string>)
    requires Distinct(orgs)
    ensures SumOrgs(f, s + [e], orgs) == SumOrgs(f, s, orgs) + if e.orgId in orgs then f(e) else 0
    decreases |orgs|
  {
    if orgs != [] {
      var rest, org := orgs[..|orgs| - 1], orgs[|orgs| - 1];
      SumOrgsRow(f, s, e, rest);
      assert (s + [e])[..|s|] == s && orgs == rest + [org];
      assert OfOrg(s + [e], org) == if e.orgId == org then OfOrg(s, org) + [e] else OfOrg(s, org);
      SumConcat(f, OfOrg(s, org), [e]);
      assert [e][..0] == [] && Sum(f, [e]) == f(e);
    }
  }

  lemma {:induction false} SumOrgsNone(f: Entry -> int, orgs: seq<string>)
    ensures SumOrgs(f, [], orgs) == 0
    decreases |orgs|
  {
    if orgs != [] {
      SumOrgsNone(f, orgs[..|orgs| - 1]);
    }
  }

  lemma {:induction false} OrgsPartition(f: Entry -> int, s: seq<Entry>, orgs: seq<string>)
    requires Distinct(orgs) && forall e :: e in s ==> e.orgId in orgs
    ensures SumOrgs(f, s, orgs) == Sum(f, s)
    decreases |s|
  {
    if s == [] {
      SumOrgsNone(f, orgs);
    } else {
      var rest, last := s[..|s| - 1], s[|s| - 1];
      assert s == rest + [last] && last in s && forall e :: e in rest ==> e in s;
      OrgsPartition(f, rest, orgs);
      SumOrgsRow(f, rest, last, orgs);
    }
  }

  /** Snapshot totals added over some organizations. */
  function Added(s: seq<Entry>, orgs: seq<string>): (int, int, int) {
    if orgs == [] then (0, 0, 0) else
      var before, one := Added(s, orgs[..|orgs| - 1]), Snapshot(s, orgs[|orgs| - 1]);
      (before.0 + one.tokens, before.1 + one.sandboxMs, before.2 + one.costMicros)
  }

  lemma {:induction false} AddedSums(s: seq<Entry>, orgs: seq<string>)
    ensures Added(s, orgs) == (SumOrgs(TokensOf, s, orgs),
                               SumOrgs(MillisOf, s, orgs),
                               SumOrgs(CostOf, s, orgs))
    decreases |orgs|
  {
    if orgs != [] {
      AddedSums(s, orgs[..|orgs| - 1]);
    }
  }

  /**
   Conservation: after any mix of records and restarts of one ledger the snapshots of all organizations add up to the
   usage of the distinct events in the file.
   */
  lemma SnapshotsConserve(lines: seq<Line>, ops: seq<Op>, orgs: seq<string>)
    requires Missed(lines, ops) == 0 && Distinct(orgs)
    requires forall e :: e in After(lines, ops).entries ==> e.orgId in orgs
    ensures var s := After(lines, ops); var logged := Replay(s.lines);
            DistinctKeys(logged) && Added(s.entries, orgs) == (Tokens(logged), Millis(logged), Cost(logged))
  {
    hide After, Missed, Replay, Keys;
    var entries := After(lines, ops).entries;
    MemoryIsReplay(lines, ops);
    AddedSums(entries, orgs);
    OrgsPartition(TokensOf, entries, orgs);
    OrgsPartition(MillisOf, entries, orgs);
    OrgsPartition(CostOf, entries, orgs);
  }

  /** What events used: tokens in and out, milliseconds, and micro-dollars. */
  function Used(events: seq<Event>): (int, int, int) {
    if events == [] then (0, 0, 0) else
      var before, e := Used(events[..|events| - 1]), events[|events| - 1];
      (before.0 + e.tokensIn + e.tokensOut, before.1 + e.wallClockMs, before.2 + e.costMicros)
  }

  lemma {:induction false} UsedIsSummed(events: seq<Event>, entries: seq<Entry>)
    requires StandsFor(events, entries)
    ensures (Tokens(entries), Millis(entries), Cost(entries)) == Used(events)
    decreases |events|
  {
    if events != [] {
      assert Stands(events[|events| - 1], entries[|events| - 1]);
      UsedIsSummed(events[..|events| - 1], entries[..|events| - 1]);
    }
  }

  /**
   Conservation over events: after any records, failed writes and restarts on an empty file the snapshots of all
   organizations add up to what the events used, each key counted once, by the first event that could be written.
   */
  lemma EventsConserve(ops: seq<Op>, orgs: seq<string>)
    requires NoOthers(ops) && Distinct(orgs) && forall e :: e in Counted(ops) ==> e.orgId in orgs
    ensures Added(After([], ops).entries, orgs) == Used(Counted(ops))
  {
    hide After, Missed, Replay, Keys, Counted, Wrote, Mirrors;
    var entries := After([], ops).entries;
    CountedEntries(ops);
    NoneMissed([], ops);
    MemoryIsReplay([], ops);
    forall e | e in entries
      ensures e.orgId in orgs
    {
      var i :| 0 <= i < |entries| && entries[i] == e;
      assert Stands(Counted(ops)[i], entries[i]) && Counted(ops)[i] in Counted(ops);
    }
    SnapshotsConserve([], ops, orgs);
    UsedIsSummed(Counted(ops), entries);
  }
}
