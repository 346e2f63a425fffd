/** Which failures of a queued run may be retried, decided from the text of the error. */
module FailurePolicy {
  import opened Text

  /** An exception: the name of its type and its message. */
  datatype Failure = Failure(name: string, message: string)

  datatype FailureClass =
    Transient | RateLimit | Sandbox | PatchConflict | Security | Configuration | InvalidInput | BudgetExceeded | Unknown

  function LowerChar(c: char): char {
    if 'A' <= c <= 'Z' then (c as int + 32) as char else c
  }

  /** `str.lower`, on ASCII letters. */
  function Lower(s: string): (r: string)
    ensures |r| == |s|
  {
    if s == "" then "" else [LowerChar(s[0])] + Lower(s[1..])
  }

  predicate OccursAt(word: string, s: string, i: nat) {
    i + |word| <= |s| && s[i..i + |word|] == word
  }

  /** `word in s` */
  predicate Contains(s: string, word: string) {
    exists i :: 0 <= i <= |s| && OccursAt(word, s, i)
  }

  function Classify(failure: Failure): FailureClass {
    var message, name := Lower(failure.message), Lower(failure.name);
    if Contains(message, "budget") || Contains(name, "budgetexceeded") then BudgetExceeded
    else if Contains(message, "security") || Contains(message, "forbidden") || Contains(message, "permission") then Security
    else if Contains(message, "config") || Contains(message, "environment") || Contains(message, "required") then Configuration
    else if Contains(message, "invalid") || Contains(message, "validation") then InvalidInput
    else if Contains(message, "rate limit") || Contains(message, "429") || Contains(name, "ratelimit") then RateLimit
    else if Contains(message, "sandbox") || Contains(message, "microvm") || Contains(message, "firecracker") then Sandbox
    else if Contains(message, "conflict") || (Contains(message, "patch") && Contains(message, "apply")) then PatchConflict
    else if Contains(message, "timeout") || Contains(message, "timed out") || Contains(message, "connection")
         || Contains(message, "temporarily") || Contains(message, "unavailable") || Contains(message, "503") then Transient
    else Unknown
  }

  predicate ShouldRetry(failure: Failure) {
    Classify(failure) !in {Security, Configuration, InvalidInput, BudgetExceeded}
  }

  /** The words that make a failure final wherever they occur in its message. */
  predicate HasFinalWord(message: string) {
    Contains(message, "budget") || Contains(message, "security") || Contains(message, "forbidden")
    || Contains(message, "permission") || Contains(message, "config") || Contains(message, "environment")
    || Contains(message, "required") || Contains(message, "invalid") || Contains(message, "validation")
  }

  const RUN_PREFIX := "Execution lease lost for run "

  /** What a worker raises when it can no longer prove that it owns the job. */
  function LeaseLost(runId: string): Failure {
    Failure("ExecutionLeaseLost", RUN_PREFIX + runId)
  }

  const JOB_PREFIX := "Lost execution lease for job "

  /** What `mark_started` raises when the lease has gone. */
  function StartLost(jobId: string): Failure {
    Failure("RuntimeError", JOB_PREFIX + jobId)
  }

  lemma {:induction false} LowerAppend(a: string, b: string)
    ensures Lower(a + b) == Lower(a) + Lower(b)
  {
    if a == "" {
      assert a + b == b;
    } else {
      LowerAppend(a[1..], b);
      assert (a + b)[1..] == a[1..] + b;
    }
  }

  lemma {:induction false} LowerAt(s: string, i: nat)
    requires i < |s|
    ensures Lower(s)[i] == LowerChar(s[i])
  {
    if i > 0 {
      LowerAt(s[1..], i - 1);
    }
  }

  lemma LowerLacks(s: string, lower: char, upper: char)
    requires 'a' <= lower <= 'z' && upper as int + 32 == lower as int && lower !in s && upper !in s
    ensures lower !in Lower(s)
  {
    forall i | 0 <= i < |s|
      ensures Lower(s)[i] != lower
    {
      LowerAt(s, i);
      assert s[i] in s;
    }
  }

  /** A word without spaces that needs a letter the prefix lacks can only occur after the prefix. */
  lemma OccursAfter(prefix: string, s: string, word: string, c: char)
    requires prefix != "" && prefix[|prefix| - 1] == ' ' && ' ' !in word
    requires c in word && c !in prefix
    ensures Contains(prefix + s, word) == Contains(s, word)
  {
    var t := prefix + s;
    var k :| 0 <= k < |word| && word[k] == c;
    if Contains(t, word) {
      var i :| 0 <= i <= |t| && OccursAt(word, t, i);
      assert forall m :: i <= m < i + |word| ==> t[i..i + |word|][m - i] == t[m] == word[m - i];
      assert forall m :: 0 <= m < |prefix| ==> t[m] == prefix[m];
      assert t[i + k] == c && t[|prefix| - 1] == ' ';
      assert i >= |prefix|;
      assert s[i - |prefix|..i - |prefix| + |word|] == word;
      assert OccursAt(word, s, i - |prefix|);
    }
    if Contains(s, word) {
      var i :| 0 <= i <= |s| && OccursAt(word, s, i);
      assert t[|prefix| + i..|prefix| + i + |word|] == word;
      assert OccursAt(word, t, |prefix| + i);
    }
  }

  lemma NotContained(s: string, word: string, k: nat)
    requires k < |word| && word[k] !in s
    ensures !Contains(s, word)
  {
    assert forall i: nat :: OccursAt(word, s, i) ==> s[i..i + |word|][k] == s[i + k];
  }

  lemma PrefixLetters(c: char)
    ensures c in RUN_PREFIX ==> c == 'E' || c in "xecution las fr"
    ensures c in JOB_PREFIX ==> c == 'L' || c in "ost executilnafrjb"
  {
  }

  /** Both prefixes lack `y`, `d`, `m` and `g`. */
  lemma PrefixLacks(prefix: string, lower: char, upper: char)
    requires prefix == RUN_PREFIX || prefix == JOB_PREFIX
    requires lower in "ydmg" && upper as int + 32 == lower as int
    ensures lower !in Lower(prefix)
  {
    hide Lower;
    PrefixLetters(lower);
    PrefixLetters(upper);
    LowerLacks(prefix, lower, upper);
  }

  lemma PrefixEnds(prefix: string)
    requires prefix == RUN_PREFIX || prefix == JOB_PREFIX
    ensures prefix != "" && prefix[|prefix| - 1] == ' '
  {
  }

  lemma AfterPrefix(prefix: string, s: string, word: string, c: char)
    requires prefix == RUN_PREFIX || prefix == JOB_PREFIX
    requires c in "ydmg" && c in word && ' ' !in word
    ensures Contains(Lower(prefix) + s, word) == Contains(s, word)
  {
    hide Contains, Lower;
    PrefixEnds(prefix);
    LowerAt(prefix, |prefix| - 1);
    PrefixLacks(prefix, c, (c as int - 32) as char);
    OccursAfter(Lower(prefix), s, word, c);
  }

  /** Each final word has a letter that the fixed part of the message lacks. */
  lemma AfterFixedPart(prefix: string, s: string)
    requires prefix == RUN_PREFIX || prefix == JOB_PREFIX
    ensures HasFinalWord(Lower(prefix) + s) == HasFinalWord(s)
  {
    hide Contains, Lower;
    AfterPrefix(prefix, s, "budget", 'g');
    AfterPrefix(prefix, s, "security", 'y');
    AfterPrefix(prefix, s, "forbidden", 'd');
    AfterPrefix(prefix, s, "permission", 'm');
    AfterPrefix(prefix, s, "config", 'g');
    AfterPrefix(prefix, s, "environment", 'm');
    AfterPrefix(prefix, s, "required", 'd');
    AfterPrefix(prefix, s, "invalid", 'd');
    AfterPrefix(prefix, s, "validation", 'd');
  }

  lemma RetryByWords(failure: Failure)
    ensures ShouldRetry(failure)
       <==> !HasFinalWord(Lower(failure.message)) && !Contains(Lower(failure.name), "budgetexceeded")
  {
    hide Contains, Lower;
  }

  lemma LostNames()
    ensures !Contains(Lower("ExecutionLeaseLost"), "budgetexceeded") && !Contains(Lower("RuntimeError"), "budgetexceeded")
  {
    hide Lower, Contains;
    LowerLacks("ExecutionLeaseLost", 'b', 'B');
    NotContained(Lower("ExecutionLeaseLost"), "budgetexceeded", 0);
    LowerLacks("RuntimeError", 'b', 'B');
    NotContained(Lower("RuntimeError"), "budgetexceeded", 0);
  }

  /**
   A lost lease, noticed during the run or when starting it, is retried if and only if the id in the message has none
   of the final words: the id is part of the text that is searched.
   */
  lemma LeaseLossRetried(id: string)
    ensures ShouldRetry(LeaseLost(id)) <==> !HasFinalWord(Lower(id))
    ensures ShouldRetry(StartLost(id)) <==> !HasFinalWord(Lower(id))
  {
    RetryByWords(LeaseLost(id));
    RetryByWords(StartLost(id));
    LostNames();
    hide Contains, Classify, Lower, HasFinalWord, ShouldRetry;
    LowerAppend(RUN_PREFIX, id);
    LowerAppend(JOB_PREFIX, id);
    AfterFixedPart(RUN_PREFIX, Lower(id));
    AfterFixedPart(JOB_PREFIX, Lower(id));
  }

  // ---------------------------------------------------------------- the ids the program makes

  predicate IsHex(s: string) {
    forall c :: c in s ==> '0' <= c <= '9' || 'a' <= c <= 'f'
  }

  /** Letters and digits of the ids, among them no `g` and no `i`. */
  predicate IdChar(c: char) {
    '0' <= c <= '9' || 'a' <= c <= 'f' || c in "runjobety:_"
  }

  predicate MadeId(id: string) {
    forall c :: c in id ==> IdChar(c)
  }

  /** What `uuid4().hex` is put after, and what a retry is named after its predecessor. */
  lemma MadeIds(hex: string, id: string, digits: string)
    requires IsHex(hex) && MadeId(id) && IsHex(digits)
    ensures MadeId("run_" + hex) && MadeId("job_" + hex) && MadeId(id + ":retry:" + digits)
  {
  }

  /** Every final word has a `g` or an `i`. */
  lemma NoFinalWord(s: string)
    requires 'g' !in s && 'i' !in s
    ensures !HasFinalWord(s)
  {
    hide Contains;
    NotContained(s, "budget", 3);
    NotContained(s, "security", 5);
    NotContained(s, "forbidden", 4);
    NotContained(s, "permission", 4);
    NotContained(s, "config", 4);
    NotContained(s, "environment", 3);
    NotContained(s, "required", 4);
    NotContained(s, "invalid", 0);
    NotContained(s, "validation", 3);
  }

  /** A lost lease is always retried when the id is one the program made. */
  lemma MadeIdRetried(id: string)
    requires MadeId(id)
    ensures ShouldRetry(LeaseLost(id)) && ShouldRetry(StartLost(id))
  {
    hide Lower, HasFinalWord, ShouldRetry;
    LeaseLossRetried(id);
    LowerLacks(id, 'g', 'G');
    LowerLacks(id, 'i', 'I');
    NoFinalWord(Lower(id));
  }
}
