/** Strings, options and results shared by the models of the text-handling code. */
module Text {

  datatype Option<+T> = None | Some(value: T)

  datatype Result<+T> = Ok(value: T) | Err(error: string)

  /** `str(n)` */
  function Decimal(n: nat): (s: string)
    ensures s != ""
  {
    if n < 10 then [Digit(n)] else Decimal(n / 10) + [Digit(n % 10)]
  }

  function Digit(d: nat): char
    requires d < 10
  {
    '0' + d as char
  }

  predicate StartsWith(s: string, prefix: string) {
    prefix <= s
  }

  /** The characters at which Python's `str.splitlines` ends a line. */
  predicate IsBoundary(c: char) {
    c == '\n' || c == '\r' || c == '\U{0B}' || c == '\U{0C}' || c == '\U{1C}' || c == '\U{1D}'
    || c == '\U{1E}' || c == '\U{85}' || c == '\U{2028}' || c == '\U{2029}'
  }

  predicate NoBoundary(s: string) {
    forall i :: 0 <= i < |s| ==> !IsBoundary(s[i])
  }

  /** Length of the first line of `s`, its terminator included. */
  function LineLength(s: string): (n: nat)
    requires s != ""
    ensures 0 < n <= |s|
  {
    if s[0] == '\r' && |s| > 1 && s[1] == '\n' then 2
    else if IsBoundary(s[0]) || |s| == 1 then 1
    else 1 + LineLength(s[1..])
  }

  /** `s.splitlines(keepends=True)` */
  function SplitLines(s: string): (lines: seq<string>)
    ensures Join(lines) == s
  {
    if s == "" then []
    else
      var n := LineLength(s);
      [s[..n]] + SplitLines(s[n..])
  }

  /** `"".join(lines)` */
  function Join(lines: seq<string>): string {
    if lines == [] then "" else lines[0] + Join(lines[1..])
  }

  /** `s.rstrip("\r\n")` */
  function RStrip(s: string): (r: string)
    ensures r <= s
  {
    if s != "" && (s[|s| - 1] == '\n' || s[|s| - 1] == '\r') then RStrip(s[..|s| - 1]) else s
  }

  // ---------------------------------------------------------------- lines closed at "\n"

  /** A line in the sense of POSIX: it ends at its only "\n". */
  predicate ClosedLine(line: string) {
    EndsLine(line) && '\n' !in line[..|line| - 1]
  }

  predicate EndsLine(s: string) {
    s != "" && s[|s| - 1] == '\n'
  }

  /** Every line is closed, except that the last one may stop short of its "\n". */
  predicate ClosedLines(lines: seq<string>) {
    forall i :: 0 <= i < |lines| ==>
      ClosedLine(lines[i]) || (i == |lines| - 1 && lines[i] != "" && '\n' !in lines[i])
  }

  /** Nothing that `str.splitlines` takes for the end of a line, except at the very end. */
  predicate OneLine(s: string) {
    s != "" && LineLength(s) == |s|
  }

  lemma {:induction false} JoinAppend(a: seq<string>, b: seq<string>)
    ensures Join(a + b) == Join(a) + Join(b)
  {
    if a == [] {
      assert a + b == b;
    } else {
      JoinAppend(a[1..], b);
      JoinFirst(a, b);
      ConcatAssoc(a[0], Join(a[1..]), Join(b));
    }
  }

  lemma JoinFirst(a: seq<string>, b: seq<string>)
    requires a != []
    ensures Join(a) == a[0] + Join(a[1..]) && Join(a + b) == a[0] + Join(a[1..] + b)
  {
    assert (a + b)[1..] == a[1..] + b;
  }

  lemma ConcatAssoc<T>(a: seq<T>, b: seq<T>, c: seq<T>)
    ensures a + b + c == a + (b + c)
  {
  }

  // ---------------------------------------------------------------- where `str.splitlines` cuts

  lemma {:induction false} LineLengthPrefix(a: string, b: string)
    requires EndsLine(a)
    ensures LineLength(a + b) == LineLength(a)
    decreases |a|
  {
    var s := a + b;
    if |a| > 1 {
      assert s[0] == a[0] && s[1] == a[1] && s[1..] == a[1..] + b;
      LineLengthPrefix(a[1..], b);
    }
  }

  lemma SplitFirst(s: string)
    requires s != ""
    ensures SplitLines(s) == [s[..LineLength(s)]] + SplitLines(s[LineLength(s)..])
  {
  }

  /** The cuts before a "\n" do not depend on what follows it. */
  lemma {:induction false} SplitConcat(a: string, b: string)
    requires a == "" || EndsLine(a)
    ensures SplitLines(a + b) == SplitLines(a) + SplitLines(b)
    decreases |a|
  {
    if a == "" {
      assert a + b == b;
    } else {
      hide Join, LineLength, SplitLines;
      var n := LineLength(a);
      LineLengthPrefix(a, b);
      assert (a + b)[..n] == a[..n] && (a + b)[n..] == a[n..] + b;
      SplitConcat(a[n..], b);
      SplitFirst(a);
      SplitFirst(a + b);
      ConcatAssoc([a[..n]], SplitLines(a[n..]), SplitLines(b));
    }
  }

  /** `q` is cut off as a line, whatever follows, unless a "\r" at its end meets a "\n". */
  predicate Cut(q: string) {
    OneLine(q) && IsBoundary(q[|q| - 1])
  }

  lemma {:induction false} CutNext(q: string, z: string)
    requires Cut(q) && (q[|q| - 1] == '\r' && z != "" ==> z[0] != '\n')
    ensures LineLength(q + z) == |q|
    decreases |q|
  {
    var s := q + z;
    if |q| > 1 {
      assert s[0] == q[0] && s[1] == q[1];
      if q[0] == '\r' && q[1] == '\n' {
      } else {
        assert !IsBoundary(q[0]);
        assert s[1..] == q[1..] + z;
        CutNext(q[1..], z);
      }
    }
  }

  lemma {:induction false} OpenNext(q: string, z: string)
    requires z != "" && NoBoundary(q)
    ensures LineLength(q + z) == |q| + LineLength(z)
    decreases |q|
  {
    var s := q + z;
    if q == "" {
      assert s == z;
    } else {
      assert s[1..] == q[1..] + z;
      OpenNext(q[1..], z);
    }
  }

  lemma {:induction false} OpenLine(q: string)
    requires q != "" && NoBoundary(q)
    ensures LineLength(q) == |q|
    decreases |q|
  {
    if |q| > 1 {
      OpenLine(q[1..]);
    }
  }

  /** A prefix without boundaries makes no cut. */
  lemma OneLinePrefix(q: string, s: string)
    requires NoBoundary(q) && OneLine(s)
    ensures OneLine(q + s)
  {
    OpenNext(q, s);
  }

  lemma {:induction false} CutTail(q: string, k: nat)
    requires Cut(q) && k < |q| && NoBoundary(q[..k])
    ensures Cut(q[k..])
    decreases k
  {
    if k > 0 {
      assert q[0] == q[..k][0] && q[..k][1..] == q[1..][..k - 1];
      CutTail(q[1..], k - 1);
      assert q[1..][k - 1..] == q[k..];
    } else {
      assert q[0..] == q;
    }
  }

  lemma {:induction false} NoBoundaryWithin(q: string)
    requires OneLine(q)
    ensures Cut(q) || NoBoundary(q)
    ensures '\n' !in q[..|q| - 1]
    decreases |q|
  {
    if |q| > 1 && !(q[0] == '\r' && q[1] == '\n') {
      assert !IsBoundary(q[0]) && LineLength(q[1..]) == |q| - 1;
      NoBoundaryWithin(q[1..]);
      assert q[..|q| - 1] == [q[0]] + q[1..][..|q| - 2];
      assert NoBoundary(q[1..]) ==> forall i :: 0 < i < |q| ==> q[i] == q[1..][i - 1];
    }
  }

  /** The lines of a text: all cut off but perhaps the last, and no "\r\n" torn apart. */
  lemma {:induction false} PieceFacts(s: string)
    requires s != ""
    ensures var ps := SplitLines(s);
            ps != [] && OneLine(ps[0]) && SplitLines(s[|ps[0]|..]) == ps[1..] && s == ps[0] + Join(ps[1..]) &&
            (Cut(ps[0]) || (NoBoundary(ps[0]) && ps == [s])) &&
            (|ps| > 1 && ps[0][|ps[0]| - 1] == '\r' ==> s[|ps[0]|] != '\n')
  {
    var n := LineLength(s);
    FirstPiece(s);
    assert SplitLines(s)[1..] == SplitLines(s[n..]);
    assert n == |s| ==> s[n..] == "" && s[..n] == s;
  }

  lemma {:induction false} FirstPiece(s: string)
    requires s != ""
    ensures var n := LineLength(s);
            OneLine(s[..n]) && (Cut(s[..n]) || (NoBoundary(s) && n == |s|)) &&
            (n < |s| && s[n - 1] == '\r' ==> s[n] != '\n')
    decreases |s|
  {
    var n := LineLength(s);
    if |s| > 1 && !(s[0] == '\r' && s[1] == '\n') && !IsBoundary(s[0]) {
      FirstPiece(s[1..]);
      assert s[..n][1..] == s[1..][..n - 1];
      assert s[..n][0] == s[0];
      OneLinePrefix([s[0]], s[1..][..n - 1]);
      assert [s[0]] + s[1..][..n - 1] == s[..n];
      assert NoBoundary(s[1..]) ==> forall i :: 0 < i < |s| ==> s[i] == s[1..][i - 1];
    } else {
      assert n <= 2;
      assert n == 2 ==> s[..2] == ['\r', '\n'];
      assert n == 1 ==> s[..1] == [s[0]];
    }
  }

  /** Splitting a line that is none of `str.splitlines` business. */
  lemma OneLineSplit(s: string)
    requires OneLine(s)
    ensures SplitLines(s) == [s]
  {
    assert s[..|s|] == s && s[|s|..] == "";
  }

  lemma {:induction false} RStripAppend(a: string, b: string)
    requires a != "" && a[|a| - 1] != '\n' && a[|a| - 1] != '\r'
    ensures RStrip(a + b) == a + RStrip(b)
  {
    var s := a + b;
    if b == "" {
      assert s == a;
    } else {
      assert s[|s| - 1] == b[|b| - 1];
      assert s[..|s| - 1] == a + b[..|b| - 1];
      if b[|b| - 1] == '\n' || b[|b| - 1] == '\r' {
        RStripAppend(a, b[..|b| - 1]);
      }
    }
  }
}
