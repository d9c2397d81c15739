/**
 * How an issue is shown to the user: the log line `Line <line>: <message>`, with the line
 * number written in decimal the way a JavaScript template literal writes a non-negative
 * integer (no sign, no leading zeros).
 */
module Report {
  import opened JsAst
  import opened VarRule

  predicate IsDigit(c: char)
  {
    '0' <= c <= '9'
  }

  predicate AllDigits(s: string)
  {
    forall i :: 0 <= i < |s| ==> IsDigit(s[i])
  }

  function DigitChar(d: nat): (c: char)
    requires d < 10
    ensures IsDigit(c) && c as int - '0' as int == d
  {
    ('0' as int + d) as char
  }

  /** The decimal numeral of `n`. */
  function Decimal(n: nat): (s: string)
    ensures |s| >= 1 && AllDigits(s)
    ensures s[0] == '0' ==> n == 0
    decreases n
  {
    if n < 10 then [DigitChar(n)] else Decimal(n / 10) + [DigitChar(n % 10)]
  }

  /** The number a string of decimal digits denotes. */
  function DecimalValue(s: string): nat
    requires AllDigits(s)
    decreases |s|
  {
    if s == [] then 0 else DecimalValue(s[..|s| - 1]) * 10 + (s[|s| - 1] as int - '0' as int)
  }

  /** Reading the numeral back gives the number. */
  lemma {:induction false} DecimalRoundTrip(n: nat)
    ensures DecimalValue(Decimal(n)) == n
    decreases n
  {
    if n >= 10 {
      DecimalRoundTrip(n / 10);
      var s := Decimal(n);
      assert s[..|s| - 1] == Decimal(n / 10);
    }
  }

  /** The message printed for one issue: `Line ${issue.line}: ${issue.message}`. */
  function FormatIssue(issue: Issue): string
  {
    "Line " + Decimal(issue.line) + ": " + issue.message
  }

  /** The length of the longest run of digits that `s` starts with. */
  function DigitRun(s: string): (k: nat)
    ensures k <= |s| && AllDigits(s[..k])
    ensures k < |s| ==> !IsDigit(s[k])
  {
    if s == [] || !IsDigit(s[0]) then 0
    else
      var k := 1 + DigitRun(s[1..]);
      assert s[..k] == [s[0]] + s[1..][..k - 1];
      k
  }

  /** Reads a log line back into the issue it was printed for. */
  function ParseLogLine(s: string): Option<Issue>
  {
    if |s| < 5 || s[..5] != "Line " then None
    else
      var rest := s[5..];
      var k := DigitRun(rest);
      if k == 0 || |rest| < k + 2 || rest[k..k + 2] != ": " then None
      else Some(Issue(DecimalValue(rest[..k]), rest[k + 2..]))
  }

  /** A log line determines its issue: reading back what FormatIssue prints gives the issue. */
  lemma FormatIssueRoundTrip(issue: Issue)
    ensures ParseLogLine(FormatIssue(issue)) == Some(issue)
  {
    var d := Decimal(issue.line);
    var s := FormatIssue(issue);
    var rest := s[5..];
    assert rest == d + ": " + issue.message;
    var k := DigitRun(rest);
    assert rest[|d|] == ':';
    assert k == |d|;
    assert rest[..k] == d;
    assert rest[k..k + 2] == ": ";
    assert rest[k + 2..] == issue.message;
    DecimalRoundTrip(issue.line);
  }

  /** Different issues print as different log lines. */
  lemma FormatIssueInjective(a: Issue, b: Issue)
    requires FormatIssue(a) == FormatIssue(b)
    ensures a == b
  {
    FormatIssueRoundTrip(a);
    FormatIssueRoundTrip(b);
  }
}
