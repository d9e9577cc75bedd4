/** The compiler's reporter (src/reporter.cpp): the elapsed-time line and
    the error lines it writes. The elapsed milliseconds come from a timer
    and are a parameter here; the stream is the returned string. */
module Reporter {
  import opened Text

  /** C++ int division, which truncates toward zero. */
  function CDiv(a: int, b: int): (q: int)
    requires b > 0
    ensures a >= 0 ==> q >= 0 && q * b <= a < q * b + b
    ensures a < 0 ==> q <= 0 && q * b - b < a <= q * b
  {
    if a >= 0 then a / b else -((-a) / b)
  }

  /** C++ int remainder: what the truncating division leaves over, with
      the sign of the dividend. */
  function CMod(a: int, b: int): (r: int)
    requires b > 0
    ensures CDiv(a, b) * b + r == a
    ensures a >= 0 ==> 0 <= r < b
    ensures a < 0 ==> -b < r <= 0
  {
    a - CDiv(a, b) * b
  }

  datatype Timing = Timing(hours: int, mins: int, secs: int, ms: int)

  /** reportTiming's decomposition of the elapsed ticks: milliseconds,
      then seconds and minutes below sixty, the rest in hours. */
  function Decompose(ticks: int): (t: Timing)
    ensures ((t.hours * 60 + t.mins) * 60 + t.secs) * 1000 + t.ms == ticks
    ensures ticks >= 0 ==> 0 <= t.ms < 1000 && 0 <= t.secs < 60 && 0 <= t.mins < 60 && t.hours >= 0
    ensures ticks < 0 ==> -1000 < t.ms <= 0 && -60 < t.secs <= 0 && -60 < t.mins <= 0 && t.hours <= 0
  {
    var ms := CMod(ticks, 1000);
    var t1 := CDiv(ticks, 1000);
    var secs := CMod(t1, 60);
    var t2 := CDiv(t1, 60);
    var mins := CMod(t2, 60);
    var hours := CDiv(t2, 60);
    Timing(hours, mins, secs, ms)
  }

  /** For a non-negative count the decomposition is the only one within
      the bounds: it is the mixed-radix form of the count. */
  lemma DecomposeUnique(ticks: int, t: Timing)
    requires ticks >= 0
    requires ((t.hours * 60 + t.mins) * 60 + t.secs) * 1000 + t.ms == ticks
    requires 0 <= t.ms < 1000 && 0 <= t.secs < 60 && 0 <= t.mins < 60 && t.hours >= 0
    ensures Decompose(ticks) == t
  {
    var d := Decompose(ticks);
    Digit(ticks, 1000, (t.hours * 60 + t.mins) * 60 + t.secs, t.ms, (d.hours * 60 + d.mins) * 60 + d.secs, d.ms);
    Digit((t.hours * 60 + t.mins) * 60 + t.secs, 60, t.hours * 60 + t.mins, t.secs, (d.hours * 60 + d.mins), d.secs);
    Digit(t.hours * 60 + t.mins, 60, t.hours, t.mins, d.hours, d.mins);
  }

  /** Quotient and remainder by b are unique. */
  lemma Digit(n: int, b: int, q1: int, r1: int, q2: int, r2: int)
    requires b > 0 && 0 <= r1 < b && 0 <= r2 < b
    requires q1 * b + r1 == n && q2 * b + r2 == n
    ensures q1 == q2 && r1 == r2
  {
    if q1 < q2 {
      Scaled(q1 + 1, q2, b);
    } else if q2 < q1 {
      Scaled(q2 + 1, q1, b);
    }
  }

  lemma Scaled(x: int, y: int, b: int)
    requires b > 0 && x <= y
    ensures x * b <= y * b
  {
  }

  /** The characters an int is written with: digits and the sign. */
  predicate Numeric(c: char) {
    '0' <= c <= '9' || c == '-'
  }

  predicate AllNumeric(s: string) {
    forall k :: 0 <= k < |s| ==> Numeric(s[k])
  }

  lemma IntChars(i: int)
    ensures AllNumeric(IntToString(i))
  {
    if i < 0 {
      var d := NatToString(-i);
      assert forall k :: 1 <= k < |IntToString(i)| ==> IntToString(i)[k] == d[k - 1];
    }
  }

  /** The length of the leading run of sign and digit characters. */
  function NumericRun(s: string): (n: nat)
    ensures n <= |s|
  {
    if |s| == 0 || !Numeric(s[0]) then 0 else 1 + NumericRun(s[1..])
  }

  lemma {:induction false} RunOfConcat(p: string, x: string)
    requires AllNumeric(p) && (|x| == 0 || !Numeric(x[0]))
    ensures NumericRun(p + x) == |p|
    decreases |p|
  {
    if |p| == 0 {
      assert p + x == x;
    } else {
      assert (p + x)[1..] == p[1..] + x;
      RunOfConcat(p[1..], x);
    }
  }

  /** A number followed by text that does not start with a sign or a
      digit can be read back: both the number and the text are
      determined. */
  lemma SplitInt(a: int, b: int, x: string, y: string)
    requires |x| > 0 && |y| > 0 && !Numeric(x[0]) && !Numeric(y[0])
    requires IntToString(a) + x == IntToString(b) + y
    ensures a == b && x == y
  {
    var sa, sb := IntToString(a), IntToString(b);
    IntChars(a);
    IntChars(b);
    RunOfConcat(sa, x);
    RunOfConcat(sb, y);
    assert (sa + x)[..|sa|] == sa && (sb + y)[..|sb|] == sb;
    IntToStringInjective(a, b);
    assert (sa + x)[|sa|..] == x && (sb + y)[|sb|..] == y;
  }

  /** The line reportTiming writes. */
  function TimingLine(t: Timing): (s: string)
    ensures IsPrefix("Total compiling time: ", s)
  {
    var body := IntToString(t.hours) + ("h " + (IntToString(t.mins) + ("m "
      + (IntToString(t.secs) + ("s " + (IntToString(t.ms) + "ms.\n"))))));
    PrefixOfConcat("Total compiling time: ", body);
    "Total compiling time: " + body
  }

  /** reportTiming: the line for the decomposition of the elapsed ticks. */
  function ReportTiming(ticks: int): (s: string)
    ensures s == TimingLine(Decompose(ticks))
  {
    TimingLine(Decompose(ticks))
  }

  /** The timing line names its four components unambiguously. */
  lemma TimingLineInjective(t: Timing, u: Timing)
    requires TimingLine(t) == TimingLine(u)
    ensures t == u
  {
    var p := "Total compiling time: ";
    var x := "h " + (IntToString(t.mins) + ("m " + (IntToString(t.secs) + ("s " + (IntToString(t.ms) + "ms.\n")))));
    var y := "h " + (IntToString(u.mins) + ("m " + (IntToString(u.secs) + ("s " + (IntToString(u.ms) + "ms.\n")))));
    assert (p + (IntToString(t.hours) + x))[|p|..] == IntToString(t.hours) + x;
    assert (p + (IntToString(u.hours) + y))[|p|..] == IntToString(u.hours) + y;
    SplitInt(t.hours, u.hours, x, y);
    var x2 := "m " + (IntToString(t.secs) + ("s " + (IntToString(t.ms) + "ms.\n")));
    var y2 := "m " + (IntToString(u.secs) + ("s " + (IntToString(u.ms) + "ms.\n")));
    assert x[2..] == IntToString(t.mins) + x2 && y[2..] == IntToString(u.mins) + y2;
    SplitInt(t.mins, u.mins, x2, y2);
    var x3 := "s " + (IntToString(t.ms) + "ms.\n");
    var y3 := "s " + (IntToString(u.ms) + "ms.\n");
    assert x2[2..] == IntToString(t.secs) + x3 && y2[2..] == IntToString(u.secs) + y3;
    SplitInt(t.secs, u.secs, x3, y3);
    assert x3[2..] == IntToString(t.ms) + "ms.\n" && y3[2..] == IntToString(u.ms) + "ms.\n";
    SplitInt(t.ms, u.ms, "ms.\n", "ms.\n");
  }

  /** Different elapsed times give different timing lines. */
  lemma ReportTimingInjective(a: int, b: int)
    requires ReportTiming(a) == ReportTiming(b)
    ensures a == b
  {
    TimingLineInjective(Decompose(a), Decompose(b));
  }

  /** reportSyntaxError: the line number, the message, the position and
      the offending text. */
  function SyntaxError(line: int, msg: string, pos: int, text: string): (s: string)
    ensures IsPrefix("line ", s)
  {
    var body := IntToString(line) + (": " + msg + " at character " + IntToString(pos) + ": '" + text + "'.\n");
    PrefixOfConcat("line ", body);
    "line " + body
  }

  /** The line number can be read back from a syntax error line. */
  lemma SyntaxErrorLine(l1: int, m1: string, p1: int, t1: string, l2: int, m2: string, p2: int, t2: string)
    requires SyntaxError(l1, m1, p1, t1) == SyntaxError(l2, m2, p2, t2)
    ensures l1 == l2
  {
    var x := ": " + m1 + " at character " + IntToString(p1) + ": '" + t1 + "'.\n";
    var y := ": " + m2 + " at character " + IntToString(p2) + ": '" + t2 + "'.\n";
    assert ("line " + (IntToString(l1) + x))[5..] == IntToString(l1) + x;
    assert ("line " + (IntToString(l2) + y))[5..] == IntToString(l2) + y;
    SplitInt(l1, l2, x, y);
  }

  /** reportLexicalError: the line number and the illegal token. */
  function LexicalError(line: int, text: string): (s: string)
    ensures |s| > |text| + 18
  {
    IntToString(line) + (": illegal token '" + (text + "'.\n"))
  }

  /** A lexical error line determines both the line number and the
      token. */
  lemma LexicalErrorInjective(l1: int, t1: string, l2: int, t2: string)
    requires LexicalError(l1, t1) == LexicalError(l2, t2)
    ensures l1 == l2 && t1 == t2
  {
    var x := ": illegal token '" + (t1 + "'.\n");
    var y := ": illegal token '" + (t2 + "'.\n");
    SplitInt(l1, l2, x, y);
    assert x[17..] == t1 + "'.\n" && y[17..] == t2 + "'.\n";
    assert (t1 + "'.\n")[..|t1|] == t1 && (t2 + "'.\n")[..|t2|] == t2;
  }

  /** reportFileMissingError: the path in quotes. */
  function FileMissingError(path: string): (s: string)
    ensures |s| == |path| + 25
    ensures s[23..|s| - 2] == path
  {
    var s := "Can't open input file '" + path + "'\n";
    assert s[23..|s| - 2] == path;
    s
  }
}
