/** The code editor's line-number gutter and file name
    (src/ui/codeeditor.cpp): the gutter is wide enough for the digits of
    the block count. The width of the digit '9' in the editor font is a
    parameter. */
module CodeEditor {
  import opened Text

  datatype Editor = Editor(fileName: string, modified: bool)

  /** The number of decimal digits of n. */
  function DigitCount(n: nat): (d: nat)
    ensures d == |NatToString(n)| && d >= 1
  {
    |NatToString(n)|
  }

  function Pow10(k: nat): (p: nat)
    ensures p >= 1
  {
    if k == 0 then 1 else 10 * Pow10(k - 1)
  }

  /** 10^k is written with k + 1 digits: it is the least number of that
      many digits, so the lower bound below is reached. */
  lemma {:induction false} Pow10Digits(k: nat)
    ensures DigitCount(Pow10(k)) == k + 1
  {
    if k > 0 {
      Pow10Digits(k - 1);
      var p := Pow10(k);
      assert p / 10 == Pow10(k - 1) && p >= 10;
      assert DigitCount(p) == DigitCount(p / 10) + 1;
    }
  }

  /** A number with d digits lies in [10^(d-1), 10^d), 0 aside. */
  lemma {:induction false} DigitCountBounds(n: nat)
    ensures n < Pow10(DigitCount(n))
    ensures n >= 1 ==> Pow10(DigitCount(n) - 1) <= n
  {
    if n >= 10 {
      DigitCountBounds(n / 10);
      assert DigitCount(n) == DigitCount(n / 10) + 1;
    }
  }

  /** More blocks never need fewer digits. */
  lemma {:induction false} DigitCountMonotone(m: nat, n: nat)
    requires m <= n
    ensures DigitCount(m) <= DigitCount(n)
  {
    if m >= 10 {
      DigitCountMonotone(m / 10, n / 10);
    }
  }

  function Max(a: int, b: int): int {
    if a >= b then a else b
  }

  /** The digit loop of lineNumberAreaWidth: starting from one digit and
      max(1, blockCount), a digit more for each division by ten while the
      value is at least ten. */
  method Digits(blockCount: int) returns (digits: int)
    ensures digits >= 1
    ensures digits == DigitCount(Max(1, blockCount))
  {
    digits := 1;
    var max := Max(1, blockCount);
    while max >= 10
      invariant max >= 1
      invariant digits - 1 + DigitCount(max) == DigitCount(Max(1, blockCount))
      decreases max
    {
      assert DigitCount(max) == DigitCount(max / 10) + 1;
      max := max / 10;
      digits := digits + 1;
    }
  }

  /** lineNumberAreaWidth: three pixels plus one digit width per digit. */
  method LineNumberAreaWidth(blockCount: int, digitWidth: int) returns (space: int)
    ensures space == 3 + digitWidth * DigitCount(Max(1, blockCount))
  {
    var digits := Digits(blockCount);
    space := 3 + digitWidth * digits;
  }

  /** The gutter never narrows as blocks are added, for a font with a
      non-negative digit width. */
  lemma WidthMonotone(a: int, b: int, digitWidth: int)
    requires a <= b && digitWidth >= 0
    ensures 3 + digitWidth * DigitCount(Max(1, a)) <= 3 + digitWidth * DigitCount(Max(1, b))
  {
    DigitCountMonotone(Max(1, a), Max(1, b));
    MulMonotone(digitWidth, DigitCount(Max(1, a)), DigitCount(Max(1, b)));
  }

  lemma MulMonotone(k: int, x: int, y: int)
    requires k >= 0 && x <= y
    ensures k * x <= k * y
  {
  }

  /** setFileName: the new name, and the document counts as unmodified. */
  function SetFileName(e: Editor, f: string): (r: Editor)
    ensures r.fileName == f && !r.modified
  {
    Editor(f, false)
  }
}
