/** Decimal rendering of numbers (src/decimal.cpp): fixed-point formatting
    followed, by default, by trimming of trailing zeros. The fixed-point
    formatter itself (QString::setNum with format 'f') is a parameter of
    the model: it maps a number and a precision to its digits. */
module Decimal {
  import opened Text

  /** QString::setNum(d, 'f', precision): an oracle supplied by the caller. */
  type Fixed = (real, int) -> string

  /** The precision the one-argument to_string uses. */
  const DefaultPrecision: int := 16

  predicate AllZeros(s: string) {
    forall i :: 0 <= i < |s| ==> s[i] == '0'
  }

  /** amountToChop: the length of the run of trailing '0's, plus one when
      the character that ends the run is '.'. The scan stops at the first
      other character. */
  function AmountToChop(s: string): (j: nat)
    ensures j <= |s|
    ensures forall i :: |s| - j <= i < |s| ==> s[i] == '0' || (i == |s| - j && s[i] == '.')
    ensures j < |s| && (j == 0 || s[|s| - j] == '0') ==> s[|s| - 1 - j] != '0' && s[|s| - 1 - j] != '.'
  {
    if |s| == 0 then 0
    else if s[|s| - 1] == '0' then AmountToChop(s[..|s| - 1]) + 1
    else if s[|s| - 1] == '.' then 1
    else 0
  }

  /** The string without its chopped tail. */
  function Trim(s: string): (r: string)
    ensures IsPrefix(r, s)
  {
    s[..|s| - AmountToChop(s)]
  }

  /** to_string(d, precision, trim). */
  function ToStringWith(fixed: Fixed, d: real, precision: int, trim: bool): (r: string)
    ensures IsPrefix(r, fixed(d, precision))
    ensures !trim ==> r == fixed(d, precision)
    ensures trim ==> |fixed(d, precision)| - |r| == AmountToChop(fixed(d, precision))
  {
    var res := fixed(d, precision);
    if trim then Trim(res) else res
  }

  /** to_string(d): sixteen digits after the point, trimmed. */
  function ToString(fixed: Fixed, d: real): (r: string)
    ensures r == Trim(fixed(d, DefaultPrecision))
  {
    ToStringWith(fixed, d, DefaultPrecision, true)
  }

  /** to_string(d, precision): the formatter's output, never trimmed. */
  function ToStringPrecision(fixed: Fixed, d: real, precision: int): (r: string)
    ensures r == fixed(d, precision)
  {
    ToStringWith(fixed, d, precision, false)
  }

  /** On a run of digits the chop is the number of trailing zeros. */
  lemma {:induction false} ChopDigits(fp: string)
    requires IsDigits(fp)
    ensures AllZeros(fp) <==> AmountToChop(fp) == |fp|
    ensures AllZeros(fp[|fp| - AmountToChop(fp)..])
  {
    var j := AmountToChop(fp);
    if AllZeros(fp) && |fp| > 0 {
      assert IsDigits(fp[..|fp| - 1]) && AllZeros(fp[..|fp| - 1]);
      ChopDigits(fp[..|fp| - 1]);
    }
    if j == |fp| {
      forall i | 0 <= i < |fp| ensures fp[i] == '0' {
        assert fp[i] != '.';
      }
    }
    var tail := fp[|fp| - j..];
    forall i | 0 <= i < |tail| ensures tail[i] == '0' {
      assert fp[|fp| - j + i] != '.';
    }
  }

  /** Trimming a fixed-point rendering "ip.fp": only zeros of the fraction
      go, together with the point when the whole fraction is zero. */
  lemma TrimFixed(ip: string, fp: string)
    requires IsDigits(fp)
    ensures AllZeros(fp) ==> Trim(ip + "." + fp) == ip
    ensures !AllZeros(fp) ==>
      var k := |fp| - AmountToChop(fp);
      0 < k && fp[k - 1] != '0' && AllZeros(fp[k..]) && Trim(ip + "." + fp) == ip + "." + fp[..k]
  {
    if AllZeros(fp) {
      TrimZeroFraction(ip, fp);
    } else {
      TrimDigitFraction(ip, fp);
    }
  }

  lemma TrimZeroFraction(ip: string, fp: string)
    requires IsDigits(fp) && AllZeros(fp)
    ensures Trim(ip + "." + fp) == ip
  {
    var s := ip + "." + fp;
    ChopDigits(fp);
    var j := AmountToChop(fp);
    SuffixChop(ip + ".", fp);
    DotChop(ip);
    assert s[..|s| - j] == ip + ".";
  }

  lemma TrimDigitFraction(ip: string, fp: string)
    requires IsDigits(fp) && !AllZeros(fp)
    ensures var k := |fp| - AmountToChop(fp);
      0 < k && fp[k - 1] != '0' && AllZeros(fp[k..]) && Trim(ip + "." + fp) == ip + "." + fp[..k]
  {
    var s := ip + "." + fp;
    ChopDigits(fp);
    var j := AmountToChop(fp);
    SuffixChop(ip + ".", fp);
    assert j < |fp|;
    assert fp[|fp| - 1 - j] != '0';
    assert s[..|s| - j] == ip + "." + fp[..|fp| - j];
  }

  /** The chop never crosses a digit that is not zero: a suffix of
      digits decides it. */
  lemma {:induction false} SuffixChop(p: string, fp: string)
    requires IsDigits(fp)
    ensures AmountToChop(fp) < |fp| ==> AmountToChop(p + fp) == AmountToChop(fp)
    ensures AmountToChop(fp) == |fp| ==> AmountToChop(p + fp) == |fp| + AmountToChop(p)
  {
    if |fp| > 0 {
      var s := p + fp;
      assert s[..|s| - 1] == p + fp[..|fp| - 1];
      assert s[|s| - 1] == fp[|fp| - 1];
      SuffixChop(p, fp[..|fp| - 1]);
    } else {
      assert p + fp == p;
    }
  }

  lemma DotChop(ip: string)
    ensures AmountToChop(ip + ".") == 1
  {
    assert (ip + ".")[|ip|] == '.';
  }

  /** A trimmed fixed-point rendering neither ends in '.' nor keeps a
      trailing zero after its point. */
  lemma TrimmedHasNoTrailingZeros(ip: string, fp: string)
    requires IsDigits(fp) && |ip| > 0 && ip[|ip| - 1] != '.' && '.' !in ip
    ensures var r := Trim(ip + "." + fp);
      |r| > 0 && r[|r| - 1] != '.' && ('.' in r ==> r[|r| - 1] != '0')
  {
    TrimFixed(ip, fp);
    var r := Trim(ip + "." + fp);
    if !AllZeros(fp) {
      var k := |fp| - AmountToChop(fp);
      assert r[|r| - 1] == fp[k - 1];
    }
  }
}
