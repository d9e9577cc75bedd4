/** The run-time values of the evaluator and their text form
    (src/vectorvalue.cpp, src/numbervalue.cpp, src/booleanvalue.cpp),
    with the addition and subtraction of numbers and vectors. Numbers are
    reals; the number formatter (QString::setNum with format 'g') is a
    parameter. Range and interval endpoints are numbers. */
module Values {
  import opened Wrappers
  import opened Text
  import opened Operators

  datatype Value =
    | Undefined
    | Boolean(b: bool)
    | Number(n: real)
    | Vector(items: seq<Value>)
    | Range(start: real, step: Option<real>, finish: real)
    | Interval(lower: real, upper: real)
    | Complex(re: Value, im: seq<Value>)

  /** How leaves are written: the number formatter and the text of the
      undefined value, whose class is not part of this model. */
  datatype Show = Show(num: real -> string, undef: string)

  /** getValueString of every kind of value. */
  function ValueString(v: Value, sh: Show): (s: string)
    decreases v, 1
  {
    match v
    case Undefined => sh.undef
    case Boolean(b) => if b then "true" else "false"
    case Number(n) => sh.num(n)
    case Vector(xs) => "[" + FlaggedLoop(Strings(xs, sh), ",", true) + "]"
    case Range(start, step, finish) => RangeString(start, step, finish, sh.num)
    case Interval(lower, upper) => IntervalString(lower, upper, sh.num)
    case Complex(re, im) => "<" + ValueString(re, sh) + ImaginaryTail(im, sh) + ">"
  }

  /** The strings of a list of values, in order. */
  function Strings(xs: seq<Value>, sh: Show): (ss: seq<string>)
    ensures |ss| == |xs| && forall i :: 0 <= i < |xs| ==> ss[i] == ValueString(xs[i], sh)
    decreases xs, 0
  {
    if |xs| == 0 then [] else [ValueString(xs[0], sh)] + Strings(xs[1..], sh)
  }

  /** The loop of ComplexValue::getValueString: a comma before each
      imaginary part. */
  function ImaginaryTail(im: seq<Value>, sh: Show): string
    decreases im, 0
  {
    if |im| == 0 then "" else "," + ValueString(im[0], sh) + ImaginaryTail(im[1..], sh)
  }

  /** RangeValue::getValueString: "[start:finish]", with "step:" in the
      middle when the range has a step. */
  function RangeString(start: real, step: Option<real>, finish: real, num: real -> string): (s: string)
    ensures |s| >= 3 && s[0] == '[' && s[|s| - 1] == ']'
  {
    "[" + num(start) + ":" + (if step.Some? then num(step.value) + ":" else "") + num(finish) + "]"
  }

  /** IntervalValue::getValueString: the midpoint, '±' and the half
      width, where the half width is t = (upper - lower) / 2 and the
      midpoint is n = upper - t. */
  function IntervalString(lower: real, upper: real, num: real -> string): string
  {
    var t := (upper - lower) / 2.0;
    var n := upper - t;
    num(n) + "±" + num(t)
  }

  /** A vector prints as its children comma-joined in brackets, with no
      comma before the first or after the last. */
  lemma VectorStringIsJoin(xs: seq<Value>, sh: Show)
    ensures ValueString(Vector(xs), sh) == "[" + Join(Strings(xs, sh), ",") + "]"
  {
    SeparatedLoopIsJoin(Strings(xs, sh), ",");
  }

  /** A complex value prints as its real part and then its imaginary
      parts, comma-joined in angle brackets. */
  lemma {:induction false} ComplexStringIsJoin(re: Value, im: seq<Value>, sh: Show)
    ensures ValueString(Complex(re, im), sh) == "<" + Join(Strings([re] + im, sh), ",") + ">"
  {
    TailIsFlagged(im, sh);
    var all := Strings([re] + im, sh);
    assert all == [ValueString(re, sh)] + Strings(im, sh);
    assert all[1..] == Strings(im, sh);
    SeparatedLoopIsJoin(all, ",");
    assert FlaggedLoop(all, ",", true) == ValueString(re, sh) + FlaggedLoop(all[1..], ",", false);
  }

  lemma {:induction false} TailIsFlagged(im: seq<Value>, sh: Show)
    ensures ImaginaryTail(im, sh) == FlaggedLoop(Strings(im, sh), ",", false)
    decreases |im|
  {
    if |im| > 0 {
      TailIsFlagged(im[1..], sh);
      assert Strings(im, sh)[1..] == Strings(im[1..], sh);
    }
  }

  /** The two operators the values implement element-wise. */
  predicate AddOrSubtract(op: Op) {
    op == Add || op == Subtract
  }

  /** operator+ and operator- dispatched on the left operand: a number
      with a number computes basicOperation; a vector combines
      element-wise. Every other pairing is outside the model and yields
      Undefined (see the README). */
  function Combine(a: Value, op: Op, b: Value): (r: Value)
    requires AddOrSubtract(op)
    ensures a.Number? && b.Number? ==> r == Number(if op == Add then a.n + b.n else a.n - b.n)
    ensures a.Vector? ==> r.Vector?
    decreases a, 1
  {
    match a
    case Number(x) => if b.Number? then Number(if op == Add then x + b.n else x - b.n) else Undefined
    case Vector(xs) => Vector(VectorCombine(xs, op, b))
    case _ => Undefined
  }

  function Min(a: nat, b: nat): nat {
    if a <= b then a else b
  }

  /** VectorValue::operator+ and operator-: with a vector, the pairs up
      to the shorter length; with a number, every element against the
      number; with anything else, nothing. */
  function VectorCombine(xs: seq<Value>, op: Op, b: Value): (r: seq<Value>)
    requires AddOrSubtract(op)
    ensures b.Vector? ==> (|r| == Min(|xs|, |b.items|)
      && forall i :: 0 <= i < |r| ==> r[i] == Combine(xs[i], op, b.items[i]))
    ensures b.Number? ==> |r| == |xs| && forall i :: 0 <= i < |r| ==> r[i] == Combine(xs[i], op, b)
    ensures !b.Vector? && !b.Number? ==> r == []
    decreases xs, 0
  {
    if b.Vector? then
      seq(Min(|xs|, |b.items|), i requires 0 <= i < Min(|xs|, |b.items|) => Combine(xs[i], op, b.items[i]))
    else if b.Number? then
      seq(|xs|, i requires 0 <= i < |xs| => Combine(xs[i], op, b))
    else []
  }

  predicate Numeric(xs: seq<Value>) {
    forall i :: 0 <= i < |xs| ==> xs[i].Number?
  }

  /** Adding a number to a numeric vector and subtracting it again gives
      the vector back. */
  lemma BroadcastRoundTrip(xs: seq<Value>, n: real)
    requires Numeric(xs)
    ensures Combine(Combine(Vector(xs), Add, Number(n)), Subtract, Number(n)) == Vector(xs)
  {
    var ys := VectorCombine(xs, Add, Number(n));
    var zs := VectorCombine(ys, Subtract, Number(n));
    assert |zs| == |xs|;
    forall i | 0 <= i < |xs| ensures zs[i] == xs[i] {
      assert ys[i] == Number(xs[i].n + n);
    }
  }

  /** Element-wise addition of numeric vectors does not depend on the
      order of the operands, truncation included. */
  lemma AddCommutes(xs: seq<Value>, ys: seq<Value>)
    requires Numeric(xs) && Numeric(ys)
    ensures Combine(Vector(xs), Add, Vector(ys)) == Combine(Vector(ys), Add, Vector(xs))
  {
    var l := VectorCombine(xs, Add, Vector(ys));
    var r := VectorCombine(ys, Add, Vector(xs));
    assert |l| == |r|;
    forall i | 0 <= i < |l| ensures l[i] == r[i] {
      assert l[i] == Number(xs[i].n + ys[i].n);
      assert r[i] == Number(ys[i].n + xs[i].n);
    }
  }

  /** Subtracting a vector from itself gives zeros, one per element. */
  lemma SubtractSelf(xs: seq<Value>)
    requires Numeric(xs)
    ensures var r := Combine(Vector(xs), Subtract, Vector(xs));
      |r.items| == |xs| && forall i :: 0 <= i < |xs| ==> r.items[i] == Number(0.0)
  {
  }
}
