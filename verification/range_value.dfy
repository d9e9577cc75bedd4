/** Ranges and their iterator (src/rangevalue.cpp, src/rangeiterator.cpp).
    A range [start:step:finish] with number endpoints enumerates start,
    start + step, ... while the index is not greater than finish; with no
    step the iterator adds one. */
module RangeValue {
  import opened Wrappers
  import opened Text
  import opened Values
  import opened Operators

  /** The step the iterator adds: the range's own, or the default one. */
  function StepOf(step: Option<real>): (s: real)
    ensures step.None? ==> s == 1.0
    ensures step.Some? ==> s == step.value
  {
    if step.Some? then step.value else 1.0
  }

  datatype RangeIterator = RangeIterator(start: real, step: Option<real>, finish: real, index: real)

  /** first: the index goes to the start of the range. */
  function First(start: real, step: Option<real>, finish: real): (it: RangeIterator)
    ensures it.index == start
    ensures it.start == start && it.step == step && it.finish == finish
  {
    RangeIterator(start, step, finish, start)
  }

  /** next: the index moves on by the step. */
  function Next(it: RangeIterator): (n: RangeIterator)
    ensures n.index == it.index + StepOf(it.step)
    ensures n.start == it.start && n.step == it.step && n.finish == it.finish
  {
    it.(index := it.index + StepOf(it.step))
  }

  /** isDone: the index has passed the finish. */
  predicate IsDone(it: RangeIterator) {
    it.index > it.finish
  }

  function CurrentItem(it: RangeIterator): (v: Value)
    ensures v.Number? && v.n == it.index
  {
    Number(it.index)
  }

  /** The iteration ends: the step is positive, or the range is empty
      from the start. A range with a non-positive step and start not
      above finish never finishes in the source. */
  predicate Terminates(start: real, step: Option<real>, finish: real) {
    StepOf(step) > 0.0 || start > finish
  }

  /** Term k of the progression from start by s. */
  function Term(start: real, s: real, k: nat): real {
    start + k as real * s
  }

  /** The number of terms start + k * s that do not exceed finish. */
  function TermCount(start: real, s: real, finish: real): nat
    requires s > 0.0
  {
    var k := ((finish - start) / s).Floor + 1;
    if k < 0 then 0 else k
  }

  /** Term k is within the range exactly when k is below the count. */
  lemma CountSpec(start: real, s: real, finish: real, k: nat)
    requires s > 0.0
    ensures Term(start, s, k) <= finish <==> k < TermCount(start, s, finish)
  {
    var q := (finish - start) / s;
    assert q * s == finish - start;
    if start + k as real * s <= finish {
      assert k as real * s <= q * s;
      Cancel(k as real, q, s);
      assert k as real <= q;
    } else {
      assert k as real * s > q * s;
      if k as real <= q {
        Scale(k as real, q, s);
      }
      assert k as real > q;
    }
  }

  lemma Cancel(x: real, y: real, s: real)
    requires s > 0.0 && x * s <= y * s
    ensures x <= y
  {
    assert (y - x) * s == y * s - x * s;
  }

  lemma Scale(x: real, y: real, s: real)
    requires s > 0.0 && x <= y
    ensures x * s <= y * s
  {
    assert (y - x) * s >= 0.0;
  }

  /** The children of a range, as a reference: term k is start + k * step,
      every term is within the range, and the next term would not be. */
  function Items(start: real, step: Option<real>, finish: real): (xs: seq<Value>)
    requires Terminates(start, step, finish)
    ensures forall k :: 0 <= k < |xs| ==> xs[k] == Number(Term(start, StepOf(step), k))
    ensures forall k :: 0 <= k < |xs| ==> Term(start, StepOf(step), k) <= finish
    ensures Term(start, StepOf(step), |xs|) > finish
    ensures start > finish <==> |xs| == 0
  {
    var s := StepOf(step);
    if start > finish then []
    else
      var n := TermCount(start, s, finish);
      CountSpec(start, s, finish, n);
      CountSpec(start, s, finish, 0);
      forall k: nat | k < n ensures Term(start, s, k) <= finish {
        CountSpec(start, s, finish, k);
      }
      seq(n, k requires 0 <= k < n => Number(Term(start, s, k)))
  }

  /** Every run of the iterator with a positive step has exactly these
      children: the count is the only length satisfying the contract. */
  lemma ItemsUnique(start: real, step: Option<real>, finish: real, ys: seq<Value>)
    requires StepOf(step) > 0.0
    requires forall k :: 0 <= k < |ys| ==> ys[k] == Number(Term(start, StepOf(step), k))
    requires forall k :: 0 <= k < |ys| ==> Term(start, StepOf(step), k) <= finish
    requires Term(start, StepOf(step), |ys|) > finish
    ensures ys == Items(start, step, finish)
  {
    var s := StepOf(step);
    var xs := Items(start, step, finish);
    CountSpec(start, s, finish, |ys|);
    if |ys| > 0 {
      CountSpec(start, s, finish, |ys| - 1);
    }
    if |xs| > 0 {
      CountSpec(start, s, finish, |xs| - 1);
    }
    CountSpec(start, s, finish, |xs|);
    assert |xs| == |ys|;
  }

  lemma StepIndex(start: real, s: real, n: nat)
    ensures Term(start, s, n) + s == Term(start, s, n + 1)
  {
  }

  /** getChildren: runs the iterator from first until isDone, collecting
      the current items. */
  method GetChildren(start: real, step: Option<real>, finish: real) returns (xs: seq<Value>)
    requires Terminates(start, step, finish)
    ensures xs == Items(start, step, finish)
  {
    var all := Items(start, step, finish);
    var s := StepOf(step);
    var it := First(start, step, finish);
    xs := [];
    while !IsDone(it)
      invariant it.start == start && it.step == step && it.finish == finish
      invariant it.index == Term(start, s, |xs|)
      invariant |xs| <= |all| && xs == all[..|xs|]
      decreases |all| - |xs|
    {
      assert |xs| < |all|;
      xs := xs + [CurrentItem(it)];
      StepIndex(start, s, |xs| - 1);
      it := Next(it);
    }
    assert |xs| == |all|;
  }

  /** RangeValue derives from VectorValue, so dynamic_cast<VectorValue*>
      accepts a range as well as a vector. */
  predicate IsVector(v: Value) {
    v.Vector? || v.Range?
  }

  /** What the virtual getChildren of a value that passed that cast
      returns: a vector's items, or a range's terms. A range that never
      finishes gives none here, where the source's loop never ends (see
      EndlessNeverDone). */
  function Children(v: Value): seq<Value> {
    match v
    case Vector(items) => items
    case Range(start, step, finish) => if Terminates(start, step, finish) then Items(start, step, finish) else []
    case _ => []
  }

  /** Every child of a range is a number, one per term. */
  lemma RangeChildren(start: real, step: Option<real>, finish: real)
    ensures IsVector(Range(start, step, finish))
    ensures var xs := Children(Range(start, step, finish));
      (Terminates(start, step, finish) ==> xs == Items(start, step, finish))
      && forall k :: 0 <= k < |xs| ==> xs[k] == Number(Term(start, StepOf(step), k))
  {
  }

  /** The iterator after n steps from first. */
  function Advance(it: RangeIterator, n: nat): (r: RangeIterator)
    ensures r.start == it.start && r.step == it.step && r.finish == it.finish
    ensures r.index == it.index + n as real * StepOf(it.step)
  {
    if n == 0 then it else Next(Advance(it, n - 1))
  }

  /** A range whose step is not positive and whose start is not above its
      finish is never done: getChildren's loop does not end for it. */
  lemma EndlessNeverDone(start: real, step: Option<real>, finish: real, n: nat)
    requires !Terminates(start, step, finish)
    ensures !IsDone(Advance(First(start, step, finish), n))
  {
    var s := StepOf(step);
    assert n as real * s <= 0.0 by {
      assert n as real >= 0.0 && s <= 0.0;
    }
  }

  /** operation: concatenating a vector or a range gives this range's
      children followed by the operand's; every other case goes to the
      base class. */
  function Operation(start: real, step: Option<real>, finish: real, v: Value, op: Op,
                     base: (Value, Op, Value) -> Value): (r: Value)
    ensures IsVector(v) && op == Concatenate ==>
      var items := Children(Range(start, step, finish));
      r.Vector? && |r.items| == |items| + |Children(v)|
      && r.items[..|items|] == items && r.items[|items|..] == Children(v)
    ensures !(IsVector(v) && op == Concatenate) ==> r == base(Range(start, step, finish), op, v)
  {
    if IsVector(v) && op == Concatenate then
      var items := Children(Range(start, step, finish));
      assert (items + Children(v))[..|items|] == items;
      Vector(items + Children(v))
    else base(Range(start, step, finish), op, v)
  }

  /** [0:2] ~ [5:6] is the vector [0, 1, 2, 5, 6]. */
  lemma ConcatenateRanges(base: (Value, Op, Value) -> Value)
    ensures Operation(0.0, None, 2.0, Range(5.0, None, 6.0), Concatenate, base).items
      == [Number(0.0), Number(1.0), Number(2.0), Number(5.0), Number(6.0)]
  {
    var a := Children(Range(0.0, None, 2.0));
    var b := Children(Range(5.0, None, 6.0));
    RangeChildren(0.0, None, 2.0);
    RangeChildren(5.0, None, 6.0);
    assert Term(0.0, 1.0, 3) > 2.0 && Term(5.0, 1.0, 2) > 6.0;
    assert |a| == 3 by {
      ItemsUnique(0.0, None, 2.0, [Number(0.0), Number(1.0), Number(2.0)]);
    }
    assert |b| == 2 by {
      ItemsUnique(5.0, None, 6.0, [Number(5.0), Number(6.0)]);
    }
    var r := Operation(0.0, None, 2.0, Range(5.0, None, 6.0), Concatenate, base).items;
    assert r == a + b;
  }

  /** A number formatter that never writes a colon. */
  ghost predicate ColonFree(num: real -> string) {
    forall x: real :: ':' !in num(x)
  }

  lemma NoColon(num: real -> string, x: real)
    requires ColonFree(num)
    ensures Count(num(x), ':') == 0
  {
    CountAbsent(num(x), ':');
  }

  /** The text of a range separates its parts by colons: two when it has
      a step and one when it has none, so the two forms can be told
      apart. */
  lemma RangeStringColons(start: real, step: Option<real>, finish: real, num: real -> string)
    requires ColonFree(num)
    ensures Count(RangeString(start, step, finish, num), ':') == if step.Some? then 2 else 1
  {
    var mid := if step.Some? then num(step.value) + ":" else "";
    NoColon(num, start);
    NoColon(num, finish);
    CountSingle('[', ':');
    CountSingle(':', ':');
    CountSingle(']', ':');
    if step.Some? {
      NoColon(num, step.value);
      CountAppend(num(step.value), ":", ':');
    } else {
      CountAbsent(mid, ':');
    }
    CountAppend("[", num(start), ':');
    CountAppend("[" + num(start), ":", ':');
    CountAppend("[" + num(start) + ":", mid, ':');
    CountAppend("[" + num(start) + ":" + mid, num(finish), ':');
    CountAppend("[" + num(start) + ":" + mid + num(finish), "]", ':');
  }
}
