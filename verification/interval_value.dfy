/** Interval arithmetic (src/intervalvalue.cpp). An interval is a pair of
    number endpoints [lower, upper]; the endpoint arithmetic is the real
    arithmetic of numbers. The quotient of two numbers is a parameter,
    because the number class's handling of division by zero is not part
    of this model; so is the base Value::operation that a non-interval
    operand defers to. compareAll, which picks the least or greatest of
    the four corner values, is modelled as Min4 and Max4. */
module IntervalValue {
  import opened Values
  import opened Operators

  /** The base class's operation, used for operands that are not
      intervals. */
  type Base = (Value, Op, Value) -> Value

  predicate Contains(l: real, u: real, x: real) {
    l <= x <= u
  }

  /** The unary operation: plus is the identity, minus negates both
      endpoints and swaps them, anything else is undefined. */
  function Unary(l: real, u: real, op: Op): (r: Value)
    ensures op == Add ==> r == Interval(l, u)
    ensures op == Subtract ==> r.Interval? && forall x :: Contains(l, u, x) <==> Contains(r.lower, r.upper, -x)
    ensures op != Add && op != Subtract ==> r == Undefined
  {
    if op == Add then Interval(l, u)
    else if op == Subtract then Interval(-u, -l)
    else Undefined
  }

  /** Negating twice gives the interval back. */
  lemma NegateTwice(l: real, u: real)
    ensures var n := Unary(l, u, Subtract);
      Unary(n.lower, n.upper, Subtract) == Interval(l, u)
  {
  }

  function Min4(p: real, q: real, r: real, s: real): (m: real)
    ensures m <= p && m <= q && m <= r && m <= s
    ensures m == p || m == q || m == r || m == s
  {
    var a := if p <= q then p else q;
    var b := if r <= s then r else s;
    if a <= b then a else b
  }

  function Max4(p: real, q: real, r: real, s: real): (m: real)
    ensures m >= p && m >= q && m >= r && m >= s
    ensures m == p || m == q || m == r || m == s
  {
    var a := if p >= q then p else q;
    var b := if r >= s then r else s;
    if a >= b then a else b
  }

  /** The interval-interval operation, x = [a, b] and y = [c, d]. */
  function Binary(a: real, b: real, op: Op, c: real, d: real, quot: (real, real) -> real): (r: Value)
    ensures op == Equal ==> r == Boolean(Interval(a, b) == Interval(c, d))
    ensures op == NotEqual ==> r == Boolean(Interval(a, b) != Interval(c, d))
    ensures op == Add || op == Subtract ==> r.Interval? && (a <= b && c <= d ==> r.lower <= r.upper)
    ensures op == Multiply || op == Divide ==> r.Interval? && r.lower <= r.upper
    ensures op == Multiply ==> r.Interval? && LeastAndGreatest(r.lower, r.upper, a * c, a * d, b * c, b * d)
    ensures op == Divide ==> r.Interval? && LeastAndGreatest(r.lower, r.upper, quot(a, c), quot(a, d), quot(b, c), quot(b, d))
    ensures !(op in {Equal, NotEqual, Add, Subtract, Multiply, Divide}) ==> r == Undefined
  {
    if op == Equal then Boolean(a == c && b == d)
    else if op == NotEqual then Boolean(a != c || b != d)
    else if op == Add then Interval(a + c, b + d)
    else if op == Subtract then Interval(a - d, b - c)
    else if op == Multiply then Hull4(a * c, a * d, b * c, b * d)
    else if op == Divide then Hull4(quot(a, c), quot(a, d), quot(b, c), quot(b, d))
    else Undefined
  }

  /** lo is the least and hi the greatest of the four values. */
  predicate LeastAndGreatest(lo: real, hi: real, p: real, q: real, r: real, s: real)
  {
    && lo <= p && lo <= q && lo <= r && lo <= s
    && hi >= p && hi >= q && hi >= r && hi >= s
    && lo in {p, q, r, s} && hi in {p, q, r, s}
  }

  /** The least and the greatest of the four corner values. */
  function Hull4(ac: real, ad: real, bc: real, bd: real): (r: Value)
    ensures r.Interval? && r.lower <= r.upper
    ensures r.lower in {ac, ad, bc, bd} && r.upper in {ac, ad, bc, bd}
    ensures r.lower <= ac && r.lower <= ad && r.lower <= bc && r.lower <= bd
    ensures r.upper >= ac && r.upper >= ad && r.upper >= bc && r.upper >= bd
  {
    Interval(Min4(ac, ad, bc, bd), Max4(ac, ad, bc, bd))
  }

  /** operation(Value&): an interval operand is combined endpoint-wise,
      anything else goes to the base class. */
  function Operation(l: real, u: real, op: Op, v: Value, quot: (real, real) -> real, base: Base): (r: Value)
    ensures v.Interval? ==> r == Binary(l, u, op, v.lower, v.upper, quot)
    ensures !v.Interval? ==> r == base(Interval(l, u), op, v)
  {
    match v
    case Interval(c, d) => Binary(l, u, op, c, d, quot)
    case _ => base(Interval(l, u), op, v)
  }

  /** NotEqual is the negation of Equal. */
  lemma NotEqualIsNotEqual(a: real, b: real, c: real, d: real, quot: (real, real) -> real)
    ensures Binary(a, b, NotEqual, c, d, quot) == Boolean(!Binary(a, b, Equal, c, d, quot).b)
  {
  }

  /** The sum of a point of x and a point of y lies in x + y, and every
      point of x + y is such a sum: addition is exact. */
  lemma AddSound(a: real, b: real, c: real, d: real, x: real, y: real, quot: (real, real) -> real)
    requires Contains(a, b, x) && Contains(c, d, y)
    ensures var r := Binary(a, b, Add, c, d, quot); Contains(r.lower, r.upper, x + y)
  {
  }

  lemma AddExact(a: real, b: real, c: real, d: real, z: real, quot: (real, real) -> real)
    requires a <= b && c <= d
    requires var r := Binary(a, b, Add, c, d, quot); Contains(r.lower, r.upper, z)
    ensures exists x, y :: Contains(a, b, x) && Contains(c, d, y) && x + y == z
  {
    if z - c <= b {
      assert Contains(a, b, z - c) && Contains(c, d, c);
    } else {
      assert Contains(a, b, b) && Contains(c, d, z - b);
    }
  }

  /** The difference of a point of x and a point of y lies in x - y. */
  lemma SubtractSound(a: real, b: real, c: real, d: real, x: real, y: real, quot: (real, real) -> real)
    requires Contains(a, b, x) && Contains(c, d, y)
    ensures var r := Binary(a, b, Subtract, c, d, quot); Contains(r.lower, r.upper, x - y)
  {
  }

  /** Subtraction is addition of the negation. */
  lemma SubtractIsAddNegated(a: real, b: real, c: real, d: real, quot: (real, real) -> real)
    ensures var n := Unary(c, d, Subtract);
      Binary(a, b, Subtract, c, d, quot) == Binary(a, b, Add, n.lower, n.upper, quot)
  {
  }

  /** Multiplying by a fixed factor keeps x * k between the products of
      the endpoints. */
  lemma ScaleBetween(a: real, b: real, x: real, k: real)
    requires Contains(a, b, x)
    ensures Between(a * k, b * k, x * k)
  {
    if k >= 0.0 {
      assert (x - a) * k >= 0.0;
      assert (b - x) * k >= 0.0;
    } else {
      assert (x - a) * k <= 0.0;
      assert (b - x) * k <= 0.0;
    }
  }

  lemma ScaleBetweenLeft(a: real, b: real, x: real, k: real)
    requires Contains(a, b, x)
    ensures Between(k * a, k * b, k * x)
  {
    ScaleBetween(a, b, x, k);
  }

  predicate Between(p: real, q: real, v: real) {
    (p <= v <= q) || (q <= v <= p)
  }

  /** A value between two values that each lie between two corners lies
      between the least and the greatest corner. */
  lemma Hull(v: real, p: real, q: real, c1: real, c2: real, c3: real, c4: real)
    requires Between(p, q, v) && Between(c1, c2, p) && Between(c3, c4, q)
    ensures Min4(c1, c2, c3, c4) <= v <= Max4(c1, c2, c3, c4)
  {
  }

  /** The product of a point of x and a point of y lies in x * y, the
      hull of the four corner products. */
  lemma MultiplySound(a: real, b: real, c: real, d: real, x: real, y: real, quot: (real, real) -> real)
    requires Contains(a, b, x) && Contains(c, d, y)
    ensures var r := Binary(a, b, Multiply, c, d, quot); Contains(r.lower, r.upper, x * y)
  {
    MultiplyIsHull(a, b, c, d, quot);
    CornerHull(a, b, c, d, x, y);
  }

  lemma MultiplyIsHull(a: real, b: real, c: real, d: real, quot: (real, real) -> real)
    ensures Binary(a, b, Multiply, c, d, quot) == Hull4(a * c, a * d, b * c, b * d)
  {
  }

  /** A quotient interval is the hull of the four corner quotients,
      with the same quotient rule for every corner. */
  lemma DivideIsHull(a: real, b: real, c: real, d: real, quot: (real, real) -> real)
    ensures Binary(a, b, Divide, c, d, quot) == Hull4(quot(a, c), quot(a, d), quot(b, c), quot(b, d))
  {
  }

  lemma CornerHull(a: real, b: real, c: real, d: real, x: real, y: real)
    requires Contains(a, b, x) && Contains(c, d, y)
    ensures var h := Hull4(a * c, a * d, b * c, b * d); Contains(h.lower, h.upper, x * y)
  {
    CornerBetweens(a, b, c, d, x, y);
    HullContains(x * y, a * y, b * y, a * c, a * d, b * c, b * d);
  }

  lemma HullContains(v: real, p: real, q: real, c1: real, c2: real, c3: real, c4: real)
    requires Between(p, q, v) && Between(c1, c2, p) && Between(c3, c4, q)
    ensures var h := Hull4(c1, c2, c3, c4); Contains(h.lower, h.upper, v)
  {
    Hull(v, p, q, c1, c2, c3, c4);
  }

  /** x * y lies between a * y and b * y, which lie between the corner
      products of their rows. */
  lemma CornerBetweens(a: real, b: real, c: real, d: real, x: real, y: real)
    requires Contains(a, b, x) && Contains(c, d, y)
    ensures Between(a * y, b * y, x * y) && Between(a * c, a * d, a * y) && Between(b * c, b * d, b * y)
  {
    ScaleBetween(a, b, x, y);
    ScaleBetweenLeft(c, d, y, a);
    ScaleBetweenLeft(c, d, y, b);
  }

  /** The text "n±t" names the interval: n - t is the lower endpoint and
      n + t the upper. */
  lemma StringCentres(l: real, u: real)
    ensures var t := (u - l) / 2.0; var n := u - t;
      n - t == l && n + t == u && (l <= u ==> t >= 0.0)
  {
  }
}
