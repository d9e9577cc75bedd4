/** What the geometry modules share: points, the two ways a primitive
    holds polygons, the trigonometric functions (left uninterpreted) and
    how module arguments are read. */
module Mesh {
  import opened Wrappers
  import opened Values
  import Pt = Point

  type Point = Pt.Point

  /** What a module's evaluate reads from its context: arguments by
      parameter position, arguments by position and name, and the special
      variables $fn, $fs and $fa; with them, the value conversions whose
      code is not part of this model: the truth of a value
      (Value::isTrue), the point a vector's children spell
      (VectorValue::getPoint) and Value::toVector. */
  datatype Context = Context(
    param: nat -> Option<Value>,
    arg: (nat, string) -> Option<Value>,
    fn: real, fs: real, fa: real,
    truth: Value -> bool,
    point: seq<Value> -> Point,
    toVector: (Value, nat) -> seq<Value>)

  /** A polygon given by its points, as PrimitiveNode::appendVertex and
      prependVertex build it. */
  type Loop = seq<Point>

  /** A primitive with a vertex list and polygons of vertex indices, as
      createVertex and Polygon::append build it. */
  datatype Primitive = Primitive(vertices: seq<Point>, polygons: seq<seq<int>>)

  /** Every index of every polygon names a vertex. */
  predicate WellIndexed(p: Primitive) {
    forall i, j :: 0 <= i < |p.polygons| && 0 <= j < |p.polygons[i]| ==> 0 <= p.polygons[i][j] < |p.vertices|
  }

  /** sin and cos of the C library. */
  datatype Trig = Trig(sin: real -> real, cos: real -> real)

  /** M_PI as a double. */
  const Pi: real := 3.141592653589793

  /** M_TAU, twice M_PI. */
  const Tau: real := 2.0 * Pi

  /** ceil, as an integer. */
  function Ceil(x: real): (c: int)
    ensures c as real - 1.0 < x <= c as real
  {
    -((-x).Floor)
  }

  /** dynamic_cast<NumberValue*> of an argument: its number, if it is one. */
  function NumberArg(v: Option<Value>): (n: Option<real>)
    ensures n.Some? <==> v.Some? && v.value.Number?
    ensures n.Some? ==> v.value == Number(n.value)
  {
    if v.Some? && v.value.Number? then Some(v.value.n) else None
  }

  /** The conversion of a double to int, which truncates toward zero
      (values outside the int range are not modelled). */
  function Truncate(x: real): (i: int)
    ensures x >= 0.0 ==> i as real <= x < i as real + 1.0
    ensures x < 0.0 ==> i as real - 1.0 < x <= i as real
  {
    if x >= 0.0 then x.Floor else -((-x).Floor)
  }

  /** The z range of an extrusion of height h: centred on the origin, or
      from the origin up. */
  function ZRange(h: real, center: bool): (z: (real, real))
    ensures z.1 - z.0 == h
    ensures center ==> z.0 == -z.1
    ensures !center ==> z.0 == 0.0
  {
    if center then (-h / 2.0, h / 2.0) else (0.0, h)
  }

  /** Every point of the polygon lies at height z. */
  predicate AtHeight(l: Loop, z: real) {
    forall k :: 0 <= k < |l| ==> l[k].z == z
  }

  /** The points in reverse order: what prependVertex builds from them. */
  function Reverse(ps: Loop): (r: Loop)
    ensures |r| == |ps| && forall i :: 0 <= i < |ps| ==> r[i] == ps[|ps| - 1 - i]
  {
    if |ps| == 0 then [] else Reverse(ps[1..]) + [ps[0]]
  }
}
