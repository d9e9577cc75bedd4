/** The helpers every mesh module uses (src/module/primitivemodule.cpp):
    the fragment count of a circle and the points of circles and regular
    polygons. sin and cos are parameters. */
module PrimitiveModule {
  import opened Wrappers
  import opened Mesh
  import Pt = Point

  /** GRID_FINE: radii below it get no fragments. */
  const GridFine: real := 0.000001

  /** Whether getFragments yields a number: with $fn unset and both $fs
      and $fa zero, both bounds are infinite and the conversion of the
      infinite ceiling to int is undefined in C++. A single zero divisor
      gives one infinite bound, which the minimum then ignores. */
  predicate FragmentsDefined(r: real, fn: real, fs: real, fa: real) {
    r < GridFine || fn > 0.0 || fs != 0.0 || fa != 0.0
  }

  /** The lesser of 360 / fa and r * pi / fs, where a zero divisor makes
      its bound infinite. */
  function Bound(r: real, fs: real, fa: real): (b: real)
    requires fs != 0.0 || fa != 0.0
    ensures fs != 0.0 && fa != 0.0 ==> b == Min(360.0 / fa, r * Pi / fs)
    ensures fs == 0.0 ==> b == 360.0 / fa
    ensures fa == 0.0 ==> b == r * Pi / fs
  {
    if fa == 0.0 then r * Pi / fs
    else if fs == 0.0 then 360.0 / fa
    else Min(360.0 / fa, r * Pi / fs)
  }

  /** getFragments: none for a radius below the grid, $fn when it is
      positive (truncated), otherwise the circle split by $fa degrees or
      into $fs-long pieces, whichever gives fewer, but at least five. */
  function GetFragments(r: real, fn: real, fs: real, fa: real): (f: int)
    requires FragmentsDefined(r, fn, fs, fa)
    ensures f >= 0
    ensures r < GridFine ==> f == 0
    ensures r >= GridFine && fn > 0.0 ==> f as real <= fn < f as real + 1.0
    ensures r >= GridFine && fn <= 0.0 ==> f >= 5
    ensures r >= GridFine && fn <= 0.0 && fs != 0.0 && fa != 0.0 ==>
      var m := Max(Min(360.0 / fa, r * Pi / fs), 5.0);
      f as real - 1.0 < m <= f as real
  {
    if r < GridFine then 0
    else if fn > 0.0 then fn.Floor
    else Ceil(Max(Bound(r, fs, fa), 5.0))
  }

  function Min(a: real, b: real): real {
    if a <= b then a else b
  }

  function Max(a: real, b: real): real {
    if a >= b then a else b
  }

  /** The number of loop iterations for i = 0, 1, ... while i < f. */
  function Iterations(f: int): (n: nat)
    ensures f <= 0 ==> n == 0
    ensures f > 0 ==> n == f
  {
    if f <= 0 then 0 else f
  }

  /** Point i of getCircle: at angle tau * i / f on the circle of radius
      r, or at the centre when r is not positive. */
  function CirclePoint(r: real, f: int, z: real, i: nat, trig: Trig): (p: Point)
    requires f > 0
    ensures p.z == z
    ensures r <= 0.0 ==> p == Pt.Point(0.0, 0.0, z)
  {
    var phi := (Tau * i as real) / f as real;
    if r > 0.0 then Pt.Point(r * trig.cos(phi), r * trig.sin(phi), z)
    else Pt.Point(0.0, 0.0, z)
  }

  /** getCircle: f points, one per fragment, all at height z. */
  function GetCircle(r: real, f: int, z: real, trig: Trig): (c: Loop)
    ensures |c| == Iterations(f)
    ensures forall i :: 0 <= i < |c| ==> c[i].z == z && c[i] == CirclePoint(r, f, z, i, trig)
    ensures r <= 0.0 ==> forall i :: 0 <= i < |c| ==> c[i] == Pt.Point(0.0, 0.0, z)
  {
    if f <= 0 then []
    else seq(f, i requires 0 <= i < f => CirclePoint(r, f, z, i, trig))
  }

  /** getPolygon with six sides: the hexagon with flat top and bottom
      edges at height a and -a, the side half-width s2 = r sin(pi / 6). */
  function Hexagon(a: real, r: real, z: real, trig: Trig): (h: Loop)
    ensures |h| == 6
    ensures forall i :: 0 <= i < 6 ==> h[i].z == z
  {
    var s2 := r * trig.sin(Pi / 6.0);
    [Pt.Point(-s2, a, z), Pt.Point(s2, a, z), Pt.Point(r, 0.0, z),
     Pt.Point(s2, -a, z), Pt.Point(-s2, -a, z), Pt.Point(-r, 0.0, z)]
  }

  /** getPolygon: the hexagon for six sides, a circle of n fragments
      otherwise. */
  function GetPolygon(a: real, r: real, n: int, z: real, trig: Trig): (p: Loop)
    ensures |p| == Iterations(n)
    ensures forall i :: 0 <= i < |p| ==> p[i].z == z
    ensures n != 6 ==> p == GetCircle(r, n, z, trig)
  {
    if n == 6 then Hexagon(a, r, z, trig) else GetCircle(r, n, z, trig)
  }

  /** The hexagon is symmetric: each point has its mirror image through
      the centre three places on. */
  lemma HexagonSymmetric(a: real, r: real, z: real, trig: Trig)
    ensures var h := Hexagon(a, r, z, trig);
      forall i :: 0 <= i < 3 ==> h[i + 3] == Pt.Point(-h[i].x, -h[i].y, z)
  {
  }

  /** Whether the apothem can be turned into a radius: the angle pi / n
      needs n != 0, and the division needs a non-zero cosine. The source
      computes in doubles, where either case gives an infinite or
      undefined radius. */
  predicate ApothemUsable(apothem: Option<real>, n: int, trig: Trig) {
    apothem.Some? ==> n != 0 && trig.cos(Pi / n as real) != 0.0
  }

  /** The apothem a and circumradius r of a regular n-gon, as the prism
      and regular polygon modules both derive them: from the apothem
      argument, r = a / cos(pi / n); else from the radius argument,
      a = r cos(pi / n); else both 1. With n = 0 and no apothem, a is not
      a number in the source, but it is only read for n = 6; it is 0 here. */
  function ApothemRadius(apothem: Option<real>, radius: Option<real>, n: int, trig: Trig): (ar: (real, real))
    requires ApothemUsable(apothem, n, trig)
    ensures apothem.Some? ==> ar.0 == apothem.value && ar.1 * trig.cos(Pi / n as real) == ar.0
    ensures apothem.None? && radius.Some? ==>
      ar.1 == radius.value && (n != 0 ==> ar.0 == ar.1 * trig.cos(Pi / n as real))
    ensures apothem.None? && radius.None? ==> ar == (1.0, 1.0)
  {
    if apothem.Some? then
      var c := trig.cos(Pi / n as real);
      var r := apothem.value / c;
      assert r * c == apothem.value;
      (apothem.value, r)
    else if radius.Some? then
      (if n != 0 then radius.value * trig.cos(Pi / n as real) else 0.0, radius.value)
    else (1.0, 1.0)
  }
}
