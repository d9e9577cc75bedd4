/** The prism module (src/module/prismmodule.cpp): a regular n-gon at
    each end of the height range, joined by n quads, with both ends
    capped; nothing at all when the radius is not positive. */
module Prism {
  import opened Wrappers
  import opened Values
  import opened Mesh
  import opened PrimitiveModule
  import opened Frustum

  /** The number of sides: 3 by default, the sides argument truncated. */
  function Sides(ctx: Context): (n: int)
    ensures NumberArg(ctx.arg(1, "sides")).None? ==> n == 3
    ensures NumberArg(ctx.arg(1, "sides")).Some? ==> n == Truncate(NumberArg(ctx.arg(1, "sides")).value)
  {
    match NumberArg(ctx.arg(1, "sides"))
    case Some(x) => Truncate(x)
    case None => 3
  }

  function Apothem(ctx: Context): Option<real> {
    NumberArg(ctx.arg(2, "apothem"))
  }

  function Radius(ctx: Context): Option<real> {
    NumberArg(ctx.arg(2, "radius"))
  }

  /** The polygons of a prism of n sides between heights z1 and z2: the
      side quads, the lower n-gon in order, the upper one reversed. */
  function Polygons(a: real, r: real, n: int, z1: real, z2: real, trig: Trig): (p: seq<Loop>)
    ensures r <= 0.0 ==> p == []
    ensures r > 0.0 ==>
      var m := Iterations(n);
      var p1 := GetPolygon(a, r, n, z1, trig);
      var p2 := GetPolygon(a, r, n, z2, trig);
      |p| == m + 2
      && (forall i :: 0 <= i < m ==> p[i] == Quad(p1, p2, m, i))
      && p[m] == p1 && p[m + 1] == Reverse(p2)
  {
    if r > 0.0 then
      var m := Iterations(n);
      var p1 := GetPolygon(a, r, n, z1, trig);
      var p2 := GetPolygon(a, r, n, z2, trig);
      Walls(p1, p2, m, r, r, true, m) + [p1, Reverse(p2)]
    else []
  }

  /** evaluate: height 1, three sides, apothem and radius 1 by default;
      centred on the origin when the centre argument is true. */
  function Evaluate(ctx: Context, trig: Trig): (p: seq<Loop>)
    requires ApothemUsable(Apothem(ctx), Sides(ctx), trig)
    ensures var n := Sides(ctx);
      var ar := ApothemRadius(Apothem(ctx), Radius(ctx), n, trig);
      var h := NumberArg(ctx.arg(0, "height")).GetOr(1.0);
      var center := ctx.arg(3, "center").Some? && ctx.truth(ctx.arg(3, "center").value);
      p == Polygons(ar.0, ar.1, n, ZRange(h, center).0, ZRange(h, center).1, trig)
  {
    var h := NumberArg(ctx.arg(0, "height")).GetOr(1.0);
    var n := Sides(ctx);
    var ar := ApothemRadius(Apothem(ctx), Radius(ctx), n, trig);
    var centerVal := ctx.arg(3, "center");
    var center := centerVal.Some? && ctx.truth(centerVal.value);
    var zs := ZRange(h, center);
    Polygons(ar.0, ar.1, n, zs.0, zs.1, trig)
  }

  /** The default prism is a triangular one: three quads and two caps. */
  lemma DefaultTriangular(ctx: Context, trig: Trig)
    requires NumberArg(ctx.arg(1, "sides")).None?
    requires Apothem(ctx).None? && Radius(ctx).None?
    ensures |Evaluate(ctx, trig)| == 5
  {
  }

  /** The quads and caps of a prism share their corners: the lower edge of
      quad i runs along the lower cap from point i, and its upper edge
      along the upper cap. */
  lemma QuadsMeetCaps(a: real, r: real, n: int, z1: real, z2: real, trig: Trig, i: int)
    requires r > 0.0 && 0 <= i < n
    ensures var p := Polygons(a, r, n, z1, z2, trig);
      p[i][0] == p[n][i] && p[i][3] == p[n][(i + 1) % n]
      && p[i][1] == p[n + 1][n - 1 - i]
  {
  }
}
