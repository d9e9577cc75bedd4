/** The cone module (src/module/conemodule.cpp): like the two-radius
    cylinder, but always with triangles, with the bottom cap first, and
    with nothing above the bottom cap when the height is zero. */
module Cone {
  import opened Wrappers
  import opened Values
  import opened Mesh
  import opened PrimitiveModule
  import opened Frustum

  datatype Shape = Shape(h: real, r1: real, r2: real, center: bool)

  /** The argument defaults: height 1, both radii 0, not centred. */
  function Arguments(ctx: Context): (s: Shape)
    ensures s.h == NumberArg(ctx.param(0)).GetOr(1.0)
    ensures s.r1 == NumberArg(ctx.param(1)).GetOr(0.0)
    ensures s.r2 == NumberArg(ctx.param(2)).GetOr(0.0)
    ensures ctx.param(3).None? ==> !s.center
    ensures ctx.param(3).Some? ==> s.center == ctx.truth(ctx.param(3).value)
  {
    var h := NumberArg(ctx.param(0)).GetOr(1.0);
    var r1 := NumberArg(ctx.param(1)).GetOr(0.0);
    var r2 := NumberArg(ctx.param(2)).GetOr(0.0);
    var center := ctx.param(3).Some? && ctx.truth(ctx.param(3).value);
    Shape(h, r1, r2, center)
  }

  /** The polygons of a cone with f fragments: the bottom cap when r1 is
      positive; then, unless the height is zero, the side triangles and
      the reversed top cap when r2 is positive. */
  function Polygons(s: Shape, f: int, trig: Trig): (p: seq<Loop>)
    requires f >= 0
    ensures var c1 := GetCircle(s.r1, f, ZRange(s.h, s.center).0, trig);
      var c2 := GetCircle(s.r2, f, ZRange(s.h, s.center).1, trig);
      var bottom := if s.r1 > 0.0 then 1 else 0;
      (s.r1 > 0.0 ==> |p| > 0 && p[0] == c1)
      && (s.h == 0.0 ==> |p| == bottom)
      && (s.h != 0.0 ==>
          (var walls := Walls(c1, c2, f, s.r1, s.r2, false, f);
           |p| == bottom + |walls| + (if s.r2 > 0.0 then 1 else 0)
           && p[bottom..bottom + |walls|] == walls
           && (s.r2 > 0.0 ==> p[|p| - 1] == Reverse(c2))))
  {
    var zs := ZRange(s.h, s.center);
    var c1 := GetCircle(s.r1, f, zs.0, trig);
    var c2 := GetCircle(s.r2, f, zs.1, trig);
    var base := if s.r1 > 0.0 then [c1] else [];
    if s.h == 0.0 then base
    else
      var walls := Walls(c1, c2, f, s.r1, s.r2, false, f);
      var p := base + walls + (if s.r2 > 0.0 then [Reverse(c2)] else []);
      assert p[|base|..|base| + |walls|] == walls;
      p
  }

  /** evaluate: the fragment count comes from the larger radius. */
  function Evaluate(ctx: Context, trig: Trig): (p: seq<Loop>)
    requires var s := Arguments(ctx); FragmentsDefined(Max(s.r1, s.r2), ctx.fn, ctx.fs, ctx.fa)
    ensures var s := Arguments(ctx);
      p == Polygons(s, GetFragments(Max(s.r1, s.r2), ctx.fn, ctx.fs, ctx.fa), trig)
  {
    var s := Arguments(ctx);
    Polygons(s, GetFragments(Max(s.r1, s.r2), ctx.fn, ctx.fs, ctx.fa), trig)
  }

  /** A flat cone is at most its bottom disc. */
  lemma FlatIsDisc(s: Shape, f: int, trig: Trig)
    requires f >= 0 && s.h == 0.0
    ensures |Polygons(s, f, trig)| <= 1
  {
  }

  /** A pointed cone (r2 = 0, r1 > 0, h != 0) has the base and one
      triangle per fragment. */
  lemma PointedCount(s: Shape, f: int, trig: Trig)
    requires f >= 0 && s.h != 0.0 && s.r1 > 0.0 && s.r2 == 0.0
    ensures |Polygons(s, f, trig)| == f + 1
  {
  }
}
