/** The cylinder module (src/module/cylindermodule.cpp): two circles of
    the same number of fragments, joined by side walls, with a cap on
    each end whose radius is positive. The fragment count uses fixed
    special values, $fn = 0, $fs = 1 and $fa = 12, not the context's. */
module Cylinder {
  import opened Wrappers
  import opened Values
  import opened Mesh
  import opened PrimitiveModule
  import opened Frustum

  /** The arguments as the source resolves them. */
  datatype Shape = Shape(h: real, r: real, r1: real, r2: real, center: bool)

  /** A Boolean argument: dynamic_cast<BooleanValue*>. */
  function BooleanArg(v: Option<Value>): (b: Option<Value>)
    ensures b.Some? <==> v.Some? && v.value.Boolean?
    ensures b.Some? ==> b == v
  {
    if v.Some? && v.value.Boolean? then v else None
  }

  /** The argument defaults: height 1; radius1 given means the two-radius
      form, with radius2 defaulting to 1, centre at position 3, and the
      larger radius for the fragments; otherwise one radius for both
      ends, from radius or half the diameter, defaulting to 1, with the
      centre at position 2. An absent centre means not centred. */
  function Arguments(ctx: Context): (s: Shape)
    ensures NumberArg(ctx.arg(0, "height")).None? ==> s.h == 1.0
    ensures NumberArg(ctx.arg(0, "height")).Some? ==> s.h == NumberArg(ctx.arg(0, "height")).value
    ensures NumberArg(ctx.arg(1, "radius1")).Some? ==>
      s.r1 == NumberArg(ctx.arg(1, "radius1")).value
      && s.r2 == NumberArg(ctx.arg(2, "radius2")).GetOr(1.0)
      && s.r == Max(s.r1, s.r2)
    ensures NumberArg(ctx.arg(1, "radius1")).None? ==> s.r1 == s.r2 == s.r
    ensures NumberArg(ctx.arg(1, "radius1")).None? && NumberArg(ctx.arg(1, "radius")).Some? ==>
      s.r == NumberArg(ctx.arg(1, "radius")).value
    ensures (NumberArg(ctx.arg(1, "radius1")).None? && NumberArg(ctx.arg(1, "radius")).None?
      && NumberArg(ctx.arg(1, "diameter")).Some?) ==> s.r == NumberArg(ctx.arg(1, "diameter")).value / 2.0
    ensures (NumberArg(ctx.arg(1, "radius1")).None? && NumberArg(ctx.arg(1, "radius")).None?
      && NumberArg(ctx.arg(1, "diameter")).None?) ==> s.r == 1.0
  {
    var h := NumberArg(ctx.arg(0, "height")).GetOr(1.0);
    var r1Value := NumberArg(ctx.arg(1, "radius1"));
    var r2Value := NumberArg(ctx.arg(2, "radius2"));
    if r1Value.None? then
      var centerValue := BooleanArg(ctx.arg(2, "center"));
      var center := centerValue.Some? && ctx.truth(centerValue.value);
      var rValue := NumberArg(ctx.arg(1, "radius"));
      if rValue.Some? then Shape(h, rValue.value, rValue.value, rValue.value, center)
      else
        var dValue := NumberArg(ctx.arg(1, "diameter"));
        var r := if dValue.Some? then dValue.value / 2.0 else 1.0;
        Shape(h, r, r, r, center)
    else
      var r1 := r1Value.value;
      var r2 := r2Value.GetOr(1.0);
      var centerValue := BooleanArg(ctx.arg(3, "center"));
      var center := centerValue.Some? && ctx.truth(centerValue.value);
      Shape(h, Max(r1, r2), r1, r2, center)
  }

  /** The fragment count with the module's fixed special values. */
  function Fragments(r: real): (f: int)
    ensures f >= 0 && (r < GridFine <==> f == 0)
    ensures r >= GridFine ==> f >= 5
  {
    GetFragments(r, 0.0, 1.0, 12.0)
  }

  /** The polygons of a cylinder: the side walls, then the bottom cap in
      circle order when r1 is positive, then the top cap, built by
      prepending and so in reverse order, when r2 is positive. */
  function Polygons(s: Shape, trig: Trig): (p: seq<Loop>)
    ensures var f := Fragments(s.r);
      var c1 := GetCircle(s.r1, f, ZRange(s.h, s.center).0, trig);
      var c2 := GetCircle(s.r2, f, ZRange(s.h, s.center).1, trig);
      var walls := Walls(c1, c2, f, s.r1, s.r2, s.r1 == s.r2, f);
      |p| == |walls| + (if s.r1 > 0.0 then 1 else 0) + (if s.r2 > 0.0 then 1 else 0)
      && p[..|walls|] == walls
      && (s.r1 > 0.0 ==> p[|walls|] == c1)
      && (s.r2 > 0.0 ==> p[|p| - 1] == Reverse(c2))
  {
    var f := Fragments(s.r);
    var zs := ZRange(s.h, s.center);
    var c1 := GetCircle(s.r1, f, zs.0, trig);
    var c2 := GetCircle(s.r2, f, zs.1, trig);
    var walls := Walls(c1, c2, f, s.r1, s.r2, s.r1 == s.r2, f);
    WithCaps(walls, c1, Reverse(c2), s.r1 > 0.0, s.r2 > 0.0)
  }

  /** The walls followed by the caps that are present. */
  function WithCaps(walls: seq<Loop>, bottom: Loop, top: Loop, hasBottom: bool, hasTop: bool): (p: seq<Loop>)
    ensures |p| == |walls| + (if hasBottom then 1 else 0) + (if hasTop then 1 else 0)
    ensures p[..|walls|] == walls
    ensures hasBottom ==> p[|walls|] == bottom
    ensures hasTop ==> p[|p| - 1] == top
  {
    var p := walls + (if hasBottom then [bottom] else []) + (if hasTop then [top] else []);
    assert p[..|walls|] == walls;
    p
  }

  /** evaluate: the polygons of the cylinder its arguments describe. */
  function Evaluate(ctx: Context, trig: Trig): (p: seq<Loop>)
    ensures p == Polygons(Arguments(ctx), trig)
  {
    Polygons(Arguments(ctx), trig)
  }

  /** A cylinder with equal positive radii has one quad per fragment and
      the two caps: f + 2 polygons. */
  lemma EqualRadiiCount(s: Shape, trig: Trig)
    requires s.r1 == s.r2 == s.r > 0.0
    ensures |Polygons(s, trig)| == Fragments(s.r) + 2
  {
  }

  /** With two different positive radii, each fragment gives two
      triangles: 2 f + 2 polygons. */
  lemma ConeLikeCount(s: Shape, trig: Trig)
    requires s.r1 != s.r2 && s.r1 > 0.0 && s.r2 > 0.0 && s.r == Max(s.r1, s.r2)
    ensures |Polygons(s, trig)| == 2 * Fragments(s.r) + 2
  {
  }

  /** The bottom circle lies at the lower end of the z range and the top
      circle at the upper, the range being [-h/2, h/2] when centred and
      [0, h] otherwise. */
  lemma CapHeights(s: Shape, trig: Trig)
    requires s.r1 > 0.0 && s.r2 > 0.0
    ensures var p := Polygons(s, trig);
      var lo := if s.center then -s.h / 2.0 else 0.0;
      var hi := if s.center then s.h / 2.0 else s.h;
      AtHeight(p[|p| - 2], lo) && AtHeight(p[|p| - 1], hi)
  {
  }
}
