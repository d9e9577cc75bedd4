/** The regular polygon module (src/module/regularpolygonmodule.cpp): a
    flat surface holding one regular polygon centred on the origin. The
    node always carries the module's child nodes; the conversion of the
    sides argument to an integer (NumberValue::toInteger) is a parameter. */
module RegularPolygon {
  import opened Wrappers
  import opened Values
  import opened Mesh
  import opened PrimitiveModule

  /** A surface primitive and the child nodes it carries. */
  datatype SurfaceNode<C> = SurfaceNode(shape: Primitive, children: seq<C>)

  function Sides(ctx: Context, toInteger: real -> int): (s: int)
    ensures NumberArg(ctx.param(0)).None? ==> s == 3
    ensures NumberArg(ctx.param(0)).Some? ==> s == toInteger(NumberArg(ctx.param(0)).value)
  {
    match NumberArg(ctx.param(0))
    case Some(x) => toInteger(x)
    case None => 3
  }

  function Apothem(ctx: Context): Option<real> {
    NumberArg(ctx.param(1))
  }

  function Radius(ctx: Context): Option<real> {
    NumberArg(ctx.arg(1, "radius"))
  }

  /** The polygon over its own points: vertex k is point k of the
      n-gon, and the one polygon lists 0 .. n - 1 in order. */
  function Surface(pts: Loop): (p: Primitive)
    ensures p.vertices == pts && WellIndexed(p)
    ensures |p.polygons| == 1 && |p.polygons[0]| == |pts|
    ensures forall k :: 0 <= k < |pts| ==> p.polygons[0][k] == k
  {
    Primitive(pts, [seq(|pts|, k requires 0 <= k < |pts| => k)])
  }

  /** evaluate: an empty surface when the side count is not positive or
      the radius is not positive; otherwise the single polygon. */
  function Evaluate<C>(ctx: Context, toInteger: real -> int, children: seq<C>, trig: Trig): (node: SurfaceNode<C>)
    requires Sides(ctx, toInteger) > 0 ==> ApothemUsable(Apothem(ctx), Sides(ctx, toInteger), trig)
    ensures node.children == children
    ensures Sides(ctx, toInteger) <= 0 ==> node.shape == Primitive([], [])
    ensures Sides(ctx, toInteger) > 0 ==>
      var s := Sides(ctx, toInteger);
      var ar := ApothemRadius(Apothem(ctx), Radius(ctx), s, trig);
      (ar.1 <= 0.0 ==> node.shape == Primitive([], []))
      && (ar.1 > 0.0 ==>
          (node.shape == Surface(GetPolygon(ar.0, ar.1, s, 0.0, trig)) && |node.shape.vertices| == s))
  {
    var s := Sides(ctx, toInteger);
    if s <= 0 then SurfaceNode(Primitive([], []), children)
    else
      var ar := ApothemRadius(Apothem(ctx), Radius(ctx), s, trig);
      if ar.1 > 0.0 then SurfaceNode(Surface(GetPolygon(ar.0, ar.1, s, 0.0, trig)), children)
      else SurfaceNode(Primitive([], []), children)
  }

  /** The polygon's points all lie in the plane z = 0. */
  lemma Flat<C>(ctx: Context, toInteger: real -> int, children: seq<C>, trig: Trig)
    requires Sides(ctx, toInteger) > 0 ==> ApothemUsable(Apothem(ctx), Sides(ctx, toInteger), trig)
    ensures var v := Evaluate(ctx, toInteger, children, trig).shape.vertices;
      forall k :: 0 <= k < |v| ==> v[k].z == 0.0
  {
  }
}
