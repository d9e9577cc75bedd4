/** The points module (src/module/pointsmodule.cpp): a points node from a
    list of location vectors. At the first entry that is not a vector the
    whole argument, read as one point, is appended after the points
    collected so far and the list ends there. A range passes the source's
    VectorValue casts: as the argument its terms are the entries, and as
    an entry it is a location. */
module PointsModule {
  import opened Wrappers
  import opened Values
  import opened Mesh
  import RV = RangeValue

  datatype PointsNode = PointsNode(points: seq<Point>)

  /** The position of the first entry that is not a vector, or the length
      when every entry is one. */
  function FirstNonVector(xs: seq<Value>): (k: nat)
    ensures k <= |xs|
    ensures forall i :: 0 <= i < k ==> RV.IsVector(xs[i])
    ensures k < |xs| ==> !RV.IsVector(xs[k])
  {
    if |xs| == 0 || !RV.IsVector(xs[0]) then 0 else 1 + FirstNonVector(xs[1..])
  }

  /** The loop of evaluate: a point per vector entry until the first other
      entry, where the fallback point is appended and the loop stops. */
  function Collect(xs: seq<Value>, whole: Point, point: seq<Value> -> Point): (ps: seq<Point>)
    ensures var k := FirstNonVector(xs);
      |ps| == (if k < |xs| then k + 1 else k)
      && (forall i :: 0 <= i < k ==> ps[i] == point(RV.Children(xs[i])))
      && (k < |xs| ==> ps[k] == whole)
  {
    if |xs| == 0 then []
    else if !RV.IsVector(xs[0]) then [whole]
    else [point(RV.Children(xs[0]))] + Collect(xs[1..], whole, point)
  }

  /** evaluate: nothing when the argument is not a vector; otherwise the
      collected points, the argument itself standing for the first entry
      that is not a location. */
  function Evaluate(ctx: Context): (n: PointsNode)
    ensures var pv := ctx.param(0); pv.None? || !RV.IsVector(pv.value) ==> n.points == []
    ensures var pv := ctx.param(0); pv.Some? && RV.IsVector(pv.value) ==>
      var xs := RV.Children(pv.value);
      var k := FirstNonVector(xs);
      |n.points| == (if k < |xs| then k + 1 else k)
      && (forall i :: 0 <= i < k ==> n.points[i] == ctx.point(RV.Children(xs[i])))
      && (k < |xs| ==> n.points[k] == ctx.point(xs))
  {
    var pv := ctx.param(0);
    if pv.None? || !RV.IsVector(pv.value) then PointsNode([])
    else
      var xs := RV.Children(pv.value);
      PointsNode(Collect(xs, ctx.point(xs), ctx.point))
  }

  /** A list of locations gives one point per location, in order. */
  lemma AllLocations(ctx: Context)
    requires ctx.param(0).Some? && RV.IsVector(ctx.param(0).value)
    requires var xs := RV.Children(ctx.param(0).value); forall i :: 0 <= i < |xs| ==> RV.IsVector(xs[i])
    ensures var xs := RV.Children(ctx.param(0).value);
      Evaluate(ctx).points == seq(|xs|, i requires 0 <= i < |xs| => ctx.point(RV.Children(xs[i])))
  {
  }

  /** A single location such as [1, 2, 3] has number entries: the first
      of them ends the loop and the argument itself becomes the one
      point. */
  lemma SingleLocation(ctx: Context, xs: seq<Value>)
    requires |xs| > 0 && xs[0].Number?
    requires ctx.param(0) == Some(Vector(xs))
    ensures Evaluate(ctx).points == [ctx.point(xs)]
  {
  }

  /** points([[0:2]]): the range entry is a location, read as the point of
      its terms 0, 1 and 2. */
  lemma RangeLocation(ctx: Context)
    requires ctx.param(0) == Some(Vector([Range(0.0, None, 2.0)]))
    ensures Evaluate(ctx).points == [ctx.point([Number(0.0), Number(1.0), Number(2.0)])]
  {
    RV.RangeChildren(0.0, None, 2.0);
    assert RV.Term(0.0, 1.0, 3) > 2.0;
    RV.ItemsUnique(0.0, None, 2.0, [Number(0.0), Number(1.0), Number(2.0)]);
  }
}
