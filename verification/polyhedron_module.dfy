/** The polyhedron module (src/module/polyhedronmodule.cpp): vertices from
    the vector entries of the points list and one polygon per surface,
    keeping the numeric indices, truncated to int, that pass a range
    check. As in the polygon module, the range check counts every entry of
    the points list, so an index can pass it and name no vertex; Evaluate
    bounds the indices by the vertices created, EvaluateAsWritten as the
    source does. A surface that is not a vector is dereferenced through an
    unchecked cast in the source; here it is a Failure. A range passes
    the source's VectorValue casts and is read through its terms. */
module PolyhedronModule {
  import opened Wrappers
  import opened Values
  import opened Mesh
  import PM = PolygonModule
  import RV = RangeValue

  /** One filtered index list per surface; fails at the first surface that
      is not a vector. */
  function Surfaces(ss: seq<Value>, bound: int): (r: Result<seq<seq<int>>, string>)
    ensures r.Success? <==> forall i :: 0 <= i < |ss| ==> RV.IsVector(ss[i])
    ensures r.Success? ==> |r.value| == |ss|
    ensures r.Success? ==> forall i :: 0 <= i < |ss| ==> r.value[i] == PM.Indices(RV.Children(ss[i]), bound, Truncate)
  {
    if |ss| == 0 then Success([])
    else if !RV.IsVector(ss[0]) then Failure("surface is not a vector")
    else
      var rest := Surfaces(ss[1..], bound);
      assert forall i :: 1 <= i < |ss| ==> ss[i] == ss[1..][i - 1];
      if rest.Failure? then rest
      else Success([PM.Indices(RV.Children(ss[0]), bound, Truncate)] + rest.value)
  }

  /** evaluate, with the index bound as a parameter. */
  function Build(ctx: Context, bound: PM.IndexBound): (r: Result<Primitive, string>)
  {
    var pointsVal := ctx.param(0);
    var surfacesVal := ctx.arg(1, "surfaces");
    if !Given(pointsVal) || !Given(surfacesVal) then
      Success(Primitive([], []))
    else
      var points := RV.Children(pointsVal.value);
      var vs := PM.Vertices(points, ctx.point);
      var n := if bound == PM.EntryCount then |points| else |vs|;
      var polys :- Surfaces(RV.Children(surfacesVal.value), n);
      Success(Primitive(vs, polys))
  }

  /** The source's evaluate: indices are checked against the number of
      entries of the points list. StrayIndex shows an index that passes
      and names no vertex. */
  function EvaluateAsWritten(ctx: Context): (r: Result<Primitive, string>)
    ensures r == Build(ctx, PM.EntryCount)
    ensures var pv := ctx.param(0);
      r.Success? && Given(pv) ==>
      forall i, j :: 0 <= i < |r.value.polygons| && 0 <= j < |r.value.polygons[i]| ==>
        0 <= r.value.polygons[i][j] < |RV.Children(pv.value)|
  {
    Build(ctx, PM.EntryCount)
  }

  /** An argument that passes the VectorValue cast. */
  predicate Given(v: Option<Value>) {
    v.Some? && RV.IsVector(v.value)
  }

  /** evaluate with the indices checked against the vertices created: a
      missing argument gives an empty primitive; otherwise one vertex per
      vector point and one polygon per surface, every index naming a
      vertex, or a Failure when a surface is not a vector. */
  function Evaluate(ctx: Context): (r: Result<Primitive, string>)
    ensures !Given(ctx.param(0)) || !Given(ctx.arg(1, "surfaces")) ==> r == Success(Primitive([], []))
    ensures Given(ctx.param(0)) && Given(ctx.arg(1, "surfaces")) ==>
      var ss := RV.Children(ctx.arg(1, "surfaces").value);
      (r.Success? <==> forall i :: 0 <= i < |ss| ==> RV.IsVector(ss[i]))
      && (r.Success? ==> r.value.vertices == PM.Vertices(RV.Children(ctx.param(0).value), ctx.point)
                         && |r.value.polygons| == |ss|
                         && r.value.polygons == Surfaces(ss, |r.value.vertices|).value)
    ensures r.Success? ==> WellIndexed(r.value)
  {
    Build(ctx, PM.VertexCount)
  }

  /** The points [[...], 5, [...]] and the surface [2] give two vertices
      and the polygon [2], which names no vertex. */
  lemma StrayIndex(ctx: Context, a: seq<Value>, b: seq<Value>)
    requires ctx.param(0) == Some(Vector([Vector(a), Number(5.0), Vector(b)]))
    requires ctx.arg(1, "surfaces") == Some(Vector([Vector([Number(2.0)])]))
    ensures var r := EvaluateAsWritten(ctx);
      r.Success? && |r.value.vertices| == 2 && r.value.polygons == [[2]] && !WellIndexed(r.value)
  {
    var xs := [Vector(a), Number(5.0), Vector(b)];
    assert xs[1..] == [Number(5.0), Vector(b)] && xs[1..][1..] == [Vector(b)];
    assert PM.VectorCount(xs) == 2;
    var line := [Number(2.0)];
    assert Truncate(2.0) == 2;
    assert PM.Indices(line, 3, Truncate) == [2];
    var r := EvaluateAsWritten(ctx);
    assert r.value.polygons[0][0] == 2;
  }
}
