/** The polygon module (src/module/polygonmodule.cpp): vertices from the
    vector entries of the points list, and polygons from the lines list,
    keeping only the numeric indices that pass a range check. The range
    check counts every entry of the points list, vector or not, so an
    index can pass it and still name no vertex; Evaluate bounds the
    indices by the vertices actually created, EvaluateAsWritten by the
    entries, as the source does. A range passes the source's VectorValue
    casts, so a range of points, of lines or of indices is read through
    its terms. */
module PolygonModule {
  import opened Wrappers
  import opened Values
  import opened Mesh
  import RV = RangeValue

  datatype PolygonNode<C> = PolygonNode(shape: Primitive, children: seq<C>)

  /** What the index range check counts. */
  datatype IndexBound = EntryCount | VertexCount

  /** The number of vector entries. */
  function VectorCount(xs: seq<Value>): (n: nat)
    ensures n <= |xs|
    ensures (forall i :: 0 <= i < |xs| ==> RV.IsVector(xs[i])) ==> n == |xs|
  {
    if |xs| == 0 then 0 else (if RV.IsVector(xs[0]) then 1 else 0) + VectorCount(xs[1..])
  }

  /** One vertex per vector entry, in order; other entries are skipped. */
  function Vertices(xs: seq<Value>, point: seq<Value> -> Point): (vs: seq<Point>)
    ensures |vs| == VectorCount(xs)
    ensures forall i :: 0 <= i < |xs| && RV.IsVector(xs[i]) ==> point(RV.Children(xs[i])) in vs
    ensures forall p :: p in vs ==> exists i :: 0 <= i < |xs| && RV.IsVector(xs[i]) && p == point(RV.Children(xs[i]))
  {
    if |xs| == 0 then []
    else
      var rest := Vertices(xs[1..], point);
      assert forall i :: 1 <= i < |xs| ==> xs[i] == xs[1..][i - 1];
      (if RV.IsVector(xs[0]) then [point(RV.Children(xs[0]))] else []) + rest
  }

  /** Whether an entry of an index list passes the filter. */
  predicate Kept(v: Value, bound: int, toInteger: real -> int) {
    v.Number? && 0 <= toInteger(v.n) < bound
  }

  /** The number of entries of an index list that pass the filter. */
  function KeptCount(line: seq<Value>, bound: int, toInteger: real -> int): (n: nat)
    ensures n <= |line|
  {
    if |line| == 0 then 0
    else (if Kept(line[0], bound, toInteger) then 1 else 0) + KeptCount(line[1..], bound, toInteger)
  }

  /** Whether an entry of an index list is kept, and as which index. */
  predicate Keeps(v: Value, k: int, bound: int, toInteger: real -> int) {
    v.Number? && toInteger(v.n) == k && 0 <= k < bound
  }

  /** The index filter: the numeric entries whose integer value lies in
      [0, bound), in order. */
  function Indices(line: seq<Value>, bound: int, toInteger: real -> int): (ix: seq<int>)
    ensures |ix| == KeptCount(line, bound, toInteger)
    ensures forall j :: 0 <= j < |ix| ==> 0 <= ix[j] < bound
    ensures forall k :: k in ix <==> exists v :: v in line && Keeps(v, k, bound, toInteger)
  {
    if |line| == 0 then []
    else
      var rest := Indices(line[1..], bound, toInteger);
      var v := line[0];
      assert forall w :: w in line <==> w == v || w in line[1..];
      if Kept(v, bound, toInteger) then
        assert Keeps(v, toInteger(v.n), bound, toInteger);
        [toInteger(v.n)] + rest
      else
        assert forall k :: !Keeps(v, k, bound, toInteger);
        rest
  }

  /** A vector entry gives the vertex at its rank: the number of vector
      entries before it. */
  lemma {:induction false} VerticesRanks(xs: seq<Value>, point: seq<Value> -> Point, i: int)
    requires 0 <= i < |xs| && RV.IsVector(xs[i])
    ensures VectorCount(xs[..i]) < |Vertices(xs, point)|
    ensures Vertices(xs, point)[VectorCount(xs[..i])] == point(RV.Children(xs[i]))
  {
    if i > 0 {
      VerticesRanks(xs[1..], point, i - 1);
      assert xs[..i][1..] == xs[1..][..i - 1];
    } else {
      assert xs[..i] == [];
    }
  }

  /** A kept entry of an index list lands at its rank: the number of kept
      entries before it. */
  lemma {:induction false} IndicesRanks(line: seq<Value>, bound: int, toInteger: real -> int, j: int)
    requires 0 <= j < |line| && Kept(line[j], bound, toInteger)
    ensures KeptCount(line[..j], bound, toInteger) < |Indices(line, bound, toInteger)|
    ensures Indices(line, bound, toInteger)[KeptCount(line[..j], bound, toInteger)] == toInteger(line[j].n)
  {
    if j > 0 {
      IndicesRanks(line[1..], bound, toInteger, j - 1);
      assert line[..j][1..] == line[1..][..j - 1];
    } else {
      assert line[..j] == [];
    }
  }

  lemma {:induction false} VectorCountAppend(a: seq<Value>, b: seq<Value>)
    ensures VectorCount(a + b) == VectorCount(a) + VectorCount(b)
  {
    if |a| > 0 {
      VectorCountAppend(a[1..], b);
      assert (a + b)[1..] == a[1..] + b;
    } else {
      assert a + b == b;
    }
  }

  lemma {:induction false} KeptCountAppend(a: seq<Value>, b: seq<Value>, bound: int, toInteger: real -> int)
    ensures KeptCount(a + b, bound, toInteger) == KeptCount(a, bound, toInteger) + KeptCount(b, bound, toInteger)
  {
    if |a| > 0 {
      KeptCountAppend(a[1..], b, bound, toInteger);
      assert (a + b)[1..] == a[1..] + b;
    } else {
      assert a + b == b;
    }
  }

  /** Ranks of vector entries strictly increase, so distinct entries take
      distinct places: with the length, the ranks fix the whole result. */
  lemma VectorRanksIncrease(xs: seq<Value>, i: int, k: int)
    requires 0 <= i < k <= |xs| && RV.IsVector(xs[i])
    ensures VectorCount(xs[..i]) < VectorCount(xs[..k])
  {
    assert xs[..k] == xs[..i] + ([xs[i]] + xs[i + 1..k]);
    VectorCountAppend(xs[..i], [xs[i]] + xs[i + 1..k]);
    assert ([xs[i]] + xs[i + 1..k])[1..] == xs[i + 1..k];
  }

  /** Ranks of kept index entries strictly increase. */
  lemma KeptRanksIncrease(line: seq<Value>, bound: int, toInteger: real -> int, j: int, k: int)
    requires 0 <= j < k <= |line| && Kept(line[j], bound, toInteger)
    ensures KeptCount(line[..j], bound, toInteger) < KeptCount(line[..k], bound, toInteger)
  {
    assert line[..k] == line[..j] + ([line[j]] + line[j + 1..k]);
    KeptCountAppend(line[..j], [line[j]] + line[j + 1..k], bound, toInteger);
    assert ([line[j]] + line[j + 1..k])[1..] == line[j + 1..k];
  }

  /** The indices 0 .. n - 1. */
  function Range(n: int): (ix: seq<int>)
    ensures |ix| == if n > 0 then n else 0
    ensures forall j :: 0 <= j < |ix| ==> ix[j] == j
  {
    if n <= 0 then [] else seq(n, j requires 0 <= j < n => j)
  }

  /** A flat lines list, whose first entry is not a vector, stands for a
      single line. */
  function NormalLines(lines: seq<Value>): (ls: seq<Value>)
    ensures |lines| > 0 && !RV.IsVector(lines[0]) ==> ls == [Vector(lines)]
    ensures |lines| == 0 || RV.IsVector(lines[0]) ==> ls == lines
  {
    if |lines| > 0 && !RV.IsVector(lines[0]) then [Vector(lines)] else lines
  }

  /** One polygon per vector line, each filtered; other lines are skipped. */
  function Polygons(lines: seq<Value>, bound: int, toInteger: real -> int): (ps: seq<seq<int>>)
    ensures |ps| == VectorCount(lines)
    ensures forall i, j :: 0 <= i < |ps| && 0 <= j < |ps[i]| ==> 0 <= ps[i][j] < bound
  {
    if |lines| == 0 then []
    else
      var rest := Polygons(lines[1..], bound, toInteger);
      if RV.IsVector(lines[0]) then
        var first := Indices(RV.Children(lines[0]), bound, toInteger);
        assert forall i :: 1 <= i < |rest| + 1 ==> ([first] + rest)[i] == rest[i - 1];
        [first] + rest
      else rest
  }

  /** A vector line gives the polygon at its rank: the number of vector
      lines before it. */
  lemma {:induction false} PolygonsRanks(lines: seq<Value>, bound: int, toInteger: real -> int, i: int)
    requires 0 <= i < |lines| && RV.IsVector(lines[i])
    ensures VectorCount(lines[..i]) < |Polygons(lines, bound, toInteger)|
    ensures Polygons(lines, bound, toInteger)[VectorCount(lines[..i])] == Indices(RV.Children(lines[i]), bound, toInteger)
  {
    if i > 0 {
      PolygonsRanks(lines[1..], bound, toInteger, i - 1);
      assert lines[..i][1..] == lines[1..][..i - 1];
    } else {
      assert lines[..i] == [];
    }
  }

  /** evaluate, with the index bound as a parameter: nothing without a
      non-empty points vector; with no lines, one polygon over the first
      n indices; otherwise the filtered lines. */
  function Build<C>(ctx: Context, toInteger: real -> int, children: seq<C>, bound: IndexBound): (node: PolygonNode<C>)
    ensures node.children == children
  {
    var pointsVal := ctx.param(0);
    var linesVal := ctx.arg(1, "lines");
    if pointsVal.None? || !RV.IsVector(pointsVal.value) || |RV.Children(pointsVal.value)| == 0 then
      PolygonNode(Primitive([], []), children)
    else
      var points := RV.Children(pointsVal.value);
      var vs := Vertices(points, ctx.point);
      var n := if bound == EntryCount then |points| else |vs|;
      if linesVal.None? || !RV.IsVector(linesVal.value) then
        PolygonNode(Primitive(vs, [Range(n)]), children)
      else
        PolygonNode(Primitive(vs, Polygons(NormalLines(RV.Children(linesVal.value)), n, toInteger)), children)
  }

  /** The source's evaluate: indices are checked against the number of
      entries of the points list. AllVectorsAgree and StrayIndex state
      when that matters. */
  function EvaluateAsWritten<C>(ctx: Context, toInteger: real -> int, children: seq<C>): (node: PolygonNode<C>)
    ensures node == Build(ctx, toInteger, children, EntryCount)
    ensures var pv := ctx.param(0);
      pv.Some? && RV.IsVector(pv.value) ==>
      forall i, j :: 0 <= i < |node.shape.polygons| && 0 <= j < |node.shape.polygons[i]| ==>
        0 <= node.shape.polygons[i][j] < |RV.Children(pv.value)|
  {
    Build(ctx, toInteger, children, EntryCount)
  }

  /** evaluate with the indices checked against the vertices created:
      every index of every polygon names a vertex. */
  function Evaluate<C>(ctx: Context, toInteger: real -> int, children: seq<C>): (node: PolygonNode<C>)
    ensures node.children == children
    ensures WellIndexed(node.shape)
    ensures var pv := ctx.param(0);
      pv.None? || !RV.IsVector(pv.value) || |RV.Children(pv.value)| == 0 ==> node.shape == Primitive([], [])
    ensures var pv := ctx.param(0);
      pv.Some? && RV.IsVector(pv.value) ==> node.shape.vertices == Vertices(RV.Children(pv.value), ctx.point)
    ensures var pv := ctx.param(0); var lv := ctx.arg(1, "lines");
      pv.Some? && RV.IsVector(pv.value) && |RV.Children(pv.value)| > 0 ==>
      var n := |node.shape.vertices|;
      node.shape.polygons ==
        if lv.None? || !RV.IsVector(lv.value) then [Range(n)]
        else Polygons(NormalLines(RV.Children(lv.value)), n, toInteger)
  {
    Build(ctx, toInteger, children, VertexCount)
  }

  /** When every entry of the points list is a vector the two bounds
      agree, and the source's result is well indexed too. */
  lemma AllVectorsAgree<C>(ctx: Context, toInteger: real -> int, children: seq<C>)
    requires ctx.param(0).Some? && RV.IsVector(ctx.param(0).value)
    requires var xs := RV.Children(ctx.param(0).value); forall i :: 0 <= i < |xs| ==> RV.IsVector(xs[i])
    ensures EvaluateAsWritten(ctx, toInteger, children) == Evaluate(ctx, toInteger, children)
  {
  }

  /** The points [[...], 5, [...]] with no lines give two vertices but the
      polygon [0, 1, 2], whose last index names no vertex. */
  lemma StrayIndex<C>(ctx: Context, toInteger: real -> int, children: seq<C>, a: seq<Value>, b: seq<Value>)
    requires ctx.param(0) == Some(Vector([Vector(a), Number(5.0), Vector(b)]))
    requires ctx.arg(1, "lines").None?
    ensures var s := EvaluateAsWritten(ctx, toInteger, children).shape;
      |s.vertices| == 2 && s.polygons == [[0, 1, 2]] && !WellIndexed(s)
  {
    var xs := [Vector(a), Number(5.0), Vector(b)];
    assert xs[1..] == [Number(5.0), Vector(b)] && xs[1..][1..] == [Vector(b)];
    assert VectorCount(xs) == 2;
    assert Range(3) == [0, 1, 2];
    var s := EvaluateAsWritten(ctx, toInteger, children).shape;
    assert s.polygons[0][2] == 2;
  }

  /** polygon(points = four vectors, lines = [0:2]): the range's terms are
      numbers, so it stands for the single line [0, 1, 2]. */
  lemma RangeLine<C>(ctx: Context, toInteger: real -> int, children: seq<C>, p: seq<Value>)
    requires |p| == 4 && forall i :: 0 <= i < 4 ==> p[i].Vector?
    requires ctx.param(0) == Some(Vector(p))
    requires ctx.arg(1, "lines") == Some(Value.Range(0.0, None, 2.0))
    requires toInteger(0.0) == 0 && toInteger(1.0) == 1 && toInteger(2.0) == 2
    ensures Evaluate(ctx, toInteger, children).shape.polygons == [[0, 1, 2]]
  {
    var ls := [Number(0.0), Number(1.0), Number(2.0)];
    RV.RangeChildren(0.0, None, 2.0);
    assert RV.Term(0.0, 1.0, 3) > 2.0;
    RV.ItemsUnique(0.0, None, 2.0, ls);
    assert p[1..][1..][1..][1..] == [];
    assert VectorCount(p) == 4;
    assert NormalLines(ls) == [Vector(ls)];
    assert ls[1..] == [Number(1.0), Number(2.0)] && ls[1..][1..] == [Number(2.0)];
    assert Indices(ls, 4, toInteger) == [0, 1, 2];
    assert [Vector(ls)][1..] == [];
  }
}
