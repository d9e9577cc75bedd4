/** The scale module (gui/src/module/scalemodule.cpp): a transformation
    node scaling its children by the size vector, about a reference point
    when one is given, or a single-point node when a factor is zero. The
    source's reference translation column is a * x - a, which keeps the
    point -r in place rather than r; EvaluateAsWritten models that, and
    Evaluate uses a - a * x, which keeps the reference point in place. The
    reference argument is read through the VectorValue cast, which a range
    passes too. */
module Scale {
  import opened Wrappers
  import opened Values
  import opened Mesh
  import RV = RangeValue
  import Pt = Point
  import TM = TransformMatrix

  datatype ScaleNode<C> =
    | SinglePoint(children: seq<C>, visibleChildren: bool)
    | Transformation(matrix: TM.TransformMatrix, uniform: bool, children: seq<C>)

  /** The size: (1, 1, 1) by default, otherwise the argument as a
      three-element vector read as a point. */
  function Size(ctx: Context): (s: Point)
    ensures ctx.param(0).None? ==> s == Pt.Point(1.0, 1.0, 1.0)
    ensures ctx.param(0).Some? ==> s == ctx.point(ctx.toVector(ctx.param(0).value, 3))
  {
    var v := ctx.param(0);
    if v.Some? then ctx.point(ctx.toVector(v.value, 3)) else Pt.Point(1.0, 1.0, 1.0)
  }

  /** A size argument of any kind, a range among them, goes through
      toVector(3): scale([1:3]) scales by the point of toVector([1:3], 3). */
  lemma RangeSize(ctx: Context)
    requires ctx.param(0) == Some(Range(1.0, None, 3.0))
    ensures Size(ctx) == ctx.point(ctx.toVector(Range(1.0, None, 3.0), 3))
  {
  }

  /** The reference point: the point of the second argument's children
      when it passes the VectorValue cast, and none otherwise. */
  function Reference(ctx: Context): (r: Option<Point>)
    ensures r.Some? <==> ctx.param(1).Some? && RV.IsVector(ctx.param(1).value)
    ensures r.Some? ==> r.value == ctx.point(RV.Children(ctx.param(1).value))
  {
    var v := ctx.param(1);
    if v.Some? && RV.IsVector(v.value) then Some(ctx.point(RV.Children(v.value))) else None
  }

  predicate Degenerate(s: Point) {
    s.x == 0.0 || s.y == 0.0 || s.z == 0.0
  }

  /** Row r of an affine matrix applied to (x, y, z, 1). */
  function RowImage(a: real, b: real, c: real, d: real, p: Point): real {
    a * p.x + b * p.y + c * p.z + d
  }

  /** The image of a point under an affine matrix: the upper three rows
      applied to (x, y, z, 1). */
  function Apply(m: TM.TransformMatrix, p: Point): Point
  {
    var e := m.matrix;
    Pt.Point(RowImage(e[0], e[1], e[2], e[3], p),
             RowImage(e[4], e[5], e[6], e[7], p),
             RowImage(e[8], e[9], e[10], e[11], p))
  }

  /** The diagonal matrix with translation column t. */
  function Scaling(s: Point, t: Point): (m: TM.TransformMatrix)
    ensures TM.Row(m, 0) == [s.x, 0.0, 0.0, t.x]
    ensures TM.Row(m, 1) == [0.0, s.y, 0.0, t.y]
    ensures TM.Row(m, 2) == [0.0, 0.0, s.z, t.z]
    ensures TM.Row(m, 3) == [0.0, 0.0, 0.0, 1.0]
  {
    TM.FromEntries(s.x, 0.0, 0.0, t.x,
                   0.0, s.y, 0.0, t.y,
                   0.0, 0.0, s.z, t.z,
                   0.0, 0.0, 0.0, 1.0)
  }

  lemma RowX(k: real, d: real, p: Point)
    ensures RowImage(k, 0.0, 0.0, d, p) == k * p.x + d
  {
  }

  lemma RowY(k: real, d: real, p: Point)
    ensures RowImage(0.0, k, 0.0, d, p) == k * p.y + d
  {
  }

  lemma RowZ(k: real, d: real, p: Point)
    ensures RowImage(0.0, 0.0, k, d, p) == k * p.z + d
  {
  }

  /** A diagonal matrix with a translation column multiplies each
      coordinate by its factor and adds the translation. */
  lemma ApplyScaling(s: Point, t: Point, p: Point)
    ensures Apply(Scaling(s, t), p) == Pt.Point(s.x * p.x + t.x, s.y * p.y + t.y, s.z * p.z + t.z)
  {
    var m := Scaling(s, t);
    assert TM.Row(m, 0)[0] == m.matrix[0] && TM.Row(m, 0)[1] == m.matrix[1];
    assert TM.Row(m, 0)[2] == m.matrix[2] && TM.Row(m, 0)[3] == m.matrix[3];
    assert TM.Row(m, 1)[0] == m.matrix[4] && TM.Row(m, 1)[1] == m.matrix[5];
    assert TM.Row(m, 1)[2] == m.matrix[6] && TM.Row(m, 1)[3] == m.matrix[7];
    assert TM.Row(m, 2)[0] == m.matrix[8] && TM.Row(m, 2)[1] == m.matrix[9];
    assert TM.Row(m, 2)[2] == m.matrix[10] && TM.Row(m, 2)[3] == m.matrix[11];
    RowX(s.x, t.x, p);
    RowY(s.y, t.y, p);
    RowZ(s.z, t.z, p);
  }

  /** The translation column, as the source writes it and as intended. */
  function ColumnAsWritten(s: Point, r: Point): Point {
    Pt.Point(r.x * s.x - r.x, r.y * s.y - r.y, r.z * s.z - r.z)
  }

  function Column(s: Point, r: Point): Point {
    Pt.Point(r.x - r.x * s.x, r.y - r.y * s.y, r.z - r.z * s.z)
  }

  /** evaluate, with the translation column as a parameter. */
  function Build<C>(ctx: Context, children: seq<C>, column: (Point, Point) -> Point): (n: ScaleNode<C>)
    ensures n.children == children
    ensures Degenerate(Size(ctx)) <==> n.SinglePoint?
    ensures n.SinglePoint? ==> !n.visibleChildren
    ensures n.Transformation? && Reference(ctx).Some? ==>
      n.matrix == Scaling(Size(ctx), column(Size(ctx), Reference(ctx).value)) && !n.uniform
  {
    var s := Size(ctx);
    if Degenerate(s) then SinglePoint(children, false)
    else
      var refVal := Reference(ctx);
      if refVal.Some? then
        Transformation(Scaling(s, column(s, refVal.value)), false, children)
      else
        Transformation(Scaling(s, Pt.Point(0.0, 0.0, 0.0)), s.x == s.y && s.y == s.z, children)
  }

  /** The source's evaluate. AsWrittenKeepsNegated and MovesReference
      state what its translation column does. */
  function EvaluateAsWritten<C>(ctx: Context, children: seq<C>): (n: ScaleNode<C>)
    ensures n == Build(ctx, children, ColumnAsWritten)
  {
    Build(ctx, children, ColumnAsWritten)
  }

  /** evaluate with the reference point kept in place. */
  function Evaluate<C>(ctx: Context, children: seq<C>): (n: ScaleNode<C>)
    ensures n.children == children
    ensures Degenerate(Size(ctx)) <==> n.SinglePoint?
    ensures n.SinglePoint? ==> !n.visibleChildren
    ensures n.Transformation? && Reference(ctx).None? ==>
      var s := Size(ctx);
      (n.uniform <==> s.x == s.y && s.y == s.z) && n.matrix == Scaling(s, Pt.Point(0.0, 0.0, 0.0))
    ensures n.Transformation? && Reference(ctx).Some? ==>
      !n.uniform && n.matrix == Scaling(Size(ctx), Column(Size(ctx), Reference(ctx).value))
  {
    Build(ctx, children, Column)
  }

  /** With no translation the matrix multiplies each coordinate by its
      factor; with equal factors, it multiplies the point by one number. */
  lemma Diagonal(s: Point, p: Point)
    ensures Apply(Scaling(s, Pt.Point(0.0, 0.0, 0.0)), p) == Pt.Point(s.x * p.x, s.y * p.y, s.z * p.z)
    ensures s.x == s.y == s.z ==> Apply(Scaling(s, Pt.Point(0.0, 0.0, 0.0)), p) == Pt.Point(s.x * p.x, s.x * p.y, s.x * p.z)
  {
    ApplyScaling(s, Pt.Point(0.0, 0.0, 0.0), p);
  }

  /** One axis of scaling about a: a is kept and distances from it are
      multiplied by k. */
  lemma AxisAbout(k: real, a: real, v: real)
    ensures k * v + (a - a * k) - a == k * (v - a)
  {
  }

  /** The intended property: scaling about the reference point keeps it in
      place and multiplies every offset from it by the size. */
  lemma ScalesAboutReference(s: Point, r: Point, p: Point)
    ensures Apply(Scaling(s, Column(s, r)), r) == r
    ensures var q := Apply(Scaling(s, Column(s, r)), p);
      q.x - r.x == s.x * (p.x - r.x) && q.y - r.y == s.y * (p.y - r.y) && q.z - r.z == s.z * (p.z - r.z)
  {
    ApplyScaling(s, Column(s, r), p);
    ApplyScaling(s, Column(s, r), r);
    AxisAbout(s.x, r.x, p.x);
    AxisAbout(s.y, r.y, p.y);
    AxisAbout(s.z, r.z, p.z);
    AxisAbout(s.x, r.x, r.x);
    AxisAbout(s.y, r.y, r.y);
    AxisAbout(s.z, r.z, r.z);
  }

  /** The source's column keeps -r in place instead. */
  lemma AsWrittenKeepsNegated(s: Point, r: Point)
    ensures var m := Pt.Point(-r.x, -r.y, -r.z);
      Apply(Scaling(s, ColumnAsWritten(s, r)), m) == m
  {
    ApplyScaling(s, ColumnAsWritten(s, r), Pt.Point(-r.x, -r.y, -r.z));
    AxisAbout(s.x, -r.x, -r.x);
    AxisAbout(s.y, -r.y, -r.y);
    AxisAbout(s.z, -r.z, -r.z);
  }

  /** scale([2, 2, 2], [1, 0, 0]) as written sends the reference point
      (1, 0, 0) to (3, 0, 0). */
  lemma MovesReference(s: Point, r: Point)
    requires s == Pt.Point(2.0, 2.0, 2.0) && r == Pt.Point(1.0, 0.0, 0.0)
    ensures Apply(Scaling(s, ColumnAsWritten(s, r)), r) == Pt.Point(3.0, 0.0, 0.0)
  {
    var t := ColumnAsWritten(s, r);
    assert t == Pt.Point(1.0, 0.0, 0.0);
    ApplyScaling(s, t, r);
  }
}
