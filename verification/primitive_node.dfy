/** A mesh primitive as built by the geometry modules
    (src/primitivenode.cpp): a list of polygons, each a list of points,
    and its OpenSCAD-style text form, where shared points are written once
    and the polygons refer to them by index. */
module PrimitiveNode {
  import opened Text
  import Pt = Point
  import Decimal

  type Point = Pt.Point

  type Polygon = seq<Point>

  datatype PrimitiveNode = PrimitiveNode(polygons: seq<Polygon>)

  /** createPolygon: one more, empty, polygon. */
  function CreatePolygon(n: PrimitiveNode): (r: PrimitiveNode)
    ensures |r.polygons| == |n.polygons| + 1 && r.polygons[..|n.polygons|] == n.polygons
    ensures r.polygons[|n.polygons|] == []
  {
    PrimitiveNode(n.polygons + [[]])
  }

  /** appendVertex: the point goes to the last polygon. The source calls
      QList::last, which needs a polygon to exist. */
  function AppendVertex(n: PrimitiveNode, p: Point): (r: PrimitiveNode)
    requires |n.polygons| > 0
    ensures |r.polygons| == |n.polygons|
    ensures forall i :: 0 <= i < |n.polygons| - 1 ==> r.polygons[i] == n.polygons[i]
    ensures r.polygons[|n.polygons| - 1] == n.polygons[|n.polygons| - 1] + [p]
  {
    var k := |n.polygons| - 1;
    PrimitiveNode(n.polygons[k := n.polygons[k] + [p]])
  }

  /** A polygon built by createPolygon and appendVertex calls holds the
      appended points in order, and the earlier polygons stay as they were. */
  lemma {:induction false} BuildPolygon(n: PrimitiveNode, ps: seq<Point>)
    ensures AppendAll(CreatePolygon(n), ps).polygons == n.polygons + [ps]
    decreases |ps|
  {
    if |ps| > 0 {
      var m := CreatePolygon(n);
      var init := ps[..|ps| - 1];
      BuildPolygon(n, init);
      assert ps == init + [ps[|ps| - 1]];
    }
  }

  /** Appends the points one by one to the last polygon. */
  function AppendAll(n: PrimitiveNode, ps: seq<Point>): (r: PrimitiveNode)
    requires |n.polygons| > 0
    ensures |r.polygons| == |n.polygons|
    decreases |ps|
  {
    if |ps| == 0 then n else AppendVertex(AppendAll(n, ps[..|ps| - 1]), ps[|ps| - 1])
  }

  /** Every vertex of every polygon, in order. */
  function Vertices(polys: seq<Polygon>): (vs: seq<Point>)
    ensures forall i, j :: 0 <= i < |polys| && 0 <= j < |polys[i]| ==> polys[i][j] in vs
  {
    if |polys| == 0 then [] else
      var rest := Vertices(polys[1..]);
      assert forall i :: 1 <= i < |polys| ==> polys[i] == polys[1..][i - 1];
      polys[0] + rest
  }

  /** The reference: each value at its first occurrence, in that order. */
  function FirstOccurrences(xs: seq<Point>): seq<Point>
  {
    if |xs| == 0 then []
    else
      var init := xs[..|xs| - 1];
      FirstOccurrences(init) + (if xs[|xs| - 1] in init then [] else [xs[|xs| - 1]])
  }

  predicate Distinct(xs: seq<Point>) {
    forall i, j :: 0 <= i < j < |xs| ==> xs[i] != xs[j]
  }

  lemma {:induction false} FirstOccurrencesFacts(xs: seq<Point>)
    ensures Distinct(FirstOccurrences(xs))
    ensures forall p :: p in FirstOccurrences(xs) <==> p in xs
  {
    if |xs| > 0 {
      var init := xs[..|xs| - 1];
      FirstOccurrencesFacts(init);
      assert xs == init + [xs[|xs| - 1]];
    }
  }

  /** The source loop: scan the points, appending each one the list does
      not yet contain. */
  function DedupFrom(acc: seq<Point>, xs: seq<Point>): seq<Point>
    decreases |xs|
  {
    if |xs| == 0 then acc
    else DedupFrom(if xs[0] in acc then acc else acc + [xs[0]], xs[1..])
  }

  /** The scan computes the first occurrences. */
  lemma {:induction false} DedupIsFirstOccurrences(ys: seq<Point>, xs: seq<Point>)
    ensures DedupFrom(FirstOccurrences(ys), xs) == FirstOccurrences(ys + xs)
    decreases |xs|
  {
    if |xs| == 0 {
      assert ys + xs == ys;
    } else {
      var x := xs[0];
      FirstOccurrencesFacts(ys);
      assert (ys + [x])[..|ys|] == ys;
      var fo := FirstOccurrences(ys);
      assert FirstOccurrences(ys + [x]) == fo + (if x in ys then [] else [x]);
      assert (x in fo) == (x in ys);
      var next := if x in fo then fo else fo + [x];
      assert next == FirstOccurrences(ys + [x]) by {
        if x in ys {
          assert fo + [] == fo;
        }
      }
      assert DedupFrom(fo, xs) == DedupFrom(next, xs[1..]);
      DedupIsFirstOccurrences(ys + [x], xs[1..]);
      assert ys + [x] + xs[1..] == ys + xs;
    }
  }

  /** The point list of toString: every vertex once, in first-occurrence
      order. */
  function PointList(polys: seq<Polygon>): (pts: seq<Point>)
    ensures pts == FirstOccurrences(Vertices(polys))
    ensures Distinct(pts)
    ensures forall p :: p in pts <==> p in Vertices(polys)
  {
    DedupIsFirstOccurrences([], Vertices(polys));
    assert [] + Vertices(polys) == Vertices(polys);
    FirstOccurrencesFacts(Vertices(polys));
    DedupFrom([], Vertices(polys))
  }

  /** QVector::indexOf: the first position holding the point, or -1. */
  function IndexOf(pts: seq<Point>, p: Point): (i: int)
    ensures -1 <= i < |pts|
    ensures i == -1 <==> p !in pts
    ensures i >= 0 ==> pts[i] == p && p !in pts[..i]
  {
    if |pts| == 0 then -1
    else if pts[0] == p then 0
    else
      var k := IndexOf(pts[1..], p);
      assert k >= 0 ==> pts[..k + 1] == [pts[0]] + pts[1..][..k];
      if k == -1 then -1 else k + 1
  }

  /** The indices printed for one polygon. */
  function IndexList(pts: seq<Point>, pg: Polygon): (ix: seq<int>)
    ensures |ix| == |pg| && forall j :: 0 <= j < |pg| ==> ix[j] == IndexOf(pts, pg[j])
  {
    if |pg| == 0 then [] else [IndexOf(pts, pg[0])] + IndexList(pts, pg[1..])
  }

  function IndexLists(pts: seq<Point>, polys: seq<Polygon>): (ixs: seq<seq<int>>)
    ensures |ixs| == |polys| && forall i :: 0 <= i < |polys| ==> ixs[i] == IndexList(pts, polys[i])
  {
    if |polys| == 0 then [] else [IndexList(pts, polys[0])] + IndexLists(pts, polys[1..])
  }

  /** Reading the indices back through the point list. */
  function Lookup(pts: seq<Point>, ix: seq<int>): seq<Point>
    requires forall j :: 0 <= j < |ix| ==> 0 <= ix[j] < |pts|
  {
    seq(|ix|, j requires 0 <= j < |ix| => pts[ix[j]])
  }

  /** The index form is faithful: there is one index list per polygon,
      as long as the polygon, and every index names the polygon's vertex
      in the point list, so the polygons can be rebuilt from the text. */
  lemma IndexRoundTrip(polys: seq<Polygon>)
    ensures var pts := PointList(polys);
      var ixs := IndexLists(pts, polys);
      |ixs| == |polys|
      && (forall i :: 0 <= i < |polys| ==> |ixs[i]| == |polys[i]|)
      && (forall i, j :: 0 <= i < |polys| && 0 <= j < |polys[i]| ==> 0 <= ixs[i][j] < |pts|)
      && (forall i :: 0 <= i < |polys| ==> Lookup(pts, ixs[i]) == polys[i])
  {
    var pts := PointList(polys);
    var ixs := IndexLists(pts, polys);
    forall i | 0 <= i < |polys| ensures Lookup(pts, ixs[i]) == polys[i] {
      forall j | 0 <= j < |polys[i]| ensures pts[ixs[i][j]] == polys[i][j] {
        assert polys[i][j] in Vertices(polys);
      }
    }
  }

  /** The printed form of one index list: "[i,j,...]". */
  function IndexListText(ix: seq<int>): string
  {
    "[" + FlaggedLoop(IntTexts(ix), ",", true) + "]"
  }

  function IntTexts(ix: seq<int>): (ts: seq<string>)
    ensures |ts| == |ix| && forall i :: 0 <= i < |ix| ==> ts[i] == IntToString(ix[i])
  {
    if |ix| == 0 then [] else [IntToString(ix[0])] + IntTexts(ix[1..])
  }

  function PointTexts(fixed: Decimal.Fixed, pts: seq<Point>): (ts: seq<string>)
    ensures |ts| == |pts| && forall i :: 0 <= i < |pts| ==> ts[i] == Pt.ToString(fixed, pts[i])
  {
    if |pts| == 0 then [] else [Pt.ToString(fixed, pts[0])] + PointTexts(fixed, pts[1..])
  }

  function IndexListTexts(ixs: seq<seq<int>>): (ts: seq<string>)
    ensures |ts| == |ixs| && forall i :: 0 <= i < |ixs| ==> ts[i] == IndexListText(ixs[i])
  {
    if |ixs| == 0 then [] else [IndexListText(ixs[0])] + IndexListTexts(ixs[1..])
  }

  /** toString: "polyhedron([p,...],[[i,...],...]);" with the comma written
      only between neighbours. */
  function ToString(n: PrimitiveNode, fixed: Decimal.Fixed): (s: string)
    ensures var pts := PointList(n.polygons);
      s == PolyhedronText(PointTexts(fixed, pts), IndexListTexts(IndexLists(pts, n.polygons)))
  {
    var pts := PointList(n.polygons);
    var ixs := IndexLists(pts, n.polygons);
    SeparatedLoopIsJoin(PointTexts(fixed, pts), ",");
    SeparatedLoopIsJoin(IndexListTexts(ixs), ",");
    "polyhedron([" + FlaggedLoop(PointTexts(fixed, pts), ",", true) + "],["
    + FlaggedLoop(IndexListTexts(ixs), ",", true) + "]);"
  }

  /** The reference layout: the points comma-joined, then the index
      lists comma-joined. */
  function PolyhedronText(pointTexts: seq<string>, indexTexts: seq<string>): string
  {
    "polyhedron([" + Join(pointTexts, ",") + "],[" + Join(indexTexts, ",") + "]);"
  }

  /** Each index list is its indices comma-joined in brackets. */
  lemma IndexListTextIsJoin(ix: seq<int>)
    ensures IndexListText(ix) == "[" + Join(IntTexts(ix), ",") + "]"
  {
    SeparatedLoopIsJoin(IntTexts(ix), ",");
  }
}
