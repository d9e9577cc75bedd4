/** The cuboid every box-shaped primitive is built from
    (src/module/cubemodule.h, createCuboid): eight corners and six quads,
    or a single quad when the box is flat in one direction. */
module Cube {
  import opened Mesh
  import Pt = Point

  /** The six faces of a solid box, as indices into its eight corners:
      the top, four sides, and the bottom. */
  const BoxFaces: seq<seq<int>> :=
    [[0, 1, 2, 3], [4, 5, 1, 0], [5, 6, 2, 1], [6, 7, 3, 2], [7, 4, 0, 3], [7, 6, 5, 4]]

  /** The single quad of a flat box. */
  const FlatFace: seq<seq<int>> := [[0, 1, 2, 3]]

  /** createCuboid: the checks for a flat box run in x, y, z order; a
      solid box has corners 0-3 on the top and 4-7 on the bottom. */
  function CreateCuboid(x1: real, x2: real, y1: real, y2: real, z1: real, z2: real): (p: Primitive)
    ensures WellIndexed(p)
    ensures x2 - x1 == 0.0 ==>
      |p.vertices| == 4 && p.polygons == FlatFace && forall i :: 0 <= i < 4 ==> p.vertices[i].x == x1
    ensures x2 - x1 != 0.0 && y2 - y1 == 0.0 ==>
      |p.vertices| == 4 && p.polygons == FlatFace && forall i :: 0 <= i < 4 ==> p.vertices[i].y == y1
    ensures x2 - x1 != 0.0 && y2 - y1 != 0.0 && z2 - z1 == 0.0 ==>
      |p.vertices| == 4 && p.polygons == FlatFace && forall i :: 0 <= i < 4 ==> p.vertices[i].z == z1
    ensures x2 - x1 != 0.0 && y2 - y1 != 0.0 && z2 - z1 != 0.0 ==>
      |p.vertices| == 8 && p.polygons == BoxFaces
      && (forall i :: 0 <= i < 4 ==> p.vertices[i].z == z2)
      && (forall i :: 4 <= i < 8 ==> p.vertices[i].z == z1)
      && (forall v :: v in p.vertices <==> IsCorner(v, x1, x2, y1, y2, z1, z2))
  {
    if x2 - x1 == 0.0 then
      Primitive([Pt.Point(x1, y2, z1), Pt.Point(x1, y1, z1), Pt.Point(x1, y1, z2), Pt.Point(x1, y2, z2)], FlatFace)
    else if y2 - y1 == 0.0 then
      Primitive([Pt.Point(x1, y1, z1), Pt.Point(x2, y1, z1), Pt.Point(x2, y1, z2), Pt.Point(x1, y1, z2)], FlatFace)
    else if z2 - z1 == 0.0 then
      Primitive([Pt.Point(x1, y2, z1), Pt.Point(x2, y2, z1), Pt.Point(x2, y1, z1), Pt.Point(x1, y1, z1)], FlatFace)
    else
      var vs := [Pt.Point(x1, y1, z2), Pt.Point(x2, y1, z2), Pt.Point(x2, y2, z2), Pt.Point(x1, y2, z2),
                 Pt.Point(x1, y1, z1), Pt.Point(x2, y1, z1), Pt.Point(x2, y2, z1), Pt.Point(x1, y2, z1)];
      CornersAreAll(vs, x1, x2, y1, y2, z1, z2);
      Primitive(vs, BoxFaces)
  }

  /** A corner of the box: each coordinate one of the two bounds. */
  predicate IsCorner(v: Point, x1: real, x2: real, y1: real, y2: real, z1: real, z2: real) {
    (v.x == x1 || v.x == x2) && (v.y == y1 || v.y == y2) && (v.z == z1 || v.z == z2)
  }

  lemma CornersAreAll(vs: seq<Point>, x1: real, x2: real, y1: real, y2: real, z1: real, z2: real)
    requires vs == [Pt.Point(x1, y1, z2), Pt.Point(x2, y1, z2), Pt.Point(x2, y2, z2), Pt.Point(x1, y2, z2),
                    Pt.Point(x1, y1, z1), Pt.Point(x2, y1, z1), Pt.Point(x2, y2, z1), Pt.Point(x1, y2, z1)]
    ensures forall v :: v in vs <==> IsCorner(v, x1, x2, y1, y2, z1, z2)
  {
    forall v | IsCorner(v, x1, x2, y1, y2, z1, z2) ensures v in vs {
      var w := Pt.Point(v.x, v.y, v.z);
      assert v == w;
    }
  }

  /** A place on the surface: face f, corner k of that face. */
  predicate Position(faces: seq<seq<int>>, f: int, k: int) {
    0 <= f < |faces| && 0 <= k < |faces[f]|
  }

  /** The directed edge leaving corner k of face f, towards the next
      corner, the last corner back to the first. */
  function Edge(faces: seq<seq<int>>, f: int, k: int): (e: (int, int))
    requires Position(faces, f, k)
    ensures e.0 == faces[f][k] && e.1 in faces[f]
  {
    (faces[f][k], faces[f][(k + 1) % |faces[f]|])
  }

  function Rev(e: (int, int)): (int, int) {
    (e.1, e.0)
  }

  /** The surface is closed and consistently oriented: no directed edge
      occurs twice, and each is matched by its reverse in another face. */
  ghost predicate Closed(faces: seq<seq<int>>) {
    (forall f1, k1, f2, k2 :: (Position(faces, f1, k1) && Position(faces, f2, k2)
       && Edge(faces, f1, k1) == Edge(faces, f2, k2)) ==> f1 == f2 && k1 == k2)
    && (forall f, k :: Position(faces, f, k) ==>
       exists g, m :: Position(faces, g, m) && g != f && Edge(faces, g, m) == Rev(Edge(faces, f, k)))
  }

  /** The next corner of a quad. */
  function Succ(i: int): int {
    if i == 3 then 0 else i + 1
  }

  function Pred(i: int): int {
    if i == 0 then 3 else i - 1
  }

  /** Where an edge between two corners of the box lies: edges within the
      top belong to the top face or to the side below them, edges within
      the bottom to a side or the bottom face, and vertical edges to the
      side on their left or right. */
  function Locate(e: (int, int)): (int, int) {
    var (a, b) := e;
    if a < 4 && b < 4 then (if b == Succ(a) then (0, a) else (1 + b, 2))
    else if a >= 4 && b >= 4 then (if b - 4 == Succ(a - 4) then (1 + (a - 4), 0) else (5, 7 - a))
    else if a >= 4 then (1 + Pred(b), 1)
    else (1 + a, 3)
  }

  lemma LocateEdge(f: int, k: int)
    requires Position(BoxFaces, f, k)
    ensures Locate(Edge(BoxFaces, f, k)) == (f, k)
    ensures var (g, m) := Locate(Rev(Edge(BoxFaces, f, k)));
      Position(BoxFaces, g, m) && g != f && Edge(BoxFaces, g, m) == Rev(Edge(BoxFaces, f, k))
  {
    EdgeOfQuad(BoxFaces, f, k);
    LocateCorner(f, k);
    var (g, m) := Locate(Rev(Edge(BoxFaces, f, k)));
    EdgeOfQuad(BoxFaces, g, m);
  }

  /** On a quad, the edge from corner k goes to corner Succ(k). */
  lemma EdgeOfQuad(faces: seq<seq<int>>, f: int, k: int)
    requires Position(faces, f, k) && |faces[f]| == 4
    ensures Edge(faces, f, k) == (faces[f][k], faces[f][Succ(k)])
  {
  }

  /** The edge leaving corner k of face f, for one k at a time. */
  lemma LocateCorner(f: int, k: int)
    requires 0 <= f < 6 && 0 <= k < 4
    ensures Locate((BoxFaces[f][k], BoxFaces[f][Succ(k)])) == (f, k)
    ensures var (g, m) := Locate((BoxFaces[f][Succ(k)], BoxFaces[f][k]));
      0 <= g < 6 && 0 <= m < 4 && g != f && (BoxFaces[g][m], BoxFaces[g][Succ(m)]) == (BoxFaces[f][Succ(k)], BoxFaces[f][k])
  {
    if f == 0 {} else if f == 1 {} else if f == 2 {} else if f == 3 {} else if f == 4 {} else {}
  }

  /** The box's surface is closed: each of its 24 directed edges occurs
      once and is matched by its reverse in another face. */
  lemma BoxClosed()
    ensures Closed(BoxFaces)
  {
    forall f, k | Position(BoxFaces, f, k)
      ensures exists g, m :: Position(BoxFaces, g, m) && g != f && Edge(BoxFaces, g, m) == Rev(Edge(BoxFaces, f, k))
    {
      LocateEdge(f, k);
      var (g, m) := Locate(Rev(Edge(BoxFaces, f, k)));
      assert Position(BoxFaces, g, m) && g != f && Edge(BoxFaces, g, m) == Rev(Edge(BoxFaces, f, k));
    }
    forall f1, k1, f2, k2 | Position(BoxFaces, f1, k1) && Position(BoxFaces, f2, k2)
      && Edge(BoxFaces, f1, k1) == Edge(BoxFaces, f2, k2)
      ensures f1 == f2 && k1 == k2
    {
      LocateEdge(f1, k1);
      LocateEdge(f2, k2);
    }
  }

  /** The faces of the box that meet at a corner. */
  function FacesAt(v: int): set<int> {
    if v < 4 then {0, 1 + v, 1 + Pred(v)} else {5, 1 + (v - 4), 1 + Pred(v - 4)}
  }

  /** Every index of the box names one of its eight corners, and each
      corner belongs to exactly three faces. */
  lemma BoxCorners(v: int)
    requires 0 <= v < 8
    ensures forall i, j :: 0 <= i < |BoxFaces| && 0 <= j < |BoxFaces[i]| ==> 0 <= BoxFaces[i][j] < 8
    ensures |FacesAt(v)| == 3
    ensures forall f :: 0 <= f < |BoxFaces| ==> (v in BoxFaces[f] <==> f in FacesAt(v))
  {
    BoxIndices();
    if v < 4 {
      TopCorner(v);
    } else {
      BottomCorner(v);
    }
  }

  lemma BoxIndices()
    ensures forall i, j :: 0 <= i < |BoxFaces| && 0 <= j < |BoxFaces[i]| ==> 0 <= BoxFaces[i][j] < 8
  {
    forall i, j | 0 <= i < |BoxFaces| && 0 <= j < |BoxFaces[i]|
      ensures 0 <= BoxFaces[i][j] < 8
    {
      assert i == 0 || i == 1 || i == 2 || i == 3 || i == 4 || i == 5;
    }
  }

  /** A top corner lies on the top face and on the two sides beside it. */
  lemma TopCorner(v: int)
    requires 0 <= v < 4
    ensures |FacesAt(v)| == 3
    ensures forall f :: 0 <= f < |BoxFaces| ==> (v in BoxFaces[f] <==> f in FacesAt(v))
  {
    assert v == 0 || v == 1 || v == 2 || v == 3;
  }

  /** A bottom corner lies on the bottom face and on the two sides beside
      it. */
  lemma BottomCorner(v: int)
    requires 4 <= v < 8
    ensures |FacesAt(v)| == 3
    ensures forall f :: 0 <= f < |BoxFaces| ==> (v in BoxFaces[f] <==> f in FacesAt(v))
  {
    assert v == 4 || v == 5 || v == 6 || v == 7;
  }
}
