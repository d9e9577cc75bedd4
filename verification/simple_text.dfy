/** The simple text builder (src/simpletextbuilder.cpp): line drawings of
    the digits, '.' and '-', laid out left to right from a location. Each
    stroke of each character becomes one polygon of consecutively
    numbered vertices; the pen advances 0.75 after '.' and 1.5 after any
    other character, including one with no glyph. The result is a
    primitive of type Lines. */
module SimpleText {
  import Pt = Point
  import opened Mesh

  type Stroke = seq<Point>
  type Letter = seq<Stroke>

  /** The height getHeight reports. */
  const Height: real := 1.6

  /** The characters the glyph table defines. */
  const Defined: set<char> := {'0', '1', '2', '3', '4', '5', '6', '7', '8', '9', '.', '-'}

  function P(x: real, y: real): Point {
    Pt.Point(x, y, 0.0)
  }

  /** The glyph table; an undefined character has no strokes. */
  function Glyph(c: char): (l: Letter)
  {
    match c
    case '0' => [[P(0.25, 1.6), P(0.75, 1.6), P(1.0, 1.4), P(1.0, 0.2), P(0.75, 0.0), P(0.25, 0.0), P(0.0, 0.2), P(0.0, 1.4), P(0.25, 1.6)],
      [P(1.0, 1.4), P(0.0, 0.2)]]
    case '1' => [[P(0.25, 1.2), P(0.5, 1.6), P(0.5, 0.0)]]
    case '2' => [[P(0.0, 1.4), P(0.25, 1.6), P(0.75, 1.6), P(1.0, 1.4), P(1.0, 1.0), P(0.0, 0.0), P(1.0, 0.0)]]
    case '3' => [[P(0.0, 1.4), P(0.25, 1.6), P(0.75, 1.6), P(1.0, 1.4), P(1.0, 1.0), P(0.75, 0.8), P(1.0, 0.6), P(1.0, 0.2), P(0.75, 0.0), P(0.25, 0.0), P(0.0, 0.2)],
      [P(0.25, 0.8), P(0.75, 0.8)]]
    case '4' => [[P(0.75, 0.0), P(0.75, 1.6), P(0.0, 0.6), P(1.0, 0.6)]]
    case '5' => [[P(1.0, 1.6), P(0.0, 1.6), P(0.0, 0.8), P(0.75, 0.8), P(1.0, 0.6), P(1.0, 0.2), P(0.75, 0.0), P(0.25, 0.0), P(0.0, 0.2)]]
    case '6' => [[P(1.0, 1.4), P(0.75, 1.6), P(0.25, 1.6), P(0.0, 1.4), P(0.0, 0.2), P(0.25, 0.0), P(0.75, 0.0), P(1.0, 0.2), P(1.0, 0.6), P(0.75, 0.8), P(0.0, 0.8)]]
    case '7' => [[P(0.0, 1.6), P(0.75, 1.6), P(1.0, 1.4), P(0.0, 0.0)]]
    case '8' => [[P(0.25, 0.8), P(0.0, 1.0), P(0.0, 1.4), P(0.25, 1.6), P(0.75, 1.6), P(1.0, 1.4), P(1.0, 1.0), P(0.75, 0.8), P(0.25, 0.8), P(0.0, 0.6), P(0.0, 0.2), P(0.25, 0.0), P(0.75, 0.0), P(1.0, 0.2), P(1.0, 0.6), P(0.75, 0.8)]]
    case '9' => [[P(1.0, 1.0), P(0.75, 0.8), P(0.25, 0.8), P(0.0, 1.0), P(0.0, 1.4), P(0.25, 1.6), P(0.75, 1.6), P(1.0, 1.4), P(1.0, 0.0)]]
    case '.' => [[P(0.0, 0.0), P(0.0, 0.2), P(0.25, 0.2), P(0.25, 0.0), P(0.0, 0.0)]]
    case '-' => [[P(0.0, 0.8), P(1.0, 0.8)]]
    case _ => []
  }

  /** Exactly the defined characters have strokes. */
  lemma GlyphDomain(c: char)
    ensures Glyph(c) != [] <==> c in Defined
  {
  }

  /** How far the pen moves after a character. */
  function Advance(c: char): (a: real)
    ensures a > 0.0
    ensures a == if c == '.' then 0.75 else 1.5
  {
    if c == '.' then 0.75 else 1.5
  }

  /** The pen position after the first characters of the text. */
  function Pen(text: string, x: real): (p: real)
    ensures p >= x
    ensures |text| > 0 ==> p > x
  {
    if |text| == 0 then x else Pen(text[..|text| - 1], x) + Advance(text[|text| - 1])
  }

  /** A letter moved by an offset. */
  function Shift(l: Letter, o: Point): (r: Letter)
    ensures |r| == |l|
    ensures forall k :: 0 <= k < |l| ==> |r[k]| == |l[k]|
    ensures forall k, j :: 0 <= k < |l| && 0 <= j < |l[k]| ==>
      r[k][j] == Pt.Point(l[k][j].x + o.x, l[k][j].y + o.y, l[k][j].z + o.z)
  {
    seq(|l|, k requires 0 <= k < |l| =>
      seq(|l[k]|, j requires 0 <= j < |l[k]| =>
        Pt.Point(l[k][j].x + o.x, l[k][j].y + o.y, l[k][j].z + o.z)))
  }

  /** The indices n, n + 1, ..., n + len - 1. */
  function Run(n: int, len: nat): (ix: seq<int>)
    ensures |ix| == len && forall j :: 0 <= j < len ==> ix[j] == n + j
  {
    seq(len, j requires 0 <= j < len => n + j)
  }

  /** The polygons' indices one after another. */
  function Flat(polys: seq<seq<int>>): seq<int>
  {
    if |polys| == 0 then [] else Flat(polys[..|polys| - 1]) + polys[|polys| - 1]
  }

  /** The vertices are numbered consecutively from 0 across the polygons. */
  predicate Numbered(shape: Primitive) {
    Flat(shape.polygons) == Run(0, |shape.vertices|)
  }

  /** createPolygon, then createVertex and append(n++) for each point. */
  function AddStroke(shape: Primitive, s: Stroke): (r: Primitive)
    ensures r.vertices == shape.vertices + s
    ensures r.polygons == shape.polygons + [Run(|shape.vertices|, |s|)]
    ensures Numbered(shape) ==> Numbered(r)
  {
    var r := Primitive(shape.vertices + s, shape.polygons + [Run(|shape.vertices|, |s|)]);
    assert r.polygons[..|r.polygons| - 1] == shape.polygons;
    assert Numbered(shape) ==> Flat(r.polygons) == Run(0, |shape.vertices|) + Run(|shape.vertices|, |s|);
    r
  }

  /** The strokes of one character, in order. */
  function AddLetter(shape: Primitive, l: Letter): (r: Primitive)
    ensures |r.polygons| == |shape.polygons| + |l|
    ensures r.vertices == shape.vertices + Concat(l)
    ensures |r.vertices| == |shape.vertices| + Length(l)
    ensures Numbered(shape) ==> Numbered(r)
    decreases |l|
  {
    if |l| == 0 then shape
    else
      var prev := AddLetter(shape, l[..|l| - 1]);
      assert l[..|l| - 1] + [l[|l| - 1]] == l;
      LengthAppend(l[..|l| - 1], l[|l| - 1]);
      assert Concat(l) == Concat(l[..|l| - 1]) + l[|l| - 1];
      AddStroke(prev, l[|l| - 1])
  }

  /** The points of a letter, stroke after stroke. */
  function Concat(l: Letter): (ps: seq<Point>)
    ensures |ps| == Length(l)
  {
    if |l| == 0 then [] else Concat(l[..|l| - 1]) + l[|l| - 1]
  }

  /** The number of points of a letter. */
  function Length(l: Letter): nat
  {
    if |l| == 0 then 0 else Length(l[..|l| - 1]) + |l[|l| - 1]|
  }

  lemma LengthAppend(l: Letter, s: Stroke)
    ensures Length(l + [s]) == Length(l) + |s|
  {
    assert (l + [s])[..|l|] == l;
  }

  /** A glyph table: the strokes of each character. The builder uses
      Glyph; the layout lemmas hold for any table. */
  type Table = char -> Letter

  /** The reference layout: the shape and the pen after the text. */
  function Layout(g: Table, text: string, loc: Point): (r: (Primitive, real))
    ensures r.1 == Pen(text, loc.x)
    decreases |text|
  {
    if |text| == 0 then (Primitive([], []), loc.x)
    else Place(g, Layout(g, text[..|text| - 1], loc), text[|text| - 1], loc)
  }

  /** One character drawn at the pen: its letter moved to the pen and the
      location's y and z, and the pen advanced. */
  function Place(g: Table, at: (Primitive, real), c: char, loc: Point): (r: (Primitive, real))
    ensures r.1 == at.1 + Advance(c)
  {
    (AddLetter(at.0, Shift(g(c), Pt.Point(at.1, loc.y, loc.z))), at.1 + Advance(c))
  }

  /** A character's vertices follow those of the text before it: its
      glyph's points moved to the pen position and the location's y and z. */
  lemma LetterPlacement(g: Table, text: string, c: char, loc: Point)
    ensures Layout(g, text + [c], loc).0.vertices
      == Layout(g, text, loc).0.vertices + Concat(Shift(g(c), Pt.Point(Pen(text, loc.x), loc.y, loc.z)))
  {
    assert (text + [c])[..|text|] == text;
  }

  /** The number of strokes and of points the text draws. */
  function Strokes(g: Table, text: string): nat
  {
    if |text| == 0 then 0 else Strokes(g, text[..|text| - 1]) + |g(text[|text| - 1])|
  }

  function Points(g: Table, text: string): nat
  {
    if |text| == 0 then 0 else Points(g, text[..|text| - 1]) + Length(g(text[|text| - 1]))
  }

  lemma {:induction false} ShiftLength(l: Letter, o: Point)
    ensures Length(Shift(l, o)) == Length(l)
    decreases |l|
  {
    if |l| > 0 {
      var init := l[..|l| - 1];
      ShiftLength(init, o);
      assert Shift(l, o)[..|l| - 1] == Shift(init, o);
    }
  }

  /** One polygon per stroke, one vertex per stroke point, numbered
      consecutively from 0, so every index names a vertex. */
  lemma {:induction false} LayoutShape(g: Table, text: string, loc: Point)
    ensures var shape := Layout(g, text, loc).0;
      |shape.polygons| == Strokes(g, text) && |shape.vertices| == Points(g, text)
      && Numbered(shape) && WellIndexed(shape)
    decreases |text|
  {
    var shape := Layout(g, text, loc).0;
    if |text| > 0 {
      var init := text[..|text| - 1];
      LayoutShape(g, init, loc);
      var c := text[|text| - 1];
      ShiftLength(g(c), Pt.Point(Layout(g, init, loc).1, loc.y, loc.z));
    } else {
      assert Run(0, 0) == [];
    }
    NumberedIsWellIndexed(shape);
  }

  /** Every index of a polygon appears in the flat index list. */
  lemma {:induction false} InFlat(polys: seq<seq<int>>, i: nat, j: nat)
    requires i < |polys| && j < |polys[i]|
    ensures polys[i][j] in Flat(polys)
    decreases |polys|
  {
    if i < |polys| - 1 {
      InFlat(polys[..|polys| - 1], i, j);
    }
  }

  lemma NumberedIsWellIndexed(shape: Primitive)
    requires Numbered(shape)
    ensures WellIndexed(shape)
  {
    forall i, j | 0 <= i < |shape.polygons| && 0 <= j < |shape.polygons[i]|
      ensures 0 <= shape.polygons[i][j] < |shape.vertices|
    {
      InFlat(shape.polygons, i, j);
    }
  }

  /** One more character of the text extends the layout by its letter. */
  lemma LayoutStep(g: Table, text: string, i: nat, loc: Point)
    requires i < |text|
    ensures Layout(g, text[..i + 1], loc) == Place(g, Layout(g, text[..i], loc), text[i], loc)
  {
    var next := text[..i + 1];
    assert next[..i] == text[..i] && next[i] == text[i];
  }

  /** buildPrimitive: the characters in turn, each letter drawn at the
      pen, which then advances. */
  method BuildPrimitive(text: string, loc: Point) returns (shape: Primitive)
    ensures shape == Layout(Glyph, text, loc).0
    ensures |shape.polygons| == Strokes(Glyph, text) && |shape.vertices| == Points(Glyph, text)
    ensures WellIndexed(shape)
  {
    shape := Primitive([], []);
    var x := loc.x;
    var i := 0;
    while i < |text|
      invariant 0 <= i <= |text|
      invariant shape == Layout(Glyph, text[..i], loc).0
      invariant x == Layout(Glyph, text[..i], loc).1
    {
      var c := text[i];
      LayoutStep(Glyph, text, i, loc);
      shape := AddLetter(shape, Shift(Glyph(c), Pt.Point(x, loc.y, loc.z)));
      x := x + Advance(c);
      i := i + 1;
    }
    assert text[..i] == text;
    LayoutShape(Glyph, text, loc);
  }
}
