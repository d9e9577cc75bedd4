/** The printer that writes an evaluated node tree as OpenSCAD-style text
    (src/nodeprinter.cpp): primitives as polyhedra, operations as
    "name(){children}" and transformations as "multmatrix([[...]]){...}". */
module NodePrinter {
  import opened Text
  import Decimal
  import Prim = PrimitiveNode
  import TM = TransformMatrix

  /** The operation nodes the printer writes through printOperation. */
  datatype OperationKind =
    | Polyline | Union | Difference | Intersection | SymmetricDifference
    | Minkowski | Glide | Hull | LinearExtrude | RotateExtrude | Bounds
    | SubDivision | Offset | Outline | Import | Resize

  datatype Node =
    | Primitive(prim: Prim.PrimitiveNode)
    | Operation(kind: OperationKind, children: seq<Node>)
    | Transformation(matrix: TM.TransformMatrix, children: seq<Node>)

  /** The name each operation is printed under. */
  function OperationName(k: OperationKind): (s: string)
    ensures |s| > 0 && '{' !in s && '}' !in s
  {
    match k
    case Polyline => "polyline"
    case Union => "union"
    case Difference => "difference"
    case Intersection => "intersection"
    case SymmetricDifference => "symmetric_difference"
    case Minkowski => "minkowski"
    case Glide => "glide"
    case Hull => "hull"
    case LinearExtrude => "linear_extrude"
    case RotateExtrude => "rotate_extrude"
    case Bounds => "bounds"
    case SubDivision => "subdiv"
    case Offset => "offset"
    case Outline => "outline"
    case Import => "import"
    case Resize => "resize"
  }

  /** No two operations share a printed name. */
  lemma OperationNameInjective(a: OperationKind, b: OperationKind)
    requires OperationName(a) == OperationName(b)
    ensures a == b
  {
  }

  /** The number formatters: fixed-point digits for the points and the
      stream output of a double for the matrix entries. */
  datatype Formats = Formats(fixed: Decimal.Fixed, num: real -> string)

  /** A head followed by the children in braces: the shape printOperation
      and the transformation visit share. */
  function Block(head: string, body: string): (s: string)
    ensures IsPrefix(head + "{", s) && s[|s| - 1] == '}'
    ensures s[|head| + 1..|s| - 1] == body
  {
    var s := head + "{" + body + "}";
    assert s == head + "{" + (body + "}");
    PrefixOfConcat(head + "{", body + "}");
    s
  }

  /** The printed form of a node. */
  function Print(n: Node, f: Formats): (s: string)
    ensures n.Primitive? ==> s == Prim.ToString(n.prim, f.fixed)
    ensures n.Operation? ==> IsPrefix(OperationName(n.kind) + "(){", s) && s[|s| - 1] == '}'
    ensures n.Transformation? ==> IsPrefix("multmatrix([[", s) && s[|s| - 1] == '}'
    decreases n, 1
  {
    match n
    case Primitive(prim) => Prim.ToString(prim, f.fixed)
    case Operation(k, cs) =>
      OperationHead(OperationName(k), PrintAll(cs, f));
      Block(OperationName(k) + "()", PrintAll(cs, f))
    case Transformation(m, cs) =>
      MatrixHead(MatrixText(m, f.num), PrintAll(cs, f));
      Block("multmatrix([[" + MatrixText(m, f.num) + "]])", PrintAll(cs, f))
  }

  lemma OperationHead(name: string, body: string)
    ensures IsPrefix(name + "(){", Block(name + "()", body))
  {
    assert name + "()" + "{" == name + "(){";
  }

  lemma MatrixHead(t: string, body: string)
    ensures IsPrefix("multmatrix([[", Block("multmatrix([[" + t + "]])", body))
  {
    var head := "multmatrix([[" + t + "]])";
    var s := Block(head, body);
    assert s[..|head| + 1] == head + "{";
    assert (head + "{")[..13] == "multmatrix([[";
  }

  /** The children, each printed in turn, with nothing between them. */
  function PrintAll(cs: seq<Node>, f: Formats): string
    decreases cs, 0
  {
    if |cs| == 0 then "" else Print(cs[0], f) + PrintAll(cs[1..], f)
  }

  /** The sixteen entries of a transformation, laid out by the same
      separator loop as the matrix's own toString. */
  function MatrixText(m: TM.TransformMatrix, num: real -> string): (s: string)
    ensures s == TM.RowsText(TM.EntryTexts(m, num))
  {
    TM.EntriesLoopIsRows(TM.EntryTexts(m, num));
    TM.EntriesLoop(TM.EntryTexts(m, num), 0)
  }

  /** A transformation prints its matrix as the matrix's own toString
      does, formatter aside. */
  lemma TransformationMatchesMatrixText(m: TM.TransformMatrix, cs: seq<Node>, f: Formats)
    ensures Print(Transformation(m, cs), f) == "multmatrix(" + TM.ToString(m, f.num) + "){" + PrintAll(cs, f) + "}"
  {
    var body := TM.RowsText(TM.EntryTexts(m, f.num));
    Regroup(body, PrintAll(cs, f));
  }

  lemma Regroup(body: string, kids: string)
    ensures Block("multmatrix([[" + body + "]])", kids) == "multmatrix(" + ("[[" + body + "]]") + "){" + kids + "}"
  {
    assert "multmatrix([[" == "multmatrix(" + "[[";
    assert "]])" + "{" == "]]" + "){";
  }

  predicate BraceFree(s: string) {
    '{' !in s && '}' !in s
  }

  /** Formatters whose output never holds a brace, as digits never do. */
  ghost predicate PlainFormats(f: Formats) {
    (forall d, p :: BraceFree(f.fixed(d, p))) && (forall d :: BraceFree(f.num(d)))
  }

  lemma PlainNum(f: Formats, d: real)
    requires PlainFormats(f)
    ensures BraceFree(f.num(d))
  {
  }

  lemma PlainFixed(f: Formats, d: real, p: int)
    requires PlainFormats(f)
    ensures BraceFree(f.fixed(d, p))
  {
  }

  predicate Balanced(s: string) {
    Count(s, '{') == Count(s, '}')
  }

  lemma BalancedConcat(a: string, b: string)
    requires Balanced(a) && Balanced(b)
    ensures Balanced(a + b)
  {
    CountAppend(a, b, '{');
    CountAppend(a, b, '}');
  }

  lemma BraceFreeBalanced(s: string)
    requires BraceFree(s)
    ensures Balanced(s)
  {
    CountAbsent(s, '{');
    CountAbsent(s, '}');
  }

  lemma BraceFreeConcat(a: string, b: string)
    requires BraceFree(a) && BraceFree(b)
    ensures BraceFree(a + b)
  {
  }

  lemma {:induction false} JoinBraceFree(parts: seq<string>, sep: string)
    requires BraceFree(sep) && forall i :: 0 <= i < |parts| ==> BraceFree(parts[i])
    ensures BraceFree(Join(parts, sep))
  {
    if |parts| > 1 {
      JoinBraceFree(parts[1..], sep);
    }
  }

  lemma IntBraceFree(i: int)
    ensures BraceFree(IntToString(i))
  {
    var s := IntToString(i);
    if i < 0 {
      assert s[1..] == NatToString(-i);
    }
    forall k | 0 <= k < |s| ensures s[k] != '{' && s[k] != '}' {
      if i < 0 && k > 0 {
        assert s[k] == NatToString(-i)[k - 1];
      }
    }
  }

  lemma PointBraceFree(f: Formats, p: Prim.Point)
    requires PlainFormats(f)
    ensures BraceFree(Prim.Pt.ToString(f.fixed, p))
  {
    var cs := Prim.Pt.Coords(f.fixed, p);
    forall i | 0 <= i < 3 ensures BraceFree(cs[i]) {
      var d := if i == 0 then p.x else if i == 1 then p.y else p.z;
      var full := f.fixed(d, Decimal.DefaultPrecision);
      PlainFixed(f, d, Decimal.DefaultPrecision);
      assert cs[i] == full[..|cs[i]|];
      assert forall c :: c in cs[i] ==> c in full;
    }
    JoinBraceFree(cs, ",");
  }

  /** A primitive's text holds no braces. */
  lemma PrimitiveBraceFree(prim: Prim.PrimitiveNode, f: Formats)
    requires PlainFormats(f)
    ensures BraceFree(Prim.ToString(prim, f.fixed))
  {
    var pts := Prim.PointList(prim.polygons);
    PointTextsFree(f, pts);
    IndexTextsFree(Prim.IndexLists(pts, prim.polygons));
    PolyhedronTextFree(Prim.PointTexts(f.fixed, pts), Prim.IndexListTexts(Prim.IndexLists(pts, prim.polygons)));
  }

  lemma PolyhedronTextFree(pt: seq<string>, it: seq<string>)
    requires forall i :: 0 <= i < |pt| ==> BraceFree(pt[i])
    requires forall i :: 0 <= i < |it| ==> BraceFree(it[i])
    ensures BraceFree(Prim.PolyhedronText(pt, it))
  {
    JoinBraceFree(pt, ",");
    JoinBraceFree(it, ",");
    FiveFree("polyhedron([", Join(pt, ","), "],[", Join(it, ","), "]);");
  }

  lemma PointTextsFree(f: Formats, pts: seq<Prim.Point>)
    requires PlainFormats(f)
    ensures forall i :: 0 <= i < |pts| ==> BraceFree(Prim.PointTexts(f.fixed, pts)[i])
  {
    forall i | 0 <= i < |pts| ensures BraceFree(Prim.PointTexts(f.fixed, pts)[i]) {
      PointBraceFree(f, pts[i]);
    }
  }

  lemma IndexTextsFree(ixs: seq<seq<int>>)
    ensures forall i :: 0 <= i < |ixs| ==> BraceFree(Prim.IndexListTexts(ixs)[i])
  {
    forall i | 0 <= i < |ixs| ensures BraceFree(Prim.IndexListTexts(ixs)[i]) {
      IndexListFree(ixs[i]);
    }
  }

  lemma IndexListFree(ix: seq<int>)
    ensures BraceFree(Prim.IndexListText(ix))
  {
    Prim.IndexListTextIsJoin(ix);
    var its := Prim.IntTexts(ix);
    forall k | 0 <= k < |its| ensures BraceFree(its[k]) {
      IntBraceFree(ix[k]);
    }
    JoinBraceFree(its, ",");
    FiveFree("[", Join(its, ","), "]", "", "");
    assert "[" + Join(its, ",") + "]" + "" + "" == "[" + Join(its, ",") + "]";
  }

  lemma FiveFree(l1: string, a: string, l2: string, b: string, l3: string)
    requires BraceFree(l1) && BraceFree(a) && BraceFree(l2) && BraceFree(b) && BraceFree(l3)
    ensures BraceFree(l1 + a + l2 + b + l3)
  {
  }

  lemma MatrixBraceFree(m: TM.TransformMatrix, f: Formats)
    requires PlainFormats(f)
    ensures BraceFree(MatrixText(m, f.num))
  {
    var ts := TM.EntryTexts(m, f.num);
    forall k | 0 <= k < 16 ensures BraceFree(ts[k]) {
      PlainNum(f, m.matrix[k]);
    }
    var rows := [Join(ts[0..4], ","), Join(ts[4..8], ","), Join(ts[8..12], ","), Join(ts[12..16], ",")];
    JoinBraceFree(ts[0..4], ",");
    JoinBraceFree(ts[4..8], ",");
    JoinBraceFree(ts[8..12], ",");
    JoinBraceFree(ts[12..16], ",");
    JoinBraceFree(rows, "],[");
  }

  /** Every printed tree has as many '{' as '}': each operation and
      transformation opens exactly one brace and closes it after its
      children, and the numbers never add braces of their own. */
  lemma {:induction false} PrintBalanced(n: Node, f: Formats)
    requires PlainFormats(f)
    ensures Balanced(Print(n, f))
    decreases n, 1
  {
    match n
    case Primitive(prim) =>
      PrimitiveBraceFree(prim, f);
      BraceFreeBalanced(Print(n, f));
    case Operation(k, cs) =>
      PrintAllBalanced(cs, f);
      OperationBalanced(k, cs, f);
    case Transformation(m, cs) =>
      PrintAllBalanced(cs, f);
      TransformationBalanced(m, cs, f);
  }

  lemma OperationBalanced(k: OperationKind, cs: seq<Node>, f: Formats)
    requires Balanced(PrintAll(cs, f))
    ensures Balanced(Print(Operation(k, cs), f))
  {
    OpenClose(OperationName(k) + "()", PrintAll(cs, f));
  }

  lemma TransformationBalanced(m: TM.TransformMatrix, cs: seq<Node>, f: Formats)
    requires PlainFormats(f) && Balanced(PrintAll(cs, f))
    ensures Balanced(Print(Transformation(m, cs), f))
  {
    var mt := MatrixText(m, f.num);
    MatrixBraceFree(m, f);
    MatrixHeadFree(mt);
    OpenClose("multmatrix([[" + mt + "]])", PrintAll(cs, f));
  }

  lemma MatrixHeadFree(mt: string)
    requires BraceFree(mt)
    ensures BraceFree("multmatrix([[" + mt + "]])")
  {
  }

  lemma OpenClose(head: string, body: string)
    requires BraceFree(head) && Balanced(body)
    ensures Balanced(Block(head, body))
  {
    BraceFreeBalanced(head);
    CountSingle('{', '{');
    CountSingle('{', '}');
    CountSingle('}', '{');
    CountSingle('}', '}');
    CountAppend(head, "{", '{');
    CountAppend(head, "{", '}');
    CountAppend(head + "{", body, '{');
    CountAppend(head + "{", body, '}');
    CountAppend(head + "{" + body, "}", '{');
    CountAppend(head + "{" + body, "}", '}');
  }

  lemma {:induction false} PrintAllBalanced(cs: seq<Node>, f: Formats)
    requires PlainFormats(f)
    ensures Balanced(PrintAll(cs, f))
    decreases cs, 0
  {
    if |cs| > 0 {
      PrintBalanced(cs[0], f);
      PrintAllBalanced(cs[1..], f);
      BalancedConcat(Print(cs[0], f), PrintAll(cs[1..], f));
    }
  }
}
