/** A vertex of a primitive (src/point.cpp): three coordinates, compared
    component-wise and printed as "[x,y,z]". */
module Point {
  import opened Text
  import Decimal

  datatype Point = Point(x: real, y: real, z: real)

  /** operator==: all three components agree. */
  function Equal(a: Point, b: Point): (r: bool)
    ensures r <==> a == b
  {
    a.x == b.x && a.y == b.y && a.z == b.z
  }

  /** getXYZ: the stored components. */
  function GetXYZ(p: Point): (r: (real, real, real))
    ensures Point(r.0, r.1, r.2) == p
  {
    (p.x, p.y, p.z)
  }

  /** getXY: the first two stored components. */
  function GetXY(p: Point): (r: (real, real))
    ensures Point(r.0, r.1, p.z) == p
  {
    (p.x, p.y)
  }

  /** toString(double): the coordinate at sixteen digits, trailing zeros
      and a bare point chopped; the same trim as to_string(d). */
  function CoordString(fixed: Decimal.Fixed, d: real): (s: string)
    ensures IsPrefix(s, fixed(d, Decimal.DefaultPrecision))
    ensures s == Decimal.ToString(fixed, d)
  {
    var res := fixed(d, Decimal.DefaultPrecision);
    res[..|res| - Decimal.AmountToChop(res)]
  }

  /** The three coordinate strings of a point. */
  function Coords(fixed: Decimal.Fixed, p: Point): seq<string>
  {
    [CoordString(fixed, p.x), CoordString(fixed, p.y), CoordString(fixed, p.z)]
  }

  /** toString(): "[x,y,z]". */
  function ToString(fixed: Decimal.Fixed, p: Point): (s: string)
    ensures |s| >= 4 && s[0] == '[' && s[|s| - 1] == ']'
    ensures s[1..|s| - 1] == Join(Coords(fixed, p), ",")
  {
    JoinThree(Coords(fixed, p));
    "[" + CoordString(fixed, p.x) + "," + CoordString(fixed, p.y) + "," + CoordString(fixed, p.z) + "]"
  }

  /** Text up to the first comma is determined: two comma-separated
      renderings agree field by field. */
  lemma SplitAtComma(a: string, b: string, a': string, b': string)
    requires ',' !in a && ',' !in a'
    requires a + "," + b == a' + "," + b'
    ensures a == a' && b == b'
    decreases if |a'| < |a| then 1 else 0
  {
    if |a| < |a'| {
      CommaAt(a, b);
      assert false;
    } else if |a'| < |a| {
      SplitAtComma(a', b', a, b);
    } else {
      assert a == (a + "," + b)[..|a|];
      assert a' == (a' + "," + b')[..|a'|];
      assert b == (a + "," + b)[|a| + 1..];
      assert b' == (a' + "," + b')[|a'| + 1..];
    }
  }

  lemma CommaAt(a: string, b: string)
    ensures |a| < |a + "," + b| && (a + "," + b)[|a|] == ','
  {
  }

  /** The printed form gives back each coordinate's rendering when the
      renderings hold no comma (fixed-point digits never do). */
  lemma ToStringFields(fixed: Decimal.Fixed, p: Point, q: Point)
    requires CommaFree(Coords(fixed, p)) && CommaFree(Coords(fixed, q))
    requires ToString(fixed, p) == ToString(fixed, q)
    ensures Coords(fixed, p) == Coords(fixed, q)
  {
    var cp := Coords(fixed, p);
    var cq := Coords(fixed, q);
    var sp := ToString(fixed, p);
    var sq := ToString(fixed, q);
    assert Join(cp, ",") == cp[0] + "," + (cp[1] + "," + cp[2]) by {
      JoinThree(cp);
    }
    assert Join(cq, ",") == cq[0] + "," + (cq[1] + "," + cq[2]) by {
      JoinThree(cq);
    }
    assert Join(cp, ",") == Join(cq, ",");
    SplitAtComma(cp[0], cp[1] + "," + cp[2], cq[0], cq[1] + "," + cq[2]);
    SplitAtComma(cp[1], cp[2], cq[1], cq[2]);
  }

  predicate CommaFree(cs: seq<string>) {
    forall i :: 0 <= i < |cs| ==> ',' !in cs[i]
  }

  lemma JoinThree(cs: seq<string>)
    requires |cs| == 3
    ensures Join(cs, ",") == cs[0] + "," + (cs[1] + "," + cs[2])
  {
    assert cs[1..][1..] == [cs[2]];
    assert Join(cs[1..], ",") == cs[1] + "," + cs[2];
  }
}
