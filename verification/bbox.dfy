/** An axis-aligned 3D bounding box (contrib/Bbox_3.h): the minima and
    maxima on x, y and z, with equality and the union box, whose
    coordinate type is a real here. */
module Bbox {
  datatype Bbox = Bbox(xmin: real, ymin: real, zmin: real, xmax: real, ymax: real, zmax: real)

  /** operator==: all six coordinates agree. */
  function Equal(a: Bbox, b: Bbox): (r: bool)
    ensures r <==> a == b
  {
    a.xmin == b.xmin && a.xmax == b.xmax && a.ymin == b.ymin && a.ymax == b.ymax
    && a.zmin == b.zmin && a.zmax == b.zmax
  }

  /** operator!=: the negation of ==, with the operands swapped. */
  function NotEqual(a: Bbox, b: Bbox): (r: bool)
    ensures r <==> !Equal(a, b)
    ensures r <==> a != b
  {
    !Equal(b, a)
  }

  /** min(i) and max(i): x, y or z for i = 0, 1, 2; the source demands
      one of those. */
  function Min(b: Bbox, i: int): (v: real)
    requires 0 <= i <= 2
    ensures v == [b.xmin, b.ymin, b.zmin][i]
  {
    if i == 0 then b.xmin else if i == 1 then b.ymin else b.zmin
  }

  function Max(b: Bbox, i: int): (v: real)
    requires 0 <= i <= 2
    ensures v == [b.xmax, b.ymax, b.zmax][i]
  {
    if i == 0 then b.xmax else if i == 1 then b.ymax else b.zmax
  }

  function RMin(a: real, b: real): (m: real)
    ensures m <= a && m <= b && (m == a || m == b)
  {
    if b < a then b else a
  }

  function RMax(a: real, b: real): (m: real)
    ensures m >= a && m >= b && (m == a || m == b)
  {
    if a < b then b else a
  }

  /** b lies within a on every axis. */
  predicate Contains(a: Bbox, b: Bbox) {
    forall i :: 0 <= i <= 2 ==> Min(a, i) <= Min(b, i) && Max(b, i) <= Max(a, i)
  }

  /** operator+: the smallest box holding both. */
  function Plus(a: Bbox, b: Bbox): (r: Bbox)
    ensures Contains(r, a) && Contains(r, b)
    ensures forall c :: Contains(c, a) && Contains(c, b) ==> Contains(c, r)
  {
    var r := Bbox(RMin(a.xmin, b.xmin), RMin(a.ymin, b.ymin), RMin(a.zmin, b.zmin),
                  RMax(a.xmax, b.xmax), RMax(a.ymax, b.ymax), RMax(a.zmax, b.zmax));
    assert forall c :: Contains(c, a) && Contains(c, b) ==> Contains(c, r) by {
      forall c | Contains(c, a) && Contains(c, b) ensures Contains(c, r) {
        forall i | 0 <= i <= 2 ensures Min(c, i) <= Min(r, i) && Max(r, i) <= Max(c, i) {
          assert Min(c, i) <= Min(a, i) && Min(c, i) <= Min(b, i);
          assert Max(a, i) <= Max(c, i) && Max(b, i) <= Max(c, i);
        }
      }
    }
    r
  }

  /** The union does not depend on the order or grouping of its operands,
      and a box united with itself is itself. */
  lemma PlusCommutes(a: Bbox, b: Bbox)
    ensures Plus(a, b) == Plus(b, a)
  {
  }

  lemma PlusAssociates(a: Bbox, b: Bbox, c: Bbox)
    ensures Plus(Plus(a, b), c) == Plus(a, Plus(b, c))
  {
  }

  lemma PlusIdempotent(a: Bbox)
    ensures Plus(a, a) == a
  {
  }
}
