/** The side walls that the cylinder and cone modules build between a
    lower circle c1 and an upper circle c2 of f points each: per fragment
    i, with j the next fragment, one quad when the radii are equal,
    otherwise a triangle standing on c1 when r1 is positive and one
    hanging from c2 when r2 is positive. */
module Frustum {
  import opened Mesh

  predicate Circles(c1: Loop, c2: Loop, f: int) {
    f >= 0 && |c1| == f && |c2| == f
  }

  function Next(i: int, f: int): (j: int)
    requires 0 <= i < f
    ensures 0 <= j < f
  {
    (i + 1) % f
  }

  function Quad(c1: Loop, c2: Loop, f: int, i: int): Loop
    requires Circles(c1, c2, f) && 0 <= i < f
  {
    [c1[i], c2[i], c2[Next(i, f)], c1[Next(i, f)]]
  }

  function Lower(c1: Loop, c2: Loop, f: int, i: int): Loop
    requires Circles(c1, c2, f) && 0 <= i < f
  {
    [c1[i], c2[i], c1[Next(i, f)]]
  }

  function Upper(c1: Loop, c2: Loop, f: int, i: int): Loop
    requires Circles(c1, c2, f) && 0 <= i < f
  {
    [c2[i], c2[Next(i, f)], c1[Next(i, f)]]
  }

  /** The polygons one fragment contributes. */
  function Step(c1: Loop, c2: Loop, f: int, r1: real, r2: real, quads: bool, i: int): (s: seq<Loop>)
    requires Circles(c1, c2, f) && 0 <= i < f
    ensures |s| == PerFragment(r1, r2, quads)
  {
    if quads then [Quad(c1, c2, f, i)]
    else (if r1 > 0.0 then [Lower(c1, c2, f, i)] else []) + (if r2 > 0.0 then [Upper(c1, c2, f, i)] else [])
  }

  /** How many polygons each fragment contributes. */
  function PerFragment(r1: real, r2: real, quads: bool): (k: nat)
    ensures k <= 2
    ensures quads ==> k == 1
  {
    if quads then 1 else (if r1 > 0.0 then 1 else 0) + (if r2 > 0.0 then 1 else 0)
  }

  /** The loop over the first n fragments. */
  function Walls(c1: Loop, c2: Loop, f: int, r1: real, r2: real, quads: bool, n: nat): (w: seq<Loop>)
    requires Circles(c1, c2, f) && n <= f
    ensures |w| == n * PerFragment(r1, r2, quads)
    ensures quads ==> forall i :: 0 <= i < n ==> w[i] == Quad(c1, c2, f, i)
    ensures !quads && r1 > 0.0 && r2 > 0.0 ==>
      forall i :: 0 <= i < n ==> w[2 * i] == Lower(c1, c2, f, i) && w[2 * i + 1] == Upper(c1, c2, f, i)
    ensures !quads && r1 > 0.0 && r2 <= 0.0 ==> forall i :: 0 <= i < n ==> w[i] == Lower(c1, c2, f, i)
    ensures !quads && r1 <= 0.0 && r2 > 0.0 ==> forall i :: 0 <= i < n ==> w[i] == Upper(c1, c2, f, i)
    ensures !quads && r1 <= 0.0 && r2 <= 0.0 ==> w == []
  {
    if n == 0 then []
    else
      var prev := Walls(c1, c2, f, r1, r2, quads, n - 1);
      Distribute(n, PerFragment(r1, r2, quads));
      prev + Step(c1, c2, f, r1, r2, quads, n - 1)
  }

  lemma Distribute(n: int, k: int)
    ensures (n - 1) * k + k == n * k
  {
  }
}
