/** The sphere module (src/module/spheremodule.cpp): f / 2 rings of
    latitude, each a circle of f points, stitched pairwise into
    triangles, with the first ring as the top cap and the last, reversed,
    as the bottom cap. */
module Sphere {
  import opened Wrappers
  import opened Values
  import opened Mesh
  import opened PrimitiveModule

  datatype SphereNode = PointNode | Polyhedron(polygons: seq<Loop>)

  /** The radius argument, or half the diameter, or 1. */
  function Radius(ctx: Context): (r: real)
    ensures NumberArg(ctx.param(0)).Some? ==> r == NumberArg(ctx.param(0)).value
    ensures NumberArg(ctx.param(0)).None? && NumberArg(ctx.arg(0, "diameter")).Some? ==>
      r == NumberArg(ctx.arg(0, "diameter")).value / 2.0
    ensures NumberArg(ctx.param(0)).None? && NumberArg(ctx.arg(0, "diameter")).None? ==> r == 1.0
  {
    match NumberArg(ctx.param(0))
    case Some(r) => r
    case None =>
      match NumberArg(ctx.arg(0, "diameter"))
      case Some(d) => d / 2.0
      case None => 1.0
  }

  /** The centre argument's truth, centred when it is absent. */
  function Centred(ctx: Context): (c: bool)
    ensures ctx.param(1).None? ==> c
    ensures ctx.param(1).Some? ==> c == ctx.truth(ctx.param(1).value)
  {
    if ctx.param(1).Some? then ctx.truth(ctx.param(1).value) else true
  }

  /** Ring i of n: the circle at latitude phi = pi (i + 1/2) / n, of radius
      r sin phi at height r cos phi, lifted by r when not centred. */
  function Ring(r: real, f: int, n: int, i: nat, center: bool, trig: Trig): (c: Loop)
    requires n > 0
    ensures |c| == Iterations(f)
    ensures var phi := (Pi * (i as real + 0.5)) / n as real;
      forall k :: 0 <= k < |c| ==> c[k].z == r * trig.cos(phi) + (if center then 0.0 else r)
  {
    var phi := (Pi * (i as real + 0.5)) / n as real;
    GetCircle(r * trig.sin(phi), f, r * trig.cos(phi) + (if center then 0.0 else r), trig)
  }

  /** Triangle j of a band, of the kind the parity picks: an even one
      has an edge on r2 and its apex on r1; an odd one has an edge on r1
      and is built by prepending, so its points come in reverse order. */
  function Triangle(r1: Loop, r2: Loop, f: int, j: nat, even: bool): (p: Loop)
    requires f > 0 && |r1| == f && |r2| == f && j < f
    ensures |p| == 3 && p[0] in r2 && p[2] in r1
    ensures even ==> p == [r2[j], r2[(j + 1) % f], r1[j]]
    ensures !even ==> p == [r2[(j + 1) % f], r1[(j + 1) % f], r1[j]]
  {
    var k := (j + 1) % f;
    if even then [r2[j], r2[k], r1[j]] else [r2[k], r1[k], r1[j]]
  }

  /** The band between two rings as a reference: 2 f triangles, taking
      turns between the two rings, each with points from both. */
  function Band(r1: Loop, r2: Loop, f: int): (b: seq<Loop>)
    requires f > 0 && |r1| == f && |r2| == f
    ensures |b| == 2 * f
    ensures forall t :: 0 <= t < 2 * f ==> b[t] == Triangle(r1, r2, f, t / 2, t % 2 == 0)
    ensures forall t :: 0 <= t < |b| ==> |b[t]| == 3 && b[t][0] in r2 && b[t][2] in r1
  {
    seq(2 * f, t requires 0 <= t < 2 * f => Triangle(r1, r2, f, t / 2, t % 2 == 0))
  }

  /** The order test of the loop, as the source writes it in doubles. */
  predicate Behind(r1i: int, r2i: int, f: int)
    requires f > 0
  {
    (r1i as real) / (f as real) < (r2i as real) / (f as real)
  }

  lemma BehindIsLess(a: int, b: int, f: int)
    requires f > 0
    ensures Behind(a, b, f) <==> a < b
  {
    var x, y, g := a as real, b as real, f as real;
    assert x / g * g == x && y / g * g == y;
    if x / g < y / g {
      assert (y / g - x / g) * g > 0.0;
    }
    if a < b {
      assert (y - x) / g > 0.0;
    }
  }

  /** The stitching loop: two cursors walk the rings, the one behind
      moving on, each step making one triangle; every ring access is
      within the ring. */
  method Stitch(r1: Loop, r2: Loop, f: int) returns (polys: seq<Loop>)
    requires f > 0 && |r1| == f && |r2| == f
    ensures polys == Band(r1, r2, f)
  {
    var r1i, r2i := 0, 0;
    polys := [];
    while r1i < f || r2i < f
      invariant 0 <= r1i <= r2i <= r1i + 1 && r2i <= f
      invariant |polys| == r1i + r2i
      invariant forall j :: 0 <= j < r2i ==> polys[2 * j] == Triangle(r1, r2, f, j, true)
      invariant forall j :: 0 <= j < r1i ==> polys[2 * j + 1] == Triangle(r1, r2, f, j, false)
      decreases 2 * f - r1i - r2i
    {
      BehindIsLess(r1i, r2i, f);
      if r2i >= f || Behind(r1i, r2i, f) {
        var r1j := (r1i + 1) % f;
        // prependVertex of r1[r1i], r1[r1j], r2[r2i % f], in that order
        polys := polys + [[r2[r2i % f], r1[r1j], r1[r1i]]];
        r1i := r1i + 1;
      } else {
        var r2j := (r2i + 1) % f;
        ModBelow(r1i, f);
        polys := polys + [[r2[r2i], r2[r2j], r1[r1i % f]]];
        r2i := r2i + 1;
      }
    }
    BandByParity(r1, r2, f, polys);
  }

  lemma ModBelow(x: int, f: int)
    requires 0 <= x < f
    ensures x % f == x
  {
  }

  /** A list of 2 f triangles with the even and odd ones in place is the
      band. */
  lemma BandByParity(r1: Loop, r2: Loop, f: int, polys: seq<Loop>)
    requires f > 0 && |r1| == f && |r2| == f && |polys| == 2 * f
    requires forall j :: 0 <= j < f ==> polys[2 * j] == Triangle(r1, r2, f, j, true)
    requires forall j :: 0 <= j < f ==> polys[2 * j + 1] == Triangle(r1, r2, f, j, false)
    ensures polys == Band(r1, r2, f)
  {
    var b := Band(r1, r2, f);
    forall t | 0 <= t < 2 * f ensures polys[t] == b[t] {
      var j := t / 2;
      if t % 2 == 0 {
        assert t == 2 * j;
      } else {
        assert t == 2 * j + 1;
      }
    }
  }

  /** The bands between rings 0 and 1, 1 and 2, ..., n - 1 and n. */
  function Bands(rings: seq<Loop>, f: int, n: nat): (bs: seq<Loop>)
    requires f > 0 && n < |rings| && forall i :: 0 <= i < |rings| ==> |rings[i]| == f
    ensures |bs| == n * (2 * f)
    ensures n > 0 ==> |bs| >= 2 * f && bs[|bs| - 2 * f..] == Band(rings[n - 1], rings[n], f)
  {
    if n == 0 then []
    else
      var prev := Bands(rings, f, n - 1);
      var band := Band(rings[n - 1], rings[n], f);
      Distribute(n, 2 * f);
      AppendTail(prev, band);
      prev + band
  }

  lemma AppendTail<T>(a: seq<T>, b: seq<T>)
    ensures (a + b)[|a|..] == b
  {
  }

  lemma Distribute(n: int, k: int)
    ensures (n - 1) * k + k == n * k
  {
  }

  /** The top cap, the bands between neighbouring rings and the reversed
      bottom cap. */
  function Shell(rings: seq<Loop>, f: int): (ps: seq<Loop>)
    requires f > 0 && |rings| > 0 && forall i :: 0 <= i < |rings| ==> |rings[i]| == f
    ensures |ps| == 2 + (|rings| - 1) * (2 * f)
    ensures ps[0] == rings[0] && ps[|ps| - 1] == Reverse(rings[|rings| - 1])
  {
    [rings[0]] + Bands(rings, f, |rings| - 1) + [Reverse(rings[|rings| - 1])]
  }

  /** evaluate: a point for radius zero; otherwise the top ring, the bands
      and the reversed bottom ring. */
  function Evaluate(ctx: Context, trig: Trig): (res: Result<SphereNode, string>)
    requires FragmentsDefined(Radius(ctx), ctx.fn, ctx.fs, ctx.fa)
    ensures Radius(ctx) == 0.0 <==> res == Success(PointNode)
    ensures Radius(ctx) != 0.0 ==>
      res == RingedSphere(Radius(ctx), GetFragments(Radius(ctx), ctx.fn, ctx.fs, ctx.fa), Centred(ctx), trig)
  {
    var r := Radius(ctx);
    if r == 0.0 then Success(PointNode)
    else RingedSphere(r, GetFragments(r, ctx.fn, ctx.fs, ctx.fa), Centred(ctx), trig)
  }

  /** The sphere of f fragments: f / 2 rings. With fewer than two
      fragments there are no rings and the source reads the first ring of
      an empty list. */
  function RingedSphere(r: real, f: int, center: bool, trig: Trig): (res: Result<SphereNode, string>)
    requires f >= 0
    ensures f / 2 == 0 <==> res.Failure?
    ensures f / 2 > 0 ==> f > 0 && res == Success(Polyhedron(Surface(r, f, f / 2, center, trig)))
  {
    var n := f / 2;
    if n == 0 then Failure("rings.at(0) on an empty list")
    else Success(Polyhedron(Surface(r, f, n, center, trig)))
  }

  /** The rings 0 to n - 1 stitched into the sphere's polygons. */
  function Surface(r: real, f: int, n: int, center: bool, trig: Trig): (ps: seq<Loop>)
    requires f > 0 && n > 0
    ensures |ps| == 2 + (n - 1) * (2 * f)
    ensures ps[0] == Ring(r, f, n, 0, center, trig)
    ensures ps[|ps| - 1] == Reverse(Ring(r, f, n, n - 1, center, trig))
  {
    Shell(Rings(r, f, n, center, trig), f)
  }

  /** The n rings, from the top down. */
  function Rings(r: real, f: int, n: int, center: bool, trig: Trig): (rs: seq<Loop>)
    requires f > 0 && n > 0
    ensures |rs| == n && forall i :: 0 <= i < n ==> rs[i] == Ring(r, f, n, i, center, trig)
    ensures forall i :: 0 <= i < n ==> |rs[i]| == f
  {
    seq(n, i requires 0 <= i < n => Ring(r, f, n, i, center, trig))
  }
}
