/** The display-side facet and polyhedron of the OpenGL helper
    (contrib/OGL_helper.h). A facet keeps the coordinates of all its
    cycles in one array and, for each cycle, the array size at the moment
    the cycle was opened; a cycle runs from its entry point to the next
    cycle's entry point, or to the end of the array for the last one. The
    polyhedron's drawing state is its style, its switches and a flag
    saying whether the display lists have been built. The display lists
    and the OpenGL calls are not part of this model. */
module OglHelper {

  datatype Triple = Triple(x: real, y: real, z: real)

  /** DFacet: the coordinates, the entry points of the facet cycles, the
      normal and the mark. */
  datatype DFacet = DFacet(coords: seq<Triple>, fcEnds: seq<nat>, normal: Triple, mark: bool)

  /** The default constructor: nothing stored and the mark cleared. The
      normal is left uninitialised there; here it is the zero vector. */
  function EmptyFacet(): (f: DFacet)
    ensures |f.coords| == 0 && |f.fcEnds| == 0 && !f.mark
  {
    DFacet([], [], Triple(0.0, 0.0, 0.0), false)
  }

  /** push_back_vertex: one more coordinate triple at the end. */
  function PushBackVertex(f: DFacet, v: Triple): (r: DFacet)
    ensures r.coords == f.coords + [v] && r.fcEnds == f.fcEnds
  {
    f.(coords := f.coords + [v])
  }

  /** new_facet_cycle: the next cycle starts where the array ends now. */
  function NewFacetCycle(f: DFacet): (r: DFacet)
    ensures r.fcEnds == f.fcEnds + [|f.coords|] && r.coords == f.coords
  {
    f.(fcEnds := f.fcEnds + [|f.coords|])
  }

  function NumberOfFacetCycles(f: DFacet): (n: nat)
    ensures n == |f.fcEnds|
  {
    |f.fcEnds|
  }

  /** The entry points never decrease and never pass the end of the
      array. Every facet built by the operations above has this shape. */
  predicate Valid(f: DFacet) {
    (forall i, j :: 0 <= i < j < |f.fcEnds| ==> f.fcEnds[i] <= f.fcEnds[j])
    && (forall i :: 0 <= i < |f.fcEnds| ==> f.fcEnds[i] <= |f.coords|)
  }

  lemma EmptyValid()
    ensures Valid(EmptyFacet())
  {
  }

  lemma PushBackVertexValid(f: DFacet, v: Triple)
    requires Valid(f)
    ensures Valid(PushBackVertex(f, v))
  {
  }

  lemma NewFacetCycleValid(f: DFacet)
    requires Valid(f)
    ensures Valid(NewFacetCycle(f))
  {
  }

  /** facet_cycle_begin: the first cycle starts at the front of the array
      whatever its recorded entry point; the others at their entry point.
      The source asserts the index is below the cycle count. */
  function FacetCycleBegin(f: DFacet, i: nat): (b: nat)
    requires Valid(f) && i < NumberOfFacetCycles(f)
    ensures b <= |f.coords|
    ensures i == 0 ==> b == 0
    ensures i > 0 ==> b == f.fcEnds[i]
  {
    if i == 0 then 0 else f.fcEnds[i]
  }

  /** facet_cycle_end: the next cycle's entry point, or the end of the
      array for the last cycle. */
  function FacetCycleEnd(f: DFacet, i: nat): (e: nat)
    requires Valid(f) && i < NumberOfFacetCycles(f)
    ensures FacetCycleBegin(f, i) <= e <= |f.coords|
    ensures i + 1 < |f.fcEnds| ==> e == f.fcEnds[i + 1]
    ensures i + 1 == |f.fcEnds| ==> e == |f.coords|
  {
    if i < |f.fcEnds| - 1 then f.fcEnds[i + 1] else |f.coords|
  }

  /** The coordinates of cycle i. */
  function Cycle(f: DFacet, i: nat): (c: seq<Triple>)
    requires Valid(f) && i < NumberOfFacetCycles(f)
    ensures |c| == FacetCycleEnd(f, i) - FacetCycleBegin(f, i)
  {
    f.coords[FacetCycleBegin(f, i)..FacetCycleEnd(f, i)]
  }

  /** Every cycle of the facet, in order. */
  function Cycles(f: DFacet): (cs: seq<seq<Triple>>)
    requires Valid(f)
    ensures |cs| == NumberOfFacetCycles(f)
    ensures forall i :: 0 <= i < |cs| ==> cs[i] == Cycle(f, i)
  {
    seq(|f.fcEnds|, i requires 0 <= i < |f.fcEnds| => Cycle(f, i))
  }

  /** Pushes the vertices one by one. */
  function PushAll(f: DFacet, vs: seq<Triple>): (r: DFacet)
    ensures r.coords == f.coords + vs && r.fcEnds == f.fcEnds
    decreases |vs|
  {
    if |vs| == 0 then f
    else
      var init := vs[..|vs| - 1];
      assert vs == init + [vs[|vs| - 1]];
      PushBackVertex(PushAll(f, init), vs[|vs| - 1])
  }

  /** How the CGAL_NEF3 converter fills a facet: for every cycle, open it
      and push its vertices. */
  function Build(cycles: seq<seq<Triple>>): DFacet
    decreases |cycles|
  {
    if |cycles| == 0 then EmptyFacet()
    else PushAll(NewFacetCycle(Build(cycles[..|cycles| - 1])), cycles[|cycles| - 1])
  }

  /** The cycles laid end to end. */
  function Flat(cycles: seq<seq<Triple>>): seq<Triple>
    decreases |cycles|
  {
    if |cycles| == 0 then [] else Flat(cycles[..|cycles| - 1]) + cycles[|cycles| - 1]
  }

  /** Flattening a prefix gives a prefix of the flattening. */
  lemma {:induction false} FlatPrefix(cycles: seq<seq<Triple>>, k: nat)
    requires k <= |cycles|
    ensures |Flat(cycles[..k])| <= |Flat(cycles)|
    ensures Flat(cycles)[..|Flat(cycles[..k])|] == Flat(cycles[..k])
    decreases |cycles|
  {
    if k < |cycles| {
      var init := cycles[..|cycles| - 1];
      assert init[..k] == cycles[..k];
      FlatPrefix(init, k);
    } else {
      assert cycles[..k] == cycles;
    }
  }

  /** The built facet stores the flattened cycles and, for cycle i, the
      length of everything before it. */
  lemma {:induction false} BuildShape(cycles: seq<seq<Triple>>)
    ensures Build(cycles).coords == Flat(cycles)
    ensures |Build(cycles).fcEnds| == |cycles|
    ensures forall i :: 0 <= i < |cycles| ==> Build(cycles).fcEnds[i] == |Flat(cycles[..i])|
    decreases |cycles|
  {
    if |cycles| > 0 {
      var init := cycles[..|cycles| - 1];
      BuildShape(init);
      forall i | 0 <= i < |cycles| - 1
        ensures Build(cycles).fcEnds[i] == |Flat(cycles[..i])|
      {
        assert init[..i] == cycles[..i];
      }
    }
  }

  /** A built facet has the shape every operation keeps. */
  lemma BuildValid(cycles: seq<seq<Triple>>)
    ensures Valid(Build(cycles))
  {
    var f := Build(cycles);
    BuildShape(cycles);
    forall i, j | 0 <= i < j < |f.fcEnds| ensures f.fcEnds[i] <= f.fcEnds[j] {
      FlatPrefix(cycles[..j], i);
      assert cycles[..j][..i] == cycles[..i];
    }
    forall i | 0 <= i < |f.fcEnds| ensures f.fcEnds[i] <= |f.coords| {
      FlatPrefix(cycles, i);
    }
  }

  /** The cycle iterators of a built facet give back exactly the cycles
      that were pushed, in order. */
  lemma CyclesRoundTrip(cycles: seq<seq<Triple>>)
    ensures Valid(Build(cycles))
    ensures Cycles(Build(cycles)) == cycles
  {
    BuildValid(cycles);
    BuildShape(cycles);
    forall i | 0 <= i < |cycles| ensures Cycle(Build(cycles), i) == cycles[i] {
      CycleOfBuild(cycles, i);
    }
  }

  /** Cycle i of a built facet is the i-th pushed cycle. */
  lemma CycleOfBuild(cycles: seq<seq<Triple>>, i: nat)
    requires i < |cycles|
    ensures Valid(Build(cycles)) && NumberOfFacetCycles(Build(cycles)) == |cycles|
    ensures Cycle(Build(cycles), i) == cycles[i]
  {
    BuildValid(cycles);
    BuildShape(cycles);
    BoundsOfBuild(cycles, i);
    FlatSlice(cycles, i);
  }

  /** The iterators of cycle i of a built facet bound the flattened
      cycles before it and up to it. */
  lemma BoundsOfBuild(cycles: seq<seq<Triple>>, i: nat)
    requires i < |cycles|
    ensures Valid(Build(cycles)) && NumberOfFacetCycles(Build(cycles)) == |cycles|
    ensures FacetCycleBegin(Build(cycles), i) == |Flat(cycles[..i])|
    ensures FacetCycleEnd(Build(cycles), i) == |Flat(cycles[..i + 1])|
  {
    var f := Build(cycles);
    BuildValid(cycles);
    BuildShape(cycles);
    if i + 1 == |cycles| {
      assert cycles[..i + 1] == cycles;
    }
  }

  /** Between the flattened cycles before i and up to i lies cycle i. */
  lemma FlatSlice(cycles: seq<seq<Triple>>, i: nat)
    requires i < |cycles|
    ensures |Flat(cycles[..i])| <= |Flat(cycles[..i + 1])| <= |Flat(cycles)|
    ensures Flat(cycles)[|Flat(cycles[..i])|..|Flat(cycles[..i + 1])|] == cycles[i]
  {
    var prefix := cycles[..i + 1];
    assert prefix[..i] == cycles[..i];
    assert Flat(prefix) == Flat(cycles[..i]) + cycles[i];
    FlatPrefix(cycles, i + 1);
  }

  /** set_normal: the vector divided by its length, and the mark. The
      square root is a parameter: l is the given vector's length. */
  function SetNormal(f: DFacet, x: real, y: real, z: real, m: bool, l: real): (r: DFacet)
    requires l > 0.0 && l * l == x * x + y * y + z * z
    ensures r.coords == f.coords && r.fcEnds == f.fcEnds && r.mark == m
    ensures r.normal.x * l == x && r.normal.y * l == y && r.normal.z * l == z
  {
    f.(normal := Triple(x / l, y / l, z / l), mark := m)
  }

  /** The switch holding whether the axes are drawn, and the two styles. */
  const Axes: nat := 0
  const Boundary: int := 0
  const Skeleton: int := 1

  /** The polyhedron's drawing state. */
  datatype Viewer = Viewer(initialised: bool, style: int, switches: seq<bool>)

  /** The constructor: not initialised, boundary style, one switch with
      the axes off. */
  function CreateViewer(): (v: Viewer)
    ensures !v.initialised && v.style == Boundary
    ensures |v.switches| == 1 && !v.switches[Axes]
  {
    Viewer(false, Boundary, [false])
  }

  /** toggle: flips one switch and no other. The source indexes the
      vector unchecked. */
  function Toggle(v: Viewer, index: int): (r: Viewer)
    requires 0 <= index < |v.switches|
    ensures |r.switches| == |v.switches| && r.switches[index] == !v.switches[index]
    ensures forall k :: 0 <= k < |v.switches| && k != index ==> r.switches[k] == v.switches[k]
    ensures r.initialised == v.initialised && r.style == v.style
  {
    v.(switches := v.switches[index := !v.switches[index]])
  }

  /** Toggling twice restores the state. */
  lemma ToggleTwice(v: Viewer, index: int)
    requires 0 <= index < |v.switches|
    ensures Toggle(Toggle(v, index), index) == v
  {
  }

  function SetStyle(v: Viewer, index: int): (r: Viewer)
    ensures r.style == index && r.switches == v.switches && r.initialised == v.initialised
  {
    v.(style := index)
  }

  /** init: the first call marks the polyhedron initialised, turns the
      axes off and selects the boundary style; later calls do nothing. */
  function Init(v: Viewer): (r: Viewer)
    requires Axes < |v.switches|
    ensures r.initialised
    ensures v.initialised ==> r == v
    ensures |r.switches| == |v.switches|
    ensures !v.initialised ==> r.style == Boundary && !r.switches[Axes]
    ensures !v.initialised ==> (forall k :: 0 <= k < |v.switches| && k != Axes ==> r.switches[k] == v.switches[k])
  {
    if v.initialised then v
    else v.(initialised := true, switches := v.switches[Axes := false], style := Boundary)
  }

  lemma InitIdempotent(v: Viewer)
    requires Axes < |v.switches|
    ensures Init(Init(v)) == Init(v)
  {
  }

  /** Because init runs once, what the user toggles after the first draw
      survives later draws, while a toggle before it is reset. */
  lemma ToggleSurvivesInit(v: Viewer)
    requires Axes < |v.switches|
    ensures var w := Toggle(Init(v), Axes); Init(w) == w
    ensures !v.initialised ==> !Init(Toggle(v, Axes)).switches[Axes]
  {
  }
}
