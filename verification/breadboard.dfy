/** The breadboard document (lib/src/breadboardmodel.cpp): the fixed hole
    grid, hole ids, occupancy, the group and polarity rules, and the edits
    on wires (connections) and components. */
module Breadboard {
  import opened Wrappers
  import Text

  const COLUMNS: int := 30
  const HOLE_SIZE: int := 12
  const HOLE_GAP: int := 18
  const START_X: int := 60
  const START_Y: int := 60

  /** The four bands of rows, top to bottom. */
  datatype Band = PowerTop | TermTop | TermBottom | PowerBottom

  function BandName(b: Band): (s: string)
    ensures |s| > 0 && ':' !in s
    ensures s[0] == 'p' || s[0] == 't'
  {
    match b
    case PowerTop => "power-top"
    case TermTop => "term-top"
    case TermBottom => "term-bottom"
    case PowerBottom => "power-bottom"
  }

  /** The band names are distinct. */
  lemma BandNameInjective(a: Band, b: Band)
    requires BandName(a) == BandName(b)
    ensures a == b
  {
  }

  /** Whether the band's name contains "power" (the power rails). */
  predicate IsPowerBand(b: Band) {
    b.PowerTop? || b.PowerBottom?
  }

  /** Whether the band's name contains "term" (the terminal strips). */
  predicate IsTermBand(b: Band) {
    b.TermTop? || b.TermBottom?
  }

  /** The two predicates are the substring tests on the names. */
  lemma BandKinds(b: Band)
    ensures IsPowerBand(b) <==> Text.IsPrefix("power", BandName(b))
    ensures IsTermBand(b) <==> Text.IsPrefix("term", BandName(b))
    ensures IsPowerBand(b) != IsTermBand(b)
  {
  }

  datatype Hole = Hole(band: Band, r: int, c: int, x: int, y: int)

  // ---------------------------------------------------------------------
  // Grid construction
  // ---------------------------------------------------------------------

  /** The band of grid row i. */
  function RowBand(i: int): Band
  {
    if i < 2 then PowerTop else if i < 7 then TermTop else if i < 12 then TermBottom else PowerBottom
  }

  /** The index of grid row i within its band. */
  function RowInBand(i: int): int
  {
    if i < 2 then i else if i < 7 then i - 2 else if i < 12 then i - 7 else i - 12
  }

  /** The y coordinate of the first row of each band. */
  function BandTop(b: Band): int
  {
    match b
    case PowerTop => 60
    case TermTop => 132
    case TermBottom => 312
    case PowerBottom => 438
  }

  /** The hole grid in closed form: 14 rows of 30 holes; row i is row
      RowInBand(i) of band RowBand(i); x is fixed by the column, y by band
      and row. */
  function Grid(): (g: seq<seq<Hole>>)
    ensures |g| == 14 && forall i :: 0 <= i < 14 ==> |g[i]| == COLUMNS
    ensures forall i, c :: 0 <= i < 14 && 0 <= c < COLUMNS ==> g[i][c] == GridHole(i, c)
  {
    seq(14, i requires 0 <= i < 14 => seq(COLUMNS, c requires 0 <= c < COLUMNS => GridHole(i, c)))
  }

  function GridHole(i: int, c: int): Hole
  {
    Hole(RowBand(i), RowInBand(i), c, START_X + HOLE_GAP * c, BandTop(RowBand(i)) + HOLE_GAP * RowInBand(i))
  }

  /** The rows a band contributes, in closed form. */
  function BandRows(band: Band, numRows: nat, y0: int): seq<seq<Hole>>
  {
    seq(numRows, r requires 0 <= r < numRows =>
      seq(COLUMNS, c requires 0 <= c < COLUMNS => Hole(band, r, c, START_X + HOLE_GAP * c, y0 + HOLE_GAP * r)))
  }

  /** The makeRow lambda of buildHoles: appends numRows rows of the band,
      x advancing along a row and y advancing after each row. */
  method MakeRow(rows0: seq<seq<Hole>>, band: Band, numRows: int, y0: int) returns (rows: seq<seq<Hole>>, y: int)
    requires numRows >= 0
    ensures rows == rows0 + BandRows(band, numRows, y0)
    ensures y == y0 + HOLE_GAP * numRows
  {
    rows := rows0;
    y := y0;
    var r := 0;
    while r < numRows
      invariant 0 <= r <= numRows
      invariant y == y0 + HOLE_GAP * r
      invariant rows == rows0 + BandRows(band, r, y0)
    {
      var row: seq<Hole> := [];
      var x := START_X;
      var c := 0;
      while c < COLUMNS
        invariant 0 <= c <= COLUMNS
        invariant x == START_X + HOLE_GAP * c
        invariant row == seq(c, k requires 0 <= k < c => Hole(band, r, k, START_X + HOLE_GAP * k, y))
      {
        row := row + [Hole(band, r, c, x, y)];
        x := x + HOLE_GAP;
        c := c + 1;
      }
      assert row == BandRows(band, r + 1, y0)[r];
      assert BandRows(band, r + 1, y0) == BandRows(band, r, y0) + [row];
      rows := rows + [row];
      y := y + HOLE_GAP;
      r := r + 1;
    }
  }

  /** buildHoles: two power rows, five terminal rows, five terminal rows,
      two power rows, with a two-gap channel around the terminal blocks
      and a five-gap channel between them. */
  method BuildHoles() returns (rows: seq<seq<Hole>>)
    ensures rows == Grid()
  {
    var y := START_Y;
    rows := [];
    rows, y := MakeRow(rows, PowerTop, 2, y);
    y := y + HOLE_GAP * 2;
    rows, y := MakeRow(rows, TermTop, 5, y);
    y := y + 5 * HOLE_GAP;
    rows, y := MakeRow(rows, TermBottom, 5, y);
    y := y + HOLE_GAP * 2;
    rows, y := MakeRow(rows, PowerBottom, 2, y);
    GridBands();
  }

  /** The grid is the four bands' rows in order. */
  lemma GridBands()
    ensures Grid() == [] + BandRows(PowerTop, 2, 60) + BandRows(TermTop, 5, 132)
                     + BandRows(TermBottom, 5, 312) + BandRows(PowerBottom, 2, 438)
  {
    var g := Grid();
    BandIsGridSlice(PowerTop, 2, 0);
    BandIsGridSlice(TermTop, 5, 2);
    BandIsGridSlice(TermBottom, 5, 7);
    BandIsGridSlice(PowerBottom, 2, 12);
    assert g == g[0..2] + g[2..7] + g[7..12] + g[12..14];
  }

  /** A band's rows are the grid rows from its first row on. */
  lemma BandIsGridSlice(band: Band, n: nat, off: nat)
    requires off + n <= 14
    requires forall i :: off <= i < off + n ==> RowBand(i) == band && RowInBand(i) == i - off
    ensures BandRows(band, n, BandTop(band)) == Grid()[off..off + n]
  {
    var g := Grid();
    var b := BandRows(band, n, BandTop(band));
    forall r | 0 <= r < n ensures b[r] == g[off + r] {
      assert RowBand(off + r) == band && RowInBand(off + r) == r;
    }
  }

  /** Rows are laid out top to bottom without overlap: y grows with the
      row index. */
  lemma RowsTopToBottom(i: int, j: int, c: int)
    requires 0 <= i < j < 14 && 0 <= c < COLUMNS
    ensures Grid()[i][c].y < Grid()[j][c].y
  {
  }

  /** A hole of the grid. */
  predicate IsBuilt(h: Hole)
  {
    exists i, c :: 0 <= i < 14 && 0 <= c < COLUMNS && GridHole(i, c) == h
  }

  // ---------------------------------------------------------------------
  // Hole ids
  // ---------------------------------------------------------------------

  /** holeId: "band:r:c". */
  function HoleId(h: Hole): string
  {
    BandName(h.band) + ":" + Text.IntToString(h.r) + ":" + Text.IntToString(h.c)
  }

  /** In a + ":" + b with no colon in a, the first colon is at |a|. */
  lemma ColonAt(a: string, b: string)
    requires ':' !in a
    ensures (a + ":" + b)[|a|] == ':'
    ensures forall k :: 0 <= k < |a| ==> (a + ":" + b)[k] != ':'
  {
  }

  /** A string split at a colon that neither left part contains splits
      the same way. */
  lemma SplitAtColon(a: string, b: string, a': string, b': string)
    requires ':' !in a && ':' !in a'
    requires a + ":" + b == a' + ":" + b'
    ensures a == a' && b == b'
  {
    var s := a + ":" + b;
    ColonAt(a, b);
    ColonAt(a', b');
    assert |a| == |a'|;
    assert a == s[..|a|] && a' == (a' + ":" + b')[..|a'|];
    assert b == s[|a| + 1..] && b' == (a' + ":" + b')[|a'| + 1..];
  }

  lemma IntStringHasNoColon(i: int)
    ensures ':' !in Text.IntToString(i)
  {
    var s := Text.IntToString(i);
    if i < 0 {
      assert s == "-" + Text.NatToString(-i);
      assert forall k :: 0 < k < |s| ==> s[k] == Text.NatToString(-i)[k - 1];
    }
  }

  lemma RegroupId(a: string, b: string, c: string)
    ensures a + ":" + b + ":" + c == a + ":" + (b + ":" + c)
  {
  }

  /** Distinct band, row or column give distinct ids. */
  lemma HoleIdInjective(h1: Hole, h2: Hole)
    requires HoleId(h1) == HoleId(h2)
    ensures h1.band == h2.band && h1.r == h2.r && h1.c == h2.c
  {
    IntStringHasNoColon(h1.r);
    IntStringHasNoColon(h2.r);
    var s1 := Text.IntToString(h1.r) + ":" + Text.IntToString(h1.c);
    var s2 := Text.IntToString(h2.r) + ":" + Text.IntToString(h2.c);
    RegroupId(BandName(h1.band), Text.IntToString(h1.r), Text.IntToString(h1.c));
    RegroupId(BandName(h2.band), Text.IntToString(h2.r), Text.IntToString(h2.c));
    SplitAtColon(BandName(h1.band), s1, BandName(h2.band), s2);
    BandNameInjective(h1.band, h2.band);
    SplitAtColon(Text.IntToString(h1.r), Text.IntToString(h1.c), Text.IntToString(h2.r), Text.IntToString(h2.c));
    Text.IntToStringInjective(h1.r, h2.r);
    Text.IntToStringInjective(h1.c, h2.c);
  }

  /** findHole over one row. */
  function FindInRow(row: seq<Hole>, id: string): (r: Option<Hole>)
    ensures r.Some? ==> r.value in row && HoleId(r.value) == id
    ensures r.None? <==> forall h :: h in row ==> HoleId(h) != id
  {
    if |row| == 0 then None
    else if HoleId(row[0]) == id then Some(row[0])
    else
      assert forall h :: h in row[1..] ==> h in row;
      FindInRow(row[1..], id)
  }

  /** findHole: the first hole, in row order, whose id is the given one. */
  function FindHole(rows: seq<seq<Hole>>, id: string): (r: Option<Hole>)
    ensures r.Some? ==> HoleId(r.value) == id && exists i :: 0 <= i < |rows| && r.value in rows[i]
    ensures r.None? <==> forall i, h :: 0 <= i < |rows| && h in rows[i] ==> HoleId(h) != id
  {
    if |rows| == 0 then None
    else
      var r := FindInRow(rows[0], id);
      if r.Some? then r
      else
        var rest := FindHole(rows[1..], id);
        assert forall i :: 1 <= i < |rows| ==> rows[i] == rows[1..][i - 1];
        rest
  }

  /** Band, row-in-band and column determine a grid position. */
  lemma GridHoleDetermined(i: int, c: int, i': int, c': int)
    requires 0 <= i < 14 && 0 <= i' < 14
    requires GridHole(i, c).band == GridHole(i', c').band && GridHole(i, c).r == GridHole(i', c').r
    requires GridHole(i, c).c == GridHole(i', c').c
    ensures i == i' && c == c'
  {
  }

  /** Looking up the id of any grid hole gives back that hole. */
  lemma FindHoleRoundTrip(h: Hole)
    requires IsBuilt(h)
    ensures FindHole(Grid(), HoleId(h)) == Some(h)
  {
    var rows := Grid();
    var i, c :| 0 <= i < 14 && 0 <= c < COLUMNS && GridHole(i, c) == h;
    assert rows[i][c] == h;
    assert h in rows[i];
    var h' := FindHole(rows, HoleId(h)).value;
    var i' :| 0 <= i' < |rows| && h' in rows[i'];
    var c' :| 0 <= c' < |rows[i']| && rows[i'][c'] == h';
    assert h' == GridHole(i', c');
    HoleIdInjective(h, h');
    GridHoleDetermined(i, c, i', c');
  }

  /** An id that does not start with a band name's first letter names no hole. */
  lemma FindHoleUnknown(id: string)
    requires |id| > 0 && id[0] != 'p' && id[0] != 't'
    ensures FindHole(Grid(), id) == None
  {
  }

  /** The test grid: 14 rows of 30, "power-top:0:0" is the top-left hole. */
  lemma GridExamples()
    ensures |Grid()| == 14 && |Grid()[0]| == 30 && Grid()[0][0].band == PowerTop
    ensures FindHole(Grid(), "power-top:0:0") == Some(Hole(PowerTop, 0, 0, 60, 60))
    ensures FindHole(Grid(), "non-existent:0:0") == None
  {
    var h := Hole(PowerTop, 0, 0, 60, 60);
    assert GridHole(0, 0) == h;
    assert Text.IntToString(0) == "0";
    assert HoleId(h) == "power-top:0:0";
    FindHoleRoundTrip(h);
    FindHoleUnknown("non-existent:0:0");
  }

  // ---------------------------------------------------------------------
  // Groups and polarity
  // ---------------------------------------------------------------------

  /** sameGroup: a power row is one strip; a terminal column within one
      band is one strip. */
  predicate SameGroup(h1: Hole, h2: Hole)
  {
    (IsPowerBand(h1.band) && h1.band == h2.band && h1.r == h2.r)
    || (IsTermBand(h1.band) && h1.band == h2.band && h1.c == h2.c)
  }

  /** Being in the same group is an equivalence. */
  lemma SameGroupEquivalence(h1: Hole, h2: Hole, h3: Hole)
    ensures SameGroup(h1, h1)
    ensures SameGroup(h1, h2) ==> SameGroup(h2, h1)
    ensures SameGroup(h1, h2) && SameGroup(h2, h3) ==> SameGroup(h1, h3)
  {
  }

  predicate IsPositiveHole(h: Hole)
  {
    (h.band == PowerTop && h.r == 0) || (h.band == PowerBottom && h.r == 1)
  }

  predicate IsNegativeHole(h: Hole)
  {
    (h.band == PowerTop && h.r == 1) || (h.band == PowerBottom && h.r == 0)
  }

  /** No hole is both; polarity is constant on a group; and on the grid
      each power row has exactly one polarity. */
  lemma PolarityRules(h1: Hole, h2: Hole)
    ensures !(IsPositiveHole(h1) && IsNegativeHole(h1))
    ensures SameGroup(h1, h2) ==> (IsPositiveHole(h1) <==> IsPositiveHole(h2))
    ensures SameGroup(h1, h2) ==> (IsNegativeHole(h1) <==> IsNegativeHole(h2))
    ensures IsBuilt(h1) ==> (IsPowerBand(h1.band) <==> IsPositiveHole(h1) || IsNegativeHole(h1))
  {
    if IsBuilt(h1) {
        var i, c :| 0 <= i < 14 && 0 <= c < COLUMNS && GridHole(i, c) == h1;
    }
  }

  /** The group examples of the test suite. */
  lemma SameGroupExamples()
    ensures SameGroup(Hole(PowerTop, 0, 0, 0, 0), Hole(PowerTop, 0, 1, 0, 0))
    ensures !SameGroup(Hole(PowerTop, 0, 0, 0, 0), Hole(PowerTop, 1, 0, 0, 0))
    ensures !SameGroup(Hole(PowerTop, 0, 0, 0, 0), Hole(TermTop, 0, 0, 0, 0))
  {
  }

  // ---------------------------------------------------------------------
  // Wires and components
  // ---------------------------------------------------------------------

  datatype Point = Point(x: int, y: int)

  datatype Connection = Connection(id: string, a: string, b: string, color: string, waypoints: seq<Point>)

  datatype Component = Component(id: string, pins: seq<string>)

  /** The editable part of the model. The moving ids name the wire or
      component being dragged ("" for none); it is ignored by occupancy. */
  datatype Board = Board(connections: seq<Connection>, components: seq<Component>,
                         movingConnectionId: string, movingComponentId: string)

  /** A new model: no wires, no components, nothing moving. */
  function NewBoard(): (b: Board)
    ensures |b.connections| == 0 && |b.components| == 0
  {
    Board([], [], "", "")
  }

  function ConnectionsOccupy(cs: seq<Connection>, moving: string, id: string): (b: bool)
    ensures b <==> exists k :: 0 <= k < |cs| && cs[k].id != moving && (cs[k].a == id || cs[k].b == id)
  {
    if |cs| == 0 then false
    else if cs[0].id != moving && (cs[0].a == id || cs[0].b == id) then true
    else
      assert forall k :: 1 <= k < |cs| ==> cs[k] == cs[1..][k - 1];
      ConnectionsOccupy(cs[1..], moving, id)
  }

  function ComponentsOccupy(ps: seq<Component>, moving: string, id: string): (b: bool)
    ensures b <==> exists k :: 0 <= k < |ps| && ps[k].id != moving && id in ps[k].pins
  {
    if |ps| == 0 then false
    else if ps[0].id != moving && id in ps[0].pins then true
    else
      assert forall k :: 1 <= k < |ps| ==> ps[k] == ps[1..][k - 1];
      ComponentsOccupy(ps[1..], moving, id)
  }

  /** isHoleOccupied: some wire other than the moving one ends at the hole,
      or some component other than the moving one has a pin there. */
  function IsHoleOccupied(bd: Board, id: string): (b: bool)
    ensures b <==>
      (exists k :: 0 <= k < |bd.connections| && bd.connections[k].id != bd.movingConnectionId
                   && (bd.connections[k].a == id || bd.connections[k].b == id))
      || (exists k :: 0 <= k < |bd.components| && bd.components[k].id != bd.movingComponentId
                      && id in bd.components[k].pins)
  {
    ConnectionsOccupy(bd.connections, bd.movingConnectionId, id)
    || ComponentsOccupy(bd.components, bd.movingComponentId, id)
  }

  /** addConnection: the new wire gets a new id supplied by the caller
      (the source draws a UUID). */
  function AddConnection(bd: Board, newId: string, a: string, b: string, color: string, waypoints: seq<Point>): (r: Board)
    ensures |r.connections| == |bd.connections| + 1
    ensures r.connections[..|bd.connections|] == bd.connections
    ensures r.connections[|bd.connections|] == Connection(newId, a, b, color, waypoints)
    ensures r.components == bd.components
  {
    bd.(connections := bd.connections + [Connection(newId, a, b, color, waypoints)])
  }

  /** After adding a wire both ends are occupied and no other hole changes. */
  lemma AddConnectionOccupancy(bd: Board, newId: string, a: string, b: string, color: string, waypoints: seq<Point>, id: string)
    requires newId != bd.movingConnectionId
    ensures var r := AddConnection(bd, newId, a, b, color, waypoints);
            IsHoleOccupied(r, a) && IsHoleOccupied(r, b)
            && (id != a && id != b ==> IsHoleOccupied(r, id) == IsHoleOccupied(bd, id))
  {
    var r := AddConnection(bd, newId, a, b, color, waypoints);
    var n := |bd.connections|;
    assert r.connections[n].a == a && r.connections[n].b == b;
    assert forall k :: 0 <= k < n ==> r.connections[k] == bd.connections[k];
  }

  /** addComponent, with a caller-supplied new id. */
  function AddComponent(bd: Board, newId: string, pins: seq<string>): (r: Board)
    ensures |r.components| == |bd.components| + 1
    ensures r.components[..|bd.components|] == bd.components
    ensures r.components[|bd.components|] == Component(newId, pins)
    ensures r.connections == bd.connections
  {
    bd.(components := bd.components + [Component(newId, pins)])
  }

  /** After adding a component its pins are occupied; no other hole changes. */
  lemma AddComponentOccupancy(bd: Board, newId: string, pins: seq<string>, id: string)
    requires newId != bd.movingComponentId
    ensures var r := AddComponent(bd, newId, pins);
            (id in pins ==> IsHoleOccupied(r, id))
            && (id !in pins ==> IsHoleOccupied(r, id) == IsHoleOccupied(bd, id))
  {
    var r := AddComponent(bd, newId, pins);
    var n := |bd.components|;
    assert r.components[n].pins == pins;
    assert forall k :: 0 <= k < n ==> r.components[k] == bd.components[k];
  }

  /** Replaces the first occurrence of orig in ps by repl. */
  function ReplaceFirst(ps: seq<string>, orig: string, repl: string): (r: seq<string>)
    requires orig in ps
    ensures |r| == |ps|
    ensures exists k :: 0 <= k < |ps| && ps[k] == orig && orig !in ps[..k] && r == ps[k := repl]
  {
    if ps[0] == orig then [repl] + ps[1..]
    else
      var rest := ReplaceFirst(ps[1..], orig, repl);
      var k :| 0 <= k < |ps[1..]| && ps[1..][k] == orig && orig !in ps[1..][..k] && rest == ps[1..][k := repl];
      assert ps[..k + 1] == [ps[0]] + ps[1..][..k];
      assert [ps[0]] + rest == ps[k + 1 := repl];
      [ps[0]] + rest
  }

  /** The component loop of moveComponent: the first component with the id
      that has the pin; a component with the id but without the pin is
      passed over. */
  function MoveInComponents(ps: seq<Component>, cid: string, orig: string, repl: string): (r: seq<Component>)
    ensures |r| == |ps|
    ensures forall k :: 0 <= k < |ps| ==> r[k].id == ps[k].id
  {
    if |ps| == 0 then []
    else if ps[0].id == cid && orig in ps[0].pins then
      [ps[0].(pins := ReplaceFirst(ps[0].pins, orig, repl))] + ps[1..]
    else [ps[0]] + MoveInComponents(ps[1..], cid, orig, repl)
  }

  /** moveComponent. */
  function MoveComponent(bd: Board, cid: string, orig: string, repl: string): (r: Board)
    ensures r.connections == bd.connections && |r.components| == |bd.components|
  {
    bd.(components := MoveInComponents(bd.components, cid, orig, repl))
  }

  /** The first component with the id that has the pin, if any. */
  function FirstHolding(ps: seq<Component>, cid: string, orig: string): (r: Option<nat>)
    ensures r.Some? ==> r.value < |ps| && ps[r.value].id == cid && orig in ps[r.value].pins
                        && forall j :: 0 <= j < r.value ==> !(ps[j].id == cid && orig in ps[j].pins)
    ensures r.None? ==> forall j :: 0 <= j < |ps| ==> !(ps[j].id == cid && orig in ps[j].pins)
  {
    if |ps| == 0 then None
    else if ps[0].id == cid && orig in ps[0].pins then Some(0)
    else
      var r := FirstHolding(ps[1..], cid, orig);
      assert forall j :: 1 <= j < |ps| ==> ps[j] == ps[1..][j - 1];
      if r.Some? then Some(r.value + 1) else None
  }

  /** moveComponent changes exactly one pin of one component: the first
      occurrence of the orig pin in the first component with that id that
      has it. Without such a component nothing changes. */
  lemma MoveComponentChangesOnePin(ps: seq<Component>, cid: string, orig: string, repl: string)
    ensures var r := MoveInComponents(ps, cid, orig, repl);
            match FirstHolding(ps, cid, orig)
            case None => r == ps
            case Some(k) =>
              (forall j :: 0 <= j < |ps| && j != k ==> r[j] == ps[j])
              && r[k].pins == ReplaceFirst(ps[k].pins, orig, repl)
  {
    match FirstHolding(ps, cid, orig)
    case None => MoveWithoutHolder(ps, cid, orig, repl);
    case Some(k) => MoveAtHolder(ps, cid, orig, repl, k);
  }

  lemma {:induction false} MoveWithoutHolder(ps: seq<Component>, cid: string, orig: string, repl: string)
    requires FirstHolding(ps, cid, orig).None?
    ensures MoveInComponents(ps, cid, orig, repl) == ps
  {
    if |ps| > 0 {
      assert FirstHolding(ps[1..], cid, orig).None?;
      MoveWithoutHolder(ps[1..], cid, orig, repl);
      assert ps == [ps[0]] + ps[1..];
    }
  }

  /** Holds(c) for the component the move looks for. */
  predicate Holds(c: Component, cid: string, orig: string) {
    c.id == cid && orig in c.pins
  }

  lemma MoveAtHolder(ps: seq<Component>, cid: string, orig: string, repl: string, k: nat)
    requires k < |ps| && Holds(ps[k], cid, orig)
    requires forall j :: 0 <= j < k ==> !Holds(ps[j], cid, orig)
    ensures var r := MoveInComponents(ps, cid, orig, repl);
            (forall j :: 0 <= j < |ps| && j != k ==> r[j] == ps[j])
            && r[k].pins == ReplaceFirst(ps[k].pins, orig, repl)
  {
    MoveIsUpdate(ps, cid, orig, repl, k);
  }

  /** The move is the update of the holder's pins. */
  lemma {:induction false} MoveIsUpdate(ps: seq<Component>, cid: string, orig: string, repl: string, k: nat)
    requires k < |ps| && Holds(ps[k], cid, orig)
    requires forall j :: 0 <= j < k ==> !Holds(ps[j], cid, orig)
    ensures MoveInComponents(ps, cid, orig, repl) == ps[k := ps[k].(pins := ReplaceFirst(ps[k].pins, orig, repl))]
  {
    var c := ps[k].(pins := ReplaceFirst(ps[k].pins, orig, repl));
    if k == 0 {
      assert [c] + ps[1..] == ps[0 := c];
    } else {
      assert !Holds(ps[0], cid, orig);
      MoveIsUpdate(ps[1..], cid, orig, repl, k - 1);
      assert [ps[0]] + ps[1..][k - 1 := c] == ps[k := c];
    }
  }

  /** The moved component holds the new pin, so it is occupied unless that
      component is the moving one. */
  lemma MoveComponentOccupiesNew(bd: Board, cid: string, orig: string, repl: string)
    requires FirstHolding(bd.components, cid, orig).Some?
    requires cid != bd.movingComponentId
    ensures IsHoleOccupied(MoveComponent(bd, cid, orig, repl), repl)
  {
    var k := FirstHolding(bd.components, cid, orig).value;
    MoveComponentChangesOnePin(bd.components, cid, orig, repl);
    var r := MoveComponent(bd, cid, orig, repl);
    var j :| 0 <= j < |bd.components[k].pins| && bd.components[k].pins[j] == orig
             && orig !in bd.components[k].pins[..j]
             && ReplaceFirst(bd.components[k].pins, orig, repl) == bd.components[k].pins[j := repl];
    assert r.components[k].pins[j] == repl;
  }

  /** A hole that only the moved pin occupied is free afterwards. */
  lemma MoveComponentFreesOld(bd: Board, cid: string, orig: string, repl: string)
    requires FirstHolding(bd.components, cid, orig).Some?
    requires orig != repl
    requires forall k :: 0 <= k < |bd.connections| ==> bd.connections[k].a != orig && bd.connections[k].b != orig
    requires forall k :: 0 <= k < |bd.components| && k != FirstHolding(bd.components, cid, orig).value ==>
               orig !in bd.components[k].pins
    requires var ps := bd.components[FirstHolding(bd.components, cid, orig).value].pins;
             forall i, j :: 0 <= i < j < |ps| ==> ps[i] != ps[j]
    ensures !IsHoleOccupied(MoveComponent(bd, cid, orig, repl), orig)
  {
    var k := FirstHolding(bd.components, cid, orig).value;
    MoveComponentChangesOnePin(bd.components, cid, orig, repl);
    var r := MoveComponent(bd, cid, orig, repl);
    var ps := bd.components[k].pins;
    var j :| 0 <= j < |ps| && ps[j] == orig && orig !in ps[..j] && ReplaceFirst(ps, orig, repl) == ps[j := repl];
    var ps' := ps[j := repl];
    assert orig !in ps' by {
      forall i | 0 <= i < |ps'| ensures ps'[i] != orig {
        if i != j {
          assert ps[i] != ps[j] by {
            if i < j { assert ps[i] != ps[j]; } else { assert ps[j] != ps[i]; }
          }
        }
      }
    }
    assert r.components[k].pins == ps';
  }

  /** deleteComponent: std::remove_if on the id followed by erase. The
      survivors keep their order: the j-th component, when it survives,
      lands after exactly the survivors before it. */
  function DeleteComponent(bd: Board, cid: string): (r: Board)
    ensures r.connections == bd.connections
    ensures r.movingConnectionId == bd.movingConnectionId && r.movingComponentId == bd.movingComponentId
    ensures forall c :: c in r.components <==> c in bd.components && c.id != cid
    ensures |r.components| == CountOthers(bd.components, ComponentId, cid)
    ensures forall j :: 0 <= j < |bd.components| && bd.components[j].id != cid ==>
              var rank := CountOthers(bd.components[..j], ComponentId, cid);
              rank < |r.components| && r.components[rank] == bd.components[j]
  {
    var ps := RemoveId(bd.components, ComponentId, cid);
    assert forall j :: 0 <= j < |bd.components| && bd.components[j].id != cid ==>
             var rank := CountOthers(bd.components[..j], ComponentId, cid);
             rank < |ps| && ps[rank] == bd.components[j] by {
      forall j | 0 <= j < |bd.components| && bd.components[j].id != cid
        ensures var rank := CountOthers(bd.components[..j], ComponentId, cid);
                rank < |ps| && ps[rank] == bd.components[j]
      {
        RemoveIdRanks(bd.components, ComponentId, cid, j);
      }
    }
    bd.(components := ps)
  }

  function ComponentId(c: Component): string { c.id }

  function ConnectionId(w: Connection): string { w.id }

  /** The number of elements whose id is not drop. */
  function CountOthers<T>(xs: seq<T>, id: T -> string, drop: string): (n: nat)
    ensures n <= |xs|
  {
    if |xs| == 0 then 0
    else (if id(xs[0]) != drop then 1 else 0) + CountOthers(xs[1..], id, drop)
  }

  /** The remove_if/erase idiom on an id: the elements whose id is not
      drop, in their original order. */
  function RemoveId<T(==,!new)>(xs: seq<T>, id: T -> string, drop: string): (r: seq<T>)
    ensures forall c :: c in r <==> c in xs && id(c) != drop
    ensures |r| == CountOthers(xs, id, drop)
  {
    if |xs| == 0 then []
    else
      assert forall c :: c in xs <==> c == xs[0] || c in xs[1..];
      (if id(xs[0]) == drop then [] else [xs[0]]) + RemoveId(xs[1..], id, drop)
  }

  /** Order: a surviving element sits at its rank among the survivors.
      Since the ranks of the survivors are 0, 1, ..., |r| - 1 in turn, this
      and the length fix the result completely. */
  lemma {:induction false} RemoveIdRanks<T(!new)>(xs: seq<T>, id: T -> string, drop: string, j: nat)
    requires j < |xs| && id(xs[j]) != drop
    ensures var rank := CountOthers(xs[..j], id, drop);
            rank < |RemoveId(xs, id, drop)| && RemoveId(xs, id, drop)[rank] == xs[j]
  {
    var head: seq<T> := if id(xs[0]) == drop then [] else [xs[0]];
    var rest := RemoveId(xs[1..], id, drop);
    assert RemoveId(xs, id, drop) == head + rest;
    if j > 0 {
      RemoveIdRanks(xs[1..], id, drop, j - 1);
      assert xs[..j][1..] == xs[1..][..j - 1];
      assert CountOthers(xs[..j], id, drop) == |head| + CountOthers(xs[1..][..j - 1], id, drop);
    }
  }

  /** Ranks grow by one from survivor to survivor: two survivors keep
      their relative order. */
  lemma {:induction false} RanksIncrease<T>(xs: seq<T>, id: T -> string, drop: string, i: nat, j: nat)
    requires i < j <= |xs| && id(xs[i]) != drop
    ensures CountOthers(xs[..i], id, drop) < CountOthers(xs[..j], id, drop)
  {
    if i > 0 {
      RanksIncrease(xs[1..], id, drop, i - 1, j - 1);
      assert xs[..i][1..] == xs[1..][..i - 1];
      assert xs[..j][1..] == xs[1..][..j - 1];
    } else {
      assert xs[..j][0] == xs[0];
    }
  }

  /** Deleting never occupies a hole, and a hole held only by the deleted
      components becomes free. */
  lemma DeleteComponentOccupancy(bd: Board, cid: string, id: string)
    ensures IsHoleOccupied(DeleteComponent(bd, cid), id) ==> IsHoleOccupied(bd, id)
    ensures (forall k :: 0 <= k < |bd.components| && id in bd.components[k].pins ==> bd.components[k].id == cid)
            && (forall k :: 0 <= k < |bd.connections| ==> bd.connections[k].a != id && bd.connections[k].b != id)
            ==> !IsHoleOccupied(DeleteComponent(bd, cid), id)
  {
    var r := DeleteComponent(bd, cid);
    if IsHoleOccupied(r, id) && !ConnectionsOccupy(r.connections, r.movingConnectionId, id) {
      var k :| 0 <= k < |r.components| && r.components[k].id != r.movingComponentId && id in r.components[k].pins;
      assert r.components[k] in bd.components;
      var j :| 0 <= j < |bd.components| && bd.components[j] == r.components[k];
    }
  }

  /** clear: removes all wires and components; the moving ids stay. */
  function Clear(bd: Board): (r: Board)
    ensures |r.connections| == 0 && |r.components| == 0
    ensures r.movingConnectionId == bd.movingConnectionId && r.movingComponentId == bd.movingComponentId
  {
    bd.(connections := [], components := [])
  }

  /** After clear no hole is occupied. */
  lemma ClearFreesAll(bd: Board, id: string)
    ensures !IsHoleOccupied(Clear(bd), id)
  {
  }

  function SetMovingConnectionId(bd: Board, id: string): (r: Board)
    ensures r.movingConnectionId == id
    ensures r.connections == bd.connections && r.components == bd.components
    ensures r.movingComponentId == bd.movingComponentId
  {
    bd.(movingConnectionId := id)
  }

  function SetMovingComponentId(bd: Board, id: string): (r: Board)
    ensures r.movingComponentId == id
    ensures r.connections == bd.connections && r.components == bd.components
    ensures r.movingConnectionId == bd.movingConnectionId
  {
    bd.(movingComponentId := id)
  }

  /** Marking a component as moving hides its pins from occupancy. */
  lemma MovingComponentIsIgnored(bd: Board, cid: string, id: string)
    requires forall k :: 0 <= k < |bd.components| && id in bd.components[k].pins ==> bd.components[k].id == cid
    requires forall k :: 0 <= k < |bd.connections| ==> bd.connections[k].a != id && bd.connections[k].b != id
    ensures !IsHoleOccupied(SetMovingComponentId(bd, cid), id)
  {
  }

  /** The wire loop of moveConnection. */
  function MoveInConnections(cs: seq<Connection>, connId: string, orig: string, repl: string): (r: seq<Connection>)
    ensures |r| == |cs|
  {
    if |cs| == 0 then []
    else if cs[0].id == connId then
      [if cs[0].a == orig then cs[0].(a := repl) else cs[0].(b := repl)] + cs[1..]
    else [cs[0]] + MoveInConnections(cs[1..], connId, orig, repl)
  }

  function FirstConnection(cs: seq<Connection>, connId: string): (r: Option<nat>)
    ensures r.Some? ==> r.value < |cs| && cs[r.value].id == connId
                        && forall j :: 0 <= j < r.value ==> cs[j].id != connId
    ensures r.None? ==> forall j :: 0 <= j < |cs| ==> cs[j].id != connId
  {
    if |cs| == 0 then None
    else if cs[0].id == connId then Some(0)
    else
      var r := FirstConnection(cs[1..], connId);
      assert forall j :: 1 <= j < |cs| ==> cs[j] == cs[1..][j - 1];
      if r.Some? then Some(r.value + 1) else None
  }

  /** moveConnection: on the first wire with the id, end a moves when it
      is the orig hole and end b moves otherwise; then the moving wire id
      is reset. Without such a wire nothing changes. */
  function MoveConnection(bd: Board, connId: string, orig: string, repl: string): (r: Board)
    ensures r.components == bd.components && r.movingComponentId == bd.movingComponentId
    ensures FirstConnection(bd.connections, connId).Some? ==>
              var k := FirstConnection(bd.connections, connId).value;
              r.movingConnectionId == "" && r.connections == bd.connections[k := MovedEnd(bd.connections[k], orig, repl)]
    ensures FirstConnection(bd.connections, connId).None? ==> r == bd
  {
    match FirstConnection(bd.connections, connId)
    case Some(k) =>
      MoveWireIsUpdate(bd.connections, connId, orig, repl, k);
      bd.(connections := MoveInConnections(bd.connections, connId, orig, repl), movingConnectionId := "")
    case None => bd
  }

  /** The effect of moveConnection on the wire list. */
  lemma {:induction false} MoveConnectionEffect(cs: seq<Connection>, connId: string, orig: string, repl: string)
    ensures var r := MoveInConnections(cs, connId, orig, repl);
            match FirstConnection(cs, connId)
            case None => r == cs
            case Some(k) =>
              (forall j :: 0 <= j < |cs| && j != k ==> r[j] == cs[j])
              && (cs[k].a == orig ==> r[k] == cs[k].(a := repl))
              && (cs[k].a != orig ==> r[k] == cs[k].(b := repl))
  {
    match FirstConnection(cs, connId)
    case None => MoveWithoutWire(cs, connId, orig, repl);
    case Some(k) => MoveWireIsUpdate(cs, connId, orig, repl, k);
  }

  /** The end a wire's move changes. */
  function MovedEnd(w: Connection, orig: string, repl: string): Connection {
    if w.a == orig then w.(a := repl) else w.(b := repl)
  }

  lemma {:induction false} MoveWithoutWire(cs: seq<Connection>, connId: string, orig: string, repl: string)
    requires forall j :: 0 <= j < |cs| ==> cs[j].id != connId
    ensures MoveInConnections(cs, connId, orig, repl) == cs
  {
    if |cs| > 0 {
      MoveWithoutWire(cs[1..], connId, orig, repl);
      assert cs == [cs[0]] + cs[1..];
    }
  }

  lemma {:induction false} MoveWireIsUpdate(cs: seq<Connection>, connId: string, orig: string, repl: string, k: nat)
    requires k < |cs| && cs[k].id == connId
    requires forall j :: 0 <= j < k ==> cs[j].id != connId
    ensures MoveInConnections(cs, connId, orig, repl) == cs[k := MovedEnd(cs[k], orig, repl)]
  {
    var w := MovedEnd(cs[k], orig, repl);
    if k == 0 {
      assert [w] + cs[1..] == cs[0 := w];
    } else {
      MoveWireIsUpdate(cs[1..], connId, orig, repl, k - 1);
      assert [cs[0]] + cs[1..][k - 1 := w] == cs[k := w];
    }
  }


  /** The wire-drag example of the test suite: a wire from "power-top:0:0"
      to "power-top:0:1" dragged by its b end to "power-top:0:2". */
  lemma MoveConnectionExample(newId: string)
    requires newId != ""
    ensures var bd := SetMovingConnectionId(AddConnection(NewBoard(), newId, "power-top:0:0", "power-top:0:1", "#ff0000", []), newId);
            var r := MoveConnection(bd, newId, "power-top:0:1", "power-top:0:2");
            !IsHoleOccupied(r, "power-top:0:1") && IsHoleOccupied(r, "power-top:0:2")
  {
    var bd := SetMovingConnectionId(AddConnection(NewBoard(), newId, "power-top:0:0", "power-top:0:1", "#ff0000", []), newId);
    assert bd.connections == [Connection(newId, "power-top:0:0", "power-top:0:1", "#ff0000", [])];
    assert "power-top:0:0" != "power-top:0:1" by { assert "power-top:0:0"[12] != "power-top:0:1"[12]; }
    assert "power-top:0:2" != "power-top:0:1" by { assert "power-top:0:2"[12] != "power-top:0:1"[12]; }
    var r := MoveConnection(bd, newId, "power-top:0:1", "power-top:0:2");
    assert r.connections == [Connection(newId, "power-top:0:0", "power-top:0:2", "#ff0000", [])];
  }

  /** deleteConnection, which the controller calls on the model: the
      model's source declares no such member, so it is modelled like
      deleteComponent, removing every wire with the id. */
  function DeleteConnection(bd: Board, connId: string): (r: Board)
    ensures r.components == bd.components
    ensures r.movingConnectionId == bd.movingConnectionId && r.movingComponentId == bd.movingComponentId
    ensures forall c :: c in r.connections <==> c in bd.connections && c.id != connId
    ensures |r.connections| == CountOthers(bd.connections, ConnectionId, connId)
    ensures forall j :: 0 <= j < |bd.connections| && bd.connections[j].id != connId ==>
              var rank := CountOthers(bd.connections[..j], ConnectionId, connId);
              rank < |r.connections| && r.connections[rank] == bd.connections[j]
  {
    var cs := RemoveId(bd.connections, ConnectionId, connId);
    assert forall j :: 0 <= j < |bd.connections| && bd.connections[j].id != connId ==>
             var rank := CountOthers(bd.connections[..j], ConnectionId, connId);
             rank < |cs| && cs[rank] == bd.connections[j] by {
      forall j | 0 <= j < |bd.connections| && bd.connections[j].id != connId
        ensures var rank := CountOthers(bd.connections[..j], ConnectionId, connId);
                rank < |cs| && cs[rank] == bd.connections[j]
      {
        RemoveIdRanks(bd.connections, ConnectionId, connId, j);
      }
    }
    bd.(connections := cs)
  }

  /** updateConnectionColor, which the controller calls on the model but
      whose definition is not part of this model: every wire with the id
      takes the color; nothing else changes. */
  function UpdateConnectionColor(bd: Board, connId: string, color: string): (r: Board)
    ensures r.components == bd.components && |r.connections| == |bd.connections|
    ensures forall k :: 0 <= k < |r.connections| ==>
              r.connections[k] == if bd.connections[k].id == connId then bd.connections[k].(color := color) else bd.connections[k]
  {
    bd.(connections := seq(|bd.connections|, k requires 0 <= k < |bd.connections| =>
      if bd.connections[k].id == connId then bd.connections[k].(color := color) else bd.connections[k]))
  }

  /** Recolouring changes no hole's occupancy. */
  lemma RecolorKeepsOccupancy(bd: Board, connId: string, color: string, id: string)
    ensures IsHoleOccupied(UpdateConnectionColor(bd, connId, color), id) == IsHoleOccupied(bd, id)
  {
    var r := UpdateConnectionColor(bd, connId, color);
    assert forall k :: 0 <= k < |r.connections| ==>
      r.connections[k].id == bd.connections[k].id && r.connections[k].a == bd.connections[k].a && r.connections[k].b == bd.connections[k].b;
  }
}
