/** The mouse-driven editing state machine of the breadboard
    (lib/src/breadboardcontroller.cpp): wire drawing with waypoints,
    multi-pin component creation, dragging wire ends and component pins,
    short-circuit flashing and cancellation. The flash timer is a flag and
    its ticks are an explicit operation; repainting is left out. */
module BreadboardControl {
  import opened Wrappers
  import opened Breadboard

  datatype Mode = NotCreating | CreatingTwoPin | CreatingMultiPin

  datatype Color = White | Red | Black

  /** QColor::name of the three wire colors. */
  function ColorName(c: Color): (s: string)
    ensures |s| == 7 && s[0] == '#'
  {
    match c
    case White => "#ffffff"
    case Red => "#ff0000"
    case Black => "#000000"
  }

  /** The controller's fields. A moving id of None is a null QString. */
  datatype Ctl = Ctl(
    mode: Mode,
    pins: seq<Hole>,
    firstHole: Option<Hole>,
    hoverHole: Option<Hole>,
    mousePos: Point,
    movingConnectionId: Option<string>,
    movingComponentId: Option<string>,
    originalHoleId: string,
    wireColor: Color,
    flashActive: bool,
    flashState: bool,
    waypoints: seq<Point>)

  /** The board being edited together with the controller. */
  datatype Editor = Editor(board: Board, ctl: Ctl)

  /** A freshly constructed controller on a new model. */
  function Initial(): (ed: Editor)
    ensures ed.ctl.mode == NotCreating && ed.ctl.firstHole == None && !ed.ctl.flashActive
  {
    Editor(NewBoard(), Ctl(NotCreating, [], None, None, Point(0, 0), None, None, "", White, false, false, []))
  }

  /** Which cancellation a step performs: the controller's own fields only,
      as the source does, or also the model's moving ids (see
      CancelReleasesMovingIds). */
  datatype Cancellation = ControllerOnly | ReleaseModel

  /** cancelCreation. The model's moving ids are reset only by ReleaseModel. */
  function CancelCreation(ed: Editor, v: Cancellation): (r: Editor)
    ensures r.ctl.mode == NotCreating && |r.ctl.pins| == 0 && |r.ctl.waypoints| == 0
    ensures r.ctl.firstHole == None && r.ctl.movingConnectionId == None && r.ctl.movingComponentId == None
    ensures r.ctl.originalHoleId == ed.ctl.originalHoleId && r.ctl.wireColor == ed.ctl.wireColor
    ensures r.ctl.flashActive == ed.ctl.flashActive && r.ctl.hoverHole == ed.ctl.hoverHole
    ensures r.board.connections == ed.board.connections && r.board.components == ed.board.components
    ensures v == ControllerOnly ==> r.board == ed.board
    ensures v == ReleaseModel ==> r.board.movingConnectionId == "" && r.board.movingComponentId == ""
  {
    var c := ed.ctl.(mode := NotCreating, pins := [], waypoints := [], firstHole := None,
                     movingConnectionId := None, movingComponentId := None);
    var bd := if v == ReleaseModel then SetMovingComponentId(SetMovingConnectionId(ed.board, ""), "") else ed.board;
    Editor(bd, c)
  }

  /** Cancelling twice is cancelling once. */
  lemma CancelIdempotent(ed: Editor, v: Cancellation)
    ensures CancelCreation(CancelCreation(ed, v), v) == CancelCreation(ed, v)
  {
  }

  /** Whether a pin with the hole's id is already listed. */
  predicate HasPin(pins: seq<Hole>, h: Hole)
  {
    exists k :: 0 <= k < |pins| && HoleId(pins[k]) == HoleId(h)
  }

  /** The std::find_if guard: append the hole unless its id is listed. */
  function AddPin(pins: seq<Hole>, h: Hole): (r: seq<Hole>)
    ensures |r| == if HasPin(pins, h) then |pins| else |pins| + 1
    ensures HasPin(r, h)
    ensures forall k :: 0 <= k < |pins| ==> r[k] == pins[k]
  {
    if HasPin(pins, h) then pins
    else
      var r := pins + [h];
      assert HoleId(r[|pins|]) == HoleId(h);
      r
  }

  /** No two pins share an id. */
  predicate PinsDistinct(pins: seq<Hole>)
  {
    forall i, j :: 0 <= i < j < |pins| ==> HoleId(pins[i]) != HoleId(pins[j])
  }

  lemma AddPinDistinct(pins: seq<Hole>, h: Hole)
    requires PinsDistinct(pins)
    ensures PinsDistinct(AddPin(pins, h))
  {
  }

  function PinIds(pins: seq<Hole>): (ids: seq<string>)
    ensures |ids| == |pins| && forall k :: 0 <= k < |pins| ==> ids[k] == HoleId(pins[k])
  {
    seq(|pins|, k requires 0 <= k < |pins| => HoleId(pins[k]))
  }

  /** handleComponentCreationClick: an occupied hole is ignored; from
      NotCreating a control-click starts a multi-pin component; in
      multi-pin mode a control-click adds the hole unless listed. */
  function ComponentCreationClick(ed: Editor, h: Hole, ctrl: bool): (r: Editor)
    ensures r.board == ed.board
  {
    var c := ed.ctl;
    if IsHoleOccupied(ed.board, HoleId(h)) then ed
    else if c.mode == NotCreating then
      if ctrl then Editor(ed.board, c.(mode := CreatingMultiPin, pins := c.pins + [h])) else ed
    else if c.mode == CreatingMultiPin && ctrl then
      Editor(ed.board, c.(pins := AddPin(c.pins, h)))
    else ed
  }

  /** A creation click changes nothing on an occupied hole, starts a
      one-pin multi-pin component from an empty idle state, and keeps the
      pin list free of repeated ids. */
  lemma ComponentCreationClickRules(ed: Editor, h: Hole)
    requires PinsDistinct(ed.ctl.pins)
    requires ed.ctl.mode == NotCreating ==> |ed.ctl.pins| == 0
    ensures IsHoleOccupied(ed.board, HoleId(h)) ==> ComponentCreationClick(ed, h, true) == ed
    ensures !IsHoleOccupied(ed.board, HoleId(h)) && ed.ctl.mode == NotCreating ==>
              ComponentCreationClick(ed, h, true).ctl.mode == CreatingMultiPin
              && ComponentCreationClick(ed, h, true).ctl.pins == [h]
    ensures PinsDistinct(ComponentCreationClick(ed, h, true).ctl.pins)
  {
    if !IsHoleOccupied(ed.board, HoleId(h)) && ed.ctl.mode == CreatingMultiPin {
      AddPinDistinct(ed.ctl.pins, h);
    }
  }

  /** Whether a creation-mode click commits the component. */
  predicate Commits(mode: Mode, pins: seq<Hole>)
  {
    (mode == CreatingTwoPin && |pins| == 2) || (mode == CreatingMultiPin && |pins| >= 2)
  }

  /** The index of the first component with a pin on the hole. */
  function ComponentAt(ps: seq<Component>, id: string): (r: Option<nat>)
    ensures r.Some? ==> r.value < |ps| && id in ps[r.value].pins
                        && forall j :: 0 <= j < r.value ==> id !in ps[j].pins
    ensures r.None? ==> forall j :: 0 <= j < |ps| ==> id !in ps[j].pins
  {
    if |ps| == 0 then None
    else if id in ps[0].pins then Some(0)
    else
      var r := ComponentAt(ps[1..], id);
      assert forall j :: 1 <= j < |ps| ==> ps[j] == ps[1..][j - 1];
      if r.Some? then Some(r.value + 1) else None
  }

  /** The index of the first wire with an end on the hole. */
  function ConnectionAt(cs: seq<Connection>, id: string): (r: Option<nat>)
    ensures r.Some? ==> r.value < |cs| && (cs[r.value].a == id || cs[r.value].b == id)
                        && forall j :: 0 <= j < r.value ==> cs[j].a != id && cs[j].b != id
    ensures r.None? ==> forall j :: 0 <= j < |cs| ==> cs[j].a != id && cs[j].b != id
  {
    if |cs| == 0 then None
    else if cs[0].a == id || cs[0].b == id then Some(0)
    else
      var r := ConnectionAt(cs[1..], id);
      assert forall j :: 1 <= j < |cs| ==> cs[j] == cs[1..][j - 1];
      if r.Some? then Some(r.value + 1) else None
  }

  /** The first pin different from the given one. */
  function FirstOtherPin(pins: seq<string>, id: string): (r: Option<string>)
    ensures r.Some? ==> r.value in pins && r.value != id
    ensures r.None? ==> forall p :: p in pins ==> p == id
  {
    if |pins| == 0 then None
    else if pins[0] != id then Some(pins[0])
    else
      assert forall p :: p in pins ==> p == pins[0] || p in pins[1..];
      FirstOtherPin(pins[1..], id)
  }

  /** The idle branch of handleStandardClick: pick up a component on the
      hole, else pick up a wire end on the hole, else start a wire from an
      unoccupied hole. */
  function IdleClick(ed: Editor, h: Hole): (r: Editor)
    ensures r.board.connections == ed.board.connections && r.board.components == ed.board.components
  {
    var bd := ed.board;
    var c := ed.ctl;
    var id := HoleId(h);
    match ComponentAt(bd.components, id)
    case Some(k) =>
      var comp := bd.components[k];
      var other := FirstOtherPin(comp.pins, id);
      var first := if other.Some? then FindHole(Grid(), other.value) else c.firstHole;
      Editor(SetMovingComponentId(bd, comp.id),
             c.(movingComponentId := Some(comp.id), originalHoleId := id, firstHole := first))
    case None =>
      match ConnectionAt(bd.connections, id)
      case Some(k) =>
        var w := bd.connections[k];
        if w.a == id then
          Editor(SetMovingConnectionId(bd, w.id),
                 c.(firstHole := FindHole(Grid(), w.b), movingConnectionId := Some(w.id), originalHoleId := w.a))
        else
          Editor(SetMovingConnectionId(bd, w.id),
                 c.(firstHole := FindHole(Grid(), w.a), movingConnectionId := Some(w.id), originalHoleId := w.b))
      case None =>
        if !IsHoleOccupied(bd, id) then Editor(bd, c.(firstHole := Some(h))) else ed
  }

  /** handleStandardClick. newId is the id a created wire or component
      receives. */
  function StandardClick(ed: Editor, h: Hole, newId: string, v: Cancellation): (r: Editor)
  {
    var bd := ed.board;
    var c := ed.ctl;
    var id := HoleId(h);
    var free := !IsHoleOccupied(bd, id);
    if c.mode != NotCreating then
      var pins := if free then AddPin(c.pins, h) else c.pins;
      var bd' := if free && Commits(c.mode, pins) then AddComponent(bd, newId, PinIds(pins)) else bd;
      CancelCreation(Editor(bd', c.(pins := pins)), v)
    else if c.firstHole.Some? then
      var anchor := HoleId(c.firstHole.value);
      var bd' :=
        if c.movingComponentId.Some? then
          if anchor == id then DeleteComponent(bd, c.movingComponentId.value)
          else if free then MoveComponent(bd, c.movingComponentId.value, c.originalHoleId, id)
          else bd
        else if c.movingConnectionId.Some? then
          if anchor == id then DeleteConnection(bd, c.movingConnectionId.value)
          else if free && !c.flashActive then
            UpdateConnectionColor(MoveConnection(bd, c.movingConnectionId.value, c.originalHoleId, id),
                                  c.movingConnectionId.value, ColorName(c.wireColor))
          else bd
        else if free && !c.flashActive then
          AddConnection(bd, newId, anchor, id, ColorName(c.wireColor), c.waypoints)
        else bd;
      CancelCreation(Editor(bd', c), v)
    else IdleClick(ed, h)
  }

  /** In a creation mode the click adds an unoccupied pin, commits the
      component exactly when the mode's pin count is reached, and always
      ends in NotCreating. */
  lemma CreationModeClick(ed: Editor, h: Hole, newId: string, v: Cancellation)
    requires ed.ctl.mode != NotCreating
    ensures var r := StandardClick(ed, h, newId, v);
            var free := !IsHoleOccupied(ed.board, HoleId(h));
            var pins := if free then AddPin(ed.ctl.pins, h) else ed.ctl.pins;
            r.ctl.mode == NotCreating && |r.ctl.pins| == 0
            && (free && Commits(ed.ctl.mode, pins) ==>
                  r.board.components == ed.board.components + [Component(newId, PinIds(pins))])
            && (!(free && Commits(ed.ctl.mode, pins)) ==> r.board.components == ed.board.components)
            && r.board.connections == ed.board.connections
  {
    var free := !IsHoleOccupied(ed.board, HoleId(h));
    var pins := if free then AddPin(ed.ctl.pins, h) else ed.ctl.pins;
    if free && Commits(ed.ctl.mode, pins) {
      var bd' := AddComponent(ed.board, newId, PinIds(pins));
      assert bd'.components == bd'.components[..|ed.board.components|] + [bd'.components[|ed.board.components|]];
    }
  }

  /** While a component is being moved: clicking the anchor hole deletes
      it, clicking an unoccupied hole moves the picked-up pin there, and
      the state is cancelled either way. */
  lemma MovingComponentClick(ed: Editor, h: Hole, newId: string, v: Cancellation)
    requires ed.ctl.mode == NotCreating && ed.ctl.firstHole.Some? && ed.ctl.movingComponentId.Some?
    ensures var r := StandardClick(ed, h, newId, v);
            var cid := ed.ctl.movingComponentId.value;
            r.ctl.firstHole == None && r.ctl.movingComponentId == None
            && r.board.connections == ed.board.connections
            && (HoleId(ed.ctl.firstHole.value) == HoleId(h) ==>
                  r.board.components == DeleteComponent(ed.board, cid).components)
            && (HoleId(ed.ctl.firstHole.value) != HoleId(h) && !IsHoleOccupied(ed.board, HoleId(h)) ==>
                  r.board.components == MoveComponent(ed.board, cid, ed.ctl.originalHoleId, HoleId(h)).components)
            && (HoleId(ed.ctl.firstHole.value) != HoleId(h) && IsHoleOccupied(ed.board, HoleId(h)) ==>
                  r.board.components == ed.board.components)
  {
  }

  /** While a wire end is being moved: clicking the anchor deletes the
      wire; otherwise it is moved and recoloured only onto an unoccupied
      hole while no short is flashing. */
  lemma MovingConnectionClick(ed: Editor, h: Hole, newId: string, v: Cancellation)
    requires ed.ctl.mode == NotCreating && ed.ctl.firstHole.Some?
    requires ed.ctl.movingComponentId == None && ed.ctl.movingConnectionId.Some?
    ensures var r := StandardClick(ed, h, newId, v);
            var wid := ed.ctl.movingConnectionId.value;
            var id := HoleId(h);
            r.ctl.firstHole == None && r.board.components == ed.board.components
            && (HoleId(ed.ctl.firstHole.value) == id ==>
                  r.board.connections == DeleteConnection(ed.board, wid).connections)
            && (HoleId(ed.ctl.firstHole.value) != id && (IsHoleOccupied(ed.board, id) || ed.ctl.flashActive) ==>
                  r.board.connections == ed.board.connections)
            && (HoleId(ed.ctl.firstHole.value) != id && !IsHoleOccupied(ed.board, id) && !ed.ctl.flashActive ==>
                  r.board.connections ==
                    UpdateConnectionColor(MoveConnection(ed.board, wid, ed.ctl.originalHoleId, id),
                                          wid, ColorName(ed.ctl.wireColor)).connections)
  {
  }

  /** A second click while drawing adds a wire exactly when the target is
      unoccupied and no short is flashing; the wire runs from the first
      hole to the clicked one through the waypoints, in the current color. */
  lemma NewWireClick(ed: Editor, h: Hole, newId: string, v: Cancellation)
    requires ed.ctl.mode == NotCreating && ed.ctl.firstHole.Some?
    requires ed.ctl.movingComponentId == None && ed.ctl.movingConnectionId == None
    ensures var r := StandardClick(ed, h, newId, v);
            var ok := !IsHoleOccupied(ed.board, HoleId(h)) && !ed.ctl.flashActive;
            r.ctl.firstHole == None && r.board.components == ed.board.components
            && (ok ==> r.board.connections == ed.board.connections +
                         [Connection(newId, HoleId(ed.ctl.firstHole.value), HoleId(h), ColorName(ed.ctl.wireColor), ed.ctl.waypoints)])
            && (!ok ==> r.board.connections == ed.board.connections)
  {
    var r := StandardClick(ed, h, newId, v);
    var ok := !IsHoleOccupied(ed.board, HoleId(h)) && !ed.ctl.flashActive;
    if ok {
      var n := |ed.board.connections|;
      assert r.board.connections == r.board.connections[..n] + [r.board.connections[n]];
    }
  }

  /** An idle click picks up a component before a wire end, and only an
      unoccupied hole starts a new wire. */
  lemma IdleClickPrecedence(ed: Editor, h: Hole, newId: string, v: Cancellation)
    requires ed.ctl.mode == NotCreating && ed.ctl.firstHole == None
    ensures var r := StandardClick(ed, h, newId, v);
            var id := HoleId(h);
            var bd := ed.board;
            ((exists k :: 0 <= k < |bd.components| && id in bd.components[k].pins) ==>
               r.ctl.movingComponentId == Some(bd.components[ComponentAt(bd.components, id).value].id)
               && r.ctl.originalHoleId == id && r.board.movingComponentId == r.ctl.movingComponentId.value)
            && ((forall k :: 0 <= k < |bd.components| ==> id !in bd.components[k].pins)
                && (exists k :: 0 <= k < |bd.connections| && (bd.connections[k].a == id || bd.connections[k].b == id)) ==>
                  r.ctl.movingConnectionId == Some(bd.connections[ConnectionAt(bd.connections, id).value].id)
                  && r.ctl.movingComponentId == ed.ctl.movingComponentId)
            && ((forall k :: 0 <= k < |bd.components| ==> id !in bd.components[k].pins)
                && (forall k :: 0 <= k < |bd.connections| ==> bd.connections[k].a != id && bd.connections[k].b != id) ==>
                  (r.ctl.firstHole == Some(h) <==> !IsHoleOccupied(bd, id)))
  {
    var id := HoleId(h);
    var bd := ed.board;
    IdleIsStandard(ed, h, newId, v);
    if exists k :: 0 <= k < |bd.components| && id in bd.components[k].pins {
      IdlePicksComponent(ed, h);
    } else if exists k :: 0 <= k < |bd.connections| && (bd.connections[k].a == id || bd.connections[k].b == id) {
      IdlePicksConnection(ed, h);
    } else {
      IdleStartsWire(ed, h);
    }
  }

  lemma IdleIsStandard(ed: Editor, h: Hole, newId: string, v: Cancellation)
    requires ed.ctl.mode == NotCreating && ed.ctl.firstHole == None
    ensures StandardClick(ed, h, newId, v) == IdleClick(ed, h)
  {
  }

  lemma IdlePicksComponent(ed: Editor, h: Hole)
    requires exists k :: 0 <= k < |ed.board.components| && HoleId(h) in ed.board.components[k].pins
    ensures var r := IdleClick(ed, h);
            var bd := ed.board;
            ComponentAt(bd.components, HoleId(h)).Some?
            && r.ctl.movingComponentId == Some(bd.components[ComponentAt(bd.components, HoleId(h)).value].id)
            && r.ctl.originalHoleId == HoleId(h) && r.board.movingComponentId == r.ctl.movingComponentId.value
  {
  }

  lemma IdlePicksConnection(ed: Editor, h: Hole)
    requires forall k :: 0 <= k < |ed.board.components| ==> HoleId(h) !in ed.board.components[k].pins
    requires exists k :: 0 <= k < |ed.board.connections|
               && (ed.board.connections[k].a == HoleId(h) || ed.board.connections[k].b == HoleId(h))
    ensures var r := IdleClick(ed, h);
            var bd := ed.board;
            ConnectionAt(bd.connections, HoleId(h)).Some?
            && r.ctl.movingConnectionId == Some(bd.connections[ConnectionAt(bd.connections, HoleId(h)).value].id)
            && r.ctl.movingComponentId == ed.ctl.movingComponentId
  {
    assert ComponentAt(ed.board.components, HoleId(h)).None?;
  }

  lemma IdleStartsWire(ed: Editor, h: Hole)
    requires forall k :: 0 <= k < |ed.board.components| ==> HoleId(h) !in ed.board.components[k].pins
    requires forall k :: 0 <= k < |ed.board.connections| ==>
               ed.board.connections[k].a != HoleId(h) && ed.board.connections[k].b != HoleId(h)
    ensures IdleClick(ed, h).ctl.firstHole == Some(h) <==> !IsHoleOccupied(ed.board, HoleId(h))
  {
    assert ComponentAt(ed.board.components, HoleId(h)).None?;
    assert ConnectionAt(ed.board.connections, HoleId(h)).None?;
  }

  // ---------------------------------------------------------------------
  // Hit testing and events
  // ---------------------------------------------------------------------

  /** Whether the cursor is on the hole: its distance to the hole centre
      is below half the hole size (compared squared, which is exact for
      integer coordinates). */
  predicate Near(h: Hole, p: Point)
  {
    (p.x - h.x) * (p.x - h.x) + (p.y - h.y) * (p.y - h.y) < (HOLE_SIZE / 2) * (HOLE_SIZE / 2)
  }

  function NearInRow(row: seq<Hole>, p: Point): (r: Option<Hole>)
    ensures r.Some? ==> r.value in row && Near(r.value, p)
    ensures r.None? ==> forall h :: h in row ==> !Near(h, p)
  {
    if |row| == 0 then None
    else if Near(row[0], p) then Some(row[0])
    else
      assert forall h :: h in row ==> h == row[0] || h in row[1..];
      NearInRow(row[1..], p)
  }

  /** The hole-scanning loop: the first hole, in row order, under the cursor. */
  function NearHole(rows: seq<seq<Hole>>, p: Point): (r: Option<Hole>)
    ensures r.Some? ==> Near(r.value, p) && exists i :: 0 <= i < |rows| && r.value in rows[i]
    ensures r.None? ==> forall i, h :: 0 <= i < |rows| && h in rows[i] ==> !Near(h, p)
  {
    if |rows| == 0 then None
    else
      var r := NearInRow(rows[0], p);
      if r.Some? then r
      else
        assert forall i :: 1 <= i < |rows| ==> rows[i] == rows[1..][i - 1];
        NearHole(rows[1..], p)
  }

  /** The hole under the cursor, looked up again by its id as the source
      does. */
  function HitHole(p: Point): (r: Option<Hole>)
    ensures r.Some? ==> IsBuilt(r.value) && Near(r.value, p)
  {
    match NearHole(Grid(), p)
    case None => None
    case Some(h) =>
      var i :| 0 <= i < 14 && h in Grid()[i];
      var c :| 0 <= c < COLUMNS && Grid()[i][c] == h;
      assert GridHole(i, c) == h;
      FindHoleRoundTrip(h);
      FindHole(Grid(), HoleId(h))
  }

  lemma SmallSquare(d: int)
    ensures d * d >= 0
    ensures d * d < 36 ==> -6 < d < 6
  {
    if d >= 6 {
      assert d * d >= 6 * d;
    } else if d <= -6 {
      assert d * d >= -6 * d;
    } else if d < 0 {
      assert d * d == (-d) * (-d);
    }
  }

  /** A hole under the cursor lies within 6 units on each axis. */
  lemma NearBounds(h: Hole, p: Point)
    requires Near(h, p)
    ensures -6 < p.x - h.x < 6 && -6 < p.y - h.y < 6
  {
    SmallSquare(p.x - h.x);
    SmallSquare(p.y - h.y);
  }

  lemma RowsApart(i: int, j: int)
    requires 0 <= i < j < 14
    ensures GridHole(j, 0).y - GridHole(i, 0).y >= HOLE_GAP
  {
  }

  /** Holes are far enough apart that at most one is under the cursor. */
  lemma HitIsUnique(p: Point, i: int, c: int, i': int, c': int)
    requires 0 <= i < 14 && 0 <= c < COLUMNS && 0 <= i' < 14 && 0 <= c' < COLUMNS
    requires Near(GridHole(i, c), p) && Near(GridHole(i', c'), p)
    ensures i == i' && c == c'
  {
    NearBounds(GridHole(i, c), p);
    NearBounds(GridHole(i', c'), p);
    assert GridHole(i, c).y == GridHole(i, 0).y && GridHole(i', c').y == GridHole(i', 0).y;
    if i < i' {
      RowsApart(i, i');
    } else if i' < i {
      RowsApart(i', i);
    }
    assert GridHole(i, c).x == START_X + HOLE_GAP * c && GridHole(i', c').x == START_X + HOLE_GAP * c';
  }

  datatype Button = LeftButton | RightButton | OtherButton

  /** handleMousePressEvent. */
  function MousePress(ed: Editor, button: Button, ctrl: bool, p: Point, newId: string, v: Cancellation): (r: Editor)
  {
    if button == RightButton then CancelCreation(ed, v)
    else if ed.ctl.firstHole.Some? && ctrl then Editor(ed.board, ed.ctl.(waypoints := ed.ctl.waypoints + [p]))
    else
      match HitHole(p)
      case None => CancelCreation(ed, v)
      case Some(h) =>
        if ctrl && ed.ctl.firstHole.None? then ComponentCreationClick(ed, h, ctrl)
        else StandardClick(ed, h, newId, v)
  }

  /** A right click cancels; a control-click while drawing only records a
      waypoint; a click off the grid cancels. */
  lemma MousePressRouting(ed: Editor, button: Button, ctrl: bool, p: Point, newId: string, v: Cancellation)
    ensures button == RightButton ==> MousePress(ed, button, ctrl, p, newId, v) == CancelCreation(ed, v)
    ensures button != RightButton && ed.ctl.firstHole.Some? && ctrl ==>
              MousePress(ed, button, ctrl, p, newId, v).board == ed.board
              && MousePress(ed, button, ctrl, p, newId, v).ctl.waypoints == ed.ctl.waypoints + [p]
    ensures button != RightButton && !(ed.ctl.firstHole.Some? && ctrl)
            && (forall i, c :: 0 <= i < 14 && 0 <= c < COLUMNS ==> !Near(GridHole(i, c), p)) ==>
              MousePress(ed, button, ctrl, p, newId, v) == CancelCreation(ed, v)
  {
    if button != RightButton && !(ed.ctl.firstHole.Some? && ctrl)
       && (forall i, c :: 0 <= i < 14 && 0 <= c < COLUMNS ==> !Near(GridHole(i, c), p)) {
      assert HitHole(p) == None;
    }
  }

  /** A positive hole paired with a negative one. */
  predicate IsShort(first: Hole, hover: Option<Hole>)
  {
    hover.Some? && ((IsPositiveHole(first) && IsNegativeHole(hover.value))
                    || (IsNegativeHole(first) && IsPositiveHole(hover.value)))
  }

  /** The wire color while drawing: red if either end is positive, else
      black if either end is negative, else white. */
  function WireColorFor(first: Hole, hover: Option<Hole>): Color
  {
    if IsPositiveHole(first) || (hover.Some? && IsPositiveHole(hover.value)) then Red
    else if IsNegativeHole(first) || (hover.Some? && IsNegativeHole(hover.value)) then Black
    else White
  }

  /** handleMouseMoveEvent: track the cursor and the hovered hole; while
      drawing, a short starts the flash and anything else stops it and
      colours the wire. */
  function MouseMove(ed: Editor, p: Point): (r: Editor)
    ensures r.board == ed.board
    ensures r.ctl.mousePos == p
  {
    var hover := HitHole(p);
    var c := ed.ctl.(mousePos := p, hoverHole := hover);
    if c.firstHole.Some? then
      if IsShort(c.firstHole.value, hover) then Editor(ed.board, c.(flashActive := true))
      else Editor(ed.board, c.(flashActive := false, wireColor := WireColorFor(c.firstHole.value, hover)))
    else Editor(ed.board, c.(flashActive := false))
  }

  /** The flash runs after a move exactly when a wire is being drawn over
      a short; a non-short never leaves the wire flashing, and a short
      keeps the previous color. */
  lemma MouseMoveFlash(ed: Editor, p: Point)
    ensures var r := MouseMove(ed, p);
            (r.ctl.flashActive <==> ed.ctl.firstHole.Some? && IsShort(ed.ctl.firstHole.value, r.ctl.hoverHole))
            && (r.ctl.flashActive ==> r.ctl.wireColor == ed.ctl.wireColor)
            && (ed.ctl.firstHole.Some? && !r.ctl.flashActive ==>
                  r.ctl.wireColor == WireColorFor(ed.ctl.firstHole.value, r.ctl.hoverHole))
  {
  }

  /** A short is only possible between the two rails of opposite sign, and
      its color while not flashing would be red. */
  lemma ShortColors(first: Hole, hover: Option<Hole>)
    requires IsShort(first, hover)
    ensures IsPowerBand(first.band) && IsPowerBand(hover.value.band)
    ensures WireColorFor(first, hover) == Red
  {
  }

  /** toggleFlashColor: red when the flag was set, black otherwise, then
      flip the flag. */
  function ToggleFlashColor(c: Ctl): (r: Ctl)
    ensures r.flashState == !c.flashState
    ensures r.wireColor == (if c.flashState then Red else Black)
    ensures r.(wireColor := c.wireColor, flashState := c.flashState) == c
  {
    c.(wireColor := if c.flashState then Red else Black, flashState := !c.flashState)
  }

  /** Consecutive ticks alternate red and black and restore the flag. */
  lemma FlashAlternates(c: Ctl)
    ensures ToggleFlashColor(ToggleFlashColor(c)).flashState == c.flashState
    ensures ToggleFlashColor(c).wireColor != ToggleFlashColor(ToggleFlashColor(c)).wireColor
  {
  }

  // ---------------------------------------------------------------------
  // Reachable states
  // ---------------------------------------------------------------------

  /** The controller invariant: the two-pin mode is never entered; a
      creation mode holds at least one pin and no first hole; idle holds
      no pins; pin ids are distinct. */
  predicate Inv(c: Ctl)
  {
    c.mode != CreatingTwoPin
    && (c.mode == NotCreating ==> |c.pins| == 0)
    && (c.mode == CreatingMultiPin ==> |c.pins| >= 1 && c.firstHole == None)
    && PinsDistinct(c.pins)
  }

  lemma InitialInv()
    ensures Inv(Initial().ctl)
  {
  }

  lemma StandardClickInv(ed: Editor, h: Hole, newId: string, v: Cancellation)
    requires Inv(ed.ctl)
    ensures Inv(StandardClick(ed, h, newId, v).ctl)
  {
  }

  /** Every event keeps the invariant. */
  lemma MousePressInv(ed: Editor, button: Button, ctrl: bool, p: Point, newId: string, v: Cancellation)
    requires Inv(ed.ctl)
    ensures Inv(MousePress(ed, button, ctrl, p, newId, v).ctl)
  {
    if button != RightButton && !(ed.ctl.firstHole.Some? && ctrl) {
      match HitHole(p)
      case None =>
      case Some(h) =>
        if ctrl && ed.ctl.firstHole.None? {
          ComponentCreationClickRules(ed, h);
        } else {
          StandardClickInv(ed, h, newId, v);
        }
    }
  }

  lemma MouseMoveInv(ed: Editor, p: Point)
    requires Inv(ed.ctl)
    ensures Inv(MouseMove(ed, p).ctl)
  {
  }

  lemma ToggleInv(c: Ctl)
    requires Inv(c)
    ensures Inv(ToggleFlashColor(c))
  {
  }

  // ---------------------------------------------------------------------
  // The moving component stays hidden after the drag
  // ---------------------------------------------------------------------

  /** As written, cancelCreation resets the controller's moving ids but not
      the model's: after a component is picked up and dropped on a free
      hole, the model still treats it as moving, so the holes it now
      occupies read as free and a wire can be drawn onto its pins. */
  lemma MovedComponentUnoccupiedAsWritten()
    ensures var a := Hole(TermTop, 0, 0, 60, 132);
            var b := Hole(TermTop, 1, 0, 60, 150);
            var d := Hole(TermTop, 0, 5, 150, 132);
            var ed0 := Editor(AddComponent(NewBoard(), "u", [HoleId(a), HoleId(b)]), Initial().ctl);
            var ed1 := StandardClick(ed0, a, "w", ControllerOnly);
            var ed2 := StandardClick(ed1, d, "w", ControllerOnly);
            ed2.board.components == [Component("u", [HoleId(d), HoleId(b)])]
            && ed2.ctl.firstHole == None && ed2.ctl.movingComponentId == None
            && !IsHoleOccupied(ed2.board, HoleId(d))
  {
    var a := Hole(TermTop, 0, 0, 60, 132);
    var b := Hole(TermTop, 1, 0, 60, 150);
    var d := Hole(TermTop, 0, 5, 150, 132);
    PickUpExample(ControllerOnly);
    HoleIdsDiffer(a, d);
    HoleIdsDiffer(b, d);
    var ed0 := Editor(AddComponent(NewBoard(), "u", [HoleId(a), HoleId(b)]), Initial().ctl);
    var ed1 := StandardClick(ed0, a, "w", ControllerOnly);
    LoneComponentOccupancy("u", HoleId(a), HoleId(b), HoleId(d));
    DropComponent(ed1, d, "w", ControllerOnly);
    MoveFirstPin("u", HoleId(a), HoleId(b), HoleId(d));
    LoneComponentOccupancy("u", HoleId(d), HoleId(b), HoleId(d));
  }

  lemma HoleIdsDiffer(h1: Hole, h2: Hole)
    requires h1.band != h2.band || h1.r != h2.r || h1.c != h2.c
    ensures HoleId(h1) != HoleId(h2)
  {
    if HoleId(h1) == HoleId(h2) {
      HoleIdInjective(h1, h2);
    }
  }

  /** Picking up the two-pin component of the drag examples by its first
      pin: the other pin becomes the anchor, the component is marked as
      moving in the controller and the model, and the board's parts are
      unchanged. */
  lemma PickUpExample(v: Cancellation)
    ensures var a := Hole(TermTop, 0, 0, 60, 132);
            var b := Hole(TermTop, 1, 0, 60, 150);
            var ed0 := Editor(AddComponent(NewBoard(), "u", [HoleId(a), HoleId(b)]), Initial().ctl);
            var ed1 := StandardClick(ed0, a, "w", v);
            ed1.ctl.mode == NotCreating && ed1.ctl.firstHole == Some(b)
            && ed1.ctl.movingComponentId == Some("u") && ed1.ctl.originalHoleId == HoleId(a)
            && ed1.board == Board([], [Component("u", [HoleId(a), HoleId(b)])], "", "u")
  {
    var a := Hole(TermTop, 0, 0, 60, 132);
    var b := Hole(TermTop, 1, 0, 60, 150);
    assert GridHole(3, 0) == b;
    assert IsBuilt(b);
    FindHoleRoundTrip(b);
    HoleIdsDiffer(a, b);
    var ed0 := Editor(AddComponent(NewBoard(), "u", [HoleId(a), HoleId(b)]), Initial().ctl);
    assert ComponentAt(ed0.board.components, HoleId(a)) == Some(0);
    assert FirstOtherPin([HoleId(a), HoleId(b)], HoleId(a)) == Some(HoleId(b));
  }

  /** Dropping a picked-up component on a free hole other than its anchor
      moves its pin there and ends the drag. */
  lemma DropComponent(ed: Editor, h: Hole, newId: string, v: Cancellation)
    requires ed.ctl.mode == NotCreating && ed.ctl.firstHole.Some? && ed.ctl.movingComponentId.Some?
    requires HoleId(ed.ctl.firstHole.value) != HoleId(h) && !IsHoleOccupied(ed.board, HoleId(h))
    ensures var r := StandardClick(ed, h, newId, v);
            r.board.components
              == MoveComponent(ed.board, ed.ctl.movingComponentId.value, ed.ctl.originalHoleId, HoleId(h)).components
            && r.board.connections == ed.board.connections
            && r.ctl.firstHole == None && r.ctl.movingComponentId == None
            && (v == ControllerOnly ==> r.board.movingComponentId == ed.board.movingComponentId)
            && (v == ReleaseModel ==> r.board.movingComponentId == "")
  {
  }

  /** A board whose only part is the moving component has no occupied
      hole; once the component is released, its pins are occupied. */
  lemma LoneComponentOccupancy(cid: string, p: string, q: string, id: string)
    requires cid != ""
    ensures !IsHoleOccupied(Board([], [Component(cid, [p, q])], "", cid), id)
    ensures IsHoleOccupied(Board([], [Component(cid, [p, q])], "", ""), p)
  {
    assert p in [p, q];
  }

  /** Moving the first pin of a lone two-pin component. */
  lemma MoveFirstPin(cid: string, p: string, q: string, r: string)
    ensures MoveInComponents([Component(cid, [p, q])], cid, p, r) == [Component(cid, [r, q])]
  {
    assert ReplaceFirst([p, q], p, r) == [r, q];
  }

  /** With the model's moving ids released on cancel, every click that
      ends a creation or a drag leaves nothing marked as moving in the
      model. */
  lemma CancelReleasesMovingIds(ed: Editor, h: Hole, newId: string)
    requires ed.ctl.mode != NotCreating || ed.ctl.firstHole.Some?
    ensures var r := StandardClick(ed, h, newId, ReleaseModel);
            r.board.movingComponentId == "" && r.board.movingConnectionId == ""
            && r.ctl.firstHole == None && r.ctl.mode == NotCreating
  {
  }

  /** The same drag with the release: the dropped component occupies the
      hole it was moved to. */
  lemma MovedComponentOccupiedCorrected()
    ensures var a := Hole(TermTop, 0, 0, 60, 132);
            var b := Hole(TermTop, 1, 0, 60, 150);
            var d := Hole(TermTop, 0, 5, 150, 132);
            var ed0 := Editor(AddComponent(NewBoard(), "u", [HoleId(a), HoleId(b)]), Initial().ctl);
            var ed1 := StandardClick(ed0, a, "w", ReleaseModel);
            var ed2 := StandardClick(ed1, d, "w", ReleaseModel);
            ed2.board.components == [Component("u", [HoleId(d), HoleId(b)])]
            && IsHoleOccupied(ed2.board, HoleId(d))
  {
    var a := Hole(TermTop, 0, 0, 60, 132);
    var b := Hole(TermTop, 1, 0, 60, 150);
    var d := Hole(TermTop, 0, 5, 150, 132);
    PickUpExample(ReleaseModel);
    HoleIdsDiffer(a, d);
    HoleIdsDiffer(b, d);
    var ed0 := Editor(AddComponent(NewBoard(), "u", [HoleId(a), HoleId(b)]), Initial().ctl);
    var ed1 := StandardClick(ed0, a, "w", ReleaseModel);
    LoneComponentOccupancy("u", HoleId(a), HoleId(b), HoleId(d));
    DropComponent(ed1, d, "w", ReleaseModel);
    MoveFirstPin("u", HoleId(a), HoleId(b), HoleId(d));
    LoneComponentOccupancy("u", HoleId(d), HoleId(b), HoleId(d));
  }
}
