# RapCAD core, modelled in Dafny

This project models the self-contained logic of RapCAD, a programmable
CAD tool whose scripts describe solids. RapCAD evaluates a script into a
tree of nodes and renders or exports that tree. Each area below is a
Dafny module, and each module has its own file. The operations are pure
functions, or methods over immutable data. Each operation comes with its
contract and with lemmas that relate it to a reference definition, to
its inverse or to an invariant it keeps.

- **Silent-installer automation driver** (`Automation`, from
  scripts/vbox/QtSilentInstall/Program.cs). This is an accessibility tree
  of element handles with three match predicates. The pre-order search
  returns the first match. The window filter picks the window that
  belongs to the installer's process. The two-phase poll loop waits for
  that window, then for a match. The entry point returns fixed exit codes.
- **Breadboard** (`Breadboard`, `BreadboardControl`, from
  lib/src/breadboardmodel.cpp and lib/src/breadboardcontroller.cpp).
  The model covers:
  - the 14-row hole grid, hole ids and their lookup;
  - occupancy, groups and polarity;
  - adding, moving and deleting wires and components;
  - the mouse-driven editing state machine.
- **Printers and serialisers.** These cover:
  - the syntax-tree pretty printer (`TreePrinter`, over the syntax tree
    `Syntax`);
  - the SolidPython exporter (`SolidPython`);
  - the node printer (`NodePrinter`);
  - primitives (`PrimitiveNode`) and their text form;
  - the 4x4 matrix (`TransformMatrix`);
  - trailing-zero trimming of numbers (`Decimal`, `Point`);
  - the reporter's timing and error lines (`Reporter`);
  - the AsciiDoc documentation printer (`Asciidoc`);
  - the scoped symbol table (`Layout`).
- **Values.** These cover:
  - the text form of values and element-wise vector arithmetic (`Values`);
  - intervals (`IntervalValue`);
  - ranges and their iterator (`RangeValue`);
  - complex values and quaternions (`ComplexValue`);
  - the operator table (`Operators`);
  - the `is_mat4x4` built-in (`IsMat4x4`).
- **Mesh modules.** Coordinates are reals, and sine and cosine are
  uninterpreted. The shared helpers are in `Mesh` and `PrimitiveModule`.
  The modules are:
  - `Cube`, `Sphere`, `Cylinder`, `Cone` (their side walls are in
    `Frustum`), `Prism` and `RegularPolygon`;
  - `PolygonModule`, `PolyhedronModule` and `PointsModule`;
  - `MultMatrix` and `Scale`;
  - the simple text builder (`SimpleText`).
- **User interface state.** These cover:
  - the camera (`Camera`);
  - the console's prompt and history (`Console`);
  - the find bar's counter and wrapping (`SearchWidget`);
  - the save-before-closing dialog (`SaveItems`);
  - the code editor's line-number gutter (`CodeEditor`).
- **Geometry helpers from contrib.** The 3D bounding box (`Bbox`) and the
  facets, cycles and switches of the OpenGL helper (`OglHelper`).

`Wrappers` holds the Option and Result types. `Text` holds the string
building blocks: integer rendering, joins and character counts.

`Automation.Children`, like `Children` in
scripts/vbox/QtSilentInstall/Program.cs:58-75, ignores the sub-item id.
Only `hasChildren` (Program.cs:50-57) checks it.

`Console.HandleReturn` moves the history position to the end only when
the command is not blank. In src/ui/console.cpp the update sits inside
the non-blank branch.

A range is a vector in the source: `RangeValue` derives from
`VectorValue` (src/rangevalue.h:24). So every `dynamic_cast` to
`VectorValue`, called "the vector cast" below, accepts a range as well
as a vector. The virtual `getChildren` then yields the range's terms.
`RangeValue.IsVector` and `RangeValue.Children` model that cast and
call, and the built-ins and modules use them. `VectorValue::getPoint` is
not part of this model. It is a parameter that reads a point from the
children, which for a range are its terms.

## Model

| member | source | states |
|---|---|---|
| Automation.Name | scripts/vbox/QtSilentInstall/Program.cs:90-103 | a null name stays null, a retrieval that throws reads as the empty string, any other name is returned as is |
| Automation.ItemOf | scripts/vbox/QtSilentInstall/Program.cs:90-131 | a described id reads the provider's item; an undescribed id reads as a retrieval that throws for the name, role 0 and no state bits |
| Automation.Role | scripts/vbox/QtSilentInstall/Program.cs:109-115 | the role the provider reports for the handle's id, 0 for an undescribed id |
| Automation.State | scripts/vbox/QtSilentInstall/Program.cs:125-131 | the state bits the provider reports for the handle's id, none for an undescribed id |
| Automation.Invisible | scripts/vbox/QtSilentInstall/Program.cs:117-123 | an element is invisible exactly when its state has the Invisible bit (0x8000) |
| Automation.Checked | scripts/vbox/QtSilentInstall/Program.cs:133-139 | an element is checked exactly when its state has the Checked bit (0x10) |
| Automation.HasChildren | scripts/vbox/QtSilentInstall/Program.cs:50-57 | a sub-item never has children; a whole-object handle has them exactly when the child count is positive |
| Automation.ObtainedValues | scripts/vbox/QtSilentInstall/Program.cs:63-66 | the output array has one slot per reported child; slots the provider filled hold its values, the others stay null |
| Automation.ElementFromObject | scripts/vbox/QtSilentInstall/Program.cs:77-88 | an int becomes a sub-item of the same object, an accessible object a whole-object handle, anything else nothing |
| Automation.CountKept | scripts/vbox/QtSilentInstall/Program.cs:67-72 | the number of values that are an id or an object, never more than the values |
| Automation.ElementsFrom | scripts/vbox/QtSilentInstall/Program.cs:67-72 | one element per value ElementFromObject keeps, and every element comes from one of the values |
| Automation.ElementsFromRanks | scripts/vbox/QtSilentInstall/Program.cs:67-72 | the element of a kept value k sits at the number of kept values before k, so the foreach keeps array order |
| Automation.KeptRanksIncrease | scripts/vbox/QtSilentInstall/Program.cs:67-72 | ranks of kept values strictly increase, so with the count they fix the list: nothing is reordered or dropped |
| Automation.Children | scripts/vbox/QtSilentInstall/Program.cs:58-75 | one child per slot of the output array holding an id or an object, never more than the reported count |
| Automation.ChildrenRanks | scripts/vbox/QtSilentInstall/Program.cs:58-88 | the child built from filled slot k sits at the number of filled slots before k, so children come in the provider's order |
| Automation.ChildrenShape | scripts/vbox/QtSilentInstall/Program.cs:58-88 | every child is a sub-item the provider listed or a whole-object handle on an object it listed |
| Automation.ChildrenIgnoreItemId | scripts/vbox/QtSilentInstall/Program.cs:58-75 | the handle's sub-item id does not change what Children returns |
| Automation.ChildrenBelowOwner | scripts/vbox/QtSilentInstall/Program.cs:58-88 | on a provider that never lists id 0, every child is a sub-item of the owner or an object listed below it |
| Automation.Descend | scripts/vbox/QtSilentInstall/Program.cs:146-161 | an element returned satisfies the predicate; a first element that matches is returned at once, before its children are searched; an empty list finds nothing |
| Automation.DescendInto | scripts/vbox/QtSilentInstall/Program.cs:152-157 | the recursive search into an element's children returns only matches, and nothing for a childless element |
| Automation.Find | scripts/vbox/QtSilentInstall/Program.cs:141-144 | an element found satisfies the predicate, and an element without children finds nothing |
| Automation.FirstMatchIsLeast | scripts/vbox/QtSilentInstall/Program.cs:146-161 | the first match is at the least index satisfying the predicate, and there is none exactly when no element satisfies it |
| Automation.DescendIsPreOrderFirstMatch | scripts/vbox/QtSilentInstall/Program.cs:146-161 | Descend returns the first match of the pre-order walk: an element before its descendants, descendants before later siblings |
| Automation.FindIsFirstDescendantMatch | scripts/vbox/QtSilentInstall/Program.cs:141-144 | Find yields the first pre-order match among the descendants, and nothing exactly when no descendant matches |
| Automation.PreOrderBelow | scripts/vbox/QtSilentInstall/Program.cs:146-161 | every element the search visits is a sub-item of the owner or lies strictly below it |
| Automation.FindSkipsRoot | scripts/vbox/QtSilentInstall/Program.cs:141-144 | the predicate is never applied to the root itself: predicates that differ only on it give the same answer |
| Automation.StartsWith | scripts/vbox/QtSilentInstall/Program.cs:167-171 | the predicate is the name predicate and the static slot now holds its prefix |
| Automation.NameMatches | scripts/vbox/QtSilentInstall/Program.cs:172-179 | an element matches exactly when it has a name, is visible and its name starts with the prefix in the slot |
| Automation.LicenseRadioMatches | scripts/vbox/QtSilentInstall/Program.cs:191-200 | an element matches exactly when it is a nameless radio button that is not checked |
| Automation.LaunchCheckBoxMatches | scripts/vbox/QtSilentInstall/Program.cs:212-221 | an element matches exactly when it is the checked "Launch Qt Creator" check box |
| Automation.NamePredicatesShareSlot | scripts/vbox/QtSilentInstall/Program.cs:164-179 | every name predicate matches against the prefix of the most recent StartsWith call, not the one it was made with |
| Automation.StaleNamePredicate | scripts/vbox/QtSilentInstall/Program.cs:164-179 | the predicate made for "Next", evaluated after StartsWith("Skip"), accepts a visible "Skip" and rejects a visible "Next" |
| Automation.EnumFindWindow | scripts/vbox/QtSilentInstall/Program.cs:235-246 | the stored handle is either the previous one or that of a window the process owns |
| Automation.EnumFindWindowFirstOwned | scripts/vbox/QtSilentInstall/Program.cs:236-246 | enumeration stores the first window the process owns, and with none it leaves the handle as it was |
| Automation.FromWindow | scripts/vbox/QtSilentInstall/Program.cs:38-49 | there is an element exactly when the window has an accessible object, and it is the whole-window handle |
| Automation.PollFind | scripts/vbox/QtSilentInstall/Program.cs:268-269 | an element a poll finds satisfies the predicate |
| Automation.FirstWindowPoll | scripts/vbox/QtSilentInstall/Program.cs:257-263 | the poll found is at or after the start and resolves a live window |
| Automation.FirstMatchPoll | scripts/vbox/QtSilentInstall/Program.cs:266-270 | the poll found is the first from the start whose search succeeds; with none found, no poll's search succeeds |
| Automation.LocateWindow | scripts/vbox/QtSilentInstall/Program.cs:256-263 | the first loop stops at the first poll that resolves the process's window |
| Automation.PollForMatch | scripts/vbox/QtSilentInstall/Program.cs:265-271 | the second loop stops at the first poll whose search finds a match, and returns that match |
| Automation.WaitFor | scripts/vbox/QtSilentInstall/Program.cs:254-272 | the result is the first match after the window was found; it satisfies the predicate, took at least two sleeps, and the time slept is the sleeps times the pause |
| Automation.WaitForDefault | scripts/vbox/QtSilentInstall/Program.cs:249-252 | the two-argument overload sleeps 100 ms per poll |
| Automation.WaitForPresentElement | scripts/vbox/QtSilentInstall/Program.cs:254-272 | with the window there at the first poll and the element at the second, the wait returns the element after exactly two sleeps |
| Automation.WaitForNoEarlier | scripts/vbox/QtSilentInstall/Program.cs:254-272 | a match that first appears at poll n is returned after at least n + 1 sleeps |
| Automation.RunStepsActions | scripts/vbox/QtSilentInstall/Program.cs:281-293 | a completed run invokes one default action per acting step, and action k is on an element that satisfies the predicate of the k-th acting step |
| Automation.ActingSteps | scripts/vbox/QtSilentInstall/Program.cs:281-293 | the steps that act, one per acting step |
| Automation.RunSteps | scripts/vbox/QtSilentInstall/Program.cs:281-293 | each step's wait consumes at least two polls (one to find the window, one to find the element), so a completed run leaves at least two polls per step fewer |
| Automation.WaitFound | scripts/vbox/QtSilentInstall/Program.cs:254-272 | the element a completed wait returns satisfies the predicate it waited for |
| Automation.ActingOneIdle | scripts/vbox/QtSilentInstall/Program.cs:281-293 | when exactly one step does not act, the acting steps are all the others, in order |
| Automation.ScriptActing | scripts/vbox/QtSilentInstall/Program.cs:282-293 | the installer acts at every step but the first wait for "Finish", in script order |
| Automation.ScriptShape | scripts/vbox/QtSilentInstall/Program.cs:282-293 | the installer waits twelve times and acts eleven times, at every step but the tenth; only the first wait for "Finish" uses the 5000 ms interval and does not act |
| Automation.Install | scripts/vbox/QtSilentInstall/Program.cs:274-297 | a wrong argument count exits with 1639 and a null argument with 160; otherwise the program exits exactly when the whole script completes, with the child's exit code, after eleven actions, each on an element its step's predicate accepts |
| Breadboard.BandName | lib/src/breadboardmodel.cpp:46-52 | a band's name is non-empty, has no colon and starts with 'p' or 't' |
| Breadboard.BandNameInjective | lib/src/breadboardmodel.cpp:46-52 | the four band names are pairwise distinct |
| Breadboard.BandKinds | lib/src/breadboardmodel.cpp:155-160 | a band counts as power exactly when its name starts with "power" and as a terminal strip exactly when it starts with "term"; every band is exactly one of the two |
| Breadboard.Grid | lib/src/breadboardmodel.cpp:25-55 | the grid has 14 rows of 30 holes, and the hole at row i and column c is the one built for that position |
| Breadboard.MakeRow | lib/src/breadboardmodel.cpp:33-44 | the rows the lambda appends are the band's rows in closed form, x advancing by the gap along a row and y by the gap after each row |
| Breadboard.BuildHoles | lib/src/breadboardmodel.cpp:25-55 | the loops build exactly the closed-form grid |
| Breadboard.GridBands | lib/src/breadboardmodel.cpp:46-52 | the grid is 2 power-top rows from y=60, 5 term-top rows from y=132, 5 term-bottom rows from y=312 and 2 power-bottom rows from y=438 |
| Breadboard.RowsTopToBottom | lib/src/breadboardmodel.cpp:30-52 | a later grid row lies strictly lower on the board than an earlier one |
| Breadboard.HoleIdInjective | lib/src/breadboardmodel.cpp:57-60 | equal ids mean equal band, row and column |
| Breadboard.HoleId | lib/src/breadboardmodel.cpp:57-60 | the id is the band name, row and column joined by ':'; equal ids mean equal holes (HoleIdInjective) |
| Breadboard.FindInRow | lib/src/breadboardmodel.cpp:65-69 | a hole found in a row is in the row and has the id; none is found exactly when no hole of the row has it |
| Breadboard.FindHole | lib/src/breadboardmodel.cpp:62-72 | a hole found is in one of the rows and has the id; none is found exactly when no hole in any row has it |
| Breadboard.FindHoleRoundTrip | lib/src/breadboardmodel.cpp:57-72 | looking up the id of any grid hole gives back that hole |
| Breadboard.FindHoleUnknown | lib/src/breadboardmodel.cpp:62-72 | an id that cannot start a band name finds nothing |
| Breadboard.GridExamples | lib/src/breadboardmodel.cpp:25-72 | "power-top:0:0" is the hole at (60, 60) and "non-existent:0:0" names no hole |
| Breadboard.SameGroupEquivalence | lib/src/breadboardmodel.cpp:155-160 | being in the same group is reflexive, symmetric and transitive |
| Breadboard.SameGroup | lib/src/breadboardmodel.cpp:155-160 | two power-rail holes share a group when they share band and row, two terminal-strip holes when they share band and column; SameGroupEquivalence shows this is an equivalence |
| Breadboard.IsPositiveHole | lib/src/breadboardmodel.cpp:162-165 | row 0 of the top rail and row 1 of the bottom rail are positive; PolarityRules shows no hole is also negative |
| Breadboard.IsNegativeHole | lib/src/breadboardmodel.cpp:167-170 | row 1 of the top rail and row 0 of the bottom rail are negative |
| Breadboard.PolarityRules | lib/src/breadboardmodel.cpp:162-170 | no hole is both positive and negative, both polarities are constant on a group, and a grid hole has a polarity exactly when it is on a power rail |
| Breadboard.SameGroupExamples | lib/src/breadboardmodel.cpp:155-160 | holes in one power row share a group; different rows, or a power and a terminal band, do not |
| Breadboard.NewBoard | lib/src/breadboardmodel.cpp:4-8 | a new model has no wires and no components |
| Breadboard.IsHoleOccupied | lib/src/breadboardmodel.cpp:74-91 | a hole is occupied exactly when a wire other than the moving one ends there or a component other than the moving one has a pin there |
| Breadboard.AddConnection | lib/src/breadboardmodel.cpp:93-96 | the wire is appended with its ends, colour and waypoints; earlier wires and the components are unchanged |
| Breadboard.AddConnectionOccupancy | lib/src/breadboardmodel.cpp:74-96 | after adding a wire both its ends are occupied and every other hole is as before |
| Breadboard.AddComponent | lib/src/breadboardmodel.cpp:98-101 | the component is appended with its pins; earlier components and the wires are unchanged |
| Breadboard.AddComponentOccupancy | lib/src/breadboardmodel.cpp:74-101 | after adding a component its pins are occupied and every other hole is as before |
| Breadboard.ReplaceFirst | lib/src/breadboardmodel.cpp:107-112 | the first occurrence of the old pin, and no other entry, becomes the new pin |
| Breadboard.FirstHolding | lib/src/breadboardmodel.cpp:105-106 | the index found is the first component with the id that has the pin; none is found exactly when no such component exists |
| Breadboard.MoveInComponents | lib/src/breadboardmodel.cpp:103-115 | the component list keeps its length and every component keeps its id; MoveComponentChangesOnePin says which pin changes |
| Breadboard.MoveComponent | lib/src/breadboardmodel.cpp:103-115 | moving a component's pin leaves the wires alone and keeps the number of components |
| Breadboard.MoveComponentChangesOnePin | lib/src/breadboardmodel.cpp:103-115 | only the first component with the id that holds the old pin changes, in that pin's first occurrence; without one nothing changes |
| Breadboard.MoveComponentOccupiesNew | lib/src/breadboardmodel.cpp:103-115 | after the move the new hole is occupied |
| Breadboard.MoveComponentFreesOld | lib/src/breadboardmodel.cpp:103-115 | a hole that only the moved pin occupied is free after the move |
| Breadboard.DeleteComponent | lib/src/breadboardmodel.cpp:117-122 | the remaining components are exactly those without the id, in their original order: a survivor sits at the number of survivors before it; the wires and moving ids are unchanged |
| Breadboard.RemoveId | lib/src/breadboardmodel.cpp:117-122 | the remove_if/erase idiom keeps exactly the elements without the id, as many as there are |
| Breadboard.RemoveIdRanks | lib/src/breadboardmodel.cpp:117-122 | each survivor lands at its rank, the number of survivors before it |
| Breadboard.RanksIncrease | lib/src/breadboardmodel.cpp:117-122 | an earlier survivor has a smaller rank than a later one, so the relative order is kept |
| Breadboard.DeleteComponentOccupancy | lib/src/breadboardmodel.cpp:117-122 | deleting occupies nothing new, and a hole that only the deleted components occupied becomes free |
| Breadboard.Clear | lib/src/breadboardmodel.cpp:124-128 | no wires and no components remain; the moving ids are kept |
| Breadboard.ClearFreesAll | lib/src/breadboardmodel.cpp:124-128 | after clearing no hole is occupied |
| Breadboard.SetMovingConnectionId | lib/src/breadboardmodel.cpp:130-133 | only the moving wire id changes |
| Breadboard.SetMovingComponentId | lib/src/breadboardmodel.cpp:135-138 | only the moving component id changes |
| Breadboard.MovingComponentIsIgnored | lib/src/breadboardmodel.cpp:82-89 | marking a component as moving frees the holes only its pins occupy |
| Breadboard.FirstConnection | lib/src/breadboardmodel.cpp:142-143 | the index found is the first wire with the id; none is found exactly when no wire has it |
| Breadboard.MoveConnection | lib/src/breadboardmodel.cpp:140-153 | with a wire of the id, the first such wire has its end moved and the moving wire id is reset to ""; with none the board is unchanged; the components and the moving component id never change |
| Breadboard.MoveConnectionEffect | lib/src/breadboardmodel.cpp:140-153 | only the first wire with the id changes: its a end if that is the old hole, otherwise its b end |
| Breadboard.MoveConnectionExample | lib/src/breadboardmodel.cpp:140-153 | dragging the b end of a wire from "power-top:0:1" to "power-top:0:2" frees the first hole and occupies the second |
| Breadboard.DeleteConnection | lib/src/breadboardcontroller.cpp:152-154 | the remaining wires are exactly those without the id, in their original order; the components and moving ids are unchanged |
| Breadboard.UpdateConnectionColor | lib/src/breadboardcontroller.cpp:156-157 | every wire with the id takes the colour and all else is unchanged |
| Breadboard.RecolorKeepsOccupancy | lib/src/breadboardcontroller.cpp:156-157 | recolouring changes no hole's occupancy |
| BreadboardControl.ColorName | lib/src/breadboardcontroller.cpp:157-164 | a colour's name is seven characters starting with '#' |
| BreadboardControl.Initial | lib/src/breadboardcontroller.h:49-59 | a new controller is not creating, has no first hole and no running flash |
| BreadboardControl.CancelCreation | lib/src/breadboardcontroller.cpp:95-103 | the mode, pins, waypoints, first hole and both moving ids are reset and every other field is kept; the source's cancel leaves the model untouched, the released one also clears the model's moving ids |
| BreadboardControl.CancelIdempotent | lib/src/breadboardcontroller.cpp:95-103 | cancelling twice is cancelling once |
| BreadboardControl.AddPin | lib/src/breadboardcontroller.cpp:115-120 | a hole whose id is not yet listed is appended, one already listed is not; the earlier pins stay in place |
| BreadboardControl.AddPinDistinct | lib/src/breadboardcontroller.cpp:115-120 | adding a pin keeps the pin ids pairwise distinct |
| BreadboardControl.PinIds | lib/src/breadboardcontroller.cpp:137-140 | the component's pin ids are the listed holes' ids, in order |
| BreadboardControl.ComponentCreationClick | lib/src/breadboardcontroller.cpp:105-122 | a creation click never changes the model |
| BreadboardControl.ComponentCreationClickRules | lib/src/breadboardcontroller.cpp:105-122 | an occupied hole is ignored; from idle a control-click on a free hole starts a multi-pin component with that one pin; pin ids stay distinct |
| BreadboardControl.ComponentAt | lib/src/breadboardcontroller.cpp:169-183 | the index found is the first component with a pin at the hole; none is found exactly when no component has one |
| BreadboardControl.ConnectionAt | lib/src/breadboardcontroller.cpp:187-204 | the index found is the first wire with an end at the hole; none is found exactly when no wire has one |
| BreadboardControl.FirstOtherPin | lib/src/breadboardcontroller.cpp:175-180 | the pin found is one of the component's pins and differs from the clicked one; none is found only when every pin is the clicked one |
| BreadboardControl.IdleClick | lib/src/breadboardcontroller.cpp:167-209 | picking up never changes the wires or the components |
| BreadboardControl.CreationModeClick | lib/src/breadboardcontroller.cpp:126-144 | in a creation mode the click ends the creation; the component is added, with its pin ids, exactly when the hole is free and enough pins are listed, and the wires never change |
| BreadboardControl.MovingComponentClick | lib/src/breadboardcontroller.cpp:146-151 | dropping a moving component on its own other pin deletes it, on a free hole moves its original pin there; the drag ends either way |
| BreadboardControl.MovingConnectionClick | lib/src/breadboardcontroller.cpp:152-158 | dropping a moving wire on its other end deletes it, on an occupied hole or during a short does nothing, otherwise moves the end and recolours the wire |
| BreadboardControl.NewWireClick | lib/src/breadboardcontroller.cpp:159-166 | a second click on a free hole, with no short flashing, appends a wire from the first hole with the current colour and waypoints; otherwise the wires are unchanged |
| BreadboardControl.IdleClickPrecedence | lib/src/breadboardcontroller.cpp:167-209 | from idle a component pin wins over a wire end, and a wire end over starting a new wire |
| BreadboardControl.IdleIsStandard | lib/src/breadboardcontroller.cpp:124-210 | with no creation and no first hole the standard click is the pick-up click |
| BreadboardControl.StandardClick | lib/src/breadboardcontroller.cpp:124-210 | the click dispatch of handleStandardClick; what each branch does is stated by CreationModeClick, MovingComponentClick, MovingConnectionClick, NewWireClick and IdleClickPrecedence |
| BreadboardControl.IdlePicksComponent | lib/src/breadboardcontroller.cpp:169-183 | clicking a component's pin picks up the first such component, records the hole and marks the component as moving in the model |
| BreadboardControl.IdlePicksConnection | lib/src/breadboardcontroller.cpp:185-204 | clicking a wire end with no component there picks up the first such wire |
| BreadboardControl.IdleStartsWire | lib/src/breadboardcontroller.cpp:205-207 | on a hole no wire or pin uses, the click starts a wire exactly when the hole is free |
| BreadboardControl.NearInRow | lib/src/breadboardcontroller.cpp:31-36 | a hole found is in the row and under the cursor; none is found exactly when no hole of the row is |
| BreadboardControl.NearHole | lib/src/breadboardcontroller.cpp:30-38 | a hole found is in the grid and under the cursor; none is found exactly when no grid hole is |
| BreadboardControl.HitHole | lib/src/breadboardcontroller.cpp:29-38 | the clicked hole is a grid hole under the cursor |
| BreadboardControl.HitIsUnique | lib/src/breadboardcontroller.cpp:32 | holes lie far enough apart that at most one is within half a hole of the cursor |
| BreadboardControl.MousePressRouting | lib/src/breadboardcontroller.cpp:14-53 | a right click cancels; a control-click while drawing adds a waypoint and leaves the model alone; a click away from every hole cancels |
| BreadboardControl.MousePress | lib/src/breadboardcontroller.cpp:14-53 | the press handler; its routing is stated by MousePressRouting and the controller invariant it keeps by MousePressInv |
| BreadboardControl.MouseMove | lib/src/breadboardcontroller.cpp:55-93 | a move records the cursor and never changes the model |
| BreadboardControl.MouseMoveFlash | lib/src/breadboardcontroller.cpp:74-92 | the flash runs exactly while drawing from one rail to the opposite one; while it runs the colour is left to the timer, otherwise the wire takes the polarity colour |
| BreadboardControl.ShortColors | lib/src/breadboardcontroller.cpp:75-83 | a short joins two power-rail holes, and its polarity colour would be red |
| BreadboardControl.IsShort | lib/src/breadboardcontroller.cpp:75 | a short is a hovered hole of the opposite polarity to the first hole |
| BreadboardControl.WireColorFor | lib/src/breadboardcontroller.cpp:82-88 | red when either end is positive, else black when either end is negative, else white; ShortColors relates it to shorts |
| BreadboardControl.ToggleFlashColor | lib/src/breadboardcontroller.cpp:212-217 | the flag flips, the colour becomes red when it was set and black otherwise, and nothing else changes |
| BreadboardControl.FlashAlternates | lib/src/breadboardcontroller.cpp:212-217 | two ticks restore the flag, and consecutive ticks show different colours |
| BreadboardControl.MousePressInv | lib/src/breadboardcontroller.cpp:14-210 | every press keeps the controller invariant: the two-pin mode is never entered, a creation holds at least one pin and no first hole, idle holds no pins, and pin ids are distinct |
| BreadboardControl.MouseMoveInv | lib/src/breadboardcontroller.cpp:55-93 | every move keeps the controller invariant |
| BreadboardControl.ToggleInv | lib/src/breadboardcontroller.cpp:212-217 | every timer tick keeps the controller invariant |
| BreadboardControl.DropComponent | lib/src/breadboardcontroller.cpp:146-151 | dropping a moving component on a free hole moves its pin there and ends the drag; only the released cancel clears the model's moving component id |
| BreadboardControl.MovedComponentUnoccupiedAsWritten | lib/src/breadboardcontroller.cpp:95-103 | as written, after a component is picked up and dropped on a free hole, the hole it now occupies still reads as free |
| BreadboardControl.CancelReleasesMovingIds | lib/src/breadboardcontroller.cpp:126-166 | with the release, every click that ends a creation or a drag leaves nothing marked as moving in the model |
| BreadboardControl.MovedComponentOccupiedCorrected | lib/src/breadboardcontroller.cpp:95-103 | with the release, the dropped component occupies the hole it was moved to |
| Layout.NewLayout | src/layout.cpp:21-25 | a new layout has no bindings, no scope and no parent |
| Layout.Chain | src/layout.cpp:32-41 | the parent chain starts at the layout itself |
| Layout.Nearest | src/layout.cpp:32-52 | the first map in the chain that binds the name, with none before it; none when no map binds it |
| Layout.LookupModule | src/layout.cpp:32-41 | a name bound here gives its module; otherwise the parent is asked, and with no parent there is none |
| Layout.LookupFunction | src/layout.cpp:43-52 | a name bound here gives its function; otherwise the parent is asked, and with no parent there is none |
| Layout.LookupModuleIsNearest | src/layout.cpp:32-41 | lookupModule returns the binding of the nearest layout in the parent chain that binds the name, and null when none does |
| Layout.LookupFunctionIsNearest | src/layout.cpp:43-52 | lookupFunction returns the binding of the nearest layout in the parent chain that binds the name, and null when none does |
| Layout.RedefinitionWarning | src/layout.cpp:58 | the warning is the fixed text around the kind and the name |
| Layout.AddModule | src/layout.cpp:54-63 | a repeated name leaves the layout unchanged and yields the warning; a new name is bound with no output |
| Layout.AddFunction | src/layout.cpp:65-74 | a repeated name leaves the layout unchanged and yields the warning; a new name is bound with no output |
| Layout.AddModuleLookup | src/layout.cpp:54-63 | after addModule the name resolves to its first definition and every other name as before |
| Layout.AddFunctionLookup | src/layout.cpp:65-74 | after addFunction the name resolves to its first definition and every other name as before |
| Layout.AddModuleTwice | src/layout.cpp:57-60 | adding a module a second time changes no binding and warns |
| Layout.InScope | src/layout.cpp:81-89 | a layout's own scope is in scope; with no parent nothing else is |
| Layout.InScopeChain | src/layout.cpp:81-89 | inScope holds exactly for the scopes of the layouts along the parent chain |
| TreePrinter.Indent | src/treeprinter.cpp:31-35 | the indent is two spaces per level and nothing else |
| TreePrinter.Modifier | src/treeprinter.cpp:50-64 | the modifier is at most one character, and empty exactly for a default instance |
| TreePrinter.Qualifier | src/treeprinter.cpp:67-71 | a namespace is written with "::" after it, and nothing is written without one |
| TreePrinter.PrintVariable | src/treeprinter.cpp:402-418 | const and param variables carry their keyword, special ones a '$' prefix, normal ones just the name |
| TreePrinter.PrintEach | src/treeprinter.cpp:37-45 | printing the statements of a scope leaves the indent level as it was |
| TreePrinter.PrintChildren | src/treeprinter.cpp:83-103 | printing an instance's children leaves the indent level as it was |
| TreePrinter.PrintFunctionBody | src/treeprinter.cpp:142-168 | a function body leaves the indent level as it was |
| TreePrinter.PrintStmt | src/treeprinter.cpp:37-395 | every statement visit leaves the indent level where it found it |
| TreePrinter.ModifierRoundTrip | src/treeprinter.cpp:47-72 | the instance modifier can be read back from the first character of the line |
| TreePrinter.ChildrenShapes | src/treeprinter.cpp:83-103 | no children print as ";" and a single child inline |
| TreePrinter.ChildrenBlockShape | src/treeprinter.cpp:86-99 | several children form a braced block whose first line is one level deeper and whose brace closes the text |
| TreePrinter.EachStartsWithIndent | src/treeprinter.cpp:89-93 | a block's statements start with the indent of their level |
| TreePrinter.AssignShape | src/treeprinter.cpp:257-279 | an assignment ends with ";\n"; increments and decrements print "++" or "--" after the variable and no value; otherwise "=" follows the variable |
| TreePrinter.ScriptImportShape | src/treeprinter.cpp:383-395 | a script import starts "use <file>" and ends with ";\n" exactly when it has a namespace |
| TreePrinter.UnaryPlacement | src/treeprinter.cpp:310-319 | a prefix operator is written before its operand and a postfix one after it |
| TreePrinter.RangeColons | src/treeprinter.cpp:294-308 | a range adds two colons with a step and one without |
| TreePrinter.JoinBalanced | src/treeprinter.cpp:281-292 | joining balanced parts with a parenthesis-free separator stays balanced |
| TreePrinter.ExprBalanced | src/treeprinter.cpp:237-356 | with parenthesis-free names and literals every printed expression has as many '(' as ')' |
| TreePrinter.ArgBalanced | src/treeprinter.cpp:246-255 | a printed argument is balanced |
| TreePrinter.ArgsBalanced | src/treeprinter.cpp:347-355 | a printed argument list is balanced |
| TreePrinter.PrintExpr | src/treeprinter.cpp:237-356 | the printed expression; ExprBalanced shows its parentheses balance |
| TreePrinter.PrintArgs | src/treeprinter.cpp:348-354 | the arguments comma-joined with no trailing comma; ArgsBalanced shows the list balances |
| TreePrinter.PrintParams | src/treeprinter.cpp:111-117 | the parameters comma-joined with no trailing comma |
| TreePrinter.PrintScript | src/treeprinter.cpp:420-426 | the declarations printed in order from indent level 0 |
| SolidPython.Emit | src/solidpython.cpp:34-38 | appending text extends the output and leaves the indent and the recorded names alone |
| SolidPython.FirstFree | src/solidpython.cpp:42-48 | the letter found is unused and every candidate before it is used; no letter is found only when all remaining candidates are used |
| SolidPython.GetVariable | src/solidpython.cpp:40-51 | the variable is one letter from 'a' to 'y' not recorded before, every earlier letter is recorded, and it is appended to the names; it throws exactly when all twenty-five letters are recorded |
| SolidPython.FreeLetters | src/solidpython.cpp:42-50 | the search fails exactly when every letter 'a'..'y' is recorded, and a letter it finds is the least unrecorded one |
| SolidPython.PyLiteral | src/solidpython.cpp:441-450 | "true" and "false" are written as Python's True and False; every other literal text is kept |
| SolidPython.PyVariable | src/solidpython.cpp:452-459 | a special variable gets a '$' before its name, any other is written as its name |
| SolidPython.PyExpr | src/solidpython.cpp:313-413 | the Python text of an expression, with Python's True and False and '$' before special variables |
| SolidPython.EmitExpr | src/solidpython.cpp:313-413 | visiting an expression keeps the indent level and the current variable |
| SolidPython.VisitStmt | src/solidpython.cpp:124-344 | a visit that does not throw leaves the indent where it found it; with restored module names it only ever adds recorded names |
| SolidPython.VisitModule | src/solidpython.cpp:157-173 | the indent is kept; with restored module names the recorded names after the definition are exactly those before it |
| SolidPython.VisitFunction | src/solidpython.cpp:175-191 | the indent is kept and the recorded names are only extended |
| SolidPython.VisitInstance | src/solidpython.cpp:124-155 | the children's deeper indent is undone, so the level is kept; names are only extended |
| SolidPython.VisitCompound | src/solidpython.cpp:217-236 | several children are indented one level deeper and the level is restored afterwards |
| SolidPython.VisitIfElse | src/solidpython.cpp:238-262 | each branch is indented one level deeper and the level is restored afterwards |
| SolidPython.VisitFor | src/solidpython.cpp:264-298 | the levels the nested for heads added are all taken off again, so the indent is kept |
| SolidPython.VisitAssign | src/solidpython.cpp:333-344 | the indent is kept and the recorded names are only extended |
| SolidPython.ForHeads | src/solidpython.cpp:269-286 | each for head after the first adds one indent level, so n heads end n - 1 levels deeper |
| SolidPython.VisitEach | src/solidpython.cpp:75-82 | a sequence of visits keeps the indent and only extends the recorded names |
| SolidPython.InstChildren | src/solidpython.cpp:142-149 | the children's visits keep the indent and only extend the recorded names |
| SolidPython.FunctionScope | src/solidpython.cpp:193-215 | the returned expression or the statements go one level deeper and the level is restored |
| SolidPython.CountInstances | src/solidpython.cpp:61-71 | the scope has no instance exactly when no declaration is one, and only instances exactly when every declaration is one; never more instances than declarations |
| SolidPython.ModuleScope | src/solidpython.cpp:53-122 | the scope's extra indent is taken off at the end, and the recorded names are only extended |
| SolidPython.ScopeAfterDryRun | src/solidpython.cpp:60-121 | after the dry run the output is reset but its names stay; the real pass ends one level up |
| SolidPython.ReturnPass | src/solidpython.cpp:74-82 | the pass for a lone final instance keeps the indent and only extends the names |
| SolidPython.BindPass | src/solidpython.cpp:83-120 | one variable per instance or for-loop, collected in order after the earlier ones; with restored module names the new variables are pairwise distinct, none was a recorded name, and all are recorded after |
| SolidPython.BindOne | src/solidpython.cpp:85-105 | a declaration gets a variable exactly when it is an instance or a for-loop; that variable was not recorded before and is recorded after |
| SolidPython.BindFresh | src/solidpython.cpp:89-102 | freshness of the bound variables carries over from the rest of the pass to the whole pass |
| SolidPython.ImportFails | src/solidpython.cpp:429-432 | a sequence of declarations holding a module import throws |
| SolidPython.ImportFailsScope | src/solidpython.cpp:429-432 | a module scope or a script with a module import at its top level throws |
| SolidPython.VisitScript | src/solidpython.cpp:465-475 | the four header lines and then the declarations; ImportFailsScope shows a module import makes it throw |
| SolidPython.SingleInstanceReturned | src/solidpython.cpp:74-82 | module m() { cube(); } becomes "def m():", "  return cube()" and the blank line |
| SolidPython.GetVariableIs | src/solidpython.cpp:40-51 | the least unrecorded letter is the one handed out, and the names grow by it |
| SolidPython.NestedModuleRebindsAsWritten | src/solidpython.cpp:157-173 | as written, a nested module definition clears the names, so the cube after it is bound to "a", the variable the script assigned, and sphere(r=a) receives the cube |
| SolidPython.NestedModuleFreshCorrected | src/solidpython.cpp:83-120 | with the names restored after the nested definition, the cube and the sphere are bound to "b" and "c" and "a" keeps its meaning |
| NodePrinter.OperationName | src/nodeprinter.cpp:63-150 | every operation's printed name is non-empty and holds no brace |
| NodePrinter.OperationNameInjective | src/nodeprinter.cpp:63-150 | no two operations share a printed name |
| NodePrinter.Block | src/nodeprinter.cpp:138-145 | the head and an opening brace come first, the children's text sits between the braces, and a closing brace ends it |
| NodePrinter.Print | src/nodeprinter.cpp:25-169 | a primitive prints as its polyhedron text; an operation starts with its name and "(){"; a transformation starts with "multmatrix([["; both end with '}' |
| NodePrinter.MatrixText | src/nodeprinter.cpp:154-164 | the entries are laid out as the rows, each comma-joined, joined by "],[" |
| NodePrinter.TransformationMatchesMatrixText | src/nodeprinter.cpp:152-169 | a transformation prints as multmatrix of the matrix's own text, then its children in braces |
| NodePrinter.PrintBalanced | src/nodeprinter.cpp:138-169 | every printed tree has as many '{' as '}' |
| NodePrinter.PrintAllBalanced | src/nodeprinter.cpp:142-143 | the children printed in turn are balanced |
| NodePrinter.PrimitiveBraceFree | src/nodeprinter.cpp:25-61 | the polyhedron text of a primitive holds no brace |
| NodePrinter.MatrixBraceFree | src/nodeprinter.cpp:154-165 | the matrix text holds no brace |
| PrimitiveNode.CreatePolygon | src/primitivenode.cpp:25-28 | one more polygon, empty, after the existing ones |
| PrimitiveNode.AppendVertex | src/primitivenode.cpp:35-38 | the point goes to the end of the last polygon; the other polygons are unchanged |
| PrimitiveNode.BuildPolygon | src/primitivenode.cpp:25-38 | createPolygon followed by appendVertex calls adds one polygon holding the points in order |
| PrimitiveNode.Vertices | src/primitivenode.cpp:45-50 | every vertex of every polygon is in the list |
| PrimitiveNode.FirstOccurrencesFacts | src/primitivenode.cpp:44-50 | the first-occurrence list has no repeats and holds exactly the points of the input |
| PrimitiveNode.DedupIsFirstOccurrences | src/primitivenode.cpp:45-50 | the contains-then-append scan computes each point at its first occurrence, in order |
| PrimitiveNode.PointList | src/primitivenode.cpp:44-50 | the point list holds every vertex exactly once, in first-occurrence order |
| PrimitiveNode.IndexOf | src/primitivenode.cpp:70 | indexOf gives the first position holding the point, and -1 exactly when it is absent |
| PrimitiveNode.IndexList | src/primitivenode.cpp:66-72 | one index per vertex of the polygon, each its position in the point list |
| PrimitiveNode.IndexRoundTrip | src/primitivenode.cpp:40-77 | every printed index is in range and looking the indices up in the point list rebuilds each polygon |
| PrimitiveNode.ToString | src/primitivenode.cpp:40-77 | the text is the point texts comma-joined, then the index lists comma-joined, inside the polyhedron call |
| PrimitiveNode.IndexListTextIsJoin | src/primitivenode.cpp:65-73 | an index list prints as its indices comma-joined in brackets |
| TransformMatrix.Row | src/transformmatrix.cpp:34-52 | row r holds entries 4r to 4r+3 of the array |
| TransformMatrix.Default | src/transformmatrix.cpp:21-27 | all entries zero except the last, which is one |
| TransformMatrix.FromEntries | src/transformmatrix.cpp:29-53 | the argument mRC lands in row R, column C |
| TransformMatrix.GetValues | src/transformmatrix.cpp:55-58 | the returned array is the matrix read row by row |
| TransformMatrix.SetValues | src/transformmatrix.cpp:60-64 | the first sixteen values are copied in order |
| TransformMatrix.SetGetRoundTrip | src/transformmatrix.cpp:55-64 | setValues then getValues gives the first sixteen values back, and setting a matrix's own values gives that matrix |
| TransformMatrix.RowStartIsMultipleOfFour | src/transformmatrix.cpp:72 | within the sixteen entries the new-row separator falls where i % 4 is zero |
| TransformMatrix.RowStep | src/transformmatrix.cpp:70-79 | the loop writes each row as its entries joined by commas |
| TransformMatrix.EntriesLoopIsRows | src/transformmatrix.cpp:70-79 | the separator loop lays the entries out as the rows joined by "],[" |
| TransformMatrix.EntryTexts | src/transformmatrix.cpp:77 | entry i is printed by the number formatter |
| TransformMatrix.ToString | src/transformmatrix.cpp:66-82 | the text is the rows, each comma-joined, joined by "],[" inside double brackets |
| Decimal.AmountToChop | src/decimal.cpp:21-37 | the chop never exceeds the string; the chopped tail is zeros, possibly ending at a point; the character before a run of zeros is neither zero nor a point |
| Decimal.Trim | src/decimal.cpp:54-58 | trimming keeps a prefix of the rendering |
| Decimal.ToStringWith | src/decimal.cpp:49-61 | the result is a prefix of the formatter's output, all of it without trimming and shorter by the chop with it |
| Decimal.ToString | src/decimal.cpp:39-42 | the one-argument form is the sixteen-digit rendering, trimmed |
| Decimal.ToStringPrecision | src/decimal.cpp:44-47 | the two-argument form is the formatter's output untouched |
| Decimal.ChopDigits | src/decimal.cpp:26-35 | on a run of digits the chop is everything exactly when all are zeros, and what it removes is zeros |
| Decimal.TrimFixed | src/decimal.cpp:21-37 | trimming "ip.fp" drops the point when the fraction is all zeros and otherwise keeps the fraction up to its last non-zero digit |
| Decimal.SuffixChop | src/decimal.cpp:26-35 | the scan stops inside the fraction unless the whole fraction is zeros |
| Decimal.TrimmedHasNoTrailingZeros | src/decimal.cpp:49-61 | a trimmed rendering neither ends in a point nor keeps a trailing zero after its point |
| Point.Equal | src/point.cpp:21-24 | component-wise equality is equality of points |
| Point.GetXYZ | src/point.cpp:41-46 | the three components rebuild the point |
| Point.GetXY | src/point.cpp:48-52 | the first two components, with the point's z, rebuild the point |
| Point.CoordString | src/point.cpp:68-87 | a coordinate is the sixteen-digit rendering with its trailing zeros chopped, the same as the one-argument decimal to_string |
| Point.ToString | src/point.cpp:54-66 | the text is the three coordinate renderings joined by commas inside brackets |
| Point.ToStringFields | src/point.cpp:54-66 | two points with the same text have the same coordinate renderings, since the renderings hold no comma |
| Reporter.CDiv | src/reporter.cpp:35-39 | C++ int division truncates toward zero: the quotient times the divisor is within one divisor of the dividend, on the dividend's side of zero |
| Reporter.CMod | src/reporter.cpp:34-38 | C++ int remainder: quotient times divisor plus remainder is the dividend, and the remainder has the dividend's sign and is smaller than the divisor |
| Reporter.Decompose | src/reporter.cpp:33-40 | the hours, minutes, seconds and milliseconds recombine to the elapsed ticks; for a non-negative count each is within its bound, for a negative one each is non-positive |
| Reporter.DecomposeUnique | src/reporter.cpp:33-40 | for a non-negative count the decomposition is the only mixed-radix form within the bounds |
| Reporter.TimingLineInjective | src/reporter.cpp:41 | the timing line determines its four numbers |
| Reporter.ReportTimingInjective | src/reporter.cpp:31-44 | different tick counts give different timing lines |
| Reporter.TimingLine | src/reporter.cpp:41 | the line starts "Total compiling time: "; TimingLineInjective shows it determines its four numbers |
| Reporter.ReportTiming | src/reporter.cpp:31-44 | the line of the decomposed tick count |
| Reporter.SyntaxError | src/reporter.cpp:46-51 | a syntax error line starts with "line " |
| Reporter.SyntaxErrorLine | src/reporter.cpp:50 | the line number can be read back from a syntax error line |
| Reporter.LexicalError | src/reporter.cpp:53-57 | the lexical error line is longer than its token by the fixed text |
| Reporter.LexicalErrorInjective | src/reporter.cpp:56 | a lexical error line determines both the line number and the token |
| Reporter.FileMissingError | src/reporter.cpp:59-62 | the missing-file line holds the path between fixed quotes, at a fixed offset |
| Values.Strings | src/vectorvalue.cpp:31-35 | one string per child, in the children's order |
| Values.ValueString | src/vectorvalue.cpp:27-38 | getValueString of every kind of value; the vector and complex cases are stated as joins by VectorStringIsJoin and ComplexStringIsJoin |
| Values.RangeString | src/rangevalue.cpp:31-43 | the text of a range is bracketed; RangeStringColons counts its colons |
| Values.IntervalString | src/intervalvalue.cpp:27-33 | the midpoint, '±' and the half width; StringCentres shows they give back the endpoints |
| Values.VectorStringIsJoin | src/vectorvalue.cpp:27-38 | a vector prints as its children's strings joined by commas inside brackets |
| Values.ComplexStringIsJoin | src/complexvalue.cpp:30-42 | a complex value prints as its real part and imaginary parts joined by commas inside angle brackets |
| Values.Combine | src/vectorvalue.cpp:40-70 | number with number is the sum or difference; a vector on the left always gives a vector |
| Values.VectorCombine | src/vectorvalue.cpp:40-70 | with a vector: pairs up to the shorter length, element-wise; with a number: every element against it; otherwise empty |
| Values.BroadcastRoundTrip | src/vectorvalue.cpp:48-52 | adding a number to a numeric vector and subtracting it again gives the vector back |
| Values.AddCommutes | src/vectorvalue.cpp:44-47 | element-wise addition of numeric vectors, truncation included, does not depend on operand order |
| Values.SubtractSelf | src/vectorvalue.cpp:60-63 | a vector minus itself is one zero per element |
| IntervalValue.Unary | src/intervalvalue.cpp:35-47 | plus is the identity; minus gives the interval containing exactly the negated points; anything else is undefined |
| IntervalValue.NegateTwice | src/intervalvalue.cpp:40-44 | negating twice gives the interval back |
| IntervalValue.Min4 | src/intervalvalue.cpp:91 | the least of the four corner values, and one of them |
| IntervalValue.Max4 | src/intervalvalue.cpp:92 | the greatest of the four corner values, and one of them |
| IntervalValue.Binary | src/intervalvalue.cpp:58-98 | equality and inequality compare both endpoints; sum and difference keep ordered endpoints ordered; the product runs from the least to the greatest of a·c, a·d, b·c and b·d, and the quotient from the least to the greatest of the four corner quotients; other operators are undefined |
| IntervalValue.Hull4 | src/intervalvalue.cpp:86-94 | the interval from the least to the greatest of the four corners: no corner lies outside it and both endpoints are corners |
| IntervalValue.DivideIsHull | src/intervalvalue.cpp:60-95 | a quotient interval is the hull of a/c, a/d, b/c and b/d, each taken by the same division |
| IntervalValue.Operation | src/intervalvalue.cpp:49-56 | an interval operand is combined endpoint-wise; anything else goes to the base operation |
| IntervalValue.NotEqualIsNotEqual | src/intervalvalue.cpp:70-77 | inequality is the negation of equality |
| IntervalValue.AddSound | src/intervalvalue.cpp:78-80 | the sum of a point of each interval lies in the sum interval |
| IntervalValue.AddExact | src/intervalvalue.cpp:78-80 | every point of the sum interval is such a sum |
| IntervalValue.SubtractSound | src/intervalvalue.cpp:81-83 | the difference of a point of each interval lies in the difference interval |
| IntervalValue.SubtractIsAddNegated | src/intervalvalue.cpp:40-44 | subtraction is addition of the negated interval |
| IntervalValue.MultiplySound | src/intervalvalue.cpp:84-95 | the product of a point of each interval lies in the product interval |
| IntervalValue.CornerHull | src/intervalvalue.cpp:86-94 | a product of points lies between the least and greatest corner product |
| IntervalValue.StringCentres | src/intervalvalue.cpp:27-33 | the printed centre minus and plus the printed half-width are the endpoints |
| ComplexValue.ToQuaternion | src/complexvalue.cpp:41-57 | the four numbers when the real part and the first three imaginary parts are numbers, otherwise all zero |
| ComplexValue.FromQuaternion | src/complexvalue.cpp:22-26 | a quaternion is written as a complex value with three numeric imaginary parts |
| ComplexValue.QuaternionRoundTrip | src/complexvalue.cpp:41-57 | reading back a written quaternion gives it unchanged |
| ComplexValue.ComplexRoundTrip | src/complexvalue.cpp:41-57 | a quaternion-shaped value with three imaginary parts is the value its quaternion is written as |
| ComplexValue.ExtraPartsIgnored | src/complexvalue.cpp:43-47 | imaginary parts after the third make no difference |
| RangeValue.First | src/rangeiterator.cpp:32-35 | first puts the index at the start and leaves the range as it was |
| RangeValue.Next | src/rangeiterator.cpp:37-47 | next adds the range's step, or one when there is none |
| RangeValue.CurrentItem | src/rangeiterator.cpp:59-62 | the current item is the index |
| RangeValue.CountSpec | src/rangeiterator.cpp:49-57 | with a positive step, term k is not past the finish exactly when k is below the term count |
| RangeValue.IsDone | src/rangeiterator.cpp:49-57 | the iterator is done once the index has passed the finish; EndlessNeverDone shows a non-positive step never gets there |
| RangeValue.Items | src/rangevalue.cpp:50-58 | term k is start plus k steps, every term is within the range and the next is not; empty exactly when start is past finish |
| RangeValue.ItemsUnique | src/rangevalue.cpp:50-58 | with a positive step, any list meeting that description is the list of children |
| RangeValue.GetChildren | src/rangevalue.cpp:50-58 | for a range that ends, the iterator loop from first until isDone collects exactly the reference children |
| RangeValue.Advance | src/rangeiterator.cpp:37-47 | n calls of next move the index by n steps and leave the range as it was |
| RangeValue.EndlessNeverDone | src/rangeiterator.cpp:37-57 | a range with a step of at most 0 and its start not past its finish is never done, however often next is called |
| RangeValue.RangeChildren | src/rangevalue.cpp:50-58 | a range passes the vector cast, and its children are numbers, term k being start plus k steps |
| RangeValue.Operation | src/rangevalue.cpp:75-90 | concatenation with a vector or a range is this range's children followed by the operand's; everything else goes to the base operation |
| RangeValue.ConcatenateRanges | src/rangevalue.cpp:75-90 | [0:2] ~ [5:6] is the vector [0, 1, 2, 5, 6] |
| RangeValue.RangeStringColons | src/rangevalue.cpp:31-43 | the text of a range has two colons with a step and one without |
| IsMat4x4.Evaluate | src/function/ismat4x4function.cpp:31-63 | true exactly for a vector or range of four rows, each a vector or range of four numbers |
| IsMat4x4.FromEntries | src/function/ismat4x4function.cpp:31-63 | the matrix value built from sixteen numbers is a 4x4 matrix |
| IsMat4x4.Entries | src/function/ismat4x4function.cpp:31-63 | sixteen numbers, entry 4i + j being the cell at row i and column j |
| IsMat4x4.EntriesRoundTrip | src/function/ismat4x4function.cpp:31-63 | reading the entries back from the built matrix gives the sixteen numbers, and the matrix rebuilt from any matrix's entries has the same cells |
| IsMat4x4.ReadBack | src/function/ismat4x4function.cpp:31-63 | the entries of the matrix built from sixteen numbers are those numbers |
| IsMat4x4.VectorsRoundTrip | src/function/ismat4x4function.cpp:31-63 | a matrix written with vectors only is rebuilt exactly from its entries |
| IsMat4x4.RangeRows | src/function/ismat4x4function.cpp:33-42 | four rows [0:3] make a 4x4 matrix |
| Operators.OpString | src/expression.cpp:29-93 | a listed operator has a one- or two-character symbol; exactly the unlisted ones print "Unknown" |
| Operators.OpStringExamples | src/expression.cpp:38-40 | sample entries of the symbol table |
| Operators.OpStringRoundTrip | src/expression.cpp:29-93 | the symbol of a listed operator reads back as that operator |
| Operators.OpStringInjective | src/expression.cpp:29-93 | distinct listed operators have distinct symbols |
| Operators.OpOfString | src/expression.cpp:29-93 | a symbol read back names a listed operator whose symbol it is |
| Operators.SetOp | src/expression.cpp:95-103 | getOp returns what setOp stored |
| Operators.GetOp | src/expression.cpp:100-103 | the operator read is the one the slot holds |
| Mesh.Ceil | src/module/primitivemodule.cpp:40 | ceil gives the least integer not below its argument |
| Mesh.NumberArg | src/module/spheremodule.cpp:33 | the cast yields a number exactly when the argument is present and is a number, and then it is that number |
| Mesh.Truncate | src/module/prismmodule.cpp:34-37 | the conversion of a double to int drops the fraction, toward zero for either sign |
| Mesh.ZRange | src/module/cylindermodule.cpp:64-71 | the z range spans the height, centred on the origin or starting from it |
| Mesh.Reverse | src/module/conemodule.cpp:94-98 | prepending points one by one gives them in reverse order |
| PrimitiveModule.Bound | src/module/primitivemodule.cpp:40 | the lesser of 360 / $fa and r pi / $fs, where a zero divisor makes its bound infinite so the other one wins |
| PrimitiveModule.GetFragments | src/module/primitivemodule.cpp:31-41 | no fragments below the grid radius; a positive $fn truncated; otherwise the ceiling of the lesser bound, but at least five |
| PrimitiveModule.Iterations | src/module/primitivemodule.cpp:47 | a loop for i from 0 while i < f runs f times, or not at all when f is not positive |
| PrimitiveModule.CirclePoint | src/module/primitivemodule.cpp:48-57 | a circle point lies at the given height, and at the centre when the radius is not positive |
| PrimitiveModule.GetCircle | src/module/primitivemodule.cpp:44-62 | f points, point i at angle tau i / f, all at the given height; with a non-positive radius all at the centre |
| PrimitiveModule.Hexagon | src/module/primitivemodule.cpp:67-104 | the six-sided layout has six points, all at the given height |
| PrimitiveModule.GetPolygon | src/module/primitivemodule.cpp:64-108 | n points at the given height; for any n but six it is the circle of n fragments |
| PrimitiveModule.HexagonSymmetric | src/module/primitivemodule.cpp:67-104 | each hexagon point has its mirror image through the centre three places on |
| PrimitiveModule.ApothemRadius | src/module/prismmodule.cpp:39-50 | from an apothem, r cos(pi / n) = a; from a radius, a = r cos(pi / n); with neither, both are 1 |
| Cube.CreateCuboid | src/module/cubemodule.h:34-122 | a box flat in x, else y, else z is one quad of four corners on that plane; a solid box has eight corners, 0-3 on the top and 4-7 on the bottom, exactly the box's corners, and six quads; every index names a vertex |
| Cube.CornersAreAll | src/module/cubemodule.h:76-83 | the eight vertices are exactly the points whose coordinates are each one of the two bounds |
| Cube.Edge | src/module/cubemodule.h:85-121 | a directed edge leaves a corner of the face for another corner of the same face |
| Cube.LocateEdge | src/module/cubemodule.h:85-121 | every directed edge of the box is found again at its own face and corner, and its reverse lies in a different face |
| Cube.EdgeOfQuad | src/module/cubemodule.h:85-121 | on a quad, the edge from corner k goes to the next corner, the last back to the first |
| Cube.LocateCorner | src/module/cubemodule.h:85-121 | the edge leaving each corner of each face is located at that face and corner, and its reverse in another face |
| Cube.BoxClosed | src/module/cubemodule.h:85-121 | no directed edge of the box occurs twice and each is matched by its reverse in another face: the surface is closed and consistently oriented |
| Cube.BoxCorners | src/module/cubemodule.h:85-121 | every face index names one of the eight corners, and each corner lies in exactly three faces |
| Cube.TopCorner | src/module/cubemodule.h:85-115 | a top corner lies on the top face and the two sides beside it |
| Cube.BottomCorner | src/module/cubemodule.h:92-121 | a bottom corner lies on the bottom face and the two sides beside it |
| Sphere.Radius | src/module/spheremodule.cpp:40-47 | the radius argument when it is a number, otherwise half the diameter when that is a number, otherwise 1 |
| Sphere.Centred | src/module/spheremodule.cpp:34-38 | centred unless the centre argument is given, and then as true as it is |
| Sphere.Ring | src/module/spheremodule.cpp:55-61 | ring i has f points at height r cos phi, lifted by r when not centred, with phi = pi (i + 1/2) / n |
| Sphere.Triangle | src/module/spheremodule.cpp:75-89 | an even triangle has an edge on the lower ring and its apex on the upper one; an odd one, prepended, has an edge on the upper ring |
| Sphere.Band | src/module/spheremodule.cpp:73-90 | the band between two rings is 2 f triangles alternating between the two kinds, each with points from both rings |
| Sphere.BehindIsLess | src/module/spheremodule.cpp:75 | the test r1i / f < r2i / f in doubles is the integer comparison r1i < r2i |
| Sphere.Stitch | src/module/spheremodule.cpp:73-90 | the two-cursor loop ends, every ring access is in range, and it builds exactly the band of 2 f triangles |
| Sphere.BandByParity | src/module/spheremodule.cpp:73-90 | 2 f triangles with the even and odd ones in place are the band |
| Sphere.Bands | src/module/spheremodule.cpp:70-91 | the bands between n + 1 neighbouring rings number n times 2 f triangles and end with the band of the last two rings |
| Sphere.Shell | src/module/spheremodule.cpp:63-97 | the top ring first, the bands, and the bottom ring reversed last |
| Sphere.Evaluate | src/module/spheremodule.cpp:31-99 | a zero radius gives a point; otherwise the ringed sphere of the module's fragment count |
| Sphere.RingedSphere | src/module/spheremodule.cpp:51-66 | fewer than two fragments leave no rings and reading the first one fails; otherwise the sphere of f / 2 rings |
| Sphere.Surface | src/module/spheremodule.cpp:63-97 | 2 + (n - 1) 2 f polygons, the top ring first and the bottom ring reversed last |
| Sphere.Rings | src/module/spheremodule.cpp:54-61 | n rings of f points each, ring i being the circle at its latitude |
| Cylinder.BooleanArg | src/module/cylindermodule.cpp:44 | the centre argument counts only when it is a Boolean value, and is then passed through unchanged |
| Cylinder.Arguments | src/module/cylindermodule.cpp:32-62 | height defaults to 1; radius1 selects the two-radius form with radius2 defaulting to 1 and the larger radius for the fragments; otherwise one radius from radius, else half the diameter, else 1 |
| Cylinder.Fragments | src/module/cylindermodule.cpp:72-75 | with $fn = 0, $fs = 1, $fa = 12 a radius below the grid gives no fragments and any other at least five |
| Cylinder.Polygons | src/module/cylindermodule.cpp:76-114 | the side walls come first, then the bottom circle when r1 > 0, then the top circle reversed when r2 > 0 |
| Cylinder.WithCaps | src/module/cylindermodule.cpp:104-114 | the caps that are present follow the walls, bottom before top, and the walls are kept as they were |
| Cylinder.Evaluate | src/module/cylindermodule.cpp:30-117 | evaluate builds the polygons of the shape its arguments describe |
| Cylinder.EqualRadiiCount | src/module/cylindermodule.cpp:82-87 | equal positive radii give one quad per fragment and two caps |
| Cylinder.ConeLikeCount | src/module/cylindermodule.cpp:88-101 | different positive radii give two triangles per fragment and two caps |
| Cylinder.CapHeights | src/module/cylindermodule.cpp:64-71 | the bottom cap lies at -h/2 or 0 and the top cap at h/2 or h, as the centre flag says |
| Frustum.Next | src/module/cylindermodule.cpp:81 | the next fragment index wraps round and stays within the circle |
| Frustum.Step | src/module/cylindermodule.cpp:82-101 | one fragment gives the number of polygons PerFragment counts |
| Frustum.PerFragment | src/module/cylindermodule.cpp:82-101 | a fragment gives at most two polygons, and exactly one quad when the radii are equal |
| Frustum.Walls | src/module/cylindermodule.cpp:80-102 | the walls are, fragment by fragment, the quad, or the lower and upper triangles when both radii are positive, or the one triangle whose radius is positive, or nothing |
| Frustum.Distribute | src/module/cylindermodule.cpp:80-102 | n fragments of k polygons each give n k polygons |
| Cone.Arguments | src/module/conemodule.cpp:34-51 | height defaults to 1, both radii to 0, and the centre flag is the truth of the fourth parameter when present |
| Cone.Polygons | src/module/conemodule.cpp:65-98 | the bottom disc first when r1 > 0; a flat cone stops there; otherwise the side triangles and then the reversed top disc when r2 > 0 |
| Cone.Evaluate | src/module/conemodule.cpp:32-101 | the fragment count comes from the larger of the two radii |
| Cone.FlatIsDisc | src/module/conemodule.cpp:75-76 | a cone of height zero is at most its bottom disc |
| Cone.PointedCount | src/module/conemodule.cpp:69-98 | a pointed cone has its base and one triangle per fragment |
| Prism.Sides | src/module/prismmodule.cpp:34-37 | the side count defaults to 3 and is otherwise the argument truncated to an int |
| Prism.Polygons | src/module/prismmodule.cpp:66-88 | no polygons for a non-positive radius; otherwise one quad per side, the lower n-gon, and the upper n-gon reversed |
| Prism.Evaluate | src/module/prismmodule.cpp:27-91 | height 1, apothem and radius 1 by default, centred on the origin when the centre argument is true |
| Prism.DefaultTriangular | src/module/prismmodule.cpp:34-50 | with no arguments the prism is triangular: three quads and two caps |
| Prism.QuadsMeetCaps | src/module/prismmodule.cpp:72-87 | each side quad shares its lower corners with the lower cap and its upper corner with the upper cap |
| RegularPolygon.Sides | src/module/regularpolygonmodule.cpp:33-36 | the side count defaults to 3 and is otherwise the argument's integer conversion |
| RegularPolygon.Surface | src/module/regularpolygonmodule.cpp:62-69 | one polygon whose indices name every vertex once, in order |
| RegularPolygon.Evaluate | src/module/regularpolygonmodule.cpp:31-72 | an empty surface for a non-positive side count or radius, otherwise the one polygon of s points, and the input nodes become the children |
| RegularPolygon.Flat | src/module/regularpolygonmodule.cpp:60 | every point of the polygon lies in the plane z = 0 |
| PolygonModule.VectorCount | src/module/polygonmodule.cpp:29-36 | the number of entries that pass the vector cast, vectors and ranges alike, is at most the number of entries, and equal to it when every entry passes |
| PolygonModule.Vertices | src/module/polygonmodule.cpp:29-36 | one vertex per entry that passes the vector cast: every such entry's point is a vertex and every vertex is some such entry's point |
| PolygonModule.VerticesRanks | src/module/polygonmodule.cpp:29-36 | the vertex of entry i is appended at the position given by the number of vector entries before i, so vertices keep the order of the points list |
| PolygonModule.VectorRanksIncrease | src/module/polygonmodule.cpp:29-36 | a later entry never takes the place of an earlier vector entry: the ranks strictly increase, so with the length they fix the vertex list and the polygon list |
| PolygonModule.Indices | src/module/polygonmodule.cpp:63-71 | an index is kept exactly when some entry is a number whose integer value lies in [0, bound), nothing out of range is kept, and there are as many indices as passing entries |
| PolygonModule.IndicesRanks | src/module/polygonmodule.cpp:63-71 | a passing entry j is appended at the position given by the number of passing entries before j, so the polygon lists its indices in the order of the line |
| PolygonModule.KeptRanksIncrease | src/module/polygonmodule.cpp:63-71 | ranks of passing entries strictly increase, so with the count they fix the filtered line |
| PolygonModule.Range | src/module/polygonmodule.cpp:40-45 | with no lines, the one polygon lists the indices 0 to n - 1 in order |
| PolygonModule.NormalLines | src/module/polygonmodule.cpp:49-57 | a lines list whose first entry does not pass the vector cast stands for a single line; any other list is kept |
| PolygonModule.Polygons | src/module/polygonmodule.cpp:59-73 | one polygon per line that passes the vector cast, every index within the bound |
| PolygonModule.PolygonsRanks | src/module/polygonmodule.cpp:59-73 | the polygon of vector line i is appended at the position given by the number of vector lines before i, and is that line's filtered indices |
| PolygonModule.Build | src/module/polygonmodule.cpp:14-76 | the input nodes become the node's children whatever the arguments |
| PolygonModule.EvaluateAsWritten | src/module/polygonmodule.cpp:14-76 | the source's evaluate checks indices against the number of entries of the points list, whether they pass the vector cast or not |
| PolygonModule.Evaluate | src/module/polygonmodule.cpp:14-76 | no points give an empty primitive; otherwise the vertices are the points of the entries that pass the vector cast, ranges included, the polygons are the one polygon 0 .. n - 1 when there are no lines and the filtered lines otherwise, bounded by the n vertices, and every index of every polygon names a vertex |
| PolygonModule.AllVectorsAgree | src/module/polygonmodule.cpp:29-45 | when every point entry is a vector the source's bound and the vertex count agree |
| PolygonModule.StrayIndex | src/module/polygonmodule.cpp:40-45 | the points [[..], 5, [..]] give two vertices and the polygon [0, 1, 2], which names a missing vertex |
| PolygonModule.RangeLine | src/module/polygonmodule.cpp:47-73 | four vertices with the lines [0:2] give the one polygon [0, 1, 2] |
| PolyhedronModule.Surfaces | src/module/polyhedronmodule.cpp:48-61 | one filtered index list per surface, in order, a range surface giving its terms; a surface that does not pass the vector cast is a failure |
| PolyhedronModule.EvaluateAsWritten | src/module/polyhedronmodule.cpp:31-65 | the source's evaluate checks indices against the number of entries of the points list, ranges passing the vector cast like vectors |
| PolyhedronModule.Evaluate | src/module/polyhedronmodule.cpp:31-65 | missing points or surfaces give an empty primitive; otherwise one vertex per point that passes the vector cast and one polygon per surface, in order, each the surface's indices filtered against the vertex count, every index naming a vertex |
| PolyhedronModule.StrayIndex | src/module/polyhedronmodule.cpp:54-56 | the points [[..], 5, [..]] with the surface [2] give two vertices and a polygon naming a third |
| PointsModule.FirstNonVector | src/module/pointsmodule.cpp:38-46 | the loop runs over the leading entries that pass the vector cast and stops at the first other entry |
| PointsModule.Collect | src/module/pointsmodule.cpp:38-46 | one point per leading entry that passes the vector cast, followed by the fallback point when an entry does not |
| PointsModule.Evaluate | src/module/pointsmodule.cpp:29-50 | no points for a missing argument or one that does not pass the vector cast; otherwise the locations up to the first entry that does not pass, where the whole argument read as one point is appended |
| PointsModule.AllLocations | src/module/pointsmodule.cpp:38-48 | a list of locations gives one point per location, in order |
| PointsModule.SingleLocation | src/module/pointsmodule.cpp:39-43 | a single location such as [1, 2, 3] becomes the one point |
| PointsModule.RangeLocation | src/module/pointsmodule.cpp:38-46 | points([[0:2]]) gives the one point of the terms 0, 1 and 2 |
| MultMatrix.FlattenAppend | src/module/multmatrixmodule.cpp:46-61 | the entries of two runs of rows are the entries of the first followed by those of the second |
| MultMatrix.Flatten | src/module/multmatrixmodule.cpp:46-48 | the entries of the rows that pass the vector cast, in order; FlattenStep and FlattenAppend state how it grows |
| MultMatrix.Slot | src/module/multmatrixmodule.cpp:50-54 | a slot holds a value exactly when its entry exists and is a number, and then holds that number |
| MultMatrix.Entries | src/module/multmatrixmodule.cpp:44-63 | the matrix has 16 slots, slot k holding entry k of the flattened rows when it is a number |
| MultMatrix.Fill | src/module/multmatrixmodule.cpp:44-63 | the loops over rows and entries, stopping once the index passes 16, leave exactly the reference matrix |
| MultMatrix.FlattenStep | src/module/multmatrixmodule.cpp:46-48 | one more row adds its children when it passes the vector cast, a range's terms included, and nothing otherwise |
| MultMatrix.WriteStep | src/module/multmatrixmodule.cpp:49-54 | an entry writes the next slot when it is a number and leaves the array unchanged otherwise |
| MultMatrix.StopEarly | src/module/multmatrixmodule.cpp:55-58 | once more than 16 entries have been seen the first 16 slots are final |
| MultMatrix.PrefixSlots | src/module/multmatrixmodule.cpp:55-63 | all the entries, or a prefix longer than 16, fix the first 16 slots |
| MultMatrix.Evaluate | src/module/multmatrixmodule.cpp:31-65 | there is no matrix exactly when the argument does not pass the vector cast; otherwise the matrix is the reference one, and the input nodes are the children |
| MultMatrix.SkippedRows | src/module/multmatrixmodule.cpp:47-48 | a row that does not pass the vector cast takes no slots: dropping it gives the same matrix |
| MultMatrix.NumberRows | src/module/multmatrixmodule.cpp:46-49 | the argument written as rows of numbers has one row per row |
| MultMatrix.RowMajor | src/module/multmatrixmodule.cpp:44-63 | four rows of four numbers fill the matrix row-major: slot 4i + j holds entry j of row i |
| Scale.Size | gui/src/module/scalemodule.cpp:35-40 | the size defaults to (1, 1, 1) and is otherwise the argument as a three-element vector read as a point |
| Scale.RangeSize | gui/src/module/scalemodule.cpp:35-40 | a range size such as [1:3] goes through toVector(3) like any other value |
| Scale.Reference | gui/src/module/scalemodule.cpp:54-56 | there is a reference point exactly when the second argument passes the vector cast, and it is the point of its children |
| Scale.Scaling | gui/src/module/scalemodule.cpp:64-76 | the matrix has the factors on its diagonal, the translation in its last column and 0 0 0 1 as its last row |
| Scale.ApplyScaling | gui/src/module/scalemodule.cpp:64-76 | the matrix multiplies each coordinate by its factor and adds its translation |
| Scale.Build | gui/src/module/scalemodule.cpp:33-85 | a zero factor gives a single-point node with hidden children; a reference point, from a vector or a range, gives a non-uniform scaling with the translation column |
| Scale.EvaluateAsWritten | gui/src/module/scalemodule.cpp:54-69 | the source's evaluate uses the translation column a x - a |
| Scale.Evaluate | gui/src/module/scalemodule.cpp:33-85 | a single point exactly when a factor is zero; with no reference, a diagonal matrix marked uniform exactly when the three factors agree; with a reference, the scaling about it |
| Scale.Diagonal | gui/src/module/scalemodule.cpp:71-78 | with no reference each coordinate is multiplied by its factor, and with equal factors the point by one number |
| Scale.ScalesAboutReference | gui/src/module/scalemodule.cpp:54-69 | scaling about the reference point keeps it in place and multiplies every offset from it by the size |
| Scale.AsWrittenKeepsNegated | gui/src/module/scalemodule.cpp:64-69 | the source's column keeps the point -r in place instead of r |
| Scale.MovesReference | gui/src/module/scalemodule.cpp:64-69 | scale([2, 2, 2], [1, 0, 0]) as written sends the reference point (1, 0, 0) to (3, 0, 0) |
| SimpleText.GlyphDomain | src/simpletextbuilder.cpp:24-188 | exactly the ten digits, '.' and '-' have strokes; any other character draws nothing |
| SimpleText.Advance | src/simpletextbuilder.cpp:223-226 | the pen moves 0.75 after '.' and 1.5 after any other character |
| SimpleText.Pen | src/simpletextbuilder.cpp:212-227 | the pen never moves left, and moves right after every character |
| SimpleText.Shift | src/simpletextbuilder.cpp:217-219 | every point of every stroke is moved by the offset, and nothing else changes |
| SimpleText.Run | src/simpletextbuilder.cpp:220 | the indices a stroke appends are consecutive from the vertex counter |
| SimpleText.AddStroke | src/simpletextbuilder.cpp:215-221 | a stroke adds its points as vertices and one polygon of their new indices, keeping the numbering consecutive |
| SimpleText.AddLetter | src/simpletextbuilder.cpp:214-222 | a letter adds one polygon per stroke and all its points, in order, keeping the numbering consecutive |
| SimpleText.Concat | src/simpletextbuilder.cpp:215-221 | the points of a letter, stroke after stroke, number as many as the letter has |
| SimpleText.LengthAppend | src/simpletextbuilder.cpp:215-221 | one more stroke adds its number of points |
| SimpleText.Layout | src/simpletextbuilder.cpp:211-227 | after the text the pen stands where the advances of its characters take it |
| SimpleText.Place | src/simpletextbuilder.cpp:213-227 | drawing one character advances the pen by that character's advance |
| SimpleText.LetterPlacement | src/simpletextbuilder.cpp:217-219 | a character's vertices are its glyph's points moved to the pen and the location's y and z, after those of the text before it |
| SimpleText.ShiftLength | src/simpletextbuilder.cpp:217-219 | moving a letter keeps its number of points |
| SimpleText.LayoutShape | src/simpletextbuilder.cpp:206-230 | one polygon per stroke and one vertex per stroke point, numbered from 0, so every index names a vertex |
| SimpleText.InFlat | src/simpletextbuilder.cpp:216-220 | every index of a polygon is among the indices of all the polygons |
| SimpleText.NumberedIsWellIndexed | src/simpletextbuilder.cpp:211-220 | consecutive numbering from 0 means every index names a vertex |
| SimpleText.LayoutStep | src/simpletextbuilder.cpp:213-227 | one more character extends the layout by that character's letter |
| SimpleText.BuildPrimitive | src/simpletextbuilder.cpp:206-230 | buildPrimitive gives the reference layout: one polygon per stroke, one vertex per point, every index naming a vertex |
| Camera.NormalizeAngle | gui/src/ui/camera.cpp:33-39 | the angle moves by whole turns into [0, 360]; an angle already there is left alone |
| Camera.NormalizeUnique | gui/src/ui/camera.cpp:33-39 | two results within the same half-open turn that differ by whole turns are equal, so the loops' result is determined |
| Camera.SetRotation | gui/src/ui/camera.cpp:83-88 | the three angles become those given and the position stays |
| Camera.ChangeViewDirection | gui/src/ui/camera.cpp:90-112 | each preset direction sets its rotation and leaves the position alone |
| Camera.PresetGeometry | gui/src/ui/camera.cpp:90-112 | top and bottom tilt about x by opposite quarter turns, the compass points turn about z a quarter turn apart, and no preset rolls about y |
| Camera.Pitch | gui/src/ui/camera.cpp:114-118 | only the x angle changes: it moves by dx plus a whole number of turns and ends in [0, 360], unchanged when already there |
| Camera.Roll | gui/src/ui/camera.cpp:120-124 | only the y angle changes: it moves by dy plus a whole number of turns and ends in [0, 360], unchanged when already there |
| Camera.Yaw | gui/src/ui/camera.cpp:126-130 | only the z angle changes: it moves by dz plus a whole number of turns and ends in [0, 360], unchanged when already there |
| Camera.Pan | gui/src/ui/camera.cpp:132-136 | the x and z positions move by dx and dz and nothing else changes |
| Camera.PanInverse | gui/src/ui/camera.cpp:132-136 | panning back undoes a pan, and two pans add up |
| Camera.Zoom | gui/src/ui/camera.cpp:138-141 | only the y position changes: it is scaled by 0.9 to the power amt / 10 |
| Camera.ZoomAdds | gui/src/ui/camera.cpp:138-141 | two zooms are one zoom by the sum, and a zoom by 0 changes nothing |
| Console.Create | src/ui/console.cpp:21-28 | a new console has no commands and the history position at 0, which names the empty line |
| Console.Blank | src/ui/console.cpp:102 | a command is blank when every character is white space, so that trimming leaves it empty |
| Console.InPromptBlock | src/ui/console.cpp:74-80 | the cursor is in the prompt block when it is on a later line, or on the prompt line at or after the prompt |
| Console.SetPrompt | src/ui/console.cpp:92-97 | the prompt and its length are set and the history is untouched |
| Console.HandleBackspace | src/ui/console.cpp:82-90 | the key is swallowed exactly at the end of the prompt; anywhere else inside the prompt block it is after the prompt |
| Console.HandleReturn | src/ui/console.cpp:99-110 | the line is emitted; a non-blank line joins the history and the position moves past it, a blank one leaves the history alone |
| Console.HandleHistory | src/ui/console.cpp:112-125 | a position outside [0, count] is ignored; otherwise the line shows that command, or is empty at count, and the history is untouched |
| Console.KeyUp | src/ui/console.cpp:58-60 | Up moves to the previous command and shows it, and does nothing before the first |
| Console.KeyDown | src/ui/console.cpp:55-57 | Down moves to the next position, and does nothing past the last |
| Console.UpDown | src/ui/console.cpp:55-60 | Down after Up comes back to the same position and line |
| Console.HistoryEnds | src/ui/console.cpp:112-115 | Up at the first command and Down at the empty line change nothing |
| Console.RecallLast | src/ui/console.cpp:99-125 | after a command is entered, Up recalls it |
| SearchWidget.UpdateSearchCount | src/ui/searchwidget.cpp:174-180 | the counter moves one on searching down and one back searching up, is never above the total, and nothing else changes |
| SearchWidget.ResetSearchCursor | src/ui/searchwidget.cpp:147-151 | searching down starts before the first result at the start of the document; searching up starts after the last at its end |
| SearchWidget.ResetThenStep | src/ui/searchwidget.cpp:147-180 | after a reset, the first step up shows the last result and the first step down the first |
| SearchWidget.DoSearch | src/ui/searchwidget.cpp:83-110 | nothing for an empty text; a find that succeeds moves the selection and is counted; a failed find without wrapping changes nothing |
| SearchWidget.WrapRetries | src/ui/searchwidget.cpp:101-107 | with wrapping, a failed search succeeds exactly when the find from the start (or the end) does |
| SearchWidget.SearchCount | src/ui/searchwidget.cpp:68-81 | the total is the number of forward finds from the start, the counter is left one behind it, and the selection is put back |
| SearchWidget.Shown | src/ui/searchwidget.cpp:185-187 | a counter shows as "-" exactly when it is 0, and never contains a slash |
| SearchWidget.Label | src/ui/searchwidget.cpp:182-188 | the label holds exactly one slash |
| SearchWidget.SlashPos | src/ui/searchwidget.cpp:185 | the position of the first slash, with none before it |
| SearchWidget.SlashAfter | src/ui/searchwidget.cpp:185 | in "x/y" with no slash in x, the first slash follows x |
| SearchWidget.SplitSlash | src/ui/searchwidget.cpp:185 | two slash-free parts joined by a slash can be split back |
| SearchWidget.LabelInjective | src/ui/searchwidget.cpp:182-188 | the label determines both the current result and the total |
| SearchWidget.ShownInjective | src/ui/searchwidget.cpp:186-187 | different counters show differently |
| SearchWidget.ReplaceAllowed | src/ui/searchwidget.cpp:121-129 | a read-only editor refuses; replacing all is otherwise allowed, and a single replace needs a selection |
| SaveItems.MakeRow | src/ui/saveitemsdialog.cpp:40-52 | a document never saved shows as "[New]" with no directory; any other shows its file's name and directory; the full name is kept |
| SaveItems.Create | src/ui/saveitemsdialog.cpp:24-60 | one row per item, in order, all selected, with the discard button exactly when not compiling |
| SaveItems.CountSelected | src/ui/saveitemsdialog.cpp:84 | the selected count equals the total exactly when every row is selected, and is 0 exactly when none is |
| SaveItems.SaveButton | src/ui/saveitemsdialog.cpp:82-100 | one row: "Save"; all selected: "Save All"; none: "Save", disabled; some: "Save Selected" |
| SaveItems.DisabledExactly | src/ui/saveitemsdialog.cpp:82-100 | the save button is disabled exactly when there are several rows and none is selected |
| SaveItems.FreshOffersAll | src/ui/saveitemsdialog.cpp:55-56 | a fresh dialog of other than one row offers "Save All" |
| SaveItems.Collect | src/ui/saveitemsdialog.cpp:67-74 | one name is collected per selected row |
| SaveItems.CollectMembers | src/ui/saveitemsdialog.cpp:67-74 | the names collected are exactly the stored names of the selected rows |
| SaveItems.CollectFrom | src/ui/saveitemsdialog.cpp:67-74 | every collected name is a selected row's stored name |
| SaveItems.CollectRanks | src/ui/saveitemsdialog.cpp:67-74 | in row order: a selected row's name sits at the number of selected rows before it |
| SaveItems.DiscardAll | src/ui/saveitemsdialog.cpp:76-80 | discarding clears the selection and saves nothing |
| SaveItems.SaveAllAtOnce | src/ui/saveitemsdialog.cpp:40-74 | saving straight away saves every document offered, in order |
| SaveItems.AllSelected | src/ui/saveitemsdialog.cpp:67-74 | with every row selected, the collected names are the rows' names in order |
| CodeEditor.DigitCount | src/ui/codeeditor.cpp:51-56 | the digit count is the length of the number's decimal text, at least one |
| CodeEditor.Pow10 | src/ui/codeeditor.cpp:53-56 | every power of ten is at least one |
| CodeEditor.DigitCountBounds | src/ui/codeeditor.cpp:51-56 | a number of d digits is below 10^d and, unless 0, at least 10^(d-1) |
| CodeEditor.Pow10Digits | src/ui/codeeditor.cpp:51-56 | 10^k has k + 1 digits, so the lower bound of DigitCountBounds is reached |
| CodeEditor.DigitCountMonotone | src/ui/codeeditor.cpp:51-56 | a larger number never has fewer digits |
| CodeEditor.Digits | src/ui/codeeditor.cpp:51-56 | the loop's digit count is at least one and equals the number of decimal digits of max(1, blockCount) |
| CodeEditor.LineNumberAreaWidth | src/ui/codeeditor.cpp:49-61 | the gutter is three pixels plus one digit width per digit of the block count |
| CodeEditor.WidthMonotone | src/ui/codeeditor.cpp:49-61 | the gutter never narrows as blocks are added |
| CodeEditor.MulMonotone | src/ui/codeeditor.cpp:58 | more digits of a non-negative width take no less space |
| CodeEditor.SetFileName | src/ui/codeeditor.cpp:82-87 | the name is stored and the document counts as unmodified |
| Asciidoc.ToUpper | src/asciidocprinter.cpp:34 | the upper-cased character is never a lower-case letter |
| Asciidoc.ToLower | src/asciidocprinter.cpp:33 | the lower-cased character is never an upper-case letter |
| Asciidoc.Capitalize | src/asciidocprinter.cpp:30-36 | same length; the first character upper-cased and every other one lower-cased |
| Asciidoc.CapitalizeIdempotent | src/asciidocprinter.cpp:30-36 | capitalizing twice is capitalizing once |
| Asciidoc.Names | src/asciidocprinter.cpp:60-64 | the parameter names, one per parameter, in order |
| Asciidoc.ExampleCall | src/asciidocprinter.cpp:58-65 | the example call is the name applied to the parameter names joined by commas |
| Asciidoc.Document | src/asciidocprinter.cpp:38-68 | the title block always comes first; the parameter and example sections follow exactly when the module has parameters |
| Asciidoc.UnderlineMatchesTitle | src/asciidocprinter.cpp:41-42 | the underline is one '^' per character of the name, on its own line below the capitalized title |
| Asciidoc.RowsRoundTrip | src/asciidocprinter.cpp:49-51 | the table rows read back give the parameters, in order, when names hold no '\|' and descriptions no newline |
| Asciidoc.IndexOf | src/asciidocprinter.cpp:50 | the first position of the character, which nothing before it holds |
| Bbox.Equal | contrib/Bbox_3.h:43-48 | two boxes compare equal exactly when all six coordinates agree |
| Bbox.NotEqual | contrib/Bbox_3.h:50-53 | != is the negation of ==, and holds exactly when the boxes differ |
| Bbox.Min | contrib/Bbox_3.h:64-70 | min(i) is the x, y or z minimum for i = 0, 1, 2, the only indices the source accepts |
| Bbox.Max | contrib/Bbox_3.h:72-78 | max(i) is the x, y or z maximum for i = 0, 1, 2, the only indices the source accepts |
| Bbox.RMin | contrib/Bbox_3.h:82-84 | std::min gives one of its operands, no greater than either |
| Bbox.RMax | contrib/Bbox_3.h:85-87 | std::max gives one of its operands, no less than either |
| Bbox.Plus | contrib/Bbox_3.h:80-88 | the sum contains both boxes on every axis, and every box containing both contains the sum |
| Bbox.PlusCommutes | contrib/Bbox_3.h:80-88 | the sum does not depend on the order of the operands |
| Bbox.PlusAssociates | contrib/Bbox_3.h:80-88 | the sum does not depend on the grouping of the operands |
| Bbox.PlusIdempotent | contrib/Bbox_3.h:80-88 | a box added to itself is itself |
| OglHelper.EmptyFacet | contrib/OGL_helper.h:144-145 | a new facet stores no coordinates and no cycles, with the mark cleared |
| OglHelper.PushBackVertex | contrib/OGL_helper.h:147-148 | exactly one coordinate triple is appended and the cycles are untouched |
| OglHelper.NewFacetCycle | contrib/OGL_helper.h:182-183 | the new cycle's entry point is the current number of coordinates, and the coordinates are untouched |
| OglHelper.NumberOfFacetCycles | contrib/OGL_helper.h:185-186 | the cycle count is the number of entry points recorded |
| OglHelper.EmptyValid | contrib/OGL_helper.h:144-145 | a new facet has entry points that are ordered and within the coordinates |
| OglHelper.PushBackVertexValid | contrib/OGL_helper.h:147-148 | appending a vertex keeps the entry points ordered and within the coordinates |
| OglHelper.NewFacetCycleValid | contrib/OGL_helper.h:182-183 | opening a cycle keeps the entry points ordered and within the coordinates |
| OglHelper.FacetCycleBegin | contrib/OGL_helper.h:188-191 | cycle 0 begins at the front of the coordinates and cycle i > 0 at its entry point |
| OglHelper.FacetCycleEnd | contrib/OGL_helper.h:193-196 | a cycle ends at the next cycle's entry point, or at the end of the coordinates for the last, never before it begins |
| OglHelper.Cycle | contrib/OGL_helper.h:451-456 | a cycle holds as many coordinates as lie between its begin and its end |
| OglHelper.Cycles | contrib/OGL_helper.h:451-456 | one coordinate run per recorded cycle, in order |
| OglHelper.PushAll | contrib/OGL_helper.h:652-656 | pushing vertices one by one appends them all, in order, and leaves the cycles alone |
| OglHelper.FlatPrefix | contrib/OGL_helper.h:646-657 | the coordinates of the first k cycles are a prefix of all the coordinates |
| OglHelper.BuildShape | contrib/OGL_helper.h:645-657 | a facet filled cycle by cycle stores the cycles end to end, with entry point i the length of everything before cycle i |
| OglHelper.BuildValid | contrib/OGL_helper.h:645-657 | a facet filled cycle by cycle has ordered entry points within the coordinates |
| OglHelper.CyclesRoundTrip | contrib/OGL_helper.h:188-196 | the cycle iterators of a filled facet give back exactly the cycles that were pushed, in order |
| OglHelper.CycleOfBuild | contrib/OGL_helper.h:188-196 | cycle i of a filled facet is the i-th pushed cycle |
| OglHelper.BoundsOfBuild | contrib/OGL_helper.h:188-196 | the iterators of cycle i of a filled facet bound the cycles before it and up to it |
| OglHelper.FlatSlice | contrib/OGL_helper.h:188-196 | between the coordinates of the cycles before i and up to i lies cycle i |
| OglHelper.SetNormal | contrib/OGL_helper.h:171-173 | the normal is the given vector divided by its length, the mark is set, and the coordinates are untouched |
| OglHelper.CreateViewer | contrib/OGL_helper.h:288-293 | a new polyhedron is not initialised, draws its boundary and has one switch, with the axes off |
| OglHelper.Toggle | contrib/OGL_helper.h:350-352 | exactly one switch flips and nothing else changes |
| OglHelper.ToggleTwice | contrib/OGL_helper.h:350-352 | toggling twice restores the state |
| OglHelper.SetStyle | contrib/OGL_helper.h:354-356 | the style is set and nothing else changes |
| OglHelper.Init | contrib/OGL_helper.h:532-540 | the first call marks the polyhedron initialised, turns the axes off and selects the boundary style; later calls change nothing |
| OglHelper.InitIdempotent | contrib/OGL_helper.h:532-536 | init twice is init once |
| OglHelper.ToggleSurvivesInit | contrib/OGL_helper.h:532-545 | a toggle after the first draw survives later draws, while one before it is reset |

## Left out

- Win32 interop in Program.cs is left out because it is operating-system I/O. This covers the DllImport declarations, Process.Start, Thread.Sleep and real time. The provider is an immutable tree. The poll loop reads one provider snapshot per pause. The started process's exit code is a parameter of `Automation.Install`.
- Automation.Install: Process.Start is taken to succeed. The source's Process.Start can return null or throw, for instance for a missing installer, and neither outcome is modelled. The driver's console output is dropped.
- Automation.ItemOf reads an id the provider does not describe as role 0 and no state bits, and Role and State never fail. In Program.cs:109-131 the Role and State getters call get_accRole and get_accState with no try/catch, so a COMException there is not caught anywhere and ends the driver. This covers LicenseRadio and LaunchCheckBox, which read Role, and every predicate, which reads State through Invisible or Checked. The model has no such outcome, because it would have to pass through Find, the poll loop and the script. Only the name getter (Program.cs:90-103) catches, and `Automation.Name` models that catch.
- Automation.PollFind looks the window's accessible object up again in every snapshot, so a window that has gone away reads as "no match, poll again". The source keeps the object from the first loop (Program.cs:264-270) and calls Find on it in every poll. Its child-count and child-list calls have no try/catch, so on a dead object it keeps polling or throws. That outcome is not modelled.
- Automation.NameMatches compares the prefix ordinally, character by character. The source's string.StartsWith(string) is culture-sensitive in .NET: it can ignore characters such as a soft hyphen, so "Ne\u00ADxt" matches "Next" there and not here. Culture-aware comparison is not modelled.
- Automation.Find requires a well-formed provider for the same reason as Automation.Descend below: on a provider that lists the child id 0 below a node, the source's search never returns.
- Automation.Descend, Automation.Find and the poll loop require a well-formed provider, one that never lists the child id 0 below a node. Without that, the source re-enters the same node forever.
- Invoking an element's default action is recorded as the list of elements acted on. The installer's reaction to it is not modelled.
- Breadboard.DeleteConnection and Breadboard.UpdateConnectionColor: the controller calls deleteConnection and updateConnectionColor, but lib/src/breadboardmodel.cpp does not define them. They are modelled by analogy with deleteComponent and as a plain recolouring.
- The breadboard's flash timer is a flag, and its ticks are an explicit operation. Repainting, path drawing and the designer widget are display code and are left out.
- The new ids of wires and components (QUuid) are a caller-supplied `newId`, because they come from a random source.
- Floating-point numbers (double, float, GLfloat) are modelled as reals. NaN, infinities and rounding are not modelled.
- The following oracles the model takes as function parameters, because their code is outside the modelled files:
  - sine and cosine;
  - powf;
  - the square root;
  - number formatting (QString::setNum, QString::number and stream output of a double);
  - the QFileInfo queries;
  - the document's find;
  - the font's width of '9'.
- The following value conversions the model also takes as parameters, for the same reason:
  - NumberValue::toInteger;
  - the truth of a value (Value::isTrue);
  - VectorValue::getPoint and Value::toVector;
  - the quotient of two numbers in interval division;
  - the base Value::operation that intervals and ranges defer to.
- Values.Combine: only number-number and vector pairings are modelled. Every other pairing goes to Value::basicOperation, which can fall off its end without returning. It yields Undefined here. A range on the right of a vector gives the empty vector, as in the source: the vector operators read the range's own children field, which a range leaves empty. A range on the left goes to RangeValue.Operation.
- RangeValue.GetChildren requires the range to end: a positive step, or a start past the finish. For a step of at most 0 with the start not past the finish (`[0:0:5]`, `[0:-1:5]`), isDone never holds and the source's loop never ends; RangeValue.EndlessNeverDone states this. RangeValue.Children, which the casts use, takes such a range as having no children, where the source does not return.
- The text of an undefined value is a parameter, because its class is not part of this model.
- Integer overflow is not modelled. Nor is the conversion to int of a double outside the int range, or unsigned casts. Mesh.Truncate truncates toward zero over all reals.
- PrimitiveModule.GetFragments requires `FragmentsDefined`. With $fn unset and both $fs and $fa zero, the source converts an infinite ceiling to int, which is undefined.
- PrimitiveModule.ApothemRadius requires `ApothemUsable`: n is not 0 and cos(pi / n) is not 0. Otherwise the source divides by zero in doubles.
- Sphere.RingedSphere returns a Failure for fewer than two fragments. In that case the source reads the first ring of an empty list.
- A polyhedron surface that is not a vector is a Failure. The source casts it unchecked.
- getArgumentDeprecated falls back to the old names `paths` and `triangles` and warns about them. The model folds that fallback into the context's argument lookup, and the warning is left out.
- MultMatrix: the source leaves the matrix array uninitialised. An unwritten slot is None here rather than an indeterminate double.
- createSinglePoint, which the scale module calls for a zero factor, is not part of this model. The zero-factor case is a single-point node with hidden children.
- Console: the text widget is reduced to the text after the prompt and the cursor's block and column. Cursor movement, insertion and the key event plumbing of keyPressEvent, displayPrompt and getCommand are left out.
- Console.Blank trims ASCII white space only. Unicode spaces are not modelled.
- Console.SetPrompt takes the prompt's length in characters (Unicode scalar values). QString::length counts UTF-16 code units, so a character outside the Basic Multilingual Plane counts twice in the source and once here. Console.HandleBackspace then compares the cursor column, a parameter, against that shorter length.
- SimpleText.Layout walks the text by Unicode scalar values. The source walks a QString by UTF-16 code units: a character outside the Basic Multilingual Plane, such as U+1F600, is two QChars there. Each draws nothing and advances the pen, so the pen moves twice as far there as here.
- SearchWidget: replace's insertion of the replacement text, replaceAll's document loop, keyPressEvent, setReplaceMode, restartSearch and showSearch/showReplace are left out. They are document editing and widget plumbing. The guard on replace is modelled.
- SaveItems: the selection is taken to come in row order. The auto-save checkbox is left out, because it is preference plumbing.
- CodeEditor: file I/O (saveFile, loadFile, openFile), the highlighting of the current line and painting of the gutter are left out.
- Asciidoc.Capitalize requires a non-empty name, because the source indexes the first character. Case mapping is ASCII-only.
- Camera: applyTo, which builds the Qt matrix for drawing, is rendering and is left out.
- Bbox: dimension() and the default constructor are left out, because they hold no behaviour beyond constants.
- OglHelper: OpenGL drawing, display lists, tessellation and the Polyhedron copy constructor are left out. An unset facet normal is zero here.
- Layout: setParent and setScope are plain field updates. The reporter stream the redefinition warning goes to is left out; the warning's text is modelled. A layout holds its parent by value, not by pointer. So a later setParent or addModule on an ancestor is not seen through a child made before it, where the source's child would see it.
- PrimitiveNode.AppendVertex requires at least one polygon, because the source calls QList::last, which is undefined on an empty list.
- SolidPython: a module import throws in the source and is a Failure here. Running out of single-letter variable names is also a Failure, where the source throws NotImplemented.

## Findings

| source | as written | input that shows it | evidently intended | confidence | as-written member | corrected member |
|---|---|---|---|---|---|---|
| src/module/polygonmodule.cpp:40-45 | indices are checked against the count of all entries of the points list, including entries that are not vectors and create no vertex | points `[[...], 5, [...]]` with no lines: two vertices, polygon `[0,1,2]`, and index 2 names no vertex | indices bounded by the number of vertices created | high, not executed | PolygonModule.EvaluateAsWritten | PolygonModule.Evaluate |
| src/module/polyhedronmodule.cpp:55 | `index < children.count()` counts every entry of the points list | points `[[...], 5, [...]]`, surfaces `[[2]]`: two vertices, polygon `[2]` names no vertex | indices bounded by the number of vertices created | high, not executed | PolyhedronModule.StrayIndex | PolyhedronModule.Evaluate |
| gui/src/module/scalemodule.cpp:64-69 | the translation column is `a*x-a`, which keeps the point -r fixed | `scale([2,2,2],[1,0,0])` sends the reference point (1,0,0) to (3,0,0) | `a-a*x`, which keeps the reference point fixed | high, not executed | Scale.MovesReference | Scale.ScalesAboutReference |
| lib/src/breadboardcontroller.cpp:95-103 | cancelCreation clears the controller's moving ids but not the model's | pick up the component at term-top:0:0, drop it at term-top:0:5: the new hole then reads as free | the model's moving ids are released too | medium, not executed | BreadboardControl.MovedComponentUnoccupiedAsWritten | BreadboardControl.MovedComponentOccupiedCorrected |
| src/solidpython.cpp:159 | a module definition clears the used variable names and never restores them | `module m(){a=1; module n(){} cube(); sphere(r=a);}` binds `a=cube()` and then `b=sphere(r=a)`, so `a` is rebound | a nested module's names do not disturb the enclosing scope | medium, not executed | SolidPython.NestedModuleRebindsAsWritten | SolidPython.NestedModuleFreshCorrected |
