/** The accessibility-tree automation driver of the silent installer
    (scripts/vbox/QtSilentInstall/Program.cs): element handles over an
    accessibility provider, the three match predicates, the pre-order search,
    the window-by-process filter, the two-phase poll loop and the exit codes
    of the entry point.

    The provider is abstracted as an immutable tree. Every poll of the loop
    reads the provider as it is at that moment, so the loop consumes one
    provider snapshot per sleep; real time is not modelled. */
module Automation {
  import opened Wrappers
  import Text

  // ---------------------------------------------------------------------
  // Provider constants (System.Windows.Forms enumerations)
  // ---------------------------------------------------------------------

  /** AccessibleRole.CheckButton */
  const ROLE_CHECK_BUTTON: int := 0x2C
  /** AccessibleRole.RadioButton */
  const ROLE_RADIO_BUTTON: int := 0x2D
  /** AccessibleStates.Checked */
  const STATE_CHECKED: bv32 := 0x10
  /** AccessibleStates.Invisible */
  const STATE_INVISIBLE: bv32 := 0x8000
  /** OBJID_WINDOW: the id of the whole-window object. */
  const OBJID_WINDOW: int := 0

  /** Exit code for a wrong argument count. */
  const EXIT_BAD_ARG_COUNT: int := 1639
  /** Exit code for a null argument. */
  const EXIT_NULL_ARG: int := 160
  /** The default poll interval of WaitFor, in milliseconds. */
  const DEFAULT_PAUSE: int := 100
  /** The checkbox the script expects ticked on the last page. */
  const LAUNCH_LABEL: string := "Launch Qt Creator"

  // ---------------------------------------------------------------------
  // Provider data model
  // ---------------------------------------------------------------------

  /** What get_accName yields: a null name, a string, or an exception. */
  datatype NameResult = NullName | Named(text: string) | NameThrows

  /** What the provider reports for one item of a node. */
  datatype Item = Item(name: NameResult, role: int, state: bv32)

  /** A value AccessibleChildren stores in its output array: an int child
      id, an IAccessible object, or anything else (including null). */
  datatype ProviderValue = ChildId(id: int) | ChildObject(node: Node) | OtherValue

  /** An accessible object: the items it describes (id 0 is the object
      itself), its accChildCount, and what AccessibleChildren would fill in. */
  datatype Node = Node(items: map<int, Item>, childCount: nat, children: seq<ProviderValue>)

  /** An element handle: an accessible object plus the sub-item id. */
  datatype Elem = Elem(node: Node, id: int)

  /** The item an element denotes. An id the provider does not describe is
      read as a nameless item with role 0 and no state bits. */
  function ItemOf(e: Elem): (it: Item)
    ensures e.id in e.node.items ==> it == e.node.items[e.id]
    ensures e.id !in e.node.items ==> it.name == NameThrows && it.role == 0 && it.state == 0
  {
    if e.id in e.node.items then e.node.items[e.id] else Item(NameThrows, 0, 0)
  }

  /** The Name property: null stays null, a failed retrieval reads as "". */
  function Name(e: Elem): (r: Option<string>)
    ensures ItemOf(e).name == NullName <==> r == None
    ensures ItemOf(e).name == NameThrows ==> r == Some("")
    ensures ItemOf(e).name.Named? ==> r == Some(ItemOf(e).name.text)
  {
    match ItemOf(e).name
    case NullName => None
    case Named(t) => Some(t)
    case NameThrows => Some("")
  }

  /** The Role property: the provider's role of the item, 0 for an
      undescribed id. */
  function Role(e: Elem): (r: int)
    ensures e.id in e.node.items ==> r == e.node.items[e.id].role
    ensures e.id !in e.node.items ==> r == 0
  {
    ItemOf(e).role
  }

  /** The State property: the provider's state bits of the item, none
      for an undescribed id. */
  function State(e: Elem): (r: bv32)
    ensures e.id in e.node.items ==> r == e.node.items[e.id].state
    ensures e.id !in e.node.items ==> r == 0
  {
    ItemOf(e).state
  }

  function Invisible(e: Elem): (b: bool)
    ensures b <==> State(e) & STATE_INVISIBLE == STATE_INVISIBLE
  {
    State(e) & STATE_INVISIBLE != 0
  }

  function Checked(e: Elem): (b: bool)
    ensures b <==> State(e) & STATE_CHECKED == STATE_CHECKED
  {
    State(e) & STATE_CHECKED != 0
  }

  /** hasChildren: only a whole-node handle can have children, and it has
      them exactly when the provider reports a positive child count. */
  function HasChildren(e: Elem): (b: bool)
    ensures e.id != 0 ==> !b
    ensures e.id == 0 ==> (b <==> e.node.childCount > 0)
  {
    if e.id != 0 then false else e.node.childCount > 0
  }

  /** The output array of AccessibleChildren: childCount slots, filled
      from the provider's values; slots it did not fill stay null. */
  function ObtainedValues(n: Node): (vs: seq<ProviderValue>)
    ensures |vs| == n.childCount
    ensures forall k :: 0 <= k < |vs| && k < |n.children| ==> vs[k] == n.children[k]
    ensures forall k :: |n.children| <= k < |vs| ==> vs[k] == OtherValue
  {
    seq(n.childCount, k requires 0 <= k < n.childCount =>
      if k < |n.children| then n.children[k] else OtherValue)
  }

  /** ElementFromObject: an int becomes a sub-item of the same node, an
      accessible object becomes a whole-node handle, anything else is
      dropped. */
  function ElementFromObject(owner: Node, v: ProviderValue): (r: Option<Elem>)
    ensures v.ChildId? ==> r == Some(Elem(owner, v.id))
    ensures v.ChildObject? ==> r == Some(Elem(v.node, 0))
    ensures v.OtherValue? ==> r == None
  {
    match v
    case ChildId(i) => Some(Elem(owner, i))
    case ChildObject(o) => Some(Elem(o, 0))
    case OtherValue => None
  }

  /** The number of provider values that ElementFromObject keeps. */
  function CountKept(vs: seq<ProviderValue>): (n: nat)
    ensures n <= |vs|
  {
    if |vs| == 0 then 0 else (if vs[0].OtherValue? then 0 else 1) + CountKept(vs[1..])
  }

  /** The elements built from a list of provider values, dropped ones left out. */
  function ElementsFrom(owner: Node, vs: seq<ProviderValue>): (es: seq<Elem>)
    ensures |es| <= |vs|
    ensures |es| == CountKept(vs)
    ensures forall a :: a in es ==> (exists v :: v in vs && ElementFromObject(owner, v) == Some(a))
    ensures (forall v :: v in vs ==> !v.OtherValue?) ==> |es| == |vs|
  {
    if |vs| == 0 then []
    else
      var rest := ElementsFrom(owner, vs[1..]);
      assert forall v :: v in vs[1..] ==> v in vs;
      match ElementFromObject(owner, vs[0])
      case Some(a) => [a] + rest
      case None => rest
  }

  /** The Children property. It reads the node's children whatever the
      sub-item id of the handle is. */
  function Children(e: Elem): (cs: seq<Elem>)
    ensures |cs| <= e.node.childCount
    ensures |cs| == CountKept(ObtainedValues(e.node))
  {
    ElementsFrom(e.node, ObtainedValues(e.node))
  }

  /** A kept value k gives the element at its rank: the number of kept
      values before it. */
  lemma {:induction false} ElementsFromRanks(owner: Node, vs: seq<ProviderValue>, k: int)
    requires 0 <= k < |vs| && !vs[k].OtherValue?
    ensures CountKept(vs[..k]) < |ElementsFrom(owner, vs)|
    ensures ElementsFrom(owner, vs)[CountKept(vs[..k])] == ElementFromObject(owner, vs[k]).value
  {
    if k > 0 {
      ElementsFromRanks(owner, vs[1..], k - 1);
      assert vs[..k][1..] == vs[1..][..k - 1];
    } else {
      assert vs[..k] == [];
    }
  }

  lemma {:induction false} CountKeptAppend(a: seq<ProviderValue>, b: seq<ProviderValue>)
    ensures CountKept(a + b) == CountKept(a) + CountKept(b)
  {
    if |a| > 0 {
      CountKeptAppend(a[1..], b);
      assert (a + b)[1..] == a[1..] + b;
    } else {
      assert a + b == b;
    }
  }

  /** Ranks of kept values strictly increase, so with the count they fix
      the whole list: nothing is reordered or dropped. */
  lemma KeptRanksIncrease(vs: seq<ProviderValue>, j: int, k: int)
    requires 0 <= j < k <= |vs| && !vs[j].OtherValue?
    ensures CountKept(vs[..j]) < CountKept(vs[..k])
  {
    assert vs[..k] == vs[..j] + ([vs[j]] + vs[j + 1..k]);
    CountKeptAppend(vs[..j], [vs[j]] + vs[j + 1..k]);
    assert ([vs[j]] + vs[j + 1..k])[1..] == vs[j + 1..k];
  }

  /** Children in the order of the output array: a slot the provider
      filled with an id or an object gives the child at its rank among
      the filled slots before it. */
  lemma ChildrenRanks(e: Elem, k: int)
    requires 0 <= k < e.node.childCount && k < |e.node.children| && !e.node.children[k].OtherValue?
    ensures var vs := ObtainedValues(e.node);
      CountKept(vs[..k]) < |Children(e)|
      && Children(e)[CountKept(vs[..k])] == ElementFromObject(e.node, e.node.children[k]).value
  {
    ElementsFromRanks(e.node, ObtainedValues(e.node), k);
  }

  /** Every child is either a sub-item of the same node or a whole-node
      handle on an object the provider listed as a child. */
  lemma ChildrenShape(e: Elem, a: Elem)
    requires a in Children(e)
    ensures (a.node == e.node && ChildId(a.id) in e.node.children)
         || (a.id == 0 && ChildObject(a.node) in e.node.children)
  {
    var vs := ObtainedValues(e.node);
    var v :| v in vs && ElementFromObject(e.node, v) == Some(a);
    var k :| 0 <= k < |vs| && vs[k] == v;
    assert k < |e.node.children|;
    assert v == e.node.children[k];
  }

  /** The handle's sub-item id does not change what Children returns. */
  lemma ChildrenIgnoreItemId(n: Node, i: int, j: int)
    ensures Children(Elem(n, i)) == Children(Elem(n, j))
  {
  }

  /** A provider that terminates the search: it never lists the child id 0
      (which would re-enter the same node) and the same holds below. */
  predicate WellFormed(n: Node)
    decreases n
  {
    forall k :: 0 <= k < |n.children| ==>
      n.children[k] != ChildId(0)
      && (n.children[k].ChildObject? ==> WellFormed(n.children[k].node))
  }

  /** Elements whose descent stays below the owner node. */
  predicate BelowOwner(cs: seq<Elem>, owner: Node)
  {
    forall a :: a in cs ==>
      (a.node == owner && a.id != 0)
      || (a.id == 0 && ChildObject(a.node) in owner.children && WellFormed(a.node))
  }

  lemma ChildrenBelowOwner(e: Elem)
    requires WellFormed(e.node)
    ensures BelowOwner(Children(e), e.node)
  {
    forall a | a in Children(e)
      ensures (a.node == e.node && a.id != 0)
           || (a.id == 0 && ChildObject(a.node) in e.node.children && WellFormed(a.node))
    {
      ChildrenShape(e, a);
      if a.id == 0 {
        var k :| 0 <= k < |e.node.children| && e.node.children[k] == ChildObject(a.node);
      }
    }
  }

  // ---------------------------------------------------------------------
  // Search
  // ---------------------------------------------------------------------

  /** Descend: test each element, and on a miss search its children before
      moving on to the next sibling. */
  function Descend(cs: seq<Elem>, m: Elem -> bool, ghost owner: Node): (r: Option<Elem>)
    requires BelowOwner(cs, owner)
    ensures r.Some? ==> m(r.value)
    ensures |cs| > 0 && m(cs[0]) ==> r == Some(cs[0])
    ensures |cs| == 0 ==> r == None
    decreases owner, |cs|
  {
    if |cs| == 0 then None
    else
      var a := cs[0];
      if m(a) then Some(a)
      else
        var r := if HasChildren(a) then DescendInto(a, m, owner) else None;
        if r.Some? then r else Descend(cs[1..], m, owner)
  }

  function DescendInto(a: Elem, m: Elem -> bool, ghost owner: Node): (r: Option<Elem>)
    requires a.id == 0 && ChildObject(a.node) in owner.children && WellFormed(a.node)
    ensures r.Some? ==> m(r.value)
    ensures |Children(a)| == 0 ==> r == None
    decreases owner, 0
  {
    assert a.node < owner;
    ChildrenBelowOwner(a);
    Descend(Children(a), m, a.node)
  }

  /** Find: the search covers the element's descendants, never the element itself. */
  function Find(e: Elem, m: Elem -> bool): (r: Option<Elem>)
    requires WellFormed(e.node)
    ensures r.Some? ==> m(r.value)
    ensures |Children(e)| == 0 ==> r == None
  {
    ChildrenBelowOwner(e);
    Descend(Children(e), m, e.node)
  }

  /** The pre-order listing the search walks: each element, then its
      descendants, then its next sibling. */
  function PreOrder(cs: seq<Elem>, ghost owner: Node): seq<Elem>
    requires BelowOwner(cs, owner)
    decreases owner, |cs|
  {
    if |cs| == 0 then []
    else
      var a := cs[0];
      var below := if HasChildren(a) then PreOrderInto(a, owner) else [];
      [a] + below + PreOrder(cs[1..], owner)
  }

  function PreOrderInto(a: Elem, ghost owner: Node): seq<Elem>
    requires a.id == 0 && ChildObject(a.node) in owner.children && WellFormed(a.node)
    decreases owner, 0
  {
    assert a.node < owner;
    ChildrenBelowOwner(a);
    PreOrder(Children(a), a.node)
  }

  /** The first element of a sequence satisfying m, if any. */
  function FirstMatch(s: seq<Elem>, m: Elem -> bool): (r: Option<Elem>)
    ensures r.Some? ==> r.value in s && m(r.value)
  {
    if |s| == 0 then None
    else if m(s[0]) then Some(s[0])
    else FirstMatch(s[1..], m)
  }

  /** FirstMatch is the element at the least index satisfying m, and None
      exactly when no element does. */
  lemma {:induction false} FirstMatchIsLeast(s: seq<Elem>, m: Elem -> bool)
    ensures FirstMatch(s, m) == None <==> forall k :: 0 <= k < |s| ==> !m(s[k])
    ensures FirstMatch(s, m).Some? ==>
              exists k :: 0 <= k < |s| && s[k] == FirstMatch(s, m).value
                          && forall j :: 0 <= j < k ==> !m(s[j])
  {
    if |s| > 0 && !m(s[0]) {
      FirstMatchIsLeast(s[1..], m);
      assert forall k :: 1 <= k < |s| ==> s[k] == s[1..][k - 1];
      if FirstMatch(s, m).Some? {
        var k :| 0 <= k < |s[1..]| && s[1..][k] == FirstMatch(s, m).value
                 && forall j :: 0 <= j < k ==> !m(s[1..][j]);
        assert s[k + 1] == FirstMatch(s, m).value;
      }
    }
  }

  lemma FirstMatchAppend(a: seq<Elem>, b: seq<Elem>, m: Elem -> bool)
    ensures FirstMatch(a + b, m) == if FirstMatch(a, m).Some? then FirstMatch(a, m) else FirstMatch(b, m)
  {
    if |a| > 0 {
      assert (a + b)[1..] == a[1..] + b;
      FirstMatchAppend(a[1..], b, m);
    } else {
      assert a + b == b;
    }
  }

  /** Descend returns the first match of the pre-order walk: it tests a
      node before its children and children before later siblings. */
  lemma {:induction false} DescendIsPreOrderFirstMatch(cs: seq<Elem>, m: Elem -> bool, owner: Node)
    requires BelowOwner(cs, owner)
    ensures Descend(cs, m, owner) == FirstMatch(PreOrder(cs, owner), m)
    decreases owner, |cs|
  {
    if |cs| > 0 {
      var a := cs[0];
      var below := if HasChildren(a) then PreOrderInto(a, owner) else [];
      DescendIsPreOrderFirstMatch(cs[1..], m, owner);
      if HasChildren(a) {
        assert a.node < owner;
        ChildrenBelowOwner(a);
        DescendIsPreOrderFirstMatch(Children(a), m, a.node);
      }
      FirstMatchAppend([a] + below, PreOrder(cs[1..], owner), m);
      FirstMatchAppend([a], below, m);
      assert [a] + below + PreOrder(cs[1..], owner) == ([a] + below) + PreOrder(cs[1..], owner);
    }
  }

  /** Find yields the first pre-order match among the descendants, and
      nothing exactly when no descendant matches. */
  lemma FindIsFirstDescendantMatch(e: Elem, m: Elem -> bool)
    requires WellFormed(e.node)
    ensures BelowOwner(Children(e), e.node)
    ensures Find(e, m) == FirstMatch(PreOrder(Children(e), e.node), m)
    ensures Find(e, m) == None <==> forall x :: x in PreOrder(Children(e), e.node) ==> !m(x)
  {
    ChildrenBelowOwner(e);
    DescendIsPreOrderFirstMatch(Children(e), m, e.node);
    var s := PreOrder(Children(e), e.node);
    FirstMatchIsLeast(s, m);
    if Find(e, m) == None {
      forall x | x in s ensures !m(x) {
        var k :| 0 <= k < |s| && s[k] == x;
      }
    }
  }

  /** Every element the search visits under an owner is a sub-item of the
      owner itself or lies strictly below it. */
  lemma {:induction false} PreOrderBelow(cs: seq<Elem>, owner: Node, x: Elem)
    requires BelowOwner(cs, owner)
    requires x in PreOrder(cs, owner)
    ensures (x.node == owner && x.id != 0) || x.node < owner
    decreases owner, |cs|
  {
    var a := cs[0];
    var below := if HasChildren(a) then PreOrderInto(a, owner) else [];
    assert PreOrder(cs, owner) == [a] + below + PreOrder(cs[1..], owner);
    if x == a {
      if a.id == 0 {
        assert a.node < owner;
      }
    } else if x in below {
      assert a.node < owner;
      ChildrenBelowOwner(a);
      PreOrderBelow(Children(a), a.node, x);
    } else {
      PreOrderBelow(cs[1..], owner, x);
    }
  }

  /** Find never tests the root: two predicates that differ only on the
      root element give the same answer. */
  lemma FindSkipsRoot(e: Elem, m1: Elem -> bool, m2: Elem -> bool)
    requires WellFormed(e.node) && e.id == 0
    requires forall x :: x != e ==> m1(x) == m2(x)
    ensures Find(e, m1) == Find(e, m2)
  {
    ChildrenBelowOwner(e);
    var s := PreOrder(Children(e), e.node);
    forall x | x in s ensures x != e {
      PreOrderBelow(Children(e), e.node, x);
    }
    FindIsFirstDescendantMatch(e, m1);
    FindIsFirstDescendantMatch(e, m2);
    FirstMatchAgree(s, m1, m2);
  }

  lemma FirstMatchAgree(s: seq<Elem>, m1: Elem -> bool, m2: Elem -> bool)
    requires forall x :: x in s ==> m1(x) == m2(x)
    ensures FirstMatch(s, m1) == FirstMatch(s, m2)
  {
    if |s| > 0 {
      assert forall x :: x in s[1..] ==> x in s;
      FirstMatchAgree(s[1..], m1, m2);
    }
  }

  // ---------------------------------------------------------------------
  // Predicates
  // ---------------------------------------------------------------------

  /** The three predicate families. Name.StartsWith keeps its prefix in a
      static field, so a predicate reads the prefix of the most recent
      StartsWith call, not the one it was created with. */
  datatype Pred = NameStartsWith(requested: string) | LicenseRadio | LaunchCheckBox

  /** Name.StartsWith: records the prefix in the static slot. */
  function StartsWith(prefix: string): (r: (Pred, string))
    ensures r.0 == NameStartsWith(prefix) && r.1 == prefix
  {
    (NameStartsWith(prefix), prefix)
  }

  /** Name.IsMatch against the prefix held in the static slot. */
  function NameMatches(slot: string, e: Elem): (b: bool)
    ensures b <==> Name(e).Some? && !Invisible(e) && Text.IsPrefix(slot, Name(e).value)
  {
    match Name(e)
    case None => false
    case Some(n) => if !Invisible(e) then |slot| <= |n| && n[..|slot|] == slot else false
  }

  function LicenseRadioMatches(e: Elem): (b: bool)
    ensures b <==> Name(e) == None && Role(e) == ROLE_RADIO_BUTTON && !Checked(e)
  {
    Name(e) == None && Role(e) == ROLE_RADIO_BUTTON && Checked(e) == false
  }

  function LaunchCheckBoxMatches(e: Elem): (b: bool)
    ensures b <==> Name(e) == Some(LAUNCH_LABEL) && Role(e) == ROLE_CHECK_BUTTON && Checked(e)
  {
    Name(e) == Some(LAUNCH_LABEL) && Role(e) == ROLE_CHECK_BUTTON && Checked(e) == true
  }

  function Matches(p: Pred, slot: string, e: Elem): bool
  {
    match p
    case NameStartsWith(_) => NameMatches(slot, e)
    case LicenseRadio => LicenseRadioMatches(e)
    case LaunchCheckBox => LaunchCheckBoxMatches(e)
  }

  /** The most recent StartsWith call decides what every name predicate
      matches: a predicate made for "Next" matches "Skip" once StartsWith
      has been called with "Skip". */
  lemma NamePredicatesShareSlot(first: string, second: string, e: Elem)
    ensures var (p, _) := StartsWith(first);
            var (_, slot) := StartsWith(second);
            Matches(p, slot, e) == NameMatches(second, e)
  {
  }

  /** A concrete case of the shared slot: the "Next" predicate, evaluated
      after StartsWith("Skip"), accepts a visible "Skip" button and rejects
      a visible "Next" button. */
  lemma StaleNamePredicate()
    ensures var skip := Elem(Node(map[0 := Item(Named("Skip"), 0, 0)], 0, []), 0);
            var next := Elem(Node(map[0 := Item(Named("Next"), 0, 0)], 0, []), 0);
            var (p, _) := StartsWith("Next");
            var (_, slot) := StartsWith("Skip");
            Matches(p, slot, skip) && !Matches(p, slot, next)
  {
    var next := Elem(Node(map[0 := Item(Named("Next"), 0, 0)], 0, []), 0);
    assert Name(next) == Some("Next") && !Invisible(next);
    assert "Next"[..4][0] != "Skip"[0];
  }

  // ---------------------------------------------------------------------
  // Window locator
  // ---------------------------------------------------------------------

  datatype Window = Window(hwnd: int, pid: int)

  /** EnumWindows with the FindWindow callback: enumeration stops at the
      first window owned by pid and stores its handle in the global gHWND;
      when no window matches, gHWND keeps its previous value. */
  function EnumFindWindow(ws: seq<Window>, pid: int, gHwnd: int): (r: int)
    ensures r == gHwnd || exists w :: w in ws && w.pid == pid && w.hwnd == r
  {
    if |ws| == 0 then gHwnd
    else if ws[0].pid == pid then ws[0].hwnd
    else EnumFindWindow(ws[1..], pid, gHwnd)
  }

  /** The handle stored is that of the first window, in enumeration
      order, owned by the process; with no such window it is unchanged. */
  lemma {:induction false} EnumFindWindowFirstOwned(ws: seq<Window>, pid: int, gHwnd: int)
    ensures (exists k :: 0 <= k < |ws| && ws[k].pid == pid) ==>
              exists k :: 0 <= k < |ws| && ws[k].pid == pid && EnumFindWindow(ws, pid, gHwnd) == ws[k].hwnd
                          && forall j :: 0 <= j < k ==> ws[j].pid != pid
    ensures (forall k :: 0 <= k < |ws| ==> ws[k].pid != pid) ==> EnumFindWindow(ws, pid, gHwnd) == gHwnd
  {
    if |ws| > 0 && ws[0].pid != pid {
      var r := EnumFindWindow(ws, pid, gHwnd);
      EnumFindWindowFirstOwned(ws[1..], pid, gHwnd);
      assert forall k :: 1 <= k < |ws| ==> ws[k] == ws[1..][k - 1];
      if exists k :: 0 <= k < |ws| && ws[k].pid == pid {
        var k :| 0 <= k < |ws| && ws[k].pid == pid;
        assert ws[1..][k - 1].pid == pid;
        var k' :| 0 <= k' < |ws[1..]| && ws[1..][k'].pid == pid && r == ws[1..][k'].hwnd
                  && forall j :: 0 <= j < k' ==> ws[1..][j].pid != pid;
        assert ws[k' + 1].pid == pid && r == ws[k' + 1].hwnd;
      }
    }
  }

  /** The provider's state at one poll: the top-level windows in
      enumeration order and the accessible root of each window handle. */
  datatype Snapshot = Snapshot(windows: seq<Window>, roots: map<int, Node>)

  predicate SnapshotWellFormed(s: Snapshot) {
    forall h :: h in s.roots ==> WellFormed(s.roots[h])
  }

  /** Accessible.fromWindow: the window's accessible object, or null. */
  function FromWindow(s: Snapshot, hwnd: int): (r: Option<Elem>)
    ensures r.Some? <==> hwnd in s.roots
    ensures r.Some? ==> r.value == Elem(s.roots[hwnd], OBJID_WINDOW)
  {
    if hwnd in s.roots then Some(Elem(s.roots[hwnd], OBJID_WINDOW)) else None
  }

  /** One search poll: the root found in the first phase is a live object,
      so each poll searches the tree the window has at that moment. A
      window that has gone away yields no match. */
  function PollFind(s: Snapshot, hwnd: int, p: Pred, slot: string): (r: Option<Elem>)
    requires SnapshotWellFormed(s)
    ensures r.Some? ==> Matches(p, slot, r.value)
  {
    if hwnd in s.roots then
      var r := Find(Elem(s.roots[hwnd], OBJID_WINDOW), e => Matches(p, slot, e));
      FindIsFirstDescendantMatch(Elem(s.roots[hwnd], OBJID_WINDOW), e => Matches(p, slot, e));
      r
    else None
  }

  // ---------------------------------------------------------------------
  // The two-phase poll loop
  // ---------------------------------------------------------------------

  /** The first phase-one poll at or after i that resolves a window root;
      it yields the poll index and the gHWND value after that poll. */
  function FirstWindowPoll(snaps: seq<Snapshot>, i: nat, pid: int, gHwnd: int): (r: Option<(nat, int)>)
    requires i <= |snaps|
    ensures r.Some? ==> i <= r.value.0 < |snaps| && r.value.1 in snaps[r.value.0].roots
    decreases |snaps| - i
  {
    if i == |snaps| then None
    else
      var g := EnumFindWindow(snaps[i].windows, pid, gHwnd);
      if FromWindow(snaps[i], g).Some? then Some((i, g))
      else FirstWindowPoll(snaps, i + 1, pid, g)
  }

  /** The first phase-two poll at or after j whose search finds a match. */
  function FirstMatchPoll(snaps: seq<Snapshot>, j: nat, hwnd: int, p: Pred, slot: string): (r: Option<(nat, Elem)>)
    requires j <= |snaps|
    requires forall k :: 0 <= k < |snaps| ==> SnapshotWellFormed(snaps[k])
    ensures r.Some? ==> j <= r.value.0 < |snaps| && PollFind(snaps[r.value.0], hwnd, p, slot) == Some(r.value.1)
    ensures r.Some? ==> forall k :: j <= k < r.value.0 ==> PollFind(snaps[k], hwnd, p, slot).None?
    ensures r.None? ==> forall k :: j <= k < |snaps| ==> PollFind(snaps[k], hwnd, p, slot).None?
    decreases |snaps| - j
  {
    if j == |snaps| then None
    else
      var b := PollFind(snaps[j], hwnd, p, slot);
      if b.Some? then Some((j, b.value)) else FirstMatchPoll(snaps, j + 1, hwnd, p, slot)
  }

  /** The outcome of WaitFor: the match, the number of sleeps (one per
      poll, one poll per snapshot) and the final gHWND. */
  datatype Waited = Waited(found: Elem, polls: nat, gHwnd: int)

  /** The reference outcome of WaitFor over the given polls: None means
      the loop is still blocked when the snapshots run out. */
  function WaitSpec(snaps: seq<Snapshot>, pid: int, p: Pred, slot: string, gHwnd: int): (r: Option<Waited>)
    requires forall k :: 0 <= k < |snaps| ==> SnapshotWellFormed(snaps[k])
    ensures r.Some? ==> 2 <= r.value.polls <= |snaps|
  {
    match FirstWindowPoll(snaps, 0, pid, gHwnd)
    case None => None
    case Some((i, g)) =>
      match FirstMatchPoll(snaps, i + 1, g, p, slot)
      case None => None
      case Some((j, b)) => Some(Waited(b, j + 1, g))
  }

  /** The first loop of WaitFor: sleep, enumerate the windows, and try
      to obtain the root of the window gHWND names, until that succeeds. */
  method LocateWindow(snaps: seq<Snapshot>, pid: int, gHwnd0: int) returns (r: Option<(nat, int)>)
    ensures r == FirstWindowPoll(snaps, 0, pid, gHwnd0)
    ensures r.Some? ==> r.value.0 < |snaps| && r.value.1 in snaps[r.value.0].roots
  {
    var i := 0;
    var g := gHwnd0;
    while i < |snaps|
      invariant 0 <= i <= |snaps|
      invariant FirstWindowPoll(snaps, 0, pid, gHwnd0) == FirstWindowPoll(snaps, i, pid, g)
      decreases |snaps| - i
    {
      var g' := EnumFindWindow(snaps[i].windows, pid, g);
      if FromWindow(snaps[i], g').Some? {
        return Some((i, g'));
      }
      g := g';
      i := i + 1;
    }
    return None;
  }

  /** The second loop of WaitFor: sleep and search the located window
      until the search finds a match. */
  method PollForMatch(snaps: seq<Snapshot>, start: nat, hwnd: int, p: Pred, slot: string)
    returns (r: Option<(nat, Elem)>)
    requires start <= |snaps|
    requires forall k :: 0 <= k < |snaps| ==> SnapshotWellFormed(snaps[k])
    ensures r == FirstMatchPoll(snaps, start, hwnd, p, slot)
    ensures r.Some? ==> Matches(p, slot, r.value.1)
  {
    var j := start;
    while j < |snaps|
      invariant start <= j <= |snaps|
      invariant FirstMatchPoll(snaps, start, hwnd, p, slot) == FirstMatchPoll(snaps, j, hwnd, p, slot)
      decreases |snaps| - j
    {
      var b := PollFind(snaps[j], hwnd, p, slot);
      if b.Some? {
        return Some((j, b.value));
      }
      j := j + 1;
    }
    return None;
  }

  /** WaitFor(p, match, pause): first wait for the process's window, then
      for a matching element below it. Each poll sleeps once and reads the
      next snapshot; the result also reports the total time slept. */
  method WaitFor(snaps: seq<Snapshot>, pid: int, p: Pred, slot: string, pause: int, gHwnd0: int)
    returns (r: Option<Waited>, slept: int)
    requires forall k :: 0 <= k < |snaps| ==> SnapshotWellFormed(snaps[k])
    ensures r == WaitSpec(snaps, pid, p, slot, gHwnd0)
    ensures r.Some? ==> Matches(p, slot, r.value.found)
    ensures r.Some? ==> 2 <= r.value.polls <= |snaps| && slept == r.value.polls * pause
  {
    var w := LocateWindow(snaps, pid, gHwnd0);
    if w.None? {
      return None, |snaps| * pause;
    }
    var (i, g) := w.value;
    var b := PollForMatch(snaps, i + 1, g, p, slot);
    if b.None? {
      return None, |snaps| * pause;
    }
    var (j, found) := b.value;
    r := Some(Waited(found, j + 1, g));
    slept := (j + 1) * pause;
  }

  /** WaitFor(p, match): the two-argument overload polls every 100 ms. */
  method WaitForDefault(snaps: seq<Snapshot>, pid: int, p: Pred, slot: string, gHwnd0: int)
    returns (r: Option<Waited>, slept: int)
    requires forall k :: 0 <= k < |snaps| ==> SnapshotWellFormed(snaps[k])
    ensures r == WaitSpec(snaps, pid, p, slot, gHwnd0)
    ensures r.Some? ==> slept == 100 * r.value.polls
  {
    r, slept := WaitFor(snaps, pid, p, slot, DEFAULT_PAUSE, gHwnd0);
  }

  /** When the window exists at the first poll and the element at the
      second, WaitFor returns after exactly two sleeps. */
  lemma WaitForPresentElement(snaps: seq<Snapshot>, pid: int, p: Pred, slot: string, gHwnd: int, w: Window, b: Elem)
    requires forall k :: 0 <= k < |snaps| ==> SnapshotWellFormed(snaps[k])
    requires |snaps| >= 2 && |snaps[0].windows| > 0 && snaps[0].windows[0] == w && w.pid == pid
    requires w.hwnd in snaps[0].roots
    requires PollFind(snaps[1], w.hwnd, p, slot) == Some(b)
    ensures WaitSpec(snaps, pid, p, slot, gHwnd) == Some(Waited(b, 2, w.hwnd))
  {
  }

  /** A match that only appears at poll n is not returned earlier: the
      number of sleeps is at least n + 1. */
  lemma WaitForNoEarlier(snaps: seq<Snapshot>, pid: int, p: Pred, slot: string, gHwnd: int, n: nat)
    requires forall k :: 0 <= k < |snaps| ==> SnapshotWellFormed(snaps[k])
    requires forall k :: 0 <= k < n && k < |snaps| ==> forall h :: PollFind(snaps[k], h, p, slot).None?
    requires WaitSpec(snaps, pid, p, slot, gHwnd).Some?
    ensures WaitSpec(snaps, pid, p, slot, gHwnd).value.polls >= n + 1
  {
    var (i, g) := FirstWindowPoll(snaps, 0, pid, gHwnd).value;
    var (j, b) := FirstMatchPoll(snaps, i + 1, g, p, slot).value;
    if j < n {
      // FirstMatchPoll found a match at poll j, which the requires rules out
      assert false;
    }
  }

  // ---------------------------------------------------------------------
  // The script and the entry point
  // ---------------------------------------------------------------------

  /** One scripted wait: the predicate, whether the found element's default
      action is invoked, and the poll interval. */
  datatype Step = Step(pred: Pred, act: bool, pause: int)

  /** The installer flow of Program.Main, in order. */
  const Script: seq<Step> := [
    Step(NameStartsWith("Next"), true, 100),
    Step(NameStartsWith("Skip"), true, 100),
    Step(NameStartsWith("Next"), true, 100),
    Step(NameStartsWith("Next"), true, 100),
    Step(NameStartsWith("Next"), true, 100),
    Step(LicenseRadio, true, 100),
    Step(NameStartsWith("Next"), true, 100),
    Step(NameStartsWith("Next"), true, 100),
    Step(NameStartsWith("Install"), true, 100),
    Step(NameStartsWith("Finish"), false, 5000),
    Step(LaunchCheckBox, true, 100),
    Step(NameStartsWith("Finish"), true, 100)
  ]

  /** What running the script did: the elements whose default action was
      invoked, in order, and the polls left over. */
  datatype Run = Run(actions: seq<Elem>, rest: seq<Snapshot>, gHwnd: int)

  /** Runs the steps one after the other; a name step sets the static
      prefix slot just before its wait, as Program.Main does. None: blocked. */
  function RunSteps(steps: seq<Step>, snaps: seq<Snapshot>, pid: int, slot: string, gHwnd: int): (r: Option<Run>)
    requires forall k :: 0 <= k < |snaps| ==> SnapshotWellFormed(snaps[k])
    ensures r.Some? ==> |r.value.rest| + 2 * |steps| <= |snaps|
    decreases |steps|
  {
    if |steps| == 0 then Some(Run([], snaps, gHwnd))
    else
      var st := steps[0];
      var slot' := if st.pred.NameStartsWith? then StartsWith(st.pred.requested).1 else slot;
      match WaitSpec(snaps, pid, st.pred, slot', gHwnd)
      case None => None
      case Some(w) =>
        var rest := snaps[w.polls..];
        assert forall k :: 0 <= k < |rest| ==> rest[k] == snaps[k + w.polls];
        match RunSteps(steps[1..], rest, pid, slot', w.gHwnd)
        case None => None
        case Some(run) =>
          Some(Run((if st.act then [w.found] else []) + run.actions, run.rest, run.gHwnd))
  }

  function CountActing(steps: seq<Step>): nat
  {
    if |steps| == 0 then 0 else (if steps[0].act then 1 else 0) + CountActing(steps[1..])
  }

  /** The steps that invoke the default action, in order. */
  function ActingSteps(steps: seq<Step>): (a: seq<Step>)
    ensures |a| == CountActing(steps)
    ensures forall k :: 0 <= k < |a| ==> a[k].act
  {
    if |steps| == 0 then []
    else (if steps[0].act then [steps[0]] else []) + ActingSteps(steps[1..])
  }

  /** What a step's predicate accepts while that step waits: a name step
      has just stored its own prefix in the static slot. */
  predicate Intended(p: Pred, e: Elem) {
    match p
    case NameStartsWith(prefix) => NameMatches(prefix, e)
    case LicenseRadio => LicenseRadioMatches(e)
    case LaunchCheckBox => LaunchCheckBoxMatches(e)
  }

  /** A completed run invokes one default action per acting step, and the
      k-th acted-on element satisfies the k-th acting step's predicate as
      that step meant it. */
  lemma {:induction false} RunStepsActions(steps: seq<Step>, snaps: seq<Snapshot>, pid: int, slot: string, gHwnd: int)
    requires forall k :: 0 <= k < |snaps| ==> SnapshotWellFormed(snaps[k])
    requires RunSteps(steps, snaps, pid, slot, gHwnd).Some?
    ensures var run := RunSteps(steps, snaps, pid, slot, gHwnd).value;
      |run.actions| == CountActing(steps)
      && forall k :: 0 <= k < |run.actions| ==> Intended(ActingSteps(steps)[k].pred, run.actions[k])
    decreases |steps|
  {
    if |steps| > 0 {
      var st := steps[0];
      var slot' := if st.pred.NameStartsWith? then StartsWith(st.pred.requested).1 else slot;
      var w := WaitSpec(snaps, pid, st.pred, slot', gHwnd).value;
      var rest := snaps[w.polls..];
      assert forall k :: 0 <= k < |rest| ==> rest[k] == snaps[k + w.polls];
      RunStepsActions(steps[1..], rest, pid, slot', w.gHwnd);
      WaitFound(snaps, pid, st.pred, slot', gHwnd);
      var tail := RunSteps(steps[1..], rest, pid, slot', w.gHwnd).value;
      var head := if st.act then [w.found] else [];
      assert RunSteps(steps, snaps, pid, slot, gHwnd).value.actions == head + tail.actions;
      IntendedCons(head, tail.actions, if st.act then [st] else [], ActingSteps(steps[1..]));
    }
  }

  /** The acting steps and the actions of a run line up, one step at a
      time. */
  lemma IntendedCons(h: seq<Elem>, t: seq<Elem>, hs: seq<Step>, ts: seq<Step>)
    requires |h| == |hs| <= 1 && |t| == |ts|
    requires |h| == 1 ==> Intended(hs[0].pred, h[0])
    requires forall k :: 0 <= k < |t| ==> Intended(ts[k].pred, t[k])
    ensures forall k :: 0 <= k < |h + t| ==> Intended((hs + ts)[k].pred, (h + t)[k])
  {
  }

  /** The element a wait returns satisfies the predicate it waited for. */
  lemma WaitFound(snaps: seq<Snapshot>, pid: int, p: Pred, slot: string, gHwnd: int)
    requires forall k :: 0 <= k < |snaps| ==> SnapshotWellFormed(snaps[k])
    requires WaitSpec(snaps, pid, p, slot, gHwnd).Some?
    ensures Matches(p, slot, WaitSpec(snaps, pid, p, slot, gHwnd).value.found)
  {
    var (i, g) := FirstWindowPoll(snaps, 0, pid, gHwnd).value;
    var (j, b) := FirstMatchPoll(snaps, i + 1, g, p, slot).value;
    assert PollFind(snaps[j], g, p, slot) == Some(b);
  }

  /** The fixed script waits twelve times and clicks eleven times: the
      first wait for "Finish" (with the 5000 ms interval) only waits. */
  lemma ScriptShape()
    ensures |Script| == 12 && CountActing(Script) == 11
    ensures ActingSteps(Script) == Script[..9] + Script[10..]
    ensures forall k :: 0 <= k < |Script| ==> (Script[k].pause != DEFAULT_PAUSE <==> k == 9)
    ensures forall k :: 0 <= k < |Script| ==> (!Script[k].act <==> k == 9)
  {
    ScriptSteps();
    CountOneIdle(Script, 9);
    ScriptActing();
  }

  lemma ScriptActing()
    ensures ActingSteps(Script) == Script[..9] + Script[10..]
  {
    ScriptSteps();
    ActingOneIdle(Script, 9);
  }

  /** With exactly one step that only waits, the acting steps are the
      others, in order. */
  lemma {:induction false} ActingOneIdle(s: seq<Step>, j: nat)
    requires j < |s|
    requires forall k :: 0 <= k < |s| ==> (!s[k].act <==> k == j)
    ensures ActingSteps(s) == s[..j] + s[j + 1..]
    decreases |s|
  {
    if j == 0 {
      ActingAll(s[1..]);
      assert ActingSteps(s) == ActingSteps(s[1..]);
    } else {
      var t := s[1..];
      ActingOneIdle(t, j - 1);
      assert ActingSteps(s) == [s[0]] + ActingSteps(t);
      assert [s[0]] + t[..j - 1] == s[..j];
      assert t[j..] == s[j + 1..];
    }
  }

  lemma {:induction false} ActingAll(a: seq<Step>)
    requires forall k :: 0 <= k < |a| ==> a[k].act
    ensures ActingSteps(a) == a
    decreases |a|
  {
    if |a| > 0 {
      ActingAll(a[1..]);
    }
  }

  lemma ScriptSteps()
    ensures |Script| == 12
    ensures forall k :: 0 <= k < |Script| ==> (Script[k].pause != DEFAULT_PAUSE <==> k == 9)
    ensures forall k :: 0 <= k < |Script| ==> (!Script[k].act <==> k == 9)
  {
  }

  /** With exactly one step that only waits, every other step acts. */
  lemma {:induction false} CountOneIdle(steps: seq<Step>, j: nat)
    requires j < |steps|
    requires forall k :: 0 <= k < |steps| ==> (!steps[k].act <==> k == j)
    ensures CountActing(steps) == |steps| - 1
    decreases |steps|
  {
    if j == 0 {
      AllActing(steps[1..]);
    } else {
      CountOneIdle(steps[1..], j - 1);
    }
  }

  lemma {:induction false} AllActing(steps: seq<Step>)
    requires forall k :: 0 <= k < |steps| ==> steps[k].act
    ensures CountActing(steps) == |steps|
    decreases |steps|
  {
    if |steps| > 0 {
      AllActing(steps[1..]);
    }
  }

  /** The process outcome of Program.Main. */
  datatype Outcome = Exited(code: int, actions: seq<Elem>) | Blocked

  /** Program.Main(args): 1639 for a wrong argument count, 160 for a null
      argument, otherwise run the script against the started process and
      return that process's exit code. */
  function Install(args: seq<Option<string>>, pid: int, snaps: seq<Snapshot>, childExit: int): (o: Outcome)
    requires forall k :: 0 <= k < |snaps| ==> SnapshotWellFormed(snaps[k])
    ensures |args| != 1 ==> o == Exited(EXIT_BAD_ARG_COUNT, [])
    ensures |args| == 1 && args[0] == None ==> o == Exited(EXIT_NULL_ARG, [])
    ensures |args| == 1 && args[0] != None ==>
              (o.Exited? <==> RunSteps(Script, snaps, pid, "", 0).Some?)
    ensures |args| == 1 && args[0] != None && o.Exited? ==>
              o.code == childExit && |o.actions| == 11
              && forall k :: 0 <= k < 11 ==> Intended((Script[..9] + Script[10..])[k].pred, o.actions[k])
  {
    if |args| != 1 then Exited(EXIT_BAD_ARG_COUNT, [])
    else if args[0] == None then Exited(EXIT_NULL_ARG, [])
    else
      match RunSteps(Script, snaps, pid, "", 0)
      case None => Blocked
      case Some(run) =>
        RunStepsActions(Script, snaps, pid, "", 0);
        ScriptShape();
        Exited(childExit, run.actions)
  }
}
