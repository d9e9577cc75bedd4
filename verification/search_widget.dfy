/** The find bar (src/ui/searchwidget.cpp): the search text and options,
    the running "current/total" result counter and the editor selection
    it moves. Finding text in the document is QTextDocument's and is a
    parameter here: from a selection, in a direction, it gives the
    selection of the next match or nothing. */
module SearchWidget {
  import opened Wrappers
  import opened Text

  /** The editor's selection, as character positions. */
  datatype Selection = Selection(start: nat, end: nat)

  datatype Search = Search(text: string, caseSensitive: bool, wrap: bool,
                           count: int, current: int, cursor: Selection, readOnly: bool)

  /** The document: its length and its find function, taking the
      selection, the text, whether to search backward and whether case
      matters. */
  datatype Document = Document(length: nat, find: (Selection, string, bool, bool) -> Option<Selection>)

  /** A forward find lands on a selection ending further on, inside the
      document. */
  ghost predicate Advances(d: Document) {
    forall sel, t, cs :: d.find(sel, t, false, cs).Some? ==>
      sel.end < d.find(sel, t, false, cs).value.end <= d.length
  }

  function Min(a: int, b: int): int {
    if a <= b then a else b
  }

  /** updateSearchCount: one on searching down, one back searching up,
      never above the total. */
  function UpdateSearchCount(s: Search, down: bool): (r: Search)
    ensures r.current <= s.count
    ensures down && s.current < s.count ==> r.current == s.current + 1
    ensures !down && s.current <= s.count ==> r.current == s.current - 1
    ensures r == s.(current := r.current)
  {
    s.(current := Min(if down then s.current + 1 else s.current - 1, s.count))
  }

  /** resetSearchCursor: to the start before the first result, or to the
      end after the last. */
  function ResetSearchCursor(s: Search, down: bool, d: Document): (r: Search)
    ensures down ==> r.current == 0 && r.cursor == Selection(0, 0)
    ensures !down ==> r.current == s.count + 1 && r.cursor == Selection(d.length, d.length)
    ensures r == s.(current := r.current, cursor := r.cursor)
  {
    if down then s.(current := 0, cursor := Selection(0, 0))
    else s.(current := s.count + 1, cursor := Selection(d.length, d.length))
  }

  /** Searching up from the end and then down from the start passes
      through the whole range of the counter: one past the total, then
      the first result. */
  lemma ResetThenStep(s: Search, d: Document)
    requires s.count > 0
    ensures UpdateSearchCount(ResetSearchCursor(s, false, d), false).current == s.count
    ensures UpdateSearchCount(ResetSearchCursor(s, true, d), true).current == 1
  {
  }

  /** search: nothing for an empty text; otherwise a find from the
      selection, counted when it succeeds, and when it fails and wrapping
      is both allowed and switched on, a second find from the start (or
      end). */
  function DoSearch(s: Search, down: bool, allowWrap: bool, d: Document): (r: (Search, bool))
    ensures s.text == [] ==> r == (s, false)
    ensures s.text != [] && d.find(s.cursor, s.text, !down, s.caseSensitive).Some? ==>
      r.1 && r.0 == UpdateSearchCount(s.(cursor := d.find(s.cursor, s.text, !down, s.caseSensitive).value), down)
    ensures s.text != [] && d.find(s.cursor, s.text, !down, s.caseSensitive).None? && !(allowWrap && s.wrap) ==>
      r == (s, false)
    ensures r.0.text == s.text && r.0.count == s.count
  {
    if s.text == [] then (s, false)
    else
      var found := d.find(s.cursor, s.text, !down, s.caseSensitive);
      if found.Some? then (UpdateSearchCount(s.(cursor := found.value), down), true)
      else if allowWrap && s.wrap then
        var t := ResetSearchCursor(s, down, d);
        var again := d.find(t.cursor, s.text, !down, s.caseSensitive);
        if again.Some? then (UpdateSearchCount(t.(cursor := again.value), down), true)
        else (t, false)
      else (s, false)
  }

  /** A failed search with wrapping gives a second chance from the far
      end: it succeeds exactly when the find from there does. */
  lemma WrapRetries(s: Search, down: bool, d: Document)
    requires s.text != [] && s.wrap
    requires d.find(s.cursor, s.text, !down, s.caseSensitive).None?
    ensures var start := if down then Selection(0, 0) else Selection(d.length, d.length);
      DoSearch(s, down, true, d).1 <==> d.find(start, s.text, !down, s.caseSensitive).Some?
  {
  }

  /** The reference count: how many forward finds follow one another from
      a selection. */
  function Finds(d: Document, text: string, cs: bool, sel: Selection): nat
    requires Advances(d)
    decreases d.length - sel.end
  {
    var next := d.find(sel, text, false, cs);
    if next.Some? then 1 + Finds(d, text, cs, next.value) else 0
  }

  /** searchCount: from the start, counts the forward finds that need no
      wrapping, then puts the selection back. The counter is left one
      behind the total, since each find is counted against the total so
      far. */
  method SearchCount(s: Search, d: Document) returns (r: Search)
    requires Advances(d)
    ensures r.count == (if s.text == [] then 0 else Finds(d, s.text, s.caseSensitive, Selection(0, 0)))
    ensures r.current == (if r.count == 0 then 0 else r.count - 1)
    ensures r.cursor == s.cursor
    ensures r.text == s.text && r.caseSensitive == s.caseSensitive && r.wrap == s.wrap
  {
    var saved := s.cursor;
    var t := s.(cursor := Selection(0, 0), count := 0, current := 0);
    while true
      invariant t.text == s.text && t.caseSensitive == s.caseSensitive && t.wrap == s.wrap
      invariant t.count >= 0 && t.current == (if t.count == 0 then 0 else t.count - 1)
      invariant s.text != [] ==>
        t.count + Finds(d, s.text, s.caseSensitive, t.cursor) == Finds(d, s.text, s.caseSensitive, Selection(0, 0))
      invariant s.text == [] ==> t.count == 0
      decreases d.length - t.cursor.end
    {
      var step := DoSearch(t, true, false, d);
      if !step.1 {
        break;
      }
      t := step.0.(count := step.0.count + 1);
    }
    r := t.(cursor := saved);
  }

  /** A counter value as shown: "-" for 0, otherwise the number. */
  function Shown(n: int): (s: string)
    ensures '/' !in s
    ensures n == 0 <==> s == "-"
  {
    if n == 0 then "-"
    else
      var s := IntToString(n);
      assert n > 0 ==> IsDigits(s);
      assert n < 0 ==> s[1..] == NatToString(-n);
      s
  }

  /** updateSearchCountLabelText: "current/total". */
  function Label(current: int, count: int): (s: string)
    ensures Count(s, '/') == 1
  {
    var a := Shown(current);
    var b := Shown(count);
    CountAbsent(a, '/');
    CountAbsent(b, '/');
    CountSingle('/', '/');
    CountAppend(a, "/", '/');
    CountAppend(a + "/", b, '/');
    a + "/" + b
  }

  /** The position of the first '/'. */
  function SlashPos(s: string): (k: nat)
    requires '/' in s
    ensures k < |s| && s[k] == '/' && '/' !in s[..k]
  {
    if s[0] == '/' then 0
    else
      var k := SlashPos(s[1..]);
      assert s[..k + 1] == [s[0]] + s[1..][..k];
      k + 1
  }

  lemma {:induction false} SlashAfter(x: string, y: string)
    requires '/' !in x
    ensures SlashPos(x + "/" + y) == |x|
  {
    var s := x + "/" + y;
    var k := SlashPos(s);
    assert forall i :: 0 <= i < |x| ==> s[i] == x[i];
    assert s[|x|] == '/';
    assert forall i :: 0 <= i < k ==> s[..k][i] == s[i];
  }

  /** Strings without '/' joined by one '/' can be split back. */
  lemma SplitSlash(x: string, y: string, u: string, v: string)
    requires '/' !in x && '/' !in u
    requires x + "/" + y == u + "/" + v
    ensures x == u && y == v
  {
    SlashAfter(x, y);
    SlashAfter(u, v);
    assert (x + "/" + y)[..|x|] == x && (u + "/" + v)[..|u|] == u;
    assert (x + "/" + y)[|x| + 1..] == y && (u + "/" + v)[|u| + 1..] == v;
  }

  /** The label determines both numbers. */
  lemma LabelInjective(a: int, b: int, c: int, e: int)
    requires Label(a, b) == Label(c, e)
    ensures a == c && b == e
  {
    SplitSlash(Shown(a), Shown(b), Shown(c), Shown(e));
    ShownInjective(a, c);
    ShownInjective(b, e);
  }

  lemma ShownInjective(m: int, n: int)
    requires Shown(m) == Shown(n)
    ensures m == n
  {
    if m != 0 && n != 0 {
      IntToStringInjective(m, n);
    }
  }

  /** replace: refused on a read-only editor, and with nothing selected
      unless replacing everything. */
  function ReplaceAllowed(s: Search, forAll: bool): (ok: bool)
    ensures s.readOnly ==> !ok
    ensures !s.readOnly && forAll ==> ok
    ensures !s.readOnly && !forAll ==> (ok <==> s.cursor.start != s.cursor.end)
  {
    !s.readOnly && (forAll || s.cursor.start != s.cursor.end)
  }
}
