/** The save-before-closing dialog (src/ui/saveitemsdialog.cpp): one row
    per unsaved document, all selected at first, and a save button whose
    label and state follow the selection. The file-system queries of
    QFileInfo are parameters. */
module SaveItems {
  datatype Row = Row(visibleName: string, directory: string, fileName: string)

  datatype Dialog = Dialog(rows: seq<Row>, selected: seq<bool>, discardButton: bool)

  datatype Button = Button(enabled: bool, text: string)

  /** What QFileInfo reports for a file name: its directory and its name
      without the directory. */
  datatype FileInfo = FileInfo(absolutePath: string -> string, name: string -> string)

  predicate Valid(d: Dialog) {
    |d.selected| == |d.rows|
  }

  /** A row: "[New]" for a document never saved, otherwise the file's name
      and directory. The full name is kept for collecting. */
  function MakeRow(fileName: string, info: FileInfo): (r: Row)
    ensures r.fileName == fileName
    ensures fileName == [] ==> r.visibleName == "[New]" && r.directory == []
    ensures fileName != [] ==> r.visibleName == info.name(fileName) && r.directory == info.absolutePath(fileName)
  {
    if fileName == [] then Row("[New]", [], fileName)
    else Row(info.name(fileName), info.absolutePath(fileName), fileName)
  }

  /** The constructor: a row per item, in order, all selected; the
      discard button only when not compiling. */
  function Create(items: seq<string>, compiling: bool, info: FileInfo): (d: Dialog)
    ensures Valid(d) && |d.rows| == |items|
    ensures forall i :: 0 <= i < |items| ==> d.rows[i] == MakeRow(items[i], info) && d.selected[i]
    ensures d.discardButton <==> !compiling
  {
    Dialog(seq(|items|, i requires 0 <= i < |items| => MakeRow(items[i], info)),
           seq(|items|, i requires 0 <= i < |items| => true), !compiling)
  }

  /** The number of selected rows. */
  function CountSelected(sel: seq<bool>): (n: nat)
    ensures n <= |sel|
    ensures n == |sel| <==> forall i :: 0 <= i < |sel| ==> sel[i]
    ensures n == 0 <==> forall i :: 0 <= i < |sel| ==> !sel[i]
  {
    if |sel| == 0 then 0 else CountSelected(sel[..|sel| - 1]) + (if sel[|sel| - 1] then 1 else 0)
  }

  /** updateSaveButton, from the selected count and the total. */
  function SaveButton(count: int, total: int): (b: Button)
    ensures total == 1 ==> b == Button(true, "Save")
    ensures total != 1 && count == total ==> b == Button(true, "Save All")
    ensures total != 1 && count != total && count == 0 ==> b == Button(false, "Save")
    ensures total != 1 && count != total && count != 0 ==> b == Button(true, "Save Selected")
  {
    if total == 1 then Button(true, "Save")
    else if count == total then Button(true, "Save All")
    else if count == 0 then Button(false, "Save")
    else Button(true, "Save Selected")
  }

  /** The button is disabled only when several rows exist and none is
      selected. */
  lemma DisabledExactly(d: Dialog)
    requires Valid(d)
    ensures var b := SaveButton(CountSelected(d.selected), |d.rows|);
      !b.enabled <==> |d.rows| > 1 && forall i :: 0 <= i < |d.rows| ==> !d.selected[i]
  {
  }

  /** A fresh dialog offers to save everything. */
  lemma FreshOffersAll(items: seq<string>, compiling: bool, info: FileInfo)
    requires |items| != 1
    ensures var d := Create(items, compiling, info);
      SaveButton(CountSelected(d.selected), |d.rows|) == Button(true, "Save All")
  {
  }

  /** collectItemsToSave: the stored file names of the selected rows, in
      row order (CollectMembers, CollectRanks). */
  function Collect(rows: seq<Row>, selected: seq<bool>): (names: seq<string>)
    requires |selected| == |rows|
    ensures |names| == CountSelected(selected)
  {
    if |rows| == 0 then []
    else
      var k := |rows| - 1;
      var init := Collect(rows[..k], selected[..k]);
      init + (if selected[k] then [rows[k].fileName] else [])
  }

  /** Order: a selected row's name sits at its rank, the number of
      selected rows before it. As the ranks of the selected rows run
      through 0, 1, ..., |names| - 1, this and the length of the result
      fix it completely. */
  lemma {:induction false} CollectRanks(rows: seq<Row>, selected: seq<bool>, i: nat)
    requires |selected| == |rows| && i < |rows| && selected[i]
    ensures var names := Collect(rows, selected);
            CountSelected(selected[..i]) < |names| && names[CountSelected(selected[..i])] == rows[i].fileName
  {
    var k := |rows| - 1;
    if i < k {
      CollectRanks(rows[..k], selected[..k], i);
      CollectKeepsPrefix(rows, selected, i);
    } else {
      CollectLast(rows, selected);
    }
  }

  /** The names collected are exactly the stored names of the selected
      rows. */
  lemma {:induction false} CollectMembers(rows: seq<Row>, selected: seq<bool>)
    requires |selected| == |rows|
    ensures forall n :: n in Collect(rows, selected) <==> exists i :: 0 <= i < |rows| && selected[i] && rows[i].fileName == n
  {
    var names := Collect(rows, selected);
    forall n | n in names
      ensures exists i :: 0 <= i < |rows| && selected[i] && rows[i].fileName == n
    {
      CollectFrom(rows, selected, n);
    }
    forall i | 0 <= i < |rows| && selected[i]
      ensures rows[i].fileName in names
    {
      CollectRanks(rows, selected, i);
    }
  }

  /** Every collected name comes from a selected row. */
  lemma {:induction false} CollectFrom(rows: seq<Row>, selected: seq<bool>, n: string)
    requires |selected| == |rows| && n in Collect(rows, selected)
    ensures exists i :: 0 <= i < |rows| && selected[i] && rows[i].fileName == n
  {
    var k := |rows| - 1;
    var init := Collect(rows[..k], selected[..k]);
    assert Collect(rows, selected) == init + (if selected[k] then [rows[k].fileName] else []);
    if n in init {
      CollectFrom(rows[..k], selected[..k], n);
      var i :| 0 <= i < k && selected[..k][i] && rows[..k][i].fileName == n;
      assert selected[i] && rows[i].fileName == n;
    } else {
      assert selected[k] && rows[k].fileName == n;
    }
  }

  /** A row before the last has the rank and the name it had without the
      last row. */
  lemma CollectKeepsPrefix(rows: seq<Row>, selected: seq<bool>, i: nat)
    requires |selected| == |rows| && i < |rows| - 1
    requires var k := |rows| - 1; var rank := CountSelected(selected[..k][..i]);
             rank < |Collect(rows[..k], selected[..k])| && Collect(rows[..k], selected[..k])[rank] == rows[i].fileName
    ensures var rank := CountSelected(selected[..i]);
            rank < |Collect(rows, selected)| && Collect(rows, selected)[rank] == rows[i].fileName
  {
    var k := |rows| - 1;
    assert selected[..k][..i] == selected[..i];
  }

  /** A selected last row's name comes last. */
  lemma CollectLast(rows: seq<Row>, selected: seq<bool>)
    requires |selected| == |rows| > 0 && selected[|rows| - 1]
    ensures var k := |rows| - 1; var rank := CountSelected(selected[..k]);
            rank < |Collect(rows, selected)| && Collect(rows, selected)[rank] == rows[k].fileName
  {
  }

  /** discardAll: the selection is cleared and nothing is saved. */
  function DiscardAll(d: Dialog): (r: (Dialog, seq<string>))
    requires Valid(d)
    ensures r.1 == [] && Valid(r.0)
    ensures forall i :: 0 <= i < |r.0.selected| ==> !r.0.selected[i]
  {
    var cleared := d.(selected := seq(|d.rows|, i requires 0 <= i < |d.rows| => false));
    (cleared, Collect(cleared.rows, cleared.selected))
  }

  /** Saving straight away saves every document offered, in order. */
  lemma SaveAllAtOnce(items: seq<string>, compiling: bool, info: FileInfo)
    ensures var d := Create(items, compiling, info); Collect(d.rows, d.selected) == items
  {
    var d := Create(items, compiling, info);
    AllSelected(d.rows, d.selected, items);
  }

  lemma {:induction false} AllSelected(rows: seq<Row>, selected: seq<bool>, items: seq<string>)
    requires |selected| == |rows| == |items|
    requires forall i :: 0 <= i < |rows| ==> selected[i] && rows[i].fileName == items[i]
    ensures Collect(rows, selected) == items
  {
    if |rows| > 0 {
      var k := |rows| - 1;
      AllSelected(rows[..k], selected[..k], items[..k]);
      assert selected[k] && rows[k].fileName == items[k];
      assert Collect(rows, selected) == Collect(rows[..k], selected[..k]) + [rows[k].fileName];
      assert items == items[..k] + [items[k]];
    }
  }
}
