/** The is_mat4x4 built-in (src/function/ismat4x4function.cpp): true
    exactly for a vector of four rows, each a vector of four numbers. A
    range passes the source's VectorValue casts, so a range of four terms
    is a row. */
module IsMat4x4 {
  import opened Wrappers
  import opened Values
  import RV = RangeValue

  /** A row of the matrix: a vector of four numbers. */
  predicate IsRow(v: Value) {
    RV.IsVector(v) && |RV.Children(v)| == 4 && forall j :: 0 <= j < 4 ==> RV.Children(v)[j].Number?
  }

  /** The reference: four rows of four numbers. */
  predicate IsMatrix(v: Value) {
    RV.IsVector(v) && |RV.Children(v)| == 4 && forall i :: 0 <= i < 4 ==> IsRow(RV.Children(v)[i])
  }

  /** evaluate: rejects a non-vector, a row count other than four, a row
      that is not a vector or not four long, and an entry that is not a
      number, checking the rows in order. */
  method Evaluate(v: Value) returns (r: bool)
    ensures r <==> IsMatrix(v)
  {
    if !RV.IsVector(v) {
      return false;
    }
    var rows := RV.Children(v);
    if |rows| != 4 {
      return false;
    }
    var i := 0;
    while i < |rows|
      invariant 0 <= i <= |rows|
      invariant forall k :: 0 <= k < i ==> IsRow(rows[k])
    {
      var c := rows[i];
      if !RV.IsVector(c) {
        return false;
      }
      var cols := RV.Children(c);
      if |cols| != 4 {
        return false;
      }
      var j := 0;
      while j < |cols|
        invariant 0 <= j <= |cols|
        invariant forall k :: 0 <= k < j ==> cols[k].Number?
      {
        if !cols[j].Number? {
          return false;
        }
        j := j + 1;
      }
      i := i + 1;
    }
    return true;
  }

  /** The matrix value with the given entries, row-major. */
  function FromEntries(m: seq<real>): (v: Value)
    requires |m| == 16
    ensures IsMatrix(v)
  {
    Vector(seq(4, i requires 0 <= i < 4 =>
      Vector(seq(4, j requires 0 <= j < 4 => Number(m[4 * i + j])))))
  }

  /** Entry j of row i, as the casts read it. */
  function Cell(v: Value, i: nat, j: nat): Value
    requires IsMatrix(v) && i < 4 && j < 4
  {
    RV.Children(RV.Children(v)[i])[j]
  }

  /** The entries of a matrix value, row-major. */
  function Entries(v: Value): (m: seq<real>)
    requires IsMatrix(v)
    ensures |m| == 16
    ensures forall k :: 0 <= k < 16 ==> Cell(v, k / 4, k % 4) == Number(m[k])
  {
    seq(16, k requires 0 <= k < 16 => Cell(v, k / 4, k % 4).n)
  }

  /** Matrices and their sixteen entries correspond one to one: the
      entries read back, and the matrix rebuilt from the entries of any
      matrix, ranges included, has the same cells. */
  lemma EntriesRoundTrip(m: seq<real>, v: Value)
    requires |m| == 16 && IsMatrix(v)
    ensures Entries(FromEntries(m)) == m
    ensures forall i, j :: 0 <= i < 4 && 0 <= j < 4 ==> Cell(FromEntries(Entries(v)), i, j) == Cell(v, i, j)
  {
    ReadBack(m);
    var w := FromEntries(Entries(v));
    forall i, j | 0 <= i < 4 && 0 <= j < 4 ensures Cell(w, i, j) == Cell(v, i, j) {
      assert (4 * i + j) / 4 == i && (4 * i + j) % 4 == j;
    }
  }

  lemma ReadBack(m: seq<real>)
    requires |m| == 16
    ensures Entries(FromEntries(m)) == m
  {
  }

  /** A matrix written with vectors only is rebuilt exactly. */
  lemma VectorsRoundTrip(v: Value)
    requires IsMatrix(v) && v.Vector? && forall i :: 0 <= i < 4 ==> v.items[i].Vector?
    ensures FromEntries(Entries(v)) == v
  {
    var w := FromEntries(Entries(v));
    EntriesRoundTrip(Entries(v), v);
    forall i | 0 <= i < 4 ensures w.items[i] == v.items[i] {
      SameRow(w, v, i);
    }
  }

  lemma SameRow(w: Value, v: Value, i: nat)
    requires IsMatrix(w) && IsMatrix(v) && i < 4
    requires w.Vector? && v.Vector? && w.items[i].Vector? && v.items[i].Vector?
    requires forall j :: 0 <= j < 4 ==> Cell(w, i, j) == Cell(v, i, j)
    ensures w.items[i] == v.items[i]
  {
    var wi, vi := w.items[i].items, v.items[i].items;
    assert |wi| == 4 && |vi| == 4;
    assert forall j :: 0 <= j < 4 ==> wi[j] == Cell(w, i, j) && vi[j] == Cell(v, i, j);
    assert wi == vi;
  }

  /** is_mat4x4([[0:3], [0:3], [0:3], [0:3]]) is true: each range has the
      four terms 0, 1, 2 and 3. */
  lemma RangeRows()
    ensures var r := Range(0.0, None, 3.0); IsMatrix(Vector([r, r, r, r]))
  {
    var r := Range(0.0, None, 3.0);
    RV.RangeChildren(0.0, None, 3.0);
    assert RV.Term(0.0, 1.0, 4) > 3.0;
    RV.ItemsUnique(0.0, None, 3.0, [Number(0.0), Number(1.0), Number(2.0), Number(3.0)]);
    assert |RV.Children(r)| == 4;
  }
}
