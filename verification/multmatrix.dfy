/** The multmatrix module (src/module/multmatrixmodule.cpp): the rows of
    the matrix argument are flattened, row-major, into a 20-slot array of
    which the first 16 slots become the node's matrix. A row that is not a
    vector is skipped and takes no slots; an entry that is not a number
    takes its slot but leaves it unwritten. The array is not initialised
    in the source, so an unwritten slot holds an indeterminate value:
    None here. A range passes the source's VectorValue casts, as the
    argument and as a row, and is read through its terms. */
module MultMatrix {
  import opened Wrappers
  import opened Values
  import Mesh
  import RV = RangeValue

  /** The slots of the array in the source. */
  const Slots: nat := 20

  /** The slots copied into the transform matrix by setValues. */
  const MatrixSize: nat := 16

  datatype TransformationNode<C> = TransformationNode(matrix: Option<seq<Option<real>>>, children: seq<C>)

  /** The entries of the rows that pass the VectorValue cast, in order. */
  function Flatten(rows: seq<Value>): (flat: seq<Value>)
  {
    if |rows| == 0 then []
    else (if RV.IsVector(rows[0]) then RV.Children(rows[0]) else []) + Flatten(rows[1..])
  }

  lemma {:induction false} FlattenAppend(a: seq<Value>, b: seq<Value>)
    ensures Flatten(a + b) == Flatten(a) + Flatten(b)
    decreases |a|
  {
    if |a| == 0 {
      assert a + b == b;
    } else {
      assert (a + b)[1..] == a[1..] + b;
      FlattenAppend(a[1..], b);
    }
  }

  /** What slot k holds once the entries have been written: the number at
      position k, or nothing. */
  function Slot(flat: seq<Value>, k: nat): (v: Option<real>)
    ensures v.Some? <==> k < |flat| && flat[k].Number?
    ensures v.Some? ==> v.value == flat[k].n
  {
    if k < |flat| && flat[k].Number? then Some(flat[k].n) else None
  }

  /** The reference: the first 16 slots after flattening. */
  function Entries(rows: seq<Value>): (m: seq<Option<real>>)
    ensures |m| == MatrixSize
    ensures forall k :: 0 <= k < MatrixSize ==> m[k] == Slot(Flatten(rows), k)
  {
    seq(MatrixSize, k requires 0 <= k < MatrixSize => Slot(Flatten(rows), k))
  }

  /** The array after writing the entries of flat. */
  function Written(flat: seq<Value>): seq<Option<real>>
  {
    seq(Slots, k requires 0 <= k < Slots => Slot(flat, k))
  }

  /** evaluate's loops: each vector row's entries, in order, each taking
      the next slot and writing it when it is a number, stopping as soon
      as the index passes 16. */
  method Fill(rows: seq<Value>) returns (m: seq<Option<real>>)
    ensures m == Entries(rows)
  {
    var matrix := Written([]);
    var index := 0;
    var i := 0;
    while i < |rows|
      invariant 0 <= i <= |rows|
      invariant index == |Flatten(rows[..i])| <= MatrixSize
      invariant matrix == Written(Flatten(rows[..i]))
    {
      FlattenStep(rows, i);
      if RV.IsVector(rows[i]) {
        var items := RV.Children(rows[i]);
        var done := Flatten(rows[..i]);
        var j := 0;
        while j < |items|
          invariant 0 <= j <= |items|
          invariant index == |done| + j <= MatrixSize
          invariant matrix == Written(done + items[..j])
        {
          var value := items[j];
          WriteStep(done, items, j);
          if value.Number? {
            matrix := matrix[index := Some(value.n)];
          }
          index := index + 1;
          j := j + 1;
          if index > MatrixSize {
            StopEarly(rows, i, j);
            return matrix[..MatrixSize];
          }
        }
        assert items[..j] == items;
      }
      i := i + 1;
    }
    assert rows[..i] == rows;
    PrefixSlots(Flatten(rows), rows);
    m := matrix[..MatrixSize];
  }

  /** One more row adds its entries when it is a vector or a range, and
      none otherwise. */
  lemma FlattenStep(rows: seq<Value>, i: nat)
    requires i < |rows|
    ensures Flatten(rows[..i + 1]) == Flatten(rows[..i]) + (if RV.IsVector(rows[i]) then RV.Children(rows[i]) else [])
  {
    FlattenAppend(rows[..i], [rows[i]]);
    assert rows[..i + 1] == rows[..i] + [rows[i]];
    assert [rows[i]][1..] == [];
  }

  /** Writing entry j of a row sets the next slot when it is a number and
      leaves the array as it was otherwise. */
  lemma WriteStep(done: seq<Value>, items: seq<Value>, j: nat)
    requires j < |items| && |done| + j < Slots
    ensures Written(done + items[..j + 1])
      == if items[j].Number? then Written(done + items[..j])[|done| + j := Some(items[j].n)]
         else Written(done + items[..j])
  {
    assert done + items[..j + 1] == (done + items[..j]) + [items[j]];
  }

  /** Once the entries of row i up to j pass slot 16, they are a prefix of
      all the entries that covers the matrix. */
  lemma StopEarly(rows: seq<Value>, i: nat, j: nat)
    requires i < |rows| && RV.IsVector(rows[i]) && j <= |RV.Children(rows[i])|
    requires |Flatten(rows[..i])| + j > MatrixSize
    ensures Written(Flatten(rows[..i]) + RV.Children(rows[i])[..j])[..MatrixSize] == Entries(rows)
  {
    var done := Flatten(rows[..i]);
    var items := RV.Children(rows[i]);
    FlattenStep(rows, i);
    FlattenAppend(rows[..i + 1], rows[i + 1..]);
    assert rows[..i + 1] + rows[i + 1..] == rows;
    assert (done + items)[..|done| + j] == done + items[..j];
    PrefixSlots(done + items[..j], rows);
  }

  /** A prefix of the flattened rows that covers the first 16 slots, or
      all of them, fixes the matrix. */
  lemma PrefixSlots(p: seq<Value>, rows: seq<Value>)
    requires (p == Flatten(rows)) || (|p| > MatrixSize && IsFlatPrefix(p, rows))
    ensures Written(p)[..MatrixSize] == Entries(rows)
  {
  }

  predicate IsFlatPrefix(p: seq<Value>, rows: seq<Value>) {
    |p| <= |Flatten(rows)| && Flatten(rows)[..|p|] == p
  }

  /** evaluate: no matrix without a vector or range argument; otherwise
      the first 16 slots. The input nodes are always the children. */
  method Evaluate<C>(ctx: Mesh.Context, children: seq<C>) returns (n: TransformationNode<C>)
    ensures n.children == children
    ensures var v := ctx.param(0);
      v.None? || !RV.IsVector(v.value) <==> n.matrix.None?
    ensures n.matrix.Some? ==> n.matrix.value == Entries(RV.Children(ctx.param(0).value))
  {
    var v := ctx.param(0);
    if v.None? || !RV.IsVector(v.value) {
      return TransformationNode(None, children);
    }
    var m := Fill(RV.Children(v.value));
    n := TransformationNode(Some(m), children);
  }

  /** Rows that are neither vectors nor ranges take no slots: dropping
      them gives the same matrix. */
  lemma {:induction false} SkippedRows(a: seq<Value>, x: Value, b: seq<Value>)
    requires !RV.IsVector(x)
    ensures Entries(a + [x] + b) == Entries(a + b)
  {
    FlattenAppend(a + [x], b);
    FlattenAppend(a, [x]);
    FlattenAppend(a, b);
    assert [x][1..] == [];
  }

  /** The argument written as rows of numbers. */
  function NumberRows(m: seq<seq<real>>): (rows: seq<Value>)
    ensures |rows| == |m|
  {
    seq(|m|, i requires 0 <= i < |m| => Vector(seq(|m[i]|, j requires 0 <= j < |m[i]| => Number(m[i][j]))))
  }

  /** Four rows of four numbers fill the matrix completely, row-major:
      slot 4i + j holds entry j of row i. */
  lemma {:induction false} RowMajor(m: seq<seq<real>>)
    requires |m| == 4 && forall i :: 0 <= i < 4 ==> |m[i]| == 4
    ensures forall i, j :: 0 <= i < 4 && 0 <= j < 4 ==> Entries(NumberRows(m))[4 * i + j] == Some(m[i][j])
  {
    var rows := NumberRows(m);
    assert rows == [rows[0]] + [rows[1]] + [rows[2]] + [rows[3]];
    assert rows[1..] == [rows[1], rows[2], rows[3]];
    assert rows[2..] == [rows[2], rows[3]];
    assert rows[3..] == [rows[3]];
    var f := rows[0].items + (rows[1].items + (rows[2].items + (rows[3].items + [])));
    assert Flatten(rows[3..]) == rows[3].items + Flatten([]);
    assert Flatten(rows[2..]) == rows[2].items + Flatten(rows[3..]) by {
      assert rows[2..][1..] == rows[3..];
    }
    assert Flatten(rows[1..]) == rows[1].items + Flatten(rows[2..]) by {
      assert rows[1..][1..] == rows[2..];
    }
    assert Flatten(rows) == f;
    forall i, j | 0 <= i < 4 && 0 <= j < 4 ensures f[4 * i + j] == Number(m[i][j]) {
    }
  }
}
