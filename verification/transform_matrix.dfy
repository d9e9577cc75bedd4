/** The 4x4 affine transformation of src/transformmatrix.cpp, stored as
    sixteen entries in row-major order, and its bracketed text form. */
module TransformMatrix {
  import opened Text

  /** Exactly sixteen entries: the C array decimal[16]. */
  type Entries = s: seq<real> | |s| == 16
    witness [0.0, 0.0, 0.0, 0.0, 0.0, 0.0, 0.0, 0.0, 0.0, 0.0, 0.0, 0.0, 0.0, 0.0, 0.0, 0.0]

  datatype TransformMatrix = TransformMatrix(matrix: Entries)

  /** Row r (0-based) of the matrix. */
  function Row(m: TransformMatrix, r: nat): (row: seq<real>)
    requires r < 4
    ensures |row| == 4 && forall c :: 0 <= c < 4 ==> row[c] == m.matrix[4 * r + c]
  {
    m.matrix[4 * r..4 * r + 4]
  }

  /** The default constructor: all zeros except the last entry, which is
      one. */
  function Default(): (m: TransformMatrix)
    ensures m.matrix[15] == 1.0
    ensures forall i :: 0 <= i < 15 ==> m.matrix[i] == 0.0
  {
    TransformMatrix(seq(16, i requires 0 <= i < 16 => if i == 15 then 1.0 else 0.0))
  }

  /** The sixteen-argument constructor: mRC lands in row R, column C. */
  function FromEntries(m11: real, m12: real, m13: real, m14: real,
                       m21: real, m22: real, m23: real, m24: real,
                       m31: real, m32: real, m33: real, m34: real,
                       m41: real, m42: real, m43: real, m44: real): (m: TransformMatrix)
    ensures Row(m, 0) == [m11, m12, m13, m14]
    ensures Row(m, 1) == [m21, m22, m23, m24]
    ensures Row(m, 2) == [m31, m32, m33, m34]
    ensures Row(m, 3) == [m41, m42, m43, m44]
  {
    TransformMatrix([m11, m12, m13, m14, m21, m22, m23, m24, m31, m32, m33, m34, m41, m42, m43, m44])
  }

  /** getValues: the stored array. */
  function GetValues(m: TransformMatrix): (v: seq<real>)
    ensures |v| == 16 && forall r, c :: 0 <= r < 4 && 0 <= c < 4 ==> v[4 * r + c] == Row(m, r)[c]
  {
    m.matrix
  }

  /** setValues: copies the first sixteen values of the given array,
      which must hold at least sixteen. */
  function SetValues(m: TransformMatrix, values: seq<real>): (r: TransformMatrix)
    requires |values| >= 16
    ensures forall i :: 0 <= i < 16 ==> r.matrix[i] == values[i]
  {
    TransformMatrix(values[..16])
  }

  /** The values round-trip through setValues and getValues. */
  lemma SetGetRoundTrip(m: TransformMatrix, n: TransformMatrix, values: seq<real>)
    requires |values| >= 16
    ensures GetValues(SetValues(m, values)) == values[..16]
    ensures SetValues(m, GetValues(n)) == n
  {
  }

  /** What toString writes before entry i: nothing before the first, "],["
      at the start of each later row and "," inside a row. */
  function Separator(i: nat): (s: string)
  {
    if i == 0 then "" else if RowStart(i) then "],[" else ","
  }

  /** Within the sixteen entries the row starts are the multiples of
      four, the entries where i % 4 is zero. */
  lemma RowStartIsMultipleOfFour(i: nat)
    requires i < 16
    ensures RowStart(i) <==> i % 4 == 0
  {
  }

  /** The loop of toString from entry i on. */
  function EntriesLoop(texts: seq<string>, i: nat): string
    requires |texts| == 16 && i <= 16
    decreases 16 - i
  {
    if i == 16 then "" else Separator(i) + texts[i] + EntriesLoop(texts, i + 1)
  }

  /** The reference layout: each row comma-joined, rows joined by "],[". */
  function RowsText(texts: seq<string>): string
    requires |texts| == 16
  {
    Join([Join(texts[0..4], ","), Join(texts[4..8], ","), Join(texts[8..12], ","), Join(texts[12..16], ",")], "],[")
  }

  predicate RowStart(b: nat) {
    b == 0 || b == 4 || b == 8 || b == 12
  }

  /** The row starting at b as the loop writes it: its entries with
      commas between them. */
  lemma RowStep(texts: seq<string>, b: nat)
    requires |texts| == 16 && RowStart(b)
    ensures EntriesLoop(texts, b) == Separator(b) + Join(texts[b..b + 4], ",") + EntriesLoop(texts, b + 4)
  {
    var t0, t1, t2, t3 := texts[b], texts[b + 1], texts[b + 2], texts[b + 3];
    var rest := EntriesLoop(texts, b + 4);
    assert Separator(b + 1) == "," && Separator(b + 2) == "," && Separator(b + 3) == ",";
    assert EntriesLoop(texts, b + 3) == "," + t3 + rest;
    assert EntriesLoop(texts, b + 2) == "," + t2 + ("," + t3 + rest);
    assert EntriesLoop(texts, b + 1) == "," + t1 + ("," + t2 + ("," + t3 + rest));
    assert texts[b..b + 4] == [t0, t1, t2, t3];
    JoinFour(t0, t1, t2, t3, ",");
    Regroup(Separator(b), t0, t1, t2, t3, ",", rest);
  }

  lemma Regroup(s: string, t0: string, t1: string, t2: string, t3: string, c: string, rest: string)
    ensures s + t0 + (c + t1 + (c + t2 + (c + t3 + rest))) == s + (t0 + c + (t1 + c + (t2 + c + t3))) + rest
  {
  }

  lemma JoinFour(a: string, b: string, c: string, d: string, sep: string)
    ensures Join([a, b, c, d], sep) == a + sep + (b + sep + (c + sep + d))
  {
    assert [a, b, c, d][1..] == [b, c, d];
    assert [b, c, d][1..] == [c, d];
    assert [c, d][1..] == [d];
    assert Join([d], sep) == d;
    assert Join([c, d], sep) == c + sep + d;
    assert Join([b, c, d], sep) == b + sep + (c + sep + d);
  }

  lemma Regroup3(c: string, r0: string, r1: string, r2: string, r3: string)
    ensures "" + r0 + (c + r1 + (c + r2 + (c + r3))) == r0 + c + (r1 + c + (r2 + c + r3))
  {
  }

  /** The separator loop lays the entries out row by row. */
  lemma EntriesLoopIsRows(texts: seq<string>)
    requires |texts| == 16
    ensures EntriesLoop(texts, 0) == RowsText(texts)
  {
    var r0, r1, r2, r3 := Join(texts[0..4], ","), Join(texts[4..8], ","), Join(texts[8..12], ","), Join(texts[12..16], ",");
    RowStep(texts, 0);
    RowStep(texts, 4);
    RowStep(texts, 8);
    RowStep(texts, 12);
    assert EntriesLoop(texts, 16) == "";
    assert EntriesLoop(texts, 12) == "],[" + r3;
    Regroup3("],[", r0, r1, r2, r3);
    JoinFour(r0, r1, r2, r3, "],[");
  }

  /** The texts of the entries under a number formatter. */
  function EntryTexts(m: TransformMatrix, num: real -> string): (ts: seq<string>)
    ensures |ts| == 16 && forall i :: 0 <= i < 16 ==> ts[i] == num(m.matrix[i])
  {
    seq(16, i requires 0 <= i < 16 => num(m.matrix[i]))
  }

  /** toString: "[[a,b,c,d],[e,f,g,h],[i,j,k,l],[m,n,o,p]]", each entry
      printed by to_string (the formatter passed in). */
  function ToString(m: TransformMatrix, num: real -> string): (s: string)
    ensures s == "[[" + RowsText(EntryTexts(m, num)) + "]]"
  {
    EntriesLoopIsRows(EntryTexts(m, num));
    "[[" + EntriesLoop(EntryTexts(m, num), 0) + "]]"
  }
}
