/** Complex values (src/complexvalue.cpp): a real part and a list of
    imaginary parts; with three imaginary parts they stand for a
    quaternion w + xi + yj + zk. */
module ComplexValue {
  import opened Values

  datatype Quaternion = Quaternion(w: real, x: real, y: real, z: real)

  /** The parts toQuaternion reads: the real part and the first three
      imaginary parts are all numbers. */
  predicate QuaternionShaped(re: Value, im: seq<Value>) {
    |im| > 2 && re.Number? && im[0].Number? && im[1].Number? && im[2].Number?
  }

  /** toQuaternion: the four numbers when the value is quaternion-shaped,
      otherwise all zero. Imaginary parts beyond the third are not read. */
  function ToQuaternion(re: Value, im: seq<Value>): (q: Quaternion)
    ensures !QuaternionShaped(re, im) ==> q == Quaternion(0.0, 0.0, 0.0, 0.0)
    ensures QuaternionShaped(re, im) ==> (Number(q.w) == re && Number(q.x) == im[0]
      && Number(q.y) == im[1] && Number(q.z) == im[2])
  {
    if QuaternionShaped(re, im) then Quaternion(re.n, im[0].n, im[1].n, im[2].n)
    else Quaternion(0.0, 0.0, 0.0, 0.0)
  }

  /** The complex value a quaternion is written as. */
  function FromQuaternion(q: Quaternion): (v: Value)
    ensures v.Complex? && QuaternionShaped(v.re, v.im) && |v.im| == 3
  {
    Complex(Number(q.w), [Number(q.x), Number(q.y), Number(q.z)])
  }

  /** Reading back a written quaternion gives it unchanged. */
  lemma QuaternionRoundTrip(q: Quaternion)
    ensures var v := FromQuaternion(q); ToQuaternion(v.re, v.im) == q
  {
  }

  /** A quaternion-shaped value with exactly three imaginary parts is
      the value its quaternion is written as. */
  lemma ComplexRoundTrip(re: Value, im: seq<Value>)
    requires QuaternionShaped(re, im) && |im| == 3
    ensures FromQuaternion(ToQuaternion(re, im)) == Complex(re, im)
  {
    assert im == [im[0], im[1], im[2]];
  }

  /** Imaginary parts after the third make no difference. */
  lemma ExtraPartsIgnored(re: Value, im: seq<Value>, extra: seq<Value>)
    requires |im| >= 3
    ensures ToQuaternion(re, im + extra) == ToQuaternion(re, im)
  {
    assert (im + extra)[..3] == im[..3];
    assert (im + extra)[0] == im[0] && (im + extra)[1] == im[1] && (im + extra)[2] == im[2];
  }
}
