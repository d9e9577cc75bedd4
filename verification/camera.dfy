/** The view camera (gui/src/ui/camera.cpp): three rotation angles in
    degrees and a position, changed by pitch, roll and yaw (one angle
    each, brought back into [0, 360]), pan, zoom and the preset view
    directions. Angles and positions are GLfloat in the source and reals
    here; powf is a parameter. */
module Camera {
  datatype Camera = Camera(rotateX: real, rotateY: real, rotateZ: real,
                           positionX: real, positionY: real, positionZ: real)

  datatype ViewDirection = Top | Bottom | North | South | West | East

  const FullTurn: real := 360.0

  /** normalizeAngle: adds whole turns while the angle is negative, then
      takes whole turns off while it is above 360. The angle moves by a
      whole number of turns and ends in [0, 360]; an angle already there
      is left alone. */
  method NormalizeAngle(angle: real) returns (r: real, turns: int)
    ensures 0.0 <= r <= FullTurn
    ensures r == angle + FullTurn * turns as real
    ensures 0.0 <= angle <= FullTurn ==> r == angle
    ensures angle < 0.0 ==> r < FullTurn
    ensures angle > FullTurn ==> r > 0.0
  {
    r := angle;
    turns := 0;
    while r < 0.0
      invariant r == angle + FullTurn * turns as real
      invariant angle < 0.0 ==> r < FullTurn
      invariant angle >= 0.0 ==> r == angle
      decreases (-r).Floor
    {
      r := r + FullTurn;
      turns := turns + 1;
    }
    while r > FullTurn
      invariant r == angle + FullTurn * turns as real
      invariant r >= 0.0
      invariant angle < 0.0 ==> r < FullTurn
      invariant 0.0 <= angle <= FullTurn ==> r == angle
      invariant angle > FullTurn ==> r > 0.0
      decreases r.Floor
    {
      r := r - FullTurn;
      turns := turns - 1;
    }
  }

  /** The contract of normalizeAngle leaves one result: two angles in
      [0, 360) that differ by whole turns are equal, and so are two in
      (0, 360]. */
  lemma NormalizeUnique(angle: real, r1: real, k1: int, r2: real, k2: int)
    requires r1 == angle + FullTurn * k1 as real && r2 == angle + FullTurn * k2 as real
    requires (0.0 <= r1 < FullTurn && 0.0 <= r2 < FullTurn) || (0.0 < r1 <= FullTurn && 0.0 < r2 <= FullTurn)
    ensures r1 == r2
  {
    assert r1 - r2 == FullTurn * (k1 - k2) as real;
  }

  /** setRotation: the three angles as given; the position stays. */
  function SetRotation(c: Camera, x: real, y: real, z: real): (r: Camera)
    ensures r.rotateX == x && r.rotateY == y && r.rotateZ == z
    ensures r.positionX == c.positionX && r.positionY == c.positionY && r.positionZ == c.positionZ
  {
    c.(rotateX := x, rotateY := y, rotateZ := z)
  }

  /** The rotation each preset direction sets. */
  function DirectionAngles(d: ViewDirection): (a: (real, real, real))
  {
    match d
    case Top => (90.0, 0.0, 0.0)
    case Bottom => (-90.0, 0.0, 0.0)
    case North => (0.0, 0.0, -180.0)
    case South => (0.0, 0.0, 0.0)
    case West => (0.0, 0.0, 90.0)
    case East => (0.0, 0.0, -90.0)
  }

  /** changeViewDirection: the preset rotation; the position stays. */
  function ChangeViewDirection(c: Camera, d: ViewDirection): (r: Camera)
    ensures (r.rotateX, r.rotateY, r.rotateZ) == DirectionAngles(d)
    ensures r.positionX == c.positionX && r.positionY == c.positionY && r.positionZ == c.positionZ
  {
    var (x, y, z) := DirectionAngles(d);
    SetRotation(c, x, y, z)
  }

  /** Top and Bottom tilt about x by opposite quarter turns; the compass
      directions turn about z only, a quarter turn apart, and opposite
      compass points are half a turn apart. No preset rolls about y. */
  lemma PresetGeometry(d: ViewDirection)
    ensures DirectionAngles(d).1 == 0.0
    ensures d in {North, South, West, East} ==> DirectionAngles(d).0 == 0.0
    ensures d in {Top, Bottom} ==> DirectionAngles(d).2 == 0.0
    ensures DirectionAngles(Top).0 == -DirectionAngles(Bottom).0
    ensures DirectionAngles(South).2 - DirectionAngles(North).2 == 180.0
    ensures DirectionAngles(West).2 - DirectionAngles(East).2 == 180.0
    ensures DirectionAngles(West).2 - DirectionAngles(South).2 == 90.0
  {
  }

  /** pitch: the x angle moves by dx and is normalised; turns is the
      number of whole turns normalising added. */
  method Pitch(c: Camera, dx: real) returns (r: Camera, turns: int)
    ensures 0.0 <= r.rotateX <= FullTurn
    ensures r.rotateX == c.rotateX + dx + FullTurn * turns as real
    ensures 0.0 <= c.rotateX + dx <= FullTurn ==> r.rotateX == c.rotateX + dx
    ensures r == c.(rotateX := r.rotateX)
  {
    var a;
    a, turns := NormalizeAngle(c.rotateX + dx);
    r := c.(rotateX := a);
  }

  /** roll: the y angle moves by dy and is normalised by whole turns. */
  method Roll(c: Camera, dy: real) returns (r: Camera, turns: int)
    ensures 0.0 <= r.rotateY <= FullTurn
    ensures r.rotateY == c.rotateY + dy + FullTurn * turns as real
    ensures 0.0 <= c.rotateY + dy <= FullTurn ==> r.rotateY == c.rotateY + dy
    ensures r == c.(rotateY := r.rotateY)
  {
    var a;
    a, turns := NormalizeAngle(c.rotateY + dy);
    r := c.(rotateY := a);
  }

  /** yaw: the z angle moves by dz and is normalised by whole turns. */
  method Yaw(c: Camera, dz: real) returns (r: Camera, turns: int)
    ensures 0.0 <= r.rotateZ <= FullTurn
    ensures r.rotateZ == c.rotateZ + dz + FullTurn * turns as real
    ensures 0.0 <= c.rotateZ + dz <= FullTurn ==> r.rotateZ == c.rotateZ + dz
    ensures r == c.(rotateZ := r.rotateZ)
  {
    var a;
    a, turns := NormalizeAngle(c.rotateZ + dz);
    r := c.(rotateZ := a);
  }

  /** pan: moves the position in x and z. */
  function Pan(c: Camera, dx: real, dz: real): (r: Camera)
    ensures r.positionX - c.positionX == dx && r.positionZ - c.positionZ == dz
    ensures r == c.(positionX := r.positionX, positionZ := r.positionZ)
  {
    c.(positionX := c.positionX + dx, positionZ := c.positionZ + dz)
  }

  /** Panning back undoes a pan, and two pans add up. */
  lemma PanInverse(c: Camera, dx: real, dz: real, ex: real, ez: real)
    ensures Pan(Pan(c, dx, dz), -dx, -dz) == c
    ensures Pan(Pan(c, dx, dz), ex, ez) == Pan(c, dx + ex, dz + ez)
  {
  }

  /** zoom: the y position is scaled by 0.9 to the power amt / 10. */
  function Zoom(c: Camera, amt: real, pow: (real, real) -> real): (r: Camera)
    ensures r.positionY == c.positionY * pow(0.9, amt / 10.0)
    ensures r == c.(positionY := r.positionY)
  {
    c.(positionY := c.positionY * pow(0.9, amt / 10.0))
  }

  /** With a power function that adds exponents, two zooms are one zoom
      by the sum, and zooming by 0 (0.9 to the power 0 being 1) changes
      nothing. */
  lemma ZoomAdds(c: Camera, a1: real, a2: real, pow: (real, real) -> real)
    requires pow(0.9, a1 / 10.0 + a2 / 10.0) == pow(0.9, a1 / 10.0) * pow(0.9, a2 / 10.0)
    requires pow(0.9, 0.0) == 1.0
    ensures Zoom(Zoom(c, a1, pow), a2, pow) == Zoom(c, a1 + a2, pow)
    ensures Zoom(c, 0.0, pow) == c
  {
    assert (a1 + a2) / 10.0 == a1 / 10.0 + a2 / 10.0;
    Associate(c.positionY, pow(0.9, a1 / 10.0), pow(0.9, a2 / 10.0));
  }

  lemma Associate(a: real, b: real, c: real)
    ensures a * b * c == a * (b * c)
  {
  }
}
