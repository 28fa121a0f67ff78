/** The geometry used by src/Octree.cpp: the squarified root bounds of
    `createRootNode`, the octant choice and half boxes of `insert`, and the
    jittered point of a leaf split. */
module OctreeGeometry {
  import opened Primitives
  import opened OctreeNodes

  /** `INT32_MAX` and `INT32_MIN`, the initial values of the running bounds. */
  const Int32Max: real := 2147483647.0
  const Int32Min: real := -2147483648.0

  /** The side added on every face when all bodies coincide, per body. */
  const CoincidentSpread: real := 500.0

  function Min(a: real, b: real): (m: real)
    ensures m <= a && m <= b && (m == a || m == b)
  {
    if a < b then a else b
  }

  function Max(a: real, b: real): (m: real)
    ensures m >= a && m >= b && (m == a || m == b)
  {
    if a > b then a else b
  }

  /** The running lower bound on one axis after scanning `ps`: it starts at
      INT32_MAX and drops to each coordinate below it. */
  function Lower(ps: seq<Vector3>, axis: int): real
    requires 0 <= axis < 3
  {
    if |ps| == 0 then Int32Max
    else
      var c := Coord(ps[|ps| - 1], axis);
      var lo := Lower(ps[..|ps| - 1], axis);
      if c < lo then c else lo
  }

  /** The running upper bound: it starts at INT32_MIN. */
  function Upper(ps: seq<Vector3>, axis: int): real
    requires 0 <= axis < 3
  {
    if |ps| == 0 then Int32Min
    else
      var c := Coord(ps[|ps| - 1], axis);
      var hi := Upper(ps[..|ps| - 1], axis);
      if c > hi then c else hi
  }

  /** The least coordinate clipped from above at INT32_MAX: a lower bound of
      every coordinate that some coordinate (or INT32_MAX) attains. */
  lemma {:induction false} LowerIsClippedMin(ps: seq<Vector3>, axis: int)
    requires 0 <= axis < 3
    ensures Lower(ps, axis) <= Int32Max
    ensures forall i | 0 <= i < |ps| :: Lower(ps, axis) <= Coord(ps[i], axis)
    ensures Lower(ps, axis) == Int32Max || exists i | 0 <= i < |ps| :: Lower(ps, axis) == Coord(ps[i], axis)
    decreases |ps|
  {
    if |ps| > 0 {
      var front := ps[..|ps| - 1];
      LowerIsClippedMin(front, axis);
      assert forall i | 0 <= i < |front| :: front[i] == ps[i];
    }
  }

  lemma {:induction false} UpperIsClippedMax(ps: seq<Vector3>, axis: int)
    requires 0 <= axis < 3
    ensures Upper(ps, axis) >= Int32Min
    ensures forall i | 0 <= i < |ps| :: Upper(ps, axis) >= Coord(ps[i], axis)
    ensures Upper(ps, axis) == Int32Min || exists i | 0 <= i < |ps| :: Upper(ps, axis) == Coord(ps[i], axis)
    decreases |ps|
  {
    if |ps| > 0 {
      var front := ps[..|ps| - 1];
      UpperIsClippedMax(front, axis);
      assert forall i | 0 <= i < |front| :: front[i] == ps[i];
    }
  }

  /** The largest extent over the three axes (`maxSide` before squarifying). */
  function MaxSide(ps: seq<Vector3>): real {
    Max(Upper(ps, 0) - Lower(ps, 0), Max(Upper(ps, 1) - Lower(ps, 1), Upper(ps, 2) - Lower(ps, 2)))
  }

  /** The bounds `createRootNode` gives the root for bodies at `ps`. */
  function RootBox(ps: seq<Vector3>): Box {
    var x1, y1, z1 := Lower(ps, 0), Lower(ps, 1), Lower(ps, 2);
    var x2, y2, z2 := Upper(ps, 0), Upper(ps, 1), Upper(ps, 2);
    var side := MaxSide(ps);
    if side == 0.0 then
      var spread := (|ps| as real) * CoincidentSpread;
      Box(x1 - spread, x2 + spread, y1 - spread, y2 + spread, z1 - spread, z2 + spread)
    else
      Box(x1, x1 + side, y1, y1 + side, z1, z1 + side)
  }

  predicate Contains(b: Box, p: Vector3) {
    b.left <= p.x <= b.right && b.top <= p.y <= b.bottom && b.back <= p.z <= b.front
  }

  predicate Ordered(b: Box) {
    b.left <= b.right && b.top <= b.bottom && b.back <= b.front
  }

  predicate InInt32Range(p: Vector3) {
    Int32Min <= p.x <= Int32Max && Int32Min <= p.y <= Int32Max && Int32Min <= p.z <= Int32Max
  }

  /** Every body lies inside the root bounds, whatever its coordinates. */
  lemma RootBoxContainsAll(ps: seq<Vector3>)
    requires |ps| > 0
    ensures Ordered(RootBox(ps))
    ensures forall i | 0 <= i < |ps| :: Contains(RootBox(ps), ps[i])
  {
    LowerIsClippedMin(ps, 0); LowerIsClippedMin(ps, 1); LowerIsClippedMin(ps, 2);
    UpperIsClippedMax(ps, 0); UpperIsClippedMax(ps, 1); UpperIsClippedMax(ps, 2);
    assert Coord(ps[0], 0) == ps[0].x && Coord(ps[0], 1) == ps[0].y && Coord(ps[0], 2) == ps[0].z;
    forall i | 0 <= i < |ps|
      ensures Contains(RootBox(ps), ps[i])
    {
      assert Coord(ps[i], 0) == ps[i].x && Coord(ps[i], 1) == ps[i].y && Coord(ps[i], 2) == ps[i].z;
    }
  }

  /** Unless the bodies coincide, the root is a cube anchored at the lower
      corner, every side equal to the largest extent. */
  lemma RootBoxIsCube(ps: seq<Vector3>)
    requires MaxSide(ps) != 0.0
    ensures var b := RootBox(ps);
      b.left == Lower(ps, 0) && b.top == Lower(ps, 1) && b.back == Lower(ps, 2) &&
      b.right - b.left == MaxSide(ps) && b.bottom - b.top == MaxSide(ps) &&
      b.front - b.back == MaxSide(ps) &&
      MaxSide(ps) >= Upper(ps, 0) - Lower(ps, 0) &&
      MaxSide(ps) >= Upper(ps, 1) - Lower(ps, 1) &&
      MaxSide(ps) >= Upper(ps, 2) - Lower(ps, 2)
  {
  }

  /** For bodies in the int32 range the lower corner is the true minimum. */
  lemma LowerIsMinInRange(ps: seq<Vector3>, axis: int)
    requires 0 <= axis < 3 && |ps| > 0
    requires forall i | 0 <= i < |ps| :: InInt32Range(ps[i])
    ensures exists i | 0 <= i < |ps| :: Lower(ps, axis) == Coord(ps[i], axis)
    ensures forall i | 0 <= i < |ps| :: Lower(ps, axis) <= Coord(ps[i], axis)
  {
    LowerIsClippedMin(ps, axis);
    if Lower(ps, axis) == Int32Max {
      assert InInt32Range(ps[0]);
      assert Lower(ps, axis) == Coord(ps[0], axis);
    }
  }

  /** When all bodies (in the int32 range) sit at one point, the root
      extends n * 500 past it on every side of every axis. */
  lemma RootBoxCoincident(ps: seq<Vector3>, p: Vector3)
    requires |ps| > 0 && InInt32Range(p)
    requires forall i | 0 <= i < |ps| :: ps[i] == p
    ensures MaxSide(ps) == 0.0
    ensures var s := (|ps| as real) * CoincidentSpread;
      RootBox(ps) == Box(p.x - s, p.x + s, p.y - s, p.y + s, p.z - s, p.z + s)
  {
    forall axis | 0 <= axis < 3
      ensures Lower(ps, axis) == Coord(p, axis) == Upper(ps, axis)
    {
      LowerIsClippedMin(ps, axis);
      UpperIsClippedMax(ps, axis);
      assert Coord(ps[0], axis) == Coord(p, axis);
    }
    assert Lower(ps, 0) == p.x == Upper(ps, 0);
    assert Lower(ps, 1) == p.y == Upper(ps, 1);
    assert Lower(ps, 2) == p.z == Upper(ps, 2);
  }

  /** The root box collapses to the coincident case only when the bodies
      really coincide. */
  lemma ZeroSideMeansCoincident(ps: seq<Vector3>)
    requires |ps| > 0 && MaxSide(ps) == 0.0
    ensures forall i | 0 <= i < |ps| :: ps[i] == ps[0]
  {
    LowerIsClippedMin(ps, 0); LowerIsClippedMin(ps, 1); LowerIsClippedMin(ps, 2);
    UpperIsClippedMax(ps, 0); UpperIsClippedMax(ps, 1); UpperIsClippedMax(ps, 2);
    assert Coord(ps[0], 0) == ps[0].x && Coord(ps[0], 1) == ps[0].y && Coord(ps[0], 2) == ps[0].z;
    forall i | 0 <= i < |ps|
      ensures ps[i] == ps[0]
    {
      assert Coord(ps[i], 0) == ps[i].x && Coord(ps[i], 1) == ps[i].y && Coord(ps[i], 2) == ps[i].z;
    }
  }

  /** The octant `insert` descends into: bit 1, 2 and 4 are set when x, y and z
      lie strictly past the middle of the box. */
  function Octant(b: Box, p: Vector3): (q: nat)
    ensures q < 8
    ensures (q % 2 == 1) <==> p.x > (b.right + b.left) / 2.0
    ensures ((q / 2) % 2 == 1) <==> p.y > (b.bottom + b.top) / 2.0
    ensures (q / 4 == 1) <==> p.z > (b.front + b.back) / 2.0
  {
    (if p.x > (b.right + b.left) / 2.0 then 1 else 0) +
    (if p.y > (b.bottom + b.top) / 2.0 then 2 else 0) +
    (if p.z > (b.front + b.back) / 2.0 then 4 else 0)
  }

  /** The half of `b` on each axis that octant `q` selects. */
  function ChildBox(b: Box, q: nat): (c: Box)
    requires q < 8
  {
    var midX, midY, midZ := (b.right + b.left) / 2.0, (b.bottom + b.top) / 2.0, (b.front + b.back) / 2.0;
    Box(if q % 2 == 1 then midX else b.left, if q % 2 == 1 then b.right else midX,
        if (q / 2) % 2 == 1 then midY else b.top, if (q / 2) % 2 == 1 then b.bottom else midY,
        if q / 4 == 1 then midZ else b.back, if q / 4 == 1 then b.front else midZ)
  }

  /** The child box is the half along each axis of its parent: it lies
      inside it, keeps its orientation, has half its sides, and holds the
      point that chose it. */
  lemma ChildBoxHalves(b: Box, p: Vector3)
    requires Ordered(b)
    ensures var c := ChildBox(b, Octant(b, p));
      Ordered(c) &&
      b.left <= c.left && c.right <= b.right && b.top <= c.top && c.bottom <= b.bottom &&
      b.back <= c.back && c.front <= b.front &&
      c.right - c.left == (b.right - b.left) / 2.0 &&
      c.bottom - c.top == (b.bottom - b.top) / 2.0 &&
      c.front - c.back == (b.front - b.back) / 2.0 &&
      (Contains(b, p) ==> Contains(c, p))
  {
  }

  /** The point a split moves the resident body to: the same fraction `u`
      of the box along every axis, measured from the left/top/back faces. */
  function JitterPoint(b: Box, u: real): Vector3 {
    Vector3(b.left + (b.right - b.left) * u, b.top + (b.bottom - b.top) * u, b.back + (b.front - b.back) * u)
  }

  /** A non-negative width scaled by a fraction in [0, 1) stays within it. */
  lemma ScaledWidth(w: real, u: real)
    requires w >= 0.0 && 0.0 <= u < 1.0
    ensures 0.0 <= w * u <= w
    ensures w > 0.0 ==> w * u < w
  {
    var rest := 1.0 - u;
    assert rest > 0.0;
    assert w * rest >= 0.0;
    assert w * u + w * rest == w;
    if w > 0.0 {
      assert w * rest > 0.0;
    }
  }

  /** A jittered body never leaves the node's box. */
  lemma JitterInside(b: Box, u: real)
    requires Ordered(b) && 0.0 <= u < 1.0
    ensures Contains(b, JitterPoint(b, u))
    ensures b.left < b.right ==> JitterPoint(b, u).x < b.right
  {
    var wx, wy, wz := b.right - b.left, b.bottom - b.top, b.front - b.back;
    ScaledWidth(wx, u);
    ScaledWidth(wy, u);
    ScaledWidth(wz, u);
    var p := JitterPoint(b, u);
    assert p.x == b.left + wx * u && p.y == b.top + wy * u && p.z == b.back + wz * u;
  }
}
