/** The three-component vector of include/primitives.h.  A Vector3 is copied
    by value everywhere in the source, so it is a datatype here; an in-place
    update such as `v += w` is the reassignment `v := Add(v, w)`. */
module Primitives {

  datatype Vector3 = Vector3(x: real, y: real, z: real)

  /** Per-axis tolerance of `sameAs`. */
  const Epsilon: real := 0.00000001

  /** `Vector3()` and `reset()`: the zero vector. */
  function Zero(): Vector3 {
    Vector3(0.0, 0.0, 0.0)
  }

  /** `Vector3(s)`: all three components set to `s`. */
  function Splat(s: real): Vector3 {
    Vector3(s, s, s)
  }

  /** `operator[]` for the axes X = 0, Y = 1, Z = 2. */
  function Coord(v: Vector3, axis: int): real
    requires 0 <= axis < 3
  {
    if axis == 0 then v.x else if axis == 1 then v.y else v.z
  }

  function Abs(r: real): (a: real)
    ensures a >= 0.0 && (a == r || a == -r)
  {
    if r < 0.0 then -r else r
  }

  function Add(a: Vector3, b: Vector3): Vector3 {
    Vector3(a.x + b.x, a.y + b.y, a.z + b.z)
  }

  function Sub(a: Vector3, b: Vector3): Vector3 {
    Vector3(a.x - b.x, a.y - b.y, a.z - b.z)
  }

  /** Componentwise product (`operator*` on two vectors). */
  function Mul(a: Vector3, b: Vector3): Vector3 {
    Vector3(a.x * b.x, a.y * b.y, a.z * b.z)
  }

  /** Componentwise quotient; the source divides by zero into infinities,
      which reals cannot express. */
  function Div(a: Vector3, b: Vector3): Vector3
    requires b.x != 0.0 && b.y != 0.0 && b.z != 0.0
  {
    Vector3(a.x / b.x, a.y / b.y, a.z / b.z)
  }

  /** `v + s`, `v - s`, `v * s` and `v / s` for a scalar go through `Vector3(s)`. */
  function AddScalar(v: Vector3, s: real): Vector3 {
    Add(v, Splat(s))
  }

  function SubScalar(v: Vector3, s: real): Vector3 {
    Sub(v, Splat(s))
  }

  function Scale(v: Vector3, s: real): Vector3 {
    Mul(v, Splat(s))
  }

  function DivScalar(v: Vector3, s: real): Vector3
    requires s != 0.0
  {
    Div(v, Splat(s))
  }

  /** `summ_elem`. */
  function SumElems(v: Vector3): real {
    v.x + v.y + v.z
  }

  /** `is_initialized`: some component differs from exactly 0. */
  predicate IsInitialized(v: Vector3) {
    !(v.x == 0.0 && v.y == 0.0 && v.z == 0.0)
  }

  /** `sameAs`: every component of the difference is below the tolerance in
      absolute value. */
  predicate SameAs(a: Vector3, b: Vector3) {
    var diff := Sub(a, b);
    Abs(diff.x) < Epsilon && Abs(diff.y) < Epsilon && Abs(diff.z) < Epsilon
  }

  lemma ZeroIsSplat()
    ensures Zero() == Splat(0.0)
  {
  }

  lemma SplatComponents(s: real)
    ensures forall axis | 0 <= axis < 3 :: Coord(Splat(s), axis) == s
  {
  }

  lemma NotInitializedIffZero(v: Vector3)
    ensures !IsInitialized(v) <==> v == Zero()
  {
  }

  /** The tolerance test is a proximity relation: reflexive and symmetric ... */
  lemma SameAsReflexiveSymmetric(a: Vector3, b: Vector3)
    ensures SameAs(a, a)
    ensures SameAs(a, b) <==> SameAs(b, a)
  {
  }

  /** ... and not transitive: two steps of 0.6e-8 add up to more than 1e-8. */
  lemma SameAsNotTransitive()
    ensures SameAs(Zero(), Splat(0.000000006))
    ensures SameAs(Splat(0.000000006), Splat(0.000000012))
    ensures !SameAs(Zero(), Splat(0.000000012))
  {
  }

  lemma SameAsIffComponents(a: Vector3, b: Vector3)
    ensures SameAs(a, b) <==>
      forall axis | 0 <= axis < 3 :: Abs(Coord(a, axis) - Coord(b, axis)) < Epsilon
  {
    assert Coord(a, 0) - Coord(b, 0) == Sub(a, b).x;
    assert Coord(a, 1) - Coord(b, 1) == Sub(a, b).y;
    assert Coord(a, 2) - Coord(b, 2) == Sub(a, b).z;
  }

  lemma SubSelfIsZero(a: Vector3)
    ensures Sub(a, a) == Zero()
    ensures !IsInitialized(Sub(a, a))
  {
  }

  lemma AddSubCancel(a: Vector3, b: Vector3)
    ensures Sub(Add(a, b), b) == a
    ensures Add(Sub(a, b), b) == a
  {
  }

  lemma AddCommutesAssociates(a: Vector3, b: Vector3, c: Vector3)
    ensures Add(a, b) == Add(b, a)
    ensures Add(Add(a, b), c) == Add(a, Add(b, c))
    ensures Add(a, Zero()) == a
  {
  }

  lemma ScalarOperatorsComponentwise(v: Vector3, s: real)
    ensures forall axis | 0 <= axis < 3 ::
      && Coord(AddScalar(v, s), axis) == Coord(v, axis) + s
      && Coord(SubScalar(v, s), axis) == Coord(v, axis) - s
      && Coord(Scale(v, s), axis) == Coord(v, axis) * s
  {
  }

  lemma SumElemsLinear(a: Vector3, b: Vector3, s: real)
    ensures SumElems(Add(a, b)) == SumElems(a) + SumElems(b)
    ensures SumElems(Scale(a, s)) == s * SumElems(a)
  {
  }

  /** `is_great`: writes the three per-axis comparisons into `result`. */
  method IsGreat(a: Vector3, other: Vector3, result: array<bool>)
    requires result.Length >= 3
    modifies result
    ensures forall axis | 0 <= axis < 3 :: result[axis] == (Coord(a, axis) > Coord(other, axis))
    ensures forall k | 3 <= k < result.Length :: result[k] == old(result[k])
  {
    result[0] := a.x > other.x;
    result[1] := a.y > other.y;
    result[2] := a.z > other.z;
  }

  /** `is_less`: as `is_great` with the comparison reversed. */
  method IsLess(a: Vector3, other: Vector3, result: array<bool>)
    requires result.Length >= 3
    modifies result
    ensures forall axis | 0 <= axis < 3 :: result[axis] == (Coord(a, axis) < Coord(other, axis))
    ensures forall k | 3 <= k < result.Length :: result[k] == old(result[k])
  {
    result[0] := a.x < other.x;
    result[1] := a.y < other.y;
    result[2] := a.z < other.z;
  }

  /** Calling `a.is_great(b)` and `b.is_less(a)` fills two arrays with equal
      flags, and `a.is_great(b)` and `a.is_less(b)` never agree on true. */
  method GreatLessDuality(a: Vector3, b: Vector3) returns (great: array<bool>, lessSwapped: array<bool>, less: array<bool>)
    ensures great.Length == 3 && lessSwapped.Length == 3 && less.Length == 3
    ensures great[..] == lessSwapped[..]
    ensures forall axis | 0 <= axis < 3 :: !(great[axis] && less[axis])
  {
    great := new bool[3];
    lessSwapped := new bool[3];
    less := new bool[3];
    IsGreat(a, b, great);
    IsLess(b, a, lessSwapped);
    IsLess(a, b, less);
    assert great[..] == lessSwapped[..] by {
      forall axis | 0 <= axis < 3 ensures great[axis] == lessSwapped[axis] {
      }
    }
  }
}
