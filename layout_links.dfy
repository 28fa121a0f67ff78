/** The value-level meaning of the loops in src/layout.cpp: what the signed
    entries of a links file decode to, the spring and drag updates on one
    force, the spring pass on the whole force vector, and the integrator's
    movement measure. */
module LayoutMath {
  import opened Primitives
  import opened LayoutSettings
  import opened BarnesHut

  const IntMin: int := -2147483648
  const IntMax: int := 2147483647

  function IntAbs(e: int): nat {
    if e < 0 then -e else e
  }

  /** What `load_links` can index: every entry is a 32-bit int other than 0
      (which would name vertex -1) and INT_MIN (whose `abs` overflows). */
  predicate LinkEntries(links: seq<int>) {
    forall i | 0 <= i < |links| :: links[i] != 0 && IntMin < links[i] <= IntMax
  }

  /** The body count: the largest absolute value of an entry, found with
      `max_element` under the `abs` ordering. */
  function MaxAbs(links: seq<int>): (n: nat)
    ensures forall i | 0 <= i < |links| :: IntAbs(links[i]) <= n
    ensures |links| > 0 ==> exists i | 0 <= i < |links| :: IntAbs(links[i]) == n
    ensures |links| == 0 ==> n == 0
  {
    if |links| == 0 then 0
    else
      var p := links[..|links| - 1];
      var m := MaxAbs(p);
      var a := IntAbs(links[|links| - 1]);
      assert forall i | 0 <= i < |p| :: p[i] == links[i];
      if a > m then a else m
  }

  /** The source vertex after reading `links`: 0 at first, and `-k` makes
      it `k - 1`. */
  function From(links: seq<int>): int {
    if |links| == 0 then 0
    else if links[|links| - 1] < 0 then -links[|links| - 1] - 1
    else From(links[..|links| - 1])
  }

  /** The springs of vertex `v`: the 0-based target `m - 1` of every
      positive entry `m` read while `v` was the source, in file order. */
  function SpringsOf(links: seq<int>, v: int): seq<int> {
    if |links| == 0 then []
    else
      var p := links[..|links| - 1];
      var e := links[|links| - 1];
      if e > 0 && From(p) == v then SpringsOf(p, v) + [e - 1] else SpringsOf(p, v)
  }

  /** How many positive entries name `v` as their target. */
  function InCount(links: seq<int>, v: int): nat {
    if |links| == 0 then 0
    else
      var p := links[..|links| - 1];
      var e := links[|links| - 1];
      InCount(p, v) + if e > 0 && e - 1 == v then 1 else 0
  }

  /** The number of positive entries. */
  function Positives(links: seq<int>): nat {
    if |links| == 0 then 0
    else Positives(links[..|links| - 1]) + if links[|links| - 1] > 0 then 1 else 0
  }

  /** The number of springs held by vertices 0 .. n-1. */
  function TotalSprings(links: seq<int>, n: nat): nat {
    if n == 0 then 0 else TotalSprings(links, n - 1) + |SpringsOf(links, n - 1)|
  }

  /** Reading entry `i` after the prefix `links[..i]`: a negative entry
      moves the source, a positive one adds a spring to the source and an
      incoming link to its target. */
  lemma DecodeStep(links: seq<int>, i: nat, v: int)
    requires i < |links|
    ensures var p, e := links[..i], links[i];
      From(links[..i + 1]) == (if e < 0 then -e - 1 else From(p)) &&
      SpringsOf(links[..i + 1], v) == (if e > 0 && From(p) == v then SpringsOf(p, v) + [e - 1] else SpringsOf(p, v)) &&
      InCount(links[..i + 1], v) == InCount(p, v) + (if e > 0 && e - 1 == v then 1 else 0)
  {
    assert links[..i + 1][..i] == links[..i];
  }

  /** At every point of the file the current source is a vertex of the
      graph: 0, or `k - 1` for an entry `-k` with `k <= MaxAbs`. */
  lemma {:induction false} SourceInRange(links: seq<int>, i: nat)
    requires LinkEntries(links) && |links| > 0 && i <= |links|
    ensures 0 <= From(links[..i]) < MaxAbs(links)
  {
    if i == 0 {
      assert IntAbs(links[0]) <= MaxAbs(links);
    } else {
      assert links[..i][..i - 1] == links[..i - 1];
      assert links[..i][i - 1] == links[i - 1];
      assert IntAbs(links[i - 1]) <= MaxAbs(links);
      if links[i - 1] >= 0 {
        SourceInRange(links, i - 1);
      }
    }
  }

  /** Every spring `load_links` pushes names a vertex of the graph. */
  lemma {:induction false} SpringTargetsInRange(links: seq<int>, i: nat, v: int)
    requires LinkEntries(links) && i <= |links|
    ensures forall k | 0 <= k < |SpringsOf(links[..i], v)| :: 0 <= SpringsOf(links[..i], v)[k] < MaxAbs(links)
  {
    if i > 0 {
      assert links[..i][..i - 1] == links[..i - 1];
      assert links[..i][i - 1] == links[i - 1];
      assert IntAbs(links[i - 1]) <= MaxAbs(links);
      SpringTargetsInRange(links, i - 1, v);
    }
  }

  /** Reading one more entry adds one spring to the vertices below `n`
      exactly when it is positive and its source is one of them. */
  lemma {:induction false} TotalSpringsEmpty(n: nat)
    ensures TotalSprings([], n) == 0
  {
    if n > 0 {
      TotalSpringsEmpty(n - 1);
    }
  }

  lemma {:induction false} TotalSpringsStep(p: seq<int>, e: int, n: nat)
    ensures TotalSprings(p + [e], n) ==
      TotalSprings(p, n) + if e > 0 && 0 <= From(p) < n then 1 else 0
  {
    assert (p + [e])[..|p|] == p;
    if n > 0 {
      TotalSpringsStep(p, e, n - 1);
    }
  }

  /** Every positive entry becomes exactly one spring of exactly one
      vertex: the graph has as many edges as the file has positive
      entries. */
  lemma {:induction false} EdgesArePositives(links: seq<int>, i: nat)
    requires LinkEntries(links) && |links| > 0 && i <= |links|
    ensures TotalSprings(links[..i], MaxAbs(links)) == Positives(links[..i])
  {
    if i == 0 {
      TotalSpringsEmpty(MaxAbs(links));
    } else {
      var p, e, n := links[..i - 1], links[i - 1], MaxAbs(links);
      EdgesArePositives(links, i - 1);
      assert links[..i] == p + [e];
      assert (p + [e])[..|p|] == p;
      assert Positives(p + [e]) == Positives(p) + if e > 0 then 1 else 0;
      SourceInRange(links, i - 1);
      TotalSpringsStep(p, e, n);
    }
  }

  /** `DefaultMass(s, d)` is the `init_weights` mass of a body with `s`
      springs and incoming-link counter `d`: `1 + (s + d) / 3`. */
  function DefaultMass(springs: nat, incoming: nat): (m: real)
    ensures m >= 1.0
    ensures 3.0 * (m - 1.0) == (springs + incoming) as real
  {
    1.0 + (springs + incoming) as real / 3.0
  }

  /** `updateDragForce`: the force less `dragCoeff` times the velocity. */
  function Drag(force: Vector3, velocity: Vector3): Vector3 {
    Sub(force, Scale(velocity, DragCoeff))
  }

  /** A body at rest feels no drag. */
  lemma DragAtRest(f: Vector3)
    ensures Drag(f, Zero()) == f
  {
    var s := Scale(Zero(), DragCoeff);
    assert s.x == 0.0 && s.y == 0.0 && s.z == 0.0;
    var d := Drag(f, Zero());
    assert d.x == f.x && d.y == f.y && d.z == f.z;
  }

  /** Drag is linear in the velocity. */
  lemma DragLinear(f: Vector3, v: Vector3, w: Vector3)
    ensures Drag(f, Add(v, w)) == Drag(Drag(f, v), w)
  {
    assert f.x - DragCoeff * (v.x + w.x) == (f.x - DragCoeff * v.x) - DragCoeff * w.x;
    assert f.y - DragCoeff * (v.y + w.y) == (f.y - DragCoeff * v.y) - DragCoeff * w.y;
    assert f.z - DragCoeff * (v.z + w.z) == (f.z - DragCoeff * v.z) - DragCoeff * w.z;
  }

  /** `springCoeff * (r - springLength) / r`; at distance 0 the source
      divides by zero, and the coefficient is then taken as zero. */
  function SpringCoefficient(r: real): (c: real)
    ensures r == 0.0 ==> c == 0.0
  {
    if r == 0.0 then 0.0 else SpringCoeff * (r - SpringLength) / r
  }

  /** A spring pulls its ends together when stretched past its rest
      length, pushes them apart when compressed, and is slack at it. */
  lemma SpringCoefficientSign(r: real)
    requires r > 0.0
    ensures r > SpringLength ==> SpringCoefficient(r) > 0.0
    ensures r < SpringLength ==> SpringCoefficient(r) < 0.0
    ensures r == SpringLength ==> SpringCoefficient(r) == 0.0
  {
    var c := SpringCoefficient(r);
    assert c * r == SpringCoeff * (r - SpringLength);
    if r > SpringLength {
      assert c * r > 0.0;
    } else if r < SpringLength {
      assert c * r < 0.0;
    }
  }

  /** The forces after the springs of body `src` with the given targets:
      spring k adds `pulls[k]` to the source and then takes it from its
      target, in order (a spring to itself cancels out). */
  function ApplySprings(fs: seq<Vector3>, src: nat, targets: seq<int>, pulls: seq<Vector3>): (r: seq<Vector3>)
    requires src < |fs| && |targets| == |pulls|
    requires forall k | 0 <= k < |targets| :: 0 <= targets[k] < |fs|
    ensures |r| == |fs|
    decreases |targets|
  {
    if |targets| == 0 then fs
    else
      var n := |targets| - 1;
      var before := ApplySprings(fs, src, targets[..n], pulls[..n]);
      var pulled := before[src := Add(before[src], pulls[n])];
      pulled[targets[n] := Sub(pulled[targets[n]], pulls[n])]
  }

  /** The sum of a vector of forces. */
  function SumVec(fs: seq<Vector3>): Vector3
    decreases |fs|
  {
    if |fs| == 0 then Zero() else Add(SumVec(fs[..|fs| - 1]), fs[|fs| - 1])
  }

  /** Replacing one force changes the sum by the difference. */
  lemma {:induction false} SumVecUpdate(fs: seq<Vector3>, i: nat, v: Vector3)
    requires i < |fs|
    ensures SumVec(fs[i := v]) == Add(Sub(SumVec(fs), fs[i]), v)
    decreases |fs|
  {
    var n := |fs| - 1;
    if i == n {
      assert fs[i := v][..n] == fs[..n];
    } else {
      assert fs[i := v][..n] == fs[..n][i := v];
      SumVecUpdate(fs[..n], i, v);
    }
  }

  /** Every spring is an equal and opposite pair, so the spring pass of a
      body never changes the total force, whatever the coefficients. */
  lemma {:induction false} SpringsKeepTotal(fs: seq<Vector3>, src: nat, targets: seq<int>, pulls: seq<Vector3>)
    requires src < |fs| && |targets| == |pulls|
    requires forall k | 0 <= k < |targets| :: 0 <= targets[k] < |fs|
    ensures SumVec(ApplySprings(fs, src, targets, pulls)) == SumVec(fs)
    decreases |targets|
  {
    if |targets| > 0 {
      var n := |targets| - 1;
      var before := ApplySprings(fs, src, targets[..n], pulls[..n]);
      SpringsKeepTotal(fs, src, targets[..n], pulls[..n]);
      var pulled := before[src := Add(before[src], pulls[n])];
      SumVecUpdate(before, src, Add(before[src], pulls[n]));
      SumVecUpdate(pulled, targets[n], Sub(pulled[targets[n]], pulls[n]));
    }
  }

  /** The second loop of `accumulate`: the spring passes of bodies
      `0 .. |pulls| - 1`, in order, where body `k` has springs `ss[k]` with
      pulls `pulls[k]`. */
  predicate SpringInputs(n: nat, ss: seq<seq<int>>, pulls: seq<seq<Vector3>>) {
    |ss| == n && |pulls| <= n &&
    (forall k | 0 <= k < |pulls| :: |ss[k]| == |pulls[k]|) &&
    forall k, j | 0 <= k < |ss| && 0 <= j < |ss[k]| :: 0 <= ss[k][j] < n
  }

  function SpringPass(fs: seq<Vector3>, ss: seq<seq<int>>, pulls: seq<seq<Vector3>>): (r: seq<Vector3>)
    requires SpringInputs(|fs|, ss, pulls)
    ensures |r| == |fs|
    decreases |pulls|
  {
    if |pulls| == 0 then fs
    else
      var k := |pulls| - 1;
      ApplySprings(SpringPass(fs, ss, pulls[..k]), k, ss[k], pulls[k])
  }

  /** One more body's springs extend the inputs of the pass. */
  lemma SpringInputsSnoc(n: nat, ss: seq<seq<int>>, pulls: seq<seq<Vector3>>, ps: seq<Vector3>)
    requires SpringInputs(n, ss, pulls) && |pulls| < n && |ss[|pulls|]| == |ps|
    ensures SpringInputs(n, ss, pulls + [ps])
  {
    assert forall k | 0 <= k < |pulls| :: (pulls + [ps])[k] == pulls[k];
  }

  /** The pass over one more body applies that body's springs to the
      forces the shorter pass left. */
  lemma SpringPassSnoc(fs: seq<Vector3>, ss: seq<seq<int>>, pulls: seq<seq<Vector3>>, ps: seq<Vector3>)
    requires SpringInputs(|fs|, ss, pulls) && SpringInputs(|fs|, ss, pulls + [ps])
    ensures SpringPass(fs, ss, pulls + [ps]) == ApplySprings(SpringPass(fs, ss, pulls), |pulls|, ss[|pulls|], ps)
  {
    assert (pulls + [ps])[..|pulls|] == pulls;
  }

  /** The whole spring pass keeps the total force. */
  lemma {:induction false} SpringPassKeepsTotal(fs: seq<Vector3>, ss: seq<seq<int>>, pulls: seq<seq<Vector3>>)
    requires SpringInputs(|fs|, ss, pulls)
    ensures SumVec(SpringPass(fs, ss, pulls)) == SumVec(fs)
    decreases |pulls|
  {
    if |pulls| > 0 {
      var k := |pulls| - 1;
      SpringPassKeepsTotal(fs, ss, pulls[..k]);
      SpringsKeepTotal(SpringPass(fs, ss, pulls[..k]), k, ss[k], pulls[k]);
    }
  }

  /** The new velocity of `integrate`: `v + (timeStep / mass) * f`, divided
      by its length when that length exceeds 1. */
  function NewVelocity(mass: real, v: Vector3, f: Vector3, sqrt: real -> real): Vector3
    requires mass != 0.0
  {
    var w := Add(v, Scale(f, TimeStep / mass));
    var speed := sqrt(NormSq(w));
    if speed > 1.0 then DivScalar(w, speed) else w
  }

  /** Below the cap the velocity is the unscaled update; above it, each
      component keeps its sign and shrinks. */
  lemma SpeedIsCapped(mass: real, v: Vector3, f: Vector3, sqrt: real -> real)
    requires mass != 0.0
    ensures var w := Add(v, Scale(f, TimeStep / mass));
      var u := NewVelocity(mass, v, f, sqrt);
      (sqrt(NormSq(w)) <= 1.0 ==> u == w) &&
      (sqrt(NormSq(w)) > 1.0 ==> Shrinks(w.x, u.x) && Shrinks(w.y, u.y) && Shrinks(w.z, u.z))
  {
    var w := Add(v, Scale(f, TimeStep / mass));
    var s := sqrt(NormSq(w));
    if s > 1.0 {
      DivideShrinks(w.x, s);
      DivideShrinks(w.y, s);
      DivideShrinks(w.z, s);
    }
  }

  /** `b` has the sign of `a` and, unless both are 0, a smaller magnitude. */
  predicate Shrinks(a: real, b: real) {
    (a == 0.0 ==> b == 0.0) && (a > 0.0 ==> 0.0 < b < a) && (a < 0.0 ==> a < b < 0.0)
  }

  /** Dividing by more than 1 shrinks a value toward 0; the step behind `SpeedIsCapped`. */
  lemma DivideShrinks(a: real, s: real)
    requires s > 1.0
    ensures Shrinks(a, a / s)
  {
    var q := a / s;
    assert q * s == a;
    if a > 0.0 {
      assert q > 0.0;
      ProductPositive(q, s - 1.0);
      assert q * (s - 1.0) == q * s - q;
    } else if a < 0.0 {
      assert q < 0.0;
      ProductPositive(-q, s - 1.0);
      assert (-q) * (s - 1.0) == q - q * s;
    }
  }

  /** The product of two positives is positive; an arithmetic step for `DivideShrinks`. */
  lemma ProductPositive(x: real, y: real)
    requires x > 0.0 && y > 0.0
    ensures x * y > 0.0
  {
  }

  /** The summed absolute displacements `(tx, ty, tz)`. */
  function AbsTotals(ds: seq<Vector3>): (t: Vector3)
    ensures t.x >= 0.0 && t.y >= 0.0 && t.z >= 0.0
    decreases |ds|
  {
    if |ds| == 0 then Zero()
    else
      Add(AbsTotals(ds[..|ds| - 1]), AbsVec(ds[|ds| - 1]))
  }

  /** Appending one displacement adds its absolute components to the totals,
      as the accumulation in `integrate` does. */
  lemma AbsTotalsSnoc(ds: seq<Vector3>, d: Vector3, t: Vector3)
    requires t == AbsTotals(ds)
    ensures AbsTotals(ds + [d]) == Vector3(t.x + Abs(d.x), t.y + Abs(d.y), t.z + Abs(d.z))
  {
    assert (ds + [d])[..|ds|] == ds;
  }

  /** Component-wise absolute value. */
  function AbsVec(d: Vector3): Vector3 {
    Vector3(Abs(d.x), Abs(d.y), Abs(d.z))
  }

  /** `integrate`'s result: `(tx^2 + ty^2 + tz^2) / n`. */
  function Movement(ds: seq<Vector3>): (m: real)
    requires |ds| > 0
    ensures m >= 0.0
  {
    QuotientSign(NormSq(AbsTotals(ds)), |ds| as real);
    NormSq(AbsTotals(ds)) / (|ds| as real)
  }

  /** Dividing by a positive keeps a zero zero and a positive positive; the step behind
      `Movement`'s sign. */
  lemma QuotientSign(a: real, b: real)
    requires b > 0.0
    ensures a == 0.0 ==> a / b == 0.0
    ensures a > 0.0 ==> a / b > 0.0
  {
  }

  /** No displacement at all. */
  predicate AllZero(ds: seq<Vector3>) {
    forall j | 0 <= j < |ds| :: !IsInitialized(ds[j])
  }

  lemma AllZeroSnoc(ds: seq<Vector3>)
    requires |ds| > 0
    ensures AllZero(ds) <==> AllZero(ds[..|ds| - 1]) && !IsInitialized(ds[|ds| - 1])
  {
    var n := |ds| - 1;
    assert forall j | 0 <= j < n :: ds[..n][j] == ds[j];
  }

  /** The totals vanish exactly when every displacement does. */
  lemma {:induction false} AbsTotalsZero(ds: seq<Vector3>)
    ensures !IsInitialized(AbsTotals(ds)) <==> AllZero(ds)
    decreases |ds|
  {
    if |ds| > 0 {
      var n := |ds| - 1;
      AbsTotalsZero(ds[..n]);
      AllZeroSnoc(ds);
      ZeroStep(AbsTotals(ds[..n]), ds[n]);
    }
  }

  /** Adding one more absolute displacement keeps the totals at zero only
      when that displacement is zero. */
  lemma ZeroStep(t: Vector3, d: Vector3)
    requires t.x >= 0.0 && t.y >= 0.0 && t.z >= 0.0
    ensures !IsInitialized(Add(t, AbsVec(d))) <==> !IsInitialized(t) && !IsInitialized(d)
  {
    AbsSumZero(t.x, d.x);
    AbsSumZero(t.y, d.y);
    AbsSumZero(t.z, d.z);
  }

  lemma AbsSumZero(t: real, r: real)
    requires t >= 0.0
    ensures t + Abs(r) == 0.0 <==> t == 0.0 && r == 0.0
  {
  }

  /** The layout reports no movement exactly when no body moved. */
  lemma MovementZeroIffStill(ds: seq<Vector3>)
    requires |ds| > 0
    ensures Movement(ds) == 0.0 <==> AllZero(ds)
  {
    AbsTotalsZero(ds);
    NormSqZero(AbsTotals(ds));
    QuotientSign(NormSq(AbsTotals(ds)), |ds| as real);
  }
}
