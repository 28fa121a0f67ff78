/** The pieces of `COctree::updateBodyForce` that do not touch the tree
    state: the gravity pull, the opening test, the record of what a visited
    node contributed, and the counting argument that bounds the queue. */
module BarnesHut {
  import opened Wrappers
  import opened Primitives
  import opened LayoutSettings

  /** `r * r`. */
  function Sq(r: real): (s: real)
    ensures s >= 0.0
  {
    Times(r, r)
  }

  /** A square is positive away from zero: the arithmetic step behind `NormSqZero`. */
  lemma SqPositive(r: real)
    requires r != 0.0
    ensures Sq(r) > 0.0
  {
    if r > 0.0 {
      TimesPositive(r, r);
    } else {
      TimesNegative(r, r);
    }
  }

  /** The product `a * b`, named so that the sign lemmas below attach to it. */
  function Times(a: real, b: real): real { a * b }

  /** The product of two positives is positive; a step for `SqPositive`. */
  lemma TimesPositive(a: real, b: real)
    requires a > 0.0 && b > 0.0
    ensures Times(a, b) > 0.0
  {
  }

  /** The product of two negatives is positive; a step for `SqPositive`. */
  lemma TimesNegative(a: real, b: real)
    requires a < 0.0 && b < 0.0
    ensures Times(a, b) > 0.0
  {
  }

  /** `dx * dx + dy * dy + dz * dz`; zero only for the zero vector. */
  function NormSq(d: Vector3): (r: real)
    ensures r >= 0.0
  {
    Sq(d.x) + Sq(d.y) + Sq(d.z)
  }

  /** The squared norm vanishes exactly at the zero vector. */
  lemma NormSqZero(d: Vector3)
    ensures NormSq(d) == 0.0 <==> !IsInitialized(d)
  {
    if d.x != 0.0 { SqPositive(d.x); }
    if d.y != 0.0 { SqPositive(d.y); }
    if d.z != 0.0 { SqPositive(d.z); }
  }

  /** An offset made of three nudges `(u - 0.5) / 50` of draws `u` in
      [0, 1), the "poor man's protection against zero distance". */
  predicate Jittered(o: Vector3) {
    -0.01 <= o.x < 0.01 && -0.01 <= o.y < 0.01 && -0.01 <= o.z < 0.01
  }

  /** The gravity a point mass `m` at offset `d` and distance `r` exerts on
      a body of mass `srcMass`: `v = gravity * m * srcMass / r^3`, applied
      as `v * d`.  At distance 0 the source divides by zero; the pull is
      then taken as zero. */
  function Pull(m: real, srcMass: real, d: Vector3, r: real): (f: Vector3)
    ensures r == 0.0 ==> f == Zero()
    ensures r != 0.0 ==> f == Scale(d, Gravity * m * srcMass / (r * r * r))
  {
    if r == 0.0 then Zero() else Scale(d, Gravity * m * srcMass / (r * r * r))
  }

  /** `(node.right - node.left) / r < theta`, evaluated as IEEE does for a
      width that is not negative: a zero distance never passes. */
  predicate Accepts(width: real, r: real) {
    r != 0.0 && width / r < Theta
  }

  /** What one dequeued node did: the source's own leaf (nothing), another
      body's leaf or an accepted internal node (a pull from offset `delta`),
      or an opened internal node (its children queued); `delta` of an opened
      node is None when its mass is zero. */
  datatype Visit =
    | SelfLeaf
    | Leaf(delta: Vector3, pull: Vector3)
    | Accepted(delta: Vector3, pull: Vector3)
    | Opened(offset: Option<Vector3>)

  function Contribution(v: Visit): Vector3 {
    match v
    case Leaf(_, pull) => pull
    case Accepted(_, pull) => pull
    case _ => Zero()
  }

  /** The accumulated `(fx, fy, fz)` after the visits `vs`. */
  function SumPulls(vs: seq<Visit>): Vector3
    decreases |vs|
  {
    if |vs| == 0 then Zero() else Add(SumPulls(vs[..|vs| - 1]), Contribution(vs[|vs| - 1]))
  }

  /** One more visit adds its pull, if it has one. */
  lemma SumPullsSnoc(vs: seq<Visit>, v: Visit)
    ensures SumPulls(vs + [v]) == if v.Leaf? || v.Accepted? then Add(SumPulls(vs), v.pull) else SumPulls(vs)
  {
    assert (vs + [v])[..|vs|] == vs;
  }

  lemma {:induction false} SumPullsSelfLeaves(vs: seq<Visit>)
    requires forall p | 0 <= p < |vs| :: vs[p].SelfLeaf? || vs[p].Opened?
    ensures SumPulls(vs) == Zero()
    decreases |vs|
  {
    if |vs| > 0 {
      var front := vs[..|vs| - 1];
      assert forall p | 0 <= p < |front| :: front[p] == vs[p];
      SumPullsSelfLeaves(front);
    }
  }

  /** The children `quads` lists, in slot order. */
  function Children(quads: seq<Option<nat>>): (cs: seq<nat>)
    ensures |cs| <= |quads|
    ensures forall i | 0 <= i < |quads| && quads[i].Some? :: quads[i].value in cs
    ensures forall c | c in cs :: Some(c) in quads
    decreases |quads|
  {
    if |quads| == 0 then []
    else
      var front := Children(quads[..|quads| - 1]);
      assert forall i | 0 <= i < |quads| - 1 :: quads[..|quads| - 1][i] == quads[i];
      match quads[|quads| - 1]
      case None => front
      case Some(c) => front + [c]
  }

  ghost predicate DistinctNodes(s: seq<nat>) {
    forall i, j | 0 <= i < j < |s| :: s[i] != s[j]
  }

  /** Pigeonhole: distinct naturals below `bound` number at most `bound`. */
  lemma {:induction false} DistinctBelowBound(s: seq<nat>, bound: nat)
    requires DistinctNodes(s)
    requires forall i | 0 <= i < |s| :: s[i] < bound
    ensures |s| <= bound
    decreases bound
  {
    if |s| > 0 {
      assert s[0] < bound;
      var top: nat := bound - 1;
      // Drop `top` from `s` (it occurs at most once) and recurse below it.
      var rest := Without(s, top);
      forall i | 0 <= i < |rest|
        ensures rest[i] < top
      {
        assert rest[i] in rest;
      }
      DistinctBelowBound(rest, top);
    }
  }

  /** `s` with every occurrence of `x` removed. */
  function Without(s: seq<nat>, x: nat): (r: seq<nat>)
    requires DistinctNodes(s)
    ensures DistinctNodes(r)
    ensures forall v | v in r :: v in s && v != x
    ensures |r| >= |s| - 1
    ensures x !in s ==> |r| == |s|
    decreases |s|
  {
    if |s| == 0 then []
    else
      var front := s[..|s| - 1];
      assert DistinctNodes(front);
      assert forall v | v in front :: v in s;
      var r := Without(front, x);
      if s[|s| - 1] == x then
        assert x !in front;
        r
      else
        assert forall v | v in r :: v != s[|s| - 1];
        r + [s[|s| - 1]]
  }
}
