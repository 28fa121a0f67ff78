/** CBody of src/body.h and src/body.cpp: the per-vertex state of the layout.
    A getter of the source is a read of the field here; each setter may write
    only its own field, which its `modifies` clause states. */
module Bodies {
  import opened Primitives

  class Body {
    var mass: real
    var position: Vector3
    var force: Vector3
    var velocity: Vector3
    var incomingLinks: nat
    var springs: seq<int>

    /** The member initialisers of src/body.h. */
    constructor()
      ensures mass == 1.0
      ensures position == Zero() && force == Zero() && velocity == Zero()
      ensures incomingLinks == 0 && springs == []
    {
      mass := 1.0;
      position := Zero();
      force := Zero();
      velocity := Zero();
      incomingLinks := 0;
      springs := [];
    }

    method SetPosition(pos: Vector3)
      modifies this`position
      ensures position == pos
    {
      position := pos;
    }

    method SetMass(m: real)
      modifies this`mass
      ensures mass == m
    {
      mass := m;
    }

    method SetForce(f: Vector3)
      modifies this`force
      ensures force == f
    {
      force := f;
    }

    method SetVelocity(v: Vector3)
      modifies this`velocity
      ensures velocity == v
    {
      velocity := v;
    }

    /** `push_springs`: appends the target and, as written, also counts the
        edge in this body's own incoming-link counter. */
    method PushSprings(indexVertex: int)
      modifies this`springs, this`incomingLinks
      ensures springs == old(springs) + [indexVertex]
      ensures incomingLinks == old(incomingLinks) + 1
    {
      incomingLinks := incomingLinks + 1;
      springs := springs + [indexVertex];
    }

    /** `inc_in_edges`, called by load_links on an edge's target. */
    method IncInEdges()
      modifies this`incomingLinks
      ensures incomingLinks == old(incomingLinks) + 1
    {
      incomingLinks := incomingLinks + 1;
    }

    method ResetForce()
      modifies this`force
      ensures force == Zero()
    {
      force := Zero();
    }

    method ResetVelocity()
      modifies this`velocity
      ensures velocity == Zero()
    {
      velocity := Zero();
    }
  }

  /** No two entries of the body vector are the same object: each entry is
      found last at its own index. */
  ghost predicate Distinct(bodies: seq<Body>) {
    forall i {:trigger LastIndex(bodies, bodies[i])} | 0 <= i < |bodies| :: LastIndex(bodies, bodies[i]) == i
  }

  /** In a distinct body vector no other entry is the object at `i`. */
  lemma DistinctAt(bodies: seq<Body>, i: nat)
    requires Distinct(bodies) && i < |bodies|
    ensures forall j | 0 <= j < |bodies| && j != i :: bodies[j] != bodies[i]
  {
    forall j | 0 <= j < |bodies| && j != i
      ensures bodies[j] != bodies[i]
    {
      assert LastIndex(bodies, bodies[i]) == i && LastIndex(bodies, bodies[j]) == j;
    }
  }

  /** The last index at which `b` occurs in `bodies`, or -1. */
  ghost function LastIndex(bodies: seq<Body>, b: Body): int
    decreases |bodies|
  {
    if |bodies| == 0 then -1
    else if bodies[|bodies| - 1] == b then |bodies| - 1
    else LastIndex(bodies[..|bodies| - 1], b)
  }

  /** Appending an object not yet present keeps the entries distinct. */
  lemma DistinctSnoc(bodies: seq<Body>, b: Body)
    requires Distinct(bodies) && b !in bodies
    ensures Distinct(bodies + [b])
  {
    var bs := bodies + [b];
    assert bs[..|bodies|] == bodies;
    forall i | 0 <= i < |bodies|
      ensures LastIndex(bs, bs[i]) == i
    {
      assert bs[i] == bodies[i];
    }
  }

  function Positions(bodies: seq<Body>): (ps: seq<Vector3>)
    reads bodies`position
    ensures |ps| == |bodies|
    ensures forall i | 0 <= i < |bodies| :: ps[i] == bodies[i].position
    decreases |bodies|
  {
    if |bodies| == 0 then [] else Positions(bodies[..|bodies| - 1]) + [bodies[|bodies| - 1].position]
  }

  function SpringLists(bodies: seq<Body>): (ss: seq<seq<int>>)
    reads bodies`springs
    ensures |ss| == |bodies|
    ensures forall i | 0 <= i < |bodies| :: ss[i] == bodies[i].springs
    decreases |bodies|
  {
    if |bodies| == 0 then [] else SpringLists(bodies[..|bodies| - 1]) + [bodies[|bodies| - 1].springs]
  }

  function Masses(bodies: seq<Body>): (ms: seq<real>)
    reads bodies`mass
    ensures |ms| == |bodies|
    ensures forall i | 0 <= i < |bodies| :: ms[i] == bodies[i].mass
    decreases |bodies|
  {
    if |bodies| == 0 then [] else Masses(bodies[..|bodies| - 1]) + [bodies[|bodies| - 1].mass]
  }

  function Velocities(bodies: seq<Body>): (vs: seq<Vector3>)
    reads bodies`velocity
    ensures |vs| == |bodies|
    ensures forall i | 0 <= i < |bodies| :: vs[i] == bodies[i].velocity
    decreases |bodies|
  {
    if |bodies| == 0 then [] else Velocities(bodies[..|bodies| - 1]) + [bodies[|bodies| - 1].velocity]
  }

  function Forces(bodies: seq<Body>): (fs: seq<Vector3>)
    reads bodies`force
    ensures |fs| == |bodies|
    ensures forall i | 0 <= i < |bodies| :: fs[i] == bodies[i].force
    decreases |bodies|
  {
    if |bodies| == 0 then [] else Forces(bodies[..|bodies| - 1]) + [bodies[|bodies| - 1].force]
  }
}
