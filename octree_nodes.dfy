/** COctreeNode and COctreeNodePool of include/Octree.h.  The pool is a
    vector of nodes stored by value, so a node is a datatype value and a node
    pointer is an index into the pool; a `reset()` of a slot is the
    reassignment of that slot to `Cleared()`. */
module OctreeNodes {
  import opened Wrappers
  import opened Primitives

  /** The six bounds of a node: x runs from left to right, y from top to
      bottom, z from back to front. */
  datatype Box = Box(left: real, right: real, top: real, bottom: real, back: real, front: real)

  /** `quads` holds the eight child indices, `body` the index of the resident
      body of a leaf. */
  datatype OctreeNode = OctreeNode(
    quads: seq<Option<nat>>,
    body: Option<nat>,
    mass: real,
    massVector: Vector3,
    box: Box)

  function NoChildren(): (qs: seq<Option<nat>>)
    ensures |qs| == 8 && forall i | 0 <= i < 8 :: qs[i] == None
  {
    seq(8, _ => None)
  }

  /** `COctreeNode::reset`, and also the value-initialised node that
      `vector::resize` and `COctreeNode()` produce. */
  function Cleared(): (n: OctreeNode)
    ensures |n.quads| == 8 && forall i | 0 <= i < 8 :: n.quads[i] == None
    ensures n.body == None && n.mass == 0.0 && n.massVector == Zero()
    ensures n.box == Box(0.0, 0.0, 0.0, 0.0, 0.0, 0.0)
  {
    OctreeNode(NoChildren(), None, 0.0, Zero(), Box(0.0, 0.0, 0.0, 0.0, 0.0, 0.0))
  }

  class OctreeNodePool {
    var pool: seq<OctreeNode>
    /** `current_available` as an offset into `pool`. */
    var cursor: nat
    /** The slots handed out by `get` since the last `reset`. */
    ghost var issued: set<nat>

    ghost predicate Valid()
      reads this
    {
      cursor <= |pool| && forall i: nat :: i in issued <==> i < cursor
    }

    /** The constructor calls `reset(0)`. */
    constructor()
      ensures Valid() && pool == [] && cursor == 0
    {
      pool := [];
      cursor := 0;
      issued := {};
    }

    /** `reset(count)`: `resize` keeps the first `count` nodes (or all of
        them), pads with value-initialised nodes, and rewinds the cursor. */
    method Reset(count: nat)
      modifies this
      ensures Valid()
      ensures |pool| == count && cursor == 0 && issued == {}
      ensures forall i | 0 <= i < count && i < |old(pool)| :: pool[i] == old(pool[i])
      ensures forall i | |old(pool)| <= i < count :: pool[i] == Cleared()
    {
      if count <= |pool| {
        pool := pool[..count];
      } else {
        pool := pool + seq(count - |pool|, _ => Cleared());
      }
      cursor := 0;
      issued := {};
    }

    /** `get()`: appends a node only when the cursor is at the end, clears
        the slot under the cursor, and hands it out. */
    method Get() returns (idx: nat)
      requires Valid()
      modifies this
      ensures Valid()
      ensures idx == old(cursor) && cursor == old(cursor) + 1
      ensures |pool| == if old(cursor) == |old(pool)| then |old(pool)| + 1 else |old(pool)|
      ensures pool[idx] == Cleared()
      ensures forall i | 0 <= i < |pool| && i != idx :: pool[i] == old(pool[i])
      ensures idx !in old(issued) && issued == old(issued) + {idx}
    {
      if cursor == |pool| {
        pool := pool + [Cleared()];
      }
      idx := cursor;
      pool := pool[idx := Cleared()];
      cursor := cursor + 1;
      issued := issued + {idx};
    }

    /** A write through a node pointer obtained from `get`. */
    method Set(k: nat, node: OctreeNode)
      requires k < |pool|
      modifies this`pool
      ensures pool == old(pool)[k := node]
    {
      pool := pool[k := node];
    }
  }
}
