/** QuadTreeNode and NodePool of include/quadTree.h, the older tree whose
    pool holds pointers to heap-allocated nodes.  A node is therefore a class
    here, and `get` hands out a reference that is either a reused node of the
    pool or a freshly allocated one. */
module QuadTreePool {
  import opened Primitives

  class QuadTreeNode {
    var quads: seq<QuadTreeNode?>
    /** The resident body; the bodies of this tree are not part of this model,
        so the pointer is an opaque reference. */
    var body: object?
    var mass: real
    var massVector: Vector3
    var left: real
    var right: real
    var top: real
    var bottom: real
    var front: real
    var back: real

    /** The state `reset()` leaves behind: eight null children, no body, zero
        mass and mass vector, all six bounds 0. */
    ghost predicate IsCleared()
      reads this
    {
      |quads| == 8 && (forall i | 0 <= i < 8 :: quads[i] == null) &&
      body == null && mass == 0.0 && massVector == Zero() &&
      left == 0.0 && right == 0.0 && top == 0.0 && bottom == 0.0 &&
      front == 0.0 && back == 0.0
    }

    /** `new QuadTreeNode()` value-initialises every member. */
    constructor()
      ensures IsCleared()
    {
      quads := seq(8, _ => null);
      body := null;
      mass := 0.0;
      massVector := Zero();
      left, right, top, bottom, front, back := 0.0, 0.0, 0.0, 0.0, 0.0, 0.0;
    }

    /** `reset()`: every member of the node is overwritten. */
    method Reset()
      modifies this
      ensures IsCleared()
    {
      quads := seq(8, _ => null);
      body := null;
      massVector := Zero();
      mass := 0.0;
      left, right, top, bottom, front, back := 0.0, 0.0, 0.0, 0.0, 0.0, 0.0;
    }
  }

  class NodePool {
    /** `currentAvailable`. */
    var cursor: nat
    var pool: seq<QuadTreeNode>
    /** The nodes handed out by `get` since the last `reset`. */
    ghost var issued: set<QuadTreeNode>

    /** The pool only ever grows by fresh nodes, so its entries are distinct,
        and the nodes handed out are exactly those before the cursor. */
    ghost predicate Valid()
      reads this
    {
      cursor <= |pool| &&
      (forall i, j | 0 <= i < j < |pool| :: pool[i] != pool[j]) &&
      issued == set i | 0 <= i < cursor :: pool[i]
    }

    constructor()
      ensures Valid() && cursor == 0 && pool == [] && issued == {}
    {
      cursor := 0;
      pool := [];
      issued := {};
    }

    /** `reset()` rewinds the cursor and keeps every node of the pool. */
    method Reset()
      requires Valid()
      modifies this
      ensures Valid()
      ensures cursor == 0 && pool == old(pool) && issued == {}
    {
      cursor := 0;
      issued := {};
    }

    /** `get()`: below the end of the pool the node under the cursor is reused
        and cleared; at the end a new node is allocated and appended.  Only
        the reused node, if any, is written. */
    method Get() returns (r: QuadTreeNode)
      requires Valid()
      modifies this, if cursor < |pool| then {pool[cursor]} else {}
      ensures Valid()
      ensures cursor == old(cursor) + 1 && cursor <= |pool|
      ensures old(cursor) < |old(pool)| ==> pool == old(pool)
      ensures old(cursor) == |old(pool)| ==> pool == old(pool) + [r] && fresh(r)
      ensures r == pool[old(cursor)] && r.IsCleared()
      ensures r !in old(issued) && issued == old(issued) + {r}
    {
      if cursor < |pool| {
        r := pool[cursor];
        r.Reset();
      } else {
        r := new QuadTreeNode();
        pool := pool + [r];
      }
      assert r !in old(issued) by {
        forall i | 0 <= i < cursor
          ensures pool[i] != r
        {
          assert pool[i] != pool[cursor];
        }
      }
      issued := issued + {r};
      cursor := cursor + 1;
      assert issued == set i | 0 <= i < cursor :: pool[i] by {
        assert forall i | 0 <= i < cursor - 1 :: pool[i] == old(pool[i]);
        forall n | n in set i | 0 <= i < cursor :: pool[i]
          ensures n in issued
        {
          var i :| 0 <= i < cursor && n == pool[i];
          if i < cursor - 1 {
            assert n in old(issued);
          }
        }
        forall n | n in issued
          ensures n in set i | 0 <= i < cursor :: pool[i]
        {
          var i: nat := cursor - 1;
          if n != r {
            i :| 0 <= i < cursor - 1 && n == old(pool[i]);
          }
          assert 0 <= i < cursor && n == pool[i];
        }
      }
    }
  }

  /** Two `get` calls after a `reset` return two distinct, cleared nodes that
      are the first two slots of the pool. */
  method GetTwiceAfterReset(p: NodePool) returns (a: QuadTreeNode, b: QuadTreeNode)
    requires p.Valid()
    modifies p, p.pool
    ensures p.Valid() && p.cursor == 2
    ensures a != b && a == p.pool[0] && b == p.pool[1]
    ensures a.IsCleared() && b.IsCleared()
  {
    p.Reset();
    a := p.Get();
    b := p.Get();
  }
}
