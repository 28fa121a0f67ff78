/** COctree of include/Octree.h and src/Octree.cpp: the Barnes-Hut tree over
    the layout's bodies.  Nodes live in the pool by value and are named by
    their index; a body is named by its index in the body vector. */
module Octrees {
  import opened Wrappers
  import opened Primitives
  import opened JenkinsRandom
  import opened Bodies
  import opened OctreeNodes
  import opened OctreeGeometry
  import opened BarnesHut

  /** The seed the tree's own generator starts from. */
  const OctreeSeed: bv64 := 1984

  /** The number of jitter attempts before a split gives up. */
  const JitterRetries: nat := 3

  /** The recursion depth `insert` may reach; the source recurses without
      bound. */
  const MaxInsertDepth: nat := 4096

  /** The issued prefix `pool[..cursor]` is a tree over `n` bodies: each
      node but the root has one parent issued before it and sits in the
      parent's `quads` at `slot`, its box is the parent's half box for that
      slot, a leaf has no children, and `home` places each body in at most
      one leaf (-1 for none). */
  ghost predicate WellFormed(pool: seq<OctreeNode>, cursor: nat, root: nat,
                             parent: seq<int>, slot: seq<nat>, home: seq<int>, n: nat)
  {
    cursor <= |pool| && |parent| == cursor && |slot| == cursor && |home| == n &&
    root < cursor && parent[root] == -1 &&
    (forall k | 0 <= k < cursor :: |pool[k].quads| == 8) &&
    ParentLinks(pool, cursor, root, parent, slot) &&
    ChildLinks(pool, cursor, parent, slot) &&
    Residence(pool, cursor, home, n)
  }

  ghost predicate ParentLinks(pool: seq<OctreeNode>, cursor: nat, root: nat, parent: seq<int>, slot: seq<nat>)
    requires cursor <= |pool| && |parent| == cursor && |slot| == cursor
    requires forall k | 0 <= k < cursor :: |pool[k].quads| == 8
  {
    forall k | 0 <= k < cursor && k != root ::
      0 <= parent[k] < k && slot[k] < 8 &&
      pool[parent[k]].quads[slot[k]] == Some(k) &&
      pool[k].box == ChildBox(pool[parent[k]].box, slot[k])
  }

  ghost predicate ChildLinks(pool: seq<OctreeNode>, cursor: nat, parent: seq<int>, slot: seq<nat>)
    requires cursor <= |pool| && |parent| == cursor && |slot| == cursor
    requires forall k | 0 <= k < cursor :: |pool[k].quads| == 8
  {
    forall k, i | 0 <= k < cursor && 0 <= i < 8 && pool[k].quads[i].Some? ::
      k < pool[k].quads[i].value < cursor &&
      parent[pool[k].quads[i].value] == k && slot[pool[k].quads[i].value] == i
  }

  ghost predicate Residence(pool: seq<OctreeNode>, cursor: nat, home: seq<int>, n: nat)
    requires cursor <= |pool| && |home| == n
    requires forall k | 0 <= k < cursor :: |pool[k].quads| == 8
  {
    (forall k | 0 <= k < cursor && pool[k].body.Some? ::
       pool[k].body.value < n && home[pool[k].body.value] == k &&
       forall i | 0 <= i < 8 :: pool[k].quads[i] == None) &&
    (forall j | 0 <= j < n ::
       home[j] == -1 || (0 <= home[j] < cursor && pool[home[j]].body == Some(j)))
  }

  /** Node `c` lies in the subtree of node `a`: following `parent` from
      `c` reaches `a`. */
  ghost predicate Below(parent: seq<int>, c: int, a: int)
    decreases if c < 0 then 0 else c + 1
  {
    c == a || (0 <= c < |parent| && 0 <= parent[c] < c && Below(parent, parent[c], a))
  }

  /** Appending nodes keeps every existing subtree relation. */
  lemma {:induction false} BelowPrefix(parent: seq<int>, parent': seq<int>, c: int, a: int)
    requires parent <= parent' && Below(parent, c, a)
    ensures Below(parent', c, a)
    decreases if c < 0 then 0 else c + 1
  {
    if c != a {
      assert parent'[c] == parent[c];
      BelowPrefix(parent, parent', parent[c], a);
    }
  }

  /** What lies below a child lies below its parent. */
  lemma {:induction false} BelowParent(parent: seq<int>, x: int, c: nat, a: nat)
    requires Below(parent, x, c) && c < |parent| && a < c && parent[c] == a
    ensures Below(parent, x, a)
    decreases if x < 0 then 0 else x + 1
  {
    if x != c {
      BelowParent(parent, parent[x], c, a);
    }
  }

  /** How the homes of a split compose: `homes` before the resident `o` is
      detached, `detached` after, `after` once `o` and `b` were inserted
      again (`ok`) or the split stopped. */
  lemma SplitHomes(homes: seq<int>, detached: seq<int>, after: seq<int>, o: nat, b: nat, ok: bool)
    requires |homes| == |detached| == |after| && o < |homes| && b < |homes| && o != b
    requires homes[o] >= 0 && detached == homes[o := -1]
    requires ok ==>
      after[b] >= 0 && after[o] >= 0 && forall j | 0 <= j < |after| && j != b && j != o :: (after[j] >= 0 <==> detached[j] >= 0)
    requires !ok ==> after[b] < 0 && forall j | 0 <= j < |after| && j != o && after[j] >= 0 :: detached[j] >= 0
    ensures forall j | 0 <= j < |homes| && homes[j] < 0 :: j != o && detached[j] < 0
    ensures ok ==> forall j | 0 <= j < |after| && j != b :: (after[j] >= 0 <==> homes[j] >= 0)
    ensures !ok ==> forall j | 0 <= j < |after| && after[j] >= 0 :: homes[j] >= 0
  {
  }

  /** The number of parent links from node `c` up to the root. */
  ghost function Depth(parent: seq<int>, c: int): nat
    decreases if c < 0 then 0 else c + 1
  {
    if 0 <= c < |parent| && 0 <= parent[c] < c then 1 + Depth(parent, parent[c]) else 0
  }

  /** Why an insertion gave up: the resident `resident` of leaf `leaf`,
      moved by the three jitter draws that follow the seed `seed`, is still
      `sameAs` the incoming body `incoming`; or the depth bound ran out at
      node `node`. */
  datatype Failure = Clash(resident: nat, incoming: nat, leaf: nat, seed: bv64) | Exhausted(node: nat)

  /** Changing only the mass and weighted position of a node keeps the tree. */
  lemma MassUpdateKeepsTree(pool: seq<OctreeNode>, cursor: nat, root: nat,
                            parent: seq<int>, slot: seq<nat>, home: seq<int>, n: nat,
                            k: nat, node: OctreeNode)
    requires WellFormed(pool, cursor, root, parent, slot, home, n)
    requires k < cursor
    requires node.quads == pool[k].quads && node.body == pool[k].body && node.box == pool[k].box
    ensures WellFormed(pool[k := node], cursor, root, parent, slot, home, n)
  {
    var p := pool[k := node];
    assert forall m | 0 <= m < cursor :: p[m].quads == pool[m].quads && p[m].box == pool[m].box && p[m].body == pool[m].body;
    assert ParentLinks(p, cursor, root, parent, slot);
    assert ChildLinks(p, cursor, parent, slot);
    assert Residence(p, cursor, home, n);
  }

  /** Taking body `j` out of the leaf `k` (which holds it) keeps the tree. */
  lemma DetachKeepsTree(pool: seq<OctreeNode>, cursor: nat, root: nat,
                        parent: seq<int>, slot: seq<nat>, home: seq<int>, n: nat, k: nat)
    requires WellFormed(pool, cursor, root, parent, slot, home, n)
    requires k < cursor && pool[k].body.Some?
    ensures pool[k].body.value < n
    ensures WellFormed(pool[k := pool[k].(body := None)], cursor, root, parent, slot,
                       home[pool[k].body.value := -1], n)
  {
    var p := pool[k := pool[k].(body := None)];
    var h := home[pool[k].body.value := -1];
    assert forall m | 0 <= m < cursor :: p[m].quads == pool[m].quads && p[m].box == pool[m].box;
    assert ParentLinks(p, cursor, root, parent, slot);
    assert ChildLinks(p, cursor, parent, slot);
    assert Residence(p, cursor, h, n);
  }

  /** The hypotheses shared by the three steps of `AttachKeepsTree`. */
  ghost predicate AttachStep(pool: seq<OctreeNode>, cursor: nat, root: nat,
                             parent: seq<int>, slot: seq<nat>, home: seq<int>, n: nat,
                             k: nat, q: nat, b: nat, pool': seq<OctreeNode>)
  {
    WellFormed(pool, cursor, root, parent, slot, home, n) &&
    k < cursor && q < 8 && pool[k].body.None? && pool[k].quads[q].None? &&
    b < n && home[b] < 0 && cursor < |pool'| &&
    (forall m | 0 <= m < cursor && m != k :: pool'[m] == pool[m]) &&
    pool'[k] == pool[k].(quads := pool[k].quads[q := Some(cursor)]) &&
    pool'[cursor] == Cleared().(body := Some(b), box := ChildBox(pool[k].box, q))
  }

  lemma AttachKeepsParents(pool: seq<OctreeNode>, cursor: nat, root: nat,
                           parent: seq<int>, slot: seq<nat>, home: seq<int>, n: nat,
                           k: nat, q: nat, b: nat, pool': seq<OctreeNode>)
    requires AttachStep(pool, cursor, root, parent, slot, home, n, k, q, b, pool')
    ensures forall m | 0 <= m < cursor + 1 :: |pool'[m].quads| == 8
    ensures ParentLinks(pool', cursor + 1, root, parent + [k], slot + [q])
  {
    var parent', slot' := parent + [k], slot + [q];
    assert forall m | 0 <= m < cursor + 1 :: |pool'[m].quads| == 8 by {
      forall m | 0 <= m < cursor + 1 ensures |pool'[m].quads| == 8 {
        if m < cursor && m != k { assert pool'[m] == pool[m]; }
      }
    }
    forall m | 0 <= m < cursor + 1 && m != root
      ensures 0 <= parent'[m] < m && slot'[m] < 8
      ensures pool'[parent'[m]].quads[slot'[m]] == Some(m)
      ensures pool'[m].box == ChildBox(pool'[parent'[m]].box, slot'[m])
    {
      if m < cursor {
        assert parent'[m] == parent[m] && slot'[m] == slot[m];
        assert pool'[m].box == pool[m].box && pool'[parent[m]].box == pool[parent[m]].box;
        assert pool[parent[m]].quads[slot[m]] == Some(m);
        if parent[m] == k {
          assert slot[m] != q;
        }
      }
    }
  }

  lemma AttachKeepsChildren(pool: seq<OctreeNode>, cursor: nat, root: nat,
                            parent: seq<int>, slot: seq<nat>, home: seq<int>, n: nat,
                            k: nat, q: nat, b: nat, pool': seq<OctreeNode>)
    requires AttachStep(pool, cursor, root, parent, slot, home, n, k, q, b, pool')
    requires forall m | 0 <= m < cursor + 1 :: |pool'[m].quads| == 8
    ensures ChildLinks(pool', cursor + 1, parent + [k], slot + [q])
  {
    var parent', slot' := parent + [k], slot + [q];
    forall m, i | 0 <= m < cursor + 1 && 0 <= i < 8 && pool'[m].quads[i].Some?
      ensures m < pool'[m].quads[i].value < cursor + 1
      ensures parent'[pool'[m].quads[i].value] == m && slot'[pool'[m].quads[i].value] == i
    {
      if m < cursor && !(m == k && i == q) {
        assert pool'[m].quads[i] == pool[m].quads[i];
        var c := pool[m].quads[i].value;
        assert parent'[c] == parent[c] && slot'[c] == slot[c];
      }
    }
  }

  lemma AttachKeepsResidence(pool: seq<OctreeNode>, cursor: nat, root: nat,
                             parent: seq<int>, slot: seq<nat>, home: seq<int>, n: nat,
                             k: nat, q: nat, b: nat, pool': seq<OctreeNode>)
    requires AttachStep(pool, cursor, root, parent, slot, home, n, k, q, b, pool')
    requires forall m | 0 <= m < cursor + 1 :: |pool'[m].quads| == 8
    ensures Residence(pool', cursor + 1, home[b := cursor], n)
  {
    var home' := home[b := cursor];
    forall m | 0 <= m < cursor + 1 && pool'[m].body.Some?
      ensures pool'[m].body.value < n && home'[pool'[m].body.value] == m
      ensures forall i | 0 <= i < 8 :: pool'[m].quads[i] == None
    {
      if m < cursor {
        assert m != k;
        assert pool'[m] == pool[m];
      }
    }
    forall j | 0 <= j < n
      ensures home'[j] == -1 || (0 <= home'[j] < cursor + 1 && pool'[home'[j]].body == Some(j))
    {
      if j != b && home[j] != -1 {
        assert home[j] != k;
        assert pool'[home[j]] == pool[home[j]];
      }
    }
  }

  /** Issuing node `cursor` as a new leaf for body `b` in the empty slot `q`
      of the internal node `k` keeps the tree. */
  lemma AttachKeepsTree(pool: seq<OctreeNode>, cursor: nat, root: nat,
                        parent: seq<int>, slot: seq<nat>, home: seq<int>, n: nat,
                        k: nat, q: nat, b: nat, pool': seq<OctreeNode>)
    requires AttachStep(pool, cursor, root, parent, slot, home, n, k, q, b, pool')
    ensures WellFormed(pool', cursor + 1, root, parent + [k], slot + [q], home[b := cursor], n)
  {
    AttachKeepsParents(pool, cursor, root, parent, slot, home, n, k, q, b, pool');
    AttachKeepsChildren(pool, cursor, root, parent, slot, home, n, k, q, b, pool');
    AttachKeepsResidence(pool, cursor, root, parent, slot, home, n, k, q, b, pool');
  }

  /** A pool whose issued prefix is one cleared root, possibly holding
      body 0, is a tree. */
  lemma RootOnlyTree(pool: seq<OctreeNode>, home: seq<int>, n: nat)
    requires 1 <= |pool| && |home| == n
    requires pool[0].quads == NoChildren()
    requires pool[0].body == (if n > 0 then Some(0) else None)
    requires forall j | 0 <= j < n :: home[j] == (if j == 0 then 0 else -1)
    ensures WellFormed(pool, 1, 0, [-1], [0], home, n)
  {
  }

  /** The listed children of a node are distinct when each sits in the
      slot it records. */
  lemma {:induction false} ChildrenDistinct(quads: seq<Option<nat>>, slot: seq<nat>)
    requires forall i | 0 <= i < |quads| && quads[i].Some? :: quads[i].value < |slot| && slot[quads[i].value] == i
    ensures DistinctNodes(Children(quads))
    ensures forall c | c in Children(quads) :: c < |slot| && slot[c] < |quads|
    decreases |quads|
  {
    if |quads| > 0 {
      var front := quads[..|quads| - 1];
      assert forall i | 0 <= i < |front| :: front[i] == quads[i];
      ChildrenDistinct(front, slot);
      forall c | c in Children(front)
        ensures c < |slot| && slot[c] < |front|
      {
        var i :| 0 <= i < |front| && front[i] == Some(c);
      }
    }
  }

  /** Appending the children of the node just dequeued (at `shift - 1`)
      keeps the queue free of repeats: a child's one parent is that node,
      while every queued node but the root has an earlier parent. */
  lemma PushKeepsQueueDistinct(pool: seq<OctreeNode>, cursor: nat, root: nat,
                               parent: seq<int>, slot: seq<nat>, home: seq<int>, n: nat,
                               q: seq<nat>, from: seq<nat>, shift: nat)
    requires WellFormed(pool, cursor, root, parent, slot, home, n)
    requires 1 <= shift <= |q| && |from| >= |q| && q[0] == root
    requires forall j | 0 <= j < |q| :: q[j] < cursor
    requires DistinctNodes(q)
    requires forall j | 1 <= j < |q| :: from[j] < shift - 1 && parent[q[j]] == q[from[j]]
    ensures var q' := q + Children(pool[q[shift - 1]].quads);
      DistinctNodes(q') && (forall j | 0 <= j < |q'| :: q'[j] < cursor) && |q'| <= cursor
    ensures forall c | c in Children(pool[q[shift - 1]].quads) :: parent[c] == q[shift - 1]
  {
    var k := q[shift - 1];
    var quads := pool[k].quads;
    var cs := Children(quads);
    var q' := q + cs;
    ChildrenDistinct(quads, slot);
    forall c | c in cs
      ensures c < cursor && parent[c] == k && c !in q
    {
      var i :| 0 <= i < |quads| && quads[i] == Some(c);
      assert k < c < cursor && parent[c] == k;
      forall j | 0 <= j < |q|
        ensures q[j] != c
      {
        if j == 0 {
          assert parent[q[j]] == -1;
        } else {
          assert parent[q[j]] == q[from[j]] && q[from[j]] != k;
        }
      }
    }
    forall a, b | 0 <= a < b < |q'|
      ensures q'[a] != q'[b]
    {
      if b >= |q| {
        if a >= |q| {
          assert q'[a] == cs[a - |q|] && q'[b] == cs[b - |q|];
        } else {
          assert q'[b] in cs;
        }
      }
    }
    forall j | 0 <= j < |q'|
      ensures q'[j] < cursor
    {
      if j >= |q| {
        assert q'[j] in cs;
      }
    }
    DistinctBelowBound(q', cursor);
  }

  /** The bookkeeping of the `updateBodyForce` loop after `shift` nodes
      have been dequeued: the queue starts at the root, is free of repeats
      and fits in the issued nodes; every queued node but the root was
      queued by its one parent, dequeued earlier and opened; and every
      opened node has all its children queued. */
  ghost predicate QueueInv(pool: seq<OctreeNode>, cursor: nat, root: nat,
                           parent: seq<int>, slot: seq<nat>, home: seq<int>, n: nat,
                           q: seq<nat>, from: seq<nat>, visits: seq<Visit>, shift: nat)
  {
    WellFormed(pool, cursor, root, parent, slot, home, n) &&
    1 <= |q| && q[0] == root && shift <= |q| &&
    (forall j | 0 <= j < |q| :: q[j] < cursor) && DistinctNodes(q) && |q| <= cursor &&
    QueueLinks(q, from, visits, shift, parent) &&
    OpenedComplete(pool, q, visits, shift)
  }

  ghost predicate QueueLinks(q: seq<nat>, from: seq<nat>, visits: seq<Visit>, shift: nat, parent: seq<int>) {
    |from| == |q| && |visits| == shift &&
    forall j | 1 <= j < |q| ::
      from[j] < shift && from[j] < j && visits[from[j]].Opened? &&
      q[j] < |parent| && parent[q[j]] == q[from[j]]
  }

  ghost predicate OpenedComplete(pool: seq<OctreeNode>, q: seq<nat>, visits: seq<Visit>, shift: nat) {
    shift <= |q| && |visits| == shift &&
    forall p, i | 0 <= p < shift && visits[p].Opened? && q[p] < |pool| &&
                  0 <= i < |pool[q[p]].quads| && pool[q[p]].quads[i].Some? ::
      pool[q[p]].quads[i].value in q
  }

  lemma LinksWithoutPush(q: seq<nat>, from: seq<nat>, visits: seq<Visit>, shift: nat, parent: seq<int>, v: Visit)
    requires QueueLinks(q, from, visits, shift, parent)
    ensures QueueLinks(q, from, visits + [v], shift + 1, parent)
  {
    var visits' := visits + [v];
    forall j | 1 <= j < |q|
      ensures visits'[from[j]].Opened?
    {
      assert visits'[from[j]] == visits[from[j]];
    }
  }

  lemma LinksWithPush(q: seq<nat>, from: seq<nat>, visits: seq<Visit>, shift: nat, parent: seq<int>,
                      v: Visit, cs: seq<nat>)
    requires QueueLinks(q, from, visits, shift, parent)
    requires shift < |q| && v.Opened?
    requires forall c | c in cs :: c < |parent| && parent[c] == q[shift]
    ensures QueueLinks(q + cs, from + seq(|cs|, _ => shift), visits + [v], shift + 1, parent)
  {
    var q', from', visits' := q + cs, from + seq(|cs|, _ => shift), visits + [v];
    forall j | 1 <= j < |q'|
      ensures from'[j] < shift + 1 && from'[j] < j && visits'[from'[j]].Opened? &&
        q'[j] < |parent| && parent[q'[j]] == q'[from'[j]]
    {
      if j < |q| {
        assert from'[j] == from[j] && q'[j] == q[j] && visits'[from[j]] == visits[from[j]];
      } else {
        assert from'[j] == shift && q'[j] == cs[j - |q|] && q'[j] in cs;
      }
    }
  }

  lemma CompleteWithoutPush(pool: seq<OctreeNode>, q: seq<nat>, visits: seq<Visit>, shift: nat, v: Visit)
    requires OpenedComplete(pool, q, visits, shift)
    requires shift < |q| && !v.Opened?
    ensures OpenedComplete(pool, q, visits + [v], shift + 1)
  {
    var visits' := visits + [v];
    forall p, i | 0 <= p < shift + 1 && visits'[p].Opened? && q[p] < |pool| &&
                  0 <= i < |pool[q[p]].quads| && pool[q[p]].quads[i].Some?
      ensures pool[q[p]].quads[i].value in q
    {
      assert p < shift && visits'[p] == visits[p];
    }
  }

  lemma CompleteWithPush(pool: seq<OctreeNode>, q: seq<nat>, visits: seq<Visit>, shift: nat, v: Visit)
    requires OpenedComplete(pool, q, visits, shift)
    requires shift < |q| && q[shift] < |pool|
    ensures OpenedComplete(pool, q + Children(pool[q[shift]].quads), visits + [v], shift + 1)
  {
    var cs := Children(pool[q[shift]].quads);
    var q', visits' := q + cs, visits + [v];
    forall p, i | 0 <= p < shift + 1 && visits'[p].Opened? && q'[p] < |pool| &&
                  0 <= i < |pool[q'[p]].quads| && pool[q'[p]].quads[i].Some?
      ensures pool[q'[p]].quads[i].value in q'
    {
      assert q'[p] == q[p];
      if p < shift {
        assert visits'[p] == visits[p];
      } else {
        assert pool[q[shift]].quads[i].value in cs;
      }
    }
  }

  /** Dequeuing a node that is not opened only records its visit. */
  lemma StepWithoutPush(pool: seq<OctreeNode>, cursor: nat, root: nat,
                        parent: seq<int>, slot: seq<nat>, home: seq<int>, n: nat,
                        q: seq<nat>, from: seq<nat>, visits: seq<Visit>, shift: nat, v: Visit)
    requires QueueInv(pool, cursor, root, parent, slot, home, n, q, from, visits, shift)
    requires shift < |q| && !v.Opened?
    ensures QueueInv(pool, cursor, root, parent, slot, home, n, q, from, visits + [v], shift + 1)
  {
    LinksWithoutPush(q, from, visits, shift, parent, v);
    CompleteWithoutPush(pool, q, visits, shift, v);
  }

  /** Dequeuing and opening a node queues its children after everything
      queued so far. */
  lemma StepWithPush(pool: seq<OctreeNode>, cursor: nat, root: nat,
                     parent: seq<int>, slot: seq<nat>, home: seq<int>, n: nat,
                     q: seq<nat>, from: seq<nat>, visits: seq<Visit>, shift: nat, v: Visit)
    requires QueueInv(pool, cursor, root, parent, slot, home, n, q, from, visits, shift)
    requires shift < |q| && v.Opened?
    ensures var cs := Children(pool[q[shift]].quads);
      QueueInv(pool, cursor, root, parent, slot, home, n,
               q + cs, from + seq(|cs|, _ => shift), visits + [v], shift + 1)
  {
    var cs := Children(pool[q[shift]].quads);
    PushKeepsQueueDistinct(pool, cursor, root, parent, slot, home, n, q, from, shift + 1);
    LinksWithPush(q, from, visits, shift, parent, v, cs);
    CompleteWithPush(pool, q, visits, shift, v);
  }

  /** The shape of a finished `updateBodyForce` walk over the issued nodes
      of `pool`: it starts at the root and visits no node twice; every node
      but the root was queued by its parent, visited earlier and opened;
      every child of an opened node is visited, and no child of an
      accepted node is. */
  ghost predicate WalkShape(pool: seq<OctreeNode>, cursor: nat, root: nat, parent: seq<int>,
                            q: seq<nat>, from: seq<nat>, visits: seq<Visit>)
  {
    cursor <= |pool| && |parent| == cursor && (forall k | 0 <= k < cursor :: |pool[k].quads| == 8) &&
    |q| == |visits| == |from| && |q| >= 1 && q[0] == root &&
    DistinctNodes(q) && (forall p | 0 <= p < |q| :: q[p] < cursor) &&
    (forall p | 1 <= p < |q| :: from[p] < p && visits[from[p]].Opened? && parent[q[p]] == q[from[p]]) &&
    (forall p, i | 0 <= p < |q| && visits[p].Opened? && 0 <= i < 8 && pool[q[p]].quads[i].Some? ::
       pool[q[p]].quads[i].value in q) &&
    (forall p, i | 0 <= p < |q| && visits[p].Accepted? && 0 <= i < 8 && pool[q[p]].quads[i].Some? ::
       pool[q[p]].quads[i].value !in q)
  }

  /** Node `after` is node `before` with octant `q` filled in: that octant
      now holds a child, the other seven are as they were, and a node whose
      octant `q` already held a child is unchanged. */
  ghost predicate Routed(before: OctreeNode, after: OctreeNode, q: nat)
  {
    |before.quads| == 8 && |after.quads| == 8 && q < 8 && after.quads[q].Some? &&
    (forall i | 0 <= i < 8 && i != q :: after.quads[i] == before.quads[i]) &&
    (before.quads[q].Some? ==> after == before)
  }

  /** An octree as a value: its node pool, the issued count, the root and
      the ghost links of the tree. */
  datatype TreeView = TreeView(pool: seq<OctreeNode>, cursor: nat, root: nat, parent: seq<int>, slot: seq<nat>,
                               home: seq<int>)

  /** What `insertBodies` leaves in the tree `t` over bodies that started
      at `p0` and now lie at `ps`: a well-formed tree whose root box is the
      squarified bounds of `p0`; when `stop` is the body count every body
      is in the tree, and otherwise the bodies from `stop` on are out of it
      and still where they started. */
  ghost predicate Built(t: TreeView, p0: seq<Vector3>, ps: seq<Vector3>, stop: nat)
  {
    |p0| == |ps| && WellFormed(t.pool, t.cursor, t.root, t.parent, t.slot, t.home, |ps|) &&
    t.pool[t.root].box == RootBox(p0) && stop <= |ps| &&
    (stop == |ps| ==> forall j | 0 <= j < |ps| :: t.home[j] >= 0) &&
    (stop < |ps| ==> 1 <= stop && forall j | stop <= j < |ps| :: t.home[j] < 0) &&
    (forall j | stop <= j < |ps| :: ps[j] == p0[j]) &&
    Settled(p0, ps, t.pool, t.cursor)
  }

  /** `v` is a point a leaf split may jitter a resident to: `left +
      (right - left) * u` on every axis of the box of an issued node of
      `pool`, for the fraction `u` of some generator state. */
  ghost predicate OnJitter(v: Vector3, pool: seq<OctreeNode>, cursor: nat)
  {
    exists c: nat, s: bv64 {:trigger JitterPoint(pool[c].box, Fraction(s))} ::
      c < cursor <= |pool| && v == JitterPoint(pool[c].box, Fraction(s))
  }

  /** Bodies that were at `p0` are now at `ps`: each one is where it was
      or on a jitter point of a box of `pool`. */
  ghost predicate Settled(p0: seq<Vector3>, ps: seq<Vector3>, pool: seq<OctreeNode>, cursor: nat)
  {
    |p0| == |ps| && forall j | 0 <= j < |ps| :: ps[j] == p0[j] || OnJitter(ps[j], pool, cursor)
  }

  /** The pool `pool` with `cursor` issued nodes grew out of `pool0` with
      `c0` of them: no issued node changed its box. */
  ghost predicate BoxesKept(pool0: seq<OctreeNode>, c0: nat, pool: seq<OctreeNode>, cursor: nat)
  {
    c0 <= cursor <= |pool| && c0 <= |pool0| && forall m | 0 <= m < c0 :: pool[m].box == pool0[m].box
  }

  /** A jitter point of an issued box stays one while the pool grows
      and keeps its issued boxes. */
  lemma JitterKept(pool1: seq<OctreeNode>, c1: nat, pool2: seq<OctreeNode>, c2: nat)
    requires BoxesKept(pool1, c1, pool2, c2)
    ensures forall v :: OnJitter(v, pool1, c1) ==> OnJitter(v, pool2, c2)
  {
    forall v | OnJitter(v, pool1, c1)
      ensures OnJitter(v, pool2, c2)
    {
      var c: nat, s: bv64 :| c < c1 <= |pool1| && v == JitterPoint(pool1[c].box, Fraction(s));
      assert v == JitterPoint(pool2[c].box, Fraction(s));
    }
  }

  /** Whether `v` is what visiting node `k` of `pool` for body `src` yields, with
      body `j` at position `ps[j]` and of mass `ms[j]`: the
      source's own leaf contributes nothing; another body's leaf and an
      accepted internal node pull from their offset, which is the plain
      offset unless that lies at distance 0 and was replaced by three
      random nudges; an internal node of zero mass is opened without a test (its
      centroid is NaN in the source), any other is opened when it fails
      the theta test. */
  ghost predicate Explains(pool: seq<OctreeNode>, k: nat, v: Visit, src: nat, ps: seq<Vector3>, ms: seq<real>,
                           sqrt: real -> real)
    requires k < |pool| && src < |ps| == |ms|
  {
    var node := pool[k];
    match v
    case SelfLeaf => node.body == Some(src)
    case Leaf(d, pull) =>
      node.body.Some? && node.body.value != src && node.body.value < |ps| &&
      var other := node.body.value;
      var d0 := Sub(ps[other], ps[src]);
      (sqrt(NormSq(d0)) != 0.0 ==> d == d0) && (sqrt(NormSq(d0)) == 0.0 ==> Jittered(d)) &&
      pull == Pull(ms[other], ms[src], d, sqrt(NormSq(d)))
    case Accepted(d, pull) =>
      node.body.None? && node.mass != 0.0 &&
      var d0 := Sub(DivScalar(node.massVector, node.mass), ps[src]);
      (sqrt(NormSq(d0)) != 0.0 ==> d == d0) && (sqrt(NormSq(d0)) == 0.0 ==> Jittered(d)) &&
      Accepts(node.box.right - node.box.left, sqrt(NormSq(d))) &&
      pull == Pull(node.mass, ms[src], d, sqrt(NormSq(d)))
    case Opened(offset) =>
      node.body.None? && (offset.None? <==> node.mass == 0.0) &&
      (offset.Some? ==>
        var d0 := Sub(DivScalar(node.massVector, node.mass), ps[src]);
        (sqrt(NormSq(d0)) != 0.0 ==> offset.value == d0) && (sqrt(NormSq(d0)) == 0.0 ==> Jittered(offset.value)) &&
        !Accepts(node.box.right - node.box.left, sqrt(NormSq(offset.value))))
  }

  /** `queue`, `visits` and `from` are a finished `updateBodyForce` walk
      of the tree `t` for body `src`, with body `j` at position
      `ps[j]` and of mass `ms[j]`: it has the shape `WalkShape` describes
      and each visit is what `Explains` says of its node. */
  ghost predicate CompleteWalk(t: TreeView, queue: seq<nat>, visits: seq<Visit>, from: seq<nat>, src: nat,
                               ps: seq<Vector3>, ms: seq<real>, sqrt: real -> real)
  {
    src < |ps| == |ms| &&
    WalkShape(t.pool, t.cursor, t.root, t.parent, queue, from, visits) &&
    forall p | 0 <= p < |queue| :: Explains(t.pool, queue[p], visits[p], src, ps, ms, sqrt)
  }


  /** Once every queued node has been dequeued, the queue is the whole walk:
      opened nodes have all their children in it, and children of other
      nodes are not in it. */
  lemma QueueDrained(pool: seq<OctreeNode>, cursor: nat, root: nat,
                     parent: seq<int>, slot: seq<nat>, home: seq<int>, n: nat,
                     q: seq<nat>, from: seq<nat>, visits: seq<Visit>)
    requires QueueInv(pool, cursor, root, parent, slot, home, n, q, from, visits, |q|)
    ensures WalkShape(pool, cursor, root, parent, q, from, visits)
  {
    UnopenedChildrenNotQueued(pool, cursor, root, parent, slot, home, n, q, visits, from);
  }

  /** No child of a node that was not opened is ever queued: a queued node
      other than the root was queued by its one parent, which was opened. */
  lemma UnopenedChildrenNotQueued(pool: seq<OctreeNode>, cursor: nat, root: nat,
                                  parent: seq<int>, slot: seq<nat>, home: seq<int>, n: nat,
                                  queue: seq<nat>, visits: seq<Visit>, from: seq<nat>)
    requires WellFormed(pool, cursor, root, parent, slot, home, n)
    requires |queue| == |visits| == |from| && |queue| >= 1 && queue[0] == root
    requires DistinctNodes(queue) && forall p | 0 <= p < |queue| :: queue[p] < cursor
    requires forall j | 1 <= j < |queue| ::
      from[j] < j && visits[from[j]].Opened? && parent[queue[j]] == queue[from[j]]
    ensures forall p, i | 0 <= p < |queue| && !visits[p].Opened? && 0 <= i < 8 &&
      pool[queue[p]].quads[i].Some? :: pool[queue[p]].quads[i].value !in queue
  {
    forall p, i | 0 <= p < |queue| && !visits[p].Opened? && 0 <= i < 8 && pool[queue[p]].quads[i].Some?
      ensures pool[queue[p]].quads[i].value !in queue
    {
      var c := pool[queue[p]].quads[i].value;
      assert parent[c] == queue[p];
      forall j | 0 <= j < |queue|
        ensures queue[j] != c
      {
        if j == 0 {
          assert parent[queue[j]] == -1;
        } else {
          assert parent[queue[j]] == queue[from[j]] && from[j] != p;
        }
      }
    }
  }

  /** `(u - 0.5) / 50`: a draw in [0, 1) moved to [-0.01, 0.01). */
  function Nudge(u: real): (r: real)
    ensures 0.0 <= u < 1.0 ==> -0.01 <= r < 0.01
  {
    (u - 0.5) / 50.0
  }

  class Octree {
    var random: Random
    var treeNodes: OctreeNodePool
    var root: nat
    /** For every issued node but the root, the node whose `quads` holds it,
        and in which slot; the root's parent is -1. */
    ghost var parent: seq<int>
    ghost var slot: seq<nat>
    /** For every body, the leaf holding it, or -1. */
    ghost var home: seq<int>

    /** The pool holds a tree over `n` bodies. */
    ghost predicate TreeValid(n: nat)
      reads this, treeNodes
    {
      treeNodes.Valid() &&
      WellFormed(treeNodes.pool, treeNodes.cursor, root, parent, slot, home, n)
    }

    /** `f` accounts for an insertion below node `k` that failed, in the
        tree it left: both bodies of a clash are out of the tree, the
        resident sits at the last jitter point of the leaf's box and is still
        `sameAs` the incoming body; the node where the depth bound ran out
        lies below `k`, at least half of `budget` levels down. */
    ghost predicate Failed(f: Failure, bodies: seq<Body>, k: nat, budget: int)
      reads this, treeNodes, bodies`position
    {
      match f
      case Clash(o, i, c, s) =>
        o != i && o < |bodies| && i < |bodies| && |home| == |bodies| && home[o] < 0 && home[i] < 0 &&
        c < treeNodes.cursor <= |treeNodes.pool| && Below(parent, c, k) &&
        bodies[o].position == JitterPoint(treeNodes.pool[c].box, Fraction(Advance(s, JitterRetries))) &&
        SameAs(bodies[o].position, bodies[i].position)
      case Exhausted(c) =>
        c < treeNodes.cursor && Below(parent, c, k) && 2 * (Depth(parent, c) - Depth(parent, k)) >= budget
    }

    /** A failure below a child is a failure below its parent, one level
        further from where the bound ran out. */
    lemma FailedParent(f: Failure, bodies: seq<Body>, child: nat, k: nat, budget: int)
      requires Failed(f, bodies, child, budget)
      requires k < child < |parent| && parent[child] == k
      ensures Failed(f, bodies, k, budget + 2)
    {
      match f
      case Clash(o, i, c, s) => BelowParent(parent, c, child, k);
      case Exhausted(c) => BelowParent(parent, c, child, k);
    }

    /** `COctree()`: the generator is seeded with 1984; the root is only set
        by `insertBodies`. */
    constructor()
      ensures fresh(random) && fresh(treeNodes)
      ensures random.seed == OctreeSeed
      ensures treeNodes.Valid() && treeNodes.pool == [] && treeNodes.cursor == 0
    {
      random := new Random(OctreeSeed);
      treeNodes := new OctreeNodePool();
      root := 0;
      parent := [];
      slot := [];
      home := [];
    }

    /** The scan of `createRootNode`: the running minimum and maximum of
        each coordinate, starting from the 32-bit integer limits. */
    static method Bounds(bodies: seq<Body>, ghost ps: seq<Vector3>)
      returns (x1: real, x2: real, y1: real, y2: real, z1: real, z2: real)
      requires ps == Positions(bodies)
      ensures x1 == Lower(ps, 0) && x2 == Upper(ps, 0)
      ensures y1 == Lower(ps, 1) && y2 == Upper(ps, 1)
      ensures z1 == Lower(ps, 2) && z2 == Upper(ps, 2)
    {
      x1, x2 := Int32Max, Int32Min;
      y1, y2 := Int32Max, Int32Min;
      z1, z2 := Int32Max, Int32Min;
      var i := 0;
      while i < |bodies|
        invariant 0 <= i <= |bodies|
        invariant x1 == Lower(ps[..i], 0) && x2 == Upper(ps[..i], 0)
        invariant y1 == Lower(ps[..i], 1) && y2 == Upper(ps[..i], 1)
        invariant z1 == Lower(ps[..i], 2) && z2 == Upper(ps[..i], 2)
      {
        assert ps[..i + 1][..i] == ps[..i];
        var pos := bodies[i].position;
        if pos.x < x1 { x1 := pos.x; }
        if pos.x > x2 { x2 := pos.x; }
        if pos.y < y1 { y1 := pos.y; }
        if pos.y > y2 { y2 := pos.y; }
        if pos.z < z1 { z1 := pos.z; }
        if pos.z > z2 { z2 := pos.z; }
        i := i + 1;
      }
      assert ps[..|bodies|] == ps;
    }

    /** The squarifying of `createRootNode`: a box with no extent grows by
        `n` times the coincident spread on every side; otherwise every axis
        takes the largest extent from its lower bound. */
    static method Squarify(n: nat, ghost ps: seq<Vector3>, x1: real, x2: real, y1: real, y2: real, z1: real, z2: real)
      returns (box: Box)
      requires n == |ps|
      requires x1 == Lower(ps, 0) && x2 == Upper(ps, 0)
      requires y1 == Lower(ps, 1) && y2 == Upper(ps, 1)
      requires z1 == Lower(ps, 2) && z2 == Upper(ps, 2)
      ensures box == RootBox(ps)
    {
      var x1, x2, y1, y2, z1, z2 := x1, x2, y1, y2, z1, z2;
      var maxSide := Max(x2 - x1, Max(y2 - y1, z2 - z1));
      if maxSide == 0.0 {
        maxSide := (n as real) * CoincidentSpread;
        x1 := x1 - maxSide;
        y1 := y1 - maxSide;
        z1 := z1 - maxSide;
        x2 := x2 + maxSide;
        y2 := y2 + maxSide;
        z2 := z2 + maxSide;
      } else {
        x2 := x1 + maxSide;
        y2 := y1 + maxSide;
        z2 := z1 + maxSide;
      }
      box := Box(x1, x2, y1, y2, z1, z2);
      ghost var root := RootBox(ps);
      assert root.left == x1 && root.right == x2 && root.top == y1 && root.bottom == y2 && root.back == z1 && root.front == z2;
    }

    /** `createRootNode`: scans the positions for the running bounds, then
        takes a node from the pool and gives it the squarified box. */
    method CreateRootNode(bodies: seq<Body>) returns (r: nat)
      requires treeNodes.Valid()
      modifies treeNodes
      ensures treeNodes.Valid()
      ensures r == old(treeNodes.cursor) && treeNodes.cursor == r + 1
      ensures |treeNodes.pool| == if r == |old(treeNodes.pool)| then r + 1 else |old(treeNodes.pool)|
      ensures treeNodes.pool[r] == Cleared().(box := RootBox(Positions(bodies)))
      ensures forall i | 0 <= i < |treeNodes.pool| && i != r :: treeNodes.pool[i] == old(treeNodes.pool[i])
    {
      ghost var ps := Positions(bodies);
      var x1, x2, y1, y2, z1, z2 := Bounds(bodies, ps);
      var box := Squarify(|bodies|, ps, x1, x2, y1, y2, z1, z2);
      r := treeNodes.Get();
      treeNodes.Set(r, treeNodes.pool[r].(box := box));
      assert Positions(bodies) == ps;
    }

    /** The do-while of a leaf split: moves the resident body to a jittered
        point of the box, at most three times, until it is no longer
        `sameAs` the incoming body. */
    method Separate(resident: Body, incoming: Body, box: Box) returns (separated: bool, ghost tries: nat)
      requires resident != incoming
      modifies random`seed, resident`position
      ensures 1 <= tries <= JitterRetries
      ensures random.seed == Advance(old(random.seed), tries)
      ensures resident.position == JitterPoint(box, Fraction(random.seed))
      ensures separated <==> !SameAs(resident.position, incoming.position)
      ensures tries < JitterRetries ==> separated
      ensures Ordered(box) ==> Contains(box, resident.position)
    {
      var retriesCount := JitterRetries;
      tries := 0;
      while true
        invariant tries + retriesCount == JitterRetries && retriesCount <= JitterRetries
        invariant random.seed == Advance(old(random.seed), tries)
        invariant tries > 0 ==> resident.position == JitterPoint(box, Fraction(random.seed))
        invariant tries > 0 ==> retriesCount > 0 && SameAs(resident.position, incoming.position)
        decreases retriesCount
      {
        var offset := random.NextDouble();
        AdvanceAdds(old(random.seed), tries, 1);
        resident.SetPosition(JitterPoint(box, offset));
        retriesCount := retriesCount - 1;
        tries := tries + 1;
        if !(retriesCount > 0 && SameAs(resident.position, incoming.position)) {
          break;
        }
      }
      separated := !(retriesCount == 0 && SameAs(resident.position, incoming.position));
      if Ordered(box) {
        JitterInside(box, Fraction(random.seed));
      }
    }

    /** The `sameAs` test of a leaf split: a resident on the incoming
        body's point is jittered inside the box; false when it is still
        there after the last retry. */
    method Dislodge(bodies: seq<Body>, o: nat, b: nat, box: Box) returns (separated: bool)
      requires Distinct(bodies) && o < |bodies| && b < |bodies| && o != b
      modifies random`seed, {bodies[o]}`position
      ensures separated <==> !SameAs(bodies[o].position, bodies[b].position)
      ensures if SameAs(old(bodies[o].position), old(bodies[b].position)) then
          bodies[o].position == JitterPoint(box, Fraction(random.seed)) &&
          (Ordered(box) ==> Contains(box, bodies[o].position))
        else bodies[o].position == old(bodies[o].position) && random.seed == old(random.seed)
      ensures forall j | 0 <= j < |bodies| && j != o :: bodies[j].position == old(bodies[j].position)
      ensures !separated ==> random.seed == Advance(old(random.seed), JitterRetries)
    {
      DistinctAt(bodies, o);
      separated := true;
      if SameAs(bodies[o].position, bodies[b].position) {
        ghost var tries;
        separated, tries := Separate(bodies[o], bodies[b], box);
      }
    }

    /** `insert(body, node)` for body `b` and node `k`.  A node without a
        body is internal and the body descends through it; a node with a
        body is a leaf and is split.  False means a split ran out of jitter
        attempts (or the depth bound ran out); the resident of that split is
        then left out of the tree. */
    method Insert(b: nat, k: nat, bodies: seq<Body>, fuel: nat) returns (ok: bool, ghost failure: Failure)
      requires TreeValid(|bodies|) && Distinct(bodies)
      requires b < |bodies| && k < treeNodes.cursor && home[b] < 0
      modifies this`parent, this`slot, this`home, treeNodes, random`seed, bodies`position
      ensures BoxesKept(old(treeNodes.pool), old(treeNodes.cursor), treeNodes.pool, treeNodes.cursor)
      ensures forall j | 0 <= j < |bodies| ::
        bodies[j].position == old(bodies[j].position) || OnJitter(bodies[j].position, treeNodes.pool, treeNodes.cursor)
      ensures TreeValid(|bodies|)
      ensures forall m | 0 <= m < k :: treeNodes.pool[m] == old(treeNodes.pool[m])
      ensures forall j | 0 <= j < |bodies| && old(home[j]) < 0 :: bodies[j].position == old(bodies[j].position)
      ensures old(treeNodes.pool[k].body).None? ==>
        treeNodes.pool[k].body == None &&
        treeNodes.pool[k].mass == old(treeNodes.pool[k].mass + bodies[b].mass) &&
        treeNodes.pool[k].massVector == old(Add(treeNodes.pool[k].massVector, Scale(bodies[b].position, bodies[b].mass)))
      ensures old(treeNodes.pool[k].body).Some? ==> treeNodes.pool[k].body == None
      ensures ok ==> home[b] >= 0 && forall j | 0 <= j < |bodies| && j != b :: (home[j] >= 0 <==> old(home[j]) >= 0)
      ensures !ok ==> home[b] < 0 && forall j | 0 <= j < |bodies| && home[j] >= 0 :: old(home[j]) >= 0
      ensures old(parent) <= parent
      ensures ok ==> Below(parent, home[b], k)
      ensures !ok ==> Failed(failure, bodies, k,
                                  if old(treeNodes.pool[k].body).None? then fuel + 1 else fuel)
      ensures !ok && failure.Clash? ==> random.seed == Advance(failure.seed, JitterRetries)
      decreases fuel, 6
    {
      if treeNodes.pool[k].body.None? {
        ok, failure := Descend(b, k, bodies, fuel);
      } else {
        ok, failure := Split(b, k, bodies, fuel);
      }
    }

    /** The internal-node branch: the node takes the body's mass and
        mass-weighted position, then the body goes to the octant it falls
        in, as a new leaf when that octant is empty. */
    method Descend(b: nat, k: nat, bodies: seq<Body>, fuel: nat) returns (ok: bool, ghost failure: Failure)
      requires TreeValid(|bodies|) && Distinct(bodies)
      requires b < |bodies| && k < treeNodes.cursor && home[b] < 0
      modifies this`parent, this`slot, this`home, treeNodes, random`seed, bodies`position
      ensures BoxesKept(old(treeNodes.pool), old(treeNodes.cursor), treeNodes.pool, treeNodes.cursor)
      ensures forall j | 0 <= j < |bodies| ::
        bodies[j].position == old(bodies[j].position) || OnJitter(bodies[j].position, treeNodes.pool, treeNodes.cursor)
      ensures TreeValid(|bodies|)
      ensures forall m | 0 <= m < k :: treeNodes.pool[m] == old(treeNodes.pool[m])
      ensures forall j | 0 <= j < |bodies| && old(home[j]) < 0 :: bodies[j].position == old(bodies[j].position)
      ensures treeNodes.pool[k].body == None
      ensures treeNodes.pool[k].mass == old(treeNodes.pool[k].mass + bodies[b].mass)
      ensures treeNodes.pool[k].massVector == old(Add(treeNodes.pool[k].massVector, Scale(bodies[b].position, bodies[b].mass)))
      ensures ok ==> home[b] >= 0 && forall j | 0 <= j < |bodies| && j != b :: (home[j] >= 0 <==> old(home[j]) >= 0)
      ensures !ok ==> home[b] < 0 && forall j | 0 <= j < |bodies| && home[j] >= 0 :: old(home[j]) >= 0
      requires treeNodes.pool[k].body.None?
      ensures old(parent) <= parent
      ensures ok ==> Below(parent, home[b], k)
      ensures !ok ==> Failed(failure, bodies, k, fuel + 1)
      ensures !ok && failure.Clash? ==> random.seed == Advance(failure.seed, JitterRetries)
      decreases fuel, 2
    {
      var body := bodies[b];
      AddMass(k, body.mass, body.position, |bodies|);
      ok, failure := Route(b, k, bodies, fuel);
    }

    /** The rest of the internal-node branch: body `b` goes to the octant of
        `k` it falls in, as a new leaf when that octant is empty; the node's
        own mass and body are left as they are. */
    method Route(b: nat, k: nat, bodies: seq<Body>, fuel: nat) returns (ok: bool, ghost failure: Failure)
      requires TreeValid(|bodies|) && Distinct(bodies)
      requires b < |bodies| && k < treeNodes.cursor && home[b] < 0
      requires treeNodes.pool[k].body.None?
      modifies this`parent, this`slot, this`home, treeNodes, random`seed, bodies`position
      ensures BoxesKept(old(treeNodes.pool), old(treeNodes.cursor), treeNodes.pool, treeNodes.cursor)
      ensures forall j | 0 <= j < |bodies| ::
        bodies[j].position == old(bodies[j].position) || OnJitter(bodies[j].position, treeNodes.pool, treeNodes.cursor)
      ensures TreeValid(|bodies|)
      ensures forall m | 0 <= m < k :: treeNodes.pool[m] == old(treeNodes.pool[m])
      ensures forall j | 0 <= j < |bodies| && old(home[j]) < 0 :: bodies[j].position == old(bodies[j].position)
      ensures treeNodes.pool[k].body == None
      ensures treeNodes.pool[k] == old(treeNodes.pool[k]).(quads := treeNodes.pool[k].quads)
      ensures ok ==> home[b] >= 0 && forall j | 0 <= j < |bodies| && j != b :: (home[j] >= 0 <==> old(home[j]) >= 0)
      ensures !ok ==> home[b] < 0 && forall j | 0 <= j < |bodies| && home[j] >= 0 :: old(home[j]) >= 0
      ensures old(parent) <= parent
      ensures ok ==> Below(parent, home[b], k)
      ensures Routed(old(treeNodes.pool[k]), treeNodes.pool[k], Octant(old(treeNodes.pool[k].box), old(bodies[b].position)))
      ensures ok ==> Below(parent, home[b], treeNodes.pool[k].quads[Octant(old(treeNodes.pool[k].box), old(bodies[b].position))].value)
      ensures !ok ==> Failed(failure, bodies, k, fuel + 1)
      ensures !ok && failure.Clash? ==> random.seed == Advance(failure.seed, JitterRetries)
      decreases fuel, 1
    {
      var node := treeNodes.pool[k];
      var quadIdx := Octant(node.box, bodies[b].position);
      failure := Exhausted(k);
      match node.quads[quadIdx]
      case None =>
        var child := AttachLeaf(k, quadIdx, b, |bodies|);
        ok := true;
        assert Below(parent, k, k) && Below(parent, child, child);
      case Some(child) =>
        ok, failure := Forward(b, k, child, bodies, fuel);
    }

    /** The recursive call `insert(body, child)` of an internal node `k`
        with its child `child`, spending one level of the depth bound. */
    method Forward(b: nat, k: nat, child: nat, bodies: seq<Body>, fuel: nat) returns (ok: bool, ghost failure: Failure)
      requires TreeValid(|bodies|) && Distinct(bodies)
      requires b < |bodies| && k < child < treeNodes.cursor && parent[child] == k && home[b] < 0
      modifies this`parent, this`slot, this`home, treeNodes, random`seed, bodies`position
      ensures BoxesKept(old(treeNodes.pool), old(treeNodes.cursor), treeNodes.pool, treeNodes.cursor)
      ensures forall j | 0 <= j < |bodies| ::
        bodies[j].position == old(bodies[j].position) || OnJitter(bodies[j].position, treeNodes.pool, treeNodes.cursor)
      ensures TreeValid(|bodies|)
      ensures forall m | 0 <= m < child :: treeNodes.pool[m] == old(treeNodes.pool[m])
      ensures forall j | 0 <= j < |bodies| && old(home[j]) < 0 :: bodies[j].position == old(bodies[j].position)
      ensures ok ==> home[b] >= 0 && forall j | 0 <= j < |bodies| && j != b :: (home[j] >= 0 <==> old(home[j]) >= 0)
      ensures !ok ==> home[b] < 0 && forall j | 0 <= j < |bodies| && home[j] >= 0 :: old(home[j]) >= 0
      ensures old(parent) <= parent
      ensures ok ==> Below(parent, home[b], child) && Below(parent, home[b], k)
      ensures !ok ==> Failed(failure, bodies, k, fuel + 1)
      ensures !ok && failure.Clash? ==> random.seed == Advance(failure.seed, JitterRetries)
      decreases fuel, 0
    {
      if fuel == 0 {
        ok := false;
        failure := Exhausted(child);
        assert Depth(parent, child) == Depth(parent, k) + 1;
      } else {
        ok, failure := Insert(b, child, bodies, fuel - 1);
        if ok {
          BelowParent(parent, home[b], child, k);
        } else {
          FailedParent(failure, bodies, child, k, fuel - 1);
        }
      }
    }

    /** The leaf branch: the resident is detached, jittered away when it is
        `sameAs` the incoming body, and the two are inserted again below
        the now-internal node, the resident first, stopping at a failure. */
    method Split(b: nat, k: nat, bodies: seq<Body>, fuel: nat) returns (ok: bool, ghost failure: Failure)
      requires TreeValid(|bodies|) && Distinct(bodies)
      requires b < |bodies| && k < treeNodes.cursor && home[b] < 0
      modifies this`parent, this`slot, this`home, treeNodes, random`seed, bodies`position
      ensures BoxesKept(old(treeNodes.pool), old(treeNodes.cursor), treeNodes.pool, treeNodes.cursor)
      ensures forall j | 0 <= j < |bodies| ::
        bodies[j].position == old(bodies[j].position) || OnJitter(bodies[j].position, treeNodes.pool, treeNodes.cursor)
      ensures TreeValid(|bodies|)
      ensures forall m | 0 <= m < k :: treeNodes.pool[m] == old(treeNodes.pool[m])
      ensures forall j | 0 <= j < |bodies| && old(home[j]) < 0 :: bodies[j].position == old(bodies[j].position)
      ensures treeNodes.pool[k].body == None
      ensures ok ==> home[b] >= 0 && forall j | 0 <= j < |bodies| && j != b :: (home[j] >= 0 <==> old(home[j]) >= 0)
      ensures !ok ==> home[b] < 0 && forall j | 0 <= j < |bodies| && home[j] >= 0 :: old(home[j]) >= 0
      requires treeNodes.pool[k].body.Some?
      ensures old(parent) <= parent
      ensures ok ==> Below(parent, home[b], k)
      ensures !ok ==> Failed(failure, bodies, k, fuel)
      ensures !ok && failure.Clash? ==> random.seed == Advance(failure.seed, JitterRetries)
      decreases fuel, 5
    {
      var o := treeNodes.pool[k].body.value;
      ghost var homes := home;
      var separated;
      ghost var clash;
      separated, clash := Unstack(b, k, bodies, fuel);
      ghost var pool1, c1 := treeNodes.pool, treeNodes.cursor;
      ok, failure := Reinsert(o, b, k, bodies, fuel, separated, clash, homes);
      JitterKept(pool1, c1, treeNodes.pool, treeNodes.cursor);
    }

    /** The first half of a split: the leaf `k` gives up its resident, which
        is jittered inside the box while it is `sameAs` body `b`.  The
        result is false exactly when the retries ran out. */
    method Unstack(b: nat, k: nat, bodies: seq<Body>, ghost budget: int) returns (separated: bool, ghost failure: Failure)
      requires TreeValid(|bodies|) && Distinct(bodies)
      requires b < |bodies| && k < treeNodes.cursor && home[b] < 0
      requires treeNodes.pool[k].body.Some?
      modifies this`home, treeNodes`pool, random`seed, bodies`position
      ensures BoxesKept(old(treeNodes.pool), old(treeNodes.cursor), treeNodes.pool, treeNodes.cursor)
      ensures forall j | 0 <= j < |bodies| ::
        bodies[j].position == old(bodies[j].position) || OnJitter(bodies[j].position, treeNodes.pool, treeNodes.cursor)
      ensures TreeValid(|bodies|)
      ensures old(treeNodes.pool[k].body.value) < |bodies| && old(treeNodes.pool[k].body.value) != b
      ensures old(home[treeNodes.pool[k].body.value]) == k
      ensures treeNodes.pool == old(treeNodes.pool)[k := old(treeNodes.pool[k]).(body := None)]
      ensures home == old(home)[old(treeNodes.pool[k].body.value) := -1]
      ensures forall m | 0 <= m < k :: treeNodes.pool[m] == old(treeNodes.pool[m])
      ensures forall j | 0 <= j < |bodies| && j != old(treeNodes.pool[k].body.value) ::
        bodies[j].position == old(bodies[j].position)
      ensures forall j | 0 <= j < |bodies| && old(home[j]) < 0 :: bodies[j].position == old(bodies[j].position)
      ensures separated <==> !SameAs(bodies[old(treeNodes.pool[k].body.value)].position, bodies[b].position)
      ensures var o := old(treeNodes.pool[k].body.value); var box := treeNodes.pool[k].box;
        if SameAs(old(bodies[o].position), old(bodies[b].position)) then
          bodies[o].position == JitterPoint(box, Fraction(random.seed)) &&
          (Ordered(box) ==> Contains(box, bodies[o].position))
        else bodies[o].position == old(bodies[o].position) && random.seed == old(random.seed)
      ensures forall j | 0 <= j < |bodies| && home[j] >= 0 :: old(home[j]) >= 0
      ensures !separated ==>
        Failed(failure, bodies, k, budget) && failure.Clash? && random.seed == Advance(failure.seed, JitterRetries)
    {
      failure := Clash(treeNodes.pool[k].body.value, b, k, random.seed);
      var node := treeNodes.pool[k];
      var o := node.body.value;
      Detach(k, |bodies|);
      separated := Dislodge(bodies, o, b, node.box);
      assert SameAs(old(bodies[o].position), old(bodies[b].position)) ==>
        bodies[o].position == JitterPoint(treeNodes.pool[k].box, Fraction(random.seed));
    }

    /** The end of a split on the detached resident `o`, the incoming body
        `b` and the emptied node `k`; `homes` are the homes before `o` was
        detached.  When the jitter did not separate the two, the split stops
        with `clash`; otherwise both are inserted again below `k`. */
    method Reinsert(o: nat, b: nat, k: nat, bodies: seq<Body>, fuel: nat, separated: bool, ghost clash: Failure,
                    ghost homes: seq<int>)
      returns (ok: bool, ghost failure: Failure)
      requires TreeValid(|bodies|) && Distinct(bodies)
      requires o < |bodies| && b < |bodies| && o != b && k < treeNodes.cursor
      requires home[b] < 0 && treeNodes.pool[k].body.None?
      requires |homes| == |bodies| && homes[o] >= 0 && home == homes[o := -1]
      requires !separated ==>
        Failed(clash, bodies, k, fuel) && clash.Clash? && random.seed == Advance(clash.seed, JitterRetries)
      modifies this`parent, this`slot, this`home, treeNodes, random`seed, bodies`position
      ensures BoxesKept(old(treeNodes.pool), old(treeNodes.cursor), treeNodes.pool, treeNodes.cursor)
      ensures forall j | 0 <= j < |bodies| ::
        bodies[j].position == old(bodies[j].position) || OnJitter(bodies[j].position, treeNodes.pool, treeNodes.cursor)
      ensures TreeValid(|bodies|)
      ensures forall m | 0 <= m < k :: treeNodes.pool[m] == old(treeNodes.pool[m])
      ensures forall j | 0 <= j < |bodies| && homes[j] < 0 :: bodies[j].position == old(bodies[j].position)
      ensures treeNodes.pool[k].body == None
      ensures ok ==> home[b] >= 0 && forall j | 0 <= j < |bodies| && j != b :: (home[j] >= 0 <==> homes[j] >= 0)
      ensures !ok ==> home[b] < 0 && forall j | 0 <= j < |bodies| && home[j] >= 0 :: homes[j] >= 0
      ensures old(parent) <= parent
      ensures ok ==> Below(parent, home[b], k)
      ensures !ok ==> Failed(failure, bodies, k, fuel)
      ensures !ok && failure.Clash? ==> random.seed == Advance(failure.seed, JitterRetries)
      decreases fuel, 4
    {
      ghost var detached := home;
      if !separated {
        ok, failure := false, clash;
      } else if fuel == 0 {
        ok, failure := false, Exhausted(k);
      } else {
        ok, failure := PlaceBoth(o, b, k, bodies, fuel);
      }
      SplitHomes(homes, detached, home, o, b, ok);
    }

    /** `result = insert(oldBody, node); if (result) result = insert(body, node);`
        with one level of the depth bound spent. */
    method PlaceBoth(o: nat, b: nat, k: nat, bodies: seq<Body>, fuel: nat)
      returns (ok: bool, ghost failure: Failure)
      requires TreeValid(|bodies|) && Distinct(bodies)
      requires o < |bodies| && b < |bodies| && o != b && k < treeNodes.cursor
      requires home[o] < 0 && home[b] < 0 && treeNodes.pool[k].body.None?
      requires fuel > 0
      modifies this`parent, this`slot, this`home, treeNodes, random`seed, bodies`position
      ensures BoxesKept(old(treeNodes.pool), old(treeNodes.cursor), treeNodes.pool, treeNodes.cursor)
      ensures forall j | 0 <= j < |bodies| ::
        bodies[j].position == old(bodies[j].position) || OnJitter(bodies[j].position, treeNodes.pool, treeNodes.cursor)
      ensures TreeValid(|bodies|)
      ensures forall m | 0 <= m < k :: treeNodes.pool[m] == old(treeNodes.pool[m])
      ensures forall j | 0 <= j < |bodies| && j != o && old(home[j]) < 0 :: bodies[j].position == old(bodies[j].position)
      ensures treeNodes.pool[k].body == None
      ensures ok ==> home[b] >= 0 && home[o] >= 0
      ensures ok ==> forall j | 0 <= j < |bodies| && j != b && j != o :: (home[j] >= 0 <==> old(home[j]) >= 0)
      ensures !ok ==> home[b] < 0 && forall j | 0 <= j < |bodies| && j != o && home[j] >= 0 :: old(home[j]) >= 0
      ensures old(parent) <= parent
      ensures ok ==> Below(parent, home[b], k)
      ensures !ok ==> Failed(failure, bodies, k, fuel)
      ensures !ok && failure.Clash? ==> random.seed == Advance(failure.seed, JitterRetries)
      decreases fuel, 3
    {
      ok, failure := Insert(o, k, bodies, fuel - 1);
      if ok {
        ghost var pool1, c1 := treeNodes.pool, treeNodes.cursor;
        ok, failure := Insert(b, k, bodies, fuel - 1);
        JitterKept(pool1, c1, treeNodes.pool, treeNodes.cursor);
      }
    }

    /** `node->mass += m` and `node->massVector += m * pos`, axis by axis. */
    method AddMass(k: nat, m: real, pos: Vector3, ghost n: nat)
      requires TreeValid(n) && k < treeNodes.cursor
      modifies treeNodes`pool
      ensures TreeValid(n)
      ensures treeNodes.pool == old(treeNodes.pool)[k := old(treeNodes.pool[k]).(
        mass := old(treeNodes.pool[k].mass) + m,
        massVector := Add(old(treeNodes.pool[k].massVector), Scale(pos, m)))]
    {
      var node := treeNodes.pool[k];
      node := node.(mass := node.mass + m,
                    massVector := Vector3(node.massVector.x + m * pos.x,
                                          node.massVector.y + m * pos.y,
                                          node.massVector.z + m * pos.z));
      assert Scale(pos, m) == Vector3(pos.x * m, pos.y * m, pos.z * m);
      assert node.massVector == Add(old(treeNodes.pool[k].massVector), Scale(pos, m));
      MassUpdateKeepsTree(treeNodes.pool, treeNodes.cursor, root, parent, slot, home, n, k, node);
      treeNodes.Set(k, node);
    }

    /** A fresh node from the pool becomes the leaf of body `b` in the empty
        octant `q` of `k`, with that octant's half box. */
    method AttachLeaf(k: nat, q: nat, b: nat, ghost n: nat) returns (child: nat)
      requires TreeValid(n) && k < treeNodes.cursor && q < 8
      requires treeNodes.pool[k].body.None? && treeNodes.pool[k].quads[q].None?
      requires b < n && home[b] < 0
      modifies treeNodes, this`parent, this`slot, this`home
      ensures TreeValid(n)
      ensures child == old(treeNodes.cursor) && treeNodes.cursor == child + 1
      ensures treeNodes.pool[k] == old(treeNodes.pool[k]).(quads := old(treeNodes.pool[k].quads)[q := Some(child)])
      ensures treeNodes.pool[child] == Cleared().(body := Some(b), box := ChildBox(old(treeNodes.pool[k].box), q))
      ensures forall m | 0 <= m < child && m != k :: treeNodes.pool[m] == old(treeNodes.pool[m])
      ensures home == old(home)[b := child]
      ensures parent == old(parent) + [k]
    {
      ghost var before := treeNodes.pool;
      var node := treeNodes.pool[k];
      child := treeNodes.Get();
      treeNodes.Set(child, Cleared().(body := Some(b), box := ChildBox(node.box, q)));
      treeNodes.Set(k, node.(quads := node.quads[q := Some(child)]));
      AttachKeepsTree(before, child, root, parent, slot, home, n, k, q, b, treeNodes.pool);
      parent := parent + [k];
      slot := slot + [q];
      home := home[b := child];
    }

    /** `node->body = NULL` on a leaf: its resident leaves the tree. */
    method Detach(k: nat, ghost n: nat)
      requires TreeValid(n) && k < treeNodes.cursor && treeNodes.pool[k].body.Some?
      modifies treeNodes`pool, this`home
      ensures TreeValid(n)
      ensures BoxesKept(old(treeNodes.pool), treeNodes.cursor, treeNodes.pool, treeNodes.cursor)
      ensures treeNodes.pool == old(treeNodes.pool)[k := old(treeNodes.pool[k]).(body := None)]
      ensures home == old(home)[old(treeNodes.pool[k].body.value) := -1]
    {
      DetachKeepsTree(treeNodes.pool, treeNodes.cursor, root, parent, slot, home, n, k);
      treeNodes.Set(k, treeNodes.pool[k].(body := None));
      home := home[old(treeNodes.pool[k].body.value) := -1];
    }

    /** The part of `insertBodies` before the loop: `reset(8n)`,
        `createRootNode`, and body 0 as the root's resident. */
    method InitRoot(bodies: seq<Body>)
      modifies this`root, this`parent, this`slot, this`home, treeNodes
      ensures TreeValid(|bodies|)
      ensures treeNodes.cursor == 1 && root == 0 && |treeNodes.pool| == (if |bodies| == 0 then 1 else 8 * |bodies|)
      ensures treeNodes.pool[root] == Cleared().(body := if |bodies| > 0 then Some(0) else None,
                                                  box := RootBox(Positions(bodies)))
      ensures |bodies| > 0 ==> home[0] == root
      ensures forall j | 1 <= j < |bodies| :: home[j] < 0
    {
      ghost var ps := Positions(bodies);
      root := ResetRoot(bodies);
      SeatRoot(|bodies|);
      assert ps == Positions(bodies);
    }

    /** The rest of `insertBodies`' set-up: the root, node 0 of the pool,
        is the whole tree, and holds body 0 when there is one. */
    method SeatRoot(n: nat)
      requires treeNodes.Valid() && root == 0 && treeNodes.cursor == 1 && treeNodes.pool[0].quads == NoChildren()
      requires treeNodes.pool[0].body.None?
      modifies this`parent, this`slot, this`home, treeNodes`pool
      ensures TreeValid(n)
      ensures |treeNodes.pool| == old(|treeNodes.pool|)
      ensures treeNodes.pool[0] == old(treeNodes.pool[0]).(body := if n > 0 then Some(0) else None)
      ensures n > 0 ==> home[0] == root
      ensures forall j | 1 <= j < n :: home[j] < 0
    {
      parent := [-1];
      slot := [0];
      home := seq(n, j => if j == 0 then 0 else -1);
      if n > 0 {
        treeNodes.Set(root, treeNodes.pool[root].(body := Some(0)));
      }
      RootOnlyTree(treeNodes.pool, home, n);
    }

    /** `reset(8n)` followed by `createRootNode`: the root is the first
        node of the rewound pool. */
    method ResetRoot(bodies: seq<Body>) returns (r: nat)
      modifies treeNodes
      ensures treeNodes.Valid()
      ensures r == 0 && treeNodes.cursor == 1 && |treeNodes.pool| == (if |bodies| == 0 then 1 else 8 * |bodies|)
      ensures treeNodes.pool[r] == Cleared().(box := RootBox(Positions(bodies)))
    {
      treeNodes.Reset(|bodies| * 8);
      r := CreateRootNode(bodies);
    }

    /** `insertBodies`: the pool is reset to 8n nodes, the root gets the
        squarified bounds of all positions, body 0 becomes the root's
        resident, and bodies 1 .. n-1 are inserted in order until one
        fails.  `stop` is the body whose insertion failed, or n. */
    method InsertBodies(bodies: seq<Body>) returns (ghost stop: nat, ghost failure: Failure)
      requires Distinct(bodies)
      modifies this`root, this`parent, this`slot, this`home, treeNodes, random`seed, bodies`position
      ensures treeNodes.Valid() && Built(View(), old(Positions(bodies)), Positions(bodies), stop)
      ensures stop < |bodies| ==>
        Failed(failure, bodies, root, MaxInsertDepth)
      ensures stop < |bodies| && failure.Clash? ==> random.seed == Advance(failure.seed, JitterRetries)
    {
      ghost var p0 := Positions(bodies);
      InitRoot(bodies);
      stop, failure := InsertRest(bodies, p0);
    }

    /** The loop of `insertBodies`: bodies 1 .. n-1 go in below the root
        that holds body 0, in order, until one fails; the bodies start at
        `p0`. */
    method InsertRest(bodies: seq<Body>, ghost p0: seq<Vector3>) returns (ghost stop: nat, ghost failure: Failure)
      requires Distinct(bodies) && TreeValid(|bodies|)
      requires |bodies| > 0 ==> home[0] == root
      requires forall j | 1 <= j < |bodies| :: home[j] < 0
      requires |p0| == |bodies| && forall j | 0 <= j < |bodies| :: bodies[j].position == p0[j]
      modifies this`parent, this`slot, this`home, treeNodes, random`seed, bodies`position
      ensures forall j | 0 <= j < |bodies| ::
        bodies[j].position == p0[j] || OnJitter(bodies[j].position, treeNodes.pool, treeNodes.cursor)
      ensures TreeValid(|bodies|) && root == old(root)
      ensures treeNodes.pool[root].box == old(treeNodes.pool[root].box)
      ensures stop <= |bodies|
      ensures stop == |bodies| ==> forall j | 0 <= j < |bodies| :: home[j] >= 0
      ensures stop < |bodies| ==> 1 <= stop && forall j | stop <= j < |bodies| :: home[j] < 0
      ensures forall j | stop <= j < |bodies| :: bodies[j].position == p0[j]
      ensures stop < |bodies| ==>
        Failed(failure, bodies, root, MaxInsertDepth)
      ensures stop < |bodies| && failure.Clash? ==> random.seed == Advance(failure.seed, JitterRetries)
    {
      ghost var box := treeNodes.pool[root].box;
      failure := Exhausted(root);
      if |bodies| == 0 {
        stop := 0;
        return;
      }
      ghost var pool0 := treeNodes.pool;
      var i := 1;
      while i < |bodies|
        invariant Inserting(bodies, p0, pool0, old(treeNodes.cursor), i)
        invariant treeNodes.pool[root].box == box
        invariant forall j | 0 <= j < i :: home[j] >= 0
      {
        var ok;
        ok, failure := InsertNext(i, bodies, p0, pool0, old(treeNodes.cursor));
        if !ok {
          stop := i;
          return;
        }
        i := i + 1;
      }
      stop := |bodies|;
    }

    /** Bodies `i` .. n-1 are still out of the tree and where they were at
        `p0`; every other body is there or on a jitter point; the boxes
        issued in `pool0` are kept. */
    ghost predicate Inserting(bodies: seq<Body>, p0: seq<Vector3>, pool0: seq<OctreeNode>, c0: nat, i: nat)
      reads this, treeNodes, bodies`position
    {
      TreeValid(|bodies|) && 1 <= i <= |bodies| == |p0| && BoxesKept(pool0, c0, treeNodes.pool, treeNodes.cursor) &&
      (forall j | i <= j < |bodies| :: home[j] < 0 && bodies[j].position == p0[j]) &&
      forall j | 0 <= j < |bodies| ::
        bodies[j].position == p0[j] || OnJitter(bodies[j].position, treeNodes.pool, treeNodes.cursor)
    }

    /** One turn of the loop of `insertBodies`: body `i` goes in below the
        root, and the bodies after it stay out of the tree. */
    method InsertNext(i: nat, bodies: seq<Body>, ghost p0: seq<Vector3>, ghost pool0: seq<OctreeNode>, ghost c0: nat)
      returns (ok: bool, ghost failure: Failure)
      requires Distinct(bodies) && i < |bodies| && Inserting(bodies, p0, pool0, c0, i)
      modifies this`parent, this`slot, this`home, treeNodes, random`seed, bodies`position
      ensures Inserting(bodies, p0, pool0, c0, if ok then i + 1 else i)
      ensures treeNodes.pool[root].box == old(treeNodes.pool[root].box)
      ensures ok ==> home[i] >= 0 && forall j | 0 <= j < |bodies| && j != i :: (home[j] >= 0 <==> old(home[j]) >= 0)
      ensures !ok ==> Failed(failure, bodies, root, MaxInsertDepth)
      ensures !ok && failure.Clash? ==> random.seed == Advance(failure.seed, JitterRetries)
    {
      ghost var pool1, c1 := treeNodes.pool, treeNodes.cursor;
      ok, failure := Insert(i, root, bodies, MaxInsertDepth);
      JitterKept(pool1, c1, treeNodes.pool, treeNodes.cursor);
    }

    /** The "poor man's protection against zero distance": three draws of
        the tree's generator, each shifted to [-0.5, 0.5) and divided by 50. */
    method NudgeApart() returns (d: Vector3)
      modifies random`seed
      ensures Jittered(d)
      ensures random.seed == Hash(Hash(Hash(old(random.seed))))
      ensures d == Vector3(Nudge(Fraction(Hash(old(random.seed)))),
                           Nudge(Fraction(Hash(Hash(old(random.seed))))),
                           Nudge(Fraction(Hash(Hash(Hash(old(random.seed)))))))
    {
      var ux := random.NextDouble();
      var uy := random.NextDouble();
      var uz := random.NextDouble();
      d := Vector3(Nudge(ux), Nudge(uy), Nudge(uz));
    }

    /** One turn of the `updateBodyForce` loop body for node `k`, without
        the queue bookkeeping. */
    method VisitNode(k: nat, src: nat, bodies: seq<Body>, sqrt: real -> real) returns (v: Visit)
      requires treeNodes.Valid() && k < treeNodes.cursor && src < |bodies|
      requires treeNodes.pool[k].body.Some? ==> treeNodes.pool[k].body.value < |bodies|
      modifies random`seed
      ensures Explains(treeNodes.pool, k, v, src, Positions(bodies), Masses(bodies), sqrt)
    {
      var node := treeNodes.pool[k];
      var source := bodies[src];
      var srcPos := source.position;
      if node.body.Some? && node.body.value != src {
        var other := bodies[node.body.value];
        var d := Sub(other.position, srcPos);
        var r := sqrt(NormSq(d));
        if r == 0.0 {
          d := NudgeApart();
          r := sqrt(NormSq(d));
        }
        v := Leaf(d, Pull(other.mass, source.mass, d, r));
      } else if node.body.None? {
        if node.mass == 0.0 {
          v := Opened(None);
        } else {
          var d := Sub(DivScalar(node.massVector, node.mass), srcPos);
          var r := sqrt(NormSq(d));
          if r == 0.0 {
            d := NudgeApart();
            r := sqrt(NormSq(d));
          }
          if Accepts(node.box.right - node.box.left, r) {
            v := Accepted(d, Pull(node.mass, source.mass, d, r));
          } else {
            v := Opened(Some(d));
          }
        }
      } else {
        v := SelfLeaf;
      }
    }

    /** The `for (int i = 0; i < 8; ++i)` of an opened node: every present
        child is appended to the queue, in slot order.  The source's
        overwrite branch for `queue.size() < pushIndex` cannot be taken,
        since the queue always holds `pushIndex + 1` entries. */
    method PushChildren(k: nat, queue: seq<nat>, pushIndex: nat, queueLength: nat)
      returns (queue': seq<nat>, pushIndex': nat, queueLength': nat)
      requires treeNodes.Valid() && k < treeNodes.cursor && |treeNodes.pool[k].quads| == 8
      requires |queue| == pushIndex + 1
      ensures queue' == queue + Children(treeNodes.pool[k].quads)
      ensures |queue'| == pushIndex' + 1
      ensures queueLength' == queueLength + |Children(treeNodes.pool[k].quads)|
    {
      var quads := treeNodes.pool[k].quads;
      queue', pushIndex', queueLength' := queue, pushIndex, queueLength;
      for i := 0 to 8
        invariant queue' == queue + Children(quads[..i])
        invariant |queue'| == pushIndex' + 1
        invariant queueLength' == queueLength + |Children(quads[..i])|
      {
        assert quads[..i + 1][..i] == quads[..i];
        if quads[i].Some? {
          if |queue'| < pushIndex' {
            assert false;
          } else {
            queue' := queue' + [quads[i].value];
          }
          queueLength' := queueLength' + 1;
          pushIndex' := pushIndex' + 1;
        }
      }
      assert quads[..8] == quads;
    }

    /** One turn of the `updateBodyForce` loop: dequeue the next node,
        visit it, queue its children when it is opened and add its pull
        otherwise. */
    method Dequeue(src: nat, bodies: seq<Body>, ghost ps: seq<Vector3>, ghost ms: seq<real>, sqrt: real -> real,
                   q: seq<nat>, ghost from: seq<nat>, ghost visits: seq<Visit>,
                   shiftIndex: nat, pushIndex: nat, queueLength: nat, f: Vector3)
      returns (q': seq<nat>, ghost from': seq<nat>, ghost visits': seq<Visit>,
               shiftIndex': nat, pushIndex': nat, queueLength': nat, f': Vector3)
      requires TreeValid(|bodies|) && src < |bodies| && ps == Positions(bodies) && ms == Masses(bodies)
      requires QueueInv(treeNodes.pool, treeNodes.cursor, root, parent, slot, home, |bodies|, q, from, visits, shiftIndex)
      requires queueLength == |q| - shiftIndex > 0 && |q| == pushIndex + 1
      requires f == SumPulls(visits) && ExplainedUpTo(q, visits, shiftIndex, src, ps, ms, sqrt)
      modifies random`seed
      ensures QueueInv(treeNodes.pool, treeNodes.cursor, root, parent, slot, home, |bodies|, q', from', visits', shiftIndex')
      ensures shiftIndex' == shiftIndex + 1
      ensures queueLength' == |q'| - shiftIndex' && |q'| == pushIndex' + 1
      ensures ExplainedUpTo(q', visits', shiftIndex', src, ps, ms, sqrt)
      ensures f' == SumPulls(visits')
    {
      var k := q[shiftIndex];
      shiftIndex' := shiftIndex + 1;
      var v := VisitNode(k, src, bodies, sqrt);
      q', from', visits', pushIndex', queueLength', f' :=
        Record(k, v, |bodies|, q, from, visits, shiftIndex, pushIndex, queueLength - 1, f);
      ExplainedSnoc(q, visits, q', visits', shiftIndex, src, ps, ms, sqrt);
    }

    /** The bookkeeping of a turn once node `k` (the head of the queue) has
        been visited as `v`: the visit is recorded, an opened node's
        children are queued and any other pull is added to `f`. */
    method Record(k: nat, v: Visit, ghost n: nat, q: seq<nat>, ghost from: seq<nat>, ghost visits: seq<Visit>,
                  shiftIndex: nat, pushIndex: nat, queueLength: nat, f: Vector3)
      returns (q': seq<nat>, ghost from': seq<nat>, ghost visits': seq<Visit>,
               pushIndex': nat, queueLength': nat, f': Vector3)
      requires treeNodes.Valid()
      requires QueueInv(treeNodes.pool, treeNodes.cursor, root, parent, slot, home, n, q, from, visits, shiftIndex)
      requires shiftIndex < |q| && k == q[shiftIndex]
      requires queueLength + 1 == |q| - shiftIndex && |q| == pushIndex + 1
      requires f == SumPulls(visits)
      ensures QueueInv(treeNodes.pool, treeNodes.cursor, root, parent, slot, home, n, q', from', visits', shiftIndex + 1)
      ensures queueLength' == |q'| - (shiftIndex + 1) && |q'| == pushIndex' + 1
      ensures |q| <= |q'| && q'[..|q|] == q && visits' == visits + [v]
      ensures f' == SumPulls(visits')
    {
      SumPullsSnoc(visits, v);
      visits' := visits + [v];
      if v.Opened? {
        q', pushIndex', queueLength' := PushChildren(k, q, pushIndex, queueLength);
        from' := from + seq(|q'| - |q|, _ => shiftIndex);
        f' := f;
        StepWithPush(treeNodes.pool, treeNodes.cursor, root, parent, slot, home, n, q, from, visits, shiftIndex, v);
      } else {
        q', from', pushIndex', queueLength' := q, from, pushIndex, queueLength;
        f' := if v.Leaf? || v.Accepted? then Add(f, v.pull) else f;
        StepWithoutPush(treeNodes.pool, treeNodes.cursor, root, parent, slot, home, n, q, from, visits, shiftIndex, v);
      }
    }

    /** One more explained visit extends the explained prefix. */
    lemma ExplainedSnoc(q: seq<nat>, visits: seq<Visit>, q': seq<nat>, visits': seq<Visit>, n: nat,
                        src: nat, ps: seq<Vector3>, ms: seq<real>, sqrt: real -> real)
      requires ExplainedUpTo(q, visits, n, src, ps, ms, sqrt)
      requires n < |q| <= |q'| && q'[..|q|] == q && |visits'| == n + 1 && visits'[..n] == visits
      requires q[n] < |treeNodes.pool| && Explains(treeNodes.pool, q[n], visits'[n], src, ps, ms, sqrt)
      ensures ExplainedUpTo(q', visits', n + 1, src, ps, ms, sqrt)
    {
      forall p | 0 <= p < n + 1
        ensures q'[p] < |treeNodes.pool| && Explains(treeNodes.pool, q'[p], visits'[p], src, ps, ms, sqrt)
      {
        assert q'[p] == q[p];
        if p < n { assert visits'[p] == visits[p]; }
      }
    }

    /** The first `n` dequeued nodes are explained by their visits. */
    ghost predicate ExplainedUpTo(q: seq<nat>, visits: seq<Visit>, n: nat, src: nat, ps: seq<Vector3>, ms: seq<real>,
                                  sqrt: real -> real)
      reads this, treeNodes
    {
      n <= |q| && n <= |visits| && src < |ps| == |ms| &&
      forall p | 0 <= p < n :: q[p] < |treeNodes.pool| && Explains(treeNodes.pool, q[p], visits[p], src, ps, ms, sqrt)
    }

    /** The FIFO walk of `updateBodyForce`, up to the point where the queue
        is empty; `f` is the summed pull. */
    method Walk(src: nat, bodies: seq<Body>, ghost ps: seq<Vector3>, ghost ms: seq<real>, sqrt: real -> real)
      returns (q: seq<nat>, ghost from: seq<nat>, ghost visits: seq<Visit>, f: Vector3)
      requires TreeValid(|bodies|) && src < |bodies| && ps == Positions(bodies) && ms == Masses(bodies)
      modifies random`seed
      ensures CompleteWalk(View(), q, visits, from, src, ps, ms, sqrt)
      ensures f == SumPulls(visits)
    {
      var shiftIndex := 0;
      var pushIndex := 0;
      f := Zero();
      var queueLength := 1;
      q := [root];
      from := [0];
      visits := [];
      while queueLength > 0
        modifies random`seed
        invariant QueueInv(treeNodes.pool, treeNodes.cursor, root, parent, slot, home, |bodies|, q, from, visits, shiftIndex)
        invariant queueLength == |q| - shiftIndex && |q| == pushIndex + 1
        invariant ExplainedUpTo(q, visits, shiftIndex, src, ps, ms, sqrt)
        invariant f == SumPulls(visits)
        decreases treeNodes.cursor - shiftIndex
      {
        q, from, visits, shiftIndex, pushIndex, queueLength, f :=
          Dequeue(src, bodies, ps, ms, sqrt, q, from, visits, shiftIndex, pushIndex, queueLength, f);
      }
      QueueDrained(treeNodes.pool, treeNodes.cursor, root, parent, slot, home, |bodies|, q, from, visits);
    }

    /** The tree as a walk sees it. */
    ghost function View(): TreeView
      reads this, treeNodes
    {
      TreeView(treeNodes.pool, treeNodes.cursor, root, parent, slot, home)
    }

    /** `updateBodyForce(sourceBody)` for body `src`: a FIFO walk from the
        root that skips the source's own leaf, takes the pull of every other
        leaf and of every internal node that passes the theta test, and
        queues the children of every other internal node; the summed pull
        is added to the force the body already has.  `queue` lists the
        nodes in the order they were dequeued, `visits` what each did, and
        `from` the position of each node's opened parent. */
    method UpdateBodyForce(src: nat, bodies: seq<Body>, sqrt: real -> real)
      returns (ghost queue: seq<nat>, ghost visits: seq<Visit>, ghost from: seq<nat>)
      requires TreeValid(|bodies|) && src < |bodies|
      modifies random`seed, {bodies[src]}`force
      ensures CompleteWalk(View(), queue, visits, from, src, Positions(bodies), Masses(bodies), sqrt)
      ensures bodies[src].force == Add(old(bodies[src].force), SumPulls(visits))
    {
      var f;
      ghost var q;
      ghost var ps, ms := Positions(bodies), Masses(bodies);
      q, from, visits, f := Walk(src, bodies, ps, ms, sqrt);
      bodies[src].SetForce(Add(bodies[src].force, f));
      queue := q;
      assert ps == Positions(bodies) && ms == Masses(bodies);
    }
  }
}
