/** CLayout of src/layout.cpp: the body vector, the layout's own random
    stream and the octree, and the loading, force and integration passes
    over them.  File contents arrive as sequences of ints; the square root
    is a parameter. */
module Layouts {
  import opened Wrappers
  import opened Primitives
  import opened JenkinsRandom
  import opened Bodies
  import opened LayoutSettings
  import opened BarnesHut
  import opened Octrees
  import opened LayoutMath

  /** The seed of `m_Random`. */
  const LayoutSeed: bv64 := 42

  /** A body as `resize` creates it. */
  ghost predicate Blank(b: Body)
    reads b
  {
    b.mass == 1.0 && b.position == Zero() && b.force == Zero() && b.velocity == Zero() &&
    b.incomingLinks == 0 && b.springs == []
  }

  /** Body `v` as `load_links` leaves it after reading `links`. */
  ghost predicate Decoded(b: Body, links: seq<int>, v: int)
    reads b
  {
    b.mass == 1.0 && b.position == Zero() && b.force == Zero() && b.velocity == Zero() &&
    b.springs == SpringsOf(links, v) && b.incomingLinks == |SpringsOf(links, v)| + InCount(links, v)
  }

  /** The `i`-th triple of a positions file, as reals. */
  function Triple(positions: seq<int>, i: nat): Vector3
    requires 3 * i + 2 < |positions|
  {
    Vector3(positions[3 * i] as real, positions[3 * i + 1] as real, positions[3 * i + 2] as real)
  }

  /** What one spring from a body at `srcPos` to a body at `dstPos` did:
      its offset is the difference of the positions, or jitter when the
      square root of that difference's squared length is 0; its pull is
      the offset scaled by the spring coefficient of the offset's length. */
  ghost predicate SpringExplains(srcPos: Vector3, dstPos: Vector3, offset: Vector3, pull: Vector3,
                                 sqrt: real -> real)
  {
    var d := Sub(dstPos, srcPos);
    (sqrt(NormSq(d)) != 0.0 ==> offset == d) &&
    (sqrt(NormSq(d)) == 0.0 ==> Jittered(offset)) &&
    pull == Scale(offset, SpringCoefficient(sqrt(NormSq(offset))))
  }

  /** The springs `s` of body `j` did what `SpringExplains` says, with
      body `m` at `pos[m]`: spring `k` reached a body of the layout, took
      offset `os[k]` and pulled by `ps[k]`. */
  ghost predicate BodySprings(s: seq<int>, j: nat, os: seq<Vector3>, ps: seq<Vector3>, pos: seq<Vector3>,
                              sqrt: real -> real)
  {
    j < |pos| && |os| == |ps| == |s| &&
    forall k {:trigger ps[k]} | 0 <= k < |ps| ::
      0 <= s[k] < |pos| && SpringExplains(pos[j], pos[s[k]], os[k], ps[k], sqrt)
  }

  /** Every spring of every body did what `SpringExplains` says, for bodies
      with spring lists `ss` at positions `pos`. */
  ghost predicate SpringsExplained(ss: seq<seq<int>>, offsets: seq<seq<Vector3>>, pulls: seq<seq<Vector3>>,
                                   pos: seq<Vector3>, sqrt: real -> real)
  {
    |ss| == |pos| && SpringInputs(|ss|, ss, pulls) && |offsets| == |pulls| == |ss| &&
    forall j {:trigger pulls[j]} | 0 <= j < |ss| :: BodySprings(ss[j], j, offsets[j], pulls[j], pos, sqrt)
  }

  /** The springs of every body below `|pulls|`, on the spring lists `ss`,
      did what `SpringExplains` says. */
  ghost predicate SpringsUpTo(ss: seq<seq<int>>, offsets: seq<seq<Vector3>>, pulls: seq<seq<Vector3>>,
                              pos: seq<Vector3>, sqrt: real -> real)
    requires |offsets| == |pulls| <= |ss|
    decreases |pulls|
  {
    var n := |pulls| - 1;
    |pulls| == 0 ||
    (SpringsUpTo(ss, offsets[..n], pulls[..n], pos, sqrt) && BodySprings(ss[n], n, offsets[n], pulls[n], pos, sqrt))
  }

  /** `SpringsUpTo` says each body below `|pulls|` did what `BodySprings` says. */
  lemma {:induction false} SpringsUpToEach(ss: seq<seq<int>>, offsets: seq<seq<Vector3>>, pulls: seq<seq<Vector3>>,
                                           pos: seq<Vector3>, sqrt: real -> real)
    requires |offsets| == |pulls| <= |ss| && SpringsUpTo(ss, offsets, pulls, pos, sqrt)
    ensures forall j {:trigger pulls[j]} | 0 <= j < |pulls| :: BodySprings(ss[j], j, offsets[j], pulls[j], pos, sqrt)
    decreases |pulls|
  {
    if |pulls| > 0 {
      var n := |pulls| - 1;
      SpringsUpToEach(ss, offsets[..n], pulls[..n], pos, sqrt);
    }
  }

  /** One more body's springs extend `SpringsUpTo`. */
  lemma SpringsUpToSnoc(ss: seq<seq<int>>, offsets: seq<seq<Vector3>>, pulls: seq<seq<Vector3>>, os: seq<Vector3>,
                        ps: seq<Vector3>, pos: seq<Vector3>, sqrt: real -> real)
    requires |offsets| == |pulls| < |ss| && SpringsUpTo(ss, offsets, pulls, pos, sqrt)
    requires BodySprings(ss[|pulls|], |pulls|, os, ps, pos, sqrt)
    ensures SpringsUpTo(ss, offsets + [os], pulls + [ps], pos, sqrt)
  {
    assert (offsets + [os])[..|pulls|] == offsets && (pulls + [ps])[..|pulls|] == pulls;
  }

  /** Walk `j` is the complete tree walk of body `j`, for every body, with
      body `j` at `ps[j]` and of mass `ms[j]`. */
  ghost predicate WalksExplained(t: TreeView, queues: seq<seq<nat>>, walks: seq<seq<Visit>>, froms: seq<seq<nat>>,
                                 ps: seq<Vector3>, ms: seq<real>, sqrt: real -> real)
  {
    |queues| == |walks| == |froms| == |ps| &&
    forall j {:trigger queues[j]} | 0 <= j < |ps| ::
      CompleteWalk(t, queues[j], walks[j], froms[j], j, ps, ms, sqrt)
  }

  /** Walk `j` is the complete tree walk of body `j`, for every `j` below
      `|queues|`. */
  ghost predicate Walks(t: TreeView, queues: seq<seq<nat>>, walks: seq<seq<Visit>>, froms: seq<seq<nat>>,
                        ps: seq<Vector3>, ms: seq<real>, sqrt: real -> real)
    requires |queues| == |walks| == |froms| <= |ps|
    decreases |queues|
  {
    var n := |queues| - 1;
    |queues| == 0 ||
    (Walks(t, queues[..n], walks[..n], froms[..n], ps, ms, sqrt) &&
     CompleteWalk(t, queues[n], walks[n], froms[n], n, ps, ms, sqrt))
  }

  /** One more complete walk extends `Walks`. */
  lemma WalksSnoc(t: TreeView, queues: seq<seq<nat>>, walks: seq<seq<Visit>>, froms: seq<seq<nat>>,
                  queue: seq<nat>, visits: seq<Visit>, from: seq<nat>, ps: seq<Vector3>, ms: seq<real>,
                  sqrt: real -> real)
    requires |queues| == |walks| == |froms| < |ps| && Walks(t, queues, walks, froms, ps, ms, sqrt)
    requires CompleteWalk(t, queue, visits, from, |queues|, ps, ms, sqrt)
    ensures Walks(t, queues + [queue], walks + [visits], froms + [from], ps, ms, sqrt)
  {
    assert (queues + [queue])[..|queues|] == queues && (walks + [visits])[..|walks|] == walks;
    assert (froms + [from])[..|froms|] == froms;
  }

  /** `Walks` says each walk below `|queues|` is complete. */
  lemma {:induction false} WalksEach(t: TreeView, queues: seq<seq<nat>>, walks: seq<seq<Visit>>,
                                     froms: seq<seq<nat>>, ps: seq<Vector3>, ms: seq<real>, sqrt: real -> real)
    requires |queues| == |walks| == |froms| <= |ps| && Walks(t, queues, walks, froms, ps, ms, sqrt)
    ensures forall j {:trigger queues[j]} | 0 <= j < |queues| ::
      CompleteWalk(t, queues[j], walks[j], froms[j], j, ps, ms, sqrt)
    decreases |queues|
  {
    if |queues| > 0 {
      var n := |queues| - 1;
      WalksEach(t, queues[..n], walks[..n], froms[..n], ps, ms, sqrt);
    }
  }

  /** `dragged[j]` is the summed pull of walk `j` after drag at velocity
      `vs[j]`, for every body. */
  predicate DraggedPulls(walks: seq<seq<Visit>>, dragged: seq<Vector3>, vs: seq<Vector3>) {
    |walks| == |dragged| == |vs| &&
    forall j {:trigger dragged[j]} | 0 <= j < |vs| :: dragged[j] == Drag(SumPulls(walks[j]), vs[j])
  }

  /** What the first loop of `accumulate` leaves, for bodies at `ps`, of
      masses `ms` and moving at `vs`: walk `j` is the complete walk of
      `t` for body `j`, and `dragged[j]` its summed pull after drag. */
  ghost predicate GravityDone(t: TreeView, queues: seq<seq<nat>>, walks: seq<seq<Visit>>, froms: seq<seq<nat>>,
                              dragged: seq<Vector3>, ps: seq<Vector3>, ms: seq<real>, vs: seq<Vector3>,
                              sqrt: real -> real)
  {
    WalksExplained(t, queues, walks, froms, ps, ms, sqrt) && DraggedPulls(walks, dragged, vs)
  }

  class Layout {
    var random: Random
    var bodies: seq<Body>
    var tree: Octree

    /** The bodies are distinct objects and every spring names one of them. */
    ghost predicate Valid()
      reads this, bodies`springs
    {
      Distinct(bodies) &&
      forall i, k | 0 <= i < |bodies| && 0 <= k < |bodies[i].springs| :: 0 <= bodies[i].springs[k] < |bodies|
    }

    /** The member initialisers: `m_Random(42)`, an empty body vector and a
        fresh octree. */
    constructor()
      ensures fresh(random) && random.seed == LayoutSeed
      ensures bodies == []
      ensures fresh(tree) && fresh(tree.random) && fresh(tree.treeNodes)
      ensures tree.random.seed == OctreeSeed && tree.treeNodes.pool == [] && tree.treeNodes.cursor == 0
    {
      random := new Random(LayoutSeed);
      bodies := [];
      tree := new Octree();
    }

    /** `load_links` on the file's content: an empty list is an error;
        otherwise there is one body per vertex up to the largest absolute
        entry, and each entry is decoded in turn. */
    method LoadLinks(links: seq<int>) returns (o: Outcome<string>)
      requires bodies == [] && LinkEntries(links)
      modifies this`bodies
      ensures o.Fail? <==> links == []
      ensures o.Fail? ==> o.error == "Graph has no links" && bodies == []
      ensures o.Pass? ==> Valid() && |bodies| == MaxAbs(links)
      ensures o.Pass? ==> forall v | 0 <= v < |bodies| :: fresh(bodies[v]) && Decoded(bodies[v], links, v)
    {
      if |links| == 0 {
        return Fail("Graph has no links");
      }
      var n := MaxAbs(links);
      var bs: seq<Body> := [];
      while |bs| < n
        invariant |bs| <= n && Distinct(bs)
        invariant forall j | 0 <= j < |bs| :: fresh(bs[j]) && Blank(bs[j])
      {
        var b := new Body();
        DistinctSnoc(bs, b);
        bs := bs + [b];
      }
      bodies := bs;
      var from := 0;
      for i := 0 to |links|
        invariant |bodies| == n && Distinct(bodies)
        invariant from == From(links[..i])
        invariant forall v | 0 <= v < n :: fresh(bodies[v]) && Decoded(bodies[v], links[..i], v)
      {
        from := DecodeEntry(links, i, from);
      }
      assert links[..|links|] == links;
      forall v | 0 <= v < n
        ensures forall k | 0 <= k < |bodies[v].springs| :: 0 <= bodies[v].springs[k] < n
      {
        SpringTargetsInRange(links, |links|, v);
      }
      o := Pass;
    }

    /** One pass of the `load_links` loop: a negative entry `-k` makes
        `k - 1` the source; a positive entry `m` pushes the spring `m - 1`
        onto the source and counts the edge at its target. */
    method DecodeEntry(links: seq<int>, i: nat, from: int) returns (next: int)
      requires LinkEntries(links) && i < |links| && Distinct(bodies) && |bodies| == MaxAbs(links)
      requires from == From(links[..i])
      requires forall v | 0 <= v < |bodies| :: Decoded(bodies[v], links[..i], v)
      modifies bodies`springs, bodies`incomingLinks
      ensures next == From(links[..i + 1])
      ensures forall v | 0 <= v < |bodies| :: Decoded(bodies[v], links[..i + 1], v)
    {
      DecodeStep(links, i, from);
      var index := links[i];
      next := from;
      if index < 0 {
        index := -index;
        next := index - 1;
        forall v | 0 <= v < |bodies|
          ensures Decoded(bodies[v], links[..i + 1], v)
        {
          DecodeStep(links, i, v);
        }
      } else {
        PushLink(links, i, from);
      }
    }

    /** A positive entry `m` of `load_links`: the spring `m - 1` is pushed
        onto the source `from`, and the edge is counted at its target. */
    method PushLink(links: seq<int>, i: nat, from: int)
      requires LinkEntries(links) && i < |links| && links[i] > 0 && Distinct(bodies) && |bodies| == MaxAbs(links)
      requires from == From(links[..i])
      requires forall v | 0 <= v < |bodies| :: Decoded(bodies[v], links[..i], v)
      modifies bodies`springs, bodies`incomingLinks
      ensures forall v | 0 <= v < |bodies| :: Decoded(bodies[v], links[..i + 1], v)
    {
      var to := links[i] - 1;
      SourceInRange(links, i);
      assert IntAbs(links[i]) <= MaxAbs(links);
      DistinctAt(bodies, from);
      DistinctAt(bodies, to);
      bodies[from].PushSprings(to);
      bodies[to].IncInEdges();
      forall v | 0 <= v < |bodies|
        ensures Decoded(bodies[v], links[..i + 1], v)
      {
        DecodeStep(links, i, v);
      }
    }
    /** `load_positions(path)` on the file's content: body `i` is placed at
        the ints `3i`, `3i + 1`, `3i + 2`.  The source reads past the end
        of a short file, so enough entries are required. */
    method LoadPositions(positions: seq<int>)
      requires Valid() && |positions| >= 3 * |bodies|
      modifies bodies`position
      ensures forall i | 0 <= i < |bodies| :: bodies[i].position == Triple(positions, i)
    {
      for i := 0 to |bodies|
        invariant forall j | 0 <= j < i :: bodies[j].position == Triple(positions, j)
      {
        DistinctAt(bodies, i);
        bodies[i].SetPosition(Vector3(positions[i * 3 + 0] as real, positions[i * 3 + 1] as real,
                                      positions[i * 3 + 2] as real));
      }
    }

    /** `load_weights(path)` on the file's content: no weights, or a count
        other than the body count, is an error that leaves every mass as it
        was; otherwise body `i` gets mass `weights[i]`. */
    method LoadWeights(weights: seq<int>) returns (o: Outcome<string>)
      requires Valid()
      modifies bodies`mass
      ensures weights == [] ==> o == Fail("Has no weights")
      ensures weights != [] && |weights| != |bodies| ==> o == Fail("Wrong weights for current graph")
      ensures o.Pass? <==> weights != [] && |weights| == |bodies|
      ensures o.Fail? ==> forall i | 0 <= i < |bodies| :: bodies[i].mass == old(bodies[i].mass)
      ensures o.Pass? ==> forall i | 0 <= i < |bodies| :: bodies[i].mass == weights[i] as real
    {
      if |weights| == 0 {
        return Fail("Has no weights");
      }
      if |weights| != |bodies| {
        return Fail("Wrong weights for current graph");
      }
      for i := 0 to |bodies|
        invariant forall j | 0 <= j < i :: bodies[j].mass == weights[j] as real
      {
        DistinctAt(bodies, i);
        bodies[i].SetMass(weights[i] as real);
      }
      o := Pass;
    }

    /** `init_weights`: every body gets the default mass of its spring and
        incoming-link counts. */
    method InitWeights()
      requires Valid()
      modifies bodies`mass
      ensures forall i | 0 <= i < |bodies| ::
        bodies[i].mass == DefaultMass(|bodies[i].springs|, bodies[i].incomingLinks)
    {
      for i := 0 to |bodies|
        invariant forall j | 0 <= j < i ::
          bodies[j].mass == DefaultMass(|bodies[j].springs|, bodies[j].incomingLinks)
      {
        var body := bodies[i];
        body.SetMass(DefaultMass(|body.springs|, body.incomingLinks));
      }
    }

    /** `updateDragForce(body)`. */
    method UpdateDragForce(body: Body)
      modifies body`force
      ensures body.force == Drag(old(body.force), body.velocity)
    {
      var force := body.force;
      var velocity := body.velocity;
      body.SetForce(Vector3(force.x - DragCoeff * velocity.x, force.y - DragCoeff * velocity.y,
                            force.z - DragCoeff * velocity.z));
    }
    /** `updateSpringForce(source)` for body `src`: spring `k` adds its pull
        to the source's force and takes it from the target's, in order. */
    method UpdateSpringForce(src: nat, sqrt: real -> real)
      returns (ghost offsets: seq<Vector3>, ghost pulls: seq<Vector3>)
      requires Valid() && src < |bodies|
      modifies random`seed, bodies`force
      ensures Valid() && BodySprings(bodies[src].springs, src, offsets, pulls, Positions(bodies), sqrt)
      ensures Forces(bodies) == ApplySprings(old(Forces(bodies)), src, bodies[src].springs, pulls)
      ensures unchanged(bodies`position, bodies`springs)
    {
      var source := bodies[src];
      var springs := source.springs;
      ghost var pos := Positions(bodies);
      offsets, pulls := [], [];
      for k := 0 to |springs|
        invariant |offsets| == |pulls| == k
        invariant forall j {:trigger pulls[j]} | 0 <= j < k ::
          SpringExplains(pos[src], pos[springs[j]], offsets[j], pulls[j], sqrt)
        invariant Forces(bodies) == ApplySprings(old(Forces(bodies)), src, springs[..k], pulls)
      {
        var offset, pull := SpringTurn(src, k, sqrt, pos, old(Forces(bodies)), offsets, pulls);
        offsets, pulls := offsets + [offset], pulls + [pull];
      }
      assert springs[..|springs|] == springs && pos == Positions(bodies);
    }

    /** Spring `k` of body `src`, after the springs before it; `pos` are the
        positions, which it leaves alone. */
    method SpringTurn(src: nat, k: nat, sqrt: real -> real, ghost pos: seq<Vector3>, ghost start: seq<Vector3>,
                      ghost offsets: seq<Vector3>, ghost pulls: seq<Vector3>)
      returns (offset: Vector3, pull: Vector3)
      requires Valid() && src < |bodies| && k == |offsets| == |pulls| < |bodies[src].springs| && |start| == |bodies|
      requires pos == Positions(bodies)
      requires forall j {:trigger pulls[j]} | 0 <= j < |pulls| ::
        SpringExplains(pos[src], pos[bodies[src].springs[j]], offsets[j], pulls[j], sqrt)
      requires Forces(bodies) == ApplySprings(start, src, bodies[src].springs[..|pulls|], pulls)
      modifies random`seed, bodies`force
      ensures forall j {:trigger (pulls + [pull])[j]} | 0 <= j <= |pulls| ::
        SpringExplains(pos[src], pos[bodies[src].springs[j]], (offsets + [offset])[j], (pulls + [pull])[j], sqrt)
      ensures Forces(bodies) == ApplySprings(start, src, bodies[src].springs[..|pulls| + 1], pulls + [pull])
    {
      var springs := bodies[src].springs;
      offset, pull := SpringStep(src, springs[k], sqrt);
      assert springs[..k + 1][..k] == springs[..k];
      assert (pulls + [pull])[..k] == pulls;
    }

    /** One spring of `updateSpringForce`: the offset from the source to
        the target (jittered when its length is 0), the coefficient of its
        length, and the equal and opposite updates of the two forces. */
    method SpringStep(src: nat, dst: nat, sqrt: real -> real) returns (offset: Vector3, pull: Vector3)
      requires Valid() && src < |bodies| && dst < |bodies|
      modifies random`seed, {bodies[src], bodies[dst]}`force
      ensures SpringExplains(bodies[src].position, bodies[dst].position, offset, pull, sqrt)
      ensures var f := old(Forces(bodies)); var g := f[src := Add(f[src], pull)];
        Forces(bodies) == g[dst := Sub(g[dst], pull)]
    {
      DistinctAt(bodies, src);
      DistinctAt(bodies, dst);
      var source, body2 := bodies[src], bodies[dst];
      offset := SpringOffset(source.position, body2.position, sqrt);
      var r := sqrt(NormSq(offset));
      var coeff := SpringCoefficient(r);
      pull := Scale(offset, coeff);
      ghost var f := Forces(bodies);
      source.SetForce(Add(source.force, pull));
      ghost var g := Forces(bodies);
      assert g == f[src := Add(f[src], pull)];
      body2.SetForce(Sub(body2.force, pull));
      assert Forces(bodies) == g[dst := Sub(g[dst], pull)];
    }

    /** The offset of a spring: the difference of the positions or, when
        its length is 0, three nudges drawn from the layout's generator. */
    method SpringOffset(srcPos: Vector3, dstPos: Vector3, sqrt: real -> real) returns (offset: Vector3)
      modifies random`seed
      ensures var d := Sub(dstPos, srcPos);
        (sqrt(NormSq(d)) != 0.0 ==> offset == d) && (sqrt(NormSq(d)) == 0.0 ==> Jittered(offset))
    {
      offset := Sub(dstPos, srcPos);
      var r := sqrt(NormSq(offset));
      if r == 0.0 {
        var ux := random.NextDouble();
        var uy := random.NextDouble();
        var uz := random.NextDouble();
        offset := Vector3(Nudge(ux), Nudge(uy), Nudge(uz));
      }
    }

    /** `accumulate`: the tree is rebuilt over the bodies; each body's force
        is reset, set to the tree's pull and then dragged; finally every
        body's springs act, in body order.  `stop` and `failure` are what
        `insertBodies` reports, `queues`, `walks` and `froms` the tree walk
        of each body, `dragged` the forces after drag, and `offsets` and
        `pulls` the springs' offsets and pulls; the walks and the springs
        see the positions the tree left. */
    method Accumulate(sqrt: real -> real)
      returns (ghost stop: nat, ghost failure: Failure, ghost queues: seq<seq<nat>>, ghost walks: seq<seq<Visit>>,
               ghost froms: seq<seq<nat>>, ghost dragged: seq<Vector3>,
               ghost offsets: seq<seq<Vector3>>, ghost pulls: seq<seq<Vector3>>)
      requires Valid()
      modifies tree, tree.treeNodes, tree.random`seed, random`seed, bodies`position, bodies`force
      ensures Valid() && tree.treeNodes.Valid() && Built(tree.View(), old(Positions(bodies)), Positions(bodies), stop)
      ensures stop < |bodies| ==> tree.Failed(failure, bodies, tree.root, MaxInsertDepth)
      ensures GravityDone(tree.View(), queues, walks, froms, dragged, Positions(bodies), Masses(bodies), Velocities(bodies), sqrt)
      ensures SpringsExplained(SpringLists(bodies), offsets, pulls, Positions(bodies), sqrt)
      ensures Forces(bodies) == SpringPass(dragged, SpringLists(bodies), pulls)
    {
      stop, failure, queues, walks, froms, dragged := TreeForces(sqrt);
      ghost var ps, ms, vs, t := Positions(bodies), Masses(bodies), Velocities(bodies), tree.View();
      offsets, pulls := AllSprings(sqrt);
      assert ps == Positions(bodies) && ms == Masses(bodies) && vs == Velocities(bodies) && t == tree.View();
    }

    /** The tree part of `accumulate`: `insertBodies`, then the first loop
        over the positions the tree left. */
    method TreeForces(sqrt: real -> real)
      returns (ghost stop: nat, ghost failure: Failure, ghost queues: seq<seq<nat>>, ghost walks: seq<seq<Visit>>,
               ghost froms: seq<seq<nat>>, ghost dragged: seq<Vector3>)
      requires Valid()
      modifies tree, tree.treeNodes, tree.random`seed, bodies`position, bodies`force
      ensures Valid() && tree.treeNodes.Valid() && Built(tree.View(), old(Positions(bodies)), Positions(bodies), stop)
      ensures stop < |bodies| ==> tree.Failed(failure, bodies, tree.root, MaxInsertDepth)
      ensures GravityDone(tree.View(), queues, walks, froms, dragged, Positions(bodies), Masses(bodies), Velocities(bodies), sqrt)
      ensures Forces(bodies) == dragged
    {
      stop, failure := tree.InsertBodies(bodies);
      ghost var ps := Positions(bodies);
      queues, walks, froms, dragged := GravityAndDrag(sqrt);
      assert ps == Positions(bodies);
    }

    /** The first loop of `accumulate`. */
    method GravityAndDrag(sqrt: real -> real)
      returns (ghost queues: seq<seq<nat>>, ghost walks: seq<seq<Visit>>, ghost froms: seq<seq<nat>>,
               ghost dragged: seq<Vector3>)
      requires Valid() && tree.TreeValid(|bodies|)
      modifies tree.random`seed, bodies`force
      ensures Valid()
      ensures GravityDone(tree.View(), queues, walks, froms, dragged, Positions(bodies), Masses(bodies), Velocities(bodies), sqrt)
      ensures Forces(bodies) == dragged
      ensures unchanged(tree, tree.treeNodes, bodies`position) && Positions(bodies) == old(Positions(bodies))
    {
      queues, walks, froms, dragged := [], [], [], [];
      ghost var ps, ms, t := Positions(bodies), Masses(bodies), tree.View();
      for i := 0 to |bodies|
        invariant |queues| == |walks| == |froms| == |dragged| == i
        invariant tree.View() == t && Walks(t, queues, walks, froms, ps, ms, sqrt)
        invariant DraggedUpTo(i, walks, dragged)
      {
        queues, walks, froms, dragged := GravityTurn(i, sqrt, t, ps, ms, queues, walks, froms, dragged);
      }
      WalksEach(t, queues, walks, froms, ps, ms, sqrt);
      assert ps == Positions(bodies) && ms == Masses(bodies);
    }

    /** Bodies below `i` hold the forces `dragged`: the tree's pull from
        their walks, after drag. */
    ghost predicate DraggedUpTo(i: nat, walks: seq<seq<Visit>>, dragged: seq<Vector3>)
      reads this, bodies`force, bodies`velocity
    {
      i <= |walks| && i <= |dragged| && i <= |bodies| &&
      forall j {:trigger dragged[j]} | 0 <= j < i ::
        bodies[j].force == dragged[j] && dragged[j] == Drag(SumPulls(walks[j]), bodies[j].velocity)
    }

    /** One turn of the first loop of `accumulate`, for body `i`. */
    method GravityTurn(i: nat, sqrt: real -> real, ghost t: TreeView, ghost ps: seq<Vector3>, ghost ms: seq<real>,
                       ghost queues: seq<seq<nat>>, ghost walks: seq<seq<Visit>>, ghost froms: seq<seq<nat>>,
                       ghost dragged: seq<Vector3>)
      returns (ghost queues': seq<seq<nat>>, ghost walks': seq<seq<Visit>>, ghost froms': seq<seq<nat>>,
               ghost dragged': seq<Vector3>)
      requires Valid() && tree.TreeValid(|bodies|) && t == tree.View()
      requires ps == Positions(bodies) && ms == Masses(bodies)
      requires i == |queues| == |walks| == |froms| == |dragged| < |bodies|
      requires Walks(t, queues, walks, froms, ps, ms, sqrt)
      requires DraggedUpTo(i, walks, dragged)
      modifies tree.random`seed, bodies`force
      ensures tree.View() == t && |queues'| == |walks'| == |froms'| == |dragged'| == i + 1
      ensures Walks(t, queues', walks', froms', ps, ms, sqrt)
      ensures DraggedUpTo(i + 1, walks', dragged')
    {
      DistinctAt(bodies, i);
      ghost var queue, visits, from := BodyForce(i, sqrt, t, ps, ms);
      assert Walks(t, queues, walks, froms, ps, ms, sqrt);
      WalksSnoc(t, queues, walks, froms, queue, visits, from, ps, ms, sqrt);
      queues', walks', froms', dragged' := queues + [queue], walks + [visits], froms + [from], dragged + [bodies[i].force];
    }

    /** The body of the first loop of `accumulate` for body `i`: its force
        is reset, `updateBodyForce` adds the pull of its complete walk of
        the tree, and `updateDragForce` drags it. */
    method BodyForce(i: nat, sqrt: real -> real, ghost t: TreeView, ghost ps: seq<Vector3>, ghost ms: seq<real>)
      returns (ghost queue: seq<nat>, ghost visits: seq<Visit>, ghost from: seq<nat>)
      requires Valid() && tree.TreeValid(|bodies|) && i < |bodies| && t == tree.View()
      requires ps == Positions(bodies) && ms == Masses(bodies)
      modifies tree.random`seed, {bodies[i]}`force
      ensures tree.View() == t && CompleteWalk(t, queue, visits, from, i, ps, ms, sqrt)
      ensures bodies[i].force == Drag(SumPulls(visits), bodies[i].velocity)
    {
      var body := bodies[i];
      body.ResetForce();
      queue, visits, from := tree.UpdateBodyForce(i, bodies, sqrt);
      assert Add(Zero(), SumPulls(visits)) == SumPulls(visits);
      UpdateDragForce(body);
    }

    /** The second loop of `accumulate` after `i` bodies: the spring lists
        are `lists`, the positions are `pos`, the springs of the bodies below
        `i` are explained by `offsets` and `pulls`, and the forces are
        `start` with those pulls applied. */
    ghost predicate Springing(i: nat, sqrt: real -> real, start: seq<Vector3>, lists: seq<seq<int>>,
                              pos: seq<Vector3>, offsets: seq<seq<Vector3>>, pulls: seq<seq<Vector3>>)
      reads this, bodies`springs, bodies`position, bodies`force
    {
      Valid() && i == |offsets| == |pulls| <= |bodies| && |start| == |bodies| &&
      SpringLists(bodies) == lists && Positions(bodies) == pos && SpringInputs(|bodies|, lists, pulls) &&
      SpringsUpTo(lists, offsets, pulls, pos, sqrt) &&
      Forces(bodies) == SpringPass(start, lists, pulls)
    }

    /** One turn of the second loop of `accumulate`, for body `i`; `lists`
        and `pos` are the spring lists and the positions, which it leaves alone. */
    method SpringRound(i: nat, sqrt: real -> real, ghost start: seq<Vector3>, ghost lists: seq<seq<int>>,
                       ghost pos: seq<Vector3>, ghost offsets: seq<seq<Vector3>>, ghost pulls: seq<seq<Vector3>>)
      returns (ghost offsets': seq<seq<Vector3>>, ghost pulls': seq<seq<Vector3>>)
      requires i < |bodies| && Springing(i, sqrt, start, lists, pos, offsets, pulls)
      modifies random`seed, bodies`force
      ensures Springing(i + 1, sqrt, start, lists, pos, offsets', pulls')
    {
      var os, ps := UpdateSpringForce(i, sqrt);
      assert SpringLists(bodies) == lists && Positions(bodies) == pos;
      SpringInputsSnoc(|bodies|, lists, pulls, ps);
      SpringPassSnoc(start, lists, pulls, ps);
      SpringsUpToSnoc(lists, offsets, pulls, os, ps, pos, sqrt);
      offsets', pulls' := offsets + [os], pulls + [ps];
    }

    /** The second loop of `accumulate`. */
    method AllSprings(sqrt: real -> real) returns (ghost offsets: seq<seq<Vector3>>, ghost pulls: seq<seq<Vector3>>)
      requires Valid()
      modifies random`seed, bodies`force
      ensures Valid() && SpringsExplained(SpringLists(bodies), offsets, pulls, Positions(bodies), sqrt)
      ensures Forces(bodies) == SpringPass(old(Forces(bodies)), SpringLists(bodies), pulls)
      ensures unchanged(tree, tree.treeNodes, bodies`position) && tree.View() == old(tree.View())
      ensures Positions(bodies) == old(Positions(bodies)) && Masses(bodies) == old(Masses(bodies))
      ensures Velocities(bodies) == old(Velocities(bodies))
    {
      offsets, pulls := SpringLoop(sqrt);
      SpringsUpToEach(SpringLists(bodies), offsets, pulls, Positions(bodies), sqrt);
    }

    /** The loop of `AllSprings`. */
    method SpringLoop(sqrt: real -> real) returns (ghost offsets: seq<seq<Vector3>>, ghost pulls: seq<seq<Vector3>>)
      requires Valid()
      modifies random`seed, bodies`force
      ensures Valid() && |offsets| == |pulls| == |bodies|
      ensures SpringsUpTo(SpringLists(bodies), offsets, pulls, Positions(bodies), sqrt)
      ensures SpringInputs(|bodies|, SpringLists(bodies), pulls)
      ensures Forces(bodies) == SpringPass(old(Forces(bodies)), SpringLists(bodies), pulls)
      ensures Positions(bodies) == old(Positions(bodies)) && unchanged(bodies`mass, bodies`velocity)
    {
      offsets, pulls := [], [];
      ghost var lists, pos := SpringLists(bodies), Positions(bodies);
      for i := 0 to |bodies|
        invariant Springing(i, sqrt, old(Forces(bodies)), lists, pos, offsets, pulls)
      {
        offsets, pulls := SpringRound(i, sqrt, old(Forces(bodies)), lists, pos, offsets, pulls);
      }
    }

    /** `integrate`: each body's velocity takes the step `timeStep / mass`
        times its force and is capped at length 1, then the body moves by
        `timeStep` times that velocity.  The result is the squared length of
        the summed absolute displacements over the body count; with no
        bodies it is 0 / 0, a NaN, written `None`. */
    method Integrate(sqrt: real -> real) returns (movement: Option<real>, ghost ds: seq<Vector3>)
      requires Valid() && forall j | 0 <= j < |bodies| :: bodies[j].mass != 0.0
      modifies bodies`velocity, bodies`position
      ensures Advanced(old(Velocities(bodies)), ds, sqrt) && Moved(old(Positions(bodies)), ds)
      ensures movement == if |bodies| == 0 then None else Some(Movement(ds))
      ensures unchanged(bodies`force, bodies`springs, bodies`mass)
    {
      var tx, ty, tz;
      tx, ty, tz, ds := IntegrateLoop(sqrt);
      assert unchanged(bodies`force, bodies`springs);
      movement := TotalMovement(tx, ty, tz, |bodies|, ds);
    }

    /** The part of `step` after `accumulate`: `Move`, which leaves the
        masses, the forces, the springs and the octree alone. */
    method Advance(sqrt: real -> real, ghost m0: seq<real>, ghost v0: seq<Vector3>)
      returns (stable: bool, ghost ds: seq<Vector3>)
      requires Valid() && m0 == Masses(bodies) && 0.0 !in m0 && v0 == Velocities(bodies) && tree.treeNodes.Valid()
      modifies bodies`velocity, bodies`position
      ensures Advanced(v0, ds, sqrt) && Moved(old(Positions(bodies)), ds)
      ensures Forces(bodies) == old(Forces(bodies)) && SpringLists(bodies) == old(SpringLists(bodies))
      ensures Masses(bodies) == m0 && tree.View() == old(tree.View()) && tree.treeNodes.Valid()
      ensures stable <==> |bodies| > 0 && Movement(ds) < StableThreshold
    {
      stable, ds := Move(sqrt, m0, v0);
    }

    /** `step`: `accumulate`, then `integrate`; the layout is stable when
        the movement is below `stableThreshold`.  The ghost results are
        those of `accumulate`, and `p1` the positions it leaves (the octree
        may have jittered some bodies): the tree, the walks and the springs
        are over `p1`, and `integrate` moves each body by `ds` from `p1`,
        with the velocity step taken from the forces `accumulate`
        computed. */
    method Step(sqrt: real -> real)
      returns (stable: bool, ghost stop: nat, ghost queues: seq<seq<nat>>, ghost walks: seq<seq<Visit>>,
               ghost froms: seq<seq<nat>>, ghost dragged: seq<Vector3>, ghost offsets: seq<seq<Vector3>>,
               ghost pulls: seq<seq<Vector3>>, ghost p1: seq<Vector3>, ghost ds: seq<Vector3>)
      requires Valid() && 0.0 !in Masses(bodies)
      modifies tree, tree.treeNodes, tree.random`seed, random`seed, bodies`position, bodies`force, bodies`velocity
      ensures tree.treeNodes.Valid() && Built(tree.View(), old(Positions(bodies)), p1, stop)
      ensures GravityDone(tree.View(), queues, walks, froms, dragged, p1, Masses(bodies), old(Velocities(bodies)), sqrt)
      ensures SpringsExplained(SpringLists(bodies), offsets, pulls, p1, sqrt)
      ensures Forces(bodies) == SpringPass(dragged, SpringLists(bodies), pulls)
      ensures Advanced(old(Velocities(bodies)), ds, sqrt) && Moved(p1, ds)
      ensures stable <==> |bodies| > 0 && Movement(ds) < StableThreshold
    {
      ghost var m0, v0 := Masses(bodies), Velocities(bodies);
      ghost var failure;
      stop, failure, queues, walks, froms, dragged, offsets, pulls := Accumulate(sqrt);
      assert m0 == Masses(bodies) && v0 == Velocities(bodies);
      p1 := Positions(bodies);
      ghost var t, ls := tree.View(), SpringLists(bodies);
      stable, ds := Advance(sqrt, m0, v0);
      assert tree.View() == t && SpringLists(bodies) == ls;
    }

    /** Every body `j` has a nonzero mass, took the velocity step of
        `integrate` from `v0[j]` with its current force, and moved by
        `ds[j]`, which is `timeStep` times its new velocity. */
    ghost predicate Advanced(v0: seq<Vector3>, ds: seq<Vector3>, sqrt: real -> real)
      reads this, bodies`mass, bodies`velocity, bodies`force
    {
      |v0| == |ds| == |bodies| &&
      forall j {:trigger ds[j]} | 0 <= j < |bodies| ::
        bodies[j].mass != 0.0 &&
        bodies[j].velocity == NewVelocity(bodies[j].mass, v0[j], bodies[j].force, sqrt) &&
        ds[j] == Scale(bodies[j].velocity, TimeStep)
    }

    /** Every body `j` moved from `p0[j]` by `ds[j]`. */
    ghost predicate Moved(p0: seq<Vector3>, ds: seq<Vector3>)
      reads this, bodies`position
    {
      |p0| == |ds| == |bodies| &&
      forall j {:trigger ds[j]} | 0 <= j < |bodies| :: bodies[j].position == Add(p0[j], ds[j])
    }

    /** `integrate` from the masses `m0` and velocities `v0`, and the
        comparison of its result with
        `stableThreshold`.  With no bodies the movement is a NaN and the
        comparison is false. */
    method Move(sqrt: real -> real, ghost m0: seq<real>, ghost v0: seq<Vector3>)
      returns (stable: bool, ghost ds: seq<Vector3>)
      requires Valid() && m0 == Masses(bodies) && 0.0 !in m0 && v0 == Velocities(bodies)
      modifies bodies`velocity, bodies`position
      ensures Advanced(v0, ds, sqrt) && Moved(old(Positions(bodies)), ds)
      ensures stable <==> |bodies| > 0 && Movement(ds) < StableThreshold
      ensures unchanged(bodies`force, bodies`springs, bodies`mass)
      ensures tree.View() == old(tree.View()) && (old(tree.treeNodes.Valid()) ==> tree.treeNodes.Valid())
    {
      forall j | 0 <= j < |bodies|
        ensures bodies[j].mass != 0.0
      {
        assert m0[j] == bodies[j].mass;
      }
      var movement;
      movement, ds := Integrate(sqrt);
      stable := movement.Some? && movement.value < StableThreshold;
    }

    /** The return value of `integrate` from the totals: the squared length
        of `(tx, ty, tz)` over the body count `n`, which is the movement of
        the displacements `ds` the totals were summed from. */
    static function TotalMovement(tx: real, ty: real, tz: real, n: nat, ghost ds: seq<Vector3>): (movement: Option<real>)
      requires n == |ds| && tx == AbsTotals(ds).x && ty == AbsTotals(ds).y && tz == AbsTotals(ds).z
      ensures movement == if n == 0 then None else Some(Movement(ds))
    {
      if n == 0 then None else Some((Sq(tx) + Sq(ty) + Sq(tz)) / (n as real))
    }

    /** The loop of `integrate`: every body moves, and `tx`, `ty`, `tz` sum
        the absolute components of the displacements. */
    method IntegrateLoop(sqrt: real -> real)
      returns (tx: real, ty: real, tz: real, ghost ds: seq<Vector3>)
      requires Distinct(bodies) && forall j | 0 <= j < |bodies| :: bodies[j].mass != 0.0
      modifies bodies`velocity, bodies`position
      ensures Advanced(old(Velocities(bodies)), ds, sqrt) && Moved(old(Positions(bodies)), ds)
      ensures |ds| == |bodies| && tx == AbsTotals(ds).x && ty == AbsTotals(ds).y && tz == AbsTotals(ds).z
    {
      ghost var v0, p0 := Velocities(bodies), Positions(bodies);
      tx, ty, tz := 0.0, 0.0, 0.0;
      ds := [];
      for i := 0 to |bodies|
        invariant Vector3(tx, ty, tz) == AbsTotals(ds)
        invariant Integrated(i, ds, v0, p0, sqrt)
      {
        tx, ty, tz, ds := IntegrateTurn(i, sqrt, tx, ty, tz, ds, v0, p0);
      }
    }

    /** Bodies below `i` have moved by `ds` from the velocities `v0` and
        positions `p0`; the others are as they were. */
    ghost predicate Integrated(i: nat, ds: seq<Vector3>, v0: seq<Vector3>, p0: seq<Vector3>, sqrt: real -> real)
      reads this, bodies`velocity, bodies`position, bodies`mass, bodies`force
    {
      i == |ds| <= |bodies| == |v0| == |p0| &&
      (forall j | 0 <= j < |bodies| :: bodies[j].mass != 0.0) &&
      (forall j | 0 <= j < i ::
         bodies[j].velocity == NewVelocity(bodies[j].mass, v0[j], bodies[j].force, sqrt) &&
         ds[j] == Scale(bodies[j].velocity, TimeStep) && bodies[j].position == Add(p0[j], ds[j])) &&
      forall j | i <= j < |bodies| :: bodies[j].velocity == v0[j] && bodies[j].position == p0[j]
    }

    /** One turn of the loop of `integrate`, for body `i`. */
    method IntegrateTurn(i: nat, sqrt: real -> real, tx: real, ty: real, tz: real, ghost ds: seq<Vector3>,
                         ghost v0: seq<Vector3>, ghost p0: seq<Vector3>)
      returns (tx': real, ty': real, tz': real, ghost ds': seq<Vector3>)
      requires Distinct(bodies) && i < |bodies| && Integrated(i, ds, v0, p0, sqrt)
      requires Vector3(tx, ty, tz) == AbsTotals(ds)
      modifies bodies`velocity, bodies`position
      ensures Integrated(i + 1, ds', v0, p0, sqrt)
      ensures Vector3(tx', ty', tz') == AbsTotals(ds')
    {
      DistinctAt(bodies, i);
      var d := IntegrateBody(i, sqrt);
      AbsTotalsSnoc(ds, d, Vector3(tx, ty, tz));
      tx', ty', tz', ds' := tx + Abs(d.x), ty + Abs(d.y), tz + Abs(d.z), ds + [d];
      assert forall j | 0 <= j < i :: ds'[j] == ds[j];
    }

    /** One body of `integrate`; `d` is its displacement.  The velocity is
        read through a reference, so the cap and the move see the updated
        velocity. */
    method IntegrateBody(i: nat, sqrt: real -> real) returns (d: Vector3)
      requires i < |bodies| && bodies[i].mass != 0.0
      modifies {bodies[i]}`velocity, {bodies[i]}`position
      ensures bodies[i].velocity == NewVelocity(bodies[i].mass, old(bodies[i].velocity), bodies[i].force, sqrt)
      ensures d == Scale(bodies[i].velocity, TimeStep)
      ensures bodies[i].position == Add(old(bodies[i].position), d)
    {
      var body := bodies[i];
      var coeff := TimeStep / body.mass;
      var pos := body.position;
      var force := body.force;
      var velocity := body.velocity;
      body.SetVelocity(Add(velocity, Scale(force, coeff)));
      velocity := body.velocity;
      var v := sqrt(NormSq(velocity));
      if v > 1.0 {
        body.SetVelocity(DivScalar(velocity, v));
      }
      velocity := body.velocity;
      d := Scale(velocity, TimeStep);
      body.SetPosition(Add(pos, d));
    }
  }
}
