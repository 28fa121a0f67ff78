# ngraph.native in Dafny

A model of the core of ngraph.native, a command-line force-directed graph
layout engine. The engine itself is a Barnes-Hut n-body simulation. Bodies
(graph vertices) sit in a squarified octree. Every body feels the gravity of
the other bodies, with far-away groups approximated by their centre of mass.
It also feels a spring force along every edge and drag from its own velocity.
An integrator then moves each body, and the layout counts as stable once the
total movement drops below a threshold.

The model covers these modules:

- `Primitives`: the `Vector3` value type of `include/primitives.h`.
- `JenkinsRandom`: the Jenkins-hash generator `CRandom`, over `bv64`.
- `Bodies`: the body record `CBody`.
- `OctreeNodes`: the octree node type and its bump-allocated pool.
- `OctreeGeometry`: root bounds, octants, half boxes and jitter.
- `BarnesHut`: the gravity pull and the record of a tree walk.
- `Octrees`: the octree itself (`COctree`): `insert`, `insertBodies` and the FIFO walk of `updateBodyForce`, together with a ghost parent/slot/home structure that makes the tree invariant explicit.
- `LayoutMath`: the meaning of the layout loops, proved on values.
- `Layouts`: the layout (`CLayout`): `load_links`, `load_positions`, `load_weights`, `init_weights`, `accumulate`, `integrate` and `step`.
- `QuadTreePool`: the older quad-tree node pool.
- `AppSettings`: the application settings.
- `Numerals`: `std::stoi`, `std::stoull` and `size_t` arithmetic.
- `NamePatterns`: the file-name regular expressions.
- `Schedule`: the step-and-save loop shared by `CApplication::run` and the demo's `main`.
- `Application`: `CApplication` itself: `parse_options`, `get_iteration_start_from_name` and `run`.
- `Demo`: `main` of the demo.

Vectors are over `real`.

- The square root is a parameter `sqrt: real -> real` of the operations that use it. Nothing is assumed about it.
- Tree nodes and bodies are named by their index, not by a pointer.
- File contents arrive as `seq<int>`.
- Exceptions become `Result`/`Outcome` values.
- In `run` and in the demo's `main`, the layout is a function `converged(k)`: the answer of its `k`-th `step`.

As written in the source, `push_springs` (src/body.cpp:20-24) counts an edge
in the source body's own incoming-link counter. `load_links` then counts the
same edge again at its target (src/layout.cpp:168). The model keeps both
increments, so `init_weights` sees each outgoing spring twice.

The header include/Octree.h:81 declares `insert` as `void`, while
src/Octree.cpp:55 defines it as returning `bool`. The model follows the
definition.

## Model

| member | source | states |
|---|---|---|
| Primitives.Abs | include/primitives.h:65-67 | the `std::abs` of `sameAs` is non-negative and equals the value or its negation |
| Primitives.ZeroIsSplat | include/primitives.h:56-59 | `reset()` and `Vector3()` give `Vector3(0)`, the zero vector |
| Primitives.SplatComponents | include/primitives.h:36-46 | `Vector3(s)` has `s` on all three axes |
| Primitives.NotInitializedIffZero | include/primitives.h:49-54 | `is_initialized` is false exactly for the zero vector |
| Primitives.SameAsIffComponents | include/primitives.h:61-68 | `sameAs` holds iff every axis differs by less than 1e-8 |
| Primitives.SameAsReflexiveSymmetric | include/primitives.h:61-68 | `sameAs` is reflexive and symmetric |
| Primitives.SameAsNotTransitive | include/primitives.h:61-68 | `sameAs` is not transitive: two steps of 0.6e-8 are each close, but together they are not |
| Primitives.SubSelfIsZero | include/primitives.h:152-159 | `a - a` is the zero vector and not initialised |
| Primitives.AddSubCancel | include/primitives.h:110-159 | vector `+` and `-` undo each other |
| Primitives.AddCommutesAssociates | include/primitives.h:110-117 | vector `+` is commutative and associative, with the zero vector as unit |
| Primitives.ScalarOperatorsComponentwise | include/primitives.h:128-228 | scalar `+`, `-` and `*` act on every axis |
| Primitives.SumElemsLinear | include/primitives.h:84-87 | `summ_elem` is additive and scales with its vector |
| Primitives.IsGreat | include/primitives.h:70-75 | `result[axis]` is the per-axis `>`; entries past 3 are untouched |
| Primitives.IsLess | include/primitives.h:77-82 | `result[axis]` is the per-axis `<`; entries past 3 are untouched |
| Primitives.GreatLessDuality | include/primitives.h:70-82 | `a.is_great(b)` equals `b.is_less(a)`; `is_great` and `is_less` are never both true on an axis |
| JenkinsRandom.Mix1 | include/Random.h:22 | the first masked step leaves the state below 2^32 |
| JenkinsRandom.Mix2 | include/Random.h:23 | the second masked step leaves the state below 2^32 |
| JenkinsRandom.Mix3 | include/Random.h:24 | the third masked step leaves the state below 2^32 |
| JenkinsRandom.Mix4 | include/Random.h:25 | the fourth masked step leaves the state below 2^32 |
| JenkinsRandom.Mix5 | include/Random.h:26 | the fifth masked step leaves the state below 2^32 |
| JenkinsRandom.Mix6 | include/Random.h:27 | the sixth masked step leaves the state below 2^32 |
| JenkinsRandom.Fraction | include/Random.h:28 | the low 28 bits over 2^28 lie in [0, 1) |
| JenkinsRandom.Draws | include/Random.h:19-29 | the first `n` outputs from a state: `n` values in [0, 1), a function of the seed alone |
| JenkinsRandom.AdvanceAdds | include/Random.h:19-29 | `n` calls followed by `m` calls are `n + m` calls |
| JenkinsRandom.DrawsSplit | include/Random.h:19-29 | drawing `n + m` values is drawing `n`, then `m` more from where those left off |
| JenkinsRandom.DrawAt | include/Random.h:19-29 | the `k`-th output is the fraction of the state after `k + 1` calls |
| JenkinsRandom.Random.constructor | include/Random.h:10-13 | the state is the seed |
| JenkinsRandom.Random.NextDouble | include/Random.h:19-29 | the state takes one hash step and stays below 2^32; the result is the fraction of the new state, in [0, 1) |
| JenkinsRandom.Random.Next | include/Random.h:31-34 | one draw times `max`; the state advances exactly once |
| Bodies.Body.constructor | src/body.h:35-42 | mass 1.0; zero position, force and velocity; no incoming links and no springs |
| Bodies.Body.SetPosition | src/body.cpp:5-8 | only the position changes, and it becomes the value set |
| Bodies.Body.SetMass | src/body.cpp:10-13 | only the mass changes, and it becomes the value set |
| Bodies.Body.SetForce | src/body.cpp:26-29 | only the force changes, and it becomes the value set |
| Bodies.Body.SetVelocity | src/body.cpp:31-34 | only the velocity changes, and it becomes the value set |
| Bodies.Body.PushSprings | src/body.cpp:20-24 | appends the target to the springs and adds one to this body's incoming-link counter |
| Bodies.Body.IncInEdges | src/layout.cpp:168 | adds one to the incoming-link counter and changes nothing else |
| Bodies.Body.ResetForce | src/body.cpp:56-59 | the force becomes zero and nothing else changes |
| Bodies.Body.ResetVelocity | src/body.cpp:66-69 | the velocity becomes zero and nothing else changes |
| Bodies.Positions | src/body.cpp:41-44 | `get_position` of every body, in order |
| Bodies.SpringLists | src/body.cpp:46-49 | `get_springs` of every body, in order |
| Bodies.Masses | src/body.cpp:15-18 | `get_mass` of every body, in order |
| Bodies.Velocities | src/body.cpp:61-64 | `get_velocity` of every body, in order |
| Bodies.Forces | src/body.cpp:51-54 | `get_force` of every body, in order |
| OctreeNodes.NoChildren | include/Octree.h:25 | eight null children |
| OctreeNodes.Cleared | include/Octree.h:23-30 | `reset` clears all 8 children and the body, and zeroes the mass, `massVector` and all six bounds |
| OctreeNodes.OctreeNodePool.constructor | include/Octree.h:36-39 | `reset(0)`: an empty pool with the cursor at its start |
| OctreeNodes.OctreeNodePool.Reset | include/Octree.h:41-45 | the pool has length `count` and keeps its first nodes, new slots are value-initialised, the cursor rewinds to 0, and nothing is issued |
| OctreeNodes.OctreeNodePool.Get | include/Octree.h:47-61 | appends only when the cursor is at the end; returns the slot under the cursor, cleared, and advances the cursor by one; the slot was not issued since the last reset; other slots are unchanged |
| OctreeNodes.OctreeNodePool.Set | src/Octree.cpp:45-50 | a write through a node pointer changes that slot only |
| OctreeGeometry.Min | src/Octree.cpp:15-21 | the smaller of two values |
| OctreeGeometry.Max | src/Octree.cpp:26 | the larger of two values |
| OctreeGeometry.LowerIsClippedMin | src/Octree.cpp:8-23 | the running lower bound is at most INT32_MAX and at most every coordinate, and it is attained |
| OctreeGeometry.UpperIsClippedMax | src/Octree.cpp:8-23 | the running upper bound is at least INT32_MIN and at least every coordinate, and it is attained |
| OctreeGeometry.LowerIsMinInRange | src/Octree.cpp:8-23 | for bodies in int32 range, the lower bound is the true minimum coordinate |
| OctreeGeometry.RootBoxContainsAll | src/Octree.cpp:8-50 | the root bounds are ordered and contain every body, whatever its coordinates |
| OctreeGeometry.RootBoxIsCube | src/Octree.cpp:26-41 | unless the bodies coincide, the root is a cube anchored at the lower corner, each side equal to the largest extent, which covers every axis |
| OctreeGeometry.RootBoxCoincident | src/Octree.cpp:28-36 | when every body sits at one point, the root extends n·500 past that point on every side |
| OctreeGeometry.ZeroSideMeansCoincident | src/Octree.cpp:26-28 | a zero largest extent happens only when every body sits at one point |
| OctreeGeometry.Octant | src/Octree.cpp:69-91 | the octant is in 0..7, and bits 1, 2 and 4 are set iff x, y and z lie strictly past the middle |
| OctreeGeometry.ChildBoxHalves | src/Octree.cpp:69-104 | the chosen child box is the half of its parent on every axis, lies inside it, and holds the point that chose it |
| OctreeGeometry.JitterInside | src/Octree.cpp:121-132 | a jittered body stays inside the node's box |
| BarnesHut.NormSq | src/Octree.cpp:201 | `dx*dx + dy*dy + dz*dz` is non-negative |
| BarnesHut.NormSqZero | src/Octree.cpp:201-203 | the squared distance is 0 exactly when the offset is the zero vector |
| BarnesHut.Pull | src/Octree.cpp:215-218 | `gravity * m * srcMass / r^3` times the offset; zero at distance 0 |
| BarnesHut.SumPullsSnoc | src/Octree.cpp:216-249 | one more visit adds its pull to `(fx, fy, fz)`, if it has one |
| BarnesHut.SumPullsSelfLeaves | src/Octree.cpp:188-189 | visits of the source's own leaf and of opened nodes add nothing |
| BarnesHut.Children | src/Octree.cpp:253-264 | the present children of a node, each one listed, nothing else |
| BarnesHut.DistinctBelowBound | src/Octree.cpp:183 | distinct node indices below the issued count number at most that count, so the queue is bounded |
| Octrees.MassUpdateKeepsTree | src/Octree.cpp:63-66 | changing only a node's mass and `massVector` keeps the tree invariant |
| Octrees.DetachKeepsTree | src/Octree.cpp:115-117 | clearing a leaf's body keeps the tree, with that body homeless |
| Octrees.AttachKeepsTree | src/Octree.cpp:93-105 | a new leaf for a body in an empty octant of an internal node keeps the tree |
| Octrees.RootOnlyTree | src/Octree.cpp:157-161 | a lone cleared root holding body 0 is a tree |
| Octrees.ChildrenDistinct | src/Octree.cpp:253-264 | a node's listed children are distinct |
| Octrees.PushKeepsQueueDistinct | src/Octree.cpp:253-264 | queuing the children of the dequeued node keeps the queue free of repeats and within the issued nodes |
| Octrees.StepWithoutPush | src/Octree.cpp:185-250 | dequeuing a node that is not opened keeps the walk invariant |
| Octrees.StepWithPush | src/Octree.cpp:251-264 | dequeuing and opening a node, then queuing its children, keeps the walk invariant |
| Octrees.QueueDrained | src/Octree.cpp:183-267 | once the queue is drained, an opened node's children are all queued and an accepted node's children never are |
| Octrees.UnopenedChildrenNotQueued | src/Octree.cpp:242-264 | children of a node that was not opened are never queued |
| Octrees.Nudge | src/Octree.cpp:205-207 | `(u - 0.5) / 50` of a draw lies in [-0.01, 0.01) |
| Octrees.Octree.constructor | include/Octree.h:71-74 | the tree's generator is seeded with 1984; an empty pool |
| Octrees.Octree.Bounds | src/Octree.cpp:8-23 | the scan returns the running bounds of the positions on each axis |
| Octrees.Octree.Squarify | src/Octree.cpp:25-41 | the squarified bounds are the root box |
| Octrees.Octree.CreateRootNode | src/Octree.cpp:7-53 | a node from the pool gets the root box of the positions; other slots are unchanged |
| Octrees.Octree.Separate | src/Octree.cpp:118-135 | 1 to 3 jitter draws; the resident ends on the jitter point of the last draw, inside the box; separated iff no longer `sameAs`; fewer than 3 tries only when separated |
| Octrees.Octree.Insert | src/Octree.cpp:55-152 | keeps the tree; an internal node gains the body's mass and mass times position; a leaf becomes internal; on success the body is placed in a leaf below the node; on failure it is not, no body is added, and the ghost `failure` names the cause below the node: a clash, whose two bodies are out of the tree and still `sameAs` after the resident's last jitter point, or a node where the depth bound ran out. Node boxes already issued are kept, and every body keeps its position or lies on a jitter point of an issued node's box. |
| Octrees.Octree.Descend | src/Octree.cpp:57-109 | the internal-node branch: mass and `massVector` grow by the body's; on success the body ends below the node; a failure has its witness below the node. Node boxes already issued are kept, and every body keeps its position or lies on a jitter point of an issued node's box. |
| Octrees.Octree.Route | src/Octree.cpp:69-109 | the body goes to the child in slot `Octant(box, position)`, a new leaf when that slot was empty (the node is otherwise unchanged), otherwise a recursive insert; on success the body ends below that child; the other seven slots and the node's mass are left alone; a failure has its witness below the node. Node boxes already issued are kept, and every body keeps its position or lies on a jitter point of an issued node's box. |
| Octrees.Octree.Forward | src/Octree.cpp:106-109 | `insert(body, child)` one level down: on success the body ends below the child and the node; with the depth bound spent it fails with the child as the witness; any failure below the child is one below the node. Node boxes already issued are kept, and every body keeps its position or lies on a jitter point of an issued node's box. |
| Octrees.Octree.Split | src/Octree.cpp:111-149 | the leaf branch: the node ends internal with its box; on success the new body is placed below it; `ok` is false only with a witness below the node: a clash still `sameAs` after the resident's last jitter point, or the node where the depth bound ran out. Node boxes already issued are kept, and every body keeps its position or lies on a jitter point of an issued node's box. |
| Octrees.Octree.Unstack | src/Octree.cpp:115-144 | the leaf loses its resident, which is jittered while `sameAs`; the result is false exactly when they are still `sameAs`, and then the clash names both bodies, the leaf and the generator state before the draws. The resident keeps its position when it was not `sameAs`; otherwise it ends on the jitter point of the leaf's box for the final generator state, inside that box when the box is ordered. No other body moves |
| Octrees.Octree.Reinsert | src/Octree.cpp:137-148 | stops with the clash when the jitter did not separate the two; otherwise the old resident is inserted first, and the new body only if that succeeded; a failure has its witness below the node. Node boxes already issued are kept, and every body keeps its position or lies on a jitter point of an issued node's box. |
| Octrees.Octree.PlaceBoth | src/Octree.cpp:146-148 | `insert(oldBody, node)`, then `insert(body, node)` only on success: on success both are placed; a failure has its witness below the node. Node boxes already issued are kept, and every body keeps its position or lies on a jitter point of an issued node's box. |
| Octrees.Octree.Dislodge | src/Octree.cpp:118-143 | the `sameAs` test and the jitter loop on the resident only: it is moved only when it was `sameAs` the incoming body, then onto the jitter point of the leaf's box for the final generator state, inside an ordered box; separated iff no longer `sameAs`; a failure spends all 3 draws; no other body moves |
| Octrees.Octree.AddMass | src/Octree.cpp:63-66 | `mass += m` and `massVector += m * pos` on one node only, keeping the tree |
| Octrees.Octree.AttachLeaf | src/Octree.cpp:93-105 | a fresh node with the octant's half box holds the body and fills the empty slot |
| Octrees.Octree.Detach | src/Octree.cpp:117 | `node->body = NULL`: the resident leaves the tree |
| Octrees.Octree.InitRoot | src/Octree.cpp:155-161 | a pool of 8n nodes, the root box of the starting positions, and body 0 as the root's resident; every other body is out of the tree |
| Octrees.Octree.SeatRoot | src/Octree.cpp:159-161 | node 0 alone is the tree and holds body 0 when there is one; every other body is out of the tree |
| Octrees.Octree.ResetRoot | src/Octree.cpp:155-157 | `reset(8n)` then `createRootNode`: the root is slot 0 |
| Octrees.Octree.InsertBodies | src/Octree.cpp:154-167 | a valid pool and tree whose root box is the squarified bounds of the starting positions; either every body is in the tree, or the bodies from the failed one (`stop`) on are out of it and unmoved, with a clash or an exhausted depth below the root as the witness; every body is at its starting position or on a jitter point of an issued node's box (`Built`) |
| Octrees.Octree.InsertRest | src/Octree.cpp:163-166 | bodies 1 .. n-1 go in below the root in order until an insert fails; the root and its box stay; `stop` and the witness are as for `insertBodies`; the bodies from `stop` on are at their starting positions, and every other one is there or on a jitter point of an issued node's box |
| Octrees.Octree.InsertNext | src/Octree.cpp:164-165 | one turn of that loop: on success body `i` is placed and the loop state holds for `i + 1`; on failure it holds for `i`, body `i` stays out, and the witness is below the root |
| Octrees.Octree.NudgeApart | src/Octree.cpp:205-207 | three successive draws of the tree's generator, each shifted and divided by 50, so every component lies in [-0.01, 0.01) |
| Octrees.Octree.VisitNode | src/Octree.cpp:185-266 | one dequeued node: no pull for the source's own leaf; a pull from another body's leaf or an accepted node, whose offset at distance 0 is three nudges in [-0.01, 0.01); otherwise opened |
| Octrees.Octree.PushChildren | src/Octree.cpp:253-264 | appends every present child in slot order; `pushIndex` and `queueLength` count them |
| Octrees.Octree.Dequeue | src/Octree.cpp:183-266 | one turn of the walk keeps its invariant and the summed pull |
| Octrees.Octree.Record | src/Octree.cpp:183-264 | the bookkeeping of one turn: the visit is recorded, children are queued, the pull is added |
| Octrees.Octree.Walk | src/Octree.cpp:171-267 | the FIFO walk runs until the queue is empty; the result is a complete walk: it starts at the root, repeats no node, each other node was queued by its opened parent, every child of an opened node and no child of an accepted one is visited, and each visit is explained by its node; `f` is the summed pull |
| Octrees.Octree.UpdateBodyForce | src/Octree.cpp:169-279 | the whole walk is complete: it starts at the root, repeats no node, each other node was queued by its opened parent, every child of an opened node and no child of an accepted one is visited; the source's own leaf gives no pull; the summed pull is added to the existing force |
| LayoutMath.MaxAbs | src/layout.cpp:148-154 | the body count is the largest absolute entry: it bounds every entry and is attained |
| LayoutMath.DecodeStep | src/layout.cpp:157-170 | `-k` makes `k - 1` the source; `m > 0` appends `m - 1` to the source's springs and counts one incoming link at `m - 1` |
| LayoutMath.SourceInRange | src/layout.cpp:157-164 | the current source is always a vertex of the graph |
| LayoutMath.SpringTargetsInRange | src/layout.cpp:166-167 | every spring's target is a vertex of the graph |
| LayoutMath.EdgesArePositives | src/layout.cpp:157-170 | the graph has exactly as many springs as the file has positive entries |
| LayoutMath.DefaultMass | src/layout.cpp:260 | `1 + (springs + incoming) / 3`, at least 1 |
| LayoutMath.DragAtRest | src/layout.cpp:412-423 | a body at rest feels no drag |
| LayoutMath.DragLinear | src/layout.cpp:412-423 | drag is linear in the velocity |
| LayoutMath.SpringCoefficient | src/layout.cpp:385-386 | `springCoeff * (r - springLength) / r`; 0 at `r = 0` |
| LayoutMath.SpringCoefficientSign | src/layout.cpp:385-386 | a stretched spring pulls, a compressed one pushes, one at its rest length is slack |
| LayoutMath.SpringsKeepTotal | src/layout.cpp:365-410 | one body's equal-and-opposite spring updates leave the total force unchanged, for any coefficients |
| LayoutMath.SpringPassSnoc | src/layout.cpp:282-290 | the spring pass over one more body applies that body's springs to the forces already there |
| LayoutMath.SpringPassKeepsTotal | src/layout.cpp:282-290 | the whole spring loop of `accumulate` leaves the total force unchanged |
| LayoutMath.SpeedIsCapped | src/layout.cpp:314-331 | at speed up to 1 the velocity is `v + (timeStep/mass)·f`; above 1 each component keeps its sign and shrinks |
| LayoutMath.AbsTotals | src/layout.cpp:345 | the running totals `tx`, `ty`, `tz` are non-negative |
| LayoutMath.AbsTotalsSnoc | src/layout.cpp:345 | one body adds its absolute displacement to the totals |
| LayoutMath.AbsTotalsZero | src/layout.cpp:345 | the totals vanish exactly when every displacement does |
| LayoutMath.Movement | src/layout.cpp:348 | `(tx² + ty² + tz²) / n` is non-negative |
| LayoutMath.MovementZeroIffStill | src/layout.cpp:345-348 | the movement is 0 exactly when no body moved |
| Layouts.Layout.constructor | src/layout.cpp:26-28 | the layout's generator is seeded with 42, with no bodies and a fresh octree |
| Layouts.Layout.LoadLinks | src/layout.cpp:139-171 | fails with "Graph has no links" exactly on an empty list; otherwise one fresh body per vertex up to the largest absolute entry, each body holding the springs and incoming count the entries give it |
| Layouts.Layout.DecodeEntry | src/layout.cpp:158-170 | one entry: the new source, and every body decoded up to that entry |
| Layouts.Layout.PushLink | src/layout.cpp:165-169 | a positive entry adds one spring at its source and one incoming link at its target |
| Layouts.Layout.LoadPositions | src/layout.cpp:173-190 | body `i` is placed at the ints `3i`, `3i+1`, `3i+2` |
| Layouts.Layout.LoadWeights | src/layout.cpp:192-214 | "Has no weights" when empty, "Wrong weights for current graph" on a wrong count, masses untouched on failure; otherwise mass `i` is weight `i` |
| Layouts.Layout.InitWeights | src/layout.cpp:250-262 | each mass becomes the default mass of its springs and incoming count |
| Layouts.Layout.UpdateDragForce | src/layout.cpp:412-423 | force minus 0.02 times velocity, on every axis |
| Layouts.Layout.UpdateSpringForce | src/layout.cpp:365-410 | every spring of the source, in order, adds its pull to the source and subtracts it from the target; each spring reaches a body of the layout, and its pull is the offset (jittered at length 0) scaled by the coefficient of its length; positions and springs are unchanged |
| Layouts.Layout.SpringTurn | src/layout.cpp:368-409 | one more spring extends the explained and applied prefix |
| Layouts.Layout.SpringStep | src/layout.cpp:370-408 | one spring: `+pull` on the source, then `-pull` on the target |
| Layouts.Layout.SpringOffset | src/layout.cpp:372-383 | the position difference, or three nudges when its length is 0 |
| Layouts.Layout.Accumulate | src/layout.cpp:264-291 | the tree is rebuilt over the starting positions with the outcome of `insertBodies`, and every body is at its starting position or on a jitter point of an issued node's box; each walk is the complete walk of that tree for its body at the positions the tree left; every spring is explained at those positions; every force is the spring pass over the dragged summed pulls |
| Layouts.Layout.TreeForces | src/layout.cpp:266-280 | `insertBodies` with its outcome and failure witness, every body at its starting position or on a jitter point of an issued node's box, then the first loop: each walk is the complete walk of the new tree at the positions it left, and every force is the dragged summed pull of its walk |
| Layouts.Layout.GravityAndDrag | src/layout.cpp:268-280 | for every body, the complete walk of the unchanged tree at the unchanged positions, and its force is the dragged summed pull of that walk |
| Layouts.Layout.GravityTurn | src/layout.cpp:274-280 | body `i` adds its complete walk to the walks before it and holds its dragged summed pull; the tree is unchanged |
| Layouts.Layout.BodyForce | src/layout.cpp:275-279 | `reset_force`, `updateBodyForce`, then drag: the walk is the complete walk of the body over the unchanged tree, and the force is its dragged summed pull |
| Layouts.Layout.SpringRound | src/layout.cpp:288-290 | one more body of the spring loop: its springs are explained at the unchanged positions over the unchanged spring lists, and the pass extends by them |
| Layouts.Layout.AllSprings | src/layout.cpp:282-290 | every spring of every body is explained at the positions; the forces are the spring pass over the forces before it; positions, masses, velocities and the tree are unchanged |
| Layouts.Layout.SpringLoop | src/layout.cpp:282-290 | the loop of the spring pass, body by body: every body's springs are explained, and positions, masses and velocities are unchanged |
| Layouts.Layout.Integrate | src/layout.cpp:293-349 | every velocity takes the capped step; every body moves by `timeStep` times its new velocity; the result is the movement, NaN (`None`) with no bodies; forces, springs and masses are unchanged |
| Layouts.Layout.Move | src/layout.cpp:355-362 | `integrate` from the masses and velocities given, then stable iff there are bodies and the movement is below 0.009; forces, springs, masses and the tree are unchanged |
| Layouts.Layout.IntegrateLoop | src/layout.cpp:301-346 | every body moves, and `tx`, `ty`, `tz` sum the absolute displacements |
| Layouts.Layout.IntegrateTurn | src/layout.cpp:307-346 | one more body of the integrator loop |
| Layouts.Layout.IntegrateBody | src/layout.cpp:308-343 | the velocity update reads the updated velocity through its reference; position plus `timeStep` times the new velocity |
| Layouts.Layout.TotalMovement | src/layout.cpp:348 | the integrator's result from the totals is the movement of the displacements |
| Layouts.Layout.Advance | src/layout.cpp:355-362 | the part of `step` after `accumulate`: the velocity step from the given masses and velocities, each body's move, stable iff there are bodies and the movement is below 0.009; forces, springs, masses and the tree are unchanged |
| Layouts.Layout.Step | src/layout.cpp:351-363 | `accumulate` then `integrate`: the tree is built over the starting positions and either holds every body or leaves the failed one and those after it unmoved; `p1` are the positions it leaves, each the starting one or a jitter point of an issued node's box; each walk is the complete walk of that tree at `p1`; every spring is explained at `p1`; the forces are the spring pass over the dragged pulls; every velocity takes the capped step from its starting value; each body moves by `ds` from `p1`; stable iff there are bodies and the movement is below 0.009 |
| QuadTreePool.QuadTreeNode.constructor | include/quadTree.h:51 | `new QuadTreeNode()` is cleared |
| QuadTreePool.QuadTreeNode.Reset | include/quadTree.h:28-34 | clears the children and the body, and zeroes the mass, `massVector` and all six bounds |
| QuadTreePool.NodePool.constructor | include/quadTree.h:38-39 | an empty pool with the cursor at 0 |
| QuadTreePool.NodePool.Reset | include/quadTree.h:41-43 | the cursor rewinds to 0 and the pool keeps every node |
| QuadTreePool.NodePool.Get | include/quadTree.h:45-56 | below the end, reuses and clears the node under the cursor; at the end, appends a fresh node; the cursor moves up by one and never passes the pool's size; the node was not issued since the last reset |
| QuadTreePool.GetTwiceAfterReset | include/quadTree.h:41-56 | two `get` calls after a `reset` return two distinct cleared nodes: slots 0 and 1 |
| AppSettings.ApplicationSettings.constructor | include/application_settings.h:42-59 | not verbose; only the links are required; default paths; 10000 iterations; a save every 10 |
| AppSettings.ApplicationSettings.SetVerbose | src/application_settings.cpp:7-10 | only the verbose flag changes |
| AppSettings.ApplicationSettings.SetSavePositionsFile | src/application_settings.cpp:17-20 | only the save path changes |
| AppSettings.ApplicationSettings.SetLinksFile | src/application_settings.cpp:27-31 | the links path is set and marked required, nothing else changes |
| AppSettings.ApplicationSettings.SetPositionsFile | src/application_settings.cpp:38-42 | the positions path is set and marked required, nothing else changes |
| AppSettings.ApplicationSettings.SetWeightsFile | src/application_settings.cpp:49-53 | the weights path is set and marked required, nothing else changes |
| AppSettings.ApplicationSettings.SetMaxIteration | src/application_settings.cpp:60-63 | only the maximum iteration changes; the required flags are kept |
| AppSettings.ApplicationSettings.SetIntervalSave | src/application_settings.cpp:70-73 | only the save interval changes; the required flags are kept |
| Numerals.ToSize | src/application.cpp:182 | an `int` converted to `size_t` keeps a non-negative value and wraps a negative one modulo 2^64 |
| Numerals.SizeIncrement | src/application.cpp:125 | `+ 1` in `size_t` wraps only at the largest value |
| Numerals.Stoi | src/application.cpp:182 | a parsed value lies in the `int` range |
| Numerals.SignedValue | src/application.cpp:189 | a value exists iff there are digits and the signed value fits into an `int` |
| Numerals.StoiDigits | src/application.cpp:182 | `stoi` of a digit run is its value when that fits into an `int`, a failure otherwise |
| Numerals.StoiDecimal | src/application.cpp:189 | `stoi` of a decimal spelling, followed by a non-digit, gives back the number when it fits |
| Numerals.StoiNegative | src/application.cpp:182 | `stoi` of `-` and digits is the negated value, down to INT_MIN |
| Numerals.ToInt32 | demo/gcc/main.cpp:61 | two's-complement wrap into `int`: identity in range, INT_MAX + 1 gives INT_MIN |
| NamePatterns.DigitsBeforeBin | demo/gcc/main.cpp:57 | the split of a name into prefix, the longest non-empty digit run and `.bin` |
| NamePatterns.DigitsBeforeBinOf | demo/gcc/main.cpp:57 | the split is unique: a maximal digit run before `.bin` splits back into itself |
| NamePatterns.NoDigitBeforeBin | demo/gcc/main.cpp:57 | no digit right before `.bin` means no split |
| Application.Message | src/application.cpp:133-187 | the missing-value message starts with "Invalid argument. " |
| Application.HelpIgnoresRest | src/application.cpp:140-144 | once help has returned false, later arguments are not processed |
| Application.HelpStops | src/application.cpp:140-144 | a help flag after a completed parse returns false and keeps the settings so far |
| Application.ParseCompose | src/application.cpp:136-193 | parsing a concatenation parses the second part from where the first left off |
| Application.MissingValueAtEnd | src/application.cpp:151-187 | a value option in last position is an error naming that option |
| Application.ValueConsumed | src/application.cpp:154-189 | a value option consumes the next argument as its value |
| Application.LinksValueTakesHelpFlag | src/application.cpp:149-154 | `-l -h` sets the links path to `-h` and returns true |
| Application.UnknownIgnored | src/application.cpp:136-191 | an unrecognised argument is skipped |
| Application.FalseNeedsHelp | src/application.cpp:136-193 | without a help flag the result is never false |
| Application.AssignOption | src/application.cpp:149-190 | one value option runs its setter, or fails with nothing set when `stoi` fails |
| Application.ParseOptions | src/application.cpp:131-194 | the loop's result and final settings are those of the `parse_options` function |
| Application.PositionsCapture | src/application.cpp:113-123 | a captured group is a non-empty run of digits |
| Application.CaptureOfPositionsName | src/application.cpp:113-123 | a name of the form `…positions_<digits>.bin` captures its digits |
| Application.CaptureSpellsName | src/application.cpp:113-123 | a capture comes only from a name of that form |
| Application.StartFromPositionsName | src/application.cpp:105-129 | N + 1 for `…positions_<N>.bin`, wrapping to 0 at the largest `size_t`, a `stoull` error past it |
| Application.StartNeedsPositionsName | src/application.cpp:105-129 | a start other than 0 comes only from a name of that form |
| Application.NoDigitsNoStart | src/application.cpp:113-125 | `positions_.bin` gives 0 |
| Application.LineSeparatorInPrefix | src/application.cpp:113-125 | a name with a Unicode line separator before `positions_5.bin` still matches and starts at 6, since `.` refuses only `\n` and `\r` |
| Application.Run | src/application.cpp:11-103 | a parse error is the result; help exits successfully with nothing saved; otherwise the start comes from the positions name, the snapshots follow the schedule, and a final save happens |
| Schedule.StepAndSave | src/application.cpp:54-84 | the loop saves exactly the schedule's iterations |
| Schedule.SnapshotsSound | src/application.cpp:57-84 | a saved iteration is in range, a multiple of a positive interval, with no convergence up to and including it |
| Schedule.SnapshotsComplete | src/application.cpp:57-84 | every such iteration is saved |
| Schedule.SnapshotsIncreasing | src/application.cpp:57-84 | snapshots come in strictly increasing order |
| Schedule.SavedExactly | src/application.cpp:57-84 | iteration `x` is saved iff the interval is positive and divides `x`, `x` is in range, and no step up to `x` converged |
| Demo.NumberFromNumberedName | demo/gcc/main.cpp:55-68 | N + 1 for a name ending in the digit run N and `.bin`; wraps at INT_MAX; 0 when `stoi` fails |
| Demo.NumberNeedsNumberedName | demo/gcc/main.cpp:55-68 | a nonzero number comes only from a name of that form |
| Demo.NumberOfSnapshotName | demo/gcc/main.cpp:55-68 | `positions_41.bin` gives 42 |
| Demo.NoNumberNoStart | demo/gcc/main.cpp:55-68 | `positions.bin` gives 0 |
| Demo.DemoMain | demo/gcc/main.cpp:70-119 | fewer than 2 arguments give -1 with nothing saved; otherwise 0, with the saves of the loop from the start up to 10000 inclusive, every fifth iteration |
| Demo.DemoSavesMultiplesOfFive | demo/gcc/main.cpp:106-116 | iteration `x` is saved iff it is a multiple of 5 between the start and 10000 and no step up to `x` converged |

## Left out

**Input, output and concurrency**

- File and console I/O are not modelled: `ReadFile`, `serialize_to_file` (both overloads), `get_bodies`, the demo's `save` and `readFile`, `print_help`, verbose output and chrono timing. File contents are sequences of ints.
- OpenMP is not modelled, and every loop runs sequentially. Run in parallel, the spring loop of `accumulate` (src/layout.cpp:282-290) races on the forces of shared targets.

**Arithmetic and randomness**

- IEEE floating point is not modelled: reals replace doubles, nothing is rounded, and there are no NaN or infinities. `sqrt` is a parameter with no assumed laws, and `log` appears only in `init_positions`, which is not modelled.
- BarnesHut.Pull: at distance 0 the source divides by zero; the pull is taken as zero.
- LayoutMath.SpringCoefficient: at distance 0 the source divides by zero; the coefficient is taken as zero.
- Octrees.Octree.VisitNode: for an internal node of mass 0 the source divides `massVector` by 0. A component that is 0 becomes NaN, every other component becomes infinite. If no component is 0, the distance is infinite, the theta test passes, and the node is accepted with a NaN pull; if some component is 0, the test fails and the node is opened. The model opens every node of mass 0 and records no offset for it.
- Layouts.Layout.Integrate: requires every mass to be nonzero, because `timeStep / mass` would be infinite.
- LayoutMath.SpeedIsCapped: does not state that a capped velocity has length 1, since that needs laws of `sqrt` the model does not assume.
- `CLayout::init_positions` (src/layout.cpp:216-248) is not modelled: it places bodies randomly, scaled by `log`.
- The clock-seeded `CRandom()` (include/Random.h:15-17) and src/Random.h's `rand()` are not modelled.
- Numerals.ToInt32: the `stoi(...) + 1` of the demo overflows at INT_MAX, which is undefined in C++; the model takes two's-complement wrap-around.

**Operators and types**

- The compound operators `+=`, `-=` and `*=` are not separate members. They are the reassignment `v := Add(v, w)` (or `Sub`, `Mul`, `Scale`), equal to the binary operator by construction.
- Getters are not separate members: a getter is a read of the field.
- Vector division by zero is excluded by a `requires`.
- The `Body` type that quadTree.h points to is not part of this model, so resident bodies of `QuadTreeNode` are opaque references.
- `inc_in_edges` is called at src/layout.cpp:168 but declared in no header shown. It is modelled as adding one to the incoming-link counter.

**Octree**

- Node pointers are pool indices. The model therefore does not show that `pool.insert` in `get` (include/Octree.h:52) can invalidate node pointers that `insert` still holds once more than 8n nodes are in use.
- Octrees.Octree.Insert: recursion is bounded by a depth of 4096, which the source does not have; running out counts as a failed insert, with the node where it ran out as the witness.
- Octrees.Octree.Insert: above Unstack, a moved body is only said to lie on the jitter point of some issued node's box for some generator state. Which leaf it was, and that it was that leaf's resident, are stated by Unstack and Dislodge alone.
- Octrees.Octree.InsertBodies: does not state that each resident lies inside its leaf's box. The tree invariant is about the links between nodes, and containment is stated only for a jitter point in an ordered box (Dislodge, OctreeGeometry.JitterInside).
- Octrees.Octree.InsertBodies: does not state the mass and centroid of every node over the whole build, only the per-node update in Insert. Ancestors keep a resident's pre-jitter position in their `massVector`.
- The branch of `updateBodyForce` for `queue.size() < pushIndex` (src/Octree.cpp:255-257) is dead, since the queue always holds `pushIndex + 1` entries. The model has the append only.
- The quad tree's own `createRootNode`, `insert`, `insertBodies` and `updateBodyForce` (include/quadTree.h:64-72) are declarations without definitions here, so only the node pool of quadTree.h is modelled.

**Layout**

- Layouts.Layout.LoadLinks: requires a body vector that starts empty. It also requires entries other than 0 (which would index vertex -1) and INT_MIN (whose `abs` overflows).
- Layouts.Layout.LoadPositions: requires at least three ints per body; the source reads past the end of a short file.
- The constructor `CLayout()` is not modelled as one operation. It chains `load_links`, then `load_positions()` and `load_weights()` (src/layout.cpp:29-33, 85-137), choosing a file load or a default from the settings. The model has each loader on file content.
- Layouts.Layout.Step: does not return the failure witness of `insertBodies`. Accumulate states it, but over positions that `integrate` then moves.
- Layouts.Layout.Accumulate: force conservation is not part of its contract. It is the separate lemma LayoutMath.SpringPassKeepsTotal, about the spring pass that the contract names.

**Application and demo**

- A file name is a sequence of characters, one per byte of the `std::string`. `std::regex`'s `.` then excludes only `\n` and `\r`; multi-byte encodings are not modelled.
- Exceptions are `Err` or `Fail` values. The try/catch of src/main.cpp and base_exception.h are not this model.
- Application.Run: the layout is the function `converged`. Failures of `CLayout()` while loading files are not part of its result.
- Demo.DemoMain: the layout is the function `converged`; reading the files and the first argument's graph are not modelled.
