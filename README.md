# A verified model of Euclid's BSP engine

Euclid's `Sources/BSP.swift` implements the binary space partitioning tree
behind the library's boolean operations on polygonal solids. A solid's
polygons are lowered into a tree of splitting planes. `clip` pushes a batch
of polygons down the tree, splitting and classifying them, and gathers the
fragments a `ClipRule` keeps, rejoining fragments cut from the same source
polygon. `merged` folds one tree's polygon stream into a copy of another.
`translated`, `scaled` and `rotated` rebuild a tree in a new frame.

This project models that file in Dafny and proves properties of the model.

- **Geometry is abstract.** Planes and polygon geometry are opaque types.
  The geometric primitives the engine calls are fields of a `Geometry`
  record that every operation receives as a parameter. These primitives
  are plane-of, plane equality within a tolerance, facing, side
  classification, splitting, clipping against coplanar polygons, and
  joining.
- **A tree is an arena.** It is a sequence of nodes rooted at index 0. The
  `front`, `back` and `parent` links are indices; every child sits at a
  larger index, so the links cannot form a cycle. The empty sequence is
  the empty tree, `root == nil`.
- **Insertion updates in place.** `insert` is a group of methods of an
  `Arena` object, which holds the node sequence and updates it: polygons
  are appended to a node's list, and missing children are attached. The
  general path of `BSPNode.init?` is the module method
  `Construction.BuildGeneral`, which seeds the root in a given `Arena` and
  calls its `Insert`. The convex path builds its node sequence directly,
  without an `Arena`.
- **The other operations only read.** Clipping, traversal and the
  rebuilds work on an immutable snapshot of the tree. `BSPIterator` is a
  class with the source's three fields.

Modules:

| module | file | models |
|---|---|---|
| `Wrappers`, `Primitives` | primitives.dfy | `Option`, polygons, the geometry oracles, `ClipRule` |
| `Nodes` | nodes.dfy | `BSPNode` as an arena node; tree shape, contents and growth |
| `Insertion` | insertion.dfy | `BSPNode.insert` |
| `Construction` | construction.dfy | `BSPNode.init?` (general and convex paths), `init(plane:parent:)` |
| `Clipping` | clipping.dfy | `BSPNode.clip` and its `addPolygons` accumulator |
| `Traversal` | traversal.dfy | `BSPIterator` |
| `Rng` | rng.dfy | `DeterministicRNG` |
| `Rebuild` | rebuild.dfy | `BSPNode.translated/scaled/rotated` |
| `BSPTree` | bsp.dfy | `struct BSP`: `init`, `clip`, `duplicate`, `merged`, the three rebuilds |

The main proved results:

- **Insertion keeps the arena a tree and only grows it.**
  - When no polygon spans a plane, insertion stores exactly the inserted
    polygons.
  - Without spanning polygons it also keeps the tree separated. Every
    stored polygon is coplanar with its node's plane and faces the same
    way. It also lies in front of every ancestor whose front subtree holds
    it, and behind or facing away from every ancestor whose back subtree
    holds it.
  - Each round recurses into the smaller partition, front on a tie. It
    carries on with the larger one at the front child, the back child or
    the node itself.
  - When every polygon lies on its own plane, every node insertion creates
    ends up holding a polygon.
  - Inserting nothing completes and changes nothing.
- **Subtree sizes count the whole tree.** The number of polygons below the
  root is the number the arena stores. So when a general-path build
  completes with nothing spanning and every polygon on its own plane, a
  full traversal yields as many items as there were inputs.
- **Clipping.**
  - The loop of `clip` recurses into the smaller side and iterates into
    the larger. When nothing is rejoined, it computes the plain two-sided
    recursion over both children.
  - `addPolygons` never disturbs entries with another lineage id. It
    appends unchanged a polygon whose id is 0.
- **The iterator as written.**
  - After each pop, `next()` returns the first polygon of the node it just
    left, so a node's first polygon comes out only at the following pop.
    With no empty node, the root's first polygon comes out twice and the
    last popped node's first polygon never comes out.
  - When no node is empty, it still yields as many items as the tree holds
    polygons.
  - An empty node that is current at the start of a call ends the whole
    traversal.
- **The convex path builds a back-linked chain.** The chain holds exactly
  the input polygons, one node per run of equal planes.
- **Rebuilds.**
  - A rebuild keeps the tree's shape.
  - Rebuilds compose.
  - A transform that changes nothing rebuilds the same tree.
  - Iterating over a rebuilt tree yields the transformed items.
- **The generator never overflows** a 64-bit `Int`, and its outputs stay
  below 233280.

The engine's design intent and its code disagree in one place, and the
model follows the code. The intent is that full traversal yields every
stored polygon exactly once. `next()` as written binds the current node
before its loop, and reads the returned polygon from that node even after
the loop has popped another. `Traversal.TwoNodeTraversal` shows the
effect: a root holding `a` with a back child holding `b` yields `a` twice
and never `b`. `Traversal.ThreeNodeTraversal` shows the lag on a chain
of three nodes holding `a`, `b` and `c`: it yields `[a, a, b]`. `merged` takes the other tree's polygons from this
iterator, so `BSPTree.Merged` inserts the iterator's items as written.

## Model

| member | source | states |
|---|---|---|
| Primitives.KeepFront | Sources/BSP.swift:251 | the rule keeps the front side exactly for `.greaterThan` and `.greaterThanEqual`, the back side exactly for the other two |
| Nodes.Children | Sources/BSP.swift:52-61 | a node's pushed children are exactly its front and back links, one entry per present link, with the front link first and the back link last |
| Nodes.ChildrenInRange | Sources/BSP.swift:52-61 | the children pushed for a node are nodes further into the arena |
| Nodes.StoredCounts | Sources/BSP.swift:136-140 | the number of polygons stored node by node is the size of the arena's contents |
| Nodes.RootCovers | Sources/BSP.swift:136-140 | the polygons below the root are those of the first `k` nodes plus the subtrees hanging from them at later nodes |
| Nodes.SubtreeIsAll | Sources/BSP.swift:136-140 | the number of polygons below the root is the number of polygons the arena stores |
| Insertion.RouteIsSelection | Sources/BSP.swift:295-311 | the node keeps exactly the same-facing coplanar polygons, in input order; when nothing spans, the front and back lists are exactly the front and back (including opposite-facing coplanar) polygons, in input order |
| Insertion.RouteConserves | Sources/BSP.swift:295-311 | without spanning polygons, every input polygon lands in exactly one of the three lists |
| Insertion.RoutePolygons | Sources/BSP.swift:294-311 | the classification loop fills the three lists as the routing function does |
| Insertion.AttachKeepsTree | Sources/BSP.swift:313-318 | attaching a fresh child where none was keeps the arena a tree, only grows it and stores the same polygons |
| Insertion.RouteKeepsSeed | Sources/BSP.swift:296-299 | when polygons lie on their own plane, routing at the node seeded from the first polygon keeps that polygon in the node's list |
| Insertion.FillRound | Sources/BSP.swift:313-328 | one round keeps the filling invariant: every node created so far holds a polygon, except the node the loop moves to, which the remaining polygons seed |
| Insertion.FitsRoot | Sources/BSP.swift:147-150 | any polygons may be stored at or below the root |
| Insertion.FitsExtends | Sources/BSP.swift:313-318 | growing the tree does not change which polygons an existing node may hold |
| Insertion.AttachSeparated | Sources/BSP.swift:313-318 | attaching a fresh empty child keeps the tree separated |
| Insertion.SeparatedAppend | Sources/BSP.swift:297-299 | appending to a node polygons that are coplanar, same-facing and on the path's side of every ancestor keeps the tree separated |
| Insertion.KeepSeparates | Sources/BSP.swift:294-311 | without spanning, routing at a node keeps the tree separated and leaves the front partition in the node's front bucket and the back partition in its back bucket, each storable below the node |
| Insertion.RestFits | Sources/BSP.swift:320-327 | the partition the loop carries on with may be stored at the node it moves to |
| Insertion.DescendEnd | Sources/BSP.swift:320-328 | after the smaller partition went to its child, the loop moves to the front child, the back child or the node itself, and the filling and separation invariants hold there for the larger partition |
| Insertion.Arena.Seed | Sources/BSP.swift:313-318 | a missing child is created with the plane of the partition's first polygon exactly when the partition is non-empty; an existing child is kept; nothing else changes |
| Insertion.Arena.Keep | Sources/BSP.swift:294-311 | the node's list gains exactly the polygons it keeps; front and back are the routed partitions; without spanning polygons nothing is lost |
| Insertion.Arena.SeedBoth | Sources/BSP.swift:313-318 | a non-empty partition always has its child afterwards; every created node is that child and is seeded by its partition; the node's list is unchanged |
| Insertion.Arena.Distribute | Sources/BSP.swift:294-318 | one round at a node: tree kept and only grown, routing result, list growth, children present for non-empty partitions, conservation, seeding |
| Insertion.Arena.Insert | Sources/BSP.swift:290-330 | the arena stays a tree and only grows; empty input completes and changes nothing; when it completes without spanning polygons it stores exactly the old contents plus the inserted polygons; without spanning polygons a separated tree into which polygons that may be stored at `n` are inserted stays separated; when it completes and polygons lie on their own planes, every created node, and a node the input seeded, holds a polygon |
| Insertion.Arena.Round | Sources/BSP.swift:293-328 | one loop iteration: the node's list gains the polygons it keeps; the loop carries on with the larger routed partition (back on a tie) at the front child, the back child, or the node itself when there is no back child; conservation, filling and separation are kept |
| Insertion.Arena.Descend | Sources/BSP.swift:320-328 | the smaller partition (front on a tie) goes to its side's child, and nothing changes when that child is missing; the larger partition is returned with the node the loop moves to; a completed descent with nothing spanning adds exactly the smaller partition to the tree, and the filling and separation invariants hold at the next node |
| Insertion.Arena.InsertAtChild | Sources/BSP.swift:320-326 | `node.front?.insert(front)` and `node.back?.insert(back)`: inserting into the side's child, or changing nothing when there is none or the partition is empty; the tree gains exactly the partition (nothing spanning) and stays separated when the partition may be stored at the child |
| Construction.FreshNode | Sources/BSP.swift:185-188 | `init(plane:parent:)` gives a node with that plane and parent, no polygons and no children |
| Construction.BuildGeneral | Sources/BSP.swift:144-151 | no root exactly for empty input, which completes; the root takes the first polygon's plane and has no parent; a completed build stores exactly the input (nothing spanning) and leaves no node empty (polygons on their own planes); without spanning polygons the tree is separated |
| Construction.GroupByPlane | Sources/BSP.swift:158-167 | the reordering pass is a permutation of the array and never moves slot 0 |
| Construction.ChainIsTree | Sources/BSP.swift:169-182 | links of a back-only chain form a well-formed tree |
| Construction.ChainContents | Sources/BSP.swift:169-182 | a chain stores exactly the polygons its nodes concatenate |
| Construction.ChainTreeSize | Sources/BSP.swift:169-182 | below chain node `k` lie exactly the polygons of nodes `k` onwards |
| Construction.JoinKeepsChain | Sources/BSP.swift:174-176 | a polygon on the last node's plane joins that node and the chain properties hold |
| Construction.GrowKeepsChain | Sources/BSP.swift:178-181 | a polygon off the last node's plane starts a new back child and the chain properties hold |
| Construction.BuildChain | Sources/BSP.swift:169-182 | the chain links only through `back`, one node per run of `isEqual` planes with the plane of its first polygon, holding the polygons in order; it is a tree with no empty node storing exactly the input |
| Construction.BuildConvex | Sources/BSP.swift:153-182 | the grouped order is a permutation keeping the first polygon; the chain holds it and stores exactly the input, with as many polygons below the root as inputs |
| Clipping.JoinScanRemovesOnlySameId | Sources/BSP.swift:241-247 | the backward join scan removes only entries with the added polygon's id, keeps the rest in order, never adds one, and the joined polygon keeps the id |
| Clipping.AddOneEffect | Sources/BSP.swift:235-249 | a polygon with id 0 is appended unchanged; one with another id leaves entries of other ids as they were, removes only entries of its own, and ends up last |
| Clipping.JoinScanNoJoin | Sources/BSP.swift:241-247 | when nothing is ever joined the scan removes nothing |
| Clipping.AddAllNoJoin | Sources/BSP.swift:234-250 | when nothing is ever joined, `addPolygons` is concatenation |
| Clipping.AddAllConcat | Sources/BSP.swift:234-250 | two `addPolygons` calls in a row are one call on the concatenation |
| Clipping.AddPolygons | Sources/BSP.swift:234-250 | the nested loop with `remove(at:)` computes the accumulation function |
| Clipping.ScanBack | Sources/BSP.swift:240-247 | the backward loop with `remove(at:)` leaves the survivors and the joined polygon the scan function describes |
| Clipping.SplitAllConserves | Sources/BSP.swift:254-256 | without spanning polygons, splitting only sorts polygons into coplanar, front and back, and leaves the counter alone |
| Clipping.FacingCoplanarGoFront | Sources/BSP.swift:257-268 | under `.greaterThanEqual` and `.lessThan`, same-facing coplanar polygons go to front unchanged and in order |
| Clipping.PartitionAt | Sources/BSP.swift:253-268 | the two loops at the top of a round compute the partition function |
| Clipping.Clip | Sources/BSP.swift:226-288 | the loop-and-recursion walk computes the clip function; empty input gives an empty result and leaves the counter alone |
| Clipping.ClipIsTwoSided | Sources/BSP.swift:269-287 | without joins the walk appends exactly what the two-sided recursion keeps, in the same order and with the same counter |
| Clipping.ClipAtLeaf | Sources/BSP.swift:269-285 | at a childless node exactly the side the rule keeps is accumulated |
| Traversal.Pushed | Sources/BSP.swift:52-61 | `pushChildren` appends the current node's children, front then back, and nothing else |
| Traversal.Pop | Sources/BSP.swift:70-72 | popping makes the top node current at index 0 and lowers the stack measure |
| Traversal.Settle | Sources/BSP.swift:66-74 | the loop of `next` stops inside the bound node or with an empty stack, and does nothing when the index is in range |
| Traversal.NextOf | Sources/BSP.swift:63-79 | no current node yields `nil` with no change; a `nil` leaves the state or an empty stack; a yielded item makes progress |
| Traversal.BSPIterator.constructor | Sources/BSP.swift:47-50 | the fresh iterator is at the root with its children pushed |
| Traversal.BSPIterator.PushChildren | Sources/BSP.swift:52-61 | the method pushes exactly the children `Pushed` describes |
| Traversal.BSPIterator.PopTop | Sources/BSP.swift:69-73 | one pass of the loop in `next()` pops the top node, makes it current at index 0 and pushes its children, as `Pop` describes |
| Traversal.BSPIterator.Next | Sources/BSP.swift:63-79 | `next()` returns the item and leaves the state `NextOf` describes, stale node included |
| Traversal.Collect | Sources/BSP.swift:86-88 | `Array(bsp.polygons)` collects exactly the items the traversal yields |
| Traversal.EmptyTreeYieldsNothing | Sources/BSP.swift:63-64 | an empty tree yields nothing |
| Traversal.DrainsCurrentNode | Sources/BSP.swift:63-79 | from index `k`, the rest of the current node comes out in order |
| Traversal.RootComesFirst | Sources/BSP.swift:47-79 | the traversal begins with the root's polygons in order |
| Traversal.StalePop | Sources/BSP.swift:63-79 | once the current node is exhausted, a call pops the top node, makes it current at index 1 and returns the previous node's first polygon |
| Traversal.EmptyNodeDrainsStack | Sources/BSP.swift:64-74 | an empty node current at the start of a call empties the stack and returns `nil` |
| Traversal.DrainCount | Sources/BSP.swift:63-79 | with no empty node, a cursor yields what is left of its node plus every polygon below the stack |
| Traversal.TraversalCount | Sources/BSP.swift:42-88 | with no empty node, full traversal yields as many items as the tree stores polygons |
| Traversal.TwoNodeTraversal | Sources/BSP.swift:63-79 | root `a` with back child `b` yields `[a, a]` |
| Traversal.ThreeNodeTraversal | Sources/BSP.swift:63-79 | a back chain `a`, `b`, `c` yields `[a, a, b]`: each node's first polygon comes out one pop late and the last node's never |
| Rng.NextSeed | Sources/BSP.swift:131 | every seed after a step is below the modulus |
| Rng.OutputsInRange | Sources/BSP.swift:130-133 | the `k`-th output is the seed after `k + 1` steps and is below 233280 |
| Rng.FirstOutput | Sources/BSP.swift:124-132 | a fresh generator first returns 49297 |
| Rng.NoOverflow | Sources/BSP.swift:124-131 | no intermediate of the recurrence exceeds `Int.max`, so the step never traps |
| Rng.DeterministicRNG.constructor | Sources/BSP.swift:128 | the seed starts at 0 |
| Rng.DeterministicRNG.Next | Sources/BSP.swift:130-133 | `next()` steps the seed and returns the new seed |
| Rng.Draw | Sources/BSP.swift:123-134 | drawing `n` values from a fresh generator gives the recurrence's first `n` outputs |
| Rebuild.RebuildKeepsShape | Sources/BSP.swift:190-224 | the rebuilt tree has the same links, each child's parent is the copy of its parent, planes and lists are transformed, and subtree sizes are equal |
| Rebuild.RebuildComposes | Sources/BSP.swift:190-224 | rebuilding twice is one rebuild with the composed transform |
| Rebuild.RebuildIdentity | Sources/BSP.swift:190-224 | a transform that changes nothing rebuilds the same tree |
| Rebuild.RebuildRoundTrip | Sources/BSP.swift:190-224 | a transform followed by its inverse gives back the tree |
| Rebuild.NextAgrees | Sources/BSP.swift:190-224 | one `next()` on the rebuilt tree yields the transformed item and the same cursor |
| Rebuild.TraversalCommutes | Sources/BSP.swift:190-224 | iterating a rebuilt tree yields the transformed items of iterating the original |
| Rebuild.StartAgrees | Sources/BSP.swift:190-224 | a rebuilt tree's iterator starts in the original's state |
| BSPTree.Init | Sources/BSP.swift:143-183 | empty input gives no root; the general path's tree stores exactly the input when complete and nothing spans, is separated when nothing spans, and a complete build with polygons on their own planes traverses to as many items as inputs; a single polygon on the convex path traps; otherwise the convex path's chain stores exactly the input, starts with the first shuffled polygon, and traverses to as many items as inputs |
| BSPTree.ZeroIdsMeaning | Sources/BSP.swift:24-28 | zeroing ids keeps each polygon's geometry and place, clears every id, is idempotent and changes nothing when all ids are 0 |
| BSPTree.Clip | Sources/BSP.swift:23-30 | an empty tree returns the polygons with ids zeroed; otherwise the clip of the zeroed polygons from the root with the counter at 0 |
| BSPTree.ClipKeepsTwoSided | Sources/BSP.swift:23-30 | without joins, `BSP.clip` keeps what the two-sided recursion keeps |
| BSPTree.Rebuilt | Sources/BSP.swift:104-120 | an empty tree is returned as it is; the rebuilt tree is well formed and the same size, and its traversal yields the transformed items |
| BSPTree.RebuildIdentityOnTree | Sources/BSP.swift:104-108 | rebuilding with a transform that changes nothing returns the tree |
| BSPTree.Duplicate | Sources/BSP.swift:38-40 | the copy is a tree, equal to the original when the zero translation changes nothing |
| BSPTree.Merged | Sources/BSP.swift:90-102 | with no root, the other tree's copy; with an empty other tree, this tree's copy, completed; otherwise the copy of this tree, only grown, stores its own polygons plus the other tree's traversal items (nothing spanning), leaves no node empty, and stays separated when the copy was |

## Left out

- Floating-point geometry: vector, plane and polygon arithmetic is not modelled. The primitives are opaque functions of a `Geometry` record. Every property that needs geometry is conditioned on a stated predicate: `NeverSpans`, `NeverJoins`, `JoinKeepsId` or `OnOwnPlane`.
- `Polygon.split(along:…)`, `compare(with:)`, `split(spanning:…)`, `clip(to:…)` and `join(unchecked:ensureConvex:)` are defined in files that are not part of this model. `split(along:)` is modelled as classification followed by `split(spanning:)`, with coplanar polygons collected separately.
- `shuffled(using:)` is the standard library shuffle driven by `DeterministicRNG`. Its algorithm is not part of this model. The convex path takes the shuffled order as a parameter constrained to be a permutation of the input. `Rng` models the generator itself.
- Termination of `insert` depends on the geometry (a splitting oracle could keep producing fragments). The rounds and recursion depth of `Insertion.Arena.Insert` are therefore bounded by a `fuel` argument, and the result flag says whether the work completed. All completeness guarantees are stated for completed runs.
- The weak `parent` reference is a plain index. Reference counting and destruction order are not modelled.
- Object identity and sharing among rebuilt and duplicated trees are not modelled, because trees are values after construction. A rebuild is modelled as an index-preserving map over the arena.
- `Mesh`, and the `Example` app sources, are not part of this model. `BSPTree.Init` takes the mesh's polygons and convexity flag directly.
- Construction.GroupByPlane: states that the pass permutes the array and keeps slot 0, but not that polygons of one plane end up adjacent. `isEqual` is a tolerance comparison with no transitivity guarantee, so adjacency does not follow in general.
- Insertion.Arena.Insert: completion is shown only for empty input. Without spanning polygons no fragments arise, but completion also needs polygons to lie on their own planes: otherwise a polygon that routes to the front at the node seeded with its own plane gets a new front child, seeded with that plane again, every round, and the insertion never ends. That enough fuel makes a non-empty insertion complete when nothing spans and every polygon lies on its own plane is not proved.
- BSPTree.Init: separation is stated for the general path only. That the convex path's back-linked chain is separated depends on the mesh being convex, which the geometry oracles do not describe.
- BSPTree.Merged: the result is stated to be separated only when the copy of this tree is. That a rebuild keeps every polygon on the same side of every plane is a property of the transform's geometry.
- Rng.NoOverflow: a 32-bit `Int` is not modelled. There, `seed * 9301 + 49297` first exceeds `Int32.max` at the 58th call of `next()` (seed 231609 gives 2154244606), so shuffling a large convex mesh would trap.
- Insertion.Arena.Insert: contents are stated as an exact multiset only when no polygon spans a plane. With spanning polygons the splitting oracle decides which fragments replace a polygon.
- BSPTree.Merged: inherits the condition of `Insert`. Merged trees are stated to have no empty node only when `self` had none and polygons lie on their own planes.
- Clipping.ClipIsTwoSided: the two-sided reading is proved only when nothing is rejoined. With joins, the accumulation `AddAll` is the statement of what `clip` returns.
- The property that clipping a solid by its own tree with an all-keeping rule returns the same number of polygons and the same area is not modelled. It depends on the floating-point geometry.
