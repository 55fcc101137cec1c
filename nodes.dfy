/**
 * The nodes of a BSP tree, kept in an arena: a tree is a sequence of nodes,
 * the root is node 0, `front`, `back` and `parent` are indices into the
 * sequence, and the empty sequence is the empty tree (`root == nil`).
 * Children always sit at larger indices than their parent, so the links can
 * never form a cycle.
 */
module Nodes {
  import opened Wrappers
  import opened Primitives

  /** `BSPNode`: a splitting plane, the polygons lying on it, two optional children, a non-owning parent. */
  datatype Node = Node(plane: Plane, polygons: seq<Polygon>, front: Option<nat>, back: Option<nat>, parent: Option<nat>)

  /** A child link of node `i`: it points further into the arena, at a node whose parent is `i`. */
  predicate ChildOk(nodes: seq<Node>, i: nat, child: Option<nat>)
  {
    child.Some? ==> i < child.value < |nodes| && nodes[child.value].parent == Some(i)
  }

  /** Node 0 is the root; every other node is a child of an earlier node, named by its `parent`. */
  predicate LinkedFromParent(nodes: seq<Node>, i: nat)
    requires i < |nodes|
  {
    match nodes[i].parent
    case None => i == 0
    case Some(p) => p < i && (nodes[p].front == Some(i) || nodes[p].back == Some(i))
  }

  predicate NodeOk(nodes: seq<Node>, i: nat)
    requires i < |nodes|
  {
    && ChildOk(nodes, i, nodes[i].front)
    && ChildOk(nodes, i, nodes[i].back)
    && (nodes[i].front.Some? && nodes[i].back.Some? ==> nodes[i].front.value != nodes[i].back.value)
    && LinkedFromParent(nodes, i)
  }

  /** The arena is a tree rooted at node 0. */
  predicate WellFormed(nodes: seq<Node>)
  {
    forall i | 0 <= i < |nodes| :: NodeOk(nodes, i)
  }

  /** The children of a node, front first, as `pushChildren` pushes them. */
  function Children(node: Node): (cs: seq<nat>)
    ensures |cs| == (if node.front.Some? then 1 else 0) + (if node.back.Some? then 1 else 0)
    ensures forall c :: c in cs <==> node.front == Some(c) || node.back == Some(c)
    ensures node.front.Some? ==> cs[0] == node.front.value
    ensures node.back.Some? ==> cs[|cs| - 1] == node.back.value
  {
    (if node.front.Some? then [node.front.value] else []) + (if node.back.Some? then [node.back.value] else [])
  }

  /** The children of node `i` are later nodes of the arena. */
  lemma ChildrenInRange(nodes: seq<Node>, i: nat)
    requires WellFormed(nodes) && i < |nodes|
    ensures forall k | 0 <= k < |Children(nodes[i])| :: i < Children(nodes[i])[k] < |nodes|
  {
    assert NodeOk(nodes, i);
  }

  /** The number of nodes in the subtree rooted at `i`. */
  function NodeCount(nodes: seq<Node>, i: nat): (n: nat)
    requires WellFormed(nodes) && i < |nodes|
    ensures n >= 1
    decreases |nodes| - i
  {
    assert NodeOk(nodes, i);
    1
    + (if nodes[i].front.Some? then NodeCount(nodes, nodes[i].front.value) else 0)
    + (if nodes[i].back.Some? then NodeCount(nodes, nodes[i].back.value) else 0)
  }

  /** The number of polygons stored in the subtree rooted at `i`. */
  function TreeSize(nodes: seq<Node>, i: nat): nat
    requires WellFormed(nodes) && i < |nodes|
    decreases |nodes| - i
  {
    assert NodeOk(nodes, i);
    |nodes[i].polygons|
    + (if nodes[i].front.Some? then TreeSize(nodes, nodes[i].front.value) else 0)
    + (if nodes[i].back.Some? then TreeSize(nodes, nodes[i].back.value) else 0)
  }

  /** Every polygon stored anywhere in the arena. */
  ghost function AllPolygons(nodes: seq<Node>): multiset<Polygon>
  {
    if |nodes| == 0 then multiset{} else AllPolygons(nodes[..|nodes| - 1]) + multiset(nodes[|nodes| - 1].polygons)
  }

  /** Every node stores at least one polygon. */
  predicate AllNonEmpty(nodes: seq<Node>)
  {
    forall i | 0 <= i < |nodes| :: |nodes[i].polygons| > 0
  }

  /** `y` is `x` after polygons were appended to it or a missing child was attached. */
  ghost predicate NodeExtends(x: Node, y: Node)
  {
    && y.plane == x.plane
    && y.parent == x.parent
    && x.polygons <= y.polygons
    && (x.front.Some? ==> y.front == x.front)
    && (x.back.Some? ==> y.back == x.back)
  }

  /**
   * `b` grows the tree `a`: nodes are only appended, no stored polygon is
   * removed or reordered, and no existing child is replaced.
   */
  ghost predicate Extends(a: seq<Node>, b: seq<Node>)
  {
    |a| <= |b| && forall i | 0 <= i < |a| :: NodeExtends(a[i], b[i])
  }

  lemma ExtendsReflexive(a: seq<Node>)
    ensures Extends(a, a)
  {
  }

  lemma ExtendsTransitive(a: seq<Node>, b: seq<Node>, c: seq<Node>)
    requires Extends(a, b) && Extends(b, c)
    ensures Extends(a, c)
  {
    forall i | 0 <= i < |a| ensures NodeExtends(a[i], c[i]) {
      assert NodeExtends(a[i], b[i]) && NodeExtends(b[i], c[i]);
    }
  }

  /** Appending `more` polygons to node `i` adds exactly them to the arena's contents. */
  lemma {:induction false} AllPolygonsAppend(nodes: seq<Node>, i: nat, more: seq<Polygon>)
    requires i < |nodes|
    ensures AllPolygons(nodes[i := nodes[i].(polygons := nodes[i].polygons + more)])
         == AllPolygons(nodes) + multiset(more)
    decreases |nodes|
  {
    var nodes' := nodes[i := nodes[i].(polygons := nodes[i].polygons + more)];
    var n := |nodes| - 1;
    if i == n {
      assert nodes'[..n] == nodes[..n];
    } else {
      assert nodes'[..n] == nodes[..n][i := nodes[i].(polygons := nodes[i].polygons + more)];
      AllPolygonsAppend(nodes[..n], i, more);
    }
  }

  /** Changing the links of a node does not change the arena's contents. */
  lemma {:induction false} AllPolygonsRelink(nodes: seq<Node>, i: nat, node: Node)
    requires i < |nodes| && node.polygons == nodes[i].polygons
    ensures AllPolygons(nodes[i := node]) == AllPolygons(nodes)
    decreases |nodes|
  {
    var n := |nodes| - 1;
    if i == n {
      assert nodes[i := node][..n] == nodes[..n];
    } else {
      assert nodes[i := node][..n] == nodes[..n][i := node];
      AllPolygonsRelink(nodes[..n], i, node);
    }
  }

  /** Appending a node adds its polygons to the arena's contents. */
  lemma AllPolygonsPush(nodes: seq<Node>, node: Node)
    ensures AllPolygons(nodes + [node]) == AllPolygons(nodes) + multiset(node.polygons)
  {
    assert (nodes + [node])[..|nodes|] == nodes;
  }

  // ---------------------------------------------------------------------
  // Subtrees cover the arena
  // ---------------------------------------------------------------------

  /** The number of polygons stored in the nodes, in any order. */
  function Stored(nodes: seq<Node>): nat
  {
    if |nodes| == 0 then 0 else Stored(nodes[..|nodes| - 1]) + |nodes[|nodes| - 1].polygons|
  }

  /** `Stored` counts the arena's contents. */
  lemma {:induction false} StoredCounts(nodes: seq<Node>)
    ensures Stored(nodes) == |AllPolygons(nodes)|
  {
    if |nodes| > 0 {
      StoredCounts(nodes[..|nodes| - 1]);
    }
  }

  /** The sizes of the subtrees of the children of `i` whose index is at least `j`. */
  function ChildSizes(nodes: seq<Node>, i: nat, j: nat): nat
    requires WellFormed(nodes) && i < |nodes|
  {
    assert NodeOk(nodes, i);
    (if nodes[i].front.Some? && nodes[i].front.value >= j then TreeSize(nodes, nodes[i].front.value) else 0)
    + (if nodes[i].back.Some? && nodes[i].back.value >= j then TreeSize(nodes, nodes[i].back.value) else 0)
  }

  /**
   * The frontier below the first `k` nodes, from index `j` on: the sizes of
   * the subtrees of the nodes from `j` whose parent lies among the first `k`.
   */
  function Frontier(nodes: seq<Node>, k: nat, j: nat): nat
    requires WellFormed(nodes) && j <= |nodes|
    decreases |nodes| - j
  {
    if j == |nodes| then 0
    else (if nodes[j].parent.Some? && nodes[j].parent.value < k then TreeSize(nodes, j) else 0)
         + Frontier(nodes, k, j + 1)
  }

  /** Below no node there is no frontier. */
  lemma {:induction false} FrontierNone(nodes: seq<Node>, j: nat)
    requires WellFormed(nodes) && j <= |nodes|
    ensures Frontier(nodes, 0, j) == 0
    decreases |nodes| - j
  {
    if j < |nodes| {
      FrontierNone(nodes, j + 1);
    }
  }

  /** Taking node `k` into the covered prefix adds its children's subtrees to the frontier. */
  lemma {:induction false} FrontierStep(nodes: seq<Node>, k: nat, j: nat)
    requires WellFormed(nodes) && k < j <= |nodes|
    ensures Frontier(nodes, k + 1, j) == Frontier(nodes, k, j) + ChildSizes(nodes, k, j)
    decreases |nodes| - j
  {
    assert NodeOk(nodes, k);
    if j < |nodes| {
      FrontierStep(nodes, k, j + 1);
      assert NodeOk(nodes, j);
      assert nodes[j].parent == Some(k) <==> nodes[k].front == Some(j) || nodes[k].back == Some(j);
    }
  }

  /** From the root, the subtree sizes are the first `k` nodes' polygons plus the frontier below them. */
  lemma {:induction false} RootCovers(nodes: seq<Node>, k: nat)
    requires WellFormed(nodes) && 1 <= k <= |nodes|
    ensures TreeSize(nodes, 0) == Stored(nodes[..k]) + Frontier(nodes, k, k)
  {
    if k == 1 {
      FrontierStep(nodes, 0, 1);
      FrontierNone(nodes, 1);
      assert NodeOk(nodes, 0);
      assert nodes[..1][..0] == [];
    } else {
      var m := k - 1;
      RootCovers(nodes, m);
      assert NodeOk(nodes, m);
      FrontierStep(nodes, m, k);
      assert nodes[..k][..m] == nodes[..m];
    }
  }

  /** `TreeSize` at the root counts every polygon of the arena. */
  lemma SubtreeIsAll(nodes: seq<Node>)
    requires WellFormed(nodes) && |nodes| > 0
    ensures TreeSize(nodes, 0) == |AllPolygons(nodes)|
  {
    RootCovers(nodes, |nodes|);
    assert nodes[..|nodes|] == nodes;
    StoredCounts(nodes);
  }
}
