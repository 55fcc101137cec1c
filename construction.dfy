/**
 * `BSPNode.init?(_:isConvex:)` (lines 143-183): the general path seeds a
 * root with the first polygon's plane and inserts every polygon; the convex
 * path groups the shuffled polygons by plane and builds a chain of nodes
 * linked through `back` only.
 */
module Construction {
  import opened Wrappers
  import opened Primitives
  import opened Nodes
  import opened Insertion

  /** `BSPNode(plane:parent:)`: a node with no polygons and no children. */
  function FreshNode(plane: Plane, parent: Option<nat>): (r: Node)
    ensures r.plane == plane && r.parent == parent && r.polygons == []
    ensures r.front.None? && r.back.None?
  {
    Node(plane, [], None, None, parent)
  }

  /**
   * The general path (lines 147-151): the root takes the plane of the first
   * polygon and every polygon is inserted at it. `arena` starts empty (no
   * root) and is left empty for an empty input.
   */
  method BuildGeneral(arena: Arena, polygons: seq<Polygon>, fuel: nat) returns (done: bool)
    requires arena.nodes == []
    modifies arena
    ensures WellFormed(arena.nodes)
    ensures |polygons| == 0 <==> arena.nodes == []
    ensures |polygons| > 0 ==> arena.nodes[0].plane == PlaneOf(arena.geo, polygons[0]) && arena.nodes[0].parent.None?
    ensures done && NeverSpans(arena.geo) ==> AllPolygons(arena.nodes) == multiset(polygons)
    ensures done && OnOwnPlane(arena.geo) ==> AllNonEmpty(arena.nodes)
    ensures |polygons| == 0 ==> done
    ensures NeverSpans(arena.geo) ==> Separated(arena.geo, arena.nodes)
  {
    if |polygons| == 0 {
      return true;
    }
    arena.nodes := [FreshNode(PlaneOf(arena.geo, polygons[0]), None)];
    assert NodeOk(arena.nodes, 0);
    assert AllPolygons(arena.nodes) == multiset{} by {
      assert arena.nodes[..0] == [];
    }
    FitsRoot(arena.geo, arena.nodes, polygons);
    ghost var root := arena.nodes;
    done := arena.Insert(0, polygons, fuel);
    assert NodeExtends(root[0], arena.nodes[0]);
  }

  // ---------------------------------------------------------------------
  // The convex path
  // ---------------------------------------------------------------------

  /**
   * The reordering pass (lines 158-167). For each `i` below `count - 2` the
   * inner loop walks `j` from `i + 1` and swaps a polygon on the plane of
   * `polygons[i]` into slot `k` when `k < j`. Only `swapAt` touches the array:
   * it stays a permutation of its input, and slot 0 never moves. Fewer than
   * two polygons trap in Swift (`0 ..< count - 2` with `count == 1`), hence
   * the precondition; the caller models that trap.
   */
  method GroupByPlane(geo: Geometry, a: array<Polygon>)
    requires a.Length >= 2
    modifies a
    ensures multiset(a[..]) == multiset(old(a[..]))
    ensures a[0] == old(a[0])
  {
    for i := 0 to a.Length - 2
      invariant multiset(a[..]) == multiset(old(a[..]))
      invariant a[0] == old(a[0])
    {
      var plane := PlaneOf(geo, a[i]);
      var k := i + 1;
      for j := i + 1 to a.Length
        invariant i + 1 <= k <= j
        invariant multiset(a[..]) == multiset(old(a[..]))
        invariant a[0] == old(a[0])
      {
        if k < j && geo.isEqual(PlaneOf(geo, a[j]), plane) {
          a[j], a[k] := a[k], a[j];
          k := k + 1;
        }
      }
    }
  }

  /** The polygons of the nodes, node by node in index order. */
  function Concat(nodes: seq<Node>): seq<Polygon>
  {
    if |nodes| == 0 then [] else Concat(nodes[..|nodes| - 1]) + nodes[|nodes| - 1].polygons
  }

  /** The links of a chain: node `k` has no front child, its back child is `k + 1` and its parent `k - 1`. */
  predicate ChainLinks(nodes: seq<Node>)
  {
    forall k | 0 <= k < |nodes| ::
      && nodes[k].front.None?
      && nodes[k].back == (if k + 1 < |nodes| then Some(k + 1) else None)
      && nodes[k].parent == (if k == 0 then None else Some(k - 1))
  }

  /**
   * The planes of a chain: each node is non-empty, takes the plane of its
   * first polygon, every later polygon of it is `isEqual` to that plane, and
   * a node's plane is not `isEqual` to the plane of the node before it.
   */
  ghost predicate ChainPlanes(geo: Geometry, nodes: seq<Node>)
  {
    && (forall k | 0 <= k < |nodes| ::
          && |nodes[k].polygons| > 0
          && nodes[k].plane == PlaneOf(geo, nodes[k].polygons[0])
          && (forall m | 1 <= m < |nodes[k].polygons| :: geo.isEqual(PlaneOf(geo, nodes[k].polygons[m]), nodes[k].plane)))
    && (forall k | 1 <= k < |nodes| :: !geo.isEqual(PlaneOf(geo, nodes[k].polygons[0]), nodes[k - 1].plane))
  }

  /** A chain is a tree. */
  lemma ChainIsTree(nodes: seq<Node>)
    requires ChainLinks(nodes)
    ensures WellFormed(nodes)
  {
    forall i | 0 <= i < |nodes| ensures NodeOk(nodes, i) {
      if i > 0 {
        assert nodes[i - 1].back == Some(i);
      }
      if i + 1 < |nodes| {
        assert nodes[i + 1].parent == Some(i);
      }
    }
  }

  /** A chain stores exactly the polygons it concatenates. */
  lemma {:induction false} ChainContents(nodes: seq<Node>)
    ensures AllPolygons(nodes) == multiset(Concat(nodes))
  {
    if |nodes| > 0 {
      ChainContents(nodes[..|nodes| - 1]);
    }
  }

  /** Below node `k` of a chain lie exactly the polygons of nodes `k` and after. */
  lemma {:induction false} ChainTreeSize(nodes: seq<Node>, k: nat)
    requires ChainLinks(nodes) && k < |nodes|
    ensures WellFormed(nodes)
    ensures TreeSize(nodes, k) == |Concat(nodes)| - |Concat(nodes[..k])|
    decreases |nodes| - k
  {
    ChainIsTree(nodes);
    ConcatPrefix(nodes, k + 1);
    assert nodes[..k + 1][..k] == nodes[..k];
    if k + 1 < |nodes| {
      ChainTreeSize(nodes, k + 1);
    } else {
      assert nodes[..k + 1] == nodes;
    }
  }

  lemma ConcatPrefix(nodes: seq<Node>, k: nat)
    requires 0 < k <= |nodes|
    ensures Concat(nodes[..k]) == Concat(nodes[..k - 1]) + nodes[k - 1].polygons
  {
    assert nodes[..k][..k - 1] == nodes[..k - 1];
  }

  /**
   * The chain build (lines 169-182): the first polygon seeds node 0; each
   * later polygon joins the last node when its plane `isEqual`s that node's
   * plane, and otherwise starts a new node hung on the last node's `back`.
   */
  method BuildChain(geo: Geometry, ps: seq<Polygon>) returns (nodes: seq<Node>)
    requires |ps| > 0
    ensures ChainLinks(nodes) && ChainPlanes(geo, nodes)
    ensures Concat(nodes) == ps
    ensures WellFormed(nodes) && AllNonEmpty(nodes)
    ensures AllPolygons(nodes) == multiset(ps)
  {
    nodes := [FreshNode(PlaneOf(geo, ps[0]), None).(polygons := [ps[0]])];
    var parent: nat := 0;
    assert Concat(nodes) == [ps[0]] by {
      assert nodes[..0] == [];
    }
    for m := 1 to |ps|
      invariant |nodes| >= 1 && parent == |nodes| - 1
      invariant ChainLinks(nodes) && ChainPlanes(geo, nodes)
      invariant Concat(nodes) == ps[..m]
    {
      assert ps[..m + 1] == ps[..m] + [ps[m]];
      var polygon := ps[m];
      if geo.isEqual(PlaneOf(geo, polygon), nodes[parent].plane) {
        JoinKeepsChain(geo, nodes, polygon);
        nodes := nodes[parent := nodes[parent].(polygons := nodes[parent].polygons + [polygon])];
      } else {
        GrowKeepsChain(geo, nodes, polygon);
        var node := FreshNode(PlaneOf(geo, polygon), Some(parent)).(polygons := [polygon]);
        nodes := nodes[parent := nodes[parent].(back := Some(|nodes|))] + [node];
        parent := |nodes| - 1;
      }
    }
    assert ps[..|ps|] == ps;
    ChainIsTree(nodes);
    ChainContents(nodes);
  }

  /** A polygon on the last node's plane joins the last node. */
  lemma JoinKeepsChain(geo: Geometry, nodes: seq<Node>, p: Polygon)
    requires |nodes| >= 1 && ChainLinks(nodes) && ChainPlanes(geo, nodes)
    requires geo.isEqual(PlaneOf(geo, p), nodes[|nodes| - 1].plane)
    ensures var last := |nodes| - 1;
            var r := nodes[last := nodes[last].(polygons := nodes[last].polygons + [p])];
            ChainLinks(r) && ChainPlanes(geo, r) && Concat(r) == Concat(nodes) + [p]
  {
    var last := |nodes| - 1;
    var r := nodes[last := nodes[last].(polygons := nodes[last].polygons + [p])];
    assert r[..last] == nodes[..last];
    assert forall k | 0 <= k < |r| :: |r[k].polygons| > 0 && r[k].polygons[0] == nodes[k].polygons[0];
  }

  /** A polygon off the last node's plane starts a new node behind it. */
  lemma GrowKeepsChain(geo: Geometry, nodes: seq<Node>, p: Polygon)
    requires |nodes| >= 1 && ChainLinks(nodes) && ChainPlanes(geo, nodes)
    requires !geo.isEqual(PlaneOf(geo, p), nodes[|nodes| - 1].plane)
    ensures var last := |nodes| - 1;
            var r := nodes[last := nodes[last].(back := Some(|nodes|))] + [Node(PlaneOf(geo, p), [p], None, None, Some(last))];
            ChainLinks(r) && ChainPlanes(geo, r) && Concat(r) == Concat(nodes) + [p]
  {
    var last := |nodes| - 1;
    var mid := nodes[last := nodes[last].(back := Some(|nodes|))];
    var r := mid + [Node(PlaneOf(geo, p), [p], None, None, Some(last))];
    assert r[..|nodes|] == mid;
    ConcatRelink(nodes, nodes[last].(back := Some(|nodes|)));
  }

  lemma ConcatRelink(nodes: seq<Node>, node: Node)
    requires |nodes| > 0 && node.polygons == nodes[|nodes| - 1].polygons
    ensures Concat(nodes[|nodes| - 1 := node]) == Concat(nodes)
  {
    assert nodes[|nodes| - 1 := node][..|nodes| - 1] == nodes[..|nodes| - 1];
  }

  /**
   * The convex path (lines 153-182) on `shuffled`, the input after
   * `shuffled(using:)`: group it in place, then build the chain. The chain
   * stores exactly the input polygons, and holds their grouped order.
   */
  method BuildConvex(geo: Geometry, shuffled: seq<Polygon>) returns (nodes: seq<Node>, grouped: seq<Polygon>)
    requires |shuffled| >= 2
    ensures multiset(grouped) == multiset(shuffled) && grouped[0] == shuffled[0]
    ensures ChainLinks(nodes) && ChainPlanes(geo, nodes) && Concat(nodes) == grouped
    ensures WellFormed(nodes) && AllNonEmpty(nodes)
    ensures AllPolygons(nodes) == multiset(shuffled)
    ensures TreeSize(nodes, 0) == |shuffled|
  {
    var a := new Polygon[|shuffled|](i requires 0 <= i < |shuffled| => shuffled[i]);
    assert a[..] == shuffled;
    GroupByPlane(geo, a);
    grouped := a[..];
    nodes := BuildChain(geo, grouped);
    ChainTreeSize(nodes, 0);
    assert nodes[..0] == [];
    assert |grouped| == |multiset(grouped)|;
  }
}
