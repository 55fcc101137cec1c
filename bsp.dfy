/**
 * `struct BSP` (lines 9-121): an optional root and the operations the rest
 * of the library calls: construction from a mesh's polygons, `clip`,
 * `duplicate`, `merged` and the three rigid rebuilds.
 */
module BSPTree {
  import opened Wrappers
  import opened Primitives
  import opened Nodes
  import opened Insertion
  import Clipping
  import opened Traversal
  import opened Rebuild
  import opened Construction

  /** A BSP tree; no nodes is `root == nil`. */
  datatype BSP = BSP(nodes: seq<Node>)

  /**
   * What `BSP(mesh)` produces: a tree, with `complete` false when the
   * fuel bound cut an insertion short; or the runtime trap of the convex
   * path on a single polygon.
   */
  datatype Built = Built(bsp: BSP, complete: bool) | RangeTrap

  /**
   * `init(_ mesh:)` with `BSPNode.init?(_:isConvex:)` (lines 19-21, 143-183).
   * `shuffled` is the input after `shuffled(using:)`, which is some
   * permutation of it.
   */
  method Init(geo: Geometry, polygons: seq<Polygon>, isConvex: bool, shuffled: seq<Polygon>, fuel: nat) returns (r: Built)
    requires multiset(shuffled) == multiset(polygons)
    ensures |polygons| == 0 ==> r == Built(BSP([]), true)
    ensures |polygons| > 0 && !isConvex ==>
              && r.Built? && WellFormed(r.bsp.nodes) && |r.bsp.nodes| > 0
              && r.bsp.nodes[0].plane == PlaneOf(geo, polygons[0])
              && (r.complete && NeverSpans(geo) ==> AllPolygons(r.bsp.nodes) == multiset(polygons))
              && (r.complete && OnOwnPlane(geo) ==> AllNonEmpty(r.bsp.nodes))
              && (NeverSpans(geo) ==> Separated(geo, r.bsp.nodes))
              && (r.complete && NeverSpans(geo) && OnOwnPlane(geo) ==>
                    |Drain(r.bsp.nodes, Start(r.bsp.nodes))| == |polygons|)
    ensures |polygons| == 1 && isConvex ==> r == RangeTrap
    ensures |polygons| >= 2 && isConvex ==>
              && r.Built? && r.complete && WellFormed(r.bsp.nodes) && AllNonEmpty(r.bsp.nodes)
              && ChainLinks(r.bsp.nodes) && ChainPlanes(geo, r.bsp.nodes)
              && AllPolygons(r.bsp.nodes) == multiset(polygons)
              && TreeSize(r.bsp.nodes, 0) == |polygons|
              && r.bsp.nodes[0].polygons[0] == shuffled[0]
              && |Drain(r.bsp.nodes, Start(r.bsp.nodes))| == |polygons|
  {
    if |polygons| == 0 {
      return Built(BSP([]), true);
    }
    if !isConvex {
      var arena := new Arena(geo, []);
      var done := BuildGeneral(arena, polygons, fuel);
      if done && NeverSpans(geo) && OnOwnPlane(geo) {
        TraversalCount(arena.nodes);
        SubtreeIsAll(arena.nodes);
      }
      return Built(BSP(arena.nodes), done);
    }
    assert |shuffled| == |multiset(shuffled)| == |polygons|;
    if |shuffled| == 1 {
      return RangeTrap;
    }
    var nodes, grouped := BuildConvex(geo, shuffled);
    TraversalCount(nodes);
    assert nodes[0].polygons[0] == Concat(nodes)[0] by {
      ConcatHead(nodes);
    }
    return Built(BSP(nodes), true);
  }

  lemma {:induction false} ConcatHead(nodes: seq<Node>)
    requires |nodes| > 0 && |nodes[0].polygons| > 0
    ensures |Concat(nodes)| > 0 && Concat(nodes)[0] == nodes[0].polygons[0]
  {
    if |nodes| > 1 {
      ConcatHead(nodes[..|nodes| - 1]);
    } else {
      assert nodes[..0] == [];
    }
  }

  // ---------------------------------------------------------------------
  // clip
  // ---------------------------------------------------------------------

  /** The polygons with every lineage id set to 0. */
  function ZeroIds(ps: seq<Polygon>): (r: seq<Polygon>)
    ensures |r| == |ps|
  {
    seq(|ps|, i requires 0 <= i < |ps| => ps[i].(id := 0))
  }

  /** Zeroing keeps every polygon's geometry and its place, clears every id, and is idempotent. */
  lemma ZeroIdsMeaning(ps: seq<Polygon>)
    ensures forall i | 0 <= i < |ps| :: ZeroIds(ps)[i].geom == ps[i].geom && ZeroIds(ps)[i].id == 0
    ensures ZeroIds(ZeroIds(ps)) == ZeroIds(ps)
    ensures (forall i | 0 <= i < |ps| :: ps[i].id == 0) ==> ZeroIds(ps) == ps
  {
  }

  /**
   * `BSP.clip(_:_:)` (lines 23-30): zero every id, then clip from the root
   * with the counter at 0; an empty tree returns the zeroed polygons.
   */
  method Clip(geo: Geometry, bsp: BSP, polygons: seq<Polygon>, keeping: ClipRule) returns (r: seq<Polygon>)
    requires WellFormed(bsp.nodes)
    ensures |bsp.nodes| == 0 ==> r == ZeroIds(polygons)
    ensures |bsp.nodes| > 0 ==> r == Clipping.ClipInto(geo, bsp.nodes, 0, ZeroIds(polygons), keeping, [], 0).polygons
    ensures |polygons| == 0 ==> r == []
  {
    var id := 0;
    var ps := polygons;
    for i := 0 to |ps|
      invariant |ps| == |polygons|
      invariant ps == ZeroIds(polygons[..i]) + polygons[i..]
    {
      if ps[i].id != 0 {
        ps := ps[i := ps[i].(id := 0)];
      }
      assert ps[..i + 1] == ZeroIds(polygons[..i + 1]);
      assert ps == ps[..i + 1] + polygons[i + 1..];
    }
    assert polygons[|polygons|..] == [];
    assert polygons[..|polygons|] == polygons;
    assert ps == ZeroIds(polygons);
    if |bsp.nodes| == 0 {
      return ps;
    }
    var clipped;
    clipped, id := Clipping.Clip(geo, bsp.nodes, 0, ps, keeping, id);
    assert Clipping.Clipped(clipped, id).polygons == clipped;
    r := clipped;
  }

  /**
   * When no fragments are rejoined, `BSP.clip` keeps exactly what clipping
   * both partitions into both children keeps.
   */
  lemma ClipKeepsTwoSided(geo: Geometry, bsp: BSP, polygons: seq<Polygon>, keeping: ClipRule)
    requires WellFormed(bsp.nodes) && |bsp.nodes| > 0 && NeverJoins(geo)
    ensures Clipping.ClipInto(geo, bsp.nodes, 0, ZeroIds(polygons), keeping, [], 0).polygons
         == Clipping.Kept(geo, bsp.nodes, 0, ZeroIds(polygons), keeping, 0).polygons
  {
    Clipping.ClipIsTwoSided(geo, bsp.nodes, 0, ZeroIds(polygons), keeping, [], 0);
  }

  // ---------------------------------------------------------------------
  // Rebuilds
  // ---------------------------------------------------------------------

  /**
   * `translated(by:)`, `scaled(by:)` and `rotated(by:)` (lines 103-120):
   * an empty tree is returned as it is; otherwise the root is rebuilt. The
   * result is a tree whose traversal yields the transformed items of the
   * original's traversal.
   */
  function Rebuilt(bsp: BSP, xf: Transform): (r: BSP)
    requires WellFormed(bsp.nodes)
    ensures |bsp.nodes| == 0 ==> r == bsp
    ensures WellFormed(r.nodes) && |r.nodes| == |bsp.nodes|
    ensures Drain(r.nodes, Start(r.nodes)) == MapPolygons(xf, Drain(bsp.nodes, Start(bsp.nodes)))
  {
    if |bsp.nodes| == 0 then bsp
    else
      StartAgrees(bsp.nodes, xf);
      TraversalCommutes(bsp.nodes, xf, Start(bsp.nodes));
      BSP(Transformed(bsp.nodes, xf))
  }

  /** Rebuilding with a transform that changes nothing gives back the tree. */
  lemma RebuildIdentityOnTree(bsp: BSP, f: Transform)
    requires WellFormed(bsp.nodes)
    ensures IsIdentity(f) ==> Rebuilt(bsp, f) == bsp
  {
    if IsIdentity(f) && |bsp.nodes| > 0 {
      RebuildIdentity(bsp.nodes, f);
    }
  }

  /**
   * `duplicate()` (lines 38-40): translation by the zero vector, passed as
   * `zero`. When that transform changes nothing, the copy equals the tree.
   */
  function Duplicate(bsp: BSP, zero: Transform): (r: BSP)
    requires WellFormed(bsp.nodes)
    ensures WellFormed(r.nodes)
    ensures IsIdentity(zero) ==> r == bsp
  {
    RebuildIdentityOnTree(bsp, zero);
    Rebuilt(bsp, zero)
  }

  // ---------------------------------------------------------------------
  // merged
  // ---------------------------------------------------------------------

  /**
   * `merged(with:)` (lines 90-102): with no root, the other tree's copy;
   * otherwise a copy of this tree into whose root every item the other
   * tree's iterator yields is inserted. The items are those of the iterator
   * as written, so the stale read of `next()` carries over.
   */
  method Merged(geo: Geometry, self: BSP, other: BSP, zero: Transform, fuel: nat) returns (r: BSP, done: bool)
    requires WellFormed(self.nodes) && WellFormed(other.nodes)
    ensures |self.nodes| == 0 ==> r == Duplicate(other, zero) && done
    ensures |self.nodes| > 0 && |other.nodes| == 0 ==> r == Duplicate(self, zero) && done
    ensures |self.nodes| > 0 ==>
              var copy := Duplicate(self, zero).nodes;
              && WellFormed(r.nodes) && Extends(copy, r.nodes)
              && (done && NeverSpans(geo) ==>
                    AllPolygons(r.nodes) == AllPolygons(copy) + multiset(Drain(other.nodes, Start(other.nodes))))
              && (done && OnOwnPlane(geo) && AllNonEmpty(self.nodes) ==> AllNonEmpty(r.nodes))
              && (NeverSpans(geo) && Separated(geo, copy) ==> Separated(geo, r.nodes))
  {
    if |self.nodes| == 0 {
      return Duplicate(other, zero), true;
    }
    var result := Duplicate(self, zero);
    var items := Collect(other.nodes);
    var arena := new Arena(geo, result.nodes);
    RebuildKeepsShape(self.nodes, zero);
    FitsRoot(geo, result.nodes, items);
    if |other.nodes| == 0 {
      EmptyTreeYieldsNothing();
    }
    done := arena.Insert(0, items, fuel);
    r := BSP(arena.nodes);
    if done && OnOwnPlane(geo) && AllNonEmpty(self.nodes) {
      forall i | 0 <= i < |r.nodes| ensures |r.nodes[i].polygons| > 0 {
        if i < |result.nodes| {
          assert NodeExtends(result.nodes[i], r.nodes[i]);
        }
      }
    }
  }
}
