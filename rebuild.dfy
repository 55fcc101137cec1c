/**
 * `BSPNode.translated/scaled/rotated` (lines 190-224): each builds a fresh
 * tree of the same shape, applying the transform to every plane and every
 * polygon. The three differ only in the transform, so they are one
 * operation here, parameterised by a `Transform`.
 */
module Rebuild {
  import opened Wrappers
  import opened Primitives
  import opened Nodes
  import opened Traversal

  /** Apply one transform to every polygon of a list, in order. */
  function MapPolygons(xf: Transform, ps: seq<Polygon>): (r: seq<Polygon>)
    ensures |r| == |ps|
  {
    seq(|ps|, i requires 0 <= i < |ps| => xf.polygon(ps[i]))
  }

  /** The fresh node for `node`: transformed plane and polygons, the same links. */
  function MapNode(xf: Transform, node: Node): Node
  {
    Node(xf.plane(node.plane), MapPolygons(xf, node.polygons), node.front, node.back, node.parent)
  }

  /**
   * The rebuilt tree. Node `i` of the result is the copy of node `i`; the
   * recursion of the source creates the copies of `front` and `back` with the
   * copy as their parent, which here means the links are carried over.
   */
  function Transformed(nodes: seq<Node>, xf: Transform): (r: seq<Node>)
    ensures |r| == |nodes|
  {
    seq(|nodes|, i requires 0 <= i < |nodes| => MapNode(xf, nodes[i]))
  }

  /**
   * The rebuilt tree has the shape of the original: a child exists exactly
   * when it existed, each copied child's parent is the copy of its parent,
   * every plane and list is the transformed original, and it is again a
   * tree with as many nodes and polygons below each node.
   */
  lemma RebuildKeepsShape(nodes: seq<Node>, xf: Transform)
    requires WellFormed(nodes)
    ensures var r := Transformed(nodes, xf);
            && WellFormed(r)
            && (forall i | 0 <= i < |nodes| ::
                  && r[i].front == nodes[i].front && r[i].back == nodes[i].back && r[i].parent == nodes[i].parent
                  && r[i].plane == xf.plane(nodes[i].plane)
                  && |r[i].polygons| == |nodes[i].polygons|
                  && (forall k | 0 <= k < |nodes[i].polygons| :: r[i].polygons[k] == xf.polygon(nodes[i].polygons[k])))
            && (forall i | 0 <= i < |nodes| :: NodeCount(r, i) == NodeCount(nodes, i) && TreeSize(r, i) == TreeSize(nodes, i))
  {
    var r := Transformed(nodes, xf);
    forall i | 0 <= i < |r| ensures NodeOk(r, i) {
      assert NodeOk(nodes, i);
      if nodes[i].parent.Some? {
        assert r[nodes[i].parent.value] == MapNode(xf, nodes[nodes[i].parent.value]);
      }
      if nodes[i].front.Some? {
        assert r[nodes[i].front.value] == MapNode(xf, nodes[nodes[i].front.value]);
      }
      if nodes[i].back.Some? {
        assert r[nodes[i].back.value] == MapNode(xf, nodes[nodes[i].back.value]);
      }
    }
    forall i | 0 <= i < |nodes| ensures NodeCount(r, i) == NodeCount(nodes, i) && TreeSize(r, i) == TreeSize(nodes, i) {
      CountsAgree(nodes, xf, i);
    }
  }

  lemma {:induction false} CountsAgree(nodes: seq<Node>, xf: Transform, i: nat)
    requires WellFormed(nodes) && WellFormed(Transformed(nodes, xf)) && i < |nodes|
    ensures NodeCount(Transformed(nodes, xf), i) == NodeCount(nodes, i)
    ensures TreeSize(Transformed(nodes, xf), i) == TreeSize(nodes, i)
    decreases |nodes| - i
  {
    assert NodeOk(nodes, i);
    if nodes[i].front.Some? {
      CountsAgree(nodes, xf, nodes[i].front.value);
    }
    if nodes[i].back.Some? {
      CountsAgree(nodes, xf, nodes[i].back.value);
    }
  }

  /** Applying `f`, then `g`. */
  function Then(f: Transform, g: Transform): Transform
  {
    Transform(p => g.plane(f.plane(p)), q => g.polygon(f.polygon(q)))
  }

  /** `f` changes nothing. */
  ghost predicate IsIdentity(f: Transform)
  {
    (forall p: Plane :: f.plane(p) == p) && (forall q: Polygon :: f.polygon(q) == q)
  }

  /** Rebuilding twice is rebuilding once with the composed transform. */
  lemma RebuildComposes(nodes: seq<Node>, f: Transform, g: Transform)
    ensures Transformed(Transformed(nodes, f), g) == Transformed(nodes, Then(f, g))
  {
    var a := Transformed(Transformed(nodes, f), g);
    var b := Transformed(nodes, Then(f, g));
    forall i | 0 <= i < |nodes| ensures a[i] == b[i] {
      assert MapPolygons(g, MapPolygons(f, nodes[i].polygons)) == MapPolygons(Then(f, g), nodes[i].polygons);
    }
  }

  /** A transform that changes nothing rebuilds the same tree. */
  lemma RebuildIdentity(nodes: seq<Node>, f: Transform)
    requires IsIdentity(f)
    ensures Transformed(nodes, f) == nodes
  {
    var r := Transformed(nodes, f);
    forall i | 0 <= i < |nodes| ensures r[i] == nodes[i] {
      assert MapPolygons(f, nodes[i].polygons) == nodes[i].polygons;
    }
  }

  /** So a transform followed by its inverse gives back the tree. */
  lemma RebuildRoundTrip(nodes: seq<Node>, f: Transform, g: Transform)
    requires IsIdentity(Then(f, g))
    ensures Transformed(Transformed(nodes, f), g) == nodes
  {
    RebuildComposes(nodes, f, g);
    RebuildIdentity(nodes, Then(f, g));
  }

  // ---------------------------------------------------------------------
  // Traversing a rebuilt tree
  // ---------------------------------------------------------------------

  lemma {:induction false} SettleAgrees(nodes: seq<Node>, xf: Transform, count: nat, c: Cursor)
    requires WellFormed(nodes) && WellFormed(Transformed(nodes, xf)) && CursorOk(nodes, c)
    ensures Settle(Transformed(nodes, xf), count, c) == Settle(nodes, count, c)
    decreases StackMeasure(nodes, c.stack)
  {
    var r := Transformed(nodes, xf);
    if c.index >= count && |c.stack| > 0 {
      var t := c.stack[|c.stack| - 1];
      assert Children(r[t]) == Children(nodes[t]);
      assert Pop(r, c) == Pop(nodes, c);
      SettleAgrees(nodes, xf, count, Pop(nodes, c));
    }
  }

  /** One call of `next()` on the rebuilt tree returns the transformed item and moves the cursor alike. */
  lemma NextAgrees(nodes: seq<Node>, xf: Transform, c: Cursor)
    requires WellFormed(nodes) && WellFormed(Transformed(nodes, xf)) && CursorOk(nodes, c)
    ensures var y := NextOf(nodes, c);
            NextOf(Transformed(nodes, xf), c)
            == Yield(if y.item.Some? then Some(xf.polygon(y.item.value)) else None, y.after)
  {
    if c.current.Some? {
      var ps := nodes[c.current.value].polygons;
      var mapped := Transformed(nodes, xf)[c.current.value].polygons;
      assert mapped == MapPolygons(xf, ps);
      SettleAgrees(nodes, xf, |ps|, c);
      var s := Settle(nodes, |ps|, c);
      if s.index < |ps| {
        assert mapped[s.index] == xf.polygon(ps[s.index]);
      }
    }
  }

  lemma MapCons(xf: Transform, p: Polygon, ps: seq<Polygon>)
    ensures MapPolygons(xf, [p] + ps) == [xf.polygon(p)] + MapPolygons(xf, ps)
  {
  }

  /**
   * Iterating over a rebuilt tree yields the transformed items of iterating
   * over the original, quirk included, from any cursor.
   */
  lemma {:induction false} TraversalCommutes(nodes: seq<Node>, xf: Transform, c: Cursor)
    requires WellFormed(nodes) && CursorOk(nodes, c)
    ensures WellFormed(Transformed(nodes, xf))
    ensures Drain(Transformed(nodes, xf), c) == MapPolygons(xf, Drain(nodes, c))
    decreases StackMeasure(nodes, c.stack), Remaining(nodes, c)
  {
    RebuildKeepsShape(nodes, xf);
    var r := Transformed(nodes, xf);
    var y := NextOf(nodes, c);
    NextAgrees(nodes, xf, c);
    DrainUnfold(nodes, c);
    DrainUnfold(r, c);
    if y.item.Some? {
      TraversalCommutes(nodes, xf, y.after);
      MapCons(xf, y.item.value, Drain(nodes, y.after));
    }
  }

  /** `Start` depends only on the shape, so the rebuilt tree starts where the original does. */
  lemma StartAgrees(nodes: seq<Node>, xf: Transform)
    requires WellFormed(nodes)
    ensures WellFormed(Transformed(nodes, xf))
    ensures Start(Transformed(nodes, xf)) == Start(nodes)
  {
    RebuildKeepsShape(nodes, xf);
    if |nodes| > 0 {
      assert Children(Transformed(nodes, xf)[0]) == Children(nodes[0]);
    }
  }
}
