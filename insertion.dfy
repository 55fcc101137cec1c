/**
 * `BSPNode.insert` and the two ways `BSPNode.init?` builds a tree.
 * The tree is an arena object whose node sequence the operations update in
 * place: polygons are appended to a node's list and missing children are
 * attached, exactly the updates the source makes to `BSPNode` fields.
 */
module Insertion {
  import opened Wrappers
  import opened Primitives
  import opened Nodes

  /** The three lists `insert` fills at one node: the node's own list, the front and the back partition. */
  datatype Routed = Routed(own: seq<Polygon>, front: seq<Polygon>, back: seq<Polygon>)

  /** Where `insert` sends one polygon met at a node whose plane is `plane`. */
  function RouteOne(geo: Geometry, plane: Plane, r: Routed, p: Polygon): Routed
  {
    match geo.compare(p, plane)
    case Coplanar =>
      if geo.sameFacing(plane, PlaneOf(geo, p)) then r.(own := r.own + [p]) else r.(back := r.back + [p])
    case Front => r.(front := r.front + [p])
    case Back => r.(back := r.back + [p])
    case Spanning =>
      var f := geo.splitSpanning(p, plane, 0);
      r.(front := r.front + f.front, back := r.back + f.back)
  }

  /** The lists after routing every polygon of `ps` in order. */
  function Route(geo: Geometry, plane: Plane, ps: seq<Polygon>): Routed
  {
    if |ps| == 0 then Routed([], [], [])
    else RouteOne(geo, plane, Route(geo, plane, ps[..|ps| - 1]), ps[|ps| - 1])
  }

  /** The list a polygon that does not span the plane belongs in. */
  datatype Bucket = Own | FrontList | BackList

  function BucketOf(geo: Geometry, plane: Plane, p: Polygon): Bucket
  {
    match geo.compare(p, plane)
    case Coplanar => if geo.sameFacing(plane, PlaneOf(geo, p)) then Own else BackList
    case Front => FrontList
    case _ => BackList
  }

  /** The polygons of `ps` that belong in bucket `b`, in order. */
  function Select(geo: Geometry, plane: Plane, ps: seq<Polygon>, b: Bucket): (r: seq<Polygon>)
    ensures |r| <= |ps|
  {
    if |ps| == 0 then []
    else Select(geo, plane, ps[..|ps| - 1], b) + (if BucketOf(geo, plane, ps[|ps| - 1]) == b then [ps[|ps| - 1]] else [])
  }

  /**
   * Routing is filtering: the node keeps exactly the coplanar polygons that
   * face its way, opposite-facing coplanar polygons go to the back, and when
   * nothing spans the plane the front and back lists are exactly the front
   * and back polygons, each list in input order.
   */
  lemma {:induction false} RouteIsSelection(geo: Geometry, plane: Plane, ps: seq<Polygon>)
    ensures Route(geo, plane, ps).own == Select(geo, plane, ps, Own)
    ensures NeverSpans(geo) ==> Route(geo, plane, ps).front == Select(geo, plane, ps, FrontList)
    ensures NeverSpans(geo) ==> Route(geo, plane, ps).back == Select(geo, plane, ps, BackList)
  {
    if |ps| > 0 {
      RouteIsSelection(geo, plane, ps[..|ps| - 1]);
    }
  }

  /** Without spanning polygons every input polygon lands in exactly one of the three lists. */
  lemma {:induction false} RouteConserves(geo: Geometry, plane: Plane, ps: seq<Polygon>)
    requires NeverSpans(geo)
    ensures var r := Route(geo, plane, ps);
            multiset(r.own) + multiset(r.front) + multiset(r.back) == multiset(ps)
  {
    if |ps| > 0 {
      var init := ps[..|ps| - 1];
      RouteConserves(geo, plane, init);
      RouteOneConserves(geo, plane, Route(geo, plane, init), ps[|ps| - 1]);
      assert ps == init + [ps[|ps| - 1]];
      assert multiset(ps) == multiset(init) + multiset{ps[|ps| - 1]};
    }
  }

  lemma RouteOneConserves(geo: Geometry, plane: Plane, r: Routed, p: Polygon)
    requires NeverSpans(geo)
    ensures var r' := RouteOne(geo, plane, r, p);
            multiset(r'.own) + multiset(r'.front) + multiset(r'.back)
            == multiset(r.own) + multiset(r.front) + multiset(r.back) + multiset{p}
  {
    assert geo.compare(p, plane) != Spanning;
  }

  /** The classification loop of `insert` (lines 294-311): it fills the three lists in one pass. */
  method RoutePolygons(geo: Geometry, plane: Plane, ps: seq<Polygon>)
    returns (own: seq<Polygon>, front: seq<Polygon>, back: seq<Polygon>)
    ensures Routed(own, front, back) == Route(geo, plane, ps)
  {
    own, front, back := [], [], [];
    for i := 0 to |ps|
      invariant Routed(own, front, back) == Route(geo, plane, ps[..i])
    {
      assert ps[..i + 1][..i] == ps[..i];
      var p := ps[i];
      match geo.compare(p, plane)
      case Coplanar =>
        if geo.sameFacing(plane, PlaneOf(geo, p)) {
          own := own + [p];
        } else {
          back := back + [p];
        }
      case Front =>
        front := front + [p];
      case Back =>
        back := back + [p];
      case Spanning =>
        var f := geo.splitSpanning(p, plane, 0);
        front := front + f.front;
        back := back + f.back;
    }
    assert ps[..|ps|] == ps;
  }

  /** The arena after node `n` gets a fresh child, with plane `plane`, on the front or back side. */
  function Attach(nodes: seq<Node>, n: nat, isFront: bool, plane: Plane): seq<Node>
    requires n < |nodes|
  {
    var c := |nodes|;
    nodes[n := if isFront then nodes[n].(front := Some(c)) else nodes[n].(back := Some(c))]
    + [Node(plane, [], None, None, Some(n))]
  }

  lemma AttachKeepsTree(nodes: seq<Node>, n: nat, isFront: bool, plane: Plane)
    requires WellFormed(nodes) && n < |nodes|
    requires if isFront then nodes[n].front.None? else nodes[n].back.None?
    ensures WellFormed(Attach(nodes, n, isFront, plane))
    ensures Extends(nodes, Attach(nodes, n, isFront, plane))
    ensures AllPolygons(Attach(nodes, n, isFront, plane)) == AllPolygons(nodes)
  {
    var c := |nodes|;
    var linked := if isFront then nodes[n].(front := Some(c)) else nodes[n].(back := Some(c));
    var mid := nodes[n := linked];
    var r := Attach(nodes, n, isFront, plane);
    assert r == mid + [Node(plane, [], None, None, Some(n))];
    forall i | 0 <= i < |r| ensures NodeOk(r, i) {
      AttachNodeOk(nodes, n, isFront, plane, i);
    }
    assert WellFormed(r);
    forall i | 0 <= i < c ensures NodeExtends(nodes[i], r[i]) {
      if i == n {
        assert r[i] == linked;
      } else {
        assert r[i] == nodes[i];
      }
    }
    assert Extends(nodes, r);
    AllPolygonsRelink(nodes, n, linked);
    AllPolygonsPush(mid, Node(plane, [], None, None, Some(n)));
  }

  lemma AttachNodeOk(nodes: seq<Node>, n: nat, isFront: bool, plane: Plane, i: nat)
    requires WellFormed(nodes) && n < |nodes|
    requires if isFront then nodes[n].front.None? else nodes[n].back.None?
    requires i <= |nodes|
    ensures NodeOk(Attach(nodes, n, isFront, plane), i)
  {
    var c := |nodes|;
    var r := Attach(nodes, n, isFront, plane);
    assert |r| == c + 1;
    assert r[c] == Node(plane, [], None, None, Some(n));
    assert forall k | 0 <= k < c && k != n :: r[k] == nodes[k];
    assert r[n] == if isFront then nodes[n].(front := Some(c)) else nodes[n].(back := Some(c));
    if i < c {
      assert NodeOk(nodes, i);
      assert nodes[i].front.Some? ==> NodeOk(nodes, nodes[i].front.value);
      match nodes[i].parent {
        case None =>
        case Some(p) =>
      }
    }
  }

  /** Node `n` with `more` appended to its list is still a tree with the same links. */
  lemma AppendKeepsTree(nodes: seq<Node>, n: nat, more: seq<Polygon>)
    requires WellFormed(nodes) && n < |nodes|
    ensures var r := nodes[n := nodes[n].(polygons := nodes[n].polygons + more)];
            WellFormed(r) && Extends(nodes, r) && AllPolygons(r) == AllPolygons(nodes) + multiset(more)
  {
    var r := nodes[n := nodes[n].(polygons := nodes[n].polygons + more)];
    forall i | 0 <= i < |r| ensures NodeOk(r, i) {
      assert NodeOk(nodes, i);
    }
    AllPolygonsAppend(nodes, n, more);
  }

  /** `polys` is non-empty and its first polygon's plane is the plane of node `i`: the way `insert` seeds a child. */
  ghost predicate Seeds(geo: Geometry, nodes: seq<Node>, i: nat, polys: seq<Polygon>)
  {
    i < |nodes| && |polys| > 0 && nodes[i].plane == PlaneOf(geo, polys[0])
  }

  /** Every node from index `base` on stores a polygon. */
  predicate Filled(nodes: seq<Node>, base: nat)
  {
    forall i | base <= i < |nodes| :: |nodes[i].polygons| > 0
  }

  /** Every node from index `base` on, other than `except`, stores a polygon. */
  predicate FilledExcept(nodes: seq<Node>, base: nat, except: nat)
  {
    forall i | base <= i < |nodes| && i != except :: |nodes[i].polygons| > 0
  }

  /**
   * The filling invariant of the loop of `insert` started at node `n` on an
   * arena of `base` nodes, now at `node` with `polys` left: every node
   * created since, and `n` if the input seeded it, stores a polygon, except
   * possibly `node`, which `polys` then seeds.
   */
  ghost predicate FillInvariant(geo: Geometry, nodes: seq<Node>, base: nat, n: nat, seed: bool, node: nat, polys: seq<Polygon>)
    requires n < |nodes| && node < |nodes|
  {
    && FilledExcept(nodes, base, node)
    && (seed && n != node ==> |nodes[n].polygons| > 0)
    && ((node >= base || (node == n && seed)) && |nodes[node].polygons| == 0 ==> Seeds(geo, nodes, node, polys))
  }

  /**
   * When every polygon lies on its own plane, routing polygons at the node
   * their first polygon seeded keeps that polygon: the node's own list grows.
   */
  lemma {:induction false} RouteKeepsSeed(geo: Geometry, plane: Plane, ps: seq<Polygon>)
    requires OnOwnPlane(geo) && |ps| > 0 && plane == PlaneOf(geo, ps[0])
    ensures |Route(geo, plane, ps).own| > 0
  {
    if |ps| > 1 {
      var init := ps[..|ps| - 1];
      RouteKeepsSeed(geo, plane, init);
    }
  }

  /**
   * One round of `insert` keeps the filling invariant: the nodes created so
   * far are non-empty except the one the loop moves to next, which is
   * seeded by the polygons still to place there.
   */
  lemma FillRound(geo: Geometry, base: nat, n: nat, seed: bool, start: seq<Node>, seeded: seq<Node>, after: seq<Node>,
                  node: nat, polys: seq<Polygon>, smallChild: Option<nat>, small: seq<Polygon>, next: nat, large: seq<Polygon>)
    requires OnOwnPlane(geo)
    requires n <= node < |start| <= |seeded| <= |after| && n < base <= |start|
    requires Extends(start, seeded) && Extends(seeded, after)
    requires FillInvariant(geo, start, base, n, seed, node, polys)
    requires Seeds(geo, start, node, polys) ==> |seeded[node].polygons| > 0
    requires forall i | |start| <= i < |seeded| :: (smallChild == Some(i) && Seeds(geo, seeded, i, small)) || (i == next && Seeds(geo, seeded, i, large))
    requires smallChild.None? ==> after == seeded
    requires smallChild.Some? ==>
               && smallChild.value < |seeded|
               && Filled(after, |seeded|)
               && (Seeds(geo, seeded, smallChild.value, small) ==> |after[smallChild.value].polygons| > 0)
    requires node <= next < |after| && (next == node ==> |large| == 0)
    ensures FillInvariant(geo, after, base, n, seed, next, large)
  {
    assert NodeExtends(start[node], seeded[node]) && NodeExtends(seeded[node], after[node]);
    forall i | base <= i < |after| && i != next ensures |after[i].polygons| > 0 {
      if i < |start| {
        assert NodeExtends(start[i], seeded[i]) && NodeExtends(seeded[i], after[i]);
        if i == node && |start[node].polygons| == 0 {
          assert Seeds(geo, start, node, polys);
        }
      } else if i < |seeded| {
        assert smallChild == Some(i) && Seeds(geo, seeded, i, small);
      } else {
        assert smallChild.Some?;
      }
    }
    if seed && n != next && n != node {
      assert NodeExtends(start[n], seeded[n]) && NodeExtends(seeded[n], after[n]);
    }
    if next < |start| {
      assert NodeExtends(start[next], seeded[next]) && NodeExtends(seeded[next], after[next]);
    } else if next < |seeded| {
      assert NodeExtends(seeded[next], after[next]);
      if !(smallChild == Some(next) && Seeds(geo, seeded, next, small)) {
        assert Seeds(geo, seeded, next, large);
      }
    } else {
      assert smallChild.Some?;
    }
  }

  // ---------------------------------------------------------------------
  // Separation: where `insert` puts polygons
  // ---------------------------------------------------------------------

  /**
   * Polygon `p` may be stored at node `i`: at every proper ancestor of `i` it
   * lies on the side of that ancestor's plane the path to `i` takes, in front
   * below a front child, behind (or coplanar and facing away) below a back
   * child.
   */
  ghost predicate Fits(geo: Geometry, nodes: seq<Node>, i: nat, p: Polygon)
    requires WellFormed(nodes) && i < |nodes|
    decreases i
  {
    assert NodeOk(nodes, i);
    match nodes[i].parent
    case None => true
    case Some(a) =>
      && BucketOf(geo, nodes[a].plane, p) == (if nodes[a].front == Some(i) then FrontList else BackList)
      && Fits(geo, nodes, a, p)
  }

  /** Every polygon of `ps` may be stored at node `i` or below it. */
  ghost predicate AllFit(geo: Geometry, nodes: seq<Node>, i: nat, ps: seq<Polygon>)
    requires WellFormed(nodes)
  {
    i < |nodes| && forall p | p in ps :: Fits(geo, nodes, i, p)
  }

  /** Every polygon of `ps` lies in bucket `b` of node `i`, and may be stored at `i`. */
  ghost predicate Sided(geo: Geometry, nodes: seq<Node>, i: nat, ps: seq<Polygon>, b: Bucket)
    requires WellFormed(nodes)
  {
    i < |nodes| && forall p | p in ps :: BucketOf(geo, nodes[i].plane, p) == b && Fits(geo, nodes, i, p)
  }

  /**
   * The partitioning invariant of a BSP tree: every stored polygon is
   * coplanar with its node's plane and faces the same way, and lies on the
   * correct side of the plane of every ancestor of its node.
   */
  ghost predicate Separated(geo: Geometry, nodes: seq<Node>)
    requires WellFormed(nodes)
  {
    forall i, p | 0 <= i < |nodes| && p in nodes[i].polygons ::
      BucketOf(geo, nodes[i].plane, p) == Own && Fits(geo, nodes, i, p)
  }

  /** Any polygon may be stored below the root. */
  lemma FitsRoot(geo: Geometry, nodes: seq<Node>, ps: seq<Polygon>)
    requires WellFormed(nodes) && |nodes| > 0
    ensures AllFit(geo, nodes, 0, ps)
  {
    assert NodeOk(nodes, 0);
  }

  /** Growing a tree does not change which polygons an old node may hold. */
  lemma {:induction false} FitsExtends(geo: Geometry, a: seq<Node>, b: seq<Node>, i: nat, p: Polygon)
    requires WellFormed(a) && WellFormed(b) && Extends(a, b) && i < |a|
    ensures Fits(geo, b, i, p) == Fits(geo, a, i, p)
    decreases i
  {
    assert NodeOk(a, i) && NodeExtends(a[i], b[i]);
    match a[i].parent {
      case None =>
      case Some(q) =>
        assert NodeOk(b, q) && NodeExtends(a[q], b[q]);
        FitsExtends(geo, a, b, q, p);
    }
  }

  lemma AllFitExtends(geo: Geometry, a: seq<Node>, b: seq<Node>, i: nat, ps: seq<Polygon>)
    requires WellFormed(a) && WellFormed(b) && Extends(a, b) && i < |a|
    ensures AllFit(geo, b, i, ps) == AllFit(geo, a, i, ps)
  {
    forall p | p in ps ensures Fits(geo, b, i, p) == Fits(geo, a, i, p) {
      FitsExtends(geo, a, b, i, p);
    }
  }

  /**
   * A polygon may be stored at a child of `i` exactly when it lies on that
   * child's side of the plane of `i` and may be stored at `i`.
   */
  lemma FitsChild(geo: Geometry, nodes: seq<Node>, i: nat, isFront: bool, p: Polygon)
    requires WellFormed(nodes) && i < |nodes|
    requires (if isFront then nodes[i].front else nodes[i].back).Some?
    ensures var c := (if isFront then nodes[i].front else nodes[i].back).value;
            && c < |nodes|
            && (Fits(geo, nodes, c, p) <==>
                  BucketOf(geo, nodes[i].plane, p) == (if isFront then FrontList else BackList) && Fits(geo, nodes, i, p))
  {
    assert NodeOk(nodes, i);
    var c := (if isFront then nodes[i].front else nodes[i].back).value;
    assert nodes[c].parent == Some(i);
  }

  /** A polygon `Select` puts in bucket `b` is one of the input's and lies in `b`. */
  lemma {:induction false} SelectIn(geo: Geometry, plane: Plane, ps: seq<Polygon>, b: Bucket)
    ensures forall p | p in Select(geo, plane, ps, b) :: p in ps && BucketOf(geo, plane, p) == b
  {
    if |ps| > 0 {
      var init := ps[..|ps| - 1];
      SelectIn(geo, plane, init, b);
      assert ps == init + [ps[|ps| - 1]];
    }
  }

  /** A tree that only gained links and empty nodes stays separated. */
  lemma SeparatedGrow(geo: Geometry, a: seq<Node>, b: seq<Node>)
    requires WellFormed(a) && WellFormed(b) && Extends(a, b) && Separated(geo, a)
    requires forall i | 0 <= i < |a| :: b[i].polygons == a[i].polygons
    requires forall i | |a| <= i < |b| :: b[i].polygons == []
    ensures Separated(geo, b)
  {
    forall i, p | 0 <= i < |b| && p in b[i].polygons
      ensures BucketOf(geo, b[i].plane, p) == Own && Fits(geo, b, i, p)
    {
      if i < |a| {
        assert NodeExtends(a[i], b[i]);
        FitsExtends(geo, a, b, i, p);
      } else {
        assert false;
      }
    }
  }

  /** Attaching a fresh child keeps the tree separated. */
  lemma AttachSeparated(geo: Geometry, nodes: seq<Node>, n: nat, isFront: bool, plane: Plane)
    requires WellFormed(nodes) && n < |nodes| && Separated(geo, nodes)
    requires if isFront then nodes[n].front.None? else nodes[n].back.None?
    ensures WellFormed(Attach(nodes, n, isFront, plane)) && Separated(geo, Attach(nodes, n, isFront, plane))
  {
    AttachKeepsTree(nodes, n, isFront, plane);
    var r := Attach(nodes, n, isFront, plane);
    assert forall i | 0 <= i < |nodes| :: r[i].polygons == nodes[i].polygons;
    assert r[|nodes|].polygons == [];
    SeparatedGrow(geo, nodes, r);
  }

  /** Appending polygons that belong at node `n` keeps the tree separated. */
  lemma SeparatedAppend(geo: Geometry, nodes: seq<Node>, n: nat, more: seq<Polygon>)
    requires WellFormed(nodes) && n < |nodes| && Separated(geo, nodes)
    requires forall p | p in more :: BucketOf(geo, nodes[n].plane, p) == Own && Fits(geo, nodes, n, p)
    ensures var r := nodes[n := nodes[n].(polygons := nodes[n].polygons + more)];
            WellFormed(r) && Separated(geo, r)
  {
    var r := nodes[n := nodes[n].(polygons := nodes[n].polygons + more)];
    AppendKeepsTree(nodes, n, more);
    forall i, p | 0 <= i < |r| && p in r[i].polygons
      ensures BucketOf(geo, r[i].plane, p) == Own && Fits(geo, r, i, p)
    {
      FitsExtends(geo, nodes, r, i, p);
      if i == n && p !in nodes[n].polygons {
        assert p in more;
      }
    }
  }

  /**
   * Without spanning, the first half of a round at node `n` keeps the tree
   * separated, and leaves front polygons in its front bucket and back
   * polygons in its back bucket.
   */
  lemma KeepSeparates(geo: Geometry, nodes: seq<Node>, n: nat, polys: seq<Polygon>)
    requires WellFormed(nodes) && n < |nodes| && NeverSpans(geo)
    requires Separated(geo, nodes) && AllFit(geo, nodes, n, polys)
    ensures var r := Route(geo, nodes[n].plane, polys);
            var after := nodes[n := nodes[n].(polygons := nodes[n].polygons + r.own)];
            && WellFormed(after) && Separated(geo, after)
            && Sided(geo, after, n, r.front, FrontList) && Sided(geo, after, n, r.back, BackList)
  {
    var plane := nodes[n].plane;
    var r := Route(geo, plane, polys);
    RouteIsSelection(geo, plane, polys);
    SelectIn(geo, plane, polys, Own);
    SelectIn(geo, plane, polys, FrontList);
    SelectIn(geo, plane, polys, BackList);
    SeparatedAppend(geo, nodes, n, r.own);
    var after := nodes[n := nodes[n].(polygons := nodes[n].polygons + r.own)];
    AppendKeepsTree(nodes, n, r.own);
    forall p | p in polys ensures Fits(geo, after, n, p) {
      FitsExtends(geo, nodes, after, n, p);
    }
  }

  /** Polygons on one side of node `n` may be stored at the child on that side, once it exists. */
  lemma SidedChild(geo: Geometry, a: seq<Node>, b: seq<Node>, n: nat, isFront: bool, ps: seq<Polygon>)
    requires WellFormed(a) && WellFormed(b) && Extends(a, b) && n < |a|
    requires Sided(geo, a, n, ps, if isFront then FrontList else BackList)
    requires (if isFront then b[n].front else b[n].back).Some?
    ensures (if isFront then b[n].front else b[n].back).value < |b|
    ensures AllFit(geo, b, (if isFront then b[n].front else b[n].back).value, ps)
  {
    assert NodeExtends(a[n], b[n]) && NodeOk(b, n);
    var c := (if isFront then b[n].front else b[n].back).value;
    forall p | p in ps ensures Fits(geo, b, c, p) {
      FitsExtends(geo, a, b, n, p);
      FitsChild(geo, b, n, isFront, p);
    }
  }

  /** Every non-empty partition of a round at `node` has a child of `node` on its side. */
  predicate ChildrenFor(nodes: seq<Node>, node: nat, front: seq<Polygon>, back: seq<Polygon>)
    requires node < |nodes|
  {
    && (|front| > 0 ==> nodes[node].front.Some?)
    && (|back| > 0 ==> nodes[node].back.Some?)
  }

  /**
   * `next` is the node the loop of `insert` moves to after a round at `node`
   * that produced `front` and `back` (lines 323 and 327): the front child
   * when the front partition is larger, otherwise the back child, or `node`
   * itself when there is no back child.
   */
  predicate MovesTo(nodes: seq<Node>, node: nat, front: seq<Polygon>, back: seq<Polygon>, next: nat)
  {
    && node <= next < |nodes|
    && if |front| > |back| then nodes[node].front == Some(next)
       else if nodes[node].back.Some? then nodes[node].back == Some(next)
       else next == node
  }

  /**
   * What the first half of a round at `node` hands to its end: the filling
   * invariant held before the round, the node kept a polygon if `polys`
   * seeded it, and every node created in the round is a child of `node`
   * seeded by its partition.
   */
  ghost predicate FillStep(geo: Geometry, base: nat, n: nat, seed: bool, start: seq<Node>, seeded: seq<Node>,
                           node: nat, polys: seq<Polygon>, front: seq<Polygon>, back: seq<Polygon>)
    requires n <= node < |start| <= |seeded|
  {
    && FillInvariant(geo, start, base, n, seed, node, polys)
    && (Seeds(geo, start, node, polys) ==> |seeded[node].polygons| > 0)
    && forall i | |start| <= i < |seeded| ::
         || (seeded[node].front == Some(i) && Seeds(geo, seeded, i, front))
         || (seeded[node].back == Some(i) && Seeds(geo, seeded, i, back))
  }

  /**
   * The end of a round keeps the filling invariant: the smaller partition
   * was inserted at the smaller side's child, and the loop moves on with
   * the larger one.
   */
  lemma FillDescend(geo: Geometry, base: nat, n: nat, seed: bool, start: seq<Node>, seeded: seq<Node>, after: seq<Node>,
                    node: nat, polys: seq<Polygon>, front: seq<Polygon>, back: seq<Polygon>, next: nat)
    requires OnOwnPlane(geo)
    requires WellFormed(seeded) && WellFormed(after) && n <= node < |start| <= |seeded| <= |after| && n < base <= |start|
    requires Extends(start, seeded) && Extends(seeded, after)
    requires ChildrenFor(seeded, node, front, back)
    requires FillStep(geo, base, n, seed, start, seeded, node, polys, front, back)
    requires var c := if |front| > |back| then seeded[node].back else seeded[node].front;
             && (c.None? ==> after == seeded)
             && (c.Some? ==> c.value < |seeded| && Filled(after, |seeded|))
             && (c.Some? && Seeds(geo, seeded, c.value, if |front| > |back| then back else front) ==>
                   |after[c.value].polygons| > 0)
    requires MovesTo(after, node, front, back, next)
    ensures FillInvariant(geo, after, base, n, seed, next, if |front| > |back| then front else back)
  {
    var frontLarger := |front| > |back|;
    var small := if frontLarger then seeded[node].back else seeded[node].front;
    var smallPart, largePart := if frontLarger then back else front, if frontLarger then front else back;
    assert NodeExtends(seeded[node], after[node]) && NodeOk(after, node);
    FillRound(geo, base, n, seed, start, seeded, after, node, polys, small, smallPart, next, largePart);
  }

  /** The partition the loop of `insert` carries on with may be stored at the node it moves to. */
  lemma RestFits(geo: Geometry, seeded: seq<Node>, after: seq<Node>, node: nat,
                 front: seq<Polygon>, back: seq<Polygon>, next: nat)
    requires WellFormed(seeded) && WellFormed(after) && Extends(seeded, after) && node < |seeded|
    requires ChildrenFor(seeded, node, front, back)
    requires seeded[node].front.Some? ==> AllFit(geo, seeded, seeded[node].front.value, front)
    requires seeded[node].back.Some? ==> AllFit(geo, seeded, seeded[node].back.value, back)
    requires MovesTo(after, node, front, back, next)
    ensures AllFit(geo, after, next, if |front| > |back| then front else back)
  {
    var rest := if |front| > |back| then front else back;
    assert NodeExtends(seeded[node], after[node]);
    if |rest| > 0 {
      AllFitExtends(geo, seeded, after, next, rest);
    }
  }

  /**
   * The end of a round after the smaller partition went to its child: the
   * loop moves to the node `MovesTo` names, and the filling and separation
   * invariants hold there for the larger partition.
   */
  lemma DescendEnd(geo: Geometry, base: nat, n: nat, seed: bool, start: seq<Node>, seeded: seq<Node>, after: seq<Node>,
                   node: nat, polys: seq<Polygon>, front: seq<Polygon>, back: seq<Polygon>, ok: bool, next: nat)
    requires WellFormed(start) && WellFormed(seeded) && WellFormed(after)
    requires n <= node < |start| <= |seeded| <= |after| && n < base <= |start|
    requires Extends(start, seeded) && Extends(seeded, after)
    requires ChildrenFor(seeded, node, front, back)
    requires OnOwnPlane(geo) ==> FillStep(geo, base, n, seed, start, seeded, node, polys, front, back)
    requires NeverSpans(geo) && Separated(geo, start) && AllFit(geo, start, node, polys) ==>
               && Separated(geo, seeded)
               && (seeded[node].front.Some? ==> AllFit(geo, seeded, seeded[node].front.value, front))
               && (seeded[node].back.Some? ==> AllFit(geo, seeded, seeded[node].back.value, back))
    requires var c := if |front| > |back| then seeded[node].back else seeded[node].front;
             var part := if |front| > |back| then back else front;
             && (c.None? || |part| == 0 ==> ok && after == seeded)
             && (c.Some? ==> c.value < |seeded|)
             && (ok && OnOwnPlane(geo) ==> Filled(after, |seeded|))
             && (ok && OnOwnPlane(geo) && c.Some? && Seeds(geo, seeded, c.value, part) ==> |after[c.value].polygons| > 0)
             && (NeverSpans(geo) && Separated(geo, seeded) && (c.Some? ==> AllFit(geo, seeded, c.value, part)) ==>
                   Separated(geo, after))
    requires next == if |front| > |back| then seeded[node].front.value
                     else if seeded[node].back.Some? then seeded[node].back.value
                     else node
    ensures MovesTo(after, node, front, back, next)
    ensures ok && OnOwnPlane(geo) ==> FillInvariant(geo, after, base, n, seed, next, if |front| > |back| then front else back)
    ensures NeverSpans(geo) && Separated(geo, start) && AllFit(geo, start, node, polys) ==>
              Separated(geo, after) && AllFit(geo, after, next, if |front| > |back| then front else back)
  {
    assert NodeOk(seeded, node) && NodeExtends(seeded[node], after[node]);
    assert MovesTo(after, node, front, back, next);
    if NeverSpans(geo) && Separated(geo, start) && AllFit(geo, start, node, polys) {
      RestFits(geo, seeded, after, node, front, back, next);
    }
    if ok && OnOwnPlane(geo) {
      FillDescend(geo, base, n, seed, start, seeded, after, node, polys, front, back, next);
    }
  }

  /** A tree under construction: `init?` and `insert` update its nodes in place. */
  class Arena {
    const geo: Geometry
    var nodes: seq<Node>

    constructor (geo: Geometry, nodes: seq<Node>)
      ensures this.geo == geo && this.nodes == nodes
    {
      this.geo := geo;
      this.nodes := nodes;
    }

    /**
     * Seeding one side of a node: a missing child is created with the plane
     * of the partition's first polygon, only when the partition is not
     * empty; an existing child is kept.
     */
    method Seed(n: nat, isFront: bool, partition: seq<Polygon>)
      requires WellFormed(nodes) && n < |nodes|
      modifies this
      ensures WellFormed(nodes) && Extends(old(nodes), nodes) && AllPolygons(nodes) == AllPolygons(old(nodes))
      ensures var had := if isFront then old(nodes)[n].front else old(nodes)[n].back;
              nodes == if had.Some? || |partition| == 0 then old(nodes)
                       else Attach(old(nodes), n, isFront, PlaneOf(geo, partition[0]))
      ensures |partition| > 0 ==> if isFront then nodes[n].front.Some? else nodes[n].back.Some?
      ensures forall i | |old(nodes)| <= i < |nodes| ::
                (if isFront then nodes[n].front else nodes[n].back) == Some(i) && Seeds(geo, nodes, i, partition)
      ensures Separated(geo, old(nodes)) ==> Separated(geo, nodes)
    {
      var had := if isFront then nodes[n].front else nodes[n].back;
      if had.None? && |partition| > 0 {
        AttachKeepsTree(nodes, n, isFront, PlaneOf(geo, partition[0]));
        if Separated(geo, nodes) {
          AttachSeparated(geo, nodes, n, isFront, PlaneOf(geo, partition[0]));
        }
        nodes := Attach(nodes, n, isFront, PlaneOf(geo, partition[0]));
      }
    }

    /**
     * The first half of a round of `insert` at node `n` (lines 294-311):
     * route the polygons and append the node's own ones to its list.
     */
    method Keep(n: nat, polys: seq<Polygon>) returns (front: seq<Polygon>, back: seq<Polygon>)
      requires WellFormed(nodes) && n < |nodes|
      modifies this
      ensures WellFormed(nodes) && Extends(old(nodes), nodes) && |nodes| == |old(nodes)|
      ensures var r := Route(geo, old(nodes)[n].plane, polys);
              && front == r.front && back == r.back
              && nodes == old(nodes)[n := old(nodes)[n].(polygons := old(nodes)[n].polygons + r.own)]
      ensures NeverSpans(geo) ==>
                AllPolygons(nodes) + multiset(front) + multiset(back) == AllPolygons(old(nodes)) + multiset(polys)
      ensures OnOwnPlane(geo) && Seeds(geo, old(nodes), n, polys) ==> |nodes[n].polygons| > 0
      ensures NeverSpans(geo) && Separated(geo, old(nodes)) && AllFit(geo, old(nodes), n, polys) ==>
                && Separated(geo, nodes)
                && Sided(geo, nodes, n, front, FrontList) && Sided(geo, nodes, n, back, BackList)
    {
      var plane := nodes[n].plane;
      var own;
      own, front, back := RoutePolygons(geo, plane, polys);
      if NeverSpans(geo) {
        RouteConserves(geo, plane, polys);
        if Separated(geo, nodes) && AllFit(geo, nodes, n, polys) {
          KeepSeparates(geo, nodes, n, polys);
        }
      }
      if OnOwnPlane(geo) && Seeds(geo, nodes, n, polys) {
        RouteKeepsSeed(geo, plane, polys);
      }
      AppendKeepsTree(nodes, n, own);
      nodes := nodes[n := nodes[n].(polygons := nodes[n].polygons + own)];
    }

    /**
     * The second half (lines 313-318): seed the missing front child from
     * `front` and the missing back child from `back`. The nodes created are
     * children of `n`, each seeded by its partition.
     */
    method SeedBoth(n: nat, front: seq<Polygon>, back: seq<Polygon>)
      requires WellFormed(nodes) && n < |nodes|
      modifies this
      ensures WellFormed(nodes) && Extends(old(nodes), nodes) && AllPolygons(nodes) == AllPolygons(old(nodes))
      ensures nodes[n].polygons == old(nodes)[n].polygons
      ensures |front| > 0 ==> nodes[n].front.Some?
      ensures |back| > 0 ==> nodes[n].back.Some?
      ensures forall i | |old(nodes)| <= i < |nodes| ::
                || (nodes[n].front == Some(i) && Seeds(geo, nodes, i, front))
                || (nodes[n].back == Some(i) && Seeds(geo, nodes, i, back))
      ensures Separated(geo, old(nodes)) ==> Separated(geo, nodes)
      ensures Sided(geo, old(nodes), n, front, FrontList) && nodes[n].front.Some? ==>
                AllFit(geo, nodes, nodes[n].front.value, front)
      ensures Sided(geo, old(nodes), n, back, BackList) && nodes[n].back.Some? ==>
                AllFit(geo, nodes, nodes[n].back.value, back)
    {
      Seed(n, true, front);
      ghost var seededFront := nodes;
      Seed(n, false, back);
      ExtendsTransitive(old(nodes), seededFront, nodes);
      if Sided(geo, old(nodes), n, front, FrontList) && nodes[n].front.Some? {
        SidedChild(geo, old(nodes), nodes, n, true, front);
      }
      if Sided(geo, old(nodes), n, back, BackList) && nodes[n].back.Some? {
        SidedChild(geo, old(nodes), nodes, n, false, back);
      }
      assert NodeExtends(seededFront[n], nodes[n]);
      forall i | |old(nodes)| <= i < |nodes|
        ensures || (nodes[n].front == Some(i) && Seeds(geo, nodes, i, front))
                || (nodes[n].back == Some(i) && Seeds(geo, nodes, i, back))
      {
        if i < |seededFront| {
          assert NodeExtends(seededFront[i], nodes[i]);
        }
      }
    }

    /** One round of `insert` at node `n` (lines 294-318). */
    method Distribute(n: nat, polys: seq<Polygon>) returns (front: seq<Polygon>, back: seq<Polygon>)
      requires WellFormed(nodes) && n < |nodes|
      modifies this
      ensures WellFormed(nodes) && Extends(old(nodes), nodes)
      ensures var r := Route(geo, old(nodes)[n].plane, polys);
              && front == r.front && back == r.back
              && nodes[n].polygons == old(nodes)[n].polygons + r.own
      ensures |front| > 0 ==> nodes[n].front.Some?
      ensures |back| > 0 ==> nodes[n].back.Some?
      ensures NeverSpans(geo) ==>
                AllPolygons(nodes) + multiset(front) + multiset(back) == AllPolygons(old(nodes)) + multiset(polys)
      ensures OnOwnPlane(geo) && Seeds(geo, old(nodes), n, polys) ==> |nodes[n].polygons| > 0
      ensures forall i | |old(nodes)| <= i < |nodes| ::
                || (nodes[n].front == Some(i) && Seeds(geo, nodes, i, front))
                || (nodes[n].back == Some(i) && Seeds(geo, nodes, i, back))
      ensures NeverSpans(geo) && Separated(geo, old(nodes)) && AllFit(geo, old(nodes), n, polys) ==>
                && Separated(geo, nodes)
                && (nodes[n].front.Some? ==> AllFit(geo, nodes, nodes[n].front.value, front))
                && (nodes[n].back.Some? ==> AllFit(geo, nodes, nodes[n].back.value, back))
    {
      front, back := Keep(n, polys);
      ghost var kept := nodes;
      SeedBoth(n, front, back);
      ExtendsTransitive(old(nodes), kept, nodes);
    }

    /**
     * `insert(polygons)` at node `n` (lines 290-330). Each round routes the
     * polygons at the current node, appends the node's own ones, seeds the
     * missing children, recurses into the smaller partition (the front one
     * on a tie) and carries on with the larger one. Termination depends on
     * the geometry, so the rounds and the recursion depth are bounded by
     * `fuel`; `done` is false when the bound cut the work short.
     */
    method Insert(n: nat, polygons: seq<Polygon>, fuel: nat) returns (done: bool)
      requires WellFormed(nodes) && n < |nodes|
      modifies this
      ensures WellFormed(nodes) && Extends(old(nodes), nodes)
      ensures done && NeverSpans(geo) ==> AllPolygons(nodes) == AllPolygons(old(nodes)) + multiset(polygons)
      ensures done && OnOwnPlane(geo) ==> Filled(nodes, |old(nodes)|)
      ensures done && OnOwnPlane(geo) && Seeds(geo, old(nodes), n, polygons) ==> |nodes[n].polygons| > 0
      ensures |polygons| == 0 ==> done && nodes == old(nodes)
      ensures NeverSpans(geo) && Separated(geo, old(nodes)) && AllFit(geo, old(nodes), n, polygons) ==>
                Separated(geo, nodes)
      decreases fuel, 1
    {
      var polys := polygons;
      var node: nat := n;
      var f: nat := fuel;
      ghost var base := |nodes|;
      ghost var seed := Seeds(geo, nodes, n, polygons);
      ExtendsReflexive(nodes);
      while |polys| > 0
        invariant WellFormed(nodes) && n <= node < |nodes| && base <= |nodes|
        invariant Extends(old(nodes), nodes)
        invariant f <= fuel
        invariant NeverSpans(geo) ==> AllPolygons(nodes) + multiset(polys) == AllPolygons(old(nodes)) + multiset(polygons)
        invariant OnOwnPlane(geo) ==> FillInvariant(geo, nodes, base, n, seed, node, polys)
        invariant |polygons| == 0 ==> nodes == old(nodes) && |polys| == 0
        invariant NeverSpans(geo) && Separated(geo, old(nodes)) && AllFit(geo, old(nodes), n, polygons) ==>
                    Separated(geo, nodes) && AllFit(geo, nodes, node, polys)
        decreases f
      {
        if f == 0 {
          return false;
        }
        f := f - 1;
        ghost var start := nodes;
        var ok, rest, next := Round(base, n, seed, node, polys, f);
        ExtendsTransitive(old(nodes), start, nodes);
        if !ok {
          return false;
        }
        polys := rest;
        node := next;
      }
      if OnOwnPlane(geo) {
        assert !Seeds(geo, nodes, node, polys);
      }
      return true;
    }

    /**
     * One iteration of the loop of `insert` at `node` (lines 294-328):
     * distribute the polygons, then descend.
     */
    method Round(ghost base: nat, ghost n: nat, ghost seed: bool, node: nat, polys: seq<Polygon>, fuel: nat)
      returns (ok: bool, rest: seq<Polygon>, next: nat)
      requires WellFormed(nodes) && n <= node < |nodes| && n < base <= |nodes|
      requires OnOwnPlane(geo) ==> FillInvariant(geo, nodes, base, n, seed, node, polys)
      modifies this
      ensures WellFormed(nodes) && Extends(old(nodes), nodes)
      ensures var r := Route(geo, old(nodes)[node].plane, polys);
              && old(nodes)[node].polygons + r.own <= nodes[node].polygons
              && rest == (if |r.front| > |r.back| then r.front else r.back)
              && MovesTo(nodes, node, r.front, r.back, next)
      ensures ok && NeverSpans(geo) ==> AllPolygons(nodes) + multiset(rest) == AllPolygons(old(nodes)) + multiset(polys)
      ensures ok && OnOwnPlane(geo) ==> FillInvariant(geo, nodes, base, n, seed, next, rest)
      ensures NeverSpans(geo) && Separated(geo, old(nodes)) && AllFit(geo, old(nodes), node, polys) ==>
                Separated(geo, nodes) && AllFit(geo, nodes, next, rest)
      decreases fuel, 4
    {
      var front, back := Distribute(node, polys);
      ghost var seeded := nodes;
      ok, rest, next := Descend(base, n, seed, old(nodes), node, polys, front, back, fuel);
      ExtendsTransitive(old(nodes), seeded, nodes);
      assert NodeExtends(seeded[node], nodes[node]);
      if ok && NeverSpans(geo) {
        if |front| > |back| {
          assert AllPolygons(nodes) + multiset(rest) == AllPolygons(seeded) + multiset(back) + multiset(front);
        } else {
          assert AllPolygons(nodes) + multiset(rest) == AllPolygons(seeded) + multiset(front) + multiset(back);
        }
      }
    }

    /**
     * The end of a round (lines 320-328): recurse into the smaller partition
     * (front on a tie) and return the larger one with the node the loop
     * moves to: the front child when front is larger, else the back child,
     * or `node` itself when there is no back child (the back partition is
     * then empty). `ok` is false when the recursion ran out of fuel.
     */
    method Descend(ghost base: nat, ghost n: nat, ghost seed: bool, ghost start: seq<Node>,
                   node: nat, ghost polys: seq<Polygon>, front: seq<Polygon>, back: seq<Polygon>, fuel: nat)
      returns (ok: bool, rest: seq<Polygon>, next: nat)
      requires WellFormed(nodes) && WellFormed(start) && n <= node < |start| <= |nodes| && n < base <= |start|
      requires Extends(start, nodes)
      requires ChildrenFor(nodes, node, front, back)
      requires OnOwnPlane(geo) ==> FillStep(geo, base, n, seed, start, nodes, node, polys, front, back)
      requires NeverSpans(geo) && Separated(geo, start) && AllFit(geo, start, node, polys) ==>
                 && Separated(geo, nodes)
                 && (nodes[node].front.Some? ==> AllFit(geo, nodes, nodes[node].front.value, front))
                 && (nodes[node].back.Some? ==> AllFit(geo, nodes, nodes[node].back.value, back))
      modifies this
      ensures WellFormed(nodes) && Extends(old(nodes), nodes)
      ensures rest == if |front| > |back| then front else back
      ensures MovesTo(nodes, node, front, back, next)
      ensures ok && OnOwnPlane(geo) ==> FillInvariant(geo, nodes, base, n, seed, next, rest)
      ensures (if |front| > |back| then old(nodes)[node].back else old(nodes)[node].front).None? ==>
                ok && nodes == old(nodes)
      ensures ok && NeverSpans(geo) ==>
                AllPolygons(nodes) == AllPolygons(old(nodes)) + multiset(if |front| > |back| then back else front)
      ensures NeverSpans(geo) && Separated(geo, start) && AllFit(geo, start, node, polys) ==>
                Separated(geo, nodes) && AllFit(geo, nodes, next, rest)
      decreases fuel, 3
    {
      ghost var seeded := nodes;
      var frontLarger := |front| > |back|;
      var smallPart, largePart := if frontLarger then back else front, if frontLarger then front else back;
      next := if frontLarger then nodes[node].front.value
              else if nodes[node].back.Some? then nodes[node].back.value
              else node;
      ok := InsertAtChild(node, !frontLarger, smallPart, fuel);
      rest := largePart;
      DescendEnd(geo, base, n, seed, start, seeded, nodes, node, polys, front, back, ok, next);
    }

    /**
     * Inserting a partition into one side's child (lines 321 and 325): insert at the child on that side, or do nothing when there is
     * none, which happens only when the partition is empty.
     */
    method InsertAtChild(node: nat, isFront: bool, part: seq<Polygon>, fuel: nat) returns (ok: bool)
      requires WellFormed(nodes) && node < |nodes|
      requires (if isFront then nodes[node].front else nodes[node].back).None? ==> |part| == 0
      modifies this
      ensures WellFormed(nodes) && Extends(old(nodes), nodes)
      ensures var c := if isFront then old(nodes)[node].front else old(nodes)[node].back;
              && (c.None? || |part| == 0 ==> ok && nodes == old(nodes))
              && (c.Some? ==> c.value < |old(nodes)|)
              && (ok && OnOwnPlane(geo) ==> Filled(nodes, |old(nodes)|))
              && (ok && OnOwnPlane(geo) && c.Some? && Seeds(geo, old(nodes), c.value, part) ==>
                    |nodes[c.value].polygons| > 0)
              && (NeverSpans(geo) && Separated(geo, old(nodes)) && (c.Some? ==> AllFit(geo, old(nodes), c.value, part)) ==>
                    Separated(geo, nodes))
      ensures ok && NeverSpans(geo) ==> AllPolygons(nodes) == AllPolygons(old(nodes)) + multiset(part)
      decreases fuel, 2
    {
      var c := if isFront then nodes[node].front else nodes[node].back;
      assert NodeOk(nodes, node);
      if c.Some? {
        ok := Insert(c.value, part, fuel);
      } else {
        ok := true;
        ExtendsReflexive(nodes);
      }
    }
  }
}
