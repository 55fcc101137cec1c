/**
 * `BSPNode.clip` (lines 226-288) with its accumulator `addPolygons`. The
 * tree is only read: clipping works on an immutable snapshot of the nodes.
 */
module Clipping {
  import opened Wrappers
  import opened Primitives
  import opened Nodes

  // ---------------------------------------------------------------------
  // addPolygons: accumulation with lineage rejoining (lines 234-250)
  // ---------------------------------------------------------------------

  /** What the backward scan of `total` leaves: the entries not joined, and the polygon grown by the joins. */
  datatype Scanned = Scanned(survivors: seq<Polygon>, joined: Polygon)

  /**
   * The scan `for i in total.indices.reversed()`: from the last entry to the
   * first, an entry with the same id that `join` accepts is merged into `a`
   * and removed.
   */
  function JoinScan(geo: Geometry, total: seq<Polygon>, a: Polygon): Scanned
    decreases |total|
  {
    if |total| == 0 then Scanned([], a)
    else
      var b := total[|total| - 1];
      var rest := total[..|total| - 1];
      if a.id == b.id && geo.join(a, b).Some? then JoinScan(geo, rest, geo.join(a, b).value)
      else
        var s := JoinScan(geo, rest, a);
        Scanned(s.survivors + [b], s.joined)
  }

  /** `total` after adding one polygon. */
  function AddOne(geo: Geometry, total: seq<Polygon>, a: Polygon): seq<Polygon>
  {
    if a.id == 0 then total + [a]
    else
      var s := JoinScan(geo, total, a);
      s.survivors + [s.joined]
  }

  /** `total` after `addPolygons(ps)`. */
  function AddAll(geo: Geometry, total: seq<Polygon>, ps: seq<Polygon>): seq<Polygon>
  {
    if |ps| == 0 then total else AddOne(geo, AddAll(geo, total, ps[..|ps| - 1]), ps[|ps| - 1])
  }

  /** The entries of `s` whose id is not `id`, in order. */
  function Others(s: seq<Polygon>, id: int): (r: seq<Polygon>)
    ensures |r| <= |s|
  {
    if |s| == 0 then []
    else Others(s[..|s| - 1], id) + (if s[|s| - 1].id == id then [] else [s[|s| - 1]])
  }

  lemma OthersAppend(s: seq<Polygon>, t: seq<Polygon>, id: int)
    ensures Others(s + t, id) == Others(s, id) + Others(t, id)
    decreases |t|
  {
    if |t| == 0 {
      assert s + t == s;
    } else {
      var init := t[..|t| - 1];
      assert (s + t)[..|s + t| - 1] == s + init;
      assert (s + t)[|s + t| - 1] == t[|t| - 1];
      OthersAppend(s, init, id);
    }
  }

  /**
   * The scan removes only entries carrying `a`'s id: the other entries stay,
   * in order, it never adds an entry, and the joined polygon keeps `a`'s id.
   */
  lemma {:induction false} JoinScanRemovesOnlySameId(geo: Geometry, total: seq<Polygon>, a: Polygon)
    requires JoinKeepsId(geo)
    ensures var s := JoinScan(geo, total, a);
            && Others(s.survivors, a.id) == Others(total, a.id)
            && multiset(s.survivors) <= multiset(total)
            && |s.survivors| <= |total|
            && s.joined.id == a.id
    decreases |total|
  {
    if |total| > 0 {
      var b := total[|total| - 1];
      var rest := total[..|total| - 1];
      assert total == rest + [b];
      if a.id == b.id && geo.join(a, b).Some? {
        JoinScanRemovesOnlySameId(geo, rest, geo.join(a, b).value);
      } else {
        JoinScanRemovesOnlySameId(geo, rest, a);
        var s := JoinScan(geo, rest, a);
        OthersAppend(s.survivors, [b], a.id);
        assert s.survivors + [b] == JoinScan(geo, total, a).survivors;
      }
    }
  }

  /**
   * Adding one polygon: one with id 0 is appended unchanged; one with a
   * nonzero id may absorb entries with its own id, leaves every entry with
   * another id where it was, and ends up last. Either way `total` grows by
   * at most one entry.
   */
  lemma AddOneEffect(geo: Geometry, total: seq<Polygon>, a: Polygon)
    requires JoinKeepsId(geo)
    ensures a.id == 0 ==> AddOne(geo, total, a) == total + [a]
    ensures |AddOne(geo, total, a)| <= |total| + 1
    ensures a.id != 0 ==>
              var r := AddOne(geo, total, a);
              && Others(r, a.id) == Others(total, a.id)
              && multiset(r[..|r| - 1]) <= multiset(total)
              && r[|r| - 1].id == a.id
  {
    if a.id != 0 {
      JoinScanRemovesOnlySameId(geo, total, a);
      var s := JoinScan(geo, total, a);
      var r := AddOne(geo, total, a);
      OthersAppend(s.survivors, [s.joined], a.id);
      assert r[..|r| - 1] == s.survivors;
    }
  }

  /** When nothing is ever rejoined the scan removes nothing. */
  lemma {:induction false} JoinScanNoJoin(geo: Geometry, total: seq<Polygon>, a: Polygon)
    requires NeverJoins(geo)
    ensures JoinScan(geo, total, a) == Scanned(total, a)
    decreases |total|
  {
    if |total| > 0 {
      JoinScanNoJoin(geo, total[..|total| - 1], a);
    }
  }

  /** When nothing is ever rejoined, accumulation is concatenation. */
  lemma {:induction false} AddAllNoJoin(geo: Geometry, total: seq<Polygon>, ps: seq<Polygon>)
    requires NeverJoins(geo)
    ensures AddAll(geo, total, ps) == total + ps
    decreases |ps|
  {
    if |ps| > 0 {
      var init := ps[..|ps| - 1];
      AddAllNoJoin(geo, total, init);
      JoinScanNoJoin(geo, total + init, ps[|ps| - 1]);
      assert total + ps == total + init + [ps[|ps| - 1]];
    }
  }

  /** Two `addPolygons` calls in a row are one call on the concatenation. */
  lemma {:induction false} AddAllConcat(geo: Geometry, total: seq<Polygon>, ps: seq<Polygon>, qs: seq<Polygon>)
    ensures AddAll(geo, AddAll(geo, total, ps), qs) == AddAll(geo, total, ps + qs)
    decreases |qs|
  {
    if |qs| == 0 {
      assert ps + qs == ps;
    } else {
      assert (ps + qs)[..|ps + qs| - 1] == ps + qs[..|qs| - 1];
      AddAllConcat(geo, total, ps, qs[..|qs| - 1]);
    }
  }

  /** `addPolygons(ps)`: the loop over `ps`, appending a polygon with id 0 and scanning back for joins otherwise. */
  method AddPolygons(geo: Geometry, total: seq<Polygon>, ps: seq<Polygon>) returns (t: seq<Polygon>)
    ensures t == AddAll(geo, total, ps)
  {
    t := total;
    for k := 0 to |ps|
      invariant t == AddAll(geo, total, ps[..k])
    {
      assert ps[..k + 1][..k] == ps[..k];
      var a := ps[k];
      if a.id == 0 {
        t := t + [a];
      } else {
        var survivors, joined := ScanBack(geo, t, a);
        t := survivors + [joined];
      }
    }
    assert ps[..|ps|] == ps;
  }

  /** The join scan over the accumulated list from its end, removing each polygon that is joined. */
  method ScanBack(geo: Geometry, total: seq<Polygon>, a0: Polygon) returns (t: seq<Polygon>, a: Polygon)
    ensures Scanned(t, a) == JoinScan(geo, total, a0)
  {
    t, a := total, a0;
    var i := |t|;
    assert total[..i] == total;
    while i > 0
      invariant 0 <= i <= |t| && i <= |total|
      invariant t[..i] == total[..i]
      invariant JoinScan(geo, total, a0)
             == Scanned(JoinScan(geo, total[..i], a).survivors + t[i..], JoinScan(geo, total[..i], a).joined)
    {
      assert total[..i][..i - 1] == total[..i - 1];
      i := i - 1;
      var b := t[i];
      if a.id == b.id {
        var c := geo.join(a, b);
        if c.Some? {
          a := c.value;
          t := t[..i] + t[i + 1..];
        }
      }
    }
    assert total[..0] == [];
    assert t[0..] == t;
  }

  // ---------------------------------------------------------------------
  // The partition at one node (lines 253-268)
  // ---------------------------------------------------------------------

  /** The coplanar, front and back lists and the lineage counter while splitting. */
  datatype Parts = Parts(coplanar: seq<Polygon>, front: seq<Polygon>, back: seq<Polygon>, id: int)

  /**
   * Splitting one polygon along the node's plane (line 255): the polygon goes
   * to the list its side names; a spanning one is split and its fragments
   * go to front and back.
   */
  function SplitOne(geo: Geometry, plane: Plane, r: Parts, p: Polygon): Parts
  {
    match geo.compare(p, plane)
    case Coplanar => r.(coplanar := r.coplanar + [p])
    case Front => r.(front := r.front + [p])
    case Back => r.(back := r.back + [p])
    case Spanning =>
      var f := geo.splitSpanning(p, plane, r.id);
      r.(front := r.front + f.front, back := r.back + f.back, id := f.id)
  }

  function SplitAll(geo: Geometry, plane: Plane, ps: seq<Polygon>, id: int): Parts
  {
    if |ps| == 0 then Parts([], [], [], id)
    else SplitOne(geo, plane, SplitAll(geo, plane, ps[..|ps| - 1], id), ps[|ps| - 1])
  }

  /** Without spanning polygons, splitting only sorts: nothing is lost, added or renumbered. */
  lemma {:induction false} SplitAllConserves(geo: Geometry, plane: Plane, ps: seq<Polygon>, id: int)
    requires NeverSpans(geo)
    ensures var r := SplitAll(geo, plane, ps, id);
            && multiset(r.coplanar) + multiset(r.front) + multiset(r.back) == multiset(ps)
            && r.id == id
  {
    if |ps| > 0 {
      var init := ps[..|ps| - 1];
      SplitAllConserves(geo, plane, init, id);
      SplitOneConserves(geo, plane, SplitAll(geo, plane, init, id), ps[|ps| - 1]);
      assert ps == init + [ps[|ps| - 1]];
      assert multiset(ps) == multiset(init) + multiset{ps[|ps| - 1]};
    }
  }

  lemma SplitOneConserves(geo: Geometry, plane: Plane, r: Parts, p: Polygon)
    requires NeverSpans(geo)
    ensures var r' := SplitOne(geo, plane, r, p);
            && multiset(r'.coplanar) + multiset(r'.front) + multiset(r'.back)
               == multiset(r.coplanar) + multiset(r.front) + multiset(r.back) + multiset{p}
            && r'.id == r.id
  {
    assert geo.compare(p, plane) != Spanning;
  }

  /** The front and back lists and the lineage counter while resolving coplanar polygons. */
  datatype Sides = Sides(front: seq<Polygon>, back: seq<Polygon>, id: int)

  /**
   * One coplanar polygon at `node`: under `.greaterThanEqual` and `.lessThan`
   * a polygon facing the node's way goes to front as it is; otherwise it is
   * clipped against the node's own polygons, `clip(to:)` filling back and front.
   */
  function ResolveOne(geo: Geometry, node: Node, rule: ClipRule, r: Sides, p: Polygon): Sides
  {
    if (rule == GreaterThanEqual || rule == LessThan) && geo.sameFacing(node.plane, PlaneOf(geo, p)) then
      r.(front := r.front + [p])
    else
      var f := geo.clipTo(p, node.polygons, r.id);
      Sides(r.front + f.front, r.back + f.back, f.id)
  }

  function ResolveAll(geo: Geometry, node: Node, rule: ClipRule, coplanar: seq<Polygon>, start: Sides): Sides
  {
    if |coplanar| == 0 then start
    else ResolveOne(geo, node, rule, ResolveAll(geo, node, rule, coplanar[..|coplanar| - 1], start), coplanar[|coplanar| - 1])
  }

  /**
   * Under `.greaterThanEqual` and `.lessThan`, coplanar polygons all facing
   * the node's way are appended to front unchanged, in order, and nothing
   * else changes.
   */
  lemma {:induction false} FacingCoplanarGoFront(geo: Geometry, node: Node, rule: ClipRule, coplanar: seq<Polygon>, start: Sides)
    requires rule == GreaterThanEqual || rule == LessThan
    requires forall p | p in coplanar :: geo.sameFacing(node.plane, PlaneOf(geo, p))
    ensures ResolveAll(geo, node, rule, coplanar, start) == start.(front := start.front + coplanar)
  {
    if |coplanar| > 0 {
      var init := coplanar[..|coplanar| - 1];
      assert forall p | p in init :: p in coplanar;
      FacingCoplanarGoFront(geo, node, rule, init, start);
      assert coplanar == init + [coplanar[|coplanar| - 1]];
    }
  }

  /** The front and back fragments and the counter after both loops at `node`. */
  function Partition(geo: Geometry, node: Node, rule: ClipRule, polys: seq<Polygon>, id: int): Sides
  {
    var parts := SplitAll(geo, node.plane, polys, id);
    ResolveAll(geo, node, rule, parts.coplanar, Sides(parts.front, parts.back, parts.id))
  }

  /** The two loops at the top of each round of `clip`. */
  method PartitionAt(geo: Geometry, node: Node, rule: ClipRule, polys: seq<Polygon>, id0: int)
    returns (front: seq<Polygon>, back: seq<Polygon>, id: int)
    ensures Sides(front, back, id) == Partition(geo, node, rule, polys, id0)
  {
    var coplanar := [];
    front, back, id := [], [], id0;
    for i := 0 to |polys|
      invariant Parts(coplanar, front, back, id) == SplitAll(geo, node.plane, polys[..i], id0)
    {
      assert polys[..i + 1][..i] == polys[..i];
      var p := polys[i];
      match geo.compare(p, node.plane)
      case Coplanar =>
        coplanar := coplanar + [p];
      case Front =>
        front := front + [p];
      case Back =>
        back := back + [p];
      case Spanning =>
        var f := geo.splitSpanning(p, node.plane, id);
        front := front + f.front;
        back := back + f.back;
        id := f.id;
    }
    assert polys[..|polys|] == polys;
    ghost var start := Sides(front, back, id);
    for i := 0 to |coplanar|
      invariant Sides(front, back, id) == ResolveAll(geo, node, rule, coplanar[..i], start)
    {
      assert coplanar[..i + 1][..i] == coplanar[..i];
      var p := coplanar[i];
      if (rule == GreaterThanEqual || rule == LessThan) && geo.sameFacing(node.plane, PlaneOf(geo, p)) {
        front := front + [p];
      } else {
        var f := geo.clipTo(p, node.polygons, id);
        back := back + f.back;
        front := front + f.front;
        id := f.id;
      }
    }
    assert coplanar[..|coplanar|] == coplanar;
  }

  // ---------------------------------------------------------------------
  // clip (lines 226-288)
  // ---------------------------------------------------------------------

  /** A clip result and the lineage counter after it. */
  datatype Clipped = Clipped(polygons: seq<Polygon>, id: int)

  /**
   * The result of clipping `polys` from node `n` on while accumulating into
   * `total`: each round partitions at the node, clips the smaller side
   * (back when front is larger, front otherwise) with a fresh accumulator
   * (a missing child keeps the side iff the rule keeps that side), adds
   * that, and carries on into the other side; a missing child there ends
   * the walk.
   */
  function ClipInto(geo: Geometry, nodes: seq<Node>, n: nat, polys: seq<Polygon>, rule: ClipRule, total: seq<Polygon>, id: int): Clipped
    requires WellFormed(nodes) && n < |nodes|
    decreases |nodes| - n
  {
    if |polys| == 0 then Clipped(total, id)
    else
      var node := nodes[n];
      var s := Partition(geo, node, rule, polys, id);
      var keepFront := KeepFront(rule);
      assert NodeOk(nodes, n);
      if |s.front| > |s.back| then
        var sub := if node.back.Some? then ClipInto(geo, nodes, node.back.value, s.back, rule, [], s.id)
                   else Clipped(if !keepFront then s.back else [], s.id);
        var total1 := AddAll(geo, total, sub.polygons);
        if node.front.None? then Clipped(AddAll(geo, total1, if keepFront then s.front else []), sub.id)
        else ClipInto(geo, nodes, node.front.value, s.front, rule, total1, sub.id)
      else
        var sub := if node.front.Some? then ClipInto(geo, nodes, node.front.value, s.front, rule, [], s.id)
                   else Clipped(if keepFront then s.front else [], s.id);
        var total1 := AddAll(geo, total, sub.polygons);
        if node.back.None? then Clipped(AddAll(geo, total1, if !keepFront then s.back else []), sub.id)
        else ClipInto(geo, nodes, node.back.value, s.back, rule, total1, sub.id)
  }

  /**
   * Clipping a list against a node: it never changes the tree, and an
   * empty input gives an empty result without touching the counter.
   */
  method Clip(geo: Geometry, nodes: seq<Node>, n: nat, polygons: seq<Polygon>, rule: ClipRule, id0: int)
    returns (total: seq<Polygon>, id: int)
    requires WellFormed(nodes) && n < |nodes|
    ensures Clipped(total, id) == ClipInto(geo, nodes, n, polygons, rule, [], id0)
    ensures |polygons| == 0 ==> total == [] && id == id0
    decreases |nodes| - n
  {
    var polys := polygons;
    var node: nat := n;
    total, id := [], id0;
    var keepFront := KeepFront(rule);
    while |polys| > 0
      invariant n <= node < |nodes|
      invariant ClipInto(geo, nodes, node, polys, rule, total, id) == ClipInto(geo, nodes, n, polygons, rule, [], id0)
      decreases |nodes| - node
    {
      assert NodeOk(nodes, node);
      var front, back;
      front, back, id := PartitionAt(geo, nodes[node], rule, polys, id);
      var sub: seq<Polygon>;
      if |front| > |back| {
        if nodes[node].back.Some? {
          sub, id := Clip(geo, nodes, nodes[node].back.value, back, rule, id);
        } else {
          sub := if !keepFront then back else [];
        }
        total := AddPolygons(geo, total, sub);
        if nodes[node].front.None? {
          total := AddPolygons(geo, total, if keepFront then front else []);
          return;
        }
        polys := front;
        node := nodes[node].front.value;
      } else {
        if nodes[node].front.Some? {
          sub, id := Clip(geo, nodes, nodes[node].front.value, front, rule, id);
        } else {
          sub := if keepFront then front else [];
        }
        total := AddPolygons(geo, total, sub);
        if nodes[node].back.None? {
          total := AddPolygons(geo, total, if !keepFront then back else []);
          return;
        }
        polys := back;
        node := nodes[node].back.value;
      }
    }
  }

  // ---------------------------------------------------------------------
  // What clip computes
  // ---------------------------------------------------------------------

  /**
   * The plain two-sided recursion: clip both partitions into both children,
   * in the order `clip` visits them (the smaller side first), and
   * concatenate; at a missing child a side is kept whole exactly when the
   * rule keeps that side (front for `.greaterThan`/`.greaterThanEqual`,
   * back otherwise).
   */
  function Kept(geo: Geometry, nodes: seq<Node>, n: nat, polys: seq<Polygon>, rule: ClipRule, id: int): Clipped
    requires WellFormed(nodes) && n < |nodes|
    decreases |nodes| - n
  {
    if |polys| == 0 then Clipped([], id)
    else
      var node := nodes[n];
      var s := Partition(geo, node, rule, polys, id);
      assert NodeOk(nodes, n);
      if |s.front| > |s.back| then
        var b := if node.back.Some? then Kept(geo, nodes, node.back.value, s.back, rule, s.id)
                 else Clipped(if !KeepFront(rule) then s.back else [], s.id);
        var f := if node.front.Some? then Kept(geo, nodes, node.front.value, s.front, rule, b.id)
                 else Clipped(if KeepFront(rule) then s.front else [], b.id);
        Clipped(b.polygons + f.polygons, f.id)
      else
        var f := if node.front.Some? then Kept(geo, nodes, node.front.value, s.front, rule, s.id)
                 else Clipped(if KeepFront(rule) then s.front else [], s.id);
        var b := if node.back.Some? then Kept(geo, nodes, node.back.value, s.back, rule, f.id)
                 else Clipped(if !KeepFront(rule) then s.back else [], f.id);
        Clipped(f.polygons + b.polygons, b.id)
  }

  /**
   * Recursing into the smaller side and iterating into the larger one
   * computes the two-sided recursion: when no fragments are rejoined, the
   * walk appends to `total` exactly what `Kept` keeps, in the same order and
   * with the same lineage counter.
   */
  lemma {:induction false} ClipIsTwoSided(geo: Geometry, nodes: seq<Node>, n: nat, polys: seq<Polygon>, rule: ClipRule, total: seq<Polygon>, id: int)
    requires WellFormed(nodes) && n < |nodes|
    requires NeverJoins(geo)
    ensures var k := Kept(geo, nodes, n, polys, rule, id);
            ClipInto(geo, nodes, n, polys, rule, total, id) == Clipped(total + k.polygons, k.id)
    decreases |nodes| - n, 2
  {
    if |polys| > 0 {
      var s := Partition(geo, nodes[n], rule, polys, id);
      if |s.front| > |s.back| {
        TwoSidedRound(geo, nodes, n, polys, rule, total, id, true);
      } else {
        TwoSidedRound(geo, nodes, n, polys, rule, total, id, false);
      }
    }
  }

  /** One round of `ClipIsTwoSided`; `frontLarger` says which side is iterated into. */
  lemma {:induction false} TwoSidedRound(geo: Geometry, nodes: seq<Node>, n: nat, polys: seq<Polygon>, rule: ClipRule, total: seq<Polygon>, id: int, frontLarger: bool)
    requires WellFormed(nodes) && n < |nodes|
    requires NeverJoins(geo) && |polys| > 0
    requires var s := Partition(geo, nodes[n], rule, polys, id); frontLarger <==> |s.front| > |s.back|
    ensures var k := Kept(geo, nodes, n, polys, rule, id);
            ClipInto(geo, nodes, n, polys, rule, total, id) == Clipped(total + k.polygons, k.id)
    decreases |nodes| - n, 1
  {
    var node := nodes[n];
    var s := Partition(geo, node, rule, polys, id);
    var keepFront := KeepFront(rule);
    assert NodeOk(nodes, n);
    var small, large := if frontLarger then node.back else node.front, if frontLarger then node.front else node.back;
    var sp, lp := if frontLarger then s.back else s.front, if frontLarger then s.front else s.back;
    var sk, lk := if frontLarger then !keepFront else keepFront, if frontLarger then keepFront else !keepFront;
    var sub := if small.Some? then ClipInto(geo, nodes, small.value, sp, rule, [], s.id) else Clipped(if sk then sp else [], s.id);
    var total1 := AddAll(geo, total, sub.polygons);
    assert ClipInto(geo, nodes, n, polys, rule, total, id)
        == if large.None? then Clipped(AddAll(geo, total1, if lk then lp else []), sub.id)
           else ClipInto(geo, nodes, large.value, lp, rule, total1, sub.id);
    var ks := if small.Some? then Kept(geo, nodes, small.value, sp, rule, s.id) else Clipped(if sk then sp else [], s.id);
    var kl := if large.Some? then Kept(geo, nodes, large.value, lp, rule, ks.id) else Clipped(if lk then lp else [], ks.id);
    assert Kept(geo, nodes, n, polys, rule, id) == Clipped(ks.polygons + kl.polygons, kl.id);
    SideAgrees(geo, nodes, n, small, sp, rule, sk, s.id);
    assert sub == ks;
    AddAllNoJoin(geo, total, ks.polygons);
    assert total1 == total + ks.polygons;
    ContinueAgrees(geo, nodes, n, large, lp, rule, lk, total1, ks.id);
    ConcatAssoc(total, ks.polygons, kl.polygons);
  }

  lemma ConcatAssoc(a: seq<Polygon>, b: seq<Polygon>, c: seq<Polygon>)
    ensures (a + b) + c == a + (b + c)
  {
  }

  /** The smaller side of a round of node `n`, clipped with a fresh accumulator, is what `Kept` keeps of it. */
  lemma {:induction false} SideAgrees(geo: Geometry, nodes: seq<Node>, n: nat, child: Option<nat>, part: seq<Polygon>, rule: ClipRule, keep: bool, id: int)
    requires WellFormed(nodes) && NeverJoins(geo) && n < |nodes|
    requires child.Some? ==> n < child.value < |nodes|
    ensures (if child.Some? then ClipInto(geo, nodes, child.value, part, rule, [], id) else Clipped(if keep then part else [], id))
         == (if child.Some? then Kept(geo, nodes, child.value, part, rule, id) else Clipped(if keep then part else [], id))
    decreases |nodes| - n, 0
  {
    if child.Some? {
      ClipIsTwoSided(geo, nodes, child.value, part, rule, [], id);
      assert [] + Kept(geo, nodes, child.value, part, rule, id).polygons == Kept(geo, nodes, child.value, part, rule, id).polygons;
    }
  }

  /** The larger side of a round of node `n`, clipped into `total`, appends what `Kept` keeps of it. */
  lemma {:induction false} ContinueAgrees(geo: Geometry, nodes: seq<Node>, n: nat, child: Option<nat>, part: seq<Polygon>, rule: ClipRule, keep: bool, total: seq<Polygon>, id: int)
    requires WellFormed(nodes) && NeverJoins(geo) && n < |nodes|
    requires child.Some? ==> n < child.value < |nodes|
    ensures var k := if child.Some? then Kept(geo, nodes, child.value, part, rule, id) else Clipped(if keep then part else [], id);
            (if child.None? then Clipped(AddAll(geo, total, if keep then part else []), id)
             else ClipInto(geo, nodes, child.value, part, rule, total, id))
            == Clipped(total + k.polygons, k.id)
    decreases |nodes| - n, 0
  {
    if child.Some? {
      ClipIsTwoSided(geo, nodes, child.value, part, rule, total, id);
    } else {
      AddAllNoJoin(geo, total, if keep then part else []);
    }
  }

  /**
   * At a node without children exactly the side the rule keeps is
   * accumulated: the front fragments under `.greaterThan` and
   * `.greaterThanEqual`, the back fragments otherwise.
   */
  lemma ClipAtLeaf(geo: Geometry, nodes: seq<Node>, n: nat, polys: seq<Polygon>, rule: ClipRule, total: seq<Polygon>, id: int)
    requires WellFormed(nodes) && n < |nodes|
    requires nodes[n].front.None? && nodes[n].back.None? && |polys| > 0
    ensures var s := Partition(geo, nodes[n], rule, polys, id);
            ClipInto(geo, nodes, n, polys, rule, total, id)
            == Clipped(AddAll(geo, total, if KeepFront(rule) then s.front else s.back), s.id)
  {
    var s := Partition(geo, nodes[n], rule, polys, id);
    if |s.front| > |s.back| {
      AddAllConcat(geo, total, if !KeepFront(rule) then s.back else [], if KeepFront(rule) then s.front else []);
      assert (if !KeepFront(rule) then s.back else []) + (if KeepFront(rule) then s.front else [])
          == (if KeepFront(rule) then s.front else s.back);
    } else {
      AddAllConcat(geo, total, if KeepFront(rule) then s.front else [], if !KeepFront(rule) then s.back else []);
      assert (if KeepFront(rule) then s.front else []) + (if !KeepFront(rule) then s.back else [])
          == (if KeepFront(rule) then s.front else s.back);
    }
  }
}
