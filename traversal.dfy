/**
 * `BSPIterator` (lines 42-88): a depth-first walk over a tree snapshot with
 * an explicit stack of node indices. It is reproduced as written, including
 * the stale `node` that `next()` binds before its loop may move
 * `currentNode`: after a pop the first polygon of the node just left is
 * yielded, so each node's first polygon comes out one pop late and the last
 * popped node's first polygon never comes out.
 */
module Traversal {
  import opened Wrappers
  import opened Primitives
  import opened Nodes

  /** The iterator's state: `stack`, `currentNode`, `polygonIndex`. */
  datatype Cursor = Cursor(stack: seq<nat>, current: Option<nat>, index: nat)

  /** What one `next()` returns, and the state after it. */
  datatype Yield = Yield(item: Option<Polygon>, after: Cursor)

  /** Every index the cursor holds names a node of the arena. */
  predicate CursorOk(nodes: seq<Node>, c: Cursor)
  {
    && (forall k | 0 <= k < |c.stack| :: c.stack[k] < |nodes|)
    && (c.current.Some? ==> c.current.value < |nodes|)
  }

  /** `pushChildren()`: the current node's front child, then its back child, go on top of the stack. */
  function Pushed(nodes: seq<Node>, c: Cursor): (r: Cursor)
    requires WellFormed(nodes) && CursorOk(nodes, c)
    ensures CursorOk(nodes, r)
    ensures r.current == c.current && r.index == c.index
    ensures c.current.None? ==> r.stack == c.stack
    ensures c.current.Some? ==> r.stack == c.stack + Children(nodes[c.current.value])
  {
    if c.current.None? then c
    else
      assert NodeOk(nodes, c.current.value);
      c.(stack := c.stack + Children(nodes[c.current.value]))
  }

  /** `BSPIterator(node: root)`: the root is current and its children are pushed. */
  function Start(nodes: seq<Node>): Cursor
    requires WellFormed(nodes)
  {
    Pushed(nodes, Cursor([], if |nodes| == 0 then None else Some(0), 0))
  }

  /** The sum of the subtree sizes of the stacked nodes: each pop lowers it by one. */
  function StackMeasure(nodes: seq<Node>, stack: seq<nat>): nat
    requires WellFormed(nodes) && forall k | 0 <= k < |stack| :: stack[k] < |nodes|
  {
    if |stack| == 0 then 0
    else StackMeasure(nodes, stack[..|stack| - 1]) + NodeCount(nodes, stack[|stack| - 1])
  }

  lemma {:induction false} StackMeasureAppend(nodes: seq<Node>, s: seq<nat>, t: seq<nat>)
    requires WellFormed(nodes)
    requires forall k | 0 <= k < |s| :: s[k] < |nodes|
    requires forall k | 0 <= k < |t| :: t[k] < |nodes|
    ensures forall k | 0 <= k < |s + t| :: (s + t)[k] < |nodes|
    ensures StackMeasure(nodes, s + t) == StackMeasure(nodes, s) + StackMeasure(nodes, t)
    decreases |t|
  {
    assert forall k | 0 <= k < |s + t| :: (s + t)[k] < |nodes| by {
      forall k | 0 <= k < |s + t| ensures (s + t)[k] < |nodes| {
        if k >= |s| { assert (s + t)[k] == t[k - |s|]; }
      }
    }
    if |t| == 0 {
      assert s + t == s;
    } else {
      var init := t[..|t| - 1];
      assert (s + t)[..|s + t| - 1] == s + init;
      StackMeasureAppend(nodes, s, init);
    }
  }

  /** Popping node `t` and pushing its children lowers the measure by exactly one. */
  lemma PopMeasure(nodes: seq<Node>, rest: seq<nat>, t: nat)
    requires WellFormed(nodes) && t < |nodes|
    requires forall k | 0 <= k < |rest| :: rest[k] < |nodes|
    ensures forall k | 0 <= k < |rest + [t]| :: (rest + [t])[k] < |nodes|
    ensures forall k | 0 <= k < |rest + Children(nodes[t])| :: (rest + Children(nodes[t]))[k] < |nodes|
    ensures StackMeasure(nodes, rest + Children(nodes[t])) + 1 == StackMeasure(nodes, rest + [t])
  {
    ChildrenMeasure(nodes, t);
    StackMeasureAppend(nodes, rest, Children(nodes[t]));
    StackMeasureAppend(nodes, rest, [t]);
    assert [t][..0] == [];
  }

  /**
   * The children of `t`, as a stack, measure one node less than the
   * subtree of `t` and hold all its polygons but its own.
   */
  lemma ChildrenMeasure(nodes: seq<Node>, t: nat)
    requires WellFormed(nodes) && t < |nodes|
    ensures forall k | 0 <= k < |Children(nodes[t])| :: Children(nodes[t])[k] < |nodes|
    ensures StackMeasure(nodes, Children(nodes[t])) + 1 == NodeCount(nodes, t)
    ensures StackSize(nodes, Children(nodes[t])) + |nodes[t].polygons| == TreeSize(nodes, t)
  {
    ChildrenInRange(nodes, t);
    var cs := Children(nodes[t]);
    var f, b := nodes[t].front, nodes[t].back;
    if f.Some? && b.Some? {
      assert cs == [f.value, b.value];
      assert cs[..1] == [f.value] && [f.value][..0] == [];
      assert StackMeasure(nodes, [f.value]) == NodeCount(nodes, f.value);
      assert StackSize(nodes, [f.value]) == TreeSize(nodes, f.value);
    } else if f.Some? {
      assert cs == [f.value] && cs[..0] == [];
    } else if b.Some? {
      assert cs == [b.value] && cs[..0] == [];
    } else {
      assert cs == [];
    }
  }

  /** Pop the top node, make it current at index 0 and push its children. */
  function Pop(nodes: seq<Node>, c: Cursor): (r: Cursor)
    requires WellFormed(nodes) && CursorOk(nodes, c) && |c.stack| > 0
    ensures CursorOk(nodes, r)
    ensures StackMeasure(nodes, r.stack) < StackMeasure(nodes, c.stack)
    ensures r.current == Some(c.stack[|c.stack| - 1]) && r.index == 0
  {
    var t := c.stack[|c.stack| - 1];
    var rest := c.stack[..|c.stack| - 1];
    PopMeasure(nodes, rest, t);
    assert rest + [t] == c.stack;
    Pushed(nodes, Cursor(rest, Some(t), 0))
  }

  /**
   * The loop of `next()`: while the index is past the end of the node bound
   * at the start of the call, which has `count` polygons, pop the next node,
   * or stop once the stack is empty.
   */
  function Settle(nodes: seq<Node>, count: nat, c: Cursor): (r: Cursor)
    requires WellFormed(nodes) && CursorOk(nodes, c)
    ensures CursorOk(nodes, r)
    ensures r.index < count || |r.stack| == 0
    ensures r == c || StackMeasure(nodes, r.stack) < StackMeasure(nodes, c.stack)
    ensures c.index < count ==> r == c
    decreases StackMeasure(nodes, c.stack)
  {
    if c.index < count || |c.stack| == 0 then c
    else Settle(nodes, count, Pop(nodes, c))
  }

  /** The polygons left in the current node at the cursor's index. */
  function Remaining(nodes: seq<Node>, c: Cursor): nat
    requires CursorOk(nodes, c)
  {
    if c.current.None? then 0
    else
      var count := |nodes[c.current.value].polygons|;
      if c.index <= count then count - c.index else 0
  }

  /**
   * `next()`: the node current at the start of the call is bound once, and the
   * polygon returned is read from it. A call that returns a polygon lowers
   * the stack measure, or leaves the stack alone and consumes one polygon
   * of the current node.
   */
  function NextOf(nodes: seq<Node>, c: Cursor): (y: Yield)
    requires WellFormed(nodes) && CursorOk(nodes, c)
    ensures CursorOk(nodes, y.after)
    ensures c.current.None? ==> y == Yield(None, c)
    ensures y.item.None? ==> y.after == c || |y.after.stack| == 0
    ensures y.item.Some? ==>
              || StackMeasure(nodes, y.after.stack) < StackMeasure(nodes, c.stack)
              || (y.after.stack == c.stack && Remaining(nodes, y.after) < Remaining(nodes, c))
  {
    if c.current.None? then Yield(None, c)
    else
      var node := nodes[c.current.value];
      var s := Settle(nodes, |node.polygons|, c);
      if s.index >= |node.polygons| then Yield(None, s)
      else Yield(Some(node.polygons[s.index]), s.(index := s.index + 1))
  }

  /** Everything the iterator yields from `c` on, up to the first `nil`. */
  function Drain(nodes: seq<Node>, c: Cursor): seq<Polygon>
    requires WellFormed(nodes) && CursorOk(nodes, c)
    decreases StackMeasure(nodes, c.stack), Remaining(nodes, c)
  {
    var y := NextOf(nodes, c);
    if y.item.None? then [] else [y.item.value] + Drain(nodes, y.after)
  }

  // ---------------------------------------------------------------------
  // The iterator object
  // ---------------------------------------------------------------------

  class BSPIterator {
    const nodes: seq<Node>
    var stack: seq<nat>
    var currentNode: Option<nat>
    var polygonIndex: nat

    function State(): Cursor
      reads this
    {
      Cursor(stack, currentNode, polygonIndex)
    }

    ghost predicate Valid()
      reads this
    {
      WellFormed(nodes) && CursorOk(nodes, State())
    }

    /** `init(node:)`, over the tree `nodes` (the empty arena is a nil root). */
    constructor(nodes: seq<Node>)
      requires WellFormed(nodes)
      ensures this.nodes == nodes && Valid()
      ensures State() == Start(nodes)
    {
      this.nodes := nodes;
      stack := [];
      currentNode := if |nodes| == 0 then None else Some(0);
      polygonIndex := 0;
      new;
      PushChildren();
    }

    method PushChildren()
      requires Valid()
      modifies this
      ensures Valid()
      ensures State() == Pushed(nodes, old(State()))
    {
      if currentNode.None? {
        return;
      }
      var node := nodes[currentNode.value];
      assert NodeOk(nodes, currentNode.value);
      if node.front.Some? {
        stack := stack + [node.front.value];
      }
      if node.back.Some? {
        stack := stack + [node.back.value];
      }
    }

    /** Pop the top node, make it current at index 0 and push its children. */
    method PopTop()
      requires Valid() && |stack| > 0
      modifies this
      ensures Valid()
      ensures State() == Pop(nodes, old(State()))
    {
      currentNode := Some(stack[|stack| - 1]);
      stack := stack[..|stack| - 1];
      polygonIndex := 0;
      PushChildren();
    }

    method Next() returns (p: Option<Polygon>)
      requires Valid()
      modifies this
      ensures Valid()
      ensures Yield(p, State()) == NextOf(nodes, old(State()))
    {
      if currentNode.None? {
        return None;
      }
      ghost var start := State();
      var node := nodes[currentNode.value];
      while polygonIndex >= |node.polygons|
        invariant Valid()
        invariant Settle(nodes, |node.polygons|, State()) == Settle(nodes, |node.polygons|, start)
        decreases StackMeasure(nodes, stack)
      {
        if |stack| == 0 {
          SettledEmpty(nodes, start, State());
          return None;
        }
        SettleStep(nodes, |node.polygons|, State());
        PopTop();
      }
      SettledInRange(nodes, start, State());
      p := Some(node.polygons[polygonIndex]);
      polygonIndex := polygonIndex + 1;
    }
  }

  /** One pass of the loop of `next()` does not change where the loop ends. */
  lemma SettleStep(nodes: seq<Node>, count: nat, c: Cursor)
    requires WellFormed(nodes) && CursorOk(nodes, c) && count <= c.index && |c.stack| > 0
    ensures Settle(nodes, count, Pop(nodes, c)) == Settle(nodes, count, c)
  {
  }

  /** The loop of `next()` stopped on an empty stack: the call returns `nil`. */
  lemma SettledEmpty(nodes: seq<Node>, c: Cursor, s: Cursor)
    requires WellFormed(nodes) && CursorOk(nodes, c) && CursorOk(nodes, s) && c.current.Some?
    requires |nodes[c.current.value].polygons| <= s.index && |s.stack| == 0
    requires Settle(nodes, |nodes[c.current.value].polygons|, s) == Settle(nodes, |nodes[c.current.value].polygons|, c)
    ensures NextOf(nodes, c) == Yield(None, s)
  {
  }

  /** The loop of `next()` stopped in range: the call returns the stale node's polygon there. */
  lemma SettledInRange(nodes: seq<Node>, c: Cursor, s: Cursor)
    requires WellFormed(nodes) && CursorOk(nodes, c) && CursorOk(nodes, s) && c.current.Some?
    requires s.index < |nodes[c.current.value].polygons|
    requires Settle(nodes, |nodes[c.current.value].polygons|, s) == Settle(nodes, |nodes[c.current.value].polygons|, c)
    ensures var ps := nodes[c.current.value].polygons;
            NextOf(nodes, c) == Yield(Some(ps[s.index]), s.(index := s.index + 1))
  {
  }

  /** `Array(bsp.polygons)`: run a fresh iterator until it returns `nil`. */
  method Collect(nodes: seq<Node>) returns (out: seq<Polygon>)
    requires WellFormed(nodes)
    ensures out == Drain(nodes, Start(nodes))
  {
    var it := new BSPIterator(nodes);
    out := [];
    while true
      invariant it.Valid() && it.nodes == nodes
      invariant out + Drain(nodes, it.State()) == Drain(nodes, Start(nodes))
      decreases StackMeasure(nodes, it.stack), Remaining(nodes, it.State())
    {
      ghost var before := it.State();
      var p := it.Next();
      DrainUnfold(nodes, before);
      if p.None? {
        assert out == out + Drain(nodes, before);
        return;
      }
      CollectStep(nodes, out, before);
      out := out + [p.value];
    }
  }

  /** An item taken by `next()` and appended to what was collected leaves the whole traversal unchanged. */
  lemma CollectStep(nodes: seq<Node>, out: seq<Polygon>, c: Cursor)
    requires WellFormed(nodes) && CursorOk(nodes, c)
    ensures var y := NextOf(nodes, c);
            y.item.Some? ==> out + Drain(nodes, c) == (out + [y.item.value]) + Drain(nodes, y.after)
  {
    var y := NextOf(nodes, c);
    if y.item.Some? {
      assert Drain(nodes, c) == [y.item.value] + Drain(nodes, y.after);
    }
  }

  /** One call of `next()` and the rest of the traversal. */
  lemma DrainUnfold(nodes: seq<Node>, c: Cursor)
    requires WellFormed(nodes) && CursorOk(nodes, c)
    ensures var y := NextOf(nodes, c);
            Drain(nodes, c) == if y.item.None? then [] else [y.item.value] + Drain(nodes, y.after)
  {
  }

  // ---------------------------------------------------------------------
  // What the iterator yields
  // ---------------------------------------------------------------------

  /** An empty tree yields `nil` at once. */
  lemma EmptyTreeYieldsNothing()
    ensures NextOf([], Start([])).item.None?
    ensures Drain([], Start([])) == []
  {
  }

  /** From index `k` of the current node, the rest of that node comes out in index order. */
  lemma {:induction false} DrainsCurrentNode(nodes: seq<Node>, c: Cursor)
    requires WellFormed(nodes) && CursorOk(nodes, c) && c.current.Some?
    requires c.index <= |nodes[c.current.value].polygons|
    ensures var ps := nodes[c.current.value].polygons;
            Drain(nodes, c) == ps[c.index..] + Drain(nodes, c.(index := |ps|))
    decreases |nodes[c.current.value].polygons| - c.index, 1
  {
    var ps := nodes[c.current.value].polygons;
    if c.index < |ps| {
      DrainsCurrentNodeStep(nodes, c);
    } else {
      assert c.(index := |ps|) == c;
      SliceEnd(ps, c.index, Drain(nodes, c));
    }
  }

  /** The inductive step of `DrainsCurrentNode`, at an index inside the node. */
  lemma {:induction false} DrainsCurrentNodeStep(nodes: seq<Node>, c: Cursor)
    requires WellFormed(nodes) && CursorOk(nodes, c) && c.current.Some?
    requires c.index < |nodes[c.current.value].polygons|
    ensures var ps := nodes[c.current.value].polygons;
            Drain(nodes, c) == ps[c.index..] + Drain(nodes, c.(index := |ps|))
    decreases |nodes[c.current.value].polygons| - c.index, 0
  {
    var ps := nodes[c.current.value].polygons;
    var end := c.(index := |ps|);
    var c' := c.(index := c.index + 1);
    assert c'.current == c.current && c'.index == c.index + 1 && c'.(index := |ps|) == end;
    DrainStep(nodes, c);
    DrainsCurrentNode(nodes, c');
    ghost var whole, next, rest := Drain(nodes, c), Drain(nodes, c'), Drain(nodes, end);
    assert whole == [ps[c.index]] + next;
    assert next == ps[c.index + 1..] + rest;
    SliceStep(ps, c.index, whole, next, rest);
  }

  /** Nothing is left of `ps` from its end on. */
  lemma SliceEnd(ps: seq<Polygon>, i: nat, rest: seq<Polygon>)
    requires i == |ps|
    ensures ps[i..] + rest == rest
  {
    assert ps[i..] == [];
  }

  /** Peeling the polygon at `i` off the front of `ps[i..]`. */
  lemma SliceStep(ps: seq<Polygon>, i: nat, whole: seq<Polygon>, next: seq<Polygon>, rest: seq<Polygon>)
    requires i < |ps| && whole == [ps[i]] + next && next == ps[i + 1..] + rest
    ensures whole == ps[i..] + rest
  {
    assert ps[i..] == [ps[i]] + ps[i + 1..];
  }

  /** Inside the current node, one call yields the polygon at the index and moves past it. */
  lemma DrainStep(nodes: seq<Node>, c: Cursor)
    requires WellFormed(nodes) && CursorOk(nodes, c) && c.current.Some?
    requires c.index < |nodes[c.current.value].polygons|
    ensures CursorOk(nodes, c.(index := c.index + 1))
    ensures Drain(nodes, c) == [nodes[c.current.value].polygons[c.index]] + Drain(nodes, c.(index := c.index + 1))
  {
    assert NextOf(nodes, c) == Yield(Some(nodes[c.current.value].polygons[c.index]), c.(index := c.index + 1));
  }

  /** The root's polygons come out first, in index order. */
  lemma RootComesFirst(nodes: seq<Node>)
    requires WellFormed(nodes) && |nodes| > 0
    ensures var ps := nodes[0].polygons;
            && |ps| <= |Drain(nodes, Start(nodes))|
            && Drain(nodes, Start(nodes))[..|ps|] == ps
  {
    var c := Start(nodes);
    var ps := nodes[0].polygons;
    DrainsCurrentNode(nodes, c);
    assert ps[0..] == ps;
    assert (ps + Drain(nodes, c.(index := |ps|)))[..|ps|] == ps;
  }

  /**
   * Once the current node is exhausted, the next call pops the top of the
   * stack (the back child when both children were pushed last), makes it
   * current at index 1, and returns the previous node's `polygons[0]`: the
   * stale node is read, and the new node's first polygon is passed over.
   */
  lemma StalePop(nodes: seq<Node>, c: Cursor)
    requires WellFormed(nodes) && CursorOk(nodes, c) && c.current.Some?
    requires 0 < |nodes[c.current.value].polygons| <= c.index
    requires |c.stack| > 0
    ensures var t := c.stack[|c.stack| - 1];
            NextOf(nodes, c)
            == Yield(Some(nodes[c.current.value].polygons[0]),
                     Cursor(c.stack[..|c.stack| - 1] + Children(nodes[t]), Some(t), 1))
  {
    var count := |nodes[c.current.value].polygons|;
    var p := Pop(nodes, c);
    assert Settle(nodes, count, p) == p;
  }

  /** If the node current at the start of a call is empty, the call empties the stack and returns `nil`. */
  lemma {:induction false} EmptyNodeDrainsStack(nodes: seq<Node>, c: Cursor)
    requires WellFormed(nodes) && CursorOk(nodes, c) && c.current.Some?
    requires |nodes[c.current.value].polygons| == 0
    ensures NextOf(nodes, c).item.None? && NextOf(nodes, c).after.stack == []
  {
    SettleEmpties(nodes, c);
  }

  lemma {:induction false} SettleEmpties(nodes: seq<Node>, c: Cursor)
    requires WellFormed(nodes) && CursorOk(nodes, c)
    ensures Settle(nodes, 0, c).stack == []
    decreases StackMeasure(nodes, c.stack)
  {
    if |c.stack| > 0 {
      SettleEmpties(nodes, Pop(nodes, c));
    }
  }

  /** The polygons stored in the subtrees of the stacked nodes. */
  function StackSize(nodes: seq<Node>, stack: seq<nat>): nat
    requires WellFormed(nodes) && forall k | 0 <= k < |stack| :: stack[k] < |nodes|
  {
    if |stack| == 0 then 0
    else StackSize(nodes, stack[..|stack| - 1]) + TreeSize(nodes, stack[|stack| - 1])
  }

  lemma {:induction false} StackSizeAppend(nodes: seq<Node>, s: seq<nat>, t: seq<nat>)
    requires WellFormed(nodes)
    requires forall k | 0 <= k < |s| :: s[k] < |nodes|
    requires forall k | 0 <= k < |t| :: t[k] < |nodes|
    requires forall k | 0 <= k < |s + t| :: (s + t)[k] < |nodes|
    ensures StackSize(nodes, s + t) == StackSize(nodes, s) + StackSize(nodes, t)
    decreases |t|
  {
    if |t| == 0 {
      assert s + t == s;
    } else {
      var init := t[..|t| - 1];
      assert (s + t)[..|s + t| - 1] == s + init;
      StackSizeAppend(nodes, s, init);
    }
  }

  /** Popping `t` trades its subtree for its own polygons plus its children's subtrees. */
  lemma PopSize(nodes: seq<Node>, rest: seq<nat>, t: nat)
    requires WellFormed(nodes) && t < |nodes|
    requires forall k | 0 <= k < |rest| :: rest[k] < |nodes|
    ensures forall k | 0 <= k < |rest + [t]| :: (rest + [t])[k] < |nodes|
    ensures forall k | 0 <= k < |rest + Children(nodes[t])| :: (rest + Children(nodes[t]))[k] < |nodes|
    ensures StackSize(nodes, rest + Children(nodes[t])) + |nodes[t].polygons| == StackSize(nodes, rest + [t])
  {
    PopMeasure(nodes, rest, t);
    ChildrenMeasure(nodes, t);
    StackSizeAppend(nodes, rest, Children(nodes[t]));
    StackSizeAppend(nodes, rest, [t]);
    assert [t][..0] == [];
  }

  /**
   * When no node is empty the iterator yields exactly as many items as the
   * cursor has left: what remains of the current node plus every polygon
   * below the stack.
   */
  lemma {:induction false} DrainCount(nodes: seq<Node>, c: Cursor)
    requires WellFormed(nodes) && CursorOk(nodes, c) && AllNonEmpty(nodes)
    requires c.current.Some? && c.index <= |nodes[c.current.value].polygons|
    ensures |Drain(nodes, c)| == Remaining(nodes, c) + StackSize(nodes, c.stack)
    decreases StackMeasure(nodes, c.stack), Remaining(nodes, c), 1
  {
    var ps := nodes[c.current.value].polygons;
    if c.index < |ps| {
      DrainCountInNode(nodes, c);
    } else if |c.stack| == 0 {
      assert NextOf(nodes, c).item.None?;
    } else {
      DrainCountPop(nodes, c);
    }
  }

  /** `DrainCount` at an index inside the current node. */
  lemma {:induction false} DrainCountInNode(nodes: seq<Node>, c: Cursor)
    requires WellFormed(nodes) && CursorOk(nodes, c) && AllNonEmpty(nodes)
    requires c.current.Some? && c.index < |nodes[c.current.value].polygons|
    ensures |Drain(nodes, c)| == Remaining(nodes, c) + StackSize(nodes, c.stack)
    decreases StackMeasure(nodes, c.stack), Remaining(nodes, c), 0
  {
    var ps := nodes[c.current.value].polygons;
    var c' := c.(index := c.index + 1);
    DrainStep(nodes, c);
    assert Remaining(nodes, c') + 1 == Remaining(nodes, c) && c'.stack == c.stack;
    DrainCount(nodes, c');
    LengthCons(Drain(nodes, c), ps[c.index], Drain(nodes, c'));
  }

  /** `DrainCount` once the current node is exhausted and a node is left on the stack. */
  lemma {:induction false} DrainCountPop(nodes: seq<Node>, c: Cursor)
    requires WellFormed(nodes) && CursorOk(nodes, c) && AllNonEmpty(nodes)
    requires c.current.Some? && c.index == |nodes[c.current.value].polygons| && |c.stack| > 0
    ensures |Drain(nodes, c)| == Remaining(nodes, c) + StackSize(nodes, c.stack)
    decreases StackMeasure(nodes, c.stack), Remaining(nodes, c), 0
  {
    var t := c.stack[|c.stack| - 1];
    var rest := c.stack[..|c.stack| - 1];
    var y := NextOf(nodes, c);
    assert rest + [t] == c.stack;
    assert |nodes[t].polygons| > 0;
    StalePop(nodes, c);
    PopMeasure(nodes, rest, t);
    PopSize(nodes, rest, t);
    DrainUnfold(nodes, c);
    DrainCount(nodes, y.after);
    LengthCons(Drain(nodes, c), y.item.value, Drain(nodes, y.after));
    assert Remaining(nodes, y.after) + 1 == |nodes[t].polygons| && Remaining(nodes, c) == 0;
  }

  lemma LengthCons(whole: seq<Polygon>, p: Polygon, rest: seq<Polygon>)
    requires whole == [p] + rest
    ensures |whole| == 1 + |rest|
  {
  }

  /** When no node is empty, the traversal yields as many items as the tree stores polygons. */
  lemma TraversalCount(nodes: seq<Node>)
    requires WellFormed(nodes) && AllNonEmpty(nodes)
    ensures |Drain(nodes, Start(nodes))| == if |nodes| == 0 then 0 else TreeSize(nodes, 0)
  {
    if |nodes| > 0 {
      RootSize(nodes);
      var c := Start(nodes);
      assert [] + Children(nodes[0]) == Children(nodes[0]);
      assert c.stack == Children(nodes[0]) && c.current == Some(0) && c.index == 0;
      assert Remaining(nodes, c) == |nodes[0].polygons|;
      DrainCount(nodes, c);
    }
  }

  /** The root's own polygons and its children's subtrees make up the whole tree. */
  lemma RootSize(nodes: seq<Node>)
    requires WellFormed(nodes) && |nodes| > 0
    ensures forall k | 0 <= k < |Children(nodes[0])| :: Children(nodes[0])[k] < |nodes|
    ensures StackSize(nodes, Children(nodes[0])) + |nodes[0].polygons| == TreeSize(nodes, 0)
  {
    PopSize(nodes, [], 0);
    assert [] + [0] == [0];
    assert [] + Children(nodes[0]) == Children(nodes[0]);
    assert [0][..0] == [];
  }

  /**
   * The smallest tree that shows the stale read: a root holding `a` with a
   * back child holding `b` yields `a` twice and never `b`.
   */
  lemma TwoNodeTraversal(plane: Plane, a: Polygon, b: Polygon)
    ensures var nodes := [Node(plane, [a], None, Some(1), None), Node(plane, [b], None, None, Some(0))];
            WellFormed(nodes) && Drain(nodes, Start(nodes)) == [a, a]
  {
    var nodes := [Node(plane, [a], None, Some(1), None), Node(plane, [b], None, None, Some(0))];
    TwoNodeShape(nodes, plane, a, b);
    var c1 := Cursor([1], Some(0), 1);
    DrainStep(nodes, Start(nodes));
    assert Start(nodes).(index := 1) == c1;
    StalePop(nodes, c1);
    DrainUnfold(nodes, c1);
    TwoNodeEnd(nodes, plane, a, b);
  }

  lemma TwoNodeShape(nodes: seq<Node>, plane: Plane, a: Polygon, b: Polygon)
    requires nodes == [Node(plane, [a], None, Some(1), None), Node(plane, [b], None, None, Some(0))]
    ensures WellFormed(nodes) && Start(nodes) == Cursor([1], Some(0), 0)
  {
    assert NodeOk(nodes, 0) && NodeOk(nodes, 1);
    assert Children(nodes[0]) == [1];
  }

  lemma TwoNodeEnd(nodes: seq<Node>, plane: Plane, a: Polygon, b: Polygon)
    requires nodes == [Node(plane, [a], None, Some(1), None), Node(plane, [b], None, None, Some(0))]
    requires WellFormed(nodes)
    ensures Drain(nodes, Cursor([], Some(1), 1)) == []
  {
    var c2 := Cursor([], Some(1), 1);
    assert Settle(nodes, 1, c2) == c2;
    assert NextOf(nodes, c2).item.None?;
    DrainUnfold(nodes, c2);
  }

  /**
   * A back chain of three nodes holding `a`, `b` and `c`: after each pop the
   * first polygon of the node just left comes out, so the root's `a` comes
   * out twice, `b` one pop late, and `c` never.
   */
  lemma ThreeNodeTraversal(plane: Plane, a: Polygon, b: Polygon, c: Polygon)
    ensures var nodes := [Node(plane, [a], None, Some(1), None), Node(plane, [b], None, Some(2), Some(0)),
                          Node(plane, [c], None, None, Some(1))];
            WellFormed(nodes) && Drain(nodes, Start(nodes)) == [a, a, b]
  {
    var nodes := [Node(plane, [a], None, Some(1), None), Node(plane, [b], None, Some(2), Some(0)),
                  Node(plane, [c], None, None, Some(1))];
    ThreeNodeShape(nodes, plane, a, b, c);
    ThreeNodeRoot(nodes, plane, a, b, c);
    ThreeNodeFirstPop(nodes, plane, a, b, c);
    ThreeNodeSecondPop(nodes, plane, a, b, c);
    ThreeNodeEnd(nodes, plane, a, b, c);
    ThreeItems(Drain(nodes, Start(nodes)), Drain(nodes, Cursor([1], Some(0), 1)),
               Drain(nodes, Cursor([2], Some(1), 1)), Drain(nodes, Cursor([], Some(2), 1)), a, b);
  }

  /** Three single-item steps followed by nothing. */
  lemma ThreeItems(d0: seq<Polygon>, d1: seq<Polygon>, d2: seq<Polygon>, d3: seq<Polygon>, a: Polygon, b: Polygon)
    requires d0 == [a] + d1 && d1 == [a] + d2 && d2 == [b] + d3 && d3 == []
    ensures d0 == [a, a, b]
  {
  }

  lemma ThreeNodeRoot(nodes: seq<Node>, plane: Plane, a: Polygon, b: Polygon, c: Polygon)
    requires nodes == [Node(plane, [a], None, Some(1), None), Node(plane, [b], None, Some(2), Some(0)),
                       Node(plane, [c], None, None, Some(1))]
    requires WellFormed(nodes) && Start(nodes) == Cursor([1], Some(0), 0)
    ensures Drain(nodes, Start(nodes)) == [a] + Drain(nodes, Cursor([1], Some(0), 1))
  {
    DrainStep(nodes, Start(nodes));
    assert Start(nodes).(index := 1) == Cursor([1], Some(0), 1);
  }

  lemma ThreeNodeFirstPop(nodes: seq<Node>, plane: Plane, a: Polygon, b: Polygon, c: Polygon)
    requires nodes == [Node(plane, [a], None, Some(1), None), Node(plane, [b], None, Some(2), Some(0)),
                       Node(plane, [c], None, None, Some(1))]
    requires WellFormed(nodes) && Children(nodes[1]) == [2]
    ensures CursorOk(nodes, Cursor([2], Some(1), 1))
    ensures Drain(nodes, Cursor([1], Some(0), 1)) == [a] + Drain(nodes, Cursor([2], Some(1), 1))
  {
    var k1 := Cursor([1], Some(0), 1);
    StalePop(nodes, k1);
    assert NextOf(nodes, k1) == Yield(Some(a), Cursor([2], Some(1), 1));
    DrainUnfold(nodes, k1);
  }

  lemma ThreeNodeSecondPop(nodes: seq<Node>, plane: Plane, a: Polygon, b: Polygon, c: Polygon)
    requires nodes == [Node(plane, [a], None, Some(1), None), Node(plane, [b], None, Some(2), Some(0)),
                       Node(plane, [c], None, None, Some(1))]
    requires WellFormed(nodes) && Children(nodes[2]) == []
    requires CursorOk(nodes, Cursor([2], Some(1), 1))
    ensures Drain(nodes, Cursor([2], Some(1), 1)) == [b] + Drain(nodes, Cursor([], Some(2), 1))
  {
    var k2 := Cursor([2], Some(1), 1);
    StalePop(nodes, k2);
    assert NextOf(nodes, k2) == Yield(Some(b), Cursor([], Some(2), 1));
    DrainUnfold(nodes, k2);
  }

  lemma ThreeNodeShape(nodes: seq<Node>, plane: Plane, a: Polygon, b: Polygon, c: Polygon)
    requires nodes == [Node(plane, [a], None, Some(1), None), Node(plane, [b], None, Some(2), Some(0)),
                       Node(plane, [c], None, None, Some(1))]
    ensures WellFormed(nodes) && Start(nodes) == Cursor([1], Some(0), 0)
    ensures Children(nodes[1]) == [2] && Children(nodes[2]) == []
  {
    assert NodeOk(nodes, 0) && NodeOk(nodes, 1) && NodeOk(nodes, 2);
    assert Children(nodes[0]) == [1];
  }

  lemma ThreeNodeEnd(nodes: seq<Node>, plane: Plane, a: Polygon, b: Polygon, c: Polygon)
    requires nodes == [Node(plane, [a], None, Some(1), None), Node(plane, [b], None, Some(2), Some(0)),
                       Node(plane, [c], None, None, Some(1))]
    requires WellFormed(nodes)
    ensures Drain(nodes, Cursor([], Some(2), 1)) == []
  {
    var k3 := Cursor([], Some(2), 1);
    assert Settle(nodes, 1, k3) == k3;
    assert NextOf(nodes, k3).item.None?;
    DrainUnfold(nodes, k3);
  }
}
