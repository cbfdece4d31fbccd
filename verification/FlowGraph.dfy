/**
 The control flow graph seen by the node graph builder: blocks are numbered, and every
 block lists its predecessors in the order in which a phi node lists its operands.
 */
module FlowGraphs {
  import opened Wrappers

  datatype FlowGraph = FlowGraph(entry: nat, preds: seq<seq<nat>>) {

    ghost predicate WellFormed() {
      && entry < |preds|
      && preds[entry] == []
      && (forall b, i :: 0 <= b < |preds| && 0 <= i < |preds[b]| ==> preds[b][i] < |preds|)
    }

    /** Every block is among the translated ones. */
    ghost predicate AllIn(visited: set<nat>) {
      forall b :: 0 <= b < |preds| ==> b in visited
    }

    /** Block `b` can be reached from the entry along exactly `k` edges. */
    ghost predicate ReachableIn(b: nat, k: nat)
      decreases k
    {
      && b < |preds|
      && if k == 0 then b == entry
         else exists i :: 0 <= i < |preds[b]| && ReachableIn(preds[b][i], k - 1)
    }

    ghost predicate Reachable(b: nat) {
      exists k: nat :: ReachableIn(b, k)
    }

    ghost predicate AllReachable() {
      forall b: nat :: b < |preds| ==> Reachable(b)
    }

    /** The least number of edges from the entry to `b`, at most the given `k`. */
    ghost function LeastDepth(b: nat, k: nat): (d: nat)
      requires ReachableIn(b, k)
      ensures d <= k && ReachableIn(b, d)
      ensures forall j: nat :: ReachableIn(b, j) ==> d <= j
    {
      if exists j: nat :: j < k && ReachableIn(b, j)
      then var j: nat :| j < k && ReachableIn(b, j); LeastDepth(b, j)
      else k
    }

    ghost function Depth(b: nat): (d: nat)
      requires AllReachable() && b < |preds|
      ensures ReachableIn(b, d) && forall j: nat :: ReachableIn(b, j) ==> d <= j
    {
      assert Reachable(b);
      var k: nat :| ReachableIn(b, k);
      LeastDepth(b, k)
    }

    /** A block with one predecessor is strictly deeper than that predecessor. */
    lemma SinglePredecessorIsShallower(b: nat)
      requires WellFormed() && AllReachable()
      requires b < |preds| && |preds[b]| == 1
      ensures Depth(preds[b][0]) < Depth(b)
    {
      var d := Depth(b);
      assert d != 0;
      var i :| 0 <= i < |preds[b]| && ReachableIn(preds[b][i], d - 1);
      assert i == 0;
    }
  }

  /**
   A path through the flow graph that starts at the entry. A step says which block is entered
   and through which of its predecessor edges.
   */
  datatype Walk = Start | Step(prev: Walk, block: nat, edge: nat)

  function Length(w: Walk): nat {
    if w.Start? then 0 else 1 + Length(w.prev)
  }

  function End(g: FlowGraph, w: Walk): nat {
    if w.Start? then g.entry else w.block
  }

  predicate IsWalk(g: FlowGraph, w: Walk) {
    w.Step? ==>
      && IsWalk(g, w.prev)
      && w.block < |g.preds|
      && w.edge < |g.preds[w.block]|
      && g.preds[w.block][w.edge] == End(g, w.prev)
  }

  /** The longest part of the walk that ends in block `b`, if the walk visits `b` at all. */
  function LastVisit(g: FlowGraph, w: Walk, b: nat): (r: Option<Walk>)
    ensures r.Some? ==> Length(r.value) <= Length(w) && End(g, r.value) == b
    ensures r.Some? && IsWalk(g, w) ==> IsWalk(g, r.value)
    ensures r.None? ==> End(g, w) != b
  {
    if End(g, w) == b then Some(w)
    else if w.Start? then None
    else LastVisit(g, w.prev, b)
  }

  /**
   A walk that has been in block `b` before holds a shorter walk that is about to enter `b`
   for the first time, unless `b` is the entry.
   */
  lemma {:induction false} FirstArrival(g: FlowGraph, w: Walk, b: nat) returns (before: Walk, edge: nat)
    requires g.WellFormed() && IsWalk(g, w)
    requires LastVisit(g, w, b).Some? && b != g.entry
    ensures IsWalk(g, before) && Length(before) < Length(w)
    ensures b < |g.preds| && edge < |g.preds[b]| && g.preds[b][edge] == End(g, before)
    ensures LastVisit(g, before, b).None?
  {
    match w
    case Step(q, block, e) =>
      if LastVisit(g, q, b).Some? {
        before, edge := FirstArrival(g, q, b);
      } else {
        before, edge := q, e;
      }
  }
}
