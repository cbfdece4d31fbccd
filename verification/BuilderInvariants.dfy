/**
 What the builder's tables keep true between any two steps of reading a storage, and the
 steps themselves, on values.
 */
module BuilderInvariants {
  import opened FlowGraphs
  import opened SsaSemantics
  import opened SsaSteps
  import opened ReadFrames

  /** The builder's state apart from the chains of replaced nodes. */
  datatype View = View(st: State, canon: seq<nat>, defs: map<Cell, nat>, incomplete: seq<nat>)

  /** What a block remembers for a storage stands for its contents at the end of the block. */
  ghost predicate DefsOk(v: View) {
    && |v.canon| == |v.st.nodes|
    && v.defs.Keys == v.st.ins.Keys + v.st.writes.Keys
    && forall cell :: cell in v.defs ==>
         && v.defs[cell] < |v.canon|
         && HasOut(v.st, cell.block, cell.storage)
         && v.canon[v.defs[cell]] == Out(v.st, cell.block, cell.storage)
  }

  ghost predicate IsIncomplete(g: FlowGraph, st: State, n: nat) {
    && n < |st.nodes| && st.nodes[n].Phi? && st.nodes[n].operands == []
    && st.nodes[n].block < |g.preds| && st.nodes[n].block != g.entry && g.preds[st.nodes[n].block] != []
    && PhiCell(st.nodes[n]) in st.ins && st.ins[PhiCell(st.nodes[n])] == n
    && PhiCell(st.nodes[n]) !in st.asOf
  }

  function PhiCell(phi: Node): Cell
    requires phi.Phi?
  {
    Cell(phi.block, phi.storage)
  }

  /** The listed incomplete phis still lack all their operands. */
  ghost predicate IncompleteOk(g: FlowGraph, v: View) {
    && (forall i :: 0 <= i < |v.incomplete| ==> IsIncomplete(g, v.st, v.incomplete[i]))
    && (forall i, j :: 0 <= i < j < |v.incomplete| ==> v.incomplete[i] != v.incomplete[j])
  }

  /** The listed phis are those of the cells delayed last. */
  ghost predicate LastDelayed(v: View) {
    && |v.incomplete| <= |v.st.delayed|
    && forall i :: 0 <= i < |v.incomplete| ==>
         && v.incomplete[i] < |v.st.nodes| && v.st.nodes[v.incomplete[i]].Phi?
         && v.st.delayed[|v.st.delayed| - |v.incomplete| + i] == PhiCell(v.st.nodes[v.incomplete[i]])
  }

  ghost predicate IsListedFor(v: View, n: nat, cell: Cell) {
    n in v.incomplete && n < |v.st.nodes| && v.st.nodes[n].Phi? && PhiCell(v.st.nodes[n]) == cell
  }

  /** Only the cells of listed phis have not read their predecessors. What was forgotten once stays so. */
  ghost predicate DatesOk(v: View) {
    && v.st.asOf.Keys <= v.st.ins.Keys
    && (forall cell :: cell in v.st.ins && cell !in v.st.asOf ==>
          IsListedFor(v, v.st.ins[cell], cell))
    && (forall cell :: cell in v.st.asOf ==> v.st.asOf[cell] <= v.st.forgotten)
  }

  /** No phi has moved, and no cell waits for its predecessors that did not wait before. */
  lemma ListsKept(v: View, v': View)
    requires LastDelayed(v) && DatesOk(v)
    requires v'.incomplete == v.incomplete && v'.st.delayed == v.st.delayed && |v.st.nodes| <= |v'.st.nodes|
    requires forall n :: 0 <= n < |v.st.nodes| && v.st.nodes[n].Phi? ==>
               v'.st.nodes[n].Phi? && PhiCell(v'.st.nodes[n]) == PhiCell(v.st.nodes[n])
    requires v'.st.asOf.Keys <= v'.st.ins.Keys
    requires forall cell :: cell in v'.st.ins && cell !in v'.st.asOf ==>
               cell in v.st.ins && cell !in v.st.asOf
               && (v.st.ins[cell] in v.incomplete ==> v'.st.ins[cell] == v.st.ins[cell])
    requires forall cell :: cell in v'.st.asOf ==> v'.st.asOf[cell] <= v'.st.forgotten
    ensures LastDelayed(v') && DatesOk(v')
  {
  }

  ghost function Listed(ns: seq<nat>): set<nat> {
    set n | n in ns
  }

  /** The tables agree with each other. */
  ghost predicate TablesOk(g: FlowGraph, v: View) {
    DefsOk(v) && IncompleteOk(g, v) && LastDelayed(v) && DatesOk(v)
  }

  /** `open` are the phis, apart from the listed ones, that are still collecting operands. */
  ghost predicate Settled(g: FlowGraph, v: View, open: set<nat>) {
    && TablesOk(g, v)
    && Inv(g, v.st, open + Listed(v.incomplete))
    && open !! Listed(v.incomplete)
  }

  /** The block `b` has not been asked for `s` before. */
  ghost predicate Unknown(v: View, b: nat, s: nat) {
    Cell(b, s) !in v.defs
  }

  lemma UnknownCell(g: FlowGraph, v: View, open: set<nat>, b: nat, s: nat)
    requires Settled(g, v, open) && Unknown(v, b, s)
    ensures Cell(b, s) !in v.st.ins && Cell(b, s) !in v.st.writes && Cell(b, s) !in v.st.asOf
  {
  }

  lemma InCellKnown(g: FlowGraph, v: View, open: set<nat>, b: nat, s: nat)
    requires Settled(g, v, open) && Cell(b, s) in v.st.ins
    ensures Cell(b, s) in v.defs
  {
  }

  lemma KnownCell(g: FlowGraph, v: View, open: set<nat>, b: nat, s: nat)
    requires Settled(g, v, open) && Cell(b, s) in v.defs
    ensures |v.canon| == |v.st.nodes| && v.defs[Cell(b, s)] < |v.canon| && HasOut(v.st, b, s)
    ensures v.canon[v.defs[Cell(b, s)]] == Out(v.st, b, s)
  {
  }

  /** The state after a new node has been made the contents of `s` on entry to `b`. */
  ghost function WithFreshIn(v: View, b: nat, s: nat, node: Node): View {
    var n := |v.st.nodes|;
    v.(st := WithIn(WithNode(v.st, node), b, s, n),
       canon := v.canon + [n],
       defs := v.defs[Cell(b, s) := n])
  }

  /** The graph has grown, and one cell has been filled in. */
  ghost predicate Filled(v: View, v': View, cell: Cell) {
    && Grows(v.st, v'.st)
    && v.canon <= v'.canon && |v'.canon| == |v'.st.nodes| && v'.incomplete == v.incomplete
    && v'.st.delayed == v.st.delayed && v'.st.asOf == Dated(v.st.asOf, cell, v.st.forgotten)
    && v'.st.ins.Keys == v.st.ins.Keys + {cell} && v'.defs.Keys == v.defs.Keys + {cell}
    && (forall c :: c in v.defs && c != cell ==> v'.defs[c] == v.defs[c])
    && v'.defs[cell] < |v'.canon| && HasOut(v'.st, cell.block, cell.storage)
    && v'.canon[v'.defs[cell]] == Out(v'.st, cell.block, cell.storage)
  }

  /** The tables stay in order when the graph grows and one cell is filled in. */
  lemma TablesGrow(g: FlowGraph, v: View, v': View, cell: Cell)
    requires TablesOk(g, v) && Filled(v, v', cell)
    requires cell in v.st.ins ==> cell in v.st.asOf
    ensures TablesOk(g, v')
  {
    hide DefsOk, IncompleteOk, LastDelayed, DatesOk, Filled;
    DefsGrow(v, v', cell);
    IncompleteGrow(g, v, v', cell);
    ListsGrow(v, v', cell);
  }

  lemma DefsGrow(v: View, v': View, cell: Cell)
    requires DefsOk(v) && Filled(v, v', cell)
    ensures DefsOk(v')
  {
    forall c | c in v'.defs
      ensures v'.defs[c] < |v'.canon|
      ensures HasOut(v'.st, c.block, c.storage)
      ensures v'.canon[v'.defs[c]] == Out(v'.st, c.block, c.storage)
    {
      if c != cell {
        assert HasOut(v.st, c.block, c.storage);
      }
    }
  }

  lemma IncompleteGrow(g: FlowGraph, v: View, v': View, cell: Cell)
    requires IncompleteOk(g, v) && Filled(v, v', cell)
    requires cell in v.st.ins ==> cell in v.st.asOf
    ensures IncompleteOk(g, v')
  {
    forall i | 0 <= i < |v'.incomplete|
      ensures IsIncomplete(g, v'.st, v'.incomplete[i])
    {
      assert IsIncomplete(g, v.st, v.incomplete[i]);
    }
  }

  lemma ListsGrow(v: View, v': View, cell: Cell)
    requires LastDelayed(v) && DatesOk(v) && Filled(v, v', cell)
    ensures LastDelayed(v') && DatesOk(v')
  {
    ListsKept(v, v');
  }

  lemma FreshInGrows(g: FlowGraph, v: View, open: set<nat>, b: nat, s: nat, node: Node)
    requires Settled(g, v, open) && Unknown(v, b, s)
    ensures Grows(v.st, WithFreshIn(v, b, s, node).st)
    ensures TablesOk(g, WithFreshIn(v, b, s, node))
  {
    hide TablesOk, Inv, Filled;
    UnknownCell(g, v, open, b, s);
    TablesShape(g, v);
    FreshInIsFilled(v, b, s, node);
    TablesGrow(g, v, WithFreshIn(v, b, s, node), Cell(b, s));
  }

  lemma FreshInIsFilled(v: View, b: nat, s: nat, node: Node)
    requires |v.canon| == |v.st.nodes|
    requires Cell(b, s) !in v.st.ins && Cell(b, s) !in v.st.writes && Cell(b, s) !in v.st.asOf
    ensures Filled(v, WithFreshIn(v, b, s, node), Cell(b, s))
  {
  }

  /** The entry block makes a definition node for a storage that nothing has been put in. */
  lemma DefineAtEntry(g: FlowGraph, v: View, open: set<nat>, s: nat, frames: seq<Frame>)
    requires g.WellFormed() && Settled(g, v, open) && Unknown(v, g.entry, s)
    requires FramesOk(g, v.st, s, frames)
    ensures Settled(g, WithFreshIn(v, g.entry, s, Def(s)), open)
    ensures FramesOk(g, WithFreshIn(v, g.entry, s, Def(s)).st, s, frames)
    ensures HasOut(WithFreshIn(v, g.entry, s, Def(s)).st, g.entry, s)
    ensures Out(WithFreshIn(v, g.entry, s, Def(s)).st, g.entry, s) == |v.st.nodes|
  {
    hide TablesOk, Inv, FramesOk;
    UnknownCell(g, v, open, g.entry, s);
    FreshInGrows(g, v, open, g.entry, s, Def(s));
    FreshDefKeepsInv(g, v.st, open + Listed(v.incomplete), s);
    FramesGrowAtEntry(g, v.st, WithFreshIn(v, g.entry, s, Def(s)).st, s, frames);
  }

  lemma FreshDefKeepsInv(g: FlowGraph, st: State, pending: set<nat>, s: nat)
    requires g.WellFormed() && Inv(g, st, pending) && Cell(g.entry, s) !in st.ins && Cell(g.entry, s) !in st.asOf
    ensures Inv(g, WithIn(WithNode(st, Def(s)), g.entry, s, |st.nodes|), pending)
  {
    NewNodeKeepsInv(g, st, pending, Def(s));
    NewCellKeepsInv(g, WithNode(st, Def(s)), pending, g.entry, s, |st.nodes|);
  }

  lemma FramesGrowAtEntry(g: FlowGraph, st: State, st': State, s: nat, frames: seq<Frame>)
    requires FramesOk(g, st, s, frames) && Grows(st, st')
    requires st'.ins.Keys == st.ins.Keys + {Cell(g.entry, s)}
    ensures FramesOk(g, st', s, frames)
  {
    forall k | 0 <= k < |frames|
      ensures frames[k].block != g.entry
    {
      assert FrameOk(g, st, s, frames[k]);
    }
    FramesGrow(g, st, st', s, frames);
  }

  lemma FreshPhiKeepsInv(g: FlowGraph, st: State, pending: set<nat>, b: nat, s: nat)
    requires Inv(g, st, pending) && Cell(b, s) !in st.ins && Cell(b, s) !in st.asOf
    requires b < |g.preds| && b != g.entry
    ensures |g.preds[b]| > 1 ==>
              Inv(g, WithIn(WithNode(st, Phi(b, s, [])), b, s, |st.nodes|), pending + {|st.nodes|})
    ensures Inv(g, WithDelayed(WithNode(st, Phi(b, s, [])), b, s, |st.nodes|), pending + {|st.nodes|})
  {
    var n := |st.nodes|;
    NewNodeKeepsInv(g, st, pending, Phi(b, s, []));
    MorePendingKeepsInv(g, WithNode(st, Phi(b, s, [])), pending, pending + {n});
    if |g.preds[b]| > 1 {
      NewCellKeepsInv(g, WithNode(st, Phi(b, s, [])), pending + {n}, b, s, n);
    }
    DelayedCellKeepsInv(g, WithNode(st, Phi(b, s, [])), pending + {n}, b, s, n);
  }

  /** A phi without operands is put in a block with several predecessors, and a frame waits for it. */
  lemma OpenPhi(g: FlowGraph, v: View, b: nat, s: nat, frames: seq<Frame>)
    requires g.WellFormed() && Settled(g, v, OpenPhis(frames)) && Unknown(v, b, s)
    requires FramesOk(g, v.st, s, frames)
    requires b < |g.preds| && b != g.entry && |g.preds[b]| > 1 && PredsVisited(g, v.st, b)
    ensures var v' := WithFreshIn(v, b, s, Phi(b, s, []));
            var frames' := frames + [AfterPhiPredecessor(b, |v.st.nodes|, 0)];
            Settled(g, v', OpenPhis(frames')) && FramesOk(g, v'.st, s, frames')
  {
    hide TablesOk, Inv;
    var n := |v.st.nodes|;
    var v' := WithFreshIn(v, b, s, Phi(b, s, []));
    var frames' := frames + [AfterPhiPredecessor(b, n, 0)];
    var pending := OpenPhis(frames) + Listed(v.incomplete);
    var pending' := OpenPhis(frames') + Listed(v.incomplete);
    UnknownCell(g, v, OpenPhis(frames), b, s);
    FreshInGrows(g, v, OpenPhis(frames), b, s, Phi(b, s, []));
    OpenPhisAppend(frames, AfterPhiPredecessor(b, n, 0));
    FreshPhiKeepsInv(g, v.st, pending, b, s);
    assert pending + {n} == pending';
    FramesGrow(g, v.st, v'.st, s, frames);
    OpenPhisExist(g, v.st, s, frames);
    PushFrame(g, v'.st, s, frames, AfterPhiPredecessor(b, n, 0));
    ListedExist(g, v);
  }

  lemma ListedExist(g: FlowGraph, v: View)
    requires TablesOk(g, v)
    ensures forall n :: n in Listed(v.incomplete) ==> n < |v.st.nodes|
  {
    forall i | 0 <= i < |v.incomplete|
      ensures v.incomplete[i] < |v.st.nodes|
    {
      assert IsIncomplete(g, v.st, v.incomplete[i]);
    }
  }

  ghost function WithoutListed(v: View, phi: nat, rest: seq<nat>): View
    requires phi < |v.st.nodes| && v.st.nodes[phi].Phi?
  {
    v.(st := WithDate(v.st, PhiCell(v.st.nodes[phi])), incomplete := rest)
  }

  /** A listed phi starts to collect its operands. */
  lemma TakeFromList(g: FlowGraph, v: View, phi: nat, rest: seq<nat>)
    requires g.WellFormed() && Settled(g, v, {}) && v.incomplete == [phi] + rest && g.AllIn(v.st.visited)
    ensures IsIncomplete(g, v.st, phi) && phi !in Listed(rest)
    ensures PhiCell(v.st.nodes[phi]) in v.st.delayed
    ensures Settled(g, WithoutListed(v, phi, rest), {phi})
    ensures FrameOk(g, WithoutListed(v, phi, rest).st, v.st.nodes[phi].storage,
                    AfterPhiPredecessor(v.st.nodes[phi].block, phi, 0))
  {
    hide DefsOk, LastDelayed, DatesOk, Inv;
    FirstListed(g, v, phi, rest);
    var cell := PhiCell(v.st.nodes[phi]);
    assert {} + Listed(v.incomplete) == {phi} + Listed(rest);
    NewDateKeepsInv(g, v.st, {phi} + Listed(rest), cell.block, cell.storage);
    TakenFromTables(g, v, phi, rest);
  }

  lemma FirstListed(g: FlowGraph, v: View, phi: nat, rest: seq<nat>)
    requires TablesOk(g, v) && v.incomplete == [phi] + rest
    ensures IsIncomplete(g, v.st, phi) && PhiCell(v.st.nodes[phi]) in v.st.delayed && phi !in rest
    ensures v.st.delayed[|v.st.delayed| - |v.incomplete|] == PhiCell(v.st.nodes[phi])
    ensures Listed(v.incomplete) == {phi} + Listed(rest) && phi !in Listed(rest)
  {
    hide DefsOk, DatesOk;
    assert v.incomplete[0] == phi;
    assert IsIncomplete(g, v.st, v.incomplete[0]);
    FirstDelayed(v);
    hide LastDelayed, IsIncomplete;
    forall i | 0 <= i < |rest|
      ensures rest[i] == v.incomplete[i + 1] && rest[i] != phi
    {
    }
  }

  lemma FirstDelayed(v: View)
    requires LastDelayed(v) && v.incomplete != []
    ensures v.incomplete[0] < |v.st.nodes| && v.st.nodes[v.incomplete[0]].Phi?
    ensures v.st.delayed[|v.st.delayed| - |v.incomplete|] == PhiCell(v.st.nodes[v.incomplete[0]])
  {
    assert v.st.delayed[|v.st.delayed| - |v.incomplete| + 0] == PhiCell(v.st.nodes[v.incomplete[0]]);
  }

  lemma TakenFromTables(g: FlowGraph, v: View, phi: nat, rest: seq<nat>)
    requires TablesOk(g, v) && v.incomplete == [phi] + rest
    requires IsIncomplete(g, v.st, phi) && phi !in rest
    ensures TablesOk(g, WithoutListed(v, phi, rest))
  {
    hide DefsOk, LastDelayed, DatesOk, IncompleteOk;
    TablesShape(g, v);
    SameOutsSameDefs(v, WithoutListed(v, phi, rest));
    TakenFromIncomplete(g, v, phi, rest);
    TakenFromDelayed(v, phi, rest);
    TakenFromDates(v, phi, rest);
  }

  /** What the blocks remember is right if nothing changes about the contents of the storages. */
  lemma SameOutsSameDefs(v: View, v': View)
    requires DefsOk(v) && v'.defs == v.defs && |v'.canon| == |v'.st.nodes| && v.canon <= v'.canon
    requires v'.st.ins == v.st.ins && v'.st.writes == v.st.writes && v'.st.forgotten == v.st.forgotten
    ensures DefsOk(v')
  {
    forall cell | cell in v'.defs
      ensures HasOut(v'.st, cell.block, cell.storage)
      ensures v'.canon[v'.defs[cell]] == Out(v'.st, cell.block, cell.storage)
    {
      assert HasOut(v.st, cell.block, cell.storage);
    }
  }

  lemma TakenFromIncomplete(g: FlowGraph, v: View, phi: nat, rest: seq<nat>)
    requires IncompleteOk(g, v) && v.incomplete == [phi] + rest
    requires IsIncomplete(g, v.st, phi) && phi !in rest
    ensures IncompleteOk(g, WithoutListed(v, phi, rest))
  {
    var v' := WithoutListed(v, phi, rest);
    forall i | 0 <= i < |rest|
      ensures rest[i] == v.incomplete[i + 1] && rest[i] != phi && IsIncomplete(g, v'.st, rest[i])
    {
      assert IsIncomplete(g, v.st, v.incomplete[i + 1]);
    }
  }

  lemma TakenFromDelayed(v: View, phi: nat, rest: seq<nat>)
    requires LastDelayed(v) && v.incomplete == [phi] + rest
    requires phi < |v.st.nodes| && v.st.nodes[phi].Phi?
    ensures LastDelayed(WithoutListed(v, phi, rest))
  {
    var v' := WithoutListed(v, phi, rest);
    forall i | 0 <= i < |rest|
      ensures rest[i] == v.incomplete[i + 1]
      ensures v'.st.delayed[|v'.st.delayed| - |rest| + i] == v.st.delayed[|v.st.delayed| - |v.incomplete| + (i + 1)]
    {
    }
  }

  lemma TakenFromDates(v: View, phi: nat, rest: seq<nat>)
    requires DatesOk(v) && v.incomplete == [phi] + rest
    requires phi < |v.st.nodes| && v.st.nodes[phi].Phi? && PhiCell(v.st.nodes[phi]) in v.st.ins
    ensures DatesOk(WithoutListed(v, phi, rest))
  {
    var v' := WithoutListed(v, phi, rest);
    forall cell | cell in v'.st.ins && cell !in v'.st.asOf
      ensures IsListedFor(v', v'.st.ins[cell], cell)
    {
      assert IsListedFor(v, v.st.ins[cell], cell);
    }
  }

  /** The state after a listed phi has been put in a cell of a block with a predecessor yet to be translated. */
  ghost function WithListedPhi(v: View, b: nat, s: nat): View {
    var n := |v.st.nodes|;
    v.(st := WithDelayed(WithNode(v.st, Phi(b, s, [])), b, s, n),
       canon := v.canon + [n],
       defs := v.defs[Cell(b, s) := n],
       incomplete := v.incomplete + [n])
  }

  lemma ListIncompletePhi(g: FlowGraph, v: View, open: set<nat>, b: nat, s: nat, frames: seq<Frame>)
    requires g.WellFormed() && Settled(g, v, open) && Unknown(v, b, s)
    requires forall n :: n in open ==> n < |v.st.nodes|
    requires FramesOk(g, v.st, s, frames)
    requires b < |g.preds| && !PredsVisited(g, v.st, b)
    ensures var v' := WithListedPhi(v, b, s);
            && Settled(g, v', open) && FramesOk(g, v'.st, s, frames)
            && HasOut(v'.st, b, s) && Out(v'.st, b, s) == |v.st.nodes|
  {
    hide TablesOk, Inv;
    var n := |v.st.nodes|;
    var v' := WithListedPhi(v, b, s);
    var pending := open + Listed(v.incomplete);
    UnknownCell(g, v, open, b, s);
    ListedPhiKeepsTables(g, v, b, s);
    FreshPhiKeepsInv(g, v.st, pending, b, s);
    assert pending + {n} == open + Listed(v'.incomplete);
    forall k | 0 <= k < |frames|
      ensures frames[k].block != b
    {
      assert FrameOk(g, v.st, s, frames[k]);
    }
    FramesGrow(g, v.st, v'.st, s, frames);
    ListedExist(g, v);
  }

  lemma ListedPhiKeepsTables(g: FlowGraph, v: View, b: nat, s: nat)
    requires TablesOk(g, v) && Cell(b, s) !in v.st.ins && Cell(b, s) !in v.st.asOf && Cell(b, s) !in v.st.writes
    requires b < |g.preds| && b != g.entry && g.preds[b] != []
    ensures TablesOk(g, WithListedPhi(v, b, s))
  {
    hide DefsOk, IncompleteOk, LastDelayed, DatesOk;
    ListedPhiKeepsDefs(v, b, s);
    ListedPhiIsIncomplete(g, v, b, s);
    ListedPhiIsDelayed(v, b, s);
  }

  lemma ListedPhiKeepsDefs(v: View, b: nat, s: nat)
    requires DefsOk(v) && Cell(b, s) !in v.st.ins && Cell(b, s) !in v.st.writes
    ensures DefsOk(WithListedPhi(v, b, s))
  {
    var v' := WithListedPhi(v, b, s);
    forall cell | cell in v'.defs
      ensures v'.defs[cell] < |v'.canon|
      ensures HasOut(v'.st, cell.block, cell.storage)
      ensures v'.canon[v'.defs[cell]] == Out(v'.st, cell.block, cell.storage)
    {
      if cell != Cell(b, s) {
        assert HasOut(v.st, cell.block, cell.storage);
      }
    }
  }

  lemma ListedPhiIsIncomplete(g: FlowGraph, v: View, b: nat, s: nat)
    requires IncompleteOk(g, v) && Cell(b, s) !in v.st.ins && Cell(b, s) !in v.st.asOf
    requires b < |g.preds| && b != g.entry && g.preds[b] != []
    ensures IncompleteOk(g, WithListedPhi(v, b, s))
  {
    var v' := WithListedPhi(v, b, s);
    forall i | 0 <= i < |v'.incomplete|
      ensures IsIncomplete(g, v'.st, v'.incomplete[i])
      ensures i < |v.incomplete| ==> v'.incomplete[i] < |v.st.nodes|
    {
      if i < |v.incomplete| {
        assert IsIncomplete(g, v.st, v.incomplete[i]);
      }
    }
  }

  lemma ListedPhiIsDelayed(v: View, b: nat, s: nat)
    requires LastDelayed(v) && DatesOk(v)
    ensures LastDelayed(WithListedPhi(v, b, s)) && DatesOk(WithListedPhi(v, b, s))
  {
    var v' := WithListedPhi(v, b, s);
    forall i | 0 <= i < |v'.incomplete|
      ensures v'.incomplete[i] < |v'.st.nodes| && v'.st.nodes[v'.incomplete[i]].Phi?
      ensures v'.st.delayed[|v'.st.delayed| - |v'.incomplete| + i] == PhiCell(v'.st.nodes[v'.incomplete[i]])
    {
      if i < |v.incomplete| {
        assert v'.st.delayed[|v'.st.delayed| - |v'.incomplete| + i] == v.st.delayed[|v.st.delayed| - |v.incomplete| + i];
      }
    }
  }

  /** What the one predecessor hands over becomes the contents of `s` on entry to `b`. */
  ghost function WithCopiedIn(v: View, b: nat, s: nat, p: nat): View
    requires HasOut(v.st, p, s)
  {
    var n := Out(v.st, p, s);
    v.(st := WithIn(v.st, b, s, n), defs := v.defs[Cell(b, s) := n])
  }

  lemma CopyFromPredecessor(g: FlowGraph, v: View, open: set<nat>, b: nat, s: nat, frames: seq<Frame>)
    requires g.WellFormed() && Settled(g, v, open)
    requires forall n :: 0 <= n < |v.canon| ==> v.canon[n] < |v.canon| && v.canon[v.canon[n]] == v.canon[n]
    requires FramesOk(g, v.st, s, frames) && FrameOk(g, v.st, s, AfterSinglePredecessor(b))
    requires Cell(b, s) !in v.st.writes
    requires HasOut(v.st, g.preds[b][0], s) && Cell(g.preds[b][0], s) in v.defs
    ensures Settled(g, WithCopiedIn(v, b, s, g.preds[b][0]), open)
    ensures FramesOk(g, WithCopiedIn(v, b, s, g.preds[b][0]).st, s, frames)
    ensures HasOut(WithCopiedIn(v, b, s, g.preds[b][0]).st, b, s)
    ensures Cell(b, s) in v.st.ins ==> v.st.ins[Cell(b, s)] == Out(v.st, g.preds[b][0], s)
    ensures Out(WithCopiedIn(v, b, s, g.preds[b][0]).st, b, s) == Out(v.st, g.preds[b][0], s)
  {
    hide TablesOk, Inv, FramesOk;
    var p := g.preds[b][0];
    var v' := WithCopiedIn(v, b, s, p);
    KnownCell(g, v, open, p, s);
    DatedCellsFilled(g, v, open);
    CopiedInKeepsInv(g, v.st, open + Listed(v.incomplete), b, s, frames);
    assert Filled(v, v', Cell(b, s));
    TablesGrow(g, v, v', Cell(b, s));
  }

  lemma DatedCellsFilled(g: FlowGraph, v: View, open: set<nat>)
    requires Settled(g, v, open)
    ensures v.st.asOf.Keys <= v.st.ins.Keys && v.defs.Keys == v.st.ins.Keys + v.st.writes.Keys
  {
  }

  lemma CopiedInKeepsInv(g: FlowGraph, st: State, pending: set<nat>, b: nat, s: nat, frames: seq<Frame>)
    requires Inv(g, st, pending) && FramesOk(g, st, s, frames) && st.asOf.Keys <= st.ins.Keys
    requires FrameOk(g, st, s, AfterSinglePredecessor(b))
    requires HasOut(st, g.preds[b][0], s) && Out(st, g.preds[b][0], s) < |st.nodes|
    ensures Inv(g, WithIn(st, b, s, Out(st, g.preds[b][0], s)), pending)
    ensures FramesOk(g, WithIn(st, b, s, Out(st, g.preds[b][0], s)), s, frames)
  {
    hide Inv, FramesOk;
    CopiedInIsJustified(g, st, pending, b, s);
    NewCellKeepsInv(g, st, pending, b, s, Out(st, g.preds[b][0], s));
    FramesGrow(g, st, WithIn(st, b, s, Out(st, g.preds[b][0], s)), s, frames);
  }

  lemma CopiedInIsJustified(g: FlowGraph, st: State, pending: set<nat>, b: nat, s: nat)
    requires FrameOk(g, st, s, AfterSinglePredecessor(b))
    requires HasOut(st, g.preds[b][0], s) && Out(st, g.preds[b][0], s) < |st.nodes|
    ensures Justified(g, WithIn(st, b, s, Out(st, g.preds[b][0], s)), pending, b, s)
  {
  }

  /** An open phi takes the node of the predecessor it has been waiting for. */
  lemma TakeOperand(g: FlowGraph, v: View, b: nat, s: nat, phi: nat, i: nat, frames: seq<Frame>)
    requires g.WellFormed() && FrameOk(g, v.st, s, AfterPhiPredecessor(b, phi, i))
    requires FramesOk(g, v.st, s, frames + [AfterPhiPredecessor(b, phi, i)])
    requires Settled(g, v, OpenPhis(frames + [AfterPhiPredecessor(b, phi, i)]))
    requires HasOut(v.st, g.preds[b][i], s)
    ensures var st' := WithOperand(v.st, phi, Out(v.st, g.preds[b][i], s));
            && Settled(g, v.(st := st'), OpenPhis(frames) + {phi}) && FramesOk(g, st', s, frames)
            && phi !in OpenPhis(frames) && phi !in Listed(v.incomplete)
            && Gathers(g, st', b, s, phi, i + 1)
  {
    hide TablesOk, Inv, FramesOk, OpenPhis, Listed, HasOut, Out, OperandsOk;
    var all := frames + [AfterPhiPredecessor(b, phi, i)];
    var operand := Out(v.st, g.preds[b][i], s);
    PopFrame(g, v.st, s, frames, AfterPhiPredecessor(b, phi, i));
    OpenPhiAlone(b, phi, i);
    assert OpenPhis(all) == OpenPhis(frames) + {phi};
    NewOperandKeepsInv(g, v.st, OpenPhis(all) + Listed(v.incomplete), b, s, phi);
    FramesKeepOperand(g, v.st, s, frames, phi, operand);
    OperandKeepsTables(g, v, phi, operand);
    OneMoreGathered(g, v.st, b, s, phi, i);
  }

  lemma OpenPhiAlone(b: nat, phi: nat, i: nat)
    ensures OpenPhis([AfterPhiPredecessor(b, phi, i)]) == {phi}
  {
    assert AfterPhiPredecessor(b, phi, i) in [AfterPhiPredecessor(b, phi, i)];
  }

  lemma OneMoreGathered(g: FlowGraph, st: State, b: nat, s: nat, phi: nat, i: nat)
    requires b < |g.preds| && i < |g.preds[b]| && Gathers(g, st, b, s, phi, i) && PredsVisited(g, st, b)
    requires HasOut(st, g.preds[b][i], s)
    ensures Gathers(g, WithOperand(st, phi, Out(st, g.preds[b][i], s)), b, s, phi, i + 1)
  {
    OperandKeepsOuts(st, phi, Out(st, g.preds[b][i], s));
  }

  lemma OperandKeepsTables(g: FlowGraph, v: View, phi: nat, operand: nat)
    requires TablesOk(g, v)
    requires phi < |v.st.nodes| && v.st.nodes[phi].Phi? && phi !in Listed(v.incomplete)
    ensures TablesOk(g, v.(st := WithOperand(v.st, phi, operand)))
  {
    hide DefsOk, IncompleteOk, LastDelayed, DatesOk;
    var v' := v.(st := WithOperand(v.st, phi, operand));
    TablesShape(g, v);
    SameOutsSameDefs(v, v');
    OperandKeepsIncomplete(g, v, phi, operand);
    ListsKept(v, v');
  }

  lemma TablesShape(g: FlowGraph, v: View)
    requires TablesOk(g, v)
    ensures |v.canon| == |v.st.nodes| && v.st.asOf.Keys <= v.st.ins.Keys
    ensures forall cell :: cell in v.st.asOf ==> v.st.asOf[cell] <= v.st.forgotten
  {
  }

  lemma OperandKeepsIncomplete(g: FlowGraph, v: View, phi: nat, operand: nat)
    requires IncompleteOk(g, v)
    requires phi < |v.st.nodes| && v.st.nodes[phi].Phi? && phi !in Listed(v.incomplete)
    ensures IncompleteOk(g, v.(st := WithOperand(v.st, phi, operand)))
  {
    var v' := v.(st := WithOperand(v.st, phi, operand));
    forall i | 0 <= i < |v'.incomplete|
      ensures IsIncomplete(g, v'.st, v'.incomplete[i])
    {
      assert IsIncomplete(g, v.st, v.incomplete[i]);
      assert v.incomplete[i] in Listed(v.incomplete);
    }
  }

  /** A phi that has all its operands is no longer open. */
  lemma ClosePhi(g: FlowGraph, v: View, open: set<nat>, b: nat, s: nat, phi: nat)
    requires Settled(g, v, open + {phi}) && phi !in open
    requires b < |g.preds| && IsPhiFor(v.st, phi, b, s) && |v.st.nodes[phi].operands| == |g.preds[b]|
    ensures Settled(g, v, open)
  {
    var pending := open + {phi} + Listed(v.incomplete);
    assert pending - {phi} == open + Listed(v.incomplete);
    CompletePhiNeedNotBePending(g, v.st, pending, b, s, phi);
  }

  /**
   The state after the trivial phi of a cell has been replaced by its one other operand, which the
   block remembers from now on, whatever it assigned to the storage.
   */
  ghost function WithoutPhi(v: View, b: nat, s: nat, phi: nat, same: nat): View {
    v.(st := WithForgotten(Replaced(v.st, phi, same), Cell(b, s)),
       canon := RedirectAll(v.canon, phi, same),
       defs := v.defs[Cell(b, s) := same])
  }

  lemma RemoveTrivialPhi(g: FlowGraph, v: View, open: set<nat>, b: nat, s: nat, phi: nat, same: nat, frames: seq<Frame>)
    requires g.WellFormed() && Settled(g, v, open) && phi !in open + Listed(v.incomplete)
    requires IsPhiFor(v.st, phi, b, s) && Trivial(v.st.nodes[phi].operands, phi, same)
    requires same < |v.canon| && v.canon[same] == same
    requires Cell(b, s) in v.st.ins && v.st.ins[Cell(b, s)] == phi
    requires Cell(b, s) !in v.st.writes || frames == []
    requires FramesOk(g, v.st, s, frames) && OpenPhis(frames) <= open
    ensures Settled(g, WithoutPhi(v, b, s, phi, same), open)
    ensures FramesOk(g, WithoutPhi(v, b, s, phi, same).st, s, frames)
    ensures HasOut(WithoutPhi(v, b, s, phi, same).st, b, s) && Out(WithoutPhi(v, b, s, phi, same).st, b, s) == same
  {
    hide TablesOk, Inv;
    UsedInWrites(g, v, open);
    TablesShape(g, v);
    ReplacingTrivialPhiKeepsInv(g, v.st, open + Listed(v.incomplete), phi, same);
    ForgettingKeepsInv(g, Replaced(v.st, phi, same), open + Listed(v.incomplete), Cell(b, s));
    FramesKeepReplacement(g, v.st, s, frames, phi, same);
    ReplacementKeepsTables(g, v, b, s, phi, same);
  }

  lemma ReplacementKeepsTables(g: FlowGraph, v: View, b: nat, s: nat, phi: nat, same: nat)
    requires TablesOk(g, v) && WritesOk(v.st)
    requires phi < |v.st.nodes| && v.st.nodes[phi].Phi? && phi !in Listed(v.incomplete)
    requires same < |v.canon| && v.canon[same] == same && same != phi
    requires Cell(b, s) in v.st.ins && v.st.ins[Cell(b, s)] == phi
    ensures TablesOk(g, WithoutPhi(v, b, s, phi, same))
  {
    hide DefsOk, IncompleteOk, LastDelayed, DatesOk;
    TablesShape(g, v);
    ReplacementKeepsDefs(v, b, s, phi, same);
    ReplacementKeepsIncomplete(g, v, b, s, phi, same);
    ListsKept(v, WithoutPhi(v, b, s, phi, same));
  }

  lemma ReplacementKeepsDefs(v: View, b: nat, s: nat, phi: nat, same: nat)
    requires DefsOk(v) && WritesOk(v.st)
    requires phi < |v.st.nodes| && v.st.nodes[phi].Phi?
    requires same < |v.canon| && v.canon[same] == same && same != phi
    requires Cell(b, s) in v.st.ins && v.st.ins[Cell(b, s)] == phi
    ensures DefsOk(WithoutPhi(v, b, s, phi, same))
  {
    hide HasOut, Out;
    var v' := WithoutPhi(v, b, s, phi, same);
    forall cell | cell in v'.defs
      ensures v'.defs[cell] < |v'.canon|
      ensures HasOut(v'.st, cell.block, cell.storage)
      ensures v'.canon[v'.defs[cell]] == Out(v'.st, cell.block, cell.storage)
    {
      if cell != Cell(b, s) {
        assert HasOut(v.st, cell.block, cell.storage);
        OutReplaced(v.st, phi, same, cell.block, cell.storage);
        OutForgotten(Replaced(v.st, phi, same), Cell(b, s), cell.block, cell.storage);
      } else {
        ForgottenOut(v.st, b, s, phi, same);
      }
    }
  }

  lemma OutForgotten(st: State, cell: Cell, b: nat, s: nat)
    requires HasOut(st, b, s) && Cell(b, s) != cell
    ensures HasOut(WithForgotten(st, cell), b, s) && Out(WithForgotten(st, cell), b, s) == Out(st, b, s)
  {
  }

  lemma ForgottenOut(st: State, b: nat, s: nat, phi: nat, same: nat)
    requires Cell(b, s) in st.ins && st.ins[Cell(b, s)] == phi
    ensures var st' := WithForgotten(Replaced(st, phi, same), Cell(b, s)); HasOut(st', b, s) && Out(st', b, s) == same
  {
  }

  lemma ReplacementKeepsIncomplete(g: FlowGraph, v: View, b: nat, s: nat, phi: nat, same: nat)
    requires IncompleteOk(g, v) && phi !in Listed(v.incomplete)
    ensures IncompleteOk(g, WithoutPhi(v, b, s, phi, same))
  {
    var v' := WithoutPhi(v, b, s, phi, same);
    forall i | 0 <= i < |v'.incomplete|
      ensures IsIncomplete(g, v'.st, v'.incomplete[i])
    {
      assert IsIncomplete(g, v.st, v.incomplete[i]);
      assert v.incomplete[i] in Listed(v.incomplete);
    }
  }

  lemma UsedInWrites(g: FlowGraph, v: View, open: set<nat>)
    requires Settled(g, v, open)
    ensures WritesOk(v.st)
  {
  }

  /** The state after the factory has made a node that no block remembers yet. */
  ghost function WithLoneNode(v: View, node: Node): View {
    v.(st := WithNode(v.st, node), canon := v.canon + [|v.st.nodes|])
  }

  lemma NewValue(g: FlowGraph, v: View, open: set<nat>, node: Node)
    requires Settled(g, v, open)
    ensures Settled(g, WithLoneNode(v, node), open)
  {
    hide TablesOk, Inv;
    NewNodeKeepsInv(g, v.st, open + Listed(v.incomplete), node);
    LoneNodeKeepsTables(g, v, node);
  }

  lemma LoneNodeKeepsTables(g: FlowGraph, v: View, node: Node)
    requires TablesOk(g, v)
    ensures TablesOk(g, WithLoneNode(v, node))
  {
    hide DefsOk, IncompleteOk, LastDelayed, DatesOk;
    TablesShape(g, v);
    SameOutsSameDefs(v, WithLoneNode(v, node));
    QuietIncomplete(g, v, WithLoneNode(v, node));
    ListsKept(v, WithLoneNode(v, node));
  }

  lemma QuietIncomplete(g: FlowGraph, v: View, v': View)
    requires IncompleteOk(g, v) && v'.incomplete == v.incomplete
    requires v.st.nodes <= v'.st.nodes && v'.st.ins == v.st.ins && v'.st.asOf == v.st.asOf
    ensures IncompleteOk(g, v')
  {
    forall i | 0 <= i < |v'.incomplete|
      ensures IsIncomplete(g, v'.st, v'.incomplete[i])
    {
      assert IsIncomplete(g, v.st, v.incomplete[i]);
    }
  }

  lemma VisitBlock(g: FlowGraph, v: View, open: set<nat>, b: nat)
    requires Settled(g, v, open)
    ensures Settled(g, v.(st := v.st.(visited := v.st.visited + {b})), open)
  {
    hide TablesOk, Inv;
    VisitingKeepsInv(g, v.st, open + Listed(v.incomplete), b);
    VisitKeepsTables(g, v, v.(st := v.st.(visited := v.st.visited + {b})));
  }

  lemma VisitKeepsTables(g: FlowGraph, v: View, v': View)
    requires TablesOk(g, v) && v' == v.(st := v.st.(visited := v'.st.visited))
    ensures TablesOk(g, v')
  {
    hide DefsOk, IncompleteOk, LastDelayed, DatesOk;
    TablesShape(g, v);
    SameOutsSameDefs(v, v');
    QuietIncomplete(g, v, v');
    ListsKept(v, v');
  }

  /** An assignment in the block being translated. */
  ghost function WithWritten(v: View, b: nat, s: nat, n: nat, source: Source): View
    requires n < |v.canon|
  {
    v.(st := WithWrite(v.st, b, s, source), defs := v.defs[Cell(b, s) := v.canon[n]])
  }

  /** Where a node comes from that is assigned in block `b`. */
  ghost predicate Comes(v: View, b: nat, n: nat, source: Source) {
    && n < |v.canon| == |v.st.nodes|
    && match source
       case Fresh(x, i) => x < |v.st.nodes| && v.st.nodes[x] == Value(b, i) && v.canon[n] == x && v.canon[x] == x
       case Incoming(t) => Cell(b, t) in v.st.ins && v.canon[n] == v.st.ins[Cell(b, t)]
  }

  lemma RecordAssignment(g: FlowGraph, v: View, open: set<nat>, b: nat, s: nat, n: nat, source: Source)
    requires Settled(g, v, open) && b !in v.st.visited && Comes(v, b, n, source) && Cell(b, s) !in v.st.forgotten
    requires forall i :: 0 <= i < |v.canon| ==> v.canon[i] < |v.canon| && v.canon[v.canon[i]] == v.canon[i]
    ensures Settled(g, WithWritten(v, b, s, n, source), open)
  {
    hide TablesOk, Inv;
    AssignmentKeepsInv(g, v.st, open + Listed(v.incomplete), b, s, source);
    AssignmentKeepsTables(g, v, b, s, n, source);
  }

  lemma AssignmentKeepsTables(g: FlowGraph, v: View, b: nat, s: nat, n: nat, source: Source)
    requires TablesOk(g, v) && Comes(v, b, n, source) && Cell(b, s) !in v.st.forgotten
    requires forall i :: 0 <= i < |v.canon| ==> v.canon[i] < |v.canon| && v.canon[v.canon[i]] == v.canon[i]
    ensures TablesOk(g, WithWritten(v, b, s, n, source))
  {
    hide DefsOk, IncompleteOk, LastDelayed, DatesOk;
    var v' := WithWritten(v, b, s, n, source);
    TablesShape(g, v);
    AssignmentKeepsDefs(v, b, s, n, source);
    QuietIncomplete(g, v, v');
    ListsKept(v, v');
  }

  lemma AssignmentKeepsDefs(v: View, b: nat, s: nat, n: nat, source: Source)
    requires DefsOk(v) && Comes(v, b, n, source) && Cell(b, s) !in v.st.forgotten
    requires forall i :: 0 <= i < |v.canon| ==> v.canon[i] < |v.canon| && v.canon[v.canon[i]] == v.canon[i]
    ensures DefsOk(WithWritten(v, b, s, n, source))
  {
    var v' := WithWritten(v, b, s, n, source);
    WrittenIsRemembered(v, b, s, n, source);
    forall cell | cell in v'.defs
      ensures v'.defs[cell] < |v'.canon|
      ensures HasOut(v'.st, cell.block, cell.storage)
      ensures v'.canon[v'.defs[cell]] == Out(v'.st, cell.block, cell.storage)
    {
      if cell != Cell(b, s) {
        assert HasOut(v.st, cell.block, cell.storage);
        WriteKeepsOut(v.st, b, s, source, cell.block, cell.storage);
      }
    }
  }

  lemma WrittenIsRemembered(v: View, b: nat, s: nat, n: nat, source: Source)
    requires Comes(v, b, n, source) && Cell(b, s) !in v.st.forgotten
    requires forall i :: 0 <= i < |v.canon| ==> v.canon[i] < |v.canon| && v.canon[v.canon[i]] == v.canon[i]
    ensures var v' := WithWritten(v, b, s, n, source);
            && HasOut(v'.st, b, s) && v'.defs[Cell(b, s)] < |v'.canon|
            && v'.canon[v'.defs[Cell(b, s)]] == Out(v'.st, b, s)
  {
  }

  lemma WriteKeepsOut(st: State, b: nat, s: nat, source: Source, p: nat, t: nat)
    requires HasOut(st, p, t) && Cell(p, t) != Cell(b, s)
    ensures HasOut(WithWrite(st, b, s, source), p, t) && Out(WithWrite(st, b, s, source), p, t) == Out(st, p, t)
  {
  }

  lemma AssignmentKeepsInv(g: FlowGraph, st: State, pending: set<nat>, b: nat, s: nat, source: Source)
    requires Inv(g, st, pending) && b !in st.visited
    requires match source
             case Fresh(v, i) => v < |st.nodes| && st.nodes[v] == Value(b, i)
             case Incoming(t) => Cell(b, t) in st.ins
    ensures Inv(g, WithWrite(st, b, s, source), pending)
  {
    NewWriteKeepsInv(g, st, pending, b, s, source);
  }

  /** Remembering the same definition once more, resolved, changes nothing. */
  lemma RememberResolved(g: FlowGraph, v: View, open: set<nat>, b: nat, s: nat)
    requires Settled(g, v, open) && InRange(Marks(v.st.nodes, v.canon, v.st.ins, v.st.asOf)) && Cell(b, s) in v.defs
    ensures v.defs[Cell(b, s)] < |v.canon|
    ensures Settled(g, v.(defs := v.defs[Cell(b, s) := v.canon[v.defs[Cell(b, s)]]]), open)
  {
    hide IncompleteOk, LastDelayed, DatesOk, Inv;
    var v' := v.(defs := v.defs[Cell(b, s) := v.canon[v.defs[Cell(b, s)]]]);
    SameIncomplete(g, v, v');
    SameLists(v, v');
  }

  lemma SameIncomplete(g: FlowGraph, v: View, v': View)
    requires IncompleteOk(g, v) && v'.st == v.st && v'.incomplete == v.incomplete
    ensures IncompleteOk(g, v')
  {
  }

  lemma SameLists(v: View, v': View)
    requires LastDelayed(v) && DatesOk(v) && v'.st == v.st && v'.incomplete == v.incomplete
    ensures LastDelayed(v') && DatesOk(v')
  {
  }

  // ---- what was found before still holds ----

  /** The nodes, their representatives, the nodes of the cells, and when the cells were filled. */
  datatype Marks = Marks(nodes: seq<Node>, canon: seq<nat>, ins: map<Cell, nat>, asOf: map<Cell, set<Cell>>)

  ghost predicate InRange(m: Marks) {
    && |m.canon| == |m.nodes|
    && (forall n :: 0 <= n < |m.canon| ==> m.canon[n] < |m.canon|)
    && (forall n :: 0 <= n < |m.canon| ==> m.canon[m.canon[n]] == m.canon[n])
    && (forall cell :: cell in m.ins ==> m.ins[cell] < |m.canon|)
    && (forall cell :: cell in m.ins ==> m.canon[m.ins[cell]] == m.ins[cell])
  }

  /** Whatever stood for something before still does, once it is resolved. */
  ghost predicate Carried(m: Marks, m': Marks) {
    && |m.nodes| == |m.canon| <= |m'.canon| == |m'.nodes|
    && (forall n :: 0 <= n < |m.canon| ==> m.canon[n] < |m.canon| && m'.canon[n] == m'.canon[m.canon[n]])
    && (forall n :: 0 <= n < |m.nodes| && m.nodes[n].Value? ==> m'.nodes[n] == m.nodes[n])
    && (forall cell :: cell in m.ins ==>
          m.ins[cell] < |m.canon| && cell in m'.ins && m'.ins[cell] == m'.canon[m.ins[cell]])
    && Extends(m.asOf, m'.asOf)
  }

  lemma CarriedTwice(m: Marks, m': Marks, m'': Marks)
    requires Carried(m, m') && Carried(m', m'')
    ensures Carried(m, m'')
  {
    forall n | 0 <= n < |m.canon|
      ensures m''.canon[n] == m''.canon[m.canon[n]]
    {
      assert m''.canon[n] == m''.canon[m'.canon[n]] == m''.canon[m'.canon[m.canon[n]]] == m''.canon[m.canon[n]];
    }
    forall n | 0 <= n < |m.nodes| && m.nodes[n].Value?
      ensures m''.nodes[n] == m.nodes[n]
    {
      assert m'.nodes[n] == m.nodes[n];
    }
  }

  lemma NothingChangedCarries(m: Marks)
    requires InRange(m)
    ensures Carried(m, m)
  {
  }

  lemma FreshInCarries(m: Marks, b: nat, s: nat, node: Node, asOf: map<Cell, set<Cell>>)
    requires InRange(m) && Cell(b, s) !in m.ins && Extends(m.asOf, asOf)
    ensures Carried(m, Marks(m.nodes + [node], m.canon + [|m.canon|], m.ins[Cell(b, s) := |m.canon|], asOf))
  {
  }

  lemma NewNodeCarries(m: Marks, node: Node)
    requires InRange(m)
    ensures Carried(m, Marks(m.nodes + [node], m.canon + [|m.canon|], m.ins, m.asOf))
  {
  }

  lemma CopiedInCarries(m: Marks, cell: Cell, n: nat, asOf: map<Cell, set<Cell>>)
    requires InRange(m) && (cell in m.ins ==> m.ins[cell] == n) && Extends(m.asOf, asOf)
    ensures Carried(m, m.(ins := m.ins[cell := n], asOf := asOf))
  {
  }

  lemma OperandCarries(m: Marks, nodes': seq<Node>)
    requires InRange(m) && |nodes'| == |m.nodes|
    requires forall n :: 0 <= n < |m.nodes| && m.nodes[n].Value? ==> nodes'[n] == m.nodes[n]
    ensures Carried(m, m.(nodes := nodes'))
  {
  }

  lemma ReplacementCarries(m: Marks, phi: nat, same: nat)
    requires InRange(m) && same < |m.canon| && m.canon[same] == same && same != phi
    ensures Carried(m, m.(nodes := ReplaceUses(m.nodes, phi, same), canon := RedirectAll(m.canon, phi, same),
                          ins := RedirectCells(m.ins, phi, same)))
  {
  }

  // ---- the order in which the blocks are translated ----

  /** Every block is listed once. */
  ghost predicate IsOrder(g: FlowGraph, order: seq<nat>) {
    && (forall j, k :: 0 <= j < k < |order| ==> order[j] != order[k])
    && (forall k :: 0 <= k < |order| ==> order[k] < |g.preds|)
    && (forall b: nat :: b < |g.preds| ==> b in order)
  }

  lemma NotYetVisited(g: FlowGraph, order: seq<nat>, k: nat)
    requires IsOrder(g, order) && k < |order|
    ensures order[k] < |g.preds| && order[k] !in Listed(order[..k])
    ensures Listed(order[..k + 1]) == Listed(order[..k]) + {order[k]}
  {
    assert order[..k + 1] == order[..k] + [order[k]];
  }

  lemma AllVisited(g: FlowGraph, order: seq<nat>)
    requires IsOrder(g, order)
    ensures g.AllIn(Listed(order[..|order|]))
  {
    assert order[..|order|] == order;
  }
}
