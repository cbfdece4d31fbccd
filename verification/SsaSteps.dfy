/**
 The changes that building the graph makes to a state, and that none of them takes away the
 justification of a cell.
 */
module SsaSteps {
  import opened FlowGraphs
  import opened SsaSemantics

  // ---- replacing a node everywhere ----

  function Redirect(n: nat, original: nat, substitute: nat): nat {
    if n == original then substitute else n
  }

  function RedirectAll(ns: seq<nat>, original: nat, substitute: nat): (r: seq<nat>)
    ensures |r| == |ns|
    ensures forall i :: 0 <= i < |ns| ==> r[i] == Redirect(ns[i], original, substitute)
  {
    seq(|ns|, i requires 0 <= i < |ns| => Redirect(ns[i], original, substitute))
  }

  /** Every use of `original` becomes a use of `substitute`, and `original` loses its operands. */
  function ReplaceUses(nodes: seq<Node>, original: nat, substitute: nat): (r: seq<Node>)
    ensures |r| == |nodes|
    ensures forall k :: 0 <= k < |nodes| && !nodes[k].Phi? ==> r[k] == nodes[k]
    ensures forall k :: 0 <= k < |nodes| && nodes[k].Phi? ==>
              r[k] == nodes[k].(operands := if k == original then []
                                            else RedirectAll(nodes[k].operands, original, substitute))
  {
    seq(|nodes|, k requires 0 <= k < |nodes| =>
          if !nodes[k].Phi? then nodes[k]
          else nodes[k].(operands := if k == original then []
                                     else RedirectAll(nodes[k].operands, original, substitute)))
  }

  function RedirectCells(ins: map<Cell, nat>, original: nat, substitute: nat): map<Cell, nat> {
    map cell | cell in ins :: Redirect(ins[cell], original, substitute)
  }

  ghost function Replaced(st: State, original: nat, substitute: nat): State {
    st.(nodes := ReplaceUses(st.nodes, original, substitute), ins := RedirectCells(st.ins, original, substitute))
  }

  /** A phi whose operands are all either the phi itself or one other node. */
  ghost predicate Trivial(operands: seq<nat>, phi: nat, same: nat) {
    && same != phi
    && same in operands
    && forall i :: 0 <= i < |operands| ==> operands[i] == phi || operands[i] == same
  }

  lemma TrivialOperand(operands: seq<nat>, phi: nat, same: nat)
    requires Trivial(operands, phi, same)
    ensures same in operands && same != phi
  {
  }

  lemma OutReplaced(st: State, phi: nat, same: nat, b: nat, s: nat)
    requires WritesOk(st) && phi < |st.nodes| && st.nodes[phi].Phi?
    requires HasOut(st, b, s)
    ensures HasOut(Replaced(st, phi, same), b, s)
    ensures Out(Replaced(st, phi, same), b, s) == Redirect(Out(st, b, s), phi, same)
  {
  }

  /** Putting the one other operand in place of a trivial phi keeps every cell justified. */
  lemma ReplacingTrivialPhiKeepsInv(g: FlowGraph, st: State, pending: set<nat>, phi: nat, same: nat)
    requires Inv(g, st, pending)
    requires phi < |st.nodes| && st.nodes[phi].Phi? && phi !in pending
    requires same < |st.nodes| && Trivial(st.nodes[phi].operands, phi, same)
    ensures Inv(g, Replaced(st, phi, same), pending)
  {
    var st' := Replaced(st, phi, same);
    forall cell | cell in st'.ins
      ensures cell.block < |g.preds| && Justified(g, Then(st', cell), pending, cell.block, cell.storage)
    {
      assert Then(st', cell) == Replaced(Then(st, cell), phi, same);
      ReplacingKeepsJustified(g, Then(st, cell), pending, phi, same, cell.block, cell.storage);
    }
  }

  lemma ReplacingKeepsJustified(g: FlowGraph, st: State, pending: set<nat>, phi: nat, same: nat, b: nat, s: nat)
    requires WritesOk(st) && b < |g.preds| && Cell(b, s) in st.ins && Justified(g, st, pending, b, s)
    requires phi < |st.nodes| && st.nodes[phi].Phi? && phi !in pending
    requires same < |st.nodes| && Trivial(st.nodes[phi].operands, phi, same)
    ensures Justified(g, Replaced(st, phi, same), pending, b, s)
  {
    var st' := Replaced(st, phi, same);
    forall p | HasOut(st, p, s)
      ensures HasOut(st', p, s) && Out(st', p, s) == Redirect(Out(st, p, s), phi, same)
    {
      OutReplaced(st, phi, same, p, s);
    }
  }

  // ---- adding to the graph ----

  ghost function WithNode(st: State, node: Node): State {
    st.(nodes := st.nodes + [node])
  }

  lemma NewNodeKeepsInv(g: FlowGraph, st: State, pending: set<nat>, node: Node)
    requires Inv(g, st, pending)
    ensures Inv(g, WithNode(st, node), pending)
  {
    var st' := WithNode(st, node);
    forall cell | cell in st'.ins
      ensures Justified(g, Then(st', cell), pending, cell.block, cell.storage)
    {
      assert Justified(g, Then(st, cell), pending, cell.block, cell.storage);
    }
  }

  /** What has been forgotten by now is put down for a cell the first time it is filled. */
  function Dated(asOf: map<Cell, set<Cell>>, cell: Cell, forgotten: set<Cell>): map<Cell, set<Cell>> {
    if cell in asOf then asOf else asOf[cell := forgotten]
  }

  /** Nothing that was put down has been changed. */
  ghost predicate Extends(asOf: map<Cell, set<Cell>>, asOf': map<Cell, set<Cell>>) {
    forall cell :: cell in asOf ==> cell in asOf' && asOf'[cell] == asOf[cell]
  }

  ghost function WithIn(st: State, b: nat, s: nat, n: nat): State {
    st.(ins := st.ins[Cell(b, s) := n], asOf := Dated(st.asOf, Cell(b, s), st.forgotten))
  }

  /** What justified a node still does when more cells have been filled. */
  lemma MoreCellsKeepJustified(g: FlowGraph, st: State, st': State, pending: set<nat>, b: nat, s: nat)
    requires b < |g.preds| && Cell(b, s) in st.ins && Justified(g, st, pending, b, s)
    requires st'.nodes == st.nodes && st'.writes == st.writes && st'.visited == st.visited
    requires st'.forgotten == st.forgotten && st.delayed <= st'.delayed
    requires forall cell :: cell in st.ins ==> cell in st'.ins && st'.ins[cell] == st.ins[cell]
    ensures Justified(g, st', pending, b, s)
  {
    forall p | HasOut(st, p, s)
      ensures HasOut(st', p, s) && Out(st', p, s) == Out(st, p, s)
    {
    }
  }

  /** Naming a node for a new cell keeps every cell justified if the new one is. */
  lemma NewCellKeepsInv(g: FlowGraph, st: State, pending: set<nat>, b: nat, s: nat, n: nat)
    requires Inv(g, st, pending)
    requires b < |g.preds|
    requires Cell(b, s) in st.ins ==> st.ins[Cell(b, s)] == n
    requires Cell(b, s) in st.ins || Cell(b, s) !in st.asOf
    requires Justified(g, WithIn(st, b, s, n), pending, b, s)
    ensures Inv(g, WithIn(st, b, s, n), pending)
  {
    var st' := WithIn(st, b, s, n);
    forall cell | cell in st'.ins
      ensures cell.block < |g.preds| && Justified(g, Then(st', cell), pending, cell.block, cell.storage)
    {
      if cell in st.ins && (cell != Cell(b, s) || cell in st.asOf) {
        MoreCellsKeepJustified(g, Then(st, cell), Then(st', cell), pending, cell.block, cell.storage);
      } else {
        assert Then(st', cell) == st';
      }
    }
  }

  /** A phi without operands is put into a cell whose predecessors cannot all be read yet. */
  ghost function WithDelayed(st: State, b: nat, s: nat, n: nat): State {
    st.(ins := st.ins[Cell(b, s) := n], delayed := st.delayed + [Cell(b, s)])
  }

  lemma DelayedCellKeepsInv(g: FlowGraph, st: State, pending: set<nat>, b: nat, s: nat, n: nat)
    requires Inv(g, st, pending) && n in pending
    requires b < |g.preds| && b != g.entry && Cell(b, s) !in st.ins
    requires IsPhiFor(st, n, b, s) && st.nodes[n].operands == []
    ensures Inv(g, WithDelayed(st, b, s, n), pending)
  {
    var st' := WithDelayed(st, b, s, n);
    forall cell | cell in st'.ins
      ensures Justified(g, Then(st', cell), pending, cell.block, cell.storage)
    {
      if cell != Cell(b, s) {
        MoreCellsKeepJustified(g, Then(st, cell), Then(st', cell), pending, cell.block, cell.storage);
      }
    }
  }

  /** The phi of a delayed cell is about to read its first predecessor. */
  ghost function WithDate(st: State, cell: Cell): State {
    st.(asOf := Dated(st.asOf, cell, st.forgotten))
  }

  lemma NewDateKeepsInv(g: FlowGraph, st: State, pending: set<nat>, b: nat, s: nat)
    requires Inv(g, st, pending) && Cell(b, s) in st.ins && Cell(b, s) !in st.asOf && b != g.entry
    requires IsPhiFor(st, st.ins[Cell(b, s)], b, s) && st.nodes[st.ins[Cell(b, s)]].operands == []
    requires st.ins[Cell(b, s)] in pending && Cell(b, s) in st.delayed
    ensures Inv(g, WithDate(st, Cell(b, s)), pending)
  {
    var st' := WithDate(st, Cell(b, s));
    forall cell | cell in st'.ins
      ensures Justified(g, Then(st', cell), pending, cell.block, cell.storage)
    {
      assert Justified(g, Then(st, cell), pending, cell.block, cell.storage);
    }
  }

  /** A block is made to remember for a storage what it held on entry, whatever it assigned. */
  ghost function WithForgotten(st: State, cell: Cell): State {
    st.(forgotten := if cell in st.writes then st.forgotten + {cell} else st.forgotten)
  }

  lemma ForgettingKeepsInv(g: FlowGraph, st: State, pending: set<nat>, cell: Cell)
    requires Inv(g, st, pending)
    ensures Inv(g, WithForgotten(st, cell), pending)
  {
    var st' := WithForgotten(st, cell);
    forall c | c in st'.ins
      ensures Justified(g, Then(st', c), pending, c.block, c.storage)
    {
      assert Then(st', c) == Then(st, c);
    }
  }

  ghost function WithOperand(st: State, phi: nat, operand: nat): State
    requires phi < |st.nodes| && st.nodes[phi].Phi?
  {
    st.(nodes := st.nodes[phi := st.nodes[phi].(operands := st.nodes[phi].operands + [operand])])
  }

  lemma OperandKeepsOuts(st: State, phi: nat, operand: nat)
    requires phi < |st.nodes| && st.nodes[phi].Phi?
    ensures forall p, s :: HasOut(st, p, s) ==>
              HasOut(WithOperand(st, phi, operand), p, s) && Out(WithOperand(st, phi, operand), p, s) == Out(st, p, s)
  {
  }

  /** An operand of a phi is no business of cells other than the phi's own. */
  lemma OperandKeepsJustified(g: FlowGraph, st: State, pending: set<nat>, phi: nat, home: nat, storage: nat,
                              operand: nat, b: nat, s: nat)
    requires b < |g.preds| && Cell(b, s) in st.ins && Justified(g, st, pending, b, s)
    requires IsPhiFor(st, phi, home, storage) && Cell(home, storage) != Cell(b, s)
    ensures Justified(g, WithOperand(st, phi, operand), pending, b, s)
  {
    OperandKeepsOuts(st, phi, operand);
  }

  lemma NewOperandIsJustified(g: FlowGraph, st: State, pending: set<nat>, b: nat, s: nat, phi: nat)
    requires b < |g.preds| && b != g.entry
    requires IsPhiFor(st, phi, b, s) && Cell(b, s) in st.ins && st.ins[Cell(b, s)] == phi
    requires Justified(g, st, pending, b, s) && PredsVisited(g, st, b)
    requires OperandsOk(g, st, b, s, st.nodes[phi].operands)
    requires phi in pending && |st.nodes[phi].operands| < |g.preds[b]|
    requires HasOut(st, g.preds[b][|st.nodes[phi].operands|], s)
    ensures Justified(g, WithOperand(st, phi, Out(st, g.preds[b][|st.nodes[phi].operands|], s)), pending, b, s)
  {
    OperandKeepsOuts(st, phi, Out(st, g.preds[b][|st.nodes[phi].operands|], s));
  }

  /** A pending phi takes the node of its next predecessor as its next operand. */
  lemma NewOperandKeepsInv(g: FlowGraph, st: State, pending: set<nat>, b: nat, s: nat, phi: nat)
    requires Inv(g, st, pending)
    requires b < |g.preds| && b != g.entry
    requires IsPhiFor(st, phi, b, s) && Cell(b, s) in st.ins && st.ins[Cell(b, s)] == phi
    requires AsOf(st.asOf, Cell(b, s)) == st.forgotten
    requires PredsVisited(g, st, b)
    requires OperandsOk(g, st, b, s, st.nodes[phi].operands)
    requires phi in pending && |st.nodes[phi].operands| < |g.preds[b]|
    requires HasOut(st, g.preds[b][|st.nodes[phi].operands|], s)
    ensures Inv(g, WithOperand(st, phi, Out(st, g.preds[b][|st.nodes[phi].operands|], s)), pending)
  {
    var st' := WithOperand(st, phi, Out(st, g.preds[b][|st.nodes[phi].operands|], s));
    forall cell | cell in st'.ins
      ensures Justified(g, Then(st', cell), pending, cell.block, cell.storage)
    {
      assert Justified(g, Then(st, cell), pending, cell.block, cell.storage);
      if cell == Cell(b, s) {
        assert Then(st, cell) == st && Then(st', cell) == st';
        NewOperandIsJustified(g, st, pending, b, s, phi);
      } else {
        OperandKeepsJustified(g, Then(st, cell), pending, phi, st.nodes[phi].block, st.nodes[phi].storage,
                              Out(st, g.preds[b][|st.nodes[phi].operands|], s), cell.block, cell.storage);
      }
    }
  }

  /** Once a phi has an operand for every predecessor it need not be pending. */
  lemma CompletePhiNeedNotBePending(g: FlowGraph, st: State, pending: set<nat>, b: nat, s: nat, phi: nat)
    requires Inv(g, st, pending)
    requires b < |g.preds| && IsPhiFor(st, phi, b, s) && |st.nodes[phi].operands| == |g.preds[b]|
    ensures Inv(g, st, pending - {phi})
  {
    forall cell | cell in st.ins
      ensures Justified(g, Then(st, cell), pending - {phi}, cell.block, cell.storage)
    {
      assert Justified(g, Then(st, cell), pending, cell.block, cell.storage);
    }
  }

  lemma MorePendingKeepsInv(g: FlowGraph, st: State, pending: set<nat>, more: set<nat>)
    requires Inv(g, st, pending) && pending <= more
    ensures Inv(g, st, more)
  {
    forall cell | cell in st.ins
      ensures Justified(g, Then(st, cell), more, cell.block, cell.storage)
    {
      assert Justified(g, Then(st, cell), pending, cell.block, cell.storage);
    }
  }

  ghost function WithWrite(st: State, b: nat, s: nat, source: Source): State {
    st.(writes := st.writes[Cell(b, s) := source])
  }

  /** An assignment in a block that is still being translated is nobody's justification yet. */
  lemma NewWriteKeepsInv(g: FlowGraph, st: State, pending: set<nat>, b: nat, s: nat, source: Source)
    requires Inv(g, st, pending) && b !in st.visited
    requires match source
             case Fresh(v, i) => v < |st.nodes| && st.nodes[v] == Value(b, i)
             case Incoming(t) => Cell(b, t) in st.ins
    ensures Inv(g, WithWrite(st, b, s, source), pending)
  {
    var st' := WithWrite(st, b, s, source);
    forall cell | cell in st'.ins
      ensures Justified(g, Then(st', cell), pending, cell.block, cell.storage)
    {
      assert Justified(g, Then(st, cell), pending, cell.block, cell.storage);
      forall p, t | p in st.visited && HasOut(Then(st, cell), p, t)
        ensures HasOut(Then(st', cell), p, t) && Out(Then(st', cell), p, t) == Out(Then(st, cell), p, t)
      {
      }
    }
  }

  lemma VisitingKeepsInv(g: FlowGraph, st: State, pending: set<nat>, b: nat)
    requires Inv(g, st, pending)
    ensures Inv(g, st.(visited := st.visited + {b}), pending)
  {
    var st' := st.(visited := st.visited + {b});
    forall cell | cell in st'.ins
      ensures Justified(g, Then(st', cell), pending, cell.block, cell.storage)
    {
      assert Justified(g, Then(st, cell), pending, cell.block, cell.storage);
    }
  }
}
