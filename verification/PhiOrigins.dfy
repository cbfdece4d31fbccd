/**
 Where the contents of a storage come from, as far as that can be told from the program and the order of
 translation: followed backwards through copies and single predecessors, and what nodes stand for it.
 */
module PhiOrigins {
  import opened Wrappers
  import opened FlowGraphs
  import opened SsaSemantics
  import opened SsaSteps
  import opened ReadFrames
  import opened BuilderInvariants
  import opened Programs
  import opened ForgottenAssignments
  import opened DelayedPhis

  /** A statement's value, the contents of a storage when the procedure is entered, or when a block is. */
  datatype Origin = MadeBy(block: nat, index: nat) | AtStart(storage: nat) | AtEntryOf(cell: Cell) | Unclear

  ghost predicate Sound(p: Program) {
    p.WellFormed() && p.cfg.WellFormed() && p.cfg.AllReachable()
  }

  /** A block may come to forget what it assigns only if it is late and has read the storage on entry. */
  ghost predicate MayForget(p: Program, order: seq<nat>, cell: Cell)
    requires p.WellFormed()
  {
    LateBlock(p.cfg, order, cell.block) && Asks(p, cell.block, cell.storage)
  }

  /**
   Where the contents of `s` at the end of block `q` come from, for the operands of the phi of `self`.
   A block that may have forgotten its assignment by then leaves it unclear, unless it is looked at `early`,
   while blocks are still being translated.
   */
  ghost function OutOrigin(p: Program, order: seq<nat>, self: Cell, q: nat, s: nat, early: bool): Origin
    requires Sound(p) && q < |p.code|
    decreases p.cfg.Depth(q), 1
  {
    var effects := BlockEffects(p, q);
    if s !in effects then InOrigin(p, order, self, q, s, false)
    else if !early && Cell(q, s) != self && MayForget(p, order, Cell(q, s)) then Unclear
    else match effects[s]
      case Made(j) => MadeBy(q, j)
      case Held(t) => InOrigin(p, order, self, q, t, true)
  }

  /** The same on entry to the block; what a statement has copied has been looked up early. */
  ghost function InOrigin(p: Program, order: seq<nat>, self: Cell, q: nat, t: nat, copied: bool): Origin
    requires Sound(p) && q < |p.code|
    decreases p.cfg.Depth(q), 0
  {
    if q == p.cfg.entry then AtStart(t)
    else if |p.cfg.preds[q]| == 1 && !LateBlock(p.cfg, order, q) then
      p.cfg.SinglePredecessorIsShallower(q);
      OutOrigin(p, order, self, p.cfg.preds[q][0], t, copied)
    else AtEntryOf(Cell(q, t))
  }

  // ---- the nodes that stand for it ----

  ghost predicate NodeIs(p: Program, st: State, o: Origin, n: nat) {
    match o
    case MadeBy(b, j) => exists cell :: cell in st.writes && cell.block == b && st.writes[cell] == Fresh(n, j)
    case AtStart(t) => Cell(p.cfg.entry, t) in st.ins && st.ins[Cell(p.cfg.entry, t)] == n
    case AtEntryOf(cell) => cell in st.ins && st.ins[cell] == n
    case Unclear => true
  }

  /** Nothing but what may be forgotten has been, and not the cell itself. */
  ghost predicate OnlyForgets(p: Program, order: seq<nat>, self: Cell, cells: set<Cell>)
    requires p.WellFormed()
  {
    forall cell :: cell in cells ==> cell != self && MayForget(p, order, cell)
  }

  ghost predicate Tidy(p: Program, order: seq<nat>, self: Cell, st: State)
    requires p.WellFormed()
  {
    && AssignmentsKnown(p, st.writes, map[], {}) && DatesKnown(st)
    && (forall cell :: cell in st.delayed ==> LateBlock(p.cfg, order, cell.block))
    && (forall cell :: cell in st.asOf ==> OnlyForgets(p, order, self, st.asOf[cell]))
  }

  lemma {:induction false} OutHasOrigin(p: Program, order: seq<nat>, self: Cell, st: State, pending: set<nat>,
                                        q: nat, s: nat, early: bool)
    requires Sound(p) && q < |p.code| && Inv(p.cfg, st, pending) && Tidy(p, order, self, st)
    requires OnlyForgets(p, order, self, st.forgotten) && (early ==> st.forgotten == {})
    requires HasOut(st, q, s)
    ensures NodeIs(p, st, OutOrigin(p, order, self, q, s, early), Out(st, q, s))
    decreases p.cfg.Depth(q), 1
  {
    hide MayForget, LateBlock, Inv;
    var effects := BlockEffects(p, q);
    assert BlockMatches(p.code[q], st.writes, q, |p.code[q]|);
    assert Cell(q, s) in st.writes <==> s in effects;
    if s !in effects {
      InHasOrigin(p, order, self, st, pending, q, s, false);
    } else if !early && Cell(q, s) != self && MayForget(p, order, Cell(q, s)) {
    } else {
      assert Cell(q, s) !in st.forgotten;
      match effects[s]
      case Made(_) =>
      case Held(t) => InHasOrigin(p, order, self, st, pending, q, t, true);
    }
  }

  lemma {:induction false} InHasOrigin(p: Program, order: seq<nat>, self: Cell, st: State, pending: set<nat>,
                                       q: nat, t: nat, copied: bool)
    requires Sound(p) && q < |p.code| && Inv(p.cfg, st, pending) && Tidy(p, order, self, st)
    requires Cell(q, t) in st.ins
    requires copied ==> exists s :: Cell(q, s) in st.writes && st.writes[Cell(q, s)] == Incoming(t)
    ensures NodeIs(p, st, InOrigin(p, order, self, q, t, copied), st.ins[Cell(q, t)])
    decreases p.cfg.Depth(q), 0
  {
    hide LateBlock, MayForget, Tidy, OnlyForgets, FlowGraph.AllReachable, FlowGraph.WellFormed;
    if q != p.cfg.entry && |p.cfg.preds[q]| == 1 && !LateBlock(p.cfg, order, q) {
      var cell := Cell(q, t);
      var st' := Then(st, cell);
      DateIsTidy(p, order, self, st, cell, copied);
      assert Justified(p.cfg, st', pending, q, t);
      hide Justified, Inv;
      FromSingle(p.cfg, st', pending, q, t);
      p.cfg.SinglePredecessorIsShallower(q);
      PredecessorExists(p.cfg, q);
      InvThen(p.cfg, st, pending, cell);
      OutHasOrigin(p, order, self, st', pending, p.cfg.preds[q][0], t, copied);
    }
  }

  lemma PredecessorExists(g: FlowGraph, q: nat)
    requires g.WellFormed() && q < |g.preds| && |g.preds[q]| == 1
    ensures g.preds[q][0] < |g.preds|
  {
  }

  /** What was forgotten when the cell was filled: nothing, if a statement has copied what it held. */
  lemma DateIsTidy(p: Program, order: seq<nat>, self: Cell, st: State, cell: Cell, copied: bool)
    requires p.WellFormed() && Tidy(p, order, self, st) && !LateBlock(p.cfg, order, cell.block)
    requires copied ==> exists s :: Cell(cell.block, s) in st.writes && st.writes[Cell(cell.block, s)] == Incoming(cell.storage)
    ensures cell !in st.delayed && Tidy(p, order, self, Then(st, cell))
    ensures OnlyForgets(p, order, self, AsOf(st.asOf, cell)) && (copied ==> AsOf(st.asOf, cell) == {})
  {
    hide LateBlock, MayForget;
  }

  /** A cell of a block with one predecessor that was not listed has what the predecessor hands over. */
  lemma FromSingle(g: FlowGraph, st: State, pending: set<nat>, q: nat, t: nat)
    requires q < |g.preds| && q != g.entry && |g.preds[q]| == 1 && Cell(q, t) !in st.delayed
    requires Cell(q, t) in st.ins && Justified(g, st, pending, q, t)
    ensures HasOut(st, g.preds[q][0], t) && Out(st, g.preds[q][0], t) == st.ins[Cell(q, t)]
  {
  }

  // ---- the operands of a phi ----

  ghost function OperandOrigin(p: Program, order: seq<nat>, b: nat, s: nat, i: nat): Origin
    requires Sound(p) && b < |p.code| && i < |p.cfg.preds[b]|
  {
    OutOrigin(p, order, Cell(b, s), p.cfg.preds[b][i], s, false)
  }

  predicate IsClear(o: Origin, self: Cell) {
    o.MadeBy? || o.AtStart? || o == AtEntryOf(self)
  }

  /** Every operand of the cell's phi comes from a statement, from the start, or from the phi itself. */
  ghost predicate OriginsClear(p: Program, order: seq<nat>, b: nat, s: nat)
    requires Sound(p) && b < |p.code|
  {
    forall i :: 0 <= i < |p.cfg.preds[b]| ==> IsClear(OperandOrigin(p, order, b, s, i), Cell(b, s))
  }

  /** All operands that do not come from the phi itself come from one other place. */
  ghost predicate OneOrigin(p: Program, order: seq<nat>, b: nat, s: nat)
    requires Sound(p) && b < |p.code|
  {
    exists i :: 0 <= i < |p.cfg.preds[b]| && IsTheOrigin(p, order, b, s, i)
  }

  ghost predicate IsTheOrigin(p: Program, order: seq<nat>, b: nat, s: nat, i: nat)
    requires Sound(p) && b < |p.code| && i < |p.cfg.preds[b]|
  {
    var self, o := AtEntryOf(Cell(b, s)), OperandOrigin(p, order, b, s, i);
    && o != self
    && forall k :: 0 <= k < |p.cfg.preds[b]| ==>
         OperandOrigin(p, order, b, s, k) == self || OperandOrigin(p, order, b, s, k) == o
  }

  lemma NodeTellsOrigin(p: Program, st: State, pending: set<nat>, self: Cell, phi: nat, o: Origin, o': Origin, n: nat)
    requires p.cfg.WellFormed() && Inv(p.cfg, st, pending)
    requires IsPhiFor(st, phi, self.block, self.storage) && self in st.ins && st.ins[self] == phi
    requires IsClear(o, self) && IsClear(o', self) && NodeIs(p, st, o, n) && NodeIs(p, st, o', n)
    ensures o == o'
  {
    NodeOfOrigin(p, st, pending, self, phi, o, n);
    NodeOfOrigin(p, st, pending, self, phi, o', n);
  }

  lemma NodeOfOrigin(p: Program, st: State, pending: set<nat>, self: Cell, phi: nat, o: Origin, n: nat)
    requires p.cfg.WellFormed() && Inv(p.cfg, st, pending)
    requires IsPhiFor(st, phi, self.block, self.storage) && self in st.ins && st.ins[self] == phi
    requires IsClear(o, self) && NodeIs(p, st, o, n)
    ensures n < |st.nodes|
    ensures match o
            case MadeBy(b, j) => st.nodes[n] == Value(b, j)
            case AtStart(t) => st.nodes[n] == Def(t)
            case _ => st.nodes[n].Phi? && n == phi
  {
    if o.AtStart? {
      var cell := Cell(p.cfg.entry, o.storage);
      assert Justified(p.cfg, Then(st, cell), pending, cell.block, cell.storage);
    }
  }

  lemma OriginTellsNode(p: Program, st: State, o: Origin, n: nat, n': nat)
    requires OneNodeEach(st.writes) && !o.Unclear? && NodeIs(p, st, o, n) && NodeIs(p, st, o, n')
    ensures n == n'
  {
  }

  lemma OperandHasOrigin(p: Program, order: seq<nat>, st: State, pending: set<nat>, phi: nat, b: nat, s: nat, i: nat)
    requires Sound(p) && Inv(p.cfg, st, pending) && Tidy(p, order, Cell(b, s), st)
    requires OnlyForgets(p, order, Cell(b, s), st.forgotten)
    requires b < |p.code| && Gathers(p.cfg, st, b, s, phi, |p.cfg.preds[b]|) && i < |p.cfg.preds[b]|
    ensures NodeIs(p, st, OperandOrigin(p, order, b, s, i), st.nodes[phi].operands[i])
  {
    hide Inv, Tidy, OnlyForgets, NodeIs, OutOrigin;
    OutHasOrigin(p, order, Cell(b, s), st, pending, p.cfg.preds[b][i], s, false);
  }

  /** A phi whose origins are clear is trivial exactly if there is one origin besides itself. */
  lemma TrivialIfOneOrigin(p: Program, order: seq<nat>, st: State, pending: set<nat>, phi: nat, b: nat, s: nat)
    requires Sound(p) && Inv(p.cfg, st, pending) && Tidy(p, order, Cell(b, s), st)
    requires OnlyForgets(p, order, Cell(b, s), st.forgotten) && OneNodeEach(st.writes)
    requires b < |p.code| && Gathers(p.cfg, st, b, s, phi, |p.cfg.preds[b]|) && OriginsClear(p, order, b, s)
    ensures (exists same :: Trivial(st.nodes[phi].operands, phi, same)) <==> OneOrigin(p, order, b, s)
  {
    hide Inv, Tidy, OnlyForgets, NodeIs, OneNodeEach, FlowGraph.AllReachable, OperandOrigin, OperandsOk;
    var self, ops := Cell(b, s), st.nodes[phi].operands;
    forall i | 0 <= i < |ops|
      ensures NodeIs(p, st, OperandOrigin(p, order, b, s, i), ops[i])
      ensures ops[i] == phi <==> OperandOrigin(p, order, b, s, i) == AtEntryOf(self)
    {
      OperandHasOrigin(p, order, st, pending, phi, b, s, i);
      PhiIsItsOrigin(p, st, self, phi);
      if ops[i] == phi {
        NodeTellsOrigin(p, st, pending, self, phi, OperandOrigin(p, order, b, s, i), AtEntryOf(self), phi);
      }
      if OperandOrigin(p, order, b, s, i) == AtEntryOf(self) {
        OriginTellsNode(p, st, AtEntryOf(self), ops[i], phi);
      }
    }
    if OneOrigin(p, order, b, s) {
      var i :| 0 <= i < |ops| && IsTheOrigin(p, order, b, s, i);
      forall k | 0 <= k < |ops|
        ensures ops[k] == phi || ops[k] == ops[i]
      {
        if OperandOrigin(p, order, b, s, k) == OperandOrigin(p, order, b, s, i) {
          OriginTellsNode(p, st, OperandOrigin(p, order, b, s, i), ops[k], ops[i]);
        }
      }
      assert Trivial(ops, phi, ops[i]);
    }
    if same :| Trivial(ops, phi, same) {
      var i :| 0 <= i < |ops| && ops[i] == same;
      forall k | 0 <= k < |ops|
        ensures OperandOrigin(p, order, b, s, k) == AtEntryOf(self)
             || OperandOrigin(p, order, b, s, k) == OperandOrigin(p, order, b, s, i)
      {
        if ops[k] == same {
          NodeTellsOrigin(p, st, pending, self, phi, OperandOrigin(p, order, b, s, k), OperandOrigin(p, order, b, s, i), same);
        }
      }
      assert IsTheOrigin(p, order, b, s, i);
    }
  }

  lemma PhiIsItsOrigin(p: Program, st: State, self: Cell, phi: nat)
    requires self in st.ins && st.ins[self] == phi
    ensures NodeIs(p, st, AtEntryOf(self), phi)
  {
  }
}
