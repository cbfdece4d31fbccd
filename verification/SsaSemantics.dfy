/**
 What it means for a graph of definition and phi nodes to stand for the storages of a program,
 independently of how the graph is built: the program is run along a walk, and so is the graph.
 */
module SsaSemantics {
  import opened Wrappers
  import opened FlowGraphs

  /** A storage in a block: the key under which a block remembers a reaching definition. */
  datatype Cell = Cell(block: nat, storage: nat)

  /** Nodes are numbered by creation. The operands of a phi do not include its block node. */
  datatype Node =
    | Value(home: nat, index: nat)   // what statement `index` of block `home` computes
    | Def(storage: nat)
    | Phi(block: nat, storage: nat, operands: seq<nat>)

  /** What the last assignment to a storage in a block wrote. */
  datatype Source =
    | Fresh(node: nat, index: nat)   // the node of an operation in this block, and its statement
    | Incoming(storage: nat)         // what that storage held when control entered the block

  /**
   A run-time value, identified by where it came from: the statement that computed it and the
   moment it did, or the contents of a storage when the procedure was entered.
   */
  datatype Token = Computed(block: nat, index: nat, at: Walk) | Initial(storage: nat)

  // ---- running the program ----

  /** The cells that were forgotten when `cell` was filled. */
  function AsOf(asOf: map<Cell, set<Cell>>, cell: Cell): set<Cell> {
    if cell in asOf then asOf[cell] else {}
  }

  /**
   The contents of storage `s` when control has just entered the last block of the walk, as it is
   seen by a search that misses the assignments of the cells that `asOf` names. With an empty
   `asOf` nothing is missed.
   */
  function ValueIn(g: FlowGraph, writes: map<Cell, Source>, asOf: map<Cell, set<Cell>>, w: Walk, s: nat): Token
    decreases w, 0
  {
    match w
    case Start => Initial(s)
    case Step(prev, b, _) => ValueOut(g, writes, asOf, AsOf(asOf, Cell(b, s)), prev, s)
  }

  /** The contents of storage `s` when the last block of the walk has been carried out. */
  function ValueOut(g: FlowGraph, writes: map<Cell, Source>, asOf: map<Cell, set<Cell>>, forgotten: set<Cell>,
                    w: Walk, s: nat): Token
    decreases w, 1
  {
    var cell := Cell(End(g, w), s);
    if cell !in writes || cell in forgotten then ValueIn(g, writes, asOf, w, s)
    else match writes[cell]
      case Fresh(_, i) => Computed(End(g, w), i, w)
      case Incoming(t) => ValueIn(g, writes, asOf, w, t)
  }

  // ---- running the graph ----

  /**
   The value of node `n` at the end of the walk: an operation has the value it got when its
   block was last visited, a phi the value its operand for the edge then taken had before.
   */
  function Eval(g: FlowGraph, nodes: seq<Node>, n: nat, w: Walk): Option<Token>
    decreases Length(w)
  {
    if n >= |nodes| then None
    else match nodes[n]
      case Value(home, i) =>
        var at := LastVisit(g, w, home);
        if at.Some? then Some(Computed(home, i, at.value)) else None
      case Def(s) => Some(Initial(s))
      case Phi(b, _, operands) =>
        var at := LastVisit(g, w, b);
        if at.Some? && at.value.Step? && at.value.edge < |operands|
        then Eval(g, nodes, operands[at.value.edge], at.value.prev)
        else None
  }

  // ---- the graph stands for the program ----

  /**
   `ins` names, for some cells, the node that stands for the contents of the storage when the
   block is entered; `visited` are the blocks whose statements have all been translated. A block
   may have been made to forget what it assigned: `forgotten` are the cells it has happened to,
   and `asOf` says for a cell which ones they were when the predecessors were read. `delayed` are
   the cells that were given a phi before all predecessors had been translated, in that order.
   */
  datatype State = State(nodes: seq<Node>, ins: map<Cell, nat>, writes: map<Cell, Source>, visited: set<nat>,
                         forgotten: set<Cell>, asOf: map<Cell, set<Cell>>, delayed: seq<Cell>)

  /** The assignment that a block remembers for a cell. */
  ghost predicate Remembers(st: State, cell: Cell) {
    cell in st.writes && cell !in st.forgotten
  }

  ghost predicate HasOut(st: State, b: nat, s: nat) {
    var cell := Cell(b, s);
    if !Remembers(st, cell) then cell in st.ins
    else match st.writes[cell]
      case Fresh(_, _) => true
      case Incoming(t) => Cell(b, t) in st.ins
  }

  ghost function Out(st: State, b: nat, s: nat): nat
    requires HasOut(st, b, s)
  {
    var cell := Cell(b, s);
    if !Remembers(st, cell) then st.ins[cell]
    else match st.writes[cell]
      case Fresh(v, _) => v
      case Incoming(t) => st.ins[Cell(b, t)]
  }

  /** The state with just those assignments forgotten that had been when the cell was filled. */
  ghost function Then(st: State, cell: Cell): State {
    st.(forgotten := AsOf(st.asOf, cell))
  }

  ghost predicate PredsVisited(g: FlowGraph, st: State, b: nat)
    requires b < |g.preds|
  {
    forall i :: 0 <= i < |g.preds[b]| ==> g.preds[b][i] in st.visited
  }

  /** The first operands of a phi are what its first predecessors hand over. */
  ghost predicate OperandsOk(g: FlowGraph, st: State, b: nat, s: nat, operands: seq<nat>)
    requires b < |g.preds|
  {
    && |operands| <= |g.preds[b]|
    && (operands != [] ==> PredsVisited(g, st, b))
    && (forall i :: 0 <= i < |operands| ==>
         HasOut(st, g.preds[b][i], s) && operands[i] == Out(st, g.preds[b][i], s))
  }

  ghost predicate IsPhiFor(st: State, n: nat, b: nat, s: nat) {
    n < |st.nodes| && st.nodes[n].Phi? && st.nodes[n].block == b && st.nodes[n].storage == s
  }

  /** All predecessors hand over the one node `n`. */
  ghost predicate AllPredsAgree(g: FlowGraph, st: State, b: nat, s: nat, n: nat)
    requires b < |g.preds|
  {
    && g.preds[b] != []
    && PredsVisited(g, st, b)
    && forall i :: 0 <= i < |g.preds[b]| ==>
         HasOut(st, g.preds[b][i], s) && Out(st, g.preds[b][i], s) == n
  }

  /** The node of a cell is justified by the predecessors. Phis in `pending` may lack operands. */
  ghost predicate Justified(g: FlowGraph, st: State, pending: set<nat>, b: nat, s: nat)
    requires b < |g.preds| && Cell(b, s) in st.ins
  {
    var n := st.ins[Cell(b, s)];
    && n < |st.nodes|
    && if b == g.entry then st.nodes[n] == Def(s)
       else
         || (IsPhiFor(st, n, b, s)
             && (|g.preds[b]| > 1 || Cell(b, s) in st.delayed)
             && OperandsOk(g, st, b, s, st.nodes[n].operands)
             && (n in pending || |st.nodes[n].operands| == |g.preds[b]|))
         || AllPredsAgree(g, st, b, s, n)
  }

  ghost predicate WritesOk(st: State) {
    forall cell :: cell in st.writes ==>
      match st.writes[cell]
      case Fresh(v, i) => v < |st.nodes| && st.nodes[v] == Value(cell.block, i)
      case Incoming(t) => Cell(cell.block, t) in st.ins
  }

  ghost predicate Inv(g: FlowGraph, st: State, pending: set<nat>) {
    && WritesOk(st)
    && forall cell :: cell in st.ins ==>
         cell.block < |g.preds| && Justified(g, Then(st, cell), pending, cell.block, cell.storage)
  }

  lemma InvThen(g: FlowGraph, st: State, pending: set<nat>, cell: Cell)
    requires Inv(g, st, pending)
    ensures Inv(g, Then(st, cell), pending)
  {
    var st' := Then(st, cell);
    forall c | c in st'.ins
      ensures Justified(g, Then(st', c), pending, c.block, c.storage)
    {
      assert Then(st', c) == Then(st, c);
    }
  }

  /**
   If every cell is justified by its predecessors then a cell's node has, at the end of every
   walk to the block, the value that a search with that much forgotten sees in the storage.
   */
  lemma {:induction false} InIsCorrect(g: FlowGraph, st: State, w: Walk, s: nat)
    requires g.WellFormed() && Inv(g, st, {}) && IsWalk(g, w)
    requires Cell(End(g, w), s) in st.ins
    ensures Eval(g, st.nodes, st.ins[Cell(End(g, w), s)], w) == Some(ValueIn(g, st.writes, st.asOf, w, s))
    decreases Length(w), 0
  {
    var b := End(g, w);
    var n := st.ins[Cell(b, s)];
    var st' := Then(st, Cell(b, s));
    InvThen(g, st, {}, Cell(b, s));
    assert Justified(g, st', {}, b, s);
    if b == g.entry {
      EntryOnlyAtStart(g, w);
    } else {
      match w
      case Step(q, _, e) =>
        if IsPhiFor(st, n, b, s) && |st.nodes[n].operands| == |g.preds[b]|
           && OperandsOk(g, st', b, s, st.nodes[n].operands) {
          assert LastVisit(g, w, b) == Some(w);
          OutIsCorrect(g, st', q, s);
        } else {
          assert AllPredsAgree(g, st', b, s, n);
          OutIsCorrect(g, st', q, s);
          if LastVisit(g, q, b).Some? {
            var before, edge := FirstArrival(g, q, b);
            OutIsCorrect(g, st', before, s);
          }
          NodeNotAtHome(g, st.nodes, n, w);
        }
    }
  }

  lemma {:induction false} OutIsCorrect(g: FlowGraph, st: State, w: Walk, s: nat)
    requires g.WellFormed() && Inv(g, st, {}) && IsWalk(g, w)
    requires HasOut(st, End(g, w), s)
    ensures Eval(g, st.nodes, Out(st, End(g, w), s), w) ==
            Some(ValueOut(g, st.writes, st.asOf, st.forgotten, w, s))
    decreases Length(w), 1
  {
    var b := End(g, w);
    var cell := Cell(b, s);
    if !Remembers(st, cell) {
      InIsCorrect(g, st, w, s);
    } else {
      match st.writes[cell]
      case Fresh(_, _) => assert LastVisit(g, w, b) == Some(w);
      case Incoming(t) => InIsCorrect(g, st, w, t);
    }
  }

  /** Entering a block leaves a node's value alone unless the node lives in that block. */
  lemma NodeNotAtHome(g: FlowGraph, nodes: seq<Node>, n: nat, w: Walk)
    requires w.Step? && n < |nodes|
    requires nodes[n].Value? ==> nodes[n].home != w.block
    requires nodes[n].Phi? ==> nodes[n].block != w.block
    ensures Eval(g, nodes, n, w) == Eval(g, nodes, n, w.prev)
  {
  }

  lemma {:induction false} EntryOnlyAtStart(g: FlowGraph, w: Walk)
    requires g.WellFormed() && IsWalk(g, w) && End(g, w) == g.entry
    ensures w == Start
  {
  }
}
