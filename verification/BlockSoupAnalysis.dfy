/** Forms blocks out of instructions found at all addresses of a program. */
module BlockSoupAnalyses {
  import opened Wrappers

  /** The adapter says where control goes on after an instruction, and whether it may. */
  datatype Instr = Instr(address: nat, next: nat, mayFallThrough: bool)

  datatype EdgeType = Jump | Call | Return | Fallthrough

  datatype SoupEdge = SoupEdge(kind: EdgeType, from: nat, to: nat)

  type Blocks = map<nat, seq<Instr>>

  predicate GoesOn(instrs: seq<Instr>, k: nat, targets: set<nat>)
    requires k + 1 < |instrs|
  {
    && instrs[k].mayFallThrough && instrs[k].next == instrs[k + 1].address
    && instrs[k + 1].address !in targets
  }

  /** Each instruction goes on with the next one, and none but the first is jumped to. */
  ghost predicate IsBlock(begin: nat, instrs: seq<Instr>, targets: set<nat>) {
    && instrs != [] && instrs[0].address == begin
    && forall k :: 0 <= k < |instrs| - 1 ==> GoesOn(instrs, k, targets)
  }

  function Last(instrs: seq<Instr>): Instr
    requires instrs != []
  {
    instrs[|instrs| - 1]
  }

  ghost predicate HasOnce(instrs: seq<Instr>, x: Instr) {
    x in instrs && forall i, j :: 0 <= i < j < |instrs| ==> !(instrs[i] == x && instrs[j] == x)
  }

  /** Every instruction is in the block that it is listed for, once. */
  ghost predicate AllPlaced(done: seq<Instr>, blocks: Blocks, home: map<nat, nat>) {
    forall x :: x in done ==> x.address in home && home[x.address] in blocks && HasOnce(blocks[home[x.address]], x)
  }

  /** No instruction is in another block. */
  ghost predicate NoneElsewhere(done: seq<Instr>, blocks: Blocks, home: map<nat, nat>) {
    forall b, x :: b in blocks && x in blocks[b] ==> x in done && x.address in home && home[x.address] == b
  }

  ghost predicate OnlyDone(done: seq<Instr>, home: map<nat, nat>) {
    forall a :: a in home ==> exists x :: x in done && x.address == a
  }

  ghost predicate Placed(done: seq<Instr>, blocks: Blocks, home: map<nat, nat>) {
    AllPlaced(done, blocks, home) && NoneElsewhere(done, blocks, home) && OnlyDone(done, home)
  }

  ghost predicate AllBlocks(blocks: Blocks, targets: set<nat>) {
    forall b :: b in blocks ==> IsBlock(b, blocks[b], targets)
  }

  /** An address is active if a block whose last instruction goes on there waits for it. */
  ghost predicate ActiveOk(active: map<nat, nat>, blocks: Blocks) {
    forall a :: a in active ==>
      && active[a] in blocks && blocks[active[a]] != []
      && Last(blocks[active[a]]).next == a && Last(blocks[active[a]]).mayFallThrough
  }

  ghost predicate Distinct(instrs: seq<Instr>) {
    forall i, j :: 0 <= i < j < |instrs| ==> instrs[i].address != instrs[j].address
  }

  /** What is known when the instructions in `done` have been put into blocks. */
  ghost predicate Forming(done: seq<Instr>, blocks: Blocks, home: map<nat, nat>, active: map<nat, nat>, targets: set<nat>) {
    Placed(done, blocks, home) && AllBlocks(blocks, targets) && ActiveOk(active, blocks)
  }

  lemma InLonger(done: seq<Instr>, x: Instr)
    ensures forall y :: y in done + [x] <==> y in done || y == x
  {
  }

  /** The instruction is put at the end of a block, old or new. */
  lemma PlacedOneMore(done: seq<Instr>, blocks: Blocks, home: map<nat, nat>, x: Instr, b: nat)
    requires Placed(done, blocks, home) && x.address !in home
    ensures var instrs := if b in blocks then blocks[b] else [];
            Placed(done + [x], blocks[b := instrs + [x]], home[x.address := b])
  {
    hide HasOnce;
    var instrs := if b in blocks then blocks[b] else [];
    var blocks', home' := blocks[b := instrs + [x]], home[x.address := b];
    InLonger(done, x);
    InLonger(instrs, x);
    assert x !in instrs;
    OnceInLonger(instrs, x);
    assert forall y :: y in done ==> y.address in home;
    forall a | a in home'
      ensures exists y :: y in done + [x] && y.address == a
    {
      if a in home {
        var y :| y in done && y.address == a;
        assert y in done + [x];
      } else {
        assert x in done + [x];
      }
    }
  }

  /** A block starts with an instruction that has been placed in it. */
  lemma BlockStartPlaced(done: seq<Instr>, blocks: Blocks, home: map<nat, nat>, targets: set<nat>, a: nat)
    requires Placed(done, blocks, home) && AllBlocks(blocks, targets)
    ensures a in blocks ==> a in home
  {
    if a in blocks {
      assert IsBlock(a, blocks[a], targets) && blocks[a][0] in blocks[a];
    }
  }

  lemma LonelyBlock(blocks: Blocks, active: map<nat, nat>, targets: set<nat>, x: Instr)
    requires AllBlocks(blocks, targets) && ActiveOk(active, blocks) && x.address !in blocks
    ensures AllBlocks(blocks[x.address := [x]], targets) && ActiveOk(active - {x.address}, blocks[x.address := [x]])
  {
    assert IsBlock(x.address, [x], targets);
  }

  lemma LongerBlock(blocks: Blocks, active: map<nat, nat>, targets: set<nat>, x: Instr)
    requires AllBlocks(blocks, targets) && ActiveOk(active, blocks) && x.address in active && x.address !in targets
    ensures var b := active[x.address];
            && AllBlocks(blocks[b := blocks[b] + [x]], targets)
            && ActiveOk(active - {x.address}, blocks[b := blocks[b] + [x]])
  {
    var b := active[x.address];
    var instrs := blocks[b];
    var longer := instrs + [x];
    assert IsBlock(b, instrs, targets);
    forall k | 0 <= k < |longer| - 1
      ensures GoesOn(longer, k, targets)
    {
      if k < |instrs| - 1 {
        assert GoesOn(instrs, k, targets) && longer[k] == instrs[k] && longer[k + 1] == instrs[k + 1];
      } else {
        assert longer[k] == Last(instrs);
      }
    }
  }

  lemma OnceInLonger(instrs: seq<Instr>, x: Instr)
    requires x !in instrs
    ensures HasOnce(instrs + [x], x)
    ensures forall y :: HasOnce(instrs, y) ==> HasOnce(instrs + [x], y)
  {
    var all := instrs + [x];
    assert all[|instrs|] == x;
    forall y | HasOnce(instrs, y)
      ensures HasOnce(all, y)
    {
      forall i, j | 0 <= i < j < |all|
        ensures !(all[i] == y && all[j] == y)
      {
        assert all[i] == instrs[i];
        assert j < |instrs| ==> all[j] == instrs[j];
      }
    }
  }

  /** The block that an instruction has been put into waits for what follows, unless another one does. */
  lemma WaitsForNext(blocks: Blocks, active: map<nat, nat>, x: Instr, b: nat)
    requires ActiveOk(active, blocks)
    requires b in blocks && blocks[b] != [] && Last(blocks[b]) == x && x.mayFallThrough
    ensures ActiveOk(if x.next in active then active else active[x.next := b], blocks)
  {
  }

  datatype BlockSoupResults = BlockSoupResults(blocks: Blocks, edges: seq<SoupEdge>, calledAddresses: map<nat, nat>)

  ghost predicate IsTarget(edges: seq<SoupEdge>, a: nat) {
    exists e :: e in edges && !e.kind.Call? && e.to == a
  }

  /** How many of the edges are calls of the address. */
  ghost function Calls(edges: seq<SoupEdge>, a: nat): nat {
    if edges == [] then 0
    else
      var e := edges[|edges| - 1];
      Calls(edges[..|edges| - 1], a) + if e.kind.Call? && e.to == a then 1 else 0
  }

  lemma NoEdges()
    ensures forall a :: !IsTarget([], a) && Calls([], a) == 0
  {
  }

  lemma OneMoreEdge(edges: seq<SoupEdge>, e: SoupEdge)
    ensures forall a :: Calls(edges + [e], a) == Calls(edges, a) + if e.kind.Call? && e.to == a then 1 else 0
    ensures forall a :: IsTarget(edges + [e], a) <==> IsTarget(edges, a) || (!e.kind.Call? && e.to == a)
  {
    assert (edges + [e])[..|edges|] == edges;
    assert forall x :: x in edges + [e] <==> x in edges || x == e;
  }

  /** Where control goes to otherwise than by a call, and how often each address is called. */
  method CollectTargets(edges: seq<SoupEdge>) returns (targets: set<nat>, called: map<nat, nat>)
    ensures forall a :: a in targets <==> IsTarget(edges, a)
    ensures forall a :: a in called <==> Calls(edges, a) > 0
    ensures forall a :: a in called ==> called[a] == Calls(edges, a)
  {
    hide IsTarget;
    targets, called := {}, map[];
    NoEdges();
    for i := 0 to |edges|
      invariant forall a :: a in targets <==> IsTarget(edges[..i], a)
      invariant forall a :: a in called <==> Calls(edges[..i], a) > 0
      invariant forall a :: a in called ==> called[a] == Calls(edges[..i], a)
    {
      var edge := edges[i];
      assert edges[..i + 1] == edges[..i] + [edge];
      OneMoreEdge(edges[..i], edge);
      if !edge.kind.Call? {
        targets := targets + {edge.to};
      } else {
        var count := if edge.to in called then called[edge.to] else 0;
        called := called[edge.to := count + 1];
      }
    }
    assert edges[..|edges|] == edges;
  }

  predicate IsKnown(instrs: seq<Instr>, a: nat) {
    exists x :: x in instrs && x.address == a
  }

  /** Both ends of every edge are instructions. */
  ghost predicate AllKnown(instrs: seq<Instr>, edges: seq<SoupEdge>) {
    forall e :: e in edges ==> IsKnown(instrs, e.from) && IsKnown(instrs, e.to)
  }

  /** The blocks, or nothing if an end of some edge is not found among the instructions. */
  method BuildBlocks(instrs: seq<Instr>, edges: seq<SoupEdge>) returns (r: Option<BlockSoupResults>)
    requires Distinct(instrs)
    ensures r.Some? <==> AllKnown(instrs, edges)
    ensures r.Some? ==>
              exists home: map<nat, nat> ::
                Placed(instrs, r.value.blocks, home) && EdgesJoin(edges, r.value.edges, r.value.blocks, home)
    ensures r.Some? ==>
              exists targets: set<nat> ::
                AllBlocks(r.value.blocks, targets) && forall a :: a in targets <==> IsTarget(edges, a)
    ensures r.Some? ==>
              forall a :: (a in r.value.calledAddresses <==> Calls(edges, a) > 0)
                          && (a in r.value.calledAddresses ==> r.value.calledAddresses[a] == Calls(edges, a))
  {
    hide Placed, AllBlocks, ActiveOk, EdgesJoin, AllKnown, IsTarget, Calls;
    var destAddress, calledAddresses := CollectTargets(edges);
    var result: Blocks, active: map<nat, nat>, instrBlocks: map<nat, nat> := map[], map[], map[];
    NothingYet(destAddress);
    for i := 0 to |instrs|
      invariant Forming(instrs[..i], result, instrBlocks, active, destAddress)
    {
      var x := instrs[i];
      assert instrs[..i + 1] == instrs[..i] + [x];
      IsNew(instrs, i, result, instrBlocks);
      result, instrBlocks, active := Place(x, result, instrBlocks, active, destAddress, instrs[..i]);
    }
    assert instrs[..|instrs|] == instrs;
    var blockEdges := JoinBlocks(edges, instrs, result, instrBlocks);
    if blockEdges.None? {
      return None;
    }
    r := Some(BlockSoupResults(result, blockEdges.value, calledAddresses));
    assert Placed(instrs, r.value.blocks, instrBlocks) && EdgesJoin(edges, r.value.edges, r.value.blocks, instrBlocks);
    assert AllBlocks(r.value.blocks, destAddress) && forall a :: a in destAddress <==> IsTarget(edges, a);
  }

  lemma NothingYet(targets: set<nat>)
    ensures Forming([], map[], map[], map[], targets)
  {
  }

  lemma IsNew(instrs: seq<Instr>, i: nat, blocks: Blocks, home: map<nat, nat>)
    requires Distinct(instrs) && i < |instrs| && Placed(instrs[..i], blocks, home)
    ensures instrs[i].address !in home
  {
  }

  lemma WaitingBlock(active: map<nat, nat>, blocks: Blocks, a: nat)
    requires ActiveOk(active, blocks) && a in active
    ensures active[a] in blocks
  {
  }

  method Place(x: Instr, blocks0: Blocks, home0: map<nat, nat>, active0: map<nat, nat>, targets: set<nat>, ghost done: seq<Instr>)
    returns (blocks: Blocks, home: map<nat, nat>, active: map<nat, nat>)
    requires Forming(done, blocks0, home0, active0, targets) && x.address !in home0
    ensures Forming(done + [x], blocks, home, active, targets)
  {
    hide Placed, AllBlocks, IsBlock, ActiveOk;
    BlockStartPlaced(done, blocks0, home0, targets, x.address);
    var addr := x.address;
    var isBlockStart := addr in targets;
    var block := addr;
    blocks := blocks0;
    active := active0 - {addr};
    if addr in active0 && !isBlockStart {
      LongerBlock(blocks0, active0, targets, x);
      WaitingBlock(active0, blocks0, addr);
      block := active0[addr];
      PlacedOneMore(done, blocks0, home0, x, block);
      blocks := blocks[block := blocks[block] + [x]];
    } else {
      LonelyBlock(blocks0, active0, targets, x);
      PlacedOneMore(done, blocks0, home0, x, addr);
      assert [] + [x] == [x];
      blocks := blocks[addr := [x]];
    }
    home := home0[addr := block];
    if x.mayFallThrough {
      WaitsForNext(blocks, active, x, block);
      if x.next !in active {
        active := active[x.next := block];
      }
    }
  }

  /** Every edge between instructions becomes one between the blocks that they are in. */
  ghost predicate EdgesJoin(edges: seq<SoupEdge>, joined: seq<SoupEdge>, blocks: Blocks, home: map<nat, nat>) {
    && |joined| == |edges|
    && forall i :: 0 <= i < |edges| ==>
         && edges[i].from in home && edges[i].to in home
         && joined[i] == SoupEdge(edges[i].kind, home[edges[i].from], home[edges[i].to])
         && joined[i].from in blocks && joined[i].to in blocks
  }

  lemma HasHome(instrs: seq<Instr>, blocks: Blocks, home: map<nat, nat>, a: nat)
    requires Placed(instrs, blocks, home)
    ensures a in home <==> IsKnown(instrs, a)
    ensures a in home ==> home[a] in blocks
  {
  }

  method JoinBlocks(edges: seq<SoupEdge>, instrs: seq<Instr>, blocks: Blocks, home: map<nat, nat>)
    returns (joined: Option<seq<SoupEdge>>)
    requires Placed(instrs, blocks, home)
    ensures joined.Some? <==> AllKnown(instrs, edges)
    ensures joined.Some? ==> EdgesJoin(edges, joined.value, blocks, home)
  {
    hide Placed;
    var blockEdges := [];
    for i := 0 to |edges|
      invariant EdgesJoin(edges[..i], blockEdges, blocks, home) && AllKnown(instrs, edges[..i])
    {
      var e := edges[i];
      assert e in edges;
      HasHome(instrs, blocks, home, e.from);
      HasHome(instrs, blocks, home, e.to);
      if e.from !in home || e.to !in home {
        return None;
      }
      assert forall x :: x in edges[..i + 1] <==> x in edges[..i] || x == e;
      blockEdges := blockEdges + [SoupEdge(e.kind, home[e.from], home[e.to])];
    }
    assert edges[..|edges|] == edges;
    joined := Some(blockEdges);
  }
}
