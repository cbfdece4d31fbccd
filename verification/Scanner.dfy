/**
 The part of the scanner that registers what the workers find in the shared control flow graph.
 The concurrent dictionaries are fields that its methods reassign.
 */
module Scanners {
  import opened BlockGraphs
  import opened BlockSplits
  import opened SplitResults
  import opened SplitNew
  import opened SplitOld
  import opened BlockAdditions

  /** The longest common tails of two sequences of instructions. */
  method FindCommonInstructions(aInstrs: seq<nat>, bInstrs: seq<nat>) returns (i: nat, j: nat)
    ensures CommonTail(aInstrs, bInstrs, i, j)
  {
    var a, b := |aInstrs| - 1, |bInstrs| - 1;
    while a >= 0 && b >= 0
      invariant -1 <= a < |aInstrs| && -1 <= b < |bInstrs|
      invariant aInstrs[a + 1..] == bInstrs[b + 1..]
    {
      if aInstrs[a] != bInstrs[b] {
        break;
      }
      a, b := a - 1, b - 1;
    }
    return a + 1, b + 1;
  }

  class Scanner {
    const len: nat
    ghost const transfers: iset<nat>
    var B: map<nat, Block>
    var E: map<nat, seq<Edge>>
    var BlockEnds: map<nat, nat>

    ghost function TheCode(): Code {
      Code(len, transfers)
    }

    ghost function Cfg(): Graph
      reads this
    {
      Graph(B, E, BlockEnds)
    }

    method TryRegisterBlockEnd(blockStart: nat, addrEnd: nat) returns (first: bool)
      modifies this`BlockEnds
      ensures first <==> addrEnd !in old(BlockEnds)
      ensures BlockEnds == if first then old(BlockEnds)[addrEnd := blockStart] else old(BlockEnds)
    {
      first := addrEnd !in BlockEnds;
      if first {
        BlockEnds := BlockEnds[addrEnd := blockStart];
      }
    }

    method RegisterEdge(e: Edge)
      modifies this`E
      ensures E == AddEdge(old(E), e)
    {
      if e.source !in E {
        E := E[e.source := []];
      }
      E := E[e.source := E[e.source] + [e]];
    }

    method StealEdges(xi: nat, xj: nat)
      modifies this`E
      ensures E == Stolen(old(E), xi, xj)
    {
      if xi in E {
        var edges := E[xi];
        E := E - {xi};
        var newEdges := Moved(edges, xj);
        if xj !in E {
          E := E[xj := newEdges];
        }
      }
    }

    /** A new block from the instructions `iStart` up to `iEnd` of a block. */
    method Chop(block: Block, iStart: nat, iEnd: nat) returns (r: Block)
      requires iStart < iEnd <= |block.instrs|
      requires block.instrs[iStart] <= block.instrs[iEnd - 1]
      ensures r.instrs == block.instrs[iStart..iEnd]
      ensures r.address == block.instrs[iStart] && r.size == block.instrs[iEnd - 1] - r.address + len
    {
      var instrs := block.instrs[iStart..iEnd];
      var addr := instrs[0];
      var instrLast := instrs[|instrs| - 1];
      r := Block(addr, (instrLast - addr) + len, instrs);
    }

    /** The new block `Bj` runs into `Bi`: it is cut down, and falls through into `Bi` instead. */
    method ChopNew(ghost g0: Graph, ghost cuts: seq<nat>, Bj: Block, xi: nat, j: nat) returns (newJ: Block, first: bool)
      requires EndShared(TheCode(), g0, Bj.address) && Cutting(TheCode(), g0, Cfg(), Bj.address, cuts)
      requires B[Bj.address] == Bj && xi in B && xi != Bj.address && 0 < j < |Bj.instrs|
      requires Bj.instrs == Bj.instrs[..j] + B[xi].instrs
      modifies this
      ensures newJ.address == Bj.address && newJ.instrs == Bj.instrs[..j]
      ensures first ==> Reconciled(TheCode(), g0, Cfg(), Bj.address)
      ensures !first ==> Cutting(TheCode(), g0, Cfg(), Bj.address, cuts + [xi]) && B[Bj.address] == newJ
      ensures !first ==> Last(newJ) in BlockEnds
    {
      hide EndShared, Reconciled, IsBlock, Glued, Stacked, CutEdges;
      ghost var c, g := TheCode(), Cfg();
      LengthOk(c, g0) by { KnownParts(c, g0, Bj.address); }
      ChainOf(c, Bj);
      newJ := Chop(Bj, 0, j);
      CutOneMore(c, g0, g, Bj.address, cuts, xi, newJ) by { NewHasNoEdges(c, g0, Bj.address); }
      B := B[Bj.address := newJ];
      RegisterEdge(Edge(DirectJump, Bj.address, xi));
      assert Cfg() == CutNew(g, Bj.address, newJ, xi);
      var addrLast := newJ.instrs[|newJ.instrs| - 1];
      ghost var g' := Cfg();
      first := TryRegisterBlockEnd(Bj.address, addrLast);
      if first {
        assert Cfg() == EndRegistered(g', addrLast, Bj.address);
        NewReconciled(c, g0, g', Bj.address, cuts + [xi]);
      }
    }

    /** The known block `xi` runs into the new one: it is cut in two. */
    method ChopOld(ghost g0: Graph, ghost cuts: seq<nat>, Bj: Block, xi: nat, i: nat)
      requires EndShared(TheCode(), g0, Bj.address) && Cutting(TheCode(), g0, Cfg(), Bj.address, cuts)
      requires B[Bj.address] == Bj && xi in B && xi != Bj.address && 0 < i < |B[xi].instrs|
      requires B[xi].instrs == B[xi].instrs[..i] + Bj.instrs
      modifies this
      ensures Reconciled(TheCode(), g0, Cfg(), Bj.address)
    {
      hide EndShared, Reconciled, IsBlock, Glued, Stacked, CutEdges;
      ghost var c, g := TheCode(), Cfg();
      var Bi := B[xi];
      BlockAt(c, g0, xi) by { KnownParts(c, g0, Bj.address); }
      LengthOk(c, g0) by { KnownParts(c, g0, Bj.address); }
      ChainOf(c, Bi);
      var newI := Chop(Bi, 0, i);
      ChoppedEndIsNew(c, g0, g, Bj.address, cuts, xi, newI);
      OldReconciled(c, g0, g, Bj.address, cuts, xi, newI);
      B := B[xi := newI];
      StealEdges(xi, Bj.address);
      RegisterEdge(Edge(DirectJump, xi, Bj.address));
      var addrLast := newI.instrs[|newI.instrs| - 1];
      var first := TryRegisterBlockEnd(xi, addrLast);
      if !first {
        // no other block has its last instruction inside this one
        assert false;
      }
      assert Cfg() == EndRegistered(CutOld(g, xi, newI, Bj.address), addrLast, xi);
    }

    lemma ChainOf(c: Code, b: Block)
      requires c.len > 0 && IsBlock(c, b)
      ensures b.address == b.instrs[0]
      ensures forall k :: 0 <= k < |b.instrs| ==> b.instrs[0] <= b.instrs[k]
    {
      ChainIncreases(c.len, b.instrs);
    }

    lemma NewHasNoEdges(c: Code, g: Graph, xj: nat)
      requires EndShared(c, g, xj)
      ensures xj !in g.edges && BlocksOk(c, g)
    {
    }

    /** At the head of the loop: `Bj` is still to be reconciled with the block known to end at `y`. */
    ghost predicate AtHead(g0: Graph, cuts: seq<nat>, xj: nat, Bj: Block, y: nat)
      reads this
    {
      && EndShared(TheCode(), g0, xj) && Cutting(TheCode(), g0, Cfg(), xj, cuts)
      && Bj.address == xj && B[xj] == Bj && Bj.instrs != [] && y == Last(Bj) && y in BlockEnds
    }

    /** The block known to end at `y` and the new one: one is the tail of the other. */
    lemma EndsMeet(g0: Graph, cuts: seq<nat>, xj: nat, Bj: Block, y: nat, i: nat, j: nat)
      requires AtHead(g0, cuts, xj, Bj, y)
      requires BlockEnds[y] in B ==> CommonTail(B[BlockEnds[y]].instrs, Bj.instrs, i, j)
      ensures var xi := BlockEnds[y];
              && xi in B && xi != xj && B[xi].instrs != []
              && i < |B[xi].instrs| && j < |Bj.instrs| && (i == 0 || j == 0)
              && (i == 0 ==> j > 0 && xj < xi && Bj.instrs == Bj.instrs[..j] + B[xi].instrs)
              && (j == 0 ==> i > 0 && xi < xj && B[xi].instrs == B[xi].instrs[..i] + Bj.instrs)
    {
      hide EdgesOk, EndsOk, BlocksOk, Apart, Glued, Stacked, CutEdges, IsChain, IsStraight, CommonTail;
      var c, xi := TheCode(), BlockEnds[y];
      EndIsInBlock(g0, xj, y);
      BlockAt(c, g0, xi);
      LengthOk(c, g0);
      TailOrder(c, B[xi].instrs, Bj.instrs, i, j);
    }

    /**
     Splits blocks until the new block `block`, whose last instruction `addrEnd` is the end of
     another block already, shares no instruction with any block.
     */
    method SplitBlock(block: Block, addrEnd: nat)
      requires EndShared(TheCode(), Cfg(), block.address)
      requires B[block.address] == block && addrEnd == Last(block)
      modifies this
      ensures Reconciled(TheCode(), old(Cfg()), Cfg(), block.address)
    {
      hide EndShared, Reconciled, Cutting;
      ghost var g0 := Cfg();
      ghost var cuts: seq<nat> := [];
      NothingCut(TheCode(), g0, block.address);
      SharedParts(block);
      var wl := [(block, addrEnd)];
      while wl != []
        invariant |wl| <= 1
        invariant wl == [] ==> Reconciled(TheCode(), g0, Cfg(), block.address)
        invariant wl != [] ==> AtHead(g0, cuts, block.address, wl[0].0, wl[0].1)
        decreases |wl|, if wl == [] then 0 else |wl[0].0.instrs|
      {
        var (Bj, y) := wl[0];
        wl := wl[1..];
        var xi := BlockEnds[y];
        var xj := Bj.address;
        EndsMeetAt(g0, cuts, xj, Bj, y);
        if xi == xj {
          // the end is not registered for the block itself
          assert false;
        }
        var Bi := B[xi];
        var i, j := FindCommonInstructions(Bi.instrs, Bj.instrs);
        EndsMeet(g0, cuts, xj, Bj, y, i, j);
        if i != 0 && j != 0 {
          // instructions of one length that end together start together
          assert false;
        } else if xj < xi {
          var newJ, first := ChopNew(g0, cuts, Bj, xi, j);
          cuts := cuts + [xi];
          if !first {
            wl := wl + [(newJ, newJ.instrs[|newJ.instrs| - 1])];
          }
        } else {
          ChopOld(g0, cuts, Bj, xi, i);
        }
      }
    }

    lemma EndsMeetAt(g0: Graph, cuts: seq<nat>, xj: nat, Bj: Block, y: nat)
      requires AtHead(g0, cuts, xj, Bj, y)
      ensures y in BlockEnds && BlockEnds[y] in B && BlockEnds[y] != xj
    {
      EndIsInBlock(g0, xj, y);
    }

    lemma SharedParts(block: Block)
      requires EndShared(TheCode(), Cfg(), block.address) && B[block.address] == block
      ensures block.instrs != [] && Last(block) in BlockEnds
    {
    }

    /** A traced block, unless a block with that start is known: then another worker was faster. */
    method TryRegisterBlock(block: Block) returns (added: bool)
      modifies this`B
      ensures added <==> block.address !in old(B)
      ensures B == if added then old(B)[block.address := block] else old(B)
    {
      added := block.address !in B;
      if added {
        B := B[block.address := block];
      }
    }

    /**
     A worker has traced a new block and registers it. If it is the first to come to the block's
     end it creates the out-edges, otherwise the blocks are split. All that was known is kept; the
     graph stays in order exactly if the end is new, or the block does not start inside a known
     one and at most one known block starts inside it.
     */
    method RegisterBlockEnd(block: Block, edges: seq<Edge>)
      requires Valid(TheCode(), Cfg()) && block.address !in B
      requires IsBlock(TheCode(), block) && Last(block) in transfers
      requires forall k :: 0 <= k < |edges| ==> edges[k].source == block.address
      modifies this
      ensures BlocksOk(TheCode(), Cfg()) && Apart(Cfg(), {}) && Within(TheCode(), old(Cfg()), Cfg())
      ensures B.Keys == old(B.Keys) + {block.address}
      ensures forall a :: Covers(Cfg(), a) <==> Covers(old(Cfg()), a) || a in block.instrs
      ensures Valid(TheCode(), Cfg()) <==>
                Last(block) !in old(BlockEnds)
                || (!StartsInside(WithBlock(old(Cfg()), block), block.address)
                    && AtMostOneInnerStart(WithBlock(old(Cfg()), block), block.address))
    {
      hide Valid, IsBlock, IsStraight, IsChain, Covers, StartsInside, AtMostOneInnerStart, Within, Apart, BlocksOk, EndsOk, EdgesOk;
      ghost var c, g := TheCode(), Cfg();
      ghost var g1 := WithBlock(g, block);
      NotEmpty(c, block);
      var added := TryRegisterBlock(block);
      assert Cfg() == g1;
      var addrEnd := block.instrs[|block.instrs| - 1];
      AddedCovers(g, block);
      if addrEnd in BlockEnds {
        SharedEnd(c, g, block);
      }
      var first := TryRegisterBlockEnd(block.address, addrEnd);
      if !first {
        SplitBlock(block, addrEnd);
        SplitIsValid(g1, block.address);
        WithinAdded(c, g, block, Cfg());
      } else {
        ghost var g2 := Cfg();
        assert g2 == EndRegistered(g1, addrEnd, block.address);
        AddedEdgesOk(c, g, block);
        for k := 0 to |edges|
          invariant B == g2.blocks && BlockEnds == g2.ends
          invariant OnlyNewEdges(g.edges, E, block.address)
        {
          RegisterEdge(edges[k]);
        }
        AddedIsValid(c, g, block, E);
        assert Cfg() == Added(g, block, E);
      }
    }

    lemma SplitIsValid(g1: Graph, xj: nat)
      requires Reconciled(TheCode(), g1, Cfg(), xj)
      ensures Valid(TheCode(), Cfg()) <==> !StartsInside(g1, xj) && AtMostOneInnerStart(g1, xj)
      ensures BlocksOk(TheCode(), Cfg()) && Apart(Cfg(), {}) && Within(TheCode(), g1, Cfg())
      ensures B.Keys == g1.blocks.Keys && forall a :: Covers(Cfg(), a) <==> Covers(g1, a)
    {
      hide BlocksOk, EdgesOk, EndsOk, Apart, StartsInside, AtMostOneInnerStart, FallsTo;
    }
  }
}
