/** The new block has been cut down until no other block has its end. */
module SplitNew {
  import opened BlockGraphs
  import opened BlockSplits
  import opened SplitResults

  ghost predicate NewDone(c: Code, g0: Graph, g: Graph, xj: nat, cuts: seq<nat>) {
    && EndShared(c, g0, xj) && Cutting(c, g0, g, xj, cuts) && cuts != []
    && Last(g.blocks[xj]) !in g.ends
  }

  lemma NewApart(c: Code, g0: Graph, g: Graph, xj: nat, cuts: seq<nat>)
    requires NewDone(c, g0, g, xj, cuts)
    ensures Apart(g, {})
    ensures forall z :: z in g.blocks && z != xj ==> z !in g.blocks[xj].instrs
  {
    hide EndsOk, EdgesOk, IsStraight, IsChain, Glued, Stacked;
    forall z, a | z in g.blocks && z != xj && a in g.blocks[xj].instrs
      ensures a !in g.blocks[z].instrs
    {
      var k :| 0 <= k < |g.blocks[xj].instrs| && g.blocks[xj].instrs[k] == a;
      NewIsApart(c, g0, g, xj, cuts, k, z);
    }
    forall z | z in g.blocks && z != xj
      ensures z !in g.blocks[xj].instrs
    {
      BlockAt(c, g0, z);
      assert z in g.blocks[z].instrs;
    }
  }

  lemma NewBlocksOk(c: Code, g0: Graph, g: Graph, xj: nat, cuts: seq<nat>)
    requires NewDone(c, g0, g, xj, cuts)
    ensures BlocksOk(c, g)
  {
    hide IsBlock, EndsOk, EdgesOk, Apart, Glued, Stacked, CutEdges;
    LastCutKnown(c, g0, cuts, xj, Last(g0.blocks[xj]));
    NotEmpty(c, g.blocks[xj]);
    forall x | x in g.blocks
      ensures g.blocks[x].address == x && IsBlock(c, g.blocks[x])
      ensures g.blocks[x].instrs != [] && Leaves(c, g, g.blocks[x])
    {
      BlockAt(c, g0, x);
    }
  }

  lemma LastCutKnown(c: Code, g: Graph, cuts: seq<nat>, xj: nat, last: nat)
    requires Stacked(c, g, cuts, xj, last) && cuts != []
    ensures cuts[|cuts| - 1] in g.blocks
  {
  }

  lemma NotEmpty(c: Code, b: Block)
    requires IsBlock(c, b)
    ensures b.instrs != [] && b.address == b.instrs[0] && b.address in b.instrs
  {
  }

  lemma NewEndsOk(c: Code, g0: Graph, g: Graph, xj: nat, cuts: seq<nat>)
    requires NewDone(c, g0, g, xj, cuts)
    ensures EndsOk(EndRegistered(g, Last(g.blocks[xj]), xj), {}) && !StartsInside(g0, xj)
  {
    hide EdgesOk, BlocksOk, IsBlock, Apart, Glued, Stacked, CutEdges;
    NotEmpty(c, g.blocks[xj]);
    var g' := EndRegistered(g, Last(g.blocks[xj]), xj);
    forall x | x in g'.blocks
      ensures EndNamed(g', x)
    {
      assert x != xj ==> EndNamed(g0, x);
    }
    forall y | y in g'.ends
      ensures EndOk(g', y, {})
    {
      assert y != Last(g.blocks[xj]) ==> EndOk(g0, y, {xj});
    }
    forall z | z in g0.blocks && z != xj
      ensures xj !in g0.blocks[z].instrs
    {
      NewIsApart(c, g0, g, xj, cuts, 0, z);
    }
  }

  lemma NewEdgesOk(c: Code, g0: Graph, g: Graph, xj: nat, cuts: seq<nat>)
    requires NewDone(c, g0, g, xj, cuts)
    ensures EdgesOk(c, g, {}) <==> AtMostOneInnerStart(g0, xj)
  {
    hide EndsOk, BlocksOk, IsBlock, Glued, Stacked, AtMostOneInnerStart, Apart;
    NewApart(c, g0, g, xj, cuts);
    AtMostOneCut(c, g0, g, xj, cuts);
    NewBlockEdges(c, g0, g, xj, cuts);
    NotEmpty(c, g.blocks[xj]);
    forall x | x in g.blocks && x != xj
      ensures g.blocks[x].instrs != [] && EdgesOf(c, g, x)
    {
      assert EdgesOf(c, g0, x);
    }
  }

  lemma NewWithin(c: Code, g0: Graph, g: Graph, xj: nat, cuts: seq<nat>)
    requires NewDone(c, g0, g, xj, cuts)
    ensures Within(c, g0, g)
    ensures forall a :: Covers(g, a) ==> Covers(g0, a)
  {
    hide EndsOk, BlocksOk, IsBlock, Glued, Apart, CutEdges;
    NewCovers(c, g0, g, xj, cuts);
    forall x | x in g0.blocks
      ensures g0.blocks[x].instrs != [] && ImplicitFlowKept(c, g0, g, x)
    {
      BlockAt(c, g0, x);
      if x == xj {
        NewFalls(c, g0, g, xj, cuts);
        assert FallsTo(c, g, xj, Last(g0.blocks[xj]), |cuts|);
      } else {
        assert FallsTo(c, g, x, Last(g0.blocks[x]), 0);
      }
    }
    forall x, e | x in g0.blocks && x in g0.edges && e in g0.edges[x]
      ensures ExplicitFlowKept(g0, g, x, e)
    {
      assert HasEdge(g, Edge(e.kind, x, e.target));
    }
  }

  lemma CutIsAsKnown(c: Code, g0: Graph, g: Graph, xj: nat, cuts: seq<nat>, j: nat)
    requires NewDone(c, g0, g, xj, cuts) && j < |cuts|
    ensures cuts[j] in g.blocks && cuts[j] in g0.blocks && g.blocks[cuts[j]] == g0.blocks[cuts[j]]
    ensures g.blocks[cuts[j]].instrs != [] && EdgesOf(c, g, cuts[j])
  {
    hide EndShared, Glued, CutEdges, IsBlock;
    KnownEdges(c, g0, xj, cuts[j]);
  }

  lemma NewFalls(c: Code, g0: Graph, g: Graph, xj: nat, cuts: seq<nat>)
    requires NewDone(c, g0, g, xj, cuts)
    ensures FallsTo(c, g, xj, Last(g0.blocks[xj]), |cuts|)
  {
    hide EndShared, Glued, CutEdges, IsStraight, IsChain, EdgesOf, StackedAt;
    forall j | 0 <= j < |cuts|
      ensures cuts[j] in g.blocks && cuts[j] in g0.blocks && g.blocks[cuts[j]] == g0.blocks[cuts[j]]
      ensures g.blocks[cuts[j]].instrs != [] && EdgesOf(c, g, cuts[j])
    {
      CutIsAsKnown(c, g0, g, xj, cuts, j);
    }
    StackedIn(c, g0, g, cuts, xj, Last(g0.blocks[xj]));
    FallsThroughCuts(c, g, cuts, xj, Last(g0.blocks[xj]), |cuts| - 1);
    NewBlockHasEdge(c, g0, g, xj, cuts);
  }

  lemma NewCovers(c: Code, g0: Graph, g: Graph, xj: nat, cuts: seq<nat>)
    requires NewDone(c, g0, g, xj, cuts)
    ensures forall a :: Covers(g, a) <==> Covers(g0, a)
  {
    hide EndShared, IsBlock, Glued, CutEdges;
    forall a: nat
      ensures Covers(g, a) <==> Covers(g0, a)
    {
      NewBlockParts(c, g0, g, xj, cuts, a);
      if Covers(g, a) {
        var x :| x in g.blocks && a in g.blocks[x].instrs;
        assert x in g0.blocks && a in g0.blocks[x].instrs;
      }
      if Covers(g0, a) {
        var x :| x in g0.blocks && a in g0.blocks[x].instrs;
        if x == xj && a !in g.blocks[xj].instrs {
          var k :| 0 <= k < |cuts| && a in g0.blocks[cuts[k]].instrs;
          assert a in g.blocks[cuts[k]].instrs;
        }
      }
    }
  }

  /** The end of the new block is registered: the graph is reconciled. */
  lemma NewReconciled(c: Code, g0: Graph, g: Graph, xj: nat, cuts: seq<nat>)
    requires NewDone(c, g0, g, xj, cuts)
    ensures Reconciled(c, g0, EndRegistered(g, Last(g.blocks[xj]), xj), xj)
  {
    hide EndShared, Cutting, Covers, StartsInside, AtMostOneInnerStart, EndsOk;
    KeysKept(c, g0, g, xj, cuts);
    NewApart(c, g0, g, xj, cuts);
    NewBlocksOk(c, g0, g, xj, cuts);
    NewEndsOk(c, g0, g, xj, cuts);
    NewEdgesOk(c, g0, g, xj, cuts);
    NewWithin(c, g0, g, xj, cuts);
    SameBlocks(c, g0, g, EndRegistered(g, Last(g.blocks[xj]), xj));
  }

  lemma KeysKept(c: Code, g0: Graph, g: Graph, xj: nat, cuts: seq<nat>)
    requires Cutting(c, g0, g, xj, cuts)
    ensures g.blocks.Keys == g0.blocks.Keys && xj in g.blocks && g.blocks[xj].instrs != []
  {
  }

  /** Only the table of ends is told of an end. */
  lemma SameBlocks(c: Code, g0: Graph, g: Graph, g': Graph)
    requires g'.blocks == g.blocks && g'.edges == g.edges
    requires BlocksOk(c, g) && Apart(g, {}) && Within(c, g0, g)
    ensures BlocksOk(c, g') && Apart(g', {}) && Within(c, g0, g')
    ensures EdgesOk(c, g', {}) <==> EdgesOk(c, g, {})
    ensures forall a :: Covers(g', a) <==> Covers(g, a)
  {
    hide IsBlock;
    forall x | x in g.blocks
      ensures g.blocks[x].instrs != [] && Leaves(c, g', g.blocks[x])
    {
      BlockAt(c, g, x);
    }
    forall a
      ensures Covers(g', a) <==> Covers(g, a)
    {
    }
    forall x: nat, last: nat, n: nat
      ensures FallsTo(c, g', x, last, n) <==> FallsTo(c, g, x, last, n)
    {
      SameFalls(c, g, g', x, last, n);
    }
  }

  lemma {:induction false} SameFalls(c: Code, g: Graph, g': Graph, x: nat, last: nat, n: nat)
    requires g'.blocks == g.blocks && g'.edges == g.edges
    ensures FallsTo(c, g', x, last, n) <==> FallsTo(c, g, x, last, n)
    decreases n
  {
    if n > 0 && x in g.blocks && g.blocks[x].instrs != [] {
      SameFalls(c, g, g', Last(g.blocks[x]) + c.len, last, n - 1);
    }
  }
}
