/** The new block, or what is left of it, is the tail of a known block, which is cut in two. */
module SplitOld {
  import opened BlockGraphs
  import opened BlockSplits
  import opened SplitResults
  import opened SplitNew

  ghost predicate OldDone(c: Code, g0: Graph, g: Graph, xj: nat, cuts: seq<nat>, xi: nat, chopped: Block) {
    && EndShared(c, g0, xj) && Cutting(c, g0, g, xj, cuts)
    && xi in g.blocks && xi != xj && chopped.instrs != []
    && g.blocks[xi].instrs == chopped.instrs + g.blocks[xj].instrs
    && chopped.address == chopped.instrs[0] && chopped.size == Last(chopped) - chopped.address + c.len
  }

  /** What is known of the two parts of the block that is cut. */
  lemma OldParts(c: Code, g0: Graph, g: Graph, xj: nat, cuts: seq<nat>, xi: nat, chopped: Block)
    requires OldDone(c, g0, g, xj, cuts, xi, chopped)
    ensures IsBlock(c, chopped) && chopped.address == xi < xj == Last(chopped) + c.len
    ensures Last(chopped) !in c.transfers
    ensures forall a :: a in chopped.instrs ==> a < xj && a in g.blocks[xi].instrs
    ensures forall a :: a in g.blocks[xj].instrs ==> xj <= a && a in g.blocks[xi].instrs
    ensures forall a :: a in g.blocks[xi].instrs ==> a in chopped.instrs || a in g.blocks[xj].instrs
    ensures Last(g.blocks[xi]) == Last(g.blocks[xj]) > Last(chopped)
  {
    hide EndsOk, EdgesOk, Apart, Glued, Stacked, CutEdges;
    BlockAt(c, g0, xi);
    var s, t := chopped.instrs, g.blocks[xj].instrs;
    ChoppedIsBlock(c, g.blocks[xi], chopped, t);
    ChainIncreases(c.len, s);
    ChainIncreases(c.len, t);
    forall a | a in s
      ensures a < xj && a in s + t
    {
      assert a <= Last(chopped);
    }
  }

  /** The end of the part cut off is not registered yet. */
  lemma ChoppedEndIsNew(c: Code, g0: Graph, g: Graph, xj: nat, cuts: seq<nat>, xi: nat, chopped: Block)
    requires OldDone(c, g0, g, xj, cuts, xi, chopped)
    ensures Last(chopped) !in g.ends
  {
    hide EndsOk, EdgesOk, IsBlock, BlocksOk, Glued, Stacked, CutEdges;
    OldParts(c, g0, g, xj, cuts, xi, chopped);
    assert Last(chopped) in chopped.instrs;
    if Last(chopped) in g0.ends {
      EndIsInBlock(g0, xj, Last(chopped));
    }
  }

  lemma EndIsInBlock(g: Graph, xj: nat, y: nat)
    requires EndsOk(g, {xj}) && y in g.ends
    ensures g.ends[y] in g.blocks && g.ends[y] != xj && g.blocks[g.ends[y]].instrs != []
    ensures y in g.blocks[g.ends[y]].instrs && Last(g.blocks[g.ends[y]]) == y
  {
    assert EndOk(g, y, {xj});
  }

  lemma OldApart(c: Code, g0: Graph, g: Graph, xj: nat, cuts: seq<nat>, xi: nat, chopped: Block)
    requires OldDone(c, g0, g, xj, cuts, xi, chopped)
    ensures Apart(CutOld(g, xi, chopped, xj), {})
    ensures StartsInside(g0, xj)
    ensures forall z :: z in g.blocks && z != xj ==> z !in g.blocks[xj].instrs
  {
    hide EdgesOk, EndsOk, IsBlock, BlocksOk, Glued, Stacked, CutEdges;
    OldParts(c, g0, g, xj, cuts, xi, chopped);
    NotEmpty(c, g.blocks[xj]);
    forall z | z in g.blocks && z != xj
      ensures z in g0.blocks[z].instrs
      ensures z !in g.blocks[xj].instrs
    {
      BlockAt(c, g0, z);
    }
    assert xj in g0.blocks[xi].instrs;
  }

  lemma OldBlocksOk(c: Code, g0: Graph, g: Graph, xj: nat, cuts: seq<nat>, xi: nat, chopped: Block)
    requires OldDone(c, g0, g, xj, cuts, xi, chopped)
    ensures BlocksOk(c, CutOld(g, xi, chopped, xj))
  {
    hide EdgesOk, EndsOk, IsBlock, Apart, Glued, Stacked, CutEdges;
    OldParts(c, g0, g, xj, cuts, xi, chopped);
    NotEmpty(c, g.blocks[xj]);
    var g' := CutOld(g, xi, chopped, xj);
    forall x | x in g'.blocks
      ensures g'.blocks[x].address == x && IsBlock(c, g'.blocks[x])
      ensures g'.blocks[x].instrs != [] && Leaves(c, g', g'.blocks[x])
    {
      BlockAt(c, g0, x);
      BlockAt(c, g0, xi);
    }
  }

  /** The table of ends still has the block that was cut under its old end. */
  lemma OldEndIsStale(c: Code, g0: Graph, g: Graph, xj: nat, cuts: seq<nat>, xi: nat, chopped: Block)
    requires OldDone(c, g0, g, xj, cuts, xi, chopped)
    ensures var g' := EndRegistered(CutOld(g, xi, chopped, xj), Last(chopped), xi);
            && !EndsOk(g', {})
            && Last(g.blocks[xj]) in g'.ends && g'.ends[Last(g.blocks[xj])] == xi && g'.blocks[xi] == chopped
  {
    hide EdgesOk, IsBlock, BlocksOk, Glued, Stacked, CutEdges, Stolen, AddEdge;
    OldParts(c, g0, g, xj, cuts, xi, chopped);
    var g' := EndRegistered(CutOld(g, xi, chopped, xj), Last(chopped), xi);
    var y := Last(g.blocks[xi]);
    assert EndNamed(g0, xi);
    assert y in g'.ends && g'.ends[y] == xi;
    assert !EndOk(g', y, {});
  }

  // ---- edges ----

  /** The edges afterwards, block by block. */
  lemma OldEdgesAt(c: Code, g0: Graph, g: Graph, xj: nat, cuts: seq<nat>, xi: nat, chopped: Block)
    requires OldDone(c, g0, g, xj, cuts, xi, chopped)
    ensures var g' := CutOld(g, xi, chopped, xj);
            && xi in g'.edges && g'.edges[xi] == [Edge(DirectJump, xi, xj)]
            && (xj in g.edges ==> xj in g'.edges && g'.edges[xj] == g.edges[xj])
            && (xj !in g.edges ==> (xj in g'.edges <==> xi in g.edges)
                                   && (xi in g.edges ==> g'.edges[xj] == Moved(g.edges[xi], xj)))
            && (forall x :: x != xi && x != xj ==> (x in g'.edges <==> x in g.edges))
            && (forall x :: x != xi && x != xj && x in g'.edges ==> g'.edges[x] == g.edges[x])
  {
    hide EndShared, IsBlock, Glued, Stacked, CutEdges;
  }

  /** Before the block is cut, the new block has edges exactly if something has been cut off it. */
  lemma NewBlockKnownEdges(c: Code, g0: Graph, g: Graph, xj: nat, cuts: seq<nat>)
    requires EndShared(c, g0, xj) && Cutting(c, g0, g, xj, cuts)
    ensures xj in g.edges <==> cuts != []
    ensures xj in g.edges ==> g.edges[xj] == CutEdges(xj, cuts)
    ensures forall x :: x != xj ==> (x in g.edges <==> x in g0.edges)
    ensures forall x :: x != xj && x in g.edges ==> g.edges[x] == g0.edges[x]
    ensures cuts == [] ==> Last(g.blocks[xj]) in c.transfers
    ensures cuts != [] ==> Last(g.blocks[xj]) !in c.transfers && Last(g.blocks[xj]) + c.len == cuts[|cuts| - 1]
  {
  }

  lemma OldEdgesOk(c: Code, g0: Graph, g: Graph, xj: nat, cuts: seq<nat>, xi: nat, chopped: Block)
    requires OldDone(c, g0, g, xj, cuts, xi, chopped)
    ensures EdgesOk(c, CutOld(g, xi, chopped, xj), {}) <==> AtMostOneInnerStart(g0, xj)
  {
    hide EndsOk, BlocksOk, IsBlock, Glued, Stacked, Apart, CutEdges, AtMostOneInnerStart, AddEdge, Stolen;
    var g' := CutOld(g, xi, chopped, xj);
    OldApart(c, g0, g, xj, cuts, xi, chopped);
    OldParts(c, g0, g, xj, cuts, xi, chopped);
    OldEdgesAt(c, g0, g, xj, cuts, xi, chopped);
    NewBlockKnownEdges(c, g0, g, xj, cuts);
    AtMostOneCut(c, g0, g, xj, cuts);
    NewBlockEdges(c, g0, g, xj, cuts);
    NotEmpty(c, g.blocks[xj]);
    assert EdgesOf(c, g', xi);
    assert EdgesOf(c, g', xj) <==> |cuts| <= 1;
    forall x | x in g'.blocks && x != xi && x != xj
      ensures g'.blocks[x].instrs != [] && EdgesOf(c, g', x)
    {
      assert EdgesOf(c, g0, x);
    }
    OldEdgeSources(c, g0, g, xj, cuts, xi, chopped);
  }

  lemma OldEdgeSources(c: Code, g0: Graph, g: Graph, xj: nat, cuts: seq<nat>, xi: nat, chopped: Block)
    requires OldDone(c, g0, g, xj, cuts, xi, chopped)
    ensures var g' := CutOld(g, xi, chopped, xj);
            forall x :: x in g'.edges ==> x in g'.blocks && forall k :: 0 <= k < |g'.edges[x]| ==> g'.edges[x][k].source == x
  {
    hide EndsOk, BlocksOk, IsBlock, Glued, Stacked, Apart, AddEdge, Stolen;
    OldEdgesAt(c, g0, g, xj, cuts, xi, chopped);
    NewBlockKnownEdges(c, g0, g, xj, cuts);
  }

  // ---- nothing is lost ----

  lemma OldCovers(c: Code, g0: Graph, g: Graph, xj: nat, cuts: seq<nat>, xi: nat, chopped: Block)
    requires OldDone(c, g0, g, xj, cuts, xi, chopped)
    ensures forall a :: Covers(CutOld(g, xi, chopped, xj), a) <==> Covers(g0, a)
  {
    hide EndShared, IsBlock, Glued, CutEdges, Stacked;
    var g' := CutOld(g, xi, chopped, xj);
    OldParts(c, g0, g, xj, cuts, xi, chopped);
    forall a: nat
      ensures Covers(g', a) <==> Covers(g0, a)
    {
      NewBlockParts(c, g0, g, xj, cuts, a);
      if Covers(g', a) {
        var x :| x in g'.blocks && a in g'.blocks[x].instrs;
        assert x in g0.blocks && a in g0.blocks[x].instrs;
      }
      if Covers(g0, a) {
        var x :| x in g0.blocks && a in g0.blocks[x].instrs;
        OldCovered(c, g0, g, xj, cuts, xi, chopped, x, a);
      }
    }
  }

  lemma OldCovered(c: Code, g0: Graph, g: Graph, xj: nat, cuts: seq<nat>, xi: nat, chopped: Block, x: nat, a: nat)
    requires OldDone(c, g0, g, xj, cuts, xi, chopped) && x in g0.blocks && a in g0.blocks[x].instrs
    ensures Covers(CutOld(g, xi, chopped, xj), a)
  {
    hide EndShared, IsBlock, Glued, CutEdges;
    var g' := CutOld(g, xi, chopped, xj);
    OldParts(c, g0, g, xj, cuts, xi, chopped);
    NewBlockParts(c, g0, g, xj, cuts, a);
    var z := x;
    if x == xj && a !in g.blocks[xj].instrs {
      var k :| 0 <= k < |cuts| && a in g0.blocks[cuts[k]].instrs;
      z := cuts[k];
    }
    assert a in g.blocks[z].instrs;
    if z == xi && a !in chopped.instrs {
      assert a in g'.blocks[xj].instrs;
    } else {
      assert a in g'.blocks[z].instrs;
    }
  }

  /** The block that is cut is not one of those that have been cut off the new one. */
  lemma CutBlockNotAmongCuts(c: Code, g0: Graph, g: Graph, xj: nat, cuts: seq<nat>, xi: nat, chopped: Block)
    requires OldDone(c, g0, g, xj, cuts, xi, chopped)
    ensures xi !in cuts
  {
    hide EndShared, IsBlock, Glued, CutEdges;
    OldParts(c, g0, g, xj, cuts, xi, chopped);
  }

  lemma OldFalls(c: Code, g0: Graph, g: Graph, xj: nat, cuts: seq<nat>, xi: nat, chopped: Block)
    requires OldDone(c, g0, g, xj, cuts, xi, chopped)
    ensures FallsTo(c, CutOld(g, xi, chopped, xj), xj, Last(g0.blocks[xj]), |cuts|)
  {
    hide EndShared, IsBlock, Glued, Stacked, CutEdges, AddEdge, Stolen, Moved, FallsTo;
    LastKnown(c, g0, g, xj, cuts);
    var g', last := CutOld(g, xi, chopped, xj), Last(g0.blocks[xj]);
    if cuts == [] {
      NowhereToFall(c, g', xj, last);
    } else {
      CutsAfterwards(c, g0, g, xj, cuts, xi, chopped);
      FallsThroughCuts(c, g', cuts, xj, last, |cuts| - 1);
      FallsIntoCuts(c, g0, g, xj, cuts, xi, chopped);
    }
  }

  lemma LastKnown(c: Code, g0: Graph, g: Graph, xj: nat, cuts: seq<nat>)
    requires EndShared(c, g0, xj) && Cutting(c, g0, g, xj, cuts)
    ensures xj in g0.blocks && g0.blocks[xj].instrs != [] && xj in g.blocks && g.blocks[xj].instrs != []
    ensures cuts == [] ==> Last(g.blocks[xj]) == Last(g0.blocks[xj])
    ensures cuts != [] ==> Last(g.blocks[xj]) + c.len == cuts[|cuts| - 1]
  {
    hide Glued, Stacked, CutEdges;
  }

  lemma NowhereToFall(c: Code, g: Graph, x: nat, last: nat)
    requires x in g.blocks && g.blocks[x].instrs != [] && Last(g.blocks[x]) == last
    ensures FallsTo(c, g, x, last, 0)
  {
  }

  /** A block that has been cut off the new one is as it was, with its edges. */
  lemma CutAfterwards(c: Code, g0: Graph, g: Graph, xj: nat, cuts: seq<nat>, xi: nat, chopped: Block, j: nat)
    requires OldDone(c, g0, g, xj, cuts, xi, chopped) && j < |cuts|
    ensures var g', x := CutOld(g, xi, chopped, xj), cuts[j];
            && x in g'.blocks && x in g0.blocks && g'.blocks[x] == g0.blocks[x] && g0.blocks[x].instrs != []
            && EdgesOf(c, g', x)
  {
    hide EndShared, IsBlock, Glued, CutEdges, AddEdge, Stolen;
    OldEdgesAt(c, g0, g, xj, cuts, xi, chopped);
    NewBlockKnownEdges(c, g0, g, xj, cuts);
    CutBlockNotAmongCuts(c, g0, g, xj, cuts, xi, chopped);
    assert cuts[j] in cuts;
    KnownEdges(c, g0, xj, cuts[j]);
  }

  lemma CutsAfterwards(c: Code, g0: Graph, g: Graph, xj: nat, cuts: seq<nat>, xi: nat, chopped: Block)
    requires OldDone(c, g0, g, xj, cuts, xi, chopped)
    ensures Stacked(c, CutOld(g, xi, chopped, xj), cuts, xj, Last(g0.blocks[xj]))
    ensures forall j {:trigger cuts[j]} :: 0 <= j < |cuts| ==>
              var g' := CutOld(g, xi, chopped, xj);
              cuts[j] in g'.blocks && g'.blocks[cuts[j]].instrs != [] && EdgesOf(c, g', cuts[j])
  {
    hide EndShared, IsBlock, Glued, Stacked, CutEdges, EdgesOf;
    LastKnown(c, g0, g, xj, cuts);
    var g' := CutOld(g, xi, chopped, xj);
    forall j | 0 <= j < |cuts|
      ensures cuts[j] in g'.blocks && cuts[j] in g0.blocks && g'.blocks[cuts[j]] == g0.blocks[cuts[j]]
      ensures g'.blocks[cuts[j]].instrs != [] && EdgesOf(c, g', cuts[j])
    {
      CutAfterwards(c, g0, g, xj, cuts, xi, chopped, j);
    }
    StackedIn(c, g0, g', cuts, xj, Last(g0.blocks[xj]));
  }

  /** The new block still falls through into the block cut off it last. */
  lemma FallsIntoCuts(c: Code, g0: Graph, g: Graph, xj: nat, cuts: seq<nat>, xi: nat, chopped: Block)
    requires OldDone(c, g0, g, xj, cuts, xi, chopped) && cuts != []
    requires FallsTo(c, CutOld(g, xi, chopped, xj), cuts[|cuts| - 1], Last(g0.blocks[xj]), |cuts| - 1)
    ensures FallsTo(c, CutOld(g, xi, chopped, xj), xj, Last(g0.blocks[xj]), |cuts|)
  {
    hide EndShared, IsBlock, Glued, Stacked, CutEdges, AddEdge, Stolen;
    var g' := CutOld(g, xi, chopped, xj);
    OldEdgesAt(c, g0, g, xj, cuts, xi, chopped);
    NewBlockKnownEdges(c, g0, g, xj, cuts);
    NewBlockHasEdge(c, g0, g, xj, cuts);
    LastKnown(c, g0, g, xj, cuts);
    assert g'.blocks[xj] == g.blocks[xj] && HasEdge(g', Edge(DirectJump, xj, cuts[|cuts| - 1]));
  }

  /** The edges of the block that is cut now leave the new block. */
  lemma OldEdgeKept(c: Code, g0: Graph, g: Graph, xj: nat, cuts: seq<nat>, xi: nat, chopped: Block, e: Edge)
    requires OldDone(c, g0, g, xj, cuts, xi, chopped) && xi in g0.edges && e in g0.edges[xi]
    ensures HasEdge(CutOld(g, xi, chopped, xj), Edge(e.kind, xj, e.target))
  {
    hide EndsOk, BlocksOk, Glued, Apart, CutEdges, IsStraight, IsChain, AddEdge, Stolen;
    var g' := CutOld(g, xi, chopped, xj);
    OldEdgesAt(c, g0, g, xj, cuts, xi, chopped);
    NewBlockKnownEdges(c, g0, g, xj, cuts);
    OldParts(c, g0, g, xj, cuts, xi, chopped);
    var k :| 0 <= k < |g0.edges[xi]| && g0.edges[xi][k] == e;
    if cuts == [] {
      assert g'.edges[xj][k] == Edge(e.kind, xj, e.target);
    } else {
      assert EdgesOf(c, g0, xi);
      NewBlockHasEdge(c, g0, g, xj, cuts);
    }
  }

  lemma OldWithin(c: Code, g0: Graph, g: Graph, xj: nat, cuts: seq<nat>, xi: nat, chopped: Block)
    requires OldDone(c, g0, g, xj, cuts, xi, chopped)
    ensures Within(c, g0, CutOld(g, xi, chopped, xj))
  {
    hide EndsOk, EdgesOk, BlocksOk, IsBlock, Glued, Apart, CutEdges, AddEdge, Stolen, Covers, Stacked;
    var g' := CutOld(g, xi, chopped, xj);
    OldCovers(c, g0, g, xj, cuts, xi, chopped);
    OldParts(c, g0, g, xj, cuts, xi, chopped);
    OldEdgesAt(c, g0, g, xj, cuts, xi, chopped);
    NewBlockKnownEdges(c, g0, g, xj, cuts);
    forall x | x in g0.blocks
      ensures g0.blocks[x].instrs != [] && ImplicitFlowKept(c, g0, g', x)
    {
      BlockAt(c, g0, x);
      if x == xj {
        OldFalls(c, g0, g, xj, cuts, xi, chopped);
      } else if x == xi {
        NotEmpty(c, g.blocks[xj]);
        assert FallsTo(c, g', xj, Last(g0.blocks[xi]), 0);
        assert HasEdge(g', Edge(DirectJump, xi, xj));
        assert FallsTo(c, g', xi, Last(g0.blocks[xi]), 1);
      } else {
        assert FallsTo(c, g', x, Last(g0.blocks[x]), 0);
      }
    }
    forall x, e | x in g0.blocks && x in g0.edges && e in g0.edges[x]
      ensures ExplicitFlowKept(g0, g', x, e)
    {
      NotEmpty(c, g.blocks[xj]);
      if x == xi {
        OldEdgeKept(c, g0, g, xj, cuts, xi, chopped, e);
      } else {
        EdgeHasSource(c, g0, xj, x, e);
        assert HasEdge(g', Edge(e.kind, x, e.target));
      }
    }
  }

  lemma EdgeHasSource(c: Code, g: Graph, xj: nat, x: nat, e: Edge)
    requires EndShared(c, g, xj) && x in g.edges && e in g.edges[x]
    ensures e.source == x && x != xj && x in g.blocks
  {
  }

  /** The known block has been cut: the graph is reconciled. */
  lemma OldReconciled(c: Code, g0: Graph, g: Graph, xj: nat, cuts: seq<nat>, xi: nat, chopped: Block)
    requires OldDone(c, g0, g, xj, cuts, xi, chopped)
    ensures Reconciled(c, g0, EndRegistered(CutOld(g, xi, chopped, xj), Last(chopped), xi), xj)
  {
    hide EndShared, Covers, Cutting, StartsInside, AtMostOneInnerStart, EndsOk, EdgesOk, BlocksOk, IsBlock, Apart, Within;
    hide AddEdge, Stolen;
    var g' := CutOld(g, xi, chopped, xj);
    KeysKept(c, g0, g, xj, cuts);
    OldApart(c, g0, g, xj, cuts, xi, chopped);
    OldBlocksOk(c, g0, g, xj, cuts, xi, chopped);
    OldEndIsStale(c, g0, g, xj, cuts, xi, chopped);
    OldEdgesOk(c, g0, g, xj, cuts, xi, chopped);
    OldWithin(c, g0, g, xj, cuts, xi, chopped);
    OldCovers(c, g0, g, xj, cuts, xi, chopped);
    SameBlocks(c, g0, g', EndRegistered(g', Last(chopped), xi));
    assert g'.blocks.Keys == g.blocks.Keys;
  }
}
