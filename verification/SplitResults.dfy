/**
 What splitting comes to: the new block is left either with an end of its own, or as the tail of
 the one known block that it started in.
 */
module SplitResults {
  import opened BlockGraphs
  import opened BlockSplits

  // ---- the new block has got an end of its own ----

  function EndRegistered(g: Graph, y: nat, x: nat): Graph {
    g.(ends := g.ends[y := x])
  }

  /** An instruction in the rest of the new block and in a known one leads to a block with that end. */
  lemma {:induction false} NewIsApart(c: Code, g0: Graph, g: Graph, xj: nat, cuts: seq<nat>, k: nat, z: nat)
    requires EndShared(c, g0, xj) && Cutting(c, g0, g, xj, cuts) && cuts != []
    requires Last(g.blocks[xj]) !in g.ends
    requires z in g.blocks && z != xj && k < |g.blocks[xj].instrs|
    ensures g.blocks[xj].instrs[k] !in g.blocks[z].instrs
    decreases |g.blocks[xj].instrs| - k
  {
    hide EndShared, Glued, IsStraight, IsChain, Stacked, CutEdges;
    KnownParts(c, g0, xj);
    var b, a, s := g.blocks[xj], g.blocks[xj].instrs[k], g.blocks[z].instrs;
    if a in s {
      if k == |b.instrs| - 1 {
        NextBlockApart(c, g0, g, xj, cuts, z);
        EndIsNamed(g0, xj, z);
        assert false;
      } else {
        var z' := if a == s[|s| - 1] then a + c.len else z;
        StaysInside(c, g0, g, xj, k, z, z');
        NewIsApart(c, g0, g, xj, cuts, k + 1, z');
        assert false;
      }
    }
  }

  lemma KnownParts(c: Code, g: Graph, xj: nat)
    requires EndShared(c, g, xj)
    ensures BlocksOk(c, g) && Apart(g, {xj}) && EndsOk(g, {xj}) && EdgesOk(c, g, {xj})
  {
  }

  lemma EndIsNamed(g: Graph, xj: nat, z: nat)
    requires EndsOk(g, {xj}) && z in g.blocks && z != xj
    ensures g.blocks[z].instrs != [] && Last(g.blocks[z]) in g.ends && g.ends[Last(g.blocks[z])] == z
  {
  }

  /** Where the block after an inner instruction of the new block would be. */
  lemma StaysInside(c: Code, g0: Graph, g: Graph, xj: nat, k: nat, z: nat, z': nat)
    requires BlocksOk(c, g0) && OnlyNewCut(g0, g, xj) && IsBlock(c, g.blocks[xj]) && g.blocks[xj].address == xj
    requires z in g.blocks && z != xj && k + 1 < |g.blocks[xj].instrs|
    requires var a, s := g.blocks[xj].instrs[k], g.blocks[z].instrs;
             a in s && z' == if a == s[|s| - 1] then a + c.len else z
    ensures z' in g.blocks && z' != xj && g.blocks[xj].instrs[k + 1] in g.blocks[z'].instrs
  {
    hide BlocksOk, IsBlock, IsChain, IsStraight;
    var b, a, s := g.blocks[xj], g.blocks[xj].instrs[k], g.blocks[z].instrs;
    LengthOk(c, g0);
    InnerInstruction(c, b, k);
    BlockAt(c, g0, z);
    if a == s[|s| - 1] {
      assert Last(g0.blocks[z]) == a;
      BlockAt(c, g0, z');
    } else {
      NextInBlock(c, g0.blocks[z], a);
    }
  }

  lemma InnerInstruction(c: Code, b: Block, k: nat)
    requires c.len > 0 && IsBlock(c, b) && k + 1 < |b.instrs|
    ensures b.instrs[k] !in c.transfers && b.instrs[k + 1] == b.instrs[k] + c.len && b.address < b.instrs[k + 1]
  {
    ChainIncreases(c.len, b.instrs);
  }

  lemma NextInBlock(c: Code, b: Block, a: nat)
    requires IsBlock(c, b) && a in b.instrs && a != Last(b)
    ensures a + c.len in b.instrs
  {
    NextInChain(c.len, b.instrs, a);
  }

  /** What follows the new block is the start of a known one, so no other block goes on there. */
  lemma NextBlockApart(c: Code, g0: Graph, g: Graph, xj: nat, cuts: seq<nat>, z: nat)
    requires EndShared(c, g0, xj) && Cutting(c, g0, g, xj, cuts) && cuts != []
    requires z in g.blocks && z != xj && Last(g.blocks[xj]) in g.blocks[z].instrs
    ensures Last(g.blocks[xj]) == Last(g0.blocks[z])
  {
    hide BlocksOk, IsBlock, EndsOk, EdgesOk, Glued, CutEdges, IsChain;
    BlockHasLast(c, g.blocks[xj]);
    var y, x := Last(g.blocks[xj]), cuts[|cuts| - 1];
    LengthOk(c, g0);
    BlockAt(c, g0, z);
    BlockAt(c, g0, x);
    FirstIsLeast(c, g0.blocks[z], y);
    assert x in g0.blocks[x].instrs && z == g0.blocks[z].instrs[0];
    if y != Last(g0.blocks[z]) {
      NextInBlock(c, g0.blocks[z], y);
    }
  }

  lemma BlockHasLast(c: Code, b: Block)
    requires IsBlock(c, b)
    ensures b.instrs != []
  {
  }

  lemma FirstIsLeast(c: Code, b: Block, a: nat)
    requires c.len > 0 && IsBlock(c, b) && a in b.instrs
    ensures b.address <= a < a + c.len
  {
    ChainIncreases(c.len, b.instrs);
  }

  // ---- what has been cut off ----

  lemma {:induction false} GluedIsCuts(g: Graph, cuts: seq<nat>, a: nat)
    requires forall k :: 0 <= k < |cuts| ==> cuts[k] in g.blocks
    ensures a in Glued(g, cuts) <==> exists k :: 0 <= k < |cuts| && a in g.blocks[cuts[k]].instrs
  {
    if cuts != [] {
      var n := |cuts| - 1;
      GluedIsCuts(g, cuts[..n], a);
      assert a in Glued(g, cuts) <==> a in g.blocks[cuts[n]].instrs || a in Glued(g, cuts[..n]);
      forall k | 0 <= k < |cuts|
        ensures cuts[k] == if k < n then cuts[..n][k] else cuts[n]
      {
      }
    }
  }

  /** The instructions of the new block are those that it has left and those of the blocks cut off. */
  lemma NewBlockParts(c: Code, g0: Graph, g: Graph, xj: nat, cuts: seq<nat>, a: nat)
    requires Cutting(c, g0, g, xj, cuts)
    ensures a in g0.blocks[xj].instrs <==>
              a in g.blocks[xj].instrs || exists k :: 0 <= k < |cuts| && a in g0.blocks[cuts[k]].instrs
  {
    GluedIsCuts(g0, cuts, a);
  }

  /** A known block starts inside the new one exactly if it has been cut off. */
  lemma InnerStartsAreCuts(c: Code, g0: Graph, g: Graph, xj: nat, cuts: seq<nat>, z: nat)
    requires EndShared(c, g0, xj) && Cutting(c, g0, g, xj, cuts)
    requires z in g.blocks && z != xj ==> z !in g.blocks[xj].instrs
    ensures IsInnerStart(g0, xj, z) <==> z in cuts
  {
    hide EdgesOk, EndsOk, IsStraight, IsChain, Glued;
    NewBlockParts(c, g0, g, xj, cuts, z);
    if z in g0.blocks {
      BlockAt(c, g0, z);
      assert z in g0.blocks[z].instrs;
    }
  }

  lemma AtMostOneCut(c: Code, g0: Graph, g: Graph, xj: nat, cuts: seq<nat>)
    requires EndShared(c, g0, xj) && Cutting(c, g0, g, xj, cuts)
    requires forall z :: z in g.blocks && z != xj ==> z !in g.blocks[xj].instrs
    ensures AtMostOneInnerStart(g0, xj) <==> |cuts| <= 1
  {
    hide EndShared, Glued;
    forall z: nat
      ensures IsInnerStart(g0, xj, z) <==> z in cuts
    {
      InnerStartsAreCuts(c, g0, g, xj, cuts, z);
    }
    if |cuts| > 1 {
      assert IsInnerStart(g0, xj, cuts[0]) && IsInnerStart(g0, xj, cuts[1]) && cuts[0] != cuts[1];
    }
  }

  /** Control falls through the blocks that have been cut off, one after the other. */
  lemma {:induction false} FallsThroughCuts(c: Code, g: Graph, cuts: seq<nat>, xj: nat, last: nat, k: nat)
    requires Stacked(c, g, cuts, xj, last) && k < |cuts|
    requires forall j :: 0 < j < |cuts| ==> EdgesOf(c, g, cuts[j])
    ensures FallsTo(c, g, cuts[k], last, k)
  {
    if k > 0 {
      FallsThroughCuts(c, g, cuts, xj, last, k - 1);
      assert EdgesOf(c, g, cuts[k]);
      assert g.edges[cuts[k]][0] == Edge(DirectJump, cuts[k], cuts[k - 1]);
      assert HasEdge(g, Edge(DirectJump, cuts[k], cuts[k - 1]));
    }
  }

  /** The new block falls through into the block cut off last. */
  lemma NewBlockHasEdge(c: Code, g0: Graph, g: Graph, xj: nat, cuts: seq<nat>)
    requires Cutting(c, g0, g, xj, cuts) && cuts != []
    ensures HasEdge(g, Edge(DirectJump, xj, Last(g.blocks[xj]) + c.len))
  {
    var e := Edge(DirectJump, xj, cuts[|cuts| - 1]);
    assert CutEdges(xj, cuts)[|cuts| - 1] == e;
  }

  /** The edges of the new block are in order if at most one block has been cut off. */
  lemma NewBlockEdges(c: Code, g0: Graph, g: Graph, xj: nat, cuts: seq<nat>)
    requires Cutting(c, g0, g, xj, cuts)
    requires cuts == [] ==> Last(g.blocks[xj]) in c.transfers
    ensures EdgesOf(c, g, xj) <==> |cuts| <= 1
  {
    if cuts != [] {
      assert g.edges[xj] == CutEdges(xj, cuts);
      assert CutEdges(xj, cuts)[0] == Edge(DirectJump, xj, cuts[0]);
      assert CutEdges(xj, cuts)[|cuts| - 1] == Edge(DirectJump, xj, cuts[|cuts| - 1]);
    }
  }

  lemma KnownEdges(c: Code, g: Graph, xj: nat, x: nat)
    requires EndShared(c, g, xj) && x in g.blocks && x != xj
    ensures g.blocks[x].instrs != [] && EdgesOf(c, g, x)
  {
  }

  lemma StackedIn(c: Code, g: Graph, g': Graph, cuts: seq<nat>, xj: nat, last: nat)
    requires Stacked(c, g, cuts, xj, last)
    requires forall k :: 0 <= k < |cuts| ==> cuts[k] in g'.blocks && cuts[k] in g.blocks && g'.blocks[cuts[k]] == g.blocks[cuts[k]]
    ensures Stacked(c, g', cuts, xj, last)
  {
    forall k | 0 <= k < |cuts|
      ensures StackedAt(c, g', cuts, xj, last, k)
    {
      assert StackedAt(c, g, cuts, xj, last, k);
      assert g'.blocks[cuts[k]] == g.blocks[cuts[k]];
    }
  }
}
