/** A newly traced block joins the known ones. */
module BlockAdditions {
  import opened BlockGraphs
  import opened BlockSplits
  import opened SplitResults
  import opened SplitNew
  import opened SplitOld

  function WithBlock(g: Graph, b: Block): Graph {
    g.(blocks := g.blocks[b.address := b])
  }

  ghost predicate CanAdd(c: Code, g: Graph, b: Block) {
    Valid(c, g) && b.address !in g.blocks && IsBlock(c, b) && Last(b) in c.transfers
  }

  lemma AddedCovers(g: Graph, b: Block)
    requires b.address !in g.blocks
    ensures forall a :: Covers(WithBlock(g, b), a) <==> Covers(g, a) || a in b.instrs
  {
    var g' := WithBlock(g, b);
    forall a: nat
      ensures Covers(g', a) <==> Covers(g, a) || a in b.instrs
    {
      if Covers(g, a) {
        var x :| x in g.blocks && a in g.blocks[x].instrs;
        assert a in g'.blocks[x].instrs;
      }
      if a in b.instrs {
        assert a in g'.blocks[b.address].instrs;
      }
    }
  }

  lemma AddedBlocksOk(c: Code, g: Graph, b: Block)
    requires CanAdd(c, g, b)
    ensures BlocksOk(c, WithBlock(g, b))
  {
    hide IsBlock, Apart, EndsOk, EdgesOk;
    var g' := WithBlock(g, b);
    NotEmpty(c, b);
    forall x | x in g'.blocks
      ensures g'.blocks[x].address == x && IsBlock(c, g'.blocks[x])
      ensures g'.blocks[x].instrs != [] && Leaves(c, g', g'.blocks[x])
    {
      if x in g.blocks {
        BlockAt(c, g, x);
      }
    }
  }

  lemma AddedEdgesOk(c: Code, g: Graph, b: Block)
    requires CanAdd(c, g, b)
    ensures EdgesOk(c, WithBlock(g, b), {b.address}) && b.address !in g.edges
  {
    hide IsBlock, Apart, EndsOk, BlocksOk;
    forall x | x in g.blocks
      ensures g.blocks[x].instrs != [] && EdgesOf(c, WithBlock(g, b), x)
    {
      assert EdgesOf(c, g, x);
    }
  }

  lemma AddedEndsOk(c: Code, g: Graph, b: Block)
    requires CanAdd(c, g, b)
    ensures EndsOk(WithBlock(g, b), {b.address})
  {
    hide IsBlock, Apart, EdgesOk, BlocksOk;
    var g' := WithBlock(g, b);
    forall x | x in g'.blocks && x != b.address
      ensures EndNamed(g', x)
    {
      assert EndNamed(g, x);
    }
    forall y | y in g'.ends
      ensures EndOk(g', y, {b.address})
    {
      assert EndOk(g, y, {});
    }
  }

  /** Another block has the new block's end: splitting can begin. */
  lemma SharedEnd(c: Code, g: Graph, b: Block)
    requires CanAdd(c, g, b) && Last(b) in g.ends
    ensures EndShared(c, WithBlock(g, b), b.address)
  {
    hide IsBlock, EndsOk, EdgesOk, BlocksOk;
    AddedBlocksOk(c, g, b);
    AddedEdgesOk(c, g, b);
    AddedEndsOk(c, g, b);
    assert Apart(WithBlock(g, b), {b.address});
  }

  /** No known block has the new block's end: then none has any of its instructions. */
  lemma {:induction false} FreshIsApart(c: Code, g: Graph, b: Block, k: nat, z: nat)
    requires CanAdd(c, g, b) && Last(b) !in g.ends
    requires z in g.blocks && k < |b.instrs|
    ensures b.instrs[k] !in g.blocks[z].instrs
    decreases |b.instrs| - k
  {
    hide Apart, EndsOk, EdgesOk, IsChain, IsStraight, BlocksOk;
    var a, s := b.instrs[k], g.blocks[z].instrs;
    if a in s {
      if k == |b.instrs| - 1 {
        TransferIsLast(c, g, z, a);
        NamedEnd(g, z);
        assert false;
      } else {
        var z' := if a == s[|s| - 1] then a + c.len else z;
        AddedBlocksOk(c, g, b);
        StaysInside(c, WithBlock(g, b), WithBlock(g, b), b.address, k, z, z');
        FreshIsApart(c, g, b, k + 1, z');
        assert false;
      }
    }
  }

  lemma TransferIsLast(c: Code, g: Graph, z: nat, a: nat)
    requires BlocksOk(c, g) && z in g.blocks && a in g.blocks[z].instrs && a in c.transfers
    ensures g.blocks[z].instrs != [] && a == Last(g.blocks[z])
  {
    BlockAt(c, g, z);
    var k :| 0 <= k < |g.blocks[z].instrs| && g.blocks[z].instrs[k] == a;
    assert k == |g.blocks[z].instrs| - 1;
  }

  lemma NamedEnd(g: Graph, z: nat)
    requires EndsOk(g, {}) && z in g.blocks
    ensures EndNamed(g, z)
  {
  }

  /** The graph once the block's end has been registered and its out-edges have been created. */
  ghost function Added(g: Graph, b: Block, edges: map<nat, seq<Edge>>): Graph
    requires b.instrs != []
  {
    Graph(g.blocks[b.address := b], edges, g.ends[Last(b) := b.address])
  }

  ghost predicate OnlyNewEdges(edges: map<nat, seq<Edge>>, edges': map<nat, seq<Edge>>, x: nat) {
    && (forall z :: z in edges && z != x ==> z in edges' && edges'[z] == edges[z])
    && (forall z :: z in edges' && z != x ==> z in edges)
    && (x in edges' ==> forall k :: 0 <= k < |edges'[x]| ==> edges'[x][k].source == x)
  }

  lemma AddedIsValid(c: Code, g: Graph, b: Block, edges: map<nat, seq<Edge>>)
    requires CanAdd(c, g, b) && Last(b) !in g.ends && OnlyNewEdges(g.edges, edges, b.address)
    ensures Valid(c, Added(g, b, edges)) && Within(c, g, Added(g, b, edges))
    ensures BlocksOk(c, Added(g, b, edges)) && Apart(Added(g, b, edges), {})
    ensures forall a :: Covers(Added(g, b, edges), a) <==> Covers(WithBlock(g, b), a)
  {
    hide IsBlock, Apart, EndsOk, EdgesOk, BlocksOk, Within, Covers;
    NotEmpty(c, b);
    AddedApart(c, g, b, edges);
    AddedEnds(c, g, b, edges);
    AddedEdges(c, g, b, edges);
    AddedBlocks(c, g, b, edges);
    AddedWithin(c, g, b, edges);
    SameCovers(WithBlock(g, b), Added(g, b, edges));
  }

  lemma SameCovers(g: Graph, g': Graph)
    requires g'.blocks == g.blocks
    ensures forall a :: Covers(g', a) <==> Covers(g, a)
  {
  }

  lemma AddedApart(c: Code, g: Graph, b: Block, edges: map<nat, seq<Edge>>)
    requires CanAdd(c, g, b) && Last(b) !in g.ends
    ensures Apart(Added(g, b, edges), {})
  {
    hide IsBlock, EndsOk, EdgesOk, BlocksOk;
    NotEmpty(c, b);
    forall z, a | z in g.blocks && a in b.instrs
      ensures a !in g.blocks[z].instrs
    {
      var k :| 0 <= k < |b.instrs| && b.instrs[k] == a;
      FreshIsApart(c, g, b, k, z);
    }
  }

  lemma AddedEnds(c: Code, g: Graph, b: Block, edges: map<nat, seq<Edge>>)
    requires CanAdd(c, g, b) && Last(b) !in g.ends
    ensures EndsOk(Added(g, b, edges), {})
  {
    hide IsBlock, Apart, EdgesOk, BlocksOk;
    NotEmpty(c, b);
    var g' := Added(g, b, edges);
    forall x | x in g'.blocks
      ensures EndNamed(g', x)
    {
      assert x != b.address ==> EndNamed(g, x);
    }
    forall y | y in g'.ends
      ensures EndOk(g', y, {})
    {
      assert y != Last(b) ==> EndOk(g, y, {});
    }
  }

  lemma AddedEdges(c: Code, g: Graph, b: Block, edges: map<nat, seq<Edge>>)
    requires CanAdd(c, g, b) && OnlyNewEdges(g.edges, edges, b.address)
    ensures EdgesOk(c, Added(g, b, edges), {})
  {
    hide IsBlock, Apart, EndsOk, BlocksOk;
    NotEmpty(c, b);
    var g' := Added(g, b, edges);
    forall x | x in g.blocks
      ensures g.blocks[x].instrs != [] && EdgesOf(c, g', x)
    {
      assert EdgesOf(c, g, x);
    }
  }

  lemma AddedBlocks(c: Code, g: Graph, b: Block, edges: map<nat, seq<Edge>>)
    requires CanAdd(c, g, b)
    ensures BlocksOk(c, Added(g, b, edges))
  {
    hide IsBlock, Apart, EndsOk, EdgesOk;
    NotEmpty(c, b);
    var g' := Added(g, b, edges);
    AddedBlocksOk(c, g, b);
    forall x | x in g'.blocks
      ensures g'.blocks[x].instrs != [] && Leaves(c, g', g'.blocks[x])
    {
      BlockAt(c, WithBlock(g, b), x);
    }
  }

  /** Known blocks and their edges are as they were. */
  lemma AddedWithin(c: Code, g: Graph, b: Block, edges: map<nat, seq<Edge>>)
    requires CanAdd(c, g, b) && OnlyNewEdges(g.edges, edges, b.address)
    ensures Within(c, g, Added(g, b, edges))
  {
    hide IsBlock, Apart, EndsOk, Covers;
    NotEmpty(c, b);
    var g' := Added(g, b, edges);
    AddedCovers(g, b);
    SameCovers(WithBlock(g, b), g');
    forall x | x in g.blocks
      ensures g.blocks[x].instrs != [] && ImplicitFlowKept(c, g, g', x)
    {
      BlockAt(c, g, x);
      assert FallsTo(c, g', x, Last(g.blocks[x]), 0);
    }
    forall x, e | x in g.blocks && x in g.edges && e in g.edges[x]
      ensures ExplicitFlowKept(g, g', x, e)
    {
      assert HasEdge(g', Edge(e.kind, x, e.target));
    }
  }

  /** What holds the graph with the new block holds the graph without it. */
  lemma WithinAdded(c: Code, g: Graph, b: Block, g': Graph)
    requires b.address !in g.blocks && Within(c, WithBlock(g, b), g')
    ensures Within(c, g, g')
  {
    hide Covers, FallsTo;
    var g1 := WithBlock(g, b);
    AddedCovers(g, b);
    forall x | x in g.blocks
      ensures g.blocks[x].instrs != [] && ImplicitFlowKept(c, g, g', x)
    {
      assert x in g1.blocks && ImplicitFlowKept(c, g1, g', x);
    }
    forall x, e | x in g.blocks && x in g.edges && e in g.edges[x]
      ensures ExplicitFlowKept(g, g', x, e)
    {
      assert ExplicitFlowKept(g1, g', x, e);
    }
  }

  /** A stale entry in the table of ends: the next block that comes to that end cannot be split. */
  lemma StaleEndFails(g: Graph, b: Block, i: nat, j: nat)
    requires b.instrs != [] && Last(b) in g.ends && g.ends[Last(b)] in g.blocks
    requires var Bi := g.blocks[g.ends[Last(b)]];
             Bi.instrs != [] && Last(Bi) != Last(b) && CommonTail(Bi.instrs, b.instrs, i, j)
    ensures i == |g.blocks[g.ends[Last(b)]].instrs| != 0 && j == |b.instrs| != 0
  {
    var s, t := g.blocks[g.ends[Last(b)]].instrs, b.instrs;
    assert |s[i..]| == |s| - i && |t[j..]| == |t| - j;
    if i < |s| {
      TailsEndAlike(s, t, i, j);
    }
  }

  /**
   After a known block has been cut in two, the next block traced to the same end is looked for in
   the wrong one: no tail is common to both, and the index of the first common instruction is out
   of range.
   */
  lemma NextSplitFails(c: Code, g0: Graph, g: Graph, xj: nat, cuts: seq<nat>, xi: nat, chopped: Block, b: Block, i: nat, j: nat)
    requires OldDone(c, g0, g, xj, cuts, xi, chopped) && b.instrs != [] && Last(b) == Last(g.blocks[xj])
    requires CommonTail(chopped.instrs, b.instrs, i, j)
    ensures var g' := EndRegistered(CutOld(g, xi, chopped, xj), Last(chopped), xi);
            && Last(b) in g'.ends && g'.ends[Last(b)] == xi && xi in g'.blocks
            && i == |g'.blocks[xi].instrs| != 0 && j == |b.instrs| != 0
  {
    OldEndIsStale(c, g0, g, xj, cuts, xi, chopped);
    OldParts(c, g0, g, xj, cuts, xi, chopped);
    StaleEndFails(EndRegistered(CutOld(g, xi, chopped, xj), Last(chopped), xi), b, i, j);
  }

  lemma TailsEndAlike(s: seq<nat>, t: seq<nat>, i: nat, j: nat)
    requires i < |s| && j < |t| && s[i..] == t[j..]
    ensures s[|s| - 1] == t[|t| - 1]
  {
    assert |s[i..]| == |s| - i && |t[j..]| == |t| - j;
    assert s[i..][|s| - i - 1] == s[|s| - 1] && t[j..][|t| - j - 1] == t[|t| - 1];
  }
}
