/**
 The two ways in which a newly traced block and a block that is already known can share their
 last instruction, and what cutting the longer one of them keeps.
 */
module BlockSplits {
  import opened BlockGraphs

  /** The longest common tails of two sequences, which start at `i` and `j`. */
  ghost predicate CommonTail(s: seq<nat>, t: seq<nat>, i: nat, j: nat) {
    && i <= |s| && j <= |t| && s[i..] == t[j..]
    && (i > 0 && j > 0 ==> s[i - 1] != t[j - 1])
  }

  /** With one instruction length, one of two blocks with the same end is the tail of the other. */
  lemma OneIsTail(c: Code, s: seq<nat>, t: seq<nat>, i: nat, j: nat)
    requires s != [] && t != [] && IsChain(c.len, s) && IsChain(c.len, t)
    requires s[|s| - 1] == t[|t| - 1] && CommonTail(s, t, i, j)
    ensures i < |s| && j < |t| && (i == 0 || j == 0)
    ensures i == 0 ==> t == t[..j] + s
    ensures j == 0 ==> s == s[..i] + t
  {
    assert |s[i..]| == |s| - i && |t[j..]| == |t| - j;
    assert i < |s| && j < |t|;
    assert s[i..][0] == s[i] && t[j..][0] == t[j];
    assert i > 0 ==> s[i - 1 + 1] == s[i - 1] + c.len;
    assert j > 0 ==> t[j - 1 + 1] == t[j - 1] + c.len;
  }

  /** The one that is the tail starts later. */
  lemma TailOrder(c: Code, s: seq<nat>, t: seq<nat>, i: nat, j: nat)
    requires s != [] && t != [] && c.len > 0 && IsChain(c.len, s) && IsChain(c.len, t)
    requires s[|s| - 1] == t[|t| - 1] && CommonTail(s, t, i, j) && s[0] != t[0]
    ensures i < |s| && j < |t| && (i == 0 || j == 0)
    ensures i == 0 ==> j > 0 && t[0] < s[0] && t == t[..j] + s
    ensures j == 0 ==> i > 0 && s[0] < t[0] && s == s[..i] + t
  {
    OneIsTail(c, s, t, i, j);
    ChainIncreases(c.len, s);
    ChainIncreases(c.len, t);
    assert i == 0 && j > 0 ==> t[j] == s[0];
    assert j == 0 && i > 0 ==> s[i] == t[0];
  }

  // ---- the steps ----

  function AddEdge(edges: map<nat, seq<Edge>>, e: Edge): map<nat, seq<Edge>> {
    edges[e.source := (if e.source in edges then edges[e.source] else []) + [e]]
  }

  function Moved(es: seq<Edge>, x: nat): (r: seq<Edge>)
    ensures |r| == |es|
    ensures forall k :: 0 <= k < |es| ==> r[k] == es[k].(source := x)
  {
    seq(|es|, k requires 0 <= k < |es| => es[k].(source := x))
  }

  /** The edges of `xi` are handed to `xj`, unless `xj` has edges: then they are lost. */
  function Stolen(edges: map<nat, seq<Edge>>, xi: nat, xj: nat): map<nat, seq<Edge>> {
    if xi !in edges then edges
    else
      var without := edges - {xi};
      if xj in without then without else without[xj := Moved(edges[xi], xj)]
  }

  /** The new block `xj` is cut down to `chopped`, and falls through into `xi`. */
  function CutNew(g: Graph, xj: nat, chopped: Block, xi: nat): Graph {
    g.(blocks := g.blocks[xj := chopped], edges := AddEdge(g.edges, Edge(DirectJump, xj, xi)))
  }

  /** The known block `xi` is cut down to `chopped`, and falls through into `xj`. */
  function CutOld(g: Graph, xi: nat, chopped: Block, xj: nat): Graph {
    g.(blocks := g.blocks[xi := chopped], edges := AddEdge(Stolen(g.edges, xi, xj), Edge(DirectJump, xi, xj)))
  }

  // ---- the known blocks that have been cut off the new one ----

  ghost function Glued(g: Graph, cuts: seq<nat>): seq<nat> {
    if cuts == [] then []
    else
      var x := cuts[|cuts| - 1];
      (if x in g.blocks then g.blocks[x].instrs else []) + Glued(g, cuts[..|cuts| - 1])
  }

  ghost function CutEdges(xj: nat, cuts: seq<nat>): seq<Edge> {
    seq(|cuts|, k requires 0 <= k < |cuts| => Edge(DirectJump, xj, cuts[k]))
  }

  /** A block cut off falls through into the one cut off before it; the first ends at `last`. */
  ghost predicate StackedAt(c: Code, g: Graph, cuts: seq<nat>, xj: nat, last: nat, k: nat)
    requires k < |cuts|
  {
    && cuts[k] in g.blocks && cuts[k] > xj && g.blocks[cuts[k]].instrs != []
    && if k == 0 then Last(g.blocks[cuts[k]]) == last
       else Last(g.blocks[cuts[k]]) !in c.transfers && Last(g.blocks[cuts[k]]) + c.len == cuts[k - 1]
  }

  ghost predicate Stacked(c: Code, g: Graph, cuts: seq<nat>, xj: nat, last: nat) {
    && (forall k {:trigger cuts[k]} :: 0 <= k < |cuts| ==> StackedAt(c, g, cuts, xj, last, k))
    && (forall j, k :: 0 <= j < k < |cuts| ==> cuts[j] > cuts[k])
  }

  /** Nothing has changed but the new block. */
  ghost predicate OnlyNewCut(g0: Graph, g: Graph, xj: nat) {
    && g.blocks.Keys == g0.blocks.Keys && xj in g.blocks && g.ends == g0.ends
    && (forall x :: x in g.blocks && x != xj ==> g.blocks[x] == g0.blocks[x])
  }

  /** What has become of `g0` after the blocks `cuts` have been cut off its new block `xj`. */
  ghost predicate Cutting(c: Code, g0: Graph, g: Graph, xj: nat, cuts: seq<nat>) {
    && OnlyNewCut(g0, g, xj)
    && IsBlock(c, g.blocks[xj]) && g.blocks[xj].address == xj
    && g0.blocks[xj].instrs == g.blocks[xj].instrs + Glued(g0, cuts)
    && (cuts != [] ==> Last(g.blocks[xj]) + c.len == cuts[|cuts| - 1] && Last(g.blocks[xj]) !in c.transfers)
    && (cuts == [] ==> Last(g.blocks[xj]) == Last(g0.blocks[xj]))
    && Stacked(c, g0, cuts, xj, Last(g0.blocks[xj]))
    && g.edges == if cuts == [] then g0.edges else g0.edges[xj := CutEdges(xj, cuts)]
  }

  lemma NothingCut(c: Code, g: Graph, xj: nat)
    requires EndShared(c, g, xj)
    ensures Cutting(c, g, g, xj, [])
  {
  }

  /** Cutting a known block off the end of the new one. */
  lemma CutOneMore(c: Code, g0: Graph, g: Graph, xj: nat, cuts: seq<nat>, xi: nat, chopped: Block)
    requires BlocksOk(c, g0) && Cutting(c, g0, g, xj, cuts) && xj !in g0.edges
    requires xi in g.blocks && xi != xj && chopped.instrs != []
    requires g.blocks[xj].instrs == chopped.instrs + g.blocks[xi].instrs
    requires chopped.address == chopped.instrs[0] && chopped.size == Last(chopped) - chopped.address + c.len
    ensures Cutting(c, g0, CutNew(g, xj, chopped, xi), xj, cuts + [xi])
  {
    hide IsBlock, BlocksOk, CutEdges, Stacked, Glued;
    BlockAt(c, g0, xi);
    assert c.len > 0 by { LengthOk(c, g0); }
    ChoppedIsBlock(c, g.blocks[xj], chopped, g.blocks[xi].instrs);
    CutEdgesAppend(xj, cuts, xi);
    assert Last(g.blocks[xi]) == Last(g.blocks[xj]);
    StackOneMore(c, g0, cuts, xi, xj, Last(g0.blocks[xj]));
    GlueOneMore(g0, chopped.instrs, cuts, xi);
  }

  lemma LengthOk(c: Code, g: Graph)
    requires BlocksOk(c, g)
    ensures c.len > 0
  {
  }

  lemma GlueOneMore(g: Graph, s: seq<nat>, cuts: seq<nat>, xi: nat)
    requires xi in g.blocks
    ensures s + Glued(g, cuts + [xi]) == (s + g.blocks[xi].instrs) + Glued(g, cuts)
  {
    var cuts' := cuts + [xi];
    assert cuts'[..|cuts|] == cuts;
  }

  lemma StackOneMore(c: Code, g: Graph, cuts: seq<nat>, xi: nat, xj: nat, last: nat)
    requires Stacked(c, g, cuts, xj, last) && BlocksOk(c, g) && xi in g.blocks && xi > xj && c.len > 0
    requires cuts == [] ==> Last(g.blocks[xi]) == last
    requires cuts != [] ==> Last(g.blocks[xi]) !in c.transfers && Last(g.blocks[xi]) + c.len == cuts[|cuts| - 1]
    ensures Stacked(c, g, cuts + [xi], xj, last)
  {
    hide BlocksOk, IsBlock, StackedAt;
    BlockAt(c, g, xi);
    FirstBeforeLast(c, g.blocks[xi]);
    var cuts' := cuts + [xi];
    forall k | 0 <= k < |cuts'|
      ensures StackedAt(c, g, cuts', xj, last, k)
    {
      if k < |cuts| {
        assert cuts'[k] == cuts[k];
        StackedAtSame(c, g, cuts, xi, xj, last, k);
      } else {
        StackedAtNew(c, g, cuts, xi, xj, last);
      }
    }
    assert forall k :: 0 <= k < |cuts| ==> cuts'[k] == cuts[k];
  }

  lemma StackedAtSame(c: Code, g: Graph, cuts: seq<nat>, xi: nat, xj: nat, last: nat, k: nat)
    requires k < |cuts| && StackedAt(c, g, cuts, xj, last, k)
    ensures StackedAt(c, g, cuts + [xi], xj, last, k)
  {
  }

  lemma StackedAtNew(c: Code, g: Graph, cuts: seq<nat>, xi: nat, xj: nat, last: nat)
    requires xi in g.blocks && xi > xj && g.blocks[xi].instrs != []
    requires cuts == [] ==> Last(g.blocks[xi]) == last
    requires cuts != [] ==> Last(g.blocks[xi]) !in c.transfers && Last(g.blocks[xi]) + c.len == cuts[|cuts| - 1]
    ensures StackedAt(c, g, cuts + [xi], xj, last, |cuts|)
  {
  }

  lemma FirstBeforeLast(c: Code, b: Block)
    requires c.len > 0 && IsBlock(c, b)
    ensures b.address <= Last(b)
  {
    ChainIncreases(c.len, b.instrs);
  }

  lemma BlockAt(c: Code, g: Graph, x: nat)
    requires BlocksOk(c, g) && x in g.blocks
    ensures IsBlock(c, g.blocks[x]) && g.blocks[x].instrs != [] && g.blocks[x].address == x == g.blocks[x].instrs[0]
    ensures Leaves(c, g, g.blocks[x])
  {
  }

  lemma CutEdgesAppend(xj: nat, cuts: seq<nat>, xi: nat)
    ensures CutEdges(xj, cuts + [xi]) == CutEdges(xj, cuts) + [Edge(DirectJump, xj, xi)]
    ensures CutEdges(xj, []) == []
  {
  }
}
