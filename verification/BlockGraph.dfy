/**
 The control flow graph that the workers of the scanner share: basic blocks, the edges between
 them, and the table that names a block by its last instruction. Instructions have one length.
 */
module BlockGraphs {

  /** The length of every instruction, and which addresses hold control transfers. */
  datatype Code = Code(len: nat, transfers: iset<nat>)

  /** A block keeps the addresses of its instructions. */
  datatype Block = Block(address: nat, size: nat, instrs: seq<nat>)

  datatype EdgeType = Call | TailCall | Return | IndirectCall | DirectJump | IndirectJump | FallThrough

  datatype Edge = Edge(kind: EdgeType, source: nat, target: nat)

  datatype Graph = Graph(blocks: map<nat, Block>, edges: map<nat, seq<Edge>>, ends: map<nat, nat>)

  function Last(b: Block): nat
    requires b.instrs != []
  {
    b.instrs[|b.instrs| - 1]
  }

  /** One instruction follows the other. */
  ghost predicate IsChain(len: nat, instrs: seq<nat>) {
    forall k :: 0 <= k < |instrs| - 1 ==> instrs[k + 1] == instrs[k] + len
  }

  /** At most the last instruction transfers control. */
  ghost predicate IsStraight(c: Code, instrs: seq<nat>) {
    forall k :: 0 <= k < |instrs| - 1 ==> instrs[k] !in c.transfers
  }

  ghost predicate IsBlock(c: Code, b: Block) {
    && b.instrs != [] && b.address == b.instrs[0] && b.size == Last(b) - b.address + c.len
    && IsChain(c.len, b.instrs) && IsStraight(c, b.instrs)
  }

  /** Control leaves the block by a transfer, or falls through into another block. */
  ghost predicate Leaves(c: Code, g: Graph, b: Block)
    requires b.instrs != []
  {
    Last(b) in c.transfers || Last(b) + c.len in g.blocks
  }

  ghost predicate BlocksOk(c: Code, g: Graph) {
    && c.len > 0
    && forall x :: x in g.blocks ==>
         g.blocks[x].address == x && IsBlock(c, g.blocks[x]) && Leaves(c, g, g.blocks[x])
  }

  /** No instruction is in two blocks, other than the ones in `but`. */
  ghost predicate Apart(g: Graph, but: set<nat>) {
    forall x, z, a ::
      (x in g.blocks && z in g.blocks && x != z && x !in but && z !in but && a in g.blocks[x].instrs) ==>
        a !in g.blocks[z].instrs
  }

  ghost predicate EndNamed(g: Graph, x: nat)
    requires x in g.blocks
  {
    g.blocks[x].instrs != [] && Last(g.blocks[x]) in g.ends && g.ends[Last(g.blocks[x])] == x
  }

  ghost predicate EndOk(g: Graph, y: nat, but: set<nat>)
    requires y in g.ends
  {
    && g.ends[y] in g.blocks && g.ends[y] !in but
    && g.blocks[g.ends[y]].instrs != [] && Last(g.blocks[g.ends[y]]) == y
  }

  /** The table of ends names every block by its last instruction. */
  ghost predicate EndsOk(g: Graph, but: set<nat>) {
    && (forall x :: x in g.blocks && x !in but ==> EndNamed(g, x))
    && (forall y :: y in g.ends ==> EndOk(g, y, but))
  }

  /** A block that falls through has an edge to what follows it, and no other edges. */
  ghost predicate EdgesOf(c: Code, g: Graph, x: nat)
    requires x in g.blocks && g.blocks[x].instrs != []
  {
    Last(g.blocks[x]) !in c.transfers ==>
      && x in g.edges && g.edges[x] != []
      && forall k :: 0 <= k < |g.edges[x]| ==> g.edges[x][k] == Edge(DirectJump, x, Last(g.blocks[x]) + c.len)
  }

  ghost predicate EdgesOk(c: Code, g: Graph, but: set<nat>) {
    && (forall x :: x in g.edges ==> x in g.blocks)
    && (forall x, k :: x in g.edges && 0 <= k < |g.edges[x]| ==> g.edges[x][k].source == x)
    && (forall x :: x in g.blocks && x !in but ==> g.blocks[x].instrs != [] && EdgesOf(c, g, x))
  }

  ghost predicate Valid(c: Code, g: Graph) {
    BlocksOk(c, g) && Apart(g, {}) && EndsOk(g, {}) && EdgesOk(c, g, {})
  }

  /** Block `xj` has just been traced and registered; its last instruction ends another block too. */
  ghost predicate EndShared(c: Code, g: Graph, xj: nat) {
    && BlocksOk(c, g) && Apart(g, {xj}) && EndsOk(g, {xj}) && EdgesOk(c, g, {xj})
    && xj in g.blocks && xj !in g.edges
    && Last(g.blocks[xj]) in g.ends && Last(g.blocks[xj]) in c.transfers
  }

  /** The new block starts in the middle of a known one. */
  ghost predicate StartsInside(g: Graph, xj: nat) {
    exists z :: z in g.blocks && z != xj && xj in g.blocks[z].instrs
  }

  /** The known blocks that start in the middle of the new one. */
  ghost predicate IsInnerStart(g: Graph, xj: nat, z: nat) {
    xj in g.blocks && z in g.blocks && z != xj && z in g.blocks[xj].instrs
  }

  ghost predicate AtMostOneInnerStart(g: Graph, xj: nat) {
    forall x, z :: IsInnerStart(g, xj, x) && IsInnerStart(g, xj, z) ==> x == z
  }

  /**
   What splitting makes of a graph whose new block `xj` shares its end with another one: all
   blocks are apart and nothing that was known is lost. The table of ends is in order only if
   the new block does not start inside a known one, and the edges are only if at most one known
   block starts inside the new one.
   */
  ghost predicate Reconciled(c: Code, g: Graph, g': Graph, xj: nat) {
    && g'.blocks.Keys == g.blocks.Keys
    && BlocksOk(c, g') && Apart(g', {}) && Within(c, g, g')
    && (forall a :: Covers(g', a) ==> Covers(g, a))
    && (EndsOk(g', {}) <==> !StartsInside(g, xj))
    && (EdgesOk(c, g', {}) <==> AtMostOneInnerStart(g, xj))
  }

  // ---- when a graph holds everything that another one does ----

  ghost predicate Covers(g: Graph, a: nat) {
    exists x :: x in g.blocks && a in g.blocks[x].instrs
  }

  ghost predicate HasEdge(g: Graph, e: Edge) {
    e.source in g.edges && e in g.edges[e.source]
  }

  /**
   Control that enters block `x` falls through at most `n` blocks, along edges, until it comes to
   the end of one whose last instruction is `last`.
   */
  ghost predicate FallsTo(c: Code, g: Graph, x: nat, last: nat, n: nat)
    decreases n
  {
    && x in g.blocks && g.blocks[x].instrs != []
    && (Last(g.blocks[x]) == last
        || (n > 0 && HasEdge(g, Edge(DirectJump, x, Last(g.blocks[x]) + c.len))
            && FallsTo(c, g, Last(g.blocks[x]) + c.len, last, n - 1)))
  }

  ghost predicate ImplicitFlowKept(c: Code, g: Graph, g': Graph, x: nat)
    requires x in g.blocks && g.blocks[x].instrs != []
  {
    exists n: nat :: FallsTo(c, g', x, Last(g.blocks[x]), n)
  }

  /** A block with the same last instruction has an edge of the same kind to the same target. */
  ghost predicate ExplicitFlowKept(g: Graph, g': Graph, x: nat, e: Edge)
    requires x in g.blocks && g.blocks[x].instrs != []
  {
    exists z :: z in g'.blocks && g'.blocks[z].instrs != [] && Last(g'.blocks[z]) == Last(g.blocks[x])
                && HasEdge(g', Edge(e.kind, z, e.target))
  }

  /** The partial order between control flow graphs that the scanner is designed around. */
  ghost predicate Within(c: Code, g: Graph, g': Graph) {
    && (forall a :: Covers(g, a) ==> Covers(g', a))
    && (forall x :: x in g.blocks ==> g.blocks[x].instrs != [] && ImplicitFlowKept(c, g, g', x))
    && (forall x, e :: x in g.blocks && x in g.edges && e in g.edges[x] ==> ExplicitFlowKept(g, g', x, e))
  }

  // ---- chains of instructions ----

  lemma {:induction false} ChainAt(len: nat, instrs: seq<nat>, j: nat, k: nat)
    requires IsChain(len, instrs) && len > 0 && j < k < |instrs|
    ensures instrs[j] < instrs[k]
    decreases k - j
  {
    if j + 1 < k {
      ChainAt(len, instrs, j, k - 1);
      assert instrs[k] == instrs[k - 1] + len;
    }
  }

  lemma ChainIncreases(len: nat, instrs: seq<nat>)
    requires IsChain(len, instrs) && len > 0
    ensures forall j, k :: 0 <= j < k < |instrs| ==> instrs[j] < instrs[k]
  {
    forall j, k | 0 <= j < k < |instrs|
      ensures instrs[j] < instrs[k]
    {
      ChainAt(len, instrs, j, k);
    }
  }

  /** Every instruction of a chain but the last is followed by the next one. */
  lemma NextInChain(len: nat, instrs: seq<nat>, a: nat)
    requires IsChain(len, instrs) && a in instrs && a != instrs[|instrs| - 1]
    ensures a + len in instrs
  {
    var k :| 0 <= k < |instrs| && instrs[k] == a;
    assert instrs[k + 1] == a + len;
  }

  lemma GlueChains(len: nat, s: seq<nat>, t: seq<nat>)
    requires s != [] && t != [] && IsChain(len, s + t)
    ensures IsChain(len, s) && IsChain(len, t) && t[0] == s[|s| - 1] + len
  {
    var u := s + t;
    forall k | 0 <= k < |s| - 1
      ensures s[k + 1] == s[k] + len
    {
      assert u[k + 1] == u[k] + len;
    }
    forall k | 0 <= k < |t| - 1
      ensures t[k + 1] == t[k] + len
    {
      assert u[|s| + k + 1] == u[|s| + k] + len;
    }
    assert u[|s| - 1 + 1] == u[|s| - 1] + len;
  }

  /** The first part of a block is a block, and the rest follows it. */
  lemma ChoppedIsBlock(c: Code, b: Block, chopped: Block, rest: seq<nat>)
    requires c.len > 0 && IsBlock(c, b) && b.instrs == chopped.instrs + rest
    requires chopped.instrs != [] && rest != []
    requires chopped.address == chopped.instrs[0] && chopped.size == Last(chopped) - chopped.address + c.len
    ensures IsBlock(c, chopped) && chopped.address == b.address
    ensures rest[0] == Last(chopped) + c.len && b.address < rest[0]
    ensures Last(chopped) !in c.transfers && Last(chopped) < Last(b)
  {
    var s, n := b.instrs, |chopped.instrs|;
    GlueChains(c.len, chopped.instrs, rest);
    ChainIncreases(c.len, s);
    assert s[0] == chopped.instrs[0] && s[n - 1] == Last(chopped) && s[n] == rest[0];
    assert s[0] < s[n] && s[n - 1] < s[|s| - 1];
    forall k | 0 <= k < n - 1
      ensures chopped.instrs[k] !in c.transfers
    {
      assert s[k] == chopped.instrs[k];
    }
  }
}
