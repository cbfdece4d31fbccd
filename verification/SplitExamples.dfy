/** Two graphs on which splitting leaves a table out of order: one for the ends, one for the edges. */
module SplitExamples {
  import opened BlockGraphs
  import opened BlockSplits
  import opened SplitResults
  import opened SplitNew
  import opened SplitOld

  /** Instructions of length one; the one at 3 transfers control. */
  function TheCode(): Code {
    Code(1, iset{3})
  }

  // ---- the new block starts inside a known one ----

  /** Block 0 is known, block 2 has just been traced. */
  function KnownAround(): Graph {
    Graph(map[0 := Block(0, 4, [0, 1, 2, 3]), 2 := Block(2, 2, [2, 3])], map[], map[3 := 0])
  }

  /** What splitting makes of it: the end at 3 still names block 0, which ends at 1 now. */
  function AroundAfterwards(): Graph {
    Graph(map[0 := Block(0, 2, [0, 1]), 2 := Block(2, 2, [2, 3])],
          map[0 := [Edge(DirectJump, 0, 2)]],
          map[3 := 0, 1 := 0])
  }

  lemma KnownAroundIsShared()
    ensures EndShared(TheCode(), KnownAround(), 2)
  {
    hide IsBlock, BlocksOk, Apart, EndsOk, EdgesOk;
    AroundBlocksOk();
    AroundEndsOk();
    AroundEdgesOk();
    OneBlockIsApart(KnownAround(), 2, 0);
  }

  lemma AreBlocks()
    ensures IsBlock(TheCode(), Block(0, 4, [0, 1, 2, 3])) && IsBlock(TheCode(), Block(1, 1, [1]))
    ensures IsBlock(TheCode(), Block(2, 2, [2, 3]))
  {
  }

  lemma AroundBlocksOk()
    ensures BlocksOk(TheCode(), KnownAround())
  {
    hide IsBlock;
    AreBlocks();
  }

  lemma AroundEndsOk()
    ensures EndsOk(KnownAround(), {2})
  {
    assert EndNamed(KnownAround(), 0) && EndOk(KnownAround(), 3, {2});
  }

  lemma AroundEdgesOk()
    ensures EdgesOk(TheCode(), KnownAround(), {2})
  {
    assert EdgesOf(TheCode(), KnownAround(), 0);
  }

  lemma OneBlockIsApart(g: Graph, xj: nat, x: nat)
    requires g.blocks.Keys == {xj, x}
    ensures Apart(g, {xj})
  {
  }

  lemma StaleEndLeft()
    ensures var c, g, g', chopped := TheCode(), KnownAround(), AroundAfterwards(), Block(0, 2, [0, 1]);
            && EndShared(c, g, 2) && OldDone(c, g, g, 2, [], 0, chopped)
            && g' == EndRegistered(CutOld(g, 0, chopped, 2), 1, 0)
            && Reconciled(c, g, g', 2) && !EndsOk(g', {})
  {
    hide EndShared, Reconciled, EndsOk, Cutting, CutOld, AddEdge, Stolen, KnownAround, AroundAfterwards;
    var c, g, chopped := TheCode(), KnownAround(), Block(0, 2, [0, 1]);
    KnownAroundIsShared();
    NothingCut(c, g, 2);
    AroundParts();
    AroundCut();
    OldReconciled(c, g, g, 2, [], 0, chopped);
    OldEndIsStale(c, g, g, 2, [], 0, chopped);
  }

  lemma AroundParts()
    ensures var g := KnownAround();
            0 in g.blocks && 2 in g.blocks && g.blocks[2].instrs != [] && g.blocks[0].instrs == [0, 1] + g.blocks[2].instrs
  {
    assert [0, 1] + [2, 3] == [0, 1, 2, 3];
  }

  lemma AroundCut()
    ensures EndRegistered(CutOld(KnownAround(), 0, Block(0, 2, [0, 1]), 2), 1, 0) == AroundAfterwards()
  {
    var g := KnownAround();
    var g' := EndRegistered(CutOld(g, 0, Block(0, 2, [0, 1]), 2), 1, 0);
    assert g'.blocks == AroundAfterwards().blocks;
    assert [] + [Edge(DirectJump, 0, 2)] == [Edge(DirectJump, 0, 2)];
    assert g'.edges == AroundAfterwards().edges;
    assert g'.ends == AroundAfterwards().ends;
  }

  // ---- two known blocks start inside the new one ----

  /** Blocks 1 and 2 are known, block 0 has just been traced. */
  function KnownInside(): Graph {
    Graph(map[0 := Block(0, 4, [0, 1, 2, 3]), 1 := Block(1, 1, [1]), 2 := Block(2, 2, [2, 3])],
          map[1 := [Edge(DirectJump, 1, 2)]],
          map[1 := 1, 3 := 2])
  }

  /** What splitting makes of it: block 0 ends at 0 now, but keeps its edge to block 2. */
  function InsideAfterwards(): Graph {
    Graph(map[0 := Block(0, 1, [0]), 1 := Block(1, 1, [1]), 2 := Block(2, 2, [2, 3])],
          map[0 := [Edge(DirectJump, 0, 2), Edge(DirectJump, 0, 1)], 1 := [Edge(DirectJump, 1, 2)]],
          map[0 := 0, 1 := 1, 3 := 2])
  }

  lemma KnownInsideIsShared()
    ensures EndShared(TheCode(), KnownInside(), 0)
  {
    hide IsBlock, BlocksOk, Apart, EndsOk, EdgesOk;
    InsideBlocksOk();
    InsideEndsOk();
    InsideEdgesOk();
    InsideIsApart();
  }

  lemma InsideBlocksOk()
    ensures BlocksOk(TheCode(), KnownInside())
  {
    hide IsBlock;
    AreBlocks();
  }

  lemma InsideEndsOk()
    ensures EndsOk(KnownInside(), {0})
  {
    assert EndNamed(KnownInside(), 1) && EndNamed(KnownInside(), 2);
    assert EndOk(KnownInside(), 1, {0}) && EndOk(KnownInside(), 3, {0});
  }

  lemma InsideEdgesOk()
    ensures EdgesOk(TheCode(), KnownInside(), {0})
  {
    assert EdgesOf(TheCode(), KnownInside(), 1) && EdgesOf(TheCode(), KnownInside(), 2);
  }

  lemma InsideIsApart()
    ensures Apart(KnownInside(), {0})
  {
    var g := KnownInside();
    assert g.blocks[1].instrs == [1] && g.blocks[2].instrs == [2, 3];
  }

  /** The state between the two cuts. */
  function InsideBetween(): Graph {
    Graph(map[0 := Block(0, 2, [0, 1]), 1 := Block(1, 1, [1]), 2 := Block(2, 2, [2, 3])],
          map[0 := [Edge(DirectJump, 0, 2)], 1 := [Edge(DirectJump, 1, 2)]],
          map[1 := 1, 3 := 2])
  }

  lemma StrayEdgeLeft()
    ensures var c, g, g' := TheCode(), KnownInside(), InsideAfterwards();
            && EndShared(c, g, 0)
            && InsideBetween() == CutNew(g, 0, Block(0, 2, [0, 1]), 2)
            && g' == EndRegistered(CutNew(InsideBetween(), 0, Block(0, 1, [0]), 1), 0, 0)
            && Reconciled(c, g, g', 0) && !EdgesOk(c, g', {})
  {
    hide EndShared, Reconciled, EdgesOk, Cutting, CutNew, AddEdge, KnownInside, InsideBetween, InsideAfterwards;
    KnownInsideIsShared();
    FirstInsideCut();
    SecondInsideCut();
    InsideIsReconciled();
    TwoInnerStarts();
    ReconciledEdges(TheCode(), KnownInside(), InsideAfterwards(), 0);
  }

  lemma InsideIsReconciled()
    ensures Reconciled(TheCode(), KnownInside(), InsideAfterwards(), 0)
  {
    hide EndShared, Reconciled, Cutting, CutNew, AddEdge, KnownInside, InsideBetween, InsideAfterwards;
    KnownInsideIsShared();
    InsideCutTwice();
    SecondInsideCut();
    EndIsFree();
    NewReconciled(TheCode(), KnownInside(), CutNew(InsideBetween(), 0, Block(0, 1, [0]), 1), 0, [2, 1]);
  }

  lemma EndIsFree()
    ensures var g := CutNew(InsideBetween(), 0, Block(0, 1, [0]), 1);
            0 in g.blocks && g.blocks[0].instrs == [0] && 0 !in g.ends
  {
    hide AddEdge;
  }

  lemma FirstInsideCut()
    ensures InsideBetween() == CutNew(KnownInside(), 0, Block(0, 2, [0, 1]), 2)
  {
    var g' := CutNew(KnownInside(), 0, Block(0, 2, [0, 1]), 2);
    assert [] + [Edge(DirectJump, 0, 2)] == [Edge(DirectJump, 0, 2)];
    assert g'.edges == InsideBetween().edges;
    assert g'.blocks == InsideBetween().blocks;
  }

  lemma SecondInsideCut()
    ensures InsideAfterwards() == EndRegistered(CutNew(InsideBetween(), 0, Block(0, 1, [0]), 1), 0, 0)
  {
    var g' := EndRegistered(CutNew(InsideBetween(), 0, Block(0, 1, [0]), 1), 0, 0);
    EdgeAdded(Edge(DirectJump, 0, 2), Edge(DirectJump, 0, 1), [Edge(DirectJump, 1, 2)]);
    assert g'.blocks == InsideAfterwards().blocks;
    assert g'.ends == InsideAfterwards().ends;
  }

  lemma EdgeAdded(e: Edge, e': Edge, others: seq<Edge>)
    requires e.source == e'.source == 0
    ensures AddEdge(map[0 := [e], 1 := others], e') == map[0 := [e, e'], 1 := others]
  {
    assert [e] + [e'] == [e, e'];
  }

  lemma InsideCutOnce()
    ensures Cutting(TheCode(), KnownInside(), InsideBetween(), 0, [2])
  {
    hide EndShared, Cutting, AddEdge;
    var c, g, b := TheCode(), KnownInside(), Block(0, 2, [0, 1]);
    KnownInsideIsShared();
    SharedBlocks(c, g, 0);
    NothingCut(c, g, 0);
    assert b.instrs + g.blocks[2].instrs == [0, 1, 2, 3];
    CutOneMore(c, g, g, 0, [], 2, b);
    assert [] + [2] == [2];
    FirstInsideCut();
  }

  lemma InsideCutTwice()
    ensures Cutting(TheCode(), KnownInside(), CutNew(InsideBetween(), 0, Block(0, 1, [0]), 1), 0, [2, 1])
  {
    hide EndShared, Cutting, BlocksOk, AddEdge, KnownInside, InsideBetween;
    KnownInsideIsShared();
    SharedBlocks(TheCode(), KnownInside(), 0);
    InsideCutOnce();
    BetweenBlocks();
    assert [0] + [1] == [0, 1];
    CutOneMore(TheCode(), KnownInside(), InsideBetween(), 0, [2], 1, Block(0, 1, [0]));
    assert [2] + [1] == [2, 1];
  }

  lemma BetweenBlocks()
    ensures var blocks := InsideBetween().blocks;
            0 in blocks && 1 in blocks && blocks[0].instrs == [0, 1] && blocks[1].instrs == [1]
  {
  }

  lemma TwoInnerStarts()
    ensures !AtMostOneInnerStart(KnownInside(), 0)
  {
    assert IsInnerStart(KnownInside(), 0, 1) && IsInnerStart(KnownInside(), 0, 2);
  }

  lemma SharedBlocks(c: Code, g: Graph, xj: nat)
    requires EndShared(c, g, xj)
    ensures BlocksOk(c, g) && xj !in g.edges
  {
  }

  lemma ReconciledEdges(c: Code, g: Graph, g': Graph, xj: nat)
    requires Reconciled(c, g, g', xj)
    ensures EdgesOk(c, g', {}) <==> AtMostOneInnerStart(g, xj)
  {
  }
}
