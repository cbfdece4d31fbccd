/**
 What it does to the values that reads come to when blocks have been made to forget assignments:
 they are remembered to leave in a storage what it held when they were entered.
 */
module ForgottenAssignments {
  import opened FlowGraphs
  import opened SsaSemantics
  import opened BuilderInvariants
  import opened Programs

  /** The block of the cell always ends with the storage's contents being what they were at its start. */
  ghost predicate PutsBack(p: Program, cell: Cell)
    requires p.WellFormed() && p.cfg.WellFormed()
  {
    forall w :: IsWalk(p.cfg, w) && End(p.cfg, w) == cell.block ==>
      Holds(p, w, 0, cell.storage) == Holds(p, w, |p.code[cell.block]|, cell.storage)
  }

  /** The recorded assignments are those of the program, and nothing is missed but what is in `forgotten`. */
  ghost predicate AssignmentsKnown(p: Program, writes: map<Cell, Source>, asOf: map<Cell, set<Cell>>, forgotten: set<Cell>) {
    && p.WellFormed() && p.cfg.WellFormed()
    && (forall b {:trigger p.code[b]} :: 0 <= b < |p.code| ==> BlockMatches(p.code[b], writes, b, |p.code[b]|))
    && (forall cell :: cell in asOf ==> asOf[cell] <= forgotten)
  }

  // ---- right as long as all forgotten assignments put back what was there ----

  lemma {:induction false} SeenInIsRight(p: Program, writes: map<Cell, Source>, asOf: map<Cell, set<Cell>>,
                                         forgotten: set<Cell>, w: Walk, s: nat)
    requires AssignmentsKnown(p, writes, asOf, forgotten) && IsWalk(p.cfg, w)
    requires forall cell :: cell in forgotten ==> PutsBack(p, cell)
    ensures ValueIn(p.cfg, writes, asOf, w, s) == Holds(p, w, 0, s)
    decreases w, 0
  {
    if w.Step? {
      SeenOutIsRight(p, writes, asOf, forgotten, AsOf(asOf, Cell(w.block, s)), w.prev, s);
    }
  }

  lemma {:induction false} SeenOutIsRight(p: Program, writes: map<Cell, Source>, asOf: map<Cell, set<Cell>>,
                                          forgotten: set<Cell>, missed: set<Cell>, w: Walk, s: nat)
    requires AssignmentsKnown(p, writes, asOf, forgotten) && IsWalk(p.cfg, w) && missed <= forgotten
    requires forall cell :: cell in forgotten ==> PutsBack(p, cell)
    ensures ValueOut(p.cfg, writes, asOf, missed, w, s) == Holds(p, w, |p.code[End(p.cfg, w)]|, s)
    decreases w, 1
  {
    var b := End(p.cfg, w);
    var effects := Effects(p.code[b], |p.code[b]|);
    assert BlockMatches(p.code[b], writes, b, |p.code[b]|);
    assert Cell(b, s) in writes <==> s in effects;
    HoldsByEffect(p, w, |p.code[b]|, s);
    SeenInIsRight(p, writes, asOf, forgotten, w, s);
    if Cell(b, s) in missed {
      assert PutsBack(p, Cell(b, s));
    } else if s in effects && effects[s].Held? {
      SeenInIsRight(p, writes, asOf, forgotten, w, effects[s].storage);
    }
  }

  /** With nothing forgotten, the recorded assignments run like the program. */
  lemma WritesRunLikeProgram(p: Program, writes: map<Cell, Source>, w: Walk, s: nat)
    requires AssignmentsKnown(p, writes, map[], {}) && IsWalk(p.cfg, w)
    ensures ValueIn(p.cfg, writes, map[], w, s) == Holds(p, w, 0, s)
    ensures ValueOut(p.cfg, writes, map[], {}, w, s) == Holds(p, w, |p.code[End(p.cfg, w)]|, s)
  {
    SeenInIsRight(p, writes, map[], {}, w, s);
    SeenOutIsRight(p, writes, map[], {}, {}, w, s);
  }

  lemma SeenIsRight(p: Program, writes: map<Cell, Source>, asOf: map<Cell, set<Cell>>, forgotten: set<Cell>,
                    w: Walk, i: nat, s: nat)
    requires AssignmentsKnown(p, writes, asOf, forgotten) && IsWalk(p.cfg, w) && i <= |p.code[End(p.cfg, w)]|
    requires forall cell :: cell in forgotten ==> PutsBack(p, cell)
    ensures Seen(p, writes, asOf, w, i, s) == Holds(p, w, i, s)
  {
    HoldsByEffect(p, w, i, s);
    var effects := Effects(p.code[End(p.cfg, w)], i);
    SeenInIsRight(p, writes, asOf, forgotten, w, if s in effects && effects[s].Held? then effects[s].storage else s);
  }

  // ---- and only then ----

  /** On every walk, a forgotten cell is seen to hold at the end of its block what it does hold. */
  ghost predicate OutsAreRight(p: Program, writes: map<Cell, Source>, asOf: map<Cell, set<Cell>>, forgotten: set<Cell>)
    requires p.WellFormed() && p.cfg.WellFormed()
  {
    forall cell, w :: cell in forgotten && IsWalk(p.cfg, w) && End(p.cfg, w) == cell.block ==>
      ValueOut(p.cfg, writes, asOf, forgotten, w, cell.storage) == Holds(p, w, |p.code[cell.block]|, cell.storage)
  }

  lemma {:induction false} InsFollowOuts(p: Program, writes: map<Cell, Source>, asOf: map<Cell, set<Cell>>,
                                         forgotten: set<Cell>, w: Walk, s: nat)
    requires AssignmentsKnown(p, writes, asOf, forgotten) && OutsAreRight(p, writes, asOf, forgotten) && IsWalk(p.cfg, w)
    ensures ValueIn(p.cfg, writes, asOf, w, s) == Holds(p, w, 0, s)
    decreases w
  {
    if w.Step? {
      var b := End(p.cfg, w.prev);
      var effects := Effects(p.code[b], |p.code[b]|);
      assert BlockMatches(p.code[b], writes, b, |p.code[b]|);
      assert Cell(b, s) in writes <==> s in effects;
      HoldsByEffect(p, w.prev, |p.code[b]|, s);
      InsFollowOuts(p, writes, asOf, forgotten, w.prev, s);
      if Cell(b, s) in AsOf(asOf, Cell(w.block, s)) {
        assert Cell(b, s) in forgotten;
      } else if s in effects && effects[s].Held? {
        InsFollowOuts(p, writes, asOf, forgotten, w.prev, effects[s].storage);
      }
    }
  }

  lemma RightOnlyIfPutBack(p: Program, writes: map<Cell, Source>, asOf: map<Cell, set<Cell>>, forgotten: set<Cell>, cell: Cell)
    requires AssignmentsKnown(p, writes, asOf, forgotten) && OutsAreRight(p, writes, asOf, forgotten) && cell in forgotten
    ensures PutsBack(p, cell)
  {
    forall w | IsWalk(p.cfg, w) && End(p.cfg, w) == cell.block
      ensures Holds(p, w, 0, cell.storage) == Holds(p, w, |p.code[cell.block]|, cell.storage)
    {
      InsFollowOuts(p, writes, asOf, forgotten, w, cell.storage);
    }
  }

  // ---- reads that meet none ----

  /** Whether the search for the contents of `s` on entry to the last block comes past a forgotten assignment. */
  predicate MeetsIn(p: Program, writes: map<Cell, Source>, asOf: map<Cell, set<Cell>>, w: Walk, s: nat)
    decreases w, 0
  {
    w.Step? && MeetsOut(p, writes, asOf, AsOf(asOf, Cell(w.block, s)), w.prev, s)
  }

  predicate MeetsOut(p: Program, writes: map<Cell, Source>, asOf: map<Cell, set<Cell>>, missed: set<Cell>, w: Walk, s: nat)
    decreases w, 1
  {
    var cell := Cell(End(p.cfg, w), s);
    || cell in missed
    || (cell !in writes && MeetsIn(p, writes, asOf, w, s))
    || (cell in writes && writes[cell].Incoming? && MeetsIn(p, writes, asOf, w, writes[cell].storage))
  }

  lemma {:induction false} UnmetInIsRight(p: Program, writes: map<Cell, Source>, asOf: map<Cell, set<Cell>>,
                                          forgotten: set<Cell>, w: Walk, s: nat)
    requires AssignmentsKnown(p, writes, asOf, forgotten) && IsWalk(p.cfg, w)
    requires !MeetsIn(p, writes, asOf, w, s)
    ensures ValueIn(p.cfg, writes, asOf, w, s) == Holds(p, w, 0, s)
    decreases w, 0
  {
    if w.Step? {
      UnmetOutIsRight(p, writes, asOf, forgotten, AsOf(asOf, Cell(w.block, s)), w.prev, s);
    }
  }

  lemma {:induction false} UnmetOutIsRight(p: Program, writes: map<Cell, Source>, asOf: map<Cell, set<Cell>>,
                                           forgotten: set<Cell>, missed: set<Cell>, w: Walk, s: nat)
    requires AssignmentsKnown(p, writes, asOf, forgotten) && IsWalk(p.cfg, w)
    requires !MeetsOut(p, writes, asOf, missed, w, s)
    ensures ValueOut(p.cfg, writes, asOf, missed, w, s) == Holds(p, w, |p.code[End(p.cfg, w)]|, s)
    decreases w, 1
  {
    var b := End(p.cfg, w);
    var effects := Effects(p.code[b], |p.code[b]|);
    assert BlockMatches(p.code[b], writes, b, |p.code[b]|);
    assert Cell(b, s) in writes <==> s in effects;
    HoldsByEffect(p, w, |p.code[b]|, s);
    if s !in effects {
      UnmetInIsRight(p, writes, asOf, forgotten, w, s);
    } else if effects[s].Held? {
      UnmetInIsRight(p, writes, asOf, forgotten, w, effects[s].storage);
    }
  }

  /** The same for a read before statement `i`. */
  predicate MeetsForgotten(p: Program, writes: map<Cell, Source>, asOf: map<Cell, set<Cell>>, w: Walk, i: nat, s: nat)
    requires p.WellFormed() && End(p.cfg, w) < |p.code| && i <= |p.code[End(p.cfg, w)]|
  {
    var effects := Effects(p.code[End(p.cfg, w)], i);
    if s !in effects then MeetsIn(p, writes, asOf, w, s)
    else effects[s].Held? && MeetsIn(p, writes, asOf, w, effects[s].storage)
  }

  lemma UnmetIsRight(p: Program, writes: map<Cell, Source>, asOf: map<Cell, set<Cell>>, forgotten: set<Cell>,
                     w: Walk, i: nat, s: nat)
    requires AssignmentsKnown(p, writes, asOf, forgotten) && IsWalk(p.cfg, w) && i <= |p.code[End(p.cfg, w)]|
    requires !MeetsForgotten(p, writes, asOf, w, i, s)
    ensures Seen(p, writes, asOf, w, i, s) == Holds(p, w, i, s)
  {
    HoldsByEffect(p, w, i, s);
    var effects := Effects(p.code[End(p.cfg, w)], i);
    if s !in effects {
      UnmetInIsRight(p, writes, asOf, forgotten, w, s);
    } else if effects[s].Held? {
      UnmetInIsRight(p, writes, asOf, forgotten, w, effects[s].storage);
    }
  }

  // ---- what is seen was computed before ----

  /** A value seen on entry to a block was not computed by the visit that is about to begin. */
  lemma {:induction false} SeenWasComputedBefore(g: FlowGraph, writes: map<Cell, Source>, asOf: map<Cell, set<Cell>>,
                                                 w: Walk, s: nat)
    ensures var v := ValueIn(g, writes, asOf, w, s); v.Computed? ==> Length(v.at) < Length(w)
    decreases w, 0
  {
    if w.Step? {
      SeenOutComputedBefore(g, writes, asOf, AsOf(asOf, Cell(w.block, s)), w.prev, s);
    }
  }

  lemma {:induction false} SeenOutComputedBefore(g: FlowGraph, writes: map<Cell, Source>, asOf: map<Cell, set<Cell>>,
                                                 missed: set<Cell>, w: Walk, s: nat)
    ensures var v := ValueOut(g, writes, asOf, missed, w, s); v.Computed? ==> Length(v.at) <= Length(w)
    decreases w, 1
  {
    var cell := Cell(End(g, w), s);
    SeenWasComputedBefore(g, writes, asOf, w, s);
    if cell in writes && writes[cell].Incoming? {
      SeenWasComputedBefore(g, writes, asOf, w, writes[cell].storage);
    }
  }
}
