/**
 When letting go of a trivial phi makes a block forget an assignment, told from the program and the order
 of translation. Blocks that read the storage afterwards are given what it held before.
 */
module OverwrittenDefinitions {
  import opened Wrappers
  import opened FlowGraphs
  import opened SsaSemantics
  import opened SsaSteps
  import opened ReadFrames
  import opened BuilderInvariants
  import opened Programs
  import opened ForgottenAssignments
  import opened DelayedPhis
  import opened PhiOrigins
  import opened NodeGraphBuilders

  /** A block that comes before one of its predecessors has read the storage on entry, and assigns it. */
  ghost predicate Reassigns(p: Program, order: seq<nat>, b: nat, s: nat)
    requires p.WellFormed()
  {
    b < |p.code| && LateBlock(p.cfg, order, b) && Asks(p, b, s) && s in BlockEffects(p, b)
  }

  /** The builder has been run on the program, with the blocks in this order. */
  ghost predicate HasRun(p: Program, order: seq<nat>, builder: NodeGraphBuilder)
    reads builder
  {
    && p.WellFormed() && IsOrder(p.cfg, order)
    && builder.Translated(p) && ListedBy(p, order, builder.delayed, |order|)
    && forall j :: 0 <= j <= |order| ==> ListedAt(p, order, builder.delayed, j)
  }

  /** What the tables say once all phis have their operands. */
  ghost predicate Done(p: Program, order: seq<nat>, st: State, finished: seq<Finish>) {
    && Sound(p) && IsOrder(p.cfg, order)
    && AssignmentsKnown(p, st.writes, st.asOf, st.forgotten) && OneNodeEach(st.writes)
    && HistoryOk(p.cfg, st, finished) && |finished| == |st.delayed|
    && ListedBy(p, order, st.delayed, |order|) && Wanted(p, st.delayed)
  }

  lemma RunIsDone(p: Program, order: seq<nat>, builder: NodeGraphBuilder)
    requires HasRun(p, order, builder)
    ensures Done(p, order, builder.St(), builder.finished) && p.cfg == builder.cfg
  {
    hide Wanted, ListedBy, ListedAt, HistoryOk, AssignmentsKnown, OneNodeEach, IsOrder;
    builder.AllKnown(p);
    builder.RecordedParts(p);
  }

  // ---- what is forgotten ----

  /** Whatever had been forgotten when a phi got its operands, it was not its own cell. */
  lemma ForgottenBefore(p: Program, order: seq<nat>, st: State, finished: seq<Finish>, k: nat)
    requires Done(p, order, st, finished) && k < |finished|
    ensures OnlyForgets(p, order, st.delayed[k], finished[k].st.forgotten)
  {
    hide LateBlock, Asks, FinishOk, AssignmentsKnown;
    forall cell | cell in finished[k].st.forgotten
      ensures cell != st.delayed[k] && MayForget(p, order, cell)
    {
      ForgottenWasDelayed(st.delayed, finished[..k], cell);
      var j :| 0 <= j < k && st.delayed[j] == cell && Overwrites(finished[..k][j], cell);
      assert finished[..k][j] == finished[j];
      OverwrittenMayForget(p, order, st, finished, j);
    }
  }

  lemma OverwrittenMayForget(p: Program, order: seq<nat>, st: State, finished: seq<Finish>, j: nat)
    requires Done(p, order, st, finished) && j < |finished| && Overwrites(finished[j], st.delayed[j])
    ensures MayForget(p, order, st.delayed[j])
    ensures st.delayed[j].block < |p.code| && st.delayed[j].storage in BlockEffects(p, st.delayed[j].block)
    ensures st.delayed[j].block != p.cfg.entry
  {
    hide LateBlock, Asks, Trivial;
    var cell := st.delayed[j];
    assert FinishOk(p.cfg, st, finished[j], cell) && IsWanted(p, cell);
    assert BlockMatches(p.code[cell.block], st.writes, cell.block, |p.code[cell.block]|);
    assert Cell(cell.block, cell.storage) in st.writes;
  }

  lemma FinishedIsTidy(p: Program, order: seq<nat>, st: State, finished: seq<Finish>, k: nat)
    requires Done(p, order, st, finished) && k < |finished|
    ensures Tidy(p, order, st.delayed[k], finished[k].st)
    ensures OnlyForgets(p, order, st.delayed[k], finished[k].st.forgotten)
  {
    hide Done, LateBlock, AssignmentsKnown, ListedBy, OnlyForgets, DatesKnown, DatesBefore, ForgottenBy;
    FinishedState(p, order, st, finished, k);
    ForgottenBefore(p, order, st, finished, k);
    DatesOnlyForget(p, order, st.delayed[k], finished[k].st);
    MatchesAlone(p, st.writes, st.asOf, st.forgotten);
    DelayedAreLate(p, order, st.delayed);
  }

  lemma FinishedState(p: Program, order: seq<nat>, st: State, finished: seq<Finish>, k: nat)
    requires Done(p, order, st, finished) && k < |finished|
    ensures p.WellFormed() && |finished| == |st.delayed|
    ensures finished[k].st.writes == st.writes && finished[k].st.delayed == st.delayed
    ensures DatesKnown(finished[k].st) && DatesBefore(finished[k].st)
    ensures AssignmentsKnown(p, st.writes, st.asOf, st.forgotten) && ListedBy(p, order, st.delayed, |order|)
  {
    hide LateBlock, AssignmentsKnown, ListedBy, Wanted, OneNodeEach, IsOrder, Inv, Gathers, DatesKnown, DatesBefore;
    hide ForgottenBy, FlowGraph.AllReachable, FlowGraph.WellFormed;
    assert FinishOk(p.cfg, st, finished[k], st.delayed[k]);
  }

  lemma DatesOnlyForget(p: Program, order: seq<nat>, self: Cell, st: State)
    requires p.WellFormed() && DatesBefore(st) && OnlyForgets(p, order, self, st.forgotten)
    ensures forall cell :: cell in st.asOf ==> OnlyForgets(p, order, self, st.asOf[cell])
  {
    hide MayForget;
  }

  lemma MatchesAlone(p: Program, writes: map<Cell, Source>, asOf: map<Cell, set<Cell>>, forgotten: set<Cell>)
    requires AssignmentsKnown(p, writes, asOf, forgotten)
    ensures AssignmentsKnown(p, writes, map[], {})
  {
    hide BlockMatches;
  }

  lemma DelayedAreLate(p: Program, order: seq<nat>, delayed: seq<Cell>)
    requires p.WellFormed() && ListedBy(p, order, delayed, |order|)
    ensures forall cell :: cell in delayed ==> LateBlock(p.cfg, order, cell.block)
  {
    hide LateBlock, Asks;
  }

  /** The phi of a cell whose origins are clear is trivial, and overwrites an assignment, exactly if there is one. */
  lemma HeaderOverwrites(p: Program, order: seq<nat>, st: State, finished: seq<Finish>, k: nat, b: nat, s: nat)
    requires Done(p, order, st, finished) && k < |finished| && st.delayed[k] == Cell(b, s)
    requires Reassigns(p, order, b, s) && OriginsClear(p, order, b, s)
    ensures Overwrites(finished[k], Cell(b, s)) <==> OneOrigin(p, order, b, s)
  {
    hide LateBlock, Asks, Tidy, OnlyForgets, OriginsClear, OneOrigin, Trivial, Inv, DatesKnown;
    var f := finished[k];
    FinishedIsTidy(p, order, st, finished, k);
    assert FinishOk(p.cfg, st, f, Cell(b, s));
    assert BlockMatches(p.code[b], st.writes, b, |p.code[b]|);
    assert Cell(b, s) in st.writes;
    TrivialIfOneOrigin(p, order, f.st, f.pending, f.phi, b, s);
  }

  /** In every run, a block forgets such an assignment exactly if its phi has one origin besides itself. */
  lemma ReassignmentForgotten(p: Program, order: seq<nat>, builder: NodeGraphBuilder, b: nat, s: nat)
    requires HasRun(p, order, builder) && Sound(p) && Reassigns(p, order, b, s) && OriginsClear(p, order, b, s)
    ensures Cell(b, s) in builder.forgotten <==> OneOrigin(p, order, b, s)
  {
    hide OriginsClear, OneOrigin, LateBlock, Asks, Overwrites;
    RunIsDone(p, order, builder);
    assert b in order[..|order|] by {
      BlocksAreListed(p.cfg, order, b);
    }
    var k :| 0 <= k < |builder.delayed| && builder.delayed[k] == Cell(b, s);
    HeaderOverwrites(p, order, builder.St(), builder.finished, k, b, s);
    if OneOrigin(p, order, b, s) {
      OverwrittenIsForgotten(builder.delayed, builder.finished, k);
    }
    if Cell(b, s) in builder.forgotten {
      ForgottenWasDelayed(builder.delayed, builder.finished, Cell(b, s));
      var j :| 0 <= j < |builder.finished| && builder.delayed[j] == Cell(b, s) && Overwrites(builder.finished[j], Cell(b, s));
      SameIndex(builder.delayed, j, k);
    }
  }

  lemma BlocksAreListed(g: FlowGraph, order: seq<nat>, b: nat)
    requires IsOrder(g, order) && b < |g.preds|
    ensures b in order[..|order|]
  {
    assert order[..|order|] == order;
  }

  lemma SameIndex(cells: seq<Cell>, i: nat, j: nat)
    requires i < |cells| && j < |cells| && cells[i] == cells[j]
    requires forall i, j :: 0 <= i < j < |cells| ==> cells[i] != cells[j]
    ensures i == j
  {
  }

  // ---- for all cells of a program ----

  /** Wherever a block might forget an assignment, the origins of its phi can be told from the program. */
  ghost predicate AllClear(p: Program, order: seq<nat>)
    requires Sound(p)
  {
    forall b: nat, s: nat {:trigger Asks(p, b, s)} :: Reassigns(p, order, b, s) ==> OriginsClear(p, order, b, s)
  }

  ghost predicate Forgets(p: Program, order: seq<nat>, b: nat, s: nat)
    requires Sound(p)
  {
    Reassigns(p, order, b, s) && OneOrigin(p, order, b, s)
  }

  /** In every run on such a program, what is forgotten is exactly what program and order tell. */
  lemma ForgottenExactly(p: Program, order: seq<nat>, builder: NodeGraphBuilder, cell: Cell)
    requires HasRun(p, order, builder) && Sound(p) && AllClear(p, order)
    ensures cell in builder.forgotten <==> Forgets(p, order, cell.block, cell.storage)
  {
    hide OriginsClear, OneOrigin, LateBlock, Asks, HasRun;
    var b, s := cell.block, cell.storage;
    if cell in builder.forgotten {
      ForgottenIsAssigned(p, order, builder, cell);
    }
    if Reassigns(p, order, b, s) {
      assert Asks(p, b, s);
      ReassignmentForgotten(p, order, builder, b, s);
    }
  }

  /** What the blocks remember is right exactly if all assignments that program and order tell put back what was there. */
  lemma RememberedByProgram(p: Program, order: seq<nat>, builder: NodeGraphBuilder)
    requires HasRun(p, order, builder) && Sound(p) && AllClear(p, order) && p.cfg == builder.cfg
    ensures builder.RemembersRight(p) <==>
              forall b: nat, s: nat :: Forgets(p, order, b, s) ==> PutsBack(p, Cell(b, s))
  {
    hide Forgets, PutsBack, AllClear, NodeGraphBuilder.RemembersRight;
    assert builder.Translated(p);
    builder.RememberedDefinitionKept(p);
    hide HasRun, NodeGraphBuilder.Translated;
    forall b: nat, s: nat
      ensures Cell(b, s) in builder.forgotten <==> Forgets(p, order, b, s)
    {
      ForgottenExactly(p, order, builder, Cell(b, s));
    }
    if forall b: nat, s: nat :: Forgets(p, order, b, s) ==> PutsBack(p, Cell(b, s)) {
      forall cell | cell in builder.forgotten
        ensures PutsBack(p, cell)
      {
        assert Cell(cell.block, cell.storage) == cell;
      }
    }
  }

  /** Only blocks that come before one of their predecessors forget anything, and only what they have read and assign. */
  lemma ForgottenIsAssigned(p: Program, order: seq<nat>, builder: NodeGraphBuilder, cell: Cell)
    requires HasRun(p, order, builder) && cell in builder.forgotten
    ensures Reassigns(p, order, cell.block, cell.storage) && cell.block != p.cfg.entry
  {
    hide LateBlock, Asks, Done;
    RunIsDone(p, order, builder);
    hide HasRun;
    FinishedHistory(p, order, builder.St(), builder.finished);
    ForgottenWasDelayed(builder.delayed, builder.finished, cell);
    var k :| 0 <= k < |builder.finished| && builder.delayed[k] == cell && Overwrites(builder.finished[k], cell);
    OverwrittenMayForget(p, order, builder.St(), builder.finished, k);
  }

  lemma FinishedHistory(p: Program, order: seq<nat>, st: State, finished: seq<Finish>)
    requires Done(p, order, st, finished)
    ensures |finished| == |st.delayed| && st.forgotten == ForgottenBy(st.delayed, finished)
  {
  }

  /** No block that might forget an assignment does. */
  ghost predicate NoneForgets(p: Program, order: seq<nat>)
    requires Sound(p)
  {
    AllClear(p, order) && forall b: nat, s: nat :: !Forgets(p, order, b, s)
  }

  /** In such a program nothing is forgotten, and every read is right on every walk. */
  lemma AllReadsAreRight(p: Program, order: seq<nat>, builder: NodeGraphBuilder, u: Use, w: Walk)
    requires HasRun(p, order, builder) && Sound(p) && NoneForgets(p, order)
    requires IsUse(p, u) && IsWalk(p.cfg, w) && End(p.cfg, w) == u.block
    ensures builder.forgotten == {}
    ensures u in builder.uses && builder.uses[u] < |builder.canon|
    ensures Eval(p.cfg, builder.nodes, builder.canon[builder.uses[u]], w) == Some(Holds(p, w, u.index, UsedStorage(p, u)))
  {
    hide NodeGraphBuilder.Translated, AllClear, Forgets, LateBlock, Asks, Seen, MeetsForgotten, PutsBack, Done;
    forall cell | cell in builder.forgotten
      ensures false
    {
      ForgottenExactly(p, order, builder, cell);
    }
    RunIsDone(p, order, builder);
    builder.EveryReadIsCorrect(p, u, w);
  }

  // ---- reads afterwards ----

  /** A late block, translated after `b`, reads what it finds in `s` on entry. */
  ghost predicate ReadsAfter(p: Program, order: seq<nat>, b: nat, s: nat, u: Use)
    requires p.WellFormed()
  {
    && IsUse(p, u) && EntryStorage(p, u) == Some(s) && LateBlock(p.cfg, order, u.block)
    && exists j :: 0 <= j < |order| && order[j] == u.block && b in order[..j]
  }

  /** The header's cell is listed before the cell of the block that reads the storage later. */
  lemma ListedBefore(p: Program, order: seq<nat>, delayed: seq<Cell>, b: nat, s: nat, u: Use) returns (k: nat, i: nat)
    requires p.WellFormed() && Reassigns(p, order, b, s) && ReadsAfter(p, order, b, s, u)
    requires IsOrder(p.cfg, order) && ListedBy(p, order, delayed, |order|)
    requires forall j :: 0 <= j <= |order| ==> ListedAt(p, order, delayed, j)
    ensures k < i < |delayed| && delayed[k] == Cell(b, s) && delayed[i] == Cell(u.block, s)
  {
    hide LateBlock;
    var j :| 0 <= j < |order| && order[j] == u.block && b in order[..j];
    assert ListedAt(p, order, delayed, j);
    var n :| 0 <= n <= |delayed| && ListedBy(p, order, delayed[..n], j);
    assert order[..|order|] == order;
    assert Asks(p, u.block, s);
    assert Cell(u.block, s) in delayed && Cell(b, s) in delayed[..n];
    assert Cell(u.block, s) !in delayed[..n];
    i :| 0 <= i < |delayed| && delayed[i] == Cell(u.block, s);
    k :| 0 <= k < n && delayed[..n][k] == Cell(b, s);
    InPrefix(delayed, n, i);
  }

  lemma InPrefix(cells: seq<Cell>, n: nat, i: nat)
    requires n <= |cells| && i < |cells|
    ensures i < n ==> cells[i] in cells[..n]
  {
    if i < n {
      assert cells[..n][i] == cells[i];
    }
  }

  /** The block has forgotten its assignment by the time the later block's phi reads it. */
  lemma ForgottenByThen(p: Program, order: seq<nat>, st: State, finished: seq<Finish>, b: nat, s: nat, u: Use)
    requires Done(p, order, st, finished) && Reassigns(p, order, b, s) && ReadsAfter(p, order, b, s, u)
    requires OriginsClear(p, order, b, s) && OneOrigin(p, order, b, s)
    requires forall j :: 0 <= j <= |order| ==> ListedAt(p, order, st.delayed, j)
    ensures Cell(b, s) in AsOf(st.asOf, Cell(u.block, s))
  {
    hide Reassigns, OriginsClear, OneOrigin, ReadsAfter, ListedBy, ListedAt, AssignmentsKnown, Overwrites, IsOrder;
    hide Wanted, OneNodeEach, FlowGraph.AllReachable;
    var k, i := ListedBefore(p, order, st.delayed, b, s, u);
    HeaderOverwrites(p, order, st, finished, k, b, s);
    assert finished[..i][k] == finished[k];
    OverwrittenIsForgotten(st.delayed, finished[..i], k);
    assert FinishOk(p.cfg, st, finished[i], Cell(u.block, s));
  }

  /** A value from before the visit of the header is not the one that the visit computes. */
  lemma SeenIsWrong(p: Program, writes: map<Cell, Source>, asOf: map<Cell, set<Cell>>, b: nat, s: nat, u: Use, w: Walk)
    requires p.WellFormed() && p.cfg.WellFormed() && IsUse(p, u) && EntryStorage(p, u) == Some(s)
    requires IsWalk(p.cfg, w) && w.Step? && w.block == u.block && End(p.cfg, w.prev) == b
    requires b < |p.code| && s in BlockEffects(p, b) && BlockEffects(p, b)[s].Made?
    requires Cell(b, s) in AsOf(asOf, Cell(u.block, s))
    ensures Seen(p, writes, asOf, w, u.index, UsedStorage(p, u)) == ValueIn(p.cfg, writes, asOf, w.prev, s)
    ensures ValueIn(p.cfg, writes, asOf, w.prev, s) != Holds(p, w, u.index, UsedStorage(p, u))
  {
    var missed := AsOf(asOf, Cell(u.block, s));
    assert ValueOut(p.cfg, writes, asOf, missed, w.prev, s) == ValueIn(p.cfg, writes, asOf, w.prev, s);
    assert ValueIn(p.cfg, writes, asOf, w, s) == ValueOut(p.cfg, writes, asOf, missed, w.prev, s);
    HoldsByEffect(p, w, u.index, UsedStorage(p, u));
    HoldsByEffect(p, w.prev, |p.code[b]|, s);
    SeenWasComputedBefore(p.cfg, writes, asOf, w.prev, s);
    assert Holds(p, w, 0, s) == Computed(b, BlockEffects(p, b)[s].index, w.prev);
  }

  /**
   In every run, if a block forgets what it computes, a read in a late block that comes after it is wrong on
   every walk that comes from the one straight to the other.
   */
  lemma ReadsAfterwardsAreWrong(p: Program, order: seq<nat>, builder: NodeGraphBuilder, b: nat, s: nat, u: Use, w: Walk)
    requires HasRun(p, order, builder) && Sound(p) && Reassigns(p, order, b, s) && ReadsAfter(p, order, b, s, u)
    requires OriginsClear(p, order, b, s) && OneOrigin(p, order, b, s)
    requires BlockEffects(p, b)[s].Made?
    requires IsWalk(p.cfg, w) && w.Step? && w.block == u.block && End(p.cfg, w.prev) == b
    ensures u in builder.uses && builder.uses[u] < |builder.canon|
    ensures Eval(p.cfg, builder.nodes, builder.canon[builder.uses[u]], w) ==
            Some(ValueIn(p.cfg, builder.writes, builder.asOf, w.prev, s))
    ensures ValueIn(p.cfg, builder.writes, builder.asOf, w.prev, s) != Holds(p, w, u.index, UsedStorage(p, u))
  {
    hide NodeGraphBuilder.Translated, Done, ListedAt, ListedBy, Seen, MeetsForgotten, PutsBack, IsOrder, LateBlock;
    hide OriginsClear, OneOrigin, Asks, FlowGraph.AllReachable;
    RunIsDone(p, order, builder);
    ForgottenByThen(p, order, builder.St(), builder.finished, b, s, u);
    builder.EveryReadIsCorrect(p, u, w);
    SeenIsWrong(p, builder.writes, builder.asOf, b, s, u, w);
  }

  // ---- saving and restoring ----

  /** Block `q` follows `b` only, and puts back into `s` what `b` had saved of it. */
  ghost predicate Restores(p: Program, order: seq<nat>, q: nat, b: nat, s: nat)
    requires p.WellFormed() && b < |p.code|
  {
    && q < |p.code| && p.cfg.preds[q] == [b] && !LateBlock(p.cfg, order, q)
    && s in BlockEffects(p, q) && BlockEffects(p, q)[s].Held?
    && var t := BlockEffects(p, q)[s].storage;
       t in BlockEffects(p, b) && BlockEffects(p, b)[t] == Held(s)
  }

  /**
   A loop header that assigns a storage which it has read before. It is entered from the entry
   block and from blocks that put the storage back.
   */
  ghost predicate SavesAndRestores(p: Program, order: seq<nat>, b: nat, s: nat)
    requires p.WellFormed()
  {
    && Reassigns(p, order, b, s)
    && p.cfg.entry in p.cfg.preds[b]
    && forall i :: 0 <= i < |p.cfg.preds[b]| && p.cfg.preds[b][i] != p.cfg.entry ==>
         Restores(p, order, p.cfg.preds[b][i], b, s)
  }

  lemma RestoredIsItself(p: Program, order: seq<nat>, q: nat, b: nat, s: nat)
    requires Sound(p) && b < |p.code| && Restores(p, order, q, b, s) && LateBlock(p.cfg, order, b) && b != p.cfg.entry
    ensures OutOrigin(p, order, Cell(b, s), q, s, false) == AtEntryOf(Cell(b, s))
  {
    hide LateBlock, Asks, FlowGraph.AllReachable;
    var t := BlockEffects(p, q)[s].storage;
    assert InOrigin(p, order, Cell(b, s), b, s, true) == AtEntryOf(Cell(b, s));
    assert OutOrigin(p, order, Cell(b, s), b, t, true) == AtEntryOf(Cell(b, s));
    assert InOrigin(p, order, Cell(b, s), q, t, true) == AtEntryOf(Cell(b, s));
  }

  lemma EntryIsClear(p: Program, order: seq<nat>, self: Cell, s: nat)
    requires Sound(p)
    ensures var o := OutOrigin(p, order, self, p.cfg.entry, s, false); o.MadeBy? || o.AtStart?
  {
    hide Asks, FlowGraph.AllReachable;
    assert !LateBlock(p.cfg, order, p.cfg.entry);
  }

  /** Saving a storage and putting it back on the way round is one of the ways to forget. */
  lemma SavedAndRestoredIsForgotten(p: Program, order: seq<nat>, b: nat, s: nat)
    requires Sound(p) && SavesAndRestores(p, order, b, s)
    ensures OriginsClear(p, order, b, s) && OneOrigin(p, order, b, s)
  {
    hide LateBlock, Asks, OutOrigin, Restores;
    var self := Cell(b, s);
    EntryIsNotLate(p, order);
    EntryIsClear(p, order, self, s);
    var e :| 0 <= e < |p.cfg.preds[b]| && p.cfg.preds[b][e] == p.cfg.entry;
    forall i | 0 <= i < |p.cfg.preds[b]| && p.cfg.preds[b][i] != p.cfg.entry
      ensures OperandOrigin(p, order, b, s, i) == AtEntryOf(self)
    {
      RestoredIsItself(p, order, p.cfg.preds[b][i], b, s);
    }
    assert IsTheOrigin(p, order, b, s, e);
  }

  lemma EntryIsNotLate(p: Program, order: seq<nat>)
    requires p.cfg.WellFormed()
    ensures !LateBlock(p.cfg, order, p.cfg.entry)
  {
  }

  // ---- a program ----

  /**
   Block 1 saves storage 0 in storage 1 and assigns it; block 2 puts the saved value back. Block 3
   is the header of a second loop, entered from block 1, and reads storage 0.
   */
  function SaveAndRestore(): Program {
    Program(FlowGraph(0, [[], [0, 2], [1], [1, 4], [3]]),
            [[], [Copy(1, 0), Assign(0, [])], [Copy(0, 1)], [Assign(2, [0])], []])
  }

  lemma SaveAndRestoreIsSuch()
    ensures var p, order := SaveAndRestore(), [0, 1, 2, 3, 4];
            && p.WellFormed() && p.cfg.WellFormed() && IsOrder(p.cfg, order)
            && SavesAndRestores(p, order, 1, 0) && BlockEffects(p, 1)[0].Made?
            && ReadsAfter(p, order, 1, 0, Use(3, 0, 0))
            && IsWalk(p.cfg, Step(Step(Start, 1, 0), 3, 0))
  {
    hide LateBlock;
    var p, order := SaveAndRestore(), [0, 1, 2, 3, 4];
    HeadersAreLate();
    SavesAndRestoresZero();
    assert order[3] == 3 && order[..3] == [0, 1, 2] && 1 in order[..3];
  }

  lemma HeadersAreLate()
    ensures var g, order := SaveAndRestore().cfg, [0, 1, 2, 3, 4];
            LateBlock(g, order, 1) && LateBlock(g, order, 3) && !LateBlock(g, order, 2)
  {
    var g, order := SaveAndRestore().cfg, [0, 1, 2, 3, 4];
    assert order[..1] == [0] && order[..2] == [0, 1] && order[..3] == [0, 1, 2];
    assert order[1] == 1 && g.preds[1][1] !in order[..1];
    assert order[3] == 3 && g.preds[3][1] !in order[..3];
  }

  lemma SavesAndRestoresZero()
    ensures SavesAndRestores(SaveAndRestore(), [0, 1, 2, 3, 4], 1, 0)
    ensures BlockEffects(SaveAndRestore(), 1)[0].Made?
  {
    hide LateBlock;
    var p, order := SaveAndRestore(), [0, 1, 2, 3, 4];
    HeadersAreLate();
    assert Effects(p.code[1], 0) == map[];
    assert Effects(p.code[1], 1) == map[1 := Held(0)];
    assert Effects(p.code[1], 2) == map[1 := Held(0), 0 := Made(1)];
    assert Effects(p.code[2], 1) == map[0 := Held(1)];
    assert EntryStorage(p, Use(1, 0, 0)) == Some(0);
    assert Restores(p, order, 2, 1, 0);
  }

  lemma SaveAndRestoreIsReachable()
    ensures SaveAndRestore().cfg.AllReachable()
  {
    hide FlowGraph.ReachableIn;
    var g := SaveAndRestore().cfg;
    EntryIsReached(g);
    ReachedThrough(g, 1, 0, 0);
    ReachedThrough(g, 2, 0, 1);
    ReachedThrough(g, 3, 0, 1);
    ReachedThrough(g, 4, 0, 2);
  }

  lemma EntryIsReached(g: FlowGraph)
    requires g.entry < |g.preds|
    ensures g.ReachableIn(g.entry, 0)
  {
  }

  lemma ReachedThrough(g: FlowGraph, b: nat, i: nat, k: nat)
    requires b < |g.preds| && i < |g.preds[b]| && g.ReachableIn(g.preds[b][i], k)
    ensures g.ReachableIn(b, k + 1)
  {
  }

  /** Running the builder on it: the read of block 3 stands for what storage 0 held at the very start. */
  method ReadComesOutWrong() returns (builder: NodeGraphBuilder)
    ensures fresh(builder) && HasRun(SaveAndRestore(), [0, 1, 2, 3, 4], builder)
    ensures Cell(1, 0) in builder.forgotten
    ensures var p, u, w := SaveAndRestore(), Use(3, 0, 0), Step(Step(Start, 1, 0), 3, 0);
            && IsWalk(p.cfg, w) && u in builder.uses && builder.uses[u] < |builder.canon|
            && Eval(p.cfg, builder.nodes, builder.canon[builder.uses[u]], w) == Some(Initial(0))
            && Holds(p, w, 0, 0) == Computed(1, 1, Step(Start, 1, 0))
  {
    hide NodeGraphBuilder.Translated, NodeGraphBuilder.Valid, SavesAndRestores, ReadsAfter, ListedBy, ListedAt;
    SaveAndRestoreIsSuch();
    SaveAndRestoreIsReachable();
    var p, order := SaveAndRestore(), [0, 1, 2, 3, 4];
    builder := new NodeGraphBuilder(p.cfg);
    builder.Transform(p, order);
    WrongInSaveAndRestore(builder);
  }

  lemma WrongInSaveAndRestore(builder: NodeGraphBuilder)
    requires HasRun(SaveAndRestore(), [0, 1, 2, 3, 4], builder)
    ensures Cell(1, 0) in builder.forgotten
    ensures var p, u, w := SaveAndRestore(), Use(3, 0, 0), Step(Step(Start, 1, 0), 3, 0);
            && IsWalk(p.cfg, w) && u in builder.uses && builder.uses[u] < |builder.canon|
            && Eval(p.cfg, builder.nodes, builder.canon[builder.uses[u]], w) == Some(Initial(0))
            && Holds(p, w, 0, 0) == Computed(1, 1, Step(Start, 1, 0))
  {
    hide NodeGraphBuilder.Translated, SavesAndRestores, OriginsClear, OneOrigin, ReadsAfter, Done, ListedBy, ListedAt, IsOrder;
    hide Eval, ValueIn, ValueOut, Holds;
    var p, order, u, w := SaveAndRestore(), [0, 1, 2, 3, 4], Use(3, 0, 0), Step(Step(Start, 1, 0), 3, 0);
    SaveAndRestoreIsSuch();
    ReassignsZero();
    RunIsDone(p, order, builder);
    WritesAreKnown(p, order, builder);
    SavedAndRestoredIsForgotten(p, order, 1, 0);
    ReassignmentForgotten(p, order, builder, 1, 0);
    ReadsAfterwardsAreWrong(p, order, builder, 1, 0, u, w);
    SeenFromStart(builder.writes, builder.asOf);
    HeldInBlockThree();
  }

  lemma ReassignsZero()
    ensures Reassigns(SaveAndRestore(), [0, 1, 2, 3, 4], 1, 0)
    ensures UsedStorage(SaveAndRestore(), Use(3, 0, 0)) == 0
  {
    hide LateBlock;
    SavesAndRestoresZero();
  }

  lemma WritesAreKnown(p: Program, order: seq<nat>, builder: NodeGraphBuilder)
    requires Done(p, order, builder.St(), builder.finished)
    ensures Sound(p) && AssignmentsKnown(p, builder.writes, builder.asOf, builder.forgotten)
  {
  }

  /** Block 0 assigns nothing: on entry to block 1 storage 0 is seen to hold what it held at the start. */
  lemma SeenFromStart(writes: map<Cell, Source>, asOf: map<Cell, set<Cell>>)
    requires BlockMatches(SaveAndRestore().code[0], writes, 0, 0)
    ensures ValueIn(SaveAndRestore().cfg, writes, asOf, Step(Start, 1, 0), 0) == Initial(0)
  {
    assert Cell(0, 0) !in writes;
  }

  lemma HeldInBlockThree()
    ensures var p, w := SaveAndRestore(), Step(Step(Start, 1, 0), 3, 0);
            IsWalk(p.cfg, w) && Holds(p, w, 0, 0) == Computed(1, 1, Step(Start, 1, 0))
  {
  }
}
