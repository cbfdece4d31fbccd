/**
 Phis that are made before all predecessors of their blocks have been translated: which they are,
 in which order they are listed, and what happens when they get their operands.
 */
module DelayedPhis {
  import opened Wrappers
  import opened FlowGraphs
  import opened SsaSemantics
  import opened SsaSteps
  import opened ReadFrames
  import opened BuilderInvariants
  import opened Programs

  // ---- listing ----

  /** The builder's list of phis, those of them that still lack operands, and the cells they are for. */
  datatype Queue = Queue(listed: seq<nat>, unfinished: seq<nat>, delayed: seq<Cell>)

  /** Reading at the end of `block` may list a phi for the cell. */
  ghost predicate MayDelay(g: FlowGraph, visited: set<nat>, block: nat, cell: Cell) {
    && cell.block < |g.preds| && (cell.block == block || cell.block in visited)
    && exists i :: 0 <= i < |g.preds[cell.block]| && g.preds[cell.block][i] !in visited
  }

  /** Phis have been listed, only for cells for which they may be. */
  ghost predicate Delays(g: FlowGraph, visited: set<nat>, block: nat, q: Queue, q': Queue) {
    && q.listed <= q'.listed && q.unfinished <= q'.unfinished && q.delayed <= q'.delayed
    && |q'.listed| - |q.listed| == |q'.delayed| - |q.delayed| == |q'.unfinished| - |q.unfinished|
    && (q.listed == q.unfinished ==> q'.listed == q'.unfinished)
    && forall i :: |q.delayed| <= i < |q'.delayed| ==> MayDelay(g, visited, block, q'.delayed[i])
  }

  lemma DelaysTwice(g: FlowGraph, visited: set<nat>, block: nat, q: Queue, q': Queue, q'': Queue)
    requires Delays(g, visited, block, q, q') && Delays(g, visited, block, q', q'')
    ensures Delays(g, visited, block, q, q'')
  {
    hide MayDelay;
    forall i | |q.delayed| <= i < |q''.delayed|
      ensures MayDelay(g, visited, block, q''.delayed[i])
    {
      assert i < |q'.delayed| ==> q''.delayed[i] == q'.delayed[i];
    }
  }

  lemma DelaysNothing(g: FlowGraph, visited: set<nat>, block: nat, q: Queue)
    ensures Delays(g, visited, block, q, q)
  {
  }

  lemma NothingToDelay(g: FlowGraph, visited: set<nat>, block: nat, q: Queue, q': Queue)
    requires g.WellFormed() && g.AllIn(visited) && Delays(g, visited, block, q, q')
    ensures q' == q
  {
    assert |q.delayed| < |q'.delayed| ==> MayDelay(g, visited, block, q'.delayed[|q.delayed|]);
    AllMayBeRead(g, visited, block);
  }

  lemma AllMayBeRead(g: FlowGraph, visited: set<nat>, block: nat)
    requires g.WellFormed() && g.AllIn(visited)
    ensures forall cell :: !MayDelay(g, visited, block, cell)
  {
  }

  /** The phis that a read of `s` has listed are for cells of `s` that have not been assigned. */
  ghost predicate ListedFor(q: Queue, q': Queue, writes: map<Cell, Source>, s: nat) {
    forall i :: |q.delayed| <= i < |q'.delayed| ==> q'.delayed[i].storage == s && q'.delayed[i] !in writes
  }

  lemma ListsNothing(g: FlowGraph, visited: set<nat>, block: nat, q: Queue, writes: map<Cell, Source>, s: nat)
    ensures Delays(g, visited, block, q, q) && ListedFor(q, q, writes, s)
  {
  }

  lemma ListsOne(g: FlowGraph, visited: set<nat>, block: nat, q: Queue, cell: Cell, phi: nat, writes: map<Cell, Source>)
    requires MayDelay(g, visited, block, cell) && cell !in writes
    ensures var q' := Queue(q.listed + [phi], q.unfinished + [phi], q.delayed + [cell]);
            Delays(g, visited, block, q, q') && ListedFor(q, q', writes, cell.storage)
  {
  }

  lemma DelaysLonger(g: FlowGraph, visited: set<nat>, block: nat, q: Queue, q': Queue)
    requires Delays(g, visited, block, q, q')
    ensures q.delayed <= q'.delayed && |q'.delayed| - |q.delayed| == |q'.unfinished| - |q.unfinished|
    ensures q.listed == q.unfinished ==> q'.listed == q'.unfinished
  {
  }

  /** Listing in two steps, at the end of `block` and for storage `s`. */
  lemma ListsTwice(g: FlowGraph, visited: set<nat>, block: nat, q: Queue, q': Queue, q'': Queue,
                   writes: map<Cell, Source>, s: nat)
    requires Delays(g, visited, block, q, q') && Delays(g, visited, block, q', q'')
    requires ListedFor(q, q', writes, s) && ListedFor(q', q'', writes, s)
    ensures Delays(g, visited, block, q, q'') && ListedFor(q, q'', writes, s)
  {
    DelaysTwice(g, visited, block, q, q', q'');
    hide MayDelay;
    ListedForTwice(q, q', q'', writes, s);
  }

  lemma ListedForTwice(q: Queue, q': Queue, q'': Queue, writes: map<Cell, Source>, s: nat)
    requires ListedFor(q, q', writes, s) && ListedFor(q', q'', writes, s)
    requires q.delayed <= q'.delayed <= q''.delayed
    ensures ListedFor(q, q'', writes, s)
  {
    forall i | |q.delayed| <= i < |q''.delayed|
      ensures q''.delayed[i].storage == s && q''.delayed[i] !in writes
    {
      assert i < |q'.delayed| ==> q''.delayed[i] == q'.delayed[i];
    }
  }

  /** A cell that was filled too early has been listed. */
  lemma EarlyCellIsDelayed(g: FlowGraph, v: View, cell: Cell)
    requires g.WellFormed() && Settled(g, v, {}) && cell in v.st.ins
    requires cell.block < |g.preds| && !PredsVisited(g, v.st, cell.block)
    ensures cell in v.st.delayed
  {
    hide DefsOk, DatesOk;
    var n := v.st.ins[cell];
    assert {} + Listed(v.incomplete) == Listed(v.incomplete);
    assert Justified(g, Then(v.st, cell), Listed(v.incomplete), cell.block, cell.storage);
    assert n in Listed(v.incomplete);
    var i :| 0 <= i < |v.incomplete| && v.incomplete[i] == n;
    assert v.st.delayed[|v.st.delayed| - |v.incomplete| + i] == PhiCell(v.st.nodes[n]);
  }

  /** While all delayed phis are listed, they are for different cells. */
  lemma DelayedApart(g: FlowGraph, v: View)
    requires TablesOk(g, v) && |v.incomplete| == |v.st.delayed|
    ensures forall i, j :: 0 <= i < j < |v.st.delayed| ==> v.st.delayed[i] != v.st.delayed[j]
  {
    hide DefsOk, DatesOk;
    forall i | 0 <= i < |v.st.delayed|
      ensures v.st.delayed[i] in v.st.ins && v.st.ins[v.st.delayed[i]] == v.incomplete[i]
    {
      assert IsIncomplete(g, v.st, v.incomplete[i]);
      assert v.st.delayed[|v.st.delayed| - |v.incomplete| + i] == PhiCell(v.st.nodes[v.incomplete[i]]);
    }
  }

  // ---- the order of the list ----

  /** Some predecessor of the block does not come before it in the order of translation. */
  ghost predicate LateBlock(g: FlowGraph, order: seq<nat>, b: nat) {
    exists j, i :: 0 <= j < |order| && order[j] == b && b < |g.preds| && 0 <= i < |g.preds[b]|
                   && g.preds[b][i] !in order[..j]
  }

  /** The storage whose contents on entry to the block a read of the block is after, if any. */
  function EntryStorage(p: Program, u: Use): Option<nat>
    requires p.WellFormed() && IsUse(p, u)
  {
    var effects := Effects(p.code[u.block], u.index);
    var s := UsedStorage(p, u);
    if s !in effects then Some(s)
    else match effects[s]
      case Made(_) => None
      case Held(t) => Some(t)
  }

  /** The block reads what storage `s` holds on entry to it. */
  ghost predicate Asks(p: Program, b: nat, s: nat)
    requires p.WellFormed()
  {
    exists u :: IsUse(p, u) && u.block == b && EntryStorage(p, u) == Some(s)
  }

  /** A storage that a block moves about is read by it. */
  lemma {:induction false} HeldIsAsked(p: Program, b: nat, i: nat, s: nat)
    requires p.WellFormed() && b < |p.code| && i <= |p.code[b]|
    requires s in Effects(p.code[b], i) && Effects(p.code[b], i)[s].Held?
    ensures Asks(p, b, Effects(p.code[b], i)[s].storage)
    decreases i
  {
    if i > 0 {
      match p.code[b][i - 1]
      case Assign(dst, _) => HeldIsAsked(p, b, i - 1, s);
      case Copy(dst, src) =>
        if dst != s {
          HeldIsAsked(p, b, i - 1, s);
        } else {
          assert EntryStorage(p, Use(b, i - 1, 0)) == Some(Effects(p.code[b], i)[s].storage);
        }
    }
  }

  /** The listed phis are for storages that their blocks read on entry, or do not assign. */
  ghost predicate Wanted(p: Program, delayed: seq<Cell>)
    requires p.WellFormed()
  {
    forall cell :: cell in delayed ==> IsWanted(p, cell)
  }

  ghost predicate IsWanted(p: Program, cell: Cell)
    requires p.WellFormed()
  {
    && cell.block < |p.code|
    && (Asks(p, cell.block, cell.storage) || cell.storage !in Effects(p.code[cell.block], |p.code[cell.block]|))
  }

  /** What a read of a statement lists is wanted: by the statement, or by a block that has been translated. */
  lemma ReadIsWanted(p: Program, writes: map<Cell, Source>, visited: set<nat>, u: Use, q: Queue, q': Queue)
    requires p.WellFormed() && IsUse(p, u) && u.block !in visited && Wanted(p, q.delayed)
    requires WritesMatch(p, writes, visited, Some((u.block, u.index)))
    requires Delays(p.cfg, visited, u.block, q, q') && ListedFor(q, q', writes, UsedStorage(p, u))
    ensures Wanted(p, q'.delayed)
  {
    hide Asks;
    forall cell | cell in q'.delayed
      ensures IsWanted(p, cell)
    {
      var i :| 0 <= i < |q'.delayed| && q'.delayed[i] == cell;
      if i < |q.delayed| {
        assert cell == q.delayed[i];
      } else {
        assert MayDelay(p.cfg, visited, u.block, cell);
        NewIsWanted(p, writes, visited, u, cell);
      }
    }
  }

  lemma NewIsWanted(p: Program, writes: map<Cell, Source>, visited: set<nat>, u: Use, cell: Cell)
    requires p.WellFormed() && IsUse(p, u) && u.block !in visited
    requires WritesMatch(p, writes, visited, Some((u.block, u.index)))
    requires MayDelay(p.cfg, visited, u.block, cell) && cell.storage == UsedStorage(p, u) && cell !in writes
    ensures IsWanted(p, cell)
  {
    var b, s := cell.block, cell.storage;
    assert BlockMatches(p.code[b], writes, b, Progress(p.code[b], visited, Some((u.block, u.index)), b));
    assert Cell(b, s) in writes <==> s in Effects(p.code[b], Progress(p.code[b], visited, Some((u.block, u.index)), b));
    if b !in visited {
      assert EntryStorage(p, u) == Some(s);
    }
  }

  /**
   How the list stands when the first `j` blocks have been translated: it has the cells that late
   ones of them read on entry, and no cells of the other blocks.
   */
  ghost predicate ListedBy(p: Program, order: seq<nat>, delayed: seq<Cell>, j: nat)
    requires p.WellFormed() && j <= |order|
  {
    && (forall cell :: cell in delayed ==> cell.block in order[..j] && LateBlock(p.cfg, order, cell.block))
    && forall b, s {:trigger Asks(p, b, s)} ::
         b in order[..j] && LateBlock(p.cfg, order, b) && Asks(p, b, s) ==> Cell(b, s) in delayed
  }

  lemma NothingListed(p: Program, order: seq<nat>)
    requires p.WellFormed()
    ensures ListedBy(p, order, [], 0)
  {
  }

  /** Block `order[k]` has been translated. */
  lemma ListedNext(p: Program, order: seq<nat>, k: nat, q: Queue, q': Queue)
    requires p.WellFormed() && IsOrder(p.cfg, order) && k < |order|
    requires ListedBy(p, order, q.delayed, k) && Delays(p.cfg, Listed(order[..k]), order[k], q, q')
    requires order[k] < |p.cfg.preds|
    requires (exists i :: 0 <= i < |p.cfg.preds[order[k]]| && p.cfg.preds[order[k]][i] !in Listed(order[..k])) ==>
               forall s :: Asks(p, order[k], s) ==> Cell(order[k], s) in q'.delayed
    ensures ListedBy(p, order, q'.delayed, k + 1)
  {
    assert order[..k + 1] == order[..k] + [order[k]];
    forall cell | cell in q'.delayed
      ensures cell.block in order[..k + 1] && LateBlock(p.cfg, order, cell.block)
    {
      var i :| 0 <= i < |q'.delayed| && q'.delayed[i] == cell;
      if i < |q.delayed| {
        assert cell == q.delayed[i];
      } else {
        assert MayDelay(p.cfg, Listed(order[..k]), order[k], q'.delayed[i]);
        MayDelayIsLate(p.cfg, order, k, cell);
      }
    }
    forall b, s | b in order[..k + 1] && LateBlock(p.cfg, order, b) && Asks(p, b, s)
      ensures Cell(b, s) in q'.delayed
    {
      if b == order[k] {
        LateIsLate(p.cfg, order, k);
      } else {
        assert Cell(b, s) in q.delayed;
      }
    }
  }

  lemma MayDelayIsLate(g: FlowGraph, order: seq<nat>, k: nat, cell: Cell)
    requires k < |order| && MayDelay(g, Listed(order[..k]), order[k], cell)
    ensures cell.block in order[..k + 1] && LateBlock(g, order, cell.block)
  {
    var i :| 0 <= i < |g.preds[cell.block]| && g.preds[cell.block][i] !in Listed(order[..k]);
    var j :| 0 <= j <= k && order[j] == cell.block;
    assert order[..k + 1][j] == cell.block;
    assert order[..j] <= order[..k];
    assert g.preds[cell.block][i] !in order[..j];
  }

  lemma LateIsLate(g: FlowGraph, order: seq<nat>, k: nat)
    requires IsOrder(g, order) && k < |order| && LateBlock(g, order, order[k])
    ensures order[k] < |g.preds|
    ensures exists i :: 0 <= i < |g.preds[order[k]]| && g.preds[order[k]][i] !in Listed(order[..k])
  {
    var j, i :| 0 <= j < |order| && order[j] == order[k] && 0 <= i < |g.preds[order[k]]|
                && g.preds[order[k]][i] !in order[..j];
    assert j == k;
  }

  /** After `j` blocks the list was as it should be then. */
  ghost predicate ListedAt(p: Program, order: seq<nat>, delayed: seq<Cell>, j: nat)
    requires p.WellFormed() && j <= |order|
  {
    exists n :: 0 <= n <= |delayed| && ListedBy(p, order, delayed[..n], j)
  }

  lemma ListedAtNow(p: Program, order: seq<nat>, delayed: seq<Cell>, j: nat)
    requires p.WellFormed() && j <= |order| && ListedBy(p, order, delayed, j)
    ensures ListedAt(p, order, delayed, j)
  {
    assert delayed[..|delayed|] == delayed;
  }

  lemma ListedAtLater(p: Program, order: seq<nat>, delayed: seq<Cell>, delayed': seq<Cell>, j: nat)
    requires p.WellFormed() && j <= |order| && ListedAt(p, order, delayed, j) && delayed <= delayed'
    ensures ListedAt(p, order, delayed', j)
  {
    var n :| 0 <= n <= |delayed| && ListedBy(p, order, delayed[..n], j);
    assert delayed'[..n] == delayed[..n];
  }

  // ---- operands ----

  /** A listed phi and the state in which it had just got all its operands. */
  datatype Finish = Finish(phi: nat, st: State, pending: set<nat>)

  /** The phi is trivial, and its block has assigned the storage: it is made to forget that. */
  ghost predicate Overwrites(f: Finish, cell: Cell) {
    && cell in f.st.writes && f.phi < |f.st.nodes| && f.st.nodes[f.phi].Phi?
    && exists same :: Trivial(f.st.nodes[f.phi].operands, f.phi, same)
  }

  /** The cells whose assignments are forgotten once the first of the delayed phis have been finished. */
  ghost function ForgottenBy(delayed: seq<Cell>, finished: seq<Finish>): set<Cell>
    requires |finished| <= |delayed|
  {
    if finished == [] then {}
    else
      var k := |finished| - 1;
      ForgottenBy(delayed, finished[..k]) + if Overwrites(finished[k], delayed[k]) then {delayed[k]} else {}
  }

  ghost predicate FinishOk(g: FlowGraph, st: State, f: Finish, cell: Cell) {
    && cell.block < |g.preds| && cell.block != g.entry
    && f.st.writes == st.writes && f.st.visited == st.visited && f.st.delayed == st.delayed
    && Extends(f.st.asOf, st.asOf) && DatesBefore(f.st)
    && Inv(g, f.st, f.pending) && DatesKnown(f.st)
    && Gathers(g, f.st, cell.block, cell.storage, f.phi, |g.preds[cell.block]|)
  }

  /** What was forgotten when a cell was filled still is. */
  ghost predicate DatesBefore(st: State) {
    forall cell :: cell in st.asOf ==> st.asOf[cell] <= st.forgotten
  }

  /** What a block held on entry and moved about was looked up before anything was forgotten. */
  ghost predicate DatesKnown(st: State) {
    forall cell :: cell in st.writes && st.writes[cell].Incoming? ==>
      var source := Cell(cell.block, st.writes[cell].storage);
      source in st.delayed || (source in st.asOf && st.asOf[source] == {})
  }

  /** One after the other, the delayed phis have got their operands, and assignments have been forgotten. */
  ghost predicate HistoryOk(g: FlowGraph, st: State, finished: seq<Finish>) {
    && |finished| <= |st.delayed|
    && (forall k :: 0 <= k < |finished| ==>
          FinishOk(g, st, finished[k], st.delayed[k])
          && finished[k].st.forgotten == ForgottenBy(st.delayed, finished[..k]))
    && st.forgotten == ForgottenBy(st.delayed, finished)
    && DatesKnown(st)
    && (forall i, j :: 0 <= i < j < |st.delayed| ==> st.delayed[i] != st.delayed[j])
  }

  /** The graph may grow, and nodes may be replaced. */
  lemma HistoryKept(g: FlowGraph, st: State, st': State, finished: seq<Finish>)
    requires HistoryOk(g, st, finished)
    requires st'.writes == st.writes && st'.visited == st.visited && st'.delayed == st.delayed
    requires st'.forgotten == st.forgotten && Extends(st.asOf, st'.asOf)
    ensures HistoryOk(g, st', finished)
  {
    forall k | 0 <= k < |finished|
      ensures FinishOk(g, st', finished[k], st'.delayed[k])
    {
      assert FinishOk(g, st, finished[k], st.delayed[k]);
    }
  }

  lemma HistoryLonger(g: FlowGraph, st: State, st': State, finished: seq<Finish>, f: Finish)
    requires HistoryOk(g, st, finished) && |finished| < |st.delayed|
    requires f.st == st && FinishOk(g, st, f, st.delayed[|finished|])
    requires st'.writes == st.writes && st'.visited == st.visited && st'.delayed == st.delayed && st'.asOf == st.asOf
    requires st'.forgotten == st.forgotten + if Overwrites(f, st.delayed[|finished|]) then {st.delayed[|finished|]} else {}
    ensures HistoryOk(g, st', finished + [f])
  {
    hide Overwrites, DatesKnown, Inv;
    var all := finished + [f];
    assert all[..|finished|] == finished;
    forall k | 0 <= k < |all|
      ensures FinishOk(g, st', all[k], st'.delayed[k])
      ensures all[k].st.forgotten == ForgottenBy(st'.delayed, all[..k])
    {
      assert k < |finished| ==> all[k] == finished[k] && all[..k] == finished[..k];
      if k < |finished| {
        assert FinishOk(g, st, finished[k], st.delayed[k]);
      }
    }
    SameDates(st, st');
  }

  lemma SameDates(st: State, st': State)
    requires DatesKnown(st) && st'.writes == st.writes && st'.delayed == st.delayed && st'.asOf == st.asOf
    ensures DatesKnown(st')
  {
  }

  /** Only delayed cells are ever forgotten. */
  lemma {:induction false} ForgottenWasDelayed(delayed: seq<Cell>, finished: seq<Finish>, cell: Cell)
    requires |finished| <= |delayed| && cell in ForgottenBy(delayed, finished)
    ensures exists k :: 0 <= k < |finished| && delayed[k] == cell && Overwrites(finished[k], cell)
    decreases |finished|
  {
    var k := |finished| - 1;
    if cell in ForgottenBy(delayed, finished[..k]) {
      ForgottenWasDelayed(delayed, finished[..k], cell);
      var j :| 0 <= j < k && delayed[j] == cell && Overwrites(finished[..k][j], cell);
      assert finished[..k][j] == finished[j];
    }
  }

  lemma {:induction false} OverwrittenIsForgotten(delayed: seq<Cell>, finished: seq<Finish>, k: nat)
    requires |finished| <= |delayed| && k < |finished| && Overwrites(finished[k], delayed[k])
    ensures delayed[k] in ForgottenBy(delayed, finished)
    decreases |finished|
  {
    var last := |finished| - 1;
    if k < last {
      assert finished[..last][k] == finished[k];
      OverwrittenIsForgotten(delayed, finished[..last], k);
    }
  }
}
