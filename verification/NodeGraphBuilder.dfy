/**
 The part of the node graph builder that finds the definition of a temporary reaching a block,
 creating and removing phi nodes on the way.
 */
module NodeGraphBuilders {
  import opened Wrappers
  import opened FlowGraphs
  import opened SsaSemantics
  import opened SsaSteps
  import opened ReplacementMaps
  import opened NodeLinks
  import opened ReadFrames
  import opened BuilderInvariants
  import opened Programs
  import opened ForgottenAssignments
  import opened DelayedPhis

  class NodeGraphBuilder {
    const cfg: FlowGraph
    var nodes: seq<Node>                // every node made so far, by number
    var defs: map<Cell, nat>            // the reaching definitions remembered by the blocks
    var replacements: map<nat, nat>
    var incompletePhis: seq<nat>
    var visited: set<nat>

    ghost var unfinished: seq<nat>      // the listed phis that still lack operands
    ghost var ins: map<Cell, nat>       // the node standing for a storage on entry to a block
    ghost var writes: map<Cell, Source> // the last assignment to a storage in a block
    ghost var forgotten: set<Cell>      // the assignments that a block has been made to forget
    ghost var asOf: map<Cell, set<Cell>> // what was forgotten when a cell's predecessors were read
    ghost var delayed: seq<Cell>        // the cells of all phis that were ever listed
    ghost var finished: seq<Finish>     // the listed phis that have been given operands
    ghost var uses: map<Use, nat>       // the node found for every storage a statement reads
    ghost var canon: seq<nat>           // every node's representative
    ghost var age: map<nat, nat>        // when a node was replaced
    ghost var now: nat

    ghost function St(): State
      reads this
    {
      State(nodes, ins, writes, visited, forgotten, asOf, delayed)
    }

    ghost function Graph(): Links
      reads this
    {
      Links(nodes, replacements, canon, age, now)
    }

    /** The replacement map has no cycles, and operands and cells name representatives only. */
    ghost predicate Linked()
      reads this
    {
      && CanonOk(Graph()) && OperandsInUse(Graph()) && CellsInUse(Graph(), ins)
      && forall cell :: cell in defs ==> defs[cell] < |nodes|
    }

    ghost function Tables(): View
      reads this
    {
      View(St(), canon, defs, unfinished)
    }

    ghost function Marked(): Marks
      reads this
    {
      Marks(nodes, canon, ins, asOf)
    }

    ghost function Queued(): Queue
      reads this
    {
      Queue(incompletePhis, unfinished, delayed)
    }

    /** `open` are the phis that are being given operands, other than the incomplete ones. */
    ghost predicate Valid(open: set<nat>)
      reads this
    {
      cfg.WellFormed() && Linked() && Settled(cfg, Tables(), open)
    }

    /** Node `r` stands for the contents of `s` at the end of block `b`. */
    ghost predicate Answers(b: nat, s: nat, r: nat)
      reads this
    {
      && r < |canon|
      && HasOut(St(), b, s)
      && canon[r] == Out(St(), b, s)
    }

    // ---- replaced nodes ----

    method ResolveCanonical(node: nat) returns (canonical: nat)
      requires Linked() && node < |nodes|
      modifies this`replacements
      ensures Linked() && replacements.Keys == old(replacements.Keys)
      ensures canonical == canon[node] == canon[canonical]
      ensures IsRepresentative(old(replacements), node, canonical)
      ensures KeepsRepresentatives(old(replacements), replacements)
    {
      canonical := node;
      while canonical in replacements
        invariant canonical < |nodes| && canon[canonical] == canon[node]
        invariant canonical == node || node in replacements
        decreases if canonical in replacements then now - age[canonical] else 0
        modifies {}
      {
        FollowedCanon(Graph(), canonical);
        canonical := replacements[canonical];
      }
      CanonIsRepresentative(Graph(), node);
      if canonical != node {
        ghost var before := Graph();
        CompressedOk(before, node);
        replacements := replacements[node := canonical];
        SameKeysInUse(before, Graph(), ins);
      }
    }

    /** Puts the representative of `substitute` in place of the phi `original`. */
    method ReplaceNode(original: nat, substitute: nat)
      requires Linked()
      requires original < |nodes| && nodes[original].Phi? && original !in replacements
      requires substitute < |nodes| && canon[substitute] != original
      modifies this`nodes, this`replacements, this`ins, this`canon, this`age, this`now
      ensures Linked()
      ensures nodes == ReplaceUses(old(nodes), original, old(canon[substitute]))
      ensures ins == RedirectCells(old(ins), original, old(canon[substitute]))
      ensures canon == RedirectAll(old(canon), original, old(canon[substitute]))
      ensures replacements.Keys == old(replacements.Keys) + {original}
    {
      var canonicalSubstitute := ResolveCanonical(substitute);
      Replace(original, canonicalSubstitute);
    }

    method Replace(original: nat, substitute: nat)
      requires Linked()
      requires original < |nodes| && nodes[original].Phi? && original !in replacements
      requires substitute < |nodes| && substitute !in replacements && substitute != original
      modifies this`nodes, this`replacements, this`ins, this`canon, this`age, this`now
      ensures Linked()
      ensures nodes == ReplaceUses(old(nodes), original, substitute)
      ensures ins == RedirectCells(old(ins), original, substitute)
      ensures canon == RedirectAll(old(canon), original, substitute)
      ensures replacements == old(replacements)[original := substitute]
    {
      RelinkedCanon(Graph(), original, substitute);
      RelinkedOperands(Graph(), original, substitute);
      RelinkedCells(Graph(), ins, original, substitute);
      ghost var after := Relinked(Graph(), original, substitute);
      replacements := replacements[original := substitute];
      nodes := ReplaceUses(nodes, original, substitute);
      ins := RedirectCells(ins, original, substitute);
      canon, age, now := after.canon, after.age, after.now;
      assert Graph() == after;
    }

    method WriteStorage(b: nat, s: nat, value: nat)
      requires Linked() && value < |nodes|
      modifies this`replacements, this`defs
      ensures Linked() && replacements.Keys == old(replacements.Keys)
      ensures defs == old(defs)[Cell(b, s) := canon[value]]
    {
      var canonical := ResolveCanonical(value);
      defs := defs[Cell(b, s) := canonical];
    }

    /** The factory adds a node to the graph. */
    method AddNode(node: Node) returns (n: nat)
      requires Linked() && (node.Phi? ==> node.operands == [])
      modifies this`nodes, this`canon
      ensures Linked()
      ensures n == |old(nodes)| && nodes == old(nodes) + [node] && canon == old(canon) + [n]
      ensures InUse(Graph(), n) && |canon| == |nodes| && replacements == old(replacements)
    {
      n := |nodes|;
      ghost var before := Graph();
      ExtendedOk(before, node, ins);
      nodes := nodes + [node];
      canon := canon + [n];
      assert Graph() == Extended(before, node);
    }

    method GetTrivialPhiReplacement(phi: nat) returns (candidate: Option<nat>)
      requires phi < |nodes| && nodes[phi].Phi?
      ensures candidate.Some? ==> Trivial(nodes[phi].operands, phi, candidate.value)
      ensures candidate.None? ==> forall same :: !Trivial(nodes[phi].operands, phi, same)
    {
      candidate := None;
      var operands := nodes[phi].operands;
      for i := 0 to |operands|
        invariant candidate.None? ==> forall k :: 0 <= k < i ==> operands[k] == phi
        invariant candidate.Some? ==>
                    && candidate.value != phi && candidate.value in operands[..i]
                    && forall k :: 0 <= k < i ==> operands[k] == phi || operands[k] == candidate.value
      {
        if operands[i] == phi {
          continue;
        }
        if candidate.None? {
          candidate := Some(operands[i]);
          continue;
        }
        if candidate.value != operands[i] {
          return None;
        }
      }
    }

    // ---- reading a storage ----

    /** A new node becomes the contents of `s` on entry to `b`, right now or when it has been given operands. */
    method FillCell(b: nat, s: nat, node: Node, ghost dated: bool) returns (n: nat)
      requires Linked() && Cell(b, s) !in defs && Cell(b, s) !in ins && (node.Phi? ==> node.operands == [])
      modifies this`nodes, this`canon, this`defs, this`ins, this`replacements, this`asOf
      ensures Linked() && n == |old(nodes)|
      ensures nodes == old(nodes) + [node] && canon == old(canon) + [n]
      ensures defs == old(defs)[Cell(b, s) := n] && ins == old(ins)[Cell(b, s) := n]
      ensures asOf == if dated then Dated(old(asOf), Cell(b, s), forgotten) else old(asOf)
      ensures Carried(old(Marked()), Marked())
    {
      hide Carried, CanonOk, OperandsInUse, CellsInUse, InRange;
      LinkedInRange();
      SameLength(Marked());
      ghost var dates := if dated then Dated(asOf, Cell(b, s), forgotten) else asOf;
      ghost var after := Marks(nodes + [node], canon + [|canon|], ins[Cell(b, s) := |canon|], dates);
      FreshInCarries(Marked(), b, s, node, dates);
      n := AddNode(node);
      WriteStorage(b, s, n);
      CellFilledInUse(Graph(), ins, Cell(b, s), n);
      ins, asOf := ins[Cell(b, s) := n], dates;
      assert Marked() == after;
    }

    lemma SameLength(m: Marks)
      requires InRange(m)
      ensures |m.canon| == |m.nodes|
    {
    }

    method CreateDefNode(s: nat, ghost rest: seq<Frame>) returns (n: nat)
      requires Valid(OpenPhis(rest)) && FramesOk(cfg, St(), s, rest)
      requires Cell(cfg.entry, s) !in defs
      modifies this`nodes, this`canon, this`defs, this`ins, this`replacements, this`asOf
      ensures Valid(OpenPhis(rest)) && FramesOk(cfg, St(), s, rest)
      ensures Answers(cfg.entry, s, n) && defs.Keys == old(defs.Keys) + {Cell(cfg.entry, s)}
      ensures Carried(old(Marked()), Marked())
    {
      hide Settled, FramesOk, Carried, HasOut, Out;
      hide CanonOk, OperandsInUse, CellsInUse, OpenPhis, Listed;
      LinkedInRange();
      ghost var after := WithFreshIn(Tables(), cfg.entry, s, Def(s));
      UnknownCell(cfg, Tables(), OpenPhis(rest), cfg.entry, s);
      DefineAtEntry(cfg, Tables(), OpenPhis(rest), s, rest);
      n := FillCell(cfg.entry, s, Def(s), true);
      assert Tables() == after;
    }

    /** The block has several predecessors, all translated: a phi is made before its operands are read. */
    method CreatePhi(b: nat, s: nat, ghost rest: seq<Frame>) returns (phi: nat)
      requires Valid(OpenPhis(rest)) && FramesOk(cfg, St(), s, rest)
      requires b < |cfg.preds| && b != cfg.entry && |cfg.preds[b]| > 1 && PredsVisited(cfg, St(), b)
      requires Cell(b, s) !in defs
      modifies this`nodes, this`canon, this`defs, this`ins, this`replacements, this`asOf
      ensures Valid(OpenPhis(rest + [AfterPhiPredecessor(b, phi, 0)]))
      ensures FramesOk(cfg, St(), s, rest + [AfterPhiPredecessor(b, phi, 0)])
      ensures defs.Keys == old(defs.Keys) + {Cell(b, s)}
      ensures Carried(old(Marked()), Marked())
    {
      hide Settled, FramesOk, Carried;
      hide CanonOk, OperandsInUse, CellsInUse, OpenPhis, Listed;
      LinkedInRange();
      ghost var after := WithFreshIn(Tables(), b, s, Phi(b, s, []));
      UnknownCell(cfg, Tables(), OpenPhis(rest), b, s);
      OpenPhi(cfg, Tables(), b, s, rest);
      phi := FillCell(b, s, Phi(b, s, []), true);
      assert Tables() == after;
    }

    /** A predecessor has not been translated yet: the phi gets its operands at the very end. */
    method CreateIncompletePhi(b: nat, s: nat, ghost rest: seq<Frame>) returns (phi: nat)
      requires Valid(OpenPhis(rest)) && FramesOk(cfg, St(), s, rest)
      requires b < |cfg.preds| && !PredsVisited(cfg, St(), b)
      requires Cell(b, s) !in defs
      modifies this`nodes, this`canon, this`defs, this`ins, this`replacements, this`incompletePhis, this`unfinished,
               this`asOf, this`delayed
      ensures Valid(OpenPhis(rest)) && FramesOk(cfg, St(), s, rest)
      ensures Answers(b, s, phi) && defs.Keys == old(defs.Keys) + {Cell(b, s)}
      ensures incompletePhis == old(incompletePhis) + [phi] && unfinished == old(unfinished) + [phi]
      ensures delayed == old(delayed) + [Cell(b, s)]
      ensures Carried(old(Marked()), Marked())
    {
      hide Settled, FramesOk, Carried, HasOut, Out, Listed, OpenPhis, PredsVisited;
      hide CanonOk, OperandsInUse, CellsInUse;
      LinkedInRange();
      ghost var after := WithListedPhi(Tables(), b, s);
      UnknownCell(cfg, Tables(), OpenPhis(rest), b, s);
      OpenPhisExist(cfg, St(), s, rest);
      ListIncompletePhi(cfg, Tables(), OpenPhis(rest), b, s, rest);
      phi := FillCell(b, s, Phi(b, s, []), false);
      incompletePhis, unfinished := incompletePhis + [phi], unfinished + [phi];
      delayed := delayed + [Cell(b, s)];
      assert Tables() == after;
    }

    /** The block remembers a definition already. */
    method ReadLocalStorage(b: nat, s: nat, ghost open: set<nat>) returns (n: nat)
      requires Valid(open) && Cell(b, s) in defs
      modifies this`defs, this`replacements
      ensures Valid(open)
      ensures Answers(b, s, n) && defs.Keys == old(defs.Keys)
    {
      hide Settled, HasOut, Out, IsRepresentative, KeepsRepresentatives;
      hide CanonOk, OperandsInUse, CellsInUse, OpenPhis, Listed;
      LinkedInRange();
      ghost var after := Tables().(defs := defs[Cell(b, s) := canon[defs[Cell(b, s)]]]);
      KnownCell(cfg, Tables(), open, b, s);
      RememberResolved(cfg, Tables(), open, b, s);
      n := ResolveCanonical(defs[Cell(b, s)]);
      WriteStorage(b, s, n);
      assert Tables() == after;
    }

    method SetCell(b: nat, s: nat, value: nat)
      requires Linked() && value < |nodes|
      modifies this`defs, this`ins, this`replacements, this`asOf
      ensures Linked()
      ensures defs == old(defs)[Cell(b, s) := canon[value]] && ins == old(ins)[Cell(b, s) := canon[value]]
      ensures asOf == Dated(old(asOf), Cell(b, s), forgotten)
    {
      WriteStorage(b, s, value);
      ins, asOf := ins[Cell(b, s) := canon[value]], Dated(asOf, Cell(b, s), forgotten);
    }

    /** The one predecessor has been read: this block remembers the same node. */
    method CopyDefinition(b: nat, s: nat, value: nat, ghost rest: seq<Frame>)
      requires Valid(OpenPhis(rest)) && FramesOk(cfg, St(), s, rest)
      requires FrameOk(cfg, St(), s, AfterSinglePredecessor(b)) && Cell(b, s) !in writes
      requires Answers(cfg.preds[b][0], s, value) && Cell(cfg.preds[b][0], s) in defs
      modifies this`defs, this`ins, this`replacements, this`asOf
      ensures Valid(OpenPhis(rest)) && FramesOk(cfg, St(), s, rest)
      ensures Answers(b, s, value) && defs.Keys == old(defs.Keys) + {Cell(b, s)}
      ensures Carried(old(Marked()), Marked())
    {
      hide Settled, FramesOk, HasOut, Out, Carried;
      hide CanonOk, OperandsInUse, CellsInUse, OpenPhis, Listed;
      LinkedInRange();
      ghost var after := WithCopiedIn(Tables(), b, s, cfg.preds[b][0]);
      CopyFromPredecessor(cfg, Tables(), OpenPhis(rest), b, s, rest);
      CopiedInCarries(Marked(), Cell(b, s), canon[value], Dated(asOf, Cell(b, s), forgotten));
      SetCell(b, s, value);
      assert Tables() == after;
    }

    /** An operand that is in use is added to a phi. */
    method AddEdge(def: nat, phi: nat)
      requires Linked() && InUse(Graph(), def)
      requires phi < |nodes| && nodes[phi].Phi?
      modifies this`nodes
      ensures Linked()
      ensures St() == WithOperand(old(St()), phi, def)
    {
      OperandAddedOk(Graph(), phi, def, ins);
      nodes := nodes[phi := nodes[phi].(operands := nodes[phi].operands + [def])];
    }

    lemma FrameHasPhi(b: nat, s: nat, phi: nat, i: nat)
      requires FrameOk(cfg, St(), s, AfterPhiPredecessor(b, phi, i))
      ensures IsPhiFor(St(), phi, b, s)
    {
    }

    /** The phi of a waiting frame takes what the read of its predecessor came to. */
    method AddPhiOperand(b: nat, s: nat, phi: nat, i: nat, value: nat, ghost rest: seq<Frame>)
      requires Valid(OpenPhis(rest + [AfterPhiPredecessor(b, phi, i)]))
      requires FramesOk(cfg, St(), s, rest + [AfterPhiPredecessor(b, phi, i)])
      requires FrameOk(cfg, St(), s, AfterPhiPredecessor(b, phi, i))
      requires Answers(cfg.preds[b][i], s, value)
      modifies this`nodes, this`replacements
      ensures Valid(OpenPhis(rest) + {phi}) && FramesOk(cfg, St(), s, rest)
      ensures phi !in OpenPhis(rest) && phi !in Listed(unfinished)
      ensures Gathers(cfg, St(), b, s, phi, i + 1)
      ensures Carried(old(Marked()), Marked())
    {
      hide Carried, InRange, Settled, FramesOk, HasOut, Out, OperandsOk, Gathers, IsRepresentative, KeepsRepresentatives, PredsVisited;
      hide CanonOk, OperandsInUse, CellsInUse, OpenPhis, Listed;
      FrameHasPhi(b, s, phi, i);
      ghost var operand := Out(St(), cfg.preds[b][i], s);
      ghost var before := Tables();
      ghost var after := before.(st := WithOperand(St(), phi, operand));
      TakeOperand(cfg, Tables(), b, s, phi, i, rest);
      LinkedInRange();
      OperandCarries(Marked(), after.st.nodes);
      var canonical := ResolveCanonical(value);
      assert canonical == operand;
      AddEdge(canonical, phi);
      assert St() == after.st && canon == before.canon && defs == before.defs && unfinished == before.incomplete;
      assert Tables() == after;
    }

    /** The block is made to remember `same` in place of a trivial phi, which gives way everywhere. */
    method LetGo(b: nat, s: nat, phi: nat, same: nat)
      requires Linked() && phi < |nodes| && nodes[phi].Phi? && phi !in replacements
      requires same < |nodes| && canon[same] == same && same != phi
      modifies this`nodes, this`canon, this`defs, this`ins, this`replacements, this`age, this`now
      ensures Linked() && defs == old(defs)[Cell(b, s) := same]
      ensures nodes == ReplaceUses(old(nodes), phi, same) && ins == RedirectCells(old(ins), phi, same)
      ensures canon == RedirectAll(old(canon), phi, same)
      ensures Carried(old(Marked()), Marked())
    {
      hide Carried, CanonOk, OperandsInUse, CellsInUse, InRange;
      LinkedInRange();
      ReplacementCarries(Marked(), phi, same);
      WriteStorage(b, s, same);
      ReplaceNode(phi, same);
    }

    /** The trivial phi of a cell gives way to its one other operand. */
    method RemovePhi(b: nat, s: nat, phi: nat, same: nat, ghost rest: seq<Frame>)
      requires Valid(OpenPhis(rest)) && FramesOk(cfg, St(), s, rest)
      requires phi !in OpenPhis(rest) && phi !in Listed(unfinished)
      requires IsPhiFor(St(), phi, b, s) && Trivial(nodes[phi].operands, phi, same)
      requires Cell(b, s) in ins && ins[Cell(b, s)] == phi && Cell(b, s) !in writes
      modifies this`nodes, this`canon, this`defs, this`ins, this`replacements, this`age, this`now
      ensures Valid(OpenPhis(rest)) && FramesOk(cfg, St(), s, rest)
      ensures Answers(b, s, same) && defs.Keys == old(defs.Keys) + {Cell(b, s)}
      ensures Carried(old(Marked()), Marked())
    {
      hide Settled, FramesOk, Carried, InRange, Trivial, HasOut, Out, ReplaceUses, RedirectAll, RedirectCells;
      hide CanonOk, OperandsInUse, CellsInUse, OpenPhis, Listed;
      TrivialOperand(nodes[phi].operands, phi, same);
      LinkedInRange();
      CellInUse(Graph(), ins, Cell(b, s));
      PhiOperandsInUse(Graph(), phi, same);
      ghost var after := WithoutPhi(Tables(), b, s, phi, same);
      RemoveTrivialPhi(cfg, Tables(), OpenPhis(rest), b, s, phi, same, rest);
      LetGo(b, s, phi, same);
      assert Tables() == after;
    }

    /** All predecessors have been read. */
    method FinishPhi(b: nat, s: nat, phi: nat, ghost rest: seq<Frame>) returns (last: nat)
      requires Valid(OpenPhis(rest) + {phi}) && FramesOk(cfg, St(), s, rest)
      requires phi !in OpenPhis(rest) && phi !in Listed(unfinished)
      requires b < |cfg.preds| && Gathers(cfg, St(), b, s, phi, |cfg.preds[b]|) && Cell(b, s) !in writes
      modifies this`nodes, this`canon, this`defs, this`ins, this`replacements, this`age, this`now
      ensures Valid(OpenPhis(rest)) && FramesOk(cfg, St(), s, rest)
      ensures Answers(b, s, last) && defs.Keys == old(defs.Keys) + {Cell(b, s)}
      ensures Carried(old(Marked()), Marked())
    {
      hide Settled, FramesOk, Carried, InRange, Trivial, OperandsOk, HasOut, Out, IsRepresentative, KeepsRepresentatives;
      hide CanonOk, OperandsInUse, CellsInUse, OpenPhis, Listed;
      LinkedInRange();
      NothingChangedCarries(Marked());
      PhiAnswers(b, s, phi, OpenPhis(rest) + {phi});
      ClosePhi(cfg, Tables(), OpenPhis(rest), b, s, phi);
      var sameNode := GetTrivialPhiReplacement(phi);
      if sameNode.Some? {
        RemovePhi(b, s, phi, sameNode.value, rest);
        LinkedInRange();
        SameLength(Marked());
        last := ResolveCanonical(sameNode.value);
      } else {
        last := phi;
      }
    }

    /** A phi that is the contents on entry to a block answers for it if the block assigns nothing. */
    lemma PhiAnswers(b: nat, s: nat, phi: nat, open: set<nat>)
      requires Valid(open) && Cell(b, s) in ins && ins[Cell(b, s)] == phi && Cell(b, s) !in writes
      ensures Answers(b, s, phi) && Cell(b, s) in defs && |canon| == |nodes|
    {
      CellInUse(Graph(), ins, Cell(b, s));
      InCellKnown(cfg, Tables(), open, b, s);
    }

    lemma LinkedInRange()
      requires Linked()
      ensures InRange(Marked())
    {
    }

    /** No frame's block assigns the storage itself. */
    ghost predicate Unwritten(frames: seq<Frame>, s: nat)
      reads this
    {
      forall k :: 0 <= k < |frames| ==> Cell(frames[k].block, s) !in writes
    }

    /**
     The state of the loop that reads `s` at `block`: `frames` wait, and either the topmost
     one's target is about to be read or `last` is what reading it came to.
     */
    ghost predicate Reading(frames: seq<Frame>, block: nat, s: nat, outer: seq<Frame>)
      reads this
    {
      && Valid(OpenPhis(outer + frames)) && FramesOk(cfg, St(), s, outer + frames)
      && Chained(cfg, frames, block) && Unwritten(frames, s)
      && block < |cfg.preds| && Target(cfg, frames, block) < |cfg.preds|
    }

    ghost predicate Answered(frames: seq<Frame>, block: nat, s: nat, last: Option<nat>)
      reads this
    {
      && last.Some? && Answers(Target(cfg, frames, block), s, last.value)
      && Cell(Target(cfg, frames, block), s) in defs
    }

    lemma PushReading(frames: seq<Frame>, block: nat, s: nat, outer: seq<Frame>, f: Frame)
      requires cfg.WellFormed() && Chained(cfg, frames, block) && Unwritten(frames, s) && block < |cfg.preds|
      requires f.block == Target(cfg, frames, block) && Cell(f.block, s) !in writes
      requires Valid(OpenPhis((outer + frames) + [f])) && FramesOk(cfg, St(), s, (outer + frames) + [f])
      ensures Waits(cfg, f) && Reading(frames + [f], block, s, outer)
      ensures Target(cfg, frames + [f], block) == Awaited(cfg, f)
    {
      hide Settled, CanonOk, OperandsInUse, CellsInUse, HasOut, Out;
      assert (outer + frames) + [f] == outer + (frames + [f]);
      PopFrame(cfg, St(), s, outer + frames, f);
      PushChained(cfg, frames, block, f);
    }

    lemma WaitForSinglePredecessor(frames: seq<Frame>, block: nat, s: nat, outer: seq<Frame>, b: nat)
      requires Reading(frames, block, s, outer) && b == Target(cfg, frames, block)
      requires Cell(b, s) !in defs && b != cfg.entry && |cfg.preds[b]| == 1 && PredsVisited(cfg, St(), b)
      ensures Reading(frames + [AfterSinglePredecessor(b)], block, s, outer)
      ensures Target(cfg, frames + [AfterSinglePredecessor(b)], block) == cfg.preds[b][0]
    {
      hide Settled, CanonOk, OperandsInUse, CellsInUse, HasOut, Out;
      var f := AfterSinglePredecessor(b);
      UnknownCell(cfg, Tables(), OpenPhis(outer + frames), b, s);
      PushFrame(cfg, St(), s, outer + frames, f);
      OpenPhisAppend(outer + frames, f);
      assert OpenPhis((outer + frames) + [f]) == OpenPhis(outer + frames);
      PushReading(frames, block, s, outer, f);
    }

    lemma PredecessorsExist(b: nat)
      requires cfg.AllReachable() && b < |cfg.preds| && b != cfg.entry
      ensures cfg.preds[b] != []
    {
      assert cfg.Reachable(b);
      var k: nat :| cfg.ReachableIn(b, k);
    }

    /** A block is read only if it is the one asked for or has been translated. */
    lemma TargetMayDelay(frames: seq<Frame>, block: nat, s: nat, outer: seq<Frame>)
      requires Reading(frames, block, s, outer) && !PredsVisited(cfg, St(), Target(cfg, frames, block))
      ensures MayDelay(cfg, visited, block, Cell(Target(cfg, frames, block), s))
    {
      hide Settled, Linked, HasOut, Out;
      if frames != [] {
        var f := frames[|frames| - 1];
        assert (outer + frames)[|outer + frames| - 1] == f;
        assert FrameOk(cfg, St(), s, f);
      }
    }

    /** The first phase of a read: look in the block itself, or push a read of a predecessor. */
    method ResolveBlock(b: nat, s: nat, ghost frames: seq<Frame>, ghost block: nat, ghost outer: seq<Frame>)
      returns (last: Option<nat>, pushed: seq<Frame>)
      requires Reading(frames, block, s, outer) && b == Target(cfg, frames, block) && cfg.AllReachable()
      modifies this`nodes, this`canon, this`defs, this`ins, this`replacements, this`incompletePhis, this`unfinished,
               this`asOf, this`delayed
      ensures pushed == [] ==> Reading(frames, block, s, outer) && Answered(frames, block, s, last)
      ensures pushed != [] ==>
                && |pushed| == 2 && Waits(cfg, pushed[0]) && pushed[1] == Resolve(Target(cfg, frames + [pushed[0]], block))
                && Reading(frames + [pushed[0]], block, s, outer)
                && pushed[0].block == b
      ensures old(defs.Keys) <= defs.Keys
      ensures pushed != [] && pushed[0].AfterSinglePredecessor? ==> defs.Keys == old(defs.Keys)
      ensures pushed != [] && pushed[0].AfterPhiPredecessor? ==>
                |cfg.preds[b]| > 1 && Cell(b, s) !in old(defs) && defs.Keys == old(defs.Keys) + {Cell(b, s)}
      ensures Carried(old(Marked()), Marked())
      ensures Delays(cfg, visited, block, old(Queued()), Queued()) && ListedFor(old(Queued()), Queued(), writes, s)
    {
      hide Settled, FramesOk, CanonOk, OperandsInUse, CellsInUse, HasOut, Out, Carried, InRange, Chained, Target, OpenPhis, Delays, MayDelay, ListedFor;
      last, pushed := None, [];
      ghost var rest := outer + frames;
      ghost var queue := Queued();
      ListsNothing(cfg, visited, block, queue, writes, s);
      if Cell(b, s) in defs {
        LinkedInRange();
        NothingChangedCarries(Marked());
        var n := ReadLocalStorage(b, s, OpenPhis(rest));
        last := Some(n);
      } else if exists i :: 0 <= i < |cfg.preds[b]| && cfg.preds[b][i] !in visited {
        TargetMayDelay(frames, block, s, outer);
        UnknownCell(cfg, Tables(), OpenPhis(rest), b, s);
        var n := CreateIncompletePhi(b, s, rest);
        ListsOne(cfg, visited, block, queue, Cell(b, s), n, writes);
        last := Some(n);
      } else if b == cfg.entry {
        var n := CreateDefNode(s, rest);
        last := Some(n);
      } else if |cfg.preds[b]| == 0 {
        PredecessorsExist(b);
        // "Unable to resolve storage definition due to missing predecessors."
        assert false;
      } else if |cfg.preds[b]| == 1 {
        LinkedInRange();
        NothingChangedCarries(Marked());
        WaitForSinglePredecessor(frames, block, s, outer, b);
        pushed := [AfterSinglePredecessor(b), Resolve(cfg.preds[b][0])];
      } else {
        UnknownCell(cfg, Tables(), OpenPhis(rest), b, s);
        var phi := CreatePhi(b, s, rest);
        PushReading(frames, block, s, outer, AfterPhiPredecessor(b, phi, 0));
        pushed := [AfterPhiPredecessor(b, phi, 0), Resolve(cfg.preds[b][0])];
      }
    }

    lemma PopReading(frames: seq<Frame>, block: nat, s: nat, outer: seq<Frame>, f: Frame)
      requires Reading(frames + [f], block, s, outer)
      ensures Chained(cfg, frames, block) && Unwritten(frames, s) && block < |cfg.preds|
      ensures Waits(cfg, f) && f.block == Target(cfg, frames, block) && Cell(f.block, s) !in writes
      ensures Target(cfg, frames + [f], block) == Awaited(cfg, f)
      ensures FramesOk(cfg, St(), s, outer + frames) && FrameOk(cfg, St(), s, f)
      ensures FramesOk(cfg, St(), s, (outer + frames) + [f])
      ensures Valid(OpenPhis((outer + frames) + [f]))
      ensures OpenPhis((outer + frames) + [f]) == OpenPhis(outer + frames) + OpenPhis([f])
      ensures f.AfterPhiPredecessor? ==> f.phi !in OpenPhis(outer + frames)
    {
      hide Settled, CanonOk, OperandsInUse, CellsInUse, HasOut, Out;
      assert (outer + frames) + [f] == outer + (frames + [f]);
      PopFrame(cfg, St(), s, outer + frames, f);
      PopChained(cfg, frames, block, f);
      assert (frames + [f])[|frames|] == f;
      forall k | 0 <= k < |frames|
        ensures Cell(frames[k].block, s) !in writes
      {
        assert (frames + [f])[k] == frames[k];
      }
    }

    lemma NoOpenPhiInSingle(b: nat)
      ensures OpenPhis([AfterSinglePredecessor(b)]) == {}
    {
    }

    /** The second phase of a read through a single predecessor. */
    method ResumeSingle(b: nat, s: nat, last: Option<nat>, ghost frames: seq<Frame>, ghost block: nat, ghost outer: seq<Frame>)
      requires Reading(frames + [AfterSinglePredecessor(b)], block, s, outer)
      requires Answered(frames + [AfterSinglePredecessor(b)], block, s, last)
      modifies this`defs, this`ins, this`replacements, this`asOf
      ensures Reading(frames, block, s, outer) && Answered(frames, block, s, last)
      ensures defs.Keys == old(defs.Keys) + {Cell(b, s)}
      ensures Carried(old(Marked()), Marked())
    {
      hide Settled, FramesOk, FrameOk, CanonOk, OperandsInUse, CellsInUse, HasOut, Out, InRange, Carried, Chained, Target, OpenPhis;
      PopReading(frames, block, s, outer, AfterSinglePredecessor(b));
      NoOpenPhiInSingle(b);
      assert OpenPhis(outer + frames) + {} == OpenPhis(outer + frames);
      CopyDefinition(b, s, last.value, outer + frames);
    }

    lemma OpenPhiOf(b: nat, phi: nat, i: nat)
      ensures OpenPhis([AfterPhiPredecessor(b, phi, i)]) == {phi}
    {
      assert AfterPhiPredecessor(b, phi, i) in [AfterPhiPredecessor(b, phi, i)];
    }

    /** The phi goes on to wait for its next predecessor. */
    lemma WaitForNextPredecessor(frames: seq<Frame>, block: nat, s: nat, outer: seq<Frame>, b: nat, phi: nat, i: nat)
      requires cfg.WellFormed() && Chained(cfg, frames, block) && Unwritten(frames, s) && block < |cfg.preds|
      requires b == Target(cfg, frames, block) && Cell(b, s) !in writes && b < |cfg.preds| && b != cfg.entry
      requires Valid(OpenPhis(outer + frames) + {phi}) && FramesOk(cfg, St(), s, outer + frames)
      requires phi !in OpenPhis(outer + frames)
      requires Gathers(cfg, St(), b, s, phi, i) && PredsVisited(cfg, St(), b) && i < |cfg.preds[b]|
      ensures Reading(frames + [AfterPhiPredecessor(b, phi, i)], block, s, outer)
      ensures Target(cfg, frames + [AfterPhiPredecessor(b, phi, i)], block) == cfg.preds[b][i]
    {
      hide Settled, CanonOk, OperandsInUse, CellsInUse, HasOut, Out, Gathers;
      var f := AfterPhiPredecessor(b, phi, i);
      OpenPhiOf(b, phi, i);
      OpenPhisAppend(outer + frames, f);
      PushFrame(cfg, St(), s, outer + frames, f);
      PushReading(frames, block, s, outer, f);
    }

    /** The second phase of a read through a phi: once for every predecessor. */
    method ResumePhi(b: nat, s: nat, phi: nat, i: nat, value: Option<nat>,
                     ghost frames: seq<Frame>, ghost block: nat, ghost outer: seq<Frame>)
      returns (last: Option<nat>, pushed: seq<Frame>)
      requires Reading(frames + [AfterPhiPredecessor(b, phi, i)], block, s, outer)
      requires Answered(frames + [AfterPhiPredecessor(b, phi, i)], block, s, value)
      modifies this`nodes, this`canon, this`defs, this`ins, this`replacements, this`age, this`now
      ensures i < |cfg.preds[b]|
      ensures pushed == [] ==> Reading(frames, block, s, outer) && Answered(frames, block, s, last)
      ensures pushed != [] ==>
                && i + 1 < |cfg.preds[b]|
                && pushed == [AfterPhiPredecessor(b, phi, i + 1), Resolve(cfg.preds[b][i + 1])]
                && Target(cfg, frames + [pushed[0]], block) == cfg.preds[b][i + 1]
                && Reading(frames + [pushed[0]], block, s, outer)
      ensures old(defs.Keys) <= defs.Keys
      ensures Carried(old(Marked()), Marked())
    {
      hide Settled, FramesOk, CanonOk, OperandsInUse, CellsInUse, HasOut, Out, Gathers, InRange, Carried, Chained, Target, OpenPhis;
      PopReading(frames, block, s, outer, AfterPhiPredecessor(b, phi, i));
      OpenPhiOf(b, phi, i);
      ghost var before := Marked();
      AddPhiOperand(b, s, phi, i, value.value, outer + frames);
      ghost var between := Marked();
      var next := i + 1;
      if next < |cfg.preds[b]| {
        WaitForNextPredecessor(frames, block, s, outer, b, phi, next);
        return None, [AfterPhiPredecessor(b, phi, next), Resolve(cfg.preds[b][next])];
      }
      var n := FinishPhi(b, s, phi, outer + frames);
      CarriedTwice(before, between, Marked());
      last, pushed := Some(n), [];
    }

    /** Whether reading the top of the stack is yet to begin, as part of the loop's measure. */
    ghost function TopDepth(work: seq<Frame>): nat
      requires cfg.WellFormed() && cfg.AllReachable()
    {
      if Asking(work) && work[|work| - 1].block < |cfg.preds| then 1 + cfg.Depth(work[|work| - 1].block) else 0
    }

    lemma TopDepthOf(frames: seq<Frame>, b: nat)
      requires cfg.WellFormed() && cfg.AllReachable() && b < |cfg.preds|
      ensures TopDepth(frames + [Resolve(b)]) == 1 + cfg.Depth(b)
    {
    }

    lemma NothingOnTop(frames: seq<Frame>, block: nat)
      requires cfg.WellFormed() && cfg.AllReachable() && Chained(cfg, frames, block)
      ensures TopDepth(frames) == 0
      ensures frames != [] ==> !frames[|frames| - 1].Resolve?
    {
    }

    /** What holds at the head of the loop that reads `s` at `block`. */
    ghost predicate AtHead(work: seq<Frame>, frames: seq<Frame>, block: nat, s: nat, outer: seq<Frame>, last: Option<nat>)
      reads this
    {
      && Reading(frames, block, s, outer)
      && (work == frames + [Resolve(Target(cfg, frames, block))]
          || (work == frames && Answered(frames, block, s, last)))
    }

    method ResolvePhase(work: seq<Frame>, b: nat, s: nat, ghost block: nat, ghost outer: seq<Frame>)
      returns (work': seq<Frame>, last: Option<nat>, ghost frames: seq<Frame>)
      requires Reading(work, block, s, outer) && b == Target(cfg, work, block) && cfg.WellFormed() && cfg.AllReachable()
      requires b < |cfg.preds|
      modifies this`nodes, this`canon, this`defs, this`ins, this`replacements, this`incompletePhis, this`unfinished,
               this`asOf, this`delayed
      ensures AtHead(work', frames, block, s, outer, last)
      ensures Carried(old(Marked()), Marked())
      ensures Delays(cfg, visited, block, old(Queued()), Queued()) && ListedFor(old(Queued()), Queued(), writes, s)
      ensures Unasked(cfg, defs.Keys, s) <= Unasked(cfg, old(defs.Keys), s)
      ensures Unasked(cfg, defs.Keys, s) == Unasked(cfg, old(defs.Keys), s) ==>
                Remaining(cfg, frames) == Remaining(cfg, work) && TopDepth(work') <= cfg.Depth(b)
    {
      hide Reading, Answered, Valid, FramesOk, FrameOk, Carried, Chained, Target, Unasked, Remaining, TopDepth, Delays;
      ghost var known := defs.Keys;
      var pushed;
      last, pushed := ResolveBlock(b, s, work, block, outer);
      UnaskedShrinks(cfg, known, defs.Keys, s);
      work', frames := work + pushed, work;
      if pushed != [] {
        PopReading(work, block, s, outer, pushed[0]);
        PopChainedMeasure(work, block, pushed[0]);
        ReadingIsChained(work + [pushed[0]], block, s, outer);
        TopDepthOf(work + [pushed[0]], pushed[1].block);
        if pushed[0].AfterSinglePredecessor? {
          cfg.SinglePredecessorIsShallower(b);
        } else {
          UnaskedLoses(cfg, known, s, b);
        }
        PushedTwo(work, pushed);
        frames := work + [pushed[0]];
      } else {
        assert work' == work;
        ReadingIsChained(work, block, s, outer);
        NothingOnTop(work, block);
      }
    }

    method SinglePhase(work: seq<Frame>, b: nat, s: nat, last: Option<nat>, ghost block: nat, ghost outer: seq<Frame>)
      requires Reading(work + [AfterSinglePredecessor(b)], block, s, outer)
      requires Answered(work + [AfterSinglePredecessor(b)], block, s, last)
      requires cfg.WellFormed() && cfg.AllReachable()
      modifies this`defs, this`ins, this`replacements, this`asOf
      ensures AtHead(work, work, block, s, outer, last)
      ensures Carried(old(Marked()), Marked())
      ensures Unasked(cfg, defs.Keys, s) <= Unasked(cfg, old(defs.Keys), s)
      ensures Remaining(cfg, work) == Remaining(cfg, work + [AfterSinglePredecessor(b)]) && TopDepth(work) == 0
    {
      hide Reading, Answered, Valid, FramesOk, FrameOk, Carried, Chained, Target, Unasked, Remaining, TopDepth;
      ghost var known := defs.Keys;
      ReadingIsChained(work + [AfterSinglePredecessor(b)], block, s, outer);
      PopChainedMeasure(work, block, AfterSinglePredecessor(b));
      ResumeSingle(b, s, last, work, block, outer);
      UnaskedShrinks(cfg, known, defs.Keys, s);
      ReadingIsChained(work, block, s, outer);
      NothingOnTop(work, block);
    }

    method AfterPhiPhase(work: seq<Frame>, b: nat, s: nat, phi: nat, i: nat, value: Option<nat>,
                         ghost block: nat, ghost outer: seq<Frame>)
      returns (work': seq<Frame>, last: Option<nat>, ghost frames: seq<Frame>)
      requires Reading(work + [AfterPhiPredecessor(b, phi, i)], block, s, outer)
      requires Answered(work + [AfterPhiPredecessor(b, phi, i)], block, s, value)
      modifies this`nodes, this`canon, this`defs, this`ins, this`replacements, this`age, this`now
      ensures AtHead(work', frames, block, s, outer, last)
      ensures Carried(old(Marked()), Marked())
      ensures Unasked(cfg, defs.Keys, s) <= Unasked(cfg, old(defs.Keys), s)
      ensures Remaining(cfg, frames) < Remaining(cfg, work + [AfterPhiPredecessor(b, phi, i)])
    {
      hide Reading, Answered, Valid, FramesOk, FrameOk, Carried, Chained, Target, Unasked, Remaining;
      ghost var known := defs.Keys;
      PopReading(work, block, s, outer, AfterPhiPredecessor(b, phi, i));
      ReadingIsChained(work + [AfterPhiPredecessor(b, phi, i)], block, s, outer);
      PopChainedMeasure(work, block, AfterPhiPredecessor(b, phi, i));
      var pushed;
      last, pushed := ResumePhi(b, s, phi, i, value, work, block, outer);
      UnaskedShrinks(cfg, known, defs.Keys, s);
      work', frames := work + pushed, work;
      if pushed != [] {
        PopReading(work, block, s, outer, pushed[0]);
        ReadingIsChained(work + [pushed[0]], block, s, outer);
        PopChainedMeasure(work, block, pushed[0]);
        PushedTwo(work, pushed);
        frames := work + [pushed[0]];
      } else {
        assert work' == work;
      }
    }

    /**
     Searches backwards for the definition of `s` that reaches the end of `block`. Phis that the
     caller is giving operands to are passed in `outer`.
     */
    method ReadStorage(block: nat, s: nat, ghost outer: seq<Frame>) returns (r: nat)
      requires cfg.AllReachable() && block < |cfg.preds|
      requires Valid(OpenPhis(outer)) && FramesOk(cfg, St(), s, outer)
      modifies this`nodes, this`canon, this`defs, this`ins, this`replacements, this`incompletePhis,
               this`unfinished, this`age, this`now, this`asOf, this`delayed
      ensures Valid(OpenPhis(outer)) && FramesOk(cfg, St(), s, outer)
      ensures Answers(block, s, r)
      ensures Carried(old(Marked()), Marked())
      ensures Delays(cfg, visited, block, old(Queued()), Queued()) && ListedFor(old(Queued()), Queued(), writes, s)
    {
      hide Reading, Answered, Answers, Valid, FramesOk, Carried, Chained, Target, Unasked, Remaining, TopDepth, Delays, ListedFor;
      hide AtHead, FlowGraph.WellFormed, FlowGraph.AllReachable;
      var work := [Resolve(block)];
      var lastResult: Option<nat> := None;
      ghost var frames: seq<Frame> := [];
      StartReading(block, s, outer);
      ghost var marks0, queue0 := Marked(), Queued();
      ListsNothing(cfg, visited, block, queue0, writes, s);
      while work != []
        invariant cfg.WellFormed() && AtHead(work, frames, block, s, outer, lastResult)
        invariant Carried(marks0, Marked())
        invariant Delays(cfg, visited, block, queue0, Queued()) && ListedFor(queue0, Queued(), writes, s)
        decreases Unasked(cfg, defs.Keys, s), Remaining(cfg, frames), TopDepth(work), |work|
      {
        ghost var marks1, queue1 := Marked(), Queued();
        TopOfStack(work, frames, block, s, outer, lastResult);
        var frame := work[|work| - 1];
        work := work[..|work| - 1];
        match frame {
          case Resolve(b) =>
            work, lastResult, frames := ResolvePhase(work, b, s, block, outer);
            ListsTwice(cfg, visited, block, queue0, queue1, Queued(), writes, s);
          case AfterSinglePredecessor(b) =>
            frames := work;
            SinglePhase(work, b, s, lastResult, block, outer);
          case AfterPhiPredecessor(b, phi, i) =>
            work, lastResult, frames := AfterPhiPhase(work, b, s, phi, i, lastResult, block, outer);
        }
        CarriedTwice(marks0, marks1, Marked());
      }
      NothingWaits(frames, block, s, outer, lastResult);
      EndReading(block, s, outer, lastResult);
      r := lastResult.value;
    }

    /** The frame on top asks for the target of those below it, or waits for the answer that is there. */
    lemma TopOfStack(work: seq<Frame>, frames: seq<Frame>, block: nat, s: nat, outer: seq<Frame>, last: Option<nat>)
      requires cfg.WellFormed() && cfg.AllReachable() && AtHead(work, frames, block, s, outer, last) && work != []
      ensures var frame, below := work[|work| - 1], work[..|work| - 1];
              if frame.Resolve? then
                && below == frames && Reading(below, block, s, outer)
                && frame.block == Target(cfg, below, block) && frame.block < |cfg.preds|
                && TopDepth(work) == 1 + cfg.Depth(frame.block)
              else
                && frames == work == below + [frame] && TopDepth(work) == 0
                && Reading(below + [frame], block, s, outer) && Answered(below + [frame], block, s, last)
    {
      hide Reading, Answered, Chained, Target;
      ReadingIsChained(frames, block, s, outer);
      NothingOnTop(frames, block);
      if work[|work| - 1].Resolve? {
        TopDepthOf(frames, work[|work| - 1].block);
      }
    }

    lemma NothingWaits(frames: seq<Frame>, block: nat, s: nat, outer: seq<Frame>, last: Option<nat>)
      requires AtHead([], frames, block, s, outer, last)
      ensures Reading([], block, s, outer) && Answered([], block, s, last)
    {
      hide Reading, Answered, Target;
    }

    lemma PushedTwo(frames: seq<Frame>, pushed: seq<Frame>)
      requires |pushed| == 2
      ensures frames + pushed == (frames + [pushed[0]]) + [pushed[1]]
    {
    }

    lemma StartReading(block: nat, s: nat, outer: seq<Frame>)
      requires block < |cfg.preds| && Valid(OpenPhis(outer)) && FramesOk(cfg, St(), s, outer)
      ensures AtHead([Resolve(block)], [], block, s, outer, None)
      ensures cfg.WellFormed() && Carried(Marked(), Marked())
    {
      assert outer + [] == outer;
      LinkedInRange();
      NothingChangedCarries(Marked());
    }

    lemma EndReading(block: nat, s: nat, outer: seq<Frame>, last: Option<nat>)
      requires Reading([], block, s, outer) && Answered([], block, s, last)
      ensures Valid(OpenPhis(outer)) && FramesOk(cfg, St(), s, outer)
      ensures last.Some? && Answers(block, s, last.value)
    {
      hide Settled, Linked, HasOut, Out;
      assert outer + [] == outer;
    }

    lemma ReadingIsChained(frames: seq<Frame>, block: nat, s: nat, outer: seq<Frame>)
      requires Reading(frames, block, s, outer)
      ensures cfg.WellFormed() && Chained(cfg, frames, block) && Target(cfg, frames, block) < |cfg.preds|
    {
    }

    lemma PopChainedMeasure(frames: seq<Frame>, block: nat, f: Frame)
      requires Chained(cfg, frames + [f], block)
      ensures Remaining(cfg, frames + [f]) ==
              Remaining(cfg, frames) + if f.AfterPhiPredecessor? then |cfg.preds[f.block]| - f.index else 0
    {
      PopChained(cfg, frames, block, f);
    }

    // ---- translating a procedure ----

    /** Nothing has been forgotten as long as no listed phi has been given operands. */
    ghost predicate Mindful()
      reads this
    {
      forgotten == {} && finished == [] && |delayed| == |unfinished| && incompletePhis == unfinished
    }

    constructor (cfg: FlowGraph)
      requires cfg.WellFormed()
      ensures this.cfg == cfg && Valid({}) && incompletePhis == [] && unfinished == []
      ensures visited == {} && writes == map[] && uses == map[] && Mindful() && delayed == []
    {
      this.cfg := cfg;
      nodes, defs, replacements, incompletePhis, visited := [], map[], map[], [], {};
      unfinished, ins, writes, uses, canon, age, now := [], map[], map[], map[], [], map[], 0;
      forgotten, asOf, delayed, finished := {}, map[], [], [];
    }

    /** The assignments are those of the statements translated so far, and their reads were right. */
    ghost predicate Recorded(p: Program, current: Option<(nat, nat)>)
      reads this
    {
      && p.WellFormed() && p.cfg == cfg
      && WritesMatch(p, writes, visited, current)
      && UsesStand(p, Marked(), uses)
      && Wanted(p, delayed) && OneNodeEach(writes)
    }

    /** The first `i` statements of block `b` have been translated. */
    ghost predicate Translating(p: Program, b: nat, i: nat)
      reads this
    {
      && Valid({}) && cfg.AllReachable() && Recorded(p, Some((b, i)))
      && b < |p.code| && b !in visited && i <= |p.code[b]| && Mindful()
    }

    lemma LinkedValuesStay()
      requires Linked()
      ensures ValuesStay(Marked())
    {
    }

    lemma NoFrames(s: nat)
      ensures FramesOk(cfg, St(), s, []) && OpenPhis([]) == {}
    {
    }

    /** A statement of the block being translated reads a storage. */
    method VisitIdentifier(p: Program, u: Use) returns (n: nat)
      requires Translating(p, u.block, u.index) && IsUse(p, u)
      modifies this`nodes, this`canon, this`defs, this`ins, this`replacements, this`incompletePhis,
               this`unfinished, this`age, this`now, this`asOf, this`delayed, this`uses
      ensures Translating(p, u.block, u.index)
      ensures Answers(u.block, UsedStorage(p, u), n)
      ensures uses == old(uses)[u := n]
      ensures Delays(cfg, visited, u.block, old(Queued()), Queued())
    {
      hide Settled, CanonOk, OperandsInUse, CellsInUse, HasOut, Out, FramesOk, Carried, Stands, WritesMatch, UsedStorage, ValuesStay, InRange, Wanted, Delays, ListedFor;
      var s := UsedStorage(p, u);
      NoFrames(s);
      ghost var before, queue := Marked(), Queued();
      n := ReadStorage(u.block, s, []);
      ReadIsWanted(p, writes, visited, u, queue, Queued());
      DelaysLonger(cfg, visited, u.block, queue, Queued());
      ValidValuesStay({});
      UsesCarried(p, before, Marked(), uses);
      AnswerIsUse(p, u, n);
      uses := uses[u := n];
    }

    lemma ValidValuesStay(open: set<nat>)
      requires Valid(open)
      ensures ValuesStay(Marked()) && InRange(Marked())
    {
      LinkedValuesStay();
    }

    lemma AnswerIsUse(p: Program, u: Use, n: nat)
      requires Valid({}) && p.WellFormed() && IsUse(p, u) && Answers(u.block, UsedStorage(p, u), n)
      requires u.block !in visited && WritesMatch(p, writes, visited, Some((u.block, u.index))) && forgotten == {}
      ensures Stands(p.code[u.block], Marked(), u.block, u.index, UsedStorage(p, u), n)
    {
      assert BlockMatches(p.code[u.block], writes, u.block, u.index);
      AnswerStands(p.code[u.block], St(), canon, u.block, u.index, UsedStorage(p, u), n);
    }

    /** The node that block `b` remembers for storage `s` once statement `i` has been carried out. */
    method RecordWrite(p: Program, b: nat, i: nat, value: nat, ghost source: Source)
      requires Translating(p, b, i) && i < |p.code[b]|
      requires Comes(Tables(), b, value, source) && IsEffect(p.code[b][i], writes, b, i, source)
      modifies this`replacements, this`defs, this`writes
      ensures Translating(p, b, i + 1)
    {
      hide Settled, Comes, IsEffect, WritesMatch, UsesStand, InRange, CanonOk, OperandsInUse, CellsInUse;
      var s := p.code[b][i].dst;
      LinkedInRange();
      StatementRecorded(p, writes, visited, b, i, source);
      StatementHasOneNode(p, writes, visited, b, i, source);
      RecordAssignmentHere(b, s, value, source);
      ghost var after := WithWritten(Tables(), b, s, value, source);
      WriteStorage(b, s, value);
      writes := writes[Cell(b, s) := source];
      assert Tables() == after;
    }

    lemma RecordAssignmentHere(b: nat, s: nat, value: nat, source: Source)
      requires Valid({}) && b !in visited && forgotten == {} && Comes(Tables(), b, value, source)
      ensures value < |canon| == |nodes|
      ensures Settled(cfg, WithWritten(Tables(), b, s, value, source), {})
    {
      hide Settled;
      RecordAssignment(cfg, Tables(), {}, b, s, value, source);
    }

    /** Statement `i` of block `b`: an assignment makes a new node, a copy passes a node on. */
    method VisitStatement(p: Program, b: nat, i: nat)
      requires Translating(p, b, i) && i < |p.code[b]|
      requires UsesRead(p, uses, visited, Some((b, i)))
      modifies this`nodes, this`canon, this`defs, this`ins, this`replacements, this`incompletePhis,
               this`unfinished, this`age, this`now, this`asOf, this`delayed, this`uses, this`writes
      ensures Translating(p, b, i + 1)
      ensures UsesRead(p, uses, visited, Some((b, i + 1)))
      ensures Delays(cfg, visited, b, old(Queued()), Queued())
    {
      hide Translating, Delays, Comes, Answers, UsesRead;
      TranslatingShape(p, b, i);
      ghost var queue := Queued();
      DelaysNothing(cfg, visited, b, queue);
      match p.code[b][i] {
        case Assign(_, sources) =>
          for k := 0 to |sources|
            invariant Translating(p, b, i)
            invariant UsesRead(p, uses, visited, Some((b, i)))
            invariant forall j :: 0 <= j < k ==> Use(b, i, j) in uses
            invariant Delays(cfg, visited, b, queue, Queued())
          {
            ghost var between, read := Queued(), uses;
            var n := VisitIdentifier(p, Use(b, i, k));
            OneMoreRead(p, read, visited, b, i, Use(b, i, k), n);
            DelaysTwice(cfg, visited, b, queue, between, Queued());
          }
          StatementRead(p, uses, visited, b, i);
          var n := CreateValue(p, b, i);
          RecordWrite(p, b, i, n, Fresh(n, i));
        case Copy(_, src) =>
          ghost var read := uses;
          var n := VisitIdentifier(p, Use(b, i, 0));
          OneMoreRead(p, read, visited, b, i, Use(b, i, 0), n);
          StatementRead(p, uses, visited, b, i);
          ghost var source := CopiedSource(p, b, i, n);
          RecordWrite(p, b, i, n, source);
      }
    }

    lemma TranslatingShape(p: Program, b: nat, i: nat)
      requires Translating(p, b, i)
      ensures p.WellFormed() && b < |p.code| && b !in visited
    {
    }

    lemma CopiedSource(p: Program, b: nat, i: nat, n: nat) returns (source: Source)
      requires Translating(p, b, i) && i < |p.code[b]| && p.code[b][i].Copy?
      requires Answers(b, p.code[b][i].src, n)
      ensures Comes(Tables(), b, n, source) && IsEffect(p.code[b][i], writes, b, i, source)
    {
      var src := p.code[b][i].src;
      source := if Cell(b, src) in writes then writes[Cell(b, src)] else Incoming(src);
      LinkedValuesStay();
    }

    method CreateValue(p: Program, b: nat, i: nat) returns (n: nat)
      requires Translating(p, b, i)
      modifies this`nodes, this`canon
      ensures Translating(p, b, i) && Comes(Tables(), b, n, Fresh(n, i))
    {
      hide Settled, Carried, Stands, WritesMatch, CanonOk, OperandsInUse, CellsInUse, ValuesStay, InRange;
      ghost var before := Marked();
      LinkedInRange();
      NewNodeCarries(before, Value(b, i));
      NewValue(cfg, Tables(), {}, Value(b, i));
      ghost var after := WithLoneNode(Tables(), Value(b, i));
      n := AddNode(Value(b, i));
      assert Tables() == after;
      LinkedValuesStay();
      UsesCarried(p, before, Marked(), uses);
    }

    /** All blocks in `visited`, and no other ones, have been translated. */
    ghost predicate BetweenBlocks(p: Program)
      reads this
    {
      && Valid({}) && cfg.AllReachable() && Recorded(p, None)
      && Mindful() && UsesRead(p, uses, visited, None)
    }

    method TranslateBlock(p: Program, b: nat)
      requires BetweenBlocks(p) && b < |p.code| && b !in visited
      modifies this`nodes, this`canon, this`defs, this`ins, this`replacements, this`incompletePhis,
               this`unfinished, this`age, this`now, this`asOf, this`delayed, this`uses, this`writes, this`visited
      ensures BetweenBlocks(p) && visited == old(visited) + {b}
      ensures Delays(cfg, old(visited), b, old(Queued()), Queued())
      ensures old(!PredsVisited(cfg, St(), b)) ==> forall s :: Asks(p, b, s) ==> Cell(b, s) in delayed
    {
      hide Translating, Delays;
      StartBlock(p, b);
      ghost var queue := Queued();
      DelaysNothing(cfg, visited, b, queue);
      for i := 0 to |p.code[b]|
        invariant Translating(p, b, i) && UsesRead(p, uses, visited, Some((b, i)))
        invariant visited == old(visited) && Delays(cfg, visited, b, queue, Queued())
      {
        ghost var between := Queued();
        VisitStatement(p, b, i);
        DelaysTwice(cfg, visited, b, queue, between, Queued());
      }
      AskedAreDelayed(p, b);
      FinishBlock(p, b);
    }

    /** What a block that is translated early reads on entry is left to listed phis. */
    lemma AskedAreDelayed(p: Program, b: nat)
      requires p.WellFormed() && b < |p.code| && b < |cfg.preds|
      requires Translating(p, b, |p.code[b]|) && UsesRead(p, uses, visited, Some((b, |p.code[b]|)))
      ensures !PredsVisited(cfg, St(), b) ==> forall s :: Asks(p, b, s) ==> Cell(b, s) in delayed
    {
      hide Settled, Linked, WritesMatch;
      if !PredsVisited(cfg, St(), b) {
        forall s: nat | Asks(p, b, s)
          ensures Cell(b, s) in delayed
        {
          var u :| IsUse(p, u) && u.block == b && EntryStorage(p, u) == Some(s);
          assert Stands(p.code[b], Marked(), b, u.index, UsedStorage(p, u), uses[u]);
          EarlyCellIsDelayed(cfg, Tables(), Cell(b, s));
        }
      }
    }

    lemma StartBlock(p: Program, b: nat)
      requires BetweenBlocks(p) && b < |p.code| && b !in visited
      ensures Translating(p, b, 0) && UsesRead(p, uses, visited, Some((b, 0)))
    {
      hide Settled, Linked, UsesStand;
      BlockStarted(p, writes, visited, b);
    }

    method FinishBlock(p: Program, b: nat)
      requires p.WellFormed() && b < |p.code|
      requires Translating(p, b, |p.code[b]|) && UsesRead(p, uses, visited, Some((b, |p.code[b]|)))
      modifies this`visited
      ensures BetweenBlocks(p) && visited == old(visited) + {b} && Queued() == old(Queued())
    {
      hide Settled, CanonOk, OperandsInUse, CellsInUse, UsesStand, WritesMatch;
      BlockFinished(p, writes, visited, b);
      VisitBlock(cfg, Tables(), {}, b);
      ghost var after := Tables().(st := St().(visited := visited + {b}));
      visited := visited + {b};
      assert Tables() == after;
    }

    /** `left` of the delayed phis have not got all their operands yet. */
    ghost predicate Logged(left: nat)
      reads this
    {
      HistoryOk(cfg, St(), finished) && |finished| + left == |delayed|
    }

    /** The phi being given its operands, the first `i` of which it has got, and those still listed. */
    ghost predicate Collecting(phi: nat, b: nat, s: nat, i: nat, rest: seq<nat>)
      reads this
    {
      && Valid({phi}) && unfinished == rest && phi !in Listed(rest)
      && cfg.AllReachable() && cfg.AllIn(visited)
      && b < |cfg.preds| && b != cfg.entry && Gathers(cfg, St(), b, s, phi, i)
      && Logged(|rest| + 1) && delayed[|finished|] == Cell(b, s)
    }

    lemma WaitForPredecessor(phi: nat, b: nat, s: nat, i: nat, rest: seq<nat>)
      requires Collecting(phi, b, s, i, rest) && i < |cfg.preds[b]|
      ensures var f := AfterPhiPredecessor(b, phi, i);
              Valid(OpenPhis([f])) && FramesOk(cfg, St(), s, [f]) && cfg.preds[b][i] < |cfg.preds|
      ensures [] + [AfterPhiPredecessor(b, phi, i)] == [AfterPhiPredecessor(b, phi, i)]
    {
      hide Settled, Linked, Gathers, Logged;
      OpenPhiOf(b, phi, i);
      assert PredsVisited(cfg, St(), b);
    }

    /** Predecessor `i` hands its operand to a phi. */
    method CollectOperand(phi: nat, b: nat, s: nat, i: nat, ghost rest: seq<nat>)
      requires Collecting(phi, b, s, i, rest) && i < |cfg.preds[b]|
      modifies this`nodes, this`canon, this`defs, this`ins, this`replacements, this`incompletePhis,
               this`unfinished, this`age, this`now, this`asOf, this`delayed
      ensures Collecting(phi, b, s, i + 1, rest) && Queued() == old(Queued())
      ensures Carried(old(Marked()), Marked())
    {
      hide Settled, FramesOk, CanonOk, OperandsInUse, CellsInUse, HasOut, Out, Gathers, Carried, OpenPhis, InRange, FlowGraph.AllIn, HistoryOk, Delays;
      ghost var before, queue, st := Marked(), Queued(), St();
      ghost var f := AfterPhiPredecessor(b, phi, i);
      WaitForPredecessor(phi, b, s, i, rest);
      var value := ReadStorage(cfg.preds[b][i], s, [f]);
      NothingToDelay(cfg, visited, cfg.preds[b][i], queue, Queued());
      ghost var between := Marked();
      FrameOfOne(s, f);
      AddPhiOperand(b, s, phi, i, value, []);
      CarriedTwice(before, between, Marked());
      CarriedDates(before, Marked());
      HistoryKept(cfg, st, St(), finished);
      NoFrames(s);
      assert {} + {phi} == {phi};
    }

    lemma CarriedDates(m: Marks, m': Marks)
      requires Carried(m, m')
      ensures Extends(m.asOf, m'.asOf)
    {
    }

    lemma FrameOfOne(s: nat, f: Frame)
      requires FramesOk(cfg, St(), s, [f])
      ensures FrameOk(cfg, St(), s, f) && [] + [f] == [f]
    {
      assert [f][0] == f;
    }

    lemma StartCollecting(phi: nat, rest: seq<nat>)
      requires Valid({}) && unfinished == [phi] + rest && cfg.AllIn(visited) && Logged(|unfinished|)
      ensures phi < |nodes| && nodes[phi].Phi?
      ensures var v, cell := WithoutListed(Tables(), phi, rest), PhiCell(nodes[phi]);
              && Settled(cfg, v, {phi}) && phi !in Listed(rest)
              && cell.block < |cfg.preds| && cell.block != cfg.entry
              && Gathers(cfg, v.st, cell.block, cell.storage, phi, 0)
              && HistoryOk(cfg, v.st, finished) && delayed[|finished|] == cell
              && Extends(asOf, v.st.asOf)
    {
      hide Inv, DefsOk, DatesOk, LastDelayed;
      TakeFromList(cfg, Tables(), phi, rest);
      FirstListed(cfg, Tables(), phi, rest);
      HistoryKept(cfg, St(), WithoutListed(Tables(), phi, rest).st, finished);
    }

    method TakeListedPhi(phi: nat, ghost rest: seq<nat>) returns (b: nat, s: nat)
      requires Valid({}) && unfinished == [phi] + rest && cfg.AllReachable() && cfg.AllIn(visited) && Logged(|unfinished|)
      modifies this`unfinished, this`asOf
      ensures Collecting(phi, b, s, 0, rest) && Carried(old(Marked()), Marked())
    {
      hide Settled, CanonOk, OperandsInUse, CellsInUse, HistoryOk, Gathers, InRange;
      LinkedInRange();
      StartCollecting(phi, rest);
      b, s := nodes[phi].block, nodes[phi].storage;
      ghost var after := WithoutListed(Tables(), phi, rest);
      DatedCarries(Marked(), after.st.asOf);
      unfinished, asOf := rest, after.st.asOf;
      assert Tables() == after;
    }

    lemma DatedCarries(m: Marks, asOf: map<Cell, set<Cell>>)
      requires InRange(m) && Extends(m.asOf, asOf)
      ensures Carried(m, m.(asOf := asOf))
    {
    }

    /**
     Gives a listed phi its operands once every block has been translated. If the phi turns out
     trivial, the block is made to remember the one other operand for its storage. If it has
     assigned the storage, it forgets that.
     */
    method AddPhiOperands(phi: nat, ghost rest: seq<nat>)
      requires Valid({}) && unfinished == [phi] + rest && cfg.AllReachable() && cfg.AllIn(visited) && Logged(|unfinished|)
      modifies this`nodes, this`canon, this`defs, this`ins, this`replacements, this`incompletePhis,
               this`unfinished, this`age, this`now, this`asOf, this`delayed, this`forgotten, this`finished
      ensures Valid({}) && unfinished == rest && Logged(|unfinished|) && Carried(old(Marked()), Marked())
      ensures incompletePhis == old(incompletePhis) && delayed == old(delayed) && |finished| == |old(finished)| + 1
      ensures var f, cell := finished[|old(finished)|], delayed[|old(finished)|];
              && f.phi == phi
              && forgotten == old(forgotten) + if Overwrites(f, cell) then {cell} else {}
    {
      hide Collecting, Carried, Valid, HistoryOk, Overwrites;
      ghost var before := Marked();
      var b, s := TakeListedPhi(phi, rest);
      CollectingInRange(phi, b, s, 0, rest);
      for i := 0 to |cfg.preds[b]|
        invariant Collecting(phi, b, s, i, rest) && incompletePhis == old(incompletePhis)
        invariant delayed == old(delayed) && finished == old(finished) && forgotten == old(forgotten)
        invariant Carried(before, Marked())
      {
        ghost var between := Marked();
        CollectOperand(phi, b, s, i, rest);
        CarriedTwice(before, between, Marked());
      }
      ghost var between := Marked();
      FinishListedPhi(phi, b, s, rest);
      CarriedTwice(before, between, Marked());
    }

    lemma CollectingInRange(phi: nat, b: nat, s: nat, i: nat, rest: seq<nat>)
      requires Collecting(phi, b, s, i, rest)
      ensures b < |cfg.preds| && |finished| < |delayed| && delayed[|finished|] == Cell(b, s)
    {
    }

    lemma EndCollecting(phi: nat, b: nat, s: nat, rest: seq<nat>)
      requires b < |cfg.preds| && Collecting(phi, b, s, |cfg.preds[b]|, rest)
      ensures Valid({}) && unfinished == rest && phi !in {} + Listed(unfinished)
      ensures phi !in replacements && canon[phi] == phi
      ensures IsPhiFor(St(), phi, b, s) && Cell(b, s) in ins && ins[Cell(b, s)] == phi
      ensures HistoryOk(cfg, St(), finished) && |finished| + |rest| + 1 == |delayed| && delayed[|finished|] == Cell(b, s)
      ensures FinishOk(cfg, St(), Finish(phi, St(), Listed(rest)), Cell(b, s))
    {
      hide CanonOk, OperandsInUse, CellsInUse, TablesOk, HistoryOk;
      assert {} + {phi} == {phi};
      assert {} + Listed(rest) == Listed(rest);
      LinkedInRange();
      CellInUse(Graph(), ins, Cell(b, s));
      ClosePhi(cfg, Tables(), {}, b, s, phi);
      DatesAreKnown(phi, b, s, rest);
    }

    lemma DatesAreKnown(phi: nat, b: nat, s: nat, rest: seq<nat>)
      requires b < |cfg.preds| && Collecting(phi, b, s, |cfg.preds[b]|, rest)
      ensures DatesKnown(St()) && DatesBefore(St())
    {
      hide DefsOk, IncompleteOk, LastDelayed, Inv;
      TablesShape(cfg, Tables());
    }

    method FinishListedPhi(phi: nat, b: nat, s: nat, ghost rest: seq<nat>)
      requires b < |cfg.preds| && Collecting(phi, b, s, |cfg.preds[b]|, rest)
      modifies this`nodes, this`canon, this`defs, this`ins, this`replacements, this`age, this`now,
               this`forgotten, this`finished
      ensures Valid({}) && unfinished == rest && Logged(|unfinished|) && Carried(old(Marked()), Marked())
      ensures finished == old(finished) + [old(Finish(phi, St(), Listed(rest)))]
      ensures forgotten == old(forgotten) + if Overwrites(finished[|old(finished)|], Cell(b, s)) then {Cell(b, s)} else {}
    {
      hide Collecting, Settled, CanonOk, OperandsInUse, CellsInUse, Carried, InRange, Trivial, Answers, HistoryOk, FinishOk;
      EndCollecting(phi, b, s, rest);
      LinkedInRange();
      NothingChangedCarries(Marked());
      ghost var st, f := St(), Finish(phi, St(), Listed(rest));
      var sameNode := GetTrivialPhiReplacement(phi);
      if sameNode.Some? {
        OverwriteDefinition(b, s, phi, sameNode.value);
      }
      HistoryLonger(cfg, st, St(), finished, f);
      finished := finished + [f];
    }

    /** A listed phi that is trivial gives way, and its block forgets what it has assigned to the storage. */
    method OverwriteDefinition(b: nat, s: nat, phi: nat, same: nat)
      requires Valid({}) && phi !in {} + Listed(unfinished)
      requires IsPhiFor(St(), phi, b, s) && Trivial(nodes[phi].operands, phi, same)
      requires Cell(b, s) in ins && ins[Cell(b, s)] == phi
      modifies this`nodes, this`canon, this`defs, this`ins, this`replacements, this`age, this`now, this`forgotten
      ensures Valid({}) && Answers(b, s, same) && Carried(old(Marked()), Marked())
      ensures forgotten == if Cell(b, s) in writes then old(forgotten) + {Cell(b, s)} else old(forgotten)
      ensures Cell(b, s) in ins && ins[Cell(b, s)] == same
    {
      hide Settled, FramesOk, Carried, InRange, Trivial, HasOut, Out, ReplaceUses, RedirectAll;
      hide CanonOk, OperandsInUse, CellsInUse, OpenPhis, Listed;
      NoFrames(s);
      TrivialOperand(nodes[phi].operands, phi, same);
      LinkedInRange();
      CellInUse(Graph(), ins, Cell(b, s));
      PhiOperandsInUse(Graph(), phi, same);
      ghost var after := WithoutPhi(Tables(), b, s, phi, same);
      RemoveTrivialPhi(cfg, Tables(), {}, b, s, phi, same, []);
      LetGo(b, s, phi, same);
      forgotten := after.st.forgotten;
      assert Tables() == after;
    }

    /**
     Every phi has its operands, and every storage that a statement reads has been given a node
     while its block was being translated.
     */
    ghost predicate Translated(p: Program)
      reads this
    {
      && Valid({}) && unfinished == [] && cfg.AllReachable() && cfg.AllIn(visited)
      && Recorded(p, None) && UsesRead(p, uses, visited, None) && Logged(0)
    }

    lemma StillRecorded(p: Program, m: Marks)
      requires Valid({}) && p.WellFormed() && p.cfg == cfg
      requires WritesMatch(p, writes, visited, None) && UsesStand(p, m, uses) && Wanted(p, delayed)
      requires OneNodeEach(writes) && Carried(m, Marked())
      ensures Recorded(p, None)
    {
      ValidValuesStay({});
      UsesCarried(p, m, Marked(), uses);
    }

    lemma RecordedParts(p: Program)
      requires Recorded(p, None)
      ensures p.WellFormed() && p.cfg == cfg
      ensures WritesMatch(p, writes, visited, None) && UsesStand(p, Marked(), uses) && Wanted(p, delayed)
      ensures OneNodeEach(writes)
    {
    }

    method TakeListed(p: Program) returns (work: seq<nat>)
      requires Valid({}) && Recorded(p, None) && Logged(|unfinished|)
      modifies this`incompletePhis
      ensures Valid({}) && Recorded(p, None) && Logged(|unfinished|)
      ensures incompletePhis == [] && work == old(incompletePhis)
    {
      hide Settled, CanonOk, OperandsInUse, CellsInUse, UsesStand, WritesMatch, HistoryOk;
      ghost var before := Tables();
      work := incompletePhis;
      incompletePhis := [];
      assert Tables() == before;
    }

    /** Gives the listed phis their operands, one after the other. */
    method ProcessIncompletePhis(p: Program)
      requires BetweenBlocks(p) && cfg.AllIn(visited)
      modifies this`nodes, this`canon, this`defs, this`ins, this`replacements, this`incompletePhis,
               this`unfinished, this`age, this`now, this`asOf, this`delayed, this`forgotten, this`finished
      ensures Translated(p) && delayed == old(delayed)
    {
      hide Valid, Recorded, Carried, FlowGraph.AllIn, UsesRead, HistoryOk;
      NothingForgottenYet(p);
      while |incompletePhis| > 0
        invariant Valid({}) && Recorded(p, None) && incompletePhis == unfinished
        invariant cfg.AllReachable() && cfg.AllIn(visited) && Logged(|unfinished|) && delayed == old(delayed)
        decreases |incompletePhis|
      {
        var work := TakeListed(p);
        for k := 0 to |work|
          invariant Valid({}) && Recorded(p, None) && incompletePhis == [] && unfinished == work[k..]
          invariant cfg.AllIn(visited) && cfg.AllReachable() && Logged(|unfinished|) && delayed == old(delayed)
        {
          ghost var before := Marked();
          RecordedParts(p);
          AddPhiOperands(work[k], work[k + 1..]);
          StillRecorded(p, before);
        }
      }
    }

    lemma NothingForgottenYet(p: Program)
      requires BetweenBlocks(p)
      ensures Logged(|unfinished|)
    {
      hide Linked, Recorded, Inv, IncompleteOk, DefsOk;
      UsedInWrites(cfg, Tables(), {});
      DelayedApart(cfg, Tables());
      forall cell | cell in writes && writes[cell].Incoming?
        ensures var source := Cell(cell.block, writes[cell].storage);
                source in delayed || (source in asOf && asOf[source] == {})
      {
        var source := Cell(cell.block, writes[cell].storage);
        if source !in asOf {
          assert IsListedFor(Tables(), ins[source], source);
          var i :| 0 <= i < |unfinished| && unfinished[i] == ins[source];
          assert delayed[|delayed| - |unfinished| + i] == PhiCell(nodes[unfinished[i]]);
        }
      }
    }

    /**
     Translates the blocks in any order that lists each of them once. Afterwards every storage
     that a statement reads has a node, and the delayed phis are those that they should be.
     */
    method Transform(p: Program, order: seq<nat>)
      requires p.WellFormed() && p.cfg == cfg && cfg.AllReachable()
      requires Valid({}) && visited == {} && writes == map[] && uses == map[]
      requires Mindful() && delayed == []
      requires IsOrder(cfg, order)
      modifies this
      ensures Translated(p)
      ensures ListedBy(p, order, delayed, |order|)
      ensures forall j :: 0 <= j <= |order| ==> ListedAt(p, order, delayed, j)
    {
      hide Translated, Translating, ListedBy, ListedAt, Delays, PredsVisited, UsesRead, Recorded, Valid;
      NothingListed(p, order);
      ListedAtNow(p, order, [], 0);
      StartRecorded(p);
      for k := 0 to |order|
        invariant BetweenBlocks(p) && visited == Listed(order[..k])
        invariant ListedBy(p, order, delayed, k)
        invariant forall j :: 0 <= j <= k ==> ListedAt(p, order, delayed, j)
      {
        NotYetVisited(cfg, order, k);
        ghost var queue, st := Queued(), St();
        TranslateBlock(p, order[k]);
        ListedAfterBlock(p, order, k, queue, st);
      }
      AllVisited(cfg, order);
      ProcessIncompletePhis(p);
    }

    lemma StartRecorded(p: Program)
      requires p.WellFormed() && p.cfg == cfg && cfg.AllReachable() && Valid({})
      requires visited == {} && writes == map[] && uses == map[] && Mindful() && delayed == []
      ensures BetweenBlocks(p)
    {
    }

    lemma ListedAfterBlock(p: Program, order: seq<nat>, k: nat, queue: Queue, st: State)
      requires p.WellFormed() && p.cfg == cfg && IsOrder(cfg, order) && k < |order| && order[k] < |cfg.preds|
      requires ListedBy(p, order, queue.delayed, k) && Delays(cfg, Listed(order[..k]), order[k], queue, Queued())
      requires st.visited == Listed(order[..k])
      requires !PredsVisited(cfg, st, order[k]) ==> forall s :: Asks(p, order[k], s) ==> Cell(order[k], s) in delayed
      requires forall j :: 0 <= j <= k ==> ListedAt(p, order, queue.delayed, j)
      ensures ListedBy(p, order, delayed, k + 1)
      ensures forall j :: 0 <= j <= k + 1 ==> ListedAt(p, order, delayed, j)
    {
      hide ListedAt, ListedBy;
      ListedNext(p, order, k, queue, Queued());
      ListedAtNow(p, order, delayed, k + 1);
      forall j | 0 <= j <= k
        ensures ListedAt(p, order, delayed, j)
      {
        ListedAtLater(p, order, queue.delayed, delayed, j);
      }
    }

    lemma AllKnown(p: Program)
      requires Translated(p)
      ensures AssignmentsKnown(p, writes, asOf, forgotten) && Inv(cfg, St(), {}) && p.cfg == cfg
    {
      assert {} + Listed(unfinished) == {};
      forall b {:trigger p.code[b]} | 0 <= b < |p.code|
        ensures BlockMatches(p.code[b], writes, b, |p.code[b]|)
      {
        assert b in visited;
      }
    }

    /**
     Safety over whole runs: the node that a statement was given for a storage it reads evaluates,
     at the end of every walk to the statement's block, to what a search sees in the storage that
     misses the assignments forgotten by the time it comes past them. If all of those put back
     what was there, or the search comes past none, it is what the storage held just before the
     statement.
     */
    lemma EveryReadIsCorrect(p: Program, u: Use, w: Walk)
      requires Translated(p) && IsUse(p, u) && IsWalk(cfg, w) && End(cfg, w) == u.block
      ensures u in uses && uses[u] < |canon|
      ensures IsRepresentative(replacements, uses[u], canon[uses[u]])
      ensures var s, value := UsedStorage(p, u), Eval(cfg, nodes, canon[uses[u]], w);
              && value == Some(Seen(p, writes, asOf, w, u.index, s))
              && ((forall cell :: cell in forgotten ==> PutsBack(p, cell)) ==> value == Some(Holds(p, w, u.index, s)))
              && (!MeetsForgotten(p, writes, asOf, w, u.index, s) ==> value == Some(Holds(p, w, u.index, s)))
    {
      hide Linked, Settled, Inv, Seen, MeetsForgotten, PutsBack, AssignmentsKnown, HistoryOk, WritesMatch;
      var s := UsedStorage(p, u);
      AllKnown(p);
      UseStands(p, u);
      StandsIsCorrect(p, St(), canon, u.block, u.index, s, uses[u], w);
      if forall cell :: cell in forgotten ==> PutsBack(p, cell) {
        SeenIsRight(p, writes, asOf, forgotten, w, u.index, s);
      }
      if !MeetsForgotten(p, writes, asOf, w, u.index, s) {
        UnmetIsRight(p, writes, asOf, forgotten, w, u.index, s);
      }
    }

    lemma UseStands(p: Program, u: Use)
      requires Translated(p) && IsUse(p, u) && u.block < |p.code|
      ensures u in uses && uses[u] < |canon| && Stands(p.code[u.block], Marked(), u.block, u.index, UsedStorage(p, u), uses[u])
      ensures IsRepresentative(replacements, uses[u], canon[uses[u]])
    {
      assert u.index < Progress(p.code[u.block], visited, None, u.block);
      assert Stands(p.code[u.block], Marked(), u.block, u.index, UsedStorage(p, u), uses[u]);
      CanonIsRepresentative(Graph(), uses[u]);
    }

    /** A storage read at the end of a block once all is translated, like the exit block's. */
    lemma LaterReadIsCorrect(p: Program, b: nat, s: nat, r: nat, w: Walk)
      requires Translated(p) && Answers(b, s, r) && IsWalk(cfg, w) && End(cfg, w) == b
      ensures IsRepresentative(replacements, r, canon[r]) && Acyclic(replacements)
      ensures b < |p.code|
      ensures var value := Eval(cfg, nodes, canon[r], w);
              && value == Some(ValueOut(cfg, writes, asOf, forgotten, w, s))
              && ((forall cell :: cell in forgotten ==> PutsBack(p, cell)) ==> value == Some(Holds(p, w, |p.code[b]|, s)))
              && (!MeetsOut(p, writes, asOf, forgotten, w, s) ==> value == Some(Holds(p, w, |p.code[b]|, s)))
    {
      hide Settled, Inv, PutsBack, AssignmentsKnown, HistoryOk, WritesMatch;
      AllKnown(p);
      CanonIsRepresentative(Graph(), r);
      AgedIsAcyclic(replacements, age, now);
      OutIsCorrect(cfg, St(), w, s);
      if forall cell :: cell in forgotten ==> PutsBack(p, cell) {
        SeenOutIsRight(p, writes, asOf, forgotten, forgotten, w, s);
      }
      if !MeetsOut(p, writes, asOf, forgotten, w, s) {
        UnmetOutIsRight(p, writes, asOf, forgotten, forgotten, w, s);
      }
    }

    /** On every walk, what the blocks remember evaluates to what the storages hold at their ends. */
    ghost predicate RemembersRight(p: Program)
      requires p.WellFormed() && p.cfg == cfg && cfg.WellFormed()
      reads this
    {
      forall cell, w :: cell in defs && IsWalk(cfg, w) && End(cfg, w) == cell.block ==>
        defs[cell] < |canon|
        && Eval(cfg, nodes, canon[defs[cell]], w) == Some(Holds(p, w, |p.code[cell.block]|, cell.storage))
    }

    /**
     What the blocks remember when all phis have their operands is right exactly if every
     assignment that has been forgotten puts back what the storage held before.
     */
    lemma RememberedDefinitionKept(p: Program)
      requires Translated(p)
      ensures p.WellFormed() && p.cfg == cfg && cfg.WellFormed()
      ensures RemembersRight(p) <==> forall cell :: cell in forgotten ==> PutsBack(p, cell)
    {
      hide Linked, Settled, Inv, PutsBack, AssignmentsKnown, HistoryOk, WritesMatch;
      AllKnown(p);
      forall cell, w | cell in defs && IsWalk(cfg, w) && End(cfg, w) == cell.block
        ensures defs[cell] < |canon|
        ensures Eval(cfg, nodes, canon[defs[cell]], w) == Some(ValueOut(cfg, writes, asOf, forgotten, w, cell.storage))
      {
        KnownCell(cfg, Tables(), {}, cell.block, cell.storage);
        OutIsCorrect(cfg, St(), w, cell.storage);
      }
      if forall cell :: cell in forgotten ==> PutsBack(p, cell) {
        forall cell, w | cell in defs && IsWalk(cfg, w) && End(cfg, w) == cell.block
          ensures ValueOut(cfg, writes, asOf, forgotten, w, cell.storage) == Holds(p, w, |p.code[cell.block]|, cell.storage)
        {
          SeenOutIsRight(p, writes, asOf, forgotten, forgotten, w, cell.storage);
        }
      }
      if RemembersRight(p) {
        ForgottenAreRemembered(p);
        assert OutsAreRight(p, writes, asOf, forgotten);
        forall cell | cell in forgotten
          ensures PutsBack(p, cell)
        {
          RightOnlyIfPutBack(p, writes, asOf, forgotten, cell);
        }
      }
    }

    lemma ForgottenAreRemembered(p: Program)
      requires Translated(p)
      ensures forgotten <= defs.Keys
    {
      hide Linked, Inv, Recorded;
      forall cell | cell in forgotten
        ensures cell in defs
      {
        ForgottenWasDelayed(delayed, finished, cell);
        var k :| 0 <= k < |finished| && delayed[k] == cell && Overwrites(finished[k], cell);
        assert FinishOk(cfg, St(), finished[k], cell);
      }
    }
  }
}
