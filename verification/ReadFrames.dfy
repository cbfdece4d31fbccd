/**
 The stack of suspended reads: ReadStorage does not call itself, it pushes a frame that says
 how to go on once the read of a predecessor has been answered.
 */
module ReadFrames {
  import opened FlowGraphs
  import opened SsaSemantics
  import opened SsaSteps

  datatype Frame =
    | Resolve(block: nat)
    | AfterSinglePredecessor(block: nat)
    | AfterPhiPredecessor(block: nat, phi: nat, index: nat)

  /** The phi that is the contents of `s` on entry to `b` has the operands of the first `i` predecessors. */
  ghost predicate Gathers(g: FlowGraph, st: State, b: nat, s: nat, phi: nat, i: nat)
    requires b < |g.preds|
  {
    && IsPhiFor(st, phi, b, s) && |st.nodes[phi].operands| == i
    && OperandsOk(g, st, b, s, st.nodes[phi].operands)
    && Cell(b, s) in st.ins && st.ins[Cell(b, s)] == phi
    && Cell(b, s) in st.asOf && st.asOf[Cell(b, s)] == st.forgotten
  }

  /** A waiting frame is in order: `s` is the storage being read. */
  ghost predicate FrameOk(g: FlowGraph, st: State, s: nat, f: Frame) {
    && f.block < |g.preds| && f.block != g.entry
    && PredsVisited(g, st, f.block)
    && match f
       case Resolve(_) => false
       case AfterSinglePredecessor(b) =>
         && |g.preds[b]| == 1
         && (Cell(b, s) in st.ins ==>
               && Cell(b, s) in st.asOf
               && HasOut(st, g.preds[b][0], s) && st.ins[Cell(b, s)] == Out(st, g.preds[b][0], s))
       case AfterPhiPredecessor(b, phi, i) =>
         i < |g.preds[b]| && Gathers(g, st, b, s, phi, i)
  }

  ghost predicate FramesOk(g: FlowGraph, st: State, s: nat, frames: seq<Frame>) {
    && (forall k :: 0 <= k < |frames| ==> FrameOk(g, st, s, frames[k]))
    && (forall j, k :: 0 <= j < k < |frames| && frames[j].AfterPhiPredecessor? && frames[k].AfterPhiPredecessor? ==>
          frames[j].phi != frames[k].phi)
  }

  predicate Waits(g: FlowGraph, f: Frame) {
    && !f.Resolve? && f.block < |g.preds|
    && (f.AfterSinglePredecessor? ==> |g.preds[f.block]| == 1)
    && (f.AfterPhiPredecessor? ==> f.index < |g.preds[f.block]|)
  }

  /** The block whose value a waiting frame waits for. */
  function Awaited(g: FlowGraph, f: Frame): nat
    requires Waits(g, f)
  {
    if f.AfterSinglePredecessor? then g.preds[f.block][0] else g.preds[f.block][f.index]
  }

  /** Every frame above the first reads the block that the frame below it waits for. */
  ghost predicate Chained(g: FlowGraph, frames: seq<Frame>, block: nat) {
    frames != [] ==>
      && Chained(g, frames[..|frames| - 1], block)
      && Waits(g, frames[|frames| - 1])
      && frames[|frames| - 1].block == Target(g, frames[..|frames| - 1], block)
  }

  /** The block that the topmost frame waits for. */
  ghost function Target(g: FlowGraph, frames: seq<Frame>, block: nat): nat {
    if frames == [] || !Waits(g, frames[|frames| - 1]) then block else Awaited(g, frames[|frames| - 1])
  }

  predicate Asking(work: seq<Frame>) {
    work != [] && work[|work| - 1].Resolve?
  }

  /** The number of predecessors whose operands the open phis of the stack still lack. */
  ghost function Remaining(g: FlowGraph, frames: seq<Frame>): nat {
    if frames == [] then 0
    else
      var f := frames[|frames| - 1];
      Remaining(g, frames[..|frames| - 1])
      + if f.AfterPhiPredecessor? && Waits(g, f) then |g.preds[f.block]| - f.index else 0
  }

  lemma PushChained(g: FlowGraph, frames: seq<Frame>, block: nat, f: Frame)
    requires Chained(g, frames, block) && Waits(g, f) && f.block == Target(g, frames, block)
    ensures Chained(g, frames + [f], block)
    ensures Target(g, frames + [f], block) == Awaited(g, f)
    ensures Remaining(g, frames + [f]) ==
            Remaining(g, frames) + if f.AfterPhiPredecessor? then |g.preds[f.block]| - f.index else 0
  {
    var all := frames + [f];
    assert all[..|all| - 1] == frames && all[|all| - 1] == f;
  }

  lemma PopChained(g: FlowGraph, frames: seq<Frame>, block: nat, f: Frame)
    requires Chained(g, frames + [f], block)
    ensures Chained(g, frames, block) && Waits(g, f) && f.block == Target(g, frames, block)
    ensures Target(g, frames + [f], block) == Awaited(g, f)
    ensures Remaining(g, frames + [f]) ==
            Remaining(g, frames) + if f.AfterPhiPredecessor? then |g.preds[f.block]| - f.index else 0
  {
    var all := frames + [f];
    assert all[..|all| - 1] == frames && all[|all| - 1] == f;
  }

  /** The blocks with several predecessors that have not been asked for `s` yet. */
  ghost function Unasked(g: FlowGraph, known: set<Cell>, s: nat): set<nat> {
    set b | 0 <= b < |g.preds| && |g.preds[b]| > 1 && Cell(b, s) !in known
  }

  lemma UnaskedShrinks(g: FlowGraph, known: set<Cell>, known': set<Cell>, s: nat)
    requires known <= known'
    ensures Unasked(g, known', s) <= Unasked(g, known, s)
  {
  }

  lemma UnaskedLoses(g: FlowGraph, known: set<Cell>, s: nat, b: nat)
    requires b < |g.preds| && |g.preds[b]| > 1 && Cell(b, s) !in known
    ensures Unasked(g, known + {Cell(b, s)}, s) < Unasked(g, known, s)
  {
    assert b in Unasked(g, known, s);
  }

  /** The phis that the waiting frames are still collecting operands for. */
  ghost function OpenPhis(frames: seq<Frame>): set<nat> {
    set f | f in frames && f.AfterPhiPredecessor? :: f.phi
  }

  lemma OpenPhisAppend(frames: seq<Frame>, f: Frame)
    ensures OpenPhis(frames + [f]) == OpenPhis(frames) + OpenPhis([f])
  {
  }

  lemma OpenPhisExist(g: FlowGraph, st: State, s: nat, frames: seq<Frame>)
    requires FramesOk(g, st, s, frames)
    ensures forall n :: n in OpenPhis(frames) ==> n < |st.nodes|
  {
    forall k | 0 <= k < |frames|
      ensures frames[k].AfterPhiPredecessor? ==> frames[k].phi < |st.nodes|
    {
      assert FrameOk(g, st, s, frames[k]);
    }
  }

  lemma PushFrame(g: FlowGraph, st: State, s: nat, frames: seq<Frame>, f: Frame)
    requires FramesOk(g, st, s, frames) && FrameOk(g, st, s, f)
    requires f.AfterPhiPredecessor? ==> f.phi !in OpenPhis(frames)
    ensures FramesOk(g, st, s, frames + [f])
  {
    var all := frames + [f];
    forall k | 0 <= k < |all|
      ensures FrameOk(g, st, s, all[k])
    {
      assert k < |frames| ==> all[k] == frames[k];
    }
    forall j, k | 0 <= j < k < |all| && all[j].AfterPhiPredecessor? && all[k].AfterPhiPredecessor?
      ensures all[j].phi != all[k].phi
    {
      assert all[j] == frames[j] && frames[j] in frames;
      assert k == |frames| ==> all[k] == f;
      assert k < |frames| ==> all[k] == frames[k];
    }
  }

  lemma PopFrame(g: FlowGraph, st: State, s: nat, frames: seq<Frame>, f: Frame)
    requires FramesOk(g, st, s, frames + [f])
    ensures FramesOk(g, st, s, frames) && FrameOk(g, st, s, f)
    ensures f.AfterPhiPredecessor? ==> f.phi !in OpenPhis(frames)
    ensures OpenPhis(frames + [f]) == OpenPhis(frames) + OpenPhis([f])
  {
    var all := frames + [f];
    assert all[|frames|] == f;
    forall k | 0 <= k < |frames|
      ensures FrameOk(g, st, s, frames[k])
      ensures frames[k].AfterPhiPredecessor? && f.AfterPhiPredecessor? ==> frames[k].phi != f.phi
    {
      assert frames[k] == all[k];
    }
    assert forall j, k :: 0 <= j < k < |frames| ==> frames[j] == all[j] && frames[k] == all[k];
    OpenPhisAppend(frames, f);
  }

  /** The graph has gained nodes and cells, and lost or changed nothing. */
  ghost predicate Grows(st: State, st': State) {
    && st.nodes <= st'.nodes
    && (forall cell :: cell in st.ins ==> cell in st'.ins && st'.ins[cell] == st.ins[cell])
    && Extends(st.asOf, st'.asOf)
    && st'.writes == st.writes
    && st'.visited == st.visited
    && st'.forgotten == st.forgotten
  }

  /**
   A frame survives growth, provided that a new cell of a block that waits for its one
   predecessor agrees with that predecessor.
   */
  lemma FramesGrow(g: FlowGraph, st: State, st': State, s: nat, frames: seq<Frame>)
    requires FramesOk(g, st, s, frames) && Grows(st, st')
    requires forall k :: 0 <= k < |frames| && frames[k].AfterSinglePredecessor?
               && Cell(frames[k].block, s) in st'.ins && Cell(frames[k].block, s) !in st.ins
               ==> var p := g.preds[frames[k].block][0];
                   Cell(frames[k].block, s) in st'.asOf
                   && HasOut(st', p, s) && st'.ins[Cell(frames[k].block, s)] == Out(st', p, s)
    ensures FramesOk(g, st', s, frames)
  {
    forall k | 0 <= k < |frames|
      ensures FrameOk(g, st', s, frames[k])
    {
      assert FrameOk(g, st, s, frames[k]);
    }
  }

  /** The other frames do not notice that one phi gets an operand. */
  lemma FramesKeepOperand(g: FlowGraph, st: State, s: nat, frames: seq<Frame>, phi: nat, operand: nat)
    requires FramesOk(g, st, s, frames) && phi !in OpenPhis(frames)
    requires phi < |st.nodes| && st.nodes[phi].Phi?
    ensures FramesOk(g, WithOperand(st, phi, operand), s, frames)
  {
    var st' := WithOperand(st, phi, operand);
    forall k | 0 <= k < |frames|
      ensures FrameOk(g, st', s, frames[k])
    {
      assert FrameOk(g, st, s, frames[k]);
      assert frames[k] in frames;
    }
  }

  /** The other frames survive the replacement of a trivial phi. */
  lemma FramesKeepReplacement(g: FlowGraph, st: State, s: nat, frames: seq<Frame>, phi: nat, same: nat)
    requires FramesOk(g, st, s, frames) && phi !in OpenPhis(frames)
    requires WritesOk(st) && phi < |st.nodes| && st.nodes[phi].Phi?
    ensures FramesOk(g, Replaced(st, phi, same), s, frames)
  {
    var st' := Replaced(st, phi, same);
    forall k | 0 <= k < |frames|
      ensures FrameOk(g, st', s, frames[k])
    {
      assert FrameOk(g, st, s, frames[k]);
      assert frames[k] in frames;
      forall p | HasOut(st, p, s)
        ensures HasOut(st', p, s) && Out(st', p, s) == Redirect(Out(st, p, s), phi, same)
      {
        OutReplaced(st, phi, same, p, s);
      }
    }
  }
}