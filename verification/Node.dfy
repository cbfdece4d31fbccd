/** The nodes of the graph and the edges between them, which every node keeps from both ends. */
module Nodes {
  import opened Wrappers

  class Node {
    var Number: nat
    var Storage: Option<nat>
    var Inputs: seq<Node?>
    var Outputs: seq<Node>

    constructor (number: nat)
      ensures Number == number && Storage == None && Inputs == [] && Outputs == []
    {
      Number, Storage, Inputs, Outputs := number, None, [], [];
    }

    /** How often this node uses `d`. */
    ghost function Uses(d: Node): nat
      reads this`Inputs
    {
      multiset(Inputs)[d]
    }

    /** How often this node is listed as used by `u`. */
    ghost function UsedBy(u: Node): nat
      reads this`Outputs
    {
      multiset(Outputs)[u]
    }

    /** Takes one entry for the node out of the outputs, and the last one takes its place. */
    method RemoveOutput(nodeToRemove: Node)
      modifies this`Outputs
      ensures multiset(Outputs) == multiset(old(Outputs)) - multiset{nodeToRemove}
      ensures forall x :: x in Outputs ==> x in old(Outputs)
    {
      var count := |Outputs|;
      for i := 0 to count
        invariant Outputs == old(Outputs) && nodeToRemove !in Outputs[..i]
      {
        if Outputs[i] == nodeToRemove {
          RemoveOutputAt(i);
          return;
        }
      }
      assert Outputs[..count] == Outputs;
      NotThere(Outputs, nodeToRemove);
    }

    method RemoveOutputAt(i: nat)
      requires i < |Outputs|
      modifies this`Outputs
      ensures multiset(Outputs) == multiset(old(Outputs)) - multiset{old(Outputs)[i]}
      ensures forall x :: x in Outputs ==> x in old(Outputs)
    {
      var count := |Outputs|;
      SwapRemoved(Outputs, i);
      if i < count - 1 {
        Outputs := Outputs[i := Outputs[count - 1]];
      }
      Outputs := Outputs[..count - 1];
    }
  }

  lemma NotThere(s: seq<Node>, n: Node)
    requires n !in s
    ensures multiset(s) == multiset(s) - multiset{n}
  {
  }

  lemma SwapRemoved(s: seq<Node>, i: nat)
    requires i < |s|
    ensures multiset(s[i := s[|s| - 1]][..|s| - 1]) == multiset(s) - multiset{s[i]}
    ensures i == |s| - 1 ==> multiset(s[..|s| - 1]) == multiset(s) - multiset{s[i]}
  {
    var n := |s| - 1;
    assert s == s[..n] + [s[n]];
    if i < n {
      assert s[..n] == s[..i] + [s[i]] + s[i + 1..n];
      assert s[i := s[n]][..n] == s[..i] + [s[n]] + s[i + 1..n];
    } else {
      assert s[i := s[n]] == s;
    }
  }

  // ---- the invariant of a graph ----

  ghost predicate Closed(graph: set<Node>)
    reads graph`Inputs, graph`Outputs
  {
    && (forall u: Node, x: Node? :: u in graph && x in u.Inputs && x != null ==> x in graph)
    && (forall u: Node, x: Node :: u in graph && x in u.Outputs ==> x in graph)
  }

  /** Every edge is listed as often at one end as at the other. */
  ghost predicate Dual(graph: set<Node>)
    reads graph`Inputs, graph`Outputs
  {
    Closed(graph) && forall d, u :: d in graph && u in graph ==> d.UsedBy(u) == u.Uses(d)
  }

  function Redirected(inputs: seq<Node?>, original: Node, substitute: Node): (r: seq<Node?>)
    ensures |r| == |inputs|
    ensures forall i :: 0 <= i < |inputs| ==> r[i] == if inputs[i] == original then substitute else inputs[i]
  {
    seq(|inputs|, i requires 0 <= i < |inputs| => if inputs[i] == original then substitute else inputs[i])
  }

  lemma {:induction false} RedirectedCounts(inputs: seq<Node?>, original: Node, substitute: Node, d: Node)
    ensures multiset(Redirected(inputs, original, substitute))[d] ==
              if original == substitute then multiset(inputs)[d]
              else if d == original then 0
              else if d == substitute then multiset(inputs)[substitute] + multiset(inputs)[original]
              else multiset(inputs)[d]
  {
    if inputs == [] {
      assert Redirected(inputs, original, substitute) == [];
    } else {
      var n := |inputs| - 1;
      RedirectedCounts(inputs[..n], original, substitute, d);
      assert inputs == inputs[..n] + [inputs[n]];
      var last := if inputs[n] == original then substitute else inputs[n];
      assert Redirected(inputs, original, substitute) == Redirected(inputs[..n], original, substitute) + [last];
    }
  }

  lemma NotUsed(inputs: seq<Node?>, original: Node, substitute: Node)
    requires original !in inputs
    ensures Redirected(inputs, original, substitute) == inputs
  {
  }

  // ---- operations ----

  /** Apart from the nodes in `but`: `n` still has to be taken from the outputs of these inputs. */
  ghost predicate RemovedUpTo(graph: set<Node>, but: set<Node>, n: Node, inputs: seq<Node?>)
    reads graph`Inputs, graph`Outputs
  {
    forall d, u :: d in graph && d !in but && u in graph ==>
      d.UsedBy(u) == if u == n then multiset(inputs)[d] else u.Uses(d)
  }

  /** One input lets go of the node. */
  method Unlink(input: Node?, n: Node, ghost rest: seq<Node?>, ghost but: set<Node>, ghost graph: set<Node>)
    requires Closed(graph) && n in graph && (input != null ==> input in graph)
    requires RemovedUpTo(graph, but, n, [input] + rest)
    modifies graph`Outputs
    ensures Closed(graph) && RemovedUpTo(graph, but, n, rest)
  {
    assert multiset([input] + rest) == multiset{input} + multiset(rest);
    if input != null {
      input.RemoveOutput(n);
    }
  }

  /** The loop that takes a node out of the outputs of all its inputs. */
  method UnlinkAll(n: Node, ghost but: set<Node>, ghost graph: set<Node>)
    requires Closed(graph) && n in graph && RemovedUpTo(graph, but, n, n.Inputs)
    modifies graph`Outputs
    ensures Closed(graph) && RemovedUpTo(graph, but, n, [])
  {
    hide RemovedUpTo;
    var inputs := n.Inputs;
    assert inputs[0..] == inputs;
    for k := 0 to |inputs|
      invariant Closed(graph) && RemovedUpTo(graph, but, n, inputs[k..]) && n.Inputs == inputs
    {
      assert inputs[k..] == [inputs[k]] + inputs[k + 1..];
      assert inputs[k] in n.Inputs;
      Unlink(inputs[k], n, inputs[k + 1..], but, graph);
    }
  }

  method RemoveFromInputs(nodeToRemove: Node, ghost graph: set<Node>)
    requires Dual(graph) && nodeToRemove in graph
    modifies nodeToRemove`Inputs, graph`Outputs
    ensures Dual(graph) && nodeToRemove.Inputs == []
  {
    UnlinkAll(nodeToRemove, {}, graph);
    nodeToRemove.Inputs := [];
  }

  /** The other end of an edge that the node is about to have among its inputs. */
  method Link(def: Node, use: Node, ghost rest: seq<Node?>, ghost inputs: seq<Node?>, ghost graph: set<Node>)
    requires Closed(graph) && def in graph && use in graph
    requires RemovedUpTo(graph, {}, use, rest) && multiset(inputs) == multiset(rest) + multiset{def}
    modifies def`Outputs
    ensures Closed(graph) && RemovedUpTo(graph, {}, use, inputs)
  {
    LinkedCounts(def.Outputs, use);
    assert multiset(inputs)[def] == multiset(rest)[def] + 1;
    def.Outputs := def.Outputs + [use];
  }

  lemma LinkedCounts(outputs: seq<Node>, use: Node)
    ensures forall u :: multiset(outputs + [use])[u] == multiset(outputs)[u] + if u == use then 1 else 0
  {
  }

  /** The inputs of a node catch up with what the outputs say of them. */
  method SetInputs(n: Node, inputs: seq<Node?>, ghost graph: set<Node>)
    requires Closed(graph) && n in graph && RemovedUpTo(graph, {}, n, inputs)
    requires forall x :: x in inputs && x != null ==> x in graph
    modifies n`Inputs
    ensures Dual(graph) && n.Inputs == inputs
  {
    n.Inputs := inputs;
  }

  method AddEdge(def: Node?, use: Node, ghost graph: set<Node>)
    requires Dual(graph) && use in graph && (def != null ==> def in graph)
    modifies graph`Outputs, use`Inputs
    ensures Dual(graph)
    ensures use.Inputs == old(use.Inputs) + if def == null then [] else [def]
  {
    if def == null {
      return;
    }
    Link(def, use, use.Inputs, use.Inputs + [def], graph);
    SetInputs(use, use.Inputs + [def], graph);
  }

  method ReplaceInput(n: Node, iInput: nat, replacement: Node, ghost graph: set<Node>)
    requires Dual(graph) && n in graph && replacement in graph
    requires iInput < |n.Inputs| && n.Inputs[iInput] != null
    modifies n`Inputs, graph`Outputs
    ensures Dual(graph) && n.Inputs == old(n.Inputs)[iInput := replacement]
  {
    hide RemovedUpTo;
    var inputs := n.Inputs;
    ghost var rest := inputs[..iInput] + inputs[iInput + 1..];
    InputReplaced(inputs, iInput, replacement);
    OneInputLeft(graph, n, iInput);
    Unlink(inputs[iInput], n, rest, {}, graph);
    Link(replacement, n, rest, inputs[iInput := replacement], graph);
    SetInputs(n, inputs[iInput := replacement], graph);
  }

  lemma OneInputLeft(graph: set<Node>, n: Node, i: nat)
    requires Dual(graph) && n in graph && i < |n.Inputs| && n.Inputs[i] != null
    ensures n.Inputs[i] in graph
    ensures RemovedUpTo(graph, {}, n, [n.Inputs[i]] + (n.Inputs[..i] + n.Inputs[i + 1..]))
  {
    assert n.Inputs[i] in n.Inputs;
    InputReplaced(n.Inputs, i, n);
  }

  lemma InputReplaced(inputs: seq<Node?>, i: nat, replacement: Node)
    requires i < |inputs|
    ensures multiset(inputs[i := replacement]) == multiset(inputs[..i] + inputs[i + 1..]) + multiset{replacement}
    ensures multiset(inputs) == multiset([inputs[i]] + (inputs[..i] + inputs[i + 1..]))
    ensures forall x :: x in inputs[i := replacement] ==> x in inputs || x == replacement
  {
    assert inputs == inputs[..i] + [inputs[i]] + inputs[i + 1..];
    assert inputs[i := replacement] == inputs[..i] + [replacement] + inputs[i + 1..];
  }

  // ---- replacing a node ----

  method RedirectInputs(consumer: Node, original: Node, substitute: Node)
    modifies consumer`Inputs
    ensures consumer.Inputs == Redirected(old(consumer.Inputs), original, substitute)
  {
    for i := 0 to |consumer.Inputs|
      invariant |consumer.Inputs| == |old(consumer.Inputs)|
      invariant consumer.Inputs[..i] == Redirected(old(consumer.Inputs), original, substitute)[..i]
      invariant consumer.Inputs[i..] == old(consumer.Inputs)[i..]
    {
      assert consumer.Inputs[i] == consumer.Inputs[i..][0] == old(consumer.Inputs)[i];
      ghost var before := consumer.Inputs;
      if consumer.Inputs[i] == original {
        consumer.Inputs := consumer.Inputs[i := substitute];
      }
      assert consumer.Inputs[..i] == before[..i] && consumer.Inputs[i + 1..] == before[i..][1..];
    }
  }

  /** What the nodes of the graph list at both ends. */
  datatype Lists = Lists(inputs: map<Node, seq<Node?>>, outputs: map<Node, seq<Node>>)

  ghost function ListsOf(graph: set<Node>): (r: Lists)
    reads graph`Inputs, graph`Outputs
  {
    Lists(map u | u in graph :: u.Inputs, map u | u in graph :: u.Outputs)
  }

  /** The consumers in `done` have been redirected and listed as the substitute's. */
  ghost predicate RedirectedUpTo(graph: set<Node>, was: Lists, original: Node, substitute: Node, done: seq<Node>)
    reads graph`Inputs, graph`Outputs
  {
    && was.inputs.Keys == was.outputs.Keys == graph && original in graph
    && (forall u :: u in graph ==>
          u.Inputs == if u in done then Redirected(was.inputs[u], original, substitute) else was.inputs[u])
    && (forall d :: d in graph && d != original ==>
          d.Outputs == was.outputs[d] + if d == substitute then done else [])
    && (forall x :: x in original.Outputs ==> x in graph)
  }

  lemma RedirectedTwice(inputs: seq<Node?>, original: Node, substitute: Node)
    ensures Redirected(Redirected(inputs, original, substitute), original, substitute) == Redirected(inputs, original, substitute)
  {
  }

  /** One entry of the original's outputs. */
  method ReplaceIn(consumer: Node, original: Node, substitute: Node, ghost done: seq<Node>, ghost was: Lists, ghost graph: set<Node>)
    requires consumer in graph && substitute in graph
    requires RedirectedUpTo(graph, was, original, substitute, done)
    modifies consumer`Inputs, substitute`Outputs
    ensures RedirectedUpTo(graph, was, original, substitute, done + [consumer])
  {
    RedirectedTwice(was.inputs[consumer], original, substitute);
    RedirectInputs(consumer, original, substitute);
    substitute.Outputs := substitute.Outputs + [consumer];
  }

  ghost predicate WasDual(was: Lists, graph: set<Node>) {
    && was.inputs.Keys == was.outputs.Keys == graph
    && (forall u: Node, x: Node? :: u in graph && x in was.inputs[u] && x != null ==> x in graph)
    && (forall u: Node, x: Node :: u in graph && x in was.outputs[u] ==> x in graph)
    && (forall d, u :: d in graph && u in graph ==> multiset(was.outputs[d])[u] == multiset(was.inputs[u])[d])
  }

  /** With all consumers redirected, only the original's own lists are out of step. */
  lemma AllRedirected(graph: set<Node>, was: Lists, original: Node, substitute: Node)
    requires WasDual(was, graph) && original in graph && substitute in graph
    requires RedirectedUpTo(graph, was, original, substitute, was.outputs[original])
    ensures forall u :: u in graph ==> u.Inputs == Redirected(was.inputs[u], original, substitute)
    ensures RemovedUpTo(graph, {original}, original, original.Inputs)
  {
    forall u | u in graph
      ensures u.Inputs == Redirected(was.inputs[u], original, substitute)
    {
      if u !in was.outputs[original] {
        assert multiset(was.outputs[original])[u] == 0;
        assert multiset(was.inputs[u])[original] == 0;
        NotUsed(was.inputs[u], original, substitute);
      }
    }
    forall d, u | d in graph && d != original && u in graph
      ensures d.UsedBy(u) == u.Uses(d)
    {
      RedirectedCounts(was.inputs[u], original, substitute, d);
      assert d == substitute ==>
          multiset(d.Outputs) == multiset(was.outputs[substitute]) + multiset(was.outputs[original]);
    }
  }

  lemma RedirectedIsClosed(graph: set<Node>, was: Lists, original: Node, substitute: Node)
    requires WasDual(was, graph) && original in graph && substitute in graph
    requires RedirectedUpTo(graph, was, original, substitute, was.outputs[original])
    ensures Closed(graph)
  {
    forall u: Node, x: Node? | u in graph && x in u.Inputs && x != null
      ensures x in graph
    {
      assert x in was.inputs[u] || x == substitute;
    }
    forall u: Node, x: Node | u in graph && x in u.Outputs
      ensures x in graph
    {
      assert u != original ==> x in was.outputs[u] || x in was.outputs[original];
    }
  }

  /** All uses of the original become uses of the substitute, once for every use. */
  method RedirectConsumers(original: Node, substitute: Node, ghost graph: set<Node>)
    requires Dual(graph) && original in graph && substitute in graph
    modifies graph`Inputs, graph`Outputs
    ensures forall u :: u in graph ==> u.Inputs == Redirected(old(u.Inputs), original, substitute)
    ensures Closed(graph) && RemovedUpTo(graph, {original}, original, original.Inputs)
  {
    hide RedirectedUpTo, WasDual, RemovedUpTo, Dual, Closed;
    ghost var was := ListsOf(graph);
    DualBefore(graph, original, substitute);
    RedirectEach(original.Outputs, original, substitute, was, graph);
    AllRedirected(graph, was, original, substitute);
    RedirectedIsClosed(graph, was, original, substitute);
  }

  method RedirectEach(consumers: seq<Node>, original: Node, substitute: Node, ghost was: Lists, ghost graph: set<Node>)
    requires substitute in graph && (forall x :: x in consumers ==> x in graph)
    requires RedirectedUpTo(graph, was, original, substitute, [])
    modifies graph`Inputs, graph`Outputs
    ensures RedirectedUpTo(graph, was, original, substitute, consumers)
  {
    hide RedirectedUpTo;
    assert consumers[..0] == [];
    for k := 0 to |consumers|
      invariant RedirectedUpTo(graph, was, original, substitute, consumers[..k])
    {
      assert consumers[k] in consumers && consumers[..k + 1] == consumers[..k] + [consumers[k]];
      ReplaceIn(consumers[k], original, substitute, consumers[..k], was, graph);
    }
    assert consumers[..|consumers|] == consumers;
  }

  lemma DualBefore(graph: set<Node>, original: Node, substitute: Node)
    requires Dual(graph) && original in graph
    ensures WasDual(ListsOf(graph), graph)
    ensures RedirectedUpTo(graph, ListsOf(graph), original, substitute, [])
    ensures forall x :: x in original.Outputs ==> x in graph
    ensures ListsOf(graph).outputs[original] == original.Outputs
  {
    var was := ListsOf(graph);
    forall d, u | d in graph && u in graph
      ensures multiset(was.outputs[d])[u] == multiset(was.inputs[u])[d]
    {
      assert d.UsedBy(u) == u.Uses(d);
    }
  }

  /** The original is left without edges: its producers have let go of it. */
  method Disconnect(original: Node, ghost graph: set<Node>)
    requires Closed(graph) && original in graph && RemovedUpTo(graph, {original}, original, original.Inputs)
    modifies original`Inputs, graph`Outputs
    ensures Closed(graph) && original.Inputs == [] && original.Outputs == []
    ensures forall d, u :: d in graph && d != original && u in graph ==> d.UsedBy(u) == u.Uses(d)
  {
    UnlinkAll(original, {original}, graph);
    original.Inputs := [];
    original.Outputs := [];
  }

  /**
   Puts the substitute in place of the original everywhere. The lists agree afterwards exactly if
   the two are different nodes, or no other node uses the original.
   */
  method Replace(original: Node, substitute: Node, ghost graph: set<Node>)
    requires Dual(graph) && original in graph && substitute in graph
    modifies graph`Inputs, graph`Outputs, substitute`Number, substitute`Storage
    ensures Closed(graph) && original.Inputs == [] && original.Outputs == []
    ensures forall u :: u in graph && u != original ==> u.Inputs == Redirected(old(u.Inputs), original, substitute)
    ensures Dual(graph) <==>
              original != substitute || forall u :: u in graph && u != original ==> original !in old(u.Inputs)
    ensures original != substitute ==>
              forall u :: u in graph ==> original !in u.Inputs && original !in u.Outputs
    ensures substitute.Number == if old(original.Number) < old(substitute.Number) then old(original.Number) else old(substitute.Number)
    ensures substitute.Storage == if old(substitute.Storage).Some? then old(substitute.Storage) else old(original.Storage)
  {
    hide Dual, Closed, RemovedUpTo;
    RedirectConsumers(original, substitute, graph);
    Disconnect(original, graph);
    Disconnected(original, substitute, graph);
    substitute.Number := if original.Number < substitute.Number then original.Number else substitute.Number;
    if substitute.Storage.None? {
      substitute.Storage := original.Storage;
    }
  }

  lemma Disconnected(original: Node, substitute: Node, graph: set<Node>)
    requires Closed(graph) && original in graph && original.Inputs == [] && original.Outputs == []
    requires forall d, u :: d in graph && d != original && u in graph ==> d.UsedBy(u) == u.Uses(d)
    ensures Dual(graph) <==> forall u :: u in graph && u != original ==> original !in u.Inputs
    ensures forall u :: u in graph ==> original !in u.Outputs
  {
    forall u | u in graph
      ensures original.UsedBy(u) == u.Uses(original) <==> original !in u.Inputs
      ensures u != original ==> original !in u.Outputs
    {
      assert u != original ==> u.UsedBy(original) == original.Uses(u) == 0;
    }
    if exists u :: u in graph && u != original && original in u.Inputs {
      var u :| u in graph && u != original && original in u.Inputs;
      assert original.UsedBy(u) != u.Uses(original);
    }
  }
}
