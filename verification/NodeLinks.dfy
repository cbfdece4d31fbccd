/**
 How nodes that have been replaced hang together with the nodes that are still in use.
 */
module NodeLinks {
  import opened SsaSemantics
  import opened SsaSteps
  import opened ReplacementMaps

  /** `canon` gives every node its representative; `age` says when a node was replaced. */
  datatype Links = Links(nodes: seq<Node>, replacements: map<nat, nat>, canon: seq<nat>, age: map<nat, nat>, now: nat)

  ghost predicate CanonOk(l: Links) {
    && |l.canon| == |l.nodes|
    && Aged(l.replacements, l.age, l.now)
    && (forall n :: n in l.replacements ==> n < |l.nodes| && l.nodes[n].Phi?)
    && (forall n: nat {:trigger Next(l.replacements, n)} :: n in l.replacements ==>
          && Next(l.replacements, n) < |l.nodes| && l.canon[n] == l.canon[Next(l.replacements, n)])
    && (forall n {:trigger l.canon[n]} :: 0 <= n < |l.nodes| ==>
          && l.canon[n] < |l.nodes| && l.canon[n] !in l.replacements
          && (n !in l.replacements ==> l.canon[n] == n))
  }

  ghost predicate InUse(l: Links, n: nat) {
    n < |l.nodes| && n !in l.replacements
  }

  ghost predicate AllInUse(l: Links, ns: seq<nat>) {
    forall i :: 0 <= i < |ns| ==> InUse(l, ns[i])
  }

  /** No phi has a replaced node as an operand. */
  ghost predicate OperandsInUse(l: Links) {
    forall n :: 0 <= n < |l.nodes| && l.nodes[n].Phi? ==> AllInUse(l, l.nodes[n].operands)
  }

  ghost predicate CellsInUse(l: Links, ins: map<Cell, nat>) {
    forall cell :: cell in ins ==> InUse(l, ins[cell])
  }

  /** The links after the phi `original` has been replaced by the node `substitute` in use. */
  ghost function Relinked(l: Links, original: nat, substitute: nat): Links {
    Links(ReplaceUses(l.nodes, original, substitute),
          l.replacements[original := substitute],
          RedirectAll(l.canon, original, substitute),
          l.age[original := l.now],
          l.now + 1)
  }

  lemma RelinkedAged(l: Links, original: nat, substitute: nat)
    requires Aged(l.replacements, l.age, l.now)
    requires original !in l.replacements && substitute !in l.replacements && substitute != original
    ensures Aged(l.replacements[original := substitute], l.age[original := l.now], l.now + 1)
  {
    NextUpdated(l.replacements, original, substitute);
  }

  lemma RelinkedCanon(l: Links, original: nat, substitute: nat)
    requires CanonOk(l)
    requires original < |l.nodes| && l.nodes[original].Phi? && original !in l.replacements
    requires substitute < |l.nodes| && substitute !in l.replacements && substitute != original
    ensures CanonOk(Relinked(l, original, substitute))
  {
    RelinkedAged(l, original, substitute);
    NextUpdated(l.replacements, original, substitute);
  }

  lemma RelinkedOperands(l: Links, original: nat, substitute: nat)
    requires OperandsInUse(l)
    requires original < |l.nodes| && l.nodes[original].Phi? && original !in l.replacements
    requires substitute < |l.nodes| && substitute !in l.replacements && substitute != original
    ensures OperandsInUse(Relinked(l, original, substitute))
  {
    var l' := Relinked(l, original, substitute);
    forall n | 0 <= n < |l'.nodes| && l'.nodes[n].Phi?
      ensures AllInUse(l', l'.nodes[n].operands)
    {
      assert AllInUse(l, l.nodes[n].operands);
      forall i | 0 <= i < |l'.nodes[n].operands|
        ensures InUse(l', l'.nodes[n].operands[i])
      {
        assert InUse(l, l.nodes[n].operands[i]);
      }
    }
  }

  lemma RelinkedCells(l: Links, ins: map<Cell, nat>, original: nat, substitute: nat)
    requires CellsInUse(l, ins) && original < |l.nodes|
    requires substitute < |l.nodes| && substitute !in l.replacements && substitute != original
    ensures CellsInUse(Relinked(l, original, substitute), RedirectCells(ins, original, substitute))
  {
  }

  lemma FollowedCanon(l: Links, node: nat)
    requires CanonOk(l) && node in l.replacements
    ensures l.replacements[node] == Next(l.replacements, node) < |l.nodes|
    ensures l.canon[node] == l.canon[l.replacements[node]]
    ensures l.replacements[node] in l.replacements ==> l.age[node] < l.age[l.replacements[node]]
    ensures l.age[node] < l.now
  {
    assert Next(l.replacements, node) == l.replacements[node];
  }

  lemma CanonIsRepresentative(l: Links, node: nat)
    requires CanonOk(l) && node < |l.nodes|
    ensures IsRepresentative(l.replacements, node, l.canon[node])
  {
    TableIsRepresentative(l.replacements, l.age, l.now, l.canon, node);
  }

  ghost predicate KeepsRepresentatives(r: map<nat, nat>, r': map<nat, nat>) {
    forall n, m :: IsRepresentative(r, n, m) ==> IsRepresentative(r', n, m)
  }

  lemma SameKeysInUse(l: Links, l': Links, ins: map<Cell, nat>)
    requires l'.nodes == l.nodes && l'.replacements.Keys == l.replacements.Keys
    requires OperandsInUse(l) && CellsInUse(l, ins)
    ensures OperandsInUse(l') && CellsInUse(l', ins)
  {
    forall n | 0 <= n < |l'.nodes| && l'.nodes[n].Phi?
      ensures AllInUse(l', l'.nodes[n].operands)
    {
      assert AllInUse(l, l.nodes[n].operands);
    }
  }

  /** Path compression: nothing changes but the length of the way to a representative. */
  lemma CompressedOk(l: Links, node: nat)
    requires CanonOk(l) && node in l.replacements
    ensures CanonOk(l.(replacements := l.replacements[node := l.canon[node]]))
    ensures KeepsRepresentatives(l.replacements, l.replacements[node := l.canon[node]])
  {
    CanonIsRepresentative(l, node);
    NextUpdated(l.replacements, node, l.canon[node]);
    forall n, m | IsRepresentative(l.replacements, n, m)
      ensures IsRepresentative(l.replacements[node := l.canon[node]], n, m)
    {
      CompressionKeepsRepresentatives(l.replacements, node, l.canon[node], n, m);
    }
  }

  ghost function Extended(l: Links, node: Node): Links {
    l.(nodes := l.nodes + [node], canon := l.canon + [|l.nodes|])
  }

  lemma ExtendedOk(l: Links, node: Node, ins: map<Cell, nat>)
    requires CanonOk(l) && OperandsInUse(l) && CellsInUse(l, ins)
    requires node.Phi? ==> node.operands == []
    ensures CanonOk(Extended(l, node)) && OperandsInUse(Extended(l, node)) && CellsInUse(Extended(l, node), ins)
  {
    var l' := Extended(l, node);
    assert |l.nodes| !in l.replacements;
    forall n | 0 <= n < |l'.nodes|
      ensures l'.canon[n] < |l'.nodes| && l'.canon[n] !in l'.replacements
      ensures n !in l'.replacements ==> l'.canon[n] == n
    {
      assert n < |l.nodes| ==> l'.canon[n] == l.canon[n];
    }
    forall n | 0 <= n < |l'.nodes| && l'.nodes[n].Phi?
      ensures AllInUse(l', l'.nodes[n].operands)
    {
      assert n < |l.nodes| ==> AllInUse(l, l.nodes[n].operands);
    }
    forall cell | cell in ins
      ensures InUse(l', ins[cell])
    {
      assert InUse(l, ins[cell]);
    }
  }

  lemma PhiOperandsInUse(l: Links, phi: nat, n: nat)
    requires OperandsInUse(l) && CanonOk(l) && phi < |l.nodes| && l.nodes[phi].Phi? && n in l.nodes[phi].operands
    ensures InUse(l, n) && l.canon[n] == n
  {
    assert AllInUse(l, l.nodes[phi].operands);
    var i :| 0 <= i < |l.nodes[phi].operands| && l.nodes[phi].operands[i] == n;
    assert InUse(l, l.nodes[phi].operands[i]);
  }

  lemma CellFilledInUse(l: Links, ins: map<Cell, nat>, cell: Cell, n: nat)
    requires CellsInUse(l, ins) && InUse(l, n)
    ensures CellsInUse(l, ins[cell := n])
  {
  }

  lemma CellInUse(l: Links, ins: map<Cell, nat>, cell: Cell)
    requires CellsInUse(l, ins) && CanonOk(l) && cell in ins
    ensures InUse(l, ins[cell]) && l.canon[ins[cell]] == ins[cell]
  {
  }

  lemma OperandAddedOk(l: Links, phi: nat, operand: nat, ins: map<Cell, nat>)
    requires CanonOk(l) && OperandsInUse(l) && CellsInUse(l, ins)
    requires phi < |l.nodes| && l.nodes[phi].Phi? && InUse(l, operand)
    ensures var l' := l.(nodes := l.nodes[phi := l.nodes[phi].(operands := l.nodes[phi].operands + [operand])]);
            CanonOk(l') && OperandsInUse(l') && CellsInUse(l', ins)
  {
    var l' := l.(nodes := l.nodes[phi := l.nodes[phi].(operands := l.nodes[phi].operands + [operand])]);
    forall n | 0 <= n < |l'.nodes| && l'.nodes[n].Phi?
      ensures AllInUse(l', l'.nodes[n].operands)
    {
      assert AllInUse(l, l.nodes[n].operands);
    }
    forall cell | cell in ins
      ensures InUse(l', ins[cell])
    {
      assert InUse(l, ins[cell]);
    }
  }
}
