/**
 The straight-line code of the blocks, as far as the builder cares: an assignment computes a new
 value from the storages it reads, a copy moves what a storage holds.
 */
module Programs {
  import opened Wrappers
  import opened FlowGraphs
  import opened SsaSemantics
  import opened BuilderInvariants

  datatype Statement =
    | Assign(dst: nat, sources: seq<nat>)
    | Copy(dst: nat, src: nat)

  function Reads(stmt: Statement): seq<nat> {
    match stmt
    case Assign(_, sources) => sources
    case Copy(_, src) => [src]
  }

  datatype Program = Program(cfg: FlowGraph, code: seq<seq<Statement>>) {
    predicate WellFormed() {
      |code| == |cfg.preds|
    }
  }

  // ---- running the statements one by one ----

  /** What storage `s` holds before statement `i` of the last block of the walk. */
  function Holds(p: Program, w: Walk, i: nat, s: nat): Token
    requires p.WellFormed() && p.cfg.entry < |p.code| && IsWalk(p.cfg, w) && i <= |p.code[End(p.cfg, w)]|
    decreases w, i
  {
    if i == 0 then
      match w
      case Start => Initial(s)
      case Step(prev, _, _) => assert IsWalk(p.cfg, prev); Holds(p, prev, |p.code[End(p.cfg, prev)]|, s)
    else
      match p.code[End(p.cfg, w)][i - 1]
      case Assign(dst, _) => if dst == s then Computed(End(p.cfg, w), i - 1, w) else Holds(p, w, i - 1, s)
      case Copy(dst, src) => Holds(p, w, i - 1, if dst == s then src else s)
  }

  // ---- what a block's first statements have done to a storage ----

  /** The storage holds what an earlier statement made, or what another one held on entry. */
  datatype Effect = Made(index: nat) | Held(storage: nat)

  function Effects(code: seq<Statement>, i: nat): map<nat, Effect>
    requires i <= |code|
  {
    if i == 0 then map[]
    else
      var before := Effects(code, i - 1);
      match code[i - 1]
      case Assign(dst, _) => before[dst := Made(i - 1)]
      case Copy(dst, src) => before[dst := if src in before then before[src] else Held(src)]
  }

  /** What block `b` does to the storages it assigns. */
  function BlockEffects(p: Program, b: nat): map<nat, Effect>
    requires b < |p.code|
  {
    Effects(p.code[b], |p.code[b]|)
  }

  /** Running the statements one by one does to a storage what their joint effect says. */
  lemma {:induction false} HoldsByEffect(p: Program, w: Walk, i: nat, s: nat)
    requires p.WellFormed() && p.cfg.entry < |p.code| && IsWalk(p.cfg, w) && i <= |p.code[End(p.cfg, w)]|
    ensures var effects := Effects(p.code[End(p.cfg, w)], i);
            Holds(p, w, i, s) == if s !in effects then Holds(p, w, 0, s)
                                 else match effects[s]
                                   case Made(j) => Computed(End(p.cfg, w), j, w)
                                   case Held(t) => Holds(p, w, 0, t)
    decreases i
  {
    if i > 0 {
      HoldsByEffect(p, w, i - 1, s);
      match p.code[End(p.cfg, w)][i - 1]
      case Assign(_, _) =>
      case Copy(_, src) => HoldsByEffect(p, w, i - 1, src);
    }
  }

  /** The last assignments of block `b` are those of its first `i` statements. */
  ghost predicate BlockMatches(code: seq<Statement>, writes: map<Cell, Source>, b: nat, i: nat) {
    && i <= |code|
    && forall s: nat {:trigger Cell(b, s)} ::
         && (Cell(b, s) in writes <==> s in Effects(code, i))
         && (Cell(b, s) in writes ==>
               match Effects(code, i)[s]
               case Made(j) => writes[Cell(b, s)].Fresh? && writes[Cell(b, s)].index == j
               case Held(t) => writes[Cell(b, s)] == Incoming(t))
  }

  /** How far a block has been translated. */
  function Progress(code: seq<Statement>, visited: set<nat>, current: Option<(nat, nat)>, b: nat): nat {
    if b in visited then |code|
    else if current.Some? && current.value.0 == b then current.value.1
    else 0
  }

  ghost predicate WritesMatch(p: Program, writes: map<Cell, Source>, visited: set<nat>, current: Option<(nat, nat)>)
    requires p.WellFormed()
  {
    forall b {:trigger p.code[b]} :: 0 <= b < |p.code| ==>
      BlockMatches(p.code[b], writes, b, Progress(p.code[b], visited, current, b))
  }

  // ---- reads ----

  /** The `k`-th storage that statement `index` of `block` reads. */
  datatype Use = Use(block: nat, index: nat, k: nat)

  predicate IsUse(p: Program, u: Use)
    requires p.WellFormed()
  {
    u.block < |p.code| && u.index < |p.code[u.block]| && u.k < |Reads(p.code[u.block][u.index])|
  }

  function UsedStorage(p: Program, u: Use): nat
    requires p.WellFormed() && IsUse(p, u)
  {
    Reads(p.code[u.block][u.index])[u.k]
  }

  /** Node `n` is tied to what storage `s` holds before statement `i` of block `b`. */
  ghost predicate Stands(code: seq<Statement>, m: Marks, b: nat, i: nat, s: nat, n: nat) {
    && i <= |code| && n < |m.canon| == |m.nodes|
    && var effects := Effects(code, i);
       if s in effects && effects[s].Made? then
         m.canon[n] < |m.nodes| && m.nodes[m.canon[n]] == Value(b, effects[s].index)
       else
         var t := if s in effects then effects[s].storage else s;
         Cell(b, t) in m.ins && m.canon[n] == m.ins[Cell(b, t)]
  }

  ghost predicate ValuesStay(m: Marks) {
    && |m.canon| == |m.nodes|
    && forall n :: 0 <= n < |m.nodes| && m.nodes[n].Value? ==> m.canon[n] == n
  }

  /** What a node stood for once, it stands for ever after. */
  lemma StandsCarried(code: seq<Statement>, m: Marks, m': Marks, b: nat, i: nat, s: nat, n: nat)
    requires Stands(code, m, b, i, s, n) && Carried(m, m') && ValuesStay(m')
    ensures Stands(code, m', b, i, s, n)
  {
  }

  /** The answer to a read of `s` before statement `i` of the block being translated. */
  lemma AnswerStands(code: seq<Statement>, st: State, canon: seq<nat>, b: nat, i: nat, s: nat, n: nat)
    requires BlockMatches(code, st.writes, b, i) && WritesOk(st) && HasOut(st, b, s) && Cell(b, s) !in st.forgotten
    requires n < |canon| == |st.nodes| && canon[n] == Out(st, b, s)
    ensures Stands(code, Marks(st.nodes, canon, st.ins, st.asOf), b, i, s, n)
  {
    assert Cell(b, s) in st.writes <==> s in Effects(code, i);
  }

  ghost predicate UsesStand(p: Program, m: Marks, uses: map<Use, nat>)
    requires p.WellFormed()
  {
    forall u :: u in uses && IsUse(p, u) ==>
      Stands(p.code[u.block], m, u.block, u.index, UsedStorage(p, u), uses[u])
  }

  lemma UsesCarried(p: Program, m: Marks, m': Marks, uses: map<Use, nat>)
    requires p.WellFormed() && UsesStand(p, m, uses) && Carried(m, m') && ValuesStay(m')
    ensures UsesStand(p, m', uses)
  {
    forall u | u in uses && IsUse(p, u)
      ensures Stands(p.code[u.block], m', u.block, u.index, UsedStorage(p, u), uses[u])
    {
      StandsCarried(p.code[u.block], m, m', u.block, u.index, UsedStorage(p, u), uses[u]);
    }
  }

  /** Whether `source` is what statement `i` of block `b` assigns. */
  ghost predicate IsEffect(stmt: Statement, writes: map<Cell, Source>, b: nat, i: nat, source: Source) {
    match stmt
    case Assign(_, _) => source.Fresh? && source.index == i
    case Copy(_, src) => source == if Cell(b, src) in writes then writes[Cell(b, src)] else Incoming(src)
  }

  lemma StatementRecorded(p: Program, writes: map<Cell, Source>, visited: set<nat>, b: nat, i: nat, source: Source)
    requires p.WellFormed() && WritesMatch(p, writes, visited, Some((b, i)))
    requires b !in visited && b < |p.code| && i < |p.code[b]|
    requires IsEffect(p.code[b][i], writes, b, i, source)
    ensures WritesMatch(p, writes[Cell(b, p.code[b][i].dst) := source], visited, Some((b, i + 1)))
  {
    var writes' := writes[Cell(b, p.code[b][i].dst) := source];
    forall c | 0 <= c < |p.code|
      ensures BlockMatches(p.code[c], writes', c, Progress(p.code[c], visited, Some((b, i + 1)), c))
    {
      assert BlockMatches(p.code[c], writes, c, Progress(p.code[c], visited, Some((b, i)), c));
      if c == b {
        StatementMatches(p.code[b], writes, b, i, source);
      }
    }
  }

  lemma StatementMatches(code: seq<Statement>, writes: map<Cell, Source>, b: nat, i: nat, source: Source)
    requires i < |code| && BlockMatches(code, writes, b, i) && IsEffect(code[i], writes, b, i, source)
    ensures BlockMatches(code, writes[Cell(b, code[i].dst) := source], b, i + 1)
  {
    if code[i].Copy? {
      assert Cell(b, code[i].src) in writes <==> code[i].src in Effects(code, i);
    }
  }

  /** A statement's value has one node, whichever storages it has been put in. */
  ghost predicate OneNodeEach(writes: map<Cell, Source>) {
    forall c, d ::
      (c in writes && d in writes && c.block == d.block && writes[c].Fresh? && writes[d].Fresh?
       && writes[c].index == writes[d].index) ==> writes[c].node == writes[d].node
  }

  lemma StatementHasOneNode(p: Program, writes: map<Cell, Source>, visited: set<nat>, b: nat, i: nat, source: Source)
    requires p.WellFormed() && WritesMatch(p, writes, visited, Some((b, i))) && OneNodeEach(writes)
    requires b !in visited && b < |p.code| && i < |p.code[b]|
    requires IsEffect(p.code[b][i], writes, b, i, source)
    ensures OneNodeEach(writes[Cell(b, p.code[b][i].dst) := source])
  {
    assert BlockMatches(p.code[b], writes, b, i);
    EffectsAreBefore(p.code[b], i);
    forall c | c in writes && c.block == b && writes[c].Fresh?
      ensures writes[c].index < i
    {
      assert Cell(b, c.storage) in writes <==> c.storage in Effects(p.code[b], i);
    }
  }

  lemma {:induction false} EffectsAreBefore(code: seq<Statement>, i: nat)
    requires i <= |code|
    ensures forall s :: s in Effects(code, i) && Effects(code, i)[s].Made? ==> Effects(code, i)[s].index < i
  {
    if i > 0 {
      EffectsAreBefore(code, i - 1);
    }
  }

  lemma BlockStarted(p: Program, writes: map<Cell, Source>, visited: set<nat>, b: nat)
    requires p.WellFormed() && WritesMatch(p, writes, visited, None) && b !in visited
    ensures WritesMatch(p, writes, visited, Some((b, 0)))
  {
  }

  lemma BlockFinished(p: Program, writes: map<Cell, Source>, visited: set<nat>, b: nat)
    requires p.WellFormed() && b < |p.code| && WritesMatch(p, writes, visited, Some((b, |p.code[b]|)))
    ensures WritesMatch(p, writes, visited + {b}, None)
  {
  }

  /** Every read of the statements translated so far has been made. */
  ghost predicate UsesRead(p: Program, uses: map<Use, nat>, visited: set<nat>, current: Option<(nat, nat)>)
    requires p.WellFormed()
  {
    forall u :: IsUse(p, u) && u.index < Progress(p.code[u.block], visited, current, u.block) ==> u in uses
  }

  lemma OneMoreRead(p: Program, uses: map<Use, nat>, visited: set<nat>, b: nat, i: nat, u: Use, n: nat)
    requires p.WellFormed() && UsesRead(p, uses, visited, Some((b, i)))
    ensures UsesRead(p, uses[u := n], visited, Some((b, i)))
  {
  }

  lemma StatementRead(p: Program, uses: map<Use, nat>, visited: set<nat>, b: nat, i: nat)
    requires p.WellFormed() && b < |p.code| && i < |p.code[b]| && UsesRead(p, uses, visited, Some((b, i)))
    requires forall k :: 0 <= k < |Reads(p.code[b][i])| ==> Use(b, i, k) in uses
    ensures UsesRead(p, uses, visited, Some((b, i + 1)))
  {
    forall u | IsUse(p, u) && u.index < Progress(p.code[u.block], visited, Some((b, i + 1)), u.block)
      ensures u in uses
    {
      assert u == Use(u.block, u.index, u.k);
    }
  }

  /**
   What a read of storage `s` before statement `i` of the last block of the walk comes to, if the
   contents on entry to the block are those that a search sees which misses what `asOf` names.
   */
  function Seen(p: Program, writes: map<Cell, Source>, asOf: map<Cell, set<Cell>>, w: Walk, i: nat, s: nat): Token
    requires p.WellFormed() && End(p.cfg, w) < |p.code| && i <= |p.code[End(p.cfg, w)]|
  {
    var effects := Effects(p.code[End(p.cfg, w)], i);
    if s !in effects then ValueIn(p.cfg, writes, asOf, w, s)
    else match effects[s]
      case Made(j) => Computed(End(p.cfg, w), j, w)
      case Held(t) => ValueIn(p.cfg, writes, asOf, w, t)
  }

  /** A node that stands for a storage evaluates to what is seen in the storage, on every walk. */
  lemma StandsIsCorrect(p: Program, st: State, canon: seq<nat>, b: nat, i: nat, s: nat, n: nat, w: Walk)
    requires p.WellFormed() && p.cfg.WellFormed() && Inv(p.cfg, st, {})
    requires b < |p.code| && i <= |p.code[b]|
    requires Stands(p.code[b], Marks(st.nodes, canon, st.ins, st.asOf), b, i, s, n)
    requires IsWalk(p.cfg, w) && End(p.cfg, w) == b
    ensures Eval(p.cfg, st.nodes, canon[n], w) == Some(Seen(p, st.writes, st.asOf, w, i, s))
  {
    var effects := Effects(p.code[b], i);
    if s in effects && effects[s].Made? {
      assert LastVisit(p.cfg, w, b) == Some(w);
    } else {
      InIsCorrect(p.cfg, st, w, if s in effects then effects[s].storage else s);
    }
  }
}
