/**
 How any number of workers race to register block starts, blocks and block ends in the dictionaries
 they share. What is in the blocks is left open: the addresses that parsing and splitting come up
 with are arbitrary. Every step is one access to a dictionary; the steps interleave in any order.
 */
module Registrations {
  import opened Wrappers

  /**
   `starts`, `blocks` and `ends` are the keys and entries of the scanner's `C`, `B` and `BlockEnds`.
   `parsed` and `edged` are the starts that have been parsed, and the ends that have been given
   out-edges, so far.
   */
  datatype Shared = Shared(
    starts: set<nat>,
    blocks: set<nat>,
    ends: map<nat, nat>,
    parsed: multiset<nat>,
    edged: multiset<nat>)

  /** A block that is to be reconciled with the one registered for the end `y`. */
  datatype Job = Job(x: nat, y: nat)

  datatype Pc =
    | Ready
    | Claiming(a: nat)
    | Parsing(a: nat)
    | Adding(a: nat, y: nat)
    | Ending(a: nat, y: nat)
    | Linking(y: nat)
    | Splitting(jobs: seq<Job>)
    | Fetching(x: nat, xi: nat, jobs: seq<Job>)
    | ClaimingShared(x: nat, xi: nat, s: nat, jobs: seq<Job>)
    | AddingShared(x: nat, xi: nat, s: nat, jobs: seq<Job>)
    | EndingOld(x: nat, xi: nat, s: nat, jobs: seq<Job>)
    | EndingNew(x: nat, e: nat, jobs: seq<Job>)
    | BlockExists         // TryRegisterBlock found the block of a start that this thread has claimed
    | SharedBlockExists   // and so did SplitBlock
    | LookupFailed        // SplitBlock looked up a key that is not there

  datatype State = State(shared: Shared, pcs: seq<Pc>)

  /** From the work queue to the edges of a block. */
  predicate RegisterStep(sh: Shared, pc: Pc, sh': Shared, pc': Pc) {
    match pc
    case Ready => sh' == sh && pc'.Claiming?
    case Claiming(a) =>
      if a in sh.starts then sh' == sh && pc' == Ready
      else sh' == sh.(starts := sh.starts + {a}, parsed := sh.parsed + multiset{a}) && pc' == Parsing(a)
    case Parsing(a) => sh' == sh && (pc' == Ready || (pc'.Adding? && pc'.a == a))
    case Adding(a, y) =>
      if a in sh.blocks then sh' == sh && pc' == BlockExists
      else sh' == sh.(blocks := sh.blocks + {a}) && pc' == Ending(a, y)
    case Ending(a, y) =>
      if y in sh.ends then sh' == sh && pc' == Splitting([Job(a, y)])
      else sh' == sh.(ends := sh.ends[y := a]) && pc' == Linking(y)
    case Linking(y) => sh' == sh.(edged := sh.edged + multiset{y}) && pc' == Ready
    case _ => false
  }

  /** Splitting blocks. */
  predicate SplitStep(sh: Shared, pc: Pc, sh': Shared, pc': Pc) {
    match pc
    case Splitting(jobs) =>
      && sh' == sh
      && if jobs == [] then pc' == Ready
         else if jobs[0].y !in sh.ends then pc' == LookupFailed
         else if sh.ends[jobs[0].y] == jobs[0].x then pc' == Ready
         else pc' == Fetching(jobs[0].x, sh.ends[jobs[0].y], jobs[1..])
    case Fetching(x, xi, jobs) =>
      && sh' == sh
      && if xi !in sh.blocks then pc' == LookupFailed
         else
           || (pc'.EndingNew? && (pc'.x == x || pc'.x == xi) && pc'.jobs == jobs)
           || (if xi in sh.starts then pc'.ClaimingShared? && pc'.x == x && pc'.xi == xi && pc'.jobs == jobs
               else pc' == LookupFailed)
    case ClaimingShared(x, xi, s, jobs) =>
      if s in sh.starts then sh' == sh && pc' == EndingOld(x, xi, s, jobs)
      else sh' == sh.(starts := sh.starts + {s}) && pc' == AddingShared(x, xi, s, jobs)
    case AddingShared(x, xi, s, jobs) =>
      if s in sh.blocks then sh' == sh && pc' == SharedBlockExists
      else sh' == sh.(blocks := sh.blocks + {s}) && pc' == EndingOld(x, xi, s, jobs)
    case EndingOld(x, xi, s, jobs) =>
      if s in sh.ends then sh' == sh && pc' == EndingNew(x, s, jobs + [Job(xi, s)])
      else sh' == sh.(ends := sh.ends[s := xi]) && pc' == EndingNew(x, s, jobs)
    case EndingNew(x, e, jobs) =>
      if e in sh.ends then sh' == sh && pc' == Splitting(jobs + [Job(x, e)])
      else sh' == sh.(ends := sh.ends[e := x]) && pc' == Splitting(jobs)
    case _ => false
  }

  ghost predicate Next(s: State, s': State) {
    exists t: nat, pc' :: StepOf(s, s', t, pc')
  }

  ghost predicate StepOf(s: State, s': State, t: nat, pc': Pc) {
    && t < |s.pcs| && s'.pcs == s.pcs[t := pc']
    && (RegisterStep(s.shared, s.pcs[t], s'.shared, pc') || SplitStep(s.shared, s.pcs[t], s'.shared, pc'))
  }

  predicate Init(s: State) {
    && s.shared == Shared({}, {}, map[], multiset{}, multiset{})
    && forall t :: 0 <= t < |s.pcs| ==> s.pcs[t] == Ready
  }

  ghost predicate ReachableIn(s: State, k: nat)
    decreases k
  {
    if k == 0 then Init(s)
    else exists s0 :: ReachableIn(s0, k - 1) && Next(s0, s)
  }

  // ---- the invariant ----

  /** The start that a thread has claimed and whose block it has yet to add. */
  function Owned(pc: Pc): Option<nat> {
    match pc
    case Parsing(a) => Some(a)
    case Adding(a, _) => Some(a)
    case AddingShared(_, _, s, _) => Some(s)
    case _ => None
  }

  /** The end that a thread has registered and is about to give out-edges. */
  function Linked(pc: Pc): Option<nat> {
    if pc.Linking? then Some(pc.y) else None
  }

  predicate JobsOk(sh: Shared, jobs: seq<Job>) {
    forall i :: 0 <= i < |jobs| ==> jobs[i].x in sh.blocks && jobs[i].y in sh.ends
  }

  /** What a thread has found in the dictionaries is there. */
  predicate Knows(sh: Shared, pc: Pc) {
    match pc
    case Ending(a, _) => a in sh.blocks
    case Splitting(jobs) => JobsOk(sh, jobs)
    case Fetching(x, xi, jobs) => x in sh.blocks && xi in sh.blocks && JobsOk(sh, jobs)
    case ClaimingShared(x, xi, _, jobs) => x in sh.blocks && xi in sh.blocks && JobsOk(sh, jobs)
    case AddingShared(x, xi, _, jobs) => x in sh.blocks && xi in sh.blocks && JobsOk(sh, jobs)
    case EndingOld(x, xi, _, jobs) => x in sh.blocks && xi in sh.blocks && JobsOk(sh, jobs)
    case EndingNew(x, _, jobs) => x in sh.blocks && JobsOk(sh, jobs)
    case _ => true
  }

  predicate OwnedOk(sh: Shared, a: Option<nat>) {
    a.Some? ==> a.value in sh.starts && a.value !in sh.blocks
  }

  predicate LinkedOk(sh: Shared, y: Option<nat>) {
    y.Some? ==> y.value in sh.ends && y.value !in sh.edged
  }

  /** Blocks have claimed starts, ends name blocks, and nothing was parsed or given edges twice. */
  ghost predicate SharedOk(sh: Shared) {
    && sh.blocks <= sh.starts
    && (forall y :: y in sh.ends ==> sh.ends[y] in sh.blocks)
    && (forall a: nat :: sh.parsed[a] <= 1 && (a in sh.parsed ==> a in sh.starts))
    && (forall y: nat :: sh.edged[y] <= 1 && (y in sh.edged ==> y in sh.ends))
  }

  predicate Fails(pc: Pc) {
    pc.BlockExists? || pc.SharedBlockExists? || pc.LookupFailed?
  }

  predicate ThreadOk(sh: Shared, pc: Pc) {
    Knows(sh, pc) && OwnedOk(sh, Owned(pc)) && LinkedOk(sh, Linked(pc)) && !Fails(pc)
  }

  predicate Differ(a: Option<nat>, b: Option<nat>) {
    a.Some? ==> a != b
  }

  ghost predicate Inv(s: State) {
    && SharedOk(s.shared)
    && (forall t :: 0 <= t < |s.pcs| ==> ThreadOk(s.shared, s.pcs[t]))
    && (forall t, u :: 0 <= t < u < |s.pcs| ==>
          Differ(Owned(s.pcs[t]), Owned(s.pcs[u])) && Differ(Linked(s.pcs[t]), Linked(s.pcs[u])))
  }

  /** A step adds to the dictionaries, and to the blocks only what the thread owns. */
  predicate Grows(sh: Shared, pc: Pc, sh': Shared) {
    && sh.starts <= sh'.starts && sh.blocks <= sh'.blocks && sh.ends.Keys <= sh'.ends.Keys
    && (forall a :: a in sh'.blocks && a !in sh.blocks ==> Owned(pc) == Some(a))
    && (forall y :: y in sh'.edged && y !in sh.edged ==> Linked(pc) == Some(y))
  }

  lemma StartClaimed(sh: Shared, a: nat)
    requires SharedOk(sh) && a !in sh.starts
    ensures SharedOk(sh.(starts := sh.starts + {a}))
    ensures SharedOk(sh.(starts := sh.starts + {a}, parsed := sh.parsed + multiset{a}))
  {
    assert sh.parsed[a] == 0;
  }

  lemma BlockAdded(sh: Shared, a: nat)
    requires SharedOk(sh) && a in sh.starts
    ensures SharedOk(sh.(blocks := sh.blocks + {a}))
  {
  }

  lemma EndAdded(sh: Shared, y: nat, a: nat)
    requires SharedOk(sh) && a in sh.blocks && y !in sh.ends
    ensures SharedOk(sh.(ends := sh.ends[y := a])) && y !in sh.edged
  {
  }

  lemma EdgesAdded(sh: Shared, y: nat)
    requires SharedOk(sh) && y in sh.ends && y !in sh.edged
    ensures SharedOk(sh.(edged := sh.edged + multiset{y}))
  {
  }

  lemma StartIsClaimed(sh: Shared, a: nat)
    requires SharedOk(sh) && a in sh.blocks
    ensures a in sh.starts
  {
  }

  lemma EndIsBlock(sh: Shared, y: nat)
    requires SharedOk(sh) && y in sh.ends
    ensures sh.ends[y] in sh.blocks
  {
  }

  /** What one step of a thread keeps; what it newly owns or links nobody else does. */
  ghost predicate StepOk(sh: Shared, pc: Pc, sh': Shared, pc': Pc) {
    && SharedOk(sh') && ThreadOk(sh', pc') && Grows(sh, pc, sh')
    && (Owned(pc').Some? ==> Owned(pc') == Owned(pc) || Owned(pc').value !in sh.starts)
    && (Linked(pc').Some? ==> Linked(pc') == Linked(pc) || Linked(pc').value !in sh.ends)
  }

  lemma StartUnclaimed(sh: Shared, a: nat)
    requires SharedOk(sh) && a !in sh.starts
    ensures a !in sh.blocks
  {
  }

  lemma RegisterStepOk(sh: Shared, pc: Pc, sh': Shared, pc': Pc)
    requires SharedOk(sh) && ThreadOk(sh, pc) && RegisterStep(sh, pc, sh', pc')
    ensures StepOk(sh, pc, sh', pc')
  {
    hide SharedOk;
    RegisterStepShared(sh, pc, sh', pc');
    RegisterStepThread(sh, pc, sh', pc');
  }

  lemma RegisterStepShared(sh: Shared, pc: Pc, sh': Shared, pc': Pc)
    requires SharedOk(sh) && ThreadOk(sh, pc) && RegisterStep(sh, pc, sh', pc')
    ensures SharedOk(sh') && (pc.Claiming? && pc.a !in sh.starts ==> pc.a !in sh.blocks)
    ensures pc.Ending? && pc.y !in sh.ends ==> pc.y !in sh.edged
  {
    hide SharedOk, JobsOk;
    match pc
    case Claiming(a) => if a !in sh.starts { StartClaimed(sh, a); StartUnclaimed(sh, a); }
    case Adding(a, _) => if a !in sh.blocks { BlockAdded(sh, a); }
    case Ending(a, y) => if y !in sh.ends { EndAdded(sh, y, a); }
    case Linking(y) => EdgesAdded(sh, y);
    case _ =>
  }

  lemma RegisterStepThread(sh: Shared, pc: Pc, sh': Shared, pc': Pc)
    requires ThreadOk(sh, pc) && RegisterStep(sh, pc, sh', pc')
    requires pc.Claiming? && pc.a !in sh.starts ==> pc.a !in sh.blocks
    requires pc.Ending? && pc.y !in sh.ends ==> pc.y !in sh.edged
    ensures SharedOk(sh') ==> StepOk(sh, pc, sh', pc')
  {
    hide SharedOk;
  }

  lemma SplitStepOk(sh: Shared, pc: Pc, sh': Shared, pc': Pc)
    requires SharedOk(sh) && ThreadOk(sh, pc) && SplitStep(sh, pc, sh', pc')
    ensures StepOk(sh, pc, sh', pc')
  {
    hide SharedOk;
    SplitStepShared(sh, pc, sh', pc');
    SplitStepThread(sh, pc, sh', pc');
  }

  /** What the dictionaries say where `SplitBlock` looks something up. */
  predicate LookupsOk(sh: Shared, pc: Pc) {
    match pc
    case Splitting(jobs) => jobs != [] && jobs[0].y in sh.ends ==> sh.ends[jobs[0].y] in sh.blocks
    case Fetching(_, xi, _) => xi in sh.starts
    case ClaimingShared(_, _, s, _) => s in sh.starts || s !in sh.blocks
    case _ => true
  }

  lemma SplitStepShared(sh: Shared, pc: Pc, sh': Shared, pc': Pc)
    requires SharedOk(sh) && ThreadOk(sh, pc) && SplitStep(sh, pc, sh', pc')
    ensures SharedOk(sh') && LookupsOk(sh, pc)
  {
    hide SharedOk, JobsOk;
    match pc
    case Splitting(jobs) => if jobs != [] && jobs[0].y in sh.ends { EndIsBlock(sh, jobs[0].y); }
    case Fetching(_, xi, _) => StartIsClaimed(sh, xi);
    case ClaimingShared(_, _, s, _) => if s !in sh.starts { StartClaimed(sh, s); StartUnclaimed(sh, s); }
    case AddingShared(_, _, s, _) => BlockAdded(sh, s);
    case EndingOld(_, xi, s, _) => if s !in sh.ends { EndAdded(sh, s, xi); }
    case EndingNew(x, e, _) => if e !in sh.ends { EndAdded(sh, e, x); }
    case _ =>
  }

  lemma SplitStepThread(sh: Shared, pc: Pc, sh': Shared, pc': Pc)
    requires ThreadOk(sh, pc) && SplitStep(sh, pc, sh', pc') && LookupsOk(sh, pc)
    ensures SharedOk(sh') ==> StepOk(sh, pc, sh', pc')
  {
    hide SharedOk;
  }

  lemma OtherThreadOk(sh: Shared, pc: Pc, sh': Shared, other: Pc)
    requires Grows(sh, pc, sh') && ThreadOk(sh, other)
    requires Differ(Owned(pc), Owned(other)) && Differ(Linked(pc), Linked(other))
    ensures ThreadOk(sh', other)
  {
  }

  lemma NextKeepsInv(s: State, s': State)
    requires Inv(s) && Next(s, s')
    ensures Inv(s')
  {
    hide RegisterStep, SplitStep, SharedOk, Knows, Grows;
    var t: nat, pc' :| StepOf(s, s', t, pc');
    var sh, sh' := s.shared, s'.shared;
    if RegisterStep(sh, s.pcs[t], sh', pc') {
      RegisterStepOk(sh, s.pcs[t], sh', pc');
    } else {
      SplitStepOk(sh, s.pcs[t], sh', pc');
    }
    forall u | 0 <= u < |s.pcs| && u != t
      ensures ThreadOk(sh', s.pcs[u])
      ensures Differ(Owned(pc'), Owned(s.pcs[u])) && Differ(Linked(pc'), Linked(s.pcs[u]))
    {
      assert ThreadOk(sh, s.pcs[u]);
      OtherThreadOk(sh, s.pcs[t], sh', s.pcs[u]);
    }
  }

  lemma InitInv(s: State)
    requires Init(s)
    ensures Inv(s)
  {
  }

  lemma {:induction false} ReachableInv(s: State, k: nat)
    requires ReachableIn(s, k)
    ensures Inv(s)
    decreases k
  {
    hide SharedOk, ThreadOk;
    if k == 0 {
      InitInv(s);
    } else {
      var s0 :| ReachableIn(s0, k - 1) && Next(s0, s);
      ReachableInv(s0, k - 1);
      NextKeepsInv(s0, s);
    }
  }

  // ---- what holds in every reachable state ----

  /** No throw, assertion or lookup of the registrations ever fails. */
  lemma NothingFails(s: State, k: nat, t: nat)
    requires ReachableIn(s, k) && t < |s.pcs|
    ensures !s.pcs[t].BlockExists? && !s.pcs[t].SharedBlockExists? && !s.pcs[t].LookupFailed?
  {
    ReachableInv(s, k);
    assert ThreadOk(s.shared, s.pcs[t]);
  }

  /** Each start is parsed at most once, and each end is given out-edges at most once. */
  lemma AtMostOnce(s: State, k: nat, a: nat)
    requires ReachableIn(s, k)
    ensures s.shared.parsed[a] <= 1 && s.shared.edged[a] <= 1
  {
    ReachableInv(s, k);
  }

  /** The keys of `B` are among those of `C`, and `BlockEnds` names keys of `B`. */
  lemma DictionariesAgree(s: State, k: nat)
    requires ReachableIn(s, k)
    ensures s.shared.blocks <= s.shared.starts
    ensures forall y :: y in s.shared.ends ==> s.shared.ends[y] in s.shared.blocks
  {
    ReachableInv(s, k);
  }
}
