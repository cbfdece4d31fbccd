/**
 The protocol by which threads hand work to a procedure worker, put it to sleep and wake it up.
 All threads race on one state word by compare-and-swap; every step below is one atomic access to
 something shared, and the threads' steps interleave in any order.
 */
module WorkerProtocol {
  import opened Wrappers

  datatype WorkerState = Working | QueueBusy | Suspending | Suspended | Finishing

  type Item = nat

  /** `accepted` and `taken` are the items that have ever been put in the queue and taken out. */
  datatype Shared = Shared(
    state: WorkerState,
    queue: multiset<Item>,
    pendingCalls: int,
    inWorkers: bool,      // whether the scanner has the worker among the running ones
    inSuspended: bool,    // whether the scanner has it among the suspended ones
    accepted: multiset<Item>,
    taken: multiset<Item>)

  /** Where a thread is that has called `TryEnqueueWorkitem` or `Wake`. */
  datatype Call =
    | TryEnqueue(item: Item)
    | Enqueuing(item: Item)
    | Enqueued
    | WakeSuspended(item: Item)
    | WakeWorking(item: Item, seen: WorkerState)
    | WakeEnqueuing(item: Item, wakes: bool)
    | WakeEnqueued(wakes: bool)
    | WakeCounting(wakes: bool)
    | WakeRemoving
    | WakeAdding
    | WakeStarting
    | WakeFailed
    | NotSuspended

  /** Where a thread is that runs the worker's loop. */
  datatype Loop =
    | TryDequeue
    | Dequeuing
    | Dequeued(got: Option<Item>)
    | Processing
    | OutOfWork
    | TrySuspend
    | SuspendRemoving
    | SuspendAdding
    | SuspendSetting
    | AlreadySuspended
    | Asleep
    | TryFinish
    | FinishRemoving
    | Finished
    | Failed

  /**
   A thread that calls may be the one that runs the worker's loop: while it processes an item it
   may hand the worker another one, or wake it.
   */
  datatype Pc = Elsewhere | Calling(call: Call, runner: bool) | Running(loop: Loop)

  datatype State = State(shared: Shared, pcs: seq<Pc>)

  /** Where a thread goes on: in the call, or after it. */
  function After(next: Option<Call>, runner: bool): Pc {
    match next
    case Some(call) => Calling(call, runner)
    case None => if runner then Running(Processing) else Elsewhere
  }

  predicate Put(sh: Shared, item: Item, sh': Shared) {
    sh' == sh.(queue := sh.queue + multiset{item}, accepted := sh.accepted + multiset{item})
  }

  predicate Take(sh: Shared, item: Item, sh': Shared) {
    && item in sh.queue
    && sh' == sh.(queue := sh.queue - multiset{item}, taken := sh.taken + multiset{item})
  }

  predicate Begins(runner: bool, pc': Pc) {
    pc'.Calling? && pc'.runner == runner && (pc'.call.TryEnqueue? || pc'.call.WakeSuspended?)
  }

  /** One step of a thread that enqueues an item. */
  predicate EnqueueStep(sh: Shared, call: Call, sh': Shared, next: Option<Call>) {
    match call
    case TryEnqueue(item) =>
      if sh.state == Working then sh' == sh.(state := QueueBusy) && next == Some(Enqueuing(item))
      else sh' == sh && next == if sh.state == Finishing then None else Some(call)
    case Enqueuing(item) => Put(sh, item, sh') && next == Some(Enqueued)
    case Enqueued => sh' == sh.(state := Working) && next == None
    case _ => false
  }

  /** A thread that wakes the worker puts an item in its queue, whether it is asleep or not. */
  predicate WakeStep(sh: Shared, call: Call, sh': Shared, next: Option<Call>) {
    match call
    case WakeSuspended(item) =>
      if sh.state == Suspended then sh' == sh.(state := QueueBusy) && next == Some(WakeEnqueuing(item, true))
      else sh' == sh && next == Some(WakeWorking(item, sh.state))
    case WakeWorking(item, seen) =>
      if sh.state == Working then sh' == sh.(state := QueueBusy) && next == Some(WakeEnqueuing(item, false))
      else sh' == sh && next == Some(if seen == Suspending || seen == QueueBusy then WakeSuspended(item) else WakeFailed)
    case WakeEnqueuing(item, wakes) => Put(sh, item, sh') && next == Some(WakeEnqueued(wakes))
    case WakeEnqueued(wakes) => sh' == sh.(state := Working) && next == Some(WakeCounting(wakes))
    case WakeCounting(wakes) =>
      sh' == sh.(pendingCalls := sh.pendingCalls - 1) && next == if wakes then Some(WakeRemoving) else None
    case _ => false
  }

  /** If the worker was asleep it is moved between the scanner's dictionaries and started. */
  predicate StartStep(sh: Shared, call: Call, sh': Shared, next: Option<Call>) {
    match call
    case WakeRemoving =>
      sh' == sh.(inSuspended := false) && next == Some(if sh.inSuspended then WakeAdding else NotSuspended)
    case WakeAdding => sh' == sh.(inWorkers := true) && next == Some(WakeStarting)
    case WakeStarting => sh' == sh && next == None
    case _ => false
  }

  /** One step of the worker's loop while there is work. */
  predicate ProcessStep(sh: Shared, loop: Loop, sh': Shared, loop': Loop) {
    match loop
    case TryDequeue =>
      if sh.state == Working then sh' == sh.(state := QueueBusy) && loop' == Dequeuing
      else sh' == sh && loop' == loop
    case Dequeuing =>
      if |sh.queue| == 0 then sh' == sh && loop' == Dequeued(None)
      else loop'.Dequeued? && loop'.got.Some? && Take(sh, loop'.got.value, sh')
    case Dequeued(got) => sh' == sh.(state := Working) && loop' == if got.Some? then Processing else OutOfWork
    case Processing =>
      || (sh' == sh && loop' == TryDequeue)
      || (sh' == sh.(pendingCalls := sh'.pendingCalls) && loop' == Processing)
      || (sh' == sh.(inWorkers := false) && loop' == Failed)
    case OutOfWork => sh' == sh && loop' == if sh.pendingCalls > 0 then TrySuspend else TryFinish
    case _ => false
  }

  /** One step of the worker's loop when it is out of work. */
  predicate StopStep(sh: Shared, loop: Loop, sh': Shared, loop': Loop) {
    match loop
    case TrySuspend =>
      if sh.state == Working then sh' == sh.(state := Suspending) && loop' == SuspendRemoving
      else sh' == sh && loop' == TryFinish
    case SuspendRemoving =>
      sh' == sh.(inWorkers := false) && loop' == if sh.inWorkers then SuspendAdding else SuspendSetting
    case SuspendAdding =>
      sh' == sh.(inSuspended := true) && loop' == if sh.inSuspended then AlreadySuspended else SuspendSetting
    case SuspendSetting => sh' == sh.(state := Suspended) && loop' == Asleep
    case TryFinish =>
      if sh.state == Working then sh' == sh.(state := Finishing) && loop' == FinishRemoving
      else sh' == sh && loop' == TryDequeue
    case FinishRemoving => sh' == sh.(inWorkers := false) && loop' == Finished
    case _ => false
  }

  /** One step of a thread; `WakeStarting` also starts a thread that runs the worker's loop. */
  ghost predicate ThreadStep(sh: Shared, pc: Pc, sh': Shared, pc': Pc) {
    match pc
    case Elsewhere => sh' == sh && Begins(false, pc')
    case Calling(call, runner) =>
      exists next ::
        && pc' == After(next, runner)
        && (EnqueueStep(sh, call, sh', next) || WakeStep(sh, call, sh', next) || StartStep(sh, call, sh', next))
    case Running(loop) =>
      || (loop.Processing? && sh' == sh && Begins(true, pc'))
      || (pc'.Running? && (ProcessStep(sh, loop, sh', pc'.loop) || StopStep(sh, loop, sh', pc'.loop)))
  }

  predicate Starts(pc: Pc) {
    pc.Calling? && pc.call.WakeStarting?
  }

  ghost predicate StepOf(s: State, s': State, t: nat, pc': Pc) {
    && t < |s.pcs|
    && ThreadStep(s.shared, s.pcs[t], s'.shared, pc')
    && s'.pcs == s.pcs[t := pc'] + if Starts(s.pcs[t]) then [Running(TryDequeue)] else []
  }

  ghost predicate Next(s: State, s': State) {
    exists t: nat, pc' :: StepOf(s, s', t, pc')
  }

  /** A new worker, with one thread running its loop, and any number of threads elsewhere. */
  predicate Init(s: State) {
    && s.shared.state == Working && s.shared.inWorkers && !s.shared.inSuspended
    && s.shared.queue == s.shared.accepted && s.shared.taken == multiset{}
    && |s.pcs| > 0 && s.pcs[0] == Running(TryDequeue)
    && forall t :: 0 < t < |s.pcs| ==> s.pcs[t] == Elsewhere
  }

  ghost predicate ReachableIn(s: State, k: nat)
    decreases k
  {
    if k == 0 then Init(s)
    else exists s0 :: ReachableIn(s0, k - 1) && Next(s0, s)
  }

  // ---- counting the threads that are somewhere ----

  function Bit(b: bool): nat {
    if b then 1 else 0
  }

  /** The call has found the worker asleep, and has yet to move it between the dictionaries. */
  predicate IsWaking(call: Call) {
    match call
    case WakeEnqueuing(_, wakes) => wakes
    case WakeEnqueued(wakes) => wakes
    case WakeCounting(wakes) => wakes
    case WakeRemoving => true
    case _ => false
  }

  /** The thread has set the state word to `QueueBusy` and has not put it back yet. */
  function HoldsQueue(pc: Pc): nat {
    match pc
    case Elsewhere => 0
    case Calling(call, _) => Bit(call.Enqueuing? || call.Enqueued? || call.WakeEnqueuing? || call.WakeEnqueued?)
    case Running(loop) => Bit(loop.Dequeuing? || loop.Dequeued?)
  }

  /** How often the thread runs the worker's loop or is going to have it run. */
  function Runs(pc: Pc): nat {
    match pc
    case Elsewhere => 0
    case Calling(call, runner) =>
      Bit(runner) + Bit(IsWaking(call) || call.WakeAdding? || call.WakeStarting? || call.NotSuspended?)
    case Running(loop) => Bit(!loop.Asleep?)
  }

  function IsSuspending(pc: Pc): nat {
    Bit(pc.Running? && (pc.loop.SuspendRemoving? || pc.loop.SuspendAdding? || pc.loop.SuspendSetting? || pc.loop.AlreadySuspended?))
  }

  function IsFinishing(pc: Pc): nat {
    Bit(pc.Running? && (pc.loop.FinishRemoving? || pc.loop.Finished?))
  }

  /** The scanner has the worker among the suspended ones because of this thread. */
  function KeepsSuspended(pc: Pc): nat {
    match pc
    case Elsewhere => 0
    case Calling(call, _) => Bit(IsWaking(call))
    case Running(loop) => Bit(loop.SuspendSetting? || loop.AlreadySuspended?)
  }

  /** The scanner does not have the worker among the running ones because of this thread. */
  function KeepsAway(pc: Pc): nat {
    match pc
    case Elsewhere => 0
    case Calling(call, _) => Bit(IsWaking(call) || call.WakeAdding? || call.NotSuspended?)
    case Running(loop) =>
      Bit(loop.SuspendAdding? || loop.SuspendSetting? || loop.AlreadySuspended? || loop.Finished? || loop.Failed?)
  }

  function Sum(pcs: seq<Pc>, w: Pc -> nat): nat {
    if pcs == [] then 0 else Sum(pcs[..|pcs| - 1], w) + w(pcs[|pcs| - 1])
  }

  lemma {:induction false} SumUpdate(pcs: seq<Pc>, w: Pc -> nat, t: nat, pc: Pc)
    requires t < |pcs|
    ensures Sum(pcs[t := pc], w) + w(pcs[t]) == Sum(pcs, w) + w(pc)
  {
    var n := |pcs| - 1;
    if t == n {
      assert pcs[t := pc][..n] == pcs[..n];
    } else {
      SumUpdate(pcs[..n], w, t, pc);
      assert pcs[t := pc][..n] == pcs[..n][t := pc];
    }
  }

  lemma SumAppend(pcs: seq<Pc>, w: Pc -> nat, pc: Pc)
    ensures Sum(pcs + [pc], w) == Sum(pcs, w) + w(pc)
  {
    assert (pcs + [pc])[..|pcs|] == pcs;
  }

  lemma {:induction false} SumAtLeast(pcs: seq<Pc>, w: Pc -> nat, t: nat)
    requires t < |pcs|
    ensures w(pcs[t]) <= Sum(pcs, w)
  {
    if t < |pcs| - 1 {
      SumAtLeast(pcs[..|pcs| - 1], w, t);
    }
  }

  lemma {:induction false} SumOfTwo(pcs: seq<Pc>, w: Pc -> nat, t: nat, u: nat)
    requires t < u < |pcs|
    ensures w(pcs[t]) + w(pcs[u]) <= Sum(pcs, w)
  {
    var n := |pcs| - 1;
    if u == n {
      SumAtLeast(pcs[..n], w, t);
    } else {
      SumOfTwo(pcs[..n], w, t, u);
    }
  }

  /** A thread that counts for `w` and not for `v`, where whatever counts for `v` counts for `w`. */
  lemma {:induction false} SumDominates(pcs: seq<Pc>, v: Pc -> nat, w: Pc -> nat, t: nat)
    requires t < |pcs| && (forall pc :: v(pc) <= w(pc))
    ensures Sum(pcs, v) + w(pcs[t]) <= Sum(pcs, w) + v(pcs[t])
  {
    var n := |pcs| - 1;
    if t == n {
      SumBelow(pcs[..n], v, w);
    } else {
      SumDominates(pcs[..n], v, w, t);
    }
  }

  lemma {:induction false} SumBelow(pcs: seq<Pc>, v: Pc -> nat, w: Pc -> nat)
    requires forall pc :: v(pc) <= w(pc)
    ensures Sum(pcs, v) <= Sum(pcs, w)
  {
    if pcs != [] {
      SumBelow(pcs[..|pcs| - 1], v, w);
    }
  }

  lemma {:induction false} SumOfNone(pcs: seq<Pc>, w: Pc -> nat)
    requires forall t :: 0 <= t < |pcs| ==> w(pcs[t]) == 0
    ensures Sum(pcs, w) == 0
  {
    if pcs != [] {
      SumOfNone(pcs[..|pcs| - 1], w);
    }
  }

  // ---- the invariant ----

  /** No item gets lost in the queue or is taken twice. */
  predicate ItemsOk(sh: Shared) {
    sh.accepted == sh.queue + sh.taken
  }

  lemma PutKeepsItems(sh: Shared, item: Item, sh': Shared)
    requires Put(sh, item, sh') && ItemsOk(sh)
    ensures ItemsOk(sh')
  {
  }

  lemma TakeKeepsItems(sh: Shared, item: Item, sh': Shared)
    requires Take(sh, item, sh') && ItemsOk(sh)
    ensures ItemsOk(sh')
  {
  }

  lemma QueueStepKeepsItems(sh: Shared, call: Call, sh': Shared, next: Option<Call>)
    requires EnqueueStep(sh, call, sh', next) || WakeStep(sh, call, sh', next) || StartStep(sh, call, sh', next)
    requires ItemsOk(sh)
    ensures ItemsOk(sh')
  {
    hide Put;
    if call.Enqueuing? || call.WakeEnqueuing? {
      PutKeepsItems(sh, call.item, sh');
    }
  }

  lemma LoopStepKeepsItems(sh: Shared, loop: Loop, sh': Shared, loop': Loop)
    requires ProcessStep(sh, loop, sh', loop') || StopStep(sh, loop, sh', loop')
    requires ItemsOk(sh)
    ensures ItemsOk(sh')
  {
    hide Take;
    if loop.Dequeuing? && |sh.queue| > 0 {
      TakeKeepsItems(sh, loop'.got.value, sh');
    }
  }

  lemma ThreadStepKeepsItems(sh: Shared, pc: Pc, sh': Shared, pc': Pc)
    requires ThreadStep(sh, pc, sh', pc') && ItemsOk(sh)
    ensures ItemsOk(sh')
  {
    hide EnqueueStep, WakeStep, StartStep, ProcessStep, StopStep, ItemsOk;
    match pc
    case Elsewhere =>
    case Calling(call, runner) =>
      var next :| && pc' == After(next, runner)
                  && (EnqueueStep(sh, call, sh', next) || WakeStep(sh, call, sh', next) || StartStep(sh, call, sh', next));
      QueueStepKeepsItems(sh, call, sh', next);
    case Running(loop) =>
      if pc'.Running? && (ProcessStep(sh, loop, sh', pc'.loop) || StopStep(sh, loop, sh', pc'.loop)) {
        LoopStepKeepsItems(sh, loop, sh', pc'.loop);
      }
  }

  /**
   The state word says what the threads are doing: one of them holds the queue, or the one that
   runs the worker is suspending or finishing it, or it is asleep. The dictionaries agree.
   */
  ghost predicate CountsOk(sh: Shared, pcs: seq<Pc>) {
    && Sum(pcs, HoldsQueue) == Bit(sh.state == QueueBusy)
    && Sum(pcs, Runs) == Bit(sh.state != Suspended)
    && Sum(pcs, IsSuspending) == Bit(sh.state == Suspending)
    && Sum(pcs, IsFinishing) == Bit(sh.state == Finishing)
    && Sum(pcs, KeepsSuspended) == Bit(sh.state != Suspended && sh.inSuspended)
    && Sum(pcs, KeepsAway) == Bit(sh.state != Suspended && !sh.inWorkers)
    && (sh.state == Suspended ==> sh.inSuspended && !sh.inWorkers)
  }

  ghost predicate Inv(s: State) {
    CountsOk(s.shared, s.pcs) && ItemsOk(s.shared) && NoneThrows(s.pcs)
  }

  /** No thread has found the worker where it must not be, or missed it where it must be. */
  ghost predicate NoneThrows(pcs: seq<Pc>) {
    forall t :: 0 <= t < |pcs| ==> !Throws(pcs[t])
  }

  predicate Throws(pc: Pc) {
    match pc
    case Elsewhere => false
    case Calling(call, _) => call.NotSuspended?
    case Running(loop) => loop.AlreadySuspended?
  }

  /** What that means for one thread. */
  predicate LocalOk(sh: Shared, pc: Pc) {
    && (HoldsQueue(pc) > 0 ==> sh.state == QueueBusy)
    && (Runs(pc) > 0 ==>
          && Runs(pc) == 1 && sh.state != Suspended
          && (sh.state == Suspending <==> IsSuspending(pc) == 1)
          && (sh.state == Finishing <==> IsFinishing(pc) == 1)
          && (sh.inSuspended <==> KeepsSuspended(pc) == 1)
          && (!sh.inWorkers <==> KeepsAway(pc) == 1))
    && (sh.state == Suspended ==> sh.inSuspended && !sh.inWorkers)
  }

  /** The state word and the dictionaries move with the thread. */
  predicate Follows(sh: Shared, pc: Pc, sh': Shared, pc': Pc) {
    && Bit(sh'.state == QueueBusy) - Bit(sh.state == QueueBusy) == HoldsQueue(pc') - HoldsQueue(pc)
    && Bit(sh'.state != Suspended) - Bit(sh.state != Suspended) == Runs(pc') - Runs(pc)
    && Bit(sh'.state == Suspending) - Bit(sh.state == Suspending) == IsSuspending(pc') - IsSuspending(pc)
    && Bit(sh'.state == Finishing) - Bit(sh.state == Finishing) == IsFinishing(pc') - IsFinishing(pc)
    && Bit(sh'.state != Suspended && sh'.inSuspended) - Bit(sh.state != Suspended && sh.inSuspended)
         == KeepsSuspended(pc') - KeepsSuspended(pc)
    && Bit(sh'.state != Suspended && !sh'.inWorkers) - Bit(sh.state != Suspended && !sh.inWorkers)
         == KeepsAway(pc') - KeepsAway(pc)
    && (sh'.state == Suspended ==> sh'.inSuspended && !sh'.inWorkers)
  }

  lemma PutChanges(sh: Shared, item: Item, sh': Shared)
    requires Put(sh, item, sh')
    ensures sh' == sh.(queue := sh'.queue, accepted := sh'.accepted)
  {
  }

  lemma TakeChanges(sh: Shared, item: Item, sh': Shared)
    requires Take(sh, item, sh')
    ensures sh' == sh.(queue := sh'.queue, taken := sh'.taken)
  {
  }

  lemma EnqueueStepFollows(sh: Shared, call: Call, sh': Shared, next: Option<Call>, runner: bool)
    requires LocalOk(sh, Calling(call, runner)) && EnqueueStep(sh, call, sh', next)
    ensures !call.WakeStarting? ==> Follows(sh, Calling(call, runner), sh', After(next, runner))
    ensures !Throws(After(next, runner))
  {
    hide Put;
    if call.Enqueuing? {
      PutChanges(sh, call.item, sh');
    }
  }

  lemma WakeStepFollows(sh: Shared, call: Call, sh': Shared, next: Option<Call>, runner: bool)
    requires LocalOk(sh, Calling(call, runner)) && WakeStep(sh, call, sh', next)
    ensures !call.WakeStarting? ==> Follows(sh, Calling(call, runner), sh', After(next, runner))
    ensures !Throws(After(next, runner))
  {
    hide Put;
    if call.WakeEnqueuing? {
      PutChanges(sh, call.item, sh');
    }
  }

  lemma StartStepFollows(sh: Shared, call: Call, sh': Shared, next: Option<Call>, runner: bool)
    requires LocalOk(sh, Calling(call, runner)) && StartStep(sh, call, sh', next)
    ensures !call.WakeStarting? ==> Follows(sh, Calling(call, runner), sh', After(next, runner))
    ensures !Throws(After(next, runner))
  {
  }

  lemma ProcessStepFollows(sh: Shared, loop: Loop, sh': Shared, loop': Loop)
    requires LocalOk(sh, Running(loop)) && ProcessStep(sh, loop, sh', loop')
    ensures Follows(sh, Running(loop), sh', Running(loop')) && !Throws(Running(loop'))
  {
    hide Take;
    if loop.Dequeuing? && |sh.queue| > 0 {
      TakeChanges(sh, loop'.got.value, sh');
    }
  }

  lemma StopStepFollows(sh: Shared, loop: Loop, sh': Shared, loop': Loop)
    requires LocalOk(sh, Running(loop)) && StopStep(sh, loop, sh', loop')
    ensures Follows(sh, Running(loop), sh', Running(loop')) && !Throws(Running(loop'))
  {
  }

  lemma BeginFollows(sh: Shared, pc: Pc, runner: bool, pc': Pc)
    requires LocalOk(sh, pc) && Begins(runner, pc') && pc == if runner then Running(Processing) else Elsewhere
    ensures Follows(sh, pc, sh, pc') && !Throws(pc')
  {
  }

  lemma RunningCountsMost()
    ensures forall pc :: IsSuspending(pc) <= Runs(pc) && IsFinishing(pc) <= Runs(pc)
    ensures forall pc :: KeepsSuspended(pc) <= Runs(pc) && KeepsAway(pc) <= Runs(pc)
  {
  }

  lemma PartOfRunning(pcs: seq<Pc>, w: Pc -> nat, t: nat)
    requires t < |pcs| && forall pc :: w(pc) <= Runs(pc)
    ensures w(pcs[t]) <= Sum(pcs, w) && Sum(pcs, w) + Runs(pcs[t]) <= Sum(pcs, Runs) + w(pcs[t])
  {
    SumAtLeast(pcs, w, t);
    SumDominates(pcs, w, Runs, t);
  }

  lemma ThreadIsOk(sh: Shared, pcs: seq<Pc>, t: nat)
    requires CountsOk(sh, pcs) && t < |pcs|
    ensures LocalOk(sh, pcs[t])
  {
    hide HoldsQueue, Runs, IsSuspending, IsFinishing, KeepsSuspended, KeepsAway;
    RunningCountsMost();
    SumAtLeast(pcs, HoldsQueue, t);
    SumAtLeast(pcs, Runs, t);
    PartOfRunning(pcs, IsSuspending, t);
    PartOfRunning(pcs, IsFinishing, t);
    PartOfRunning(pcs, KeepsSuspended, t);
    PartOfRunning(pcs, KeepsAway, t);
  }

  lemma FollowedCounts(sh: Shared, pcs: seq<Pc>, sh': Shared, t: nat, pc': Pc)
    requires CountsOk(sh, pcs) && t < |pcs| && Follows(sh, pcs[t], sh', pc')
    ensures CountsOk(sh', pcs[t := pc'])
  {
    hide HoldsQueue, Runs, IsSuspending, IsFinishing, KeepsSuspended, KeepsAway;
    SumUpdate(pcs, HoldsQueue, t, pc');
    SumUpdate(pcs, Runs, t, pc');
    SumUpdate(pcs, IsSuspending, t, pc');
    SumUpdate(pcs, IsFinishing, t, pc');
    SumUpdate(pcs, KeepsSuspended, t, pc');
    SumUpdate(pcs, KeepsAway, t, pc');
  }

  /** A thread that was going to start the worker's loop has started it. */
  lemma StartedCounts(sh: Shared, pcs: seq<Pc>, t: nat, runner: bool)
    requires CountsOk(sh, pcs) && t < |pcs| && pcs[t] == Calling(WakeStarting, runner)
    ensures CountsOk(sh, pcs[t := After(None, runner)] + [Running(TryDequeue)])
  {
    hide Sum;
    var pcs' := pcs[t := After(None, runner)];
    SumUpdate(pcs, HoldsQueue, t, After(None, runner));
    SumUpdate(pcs, Runs, t, After(None, runner));
    SumUpdate(pcs, IsSuspending, t, After(None, runner));
    SumUpdate(pcs, IsFinishing, t, After(None, runner));
    SumUpdate(pcs, KeepsSuspended, t, After(None, runner));
    SumUpdate(pcs, KeepsAway, t, After(None, runner));
    SumAppend(pcs', HoldsQueue, Running(TryDequeue));
    SumAppend(pcs', Runs, Running(TryDequeue));
    SumAppend(pcs', IsSuspending, Running(TryDequeue));
    SumAppend(pcs', IsFinishing, Running(TryDequeue));
    SumAppend(pcs', KeepsSuspended, Running(TryDequeue));
    SumAppend(pcs', KeepsAway, Running(TryDequeue));
  }

  lemma ThreadStepFollows(sh: Shared, pc: Pc, sh': Shared, pc': Pc)
    requires LocalOk(sh, pc) && ThreadStep(sh, pc, sh', pc')
    ensures !Starts(pc) ==> Follows(sh, pc, sh', pc')
    ensures Starts(pc) ==> sh' == sh && pc' == After(None, pc.runner)
    ensures !Throws(pc')
  {
    hide EnqueueStep, WakeStep, ProcessStep, StopStep, LocalOk, Follows, Begins, Throws;
    match pc
    case Elsewhere =>
      BeginFollows(sh, pc, false, pc');
    case Calling(call, runner) =>
      var next :| && pc' == After(next, runner)
                  && (EnqueueStep(sh, call, sh', next) || WakeStep(sh, call, sh', next) || StartStep(sh, call, sh', next));
      if EnqueueStep(sh, call, sh', next) {
        EnqueueStepFollows(sh, call, sh', next, runner);
        NotStarting(sh, call, sh', next);
      } else if WakeStep(sh, call, sh', next) {
        WakeStepFollows(sh, call, sh', next, runner);
        NotStarting(sh, call, sh', next);
      } else {
        StartStepFollows(sh, call, sh', next, runner);
      }
    case Running(loop) =>
      if loop.Processing? && sh' == sh && Begins(true, pc') {
        BeginFollows(sh, pc, true, pc');
      } else if ProcessStep(sh, loop, sh', pc'.loop) {
        ProcessStepFollows(sh, loop, sh', pc'.loop);
      } else {
        StopStepFollows(sh, loop, sh', pc'.loop);
      }
  }

  lemma NotStarting(sh: Shared, call: Call, sh': Shared, next: Option<Call>)
    requires EnqueueStep(sh, call, sh', next) || WakeStep(sh, call, sh', next)
    ensures !call.WakeStarting?
  {
  }

  lemma NextKeepsInv(s: State, s': State)
    requires Inv(s) && Next(s, s')
    ensures Inv(s')
  {
    hide ThreadStep, CountsOk, ItemsOk, LocalOk, Follows, Throws;
    var t: nat, pc' :| StepOf(s, s', t, pc');
    ThreadStepKeepsItems(s.shared, s.pcs[t], s'.shared, pc');
    ThreadIsOk(s.shared, s.pcs, t);
    ThreadStepFollows(s.shared, s.pcs[t], s'.shared, pc');
    if Starts(s.pcs[t]) {
      StartedCounts(s.shared, s.pcs, t, s.pcs[t].runner);
      NewThreadDoesNotThrow();
    } else {
      FollowedCounts(s.shared, s.pcs, s'.shared, t, pc');
      assert s.pcs[t := pc'] + [] == s.pcs[t := pc'];
    }
  }

  lemma NewThreadDoesNotThrow()
    ensures !Throws(Running(TryDequeue))
  {
  }

  lemma InitInv(s: State)
    requires Init(s)
    ensures Inv(s)
  {
    InitSum(s, HoldsQueue);
    InitSum(s, Runs);
    InitSum(s, IsSuspending);
    InitSum(s, IsFinishing);
    InitSum(s, KeepsSuspended);
    InitSum(s, KeepsAway);
  }

  lemma InitSum(s: State, w: Pc -> nat)
    requires Init(s) && w(Elsewhere) == 0
    ensures Sum(s.pcs, w) == w(Running(TryDequeue))
  {
    var none := s.pcs[0 := Elsewhere];
    SumOfNone(none, w);
    SumUpdate(none, w, 0, Running(TryDequeue));
    assert none[0 := Running(TryDequeue)] == s.pcs;
  }

  lemma {:induction false} ReachableInv(s: State, k: nat)
    requires ReachableIn(s, k)
    ensures Inv(s)
    decreases k
  {
    if k == 0 {
      InitInv(s);
    } else {
      var s0 :| ReachableIn(s0, k - 1) && Next(s0, s);
      ReachableInv(s0, k - 1);
      NextKeepsInv(s0, s);
    }
  }

  // ---- what holds in every reachable state ----

  /** The queue is only ever touched by the one thread that has set the state to `QueueBusy`. */
  lemma QueueTouchedByHolder(s: State, s': State, k: nat, t: nat, pc': Pc)
    requires ReachableIn(s, k) && StepOf(s, s', t, pc') && s'.shared.queue != s.shared.queue
    ensures HoldsQueue(s.pcs[t]) == 1 && s.shared.state == QueueBusy
    ensures forall u :: 0 <= u < |s.pcs| && u != t ==> HoldsQueue(s.pcs[u]) == 0
  {
    hide ThreadStep;
    ReachableInv(s, k);
    TouchedByHolder(s.shared, s.pcs[t], s'.shared, pc');
    HeldByOne(s.pcs, t);
  }

  lemma TouchedByHolder(sh: Shared, pc: Pc, sh': Shared, pc': Pc)
    requires ThreadStep(sh, pc, sh', pc') && sh'.queue != sh.queue
    ensures HoldsQueue(pc) == 1
  {
    hide Put, Take;
  }

  lemma HeldByOne(pcs: seq<Pc>, t: nat)
    requires t < |pcs| && Sum(pcs, HoldsQueue) <= 1 && HoldsQueue(pcs[t]) == 1
    ensures Sum(pcs, HoldsQueue) == 1
    ensures forall u :: 0 <= u < |pcs| && u != t ==> HoldsQueue(pcs[u]) == 0
  {
    SumAtLeast(pcs, HoldsQueue, t);
    forall u | 0 <= u < |pcs| && u != t
      ensures HoldsQueue(pcs[u]) == 0
    {
      if u < t {
        SumOfTwo(pcs, HoldsQueue, u, t);
      } else {
        SumOfTwo(pcs, HoldsQueue, t, u);
      }
    }
  }

  /** At most one thread runs the worker's loop or is going to have it run; none while it is asleep. */
  lemma OneLoop(s: State, k: nat, t: nat, u: nat)
    requires ReachableIn(s, k) && t < u < |s.pcs|
    ensures Runs(s.pcs[t]) + Runs(s.pcs[u]) <= Bit(s.shared.state != Suspended)
  {
    ReachableInv(s, k);
    SumOfTwo(s.pcs, Runs, t, u);
  }

  /** The worker never finds itself finishing when it looks for work. */
  lemma NotFinishingWhileDequeuing(s: State, k: nat, t: nat)
    requires ReachableIn(s, k) && t < |s.pcs| && s.pcs[t] == Running(TryDequeue)
    ensures s.shared.state != Finishing && s.shared.state != Suspending && s.shared.state != Suspended
  {
    ReachableInv(s, k);
    ThreadIsOk(s.shared, s.pcs, t);
  }

  /** The scanner never has the worker in both of its dictionaries. */
  lemma NeverInBoth(s: State, k: nat)
    requires ReachableIn(s, k)
    ensures !(s.shared.inWorkers && s.shared.inSuspended)
  {
    ReachableInv(s, k);
    SuspendedIsAway();
    SumBelow(s.pcs, KeepsSuspended, KeepsAway);
  }

  lemma SuspendedIsAway()
    ensures forall pc :: KeepsSuspended(pc) <= KeepsAway(pc)
  {
  }

  /** Once the state is `Finishing` it stays so, and what is in the queue stays there. */
  lemma FinishingIsAbsorbing(s: State, s': State)
    requires Inv(s) && Next(s, s') && s.shared.state == Finishing
    ensures Inv(s') && s'.shared.state == Finishing
    ensures s'.shared.queue == s.shared.queue && s'.shared.taken == s.shared.taken
  {
    hide Put, Take, Inv, CountsOk;
    NextKeepsInv(s, s');
    var t: nat, pc' :| StepOf(s, s', t, pc');
    InvIsLocal(s, t);
    FinishingStep(s.shared, s.pcs[t], s'.shared, pc');
  }

  lemma InvIsLocal(s: State, t: nat)
    requires Inv(s) && t < |s.pcs|
    ensures LocalOk(s.shared, s.pcs[t])
  {
    hide CountsOk, LocalOk;
    ThreadIsOk(s.shared, s.pcs, t);
  }

  lemma FinishingStep(sh: Shared, pc: Pc, sh': Shared, pc': Pc)
    requires ThreadStep(sh, pc, sh', pc') && LocalOk(sh, pc) && sh.state == Finishing
    ensures sh'.state == Finishing && sh'.queue == sh.queue && sh'.taken == sh.taken
  {
    hide Put, Take;
  }

  ghost predicate LeadsTo(s: State, s': State, k: nat)
    decreases k
  {
    if k == 0 then s == s'
    else exists s0 :: LeadsTo(s, s0, k - 1) && Next(s0, s')
  }

  /** The items left in the queue when the worker finishes are lost: no run ever takes them out. */
  lemma {:induction false} LeftoversAreLost(s: State, s': State, k: nat)
    requires Inv(s) && s.shared.state == Finishing && LeadsTo(s, s', k)
    ensures Inv(s') && s'.shared.state == Finishing
    ensures s'.shared.queue == s.shared.queue && s'.shared.taken == s.shared.taken
    decreases k
  {
    if k > 0 {
      var s0 :| LeadsTo(s, s0, k - 1) && Next(s0, s');
      LeftoversAreLost(s, s0, k - 1);
      FinishingIsAbsorbing(s0, s');
    }
  }
}
