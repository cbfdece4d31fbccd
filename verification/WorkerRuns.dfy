/** Runs in which the protocol of a procedure worker does not do what its comments promise. */
module WorkerRuns {
  import opened Wrappers
  import opened WorkerProtocol

  lemma Extend(s: State, s': State, k: nat, t: nat, pc': Pc)
    requires ReachableIn(s, k) && StepOf(s, s', t, pc')
    ensures ReachableIn(s', k + 1)
  {
    assert Next(s, s');
  }

  function Start(queue: multiset<Item>): Shared {
    Shared(Working, queue, 0, true, false, queue, multiset{})
  }

  /** The state after thread 0 runs the loop and thread 1 is in a call. */
  function Two(sh: Shared, loop: Loop, pc: Pc): State {
    State(sh, [Running(loop), pc])
  }

  lemma StartReachable(sh: Shared)
    requires sh.state == Working && sh.inWorkers && !sh.inSuspended
    requires sh.queue == sh.accepted && sh.taken == multiset{}
    ensures ReachableIn(Two(sh, TryDequeue, Elsewhere), 0)
  {
  }

  lemma MoveLoop(sh: Shared, loop: Loop, pc: Pc, k: nat, sh': Shared, loop': Loop)
    requires ReachableIn(Two(sh, loop, pc), k)
    requires ProcessStep(sh, loop, sh', loop') || StopStep(sh, loop, sh', loop')
    ensures ReachableIn(Two(sh', loop', pc), k + 1)
  {
    Extend(Two(sh, loop, pc), Two(sh', loop', pc), k, 0, Running(loop'));
  }

  lemma MoveCall(sh: Shared, loop: Loop, pc: Pc, k: nat, sh': Shared, pc': Pc)
    requires ReachableIn(Two(sh, loop, pc), k) && ThreadStep(sh, pc, sh', pc') && !Starts(pc)
    ensures ReachableIn(Two(sh', loop, pc'), k + 1)
  {
    assert StepOf(Two(sh, loop, pc), Two(sh', loop, pc'), 1, pc');
    Extend(Two(sh, loop, pc), Two(sh', loop, pc'), k, 1, pc');
  }

  lemma CallStepIs(sh: Shared, call: Call, sh': Shared, next: Option<Call>)
    requires EnqueueStep(sh, call, sh', next) || WakeStep(sh, call, sh', next)
    ensures ThreadStep(sh, Calling(call, false), sh', After(next, false))
  {
  }

  lemma BeginIs(sh: Shared, call: Call)
    requires call.TryEnqueue? || call.WakeSuspended?
    ensures ThreadStep(sh, Elsewhere, sh, Calling(call, false))
  {
  }

  /**
   Waking a worker throws when its first attempt finds the worker working and its second one
   finds the queue held, here by the worker's own loop.
   */
  lemma WakeCanThrow(item: Item)
    ensures exists s, k: nat :: ReachableIn(s, k) && Calling(WakeFailed, false) in s.pcs
  {
    hide ReachableIn, ThreadStep, Put, Take;
    var sh := Start(multiset{});
    var busy := sh.(state := QueueBusy);
    StartReachable(sh);
    BeginIs(sh, WakeSuspended(item));
    MoveCall(sh, TryDequeue, Elsewhere, 0, sh, Calling(WakeSuspended(item), false));
    CallStepIs(sh, WakeSuspended(item), sh, Some(WakeWorking(item, Working)));
    MoveCall(sh, TryDequeue, Calling(WakeSuspended(item), false), 1, sh, Calling(WakeWorking(item, Working), false));
    MoveLoop(sh, TryDequeue, Calling(WakeWorking(item, Working), false), 2, busy, Dequeuing);
    CallStepIs(busy, WakeWorking(item, Working), busy, Some(WakeFailed));
    MoveCall(busy, Dequeuing, Calling(WakeWorking(item, Working), false), 3, busy, Calling(WakeFailed, false));
    assert Two(busy, Dequeuing, Calling(WakeFailed, false)).pcs[1] == Calling(WakeFailed, false);
  }

  // ---- when waking throws ----

  ghost predicate StepBy(s: State, s': State, t: nat) {
    exists pc' :: StepOf(s, s', t, pc')
  }

  /** A run of the protocol: in step `i` it is the turn of thread `turns[i]`. */
  ghost predicate IsRun(run: seq<State>, turns: seq<nat>) {
    && |run| == |turns| + 1
    && forall i :: 0 <= i < |turns| ==> StepBy(run[i], run[i + 1], turns[i])
  }

  predicate IsAt(s: State, t: nat, pc: Pc) {
    t < |s.pcs| && s.pcs[t] == pc
  }

  /** From state `i` up to state `n` the thread does not move. */
  predicate Stays(run: seq<State>, t: nat, pc: Pc, i: nat, n: nat) {
    n <= |run| && forall k :: i <= k < n ==> IsAt(run[k], t, pc)
  }

  /** A thread that is in a call has come there by a step of its own, or has been there before. */
  lemma CameBy(s: State, s': State, t: nat, u: nat, call: Call, runner: bool)
    requires StepBy(s, s', u) && IsAt(s', t, Calling(call, runner))
    ensures t < |s.pcs|
    ensures t != u ==> IsAt(s, t, Calling(call, runner))
    ensures t == u ==> exists pc' :: StepOf(s, s', t, pc') && pc' == Calling(call, runner)
  {
    hide ThreadStep;
  }

  /** What brings a thread to the second exchange of `Wake`, and to the throw. */
  lemma ComesFrom(sh: Shared, pc: Pc, sh': Shared, call: Call, runner: bool)
    requires ThreadStep(sh, pc, sh', Calling(call, runner))
    ensures call.WakeWorking? ==>
              pc == Calling(WakeSuspended(call.item), runner) && call.seen == sh.state != Suspended && sh' == sh
    ensures call.WakeFailed? ==>
              && pc.Calling? && pc.call.WakeWorking? && pc.runner == runner && sh' == sh
              && sh.state != Working && pc.call.seen != Suspending && pc.call.seen != QueueBusy
  {
    hide Put, Take;
  }

  /** A thread about to make its second exchange has made its first, and has not moved since. */
  lemma {:induction false} FirstExchange(run: seq<State>, turns: seq<nat>, t: nat, item: Item, seen: WorkerState, runner: bool)
      returns (i: nat)
    requires IsRun(run, turns) && Init(run[0]) && IsAt(run[|turns|], t, Calling(WakeWorking(item, seen), runner))
    ensures i < |turns| && turns[i] == t && IsAt(run[i], t, Calling(WakeSuspended(item), runner))
    ensures run[i].shared.state == seen != Suspended
    ensures Stays(run, t, Calling(WakeWorking(item, seen), runner), i + 1, |run|)
    decreases |turns|
  {
    hide ThreadStep, StepOf, StepBy;
    var n := |turns| - 1;
    assert n >= 0;
    assert StepBy(run[n], run[n + 1], turns[n]);
    CameBy(run[n], run[n + 1], t, turns[n], WakeWorking(item, seen), runner);
    if turns[n] == t {
      i := n;
      StepOfIs(run[n], run[n + 1], t, Calling(WakeWorking(item, seen), runner));
      ComesFrom(run[n].shared, run[n].pcs[t], run[n + 1].shared, WakeWorking(item, seen), runner);
    } else {
      i := FirstExchange(run[..n + 1], turns[..n], t, item, seen, runner);
    }
  }

  lemma StepOfIs(s: State, s': State, t: nat, pc: Pc)
    requires exists pc' :: StepOf(s, s', t, pc') && pc' == pc
    ensures t < |s.pcs| && ThreadStep(s.shared, s.pcs[t], s'.shared, pc)
  {
    hide ThreadStep;
  }

  /** Some other thread has set the state to `QueueBusy` and not put it back yet. */
  ghost predicate HeldByAnother(s: State, t: nat) {
    exists u :: 0 <= u < |s.pcs| && u != t && HoldsQueue(s.pcs[u]) == 1
  }

  /**
   A thread that has come to the throw in `Wake` has made its two exchanges, at `i` and at `j`: at the
   first one the worker was working or finishing, and at the second one another thread held the
   queue, or the worker was suspending, suspended or finishing.
   */
  lemma {:induction false} WakeThrowsWhen(run: seq<State>, turns: seq<nat>, t: nat, runner: bool)
      returns (i: nat, j: nat, item: Item)
    requires IsRun(run, turns) && Init(run[0]) && IsAt(run[|turns|], t, Calling(WakeFailed, runner))
    ensures i < j < |turns| && turns[i] == t && turns[j] == t
    ensures IsAt(run[i], t, Calling(WakeSuspended(item), runner))
    ensures Stays(run, t, Calling(WakeWorking(item, run[i].shared.state), runner), i + 1, j + 1)
    ensures run[i].shared.state == Working || run[i].shared.state == Finishing
    ensures run[j].shared.state == QueueBusy ==> HeldByAnother(run[j], t)
    ensures run[j].shared.state != Working
    decreases |turns|
  {
    hide ThreadStep, StepOf, StepBy, HeldByAnother;
    var n := |turns| - 1;
    assert n >= 0;
    assert StepBy(run[n], run[n + 1], turns[n]);
    CameBy(run[n], run[n + 1], t, turns[n], WakeFailed, runner);
    if turns[n] == t {
      j := n;
      StepOfIs(run[n], run[n + 1], t, Calling(WakeFailed, runner));
      ComesFrom(run[n].shared, run[n].pcs[t], run[n + 1].shared, WakeFailed, runner);
      var call := run[n].pcs[t].call;
      item := call.item;
      i := FirstExchange(run[..n + 1], turns[..n], t, item, call.seen, runner);
      assert run[..n + 1][i] == run[i];
      if run[j].shared.state == QueueBusy {
        RunReaches(run[..n + 1], turns[..n]);
        BusyHeld(run[j], j, t);
      }
    } else {
      i, j, item := WakeThrowsWhen(run[..n + 1], turns[..n], t, runner);
    }
  }

  /** A thread whose turn it is not stays where it is. */
  lemma {:induction false} StaysPut(run: seq<State>, turns: seq<nat>, t: nat, pc: Pc, i: nat, n: nat)
    requires IsRun(run, turns) && i <= n <= |turns| && IsAt(run[i], t, pc)
    requires forall k :: i <= k < n ==> turns[k] != t
    ensures IsAt(run[n], t, pc)
    decreases n - i
  {
    hide ThreadStep;
    if i < n {
      StaysPut(run, turns, t, pc, i, n - 1);
      assert StepBy(run[n - 1], run[n], turns[n - 1]);
    }
  }

  /**
   Conversely, a thread whose first exchange sees the worker working or finishing, and whose next
   step sees it in any state other than working, comes to the throw with that step.
   */
  lemma WakeThrowsThen(run: seq<State>, turns: seq<nat>, t: nat, i: nat, j: nat, item: Item, runner: bool)
    requires IsRun(run, turns) && i < j < |turns| && turns[i] == t && turns[j] == t
    requires forall k :: i < k < j ==> turns[k] != t
    requires IsAt(run[i], t, Calling(WakeSuspended(item), runner))
    requires run[i].shared.state == Working || run[i].shared.state == Finishing
    requires run[j].shared.state != Working
    ensures IsAt(run[j + 1], t, Calling(WakeFailed, runner))
  {
    hide ThreadStep;
    var seen := run[i].shared.state;
    assert StepBy(run[i], run[i + 1], t) && StepBy(run[j], run[j + 1], t);
    var pc1 :| StepOf(run[i], run[i + 1], t, pc1);
    FirstGoesOn(run[i].shared, item, run[i + 1].shared, pc1, runner);
    StaysPut(run, turns, t, Calling(WakeWorking(item, seen), runner), i + 1, j);
    var pc2 :| StepOf(run[j], run[j + 1], t, pc2);
    SecondFails(run[j].shared, item, seen, run[j + 1].shared, pc2, runner);
  }

  lemma FirstGoesOn(sh: Shared, item: Item, sh': Shared, pc': Pc, runner: bool)
    requires ThreadStep(sh, Calling(WakeSuspended(item), runner), sh', pc') && sh.state != Suspended
    ensures pc' == Calling(WakeWorking(item, sh.state), runner)
  {
    hide Put, Take;
  }

  lemma SecondFails(sh: Shared, item: Item, seen: WorkerState, sh': Shared, pc': Pc, runner: bool)
    requires ThreadStep(sh, Calling(WakeWorking(item, seen), runner), sh', pc') && sh.state != Working
    requires seen != Suspending && seen != QueueBusy
    ensures pc' == Calling(WakeFailed, runner)
  {
    hide Put, Take;
  }

  lemma {:induction false} RunReaches(run: seq<State>, turns: seq<nat>)
    requires IsRun(run, turns) && Init(run[0])
    ensures ReachableIn(run[|turns|], |turns|)
    decreases |turns|
  {
    if turns != [] {
      var n := |turns| - 1;
      RunReaches(run[..n + 1], turns[..n]);
      var pc' :| StepOf(run[n], run[n + 1], turns[n], pc');
      Extend(run[n], run[n + 1], n, turns[n], pc');
    }
  }

  lemma BusyHeld(s: State, k: nat, t: nat)
    requires ReachableIn(s, k) && s.shared.state == QueueBusy && t < |s.pcs| && HoldsQueue(s.pcs[t]) == 0
    ensures HeldByAnother(s, t)
  {
    hide ReachableIn;
    ReachableInv(s, k);
    if !HeldByAnother(s, t) {
      forall u | 0 <= u < |s.pcs|
        ensures HoldsQueue(s.pcs[u]) == 0
      {
        OneAtMost(s.pcs[u]);
      }
      SumOfNone(s.pcs, HoldsQueue);
    }
  }

  lemma OneAtMost(pc: Pc)
    ensures HoldsQueue(pc) <= 1
  {
  }

  /** Where a `Wake` that began once the worker was finishing can be. */
  predicate WakesInVain(pc: Pc, item: Item, runner: bool) {
    pc.Calling? && pc.runner == runner && pc.call in {WakeSuspended(item), WakeWorking(item, Finishing), WakeFailed}
  }

  /** Once the worker is finishing, `Wake` can only end in the throw. */
  lemma {:induction false} WakeThrowsOnceFinishing(run: seq<State>, turns: seq<nat>, t: nat, item: Item, runner: bool)
    requires IsRun(run, turns) && Inv(run[0]) && run[0].shared.state == Finishing
    requires IsAt(run[0], t, Calling(WakeSuspended(item), runner))
    ensures Inv(run[|turns|]) && run[|turns|].shared.state == Finishing
    ensures t < |run[|turns|].pcs| && WakesInVain(run[|turns|].pcs[t], item, runner)
    decreases |turns|
  {
    hide ThreadStep, Inv;
    if turns != [] {
      var n := |turns| - 1;
      WakeThrowsOnceFinishing(run[..n + 1], turns[..n], t, item, runner);
      assert StepBy(run[n], run[n + 1], turns[n]);
      var pc' :| StepOf(run[n], run[n + 1], turns[n], pc');
      assert Next(run[n], run[n + 1]);
      FinishingIsAbsorbing(run[n], run[n + 1]);
      if turns[n] == t {
        VainStep(run[n].shared, run[n].pcs[t], run[n + 1].shared, pc', item, runner);
      }
    }
  }

  lemma VainStep(sh: Shared, pc: Pc, sh': Shared, pc': Pc, item: Item, runner: bool)
    requires ThreadStep(sh, pc, sh', pc') && WakesInVain(pc, item, runner) && sh.state == Finishing
    ensures WakesInVain(pc', item, runner)
  {
    hide Put, Take;
  }

  /** If nobody gets between its two exchanges, and the worker is not finishing, `Wake` does not throw. */
  lemma WakeUndisturbed(s: State, s1: State, s2: State, t: nat, item: Item, runner: bool)
    requires StepBy(s, s1, t) && StepBy(s1, s2, t) && IsAt(s, t, Calling(WakeSuspended(item), runner))
    requires s.shared.state != Finishing
    ensures !IsAt(s2, t, Calling(WakeFailed, runner))
  {
    hide ThreadStep, Put, Take;
    if IsAt(s2, t, Calling(WakeFailed, runner)) {
      CameBy(s1, s2, t, t, WakeFailed, runner);
      StepOfIs(s1, s2, t, Calling(WakeFailed, runner));
      ComesFrom(s1.shared, s1.pcs[t], s2.shared, WakeFailed, runner);
      var seen := s1.pcs[t].call;
      CameBy(s, s1, t, t, seen, runner);
      StepOfIs(s, s1, t, Calling(seen, runner));
      ComesFrom(s.shared, s.pcs[t], s1.shared, seen, runner);
    }
  }

  /** The loop has found the queue empty and gives up, although an item has been put in since. */
  lemma ItemCanBeLost(item: Item)
    ensures exists s, k: nat :: ReachableIn(s, k) && s.shared.state == Finishing && item in s.shared.queue
  {
    hide ReachableIn, ThreadStep, Put, Take;
    var sh := Start(multiset{});
    var busy := sh.(state := QueueBusy);
    var full := sh.(queue := multiset{item}, accepted := multiset{item});
    var c0, c1, c2 := Calling(TryEnqueue(item), false), Calling(Enqueuing(item), false), Calling(Enqueued, false);
    EmptyQueueFound();
    BeginIs(sh, TryEnqueue(item));
    MoveCall(sh, OutOfWork, Elsewhere, 3, sh, c0);
    CallStepIs(sh, TryEnqueue(item), busy, Some(Enqueuing(item)));
    MoveCall(sh, OutOfWork, c0, 4, busy, c1);
    PutFirst(busy, item, full.(state := QueueBusy));
    CallStepIs(busy, Enqueuing(item), full.(state := QueueBusy), Some(Enqueued));
    MoveCall(busy, OutOfWork, c1, 5, full.(state := QueueBusy), c2);
    CallStepIs(full.(state := QueueBusy), Enqueued, full, None);
    MoveCall(full.(state := QueueBusy), OutOfWork, c2, 6, full, Elsewhere);
    MoveLoop(full, OutOfWork, Elsewhere, 7, full, TryFinish);
    MoveLoop(full, TryFinish, Elsewhere, 8, full.(state := Finishing), FinishRemoving);
    assert ReachableIn(Two(full.(state := Finishing), FinishRemoving, Elsewhere), 9);
  }

  lemma EmptyQueueFound()
    ensures ReachableIn(Two(Start(multiset{}), OutOfWork, Elsewhere), 3)
  {
    hide ReachableIn, ThreadStep, Put, Take;
    var sh := Start(multiset{});
    var busy := sh.(state := QueueBusy);
    StartReachable(sh);
    MoveLoop(sh, TryDequeue, Elsewhere, 0, busy, Dequeuing);
    MoveLoop(busy, Dequeuing, Elsewhere, 1, busy, Dequeued(None));
    MoveLoop(busy, Dequeued(None), Elsewhere, 2, sh, OutOfWork);
  }

  lemma PutFirst(sh: Shared, item: Item, sh': Shared)
    requires sh.queue == sh.accepted == multiset{} && sh' == sh.(queue := multiset{item}, accepted := multiset{item})
    ensures Put(sh, item, sh')
  {
    assert multiset{} + multiset{item} == multiset{item};
  }

  /**
   The items lost are those in the queue when the state becomes `Finishing`: whatever happens
   afterwards, exactly the others will ever have been taken out.
   */
  lemma LostExactly(s: State, k: nat, s': State, k': nat)
    requires ReachableIn(s, k) && s.shared.state == Finishing && LeadsTo(s, s', k')
    ensures s'.shared.accepted - s'.shared.taken == s.shared.queue
    ensures s'.shared.accepted == s.shared.accepted
  {
    ReachableInv(s, k);
    LeftoversAreLost(s, s', k');
    assert s'.shared.accepted == s'.shared.queue + s'.shared.taken;
    assert s'.shared.accepted - s'.shared.taken == s'.shared.queue;
  }

  /** Between its two dictionaries a worker is in neither, so that a second one can be started for it. */
  lemma InNeitherDictionary()
    ensures exists s, k: nat :: ReachableIn(s, k) && !s.shared.inWorkers && !s.shared.inSuspended
                                && s.shared.state == Suspending
  {
    hide ReachableIn, ThreadStep, Put, Take;
    var sh := Start(multiset{}).(pendingCalls := 1);
    StartReachable(sh);
    var busy := sh.(state := QueueBusy);
    MoveLoop(sh, TryDequeue, Elsewhere, 0, busy, Dequeuing);
    MoveLoop(busy, Dequeuing, Elsewhere, 1, busy, Dequeued(None));
    MoveLoop(busy, Dequeued(None), Elsewhere, 2, sh, OutOfWork);
    MoveLoop(sh, OutOfWork, Elsewhere, 3, sh, TrySuspend);
    var going := sh.(state := Suspending);
    MoveLoop(sh, TrySuspend, Elsewhere, 4, going, SuspendRemoving);
    MoveLoop(going, SuspendRemoving, Elsewhere, 5, going.(inWorkers := false), SuspendAdding);
    assert ReachableIn(Two(going.(inWorkers := false), SuspendAdding, Elsewhere), 6);
  }
}
