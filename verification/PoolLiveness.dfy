/**
 Waiting for a connection: no wakeup is lost, every run ends, and a pool larger than the number of
 connections that threads may hold while waiting is free of deadlock.
*/
module PoolLiveness {
  import opened PoolHandles
  import opened Sums
  import opened PoolProtocol
  import opened PoolOwnership
  import opened PoolAccounts

  // What every step keeps

  ghost predicate Scheduled(t: Thread) {
    && ProgramOk(t.todo, |t.held|, t.cap)
    && (t.phase in {Waiting, Woken} ==> t.todo != [] && t.todo[0] == Acquire)
  }

  /** Wakeups on their way: pushes not yet notified, and woken threads that have not rechecked. */
  ghost function WakeCredit(t: Thread): nat {
    if t.phase == Woken || (t.phase.Giving? && t.phase.stage == NotifyOne) then 1 else 0
  }

  ghost predicate NoLostWakeup(s: State) {
    SomeWaiting(s) ==> |s.pool.queue| <= Sum(WakeCredit, s.threads)
  }

  ghost predicate Live(s: State) {
    Owned(s) && (forall i :: 0 <= i < |s.threads| ==> Scheduled(s.threads[i])) && NoLostWakeup(s)
  }

  // Work left

  function OpsWeight(todo: seq<Op>): nat {
    if todo == [] then 0 else (if todo[0] == Acquire then 1 else 7) + OpsWeight(todo[1..])
  }

  function PhaseWeight(p: Phase): nat {
    match p
    case Idle => 1
    case Waiting => 0
    case Woken => 1
    case Giving(_, stage) =>
      match stage
      case CopyArg => 7
      case PushQueue => 6
      case NotifyOne => 5
      case DropArg => 3
      case DropOwn => 2
  }

  function Weight(t: Thread): nat {
    OpsWeight(t.todo) + PhaseWeight(t.phase)
  }

  ghost function Measure(s: State): nat {
    Sum(Weight, s.threads) + 2 * s.spurious
  }

  /** How many connections the thread may hold while it waits for one more. */
  function Nesting(t: Thread): nat {
    if t.cap == 0 then 0 else t.cap - 1
  }

  /** One thread and perhaps the queue changed, with bounded effect. */
  lemma LiveAfter(s: State, s': State, i: nat)
    requires Live(s) && Owned(s')
    requires i < |s.threads| == |s'.threads| && s'.threads == s.threads[i := s'.threads[i]]
    requires Scheduled(s'.threads[i]) && s'.threads[i].cap == s.threads[i].cap
    requires s'.threads[i].phase == Waiting ==> s'.pool.queue == []
    requires
      || |s'.pool.queue| + WakeCredit(s.threads[i]) <= |s.pool.queue| + WakeCredit(s'.threads[i])
      || s'.pool.queue == []
    requires Weight(s'.threads[i]) < Weight(s.threads[i]) && s'.spurious == s.spurious
    ensures Live(s') && Measure(s') < Measure(s) && Sum(Nesting, s'.threads) == Sum(Nesting, s.threads)
  {
    SumUpdate(WakeCredit, s.threads, i, s'.threads[i]);
    SumUpdate(Weight, s.threads, i, s'.threads[i]);
    SumUpdate(Nesting, s.threads, i, s'.threads[i]);
    if SomeWaiting(s') && s'.pool.queue != [] {
      var j :| IsWaiting(s', j);
      assert IsWaiting(s, j);
    }
  }

  lemma TakeThread(t: Thread, w: Handle)
    requires Scheduled(t) && MayCheck(t)
    ensures
      var t' := t.(todo := t.todo[1..], held := t.held + [w], phase := Idle);
      Scheduled(t') && Weight(t') < Weight(t) && WakeCredit(t') == 0
    ensures Scheduled(t.(phase := Waiting)) && Weight(t.(phase := Waiting)) < Weight(t)
  {
  }

  lemma LiveCheck(s: State, i: nat)
    requires Live(s) && Enabled(s, Check(i))
    ensures Live(ApplyCheck(s, i)) && Measure(ApplyCheck(s, i)) < Measure(s)
    ensures Sum(Nesting, ApplyCheck(s, i).threads) == Sum(Nesting, s.threads)
  {
    OwnedStep(s, Check(i));
    assert Scheduled(s.threads[i]);
    if s.pool.queue != [] {
      TakeThread(s.threads[i], Wrap(s.pool.nextSerial, s.pool.queue[0]));
    } else {
      TakeThread(s.threads[i], Raw(0));
    }
    LiveAfter(s, ApplyCheck(s, i), i);
  }

  lemma LiveRelease(s: State, i: nat)
    requires Live(s) && Enabled(s, Return(i))
    ensures Live(ApplyReturn(s, i)) && Measure(ApplyReturn(s, i)) < Measure(s)
    ensures Sum(Nesting, ApplyReturn(s, i).threads) == Sum(Nesting, s.threads)
    ensures Live(ApplyUnwind(s, i)) && Measure(ApplyUnwind(s, i)) < Measure(s)
    ensures Sum(Nesting, ApplyUnwind(s, i).threads) == Sum(Nesting, s.threads)
  {
    assert Scheduled(s.threads[i]);
    OwnedStep(s, Return(i));
    LiveAfter(s, ApplyReturn(s, i), i);
    OwnedStep(s, Unwind(i));
    UnwindFires(s, i);
    LiveAfter(s, ApplyUnwind(s, i), i);
  }

  lemma StageThread(t: Thread)
    requires Scheduled(t) && t.phase.Giving? && t.phase.stage != NotifyOne
    ensures
      var t' := t.(phase := NextPhase(t.phase.h, t.phase.stage));
      && Scheduled(t') && Weight(t') < Weight(t)
      && WakeCredit(t') == (if t.phase.stage == PushQueue then 1 else 0) && WakeCredit(t) == 0
  {
  }

  lemma LiveStage(s: State, i: nat, wake: nat)
    requires Live(s) && Enabled(s, Advance(i, wake)) && s.threads[i].phase.stage != NotifyOne
    ensures Live(ApplyAdvance(s, i, wake)) && Measure(ApplyAdvance(s, i, wake)) < Measure(s)
    ensures Sum(Nesting, ApplyAdvance(s, i, wake).threads) == Sum(Nesting, s.threads)
  {
    assert Scheduled(s.threads[i]);
    OwnedStep(s, Advance(i, wake));
    StageEffect(s, i, wake);
    StageThread(s.threads[i]);
    LiveAfter(s, ApplyAdvance(s, i, wake), i);
  }

  /** Waking a thread moves the notifier's credit to it. */
  lemma WakeSums(s: State, i: nat, j: nat)
    requires i < |s.threads| && s.threads[i].phase.Giving? && s.threads[i].phase.stage == NotifyOne
    ensures
      var s' := ApplyAdvance(s, i, j);
      var woken := if IsWaiting(s, j) then 1 else 0;
      && Sum(WakeCredit, s'.threads) + 1 == Sum(WakeCredit, s.threads) + woken
      && Sum(Weight, s'.threads) + 2 == Sum(Weight, s.threads) + woken
      && Sum(Nesting, s'.threads) == Sum(Nesting, s.threads)
  {
    var mid := SetPhase(s, i, Giving(s.threads[i].phase.h, DropArg));
    SumUpdate(WakeCredit, s.threads, i, mid.threads[i]);
    SumUpdate(Weight, s.threads, i, mid.threads[i]);
    SumUpdate(Nesting, s.threads, i, mid.threads[i]);
    if IsWaiting(s, j) {
      var t := mid.threads[j].(phase := Woken);
      SumUpdate(WakeCredit, mid.threads, j, t);
      SumUpdate(Weight, mid.threads, j, t);
      SumUpdate(Nesting, mid.threads, j, t);
    }
  }

  lemma LiveNotify(s: State, i: nat, wake: nat)
    requires Live(s) && Enabled(s, Advance(i, wake)) && s.threads[i].phase.stage == NotifyOne
    ensures Live(ApplyAdvance(s, i, wake)) && Measure(ApplyAdvance(s, i, wake)) < Measure(s)
    ensures Sum(Nesting, ApplyAdvance(s, i, wake).threads) == Sum(Nesting, s.threads)
  {
    var s' := ApplyAdvance(s, i, wake);
    OwnedStep(s, Advance(i, wake));
    WakeSums(s, i, wake);
    forall k | 0 <= k < |s'.threads|
      ensures Scheduled(s'.threads[k])
    {
      assert Scheduled(s.threads[k]);
    }
    if SomeWaiting(s') {
      var k :| IsWaiting(s', k);
      assert IsWaiting(s, k);
    }
  }

  lemma LiveSpurious(s: State, i: nat)
    requires Live(s) && Enabled(s, Spurious(i))
    ensures Live(Apply(s, Spurious(i))) && Measure(Apply(s, Spurious(i))) < Measure(s)
    ensures Sum(Nesting, Apply(s, Spurious(i)).threads) == Sum(Nesting, s.threads)
  {
    var s' := Apply(s, Spurious(i));
    OwnedStep(s, Spurious(i));
    SumUpdate(WakeCredit, s.threads, i, s'.threads[i]);
    SumUpdate(Weight, s.threads, i, s'.threads[i]);
    SumUpdate(Nesting, s.threads, i, s'.threads[i]);
    assert SomeWaiting(s) by { assert IsWaiting(s, i); }
    forall k | 0 <= k < |s'.threads|
      ensures Scheduled(s'.threads[k])
    {
      assert Scheduled(s.threads[k]);
    }
  }

  /** Barging, re-waiting and spurious wakeups included, every step uses up some of the measure. */
  lemma LiveStep(s: State, step: Step)
    requires Live(s) && Enabled(s, step)
    ensures Live(Apply(s, step)) && Measure(Apply(s, step)) < Measure(s)
    ensures Sum(Nesting, Apply(s, step).threads) == Sum(Nesting, s.threads)
  {
    match step
    case Check(i) => LiveCheck(s, i);
    case Return(i) => LiveRelease(s, i);
    case Unwind(i) => LiveRelease(s, i);
    case Advance(i, wake) =>
      if s.threads[i].phase.stage == NotifyOne { LiveNotify(s, i, wake); } else { LiveStage(s, i, wake); }
    case Spurious(i) => LiveSpurious(s, i);
  }

  lemma {:induction false} LiveRun(s: State, steps: seq<Step>)
    requires Live(s) && CanRun(s, steps)
    ensures Live(Run(s, steps)) && |steps| + Measure(Run(s, steps)) <= Measure(s)
    ensures Sum(Nesting, Run(s, steps).threads) == Sum(Nesting, s.threads)
    decreases |steps|
  {
    if steps != [] {
      LiveStep(s, steps[0]);
      LiveRun(Apply(s, steps[0]), steps[1..]);
    }
  }

  lemma InitialLive(s: State, poolSize: nat)
    requires Initial(s, poolSize)
    ensures Live(s)
  {
    InitialHolds(s, poolSize);
    assert !SomeWaiting(s);
  }

  // Main results

  /** In every reachable state, if a thread waits then every queued connection has a wakeup on its way. */
  lemma WakeupsAreNeverLost(s0: State, steps: seq<Step>, poolSize: nat)
    requires Initial(s0, poolSize) && CanRun(s0, steps)
    ensures SomeWaiting(Run(s0, steps)) ==> |Run(s0, steps).pool.queue| <= Sum(WakeCredit, Run(s0, steps).threads)
  {
    InitialLive(s0, poolSize);
    LiveRun(s0, steps);
  }

  function Borrows(todo: seq<Op>): nat {
    if todo == [] then 0 else (if todo[0] == Acquire then 1 else 0) + Borrows(todo[1..])
  }

  lemma {:induction false} ProgramWeight(todo: seq<Op>, depth: nat, cap: nat)
    requires ProgramOk(todo, depth, cap)
    ensures OpsWeight(todo) == 8 * Borrows(todo) + 7 * depth
  {
    if todo != [] {
      ProgramWeight(todo[1..], if todo[0] == Acquire then depth + 1 else depth - 1, cap);
    }
  }

  function StepBudget(t: Thread): nat {
    8 * Borrows(t.todo) + 1
  }

  lemma {:induction false} BudgetSum(ts: seq<Thread>)
    requires forall t :: t in ts ==> t.phase == Idle && ProgramOk(t.todo, 0, t.cap)
    ensures Sum(Weight, ts) == Sum(StepBudget, ts)
  {
    if ts != [] {
      ProgramWeight(ts[0].todo, 0, ts[0].cap);
      BudgetSum(ts[1..]);
    }
  }

  /** Every run is finite: eight steps a borrow, one a thread, and two for each spurious wakeup. */
  lemma EveryRunEnds(s0: State, steps: seq<Step>, poolSize: nat)
    requires Initial(s0, poolSize) && CanRun(s0, steps)
    ensures |steps| <= Sum(StepBudget, s0.threads) + 2 * s0.spurious
  {
    InitialLive(s0, poolSize);
    LiveRun(s0, steps);
    BudgetSum(s0.threads);
  }

  /** Nothing can happen any more, except that a waiting thread wakes for no reason. */
  ghost predicate Stuck(s: State) {
    forall step :: Enabled(s, step) ==> step.Spurious?
  }

  ghost predicate Finished(s: State) {
    forall t :: t in s.threads ==> t.todo == [] && t.phase == Idle
  }

  lemma StuckThread(s: State, i: nat)
    requires Live(s) && Stuck(s) && i < |s.threads|
    ensures s.threads[i].phase == Waiting || (s.threads[i].phase == Idle && s.threads[i].todo == [])
    ensures LoanCount(s.threads[i]) <= Nesting(s.threads[i])
    ensures WakeCredit(s.threads[i]) == 0
  {
    var t := s.threads[i];
    assert Scheduled(t);
    assert !Enabled(s, Check(i)) && !Enabled(s, Return(i));
    if t.phase.Giving? {
      var wake: nat := if SomeWaiting(s) then var j: nat :| IsWaiting(s, j); j else 0;
      assert Enabled(s, Advance(i, wake));
    }
  }

  /** When nothing can happen and a thread is left waiting, everything is on loan to waiting threads. */
  lemma StuckMeansStarved(s: State)
    requires Live(s) && Stuck(s) && !Finished(s)
    ensures s.pool.queue == [] && Sum(LoanCount, s.threads) <= Sum(Nesting, s.threads)
  {
    forall t | t in s.threads
      ensures WakeCredit(t) == 0 && LoanCount(t) <= Nesting(t)
    {
      var i :| 0 <= i < |s.threads| && s.threads[i] == t;
      StuckThread(s, i);
    }
    SumZero(WakeCredit, s.threads);
    SumBound(LoanCount, Nesting, s.threads);
    var t :| t in s.threads && !(t.todo == [] && t.phase == Idle);
    var i :| 0 <= i < |s.threads| && s.threads[i] == t;
    StuckThread(s, i);
    assert IsWaiting(s, i);
  }

  lemma FinishedOwesNothing(s: State)
    requires Live(s)
    ensures Finished(s) ==> Sum(LoanCount, s.threads) == 0
  {
    if Finished(s) {
      forall t | t in s.threads
        ensures LoanCount(t) == 0
      {
        var i :| 0 <= i < |s.threads| && s.threads[i] == t;
        assert Scheduled(s.threads[i]);
      }
      SumZero(LoanCount, s.threads);
    }
  }

  /**
   With more connections than can be held by waiting threads, a run that cannot go on has
   finished all work, and every connection is back in the queue.
  */
  lemma LargePoolNeverDeadlocks(s0: State, steps: seq<Step>, poolSize: nat)
    requires Initial(s0, poolSize) && CanRun(s0, steps)
    requires poolSize > Sum(Nesting, s0.threads)
    requires Stuck(Run(s0, steps))
    ensures Finished(Run(s0, steps)) && |Run(s0, steps).pool.queue| == poolSize
  {
    InitialLive(s0, poolSize);
    LiveRun(s0, steps);
    ReturnedExactlyOnce(s0, steps, poolSize);
    var s := Run(s0, steps);
    if !Finished(s) {
      StuckMeansStarved(s);
    }
    FinishedOwesNothing(s);
  }
}
