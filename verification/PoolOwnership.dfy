/**
 Exactly-once return: in every run the reference counts are exact, each physical connection is
 in one place, and the deleter of a returned handle never runs.
*/
module PoolOwnership {
  import opened PoolHandles
  import opened Sums
  import opened PoolProtocol

  lemma ChainsSnoc(hs: seq<Handle>, h: Handle)
    ensures Chains(hs + [h]) == Chains(hs) + Chain(h)
  {
    BagConcat(Chain, hs, [h]);
    assert Bag(Chain, [h]) == Chain(h) + Bag(Chain, []);
  }

  lemma ChainHasSelf(h: Handle)
    ensures h in Chain(h)
  {
  }

  lemma HeldCounted(hs: seq<Handle>, h: Handle)
    requires h in hs
    ensures h in Chains(hs)
  {
    var k :| 0 <= k < |hs| && hs[k] == h;
    BagAtLeast(Chain, hs, k);
    ChainHasSelf(h);
  }

  lemma HeldIsReferenced(t: Thread, h: Handle)
    requires h in t.held
    ensures ThreadRefs(t)[h] >= 1
  {
    HeldCounted(OnLoan(t), h);
  }

  /** A handle being given back has a reference of its own, on top of any the thread holds. */
  lemma GivingIsReferenced(t: Thread)
    requires t.phase.Giving?
    ensures ThreadRefs(t)[t.phase.h] >= 1
    ensures t.phase.h in t.held ==> ThreadRefs(t)[t.phase.h] >= 2
  {
    var h := t.phase.h;
    if h in t.held {
      HeldCounted(t.held, h);
    }
    ChainsSnoc(t.held, h);
    ChainHasSelf(h);
  }

  /** What replacing thread `i` does to the two sums, handle by handle. */
  lemma Replaced(ts: seq<Thread>, i: nat, t: Thread, h: Handle)
    requires i < |ts|
    ensures Bag(ThreadRefs, ts[i := t])[h] + ThreadRefs(ts[i])[h] == Bag(ThreadRefs, ts)[h] + ThreadRefs(t)[h]
    ensures Bag(LoanChains, ts[i := t])[h] + LoanChains(ts[i])[h] == Bag(LoanChains, ts)[h] + LoanChains(t)[h]
  {
    BagUpdate(ThreadRefs, ts, i, t);
    BagUpdate(LoanChains, ts, i, t);
    assert (Bag(ThreadRefs, ts[i := t]) + ThreadRefs(ts[i]))[h] == (Bag(ThreadRefs, ts) + ThreadRefs(t))[h];
    assert (Bag(LoanChains, ts[i := t]) + LoanChains(ts[i]))[h] == (Bag(LoanChains, ts) + LoanChains(t))[h];
  }

  /** The rooted references are part of all references. */
  lemma {:induction false} LoansWithinRefs(ts: seq<Thread>, h: Handle)
    ensures Bag(LoanChains, ts)[h] <= Bag(ThreadRefs, ts)[h]
  {
    if ts != [] {
      LoansWithinRefs(ts[1..], h);
    }
  }

  /** The references of thread `i` beyond the rooted ones are extra. */
  lemma {:induction false} TransitIsExtra(ts: seq<Thread>, i: nat, h: Handle)
    requires i < |ts|
    ensures Bag(LoanChains, ts)[h] + InTransit(ts[i].phase)[h] <= Bag(ThreadRefs, ts)[h]
  {
    if i == 0 {
      LoansWithinRefs(ts[1..], h);
    } else {
      TransitIsExtra(ts[1..], i - 1, h);
    }
  }

  /** All threads together have a single reference to a handle that one of them holds. */
  lemma HeldHasOneReference(s: State, i: nat, h: Handle)
    requires Owned(s) && i < |s.threads| && h in s.threads[i].held
    ensures Bag(ThreadRefs, s.threads)[h] <= 1 && ThreadRefs(s.threads[i])[h] <= 1
  {
    assert HeldOnce(s, h);
    assert s.pool.refs[h] == Accounted(s, h);
    RefsAtLeast(s.threads, i, h);
  }

  lemma RefsAtLeast(ts: seq<Thread>, i: nat, h: Handle)
    requires i < |ts|
    ensures ThreadRefs(ts[i])[h] <= Bag(ThreadRefs, ts)[h]
  {
    BagAtLeast(ThreadRefs, ts, i);
  }

  /** A handle held once is not also being given back, and is not held by anybody else. */
  lemma HeldIsNotGiven(s: State, i: nat, j: nat, h: Handle)
    requires Owned(s)
    requires i < |s.threads| && j < |s.threads|
    requires h in s.threads[i].held
    ensures s.threads[j].phase.Giving? ==> h != s.threads[j].phase.h
    ensures i != j ==> h !in s.threads[j].held
  {
    HeldHasOneReference(s, i, h);
    if s.threads[j].phase.Giving? && h == s.threads[j].phase.h {
      GivingIsReferenced(s.threads[j]);
    }
    HeldIsReferenced(s.threads[i], h);
    if h in s.threads[j].held {
      HeldIsReferenced(s.threads[j], h);
    }
    RefsAtLeast(s.threads, j, h);
    if i < j {
      BagAtLeastTwo(ThreadRefs, s.threads, i, j);
    } else if j < i {
      BagAtLeastTwo(ThreadRefs, s.threads, j, i);
    }
  }

  /** A handle held at two places of one thread is referenced twice. */
  lemma HeldTwice(t: Thread, w: Handle)
    requires t.held != [] && w == t.held[|t.held| - 1] && w in t.held[..|t.held| - 1]
    ensures ThreadRefs(t)[w] >= 2
  {
    var front := t.held[..|t.held| - 1];
    assert t.held == front + [w];
    ChainsSnoc(front, w);
    HeldCounted(front, w);
    ChainHasSelf(w);
    if OnLoan(t) != t.held {
      ChainsSnoc(t.held, t.phase.h);
    }
  }

  lemma TopIsNotBelow(s: State, i: nat)
    requires Owned(s)
    requires i < |s.threads| && s.threads[i].held != []
    ensures var held := s.threads[i].held; held[|held| - 1] !in held[..|held| - 1]
  {
    hide Owned, ThreadRefs, Bag;
    var t := s.threads[i];
    var w := t.held[|t.held| - 1];
    assert w in t.held;
    HeldHasOneReference(s, i, w);
    if w in t.held[..|t.held| - 1] {
      HeldTwice(t, w);
    }
  }

  /** The innermost handle of a thread is held in no other place. */
  lemma TopIsHeldOnce(s: State, i: nat, j: nat, h: Handle)
    requires Owned(s)
    requires i < |s.threads| && s.threads[i].held != [] && j < |s.threads|
    requires h in (if i == j then s.threads[i].held[..|s.threads[i].held| - 1] else s.threads[j].held)
    ensures h in s.threads[j].held && h != s.threads[i].held[|s.threads[i].held| - 1]
  {
    if i != j {
      HeldIsNotGiven(s, i, j, s.threads[i].held[|s.threads[i].held| - 1]);
    } else {
      TopIsNotBelow(s, i);
    }
  }

  /** The two counts after thread `i` and the queue have changed. */
  lemma CountsAfter(s: State, s': State, i: nat, h: Handle)
    requires i < |s.threads| == |s'.threads|
    requires s'.threads == s.threads[i := s'.threads[i]]
    ensures Accounted(s', h) + ThreadRefs(s.threads[i])[h] + Chains(s.pool.queue)[h]
         == Accounted(s, h) + ThreadRefs(s'.threads[i])[h] + Chains(s'.pool.queue)[h]
    ensures Rooted(s', h) + LoanChains(s.threads[i])[h] + Chains(s.pool.queue)[h]
         == Rooted(s, h) + LoanChains(s'.threads[i])[h] + Chains(s'.pool.queue)[h]
  {
    Replaced(s.threads, i, s'.threads[i], h);
  }

  lemma QuietCounts(s: State, i: nat, p: Phase, budget: nat, h: Handle)
    requires i < |s.threads| && !s.threads[i].phase.Giving? && !p.Giving?
    ensures
      var s' := SetPhase(s, i, p).(spurious := budget);
      Accounted(s', h) == Accounted(s, h) && Rooted(s', h) == Rooted(s, h)
  {
    CountsAfter(s, SetPhase(s, i, p).(spurious := budget), i, h);
  }

  /** A thread that only changes how it waits. */
  lemma OwnedQuiet(s: State, i: nat, p: Phase, budget: nat)
    requires Owned(s)
    requires i < |s.threads| && !s.threads[i].phase.Giving? && !p.Giving?
    ensures Owned(SetPhase(s, i, p).(spurious := budget))
  {
    var s' := SetPhase(s, i, p).(spurious := budget);
    forall h
      ensures Accounted(s', h) == Accounted(s, h) && Rooted(s', h) == Rooted(s, h)
    {
      QuietCounts(s, i, p, budget, h);
    }
    forall j, h | 0 <= j < |s'.threads| && h in s'.threads[j].held
      ensures HeldOnce(s', h)
    {
      assert h in s.threads[j].held;
      assert HeldOnce(s, h);
    }
    forall j: nat
      ensures Settled(s', j)
    {
      assert Settled(s, j);
    }
  }

  /** The fresh wrapper is the only new reference; the taken handle's own is now the deleter's. */
  lemma TakeCounts(s: State, i: nat, h: Handle)
    requires i < |s.threads| && MayCheck(s.threads[i]) && s.pool.queue != []
    ensures
      var s' := ApplyCheck(s, i);
      var w := Wrap(s.pool.nextSerial, s.pool.queue[0]);
      && Accounted(s', h) == Accounted(s, h) + multiset{w}[h]
      && Rooted(s', h) == Rooted(s, h) + multiset{w}[h]
  {
    var s' := ApplyCheck(s, i);
    var t, t' := s.threads[i], s'.threads[i];
    var w := Wrap(s.pool.nextSerial, s.pool.queue[0]);
    ChainsSnoc(t.held, w);
    assert LoanChains(t') == LoanChains(t) + Chain(w);
    assert Chains(s.pool.queue) == Chain(s.pool.queue[0]) + Chains(s'.pool.queue);
    CountsAfter(s, s', i, h);
  }

  lemma TakeHeld(s: State, i: nat, j: nat, h: Handle)
    requires Owned(s)
    requires i < |s.threads| && MayCheck(s.threads[i]) && s.pool.queue != []
    requires j < |s.threads| && h in ApplyCheck(s, i).threads[j].held
    ensures HeldOnce(ApplyCheck(s, i), h)
  {
    var w := Wrap(s.pool.nextSerial, s.pool.queue[0]);
    assert w !in s.pool.refs;
    if h != w {
      assert h in s.threads[j].held;
      assert HeldOnce(s, h);
    }
  }

  lemma TakeSettled(s: State, i: nat, j: nat)
    requires Owned(s)
    requires i < |s.threads| && MayCheck(s.threads[i]) && s.pool.queue != []
    ensures Settled(ApplyCheck(s, i), j)
  {
    assert Settled(s, j);
    if j < |s.threads| && s.threads[j].phase.Giving? {
      TakeCounts(s, i, s.threads[j].phase.h);
    }
  }

  lemma OwnedTake(s: State, i: nat)
    requires Owned(s)
    requires i < |s.threads| && MayCheck(s.threads[i]) && s.pool.queue != []
    ensures Owned(ApplyCheck(s, i))
  {
    var s' := ApplyCheck(s, i);
    forall h
      ensures s'.pool.refs[h] == Accounted(s', h)
    {
      TakeCounts(s, i, h);
    }
    forall j, h | 0 <= j < |s'.threads| && h in s'.threads[j].held
      ensures HeldOnce(s', h)
    {
      TakeHeld(s, i, j, h);
    }
    forall j: nat
      ensures Settled(s', j)
    {
      TakeSettled(s, i, j);
    }
  }

  lemma ReturnCounts(s: State, i: nat, h: Handle)
    requires i < |s.threads| && MayRelease(s.threads[i])
    ensures Accounted(ApplyReturn(s, i), h) == Accounted(s, h)
    ensures Rooted(ApplyReturn(s, i), h) == Rooted(s, h)
  {
    var s' := ApplyReturn(s, i);
    assert OnLoan(s'.threads[i]) == OnLoan(s.threads[i]);
    CountsAfter(s, s', i, h);
  }

  lemma ReturnHeld(s: State, i: nat, j: nat, h: Handle)
    requires Owned(s)
    requires i < |s.threads| && MayRelease(s.threads[i])
    requires j < |s.threads| && h in ApplyReturn(s, i).threads[j].held
    ensures HeldOnce(ApplyReturn(s, i), h)
  {
    TopIsHeldOnce(s, i, j, h);
    assert HeldOnce(s, h);
  }

  lemma OwnedReturn(s: State, i: nat)
    requires Owned(s)
    requires i < |s.threads| && MayRelease(s.threads[i])
    ensures Owned(ApplyReturn(s, i))
  {
    var s' := ApplyReturn(s, i);
    forall h
      ensures s'.pool.refs[h] == Accounted(s', h)
    {
      ReturnCounts(s, i, h);
    }
    forall j, h | 0 <= j < |s'.threads| && h in s'.threads[j].held
      ensures HeldOnce(s', h)
    {
      ReturnHeld(s, i, j, h);
    }
    forall j: nat
      ensures Settled(s', j)
    {
      assert Settled(s, j);
      if j < |s'.threads| && s'.threads[j].phase.Giving? {
        ReturnCounts(s, i, s'.threads[j].phase.h);
      }
    }
    var w := s.threads[i].held[|s.threads[i].held| - 1];
    assert HeldOnce(s, w);
  }

  /** Unwinding destroys the only reference, so the deleter always runs and hands back the inner handle. */
  lemma UnwindFires(s: State, i: nat)
    requires Owned(s)
    requires i < |s.threads| && MayRelease(s.threads[i])
    ensures
      var w := s.threads[i].held[|s.threads[i].held| - 1];
      var s' := ApplyUnwind(s, i);
      && HeldOnce(s, w)
      && s'.pool == DropRef(s.pool, w)
      && s'.threads == s.threads[i := s.threads[i].(todo := s.threads[i].todo[1..],
                                                    held := s.threads[i].held[..|s.threads[i].held| - 1],
                                                    phase := Giving(w.inner, CopyArg))]
      && s'.returned == s.returned && s'.fired == s.fired + {w} && s'.fault == s.fault
  {
    var w := s.threads[i].held[|s.threads[i].held| - 1];
    assert HeldOnce(s, w);
  }

  lemma UnwindLoan(t: Thread, t': Thread, w: Handle)
    requires t.held != [] && w == t.held[|t.held| - 1] && w.Wrap? && t.phase == Idle
    requires t'.held == t.held[..|t.held| - 1] && t'.phase == Giving(w.inner, CopyArg)
    ensures LoanChains(t) == LoanChains(t') + multiset{w}
  {
    assert t.held == t'.held + [w];
    ChainsSnoc(t'.held, w);
    ChainsSnoc(t'.held, w.inner);
  }

  lemma UnwindCounts(s: State, i: nat, h: Handle)
    requires Owned(s)
    requires i < |s.threads| && MayRelease(s.threads[i])
    ensures
      var s' := ApplyUnwind(s, i);
      var w := s.threads[i].held[|s.threads[i].held| - 1];
      && Accounted(s', h) + multiset{w}[h] == Accounted(s, h)
      && Rooted(s', h) + multiset{w}[h] == Rooted(s, h)
  {
    UnwindFires(s, i);
    var s' := ApplyUnwind(s, i);
    var w := s.threads[i].held[|s.threads[i].held| - 1];
    UnwindLoan(s.threads[i], s'.threads[i], w);
    CountsAfter(s, s', i, h);
  }

  lemma UnwindHeld(s: State, i: nat, j: nat, h: Handle)
    requires Owned(s)
    requires i < |s.threads| && MayRelease(s.threads[i])
    requires j < |s.threads| && h in ApplyUnwind(s, i).threads[j].held
    ensures HeldOnce(ApplyUnwind(s, i), h)
  {
    UnwindFires(s, i);
    TopIsHeldOnce(s, i, j, h);
    assert HeldOnce(s, h);
  }

  lemma UnwindSettled(s: State, i: nat, j: nat)
    requires Owned(s)
    requires i < |s.threads| && MayRelease(s.threads[i])
    ensures Settled(ApplyUnwind(s, i), j)
  {
    UnwindFires(s, i);
    var w := s.threads[i].held[|s.threads[i].held| - 1];
    if j < |s.threads| && j != i && s.threads[j].phase.Giving? {
      HeldIsNotGiven(s, i, j, w);
      assert Settled(s, j);
      UnwindCounts(s, i, s.threads[j].phase.h);
    }
  }

  lemma OwnedUnwind(s: State, i: nat)
    requires Owned(s)
    requires i < |s.threads| && MayRelease(s.threads[i])
    ensures Owned(ApplyUnwind(s, i))
  {
    UnwindFires(s, i);
    var s' := ApplyUnwind(s, i);
    forall h
      ensures s'.pool.refs[h] == Accounted(s', h)
    {
      UnwindCounts(s, i, h);
    }
    forall j, h | 0 <= j < |s'.threads| && h in s'.threads[j].held
      ensures HeldOnce(s', h)
    {
      UnwindHeld(s, i, j, h);
    }
    forall j: nat
      ensures Settled(s', j)
    {
      UnwindSettled(s, i, j);
    }
  }

  // The five stages of giving a handle back

  /** References and roots each stage adds, and the one the last stages take away. */
  ghost function StageGain(stage: Stage): int {
    match stage
    case CopyArg => 1
    case PushQueue => 1
    case NotifyOne => 0
    case DropArg => -1
    case DropOwn => -1
  }

  ghost function NextPhase(h: Handle, stage: Stage): Phase {
    match stage
    case CopyArg => Giving(h, PushQueue)
    case PushQueue => Giving(h, NotifyOne)
    case NotifyOne => Giving(h, DropArg)
    case DropArg => Giving(h, DropOwn)
    case DropOwn => Idle
  }

  /** The last two stages never destroy the last reference, so neither a deleter runs nor a connection is lost. */
  lemma DropIsSafe(s: State, i: nat)
    requires Owned(s)
    requires i < |s.threads| && s.threads[i].phase.Giving? && s.threads[i].phase.stage in {DropArg, DropOwn}
    ensures s.pool.refs[s.threads[i].phase.h] >= 2
  {
    var h := s.threads[i].phase.h;
    assert Settled(s, i);
    TransitIsExtra(s.threads, i, h);
    assert s.pool.refs[h] == Accounted(s, h);
  }

  /** What a stage other than the notification does to the state. */
  lemma StageEffect(s: State, i: nat, wake: nat)
    requires Owned(s)
    requires i < |s.threads| && s.threads[i].phase.Giving? && s.threads[i].phase.stage != NotifyOne
    ensures
      var s' := ApplyAdvance(s, i, wake);
      var Giving(h, stage) := s.threads[i].phase;
      && s'.threads == s.threads[i := s.threads[i].(phase := s'.threads[i].phase)]
      && s'.threads[i].phase == NextPhase(h, stage)
      && s'.pool.queue == (if stage == PushQueue then s.pool.queue + [h] else s.pool.queue)
      && s'.pool.nextSerial == s.pool.nextSerial
      && (forall g :: s'.pool.refs[g] == if g == h then s.pool.refs[h] + StageGain(stage) else s.pool.refs[g])
      && s'.returned == s.returned && s'.fired == s.fired && s'.fault == s.fault && s'.spurious == s.spurious
  {
    if s.threads[i].phase.stage in {DropArg, DropOwn} {
      DropIsSafe(s, i);
    }
  }

  lemma StageTransit(h: Handle, stage: Stage, g: Handle)
    ensures InTransit(NextPhase(h, stage))[g] ==
      InTransit(Giving(h, stage))[g] + (if g == h then StageGain(stage) else 0)
  {
  }

  /** The connection being given back moves from the thread to the queue when it is pushed. */
  lemma StageLoan(t: Thread, queue: seq<Handle>)
    requires t.phase.Giving?
    ensures t.phase.stage == PushQueue ==>
      LoanChains(t) + Chains(queue) ==
        LoanChains(t.(phase := NextPhase(t.phase.h, PushQueue))) + Chains(queue + [t.phase.h])
    ensures t.phase.stage != PushQueue ==> LoanChains(t.(phase := NextPhase(t.phase.h, t.phase.stage))) == LoanChains(t)
  {
    if t.phase.stage == PushQueue {
      ChainsSnoc(queue, t.phase.h);
      ChainsSnoc(t.held, t.phase.h);
    }
  }

  lemma StageCounts(s: State, i: nat, wake: nat, g: Handle)
    requires Owned(s)
    requires i < |s.threads| && s.threads[i].phase.Giving? && s.threads[i].phase.stage != NotifyOne
    ensures
      var s' := ApplyAdvance(s, i, wake);
      var Giving(h, stage) := s.threads[i].phase;
      && Accounted(s', g) == Accounted(s, g) + (if g == h then StageGain(stage) else 0)
      && Rooted(s', g) == Rooted(s, g)
  {
    StageEffect(s, i, wake);
    var s' := ApplyAdvance(s, i, wake);
    CountsAfter(s, s', i, g);
    var t := s.threads[i];
    StageLoan(t, s.pool.queue);
    StageTransit(t.phase.h, t.phase.stage, g);
    assert (LoanChains(t) + Chains(s.pool.queue))[g] == (LoanChains(s'.threads[i]) + Chains(s'.pool.queue))[g];
  }

  lemma StageHeld(s: State, i: nat, wake: nat, j: nat, g: Handle)
    requires Owned(s)
    requires i < |s.threads| && s.threads[i].phase.Giving? && s.threads[i].phase.stage != NotifyOne
    requires j < |s.threads| && g in s.threads[j].held
    ensures HeldOnce(ApplyAdvance(s, i, wake), g)
  {
    StageEffect(s, i, wake);
    HeldIsNotGiven(s, j, i, g);
    assert HeldOnce(s, g);
  }

  lemma StageSettled(s: State, i: nat, wake: nat, j: nat)
    requires Owned(s)
    requires i < |s.threads| && s.threads[i].phase.Giving? && s.threads[i].phase.stage != NotifyOne
    ensures Settled(ApplyAdvance(s, i, wake), j)
  {
    StageEffect(s, i, wake);
    var s' := ApplyAdvance(s, i, wake);
    if j < |s'.threads| && s'.threads[j].phase.Giving? {
      var h := s'.threads[j].phase.h;
      StageCounts(s, i, wake, h);
      assert Settled(s, j);
      if j == i && s'.threads[j].phase.stage == NotifyOne {
        ChainsSnoc(s.pool.queue, h);
        ChainHasSelf(h);
      }
    }
  }

  lemma OwnedStage(s: State, i: nat, wake: nat)
    requires Owned(s)
    requires i < |s.threads| && s.threads[i].phase.Giving? && s.threads[i].phase.stage != NotifyOne
    ensures Owned(ApplyAdvance(s, i, wake))
  {
    StageEffect(s, i, wake);
    var s' := ApplyAdvance(s, i, wake);
    forall g
      ensures s'.pool.refs[g] == Accounted(s', g)
    {
      StageCounts(s, i, wake, g);
      assert s.pool.refs[g] == Accounted(s, g);
    }
    forall j, g | 0 <= j < |s'.threads| && g in s'.threads[j].held
      ensures HeldOnce(s', g)
    {
      assert g in s.threads[j].held;
      StageHeld(s, i, wake, j, g);
    }
    forall j: nat
      ensures Settled(s', j)
    {
      StageSettled(s, i, wake, j);
    }
    GivenIsReferenced(s, i);
  }

  lemma GivenIsReferenced(s: State, i: nat)
    requires Owned(s)
    requires i < |s.threads| && s.threads[i].phase.Giving?
    ensures s.threads[i].phase.h in s.pool.refs
  {
    GivingIsReferenced(s.threads[i]);
    BagAtLeast(ThreadRefs, s.threads, i);
    assert s.pool.refs[s.threads[i].phase.h] == Accounted(s, s.threads[i].phase.h);
  }

  /** Notifying moves no reference. */
  lemma NotifyCounts(s: State, i: nat, h: Handle)
    requires i < |s.threads| && s.threads[i].phase.Giving? && s.threads[i].phase.stage == NotifyOne
    ensures
      var s' := SetPhase(s, i, Giving(s.threads[i].phase.h, DropArg));
      Accounted(s', h) == Accounted(s, h) && Rooted(s', h) == Rooted(s, h)
  {
    CountsAfter(s, SetPhase(s, i, Giving(s.threads[i].phase.h, DropArg)), i, h);
  }

  lemma OwnedNotify(s: State, i: nat)
    requires Owned(s)
    requires i < |s.threads| && s.threads[i].phase.Giving? && s.threads[i].phase.stage == NotifyOne
    ensures Owned(SetPhase(s, i, Giving(s.threads[i].phase.h, DropArg)))
  {
    var s' := SetPhase(s, i, Giving(s.threads[i].phase.h, DropArg));
    forall h
      ensures s'.pool.refs[h] == Accounted(s', h)
    {
      NotifyCounts(s, i, h);
    }
    forall j, h | 0 <= j < |s'.threads| && h in s'.threads[j].held
      ensures HeldOnce(s', h)
    {
      assert h in s.threads[j].held;
      assert HeldOnce(s, h);
    }
    forall j: nat
      ensures Settled(s', j)
    {
      assert Settled(s, j);
      if j < |s.threads| && s.threads[j].phase.Giving? {
        NotifyCounts(s, i, s.threads[j].phase.h);
      }
    }
  }

  lemma OwnedCheck(s: State, i: nat)
    requires Owned(s) && Enabled(s, Check(i))
    ensures Owned(ApplyCheck(s, i))
  {
    if s.pool.queue == [] {
      OwnedQuiet(s, i, Waiting, s.spurious);
      assert ApplyCheck(s, i) == SetPhase(s, i, Waiting).(spurious := s.spurious);
    } else {
      OwnedTake(s, i);
    }
  }

  lemma OwnedAdvance(s: State, i: nat, wake: nat)
    requires Owned(s) && Enabled(s, Advance(i, wake))
    ensures Owned(ApplyAdvance(s, i, wake))
  {
    if s.threads[i].phase.stage != NotifyOne {
      OwnedStage(s, i, wake);
    } else {
      OwnedNotify(s, i);
      var s' := SetPhase(s, i, Giving(s.threads[i].phase.h, DropArg));
      if IsWaiting(s, wake) {
        OwnedQuiet(s', wake, Woken, s.spurious);
        assert ApplyAdvance(s, i, wake) == SetPhase(s', wake, Woken).(spurious := s.spurious);
      }
    }
  }

  /** Every step keeps the counts exact and every loan unique. */
  lemma OwnedStep(s: State, step: Step)
    requires Owned(s) && Enabled(s, step)
    ensures Owned(Apply(s, step))
  {
    hide Owned;
    match step
    case Check(i) => OwnedCheck(s, i);
    case Return(i) => OwnedReturn(s, i);
    case Unwind(i) => OwnedUnwind(s, i);
    case Advance(i, wake) => OwnedAdvance(s, i, wake);
    case Spurious(i) => OwnedQuiet(s, i, Woken, s.spurious - 1);
  }
}
