/**
 What the pool conserves over a whole run: every physical connection is in exactly one place,
 queue and loans together make up the pool, and the wrappers around the connections grow by one
 for every explicit return.
*/
module PoolAccounts {
  import opened PoolHandles
  import opened Sums
  import opened PoolProtocol
  import opened PoolOwnership

  ghost function LoanSum(f: Handle -> nat): Thread -> nat {
    (t: Thread) => Sum(f, OnLoan(t))
  }

  /** A quantity added up over the queue and over everything on loan. */
  ghost function Total(f: Handle -> nat, s: State): nat {
    Sum(f, s.pool.queue) + Sum(LoanSum(f), s.threads)
  }

  function One(h: Handle): nat {
    1
  }

  ghost function AtBase(c: nat): Handle -> nat {
    (h: Handle) => if Base(h) == c then 1 else 0
  }

  ghost function HeldCount(t: Thread): nat {
    |t.held|
  }

  lemma TotalAfter(f: Handle -> nat, s: State, s': State, i: nat)
    requires i < |s.threads| == |s'.threads|
    requires s'.threads == s.threads[i := s'.threads[i]]
    ensures Total(f, s') + Sum(f, OnLoan(s.threads[i])) + Sum(f, s.pool.queue)
         == Total(f, s) + Sum(f, OnLoan(s'.threads[i])) + Sum(f, s'.pool.queue)
  {
    SumUpdate(LoanSum(f), s.threads, i, s'.threads[i]);
  }

  lemma TotalTake(f: Handle -> nat, s: State, i: nat)
    requires i < |s.threads| && MayCheck(s.threads[i]) && s.pool.queue != []
    ensures
      var x := s.pool.queue[0];
      Total(f, ApplyCheck(s, i)) + f(x) == Total(f, s) + f(Wrap(s.pool.nextSerial, x))
  {
    var s' := ApplyCheck(s, i);
    SumSnoc(f, s.threads[i].held, Wrap(s.pool.nextSerial, s.pool.queue[0]));
    TotalAfter(f, s, s', i);
  }

  lemma TotalUnwind(f: Handle -> nat, s: State, i: nat)
    requires Owned(s)
    requires i < |s.threads| && MayRelease(s.threads[i])
    ensures
      var w := s.threads[i].held[|s.threads[i].held| - 1];
      w.Wrap? && Total(f, ApplyUnwind(s, i)) + f(w) == Total(f, s) + f(w.inner)
  {
    UnwindFires(s, i);
    var s' := ApplyUnwind(s, i);
    var t, t' := s.threads[i], s'.threads[i];
    var w := t.held[|t.held| - 1];
    assert t.held == t'.held + [w];
    SumSnoc(f, t'.held, w);
    SumSnoc(f, t'.held, w.inner);
    TotalAfter(f, s, s', i);
  }

  lemma TotalReturn(f: Handle -> nat, s: State, i: nat)
    requires i < |s.threads| && MayRelease(s.threads[i])
    ensures Total(f, ApplyReturn(s, i)) == Total(f, s)
  {
    var s' := ApplyReturn(s, i);
    assert OnLoan(s'.threads[i]) == OnLoan(s.threads[i]);
    TotalAfter(f, s, s', i);
  }

  lemma TotalPhase(f: Handle -> nat, s: State, i: nat, p: Phase)
    requires i < |s.threads| && OnLoan(s.threads[i].(phase := p)) == OnLoan(s.threads[i])
    ensures Total(f, SetPhase(s, i, p)) == Total(f, s)
  {
    TotalAfter(f, s, SetPhase(s, i, p), i);
  }

  lemma TotalAdvance(f: Handle -> nat, s: State, i: nat, wake: nat)
    requires Owned(s)
    requires i < |s.threads| && s.threads[i].phase.Giving?
    ensures Total(f, ApplyAdvance(s, i, wake)) == Total(f, s)
  {
    var Giving(h, stage) := s.threads[i].phase;
    if stage == NotifyOne {
      TotalPhase(f, s, i, Giving(h, DropArg));
      var s' := SetPhase(s, i, Giving(h, DropArg));
      if IsWaiting(s, wake) {
        TotalPhase(f, s', wake, Woken);
      }
    } else {
      StageEffect(s, i, wake);
      SumSnoc(f, s.threads[i].held, h);
      SumSnoc(f, s.pool.queue, h);
      TotalAfter(f, s, ApplyAdvance(s, i, wake), i);
    }
  }

  lemma TotalCheck(f: Handle -> nat, s: State, i: nat)
    requires i < |s.threads| && MayCheck(s.threads[i])
    ensures s.pool.queue == [] ==> Total(f, ApplyCheck(s, i)) == Total(f, s)
    ensures s.pool.queue != [] ==>
      Total(f, ApplyCheck(s, i)) + f(s.pool.queue[0]) == Total(f, s) + f(Wrap(s.pool.nextSerial, s.pool.queue[0]))
  {
    if s.pool.queue == [] {
      TotalPhase(f, s, i, Waiting);
    } else {
      TotalTake(f, s, i);
    }
  }

  lemma TotalSpurious(f: Handle -> nat, s: State, i: nat)
    requires Enabled(s, Spurious(i))
    ensures Total(f, Apply(s, Spurious(i))) == Total(f, s)
  {
    TotalPhase(f, s, i, Woken);
  }

  /** A quantity that wrapping does not change is conserved. */
  lemma SteadyStep(f: Handle -> nat, s: State, step: Step)
    requires Owned(s) && Enabled(s, step)
    requires forall k, h :: f(Wrap(k, h)) == f(h)
    ensures Total(f, Apply(s, step)) == Total(f, s)
  {
    match step
    case Check(i) => TotalCheck(f, s, i);
    case Return(i) => TotalReturn(f, s, i);
    case Unwind(i) => TotalUnwind(f, s, i);
    case Advance(i, wake) => TotalAdvance(f, s, i, wake);
    case Spurious(i) => TotalSpurious(f, s, i);
  }

  /** Borrows still open, over all threads. */
  ghost function Open(s: State): nat {
    Sum(HeldCount, s.threads)
  }

  lemma OpenPhase(s: State, i: nat, p: Phase)
    requires i < |s.threads|
    ensures Open(SetPhase(s, i, p)) == Open(s)
  {
    SumUpdate(HeldCount, s.threads, i, s.threads[i].(phase := p));
  }

  lemma OpenAdvance(s: State, i: nat, wake: nat)
    requires Owned(s)
    requires i < |s.threads| && s.threads[i].phase.Giving?
    ensures Open(ApplyAdvance(s, i, wake)) == Open(s)
    ensures ApplyAdvance(s, i, wake).returned == s.returned
  {
    var Giving(h, stage) := s.threads[i].phase;
    if stage == NotifyOne {
      OpenPhase(s, i, Giving(h, DropArg));
      var s' := SetPhase(s, i, Giving(h, DropArg));
      if IsWaiting(s, wake) {
        OpenPhase(s', wake, Woken);
      }
    } else {
      StageEffect(s, i, wake);
      SumUpdate(HeldCount, s.threads, i, ApplyAdvance(s, i, wake).threads[i]);
    }
  }

  lemma OpenCheck(s: State, i: nat)
    requires i < |s.threads| && MayCheck(s.threads[i])
    ensures Open(ApplyCheck(s, i)) == Open(s) + if s.pool.queue == [] then 0 else 1
  {
    SumUpdate(HeldCount, s.threads, i, ApplyCheck(s, i).threads[i]);
  }

  lemma OpenRelease(s: State, i: nat)
    requires Owned(s)
    requires i < |s.threads| && MayRelease(s.threads[i])
    ensures Open(ApplyReturn(s, i)) + 1 == Open(s)
    ensures |ApplyReturn(s, i).returned| == |s.returned| + 1
    ensures Open(ApplyUnwind(s, i)) + 1 == Open(s)
    ensures ApplyUnwind(s, i).returned == s.returned
  {
    UnwindFires(s, i);
    SumUpdate(HeldCount, s.threads, i, ApplyUnwind(s, i).threads[i]);
    SumUpdate(HeldCount, s.threads, i, ApplyReturn(s, i).threads[i]);
  }

  /** Layers and open borrows: every wrapper is one that is still borrowed or was explicitly returned. */
  ghost predicate LayersExact(s: State) {
    Total(Layers, s) == |s.returned| + Open(s)
  }

  lemma LayersStep(s: State, step: Step)
    requires Owned(s) && LayersExact(s) && Enabled(s, step)
    ensures LayersExact(Apply(s, step))
  {
    match step
    case Check(i) =>
      TotalCheck(Layers, s, i);
      OpenCheck(s, i);
    case Return(i) =>
      TotalReturn(Layers, s, i);
      OpenRelease(s, i);
    case Unwind(i) =>
      TotalUnwind(Layers, s, i);
      OpenRelease(s, i);
    case Advance(i, wake) =>
      TotalAdvance(Layers, s, i, wake);
      OpenAdvance(s, i, wake);
    case Spurious(i) =>
      TotalSpurious(Layers, s, i);
      OpenPhase(s, i, Woken);
  }

  ghost predicate Conserved(s: State, poolSize: nat) {
    && Total(One, s) == poolSize
    && (forall c: nat :: Total(AtBase(c), s) == if c < poolSize then 1 else 0)
    && LayersExact(s)
  }

  lemma InPlaceStep(s: State, step: Step, poolSize: nat, c: nat)
    requires Owned(s) && Conserved(s, poolSize) && Enabled(s, step)
    ensures Total(AtBase(c), Apply(s, step)) == if c < poolSize then 1 else 0
  {
    SteadyStep(AtBase(c), s, step);
  }

  lemma ConservedStep(s: State, step: Step, poolSize: nat)
    requires Owned(s) && Conserved(s, poolSize) && Enabled(s, step)
    ensures Conserved(Apply(s, step), poolSize)
  {
    SteadyStep(One, s, step);
    LayersStep(s, step);
    forall c: nat
      ensures Total(AtBase(c), Apply(s, step)) == if c < poolSize then 1 else 0
    {
      InPlaceStep(s, step, poolSize, c);
    }
  }

  // The initial state

  lemma {:induction false} RawQueueSums(n: nat, c: nat)
    ensures Sum(One, RawQueue(n)) == n
    ensures Sum(Layers, RawQueue(n)) == 0
    ensures Sum(AtBase(c), RawQueue(n)) == if c < n then 1 else 0
  {
    if n > 0 {
      RawQueueSums(n - 1, c);
      SumSnoc(One, RawQueue(n - 1), Raw(n - 1));
      SumSnoc(Layers, RawQueue(n - 1), Raw(n - 1));
      SumSnoc(AtBase(c), RawQueue(n - 1), Raw(n - 1));
    }
  }

  lemma {:induction false} RawQueueHasNoWrapper(n: nat, h: Handle)
    requires h in RawQueue(n)
    ensures h.Raw?
  {
    if n > 0 && h != Raw(n - 1) {
      RawQueueHasNoWrapper(n - 1, h);
    }
  }

  lemma IdleThreadsHaveNoRefs(ts: seq<Thread>, h: Handle)
    requires forall t :: t in ts ==> t.held == [] && t.phase == Idle
    ensures Bag(ThreadRefs, ts)[h] == 0
  {
    forall t | t in ts
      ensures ThreadRefs(t) == multiset{}
    {
      assert OnLoan(t) == [];
    }
    BagEmpty(ThreadRefs, ts);
  }

  lemma {:induction false} RawChains(n: nat)
    ensures Chains(RawQueue(n)) == multiset(RawQueue(n))
  {
    if n > 0 {
      RawChains(n - 1);
      ChainsSnoc(RawQueue(n - 1), Raw(n - 1));
    }
  }

  lemma InitialRefs(s: State, poolSize: nat, h: Handle)
    requires Initial(s, poolSize)
    ensures s.pool.refs[h] == Accounted(s, h)
  {
    IdleThreadsHaveNoRefs(s.threads, h);
    RawChains(poolSize);
  }

  lemma InitialHandlesAreRaw(s: State, poolSize: nat, h: Handle)
    requires Initial(s, poolSize) && h in s.pool.refs
    ensures h.Raw?
  {
    RawQueueHasNoWrapper(poolSize, h);
  }

  lemma InitialOwned(s: State, poolSize: nat)
    requires Initial(s, poolSize)
    ensures Owned(s)
  {
    forall h
      ensures s.pool.refs[h] == Accounted(s, h)
    {
      InitialRefs(s, poolSize, h);
    }
    forall h | h in s.pool.refs
      ensures h.Raw?
    {
      InitialHandlesAreRaw(s, poolSize, h);
    }
    InitialIdle(s, poolSize);
  }

  lemma InitialIdle(s: State, poolSize: nat)
    requires Initial(s, poolSize)
    ensures HeldOk(s) && forall i :: Settled(s, i)
  {
    forall i | 0 <= i < |s.threads|
      ensures s.threads[i].held == [] && s.threads[i].phase == Idle
    {
      assert s.threads[i] in s.threads;
    }
  }

  lemma InitialTotal(f: Handle -> nat, s: State, poolSize: nat)
    requires Initial(s, poolSize)
    ensures Total(f, s) == Sum(f, RawQueue(poolSize))
  {
    SumZero(LoanSum(f), s.threads);
  }

  lemma InitialHolds(s: State, poolSize: nat)
    requires Initial(s, poolSize)
    ensures Owned(s) && Conserved(s, poolSize)
  {
    InitialOwned(s, poolSize);
    InitialTotal(One, s, poolSize);
    InitialTotal(Layers, s, poolSize);
    RawQueueSums(poolSize, 0);
    SumZero(HeldCount, s.threads);
    forall c: nat
      ensures Total(AtBase(c), s) == if c < poolSize then 1 else 0
    {
      InitialTotal(AtBase(c), s, poolSize);
      RawQueueSums(poolSize, c);
    }
  }

  // Main results over runs

  lemma {:induction false} RunKeeps(s: State, steps: seq<Step>, poolSize: nat)
    requires Owned(s) && Conserved(s, poolSize) && CanRun(s, steps)
    ensures Owned(Run(s, steps)) && Conserved(Run(s, steps), poolSize)
    decreases |steps|
  {
    if steps != [] {
      OwnedStep(s, steps[0]);
      ConservedStep(s, steps[0], poolSize);
      RunKeeps(Apply(s, steps[0]), steps[1..], poolSize);
    }
  }

  /** Where a connection is: a position in the queue, or a position among a thread's loans. */
  datatype Place = InQueue(k: nat) | WithThread(i: nat, k: nat)

  ghost predicate IsAt(s: State, c: nat, p: Place) {
    match p
    case InQueue(k) => k < |s.pool.queue| && Base(s.pool.queue[k]) == c
    case WithThread(i, k) => i < |s.threads| && k < |OnLoan(s.threads[i])| && Base(OnLoan(s.threads[i])[k]) == c
  }

  lemma {:induction false} TwoPlacesCountTwice(hs: seq<Handle>, c: nat, j: nat, k: nat)
    requires j < k < |hs| && Base(hs[j]) == c && Base(hs[k]) == c
    ensures Sum(AtBase(c), hs) >= 2
  {
    if j == 0 {
      SumAtLeast(AtBase(c), hs[1..], k - 1);
    } else {
      TwoPlacesCountTwice(hs[1..], c, j - 1, k - 1);
    }
  }

  lemma {:induction false} TwoThreadsCountTwice(f: Thread -> nat, ts: seq<Thread>, i: nat, j: nat)
    requires i < j < |ts| && f(ts[i]) >= 1 && f(ts[j]) >= 1
    ensures Sum(f, ts) >= 2
  {
    if i == 0 {
      SumAtLeast(f, ts[1..], j - 1);
    } else {
      TwoThreadsCountTwice(f, ts[1..], i - 1, j - 1);
    }
  }

  lemma AtMostOnePlace(s: State, c: nat, p: Place, q: Place)
    requires Total(AtBase(c), s) == 1 && IsAt(s, c, p) && IsAt(s, c, q)
    ensures p == q
  {
    var f := AtBase(c);
    match (p, q)
    case (InQueue(j), InQueue(k)) =>
      if j < k { TwoPlacesCountTwice(s.pool.queue, c, j, k); }
      if k < j { TwoPlacesCountTwice(s.pool.queue, c, k, j); }
    case (WithThread(i, j), WithThread(i', k)) =>
      SumAtLeast(f, OnLoan(s.threads[i]), j);
      SumAtLeast(f, OnLoan(s.threads[i']), k);
      SumAtLeast(LoanSum(f), s.threads, i);
      if i < i' { TwoThreadsCountTwice(LoanSum(f), s.threads, i, i'); }
      if i' < i { TwoThreadsCountTwice(LoanSum(f), s.threads, i', i); }
      if i == i' && j < k { TwoPlacesCountTwice(OnLoan(s.threads[i]), c, j, k); }
      if i == i' && k < j { TwoPlacesCountTwice(OnLoan(s.threads[i]), c, k, j); }
    case (InQueue(j), WithThread(i, k)) =>
      SumAtLeast(f, s.pool.queue, j);
      SumAtLeast(f, OnLoan(s.threads[i]), k);
      SumAtLeast(LoanSum(f), s.threads, i);
    case (WithThread(i, k), InQueue(j)) =>
      SumAtLeast(f, s.pool.queue, j);
      SumAtLeast(f, OnLoan(s.threads[i]), k);
      SumAtLeast(LoanSum(f), s.threads, i);
  }

  lemma SomePlace(s: State, c: nat) returns (p: Place)
    requires Total(AtBase(c), s) >= 1
    ensures IsAt(s, c, p)
  {
    var f := AtBase(c);
    if Sum(f, s.pool.queue) > 0 {
      var k := SumWitness(f, s.pool.queue);
      p := InQueue(k);
    } else {
      var i := SumWitness(LoanSum(f), s.threads);
      var k := SumWitness(f, OnLoan(s.threads[i]));
      p := WithThread(i, k);
    }
  }

  /**
   In every interleaving, however each borrow ends, a connection of the pool is in exactly one
   place: at one position of the queue or on loan to one borrower. Nothing else is anywhere.
  */
  lemma EachConnectionInOnePlace(s0: State, steps: seq<Step>, poolSize: nat, c: nat)
    requires Initial(s0, poolSize) && CanRun(s0, steps)
    ensures c < poolSize ==> exists p :: IsAt(Run(s0, steps), c, p) && forall q :: IsAt(Run(s0, steps), c, q) ==> q == p
    ensures c >= poolSize ==> forall p :: !IsAt(Run(s0, steps), c, p)
  {
    InitialHolds(s0, poolSize);
    RunKeeps(s0, steps, poolSize);
    var s := Run(s0, steps);
    assert Total(AtBase(c), s) == if c < poolSize then 1 else 0;
    if c < poolSize {
      var p := SomePlace(s, c);
      forall q | IsAt(s, c, q)
        ensures q == p
      {
        AtMostOnePlace(s, c, p, q);
      }
    } else {
      forall p
        ensures !IsAt(s, c, p)
      {
        if IsAt(s, c, p) {
          match p
          case InQueue(k) => SumAtLeast(AtBase(c), s.pool.queue, k);
          case WithThread(i, k) =>
            SumAtLeast(AtBase(c), OnLoan(s.threads[i]), k);
            SumAtLeast(LoanSum(AtBase(c)), s.threads, i);
        }
      }
    }
  }

  lemma {:induction false} SumOneIsLength(hs: seq<Handle>)
    ensures Sum(One, hs) == |hs|
  {
    if hs != [] {
      SumOneIsLength(hs[1..]);
    }
  }

  ghost function LoanCount(t: Thread): nat {
    |OnLoan(t)|
  }

  lemma {:induction false} LoanSumIsCount(ts: seq<Thread>)
    ensures Sum(LoanSum(One), ts) == Sum(LoanCount, ts)
  {
    if ts != [] {
      SumOneIsLength(OnLoan(ts[0]));
      LoanSumIsCount(ts[1..]);
    }
  }

  lemma QueuePlusLoans(s: State)
    ensures Total(One, s) == |s.pool.queue| + Sum(LoanCount, s.threads)
  {
    SumOneIsLength(s.pool.queue);
    LoanSumIsCount(s.threads);
  }

  /**
   Queue and loans always add up to the pool, no count is ever driven to zero where it must not be,
   and no deleter runs for a handle that was explicitly returned.
  */
  lemma ReturnedExactlyOnce(s0: State, steps: seq<Step>, poolSize: nat)
    requires Initial(s0, poolSize) && CanRun(s0, steps)
    ensures |Run(s0, steps).pool.queue| + Sum(LoanCount, Run(s0, steps).threads) == poolSize
    ensures Run(s0, steps).returned !! Run(s0, steps).fired
    ensures !Run(s0, steps).fault
  {
    InitialHolds(s0, poolSize);
    RunKeeps(s0, steps, poolSize);
    QueuePlusLoans(Run(s0, steps));
  }

  lemma NothingOnLoan(s: State)
    requires forall t :: t in s.threads ==> OnLoan(t) == []
    ensures Total(Layers, s) == Sum(Layers, s.pool.queue) && Open(s) == 0
  {
    forall t | t in s.threads
      ensures LoanSum(Layers)(t) == 0 && HeldCount(t) == 0
    {
      assert OnLoan(t) == [];
    }
    SumZero(LoanSum(Layers), s.threads);
    SumZero(HeldCount, s.threads);
  }

  /**
   The wrappers around the pooled connections are never shed by an explicit return: once all
   borrows are over, the queue carries as many layers as there were explicit returns since start.
   Only borrows that unwind leave the depth as it was.
  */
  lemma LayersGrowWithReturns(s0: State, steps: seq<Step>, poolSize: nat)
    requires Initial(s0, poolSize) && CanRun(s0, steps)
    requires forall t :: t in Run(s0, steps).threads ==> OnLoan(t) == []
    ensures Sum(Layers, Run(s0, steps).pool.queue) == |Run(s0, steps).returned|
  {
    InitialHolds(s0, poolSize);
    RunKeeps(s0, steps, poolSize);
    NothingOnLoan(Run(s0, steps));
  }
}
