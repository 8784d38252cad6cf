/**
 The exact size a pool must have to rule out deadlock, for every workload: a smaller pool can
 always be driven into a state where each thread waits with what it already holds.
*/
module PoolDeadlock {
  import opened PoolHandles
  import opened Sums
  import opened PoolProtocol
  import opened PoolOwnership
  import opened PoolLiveness

  // Programs

  /** Started with `depth` connections held, the program comes to a borrow while it holds `d`. */
  predicate Reaches(todo: seq<Op>, depth: nat, d: nat) {
    && todo != []
    && if todo[0] == Acquire then depth == d || Reaches(todo[1..], depth + 1, d)
       else depth > 0 && Reaches(todo[1..], depth - 1, d)
  }

  /** On its way to a deeper borrow a program comes to one at every depth in between. */
  lemma {:induction false} ReachesLess(todo: seq<Op>, depth: nat, d: nat, deeper: nat)
    requires depth <= d <= deeper && Reaches(todo, depth, deeper)
    ensures Reaches(todo, depth, d)
  {
    if todo[0] == Release {
      ReachesLess(todo[1..], depth - 1, d, deeper);
    } else if depth < d {
      ReachesLess(todo[1..], depth + 1, d, deeper);
    }
  }

  /** The most connections a program holds at once. */
  function Deepest(todo: seq<Op>, depth: nat): (d: nat)
    ensures d >= depth
  {
    if todo == [] then depth
    else if todo[0] == Acquire then Deepest(todo[1..], depth + 1)
    else if depth == 0 then 0
    else var d := Deepest(todo[1..], depth - 1); if d < depth then depth else d
  }

  /** The thread's bound is the one its program needs. */
  predicate Tight(t: Thread) {
    t.cap == Deepest(t.todo, 0)
  }

  lemma {:induction false} DeepestIsReached(todo: seq<Op>, depth: nat, cap: nat)
    requires ProgramOk(todo, depth, cap) && Deepest(todo, depth) > depth
    ensures Reaches(todo, depth, Deepest(todo, depth) - 1)
  {
    if todo[0] == Release {
      DeepestIsReached(todo[1..], depth - 1, cap);
    } else if Deepest(todo, depth) > depth + 1 {
      DeepestIsReached(todo[1..], depth + 1, cap);
    }
  }

  /** A tight thread can be left holding any number up to its nesting and wanting one more. */
  lemma TightReaches(t: Thread, d: nat)
    requires Tight(t) && ProgramOk(t.todo, 0, t.cap) && t.todo != [] && d <= Nesting(t)
    ensures Reaches(t.todo, 0, d)
  {
    DeepestIsReached(t.todo, 0, t.cap);
    ReachesLess(t.todo, 0, d, t.cap - 1);
  }

  // Running one thread alone

  ghost predicate Goes(s: State, steps: seq<Step>, s': State) {
    CanRun(s, steps) && Run(s, steps) == s'
  }

  lemma GoesCons(s: State, step: Step, steps: seq<Step>, s': State)
    requires Enabled(s, step) && Goes(Apply(s, step), steps, s')
    ensures Goes(s, [step] + steps, s')
  {
    assert ([step] + steps)[1..] == steps;
  }

  lemma GoesHead(s: State, steps: seq<Step>, s': State)
    requires steps != [] && Goes(s, steps, s')
    ensures Enabled(s, steps[0]) && Goes(Apply(s, steps[0]), steps[1..], s')
  {
  }

  lemma {:induction false} GoesConcat(s: State, a: seq<Step>, m: State, b: seq<Step>, s': State)
    requires Goes(s, a, m) && Goes(m, b, s')
    ensures Goes(s, a + b, s')
    decreases |a|
  {
    if a == [] {
      assert a + b == b;
    } else {
      GoesHead(s, a, m);
      GoesConcat(Apply(s, a[0]), a[1..], m, b, s');
      GoesCons(s, a[0], a[1..] + b, s');
      assert [a[0]] + (a[1..] + b) == a + b;
    }
  }

  function AtRest(t: Thread): Thread {
    t.(phase := Idle)
  }

  /** One stage of giving back, while nobody waits. */
  lemma QuietStage(s: State, i: nat)
    requires Owned(s) && !SomeWaiting(s)
    requires i < |s.threads| && s.threads[i].phase.Giving?
    ensures Enabled(s, Advance(i, 0))
    ensures
      var s' := ApplyAdvance(s, i, 0);
      var Giving(h, stage) := s.threads[i].phase;
      && Owned(s') && !SomeWaiting(s')
      && s'.threads == s.threads[i := s.threads[i].(phase := NextPhase(h, stage))]
      && |s'.pool.queue| == |s.pool.queue| + if stage == PushQueue then 1 else 0
  {
    OwnedAdvance(s, i, 0);
    assert !IsWaiting(s, 0);
    if s.threads[i].phase.stage != NotifyOne {
      StageEffect(s, i, 0);
    }
    var s' := ApplyAdvance(s, i, 0);
    forall j: nat
      ensures !IsWaiting(s', j)
    {
      assert !IsWaiting(s, j);
    }
  }

  lemma StageGoes(s: State, i: nat, rest: seq<Step>, s': State)
    requires Enabled(s, Advance(i, 0)) && Goes(ApplyAdvance(s, i, 0), rest, s')
    ensures Goes(s, [Advance(i, 0)] + rest, s')
  {
    GoesCons(s, Advance(i, 0), rest, s');
  }

  lemma FewerStages(h: Handle, stage: Stage)
    ensures NextPhase(h, stage) == Idle <==> stage == DropOwn
    ensures NextPhase(h, stage).Giving? ==> PhaseWeight(NextPhase(h, stage)) < PhaseWeight(Giving(h, stage))
    ensures NextPhase(h, stage).Giving? ==> (NextPhase(h, stage).stage in {CopyArg, PushQueue} <==> stage == CopyArg)
  {
  }

  /** How many pushes are still to come. */
  function Pushes(p: Phase): nat {
    if p.Giving? && p.stage in {CopyArg, PushQueue} then 1 else 0
  }

  /** The thread goes through the remaining stages. */
  lemma FinishGiving(s: State, i: nat) returns (steps: seq<Step>, s': State)
    requires Owned(s) && !SomeWaiting(s)
    requires i < |s.threads| && s.threads[i].phase.Giving?
    ensures Goes(s, steps, s') && Owned(s') && !SomeWaiting(s')
    ensures s'.threads == s.threads[i := AtRest(s.threads[i])]
    ensures |s'.pool.queue| == |s.pool.queue| + Pushes(s.threads[i].phase)
    decreases PhaseWeight(s.threads[i].phase)
  {
    QuietStage(s, i);
    FewerStages(s.threads[i].phase.h, s.threads[i].phase.stage);
    var s1 := ApplyAdvance(s, i, 0);
    var rest := [];
    s' := s1;
    if s1.threads[i].phase != Idle {
      rest, s' := FinishGiving(s1, i);
    }
    StageGoes(s, i, rest, s');
    steps := [Advance(i, 0)] + rest;
  }

  /** Everybody is between two operations. */
  ghost predicate Calm(s: State) {
    Owned(s) && forall j :: 0 <= j < |s.threads| ==> s.threads[j].phase == Idle
  }

  lemma ReturnGoes(s: State, i: nat, rest: seq<Step>, s': State)
    requires i < |s.threads| && MayRelease(s.threads[i]) && Goes(ApplyReturn(s, i), rest, s')
    ensures Goes(s, [Return(i)] + rest, s')
  {
    GoesCons(s, Return(i), rest, s');
  }

  lemma CalmReturn(s: State, i: nat)
    requires Calm(s) && i < |s.threads| && MayRelease(s.threads[i])
    ensures Owned(ApplyReturn(s, i)) && !SomeWaiting(ApplyReturn(s, i))
    ensures Pushes(ApplyReturn(s, i).threads[i].phase) == 1
  {
    OwnedReturn(s, i);
    assert forall j :: !IsWaiting(ApplyReturn(s, i), j);
  }

  lemma AfterReturn(s: State, s': State, i: nat)
    requires Calm(s) && i < |s.threads| && MayRelease(s.threads[i]) && Owned(s')
    requires s'.threads == ApplyReturn(s, i).threads[i := AtRest(ApplyReturn(s, i).threads[i])]
    ensures
      var t := s.threads[i];
      && Calm(s')
      && s'.threads == s.threads[i := t.(todo := t.todo[1..], held := t.held[..|t.held| - 1])]
  {
  }

  lemma GiveBack(s: State, i: nat) returns (steps: seq<Step>, s': State)
    requires Calm(s) && i < |s.threads| && MayRelease(s.threads[i])
    ensures
      var t := s.threads[i];
      && Goes(s, steps, s') && Calm(s')
      && s'.threads == s.threads[i := t.(todo := t.todo[1..], held := t.held[..|t.held| - 1])]
      && |s'.pool.queue| == |s.pool.queue| + 1
  {
    CalmReturn(s, i);
    var s1 := ApplyReturn(s, i);
    var rest;
    rest, s' := FinishGiving(s1, i);
    AfterReturn(s, s', i);
    ReturnGoes(s, i, rest, s');
    steps := [Return(i)] + rest;
  }

  lemma TakeOne(s: State, i: nat) returns (steps: seq<Step>, s': State)
    requires Calm(s) && i < |s.threads| && MayCheck(s.threads[i]) && s.pool.queue != []
    ensures Goes(s, steps, s') && Calm(s')
    ensures |s'.threads| == |s.threads| && s'.threads == s.threads[i := s'.threads[i]]
    ensures |s'.threads[i].held| == |s.threads[i].held| + 1 && s'.threads[i].todo == s.threads[i].todo[1..]
    ensures |s'.pool.queue| == |s.pool.queue| - 1
  {
    OwnedTake(s, i);
    s' := ApplyCheck(s, i);
    GoesCons(s, Check(i), [], s');
    steps := [Check(i)] + [];
  }

  /** The thread is about to borrow and holds `d`. */
  predicate Wants(t: Thread, d: nat) {
    t.phase == Idle && |t.held| == d && t.todo != [] && t.todo[0] == Acquire
  }

  /** Alone, with enough connections in the queue, a thread gets to where it wants one more than `d`. */
  lemma {:induction false} Solo(s: State, i: nat, d: nat) returns (steps: seq<Step>, s': State)
    requires Calm(s) && i < |s.threads|
    requires |s.threads[i].held| <= d && Reaches(s.threads[i].todo, |s.threads[i].held|, d)
    requires |s.pool.queue| + |s.threads[i].held| >= d
    ensures Goes(s, steps, s') && Calm(s')
    ensures |s'.threads| == |s.threads| && s'.threads == s.threads[i := s'.threads[i]]
    ensures Wants(s'.threads[i], d)
    ensures |s'.pool.queue| + d == |s.pool.queue| + |s.threads[i].held|
    decreases |s.threads[i].todo|
  {
    var t := s.threads[i];
    if t.todo[0] == Acquire && |t.held| == d {
      steps, s' := [], s;
    } else {
      var first, s1, rest;
      if t.todo[0] == Release {
        first, s1 := GiveBack(s, i);
      } else {
        first, s1 := TakeOne(s, i);
      }
      rest, s' := Solo(s1, i, d);
      GoesConcat(s, first, s1, rest, s');
      steps := first + rest;
    }
  }

  // Driving a small pool into deadlock

  function Self(n: nat): nat {
    n
  }

  /** `n` connections shared out so that each thread gets no more than it may hold while waiting. */
  function Share(ts: seq<Thread>, n: nat): (ds: seq<nat>)
    ensures |ds| == |ts|
    ensures forall j :: 0 <= j < |ts| ==> ds[j] <= Nesting(ts[j])
  {
    if ts == [] then []
    else
      var d := if n < Nesting(ts[0]) then n else Nesting(ts[0]);
      [d] + Share(ts[1..], n - d)
  }

  lemma {:induction false} ShareAddsUp(ts: seq<Thread>, n: nat)
    requires n <= Sum(Nesting, ts)
    ensures Sum(Self, Share(ts, n)) == n
  {
    if ts != [] {
      var d := if n < Nesting(ts[0]) then n else Nesting(ts[0]);
      assert Share(ts, n) == [d] + Share(ts[1..], n - d);
      ShareAddsUp(ts[1..], n - d);
    }
  }

  /** A thread that has nothing left to do, or is waiting or about to wait if the queue is empty. */
  predicate Starving(t: Thread) {
    || (t.phase == Waiting && t.todo != [])
    || (t.phase == Idle && (t.todo == [] || t.todo[0] == Acquire))
  }

  /** The threads from `k` on have not started, and can be left wanting one more than their share. */
  ghost predicate CanSpread(s: State, ds: seq<nat>, k: nat) {
    && Calm(s) && |ds| == |s.threads| && k <= |ds|
    && (forall j :: 0 <= j < k ==> Starving(s.threads[j]))
    && (forall j :: k <= j < |ds| ==>
         && s.threads[j].held == []
         && (if s.threads[j].todo == [] then ds[j] == 0 else Reaches(s.threads[j].todo, 0, ds[j])))
    && |s.pool.queue| == Sum(Self, ds[k..])
  }

  ghost predicate StillBusy(s: State, s': State) {
    && |s'.threads| == |s.threads|
    && forall j :: 0 <= j < |s.threads| && s.threads[j].todo != [] ==> s'.threads[j].todo != []
  }

  lemma {:induction false} SpreadOut(s: State, ds: seq<nat>, k: nat) returns (steps: seq<Step>, s': State)
    requires CanSpread(s, ds, k)
    ensures Goes(s, steps, s') && Calm(s') && s'.pool.queue == [] && StillBusy(s, s')
    ensures forall j :: 0 <= j < |s'.threads| ==> Starving(s'.threads[j])
    decreases |ds| - k
  {
    if k == |ds| {
      steps, s' := [], s;
    } else if s.threads[k].todo == [] {
      assert ds[k..][1..] == ds[k + 1..];
      steps, s' := SpreadOut(s, ds, k + 1);
    } else {
      assert ds[k..][1..] == ds[k + 1..];
      var first, s1 := Solo(s, k, ds[k]);
      steps, s' := SpreadOut(s1, ds, k + 1);
      GoesConcat(s, first, s1, steps, s');
      steps := first + steps;
    }
  }

  ghost function StillIdle(t: Thread): nat {
    if t.phase == Waiting || t.todo == [] then 0 else 1
  }

  /** On an empty queue everybody with work left goes to wait, and then nothing can happen. */
  lemma {:induction false} AllGoToWait(s: State, busy: nat) returns (steps: seq<Step>)
    requires s.pool.queue == [] && busy < |s.threads| && s.threads[busy].todo != []
    requires forall i :: 0 <= i < |s.threads| ==> Starving(s.threads[i])
    ensures CanRun(s, steps) && Stuck(Run(s, steps)) && !Finished(Run(s, steps))
    decreases Sum(StillIdle, s.threads)
  {
    if Sum(StillIdle, s.threads) > 0 {
      var i := SumWitness(StillIdle, s.threads);
      assert Starving(s.threads[i]);
      SumUpdate(StillIdle, s.threads, i, s.threads[i].(phase := Waiting));
      var rest := AllGoToWait(Apply(s, Check(i)), busy);
      GoesCons(s, Check(i), rest, Run(Apply(s, Check(i)), rest));
      steps := [Check(i)] + rest;
    } else {
      steps := [];
      forall i | 0 <= i < |s.threads|
        ensures s.threads[i].phase == Waiting || s.threads[i].todo == []
      {
        SumAtLeast(StillIdle, s.threads, i);
      }
      assert s.threads[busy] in s.threads;
    }
  }

  /** A pool of at most as many connections as threads may hold while waiting can deadlock. */
  lemma SmallPoolDeadlocks(s0: State, poolSize: nat, busy: nat) returns (steps: seq<Step>)
    requires Initial(s0, poolSize) && busy < |s0.threads| && s0.threads[busy].todo != []
    requires forall t :: t in s0.threads ==> Tight(t)
    requires poolSize <= Sum(Nesting, s0.threads)
    ensures CanRun(s0, steps) && Stuck(Run(s0, steps)) && !Finished(Run(s0, steps))
  {
    InitialLive(s0, poolSize);
    var ds := Share(s0.threads, poolSize);
    ShareAddsUp(s0.threads, poolSize);
    assert ds[0..] == ds;
    forall j | 0 <= j < |ds|
      ensures s0.threads[j].held == [] && s0.threads[j].phase == Idle
      ensures if s0.threads[j].todo == [] then ds[j] == 0 else Reaches(s0.threads[j].todo, 0, ds[j])
    {
      assert s0.threads[j] in s0.threads;
      if s0.threads[j].todo != [] {
        TightReaches(s0.threads[j], ds[j]);
      }
    }
    var spread, s1 := SpreadOut(s0, ds, 0);
    var rest := AllGoToWait(s1, busy);
    GoesConcat(s0, spread, s1, rest, Run(s1, rest));
    steps := spread + rest;
  }

  // Main results

  ghost predicate DeadlockFree(s0: State) {
    forall steps :: CanRun(s0, steps) && Stuck(Run(s0, steps)) ==> Finished(Run(s0, steps))
  }

  /**
   The exact bound for every workload: with whatever programs of nested borrows, no run of the
   pool ends with work left over exactly when the pool is larger than what all threads together
   may hold while each waits for one more.
  */
  lemma DeadlockFreeExactly(s0: State, poolSize: nat)
    requires Initial(s0, poolSize)
    requires forall t :: t in s0.threads ==> Tight(t)
    requires exists t :: t in s0.threads && t.todo != []
    ensures DeadlockFree(s0) <==> poolSize > Sum(Nesting, s0.threads)
  {
    if poolSize > Sum(Nesting, s0.threads) {
      forall steps | CanRun(s0, steps) && Stuck(Run(s0, steps))
        ensures Finished(Run(s0, steps))
      {
        LargePoolNeverDeadlocks(s0, steps, poolSize);
      }
    } else {
      var t :| t in s0.threads && t.todo != [];
      var busy :| 0 <= busy < |s0.threads| && s0.threads[busy] == t;
      var steps := SmallPoolDeadlocks(s0, poolSize, busy);
    }
  }

  // The tracker's own threads

  /** A database call takes one connection, or a second one for refresh_torrent_stats while it holds the first. */
  datatype Call = Single | Nested

  /**
   What threads of the tracker do: answer an announce or a stop (update_peer or remove_peer, then
   get_peers and get_torrent_info, with increment_downloaded before if it completes), answer a
   scrape, or make one call such as cleanup_old_peers.
  */
  datatype Job = Announce(completed: bool) | Scrape(hashes: nat) | OneCall

  function CallsOf(job: Job): seq<Call> {
    match job
    case Announce(completed) => (if completed then [Single] else []) + [Nested, Single, Single]
    case Scrape(hashes) => seq(hashes, _ => Single)
    case OneCall => [Single]
  }

  function Calls(jobs: seq<Job>): seq<Call> {
    if jobs == [] then [] else CallsOf(jobs[0]) + Calls(jobs[1..])
  }

  function Ops(calls: seq<Call>): seq<Op> {
    if calls == [] then []
    else (if calls[0] == Nested then [Acquire, Acquire, Release, Release] else [Acquire, Release]) + Ops(calls[1..])
  }

  lemma {:induction false} CallsDepth(calls: seq<Call>)
    ensures ProgramOk(Ops(calls), 0, Deepest(Ops(calls), 0))
    ensures Deepest(Ops(calls), 0) == if Nested in calls then 2 else if calls == [] then 0 else 1
    ensures forall cap :: cap >= Deepest(Ops(calls), 0) ==> ProgramOk(Ops(calls), 0, cap)
  {
    if calls != [] {
      CallsDepth(calls[1..]);
      var rest := Ops(calls[1..]);
      if calls[0] == Nested {
        NestedFirst(rest);
      } else {
        SingleFirst(rest);
      }
    }
  }

  lemma SingleFirst(rest: seq<Op>)
    ensures Deepest([Acquire, Release] + rest, 0) == (if Deepest(rest, 0) < 1 then 1 else Deepest(rest, 0))
    ensures forall cap: nat :: ProgramOk([Acquire, Release] + rest, 0, cap) <==> cap >= 1 && ProgramOk(rest, 0, cap)
  {
    var todo := [Acquire, Release] + rest;
    assert todo[1..] == [Release] + rest && todo[1..][1..] == rest;
  }

  lemma NestedFirst(rest: seq<Op>)
    ensures
      var todo := [Acquire, Acquire, Release, Release] + rest;
      && Deepest(todo, 0) == (if Deepest(rest, 0) < 2 then 2 else Deepest(rest, 0))
      && forall cap: nat :: ProgramOk(todo, 0, cap) <==> cap >= 2 && ProgramOk(rest, 0, cap)
  {
    var todo := [Acquire, Acquire, Release, Release] + rest;
    var inner, once, last := [Acquire, Release, Release] + rest, [Release, Release] + rest, [Release] + rest;
    assert todo[1..] == inner && inner[1..] == once && once[1..] == last && last[1..] == rest;
    var d := Deepest(rest, 0);
    assert Deepest(last, 1) == if d < 1 then 1 else d;
    assert Deepest(once, 2) == if d < 2 then 2 else d;
    assert forall cap: nat :: ProgramOk(last, 1, cap) <==> ProgramOk(rest, 0, cap);
    assert forall cap: nat :: ProgramOk(once, 2, cap) <==> ProgramOk(last, 1, cap);
    assert forall cap: nat :: ProgramOk(inner, 1, cap) <==> 1 < cap && ProgramOk(once, 2, cap);
  }

  /** The thread has an announce or a stop to answer. */
  ghost predicate Announces(jobs: seq<Job>) {
    exists job :: job in jobs && job.Announce?
  }

  lemma {:induction false} NestedMeansAnnounce(jobs: seq<Job>)
    ensures Nested in Calls(jobs) <==> Announces(jobs)
  {
    if jobs != [] {
      NestedMeansAnnounce(jobs[1..]);
      var first := CallsOf(jobs[0]);
      assert Nested in first <==> jobs[0].Announce? by {
        if jobs[0].Announce? {
          assert first[|first| - 3] == Nested;
        }
      }
      assert Announces(jobs) <==> jobs[0].Announce? || Announces(jobs[1..]);
    }
  }

  function Worker(jobs: seq<Job>): Thread {
    var todo := Ops(Calls(jobs));
    Thread(todo, Deepest(todo, 0), [], Idle)
  }

  function Workers(work: seq<seq<Job>>): (ts: seq<Thread>)
    ensures |ts| == |work|
    ensures forall i :: 0 <= i < |work| ==> ts[i] == Worker(work[i])
  {
    if work == [] then [] else [Worker(work[0])] + Workers(work[1..])
  }

  function TrackerStart(poolSize: nat, work: seq<seq<Job>>, spurious: nat): State {
    State(Shared(RawQueue(poolSize), multiset(RawQueue(poolSize)), 0), Workers(work), spurious, {}, {}, false)
  }

  ghost function AnnounceCount(jobs: seq<Job>): nat {
    if Announces(jobs) then 1 else 0
  }

  lemma {:induction false} TrackerNesting(work: seq<seq<Job>>)
    ensures Sum(Nesting, Workers(work)) == Sum(AnnounceCount, work)
  {
    if work != [] {
      TrackerNesting(work[1..]);
      NestedMeansAnnounce(work[0]);
      CallsDepth(Calls(work[0]));
    }
  }

  lemma WorkersAreTight(work: seq<seq<Job>>)
    ensures forall t :: t in Workers(work) ==>
      Tight(t) && ProgramOk(t.todo, 0, t.cap) && t.held == [] && t.phase == Idle
  {
    forall t | t in Workers(work)
      ensures Tight(t) && ProgramOk(t.todo, 0, t.cap) && t.held == [] && t.phase == Idle
    {
      var i :| 0 <= i < |work| && Workers(work)[i] == t;
      CallsDepth(Calls(work[i]));
    }
  }

  /**
   The tracker's bound: whatever requests its threads have to answer, and in whatever order, the
   pool is free of deadlock exactly when it has more connections than there are threads with an
   announce or a stop among their requests. Scrapes and cleanups do not count.
  */
  lemma TrackerPoolBound(poolSize: nat, work: seq<seq<Job>>, spurious: nat)
    requires exists i :: 0 <= i < |work| && Calls(work[i]) != []
    ensures DeadlockFree(TrackerStart(poolSize, work, spurious)) <==> poolSize > Sum(AnnounceCount, work)
  {
    var s0 := TrackerStart(poolSize, work, spurious);
    TrackerNesting(work);
    WorkersAreTight(work);
    assert Initial(s0, poolSize);
    var i :| 0 <= i < |work| && Calls(work[i]) != [];
    CallsDepth(Calls(work[i]));
    assert s0.threads[i] in s0.threads && s0.threads[i].todo != [];
    DeadlockFreeExactly(s0, poolSize);
  }
}
