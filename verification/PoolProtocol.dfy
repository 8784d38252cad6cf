/**
 Threads borrowing from the connection pool, one shared-memory step at a time.

 Each thread runs a list of operations. `Acquire` is get_connection; `Release` ends the innermost
 borrow, either by an explicit return_connection or by unwinding, when destroying the last
 reference runs the deleter. Both go through the same five stages of return_connection: copy the
 argument, push under the lock, notify one waiter, destroy the argument, destroy the pointer that
 was returned. Critical sections are single steps because the mutex excludes one another.
*/
module PoolProtocol {
  import opened PoolHandles
  import opened Sums

  datatype Op = Acquire | Release

  datatype Stage = CopyArg | PushQueue | NotifyOne | DropArg | DropOwn

  datatype Phase = Idle | Waiting | Woken | Giving(h: Handle, stage: Stage)

  /** `cap` is the most connections the thread ever holds at once. */
  datatype Thread = Thread(todo: seq<Op>, cap: nat, held: seq<Handle>, phase: Phase)

  /**
   `returned` and `fired` record the wrappers that were explicitly returned and those whose deleter
   ran. `fault` is raised by a count that would hit zero where the language forbids it.
   `spurious` is how many more spurious wakeups the run may see.
  */
  datatype State = State(pool: Shared, threads: seq<Thread>, spurious: nat,
                         returned: set<Handle>, fired: set<Handle>, fault: bool)

  datatype Step =
    | Check(i: nat)
    | Return(i: nat)
    | Unwind(i: nat)
    | Advance(i: nat, wake: nat)
    | Spurious(i: nat)

  ghost predicate IsWaiting(s: State, i: nat) {
    i < |s.threads| && s.threads[i].phase == Waiting
  }

  ghost predicate SomeWaiting(s: State) {
    exists i :: IsWaiting(s, i)
  }

  predicate MayCheck(t: Thread) {
    (t.phase == Idle || t.phase == Woken) && t.todo != [] && t.todo[0] == Acquire
  }

  predicate MayRelease(t: Thread) {
    t.phase == Idle && t.todo != [] && t.todo[0] == Release && t.held != []
  }

  ghost predicate Enabled(s: State, step: Step) {
    step.i < |s.threads| &&
    var t := s.threads[step.i];
    match step
    case Check(_) => MayCheck(t)
    case Return(_) => MayRelease(t)
    case Unwind(_) => MayRelease(t)
    case Advance(_, w) => t.phase.Giving? && (t.phase.stage == NotifyOne && SomeWaiting(s) ==> IsWaiting(s, w))
    case Spurious(i) => IsWaiting(s, i) && s.spurious > 0
  }

  function SetPhase(s: State, i: nat, p: Phase): State
    requires i < |s.threads|
  {
    s.(threads := s.threads[i := s.threads[i].(phase := p)])
  }

  /** get_connection with the lock held: wait on an empty queue, otherwise borrow the front. */
  function ApplyCheck(s: State, i: nat): State
    requires i < |s.threads| && MayCheck(s.threads[i])
  {
    var t := s.threads[i];
    if s.pool.queue == [] then
      SetPhase(s, i, Waiting)
    else
      var w := Wrap(s.pool.nextSerial, s.pool.queue[0]);
      s.(pool := TakeFront(s.pool),
         threads := s.threads[i := t.(todo := t.todo[1..], held := t.held + [w], phase := Idle)])
  }

  function ApplyReturn(s: State, i: nat): State
    requires i < |s.threads| && MayRelease(s.threads[i])
  {
    var t := s.threads[i];
    var w := t.held[|t.held| - 1];
    s.(threads := s.threads[i := t.(todo := t.todo[1..], held := t.held[..|t.held| - 1], phase := Giving(w, CopyArg))],
       returned := s.returned + {w})
  }

  /** Destroys a thread's own reference to `h`; on the last one the deleter starts giving back what it owns. */
  function DropOwned(s: State, i: nat, h: Handle): State
    requires i < |s.threads|
  {
    var s' := s.(pool := DropRef(s.pool, h));
    if s.pool.refs[h] > 1 then
      SetPhase(s', i, Idle)
    else if s.pool.refs[h] == 1 && h.Wrap? then
      SetPhase(s', i, Giving(h.inner, CopyArg)).(fired := s.fired + {h})
    else
      SetPhase(s', i, Idle).(fault := true)
  }

  function ApplyUnwind(s: State, i: nat): State
    requires i < |s.threads| && MayRelease(s.threads[i])
  {
    var t := s.threads[i];
    var w := t.held[|t.held| - 1];
    var s' := s.(threads := s.threads[i := t.(todo := t.todo[1..], held := t.held[..|t.held| - 1])]);
    DropOwned(s', i, w)
  }

  function ApplyAdvance(s: State, i: nat, wake: nat): State
    requires i < |s.threads| && s.threads[i].phase.Giving?
  {
    var Giving(h, stage) := s.threads[i].phase;
    match stage
    case CopyArg => SetPhase(s.(pool := AddRef(s.pool, h)), i, Giving(h, PushQueue))
    case PushQueue => SetPhase(s.(pool := PushBack(s.pool, h)), i, Giving(h, NotifyOne))
    case NotifyOne =>
      var s' := SetPhase(s, i, Giving(h, DropArg));
      if wake < |s.threads| && s.threads[wake].phase == Waiting then SetPhase(s', wake, Woken) else s'
    case DropArg =>
      SetPhase(s.(pool := DropRef(s.pool, h), fault := s.fault || s.pool.refs[h] < 2), i, Giving(h, DropOwn))
    case DropOwn => DropOwned(s, i, h)
  }

  function Apply(s: State, step: Step): State
    requires Enabled(s, step)
  {
    match step
    case Check(i) => ApplyCheck(s, i)
    case Return(i) => ApplyReturn(s, i)
    case Unwind(i) => ApplyUnwind(s, i)
    case Advance(i, w) => ApplyAdvance(s, i, w)
    case Spurious(i) => SetPhase(s, i, Woken).(spurious := s.spurious - 1)
  }

  // Runs

  ghost predicate CanRun(s: State, steps: seq<Step>)
    decreases |steps|
  {
    steps == [] || (Enabled(s, steps[0]) && CanRun(Apply(s, steps[0]), steps[1..]))
  }

  ghost function Run(s: State, steps: seq<Step>): State
    requires CanRun(s, steps)
    decreases |steps|
  {
    if steps == [] then s else Run(Apply(s, steps[0]), steps[1..])
  }

  /** A program borrows and gives back in a last-in first-out way, never holding more than `cap`. */
  predicate ProgramOk(todo: seq<Op>, depth: nat, cap: nat) {
    if todo == [] then depth == 0
    else if todo[0] == Acquire then depth < cap && ProgramOk(todo[1..], depth + 1, cap)
    else depth > 0 && ProgramOk(todo[1..], depth - 1, cap)
  }

  ghost predicate Initial(s: State, poolSize: nat) {
    && s.pool.queue == RawQueue(poolSize)
    && s.pool.refs == multiset(s.pool.queue)
    && s.pool.nextSerial == 0
    && (forall t :: t in s.threads ==> t.held == [] && t.phase == Idle && ProgramOk(t.todo, 0, t.cap))
    && s.returned == {} && s.fired == {} && !s.fault
  }

  // Where references come from

  ghost function OnLoan(t: Thread): seq<Handle> {
    if t.phase.Giving? && t.phase.stage in {CopyArg, PushQueue} then t.held + [t.phase.h] else t.held
  }

  /** References a return in progress holds beyond those of the connection it carries. */
  ghost function InTransit(p: Phase): multiset<Handle> {
    if !p.Giving? || p.stage == CopyArg then multiset{}
    else if p.stage in {PushQueue, DropOwn} then multiset{p.h}
    else multiset{p.h, p.h}
  }

  ghost function Chains(hs: seq<Handle>): multiset<Handle> {
    Bag(Chain, hs)
  }

  ghost function LoanChains(t: Thread): multiset<Handle> {
    Chains(OnLoan(t))
  }

  ghost function ThreadRefs(t: Thread): multiset<Handle> {
    LoanChains(t) + InTransit(t.phase)
  }

  /** How many references to `h` the queue and the threads account for. */
  ghost function Accounted(s: State, h: Handle): nat {
    Chains(s.pool.queue)[h] + Bag(ThreadRefs, s.threads)[h]
  }

  /** How many of them belong to a connection in the queue or on loan. */
  ghost function Rooted(s: State, h: Handle): nat {
    Chains(s.pool.queue)[h] + Bag(LoanChains, s.threads)[h]
  }

  ghost predicate RefsExact(s: State) {
    forall h {:trigger Accounted(s, h)} :: s.pool.refs[h] == Accounted(s, h)
  }

  ghost predicate Fresh(s: State) {
    && (forall h :: h in s.pool.refs && h.Wrap? ==> h.serial < s.pool.nextSerial)
    && (forall h :: h in s.returned || h in s.fired ==> h.Wrap? && h.serial < s.pool.nextSerial)
  }

  /** The only reference to `h` is the borrower's, and `h` was never given back. */
  ghost predicate HeldOnce(s: State, h: Handle) {
    h.Wrap? && s.pool.refs[h] == 1 && h !in s.returned && h !in s.fired
  }

  ghost predicate HeldOk(s: State) {
    forall i, h :: 0 <= i < |s.threads| && h in s.threads[i].held ==> HeldOnce(s, h)
  }

  /** A handle that has been pushed stays alive through the queue or a later wrapper. */
  ghost predicate Settled(s: State, i: nat) {
    i < |s.threads| && s.threads[i].phase.Giving? && s.threads[i].phase.stage in {NotifyOne, DropArg, DropOwn} ==>
      Rooted(s, s.threads[i].phase.h) >= 1
  }

  ghost predicate Owned(s: State) {
    && RefsExact(s)
    && Fresh(s)
    && HeldOk(s)
    && (forall i :: Settled(s, i))
    && s.returned !! s.fired
    && !s.fault
  }
}
