/** The order of a session's callbacks in a run: what comes before it closes, and that answers come first. */
module SessionOrder {
  import opened Sessions

  // The states a run goes through

  function StateAt(s: State, steps: seq<Step>, k: nat): State
    requires CanRun(s, steps) && k <= |steps|
    decreases k
  {
    if k == 0 then s else StateAt(Apply(s, steps[0]), steps[1..], k - 1)
  }

  lemma {:induction false} StepAt(s: State, steps: seq<Step>, k: nat)
    requires CanRun(s, steps) && k < |steps|
    ensures Enabled(StateAt(s, steps, k), steps[k])
    ensures StateAt(s, steps, k + 1) == Apply(StateAt(s, steps, k), steps[k])
    decreases k
  {
    if k > 0 {
      StepAt(Apply(s, steps[0]), steps[1..], k - 1);
    }
  }

  lemma {:induction false} InvAt(s: State, steps: seq<Step>, k: nat)
    requires Inv(s) && CanRun(s, steps) && k <= |steps|
    ensures Inv(StateAt(s, steps, k))
    decreases k
  {
    if k > 0 {
      InvStep(s, steps[0]);
      InvAt(Apply(s, steps[0]), steps[1..], k - 1);
    }
  }

  /** Step `k` runs the item. */
  predicate Runs(s: State, steps: seq<Step>, k: nat, item: Item)
    requires CanRun(s, steps)
  {
    && k < |steps| && steps[k].Do? && steps[k].k < |StateAt(s, steps, k).pending|
    && StateAt(s, steps, k).pending[steps[k].k] == item
  }

  /** A new item was handed on by the item that the step ran. */
  lemma NewItem(s: State, step: Step, item: Item)
    requires Enabled(s, step) && item in Apply(s, step).pending && item !in s.pending
    ensures step.Do? && item in Next(s, s.pending[step.k], step.outcome)
  {
    if step.Do? || step.Discard? {
      assert item !in Without(s.pending, step.k);
    }
  }

  // Why a session closes

  /** The step writes the reply, meets an error in reading or an exception in handling. */
  predicate Ends(s: State, step: Step, sid: nat) {
    && step.Do? && step.k < |s.pending|
    && var item := s.pending[step.k];
    || item == Writing(sid)
    || (item == Task(sid) && step.outcome)
    || item == ReadDone(sid, true)
    || (item == ReadDone(sid, false) && step.outcome)
  }

  lemma NewClosing(s: State, step: Step, sid: nat)
    requires Enabled(s, step) && Closing(sid) in Apply(s, step).pending && Closing(sid) !in s.pending
    ensures Ends(s, step, sid)
  {
    NewItem(s, step, Closing(sid));
  }

  lemma {:induction false} ClosingHasReason(max: int, steps: seq<Step>, n: nat, sid: nat) returns (k: nat)
    requires CanRun(Started(max), steps) && n <= |steps|
    requires Closing(sid) in StateAt(Started(max), steps, n).pending
    ensures k < n && Ends(StateAt(Started(max), steps, k), steps[k], sid)
    decreases n
  {
    hide Apply, Enabled, Ends;
    NothingClosesAtFirst(max, steps, sid);
    StepAt(Started(max), steps, n - 1);
    if Closing(sid) in StateAt(Started(max), steps, n - 1).pending {
      k := ClosingHasReason(max, steps, n - 1, sid);
    } else {
      k := n - 1;
      NewClosing(StateAt(Started(max), steps, k), steps[k], sid);
    }
  }

  lemma NothingClosesAtFirst(max: int, steps: seq<Step>, sid: nat)
    requires CanRun(Started(max), steps)
    ensures Closing(sid) !in StateAt(Started(max), steps, 0).pending
  {
  }

  /**
   A session closes only after its reply was written, its read failed, or handling its request
   raised an exception.
  */
  lemma ClosedForAReason(max: int, steps: seq<Step>, n: nat, sid: nat) returns (k: nat)
    requires CanRun(Started(max), steps) && Runs(Started(max), steps, n, Closing(sid))
    ensures k < n && Ends(StateAt(Started(max), steps, k), steps[k], sid)
  {
    k := ClosingHasReason(max, steps, n, sid);
  }

  // A handled request is answered

  /** All that is left to do for the session is to hand over and write its reply. */
  ghost predicate Answering(s: State, sid: nat) {
    && sid < s.nextSid
    && forall item :: item in s.pending && HasSession(item) && item.sid == sid ==>
      item == WritePost(sid) || item == Writing(sid)
  }

  lemma AnsweringStep(s: State, step: Step, sid: nat)
    requires Enabled(s, step) && Answering(s, sid)
    requires step.Do? ==> step.k < |s.pending| && s.pending[step.k] != Writing(sid)
    ensures Answering(Apply(s, step), sid)
  {
    var s' := Apply(s, step);
    forall item | item in s'.pending && HasSession(item) && item.sid == sid
      ensures item == WritePost(sid) || item == Writing(sid)
    {
      if item !in s.pending {
        NewItem(s, step, item);
        assert s.pending[step.k] in s.pending;
      }
    }
  }

  /** After the request is handled, the session has one continuation, which hands over its reply. */
  lemma HandledIsAnswering(s: State, k: nat, sid: nat)
    requires Inv(s) && k < |s.pending| && s.pending[k] == Task(sid)
    ensures Answering(Apply(s, Do(k, false)), sid)
  {
    var s' := Apply(s, Do(k, false));
    assert ItemOk(s, s.pending[k]);
    forall item | item in s'.pending && HasSession(item) && item.sid == sid
      ensures item == WritePost(sid)
    {
      if item in Without(s.pending, k) {
        OthersDiffer(s, k, item);
      }
    }
  }

  lemma HandledAt(max: int, steps: seq<Step>, m: nat, sid: nat)
    requires CanRun(Started(max), steps) && Runs(Started(max), steps, m, Task(sid)) && !steps[m].outcome
    ensures Answering(StateAt(Started(max), steps, m + 1), sid)
  {
    StartedOk(max);
    InvAt(Started(max), steps, m);
    StepAt(Started(max), steps, m);
    HandledIsAnswering(StateAt(Started(max), steps, m), steps[m].k, sid);
  }

  lemma NotClosing(s: State, sid: nat)
    requires Answering(s, sid)
    ensures Closing(sid) !in s.pending
  {
  }

  lemma {:induction false} WrittenSince(max: int, steps: seq<Step>, m: nat, n: nat, sid: nat)
    returns (written: bool, k: nat)
    requires CanRun(Started(max), steps) && m < n <= |steps|
    requires Runs(Started(max), steps, m, Task(sid)) && !steps[m].outcome
    ensures written ==> m < k < n && Runs(Started(max), steps, k, Writing(sid))
    ensures !written ==> Answering(StateAt(Started(max), steps, n), sid)
    decreases n
  {
    hide Apply, Enabled, Answering;
    k := n - 1;
    if n == m + 1 {
      HandledAt(max, steps, m, sid);
      written := false;
    } else {
      StepAt(Started(max), steps, n - 1);
      written, k := WrittenSince(max, steps, m, n - 1, sid);
      if !written {
        if Runs(Started(max), steps, n - 1, Writing(sid)) {
          written, k := true, n - 1;
        } else {
          NotWriting(Started(max), steps, n - 1, sid);
          AnsweringStep(StateAt(Started(max), steps, n - 1), steps[n - 1], sid);
        }
      }
    }
  }

  lemma NotWriting(s: State, steps: seq<Step>, k: nat, sid: nat)
    requires CanRun(s, steps) && k < |steps| && Enabled(StateAt(s, steps, k), steps[k])
    requires !Runs(s, steps, k, Writing(sid))
    ensures steps[k].Do? ==>
      steps[k].k < |StateAt(s, steps, k).pending| && StateAt(s, steps, k).pending[steps[k].k] != Writing(sid)
  {
  }

  /** Once a request has been handled without an exception, its session closes only after its reply was written. */
  lemma AnsweredBeforeClosed(max: int, steps: seq<Step>, m: nat, n: nat, sid: nat) returns (k: nat)
    requires CanRun(Started(max), steps) && m < n
    requires Runs(Started(max), steps, m, Task(sid)) && !steps[m].outcome
    requires Runs(Started(max), steps, n, Closing(sid))
    ensures m < k < n && Runs(Started(max), steps, k, Writing(sid))
  {
    var written;
    written, k := WrittenSince(max, steps, m, n, sid);
    if !written {
      NotClosing(StateAt(Started(max), steps, n), sid);
      assert false;
    }
  }
}
