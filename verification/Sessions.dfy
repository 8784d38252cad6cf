/**
 The life of tracker sessions: the accept chain, the callback chain of each session, and the
 counter of active connections that both update.

 Every callback that has been handed to the executor, or has started and not ended, is an item of
 `pending`. A step runs one item up to its next access to shared state. The load and the update of
 the counter are separate steps, in the accept handler and in the release.
*/
module Sessions {
  import opened Sums

  datatype Item =
    | AcceptWait
    | AcceptDone(failed: bool)
    | AcceptCheck
    | AcceptCount
    | AcceptStart(sid: nat)
    | AcceptAgain
    | Reading(sid: nat)
    | ReadDone(sid: nat, failed: bool)
    | Task(sid: nat)
    | WritePost(sid: nat)
    | Writing(sid: nat)
    | Closing(sid: nat)
    | Releasing(sid: nat)
    | Uncounting(sid: nat)

  /**
   `admitted` are the sessions that were counted, `flagged` those that set connection_released_,
   `uncounted` those whose decrement has happened. `guardFailed` is raised by a release that finds
   the counter at zero or below.
  */
  datatype State = State(running: bool, active: int, maxConnections: int, pending: seq<Item>,
                         nextSid: nat, admitted: set<nat>, flagged: set<nat>, uncounted: set<nat>,
                         guardFailed: bool)

  /** `outcome` is the nondeterminism of the item: an I/O error, or an exception in the handler. */
  datatype Step = Do(k: nat, outcome: bool) | Stop | Discard(k: nat)

  predicate Enabled(s: State, step: Step) {
    match step
    case Do(k, _) => k < |s.pending|
    case Stop => s.running
    case Discard(k) => !s.running && k < |s.pending|
  }

  function Without(items: seq<Item>, k: nat): seq<Item>
    requires k < |items|
  {
    items[..k] + items[k + 1..]
  }

  /** The items that running `item` hands on. */
  function Next(s: State, item: Item, outcome: bool): seq<Item> {
    match item
    case AcceptWait => [AcceptDone(outcome)]
    case AcceptDone(failed) => if !s.running then [] else if failed then [AcceptAgain] else [AcceptCheck]
    case AcceptCheck => if s.active < s.maxConnections then [AcceptCount] else [AcceptAgain]
    case AcceptCount => [AcceptStart(s.nextSid)]
    case AcceptStart(sid) => [Reading(sid), AcceptAgain]
    case AcceptAgain => if s.running then [AcceptWait] else []
    case Reading(sid) => [ReadDone(sid, outcome)]
    case ReadDone(sid, failed) =>
      if failed || outcome then [Closing(sid)] else if s.running then [Task(sid)] else []
    case Task(sid) => if outcome then [Closing(sid)] else [WritePost(sid)]
    case WritePost(sid) => [Writing(sid)]
    case Writing(sid) => [Closing(sid)]
    case Closing(sid) => if sid in s.flagged then [] else [Releasing(sid)]
    case Releasing(sid) => if s.active > 0 then [Uncounting(sid)] else []
    case Uncounting(_) => []
  }

  /** What running `item` does to the shared variables. */
  function Effect(s: State, item: Item): State {
    match item
    case AcceptCount =>
      s.(active := s.active + 1, nextSid := s.nextSid + 1, admitted := s.admitted + {s.nextSid})
    case Closing(sid) => s.(flagged := s.flagged + {sid})
    case Releasing(_) => s.(guardFailed := s.guardFailed || s.active <= 0)
    case Uncounting(sid) => s.(active := s.active - 1, uncounted := s.uncounted + {sid})
    case _ => s
  }

  function Apply(s: State, step: Step): State
    requires Enabled(s, step)
  {
    match step
    case Do(k, outcome) =>
      Effect(s, s.pending[k]).(pending := Without(s.pending, k) + Next(s, s.pending[k], outcome))
    case Stop => s.(running := false)
    case Discard(k) => s.(pending := Without(s.pending, k))
  }

  predicate CanRun(s: State, steps: seq<Step>)
    decreases |steps|
  {
    steps == [] || (Enabled(s, steps[0]) && CanRun(Apply(s, steps[0]), steps[1..]))
  }

  function Run(s: State, steps: seq<Step>): State
    requires CanRun(s, steps)
    decreases |steps|
  {
    if steps == [] then s else Run(Apply(s, steps[0]), steps[1..])
  }

  /** The state in which start() has made its first call to start_accept. */
  function Started(maxConnections: int): State {
    State(true, 0, maxConnections, [AcceptWait], 0, {}, {}, {}, false)
  }

  // What every step keeps

  ghost function AcceptItem(item: Item): nat {
    if
      || item.AcceptWait? || item.AcceptDone? || item.AcceptCheck?
      || item.AcceptCount? || item.AcceptStart? || item.AcceptAgain?
    then 1
    else 0
  }

  ghost predicate HasSession(item: Item) {
    !(item.AcceptWait? || item.AcceptDone? || item.AcceptCheck? || item.AcceptCount? || item.AcceptAgain?)
  }

  /** One for the continuations of session `sid`. */
  ghost function ContinuationOf(sid: nat): Item -> nat {
    (item: Item) => if HasSession(item) && item.sid == sid then 1 else 0
  }

  ghost predicate ItemOk(s: State, item: Item) {
    && (item.AcceptCount? ==> s.active < s.maxConnections)
    && (HasSession(item) ==> item.sid in s.admitted && item.sid !in s.uncounted)
    && (HasSession(item) ==> (item.sid in s.flagged <==> item.Releasing? || item.Uncounting?))
  }

  ghost predicate Accounted(s: State) {
    && s.active == |s.admitted - s.uncounted|
    && s.uncounted <= s.admitted
    && s.flagged <= s.admitted
    && s.active <= (if s.maxConnections < 0 then 0 else s.maxConnections)
    && (forall sid :: sid in s.admitted ==> sid < s.nextSid)
    && !s.guardFailed
  }

  ghost predicate Chained(s: State) {
    && Sum(AcceptItem, s.pending) <= 1
    && (s.running ==> Sum(AcceptItem, s.pending) == 1)
    && (forall sid: nat :: Sum(ContinuationOf(sid), s.pending) <= 1)
    && (s.running ==> forall sid: nat :: sid in s.admitted - s.uncounted ==> Sum(ContinuationOf(sid), s.pending) == 1)
  }

  ghost predicate Inv(s: State) {
    && Accounted(s)
    && Chained(s)
    && (forall item :: item in s.pending ==> ItemOk(s, item))
  }

  lemma SumWithout(f: Item -> nat, items: seq<Item>, k: nat)
    requires k < |items|
    ensures Sum(f, Without(items, k)) + f(items[k]) == Sum(f, items)
  {
    var tail := items[k..];
    assert items == items[..k] + tail;
    assert tail[1..] == items[k + 1..];
    SumConcat(f, items[..k], tail);
    SumConcat(f, items[..k], items[k + 1..]);
  }

  /** An item other than the one being run belongs to another session, and is not of the accept chain if that one is. */
  lemma OthersDiffer(s: State, k: nat, other: Item)
    requires Inv(s) && k < |s.pending| && other in Without(s.pending, k)
    ensures other in s.pending
    ensures HasSession(other) && HasSession(s.pending[k]) ==> other.sid != s.pending[k].sid
    ensures AcceptItem(s.pending[k]) == 1 ==> AcceptItem(other) == 0
  {
    var rest := Without(s.pending, k);
    var j :| 0 <= j < |rest| && rest[j] == other;
    SumAtLeast(AcceptItem, rest, j);
    SumWithout(AcceptItem, s.pending, k);
    if HasSession(other) {
      SumAtLeast(ContinuationOf(other.sid), rest, j);
      SumWithout(ContinuationOf(other.sid), s.pending, k);
    }
  }

  lemma {:induction false} SumUpToTwo(f: Item -> nat, items: seq<Item>)
    ensures items == [] ==> Sum(f, items) == 0
    ensures |items| == 1 ==> Sum(f, items) == f(items[0])
    ensures |items| == 2 ==> Sum(f, items) == f(items[0]) + f(items[1])
  {
    if |items| > 0 {
      assert Sum(f, items) == f(items[0]) + Sum(f, items[1..]);
      if |items| > 1 {
        assert Sum(f, items[1..]) == f(items[1]) + Sum(f, items[2..]) by { assert items[1..][1..] == items[2..]; }
      }
    }
  }

  lemma SumDone(f: Item -> nat, s: State, k: nat, outcome: bool)
    requires k < |s.pending|
    ensures Sum(f, Apply(s, Do(k, outcome)).pending) + f(s.pending[k])
         == Sum(f, s.pending) + Sum(f, Next(s, s.pending[k], outcome))
  {
    SumConcat(f, Without(s.pending, k), Next(s, s.pending[k], outcome));
    SumWithout(f, s.pending, k);
  }

  lemma NotZero(s: State, sid: nat)
    requires Accounted(s) && sid in s.admitted && sid !in s.uncounted
    ensures s.active > 0
  {
    assert sid in s.admitted - s.uncounted;
  }

  lemma AccountedCount(s: State)
    requires Accounted(s) && s.active < s.maxConnections
    ensures Accounted(Effect(s, AcceptCount))
  {
    var s' := Effect(s, AcceptCount);
    assert s.nextSid !in s.admitted;
    assert s'.admitted - s'.uncounted == (s.admitted - s.uncounted) + {s.nextSid};
  }

  lemma AccountedUncount(s: State, sid: nat)
    requires Accounted(s) && sid in s.admitted && sid !in s.uncounted
    ensures Accounted(Effect(s, Uncounting(sid)))
  {
    var s' := Effect(s, Uncounting(sid));
    NotZero(s, sid);
    assert s'.admitted - s'.uncounted == (s.admitted - s.uncounted) - {sid};
  }

  lemma AccountedMark(s: State, sid: nat)
    requires Accounted(s) && sid in s.admitted && sid !in s.uncounted
    ensures Accounted(Effect(s, Closing(sid))) && Accounted(Effect(s, Releasing(sid)))
  {
    NotZero(s, sid);
  }

  lemma AccountedDo(s: State, item: Item)
    requires Accounted(s) && ItemOk(s, item)
    ensures Accounted(Effect(s, item))
  {
    match item
    case AcceptCount => AccountedCount(s);
    case Closing(sid) => AccountedMark(s, sid);
    case Releasing(sid) => AccountedMark(s, sid);
    case Uncounting(sid) => AccountedUncount(s, sid);
    case _ =>
  }

  /** Items of other sessions are not affected. */
  lemma OtherOk(s: State, item: Item, other: Item)
    requires Accounted(s) && ItemOk(s, item) && ItemOk(s, other)
    requires HasSession(other) && HasSession(item) ==> other.sid != item.sid
    requires AcceptItem(item) == 1 ==> AcceptItem(other) == 0
    ensures ItemOk(Effect(s, item), other)
  {
  }

  lemma NextOk(s: State, item: Item, outcome: bool, other: Item)
    requires Accounted(s) && ItemOk(s, item) && other in Next(s, item, outcome)
    ensures ItemOk(Effect(s, item), other)
  {
  }

  lemma ItemsDo(s: State, k: nat, outcome: bool, other: Item)
    requires Inv(s) && k < |s.pending|
    requires other in Apply(s, Do(k, outcome)).pending
    ensures ItemOk(Effect(s, s.pending[k]), other)
  {
    assert ItemOk(s, s.pending[k]);
    if other in Without(s.pending, k) {
      OthersDiffer(s, k, other);
      OtherOk(s, s.pending[k], other);
    } else {
      NextOk(s, s.pending[k], outcome, other);
    }
  }

  lemma NextAccepts(s: State, item: Item, outcome: bool)
    ensures Sum(AcceptItem, Next(s, item, outcome)) <= AcceptItem(item)
    ensures s.running ==> Sum(AcceptItem, Next(s, item, outcome)) == AcceptItem(item)
  {
    SumUpToTwo(AcceptItem, Next(s, item, outcome));
  }

  /** A session's continuation hands on to one continuation of the same session, until it is uncounted. */
  lemma NextContinues(s: State, item: Item, outcome: bool, sid: nat)
    requires Accounted(s) && ItemOk(s, item)
    ensures
      var n := Sum(ContinuationOf(sid), Next(s, item, outcome));
      if item.AcceptCount? then n == (if sid == s.nextSid then 1 else 0)
      else n <= ContinuationOf(sid)(item) && (s.running && !item.Uncounting? ==> n == ContinuationOf(sid)(item))
  {
    SumUpToTwo(ContinuationOf(sid), Next(s, item, outcome));
    if item.Releasing? {
      assert item.sid in s.admitted - s.uncounted;
    }
  }

  lemma NextSidIsFree(s: State)
    requires Inv(s)
    ensures Sum(ContinuationOf(s.nextSid), s.pending) == 0
  {
    forall item | item in s.pending
      ensures ContinuationOf(s.nextSid)(item) == 0
    {
      assert ItemOk(s, item);
    }
    SumZero(ContinuationOf(s.nextSid), s.pending);
  }

  lemma ChainedSession(s: State, k: nat, outcome: bool, sid: nat)
    requires Inv(s) && k < |s.pending|
    ensures
      var s' := Apply(s, Do(k, outcome));
      && Sum(ContinuationOf(sid), s'.pending) <= 1
      && (s'.running && sid in s'.admitted - s'.uncounted ==> Sum(ContinuationOf(sid), s'.pending) == 1)
  {
    var item := s.pending[k];
    assert ItemOk(s, item);
    SumDone(ContinuationOf(sid), s, k, outcome);
    NextContinues(s, item, outcome, sid);
    NextSidIsFree(s);
  }

  lemma InvStep(s: State, step: Step)
    requires Inv(s) && Enabled(s, step)
    ensures Inv(Apply(s, step))
  {
    var s' := Apply(s, step);
    match step
    case Do(k, outcome) =>
      var item := s.pending[k];
      assert ItemOk(s, item);
      AccountedDo(s, item);
      SumDone(AcceptItem, s, k, outcome);
      NextAccepts(s, item, outcome);
      forall sid: nat
        ensures Sum(ContinuationOf(sid), s'.pending) <= 1
        ensures s'.running && sid in s'.admitted - s'.uncounted ==> Sum(ContinuationOf(sid), s'.pending) == 1
      {
        ChainedSession(s, k, outcome, sid);
      }
      forall other | other in s'.pending
        ensures ItemOk(s', other)
      {
        ItemsDo(s, k, outcome, other);
      }
    case Stop =>
      forall item | item in s'.pending
        ensures ItemOk(s', item)
      {
        assert ItemOk(s, item);
      }
    case Discard(k) =>
      SumWithout(AcceptItem, s.pending, k);
      forall sid: nat
        ensures Sum(ContinuationOf(sid), s'.pending) <= 1
      {
        SumWithout(ContinuationOf(sid), s.pending, k);
      }
      forall item | item in s'.pending
        ensures ItemOk(s', item)
      {
        OthersDiffer(s, k, item);
        assert ItemOk(s, item);
      }
  }

  lemma {:induction false} InvRun(s: State, steps: seq<Step>)
    requires Inv(s) && CanRun(s, steps)
    ensures Inv(Run(s, steps))
    decreases |steps|
  {
    if steps != [] {
      InvStep(s, steps[0]);
      InvRun(Apply(s, steps[0]), steps[1..]);
    }
  }

  lemma StartedOk(maxConnections: int)
    ensures Inv(Started(maxConnections))
  {
    var s := Started(maxConnections);
    SumUpToTwo(AcceptItem, s.pending);
    forall sid: nat
      ensures Sum(ContinuationOf(sid), s.pending) == 0
    {
      SumUpToTwo(ContinuationOf(sid), s.pending);
    }
  }

  // Main results

  /**
   The counter is the number of sessions counted and not yet uncounted, it stays within
   0..max_connections although check and increment are separate, and the guard in
   release_connection never fails. This also holds after the server has stopped.
  */
  lemma CounterIsExact(maxConnections: int, steps: seq<Step>)
    requires CanRun(Started(maxConnections), steps)
    ensures
      var s := Run(Started(maxConnections), steps);
      && s.active == |s.admitted - s.uncounted|
      && 0 <= s.active <= (if maxConnections < 0 then 0 else maxConnections)
      && !s.guardFailed
  {
    StartedOk(maxConnections);
    InvRun(Started(maxConnections), steps);
    MaxIsConstant(Started(maxConnections), steps);
  }

  lemma {:induction false} MaxIsConstant(s: State, steps: seq<Step>)
    requires CanRun(s, steps)
    ensures Run(s, steps).maxConnections == s.maxConnections
    decreases |steps|
  {
    if steps != [] {
      MaxIsConstant(Apply(s, steps[0]), steps[1..]);
    }
  }

  /**
   While the server runs, exactly one accept is pending or being handled, and every session that
   is counted has exactly one pending continuation, so it will be released. A session never has two.
  */
  lemma EachSessionContinuesOnce(maxConnections: int, steps: seq<Step>, sid: nat)
    requires CanRun(Started(maxConnections), steps)
    ensures
      var s := Run(Started(maxConnections), steps);
      && (s.running ==> Sum(AcceptItem, s.pending) == 1)
      && Sum(ContinuationOf(sid), s.pending) <= 1
      && (s.running && sid in s.admitted && sid !in s.uncounted ==> Sum(ContinuationOf(sid), s.pending) == 1)
  {
    StartedOk(maxConnections);
    InvRun(Started(maxConnections), steps);
  }

  /** When nothing is pending any more but the accept, all counted sessions have been uncounted. */
  lemma QuietMeansReleased(maxConnections: int, steps: seq<Step>)
    requires CanRun(Started(maxConnections), steps)
    requires Run(Started(maxConnections), steps).pending == [AcceptWait]
    requires Run(Started(maxConnections), steps).running
    ensures Run(Started(maxConnections), steps).active == 0
  {
    StartedOk(maxConnections);
    InvRun(Started(maxConnections), steps);
    var s := Run(Started(maxConnections), steps);
    forall sid: nat
      ensures sid !in s.admitted - s.uncounted
    {
      SumUpToTwo(ContinuationOf(sid), s.pending);
    }
    assert s.admitted - s.uncounted == {};
  }

  /**
   The server's own methods. Each callback, run without interruption, is a run of the steps above
   from the item that starts it.
  */
  class TrackerServer {
    const maxConnections: int
    var running: bool
    var active: int
    var pending: seq<Item>
    var nextSid: nat
    var admitted: set<nat>
    var flagged: set<nat>
    var uncounted: set<nat>
    var guardFailed: bool

    ghost function View(): State
      reads this
    {
      State(running, active, maxConnections, pending, nextSid, admitted, flagged, uncounted, guardFailed)
    }

    constructor (maxConnections: int)
      ensures this.maxConnections == maxConnections
      ensures View() == State(false, 0, maxConnections, [], 0, {}, {}, {}, false)
    {
      this.maxConnections := maxConnections;
      running, active, pending, nextSid, guardFailed := false, 0, [], 0, false;
      admitted, flagged, uncounted := {}, {}, {};
    }

    method Start()
      requires View() == State(false, 0, maxConnections, [], 0, {}, {}, {}, false)
      modifies this
      ensures View() == Started(maxConnections)
    {
      running := true;
      StartAccept();
    }

    method StartAccept()
      modifies this`pending
      ensures pending == if running then old(pending) + [AcceptWait] else old(pending)
    {
      if !running { return; }
      pending := pending + [AcceptWait];
    }

    /**
     handle_accept, for the accept that completed last: below the limit the connection is counted and
     read from, and while the server runs the next accept is started.
    */
    method HandleAccept()
      requires pending != [] && pending[|pending| - 1].AcceptDone?
      modifies this
      ensures IsRun(old(View()), View(), AcceptSteps(old(View())))
      ensures
        var accepts := old(running && !pending[|pending| - 1].failed && active < maxConnections);
        && active == old(active) + (if accepts then 1 else 0)
        && pending == old(pending[..|pending| - 1])
             + (if accepts then [Reading(old(nextSid))] else []) + (if old(running) then [AcceptWait] else [])
    {
      ghost var s0 := View();
      ghost var steps := AcceptSteps(s0);
      var n := |pending|;
      var error := pending[n - 1].failed;
      pending := pending[..n - 1];
      AcceptRun(s0, pending, error);
      if !running {
        return;
      }
      if !error && active < maxConnections {
        active := active + 1;
        admitted := admitted + {nextSid};
        pending := pending + [Reading(nextSid)];   // new_session->start()
        nextSid := nextSid + 1;
      }
      StartAccept();
    }

    /** release_connection: the load and the decrement as one call. */
    method ReleaseConnection()
      modifies this`active
      ensures active == if old(active) > 0 then old(active) - 1 else old(active)
    {
      if active > 0 {
        active := active - 1;
      }
    }

    /** close_session of the session whose continuation came last: it is released the first time only. */
    method CloseSession()
      requires pending != [] && pending[|pending| - 1].Closing?
      modifies this
      ensures IsRun(old(View()), View(), CloseSteps(old(View())))
      ensures flagged == old(flagged + {pending[|pending| - 1].sid}) && pending == old(pending[..|pending| - 1])
      ensures active == old(active) - old(if pending[|pending| - 1].sid !in flagged && active > 0 then 1 else 0)
    {
      ghost var s0 := View();
      var sid := pending[|pending| - 1].sid;
      pending := pending[..|pending| - 1];
      CloseRun(s0, pending, sid);
      if sid in flagged {
        return;
      }
      flagged := flagged + {sid};
      if active > 0 {
        uncounted := uncounted + {sid};
      } else {
        guardFailed := true;
      }
      ReleaseConnection();
    }
  }

  ghost predicate IsRun(s: State, s': State, steps: seq<Step>) {
    CanRun(s, steps) && Run(s, steps) == s'
  }

  /** The steps of an uninterrupted accept handler. */
  ghost function AcceptSteps(s: State): seq<Step>
    requires s.pending != [] && s.pending[|s.pending| - 1].AcceptDone?
  {
    var d := Do(|s.pending| - 1, false);
    if !s.running then [d]
    else if s.pending[|s.pending| - 1].failed then [d, d]
    else if s.active < s.maxConnections then [d, d, d, d, Do(|s.pending|, false)]
    else [d, d, d]
  }

  lemma RunCons(s: State, mid: State, s': State, step: Step, steps: seq<Step>)
    requires Enabled(s, step) && Apply(s, step) == mid && IsRun(mid, s', steps)
    ensures IsRun(s, s', [step] + steps)
  {
    assert ([step] + steps)[1..] == steps;
  }

  lemma RunNone(s: State)
    ensures IsRun(s, s, [])
  {
  }

  lemma DoLast(s: State, rest: seq<Item>, item: Item, outcome: bool)
    requires s.pending == rest + [item]
    ensures Enabled(s, Do(|rest|, outcome))
    ensures Apply(s, Do(|rest|, outcome)) == Effect(s, item).(pending := rest + Next(s, item, outcome))
  {
    assert Without(s.pending, |rest|) == rest;
  }

  lemma AgainRun(s: State, rest: seq<Item>)
    requires s.running && s.pending == rest + [AcceptAgain]
    ensures IsRun(s, s.(pending := rest + [AcceptWait]), [Do(|rest|, false)])
  {
    DoLast(s, rest, AcceptAgain, false);
    RunNone(s.(pending := rest + [AcceptWait]));
    RunCons(s, s.(pending := rest + [AcceptWait]), s.(pending := rest + [AcceptWait]), Do(|rest|, false), []);
  }

  lemma AdmitRun(s: State, rest: seq<Item>)
    requires s.running && s.pending == rest + [AcceptCount]
    ensures IsRun(s, s.(active := s.active + 1, nextSid := s.nextSid + 1, admitted := s.admitted + {s.nextSid},
                        pending := rest + [Reading(s.nextSid)] + [AcceptWait]),
                  [Do(|rest|, false), Do(|rest|, false), Do(|rest| + 1, false)])
  {
    var d := Do(|rest|, false);
    var sid := s.nextSid;
    DoLast(s, rest, AcceptCount, false);
    var s1 := s.(active := s.active + 1, nextSid := sid + 1, admitted := s.admitted + {sid},
                 pending := rest + [AcceptStart(sid)]);
    DoLast(s1, rest, AcceptStart(sid), false);
    var s2 := s1.(pending := rest + [Reading(sid)] + [AcceptAgain]);
    assert rest + [Reading(sid), AcceptAgain] == s2.pending;
    AgainRun(s2, rest + [Reading(sid)]);
    var s3 := s2.(pending := rest + [Reading(sid)] + [AcceptWait]);
    RunCons(s1, s2, s3, d, [Do(|rest| + 1, false)]);
    RunCons(s, s1, s3, d, [d, Do(|rest| + 1, false)]);
    assert [d] + [d, Do(|rest| + 1, false)] == [d, d, Do(|rest| + 1, false)];
  }

  /** Where the uninterrupted accept handler ends up. */
  lemma AcceptRun(s: State, rest: seq<Item>, error: bool)
    requires s.pending == rest + [AcceptDone(error)]
    ensures
      var again := s.(pending := rest + [AcceptWait]);
      var admitted := s.(active := s.active + 1, nextSid := s.nextSid + 1, admitted := s.admitted + {s.nextSid},
                         pending := rest + [Reading(s.nextSid)] + [AcceptWait]);
      IsRun(s, if !s.running then s.(pending := rest)
               else if error || s.active >= s.maxConnections then again
               else admitted, AcceptSteps(s))
  {
    var d := Do(|rest|, false);
    DoLast(s, rest, AcceptDone(error), false);
    if !s.running {
      RunNone(s.(pending := rest));
      RunCons(s, s.(pending := rest), s.(pending := rest), d, []);
    } else if error {
      var s1 := s.(pending := rest + [AcceptAgain]);
      AgainRun(s1, rest);
      RunCons(s, s1, s.(pending := rest + [AcceptWait]), d, [d]);
    } else {
      var s1 := s.(pending := rest + [AcceptCheck]);
      DoLast(s1, rest, AcceptCheck, false);
      if s.active < s.maxConnections {
        var s2 := s.(pending := rest + [AcceptCount]);
        AdmitRun(s2, rest);
        var steps := [d, d, Do(|rest| + 1, false)];
        var s' := Run(s2, steps);
        RunCons(s1, s2, s', d, steps);
        RunCons(s, s1, s', d, [d] + steps);
        assert [d] + ([d] + steps) == AcceptSteps(s);
      } else {
        var s2 := s.(pending := rest + [AcceptAgain]);
        AgainRun(s2, rest);
        RunCons(s1, s2, s.(pending := rest + [AcceptWait]), d, [d]);
        RunCons(s, s1, s.(pending := rest + [AcceptWait]), d, [d, d]);
        assert [d] + [d, d] == AcceptSteps(s);
      }
    }
  }

  /** The steps of an uninterrupted close_session. */
  ghost function CloseSteps(s: State): seq<Step>
    requires s.pending != [] && s.pending[|s.pending| - 1].Closing?
  {
    var d := Do(|s.pending| - 1, false);
    if s.pending[|s.pending| - 1].sid in s.flagged then [d]
    else if s.active > 0 then [d, d, d]
    else [d, d]
  }

  lemma CloseAgainRun(s: State, rest: seq<Item>, sid: nat)
    requires s.pending == rest + [Closing(sid)] && sid in s.flagged
    ensures IsRun(s, s.(pending := rest), CloseSteps(s))
  {
    DoLast(s, rest, Closing(sid), false);
    assert s.flagged + {sid} == s.flagged;
    RunNone(s.(pending := rest));
    RunCons(s, s.(pending := rest), s.(pending := rest), Do(|rest|, false), []);
  }

  lemma GuardRun(s: State, rest: seq<Item>, sid: nat)
    requires s.pending == rest + [Releasing(sid)] && s.active <= 0
    ensures IsRun(s, s.(pending := rest, guardFailed := true), [Do(|rest|, false)])
  {
    var s' := s.(pending := rest, guardFailed := true);
    DoLast(s, rest, Releasing(sid), false);
    RunNone(s');
    RunCons(s, s', s', Do(|rest|, false), []);
  }

  lemma ReleaseRun(s: State, rest: seq<Item>, sid: nat)
    requires s.pending == rest + [Releasing(sid)] && s.active > 0
    ensures
      var s' := s.(pending := rest, active := s.active - 1, uncounted := s.uncounted + {sid});
      IsRun(s, s', [Do(|rest|, false), Do(|rest|, false)])
  {
    var d := Do(|rest|, false);
    var mid := s.(pending := rest + [Uncounting(sid)]);
    var s' := s.(pending := rest, active := s.active - 1, uncounted := s.uncounted + {sid});
    DoLast(s, rest, Releasing(sid), false);
    DoLast(mid, rest, Uncounting(sid), false);
    RunNone(s');
    RunCons(mid, s', s', d, []);
    RunCons(s, mid, s', d, [d]);
  }

  /** Where the uninterrupted close_session ends up. */
  lemma CloseRun(s: State, rest: seq<Item>, sid: nat)
    requires s.pending == rest + [Closing(sid)]
    ensures
      var closed := s.(pending := rest, flagged := s.flagged + {sid});
      IsRun(s, if sid in s.flagged then s.(pending := rest)
               else if s.active > 0 then closed.(active := s.active - 1, uncounted := s.uncounted + {sid})
               else closed.(guardFailed := true), CloseSteps(s))
  {
    var d := Do(|rest|, false);
    if sid in s.flagged {
      CloseAgainRun(s, rest, sid);
    } else {
      var s1 := s.(flagged := s.flagged + {sid}, pending := rest + [Releasing(sid)]);
      DoLast(s, rest, Closing(sid), false);
      if s.active > 0 {
        ReleaseRun(s1, rest, sid);
        var s2 := s1.(pending := rest, active := s.active - 1, uncounted := s.uncounted + {sid});
        RunCons(s, s1, s2, d, [d, d]);
        assert [d] + [d, d] == CloseSteps(s);
      } else {
        GuardRun(s1, rest, sid);
        RunCons(s, s1, s1.(pending := rest, guardFailed := true), d, [d]);
        assert [d] + [d] == CloseSteps(s);
      }
    }
  }
}
