/**
 Announces, stops and cleanups running at the same time, one SQL statement at a time.

 A request moves through the statements of handle_request, update_peer and remove_peer and then
 through the two queries for its reply; between any two of them the statements of other requests
 and the cleanup may run. Every statement carries the time at which the server runs it.
*/
module SwarmProtocol {
  import opened Text
  import opened Records
  import opened SwarmTables
  import opened SwarmQueries
  import opened SwarmRefinement

  /** Where a request is: the next statement it will run, or how it was answered. */
  datatype Pc =
    | Arrived
    | Checked
    | TorrentReady
    | IdKnown(torrentId: nat)
    | Written
    | Listing
    | Counting(peers: seq<PeerInfo>)
    | Replied(listed: seq<PeerInfo>, stats: Stats)
    | Refused

  /** `wanted` is the number of peers the server is set to list. */
  datatype Request = Request(peer: PeerInfo, wanted: int, pc: Pc)

  /** What the last refresh of a hash saw: its time, and the rows it counted. */
  datatype Snapshot = Snapshot(time: int, seeders: set<nat>, leechers: set<nat>)

  /** `swept` are the hashes for which a cleanup has run since their last refresh. */
  datatype World = World(tables: Tables, requests: seq<Request>, refreshed: map<bytes, Snapshot>, swept: set<bytes>)

  /** `List` carries the answer of its query, which leaves the server some choice. */
  datatype Step =
    | Arrive(peer: PeerInfo, wanted: int)
    | Advance(i: nat, now: int)
    | List(i: nat, peers: seq<PeerInfo>)
    | Count(i: nat)
    | Sweep(age: int, now: int)

  predicate ValidPeer(peer: PeerInfo) {
    IsId(peer.infoHash) && IsId(peer.peerId) && peer.ip != [] && peer.port > 0
  }

  predicate AtStatement(pc: Pc) {
    pc.Arrived? || pc.Checked? || pc.TorrentReady? || pc.IdKnown? || pc.Written?
  }

  ghost predicate Enabled(w: World, step: Step) {
    match step
    case Arrive(_, _) => true
    case Sweep(_, _) => true
    case Advance(i, _) => i < |w.requests| && AtStatement(w.requests[i].pc)
    case Count(i) => i < |w.requests| && w.requests[i].pc.Counting?
    case List(i, peers) =>
      && i < |w.requests| && w.requests[i].pc == Listing
      && var r := w.requests[i];
      IsPeerList(w.tables, r.peer.infoHash, r.peer.peerId, r.wanted, peers)
  }

  function Goto(w: World, i: nat, pc: Pc): World
    requires i < |w.requests|
  {
    w.(requests := w.requests[i := w.requests[i].(pc := pc)])
  }

  function SnapshotOf(t: Tables, hash: bytes, now: int): Snapshot {
    Snapshot(now, Seeders(t, hash, now - WINDOW), Leechers(t, hash, now - WINDOW))
  }

  ghost function ArrivedStep(w: World, i: nat): World
    requires i < |w.requests|
  {
    var peer := w.requests[i].peer;
    if peer.infoHash == [] || peer.peerId == [] then Goto(w, i, Refused)
    else if peer.event == "stopped" then
      if IsId(peer.infoHash) && IsId(peer.peerId) then
        Goto(w.(tables := DeletePeer(w.tables, peer.peerId, peer.infoHash)), i, Written)
      else Goto(w, i, Listing)
    else if peer.event == "completed" && IsId(peer.infoHash) then
      Goto(w.(tables := Increment(w.tables, peer.infoHash)), i, Checked)
    else Goto(w, i, Checked)
  }

  ghost function CheckedStep(w: World, i: nat, now: int): World
    requires i < |w.requests|
  {
    var peer := w.requests[i].peer;
    if !ValidPeer(peer) then Goto(w, i, Refused)
    else
      var refreshed :=
        if Known(w.tables, peer.infoHash) then w.refreshed else w.refreshed[peer.infoHash := Snapshot(now, {}, {})];
      var swept := if Known(w.tables, peer.infoHash) then w.swept else w.swept - {peer.infoHash};
      var tables := UpsertTorrent(w.tables, peer.infoHash);
      Goto(w.(tables := tables, refreshed := refreshed, swept := swept), i, TorrentReady)
  }

  ghost function SelectStep(w: World, i: nat): World
    requires i < |w.requests|
  {
    match SelectId(w.tables, w.requests[i].peer.infoHash)
    case None => Goto(w, i, Refused)
    case Some(id) => Goto(w, i, IdKnown(id))
  }

  ghost function WriteStep(w: World, i: nat, torrentId: nat, now: int): World
    requires i < |w.requests|
  {
    if torrentId !in w.tables.torrents || !Storable(w.requests[i].peer) then Goto(w, i, Refused)
    else Goto(w.(tables := UpsertPeer(w.tables, torrentId, w.requests[i].peer, now)), i, Written)
  }

  function RefreshStep(w: World, i: nat, now: int): World
    requires i < |w.requests|
  {
    var h := w.requests[i].peer.infoHash;
    Goto(w.(tables := Refresh(w.tables, h, now),
            refreshed := w.refreshed[h := SnapshotOf(w.tables, h, now)],
            swept := w.swept - {h}), i, Listing)
  }

  ghost function CountStep(w: World, i: nat): World
    requires i < |w.requests| && w.requests[i].pc.Counting?
  {
    Goto(w, i, Replied(w.requests[i].pc.peers, StatsOf(w.tables, w.requests[i].peer.infoHash)))
  }

  ghost function Apply(w: World, step: Step): World
    requires Enabled(w, step)
  {
    match step
    case Arrive(peer, wanted) => w.(requests := w.requests + [Request(peer, wanted, Arrived)])
    case List(i, peers) => Goto(w, i, Counting(peers))
    case Count(i) => CountStep(w, i)
    case Sweep(age, now) => w.(tables := Cleanup(w.tables, age, now), swept := Hashes(w.tables))
    case Advance(i, now) =>
      match w.requests[i].pc
      case Arrived => ArrivedStep(w, i)
      case Checked => CheckedStep(w, i, now)
      case TorrentReady => SelectStep(w, i)
      case IdKnown(id) => WriteStep(w, i, id, now)
      case Written => RefreshStep(w, i, now)
  }

  ghost predicate CanRun(w: World, steps: seq<Step>)
    decreases |steps|
  {
    steps == [] || (Enabled(w, steps[0]) && CanRun(Apply(w, steps[0]), steps[1..]))
  }

  ghost function Run(w: World, steps: seq<Step>): World
    requires CanRun(w, steps)
    decreases |steps|
  {
    if steps == [] then w else Run(Apply(w, steps[0]), steps[1..])
  }

  const START := World(EMPTY, [], map[], {})

  // What every step keeps: the tables, and the ids in flight

  /** A torrent id that a request carries still names the torrent of the request's hash. */
  ghost predicate RequestOk(t: Tables, r: Request) {
    && (r.pc == TorrentReady ==> Known(t, r.peer.infoHash))
    && (r.pc.IdKnown? ==> IsTorrent(t, r.pc.torrentId, r.peer.infoHash))
  }

  ghost predicate Sound(w: World) {
    Consistent(w.tables) && forall i :: 0 <= i < |w.requests| ==> RequestOk(w.tables, w.requests[i])
  }

  /** Torrents stay where they are. */
  ghost predicate Grows(t: Tables, t': Tables) {
    forall id, h :: IsTorrent(t, id, h) ==> IsTorrent(t', id, h)
  }

  lemma RequestStaysOk(t: Tables, t': Tables, r: Request)
    requires RequestOk(t, r) && Grows(t, t')
    ensures RequestOk(t', r)
  {
    if r.pc == TorrentReady {
      var id :| IsTorrent(t, id, r.peer.infoHash);
      assert IsTorrent(t', id, r.peer.infoHash);
    }
  }

  lemma SoundAfter(w: World, w': World, i: nat)
    requires Sound(w) && Consistent(w'.tables) && Grows(w.tables, w'.tables)
    requires i < |w.requests| == |w'.requests| && w'.requests == w.requests[i := w'.requests[i]]
    requires RequestOk(w'.tables, w'.requests[i])
    ensures Sound(w')
  {
    forall k | 0 <= k < |w'.requests|
      ensures RequestOk(w'.tables, w'.requests[k])
    {
      if k != i {
        RequestStaysOk(w.tables, w'.tables, w.requests[k]);
      }
    }
  }

  lemma SameTorrentsGrow(t: Tables, t': Tables)
    requires t'.torrents.Keys == t.torrents.Keys
    requires forall id :: id in t.torrents ==> t'.torrents[id].hash == t.torrents[id].hash
    ensures Grows(t, t') && Grows(t', t)
  {
  }

  // The abstract effect of a step

  datatype Op =
    | Skip
    | DoTouch(hash: bytes)
    | DoPut(hash: bytes, peerId: bytes, peer: Peer)
    | DoDrop(hash: bytes, peerId: bytes)
    | DoExpire(cutoff: int)

  ghost function Effect(w: World, step: Step): Op {
    match step
    case Arrive(_, _) => Skip
    case List(_, _) => Skip
    case Count(_) => Skip
    case Sweep(age, now) => DoExpire(Cutoff(age, now))
    case Advance(i, now) =>
      if i >= |w.requests| then Skip
      else
        var peer := w.requests[i].peer;
        match w.requests[i].pc
        case Arrived =>
          if peer.event == "stopped" && IsId(peer.infoHash) && IsId(peer.peerId) then
            DoDrop(peer.infoHash, peer.peerId)
          else Skip
        case Checked => if ValidPeer(peer) then DoTouch(peer.infoHash) else Skip
        case IdKnown(_) => if Storable(peer) then DoPut(peer.infoHash, peer.peerId, Peer(FieldsOf(peer), now)) else Skip
        case _ => Skip
  }

  function Do(s: Swarm, op: Op): Swarm {
    match op
    case Skip => s
    case DoTouch(h) => Touch(s, h)
    case DoPut(h, p, peer) => Put(Touch(s, h), h, p, peer)
    case DoDrop(h, p) => Drop(s, h, p)
    case DoExpire(cutoff) => Expire(s, cutoff)
  }

  lemma StopRefines(w: World, i: nat, pc: Pc)
    requires Sound(w) && i < |w.requests| && pc == Written
    ensures
      var peer := w.requests[i].peer;
      var w' := Goto(w.(tables := DeletePeer(w.tables, peer.peerId, peer.infoHash)), i, pc);
      Sound(w') && View(w'.tables) == Drop(View(w.tables), peer.infoHash, peer.peerId)
  {
    var peer := w.requests[i].peer;
    var t' := DeletePeer(w.tables, peer.peerId, peer.infoHash);
    DeleteRefines(w.tables, peer.peerId, peer.infoHash);
    SameTorrentsGrow(w.tables, t');
    SoundAfter(w, Goto(w.(tables := t'), i, pc), i);
  }

  lemma CompletedRefines(w: World, i: nat, pc: Pc)
    requires Sound(w) && i < |w.requests| && pc == Checked
    ensures
      var w' := Goto(w.(tables := Increment(w.tables, w.requests[i].peer.infoHash)), i, pc);
      Sound(w') && View(w'.tables) == View(w.tables)
  {
    var h := w.requests[i].peer.infoHash;
    IncrementRefines(w.tables, h);
    SameTorrentsGrow(w.tables, Increment(w.tables, h));
    SoundAfter(w, Goto(w.(tables := Increment(w.tables, h)), i, pc), i);
  }

  lemma MoveRefines(w: World, i: nat, pc: Pc)
    requires Sound(w) && i < |w.requests| && pc != TorrentReady && !pc.IdKnown?
    ensures Sound(Goto(w, i, pc))
  {
    SoundAfter(w, Goto(w, i, pc), i);
  }

  lemma ArrivedRefines(w: World, i: nat, now: int)
    requires Sound(w) && i < |w.requests| && w.requests[i].pc == Arrived
    ensures Sound(ArrivedStep(w, i))
    ensures View(ArrivedStep(w, i).tables) == Do(View(w.tables), Effect(w, Advance(i, now)))
  {
    hide Sound, View;
    StopRefines(w, i, Written);
    CompletedRefines(w, i, Checked);
    MoveRefines(w, i, Checked);
    MoveRefines(w, i, Listing);
    MoveRefines(w, i, Refused);
  }

  lemma CheckedRefines(w: World, i: nat, now: int)
    requires Sound(w) && i < |w.requests| && w.requests[i].pc == Checked
    ensures Sound(CheckedStep(w, i, now))
    ensures View(CheckedStep(w, i, now).tables) == Do(View(w.tables), Effect(w, Advance(i, now)))
  {
    var peer := w.requests[i].peer;
    UpsertTorrentKeeps(w.tables, peer.infoHash);
    UpsertTorrentRefines(w.tables, peer.infoHash);
    SoundAfter(w, CheckedStep(w, i, now), i);
  }

  lemma SelectRefines(w: World, i: nat, now: int)
    requires Sound(w) && i < |w.requests| && w.requests[i].pc == TorrentReady
    ensures Sound(SelectStep(w, i)) && SelectStep(w, i).requests[i].pc.IdKnown?
    ensures View(SelectStep(w, i).tables) == Do(View(w.tables), Effect(w, Advance(i, now)))
  {
    assert RequestOk(w.tables, w.requests[i]);
    SelectedIsTorrent(w.tables, w.requests[i].peer.infoHash);
    SoundAfter(w, SelectStep(w, i), i);
  }

  lemma WriteIsSound(w: World, i: nat, now: int)
    requires Sound(w) && i < |w.requests| && w.requests[i].pc.IdKnown?
    ensures Sound(WriteStep(w, i, w.requests[i].pc.torrentId, now))
  {
    var torrentId, peer := w.requests[i].pc.torrentId, w.requests[i].peer;
    assert RequestOk(w.tables, w.requests[i]);
    if Storable(peer) {
      UpsertPeerKeeps(w.tables, torrentId, peer, now);
      SameTorrentsGrow(w.tables, UpsertPeer(w.tables, torrentId, peer, now));
      SoundAfter(w, WriteStep(w, i, torrentId, now), i);
    } else {
      MoveRefines(w, i, Refused);
    }
  }

  lemma WriteRefines(w: World, i: nat, now: int)
    requires Sound(w) && i < |w.requests| && w.requests[i].pc.IdKnown?
    ensures
      var w' := WriteStep(w, i, w.requests[i].pc.torrentId, now);
      && Sound(w') && View(w'.tables) == Do(View(w.tables), Effect(w, Advance(i, now)))
      && w'.requests[i].pc == if Storable(w.requests[i].peer) then Written else Refused
  {
    assert RequestOk(w.tables, w.requests[i]);
    UpsertPeerRefines(w.tables, w.requests[i].pc.torrentId, w.requests[i].peer, now);
    WriteIsSound(w, i, now);
  }

  lemma RefreshStepRefines(w: World, i: nat, now: int)
    requires Sound(w) && i < |w.requests| && w.requests[i].pc == Written
    ensures Sound(RefreshStep(w, i, now))
    ensures View(RefreshStep(w, i, now).tables) == Do(View(w.tables), Effect(w, Advance(i, now)))
  {
    var h := w.requests[i].peer.infoHash;
    RefreshRefines(w.tables, h, now);
    SameTorrentsGrow(w.tables, Refresh(w.tables, h, now));
    SoundAfter(w, RefreshStep(w, i, now), i);
  }

  lemma SweepRefines(w: World, age: int, now: int)
    requires Sound(w)
    ensures Sound(Apply(w, Sweep(age, now)))
    ensures View(Apply(w, Sweep(age, now)).tables) == Do(View(w.tables), Effect(w, Sweep(age, now)))
  {
    CleanupRefines(w.tables, age, now);
    var w' := Apply(w, Sweep(age, now));
    SameTorrentsGrow(w.tables, w'.tables);
    forall k | 0 <= k < |w'.requests|
      ensures RequestOk(w'.tables, w'.requests[k])
    {
      RequestStaysOk(w.tables, w'.tables, w.requests[k]);
    }
  }

  /** Every statement of every request is one update of the simple swarm, and keeps the tables consistent. */
  lemma StepRefines(w: World, step: Step)
    requires Sound(w) && Enabled(w, step)
    ensures Sound(Apply(w, step)) && View(Apply(w, step).tables) == Do(View(w.tables), Effect(w, step))
  {
    match step
    case Arrive(_, _) =>
    case List(i, peers) => MoveRefines(w, i, Counting(peers));
    case Count(i) => MoveRefines(w, i, CountStep(w, i).requests[i].pc);
    case Sweep(age, now) => SweepRefines(w, age, now);
    case Advance(i, now) =>
      match w.requests[i].pc {
        case Arrived => ArrivedRefines(w, i, now);
        case Checked => CheckedRefines(w, i, now);
        case TorrentReady => SelectRefines(w, i, now);
        case IdKnown(_) => WriteRefines(w, i, now);
        case Written => RefreshStepRefines(w, i, now);
      }
  }

  ghost function Effects(w: World, steps: seq<Step>): seq<Op>
    requires CanRun(w, steps)
    decreases |steps|
  {
    if steps == [] then [] else [Effect(w, steps[0])] + Effects(Apply(w, steps[0]), steps[1..])
  }

  function DoAll(s: Swarm, ops: seq<Op>): Swarm
    decreases |ops|
  {
    if ops == [] then s else DoAll(Do(s, ops[0]), ops[1..])
  }

  lemma {:induction false} RunRefines(w: World, steps: seq<Step>)
    requires Sound(w) && CanRun(w, steps)
    ensures Sound(Run(w, steps))
    ensures View(Run(w, steps).tables) == DoAll(View(w.tables), Effects(w, steps))
    decreases |steps|
  {
    if steps != [] {
      StepRefines(w, steps[0]);
      RunRefines(Apply(w, steps[0]), steps[1..]);
    }
  }

  lemma StartIsSound()
    ensures Sound(START) && View(START.tables) == map[]
  {
    assert forall id, h :: !IsTorrent(EMPTY, id, h);
    assert Hashes(EMPTY) == {};
  }

  /**
   In every interleaving of announces, stops and cleanups from empty tables, info hashes and
   (torrent, peer id) pairs stay unique, foreign keys hold, the hash stored with a peer is that of
   its torrent, and the tables stand for the swarm that the statements' simple updates give.
  */
  lemma TablesRefineSwarm(steps: seq<Step>)
    requires CanRun(START, steps)
    ensures Consistent(Run(START, steps).tables)
    ensures View(Run(START, steps).tables) == DoAll(map[], Effects(START, steps))
  {
    StartIsSound();
    RunRefines(START, steps);
  }
}
