/**
 Whole requests, one after the other: what update_peer, remove_peer and handle_request make of the
 tables, why that is a run of the interleaved protocol, and how the history of requests and
 cleanups decides who is in the swarm.
*/
module SwarmHistory {
  import opened Options
  import opened Text
  import opened Records
  import opened SwarmTables
  import opened SwarmRefinement
  import opened SwarmProtocol
  import opened SwarmTotals

  // Whole operations

  /**
   update_peer: the peer is written at `now`, the counts are refreshed at `later`. When the server
   refuses the peer's statement, the torrent's row has been made already.
  */
  ghost function Updated(t: Tables, peer: PeerInfo, now: int, later: int): Tables {
    if !ValidPeer(peer) then t
    else
      var t1 := UpsertTorrent(t, peer.infoHash);
      match SelectId(t1, peer.infoHash)
      case None => t1
      case Some(id) => if Storable(peer) then Refresh(UpsertPeer(t1, id, peer, now), peer.infoHash, later) else t1
  }

  /** The announce is one that update_peer carries through. */
  predicate Accepted(peer: PeerInfo) {
    ValidPeer(peer) && Storable(peer)
  }

  /** remove_peer. */
  function Removed(t: Tables, peerId: bytes, hash: bytes, later: int): Tables {
    if IsId(hash) && IsId(peerId) then Refresh(DeletePeer(t, peerId, hash), hash, later) else t
  }

  /** increment_downloaded. */
  function Counted(t: Tables, hash: bytes): Tables {
    if IsId(hash) then Increment(t, hash) else t
  }

  /** What an announce does to the tables. */
  ghost function Announced(t: Tables, peer: PeerInfo, now: int, later: int): Tables {
    if peer.infoHash == [] || peer.peerId == [] then t
    else if peer.event == "stopped" then Removed(t, peer.peerId, peer.infoHash, later)
    else Updated(if peer.event == "completed" then Counted(t, peer.infoHash) else t, peer, now, later)
  }

  datatype Event = Announce(peer: PeerInfo, now: int, later: int) | Clean(age: int, now: int)

  ghost function Handle(t: Tables, e: Event): Tables {
    match e
    case Announce(peer, now, later) => Announced(t, peer, now, later)
    case Clean(age, now) => Cleanup(t, age, now)
  }

  ghost function After(t: Tables, es: seq<Event>): Tables
    decreases |es|
  {
    if es == [] then t else After(Handle(t, es[0]), es[1..])
  }

  // On the simple swarm

  predicate Writes(e: Event, hash: bytes, peerId: bytes) {
    e.Announce? && e.peer.infoHash == hash && e.peer.peerId == peerId && e.peer.event != "stopped" && Accepted(e.peer)
  }

  predicate Stops(e: Event, hash: bytes, peerId: bytes) {
    e.Announce? && e.peer.infoHash == hash && e.peer.peerId == peerId && e.peer.event == "stopped"
  }

  function OpOf(e: Event): Op {
    match e
    case Clean(age, now) => DoExpire(Cutoff(age, now))
    case Announce(peer, now, _) =>
      if Writes(e, peer.infoHash, peer.peerId) then DoPut(peer.infoHash, peer.peerId, Peer(FieldsOf(peer), now))
      else if peer.event == "stopped" && IsId(peer.infoHash) && IsId(peer.peerId) then
        DoDrop(peer.infoHash, peer.peerId)
      else if peer.event != "stopped" && ValidPeer(peer) then DoTouch(peer.infoHash)
      else Skip
  }

  function OpsOf(es: seq<Event>): (ops: seq<Op>)
    ensures |ops| == |es|
    ensures forall i :: 0 <= i < |es| ==> ops[i] == OpOf(es[i])
  {
    if es == [] then [] else [OpOf(es[0])] + OpsOf(es[1..])
  }

  /** What update_peer does to the swarm when the data are valid. */
  function UpdateOp(peer: PeerInfo, now: int): Op {
    if Storable(peer) then DoPut(peer.infoHash, peer.peerId, Peer(FieldsOf(peer), now)) else DoTouch(peer.infoHash)
  }

  lemma UpdatedRefines(t: Tables, peer: PeerInfo, now: int, later: int)
    requires Consistent(t) && ValidPeer(peer)
    ensures Consistent(Updated(t, peer, now, later))
    ensures View(Updated(t, peer, now, later)) == Do(View(t), UpdateOp(peer, now))
    ensures SelectId(UpsertTorrent(t, peer.infoHash), peer.infoHash).Some?
  {
    var h := peer.infoHash;
    var t1 := UpsertTorrent(t, h);
    UpsertTorrentRefines(t, h);
    UpsertTorrentKeeps(t, h);
    SelectedIsTorrent(t1, h);
    if Storable(peer) {
      var id := SelectId(t1, h).value;
      UpsertPeerRefines(t1, id, peer, now);
      RefreshRefines(UpsertPeer(t1, id, peer, now), h, later);
    }
  }

  lemma RemovedRefines(t: Tables, peerId: bytes, hash: bytes, later: int)
    requires Consistent(t)
    ensures Consistent(Removed(t, peerId, hash, later))
    ensures View(Removed(t, peerId, hash, later)) ==
      if IsId(hash) && IsId(peerId) then Drop(View(t), hash, peerId) else View(t)
  {
    DeleteRefines(t, peerId, hash);
    RefreshRefines(DeletePeer(t, peerId, hash), hash, later);
  }

  lemma CountedRefines(t: Tables, hash: bytes)
    requires Consistent(t)
    ensures Consistent(Counted(t, hash)) && View(Counted(t, hash)) == View(t)
  {
    IncrementRefines(t, hash);
  }

  lemma AnnouncedRefines(t: Tables, peer: PeerInfo, now: int, later: int)
    requires Consistent(t)
    ensures Consistent(Announced(t, peer, now, later))
    ensures View(Announced(t, peer, now, later)) == Do(View(t), OpOf(Announce(peer, now, later)))
  {
    if peer.event == "stopped" {
      RemovedRefines(t, peer.peerId, peer.infoHash, later);
    } else {
      var t1 := if peer.event == "completed" then Counted(t, peer.infoHash) else t;
      CountedRefines(t, peer.infoHash);
      if ValidPeer(peer) {
        UpdatedRefines(t1, peer, now, later);
      }
    }
  }

  /** A whole request, or a cleanup, is one update of the swarm. */
  lemma HandleRefines(t: Tables, e: Event)
    requires Consistent(t)
    ensures Consistent(Handle(t, e)) && View(Handle(t, e)) == Do(View(t), OpOf(e))
  {
    match e
    case Clean(age, now) => CleanupRefines(t, age, now);
    case Announce(peer, now, later) => AnnouncedRefines(t, peer, now, later);
  }

  lemma {:induction false} AfterRefines(t: Tables, es: seq<Event>)
    requires Consistent(t)
    ensures Consistent(After(t, es)) && View(After(t, es)) == DoAll(View(t), OpsOf(es))
    decreases |es|
  {
    if es != [] {
      HandleRefines(t, es[0]);
      AfterRefines(Handle(t, es[0]), es[1..]);
      assert OpsOf(es)[1..] == OpsOf(es[1..]);
    }
  }

  // The last write that nothing undid

  ghost function At(s: Swarm, hash: bytes, peerId: bytes): Option<Peer> {
    if hash in s && peerId in s[hash] then Some(s[hash][peerId]) else None
  }

  /** After `op` the peer written as `x` is no longer there, or no longer as `x`. */
  predicate Undoes(op: Op, hash: bytes, peerId: bytes, x: Peer) {
    match op
    case DoPut(h, p, _) => h == hash && p == peerId
    case DoDrop(h, p) => h == hash && p == peerId
    case DoExpire(cutoff) => x.lastSeen < cutoff
    case _ => false
  }

  ghost predicate Survives(ops: seq<Op>, i: nat, hash: bytes, peerId: bytes, x: Peer) {
    && i < |ops| && ops[i] == DoPut(hash, peerId, x)
    && forall j :: i < j < |ops| ==> !Undoes(ops[j], hash, peerId, x)
  }

  lemma DoAt(s: Swarm, op: Op, hash: bytes, peerId: bytes)
    ensures At(Do(s, op), hash, peerId) ==
      if op.DoPut? && op.hash == hash && op.peerId == peerId then Some(op.peer)
      else match At(s, hash, peerId)
        case None => None
        case Some(x) => if Undoes(op, hash, peerId, x) then None else Some(x)
  {
  }

  lemma {:induction false} DoAllSnoc(s: Swarm, ops: seq<Op>, op: Op)
    ensures DoAll(s, ops + [op]) == Do(DoAll(s, ops), op)
    decreases |ops|
  {
    if ops == [] {
      assert (ops + [op])[1..] == [];
    } else {
      DoAllSnoc(Do(s, ops[0]), ops[1..], op);
      assert (ops + [op])[1..] == ops[1..] + [op];
    }
  }

  /** A peer is there with given fields exactly when some write put it there and nothing after undid it. */
  lemma {:induction false} LastWriteSurvives(ops: seq<Op>, hash: bytes, peerId: bytes, x: Peer)
    ensures At(DoAll(map[], ops), hash, peerId) == Some(x) <==> exists i :: Survives(ops, i, hash, peerId, x)
    decreases |ops|
  {
    if ops != [] {
      var n := |ops| - 1;
      var before, op := ops[..n], ops[n];
      LastWriteSurvives(before, hash, peerId, x);
      assert before + [op] == ops;
      DoAllSnoc(map[], before, op);
      DoAt(DoAll(map[], before), op, hash, peerId);
      if op == DoPut(hash, peerId, x) {
        assert Survives(ops, n, hash, peerId, x);
      }
      forall i: nat | i < n
        ensures Survives(ops, i, hash, peerId, x) <==>
          Survives(before, i, hash, peerId, x) && !Undoes(op, hash, peerId, x)
      {
        assert forall j :: 0 <= j < n ==> before[j] == ops[j];
      }
    }
  }

  /**
   In every interleaving of announces, stops and cleanups a peer is in the tables with given fields
   exactly when some statement wrote them and no later write, delete or cleanup undid it.
  */
  lemma MembershipInterleaved(steps: seq<Step>, hash: bytes, peerId: bytes, x: Peer)
    requires CanRun(START, steps)
    ensures PeerOf(Run(START, steps).tables, hash, peerId) == Some(x) <==>
      exists i :: Survives(Effects(START, steps), i, hash, peerId, x)
  {
    TablesRefineSwarm(steps);
    LastWriteSurvives(Effects(START, steps), hash, peerId, x);
    PeerIsAt(Run(START, steps).tables, hash, peerId);
  }

  lemma PeerIsAt(t: Tables, hash: bytes, peerId: bytes)
    requires Consistent(t)
    ensures PeerOf(t, hash, peerId) == At(View(t), hash, peerId)
  {
    ViewKnows(t, hash);
    if hash in View(t) {
      ViewAt(t, hash, peerId);
    } else {
      UnknownHasNoPeer(t, hash, peerId);
    }
  }

  /** An announce of the peer that is not a stop, with all the tracker asks of it. */
  predicate Announces(e: Event, hash: bytes, peerId: bytes) {
    && e.Announce? && e.peer.infoHash == hash && e.peer.peerId == peerId && e.peer.event != "stopped"
    && IsId(hash) && IsId(peerId)
    && e.peer.ip != [] && e.peer.port > 0 && NUL !in e.peer.ip && NUL !in e.peer.event
  }

  /** The announce at `i` wrote the peer, and no later request or cleanup undid that. */
  ghost predicate Remains(es: seq<Event>, i: nat, hash: bytes, peerId: bytes) {
    && i < |es| && Announces(es[i], hash, peerId)
    && forall j :: i < j < |es| ==>
      && !Announces(es[j], hash, peerId)
      && !Stops(es[j], hash, peerId)
      && (es[j].Clean? ==> es[i].now >= es[j].now - if es[j].age >= 60 then es[j].age else 60)
  }

  /** What the tables then have of the peer, column by column. */
  ghost predicate RemainsAs(es: seq<Event>, i: nat, hash: bytes, peerId: bytes, x: Peer) {
    && Remains(es, i, hash, peerId)
    && var peer := es[i].peer;
    && x.fields.ip == peer.ip && x.fields.port == peer.port
    && x.fields.uploaded == peer.uploaded && x.fields.downloaded == peer.downloaded
    && x.fields.left == peer.left && x.fields.event == peer.event
    && x.lastSeen == es[i].now
  }

  lemma AnnouncesWrite(e: Event, hash: bytes, peerId: bytes)
    ensures Announces(e, hash, peerId) <==> Writes(e, hash, peerId)
  {
  }

  lemma RemainsIsSurvives(es: seq<Event>, i: nat, hash: bytes, peerId: bytes, x: Peer)
    ensures Survives(OpsOf(es), i, hash, peerId, x) <==> RemainsAs(es, i, hash, peerId, x)
  {
    if i < |es| {
      AnnouncesWrite(es[i], hash, peerId);
    }
    if i < |es| && Writes(es[i], hash, peerId) {
      forall j | i < j < |es|
        ensures Undoes(OpsOf(es)[j], hash, peerId, Peer(FieldsOf(es[i].peer), es[i].now)) <==>
          || Announces(es[j], hash, peerId) || Stops(es[j], hash, peerId)
          || (es[j].Clean? && es[i].now < es[j].now - if es[j].age >= 60 then es[j].age else 60)
      {
        AnnouncesWrite(es[j], hash, peerId);
      }
    }
  }

  /**
   After any sequence of announces, stops and cleanups, a peer is in the tables exactly when a
   valid announce put it there and since then there was no announce or stop of it and no cleanup
   with a cutoff after the announce; its fields are those of that announce.
  */
  lemma MembershipByHistory(es: seq<Event>, hash: bytes, peerId: bytes, x: Peer)
    ensures PeerOf(After(EMPTY, es), hash, peerId) == Some(x) <==> exists i :: RemainsAs(es, i, hash, peerId, x)
  {
    StartIsSound();
    AfterRefines(EMPTY, es);
    PeerIsAt(After(EMPTY, es), hash, peerId);
    LastWriteSurvives(OpsOf(es), hash, peerId, x);
    forall i
      ensures Survives(OpsOf(es), i, hash, peerId, x) <==> RemainsAs(es, i, hash, peerId, x)
    {
      RemainsIsSurvives(es, i, hash, peerId, x);
    }
  }

  // A sequence of requests is a run of the protocol

  lemma {:induction false} OneMore(w: World, steps: seq<Step>, step: Step)
    requires CanRun(w, steps) && Enabled(Run(w, steps), step)
    ensures CanRun(w, steps + [step]) && Run(w, steps + [step]) == Apply(Run(w, steps), step)
    decreases |steps|
  {
    var all := steps + [step];
    if steps == [] {
      assert all[1..] == [];
    } else {
      OneMore(Apply(w, steps[0]), steps[1..], step);
      assert all[1..] == steps[1..] + [step];
    }
  }

  lemma StopIsRun(w: World, steps: seq<Step>, now: int, i: nat) returns (all: seq<Step>)
    requires CanRun(w, steps) && i < |Run(w, steps).requests|
    requires Run(w, steps).requests[i].pc == Written
    ensures CanRun(w, all)
    ensures Run(w, all).tables == Refresh(Run(w, steps).tables, Run(w, steps).requests[i].peer.infoHash, now)
  {
    OneMore(w, steps, Advance(i, now));
    all := steps + [Advance(i, now)];
  }

  lemma UpdateIsRun(w: World, steps: seq<Step>, i: nat, now: int, later: int) returns (all: seq<Step>)
    requires CanRun(w, steps) && i < |Run(w, steps).requests| && Sound(Run(w, steps))
    requires Run(w, steps).requests[i].pc == Checked
    ensures CanRun(w, all)
    ensures Run(w, all).tables == Updated(Run(w, steps).tables, Run(w, steps).requests[i].peer, now, later)
  {
    var w0 := Run(w, steps);
    var peer := w0.requests[i].peer;
    OneMore(w, steps, Advance(i, now));
    all := steps + [Advance(i, now)];
    if ValidPeer(peer) {
      UpdatedRefines(w0.tables, peer, now, later);
      CheckedRefines(w0, i, now);
      var w1 := Run(w, all);
      OneMore(w, all, Advance(i, now));
      all := all + [Advance(i, now)];
      SelectRefines(w1, i, now);
      var w2 := Run(w, all);
      OneMore(w, all, Advance(i, now));
      all := all + [Advance(i, now)];
      WriteRefines(w2, i, now);
      if Storable(peer) {
        all := StopIsRun(w, all, later, i);
      }
    }
  }

  lemma AnnounceIsRun(w: World, steps: seq<Step>, peer: PeerInfo, wanted: int, now: int, later: int)
    returns (all: seq<Step>)
    requires CanRun(w, steps) && Sound(Run(w, steps))
    ensures CanRun(w, all) && Run(w, all).tables == Announced(Run(w, steps).tables, peer, now, later)
  {
    var w0 := Run(w, steps);
    var i := |w0.requests|;
    OneMore(w, steps, Step.Arrive(peer, wanted));
    all := steps + [Step.Arrive(peer, wanted)];
    var w1 := Run(w, all);
    StepRefines(w0, Step.Arrive(peer, wanted));
    OneMore(w, all, Advance(i, now));
    all := all + [Advance(i, now)];
    ArrivedRefines(w1, i, now);
    if peer.infoHash != [] && peer.peerId != [] {
      if peer.event != "stopped" {
        all := UpdateIsRun(w, all, i, now, later);
      } else if IsId(peer.infoHash) && IsId(peer.peerId) {
        all := StopIsRun(w, all, later, i);
      }
    }
  }

  /** Handling requests one after the other is one of the interleavings. */
  lemma {:induction false} AfterIsRun(w: World, steps: seq<Step>, es: seq<Event>, wanted: int)
    returns (all: seq<Step>)
    requires Sound(w) && CanRun(w, steps)
    ensures CanRun(w, all) && Run(w, all).tables == After(Run(w, steps).tables, es)
    decreases |es|
  {
    all := steps;
    RunRefines(w, steps);
    if es != [] {
      match es[0] {
        case Announce(peer, now, later) => all := AnnounceIsRun(w, steps, peer, wanted, now, later);
        case Clean(age, now) =>
          OneMore(w, steps, Sweep(age, now));
          all := steps + [Sweep(age, now)];
      }
      all := AfterIsRun(w, all, es[1..], wanted);
    }
  }

  // Downloads

  lemma RemovedKeepsDownloads(t: Tables, peerId: bytes, h: bytes, later: int, hash: bytes)
    requires Consistent(t)
    ensures DownloadedOf(Removed(t, peerId, h, later), hash) == DownloadedOf(t, hash)
  {
    var t1 := DeletePeer(t, peerId, h);
    DeleteRefines(t, peerId, h);
    DownloadedSame(t, t1, hash);
    RefreshRefines(t1, h, later);
    DownloadedSame(t1, Refresh(t1, h, later), hash);
  }

  lemma UpdatedKeepsDownloads(t: Tables, peer: PeerInfo, now: int, later: int, hash: bytes)
    requires Consistent(t) && ValidPeer(peer)
    ensures DownloadedOf(Updated(t, peer, now, later), hash) == DownloadedOf(t, hash)
  {
    var h := peer.infoHash;
    var t1 := UpsertTorrent(t, h);
    UpsertTorrentKeeps(t, h);
    DownloadedUpsert(t, h, hash);
    SelectedIsTorrent(t1, h);
    if Storable(peer) {
      var id := SelectId(t1, h).value;
      var t2 := UpsertPeer(t1, id, peer, now);
      UpsertPeerKeeps(t1, id, peer, now);
      DownloadedSame(t1, t2, hash);
      RefreshRefines(t2, h, later);
      DownloadedSame(t2, Refresh(t2, h, later), hash);
    }
  }

  /**
   An announce changes no download counter but that of its own torrent, and that one only by one and
   only for the event "completed" of a torrent that had a row before: the counter is raised before
   the row is made, so the very first completed announce is not counted.
  */
  lemma DownloadsByEvent(t: Tables, peer: PeerInfo, now: int, later: int, hash: bytes)
    requires Consistent(t)
    ensures DownloadedOf(Announced(t, peer, now, later), hash) ==
      DownloadedOf(t, hash) +
      if peer.event == "completed" && peer.infoHash == hash && IsId(hash) && peer.peerId != [] && Known(t, hash) then 1
      else 0
  {
    var h := peer.infoHash;
    if h == [] || peer.peerId == [] {
      return;
    }
    if peer.event == "stopped" {
      RemovedKeepsDownloads(t, peer.peerId, h, later, hash);
    } else {
      var t1 := if peer.event == "completed" then Counted(t, h) else t;
      CountedRefines(t, h);
      DownloadedIncrement(t, h, hash);
      if ValidPeer(peer) {
        UpdatedKeepsDownloads(t1, peer, now, later, hash);
      }
    }
  }

  /** In particular a valid completed announce is counted exactly when its torrent had a row before. */
  lemma FirstCompletedIsNotCounted(t: Tables, peer: PeerInfo, now: int, later: int)
    requires Consistent(t) && ValidPeer(peer) && peer.event == "completed"
    ensures DownloadedOf(Announced(t, peer, now, later), peer.infoHash) ==
      DownloadedOf(t, peer.infoHash) + (if Known(t, peer.infoHash) then 1 else 0)
  {
    DownloadsByEvent(t, peer, now, later, peer.infoHash);
  }
}
