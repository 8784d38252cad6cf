/** Every statement on the two tables is an update of the swarm they stand for, or leaves it alone. */
module SwarmRefinement {
  import opened Options
  import opened Text
  import opened Records
  import opened SwarmTables

  // The simple swarm

  function Touch(w: Swarm, hash: bytes): Swarm {
    if hash in w then w else w[hash := map[]]
  }

  function Put(w: Swarm, hash: bytes, peerId: bytes, peer: Peer): Swarm
    requires hash in w
  {
    w[hash := w[hash][peerId := peer]]
  }

  function Drop(w: Swarm, hash: bytes, peerId: bytes): Swarm {
    if hash in w then w[hash := w[hash] - {peerId}] else w
  }

  function Expire(w: Swarm, cutoff: int): Swarm {
    map h | h in w :: map p | p in w[h] && w[h][p].lastSeen >= cutoff :: w[h][p]
  }

  // Row by row

  lemma NoRowNoPeer(t: Tables, hash: bytes, peerId: bytes)
    requires forall id :: !IsRow(t, id, hash, peerId)
    ensures PeerOf(t, hash, peerId) == None
  {
  }

  /** The peer depends on the rows of its hash and id alone. */
  lemma SameRowsSamePeer(t: Tables, t': Tables, hash: bytes, peerId: bytes)
    requires Consistent(t) && Consistent(t')
    requires forall id :: IsRow(t, id, hash, peerId) <==> IsRow(t', id, hash, peerId)
    requires forall id :: IsRow(t, id, hash, peerId) ==>
      id in t'.peers && t'.peers[id].fields == t.peers[id].fields && t'.peers[id].lastSeen == t.peers[id].lastSeen
    ensures PeerOf(t', hash, peerId) == PeerOf(t, hash, peerId)
  {
    if id :| IsRow(t, id, hash, peerId) {
      PeerOfRow(t, id, hash, peerId);
      PeerOfRow(t', id, hash, peerId);
    } else {
      NoRowNoPeer(t, hash, peerId);
      NoRowNoPeer(t', hash, peerId);
    }
  }

  lemma WrittenPeer(t: Tables, t': Tables, id: nat, peer: PeerInfo, now: int, h: bytes, p: bytes)
    requires Consistent(t) && Consistent(t') && IsWritten(t, t', id, peer, now)
    ensures PeerOf(t', h, p) ==
      if h == peer.infoHash && p == peer.peerId then Some(Peer(FieldsOf(peer), now)) else PeerOf(t, h, p)
  {
    if h == peer.infoHash && p == peer.peerId {
      PeerOfRow(t', id, h, p);
    } else {
      forall k
        ensures IsRow(t, k, h, p) <==> IsRow(t', k, h, p)
        ensures IsRow(t, k, h, p) ==> k != id
      {
      }
      SameRowsSamePeer(t, t', h, p);
    }
  }

  lemma DeletedPeer(t: Tables, peerId: bytes, hash: bytes, h: bytes, p: bytes)
    requires Consistent(t)
    ensures PeerOf(DeletePeer(t, peerId, hash), h, p) == if h == hash && p == peerId then None else PeerOf(t, h, p)
  {
    var t' := DeletePeer(t, peerId, hash);
    DeletedRows(t, peerId, hash);
    RemovalKeeps(t, t');
    if h == hash && p == peerId {
      NoRowNoPeer(t', h, p);
    } else {
      SameRowsSamePeer(t, t', h, p);
    }
  }

  lemma ExpiredPeer(t: Tables, age: int, now: int, h: bytes, p: bytes)
    requires Consistent(t)
    ensures PeerOf(Cleanup(t, age, now), h, p) ==
      match PeerOf(t, h, p)
      case None => None
      case Some(peer) => if peer.lastSeen >= Cutoff(age, now) then Some(peer) else None
  {
    var t' := Cleanup(t, age, now);
    RemovalKeeps(t, t');
    if id :| IsRow(t, id, h, p) {
      PeerOfRow(t, id, h, p);
      if t.peers[id].lastSeen >= Cutoff(age, now) {
        PeerOfRow(t', id, h, p);
      } else {
        forall k
          ensures !IsRow(t', k, h, p)
        {
          if IsRow(t', k, h, p) {
            assert IsRow(t, k, h, p);
            RowIsUnique(t, id, k, h, p);
          }
        }
        NoRowNoPeer(t', h, p);
      }
    } else {
      NoRowNoPeer(t, h, p);
      forall k
        ensures !IsRow(t', k, h, p)
      {
        assert IsRow(t', k, h, p) ==> IsRow(t, k, h, p);
      }
      NoRowNoPeer(t', h, p);
    }
  }

  // Statement by statement

  lemma UpsertTorrentRefines(t: Tables, hash: bytes)
    requires Consistent(t)
    ensures Consistent(UpsertTorrent(t, hash)) && View(UpsertTorrent(t, hash)) == Touch(View(t), hash)
  {
    var t' := UpsertTorrent(t, hash);
    UpsertTorrentKeeps(t, hash);
    var w := Touch(View(t), hash);
    forall h
      ensures Known(t', h) <==> h in w
    {
      ViewKnows(t, h);
      ViewKnows(t, hash);
    }
    forall h, p | h in w
      ensures PeerOf(t', h, p) == if p in w[h] then Some(w[h][p]) else None
    {
      SameRowsSamePeer(t, t', h, p);
      ViewKnows(t, h);
      if h in View(t) {
        ViewAt(t, h, p);
      } else {
        UnknownHasNoPeer(t, h, p);
      }
    }
    ViewIs(t', w);
  }

  /** A hash without torrent row has no peer rows. */
  lemma UnknownHasNoPeer(t: Tables, h: bytes, p: bytes)
    requires Consistent(t) && !Known(t, h)
    ensures PeerOf(t, h, p) == None
    ensures forall id :: id in t.peers ==> t.peers[id].hash != h
  {
    forall id | id in t.peers
      ensures t.peers[id].hash != h
    {
      assert IsTorrent(t, t.peers[id].torrentId, t.peers[id].hash);
    }
    NoRowNoPeer(t, h, p);
  }

  lemma UpsertPeerRefines(t: Tables, torrentId: nat, peer: PeerInfo, now: int)
    requires Consistent(t) && IsTorrent(t, torrentId, peer.infoHash)
    ensures peer.infoHash in View(t)
    ensures Consistent(UpsertPeer(t, torrentId, peer, now))
    ensures View(UpsertPeer(t, torrentId, peer, now)) ==
      Put(View(t), peer.infoHash, peer.peerId, Peer(FieldsOf(peer), now))
  {
    var t' := UpsertPeer(t, torrentId, peer, now);
    UpsertPeerKeeps(t, torrentId, peer, now);
    var id :| IsWritten(t, t', id, peer, now);
    ViewKnows(t, peer.infoHash);
    var w := Put(View(t), peer.infoHash, peer.peerId, Peer(FieldsOf(peer), now));
    forall h
      ensures Known(t', h) <==> h in w
    {
      ViewKnows(t, h);
      SameTorrents(t, t', h);
    }
    forall h, p | h in w
      ensures PeerOf(t', h, p) == if p in w[h] then Some(w[h][p]) else None
    {
      WrittenPeer(t, t', id, peer, now, h, p);
      ViewAt(t, h, p);
    }
    ViewIs(t', w);
  }

  lemma SameTorrents(t: Tables, t': Tables, h: bytes)
    requires t'.torrents == t.torrents
    ensures Known(t', h) <==> Known(t, h)
    ensures forall id :: IsTorrent(t', id, h) <==> IsTorrent(t, id, h)
  {
    forall id
      ensures IsTorrent(t', id, h) <==> IsTorrent(t, id, h)
    {
    }
  }

  lemma DeleteRefines(t: Tables, peerId: bytes, hash: bytes)
    requires Consistent(t)
    ensures Consistent(DeletePeer(t, peerId, hash)) && View(DeletePeer(t, peerId, hash)) == Drop(View(t), hash, peerId)
  {
    var t' := DeletePeer(t, peerId, hash);
    DeletedRows(t, peerId, hash);
    RemovalKeeps(t, t');
    var w := Drop(View(t), hash, peerId);
    forall h
      ensures Known(t', h) <==> h in w
    {
      ViewKnows(t, h);
      SameTorrents(t, t', h);
    }
    forall h, p | h in w
      ensures PeerOf(t', h, p) == if p in w[h] then Some(w[h][p]) else None
    {
      DeletedPeer(t, peerId, hash, h, p);
      ViewAt(t, h, p);
    }
    ViewIs(t', w);
  }

  lemma CleanupRefines(t: Tables, age: int, now: int)
    requires Consistent(t)
    ensures Consistent(Cleanup(t, age, now)) && View(Cleanup(t, age, now)) == Expire(View(t), Cutoff(age, now))
  {
    var t' := Cleanup(t, age, now);
    RemovalKeeps(t, t');
    var w := Expire(View(t), Cutoff(age, now));
    forall h
      ensures Known(t', h) <==> h in w
    {
      ViewKnows(t, h);
      SameTorrents(t, t', h);
    }
    forall h, p | h in w
      ensures PeerOf(t', h, p) == if p in w[h] then Some(w[h][p]) else None
    {
      ExpiredPeer(t, age, now, h, p);
      ViewAt(t, h, p);
    }
    ViewIs(t', w);
  }

  /** Statements that only change counters of torrents do not change the swarm. */
  lemma CountersRefine(t: Tables, t': Tables)
    requires Consistent(t)
    requires t'.peers == t.peers && t'.nextTorrent == t.nextTorrent && t'.nextPeer == t.nextPeer
    requires t'.torrents.Keys == t.torrents.Keys
    requires forall id :: id in t.torrents ==> t'.torrents[id].hash == t.torrents[id].hash
    ensures Consistent(t') && View(t') == View(t)
  {
    CountersKeep(t, t');
    forall h
      ensures Known(t', h) <==> h in View(t)
    {
      ViewKnows(t, h);
    }
    forall h, p | h in View(t)
      ensures PeerOf(t', h, p) == if p in View(t)[h] then Some(View(t)[h][p]) else None
    {
      SameRowsSamePeer(t, t', h, p);
      ViewAt(t, h, p);
    }
    ViewIs(t', View(t));
  }

  lemma RefreshRefines(t: Tables, hash: bytes, now: int)
    requires Consistent(t)
    ensures Consistent(Refresh(t, hash, now)) && View(Refresh(t, hash, now)) == View(t)
  {
    CountersRefine(t, Refresh(t, hash, now));
  }

  lemma IncrementRefines(t: Tables, hash: bytes)
    requires Consistent(t)
    ensures Consistent(Increment(t, hash)) && View(Increment(t, hash)) == View(t)
  {
    CountersRefine(t, Increment(t, hash));
  }
}
