/** Choosing the peers that get_peers hands out, and what peer lists and counts mean for the swarm. */
module PeerSelection {
  import opened Sizes
  import opened Text
  import opened Records
  import opened SwarmTables
  import opened SwarmQueries
  import opened SwarmRefinement
  import opened SwarmHistory

  /** The candidate seen last. */
  method Newest(t: Tables, candidates: set<nat>) returns (best: nat)
    requires candidates != {} && candidates <= t.peers.Keys
    ensures best in candidates
    ensures forall c :: c in candidates ==> t.peers[best].lastSeen >= t.peers[c].lastSeen
  {
    best :| best in candidates;
    var rest := candidates - {best};
    while rest != {}
      invariant rest <= candidates && best in candidates
      invariant forall c :: c in candidates && c !in rest ==> t.peers[best].lastSeen >= t.peers[c].lastSeen
      decreases rest
    {
      var c :| c in rest;
      if t.peers[c].lastSeen > t.peers[best].lastSeen {
        best := c;
      }
      rest := rest - {c};
    }
  }

  lemma AppendOlder(t: Tables, ids: seq<nat>, id: nat)
    requires NoRepeats(ids) && NewestFirst(t, ids) && id !in ids && id in t.peers
    requires forall i :: 0 <= i < |ids| ==> t.peers[ids[i]].lastSeen >= t.peers[id].lastSeen
    ensures NoRepeats(ids + [id]) && NewestFirst(t, ids + [id])
  {
  }

  /** ORDER BY last_seen DESC LIMIT wanted */
  method SelectNewest(t: Tables, candidates: set<nat>, wanted: nat) returns (ids: seq<nat>)
    requires candidates <= t.peers.Keys
    ensures IsAnswer(t, candidates, wanted, ids)
  {
    ids := [];
    var rest := candidates;
    while |ids| < wanted && rest != {}
      invariant rest <= candidates && |ids| + |rest| == |candidates| && |ids| <= wanted
      invariant forall i :: 0 <= i < |ids| ==> ids[i] in candidates && ids[i] !in rest
      invariant forall c :: c in candidates && c !in rest ==> c in ids
      invariant NoRepeats(ids) && NewestFirst(t, ids)
      invariant forall c, i :: c in rest && 0 <= i < |ids| ==> t.peers[ids[i]].lastSeen >= t.peers[c].lastSeen
      decreases rest
    {
      var best := Newest(t, rest);
      AppendOlder(t, ids, best);
      ids := ids + [best];
      rest := rest - {best};
    }
  }

  function SetOf(ids: seq<nat>): set<nat> {
    set x | x in ids
  }

  lemma {:induction false} DistinctSize(ids: seq<nat>)
    requires NoRepeats(ids)
    ensures |SetOf(ids)| == |ids|
  {
    if ids != [] {
      var n := |ids| - 1;
      DistinctSize(ids[..n]);
      assert SetOf(ids) == SetOf(ids[..n]) + {ids[n]};
      assert ids[n] !in ids[..n];
    }
  }

  lemma NewerIsBefore(t: Tables, candidates: set<nat>, wanted: nat, ids: seq<nat>, i: nat, c: nat)
    requires IsAnswer(t, candidates, wanted, ids) && i < |ids|
    requires c in candidates && t.peers[c].lastSeen > t.peers[ids[i]].lastSeen
    ensures c in ids[..i]
  {
    assert c in ids;
    var m :| 0 <= m < |ids| && ids[m] == c;
    assert m < i;
  }

  lemma NewerAreBefore(t: Tables, candidates: set<nat>, wanted: nat, a: seq<nat>, b: seq<nat>, i: nat)
    requires IsAnswer(t, candidates, wanted, a) && IsAnswer(t, candidates, wanted, b) && i < |a| == |b|
    requires t.peers[a[i]].lastSeen > t.peers[b[i]].lastSeen
    ensures forall k :: 0 <= k <= i ==> a[k] in b[..i]
  {
    forall k | 0 <= k <= i
      ensures a[k] in b[..i]
    {
      NewerIsBefore(t, candidates, wanted, b, i, a[k]);
    }
  }

  lemma NotNewer(t: Tables, candidates: set<nat>, wanted: nat, a: seq<nat>, b: seq<nat>, i: nat)
    requires IsAnswer(t, candidates, wanted, a) && IsAnswer(t, candidates, wanted, b) && i < |a| == |b|
    ensures t.peers[a[i]].lastSeen <= t.peers[b[i]].lastSeen
  {
    if t.peers[a[i]].lastSeen > t.peers[b[i]].lastSeen {
      NewerAreBefore(t, candidates, wanted, a, b, i);
      DistinctSize(a[..i + 1]);
      DistinctSize(b[..i]);
      SubsetSize(SetOf(a[..i + 1]), SetOf(b[..i]));
    }
  }

  /** Two answers to one query differ at most in how rows seen at the same time are ordered. */
  lemma AnswersAgree(t: Tables, candidates: set<nat>, wanted: nat, a: seq<nat>, b: seq<nat>)
    requires IsAnswer(t, candidates, wanted, a) && IsAnswer(t, candidates, wanted, b)
    ensures |a| == |b| && forall i :: 0 <= i < |a| ==> t.peers[a[i]].lastSeen == t.peers[b[i]].lastSeen
  {
    forall i | 0 <= i < |a|
      ensures t.peers[a[i]].lastSeen == t.peers[b[i]].lastSeen
    {
      NotNewer(t, candidates, wanted, a, b, i);
      NotNewer(t, candidates, wanted, b, a, i);
    }
  }

  /** The listed peer is one of the torrent, with the address and port it has there. */
  ghost predicate InSwarm(t: Tables, hash: bytes, peer: PeerInfo) {
    match PeerOf(t, hash, peer.peerId)
    case None => false
    case Some(x) => x.fields.ip == peer.ip && x.fields.port == peer.port
  }

  ghost predicate Lists(peers: seq<PeerInfo>, peerId: bytes) {
    exists i :: 0 <= i < |peers| && peers[i].peerId == peerId
  }

  lemma ListedIsInSwarm(t: Tables, hash: bytes, exclude: bytes, id: nat)
    requires Consistent(t) && id in Candidates(t, hash, exclude)
    ensures IsRow(t, id, hash, t.peers[id].peerId) && t.peers[id].peerId != exclude
    ensures InSwarm(t, hash, Listed(t.peers[id]))
  {
    PeerOfRow(t, id, hash, t.peers[id].peerId);
  }

  lemma ShortListHas(t: Tables, hash: bytes, exclude: bytes, wanted: nat, ids: seq<nat>, p: bytes)
    requires IsAnswer(t, Candidates(t, hash, exclude), wanted, ids) && |ids| < wanted
    requires p != exclude && HasPeer(t, hash, p)
    ensures Lists(ListedAll(t, ids), p)
  {
    var id :| IsRow(t, id, hash, p);
    ShortAnswerIsAll(t, Candidates(t, hash, exclude), wanted, ids);
    var i :| 0 <= i < |ids| && ids[i] == id;
    assert ListedAll(t, ids)[i].peerId == p;
  }

  /**
   What a peer list means for the swarm: other peers of that torrent, each once and as the swarm
   has them, never the requester, and a peer of the swarm is missing only when the list is full.
  */
  lemma PeerListMeans(t: Tables, hash: bytes, exclude: bytes, limit: int, peers: seq<PeerInfo>)
    requires Consistent(t) && IsId(hash) && IsPeerList(t, hash, exclude, limit, peers)
    ensures |peers| <= Bounded(limit) && !Lists(peers, exclude)
    ensures forall i :: 0 <= i < |peers| ==> InSwarm(t, hash, peers[i])
    ensures forall i, j :: 0 <= i < j < |peers| ==> peers[i].peerId != peers[j].peerId
    ensures NUL !in exclude ==>
      forall p :: p != exclude && PeerOf(t, hash, p).Some? && |peers| < Bounded(limit) ==> Lists(peers, p)
  {
    if NUL in exclude {
      return;
    }
    var ids :| IsAnswer(t, Candidates(t, hash, exclude), Bounded(limit), ids) && peers == ListedAll(t, ids);
    forall i | 0 <= i < |peers|
      ensures IsRow(t, ids[i], hash, peers[i].peerId) && peers[i].peerId != exclude && InSwarm(t, hash, peers[i])
    {
      ListedIsInSwarm(t, hash, exclude, ids[i]);
    }
    forall i, j | 0 <= i < j < |peers|
      ensures peers[i].peerId != peers[j].peerId
    {
      if peers[i].peerId == peers[j].peerId {
        RowIsUnique(t, ids[i], ids[j], hash, peers[i].peerId);
      }
    }
    forall p | p != exclude && PeerOf(t, hash, p).Some? && |peers| < Bounded(limit)
      ensures Lists(peers, p)
    {
      ShortListHas(t, hash, exclude, Bounded(limit), ids, p);
    }
  }

  lemma ShortAnswerIsAll(t: Tables, candidates: set<nat>, wanted: nat, ids: seq<nat>)
    requires IsAnswer(t, candidates, wanted, ids) && |ids| < wanted
    ensures forall c :: c in candidates ==> c in ids
  {
    DistinctSize(ids);
    SubsetSize(SetOf(ids), candidates);
  }

  /** When the swarm last saw the peer. */
  ghost function SeenOf(t: Tables, hash: bytes, peerId: bytes): int {
    match PeerOf(t, hash, peerId)
    case None => 0
    case Some(x) => x.lastSeen
  }

  lemma ListedSeen(t: Tables, hash: bytes, exclude: bytes, wanted: nat, ids: seq<nat>, i: nat)
    requires Consistent(t) && IsAnswer(t, Candidates(t, hash, exclude), wanted, ids) && i < |ids|
    ensures SeenOf(t, hash, ListedAll(t, ids)[i].peerId) == t.peers[ids[i]].lastSeen
  {
    assert ids[i] in Candidates(t, hash, exclude);
    PeerOfRow(t, ids[i], hash, t.peers[ids[i]].peerId);
  }

  lemma OmittedIsOlder(t: Tables, hash: bytes, exclude: bytes, wanted: nat, ids: seq<nat>, i: nat, p: bytes)
    requires Consistent(t) && IsAnswer(t, Candidates(t, hash, exclude), wanted, ids) && i < |ids|
    requires p != exclude && HasPeer(t, hash, p) && !Lists(ListedAll(t, ids), p)
    ensures t.peers[ids[i]].lastSeen >= SeenOf(t, hash, p)
  {
    var id :| IsRow(t, id, hash, p);
    PeerOfRow(t, id, hash, p);
    forall m | 0 <= m < |ids|
      ensures ids[m] != id
    {
      assert ListedAll(t, ids)[m].peerId != p;
    }
    assert id in Candidates(t, hash, exclude) && id !in ids;
  }

  /** The peers of a list come newest first. */
  lemma PeerListIsNewestFirst(t: Tables, hash: bytes, exclude: bytes, limit: int, peers: seq<PeerInfo>)
    requires Consistent(t) && IsId(hash) && IsPeerList(t, hash, exclude, limit, peers)
    ensures forall i, j :: 0 <= i < j < |peers| ==>
      SeenOf(t, hash, peers[i].peerId) >= SeenOf(t, hash, peers[j].peerId)
  {
    if NUL in exclude {
      return;
    }
    var ids :| IsAnswer(t, Candidates(t, hash, exclude), Bounded(limit), ids) && peers == ListedAll(t, ids);
    forall i, j | 0 <= i < j < |peers|
      ensures SeenOf(t, hash, peers[i].peerId) >= SeenOf(t, hash, peers[j].peerId)
    {
      ListedSeen(t, hash, exclude, Bounded(limit), ids, i);
      ListedSeen(t, hash, exclude, Bounded(limit), ids, j);
    }
  }

  /** And a peer of the swarm that a full list leaves out is no newer than any on it. */
  lemma OmittedPeersAreOlder(t: Tables, hash: bytes, exclude: bytes, limit: int, peers: seq<PeerInfo>, p: bytes, i: nat)
    requires Consistent(t) && IsId(hash) && NUL !in exclude && IsPeerList(t, hash, exclude, limit, peers)
    requires p != exclude && HasPeer(t, hash, p) && !Lists(peers, p) && i < |peers|
    ensures SeenOf(t, hash, peers[i].peerId) >= SeenOf(t, hash, p)
  {
    var ids :| IsAnswer(t, Candidates(t, hash, exclude), Bounded(limit), ids) && peers == ListedAll(t, ids);
    ListedSeen(t, hash, exclude, Bounded(limit), ids, i);
    OmittedIsOlder(t, hash, exclude, Bounded(limit), ids, i, p);
  }

  // The counts of a torrent

  /** A scrape of two hashes reads the same row of the torrents table only if they are the same hash. */
  lemma RowsAreNotShared(t: Tables, a: bytes, b: bytes)
    requires Consistent(t) && IsBytes(a) && IsBytes(b)
    requires SelectId(t, Hex(a)).Some? && SelectId(t, Hex(b)).Some?
    ensures SelectId(t, Hex(a)) == SelectId(t, Hex(b)) <==> a == b
  {
    SelectedIsTorrent(t, Hex(a));
    SelectedIsTorrent(t, Hex(b));
    HexIsInjective(a, b);
  }

  /** The distinct peer ids of a torrent that have it all and were seen since. */
  ghost function SwarmSeeders(s: Swarm, hash: bytes, since: int): set<bytes>
    requires hash in s
  {
    set p | p in s[hash] && s[hash][p].fields.left == 0 && s[hash][p].lastSeen > since
  }

  ghost function SwarmLeechers(s: Swarm, hash: bytes, since: int): set<bytes>
    requires hash in s
  {
    set p | p in s[hash] && s[hash][p].fields.left > 0 && s[hash][p].lastSeen > since
  }

  ghost function IdOf(t: Tables): nat -> bytes {
    id => if id in t.peers then t.peers[id].peerId else []
  }

  lemma RowInSwarm(t: Tables, id: nat)
    requires Consistent(t) && id in t.peers
    ensures
      var row := t.peers[id];
      && row.hash in View(t) && row.peerId in View(t)[row.hash]
      && View(t)[row.hash][row.peerId] == Peer(row.fields, row.lastSeen)
  {
    var row := t.peers[id];
    assert IsTorrent(t, row.torrentId, row.hash);
    ViewKnows(t, row.hash);
    ViewAt(t, row.hash, row.peerId);
    PeerOfRow(t, id, row.hash, row.peerId);
  }

  lemma SwarmHasRow(t: Tables, hash: bytes, p: bytes) returns (id: nat)
    requires Consistent(t) && hash in View(t) && p in View(t)[hash]
    ensures IsRow(t, id, hash, p) && View(t)[hash][p] == Peer(t.peers[id].fields, t.peers[id].lastSeen)
  {
    ViewAt(t, hash, p);
    id :| IsRow(t, id, hash, p);
    PeerOfRow(t, id, hash, p);
  }

  lemma ApartIds(t: Tables, hash: bytes, ids: set<nat>)
    requires Consistent(t)
    requires forall id :: id in ids ==> id in t.peers && t.peers[id].hash == hash
    ensures forall x, y :: x in ids && y in ids && IdOf(t)(x) == IdOf(t)(y) ==> x == y
  {
    forall x, y | x in ids && y in ids && IdOf(t)(x) == IdOf(t)(y)
      ensures x == y
    {
      RowIsUnique(t, x, y, hash, t.peers[x].peerId);
    }
  }

  /** Counting rows counts distinct peers. */
  lemma RowsArePeers(t: Tables, hash: bytes, since: int)
    requires Consistent(t) && hash in View(t)
    ensures |Seeders(t, hash, since)| == |SwarmSeeders(View(t), hash, since)|
    ensures |Leechers(t, hash, since)| == |SwarmLeechers(View(t), hash, since)|
  {
    ApartIds(t, hash, Seeders(t, hash, since));
    ApartIds(t, hash, Leechers(t, hash, since));
    forall id | id in t.peers && t.peers[id].hash == hash
      ensures IdOf(t)(id) in View(t)[hash]
      ensures View(t)[hash][IdOf(t)(id)] == Peer(t.peers[id].fields, t.peers[id].lastSeen)
    {
      RowInSwarm(t, id);
    }
    forall p | p in SwarmSeeders(View(t), hash, since)
      ensures exists id :: id in Seeders(t, hash, since) && IdOf(t)(id) == p
    {
      var id := SwarmHasRow(t, hash, p);
      assert id in Seeders(t, hash, since) && IdOf(t)(id) == p;
    }
    forall p | p in SwarmLeechers(View(t), hash, since)
      ensures exists id :: id in Leechers(t, hash, since) && IdOf(t)(id) == p
    {
      var id := SwarmHasRow(t, hash, p);
      assert id in Leechers(t, hash, since) && IdOf(t)(id) == p;
    }
    ImageSize(IdOf(t), Seeders(t, hash, since), SwarmSeeders(View(t), hash, since));
    ImageSize(IdOf(t), Leechers(t, hash, since), SwarmLeechers(View(t), hash, since));
  }

  lemma RefreshedStats(t: Tables, hash: bytes, later: int)
    requires Consistent(t) && Known(t, hash) && IsId(hash)
    ensures
      var t' := Refresh(t, hash, later);
      && Consistent(t') && hash in View(t')
      && StatsOf(t', hash).complete == |SwarmSeeders(View(t'), hash, later - 7200)|
      && StatsOf(t', hash).incomplete == |SwarmLeechers(View(t'), hash, later - 7200)|
  {
    var t' := Refresh(t, hash, later);
    RefreshRefines(t, hash, later);
    CountersKeep(t, t');
    var id :| IsTorrent(t, id, hash);
    assert IsTorrent(t', id, hash);
    SelectedIsTorrent(t', hash);
    ViewKnows(t', hash);
    assert Seeders(t', hash, later - 7200) == Seeders(t, hash, later - 7200);
    assert Leechers(t', hash, later - 7200) == Leechers(t, hash, later - 7200);
    RowsArePeers(t', hash, later - 7200);
  }

  /**
   The counts in the reply to a valid announce or to a stop are those of the swarm it leaves: the
   distinct seeders and leechers seen within the window; a stop for an unknown torrent reports none.
  */
  lemma ReplyCountsSwarm(t: Tables, peer: PeerInfo, now: int, later: int)
    requires Consistent(t)
    requires IsId(peer.infoHash) && IsId(peer.peerId) && (peer.event == "stopped" || Accepted(peer))
    ensures
      var t' := Announced(t, peer, now, later);
      var stats := StatsOf(t', peer.infoHash);
      if peer.infoHash in View(t') then
        && stats.complete == |SwarmSeeders(View(t'), peer.infoHash, later - 7200)|
        && stats.incomplete == |SwarmLeechers(View(t'), peer.infoHash, later - 7200)|
      else
        peer.event == "stopped" && stats == Stats(0, 0, 0)
  {
    if peer.event == "stopped" {
      StopCounts(t, peer.peerId, peer.infoHash, later);
    } else {
      CountedRefines(t, peer.infoHash);
      UpdateCounts(if peer.event == "completed" then Counted(t, peer.infoHash) else t, peer, now, later);
    }
  }

  lemma StopCounts(t: Tables, peerId: bytes, hash: bytes, later: int)
    requires Consistent(t) && IsId(hash) && IsId(peerId)
    ensures
      var t' := Removed(t, peerId, hash, later);
      var stats := StatsOf(t', hash);
      if hash in View(t') then
        && stats.complete == |SwarmSeeders(View(t'), hash, later - 7200)|
        && stats.incomplete == |SwarmLeechers(View(t'), hash, later - 7200)|
      else
        stats == Stats(0, 0, 0)
  {
    var t1 := DeletePeer(t, peerId, hash);
    DeleteRefines(t, peerId, hash);
    RemovedRefines(t, peerId, hash, later);
    ViewKnows(Removed(t, peerId, hash, later), hash);
    ViewKnows(t1, hash);
    if Known(t1, hash) {
      RefreshedStats(t1, hash, later);
    } else {
      CountersKeep(t1, Refresh(t1, hash, later));
    }
  }

  lemma UpdateCounts(t: Tables, peer: PeerInfo, now: int, later: int)
    requires Consistent(t) && Accepted(peer)
    ensures
      var t' := Updated(t, peer, now, later);
      var stats := StatsOf(t', peer.infoHash);
      && peer.infoHash in View(t')
      && stats.complete == |SwarmSeeders(View(t'), peer.infoHash, later - 7200)|
      && stats.incomplete == |SwarmLeechers(View(t'), peer.infoHash, later - 7200)|
  {
    var h := peer.infoHash;
    var t1 := UpsertTorrent(t, h);
    UpsertTorrentKeeps(t, h);
    SelectedIsTorrent(t1, h);
    var id := SelectId(t1, h).value;
    var t2 := UpsertPeer(t1, id, peer, now);
    UpsertPeerKeeps(t1, id, peer, now);
    assert IsTorrent(t2, id, h);
    RefreshedStats(t2, h, later);
  }
}
