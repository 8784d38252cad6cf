/**
 The torrents and peers tables, the SQL statements of the tracker as steps on them, and the swarm
 they stand for: for every info hash a map from peer ids to peers.
*/
module SwarmTables {
  import opened Options
  import opened Text
  import opened Records

  datatype TorrentRow = TorrentRow(hash: bytes, complete: nat, incomplete: nat, downloaded: nat)

  /** The columns an announce writes. */
  datatype Fields = Fields(ip: bytes, port: int, uploaded: int, downloaded: int, left: int, event: bytes)

  datatype PeerRow = PeerRow(peerId: bytes, torrentId: nat, hash: bytes, fields: Fields, lastSeen: int)

  /** Rows by auto-increment id, and the next ids. */
  datatype Tables = Tables(torrents: map<nat, TorrentRow>, peers: map<nat, PeerRow>, nextTorrent: nat, nextPeer: nat)

  const EMPTY := Tables(map[], map[], 1, 1)

  function FieldsOf(peer: PeerInfo): Fields {
    Fields(peer.ip, peer.port, peer.uploaded, peer.downloaded, peer.left, peer.event)
  }

  // Searching

  predicate IsTorrent(t: Tables, id: nat, hash: bytes) {
    id in t.torrents && t.torrents[id].hash == hash
  }

  predicate IsKey(t: Tables, id: nat, torrentId: nat, peerId: bytes) {
    id in t.peers && t.peers[id].torrentId == torrentId && t.peers[id].peerId == peerId
  }

  predicate IsRow(t: Tables, id: nat, hash: bytes, peerId: bytes) {
    id in t.peers && t.peers[id].hash == hash && t.peers[id].peerId == peerId
  }

  ghost predicate Known(t: Tables, hash: bytes) {
    exists id :: IsTorrent(t, id, hash)
  }

  // Statements

  /** INSERT INTO torrents ... ON DUPLICATE KEY UPDATE; a duplicate uses up an id as well. */
  ghost function UpsertTorrent(t: Tables, hash: bytes): Tables {
    var torrents := if Known(t, hash) then t.torrents else t.torrents[t.nextTorrent := TorrentRow(hash, 0, 0, 0)];
    t.(torrents := torrents, nextTorrent := t.nextTorrent + 1)
  }

  /** SELECT id FROM torrents WHERE info_hash=... */
  ghost function SelectId(t: Tables, hash: bytes): Option<nat> {
    if Known(t, hash) then var id: nat :| IsTorrent(t, id, hash); Some(id) else None
  }

  ghost predicate HasKey(t: Tables, torrentId: nat, peerId: bytes) {
    exists id :: IsKey(t, id, torrentId, peerId)
  }

  /**
   INSERT INTO peers ... ON DUPLICATE KEY UPDATE. It fails on an id that is not in torrents; on a
   duplicate key the stored info_hash is kept.
  */
  ghost function UpsertPeer(t: Tables, torrentId: nat, peer: PeerInfo, now: int): Tables {
    if torrentId !in t.torrents then t
    else if HasKey(t, torrentId, peer.peerId) then
      var id: nat :| IsKey(t, id, torrentId, peer.peerId);
      t.(peers := t.peers[id := t.peers[id].(fields := FieldsOf(peer), lastSeen := now)], nextPeer := t.nextPeer + 1)
    else
      t.(peers := t.peers[t.nextPeer := PeerRow(peer.peerId, torrentId, peer.infoHash, FieldsOf(peer), now)],
         nextPeer := t.nextPeer + 1)
  }

  /** DELETE FROM peers WHERE peer_id=... AND info_hash=... */
  function DeletePeer(t: Tables, peerId: bytes, hash: bytes): Tables {
    t.(peers := map id | id in t.peers && !(t.peers[id].peerId == peerId && t.peers[id].hash == hash) :: t.peers[id])
  }

  function Seeders(t: Tables, hash: bytes, since: int): set<nat> {
    set id | id in t.peers && t.peers[id].hash == hash && t.peers[id].fields.left == 0 && t.peers[id].lastSeen > since
  }

  function Leechers(t: Tables, hash: bytes, since: int): set<nat> {
    set id | id in t.peers && t.peers[id].hash == hash && t.peers[id].fields.left > 0 && t.peers[id].lastSeen > since
  }

  const WINDOW := 7200

  /** The UPDATE of refresh_torrent_stats. */
  function Refresh(t: Tables, hash: bytes, now: int): Tables {
    t.(torrents := map id | id in t.torrents ::
         if t.torrents[id].hash == hash then
           t.torrents[id].(complete := |Seeders(t, hash, now - WINDOW)|,
                           incomplete := |Leechers(t, hash, now - WINDOW)|)
         else t.torrents[id])
  }

  /** The UPDATE of increment_downloaded. */
  function Increment(t: Tables, hash: bytes): Tables {
    t.(torrents := map id | id in t.torrents ::
         if t.torrents[id].hash == hash then t.torrents[id].(downloaded := t.torrents[id].downloaded + 1)
         else t.torrents[id])
  }

  function Cutoff(age: int, now: int): int {
    now - if age < 60 then 60 else age
  }

  /** The DELETE of cleanup_old_peers. */
  function Cleanup(t: Tables, age: int, now: int): Tables {
    t.(peers := map id | id in t.peers && t.peers[id].lastSeen >= Cutoff(age, now) :: t.peers[id])
  }

  // What every statement keeps

  ghost predicate UniqueHashes(t: Tables) {
    forall a, b, h :: IsTorrent(t, a, h) && IsTorrent(t, b, h) ==> a == b
  }

  ghost predicate UniqueKeys(t: Tables) {
    forall a, b, torrentId, p :: IsKey(t, a, torrentId, p) && IsKey(t, b, torrentId, p) ==> a == b
  }

  /** The foreign key holds, and the hash stored with a peer is that of its torrent. */
  ghost predicate HashesAgree(t: Tables) {
    forall id :: id in t.peers ==> IsTorrent(t, t.peers[id].torrentId, t.peers[id].hash)
  }

  ghost predicate IdsBelow(t: Tables) {
    && (forall id :: id in t.torrents ==> id < t.nextTorrent)
    && (forall id :: id in t.peers ==> id < t.nextPeer)
  }

  ghost predicate Consistent(t: Tables) {
    UniqueHashes(t) && UniqueKeys(t) && HashesAgree(t) && IdsBelow(t)
  }

  /** Hash and peer id determine the row. */
  lemma RowIsUnique(t: Tables, a: nat, b: nat, hash: bytes, peerId: bytes)
    requires Consistent(t) && IsRow(t, a, hash, peerId) && IsRow(t, b, hash, peerId)
    ensures a == b
  {
    var x, y := t.peers[a].torrentId, t.peers[b].torrentId;
    assert IsTorrent(t, x, hash) && IsTorrent(t, y, hash);
    assert IsKey(t, a, x, peerId) && IsKey(t, b, x, peerId);
  }

  lemma SelectedIsTorrent(t: Tables, hash: bytes)
    ensures SelectId(t, hash).Some? <==> Known(t, hash)
    ensures SelectId(t, hash).Some? ==> IsTorrent(t, SelectId(t, hash).value, hash)
  {
  }

  lemma UpsertTorrentKeeps(t: Tables, hash: bytes)
    requires Consistent(t)
    ensures
      var t' := UpsertTorrent(t, hash);
      && Consistent(t') && Known(t', hash) && t'.peers == t.peers
      && (forall id, h :: IsTorrent(t, id, h) ==> IsTorrent(t', id, h) && t'.torrents[id] == t.torrents[id])
      && (forall h :: Known(t', h) <==> Known(t, h) || h == hash)
  {
    var t' := UpsertTorrent(t, hash);
    assert t.nextTorrent !in t.torrents;
    assert !Known(t, hash) ==> IsTorrent(t', t.nextTorrent, hash);
    forall a, h | IsTorrent(t', a, h)
      ensures IsTorrent(t, a, h) || (a == t.nextTorrent && h == hash && !Known(t, hash))
    {
    }
    forall id, h | IsTorrent(t, id, h)
      ensures IsTorrent(t', id, h)
    {
    }
    forall a, x, p
      ensures IsKey(t', a, x, p) <==> IsKey(t, a, x, p)
    {
    }
    forall k | k in t'.peers
      ensures IsTorrent(t', t'.peers[k].torrentId, t'.peers[k].hash)
    {
      assert IsTorrent(t, t.peers[k].torrentId, t.peers[k].hash);
    }
    forall h
      ensures Known(t', h) <==> Known(t, h) || h == hash
    {
      if Known(t, h) {
        var id :| IsTorrent(t, id, h);
        assert IsTorrent(t', id, h);
      }
      if Known(t', h) {
        var id :| IsTorrent(t', id, h);
        assert IsTorrent(t, id, h) || h == hash;
      }
    }
  }

  /** What the upsert of a peer does to the rows: one is new or changed, for the right torrent, and no other. */
  lemma UpsertPeerKeeps(t: Tables, torrentId: nat, peer: PeerInfo, now: int)
    requires Consistent(t) && IsTorrent(t, torrentId, peer.infoHash)
    ensures
      var t' := UpsertPeer(t, torrentId, peer, now);
      && Consistent(t') && t'.torrents == t.torrents
      && exists id :: IsWritten(t, t', id, peer, now)
  {
    var t' := UpsertPeer(t, torrentId, peer, now);
    var id: nat;
    if HasKey(t, torrentId, peer.peerId) {
      id :|
        && IsKey(t, id, torrentId, peer.peerId)
        && t'.peers == t.peers[id := t.peers[id].(fields := FieldsOf(peer), lastSeen := now)];
      assert IsTorrent(t, t.peers[id].torrentId, t.peers[id].hash);
      KeysAfterChange(t, t', id);
    } else {
      id := t.nextPeer;
      KeysAfterInsert(t, t', id, torrentId, peer, now);
    }
    assert IsWritten(t, t', id, peer, now);
  }

  /** Row `id` now holds the announce, for the hash and peer id announced; no other row was touched. */
  ghost predicate IsWritten(t: Tables, t': Tables, id: nat, peer: PeerInfo, now: int) {
    && IsRow(t', id, peer.infoHash, peer.peerId)
    && t'.peers[id].fields == FieldsOf(peer) && t'.peers[id].lastSeen == now
    && (forall k :: k != id ==> (k in t'.peers <==> k in t.peers))
    && (forall k :: k != id && k in t.peers ==> t'.peers[k] == t.peers[k])
    && (id in t.peers ==> IsRow(t, id, peer.infoHash, peer.peerId))
    && (id !in t.peers ==> id == t.nextPeer)
  }

  lemma KeysAfterChange(t: Tables, t': Tables, id: nat)
    requires Consistent(t) && id in t.peers
    requires t'.torrents == t.torrents && t'.nextTorrent == t.nextTorrent && t'.nextPeer == t.nextPeer + 1
    requires exists f, now :: t'.peers == t.peers[id := t.peers[id].(fields := f, lastSeen := now)]
    ensures Consistent(t')
  {
    forall a, torrentId, p | IsKey(t', a, torrentId, p)
      ensures IsKey(t, a, torrentId, p)
    {
    }
    forall a, h | IsTorrent(t', a, h)
      ensures IsTorrent(t, a, h)
    {
    }
    forall k | k in t'.peers
      ensures IsTorrent(t', t'.peers[k].torrentId, t'.peers[k].hash)
    {
      assert IsTorrent(t, t.peers[k].torrentId, t.peers[k].hash);
    }
  }

  lemma KeysAfterInsert(t: Tables, t': Tables, id: nat, torrentId: nat, peer: PeerInfo, now: int)
    requires Consistent(t) && id == t.nextPeer && IsTorrent(t, torrentId, peer.infoHash)
    requires !HasKey(t, torrentId, peer.peerId)
    requires
      var row := PeerRow(peer.peerId, torrentId, peer.infoHash, FieldsOf(peer), now);
      t' == t.(peers := t.peers[id := row], nextPeer := id + 1)
    ensures Consistent(t')
  {
    forall a, x, p | IsKey(t', a, x, p)
      ensures IsKey(t, a, x, p) || (a == id && x == torrentId && p == peer.peerId)
    {
    }
    forall a, h | IsTorrent(t', a, h)
      ensures IsTorrent(t, a, h)
    {
    }
    forall k | k in t'.peers
      ensures IsTorrent(t', t'.peers[k].torrentId, t'.peers[k].hash)
    {
      if k != id {
        assert IsTorrent(t, t.peers[k].torrentId, t.peers[k].hash);
      }
    }
  }

  /** Removing rows of the peers table, whichever they are. */
  lemma RemovalKeeps(t: Tables, t': Tables)
    requires Consistent(t)
    requires t'.torrents == t.torrents && t'.nextTorrent == t.nextTorrent && t'.nextPeer == t.nextPeer
    requires forall id :: id in t'.peers ==> id in t.peers && t'.peers[id] == t.peers[id]
    ensures Consistent(t')
  {
    forall a, x, p | IsKey(t', a, x, p)
      ensures IsKey(t, a, x, p)
    {
    }
    forall a, h | IsTorrent(t', a, h)
      ensures IsTorrent(t, a, h)
    {
    }
    forall k | k in t'.peers
      ensures IsTorrent(t', t'.peers[k].torrentId, t'.peers[k].hash)
    {
      assert IsTorrent(t, t.peers[k].torrentId, t.peers[k].hash);
    }
  }

  /** Changing counters of torrents. */
  lemma CountersKeep(t: Tables, t': Tables)
    requires Consistent(t)
    requires t'.peers == t.peers && t'.nextTorrent == t.nextTorrent && t'.nextPeer == t.nextPeer
    requires t'.torrents.Keys == t.torrents.Keys
    requires forall id :: id in t.torrents ==> t'.torrents[id].hash == t.torrents[id].hash
    ensures Consistent(t')
    ensures forall id, h :: IsTorrent(t', id, h) <==> IsTorrent(t, id, h)
  {
    forall a, h
      ensures IsTorrent(t', a, h) <==> IsTorrent(t, a, h)
    {
    }
    forall a, x, p
      ensures IsKey(t', a, x, p) <==> IsKey(t, a, x, p)
    {
    }
    forall k | k in t'.peers
      ensures IsTorrent(t', t'.peers[k].torrentId, t'.peers[k].hash)
    {
      assert IsTorrent(t, t.peers[k].torrentId, t.peers[k].hash);
    }
  }

  /** A stop removes at most one row. */
  lemma DeleteRemovesAtMostOne(t: Tables, peerId: bytes, hash: bytes)
    requires Consistent(t)
    ensures Consistent(DeletePeer(t, peerId, hash))
    ensures |t.peers| - 1 <= |DeletePeer(t, peerId, hash).peers| <= |t.peers|
  {
    var t' := DeletePeer(t, peerId, hash);
    RemovalKeeps(t, t');
    DeletedRows(t, peerId, hash);
    if id :| IsRow(t, id, hash, peerId) {
      forall k | k in t.peers && IsRow(t, k, hash, peerId)
        ensures k == id
      {
        RowIsUnique(t, id, k, hash, peerId);
      }
      assert t'.peers.Keys == t.peers.Keys - {id};
      assert |t'.peers.Keys| == |t.peers.Keys| - 1;
    } else {
      assert t'.peers.Keys == t.peers.Keys;
      assert |t'.peers.Keys| == |t.peers.Keys|;
    }
  }

  lemma DeletedRows(t: Tables, peerId: bytes, hash: bytes)
    ensures forall k :: k in DeletePeer(t, peerId, hash).peers <==> k in t.peers && !IsRow(t, k, hash, peerId)
  {
  }

  // The swarm the tables stand for

  datatype Peer = Peer(fields: Fields, lastSeen: int)

  type Swarm = map<bytes, map<bytes, Peer>>

  ghost predicate HasPeer(t: Tables, hash: bytes, peerId: bytes) {
    exists id :: IsRow(t, id, hash, peerId)
  }

  ghost function PeerOf(t: Tables, hash: bytes, peerId: bytes): Option<Peer> {
    if HasPeer(t, hash, peerId) then
      var id: nat :| IsRow(t, id, hash, peerId);
      Some(Peer(t.peers[id].fields, t.peers[id].lastSeen))
    else None
  }

  lemma PeerOfRow(t: Tables, id: nat, hash: bytes, peerId: bytes)
    requires Consistent(t) && IsRow(t, id, hash, peerId)
    ensures PeerOf(t, hash, peerId) == Some(Peer(t.peers[id].fields, t.peers[id].lastSeen))
  {
    assert HasPeer(t, hash, peerId);
    var k: nat :|
      && IsRow(t, k, hash, peerId)
      && PeerOf(t, hash, peerId) == Some(Peer(t.peers[k].fields, t.peers[k].lastSeen));
    RowIsUnique(t, id, k, hash, peerId);
  }

  ghost function Hashes(t: Tables): set<bytes> {
    set id | id in t.torrents :: t.torrents[id].hash
  }

  ghost function PeerIds(t: Tables): set<bytes> {
    set id | id in t.peers :: t.peers[id].peerId
  }

  ghost function PeersOf(t: Tables, hash: bytes): map<bytes, Peer> {
    map p | p in PeerIds(t) && PeerOf(t, hash, p).Some? :: PeerOf(t, hash, p).value
  }

  ghost function View(t: Tables): Swarm {
    map h | h in Hashes(t) :: PeersOf(t, h)
  }

  lemma ViewKnows(t: Tables, hash: bytes)
    ensures hash in View(t) <==> Known(t, hash)
  {
    if Known(t, hash) {
      var id :| IsTorrent(t, id, hash);
      assert t.torrents[id].hash in Hashes(t);
    } else if hash in Hashes(t) {
      var id :| id in t.torrents && t.torrents[id].hash == hash;
      assert IsTorrent(t, id, hash);
    }
  }

  lemma PeersOfAt(t: Tables, hash: bytes, peerId: bytes)
    ensures (if peerId in PeersOf(t, hash) then Some(PeersOf(t, hash)[peerId]) else None) == PeerOf(t, hash, peerId)
  {
    if HasPeer(t, hash, peerId) {
      var id :| IsRow(t, id, hash, peerId);
      assert t.peers[id].peerId in PeerIds(t);
    }
  }

  /** Two swarms are the same when they know the same hashes and agree on every peer. */
  lemma ViewIs(t: Tables, w: Swarm)
    requires forall h :: Known(t, h) <==> h in w
    requires forall h, p :: h in w ==> PeerOf(t, h, p) == if p in w[h] then Some(w[h][p]) else None
    ensures View(t) == w
  {
    forall h
      ensures h in View(t) <==> h in w
      ensures h in w ==> PeersOf(t, h) == w[h]
    {
      ViewKnows(t, h);
      if h in w {
        forall p
          ensures p in PeersOf(t, h) <==> p in w[h]
          ensures p in w[h] ==> PeersOf(t, h)[p] == w[h][p]
        {
          PeersOfAt(t, h, p);
        }
      }
    }
  }

  lemma ViewAt(t: Tables, h: bytes, p: bytes)
    requires h in View(t)
    ensures PeerOf(t, h, p) == if p in View(t)[h] then Some(View(t)[h][p]) else None
  {
    PeersOfAt(t, h, p);
  }
}
