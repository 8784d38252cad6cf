/** The queries whose results make up a reply to an announce. */
module SwarmQueries {
  import opened Text
  import opened Records
  import opened SwarmTables

  // The query of get_peers

  /** WHERE info_hash=... AND peer_id != ... */
  function Candidates(t: Tables, hash: bytes, exclude: bytes): set<nat> {
    set id | id in t.peers && t.peers[id].hash == hash && t.peers[id].peerId != exclude
  }

  /** LIMIT max(1, min(limit, 500)) */
  function Bounded(limit: int): (n: nat)
    ensures 1 <= n <= 500
    ensures limit < n ==> n == 1
    ensures limit > n ==> n == 500
  {
    var low := if limit < 500 then limit else 500;
    if 1 < low then low else 1
  }

  predicate NoRepeats(ids: seq<nat>) {
    forall i, j :: 0 <= i < j < |ids| ==> ids[i] != ids[j]
  }

  predicate NewestFirst(t: Tables, ids: seq<nat>) {
    && (forall i :: 0 <= i < |ids| ==> ids[i] in t.peers)
    && forall i, j :: 0 <= i < j < |ids| ==> t.peers[ids[i]].lastSeen >= t.peers[ids[j]].lastSeen
  }

  /**
   The rows are candidates, each at most once, the newest first; only as many as wanted, and none
   left out is newer.
  */
  ghost predicate IsAnswer(t: Tables, candidates: set<nat>, wanted: nat, ids: seq<nat>) {
    && candidates <= t.peers.Keys
    && (forall i :: 0 <= i < |ids| ==> ids[i] in candidates)
    && NoRepeats(ids)
    && NewestFirst(t, ids)
    && |ids| == (if wanted < |candidates| then wanted else |candidates|)
    && (forall c, i :: c in candidates && c !in ids && 0 <= i < |ids| ==>
         t.peers[ids[i]].lastSeen >= t.peers[c].lastSeen)
  }

  /** The record get_peers makes of a row; what the query does not select keeps its default. */
  function Listed(row: PeerRow): PeerInfo {
    PeerInfo([], row.peerId, row.fields.ip, row.fields.port, 0, 0, 0, [])
  }

  function ListedAll(t: Tables, ids: seq<nat>): (peers: seq<PeerInfo>)
    requires forall i :: 0 <= i < |ids| ==> ids[i] in t.peers
    ensures |peers| == |ids|
    ensures forall i :: 0 <= i < |ids| ==> peers[i] == Listed(t.peers[ids[i]])
  {
    seq(|ids|, i requires 0 <= i < |ids| => Listed(t.peers[ids[i]]))
  }

  /** What get_peers may answer; a statement with a NUL byte in it is refused, which gives an empty list. */
  ghost predicate IsPeerList(t: Tables, hash: bytes, exclude: bytes, limit: int, peers: seq<PeerInfo>) {
    if !IsId(hash) || NUL in exclude then peers == []
    else exists ids :: IsAnswer(t, Candidates(t, hash, exclude), Bounded(limit), ids) && peers == ListedAll(t, ids)
  }

  /** get_torrent_info; a torrent that is not there counts nothing. */
  ghost function StatsOf(t: Tables, hash: bytes): Stats {
    match SelectId(t, hash)
    case Some(id) =>
      if IsId(hash) then Stats(t.torrents[id].complete, t.torrents[id].incomplete, t.torrents[id].downloaded)
      else Stats(0, 0, 0)
    case None => Stats(0, 0, 0)
  }
}
