/**
 The database operations of the tracker, on tables that change in place. Statements succeed, but
 for those that a NUL byte cuts short; the connection each operation borrows is modelled in
 PoolProtocol.
*/
module Database {
  import opened Options
  import opened Text
  import opened Records
  import opened SwarmTables
  import opened SwarmRefinement
  import opened SwarmProtocol
  import opened SwarmTotals
  import opened SwarmHistory
  import opened SwarmQueries
  import opened PeerSelection
  import opened SqlText
  import opened SqlSyntax
  import opened SqlExecution
  import opened SqlStreams
  import opened PeerUpserts
  import Sizes

  /** The tables after a text is sent as a statement; none if the server refuses it. */
  ghost function Outcome(t: Tables, sql: bytes, now: int): Option<Tables> {
    match StatementOf(sql)
    case None => None
    case Some(st) => Execute(t, st, now)
  }

  class DBManager {
    var torrents: map<nat, TorrentRow>
    var peers: map<nat, PeerRow>
    var nextTorrent: nat
    var nextPeer: nat

    function Contents(): Tables
      reads this
    {
      Tables(torrents, peers, nextTorrent, nextPeer)
    }

    ghost predicate Valid()
      reads this
    {
      Consistent(Contents())
    }

    /** create_tables, on an empty database. */
    constructor ()
      ensures Valid() && Contents() == EMPTY
    {
      torrents, peers, nextTorrent, nextPeer := map[], map[], 1, 1;
      new;
      StartIsSound();
    }

    // mysql_query

    /** An INSERT into torrents. */
    method AddTorrent(hash: bytes, updates: seq<Assign>, now: int)
      modifies this
      ensures Contents() == InsertTorrent(old(Contents()), hash, updates, now)
    {
      if id :| id in torrents && torrents[id].hash == hash {
        assert IsTorrent(Contents(), id, hash);
        torrents := map id | id in torrents ::
          if torrents[id].hash == hash then SetTorrents(Contents(), torrents[id], updates, now) else torrents[id];
      } else {
        assert forall id :: !IsTorrent(Contents(), id, hash);
        torrents := torrents[nextTorrent := TorrentRow(hash, 0, 0, 0)];
      }
      nextTorrent := nextTorrent + 1;
    }

    /** An INSERT into peers whose torrent is there. */
    method AddPeer(row: PeerRow, updates: seq<Assign>, now: int)
      requires Valid()
      modifies this
      ensures Contents() == InsertPeer(old(Contents()), row, updates, now)
    {
      if id :| id in peers && peers[id].torrentId == row.torrentId && peers[id].peerId == row.peerId {
        assert IsKey(Contents(), id, row.torrentId, row.peerId);
        peers := peers[id := SetPeers(peers[id], updates, now)];
      } else {
        assert forall id :: !IsKey(Contents(), id, row.torrentId, row.peerId);
        peers := peers[nextPeer := row];
      }
      nextPeer := nextPeer + 1;
    }

    /** The server carries out the statement it reads in the text, or refuses the text. */
    method Query(sql: bytes, now: int) returns (ok: bool)
      requires Valid()
      modifies this
      ensures
        var after := Outcome(old(Contents()), sql, now);
        ok == after.Some? && Contents() == if ok then after.value else old(Contents())
    {
      hide StatementOf, Remaining, Changed, NewPeer, InsertTorrent, InsertPeer;
      ok := false;
      match StatementOf(sql)
      case None =>
      case Some(Select(_, _, _, _, _)) => ok := true;
      case Some(Delete(table, where)) =>
        if table == "peers" {
          peers := Remaining(Contents(), where, now);
          ok := true;
        }
      case Some(Update(table, updates, where)) =>
        if table == "torrents" {
          torrents := Changed(Contents(), updates, where, now);
          ok := true;
        }
      case Some(Insert(table, columns, terms, updates)) => ok := QueryInsert(table, columns, terms, updates, now);
    }

    method QueryInsert(table: bytes, columns: seq<bytes>, terms: seq<Term>, updates: seq<Assign>, now: int)
      returns (ok: bool)
      requires Valid()
      modifies this
      ensures
        var after := Execute(old(Contents()), Insert(table, columns, terms, updates), now);
        ok == after.Some? && Contents() == if ok then after.value else old(Contents())
    {
      ok := false;
      if table == "torrents" {
        match TextIn(Given(columns, terms, "info_hash", now))
        case None =>
        case Some(hash) =>
          AddTorrent(hash, updates, now);
          ok := true;
      } else if table == "peers" {
        match NewPeer(columns, terms, now)
        case None =>
        case Some(row) =>
          if row.torrentId in torrents {
            AddPeer(row, updates, now);
            ok := true;
          }
      }
    }

    /** The id of a row the statement selects, if there is one. */
    method SelectTorrent(where: seq<Cond>, now: int) returns (found: Option<nat>)
      ensures found.Some? ==> found.value in TorrentsWhere(Contents(), where, now)
      ensures found.None? ==> TorrentsWhere(Contents(), where, now) == {}
    {
      var ids := TorrentsWhere(Contents(), where, now);
      if ids == {} {
        return None;
      }
      var id :| id in ids;
      return Some(id);
    }

    // The operations

    method FindTorrent(hash: bytes, now: int) returns (found: Option<nat>)
      requires Valid() && NUL !in hash
      ensures found == SelectId(Contents(), hash)
    {
      hide StatementOf, TorrentsWhere;
      var sql := IdLookupText(hash);
      var st := StatementOf(sql).value;
      found := SelectTorrent(st.where, now);
      LookupDecides(Contents(), hash, now, found);
    }

    method SendTorrent(hash: bytes, now: int) returns (ok: bool)
      requires Valid() && NUL !in hash
      modifies this
      ensures ok && Valid() && Contents() == UpsertTorrent(old(Contents()), hash)
    {
      UpsertTorrentKeeps(Contents(), hash);
      TorrentExecutes(Contents(), hash, now);
      var sql := TorrentUpsertText(hash);
      ok := Query(sql, now);
    }

    /** The text of the peer's statement is sent; what the server receives may be no statement. */
    method SendPeer(torrentId: nat, peer: PeerInfo, now: int) returns (ok: bool)
      requires Valid() && IsTorrent(Contents(), torrentId, peer.infoHash) && ValidPeer(peer)
      modifies this
      ensures Valid() && ok == Storable(peer)
      ensures Contents() == if ok then UpsertPeer(old(Contents()), torrentId, peer, now) else old(Contents())
    {
      HexHasNoNul(peer.infoHash);
      HexHasNoNul(peer.peerId);
      UpsertPeerKeeps(Contents(), torrentId, peer, now);
      PeerExecutes(Contents(), torrentId, peer, now);
      var sql := PeerUpsert(peer, torrentId);
      ok := Query(sql, now);
    }

    method SendRefresh(hash: bytes, now: int) returns (ok: bool)
      requires Valid() && NUL !in hash
      modifies this
      ensures ok && Contents() == Refresh(old(Contents()), hash, now)
    {
      hide Execute, Refresh;
      RefreshExecutes(Contents(), hash, now);
      var sql := CountsRefreshText(hash);
      ok := Query(sql, now);
    }

    /**
     refresh_torrent_stats: the torrent's row now counts its peers of the last two hours, those with
     nothing left as complete and those with something left as incomplete; nothing else has changed.
    */
    method RefreshTorrentStats(hash: bytes, now: int) returns (ok: bool)
      requires Valid()
      modifies this
      ensures Valid() && ok == IsId(hash)
      ensures Contents() == if ok then Refresh(old(Contents()), hash, now) else old(Contents())
      ensures View(Contents()) == View(old(Contents()))
      ensures ok ==> forall id :: id in torrents && torrents[id].hash == hash ==>
        torrents[id].complete ==
          |set k | k in peers && peers[k].hash == hash && peers[k].fields.left == 0 && peers[k].lastSeen > now - 7200|
      ensures ok ==> forall id :: id in torrents && torrents[id].hash == hash ==>
        torrents[id].incomplete ==
          |set k | k in peers && peers[k].hash == hash && peers[k].fields.left > 0 && peers[k].lastSeen > now - 7200|
      ensures peers == old(peers) && torrents.Keys == old(torrents.Keys)
      ensures forall id :: id in torrents ==>
        && torrents[id].hash == old(torrents)[id].hash && torrents[id].downloaded == old(torrents)[id].downloaded
        && (torrents[id].hash != hash ==> torrents[id] == old(torrents)[id])
    {
      RefreshRefines(Contents(), hash, now);
      ActiveOf(Contents(), hash, now);
      ok := IsHexString(hash, 40);
      if ok {
        HexHasNoNul(hash);
        ok := SendRefresh(hash, now);
      }
    }

    /**
     update_peer: on success the peer is there as announced and nothing else of the swarm has
     changed; when the server refuses the peer's statement, the torrent has become known.
    */
    method UpdatePeer(peer: PeerInfo, now: int, later: int) returns (ok: bool)
      requires Valid()
      modifies this
      ensures Valid() && ok == Accepted(peer)
      ensures Contents() == Updated(old(Contents()), peer, now, later)
      ensures View(Contents()) ==
        if ok then Do(View(old(Contents())), DoPut(peer.infoHash, peer.peerId, Peer(FieldsOf(peer), now)))
        else if ValidPeer(peer) then Touch(View(old(Contents())), peer.infoHash)
        else View(old(Contents()))
    {
      var validHash := IsHexString(peer.infoHash, 40);
      var validId := IsHexString(peer.peerId, 40);
      if !validHash || !validId || peer.ip == [] || peer.port <= 0 {
        return false;
      }
      UpdatedRefines(Contents(), peer, now, later);
      HexHasNoNul(peer.infoHash);
      ok := SendTorrent(peer.infoHash, now);
      if !ok {
        return;
      }
      var found := FindTorrent(peer.infoHash, now);
      if found.None? {
        return false;
      }
      SelectedIsTorrent(Contents(), peer.infoHash);
      ok := SendPeer(found.value, peer, now);
      if ok {
        var refreshed := RefreshTorrentStats(peer.infoHash, later);
      }
    }

    /** remove_peer: the peer is gone, at most one row with it, and nothing else of the swarm has changed. */
    method RemovePeer(peerId: bytes, hash: bytes, later: int) returns (ok: bool)
      requires Valid()
      modifies this
      ensures Valid() && ok == (IsId(hash) && IsId(peerId))
      ensures Contents() == Removed(old(Contents()), peerId, hash, later)
      ensures View(Contents()) == if ok then Drop(View(old(Contents())), hash, peerId) else View(old(Contents()))
      ensures |old(peers)| - 1 <= |peers| <= |old(peers)|
    {
      RemovedRefines(Contents(), peerId, hash, later);
      var validHash := IsHexString(hash, 40);
      var validId := IsHexString(peerId, 40);
      if !validHash || !validId {
        return false;
      }
      DeleteRemovesAtMostOne(Contents(), peerId, hash);
      HexHasNoNul(peerId);
      HexHasNoNul(hash);
      DeleteExecutes(Contents(), peerId, hash, later);
      var sql := PeerDeleteText(peerId, hash);
      ok := Query(sql, later);
      if ok {
        var refreshed := RefreshTorrentStats(hash, later);
      }
    }

    /** increment_downloaded. */
    method IncrementDownloaded(hash: bytes) returns (ok: bool)
      requires Valid()
      modifies this
      ensures Valid() && ok == IsId(hash)
      ensures Contents() == Counted(old(Contents()), hash)
      ensures View(Contents()) == View(old(Contents()))
    {
      CountedRefines(Contents(), hash);
      ok := IsHexString(hash, 40);
      if ok {
        HexHasNoNul(hash);
        CountExecutes(Contents(), hash, 0);
        var sql := DownloadCountText(hash);
        ok := Query(sql, 0);
      }
    }

    /** cleanup_old_peers: exactly the peers seen before the cutoff are gone, and those kept are as they were. */
    method CleanupOldPeers(maxAge: int, now: int) returns (affected: nat)
      requires Valid()
      modifies this
      ensures Valid() && Contents() == Cleanup(old(Contents()), maxAge, now)
      ensures OnlyOldAreGone(old(Contents()), Contents(), maxAge, now)
      ensures torrents == old(torrents)
      ensures View(Contents()) == Expire(View(old(Contents())), Cutoff(maxAge, now))
      ensures affected + |peers| == |old(peers)|
    {
      CleanupRefines(Contents(), maxAge, now);
      ExpiredPeers(Contents(), maxAge, now);
      ExpiryExecutes(Contents(), if maxAge >= 60 then maxAge else 60, now);
      var before := |peers|;
      var sql := ExpiryText(maxAge);
      var ok := Query(sql, now);
      Sizes.SubsetSize(peers.Keys, old(peers).Keys);
      affected := before - |peers|;
    }

    /** get_peers. */
    method GetPeers(hash: bytes, exclude: bytes, limit: int) returns (listed: seq<PeerInfo>)
      requires Valid()
      ensures IsPeerList(Contents(), hash, exclude, limit, listed)
    {
      listed := [];
      var validHash := IsHexString(hash, 40);
      if !validHash {
        return;
      }
      HexHasNoNul(hash);
      QuerySelects(Contents(), hash, exclude, 0);
      var sql := PeerQueryText(hash, exclude, Bounded(limit));
      match StatementOf(sql)
      case None =>
      case Some(st) =>
        ghost var ids;
        var rows;
        rows, ids := SelectPeers(st, 0);
        listed := PeersOfRows(rows, ids);
    }

    /** The rows a query for peers with an order and a limit gives. */
    method SelectPeers(st: Statement, now: int) returns (rows: seq<seq<Option<Cell>>>, ghost ids: seq<nat>)
      requires st.Select? && st.newestBy == Some("last_seen") && st.limit.Some? && st.limit.value >= 0
      ensures IsAnswer(Contents(), PeersWhere(Contents(), st.where, now), st.limit.value, ids)
      ensures rows == ProjectAll(Contents(), ids, st.columns)
    {
      var chosen := SelectNewest(Contents(), PeersWhere(Contents(), st.where, now), st.limit.value);
      rows, ids := ProjectAll(Contents(), chosen, st.columns), chosen;
    }

    /** The loop of get_peers over the rows of its query. */
    method PeersOfRows(rows: seq<seq<Option<Cell>>>, ghost ids: seq<nat>) returns (listed: seq<PeerInfo>)
      requires forall i :: 0 <= i < |ids| ==> ids[i] in peers
      requires rows == ProjectAll(Contents(), ids, ["peer_id", "ip", "port"])
      ensures listed == ListedAll(Contents(), ids)
    {
      listed := [];
      for i := 0 to |rows|
        invariant listed == ListedAll(Contents(), ids)[..i]
      {
        EndpointOf(peers[ids[i]]);
        var peer := PeerInfo([], [], [], 0, 0, 0, 0, []);
        peer := peer.(peerId := match rows[i][0] case Some(Str(s)) => s case _ => []);
        peer := peer.(ip := match rows[i][1] case Some(Str(s)) => s case _ => []);
        peer := peer.(port := match rows[i][2] case Some(Int(n)) => n case _ => 0);
        listed := listed + [peer];
      }
    }

    /** get_torrent_info: the three columns of the torrent's row; a torrent that is not there counts nothing. */
    method GetTorrentInfo(hash: bytes) returns (stats: Stats)
      requires Valid()
      ensures stats == StatsOf(Contents(), hash)
      ensures IsId(hash) ==> forall id :: id in torrents && torrents[id].hash == hash ==>
        && stats.complete == torrents[id].complete
        && stats.incomplete == torrents[id].incomplete
        && stats.downloaded == torrents[id].downloaded
      ensures !IsId(hash) || (forall id :: id in torrents ==> torrents[id].hash != hash) ==>
        stats.complete == 0 && stats.incomplete == 0 && stats.downloaded == 0
    {
      stats := Stats(0, 0, 0);
      SelectedIsTorrent(Contents(), hash);
      OneRow(Contents(), hash);
      var validHash := IsHexString(hash, 40);
      if !validHash {
        return;
      }
      if id :| id in torrents && torrents[id].hash == hash {
        stats := Stats(torrents[id].complete, torrents[id].incomplete, torrents[id].downloaded);
      }
    }

    /** get_torrent_count: one for every torrent of the swarm. */
    method GetTorrentCount() returns (count: nat)
      requires Valid()
      ensures count == |View(Contents())|
    {
      count := |torrents|;
      TorrentsAreHashes(Contents());
    }

    /** get_peer_count, get_active_seeder_count and get_active_leecher_count. */
    method GetActiveCounts(seconds: int, now: int) returns (all: nat, seeders: nat, leechers: nat)
      ensures all == |set k | k in peers && peers[k].lastSeen > now - seconds|
      ensures seeders == |set k | k in peers && peers[k].fields.left == 0 && peers[k].lastSeen > now - seconds|
      ensures leechers == |set k | k in peers && peers[k].fields.left > 0 && peers[k].lastSeen > now - seconds|
      ensures seeders + leechers <= all
    {
      var active := set k | k in peers && peers[k].lastSeen > now - seconds;
      var whole := set k | k in peers && peers[k].fields.left == 0 && peers[k].lastSeen > now - seconds;
      var part := set k | k in peers && peers[k].fields.left > 0 && peers[k].lastSeen > now - seconds;
      all, seeders, leechers := |active|, |whole|, |part|;
      assert whole !! part;
      Sizes.SubsetSize(whole + part, active);
    }

    /** get_downloaded_count. */
    method GetDownloadedCount() returns (count: nat)
      ensures count == SumOf(Downloaded, torrents)
    {
      count := 0;
      var rest := torrents;
      while rest != map[]
        invariant rest.Keys <= torrents.Keys
        invariant count + SumOf(Downloaded, rest) == SumOf(Downloaded, torrents)
        decreases |rest|
      {
        var id :| id in rest;
        SumTakes(Downloaded, rest, id);
        RemoveShrinks(rest, id);
        count := count + rest[id].downloaded;
        rest := rest - {id};
      }
    }
  }

  lemma HexHasNoNul(s: bytes)
    requires IsId(s)
    ensures NUL !in s
  {
  }

  /** The server receives the peer's statement exactly when its values can be part of one. */
  lemma StorableExactly(peer: PeerInfo, torrentId: int)
    requires ValidPeer(peer)
    ensures Received(Render(UpsertPieces(peer, torrentId))) ==
      if Storable(peer) then Some(UpsertPieces(peer, torrentId)) else None
  {
    HexHasNoNul(peer.infoHash);
    HexHasNoNul(peer.peerId);
    PeerUpsertExactly(peer, torrentId);
  }

  lemma TorrentsAreHashes(t: Tables)
    requires Consistent(t)
    ensures |t.torrents| == |View(t)|
  {
    var f: nat -> bytes := id => if id in t.torrents then t.torrents[id].hash else [];
    forall x, y | x in t.torrents.Keys && y in t.torrents.Keys && f(x) == f(y)
      ensures x == y
    {
      assert IsTorrent(t, x, f(x)) && IsTorrent(t, y, f(x));
    }
    Sizes.ImageSize(f, t.torrents.Keys, View(t).Keys);
  }

  lemma LookupDecides(t: Tables, hash: bytes, now: int, found: Option<nat>)
    requires Consistent(t)
    requires
      var ids := TorrentsWhere(t, [Cond("info_hash", Equal, Quoted(hash))], now);
      if found.Some? then found.value in ids else ids == {}
    ensures found == SelectId(t, hash)
  {
    SelectedIsTorrent(t, hash);
    LookupSelects(t, hash, now);
    assert found.Some? ==> IsTorrent(t, found.value, hash);
    if id :| IsTorrent(t, id, hash) {
      assert id in TorrentsWhere(t, [Cond("info_hash", Equal, Quoted(hash))], now);
      assert IsTorrent(t, SelectId(t, hash).value, hash);
    }
  }

  lemma ActiveOf(t: Tables, hash: bytes, now: int)
    ensures Seeders(t, hash, now - WINDOW) ==
      set k | k in t.peers && t.peers[k].hash == hash && t.peers[k].fields.left == 0 && t.peers[k].lastSeen > now - 7200
    ensures Leechers(t, hash, now - WINDOW) ==
      set k | k in t.peers && t.peers[k].hash == hash && t.peers[k].fields.left > 0 && t.peers[k].lastSeen > now - 7200
  {
  }

  lemma OneRow(t: Tables, hash: bytes)
    requires Consistent(t)
    ensures Known(t, hash) <==> exists id :: id in t.torrents && t.torrents[id].hash == hash
    ensures forall a, b :: a in t.torrents && b in t.torrents && t.torrents[a].hash == hash == t.torrents[b].hash ==>
      a == b
  {
    forall a, b | a in t.torrents && b in t.torrents && t.torrents[a].hash == hash == t.torrents[b].hash
      ensures a == b
    {
      assert IsTorrent(t, a, hash) && IsTorrent(t, b, hash);
    }
    if id :| id in t.torrents && t.torrents[id].hash == hash {
      assert IsTorrent(t, id, hash);
    }
  }

  /** A peer of the old swarm is still there if it was seen within the age, which is at least a minute. */
  ghost predicate OnlyOldAreGone(t: Tables, t': Tables, age: int, now: int) {
    forall h, p, x :: PeerOf(t', h, p) == Some(x) <==>
      PeerOf(t, h, p) == Some(x) && x.lastSeen >= if age >= 60 then now - age else now - 60
  }

  lemma ExpiredPeers(t: Tables, age: int, now: int)
    requires Consistent(t)
    ensures OnlyOldAreGone(t, Cleanup(t, age, now), age, now)
  {
    forall h, p
      ensures PeerOf(Cleanup(t, age, now), h, p) ==
        match PeerOf(t, h, p)
        case None => None
        case Some(x) => if x.lastSeen >= Cutoff(age, now) then Some(x) else None
    {
      ExpiredPeer(t, age, now, h, p);
    }
  }
}
