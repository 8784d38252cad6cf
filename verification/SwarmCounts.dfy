/**
 The cached counts of a torrent against its peer rows: what any interleaving keeps, and exactly
 when the cache is right once no request for the torrent is between its write and its refresh.
*/
module SwarmCounts {
  import opened Options
  import opened Sizes
  import opened Text
  import opened Records
  import opened SwarmTables
  import opened SwarmRefinement
  import opened SwarmProtocol
  import opened SwarmTotals
  import opened SwarmHistory

  /** A request has changed rows of the hash and has yet to refresh its counts. */
  ghost predicate Pending(w: World, hash: bytes) {
    exists i :: 0 <= i < |w.requests| && w.requests[i].pc == Written && w.requests[i].peer.infoHash == hash
  }

  /** No write of the torrent waits for its refresh, and no cleanup has run since the last refresh. */
  ghost predicate Quiet(w: World, id: nat) {
    && id in w.tables.torrents
    && !Pending(w, w.tables.torrents[id].hash)
    && w.tables.torrents[id].hash !in w.swept
  }

  /** The rows of a snapshot that are still there. */
  function Kept(ids: set<nat>, t: Tables): set<nat> {
    set id | id in ids && id in t.peers
  }

  /** The cache holds what the snapshot counted, and of those rows only removed ones are missing. */
  ghost predicate CountedBy(t: Tables, id: nat, snap: Snapshot) {
    id in t.torrents &&
    var row := t.torrents[id];
    && row.complete == |snap.seeders| && row.incomplete == |snap.leechers|
    && Seeders(t, row.hash, snap.time - WINDOW) == Kept(snap.seeders, t)
    && Leechers(t, row.hash, snap.time - WINDOW) == Kept(snap.leechers, t)
  }

  predicate Unswept(t: Tables, snap: Snapshot) {
    snap.seeders <= t.peers.Keys && snap.leechers <= t.peers.Keys
  }

  ghost predicate SnapBelow(w: World) {
    forall h, k :: h in w.refreshed && k in w.refreshed[h].seeders + w.refreshed[h].leechers ==> k < w.tables.nextPeer
  }

  ghost predicate TrackedAt(w: World, id: nat) {
    id in w.tables.torrents ==>
      var h := w.tables.torrents[id].hash;
      Pending(w, h) ||
      (&& h in w.refreshed && CountedBy(w.tables, id, w.refreshed[h])
       && (h !in w.swept ==> Unswept(w.tables, w.refreshed[h])))
  }

  ghost predicate Tracked(w: World) {
    Sound(w) && SnapBelow(w) && forall id :: TrackedAt(w, id)
  }

  /** The rows of a torrent are the same in both. */
  predicate SameRows(t: Tables, t': Tables, hash: bytes) {
    && (forall k :: k in t.peers && t.peers[k].hash == hash ==> k in t'.peers && t'.peers[k] == t.peers[k])
    && (forall k :: k in t'.peers && t'.peers[k].hash == hash ==> k in t.peers && t'.peers[k] == t.peers[k])
  }

  /** A torrent whose rows, counters and snapshot were not touched. */
  lemma CountedUntouched(t: Tables, t': Tables, id: nat, snap: Snapshot)
    requires CountedBy(t, id, snap)
    requires id in t'.torrents && t'.torrents[id].hash == t.torrents[id].hash
    requires t'.torrents[id].complete == t.torrents[id].complete
    requires t'.torrents[id].incomplete == t.torrents[id].incomplete
    requires SameRows(t, t', t.torrents[id].hash)
    requires forall k :: k in snap.seeders + snap.leechers && k in t'.peers ==> k in t.peers
    ensures CountedBy(t', id, snap)
    ensures Unswept(t, snap) ==> Unswept(t', snap)
  {
    var h := t.torrents[id].hash;
    forall k | k in snap.seeders && k in t.peers
      ensures k in t'.peers
    {
      assert k in Kept(snap.seeders, t);
      assert k in Seeders(t, h, snap.time - WINDOW);
    }
    forall k | k in snap.leechers && k in t.peers
      ensures k in t'.peers
    {
      assert k in Kept(snap.leechers, t);
      assert k in Leechers(t, h, snap.time - WINDOW);
    }
    assert Kept(snap.seeders, t') == Kept(snap.seeders, t);
    assert Kept(snap.leechers, t') == Kept(snap.leechers, t);
    assert Seeders(t', h, snap.time - WINDOW) == Seeders(t, h, snap.time - WINDOW);
    assert Leechers(t', h, snap.time - WINDOW) == Leechers(t, h, snap.time - WINDOW);
  }

  lemma CountedAfterCleanup(t: Tables, age: int, now: int, id: nat, snap: Snapshot)
    requires CountedBy(t, id, snap)
    ensures CountedBy(Cleanup(t, age, now), id, snap)
  {
    var t' := Cleanup(t, age, now);
    var h := t.torrents[id].hash;
    var since := snap.time - WINDOW;
    forall k
      ensures k in Seeders(t', h, since) <==> k in Kept(snap.seeders, t')
      ensures k in Leechers(t', h, since) <==> k in Kept(snap.leechers, t')
    {
      assert k in Seeders(t, h, since) <==> k in Kept(snap.seeders, t);
      assert k in Leechers(t, h, since) <==> k in Kept(snap.leechers, t);
    }
  }

  lemma CountedAfterRefresh(t: Tables, hash: bytes, now: int, id: nat)
    requires IsTorrent(t, id, hash)
    ensures CountedBy(Refresh(t, hash, now), id, SnapshotOf(t, hash, now))
    ensures Unswept(Refresh(t, hash, now), SnapshotOf(t, hash, now))
  {
    var t' := Refresh(t, hash, now);
    var snap := SnapshotOf(t, hash, now);
    assert Seeders(t', hash, now - WINDOW) == Seeders(t, hash, now - WINDOW);
    assert Leechers(t', hash, now - WINDOW) == Leechers(t, hash, now - WINDOW);
    assert Kept(snap.seeders, t') == snap.seeders;
    assert Kept(snap.leechers, t') == snap.leechers;
  }

  lemma PendingElsewhere(w: World, w': World, i: nat, hash: bytes)
    requires i < |w.requests| == |w'.requests| && w'.requests == w.requests[i := w'.requests[i]]
    requires w.requests[i].pc == Written ==> w.requests[i].peer.infoHash != hash
    ensures Pending(w, hash) ==> Pending(w', hash)
  {
    if Pending(w, hash) {
      var k :| 0 <= k < |w.requests| && w.requests[k].pc == Written && w.requests[k].peer.infoHash == hash;
      assert w'.requests[k] == w.requests[k];
    }
  }

  /** A step of request `i` that does not touch the torrent. */
  lemma TrackedUntouched(w: World, w': World, i: nat, id: nat)
    requires Tracked(w)
    requires i < |w.requests| == |w'.requests| && w'.requests == w.requests[i := w'.requests[i]]
    requires id in w.tables.torrents && id in w'.tables.torrents
    requires
      var h := w.tables.torrents[id].hash;
      && (w.requests[i].pc == Written ==> w.requests[i].peer.infoHash != h)
      && w'.tables.torrents[id].hash == h
      && w'.tables.torrents[id].complete == w.tables.torrents[id].complete
      && w'.tables.torrents[id].incomplete == w.tables.torrents[id].incomplete
      && SameRows(w.tables, w'.tables, h)
      && (h in w.refreshed ==>
           h in w'.refreshed && w'.refreshed[h] == w.refreshed[h] && (h in w'.swept <==> h in w.swept))
    requires forall k :: k < w.tables.nextPeer && k in w'.tables.peers ==> k in w.tables.peers
    ensures TrackedAt(w', id)
  {
    var h := w.tables.torrents[id].hash;
    PendingElsewhere(w, w', i, h);
    assert TrackedAt(w, id);
    if !Pending(w, h) {
      CountedUntouched(w.tables, w'.tables, id, w.refreshed[h]);
    }
  }

  lemma TrackedArrived(w: World, i: nat, id: nat)
    requires Tracked(w) && i < |w.requests| && w.requests[i].pc == Arrived
    ensures TrackedAt(ArrivedStep(w, i), id)
  {
    var w' := ArrivedStep(w, i);
    var peer := w.requests[i].peer;
    if id in w.tables.torrents {
      var h := w.tables.torrents[id].hash;
      if h == peer.infoHash && w'.requests[i].pc == Written {
        assert Pending(w', h) by { assert w'.requests[i].peer.infoHash == h; }
      } else {
        TrackedUntouched(w, w', i, id);
      }
    }
  }

  lemma TrackedChecked(w: World, i: nat, now: int, id: nat)
    requires Tracked(w) && i < |w.requests| && w.requests[i].pc == Checked
    ensures TrackedAt(CheckedStep(w, i, now), id)
  {
    var w' := CheckedStep(w, i, now);
    var peer := w.requests[i].peer;
    UpsertTorrentKeeps(w.tables, peer.infoHash);
    if id in w.tables.torrents {
      assert IsTorrent(w.tables, id, w.tables.torrents[id].hash);
      TrackedUntouched(w, w', i, id);
    } else if id in w'.tables.torrents {
      assert !Known(w.tables, peer.infoHash);
      UnknownHasNoPeer(w.tables, peer.infoHash, []);
      assert Seeders(w'.tables, peer.infoHash, now - WINDOW) == {};
      assert Leechers(w'.tables, peer.infoHash, now - WINDOW) == {};
      assert Kept({}, w'.tables) == {};
    }
  }

  lemma TrackedWrite(w: World, i: nat, now: int, id: nat)
    requires Tracked(w) && i < |w.requests| && w.requests[i].pc.IdKnown?
    ensures TrackedAt(WriteStep(w, i, w.requests[i].pc.torrentId, now), id)
  {
    var torrentId, peer := w.requests[i].pc.torrentId, w.requests[i].peer;
    var w' := WriteStep(w, i, torrentId, now);
    assert RequestOk(w.tables, w.requests[i]);
    if !Storable(peer) {
      if id in w.tables.torrents {
        TrackedUntouched(w, w', i, id);
      }
      return;
    }
    UpsertPeerKeeps(w.tables, torrentId, peer, now);
    var row :| IsWritten(w.tables, w'.tables, row, peer, now);
    if id in w.tables.torrents {
      var h := w.tables.torrents[id].hash;
      if h == peer.infoHash {
        assert Pending(w', h) by { assert w'.requests[i].peer.infoHash == h && w'.requests[i].pc == Written; }
      } else {
        TrackedUntouched(w, w', i, id);
      }
    }
  }

  lemma TrackedRefresh(w: World, i: nat, now: int, id: nat)
    requires Tracked(w) && i < |w.requests| && w.requests[i].pc == Written
    ensures TrackedAt(RefreshStep(w, i, now), id)
  {
    var w' := RefreshStep(w, i, now);
    var h := w.requests[i].peer.infoHash;
    if id in w.tables.torrents {
      if w.tables.torrents[id].hash == h {
        CountedAfterRefresh(w.tables, h, now, id);
      } else {
        TrackedUntouched(w, w', i, id);
      }
    }
  }

  lemma TrackedSweep(w: World, age: int, now: int, id: nat)
    requires Tracked(w)
    ensures TrackedAt(Apply(w, Sweep(age, now)), id)
  {
    if id in w.tables.torrents {
      var h := w.tables.torrents[id].hash;
      assert TrackedAt(w, id);
      assert h in Hashes(w.tables);
      var w' := Apply(w, Sweep(age, now));
      if Pending(w, h) {
        assert Pending(w', h);
      } else {
        CountedAfterCleanup(w.tables, age, now, id, w.refreshed[h]);
      }
    }
  }

  lemma SnapStep(w: World, step: Step)
    requires Tracked(w) && Enabled(w, step)
    ensures SnapBelow(Apply(w, step))
  {
    var w' := Apply(w, step);
    assert w'.tables.nextPeer >= w.tables.nextPeer;
  }

  lemma TrackedStep(w: World, step: Step)
    requires Tracked(w) && Enabled(w, step)
    ensures Tracked(Apply(w, step))
  {
    StepRefines(w, step);
    SnapStep(w, step);
    forall id: nat
      ensures TrackedAt(Apply(w, step), id)
    {
      TrackedStepAt(w, step, id);
    }
  }

  lemma TrackedStepAt(w: World, step: Step, id: nat)
    requires Tracked(w) && Enabled(w, step)
    ensures TrackedAt(Apply(w, step), id)
  {
    match step
    case List(i, _) => if id in w.tables.torrents { TrackedUntouched(w, Apply(w, step), i, id); }
    case Count(i) => if id in w.tables.torrents { TrackedUntouched(w, Apply(w, step), i, id); }
    case Arrive(_, _) =>
      assert TrackedAt(w, id);
      var w' := Apply(w, step);
      if id in w.tables.torrents && Pending(w, w.tables.torrents[id].hash) {
        var k :|
          && 0 <= k < |w.requests| && w.requests[k].pc == Written
          && w.requests[k].peer.infoHash == w.tables.torrents[id].hash;
        assert w'.requests[k] == w.requests[k];
      }
    case Sweep(age, now) => TrackedSweep(w, age, now, id);
    case Advance(i, now) =>
      match w.requests[i].pc {
        case Arrived => TrackedArrived(w, i, id);
        case Checked => TrackedChecked(w, i, now, id);
        case TorrentReady => if id in w.tables.torrents { TrackedUntouched(w, SelectStep(w, i), i, id); }
        case IdKnown(_) => TrackedWrite(w, i, now, id);
        case Written => TrackedRefresh(w, i, now, id);
      }
  }

  lemma {:induction false} TrackedRun(w: World, steps: seq<Step>)
    requires Tracked(w) && CanRun(w, steps)
    ensures Tracked(Run(w, steps))
    decreases |steps|
  {
    if steps != [] {
      TrackedStep(w, steps[0]);
      TrackedRun(Apply(w, steps[0]), steps[1..]);
    }
  }

  lemma StartIsTracked()
    ensures Tracked(START)
  {
    StartIsSound();
  }

  lemma KeptAll(ids: set<nat>, t: Tables)
    ensures |Kept(ids, t)| == |ids| <==> ids <= t.peers.Keys
    ensures |Kept(ids, t)| <= |ids|
  {
    assert Kept(ids, t) <= ids;
    if ids <= t.peers.Keys {
      assert Kept(ids, t) == ids;
    } else {
      var k :| k in ids && k !in t.peers;
      assert Kept(ids, t) <= ids - {k};
      SubsetSize(Kept(ids, t), ids - {k});
    }
    SubsetSize(Kept(ids, t), ids);
  }

  /**
   In any interleaving, once no request for a torrent is between its write and its refresh: the
   cached number of seeders equals the number of the torrent's current rows that count as seeders
   in the two-hour window of its last refresh exactly when no row counted then has been cleaned
   up since; otherwise the cache is too high. The same holds for leechers.
  */
  lemma CachedCountsExactly(steps: seq<Step>, id: nat)
    requires CanRun(START, steps)
    requires id in Run(START, steps).tables.torrents
    requires !Pending(Run(START, steps), Run(START, steps).tables.torrents[id].hash)
    ensures
      var w := Run(START, steps);
      var row := w.tables.torrents[id];
      && row.hash in w.refreshed
      && var snap := w.refreshed[row.hash];
      && (row.complete == |Seeders(w.tables, row.hash, snap.time - 7200)| <==> snap.seeders <= w.tables.peers.Keys)
      && (row.incomplete == |Leechers(w.tables, row.hash, snap.time - 7200)| <==>
           snap.leechers <= w.tables.peers.Keys)
      && row.complete >= |Seeders(w.tables, row.hash, snap.time - 7200)|
      && row.incomplete >= |Leechers(w.tables, row.hash, snap.time - 7200)|
  {
    StartIsTracked();
    TrackedRun(START, steps);
    var w := Run(START, steps);
    assert TrackedAt(w, id);
    var snap := w.refreshed[w.tables.torrents[id].hash];
    KeptAll(snap.seeders, w.tables);
    KeptAll(snap.leechers, w.tables);
  }

  /** In particular the cache is right whenever no cleanup has run since the torrent's last refresh. */
  lemma CachedCountsAtQuiescence(steps: seq<Step>, id: nat)
    requires CanRun(START, steps) && Quiet(Run(START, steps), id)
    ensures
      var w := Run(START, steps);
      var row := w.tables.torrents[id];
      && row.hash in w.refreshed
      && row.complete == |Seeders(w.tables, row.hash, w.refreshed[row.hash].time - 7200)|
      && row.incomplete == |Leechers(w.tables, row.hash, w.refreshed[row.hash].time - 7200)|
  {
    StartIsTracked();
    TrackedRun(START, steps);
    CachedCountsExactly(steps, id);
    assert TrackedAt(Run(START, steps), id);
  }

  lemma QuietIsRefreshed(steps: seq<Step>, id: nat)
    requires CanRun(START, steps) && Quiet(Run(START, steps), id)
    ensures
      var w := Run(START, steps);
      var h := w.tables.torrents[id].hash;
      h in w.refreshed && RefreshedAt(w.tables, id, w.refreshed[h].time)
  {
    CachedCountsAtQuiescence(steps, id);
  }

  /** The rows that the cached counts of a torrent count. */
  ghost function CountedRows(w: World, id: nat): set<nat>
    requires id in w.tables.torrents && w.tables.torrents[id].hash in w.refreshed
  {
    var h := w.tables.torrents[id].hash;
    var since := w.refreshed[h].time - WINDOW;
    Seeders(w.tables, h, since) + Leechers(w.tables, h, since)
  }

  lemma SweepExactly(w: World, id: nat, age: int, now: int)
    requires id in w.tables.torrents && w.tables.torrents[id].hash in w.refreshed
    requires RefreshedAt(w.tables, id, w.refreshed[w.tables.torrents[id].hash].time)
    ensures
      RefreshedAt(Apply(w, Sweep(age, now)).tables, id, w.refreshed[w.tables.torrents[id].hash].time) <==>
        AllSeenSince(w.tables, CountedRows(w, id), now - if age >= 60 then age else 60)
  {
    CleanupKeepsCacheExactly(w.tables, age, now, id, w.refreshed[w.tables.torrents[id].hash].time);
  }

  /**
   In any interleaving, at such a moment: a cleanup that runs next leaves the cached counts of a
   torrent right exactly when none of the rows they count was seen before its cutoff.
  */
  lemma SweepKeepsCacheExactly(steps: seq<Step>, id: nat, age: int, now: int)
    requires CanRun(START, steps) && Quiet(Run(START, steps), id)
    ensures
      var w := Run(START, steps);
      var h := w.tables.torrents[id].hash;
      && h in w.refreshed
      && (RefreshedAt(Apply(w, Sweep(age, now)).tables, id, w.refreshed[h].time) <==>
           AllSeenSince(w.tables, CountedRows(w, id), now - if age >= 60 then age else 60))
  {
    QuietIsRefreshed(steps, id);
    SweepExactly(Run(START, steps), id, age, now);
  }

  /** The tables after one valid announce of a seeder to an empty tracker. */
  lemma FirstSeeder(peer: PeerInfo, now: int, later: int)
    requires ValidPeer(peer) && Storable(peer) && peer.event != "stopped" && peer.left == 0 && now > later - WINDOW
    ensures
      var t := Announced(EMPTY, peer, now, later);
      && t.torrents == map[1 := TorrentRow(peer.infoHash, 1, 0, 0)]
      && t.peers == map[1 := PeerRow(peer.peerId, 1, peer.infoHash, FieldsOf(peer), now)]
  {
    var h := peer.infoHash;
    var t0 := if peer.event == "completed" then Counted(EMPTY, h) else EMPTY;
    assert t0 == EMPTY;
    assert forall id :: !IsTorrent(EMPTY, id, h);
    var t1 := UpsertTorrent(EMPTY, h);
    assert t1.torrents == map[1 := TorrentRow(h, 0, 0, 0)];
    assert IsTorrent(t1, 1, h);
    SelectedIsTorrent(t1, h);
    assert SelectId(t1, h) == Some(1);
    assert forall id :: !IsKey(t1, id, 1, peer.peerId);
    var t2 := UpsertPeer(t1, 1, peer, now);
    assert t2.peers == map[1 := PeerRow(peer.peerId, 1, h, FieldsOf(peer), now)];
    assert Seeders(t2, h, later - WINDOW) == {1};
    assert Leechers(t2, h, later - WINDOW) == {};
  }

  /**
   A cleanup makes the cache wrong: whenever one seeder announces itself to an empty tracker and a
   cleanup then finds it too old, the tracker goes on reporting one seeder and holds no peer at all.
  */
  lemma CleanupLeavesCacheStale(peer: PeerInfo, now: int, later: int, age: int, time: int) returns (steps: seq<Step>)
    requires ValidPeer(peer) && Storable(peer) && peer.event != "stopped" && peer.left == 0 && now > later - 7200
    requires now < time - age && now < time - 60
    ensures CanRun(START, steps)
    ensures
      var t := Run(START, steps).tables;
      t.peers == map[] && t.torrents == map[1 := TorrentRow(peer.infoHash, 1, 0, 0)]
  {
    StartIsSound();
    steps := AnnounceIsRun(START, [], peer, 50, now, later);
    FirstSeeder(peer, now, later);
    OneMore(START, steps, Sweep(age, time));
    steps := steps + [Sweep(age, time)];
  }
}
