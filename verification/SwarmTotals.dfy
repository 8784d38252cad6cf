/** What is conserved over all torrents: downloads under any interleaving, and peer counts at one instant. */
module SwarmTotals {
  import opened Options
  import opened Sizes
  import opened Text
  import opened SwarmTables
  import opened SwarmRefinement
  import opened SwarmProtocol

  // Sums over the torrents table

  type Column = TorrentRow -> nat

  /** SELECT SUM(column) FROM torrents. */
  ghost function SumOf(f: Column, m: map<nat, TorrentRow>): nat
    decreases |m|
  {
    if m == map[] then 0
    else
      var id :| id in m;
      RemoveShrinks(m, id);
      f(m[id]) + SumOf(f, m - {id})
  }

  lemma RemoveShrinks(m: map<nat, TorrentRow>, id: nat)
    requires id in m
    ensures |m - {id}| < |m|
  {
    assert (m - {id}).Keys == m.Keys - {id};
    assert |m.Keys - {id}| == |m.Keys| - 1;
    assert |m - {id}| == |(m - {id}).Keys| && |m| == |m.Keys|;
  }

  lemma {:induction false} SumTakes(f: Column, m: map<nat, TorrentRow>, id: nat)
    requires id in m
    ensures SumOf(f, m) == f(m[id]) + SumOf(f, m - {id})
    decreases |m|
  {
    var k :| k in m && SumOf(f, m) == f(m[k]) + SumOf(f, m - {k});
    if k != id {
      RemoveShrinks(m, k);
      RemoveShrinks(m, id);
      SumTakes(f, m - {k}, id);
      SumTakes(f, m - {id}, k);
      assert m - {k} - {id} == m - {id} - {k};
    }
  }

  lemma {:induction false} SumSame(f: Column, m: map<nat, TorrentRow>, m': map<nat, TorrentRow>)
    requires m.Keys == m'.Keys
    requires forall id :: id in m ==> f(m'[id]) == f(m[id])
    ensures SumOf(f, m') == SumOf(f, m)
    decreases |m|
  {
    if m == map[] {
      assert m' == map[];
    } else {
      var id :| id in m;
      SumTakes(f, m, id);
      SumTakes(f, m', id);
      RemoveShrinks(m, id);
      SumSame(f, m - {id}, m' - {id});
    }
  }

  lemma SumPut(f: Column, m: map<nat, TorrentRow>, id: nat, row: TorrentRow)
    ensures SumOf(f, m[id := row]) + (if id in m then f(m[id]) else 0) == SumOf(f, m) + f(row)
  {
    var m' := m[id := row];
    SumTakes(f, m', id);
    assert m' - {id} == m - {id};
    if id in m {
      SumTakes(f, m, id);
    } else {
      assert m - {id} == m;
    }
  }

  // Downloads

  ghost function Downloaded(row: TorrentRow): nat {
    row.downloaded
  }

  ghost function DownloadedOf(t: Tables, hash: bytes): nat {
    match SelectId(t, hash)
    case None => 0
    case Some(id) => t.torrents[id].downloaded
  }

  /** The hash whose counter a step raises, if there is a row to raise it in. */
  ghost function Counts(w: World, step: Step): Option<bytes> {
    if step.Advance? && step.i < |w.requests| && w.requests[step.i].pc == Arrived then
      var peer := w.requests[step.i].peer;
      if peer.event == "completed" && IsId(peer.infoHash) && peer.peerId != [] && Known(w.tables, peer.infoHash) then
        Some(peer.infoHash)
      else None
    else None
  }

  ghost function CountsFor(w: World, steps: seq<Step>, hash: bytes): nat
    requires CanRun(w, steps)
    decreases |steps|
  {
    if steps == [] then 0
    else (if Counts(w, steps[0]) == Some(hash) then 1 else 0) + CountsFor(Apply(w, steps[0]), steps[1..], hash)
  }

  ghost function CountsInAll(w: World, steps: seq<Step>): nat
    requires CanRun(w, steps)
    decreases |steps|
  {
    if steps == [] then 0
    else (if Counts(w, steps[0]).Some? then 1 else 0) + CountsInAll(Apply(w, steps[0]), steps[1..])
  }

  lemma DownloadedIs(t: Tables, id: nat, hash: bytes)
    requires Consistent(t) && IsTorrent(t, id, hash)
    ensures DownloadedOf(t, hash) == t.torrents[id].downloaded
  {
    SelectedIsTorrent(t, hash);
    assert Known(t, hash);
  }

  /** Tables whose rows have the same downloads. */
  lemma DownloadedSame(t: Tables, t': Tables, hash: bytes)
    requires Consistent(t) && Consistent(t')
    requires t'.torrents.Keys == t.torrents.Keys
    requires forall id :: id in t.torrents ==>
      && t'.torrents[id].hash == t.torrents[id].hash
      && t'.torrents[id].downloaded == t.torrents[id].downloaded
    ensures DownloadedOf(t', hash) == DownloadedOf(t, hash)
    ensures SumOf(Downloaded, t'.torrents) == SumOf(Downloaded, t.torrents)
  {
    SumSame(Downloaded, t.torrents, t'.torrents);
    if id :| IsTorrent(t, id, hash) {
      assert IsTorrent(t', id, hash);
      DownloadedIs(t, id, hash);
      DownloadedIs(t', id, hash);
    } else {
      assert forall id :: IsTorrent(t', id, hash) ==> IsTorrent(t, id, hash);
    }
  }

  lemma DownloadedIncrement(t: Tables, h: bytes, hash: bytes)
    requires Consistent(t)
    ensures
      var n := if Known(t, h) then 1 else 0;
      && DownloadedOf(Increment(t, h), hash) == DownloadedOf(t, hash) + (if h == hash then n else 0)
      && SumOf(Downloaded, Increment(t, h).torrents) == SumOf(Downloaded, t.torrents) + n
  {
    var t' := Increment(t, h);
    IncrementRefines(t, h);
    if id :| IsTorrent(t, id, h) {
      var row := t.torrents[id];
      forall k | k in t.torrents && k != id
        ensures t.torrents[k].hash != h
      {
        assert IsTorrent(t, k, t.torrents[k].hash);
      }
      assert t'.torrents == t.torrents[id := row.(downloaded := row.downloaded + 1)];
      SumPut(Downloaded, t.torrents, id, row.(downloaded := row.downloaded + 1));
      assert Known(t, h);
    } else {
      assert forall k :: k in t.torrents ==> !IsTorrent(t, k, h);
      assert t'.torrents == t.torrents;
    }
    if k :| IsTorrent(t, k, hash) {
      assert IsTorrent(t', k, hash);
      DownloadedIs(t, k, hash);
      DownloadedIs(t', k, hash);
    } else {
      assert forall k :: IsTorrent(t', k, hash) ==> IsTorrent(t, k, hash);
    }
  }

  lemma DownloadedUpsert(t: Tables, h: bytes, hash: bytes)
    requires Consistent(t)
    ensures DownloadedOf(UpsertTorrent(t, h), hash) == DownloadedOf(t, hash)
    ensures SumOf(Downloaded, UpsertTorrent(t, h).torrents) == SumOf(Downloaded, t.torrents)
  {
    var t' := UpsertTorrent(t, h);
    UpsertTorrentKeeps(t, h);
    if !Known(t, h) {
      SumPut(Downloaded, t.torrents, t.nextTorrent, TorrentRow(h, 0, 0, 0));
    }
    if k :| IsTorrent(t, k, hash) {
      assert IsTorrent(t', k, hash);
      DownloadedIs(t, k, hash);
      DownloadedIs(t', k, hash);
    } else if k :| IsTorrent(t', k, hash) {
      DownloadedIs(t', k, hash);
      assert !Known(t, hash) && k == t.nextTorrent;
    }
  }

  lemma DownloadedStep(w: World, step: Step, hash: bytes)
    requires Sound(w) && Enabled(w, step)
    ensures
      var t, t' := w.tables, Apply(w, step).tables;
      && DownloadedOf(t', hash) == DownloadedOf(t, hash) + (if Counts(w, step) == Some(hash) then 1 else 0)
      && SumOf(Downloaded, t'.torrents) == SumOf(Downloaded, t.torrents) + (if Counts(w, step).Some? then 1 else 0)
  {
    StepRefines(w, step);
    var t' := Apply(w, step).tables;
    if step.Advance? && w.requests[step.i].pc == Arrived {
      DownloadedIncrement(w.tables, w.requests[step.i].peer.infoHash, hash);
      DownloadedArrived(w, step.i, step.now, hash);
    } else if step.Advance? && w.requests[step.i].pc == Checked {
      DownloadedUpsert(w.tables, w.requests[step.i].peer.infoHash, hash);
      DownloadedSame(w.tables, w.tables, hash);
    } else {
      DownloadedSame(w.tables, t', hash);
    }
  }

  lemma DownloadedArrived(w: World, i: nat, now: int, hash: bytes)
    requires Sound(w) && i < |w.requests| && w.requests[i].pc == Arrived
    ensures
      var t, t' := w.tables, ArrivedStep(w, i).tables;
      && DownloadedOf(t', hash) == DownloadedOf(t, hash) + (if Counts(w, Advance(i, now)) == Some(hash) then 1 else 0)
      && SumOf(Downloaded, t'.torrents) ==
           SumOf(Downloaded, t.torrents) + (if Counts(w, Advance(i, now)).Some? then 1 else 0)
  {
    var peer := w.requests[i].peer;
    ArrivedRefines(w, i, now);
    if peer.event == "completed" && IsId(peer.infoHash) && peer.peerId != [] {
      DownloadedIncrement(w.tables, peer.infoHash, hash);
    } else {
      DownloadedSame(w.tables, ArrivedStep(w, i).tables, hash);
    }
  }

  /**
   Under any interleaving, a torrent's download counter has grown by exactly the completed events
   counted while its row was there, and the total over all torrents by all of them: none is lost.
  */
  lemma {:induction false} DownloadsConserved(w: World, steps: seq<Step>, hash: bytes)
    requires Sound(w) && CanRun(w, steps)
    ensures DownloadedOf(Run(w, steps).tables, hash) == DownloadedOf(w.tables, hash) + CountsFor(w, steps, hash)
    ensures SumOf(Downloaded, Run(w, steps).tables.torrents) ==
      SumOf(Downloaded, w.tables.torrents) + CountsInAll(w, steps)
    decreases |steps|
  {
    if steps != [] {
      StepRefines(w, steps[0]);
      DownloadedStep(w, steps[0], hash);
      DownloadsConserved(Apply(w, steps[0]), steps[1..], hash);
    }
  }

  // Counts at one instant

  function AllSeeders(t: Tables, since: int): set<nat> {
    set id | id in t.peers && t.peers[id].fields.left == 0 && t.peers[id].lastSeen > since
  }

  function AllLeechers(t: Tables, since: int): set<nat> {
    set id | id in t.peers && t.peers[id].fields.left > 0 && t.peers[id].lastSeen > since
  }

  function AllActive(t: Tables, since: int): set<nat> {
    set id | id in t.peers && t.peers[id].lastSeen > since
  }

  ghost function Complete(row: TorrentRow): nat {
    row.complete
  }

  ghost function Incomplete(row: TorrentRow): nat {
    row.incomplete
  }

  ghost predicate RefreshedAt(t: Tables, id: nat, now: int) {
    id in t.torrents ==>
      && t.torrents[id].complete == |Seeders(t, t.torrents[id].hash, now - WINDOW)|
      && t.torrents[id].incomplete == |Leechers(t, t.torrents[id].hash, now - WINDOW)|
  }

  function RefreshList(t: Tables, hashes: seq<bytes>, now: int): Tables
    decreases |hashes|
  {
    if hashes == [] then t else RefreshList(Refresh(t, hashes[0], now), hashes[1..], now)
  }

  lemma RefreshOne(t: Tables, hash: bytes, now: int, id: nat)
    ensures id in t.torrents && t.torrents[id].hash == hash ==> RefreshedAt(Refresh(t, hash, now), id, now)
    ensures RefreshedAt(t, id, now) ==> RefreshedAt(Refresh(t, hash, now), id, now)
  {
    var t' := Refresh(t, hash, now);
    if id in t.torrents {
      var h := t.torrents[id].hash;
      assert Seeders(t', h, now - WINDOW) == Seeders(t, h, now - WINDOW);
      assert Leechers(t', h, now - WINDOW) == Leechers(t, h, now - WINDOW);
    }
  }

  /** Refreshing every torrent at one time, in any order, makes all their counts right at that time. */
  lemma {:induction false} RefreshAll(t: Tables, hashes: seq<bytes>, now: int, id: nat)
    requires Consistent(t)
    requires id in t.torrents && (t.torrents[id].hash in hashes || RefreshedAt(t, id, now))
    ensures Consistent(RefreshList(t, hashes, now)) && RefreshList(t, hashes, now).peers == t.peers
    ensures RefreshList(t, hashes, now).torrents.Keys == t.torrents.Keys
    ensures RefreshedAt(RefreshList(t, hashes, now), id, now)
    decreases |hashes|
  {
    if hashes != [] {
      RefreshRefines(t, hashes[0], now);
      RefreshOne(t, hashes[0], now, id);
      RefreshAll(Refresh(t, hashes[0], now), hashes[1..], now, id);
    }
  }

  ghost predicate Part(t: Tables, m: map<nat, TorrentRow>) {
    forall id :: id in m ==> id in t.torrents && m[id] == t.torrents[id]
  }

  function Within(t: Tables, ids: set<nat>, m: map<nat, TorrentRow>): set<nat> {
    set k | k in ids && k in t.peers && t.peers[k].torrentId in m
  }

  /** Rows counted for a hash are those that belong to its torrent. */
  lemma SeedersByTorrent(t: Tables, id: nat, since: int, k: nat)
    requires Consistent(t) && id in t.torrents
    ensures k in Seeders(t, t.torrents[id].hash, since) <==> k in AllSeeders(t, since) && t.peers[k].torrentId == id
    ensures k in Leechers(t, t.torrents[id].hash, since) <==> k in AllLeechers(t, since) && t.peers[k].torrentId == id
  {
    if k in t.peers {
      assert IsTorrent(t, t.peers[k].torrentId, t.peers[k].hash);
      assert IsTorrent(t, id, t.torrents[id].hash);
    }
  }

  lemma {:induction false} SumOfParts(t: Tables, m: map<nat, TorrentRow>, now: int)
    requires Consistent(t) && Part(t, m) && forall id :: RefreshedAt(t, id, now)
    ensures SumOf(Complete, m) == |Within(t, AllSeeders(t, now - WINDOW), m)|
    ensures SumOf(Incomplete, m) == |Within(t, AllLeechers(t, now - WINDOW), m)|
    decreases |m|
  {
    var since := now - WINDOW;
    if m == map[] {
      assert Within(t, AllSeeders(t, since), m) == {};
      assert Within(t, AllLeechers(t, since), m) == {};
    } else {
      var id :| id in m;
      SumTakes(Complete, m, id);
      SumTakes(Incomplete, m, id);
      RemoveShrinks(m, id);
      SumOfParts(t, m - {id}, now);
      assert RefreshedAt(t, id, now);
      forall k
        ensures k in Seeders(t, m[id].hash, since) <==> k in AllSeeders(t, since) && t.peers[k].torrentId == id
        ensures k in Leechers(t, m[id].hash, since) <==> k in AllLeechers(t, since) && t.peers[k].torrentId == id
      {
        SeedersByTorrent(t, id, since, k);
      }
      SplitOff(t, AllSeeders(t, since), Seeders(t, m[id].hash, since), m, id);
      SplitOff(t, AllLeechers(t, since), Leechers(t, m[id].hash, since), m, id);
    }
  }

  lemma SplitOff(t: Tables, all: set<nat>, own: set<nat>, m: map<nat, TorrentRow>, id: nat)
    requires id in m && all <= t.peers.Keys
    requires forall k :: k in own <==> k in all && t.peers[k].torrentId == id
    ensures |Within(t, all, m)| == |own| + |Within(t, all, m - {id})|
  {
    assert Within(t, all, m) == own + Within(t, all, m - {id});
    assert own !! Within(t, all, m - {id});
  }

  lemma ActiveRows(t: Tables, now: int)
    ensures AllSeeders(t, now - WINDOW) ==
      set k | k in t.peers && t.peers[k].fields.left == 0 && t.peers[k].lastSeen > now - 7200
    ensures AllLeechers(t, now - WINDOW) ==
      set k | k in t.peers && t.peers[k].fields.left > 0 && t.peers[k].lastSeen > now - 7200
  {
  }

  /**
   When all torrents were refreshed at one instant, their cached counts add up to the global
   counts of active seeders and leechers for a 7200 second window.
  */
  lemma CachedCountsAddUp(t: Tables, now: int)
    requires Consistent(t) && forall id :: RefreshedAt(t, id, now)
    ensures SumOf(Complete, t.torrents) ==
      |set k | k in t.peers && t.peers[k].fields.left == 0 && t.peers[k].lastSeen > now - 7200|
    ensures SumOf(Incomplete, t.torrents) ==
      |set k | k in t.peers && t.peers[k].fields.left > 0 && t.peers[k].lastSeen > now - 7200|
  {
    ActiveRows(t, now);
    SumOfParts(t, t.torrents, now);
    forall k | k in t.peers
      ensures t.peers[k].torrentId in t.torrents
    {
      assert IsTorrent(t, t.peers[k].torrentId, t.peers[k].hash);
    }
    assert Within(t, AllSeeders(t, now - WINDOW), t.torrents) == AllSeeders(t, now - WINDOW);
    assert Within(t, AllLeechers(t, now - WINDOW), t.torrents) == AllLeechers(t, now - WINDOW);
  }

  /** The counts of a shorter window, such as the default of 3600 seconds, are no higher. */
  lemma ShorterWindowCountsLess(t: Tables, now: int, window: int)
    requires window <= 7200
    ensures |AllSeeders(t, now - window)| <= |AllSeeders(t, now - 7200)|
    ensures |AllLeechers(t, now - window)| <= |AllLeechers(t, now - 7200)|
  {
    SubsetSize(AllSeeders(t, now - window), AllSeeders(t, now - 7200));
    SubsetSize(AllLeechers(t, now - window), AllLeechers(t, now - 7200));
  }

  /** Seeders and leechers make up the active peers exactly when no active row has a negative amount left. */
  lemma SeedersAndLeechersExactly(t: Tables, since: int)
    ensures |AllSeeders(t, since)| + |AllLeechers(t, since)| == |AllActive(t, since)| <==>
      forall id :: id in t.peers && t.peers[id].lastSeen > since ==> t.peers[id].fields.left >= 0
  {
    var both := AllSeeders(t, since) + AllLeechers(t, since);
    assert AllSeeders(t, since) !! AllLeechers(t, since);
    assert |both| == |AllSeeders(t, since)| + |AllLeechers(t, since)|;
    SubsetSize(both, AllActive(t, since));
    if forall id :: id in t.peers && t.peers[id].lastSeen > since ==> t.peers[id].fields.left >= 0 {
      assert both == AllActive(t, since);
    } else {
      var id :| id in t.peers && t.peers[id].lastSeen > since && t.peers[id].fields.left < 0;
      assert id in AllActive(t, since) && id !in both;
    }
  }

  /** However the torrents are refreshed at one instant, their counts then add up to the global counts. */
  lemma RefreshedCountsAddUp(t: Tables, hashes: seq<bytes>, now: int)
    requires Consistent(t) && forall id :: id in t.torrents ==> t.torrents[id].hash in hashes
    ensures SumOf(Complete, RefreshList(t, hashes, now).torrents) ==
      |set k | k in t.peers && t.peers[k].fields.left == 0 && t.peers[k].lastSeen > now - 7200|
    ensures SumOf(Incomplete, RefreshList(t, hashes, now).torrents) ==
      |set k | k in t.peers && t.peers[k].fields.left > 0 && t.peers[k].lastSeen > now - 7200|
  {
    var t' := RefreshList(t, hashes, now);
    RefreshListKeeps(t, hashes, now);
    forall id: nat
      ensures RefreshedAt(t', id, now)
    {
      if id in t'.torrents {
        RefreshAll(t, hashes, now, id);
      }
    }
    CachedCountsAddUp(t', now);
    assert t'.peers == t.peers;
  }

  lemma {:induction false} RefreshListKeeps(t: Tables, hashes: seq<bytes>, now: int)
    requires Consistent(t)
    ensures Consistent(RefreshList(t, hashes, now)) && RefreshList(t, hashes, now).peers == t.peers
    ensures RefreshList(t, hashes, now).torrents.Keys == t.torrents.Keys
    decreases |hashes|
  {
    if hashes != [] {
      RefreshRefines(t, hashes[0], now);
      RefreshListKeeps(Refresh(t, hashes[0], now), hashes[1..], now);
    }
  }

  // What a cleanup does to the counts

  predicate AllSeenSince(t: Tables, ids: set<nat>, cutoff: int) {
    forall id :: id in ids && id in t.peers ==> t.peers[id].lastSeen >= cutoff
  }

  /** A cleanup leaves the number of any rows alone exactly when none of them was seen before its cutoff. */
  lemma CleanupKeepsSizeExactly(t: Tables, age: int, now: int, ids: set<nat>, ids': set<nat>)
    requires ids <= t.peers.Keys
    requires forall id :: id in ids' <==> id in ids && t.peers[id].lastSeen >= Cutoff(age, now)
    ensures |ids'| == |ids| <==> AllSeenSince(t, ids, Cutoff(age, now))
    ensures |ids'| == |ids| <==> ids' == ids
  {
    SubsetSize(ids', ids);
  }

  /** So it is for the global counts of any window. */
  lemma CleanupKeepsCountsExactly(t: Tables, age: int, now: int, since: int)
    ensures
      var t', cutoff := Cleanup(t, age, now), now - if age >= 60 then age else 60;
      && (|AllSeeders(t', since)| == |AllSeeders(t, since)| <==> AllSeenSince(t, AllSeeders(t, since), cutoff))
      && (|AllLeechers(t', since)| == |AllLeechers(t, since)| <==> AllSeenSince(t, AllLeechers(t, since), cutoff))
      && (|AllActive(t', since)| == |AllActive(t, since)| <==> AllSeenSince(t, AllActive(t, since), cutoff))
  {
    var t' := Cleanup(t, age, now);
    CleanupKeepsSizeExactly(t, age, now, AllSeeders(t, since), AllSeeders(t', since));
    CleanupKeepsSizeExactly(t, age, now, AllLeechers(t, since), AllLeechers(t', since));
    CleanupKeepsSizeExactly(t, age, now, AllActive(t, since), AllActive(t', since));
  }

  /**
   The cached counts of a torrent, right for the window of some time, are still right after a
   cleanup exactly when none of the rows they count was seen before its cutoff.
  */
  lemma CleanupKeepsCacheExactly(t: Tables, age: int, now: int, id: nat, time: int)
    requires id in t.torrents && RefreshedAt(t, id, time)
    ensures
      var h, since := t.torrents[id].hash, time - 7200;
      RefreshedAt(Cleanup(t, age, now), id, time) <==>
        AllSeenSince(t, Seeders(t, h, since) + Leechers(t, h, since), now - if age >= 60 then age else 60)
  {
    var t' := Cleanup(t, age, now);
    var h, since := t.torrents[id].hash, time - WINDOW;
    CleanupKeepsSizeExactly(t, age, now, Seeders(t, h, since), Seeders(t', h, since));
    CleanupKeepsSizeExactly(t, age, now, Leechers(t, h, since), Leechers(t', h, since));
  }

  /** The global counts of a window are counts of the same rows. */
  ghost predicate SameCounts(t: Tables, t': Tables, since: int) {
    && AllSeeders(t', since) == AllSeeders(t, since)
    && AllLeechers(t', since) == AllLeechers(t, since)
    && AllActive(t', since) == AllActive(t, since)
  }

  lemma CoveredWindow(t: Tables, age: int, now: int, since: int)
    requires since >= now - age
    ensures SameCounts(t, Cleanup(t, age, now), since)
  {
  }

  lemma OldCleanupKeepsCache(t: Tables, age: int, now: int, id: nat)
    requires age >= 7200 && RefreshedAt(t, id, now)
    ensures RefreshedAt(Cleanup(t, age, now), id, now)
  {
    if id in t.torrents {
      CleanupKeepsCacheExactly(t, age, now, id, now);
    }
  }

  /**
   A cleanup at the instant of the refreshes with an age of at least 7200 changes no count: not the
   cached ones, nor their sums, nor the global ones of any window that its age covers.
  */
  lemma OldCleanupChangesNoCount(t: Tables, age: int, now: int)
    requires Consistent(t) && age >= 7200 && forall id :: RefreshedAt(t, id, now)
    ensures
      var t' := Cleanup(t, age, now);
      && Consistent(t') && t'.torrents == t.torrents && (forall id :: RefreshedAt(t', id, now))
      && SumOf(Complete, t'.torrents) ==
           |set k | k in t'.peers && t'.peers[k].fields.left == 0 && t'.peers[k].lastSeen > now - 7200| ==
           |set k | k in t.peers && t.peers[k].fields.left == 0 && t.peers[k].lastSeen > now - 7200|
      && SumOf(Incomplete, t'.torrents) ==
           |set k | k in t'.peers && t'.peers[k].fields.left > 0 && t'.peers[k].lastSeen > now - 7200| ==
           |set k | k in t.peers && t.peers[k].fields.left > 0 && t.peers[k].lastSeen > now - 7200|
    ensures forall since :: since >= now - age ==> SameCounts(t, Cleanup(t, age, now), since)
  {
    var t' := Cleanup(t, age, now);
    CleanupRefines(t, age, now);
    forall id: nat
      ensures RefreshedAt(t', id, now)
    {
      OldCleanupKeepsCache(t, age, now, id);
    }
    CachedCountsAddUp(t, now);
    CachedCountsAddUp(t', now);
    forall since | since >= now - age
      ensures SameCounts(t, t', since)
    {
      CoveredWindow(t, age, now, since);
    }
  }
}
