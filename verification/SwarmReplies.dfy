/**
 What the reply to an announce or a stop tells when other requests and cleanups run in between: its
 counts are those of the swarm at one moment, its peer list that of another, and both moments come
 after the request's own update.
*/
module SwarmReplies {
  import opened Options
  import opened Text
  import opened Records
  import opened SwarmTables
  import opened SwarmQueries
  import opened SwarmRefinement
  import opened SwarmProtocol
  import opened SwarmTotals
  import opened PeerSelection

  // The states a run goes through

  ghost function StateAt(w: World, steps: seq<Step>, k: nat): World
    requires CanRun(w, steps) && k <= |steps|
    decreases k
  {
    if k == 0 then w else StateAt(Apply(w, steps[0]), steps[1..], k - 1)
  }

  lemma {:induction false} StepAt(w: World, steps: seq<Step>, k: nat)
    requires CanRun(w, steps) && k < |steps|
    ensures Enabled(StateAt(w, steps, k), steps[k])
    ensures StateAt(w, steps, k + 1) == Apply(StateAt(w, steps, k), steps[k])
    decreases k
  {
    if k > 0 {
      StepAt(Apply(w, steps[0]), steps[1..], k - 1);
    }
  }

  lemma {:induction false} LastState(w: World, steps: seq<Step>)
    requires CanRun(w, steps)
    ensures StateAt(w, steps, |steps|) == Run(w, steps)
    decreases |steps|
  {
    if steps != [] {
      LastState(Apply(w, steps[0]), steps[1..]);
    }
  }

  lemma {:induction false} SoundAt(w: World, steps: seq<Step>, k: nat)
    requires Sound(w) && CanRun(w, steps) && k <= |steps|
    ensures Sound(StateAt(w, steps, k))
    decreases k
  {
    if k > 0 {
      StepRefines(w, steps[0]);
      SoundAt(Apply(w, steps[0]), steps[1..], k - 1);
    }
  }

  // The cached counts are those of the last refresh, in every state

  ghost predicate CachedAt(w: World, id: nat) {
    id in w.tables.torrents ==>
      var row := w.tables.torrents[id];
      && row.hash in w.refreshed
      && row.complete == |w.refreshed[row.hash].seeders|
      && row.incomplete == |w.refreshed[row.hash].leechers|
  }

  ghost predicate Cached(w: World) {
    forall id :: CachedAt(w, id)
  }

  /** The row and the snapshot of its hash are as before. */
  lemma CachedSame(w: World, w': World, id: nat)
    requires CachedAt(w, id)
    requires id in w'.tables.torrents ==>
      && id in w.tables.torrents
      && var h := w.tables.torrents[id].hash;
      && w'.tables.torrents[id].hash == h
      && w'.tables.torrents[id].complete == w.tables.torrents[id].complete
      && w'.tables.torrents[id].incomplete == w.tables.torrents[id].incomplete
      && (h in w.refreshed ==> h in w'.refreshed && w'.refreshed[h] == w.refreshed[h])
    ensures CachedAt(w', id)
  {
  }

  lemma CachedChecked(w: World, i: nat, now: int, id: nat)
    requires Sound(w) && CachedAt(w, id) && i < |w.requests|
    ensures CachedAt(CheckedStep(w, i, now), id)
  {
    var w' := CheckedStep(w, i, now);
    var h := w.requests[i].peer.infoHash;
    if id in w.tables.torrents {
      assert IsTorrent(w.tables, id, w.tables.torrents[id].hash);
      assert w.tables.torrents[id].hash == h ==> Known(w.tables, h);
      CachedSame(w, w', id);
    }
  }

  lemma CachedWrite(w: World, i: nat, now: int, id: nat)
    requires Sound(w) && CachedAt(w, id) && i < |w.requests| && w.requests[i].pc.IdKnown?
    ensures CachedAt(WriteStep(w, i, w.requests[i].pc.torrentId, now), id)
  {
    assert RequestOk(w.tables, w.requests[i]);
    UpsertPeerKeeps(w.tables, w.requests[i].pc.torrentId, w.requests[i].peer, now);
    CachedSame(w, WriteStep(w, i, w.requests[i].pc.torrentId, now), id);
  }

  lemma CachedRefresh(w: World, i: nat, now: int, id: nat)
    requires CachedAt(w, id) && i < |w.requests|
    ensures CachedAt(RefreshStep(w, i, now), id)
  {
    if id in w.tables.torrents && w.tables.torrents[id].hash != w.requests[i].peer.infoHash {
      CachedSame(w, RefreshStep(w, i, now), id);
    }
  }

  lemma CachedStep(w: World, step: Step, id: nat)
    requires Sound(w) && CachedAt(w, id) && Enabled(w, step)
    ensures CachedAt(Apply(w, step), id)
  {
    match step
    case Arrive(_, _) => CachedSame(w, Apply(w, step), id);
    case List(_, _) => CachedSame(w, Apply(w, step), id);
    case Count(_) => CachedSame(w, Apply(w, step), id);
    case Sweep(_, _) => CachedSame(w, Apply(w, step), id);
    case Advance(i, now) =>
      match w.requests[i].pc {
        case Arrived => CachedSame(w, ArrivedStep(w, i), id);
        case Checked => CachedChecked(w, i, now, id);
        case TorrentReady => CachedSame(w, SelectStep(w, i), id);
        case IdKnown(_) => CachedWrite(w, i, now, id);
        case Written => CachedRefresh(w, i, now, id);
      }
  }

  lemma {:induction false} CacheAt(w: World, steps: seq<Step>, k: nat)
    requires Sound(w) && Cached(w) && CanRun(w, steps) && k <= |steps|
    ensures Cached(StateAt(w, steps, k))
    decreases k
  {
    if k > 0 {
      StepRefines(w, steps[0]);
      forall id: nat
        ensures CachedAt(Apply(w, steps[0]), id)
      {
        assert CachedAt(w, id);
        CachedStep(w, steps[0], id);
      }
      CacheAt(Apply(w, steps[0]), steps[1..], k - 1);
    }
  }

  // When the snapshot of a hash was taken

  /** The snapshot is that of `w`, at the time of the statement that `step` runs. */
  ghost predicate TakenBy(w: World, step: Step, hash: bytes, snap: Snapshot) {
    step.Advance? && snap == SnapshotOf(w.tables, hash, step.now)
  }

  /** A step leaves the snapshot of a hash alone or takes a new one of the tables it finds. */
  lemma SnapshotStep(w: World, step: Step, hash: bytes)
    requires Sound(w) && Enabled(w, step) && hash in w.refreshed
    ensures hash in Apply(w, step).refreshed
    ensures
      || Apply(w, step).refreshed[hash] == w.refreshed[hash]
      || TakenBy(w, step, hash, Apply(w, step).refreshed[hash])
  {
    if step.Advance? && w.requests[step.i].pc == Checked && !Known(w.tables, hash) {
      UnknownHasNoPeer(w.tables, hash, []);
      assert Seeders(w.tables, hash, step.now - WINDOW) == {};
      assert Leechers(w.tables, hash, step.now - WINDOW) == {};
    }
  }

  /** From a refresh of the hash on, its snapshot is that of a moment no earlier than this refresh. */
  lemma {:induction false} SnapshotSince(steps: seq<Step>, from: nat, n: nat, hash: bytes) returns (moment: nat)
    requires CanRun(START, steps) && from < n <= |steps|
    requires
      var w := StateAt(START, steps, from);
      && steps[from].Advance? && steps[from].i < |w.requests| && w.requests[steps[from].i].pc == Written
      && w.requests[steps[from].i].peer.infoHash == hash
    ensures from <= moment < n
    ensures
      && hash in StateAt(START, steps, n).refreshed
      && TakenBy(StateAt(START, steps, moment), steps[moment], hash, StateAt(START, steps, n).refreshed[hash])
    decreases n
  {
    StartIsSound();
    SoundAt(START, steps, n - 1);
    StepAt(START, steps, n - 1);
    if n == from + 1 {
      moment := from;
    } else {
      moment := SnapshotSince(steps, from, n - 1, hash);
      var w, w' := StateAt(START, steps, n - 1), StateAt(START, steps, n);
      SnapshotStep(w, steps[n - 1], hash);
      if w'.refreshed[hash] != w.refreshed[hash] {
        moment := n - 1;
      }
    }
  }

  // The way of a request

  predicate IsOf(step: Step, i: nat) {
    (step.Advance? || step.List? || step.Count?) && step.i == i
  }

  /** A request only moves by its own steps, and is always about the same announce. */
  lemma OthersKeep(w: World, step: Step, i: nat)
    requires Enabled(w, step) && i < |Apply(w, step).requests|
    ensures i < |w.requests| && !IsOf(step, i) ==> Apply(w, step).requests[i] == w.requests[i]
    ensures i < |w.requests| ==>
      && Apply(w, step).requests[i].peer == w.requests[i].peer
      && Apply(w, step).requests[i].wanted == w.requests[i].wanted
    ensures i >= |w.requests| ==> Apply(w, step).requests[i].pc == Arrived
  {
  }

  /** The statement of request `i` that changes who is in the swarm. */
  ghost predicate Updates(w: World, step: Step, i: nat) {
    && step.Advance? && step.i == i < |w.requests|
    && var r := w.requests[i];
    || (r.pc == Arrived && r.peer.event == "stopped" && IsId(r.peer.infoHash) && IsId(r.peer.peerId))
    || (r.pc.IdKnown? && Storable(r.peer))
  }

  ghost predicate Refreshes(w: World, step: Step, i: nat) {
    step.Advance? && step.i == i < |w.requests| && w.requests[i].pc == Written
  }

  predicate InReply(pc: Pc) {
    pc == Listing || pc.Counting? || pc.Replied?
  }

  predicate HasIds(r: Request) {
    IsId(r.peer.infoHash) && IsId(r.peer.peerId)
  }

  /** How a request with valid ids comes to wait for its refresh or for its reply. */
  lemma OwnStep(w: World, step: Step, i: nat)
    requires Enabled(w, step) && i < |Apply(w, step).requests|
    requires HasIds(Apply(w, step).requests[i])
    ensures
      var pc := Apply(w, step).requests[i].pc;
      && (pc == Written ==>
           || Updates(w, step, i)
           || (i < |w.requests| && w.requests[i].pc == Written))
      && (InReply(pc) ==>
           || Refreshes(w, step, i)
           || (i < |w.requests| && InReply(w.requests[i].pc)))
  {
    OthersKeep(w, step, i);
  }

  /** A request that waits for its refresh has made its update. */
  lemma {:induction false} HasUpdated(steps: seq<Step>, n: nat, i: nat) returns (update: nat)
    requires CanRun(START, steps) && n <= |steps| && i < |StateAt(START, steps, n).requests|
    requires StateAt(START, steps, n).requests[i].pc == Written && HasIds(StateAt(START, steps, n).requests[i])
    ensures update < n && Updates(StateAt(START, steps, update), steps[update], i)
    decreases n
  {
    var w := StateAt(START, steps, n - 1);
    StepAt(START, steps, n - 1);
    OwnStep(w, steps[n - 1], i);
    OthersKeep(w, steps[n - 1], i);
    if Updates(w, steps[n - 1], i) {
      update := n - 1;
    } else {
      update := HasUpdated(steps, n - 1, i);
    }
  }

  /** A request that waits for its reply has made its update and then refreshed the counts of its torrent. */
  lemma {:induction false} HasRefreshed(steps: seq<Step>, n: nat, i: nat) returns (update: nat, refresh: nat)
    requires CanRun(START, steps) && n <= |steps| && i < |StateAt(START, steps, n).requests|
    requires InReply(StateAt(START, steps, n).requests[i].pc) && HasIds(StateAt(START, steps, n).requests[i])
    ensures update < refresh < n
    ensures Updates(StateAt(START, steps, update), steps[update], i)
    ensures Refreshes(StateAt(START, steps, refresh), steps[refresh], i)
    ensures StateAt(START, steps, refresh).requests[i].peer == StateAt(START, steps, n).requests[i].peer
    decreases n
  {
    var w := StateAt(START, steps, n - 1);
    StepAt(START, steps, n - 1);
    OwnStep(w, steps[n - 1], i);
    OthersKeep(w, steps[n - 1], i);
    if Refreshes(w, steps[n - 1], i) {
      refresh := n - 1;
      update := HasUpdated(steps, n - 1, i);
    } else {
      update, refresh := HasRefreshed(steps, n - 1, i);
    }
  }

  /** When and from which tables the list was read. */
  lemma {:induction false} HasListed(steps: seq<Step>, n: nat, i: nat) returns (list: nat)
    requires CanRun(START, steps) && n <= |steps| && i < |StateAt(START, steps, n).requests|
    requires StateAt(START, steps, n).requests[i].pc.Counting?
    ensures list < n && i < |StateAt(START, steps, list).requests|
    ensures
      var r := StateAt(START, steps, n).requests[i];
      && StateAt(START, steps, list).requests[i] == r.(pc := Listing)
      && steps[list] == List(i, r.pc.peers)
      && IsPeerList(StateAt(START, steps, list).tables, r.peer.infoHash, r.peer.peerId, r.wanted, r.pc.peers)
    decreases n
  {
    var w := StateAt(START, steps, n - 1);
    StepAt(START, steps, n - 1);
    OthersKeep(w, steps[n - 1], i);
    if IsOf(steps[n - 1], i) {
      list := n - 1;
    } else {
      list := HasListed(steps, n - 1, i);
    }
  }

  /** And the counts. */
  lemma {:induction false} HasCounted(steps: seq<Step>, n: nat, i: nat) returns (count: nat)
    requires CanRun(START, steps) && n <= |steps| && i < |StateAt(START, steps, n).requests|
    requires StateAt(START, steps, n).requests[i].pc.Replied?
    ensures count < n && i < |StateAt(START, steps, count).requests|
    ensures
      var r := StateAt(START, steps, n).requests[i];
      && StateAt(START, steps, count).requests[i] == r.(pc := Counting(r.pc.listed))
      && steps[count] == Count(i)
      && r.pc.stats == StatsOf(StateAt(START, steps, count).tables, r.peer.infoHash)
    decreases n
  {
    var w := StateAt(START, steps, n - 1);
    StepAt(START, steps, n - 1);
    OthersKeep(w, steps[n - 1], i);
    if IsOf(steps[n - 1], i) {
      count := n - 1;
    } else {
      count := HasCounted(steps, n - 1, i);
    }
  }

  // Torrents stay known

  lemma {:induction false} StillUnknown(w: World, steps: seq<Step>, k: nat, n: nat, hash: bytes)
    requires Sound(w) && CanRun(w, steps) && k <= n <= |steps|
    requires !Known(StateAt(w, steps, n).tables, hash)
    ensures !Known(StateAt(w, steps, k).tables, hash)
    decreases n - k
  {
    if k < n {
      StillUnknown(w, steps, k + 1, n, hash);
      SoundAt(w, steps, k);
      StepAt(w, steps, k);
      if Known(StateAt(w, steps, k).tables, hash) {
        KnownStays(StateAt(w, steps, k), steps[k], hash);
      }
    }
  }

  lemma KnownStays(w: World, step: Step, hash: bytes)
    requires Sound(w) && Enabled(w, step) && Known(w.tables, hash)
    ensures Known(Apply(w, step).tables, hash)
  {
    StepRefines(w, step);
    ViewKnows(w.tables, hash);
    ViewKnows(Apply(w, step).tables, hash);
  }

  // Main result

  /** The counts of a torrent's rows at a moment of a run, in the window of a time. */
  ghost predicate CountsAt(t: Tables, hash: bytes, time: int, stats: Stats) {
    && stats.complete == |set k | k in t.peers && t.peers[k].hash == hash && t.peers[k].fields.left == 0
                                    && t.peers[k].lastSeen > time - 7200|
    && stats.incomplete == |set k | k in t.peers && t.peers[k].hash == hash && t.peers[k].fields.left > 0
                                      && t.peers[k].lastSeen > time - 7200|
  }

  lemma CountsAtIs(t: Tables, hash: bytes, time: int, stats: Stats)
    ensures CountsAt(t, hash, time, stats) <==>
      && stats.complete == |Seeders(t, hash, time - WINDOW)|
      && stats.incomplete == |Leechers(t, hash, time - WINDOW)|
  {
    assert Seeders(t, hash, time - WINDOW) ==
      set k | k in t.peers && t.peers[k].hash == hash && t.peers[k].fields.left == 0
                && t.peers[k].lastSeen > time - 7200;
    assert Leechers(t, hash, time - WINDOW) ==
      set k | k in t.peers && t.peers[k].hash == hash && t.peers[k].fields.left > 0
                && t.peers[k].lastSeen > time - 7200;
  }

  /** The step counts a download of the hash: a completed announce of it comes in while the torrent has a row. */
  ghost predicate CountsUp(w: World, step: Step, hash: bytes) {
    && step.Advance? && step.i < |w.requests| && w.requests[step.i].pc == Arrived
    && var peer := w.requests[step.i].peer;
    && peer.event == "completed" && peer.infoHash == hash && IsId(hash) && peer.peerId != []
    && exists id :: id in w.tables.torrents && w.tables.torrents[id].hash == hash
  }

  lemma CountsUpIs(w: World, step: Step, hash: bytes)
    ensures CountsUp(w, step, hash) <==> Counts(w, step) == Some(hash)
  {
    if id :| IsTorrent(w.tables, id, hash) {
      assert id in w.tables.torrents && w.tables.torrents[id].hash == hash;
    } else {
      assert forall id :: id in w.tables.torrents ==> !IsTorrent(w.tables, id, hash);
    }
  }

  /** Which of the first `n` steps count a download of the hash. */
  ghost function CountingSteps(steps: seq<Step>, n: nat, hash: bytes): set<nat>
    requires CanRun(START, steps) && n <= |steps|
  {
    set k: nat | k < n && CountsUp(StateAt(START, steps, k), steps[k], hash)
  }

  lemma MoreCounting(steps: seq<Step>, n: nat, hash: bytes)
    requires CanRun(START, steps) && n < |steps|
    ensures |CountingSteps(steps, n + 1, hash)| ==
      |CountingSteps(steps, n, hash)| + if CountsUp(StateAt(START, steps, n), steps[n], hash) then 1 else 0
  {
    var last := if CountsUp(StateAt(START, steps, n), steps[n], hash) then {n} else {};
    assert CountingSteps(steps, n + 1, hash) == CountingSteps(steps, n, hash) + last;
  }

  lemma DownloadsStep(w: World, step: Step, hash: bytes)
    requires Sound(w) && Enabled(w, step)
    ensures DownloadedOf(Apply(w, step).tables, hash) ==
      DownloadedOf(w.tables, hash) + if CountsUp(w, step, hash) then 1 else 0
  {
    DownloadedStep(w, step, hash);
    CountsUpIs(w, step, hash);
  }

  lemma NoDownloadsYet(hash: bytes)
    ensures DownloadedOf(EMPTY, hash) == 0
  {
    assert forall id :: !IsTorrent(EMPTY, id, hash);
  }

  /** From empty tables, a torrent's counter is the number of downloads counted so far. */
  lemma {:induction false} DownloadsAt(steps: seq<Step>, n: nat, hash: bytes)
    requires CanRun(START, steps) && n <= |steps|
    ensures DownloadedOf(StateAt(START, steps, n).tables, hash) == |CountingSteps(steps, n, hash)|
    decreases n
  {
    if n == 0 {
      NoDownloadsYet(hash);
      assert CountingSteps(steps, n, hash) == {};
    } else {
      DownloadsAt(steps, n - 1, hash);
      StartIsSound();
      SoundAt(START, steps, n - 1);
      StepAt(START, steps, n - 1);
      DownloadsStep(StateAt(START, steps, n - 1), steps[n - 1], hash);
      MoreCounting(steps, n - 1, hash);
    }
  }

  lemma StatsAreSnapshot(w: World, hash: bytes)
    requires Sound(w) && Cached(w) && IsId(hash) && Known(w.tables, hash)
    ensures hash in w.refreshed
    ensures StatsOf(w.tables, hash).complete == |w.refreshed[hash].seeders|
    ensures StatsOf(w.tables, hash).incomplete == |w.refreshed[hash].leechers|
  {
    SelectedIsTorrent(w.tables, hash);
    assert CachedAt(w, SelectId(w.tables, hash).value);
  }

  lemma CountedMoment(steps: seq<Step>, refresh: nat, count: nat, i: nat) returns (moment: nat)
    requires CanRun(START, steps) && refresh < count < |steps|
    requires Refreshes(StateAt(START, steps, refresh), steps[refresh], i)
    requires i < |StateAt(START, steps, refresh).requests| && HasIds(StateAt(START, steps, refresh).requests[i])
    ensures refresh <= moment < count && steps[moment].Advance?
    ensures
      var hash := StateAt(START, steps, refresh).requests[i].peer.infoHash;
      var stats := StatsOf(StateAt(START, steps, count).tables, hash);
      CountsAt(StateAt(START, steps, moment).tables, hash, steps[moment].now, stats)
  {
    var hash := StateAt(START, steps, refresh).requests[i].peer.infoHash;
    var w := StateAt(START, steps, count);
    StartIsSound();
    SoundAt(START, steps, count);
    CacheAt(START, steps, count);
    moment := SnapshotSince(steps, refresh, count, hash);
    CountsAtIs(StateAt(START, steps, moment).tables, hash, steps[moment].now, StatsOf(w.tables, hash));
    if Known(w.tables, hash) {
      StatsAreSnapshot(w, hash);
    } else {
      SoundAt(START, steps, moment);
      StillUnknown(START, steps, moment, count, hash);
      UnknownHasNoPeer(StateAt(START, steps, moment).tables, hash, []);
      assert Seeders(StateAt(START, steps, moment).tables, hash, steps[moment].now - WINDOW) == {};
      assert Leechers(StateAt(START, steps, moment).tables, hash, steps[moment].now - WINDOW) == {};
    }
  }

  /** What a run tells about the reply of request `i`: where it made its update, read its list and its counts. */
  ghost predicate Explains(steps: seq<Step>, i: nat, update: nat, moment: nat, list: nat, count: nat)
    requires CanRun(START, steps)
  {
    && update < moment < count < |steps| && update < list < count
    && Updates(StateAt(START, steps, update), steps[update], i)
    && i < |Run(START, steps).requests|
    && var r := Run(START, steps).requests[i];
    && r.pc.Replied?
    && steps[list] == List(i, r.pc.listed) && steps[count] == Count(i)
    && IsPeerList(StateAt(START, steps, list).tables, r.peer.infoHash, r.peer.peerId, r.wanted, r.pc.listed)
    && steps[moment].Advance?
    && CountsAt(StateAt(START, steps, moment).tables, r.peer.infoHash, steps[moment].now, r.pc.stats)
    && r.pc.stats.downloaded == |CountingSteps(steps, count, r.peer.infoHash)|
  }

  /**
   In every interleaving of announces, stops and cleanups, the reply to a request with valid ids is
   true of the swarm at moments after the request's own update and before its answer: the counts
   are exactly those of one such moment, in the window of its time, the downloads are those counted
   before the reply's last query, and the peer list is a right answer for another moment. That
   holds though counts are cached, updates of others are half done, and cleanups do not refresh.
  */
  lemma RepliesAreOfTheirTime(steps: seq<Step>, i: nat)
    returns (update: nat, moment: nat, list: nat, count: nat)
    requires CanRun(START, steps) && i < |Run(START, steps).requests|
    requires Run(START, steps).requests[i].pc.Replied? && HasIds(Run(START, steps).requests[i])
    ensures Explains(steps, i, update, moment, list, count)
  {
    LastState(START, steps);
    count := HasCounted(steps, |steps|, i);
    list := HasListed(steps, count, i);
    var refresh;
    update, refresh := HasRefreshed(steps, list, i);
    moment := CountedMoment(steps, refresh, count, i);
    DownloadsAt(steps, count, Run(START, steps).requests[i].peer.infoHash);
  }

  lemma ConsistentAt(steps: seq<Step>, k: nat)
    requires CanRun(START, steps) && k <= |steps|
    ensures Consistent(StateAt(START, steps, k).tables)
  {
    StartIsSound();
    SoundAt(START, steps, k);
  }

  /** The counts are those of distinct peers of the swarm. */
  ghost predicate CountsPeers(s: Swarm, hash: bytes, since: int, stats: Stats) {
    if hash in s then
      && stats.complete == |SwarmSeeders(s, hash, since)|
      && stats.incomplete == |SwarmLeechers(s, hash, since)|
    else
      stats.complete == 0 && stats.incomplete == 0
  }

  /** No stranger is listed, and never the requester. */
  ghost predicate ListsOthers(t: Tables, hash: bytes, exclude: bytes, peers: seq<PeerInfo>) {
    !Lists(peers, exclude) && forall k :: 0 <= k < |peers| ==> InSwarm(t, hash, peers[k])
  }

  lemma CountsMeanSwarm(t: Tables, hash: bytes, time: int, stats: Stats)
    requires Consistent(t) && CountsAt(t, hash, time, stats)
    ensures CountsPeers(View(t), hash, time - 7200, stats)
  {
    CountsAtIs(t, hash, time, stats);
    ViewKnows(t, hash);
    if hash in View(t) {
      RowsArePeers(t, hash, time - WINDOW);
    } else {
      UnknownHasNoPeer(t, hash, []);
      assert Seeders(t, hash, time - WINDOW) == {};
      assert Leechers(t, hash, time - WINDOW) == {};
    }
  }

  lemma ListMeansSwarm(t: Tables, hash: bytes, exclude: bytes, limit: int, peers: seq<PeerInfo>)
    requires Consistent(t) && IsId(hash) && IsPeerList(t, hash, exclude, limit, peers)
    ensures ListsOthers(t, hash, exclude, peers)
  {
    PeerListMeans(t, hash, exclude, limit, peers);
  }

  lemma CountsMeanAt(steps: seq<Step>, k: nat, hash: bytes, time: int, stats: Stats)
    requires CanRun(START, steps) && k <= |steps| && CountsAt(StateAt(START, steps, k).tables, hash, time, stats)
    ensures CountsPeers(View(StateAt(START, steps, k).tables), hash, time - 7200, stats)
  {
    ConsistentAt(steps, k);
    CountsMeanSwarm(StateAt(START, steps, k).tables, hash, time, stats);
  }

  /** What the counts and the list of such a reply are on the swarm. */
  lemma RepliesMeanSwarm(steps: seq<Step>, i: nat, update: nat, moment: nat, list: nat, count: nat)
    requires CanRun(START, steps) && Explains(steps, i, update, moment, list, count)
    requires HasIds(Run(START, steps).requests[i])
    ensures
      var r := Run(START, steps).requests[i];
      && CountsPeers(View(StateAt(START, steps, moment).tables), r.peer.infoHash, steps[moment].now - 7200, r.pc.stats)
      && ListsOthers(StateAt(START, steps, list).tables, r.peer.infoHash, r.peer.peerId, r.pc.listed)
  {
    var r := Run(START, steps).requests[i];
    ConsistentAt(steps, list);
    ListMeansSwarm(StateAt(START, steps, list).tables, r.peer.infoHash, r.peer.peerId, r.wanted, r.pc.listed);
    CountsMeanAt(steps, moment, r.peer.infoHash, steps[moment].now, r.pc.stats);
  }
}
