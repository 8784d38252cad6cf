/**
 What the statements do to the two tables: conditions, counts and assignments by column name, and
 that each statement the database manager sends is the step on the tables that it is taken for.
*/
module SqlExecution {
  import opened Options
  import opened Text
  import opened Records
  import opened SqlSyntax
  import opened SwarmTables
  import opened SwarmQueries

  // Columns

  datatype Cell = Str(text: bytes) | Int(n: int)

  function PeerCell(row: PeerRow, column: bytes): Option<Cell> {
    if column == "peer_id" then Some(Str(row.peerId))
    else if column == "torrent_id" then Some(Int(row.torrentId))
    else if column == "info_hash" then Some(Str(row.hash))
    else if column == "ip" then Some(Str(row.fields.ip))
    else if column == "port" then Some(Int(row.fields.port))
    else if column == "uploaded" then Some(Int(row.fields.uploaded))
    else if column == "downloaded" then Some(Int(row.fields.downloaded))
    else if column == "left_to_download" then Some(Int(row.fields.left))
    else if column == "event" then Some(Str(row.fields.event))
    else if column == "last_seen" then Some(Int(row.lastSeen))
    else None
  }

  function TorrentCell(row: TorrentRow, column: bytes): Option<Cell> {
    if column == "info_hash" then Some(Str(row.hash))
    else if column == "complete" then Some(Int(row.complete))
    else if column == "incomplete" then Some(Int(row.incomplete))
    else if column == "downloaded" then Some(Int(row.downloaded))
    else None
  }

  /** The row with one column changed; a cell of the wrong type, or of another column, changes nothing. */
  function SetPeer(row: PeerRow, column: bytes, cell: Cell): PeerRow {
    match cell
    case Str(s) =>
      if column == "ip" then row.(fields := row.fields.(ip := s))
      else if column == "event" then row.(fields := row.fields.(event := s))
      else row
    case Int(n) =>
      if column == "port" then row.(fields := row.fields.(port := n))
      else if column == "uploaded" then row.(fields := row.fields.(uploaded := n))
      else if column == "downloaded" then row.(fields := row.fields.(downloaded := n))
      else if column == "left_to_download" then row.(fields := row.fields.(left := n))
      else if column == "last_seen" then row.(lastSeen := n)
      else row
  }

  function SetTorrent(row: TorrentRow, column: bytes, n: int): TorrentRow {
    if n < 0 then row
    else if column == "complete" then row.(complete := n)
    else if column == "incomplete" then row.(incomplete := n)
    else if column == "downloaded" then row.(downloaded := n)
    else row
  }

  // Conditions

  function Eval(term: Term, now: int): Cell {
    match term
    case Quoted(value) => Str(value)
    case Number(n) => Int(n)
    case Now => Int(now)
    case Ago(seconds) => Int(now - seconds)
  }

  predicate Related(rel: Rel, a: Cell, b: Cell) {
    match rel
    case Equal => a == b
    case Unequal => a != b
    case Above => a.Int? && b.Int? && a.n > b.n
    case Below => a.Int? && b.Int? && a.n < b.n
  }

  predicate Holds(cell: Option<Cell>, cond: Cond, now: int) {
    cell.Some? && Related(cond.rel, cell.value, Eval(cond.term, now))
  }

  predicate PeerMatches(row: PeerRow, where: seq<Cond>, now: int) {
    forall i :: 0 <= i < |where| ==> Holds(PeerCell(row, where[i].column), where[i], now)
  }

  predicate TorrentMatches(row: TorrentRow, where: seq<Cond>, now: int) {
    forall i :: 0 <= i < |where| ==> Holds(TorrentCell(row, where[i].column), where[i], now)
  }

  function PeersWhere(t: Tables, where: seq<Cond>, now: int): set<nat> {
    set id | id in t.peers && PeerMatches(t.peers[id], where, now)
  }

  // Statements

  function AmountOf(t: Tables, row: TorrentRow, amount: Amount, now: int): Option<int> {
    match amount
    case CountOf(table, where) => if table == "peers" then Some(|PeersWhere(t, where, now)|) else None
    case Plus(column, n) =>
      (match TorrentCell(row, column)
       case Some(Int(m)) => Some(m + n)
       case _ => None)
    case Plain(term) =>
      match Eval(term, now)
      case Int(n) => Some(n)
      case Str(_) => None
  }

  /** The assignments one after the other, each counting in the tables as they were. */
  function SetTorrents(t: Tables, row: TorrentRow, updates: seq<Assign>, now: int): TorrentRow
    decreases |updates|
  {
    if updates == [] then row
    else
      var row' := match AmountOf(t, row, updates[0].amount, now)
        case Some(n) => SetTorrent(row, updates[0].column, n)
        case None => row;
      SetTorrents(t, row', updates[1..], now)
  }

  function SetPeers(row: PeerRow, updates: seq<Assign>, now: int): PeerRow
    decreases |updates|
  {
    if updates == [] then row
    else
      var row' := match updates[0].amount
        case Plain(term) => SetPeer(row, updates[0].column, Eval(term, now))
        case _ => row;
      SetPeers(row', updates[1..], now)
  }

  /** The value that an INSERT gives a column. */
  function Given(columns: seq<bytes>, terms: seq<Term>, column: bytes, now: int): Option<Cell>
    decreases |columns|
  {
    if columns == [] || terms == [] then None
    else if columns[0] == column then Some(Eval(terms[0], now))
    else Given(columns[1..], terms[1..], column, now)
  }

  function TextIn(cell: Option<Cell>): Option<bytes> {
    match cell
    case Some(Str(s)) => Some(s)
    case _ => None
  }

  function IntOr(cell: Option<Cell>, default: int): int {
    match cell
    case Some(Int(n)) => n
    case _ => default
  }

  /** The row an INSERT describes, with the columns' defaults; nothing without a column that has none. */
  function NewPeer(columns: seq<bytes>, terms: seq<Term>, now: int): Option<PeerRow> {
    var cell := (column: bytes) => Given(columns, terms, column, now);
    var torrentId := IntOr(cell("torrent_id"), -1);
    var event := match TextIn(cell("event")) case Some(s) => s case None => [];
    match (TextIn(cell("peer_id")), TextIn(cell("info_hash")), TextIn(cell("ip")), cell("port"))
    case (Some(peerId), Some(hash), Some(ip), Some(Int(port))) =>
      if torrentId < 0 then None
      else
        Some(PeerRow(peerId, torrentId, hash,
                     Fields(ip, port, IntOr(cell("uploaded"), 0), IntOr(cell("downloaded"), 0),
                            IntOr(cell("left_to_download"), 0), event),
                     IntOr(cell("last_seen"), now)))
    case _ => None
  }

  ghost function InsertTorrent(t: Tables, hash: bytes, updates: seq<Assign>, now: int): Tables {
    var torrents := if Known(t, hash) then
        map id | id in t.torrents ::
          if t.torrents[id].hash == hash then SetTorrents(t, t.torrents[id], updates, now) else t.torrents[id]
      else t.torrents[t.nextTorrent := TorrentRow(hash, 0, 0, 0)];
    t.(torrents := torrents, nextTorrent := t.nextTorrent + 1)
  }

  /** A row with the same torrent and peer id is updated instead. */
  ghost function InsertPeer(t: Tables, row: PeerRow, updates: seq<Assign>, now: int): Tables {
    var peers := if HasKey(t, row.torrentId, row.peerId) then
        var id: nat :| IsKey(t, id, row.torrentId, row.peerId);
        t.peers[id := SetPeers(t.peers[id], updates, now)]
      else t.peers[t.nextPeer := row];
    t.(peers := peers, nextPeer := t.nextPeer + 1)
  }

  function Remaining(t: Tables, where: seq<Cond>, now: int): map<nat, PeerRow> {
    map id | id in t.peers && !PeerMatches(t.peers[id], where, now) :: t.peers[id]
  }

  function Changed(t: Tables, updates: seq<Assign>, where: seq<Cond>, now: int): map<nat, TorrentRow> {
    map id | id in t.torrents ::
      if TorrentMatches(t.torrents[id], where, now) then SetTorrents(t, t.torrents[id], updates, now)
      else t.torrents[id]
  }

  /** The tables after a statement that the server carries out at `now`; none if it refuses it. */
  ghost function Execute(t: Tables, st: Statement, now: int): Option<Tables> {
    match st
    case Delete(table, where) =>
      if table != "peers" then None else Some(t.(peers := Remaining(t, where, now)))
    case Update(table, updates, where) =>
      if table != "torrents" then None
      else Some(t.(torrents := Changed(t, updates, where, now)))
    case Insert(table, columns, terms, updates) =>
      if table == "torrents" then
        match TextIn(Given(columns, terms, "info_hash", now))
        case Some(hash) => Some(InsertTorrent(t, hash, updates, now))
        case None => None
      else if table == "peers" then
        match NewPeer(columns, terms, now)
        case Some(row) => if row.torrentId in t.torrents then Some(InsertPeer(t, row, updates, now)) else None
        case None => None
      else None
    case Select(_, _, _, _, _) => Some(t)
  }

  // The statements are the steps they are taken for

  lemma Columns()
    ensures "info_hash" != "last_seen" && "torrent_id" != "downloaded" && "complete" != "uploaded"
    ensures "incomplete" != "downloaded" && "incomplete" != "torrent_id" && "peers" != "event"
    ensures "torrents" != "peers"
  {
    assert "info_hash"[0] != "last_seen"[0] && "torrent_id"[0] != "downloaded"[0] && "complete"[0] != "uploaded"[0];
    assert "incomplete"[0] != "downloaded"[0] && "incomplete"[0] != "torrent_id"[0] && "peers"[0] != "event"[0];
  }

  lemma TwoOf(row: PeerRow, a: Cond, b: Cond, now: int)
    ensures PeerMatches(row, [a, b], now) <==>
      Holds(PeerCell(row, a.column), a, now) && Holds(PeerCell(row, b.column), b, now)
  {
    var where := [a, b];
    assert where[0] == a && where[1] == b;
  }

  lemma ThreeOf(row: PeerRow, a: Cond, b: Cond, c: Cond, now: int)
    ensures PeerMatches(row, [a, b, c], now) <==>
      && Holds(PeerCell(row, a.column), a, now) && Holds(PeerCell(row, b.column), b, now)
      && Holds(PeerCell(row, c.column), c, now)
  {
    var where := [a, b, c];
    assert where[0] == a && where[1] == b && where[2] == c;
  }

  /** DELETE FROM peers WHERE peer_id=... AND info_hash=... */
  lemma DeleteExecutes(t: Tables, peerId: bytes, hash: bytes, now: int)
    ensures
      var where := [Cond("peer_id", Equal, Quoted(peerId)), Cond("info_hash", Equal, Quoted(hash))];
      Execute(t, Delete("peers", where), now) == Some(DeletePeer(t, peerId, hash))
  {
    Columns();
    forall id | id in t.peers
      ensures PeerMatches(t.peers[id],
        [Cond("peer_id", Equal, Quoted(peerId)), Cond("info_hash", Equal, Quoted(hash))], now)
        <==> t.peers[id].peerId == peerId && t.peers[id].hash == hash
    {
      TwoOf(t.peers[id], Cond("peer_id", Equal, Quoted(peerId)), Cond("info_hash", Equal, Quoted(hash)), now);
    }
    assert Remaining(t, [Cond("peer_id", Equal, Quoted(peerId)), Cond("info_hash", Equal, Quoted(hash))], now) ==
      DeletePeer(t, peerId, hash).peers;
  }

  lemma ExpiryExecutes(t: Tables, seconds: int, now: int)
    requires seconds >= 60
    ensures Execute(t, Delete("peers", [Cond("last_seen", Below, Ago(seconds))]), now) == Some(Cleanup(t, seconds, now))
  {
    Columns();
    forall id | id in t.peers
      ensures PeerMatches(t.peers[id], [Cond("last_seen", Below, Ago(seconds))], now) <==>
        t.peers[id].lastSeen < now - seconds
    {
      var where := [Cond("last_seen", Below, Ago(seconds))];
      assert where[0] == Cond("last_seen", Below, Ago(seconds));
    }
    assert Remaining(t, [Cond("last_seen", Below, Ago(seconds))], now) == Cleanup(t, seconds, now).peers;
  }

  lemma RowsOf(t: Tables, hash: bytes, rel: Rel, now: int)
    requires rel == Equal || rel == Above
    ensures PeersWhere(t, [Cond("info_hash", Equal, Quoted(hash)), Cond("left_to_download", rel, Number(0)),
                           Cond("last_seen", Above, Ago(7200))], now) ==
      if rel == Equal then Seeders(t, hash, now - 7200) else Leechers(t, hash, now - 7200)
  {
    Columns();
    var a, b, c :=
      Cond("info_hash", Equal, Quoted(hash)), Cond("left_to_download", rel, Number(0)),
      Cond("last_seen", Above, Ago(7200));
    forall id | id in t.peers
      ensures PeerMatches(t.peers[id], [a, b, c], now) <==>
        && t.peers[id].hash == hash && t.peers[id].lastSeen > now - 7200
        && (if rel == Equal then t.peers[id].fields.left == 0 else t.peers[id].fields.left > 0)
    {
      ThreeOf(t.peers[id], a, b, c, now);
    }
  }

  lemma OfHash(row: TorrentRow, hash: bytes, now: int)
    ensures TorrentMatches(row, [Cond("info_hash", Equal, Quoted(hash))], now) <==> row.hash == hash
  {
    var where := [Cond("info_hash", Equal, Quoted(hash))];
    assert where[0] == Cond("info_hash", Equal, Quoted(hash));
  }

  lemma SetOne(t: Tables, row: TorrentRow, a: Assign, now: int)
    ensures SetTorrents(t, row, [a], now) ==
      match AmountOf(t, row, a.amount, now)
      case Some(n) => SetTorrent(row, a.column, n)
      case None => row
  {
    var row' := match AmountOf(t, row, a.amount, now)
      case Some(n) => SetTorrent(row, a.column, n)
      case None => row;
    assert [a][1..] == [] && SetTorrents(t, row', [], now) == row';
  }

  lemma SetBoth(t: Tables, row: TorrentRow, a: Assign, b: Assign, now: int, m: int, n: int)
    requires AmountOf(t, row, a.amount, now) == Some(m)
    requires AmountOf(t, SetTorrent(row, a.column, m), b.amount, now) == Some(n)
    ensures SetTorrents(t, row, [a, b], now) == SetTorrent(SetTorrent(row, a.column, m), b.column, n)
  {
    assert [a, b][1..] == [b];
    SetOne(t, SetTorrent(row, a.column, m), b, now);
  }

  /** UPDATE torrents SET complete = (...), incomplete = (...) WHERE info_hash=... */
  lemma RefreshExecutes(t: Tables, hash: bytes, now: int)
    ensures
      var ofTorrent, recent := Cond("info_hash", Equal, Quoted(hash)), Cond("last_seen", Above, Ago(7200));
      var complete := [ofTorrent, Cond("left_to_download", Equal, Number(0)), recent];
      var incomplete := [ofTorrent, Cond("left_to_download", Above, Number(0)), recent];
      var updates :=
        [Assign("complete", CountOf("peers", complete)), Assign("incomplete", CountOf("peers", incomplete))];
      Execute(t, Update("torrents", updates, [ofTorrent]), now) == Some(Refresh(t, hash, now))
  {
    Columns();
    RowsOf(t, hash, Equal, now);
    RowsOf(t, hash, Above, now);
    var ofTorrent, recent := Cond("info_hash", Equal, Quoted(hash)), Cond("last_seen", Above, Ago(7200));
    var a := Assign("complete", CountOf("peers", [ofTorrent, Cond("left_to_download", Equal, Number(0)), recent]));
    var b := Assign("incomplete", CountOf("peers", [ofTorrent, Cond("left_to_download", Above, Number(0)), recent]));
    var m, n := |Seeders(t, hash, now - 7200)|, |Leechers(t, hash, now - 7200)|;
    forall id | id in t.torrents
      ensures TorrentMatches(t.torrents[id], [ofTorrent], now) <==> t.torrents[id].hash == hash
      ensures SetTorrents(t, t.torrents[id], [a, b], now) == t.torrents[id].(complete := m, incomplete := n)
    {
      OfHash(t.torrents[id], hash, now);
      SetBoth(t, t.torrents[id], a, b, now, m, n);
    }
    assert Changed(t, [a, b], [ofTorrent], now) == Refresh(t, hash, now).torrents;
  }

  lemma OneMoreDownload(t: Tables, row: TorrentRow, now: int)
    ensures SetTorrents(t, row, [Assign("downloaded", Plus("downloaded", 1))], now) ==
      row.(downloaded := row.downloaded + 1)
  {
    Columns();
    SetOne(t, row, Assign("downloaded", Plus("downloaded", 1)), now);
  }

  /** UPDATE torrents SET downloaded = downloaded + 1 WHERE info_hash = ... */
  lemma CountExecutes(t: Tables, hash: bytes, now: int)
    ensures
      var updates := [Assign("downloaded", Plus("downloaded", 1))];
      Execute(t, Update("torrents", updates, [Cond("info_hash", Equal, Quoted(hash))]), now) == Some(Increment(t, hash))
  {
    hide SetTorrents, TorrentMatches;
    Columns();
    var updates, where := [Assign("downloaded", Plus("downloaded", 1))], [Cond("info_hash", Equal, Quoted(hash))];
    forall id | id in t.torrents
      ensures TorrentMatches(t.torrents[id], where, now) <==> t.torrents[id].hash == hash
      ensures SetTorrents(t, t.torrents[id], updates, now) ==
        t.torrents[id].(downloaded := t.torrents[id].downloaded + 1)
    {
      OfHash(t.torrents[id], hash, now);
      OneMoreDownload(t, t.torrents[id], now);
    }
    assert Changed(t, updates, where, now) == Increment(t, hash).torrents;
  }

  /** INSERT INTO torrents ... ON DUPLICATE KEY UPDATE updated_at=NOW() */
  lemma TorrentExecutes(t: Tables, hash: bytes, now: int)
    ensures Execute(t, Insert("torrents", ["info_hash"], [Quoted(hash)], [Assign("updated_at", Plain(Now))]), now) ==
      Some(UpsertTorrent(t, hash))
  {
    Columns();
    var a := Assign("updated_at", Plain(Now));
    assert Given(["info_hash"], [Quoted(hash)], "info_hash", now) == Some(Str(hash));
    forall id | id in t.torrents
      ensures SetTorrents(t, t.torrents[id], [a], now) == t.torrents[id]
    {
      SetOne(t, t.torrents[id], a, now);
    }
    assert Known(t, hash) ==> InsertTorrent(t, hash, [a], now).torrents == t.torrents;
  }

  lemma {:induction false} GivenAt(columns: seq<bytes>, terms: seq<Term>, k: nat, now: int)
    requires k < |columns| == |terms| && forall i :: 0 <= i < k ==> columns[i] != columns[k]
    ensures Given(columns, terms, columns[k], now) == Some(Eval(terms[k], now))
  {
    if k > 0 {
      assert columns[0] != columns[k];
      GivenAt(columns[1..], terms[1..], k - 1, now);
    }
  }

  lemma {:induction false} NotGiven(columns: seq<bytes>, terms: seq<Term>, column: bytes, now: int)
    requires forall i :: 0 <= i < |columns| ==> columns[i] != column
    ensures Given(columns, terms, column, now) == None
    decreases |columns|
  {
    if columns != [] && terms != [] {
      assert columns[0] != column;
      NotGiven(columns[1..], terms[1..], column, now);
    }
  }

  const COLUMNS: seq<bytes> :=
    ["peer_id", "torrent_id", "info_hash", "ip", "port", "uploaded", "downloaded", "left_to_download", "event"]

  lemma ColumnsApart()
    ensures forall i, j :: 0 <= i < j < 9 ==> COLUMNS[i] != COLUMNS[j]
    ensures forall i :: 0 <= i < 9 ==> COLUMNS[i] != "last_seen"
  {
    Columns();
  }

  lemma NewPeerIs(torrentId: nat, peer: PeerInfo, now: int)
    ensures
      var terms := [Quoted(peer.peerId), Number(torrentId), Quoted(peer.infoHash), Quoted(peer.ip), Number(peer.port),
                    Number(peer.uploaded), Number(peer.downloaded), Number(peer.left), Quoted(peer.event)];
      NewPeer(COLUMNS, terms, now) == Some(PeerRow(peer.peerId, torrentId, peer.infoHash, FieldsOf(peer), now))
  {
    hide Given;
    var terms := [Quoted(peer.peerId), Number(torrentId), Quoted(peer.infoHash), Quoted(peer.ip), Number(peer.port),
                  Number(peer.uploaded), Number(peer.downloaded), Number(peer.left), Quoted(peer.event)];
    ColumnsApart();
    GivenAt(COLUMNS, terms, 0, now);
    GivenAt(COLUMNS, terms, 1, now);
    GivenAt(COLUMNS, terms, 2, now);
    GivenAt(COLUMNS, terms, 3, now);
    GivenAt(COLUMNS, terms, 4, now);
    GivenAt(COLUMNS, terms, 5, now);
    GivenAt(COLUMNS, terms, 6, now);
    GivenAt(COLUMNS, terms, 7, now);
    GivenAt(COLUMNS, terms, 8, now);
    NotGiven(COLUMNS, terms, "last_seen", now);
  }

  lemma SetPeersFirst(row: PeerRow, column: bytes, term: Term, more: seq<Assign>, now: int)
    ensures SetPeers(row, [Assign(column, Plain(term))] + more, now) ==
      SetPeers(SetPeer(row, column, Eval(term, now)), more, now)
  {
    assert ([Assign(column, Plain(term))] + more)[1..] == more;
  }

  lemma UpdatedPeer(row: PeerRow, peer: PeerInfo, now: int)
    ensures SetPeers(row, [Assign("ip", Plain(Quoted(peer.ip)))] + ([Assign("port", Plain(Number(peer.port)))]
        + ([Assign("uploaded", Plain(Number(peer.uploaded)))] + ([Assign("downloaded", Plain(Number(peer.downloaded)))]
        + ([Assign("left_to_download", Plain(Number(peer.left)))] + ([Assign("event", Plain(Quoted(peer.event)))]
        + ([Assign("last_seen", Plain(Now))] + [])))))), now) ==
      row.(fields := FieldsOf(peer), lastSeen := now)
  {
    hide SetPeers;
    Columns();
    var seen := [Assign("last_seen", Plain(Now))] + [];
    var event := [Assign("event", Plain(Quoted(peer.event)))] + seen;
    var left := [Assign("left_to_download", Plain(Number(peer.left)))] + event;
    var downloaded := [Assign("downloaded", Plain(Number(peer.downloaded)))] + left;
    var uploaded := [Assign("uploaded", Plain(Number(peer.uploaded)))] + downloaded;
    var r1 := row.(fields := row.fields.(ip := peer.ip));
    SetPeersFirst(row, "ip", Quoted(peer.ip), [Assign("port", Plain(Number(peer.port)))] + uploaded, now);
    var r2 := r1.(fields := r1.fields.(port := peer.port));
    SetPeersFirst(r1, "port", Number(peer.port), uploaded, now);
    var r3 := r2.(fields := r2.fields.(uploaded := peer.uploaded));
    SetPeersFirst(r2, "uploaded", Number(peer.uploaded), downloaded, now);
    var r4 := r3.(fields := r3.fields.(downloaded := peer.downloaded));
    SetPeersFirst(r3, "downloaded", Number(peer.downloaded), left, now);
    var r5 := r4.(fields := r4.fields.(left := peer.left));
    SetPeersFirst(r4, "left_to_download", Number(peer.left), event, now);
    var r6 := r5.(fields := r5.fields.(event := peer.event));
    SetPeersFirst(r5, "event", Quoted(peer.event), seen, now);
    SetPeersFirst(r6, "last_seen", Now, [], now);
    NoMoreUpdates(r6.(lastSeen := now), now);
  }

  lemma NoMoreUpdates(row: PeerRow, now: int)
    ensures SetPeers(row, [], now) == row
  {
  }

  lemma InsertIsUpsert(t: Tables, row: PeerRow, updates: seq<Assign>, peer: PeerInfo, now: int)
    requires Consistent(t) && row.torrentId in t.torrents
    requires row == PeerRow(peer.peerId, row.torrentId, peer.infoHash, FieldsOf(peer), now)
    requires forall r :: SetPeers(r, updates, now) == r.(fields := FieldsOf(peer), lastSeen := now)
    ensures InsertPeer(t, row, updates, now) == UpsertPeer(t, row.torrentId, peer, now)
  {
    hide SetPeers;
    if HasKey(t, row.torrentId, row.peerId) {
      var t1, t2 := InsertPeer(t, row, updates, now), UpsertPeer(t, row.torrentId, peer, now);
      var a: nat :|
        && IsKey(t, a, row.torrentId, row.peerId)
        && t1.peers == t.peers[a := SetPeers(t.peers[a], updates, now)];
      var b: nat :|
        && IsKey(t, b, row.torrentId, row.peerId)
        && t2.peers == t.peers[b := t.peers[b].(fields := FieldsOf(peer), lastSeen := now)];
      assert a == b;
    }
  }

  /** INSERT INTO peers ... ON DUPLICATE KEY UPDATE ... */
  lemma PeerExecutes(t: Tables, torrentId: nat, peer: PeerInfo, now: int)
    requires Consistent(t) && torrentId in t.torrents
    ensures
      var columns := ["peer_id", "torrent_id", "info_hash", "ip", "port", "uploaded", "downloaded", "left_to_download",
                      "event"];
      var terms := [Quoted(peer.peerId), Number(torrentId), Quoted(peer.infoHash), Quoted(peer.ip), Number(peer.port),
                    Number(peer.uploaded), Number(peer.downloaded), Number(peer.left), Quoted(peer.event)];
      var updates := [Assign("ip", Plain(Quoted(peer.ip))), Assign("port", Plain(Number(peer.port))),
                      Assign("uploaded", Plain(Number(peer.uploaded))),
                      Assign("downloaded", Plain(Number(peer.downloaded))),
                      Assign("left_to_download", Plain(Number(peer.left))), Assign("event", Plain(Quoted(peer.event))),
                      Assign("last_seen", Plain(Now))];
      Execute(t, Insert("peers", columns, terms, updates), now) == Some(UpsertPeer(t, torrentId, peer, now))
  {
    hide SetPeers, NewPeer, InsertPeer, UpsertPeer;
    Columns();
    NewPeerIs(torrentId, peer, now);
    var row := PeerRow(peer.peerId, torrentId, peer.infoHash, FieldsOf(peer), now);
    var updates := [Assign("ip", Plain(Quoted(peer.ip))), Assign("port", Plain(Number(peer.port))),
                    Assign("uploaded", Plain(Number(peer.uploaded))),
                    Assign("downloaded", Plain(Number(peer.downloaded))),
                    Assign("left_to_download", Plain(Number(peer.left))), Assign("event", Plain(Quoted(peer.event))),
                    Assign("last_seen", Plain(Now))];
    forall r
      ensures SetPeers(r, updates, now) == r.(fields := FieldsOf(peer), lastSeen := now)
    {
      UpdatedPeer(r, peer, now);
      assert updates == [Assign("ip", Plain(Quoted(peer.ip)))] + ([Assign("port", Plain(Number(peer.port)))]
        + ([Assign("uploaded", Plain(Number(peer.uploaded)))] + ([Assign("downloaded", Plain(Number(peer.downloaded)))]
        + ([Assign("left_to_download", Plain(Number(peer.left)))] + ([Assign("event", Plain(Quoted(peer.event)))]
        + ([Assign("last_seen", Plain(Now))] + []))))));
    }
    InsertIsUpsert(t, row, updates, peer, now);
  }

  // The results of queries

  /** The selected columns of a row. */
  function Project(row: PeerRow, columns: seq<bytes>): (cells: seq<Option<Cell>>)
    ensures |cells| == |columns|
  {
    seq(|columns|, i requires 0 <= i < |columns| => PeerCell(row, columns[i]))
  }

  function ProjectAll(t: Tables, ids: seq<nat>, columns: seq<bytes>): (rows: seq<seq<Option<Cell>>>)
    requires forall i :: 0 <= i < |ids| ==> ids[i] in t.peers
    ensures |rows| == |ids|
    ensures forall i :: 0 <= i < |ids| ==> rows[i] == Project(t.peers[ids[i]], columns)
  {
    seq(|ids|, i requires 0 <= i < |ids| => Project(t.peers[ids[i]], columns))
  }

  function TorrentsWhere(t: Tables, where: seq<Cond>, now: int): set<nat> {
    set id | id in t.torrents && TorrentMatches(t.torrents[id], where, now)
  }

  /** SELECT peer_id, ip, port FROM peers WHERE info_hash=... AND peer_id != ... */
  lemma QuerySelects(t: Tables, hash: bytes, exclude: bytes, now: int)
    ensures PeersWhere(t, [Cond("info_hash", Equal, Quoted(hash)), Cond("peer_id", Unequal, Quoted(exclude))], now) ==
      Candidates(t, hash, exclude)
  {
    Columns();
    var a, b := Cond("info_hash", Equal, Quoted(hash)), Cond("peer_id", Unequal, Quoted(exclude));
    forall id | id in t.peers
      ensures PeerMatches(t.peers[id], [a, b], now) <==>
        t.peers[id].hash == hash && t.peers[id].peerId != exclude
    {
      TwoOf(t.peers[id], a, b, now);
    }
  }

  lemma EndpointOf(row: PeerRow)
    ensures Project(row, ["peer_id", "ip", "port"]) ==
      [Some(Str(row.peerId)), Some(Str(row.fields.ip)), Some(Int(row.fields.port))]
  {
    Columns();
  }

  /** SELECT id FROM torrents WHERE info_hash=... */
  lemma LookupSelects(t: Tables, hash: bytes, now: int)
    ensures TorrentsWhere(t, [Cond("info_hash", Equal, Quoted(hash))], now) ==
      set id | id in t.torrents && t.torrents[id].hash == hash
  {
    forall id | id in t.torrents
      ensures TorrentMatches(t.torrents[id], [Cond("info_hash", Equal, Quoted(hash))], now) <==>
        t.torrents[id].hash == hash
    {
      OfHash(t.torrents[id], hash, now);
    }
  }
}
