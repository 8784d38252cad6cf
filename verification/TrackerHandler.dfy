/** Requests from their first line to their reply: route, announce and scrape against the database. */
module TrackerHandler {
  import opened Options
  import opened Text
  import opened Records
  import opened UrlCoding
  import opened SwarmTables
  import opened SwarmRefinement
  import opened SwarmProtocol
  import opened SwarmHistory
  import opened SwarmQueries
  import opened PeerSelection
  import opened Database
  import opened DottedQuads
  import opened HttpReplies
  import Bencode
  import Queries = AnnounceQuery
  import Replies = AnnounceResponse
  import Scrape

  // The request line

  /** The text between the first two spaces. */
  function Target(request: bytes): Option<bytes> {
    var first := Find(request, ' ');
    if first == |request| then None
    else
      var rest := request[first + 1..];
      var second := Find(rest, ' ');
      if second == |rest| then None else Some(rest[..second])
  }

  function Route(path: bytes): bytes {
    path[..Find(path, '?')]
  }

  function Query(path: bytes): bytes {
    var q := Find(path, '?');
    if q == |path| then [] else path[q + 1..]
  }

  /** A request line built from a method, a route and a query is taken apart into them again. */
  lemma RequestLineSplits(verb: bytes, route: bytes, query: bytes, rest: bytes)
    requires ' ' !in verb && ' ' !in route && '?' !in route && ' ' !in query
    ensures Target(verb + " " + (route + "?" + query) + " " + rest) == Some(route + "?" + query)
    ensures Route(route + "?" + query) == route && Query(route + "?" + query) == query
  {
    var path := route + "?" + query;
    var tail := path + [' '] + rest;
    var request := verb + " " + path + " " + rest;
    assert request == verb + [' '] + tail;
    assert request[|verb| + 1..] == tail;
    assert tail[..|path|] == path;
    FindAfter(verb, ' ', tail);
    FindAfter(path, ' ', rest);
    FindAfter(route, '?', query);
    assert path == route + ['?'] + query;
  }

  // What a reply says

  /** The torrent's row as a scrape looks it up. */
  ghost function Reads(t: Tables): Scrape.Lookup {
    hash => StatsOf(t, hash)
  }

  datatype Settings = Settings(interval: int, minInterval: int, numWant: int)

  /** A request handled: the tables before and after, the reply, and what else it depends on. */
  datatype Exchange = Exchange(before: Tables, after: Tables, reply: Reply, clientIp: bytes, settings: Settings,
                               inet: Replies.Inet, now: int, later: int)

  ghost function ResponseOf(t: Tables, hash: bytes, settings: Settings, peers: seq<PeerInfo>): Replies.Response {
    var stats := StatsOf(t, hash);
    Replies.Response(settings.interval, settings.minInterval, stats.complete, stats.incomplete, stats.downloaded, peers)
  }

  /** The body tells the counts of the torrent and a peer list chosen for the requester. */
  ghost predicate Answers(t: Tables, peer: PeerInfo, settings: Settings, inet: Replies.Inet, body: bytes) {
    exists peers ::
      && IsPeerList(t, peer.infoHash, peer.peerId, settings.numWant, peers)
      && body == Bencode.Encode(Replies.Meaning(inet, ResponseOf(t, peer.infoHash, settings, peers)))
  }

  /** Which reply an announce gets, given the tables it leaves behind. */
  ghost predicate AnnounceReply(t: Tables, peer: PeerInfo, settings: Settings, inet: Replies.Inet, reply: Reply) {
    if peer.infoHash == [] || peer.peerId == [] then reply == BadRequest
    else if peer.event != "stopped" && !Accepted(peer) then reply == ServerError
    else reply.Okay? && Answers(t, peer, settings, inet, reply.body)
  }

  ghost predicate AnnounceHandled(x: Exchange, query: bytes) {
    var peer := Queries.ParseAnnounce(query, x.clientIp);
    x.after == Announced(x.before, peer, x.now, x.later) && AnnounceReply(x.after, peer, x.settings, x.inet, x.reply)
  }

  ghost predicate ScrapeHandled(x: Exchange, query: bytes) {
    && x.after == x.before
    && x.reply == Okay(Bencode.Encode(Scrape.Meaning(Scrape.Requested(query), Reads(x.before))))
  }

  ghost predicate Refused(x: Exchange) {
    x.after == x.before && x.reply == BadRequest
  }

  /** What a request with this path makes of the tables, and its reply. */
  ghost predicate PathHandled(x: Exchange, path: bytes) {
    if Route(path) == "/scrape" then ScrapeHandled(x, Query(path))
    else if Query(path) == [] then Refused(x)
    else AnnounceHandled(x, Query(path))
  }

  ghost predicate Handled(x: Exchange, request: bytes) {
    match Target(request)
    case None => Refused(x)
    case Some(path) => PathHandled(x, path)
  }

  class BEPHandler {
    var settings: Settings

    constructor ()
      ensures settings == Settings(1800, 600, 50)
    {
      settings := Settings(1800, 600, 50);
    }

    method Configure(interval: int, minInterval: int, numWant: int)
      modifies this
      ensures settings == Settings(interval, minInterval, numWant)
    {
      settings := Settings(interval, minInterval, numWant);
    }

    /** The main loop of handle_scrape. */
    method WriteFiles(hashes: seq<bytes>, db: DBManager) returns (out: bytes)
      requires db.Valid()
      ensures out == Scrape.HexTexts(hashes, Reads(db.Contents()))
    {
      out := [];
      ghost var text := Scrape.HexText(Reads(db.Contents()));
      for i := 0 to |hashes|
        invariant out + Scrape.Flat(text, hashes[i..]) == Scrape.Flat(text, hashes)
      {
        assert hashes[i..][1..] == hashes[i + 1..];
        var info := db.GetTorrentInfo(hashes[i]);
        var raw := Scrape.HexToRaw(hashes[i]);
        Assoc3(out, text(hashes[i]), Scrape.Flat(text, hashes[i + 1..]));
        out := out + Scrape.FileText(raw, info);
      }
    }

    /** handle_scrape. */
    method HandleScrape(query: bytes, db: DBManager) returns (out: bytes)
      requires db.Valid() && IsBytes(query)
      ensures out == Bencode.Encode(Scrape.Meaning(Scrape.Requested(query), Reads(db.Contents())))
    {
      var params := Scrape.ParseQsMulti(query);
      var raws := if Scrape.KEY in params then params[Scrape.KEY] else [];
      var hashes := Scrape.CollectHashes(raws);
      var files := WriteFiles(hashes, db);
      Scrape.WrittenIsEncoded(query, Reads(db.Contents()));
      out := "d5:filesd" + files + "ee";
    }

    /** The part of handle_request that answers an announce. */
    method HandleAnnounce(peer: PeerInfo, db: DBManager, inet: Replies.Inet, now: int, later: int)
      returns (reply: Reply)
      requires db.Valid()
      modifies db
      ensures db.Valid() && db.Contents() == Announced(old(db.Contents()), peer, now, later)
      ensures AnnounceReply(db.Contents(), peer, settings, inet, reply)
    {
      if peer.infoHash == [] || peer.peerId == [] {
        return BadRequest;
      }
      if peer.event == "stopped" {
        var removed := db.RemovePeer(peer.peerId, peer.infoHash, later);
      } else {
        if peer.event == "completed" {
          var counted := db.IncrementDownloaded(peer.infoHash);
        }
        var updated := db.UpdatePeer(peer, now, later);
        if !updated {
          return ServerError;
        }
      }
      var peers := db.GetPeers(peer.infoHash, peer.peerId, settings.numWant);
      var stats := db.GetTorrentInfo(peer.infoHash);
      var response := Replies.Response(settings.interval, settings.minInterval,
                                       stats.complete, stats.incomplete, stats.downloaded, peers);
      var body := Replies.BencodeResponse(inet, response);
      reply := Okay(body);
    }

    /** handle_request from the path on. */
    method HandlePath(path: bytes, db: DBManager, clientIp: bytes, inet: Replies.Inet, now: int, later: int)
      returns (reply: Reply)
      requires db.Valid() && IsBytes(path)
      modifies db
      ensures db.Valid()
      ensures
        PathHandled(Exchange(old(db.Contents()), db.Contents(), reply, clientIp, settings, inet, now, later), path)
    {
      var q := Find(path, '?');
      var route := if q == |path| then path else path[..q];
      var query := if q == |path| then [] else path[q + 1..];
      assert route == Route(path) && query == Query(path);
      if route == "/scrape" {
        var body := HandleScrape(query, db);
        return Okay(body);
      }
      if query == [] {
        return BadRequest;
      }
      var peer := Queries.ParseAnnounceRequest(query, clientIp);
      reply := HandleAnnounce(peer, db, inet, now, later);
    }

    /** The start of handle_request. */
    method FindTarget(request: bytes) returns (target: Option<bytes>)
      requires IsBytes(request)
      ensures target == Target(request) && (target.Some? ==> IsBytes(target.value))
    {
      var first := Find(request, ' ');
      if first == |request| {
        return None;
      }
      var rest := request[first + 1..];
      var second := Find(rest, ' ');
      return if second == |rest| then None else Some(rest[..second]);
    }

    /** handle_request: `text` is what is sent back, the text of one reply. */
    method HandleRequest(request: bytes, db: DBManager, clientIp: bytes, inet: Replies.Inet, now: int, later: int)
      returns (text: bytes, ghost reply: Reply)
      requires db.Valid() && IsBytes(request)
      modifies db
      ensures db.Valid() && text == TextOf(reply)
      ensures
        Handled(Exchange(old(db.Contents()), db.Contents(), reply, clientIp, settings, inet, now, later), request)
    {
      var target := FindTarget(request);
      var answer := BadRequest;
      if target.Some? {
        answer := HandlePath(target.value, db, clientIp, inet, now, later);
      }
      reply := answer;
      match answer
      case BadRequest => text := WriteError("HTTP/1.1 400 Bad Request", reply);
      case ServerError => text := WriteError("HTTP/1.1 500 " + "Internal Server Error", reply);
      case Okay(body) => text := WriteOkay(body);
    }
  }

  // From the client's bytes to the swarm

  function SentIp(a: Queries.Announce, clientIp: bytes): bytes {
    match a.ip
    case Some(ip) => ip
    case None => clientIp
  }

  /** The update of the swarm that a client asks for with an announce. */
  function Asked(a: Queries.Announce, clientIp: bytes, now: int): Op {
    var hash, peerId, ip := Hex(a.infoHash), Hex(a.peerId), SentIp(a, clientIp);
    if a.event == "stopped" then DoDrop(hash, peerId)
    else if ip == [] || a.port <= 0 then Skip
    else if NUL in ip || NUL in a.event then DoTouch(hash)
    else DoPut(hash, peerId, Peer(Fields(ip, a.port, a.uploaded, a.downloaded, a.left, a.event), now))
  }

  /** The peer is put or dropped, which is what announces and stops are for. */
  predicate IsWanted(op: Op) {
    op.DoPut? || op.DoDrop?
  }

  lemma EmptyQuery(clientIp: bytes)
    ensures Queries.ParseAnnounce([], clientIp).infoHash == []
  {
    assert Pieces([]) == [];
  }

  lemma QueryGivesPeer(fs: seq<Queries.Sent>, a: Queries.Announce, clientIp: bytes)
    requires Queries.AllSendable(fs) && Queries.Describes(fs, a) && Queries.InRange(a)
    requires |a.infoHash| == 20 && |a.peerId| == 20
    ensures
      var query := Join(Queries.Write(fs));
      var peer := Queries.ParseAnnounce(query, clientIp);
      && query != [] && IsId(peer.infoHash) && IsId(peer.peerId)
      && peer == PeerInfo(Hex(a.infoHash), Hex(a.peerId), SentIp(a, clientIp),
                          a.port, a.uploaded, a.downloaded, a.left, a.event)
  {
    Queries.AnnounceRoundTrip(fs, a, clientIp);
    EmptyQuery(clientIp);
    HexIsId(a.infoHash);
    HexIsId(a.peerId);
  }

  lemma AskedIsOp(a: Queries.Announce, peer: PeerInfo, clientIp: bytes, now: int, later: int)
    requires peer == PeerInfo(Hex(a.infoHash), Hex(a.peerId), SentIp(a, clientIp),
                              a.port, a.uploaded, a.downloaded, a.left, a.event)
    requires IsId(peer.infoHash) && IsId(peer.peerId)
    ensures OpOf(Announce(peer, now, later)) == Asked(a, clientIp, now)
    ensures IsWanted(Asked(a, clientIp, now)) <==> a.event == "stopped" || Accepted(peer)
  {
  }

  lemma QueryReachesSwarm(x: Exchange, fs: seq<Queries.Sent>, a: Queries.Announce)
    requires Consistent(x.before)
    requires Queries.AllSendable(fs) && Queries.Describes(fs, a) && Queries.InRange(a)
    requires |a.infoHash| == 20 && |a.peerId| == 20
    requires AnnounceHandled(x, Join(Queries.Write(fs)))
    ensures View(x.after) == Do(View(x.before), Asked(a, x.clientIp, x.now))
    ensures x.reply.Okay? <==> IsWanted(Asked(a, x.clientIp, x.now))
  {
    QueryGivesPeer(fs, a, x.clientIp);
    var peer := Queries.ParseAnnounce(Join(Queries.Write(fs)), x.clientIp);
    AskedIsOp(a, peer, x.clientIp, x.now, x.later);
    AnnouncedRefines(x.before, peer, x.now, x.later);
  }

  /** The request for a route and a query. */
  function RequestText(verb: bytes, route: bytes, query: bytes, rest: bytes): bytes {
    verb + " " + (route + "?" + query) + " " + rest
  }

  lemma RequestIsOfPath(x: Exchange, verb: bytes, route: bytes, query: bytes, rest: bytes)
    requires ' ' !in verb && ' ' !in route && '?' !in route && ' ' !in query
    requires Handled(x, RequestText(verb, route, query, rest))
    ensures PathHandled(x, route + "?" + query)
    ensures Route(route + "?" + query) == route && Query(route + "?" + query) == query
  {
    RequestLineSplits(verb, route, query, rest);
  }

  lemma RoutesDiffer()
    ensures "/announce" != "/scrape"
  {
    assert "/announce"[1] != "/scrape"[1];
  }

  lemma AnnouncePath(x: Exchange, path: bytes)
    requires Route(path) == "/announce" && Query(path) != [] && PathHandled(x, path)
    ensures AnnounceHandled(x, Query(path))
  {
    RoutesDiffer();
  }

  lemma AnnounceRoute(x: Exchange, verb: bytes, query: bytes, rest: bytes)
    requires ' ' !in verb && ' ' !in query && query != []
    requires Handled(x, RequestText(verb, "/announce", query, rest))
    ensures AnnounceHandled(x, query)
  {
    hide Handled, PathHandled, AnnounceHandled, Route, Query;
    RequestIsOfPath(x, verb, "/announce", query, rest);
    AnnouncePath(x, "/announce" + "?" + query);
  }

  lemma ScrapePath(x: Exchange, path: bytes)
    requires Route(path) == "/scrape" && PathHandled(x, path)
    ensures ScrapeHandled(x, Query(path))
  {
  }

  lemma ScrapeRoute(x: Exchange, verb: bytes, query: bytes, rest: bytes)
    requires ' ' !in verb && ' ' !in query
    requires Handled(x, RequestText(verb, "/scrape", query, rest))
    ensures ScrapeHandled(x, query)
  {
    hide Handled, PathHandled, ScrapeHandled, Route, Query;
    RequestIsOfPath(x, verb, "/scrape", query, rest);
    ScrapePath(x, "/scrape" + "?" + query);
  }

  /**
   From the client's record to the swarm. However a client writes its announce, with twenty-byte
   ids and no raw space in the query, handling the request updates the swarm as asked and nothing
   else. The reply is a success exactly when it is a stop, or its address is not empty, its port is
   positive and neither address nor event holds a NUL byte; with a NUL byte the torrent becomes
   known and the client gets an error.
  */
  lemma AnnounceReachesSwarm(x: Exchange, fs: seq<Queries.Sent>, a: Queries.Announce, verb: bytes, rest: bytes)
    requires Consistent(x.before)
    requires Queries.AllSendable(fs) && Queries.Describes(fs, a) && Queries.InRange(a)
    requires |a.infoHash| == 20 && |a.peerId| == 20
    requires ' ' !in verb && ' ' !in Join(Queries.Write(fs))
    requires Handled(x, RequestText(verb, "/announce", Join(Queries.Write(fs)), rest))
    ensures View(x.after) == Do(View(x.before), Asked(a, x.clientIp, x.now))
    ensures x.reply.Okay? <==> IsWanted(Asked(a, x.clientIp, x.now))
  {
    QueryGivesPeer(fs, a, x.clientIp);
    AnnounceRoute(x, verb, Join(Queries.Write(fs)), rest);
    QueryReachesSwarm(x, fs, a);
  }

  /** The event %00: a valid announce otherwise, refused after its torrent has been made. */
  lemma NulEventIsRefused(x: Exchange, fs: seq<Queries.Sent>, a: Queries.Announce, verb: bytes, rest: bytes)
    requires Consistent(x.before)
    requires Queries.AllSendable(fs) && Queries.Describes(fs, a) && Queries.InRange(a)
    requires |a.infoHash| == 20 && |a.peerId| == 20
    requires ' ' !in verb && ' ' !in Join(Queries.Write(fs))
    requires Handled(x, RequestText(verb, "/announce", Join(Queries.Write(fs)), rest))
    requires a.event == [NUL] && SentIp(a, x.clientIp) != [] && a.port > 0
    ensures x.reply == ServerError && View(x.after) == Touch(View(x.before), Hex(a.infoHash))
  {
    hide Handled, RequestText;
    var query := Join(Queries.Write(fs));
    AnnounceReachesSwarm(x, fs, a, verb, rest);
    QueryGivesPeer(fs, a, x.clientIp);
    AnnounceRoute(x, verb, query, rest);
    assert a.event[0] != "stopped"[0];
  }

  // From the swarm to what a client reads

  /** The dictionary of a scrape reply with these files. */
  function FilesValue(files: seq<Bencode.Entry>): Bencode.Value {
    Bencode.Dict([Bencode.Entry("files", Bencode.Dict(files))])
  }

  /** Under which key a dictionary tells which column of a torrent's row. */
  predicate TellsColumns(row: TorrentRow, value: Bencode.Value) {
    && Bencode.Get(value, "complete") == Some(Bencode.Num(row.complete))
    && Bencode.Get(value, "incomplete") == Some(Bencode.Num(row.incomplete))
    && Bencode.Get(value, "downloaded") == Some(Bencode.Num(row.downloaded))
  }

  /** The dictionary tells the columns of the row of that hash, or zeros where no torrent has it. */
  ghost predicate TellsTorrent(t: Tables, hash: bytes, value: Bencode.Value) {
    || (exists id :: id in t.torrents && t.torrents[id].hash == hash && TellsColumns(t.torrents[id], value))
    || (&& (forall id :: id in t.torrents ==> t.torrents[id].hash != hash)
        && TellsColumns(TorrentRow(hash, 0, 0, 0), value))
  }

  lemma StatsAreOfTorrent(t: Tables, hash: bytes, value: Bencode.Value)
    requires IsId(hash) && Scrape.Tells(StatsOf(t, hash), value)
    ensures TellsTorrent(t, hash, value)
  {
    SelectedIsTorrent(t, hash);
    if Known(t, hash) {
      var id := SelectId(t, hash).value;
      assert id in t.torrents && t.torrents[id].hash == hash && TellsColumns(t.torrents[id], value);
    } else {
      assert forall id :: id in t.torrents ==> !IsTorrent(t, id, hash);
    }
  }

  /** One file for each hash, keyed by it and with the counts of its row. */
  ghost predicate Reports(t: Tables, hashes: seq<bytes>, files: seq<Bencode.Entry>) {
    && |files| == |hashes|
    && forall i :: 0 <= i < |hashes| ==> files[i].key == hashes[i] && TellsTorrent(t, Hex(hashes[i]), files[i].value)
  }

  lemma {:induction false} TwentyByteIs(raws: seq<bytes>)
    ensures forall i :: 0 <= i < |Scrape.TwentyByte(raws)| ==> |Scrape.TwentyByte(raws)[i]| == 20
  {
    if raws != [] {
      TwentyByteIs(raws[1..]);
    }
  }

  lemma ScrapeMeansRows(t: Tables, fs: seq<Scrape.Sent>, after: bytes)
    requires Scrape.AllSendable(fs)
    ensures
      var files := Scrape.Files(Scrape.Asked(fs), Reads(t));
      var body := Bencode.Encode(Scrape.Meaning(Scrape.Requested(Join(Scrape.Write(fs))), Reads(t)));
      && Bencode.Decode(body + after) == Some((FilesValue(files), after))
      && Reports(t, Scrape.TwentyByte(Scrape.Asked(fs)), files)
  {
    Scrape.QueryGivesHashes(fs);
    Scrape.ScrapeRoundTrip(fs, Reads(t), after);
    var hashes, files := Scrape.TwentyByte(Scrape.Asked(fs)), Scrape.Files(Scrape.Asked(fs), Reads(t));
    TwentyByteIs(Scrape.Asked(fs));
    forall i | 0 <= i < |hashes|
      ensures TellsTorrent(t, Hex(hashes[i]), files[i].value)
    {
      HexIsId(hashes[i]);
      StatsAreOfTorrent(t, Hex(hashes[i]), files[i].value);
    }
  }

  /**
   From a client's scrape to what it reads. Whatever fields the query has and however they are
   written, with no raw space, the tables stay as they are and the reply, with anything after it,
   decodes to one file for each twenty-byte value of `info_hash`, in order, keyed by its own bytes
   and with the counts of that torrent's row.
  */
  lemma ScrapeReachesClient(x: Exchange, fs: seq<Scrape.Sent>, verb: bytes, rest: bytes, after: bytes)
    requires Scrape.AllSendable(fs)
    requires ' ' !in verb && ' ' !in Join(Scrape.Write(fs))
    requires Handled(x, RequestText(verb, "/scrape", Join(Scrape.Write(fs)), rest))
    ensures x.after == x.before && x.reply.Okay?
    ensures
      var files := Scrape.Files(Scrape.Asked(fs), Reads(x.before));
      && Bencode.Decode(x.reply.body + after) == Some((FilesValue(files), after))
      && Reports(x.before, Scrape.TwentyByte(Scrape.Asked(fs)), files)
  {
    ScrapeRoute(x, verb, Join(Scrape.Write(fs)), rest);
    ScrapeMeansRows(x.before, fs, after);
  }

  type Addresses = seq<Option<Replies.Address>>

  /** Every listed peer has a dotted quad for its address and a port that fits, or an address that is none. */
  ghost predicate WellAddressed(inet: Replies.Inet, peers: seq<PeerInfo>, addresses: Addresses) {
    && |addresses| == |peers|
    && forall i :: 0 <= i < |peers| ==>
      match addresses[i]
      case Some(x) => IsOctets(x) && peers[i].ip == DottedQuad(x) && 0 <= peers[i].port < 65536
      case None => inet(peers[i].ip).None?
  }

  /** The addresses that are there, each with the port beside it. */
  function Together(peers: seq<PeerInfo>, addresses: Addresses): seq<(Replies.Address, nat)>
    requires |addresses| == |peers|
    requires forall i :: 0 <= i < |peers| && addresses[i].Some? ==> peers[i].port >= 0
  {
    if peers == [] then []
    else
      (if addresses[0].Some? then [(addresses[0].value, peers[0].port as nat)] else [])
      + Together(peers[1..], addresses[1..])
  }

  lemma {:induction false} EndpointsAre(inet: Replies.Inet, peers: seq<PeerInfo>, addresses: Addresses)
    requires KnowsDottedQuads(inet) && WellAddressed(inet, peers, addresses)
    ensures Replies.Endpoints(inet, peers) == Together(peers, addresses)
  {
    if peers != [] {
      EndpointsAre(inet, peers[1..], addresses[1..]);
      if addresses[0].Some? {
        assert inet(DottedQuad(addresses[0].value)) == Some(addresses[0].value);
      }
    }
  }

  /** The dictionary tells the two settings. */
  predicate TellsSettings(settings: Settings, value: Bencode.Value) {
    && Bencode.Get(value, "interval") == Some(Bencode.Num(settings.interval))
    && Bencode.Get(value, "min interval") == Some(Bencode.Num(settings.minInterval))
  }

  /** And, under "peers", the endpoints in order of those peers whose address parses. */
  ghost predicate TellsPeers(inet: Replies.Inet, peers: seq<PeerInfo>, value: Bencode.Value) {
    match Bencode.Get(value, "peers")
    case Some(Str(compact)) =>
      && |compact| == 6 * |Replies.Valid(inet, peers)|
      && Replies.ReadPeers(compact) == Replies.Endpoints(inet, peers)
    case _ => false
  }

  lemma AnswerIsTold(t: Tables, hash: bytes, settings: Settings, inet: Replies.Inet, peers: seq<PeerInfo>,
                     value: Bencode.Value)
    requires IsId(hash) && Replies.Tells(inet, ResponseOf(t, hash, settings, peers), value)
    ensures TellsTorrent(t, hash, value) && TellsSettings(settings, value) && TellsPeers(inet, peers, value)
  {
    StatsAreOfTorrent(t, hash, value);
    Replies.ReadCompact(inet, peers);
  }

  /**
   From the reply's bytes back to the tables and the swarm. Whatever follows it, an announce reply
   decodes to a dictionary with strictly ascending keys that tells, each under its own key, the three
   columns of the torrent's row, the two settings and the endpoints, in order, of those listed rows
   whose address parses; every listed row is another peer of the torrent. Where the parser knows
   dotted quads, dotted quads and ports that fit read as themselves.
  */
  lemma ReplyMeansSwarm(t: Tables, peer: PeerInfo, settings: Settings, inet: Replies.Inet, body: bytes, rest: bytes)
    returns (value: Bencode.Value, peers: seq<PeerInfo>)
    requires Consistent(t) && IsId(peer.infoHash) && Answers(t, peer, settings, inet, body)
    ensures Bencode.Decode(body + rest) == Some((value, rest)) && Bencode.Canonical(value)
    ensures TellsTorrent(t, peer.infoHash, value) && TellsSettings(settings, value) && TellsPeers(inet, peers, value)
    ensures |peers| <= Bounded(settings.numWant) && !Lists(peers, peer.peerId)
    ensures forall i :: 0 <= i < |peers| ==> InSwarm(t, peer.infoHash, peers[i])
    ensures IsPeerList(t, peer.infoHash, peer.peerId, settings.numWant, peers)
    ensures forall addresses :: KnowsDottedQuads(inet) && WellAddressed(inet, peers, addresses) ==>
      Replies.Endpoints(inet, peers) == Together(peers, addresses)
  {
    peers :|
      && IsPeerList(t, peer.infoHash, peer.peerId, settings.numWant, peers)
      && body == Bencode.Encode(Replies.Meaning(inet, ResponseOf(t, peer.infoHash, settings, peers)));
    var r := ResponseOf(t, peer.infoHash, settings, peers);
    value := Replies.Meaning(inet, r);
    Replies.ResponseDecodes(inet, r, rest);
    Replies.MeaningTells(inet, r);
    AnswerIsTold(t, peer.infoHash, settings, inet, peers, value);
    PeerListMeans(t, peer.infoHash, peer.peerId, settings.numWant, peers);
    forall addresses | KnowsDottedQuads(inet) && WellAddressed(inet, peers, addresses)
      ensures Replies.Endpoints(inet, peers) == Together(peers, addresses)
    {
      EndpointsAre(inet, peers, addresses);
    }
  }

  /** The counts in the dictionary are those of the swarm's distinct peers seen in the two hours before `later`. */
  ghost predicate TellsSwarm(t: Tables, hash: bytes, later: int, value: Bencode.Value) {
    if hash in View(t) then
      && Bencode.Get(value, "complete") == Some(Bencode.Num(|SwarmSeeders(View(t), hash, later - 7200)|))
      && Bencode.Get(value, "incomplete") == Some(Bencode.Num(|SwarmLeechers(View(t), hash, later - 7200)|))
    else TellsColumns(TorrentRow(hash, 0, 0, 0), value)
  }

  lemma RowTellsStats(t: Tables, hash: bytes, value: Bencode.Value)
    requires Consistent(t) && IsId(hash) && TellsTorrent(t, hash, value)
    ensures Scrape.Tells(StatsOf(t, hash), value)
  {
    OneRow(t, hash);
    SelectedIsTorrent(t, hash);
  }

  lemma SwarmIsTold(t: Tables, peer: PeerInfo, now: int, later: int, value: Bencode.Value)
    requires Consistent(t) && IsId(peer.infoHash) && IsId(peer.peerId) && (peer.event == "stopped" || Accepted(peer))
    requires TellsTorrent(Announced(t, peer, now, later), peer.infoHash, value)
    ensures TellsSwarm(Announced(t, peer, now, later), peer.infoHash, later, value)
  {
    AnnouncedRefines(t, peer, now, later);
    RowTellsStats(Announced(t, peer, now, later), peer.infoHash, value);
    ReplyCountsSwarm(t, peer, now, later);
  }

  /**
   From a client's announce to what it reads. However it is written, a successful announce or stop
   gets a reply that decodes, with anything after it, to a dictionary telling under their keys: the
   seeders and leechers of the swarm the request leaves, the torrent's own counters, the two
   settings, and other peers of the torrent.
  */
  lemma AnnounceReachesClient(x: Exchange, fs: seq<Queries.Sent>, a: Queries.Announce, verb: bytes, rest: bytes,
                              after: bytes)
    returns (value: Bencode.Value, peers: seq<PeerInfo>)
    requires Consistent(x.before)
    requires Queries.AllSendable(fs) && Queries.Describes(fs, a) && Queries.InRange(a)
    requires |a.infoHash| == 20 && |a.peerId| == 20
    requires ' ' !in verb && ' ' !in Join(Queries.Write(fs))
    requires Handled(x, RequestText(verb, "/announce", Join(Queries.Write(fs)), rest)) && x.reply.Okay?
    ensures Bencode.Decode(x.reply.body + after) == Some((value, after)) && Bencode.Canonical(value)
    ensures TellsSwarm(x.after, Hex(a.infoHash), x.later, value) && TellsTorrent(x.after, Hex(a.infoHash), value)
    ensures TellsSettings(x.settings, value) && TellsPeers(x.inet, peers, value)
    ensures |peers| <= 500 && !Lists(peers, Hex(a.peerId))
    ensures forall i :: 0 <= i < |peers| ==> InSwarm(x.after, Hex(a.infoHash), peers[i])
  {
    var query := Join(Queries.Write(fs));
    QueryGivesPeer(fs, a, x.clientIp);
    AnnounceRoute(x, verb, query, rest);
    var peer := Queries.ParseAnnounce(query, x.clientIp);
    AnnouncedRefines(x.before, peer, x.now, x.later);
    value, peers := ReplyMeansSwarm(x.after, peer, x.settings, x.inet, x.reply.body, after);
    SwarmIsTold(x.before, peer, x.now, x.later, value);
  }

  /**
   The status code of an announce, whatever follows its reply: 400 when an id is missing, 500 when
   it is not a stop and its ids, address, port or a NUL byte make the update fail, and 200 otherwise.
  */
  lemma AnnounceCodes(x: Exchange, query: bytes, after: bytes)
    requires AnnounceHandled(x, query)
    ensures
      var peer := Queries.ParseAnnounce(query, x.clientIp);
      CodeIn(TextOf(x.reply) + after) == Some(
        if peer.infoHash == [] || peer.peerId == [] then 400
        else if peer.event == "stopped" then 200
        else if IsId(peer.infoHash) && IsId(peer.peerId) && peer.ip != [] && peer.port > 0
          && NUL !in peer.ip && NUL !in peer.event then 200
        else 500)
  {
    hide TextOf, CodeIn;
    CodeReadsBack(x.reply, after);
  }

  /** A request without a target, or without a query that is not for a scrape, gets 400; a scrape gets 200. */
  lemma OtherCodes(x: Exchange, request: bytes, after: bytes)
    requires Handled(x, request)
    ensures Target(request).None? ==> CodeIn(TextOf(x.reply) + after) == Some(400)
    ensures Target(request).Some? && Route(Target(request).value) == "/scrape" ==>
      CodeIn(TextOf(x.reply) + after) == Some(200)
    ensures Target(request).Some? && Route(Target(request).value) != "/scrape" && Query(Target(request).value) == [] ==>
      CodeIn(TextOf(x.reply) + after) == Some(400)
  {
    hide TextOf, CodeIn;
    CodeReadsBack(x.reply, after);
  }
}
