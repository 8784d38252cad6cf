/**
 The statement texts of the database manager as they are streamed: what is sent, and what statement
 the server makes of it.
*/
module SqlStreams {
  import opened Options
  import opened Text
  import opened SqlText
  import opened SqlStatements
  import opened SqlSyntax
  import opened SqlReading

  lemma Ended(g: Progress)
    requires g.open == []
    ensures TextOf(g) == Render(g.pieces)
  {
  }

  lemma EndedInCode(g: Progress)
    ensures TextOf(g) == Render(g.pieces + [Code(g.open)])
  {
    RenderSnoc(g.pieces, Code(g.open));
  }

  lemma DuplicateChunks()
    ensures ") " + ("ON DUPLICATE KEY " + "UPDATE updated_at=NOW()") == ON_DUPLICATE
  {
    assert ") ON DUPLICATE KEY " == ") " + "ON DUPLICATE KEY ";
    Assoc3(") ", "ON DUPLICATE KEY ", "UPDATE updated_at=NOW()");
  }

  lemma ThreePieces(a: bytes, v: bytes, b: bytes)
    ensures [] + [Code(a), Lit(v)] + [Code(b)] == [Code(a), Lit(v), Code(b)]
  {
  }

  method TorrentUpsertText(hash: bytes) returns (sql: bytes)
    ensures sql == Render(TorrentUpsert(hash))
    ensures StatementOf(sql) ==
      if NUL in hash then None
      else Some(Insert("torrents", ["info_hash"], [Quoted(hash)], [Assign("updated_at", Plain(Now))]))
  {
    hide StatementOf;
    var escaped := EscapeValue(hash);
    sql := "INSERT INTO torrents " + "(info_hash) VALUES ('";
    QuoteAfter("INSERT INTO torrents ", "(info_hash) VALUES (", "(info_hash) VALUES ('");
    ghost var g := Progress([], sql);
    sql, g := PutValue(sql, g, INSERT_TORRENT, hash, escaped, "') ");
    assert g.open == ") ";
    sql, g := Put(sql, g, "ON DUPLICATE KEY " + "UPDATE updated_at=NOW()");
    DuplicateChunks();
    EndedInCode(g);
    ThreePieces(INSERT_TORRENT, hash, ON_DUPLICATE);
    UpsertArrives(hash);
    OneUnderstood(TorrentUpsert(hash), hash);
    TorrentUpsertReads(hash);
  }

  method IdLookupText(hash: bytes) returns (sql: bytes)
    ensures sql == Render(IdLookup(hash))
    ensures StatementOf(sql) ==
      if NUL in hash then None
      else Some(Select(["id"], "torrents", [Cond("info_hash", Equal, Quoted(hash))], None, Some(1)))
  {
    hide StatementOf;
    var escaped := EscapeValue(hash);
    sql := "SELECT id FROM torrents " + "WHERE info_hash='";
    QuoteAfter("SELECT id FROM torrents ", "WHERE info_hash=", "WHERE info_hash='");
    ghost var g := Progress([], sql);
    sql, g := PutValue(sql, g, SELECT_ID, hash, escaped, "' LIMIT 1");
    assert g.open == " LIMIT 1";
    EndedInCode(g);
    ThreePieces(SELECT_ID, hash, " LIMIT 1");
    LookupArrives(hash);
    OneUnderstood(IdLookup(hash), hash);
    IdLookupReads(hash);
  }

  lemma DeleteIsUnderstood(peerId: bytes, hash: bytes)
    ensures StatementOf(Render(PeerDelete(peerId, hash))) ==
      if NUL in peerId || NUL in hash then None
      else Some(Delete("peers", [Cond("peer_id", Equal, Quoted(peerId)), Cond("info_hash", Equal, Quoted(hash))]))
  {
    hide StatementOf, ReadStatement, Tokens, Render;
    DeleteArrives(peerId, hash);
    TwoUnderstood(PeerDelete(peerId, hash), peerId, hash);
    PeerDeleteReads(peerId, hash);
  }

  method PeerDeleteText(peerId: bytes, hash: bytes) returns (sql: bytes)
    ensures sql == Render(PeerDelete(peerId, hash))
    ensures StatementOf(sql) ==
      if NUL in peerId || NUL in hash then None
      else Some(Delete("peers", [Cond("peer_id", Equal, Quoted(peerId)), Cond("info_hash", Equal, Quoted(hash))]))
  {
    hide StatementOf;
    var peerEsc := EscapeValue(peerId);
    var hashEsc := EscapeValue(hash);
    sql := "DELETE FROM peers WHERE " + "peer_id='";
    QuoteAfter("DELETE FROM peers WHERE ", "peer_id=", "peer_id='");
    ghost var g := Progress([], sql);
    sql, g := PutValue(sql, g, DELETE_PEER, peerId, peerEsc, "' AND info_hash='");
    assert g.open == " AND info_hash=" + [QUOTE];
    sql, g := PutValue(sql, g, " AND info_hash=", hash, hashEsc, "'");
    Ended(g);
    assert g.pieces == PeerDelete(peerId, hash);
    DeleteIsUnderstood(peerId, hash);
  }

  method DownloadCountText(hash: bytes) returns (sql: bytes)
    ensures sql == Render(DownloadCount(hash))
    ensures StatementOf(sql) ==
      if NUL in hash then None
      else
        Some(Update("torrents", [Assign("downloaded", Plus("downloaded", 1))],
                    [Cond("info_hash", Equal, Quoted(hash))]))
  {
    hide StatementOf;
    var escaped := EscapeValue(hash);
    sql := "UPDATE torrents SET " + "downloaded = downloaded + 1 " + "WHERE info_hash = '";
    QuoteAfter("UPDATE torrents SET " + "downloaded = downloaded + 1 ", "WHERE info_hash = ", "WHERE info_hash = '");
    ghost var g := Progress([], sql);
    sql, g := PutValue(sql, g, COUNT_DOWNLOAD, hash, escaped, "'");
    Ended(g);
    assert g.pieces == DownloadCount(hash);
    DownloadArrives(hash);
    OneUnderstood(DownloadCount(hash), hash);
    DownloadCountReads(hash);
  }

  lemma OrderChunk()
    ensures "' ORDER BY last_seen DESC LIMIT "[0] == QUOTE && "' ORDER BY last_seen DESC LIMIT "[1..] == NEWEST_FIRST
  {
  }

  lemma FivePieces(a: bytes, v: bytes, b: bytes, w: bytes, c: bytes)
    ensures [] + [Code(a), Lit(v)] + [Code(b), Lit(w)] + [Code(c)] == [Code(a), Lit(v), Code(b), Lit(w), Code(c)]
  {
  }

  method PeerQueryText(hash: bytes, exclude: bytes, limit: nat) returns (sql: bytes)
    ensures sql == Render(PeerQuery(hash, exclude, limit))
    ensures StatementOf(sql) ==
      if NUL in hash || NUL in exclude then None
      else
        Some(Select(["peer_id", "ip", "port"], "peers",
                    [Cond("info_hash", Equal, Quoted(hash)), Cond("peer_id", Unequal, Quoted(exclude))],
                    Some("last_seen"), Some(limit)))
  {
    hide StatementOf;
    var hashEsc := EscapeValue(hash);
    var excludeEsc := EscapeValue(exclude);
    sql := "SELECT peer_id, ip, port " + "FROM peers WHERE info_hash='";
    QuoteAfter("SELECT peer_id, ip, port ", "FROM peers WHERE info_hash=", "FROM peers WHERE info_hash='");
    ghost var g := Progress([], sql);
    sql, g := PutValue(sql, g, SELECT_PEERS, hash, hashEsc, "' AND peer_id != '");
    assert g.open == " AND peer_id != " + [QUOTE];
    OrderChunk();
    sql, g := PutValue(sql, g, " AND peer_id != ", exclude, excludeEsc, "' ORDER BY last_seen DESC LIMIT ");
    sql, g := Put(sql, g, Decimal(limit));
    EndedInCode(g);
    FivePieces(SELECT_PEERS, hash, " AND peer_id != ", exclude, NEWEST_FIRST + Decimal(limit));
    QueryArrives(hash, exclude, limit);
    TwoUnderstood(PeerQuery(hash, exclude, limit), hash, exclude);
    PeerQueryReads(hash, exclude, limit);
  }

  lemma RefreshIsUnderstood(hash: bytes)
    ensures StatementOf(Render(CountsRefresh(hash))) ==
      if NUL in hash then None
      else
        Some(Update("torrents",
                    [Assign("complete", CountOf("peers", Recent(hash, Equal))),
                     Assign("incomplete", CountOf("peers", Recent(hash, Above)))],
                    [Cond("info_hash", Equal, Quoted(hash))]))
  {
    hide StatementOf, ReadStatement, Tokens, Render, Recent;
    RefreshArrives(hash);
    OneUnderstood(CountsRefresh(hash), hash);
    CountsRefreshReads(hash);
  }

  method CountsRefreshText(hash: bytes) returns (sql: bytes)
    ensures sql == Render(CountsRefresh(hash))
    ensures StatementOf(sql) ==
      if NUL in hash then None
      else
        var ofTorrent, recent := Cond("info_hash", Equal, Quoted(hash)), Cond("last_seen", Above, Ago(7200));
        var complete := [ofTorrent, Cond("left_to_download", Equal, Number(0)), recent];
        var incomplete := [ofTorrent, Cond("left_to_download", Above, Number(0)), recent];
        Some(Update("torrents",
                    [Assign("complete", CountOf("peers", complete)),
                     Assign("incomplete", CountOf("peers", incomplete))],
                    [ofTorrent]))
  {
    hide StatementOf;
    var escaped := EscapeValue(hash);
    var counted := "(SELECT COUNT(*) FROM peers " + "WHERE info_hash='";
    QuoteAfter("(SELECT COUNT(*) FROM peers ", "WHERE info_hash=", "WHERE info_hash='");
    sql := "UPDATE torrents SET " + "complete = " + counted;
    Assoc3("UPDATE torrents SET " + "complete = ", COUNT_ROWS, [QUOTE]);
    ghost var g := Progress([], sql);
    sql, g := PutValue(sql, g, REFRESH_COMPLETE, hash, escaped, "' AND left_to_download = 0");
    assert g.open == " AND left_to_download = 0";
    sql, g := Put(sql, g, IN_WINDOW);
    sql, g := Put(sql, g, ", incomplete = ");
    Assoc3(g.open, COUNT_ROWS, [QUOTE]);
    sql, g := Put(sql, g, counted);
    sql, g := PutValue(sql, g, REFRESH_INCOMPLETE, hash, escaped, "' AND left_to_download > 0");
    assert g.open == " AND left_to_download > 0";
    sql, g := Put(sql, g, IN_WINDOW);
    QuoteAfter(g.open, " WHERE info_hash=", " WHERE info_hash='");
    sql, g := Put(sql, g, " WHERE info_hash='");
    sql, g := PutValue(sql, g, REFRESH_WHERE, hash, escaped, "'");
    Ended(g);
    assert g.pieces == CountsRefresh(hash);
    RefreshIsUnderstood(hash);
  }

  /** The text of cleanup_old_peers. */
  method ExpiryText(maxAge: int) returns (sql: bytes)
    ensures StatementOf(sql) ==
      Some(Delete("peers", [Cond("last_seen", Below, Ago(if maxAge >= 60 then maxAge else 60))]))
  {
    hide StatementOf, Decimal;
    var age := if 60 < maxAge then maxAge else 60;
    sql := SEEN_BEFORE + Decimal(age) + " SECOND)";
    ExpiryIsUnderstood(age);
  }

  lemma ExpiryIsUnderstood(seconds: nat)
    ensures StatementOf(SEEN_BEFORE + Decimal(seconds) + " SECOND)") ==
      Some(Delete("peers", [Cond("last_seen", Below, Ago(seconds))]))
  {
    hide ReadStatement, Received, Tokens, Decimal;
    var text := SEEN_BEFORE + Decimal(seconds) + " SECOND)";
    RenderSnoc([], Code(text));
    assert [] + [Code(text)] == Expiry(seconds) && Render([]) + text == text;
    ExpiryArrives(seconds);
    ExpiryReads(seconds);
  }
}
