/** The fixed texts in the statements of the database manager, read word by word. */
module SqlWords {
  import opened Text
  import opened SqlSyntax

  const EQUALS := Sign('=')

  predicate IsName(w: bytes) {
    w != [] && AllInWord(w)
  }

  predicate IsSign(c: char) {
    !InWord(c) && c != ' '
  }

  // Texts from their last word to their first

  lemma Alone(w: bytes) returns (t: bytes)
    requires IsName(w)
    ensures t == w && Words(t) == [Word(w)]
  {
    t := w;
    Nothing();
    WordFirst(w, []);
    assert w + [] == w;
  }

  lemma Nothing()
    ensures Words([]) == []
  {
  }

  lemma Space(rest: bytes) returns (t: bytes)
    ensures t == " " + rest && Words(t) == Words(rest)
  {
    t := " " + rest;
    SpaceFirst(rest);
  }

  lemma SignThen(c: char, rest: bytes) returns (t: bytes)
    requires IsSign(c)
    ensures t == [c] + rest && Words(t) == [Sign(c)] + Words(rest)
  {
    t := [c] + rest;
    SignFirst(c, rest);
  }

  lemma Spaced(w: bytes, rest: bytes) returns (t: bytes)
    requires IsName(w)
    ensures t == w + " " + rest && Words(t) == [Word(w)] + Words(rest)
  {
    hide Words;
    t := Space(rest);
    WordFirst(w, t);
    Assoc3(w, " ", rest);
    t := w + t;
  }

  lemma Signed(w: bytes, c: char, rest: bytes) returns (t: bytes)
    requires IsName(w) && IsSign(c)
    ensures t == w + [c] + rest && Words(t) == [Word(w), Sign(c)] + Words(rest)
  {
    hide Words;
    t := SignThen(c, rest);
    WordFirst(w, t);
    Assoc3(w, [c], rest);
    t := w + t;
  }

  lemma Listed(w: bytes, rest: bytes) returns (t: bytes)
    requires IsName(w)
    ensures t == w + ", " + rest && Words(t) == [Word(w), COMMA] + Words(rest)
  {
    hide Words;
    t := Space(rest);
    t := Signed(w, ',', t);
    assert w + [','] + (" " + rest) == w + ", " + rest;
  }

  /** A number behind a text that ends no word. */
  lemma NumberThen(before: bytes, name: bytes, n: int)
    requires Apart(before, name) && name != [] && !InWord(name[|name| - 1])
    ensures Words(before + name + Decimal(n)) == Words(before) + Words(name) + [Word(Decimal(n))]
  {
    hide Words, Decimal;
    IntOfDecimal(n);
    var t := Alone(Decimal(n));
    WordsConcat(before, name);
    WordsConcat(before + name, Decimal(n));
  }

  // The texts between values

  lemma Signs()
    ensures IsSign(',') && IsSign('(') && IsSign(')') && IsSign('=') && IsSign('!') && IsSign('<') && IsSign('>')
    ensures IsSign('*') && IsSign('+')
  {
  }

  lemma Keywords()
    ensures IsName("DELETE") && IsName("FROM") && IsName("WHERE") && IsName("LIMIT") && IsName("AND")
    ensures IsName("SELECT") && IsName("ORDER") && IsName("BY") && IsName("DESC") && IsName("INSERT")
    ensures IsName("INTO") && IsName("VALUES") && IsName("UPDATE")
  {
  }

  lemma MoreKeywords()
    ensures IsName("NOW") && IsName("SET") && IsName("COUNT") && IsName("0") && IsName("DATE_SUB")
    ensures IsName("INTERVAL") && IsName("2") && IsName("HOUR") && IsName("1") && IsName("ON")
    ensures IsName("DUPLICATE") && IsName("KEY") && IsName("SECOND")
  {
  }

  lemma Columns()
    ensures IsName("peers") && IsName("peer_id") && IsName("info_hash") && IsName("ip") && IsName("port")
    ensures IsName("last_seen") && IsName("torrent_id") && IsName("uploaded")
  {
  }

  lemma MoreColumns()
    ensures IsName("downloaded") && IsName("left_to_download") && IsName("event") && IsName("torrents")
    ensures IsName("complete") && IsName("incomplete") && IsName("updated_at") && IsName("id")
  {
  }

  /** All words and signs of the statements. */
  lemma Vocabulary()
    ensures Words([]) == []
    ensures IsName("DELETE") && IsName("FROM") && IsName("WHERE") && IsName("LIMIT") && IsName("AND")
    ensures IsName("SELECT") && IsName("ORDER") && IsName("BY") && IsName("DESC") && IsName("INSERT")
    ensures IsName("INTO") && IsName("VALUES") && IsName("UPDATE") && IsName("NOW") && IsName("SET")
    ensures IsName("COUNT") && IsName("0") && IsName("DATE_SUB") && IsName("INTERVAL") && IsName("2")
    ensures IsName("HOUR") && IsName("1") && IsName("ON") && IsName("DUPLICATE") && IsName("KEY")
    ensures IsName("SECOND")
    ensures IsName("peers") && IsName("peer_id") && IsName("info_hash") && IsName("ip") && IsName("port")
    ensures IsName("last_seen") && IsName("torrent_id") && IsName("uploaded") && IsName("downloaded")
    ensures IsName("left_to_download") && IsName("event") && IsName("torrents") && IsName("complete")
    ensures IsName("incomplete") && IsName("updated_at") && IsName("id")
    ensures IsSign(',') && IsSign('(') && IsSign(')') && IsSign('=') && IsSign('!') && IsSign('<') && IsSign('>')
    ensures IsSign('*') && IsSign('+')
  {
    hide IsName, IsSign;
    Keywords();
    MoreKeywords();
    Columns();
    MoreColumns();
    Signs();
  }

  lemma DeleteFrom()
    ensures Words("DELETE FROM peers WHERE ") == [Word("DELETE"), Word("FROM"), Word("peers"), Word("WHERE")]
  {
    hide Words, IsName, IsSign;
    Vocabulary();
    var t := Spaced("WHERE", []);
    t := Spaced("peers", t);
    t := Spaced("FROM", t);
    t := Spaced("DELETE", t);
    assert t == "DELETE FROM peers WHERE ";
  }

  lemma PeerIdIs()
    ensures Words("peer_id=") == [Word("peer_id"), EQUALS]
  {
    hide Words, IsName, IsSign;
    Vocabulary();
    var t := Signed("peer_id", '=', []);
    assert t == "peer_id=";
  }

  lemma Limit()
    ensures Words("LIMIT ") == [Word("LIMIT")]
  {
    hide Words, IsName, IsSign;
    Vocabulary();
    var t := Spaced("LIMIT", []);
    assert t == "LIMIT ";
  }

  lemma AndHash()
    ensures Words(" AND info_hash=") == [Word("AND"), Word("info_hash"), EQUALS]
  {
    hide Words, IsName, IsSign;
    Vocabulary();
    var t := Signed("info_hash", '=', []);
    t := Spaced("AND", t);
    t := Space(t);
    assert t == " AND info_hash=";
  }

  lemma SelectEndpoint()
    ensures Words("SELECT peer_id, ip, port ") ==
      [Word("SELECT"), Word("peer_id"), COMMA, Word("ip"), COMMA, Word("port")]
  {
    hide Words, IsName, IsSign;
    Vocabulary();
    var t := Spaced("port", []);
    t := Listed("ip", t);
    t := Listed("peer_id", t);
    t := Spaced("SELECT", t);
    assert t == "SELECT peer_id, ip, port ";
  }

  lemma FromPeers()
    ensures Words("FROM peers WHERE info_hash=") ==
      [Word("FROM"), Word("peers"), Word("WHERE"), Word("info_hash"), EQUALS]
  {
    hide Words, IsName, IsSign;
    Vocabulary();
    var t := Signed("info_hash", '=', []);
    t := Spaced("WHERE", t);
    t := Spaced("peers", t);
    t := Spaced("FROM", t);
    assert t == "FROM peers WHERE info_hash=";
  }

  lemma WhereHash()
    ensures Words("WHERE info_hash=") == [Word("WHERE"), Word("info_hash"), EQUALS]
  {
    hide Words, IsName, IsSign;
    Vocabulary();
    var t := Signed("info_hash", '=', []);
    t := Spaced("WHERE", t);
    assert t == "WHERE info_hash=";
  }

  lemma AndNotPeer()
    ensures Words(" AND peer_id != ") == [Word("AND"), Word("peer_id"), Sign('!'), EQUALS]
  {
    hide Words, IsName, IsSign;
    Vocabulary();
    var t := Space([]);
    t := SignThen('=', t);
    t := SignThen('!', t);
    t := Spaced("peer_id", t);
    t := Spaced("AND", t);
    t := Space(t);
    assert t == " AND peer_id != ";
  }

  lemma ByLastSeen()
    ensures Words(" ORDER BY last_seen DESC ") == [Word("ORDER"), Word("BY"), Word("last_seen"), Word("DESC")]
  {
    hide Words, IsName, IsSign;
    Vocabulary();
    var t := Spaced("DESC", []);
    t := Spaced("last_seen", t);
    t := Spaced("BY", t);
    t := Spaced("ORDER", t);
    t := Space(t);
    assert t == " ORDER BY last_seen DESC ";
  }

  lemma InsertIntoPeers()
    ensures Words("INSERT INTO peers (peer_id, ") ==
      [Word("INSERT"), Word("INTO"), Word("peers"), OPEN, Word("peer_id"), COMMA]
  {
    hide Words, IsName, IsSign;
    Vocabulary();
    var t := Listed("peer_id", []);
    t := SignThen('(', t);
    t := Spaced("peers", t);
    t := Spaced("INTO", t);
    t := Spaced("INSERT", t);
    assert t == "INSERT INTO peers (peer_id, ";
  }

  lemma EndpointColumns()
    ensures Words("torrent_id, info_hash, ip, port, ") ==
      [Word("torrent_id"), COMMA, Word("info_hash"), COMMA, Word("ip"), COMMA, Word("port"), COMMA]
  {
    hide Words, IsName, IsSign;
    Vocabulary();
    var t := Listed("port", []);
    t := Listed("ip", t);
    t := Listed("info_hash", t);
    t := Listed("torrent_id", t);
    assert t == "torrent_id, info_hash, ip, port, ";
  }

  lemma TransferColumns()
    ensures Words("uploaded, downloaded, ") == [Word("uploaded"), COMMA, Word("downloaded"), COMMA]
  {
    hide Words, IsName, IsSign;
    Vocabulary();
    var t := Listed("downloaded", []);
    t := Listed("uploaded", t);
    assert t == "uploaded, downloaded, ";
  }

  lemma LastColumns()
    ensures Words("left_to_download, event) ") == [Word("left_to_download"), COMMA, Word("event"), CLOSE]
  {
    hide Words, IsName, IsSign;
    Vocabulary();
    var t := Space([]);
    t := Signed("event", ')', t);
    t := Listed("left_to_download", t);
    assert t == "left_to_download, event) ";
  }

  lemma ValuesOpen()
    ensures Words("VALUES (") == [Word("VALUES"), OPEN]
  {
    hide Words, IsName, IsSign;
    Vocabulary();
    var t := SignThen('(', []);
    t := Spaced("VALUES", t);
    assert t == "VALUES (";
  }

  lemma UpdateIp()
    ensures Words("UPDATE ip=") == [Word("UPDATE"), Word("ip"), EQUALS]
  {
    hide Words, IsName, IsSign;
    Vocabulary();
    var t := Signed("ip", '=', []);
    t := Spaced("UPDATE", t);
    assert t == "UPDATE ip=";
  }

  lemma PortLabel()
    ensures Words(", port=") == [COMMA, Word("port"), EQUALS]
  {
    hide Words, IsName, IsSign;
    Vocabulary();
    var t := Signed("port", '=', []);
    t := Space(t);
    t := SignThen(',', t);
    assert t == ", port=";
  }

  lemma UploadedLabel()
    ensures Words(", uploaded=") == [COMMA, Word("uploaded"), EQUALS]
  {
    hide Words, IsName, IsSign;
    Vocabulary();
    var t := Signed("uploaded", '=', []);
    t := Space(t);
    t := SignThen(',', t);
    assert t == ", uploaded=";
  }

  lemma DownloadedLabel()
    ensures Words(", downloaded=") == [COMMA, Word("downloaded"), EQUALS]
  {
    hide Words, IsName, IsSign;
    Vocabulary();
    var t := Signed("downloaded", '=', []);
    t := Space(t);
    t := SignThen(',', t);
    assert t == ", downloaded=";
  }

  lemma LeftLabel()
    ensures Words(", left_to_download=") == [COMMA, Word("left_to_download"), EQUALS]
  {
    hide Words, IsName, IsSign;
    Vocabulary();
    var t := Signed("left_to_download", '=', []);
    t := Space(t);
    t := SignThen(',', t);
    assert t == ", left_to_download=";
  }

  lemma EventLabel()
    ensures Words(", event=") == [COMMA, Word("event"), EQUALS]
  {
    hide Words, IsName, IsSign;
    Vocabulary();
    var t := Signed("event", '=', []);
    t := Space(t);
    t := SignThen(',', t);
    assert t == ", event=";
  }

  lemma CommaAlone()
    ensures Words(", ") == [COMMA]
  {
    hide Words, IsName, IsSign;
    Vocabulary();
    var t := Space([]);
    t := SignThen(',', t);
    assert t == ", ";
  }

  lemma SeenNow()
    ensures Words(", last_seen=NOW()") == [COMMA, Word("last_seen"), EQUALS, Word("NOW"), OPEN, CLOSE]
  {
    hide Words, IsName, IsSign;
    Vocabulary();
    var t := SignThen(')', []);
    t := Signed("NOW", '(', t);
    t := Signed("last_seen", '=', t);
    t := Space(t);
    t := SignThen(',', t);
    assert t == ", last_seen=NOW()";
  }

  lemma UpdateTorrents()
    ensures Words("UPDATE torrents SET ") == [Word("UPDATE"), Word("torrents"), Word("SET")]
  {
    hide Words, IsName, IsSign;
    Vocabulary();
    var t := Spaced("SET", []);
    t := Spaced("torrents", t);
    t := Spaced("UPDATE", t);
    assert t == "UPDATE torrents SET ";
  }

  lemma CompleteIs()
    ensures Words("complete = ") == [Word("complete"), EQUALS]
  {
    hide Words, IsName, IsSign;
    Vocabulary();
    var t := Space([]);
    t := SignThen('=', t);
    t := Spaced("complete", t);
    assert t == "complete = ";
  }

  lemma SelectCount()
    ensures Words("(SELECT COUNT(*) ") == [OPEN, Word("SELECT"), Word("COUNT"), OPEN, Sign('*'), CLOSE]
  {
    hide Words, IsName, IsSign;
    Vocabulary();
    var t := Space([]);
    t := SignThen(')', t);
    t := SignThen('*', t);
    t := Signed("COUNT", '(', t);
    t := Spaced("SELECT", t);
    t := SignThen('(', t);
    assert t == "(SELECT COUNT(*) ";
  }

  lemma FromTable()
    ensures Words("FROM peers ") == [Word("FROM"), Word("peers")]
  {
    hide Words, IsName, IsSign;
    Vocabulary();
    var t := Spaced("peers", []);
    t := Spaced("FROM", t);
    assert t == "FROM peers ";
  }

  lemma NothingLeft()
    ensures Words(" AND left_to_download = 0") == [Word("AND"), Word("left_to_download"), EQUALS, Word("0")]
  {
    hide Words, IsName, IsSign;
    Vocabulary();
    var t := Alone("0");
    t := Space(t);
    t := SignThen('=', t);
    t := Spaced("left_to_download", t);
    t := Spaced("AND", t);
    t := Space(t);
    assert t == " AND left_to_download = 0";
  }

  lemma SomethingLeft()
    ensures Words(" AND left_to_download > 0") == [Word("AND"), Word("left_to_download"), Sign('>'), Word("0")]
  {
    hide Words, IsName, IsSign;
    Vocabulary();
    var t := Alone("0");
    t := Space(t);
    t := SignThen('>', t);
    t := Spaced("left_to_download", t);
    t := Spaced("AND", t);
    t := Space(t);
    assert t == " AND left_to_download > 0";
  }

  lemma AndSeen()
    ensures Words(" AND last_seen > ") == [Word("AND"), Word("last_seen"), Sign('>')]
  {
    hide Words, IsName, IsSign;
    Vocabulary();
    var t := Space([]);
    t := SignThen('>', t);
    t := Spaced("last_seen", t);
    t := Spaced("AND", t);
    t := Space(t);
    assert t == " AND last_seen > ";
  }

  lemma DateSub()
    ensures Words("DATE_SUB(") == [Word("DATE_SUB"), OPEN]
  {
    hide Words, IsName, IsSign;
    Vocabulary();
    var t := Signed("DATE_SUB", '(', []);
    assert t == "DATE_SUB(";
  }

  lemma InLastHours()
    ensures Words("NOW(), INTERVAL 2 HOUR))") ==
      [Word("NOW"), OPEN, CLOSE, COMMA, Word("INTERVAL"), Word("2"), Word("HOUR"), CLOSE, CLOSE]
  {
    hide Words, IsName, IsSign;
    Vocabulary();
    var t := SignThen(')', []);
    t := Signed("HOUR", ')', t);
    t := Spaced("2", t);
    t := Spaced("INTERVAL", t);
    t := Space(t);
    t := SignThen(',', t);
    t := SignThen(')', t);
    t := Signed("NOW", '(', t);
    assert t == "NOW(), INTERVAL 2 HOUR))";
  }

  lemma SpaceWhereHash()
    ensures Words(" WHERE info_hash=") == [Word("WHERE"), Word("info_hash"), EQUALS]
  {
    hide Words, IsName, IsSign;
    Vocabulary();
    var t := Signed("info_hash", '=', []);
    t := Spaced("WHERE", t);
    t := Space(t);
    assert t == " WHERE info_hash=";
  }

  lemma IncompleteIs()
    ensures Words(", incomplete = ") == [COMMA, Word("incomplete"), EQUALS]
  {
    hide Words, IsName, IsSign;
    Vocabulary();
    var t := Space([]);
    t := SignThen('=', t);
    t := Spaced("incomplete", t);
    t := Space(t);
    t := SignThen(',', t);
    assert t == ", incomplete = ";
  }

  lemma DownloadedIs()
    ensures Words("downloaded = ") == [Word("downloaded"), EQUALS]
  {
    hide Words, IsName, IsSign;
    Vocabulary();
    var t := Space([]);
    t := SignThen('=', t);
    t := Spaced("downloaded", t);
    assert t == "downloaded = ";
  }

  lemma DownloadedAndOne()
    ensures Words("downloaded + 1 ") == [Word("downloaded"), Sign('+'), Word("1")]
  {
    hide Words, IsName, IsSign;
    Vocabulary();
    var t := Spaced("1", []);
    t := Space(t);
    t := SignThen('+', t);
    t := Spaced("downloaded", t);
    assert t == "downloaded + 1 ";
  }

  lemma WhereHashIs()
    ensures Words("WHERE info_hash = ") == [Word("WHERE"), Word("info_hash"), EQUALS]
  {
    hide Words, IsName, IsSign;
    Vocabulary();
    var t := Space([]);
    t := SignThen('=', t);
    t := Spaced("info_hash", t);
    t := Spaced("WHERE", t);
    assert t == "WHERE info_hash = ";
  }

  lemma InsertIntoTorrents()
    ensures Words("INSERT INTO torrents ") == [Word("INSERT"), Word("INTO"), Word("torrents")]
  {
    hide Words, IsName, IsSign;
    Vocabulary();
    var t := Spaced("torrents", []);
    t := Spaced("INTO", t);
    t := Spaced("INSERT", t);
    assert t == "INSERT INTO torrents ";
  }

  lemma HashColumn()
    ensures Words("(info_hash) VALUES (") == [OPEN, Word("info_hash"), CLOSE, Word("VALUES"), OPEN]
  {
    hide Words, IsName, IsSign;
    Vocabulary();
    var t := SignThen('(', []);
    t := Spaced("VALUES", t);
    t := Space(t);
    t := Signed("info_hash", ')', t);
    t := SignThen('(', t);
    assert t == "(info_hash) VALUES (";
  }

  lemma OnDuplicateKey()
    ensures Words(") ON DUPLICATE KEY ") == [CLOSE, Word("ON"), Word("DUPLICATE"), Word("KEY")]
  {
    hide Words, IsName, IsSign;
    Vocabulary();
    var t := Spaced("KEY", []);
    t := Spaced("DUPLICATE", t);
    t := Spaced("ON", t);
    t := Space(t);
    t := SignThen(')', t);
    assert t == ") ON DUPLICATE KEY ";
  }

  lemma UpdatedNow()
    ensures Words("UPDATE updated_at=NOW()") == [Word("UPDATE"), Word("updated_at"), EQUALS, Word("NOW"), OPEN, CLOSE]
  {
    hide Words, IsName, IsSign;
    Vocabulary();
    var t := SignThen(')', []);
    t := Signed("NOW", '(', t);
    t := Signed("updated_at", '=', t);
    t := Spaced("UPDATE", t);
    assert t == "UPDATE updated_at=NOW()";
  }

  lemma SelectId()
    ensures Words("SELECT id FROM torrents ") == [Word("SELECT"), Word("id"), Word("FROM"), Word("torrents")]
  {
    hide Words, IsName, IsSign;
    Vocabulary();
    var t := Spaced("torrents", []);
    t := Spaced("FROM", t);
    t := Spaced("id", t);
    t := Spaced("SELECT", t);
    assert t == "SELECT id FROM torrents ";
  }

  lemma LimitOne()
    ensures Words(" LIMIT 1") == [Word("LIMIT"), Word("1")]
  {
    hide Words, IsName, IsSign;
    Vocabulary();
    var t := Alone("1");
    t := Spaced("LIMIT", t);
    t := Space(t);
    assert t == " LIMIT 1";
  }

  lemma SeenBefore()
    ensures Words("last_seen < DATE_SUB(") == [Word("last_seen"), Sign('<'), Word("DATE_SUB"), OPEN]
  {
    hide Words, IsName, IsSign;
    Vocabulary();
    var t := Signed("DATE_SUB", '(', []);
    t := Space(t);
    t := SignThen('<', t);
    t := Spaced("last_seen", t);
    assert t == "last_seen < DATE_SUB(";
  }

  lemma NowMinus()
    ensures Words("NOW(), INTERVAL ") == [Word("NOW"), OPEN, CLOSE, COMMA, Word("INTERVAL")]
  {
    hide Words, IsName, IsSign;
    Vocabulary();
    var t := Spaced("INTERVAL", []);
    t := Space(t);
    t := SignThen(',', t);
    t := SignThen(')', t);
    t := Signed("NOW", '(', t);
    assert t == "NOW(), INTERVAL ";
  }

  lemma Seconds()
    ensures Words(" SECOND)") == [Word("SECOND"), CLOSE]
  {
    hide Words, IsName, IsSign;
    Vocabulary();
    var t := Signed("SECOND", ')', []);
    t := Space(t);
    assert t == " SECOND)";
  }

  lemma CountFromPeers()
    ensures Words("(SELECT COUNT(*) FROM peers ") ==
      [OPEN, Word("SELECT"), Word("COUNT"), OPEN, Sign('*'), CLOSE, Word("FROM"), Word("peers")]
  {
    hide Words;
    SelectCount();
    FromTable();
    assert "(SELECT COUNT(*) FROM peers " == "(SELECT COUNT(*) " + "FROM peers ";
    WordsConcat("(SELECT COUNT(*) ", "FROM peers ");
  }

  lemma OnDuplicateIp()
    ensures Words(") ON DUPLICATE KEY UPDATE ip=") ==
      [CLOSE, Word("ON"), Word("DUPLICATE"), Word("KEY"), Word("UPDATE"), Word("ip"), EQUALS]
  {
    hide Words;
    OnDuplicateKey();
    UpdateIp();
    assert ") ON DUPLICATE KEY UPDATE ip=" == ") ON DUPLICATE KEY " + "UPDATE ip=";
    WordsConcat(") ON DUPLICATE KEY ", "UPDATE ip=");
  }

  lemma OneMore()
    ensures Words("downloaded = downloaded + 1 ") ==
      [Word("downloaded"), EQUALS, Word("downloaded"), Sign('+'), Word("1")]
  {
    hide Words;
    DownloadedIs();
    DownloadedAndOne();
    assert "downloaded = downloaded + 1 " == "downloaded = " + "downloaded + 1 ";
    WordsConcat("downloaded = ", "downloaded + 1 ");
  }

  lemma SeenSince()
    ensures Words(" AND last_seen > DATE_SUB(") == [Word("AND"), Word("last_seen"), Sign('>'), Word("DATE_SUB"), OPEN]
  {
    hide Words;
    AndSeen();
    DateSub();
    assert " AND last_seen > DATE_SUB(" == " AND last_seen > " + "DATE_SUB(";
    WordsConcat(" AND last_seen > ", "DATE_SUB(");
  }
}
