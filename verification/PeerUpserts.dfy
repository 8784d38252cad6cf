/**
 The upsert of update_peer: its text as it is streamed, that the server receives it exactly when no
 value holds a NUL byte, and the statement that the server then makes of it.
*/
module PeerUpserts {
  import opened Options
  import opened Text
  import opened Records
  import opened SqlText
  import opened SqlSyntax
  import opened SqlWords
  import opened SqlReading

  // What the text is meant to be

  const INSERT_PEER :=
    "INSERT INTO peers (peer_id, " + "torrent_id, info_hash, ip, port, " + "uploaded, downloaded, "
    + "left_to_download, event) " + "VALUES ("

  function Numbers(peer: PeerInfo): bytes {
    ", " + Decimal(peer.port) + ", " + Decimal(peer.uploaded) + ", " + Decimal(peer.downloaded) + ", "
    + Decimal(peer.left) + ", "
  }

  function Assignments(peer: PeerInfo): bytes {
    ", port=" + Decimal(peer.port) + ", uploaded=" + Decimal(peer.uploaded) + ", downloaded=" + Decimal(peer.downloaded)
    + ", left_to_download=" + Decimal(peer.left) + ", event="
  }

  /** The pieces the upsert is meant to consist of. */
  function UpsertPieces(peer: PeerInfo, torrentId: int): seq<Piece> {
    [Code(INSERT_PEER), Lit(peer.peerId),
     Code(", " + Decimal(torrentId) + ", "), Lit(peer.infoHash),
     Code(", "), Lit(peer.ip),
     Code(Numbers(peer)), Lit(peer.event),
     Code(") ON DUPLICATE KEY UPDATE ip="), Lit(peer.ip),
     Code(Assignments(peer)), Lit(peer.event),
     Code(", last_seen=NOW()")]
  }

  // Its code is plain

  lemma FixedFields()
    ensures Fixed(", ") && Fixed(", port=") && Fixed(", uploaded=") && Fixed(", downloaded=")
    ensures Fixed(", left_to_download=") && Fixed(", event=")
  {
  }

  lemma NumbersArePlain(peer: PeerInfo)
    ensures Extendable(Numbers(peer)) && Numbers(peer) != []
  {
    FixedFields();
    NumberExtends([], ", ", peer.port);
    assert [] + ", " == ", ";
    var a := ", " + Decimal(peer.port);
    NumberExtends(a, ", ", peer.uploaded);
    var b := a + ", " + Decimal(peer.uploaded);
    NumberExtends(b, ", ", peer.downloaded);
    var c := b + ", " + Decimal(peer.downloaded);
    NumberExtends(c, ", ", peer.left);
    FixedExtends(c + ", " + Decimal(peer.left), ", ");
  }

  lemma AssignmentsArePlain(peer: PeerInfo)
    ensures Extendable(Assignments(peer)) && Assignments(peer) != []
  {
    FixedFields();
    NumberExtends([], ", port=", peer.port);
    assert [] + ", port=" == ", port=";
    var a := ", port=" + Decimal(peer.port);
    NumberExtends(a, ", uploaded=", peer.uploaded);
    var b := a + ", uploaded=" + Decimal(peer.uploaded);
    NumberExtends(b, ", downloaded=", peer.downloaded);
    var c := b + ", downloaded=" + Decimal(peer.downloaded);
    NumberExtends(c, ", left_to_download=", peer.left);
    FixedExtends(c + ", left_to_download=" + Decimal(peer.left), ", event=");
  }

  lemma TorrentIdIsPlain(torrentId: int)
    ensures Extendable(", " + Decimal(torrentId) + ", ") && ", " + Decimal(torrentId) + ", " != []
  {
    FixedFields();
    NumberExtends([], ", ", torrentId);
    assert [] + ", " == ", ";
    FixedExtends(", " + Decimal(torrentId), ", ");
  }

  lemma InsertWords()
    ensures Fixed("INSERT INTO peers (peer_id, ") && Fixed("torrent_id, info_hash, ip, port, ")
  {
  }

  lemma InsertMoreWords()
    ensures Fixed("uploaded, downloaded, ") && Fixed("left_to_download, event) ") && Fixed("VALUES (")
  {
  }

  lemma InsertIsPlain()
    ensures Extendable(INSERT_PEER) && INSERT_PEER != []
  {
    InsertWords();
    InsertMoreWords();
    var a := "INSERT INTO peers (peer_id, " + "torrent_id, info_hash, ip, port, ";
    FixedConcat("INSERT INTO peers (peer_id, ", "torrent_id, info_hash, ip, port, ");
    FixedConcat(a, "uploaded, downloaded, ");
    FixedConcat(a + "uploaded, downloaded, ", "left_to_download, event) ");
    FixedConcat(a + "uploaded, downloaded, " + "left_to_download, event) ", "VALUES (");
    PlainFixed(INSERT_PEER);
  }

  lemma UpdateWords()
    ensures Fixed(") ON DUPLICATE KEY UPDATE ip=")
  {
  }

  lemma LastWords()
    ensures Fixed(", last_seen=NOW()")
  {
  }

  lemma UpsertCode(peer: PeerInfo, torrentId: int)
    ensures forall i :: 0 <= i < 13 ==> GoodCode(UpsertPieces(peer, torrentId)[i])
  {
    InsertIsPlain();
    TorrentIdIsPlain(torrentId);
    FixedFields();
    PlainFixed(", ");
    NumbersArePlain(peer);
    UpdateWords();
    PlainFixed(") ON DUPLICATE KEY UPDATE ip=");
    AssignmentsArePlain(peer);
    LastWords();
    PlainFixed(", last_seen=NOW()");
  }

  lemma UpsertParity(peer: PeerInfo, torrentId: int)
    ensures forall i :: 0 <= i < 13 ==> (UpsertPieces(peer, torrentId)[i].Code? <==> i % 2 == 0)
  {
    hide Numbers, Assignments, Decimal;
  }

  lemma UpsertAlternates(peer: PeerInfo, torrentId: int)
    ensures Alternates(UpsertPieces(peer, torrentId))
    ensures forall i :: 0 <= i < 13 && UpsertPieces(peer, torrentId)[i].Code? ==>
      CleanPiece(UpsertPieces(peer, torrentId)[i])
  {
    UpsertCode(peer, torrentId);
    UpsertParity(peer, torrentId);
    GoodAlternates(UpsertPieces(peer, torrentId));
  }

  const INSERT_COLUMNS :=
    "INSERT INTO peers (peer_id, " + "torrent_id, info_hash, ip, port, " + "uploaded, downloaded, "

  lemma FirstChunks()
    ensures INSERT_COLUMNS + "left_to_download, event) " + "VALUES ('" == INSERT_PEER + [QUOTE]
  {
    assert "VALUES ('" == "VALUES (" + [QUOTE];
    QuoteAfter(INSERT_COLUMNS + "left_to_download, event) ", "VALUES (", "VALUES ('");
  }

  /** The columns, the peer id, the torrent id and the hash, up to the quote before the address. */
  method WriteKeys(peer: PeerInfo, torrentId: int, peerEsc: bytes, hashEsc: bytes)
    returns (sql: bytes, ghost g: Progress)
    requires peerEsc == Escape(peer.peerId) && hashEsc == Escape(peer.infoHash)
    ensures sql == TextOf(g) && g == Progress(UpsertPieces(peer, torrentId)[..4], ", '")
  {
    hide Escape, Decimal;
    sql := INSERT_COLUMNS + "left_to_download, event) " + "VALUES ('";
    g := Progress([], sql);
    FirstChunks();
    sql, g := PutValue(sql, g, INSERT_PEER, peer.peerId, peerEsc, "', ");
    assert g.open == ", ";
    sql, g := Put(sql, g, Decimal(torrentId));
    sql, g := Put(sql, g, ", '");
    QuoteAfter(", " + Decimal(torrentId), ", ", ", '");
    sql, g := PutValue(sql, g, ", " + Decimal(torrentId) + ", ", peer.infoHash, hashEsc, "', '");
  }

  /** The address and the numbers, up to the quote before the event. */
  method WriteNumbers(sql: bytes, ghost g: Progress, peer: PeerInfo, ipEsc: bytes)
    returns (sql': bytes, ghost g': Progress)
    requires sql == TextOf(g) && g.open == ", '" && ipEsc == Escape(peer.ip)
    ensures sql' == TextOf(g')
    ensures g' == Progress(g.pieces + [Code(", "), Lit(peer.ip)], Numbers(peer) + [QUOTE])
  {
    hide TextOf, Escape, Decimal;
    assert ", '" == ", " + [QUOTE];
    sql', g' := PutValue(sql, g, ", ", peer.ip, ipEsc, "', ");
    assert g'.open == ", ";
    sql', g' := Put(sql', g', Decimal(peer.port));
    sql', g' := Put(sql', g', ", ");
    sql', g' := Put(sql', g', Decimal(peer.uploaded));
    sql', g' := Put(sql', g', ", ");
    sql', g' := Put(sql', g', Decimal(peer.downloaded));
    sql', g' := Put(sql', g', ", ");
    sql', g' := Put(sql', g', Decimal(peer.left));
    QuoteAfter(g'.open, ", ", ", '");
    sql', g' := Put(sql', g', ", '");
  }

  lemma AssignmentChunks()
    ensures ") " + "ON DUPLICATE KEY UPDATE ip='" == ") ON DUPLICATE KEY UPDATE ip=" + [QUOTE]
    ensures "', port="[0] == QUOTE && "', port="[1..] == ", port=" && ", event='" == ", event=" + [QUOTE]
  {
  }

  /** The assignments of the numbers, up to the quote before the event. */
  method WriteNumberAssignments(sql: bytes, ghost g: Progress, peer: PeerInfo)
    returns (sql': bytes, ghost g': Progress)
    requires sql == TextOf(g) && g.open == ", port="
    ensures sql' == TextOf(g') && g' == Progress(g.pieces, Assignments(peer) + [QUOTE])
  {
    hide TextOf, Decimal;
    sql', g' := Put(sql, g, Decimal(peer.port));
    sql', g' := Put(sql', g', ", uploaded=");
    sql', g' := Put(sql', g', Decimal(peer.uploaded));
    sql', g' := Put(sql', g', ", downloaded=");
    sql', g' := Put(sql', g', Decimal(peer.downloaded));
    sql', g' := Put(sql', g', ", left_to_download=");
    sql', g' := Put(sql', g', Decimal(peer.left));
    AssignmentChunks();
    QuoteAfter(g'.open, ", event=", ", event='");
    sql', g' := Put(sql', g', ", event='");
  }

  /** The assignments for a duplicate key, up to the quote before the event. */
  method WriteAssignments(sql: bytes, ghost g: Progress, peer: PeerInfo, ipEsc: bytes)
    returns (sql': bytes, ghost g': Progress)
    requires sql == TextOf(g) && g.open == ") " && ipEsc == Escape(peer.ip)
    ensures sql' == TextOf(g')
    ensures g' == Progress(g.pieces + [Code(") ON DUPLICATE KEY UPDATE ip="), Lit(peer.ip)],
                           Assignments(peer) + [QUOTE])
  {
    hide TextOf, Escape, Assignments;
    AssignmentChunks();
    sql', g' := Put(sql, g, "ON DUPLICATE KEY UPDATE ip='");
    sql', g' := PutValue(sql', g', ") ON DUPLICATE KEY UPDATE ip=", peer.ip, ipEsc, "', port=");
    sql', g' := WriteNumberAssignments(sql', g', peer);
  }

  /** The values of the new row, from the address on. */
  method WriteRow(sql: bytes, ghost g: Progress, peer: PeerInfo, ipEsc: bytes, eventEsc: bytes)
    returns (sql': bytes, ghost g': Progress)
    requires sql == TextOf(g) && g.open == ", '" && ipEsc == Escape(peer.ip) && eventEsc == Escape(peer.event)
    ensures sql' == TextOf(g') && g'.open == ") "
    ensures g'.pieces == g.pieces + [Code(", "), Lit(peer.ip)] + [Code(Numbers(peer)), Lit(peer.event)]
  {
    sql', g' := WriteNumbers(sql, g, peer, ipEsc);
    sql', g' := PutValue(sql', g', Numbers(peer), peer.event, eventEsc, "') ");
    assert g'.open == ") ";
  }

  /** What a duplicate key updates. */
  method WriteUpdate(sql: bytes, ghost g: Progress, peer: PeerInfo, ipEsc: bytes, eventEsc: bytes)
    returns (sql': bytes, ghost g': Progress)
    requires sql == TextOf(g) && g.open == ") " && ipEsc == Escape(peer.ip) && eventEsc == Escape(peer.event)
    ensures sql' == TextOf(g') && g'.open == ", last_seen=NOW()"
    ensures g'.pieces == g.pieces + [Code(") ON DUPLICATE KEY UPDATE ip="), Lit(peer.ip)]
                         + [Code(Assignments(peer)), Lit(peer.event)]
  {
    sql', g' := WriteAssignments(sql, g, peer, ipEsc);
    sql', g' := PutValue(sql', g', Assignments(peer), peer.event, eventEsc, "', last_seen=NOW()");
    assert g'.open == ", last_seen=NOW()";
  }

  lemma AllPieces(peer: PeerInfo, torrentId: int)
    ensures UpsertPieces(peer, torrentId)[..4] + [Code(", "), Lit(peer.ip)] + [Code(Numbers(peer)), Lit(peer.event)]
            + [Code(") ON DUPLICATE KEY UPDATE ip="), Lit(peer.ip)] + [Code(Assignments(peer)), Lit(peer.event)]
            + [Code(", last_seen=NOW()")]
         == UpsertPieces(peer, torrentId)
  {
  }

  lemma UpsertClean(peer: PeerInfo, torrentId: int)
    ensures AllClean(UpsertPieces(peer, torrentId)) <==>
      NUL !in peer.ip && NUL !in peer.event && NUL !in peer.peerId && NUL !in peer.infoHash
  {
    var pieces := UpsertPieces(peer, torrentId);
    assert pieces[1] == Lit(peer.peerId) && pieces[3] == Lit(peer.infoHash);
    assert pieces[5] == Lit(peer.ip) && pieces[7] == Lit(peer.event);
    assert pieces[1] in pieces && pieces[3] in pieces && pieces[5] in pieces && pieces[7] in pieces;
    UpsertAlternates(peer, torrentId);
    if NUL !in peer.ip && NUL !in peer.event && NUL !in peer.peerId && NUL !in peer.infoHash {
      assert forall i :: 0 <= i < 13 ==> CleanPiece(pieces[i]);
    }
  }

  /**
   For every address, event and number: the upsert reaches the server as the intended code and
   values when the address, the event and the ids hold no NUL byte, and is refused otherwise.
  */
  lemma PeerUpsertExactly(peer: PeerInfo, torrentId: int)
    ensures Received(Render(UpsertPieces(peer, torrentId))) ==
      if NUL !in peer.ip && NUL !in peer.event && NUL !in peer.peerId && NUL !in peer.infoHash
      then Some(UpsertPieces(peer, torrentId))
      else None
  {
    UpsertAlternates(peer, torrentId);
    SentStatementExactly(UpsertPieces(peer, torrentId));
    UpsertClean(peer, torrentId);
  }

  // What the server reads

  lemma InsertRead()
    ensures Words(INSERT_PEER) ==
      [Word("INSERT"), Word("INTO"), Word("peers"), OPEN, Word("peer_id"), COMMA]
      + ([Word("torrent_id"), COMMA, Word("info_hash"), COMMA, Word("ip"), COMMA, Word("port"), COMMA]
      + ([Word("uploaded"), COMMA, Word("downloaded"), COMMA]
      + [Word("left_to_download"), COMMA, Word("event"), CLOSE, Word("VALUES"), OPEN]))
  {
    hide Words;
    InsertIntoPeers();
    EndpointColumns();
    TransferColumns();
    LastColumns();
    ValuesOpen();
    var a := "INSERT INTO peers (peer_id, " + "torrent_id, info_hash, ip, port, ";
    WordsConcat("INSERT INTO peers (peer_id, ", "torrent_id, info_hash, ip, port, ");
    WordsConcat(a, "uploaded, downloaded, ");
    WordsConcat(a + "uploaded, downloaded, ", "left_to_download, event) ");
    WordsConcat(a + "uploaded, downloaded, " + "left_to_download, event) ", "VALUES (");
  }

  lemma TorrentIdRead(torrentId: int)
    ensures Words(", " + Decimal(torrentId) + ", ") == [COMMA, Word(Decimal(torrentId)), COMMA]
  {
    hide Words, Decimal;
    CommaAlone();
    NumberThen([], ", ", torrentId);
    assert [] + ", " == ", " && Words([]) == [] by {
      Nothing();
    }
    WordsConcat(", " + Decimal(torrentId), ", ");
  }

  lemma NumbersRead(peer: PeerInfo)
    ensures Words(Numbers(peer)) ==
      [COMMA, Word(Decimal(peer.port)), COMMA, Word(Decimal(peer.uploaded)), COMMA, Word(Decimal(peer.downloaded)),
       COMMA, Word(Decimal(peer.left)), COMMA]
  {
    hide Words, Decimal;
    CommaAlone();
    Nothing();
    NumberThen([], ", ", peer.port);
    assert [] + ", " == ", ";
    var a := ", " + Decimal(peer.port);
    NumberThen(a, ", ", peer.uploaded);
    var b := a + ", " + Decimal(peer.uploaded);
    NumberThen(b, ", ", peer.downloaded);
    var c := b + ", " + Decimal(peer.downloaded);
    NumberThen(c, ", ", peer.left);
    WordsConcat(c + ", " + Decimal(peer.left), ", ");
  }

  lemma AssignmentsRead(peer: PeerInfo)
    ensures Words(Assignments(peer)) ==
      [COMMA, Word("port"), EQUALS, Word(Decimal(peer.port)),
       COMMA, Word("uploaded"), EQUALS, Word(Decimal(peer.uploaded)),
       COMMA, Word("downloaded"), EQUALS, Word(Decimal(peer.downloaded)),
       COMMA, Word("left_to_download"), EQUALS, Word(Decimal(peer.left)), COMMA, Word("event"), EQUALS]
  {
    hide Words, Decimal;
    Nothing();
    PortLabel();
    UploadedLabel();
    DownloadedLabel();
    LeftLabel();
    EventLabel();
    NumberThen([], ", port=", peer.port);
    assert [] + ", port=" == ", port=";
    var a := ", port=" + Decimal(peer.port);
    NumberThen(a, ", uploaded=", peer.uploaded);
    var b := a + ", uploaded=" + Decimal(peer.uploaded);
    NumberThen(b, ", downloaded=", peer.downloaded);
    var c := b + ", downloaded=" + Decimal(peer.downloaded);
    NumberThen(c, ", left_to_download=", peer.left);
    WordsConcat(c + ", left_to_download=" + Decimal(peer.left), ", event=");
  }

  // Lists, from their last element to their first

  lemma NameMore(name: bytes, ts: seq<Token>, names: seq<bytes>, rest: seq<Token>)
    returns (ts': seq<Token>, names': seq<bytes>)
    requires ReadNames(ts) == Some((names, rest))
    ensures ts' == [Word(name), COMMA] + ts && names' == [name] + names && ReadNames(ts') == Some((names', rest))
  {
    hide ReadNames;
    NamesMore(name, ts, names, rest);
    ts', names' := [Word(name), COMMA] + ts, [name] + names;
  }

  lemma QuotedMore(v: bytes, ts: seq<Token>, terms: seq<Term>, rest: seq<Token>)
    returns (ts': seq<Token>, terms': seq<Term>)
    requires ReadTerms(ts) == Some((terms, rest))
    ensures ts' == [Value(v), COMMA] + ts && terms' == [Quoted(v)] + terms && ReadTerms(ts') == Some((terms', rest))
  {
    hide ReadTerms, ReadTerm;
    TermQuoted(v, [COMMA] + ts);
    ts', terms' := [Value(v)] + ([COMMA] + ts), [Quoted(v)] + terms;
    TermsMore(ts', Quoted(v), ts, terms, rest);
    assert [Value(v)] + ([COMMA] + ts) == [Value(v), COMMA] + ts;
  }

  lemma NumberMore(n: int, ts: seq<Token>, terms: seq<Term>, rest: seq<Token>)
    returns (ts': seq<Token>, terms': seq<Term>)
    requires ReadTerms(ts) == Some((terms, rest))
    ensures ts' == [Word(Decimal(n)), COMMA] + ts && terms' == [Number(n)] + terms
    ensures ReadTerms(ts') == Some((terms', rest))
  {
    hide ReadTerms, ReadTerm, Decimal;
    TermNumber(n, [COMMA] + ts);
    ts', terms' := [Word(Decimal(n))] + ([COMMA] + ts), [Number(n)] + terms;
    TermsMore(ts', Number(n), ts, terms, rest);
    assert [Word(Decimal(n))] + ([COMMA] + ts) == [Word(Decimal(n)), COMMA] + ts;
  }

  lemma SetMore(column: bytes, token: Token, term: Term, ts: seq<Token>, assigns: seq<Assign>)
    returns (ts': seq<Token>, assigns': seq<Assign>)
    requires (exists v :: token == Value(v) && term == Quoted(v))
      || (exists n :: token == Word(Decimal(n)) && term == Number(n))
    requires ReadAssigns(ts) == Some((assigns, []))
    ensures ts' == [Word(column), EQUALS, token, COMMA] + ts && assigns' == [Assign(column, Plain(term))] + assigns
    ensures ReadAssigns(ts') == Some((assigns', []))
  {
    hide ReadAssigns, ReadAssign, ReadAmount, ReadTerm, Decimal;
    var value := [token] + ([COMMA] + ts);
    if term.Quoted? {
      TermQuoted(term.value, [COMMA] + ts);
    } else {
      TermNumber(term.n, [COMMA] + ts);
    }
    assert value[1] == COMMA;
    TermAmount(value, term, [COMMA] + ts);
    AssignFirst(column, value, Plain(term), [COMMA] + ts);
    ts', assigns' := [Word(column), Sign('=')] + value, [Assign(column, Plain(term))] + assigns;
    AssignsMore(ts', Assign(column, Plain(term)), ts, assigns, []);
    assert ts' == [Word(column), EQUALS, token, COMMA] + ts;
  }

  // The whole statement

  const PEER_COLUMNS: seq<bytes> :=
    ["peer_id", "torrent_id", "info_hash", "ip", "port", "uploaded", "downloaded", "left_to_download", "event"]

  function TermsOf(peer: PeerInfo, torrentId: int): seq<Term> {
    [Quoted(peer.peerId), Number(torrentId), Quoted(peer.infoHash), Quoted(peer.ip), Number(peer.port),
     Number(peer.uploaded), Number(peer.downloaded), Number(peer.left), Quoted(peer.event)]
  }

  function UpdatesOf(peer: PeerInfo): seq<Assign> {
    [Assign("ip", Plain(Quoted(peer.ip))), Assign("port", Plain(Number(peer.port))),
     Assign("uploaded", Plain(Number(peer.uploaded))), Assign("downloaded", Plain(Number(peer.downloaded))),
     Assign("left_to_download", Plain(Number(peer.left))), Assign("event", Plain(Quoted(peer.event))),
     Assign("last_seen", Plain(Now))]
  }

  function ColumnTokens(): seq<Token> {
    [Word("peer_id"), COMMA, Word("torrent_id"), COMMA, Word("info_hash"), COMMA, Word("ip"), COMMA,
     Word("port"), COMMA,
     Word("uploaded"), COMMA, Word("downloaded"), COMMA, Word("left_to_download"), COMMA, Word("event")]
  }

  function ValueTokens(peer: PeerInfo, torrentId: int): seq<Token> {
    [Value(peer.peerId), COMMA] + ([Word(Decimal(torrentId)), COMMA] + ([Value(peer.infoHash), COMMA]
      + ([Value(peer.ip), COMMA] + ([Word(Decimal(peer.port)), COMMA] + TransferTokens(peer)))))
  }

  function TransferTokens(peer: PeerInfo): seq<Token> {
    [Word(Decimal(peer.uploaded)), COMMA] + ([Word(Decimal(peer.downloaded)), COMMA]
      + ([Word(Decimal(peer.left)), COMMA] + [Value(peer.event)]))
  }

  function SetTokens(column: bytes, token: Token): seq<Token> {
    [Word(column), EQUALS, token, COMMA]
  }

  function UpdateTokens(peer: PeerInfo): seq<Token> {
    SetTokens("ip", Value(peer.ip)) + (SetTokens("port", Word(Decimal(peer.port)))
      + (SetTokens("uploaded", Word(Decimal(peer.uploaded))) + (SetTokens("downloaded", Word(Decimal(peer.downloaded)))
      + (SetTokens("left_to_download", Word(Decimal(peer.left))) + (SetTokens("event", Value(peer.event))
      + [Word("last_seen"), EQUALS, Word("NOW"), OPEN, CLOSE])))))
  }

  lemma ColumnsRead(rest: seq<Token>)
    requires rest == [] || rest[0] != COMMA
    ensures ReadNames(ColumnTokens() + rest) == Some((PEER_COLUMNS, rest))
  {
    hide ReadNames;
    NamesLast("event", rest);
    var ts, names := [Word("event")] + rest, ["event"];
    ts, names := NameMore("left_to_download", ts, names, rest);
    ts, names := NameMore("downloaded", ts, names, rest);
    ts, names := NameMore("uploaded", ts, names, rest);
    ts, names := NameMore("port", ts, names, rest);
    ts, names := NameMore("ip", ts, names, rest);
    ts, names := NameMore("info_hash", ts, names, rest);
    ts, names := NameMore("torrent_id", ts, names, rest);
    ts, names := NameMore("peer_id", ts, names, rest);
    assert ts == ColumnTokens() + rest && names == PEER_COLUMNS;
  }

  lemma ValuesRead(peer: PeerInfo, torrentId: int, rest: seq<Token>)
    requires rest == [] || rest[0] != COMMA
    ensures ReadTerms(ValueTokens(peer, torrentId) + rest) == Some((TermsOf(peer, torrentId), rest))
  {
    hide ReadTerms, ReadTerm, Decimal;
    TermQuoted(peer.event, rest);
    TermsLast([Value(peer.event)] + rest, Quoted(peer.event), rest);
    var ts, terms := [Value(peer.event)] + rest, [Quoted(peer.event)];
    ts, terms := NumberMore(peer.left, ts, terms, rest);
    ts, terms := NumberMore(peer.downloaded, ts, terms, rest);
    ts, terms := NumberMore(peer.uploaded, ts, terms, rest);
    assert ts == TransferTokens(peer) + rest;
    ts, terms := NumberMore(peer.port, ts, terms, rest);
    ts, terms := QuotedMore(peer.ip, ts, terms, rest);
    ts, terms := QuotedMore(peer.infoHash, ts, terms, rest);
    ts, terms := NumberMore(torrentId, ts, terms, rest);
    ts, terms := QuotedMore(peer.peerId, ts, terms, rest);
    assert ts == ValueTokens(peer, torrentId) + rest && terms == TermsOf(peer, torrentId);
  }

  lemma UpdatesRead(peer: PeerInfo)
    ensures ReadAssigns(UpdateTokens(peer)) == Some((UpdatesOf(peer), []))
  {
    hide ReadAssigns, Decimal;
    SetNow("last_seen");
    var ts, assigns := [Word("last_seen"), EQUALS, Word("NOW"), OPEN, CLOSE], [Assign("last_seen", Plain(Now))];
    ts, assigns := SetMore("event", Value(peer.event), Quoted(peer.event), ts, assigns);
    ts, assigns := SetMore("left_to_download", Word(Decimal(peer.left)), Number(peer.left), ts, assigns);
    ts, assigns := SetMore("downloaded", Word(Decimal(peer.downloaded)), Number(peer.downloaded), ts, assigns);
    ts, assigns := SetMore("uploaded", Word(Decimal(peer.uploaded)), Number(peer.uploaded), ts, assigns);
    ts, assigns := SetMore("port", Word(Decimal(peer.port)), Number(peer.port), ts, assigns);
    ts, assigns := SetMore("ip", Value(peer.ip), Quoted(peer.ip), ts, assigns);
    assert assigns == UpdatesOf(peer);
  }

  lemma UpdatePiecesRead(peer: PeerInfo)
    ensures Tokens([Code(") ON DUPLICATE KEY UPDATE ip="), Lit(peer.ip), Code(Assignments(peer)), Lit(peer.event),
                    Code(", last_seen=NOW()")]) == ON_DUPLICATE_UPDATE + UpdateTokens(peer)
  {
    hide Words, Tokens, Decimal;
    OnDuplicateIp();
    AssignmentsRead(peer);
    SeenNow();
    var last := [Code(", last_seen=NOW()")];
    CodeAlone(", last_seen=NOW()");
    var fifth := [Code(Assignments(peer)), Lit(peer.event)] + last;
    LiteralFirst(Assignments(peer), peer.event, last);
    LiteralFirst(") ON DUPLICATE KEY UPDATE ip=", peer.ip, fifth);
    assert [Code(") ON DUPLICATE KEY UPDATE ip="), Lit(peer.ip)] + fifth ==
      [Code(") ON DUPLICATE KEY UPDATE ip="), Lit(peer.ip), Code(Assignments(peer)), Lit(peer.event),
       Code(", last_seen=NOW()")];
  }

  lemma RowPiecesRead(peer: PeerInfo, torrentId: int, rest: seq<Piece>)
    ensures [Value(peer.peerId)] + Tokens([Code(", " + Decimal(torrentId) + ", "), Lit(peer.infoHash)]
              + ([Code(", "), Lit(peer.ip)] + ([Code(Numbers(peer)), Lit(peer.event)] + rest))) ==
      ValueTokens(peer, torrentId) + Tokens(rest)
  {
    hide Words, Tokens, Decimal;
    TorrentIdRead(torrentId);
    CommaAlone();
    NumbersRead(peer);
    var third := [Code(Numbers(peer)), Lit(peer.event)] + rest;
    LiteralFirst(Numbers(peer), peer.event, rest);
    var second := [Code(", "), Lit(peer.ip)] + third;
    LiteralFirst(", ", peer.ip, third);
    LiteralFirst(", " + Decimal(torrentId) + ", ", peer.infoHash, second);
  }

  lemma UpsertTokens(peer: PeerInfo, torrentId: int)
    ensures Tokens(UpsertPieces(peer, torrentId)) ==
      [Word("INSERT"), Word("INTO"), Word("peers"), OPEN] + (ColumnTokens() + ([CLOSE, Word("VALUES"), OPEN]
      + (ValueTokens(peer, torrentId) + (ON_DUPLICATE_UPDATE + UpdateTokens(peer)))))
  {
    hide Words, Tokens, Decimal, ValueTokens, UpdateTokens, Numbers, Assignments;
    InsertRead();
    UpdatePiecesRead(peer);
    var updates := [Code(") ON DUPLICATE KEY UPDATE ip="), Lit(peer.ip), Code(Assignments(peer)), Lit(peer.event),
                    Code(", last_seen=NOW()")];
    RowPiecesRead(peer, torrentId, updates);
    var row := [Code(", " + Decimal(torrentId) + ", "), Lit(peer.infoHash)]
      + ([Code(", "), Lit(peer.ip)] + ([Code(Numbers(peer)), Lit(peer.event)] + updates));
    LiteralFirst(INSERT_PEER, peer.peerId, row);
    assert UpsertPieces(peer, torrentId) == [Code(INSERT_PEER), Lit(peer.peerId)] + row;
    assert Words(INSERT_PEER) ==
      [Word("INSERT"), Word("INTO"), Word("peers"), OPEN] + (ColumnTokens() + [CLOSE, Word("VALUES"), OPEN]);
  }

  lemma UpsertReads(peer: PeerInfo, torrentId: int)
    ensures ReadStatement(Tokens(UpsertPieces(peer, torrentId))) ==
      Some(Insert("peers", PEER_COLUMNS, TermsOf(peer, torrentId), UpdatesOf(peer)))
  {
    hide ReadStatement, ReadInsert, ReadNames, ReadTerms, ReadAssigns, Tokens, UpsertPieces;
    hide ColumnTokens, ValueTokens, UpdateTokens, TermsOf, UpdatesOf;
    UpsertTokens(peer, torrentId);
    UpdatesRead(peer);
    var values := ValueTokens(peer, torrentId) + (ON_DUPLICATE_UPDATE + UpdateTokens(peer));
    ValuesRead(peer, torrentId, ON_DUPLICATE_UPDATE + UpdateTokens(peer));
    var names := ColumnTokens() + ([CLOSE, Word("VALUES"), OPEN] + values);
    ColumnsRead([CLOSE, Word("VALUES"), OPEN] + values);
    InsertBody("peers", names, PEER_COLUMNS, values, TermsOf(peer, torrentId), UpdateTokens(peer), UpdatesOf(peer));
    InsertOf([Word("peers"), OPEN] + names);
    assert [Word("INSERT"), Word("INTO")] + ([Word("peers"), OPEN] + names) ==
      [Word("INSERT"), Word("INTO"), Word("peers"), OPEN] + names;
  }

  lemma UpsertIsUnderstood(peer: PeerInfo, torrentId: int)
    ensures StatementOf(Render(UpsertPieces(peer, torrentId))) ==
      if NUL !in peer.ip && NUL !in peer.event && NUL !in peer.peerId && NUL !in peer.infoHash
      then Some(Insert("peers", PEER_COLUMNS, TermsOf(peer, torrentId), UpdatesOf(peer)))
      else None
  {
    hide ReadStatement, Received, Tokens, Render, UpsertPieces, TermsOf, UpdatesOf;
    PeerUpsertExactly(peer, torrentId);
    UpsertReads(peer, torrentId);
  }

  /**
   The text update_peer sends for its upsert, written chunk by chunk. Unless a value holds a NUL
   byte, the server reads in it a row with every value of the announce in its own column, and the
   same values, but for the keys, with the time of the server for a row that is already there.
  */
  method PeerUpsert(peer: PeerInfo, torrentId: int) returns (sql: bytes)
    ensures sql == Render(UpsertPieces(peer, torrentId))
    ensures StatementOf(sql) ==
      if NUL in peer.ip || NUL in peer.event || NUL in peer.peerId || NUL in peer.infoHash then None
      else
        Some(Insert("peers",
                    ["peer_id", "torrent_id", "info_hash", "ip", "port",
                     "uploaded", "downloaded", "left_to_download", "event"],
                    [Quoted(peer.peerId), Number(torrentId), Quoted(peer.infoHash), Quoted(peer.ip), Number(peer.port),
                     Number(peer.uploaded), Number(peer.downloaded), Number(peer.left), Quoted(peer.event)],
                    [Assign("ip", Plain(Quoted(peer.ip))), Assign("port", Plain(Number(peer.port))),
                     Assign("uploaded", Plain(Number(peer.uploaded))),
                     Assign("downloaded", Plain(Number(peer.downloaded))),
                     Assign("left_to_download", Plain(Number(peer.left))), Assign("event", Plain(Quoted(peer.event))),
                     Assign("last_seen", Plain(Now))]))
  {
    hide StatementOf, UpsertPieces, Render;
    var hashEsc := EscapeValue(peer.infoHash);
    var peerEsc := EscapeValue(peer.peerId);
    var ipEsc := EscapeValue(peer.ip);
    var eventEsc := EscapeValue(peer.event);
    ghost var g;
    sql, g := WriteKeys(peer, torrentId, peerEsc, hashEsc);
    sql, g := WriteRow(sql, g, peer, ipEsc, eventEsc);
    sql, g := WriteUpdate(sql, g, peer, ipEsc, eventEsc);
    RenderSnoc(g.pieces, Code(g.open));
    AllPieces(peer, torrentId);
    UpsertIsUnderstood(peer, torrentId);
  }
}
