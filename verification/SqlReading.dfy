/**
 Every statement text of the database manager, read back: the server makes of it exactly the
 statement that is written out here, with the values in their columns.
*/
module SqlReading {
  import opened Options
  import opened Text
  import opened SqlText
  import opened SqlStatements
  import opened SqlSyntax
  import opened SqlWords

  lemma Literals1(a: bytes, v: bytes)
    ensures Tokens([Code(a), Lit(v)]) == Words(a) + [Value(v)]
  {
    hide Words;
    TokensFirst(Lit(v), []);
    TokensFirst(Code(a), [Lit(v)]);
    assert [Code(a)] + [Lit(v)] == [Code(a), Lit(v)] && [Lit(v)] + [] == [Lit(v)];
  }

  lemma CodeAlone(a: bytes)
    ensures Tokens([Code(a)]) == Words(a)
  {
    hide Words;
    TokensFirst(Code(a), []);
    assert [Code(a)] + [] == [Code(a)];
  }

  lemma LiteralFirst(a: bytes, v: bytes, rest: seq<Piece>)
    ensures Tokens([Code(a), Lit(v)] + rest) == Words(a) + ([Value(v)] + Tokens(rest))
  {
    hide Words;
    TokensFirst(Lit(v), rest);
    TokensFirst(Code(a), [Lit(v)] + rest);
    assert [Code(a)] + ([Lit(v)] + rest) == [Code(a), Lit(v)] + rest;
  }

  /** What the server makes of a text with one value, or with two, in it. */
  lemma OneUnderstood(pieces: seq<Piece>, v: bytes)
    requires Arrives(pieces, [v])
    ensures StatementOf(Render(pieces)) == if NUL !in v then ReadStatement(Tokens(pieces)) else None
  {
    hide Received, ReadStatement, Tokens, Render;
    assert (forall x :: x in [v] ==> NUL !in x) <==> NUL !in v;
  }

  lemma TwoUnderstood(pieces: seq<Piece>, v: bytes, w: bytes)
    requires Arrives(pieces, [v, w])
    ensures StatementOf(Render(pieces)) == if NUL !in v && NUL !in w then ReadStatement(Tokens(pieces)) else None
  {
    hide Received, ReadStatement, Tokens, Render;
    assert (forall x :: x in [v, w] ==> NUL !in x) <==> NUL !in v && NUL !in w;
  }

  // The delete of a peer

  lemma DeleteWordsRead()
    ensures Words(DELETE_PEER) == [Word("DELETE"), Word("FROM"), Word("peers"), Word("WHERE"), Word("peer_id"), EQUALS]
  {
    hide Words;
    DeleteFrom();
    PeerIdIs();
    WordsConcat("DELETE FROM peers WHERE ", "peer_id=");
  }

  lemma DeleteTokens(peerId: bytes, hash: bytes)
    ensures Tokens(PeerDelete(peerId, hash)) ==
      [Word("DELETE"), Word("FROM"), Word("peers"), Word("WHERE"),
       Word("peer_id"), EQUALS, Value(peerId), Word("AND"), Word("info_hash"), EQUALS, Value(hash)]
  {
    hide Words;
    DeleteWordsRead();
    AndHash();
    Literals1(" AND info_hash=", hash);
    LiteralFirst(DELETE_PEER, peerId, [Code(" AND info_hash="), Lit(hash)]);
    assert PeerDelete(peerId, hash) == [Code(DELETE_PEER), Lit(peerId)] + [Code(" AND info_hash="), Lit(hash)];
  }

  lemma EqualValue(column: bytes, v: bytes, rest: seq<Token>)
    ensures ReadCond([Word(column), EQUALS, Value(v)] + rest) == Some((Cond(column, Equal, Quoted(v)), rest))
  {
    TermQuoted(v, rest);
    CondFirst(column, Equal, [Value(v)] + rest, Quoted(v), rest);
    assert [Word(column), EQUALS, Value(v)] + rest == [Word(column)] + (RelTokens(Equal) + ([Value(v)] + rest));
  }

  lemma TwoConds(first: seq<Token>, a: Cond, second: seq<Token>, b: Cond, rest: seq<Token>)
    requires ReadCond(first) == Some((a, [Word("AND")] + second))
    requires ReadCond(second) == Some((b, rest)) && (rest == [] || rest[0] != Word("AND"))
    ensures ReadConds(first) == Some(([a, b], rest))
  {
    hide ReadCond, ReadConds;
    CondsLast(second, b, rest);
    CondsMore(first, a, second, [b], rest);
    assert [a] + [b] == [a, b];
  }

  lemma PeerDeleteReads(peerId: bytes, hash: bytes)
    ensures ReadStatement(Tokens(PeerDelete(peerId, hash))) ==
      Some(Delete("peers", [Cond("peer_id", Equal, Quoted(peerId)), Cond("info_hash", Equal, Quoted(hash))]))
  {
    hide ReadStatement, ReadConds, ReadCond, ReadTerm, Tokens, PeerDelete;
    DeleteTokens(peerId, hash);
    var second := [Word("info_hash"), EQUALS, Value(hash)] + [];
    EqualValue("info_hash", hash, []);
    var first := [Word("peer_id"), EQUALS, Value(peerId)] + ([Word("AND")] + second);
    EqualValue("peer_id", peerId, [Word("AND")] + second);
    TwoConds(first, Cond("peer_id", Equal, Quoted(peerId)), second, Cond("info_hash", Equal, Quoted(hash)), []);
    DeleteOf("peers", first, [Cond("peer_id", Equal, Quoted(peerId)), Cond("info_hash", Equal, Quoted(hash))]);
    assert [Word("DELETE"), Word("FROM"), Word("peers"), Word("WHERE")] + first == Tokens(PeerDelete(peerId, hash));
  }

  // The query for peers

  lemma NewestFirstRead(limit: int)
    ensures Words(NEWEST_FIRST + Decimal(limit)) ==
      [Word("ORDER"), Word("BY"), Word("last_seen"), Word("DESC"), Word("LIMIT"), Word(Decimal(limit))]
  {
    hide Words, Decimal;
    ByLastSeen();
    Limit();
    NumberThen(" ORDER BY last_seen DESC ", "LIMIT ", limit);
  }

  lemma QueryTokens(hash: bytes, exclude: bytes, limit: nat)
    ensures Tokens(PeerQuery(hash, exclude, limit)) ==
      [Word("SELECT"), Word("peer_id"), COMMA, Word("ip"), COMMA, Word("port"),
       Word("FROM"), Word("peers"), Word("WHERE"), Word("info_hash"), EQUALS, Value(hash),
       Word("AND"), Word("peer_id"), Sign('!'), EQUALS, Value(exclude),
       Word("ORDER"), Word("BY"), Word("last_seen"), Word("DESC"), Word("LIMIT"), Word(Decimal(limit))]
  {
    hide Words, Tokens;
    SelectEndpoint();
    FromPeers();
    WordsConcat("SELECT peer_id, ip, port ", "FROM peers WHERE info_hash=");
    AndNotPeer();
    NewestFirstRead(limit);
    var last := [Code(NEWEST_FIRST + Decimal(limit))];
    CodeAlone(NEWEST_FIRST + Decimal(limit));
    LiteralFirst(" AND peer_id != ", exclude, last);
    LiteralFirst(SELECT_PEERS, hash, [Code(" AND peer_id != "), Lit(exclude)] + last);
    assert PeerQuery(hash, exclude, limit) ==
      [Code(SELECT_PEERS), Lit(hash)] + ([Code(" AND peer_id != "), Lit(exclude)] + last);
  }

  lemma PeerColumns(rest: seq<Token>)
    requires rest == [] || rest[0] != COMMA
    ensures ReadNames([Word("peer_id"), COMMA, Word("ip"), COMMA, Word("port")] + rest) ==
      Some((["peer_id", "ip", "port"], rest))
  {
    hide ReadNames;
    NamesLast("port", rest);
    NamesMore("ip", [Word("port")] + rest, ["port"], rest);
    NamesMore("peer_id", [Word("ip"), COMMA] + ([Word("port")] + rest), ["ip"] + ["port"], rest);
    assert ["peer_id"] + (["ip"] + ["port"]) == ["peer_id", "ip", "port"];
    assert [Word("peer_id"), COMMA] + ([Word("ip"), COMMA] + ([Word("port")] + rest)) ==
      [Word("peer_id"), COMMA, Word("ip"), COMMA, Word("port")] + rest;
  }

  lemma OtherPeers(hash: bytes, exclude: bytes, tail: seq<Token>)
    requires tail != [] && tail[0] == Word("ORDER")
    ensures ReadConds(
        [Word("info_hash"), EQUALS, Value(hash), Word("AND"), Word("peer_id"), Sign('!'), EQUALS, Value(exclude)]
        + tail) ==
      Some(([Cond("info_hash", Equal, Quoted(hash)), Cond("peer_id", Unequal, Quoted(exclude))], tail))
  {
    hide ReadConds, ReadCond;
    var second := UnequalTokens("peer_id", exclude, tail);
    var first := [Word("info_hash"), EQUALS, Value(hash)] + ([Word("AND")] + second);
    EqualValue("info_hash", hash, [Word("AND")] + second);
    UnequalValue("peer_id", exclude, tail);
    TwoConds(first, Cond("info_hash", Equal, Quoted(hash)), second, Cond("peer_id", Unequal, Quoted(exclude)), tail);
    assert first ==
      [Word("info_hash"), EQUALS, Value(hash), Word("AND"), Word("peer_id"), Sign('!'), EQUALS, Value(exclude)]
                      + tail;
  }

  lemma PeerQueryReads(hash: bytes, exclude: bytes, limit: nat)
    ensures ReadStatement(Tokens(PeerQuery(hash, exclude, limit))) ==
      Some(Select(["peer_id", "ip", "port"], "peers",
                  [Cond("info_hash", Equal, Quoted(hash)), Cond("peer_id", Unequal, Quoted(exclude))],
                  Some("last_seen"), Some(limit)))
  {
    hide ReadStatement, ReadSelect, ReadConds, ReadNames, ReadOrder, ReadLimit, Tokens, PeerQuery, Decimal;
    QueryTokens(hash, exclude, limit);
    var limited := [Word("LIMIT"), Word(Decimal(limit))];
    var tail := [Word("ORDER"), Word("BY"), Word("last_seen"), Word("DESC")] + limited;
    OrderAndLimit(limit);
    OtherPeers(hash, exclude, tail);
    var conds :=
      [Word("info_hash"), EQUALS, Value(hash), Word("AND"), Word("peer_id"), Sign('!'), EQUALS, Value(exclude)] + tail;
    var rest := [Word("FROM"), Word("peers"), Word("WHERE")] + conds;
    PeerColumns(rest);
    var ts := [Word("peer_id"), COMMA, Word("ip"), COMMA, Word("port")] + rest;
    SelectBody(ts, ["peer_id", "ip", "port"], "peers", conds,
               [Cond("info_hash", Equal, Quoted(hash)), Cond("peer_id", Unequal, Quoted(exclude))],
               tail, Some("last_seen"), limited, Some(limit));
    SelectOf(ts);
    assert [Word("SELECT")] + ts == Tokens(PeerQuery(hash, exclude, limit));
  }

  function UnequalTokens(column: bytes, v: bytes, rest: seq<Token>): seq<Token> {
    [Word(column), Sign('!'), EQUALS, Value(v)] + rest
  }

  lemma UnequalValue(column: bytes, v: bytes, rest: seq<Token>)
    ensures ReadCond(UnequalTokens(column, v, rest)) == Some((Cond(column, Unequal, Quoted(v)), rest))
  {
    TermQuoted(v, rest);
    CondFirst(column, Unequal, [Value(v)] + rest, Quoted(v), rest);
    assert UnequalTokens(column, v, rest) == [Word(column)] + (RelTokens(Unequal) + ([Value(v)] + rest));
  }

  lemma OrderAndLimit(limit: int)
    ensures
      var limited := [Word("LIMIT"), Word(Decimal(limit))];
      && ReadOrder([Word("ORDER"), Word("BY"), Word("last_seen"), Word("DESC")] + limited) ==
           (Some("last_seen"), limited)
      && ReadLimit(limited) == Some(Some(limit))
  {
    var limited := [Word("LIMIT"), Word(Decimal(limit))];
    IntOfDecimal(limit);
    assert ([Word("ORDER"), Word("BY"), Word("last_seen"), Word("DESC")] + limited)[4..] == limited;
  }

  // The count of a download

  lemma CountTokens(hash: bytes)
    ensures Tokens(DownloadCount(hash)) ==
      [Word("UPDATE"), Word("torrents"), Word("SET"), Word("downloaded"), EQUALS, Word("downloaded"), Sign('+'),
       Word("1"), Word("WHERE"), Word("info_hash"), EQUALS, Value(hash)]
  {
    hide Words, Tokens;
    UpdateTorrents();
    OneMore();
    WhereHashIs();
    WordsConcat("UPDATE torrents SET ", "downloaded = downloaded + 1 ");
    WordsConcat("UPDATE torrents SET " + "downloaded = downloaded + 1 ", "WHERE info_hash = ");
    Literals1(COUNT_DOWNLOAD, hash);
  }

  lemma OneCond(column: bytes, v: bytes)
    ensures ReadConds([Word(column), EQUALS, Value(v)]) == Some(([Cond(column, Equal, Quoted(v))], []))
  {
    hide ReadCond, ReadConds;
    EqualValue(column, v, []);
    CondsLast([Word(column), EQUALS, Value(v)] + [], Cond(column, Equal, Quoted(v)), []);
    assert [Word(column), EQUALS, Value(v)] + [] == [Word(column), EQUALS, Value(v)];
  }

  lemma OneIsDecimal()
    ensures Decimal(0) == "0" && Decimal(1) == "1" && Decimal(2) == "2"
  {
  }

  lemma PlusOne(column: bytes, rest: seq<Token>)
    ensures ReadAmount([Word(column), Sign('+'), Word("1")] + rest) == Some((Plus(column, 1), rest))
  {
    OneIsDecimal();
    IntOfDecimal(1);
    var ts := [Word(column), Sign('+'), Word("1")] + rest;
    assert ts[0] != COUNT_FROM[0] && ts[3..] == rest;
  }

  lemma DownloadCountReads(hash: bytes)
    ensures ReadStatement(Tokens(DownloadCount(hash))) ==
      Some(Update("torrents", [Assign("downloaded", Plus("downloaded", 1))], [Cond("info_hash", Equal, Quoted(hash))]))
  {
    hide ReadStatement, ReadConds, ReadAssigns, ReadAssign, ReadAmount, Tokens, DownloadCount;
    CountTokens(hash);
    var conds := [Word("info_hash"), EQUALS, Value(hash)];
    OneCond("info_hash", hash);
    var rest := [Word("WHERE")] + conds;
    var amount := [Word("downloaded"), Sign('+'), Word("1")] + rest;
    PlusOne("downloaded", rest);
    AssignFirst("downloaded", amount, Plus("downloaded", 1), rest);
    var ts := [Word("downloaded"), EQUALS] + amount;
    AssignsLast(ts, Assign("downloaded", Plus("downloaded", 1)), rest);
    UpdateOf("torrents", ts, [Assign("downloaded", Plus("downloaded", 1))], conds,
             [Cond("info_hash", Equal, Quoted(hash))]);
    assert [Word("UPDATE"), Word("torrents"), Word("SET")] + ts == Tokens(DownloadCount(hash));
  }

  // The upsert and the lookup of a torrent

  lemma TorrentTokens(hash: bytes)
    ensures Tokens(TorrentUpsert(hash)) ==
      [Word("INSERT"), Word("INTO"), Word("torrents"), OPEN, Word("info_hash"), CLOSE, Word("VALUES"), OPEN,
       Value(hash),
       CLOSE, Word("ON"), Word("DUPLICATE"), Word("KEY"), Word("UPDATE"), Word("updated_at"), EQUALS,
       Word("NOW"), OPEN, CLOSE]
  {
    hide Words, Tokens;
    InsertIntoTorrents();
    HashColumn();
    WordsConcat("INSERT INTO torrents ", "(info_hash) VALUES (");
    OnDuplicateKey();
    UpdatedNow();
    WordsConcat(") ON DUPLICATE KEY ", "UPDATE updated_at=NOW()");
    CodeAlone(ON_DUPLICATE);
    LiteralFirst(INSERT_TORRENT, hash, [Code(ON_DUPLICATE)]);
    assert TorrentUpsert(hash) == [Code(INSERT_TORRENT), Lit(hash)] + [Code(ON_DUPLICATE)];
  }

  lemma SetNow(column: bytes)
    ensures ReadAssigns([Word(column), EQUALS, Word("NOW"), OPEN, CLOSE]) == Some(([Assign(column, Plain(Now))], []))
  {
    hide ReadAssigns, ReadAssign, ReadAmount, ReadTerm;
    var now := [Word("NOW"), OPEN, CLOSE] + [];
    TermNow([]);
    TermAmount(now, Now, []);
    AssignFirst(column, now, Plain(Now), []);
    AssignsLast([Word(column), Sign('=')] + now, Assign(column, Plain(Now)), []);
    assert [Word(column), Sign('=')] + now == [Word(column), EQUALS, Word("NOW"), OPEN, CLOSE];
  }

  lemma TorrentUpsertReads(hash: bytes)
    ensures ReadStatement(Tokens(TorrentUpsert(hash))) ==
      Some(Insert("torrents", ["info_hash"], [Quoted(hash)], [Assign("updated_at", Plain(Now))]))
  {
    hide ReadStatement, ReadInsert, ReadNames, ReadTerms, ReadTerm, ReadAssigns, Tokens, TorrentUpsert;
    TorrentTokens(hash);
    var assigns := [Word("updated_at"), EQUALS, Word("NOW"), OPEN, CLOSE];
    SetNow("updated_at");
    var values := [Value(hash)] + (ON_DUPLICATE_UPDATE + assigns);
    TermQuoted(hash, ON_DUPLICATE_UPDATE + assigns);
    TermsLast(values, Quoted(hash), ON_DUPLICATE_UPDATE + assigns);
    var rest := [CLOSE, Word("VALUES"), OPEN] + values;
    NamesLast("info_hash", rest);
    var names := [Word("info_hash")] + rest;
    InsertBody("torrents", names, ["info_hash"], values, [Quoted(hash)], assigns, [Assign("updated_at", Plain(Now))]);
    InsertOf([Word("torrents"), OPEN] + names);
    assert [Word("INSERT"), Word("INTO")] + ([Word("torrents"), OPEN] + names) == Tokens(TorrentUpsert(hash));
  }

  lemma LookupTokens(hash: bytes)
    ensures Tokens(IdLookup(hash)) ==
      [Word("SELECT"), Word("id"), Word("FROM"), Word("torrents"), Word("WHERE"), Word("info_hash"), EQUALS,
       Value(hash),
       Word("LIMIT"), Word("1")]
  {
    hide Words, Tokens;
    SelectId();
    WhereHash();
    WordsConcat("SELECT id FROM torrents ", "WHERE info_hash=");
    LimitOne();
    CodeAlone(" LIMIT 1");
    LiteralFirst(SELECT_ID, hash, [Code(" LIMIT 1")]);
    assert IdLookup(hash) == [Code(SELECT_ID), Lit(hash)] + [Code(" LIMIT 1")];
  }

  lemma LimitOnly(limit: int)
    ensures
      var limited := [Word("LIMIT"), Word(Decimal(limit))];
      ReadOrder(limited) == (None, limited) && ReadLimit(limited) == Some(Some(limit))
  {
    IntOfDecimal(limit);
  }

  lemma IdLookupReads(hash: bytes)
    ensures ReadStatement(Tokens(IdLookup(hash))) ==
      Some(Select(["id"], "torrents", [Cond("info_hash", Equal, Quoted(hash))], None, Some(1)))
  {
    hide ReadStatement, ReadSelect, ReadConds, ReadCond, ReadNames, ReadOrder, ReadLimit, Tokens, IdLookup, Decimal;
    LookupTokens(hash);
    OneIsDecimal();
    LimitOnly(1);
    var limited := [Word("LIMIT"), Word("1")];
    var conds := [Word("info_hash"), EQUALS, Value(hash)] + limited;
    EqualValue("info_hash", hash, limited);
    CondsLast(conds, Cond("info_hash", Equal, Quoted(hash)), limited);
    var rest := [Word("FROM"), Word("torrents"), Word("WHERE")] + conds;
    NamesLast("id", rest);
    SelectBody([Word("id")] + rest, ["id"], "torrents", conds, [Cond("info_hash", Equal, Quoted(hash))],
               limited, None, limited, Some(1));
    SelectOf([Word("id")] + rest);
    assert [Word("SELECT")] + ([Word("id")] + rest) == Tokens(IdLookup(hash));
  }

  // The cleanup

  lemma ExpiryTokens(seconds: int)
    ensures Tokens(Expiry(seconds)) ==
      [Word("DELETE"), Word("FROM"), Word("peers"), Word("WHERE"), Word("last_seen"), Sign('<'),
       Word("DATE_SUB"), OPEN, Word("NOW"), OPEN, CLOSE, COMMA, Word("INTERVAL"), Word(Decimal(seconds)),
       Word("SECOND"), CLOSE]
  {
    hide Words, Tokens, Decimal;
    DeleteFrom();
    SeenBefore();
    NowMinus();
    WordsConcat("DELETE FROM peers WHERE ", "last_seen < DATE_SUB(");
    NumberThen("DELETE FROM peers WHERE " + "last_seen < DATE_SUB(", "NOW(), INTERVAL ", seconds);
    Seconds();
    WordsConcat(SEEN_BEFORE + Decimal(seconds), " SECOND)");
    CodeAlone(SEEN_BEFORE + Decimal(seconds) + " SECOND)");
  }

  lemma ExpiryReads(seconds: int)
    ensures ReadStatement(Tokens(Expiry(seconds))) == Some(Delete("peers", [Cond("last_seen", Below, Ago(seconds))]))
  {
    hide ReadStatement, ReadConds, ReadCond, ReadTerm, Tokens, Expiry, Decimal;
    ExpiryTokens(seconds);
    var tail := [Word(Decimal(seconds)), Word("SECOND"), CLOSE] + [];
    TermAgo(seconds, "SECOND", []);
    assert |"HOUR"| != |"SECOND"|;
    CondFirst("last_seen", Below, AGO + tail, Ago(seconds), []);
    var conds := [Word("last_seen")] + (RelTokens(Below) + (AGO + tail));
    CondsLast(conds, Cond("last_seen", Below, Ago(seconds)), []);
    DeleteOf("peers", conds, [Cond("last_seen", Below, Ago(seconds))]);
    assert [Word("DELETE"), Word("FROM"), Word("peers"), Word("WHERE")] + conds == Tokens(Expiry(seconds));
  }

  // The refresh

  /** The conditions of a count of recent rows, from the tokens that compare the amount left on. */
  function WindowTokens(rel: Rel, rest: seq<Token>): seq<Token> {
    [Word("left_to_download")] + (RelTokens(rel) + ([Word("0"), Word("AND"), Word("last_seen"), Sign('>')]
      + (AGO + ([Word("2"), Word("HOUR"), CLOSE, CLOSE] + rest))))
  }

  function CountOpen(hash: bytes): seq<Token> {
    COUNT_FROM + [Word("peers"), Word("WHERE"), Word("info_hash"), EQUALS, Value(hash), Word("AND")]
  }

  function Recent(hash: bytes, rel: Rel): seq<Cond> {
    [Cond("info_hash", Equal, Quoted(hash)), Cond("left_to_download", rel, Number(0)),
     Cond("last_seen", Above, Ago(7200))]
  }

  lemma SinceHours(rest: seq<Token>)
    ensures ReadCond([Word("last_seen"), Sign('>')] + (AGO + ([Word("2"), Word("HOUR"), CLOSE] + rest))) ==
      Some((Cond("last_seen", Above, Ago(7200)), rest))
  {
    hide ReadCond, ReadTerm, Decimal;
    OneIsDecimal();
    TermAgo(2, "HOUR", rest);
    var ts := AGO + ([Word(Decimal(2)), Word("HOUR"), CLOSE] + rest);
    CondFirst("last_seen", Above, ts, Ago(7200), rest);
    assert [Word("last_seen")] + (RelTokens(Above) + ts) == [Word("last_seen"), Sign('>')] + ts;
  }

  lemma ComparedToZero(column: bytes, rel: Rel, rest: seq<Token>)
    ensures ReadCond([Word(column)] + (RelTokens(rel) + ([Word("0")] + rest))) ==
      Some((Cond(column, rel, Number(0)), rest))
  {
    hide ReadCond, ReadTerm, Decimal;
    OneIsDecimal();
    TermNumber(0, rest);
    CondFirst(column, rel, [Word(Decimal(0))] + rest, Number(0), rest);
  }

  lemma WindowReads(rel: Rel, rest: seq<Token>)
    ensures ReadConds(WindowTokens(rel, rest)) ==
      Some(([Cond("left_to_download", rel, Number(0)), Cond("last_seen", Above, Ago(7200))], [CLOSE] + rest))
  {
    hide ReadCond, ReadConds;
    var second := [Word("last_seen"), Sign('>')] + (AGO + ([Word("2"), Word("HOUR"), CLOSE] + ([CLOSE] + rest)));
    SinceHours([CLOSE] + rest);
    var first := [Word("left_to_download")] + (RelTokens(rel) + ([Word("0")] + ([Word("AND")] + second)));
    ComparedToZero("left_to_download", rel, [Word("AND")] + second);
    TwoConds(first, Cond("left_to_download", rel, Number(0)), second, Cond("last_seen", Above, Ago(7200)),
             [CLOSE] + rest);
    WindowSplits(rel, rest);
  }

  lemma WindowSplits(rel: Rel, rest: seq<Token>)
    ensures
      var second := [Word("last_seen"), Sign('>')] + (AGO + ([Word("2"), Word("HOUR"), CLOSE] + ([CLOSE] + rest)));
      WindowTokens(rel, rest) ==
        [Word("left_to_download")] + (RelTokens(rel) + ([Word("0")] + ([Word("AND")] + second)))
  {
    assert [Word("2"), Word("HOUR"), CLOSE, CLOSE] + rest == [Word("2"), Word("HOUR"), CLOSE] + ([CLOSE] + rest);
    var tail := AGO + ([Word("2"), Word("HOUR"), CLOSE, CLOSE] + rest);
    assert [Word("0"), Word("AND"), Word("last_seen"), Sign('>')] + tail ==
      [Word("0")] + ([Word("AND")] + ([Word("last_seen"), Sign('>')] + tail));
  }

  lemma CountReads(hash: bytes, rel: Rel, rest: seq<Token>)
    ensures ReadAmount(CountOpen(hash) + WindowTokens(rel, rest)) == Some((CountOf("peers", Recent(hash, rel)), rest))
  {
    hide ReadCond, ReadConds, WindowTokens;
    var more := WindowTokens(rel, rest);
    WindowReads(rel, rest);
    var conds := [Word("info_hash"), EQUALS, Value(hash)] + ([Word("AND")] + more);
    EqualValue("info_hash", hash, [Word("AND")] + more);
    CondsMore(conds, Cond("info_hash", Equal, Quoted(hash)), more,
              [Cond("left_to_download", rel, Number(0)), Cond("last_seen", Above, Ago(7200))], [CLOSE] + rest);
    assert [Cond("info_hash", Equal, Quoted(hash))]
      + [Cond("left_to_download", rel, Number(0)), Cond("last_seen", Above, Ago(7200))] == Recent(hash, rel);
    CountAmount("peers", conds, Recent(hash, rel), rest);
    assert CountOpen(hash) + more == COUNT_FROM + ([Word("peers"), Word("WHERE")] + conds);
  }

  lemma RefreshChunksRead(hash: bytes)
    ensures Words(REFRESH_COMPLETE) + ([Value(hash)] + [Word("AND")]) ==
      [Word("UPDATE"), Word("torrents"), Word("SET"), Word("complete"), EQUALS] + CountOpen(hash)
    ensures Words(COUNT_ROWS) + ([Value(hash)] + [Word("AND")]) == CountOpen(hash)
    ensures Words(IN_WINDOW) ==
      [Word("AND"), Word("last_seen"), Sign('>')] + (AGO + [Word("2"), Word("HOUR"), CLOSE, CLOSE])
  {
    hide Words;
    UpdateTorrents();
    CompleteIs();
    CountFromPeers();
    WhereHash();
    SeenSince();
    InLastHours();
    WordsConcat("(SELECT COUNT(*) FROM peers ", "WHERE info_hash=");
    WordsConcat("UPDATE torrents SET ", "complete = ");
    WordsConcat("UPDATE torrents SET " + "complete = ", COUNT_ROWS);
    WordsConcat(" AND last_seen > DATE_SUB(", "NOW(), INTERVAL 2 HOUR))");
  }

  lemma ThreeLiterals(a: bytes, v: bytes, b: bytes, w: bytes, c: bytes, x: bytes)
    ensures Tokens([Code(a), Lit(v), Code(b), Lit(w), Code(c), Lit(x)]) ==
      Words(a) + ([Value(v)] + (Words(b) + ([Value(w)] + (Words(c) + [Value(x)]))))
  {
    hide Words, Tokens;
    Literals1(c, x);
    LiteralFirst(b, w, [Code(c), Lit(x)]);
    LiteralFirst(a, v, [Code(b), Lit(w), Code(c), Lit(x)]);
    assert [Code(b), Lit(w)] + [Code(c), Lit(x)] == [Code(b), Lit(w), Code(c), Lit(x)];
    assert [Code(a), Lit(v)] + [Code(b), Lit(w), Code(c), Lit(x)] ==
      [Code(a), Lit(v), Code(b), Lit(w), Code(c), Lit(x)];
  }

  /** The text between the two counts, from its first word to the second count's. */
  lemma RefreshMiddleReads(hash: bytes)
    ensures Words(REFRESH_INCOMPLETE) + ([Value(hash)] + [Word("AND")]) ==
      [Word("AND")] + WindowTokens(Equal, [COMMA, Word("incomplete"), EQUALS] + CountOpen(hash))
  {
    hide Words, CountOpen;
    NothingLeft();
    IncompleteIs();
    RefreshChunksRead(hash);
    WordsConcat(" AND left_to_download = 0", IN_WINDOW);
    WordsConcat(" AND left_to_download = 0" + IN_WINDOW, ", incomplete = ");
    WordsConcat(" AND left_to_download = 0" + IN_WINDOW + ", incomplete = ", COUNT_ROWS);
  }

  lemma RefreshEndReads(hash: bytes)
    ensures Words(REFRESH_WHERE) + [Value(hash)] ==
      [Word("AND")] + WindowTokens(Above, [Word("WHERE"), Word("info_hash"), EQUALS, Value(hash)])
  {
    hide Words, CountOpen;
    SomethingLeft();
    SpaceWhereHash();
    RefreshChunksRead(hash);
    WordsConcat(" AND left_to_download > 0", IN_WINDOW);
    WordsConcat(" AND left_to_download > 0" + IN_WINDOW, " WHERE info_hash=");
  }

  lemma WindowAppend(rel: Rel, a: seq<Token>, b: seq<Token>)
    ensures WindowTokens(rel, a) + b == WindowTokens(rel, a + b)
  {
    hide AGO;
    assert [Word("2"), Word("HOUR"), CLOSE, CLOSE] + a + b == [Word("2"), Word("HOUR"), CLOSE, CLOSE] + (a + b);
  }

  lemma JoinTokens(u: seq<Token>, count: seq<Token>, v: seq<Token>, c: seq<Token>, middle: seq<Token>, m: seq<Token>,
                   tail: seq<Token>, t: seq<Token>)
    requires c + (v + [Word("AND")]) == u + count
    requires middle + (v + [Word("AND")]) == [Word("AND")] + m
    requires tail == [Word("AND")] + t
    ensures c + (v + (middle + (v + tail))) == u + (count + (m + t))
  {
    assert middle + (v + tail) == middle + (v + [Word("AND")]) + t;
    assert [Word("AND")] + m + t == [Word("AND")] + (m + t);
    assert c + (v + ([Word("AND")] + (m + t))) == c + (v + [Word("AND")]) + (m + t);
    assert u + count + (m + t) == u + (count + (m + t));
  }

  lemma RefreshTokens(hash: bytes)
    ensures Tokens(CountsRefresh(hash)) ==
      [Word("UPDATE"), Word("torrents"), Word("SET"), Word("complete"), EQUALS]
      + (CountOpen(hash) + WindowTokens(Equal, [COMMA, Word("incomplete"), EQUALS] + (CountOpen(hash)
      + WindowTokens(Above, [Word("WHERE"), Word("info_hash"), EQUALS, Value(hash)]))))
  {
    hide Words, Tokens, CountOpen, WindowTokens;
    RefreshChunksRead(hash);
    RefreshMiddleReads(hash);
    RefreshEndReads(hash);
    ThreeLiterals(REFRESH_COMPLETE, hash, REFRESH_INCOMPLETE, hash, REFRESH_WHERE, hash);
    var head := [Word("UPDATE"), Word("torrents"), Word("SET"), Word("complete"), EQUALS];
    var next := [COMMA, Word("incomplete"), EQUALS];
    var last := WindowTokens(Above, [Word("WHERE"), Word("info_hash"), EQUALS, Value(hash)]);
    JoinTokens(head, CountOpen(hash), [Value(hash)], Words(REFRESH_COMPLETE), Words(REFRESH_INCOMPLETE),
               WindowTokens(Equal, next + CountOpen(hash)), Words(REFRESH_WHERE) + [Value(hash)], last);
    WindowAppend(Equal, next + CountOpen(hash), last);
    assert next + CountOpen(hash) + last == next + (CountOpen(hash) + last);
  }

  lemma CountsRefreshReads(hash: bytes)
    ensures ReadStatement(Tokens(CountsRefresh(hash))) ==
      Some(Update("torrents",
                  [Assign("complete", CountOf("peers", Recent(hash, Equal))),
                   Assign("incomplete", CountOf("peers", Recent(hash, Above)))],
                  [Cond("info_hash", Equal, Quoted(hash))]))
  {
    hide ReadStatement, ReadConds, ReadAssigns, ReadAssign, ReadAmount, Tokens, CountsRefresh, CountOpen, WindowTokens;
    hide Recent;
    RefreshTokens(hash);
    var conds := [Word("info_hash"), EQUALS, Value(hash)];
    OneCond("info_hash", hash);
    var rest := [Word("WHERE")] + conds;
    var leechers := CountOpen(hash) + WindowTokens(Above, rest);
    CountReads(hash, Above, rest);
    AssignFirst("incomplete", leechers, CountOf("peers", Recent(hash, Above)), rest);
    var second := [Word("incomplete"), EQUALS] + leechers;
    AssignsLast(second, Assign("incomplete", CountOf("peers", Recent(hash, Above))), rest);
    var seeders := CountOpen(hash) + WindowTokens(Equal, [COMMA] + second);
    CountReads(hash, Equal, [COMMA] + second);
    AssignFirst("complete", seeders, CountOf("peers", Recent(hash, Equal)), [COMMA] + second);
    var first := [Word("complete"), EQUALS] + seeders;
    var updates := [Assign("complete", CountOf("peers", Recent(hash, Equal))),
                    Assign("incomplete", CountOf("peers", Recent(hash, Above)))];
    AssignsMore(first, updates[0], second, [updates[1]], rest);
    assert [updates[0]] + [updates[1]] == updates;
    UpdateOf("torrents", first, updates, conds, [Cond("info_hash", Equal, Quoted(hash))]);
    assert [COMMA] + second == [COMMA, Word("incomplete"), EQUALS] + leechers;
    assert rest == [Word("WHERE"), Word("info_hash"), EQUALS, Value(hash)];
    assert [Word("UPDATE"), Word("torrents"), Word("SET")] + first ==
      [Word("UPDATE"), Word("torrents"), Word("SET"), Word("complete"), EQUALS] + seeders;
  }
}
