/**
 The statements of the database manager but for the peer upsert: what they are meant to consist of,
 and that the server receives each so, or not at all when a value holds a NUL byte.
*/
module SqlStatements {
  import opened Options
  import opened Text
  import opened SqlText

  // What the statements are meant to be

  const INSERT_TORRENT := "INSERT INTO torrents " + "(info_hash) VALUES ("

  const ON_DUPLICATE := ") ON DUPLICATE KEY " + "UPDATE updated_at=NOW()"

  function TorrentUpsert(hash: bytes): seq<Piece> {
    [Code(INSERT_TORRENT), Lit(hash), Code(ON_DUPLICATE)]
  }

  const SELECT_ID := "SELECT id FROM torrents " + "WHERE info_hash="

  function IdLookup(hash: bytes): seq<Piece> {
    [Code(SELECT_ID), Lit(hash), Code(" LIMIT 1")]
  }

  const DELETE_PEER := "DELETE FROM peers WHERE " + "peer_id="

  function PeerDelete(peerId: bytes, hash: bytes): seq<Piece> {
    [Code(DELETE_PEER), Lit(peerId), Code(" AND info_hash="), Lit(hash)]
  }

  const COUNT_ROWS := "(SELECT COUNT(*) FROM peers " + "WHERE info_hash="

  const IN_WINDOW := " AND last_seen > DATE_SUB(" + "NOW(), INTERVAL 2 HOUR))"

  const REFRESH_COMPLETE := "UPDATE torrents SET " + "complete = " + COUNT_ROWS

  const REFRESH_INCOMPLETE := " AND left_to_download = 0" + IN_WINDOW + ", incomplete = " + COUNT_ROWS

  const REFRESH_WHERE := " AND left_to_download > 0" + IN_WINDOW + " WHERE info_hash="

  function CountsRefresh(hash: bytes): seq<Piece> {
    [Code(REFRESH_COMPLETE), Lit(hash), Code(REFRESH_INCOMPLETE), Lit(hash), Code(REFRESH_WHERE), Lit(hash)]
  }

  const COUNT_DOWNLOAD := "UPDATE torrents SET " + "downloaded = downloaded + 1 " + "WHERE info_hash = "

  function DownloadCount(hash: bytes): seq<Piece> {
    [Code(COUNT_DOWNLOAD), Lit(hash)]
  }

  const SELECT_PEERS := "SELECT peer_id, ip, port " + "FROM peers WHERE info_hash="

  const NEWEST_FIRST := " ORDER BY last_seen DESC " + "LIMIT "

  function PeerQuery(hash: bytes, exclude: bytes, limit: nat): seq<Piece> {
    [Code(SELECT_PEERS), Lit(hash), Code(" AND peer_id != "), Lit(exclude), Code(NEWEST_FIRST + Decimal(limit))]
  }

  const SEEN_BEFORE := "DELETE FROM peers WHERE " + "last_seen < DATE_SUB(" + "NOW(), INTERVAL "

  function Expiry(seconds: int): seq<Piece> {
    [Code(SEEN_BEFORE + Decimal(seconds) + " SECOND)")]
  }

  // How the server receives them

  /** Code and literals alternate, and the code is fixed text. */
  predicate IsFixed(pieces: seq<Piece>) {
    && (forall i :: 0 <= i < |pieces| && pieces[i].Code? ==> Fixed(pieces[i].text))
    && (forall i :: 0 <= i < |pieces| - 1 ==> pieces[i].Code? != pieces[i + 1].Code?)
  }

  lemma FixedIsReceived(pieces: seq<Piece>)
    requires IsFixed(pieces)
    ensures Received(Render(pieces)) == if AllClean(pieces) then Some(pieces) else None
  {
    forall i | 0 <= i < |pieces| && pieces[i].Code?
      ensures pieces[i].text != [] && Plain(pieces[i].text) && CleanPiece(pieces[i])
    {
      PlainFixed(pieces[i].text);
    }
    SentStatementExactly(pieces);
  }

  lemma Fixed3(a: bytes, b: bytes, c: bytes)
    requires Fixed(a) && Fixed(b) && Fixed(c)
    ensures Fixed(a + b + c)
  {
    FixedConcat(a, b);
    FixedConcat(a + b, c);
  }

  lemma TorrentWords()
    ensures Fixed(INSERT_TORRENT) && Fixed(ON_DUPLICATE)
  {
    FixedConcat("INSERT INTO torrents ", "(info_hash) VALUES (");
    FixedConcat(") ON DUPLICATE KEY ", "UPDATE updated_at=NOW()");
  }

  lemma LookupWords()
    ensures Fixed(SELECT_ID) && Fixed(" LIMIT 1")
  {
    FixedConcat("SELECT id FROM torrents ", "WHERE info_hash=");
  }

  lemma DeleteWords()
    ensures Fixed(DELETE_PEER) && Fixed(" AND info_hash=")
  {
    FixedConcat("DELETE FROM peers WHERE ", "peer_id=");
  }

  lemma WindowWords()
    ensures Fixed(COUNT_ROWS) && Fixed(IN_WINDOW)
  {
    FixedConcat("(SELECT COUNT(*) FROM peers ", "WHERE info_hash=");
    FixedConcat(" AND last_seen > DATE_SUB(", "NOW(), INTERVAL 2 HOUR))");
  }

  lemma RefreshWords()
    ensures Fixed(REFRESH_COMPLETE) && Fixed(REFRESH_INCOMPLETE) && Fixed(REFRESH_WHERE)
  {
    WindowWords();
    Fixed3("UPDATE torrents SET ", "complete = ", COUNT_ROWS);
    Fixed3(" AND left_to_download = 0", IN_WINDOW, ", incomplete = ");
    FixedConcat(" AND left_to_download = 0" + IN_WINDOW + ", incomplete = ", COUNT_ROWS);
    Fixed3(" AND left_to_download > 0", IN_WINDOW, " WHERE info_hash=");
  }

  lemma DownloadWords()
    ensures Fixed(COUNT_DOWNLOAD)
  {
    Fixed3("UPDATE torrents SET ", "downloaded = downloaded + 1 ", "WHERE info_hash = ");
  }

  lemma DigitsAreFixed(n: nat)
    ensures Fixed(Decimal(n))
  {
    var d := Digits(n);
    assert forall i :: 0 <= i < |d| ==> d[i] in d;
  }

  lemma QueryWords(limit: nat)
    ensures Fixed(SELECT_PEERS) && Fixed(" AND peer_id != ") && Fixed(NEWEST_FIRST + Decimal(limit))
  {
    FixedConcat("SELECT peer_id, ip, port ", "FROM peers WHERE info_hash=");
    FixedConcat(" ORDER BY last_seen DESC ", "LIMIT ");
    DigitsAreFixed(limit);
    FixedConcat(NEWEST_FIRST, Decimal(limit));
  }

  lemma ExpiryWords(seconds: nat)
    ensures Fixed(SEEN_BEFORE + Decimal(seconds) + " SECOND)")
  {
    Fixed3("DELETE FROM peers WHERE ", "last_seen < DATE_SUB(", "NOW(), INTERVAL ");
    DigitsAreFixed(seconds);
    Fixed3(SEEN_BEFORE, Decimal(seconds), " SECOND)");
  }

  /** Received as intended if no value holds a NUL byte, and refused otherwise. */
  predicate Arrives(pieces: seq<Piece>, values: seq<bytes>) {
    Received(Render(pieces)) == if forall v :: v in values ==> NUL !in v then Some(pieces) else None
  }

  lemma OneValue(pieces: seq<Piece>, hash: bytes)
    requires IsFixed(pieces) && Lit(hash) in pieces
    requires forall p :: p in pieces && p.Lit? ==> p.value == hash
    ensures Arrives(pieces, [hash])
  {
    FixedIsReceived(pieces);
    FixedIsClean(pieces);
    assert AllClean(pieces) <==> NUL !in hash;
  }

  lemma TwoValues(pieces: seq<Piece>, a: bytes, b: bytes)
    requires IsFixed(pieces) && Lit(a) in pieces && Lit(b) in pieces
    requires forall p :: p in pieces && p.Lit? ==> p.value == a || p.value == b
    ensures Arrives(pieces, [a, b])
  {
    FixedIsReceived(pieces);
    FixedIsClean(pieces);
    assert AllClean(pieces) <==> NUL !in a && NUL !in b;
    assert (forall v :: v in [a, b] ==> NUL !in v) <==> NUL !in a && NUL !in b;
  }

  lemma FixedIsClean(pieces: seq<Piece>)
    requires IsFixed(pieces)
    ensures forall p :: p in pieces && p.Code? ==> CleanPiece(p)
  {
    forall p | p in pieces && p.Code?
      ensures CleanPiece(p)
    {
      var i :| 0 <= i < |pieces| && pieces[i] == p;
      PlainFixed(p.text);
    }
  }

  lemma UpsertArrives(hash: bytes)
    ensures Arrives(TorrentUpsert(hash), [hash])
  {
    TorrentWords();
    OneValue(TorrentUpsert(hash), hash);
  }

  lemma LookupArrives(hash: bytes)
    ensures Arrives(IdLookup(hash), [hash])
  {
    LookupWords();
    OneValue(IdLookup(hash), hash);
  }

  lemma RefreshArrives(hash: bytes)
    ensures Arrives(CountsRefresh(hash), [hash])
  {
    RefreshWords();
    OneValue(CountsRefresh(hash), hash);
  }

  lemma DownloadArrives(hash: bytes)
    ensures Arrives(DownloadCount(hash), [hash])
  {
    DownloadWords();
    OneValue(DownloadCount(hash), hash);
  }

  lemma DeleteArrives(peerId: bytes, hash: bytes)
    ensures Arrives(PeerDelete(peerId, hash), [peerId, hash])
  {
    DeleteWords();
    TwoValues(PeerDelete(peerId, hash), peerId, hash);
  }

  lemma QueryArrives(hash: bytes, exclude: bytes, limit: nat)
    ensures Arrives(PeerQuery(hash, exclude, limit), [hash, exclude])
  {
    QueryWords(limit);
    TwoValues(PeerQuery(hash, exclude, limit), hash, exclude);
  }

  lemma ExpiryArrives(seconds: nat)
    ensures Received(Render(Expiry(seconds))) == Some(Expiry(seconds))
  {
    ExpiryWords(seconds);
    FixedIsReceived(Expiry(seconds));
    FixedIsClean(Expiry(seconds));
  }

  /**
   For all values, each of these statements reaches the server as intended when no value in it holds
   a NUL byte, and is refused otherwise.
  */
  lemma StatementsArrive(hash: bytes, peerId: bytes, limit: nat)
    ensures Arrives(TorrentUpsert(hash), [hash]) && Arrives(IdLookup(hash), [hash])
    ensures Arrives(CountsRefresh(hash), [hash]) && Arrives(DownloadCount(hash), [hash])
    ensures Arrives(PeerDelete(peerId, hash), [peerId, hash])
    ensures Arrives(PeerQuery(hash, peerId, limit), [hash, peerId])
  {
    UpsertArrives(hash);
    LookupArrives(hash);
    RefreshArrives(hash);
    DownloadArrives(hash);
    DeleteArrives(peerId, hash);
    QueryArrives(hash, peerId, limit);
  }
}
