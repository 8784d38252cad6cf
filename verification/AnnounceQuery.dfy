/**
 Parsing of announce requests: the numbers, the query fields and the record they fill, proved
 against every way of writing a query for a record.
*/
module AnnounceQuery {
  import opened Options
  import opened Text
  import opened Records
  import opened UrlCoding

  // std::stoi and std::stoll

  predicate IsSpace(c: char) {
    c == ' ' || 9 <= c as int <= 13
  }

  function SkipSpace(s: bytes): bytes {
    if s != [] && IsSpace(s[0]) then SkipSpace(s[1..]) else s
  }

  /** Blanks, a sign, and as many digits as there are; text after them is ignored. `None` stands for an exception. */
  function ParseInt(s: bytes, lo: int, hi: int): Option<int> {
    var t := SkipSpace(s);
    var signed := t != [] && (t[0] == '-' || t[0] == '+');
    var d := if signed then t[1..] else t;
    var n := DigitRun(d);
    if n == 0 then None
    else
      var m: int := Value(d[..n]);
      var v := if signed && t[0] == '-' then -m else m;
      if lo <= v <= hi then Some(v) else None
  }

  /** A printed number is read back, whatever non-digit text follows, exactly when it is in range. */
  lemma ParsePrinted(n: int, rest: bytes, lo: int, hi: int)
    requires rest == [] || !IsDigit(rest[0])
    ensures ParseInt(Decimal(n) + rest, lo, hi) == if lo <= n <= hi then Some(n) else None
  {
    if n < 0 {
      ParseNegative(n, "-" + (Digits(-n) + rest), Digits(-n) + rest, rest, lo, hi);
      Assoc3("-", Digits(-n), rest);
    } else {
      ParseNatural(n, Digits(n) + rest, rest, lo, hi);
    }
  }

  lemma ParseNegative(n: int, s: bytes, d: bytes, rest: bytes, lo: int, hi: int)
    requires n < 0
    requires rest == [] || !IsDigit(rest[0])
    requires d == Digits(-n) + rest && s == "-" + d
    ensures ParseInt(s, lo, hi) == if lo <= n <= hi then Some(n) else None
  {
    assert SkipSpace(s) == s && s[1..] == d;
    PrintedStart(-n, rest);
  }

  lemma ParseNatural(m: nat, s: bytes, rest: bytes, lo: int, hi: int)
    requires rest == [] || !IsDigit(rest[0])
    requires s == Digits(m) + rest
    ensures ParseInt(s, lo, hi) == if lo <= m <= hi then Some(m) else None
  {
    PrintedStart(m, rest);
    assert SkipSpace(s) == s;
  }

  lemma PrintedStart(m: nat, rest: bytes)
    requires rest == [] || !IsDigit(rest[0])
    ensures
      var d := Digits(m) + rest;
      DigitRun(d) == |Digits(m)| && Value(d[..|Digits(m)|]) == m && IsDigit(d[0])
  {
    DigitRunOf(Digits(m), rest);
    DigitsValue(m);
    assert Digits(m)[0] in Digits(m);
  }

  lemma BlankIsSkipped(c: char, s: bytes, lo: int, hi: int)
    requires c in " \t\n\r" || c as int == 11 || c as int == 12
    ensures ParseInt([c] + s, lo, hi) == ParseInt(s, lo, hi)
  {
    assert IsSpace(c);
    assert ([c] + s)[1..] == s;
  }

  lemma PlusIsRead(n: nat, rest: bytes, lo: int, hi: int)
    requires rest == [] || !IsDigit(rest[0])
    ensures ParseInt("+" + (Digits(n) + rest), lo, hi) == if lo <= n <= hi then Some(n) else None
  {
    PrintedStart(n, rest);
    hide Digits;
    var s := "+" + (Digits(n) + rest);
    assert s[1..] == Digits(n) + rest && SkipSpace(s) == s;
  }

  /** Blanks and a plus sign in front of a number change nothing. */
  lemma {:induction false} BlanksAreSkipped(blanks: bytes, n: nat, rest: bytes, lo: int, hi: int)
    requires forall c :: c in blanks ==> c in " \t\n\r" || c as int == 11 || c as int == 12
    requires rest == [] || !IsDigit(rest[0])
    ensures ParseInt(blanks + ("+" + (Digits(n) + rest)), lo, hi) == if lo <= n <= hi then Some(n) else None
  {
    hide ParseInt, Digits;
    var s := "+" + (Digits(n) + rest);
    if blanks == [] {
      PlusIsRead(n, rest, lo, hi);
      assert blanks + s == s;
    } else {
      BlanksAreSkipped(blanks[1..], n, rest, lo, hi);
      assert blanks[0] in blanks;
      BlankIsSkipped(blanks[0], blanks[1..] + s, lo, hi);
      assert blanks + s == [blanks[0]] + (blanks[1..] + s);
    }
  }

  function ParsePort(s: bytes): Option<int> {
    ParseInt(s, INT_MIN, INT_MAX)
  }

  function ParseCounter(s: bytes): Option<int> {
    ParseInt(s, LONG_MIN, LONG_MAX)
  }

  // Filling the record

  /** The record with the ids still raw. */
  function Assign(peer: PeerInfo, key: bytes, value: bytes): PeerInfo {
    if key == "info_hash" then peer.(infoHash := value)
    else if key == "peer_id" then peer.(peerId := value)
    else if key == "ip" then peer.(ip := value)
    else if key == "port" then match ParsePort(value) { case Some(n) => peer.(port := n) case None => peer }
    else if key == "uploaded" then match ParseCounter(value) { case Some(n) => peer.(uploaded := n) case None => peer }
    else if key == "downloaded" then
      match ParseCounter(value) { case Some(n) => peer.(downloaded := n) case None => peer }
    else if key == "left" then match ParseCounter(value) { case Some(n) => peer.(left := n) case None => peer }
    else if key == "event" then peer.(event := value)
    else peer
  }

  function AssignPiece(peer: PeerInfo, piece: bytes): PeerInfo {
    var k := Find(piece, '=');
    if k == |piece| then peer else Assign(peer, piece[..k], UrlDecode(piece[k + 1..]))
  }

  function AssignPieces(peer: PeerInfo, pieces: seq<bytes>): PeerInfo {
    Fold(AssignPiece, peer, pieces)
  }

  function Empty(clientIp: bytes): PeerInfo {
    PeerInfo([], [], clientIp, 0, 0, 0, 0, [])
  }

  function HexIds(peer: PeerInfo): PeerInfo {
    peer.(infoHash := Hex(peer.infoHash), peerId := Hex(peer.peerId))
  }

  function ParseAnnounce(query: bytes, clientIp: bytes): PeerInfo {
    HexIds(AssignPieces(Empty(clientIp), Pieces(query)))
  }

  /** parse_announce_request. */
  method ParseAnnounceRequest(query: bytes, clientIp: bytes) returns (peer: PeerInfo)
    ensures peer == ParseAnnounce(query, clientIp)
  {
    peer := ForEachPiece(AssignPiece, Empty(clientIp), query);
    if peer.infoHash != [] {
      var h := BytesToHex(peer.infoHash);
      peer := peer.(infoHash := h);
    }
    if peer.peerId != [] {
      var h := BytesToHex(peer.peerId);
      peer := peer.(peerId := h);
    }
  }

  // What a query means, field by field

  /** A field before encoding, and how its value's bytes are written. */
  datatype Sent = Sent(key: bytes, value: bytes, forms: seq<Form>)

  predicate Sendable(f: Sent) {
    '=' !in f.key && '&' !in f.key && AllLegal(f.value, f.forms)
  }

  predicate AllSendable(fs: seq<Sent>) {
    forall f :: f in fs ==> Sendable(f)
  }

  function Write(fs: seq<Sent>): (pieces: seq<bytes>)
    requires AllSendable(fs)
    ensures |pieces| == |fs|
    ensures forall p :: p in pieces ==> p != [] && '&' !in p
  {
    if fs == [] then []
    else
      assert Sendable(fs[0]);
      [Field(fs[0].key, UrlEncode(fs[0].value, fs[0].forms))] + Write(fs[1..])
  }

  function AssignSent(peer: PeerInfo, fs: seq<Sent>): PeerInfo
    decreases |fs|
  {
    if fs == [] then peer else AssignSent(Assign(peer, fs[0].key, fs[0].value), fs[1..])
  }

  lemma {:induction false} AssignWritten(peer: PeerInfo, fs: seq<Sent>)
    requires AllSendable(fs)
    ensures AssignPieces(peer, Write(fs)) == AssignSent(peer, fs)
    decreases |fs|
  {
    if fs != [] {
      assert fs[0] in fs;
      var encoded := UrlEncode(fs[0].value, fs[0].forms);
      FieldSplits(fs[0].key, encoded);
      DecodeEncode(fs[0].value, fs[0].forms);
      assert Write(fs)[1..] == Write(fs[1..]);
      AssignWritten(Assign(peer, fs[0].key, fs[0].value), fs[1..]);
    }
  }

  /** The value of the last field with this key. */
  function LastText(fs: seq<Sent>, key: bytes, default: bytes): bytes {
    if fs == [] then default
    else
      var f := fs[|fs| - 1];
      if f.key == key then f.value else LastText(fs[..|fs| - 1], key, default)
  }

  /** The value of the last field with this key that holds a number in range. */
  function LastInt(fs: seq<Sent>, key: bytes, lo: int, hi: int): int {
    if fs == [] then 0
    else
      var f := fs[|fs| - 1];
      if f.key == key && ParseInt(f.value, lo, hi).Some? then ParseInt(f.value, lo, hi).value
      else LastInt(fs[..|fs| - 1], key, lo, hi)
  }

  function Received(fs: seq<Sent>, clientIp: bytes): PeerInfo {
    PeerInfo(LastText(fs, "info_hash", []), LastText(fs, "peer_id", []), LastText(fs, "ip", clientIp),
             LastInt(fs, "port", INT_MIN, INT_MAX), LastInt(fs, "uploaded", LONG_MIN, LONG_MAX),
             LastInt(fs, "downloaded", LONG_MIN, LONG_MAX), LastInt(fs, "left", LONG_MIN, LONG_MAX),
             LastText(fs, "event", []))
  }

  lemma {:induction false} AssignSentSnoc(peer: PeerInfo, fs: seq<Sent>, f: Sent)
    ensures AssignSent(peer, fs + [f]) == Assign(AssignSent(peer, fs), f.key, f.value)
    decreases |fs|
  {
    if fs == [] {
      assert AssignSent(peer, [f]) == AssignSent(Assign(peer, f.key, f.value), [f][1..]);
    } else {
      assert (fs + [f])[1..] == fs[1..] + [f];
      AssignSentSnoc(Assign(peer, fs[0].key, fs[0].value), fs[1..], f);
    }
  }

  lemma AssignIsLast(fs: seq<Sent>, clientIp: bytes)
    requires fs != []
    ensures Assign(Received(fs[..|fs| - 1], clientIp), fs[|fs| - 1].key, fs[|fs| - 1].value) == Received(fs, clientIp)
  {
  }

  lemma {:induction false} AssignSentIsReceived(fs: seq<Sent>, clientIp: bytes)
    ensures AssignSent(Empty(clientIp), fs) == Received(fs, clientIp)
  {
    if fs != [] {
      var front := fs[..|fs| - 1];
      AssignSentIsReceived(front, clientIp);
      AssignSentSnoc(Empty(clientIp), front, fs[|fs| - 1]);
      assert front + [fs[|fs| - 1]] == fs;
      AssignIsLast(fs, clientIp);
    }
  }

  /**
   For any list of fields, however the bytes of their values are written: each text field is the
   last one sent, each number the last one sent that parses, and the ids are in lower-case hex.
  */
  lemma QueryMeansLastFields(fs: seq<Sent>, clientIp: bytes)
    requires AllSendable(fs)
    ensures
      var peer := ParseAnnounce(Join(Write(fs)), clientIp);
      && peer.infoHash == Hex(LastText(fs, "info_hash", [])) && peer.peerId == Hex(LastText(fs, "peer_id", []))
      && peer.ip == LastText(fs, "ip", clientIp) && peer.event == LastText(fs, "event", [])
      && peer.port == LastInt(fs, "port", -0x8000_0000, 0x7fff_ffff)
      && peer.uploaded == LastInt(fs, "uploaded", -0x8000_0000_0000_0000, 0x7fff_ffff_ffff_ffff)
      && peer.downloaded == LastInt(fs, "downloaded", -0x8000_0000_0000_0000, 0x7fff_ffff_ffff_ffff)
      && peer.left == LastInt(fs, "left", -0x8000_0000_0000_0000, 0x7fff_ffff_ffff_ffff)
  {
    PiecesOfJoin(Write(fs));
    AssignWritten(Empty(clientIp), fs);
    AssignSentIsReceived(fs, clientIp);
  }

  // Round trip of a record

  /** An announce as a client means it: raw ids, and an address only if it wants to give one. */
  datatype Announce = Announce(infoHash: bytes, peerId: bytes, ip: Option<bytes>, port: int,
                               uploaded: int, downloaded: int, left: int, event: bytes)

  predicate InRange(a: Announce) {
    && INT_MIN <= a.port <= INT_MAX
    && LONG_MIN <= a.uploaded <= LONG_MAX
    && LONG_MIN <= a.downloaded <= LONG_MAX
    && LONG_MIN <= a.left <= LONG_MAX
  }

  /** The value a field must carry, for the keys the tracker knows. */
  function FieldValue(a: Announce, key: bytes): Option<bytes> {
    if key == "info_hash" then Some(a.infoHash)
    else if key == "peer_id" then Some(a.peerId)
    else if key == "ip" then a.ip
    else if key == "port" then Some(Decimal(a.port))
    else if key == "uploaded" then Some(Decimal(a.uploaded))
    else if key == "downloaded" then Some(Decimal(a.downloaded))
    else if key == "left" then Some(Decimal(a.left))
    else if key == "event" then Some(a.event)
    else None
  }

  predicate Known(key: bytes) {
    key == "info_hash" || key == "peer_id" || key == "ip" || key == "port" || key == "uploaded"
    || key == "downloaded" || key == "left" || key == "event"
  }

  /** Every field of the record is sent at least once, in any order, and other fields have other keys. */
  ghost predicate Describes(fs: seq<Sent>, a: Announce) {
    && (forall key :: FieldValue(a, key).Some? ==> exists f :: f in fs && f.key == key)
    && (forall f :: f in fs && Known(f.key) ==> FieldValue(a, f.key) == Some(f.value))
  }

  lemma {:induction false} LastTextIs(fs: seq<Sent>, key: bytes, value: bytes, default: bytes)
    requires forall f :: f in fs && f.key == key ==> f.value == value
    ensures (exists f :: f in fs && f.key == key) ==> LastText(fs, key, default) == value
    ensures (forall f :: f in fs ==> f.key != key) ==> LastText(fs, key, default) == default
  {
    if fs != [] {
      var front := fs[..|fs| - 1];
      var last := fs[|fs| - 1];
      assert fs == front + [last];
      assert last in fs;
      LastTextIs(front, key, value, default);
    }
  }

  lemma {:induction false} LastIntIs(fs: seq<Sent>, key: bytes, n: int, lo: int, hi: int)
    requires forall f :: f in fs && f.key == key ==> f.value == Decimal(n)
    requires exists f :: f in fs && f.key == key
    requires lo <= n <= hi
    ensures LastInt(fs, key, lo, hi) == n
  {
    var front := fs[..|fs| - 1];
    var last := fs[|fs| - 1];
    assert fs == front + [last];
    assert last in fs;
    if last.key == key {
      ParsePrinted(n, [], lo, hi);
      assert Decimal(n) + [] == Decimal(n);
    } else {
      var f :| f in fs && f.key == key;
      assert f in front;
      LastIntIs(front, key, n, lo, hi);
    }
  }

  lemma TextField(fs: seq<Sent>, a: Announce, key: bytes, value: bytes, default: bytes)
    requires Describes(fs, a) && Known(key)
    ensures FieldValue(a, key) == Some(value) ==> LastText(fs, key, default) == value
    ensures FieldValue(a, key) == None ==> LastText(fs, key, default) == default
  {
    if FieldValue(a, key) == Some(value) {
      LastTextIs(fs, key, value, default);
    } else if FieldValue(a, key) == None {
      assert forall f :: f in fs ==> f.key != key;
      LastTextIs(fs, key, value, default);
    }
  }

  lemma IntField(fs: seq<Sent>, a: Announce, key: bytes, n: int, lo: int, hi: int)
    requires Describes(fs, a) && Known(key) && FieldValue(a, key) == Some(Decimal(n)) && lo <= n <= hi
    ensures LastInt(fs, key, lo, hi) == n
  {
    assert exists f :: f in fs && f.key == key;
    LastIntIs(fs, key, n, lo, hi);
  }

  lemma ReceivedIsAnnounce(fs: seq<Sent>, a: Announce, clientIp: bytes)
    requires Describes(fs, a) && InRange(a)
    ensures
      var r := Received(fs, clientIp);
      && r.port == a.port && r.uploaded == a.uploaded && r.downloaded == a.downloaded && r.left == a.left
      && r.infoHash == a.infoHash && r.peerId == a.peerId && r.event == a.event
      && r.ip == (match a.ip { case Some(ip) => ip case None => clientIp })
  {
    IntField(fs, a, "port", a.port, INT_MIN, INT_MAX);
    IntField(fs, a, "uploaded", a.uploaded, LONG_MIN, LONG_MAX);
    IntField(fs, a, "downloaded", a.downloaded, LONG_MIN, LONG_MAX);
    IntField(fs, a, "left", a.left, LONG_MIN, LONG_MAX);
    TextField(fs, a, "info_hash", a.infoHash, []);
    TextField(fs, a, "peer_id", a.peerId, []);
    TextField(fs, a, "event", a.event, []);
    TextField(fs, a, "ip", if a.ip.Some? then a.ip.value else [], clientIp);
  }

  /**
   Any query that sends every field of a record, in any order, repeated or mixed with unknown
   fields, and with any legal writing of each byte, parses to that record with hexadecimal ids.
  */
  lemma AnnounceRoundTrip(fs: seq<Sent>, a: Announce, clientIp: bytes)
    requires AllSendable(fs) && Describes(fs, a) && InRange(a)
    ensures ParseAnnounce(Join(Write(fs)), clientIp) ==
      PeerInfo(Hex(a.infoHash), Hex(a.peerId), match a.ip { case Some(ip) => ip case None => clientIp },
               a.port, a.uploaded, a.downloaded, a.left, a.event)
  {
    QueryMeansLastFields(fs, clientIp);
    ReceivedIsAnnounce(fs, a, clientIp);
    var peer := ParseAnnounce(Join(Write(fs)), clientIp);
    assert peer == HexIds(Received(fs, clientIp));
  }
}
