/**
 The bencoded announce response and its compact peer list (BEP 3, BEP 23), read back by the
 reference decoder.

 Parsing of an address is the parameter `inet`: the four bytes of an address text, or nothing.
 Results hold for every such function; those that need actual addresses ask only that it
 understands dotted quads, as `DottedQuads` has it.
*/
module AnnounceResponse {
  import opened Options
  import opened Text
  import opened Records
  import opened Bencode

  datatype Response = Response(interval: int, minInterval: int, complete: int, incomplete: int,
                               downloaded: int, peers: seq<PeerInfo>)

  /** The four bytes of an IPv4 address, as they are sent. */
  datatype Address = Address(a: char, b: char, c: char, d: char)

  type Inet = bytes -> Option<Address>

  // What a compact peer list means

  /** Peers with an address that parses, in their order. */
  function Valid(inet: Inet, peers: seq<PeerInfo>): seq<PeerInfo> {
    if peers == [] then []
    else (if inet(peers[0].ip).Some? then [peers[0]] else []) + Valid(inet, peers[1..])
  }

  /** The two low bytes of a port, high byte first. */
  function CompactPort(port: int): bytes {
    [Byte(port / 256 % 256), Byte(port % 256)]
  }

  function CompactPeer(inet: Inet, peer: PeerInfo): bytes
    requires inet(peer.ip).Some?
  {
    var Address(a, b, c, d) := inet(peer.ip).value;
    [a, b, c, d] + CompactPort(peer.port)
  }

  function Compact(inet: Inet, peers: seq<PeerInfo>): bytes {
    if peers == [] then []
    else (if inet(peers[0].ip).Some? then CompactPeer(inet, peers[0]) else []) + Compact(inet, peers[1..])
  }

  /** The reference reader: six bytes a peer, address then port in network order. */
  function ReadPeers(s: bytes): seq<(Address, nat)> {
    if |s| < 6 then []
    else [(Address(s[0], s[1], s[2], s[3]), 256 * (s[4] as int) + s[5] as int)] + ReadPeers(s[6..])
  }

  function Endpoint(inet: Inet, peer: PeerInfo): (Address, nat)
    requires inet(peer.ip).Some?
  {
    (inet(peer.ip).value, peer.port % 65536)
  }

  /** The endpoints of the peers with an address that parses, in their order. */
  function Endpoints(inet: Inet, peers: seq<PeerInfo>): seq<(Address, nat)> {
    if peers == [] then []
    else (if inet(peers[0].ip).Some? then [Endpoint(inet, peers[0])] else []) + Endpoints(inet, peers[1..])
  }

  lemma PortArithmetic(p: int)
    ensures 256 * (p / 256 % 256) + p % 256 == p % 65536
  {
    var q := p / 256;
    assert p == 65536 * (q / 256) + 256 * (q % 256) + p % 256;
  }

  lemma ReadOne(inet: Inet, peer: PeerInfo, rest: bytes)
    requires inet(peer.ip).Some?
    ensures ReadPeers(CompactPeer(inet, peer) + rest) == [Endpoint(inet, peer)] + ReadPeers(rest)
  {
    var s := CompactPeer(inet, peer) + rest;
    assert s[6..] == rest;
    assert Address(s[0], s[1], s[2], s[3]) == inet(peer.ip).value;
    var p := peer.port;
    assert s[4] as int == p / 256 % 256 && s[5] as int == p % 256;
    PortArithmetic(p);
  }

  /** Reading the compact list gives exactly the endpoints of the valid peers, in order, six bytes each. */
  lemma {:induction false} ReadCompact(inet: Inet, peers: seq<PeerInfo>)
    ensures ReadPeers(Compact(inet, peers)) == Endpoints(inet, peers)
    ensures |Compact(inet, peers)| == 6 * |Valid(inet, peers)|
    ensures |Endpoints(inet, peers)| == |Valid(inet, peers)|
  {
    if peers != [] {
      ReadCompact(inet, peers[1..]);
      if inet(peers[0].ip).Some? {
        ReadOne(inet, peers[0], Compact(inet, peers[1..]));
      } else {
        assert Compact(inet, peers) == Compact(inet, peers[1..]);
      }
    }
  }

  /**
   A peer is the four bytes of its address and its port with the high byte first; the port reads back
   as itself exactly when it is in 0..65535, and otherwise only its low 16 bits do.
  */
  lemma PortReadsBack(inet: Inet, peer: PeerInfo)
    requires inet(peer.ip).Some?
    ensures
      var s := CompactPeer(inet, peer);
      && |s| == 6 && Address(s[0], s[1], s[2], s[3]) == inet(peer.ip).value
      && s[4] as int == peer.port / 256 % 256 && s[5] as int == peer.port % 256
    ensures
      var read := ReadPeers(CompactPeer(inet, peer));
      && |read| == 1 && read[0].0 == inet(peer.ip).value && read[0].1 == peer.port % 65536
      && (read[0].1 == peer.port <==> 0 <= peer.port < 65536)
  {
    ReadOne(inet, peer, []);
    assert CompactPeer(inet, peer) + [] == CompactPeer(inet, peer);
  }

  /** The dictionary an announce response stands for. */
  function Meaning(inet: Inet, r: Response): Bencode.Value {
    Dict([
      Entry("complete", Num(r.complete)),
      Entry("downloaded", Num(r.downloaded)),
      Entry("incomplete", Num(r.incomplete)),
      Entry("interval", Num(r.interval)),
      Entry("min interval", Num(r.minInterval)),
      Entry("peers", Str(Compact(inet, r.peers)))
    ])
  }

  /** A label, a number and the closing byte. */
  function NumField(name: bytes, n: int): bytes {
    name + Decimal(n) + "e"
  }

  /** The text bencode_response writes before the peers. */
  function Header(r: Response, validCount: nat): bytes {
    "d"
    + NumField("8:completei", r.complete)
    + NumField("10:downloadedi", r.downloaded)
    + NumField("10:incompletei", r.incomplete)
    + NumField("8:intervali", r.interval)
    + NumField("12:min intervali", r.minInterval)
    + "5:peers" + Decimal(validCount * 6) + ":"
  }

  lemma {:induction false} ValidParses(inet: Inet, peers: seq<PeerInfo>)
    ensures forall p :: p in Valid(inet, peers) ==> inet(p.ip).Some?
    ensures Compact(inet, Valid(inet, peers)) == Compact(inet, peers)
  {
    if peers != [] {
      ValidParses(inet, peers[1..]);
      if inet(peers[0].ip).Some? {
        assert Valid(inet, peers)[1..] == Valid(inet, peers[1..]);
      } else {
        assert Valid(inet, peers) == Valid(inet, peers[1..]);
        assert Compact(inet, peers) == Compact(inet, peers[1..]);
      }
    }
  }

  /** The first loop of bencode_response. */
  method CollectValid(inet: Inet, peers: seq<PeerInfo>) returns (validPeers: seq<PeerInfo>)
    ensures validPeers == Valid(inet, peers)
  {
    validPeers := [];
    for i := 0 to |peers|
      invariant validPeers + Valid(inet, peers[i..]) == Valid(inet, peers)
    {
      assert peers[i..][1..] == peers[i + 1..];
      if inet(peers[i].ip).Some? {
        validPeers := validPeers + [peers[i]];
      }
    }
  }

  lemma CompactFront(inet: Inet, peers: seq<PeerInfo>)
    requires peers != [] && inet(peers[0].ip).Some?
    ensures Compact(inet, peers) == CompactPeer(inet, peers[0]) + Compact(inet, peers[1..])
  {
  }

  /** The second loop, over peers that are known to parse. */
  method WriteCompact(inet: Inet, peers: seq<PeerInfo>) returns (out: bytes)
    requires forall p :: p in peers ==> inet(p.ip).Some?
    ensures out == Compact(inet, peers)
  {
    out := [];
    for i := 0 to |peers|
      invariant out + Compact(inet, peers[i..]) == Compact(inet, peers)
    {
      CompactFront(inet, peers[i..]);
      assert peers[i..][1..] == peers[i + 1..];
      Assoc3(out, CompactPeer(inet, peers[i]), Compact(inet, peers[i + 1..]));
      out := out + CompactPeer(inet, peers[i]);
    }
    assert peers[|peers|..] == [];
  }

  /** Whatever follows it, the text decodes to a dictionary with strictly ascending keys. */
  predicate DecodesTo(text: bytes, rest: bytes, value: Bencode.Value) {
    Decode(text + rest) == Some((value, rest)) && Canonical(value)
  }

  /** Which key of the dictionary carries what. */
  predicate Tells(inet: Inet, r: Response, value: Bencode.Value) {
    && Get(value, "complete") == Some(Num(r.complete))
    && Get(value, "downloaded") == Some(Num(r.downloaded))
    && Get(value, "incomplete") == Some(Num(r.incomplete))
    && Get(value, "interval") == Some(Num(r.interval))
    && Get(value, "min interval") == Some(Num(r.minInterval))
    && Get(value, "peers") == Some(Str(Compact(inet, r.peers)))
  }

  lemma KeysDiffer()
    ensures "complete" != "downloaded" && "complete" != "incomplete" && "complete" != "interval"
    ensures "complete" != "min interval" && "complete" != "peers"
    ensures "downloaded" != "incomplete" && "downloaded" != "interval" && "downloaded" != "min interval"
    ensures "downloaded" != "peers" && "incomplete" != "interval" && "incomplete" != "min interval"
    ensures "incomplete" != "peers" && "interval" != "min interval" && "interval" != "peers"
    ensures "min interval" != "peers"
  {
    assert "complete"[0] != "interval"[0] && "downloaded"[0] != "incomplete"[0];
  }

  lemma MeaningTells(inet: Inet, r: Response)
    ensures Tells(inet, r, Meaning(inet, r))
  {
    var entries := Meaning(inet, r).entries;
    KeysDiffer();
    SearchFinds(entries, "complete", 0);
    SearchFinds(entries, "downloaded", 1);
    SearchFinds(entries, "incomplete", 2);
    SearchFinds(entries, "interval", 3);
    SearchFinds(entries, "min interval", 4);
    SearchFinds(entries, "peers", 5);
  }

  /** bencode_response: what is written reads back, key by key, as the response. */
  method BencodeResponse(inet: Inet, r: Response) returns (out: bytes)
    ensures out == Encode(Meaning(inet, r))
    ensures exists value :: Tells(inet, r, value) && forall rest :: DecodesTo(out, rest, value)
  {
    MeaningTells(inet, r);
    forall rest
      ensures DecodesTo(Encode(Meaning(inet, r)), rest, Meaning(inet, r))
    {
      ResponseDecodes(inet, r, rest);
    }
    var validPeers := CollectValid(inet, r.peers);
    ReadCompact(inet, r.peers);
    ValidParses(inet, r.peers);
    var peers := WriteCompact(inet, validPeers);
    out := Header(r, |validPeers|) + peers + "e";
    HeaderIsEncoded(inet, r, |validPeers|);
  }

  lemma IntervalText(n: int)
    ensures EncodeEntry(Entry("interval", Num(n))) == NumField("8:intervali", n)
  {
    ShortLength("interval");
    NumEntryText("interval", n, "8:intervali");
  }

  lemma MinIntervalText(n: int)
    ensures EncodeEntry(Entry("min interval", Num(n))) == NumField("12:min intervali", n)
  {
    ShortLength("min interval");
    NumEntryText("min interval", n, "12:min intervali");
  }

  lemma PeersText(compact: bytes, validCount: nat)
    requires |compact| == 6 * validCount
    ensures EncodeEntry(Entry("peers", Str(compact))) == "5:peers" + Decimal(validCount * 6) + ":" + compact
  {
    ShortLength("peers");
    assert EncodeStr("peers") == "5:peers";
  }

  /** The text up to the counts. */
  lemma CountsAreEncoded(inet: Inet, r: Response)
    ensures
      "d" + NumField("8:completei", r.complete) + NumField("10:downloadedi", r.downloaded)
      + NumField("10:incompletei", r.incomplete) ==
        "d" + EncodeEntries(Meaning(inet, r).entries[..3])
  {
    CompleteText(r.complete);
    DownloadedText(r.downloaded);
    IncompleteText(r.incomplete);
    var entries := Meaning(inet, r).entries;
    var t: bytes := "d";
    assert t + EncodeEntries([]) == t;
    AppendEntry(t, [], entries[0]);
    AppendEntry(t, entries[..1], entries[1]);
    AppendEntry(t, entries[..2], entries[2]);
    assert [] + [entries[0]] == entries[..1];
    assert entries[..1] + [entries[1]] == entries[..2];
    assert entries[..2] + [entries[2]] == entries[..3];
  }

  lemma HeaderIsEncoded(inet: Inet, r: Response, validCount: nat)
    requires |Compact(inet, r.peers)| == 6 * validCount
    ensures Header(r, validCount) + Compact(inet, r.peers) + "e" == Encode(Meaning(inet, r))
  {
    CountsAreEncoded(inet, r);
    IntervalText(r.interval);
    MinIntervalText(r.minInterval);
    var compact := Compact(inet, r.peers);
    PeersText(compact, validCount);
    var entries := Meaning(inet, r).entries;
    var t: bytes := "d";
    AppendEntry(t, entries[..3], entries[3]);
    AppendEntry(t, entries[..4], entries[4]);
    AppendEntry(t, entries[..5], entries[5]);
    assert entries[..3] + [entries[3]] == entries[..4];
    assert entries[..4] + [entries[4]] == entries[..5];
    assert entries[..5] + [entries[5]] == entries;
    Assoc5(t + EncodeEntries(entries[..5]), "5:peers", Decimal(validCount * 6), ":", compact);
    Assoc4("5:peers", Decimal(validCount * 6), ":", compact);
  }

  lemma KeysAscend(inet: Inet, r: Response)
    ensures Canonical(Meaning(inet, r))
  {
    LessAt("complete", "downloaded", 0);
    LessAt("downloaded", "incomplete", 0);
    LessAt("incomplete", "interval", 2);
    LessAt("interval", "min interval", 0);
    LessAt("min interval", "peers", 0);
  }

  /**
   Whatever follows it, the response decodes to the dictionary it stands for, with strictly
   ascending keys, and leaves what follows.
  */
  lemma ResponseDecodes(inet: Inet, r: Response, rest: bytes)
    ensures Decode(Encode(Meaning(inet, r)) + rest) == Some((Meaning(inet, r), rest))
    ensures Canonical(Meaning(inet, r))
  {
    DecodeEncode(Meaning(inet, r), rest);
    KeysAscend(inet, r);
  }
}
