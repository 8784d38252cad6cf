/** Scrape requests: the hashes asked for, and the bencoded answer, read back by the reference decoder. */
module Scrape {
  import opened Options
  import opened Text
  import opened Records
  import opened UrlCoding
  import opened Bencode

  // The multi-valued query string

  type Params = map<bytes, seq<bytes>>

  function ValuesOf(params: Params, key: bytes): seq<bytes> {
    if key in params then params[key] else []
  }

  function AddValue(params: Params, key: bytes, value: bytes): Params {
    params[key := ValuesOf(params, key) + [value]]
  }

  function AddPair(params: Params, pair: bytes): Params {
    var k := Find(pair, '=');
    if k == |pair| then params else AddValue(params, UrlDecode(pair[..k]), UrlDecode(pair[k + 1..]))
  }

  /** parse_qs_multi. */
  method ParseQsMulti(query: bytes) returns (params: Params)
    ensures params == Fold(AddPair, map[], Pieces(query))
  {
    params := ForEachPiece(AddPair, map[], query);
  }

  // Which hashes a query asks for

  const KEY := "info_hash"

  /** The raw values of the query's `info_hash` key. */
  function Requested(query: bytes): seq<bytes> {
    ValuesOf(Fold(AddPair, map[], Pieces(query)), KEY)
  }

  /** The decoded value of a piece, if it has an '=' and its decoded key is `key`. */
  function ValueIn(piece: bytes, key: bytes): Option<bytes> {
    var k := Find(piece, '=');
    if k < |piece| && UrlDecode(piece[..k]) == key then Some(UrlDecode(piece[k + 1..])) else None
  }

  function ValuesIn(pieces: seq<bytes>, key: bytes): seq<bytes> {
    if pieces == [] then []
    else
      (match ValueIn(pieces[0], key) case Some(value) => [value] case None => []) + ValuesIn(pieces[1..], key)
  }

  lemma AddPairValues(params: Params, piece: bytes, key: bytes)
    ensures ValuesOf(AddPair(params, piece), key) ==
      ValuesOf(params, key) + match ValueIn(piece, key) case Some(value) => [value] case None => []
  {
  }

  lemma {:induction false} FoldIsValues(params: Params, pieces: seq<bytes>, key: bytes)
    ensures ValuesOf(Fold(AddPair, params, pieces), key) == ValuesOf(params, key) + ValuesIn(pieces, key)
    decreases |pieces|
  {
    if pieces != [] {
      AddPairValues(params, pieces[0], key);
      FoldIsValues(AddPair(params, pieces[0]), pieces[1..], key);
    }
  }

  /**
   For every query: what is asked for are the values of the pieces whose key decodes to `info_hash`,
   in order and with repetitions; pieces without '=' and other fields do not matter.
  */
  lemma RequestedExactly(query: bytes)
    ensures Requested(query) == ValuesIn(Pieces(query), "info_hash")
  {
    FoldIsValues(map[], Pieces(query), KEY);
  }

  /** A field before encoding and how its bytes are written, or a piece without '='. */
  datatype Sent =
    | Pair(key: bytes, keyForms: seq<Form>, value: bytes, valueForms: seq<Form>)
    | Bare(text: bytes)

  predicate Sendable(f: Sent) {
    match f
    case Pair(key, keyForms, value, valueForms) =>
      AllLegal(key, keyForms) && AllLegal(value, valueForms) && '=' !in UrlEncode(key, keyForms)
    case Bare(text) => '=' !in text && '&' !in text
  }

  predicate AllSendable(fs: seq<Sent>) {
    forall f :: f in fs ==> Sendable(f)
  }

  function WriteOne(f: Sent): (piece: bytes)
    requires Sendable(f)
    ensures '&' !in piece
  {
    match f
    case Pair(key, keyForms, value, valueForms) => Field(UrlEncode(key, keyForms), UrlEncode(value, valueForms))
    case Bare(text) => text
  }

  function Write(fs: seq<Sent>): (pieces: seq<bytes>)
    requires AllSendable(fs)
    ensures |pieces| == |fs|
    ensures forall p :: p in pieces ==> '&' !in p
  {
    if fs == [] then []
    else
      assert fs[0] in fs;
      [WriteOne(fs[0])] + Write(fs[1..])
  }

  /** The values a client sends with the key `info_hash`. */
  function Asked(fs: seq<Sent>): seq<bytes> {
    if fs == [] then [] else (if fs[0].Pair? && fs[0].key == "info_hash" then [fs[0].value] else []) + Asked(fs[1..])
  }

  lemma ValueOfSent(f: Sent)
    requires Sendable(f)
    ensures ValueIn(WriteOne(f), KEY) == if f.Pair? && f.key == KEY then Some(f.value) else None
  {
    match f
    case Pair(key, keyForms, value, valueForms) =>
      UrlCoding.DecodeEncode(key, keyForms);
      UrlCoding.DecodeEncode(value, valueForms);
      FieldSplits(UrlEncode(key, keyForms), UrlEncode(value, valueForms));
    case Bare(text) =>
  }

  lemma {:induction false} ValuesOfSent(fs: seq<Sent>)
    requires AllSendable(fs)
    ensures ValuesIn(Write(fs), KEY) == Asked(fs)
  {
    if fs != [] {
      assert fs[0] in fs;
      ValueOfSent(fs[0]);
      assert Write(fs)[1..] == Write(fs[1..]);
      ValuesOfSent(fs[1..]);
    }
  }

  lemma {:induction false} TrimKeepsValues(pieces: seq<bytes>, key: bytes)
    ensures ValuesIn(Trim(pieces), key) == ValuesIn(pieces, key)
  {
    if |pieces| == 1 {
      assert ValueIn([], key) == None;
    } else if pieces != [] {
      assert pieces == [pieces[0]] + pieces[1..];
      TrimCons(pieces[0], pieces[1..]);
      TrimKeepsValues(pieces[1..], key);
    }
  }

  /**
   However a client writes its query, with any fields in any order, keys and values in any legal
   writing and pieces without '=' among them: the tracker reads the hashes the client asked for, in
   order and with repetitions.
  */
  lemma QueryGivesHashes(fs: seq<Sent>)
    requires AllSendable(fs)
    ensures Requested(Join(Write(fs))) == Asked(fs)
  {
    PiecesOfJoin(Write(fs));
    RequestedExactly(Join(Write(fs)));
    TrimKeepsValues(Write(fs), KEY);
    ValuesOfSent(fs);
  }

  // The answer

  /** get_torrent_info by hexadecimal hash, with zeros for a torrent the table does not hold. */
  type Lookup = bytes -> Stats

  /** The hashes of exactly twenty bytes, in their order. */
  function TwentyByte(raws: seq<bytes>): seq<bytes> {
    if raws == [] then [] else (if |raws[0]| == 20 then [raws[0]] else []) + TwentyByte(raws[1..])
  }

  function StatsValue(st: Stats): Bencode.Value {
    Dict([Entry("complete", Num(st.complete)),
          Entry("incomplete", Num(st.incomplete)),
          Entry("downloaded", Num(st.downloaded))])
  }

  /** Which key of a file carries which column. */
  predicate Tells(st: Stats, file: Bencode.Value) {
    && Get(file, "complete") == Some(Num(st.complete))
    && Get(file, "incomplete") == Some(Num(st.incomplete))
    && Get(file, "downloaded") == Some(Num(st.downloaded))
  }

  lemma StatsAreTold(st: Stats)
    ensures Tells(st, StatsValue(st))
  {
    var entries := StatsValue(st).entries;
    assert "incomplete"[0] != "downloaded"[0];
    SearchFinds(entries, "complete", 0);
    SearchFinds(entries, "incomplete", 1);
    SearchFinds(entries, "downloaded", 2);
  }

  function Files(raws: seq<bytes>, lookup: Lookup): seq<Entry> {
    if raws == [] then []
    else (if |raws[0]| == 20 then [Entry(raws[0], StatsValue(lookup(Hex(raws[0]))))] else []) + Files(raws[1..], lookup)
  }

  /** What a scrape response stands for: a dictionary of the files, keyed by raw hash, in query order. */
  function Meaning(raws: seq<bytes>, lookup: Lookup): Bencode.Value {
    Dict([Entry("files", Dict(Files(raws, lookup)))])
  }

  function FileText(raw: bytes, st: Stats): bytes {
    "20:" + raw + "d"
    + ("8:completei" + Decimal(st.complete) + "e")
    + ("10:incompletei" + Decimal(st.incomplete) + "e")
    + ("10:downloadedi" + Decimal(st.downloaded) + "e")
    + "e"
  }

  lemma StatsText(st: Stats)
    ensures Encode(StatsValue(st)) == "d"
      + ("8:completei" + Decimal(st.complete) + "e")
      + ("10:incompletei" + Decimal(st.incomplete) + "e")
      + ("10:downloadedi" + Decimal(st.downloaded) + "e")
      + "e"
  {
    CompleteText(st.complete);
    IncompleteText(st.incomplete);
    DownloadedText(st.downloaded);
    var entries := StatsValue(st).entries;
    var t: bytes := "d";
    assert t + EncodeEntries([]) == t;
    AppendEntry(t, [], entries[0]);
    AppendEntry(t, entries[..1], entries[1]);
    AppendEntry(t, entries[..2], entries[2]);
    assert [] + [entries[0]] == entries[..1];
    assert entries[..1] + [entries[1]] == entries[..2];
    assert entries[..2] + [entries[2]] == entries;
  }

  lemma FileIsEncoded(raw: bytes, st: Stats)
    requires |raw| == 20
    ensures FileText(raw, st) == EncodeEntry(Entry(raw, StatsValue(st)))
  {
    ShortLength(raw);
    StatsText(st);
    assert EncodeStr(raw) == "20:" + raw;
    var a := "8:completei" + Decimal(st.complete) + "e";
    var b := "10:incompletei" + Decimal(st.incomplete) + "e";
    var c := "10:downloadedi" + Decimal(st.downloaded) + "e";
    Assoc6("20:" + raw, "d", a, b, c, "e");
    Assoc5("d", a, b, c, "e");
  }

  /** The text handle_scrape writes for the hashes it kept, in hexadecimal. */
  function FileTexts(raws: seq<bytes>, lookup: Lookup): bytes {
    if raws == [] then []
    else (if |raws[0]| == 20 then FileText(raws[0], lookup(Hex(raws[0]))) else []) + FileTexts(raws[1..], lookup)
  }

  lemma {:induction false} FileTextsEncode(raws: seq<bytes>, lookup: Lookup)
    ensures FileTexts(raws, lookup) == EncodeEntries(Files(raws, lookup))
  {
    if raws != [] {
      FileTextsEncode(raws[1..], lookup);
      if |raws[0]| == 20 {
        var st := lookup(Hex(raws[0]));
        FileIsEncoded(raws[0], st);
        var f := Entry(raws[0], StatsValue(st));
        assert Files(raws, lookup)[1..] == Files(raws[1..], lookup);
      } else {
        assert Files(raws, lookup) == Files(raws[1..], lookup);
        assert FileTexts(raws, lookup) == FileTexts(raws[1..], lookup);
      }
    }
  }

  /** The first loop of handle_scrape: the valid hashes, in hexadecimal. */
  function ValidHexes(raws: seq<bytes>): seq<bytes> {
    if raws == [] then [] else (if IsId(Hex(raws[0])) then [Hex(raws[0])] else []) + ValidHexes(raws[1..])
  }

  method CollectHashes(raws: seq<bytes>) returns (hashes: seq<bytes>)
    ensures hashes == ValidHexes(raws)
  {
    hashes := [];
    for i := 0 to |raws|
      invariant hashes + ValidHexes(raws[i..]) == ValidHexes(raws)
    {
      assert raws[i..][1..] == raws[i + 1..];
      var hex := BytesToHex(raws[i]);
      var ok := IsHexString(hex, 40);
      if ok {
        hashes := hashes + [hex];
      }
    }
  }

  /** The inner loop of handle_scrape: the hexadecimal text back to bytes. */
  method HexToRaw(hash: bytes) returns (raw: bytes)
    ensures raw == Unhex(hash)
  {
    raw := [];
    var i := 0;
    while i + 1 < |hash|
      invariant i <= |hash|
      invariant raw + Unhex(hash[i..]) == Unhex(hash)
    {
      assert hash[i..][2..] == hash[i + 2..];
      var hi := HexNibble(hash[i]);
      var lo := HexNibble(hash[i + 1]);
      if hi >= 0 && lo >= 0 {
        Assoc3(raw, [Byte(16 * hi + lo)], Unhex(hash[i + 2..]));
        raw := raw + [Byte(16 * hi + lo)];
      }
      i := i + 2;
    }
  }

  function Flat(text: bytes -> bytes, xs: seq<bytes>): bytes {
    if xs == [] then [] else text(xs[0]) + Flat(text, xs[1..])
  }

  /** What the main loop writes for one hash. */
  function HexText(lookup: Lookup): bytes -> bytes {
    (hash: bytes) => FileText(Unhex(hash), lookup(hash))
  }

  function HexTexts(hashes: seq<bytes>, lookup: Lookup): bytes {
    Flat(HexText(lookup), hashes)
  }

  lemma {:induction false} HexTextsAreFileTexts(raws: seq<bytes>, lookup: Lookup)
    requires forall raw :: raw in raws ==> IsBytes(raw)
    ensures HexTexts(ValidHexes(raws), lookup) == FileTexts(raws, lookup)
  {
    if raws != [] {
      assert raws[0] in raws;
      assert forall raw :: raw in raws[1..] ==> raw in raws;
      HexTextsAreFileTexts(raws[1..], lookup);
      HexIsId(raws[0]);
      UnhexHex(raws[0]);
      if |raws[0]| == 20 {
        assert ValidHexes(raws)[1..] == ValidHexes(raws[1..]);
      } else {
        assert ValidHexes(raws) == ValidHexes(raws[1..]);
        assert FileTexts(raws, lookup) == FileTexts(raws[1..], lookup);
      }
    }
  }

  lemma FrameText(files: seq<Entry>)
    ensures "d5:filesd" + EncodeEntries(files) + "ee" == Encode(Dict([Entry("files", Dict(files))]))
  {
    ShortLength("files");
    var e := Entry("files", Dict(files));
    assert [e][1..] == [];
    assert EncodeEntries([e]) == EncodeEntry(e) + [];
    assert "d5:filesd" == "d" + EncodeStr("files") + "d";
    var k, f: bytes := EncodeStr("files"), EncodeEntries(files);
    assert "ee" == "e" + "e";
    Assoc6("d", k, "d", f, "e", "e");
    Assoc5("d", k, "d", f, "e" + "e");
    Assoc3("d", k + ("d" + f + "e"), "e");
    Assoc3(k, "d" + f + "e", "e");
    Assoc4("d", f, "e", "e");
  }

  lemma {:induction false} DecodeIsBytes(s: bytes, i: nat)
    requires IsBytes(s) && i <= |s|
    ensures IsBytes(DecodeFrom(s, i))
    decreases |s| - i
  {
    if i < |s| {
      DecodeIsBytes(s, i + UnitWidth(s, i));
    }
  }

  predicate BytesOnly(params: Params) {
    forall key, i :: key in params && 0 <= i < |params[key]| ==> IsBytes(params[key][i])
  }

  lemma AddIsBytes(params: Params, pair: bytes)
    requires IsBytes(pair) && BytesOnly(params)
    ensures BytesOnly(AddPair(params, pair))
  {
    var k := Find(pair, '=');
    if k < |pair| {
      DecodeIsBytes(pair[k + 1..], 0);
    }
  }

  lemma {:induction false} FoldIsBytes(params: Params, pieces: seq<bytes>)
    requires (forall i :: 0 <= i < |pieces| ==> IsBytes(pieces[i])) && BytesOnly(params)
    ensures BytesOnly(Fold(AddPair, params, pieces))
    decreases |pieces|
  {
    if pieces != [] {
      AddIsBytes(params, pieces[0]);
      FoldIsBytes(AddPair(params, pieces[0]), pieces[1..]);
    }
  }

  lemma {:induction false} PiecesAreBytes(s: bytes)
    requires IsBytes(s)
    ensures forall i :: 0 <= i < |Pieces(s)| ==> IsBytes(Pieces(s)[i])
    decreases |s|
  {
    if s != [] && Find(s, '&') < |s| {
      PiecesAreBytes(s[Find(s, '&') + 1..]);
    }
  }

  lemma RequestedAreBytes(query: bytes)
    requires IsBytes(query)
    ensures forall raw :: raw in Requested(query) ==> IsBytes(raw)
  {
    PiecesAreBytes(query);
    FoldIsBytes(map[], Pieces(query));
  }

  /** What handle_scrape writes is the encoding of what it stands for. */
  lemma WrittenIsEncoded(query: bytes, lookup: Lookup)
    requires IsBytes(query)
    ensures
      var raws := Requested(query);
      "d5:filesd" + HexTexts(ValidHexes(raws), lookup) + "ee" == Encode(Meaning(raws, lookup))
  {
    var raws := Requested(query);
    RequestedAreBytes(query);
    HexTextsAreFileTexts(raws, lookup);
    FileTextsEncode(raws, lookup);
    FrameText(Files(raws, lookup));
  }

  // Main results

  lemma {:induction false} FilesAre(raws: seq<bytes>, lookup: Lookup)
    ensures |Files(raws, lookup)| == |TwentyByte(raws)|
    ensures forall i :: 0 <= i < |TwentyByte(raws)| ==>
      Files(raws, lookup)[i] == Entry(TwentyByte(raws)[i], StatsValue(lookup(Hex(TwentyByte(raws)[i]))))
  {
    if raws != [] {
      FilesAre(raws[1..], lookup);
    }
  }

  /**
   Whatever a query asks for and however it is written, and whatever follows the response, it
   decodes to one entry for each requested hash of twenty bytes, in query order, keyed by the very
   bytes asked for and telling the counts of that torrent under their keys.
  */
  lemma ScrapeRoundTrip(fs: seq<Sent>, lookup: Lookup, rest: bytes)
    requires AllSendable(fs)
    ensures
      var raws := Requested(Join(Write(fs)));
      var wanted := TwentyByte(Asked(fs));
      var files := Files(raws, lookup);
      && Decode(Encode(Meaning(raws, lookup)) + rest) == Some((Dict([Entry("files", Dict(files))]), rest))
      && |files| == |wanted|
      && forall i :: 0 <= i < |wanted| ==> files[i].key == wanted[i] && Tells(lookup(Hex(wanted[i])), files[i].value)
  {
    QueryGivesHashes(fs);
    Bencode.DecodeEncode(Meaning(Asked(fs), lookup), rest);
    FilesAre(Asked(fs), lookup);
    forall i | 0 <= i < |TwentyByte(Asked(fs))|
      ensures Tells(lookup(Hex(TwentyByte(Asked(fs))[i])), Files(Asked(fs), lookup)[i].value)
    {
      StatsAreTold(lookup(Hex(TwentyByte(Asked(fs))[i])));
    }
  }

  /** The keys of one file's dictionary are written out of order. */
  lemma StatsKeysDescend(st: Stats)
    ensures !Canonical(StatsValue(st))
  {
    assert !Less("incomplete", "downloaded");
    assert StatsValue(st).entries[1].key == "incomplete" && StatsValue(st).entries[2].key == "downloaded";
  }

  /** The response has the key order BEP 3 asks for exactly when it reports no torrent at all. */
  lemma ScrapeCanonicalExactly(raws: seq<bytes>, lookup: Lookup)
    ensures Canonical(Meaning(raws, lookup)) <==> TwentyByte(raws) == []
  {
    FilesAre(raws, lookup);
    var files := Files(raws, lookup);
    if TwentyByte(raws) == [] {
      assert Canonical(Dict(files));
    } else {
      StatsKeysDescend(lookup(Hex(TwentyByte(raws)[0])));
      assert !Canonical(files[0].value);
      assert !Canonical(Dict(files));
      assert Meaning(raws, lookup).entries[0].value == Dict(files);
    }
  }
}
