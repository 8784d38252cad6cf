/**
 Bencoded values (BEP 3, section "bencoding"): a reference decoder that knows nothing of how the
 tracker prints its responses, and the encoder it inverts.
*/
module Bencode {
  import opened Options
  import opened Text

  datatype Value =
    | Num(n: int)
    | Str(s: bytes)
    | List(items: seq<Value>)
    | Dict(entries: seq<Entry>)

  datatype Entry = Entry(key: bytes, value: Value)

  // Encoding

  function EncodeStr(s: bytes): bytes {
    Decimal(|s|) + ":" + s
  }

  function Encode(v: Value): bytes {
    match v
    case Num(n) => "i" + Decimal(n) + "e"
    case Str(s) => EncodeStr(s)
    case List(items) => "l" + EncodeItems(items) + "e"
    case Dict(entries) => "d" + EncodeEntries(entries) + "e"
  }

  function EncodeItems(items: seq<Value>): bytes {
    if items == [] then [] else Encode(items[0]) + EncodeItems(items[1..])
  }

  function EncodeEntries(entries: seq<Entry>): bytes {
    if entries == [] then []
    else EncodeEntry(entries[0]) + EncodeEntries(entries[1..])
  }

  function EncodeEntry(entry: Entry): bytes {
    match entry
    case Entry(key, value) => EncodeStr(key) + Encode(value)
  }

  // Decoding: a value and the bytes after it

  /** A length, a colon, and that many bytes. */
  function DecodeStr(s: bytes): (r: Option<(bytes, bytes)>)
    ensures r.Some? ==> |r.value.1| < |s|
  {
    var n := DigitRun(s);
    if n == 0 || n == |s| || s[n] != ':' || (s[0] == '0' && n > 1) then None
    else
      var len := Text.Value(s[..n]);
      var body := s[n + 1..];
      if len > |body| then None else Some((body[..len], body[len..]))
  }

  /** Digits with an optional minus sign, up to an 'e'. Leading zeros and minus zero are refused. */
  function DecodeNum(s: bytes): (r: Option<(int, bytes)>)
    ensures r.Some? ==> |r.value.1| < |s|
  {
    if s != [] && s[0] == '-' then DecodeDigits(s[1..], true) else DecodeDigits(s, false)
  }

  function DecodeDigits(d: bytes, neg: bool): (r: Option<(int, bytes)>)
    ensures r.Some? ==> |r.value.1| < |d|
  {
    var n := DigitRun(d);
    if n == 0 || n == |d| || d[n] != 'e' || (d[0] == '0' && (n > 1 || neg)) then None
    else
      var value: int := Text.Value(d[..n]);
      Some((if neg then -value else value, d[n + 1..]))
  }

  function Decode(s: bytes): (r: Option<(Value, bytes)>)
    ensures r.Some? ==> |r.value.1| < |s|
    decreases |s|, 0
  {
    if s == [] then None
    else if s[0] == 'i' then
      match DecodeNum(s[1..])
      case None => None
      case Some((n, rest)) => Some((Num(n), rest))
    else if s[0] == 'l' then
      match DecodeItems(s[1..])
      case None => None
      case Some((items, rest)) => Some((List(items), rest))
    else if s[0] == 'd' then
      match DecodeEntries(s[1..])
      case None => None
      case Some((entries, rest)) => Some((Dict(entries), rest))
    else
      match DecodeStr(s)
      case None => None
      case Some((str, rest)) => Some((Str(str), rest))
  }

  function DecodeItems(s: bytes): (r: Option<(seq<Value>, bytes)>)
    ensures r.Some? ==> |r.value.1| < |s|
    decreases |s|, 1
  {
    if s == [] then None
    else if s[0] == 'e' then Some(([], s[1..]))
    else
      match Decode(s)
      case None => None
      case Some((v, rest)) =>
        match DecodeItems(rest)
        case None => None
        case Some((vs, rest')) => Some(([v] + vs, rest'))
  }

  function DecodeEntries(s: bytes): (r: Option<(seq<Entry>, bytes)>)
    ensures r.Some? ==> |r.value.1| < |s|
    decreases |s|, 1
  {
    if s == [] then None
    else if s[0] == 'e' then Some(([], s[1..]))
    else
      match DecodeStr(s)
      case None => None
      case Some((key, rest)) =>
        match Decode(rest)
        case None => None
        case Some((v, rest')) =>
          match DecodeEntries(rest')
          case None => None
          case Some((more, rest'')) => Some(([Entry(key, v)] + more, rest''))
  }

  // Looking up a key in what was decoded

  /** The value under a key of a dictionary, the first if there are several. */
  function Get(v: Value, key: bytes): Option<Value> {
    match v
    case Dict(entries) => Search(entries, key)
    case _ => None
  }

  function Search(entries: seq<Entry>, key: bytes): Option<Value> {
    if entries == [] then None
    else if entries[0].key == key then Some(entries[0].value)
    else Search(entries[1..], key)
  }

  lemma {:induction false} SearchFinds(entries: seq<Entry>, key: bytes, k: nat)
    requires k < |entries| && entries[k].key == key
    requires forall i :: 0 <= i < k ==> entries[i].key != key
    ensures Search(entries, key) == Some(entries[k].value)
  {
    if k > 0 {
      assert entries[0].key != key;
      SearchFinds(entries[1..], key, k - 1);
    }
  }

  // Decoding inverts encoding

  lemma DecodeEncodeStr(s: bytes, rest: bytes)
    ensures DecodeStr(EncodeStr(s) + rest) == Some((s, rest))
    ensures IsDigit(EncodeStr(s)[0])
  {
    var d := Digits(|s|);
    var text := EncodeStr(s) + rest;
    assert text == d + (":" + s + rest);
    DigitRunOf(d, ":" + s + rest);
    DigitsValue(|s|);
    DigitsHaveNoLeadingZero(|s|);
    assert d[0] in d;
    assert text[|d| + 1..] == s + rest;
  }

  lemma DigitsDecode(m: nat, neg: bool, rest: bytes)
    requires neg ==> m > 0
    ensures DecodeDigits(Digits(m) + ("e" + rest), neg) == Some((if neg then -(m as int) else m, rest))
    ensures IsDigit(Digits(m)[0])
  {
    var d := Digits(m) + ("e" + rest);
    DigitRunOf(Digits(m), "e" + rest);
    DigitsValue(m);
    DigitsHaveNoLeadingZero(m);
    assert Digits(m)[0] in Digits(m);
    assert d[..|Digits(m)|] == Digits(m) && d[|Digits(m)| + 1..] == rest;
  }

  lemma DecodeEncodeNum(n: int, rest: bytes)
    ensures DecodeNum(Decimal(n) + "e" + rest) == Some((n, rest))
  {
    if n < 0 {
      DigitsDecode(-n, true, rest);
      Assoc4("-", Digits(-n), "e", rest);
      assert ("-" + (Digits(-n) + ("e" + rest)))[1..] == Digits(-n) + ("e" + rest);
    } else {
      DigitsDecode(n, false, rest);
      Assoc3(Digits(n), "e", rest);
    }
  }

  lemma DecodeTagged(tag: char, body: bytes, rest: bytes)
    ensures ([tag] + body + "e" + rest)[1..] == body + "e" + rest
    ensures ([tag] + body + "e" + rest)[0] == tag
  {
  }

  lemma DecodeNumber(n: int, rest: bytes)
    ensures Decode(Encode(Num(n)) + rest) == Some((Num(n), rest))
  {
    DecodeTagged('i', Decimal(n), rest);
    DecodeEncodeNum(n, rest);
  }

  lemma DecodeList(items: seq<Value>, rest: bytes)
    requires DecodeItems(EncodeItems(items) + "e" + rest) == Some((items, rest))
    ensures Decode(Encode(List(items)) + rest) == Some((List(items), rest))
  {
    DecodeTagged('l', EncodeItems(items), rest);
  }

  lemma DecodeDict(entries: seq<Entry>, rest: bytes)
    requires DecodeEntries(EncodeEntries(entries) + "e" + rest) == Some((entries, rest))
    ensures Decode(Encode(Dict(entries)) + rest) == Some((Dict(entries), rest))
  {
    DecodeTagged('d', EncodeEntries(entries), rest);
  }

  /** Whatever follows it, an encoded value decodes to itself, and what follows is left. */
  lemma {:induction false} DecodeEncode(v: Value, rest: bytes)
    ensures Decode(Encode(v) + rest) == Some((v, rest))
    decreases v, 1
  {
    match v
    case Num(n) => DecodeNumber(n, rest);
    case Str(s) => DecodeEncodeStr(s, rest);
    case List(items) =>
      DecodeEncodeItems(items, rest);
      DecodeList(items, rest);
    case Dict(entries) =>
      DecodeEncodeEntries(entries, rest);
      DecodeDict(entries, rest);
  }

  lemma FirstByte(v: Value)
    ensures Encode(v) != [] && Encode(v)[0] != 'e'
  {
    if v.Str? {
      DecodeEncodeStr(v.s, []);
    }
  }

  lemma DecodeItemsCons(s: bytes, v: Value, tail: bytes, more: seq<Value>, rest: bytes)
    requires s != [] && s[0] != 'e' && |tail| < |s|
    requires Decode(s) == Some((v, tail)) && DecodeItems(tail) == Some((more, rest))
    ensures DecodeItems(s) == Some(([v] + more, rest))
  {
  }

  lemma {:induction false} DecodeEncodeItems(items: seq<Value>, rest: bytes)
    ensures DecodeItems(EncodeItems(items) + "e" + rest) == Some((items, rest))
    decreases items, 0
  {
    if items == [] {
      assert EncodeItems(items) + "e" + rest == "e" + rest;
    } else {
      var tail := EncodeItems(items[1..]) + "e" + rest;
      FirstByte(items[0]);
      DecodeEncode(items[0], tail);
      DecodeEncodeItems(items[1..], rest);
      DecodeItemsCons(Encode(items[0]) + tail, items[0], tail, items[1..], rest);
      ItemsText(items, rest);
    }
  }

  lemma ItemsText(items: seq<Value>, rest: bytes)
    requires items != []
    ensures EncodeItems(items) + "e" + rest == Encode(items[0]) + (EncodeItems(items[1..]) + "e" + rest)
    ensures items == [items[0]] + items[1..]
  {
    Assoc4(Encode(items[0]), EncodeItems(items[1..]), "e", rest);
  }

  lemma DecodeEntriesCons(s: bytes, key: bytes, afterKey: bytes, v: Value, tail: bytes, more: seq<Entry>, rest: bytes)
    requires s != [] && s[0] != 'e'
    requires DecodeStr(s) == Some((key, afterKey))
    requires Decode(afterKey) == Some((v, tail))
    requires DecodeEntries(tail) == Some((more, rest))
    ensures DecodeEntries(s) == Some(([Entry(key, v)] + more, rest))
  {
  }

  lemma {:induction false} DecodeEncodeEntries(entries: seq<Entry>, rest: bytes)
    ensures DecodeEntries(EncodeEntries(entries) + "e" + rest) == Some((entries, rest))
    decreases entries, 0
  {
    if entries == [] {
      assert EncodeEntries(entries) + "e" + rest == "e" + rest;
    } else {
      var tail := EncodeEntries(entries[1..]) + "e" + rest;
      match entries[0]
      case Entry(key, v) =>
        DecodeEncode(v, tail);
        DecodeEncodeEntries(entries[1..], rest);
        DecodeEncodeStr(key, Encode(v) + tail);
        DecodeEntriesCons(EncodeStr(key) + (Encode(v) + tail), key, Encode(v) + tail, v, tail, entries[1..], rest);
        EntriesText(entries, rest);
    }
  }

  lemma EntriesText(entries: seq<Entry>, rest: bytes)
    requires entries != []
    ensures
      var tail := EncodeEntries(entries[1..]) + "e" + rest;
      EncodeEntries(entries) + "e" + rest == EncodeStr(entries[0].key) + (Encode(entries[0].value) + tail)
    ensures entries == [Entry(entries[0].key, entries[0].value)] + entries[1..]
  {
    match entries[0]
    case Entry(key, value) =>
      Assoc5(EncodeStr(key), Encode(value), EncodeEntries(entries[1..]), "e", rest);
      Assoc3(EncodeEntries(entries[1..]), "e", rest);
  }

  // Texts of dictionaries, entry by entry

  lemma {:induction false} EntriesSnoc(entries: seq<Entry>, entry: Entry)
    ensures EncodeEntries(entries + [entry]) == EncodeEntries(entries) + EncodeEntry(entry)
  {
    if entries == [] {
      assert [entry][1..] == [];
      assert EncodeEntries([entry]) == EncodeEntry(entry) + EncodeEntries([]);
      assert entries + [entry] == [entry];
    } else {
      assert (entries + [entry])[1..] == entries[1..] + [entry];
      EntriesSnoc(entries[1..], entry);
    }
  }

  /** Appending an entry to a text that already holds the earlier ones. */
  lemma AppendEntry(start: bytes, entries: seq<Entry>, entry: Entry)
    ensures start + EncodeEntries(entries + [entry]) == start + EncodeEntries(entries) + EncodeEntry(entry)
  {
    EntriesSnoc(entries, entry);
  }

  /** The length of a string below a hundred, as it is printed. */
  lemma ShortLength(s: bytes)
    ensures |s| < 10 ==> EncodeStr(s) == [Byte(48 + |s|)] + ":" + s
    ensures 10 <= |s| < 100 ==> EncodeStr(s) == [Byte(48 + |s| / 10), Byte(48 + |s| % 10)] + ":" + s
  {
    if 10 <= |s| < 100 {
      assert Digits(|s| / 10) == [Byte(48 + |s| / 10)];
      assert Digits(|s|) == [Byte(48 + |s| / 10)] + [Byte(48 + |s| % 10)];
    }
  }

  /** An entry with a number, given how its key and the opening of the number are written. */
  lemma NumEntryText(key: bytes, n: int, name: bytes)
    requires name == EncodeStr(key) + "i"
    ensures EncodeEntry(Entry(key, Num(n))) == name + Decimal(n) + "e"
  {
  }

  // The counts that announce and scrape replies share

  lemma CompleteText(n: int)
    ensures EncodeEntry(Entry("complete", Num(n))) == "8:completei" + Decimal(n) + "e"
  {
    ShortLength("complete");
    NumEntryText("complete", n, "8:completei");
  }

  lemma DownloadedText(n: int)
    ensures EncodeEntry(Entry("downloaded", Num(n))) == "10:downloadedi" + Decimal(n) + "e"
  {
    ShortLength("downloaded");
    NumEntryText("downloaded", n, "10:downloadedi");
  }

  lemma IncompleteText(n: int)
    ensures EncodeEntry(Entry("incomplete", Num(n))) == "10:incompletei" + Decimal(n) + "e"
  {
    ShortLength("incomplete");
    NumEntryText("incomplete", n, "10:incompletei");
  }

  // Canonical form: the keys of every dictionary strictly ascend, as raw bytes

  predicate Less(a: bytes, b: bytes) {
    b != [] && (a == [] || a[0] < b[0] || (a[0] == b[0] && Less(a[1..], b[1..])))
  }

  /** Two texts that agree up to `k` compare as their bytes at `k`. */
  lemma {:induction false} LessAt(a: bytes, b: bytes, k: nat)
    requires k < |a| && k < |b| && a[..k] == b[..k] && a[k] < b[k]
    ensures Less(a, b)
  {
    if k > 0 {
      assert a[0] == a[..k][0] && b[0] == b[..k][0];
      assert a[1..][..k - 1] == a[..k][1..] && b[1..][..k - 1] == b[..k][1..];
      LessAt(a[1..], b[1..], k - 1);
    }
  }

  predicate Canonical(v: Value) {
    match v
    case Num(_) => true
    case Str(_) => true
    case List(items) => forall i :: 0 <= i < |items| ==> Canonical(items[i])
    case Dict(entries) =>
      && (forall i :: 0 <= i < |entries| - 1 ==> Less(entries[i].key, entries[i + 1].key))
      && (forall i :: 0 <= i < |entries| ==> Canonical(entries[i].value))
  }
}
