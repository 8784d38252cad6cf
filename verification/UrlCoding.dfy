/**
 Percent-decoding and the splitting of query strings, with every legal way of encoding as the
 inverse (section 2.1 of RFC 3986).
*/
module UrlCoding {
  import opened Text

  /** How many bytes of input the unit at index `i` takes: three for a percent sign and two hexadecimal digits. */
  function UnitWidth(s: bytes, i: nat): (w: nat)
    requires i < |s|
    ensures 1 <= w && i + w <= |s|
  {
    if s[i] == '%' && i + 2 < |s| && IsHexDigit(s[i + 1]) && IsHexDigit(s[i + 2]) then 3 else 1
  }

  function Unit(s: bytes, i: nat): char
    requires i < |s|
  {
    if UnitWidth(s, i) == 3 then Byte(16 * HexNibble(s[i + 1]) + HexNibble(s[i + 2]))
    else if s[i] == '+' then ' '
    else s[i]
  }

  /** What url_decode makes of the text from index `i` on. */
  function DecodeFrom(s: bytes, i: nat): bytes
    requires i <= |s|
    decreases |s| - i
  {
    if i == |s| then [] else [Unit(s, i)] + DecodeFrom(s, i + UnitWidth(s, i))
  }

  function UrlDecode(s: bytes): bytes {
    DecodeFrom(s, 0)
  }

  /** url_decode. */
  method DecodeUrl(s: bytes) returns (out: bytes)
    ensures out == UrlDecode(s)
  {
    out := [];
    var i := 0;
    while i < |s|
      invariant i <= |s|
      invariant out + DecodeFrom(s, i) == DecodeFrom(s, 0)
    {
      ghost var before := i;
      if s[i] == '%' && i + 2 < |s| {
        var hi := HexNibble(s[i + 1]);
        var lo := HexNibble(s[i + 2]);
        if hi >= 0 && lo >= 0 {
          out := out + [Byte(16 * hi + lo)];
          assert UnitWidth(s, before) == 3;
          i := i + 3;
          continue;
        }
      }
      out := out + [if s[i] == '+' then ' ' else s[i]];
      i := i + 1;
    }
  }

  /** Decoding a suffix does not depend on what is before it. */
  lemma {:induction false} DecodeSuffix(a: bytes, rest: bytes, i: nat)
    requires i <= |rest|
    ensures DecodeFrom(a + rest, |a| + i) == DecodeFrom(rest, i)
    decreases |rest| - i
  {
    if i < |rest| {
      DecodeSuffix(a, rest, i + UnitWidth(rest, i));
    }
  }

  /** A plus is read as a space, and a percent sign with two digits as the byte they stand for. */
  lemma UnitsRead(i: nat, j: nat, rest: bytes)
    requires i < 16 && j < 16
    ensures UrlDecode("+" + rest) == " " + UrlDecode(rest)
    ensures UrlDecode(['%', "0123456789abcdef"[i], "0123456789ABCDEF"[j]] + rest) ==
      [(16 * i + j) as char] + UrlDecode(rest)
  {
    HexDigitsAre();
    HexDigitNibble(i);
    HexDigitNibble(j);
    DecodeSuffix("+", rest, 0);
    DecodeSuffix(['%', "0123456789abcdef"[i], "0123456789ABCDEF"[j]], rest, 0);
  }

  // Encoding, byte by byte, in any legal way

  /** How one byte is written: as itself, as %XX with either case of each digit, or a space as a plus. */
  datatype Form = Literal | Escaped(upperHi: bool, upperLo: bool) | Plus

  predicate Legal(b: char, form: Form) {
    match form
    case Literal => b != '%' && b != '+' && b != '&'
    case Escaped(_, _) => b as int < 256
    case Plus => b == ' '
  }

  function EncodeByte(b: char, form: Form): (s: bytes)
    ensures Legal(b, form) ==> '&' !in s
  {
    match form
    case Literal => [b]
    case Plus => ['+']
    case Escaped(u, v) =>
      var hi, lo := b as int / 16 % 16, b as int % 16;
      ['%', if u then UpperHexDigit(hi) else HexDigit(hi), if v then UpperHexDigit(lo) else HexDigit(lo)]
  }

  predicate AllLegal(raw: bytes, forms: seq<Form>) {
    |forms| == |raw| && forall i :: 0 <= i < |raw| ==> Legal(raw[i], forms[i])
  }

  function UrlEncode(raw: bytes, forms: seq<Form>): (s: bytes)
    requires AllLegal(raw, forms)
    ensures '&' !in s
  {
    if raw == [] then [] else EncodeByte(raw[0], forms[0]) + UrlEncode(raw[1..], forms[1..])
  }

  lemma DecodeOneByte(b: char, form: Form, rest: bytes)
    requires Legal(b, form)
    ensures UrlDecode(EncodeByte(b, form) + rest) == [b] + UrlDecode(rest)
  {
    if form.Escaped? {
      HexDigitNibble(b as int / 16 % 16);
      HexDigitNibble(b as int % 16);
    }
    DecodeSuffix(EncodeByte(b, form), rest, 0);
  }

  /** However each byte was written, decoding gives the bytes back. */
  lemma {:induction false} DecodeEncode(raw: bytes, forms: seq<Form>)
    requires AllLegal(raw, forms)
    ensures UrlDecode(UrlEncode(raw, forms)) == raw
  {
    if raw != [] {
      DecodeEncode(raw[1..], forms[1..]);
      DecodeOneByte(raw[0], forms[0], UrlEncode(raw[1..], forms[1..]));
    }
  }

  // Splitting

  /** The pieces std::getline gives with '&' as the delimiter: none after a delimiter that ends the text. */
  function Pieces(s: bytes): seq<bytes> {
    if s == [] then []
    else
      var k := Find(s, '&');
      if k == |s| then [s] else [s[..k]] + Pieces(s[k + 1..])
  }

  function Join(pieces: seq<bytes>): bytes {
    if pieces == [] then [] else if |pieces| == 1 then pieces[0] else pieces[0] + "&" + Join(pieces[1..])
  }

  /** What std::getline sees of a list of pieces: an empty piece at the end is not one. */
  function Trim(pieces: seq<bytes>): seq<bytes> {
    if pieces != [] && pieces[|pieces| - 1] == [] then pieces[..|pieces| - 1] else pieces
  }

  lemma TrimCons(piece: bytes, pieces: seq<bytes>)
    requires pieces != []
    ensures Trim([piece] + pieces) == [piece] + Trim(pieces)
  {
  }

  lemma FirstOfPieces(piece: bytes, rest: bytes)
    requires '&' !in piece
    ensures Pieces(piece + "&" + rest) == [piece] + Pieces(rest)
  {
    var s := piece + "&" + rest;
    FindAfter(piece, '&', rest);
    assert s[..|piece|] == piece && s[|piece| + 1..] == rest;
  }

  lemma OnlyPiece(piece: bytes)
    requires '&' !in piece
    ensures Pieces(Join([piece])) == Trim([piece])
  {
    FindAfter(piece, '&', []);
  }

  /** Pieces without delimiters come back from the joined text. */
  lemma {:induction false} PiecesOfJoin(pieces: seq<bytes>)
    requires forall p :: p in pieces ==> '&' !in p
    ensures Pieces(Join(pieces)) == Trim(pieces)
  {
    if pieces != [] {
      var first, others := pieces[0], pieces[1..];
      assert pieces == [first] + others && first in pieces;
      if others == [] {
        OnlyPiece(first);
      } else {
        assert forall p :: p in others ==> p in pieces;
        PiecesOfJoin(others);
        FirstOfPieces(first, Join(others));
        TrimCons(first, others);
      }
    }
  }

  /** The text of one field. */
  function Field(key: bytes, value: bytes): bytes {
    key + "=" + value
  }

  /** A field splits at its first '='. */
  lemma FieldSplits(key: bytes, value: bytes)
    requires '=' !in key
    ensures Field(key, value) == key + "=" + value
    ensures
      var k := Find(Field(key, value), '=');
      && k == |key| && k < |Field(key, value)|
      && Field(key, value)[..k] == key && Field(key, value)[k + 1..] == value
  {
    FindAfter(key, '=', value);
  }

  function Fold<A>(take: (A, bytes) -> A, a: A, pieces: seq<bytes>): A
    decreases |pieces|
  {
    if pieces == [] then a else Fold(take, take(a, pieces[0]), pieces[1..])
  }

  lemma FoldCons<A>(take: (A, bytes) -> A, a: A, piece: bytes, pieces: seq<bytes>)
    ensures Fold(take, a, [piece] + pieces) == Fold(take, take(a, piece), pieces)
  {
    assert ([piece] + pieces)[1..] == pieces;
  }

  /** What follows the first piece and its delimiter. */
  function AfterFirst(text: bytes): bytes {
    var end := Find(text, '&');
    if end == |text| then [] else text[end + 1..]
  }

  lemma PiecesOfText(text: bytes)
    requires text != []
    ensures Pieces(text) == [text[..Find(text, '&')]] + Pieces(AfterFirst(text))
  {
    assert text[..|text|] == text;
  }

  /** The std::getline loop that both query parsers run, with the loop body as a function of what it updates. */
  method ForEachPiece<A>(take: (A, bytes) -> A, start: A, query: bytes) returns (a: A)
    ensures a == Fold(take, start, Pieces(query))
  {
    a := start;
    var text := query;
    while text != []
      invariant Fold(take, a, Pieces(text)) == Fold(take, start, Pieces(query))
      decreases |text|
    {
      PiecesOfText(text);
      var end := Find(text, '&');
      FoldCons(take, a, text[..end], Pieces(AfterFirst(text)));
      a := take(a, text[..end]);
      text := if end == |text| then [] else text[end + 1..];
    }
  }
}
