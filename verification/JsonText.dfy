/** JSON strings: the two escapers of the REST interface and a reader that follows section 7 of RFC 8259. */
module JsonText {
  import opened Options
  import opened Text

  const QUOTE := '"'

  const BACKSLASH := '\\'

  const BS := 8 as char

  const TAB := 9 as char

  const LF := 10 as char

  const FF := 12 as char

  const CR := 13 as char

  predicate IsControl(c: char) {
    c as int < 32
  }

  // Escaping

  function EscapeChar(c: char): bytes {
    if c == QUOTE then [BACKSLASH, QUOTE]
    else if c == BACKSLASH then [BACKSLASH, BACKSLASH]
    else if c == BS then [BACKSLASH, 'b']
    else if c == FF then [BACKSLASH, 'f']
    else if c == LF then [BACKSLASH, 'n']
    else if c == CR then [BACKSLASH, 'r']
    else if c == TAB then [BACKSLASH, 't']
    else if IsControl(c) then [BACKSLASH, 'u', '0', '0'] + HexByte(c)
    else [c]
  }

  function JsonEscape(s: bytes): bytes {
    if s == [] then [] else EscapeChar(s[0]) + JsonEscape(s[1..])
  }

  /** The escaper inside the torrent list: only quotes and backslashes. */
  function InlineChar(c: char): bytes {
    if c == QUOTE || c == BACKSLASH then [BACKSLASH, c] else [c]
  }

  function InlineEscape(s: bytes): bytes {
    if s == [] then [] else InlineChar(s[0]) + InlineEscape(s[1..])
  }

  lemma EscapeStep(s: bytes, i: nat)
    requires i < |s|
    ensures JsonEscape(s[i..]) == EscapeChar(s[i]) + JsonEscape(s[i + 1..])
    ensures InlineEscape(s[i..]) == InlineChar(s[i]) + InlineEscape(s[i + 1..])
  {
    assert s[i..][1..] == s[i + 1..];
  }

  /** json_escape. */
  method EscapeJson(s: bytes) returns (out: bytes)
    ensures out == JsonEscape(s)
  {
    out := [];
    for i := 0 to |s|
      invariant out + JsonEscape(s[i..]) == JsonEscape(s)
    {
      EscapeStep(s, i);
      var added := WriteChar(s[i]);
      Assoc3(out, added, JsonEscape(s[i + 1..]));
      out := out + added;
    }
  }

  /** The switch of json_escape. */
  method WriteChar(c: char) returns (out: bytes)
    ensures out == EscapeChar(c)
  {
    if c == QUOTE { return "\\\""; }
    if c == BACKSLASH { return "\\\\"; }
    if c == BS { return "\\b"; }
    if c == FF { return "\\f"; }
    if c == LF { return "\\n"; }
    if c == CR { return "\\r"; }
    if c == TAB { return "\\t"; }
    if IsControl(c) {
      return "\\u" + ['0', '0', HexDigit(c as int / 16), HexDigit(c as int % 16)];
    }
    return [c];
  }

  /** The loop over a torrent's name in get_torrents_list_json. */
  method EscapeName(s: bytes) returns (out: bytes)
    ensures out == InlineEscape(s)
  {
    out := [];
    for i := 0 to |s|
      invariant out + InlineEscape(s[i..]) == InlineEscape(s)
    {
      EscapeStep(s, i);
      var added := if s[i] == QUOTE then "\\\"" else if s[i] == BACKSLASH then "\\\\" else [s[i]];
      assert added == InlineChar(s[i]);
      Assoc3(out, added, InlineEscape(s[i + 1..]));
      out := out + added;
    }
  }

  /** The escapes, character by character. */
  lemma EscapedCharacters(c: char)
    ensures EscapeChar('"') == "\\\"" && EscapeChar('\\') == "\\\\" && EscapeChar('/') == "/"
    ensures EscapeChar(8 as char) == "\\b" && EscapeChar(9 as char) == "\\t" && EscapeChar(10 as char) == "\\n"
    ensures EscapeChar(12 as char) == "\\f" && EscapeChar(13 as char) == "\\r"
    ensures c as int >= 32 && c != '"' && c != '\\' ==> EscapeChar(c) == [c]
    ensures InlineChar('"') == "\\\"" && InlineChar('\\') == "\\\\"
    ensures c != '"' && c != '\\' ==> InlineChar(c) == [c]
  {
  }

  lemma EscapedControls(c: char)
    requires c as int < 32 && !(8 <= c as int <= 10) && !(12 <= c as int <= 13)
    ensures EscapeChar(c) == ['\\', 'u', '0', '0', "0123456789abcdef"[c as int / 16], "0123456789abcdef"[c as int % 16]]
  {
    HexDigitsAre();
  }

  // Reading

  /** The UTF-8 bytes of a code point below 65536 that is not a surrogate. */
  function Utf8(code: int): bytes
    requires 0 <= code < 0x1_0000
  {
    if code < 0x80 then [Byte(code)]
    else if code < 0x800 then [Byte(0xC0 + code / 64), Byte(0x80 + code % 64)]
    else [Byte(0xE0 + code / 4096), Byte(0x80 + code / 64 % 64), Byte(0x80 + code % 64)]
  }

  /** The code of four hexadecimal digits, or -1. */
  function Hex4(s: bytes): (code: int)
    requires |s| == 4
    ensures code < 0x1_0000
  {
    var a, b, c, d := HexNibble(s[0]), HexNibble(s[1]), HexNibble(s[2]), HexNibble(s[3]);
    if a < 0 || b < 0 || c < 0 || d < 0 then -1 else 4096 * a + 256 * b + 16 * c + d
  }

  /** What an escape of one letter stands for. */
  function Short(c: char): Option<char> {
    if c == QUOTE || c == BACKSLASH || c == '/' then Some(c)
    else if c == 'b' then Some(BS)
    else if c == 'f' then Some(FF)
    else if c == 'n' then Some(LF)
    else if c == 'r' then Some(CR)
    else if c == 't' then Some(TAB)
    else None
  }

  /**
   The value of the string whose opening quote has been read, and the text after its closing
   quote. Bare control characters and escapes the standard does not know are refused, and so are
   escaped surrogates, which no escaper here writes.
  */
  function Read(s: bytes): Option<(bytes, bytes)> {
    if s == [] || IsControl(s[0]) then None
    else if s[0] == QUOTE then Some(([], s[1..]))
    else if s[0] != BACKSLASH then Prefixed([s[0]], Read(s[1..]))
    else if |s| == 1 then None
    else if s[1] == 'u' then
      if |s| < 6 then None
      else
        var code := Hex4(s[2..6]);
        if code < 0 || 0xD800 <= code < 0xE000 then None else Prefixed(Utf8(code), Read(s[6..]))
    else
      match Short(s[1])
      case None => None
      case Some(c) => Prefixed([c], Read(s[2..]))
  }

  lemma ReadShort(e: char, c: char, rest: bytes)
    requires e != 'u' && Short(e) == Some(c)
    ensures Read([BACKSLASH, e] + rest) == Prefixed([c], Read(rest))
  {
    assert ([BACKSLASH, e] + rest)[2..] == rest;
  }

  lemma ReadPlain(c: char, rest: bytes)
    requires !IsControl(c) && c != QUOTE && c != BACKSLASH
    ensures Read([c] + rest) == Prefixed([c], Read(rest))
  {
    assert ([c] + rest)[1..] == rest;
  }

  lemma ReadUnicode(c: char, rest: bytes)
    requires IsControl(c)
    ensures Read([BACKSLASH, 'u', '0', '0'] + HexByte(c) + rest) == Prefixed([c], Read(rest))
  {
    var s := [BACKSLASH, 'u', '0', '0'] + HexByte(c) + rest;
    HexDigitNibble(c as int / 16 % 16);
    HexDigitNibble(c as int % 16);
    assert s[2..6] == ['0', '0'] + HexByte(c);
    assert s[6..] == rest;
    assert Hex4(s[2..6]) == c as int;
    assert Utf8(c as int) == [c];
  }

  lemma ReadOneChar(c: char, rest: bytes)
    ensures Read(EscapeChar(c) + rest) == Prefixed([c], Read(rest))
  {
    if c == QUOTE || c == BACKSLASH {
      ReadShort(c, c, rest);
    } else if c == BS {
      ReadShort('b', c, rest);
    } else if c == FF {
      ReadShort('f', c, rest);
    } else if c == LF {
      ReadShort('n', c, rest);
    } else if c == CR {
      ReadShort('r', c, rest);
    } else if c == TAB {
      ReadShort('t', c, rest);
    } else if IsControl(c) {
      ReadUnicode(c, rest);
    } else {
      ReadPlain(c, rest);
    }
  }

  lemma {:induction false} ReadEscaped(s: bytes, rest: bytes)
    ensures Read(JsonEscape(s) + rest) == Prefixed(s, Read(rest))
  {
    if s == [] {
      assert JsonEscape(s) + rest == rest;
      PrefixedNone(Read(rest));
    } else {
      Assoc3(EscapeChar(s[0]), JsonEscape(s[1..]), rest);
      ReadOneChar(s[0], JsonEscape(s[1..]) + rest);
      ReadEscaped(s[1..], rest);
      PrefixedTwice(s, Read(rest));
    }
  }

  /** Every byte string, escaped and quoted, is read back as itself, and reading stops at its closing quote. */
  lemma JsonRoundTrip(s: bytes, rest: bytes)
    ensures Read(JsonEscape(s) + ([QUOTE] + rest)) == Some((s, rest))
  {
    ReadEscaped(s, [QUOTE] + rest);
    assert ([QUOTE] + rest)[1..] == rest;
    assert s + [] == s;
  }

  lemma {:induction false} EscapedHasNoControl(s: bytes)
    ensures forall c :: c in JsonEscape(s) ==> !IsControl(c)
  {
    if s != [] {
      EscapedHasNoControl(s[1..]);
    }
  }

  // The inline escaper

  /** The two escapers agree exactly on strings without control characters. */
  lemma {:induction false} InlineAgreesExactly(s: bytes)
    ensures InlineEscape(s) == JsonEscape(s) <==> forall i :: 0 <= i < |s| ==> !IsControl(s[i])
  {
    if s != [] {
      var c := s[0];
      InlineAgreesExactly(s[1..]);
      assert s == [c] + s[1..];
      if IsControl(c) {
        assert InlineEscape(s)[0] == c && JsonEscape(s)[0] == BACKSLASH;
      } else {
        assert InlineChar(c) == EscapeChar(c);
        assert InlineEscape(s)[|InlineChar(c)|..] == InlineEscape(s[1..]);
        assert JsonEscape(s)[|EscapeChar(c)|..] == JsonEscape(s[1..]);
      }
    }
  }

  /**
   So a torrent's name is read back from the list exactly when it has no control character;
   otherwise the list is not JSON.
  */
  lemma {:induction false} InlineRoundTripExactly(s: bytes, rest: bytes)
    ensures
      if forall i :: 0 <= i < |s| ==> !IsControl(s[i]) then Read(InlineEscape(s) + ([QUOTE] + rest)) == Some((s, rest))
      else Read(InlineEscape(s) + ([QUOTE] + rest)) == None
  {
    if forall i :: 0 <= i < |s| ==> !IsControl(s[i]) {
      InlineAgreesExactly(s);
      JsonRoundTrip(s, rest);
    } else {
      var c := s[0];
      var tail := InlineEscape(s[1..]) + ([QUOTE] + rest);
      Assoc3(InlineChar(c), InlineEscape(s[1..]), [QUOTE] + rest);
      if IsControl(c) {
        assert (InlineChar(c) + tail)[0] == c;
      } else {
        assert InlineChar(c) == EscapeChar(c);
        ReadOneChar(c, tail);
        assert exists i :: 0 <= i < |s[1..]| && IsControl(s[1..][i]) by {
          var i :| 0 <= i < |s| && IsControl(s[i]);
          assert s[1..][i - 1] == s[i];
        }
        InlineRoundTripExactly(s[1..], rest);
      }
    }
  }
}
