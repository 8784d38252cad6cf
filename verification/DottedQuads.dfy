/**
 Addresses as dotted quads: what an address parser must know, and a parser that knows it and accepts
 nothing else.
*/
module DottedQuads {
  import opened Options
  import opened Text
  import opened AnnounceResponse

  /** All four parts are bytes. */
  predicate IsOctets(x: Address) {
    x.a as int < 256 && x.b as int < 256 && x.c as int < 256 && x.d as int < 256
  }

  function DottedQuad(x: Address): bytes {
    Digits(x.a as int) + ("." + (Digits(x.b as int) + ("." + (Digits(x.c as int) + ("." + Digits(x.d as int))))))
  }

  /** Every address is understood when written as four decimal numbers from 0 to 255 and three dots. */
  ghost predicate KnowsDottedQuads(inet: Inet) {
    forall x :: IsOctets(x) ==> inet(DottedQuad(x)) == Some(x)
  }

  // A parser for dotted quads alone

  /** A number from 0 to 255 without leading zeros, and the text after it. */
  function ParseOctet(s: bytes): Option<(char, bytes)> {
    var n := DigitRun(s);
    if n == 0 || (n > 1 && s[0] == '0') || Value(s[..n]) > 255 then None
    else Some((Byte(Value(s[..n])), s[n..]))
  }

  function ParseDot(s: bytes): Option<bytes> {
    if s != [] && s[0] == '.' then Some(s[1..]) else None
  }

  /** A number and a dot, and the text after them. */
  function ParsePart(s: bytes): Option<(char, bytes)> {
    match ParseOctet(s)
    case None => None
    case Some((octet, rest)) =>
      match ParseDot(rest)
      case None => None
      case Some(after) => Some((octet, after))
  }

  function ParseLast(s: bytes): Option<char> {
    match ParseOctet(s)
    case None => None
    case Some((octet, rest)) => if rest == [] then Some(octet) else None
  }

  function ParseQuad(s: bytes): Option<Address> {
    match ParsePart(s)
    case None => None
    case Some((a, s1)) =>
      match ParsePart(s1)
      case None => None
      case Some((b, s2)) =>
        match ParsePart(s2)
        case None => None
        case Some((c, s3)) =>
          match ParseLast(s3)
          case None => None
          case Some(d) => Some(Address(a, b, c, d))
  }

  lemma OctetIsParsed(c: char, rest: bytes)
    requires c as int < 256 && (rest == [] || !IsDigit(rest[0]))
    ensures ParseOctet(Digits(c as int) + rest) == Some((c, rest))
  {
    var d := Digits(c as int);
    DigitRunOf(d, rest);
    DigitsValue(c as int);
    DigitsHaveNoLeadingZero(c as int);
    assert (d + rest)[0] == d[0];
  }

  lemma ParsedIsOctet(s: bytes, c: char, rest: bytes)
    requires ParseOctet(s) == Some((c, rest))
    ensures c as int < 256 && s == Digits(c as int) + rest
  {
    var n := DigitRun(s);
    DigitsOfValue(s[..n]);
  }

  lemma PartIsParsed(c: char, rest: bytes)
    requires c as int < 256
    ensures ParsePart(Digits(c as int) + ("." + rest)) == Some((c, rest))
  {
    OctetIsParsed(c, "." + rest);
    assert ("." + rest)[1..] == rest;
  }

  lemma ParsedIsPart(s: bytes, c: char, rest: bytes)
    requires ParsePart(s) == Some((c, rest))
    ensures c as int < 256 && s == Digits(c as int) + ("." + rest)
  {
    var after := ParseOctet(s).value.1;
    ParsedIsOctet(s, c, after);
    assert after == "." + rest;
  }

  lemma LastIsParsed(c: char)
    requires c as int < 256
    ensures ParseLast(Digits(c as int)) == Some(c)
  {
    OctetIsParsed(c, []);
    assert Digits(c as int) + [] == Digits(c as int);
  }

  lemma ParsedIsLast(s: bytes, c: char)
    requires ParseLast(s) == Some(c)
    ensures c as int < 256 && s == Digits(c as int)
  {
    ParsedIsOctet(s, c, []);
    assert Digits(c as int) + [] == Digits(c as int);
  }

  lemma ParsesQuads(s: bytes, x: Address)
    ensures ParseQuad(s) == Some(x) <==> IsOctets(x) && s == DottedQuad(x)
  {
    if IsOctets(x) && s == DottedQuad(x) {
      var s3 := Digits(x.d as int);
      var s2 := Digits(x.c as int) + ("." + s3);
      var s1 := Digits(x.b as int) + ("." + s2);
      PartIsParsed(x.a, s1);
      PartIsParsed(x.b, s2);
      PartIsParsed(x.c, s3);
      LastIsParsed(x.d);
    }
    if ParseQuad(s) == Some(x) {
      var s1 := ParsePart(s).value.1;
      var s2 := ParsePart(s1).value.1;
      var s3 := ParsePart(s2).value.1;
      ParsedIsPart(s, x.a, s1);
      ParsedIsPart(s1, x.b, s2);
      ParsedIsPart(s2, x.c, s3);
      ParsedIsLast(s3, x.d);
    }
  }

  lemma QuadText(x: Address)
    ensures DottedQuad(x) ==
      Decimal(x.a as int) + "." + Decimal(x.b as int) + "." + Decimal(x.c as int) + "." + Decimal(x.d as int)
  {
    hide Digits;
    var a, b, c, d := Digits(x.a as int), Digits(x.b as int), Digits(x.c as int), Digits(x.d as int);
    assert a + "." + b + "." + c + "." + d == a + ("." + (b + ("." + (c + ("." + d)))));
  }

  /** The parser understands a text as an address exactly when the text is the dotted quad of its four bytes. */
  lemma ParseQuadExactly(s: bytes, x: Address)
    ensures ParseQuad(s) == Some(x) <==>
      && IsOctets(x)
      && s == Decimal(x.a as int) + "." + Decimal(x.b as int) + "." + Decimal(x.c as int) + "." + Decimal(x.d as int)
  {
    hide ParseQuad, DottedQuad, Decimal;
    ParsesQuads(s, x);
    QuadText(x);
  }

  /** So what is asked of an address parser can be met, and two addresses never share a text. */
  lemma QuadsAreKnown(x: Address, y: Address)
    requires IsOctets(x) && IsOctets(y)
    ensures KnowsDottedQuads(ParseQuad)
    ensures DottedQuad(x) == DottedQuad(y) <==> x == y
  {
    forall z | IsOctets(z)
      ensures ParseQuad(DottedQuad(z)) == Some(z)
    {
      ParsesQuads(DottedQuad(z), z);
    }
    ParsesQuads(DottedQuad(x), x);
    ParsesQuads(DottedQuad(y), y);
  }

  /** It refuses numbers that are no bytes. */
  lemma BigNumbersAreRefused()
    ensures ParseQuad("256.0.0.1") == None
  {
    var s := "256.0.0.1";
    DigitRunOf("256", ".0.0.1");
    assert "256" + ".0.0.1" == s;
    assert "256"[..2] == "25" && "25"[..1] == "2" && "2"[..0] == [];
    assert Value("256") == 256;
  }
}
