/** Byte strings, decimal numbers and hexadecimal digits. */
module Text {
  import opened Options

  /** A std::string. Its elements are bytes, that is characters below 256, wherever `IsBytes` says so. */
  type bytes = string

  const NUL := 0 as char

  predicate IsBytes(s: bytes) {
    forall i :: 0 <= i < |s| ==> s[i] as int < 256
  }

  function Byte(n: int): (c: char)
    requires 0 <= n < 256
    ensures c as int == n
  {
    n as char
  }

  lemma Assoc3(a: bytes, b: bytes, c: bytes)
    ensures a + b + c == a + (b + c)
  {
  }

  lemma Assoc4(a: bytes, b: bytes, c: bytes, d: bytes)
    ensures a + b + c + d == a + (b + (c + d))
  {
  }

  lemma Assoc5(a: bytes, b: bytes, c: bytes, d: bytes, e: bytes)
    ensures a + b + c + d + e == a + (b + (c + (d + e)))
  {
  }

  lemma Assoc6(a: bytes, b: bytes, c: bytes, d: bytes, e: bytes, f: bytes)
    ensures a + b + c + d + e + f == a + (b + (c + (d + (e + f))))
  {
  }

  // Searching

  /** The position of the first `c`, or the length. */
  function Find(s: bytes, c: char): (k: nat)
    ensures k <= |s|
    ensures c !in s[..k]
    ensures k < |s| ==> s[k] == c
  {
    if s == [] || s[0] == c then 0
    else
      var k := Find(s[1..], c);
      assert s[..k + 1] == [s[0]] + s[1..][..k];
      k + 1
  }

  lemma {:induction false} FindAfter(a: bytes, c: char, rest: bytes)
    requires c !in a
    ensures Find(a + [c] + rest, c) == |a|
    ensures Find(a, c) == |a|
  {
    if a != [] {
      assert (a + [c] + rest)[1..] == a[1..] + [c] + rest;
      FindAfter(a[1..], c, rest);
    }
  }

  // Reading

  /** A reading that gave a value and the text behind it, with more text in front of the value. */
  function Prefixed(v: bytes, r: Option<(bytes, bytes)>): Option<(bytes, bytes)> {
    match r
    case None => None
    case Some((w, rest)) => Some((v + w, rest))
  }

  lemma PrefixedTwice(value: bytes, r: Option<(bytes, bytes)>)
    requires value != []
    ensures Prefixed([value[0]], Prefixed(value[1..], r)) == Prefixed(value, r)
  {
    if r.Some? {
      Assoc3([value[0]], value[1..], r.value.0);
      assert [value[0]] + value[1..] == value;
    }
  }

  lemma PrefixedNone(r: Option<(bytes, bytes)>)
    ensures Prefixed([], r) == r
  {
    if r.Some? {
      assert [] + r.value.0 == r.value.0;
    }
  }

  predicate IsDigit(c: char) {
    '0' <= c <= '9'
  }

  predicate AllDigits(s: bytes) {
    forall c :: c in s ==> IsDigit(c)
  }

  function DigitValue(c: char): nat
    requires IsDigit(c)
  {
    c as int - '0' as int
  }

  /** The text of a number as an output stream prints it. */
  function Decimal(n: int): bytes {
    if n < 0 then "-" + Digits(-n) else Digits(n)
  }

  function Digits(n: nat): (s: bytes)
    ensures s != [] && AllDigits(s)
  {
    var last: char := Byte('0' as int + n % 10);
    if n < 10 then [last] else Digits(n / 10) + [last]
  }

  function Value(s: bytes): nat
    requires AllDigits(s)
  {
    if s == [] then 0 else 10 * Value(s[..|s| - 1]) + DigitValue(s[|s| - 1])
  }

  lemma {:induction false} DigitsValue(n: nat)
    ensures Value(Digits(n)) == n
  {
    if n >= 10 {
      var d := Digits(n);
      assert d[..|d| - 1] == Digits(n / 10);
      DigitsValue(n / 10);
    }
  }

  /** No leading zero, except in zero itself. */
  lemma {:induction false} DigitsHaveNoLeadingZero(n: nat)
    ensures n > 0 ==> Digits(n)[0] != '0'
    ensures n == 0 ==> Digits(n) == "0"
  {
    if n >= 10 {
      DigitsHaveNoLeadingZero(n / 10);
      assert Digits(n)[0] == Digits(n / 10)[0];
    }
  }

  lemma DigitsSnoc(v: nat, c: char)
    requires v > 0 && IsDigit(c)
    ensures Digits(10 * v + DigitValue(c)) == Digits(v) + [c]
  {
    var n := 10 * v + DigitValue(c);
    assert n / 10 == v && n % 10 == DigitValue(c);
  }

  lemma ValueSnoc(front: bytes, c: char)
    requires AllDigits(front) && IsDigit(c)
    ensures AllDigits(front + [c]) && Value(front + [c]) == 10 * Value(front) + DigitValue(c)
  {
    assert (front + [c])[..|front|] == front;
  }

  /** Digits without a leading zero are the digits of their value. */
  lemma {:induction false} DigitsOfValue(d: bytes)
    requires d != [] && AllDigits(d) && (|d| > 1 ==> d[0] != '0')
    ensures Digits(Value(d)) == d
    ensures d[0] != '0' ==> Value(d) > 0
  {
    var front, last := d[..|d| - 1], d[|d| - 1];
    assert d == front + [last];
    assert last in d;
    forall c | c in front
      ensures IsDigit(c)
    {
      assert c in d;
    }
    ValueSnoc(front, last);
    if front != [] {
      DigitsOfValue(front);
      DigitsSnoc(Value(front), last);
    }
  }

  lemma DecimalIsInjective(a: int, b: int)
    requires Decimal(a) == Decimal(b)
    ensures a == b
  {
    DigitsValue(if a < 0 then -a else a);
    DigitsValue(if b < 0 then -b else b);
    var x, y := Digits(if a < 0 then -a else a), Digits(if b < 0 then -b else b);
    assert x[0] in x && y[0] in y;
    assert ("-" + x)[1..] == x && ("-" + y)[1..] == y;
  }

  /** How many digits a text begins with. */
  function DigitRun(s: bytes): (n: nat)
    ensures n <= |s|
    ensures AllDigits(s[..n])
    ensures n < |s| ==> !IsDigit(s[n])
  {
    if s == [] || !IsDigit(s[0]) then 0
    else
      var n := DigitRun(s[1..]);
      assert s[..n + 1] == [s[0]] + s[1..][..n];
      1 + n
  }

  lemma {:induction false} DigitRunOf(d: bytes, rest: bytes)
    requires AllDigits(d)
    requires rest == [] || !IsDigit(rest[0])
    ensures DigitRun(d + rest) == |d| && (d + rest)[..|d|] == d && (d + rest)[|d|..] == rest
  {
    if d == [] {
      assert d + rest == rest;
    } else {
      assert (d + rest)[1..] == d[1..] + rest;
      DigitRunOf(d[1..], rest);
    }
  }

  // Hexadecimal

  /** -1 for a character that is not a hexadecimal digit. */
  function HexNibble(c: char): int {
    if '0' <= c <= '9' then c as int - '0' as int
    else if 'a' <= c <= 'f' then c as int - 'a' as int + 10
    else if 'A' <= c <= 'F' then c as int - 'A' as int + 10
    else -1
  }

  function HexDigit(n: int): char
    requires 0 <= n < 16
  {
    if n < 10 then Byte('0' as int + n) else Byte('a' as int + n - 10)
  }

  function UpperHexDigit(n: int): char
    requires 0 <= n < 16
  {
    if n < 10 then Byte('0' as int + n) else Byte('A' as int + n - 10)
  }

  lemma HexDigitNibble(n: int)
    requires 0 <= n < 16
    ensures HexNibble(HexDigit(n)) == n && HexNibble(UpperHexDigit(n)) == n
  {
  }

  function HexByte(b: char): bytes {
    [HexDigit(b as int / 16 % 16), HexDigit(b as int % 16)]
  }

  function Hex(raw: bytes): bytes {
    if raw == [] then [] else HexByte(raw[0]) + Hex(raw[1..])
  }

  /** The bytes of a hexadecimal text; pairs with a bad digit are skipped and an odd last digit is dropped. */
  function Unhex(h: bytes): bytes {
    if |h| < 2 then []
    else
      var hi, lo := HexNibble(h[0]), HexNibble(h[1]);
      (if hi >= 0 && lo >= 0 then [Byte(16 * hi + lo)] else []) + Unhex(h[2..])
  }

  lemma {:induction false} HexLength(raw: bytes)
    ensures |Hex(raw)| == 2 * |raw|
  {
    if raw != [] {
      HexLength(raw[1..]);
    }
  }

  lemma {:induction false} UnhexHex(raw: bytes)
    requires IsBytes(raw)
    ensures Unhex(Hex(raw)) == raw
  {
    if raw != [] {
      UnhexHex(raw[1..]);
      var h := Hex(raw);
      HexDigitNibble(raw[0] as int / 16 % 16);
      HexDigitNibble(raw[0] as int % 16);
      assert h[2..] == Hex(raw[1..]);
      assert h[0] == HexDigit(raw[0] as int / 16 % 16) && h[1] == HexDigit(raw[0] as int % 16);
    }
  }

  /** Distinct byte strings have distinct hexadecimal texts. */
  lemma HexIsInjective(a: bytes, b: bytes)
    requires IsBytes(a) && IsBytes(b)
    ensures Hex(a) == Hex(b) <==> a == b
  {
    UnhexHex(a);
    UnhexHex(b);
  }

  predicate IsHexDigit(c: char) {
    HexNibble(c) >= 0
  }

  lemma {:induction false} HexIsHex(raw: bytes)
    ensures forall c :: c in Hex(raw) ==> IsHexDigit(c) && !('A' <= c <= 'F')
  {
    if raw != [] {
      HexIsHex(raw[1..]);
      HexDigitNibble(raw[0] as int / 16 % 16);
      HexDigitNibble(raw[0] as int % 16);
    }
  }

  lemma HexDigitsAre()
    ensures forall n :: 0 <= n < 16 ==> HexDigit(n) == "0123456789abcdef"[n]
    ensures forall n :: 0 <= n < 16 ==> UpperHexDigit(n) == "0123456789ABCDEF"[n]
  {
  }

  lemma HexDigitIs(c: char)
    ensures IsHexDigit(c) <==> c in "0123456789abcdefABCDEF"
  {
    if '0' <= c <= '9' {
      assert "0123456789abcdefABCDEF"[c as int - 48] == c;
    } else if 'a' <= c <= 'f' {
      assert "0123456789abcdefABCDEF"[c as int - 87] == c;
    } else if 'A' <= c <= 'F' {
      assert "0123456789abcdefABCDEF"[c as int - 49] == c;
    }
  }

  lemma {:induction false} HexAt(raw: bytes, i: nat)
    requires i < |raw|
    ensures |Hex(raw)| == 2 * |raw|
    ensures Hex(raw)[2 * i] == "0123456789abcdef"[raw[i] as int / 16 % 16]
    ensures Hex(raw)[2 * i + 1] == "0123456789abcdef"[raw[i] as int % 16]
  {
    HexLength(raw);
    HexDigitsAre();
    if i > 0 {
      HexAt(raw[1..], i - 1);
    }
  }

  /** bytes_to_hex: two lower-case digits for every byte, in order. */
  method BytesToHex(raw: bytes) returns (out: bytes)
    ensures out == Hex(raw) && |out| == 2 * |raw|
    ensures forall i :: 0 <= i < |raw| ==>
      && out[2 * i] == "0123456789abcdef"[raw[i] as int / 16 % 16]
      && out[2 * i + 1] == "0123456789abcdef"[raw[i] as int % 16]
  {
    HexLength(raw);
    forall i | 0 <= i < |raw|
      ensures Hex(raw)[2 * i] == "0123456789abcdef"[raw[i] as int / 16 % 16]
      ensures Hex(raw)[2 * i + 1] == "0123456789abcdef"[raw[i] as int % 16]
    {
      HexAt(raw, i);
    }
    out := [];
    for i := 0 to |raw|
      invariant Hex(raw) == out + Hex(raw[i..])
    {
      out := out + HexByte(raw[i]);
      assert raw[i..][1..] == raw[i + 1..];
    }
  }

  /** is_hex_string. */
  method IsHexString(s: bytes, expectedLen: nat) returns (ok: bool)
    ensures ok <==> |s| == expectedLen && forall c :: c in s ==> IsHexDigit(c)
    ensures ok <==> |s| == expectedLen && forall c :: c in s ==> c in "0123456789abcdefABCDEF"
  {
    forall c
      ensures IsHexDigit(c) <==> c in "0123456789abcdefABCDEF"
    {
      HexDigitIs(c);
    }
    if |s| != expectedLen {
      return false;
    }
    for i := 0 to |s|
      invariant forall k :: 0 <= k < i ==> IsHexDigit(s[k])
    {
      if !IsHexDigit(s[i]) {
        assert s[i] in s;
        return false;
      }
    }
    return true;
  }

  /** The test behind is_valid_info_hash and is_valid_peer_id. */
  predicate IsId(s: bytes) {
    |s| == 40 && forall c :: c in s ==> IsHexDigit(c)
  }

  lemma HexIsId(raw: bytes)
    ensures IsId(Hex(raw)) <==> |raw| == 20
  {
    HexLength(raw);
    HexIsHex(raw);
  }
}
