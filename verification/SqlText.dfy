/**
 SQL text: escaping of values, and a lexer for statements with string literals that follows the
 default MySQL rules (backslash escapes and doubled quotes).
*/
module SqlText {
  import opened Options
  import opened Text

  const QUOTE := '\''

  const BACKSLASH := '\\'

  // Escaping

  function EscapeChar(c: char): bytes {
    if c == QUOTE then [BACKSLASH, QUOTE] else if c == BACKSLASH then [BACKSLASH, BACKSLASH] else [c]
  }

  function Escape(value: bytes): bytes {
    if value == [] then [] else EscapeChar(value[0]) + Escape(value[1..])
  }

  lemma EscapedCharacters(c: char)
    ensures Escape(['\'']) == "\\'" && Escape(['\\']) == "\\\\"
    ensures c != '\'' && c != '\\' ==> Escape([c]) == [c]
  {
    EscapeStep(['\''], 0);
    EscapeStep(['\\'], 0);
    EscapeStep([c], 0);
    assert ['\''][0..] == ['\''] && ['\\'][0..] == ['\\'] && [c][0..] == [c];
  }

  lemma EscapeStep(value: bytes, i: nat)
    requires i < |value|
    ensures Escape(value[i..]) == EscapeChar(value[i]) + Escape(value[i + 1..])
  {
    assert value[i..][1..] == value[i + 1..];
  }

  /** escape. */
  method EscapeValue(value: bytes) returns (out: bytes)
    ensures out == Escape(value)
  {
    out := [];
    for i := 0 to |value|
      invariant out + Escape(value[i..]) == Escape(value)
    {
      EscapeStep(value, i);
      var added := [value[i]];
      if value[i] == QUOTE {
        added := [BACKSLASH, QUOTE];
      } else if value[i] == BACKSLASH {
        added := [BACKSLASH, BACKSLASH];
      }
      Assoc3(out, added, Escape(value[i + 1..]));
      out := out + added;
    }
  }

  // Lexing

  /** What a backslash and the character after it stand for inside a literal. */
  function Unescape(c: char): bytes {
    if c == '0' then [NUL]
    else if c == 'b' then [8 as char]
    else if c == 't' then [9 as char]
    else if c == 'n' then [10 as char]
    else if c == 'r' then [13 as char]
    else if c == 'Z' then [26 as char]
    else if c == '%' || c == '_' then [BACKSLASH, c]
    else [c]
  }

  /** The value of the literal whose opening quote has been read, and the text after its closing quote. */
  function LexString(s: bytes): (r: Option<(bytes, bytes)>)
    ensures r.Some? ==> |r.value.1| < |s|
  {
    if s == [] then None
    else if s[0] == BACKSLASH then
      if |s| == 1 then None else Prefixed(Unescape(s[1]), LexString(s[2..]))
    else if s[0] == QUOTE then
      if |s| > 1 && s[1] == QUOTE then Prefixed([QUOTE], LexString(s[2..])) else Some(([], s[1..]))
    else Prefixed([s[0]], LexString(s[1..]))
  }

  lemma LexOneChar(c: char, rest: bytes)
    ensures LexString(EscapeChar(c) + rest) == Prefixed([c], LexString(rest))
  {
    var s := EscapeChar(c) + rest;
    if c == QUOTE || c == BACKSLASH {
      assert s[0] == BACKSLASH && s[1] == c && s[2..] == rest;
      assert Unescape(c) == [c];
      assert LexString(s) == Prefixed(Unescape(s[1]), LexString(s[2..]));
    } else {
      assert s[0] == c && s[1..] == rest;
    }
  }

  /** An escaped value is read as itself, and lexing goes on behind it. */
  lemma {:induction false} LexEscaped(value: bytes, rest: bytes)
    ensures LexString(Escape(value) + rest) == Prefixed(value, LexString(rest))
  {
    if value == [] {
      assert Escape(value) + rest == rest;
      PrefixedNone(LexString(rest));
    } else {
      Assoc3(EscapeChar(value[0]), Escape(value[1..]), rest);
      LexOneChar(value[0], Escape(value[1..]) + rest);
      LexEscaped(value[1..], rest);
      PrefixedTwice(value, LexString(rest));
    }
  }

  /** A quoted, escaped value lexes to exactly that value exactly when no further quote follows it. */
  lemma LiteralRoundTrip(value: bytes, rest: bytes)
    ensures LexString(Escape(value) + ([QUOTE] + rest)) == Some((value, rest)) <==> rest == [] || rest[0] != QUOTE
  {
    LexEscaped(value, [QUOTE] + rest);
    var closed := [QUOTE] + rest;
    assert closed[1..] == rest;
    if rest == [] || rest[0] != QUOTE {
      assert value + [] == value;
    } else {
      var r := LexString(closed);
      assert r == Prefixed([QUOTE], LexString(closed[2..]));
      if r.Some? {
        assert |value + r.value.0| > |value|;
      }
    }
  }

  // Whole statements

  /** Statement text outside literals, or the value of a literal. */
  datatype Piece = Code(text: bytes) | Lit(value: bytes)

  /**
   Text without quotes of any kind, backslashes or comment openers, so that nothing in it starts a
   literal or a comment.
  */
  predicate Plain(text: bytes) {
    && QUOTE !in text && BACKSLASH !in text && '"' !in text && '`' !in text && '#' !in text && '/' !in text
    && forall i :: 0 <= i < |text| - 1 ==> !(text[i] == '-' && text[i + 1] == '-')
  }

  function Cons(p: Piece, r: Option<seq<Piece>>): Option<seq<Piece>> {
    match r
    case None => None
    case Some(ps) => Some([p] + ps)
  }

  function LexStatement(s: bytes): Option<seq<Piece>>
    decreases |s|
  {
    if s == [] then Some([])
    else if s[0] == QUOTE then
      match LexString(s[1..])
      case None => None
      case Some((value, rest)) => Cons(Lit(value), LexStatement(rest))
    else
      var k := Find(s, QUOTE);
      if Plain(s[..k]) then Cons(Code(s[..k]), LexStatement(s[k..])) else None
  }

  function RenderPiece(p: Piece): bytes {
    match p
    case Code(text) => text
    case Lit(value) => [QUOTE] + Escape(value) + [QUOTE]
  }

  /** The statement text for a list of pieces, with every value escaped between quotes. */
  function Render(pieces: seq<Piece>): bytes {
    if pieces == [] then [] else RenderPiece(pieces[0]) + Render(pieces[1..])
  }

  /** Code and literals alternate, and code is plain. */
  predicate Alternates(pieces: seq<Piece>) {
    && (forall i :: 0 <= i < |pieces| && pieces[i].Code? ==> pieces[i].text != [] && Plain(pieces[i].text))
    && (forall i :: 0 <= i < |pieces| - 1 ==> pieces[i].Code? != pieces[i + 1].Code?)
  }

  lemma LexCode(text: bytes, rest: bytes)
    requires text != [] && Plain(text) && (rest == [] || rest[0] == QUOTE)
    ensures LexStatement(text + rest) == Cons(Code(text), LexStatement(rest))
  {
    FindAfter(text, QUOTE, if rest == [] then [] else rest[1..]);
    assert rest != [] ==> text + rest == text + [QUOTE] + rest[1..];
    assert (text + rest)[..|text|] == text && (text + rest)[|text|..] == rest;
    assert text + [] == text && (text + rest)[0] == text[0] && text[0] in text;
  }

  lemma LexLiteral(value: bytes, rest: bytes)
    requires rest == [] || rest[0] != QUOTE
    ensures LexStatement([QUOTE] + Escape(value) + [QUOTE] + rest) == Cons(Lit(value), LexStatement(rest))
  {
    var s := [QUOTE] + Escape(value) + [QUOTE] + rest;
    assert s[1..] == Escape(value) + ([QUOTE] + rest);
    LiteralRoundTrip(value, rest);
  }

  /** A rendered statement lexes to exactly its pieces, whatever the values are. */
  lemma {:induction false} StatementRoundTrip(pieces: seq<Piece>)
    requires Alternates(pieces)
    ensures LexStatement(Render(pieces)) == Some(pieces)
  {
    if pieces != [] {
      var rest := Render(pieces[1..]);
      StatementRoundTrip(pieces[1..]);
      if |pieces| > 1 {
        assert pieces[0].Code? != pieces[1].Code?;
        FirstOfRender(pieces[1..]);
      }
      LexPiece(pieces[0], rest);
      ConsInjective(pieces[0], LexStatement(rest), pieces);
    }
  }

  lemma LexPiece(p: Piece, rest: bytes)
    requires p.Code? ==> p.text != [] && Plain(p.text) && (rest == [] || rest[0] == QUOTE)
    requires p.Lit? ==> rest == [] || rest[0] != QUOTE
    ensures LexStatement(RenderPiece(p) + rest) == Cons(p, LexStatement(rest))
  {
    match p
    case Code(text) => LexCode(text, rest);
    case Lit(value) => LexLiteral(value, rest);
  }

  lemma FirstOfRender(pieces: seq<Piece>)
    requires pieces != [] && Alternates(pieces)
    ensures Render(pieces) != [] && (Render(pieces)[0] == QUOTE <==> pieces[0].Lit?)
  {
    if pieces[0].Code? {
      assert pieces[0].text[0] in pieces[0].text;
    }
  }

  // Statements are handed over as C strings

  function CStr(s: bytes): bytes {
    if s == [] || s[0] == NUL then [] else [s[0]] + CStr(s[1..])
  }

  lemma {:induction false} CStrClean(a: bytes, rest: bytes)
    requires NUL !in a
    ensures CStr(a + rest) == a + CStr(rest)
  {
    if a == [] {
      assert a + rest == rest;
    } else {
      assert (a + rest)[1..] == a[1..] + rest;
      CStrClean(a[1..], rest);
    }
  }

  lemma {:induction false} EscapeClean(value: bytes)
    ensures NUL in Escape(value) <==> NUL in value
  {
    if value != [] {
      EscapeClean(value[1..]);
    }
  }

  /** Cut at its first NUL, an escaped value is the escape of the value cut there. */
  lemma {:induction false} CStrOfEscape(value: bytes, rest: bytes)
    requires NUL in value
    ensures CStr(Escape(value) + rest) == Escape(CStr(value))
  {
    var tail := Escape(value[1..]) + rest;
    Assoc3(EscapeChar(value[0]), Escape(value[1..]), rest);
    if value[0] == NUL {
      assert (EscapeChar(value[0]) + tail)[0] == NUL;
    } else {
      CStrOfEscape(value[1..], rest);
      CStrClean(EscapeChar(value[0]), tail);
      assert CStr(value) == [value[0]] + CStr(value[1..]);
      assert CStr(value)[1..] == CStr(value[1..]);
    }
  }

  predicate CleanPiece(p: Piece) {
    match p
    case Code(text) => NUL !in text
    case Lit(value) => NUL !in value
  }

  lemma RenderPieceClean(p: Piece)
    requires CleanPiece(p)
    ensures NUL !in RenderPiece(p)
  {
    if p.Lit? {
      EscapeClean(p.value);
    }
  }

  /** A literal cut inside has no closing quote, so the statement does not lex. */
  lemma CutLiteral(value: bytes, rest: bytes)
    requires NUL in value
    ensures LexStatement(CStr([QUOTE] + Escape(value) + [QUOTE] + rest)) == None
  {
    var s := [QUOTE] + Escape(value) + [QUOTE] + rest;
    assert s == [QUOTE] + (Escape(value) + ([QUOTE] + rest));
    CStrClean([QUOTE], Escape(value) + ([QUOTE] + rest));
    CStrOfEscape(value, [QUOTE] + rest);
    var cut := Escape(CStr(value));
    assert ([QUOTE] + cut)[1..] == cut;
    LexEscaped(CStr(value), []);
    assert cut + [] == cut;
  }

  /** A clean first piece is received whole, and the rest as it is received on its own. */
  lemma SentPiece(pieces: seq<Piece>)
    requires pieces != [] && Alternates(pieces) && CleanPiece(pieces[0])
    requires forall i :: 0 <= i < |pieces| && pieces[i].Code? ==> CleanPiece(pieces[i])
    ensures LexStatement(CStr(Render(pieces))) == Cons(pieces[0], LexStatement(CStr(Render(pieces[1..]))))
  {
    var rest := Render(pieces[1..]);
    RenderPieceClean(pieces[0]);
    CStrClean(RenderPiece(pieces[0]), rest);
    if |pieces| > 1 {
      assert pieces[0].Code? != pieces[1].Code?;
      SentFirst(pieces[1..]);
    }
    LexPiece(pieces[0], CStr(rest));
  }

  /**
   What the server receives lexes to the intended pieces when no value holds a NUL byte; otherwise
   it is cut inside a literal and is no statement at all.
  */
  lemma {:induction false} SentStatementExactly(pieces: seq<Piece>)
    requires Alternates(pieces)
    requires forall i :: 0 <= i < |pieces| && pieces[i].Code? ==> CleanPiece(pieces[i])
    ensures LexStatement(CStr(Render(pieces))) == if AllClean(pieces) then Some(pieces) else None
  {
    if pieces != [] {
      AllCleanCons(pieces);
      if CleanPiece(pieces[0]) {
        SentStatementExactly(pieces[1..]);
        SentPiece(pieces);
        ConsInjective(pieces[0], LexStatement(CStr(Render(pieces[1..]))), pieces);
      } else {
        CutLiteral(pieces[0].value, Render(pieces[1..]));
      }
    }
  }

  lemma AllCleanCons(pieces: seq<Piece>)
    requires pieces != []
    ensures AllClean(pieces) <==> CleanPiece(pieces[0]) && AllClean(pieces[1..])
  {
    assert pieces == [pieces[0]] + pieces[1..];
  }

  predicate AllClean(pieces: seq<Piece>) {
    forall p :: p in pieces ==> CleanPiece(p)
  }

  lemma SentFirst(pieces: seq<Piece>)
    requires pieces != [] && Alternates(pieces)
    requires pieces[0].Code? ==> CleanPiece(pieces[0])
    ensures CStr(Render(pieces)) != [] && (CStr(Render(pieces))[0] == QUOTE <==> pieces[0].Lit?)
  {
    FirstOfRender(pieces);
    var s := Render(pieces);
    if pieces[0].Code? {
      assert s[0] == pieces[0].text[0] && pieces[0].text[0] in pieces[0].text;
    }
  }

  lemma ConsInjective(p: Piece, r: Option<seq<Piece>>, pieces: seq<Piece>)
    requires pieces != [] && pieces[0] == p
    ensures Cons(p, r) == Some(pieces) <==> r == Some(pieces[1..])
  {
    assert pieces == [p] + pieces[1..];
    if r.Some? {
      assert ([p] + r.value)[1..] == r.value;
    }
  }

  // Text that can be part of a statement outside literals

  /** Neither a quote, a backslash, a comment opener, a dash nor a NUL. */
  predicate CodeChar(c: char) {
    c != QUOTE && c != BACKSLASH && c != '"' && c != '`' && c != '#' && c != '/' && c != '-' && c != NUL
  }

  predicate Fixed(text: bytes) {
    text != [] && forall i :: 0 <= i < |text| ==> CodeChar(text[i])
  }

  /** Plain text to which fixed text and numbers can be appended. */
  predicate Extendable(text: bytes) {
    Plain(text) && NUL !in text && (text == [] || text[|text| - 1] != '-')
  }

  lemma FixedExtends(before: bytes, text: bytes)
    requires Extendable(before) && Fixed(text)
    ensures Extendable(before + text)
  {
    PlainFixed(text);
    PlainConcat(before, text);
  }

  lemma PlainFixed(text: bytes)
    requires Fixed(text)
    ensures Extendable(text)
  {
  }

  lemma PlainConcat(a: bytes, b: bytes)
    requires Plain(a) && Plain(b)
    requires a == [] || b == [] || b[0] != '-' || a[|a| - 1] != '-'
    ensures Plain(a + b)
  {
  }

  lemma PlainDecimal(n: int)
    ensures Extendable(Decimal(n)) && Decimal(n) != []
  {
    var d := Digits(if n < 0 then -n else n);
    assert forall i :: 0 <= i < |d| ==> d[i] in d;
  }

  /** Fixed text and a number. */
  lemma NumberExtends(before: bytes, text: bytes, n: int)
    requires Extendable(before) && Fixed(text)
    ensures Extendable(before + text + Decimal(n))
  {
    FixedExtends(before, text);
    PlainDecimal(n);
    PlainConcat(before + text, Decimal(n));
  }

  lemma FixedConcat(a: bytes, b: bytes)
    requires Fixed(a) && Fixed(b)
    ensures Fixed(a + b)
  {
  }

  predicate GoodCode(p: Piece) {
    p.Code? ==> p.text != [] && Plain(p.text) && CleanPiece(p)
  }

  lemma GoodAlternates(pieces: seq<Piece>)
    requires forall i :: 0 <= i < |pieces| ==> GoodCode(pieces[i])
    requires forall i :: 0 <= i < |pieces| ==> (pieces[i].Code? <==> i % 2 == 0)
    ensures Alternates(pieces)
    ensures forall i :: 0 <= i < |pieces| && pieces[i].Code? ==> CleanPiece(pieces[i])
  {
    forall i | 0 <= i < |pieces| - 1
      ensures pieces[i].Code? != pieces[i + 1].Code?
    {
      assert (i + 1) % 2 != i % 2;
    }
    forall i | 0 <= i < |pieces| && pieces[i].Code?
      ensures pieces[i].text != [] && Plain(pieces[i].text) && CleanPiece(pieces[i])
    {
      assert GoodCode(pieces[i]);
    }
  }

  lemma {:induction false} RenderSnoc(pieces: seq<Piece>, p: Piece)
    ensures Render(pieces + [p]) == Render(pieces) + RenderPiece(p)
  {
    if pieces == [] {
      assert [p][1..] == [];
      assert pieces + [p] == [p];
      assert Render([p]) == RenderPiece(p) + Render([]);
    } else {
      assert (pieces + [p])[1..] == pieces[1..] + [p];
      RenderSnoc(pieces[1..], p);
    }
  }

  // Streams of statements

  /** How far a statement has been written: the finished pieces, and the text after them. */
  datatype Progress = Progress(pieces: seq<Piece>, open: bytes)

  function TextOf(g: Progress): bytes {
    Render(g.pieces) + g.open
  }

  lemma InsertText(g: Progress, code: bytes, value: bytes, after: bytes)
    requires g.open == code + [QUOTE] && after != [] && after[0] == QUOTE
    ensures TextOf(g) + Escape(value) + after ==
      TextOf(Progress(g.pieces + [Code(code), Lit(value)], after[1..]))
  {
    var done := g.pieces + [Code(code)];
    RenderSnoc(g.pieces, Code(code));
    RenderSnoc(done, Lit(value));
    assert g.pieces + [Code(code), Lit(value)] == done + [Lit(value)];
    assert after == [QUOTE] + after[1..];
    var r, q, e, rest := Render(g.pieces), [QUOTE], Escape(value), after[1..];
    Assoc4(r, code + q, e, q + rest);
    Assoc3(code, q, e + (q + rest));
    Assoc4(r, code, q + e + q, rest);
    Assoc4(q, e, q, rest);
  }

  /** An escaped value and the text from its closing quote on; the quote before it has been written. */
  method PutValue(sql: bytes, ghost g: Progress, ghost code: bytes, ghost value: bytes, escaped: bytes, after: bytes)
    returns (sql': bytes, ghost g': Progress)
    requires sql == TextOf(g) && g.open == code + [QUOTE]
    requires escaped == Escape(value) && after != [] && after[0] == QUOTE
    ensures g' == Progress(g.pieces + [Code(code), Lit(value)], after[1..]) && sql' == TextOf(g')
  {
    InsertText(g, code, value, after);
    sql' := sql + escaped + after;
    g' := Progress(g.pieces + [Code(code), Lit(value)], after[1..]);
  }

  method Put(sql: bytes, ghost g: Progress, text: bytes) returns (sql': bytes, ghost g': Progress)
    requires sql == TextOf(g)
    ensures g' == Progress(g.pieces, g.open + text) && sql' == TextOf(g')
  {
    Assoc3(Render(g.pieces), g.open, text);
    sql' := sql + text;
    g' := Progress(g.pieces, g.open + text);
  }

  lemma QuoteAfter(before: bytes, text: bytes, quoted: bytes)
    requires quoted == text + [QUOTE]
    ensures before + quoted == before + text + [QUOTE]
  {
  }

  /** What the server makes of a statement text handed over as a C string. */
  function Received(sql: bytes): Option<seq<Piece>> {
    LexStatement(CStr(sql))
  }
}
