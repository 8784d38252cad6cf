/**
 What a received SQL statement says: its words, signs and values, and the statement a reader of the
 dialect's small part that the tracker uses makes of them. Nothing here knows what the tracker sends.
*/
module SqlSyntax {
  import opened Options
  import opened Text
  import opened SqlText

  // Words and signs

  datatype Token = Word(text: bytes) | Sign(c: char) | Value(text: bytes)

  const COMMA := Sign(',')

  const OPEN := Sign('(')

  const CLOSE := Sign(')')

  /** Characters of names, keywords and numbers. */
  predicate InWord(c: char) {
    'a' <= c <= 'z' || 'A' <= c <= 'Z' || '0' <= c <= '9' || c == '_' || c == '-'
  }

  predicate AllInWord(s: bytes) {
    forall i :: 0 <= i < |s| ==> InWord(s[i])
  }

  /** How many characters of a word a text begins with. */
  function WordRun(s: bytes): (n: nat)
    ensures n <= |s|
  {
    if s == [] || !InWord(s[0]) then 0 else 1 + WordRun(s[1..])
  }

  /** How much of a text its first token, or a space, takes up. */
  function FirstLength(s: bytes): (n: nat)
    requires s != []
    ensures 0 < n <= |s|
  {
    if WordRun(s) == 0 then 1 else WordRun(s)
  }

  function FirstToken(s: bytes): seq<Token>
    requires s != []
  {
    if s[0] == ' ' then [] else if InWord(s[0]) then [Word(s[..FirstLength(s)])] else [Sign(s[0])]
  }

  /** The words and signs of a text outside literals; spaces only separate. */
  function Words(s: bytes): seq<Token>
    decreases |s|
  {
    if s == [] then [] else FirstToken(s) + Words(s[FirstLength(s)..])
  }

  function PieceTokens(p: Piece): seq<Token> {
    match p
    case Code(text) => Words(text)
    case Lit(value) => [Value(value)]
  }

  function Tokens(pieces: seq<Piece>): seq<Token> {
    if pieces == [] then [] else PieceTokens(pieces[0]) + Tokens(pieces[1..])
  }

  lemma {:induction false} WordRunOf(w: bytes, rest: bytes)
    requires AllInWord(w) && (rest == [] || !InWord(rest[0]))
    ensures WordRun(w + rest) == |w|
  {
    if w == [] {
      assert w + rest == rest;
    } else {
      assert (w + rest)[1..] == w[1..] + rest;
      WordRunOf(w[1..], rest);
    }
  }

  lemma WordFirst(w: bytes, rest: bytes)
    requires w != [] && AllInWord(w) && (rest == [] || !InWord(rest[0]))
    ensures Words(w + rest) == [Word(w)] + Words(rest)
  {
    WordRunOf(w, rest);
    assert (w + rest)[..|w|] == w && (w + rest)[|w|..] == rest;
    assert (w + rest)[0] == w[0] && InWord(w[0]);
  }

  lemma SpaceFirst(rest: bytes)
    ensures Words(" " + rest) == Words(rest)
  {
    assert (" " + rest)[1..] == rest;
  }

  lemma SignFirst(c: char, rest: bytes)
    requires !InWord(c) && c != ' '
    ensures Words([c] + rest) == [Sign(c)] + Words(rest)
  {
    assert ([c] + rest)[1..] == rest && WordRun([c] + rest) == 0;
  }

  /** No word goes across the border of two texts. */
  predicate Apart(a: bytes, b: bytes) {
    a == [] || b == [] || !InWord(a[|a| - 1]) || !InWord(b[0])
  }

  lemma {:induction false} WordRunInFront(a: bytes, b: bytes)
    requires a != [] && Apart(a, b)
    ensures WordRun(a + b) == WordRun(a)
  {
    assert (a + b)[0] == a[0] && (a + b)[1..] == a[1..] + b;
    if |a| > 1 {
      if InWord(a[0]) {
        WordRunInFront(a[1..], b);
      }
    } else {
      assert a[1..] + b == b;
    }
  }

  lemma FirstOfConcat(a: bytes, b: bytes)
    requires a != [] && Apart(a, b)
    ensures FirstLength(a + b) == FirstLength(a) && FirstToken(a + b) == FirstToken(a)
    ensures (a + b)[FirstLength(a)..] == a[FirstLength(a)..] + b
  {
    WordRunInFront(a, b);
    assert (a + b)[0] == a[0] && (a + b)[..FirstLength(a)] == a[..FirstLength(a)];
  }

  /** Texts that do not share a word are read one after the other. */
  lemma {:induction false} WordsConcat(a: bytes, b: bytes)
    requires Apart(a, b)
    ensures Words(a + b) == Words(a) + Words(b)
    decreases |a|
  {
    if a == [] {
      assert a + b == b;
    } else {
      FirstOfConcat(a, b);
      WordsConcat(a[FirstLength(a)..], b);
    }
  }

  lemma TokensFirst(p: Piece, rest: seq<Piece>)
    ensures Tokens([p] + rest) == PieceTokens(p) + Tokens(rest)
  {
    assert ([p] + rest)[1..] == rest;
  }

  // Statements

  /** `Ago` is a time so many seconds before the server's. */
  datatype Term = Quoted(value: bytes) | Number(n: int) | Now | Ago(seconds: int)

  datatype Rel = Equal | Unequal | Above | Below

  datatype Cond = Cond(column: bytes, rel: Rel, term: Term)

  /** What a column is set to: a term, the number of rows of a table, or another column and a number. */
  datatype Amount = Plain(term: Term) | CountOf(table: bytes, where: seq<Cond>) | Plus(column: bytes, n: int)

  datatype Assign = Assign(column: bytes, amount: Amount)

  datatype Statement =
    | Insert(table: bytes, columns: seq<bytes>, terms: seq<Term>, updates: seq<Assign>)
    | Delete(table: bytes, where: seq<Cond>)
    | Update(table: bytes, updates: seq<Assign>, where: seq<Cond>)
    | Select(columns: seq<bytes>, table: bytes, where: seq<Cond>, newestBy: Option<bytes>, limit: Option<int>)

  /** A value read, and the tokens behind it. */
  type Read<T> = Option<(T, seq<Token>)>

  function NatOf(w: bytes): Option<int> {
    if w != [] && AllDigits(w) then Some(Text.Value(w)) else None
  }

  function IntOf(w: bytes): Option<int> {
    if w != [] && w[0] == '-' then
      match NatOf(w[1..])
      case None => None
      case Some(n) => Some(-n)
    else NatOf(w)
  }

  const AGO := [Word("DATE_SUB"), OPEN, Word("NOW"), OPEN, CLOSE, COMMA, Word("INTERVAL")]

  /** A number, a unit of time and the closing parenthesis. */
  function ReadInterval(ts: seq<Token>): Read<Term> {
    if |ts| < 3 || !ts[0].Word? || ts[2] != CLOSE then None
    else
      match IntOf(ts[0].text)
      case None => None
      case Some(n) =>
        if ts[1] == Word("HOUR") then Some((Ago(n * 3600), ts[3..]))
        else if ts[1] == Word("SECOND") then Some((Ago(n), ts[3..]))
        else None
  }

  function ReadTerm(ts: seq<Token>): (r: Read<Term>)
    ensures r.Some? ==> |r.value.1| < |ts|
  {
    if ts == [] then None
    else if [Word("NOW"), OPEN, CLOSE] <= ts then Some((Now, ts[3..]))
    else if AGO <= ts then ReadInterval(ts[|AGO|..])
    else
      match ts[0]
      case Value(v) => Some((Quoted(v), ts[1..]))
      case Sign(_) => None
      case Word(w) =>
        match IntOf(w)
        case None => None
        case Some(n) => Some((Number(n), ts[1..]))
  }

  function RelTokens(rel: Rel): seq<Token> {
    match rel
    case Equal => [Sign('=')]
    case Unequal => [Sign('!'), Sign('=')]
    case Above => [Sign('>')]
    case Below => [Sign('<')]
  }

  function ReadRel(ts: seq<Token>): (r: Read<Rel>)
    ensures r.Some? ==> |r.value.1| < |ts|
  {
    if RelTokens(Equal) <= ts then Some((Equal, ts[1..]))
    else if RelTokens(Unequal) <= ts then Some((Unequal, ts[2..]))
    else if RelTokens(Above) <= ts then Some((Above, ts[1..]))
    else if RelTokens(Below) <= ts then Some((Below, ts[1..]))
    else None
  }

  function ReadCond(ts: seq<Token>): (r: Read<Cond>)
    ensures r.Some? ==> |r.value.1| < |ts|
  {
    if ts == [] || !ts[0].Word? then None
    else
      match ReadRel(ts[1..])
      case None => None
      case Some((rel, rest)) =>
        match ReadTerm(rest)
        case None => None
        case Some((term, after)) => Some((Cond(ts[0].text, rel, term), after))
  }

  /** Conditions with AND between them. */
  function ReadConds(ts: seq<Token>): (r: Read<seq<Cond>>)
    ensures r.Some? ==> |r.value.1| < |ts|
    decreases |ts|
  {
    match ReadCond(ts)
    case None => None
    case Some((cond, rest)) =>
      if [Word("AND")] <= rest then
        match ReadConds(rest[1..])
        case None => None
        case Some((more, after)) => Some(([cond] + more, after))
      else Some(([cond], rest))
  }

  function ReadTerms(ts: seq<Token>): (r: Read<seq<Term>>)
    ensures r.Some? ==> |r.value.1| < |ts|
    decreases |ts|
  {
    match ReadTerm(ts)
    case None => None
    case Some((term, rest)) =>
      if [COMMA] <= rest then
        match ReadTerms(rest[1..])
        case None => None
        case Some((more, after)) => Some(([term] + more, after))
      else Some(([term], rest))
  }

  function ReadNames(ts: seq<Token>): (r: Read<seq<bytes>>)
    ensures r.Some? ==> |r.value.1| < |ts|
    decreases |ts|
  {
    if ts == [] || !ts[0].Word? then None
    else if [COMMA] <= ts[1..] then
      match ReadNames(ts[2..])
      case None => None
      case Some((more, after)) => Some(([ts[0].text] + more, after))
    else Some(([ts[0].text], ts[1..]))
  }

  const COUNT_FROM := [OPEN, Word("SELECT"), Word("COUNT"), OPEN, Sign('*'), CLOSE, Word("FROM")]

  function ReadCount(ts: seq<Token>): (r: Read<Amount>)
    ensures r.Some? ==> |r.value.1| < |ts|
  {
    if |ts| < 2 || !ts[0].Word? || ts[1] != Word("WHERE") then None
    else
      match ReadConds(ts[2..])
      case None => None
      case Some((where, rest)) =>
        if [CLOSE] <= rest then Some((CountOf(ts[0].text, where), rest[1..])) else None
  }

  function ReadAmount(ts: seq<Token>): (r: Read<Amount>)
    ensures r.Some? ==> |r.value.1| < |ts|
  {
    if COUNT_FROM <= ts then ReadCount(ts[|COUNT_FROM|..])
    else if |ts| >= 3 && ts[0].Word? && ts[1] == Sign('+') && ts[2].Word? && IntOf(ts[2].text).Some? then
      Some((Plus(ts[0].text, IntOf(ts[2].text).value), ts[3..]))
    else
      match ReadTerm(ts)
      case None => None
      case Some((term, rest)) => Some((Plain(term), rest))
  }

  function ReadAssign(ts: seq<Token>): (r: Read<Assign>)
    ensures r.Some? ==> |r.value.1| < |ts|
  {
    if |ts| < 2 || !ts[0].Word? || ts[1] != Sign('=') then None
    else
      match ReadAmount(ts[2..])
      case None => None
      case Some((amount, rest)) => Some((Assign(ts[0].text, amount), rest))
  }

  function ReadAssigns(ts: seq<Token>): (r: Read<seq<Assign>>)
    ensures r.Some? ==> |r.value.1| < |ts|
    decreases |ts|
  {
    match ReadAssign(ts)
    case None => None
    case Some((assign, rest)) =>
      if [COMMA] <= rest then
        match ReadAssigns(rest[1..])
        case None => None
        case Some((more, after)) => Some(([assign] + more, after))
      else Some(([assign], rest))
  }

  const ON_DUPLICATE_UPDATE := [CLOSE, Word("ON"), Word("DUPLICATE"), Word("KEY"), Word("UPDATE")]

  /** The table, its columns and the row, and what a duplicate key updates. */
  function ReadInsert(ts: seq<Token>): Option<Statement> {
    if |ts| < 2 || !ts[0].Word? || ts[1] != OPEN then None
    else
      match ReadNames(ts[2..])
      case None => None
      case Some((columns, rest)) =>
        if !([CLOSE, Word("VALUES"), OPEN] <= rest) then None
        else
          match ReadTerms(rest[3..])
          case None => None
          case Some((terms, tail)) =>
            if !(ON_DUPLICATE_UPDATE <= tail) then None
            else
              match ReadAssigns(tail[|ON_DUPLICATE_UPDATE|..])
              case None => None
              case Some((updates, after)) =>
                if after == [] then Some(Insert(ts[0].text, columns, terms, updates)) else None
  }

  function ReadDelete(ts: seq<Token>): Option<Statement> {
    if |ts| < 2 || !ts[0].Word? || ts[1] != Word("WHERE") then None
    else
      match ReadConds(ts[2..])
      case None => None
      case Some((where, after)) => if after == [] then Some(Delete(ts[0].text, where)) else None
  }

  function ReadUpdate(ts: seq<Token>): Option<Statement> {
    if |ts| < 2 || !ts[0].Word? || ts[1] != Word("SET") then None
    else
      match ReadAssigns(ts[2..])
      case None => None
      case Some((updates, rest)) =>
        if !([Word("WHERE")] <= rest) then None
        else
          match ReadConds(rest[1..])
          case None => None
          case Some((where, after)) => if after == [] then Some(Update(ts[0].text, updates, where)) else None
  }

  /** ORDER BY column DESC, if it is there. */
  function ReadOrder(ts: seq<Token>): (Option<bytes>, seq<Token>) {
    if [Word("ORDER"), Word("BY")] <= ts && |ts| >= 4 && ts[2].Word? && ts[3] == Word("DESC") then
      (Some(ts[2].text), ts[4..])
    else (None, ts)
  }

  /** LIMIT number, if anything, ends the statement. */
  function ReadLimit(ts: seq<Token>): Option<Option<int>> {
    if ts == [] then Some(None)
    else if |ts| == 2 && ts[0] == Word("LIMIT") && ts[1].Word? && IntOf(ts[1].text).Some? then
      Some(IntOf(ts[1].text))
    else None
  }

  function ReadSelect(ts: seq<Token>): Option<Statement> {
    match ReadNames(ts)
    case None => None
    case Some((columns, rest)) =>
      if |rest| < 3 || rest[0] != Word("FROM") || !rest[1].Word? || rest[2] != Word("WHERE") then None
      else
        match ReadConds(rest[3..])
        case None => None
        case Some((where, tail)) =>
          var (newestBy, after) := ReadOrder(tail);
          match ReadLimit(after)
          case None => None
          case Some(limit) => Some(Select(columns, rest[1].text, where, newestBy, limit))
  }

  function ReadStatement(ts: seq<Token>): Option<Statement> {
    if [Word("INSERT"), Word("INTO")] <= ts then ReadInsert(ts[2..])
    else if [Word("DELETE"), Word("FROM")] <= ts then ReadDelete(ts[2..])
    else if [Word("UPDATE")] <= ts then ReadUpdate(ts[1..])
    else if [Word("SELECT")] <= ts then ReadSelect(ts[1..])
    else None
  }

  /** The statement a server makes of a text handed over as a C string, if it is one. */
  function StatementOf(sql: bytes): Option<Statement> {
    match Received(sql)
    case None => None
    case Some(pieces) => ReadStatement(Tokens(pieces))
  }

  // Reading step by step

  lemma DigitsAreWord(n: nat)
    ensures AllInWord(Digits(n)) && Digits(n) != [] && IsDigit(Digits(n)[0])
    ensures NatOf(Digits(n)) == Some(n)
  {
    var d := Digits(n);
    DigitsValue(n);
    forall i | 0 <= i < |d|
      ensures IsDigit(d[i])
    {
      assert d[i] in d;
    }
  }

  lemma IntOfDecimal(n: int)
    ensures IntOf(Decimal(n)) == Some(n) && AllInWord(Decimal(n)) && Decimal(n) != []
    ensures Decimal(n)[0] == '-' || IsDigit(Decimal(n)[0])
  {
    hide Digits, NatOf;
    if n < 0 {
      DigitsAreWord(-n);
      assert ("-" + Digits(-n))[1..] == Digits(-n);
    } else {
      DigitsAreWord(n);
    }
  }

  lemma TermQuoted(v: bytes, rest: seq<Token>)
    ensures ReadTerm([Value(v)] + rest) == Some((Quoted(v), rest))
  {
    var ts := [Value(v)] + rest;
    assert ts[0] == Value(v) && ts[1..] == rest;
  }

  lemma TermNumber(n: int, rest: seq<Token>)
    ensures ReadTerm([Word(Decimal(n))] + rest) == Some((Number(n), rest))
  {
    var ts := [Word(Decimal(n))] + rest;
    IntOfDecimal(n);
    assert Decimal(n)[0] != "NOW"[0] && Decimal(n)[0] != "DATE_SUB"[0];
    assert ts[0] == Word(Decimal(n)) && ts[1..] == rest;
    assert AGO[0] == Word("DATE_SUB");
  }

  lemma TermNow(rest: seq<Token>)
    ensures ReadTerm([Word("NOW"), OPEN, CLOSE] + rest) == Some((Now, rest))
  {
    var ts := [Word("NOW"), OPEN, CLOSE] + rest;
    assert ts[3..] == rest;
  }

  lemma TermAgo(n: int, unit: bytes, rest: seq<Token>)
    requires unit == "HOUR" || unit == "SECOND"
    ensures ReadTerm(AGO + ([Word(Decimal(n)), Word(unit), CLOSE] + rest)) ==
      Some((Ago(if unit == "HOUR" then n * 3600 else n), rest))
  {
    var tail := [Word(Decimal(n)), Word(unit), CLOSE] + rest;
    var ts := AGO + tail;
    IntOfDecimal(n);
    assert |"NOW"| != |"DATE_SUB"| && |"HOUR"| != |"SECOND"|;
    assert ts[0] == Word("DATE_SUB") && ts[|AGO|..] == tail && tail[3..] == rest;
  }

  lemma RelFirst(rel: Rel, rest: seq<Token>)
    ensures ReadRel(RelTokens(rel) + rest) == Some((rel, rest))
  {
    var ts := RelTokens(rel) + rest;
    assert ts[|RelTokens(rel)|..] == rest && ts[0] == RelTokens(rel)[0];
  }

  lemma CondFirst(column: bytes, rel: Rel, ts: seq<Token>, term: Term, rest: seq<Token>)
    requires ReadTerm(ts) == Some((term, rest))
    ensures ReadCond([Word(column)] + (RelTokens(rel) + ts)) == Some((Cond(column, rel, term), rest))
  {
    RelFirst(rel, ts);
    var all := [Word(column)] + (RelTokens(rel) + ts);
    assert all[1..] == RelTokens(rel) + ts;
  }

  lemma CondsMore(ts: seq<Token>, cond: Cond, more: seq<Token>, conds: seq<Cond>, rest: seq<Token>)
    requires ReadCond(ts) == Some((cond, [Word("AND")] + more)) && ReadConds(more) == Some((conds, rest))
    ensures ReadConds(ts) == Some(([cond] + conds, rest))
  {
    assert ([Word("AND")] + more)[1..] == more;
  }

  lemma CondsLast(ts: seq<Token>, cond: Cond, rest: seq<Token>)
    requires ReadCond(ts) == Some((cond, rest)) && (rest == [] || rest[0] != Word("AND"))
    ensures ReadConds(ts) == Some(([cond], rest))
  {
  }

  lemma TermsMore(ts: seq<Token>, term: Term, more: seq<Token>, terms: seq<Term>, rest: seq<Token>)
    requires ReadTerm(ts) == Some((term, [COMMA] + more)) && ReadTerms(more) == Some((terms, rest))
    ensures ReadTerms(ts) == Some(([term] + terms, rest))
  {
    assert ([COMMA] + more)[1..] == more;
  }

  lemma TermsLast(ts: seq<Token>, term: Term, rest: seq<Token>)
    requires ReadTerm(ts) == Some((term, rest)) && (rest == [] || rest[0] != COMMA)
    ensures ReadTerms(ts) == Some(([term], rest))
  {
  }

  lemma NamesMore(name: bytes, more: seq<Token>, names: seq<bytes>, rest: seq<Token>)
    requires ReadNames(more) == Some((names, rest))
    ensures ReadNames([Word(name), COMMA] + more) == Some(([name] + names, rest))
  {
    var ts := [Word(name), COMMA] + more;
    assert ts[1] == COMMA && ts[2..] == more;
  }

  lemma NamesLast(name: bytes, rest: seq<Token>)
    requires rest == [] || rest[0] != COMMA
    ensures ReadNames([Word(name)] + rest) == Some(([name], rest))
  {
    var ts := [Word(name)] + rest;
    assert ts[1..] == rest;
  }

  lemma TermAmount(ts: seq<Token>, term: Term, rest: seq<Token>)
    requires ReadTerm(ts) == Some((term, rest))
    requires |ts| > 1 ==> ts[1] != Sign('+')
    ensures ReadAmount(ts) == Some((Plain(term), rest))
  {
    assert COUNT_FROM[0] == OPEN;
  }

  lemma CountAmount(table: bytes, ts: seq<Token>, where: seq<Cond>, rest: seq<Token>)
    requires ReadConds(ts) == Some((where, [CLOSE] + rest))
    ensures ReadAmount(COUNT_FROM + ([Word(table), Word("WHERE")] + ts)) == Some((CountOf(table, where), rest))
  {
    hide ReadConds;
    var count := [Word(table), Word("WHERE")] + ts;
    assert count[2..] == ts && ([CLOSE] + rest)[1..] == rest;
    assert (COUNT_FROM + count)[|COUNT_FROM|..] == count;
  }

  lemma AssignFirst(column: bytes, ts: seq<Token>, amount: Amount, rest: seq<Token>)
    requires ReadAmount(ts) == Some((amount, rest))
    ensures ReadAssign([Word(column), Sign('=')] + ts) == Some((Assign(column, amount), rest))
  {
    var all := [Word(column), Sign('=')] + ts;
    assert all[2..] == ts;
  }

  lemma AssignsMore(ts: seq<Token>, assign: Assign, more: seq<Token>, assigns: seq<Assign>, rest: seq<Token>)
    requires ReadAssign(ts) == Some((assign, [COMMA] + more)) && ReadAssigns(more) == Some((assigns, rest))
    ensures ReadAssigns(ts) == Some(([assign] + assigns, rest))
  {
    assert ([COMMA] + more)[1..] == more;
  }

  lemma AssignsLast(ts: seq<Token>, assign: Assign, rest: seq<Token>)
    requires ReadAssign(ts) == Some((assign, rest)) && (rest == [] || rest[0] != COMMA)
    ensures ReadAssigns(ts) == Some(([assign], rest))
  {
  }

  lemma KeywordsDiffer()
    ensures "INSERT" != "DELETE" && "INSERT" != "UPDATE" && "INSERT" != "SELECT"
    ensures "DELETE" != "UPDATE" && "DELETE" != "SELECT" && "UPDATE" != "SELECT"
  {
    assert "INSERT"[0] != "DELETE"[0] && "INSERT"[0] != "UPDATE"[0] && "INSERT"[0] != "SELECT"[0];
    assert "DELETE"[0] != "UPDATE"[0] && "DELETE"[0] != "SELECT"[0] && "UPDATE"[0] != "SELECT"[0];
  }

  lemma DeleteOf(table: bytes, ts: seq<Token>, where: seq<Cond>)
    requires ReadConds(ts) == Some((where, []))
    ensures ReadStatement([Word("DELETE"), Word("FROM"), Word(table), Word("WHERE")] + ts) ==
      Some(Delete(table, where))
  {
    hide ReadConds;
    KeywordsDiffer();
    var body := [Word(table), Word("WHERE")] + ts;
    assert body[2..] == ts;
    var all := [Word("DELETE"), Word("FROM"), Word(table), Word("WHERE")] + ts;
    assert all[2..] == body && all[0] == Word("DELETE");
  }

  lemma UpdateOf(table: bytes, ts: seq<Token>, updates: seq<Assign>, more: seq<Token>, where: seq<Cond>)
    requires ReadAssigns(ts) == Some((updates, [Word("WHERE")] + more)) && ReadConds(more) == Some((where, []))
    ensures ReadStatement([Word("UPDATE"), Word(table), Word("SET")] + ts) == Some(Update(table, updates, where))
  {
    hide ReadConds, ReadAssigns;
    KeywordsDiffer();
    var body := [Word(table), Word("SET")] + ts;
    assert body[2..] == ts && ([Word("WHERE")] + more)[1..] == more;
    var all := [Word("UPDATE"), Word(table), Word("SET")] + ts;
    assert all[1..] == body && all[0] == Word("UPDATE");
  }

  lemma InsertBody(table: bytes, names: seq<Token>, columns: seq<bytes>, values: seq<Token>, terms: seq<Term>,
                   assigns: seq<Token>, updates: seq<Assign>)
    requires ReadNames(names) == Some((columns, [CLOSE, Word("VALUES"), OPEN] + values))
    requires ReadTerms(values) == Some((terms, ON_DUPLICATE_UPDATE + assigns))
    requires ReadAssigns(assigns) == Some((updates, []))
    ensures ReadInsert([Word(table), OPEN] + names) == Some(Insert(table, columns, terms, updates))
  {
    hide ReadNames, ReadTerms, ReadAssigns;
    var body := [Word(table), OPEN] + names;
    assert body[2..] == names;
    assert ([CLOSE, Word("VALUES"), OPEN] + values)[3..] == values;
    assert (ON_DUPLICATE_UPDATE + assigns)[|ON_DUPLICATE_UPDATE|..] == assigns;
  }

  lemma InsertOf(body: seq<Token>)
    ensures ReadStatement([Word("INSERT"), Word("INTO")] + body) == ReadInsert(body)
  {
    hide ReadInsert;
    assert ([Word("INSERT"), Word("INTO")] + body)[2..] == body;
  }

  lemma SelectBody(ts: seq<Token>, columns: seq<bytes>, table: bytes, conds: seq<Token>, where: seq<Cond>,
                   tail: seq<Token>, newestBy: Option<bytes>, after: seq<Token>, limit: Option<int>)
    requires ReadNames(ts) == Some((columns, [Word("FROM"), Word(table), Word("WHERE")] + conds))
    requires ReadConds(conds) == Some((where, tail))
    requires ReadOrder(tail) == (newestBy, after) && ReadLimit(after) == Some(limit)
    ensures ReadSelect(ts) == Some(Select(columns, table, where, newestBy, limit))
  {
    hide ReadNames, ReadConds, ReadOrder, ReadLimit;
    var rest := [Word("FROM"), Word(table), Word("WHERE")] + conds;
    assert rest[3..] == conds;
  }

  lemma SelectOf(body: seq<Token>)
    ensures ReadStatement([Word("SELECT")] + body) == ReadSelect(body)
  {
    hide ReadSelect;
    KeywordsDiffer();
    var all := [Word("SELECT")] + body;
    assert all[1..] == body && all[0] == Word("SELECT");
  }
}
