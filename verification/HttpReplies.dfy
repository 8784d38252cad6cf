/**
 The text of replies, and a reader of HTTP messages that takes as many bytes of body as the
 Content-Length header says.
*/
module HttpReplies {
  import opened Options
  import opened Text

  /** Replies with status 400, 500 and 200. */
  datatype Reply = BadRequest | ServerError | Okay(body: bytes)

  const CRLF: bytes := "\r\n"

  const LENGTH: bytes := "Content-Length: "

  // The text of a reply

  function Lines(lines: seq<bytes>): bytes {
    if lines == [] then [] else lines[0] + CRLF + Lines(lines[1..])
  }

  function StatusOf(reply: Reply): bytes {
    match reply
    case BadRequest => "HTTP/1.1 400 Bad Request"
    case ServerError => "HTTP/1.1 500 " + "Internal Server Error"
    case Okay(_) => "HTTP/1.1 200 OK"
  }

  function BodyOf(reply: Reply): bytes {
    if reply.Okay? then reply.body else []
  }

  function HeadersOf(reply: Reply): seq<bytes> {
    (if reply.Okay? then ["Content-Type: text/plain"] else [])
    + [LENGTH + Decimal(|BodyOf(reply)|), "Connection: close"]
  }

  function TextOf(reply: Reply): bytes {
    Lines([StatusOf(reply)] + HeadersOf(reply)) + (CRLF + BodyOf(reply))
  }

  lemma LinesCons(line: bytes, lines: seq<bytes>)
    ensures Lines([line] + lines) == line + CRLF + Lines(lines)
  {
    assert ([line] + lines)[1..] == lines;
  }

  /** The header section of an error reply, and of a success. */
  lemma LinesOfThree(a: bytes, b: bytes, c: bytes)
    ensures Lines([a] + [b, c]) == (a + CRLF) + (b + CRLF) + (c + CRLF)
  {
    LinesCons(a, [b, c]);
    assert [b, c] == [b] + [c];
    LinesCons(b, [c]);
    assert [c] == [c] + [];
    LinesCons(c, []);
  }

  lemma LinesOfFour(a: bytes, b: bytes, c: bytes, d: bytes)
    ensures Lines([a] + [b, c, d]) == (a + CRLF) + (b + CRLF) + (c + CRLF) + (d + CRLF)
  {
    LinesCons(a, [b, c, d]);
    assert [b, c, d] == [b] + [c, d];
    LinesOfThree(b, c, d);
    Assoc4(a + CRLF, b + CRLF, c + CRLF, d + CRLF);
    Assoc3(b + CRLF, c + CRLF, d + CRLF);
  }

  /** The literal replies of handle_request. */
  method WriteError(status: bytes, ghost reply: Reply) returns (out: bytes)
    requires !reply.Okay? && status == StatusOf(reply)
    ensures out == TextOf(reply)
  {
    out := status + "\r\n" + ("Content-Length: 0" + "\r\n") + ("Connection: close" + "\r\n") + "\r\n";
    assert Decimal(0) == "0" && "Content-Length: 0" == LENGTH + "0";
    assert HeadersOf(reply) == [LENGTH + Decimal(0), "Connection: close"];
    LinesOfThree(StatusOf(reply), LENGTH + Decimal(0), "Connection: close");
    assert CRLF + [] == CRLF;
  }

  /** The response stream of handle_request. */
  method WriteOkay(body: bytes) returns (out: bytes)
    ensures out == TextOf(Okay(body))
  {
    out := "HTTP/1.1 200 OK" + "\r\n";
    out := out + ("Content-Type: text/plain" + "\r\n");
    out := out + ("Content-Length: " + Decimal(|body|) + "\r\n");
    out := out + ("Connection: close" + "\r\n");
    LinesOfFour("HTTP/1.1 200 OK", "Content-Type: text/plain", LENGTH + Decimal(|body|), "Connection: close");
    assert HeadersOf(Okay(body)) == ["Content-Type: text/plain", LENGTH + Decimal(|body|), "Connection: close"];
    out := out + ("\r\n" + body);
  }

  // Reading

  datatype Message = Message(status: bytes, headers: seq<bytes>, body: bytes)

  /** The text up to the end of the line, and what follows. */
  function ReadLine(s: bytes): (r: Option<(bytes, bytes)>)
    ensures r.Some? ==> |r.value.1| < |s|
  {
    var k := Find(s, '\r');
    if k + 1 < |s| && s[k + 1] == '\n' then Some((s[..k], s[k + 2..])) else None
  }

  /** The lines up to an empty one, and what follows that. */
  function ReadLines(s: bytes): Option<(seq<bytes>, bytes)>
    decreases |s|
  {
    match ReadLine(s)
    case None => None
    case Some((line, rest)) =>
      if line == [] then Some(([], rest))
      else
        match ReadLines(rest)
        case None => None
        case Some((lines, after)) => Some(([line] + lines, after))
  }

  /** What the first Content-Length header says. */
  function LengthIn(headers: seq<bytes>): Option<nat> {
    if headers == [] then None
    else if LENGTH <= headers[0] then
      var digits := headers[0][|LENGTH|..];
      if digits != [] && AllDigits(digits) then Some(Value(digits)) else None
    else LengthIn(headers[1..])
  }

  /** A message, and the bytes after it. */
  function Read(s: bytes): Option<(Message, bytes)> {
    match ReadLines(s)
    case None => None
    case Some((lines, rest)) =>
      if lines == [] then None
      else
        match LengthIn(lines[1..])
        case None => None
        case Some(n) => if n <= |rest| then Some((Message(lines[0], lines[1..], rest[..n]), rest[n..])) else None
  }

  predicate IsLine(line: bytes) {
    line != [] && '\r' !in line
  }

  lemma ReadLineOf(line: bytes, rest: bytes)
    requires '\r' !in line
    ensures ReadLine(line + CRLF + rest) == Some((line, rest))
  {
    var s := line + CRLF + rest;
    assert s == line + ['\r'] + ("\n" + rest);
    FindAfter(line, '\r', "\n" + rest);
    assert s[..|line|] == line && s[|line| + 2..] == rest;
  }

  lemma ReadLinesCons(line: bytes, tail: bytes, lines: seq<bytes>, after: bytes)
    requires IsLine(line) && ReadLines(tail) == Some((lines, after))
    ensures ReadLines(line + CRLF + tail) == Some(([line] + lines, after))
  {
    hide ReadLine;
    ReadLineOf(line, tail);
  }

  lemma {:induction false} ReadLinesOf(lines: seq<bytes>, rest: bytes)
    requires forall line :: line in lines ==> IsLine(line)
    ensures ReadLines(Lines(lines) + (CRLF + rest)) == Some((lines, rest))
  {
    hide ReadLine;
    if lines == [] {
      ReadLineOf([], rest);
      assert Lines([]) + (CRLF + rest) == [] + CRLF + rest;
    } else {
      hide ReadLines;
      var tail := Lines(lines[1..]) + (CRLF + rest);
      assert lines[0] in lines;
      ReadLinesOf(lines[1..], rest);
      ReadLinesCons(lines[0], tail, lines[1..], rest);
      Assoc4(lines[0], CRLF, Lines(lines[1..]), CRLF + rest);
      Assoc3(lines[0], CRLF, tail);
      assert lines == [lines[0]] + lines[1..];
    }
  }

  lemma DecimalHasNoBreak(n: nat)
    ensures '\r' !in Decimal(n)
  {
    var d := Digits(n);
    assert forall c :: c in d ==> IsDigit(c);
  }

  lemma LengthLine(n: nat)
    ensures IsLine(LENGTH + Decimal(n))
    ensures LengthIn([LENGTH + Decimal(n), "Connection: close"]) == Some(n)
  {
    DecimalHasNoBreak(n);
    DigitsValue(n);
    assert (LENGTH + Decimal(n))[|LENGTH|..] == Decimal(n);
  }

  lemma StatusLines(reply: Reply)
    ensures IsLine(StatusOf(reply)) && IsLine("Content-Type: text/plain") && IsLine("Connection: close")
  {
  }

  lemma LengthOfReply(reply: Reply)
    ensures LengthIn(HeadersOf(reply)) == Some(|BodyOf(reply)|)
    ensures forall line :: line in [StatusOf(reply)] + HeadersOf(reply) ==> IsLine(line)
  {
    var own := [LENGTH + Decimal(|BodyOf(reply)|), "Connection: close"];
    LengthLine(|BodyOf(reply)|);
    StatusLines(reply);
    if reply.Okay? {
      assert HeadersOf(reply)[1..] == own;
      assert !(LENGTH <= "Content-Type: text/plain") by {
        assert LENGTH[8] != "Content-Type: text/plain"[8];
      }
    } else {
      assert HeadersOf(reply) == own;
    }
  }

  /**
   Whatever follows it on the connection, a reply reads back as its status, its headers and exactly
   its body, and what follows is left.
  */
  lemma ReplyReadsBack(reply: Reply, rest: bytes)
    ensures Read(TextOf(reply) + rest) == Some((Message(StatusOf(reply), HeadersOf(reply), BodyOf(reply)), rest))
  {
    var lines := [StatusOf(reply)] + HeadersOf(reply);
    LengthOfReply(reply);
    assert TextOf(reply) + rest == Lines(lines) + (CRLF + (BodyOf(reply) + rest));
    ReadLinesOf(lines, BodyOf(reply) + rest);
    assert lines[1..] == HeadersOf(reply);
  }

  /** The three digits of a status line. */
  function CodeOf(status: bytes): Option<nat> {
    if |status| >= 12 && status[..9] == "HTTP/1.1 " && AllDigits(status[9..12]) then Some(Value(status[9..12]))
    else None
  }

  /** The status code of the message that a text begins with. */
  function CodeIn(s: bytes): Option<nat> {
    match Read(s)
    case None => None
    case Some((message, _)) => CodeOf(message.status)
  }

  lemma CodeValues()
    ensures AllDigits("400") && Value("400") == 400
    ensures AllDigits("500") && Value("500") == 500
    ensures AllDigits("200") && Value("200") == 200
  {
    DigitsValue(400);
    DigitsValue(500);
    DigitsValue(200);
    assert Digits(400) == "400" && Digits(500) == "500" && Digits(200) == "200";
  }

  lemma StatusCodes()
    ensures CodeOf("HTTP/1.1 400 Bad Request") == Some(400)
    ensures CodeOf("HTTP/1.1 500 " + "Internal Server Error") == Some(500)
    ensures CodeOf("HTTP/1.1 200 OK") == Some(200)
  {
    CodeValues();
    assert "HTTP/1.1 400 Bad Request"[9..12] == "400" && "HTTP/1.1 200 OK"[9..12] == "200";
    assert "HTTP/1.1 400 Bad Request"[..9] == "HTTP/1.1 " && "HTTP/1.1 200 OK"[..9] == "HTTP/1.1 ";
    var s := "HTTP/1.1 500 " + "Internal Server Error";
    assert s[..9] == "HTTP/1.1 500 "[..9] && s[9..12] == "HTTP/1.1 500 "[9..12];
    assert "HTTP/1.1 500 "[..9] == "HTTP/1.1 " && "HTTP/1.1 500 "[9..12] == "500";
  }

  /** Bad requests, refused updates and successes read as 400, 500 and 200. */
  lemma CodeReadsBack(reply: Reply, rest: bytes)
    ensures CodeIn(TextOf(reply) + rest) ==
      Some(if reply.BadRequest? then 400 else if reply.ServerError? then 500 else 200)
  {
    hide Read, CodeOf, TextOf;
    ReplyReadsBack(reply, rest);
    StatusCodes();
  }

  /** Every reply asks to close the connection, only a success has a type and a body. */
  lemma HeadersReadBack(reply: Reply, rest: bytes) returns (message: Message)
    ensures Read(TextOf(reply) + rest) == Some((message, rest))
    ensures "Connection: close" in message.headers
    ensures "Content-Type: text/plain" in message.headers <==> reply.Okay?
    ensures message.body == if reply.Okay? then reply.body else []
  {
    hide Read, TextOf;
    ReplyReadsBack(reply, rest);
    message := Message(StatusOf(reply), HeadersOf(reply), BodyOf(reply));
    var length := LENGTH + Decimal(|BodyOf(reply)|);
    assert length[8] == LENGTH[8] && LENGTH[8] != "Content-Type: text/plain"[8];
    assert |"Connection: close"| != |"Content-Type: text/plain"|;
    if reply.Okay? {
      assert HeadersOf(reply)[0] == "Content-Type: text/plain" && HeadersOf(reply)[2] == "Connection: close";
    } else {
      assert HeadersOf(reply)[1] == "Connection: close";
    }
  }

  /** So no two replies have the same text. */
  lemma RepliesDiffer(a: Reply, b: Reply)
    ensures TextOf(a) == TextOf(b) <==> a == b
  {
    ReplyReadsBack(a, []);
    ReplyReadsBack(b, []);
    assert TextOf(a) + [] == TextOf(a) && TextOf(b) + [] == TextOf(b);
    if TextOf(a) == TextOf(b) {
      assert StatusOf(a)[9] == StatusOf(b)[9];
    }
  }
}
