/**
 The rotating log: files by name, the rename loop, and what is kept over any sequence of log calls.

 Whether the log file can be opened again after a rotation is part of a call, so that failures to
 open are covered.
*/
module LogRotation {
  import opened Options
  import opened Text

  datatype Level = Debug | Info | Warn | Error | Critical

  function Rank(level: Level): nat {
    match level
    case Debug => 0
    case Info => 1
    case Warn => 2
    case Error => 3
    case Critical => 4
  }

  function LevelName(level: Level): bytes {
    match level
    case Debug => "DEBUG"
    case Info => "INFO"
    case Warn => "WARN"
    case Error => "ERROR"
    case Critical => "CRITICAL"
  }

  datatype Config = Config(path: bytes, maxSize: int, backups: nat, minLevel: Level)

  type Files = map<bytes, bytes>

  datatype State = State(files: Files, isOpen: bool)

  /** One log call; `reopen` says whether opening the file after a rotation would succeed. */
  datatype Call = Call(level: Level, timestamp: bytes, body: bytes, reopen: bool)

  // Names

  /** The current file for 0, and the backups behind it. */
  function Name(path: bytes, i: nat): bytes {
    if i == 0 then path else path + "." + Decimal(i)
  }

  lemma NamesDiffer(path: bytes, i: nat, j: nat)
    ensures Name(path, i) == Name(path, j) <==> i == j
  {
    assert i > 0 ==> |Name(path, i)| > |path| && Name(path, i)[|path| + 1..] == Decimal(i);
    assert j > 0 ==> |Name(path, j)| > |path| && Name(path, j)[|path| + 1..] == Decimal(j);
    if Name(path, i) == Name(path, j) && i > 0 && j > 0 {
      DecimalIsInjective(i, j);
    }
  }

  function Lookup(files: Files, name: bytes): Option<bytes> {
    if name in files then Some(files[name]) else None
  }

  function Content(files: Files, name: bytes): bytes {
    if name in files then files[name] else []
  }

  // File system calls

  function Remove(files: Files, name: bytes): Files {
    files - {name}
  }

  /** rename: fails without effect when the old name is missing, and replaces the new one otherwise. */
  function Rename(files: Files, oldName: bytes, newName: bytes): Files {
    if oldName in files then (files - {oldName})[newName := files[oldName]] else files
  }

  // The rename loop

  /** One turn of the loop, for index `i`. */
  function ShiftOne(files: Files, path: bytes, n: nat, i: nat): Files
    requires 1 <= i
  {
    var older, newer := Name(path, i), Name(path, i - 1);
    Rename(if i == n then Remove(files, older) else files, newer, older)
  }

  /** The files after the turns for n, n - 1, ..., i + 1. */
  function ShiftDown(files: Files, path: bytes, n: nat, i: nat): Files
    requires i <= n
    decreases n - i
  {
    if i == n then files else ShiftOne(ShiftDown(files, path, n, i + 1), path, n, i + 1)
  }

  lemma ShiftOneAt(files: Files, path: bytes, n: nat, i: nat, name: bytes)
    requires 1 <= i <= n
    requires i < n ==> Name(path, i) !in files
    ensures
      var after := Lookup(ShiftOne(files, path, n, i), name);
      if name == Name(path, i) then after == Lookup(files, Name(path, i - 1))
      else if name == Name(path, i - 1) then after == None
      else after == Lookup(files, name)
  {
    NamesDiffer(path, i, i - 1);
  }

  /** What the loop has done when it is down to `i`. */
  lemma {:induction false} ShiftDownAt(files: Files, path: bytes, n: nat, i: nat, name: bytes)
    requires i <= n
    ensures
      var after := Lookup(ShiftDown(files, path, n, i), name);
      && (forall k :: i < k <= n && name == Name(path, k) ==> after == Lookup(files, Name(path, k - 1)))
      && (i < n && name == Name(path, i) ==> after == None)
      && ((forall k :: i <= k <= n ==> name != Name(path, k)) ==> after == Lookup(files, name))
      && (i == n ==> after == Lookup(files, name))
    decreases n - i
  {
    if i < n {
      var mid := ShiftDown(files, path, n, i + 1);
      ShiftDownAt(files, path, n, i + 1, name);
      ShiftDownAt(files, path, n, i + 1, Name(path, i + 1));
      ShiftDownAt(files, path, n, i + 1, Name(path, i));
      forall k | i + 1 <= k <= n
        ensures Name(path, k) != Name(path, i)
      {
        NamesDiffer(path, k, i);
      }
      assert i + 1 < n ==> Name(path, i + 1) !in mid;
      ShiftOneAt(mid, path, n, i + 1, name);
      forall k | i < k <= n && name == Name(path, k)
        ensures Lookup(ShiftDown(files, path, n, i), name) == Lookup(files, Name(path, k - 1))
      {
        NamesDiffer(path, k, i + 1);
      }
    }
  }

  /** The whole loop: every backup is the file before it, the current file is gone, other names are untouched. */
  lemma RotationShifts(files: Files, path: bytes, n: nat, name: bytes)
    ensures
      var after := ShiftDown(files, path, n, 0);
      && (n > 0 ==> Lookup(after, path + ".1") == Lookup(files, path))
      && (forall k :: 2 <= k <= n ==>
           Lookup(after, path + "." + Decimal(k)) == Lookup(files, path + "." + Decimal(k - 1)))
      && (forall k :: 1 <= k <= n ==> Lookup(after, Name(path, k)) == Lookup(files, Name(path, k - 1)))
      && (n > 0 ==> Lookup(after, path) == None)
      && ((forall k :: 0 <= k <= n ==> name != Name(path, k)) ==> Lookup(after, name) == Lookup(files, name))
  {
    forall k | 1 <= k <= n
      ensures Lookup(ShiftDown(files, path, n, 0), Name(path, k)) == Lookup(files, Name(path, k - 1))
    {
      ShiftDownAt(files, path, n, 0, Name(path, k));
    }
    ShiftDownAt(files, path, n, 0, path);
    ShiftDownAt(files, path, n, 0, name);
    assert Name(path, 1) == path + ".1" && Name(path, 0) == path;
    forall k | 2 <= k <= n
      ensures Lookup(ShiftDown(files, path, n, 0), path + "." + Decimal(k)) ==
        Lookup(files, path + "." + Decimal(k - 1))
    {
      assert Name(path, k) == path + "." + Decimal(k) && Name(path, k - 1) == path + "." + Decimal(k - 1);
    }
  }

  // Log calls

  predicate NeedsRotation(c: Config, s: State) {
    s.isOpen && c.maxSize > 0 && c.path in s.files && |s.files[c.path]| >= c.maxSize
  }

  /** rotate_if_needed. */
  function Rotate(c: Config, s: State, reopen: bool): State {
    if !NeedsRotation(c, s) then s
    else
      var files := ShiftDown(s.files, c.path, c.backups, 0);
      State(if reopen then files[c.path := []] else files, reopen)
  }

  const BUFFER := 8192

  /** The formatted line: the body is cut to what fits the buffer with its terminator. */
  function Line(call: Call): bytes {
    "[" + call.timestamp + "] [" + LevelName(call.level) + "] "
    + (if |call.body| < BUFFER then call.body else call.body[..BUFFER - 1]) + "\n"
  }

  predicate Logged(c: Config, call: Call) {
    Rank(call.level) >= Rank(c.minLevel)
  }

  /** What a call adds to the current file. */
  function Written(c: Config, s: State, call: Call): bytes {
    if Logged(c, call) && Rotate(c, s, call.reopen).isOpen then Line(call) else []
  }

  function LogStep(c: Config, s: State, call: Call): State {
    if !Logged(c, call) then s
    else
      var s' := Rotate(c, s, call.reopen);
      if s'.isOpen then s'.(files := s'.files[c.path := Content(s'.files, c.path) + Line(call)]) else s'
  }

  function LogAll(c: Config, s: State, calls: seq<Call>): State
    decreases |calls|
  {
    if calls == [] then s else LogAll(c, LogStep(c, s, calls[0]), calls[1..])
  }

  function WrittenAll(c: Config, s: State, calls: seq<Call>): bytes
    decreases |calls|
  {
    if calls == [] then [] else Written(c, s, calls[0]) + WrittenAll(c, LogStep(c, s, calls[0]), calls[1..])
  }

  // The console

  const OPEN_FAILED := "Failed to open log file: "

  const REOPEN_FAILED := "Failed to reopen log file " + "after rotation: "

  /** What rotate_if_needed writes to the error stream. */
  function RotationError(c: Config, s: State, reopen: bool): bytes {
    if NeedsRotation(c, s) && !reopen then REOPEN_FAILED + c.path + "\n" else []
  }

  /** What a call writes to the error stream: a failure to reopen, and its line from level ERROR on. */
  function ErrorsOf(c: Config, s: State, call: Call): bytes {
    if !Logged(c, call) then []
    else RotationError(c, s, call.reopen) + if Rank(call.level) >= Rank(Error) then Line(call) else []
  }

  /** The line of a warning goes to the output stream. */
  function OutputOf(c: Config, call: Call): bytes {
    if Logged(c, call) && call.level == Warn then Line(call) else []
  }

  /** The logger object. */
  class Logger {
    var config: Config
    var files: Files
    var isOpen: bool
    var output: bytes
    var errors: bytes

    ghost function View(): State
      reads this
    {
      State(files, isOpen)
    }

    constructor (files: Files)
      ensures this.files == files && !isOpen && output == [] && errors == []
    {
      this.files := files;
      isOpen := false;
      output, errors := [], [];
      config := Config([], 100 * 1024 * 1024, 5, Info);
    }

    /** init: the file is opened for appending, and created if it is missing. */
    method Init(path: bytes, level: Level, maxSizeMb: int, backupCount: int, openOk: bool)
      modifies this
      ensures config == Config(path, maxSizeMb * 1048576, if backupCount < 0 then 0 else backupCount, level)
      ensures isOpen == openOk
      ensures files == if openOk then old(files)[path := Content(old(files), path)] else old(files)
      ensures output == old(output) && errors == old(errors) + if openOk then [] else OPEN_FAILED + path + "\n"
    {
      config := Config(path, maxSizeMb * 1024 * 1024, if backupCount < 0 then 0 else backupCount, level);
      isOpen := openOk;
      if isOpen {
        files := files[path := Content(files, path)];
      } else {
        errors := errors + (OPEN_FAILED + path + "\n");
      }
    }

    /** The rename loop, oldest backup first. */
    method Shift()
      modifies this`files
      ensures files == ShiftDown(old(files), config.path, config.backups, 0)
    {
      var i := config.backups;
      while i >= 1
        invariant 0 <= i <= config.backups
        invariant files == ShiftDown(old(files), config.path, config.backups, i)
      {
        var older := Name(config.path, i);
        var newer := if i == 1 then config.path else Name(config.path, i - 1);
        if i == config.backups {
          files := Remove(files, older);
        }
        files := Rename(files, newer, older);
        i := i - 1;
      }
    }

    method RotateIfNeeded(reopen: bool)
      modifies this`files, this`isOpen, this`errors
      ensures View() == Rotate(config, old(View()), reopen)
      ensures errors == old(errors) + RotationError(config, old(View()), reopen)
    {
      if !isOpen || config.maxSize <= 0 { return; }
      if config.path !in files { return; }
      if |files[config.path]| < config.maxSize { return; }
      isOpen := false;
      Shift();
      if reopen {
        files := files[config.path := []];
        isOpen := true;
      } else {
        errors := errors + (REOPEN_FAILED + config.path + "\n");
      }
    }

    method Log(call: Call)
      modifies this`files, this`isOpen, this`output, this`errors
      ensures View() == LogStep(config, old(View()), call)
      ensures errors == old(errors) + ErrorsOf(config, old(View()), call)
      ensures output == old(output) + OutputOf(config, call)
    {
      if Rank(call.level) < Rank(config.minLevel) { return; }
      RotateIfNeeded(call.reopen);
      if isOpen {
        files := files[config.path := Content(files, config.path) + Line(call)];
      }
      if Rank(call.level) >= Rank(Error) {
        Assoc3(old(errors), RotationError(config, old(View()), call.reopen), Line(call));
        errors := errors + Line(call);
      } else if Rank(call.level) >= Rank(Warn) {
        output := output + Line(call);
      }
    }
  }

  // What is logged where, and what a line says

  /** Which levels pass which threshold. */
  predicate Passes(level: Level, threshold: Level) {
    match threshold
    case Debug => true
    case Info => level != Debug
    case Warn => level == Warn || level == Error || level == Critical
    case Error => level == Error || level == Critical
    case Critical => level == Critical
  }

  /**
   A call below the threshold does nothing. Otherwise its line goes to the file if that is open
   after a rotation, errors and critical errors go to the error stream as well, and warnings to the
   output stream.
  */
  lemma CallsAreSorted(c: Config, s: State, call: Call)
    ensures !Passes(call.level, c.minLevel) ==>
      LogStep(c, s, call) == s && ErrorsOf(c, s, call) == [] && OutputOf(c, call) == []
    ensures Passes(call.level, c.minLevel) ==>
      && Written(c, s, call) == (if Rotate(c, s, call.reopen).isOpen then Line(call) else [])
      && ErrorsOf(c, s, call) == RotationError(c, s, call.reopen)
           + (if call.level == Error || call.level == Critical then Line(call) else [])
      && OutputOf(c, call) == if call.level == Warn then Line(call) else []
  {
  }

  /** Timestamp, level and message of a line. */
  datatype Entry = Entry(timestamp: bytes, level: bytes, message: bytes)

  /** The text in brackets that a text begins with, and what follows the bracket and the space behind it. */
  function ReadBracket(s: bytes): Option<(bytes, bytes)> {
    var k := Find(s, ']');
    if k == 0 || s[0] != '[' || k + 1 >= |s| || s[k + 1] != ' ' then None else Some((s[1..k], s[k + 2..]))
  }

  function ReadEntry(line: bytes): Option<Entry> {
    match ReadBracket(line)
    case None => None
    case Some((timestamp, rest)) =>
      match ReadBracket(rest)
      case None => None
      case Some((level, tail)) =>
        if tail == [] || tail[|tail| - 1] != '\n' then None
        else Some(Entry(timestamp, level, tail[..|tail| - 1]))
  }

  lemma BracketReads(text: bytes, rest: bytes)
    requires ']' !in text
    ensures ReadBracket("[" + text + "] " + rest) == Some((text, rest))
  {
    var front, s := "[" + text, "[" + text + "] " + rest;
    FindAfter(front, ']', " " + rest);
    assert s == front + [']'] + (" " + rest);
    assert s[1..|front|] == text && s[|front| + 2..] == rest;
  }

  lemma EntryReads(timestamp: bytes, level: bytes, message: bytes)
    requires ']' !in timestamp && ']' !in level
    ensures ReadEntry("[" + timestamp + "] [" + level + "] " + message + "\n") == Some(Entry(timestamp, level, message))
  {
    hide ReadBracket;
    var tail := message + "\n";
    BracketReads(level, tail);
    BracketReads(timestamp, "[" + level + "] " + tail);
    assert "] [" == "] " + "[";
    assert "[" + timestamp + "] [" + level + "] " + message + "\n" ==
      "[" + timestamp + "] " + ("[" + level + "] " + tail);
    assert tail[..|tail| - 1] == message;
  }

  /** A logged line reads as its timestamp, the name of its level, and the first 8191 bytes of its message. */
  lemma LineReads(call: Call)
    requires ']' !in call.timestamp
    ensures ReadEntry(Line(call)) == Some(Entry(call.timestamp,
      match call.level
      case Debug => "DEBUG"
      case Info => "INFO"
      case Warn => "WARN"
      case Error => "ERROR"
      case Critical => "CRITICAL",
      if |call.body| <= 8191 then call.body else call.body[..8191]))
  {
    EntryReads(call.timestamp, LevelName(call.level), if |call.body| <= 8191 then call.body else call.body[..8191]);
  }

  /** The texts a call writes to the error stream, one by one. */
  function ErrorTexts(c: Config, s: State, call: Call): seq<bytes> {
    if !Logged(c, call) then []
    else
      (if NeedsRotation(c, s) && !call.reopen then [RotationError(c, s, call.reopen)] else [])
      + if Rank(call.level) >= Rank(Error) then [Line(call)] else []
  }

  function Concat(texts: seq<bytes>): bytes {
    if texts == [] then [] else texts[0] + Concat(texts[1..])
  }

  /** The error stream over a sequence of calls. */
  function ErrorsAll(c: Config, s: State, calls: seq<Call>): bytes
    decreases |calls|
  {
    if calls == [] then [] else ErrorsOf(c, s, calls[0]) + ErrorsAll(c, LogStep(c, s, calls[0]), calls[1..])
  }

  function ErrorTextsAll(c: Config, s: State, calls: seq<Call>): seq<bytes>
    decreases |calls|
  {
    if calls == [] then []
    else ErrorTexts(c, s, calls[0]) + ErrorTextsAll(c, LogStep(c, s, calls[0]), calls[1..])
  }

  /** The lines of the errors that are to be logged, whatever happens to the files. */
  function ErrorLines(c: Config, calls: seq<Call>): seq<bytes> {
    if calls == [] then []
    else
      (if Logged(c, calls[0]) && Rank(calls[0].level) >= Rank(Error) then [Line(calls[0])] else [])
      + ErrorLines(c, calls[1..])
  }

  /** Log lines begin with a bracket, the logger's own complaints do not. */
  function LinesIn(texts: seq<bytes>): seq<bytes> {
    if texts == [] then [] else (if texts[0] != [] && texts[0][0] == '[' then [texts[0]] else []) + LinesIn(texts[1..])
  }

  lemma {:induction false} ConcatAppend(a: seq<bytes>, b: seq<bytes>)
    ensures Concat(a + b) == Concat(a) + Concat(b)
  {
    if a == [] {
      assert a + b == b;
    } else {
      assert (a + b)[1..] == a[1..] + b;
      ConcatAppend(a[1..], b);
      Assoc3(a[0], Concat(a[1..]), Concat(b));
    }
  }

  lemma {:induction false} LinesAppend(a: seq<bytes>, b: seq<bytes>)
    ensures LinesIn(a + b) == LinesIn(a) + LinesIn(b)
  {
    if a == [] {
      assert a + b == b;
    } else {
      assert (a + b)[1..] == a[1..] + b;
      LinesAppend(a[1..], b);
    }
  }

  lemma TextsOfCall(c: Config, s: State, call: Call)
    ensures Concat(ErrorTexts(c, s, call)) == ErrorsOf(c, s, call)
    ensures LinesIn(ErrorTexts(c, s, call)) == ErrorLines(c, [call])
  {
    assert REOPEN_FAILED[0] == 'F';
    assert Line(call)[0] == '[';
    var own := if Logged(c, call) && Rank(call.level) >= Rank(Error) then [Line(call)] else [];
    assert Concat([Line(call)]) == Line(call) && LinesIn([Line(call)]) == [Line(call)];
    assert ErrorLines(c, [call]) == own;
    if Logged(c, call) && NeedsRotation(c, s) && !call.reopen {
      var complaint := [RotationError(c, s, call.reopen)];
      ConcatAppend(complaint, own);
      LinesAppend(complaint, own);
      assert Concat(complaint) == RotationError(c, s, call.reopen) && LinesIn(complaint) == [];
    }
  }

  /**
   No error is lost: over any calls, and whatever becomes of the files, the error stream is made of
   the lines of all logged errors, in order, and of complaints about failed rotations between them.
  */
  lemma {:induction false} ErrorsAreSeen(c: Config, s: State, calls: seq<Call>)
    ensures ErrorsAll(c, s, calls) == Concat(ErrorTextsAll(c, s, calls))
    ensures LinesIn(ErrorTextsAll(c, s, calls)) == ErrorLines(c, calls)
    decreases |calls|
  {
    if calls != [] {
      var s' := LogStep(c, s, calls[0]);
      ErrorsAreSeen(c, s', calls[1..]);
      TextsOfCall(c, s, calls[0]);
      ConcatAppend(ErrorTexts(c, s, calls[0]), ErrorTextsAll(c, s', calls[1..]));
      LinesAppend(ErrorTexts(c, s, calls[0]), ErrorTextsAll(c, s', calls[1..]));
      assert ErrorLines(c, calls) == ErrorLines(c, [calls[0]]) + ErrorLines(c, calls[1..]);
    }
  }

  // Results over any sequence of calls

  /** Backup `k`, then the newer ones, then the current file. */
  function History(files: Files, path: bytes, k: nat): bytes {
    Content(files, Name(path, k)) + (if k == 0 then [] else History(files, path, k - 1))
  }

  predicate Suffix(a: bytes, b: bytes) {
    |a| <= |b| && b[|b| - |a|..] == a
  }

  lemma SuffixAppend(a: bytes, b: bytes, line: bytes)
    requires Suffix(a, b)
    ensures Suffix(a + line, b + line)
  {
    assert (b + line)[|b| - |a|..] == b[|b| - |a|..] + line;
  }

  lemma SuffixTrans(a: bytes, b: bytes, c: bytes)
    requires Suffix(a, b) && Suffix(b, c)
    ensures Suffix(a, c)
  {
    assert c[|c| - |a|..] == c[|c| - |b|..][|b| - |a|..];
  }

  lemma SuffixOfTail(front: bytes, a: bytes)
    ensures Suffix(a, front + a)
  {
  }

  /** Appending to the current file appends to the history. */
  lemma {:induction false} HistoryAppend(files: Files, path: bytes, k: nat, line: bytes)
    ensures History(files[path := Content(files, path) + line], path, k) == History(files, path, k) + line
  {
    if k > 0 {
      NamesDiffer(path, k, 0);
      HistoryAppend(files, path, k - 1, line);
      Assoc3(Content(files, Name(path, k)), History(files, path, k - 1), line);
    }
  }

  /** After the renames, with the current file empty or missing, backups up to k + 1 hold what was up to k. */
  lemma {:induction false} HistoryShift(files: Files, files': Files, path: bytes, k: nat)
    requires forall i :: 1 <= i <= k + 1 ==> Content(files', Name(path, i)) == Content(files, Name(path, i - 1))
    requires Content(files', path) == []
    ensures History(files', path, k + 1) == History(files, path, k)
  {
    if k == 0 {
      assert History(files', path, 1) == Content(files', Name(path, 1)) + History(files', path, 0);
      assert History(files', path, 0) == [] + [];
    } else {
      HistoryShift(files, files', path, k - 1);
    }
  }

  lemma RotatedContents(c: Config, s: State, reopen: bool)
    requires NeedsRotation(c, s)
    ensures
      var files' := Rotate(c, s, reopen).files;
      && (forall k :: 1 <= k <= c.backups ==> Content(files', Name(c.path, k)) == Content(s.files, Name(c.path, k - 1)))
      && (c.backups > 0 || reopen ==> Content(files', c.path) == [])
      && (c.backups == 0 && !reopen ==> files' == s.files)
  {
    RotationShifts(s.files, c.path, c.backups, c.path);
    forall k | 1 <= k <= c.backups
      ensures Content(Rotate(c, s, reopen).files, Name(c.path, k)) == Content(s.files, Name(c.path, k - 1))
    {
      NamesDiffer(c.path, k, 0);
      assert Lookup(ShiftDown(s.files, c.path, c.backups, 0), Name(c.path, k)) == Lookup(s.files, Name(c.path, k - 1));
    }
    assert c.backups > 0 ==> Lookup(ShiftDown(s.files, c.path, c.backups, 0), c.path) == None;
  }

  lemma RotateKeepsSuffix(c: Config, s: State, reopen: bool)
    ensures Suffix(History(Rotate(c, s, reopen).files, c.path, c.backups), History(s.files, c.path, c.backups))
  {
    if NeedsRotation(c, s) {
      RotatedContents(c, s, reopen);
      if c.backups > 0 {
        HistoryShift(s.files, Rotate(c, s, reopen).files, c.path, c.backups - 1);
        SuffixOfTail(Content(s.files, Name(c.path, c.backups)), History(s.files, c.path, c.backups - 1));
      }
    }
  }

  lemma StepKeepsSuffix(c: Config, s: State, call: Call)
    ensures Suffix(History(LogStep(c, s, call).files, c.path, c.backups),
                   History(s.files, c.path, c.backups) + Written(c, s, call))
  {
    var before := History(s.files, c.path, c.backups);
    assert before + [] == before;
    if Logged(c, call) {
      RotateKeepsSuffix(c, s, call.reopen);
      var s' := Rotate(c, s, call.reopen);
      if s'.isOpen {
        HistoryAppend(s'.files, c.path, c.backups, Line(call));
        SuffixAppend(History(s'.files, c.path, c.backups), before, Line(call));
      }
    }
  }

  /**
   Backups from the oldest to the current file, read one after the other, are always a suffix of
   what was there at first followed by everything written since: only the oldest bytes are lost.
  */
  lemma {:induction false} LogKeepsSuffix(c: Config, s: State, calls: seq<Call>)
    ensures Suffix(History(LogAll(c, s, calls).files, c.path, c.backups),
                   History(s.files, c.path, c.backups) + WrittenAll(c, s, calls))
    decreases |calls|
  {
    var before := History(s.files, c.path, c.backups);
    if calls == [] {
      assert before + [] == before;
    } else {
      var s' := LogStep(c, s, calls[0]);
      var later := WrittenAll(c, s', calls[1..]);
      StepKeepsSuffix(c, s, calls[0]);
      LogKeepsSuffix(c, s', calls[1..]);
      SuffixAppend(History(s'.files, c.path, c.backups), before + Written(c, s, calls[0]), later);
      SuffixTrans(History(LogAll(c, s, calls).files, c.path, c.backups),
                  History(s'.files, c.path, c.backups) + later,
                  before + Written(c, s, calls[0]) + later);
      Assoc3(before, Written(c, s, calls[0]), later);
    }
  }

  // Sizes

  const TIMESTAMP_LENGTH := 19

  /** The longest line: the brackets and blanks, the longest level name, the body and the newline. */
  const LONGEST_LINE := 1 + TIMESTAMP_LENGTH + 3 + 8 + 2 + (BUFFER - 1) + 1

  lemma LineIsShort(call: Call)
    requires |call.timestamp| == TIMESTAMP_LENGTH
    ensures |Line(call)| <= LONGEST_LINE
  {
    assert |LevelName(call.level)| <= 8;
  }

  predicate Bounded(c: Config, s: State) {
    forall k :: 0 <= k <= c.backups ==> |Content(s.files, Name(c.path, k))| < c.maxSize + LONGEST_LINE
  }

  predicate OpenExists(c: Config, s: State) {
    s.isOpen ==> c.path in s.files
  }

  lemma RotateIsSmall(c: Config, s: State, reopen: bool)
    requires c.maxSize > 0 && OpenExists(c, s) && Bounded(c, s)
    ensures
      var s' := Rotate(c, s, reopen);
      Bounded(c, s') && OpenExists(c, s') && (s'.isOpen ==> |Content(s'.files, c.path)| < c.maxSize)
  {
    if NeedsRotation(c, s) {
      RotatedContents(c, s, reopen);
      var s' := Rotate(c, s, reopen);
      forall k | 0 <= k <= c.backups
        ensures |Content(s'.files, Name(c.path, k))| < c.maxSize + LONGEST_LINE
      {
        if k > 0 {
          assert |Content(s.files, Name(c.path, k - 1))| < c.maxSize + LONGEST_LINE;
        } else {
          assert |Content(s.files, Name(c.path, 0))| < c.maxSize + LONGEST_LINE;
        }
      }
    }
  }

  lemma StepIsBounded(c: Config, s: State, call: Call)
    requires c.maxSize > 0 && OpenExists(c, s) && Bounded(c, s) && |call.timestamp| == TIMESTAMP_LENGTH
    ensures Bounded(c, LogStep(c, s, call)) && OpenExists(c, LogStep(c, s, call))
  {
    RotateIsSmall(c, s, call.reopen);
    LineIsShort(call);
    var s' := Rotate(c, s, call.reopen);
    forall k | 0 <= k <= c.backups
      ensures |Content(LogStep(c, s, call).files, Name(c.path, k))| < c.maxSize + LONGEST_LINE
    {
      NamesDiffer(c.path, k, 0);
      assert |Content(s.files, Name(c.path, k))| < c.maxSize + LONGEST_LINE;
      assert |Content(s'.files, Name(c.path, k))| < c.maxSize + LONGEST_LINE;
    }
  }

  lemma {:induction false} HistoryIsBounded(c: Config, s: State, k: nat)
    requires c.maxSize > 0 && Bounded(c, s) && k <= c.backups
    ensures |History(s.files, c.path, k)| < (k + 1) * (c.maxSize + LONGEST_LINE)
  {
    assert |Content(s.files, Name(c.path, k))| < c.maxSize + LONGEST_LINE;
    if k > 0 {
      HistoryIsBounded(c, s, k - 1);
    }
  }

  /** With rotation on, no file and no total ever grows past its bound. */
  lemma {:induction false} LogIsBounded(c: Config, s: State, calls: seq<Call>)
    requires c.maxSize > 0 && OpenExists(c, s) && Bounded(c, s)
    requires forall call :: call in calls ==> |call.timestamp| == TIMESTAMP_LENGTH
    ensures Bounded(c, LogAll(c, s, calls))
    ensures |History(LogAll(c, s, calls).files, c.path, c.backups)| < (c.backups + 1) * (c.maxSize + LONGEST_LINE)
    decreases |calls|
  {
    if calls == [] {
      HistoryIsBounded(c, s, c.backups);
    } else {
      assert calls[0] in calls;
      assert forall call :: call in calls[1..] ==> call in calls;
      StepIsBounded(c, s, calls[0]);
      LogIsBounded(c, LogStep(c, s, calls[0]), calls[1..]);
    }
  }

  /** Rotations during the calls. */
  function Rotations(c: Config, s: State, calls: seq<Call>): nat
    decreases |calls|
  {
    if calls == [] then 0
    else
      (if Logged(c, calls[0]) && NeedsRotation(c, s) then 1 else 0)
      + Rotations(c, LogStep(c, s, calls[0]), calls[1..])
  }

  predicate Full(c: Config, s: State, r: nat) {
    forall k :: 1 <= k <= r && k <= c.backups ==> |Content(s.files, Name(c.path, k))| >= c.maxSize
  }

  lemma StepFills(c: Config, s: State, call: Call, r: nat)
    requires Full(c, s, r)
    ensures Full(c, LogStep(c, s, call), r + if Logged(c, call) && NeedsRotation(c, s) then 1 else 0)
  {
    var s' := Rotate(c, s, call.reopen);
    var r' := r + if Logged(c, call) && NeedsRotation(c, s) then 1 else 0;
    if NeedsRotation(c, s) {
      RotatedContents(c, s, call.reopen);
    }
    forall k | 1 <= k <= r' && k <= c.backups
      ensures |Content(LogStep(c, s, call).files, Name(c.path, k))| >= c.maxSize
    {
      NamesDiffer(c.path, k, 0);
      if k <= r {
        assert |Content(s.files, Name(c.path, k))| >= c.maxSize;
      }
      if 1 < k {
        assert k - 1 <= r ==> |Content(s.files, Name(c.path, k - 1))| >= c.maxSize;
      }
    }
  }

  lemma {:induction false} FullHistory(c: Config, s: State, k: nat)
    requires c.maxSize > 0 && Full(c, s, c.backups) && k <= c.backups
    ensures |History(s.files, c.path, k)| >= k * c.maxSize
  {
    if k > 0 {
      assert |Content(s.files, Name(c.path, k))| >= c.maxSize;
      FullHistory(c, s, k - 1);
    }
  }

  lemma {:induction false} FillsUp(c: Config, s: State, calls: seq<Call>, r: nat)
    requires Full(c, s, r)
    ensures Full(c, LogAll(c, s, calls), r + Rotations(c, s, calls))
    decreases |calls|
  {
    if calls != [] {
      StepFills(c, s, calls[0], r);
      FillsUp(c, LogStep(c, s, calls[0]), calls[1..], r + if Logged(c, calls[0]) && NeedsRotation(c, s) then 1 else 0);
    }
  }

  /** Once there have been as many rotations as backups, at least that many full files of the newest bytes are kept. */
  lemma LogRetains(c: Config, s: State, calls: seq<Call>)
    requires c.maxSize > 0 && Rotations(c, s, calls) >= c.backups
    ensures |History(LogAll(c, s, calls).files, c.path, c.backups)| >= c.backups * c.maxSize
  {
    FillsUp(c, s, calls, 0);
    FullHistory(c, LogAll(c, s, calls), c.backups);
  }

  /** With rotation off nothing is ever lost, and so nothing bounds the current file. */
  lemma {:induction false} NoRotationLosesNothing(c: Config, s: State, calls: seq<Call>)
    requires c.maxSize <= 0
    ensures History(LogAll(c, s, calls).files, c.path, c.backups) ==
      History(s.files, c.path, c.backups) + WrittenAll(c, s, calls)
    decreases |calls|
  {
    var before := History(s.files, c.path, c.backups);
    if calls == [] {
      assert before + [] == before;
    } else {
      var written := Written(c, s, calls[0]);
      HistoryAppend(s.files, c.path, c.backups, Line(calls[0]));
      assert before + [] == before;
      NoRotationLosesNothing(c, LogStep(c, s, calls[0]), calls[1..]);
      Assoc3(before, written, WrittenAll(c, LogStep(c, s, calls[0]), calls[1..]));
    }
  }
}
