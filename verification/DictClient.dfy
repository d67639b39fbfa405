/** A DICT session over a stream of characters (`crates/dict-protocol/src/client.rs`):
    a command loop in which each command must read its own response and no more. */
module DictClient {
  import opened Text
  import opened Decimal
  import opened DictWire

  datatype ClientError =
    | ServerClosed
    | NotAStatusLine
    | CommandTooLong
    | MalformedDefinition
    | Refused(status: Status)

  datatype Database = Database(name: string, description: string)

  datatype Match = Match(database: string, word: string)

  datatype Definition = Definition(word: string, database: string, description: string, text: seq<string>)

  // ------------------------------------------------------ parsing block lines

  function DatabaseOf(line: string): seq<Database> {
    var params := Params(line);
    if params == [] || params[0] == "" then []
    else [Database(params[0], if |params| > 1 then params[1] else "")]
  }

  function MatchOf(line: string): seq<Match> {
    var params := Params(line);
    if |params| < 2 then [] else [Match(params[0], params[1])]
  }

  function ParseDatabases(lines: seq<string>): seq<Database> {
    if lines == [] then [] else DatabaseOf(lines[0]) + ParseDatabases(lines[1..])
  }

  function ParseMatches(lines: seq<string>): seq<Match> {
    if lines == [] then [] else MatchOf(lines[0]) + ParseMatches(lines[1..])
  }

  function DefinitionHeader(status: Status): Option<(string, string, string)> {
    var params := Params(status.text);
    if |params| < 2 then None else Some((params[0], params[1], if |params| > 2 then params[2] else ""))
  }

  // ---------------------------------------------------------- reading a stream

  /** What reading takes from a stream, and what it leaves. */
  datatype Read<T> = Read(result: Result<T, ClientError>, rest: string)

  /** A line with its LF, or all that is left when the server closes without one. */
  function FirstLine(stream: string): (line: string)
    requires stream != ""
    ensures 1 <= |line| <= |stream|
  {
    if stream[0] == '\n' || |stream| == 1 then [stream[0]] else [stream[0]] + FirstLine(stream[1..])
  }

  function LineRead(stream: string): Read<string> {
    if stream == "" then Read(Err(ServerClosed), stream)
    else Read(Ok(FirstLine(stream)), stream[|FirstLine(stream)|..])
  }

  function StatusRead(stream: string): Read<Status> {
    var Read(line, rest) := LineRead(stream);
    if line.Err? then Read(Err(line.error), rest)
    else
      var status := ParseStatus(line.value);
      Read(if status.None? then Err(NotAStatusLine) else Ok(status.value), rest)
  }

  /** A text block up to its lone period, unstuffed. */
  function BlockRead(stream: string): Read<seq<string>>
    decreases |stream|
  {
    var Read(line, rest) := LineRead(stream);
    if line.Err? then Read(Err(line.error), rest)
    else if IsTerminator(line.value) then Read(Ok([]), rest)
    else
      var Read(lines, after) := BlockRead(rest);
      Read(if lines.Err? then lines else Ok([Unstuff(TrimLineEnd(line.value))] + lines.value), after)
  }

  function OkRead(stream: string): Read<()> {
    var Read(status, rest) := StatusRead(stream);
    Read(if status.Err? then Err(status.error) else if IsSuccess(status.value) then Ok(()) else Err(Refused(status.value)), rest)
  }

  /** A text block and the `250` after it. */
  function ListRead(stream: string): Read<seq<string>> {
    var Read(lines, rest) := BlockRead(stream);
    if lines.Err? then Read(lines, rest)
    else
      var Read(done, after) := OkRead(rest);
      Read(if done.Err? then Err(done.error) else lines, after)
  }

  /** Definitions, each a `151` and a block, up to a success status. */
  function DefinitionsRead(stream: string): Read<seq<Definition>>
    decreases |stream|
  {
    var Read(status, rest) := StatusRead(stream);
    if status.Err? then Read(Err(status.error), rest)
    else if status.value.code == DEFINITION_FOLLOWS then
      var header := DefinitionHeader(status.value);
      if header.None? then Read(Err(MalformedDefinition), rest)
      else
        var Read(text, after) := BlockRead(rest);
        if text.Err? then Read(Err(text.error), after)
        else
          BlockReadShrinks(rest);
          var (word, database, description) := header.value;
          var Read(more, last) := DefinitionsRead(after);
          Read(if more.Err? then more else Ok([Definition(word, database, description, text.value)] + more.value), last)
    else Read(if IsSuccess(status.value) then Ok([]) else Err(Refused(status.value)), rest)
  }

  lemma {:induction false} BlockReadShrinks(stream: string)
    ensures |BlockRead(stream).rest| <= |stream|
    decreases |stream|
  {
    var Read(line, rest) := LineRead(stream);
    if line.Ok? { BlockReadShrinks(rest); }
  }

  // ---------------------------------------------------------------- commands

  datatype Command =
    | ShowDatabases
    | ShowStrategies
    | Define(database: string, word: string)
    | MatchWord(database: string, strategy: string, word: string)

  function CommandLine(c: Command): string {
    match c
    case ShowDatabases => "SHOW DB"
    case ShowStrategies => "SHOW STRAT"
    case Define(database, word) => "DEFINE " + Quote(database) + " " + Quote(word)
    case MatchWord(database, strategy, word) => "MATCH " + Quote(database) + " " + Quote(strategy) + " " + Quote(word)
  }

  /** Whether a command line and its CRLF fit the limit, in bytes. */
  predicate Sendable(line: string) {
    Utf8Length(line) + 2 <= MAX_LINE
  }

  datatype Reply = Databases(databases: seq<Database>) | Definitions(definitions: seq<Definition>) | Matches(matches: seq<Match>)

  function FollowCode(c: Command): nat {
    match c
    case ShowDatabases => DATABASES_FOLLOW
    case ShowStrategies => STRATEGIES_FOLLOW
    case Define(_, _) => DEFINITIONS_FOLLOW
    case MatchWord(_, _, _) => MATCHES_FOLLOW
  }

  function NothingCode(c: Command): nat {
    match c
    case ShowDatabases => NO_DATABASES
    case ShowStrategies => NO_STRATEGIES
    case Define(_, _) => NO_MATCH
    case MatchWord(_, _, _) => NO_MATCH
  }

  function Nothing(c: Command): Reply {
    match c
    case ShowDatabases => Databases([])
    case ShowStrategies => Databases([])
    case Define(_, _) => Definitions([])
    case MatchWord(_, _, _) => Matches([])
  }

  /** What follows the first status line, when something does. */
  function BodyRead(c: Command, stream: string): Read<Reply> {
    match c
    case Define(_, _) =>
      var Read(definitions, rest) := DefinitionsRead(stream);
      Read(if definitions.Err? then Err(definitions.error) else Ok(Definitions(definitions.value)), rest)
    case MatchWord(_, _, _) =>
      var Read(lines, rest) := ListRead(stream);
      Read(if lines.Err? then Err(lines.error) else Ok(Matches(ParseMatches(lines.value))), rest)
    case _ =>
      var Read(lines, rest) := ListRead(stream);
      Read(if lines.Err? then Err(lines.error) else Ok(Databases(ParseDatabases(lines.value))), rest)
  }

  /** A command's whole exchange, seen from the client. */
  function Performed(c: Command, stream: string): Read<Reply> {
    if !Sendable(CommandLine(c)) then Read(Err(CommandTooLong), stream)
    else
      var Read(status, rest) := StatusRead(stream);
      if status.Err? then Read(Err(status.error), rest)
      else if status.value.code == FollowCode(c) then BodyRead(c, rest)
      else Read(if status.value.code == NothingCode(c) then Ok(Nothing(c)) else Err(Refused(status.value)), rest)
  }

  function SentFor(c: Command): string {
    if Sendable(CommandLine(c)) then CommandLine(c) + CRLF else ""
  }

  // ----------------------------------------------------------------- a session

  class Session {
    /** What the server will have sent, unread, and all that was sent to it. */
    var stream: string
    var sent: string

    constructor (stream: string)
      ensures this.stream == stream && sent == ""
    {
      this.stream := stream;
      sent := "";
    }

    method ReadLine() returns (line: Result<string, ClientError>)
      modifies this`stream
      ensures Read(line, stream) == LineRead(old(stream))
    {
      if stream == "" {
        return Err(ServerClosed);
      }
      var taken := FirstLine(stream);
      stream := stream[|taken|..];
      return Ok(taken);
    }

    method ReadStatus() returns (status: Result<Status, ClientError>)
      modifies this`stream
      ensures Read(status, stream) == StatusRead(old(stream))
    {
      var line := ReadLine();
      if line.Err? {
        return Err(line.error);
      }
      var parsed := ParseStatus(line.value);
      return if parsed.None? then Err(NotAStatusLine) else Ok(parsed.value);
    }

    method Command(line: string) returns (status: Result<Status, ClientError>)
      modifies this
      ensures if Sendable(line) then Read(status, stream) == StatusRead(old(stream)) && sent == old(sent) + line + CRLF
              else status == Err(CommandTooLong) && stream == old(stream) && sent == old(sent)
    {
      if Utf8Length(line) + 2 > MAX_LINE {
        return Err(CommandTooLong);
      }
      sent := sent + line + CRLF;
      status := ReadStatus();
    }

    method ReadTextBlock() returns (block: Result<seq<string>, ClientError>)
      modifies this`stream
      ensures Read(block, stream) == BlockRead(old(stream))
    {
      hide ParseStatus;
      var lines := [];
      ghost var start := stream;
      BehindNothing(BlockRead(start));
      while true
        invariant BlockRead(start) == Behind(lines, BlockRead(stream))
        decreases |stream|
      {
        var line := ReadLine();
        if line.Err? {
          return Err(line.error);
        }
        if IsTerminator(line.value) {
          assert lines + [] == lines;
          return Ok(lines);
        }
        BehindOne(lines, Unstuff(TrimLineEnd(line.value)), BlockRead(stream));
        lines := lines + [Unstuff(TrimLineEnd(line.value))];
      }
    }

    method ExpectOk() returns (done: Result<(), ClientError>)
      modifies this`stream
      ensures Read(done, stream) == OkRead(old(stream))
    {
      var status := ReadStatus();
      if status.Err? {
        return Err(status.error);
      }
      return if IsSuccess(status.value) then Ok(()) else Err(Refused(status.value));
    }

    method ShowList(command: Command) returns (databases: Result<seq<Database>, ClientError>)
      requires command.ShowDatabases? || command.ShowStrategies?
      modifies this
      ensures Performed(command, old(stream)) ==
              Read(if databases.Ok? then Ok(Databases(databases.value)) else Err(databases.error), stream)
      ensures sent == old(sent) + SentFor(command)
    {
      hide StatusRead, BlockRead, OkRead, ParseDatabases, Sendable;
      var status := Command(CommandLine(command));
      if status.Err? {
        return Err(status.error);
      }
      if status.value.code == FollowCode(command) {
        var lines := ReadTextBlock();
        if lines.Err? {
          return Err(lines.error);
        }
        var parsed := ParseDatabases(lines.value);
        var done := ExpectOk();
        return if done.Err? then Err(done.error) else Ok(parsed);
      }
      return if status.value.code == NothingCode(command) then Ok([]) else Err(Refused(status.value));
    }

    method DefineWord(database: string, word: string) returns (definitions: Result<seq<Definition>, ClientError>)
      modifies this
      ensures Performed(Define(database, word), old(stream)) ==
              Read(if definitions.Ok? then Ok(Definitions(definitions.value)) else Err(definitions.error), stream)
      ensures sent == old(sent) + SentFor(Define(database, word))
    {
      hide StatusRead, BlockRead, DefinitionHeader, Sendable;
      var status := Command("DEFINE " + Quote(database) + " " + Quote(word));
      if status.Err? {
        return Err(status.error);
      }
      if status.value.code == NO_MATCH {
        return Ok([]);
      }
      if status.value.code != DEFINITIONS_FOLLOW {
        return Err(Refused(status.value));
      }
      var found := [];
      ghost var start := stream;
      BehindNothing(DefinitionsRead(start));
      while true
        invariant sent == old(sent) + SentFor(Define(database, word))
        invariant DefinitionsRead(start) == Behind(found, DefinitionsRead(stream))
        decreases |stream|
      {
        ghost var before := stream;
        var next := ReadStatus();
        if next.Err? {
          return Err(next.error);
        }
        if next.value.code == DEFINITION_FOLLOWS {
          var header := DefinitionHeader(next.value);
          if header.None? {
            return Err(MalformedDefinition);
          }
          BlockReadShrinks(stream);
          StatusReadShrinks(before);
          var text := ReadTextBlock();
          if text.Err? {
            return Err(text.error);
          }
          var (word', database', description) := header.value;
          var definition := Definition(word', database', description, text.value);
          BehindOne(found, definition, DefinitionsRead(stream));
          found := found + [definition];
        } else {
          assert found + [] == found;
          return if IsSuccess(next.value) then Ok(found) else Err(Refused(next.value));
        }
      }
    }

    method FindMatches(database: string, strategy: string, word: string) returns (matches: Result<seq<Match>, ClientError>)
      modifies this
      ensures Performed(MatchWord(database, strategy, word), old(stream)) ==
              Read(if matches.Ok? then Ok(Matches(matches.value)) else Err(matches.error), stream)
      ensures sent == old(sent) + SentFor(MatchWord(database, strategy, word))
    {
      hide StatusRead, BlockRead, OkRead, ParseMatches, Sendable;
      var status := Command("MATCH " + Quote(database) + " " + Quote(strategy) + " " + Quote(word));
      if status.Err? {
        return Err(status.error);
      }
      if status.value.code == MATCHES_FOLLOW {
        var lines := ReadTextBlock();
        if lines.Err? {
          return Err(lines.error);
        }
        var parsed := ParseMatches(lines.value);
        var done := ExpectOk();
        return if done.Err? then Err(done.error) else Ok(parsed);
      }
      return if status.value.code == NO_MATCH then Ok([]) else Err(Refused(status.value));
    }
  }

  /** A reading with what was collected before it put in front. */
  function Behind<T>(before: seq<T>, r: Read<seq<T>>): Read<seq<T>> {
    if r.result.Err? then r else Read(Ok(before + r.result.value), r.rest)
  }

  lemma BehindNothing<T>(r: Read<seq<T>>)
    ensures Behind([], r) == r
  {
    if r.result.Ok? {
      assert [] + r.result.value == r.result.value;
    }
  }

  lemma BehindOne<T>(before: seq<T>, x: T, r: Read<seq<T>>)
    ensures Behind(before, Behind([x], r)) == Behind(before + [x], r)
  {
    if r.result.Ok? {
      assert before + ([x] + r.result.value) == before + [x] + r.result.value;
    }
  }

  lemma StatusReadShrinks(stream: string)
    requires StatusRead(stream).result.Ok?
    ensures |StatusRead(stream).rest| < |stream|
  {
  }

  // ------------------------------------------------------------------ the server

  /** The codes of RFC 2229: what announces a command's data, and what says there is none. */
  function Announced(c: Command): nat {
    match c
    case ShowDatabases => 110
    case ShowStrategies => 111
    case Define(_, _) => 150
    case MatchWord(_, _, _) => 152
  }

  function Absent(c: Command): nat {
    match c
    case ShowDatabases => 554
    case ShowStrategies => 555
    case Define(_, _) => 552
    case MatchWord(_, _, _) => 552
  }

  /** A field that a line can carry. */
  predicate Plain(field: string) {
    '\n' !in field && '\r' !in field
  }

  /** A text block: each line stuffed and ended, then a lone period. */
  function BlockText(lines: seq<string>): string {
    if lines == [] then "." + CRLF else Stuff(lines[0]) + CRLF + BlockText(lines[1..])
  }

  function DatabaseLine(d: Database): string {
    JoinQuoted([d.name, d.description])
  }

  function MatchLine(m: Match): string {
    JoinQuoted([m.database, m.word])
  }

  function DatabaseLines(databases: seq<Database>): seq<string> {
    if databases == [] then [] else [DatabaseLine(databases[0])] + DatabaseLines(databases[1..])
  }

  function MatchLines(matches: seq<Match>): seq<string> {
    if matches == [] then [] else [MatchLine(matches[0])] + MatchLines(matches[1..])
  }

  function HeaderText(d: Definition): string {
    JoinQuoted([d.word, d.database, d.description])
  }

  /** Definitions, each under its header, and the closing status. */
  function DefinitionsText(definitions: seq<Definition>, closing: Status): string
    requires closing.code < 1000
  {
    if definitions == [] then StatusLine(closing.code, closing.text)
    else
      StatusLine(151, HeaderText(definitions[0])) + BlockText(definitions[0].text)
      + DefinitionsText(definitions[1..], closing)
  }

  /** A server's answer: a status line alone, or one with data and a closing line. */
  datatype Response = Alone(status: Status) | WithData(text: string, reply: Reply, closing: Status)

  function BodyText(reply: Reply, closing: Status): string
    requires closing.code < 1000
  {
    match reply
    case Databases(databases) => BlockText(DatabaseLines(databases)) + StatusLine(closing.code, closing.text)
    case Matches(matches) => BlockText(MatchLines(matches)) + StatusLine(closing.code, closing.text)
    case Definitions(definitions) => DefinitionsText(definitions, closing)
  }

  function ResponseText(c: Command, r: Response): string
    requires r.Alone? ==> r.status.code < 1000
    requires r.WithData? ==> r.closing.code < 1000
  {
    match r
    case Alone(status) => StatusLine(status.code, status.text)
    case WithData(text, reply, closing) => StatusLine(Announced(c), text) + BodyText(reply, closing)
  }

  predicate DefinitionOk(d: Definition) {
    Plain(d.word) && Plain(d.database) && Plain(d.description) && forall line :: line in d.text ==> Lineable(line)
  }

  /** Data of the kind the command asks for, which lines can carry. */
  predicate DataOk(c: Command, reply: Reply) {
    match reply
    case Databases(databases) =>
      (c.ShowDatabases? || c.ShowStrategies?)
      && forall d :: d in databases ==> Plain(d.name) && Plain(d.description)
    case Matches(matches) => c.MatchWord? && forall m :: m in matches ==> Plain(m.database) && Plain(m.word)
    case Definitions(definitions) => c.Define? && forall d :: d in definitions ==> DefinitionOk(d)
  }

  /** A response a server may give to a command. */
  predicate ResponseOk(c: Command, r: Response) {
    match r
    case Alone(status) => status.code < 1000 && status.code != Announced(c) && Lineable(status.text)
    case WithData(text, reply, closing) =>
      Lineable(text) && DataOk(c, reply) && 200 <= closing.code < 300 && Lineable(closing.text)
  }

  /** The databases with a name; the client drops the others. */
  function Named(databases: seq<Database>): seq<Database> {
    if databases == [] then []
    else (if databases[0].name == "" then [] else [databases[0]]) + Named(databases[1..])
  }

  /** What the client makes of a response. */
  function ResultOf(c: Command, r: Response): Result<Reply, ClientError> {
    match r
    case Alone(status) =>
      if status.code == Absent(c) then Ok(Nothing(c)) else Err(Refused(Status(status.code, TrimStart(status.text))))
    case WithData(_, Databases(databases), _) => Ok(Databases(Named(databases)))
    case WithData(_, reply, _) => Ok(reply)
  }

  // ----------------------------------------------------------------- in step

  lemma {:induction false} FirstLineIs(line: string, rest: string)
    requires '\n' !in line
    ensures FirstLine(line + CRLF + rest) == line + CRLF
  {
    var stream := line + CRLF + rest;
    if line == "" {
      assert stream[1..] == "\n" + rest;
      assert FirstLine(stream[1..]) == "\n";
    } else {
      FirstLineIs(line[1..], rest);
      assert stream[1..] == line[1..] + CRLF + rest;
      assert [line[0]] + (line[1..] + CRLF) == line + CRLF;
    }
  }

  lemma LineReadIs(line: string, rest: string)
    requires '\n' !in line
    ensures LineRead(line + CRLF + rest) == Read(Ok(line + CRLF), rest)
  {
    FirstLineIs(line, rest);
    assert (line + CRLF + rest)[|line + CRLF|..] == rest;
  }

  lemma StatusReadIs(code: nat, text: string, rest: string)
    requires code < 1000 && Lineable(text)
    ensures StatusRead(StatusLine(code, text) + rest) == Read(Ok(Status(code, TrimStart(text))), rest)
  {
    hide ParseStatus, FirstLine;
    StatusRoundTrip(code, text);
    StatusLineShape(code, text);
    var line := StatusLine(code, text)[..|StatusLine(code, text)| - 2];
    LineReadIs(line, rest);
  }

  lemma StatusLineShape(code: nat, text: string)
    requires code < 1000 && Lineable(text)
    ensures var whole := StatusLine(code, text);
            |whole| >= 2 && whole == whole[..|whole| - 2] + CRLF && '\n' !in whole[..|whole| - 2]
  {
    var line := [DigitOf(code / 100), DigitOf(code / 10 % 10), DigitOf(code % 10)] + " " + text;
    assert StatusLine(code, text) == line + CRLF;
    assert StatusLine(code, text)[..|line|] == line;
  }

  lemma PeriodEndsBlock(rest: string)
    ensures BlockRead("." + CRLF + rest) == Read(Ok([]), rest)
  {
    LineReadIs(".", rest);
    TrimOwnEnd(".");
  }

  lemma BlockLineReads(line: string, rest: string)
    requires Lineable(line)
    ensures BlockRead(Stuff(line) + CRLF + rest) == Behind([line], BlockRead(rest))
  {
    hide LineRead, IsTerminator, TrimLineEnd, Unstuff;
    StuffingRoundTrip(line);
    LineReadIs(Stuff(line), rest);
  }

  lemma {:induction false} BlockReadIs(lines: seq<string>, rest: string)
    requires forall line :: line in lines ==> Lineable(line)
    ensures BlockRead(BlockText(lines) + rest) == Read(Ok(lines), rest)
  {
    hide BlockRead, Stuff, Lineable;
    if lines == [] {
      PeriodEndsBlock(rest);
    } else {
      var more := BlockText(lines[1..]) + rest;
      assert BlockText(lines) + rest == Stuff(lines[0]) + CRLF + more;
      assert lines[0] in lines;
      BlockLineReads(lines[0], more);
      BlockReadIs(lines[1..], rest);
      assert [lines[0]] + lines[1..] == lines;
    }
  }

  lemma {:induction false} EscapedIsPlain(s: string)
    requires Plain(s)
    ensures Plain(Escaped(s))
  {
    if s != "" { EscapedIsPlain(s[1..]); }
  }

  lemma QuoteIsPlain(param: string)
    requires Plain(param)
    ensures Plain(Quote(param)) && !IsWhitespace(Quote(param)[0])
  {
    ReplacedIsEscaped(param);
    EscapedIsPlain(param);
  }

  /** Quoted fields make a line that starts with no whitespace. */
  lemma {:induction false} JoinedIsPlain(params: seq<string>)
    requires params != [] && forall p :: p in params ==> Plain(p)
    ensures var line := JoinQuoted(params);
            Plain(line) && Lineable(line) && TrimStart(line) == line
  {
    hide Quote;
    assert params[0] in params;
    QuoteIsPlain(params[0]);
    if |params| > 1 {
      JoinedIsPlain(params[1..]);
    }
    TrimStartShape(JoinQuoted(params));
  }

  lemma {:induction false} DatabasesParse(databases: seq<Database>)
    requires forall d :: d in databases ==> Plain(d.name) && Plain(d.description)
    ensures var lines := DatabaseLines(databases);
            (forall line :: line in lines ==> Lineable(line)) && ParseDatabases(lines) == Named(databases)
  {
    hide JoinQuoted, Params, Plain;
    if databases != [] {
      var d := databases[0];
      assert d in databases;
      JoinedIsPlain([d.name, d.description]);
      QuotingRoundTrip([d.name, d.description]);
      DatabasesParse(databases[1..]);
    }
  }

  lemma {:induction false} MatchesParse(matches: seq<Match>)
    requires forall m :: m in matches ==> Plain(m.database) && Plain(m.word)
    ensures var lines := MatchLines(matches);
            (forall line :: line in lines ==> Lineable(line)) && ParseMatches(lines) == matches
  {
    hide JoinQuoted, Params, Plain;
    if matches != [] {
      var m := matches[0];
      assert m in matches;
      JoinedIsPlain([m.database, m.word]);
      QuotingRoundTrip([m.database, m.word]);
      MatchesParse(matches[1..]);
      assert [m] + matches[1..] == matches;
    }
  }

  lemma ListReadIs(lines: seq<string>, closing: Status, rest: string)
    requires (forall line :: line in lines ==> Lineable(line)) && 200 <= closing.code < 300 && Lineable(closing.text)
    ensures ListRead(BlockText(lines) + StatusLine(closing.code, closing.text) + rest) == Read(Ok(lines), rest)
  {
    hide BlockRead, StatusRead, StatusLine, BlockText;
    var last := StatusLine(closing.code, closing.text) + rest;
    assert BlockText(lines) + StatusLine(closing.code, closing.text) + rest == BlockText(lines) + last;
    BlockReadIs(lines, last);
    StatusReadIs(closing.code, closing.text, rest);
  }

  lemma HeaderParses(d: Definition)
    requires DefinitionOk(d)
    ensures Lineable(HeaderText(d))
    ensures DefinitionHeader(Status(151, TrimStart(HeaderText(d)))) == Some((d.word, d.database, d.description))
  {
    hide JoinQuoted, Params;
    JoinedIsPlain([d.word, d.database, d.description]);
    QuotingRoundTrip([d.word, d.database, d.description]);
  }

  lemma {:induction false} DefinitionsReadIs(definitions: seq<Definition>, closing: Status, rest: string)
    requires (forall d :: d in definitions ==> DefinitionOk(d)) && 200 <= closing.code < 300 && Lineable(closing.text)
    ensures DefinitionsRead(DefinitionsText(definitions, closing) + rest) == Read(Ok(definitions), rest)
  {
    hide BlockRead, StatusRead, StatusLine, BlockText, HeaderText, DefinitionHeader;
    if definitions == [] {
      StatusReadIs(closing.code, closing.text, rest);
    } else {
      var d := definitions[0];
      assert d in definitions;
      var more := DefinitionsText(definitions[1..], closing) + rest;
      var head := StatusLine(151, HeaderText(d));
      assert DefinitionsText(definitions, closing) + rest == head + (BlockText(d.text) + more);
      HeaderParses(d);
      StatusReadIs(151, HeaderText(d), BlockText(d.text) + more);
      BlockReadIs(d.text, more);
      DefinitionsReadIs(definitions[1..], closing, rest);
      assert [d] + definitions[1..] == definitions;
    }
  }

  lemma BodyReadIs(c: Command, reply: Reply, closing: Status, rest: string)
    requires DataOk(c, reply) && 200 <= closing.code < 300 && Lineable(closing.text)
    ensures BodyRead(c, BodyText(reply, closing) + rest) ==
            Read(Ok(if reply.Databases? then Databases(Named(reply.databases)) else reply), rest)
  {
    hide DefinitionsRead, ListRead, ParseDatabases, ParseMatches, StatusLine, BlockText;
    match reply
    case Databases(databases) =>
      DatabasesParse(databases);
      ListReadIs(DatabaseLines(databases), closing, rest);
    case Matches(matches) =>
      MatchesParse(matches);
      ListReadIs(MatchLines(matches), closing, rest);
    case Definitions(definitions) =>
      DefinitionsReadIs(definitions, closing, rest);
  }

  /** Each command reads exactly the data of its own response and stops at its end,
      whatever follows; a refusal, or no answer to give, takes its one line. */
  lemma CommandReadsItsResponse(c: Command, r: Response, rest: string)
    requires Sendable(CommandLine(c)) && ResponseOk(c, r)
    ensures Performed(c, ResponseText(c, r) + rest) == Read(ResultOf(c, r), rest)
  {
    hide StatusRead, StatusLine, BodyText, BodyRead, Sendable;
    match r
    case Alone(status) =>
      StatusReadIs(status.code, status.text, rest);
    case WithData(text, reply, closing) =>
      var body := BodyText(reply, closing) + rest;
      assert ResponseText(c, r) + rest == StatusLine(Announced(c), text) + body;
      StatusReadIs(Announced(c), text, body);
      BodyReadIs(c, reply, closing, rest);
  }

  // -------------------------------------------------------------- whole sessions

  /** A command and the server's response, none when the command was never sent. */
  datatype Turn = Turn(command: Command, response: Response)

  function TurnText(t: Turn): string
    requires ResponseOk(t.command, t.response)
  {
    if Sendable(CommandLine(t.command)) then ResponseText(t.command, t.response) else ""
  }

  function TurnResult(t: Turn): Result<Reply, ClientError> {
    if Sendable(CommandLine(t.command)) then ResultOf(t.command, t.response) else Err(CommandTooLong)
  }

  function Script(turns: seq<Turn>): string
    requires forall t :: t in turns ==> ResponseOk(t.command, t.response)
  {
    if turns == [] then "" else TurnText(turns[0]) + Script(turns[1..])
  }

  /** One command after another on the same stream. */
  function Conversation(commands: seq<Command>, stream: string): (seq<Result<Reply, ClientError>>, string) {
    if commands == [] then ([], stream)
    else
      var Read(result, rest) := Performed(commands[0], stream);
      var (more, last) := Conversation(commands[1..], rest);
      ([result] + more, last)
  }

  function Commands(turns: seq<Turn>): seq<Command> {
    if turns == [] then [] else [turns[0].command] + Commands(turns[1..])
  }

  function Results(turns: seq<Turn>): seq<Result<Reply, ClientError>> {
    if turns == [] then [] else [TurnResult(turns[0])] + Results(turns[1..])
  }

  /** A session stays in step: for any sequence of commands, with their responses one
      after another on the stream, command k gets response k, and nothing is left
      unread or read too far. */
  lemma {:induction false} SessionStaysInStep(turns: seq<Turn>, rest: string)
    requires forall t :: t in turns ==> ResponseOk(t.command, t.response)
    ensures Conversation(Commands(turns), Script(turns) + rest) == (Results(turns), rest)
  {
    hide Performed, ResponseText, ResultOf, Sendable;
    if turns == [] {
      assert Script(turns) + rest == rest;
    } else {
      var t := turns[0];
      assert t in turns;
      var more := Script(turns[1..]) + rest;
      assert Script(turns) + rest == TurnText(t) + more;
      if Sendable(CommandLine(t.command)) {
        CommandReadsItsResponse(t.command, t.response, more);
      } else {
        assert TurnText(t) + more == more;
        NeverSent(t.command, more);
      }
      SessionStaysInStep(turns[1..], rest);
    }
  }

  lemma NeverSent(c: Command, stream: string)
    requires !Sendable(CommandLine(c))
    ensures Performed(c, stream) == Read(Err(CommandTooLong), stream) && SentFor(c) == ""
  {
  }

  lemma BareWord(word: string)
    requires Bare(word)
    ensures Quote(word) == word
  {
    hide Replaced;
    assert forall i :: 0 <= i < |word| ==> word[i] in word;
  }

  lemma TwoJoined(a: string, b: string)
    ensures JoinQuoted([a, b]) == Quote(a) + " " + Quote(b)
  {
    hide Quote;
    assert [a, b][1..] == [b];
    assert JoinQuoted([b]) == Quote(b);
  }

  lemma ThreeJoined(a: string, b: string, c: string)
    ensures JoinQuoted([a, b, c]) == Quote(a) + " " + Quote(b) + " " + Quote(c)
  {
    hide Quote;
    assert [a, b, c][1..] == [b, c];
    TwoJoined(b, c);
  }

  lemma FourJoined(a: string, b: string, c: string, d: string)
    ensures JoinQuoted([a, b, c, d]) == Quote(a) + " " + Quote(b) + " " + Quote(c) + " " + Quote(d)
  {
    hide Quote;
    assert [a, b, c, d][1..] == [b, c, d];
    ThreeJoined(b, c, d);
  }

  /** The server that splits a command line finds the very words asked for. */
  lemma CommandLineParses(c: Command)
    ensures Params(CommandLine(c)) ==
            match c
            case ShowDatabases => ["SHOW", "DB"]
            case ShowStrategies => ["SHOW", "STRAT"]
            case Define(database, word) => ["DEFINE", database, word]
            case MatchWord(database, strategy, word) => ["MATCH", database, strategy, word]
  {
    hide Params, Quote;
    match c
    case ShowDatabases =>
      assert "SHOW DB" == "SHOW" + " " + "DB";
      BareLine("SHOW", "DB");
    case ShowStrategies =>
      assert "SHOW STRAT" == "SHOW" + " " + "STRAT";
      BareLine("SHOW", "STRAT");
    case Define(database, word) =>
      assert "DEFINE " == "DEFINE" + " ";
      TwoWordLine("DEFINE", database, word);
    case MatchWord(database, strategy, word) =>
      assert "MATCH " == "MATCH" + " ";
      ThreeWordLine("MATCH", database, strategy, word);
  }

  predicate Bare(word: string) {
    word != "" && forall c :: c in word ==> 'A' <= c <= 'Z'
  }

  lemma BareLine(keyword: string, word: string)
    requires Bare(keyword) && Bare(word)
    ensures Params(keyword + " " + word) == [keyword, word]
  {
    hide Params, Quote, JoinQuoted;
    BareWord(keyword);
    BareWord(word);
    TwoJoined(keyword, word);
    QuotingRoundTrip([keyword, word]);
  }

  lemma TwoWordLine(keyword: string, a: string, b: string)
    requires Bare(keyword)
    ensures Params(keyword + " " + Quote(a) + " " + Quote(b)) == [keyword, a, b]
  {
    hide Params, Quote, JoinQuoted;
    BareWord(keyword);
    ThreeJoined(keyword, a, b);
    QuotingRoundTrip([keyword, a, b]);
  }

  lemma ThreeWordLine(keyword: string, a: string, b: string, c: string)
    requires Bare(keyword)
    ensures Params(keyword + " " + Quote(a) + " " + Quote(b) + " " + Quote(c)) == [keyword, a, b, c]
  {
    hide Params, Quote, JoinQuoted;
    BareWord(keyword);
    FourJoined(keyword, a, b, c);
    QuotingRoundTrip([keyword, a, b, c]);
  }
}
