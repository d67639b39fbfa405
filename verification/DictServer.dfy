/** A line-reading DICT server at the other end of a client's session: what it makes of
    the text the client sends, and when the two stay in step. */
module DictServer {
  import opened Text
  import opened Decimal
  import opened DictWire
  import opened DictClient

  // ------------------------------------------------------- reading commands

  /** The lines of a text, each with its LF. */
  function Lines(text: string): seq<string>
    decreases |text|
  {
    if text == "" then [] else [FirstLine(text)] + Lines(text[|FirstLine(text)|..])
  }

  /** All that a client sends for a series of commands. */
  function SentForAll(commands: seq<Command>): string {
    if commands == [] then "" else SentFor(commands[0]) + SentForAll(commands[1..])
  }

  /** The command lines a server should see: those of the commands that were sent. */
  function LinesMeant(commands: seq<Command>): seq<string> {
    if commands == [] then []
    else (if Sendable(CommandLine(commands[0])) then [CommandLine(commands[0]) + CRLF] else []) + LinesMeant(commands[1..])
  }

  /** No word of the command holds an LF. */
  predicate OneLine(c: Command) {
    match c
    case Define(database, word) => '\n' !in database && '\n' !in word
    case MatchWord(database, strategy, word) => '\n' !in database && '\n' !in strategy && '\n' !in word
    case _ => true
  }

  lemma {:induction false} EscapedKeepsLf(s: string)
    ensures '\n' in Escaped(s) <==> '\n' in s
  {
    if s != "" { EscapedKeepsLf(s[1..]); }
  }

  lemma QuoteKeepsLf(s: string)
    ensures '\n' in Quote(s) <==> '\n' in s
  {
    ReplacedIsEscaped(s);
    EscapedKeepsLf(s);
  }

  lemma CommandLineLf(c: Command)
    ensures '\n' in CommandLine(c) <==> !OneLine(c)
  {
    hide Quote;
    match c
    case Define(database, word) =>
      QuoteKeepsLf(database);
      QuoteKeepsLf(word);
    case MatchWord(database, strategy, word) =>
      QuoteKeepsLf(database);
      QuoteKeepsLf(strategy);
      QuoteKeepsLf(word);
    case _ =>
  }

  /** How many LFs a text holds. */
  function Lfs(s: string): nat {
    if s == "" then 0 else (if s[0] == '\n' then 1 else 0) + Lfs(s[1..])
  }

  lemma {:induction false} LfsAdd(a: string, b: string)
    ensures Lfs(a + b) == Lfs(a) + Lfs(b)
  {
    if a == "" {
      assert a + b == b;
    } else {
      LfsAdd(a[1..], b);
      assert (a + b)[1..] == a[1..] + b;
    }
  }

  lemma {:induction false} LfsPositive(s: string)
    ensures Lfs(s) > 0 <==> '\n' in s
  {
    if s != "" { LfsPositive(s[1..]); }
  }

  lemma {:induction false} FirstLineShape(text: string)
    requires text != ""
    ensures var line := FirstLine(text);
            && line == text[..|line|]
            && Lfs(line) <= 1 && (Lfs(line) == 0 ==> line == text)
  {
    if text[0] != '\n' && |text| > 1 {
      FirstLineShape(text[1..]);
      assert FirstLine(text) == [text[0]] + FirstLine(text[1..]);
      assert FirstLine(text)[1..] == FirstLine(text[1..]);
    } else {
      assert [text[0]][1..] == "";
    }
  }

  /** A text has as many lines as LFs, and one more if it does not end in one. */
  lemma {:induction false} LinesCount(text: string)
    ensures Lfs(text) <= |Lines(text)| <= Lfs(text) + 1
    ensures text != "" && text[|text| - 1] == '\n' ==> |Lines(text)| == Lfs(text)
    decreases |text|
  {
    if text != "" {
      var line := FirstLine(text);
      var rest := text[|line|..];
      FirstLineShape(text);
      LinesCount(rest);
      assert text == line + rest;
      LfsAdd(line, rest);
      if rest == "" && text[|text| - 1] == '\n' {
        LfsPositive(text);
      }
    }
  }

  /** What is sent ends in LF, and holds one LF a command sent and those of its words. */
  lemma SentLfs(c: Command)
    ensures Lfs(SentFor(c)) >= (if Sendable(CommandLine(c)) then 1 else 0)
    ensures Sendable(CommandLine(c)) && !OneLine(c) ==> Lfs(SentFor(c)) >= 2
    ensures SentFor(c) == "" || SentFor(c)[|SentFor(c)| - 1] == '\n'
  {
    hide Sendable, CommandLine;
    CommandLineLf(c);
    LfsPositive(CommandLine(c));
    LfsAdd(CommandLine(c), CRLF);
    assert CRLF[1..] == "\n" && CRLF[1..][1..] == "";
    assert Lfs(CRLF) == 1;
  }

  lemma {:induction false} AllSentLfs(commands: seq<Command>)
    ensures Lfs(SentForAll(commands)) >= |LinesMeant(commands)|
    ensures (exists c :: c in commands && Sendable(CommandLine(c)) && !OneLine(c)) ==>
              Lfs(SentForAll(commands)) > |LinesMeant(commands)|
    ensures SentForAll(commands) == "" || SentForAll(commands)[|SentForAll(commands)| - 1] == '\n'
  {
    hide Sendable, SentFor, CommandLine, OneLine;
    if commands != [] {
      var c := commands[0];
      SentLfs(c);
      AllSentLfs(commands[1..]);
      LfsAdd(SentFor(c), SentForAll(commands[1..]));
      assert commands == [c] + commands[1..];
    }
  }

  lemma {:induction false} PlainLinesReadBack(commands: seq<Command>)
    requires forall c :: c in commands && Sendable(CommandLine(c)) ==> OneLine(c)
    ensures Lines(SentForAll(commands)) == LinesMeant(commands)
  {
    hide Sendable, CommandLine, OneLine, FirstLine;
    if commands != [] {
      var c := commands[0];
      PlainLinesReadBack(commands[1..]);
      if Sendable(CommandLine(c)) {
        var rest := SentForAll(commands[1..]);
        CommandLineLf(c);
        FirstLineIs(CommandLine(c), rest);
        assert SentForAll(commands) == CommandLine(c) + CRLF + rest;
        assert (CommandLine(c) + CRLF + rest)[|CommandLine(c) + CRLF|..] == rest;
      } else {
        assert SentForAll(commands) == SentForAll(commands[1..]);
      }
    }
  }

  /** Reading what was sent line by line gives the command lines one for one if and
      only if no word of a command sent holds an LF. */
  lemma LinesAreCommands(commands: seq<Command>)
    ensures Lines(SentForAll(commands)) == LinesMeant(commands) <==>
            forall c :: c in commands && Sendable(CommandLine(c)) ==> OneLine(c)
  {
    hide Sendable, CommandLine, OneLine, Lines, SentForAll, LinesMeant;
    if forall c :: c in commands && Sendable(CommandLine(c)) ==> OneLine(c) {
      PlainLinesReadBack(commands);
    } else {
      AllSentLfs(commands);
      LinesCount(SentForAll(commands));
    }
  }

  // -------------------------------------------------------- a server's answers

  /** The command a server makes of a line. */
  function CommandOf(line: string): Option<Command> {
    var words := Params(TrimLineEnd(line));
    if words == ["SHOW", "DB"] then Some(ShowDatabases)
    else if words == ["SHOW", "STRAT"] then Some(ShowStrategies)
    else if |words| == 3 && words[0] == "DEFINE" then Some(Define(words[1], words[2]))
    else if |words| == 4 && words[0] == "MATCH" then Some(MatchWord(words[1], words[2], words[3]))
    else None
  }

  lemma CommandLineEnd(c: Command)
    requires OneLine(c)
    ensures TrimLineEnd(CommandLine(c) + CRLF) == CommandLine(c)
  {
    hide TrimLineEnd;
    var line := CommandLine(c);
    CommandLineLf(c);
    CommandLineLast(c);
    TrimOwnEnd(line);
  }

  /** A command line never ends in a CR of its own: a word that does is quoted. */
  lemma CommandLineLast(c: Command)
    ensures CommandLine(c) != "" && CommandLine(c)[|CommandLine(c)| - 1] != '\r'
  {
    hide Quote;
    match c
    case Define(_, word) => QuoteLast(word);
    case MatchWord(_, _, word) => QuoteLast(word);
    case _ =>
  }

  lemma QuoteLast(param: string)
    ensures Quote(param)[|Quote(param)| - 1] != '\r'
  {
    if !NeedsQuotes(param) {
      assert !IsWhitespace(param[|param| - 1]);
    }
  }

  /** A command on one line is understood as itself. */
  lemma CommandIsUnderstood(c: Command)
    requires OneLine(c)
    ensures CommandOf(CommandLine(c) + CRLF) == Some(c)
  {
    hide Params, TrimLineEnd, CommandLine;
    CommandLineEnd(c);
    CommandLineParses(c);
  }

  const SYNTAX_ERROR := Status(500, "syntax error, command not recognized")

  /** A server whose every answer is one that a server may give. */
  ghost predicate Responds(answer: (nat, Command) -> Response) {
    forall i: nat, c :: ResponseOk(c, answer(i, c))
  }

  /** What a server writes for the lines it reads, the first of them its `k`-th. */
  function Answered(lines: seq<string>, answer: (nat, Command) -> Response, k: nat): string
    requires Responds(answer)
  {
    if lines == [] then ""
    else
      var c := CommandOf(lines[0]);
      assert c.Some? ==> ResponseOk(c.value, answer(k, c.value));
      (if c.Some? then ResponseText(c.value, answer(k, c.value)) else StatusLine(SYNTAX_ERROR.code, SYNTAX_ERROR.text))
      + Answered(lines[1..], answer, k + 1)
  }

  /** Each command with the answer of a server that has answered `k` before. */
  function Turns(commands: seq<Command>, answer: (nat, Command) -> Response, k: nat): seq<Turn> {
    if commands == [] then []
    else
      [Turn(commands[0], answer(k, commands[0]))]
      + Turns(commands[1..], answer, if Sendable(CommandLine(commands[0])) then k + 1 else k)
  }

  lemma {:induction false} TurnsAreOk(commands: seq<Command>, answer: (nat, Command) -> Response, k: nat)
    requires Responds(answer)
    ensures var turns := Turns(commands, answer, k);
            Commands(turns) == commands && forall t :: t in turns ==> ResponseOk(t.command, t.response)
  {
    hide ResponseOk, Sendable, CommandLine, Responds;
    if commands != [] {
      var c := commands[0];
      AnswerIsOk(answer, k, c);
      TurnsAreOk(commands[1..], answer, if Sendable(CommandLine(c)) then k + 1 else k);
      assert commands == [c] + commands[1..];
    }
  }

  lemma AnswerIsOk(answer: (nat, Command) -> Response, k: nat, c: Command)
    requires Responds(answer)
    ensures ResponseOk(c, answer(k, c))
  {
  }

  /** The server writes the responses of the commands, one after another. */
  lemma {:induction false} AnswersAreScript(commands: seq<Command>, answer: (nat, Command) -> Response, k: nat)
    requires Responds(answer)
    requires forall c :: c in commands && Sendable(CommandLine(c)) ==> OneLine(c)
    requires forall t :: t in Turns(commands, answer, k) ==> ResponseOk(t.command, t.response)
    ensures Answered(LinesMeant(commands), answer, k) == Script(Turns(commands, answer, k))
  {
    hide ResponseOk, Sendable, CommandLine, OneLine, ResponseText, CommandOf, StatusLine, Responds;
    if commands != [] {
      var c := commands[0];
      var k' := if Sendable(CommandLine(c)) then k + 1 else k;
      assert c in commands;
      TurnsAreOk(commands[1..], answer, k');
      AnswersAreScript(commands[1..], answer, k');
      if Sendable(CommandLine(c)) {
        CommandIsUnderstood(c);
        assert LinesMeant(commands)[1..] == LinesMeant(commands[1..]);
      } else {
        assert LinesMeant(commands) == LinesMeant(commands[1..]);
      }
      assert Turns(commands, answer, k)[1..] == Turns(commands[1..], answer, k');
    }
  }

  /** A client and a line-reading server stay in step: whatever the server answers, for
      any commands whose words hold no LF, the client's k-th result is made of the
      server's answer to its k-th command, and it reads exactly what the server wrote. */
  lemma ClientAndServerInStep(commands: seq<Command>, answer: (nat, Command) -> Response, rest: string)
    requires Responds(answer)
    requires forall c :: c in commands && Sendable(CommandLine(c)) ==> OneLine(c)
    ensures Conversation(commands, Answered(Lines(SentForAll(commands)), answer, 0) + rest)
            == (Results(Turns(commands, answer, 0)), rest)
  {
    hide ResponseOk, Sendable, CommandLine, OneLine, Lines, SentForAll, LinesMeant, Script, Results, Conversation, Responds;
    TurnsAreOk(commands, answer, 0);
    LinesAreCommands(commands);
    AnswersAreScript(commands, answer, 0);
    SessionStaysInStep(Turns(commands, answer, 0), rest);
  }

  // ------------------------------------------------------------ the failing word

  lemma {:induction false} FirstLineCut(line: string, rest: string)
    requires '\n' !in line
    ensures FirstLine(line + "\n" + rest) == line + "\n"
  {
    var text := line + "\n" + rest;
    if line != "" {
      FirstLineCut(line[1..], rest);
      assert text[1..] == line[1..] + "\n" + rest;
    }
  }

  lemma CutLines(line: string, rest: string)
    requires '\n' !in line && '\n' !in rest
    ensures Lines(line + "\n" + rest + CRLF) == [line + "\n", rest + CRLF]
  {
    var text := line + "\n" + (rest + CRLF);
    assert line + "\n" + rest + CRLF == text;
    FirstLineCut(line, rest + CRLF);
    assert text[|line + "\n"|..] == rest + CRLF;
    FirstLineIs(rest, "");
    assert rest + CRLF + "" == rest + CRLF;
    assert (rest + CRLF)[|rest + CRLF|..] == "";
    assert Lines("") == [];
  }

  lemma TrimLf(s: string)
    requires s != "" && !IsLineEnd(s[|s| - 1])
    ensures TrimLineEnd(s + "\n") == s && TrimLineEnd(s + CRLF) == s
  {
    TrimLineEndShape(s);
    TrimOwnEnd(s);
    assert (s + "\n")[..|s|] == s;
  }

  /** A word that needs no quoting and no escaping. */
  predicate Unquoted(word: string) {
    word != "" && forall i :: 0 <= i < |word| ==> !IsWhitespace(word[i]) && word[i] != '"' && word[i] != '\\'
  }

  /** A bare word and a blank: one more parameter. */
  lemma TakesWord(params: seq<string>, word: string)
    requires Unquoted(word)
    ensures TakenAll(FRESH.(params := params), word + " ") == FRESH.(params := params + [word])
  {
    var s := FRESH.(params := params);
    TakenParts(s, word, " ");
    TakesPlain(s, word);
    TakesOne(s.(current := word), ' ');
    assert "" + word == word;
  }

  lemma OpenQuoteParams(keyword: string, database: string, a: string)
    requires Unquoted(keyword) && Unquoted(database) && Unquoted(a)
    ensures Params(keyword + " " + database + " " + "\"" + a) == [keyword, database, a]
  {
    var text := keyword + " " + database + " " + "\"" + a;
    var s1, s2 := FRESH.(params := [keyword]), FRESH.(params := [keyword, database]);
    assert text == (keyword + " ") + ((database + " ") + ("\"" + a));
    TakenParts(FRESH, keyword + " ", (database + " ") + ("\"" + a));
    TakenParts(s1, database + " ", "\"" + a);
    TakenParts(s2, "\"", a);
    hide TakenAll;
    TakesWord([], keyword);
    TakesWord([keyword], database);
    assert [] + [keyword] == [keyword] && [keyword] + [database] == [keyword, database];
    TakesOne(s2, '"');
    TakesQuotedPlain(s2.(inQuotes := true, started := true), a);
    assert "" + a == a;
  }

  lemma {:induction false} TakesQuotedPlain(s: Splitter, a: string)
    requires s.inQuotes && !s.escaped && Unquoted(a)
    ensures TakenAll(s, a) == s.(current := s.current + a)
  {
    PlainIsNotEscaped(a);
    TakesEscaped(s, a);
  }

  lemma {:induction false} PlainIsNotEscaped(s: string)
    requires forall i :: 0 <= i < |s| ==> s[i] != '"' && s[i] != '\\'
    ensures Escaped(s) == s
  {
    if s != "" { PlainIsNotEscaped(s[1..]); }
  }

  lemma CloseQuoteParams(x: string, y: string)
    requires Unquoted(x) && Unquoted(y)
    ensures Params(x + " " + y + "\"") == [x, y]
  {
    var s := FRESH.(params := [x]);
    assert x + " " + y + "\"" == (x + " ") + (y + "\"");
    TakenParts(FRESH, x + " ", y + "\"");
    TakenParts(s, y, "\"");
    hide TakenAll;
    TakesWord([], x);
    assert [] + [x] == [x] && "" + y == y;
    TakesPlain(s, y);
    TakesOne(s.(current := y), '"');
  }

  lemma LfWordQuoted(a: string, rest: string)
    requires forall c :: c in a + rest ==> c != '"' && c != '\\'
    ensures Quote(a + "\n" + rest) == "\"" + a + "\n" + rest + "\""
  {
    hide Replaced;
    var word := a + "\n" + rest;
    assert word[|a|] == '\n' && IsWhitespace(word[|a|]);
    forall i | 0 <= i < |word| ensures word[i] != '"' && word[i] != '\\' {
      assert word[i] == '\n' || word[i] in a + rest;
    }
    ReplacedIsEscaped(word);
    PlainIsNotEscaped(word);
  }

  lemma UnquotedIsItself(word: string)
    requires Unquoted(word)
    ensures Quote(word) == word && '\n' !in word && !IsLineEnd(word[|word| - 1])
  {
    hide Replaced;
  }

  lemma KeywordsAreBare()
    ensures Unquoted("DEFINE") && Unquoted("SHOW") && Unquoted("DB")
  {
  }

  lemma UnquotedIsPlain(a: string)
    requires Unquoted(a)
    ensures forall c :: c in a ==> c != '"' && c != '\\'
  {
  }

  /** Words with an LF in them are accepted and sent, and the server sees two commands
      where the client gave one. */
  lemma WordWithLfIsTwoCommands(database: string, a: string)
    requires Unquoted(database) && Unquoted(a) && |database| + |a| <= 200
    ensures var c := Define(database, a + "\n" + "SHOW DB");
            && Sendable(CommandLine(c)) && !OneLine(c)
            && |Lines(SentFor(c))| == 2
            && CommandOf(Lines(SentFor(c))[0]) == Some(Define(database, a))
            && CommandOf(Lines(SentFor(c))[1]) == Some(ShowDatabases)
  {
    hide Quote, Params, CommandLine, Lines, Unquoted, Sendable, SentFor, TrimLineEnd;
    var c := Define(database, a + "\n" + "SHOW DB");
    assert !OneLine(c) by { assert c.word[|a|] == '\n'; }
    UnquotedIsPlain(a);
    LfWordQuoted(a, "SHOW DB");
    UnquotedIsItself(database);
    UnquotedIsItself(a);
    var first, second := "DEFINE" + " " + database + " " + "\"" + a, "SHOW" + " " + "DB" + "\"";
    assert "SHOW" + " " + "DB" == "SHOW DB";
    CommandLineCut(c, a, first, second);
    TwoLines(c, first, second);
    KeywordsAreBare();
    OpenQuoteParams("DEFINE", database, a);
    CloseQuoteParams("SHOW", "DB");
    TrimLineEndShape(first);
    TrimLineEndShape(second);
  }

  lemma CommandLineCut(c: Command, a: string, first: string, second: string)
    requires c.Define? && Quote(c.database) == c.database
    requires Quote(c.word) == "\"" + a + "\n" + "SHOW DB" + "\""
    requires first == "DEFINE" + " " + c.database + " " + "\"" + a && second == "SHOW" + " " + "DB" + "\""
    ensures CommandLine(c) == first + "\n" + second
  {
    hide Quote;
    assert "DEFINE " == "DEFINE" + " ";
  }

  lemma TwoLines(c: Command, first: string, second: string)
    requires CommandLine(c) == first + "\n" + second && |first| + |second| <= 250
    requires '\n' !in first && '\n' !in second
    requires first != "" && second != "" && !IsLineEnd(first[|first| - 1]) && !IsLineEnd(second[|second| - 1])
    ensures Sendable(CommandLine(c)) && |Lines(SentFor(c))| == 2
    ensures CommandOf(Lines(SentFor(c))[0]) == CommandOf(first) && CommandOf(Lines(SentFor(c))[1]) == CommandOf(second)
  {
    hide CommandLine, Params, Lines, TrimLineEnd, Utf8Length;
    WidthBound(CommandLine(c));
    CutLines(first, second);
    TrimLf(first);
    TrimLf(second);
    TrimLineEndShape(first);
    TrimLineEndShape(second);
  }
}
