/** DICT commands against the replies of RFC 2229, number by number (sections 3.2 to 3.5
    and 5): what each command gives and where it stops reading. */
module DictReplies {
  import opened Text
  import opened Decimal
  import opened DictWire
  import opened DictClient

  /** A database list under 110, closed by 250. */
  lemma DatabasesUnder110(ds: seq<Database>, t: string, u: string, rest: string)
    requires Lineable(t) && Lineable(u) && forall d :: d in ds ==> Plain(d.name) && Plain(d.description)
    ensures Performed(ShowDatabases, StatusLine(110, t) + BlockText(DatabaseLines(ds)) + StatusLine(250, u) + rest)
            == Read(Ok(Databases(Named(ds))), rest)
  {
    hide Sendable, CommandLine, StatusLine, BlockText, DatabaseLines, Performed;
    ShortCommands();
    WithDataRead(ShowDatabases, t, Databases(ds), 250, u, BlockText(DatabaseLines(ds)) + StatusLine(250, u), rest);
    Regroup(StatusLine(110, t), BlockText(DatabaseLines(ds)), StatusLine(250, u), rest);
  }

  /** A strategy list under 111, closed by 250. */
  lemma StrategiesUnder111(ds: seq<Database>, t: string, u: string, rest: string)
    requires Lineable(t) && Lineable(u) && forall d :: d in ds ==> Plain(d.name) && Plain(d.description)
    ensures Performed(ShowStrategies, StatusLine(111, t) + BlockText(DatabaseLines(ds)) + StatusLine(250, u) + rest)
            == Read(Ok(Databases(Named(ds))), rest)
  {
    hide Sendable, CommandLine, StatusLine, BlockText, DatabaseLines, Performed;
    ShortCommands();
    WithDataRead(ShowStrategies, t, Databases(ds), 250, u, BlockText(DatabaseLines(ds)) + StatusLine(250, u), rest);
    Regroup(StatusLine(111, t), BlockText(DatabaseLines(ds)), StatusLine(250, u), rest);
  }

  /** A match list under 152, closed by 250. */
  lemma MatchesUnder152(database: string, strategy: string, word: string, ms: seq<Match>, t: string, u: string, rest: string)
    requires Sendable(CommandLine(MatchWord(database, strategy, word)))
    requires Lineable(t) && Lineable(u) && forall m :: m in ms ==> Plain(m.database) && Plain(m.word)
    ensures Performed(MatchWord(database, strategy, word), StatusLine(152, t) + BlockText(MatchLines(ms)) + StatusLine(250, u) + rest)
            == Read(Ok(Matches(ms)), rest)
  {
    hide Sendable, CommandLine, StatusLine, BlockText, MatchLines, Performed;
    WithDataRead(MatchWord(database, strategy, word), t, Matches(ms), 250, u, BlockText(MatchLines(ms)) + StatusLine(250, u), rest);
    Regroup(StatusLine(152, t), BlockText(MatchLines(ms)), StatusLine(250, u), rest);
  }

  /** Definitions under 150, each under its own 151, closed by 250. */
  lemma DefinitionsUnder150(database: string, word: string, ds: seq<Definition>, t: string, u: string, rest: string)
    requires Sendable(CommandLine(Define(database, word)))
    requires Lineable(t) && Lineable(u) && forall d :: d in ds ==> DefinitionOk(d)
    ensures Performed(Define(database, word), StatusLine(150, t) + Under151(ds) + StatusLine(250, u) + rest)
            == Read(Ok(Definitions(ds)), rest)
  {
    hide Sendable, CommandLine, StatusLine, Under151, DefinitionsText, Performed;
    Under151Is(ds, Status(250, u));
    WithDataRead(Define(database, word), t, Definitions(ds), 250, u, Under151(ds) + StatusLine(250, u), rest);
    Regroup(StatusLine(150, t), Under151(ds), StatusLine(250, u), rest);
  }

  function Under151(ds: seq<Definition>): string {
    if ds == [] then ""
    else
      StatusLine(151, Quote(ds[0].word) + " " + Quote(ds[0].database) + " " + Quote(ds[0].description))
      + BlockText(ds[0].text) + Under151(ds[1..])
  }

  lemma {:induction false} Under151Is(ds: seq<Definition>, closing: Status)
    requires closing.code < 1000
    ensures DefinitionsText(ds, closing) == Under151(ds) + StatusLine(closing.code, closing.text)
  {
    hide StatusLine, BlockText, Quote;
    if ds != [] {
      ThreeJoined(ds[0].word, ds[0].database, ds[0].description);
      Under151Is(ds[1..], closing);
    }
  }

  lemma Regroup(a: string, b: string, c: string, rest: string)
    ensures a + b + c + rest == a + (b + c) + rest
  {
  }

  lemma WithDataRead(c: Command, t: string, reply: Reply, code: nat, u: string, body: string, rest: string)
    requires Sendable(CommandLine(c)) && Lineable(t) && Lineable(u) && DataOk(c, reply) && 200 <= code < 300
    requires body == BodyText(reply, Status(code, u))
    ensures Performed(c, StatusLine(Announced(c), t) + body + rest) ==
            Read(Ok(if reply.Databases? then Databases(Named(reply.databases)) else reply), rest)
  {
    hide Performed, StatusLine, BodyText, Sendable, DataOk, Named;
    CommandReadsItsResponse(c, WithData(t, reply, Status(code, u)), rest);
  }

  /** Nothing to give: 554, 555 and 552 make empty results, in one line. */
  lemma NothingUnder55x(database: string, strategy: string, word: string, t: string, rest: string)
    requires Lineable(t)
    ensures Performed(ShowDatabases, StatusLine(554, t) + rest) == Read(Ok(Databases([])), rest)
    ensures Performed(ShowStrategies, StatusLine(555, t) + rest) == Read(Ok(Databases([])), rest)
    ensures Sendable(CommandLine(Define(database, word))) ==>
              Performed(Define(database, word), StatusLine(552, t) + rest) == Read(Ok(Definitions([])), rest)
    ensures Sendable(CommandLine(MatchWord(database, strategy, word))) ==>
              Performed(MatchWord(database, strategy, word), StatusLine(552, t) + rest) == Read(Ok(Matches([])), rest)
  {
    hide Sendable, CommandLine, StatusLine, Performed;
    ShortCommands();
    AloneRead(ShowDatabases, 554, t, rest);
    AloneRead(ShowStrategies, 555, t, rest);
    if Sendable(CommandLine(Define(database, word))) {
      AloneRead(Define(database, word), 552, t, rest);
    }
    if Sendable(CommandLine(MatchWord(database, strategy, word))) {
      AloneRead(MatchWord(database, strategy, word), 552, t, rest);
    }
  }

  lemma AloneRead(c: Command, code: nat, t: string, rest: string)
    requires Sendable(CommandLine(c)) && code < 1000 && code != Announced(c) && Lineable(t)
    ensures Performed(c, StatusLine(code, t) + rest) ==
            Read(if code == Absent(c) then Ok(Nothing(c)) else Err(Refused(Status(code, TrimStart(t)))), rest)
  {
    hide Performed, StatusLine, Sendable, TrimStart;
    CommandReadsItsResponse(c, Alone(Status(code, t)), rest);
  }

  /** Any other status at all, successes included, is a refusal with its code and text,
      and takes its one line. */
  lemma OthersAreRefused(c: Command, code: nat, t: string, rest: string)
    requires Sendable(CommandLine(c)) && code < 1000 && Lineable(t)
    requires match c
             case ShowDatabases => code != 110 && code != 554
             case ShowStrategies => code != 111 && code != 555
             case Define(_, _) => code != 150 && code != 552
             case MatchWord(_, _, _) => code != 152 && code != 552
    ensures Performed(c, StatusLine(code, t) + rest) == Read(Err(Refused(Status(code, TrimStart(t)))), rest)
  {
    hide Performed, StatusLine, Sendable, TrimStart;
    AloneRead(c, code, t, rest);
  }

  lemma ShortCommands()
    ensures Sendable(CommandLine(ShowDatabases)) && Sendable(CommandLine(ShowStrategies))
  {
    hide Utf8Length;
    WidthBound("SHOW DB");
    WidthBound("SHOW STRAT");
  }

  // ------------------------------------------------------------ what goes wrong

  /** The status after a list must be a success, 200 to 299; any other one takes its
      line and refuses the list. */
  lemma ListNeedsSuccess(lines: seq<string>, code: nat, u: string, rest: string)
    requires (forall line :: line in lines ==> Lineable(line)) && code < 1000 && Lineable(u)
    ensures ListRead(BlockText(lines) + StatusLine(code, u) + rest) ==
            Read(if 200 <= code <= 299 then Ok(lines) else Err(Refused(Status(code, TrimStart(u)))), rest)
  {
    hide BlockRead, StatusRead, StatusLine, BlockText;
    var last := StatusLine(code, u) + rest;
    assert BlockText(lines) + StatusLine(code, u) + rest == BlockText(lines) + last;
    BlockReadIs(lines, last);
    StatusReadIs(code, u, rest);
  }

  /** So must the one after the definitions; a 151 with fewer than two words is an
      error of the server's. */
  lemma DefinitionsNeedSuccess(code: nat, u: string, rest: string)
    requires code < 1000 && code != 151 && Lineable(u)
    ensures DefinitionsRead(StatusLine(code, u) + rest) ==
            Read(if 200 <= code <= 299 then Ok([]) else Err(Refused(Status(code, TrimStart(u)))), rest)
    ensures |Params(TrimStart(u))| < 2 ==> DefinitionsRead(StatusLine(151, u) + rest) == Read(Err(MalformedDefinition), rest)
  {
    hide BlockRead, StatusRead, StatusLine, Params;
    StatusReadIs(code, u, rest);
    StatusReadIs(151, u, rest);
  }

  /** A server that closes, or says something that is not a status line. */
  lemma NoStatus(c: Command, line: string, rest: string)
    requires Sendable(CommandLine(c)) && '\n' !in line
    requires |TrimLineEnd(line)| < 3 || exists i :: 0 <= i < 3 && !('0' <= TrimLineEnd(line)[i] <= '9')
    ensures Performed(c, "") == Read(Err(ServerClosed), "")
    ensures Performed(c, line + CRLF + rest) == Read(Err(NotAStatusLine), rest)
  {
    hide Sendable, FirstLine, LineRead, TrimLineEnd, CommandLine;
    LineReadIs(line, rest);
    TrimOwnEnd(line);
    assert LineRead("") == Read(Err(ServerClosed), "") by { EmptyStream(); }
  }

  lemma EmptyStream()
    ensures LineRead("") == Read(Err(ServerClosed), "")
  {
  }

  /** A list line gives the first two of its words, however many there are: a database
      needs one that is not empty, a match needs both. */
  lemma WordsOfLines(words: seq<string>)
    ensures DatabaseOf(JoinQuoted(words)) ==
            if words == [] || words[0] == "" then [] else [Database(words[0], if |words| >= 2 then words[1] else "")]
    ensures MatchOf(JoinQuoted(words)) == if |words| < 2 then [] else [Match(words[0], words[1])]
  {
    hide Params, JoinQuoted;
    QuotingRoundTrip(words);
  }

  /** The limit on a command line is 1022 bytes, and its CRLF. */
  lemma LineLimit(line: string)
    ensures Sendable(line) <==> Utf8Length(line) <= 1022
    ensures (forall i :: 0 <= i < |line| ==> line[i] < '\U{0080}') ==> (Sendable(line) <==> |line| <= 1022)
  {
    if forall i :: 0 <= i < |line| ==> line[i] < '\U{0080}' {
      AsciiLength(line);
    }
  }

  /** What a server sends last need not end in a line end to be read. */
  lemma {:induction false} LastLine(line: string)
    requires line != "" && '\n' !in line
    ensures FirstLine(line) == line && LineRead(line) == Read(Ok(line), "")
  {
    if |line| > 1 {
      LastLine(line[1..]);
    }
    assert line[|line|..] == "";
  }
}
