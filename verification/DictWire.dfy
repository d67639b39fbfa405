/** DICT status lines, parameter lists and text blocks
    (`crates/dict-protocol/src/wire.rs`), and the quoting of the client. */
module DictWire {
  import opened Text
  import opened Decimal

  const MAX_LINE: nat := 1024

  const DATABASES_FOLLOW: nat := 110
  const STRATEGIES_FOLLOW: nat := 111
  const DEFINITIONS_FOLLOW: nat := 150
  const DEFINITION_FOLLOWS: nat := 151
  const MATCHES_FOLLOW: nat := 152
  const NO_MATCH: nat := 552
  const NO_DATABASES: nat := 554
  const NO_STRATEGIES: nat := 555

  // ------------------------------------------------------------ line endings

  predicate IsLineEnd(c: char) {
    c == '\r' || c == '\n'
  }

  /** Drops every trailing CR and LF. */
  function TrimLineEnd(s: string): string {
    if s != "" && IsLineEnd(s[|s| - 1]) then TrimLineEnd(s[..|s| - 1]) else s
  }

  /** Text that a line can carry: no LF in it, no CR at its end. */
  predicate Lineable(s: string) {
    '\n' !in s && (s == "" || s[|s| - 1] != '\r')
  }

  lemma {:induction false} TrimLineEndShape(s: string)
    ensures var r := TrimLineEnd(s);
            && |r| <= |s| && r == s[..|r|] && (r != "" ==> !IsLineEnd(r[|r| - 1]))
            && (s != "" && !IsLineEnd(s[|s| - 1]) ==> r == s)
            && forall i :: |r| <= i < |s| ==> IsLineEnd(s[i])
  {
    if s != "" && IsLineEnd(s[|s| - 1]) {
      TrimLineEndShape(s[..|s| - 1]);
    }
  }

  lemma TrimOwnEnd(s: string)
    ensures TrimLineEnd(s + CRLF) == TrimLineEnd(s)
    ensures Lineable(s) ==> TrimLineEnd(s + CRLF) == s
  {
    assert (s + CRLF)[..|s| + 1] == s + "\r";
    assert (s + "\r")[..|s|] == s;
    assert TrimLineEnd(s + CRLF) == TrimLineEnd(s + "\r") == TrimLineEnd(s);
    TrimLineEndShape(s);
  }

  // ------------------------------------------------------------- status lines

  datatype Status = Status(code: nat, text: string)

  predicate IsSuccess(status: Status) {
    200 <= status.code < 300
  }

  function ParseStatus(raw: string): Option<Status> {
    var line := TrimLineEnd(raw);
    if |line| < 3 || !AllDigits(line[..3]) then None
    else
      assert forall i :: 0 <= i < 3 ==> IsDigit(line[..3][i]);
      Some(Status(100 * DigitValue(line[0]) + 10 * DigitValue(line[1]) + DigitValue(line[2]), TrimStart(line[3..])))
  }

  /** A status line as a server writes it. */
  function StatusLine(code: nat, text: string): string
    requires code < 1000
  {
    [DigitOf(code / 100), DigitOf(code / 10 % 10), DigitOf(code % 10)] + " " + text + CRLF
  }

  lemma StatusRoundTrip(code: nat, text: string)
    requires code < 1000 && Lineable(text)
    ensures ParseStatus(StatusLine(code, text)) == Some(Status(code, TrimStart(text)))
  {
    hide DigitOf, DigitValue, AllDigits;
    var digits := [DigitOf(code / 100), DigitOf(code / 10 % 10), DigitOf(code % 10)];
    var line := digits + " " + text;
    TrimOwnEnd(line);
    ThreeDigits(code);
    assert line[..3] == digits;
    assert line[3..] == " " + text;
    assert (" " + text)[1..] == text;
  }

  lemma ThreeDigits(code: nat)
    requires code < 1000
    ensures var a, b, c := DigitOf(code / 100), DigitOf(code / 10 % 10), DigitOf(code % 10);
            AllDigits([a, b, c]) && IsDigit(a) && IsDigit(b) && IsDigit(c)
            && 100 * DigitValue(a) + 10 * DigitValue(b) + DigitValue(c) == code
  {
    hide DigitOf, DigitValue, IsDigit;
    OneDigit(code / 100);
    OneDigit(code / 10 % 10);
    OneDigit(code % 10);
    assert code / 10 / 10 == code / 100;
  }

  lemma OneDigit(d: nat)
    requires d < 10
    ensures IsDigit(DigitOf(d)) && DigitValue(DigitOf(d)) == d
  {
  }

  // -------------------------------------------------------------- dot stuffing

  predicate IsTerminator(raw: string) {
    TrimLineEnd(raw) == "."
  }

  function Stuff(line: string): string {
    if line != "" && line[0] == '.' then "." + line else line
  }

  function Unstuff(line: string): string {
    if |line| >= 2 && line[0] == '.' && line[1] == '.' then line[1..] else line
  }

  /** A line sent stuffed never ends its block, and comes back as itself if and only
      if it has no CR at its end. */
  lemma StuffingRoundTrip(line: string)
    requires '\n' !in line
    ensures var raw := Stuff(line) + CRLF;
            !IsTerminator(raw) && (Unstuff(TrimLineEnd(raw)) == line <==> Lineable(line))
  {
    var stuffed := Stuff(line);
    TrimOwnEnd(stuffed);
    TrimLineEndShape(stuffed);
    var seen := TrimLineEnd(stuffed);
    if line != "" && line[0] == '.' {
      assert stuffed[1] == '.';
      assert |seen| >= 2;
    }
    if Lineable(line) {
      assert seen == stuffed;
    }
  }

  // ------------------------------------------------------------------ parameters

  /** Where the splitter stands after some characters. */
  datatype Splitter = Splitter(params: seq<string>, current: string, inQuotes: bool, escaped: bool, started: bool)

  const FRESH := Splitter([], "", false, false, false)

  function Taken(s: Splitter, ch: char): Splitter {
    if s.escaped then s.(current := s.current + [ch], escaped := false)
    else if ch == '\\' && s.inQuotes then s.(escaped := true)
    else if ch == '"' then s.(inQuotes := !s.inQuotes, started := true)
    else if IsWhitespace(ch) && !s.inQuotes then Flushed(s)
    else s.(current := s.current + [ch])
  }

  /** The end of a parameter, if one has begun. */
  function Flushed(s: Splitter): Splitter {
    if s.started || s.current != "" then s.(params := s.params + [s.current], current := "", started := false) else s
  }

  function TakenAll(s: Splitter, text: string): Splitter
    decreases |text|
  {
    if text == "" then s else TakenAll(Taken(s, text[0]), text[1..])
  }

  function Params(text: string): seq<string> {
    Flushed(TakenAll(FRESH, text)).params
  }

  /** Splits a parameter list, honouring double-quoted strings. */
  method SplitParams(text: string) returns (params: seq<string>)
    ensures params == Params(text)
  {
    params := [];
    var current, inQuotes, escaped, started := "", false, false, false;
    for i := 0 to |text|
      invariant TakenAll(FRESH, text) == TakenAll(Splitter(params, current, inQuotes, escaped, started), text[i..])
    {
      assert text[i..][0] == text[i] && text[i..][1..] == text[i + 1..];
      var ch := text[i];
      if escaped {
        current := current + [ch];
        escaped := false;
      } else if ch == '\\' && inQuotes {
        escaped := true;
      } else if ch == '"' {
        inQuotes := !inQuotes;
        started := true;
      } else if IsWhitespace(ch) && !inQuotes {
        if started || current != "" {
          params := params + [current];
          current := "";
          started := false;
        }
      } else {
        current := current + [ch];
      }
    }
    assert text[|text|..] == "";
    if started || current != "" {
      params := params + [current];
    }
  }

  // --------------------------------------------------------------------- quoting

  /** `str::replace` of one character by a string. */
  function Replaced(s: string, c: char, with: string): string {
    if s == "" then "" else (if s[0] == c then with else [s[0]]) + Replaced(s[1..], c, with)
  }

  predicate NeedsQuotes(param: string) {
    param == "" || exists i :: 0 <= i < |param| && (IsWhitespace(param[i]) || param[i] == '"')
  }

  /** Quotes a parameter if it needs it. */
  function Quote(param: string): (q: string)
    ensures q != ""
  {
    if NeedsQuotes(param) then "\"" + Replaced(Replaced(param, '\\', "\\\\"), '"', "\\\"") + "\"" else param
  }

  function JoinQuoted(params: seq<string>): string {
    if params == [] then "" else if |params| == 1 then Quote(params[0]) else Quote(params[0]) + " " + JoinQuoted(params[1..])
  }

  /** Inside quotes: backslashes and quotes carry a backslash in front. */
  function Escaped(s: string): string {
    if s == "" then ""
    else (if s[0] == '\\' || s[0] == '"' then ['\\', s[0]] else [s[0]]) + Escaped(s[1..])
  }

  lemma {:induction false} ReplacedIsEscaped(s: string)
    ensures Replaced(Replaced(s, '\\', "\\\\"), '"', "\\\"") == Escaped(s)
  {
    if s != "" {
      ReplacedIsEscaped(s[1..]);
      var rest := Replaced(s[1..], '\\', "\\\\");
      var head := if s[0] == '\\' then "\\\\" else [s[0]];
      ReplacedParts(head, rest, '"', "\\\"");
      HeadEscapes(s[0], head);
    }
  }

  lemma HeadEscapes(c: char, head: string)
    requires head == if c == '\\' then "\\\\" else [c]
    ensures Replaced(head, '"', "\\\"") == if c == '\\' || c == '"' then ['\\', c] else [c]
  {
    if c == '\\' {
      assert head == "\\" + "\\";
      ReplacedParts("\\", "\\", '"', "\\\"");
      ReplacedOne('\\', '"', "\\\"");
    } else {
      ReplacedOne(c, '"', "\\\"");
    }
  }

  lemma ReplacedOne(x: char, c: char, with: string)
    ensures Replaced([x], c, with) == if x == c then with else [x]
  {
    assert [x][1..] == "";
  }

  lemma {:induction false} ReplacedParts(a: string, b: string, c: char, with: string)
    ensures Replaced(a + b, c, with) == Replaced(a, c, with) + Replaced(b, c, with)
  {
    if a == "" {
      assert a + b == b;
    } else {
      ReplacedParts(a[1..], b, c, with);
      var head := if a[0] == c then with else [a[0]];
      var rest, last := Replaced(a[1..], c, with), Replaced(b, c, with);
      assert (a + b)[1..] == a[1..] + b;
      assert Replaced(a + b, c, with) == head + (rest + last) == head + rest + last;
    }
  }

  lemma {:induction false} TakenParts(s: Splitter, a: string, b: string)
    ensures TakenAll(s, a + b) == TakenAll(TakenAll(s, a), b)
    decreases |a|
  {
    if a == "" {
      assert a + b == b;
    } else {
      TakenParts(Taken(s, a[0]), a[1..], b);
      assert (a + b)[1..] == a[1..] + b;
    }
  }

  lemma {:induction false} TakesPlain(s: Splitter, text: string)
    requires !s.inQuotes && !s.escaped
    requires forall i :: 0 <= i < |text| ==> !IsWhitespace(text[i]) && text[i] != '"'
    ensures TakenAll(s, text) == s.(current := s.current + text)
    decreases |text|
  {
    if text != "" {
      TakesPlain(Taken(s, text[0]), text[1..]);
      assert s.current + [text[0]] + text[1..] == s.current + text;
    } else {
      assert s.current + text == s.current;
    }
  }

  lemma {:induction false} TakesEscaped(s: Splitter, text: string)
    requires s.inQuotes && !s.escaped
    ensures TakenAll(s, Escaped(text)) == s.(current := s.current + text)
    decreases |text|
  {
    if text != "" {
      var s' := s.(current := s.current + [text[0]]);
      TakesEscaped(s', text[1..]);
      assert s.current + [text[0]] + text[1..] == s.current + text;
      var head := if text[0] == '\\' || text[0] == '"' then ['\\', text[0]] else [text[0]];
      TakenParts(s, head, Escaped(text[1..]));
      TakesHead(s, text[0]);
    } else {
      assert s.current + text == s.current;
    }
  }

  lemma TakesHead(s: Splitter, c: char)
    requires s.inQuotes && !s.escaped
    ensures TakenAll(s, if c == '\\' || c == '"' then ['\\', c] else [c]) == s.(current := s.current + [c])
  {
    if c == '\\' || c == '"' {
      assert ['\\', c] == ['\\'] + [c];
      TakenParts(s, ['\\'], [c]);
      TakesOne(s, '\\');
      TakesOne(s.(escaped := true), c);
    } else {
      TakesOne(s, c);
    }
  }

  /** Between parameters, a quoted one is taken whole and only needs its end. */
  lemma TakesQuoted(done: seq<string>, param: string)
    ensures var s := TakenAll(FRESH.(params := done), Quote(param));
            && s.params == done && s.current == param && !s.inQuotes && !s.escaped
            && (s.started || s.current != "")
  {
    var s := FRESH.(params := done);
    if NeedsQuotes(param) {
      ReplacedIsEscaped(param);
      var body := Escaped(param);
      assert Quote(param) == "\"" + (body + "\"");
      TakenParts(s, "\"", body + "\"");
      TakesOne(s, '"');
      var inside := Taken(s, '"');
      TakenParts(inside, body, "\"");
      TakesEscaped(inside, param);
      TakesOne(inside.(current := inside.current + param), '"');
    } else {
      TakesPlain(s, param);
    }
  }

  lemma TakesOne(s: Splitter, c: char)
    ensures TakenAll(s, [c]) == Taken(s, c)
  {
    assert [c][1..] == "";
  }

  /** Whatever strings are quoted and joined, splitting gives them back: empty ones,
      and ones with whitespace, quotes or backslashes, included. */
  lemma {:induction false} QuotingRoundTripFrom(done: seq<string>, params: seq<string>)
    ensures Flushed(TakenAll(FRESH.(params := done), JoinQuoted(params))).params == done + params
    decreases |params|
  {
    if params != [] {
      var s := FRESH.(params := done);
      TakesQuoted(done, params[0]);
      assert done + params == done + [params[0]] + params[1..];
      if |params| > 1 {
        var rest := JoinQuoted(params[1..]);
        assert JoinQuoted(params) == Quote(params[0]) + (" " + rest);
        TakenParts(s, Quote(params[0]), " " + rest);
        TakenParts(TakenAll(s, Quote(params[0])), " ", rest);
        TakesOne(TakenAll(s, Quote(params[0])), ' ');
        QuotingRoundTripFrom(done + [params[0]], params[1..]);
      }
    }
  }

  lemma QuotingRoundTrip(params: seq<string>)
    ensures Params(JoinQuoted(params)) == params
  {
    QuotingRoundTripFrom([], params);
    assert [] + params == params;
  }

  /** Only a doubled first period is undone; a single one stays. */
  lemma SinglePeriodStays(line: string)
    requires line == "" || line[0] != '.'
    ensures Unstuff("." + line) == "." + line && Unstuff(line) == line && Unstuff(".." + line) == "." + line
  {
    assert (".." + line)[1..] == "." + line;
  }

  /** Inside quotes a backslash makes any character at all stand for itself; outside
      them it is a character like others. */
  lemma BackslashExactly(c: char)
    ensures Params(['"', '\\', c, '"']) == [[c]]
    ensures !IsWhitespace(c) && c != '"' ==> Params(['\\', c]) == [['\\', c]]
  {
    hide TakenAll;
    var open := Taken(FRESH, '"');
    TakenParts(FRESH, ['"'], ['\\', c, '"']);
    TakesOne(FRESH, '"');
    TakenParts(open, ['\\'], [c, '"']);
    TakesOne(open, '\\');
    TakenParts(open.(escaped := true), [c], ['"']);
    TakesOne(open.(escaped := true), c);
    TakesOne(open.(current := [c]), '"');
    assert ['"'] + ['\\', c, '"'] == ['"', '\\', c, '"'] && ['\\'] + [c, '"'] == ['\\', c, '"'] && [c] + ['"'] == [c, '"'];
    assert "" + [c] == [c];
    if !IsWhitespace(c) && c != '"' {
      TakesPlain(FRESH, ['\\', c]);
      assert "" + ['\\', c] == ['\\', c];
    }
  }

  /** Quoted and bare pieces with nothing between them are one parameter. */
  lemma PiecesJoin(a: string, b: string)
    requires forall i :: 0 <= i < |a| ==> !IsWhitespace(a[i]) && a[i] != '"'
    ensures Params(a + "\"" + Escaped(b) + "\"") == [a + b]
  {
    var text := Escaped(b) + "\"";
    assert a + "\"" + Escaped(b) + "\"" == a + ("\"" + text);
    TakenParts(FRESH, a, "\"" + text);
    TakesPlain(FRESH, a);
    assert "" + a == a;
    var s := FRESH.(current := a);
    TakenParts(s, "\"", text);
    TakesOne(s, '"');
    var inside := Taken(s, '"');
    TakenParts(inside, Escaped(b), "\"");
    TakesEscaped(inside, b);
    TakesOne(inside.(current := a + b), '"');
  }
}
