/** Scorpion requests (`crates/scorpion-protocol/src/request.rs`): a subprotocol
    letter, its parameter, a space and an absolute URL. Lines are characters; their
    UTF-8 form is the identity here. */
module ScorpionRequest {
  import opened Text
  import opened Decimal

  datatype Subprotocol = Receive | Send | Interactive | Meta

  type U64 = x: nat | x < 0x1_0000_0000_0000_0000

  datatype Range = Range(start: U64, end: Option<U64>)

  datatype Parameter =
    | NoParameter
    | ByteRange(range: Range)
    | Version(version: string)
    | Hmac(hmac: string, version: string)
    | Capabilities(codes: string)
    | DesiredType(kind: string)

  datatype RequestError = Malformed | UnknownSubprotocol | MalformedRange | RelativeUrl

  datatype Request = Request(subprotocol: Subprotocol, parameter: Parameter, url: string)

  function Letter(s: Subprotocol): char {
    match s
    case Receive => 'R'
    case Send => 'S'
    case Interactive => 'I'
    case Meta => 'M'
  }

  function SubprotocolOf(c: char): Option<Subprotocol> {
    if c == 'R' then Some(Receive)
    else if c == 'S' then Some(Send)
    else if c == 'I' then Some(Interactive)
    else if c == 'M' then Some(Meta)
    else None
  }

  function ParseU64(s: string): Option<U64> {
    match ParseUnsigned(s, U64_LIMIT)
    case None => None
    case Some(n) => Some(n)
  }

  /** `start-end`, or `start-` for everything from `start` on. */
  function ParseRange(text: string): Option<Range> {
    match SplitOnce(text, '-')
    case None => None
    case Some((from, to)) =>
      var start := ParseU64(from);
      if start.None? then None
      else if to == "" then Some(Range(start.value, None))
      else
        var end := ParseU64(to);
        if end.None? then None else Some(Range(start.value, end))
  }

  function RenderRange(r: Range): string {
    Print(r.start) + "-" + if r.end.Some? then Print(r.end.value) else ""
  }

  function Render(p: Parameter): string {
    match p
    case NoParameter => ""
    case ByteRange(range) => RenderRange(range)
    case Version(version) => version
    case Hmac(hmac, version) => hmac + "@" + version
    case Capabilities(codes) => codes
    case DesiredType(kind) => kind
  }

  function ParseParameter(s: Subprotocol, text: string): Result<Parameter, RequestError> {
    if text == "" then Ok(NoParameter)
    else
      match s
      case Receive => if ParseRange(text).None? then Err(MalformedRange) else Ok(ByteRange(ParseRange(text).value))
      case Send =>
        (match SplitOnce(text, '@')
         case Some((hmac, version)) => Ok(Hmac(hmac, version))
         case None => Ok(Version(text)))
      case Interactive => Ok(Capabilities(text))
      case Meta => Ok(DesiredType(text))
  }

  predicate IsAlphabetic(c: char) {
    'a' <= c <= 'z' || 'A' <= c <= 'Z'
  }

  predicate IsSchemeChar(c: char) {
    IsAlphabetic(c) || IsDigit(c) || c == '+' || c == '-' || c == '.'
  }

  /** A scheme before the first colon, by section 3.1 of RFC 3986. */
  predicate HasScheme(url: string) {
    match SplitOnce(url, ':')
    case None => false
    case Some((scheme, _)) => scheme != "" && IsAlphabetic(scheme[0]) && forall i :: 0 < i < |scheme| ==> IsSchemeChar(scheme[i])
  }

  function StripFragment(url: string): string {
    match SplitOnce(url, '#')
    case None => url
    case Some((head, _)) => head
  }

  function StripLineEnd(line: string): string {
    if |line| >= 2 && line[|line| - 2..] == CRLF then line[..|line| - 2]
    else if line != "" && line[|line| - 1] == '\n' then line[..|line| - 1]
    else line
  }

  function Parse(raw: string): Result<Request, RequestError> {
    var line := StripLineEnd(raw);
    if line == "" then Err(Malformed)
    else
      var subprotocol := SubprotocolOf(line[0]);
      if subprotocol.None? then Err(UnknownSubprotocol)
      else
        match SplitOnce(line[1..], ' ')
        case None => Err(Malformed)
        case Some((text, url)) =>
          if url == "" then Err(Malformed)
          else if !HasScheme(url) then Err(RelativeUrl)
          else
            match ParseParameter(subprotocol.value, text)
            case Err(e) => Err(e)
            case Ok(parameter) => Ok(Request(subprotocol.value, parameter, url))
  }

  function ToWire(r: Request): string {
    [Letter(r.subprotocol)] + Render(r.parameter) + " " + StripFragment(r.url) + CRLF
  }

  // --------------------------------------------------------------- normal form

  function WithoutFragment(r: Request): Request {
    r.(url := StripFragment(r.url))
  }

  /** The parameters a subprotocol can be given, written the one way that reads back. */
  predicate ParameterFits(s: Subprotocol, p: Parameter) {
    match p
    case NoParameter => true
    case ByteRange(_) => s.Receive?
    case Version(version) => s.Send? && version != "" && ' ' !in version && '@' !in version
    case Hmac(hmac, version) => s.Send? && '@' !in hmac && ' ' !in hmac && ' ' !in version
    case Capabilities(codes) => s.Interactive? && codes != "" && ' ' !in codes
    case DesiredType(kind) => s.Meta? && kind != "" && ' ' !in kind
  }

  lemma RangeRoundTrip(r: Range)
    ensures ParseRange(RenderRange(r)) == Some(r) && ' ' !in RenderRange(r) && RenderRange(r) != ""
  {
    hide Print, ParseUnsigned;
    PrintIsPlain(r.start);
    ParseOfPrint(r.start, U64_LIMIT);
    var to := if r.end.Some? then Print(r.end.value) else "";
    SplitOnceUnique(Print(r.start), to, '-');
    if r.end.Some? {
      PrintIsPlain(r.end.value);
      ParseOfPrint(r.end.value, U64_LIMIT);
    }
  }

  /** A parameter reads back under its subprotocol, with no space in it, if and only
      if it fits. */
  lemma ParameterRoundTrip(s: Subprotocol, p: Parameter)
    ensures ParameterFits(s, p) <==> ParseParameter(s, Render(p)) == Ok(p) && ' ' !in Render(p)
  {
    hide RenderRange, ParseRange;
    match p
    case ByteRange(range) => RangeRoundTrip(range);
    case Hmac(hmac, version) =>
      if '@' !in hmac {
        SplitOnceUnique(hmac, version, '@');
      }
      SplitOnceShape(Render(p), '@');
    case Version(version) => SplitOnceShape(version, '@');
    case _ =>
  }

  lemma ParsedFits(s: Subprotocol, text: string)
    requires ' ' !in text && ParseParameter(s, text).Ok?
    ensures ParameterFits(s, ParseParameter(s, text).value)
  {
    SplitOnceShape(text, '@');
  }

  /** Dropping the fragment never drops the scheme, nor makes one. */
  lemma SchemeSurvives(url: string)
    ensures HasScheme(StripFragment(url)) <==> HasScheme(url)
  {
    hide HasScheme;
    SplitOnceShape(url, '#');
    if SplitOnce(url, '#').Some? {
      var (head, fragment) := SplitOnce(url, '#').value;
      if ':' in head {
        ColonBeforeFragment(url, head, fragment);
      } else {
        ColonPastFragment(url, head, fragment);
      }
    }
  }

  lemma ColonBeforeFragment(url: string, head: string, fragment: string)
    requires url == head + "#" + fragment && ':' in head
    ensures HasScheme(url) <==> HasScheme(head)
  {
    SplitOnceShape(head, ':');
    var (scheme, rest) := SplitOnce(head, ':').value;
    assert url == scheme + ":" + (rest + "#" + fragment);
    SplitOnceUnique(scheme, rest + "#" + fragment, ':');
  }

  lemma ColonPastFragment(url: string, head: string, fragment: string)
    requires url == head + "#" + fragment && ':' !in head
    ensures !HasScheme(url) && !HasScheme(head)
  {
    SplitOnceShape(head, ':');
    SplitOnceShape(url, ':');
    if SplitOnce(url, ':').Some? {
      var (scheme, rest) := SplitOnce(url, ':').value;
      assert url[|scheme|] == ':' && url[|head|] == '#';
      assert forall i :: 0 <= i < |head| ==> url[i] == head[i];
      assert |scheme| > |head|;
      assert scheme[|head|] == '#';
    }
  }

  lemma FragmentGone(url: string)
    ensures StripFragment(StripFragment(url)) == StripFragment(url)
  {
    SplitOnceShape(url, '#');
    SplitOnceShape(StripFragment(url), '#');
  }

  lemma ParsesTo(s: Subprotocol, text: string, url: string)
    requires ' ' !in text
    ensures Parse([Letter(s)] + text + " " + url + CRLF) ==
            if url == "" then Err(Malformed)
            else if !HasScheme(url) then Err(RelativeUrl)
            else match ParseParameter(s, text)
                 case Err(e) => Err(e)
                 case Ok(parameter) => Ok(Request(s, parameter, url))
  {
    hide HasScheme, ParseParameter;
    var line := [Letter(s)] + text + " " + url;
    assert (line + CRLF)[..|line|] == line && (line + CRLF)[|line|..] == CRLF;
    assert StripLineEnd(line + CRLF) == line;
    assert line[1..] == text + " " + url;
    SplitOnceUnique(text, url, ' ');
  }

  /** Any request at all survives the wire, but for its fragment, if and only if its
      parameter fits its subprotocol and its URL has a scheme. */
  lemma WireRoundTrip(r: Request)
    ensures Parse(ToWire(r)) == Ok(WithoutFragment(r)) <==> ParameterFits(r.subprotocol, r.parameter) && HasScheme(r.url)
  {
    hide Parse, ParameterFits, ParseParameter, Render, HasScheme;
    ParameterRoundTrip(r.subprotocol, r.parameter);
    SchemeSurvives(r.url);
    if Parse(ToWire(r)) == Ok(WithoutFragment(r)) {
      ParsedIsWellFormed(ToWire(r));
    }
    if ' ' !in Render(r.parameter) {
      ParsesTo(r.subprotocol, Render(r.parameter), StripFragment(r.url));
      SchemeIsNotEmpty(StripFragment(r.url));
    }
  }

  lemma SchemeIsNotEmpty(url: string)
    ensures HasScheme(url) ==> url != ""
  {
  }

  lemma ParsedIsWellFormed(line: string)
    requires Parse(line).Ok?
    ensures var r := Parse(line).value;
            ParameterFits(r.subprotocol, r.parameter) && HasScheme(r.url)
  {
    hide ParameterFits, HasScheme, ParseParameter;
    var rest := StripLineEnd(line)[1..];
    SplitOnceShape(rest, ' ');
    ParsedFits(SubprotocolOf(StripLineEnd(line)[0]).value, SplitOnce(rest, ' ').value.0);
  }

  /** Whatever line is accepted, printing what was read and reading it again loses the
      fragment and nothing else, and printing is then stable. */
  lemma RequestNormalForm(line: string)
    requires Parse(line).Ok?
    ensures var r := Parse(line).value;
            && Parse(ToWire(r)) == Ok(WithoutFragment(r))
            && ToWire(WithoutFragment(r)) == ToWire(r)
            && HasScheme(StripFragment(r.url))
  {
    hide Parse, HasScheme, ParameterFits, Render;
    var r := Parse(line).value;
    ParsedIsWellFormed(line);
    WireRoundTrip(r);
    FragmentGone(r.url);
    SchemeSurvives(r.url);
  }

  // ------------------------------------------------------ what is accepted, in full

  /** A scheme by section 3.1 of RFC 3986, its characters written out. */
  predicate IsScheme(s: string) {
    && s != "" && ('a' <= s[0] <= 'z' || 'A' <= s[0] <= 'Z')
    && forall i :: 1 <= i < |s| ==>
         'a' <= s[i] <= 'z' || 'A' <= s[i] <= 'Z' || '0' <= s[i] <= '9' || s[i] == '+' || s[i] == '-' || s[i] == '.'
  }

  /** A URL has a scheme if and only if what stands before its first colon is one. */
  lemma SchemeExactly(scheme: string, rest: string)
    requires ':' !in scheme
    ensures HasScheme(scheme + ":" + rest) <==> IsScheme(scheme)
    ensures !HasScheme(scheme)
  {
    SplitOnceUnique(scheme, rest, ':');
    SplitOnceShape(scheme, ':');
  }

  lemma SchemeMeansColon(url: string)
    requires HasScheme(url)
    ensures exists scheme, rest :: url == scheme + ":" + rest && ':' !in scheme && IsScheme(scheme)
  {
    SplitOnceShape(url, ':');
    var (scheme, rest) := SplitOnce(url, ':').value;
    SchemeExactly(scheme, rest);
    assert url == scheme + ":" + rest;
  }

  /** The letter that opens a request of each kind. */
  predicate Opens(c: char, s: Subprotocol) {
    match s
    case Receive => c == 'R'
    case Send => c == 'S'
    case Interactive => c == 'I'
    case Meta => c == 'M'
  }

  /** How a line may end; one character of its own would join with the ending. */
  predicate EndsBy(url: string, end: string) {
    || end == "\r\n"
    || (end == "\n" && (url == "" || url[|url| - 1] != '\r'))
    || (end == "" && (url == "" || url[|url| - 1] != '\n'))
  }

  lemma EndIsStripped(front: string, url: string, end: string)
    requires EndsBy(url, end) && front != "" && front[|front| - 1] == ' '
    ensures StripLineEnd(front + url + end) == front + url
  {
    var line := front + url;
    assert line[|line| - 1] == if url == "" then ' ' else url[|url| - 1];
    if end == "\r\n" {
      assert (line + end)[..|line|] == line && (line + end)[|line|..] == CRLF;
    } else if end == "\n" {
      assert (line + end)[|line| - 1] == line[|line| - 1];
      assert (line + end)[..|line|] == line;
    } else {
      assert line + end == line;
    }
  }

  /** Every line of a letter, a fitting parameter, a space and a URL with a scheme, ended
      in any of the three ways, is accepted as exactly that request. */
  lemma LineIsAccepted(c: char, s: Subprotocol, p: Parameter, scheme: string, rest: string, end: string)
    requires Opens(c, s) && ParameterFits(s, p) && ':' !in scheme && IsScheme(scheme)
    requires EndsBy(scheme + ":" + rest, end)
    ensures Parse([c] + Render(p) + " " + (scheme + ":" + rest) + end) == Ok(Request(s, p, scheme + ":" + rest))
  {
    hide HasScheme, ParseParameter, ParameterFits, Render, IsScheme, StripLineEnd, Parse;
    ParameterRoundTrip(s, p);
    SchemeExactly(scheme, rest);
    LineIsParsed(c, s, Render(p), scheme + ":" + rest, end);
  }

  /** What is made of a line with a known letter and a space, in any of its endings. */
  lemma LineIsParsed(c: char, s: Subprotocol, text: string, url: string, end: string)
    requires Opens(c, s) && ' ' !in text && EndsBy(url, end)
    ensures Parse([c] + text + " " + url + end) ==
            if url == "" then Err(Malformed)
            else if !HasScheme(url) then Err(RelativeUrl)
            else match ParseParameter(s, text)
                 case Err(e) => Err(e)
                 case Ok(parameter) => Ok(Request(s, parameter, url))
  {
    hide HasScheme, ParseParameter, StripLineEnd;
    var front := [c] + text + " ";
    EndIsStripped(front, url, end);
    assert (front + url)[1..] == text + " " + url;
    SplitOnceUnique(text, url, ' ');
    assert SubprotocolOf(c) == Some(s);
  }

  /** Lines refused before their URL is looked at. */
  lemma LineIsRefused(line: string)
    requires line == StripLineEnd(line)
    ensures line == "" ==> Parse(line) == Err(Malformed)
    ensures line != "" && line[0] != 'R' && line[0] != 'S' && line[0] != 'I' && line[0] != 'M' ==>
              Parse(line) == Err(UnknownSubprotocol)
    ensures line != "" && line[0] in {'R', 'S', 'I', 'M'} && ' ' !in line[1..] ==> Parse(line) == Err(Malformed)
  {
    if line != "" { SplitOnceShape(line[1..], ' '); }
  }

  /** A range is decimal numbers about the first hyphen, the second one optional;
      anything else after an R is refused as a range. */
  lemma RangeExactly(text: string)
    requires text != ""
    ensures ParseParameter(Receive, text).Ok? <==>
            exists from, to :: text == from + "-" + to && '-' !in from
                               && ParseU64(from).Some? && (to == "" || ParseU64(to).Some?)
    ensures ParseParameter(Receive, text).Err? ==> ParseParameter(Receive, text) == Err(MalformedRange)
  {
    hide ParseU64;
    SplitOnceShape(text, '-');
    if exists from, to :: text == from + "-" + to && '-' !in from && ParseU64(from).Some? && (to == "" || ParseU64(to).Some?) {
      var from, to :| text == from + "-" + to && '-' !in from && ParseU64(from).Some? && (to == "" || ParseU64(to).Some?);
      SplitOnceUnique(from, to, '-');
    }
    if SplitOnce(text, '-').Some? {
      var (from, to) := SplitOnce(text, '-').value;
      assert text == from + "-" + to;
    }
  }

  /** The fragment is what follows the first #, and goes with it. */
  lemma FragmentExactly(head: string, fragment: string)
    requires '#' !in head
    ensures StripFragment(head + "#" + fragment) == head && StripFragment(head) == head
  {
    SplitOnceUnique(head, fragment, '#');
    SplitOnceShape(head, '#');
  }

  /** A request's line, character by character: nothing of a fragment is in it. */
  lemma LineOnTheWire(c: char, s: Subprotocol, p: Parameter, head: string, fragment: string)
    requires Opens(c, s) && '#' !in head
    ensures ToWire(Request(s, p, head)) == [c] + Render(p) + " " + head + "\r\n"
    ensures ToWire(Request(s, p, head + "#" + fragment)) == [c] + Render(p) + " " + head + "\r\n"
  {
    hide Render;
    FragmentExactly(head, fragment);
  }

  /** How each parameter is written. */
  lemma ParametersWritten(start: U64, end: U64, a: string, b: string)
    ensures Render(NoParameter) == ""
    ensures Render(ByteRange(Range(start, Some(end)))) == Print(start) + "-" + Print(end)
    ensures Render(ByteRange(Range(start, None))) == Print(start) + "-"
    ensures Render(Hmac(a, b)) == a + "@" + b
    ensures Render(Version(a)) == a && Render(Capabilities(a)) == a && Render(DesiredType(a)) == a
  {
  }
}
