/** Guppy wire forms (`crates/guppy-protocol/src/packet.rs`): `<header>\r\n[<data>]`.
    A datagram is a sequence of characters, one per payload byte. */
module GuppyPacket {
  import opened Text
  import opened Decimal

  type Bytes = string

  datatype Packet =
    | First(number: nat, mime: string, data: Bytes)
    | Continuation(number: nat, data: Bytes)
    | Prompt(text: string)
    | Redirect(target: string)
    | Failure(message: string)

  /** A whole response: what a handler gives the server, and a client its caller. */
  datatype Response =
    | Success(mime: string, body: Bytes)
    | PromptFor(text: string)
    | RedirectTo(target: string)
    | Refusal(message: string)

  datatype PacketError = NoCrlf | BadSequenceNumber | EmptyMime | BadHeader

  /** Server-to-client packets. */
  function ParsePacket(datagram: Bytes): Result<Packet, PacketError> {
    match FindCrlf(datagram)
    case None => Err(NoCrlf)
    case Some(split) => ParseHeader(datagram[..split], datagram[split + 2..])
  }

  function ParseHeader(header: string, data: Bytes): Result<Packet, PacketError> {
    match SplitOnce(header, ' ')
    case Some((token, rest)) => ParseTokens(token, rest, data)
    case None =>
      match ParseUnsigned(Trim(header), U32_LIMIT)
      case None => Err(BadHeader)
      case Some(number) => Ok(Continuation(number, data))
  }

  /** A header with a space: a special packet's digit, or a success's number and MIME type. */
  function ParseTokens(token: string, rest: string, data: Bytes): Result<Packet, PacketError> {
    if token == "1" then Ok(Prompt(Trim(rest)))
    else if token == "3" then Ok(Redirect(Trim(rest)))
    else if token == "4" then Ok(Failure(Trim(rest)))
    else
      match ParseUnsigned(token, U32_LIMIT)
      case None => Err(BadSequenceNumber)
      case Some(number) =>
        if Trim(rest) == "" then Err(EmptyMime) else Ok(First(number, Trim(rest), data))
  }

  function EncodeFirst(number: nat, mime: string, data: Bytes): Bytes {
    Print(number) + " " + mime + CRLF + data
  }

  function EncodeContinuation(number: nat, data: Bytes): Bytes {
    Print(number) + CRLF + data
  }

  function EncodeAck(number: nat): Bytes {
    Print(number) + CRLF
  }

  datatype ClientDatagram = Ack(number: nat) | Request(line: string)

  /** Client-to-server datagrams: a bare integer line, or else a request line. */
  function ParseClientDatagram(datagram: Bytes): Result<ClientDatagram, PacketError> {
    match FindCrlf(datagram)
    case None => Err(NoCrlf)
    case Some(split) =>
      var line := datagram[..split];
      var number := ParseUnsigned(Trim(line), U32_LIMIT);
      if |datagram| == split + 2 && number.Some? then Ok(Ack(number.value)) else Ok(Request(line))
  }

  // ---------------------------------------------------------------- codec laws

  lemma PrintThenCrlf(number: nat, data: Bytes)
    ensures FindCrlf(Print(number) + CRLF + data) == Some(|Print(number)|)
  {
    PrintIsPlain(number);
    var s := Print(number);
    forall j | 0 <= j < |s| ensures s[j] != '\r' {
      assert s[j] in s;
    }
    FindCrlfAfter(s, data);
  }

  /** Every continuation reads back exactly, whatever its payload holds. */
  lemma ContinuationRoundTrip(number: nat, data: Bytes)
    requires number < 4_294_967_296
    ensures ParsePacket(EncodeContinuation(number, data)) == Ok(Continuation(number, data))
  {
    var s := Print(number);
    var d := EncodeContinuation(number, data);
    PrintThenCrlf(number, data);
    PrintIsPlain(number);
    SplitOnceShape(s, ' ');
    assert d[..|s|] == s && d[|s| + 2..] == data;
    TrimFixesTrimmed(s);
    ParseOfPrint(number, U32_LIMIT);
  }

  /** Where the first packet's header ends within the MIME text the server put
      in it: at its first CRLF, or at its end. */
  function MimeEnd(mime: string): (k: nat)
    ensures k <= |mime|
  {
    CrlfIsFound(mime);
    FindCrlf(mime + CRLF).value
  }

  lemma CrlfIsFound(mime: string)
    ensures FindCrlf(mime + CRLF).Some?
  {
    FindCrlfFirst(mime + CRLF);
    assert IsCrlfAt(mime + CRLF, |mime|);
  }

  lemma MimeEndIsFirst(mime: string)
    ensures IsCrlfAt(mime + CRLF, MimeEnd(mime)) && NoCrlfBefore(mime + CRLF, MimeEnd(mime))
  {
    CrlfIsFound(mime);
    FindCrlfFirst(mime + CRLF);
  }

  /** The MIME type a client reads out of a first packet. */
  function SeenMime(mime: string): string {
    Trim(mime[..MimeEnd(mime)])
  }

  /** The payload a client reads out of a first packet. */
  function SeenData(mime: string, data: Bytes): Bytes {
    (mime + CRLF + data)[MimeEnd(mime) + 2..]
  }

  /** What survives the wire exactly: trimmed, non-empty, and free of CRLF. */
  predicate WellFormedMime(mime: string) {
    mime != "" && IsTrimmed(mime) && FindCrlf(mime).None?
  }

  /** The numbers whose decimal form is one of the special first tokens. */
  predicate IsSpecialToken(number: nat) {
    number == 1 || number == 3 || number == 4
  }

  lemma SpecialTokens(number: nat)
    ensures Print(number) == "1" <==> number == 1
    ensures Print(number) == "3" <==> number == 3
    ensures Print(number) == "4" <==> number == 4
  {
    if Print(number) == "1" { PrintInjective(number, 1); }
    if Print(number) == "3" { PrintInjective(number, 3); }
    if Print(number) == "4" { PrintInjective(number, 4); }
  }

  /** Text without a carriage return in front does not move the first CRLF. */
  lemma CrlfBehind(front: string, m: string, k: nat, data: string)
    requires '\r' !in front
    requires IsCrlfAt(m, k) && NoCrlfBefore(m, k)
    ensures FindCrlf(front + m + data) == Some(|front| + k)
  {
    var d := front + m + data;
    assert d[|front| + k] == m[k] && d[|front| + k + 1] == m[k + 1];
    forall j | 0 <= j < |front| + k ensures !IsCrlfAt(d, j) {
      if j < |front| {
        assert d[j] == front[j];
      } else {
        assert !IsCrlfAt(m, j - |front|);
        assert d[j] == m[j - |front|] && d[j + 1] == m[j - |front| + 1];
      }
    }
    FindCrlfUnique(d, |front| + k);
  }

  lemma FirstHeader(number: nat, mime: string, data: Bytes)
    ensures ParsePacket(EncodeFirst(number, mime, data)) ==
            ParseTokens(Print(number), mime[..MimeEnd(mime)], SeenData(mime, data))
  {
    PrintIsPlain(number);
    TokenHeader(Print(number), mime, data);
    FirstText(Print(number), mime, data);
  }

  lemma FirstText(token: string, mime: string, data: Bytes)
    ensures token + " " + mime + CRLF + data == token + " " + (mime + CRLF) + data
  {
  }

  lemma TokenHeader(token: string, mime: string, data: Bytes)
    requires '\r' !in token && ' ' !in token
    ensures ParsePacket(token + " " + (mime + CRLF) + data) ==
            ParseTokens(token, mime[..MimeEnd(mime)], SeenData(mime, data))
  {
    var k := MimeEnd(mime);
    var m := mime + CRLF;
    MimeEndIsFirst(mime);
    CrlfBehind(token + " ", m, k, data);
    CutBehind(token + " ", m, k, data);
    assert m[..k] == mime[..k];
    PacketCut(token + " " + m + data, |token| + 1 + k, token + " " + mime[..k], SeenData(mime, data));
    HeaderOfTokens(token, mime[..k], SeenData(mime, data));
  }

  lemma PacketCut(d: Bytes, split: nat, header: string, data: Bytes)
    requires FindCrlf(d) == Some(split) && d[..split] == header && d[split + 2..] == data
    ensures ParsePacket(d) == ParseHeader(header, data)
  {
  }

  lemma HeaderOfTokens(token: string, rest: string, data: Bytes)
    requires ' ' !in token
    ensures ParseHeader(token + " " + rest, data) == ParseTokens(token, rest, data)
  {
    SplitOnceUnique(token, rest, ' ');
    assert token + " " + rest == token + [' '] + rest;
  }

  lemma CutBehind(front: string, m: string, k: nat, data: string)
    requires k + 2 <= |m|
    ensures (front + m + data)[..|front| + k] == front + m[..k]
    ensures (front + m + data)[|front| + k + 2..] == (m + data)[k + 2..]
  {
  }

  /** What a client reads out of any first packet at all: exactly one reading,
      and none when the MIME text before the first CRLF is blank. */
  lemma FirstReading(number: nat, mime: string, data: Bytes)
    requires number < U32_LIMIT && !IsSpecialToken(number)
    ensures ParsePacket(EncodeFirst(number, mime, data)) ==
            if SeenMime(mime) == "" then Err(EmptyMime)
            else Ok(First(number, SeenMime(mime), SeenData(mime, data)))
  {
    FirstHeader(number, mime, data);
    SpecialTokens(number);
    ParseOfPrint(number, U32_LIMIT);
  }

  lemma SeenExactly(mime: string, data: Bytes)
    ensures WellFormedMime(mime) ==> SeenMime(mime) == mime && SeenData(mime, data) == data
    ensures SeenMime(mime) == mime && mime != "" ==> WellFormedMime(mime)
  {
    if WellFormedMime(mime) {
      WellFormedIsSeen(mime, data);
    }
    if SeenMime(mime) == mime && mime != "" {
      SeenIsWellFormed(mime);
    }
  }

  lemma WellFormedIsSeen(mime: string, data: Bytes)
    requires WellFormedMime(mime)
    ensures SeenMime(mime) == mime && SeenData(mime, data) == data
  {
    FindCrlfFirst(mime);
    FindCrlfAfter(mime, "");
    assert mime + CRLF + "" == mime + CRLF;
    assert mime[..|mime|] == mime;
    TrimFixesTrimmed(mime);
    assert (mime + CRLF + data)[|mime| + 2..] == data;
  }

  lemma SeenIsWellFormed(mime: string)
    requires SeenMime(mime) == mime && mime != ""
    ensures WellFormedMime(mime)
  {
    var k := MimeEnd(mime);
    TrimStartShape(mime[..k]);
    TrimEndShape(TrimStart(mime[..k]));
    assert k == |mime| && mime[..k] == mime;
    TrimFixesTrimmed(mime);
    MimeEndIsFirst(mime);
    forall j | 0 <= j < |mime| ensures !IsCrlfAt(mime, j) {
      assert !IsCrlfAt(mime + CRLF, j);
      assert (mime + CRLF)[j] == mime[j];
      assert j + 1 < |mime| ==> (mime + CRLF)[j + 1] == mime[j + 1];
    }
    FindCrlfFirst(mime);
  }

  /** The first packet reads back exactly if and only if its MIME type is well
      formed and its number is not a special token. */
  lemma FirstRoundTrip(number: nat, mime: string, data: Bytes)
    requires number < 4_294_967_296
    ensures ParsePacket(EncodeFirst(number, mime, data)) == Ok(First(number, mime, data))
            <==> WellFormedMime(mime) && !IsSpecialToken(number)
  {
    SeenExactly(mime, data);
    if IsSpecialToken(number) {
      FirstHeader(number, mime, data);
      SpecialTokens(number);
    } else {
      FirstReading(number, mime, data);
    }
  }

  /** An acknowledgement reads back as itself. */
  lemma AckRoundTrip(number: nat)
    requires number < 4_294_967_296
    ensures ParseClientDatagram(EncodeAck(number)) == Ok(Ack(number))
  {
    PrintThenCrlf(number, "");
    assert EncodeAck(number) == Print(number) + CRLF + "";
    assert EncodeAck(number)[..|Print(number)|] == Print(number);
    PrintIsPlain(number);
    TrimFixesTrimmed(Print(number));
    ParseOfPrint(number, U32_LIMIT);
  }

  /** No `guppy:` URL line is taken for an acknowledgement. */
  lemma RequestIsNotAck(datagram: Bytes)
    requires StartsWith(datagram, "guppy:")
    ensures match ParseClientDatagram(datagram)
            case Ok(Ack(_)) => false
            case _ => true
  {
    FindCrlfFirst(datagram);
    match FindCrlf(datagram)
    case None =>
    case Some(split) =>
      assert datagram[0] == "guppy:"[0] == 'g';
      assert datagram[split] == '\r';
      GuppyIsNoNumber(datagram[..split]);
  }

  lemma GuppyIsNoNumber(line: string)
    requires line != "" && line[0] == 'g'
    ensures ParseUnsigned(Trim(line), U32_LIMIT).None?
  {
    TrimStartShape(line);
    TrimEndShape(line);
    var t := Trim(line);
    assert t != "" ==> t[0] == 'g' && !IsDigit(t[0]);
  }

  /** The single-packet answers: a one-digit token and one line of text. */
  function EncodePrompt(text: string): Bytes { "1" + " " + text + CRLF }

  function EncodeRedirect(target: string): Bytes { "3" + " " + target + CRLF }

  function EncodeFailure(message: string): Bytes { "4" + " " + message + CRLF }

  predicate IsSpecial(p: Packet) {
    p.Prompt? || p.Redirect? || p.Failure?
  }

  /** Only the literal digit, alone before a space, makes a special packet: 1 a prompt,
      3 a redirect, 4 an error; a number such as 39 does not. */
  lemma SpecialOnlyByDigit(d: Bytes)
    requires ParsePacket(d).Ok? && IsSpecial(ParsePacket(d).value)
    ensures |d| >= 2 && d[1] == ' '
    ensures match ParsePacket(d).value
            case Prompt(_) => d[0] == '1'
            case Redirect(_) => d[0] == '3'
            case Failure(_) => d[0] == '4'
            case _ => false
  {
    var split := FindCrlf(d).value;
    var header := d[..split];
    SplitOnceShape(header, ' ');
    var (token, rest) := SplitOnce(header, ' ').value;
    assert header == token + " " + rest;
    assert |token| == 1 && d[0] == header[0] == token[0] && d[1] == header[1] == ' ';
  }

  /** A special packet is never read as part of a success, whatever its text. */
  lemma SpecialReading(text: string)
    ensures ParsePacket(EncodePrompt(text)) == Ok(Prompt(SeenMime(text)))
    ensures ParsePacket(EncodeRedirect(text)) == Ok(Redirect(SeenMime(text)))
    ensures ParsePacket(EncodeFailure(text)) == Ok(Failure(SeenMime(text)))
  {
    SpecialTokens(1);
    SpecialTokens(3);
    SpecialTokens(4);
    SpecialHeader(1, text);
    SpecialHeader(3, text);
    SpecialHeader(4, text);
  }

  lemma SpecialHeader(number: nat, text: string)
    ensures ParsePacket(Print(number) + " " + text + CRLF) ==
            ParseTokens(Print(number), text[..MimeEnd(text)], SeenData(text, ""))
  {
    FirstHeader(number, text, "");
    assert EncodeFirst(number, text, "") == Print(number) + " " + text + CRLF;
  }

  /** Numbers at and above 2^32 are not sequence numbers. */
  lemma LargeNumbersFail(number: nat, data: Bytes)
    requires number >= 4_294_967_296
    ensures ParsePacket(EncodeContinuation(number, data)) == Err(BadHeader)
    ensures ParseClientDatagram(EncodeAck(number)) == Ok(Request(Print(number)))
  {
    var s := Print(number);
    PrintThenCrlf(number, data);
    PrintThenCrlf(number, "");
    PrintIsPlain(number);
    SplitOnceShape(s, ' ');
    assert EncodeContinuation(number, data)[..|s|] == s;
    assert EncodeAck(number) == s + CRLF + "" && EncodeAck(number)[..|s|] == s;
    TrimFixesTrimmed(s);
    ParseOfPrint(number, U32_LIMIT);
  }

  /** Whitespace about a bare number, other than a blank, is passed over. */
  lemma PaddedNumber(before: string, number: nat, after: string, data: Bytes)
    requires number < 4_294_967_296
    requires forall i :: 0 <= i < |before| ==> IsWhitespace(before[i]) && before[i] != ' ' && before[i] != '\r'
    requires forall i :: 0 <= i < |after| ==> IsWhitespace(after[i]) && after[i] != ' ' && after[i] != '\r'
    ensures ParsePacket(before + Print(number) + after + CRLF + data) == Ok(Continuation(number, data))
    ensures ParseClientDatagram(before + Print(number) + after + CRLF) == Ok(Ack(number))
  {
    var line := before + Print(number) + after;
    PrintIsPlain(number);
    assert ' ' !in line && '\r' !in line;
    assert NoCrlfBefore(line, |line|) by { NoCrWithoutCr(line); }
    FindCrlfAfter(line, data);
    FindCrlfAfter(line, "");
    SplitOnceShape(line, ' ');
    TrimTakesWhitespace(before, Print(number), after);
    ParseOfPrint(number, U32_LIMIT);
    assert (line + CRLF + data)[..|line|] == line && (line + CRLF + data)[|line| + 2..] == data;
    assert line + CRLF + "" == line + CRLF && (line + CRLF)[..|line|] == line;
  }

  lemma NoCrWithoutCr(line: string)
    requires '\r' !in line
    ensures NoCrlfBefore(line, |line|)
  {
    forall j | 0 <= j < |line| ensures line[j] != '\r' {
      assert line[j] in line;
    }
  }
}
