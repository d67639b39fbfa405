/** An FSP session (`crates/fsp-protocol/src/client.rs`): stop and wait, with the
    server's last key echoed and a 16-bit sequence number matched.

    The socket is a script: what each attempt at each request sees. A network that
    loses, delays, repeats and reorders is every script at once. */
module FspClient {
  import opened Text
  import opened Decimal
  import opened Octets
  import opened FspWire

  const BUFFER: nat := HEADER_LEN + MAX_PAYLOAD * 2

  datatype Event = Datagram(bytes: Blob) | ReceiveFailed

  /** One send, and what is received before its timeout. */
  datatype Attempt = SendFailed | Listening(events: seq<Event>)

  datatype ClientError = TimedOut | Io | Refused(message: Blob)

  /** The bookkeeping of a session. */
  datatype Book = Book(key: U16, serial: U16, attempts: nat)

  function NextSerial(serial: U16): U16 {
    (serial + 1) % U16_LIMIT
  }

  function NulTerminated(path: Blob): Blob {
    path + [0]
  }

  function TrimNul(b: Blob): Blob {
    if b != [] && b[|b| - 1] == 0 then TrimNul(b[..|b| - 1]) else b
  }

  /** What the receive buffer holds of a datagram. */
  function Received(bytes: Blob): Blob {
    if |bytes| <= BUFFER then bytes else bytes[..BUFFER]
  }

  // ------------------------------------------------------------- one exchange

  /** The packet a datagram is, when it echoes the sequence number. */
  function Matching(bytes: Blob, serial: U16): Option<Packet> {
    match Decode(Received(bytes), ServerToClient)
    case Ok(p) => if p.header.serial == serial then Some(p) else None
    case Err(_) => None
  }

  /** The first matching reply; `None` when the timeout comes first. */
  function Awaited(events: seq<Event>, serial: U16): Result<Option<Packet>, ClientError> {
    if events == [] then Ok(None)
    else
      match events[0]
      case ReceiveFailed => Err(Io)
      case Datagram(bytes) =>
        if Matching(bytes, serial).Some? then Ok(Matching(bytes, serial)) else Awaited(events[1..], serial)
  }

  function AttemptAt(script: seq<Attempt>, k: nat): Attempt {
    if k < |script| then script[k] else Listening([])
  }

  /** The reply drawn by attempts `k` and on. */
  function Replied(script: seq<Attempt>, attempts: nat, serial: U16, k: nat): Result<Packet, ClientError>
    requires k <= attempts
    decreases attempts - k
  {
    if k == attempts then Err(TimedOut)
    else
      match AttemptAt(script, k)
      case SendFailed => Err(Io)
      case Listening(events) =>
        match Awaited(events, serial)
        case Err(e) => Err(e)
        case Ok(Some(p)) => Ok(p)
        case Ok(None) => Replied(script, attempts, serial, k + 1)
  }

  function Outgoing(book: Book, command: Octet, data: Blob, position: U32): Packet {
    Packet(Header(command, book.key, NextSerial(book.serial), |data| % U16_LIMIT, position), data, [])
  }

  /** A request's reply, unless the server refuses it, and the books afterwards. */
  function Requested(book: Book, script: seq<Attempt>): (Result<Packet, ClientError>, Book) {
    var serial := NextSerial(book.serial);
    match Replied(script, book.attempts, serial, 0)
    case Err(e) => (Err(e), book.(serial := serial))
    case Ok(reply) =>
      (if reply.header.command == ERR then Err(Refused(TrimNul(reply.data))) else Ok(reply),
       book.(serial := serial, key := reply.header.key))
  }

  // ----------------------------------------------------------------- get_file

  /** One logical request and its accepted reply. */
  datatype Exchange = Exchange(request: Packet, reply: Option<Packet>)

  function ScriptAt(scripts: seq<seq<Attempt>>, i: nat): seq<Attempt> {
    if i < |scripts| then scripts[i] else []
  }

  function AcceptedReply(reply: Result<Packet, ClientError>): Option<Packet> {
    if reply.Ok? then Some(reply.value) else None
  }

  function FilePosition(body: Blob): U32 {
    |body| % U32_LIMIT
  }

  /** The rest of a file transfer once `body` has been fetched. */
  function Fetched(book: Book, path: Blob, scripts: seq<seq<Attempt>>, body: Blob):
    (Result<Blob, ClientError>, Book, seq<Exchange>)
    decreases |scripts|
  {
    var request := Outgoing(book, GET_FILE, NulTerminated(path), FilePosition(body));
    var (reply, after) := Requested(book, ScriptAt(scripts, 0));
    var log := [Exchange(request, AcceptedReply(reply))];
    if reply.Err? then (Err(reply.error), after, log)
    else
      var block := reply.value.data;
      if block == [] then (Ok(body), after, log)
      else if |block| < MAX_PAYLOAD then (Ok(body + block), after, log)
      else
        SilenceTimesOut(book);
        After(log, Fetched(after, path, scripts[1..], body + block))
  }

  /** A transfer's outcome with the exchanges before it put in front. */
  function After<R, B>(log: seq<Exchange>, rest: (R, B, seq<Exchange>)): (R, B, seq<Exchange>) {
    (rest.0, rest.1, log + rest.2)
  }

  lemma AfterNothing<R, B>(rest: (R, B, seq<Exchange>))
    ensures After([], rest) == rest
  {
    assert [] + rest.2 == rest.2;
  }

  lemma AfterAppend<R, B>(log: seq<Exchange>, e: Exchange, rest: (R, B, seq<Exchange>))
    ensures After(log, After([e], rest)) == After(log + [e], rest)
  {
    assert log + ([e] + rest.2) == log + [e] + rest.2;
  }

  lemma {:induction false} NoReply(attempts: nat, serial: U16, k: nat)
    requires k <= attempts
    ensures Replied([], attempts, serial, k) == Err(TimedOut)
    decreases attempts - k
  {
    if k < attempts { NoReply(attempts, serial, k + 1); }
  }

  lemma SilenceTimesOut(book: Book)
    ensures Requested(book, []).0 == Err(TimedOut)
  {
    NoReply(book.attempts, NextSerial(book.serial), 0);
  }

  class Session {
    var key: U16
    var serial: U16
    var attempts: nat

    function Books(): Book
      reads this
    {
      Book(key, serial, attempts)
    }

    constructor ()
      ensures Books() == Book(0, 1, 3)
    {
      key, serial, attempts := 0, 1, 3;
    }

    /** Reads until a reply with the expected sequence number, or the timeout. */
    method AwaitReply(expected: U16, events: seq<Event>) returns (reply: Result<Option<Packet>, ClientError>)
      ensures reply == Awaited(events, expected)
    {
      hide Decode;
      for i := 0 to |events|
        invariant Awaited(events, expected) == Awaited(events[i..], expected)
      {
        assert events[i..][1..] == events[i + 1..];
        match events[i] {
          case ReceiveFailed =>
            return Err(Io);
          case Datagram(bytes) =>
            var packet := Decode(Received(bytes), ServerToClient);
            if packet.Ok? && packet.value.header.serial == expected {
              return Ok(Some(packet.value));
            }
        }
      }
      return Ok(None);
    }

    /** Sends a command, again and again, and waits for the reply that echoes it. */
    method Request(command: Octet, data: Blob, position: U32, script: seq<Attempt>)
      returns (result: Result<Packet, ClientError>, outgoing: Packet)
      modifies this
      ensures outgoing == Outgoing(old(Books()), command, data, position)
      ensures (result, Books()) == Requested(old(Books()), script)
    {
      hide Awaited;
      ghost var before := Books();
      serial := NextSerial(serial);
      outgoing := Packet(Header(command, key, serial, |data| % U16_LIMIT, position), data, []);
      for attempt := 0 to attempts
        invariant Books() == before.(serial := NextSerial(before.serial))
        invariant Replied(script, attempts, serial, 0) == Replied(script, attempts, serial, attempt)
      {
        match AttemptAt(script, attempt) {
          case SendFailed =>
            return Err(Io), outgoing;
          case Listening(events) =>
            var reply := AwaitReply(serial, events);
            match reply {
              case Err(e) =>
                return Err(e), outgoing;
              case Ok(Some(p)) =>
                key := p.header.key;
                if p.header.command == ERR {
                  return Err(Refused(TrimNul(p.data))), outgoing;
                }
                return Ok(p), outgoing;
              case Ok(None) =>
            }
        }
      }
      return Err(TimedOut), outgoing;
    }

    /** Fetches a whole file, block by block. */
    method GetFile(path: Blob, scripts: seq<seq<Attempt>>) returns (result: Result<Blob, ClientError>, log: seq<Exchange>)
      modifies this
      ensures (result, Books(), log) == Fetched(old(Books()), path, scripts, [])
    {
      hide Requested, Replied, Outgoing;
      ghost var whole := Fetched(Books(), path, scripts, []);
      var body := [];
      log := [];
      var turn := 0;
      assert scripts[0..] == scripts;
      AfterNothing(whole);
      while true
        invariant turn <= |scripts|
        invariant whole == After(log, Fetched(Books(), path, scripts[turn..], body))
        decreases |scripts| - turn
      {
        ghost var rest := scripts[turn..];
        SilenceTimesOut(Books());
        var reply, request := Request(GET_FILE, NulTerminated(path), FilePosition(body), ScriptAt(scripts, turn));
        assert ScriptAt(rest, 0) == ScriptAt(scripts, turn);
        ghost var before := log;
        log := log + [Exchange(request, AcceptedReply(reply))];
        if reply.Err? {
          return Err(reply.error), log;
        }
        var block := reply.value.data;
        if block == [] {
          return Ok(body), log;
        }
        body := body + block;
        if |block| < MAX_PAYLOAD {
          return Ok(body), log;
        }
        assert turn < |scripts|;
        assert rest[1..] == scripts[turn + 1..];
        AfterAppend(before, Exchange(request, Some(reply.value)), Fetched(Books(), path, scripts[turn + 1..], body));
        turn := turn + 1;
      }
    }
  }

  // -------------------------------------------------- the network and the server

  /** What the server sends for a request at `position`. */
  function BlockAt(file: Blob, position: nat): Blob {
    if position >= |file| then []
    else if position + MAX_PAYLOAD <= |file| then file[position..position + MAX_PAYLOAD]
    else file[position..]
  }

  /** A reply echoes its request's number; to a request for the file it is a refusal
      or the block asked for. */
  predicate Answers(request: Packet, reply: Packet, path: Blob, file: Blob) {
    && reply.header.serial == request.header.serial
    && (request.header.command == 0x42 && request.data == path + [0] ==>
          reply.header.command == 0x40 || reply.data == BlockAt(file, request.header.filePosition))
  }

  /** A datagram the client can make sense of answers one of the session's requests,
      none of them 65536 or more requests old. */
  predicate HonestDatagram(all: seq<Packet>, n: nat, bytes: Blob, path: Blob, file: Blob) {
    var d := Decode(Received(bytes), ServerToClient);
    d.Ok? ==> exists r :: 0 <= r < |all| && r <= n < r + U16_LIMIT && Answers(all[r], d.value, path, file)
  }

  predicate HonestEvents(all: seq<Packet>, n: nat, events: seq<Event>, path: Blob, file: Blob) {
    forall e :: e in events && e.Datagram? ==> HonestDatagram(all, n, e.bytes, path, file)
  }

  /** Everything that arrives while request `n` is waited for. */
  predicate HonestScript(all: seq<Packet>, n: nat, script: seq<Attempt>, path: Blob, file: Blob) {
    forall a :: a in script && a.Listening? ==> HonestEvents(all, n, a.events, path, file)
  }

  /** The sequence numbers of a session's requests, from its first. */
  predicate Numbered(all: seq<Packet>) {
    forall r :: 0 <= r < |all| ==> all[r].header.serial == (2 + r) % U16_LIMIT
  }

  function Requests(log: seq<Exchange>): seq<Packet> {
    seq(|log|, i requires 0 <= i < |log| => log[i].request)
  }

  lemma {:induction false} AwaitedIsHonest(events: seq<Event>, serial: U16, all: seq<Packet>, n: nat, path: Blob, file: Blob)
    requires HonestEvents(all, n, events, path, file)
    requires Awaited(events, serial).Ok? && Awaited(events, serial).value.Some?
    ensures var p := Awaited(events, serial).value.value;
            && p.header.serial == serial
            && exists r :: 0 <= r < |all| && r <= n < r + U16_LIMIT && Answers(all[r], p, path, file)
  {
    hide Decode;
    var bytes := events[0].bytes;
    assert events[0] in events;
    if Matching(bytes, serial).None? {
      AwaitedIsHonest(events[1..], serial, all, n, path, file);
    }
  }

  lemma {:induction false} RepliedIsHonest(script: seq<Attempt>, attempts: nat, serial: U16, k: nat,
                                           all: seq<Packet>, n: nat, path: Blob, file: Blob)
    requires k <= attempts && HonestScript(all, n, script, path, file)
    requires Replied(script, attempts, serial, k).Ok?
    ensures var p := Replied(script, attempts, serial, k).value;
            && p.header.serial == serial
            && exists r :: 0 <= r < |all| && r <= n < r + U16_LIMIT && Answers(all[r], p, path, file)
    decreases attempts - k
  {
    hide Awaited, Answers;
    var events := AttemptAt(script, k).events;
    var reply := Awaited(events, serial);
    if reply.value.Some? {
      AwaitedIsHonest(events, serial, all, n, path, file);
    } else {
      RepliedIsHonest(script, attempts, serial, k + 1, all, n, path, file);
    }
  }

  /** The reply accepted for a request is an answer to that very request. */
  lemma AcceptedAnswers(script: seq<Attempt>, attempts: nat, all: seq<Packet>, n: nat, path: Blob, file: Blob)
    requires Numbered(all) && n < |all| && HonestScript(all, n, script, path, file)
    requires Replied(script, attempts, all[n].header.serial, 0).Ok?
    ensures Answers(all[n], Replied(script, attempts, all[n].header.serial, 0).value, path, file)
  {
    hide Replied, HonestScript;
    RepliedIsHonest(script, attempts, all[n].header.serial, 0, all, n, path, file);
    var p := Replied(script, attempts, all[n].header.serial, 0).value;
    var r :| 0 <= r < |all| && r <= n < r + U16_LIMIT && Answers(all[r], p, path, file);
    SameSerial(r, n);
  }

  lemma SameSerial(r: nat, n: nat)
    requires r <= n < r + U16_LIMIT && (2 + r) % U16_LIMIT == (2 + n) % U16_LIMIT
    ensures r == n
  {
  }

  /** The limit on a reply's age is exact: one that is 65536 requests old carries the
      awaited number again, and is taken for the answer. */
  lemma WrappedReplyIsTaken(all: seq<Packet>, r: nat, bytes: Blob)
    requires Numbered(all) && r + U16_LIMIT < |all|
    requires var d := Decode(Received(bytes), ServerToClient);
             d.Ok? && d.value.header.serial == all[r].header.serial
    ensures Matching(bytes, all[r + U16_LIMIT].header.serial).Some?
    ensures Awaited([Datagram(bytes)], all[r + U16_LIMIT].header.serial) == Ok(Matching(bytes, all[r + U16_LIMIT].header.serial))
  {
    hide Decode;
    assert (2 + (r + U16_LIMIT)) % U16_LIMIT == (2 + r) % U16_LIMIT;
  }

  // ---------------------------------------------------------------- whole files

  /** One turn of a transfer: the request is the next in the session, and a block
      accepted is the one asked for. */
  lemma TurnFetchesBlock(book: Book, script: seq<Attempt>, body: Blob, all: seq<Packet>, n: nat, path: Blob, file: Blob)
    requires Numbered(all) && n < |all| && HonestScript(all, n, script, path, file)
    requires book.serial == (1 + n) % U16_LIMIT
    requires all[n] == Outgoing(book, GET_FILE, NulTerminated(path), FilePosition(body))
    ensures var (reply, after) := Requested(book, script);
            && after.serial == (2 + n) % U16_LIMIT
            && (reply.Ok? ==> reply.value.data == BlockAt(file, FilePosition(body)))
  {
    hide Replied, HonestScript;
    if Requested(book, script).0.Ok? {
      AcceptedAnswers(script, book.attempts, all, n, path, file);
    }
  }

  /** The rest of a session, as the requests of a transfer from request `n` on. */
  predicate HonestRun(all: seq<Packet>, n: nat, log: seq<Exchange>, scripts: seq<seq<Attempt>>, path: Blob, file: Blob) {
    && Numbered(all) && |all| == n + |log|
    && (forall t :: 0 <= t < |log| ==> all[n + t] == log[t].request)
    && forall t :: 0 <= t < |log| ==> HonestScript(all, n + t, ScriptAt(scripts, t), path, file)
  }

  lemma RunGoesOn(all: seq<Packet>, n: nat, log: seq<Exchange>, scripts: seq<seq<Attempt>>, path: Blob, file: Blob)
    requires HonestRun(all, n, log, scripts, path, file) && |log| >= 1 && |scripts| >= 1
    ensures HonestRun(all, n + 1, log[1..], scripts[1..], path, file)
  {
    hide Answers, HonestScript;
    forall t | 0 <= t < |log| - 1 ensures HonestScript(all, n + 1 + t, ScriptAt(scripts[1..], t), path, file) {
      assert HonestScript(all, n + (t + 1), ScriptAt(scripts, t + 1), path, file);
    }
  }

  lemma RunHead(all: seq<Packet>, n: nat, log: seq<Exchange>, scripts: seq<seq<Attempt>>, path: Blob, file: Blob)
    requires HonestRun(all, n, log, scripts, path, file) && |log| >= 1
    ensures Numbered(all) && n < |all| && all[n] == log[0].request
    ensures HonestScript(all, n, ScriptAt(scripts, 0), path, file)
  {
    hide Answers, HonestScript;
    assert all[n + 0] == log[0].request;
    assert HonestScript(all, n + 0, ScriptAt(scripts, 0), path, file);
  }

  /** What one unfolding of a transfer shows. */
  lemma FirstTurn(book: Book, path: Blob, scripts: seq<seq<Attempt>>, body: Blob)
    ensures var (result, last, log) := Fetched(book, path, scripts, body);
            var (reply, after) := Requested(book, ScriptAt(scripts, 0));
            && |log| >= 1
            && log[0] == Exchange(Outgoing(book, GET_FILE, NulTerminated(path), FilePosition(body)), AcceptedReply(reply))
            && (if reply.Err? then result == Err(reply.error) && |log| == 1
                else if |reply.value.data| < MAX_PAYLOAD then result == Ok(body + reply.value.data) && |log| == 1
                else |scripts| >= 1 && Fetched(after, path, scripts[1..], body + reply.value.data) == (result, last, log[1..]))
  {
    hide Requested, Outgoing;
    SilenceTimesOut(book);
    var (reply, after) := Requested(book, ScriptAt(scripts, 0));
    if reply.Ok? {
      var block := reply.value.data;
      assert block == [] ==> body + block == body;
      if |block| >= MAX_PAYLOAD {
        var rest := Fetched(after, path, scripts[1..], body + block);
        assert ([Fetched(book, path, scripts, body).2[0]] + rest.2)[1..] == rest.2;
      }
    }
  }

  /** A transfer that ends well has the whole file, in as many requests as it takes. */
  lemma {:induction false} FetchedIsFile(book: Book, path: Blob, scripts: seq<seq<Attempt>>, i: nat, body: Blob,
                                         file: Blob, all: seq<Packet>, n: nat)
    requires |file| < U32_LIMIT && 1024 * i <= |file| && body == file[..1024 * i]
    requires book.serial == (1 + n) % U16_LIMIT
    requires var (result, _, log) := Fetched(book, path, scripts, body);
             result.Ok? && HonestRun(all, n, log, scripts, path, file)
    ensures var (result, _, log) := Fetched(book, path, scripts, body);
            result.value == file && |log| == |file| / 1024 + 1 - i
    decreases |scripts|
  {
    hide Fetched, Requested, Outgoing, HonestRun, HonestScript;
    var (result, _, log) := Fetched(book, path, scripts, body);
    FirstTurn(book, path, scripts, body);
    RunHead(all, n, log, scripts, path, file);
    TurnFetchesBlock(book, ScriptAt(scripts, 0), body, all, n, path, file);
    var (reply, after) := Requested(book, ScriptAt(scripts, 0));
    var block := reply.value.data;
    assert file[..1024 * i] + block == file[..1024 * i + |block|];
    if |block| == MAX_PAYLOAD {
      RunGoesOn(all, n, log, scripts, path, file);
      FetchedIsFile(after, path, scripts[1..], i + 1, body + block, file, all, n + 1);
    } else {
      assert file[..1024 * i + |block|] == file;
    }
  }

  lemma HugeBlockIsFull(file: Blob, body: Blob)
    requires |file| >= U32_LIMIT && |body| % 1024 == 0
    ensures |BlockAt(file, FilePosition(body))| == MAX_PAYLOAD
  {
  }

  /** Past 32 bits the offset wraps round, and no transfer ends well. */
  lemma {:induction false} HugeFileNeverEnds(book: Book, path: Blob, scripts: seq<seq<Attempt>>, body: Blob,
                                             file: Blob, all: seq<Packet>, n: nat)
    requires |file| >= U32_LIMIT && |body| % 1024 == 0
    requires book.serial == (1 + n) % U16_LIMIT
    requires HonestRun(all, n, Fetched(book, path, scripts, body).2, scripts, path, file)
    ensures Fetched(book, path, scripts, body).0.Err?
    decreases |scripts|
  {
    hide Fetched, Requested, Outgoing, HonestRun, HonestScript, BlockAt, FilePosition;
    var (result, _, log) := Fetched(book, path, scripts, body);
    FirstTurn(book, path, scripts, body);
    RunHead(all, n, log, scripts, path, file);
    TurnFetchesBlock(book, ScriptAt(scripts, 0), body, all, n, path, file);
    var (reply, after) := Requested(book, ScriptAt(scripts, 0));
    if reply.Ok? {
      HugeBlockIsFull(file, body);
      RunGoesOn(all, n, log, scripts, path, file);
      HugeFileNeverEnds(after, path, scripts[1..], body + reply.value.data, file, all, n + 1);
    }
  }

  /** A session `past` requests old, its numbers in step. */
  predicate InStep(book: Book, past: seq<Packet>) {
    Numbered(past) && book.serial == (1 + |past|) % U16_LIMIT
  }

  lemma {:induction false} LogIsNumbered(book: Book, path: Blob, scripts: seq<seq<Attempt>>, body: Blob, past: seq<Packet>)
    requires InStep(book, past)
    ensures var (_, last, log) := Fetched(book, path, scripts, body);
            InStep(last, past + Requests(log))
    decreases |scripts|
  {
    hide Replied;
    var (result, last, log) := Fetched(book, path, scripts, body);
    FirstTurn(book, path, scripts, body);
    var (reply, after) := Requested(book, ScriptAt(scripts, 0));
    var more := past + [log[0].request];
    SerialStep(|past|);
    assert InStep(after, more);
    if reply.Ok? && |reply.value.data| >= MAX_PAYLOAD {
      LogIsNumbered(after, path, scripts[1..], body + reply.value.data, more);
      assert past + Requests(log) == more + Requests(log[1..]);
    } else {
      assert past + Requests(log) == more;
    }
  }

  lemma SerialStep(n: nat)
    ensures ((1 + n) % U16_LIMIT + 1) % U16_LIMIT == (2 + n) % U16_LIMIT
  {
  }

  /** Whatever the network loses, repeats or reorders, short of keeping a reply for
      65536 requests: a file that `get_file` returns is the server's file, whole, in
      one request per full block and one more. The file is then under 4 GiB. */
  lemma FileTransfer(book: Book, path: Blob, scripts: seq<seq<Attempt>>, file: Blob, past: seq<Packet>)
    requires InStep(book, past)
    requires var (result, _, log) := Fetched(book, path, scripts, []);
             result.Ok?
             && forall t :: 0 <= t < |log| ==>
                  HonestScript(past + Requests(log), |past| + t, ScriptAt(scripts, t), path, file)
    ensures var (result, last, log) := Fetched(book, path, scripts, []);
            && result.value == file && |file| < U32_LIMIT && |log| == |file| / 1024 + 1
            && InStep(last, past + Requests(log))
  {
    hide Fetched, HonestScript, Numbered;
    var (result, last, log) := Fetched(book, path, scripts, []);
    LogIsNumbered(book, path, scripts, [], past);
    var all := past + Requests(log);
    assert HonestRun(all, |past|, log, scripts, path, file);
    if |file| >= U32_LIMIT {
      HugeFileNeverEnds(book, path, scripts, [], file, all, |past|);
    } else {
      FetchedIsFile(book, path, scripts, 0, [], file, all, |past|);
    }
  }

  /** The first request carries the key given, every later one the key of the reply
      accepted just before it. */
  predicate KeysChain(key: U16, log: seq<Exchange>)
    decreases |log|
  {
    log != [] ==>
      && log[0].request.header.key == key
      && (|log| > 1 ==> log[0].reply.Some? && KeysChain(log[0].reply.value.header.key, log[1..]))
  }

  lemma {:induction false} EveryRequestCarriesTheLastKey(book: Book, path: Blob, scripts: seq<seq<Attempt>>, body: Blob)
    ensures var (result, last, log) := Fetched(book, path, scripts, body);
            && log != [] && KeysChain(book.key, log)
            && last.key == KeyAfter(log[|log| - 1].request, ScriptAt(scripts, |log| - 1), book.attempts)
    decreases |scripts|
  {
    hide Replied;
    FirstTurn(book, path, scripts, body);
    var (result, last, log) := Fetched(book, path, scripts, body);
    var (reply, after) := Requested(book, ScriptAt(scripts, 0));
    if reply.Ok? && |reply.value.data| >= MAX_PAYLOAD {
      EveryRequestCarriesTheLastKey(after, path, scripts[1..], body + reply.value.data);
    }
  }

  /** The key a session holds after a request: its reply's, a refusal's included, or
      without a reply the one the request carried. */
  function KeyAfter(request: Packet, script: seq<Attempt>, attempts: nat): U16 {
    match Replied(script, attempts, request.header.serial, 0)
    case Ok(reply) => reply.header.key
    case Err(_) => request.header.key
  }

  /** A transfer ends well exactly when every one of its requests was answered and
      none refused. */
  lemma {:induction false} EndsWellWhenAnswered(book: Book, path: Blob, scripts: seq<seq<Attempt>>, body: Blob)
    ensures var (result, _, log) := Fetched(book, path, scripts, body);
            result.Ok? <==> forall e :: e in log ==> e.reply.Some?
    decreases |scripts|
  {
    hide Requested, Outgoing;
    FirstTurn(book, path, scripts, body);
    var (result, _, log) := Fetched(book, path, scripts, body);
    var (reply, after) := Requested(book, ScriptAt(scripts, 0));
    if reply.Ok? && |reply.value.data| >= MAX_PAYLOAD {
      EndsWellWhenAnswered(after, path, scripts[1..], body + reply.value.data);
      assert log == [log[0]] + log[1..];
    } else {
      assert log == [log[0]];
    }
  }

  /** Nothing fails locally, and within the attempts allowed a matching reply arrives. */
  predicate Arrives(script: seq<Attempt>, attempts: nat, serial: U16) {
    && (forall a :: a in script ==> a.Listening? && ReceiveFailed !in a.events)
    && exists k :: 0 <= k < |script| && k < attempts && HasMatch(script[k].events, serial)
  }

  predicate HasMatch(events: seq<Event>, serial: U16) {
    exists e :: e in events && e.Datagram? && Matching(e.bytes, serial).Some?
  }

  lemma {:induction false} MatchIsAwaited(events: seq<Event>, serial: U16)
    requires ReceiveFailed !in events
    ensures var reply := Awaited(events, serial);
            reply.Ok? && (reply.value.Some? <==> HasMatch(events, serial))
  {
    hide Matching;
    if events != [] {
      MatchIsAwaited(events[1..], serial);
      assert events == [events[0]] + events[1..];
      assert events[0].Datagram?;
    }
  }

  lemma {:induction false} ArrivalIsReplied(script: seq<Attempt>, attempts: nat, serial: U16, k: nat, hit: nat)
    requires forall a :: a in script ==> a.Listening? && ReceiveFailed !in a.events
    requires k <= hit < attempts && hit < |script| && HasMatch(script[hit].events, serial)
    ensures Replied(script, attempts, serial, k).Ok?
    decreases hit - k
  {
    hide HasMatch, Awaited;
    assert script[k] in script;
    MatchIsAwaited(script[k].events, serial);
    if k < hit {
      ArrivalIsReplied(script, attempts, serial, k + 1, hit);
    }
  }

  /** A lossy network that lets one matching, unrefusing reply through within the
      attempts of a request does not stop it. */
  lemma RetriesSurviveLoss(book: Book, script: seq<Attempt>)
    requires Arrives(script, book.attempts, NextSerial(book.serial))
    ensures Replied(script, book.attempts, NextSerial(book.serial), 0).Ok?
    ensures var (reply, after) := Requested(book, script);
            reply.Ok? || (reply.error.Refused? && after.key == Replied(script, book.attempts, after.serial, 0).value.header.key)
  {
    hide Replied, HasMatch;
    var k :| 0 <= k < |script| && k < book.attempts && HasMatch(script[k].events, NextSerial(book.serial));
    ArrivalIsReplied(script, book.attempts, NextSerial(book.serial), 0, k);
  }

  /** A script that brings an answer, and no refusal among what it brings. */
  predicate Answerable(script: seq<Attempt>, attempts: nat, serial: U16) {
    && Arrives(script, attempts, serial)
    && forall a :: a in script && a.Listening? ==> Unrefusing(a.events)
  }

  predicate Unrefusing(events: seq<Event>) {
    forall e :: e in events && e.Datagram? ==>
      var d := Decode(Received(e.bytes), ServerToClient);
      d.Ok? ==> d.value.header.command != 0x40
  }

  lemma {:induction false} AwaitedIsUnrefused(events: seq<Event>, serial: U16)
    requires Unrefusing(events) && Awaited(events, serial).Ok? && Awaited(events, serial).value.Some?
    ensures Awaited(events, serial).value.value.header.command != ERR
  {
    hide Decode;
    assert events[0] in events;
    if Matching(events[0].bytes, serial).None? {
      AwaitedIsUnrefused(events[1..], serial);
    }
  }

  lemma {:induction false} RepliedIsUnrefused(script: seq<Attempt>, attempts: nat, serial: U16, k: nat)
    requires k <= attempts && Replied(script, attempts, serial, k).Ok?
    requires forall a :: a in script && a.Listening? ==> Unrefusing(a.events)
    ensures Replied(script, attempts, serial, k).value.header.command != ERR
    decreases attempts - k
  {
    hide Awaited, Unrefusing;
    var a := AttemptAt(script, k);
    assert Unrefusing(a.events) by { SilenceRefusesNothing(); }
    if Awaited(a.events, serial).value.Some? {
      AwaitedIsUnrefused(a.events, serial);
    } else {
      RepliedIsUnrefused(script, attempts, serial, k + 1);
    }
  }

  lemma SilenceRefusesNothing()
    ensures Unrefusing([])
  {
  }

  lemma AnswerableIsAnswered(book: Book, script: seq<Attempt>)
    requires Answerable(script, book.attempts, NextSerial(book.serial))
    ensures Requested(book, script).0.Ok? && Requested(book, script).1.attempts == book.attempts
  {
    hide Replied, Arrives, Unrefusing;
    RetriesSurviveLoss(book, script);
    RepliedIsUnrefused(script, book.attempts, NextSerial(book.serial), 0);
  }

  lemma {:induction false} FetchedCompletes(book: Book, path: Blob, scripts: seq<seq<Attempt>>, i: nat, body: Blob,
                                            file: Blob, all: seq<Packet>, n: nat)
    requires |file| < U32_LIMIT && 1024 * i <= |file| && body == file[..1024 * i]
    requires book.serial == (1 + n) % U16_LIMIT
    requires HonestRun(all, n, Fetched(book, path, scripts, body).2, scripts, path, file)
    requires |scripts| >= |file| / 1024 + 1 - i
    requires forall t :: 0 <= t < |scripts| ==> Answerable(scripts[t], book.attempts, (2 + n + t) % U16_LIMIT)
    ensures Fetched(book, path, scripts, body).0 == Ok(file)
    decreases |scripts|
  {
    hide Fetched, Requested, Outgoing, HonestRun, HonestScript, Answerable;
    var (result, _, log) := Fetched(book, path, scripts, body);
    FirstTurn(book, path, scripts, body);
    RunHead(all, n, log, scripts, path, file);
    SerialStep(n);
    assert Answerable(scripts[0], book.attempts, (2 + n + 0) % U16_LIMIT);
    AnswerableIsAnswered(book, scripts[0]);
    TurnFetchesBlock(book, ScriptAt(scripts, 0), body, all, n, path, file);
    var (reply, after) := Requested(book, ScriptAt(scripts, 0));
    var block := reply.value.data;
    assert file[..1024 * i] + block == file[..1024 * i + |block|];
    if |block| == MAX_PAYLOAD {
      RunGoesOn(all, n, log, scripts, path, file);
      forall t | 0 <= t < |scripts| - 1 ensures Answerable(scripts[1..][t], after.attempts, (2 + (n + 1) + t) % U16_LIMIT) {
        assert Answerable(scripts[t + 1], book.attempts, (2 + n + (t + 1)) % U16_LIMIT);
      }
      FetchedCompletes(after, path, scripts[1..], i + 1, body + block, file, all, n + 1);
    } else {
      assert file[..1024 * i + |block|] == file;
    }
  }

  /** The transfer succeeds: where every request, within its attempts, has one answer
      come through and none refused, the whole file is returned. */
  lemma FileTransferCompletes(book: Book, path: Blob, scripts: seq<seq<Attempt>>, file: Blob, past: seq<Packet>)
    requires InStep(book, past) && |file| < U32_LIMIT && |scripts| > |file| / 1024
    requires forall t :: 0 <= t < |scripts| ==> Answerable(scripts[t], book.attempts, (2 + |past| + t) % U16_LIMIT)
    requires var log := Fetched(book, path, scripts, []).2;
             forall t :: 0 <= t < |log| ==> HonestScript(past + Requests(log), |past| + t, ScriptAt(scripts, t), path, file)
    ensures Fetched(book, path, scripts, []).0 == Ok(file)
  {
    hide Fetched, HonestScript, Numbered, Answerable;
    var log := Fetched(book, path, scripts, []).2;
    LogIsNumbered(book, path, scripts, [], past);
    var all := past + Requests(log);
    assert HonestRun(all, |past|, log, scripts, path, file);
    FetchedCompletes(book, path, scripts, 0, [], file, all, |past|);
  }
}
