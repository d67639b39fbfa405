/** FSP replies as servers send them, octet by octet: what a session makes of one, and
    of a network that carries nothing else. */
module FspReplies {
  import opened Text
  import opened Octets
  import opened FspWire
  import opened FspClient

  /** A reply that tells its data's length, and fits a client's buffer. */
  predicate Sendable(reply: Packet) {
    reply.header.dataLength == |reply.data| && |reply.data| + |reply.extra| <= 2048
  }

  /** An undamaged reply of up to 2048 octets of payload is taken for the request it
      echoes, first thing, and by no other. */
  lemma EncodedReplyIsTaken(reply: Packet, serial: U16)
    requires Sendable(reply)
    ensures Received(Encode(reply, ServerToClient)) == Encode(reply, ServerToClient)
    ensures Decode(Received(Encode(reply, ServerToClient)), ServerToClient) == Ok(reply)
    ensures Matching(Encode(reply, ServerToClient), serial) == if reply.header.serial == serial then Some(reply) else None
    ensures Awaited([Datagram(Encode(reply, ServerToClient))], serial) ==
            Ok(if reply.header.serial == serial then Some(reply) else None)
  {
    hide Encode, Decode;
    PacketRoundTrip(reply, ServerToClient);
    assert [Datagram(Encode(reply, ServerToClient))][1..] == [];
  }

  /** Every octet of a request for a block of a file. */
  lemma RequestOnTheWire(book: Book, path: Blob, position: U32)
    ensures var p := Outgoing(book, GET_FILE, NulTerminated(path), position);
            var b := Encode(p, ClientToServer);
            && b[0] == 0x42 && b[12..] == path + [0]
            && p.header.key == book.key && p.header.serial == (book.serial + 1) % 0x1_0000
            && p.header.dataLength == (|path| + 1) % 0x1_0000 && p.header.filePosition == position
            && b[1] == ChecksumOf(b, ClientToServer)
  {
    hide Encode, ChecksumOf;
    var p := Outgoing(book, GET_FILE, NulTerminated(path), position);
    WireLayout(p, ClientToServer);
    EncodedChecksum(p, ClientToServer);
    assert p.data + p.extra == path + [0];
  }

  /** Different paths, and different blocks, make different requests. */
  lemma RequestsDiffer(book: Book, path: Blob, other: Blob, position: U32, elsewhere: U32)
    ensures Encode(Outgoing(book, GET_FILE, NulTerminated(path), position), ClientToServer)
            == Encode(Outgoing(book, GET_FILE, NulTerminated(other), elsewhere), ClientToServer)
            <==> path == other && position == elsewhere
  {
    hide Encode, Decode;
    var p, q := Outgoing(book, GET_FILE, NulTerminated(path), position), Outgoing(book, GET_FILE, NulTerminated(other), elsewhere);
    DecodeOfEncode(p, ClientToServer);
    DecodeOfEncode(q, ClientToServer);
    WireLayout(p, ClientToServer);
    WireLayout(q, ClientToServer);
    if Encode(p, ClientToServer) == Encode(q, ClientToServer) {
      assert p.data + p.extra == path + [0] && q.data + q.extra == other + [0];
      assert path == (path + [0])[..|path|] && other == (other + [0])[..|other|];
      SameHeader(p, q);
    }
  }

  lemma SameHeader(p: Packet, q: Packet)
    requires Encode(p, ClientToServer) == Encode(q, ClientToServer)
    ensures p.header == q.header
  {
    hide Laid;
    HeaderOfLaid(p, ChecksumOf(Laid(p, 0), ClientToServer));
    HeaderOfLaid(q, ChecksumOf(Laid(q, 0), ClientToServer));
  }

  lemma {:induction false} TrimNulShape(text: Blob, nuls: Blob)
    requires text == [] || text[|text| - 1] != 0
    requires forall i :: 0 <= i < |nuls| ==> nuls[i] == 0
    ensures TrimNul(text + nuls) == text
  {
    if nuls != [] {
      assert (text + nuls)[..|text + nuls| - 1] == text + nuls[..|nuls| - 1];
      TrimNulShape(text, nuls[..|nuls| - 1]);
    } else {
      assert text + nuls == text;
    }
  }

  /** A reply of type 0x40 refuses the request, with its data less the NULs at its end
      for a message, and its key is kept; any other reply is the result. */
  lemma ReplyIsResult(book: Book, reply: Packet, rest: seq<Attempt>, text: Blob, nuls: Blob)
    requires Sendable(reply) && reply.header.serial == (book.serial + 1) % 0x1_0000 && book.attempts >= 1
    requires reply.data == text + nuls && (text == [] || text[|text| - 1] != 0)
    requires forall i :: 0 <= i < |nuls| ==> nuls[i] == 0
    ensures Requested(book, [Listening([Datagram(Encode(reply, ServerToClient))])] + rest) ==
            (if reply.header.command == 0x40 then Err(Refused(text)) else Ok(reply),
             Book(reply.header.key, reply.header.serial, book.attempts))
  {
    hide Encode, TrimNul, Matching;
    EncodedReplyIsTaken(reply, reply.header.serial);
    TrimNulShape(text, nuls);
    var script := [Listening([Datagram(Encode(reply, ServerToClient))])] + rest;
    assert AttemptAt(script, 0) == Listening([Datagram(Encode(reply, ServerToClient))]);
  }

  /** A datagram that is an undamaged answer to one of the session's requests, none of
      them 65536 or more requests old, and no refusal. */
  ghost predicate Served(all: seq<Packet>, n: nat, bytes: Blob, path: Blob, file: Blob) {
    exists r: nat, reply: Packet :: IsAnswer(all, n, r, reply, bytes, path, file)
  }

  predicate IsAnswer(all: seq<Packet>, n: nat, r: nat, reply: Packet, bytes: Blob, path: Blob, file: Blob) {
    && r < |all| && r <= n < r + 0x1_0000
    && Sendable(reply) && bytes == Encode(reply, ServerToClient)
    && reply.header.serial == all[r].header.serial && reply.header.command != 0x40
    && (all[r].header.command == 0x42 && all[r].data == path + [0] ==> reply.data == BlockAt(file, all[r].header.filePosition))
  }

  /** A request's attempts on a network that only loses, delays, repeats and reorders. */
  ghost predicate ServedScript(all: seq<Packet>, n: nat, script: seq<Attempt>, path: Blob, file: Blob) {
    forall a :: a in script ==>
      a.Listening? && forall e :: e in a.events ==> e.Datagram? && Served(all, n, e.bytes, path, file)
  }

  /** An answer to this very request gets through within the attempts. */
  ghost predicate GetsThrough(script: seq<Attempt>, attempts: nat, serial: U16) {
    exists k, reply :: 0 <= k < |script| && k < attempts && script[k].Listening? && Sendable(reply)
                       && reply.header.serial == serial && Datagram(Encode(reply, ServerToClient)) in script[k].events
  }

  lemma ServedIsHonest(all: seq<Packet>, n: nat, bytes: Blob, path: Blob, file: Blob)
    requires Served(all, n, bytes, path, file)
    ensures HonestDatagram(all, n, bytes, path, file)
    ensures var d := Decode(Received(bytes), ServerToClient);
            d.Ok? && d.value.header.command != 0x40
  {
    hide Encode, Decode, Received;
    var r: nat, reply: Packet :| IsAnswer(all, n, r, reply, bytes, path, file);
    EncodedReplyIsTaken(reply, 0);
    assert Answers(all[r], reply, path, file);
  }

  lemma ServedScriptIsGood(all: seq<Packet>, n: nat, script: seq<Attempt>, path: Blob, file: Blob, attempts: nat, serial: U16)
    requires ServedScript(all, n, script, path, file)
    ensures HonestScript(all, n, script, path, file)
    ensures GetsThrough(script, attempts, serial) ==> Answerable(script, attempts, serial)
  {
    hide Encode, Decode, Received, Served, HonestDatagram, Matching;
    forall a, e | a in script && e in a.events
      ensures HonestDatagram(all, n, e.bytes, path, file)
      ensures var d := Decode(Received(e.bytes), ServerToClient);
              d.Ok? && d.value.header.command != 0x40
    {
      ServedIsHonest(all, n, e.bytes, path, file);
    }
    if GetsThrough(script, attempts, serial) {
      var k, reply :| 0 <= k < |script| && k < attempts && script[k].Listening? && Sendable(reply)
                      && reply.header.serial == serial && Datagram(Encode(reply, ServerToClient)) in script[k].events;
      EncodedReplyIsTaken(reply, serial);
      assert HasMatch(script[k].events, serial);
    }
  }

  /** On a network that only loses, delays, repeats and reorders, none of it by 65536
      requests, what a server sends: if one answer to each request gets through
      within its attempts, `get_file` returns the file. */
  lemma FileArrives(book: Book, path: Blob, scripts: seq<seq<Attempt>>, file: Blob, past: seq<Packet>)
    requires InStep(book, past) && |file| < 0x1_0000_0000 && |scripts| > |file| / 1024
    requires forall t :: 0 <= t < |scripts| ==> GetsThrough(scripts[t], book.attempts, (2 + |past| + t) % 0x1_0000)
    requires var log := Fetched(book, path, scripts, []).2;
             forall t :: 0 <= t < |scripts| ==> ServedScript(past + Requests(log), |past| + t, scripts[t], path, file)
    ensures Fetched(book, path, scripts, []).0 == Ok(file)
  {
    hide Fetched, HonestScript, Numbered, Answerable, GetsThrough, ServedScript;
    var log := Fetched(book, path, scripts, []).2;
    var all := past + Requests(log);
    forall t | 0 <= t < |scripts|
      ensures Answerable(scripts[t], book.attempts, (2 + |past| + t) % 0x1_0000)
      ensures HonestScript(all, |past| + t, ScriptAt(scripts, t), path, file)
    {
      ServedScriptIsGood(all, |past| + t, scripts[t], path, file, book.attempts, (2 + |past| + t) % 0x1_0000);
    }
    NothingIsHonest(all, path, file);
    FileTransferCompletes(book, path, scripts, file, past);
  }

  lemma NothingIsHonest(all: seq<Packet>, path: Blob, file: Blob)
    ensures forall n: nat :: HonestScript(all, n, [], path, file)
  {
  }

  /** Attempts that hear nothing to the point. */
  predicate Silent(script: seq<Attempt>, serial: U16) {
    forall a :: a in script ==> a.Listening? && Awaited(a.events, serial) == Ok(None)
  }

  lemma {:induction false} SilenceRuns(script: seq<Attempt>, attempts: nat, serial: U16, k: nat)
    requires k <= attempts && Silent(script, serial)
    ensures Replied(script, attempts, serial, k) == Err(TimedOut)
    decreases attempts - k
  {
    hide Awaited;
    if k < attempts {
      assert Awaited(AttemptAt(script, k).events, serial) == Ok(None) by { NothingHeard(serial); }
      SilenceRuns(script, attempts, serial, k + 1);
    }
  }

  lemma NothingHeard(serial: U16)
    ensures Awaited([], serial) == Ok(None)
  {
  }

  /** A request ends in a timeout when every attempt is silent, and in an I/O error when
      a send or a receive fails before a reply; the number is spent, the key stays. */
  lemma RequestFails(book: Book, before: seq<Attempt>, events: seq<Event>, after: seq<Attempt>)
    requires Silent(before, (book.serial + 1) % 0x1_0000)
    ensures Requested(book, before) == (Err(TimedOut), book.(serial := (book.serial + 1) % 0x1_0000))
    ensures |before| < book.attempts ==>
              Requested(book, before + [SendFailed] + after) == (Err(Io), book.(serial := (book.serial + 1) % 0x1_0000))
    ensures |before| < book.attempts && Awaited(events, (book.serial + 1) % 0x1_0000) == Err(Io) ==>
              Requested(book, before + [Listening(events)] + after) == (Err(Io), book.(serial := (book.serial + 1) % 0x1_0000))
  {
    hide Awaited, Replied, Silent;
    var serial := (book.serial + 1) % 0x1_0000;
    SilenceRuns(before, book.attempts, serial, 0);
    if |before| < book.attempts {
      SilenceThen(before, SendFailed, after, book.attempts, serial, 0);
      SilenceThen(before, Listening(events), after, book.attempts, serial, 0);
    }
  }

  lemma {:induction false} SilenceThen(before: seq<Attempt>, a: Attempt, after: seq<Attempt>, attempts: nat, serial: U16, k: nat)
    requires Silent(before, serial) && k <= |before| < attempts
    requires a.SendFailed? || a.Listening?
    ensures a.SendFailed? || Awaited(a.events, serial) == Err(Io) ==>
              Replied(before + [a] + after, attempts, serial, k) == Err(Io)
    decreases |before| - k
  {
    hide Awaited;
    var script := before + [a] + after;
    if k < |before| {
      assert script[k] == before[k] && before[k] in before;
      SilenceThen(before, a, after, attempts, serial, k + 1);
    } else {
      assert script[k] == a;
    }
  }

  /** A receive that fails before anything matches. */
  lemma {:induction false} ReceiveFails(before: seq<Event>, after: seq<Event>, serial: U16)
    requires forall e :: e in before ==> e.Datagram? && Matching(e.bytes, serial).None?
    ensures Awaited(before + [ReceiveFailed] + after, serial) == Err(Io)
    ensures Awaited(before, serial) == Ok(None)
  {
    hide Matching;
    if before != [] {
      ReceiveFails(before[1..], after, serial);
      assert (before + [ReceiveFailed] + after)[1..] == before[1..] + [ReceiveFailed] + after;
    }
  }
}
