/** What a Guppy server answers a request with, and what the client makes of it, in the
    bytes on the wire. */
module GuppyService {
  import opened Text
  import opened Decimal
  import opened GuppyPacket
  import opened GuppySession
  import S = GuppyServer
  import C = GuppyClient

  /** Every first number from `MIN_SEQ` up to, but not including, `MAX_SEQ - total` is
      drawn by some hash, and no other. */
  lemma FirstNumbersDrawn(total: nat, first: nat)
    requires total < MAX_SEQ - MIN_SEQ
    ensures (exists hash: nat :: FirstNumber(total, hash) == first) <==> 6 <= first < 2_147_483_647 - total
  {
    if 6 <= first < 2_147_483_647 - total {
      assert FirstNumber(total, first - 6) == first;
    }
  }

  /** What a first opening leaves and sends: the packets from the first on, as many as
      the window and the sends that succeed allow. */
  ghost predicate OpenedWith(session: Option<SessionState>, sent: seq<Bytes>, packets: seq<Numbered>, window: nat, budget: nat, now: nat) {
    && |packets| >= 1 && session.Some?
    && session.value.packets == packets && session.value.created == now && session.value.lastSend == now
    && session.value.doneAt.None? && session.value.nextUnsent == |sent| == Min(Min(window, |packets|), budget)
    && (forall i :: 0 <= i < |sent| ==> sent[i] == packets[i].wire)
    && forall q: nat :: q in session.value.unacked <==> packets[0].number <= q < packets[0].number + |sent|
  }

  lemma FirstOpening(packets: seq<Numbered>, window: nat, budget: nat, now: nat)
    requires |packets| >= 2 && WellNumbered(packets)
    ensures var (s, sent) := WindowOpened(NewSession(packets, now), window, budget, now);
            OpenedWith(Some(s), sent, packets, window, budget, now)
  {
    hide Numbers;
    var s := NewSession(packets, now);
    var k := Opening(s, window, budget);
    BatchNumbers(s, k);
    assert s.unacked + Numbers(packets[0..k]) == Numbers(packets[0..k]);
  }

  /** A request line of at most 2048 bytes: ignored while a session is live or the table
      is full; otherwise answered, each kind of answer in its own form. */
  lemma RequestIsServed(session: Option<SessionState>, cfg: S.Config, datagram: Bytes, now: nat,
                        full: bool, answer: S.Answer, hash: nat, budget: nat)
    requires session.Some? ==> Valid(session.value)
    requires StartsWith(datagram, "guppy:") && FindCrlf(datagram).Some? && |datagram| <= 2048 && S.Fits(answer, cfg)
    ensures var (after, sent) := S.Received(session, cfg, datagram, now, full, answer, hash, budget);
            if session.Some? || full then after == session && sent == []
            else
              match answer
              case MalformedUrl => after.None? && sent == ["4 Malformed request URL.\r\n"]
              case Handled(PromptFor(text)) => after.None? && sent == ["1 " + text + "\r\n"]
              case Handled(RedirectTo(target)) => after.None? && sent == ["3 " + target + "\r\n"]
              case Handled(Refusal(message)) => after.None? && sent == ["4 " + message + "\r\n"]
              case Handled(Success(mime, body)) =>
                OpenedWith(after, sent, S.ResponsePackets(mime, body, cfg.chunkSize, hash), cfg.window, budget, now)
  {
    hide S.ResponsePackets, OpenedWith, WindowOpened, ParseClientDatagram, EncodePrompt, EncodeRedirect, EncodeFailure;
    RequestIsAnswered(session, cfg, datagram, now, full, answer, hash, budget);
    match answer
    case MalformedUrl => MalformedForm();
    case Handled(PromptFor(text)) => SpecialForms(text);
    case Handled(RedirectTo(target)) => SpecialForms(target);
    case Handled(Refusal(message)) => SpecialForms(message);
    case Handled(Success(mime, body)) =>
      FirstOpening(S.ResponsePackets(mime, body, cfg.chunkSize, hash), cfg.window, budget, now);
  }

  lemma RequestIsAnswered(session: Option<SessionState>, cfg: S.Config, datagram: Bytes, now: nat,
                          full: bool, answer: S.Answer, hash: nat, budget: nat)
    requires session.Some? ==> Valid(session.value)
    requires StartsWith(datagram, "guppy:") && FindCrlf(datagram).Some? && |datagram| <= 2048 && S.Fits(answer, cfg)
    ensures S.Received(session, cfg, datagram, now, full, answer, hash, budget) ==
            if session.Some? || full then (session, []) else S.Answered(cfg, now, answer, hash, budget)
  {
    hide S.Answered, S.Fits;
    RequestIsNotAck(datagram);
  }

  lemma SpecialForms(text: string)
    ensures EncodePrompt(text) == "1 " + text + "\r\n"
    ensures EncodeRedirect(text) == "3 " + text + "\r\n"
    ensures EncodeFailure(text) == "4 " + text + "\r\n"
  {
  }

  lemma MalformedForm()
    ensures EncodeFailure("Malformed request URL.") == "4 Malformed request URL.\r\n"
  {
    SpecialForms("Malformed request URL.");
    assert "4 " + "Malformed request URL." + "\r\n" == "4 Malformed request URL.\r\n";
  }

  /** What is over 2048 bytes, or has no line end, draws nothing and changes nothing. */
  lemma JunkIsIgnored(session: Option<SessionState>, cfg: S.Config, datagram: Bytes, now: nat,
                      full: bool, answer: S.Answer, hash: nat, budget: nat)
    requires session.Some? ==> Valid(session.value)
    requires S.Fits(answer, cfg) && (|datagram| > 2048 || FindCrlf(datagram).None?)
    ensures S.Received(session, cfg, datagram, now, full, answer, hash, budget) == (session, [])
  {
  }

  // ------------------------------------------------------- single-packet answers

  /** The text read out of a special packet is the text sent, exactly when that is one
      trimmed line. */
  lemma TextAsRead(text: string)
    ensures SeenMime(text) == text <==> IsTrimmed(text) && FindCrlf(text).None?
  {
    if text == "" {
      FindCrlfFirst("");
      assert text[..MimeEnd(text)] == "";
    } else {
      SeenExactly(text, "");
    }
  }

  /** A client that has not started returns, for each single-packet answer, that same
      kind of answer with the text as read; one that has started ignores it. */
  lemma SpecialAnswerIsReturned(state: Option<C.Partial>, request: Bytes, maxBody: nat, text: string)
    ensures var read := SeenMime(text);
            var answered := (kind: Response) =>
              if state.None? then (C.Done(C.Answer(kind), None), []) else (C.Head(state, maxBody), []);
            && C.Turn(state, request, maxBody, C.Read(C.Datagram("1 " + text + "\r\n"))) == answered(PromptFor(read))
            && C.Turn(state, request, maxBody, C.Read(C.Datagram("3 " + text + "\r\n"))) == answered(RedirectTo(read))
            && C.Turn(state, request, maxBody, C.Read(C.Datagram("4 " + text + "\r\n"))) == answered(Refusal(read))
  {
    hide ParsePacket, C.Head, SeenMime;
    SpecialReading(text);
    SpecialForms(text);
  }

  // ---------------------------------------------------------------- the client

  /** A silence repeats the request until the response starts, and after that
      re-acknowledges the stall point, and the end once that is known. */
  lemma SilenceSends(state: Option<C.Partial>, request: Bytes, maxBody: nat)
    ensures var sent := C.Turn(state, request, maxBody, C.Quiet).1;
            match state
            case None => sent == [request]
            case Some(r) =>
              && 1 <= |sent| <= 2 && sent[0] == Print(r.contiguousEnd) + "\r\n"
              && (r.eof.Some? <==> |sent| == 2) && (r.eof.Some? ==> sent[1] == Print(r.eof.value) + "\r\n")
  {
  }

  /** A datagram that does not parse changes nothing, and draws nothing. */
  lemma GarbageChangesNothing(state: Option<C.Partial>, request: Bytes, maxBody: nat, bytes: Bytes)
    requires FindCrlf(bytes).None?
    ensures C.Turn(state, request, maxBody, C.Read(C.Datagram(bytes))) == (C.Head(state, maxBody), [])
  {
  }

  /** Whatever arrives, a chunk once held is never replaced. */
  lemma FirstCopyIsKept(r: C.Partial, request: Bytes, maxBody: nat, reading: C.Reading, number: nat)
    requires number in r.chunks
    ensures var after := C.StateOf(C.Turn(Some(r), request, maxBody, reading).0);
            && after.Some? && after.value.firstNumber == r.firstNumber && after.value.mime == r.mime
            && number in after.value.chunks && after.value.chunks[number] == r.chunks[number]
  {
    hide C.ContiguousEnd, C.Body;
  }

  /** A later packet of a started response draws its acknowledgement, and what it brings
      is held; one numbered no higher than the first packet is ignored. */
  lemma LaterPacketIsTaken(r: C.Partial, number: nat, data: Bytes)
    ensures var (phase, acks) := C.Taken(Some(r), Continuation(number, data));
            phase.Running? && phase.state.Some?
            && var after := phase.state.value;
               if number <= r.firstNumber then after == r && acks == []
               else
                 && acks == [Print(number) + "\r\n"]
                 && (data == "" ==> after == r.(eof := Some(number)))
                 && (data != "" ==> after.eof == r.eof && after.buffered == r.buffered + |data|)
                 && (data != "" ==> after.chunks == if number in r.chunks then r.chunks else r.chunks[number := data])
  {
    hide C.ContiguousEnd, C.Body;
  }
}
