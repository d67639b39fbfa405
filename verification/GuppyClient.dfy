/** The Guppy client (`crates/guppy-protocol/src/client.rs`): acknowledge every
    packet, reassemble out of order, stop at the end-of-file packet. */
module GuppyClient {
  import opened Text
  import opened Decimal
  import opened GuppyPacket
  import GuppySession

  /** The receive buffer. */
  const MAX_DATAGRAM: nat := 65_536

  /** Reassembly state for one success response. */
  datatype Partial = Partial(
    firstNumber: nat,
    mime: string,
    chunks: map<nat, Bytes>,
    contiguousEnd: nat,
    buffered: nat,
    eof: Option<nat>)

  datatype Outcome = Answer(response: Response) | BodyTooLarge | DeadlinePassed

  /** The receive loop: running, or returned with the reassembly it had then. */
  datatype Phase = Running(state: Option<Partial>) | Done(outcome: Outcome, last: Option<Partial>)

  function KeysAbove(chunks: map<nat, Bytes>, from: nat): set<nat> {
    set k | k in chunks.Keys && k > from
  }

  /** The last number of the unbroken run of chunks after `from`. */
  function ContiguousEnd(chunks: map<nat, Bytes>, from: nat): (e: nat)
    ensures from <= e && e + 1 !in chunks
    ensures forall k :: from < k <= e ==> k in chunks
    decreases KeysAbove(chunks, from)
  {
    if from + 1 in chunks then
      assert from + 1 in KeysAbove(chunks, from);
      assert KeysAbove(chunks, from + 1) == KeysAbove(chunks, from) - {from + 1};
      ContiguousEnd(chunks, from + 1)
    else from
  }

  function Started(number: nat, mime: string, data: Bytes): Partial {
    Partial(number, mime, map[number := data], number, |data|, None)
  }

  function Inserted(r: Partial, number: nat, data: Bytes): Partial {
    var chunks := if number in r.chunks then r.chunks else r.chunks[number := data];
    r.(buffered := r.buffered + |data|, chunks := chunks, contiguousEnd := ContiguousEnd(chunks, r.contiguousEnd))
  }

  predicate Complete(r: Partial) {
    r.eof == Some(r.contiguousEnd + 1)
  }

  /** The chunks in ascending order of their numbers, joined. */
  function Body(chunks: map<nat, Bytes>): Bytes
    decreases chunks.Keys
  {
    if chunks == map[] then ""
    else
      var least := GuppySession.Smallest(chunks.Keys);
      chunks[least] + Body(chunks - {least})
  }

  // ----------------------------------------------------------------- the steps

  /** The checks at the head of the receive loop: completion first, then size. */
  function Head(state: Option<Partial>, maxBody: nat): Phase {
    if state.Some? && Complete(state.value) then
      Done(Answer(Success(state.value.mime, Body(state.value.chunks))), state)
    else if state.Some? && state.value.buffered > maxBody then Done(BodyTooLarge, state)
    else Running(state)
  }

  /** What one packet does to a reassembly, and the acknowledgements it draws. */
  function Taken(state: Option<Partial>, packet: Packet): (Phase, seq<Bytes>) {
    match packet
    case Prompt(text) =>
      (if state.None? then Done(Answer(PromptFor(text)), None) else Running(state), [])
    case Redirect(target) =>
      (if state.None? then Done(Answer(RedirectTo(target)), None) else Running(state), [])
    case Failure(message) =>
      (if state.None? then Done(Answer(Refusal(message)), None) else Running(state), [])
    case First(number, mime, data) =>
      (Running(if state.None? then Some(Started(number, mime, data)) else state), [EncodeAck(number)])
    case Continuation(number, data) =>
      if state.None? || number <= state.value.firstNumber then (Running(state), [])
      else
        var r := state.value;
        (Running(Some(if data == "" then r.(eof := Some(number)) else Inserted(r, number, data))), [EncodeAck(number)])
  }

  /** What reached the loop: silence, a datagram that does not parse, or a packet. */
  datatype Reading = Quiet | Garbage | Got(packet: Packet)

  /** One turn of the loop, up to its next head. */
  function Turn(state: Option<Partial>, request: Bytes, maxBody: nat, reading: Reading): (Phase, seq<Bytes>) {
    match reading
    case Quiet => (Head(state, maxBody), Resent(state, request))
    case Garbage => (Head(state, maxBody), [])
    case Got(packet) =>
      var (phase, acks) := Taken(state, packet);
      (if phase.Running? then Head(phase.state, maxBody) else phase, acks)
  }

  /** What is sent again when nothing arrives for a while. */
  function Resent(state: Option<Partial>, request: Bytes): seq<Bytes> {
    match state
    case None => [request]
    case Some(r) => [EncodeAck(r.contiguousEnd)] + if r.eof.Some? then [EncodeAck(r.eof.value)] else []
  }

  /** The loop after a series of readings: where it stands and all it has sent. */
  function After(request: Bytes, maxBody: nat, readings: seq<Reading>): (Phase, seq<Bytes>) {
    if readings == [] then (Running(None), [request])
    else
      var (phase, sent) := After(request, maxBody, readings[..|readings| - 1]);
      match phase
      case Done(_, _) => (phase, sent)
      case Running(state) =>
        var (next, more) := Turn(state, request, maxBody, readings[|readings| - 1]);
        (next, sent + more)
  }

  /** What happens at the socket. */
  datatype Event = Datagram(bytes: Bytes) | Silence

  function Read(event: Event): Reading {
    match event
    case Silence => Quiet
    case Datagram(bytes) =>
      match ParsePacket(bytes)
      case Err(_) => Garbage
      case Ok(packet) => Got(packet)
  }

  function Readings(events: seq<Event>): seq<Reading> {
    seq(|events|, i requires 0 <= i < |events| => Read(events[i]))
  }

  // --------------------------------------------------------------- in place

  class Reassembly {
    const firstNumber: nat
    const mime: string
    var chunks: map<nat, Bytes>
    var contiguousEnd: nat
    var buffered: nat
    var eof: Option<nat>

    function State(): Partial
      reads this
    {
      Partial(firstNumber, mime, chunks, contiguousEnd, buffered, eof)
    }

    constructor (number: nat, mime: string, data: Bytes)
      ensures State() == Started(number, mime, data)
    {
      firstNumber := number;
      this.mime := mime;
      chunks := map[number := data];
      contiguousEnd := number;
      buffered := |data|;
      eof := None;
    }

    method Insert(number: nat, data: Bytes)
      modifies this
      ensures State() == Inserted(old(State()), number, data)
    {
      buffered := buffered + |data|;
      if number !in chunks {
        chunks := chunks[number := data];
      }
      CloseGap();
    }

    /** Moves the end of the unbroken run as far as the chunks held allow. */
    method CloseGap()
      modifies this`contiguousEnd
      ensures contiguousEnd == ContiguousEnd(chunks, old(contiguousEnd))
    {
      hide KeysAbove;
      ghost var end := ContiguousEnd(chunks, contiguousEnd);
      while contiguousEnd + 1 in chunks
        invariant contiguousEnd <= end && ContiguousEnd(chunks, contiguousEnd) == end
        decreases end - contiguousEnd
      {
        contiguousEnd := contiguousEnd + 1;
      }
    }

    method IntoResponse() returns (response: Response)
      ensures response == Success(mime, Body(chunks))
    {
      var body := "";
      var rest := chunks;
      while rest != map[]
        invariant body + Body(rest) == Body(chunks)
        decreases rest.Keys
      {
        var least := GuppySession.Smallest(rest.Keys);
        body := body + rest[least];
        rest := rest - {least};
      }
      return Success(mime, body);
    }
  }

  function Value(state: Reassembly?): Option<Partial>
    reads if state == null then {} else {state}
  {
    if state == null then None else Some(state.State())
  }

  /** Takes one packet into the reassembly, starting one if need be; `answer` is
      a special packet that ends the loop. */
  method Take(state: Reassembly?, packet: Packet) returns (next: Reassembly?, acks: seq<Bytes>, answer: Option<Response>)
    modifies if state == null then {} else {state}
    ensures next == state || (state == null && fresh(next))
    ensures (match answer case None => Running(Value(next)) case Some(response) => Done(Answer(response), None), acks)
            == Taken(old(Value(state)), packet)
  {
    next, acks, answer := state, [], None;
    match packet
    case Prompt(text) =>
      if state == null { answer := Some(PromptFor(text)); }
    case Redirect(target) =>
      if state == null { answer := Some(RedirectTo(target)); }
    case Failure(message) =>
      if state == null { answer := Some(Refusal(message)); }
    case First(number, mime, data) =>
      acks := [EncodeAck(number)];
      if state == null {
        next := new Reassembly(number, mime, data);
      }
    case Continuation(number, data) =>
      if state == null || number <= state.firstNumber {
        return;
      }
      acks := [EncodeAck(number)];
      if data == "" {
        state.eof := Some(number);
      } else {
        state.Insert(number, data);
      }
  }

  /** One turn of the loop: silence draws retransmission, a packet is taken, and
      anything else is ignored. */
  method Handle(state: Reassembly?, request: Bytes, event: Event) returns (next: Reassembly?, more: seq<Bytes>, answer: Option<Response>)
    modifies if state == null then {} else {state}
    ensures next == state || (state == null && fresh(next))
    ensures forall maxBody ::
              Turn(old(Value(state)), request, maxBody, Read(event)) ==
              (match answer case None => Head(Value(next), maxBody) case Some(response) => Done(Answer(response), None), more)
  {
    next, more, answer := state, [], None;
    match Read(event)
    case Quiet =>
      if state == null {
        more := [request];
      } else {
        more := [EncodeAck(state.contiguousEnd)];
        more := more + if state.eof.Some? then [EncodeAck(state.eof.value)] else [];
      }
    case Garbage =>
    case Got(packet) =>
      next, more, answer := Take(state, packet);
  }

  /** The checks at the head of the loop. */
  method CheckHead(state: Reassembly?, maxBody: nat) returns (phase: Phase)
    ensures phase == Head(Value(state), maxBody)
  {
    phase := Running(Value(state));
    if state != null {
      if state.eof == Some(state.contiguousEnd + 1) {
        var response := state.IntoResponse();
        phase := Done(Answer(response), Value(state));
      } else if state.buffered > maxBody {
        phase := Done(BodyTooLarge, Value(state));
      }
    }
  }

  /** The receive loop over everything that happens at its socket. */
  method Transact(request: Bytes, maxBody: nat, events: seq<Event>) returns (phase: Phase, sent: seq<Bytes>)
    ensures (phase, sent) == After(request, maxBody, Readings(events))
  {
    sent := [request];
    var state: Reassembly? := null;
    ghost var readings := Readings(events);
    phase := CheckHead(state, maxBody);
    var i := 0;
    while phase.Running? && i < |events|
      invariant 0 <= i <= |events|
      invariant (phase, sent) == After(request, maxBody, readings[..i])
      invariant phase.Running? ==> phase.state == Value(state)
      invariant state != null ==> fresh(state)
    {
      OneTurn(request, maxBody, readings, i);
      var more, answer;
      state, more, answer := Handle(state, request, events[i]);
      sent := sent + more;
      if answer.Some? {
        phase := Done(Answer(answer.value), None);
      } else {
        phase := CheckHead(state, maxBody);
      }
      i := i + 1;
    }
    if phase.Done? {
      DoneStays(request, maxBody, readings, i);
    } else {
      assert readings[..i] == readings;
    }
  }

  lemma OneTurn(request: Bytes, maxBody: nat, readings: seq<Reading>, i: nat)
    requires i < |readings| && After(request, maxBody, readings[..i]).0.Running?
    ensures var (phase, sent) := After(request, maxBody, readings[..i]);
            var (next, more) := Turn(phase.state, request, maxBody, readings[i]);
            After(request, maxBody, readings[..i + 1]) == (next, sent + more)
  {
    assert readings[..i + 1][..i] == readings[..i];
  }

  lemma {:induction false} DoneStays(request: Bytes, maxBody: nat, readings: seq<Reading>, i: nat)
    requires i <= |readings| && After(request, maxBody, readings[..i]).0.Done?
    ensures After(request, maxBody, readings) == After(request, maxBody, readings[..i])
    decreases |readings| - i
  {
    if i < |readings| {
      assert readings[..i + 1][..i] == readings[..i];
      DoneStays(request, maxBody, readings, i + 1);
    } else {
      assert readings[..i] == readings;
    }
  }

  // ------------------------------------------------- what the body is made of

  /** Adding a chunk adds its length, wherever its number falls. */
  lemma {:induction false} BodyGrows(chunks: map<nat, Bytes>, number: nat, data: Bytes)
    requires number !in chunks
    ensures |Body(chunks[number := data])| == |Body(chunks)| + |data|
    decreases chunks.Keys
  {
    var more := chunks[number := data];
    assert number in more.Keys;
    var least := GuppySession.Smallest(more.Keys);
    if least == number {
      assert more - {number} == chunks;
    } else {
      assert least in chunks.Keys && forall x :: x in chunks.Keys ==> x in more.Keys;
      assert least == GuppySession.Smallest(chunks.Keys);
      assert more - {least} == (chunks - {least})[number := data];
      assert least in chunks.Keys && (chunks - {least}).Keys == chunks.Keys - {least};
      BodyGrows(chunks - {least}, number, data);
    }
  }

  /** Chunks at consecutive numbers join up in that order. */
  lemma {:induction false} BodyOfRange(chunks: map<nat, Bytes>, lo: nat, parts: seq<Bytes>)
    requires forall k :: k in chunks <==> lo <= k < lo + |parts|
    requires forall i :: 0 <= i < |parts| ==> chunks[lo + i] == parts[i]
    ensures Body(chunks) == GuppySession.Concat(parts)
    decreases |parts|
  {
    if parts == [] {
      assert chunks == map[];
    } else {
      assert lo in chunks.Keys;
      assert GuppySession.Smallest(chunks.Keys) == lo;
      BodyOfRange(chunks - {lo}, lo + 1, parts[1..]);
    }
  }

  // ------------------------------------------------------- buffer accounting

  /** The payload a continuation carries into a reassembly anchored at `first`. */
  function ContinuationBytes(reading: Reading, first: nat): nat {
    match reading
    case Got(Continuation(number, data)) => if number > first then |data| else 0
    case _ => 0
  }

  function SumContinuations(readings: seq<Reading>, first: nat): nat {
    if readings == [] then 0
    else SumContinuations(readings[..|readings| - 1], first) + ContinuationBytes(readings[|readings| - 1], first)
  }

  /** The reading that carries the first packet of a success. */
  predicate IsFirst(reading: Reading) {
    reading.Got? && reading.packet.First?
  }

  /** Where the earliest first packet is. */
  function FirstAt(readings: seq<Reading>): (r: Option<nat>)
    ensures r.Some? ==> r.value < |readings| && IsFirst(readings[r.value])
  {
    if readings == [] then None
    else
      var earlier := FirstAt(readings[..|readings| - 1]);
      if earlier.Some? then earlier
      else if IsFirst(readings[|readings| - 1]) then Some(|readings| - 1)
      else None
  }

  /** All payload bytes of data packets processed, duplicates counted again. */
  function DataBytes(readings: seq<Reading>): nat {
    match FirstAt(readings)
    case None => 0
    case Some(i) =>
      |readings[i].packet.data| + SumContinuations(readings[i + 1..], readings[i].packet.number)
  }

  /** Facts of every reassembly, however hostile the sender. */
  predicate Sound(r: Partial) {
    && r.firstNumber in r.chunks
    && (forall k :: k in r.chunks ==> r.firstNumber <= k)
    && r.firstNumber <= r.contiguousEnd && r.contiguousEnd + 1 !in r.chunks
    && (forall k :: r.firstNumber <= k <= r.contiguousEnd ==> k in r.chunks)
    && (r.eof.Some? ==> r.firstNumber < r.eof.value)
    && |Body(r.chunks)| <= r.buffered
  }

  lemma StartedIsSound(number: nat, mime: string, data: Bytes)
    ensures Sound(Started(number, mime, data))
  {
    var none: map<nat, Bytes> := map[];
    BodyGrows(none, number, data);
    assert none[number := data] == map[number := data];
  }

  lemma InsertedIsSound(r: Partial, number: nat, data: Bytes)
    requires Sound(r) && r.firstNumber < number
    ensures Sound(Inserted(r, number, data))
  {
    if number !in r.chunks {
      BodyGrows(r.chunks, number, data);
    }
  }

  function StateOf(phase: Phase): Option<Partial> {
    match phase
    case Running(state) => state
    case Done(_, last) => last
  }

  /** The accounting of one reassembly against the readings that made it. */
  predicate Accounted(r: Partial, readings: seq<Reading>) {
    && Sound(r)
    && FirstAt(readings).Some?
    && r.firstNumber == readings[FirstAt(readings).value].packet.number
    && r.buffered == DataBytes(readings)
  }

  /** For every series of readings, however hostile: `buffered` counts every
      payload byte taken, duplicates again, covers the bytes held, and is within
      the limit whenever the client waits for more. */
  lemma {:induction false} BufferAccounting(request: Bytes, maxBody: nat, readings: seq<Reading>)
    requires readings != [] ==> After(request, maxBody, readings[..|readings| - 1]).0.Running?
    ensures var phase := After(request, maxBody, readings).0;
            && (StateOf(phase).Some? ==> Accounted(StateOf(phase).value, readings))
            && (phase.Running? && phase.state.None? ==> FirstAt(readings).None?)
            && (phase.Running? && phase.state.Some? ==> phase.state.value.buffered <= maxBody)
  {
    if readings != [] {
      var before := readings[..|readings| - 1];
      BufferAccounting(request, maxBody, before);
      var state := After(request, maxBody, before).0.state;
      TurnAccounted(state, before, readings[|readings| - 1]);
      assert readings == before + [readings[|readings| - 1]];
    }
  }

  lemma FirstAtSnoc(readings: seq<Reading>, reading: Reading)
    ensures FirstAt(readings + [reading]) ==
            if FirstAt(readings).Some? then FirstAt(readings) else if IsFirst(reading) then Some(|readings|) else None
  {
    hide IsFirst;
    assert (readings + [reading])[..|readings|] == readings;
  }

  lemma MoreReadings(readings: seq<Reading>, reading: Reading)
    ensures FirstAt(readings).Some? ==>
              DataBytes(readings + [reading]) ==
              DataBytes(readings) + ContinuationBytes(reading, readings[FirstAt(readings).value].packet.number)
  {
    hide ContinuationBytes, SumContinuations, FirstAt;
    FirstAtSnoc(readings, reading);
    var more := readings + [reading];
    if FirstAt(readings).Some? {
      var i := FirstAt(readings).value;
      assert more[i] == readings[i];
      assert more[i + 1..] == readings[i + 1..] + [reading];
      SumSnoc(readings[i + 1..], reading, readings[i].packet.number);
    }
  }

  lemma SumSnoc(readings: seq<Reading>, reading: Reading, first: nat)
    ensures SumContinuations(readings + [reading], first) ==
            SumContinuations(readings, first) + ContinuationBytes(reading, first)
  {
    assert (readings + [reading])[..|readings|] == readings;
  }

  lemma TurnAccounted(state: Option<Partial>, readings: seq<Reading>, reading: Reading)
    requires state.Some? ==> Accounted(state.value, readings)
    requires state.None? ==> FirstAt(readings).None?
    ensures reading.Got? ==>
              var after := StateOf(Taken(state, reading.packet).0);
              && (after.Some? ==> Accounted(after.value, readings + [reading]))
              && (Taken(state, reading.packet).0.Running? && after.None? ==> FirstAt(readings + [reading]).None?)
    ensures !reading.Got? ==>
              && (state.Some? ==> Accounted(state.value, readings + [reading]))
              && (state.None? ==> FirstAt(readings + [reading]).None?)
  {
    FirstAtSnoc(readings, reading);
    MoreReadings(readings, reading);
    hide FirstAt, DataBytes, Sound;
    if reading.Got? && reading.packet.First? && state.None? {
      FirstAccounted(readings, reading);
    }
    if reading.Got? && reading.packet.Continuation? && state.Some? && reading.packet.number > state.value.firstNumber {
      EofIsSound(state.value, reading.packet.number);
      InsertedIsSound(state.value, reading.packet.number, reading.packet.data);
    }
  }

  lemma EofIsSound(r: Partial, number: nat)
    requires Sound(r) && r.firstNumber < number
    ensures Sound(r.(eof := Some(number)))
  {
  }

  lemma FirstAccounted(readings: seq<Reading>, reading: Reading)
    requires IsFirst(reading) && FirstAt(readings).None?
    ensures Accounted(Started(reading.packet.number, reading.packet.mime, reading.packet.data), readings + [reading])
  {
    hide Sound;
    FirstAtSnoc(readings, reading);
    StartedIsSound(reading.packet.number, reading.packet.mime, reading.packet.data);
    assert (readings + [reading])[|readings| + 1..] == [];
  }

  function Payload(reading: Reading): Bytes {
    match reading
    case Got(First(_, _, data)) => data
    case Got(Continuation(_, data)) => data
    case _ => ""
  }

  /** A packet's payload is part of the datagram it came in. */
  lemma PayloadWithinDatagram(event: Event)
    ensures event.Datagram? ==> |Payload(Read(event))| <= |event.bytes|
  {
  }

  /** Held bytes, and so any body returned, stay within the limit plus the payload
      of one datagram, whatever arrives. */
  lemma {:induction false} HeldWithinLimit(request: Bytes, maxBody: nat, largest: nat, readings: seq<Reading>)
    requires forall i :: 0 <= i < |readings| ==> |Payload(readings[i])| <= largest
    ensures var phase := After(request, maxBody, readings).0;
            StateOf(phase).Some? ==> |Body(StateOf(phase).value.chunks)| <= maxBody + largest
  {
    if readings != [] {
      var before := readings[..|readings| - 1];
      var last := readings[|readings| - 1];
      HeldWithinLimit(request, maxBody, largest, before);
      var phase := After(request, maxBody, before).0;
      if phase.Running? {
        AccountingUpTo(request, maxBody, before);
        TurnAddsPayload(phase.state, last);
        BufferAccounting(request, maxBody, readings);
        assert |Payload(last)| <= largest;
      }
    }
  }

  lemma AccountingUpTo(request: Bytes, maxBody: nat, readings: seq<Reading>)
    requires After(request, maxBody, readings).0.Running?
    ensures var state := After(request, maxBody, readings).0.state;
            state.Some? ==> state.value.buffered <= maxBody
  {
    BufferAccounting(request, maxBody, readings);
  }

  lemma TurnAddsPayload(state: Option<Partial>, reading: Reading)
    ensures reading.Got? ==>
              var after := StateOf(Taken(state, reading.packet).0);
              after.Some? ==>
                after.value.buffered <= (if state.Some? then state.value.buffered else 0) + |Payload(reading)|
  {
  }

  /** The bound over whole runs: no body returned is larger than the limit plus
      one receive buffer. */
  lemma ReturnedBodyBound(request: Bytes, maxBody: nat, events: seq<Event>)
    requires forall i :: 0 <= i < |events| && events[i].Datagram? ==> |events[i].bytes| <= 65_536
    ensures match After(request, maxBody, Readings(events)).0
            case Done(Answer(Success(_, body)), _) => |body| <= maxBody + 65_536
            case _ => true
  {
    var readings := Readings(events);
    forall i | 0 <= i < |readings| ensures |Payload(readings[i])| <= MAX_DATAGRAM {
      PayloadWithinDatagram(events[i]);
    }
    HeldWithinLimit(request, maxBody, MAX_DATAGRAM, readings);
    SuccessIsBody(request, maxBody, readings);
  }

  lemma {:induction false} SuccessIsBody(request: Bytes, maxBody: nat, readings: seq<Reading>)
    ensures match After(request, maxBody, readings).0
            case Done(Answer(Success(_, body)), last) => last.Some? && body == Body(last.value.chunks)
            case _ => true
  {
    if readings != [] {
      SuccessIsBody(request, maxBody, readings[..|readings| - 1]);
    }
  }

  /** The bound is tight: completion is decided before size, so a body can exceed
      the limit by a whole last chunk. */
  lemma {:induction false} CompletionBeatsLimit(request: Bytes, maxBody: nat, mime: string, start: Bytes, data: Bytes, number: nat)
    requires |start| == maxBody && data != ""
    ensures var readings := [Got(First(number, mime, start)), Got(Continuation(number + 2, "")), Got(Continuation(number + 1, data))];
            && After(request, maxBody, readings).0.Done?
            && After(request, maxBody, readings).0.outcome == Answer(Success(mime, start + data))
            && |start + data| == maxBody + |data|
  {
    var readings := [Got(First(number, mime, start)), Got(Continuation(number + 2, "")), Got(Continuation(number + 1, data))];
    var r := Started(number, mime, start);
    OneTurn(request, maxBody, readings, 0);
    assert After(request, maxBody, readings[..1]).0 == Running(Some(r));
    OneTurn(request, maxBody, readings, 1);
    var r' := r.(eof := Some(number + 2));
    assert After(request, maxBody, readings[..2]).0 == Running(Some(r'));
    OneTurn(request, maxBody, readings, 2);
    TwoChunks(r', start, data);
    assert readings[..3] == readings;
  }

  lemma TwoChunks(r: Partial, start: Bytes, data: Bytes)
    requires r.chunks == map[r.contiguousEnd := start]
    ensures var r' := Inserted(r, r.contiguousEnd + 1, data);
            Body(r'.chunks) == start + data && r'.contiguousEnd == r.contiguousEnd + 1
  {
    var chunks := r.chunks[r.contiguousEnd + 1 := data];
    assert r.contiguousEnd + 1 in chunks && r.contiguousEnd + 2 !in chunks;
    BodyOfRange(chunks, r.contiguousEnd, [start, data]);
    assert [start, data][1..] == [data];
    assert GuppySession.Concat([data]) == data;
  }
}
