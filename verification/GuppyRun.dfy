/** One Guppy fetch over an unreliable network: the client, the server's session
    for it, and the sets of datagrams ever sent each way. A datagram in such a
    set may arrive at any time, any number of times, or never. */
module GuppyRun {
  import opened Text
  import opened Decimal
  import opened GuppyPacket
  import opened GuppySession
  import S = GuppyServer
  import C = GuppyClient

  /** A response the server has built for this peer. */
  datatype Build = Build(first: nat, mime: string, body: Bytes, chunkSize: nat)

  function Parts(b: Build): (parts: seq<Bytes>)
    requires b.chunkSize >= 1
    ensures |parts| >= 1
  {
    Chunks(b.body, b.chunkSize)
  }

  function Packets(b: Build): (packets: seq<Numbered>)
    requires b.chunkSize >= 1
    ensures |packets| == |Parts(b)| + 1 && WellNumbered(packets) && packets[0].number == b.first
  {
    PacketsOf(b.first, b.mime, Parts(b))
  }

  const SAMPLE := SessionState([Numbered(6, ""), Numbered(7, "")], 0, {}, 0, 0, None)

  type Live = s: SessionState | Valid(s) witness SAMPLE

  datatype World = World(
    cfg: S.Config,
    maxBody: nat,
    request: Bytes,
    toServer: set<Bytes>,
    toClient: set<Bytes>,
    session: Option<Live>,
    client: C.Phase,
    builds: seq<Build>)

  datatype Action =
    | ReachServer(datagram: Bytes, now: nat, full: bool, answer: S.Answer, hash: nat, budget: nat)
    | ServerTick(now: nat)
    | ReachClient(datagram: Bytes)
    | ClientQuiet
    | ClientDeadline

  function Start(cfg: S.Config, maxBody: nat, url: string): World {
    World(cfg, maxBody, url + CRLF, {url + CRLF}, {}, None, C.Running(None), [])
  }

  /** Only what was sent can arrive; a response fits the sequence numbers; and a
      session does not reach its overall timeout while its client still runs. */
  predicate Enabled(w: World, a: Action) {
    match a
    case ReachServer(datagram, _, _, answer, _, _) => datagram in w.toServer && S.Fits(answer, w.cfg)
    case ServerTick(now) => w.client.Running? && w.session.Some? ==> now <= w.session.value.created + w.cfg.sessionTimeout
    case ReachClient(datagram) => datagram in w.toClient
    case ClientQuiet => true
    case ClientDeadline => true
  }

  function AsSet(wires: seq<Bytes>): set<Bytes> {
    set d | d in wires
  }

  function Step(w: World, a: Action): World
    requires Enabled(w, a)
  {
    match a
    case ReachServer(datagram, now, full, answer, hash, budget) =>
      S.ServerKeepsValid(w.session, w.cfg, datagram, now, full, answer, hash, budget);
      var (session, sent) := S.Received(w.session, w.cfg, datagram, now, full, answer, hash, budget);
      var built := if w.session.None? && session.Some? then [BuildFor(w.cfg, answer, hash)] else [];
      Served(w, session, sent, built)
    case ServerTick(now) =>
      TickKeepsValid(w.session, w.cfg, now);
      var (session, sent) := S.Ticked(w.session, w.cfg, now);
      Served(w, session, sent, [])
    case ReachClient(datagram) => ClientTurn(w, C.Read(C.Datagram(datagram)))
    case ClientQuiet => ClientTurn(w, C.Quiet)
    case ClientDeadline =>
      if w.client.Running? then w.(client := C.Done(C.DeadlinePassed, w.client.state)) else w
  }

  function Served(w: World, session: Option<Live>, sent: seq<Bytes>, built: seq<Build>): World {
    w.(session := session, toClient := w.toClient + AsSet(sent), builds := w.builds + built)
  }

  function ClientTurn(w: World, reading: C.Reading): World {
    match w.client
    case Done(_, _) => w
    case Running(state) =>
      var (phase, sent) := C.Turn(state, w.request, w.maxBody, reading);
      w.(client := phase, toServer := w.toServer + AsSet(sent))
  }

  function BuildFor(cfg: S.Config, answer: S.Answer, hash: nat): Build
    requires S.Fits(answer, cfg)
  {
    match answer
    case Handled(Success(mime, body)) =>
      var c := Max(cfg.chunkSize, 1);
      Build(FirstNumber(PacketCount(|body|, c), hash), mime, body, c)
    case _ => Build(0, "", "", 1)
  }

  lemma TickKeepsValid(session: Option<Live>, cfg: S.Config, now: nat)
    ensures var t := S.Ticked(session, cfg, now).0;
            t.Some? ==> Valid(t.value)
  {
  }

  /** The world after a series of actions, if each was possible in its turn. */
  function Run(w: World, actions: seq<Action>): Option<World> {
    if actions == [] then Some(w)
    else
      match Run(w, actions[..|actions| - 1])
      case None => None
      case Some(v) =>
        if Enabled(v, actions[|actions| - 1]) then Some(Step(v, actions[|actions| - 1])) else None
  }

  // ------------------------------------------------------- what a client reads

  /** A response as its client reads it off the wire: the MIME type is empty when
      the first packet does not parse. */
  datatype View = View(first: nat, mime: string, parts: seq<Bytes>)

  function ViewOf(b: Build): View
    requires b.chunkSize >= 1
  {
    View(b.first, SeenMime(b.mime), [SeenData(b.mime, Parts(b)[0])] + Parts(b)[1..])
  }

  predicate Readable(v: View) {
    v.mime != ""
  }

  predicate ViewOk(v: View) {
    && |v.parts| >= 1 && MIN_SEQ <= v.first && v.first + |v.parts| <= MAX_SEQ
    && forall i :: 0 < i < |v.parts| ==> v.parts[i] != ""
  }

  predicate GoodBuild(b: Build) {
    b.chunkSize >= 1 && MIN_SEQ <= b.first && b.first + |Parts(b)| <= MAX_SEQ
  }

  lemma GoodBuildViewOk(b: Build)
    requires GoodBuild(b)
    ensures ViewOk(ViewOf(b)) && |ViewOf(b).parts| == |Parts(b)|
  {
    ChunksCoverBody(b.body, b.chunkSize);
  }

  /** The only success a client can make of a response. */
  function Expected(v: View): Response {
    Success(v.mime, Concat(v.parts))
  }

  /** The reading of each packet of a response, the end-of-file packet last. */
  function ReadingAt(v: View, i: nat): C.Reading
    requires |v.parts| >= 1 && i <= |v.parts|
  {
    if i == 0 then
      if Readable(v) then C.Got(First(v.first, v.mime, v.parts[0])) else C.Garbage
    else
      C.Got(Continuation(v.first + i, if i < |v.parts| then v.parts[i] else ""))
  }

  lemma PacketReads(b: Build, i: nat)
    requires GoodBuild(b) && i <= |Parts(b)|
    ensures C.Read(C.Datagram(Packets(b)[i].wire)) == ReadingAt(ViewOf(b), i)
  {
    hide C.Read, EncodeFirst, EncodeContinuation, PacketsOf, Chunks, SeenMime, SeenData;
    WireAt(b, i);
    if i == 0 {
      FirstReads(b.first, b.mime, Parts(b)[0]);
    } else {
      LaterReads(b.first + i, PartData(b, i));
      PartIsSeen(b, i);
    }
  }

  function PartData(b: Build, i: nat): Bytes
    requires b.chunkSize >= 1
  {
    if i < |Parts(b)| then Parts(b)[i] else ""
  }

  lemma WireAt(b: Build, i: nat)
    requires b.chunkSize >= 1 && i <= |Parts(b)|
    ensures Packets(b)[i].wire ==
            if i == 0 then EncodeFirst(b.first, b.mime, Parts(b)[0]) else EncodeContinuation(b.first + i, PartData(b, i))
  {
    assert Packets(b)[i] == PacketAt(b.first, b.mime, Parts(b), i);
  }

  lemma PartIsSeen(b: Build, i: nat)
    requires b.chunkSize >= 1 && 0 < i <= |Parts(b)|
    ensures ReadingAt(ViewOf(b), i) == C.Got(Continuation(b.first + i, PartData(b, i)))
  {
  }

  lemma FirstReads(number: nat, mime: string, data: Bytes)
    requires MIN_SEQ <= number <= MAX_SEQ
    ensures C.Read(C.Datagram(EncodeFirst(number, mime, data))) ==
            if SeenMime(mime) != "" then C.Got(First(number, SeenMime(mime), SeenData(mime, data))) else C.Garbage
  {
    FirstReading(number, mime, data);
  }

  lemma LaterReads(number: nat, data: Bytes)
    requires number <= MAX_SEQ
    ensures C.Read(C.Datagram(EncodeContinuation(number, data))) == C.Got(Continuation(number, data))
  {
    ContinuationRoundTrip(number, data);
  }

  /** What the client gets back is what was built if and only if the MIME type
      survives the wire. */
  lemma ExpectedIsExact(b: Build)
    requires GoodBuild(b) && Readable(ViewOf(b))
    ensures Expected(ViewOf(b)) == Success(b.mime, b.body) <==> WellFormedMime(b.mime)
  {
    SeenExactly(b.mime, Parts(b)[0]);
    if WellFormedMime(b.mime) {
      assert ViewOf(b).parts == Parts(b);
      ChunksCoverBody(b.body, b.chunkSize);
    }
  }

  // ------------------------------------------------------------- the invariant

  function Holding(state: Option<C.Partial>): set<nat> {
    match state
    case None => {}
    case Some(r) => r.chunks.Keys + if r.eof.Some? then {r.eof.value} else {}
  }

  /** The sequence numbers the client has received. */
  function Held(phase: C.Phase): set<nat> {
    Holding(C.StateOf(phase))
  }

  /** A reassembly made of one response's packets and nothing else. */
  predicate Matches(r: C.Partial, v: View) {
    && Readable(v) && r.firstNumber == v.first && r.mime == v.mime
    && v.first in r.chunks
    && (forall k :: k in r.chunks ==> v.first <= k < v.first + |v.parts| && r.chunks[k] == v.parts[k - v.first])
    && (r.eof.Some? ==> r.eof.value == v.first + |v.parts|)
    && v.first <= r.contiguousEnd && r.contiguousEnd + 1 !in r.chunks
    && (forall k :: v.first <= k <= r.contiguousEnd ==> k in r.chunks)
  }

  predicate StateOk(state: Option<C.Partial>, view: Option<View>) {
    state.Some? ==> view.Some? && Matches(state.value, view.value)
  }

  predicate PhaseOk(phase: C.Phase, view: Option<View>) {
    && StateOk(C.StateOf(phase), view)
    && (phase.Running? && phase.state.Some? ==> !C.Complete(phase.state.value))
    && (phase.Done? && phase.outcome.Answer? && phase.outcome.response.Success? ==>
          view.Some? && Readable(view.value) && phase.outcome.response == Expected(view.value))
  }

  function FirstView(builds: seq<Build>): Option<View>
    requires AllGood(builds)
  {
    if builds == [] then None else Some(ViewOf(builds[0]))
  }

  predicate AllGood(builds: seq<Build>) {
    forall i :: 0 <= i < |builds| ==> GoodBuild(builds[i])
  }

  ghost predicate IsSpecialWire(d: Bytes) {
    exists text :: d == EncodePrompt(text) || d == EncodeRedirect(text) || d == EncodeFailure(text)
  }

  ghost predicate IsWireOf(d: Bytes, builds: seq<Build>)
    requires AllGood(builds)
  {
    |builds| >= 1 && exists i :: 0 <= i < |Packets(builds[0])| && d == Packets(builds[0])[i].wire
  }

  ghost predicate AreAcksOf(sent: set<Bytes>, held: set<nat>, request: Bytes) {
    forall d :: d in sent ==> d == request || exists q :: q in held && d == EncodeAck(q)
  }

  /** Everything the server counts as acknowledged, the client holds. */
  predicate AckedIsHeld(s: Live, held: set<nat>) {
    forall i :: 0 <= i < s.nextUnsent && s.packets[i].number !in s.unacked ==> s.packets[i].number in held
  }

  /** Whatever the client acknowledges, and whatever the server takes for
      acknowledged, the client holds. */
  ghost predicate Agreed(w: World) {
    && AreAcksOf(w.toServer, Held(w.client), w.request)
    && (w.session.Some? ==> AckedIsHeld(w.session.value, Held(w.client)))
  }

  /** While there is one response: what is under way, and whose session it is. */
  ghost predicate Linked(w: World)
    requires AllGood(w.builds)
  {
    && (forall d :: d in w.toClient ==> IsSpecialWire(d) || IsWireOf(d, w.builds))
    && (w.session.Some? ==> |w.builds| >= 1 && w.session.value.packets == Packets(w.builds[0]))
    && (w.session.None? && |w.builds| >= 1 ==> w.client.Done?)
  }

  /** The invariant. Once a second response is built, the client has returned. */
  ghost predicate Inv(w: World) {
    && StartsWith(w.request, "guppy:")
    && AllGood(w.builds)
    && PhaseOk(w.client, FirstView(w.builds))
    && Agreed(w)
    && (if |w.builds| <= 1 then Linked(w) else w.client.Done?)
  }

  // ------------------------------------------------------- the client's steps

  /** What can come out of this network at a running client. */
  predicate IsPartReading(view: Option<View>, reading: C.Reading) {
    view.Some? && |view.value.parts| >= 1 && exists i :: 0 <= i <= |view.value.parts| && reading == ReadingAt(view.value, i)
  }

  predicate Possible(view: Option<View>, reading: C.Reading) {
    (reading.Got? && !IsSpecial(reading.packet)) ==> IsPartReading(view, reading)
  }

  lemma ArrivalIsPossible(builds: seq<Build>, d: Bytes)
    requires AllGood(builds) && (IsSpecialWire(d) || IsWireOf(d, builds))
    ensures Possible(FirstView(builds), C.Read(C.Datagram(d)))
  {
    if IsSpecialWire(d) {
      var text :| d == EncodePrompt(text) || d == EncodeRedirect(text) || d == EncodeFailure(text);
      SpecialReading(text);
    } else {
      var b := builds[0];
      var i :| 0 <= i < |Packets(b)| && d == Packets(b)[i].wire;
      GoodBuildViewOk(b);
      PacketReads(b, i);
    }
  }

  /** The first packet starts a reassembly, or repeats what is held. */
  lemma TakingFirst(state: Option<C.Partial>, v: View)
    requires ViewOk(v) && Readable(v) && StateOk(state, Some(v))
    ensures var (phase, acks) := C.Taken(state, ReadingAt(v, 0).packet);
            && phase.Running? && phase.state.Some? && Matches(phase.state.value, v)
            && Holding(state) <= Held(phase)
            && v.first in Held(phase) && acks == [EncodeAck(v.first)]
  {
  }

  /** A later packet adds its chunk, or the end, to a started reassembly. */
  lemma TakingLater(r: C.Partial, v: View, i: nat)
    requires ViewOk(v) && 0 < i <= |v.parts| && Matches(r, v)
    ensures var (phase, acks) := C.Taken(Some(r), ReadingAt(v, i).packet);
            && phase.Running? && phase.state.Some? && Matches(phase.state.value, v)
            && Holding(Some(r)) <= Held(phase)
            && v.first + i in Held(phase) && acks == [EncodeAck(v.first + i)]
  {
    if i < |v.parts| {
      InsertingPart(r, v, i);
    }
  }

  lemma InsertingPart(r: C.Partial, v: View, i: nat)
    requires ViewOk(v) && 0 < i < |v.parts| && Matches(r, v)
    ensures var r' := C.Inserted(r, v.first + i, v.parts[i]);
            Matches(r', v) && r'.eof == r.eof && r'.chunks.Keys == r.chunks.Keys + {v.first + i}
  {
  }

  /** One packet keeps the reassembly made of its response, and what it draws an
      acknowledgement for is then held. */
  lemma TakingPart(state: Option<C.Partial>, v: View, i: nat)
    requires ViewOk(v) && i <= |v.parts| && ReadingAt(v, i).Got? && StateOk(state, Some(v))
    ensures var (phase, acks) := C.Taken(state, ReadingAt(v, i).packet);
            && phase.Running? && StateOk(phase.state, Some(v))
            && Holding(state) <= Held(phase)
            && (state.Some? || i == 0 ==> v.first + i in Held(phase) && acks == [EncodeAck(v.first + i)])
            && (state.None? && i > 0 ==> phase.state.None? && acks == [])
  {
    if i == 0 {
      TakingFirst(state, v);
    } else if state.Some? {
      TakingLater(state.value, v, i);
    }
  }

  /** A complete reassembly is the response expected. */
  lemma CompleteIsExpected(r: C.Partial, v: View)
    requires Matches(r, v) && C.Complete(r)
    ensures Success(r.mime, C.Body(r.chunks)) == Expected(v)
  {
    C.BodyOfRange(r.chunks, v.first, v.parts);
  }

  /** A reassembly that holds every number of its response is complete. */
  lemma AllHeldIsComplete(r: C.Partial, v: View)
    requires Matches(r, v)
    requires forall q :: v.first <= q <= v.first + |v.parts| ==> q in Holding(Some(r))
    ensures C.Complete(r)
  {
    var end := v.first + |v.parts|;
    assert end in Holding(Some(r));
    assert r.eof == Some(end);
    assert r.contiguousEnd + 1 <= end;
    assert r.contiguousEnd + 1 in Holding(Some(r));
  }

  /** The checks at the head of the loop keep what is known of the state. */
  lemma HeadKeeps(state: Option<C.Partial>, maxBody: nat, view: Option<View>)
    requires StateOk(state, view)
    ensures PhaseOk(C.Head(state, maxBody), view)
    ensures C.StateOf(C.Head(state, maxBody)) == state
  {
    if state.Some? && C.Complete(state.value) {
      CompleteIsExpected(state.value, view.value);
    }
  }

  lemma TurnKeepsPhase(state: Option<C.Partial>, request: Bytes, maxBody: nat, view: Option<View>, reading: C.Reading)
    requires view.Some? ==> ViewOk(view.value)
    requires PhaseOk(C.Running(state), view) && Possible(view, reading)
    ensures var (phase, sent) := C.Turn(state, request, maxBody, reading);
            PhaseOk(phase, view) && Holding(state) <= Held(phase) && AreAcksOf(AsSet(sent), Held(phase), request)
  {
    if reading.Got? && !IsSpecial(reading.packet) {
      var i :| 0 <= i <= |view.value.parts| && reading == ReadingAt(view.value, i);
      TakingPart(state, view.value, i);
      HeadKeeps(C.Taken(state, reading.packet).0.state, maxBody, view);
    } else {
      HeadKeeps(state, maxBody, view);
      if reading.Quiet? && state.Some? {
        assert state.value.contiguousEnd in state.value.chunks;
      }
    }
  }

  lemma TurnKeepsInv(w: World, reading: C.Reading)
    requires Inv(w) && w.client.Running? && Possible(FirstView(w.builds), reading)
    ensures Inv(ClientTurn(w, reading))
  {
    if w.builds != [] {
      GoodBuildViewOk(w.builds[0]);
    }
    TurnKeepsPhase(w.client.state, w.request, w.maxBody, FirstView(w.builds), reading);
  }

  // ------------------------------------------------------- the server's steps

  lemma BuildIsGood(cfg: S.Config, answer: S.Answer, hash: nat)
    requires S.Fits(answer, cfg) && answer.Handled? && answer.response.Success?
    ensures GoodBuild(BuildFor(cfg, answer, hash))
    ensures Packets(BuildFor(cfg, answer, hash)) ==
            S.ResponsePackets(answer.response.mime, answer.response.body, cfg.chunkSize, hash)
  {
    CountAsPredicted(answer.response.body, Max(cfg.chunkSize, 1));
  }

  // A response of the server's is never more than its packets on the wire.

  lemma BatchIsOfBuild(builds: seq<Build>, packets: seq<Numbered>, lo: nat, hi: nat, d: Bytes)
    requires AllGood(builds) && |builds| >= 1 && packets == Packets(builds[0])
    requires lo <= hi <= |packets| && d in Wires(packets[lo..hi])
    ensures IsWireOf(d, builds)
  {
    var batch := packets[lo..hi];
    var i :| 0 <= i < |batch| && Wires(batch)[i] == d;
    assert packets[lo + i].wire == d;
  }

  lemma {:induction false} InFlightIsOfPackets(packets: seq<Numbered>, unacked: set<nat>, d: Bytes)
    requires d in InFlight(packets, unacked)
    ensures exists i :: 0 <= i < |packets| && packets[i].wire == d
  {
    if packets != [] {
      var front := packets[..|packets| - 1];
      if d in InFlight(front, unacked) {
        InFlightIsOfPackets(front, unacked, d);
        var i :| 0 <= i < |front| && front[i].wire == d;
        assert packets[i].wire == d;
      } else {
        assert packets[|packets| - 1].wire == d;
      }
    }
  }

  /** Sending more keeps everything acknowledged held. */
  lemma SendingKeepsHeld(s: Live, next: nat, now: nat, held: set<nat>)
    requires AckedIsHeld(s, held) && s.nextUnsent <= next <= |s.packets|
    ensures Valid(SentUpTo(s, next, now)) && AckedIsHeld(SentUpTo(s, next, now), held)
  {
    SendingKeepsValid(s, next, now);
    BatchNumbers(s, next);
  }

  /** An acknowledgement of something held leaves only held numbers acknowledged. */
  lemma AcknowledgingKeepsHeld(s: Live, number: nat, window: nat, budget: nat, now: nat, held: set<nat>)
    requires AckedIsHeld(s, held) && number in held
    ensures Valid(Acknowledged(s, number, window, budget, now).0)
    ensures AckedIsHeld(Acknowledged(s, number, window, budget, now).0, held)
    ensures Acknowledged(s, number, window, budget, now).0.packets == s.packets
  {
    hide SentUpTo, Wires, Numbers;
    AcknowledgingKeepsValid(s, number, window, budget, now);
    var s' := s.(unacked := s.unacked - {number});
    if !(s'.nextUnsent == |s'.packets| && s'.unacked == {}) {
      assert Valid(s') && AckedIsHeld(s', held);
      SentPackets(s', s'.nextUnsent + Opening(s', window, budget), now);
      SendingKeepsHeld(s', s'.nextUnsent + Opening(s', window, budget), now, held);
    }
  }

  lemma SentPackets(s: SessionState, next: nat, now: nat)
    requires s.nextUnsent <= next <= |s.packets|
    ensures SentUpTo(s, next, now).packets == s.packets
  {
  }

  /** Whatever an acknowledgement sends is a batch of the response's packets. */
  lemma AcknowledgedSends(s: Live, number: nat, window: nat, budget: nat, now: nat, builds: seq<Build>, d: Bytes)
    requires AllGood(builds) && |builds| >= 1 && s.packets == Packets(builds[0])
    requires d in Acknowledged(s, number, window, budget, now).1
    ensures IsWireOf(d, builds)
  {
    hide SentUpTo, Wires, PacketsOf;
    var s' := s.(unacked := s.unacked - {number});
    BatchIsOfBuild(builds, s.packets, s.nextUnsent, s.nextUnsent + Opening(s', window, budget), d);
  }

  lemma NewSessionHeld(packets: seq<Numbered>, window: nat, budget: nat, now: nat, held: set<nat>)
    requires |packets| >= 2 && WellNumbered(packets)
    ensures var s := WindowOpened(NewSession(packets, now), window, budget, now).0;
            Valid(s) && AckedIsHeld(s, held)
  {
    var s := NewSession(packets, now);
    OpeningKeepsValid(s, window, budget, now);
    BatchNumbers(s, Opening(s, window, budget));
  }

  /** What the server makes of a datagram, once read. */
  lemma AckReceived(session: Option<Live>, cfg: S.Config, number: nat, now: nat,
                    full: bool, answer: S.Answer, hash: nat, budget: nat)
    requires number < U32_LIMIT && S.Fits(answer, cfg)
    ensures var r := S.Received(session, cfg, EncodeAck(number), now, full, answer, hash, budget);
            || r == (session, [])
            || (session.Some? && r == (Some(Acknowledged(session.value, number, cfg.window, budget, now).0),
                                       Acknowledged(session.value, number, cfg.window, budget, now).1))
  {
    AckRoundTrip(number);
  }

  lemma RequestReceived(session: Option<Live>, cfg: S.Config, datagram: Bytes, now: nat,
                        full: bool, answer: S.Answer, hash: nat, budget: nat)
    requires StartsWith(datagram, "guppy:") && S.Fits(answer, cfg)
    ensures var r := S.Received(session, cfg, datagram, now, full, answer, hash, budget);
            || r == (session, [])
            || (session.None? && r == S.Answered(cfg, now, answer, hash, budget))
  {
    RequestIsNotAck(datagram);
  }

  lemma StartedByAnswer(cfg: S.Config, datagram: Bytes, now: nat, full: bool, answer: S.Answer, hash: nat, budget: nat)
    requires S.Fits(answer, cfg)
    requires S.Received(None, cfg, datagram, now, full, answer, hash, budget).0.Some?
    ensures answer.Handled? && answer.response.Success?
    ensures S.Received(None, cfg, datagram, now, full, answer, hash, budget) == S.Answered(cfg, now, answer, hash, budget)
  {
  }

  lemma BuildsStayGood(w: World, a: Action)
    requires Inv(w) && a.ReachServer? && Enabled(w, a)
    ensures var w' := Step(w, a);
            AllGood(w'.builds) && w.builds <= w'.builds && w'.client == w.client && w'.toServer == w.toServer
            && (w.builds != [] ==> FirstView(w'.builds) == FirstView(w.builds))
  {
    var r := S.Received(w.session, w.cfg, a.datagram, a.now, a.full, a.answer, a.hash, a.budget);
    if w.session.None? && r.0.Some? {
      StartedByAnswer(w.cfg, a.datagram, a.now, a.full, a.answer, a.hash, a.budget);
      BuildIsGood(w.cfg, a.answer, a.hash);
    }
  }

  /** What a request without a session draws: a session on the packets of a new
      build, or a single special packet. */
  lemma AnswerIsKnown(cfg: S.Config, now: nat, answer: S.Answer, hash: nat, budget: nat, held: set<nat>)
    requires S.Fits(answer, cfg)
    ensures var (session, sent) := S.Answered(cfg, now, answer, hash, budget);
            if session.Some? then
              var b := BuildFor(cfg, answer, hash);
              && GoodBuild(b) && Valid(session.value) && session.value.packets == Packets(b)
              && AckedIsHeld(session.value, held)
              && forall d :: d in sent ==> IsWireOf(d, [b])
            else
              forall d :: d in sent ==> IsSpecialWire(d)
  {
    if answer.Handled? && answer.response.Success? {
      BuildIsGood(cfg, answer, hash);
      var b := BuildFor(cfg, answer, hash);
      var s := NewSession(Packets(b), now);
      var (session, sent) := WindowOpened(s, cfg.window, budget, now);
      NewSessionHeld(Packets(b), cfg.window, budget, now, held);
      forall d | d in sent ensures IsWireOf(d, [b]) {
        BatchIsOfBuild([b], Packets(b), 0, Opening(s, cfg.window, budget), d);
      }
      assert S.Answered(cfg, now, answer, hash, budget) == (Some(session), sent);
    } else {
      SpecialAnswer(cfg, now, answer, hash, budget);
    }
  }

  lemma SpecialAnswer(cfg: S.Config, now: nat, answer: S.Answer, hash: nat, budget: nat)
    requires S.Fits(answer, cfg) && !(answer.Handled? && answer.response.Success?)
    ensures var (session, sent) := S.Answered(cfg, now, answer, hash, budget);
            session.None? && forall d :: d in sent ==> IsSpecialWire(d)
  {
    var text :=
      match answer
      case MalformedUrl => "Malformed request URL."
      case Handled(PromptFor(t)) => t
      case Handled(RedirectTo(t)) => t
      case Handled(Refusal(t)) => t;
    assert IsSpecialWire(EncodePrompt(text));
    assert IsSpecialWire(EncodeRedirect(text));
    assert IsSpecialWire(EncodeFailure(text));
  }

  /** A new session, or special packets, keep the invariant. */
  lemma ServingKeepsInv(w: World, session: Option<Live>, sent: seq<Bytes>, built: seq<Build>)
    requires Inv(w) && |w.builds| <= 1 && w.session.None?
    requires if session.Some? then
               && |built| == 1 && GoodBuild(built[0]) && session.value.packets == Packets(built[0])
               && AckedIsHeld(session.value, Held(w.client))
               && forall d :: d in sent ==> IsWireOf(d, built)
             else
               built == [] && forall d :: d in sent ==> IsSpecialWire(d)
    ensures Inv(Served(w, session, sent, built))
  {
    if session.None? {
      SpecialServed(w, sent);
    } else if w.builds == [] {
      FirstSession(w, Served(w, session, sent, built));
    } else {
      SecondSession(w, Served(w, session, sent, built), built);
    }
  }

  lemma SpecialServed(w: World, sent: seq<Bytes>)
    requires Inv(w) && |w.builds| <= 1 && w.session.None?
    requires forall d :: d in sent ==> IsSpecialWire(d)
    ensures Inv(Served(w, None, sent, []))
  {
    assert Served(w, None, sent, []).builds == w.builds;
  }

  lemma SecondSession(w: World, w': World, built: seq<Build>)
    requires Inv(w) && |w.builds| == 1 && w.client.Done? && AllGood(built) && |built| == 1
    requires w'.client == w.client && w'.request == w.request && w'.builds == w.builds + built
    requires w'.toServer == w.toServer && w'.session.Some? && AckedIsHeld(w'.session.value, Held(w.client))
    ensures Inv(w')
  {
    assert FirstView(w'.builds) == FirstView(w.builds);
  }

  lemma FirstSession(w: World, w': World)
    requires Inv(w) && w.builds == [] && |w'.builds| == 1 && AllGood(w'.builds) && w'.session.Some?
    requires w' == w.(session := w'.session, toClient := w'.toClient, builds := w'.builds)
    requires w'.session.value.packets == Packets(w'.builds[0]) && AckedIsHeld(w'.session.value, Held(w.client))
    requires forall d :: d in w'.toClient ==> d in w.toClient || IsWireOf(d, w'.builds)
    ensures Inv(w')
  {
    assert C.StateOf(w.client).None?;
    assert forall d :: d in w.toClient ==> IsSpecialWire(d);
  }

  lemma NothingServed(w: World)
    ensures Served(w, w.session, [], []) == w
  {
  }

  /** A request, first or repeated, keeps the invariant. */
  lemma RequestKeepsInv(w: World, a: Action)
    requires Inv(w) && |w.builds| <= 1 && a.ReachServer? && Enabled(w, a) && a.datagram == w.request
    ensures Inv(Step(w, a))
  {
    RequestReceived(w.session, w.cfg, a.datagram, a.now, a.full, a.answer, a.hash, a.budget);
    var r := S.Received(w.session, w.cfg, a.datagram, a.now, a.full, a.answer, a.hash, a.budget);
    if r == (w.session, []) {
      NothingServed(w);
    } else {
      AnswerIsKnown(w.cfg, a.now, a.answer, a.hash, a.budget, Held(w.client));
      var built := if r.0.Some? then [BuildFor(w.cfg, a.answer, a.hash)] else [];
      ServingKeepsInv(w, r.0, r.1, built);
    }
  }

  /** An acknowledgement of a held number keeps the invariant. */
  lemma AckKeepsInv(w: World, a: Action, number: nat)
    requires Inv(w) && |w.builds| <= 1 && a.ReachServer? && Enabled(w, a)
    requires number in Held(w.client) && a.datagram == EncodeAck(number)
    ensures Inv(Step(w, a))
  {
    HeldIsSmall(w, number);
    AckReceived(w.session, w.cfg, number, a.now, a.full, a.answer, a.hash, a.budget);
    var r := S.Received(w.session, w.cfg, a.datagram, a.now, a.full, a.answer, a.hash, a.budget);
    if r == (w.session, []) {
      NothingServed(w);
    } else {
      AcknowledgedKeepsInv(w, number, a.budget, a.now);
    }
  }

  lemma HeldIsSmall(w: World, number: nat)
    requires Inv(w) && number in Held(w.client)
    ensures number <= MAX_SEQ
  {
    GoodBuildViewOk(w.builds[0]);
  }

  lemma AcknowledgedKeepsInv(w: World, number: nat, budget: nat, now: nat)
    requires Inv(w) && |w.builds| <= 1 && w.session.Some? && number in Held(w.client)
    ensures var (s, sent) := Acknowledged(w.session.value, number, w.cfg.window, budget, now);
            Valid(s) && Inv(Served(w, Some(s), sent, []))
  {
    hide Acknowledged, PacketsOf;
    var s := w.session.value;
    AcknowledgingKeepsHeld(s, number, w.cfg.window, budget, now, Held(w.client));
    var (t, sent) := Acknowledged(s, number, w.cfg.window, budget, now);
    forall d | d in sent ensures IsWireOf(d, w.builds) {
      AcknowledgedSends(s, number, w.cfg.window, budget, now, w.builds, d);
    }
    SendingPartsKeepsInv(w, t, sent);
  }

  /** A session that goes on, sending packets of its response. */
  lemma SendingPartsKeepsInv(w: World, s: Live, sent: seq<Bytes>)
    requires Inv(w) && |w.builds| == 1
    requires s.packets == Packets(w.builds[0]) && AckedIsHeld(s, Held(w.client))
    requires forall d :: d in sent ==> IsWireOf(d, w.builds)
    ensures Inv(Served(w, Some(s), sent, []))
  {
    assert Served(w, Some(s), sent, []).builds == w.builds;
  }

  /** Once the server counts everything acknowledged, the client has returned. */
  lemma DoneMeansReturned(w: World)
    requires Inv(w) && |w.builds| <= 1 && w.session.Some? && w.session.value.doneAt.Some?
    ensures w.client.Done?
  {
    DoneMeansAllHeld(w);
  }

  lemma DoneMeansAllHeld(w: World)
    requires Inv(w) && |w.builds| <= 1 && w.session.Some? && w.session.value.doneAt.Some?
    ensures C.StateOf(w.client).Some? && C.Complete(C.StateOf(w.client).value)
  {
    AllAckedMeansComplete(w);
  }

  lemma AllAckedMeansComplete(w: World)
    requires Inv(w) && |w.builds| <= 1 && w.session.Some?
    requires w.session.value.nextUnsent == |w.session.value.packets| && w.session.value.unacked == {}
    ensures C.StateOf(w.client).Some? && C.Complete(C.StateOf(w.client).value)
  {
    var s := w.session.value;
    var v := ViewOf(w.builds[0]);
    GoodBuildViewOk(w.builds[0]);
    forall q | v.first <= q <= v.first + |v.parts| ensures q in Held(w.client) {
      assert s.packets[q - v.first].number == q;
    }
    assert v.first in Held(w.client);
    AllHeldIsComplete(C.StateOf(w.client).value, v);
  }

  lemma TickKeepsInv(w: World, now: nat)
    requires Inv(w) && |w.builds| <= 1 && Enabled(w, ServerTick(now))
    ensures Inv(Step(w, ServerTick(now)))
  {
    if w.session.None? {
      NothingServed(w);
    } else {
      var s := w.session.value;
      if !S.Kept(s, w.cfg, now) {
        if w.client.Running? {
          DoneMeansReturned(w);
        }
      } else if S.RetransmitDue(s, w.cfg, now) {
        var sent := InFlight(s.packets, s.unacked);
        forall d | d in sent ensures IsWireOf(d, w.builds) {
          InFlightIsOfPackets(s.packets, s.unacked, d);
        }
        SendingPartsKeepsInv(w, s.(lastSend := now), sent);
      } else {
        NothingServed(w);
      }
    }
  }

  /** Beyond the first response the client has returned, and what is left to keep is
      the agreement. */
  lemma LaterReceiptKeepsInv(w: World, a: Action)
    requires Inv(w) && |w.builds| >= 2 && a.ReachServer? && Enabled(w, a)
    ensures Inv(Step(w, a))
  {
    BuildsStayGood(w, a);
    LaterReceiptAgrees(w, a);
  }

  lemma LaterReceiptAgrees(w: World, a: Action)
    requires Inv(w) && a.ReachServer? && Enabled(w, a)
    ensures var r := S.Received(w.session, w.cfg, a.datagram, a.now, a.full, a.answer, a.hash, a.budget).0;
            r.Some? ==> Valid(r.value) && AckedIsHeld(r.value, Held(w.client))
  {
    hide ParseClientDatagram, Acknowledged, S.Received, S.Answered, PhaseOk, Linked;
    if a.datagram == w.request {
      RequestReceived(w.session, w.cfg, a.datagram, a.now, a.full, a.answer, a.hash, a.budget);
      AnswerIsKnown(w.cfg, a.now, a.answer, a.hash, a.budget, Held(w.client));
    } else {
      var q :| q in Held(w.client) && a.datagram == EncodeAck(q);
      HeldIsSmall(w, q);
      AckReceived(w.session, w.cfg, q, a.now, a.full, a.answer, a.hash, a.budget);
      if w.session.Some? {
        AcknowledgingKeepsHeld(w.session.value, q, w.cfg.window, a.budget, a.now, Held(w.client));
      }
    }
  }

  /** Every action keeps the invariant. */
  lemma StepKeepsInv(w: World, a: Action)
    requires Inv(w) && Enabled(w, a)
    ensures Inv(Step(w, a))
  {
    match a
    case ReachServer(d, _, _, _, _, _) =>
      BuildsStayGood(w, a);
      if |w.builds| <= 1 {
        if d == w.request {
          RequestKeepsInv(w, a);
        } else {
          var q :| q in Held(w.client) && d == EncodeAck(q);
          AckKeepsInv(w, a, q);
        }
      } else {
        LaterReceiptKeepsInv(w, a);
      }
    case ServerTick(now) =>
      if |w.builds| <= 1 {
        TickKeepsInv(w, now);
      } else {
        assert Step(w, a).builds == w.builds;
      }
    case ReachClient(d) =>
      if w.client.Running? {
        ArrivalIsPossible(w.builds, d);
        TurnKeepsInv(w, C.Read(C.Datagram(d)));
      }
    case ClientQuiet =>
      if w.client.Running? {
        TurnKeepsInv(w, C.Quiet);
      }
    case ClientDeadline =>
  }

  lemma {:induction false} RunKeepsInv(w: World, actions: seq<Action>)
    requires Inv(w) && Run(w, actions).Some?
    ensures Inv(Run(w, actions).value)
  {
    if actions != [] {
      var before := actions[..|actions| - 1];
      RunKeepsInv(w, before);
      StepKeepsInv(Run(w, before).value, actions[|actions| - 1]);
    }
  }

  // ------------------------------------------------------------------- theorems

  lemma StartHasInv(cfg: S.Config, maxBody: nat, url: string)
    requires StartsWith(url, "guppy:")
    ensures Inv(Start(cfg, maxBody, url))
  {
    assert (url + CRLF)[..6] == url[..6];
  }

  /** Every response built was a handler's answer in the run. */
  lemma {:induction false} BuildsComeFromAnswers(w: World, actions: seq<Action>, k: nat)
    requires w.builds == [] && Run(w, actions).Some? && k < |Run(w, actions).value.builds|
    ensures var b := Run(w, actions).value.builds[k];
            exists i :: 0 <= i < |actions| && actions[i].ReachServer?
                        && actions[i].answer == S.Handled(Success(b.mime, b.body))
  {
    var before := actions[..|actions| - 1];
    var v := Run(w, before).value;
    var a := actions[|actions| - 1];
    var b := Run(w, actions).value.builds[k];
    if k < |v.builds| {
      BuildsComeFromAnswers(w, before, k);
      var i :| 0 <= i < |before| && before[i].ReachServer? && before[i].answer == S.Handled(Success(b.mime, b.body));
      assert actions[i] == before[i];
    } else {
      StartedByAnswer(v.cfg, a.datagram, a.now, a.full, a.answer, a.hash, a.budget);
      assert a.answer == S.Handled(Success(b.mime, b.body));
    }
  }

  /** In every run over a losing, duplicating, reordering network, with repeated
      requests, failing local sends and done sessions lingering out: a success is
      made of the first response built and of nothing else, and equals it exactly
      if and only if its MIME type is well formed. */
  lemma EndToEndSafety(cfg: S.Config, maxBody: nat, url: string, actions: seq<Action>, w: World)
    requires StartsWith(url, "guppy:") && Run(Start(cfg, maxBody, url), actions) == Some(w)
    requires w.client.Done? && w.client.outcome.Answer? && w.client.outcome.response.Success?
    ensures |w.builds| >= 1 && GoodBuild(w.builds[0]) && Readable(ViewOf(w.builds[0]))
    ensures w.client.outcome.response == Expected(ViewOf(w.builds[0]))
    ensures w.client.outcome.response == Success(w.builds[0].mime, w.builds[0].body)
            <==> WellFormedMime(w.builds[0].mime)
    ensures exists i :: 0 <= i < |actions| && actions[i].ReachServer?
                        && actions[i].answer == S.Handled(Success(w.builds[0].mime, w.builds[0].body))
  {
    StartHasInv(cfg, maxBody, url);
    RunKeepsInv(Start(cfg, maxBody, url), actions);
    ExpectedIsExact(w.builds[0]);
    BuildsComeFromAnswers(Start(cfg, maxBody, url), actions, 0);
  }

  /** In every reachable state, however many responses have been built: what the
      server counts as acknowledged, the client has received; and a second response
      is built only once the client has returned. For the response the client is
      after, a done session means it holds the whole of it and its end. */
  lemma AckAgreement(cfg: S.Config, maxBody: nat, url: string, actions: seq<Action>, w: World)
    requires StartsWith(url, "guppy:") && Run(Start(cfg, maxBody, url), actions) == Some(w)
    ensures w.session.Some? ==> AckedIsHeld(w.session.value, Held(w.client))
    ensures AllGood(w.builds) && (|w.builds| >= 2 ==> w.client.Done?)
    ensures |w.builds| == 1 && w.session.Some? && w.session.value.doneAt.Some? ==>
              var v := ViewOf(w.builds[0]);
              w.client.Done? && w.client.last.Some? && C.Complete(w.client.last.value)
              && Success(w.client.last.value.mime, C.Body(w.client.last.value.chunks)) == Expected(v)
  {
    StartHasInv(cfg, maxBody, url);
    RunKeepsInv(Start(cfg, maxBody, url), actions);
    if |w.builds| == 1 && w.session.Some? && w.session.value.doneAt.Some? {
      DoneMeansReturned(w);
      DoneMeansAllHeld(w);
      CompleteIsExpected(w.client.last.value, ViewOf(w.builds[0]));
    }
  }
}
