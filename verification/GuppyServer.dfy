/** The Guppy server's session table (`serve` in
    `crates/guppy-protocol/src/server.rs`): one session per peer, created by a
    request, driven by acknowledgements and ticks. */
module GuppyServer {
  import opened Text
  import opened GuppyPacket
  import opened GuppySession

  const MAX_REQUEST_BYTES: nat := 2048

  /** Five seconds, in milliseconds, the unit of every instant here. */
  const DONE_LINGER: nat := 5_000

  datatype Config = Config(
    chunkSize: nat,
    window: nat,
    retransmitAfter: nat,
    sessionTimeout: nat,
    maxSessions: nat)

  /** What the unseen URL parser and handler make of a request line. */
  datatype Answer = MalformedUrl | Handled(response: Response)

  /** A response whose packet numbers fit below `MAX_SEQ`. */
  predicate Fits(answer: Answer, cfg: Config) {
    answer.Handled? && answer.response.Success? ==>
      PacketCount(|answer.response.body|, Max(cfg.chunkSize, 1)) < MAX_SEQ - MIN_SEQ
  }

  function ResponsePackets(mime: string, body: Bytes, chunkSize: nat, hash: nat): (packets: seq<Numbered>)
    requires PacketCount(|body|, Max(chunkSize, 1)) < MAX_SEQ - MIN_SEQ
    ensures |packets| >= 2 && WellNumbered(packets)
  {
    var c := Max(chunkSize, 1);
    PacketsOf(FirstNumber(PacketCount(|body|, c), hash), mime, Chunks(body, c))
  }

  /** A response's packets carry its body and nothing else. */
  ghost predicate Carries(packets: seq<Numbered>, mime: string, payloads: seq<Bytes>) {
    && |packets| == |payloads| + 1 >= 2
    && packets[0].wire == EncodeFirst(packets[0].number, mime, payloads[0])
    && (forall i :: 0 < i < |payloads| ==>
          packets[i].wire == EncodeContinuation(packets[i].number, payloads[i]) && payloads[i] != "")
    && packets[|payloads|].wire == EncodeContinuation(packets[|payloads|].number, "")
  }

  /** Chunking: as many packets as predicted, numbered without a gap inside the
      range; the payloads put the body back together, none is over the chunk size,
      and the only empty continuation is the last packet, the end of file. */
  lemma ResponseShape(mime: string, body: Bytes, chunkSize: nat, hash: nat)
    requires PacketCount(|body|, Max(chunkSize, 1)) < MAX_SEQ - MIN_SEQ
    ensures var packets := ResponsePackets(mime, body, chunkSize, hash);
            && |packets| == PacketCount(|body|, Max(chunkSize, 1))
            && (forall i :: 0 <= i < |packets| ==>
                  packets[i].number == packets[0].number + i && 6 <= packets[i].number <= 2_147_483_647)
            && exists payloads :: Carries(packets, mime, payloads) && Concat(payloads) == body
                 && forall i :: 0 <= i < |payloads| ==> |payloads[i]| <= Max(chunkSize, 1)
  {
    hide PacketsOf, Chunks, FirstNumber, PacketCount, Carries;
    var c := Max(chunkSize, 1);
    var chunks := Chunks(body, c);
    var first := FirstNumber(PacketCount(|body|, c), hash);
    CountAsPredicted(body, c);
    ChunksCoverBody(body, c);
    FirstNumberInRange(PacketCount(|body|, c), hash);
    NumbersRise(PacketsOf(first, mime, chunks));
    PacketsCarry(first, mime, chunks);
  }

  lemma FirstNumberInRange(total: nat, hash: nat)
    requires total < MAX_SEQ - MIN_SEQ
    ensures MIN_SEQ <= FirstNumber(total, hash) < MAX_SEQ - total
  {
  }

  lemma NumbersRise(packets: seq<Numbered>)
    requires WellNumbered(packets)
    ensures forall i :: 0 <= i < |packets| ==> packets[i].number == packets[0].number + i
  {
  }

  lemma PacketsCarry(first: nat, mime: string, chunks: seq<Bytes>)
    requires |chunks| >= 1 && forall i :: 0 < i < |chunks| ==> chunks[i] != ""
    ensures Carries(PacketsOf(first, mime, chunks), mime, chunks)
  {
    hide EncodeFirst, EncodeContinuation;
    var packets := PacketsOf(first, mime, chunks);
    forall i | 0 <= i < |packets| ensures packets[i] == PacketAt(first, mime, chunks, i) {
    }
  }

  // ------------------------------------------------- one peer's view of serve

  /** A datagram from the peer. `full` says whether the table is at its limit. */
  function Received(session: Option<SessionState>, cfg: Config, datagram: Bytes, now: nat,
                    full: bool, answer: Answer, hash: nat, budget: nat): (Option<SessionState>, seq<Bytes>)
    requires session.Some? ==> Valid(session.value)
    requires Fits(answer, cfg)
  {
    if |datagram| > MAX_REQUEST_BYTES then (session, [])
    else
      match ParseClientDatagram(datagram)
      case Err(_) => (session, [])
      case Ok(Ack(number)) =>
        if session.None? then (None, [])
        else
          var (s, sent) := Acknowledged(session.value, number, cfg.window, budget, now);
          (Some(s), sent)
      case Ok(Request(_)) =>
        if session.Some? || full then (session, []) else Answered(cfg, now, answer, hash, budget)
  }

  /** A request with no live session: open one, or answer in a single packet. */
  function Answered(cfg: Config, now: nat, answer: Answer, hash: nat, budget: nat): (Option<SessionState>, seq<Bytes>)
    requires Fits(answer, cfg)
  {
    match answer
    case MalformedUrl => (None, [EncodeFailure("Malformed request URL.")])
    case Handled(Success(mime, body)) =>
      var packets := ResponsePackets(mime, body, cfg.chunkSize, hash);
      var (s, sent) := WindowOpened(NewSession(packets, now), cfg.window, budget, now);
      (Some(s), sent)
    case Handled(PromptFor(text)) => (None, [EncodePrompt(text)])
    case Handled(RedirectTo(target)) => (None, [EncodeRedirect(target)])
    case Handled(Refusal(message)) => (None, [EncodeFailure(message)])
  }

  /** `Instant::duration_since`, which saturates at zero. */
  function Elapsed(now: nat, since: nat): nat {
    if now < since then 0 else now - since
  }

  predicate Expired(s: SessionState, cfg: Config, now: nat) {
    Elapsed(now, s.created) > cfg.sessionTimeout
  }

  predicate Lingered(s: SessionState, now: nat) {
    s.doneAt.Some? && Elapsed(now, s.doneAt.value) > DONE_LINGER
  }

  predicate RetransmitDue(s: SessionState, cfg: Config, now: nat) {
    s.doneAt.None? && Elapsed(now, s.lastSend) >= cfg.retransmitAfter
  }

  /** What a tick keeps: neither expired nor lingered out. */
  predicate Kept(s: SessionState, cfg: Config, now: nat) {
    !Expired(s, cfg, now) && !Lingered(s, now)
  }

  /** What a tick does to a kept session: retransmit when due. */
  function Refreshed(s: SessionState, cfg: Config, now: nat): (SessionState, seq<Bytes>) {
    if RetransmitDue(s, cfg, now) then Retransmitted(s, now) else (s, [])
  }

  function Ticked(session: Option<SessionState>, cfg: Config, now: nat): (Option<SessionState>, seq<Bytes>) {
    if session.Some? && Kept(session.value, cfg, now) then
      var (s, sent) := Refreshed(session.value, cfg, now);
      (Some(s), sent)
    else (None, [])
  }

  /** A tick, on the clock: a session is dropped if and only if it is older than the
      timeout, or has been done for more than five seconds; of one that is kept,
      everything in flight goes again, and its timer is set, if and only if it is not
      done and the retransmission time has passed since it last sent. */
  lemma TickOnTheClock(s: SessionState, cfg: Config, now: nat)
    ensures var dropped := now > s.created + cfg.sessionTimeout || (s.doneAt.Some? && now > s.doneAt.value + 5_000);
            var due := s.doneAt.None? && (now >= s.lastSend + cfg.retransmitAfter || cfg.retransmitAfter == 0);
            && Ticked(None, cfg, now) == (None, [])
            && Ticked(Some(s), cfg, now) ==
               if dropped then (None, [])
               else if due then (Some(s.(lastSend := now)), InFlight(s.packets, s.unacked))
               else (Some(s), [])
  {
  }

  /** Both server steps keep a peer's session valid. */
  lemma ServerKeepsValid(session: Option<SessionState>, cfg: Config, datagram: Bytes, now: nat,
                         full: bool, answer: Answer, hash: nat, budget: nat)
    requires session.Some? ==> Valid(session.value)
    requires Fits(answer, cfg)
    ensures var r := Received(session, cfg, datagram, now, full, answer, hash, budget).0;
            r.Some? ==> Valid(r.value)
    ensures var t := Ticked(session, cfg, now).0;
            t.Some? ==> Valid(t.value)
  {
    hide ParseClientDatagram, ResponsePackets, Acknowledged, InFlight;
    if session.Some? {
      match ParseClientDatagram(datagram)
      case Ok(Ack(number)) => AcknowledgingKeepsValid(session.value, number, cfg.window, budget, now);
      case _ =>
    } else if answer.Handled? && answer.response.Success? {
      var packets := ResponsePackets(answer.response.mime, answer.response.body, cfg.chunkSize, hash);
      OpeningKeepsValid(NewSession(packets, now), cfg.window, budget, now);
    }
  }

  // ------------------------------------------------------- the table, in place

  type Peer = nat

  class Server {
    const cfg: Config
    var sessions: map<Peer, Session>

    /** The table's value: what each peer's session holds. */
    ghost function Table(): map<Peer, SessionState>
      reads this, sessions.Values
    {
      map p | p in sessions :: sessions[p].State()
    }

    ghost predicate Consistent()
      reads this, sessions.Values
    {
      && (forall p :: p in sessions ==> Valid(sessions[p].State()))
      && (forall p, q :: p in sessions && q in sessions && p != q ==> sessions[p] != sessions[q])
    }

    ghost function Of(peer: Peer): Option<SessionState>
      reads this, sessions.Values
    {
      if peer in sessions then Some(sessions[peer].State()) else None
    }

    constructor (cfg: Config)
      ensures Consistent() && Table() == map[] && this.cfg == cfg
    {
      this.cfg := cfg;
      sessions := map[];
    }

    /** One received datagram changes its sender's session alone, as the
        one-peer step says, and what it sends goes back to that sender. */
    method Receive(peer: Peer, datagram: Bytes, now: nat, answer: Answer, hash: nat, budget: nat) returns (sent: seq<Bytes>)
      requires Consistent() && Fits(answer, cfg)
      modifies this, sessions.Values
      ensures Consistent()
      ensures (Of(peer), sent) ==
              Received(old(Of(peer)), cfg, datagram, now, old(|sessions|) >= cfg.maxSessions, answer, hash, budget)
      ensures forall p :: p != peer ==> Of(p) == old(Of(p))
    {
      hide ParseClientDatagram, Acknowledged, Answered;
      sent := [];
      if |datagram| > MAX_REQUEST_BYTES {
        return;
      }
      match ParseClientDatagram(datagram)
      case Err(_) =>
      case Ok(Ack(number)) =>
        if peer in sessions {
          AcknowledgingKeepsValid(sessions[peer].State(), number, cfg.window, budget, now);
          sent := sessions[peer].Acknowledge(number, cfg.window, budget, now);
        }
      case Ok(Request(_)) =>
        if peer !in sessions && |sessions| < cfg.maxSessions {
          sent := Open(peer, now, answer, hash, budget);
        }
    }

    /** A request from a peer without a session. */
    method Open(peer: Peer, now: nat, answer: Answer, hash: nat, budget: nat) returns (sent: seq<Bytes>)
      requires Consistent() && Fits(answer, cfg) && peer !in sessions
      modifies this
      ensures Consistent()
      ensures (Of(peer), sent) == Answered(cfg, now, answer, hash, budget)
      ensures forall p :: p != peer ==> Of(p) == old(Of(p))
    {
      hide ResponsePackets, WindowOpened, EncodePrompt, EncodeRedirect, EncodeFailure;
      match answer
      case MalformedUrl =>
        sent := [EncodeFailure("Malformed request URL.")];
      case Handled(Success(mime, body)) =>
        var session;
        session, sent := StartSession(mime, body, now, hash, budget);
        sessions := sessions[peer := session];
      case Handled(PromptFor(text)) =>
        sent := [EncodePrompt(text)];
      case Handled(RedirectTo(target)) =>
        sent := [EncodeRedirect(target)];
      case Handled(Refusal(message)) =>
        sent := [EncodeFailure(message)];
    }

    /** Builds the packets of a response and fills its first window. */
    method StartSession(mime: string, body: Bytes, now: nat, hash: nat, budget: nat) returns (session: Session, sent: seq<Bytes>)
      requires PacketCount(|body|, Max(cfg.chunkSize, 1)) < MAX_SEQ - MIN_SEQ
      ensures fresh(session) && Valid(session.State())
      ensures (session.State(), sent) ==
              WindowOpened(NewSession(ResponsePackets(mime, body, cfg.chunkSize, hash), now), cfg.window, budget, now)
    {
      var packets := BuildPackets(mime, body, cfg.chunkSize, hash);
      session := new Session(packets, now);
      OpeningKeepsValid(NewSession(packets, now), cfg.window, budget, now);
      sent := session.OpenWindow(cfg.window, budget, now);
    }

    /** One tick: the expired and the lingered go, then every session left is
        looked at in turn, and `wires[k]` is what `peers[k]` hears again. */
    method Tick(now: nat) returns (peers: seq<Peer>, wires: seq<seq<Bytes>>)
      requires Consistent()
      modifies this, sessions.Values
      ensures Consistent()
      ensures forall p :: Of(p) == Ticked(old(Of(p)), cfg, now).0
      ensures |wires| == |peers| && Members(peers) == sessions.Keys
      ensures forall k :: 0 <= k < |peers| ==> wires[k] == Ticked(old(Of(peers[k])), cfg, now).1
    {
      hide Refreshed, Kept, Valid, Members;
      Retain(now);
      peers := SessionPeers();
      var each := seq(|peers|, k requires 0 <= k < |peers| && peers[k] in sessions reads this => sessions[peers[k]]);
      wires := RefreshEach(each, cfg, now);
      forall p | p in sessions
        ensures Valid(sessions[p].State()) && Of(p) == Ticked(old(Of(p)), cfg, now).0
      {
        var k :| 0 <= k < |peers| && peers[k] == p;
        assert each[k] == sessions[p];
      }
    }

    method SessionPeers() returns (peers: seq<Peer>)
      ensures Members(peers) == sessions.Keys
      ensures forall j, k :: 0 <= j < k < |peers| ==> peers[j] != peers[k]
      ensures forall k :: 0 <= k < |peers| ==> peers[k] in sessions
      ensures forall p :: p in sessions ==> exists k :: 0 <= k < |peers| && peers[k] == p
    {
      peers := Ascending(sessions.Keys);
      assert forall k :: 0 <= k < |peers| ==> peers[k] in Members(peers);
      assert forall p :: p in sessions ==> p in Members(peers);
    }

    method Retain(now: nat)
      requires Consistent()
      modifies this`sessions
      ensures Consistent() && sessions.Values <= old(sessions.Values)
      ensures forall p :: p in sessions <==> p in old(sessions) && Kept(old(sessions)[p].State(), cfg, now)
      ensures forall p :: p in sessions ==> sessions[p] == old(sessions)[p]
    {
      sessions := map p | p in sessions && Kept(sessions[p].State(), cfg, now) :: sessions[p];
    }
  }

  method RefreshEach(each: seq<Session>, cfg: Config, now: nat) returns (wires: seq<seq<Bytes>>)
    requires forall k :: 0 <= k < |each| ==> Valid(each[k].State())
    requires forall j, k :: 0 <= j < k < |each| ==> each[j] != each[k]
    modifies each
    ensures |wires| == |each|
    ensures forall k :: 0 <= k < |each| ==> Valid(each[k].State())
    ensures forall k :: 0 <= k < |each| ==> (each[k].State(), wires[k]) == Refreshed(old(each[k].State()), cfg, now)
  {
    wires := [];
    for i := 0 to |each|
      invariant |wires| == i
      invariant forall k :: i <= k < |each| ==> each[k].State() == old(each[k].State())
      invariant forall k :: 0 <= k < i ==> (each[k].State(), wires[k]) == Refreshed(old(each[k].State()), cfg, now)
    {
      var sent := [];
      if RetransmitDue(each[i].State(), cfg, now) {
        sent := each[i].Retransmit(now);
      }
      wires := wires + [sent];
    }
  }
}
