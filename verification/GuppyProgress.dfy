/** How soon a Guppy fetch completes. In a round, one retransmission arrives in
    sequence order and every acknowledgement it draws arrives back. */
module GuppyProgress {
  import opened Text
  import opened Decimal
  import opened GuppyPacket
  import opened GuppySession
  import opened GuppyRun
  import opened GuppyWindow
  import opened GuppyLoad
  import S = GuppyServer
  import C = GuppyClient

  // ----------------------------------------------------------------- one round

  /** The positions of the packets in flight, in order. */
  function Flight(packets: seq<Numbered>, unacked: set<nat>): (indices: seq<nat>)
    ensures Below(indices, |packets|)
  {
    if packets == [] then []
    else
      var last := |packets| - 1;
      Flight(packets[..last], unacked) + if packets[last].number in unacked then [last] else []
  }

  predicate Below(indices: seq<nat>, n: nat) {
    forall j :: 0 <= j < |indices| ==> indices[j] < n
  }

  /** Positions in flight, in ascending order, from the very first one. */
  lemma {:induction false} FlightShape(packets: seq<Numbered>, unacked: set<nat>)
    ensures var indices := Flight(packets, unacked);
            && IsAscending(indices)
            && (forall j :: 0 <= j < |indices| ==> indices[j] < |packets| && packets[indices[j]].number in unacked)
            && (|packets| >= 1 && packets[0].number in unacked ==> indices != [] && indices[0] == 0)
  {
    if packets != [] {
      FlightShape(packets[..|packets| - 1], unacked);
    }
  }

  function WireActions(packets: seq<Numbered>, indices: seq<nat>): seq<Action>
    requires Below(indices, |packets|)
  {
    seq(|indices|, j requires 0 <= j < |indices| => ReachClient(packets[indices[j]].wire))
  }

  /** The acknowledgement of a packet, reaching a server whose sends succeed. */
  function AckAction(s: Live, i: nat, now: nat): Action
    requires i < |s.packets|
  {
    ReachServer(EncodeAck(s.packets[i].number), now, false, S.MalformedUrl, 0, |s.packets|)
  }

  function AckActions(s: Live, indices: seq<nat>, now: nat): seq<Action>
    requires Below(indices, |s.packets|)
  {
    seq(|indices|, j requires 0 <= j < |indices| => AckAction(s, indices[j], now))
  }

  /** A retransmission at `now` that arrives whole and in order, then all the
      acknowledgements it draws; a client that returns on the way sends no more. */
  function Round(w: World, now: nat): Option<World> {
    if w.session.None? || !S.Kept(w.session.value, w.cfg, now) || !S.RetransmitDue(w.session.value, w.cfg, now) then None
    else
      var s := w.session.value;
      var indices := Flight(s.packets, s.unacked);
      match Run(Step(w, ServerTick(now)), WireActions(s.packets, indices))
      case None => None
      case Some(w') => if w'.client.Done? then Some(w') else Run(w', AckActions(s, indices, now))
  }

  /** One round after another until the client returns. */
  function Rounds(w: World, times: seq<nat>): Option<World> {
    if times == [] then Some(w)
    else
      match Rounds(w, times[..|times| - 1])
      case None => None
      case Some(v) => if v.client.Done? then Some(v) else Round(v, times[|times| - 1])
  }

  /** A fetch under way: a readable response, the client waiting for more of it. */
  ghost predicate InProgress(w: World) {
    && Inv(w) && |w.builds| == 1 && Readable(ViewOf(w.builds[0]))
    && w.client.Running? && w.session.Some? && w.cfg.window >= 1
    && |w.session.value.unacked| <= w.cfg.window
  }

  /** A fetch under way whose window is exactly full. */
  ghost predicate UnderWay(w: World) {
    InProgress(w) && WindowFull(w.session.value, w.cfg.window)
  }

  /** A client that has returned without being given up on: with the response; or by
      its own size limit, and then only if `bytes` of payload are over that limit. */
  ghost predicate Returned(w: World, bytes: nat) {
    && Inv(w) && |w.builds| == 1 && w.client.Done?
    && (w.client.outcome == C.Answer(Expected(ViewOf(w.builds[0])))
        || (w.client.outcome == C.BodyTooLarge && bytes > w.maxBody))
  }

  /** The payload bytes a client has taken. */
  function TakenBytes(w: World): nat {
    Buffered(C.StateOf(w.client))
  }

  /** Those, and the ones of the packets not counted as acknowledged. */
  function Total(w: World, v: View): nat
    requires w.session.Some?
  {
    TakenBytes(w) + WeightIn(v, Pending(w.session.value), |w.session.value.packets|)
  }

  // --------------------------------------------------- the retransmission arrives

  lemma {:induction false} RunSnoc(w: World, actions: seq<Action>, j: nat)
    requires j < |actions| && Run(w, actions[..j]).Some? && Enabled(Run(w, actions[..j]).value, actions[j])
    ensures Run(w, actions[..j + 1]) == Some(Step(Run(w, actions[..j]).value, actions[j]))
  {
    assert actions[..j + 1][..j] == actions[..j];
  }

  lemma {:induction false} FlightIsInFlight(packets: seq<Numbered>, unacked: set<nat>)
    ensures var indices := Flight(packets, unacked);
            && |InFlight(packets, unacked)| == |indices|
            && forall j :: 0 <= j < |indices| ==> packets[indices[j]].wire == InFlight(packets, unacked)[j]
  {
    if packets != [] {
      FlightIsInFlight(packets[..|packets| - 1], unacked);
    }
  }

  /** What one packet of the response does when it arrives. */
  ghost predicate Landed(w: World, w': World, number: nat, bytes: nat) {
    && Inv(w') && w' == w.(client := w'.client, toServer := w'.toServer)
    && Held(w.client) <= Held(w'.client) && w.toServer <= w'.toServer
    && number in Held(w'.client) && EncodeAck(number) in w'.toServer
    && TakenBytes(w') <= TakenBytes(w) + bytes
    && (w'.client.Done? ==> Returned(w', TakenBytes(w) + bytes))
  }

  /** A packet of the response arriving at a running client that has started, or
      that it starts, is acknowledged and held. */
  lemma PartArrives(w: World, v: View, i: nat)
    requires Inv(w) && |w.builds| == 1 && v == ViewOf(w.builds[0]) && Readable(v) && w.client.Running?
    requires i < |Packets(w.builds[0])| && (w.client.state.None? ==> i == 0)
    requires Packets(w.builds[0])[i].wire in w.toClient
    ensures Landed(w, Step(w, ReachClient(Packets(w.builds[0])[i].wire)), w.builds[0].first + i, |Part(v, i)|)
  {
    hide ParsePacket, PacketsOf, ViewOf, C.Turn, Linked, PhaseOk, FirstView, Landed, Agreed;
    var b := w.builds[0];
    var d := Packets(b)[i].wire;
    PacketReads(b, i);
    PartLands(w, v, i, C.Read(C.Datagram(d)));
  }

  lemma PartLands(w: World, v: View, i: nat, reading: C.Reading)
    requires Inv(w) && |w.builds| == 1 && v == ViewOf(w.builds[0]) && Readable(v) && w.client.Running?
    requires i <= |Parts(w.builds[0])| && (w.client.state.None? ==> i == 0)
    requires reading == ReadingAt(v, i)
    ensures Landed(w, ClientTurn(w, reading), w.builds[0].first + i, |Part(v, i)|)
  {
    hide Part, Chunks, SeenMime, SeenData, C.Turn, Linked, AreAcksOf, Holding;
    GoodBuildViewOk(w.builds[0]);
    TurnKeepsInv(w, reading);
    PartTurn(w.client.state, w.request, w.maxBody, v, i);
    TurnBytes(w.client.state, w.request, w.maxBody, v, i);
  }

  lemma PartTurn(state: Option<C.Partial>, request: Bytes, maxBody: nat, v: View, i: nat)
    requires ViewOk(v) && Readable(v) && PhaseOk(C.Running(state), Some(v)) && i <= |v.parts| && (state.None? ==> i == 0)
    ensures var (phase, sent) := C.Turn(state, request, maxBody, ReadingAt(v, i));
            && Holding(state) <= Held(phase) && v.first + i in Held(phase) && sent == [EncodeAck(v.first + i)]
            && (phase.Done? ==> phase.outcome == C.BodyTooLarge || phase.outcome == C.Answer(Expected(v)))
  {
    TakingPart(state, v, i);
    HeadKeeps(C.Taken(state, ReadingAt(v, i).packet).0.state, maxBody, Some(v));
  }

  /** A packet taken adds at most its payload to what is buffered, and the size limit
      is passed only by that much. */
  lemma TurnBytes(state: Option<C.Partial>, request: Bytes, maxBody: nat, v: View, i: nat)
    requires |v.parts| >= 1 && Readable(v) && i <= |v.parts| && (state.None? ==> i == 0)
    ensures var phase := C.Turn(state, request, maxBody, ReadingAt(v, i)).0;
            var bytes := Buffered(state) + |Part(v, i)|;
            && Buffered(C.StateOf(phase)) <= bytes
            && (phase.Done? && phase.outcome == C.BodyTooLarge ==> bytes > maxBody)
  {
    hide C.ContiguousEnd;
  }

  /** The delivered prefix of a retransmission: the client has returned, or holds
      and has acknowledged every packet of it. */
  ghost predicate Delivered(w: World, w': World, v: View, indices: seq<nat>, j: nat)
    requires |w.builds| >= 1 && j <= |indices|
  {
    && Inv(w') && w' == w.(client := w'.client, toServer := w'.toServer)
    && TakenBytes(w') <= TakenBytes(w) + Weight(v, indices[..j])
    && (w'.client.Done? ==> Returned(w', TakenBytes(w) + Weight(v, indices[..j])))
    && (w'.client.Running? ==> forall m :: 0 <= m < j ==>
          w.builds[0].first + indices[m] in Held(w'.client) && EncodeAck(w.builds[0].first + indices[m]) in w'.toServer)
  }

  lemma {:induction false} Delivering(w: World, v: View, indices: seq<nat>, j: nat)
    requires Inv(w) && |w.builds| == 1 && v == ViewOf(w.builds[0]) && Readable(v) && w.client.Running? && j <= |indices|
    requires forall m :: 0 <= m < |indices| ==>
               indices[m] < |Packets(w.builds[0])| && Packets(w.builds[0])[indices[m]].wire in w.toClient
    requires w.client.state.None? && indices != [] ==> indices[0] == 0
    ensures var r := Run(w, WireActions(Packets(w.builds[0]), indices)[..j]);
            r.Some? && Delivered(w, r.value, v, indices, j)
  {
    hide ParsePacket, ParseClientDatagram, EncodeAck, ViewOf, PacketsOf, C.Turn, C.Read, Linked, PhaseOk, FirstView, Agreed;
    var packets := Packets(w.builds[0]);
    var actions := WireActions(packets, indices);
    if j > 0 {
      Delivering(w, v, indices, j - 1);
      var u := Run(w, actions[..j - 1]).value;
      assert actions[j - 1] == ReachClient(packets[indices[j - 1]].wire);
      RunSnoc(w, actions, j - 1);
      DeliverOne(w, u, v, indices, j - 1);
    } else {
      assert actions[..0] == [] && indices[..0] == [];
    }
  }

  lemma DeliverOne(w: World, u: World, v: View, indices: seq<nat>, j: nat)
    requires Inv(w) && |w.builds| == 1 && v == ViewOf(w.builds[0]) && Readable(v) && j < |indices|
    requires Delivered(w, u, v, indices, j)
    requires indices[j] < |Packets(w.builds[0])| && Packets(w.builds[0])[indices[j]].wire in w.toClient
    requires w.client.Running? && (w.client.state.None? ==> indices[0] == 0) && (j == 0 ==> u == w)
    ensures Delivered(w, Step(u, ReachClient(Packets(w.builds[0])[indices[j]].wire)), v, indices, j + 1)
  {
    hide ParsePacket, ParseClientDatagram, EncodeAck, ViewOf, PacketsOf, C.Turn, C.Read, Linked, PhaseOk, FirstView, Agreed, Part;
    WeightOfSnoc(v, indices, j);
    if u.client.Running? {
      if j > 0 {
        assert w.builds[0].first + indices[0] in Held(u.client);
      }
      PartArrives(u, v, indices[j]);
    }
  }

  lemma WeightOfSnoc(v: View, indices: seq<nat>, j: nat)
    requires j < |indices|
    ensures Weight(v, indices[..j + 1]) == Weight(v, indices[..j]) + |Part(v, indices[j])|
  {
    assert indices[..j + 1][..j] == indices[..j];
  }

  // ------------------------------------------------ the acknowledgements arrive

  lemma {:induction false} PrintShort(n: nat, digits: nat)
    requires n < Power10(digits) && digits >= 1
    ensures |Print(n)| <= digits
    decreases digits
  {
    if n >= 10 {
      PrintShort(n / 10, digits - 1);
    }
  }

  function Power10(k: nat): nat {
    if k == 0 then 1 else 10 * Power10(k - 1)
  }

  lemma AckIsShort(number: nat)
    requires number <= MAX_SEQ
    ensures |EncodeAck(number)| <= S.MAX_REQUEST_BYTES
  {
    assert Power10(5) == 100_000;
    assert Power10(10) == 100_000 * 100_000 by { assert Power10(8) == 100_000_000; }
    PrintShort(number, 10);
  }

  lemma AckTaken(s: Live, cfg: S.Config, number: nat, now: nat, answer: S.Answer, hash: nat, budget: nat)
    requires number <= MAX_SEQ && S.Fits(answer, cfg)
    ensures var (t, sent) := Acknowledged(s, number, cfg.window, budget, now);
            S.Received(Some(s), cfg, EncodeAck(number), now, false, answer, hash, budget) == (Some(t), sent)
  {
    AckIsShort(number);
    AckRoundTrip(number);
  }

  /** Packets in flight that the client holds, their acknowledgements on the way. */
  ghost predicate AllArrived(w: World, s: Live, indices: seq<nat>) {
    && Below(indices, |s.packets|)
    && forall m :: 0 <= m < |indices| ==>
         && s.packets[indices[m]].number in s.unacked
         && s.packets[indices[m]].number in Held(w.client)
         && EncodeAck(s.packets[indices[m]].number) in w.toServer
  }

  /** The same session, last sent from when it was or now. */
  predicate SameClock(s: Live, t: Live, now: nat) {
    t.created == s.created && (t.lastSend == s.lastSend || t.lastSend == now)
  }

  /** The acknowledged prefix of a round. */
  ghost predicate Counted(w: World, w': World, indices: seq<nat>, now: nat, j: nat)
    requires w.session.Some? && j <= |indices| && Below(indices, |w.session.value.packets|)
  {
    && Inv(w') && w'.session.Some? && w' == w.(session := w'.session, toClient := w'.toClient)
    && SessionCounted(w.session.value, w'.session.value, w.cfg.window, now, j)
    && Pending(w'.session.value) == Pending(w.session.value) - Members(indices[..j])
    && forall m :: j <= m < |indices| ==> w.session.value.packets[indices[m]].number in w'.session.value.unacked
  }

  /** A session `j` acknowledgements of packets in flight later; one is enough to
      fill its window. */
  predicate SessionCounted(s: Live, t: Live, window: nat, now: nat, j: nat) {
    && t.packets == s.packets && |t.unacked| <= window
    && (j > 0 || WindowFull(s, window) ==> WindowFull(t, window))
    && Acked(t) == Acked(s) + j
    && SameClock(s, t, now)
  }

  lemma AckCounts(w: World, i: nat, now: nat)
    requires Inv(w) && |w.builds| == 1 && w.session.Some? && |w.session.value.unacked| <= w.cfg.window
    requires i < |w.session.value.packets| && w.session.value.packets[i].number in w.session.value.unacked
    requires w.session.value.packets[i].number in Held(w.client)
    requires EncodeAck(w.session.value.packets[i].number) in w.toServer
    ensures var s := w.session.value;
            var a := AckAction(s, i, now);
            var w' := Step(w, a);
            && Enabled(w, a) && Inv(w') && w' == w.(session := w'.session, toClient := w'.toClient)
            && w'.session == Some(Acknowledged(s, s.packets[i].number, w.cfg.window, |s.packets|, now).0)
            && WindowFull(w'.session.value, w.cfg.window) && Acked(w'.session.value) == Acked(s) + 1
  {
    hide ParsePacket, ParseClientDatagram, Acknowledged, ViewOf, PacketsOf, FirstView, PhaseOk, Agreed, Linked;
    var s := w.session.value;
    var number := s.packets[i].number;
    var a := AckAction(s, i, now);
    StepKeepsInv(w, a);
    HeldIsSmall(w, number);
    AckTaken(s, w.cfg, number, now, a.answer, a.hash, a.budget);
    AckFillsWindow(s, number, w.cfg.window, |s.packets|, now);
    AcknowledgingKeepsValid(s, number, w.cfg.window, |s.packets|, now);
    assert w.builds + [] == w.builds;
  }

  lemma OthersStayInFlight(s: Live, number: nat, window: nat, budget: nat, now: nat, q: nat)
    requires q in s.unacked && q != number
    ensures q in Acknowledged(s, number, window, budget, now).0.unacked
  {
  }

  lemma AckKeepsPackets(s: Live, number: nat, window: nat, budget: nat, now: nat)
    ensures Acknowledged(s, number, window, budget, now).0.packets == s.packets
  {
  }

  lemma AckKeepsClock(s: Live, number: nat, window: nat, budget: nat, now: nat)
    requires Valid(Acknowledged(s, number, window, budget, now).0)
    ensures SameClock(s, Acknowledged(s, number, window, budget, now).0, now)
  {
  }

  lemma FullIsWithin(s: Live, window: nat)
    requires WindowFull(s, window)
    ensures |s.unacked| <= window
  {
  }

  lemma CountOne(w: World, u: World, indices: seq<nat>, now: nat, j: nat)
    requires w.session.Some? && |w.builds| == 1 && j < |indices|
    requires AllArrived(w, w.session.value, indices) && IsAscending(indices)
    requires Counted(w, u, indices, now, j)
    ensures var a := AckAction(u.session.value, indices[j], now);
            Enabled(u, a) && Counted(w, Step(u, a), indices, now, j + 1)
  {
    hide ParsePacket, ParseClientDatagram, EncodeAck, Acknowledged, ViewOf, PacketsOf, FirstView, PhaseOk, Linked, Agreed,
         WindowFull, Pending, Members;
    var s := u.session.value;
    var i := indices[j];
    var number := s.packets[i].number;
    AckCounts(u, i, now);
    FullIsWithin(Step(u, AckAction(s, i, now)).session.value, w.cfg.window);
    AckKeepsClock(s, number, w.cfg.window, |s.packets|, now);
    AckKeepsPackets(s, number, w.cfg.window, |s.packets|, now);
    AckLeavesPending(s, i, w.cfg.window, |s.packets|, now);
    assert indices[..j + 1] == indices[..j] + [i];
    MembersOfSnoc(indices[..j], i);
    forall m | j < m < |indices|
      ensures s.packets[indices[m]].number in Step(u, AckAction(s, i, now)).session.value.unacked
    {
      OthersStayInFlight(s, number, w.cfg.window, |s.packets|, now, s.packets[indices[m]].number);
    }
  }

  lemma {:induction false} Counting(w: World, indices: seq<nat>, now: nat, j: nat)
    requires Inv(w) && |w.builds| == 1 && w.session.Some? && |w.session.value.unacked| <= w.cfg.window && j <= |indices|
    requires AllArrived(w, w.session.value, indices) && IsAscending(indices)
    ensures var r := Run(w, AckActions(w.session.value, indices, now)[..j]);
            r.Some? && Counted(w, r.value, indices, now, j)
  {
    hide ParsePacket, ParseClientDatagram, EncodeAck, Acknowledged, ViewOf, PacketsOf, FirstView, PhaseOk, Linked, Agreed,
         WindowFull, Step, Pending;
    var s := w.session.value;
    var actions := AckActions(s, indices, now);
    if j > 0 {
      Counting(w, indices, now, j - 1);
      var u := Run(w, actions[..j - 1]).value;
      CountOne(w, u, indices, now, j - 1);
      assert actions[j - 1] == AckAction(s, indices[j - 1], now) == AckAction(u.session.value, indices[j - 1], now);
      RunSnoc(w, actions, j - 1);
    } else {
      assert actions[..0] == [] && indices[..0] == [];
      assert Pending(s) - Members([]) == Pending(s);
    }
  }

  // ------------------------------------------------------------- a whole round

  function Under(numbers: set<nat>, bound: nat): set<nat> {
    set q | q in numbers && q < bound
  }

  lemma UnderNext(numbers: set<nat>, n: nat)
    ensures |Under(numbers, n + 1)| == |Under(numbers, n)| + if n in numbers then 1 else 0
  {
    assert Under(numbers, n + 1) == if n in numbers then Under(numbers, n) + {n} else Under(numbers, n);
  }

  lemma {:induction false} FlightSize(packets: seq<Numbered>, unacked: set<nat>, lo: nat)
    requires forall i :: 0 <= i < |packets| ==> packets[i].number == lo + i
    requires forall q :: q in unacked ==> lo <= q
    ensures |Flight(packets, unacked)| == |Under(unacked, lo + |packets|)|
  {
    if packets == [] {
      assert Under(unacked, lo) == {};
    } else {
      var last := |packets| - 1;
      var front := packets[..last];
      assert forall i :: 0 <= i < |front| ==> front[i] == packets[i];
      hide Under;
      FlightSize(front, unacked, lo);
      UnderNext(unacked, lo + last);
    }
  }

  /** As many packets are retransmitted as are in flight. */
  lemma FlightCount(s: Live)
    ensures |Flight(s.packets, s.unacked)| == |s.unacked|
  {
    hide Flight;
    var first := s.packets[0].number;
    FlightSize(s.packets, s.unacked, first);
    assert Under(s.unacked, first + |s.packets|) == s.unacked;
  }

  /** Before the client has anything, the first packet is in flight. */
  lemma FlightStart(w: World)
    requires InProgress(w) && w.client.state.None? && w.session.value.unacked != {}
    ensures var s := w.session.value;
            Flight(s.packets, s.unacked) != [] && Flight(s.packets, s.unacked)[0] == 0
  {
    hide ParsePacket, ParseClientDatagram, EncodeAck, ViewOf, PacketsOf, Flight, FirstView, Linked, PhaseOk;
    var s := w.session.value;
    assert Held(w.client) == {};
    FirstInFlight(s);
    FlightShape(s.packets, s.unacked);
  }

  lemma FirstInFlight(s: Live)
    requires AckedIsHeld(s, {}) && s.unacked != {}
    ensures s.packets[0].number in s.unacked
  {
    assert s.nextUnsent > 0;
  }

  /** A client under way is still owed an acknowledgement. */
  lemma NotAllAcked(w: World)
    requires InProgress(w)
    ensures w.session.value.doneAt.None? && Acked(w.session.value) < |w.session.value.packets|
    ensures WindowFull(w.session.value, w.cfg.window) ==> w.session.value.unacked != {}
  {
    hide ViewOf, PhaseOk, PacketsOf, Linked, Agreed;
    var s := w.session.value;
    UnackedBelowSent(s);
    if s.doneAt.Some? {
      DoneMeansReturned(w);
    }
  }

  /** What a round leaves: a returned client; or a full window, with everything that
      was in flight acknowledged and no more bytes to come than before. */
  ghost predicate Advanced(w: World, w': World, v: View, now: nat)
    requires w.session.Some?
  {
    && w'.builds == w.builds && w'.cfg == w.cfg && w'.maxBody == w.maxBody
    && (Returned(w', Total(w, v)) || (
        && UnderWay(w')
        && w'.session.value.packets == w.session.value.packets
        && w'.session.value.created == w.session.value.created && w'.session.value.lastSend == now
        && Acked(w'.session.value) == Acked(w.session.value) + |w.session.value.unacked|
        && Total(w', v) <= Total(w, v)))
  }

  /** Every due round with something in flight either ends with the client returned or
      has all that was in flight acknowledged; with a full window that is min(window,
      remaining) packets. It fills the window, whatever local sends failed before. */
  lemma RoundAdvances(w: World, now: nat)
    requires InProgress(w) && w.session.value.unacked != {}
    requires S.Kept(w.session.value, w.cfg, now) && S.RetransmitDue(w.session.value, w.cfg, now)
    ensures Round(w, now).Some? && Advanced(w, Round(w, now).value, ViewOf(w.builds[0]), now)
    ensures WindowFull(w.session.value, w.cfg.window) ==>
              |w.session.value.unacked| == Min(w.cfg.window, |w.session.value.packets| - Acked(w.session.value))
  {
    hide ParsePacket, ParseClientDatagram, EncodeAck, ViewOf, PacketsOf, C.Turn, C.Read, Linked, PhaseOk, FirstView, Agreed,
         Flight, Run, WireActions, AckActions, Pending, Returned, TakenBytes, Total, Advanced, WeightIn, Weight, Members;
    var s := w.session.value;
    var v := ViewOf(w.builds[0]);
    var indices := Flight(s.packets, s.unacked);
    var w1 := Step(w, ServerTick(now));
    TickSends(w, now);
    FlightShape(s.packets, s.unacked);
    if w.client.state.None? {
      FlightStart(w);
    }
    DeliveringAll(w1, v, indices);
    var w2 := Run(w1, WireActions(s.packets, indices)).value;
    RoundEnds(w, w1, w2, v, indices, now);
  }

  /** The second half of a round: its acknowledgements, unless the client returned. */
  lemma RoundEnds(w: World, w1: World, w2: World, v: View, indices: seq<nat>, now: nat)
    requires InProgress(w) && w.session.value.unacked != {} && v == ViewOf(w.builds[0])
    requires var s := w.session.value;
             && indices == Flight(s.packets, s.unacked) && s.packets == Packets(w.builds[0])
             && w1 == w.(session := Some(s.(lastSend := now)), toClient := w1.toClient)
    requires Delivered(w1, w2, v, indices, |indices|)
    requires TakenBytes(w2) <= TakenBytes(w1) + Weight(v, indices)
    requires w2.client.Done? ==> Returned(w2, TakenBytes(w1) + Weight(v, indices))
    ensures w2.client.Done? ==> Advanced(w, w2, v, now)
    ensures w2.client.Running? ==>
              var r := Run(w2, AckActions(w.session.value, indices, now));
              r.Some? && Advanced(w, r.value, v, now)
  {
    hide ParsePacket, ParseClientDatagram, EncodeAck, ViewOf, PacketsOf, C.Turn, C.Read, Linked, PhaseOk, FirstView, Agreed,
         Flight, Run, AckActions, Pending, Returned, WeightIn, Weight, Members, WindowFull;
    var s := w.session.value;
    FlightShape(s.packets, s.unacked);
    FlightWeight(w, w1, v, indices, now);
    if w2.client.Running? {
      FlightCount(s);
      FlightArrived(w2, s, indices);
      RoundCounts(w2, v, indices, now);
      TimerLeavesAcks(s, indices, now);
      TimerLeavesWindow(s, w.cfg.window, now);
      PendingSameTimer(s, now);
      var w3 := Run(w2, AckActions(s, indices, now)).value;
      TotalAfterRound(w, w1, w2, w3, v, indices);
    } else {
      ReturnedWithin(w2, TakenBytes(w1) + Weight(v, indices), Total(w, v));
    }
  }

  lemma PendingSameTimer(s: Live, now: nat)
    ensures Pending(s.(lastSend := now)) == Pending(s)
  {
  }

  lemma ReturnedWithin(w: World, fewer: nat, more: nat)
    requires Returned(w, fewer) && fewer <= more
    ensures Returned(w, more)
  {
  }

  /** What is retransmitted weighs no more than what is pending. */
  lemma FlightWeight(w: World, w1: World, v: View, indices: seq<nat>, now: nat)
    requires w.session.Some? && indices == Flight(w.session.value.packets, w.session.value.unacked)
    requires w1.client == w.client
    requires w1.session == Some(w.session.value.(lastSend := now))
    ensures TakenBytes(w1) + Weight(v, indices) <= Total(w, v) == Total(w1, v)
    ensures WeightIn(v, Pending(w.session.value) - Members(indices), |w.session.value.packets|) + Weight(v, indices)
            == WeightIn(v, Pending(w.session.value), |w.session.value.packets|)
  {
    hide Flight, WeightIn, Weight;
    var s := w.session.value;
    FlightShape(s.packets, s.unacked);
    assert Pending(w1.session.value) == Pending(s);
    WeightOut(v, Pending(s), |s.packets|, indices);
  }

  lemma TotalAfterRound(w: World, w1: World, w2: World, w3: World, v: View, indices: seq<nat>)
    requires w.session.Some? && w3.session.Some? && w3.session.value.packets == w.session.value.packets
    requires TakenBytes(w1) == TakenBytes(w) && TakenBytes(w3) == TakenBytes(w2) <= TakenBytes(w1) + Weight(v, indices)
    requires Pending(w3.session.value) == Pending(w.session.value) - Members(indices)
    requires WeightIn(v, Pending(w.session.value) - Members(indices), |w.session.value.packets|) + Weight(v, indices)
             == WeightIn(v, Pending(w.session.value), |w.session.value.packets|)
    ensures Total(w3, v) <= Total(w, v)
  {
  }

  lemma TimerLeavesAcks(s: Live, indices: seq<nat>, now: nat)
    requires Below(indices, |s.packets|)
    ensures AckActions(s.(lastSend := now), indices, now) == AckActions(s, indices, now)
  {
    hide Valid, EncodeAck;
  }

  lemma FlightArrived(w: World, s: Live, indices: seq<nat>)
    requires |w.builds| == 1 && AllGood(w.builds) && s.packets == Packets(w.builds[0])
    requires Below(indices, |s.packets|)
    requires forall m :: 0 <= m < |indices| ==>
               && s.packets[indices[m]].number in s.unacked
               && w.builds[0].first + indices[m] in Held(w.client)
               && EncodeAck(w.builds[0].first + indices[m]) in w.toServer
    ensures AllArrived(w, s, indices)
  {
  }

  lemma DeliveringAll(w: World, v: View, indices: seq<nat>)
    requires Inv(w) && |w.builds| == 1 && v == ViewOf(w.builds[0]) && Readable(v) && w.client.Running?
    requires forall m :: 0 <= m < |indices| ==>
               indices[m] < |Packets(w.builds[0])| && Packets(w.builds[0])[indices[m]].wire in w.toClient
    requires w.client.state.None? && indices != [] ==> indices[0] == 0
    ensures var r := Run(w, WireActions(Packets(w.builds[0]), indices));
            r.Some? && Delivered(w, r.value, v, indices, |indices|)
            && TakenBytes(r.value) <= TakenBytes(w) + Weight(v, indices)
            && (r.value.client.Done? ==> Returned(r.value, TakenBytes(w) + Weight(v, indices)))
  {
    hide ParsePacket, ParseClientDatagram, EncodeAck, ViewOf, PacketsOf, C.Turn, C.Read, Linked, PhaseOk, FirstView, Agreed, Run,
         Returned;
    hide TakenBytes, Weight, Readable;
    Delivering(w, v, indices, |indices|);
    var actions := WireActions(Packets(w.builds[0]), indices);
    assert actions[..|indices|] == actions && indices[..|indices|] == indices;
  }

  /** All the acknowledgements of a round, counted. */
  lemma RoundCounts(w: World, v: View, indices: seq<nat>, now: nat)
    requires InProgress(w) && v == ViewOf(w.builds[0])
    requires w.session.value.lastSend == now
    requires AllArrived(w, w.session.value, indices)
    requires IsAscending(indices) && |indices| == |w.session.value.unacked| >= 1
    ensures var s := w.session.value;
            var r := Run(w, AckActions(s, indices, now));
            r.Some? && UnderWay(r.value) && r.value == w.(session := r.value.session, toClient := r.value.toClient)
            && var t := r.value.session.value;
               && t.packets == s.packets && t.created == s.created && t.lastSend == now
               && Acked(t) == Acked(s) + |s.unacked|
               && Pending(t) == Pending(s) - Members(indices)
  {
    hide ParsePacket, ParseClientDatagram, EncodeAck, ViewOf, PacketsOf, C.Turn, C.Read, Linked, PhaseOk, FirstView, Agreed, Run,
         Pending, Members, WindowFull;
    Counting(w, indices, now, |indices|);
    var acks := AckActions(w.session.value, indices, now);
    assert acks[..|indices|] == acks && indices[..|indices|] == indices;
  }

  /** A due tick sends the packets in flight and changes nothing else but the timer. */
  lemma TickSends(w: World, now: nat)
    requires InProgress(w) && S.Kept(w.session.value, w.cfg, now) && S.RetransmitDue(w.session.value, w.cfg, now)
    ensures var s := w.session.value;
            var w' := Step(w, ServerTick(now));
            && Inv(w') && w' == w.(session := Some(s.(lastSend := now)), toClient := w'.toClient)
            && s.packets == Packets(w.builds[0])
            && AckedIsHeld(s, Held(w.client))
            && forall m :: 0 <= m < |Flight(s.packets, s.unacked)| ==>
                 s.packets[Flight(s.packets, s.unacked)[m]].wire in w'.toClient
  {
    hide ParsePacket, ParseClientDatagram, EncodeAck, ViewOf, PacketsOf, C.Turn, C.Read, PhaseOk, FirstView;
    var s := w.session.value;
    StepKeepsInv(w, ServerTick(now));
    FlightIsInFlight(s.packets, s.unacked);
    assert w.builds + [] == w.builds;
    forall m | 0 <= m < |Flight(s.packets, s.unacked)|
      ensures s.packets[Flight(s.packets, s.unacked)[m]].wire in Step(w, ServerTick(now)).toClient
    {
      assert InFlight(s.packets, s.unacked)[m] in AsSet(InFlight(s.packets, s.unacked));
    }
  }

  // ---------------------------------------------------------- the whole bound

  /** Times at which a session is due, one after another, and not yet expired. */
  predicate OnTime(s: Live, cfg: S.Config, times: seq<nat>) {
    && (forall i :: 0 <= i < |times| ==> times[i] <= s.created + cfg.sessionTimeout)
    && (forall i :: 0 <= i < |times| ==>
          times[i] >= LastSend(s, times[..i]) + cfg.retransmitAfter || cfg.retransmitAfter == 0)
  }

  /** When a session last sent, after rounds at the times given. */
  function LastSend(s: Live, times: seq<nat>): nat {
    if times == [] then s.lastSend else times[|times| - 1]
  }

  /** Where rounds at the times given have brought a fetch. */
  ghost predicate Progressed(w: World, u: World, v: View, times: seq<nat>)
    requires w.session.Some?
  {
    && u.builds == w.builds && u.cfg == w.cfg && u.maxBody == w.maxBody
    && (Returned(u, Total(w, v)) || (
        && UnderWay(u)
        && u.session.value.packets == w.session.value.packets
        && u.session.value.created == w.session.value.created
        && u.session.value.lastSend == LastSend(w.session.value, times)
        && Acked(u.session.value) >=
           Min(|w.session.value.packets|, Acked(w.session.value) + |times| * w.cfg.window)
        && Total(u, v) <= Total(w, v)))
  }

  lemma {:induction false} RoundsProgress(w: World, times: seq<nat>)
    requires UnderWay(w) && OnTime(w.session.value, w.cfg, times)
    ensures Rounds(w, times).Some? && Progressed(w, Rounds(w, times).value, ViewOf(w.builds[0]), times)
  {
    var v := ViewOf(w.builds[0]);
    hide Inv, ViewOf, Round, WindowFull, Returned, Total;
    if times != [] {
      var k := |times| - 1;
      EarlierOnTime(w.session.value, w.cfg, times);
      RoundsProgress(w, times[..k]);
      OneMoreRound(w, Rounds(w, times[..k]).value, v, times);
    }
  }

  lemma EarlierOnTime(s: Live, cfg: S.Config, times: seq<nat>)
    requires OnTime(s, cfg, times) && times != []
    ensures OnTime(s, cfg, times[..|times| - 1])
  {
    var before := times[..|times| - 1];
    assert forall i :: 0 <= i < |before| ==> before[..i] == times[..i];
  }

  lemma OneMoreRound(w: World, u: World, v: View, times: seq<nat>)
    requires UnderWay(w) && v == ViewOf(w.builds[0]) && OnTime(w.session.value, w.cfg, times) && times != []
    requires Progressed(w, u, v, times[..|times| - 1])
    ensures var now := times[|times| - 1];
            u.client.Running? ==> Round(u, now).Some?
    ensures var now := times[|times| - 1];
            Progressed(w, if u.client.Done? then u else Round(u, now).value, v, times)
  {
    hide Inv, ViewOf, Round, Total, WindowFull;
    if u.client.Running? {
      var now := times[|times| - 1];
      NotAllAcked(u);
      RoundAdvances(u, now);
      Distribute(|times| - 1, w.cfg.window);
      var u' := Round(u, now).value;
      if u'.client.Done? {
        ReturnedWithin(u', Total(u, v), Total(w, v));
      }
    }
  }

  lemma Distribute(k: nat, window: nat)
    ensures (k + 1) * window == k * window + window
  {
  }

  // -------------------------------------------------------------- the theorem

  /** A reachable fetch of a readable response, its client still waiting. */
  ghost predicate Fetching(cfg: S.Config, maxBody: nat, url: string, actions: seq<Action>, w: World) {
    && StartsWith(url, "guppy:") && cfg.window >= 1
    && Run(Start(cfg, maxBody, url), actions) == Some(w)
    && |w.builds| == 1 && AllGood(w.builds) && Readable(ViewOf(w.builds[0])) && w.client.Running?
  }

  lemma FetchingInProgress(cfg: S.Config, maxBody: nat, url: string, actions: seq<Action>, w: World)
    requires Fetching(cfg, maxBody, url, actions, w)
    ensures InProgress(w) && w.cfg == cfg && w.maxBody == maxBody && w.session.value.packets == Packets(w.builds[0])
  {
    hide Run, ViewOf, PacketsOf, PhaseOk, Agreed;
    StartHasInv(cfg, maxBody, url);
    RunKeepsInv(Start(cfg, maxBody, url), actions);
    RunLeavesWindow(Start(cfg, maxBody, url), actions, false);
  }

  /** No more bytes can still be taken than those taken and the whole response. */
  lemma TotalBound(w: World, v: View)
    requires w.session.Some?
    ensures Total(w, v) <= TakenBytes(w) + |Concat(v.parts)|
  {
    PendingWeight(w.session.value, v);
  }

  /** The rounds of a fetch whose window is full: once they cover the packets. */
  lemma RoundsComplete(w: World, times: seq<nat>)
    requires UnderWay(w) && OnTime(w.session.value, w.cfg, times)
    requires |times| * w.cfg.window >= |w.session.value.packets|
    ensures Rounds(w, times).Some?
    ensures Rounds(w, times).value.builds == w.builds && Rounds(w, times).value.maxBody == w.maxBody
    ensures Returned(Rounds(w, times).value, Total(w, ViewOf(w.builds[0])))
  {
    var v := ViewOf(w.builds[0]);
    hide Round, Rounds, Inv, ViewOf, WindowFull, Total, Returned;
    RoundsProgress(w, times);
    UnackedBelowSent(w.session.value);
    var u := Rounds(w, times).value;
    if !Returned(u, Total(w, v)) {
      NotAllAcked(u);
    }
  }

  /** From any reachable state in which a readable response is under way and the
      window is full, whatever local sends failed before: rounds at any due times
      before the session expires can all take place, and once there are enough of
      them to cover the packets, in windows, the client has returned; with the
      response, unless what it has taken and the response are over its size limit. */
  lemma CompletionBound(cfg: S.Config, maxBody: nat, url: string, actions: seq<Action>, w: World, times: seq<nat>)
    requires Fetching(cfg, maxBody, url, actions, w)
    requires w.session.Some? && WindowFull(w.session.value, cfg.window) && OnTime(w.session.value, cfg, times)
    requires |times| * cfg.window >= |Packets(w.builds[0])|
    ensures var u := Rounds(w, times);
            && u.Some? && u.value.builds == w.builds && u.value.maxBody == w.maxBody
            && Returned(u.value, TakenBytes(w) + |Concat(ViewOf(w.builds[0]).parts)|)
  {
    hide Run, Round, Rounds, Inv, PacketsOf, WindowFull, Total, Returned, TakenBytes, Readable, OnTime, Concat;
    FetchingInProgress(cfg, maxBody, url, actions, w);
    var v := ViewOf(w.builds[0]);
    hide ViewOf, Fetching, AllGood;
    RoundsComplete(w, times);
    TotalBound(w, v);
    ReturnedWithin(Rounds(w, times).value, Total(w, v), TakenBytes(w) + |Concat(v.parts)|);
  }
}
