/** What failed local sends cost a Guppy fetch. If not even the first packet of a
    response was sent, its client never gets it; if the first was, whatever failed
    after it is made good by one silence of the client or one retransmission. */
module GuppyRecovery {
  import opened Text
  import opened GuppyPacket
  import opened GuppySession
  import opened GuppyRun
  import opened GuppyWindow
  import opened GuppyLoad
  import opened GuppyProgress
  import S = GuppyServer
  import C = GuppyClient

  // ---------------------------------------------------- nothing was ever sent

  /** The response is built and none of it has been sent. */
  predicate Withheld(w: World) {
    |w.builds| == 1 && w.session.Some? && w.session.value.nextUnsent == 0
  }

  /** Then its client has none of it, and none of it is under way. */
  ghost predicate NothingOut(w: World) {
    Withheld(w) ==> C.StateOf(w.client).None? && forall d :: d in w.toClient ==> IsSpecialWire(d)
  }

  lemma SpecialTurn(w: World, d: Bytes)
    requires IsSpecialWire(d) && w.client == C.Running(None)
    ensures var w' := ClientTurn(w, C.Read(C.Datagram(d)));
            && w' == w.(client := w'.client)
            && C.StateOf(w'.client).None?
            && (w'.client.Done? ==> w'.client.outcome.Answer? && !w'.client.outcome.response.Success?)
  {
    hide ParsePacket;
    var text :| d == EncodePrompt(text) || d == EncodeRedirect(text) || d == EncodeFailure(text);
    SpecialReading(text);
    assert w.toServer + AsSet([]) == w.toServer;
  }

  /** Every datagram that can reach a server none of whose response was sent is the
      request, and is ignored. */
  lemma WithheldIgnores(w: World, a: Action)
    requires Inv(w) && NothingOut(w) && Withheld(w) && a.ReachServer? && Enabled(w, a)
    ensures Step(w, a) == w
  {
    hide ParseClientDatagram, PhaseOk, Linked, FirstView, Acknowledged, S.Answered;
    assert Held(w.client) == {};
    RequestReceived(w.session, w.cfg, a.datagram, a.now, a.full, a.answer, a.hash, a.budget);
    NothingServed(w);
  }

  lemma WithheldTicks(w: World, now: nat)
    requires Withheld(w) && Enabled(w, ServerTick(now))
    ensures var w' := Step(w, ServerTick(now));
            && w' == w.(session := w'.session)
            && (w.client.Running? ==> Withheld(w'))
  {
    var s := w.session.value;
    assert s.unacked == {};
    NoneInFlight(s.packets, s.unacked);
    assert w.toClient + AsSet([]) == w.toClient && w.builds + [] == w.builds;
  }

  /** A response just built of which nothing was sent has nothing under way. */
  lemma BuildingSendsNothing(w: World, a: Action)
    requires Inv(w) && w.builds == [] && a.ReachServer? && Enabled(w, a) && Withheld(Step(w, a))
    ensures Step(w, a).toClient == w.toClient
  {
    var r := S.Received(w.session, w.cfg, a.datagram, a.now, a.full, a.answer, a.hash, a.budget);
    StartedByAnswer(w.cfg, a.datagram, a.now, a.full, a.answer, a.hash, a.budget);
    FirstOpeningWires(S.ResponsePackets(a.answer.response.mime, a.answer.response.body, w.cfg.chunkSize, a.hash),
                      w.cfg.window, a.budget, a.now);
    assert w.toClient + AsSet([]) == w.toClient;
  }

  lemma FirstOpeningWires(packets: seq<Numbered>, window: nat, budget: nat, now: nat)
    requires |packets| >= 2 && WellNumbered(packets)
    ensures var (s, sent) := WindowOpened(NewSession(packets, now), window, budget, now);
            s.nextUnsent == 0 ==> sent == []
  {
  }

  lemma StepKeepsNothingOut(w: World, a: Action)
    requires Inv(w) && NothingOut(w) && Enabled(w, a)
    ensures NothingOut(Step(w, a))
  {
    hide ParseClientDatagram, ParsePacket, PhaseOk, FirstView, Acknowledged, S.Answered, S.Received, S.Ticked, C.Turn, Agreed;
    match a
    case ReachServer(_, _, _, _, _, _) =>
      if Withheld(w) {
        WithheldIgnores(w, a);
      } else if Withheld(Step(w, a)) {
        WithheldIsNew(w, a);
        BuildingSendsNothing(w, a);
      }
    case ServerTick(now) =>
      if Withheld(w) {
        WithheldTicks(w, now);
      } else {
        TickOpensNothing(w, now);
      }
    case ReachClient(d) =>
      if Withheld(w) && w.client.Running? {
        SpecialTurn(w, d);
      }
    case ClientQuiet =>
      if Withheld(w) && w.client.Running? {
        QuietTurn(w);
      }
    case ClientDeadline =>
  }

  lemma QuietTurn(w: World)
    requires w.client == C.Running(None)
    ensures Step(w, ClientQuiet) == w.(toServer := w.toServer + {w.request})
  {
    assert AsSet([w.request]) == {w.request};
  }

  lemma TickOpensNothing(w: World, now: nat)
    requires !Withheld(w) && Enabled(w, ServerTick(now))
    ensures !Withheld(Step(w, ServerTick(now)))
  {
  }

  /** A response none of which was sent, where there was none before, is a first one. */
  lemma WithheldIsNew(w: World, a: Action)
    requires Inv(w) && !Withheld(w) && a.ReachServer? && Enabled(w, a) && Withheld(Step(w, a))
    ensures w.builds == [] && C.StateOf(w.client).None? && Step(w, a).client == w.client
    ensures forall d :: d in w.toClient ==> IsSpecialWire(d)
  {
    hide ParseClientDatagram, Agreed;
    assert w.builds + [] == w.builds;
    if w.session.Some? {
      ReceivingMovesOn(w.session.value, w.cfg, a.datagram, a.now, a.full, a.answer, a.hash, a.budget);
    }
  }

  lemma ReceivingMovesOn(s: Live, cfg: S.Config, datagram: Bytes, now: nat, full: bool, answer: S.Answer, hash: nat, budget: nat)
    requires S.Fits(answer, cfg)
    ensures var r := S.Received(Some(s), cfg, datagram, now, full, answer, hash, budget).0;
            r.Some? && r.value.nextUnsent >= s.nextUnsent
  {
    hide ParseClientDatagram;
  }

  lemma {:induction false} RunKeepsNothingOut(w: World, actions: seq<Action>)
    requires Inv(w) && NothingOut(w) && Run(w, actions).Some?
    ensures Inv(Run(w, actions).value) && NothingOut(Run(w, actions).value)
  {
    hide Inv, NothingOut, Step, Enabled;
    if actions != [] {
      var before := actions[..|actions| - 1];
      RunKeepsNothingOut(w, before);
      StepKeepsInv(Run(w, before).value, actions[|actions| - 1]);
      StepKeepsNothingOut(Run(w, before).value, actions[|actions| - 1]);
    }
  }

  /** A client that can never get the response: still waiting for one that is withheld,
      or returned with something else. */
  ghost predicate Stalled(w: World) {
    if w.client.Running? then Inv(w) && NothingOut(w) && Withheld(w)
    else !(w.client.outcome.Answer? && w.client.outcome.response.Success?) && w.client.outcome != C.BodyTooLarge
  }

  lemma StepKeepsStall(w: World, a: Action)
    requires Stalled(w) && Enabled(w, a)
    ensures Stalled(Step(w, a))
  {
    hide ParseClientDatagram, ParsePacket, PhaseOk, FirstView, S.Received, S.Ticked, C.Turn, Agreed, Linked, AllGood, NothingOut, Inv;
    if w.client.Running? {
      StepKeepsInv(w, a);
      StepKeepsNothingOut(w, a);
      WithheldIsNotStarted(w);
      match a
      case ReachServer(_, _, _, _, _, _) => WithheldIgnores(w, a);
      case ServerTick(now) => WithheldTicks(w, now);
      case ReachClient(d) => SpecialTurn(w, d);
      case ClientQuiet => QuietTurn(w);
      case ClientDeadline =>
    }
  }

  lemma WithheldIsNotStarted(w: World)
    requires NothingOut(w) && Withheld(w) && w.client.Running?
    ensures w.client == C.Running(None) && forall d :: d in w.toClient ==> IsSpecialWire(d)
  {
  }

  lemma {:induction false} RunKeepsStall(w: World, actions: seq<Action>)
    requires Stalled(w) && Run(w, actions).Some?
    ensures Stalled(Run(w, actions).value)
  {
    hide Stalled, Step, Enabled;
    if actions != [] {
      RunKeepsStall(w, actions[..|actions| - 1]);
      StepKeepsStall(Run(w, actions[..|actions| - 1]).value, actions[|actions| - 1]);
    }
  }

  /** A first local send that fails is for good: from any reachable state in which the
      response is built, its client waiting, and none of it sent, no continuation
      at all returns a success. */
  lemma FirstSendFailedIsForGood(cfg: S.Config, maxBody: nat, url: string, before: seq<Action>, w: World,
                                 after: seq<Action>, u: World)
    requires StartsWith(url, "guppy:") && Run(Start(cfg, maxBody, url), before) == Some(w)
    requires Withheld(w) && w.client.Running?
    requires Run(w, after) == Some(u)
    ensures u.client.Done? ==> !(u.client.outcome.Answer? && u.client.outcome.response.Success?)
  {
    hide Run, Inv, NothingOut;
    StartHasInv(cfg, maxBody, url);
    StartHasNothingOut(cfg, maxBody, url);
    RunKeepsNothingOut(Start(cfg, maxBody, url), before);
    RunKeepsStall(w, after);
  }

  lemma StartHasNothingOut(cfg: S.Config, maxBody: nat, url: string)
    ensures NothingOut(Start(cfg, maxBody, url))
  {
  }

  // -------------------------------------------------------- the first was sent

  /** A silence of a started client, and its acknowledgement of the stall point
      reaching a server whose sends succeed. */
  function Silence(w: World, now: nat): Option<World> {
    match w.client
    case Running(Some(r)) =>
      var w1 := Step(w, ClientQuiet);
      if w.session.None? then None
      else if w1.client.Done? then Some(w1)
      else Run(w1, [ReachServer(EncodeAck(r.contiguousEnd), now, false, S.MalformedUrl, 0, |w.session.value.packets|)])
    case _ => None
  }

  /** What makes good any failed sends after the first: a round if something is in
      flight, a silence of the client if nothing is. */
  function Recovery(w: World, now: nat): Option<World> {
    if w.session.None? then None
    else if w.session.value.unacked != {} then Round(w, now)
    else Silence(w, now)
  }

  /** What a recovery leaves: a returned client, or a full window and no more bytes to
      come than before. */
  ghost predicate Recovered(w: World, u: World, v: View, now: nat)
    requires w.session.Some?
  {
    && u.builds == w.builds && u.cfg == w.cfg && u.maxBody == w.maxBody
    && (Returned(u, Total(w, v)) || (
        && UnderWay(u)
        && u.session.value.packets == w.session.value.packets
        && u.session.value.created == w.session.value.created && u.session.value.lastSend == now
        && Total(u, v) <= Total(w, v)))
  }

  /** With nothing in flight and something sent, the client has started. */
  lemma SentMeansStarted(w: World)
    requires InProgress(w) && w.session.value.unacked == {} && w.session.value.nextUnsent > 0
    ensures w.client.state.Some? && w.client.state.value.contiguousEnd in Held(w.client)
    ensures !C.Complete(w.client.state.value)
  {
    hide Linked;
    var s := w.session.value;
    assert s.packets[0].number in Held(w.client);
  }

  lemma QuietStarted(w: World)
    requires w.client.Running? && w.client.state.Some? && !C.Complete(w.client.state.value)
    ensures var w1 := Step(w, ClientQuiet);
            var r := w.client.state.value;
            && w1 == w.(client := w1.client, toServer := w1.toServer)
            && EncodeAck(r.contiguousEnd) in w1.toServer && TakenBytes(w1) == TakenBytes(w)
            && (w1.client.Running? ==> w1.client == w.client)
            && (w1.client.Done? ==> w1.client.outcome == C.BodyTooLarge && TakenBytes(w) > w.maxBody)
  {
    hide EncodeAck;
    assert EncodeAck(w.client.state.value.contiguousEnd) in AsSet(C.Resent(w.client.state, w.request));
  }

  /** An acknowledgement that changes nothing in flight still fills the window. */
  lemma StrayAckFills(w: World, number: nat, now: nat)
    requires InProgress(w) && number in Held(w.client) && EncodeAck(number) in w.toServer
    requires number !in w.session.value.unacked
    ensures var s := w.session.value;
            var a := ReachServer(EncodeAck(number), now, false, S.MalformedUrl, 0, |s.packets|);
            var u := Step(w, a);
            && Enabled(w, a) && UnderWay(u) && u == w.(session := u.session, toClient := u.toClient)
            && u.session.value.packets == s.packets && u.session.value.created == s.created
            && u.session.value.lastSend == now && Pending(u.session.value) == Pending(s)
  {
    hide ParsePacket, ParseClientDatagram, EncodeAck, ViewOf, PacketsOf, FirstView, PhaseOk, Agreed, Linked, Pending, WindowFull,
         Acknowledged;
    var s := w.session.value;
    var a := ReachServer(EncodeAck(number), now, false, S.MalformedUrl, 0, |s.packets|);
    StepKeepsInv(w, a);
    HeldIsSmall(w, number);
    AckTaken(s, w.cfg, number, now, a.answer, a.hash, a.budget);
    assert w.builds + [] == w.builds;
    NotAllAcked(w);
    StrayAckIsOpening(s, number, w.cfg.window, |s.packets|, now);
    AcknowledgingKeepsValid(s, number, w.cfg.window, |s.packets|, now);
    AckFillsWindow(s, number, w.cfg.window, |s.packets|, now);
    FullIsWithin(Acknowledged(s, number, w.cfg.window, |s.packets|, now).0, w.cfg.window);
    StrayAckLeavesPending(s, number, w.cfg.window, |s.packets|, now);
  }

  lemma StrayAckIsOpening(s: Live, number: nat, window: nat, budget: nat, now: nat)
    requires number !in s.unacked && s.doneAt.None?
    ensures var t := Acknowledged(s, number, window, budget, now).0;
            t.packets == s.packets && t.created == s.created && t.lastSend == now
  {
    assert s.(unacked := s.unacked - {number}) == s;
  }

  lemma SilenceRecovers(w: World, v: View, now: nat)
    requires InProgress(w) && v == ViewOf(w.builds[0])
    requires w.session.value.unacked == {} && w.session.value.nextUnsent > 0
    ensures Silence(w, now).Some? && Recovered(w, Silence(w, now).value, v, now)
  {
    hide ParsePacket, ParseClientDatagram, EncodeAck, ViewOf, PacketsOf, FirstView, PhaseOk, Agreed, Linked, Pending, WindowFull,
         C.Turn, C.Complete, WeightIn, Returned;
    SentMeansStarted(w);
    QuietStarted(w);
    StepKeepsInv(w, ClientQuiet);
    var r := w.client.state.value;
    var w1 := Step(w, ClientQuiet);
    if w1.client.Done? {
      SizeLimitReturns(w1, Total(w, v));
    } else {
      StrayAckFills(w1, r.contiguousEnd, now);
      var a := ReachServer(EncodeAck(r.contiguousEnd), now, false, S.MalformedUrl, 0, |w.session.value.packets|);
      RunOfOne(w1, a);
    }
  }

  lemma SizeLimitReturns(w: World, bytes: nat)
    requires Inv(w) && |w.builds| == 1 && w.client.Done? && w.client.outcome == C.BodyTooLarge && bytes > w.maxBody
    ensures Returned(w, bytes)
  {
  }

  lemma RunOfOne(w: World, a: Action)
    requires Enabled(w, a)
    ensures Run(w, [a]) == Some(Step(w, a))
  {
    assert [a][..0] == [];
    assert Run(w, []) == Some(w);
  }

  /** Times that suit a session: `now` for its recovery, due where that is a round,
      and the others for rounds after it. */
  predicate Scheduled(s: Live, cfg: S.Config, now: nat, times: seq<nat>) {
    && now <= s.created + cfg.sessionTimeout
    && (s.unacked != {} ==> now >= s.lastSend + cfg.retransmitAfter || cfg.retransmitAfter == 0)
    && OnTime(s.(lastSend := now), cfg, times)
  }

  lemma RecoveryRecovers(w: World, v: View, now: nat, times: seq<nat>)
    requires InProgress(w) && v == ViewOf(w.builds[0]) && w.session.value.nextUnsent > 0
    requires Scheduled(w.session.value, w.cfg, now, times)
    ensures Recovery(w, now).Some? && Recovered(w, Recovery(w, now).value, v, now)
  {
    hide Inv, ViewOf, Round, Silence, Total, WindowFull, Returned, OnTime;
    if w.session.value.unacked != {} {
      NotAllAcked(w);
      RoundAdvances(w, now);
    } else {
      SilenceRecovers(w, v, now);
    }
  }

  lemma {:induction false} RoundsOfReturned(w: World, times: seq<nat>)
    requires w.client.Done?
    ensures Rounds(w, times) == Some(w)
  {
    if times != [] { RoundsOfReturned(w, times[..|times| - 1]); }
  }

  lemma SameSchedule(s: Live, t: Live, cfg: S.Config, now: nat, times: seq<nat>)
    requires OnTime(s.(lastSend := now), cfg, times) && t.created == s.created && t.lastSend == now
    ensures OnTime(t, cfg, times)
  {
    assert forall i :: 0 <= i < |times| ==> LastSend(t, times[..i]) == LastSend(s.(lastSend := now), times[..i]);
  }

  /** From any reachable state in which a readable response is under way and at least
      its first packet was sent, whatever local sends failed since: one silence or one
      round, and then rounds enough to cover the packets, all at due times before the
      session expires, can take place, and the client has returned; with the
      response, unless what it has taken and the response are over its size limit. */
  lemma CompletionAfterFailures(cfg: S.Config, maxBody: nat, url: string, actions: seq<Action>, w: World,
                                now: nat, times: seq<nat>)
    requires Fetching(cfg, maxBody, url, actions, w)
    requires w.session.Some? && w.session.value.nextUnsent > 0 && Scheduled(w.session.value, cfg, now, times)
    requires |times| * cfg.window >= |Packets(w.builds[0])|
    ensures var u := Recovery(w, now);
            u.Some? && Rounds(u.value, times).Some?
            && Rounds(u.value, times).value.builds == w.builds && Rounds(u.value, times).value.maxBody == w.maxBody
            && Returned(Rounds(u.value, times).value, TakenBytes(w) + |Concat(ViewOf(w.builds[0]).parts)|)
  {
    hide Run, Round, Rounds, Inv, PacketsOf, WindowFull, Total, Returned, TakenBytes, Readable, OnTime, Concat, Recovery,
         UnderWay;
    FetchingInProgress(cfg, maxBody, url, actions, w);
    var v := ViewOf(w.builds[0]);
    hide ViewOf, Fetching, AllGood;
    RecoveryRecovers(w, v, now, times);
    TotalBound(w, v);
    FinishFrom(w, Recovery(w, now).value, v, now, times);
    ReturnedWithin(Rounds(Recovery(w, now).value, times).value, Total(w, v), TakenBytes(w) + |Concat(v.parts)|);
  }

  lemma FinishFrom(w: World, u: World, v: View, now: nat, times: seq<nat>)
    requires InProgress(w) && v == ViewOf(w.builds[0]) && Recovered(w, u, v, now)
    requires OnTime(w.session.value.(lastSend := now), w.cfg, times)
    requires |times| * w.cfg.window >= |w.session.value.packets|
    ensures Rounds(u, times).Some?
    ensures Rounds(u, times).value.builds == w.builds && Rounds(u, times).value.maxBody == w.maxBody
    ensures Returned(Rounds(u, times).value, Total(w, v))
  {
    hide Round, Rounds, Inv, ViewOf, WindowFull, Total, OnTime;
    if u.client.Done? {
      RoundsOfReturned(u, times);
    } else {
      SameSchedule(w.session.value, u.session.value, w.cfg, now, times);
      RoundsComplete(u, times);
      ReturnedWithin(Rounds(u, times).value, Total(u, v), Total(w, v));
    }
  }

  // ------------------------------------------------------- the exact condition

  lemma {:induction false} RunInTwo(w: World, a: seq<Action>, b: seq<Action>)
    requires Run(w, a).Some?
    ensures Run(w, a + b) == Run(Run(w, a).value, b)
  {
    hide Step, Enabled;
    var whole := a + b;
    if b == [] {
      assert whole == a;
    } else {
      RunInTwo(w, a, b[..|b| - 1]);
      assert whole[..|whole| - 1] == a + b[..|b| - 1] && whole[|whole| - 1] == b[|b| - 1];
    }
  }

  /** Some series of actions leads from one world to the other. */
  ghost predicate Leads(w: World, u: World) {
    exists actions :: Run(w, actions) == Some(u)
  }

  lemma LeadsOn(w: World, u: World, x: World)
    requires Leads(w, u) && Leads(u, x)
    ensures Leads(w, x)
  {
    hide Run;
    var a :| Run(w, a) == Some(u);
    var b :| Run(u, b) == Some(x);
    RunInTwo(w, a, b);
  }

  lemma RoundLeads(w: World, now: nat)
    requires Round(w, now).Some?
    ensures Leads(w, Round(w, now).value)
  {
    hide Run, Step, Flight, WireActions, AckActions, Inv;
    var s := w.session.value;
    var indices := Flight(s.packets, s.unacked);
    var w1 := Step(w, ServerTick(now));
    TickAlone(w, now);
    RunOfOne(w, ServerTick(now));
    assert Leads(w, w1);
    var w2 := Run(w1, WireActions(s.packets, indices)).value;
    assert Leads(w1, w2);
    LeadsOn(w, w1, w2);
    if w2.client.Running? {
      var w3 := Run(w2, AckActions(s, indices, now)).value;
      assert Leads(w2, w3);
      LeadsOn(w, w2, w3);
    }
  }

  lemma TickAlone(w: World, now: nat)
    requires w.session.Some? && S.Kept(w.session.value, w.cfg, now)
    ensures Enabled(w, ServerTick(now))
  {
  }

  lemma {:induction false} RoundsLead(w: World, times: seq<nat>)
    requires Rounds(w, times).Some?
    ensures Leads(w, Rounds(w, times).value)
  {
    hide Round, Run, Leads;
    if times == [] {
      StaysPut(w);
    } else {
      var u := Rounds(w, times[..|times| - 1]).value;
      RoundsLead(w, times[..|times| - 1]);
      if u.client.Running? {
        RoundLeads(u, times[|times| - 1]);
        LeadsOn(w, u, Round(u, times[|times| - 1]).value);
      }
    }
  }

  lemma StaysPut(w: World)
    ensures Leads(w, w)
  {
    assert Run(w, []) == Some(w);
  }

  lemma RecoveryLeads(w: World, now: nat)
    requires Recovery(w, now).Some?
    ensures Leads(w, Recovery(w, now).value)
  {
    hide Run, Step, Round, Leads;
    if w.session.value.unacked != {} {
      RoundLeads(w, now);
    } else {
      SilenceLeads(w, now);
    }
  }

  lemma SilenceLeads(w: World, now: nat)
    requires Silence(w, now).Some?
    ensures Leads(w, Silence(w, now).value)
  {
    hide Run, Step;
    var w1 := Step(w, ClientQuiet);
    RunOfOne(w, ClientQuiet);
    assert Leads(w, w1);
    if w1.client.Running? {
      assert Leads(w1, Silence(w, now).value);
      LeadsOn(w, w1, Silence(w, now).value);
    }
  }

  /** Some continuation returns the response under way. */
  ghost predicate CanComplete(w: World)
    requires |w.builds| >= 1 && w.builds[0].chunkSize >= 1
  {
    exists u :: Leads(w, u) && u.client.Done? && u.client.outcome == C.Answer(Expected(ViewOf(w.builds[0])))
  }

  /** The exact condition, where the times and the size limit allow a completion at
      all: a fetch can complete if and only if the first local send of its response
      succeeded. Later failures never matter. */
  lemma CompletesIffFirstWasSent(cfg: S.Config, maxBody: nat, url: string, actions: seq<Action>, w: World,
                                 now: nat, times: seq<nat>)
    requires Fetching(cfg, maxBody, url, actions, w)
    requires w.session.Some? && Scheduled(w.session.value, cfg, now, times)
    requires |times| * cfg.window >= |Packets(w.builds[0])|
    requires TakenBytes(w) + |Concat(ViewOf(w.builds[0]).parts)| <= maxBody
    ensures CanComplete(w) <==> w.session.value.nextUnsent > 0
  {
    hide Run, Round, Rounds, PacketsOf, WindowFull, Total, TakenBytes, Readable, OnTime, Recovery, Scheduled, Inv, Leads, ViewOf;
    if w.session.value.nextUnsent > 0 {
      CompletionAfterFailures(cfg, maxBody, url, actions, w, now, times);
      FetchingInProgress(cfg, maxBody, url, actions, w);
      var u := Recovery(w, now).value;
      var x := Rounds(u, times).value;
      RecoveryLeads(w, now);
      RoundsLead(u, times);
      LeadsOn(w, u, x);
      assert x.client.outcome == C.Answer(Expected(ViewOf(w.builds[0])));
    } else {
      NeverCompletes(cfg, maxBody, url, actions, w);
    }
  }

  lemma NeverCompletes(cfg: S.Config, maxBody: nat, url: string, actions: seq<Action>, w: World)
    requires Fetching(cfg, maxBody, url, actions, w) && w.session.Some? && w.session.value.nextUnsent == 0
    ensures !CanComplete(w)
  {
    hide Run, ViewOf, Inv;
    forall u | Leads(w, u) && u.client.Done?
      ensures !(u.client.outcome.Answer? && u.client.outcome.response.Success?)
    {
      var after :| Run(w, after) == Some(u);
      FirstSendFailedIsForGood(cfg, maxBody, url, actions, w, after, u);
    }
  }
}
