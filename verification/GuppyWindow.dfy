/** The Guppy send window over whole runs: what holds of it in every reachable state,
    whichever local sends fail, and what holds where none does. */
module GuppyWindow {
  import opened Text
  import opened GuppyPacket
  import opened GuppySession
  import opened GuppyRun
  import S = GuppyServer
  import C = GuppyClient

  /** Never more in flight than the window allows; exactly as many as it and the rest
      allow, where `full`. */
  predicate Windowed(s: Live, window: nat, full: bool) {
    && |s.unacked| <= window && |s.packets| <= MAX_SEQ
    && (full ==> WindowFull(s, window))
  }

  lemma OpeningWithinWindow(s: SessionState, window: nat, budget: nat, now: nat)
    requires Valid(s) && |s.unacked| <= window
    ensures |WindowOpened(s, window, budget, now).0.unacked| <= window
    ensures WindowOpened(s, window, budget, now).0.packets == s.packets
  {
    SendingKeepsValid(s, s.nextUnsent + Opening(s, window, budget), now);
  }

  /** Any acknowledgement at all, with local sends that succeed, leaves the window
      exactly full, whatever failed before it. */
  lemma AckFillsWindow(s: Live, number: nat, window: nat, budget: nat, now: nat)
    requires |s.unacked| <= window && budget >= |s.packets|
    ensures WindowFull(Acknowledged(s, number, window, budget, now).0, window)
  {
    var s' := s.(unacked := s.unacked - {number});
    if !(s'.nextUnsent == |s'.packets| && s'.unacked == {}) {
      OpeningFillsWindow(s', window, budget, now);
    }
  }

  lemma AckLeavesWindow(s: Live, cfg: S.Config, number: nat, now: nat, budget: nat, full: bool)
    requires Windowed(s, cfg.window, full) && (full ==> budget >= MAX_SEQ)
    ensures var t := Acknowledged(s, number, cfg.window, budget, now).0;
            Valid(t) && Windowed(t, cfg.window, full)
  {
    AcknowledgingKeepsValid(s, number, cfg.window, budget, now);
    if full {
      AckFillsWindow(s, number, cfg.window, budget, now);
    }
    var s' := s.(unacked := s.unacked - {number});
    if !(s'.nextUnsent == |s'.packets| && s'.unacked == {}) {
      OpeningWithinWindow(s', cfg.window, budget, now);
    }
  }

  lemma AnswerLeavesWindow(cfg: S.Config, mime: string, body: Bytes, hash: nat, now: nat, budget: nat, full: bool)
    requires S.Fits(S.Handled(Success(mime, body)), cfg) && (full ==> budget >= MAX_SEQ)
    ensures var packets := S.ResponsePackets(mime, body, cfg.chunkSize, hash);
            |packets| >= 2 && WellNumbered(packets)
            && var t := WindowOpened(NewSession(packets, now), cfg.window, budget, now).0;
               Valid(t) && Windowed(t, cfg.window, full)
  {
    CountAsPredicted(body, Max(cfg.chunkSize, 1));
    var packets := S.ResponsePackets(mime, body, cfg.chunkSize, hash);
    var s := NewSession(packets, now);
    OpeningKeepsValid(s, cfg.window, budget, now);
    OpeningWithinWindow(s, cfg.window, budget, now);
    if full {
      NewSessionFillsWindow(packets, cfg.window, budget, now);
    }
  }

  lemma ReceivingLeavesWindow(session: Option<Live>, cfg: S.Config, datagram: Bytes, now: nat,
                              isFull: bool, answer: S.Answer, hash: nat, budget: nat, full: bool)
    requires session.Some? ==> Windowed(session.value, cfg.window, full)
    requires S.Fits(answer, cfg) && (full ==> budget >= MAX_SEQ)
    ensures var t := S.Received(session, cfg, datagram, now, isFull, answer, hash, budget).0;
            t.Some? ==> Valid(t.value) && Windowed(t.value, cfg.window, full)
  {
    hide ParseClientDatagram, Acknowledged, WindowOpened, Windowed, S.ResponsePackets, Valid, WellNumbered;
    var r := ParseClientDatagram(datagram);
    if r.Ok? && r.value.Ack? && session.Some? {
      AckLeavesWindow(session.value, cfg, r.value.number, now, budget, full);
    }
    if answer.Handled? && answer.response.Success? {
      AnswerLeavesWindow(cfg, answer.response.mime, answer.response.body, hash, now, budget, full);
    }
  }

  lemma TimerLeavesWindow(s: Live, window: nat, now: nat)
    ensures var t := s.(lastSend := now);
            (WindowFull(t, window) <==> WindowFull(s, window)) && Acked(t) == Acked(s)
  {
  }

  lemma TickingLeavesWindow(session: Option<Live>, cfg: S.Config, now: nat, full: bool)
    requires session.Some? ==> Windowed(session.value, cfg.window, full)
    ensures var t := S.Ticked(session, cfg, now).0;
            t.Some? ==> Valid(t.value) && Windowed(t.value, cfg.window, full)
  {
    if session.Some? {
      TimerLeavesWindow(session.value, cfg.window, now);
    }
  }

  predicate SendsSucceed(actions: seq<Action>) {
    forall i :: 0 <= i < |actions| && actions[i].ReachServer? ==> actions[i].budget >= MAX_SEQ
  }

  ghost predicate WorldWindowed(w: World, full: bool) {
    w.session.Some? ==> Windowed(w.session.value, w.cfg.window, full)
  }

  lemma StepLeavesWindow(w: World, a: Action, full: bool)
    requires Enabled(w, a) && (full && a.ReachServer? ==> a.budget >= MAX_SEQ)
    requires WorldWindowed(w, full)
    ensures Step(w, a).cfg == w.cfg && Step(w, a).maxBody == w.maxBody && WorldWindowed(Step(w, a), full)
  {
    hide Windowed, C.Turn, C.Read, S.Received, S.Ticked, Valid;
    match a
    case ReachServer(datagram, now, isFull, answer, hash, budget) =>
      ReceivingLeavesWindow(w.session, w.cfg, datagram, now, isFull, answer, hash, budget, full);
    case ServerTick(now) => TickingLeavesWindow(w.session, w.cfg, now, full);
    case _ =>
  }

  /** In every run no more is in flight than the window allows; and where no local
      send of the server fails, min(window, packets not acknowledged) are, exactly. */
  lemma {:induction false} RunLeavesWindow(w: World, actions: seq<Action>, full: bool)
    requires Run(w, actions).Some? && (full ==> SendsSucceed(actions)) && WorldWindowed(w, full)
    ensures var v := Run(w, actions).value;
            v.cfg == w.cfg && v.maxBody == w.maxBody && WorldWindowed(v, full)
  {
    hide WorldWindowed, Step, Enabled;
    if actions != [] {
      var before := actions[..|actions| - 1];
      RunLeavesWindow(w, before, full);
      StepLeavesWindow(Run(w, before).value, actions[|actions| - 1], full);
    }
  }

  /** In every reachable state of a run whose local sends succeed: the window is
      exactly full, and a session that is not done has something in flight. */
  lemma WindowOverRuns(cfg: S.Config, maxBody: nat, url: string, actions: seq<Action>, w: World)
    requires Run(Start(cfg, maxBody, url), actions) == Some(w) && SendsSucceed(actions)
    ensures w.session.Some? ==> WindowFull(w.session.value, cfg.window)
    ensures w.session.Some? && cfg.window >= 1 ==>
              (w.session.value.doneAt.None? <==> w.session.value.unacked != {})
  {
    RunLeavesWindow(Start(cfg, maxBody, url), actions, true);
    if w.session.Some? && cfg.window >= 1 {
      NothingInFlightMeansAllAcked(w.session.value, cfg.window);
    }
  }
}
