/** A Misfin server's life: deliveries on concurrent connections, each a series of
    separate transactions, interleaved in any way with one another, with storage
    failures, and with the operator forgetting pins. */
module MisfinRuns {
  import opened Text
  import opened MisfinAddress
  import opened MisfinMailbox
  import opened MisfinServer

  /** A connection: the delivery it makes, if its request was accepted, and how far
      it has come. */
  datatype Connection = Connection(delivery: Option<Delivery>, stage: Stage)

  datatype World = World(cfg: Config, tables: Tables, connections: seq<Connection>, history: seq<Event>)

  datatype Action =
    | Arrive(request: Request)
    | Advance(id: nat, fails: bool)
    | Forget(key: string, fails: bool)

  function Start(cfg: Config): World {
    World(cfg, EMPTY, [], [])
  }

  /** A connection with a claimed sender is the only kind that gets checked. */
  predicate Sensible(c: Connection) {
    && (c.delivery.None? ==> c.stage.Answered? && c.stage.response.status != 20)
    && (c.stage.Checking? ==> c.delivery.Some? && c.delivery.value.sender.Some?)
  }

  function Opened(cfg: Config, request: Request): Connection {
    match Screen(cfg, request)
    case Refused(response) => Connection(None, Answered(response))
    case Accepted(d) => Connection(Some(d), FirstStage(d))
  }

  function Step(w: World, a: Action): World {
    match a
    case Arrive(request) => w.(connections := w.connections + [Opened(w.cfg, request)])
    case Advance(id, fails) =>
      if id >= |w.connections| || w.connections[id].delivery.None? || !Sensible(w.connections[id]) then w
      else
        var d := w.connections[id].delivery.value;
        var (stage, tables, events) := Progress(w.cfg, w.tables, id, d, w.connections[id].stage, fails);
        World(w.cfg, tables, w.connections[id := Connection(Some(d), stage)], w.history + events)
    case Forget(key, fails) =>
      if fails then w
      else
        var (existed, tables) := Forgotten(w.tables, key);
        w.(tables := tables, history := w.history + [Forgot(key, existed)])
  }

  function Run(w: World, actions: seq<Action>): World {
    if actions == [] then w else Step(Run(w, actions[..|actions| - 1]), actions[|actions| - 1])
  }

  // ----------------------------------------------------- what a history tells

  /** The fingerprint a history leaves pinned to an address. */
  function PinAfter(history: seq<Event>, key: string): Option<string> {
    if history == [] then None
    else
      var before := PinAfter(history[..|history| - 1], key);
      match history[|history| - 1]
      case Checked(_, k, fingerprint, FirstUse) => if k == key then Some(fingerprint) else before
      case Forgot(k, _) => if k == key then None else before
      case _ => before
  }

  function CheckAgainst(pin: Option<string>, fingerprint: string): IdentityCheck {
    if pin.None? then FirstUse else if pin.value == fingerprint then SameAsPin else Changed(pin.value)
  }

  /** The messages stored, in order. */
  function Mail(history: seq<Event>): seq<ReceivedMessage> {
    if history == [] then []
    else
      var last := history[|history| - 1];
      Mail(history[..|history| - 1]) + if last.Stored? then [last.message] else []
  }

  function Delivered(connections: seq<Connection>): nat {
    if connections == [] then 0
    else
      Delivered(connections[..|connections| - 1]) + if IsDelivered(connections[|connections| - 1]) then 1 else 0
  }

  predicate IsDelivered(c: Connection) {
    c.stage.Answered? && c.stage.response.status == 20
  }

  // -------------------------------------------------------------- invariants

  ghost predicate PinsAgree(t: Tables, history: seq<Event>) {
    forall key :: PinAfter(history, key) == if key in t.identities then Some(t.identities[key].fingerprint) else None
  }

  /** Every event says what the pins before it made of it. */
  predicate EventRight(history: seq<Event>, p: nat)
    requires p < |history|
  {
    match history[p]
    case Checked(_, key, fingerprint, check) => check == CheckAgainst(PinAfter(history[..p], key), fingerprint)
    case Forgot(key, existed) => existed == PinAfter(history[..p], key).Some?
    case Stored(_, _) => true
  }

  predicate EventsRight(history: seq<Event>) {
    forall p :: 0 <= p < |history| ==> EventRight(history, p)
  }

  predicate IsCheckOf(history: seq<Event>, p: nat, id: nat) {
    p < |history| && history[p].Checked? && history[p].id == id
  }

  /** A connection past its check was checked once, on its own address and
      fingerprint, and not found changed where that is refused. */
  predicate CheckOk(cfg: Config, d: Delivery, e: Event) {
    && e.Checked? && d.sender.Some? && e.key == AddrSpec(d.sender.value) && e.fingerprint == d.fingerprint
    && (cfg.rejectChanged ==> !e.check.Changed?)
  }

  ghost predicate ConnectionOk(cfg: Config, history: seq<Event>, c: Connection, id: nat) {
    && Sensible(c)
    && (c.delivery.Some? ==> WellScreened(cfg, c.delivery.value))
    && (c.stage.Checking? ==> forall p: nat :: !IsCheckOf(history, p, id))
    && (c.delivery.Some? && c.delivery.value.sender.Some? && (c.stage.Recording? || c.stage.Storing? || IsDelivered(c)) ==>
          exists p: nat :: IsCheckOf(history, p, id) && CheckOk(cfg, c.delivery.value, history[p]))
  }

  /** A stored message is the delivery of a connection answered 20. */
  predicate StoredBy(connections: seq<Connection>, e: Event) {
    e.Stored? ==>
      && e.id < |connections| && IsDelivered(connections[e.id]) && connections[e.id].delivery.Some?
      && var d := connections[e.id].delivery.value;
         && connections[e.id].stage.response == Response(20, d.receipt)
         && e.message == ReceivedMessage(e.message.number, AddrSpec(d.recipient), d.fingerprint,
                                         if d.sender.Some? then Some(AddrSpec(d.sender.value)) else None, d.message, d.now)
  }

  predicate ChecksAreOfConnections(history: seq<Event>, n: nat) {
    forall p :: 0 <= p < |history| && history[p].Checked? ==> history[p].id < n
  }

  ghost predicate CheckedOnce(history: seq<Event>) {
    forall p: nat, q: nat, id: nat :: IsCheckOf(history, p, id) && IsCheckOf(history, q, id) ==> p == q
  }

  ghost predicate ConnectionsOk(cfg: Config, history: seq<Event>, connections: seq<Connection>) {
    forall id :: 0 <= id < |connections| ==> ConnectionOk(cfg, history, connections[id], id)
  }

  predicate AllStoredBy(connections: seq<Connection>, history: seq<Event>) {
    forall p :: 0 <= p < |history| ==> StoredBy(connections, history[p])
  }

  ghost predicate Inv(w: World) {
    && Agrees(w.tables, Mail(w.history))
    && PinsAgree(w.tables, w.history)
    && EventsRight(w.history)
    && ChecksAreOfConnections(w.history, |w.connections|)
    && CheckedOnce(w.history)
    && ConnectionsOk(w.cfg, w.history, w.connections)
    && AllStoredBy(w.connections, w.history)
    && |Mail(w.history)| == Delivered(w.connections)
  }

  // ------------------------------------------------------- one more event

  lemma OneMoreEvent(history: seq<Event>, e: Event)
    ensures (history + [e])[..|history|] == history
    ensures Mail(history + [e]) == if e.Stored? then Mail(history) + [e.message] else Mail(history)
  {
    assert (history + [e])[..|history|] == history;
    assert Mail(history) + [] == Mail(history);
  }

  lemma PinAfterEvent(history: seq<Event>, e: Event, key: string)
    ensures PinAfter(history + [e], key) ==
            if e.Checked? && e.check.FirstUse? && e.key == key then Some(e.fingerprint)
            else if e.Forgot? && e.key == key then None
            else PinAfter(history, key)
  {
    OneMoreEvent(history, e);
  }

  lemma EventsStayRight(history: seq<Event>, e: Event)
    requires EventsRight(history) && EventRight(history + [e], |history|)
    ensures EventsRight(history + [e])
  {
    hide PinAfter;
    var more := history + [e];
    forall p | 0 <= p < |more| ensures EventRight(more, p) {
      if p < |history| {
        assert EventRight(history, p);
        assert more[..p] == history[..p];
      }
    }
  }

  /** Connections other than the one an event is about stay as good as they were. */
  lemma ConnectionStaysOk(cfg: Config, history: seq<Event>, e: Event, c: Connection, id: nat)
    requires ConnectionOk(cfg, history, c, id) && (e.Checked? ==> e.id != id)
    ensures ConnectionOk(cfg, history + [e], c, id)
  {
    var more := history + [e];
    assert forall p: nat :: IsCheckOf(more, p, id) <==> IsCheckOf(history, p, id);
    if exists p: nat :: IsCheckOf(history, p, id) && c.delivery.Some? && CheckOk(cfg, c.delivery.value, history[p]) {
      var p: nat :| IsCheckOf(history, p, id) && c.delivery.Some? && CheckOk(cfg, c.delivery.value, history[p]);
      assert IsCheckOf(more, p, id) && CheckOk(cfg, c.delivery.value, more[p]);
    }
  }

  lemma StillCheckedOnce(history: seq<Event>, e: Event)
    requires CheckedOnce(history)
    requires e.Checked? ==> forall p: nat :: !IsCheckOf(history, p, e.id)
    ensures CheckedOnce(history + [e])
  {
    var more := history + [e];
    forall p: nat, q: nat, id: nat | IsCheckOf(more, p, id) && IsCheckOf(more, q, id) ensures p == q {
      assert p < |history| ==> IsCheckOf(history, p, id);
      assert q < |history| ==> IsCheckOf(history, q, id);
    }
  }

  // ----------------------------------------------------- one connection moves

  lemma {:induction false} DeliveredAfter(connections: seq<Connection>, id: nat, c: Connection)
    requires id < |connections|
    ensures Delivered(connections[id := c]) ==
            Delivered(connections) + (if IsDelivered(c) then 1 else 0) - (if IsDelivered(connections[id]) then 1 else 0)
  {
    var front := connections[..|connections| - 1];
    if id < |front| {
      DeliveredAfter(front, id, c);
      assert connections[id := c][..|connections| - 1] == front[id := c];
    } else {
      assert connections[id := c][..|connections| - 1] == front;
    }
  }

  lemma StoredByOthers(connections: seq<Connection>, history: seq<Event>, id: nat, c: Connection)
    requires AllStoredBy(connections, history) && id < |connections| && !IsDelivered(connections[id])
    ensures AllStoredBy(connections[id := c], history)
  {
    forall p | 0 <= p < |history| ensures StoredBy(connections[id := c], history[p]) {
      assert StoredBy(connections, history[p]);
    }
  }

  /** The connection goes on without an event: a storage failure, or its sender recorded. */
  lemma QuietStepKeepsInv(w: World, id: nat, tables: Tables, stage: Stage)
    requires Inv(w) && id < |w.connections| && w.connections[id].delivery.Some?
    requires !IsDelivered(w.connections[id])
    requires tables.(senders := w.tables.senders) == w.tables
    requires stage == Answered(STORAGE_TROUBLE) || (w.connections[id].stage.Recording? && stage == Storing)
    ensures Inv(World(w.cfg, tables, w.connections[id := w.connections[id].(stage := stage)], w.history))
  {
    hide Mail, PinAfter, WellScreened, EventsRight, CheckOk, Delivered;
    var c := w.connections[id].(stage := stage);
    SendersAside(w.tables, tables, w.history);
    DeliveredAfter(w.connections, id, c);
    StoredByOthers(w.connections, w.history, id, c);
    assert ConnectionOk(w.cfg, w.history, w.connections[id], id);
  }

  lemma SendersAside(t: Tables, t': Tables, history: seq<Event>)
    requires Agrees(t, Mail(history)) && PinsAgree(t, history) && t'.(senders := t.senders) == t
    ensures Agrees(t', Mail(history)) && PinsAgree(t', history)
  {
    hide Mail, PinAfter;
    assert forall mailbox :: Indexed(t', mailbox) == Indexed(t, mailbox);
  }

  lemma IdentitiesAside(t: Tables, t': Tables, log: seq<ReceivedMessage>)
    requires Agrees(t, log) && t'.(identities := t.identities) == t
    ensures Agrees(t', log)
  {
    assert forall mailbox :: Indexed(t', mailbox) == Indexed(t, mailbox);
  }

  /** What a check does to pins and history together. */
  lemma CheckAgrees(t: Tables, history: seq<Event>, id: nat, key: string, fingerprint: string, now: nat)
    requires PinsAgree(t, history)
    ensures var (check, t') := IdentityChecked(t, key, fingerprint, now);
            var more := history + [Checked(id, key, fingerprint, check)];
            PinsAgree(t', more) && EventRight(more, |history|)
  {
    hide PinAfter;
    var (check, t') := IdentityChecked(t, key, fingerprint, now);
    var e := Checked(id, key, fingerprint, check);
    OneMoreEvent(history, e);
    assert PinAfter(history, key) == if key in t.identities then Some(t.identities[key].fingerprint) else None;
    forall k ensures PinAfter(history + [e], k) == if k in t'.identities then Some(t'.identities[k].fingerprint) else None {
      PinAfterEvent(history, e, k);
      assert PinAfter(history, k) == if k in t.identities then Some(t.identities[k].fingerprint) else None;
    }
  }

  lemma CheckStepKeepsInv(w: World, id: nat)
    requires Inv(w) && id < |w.connections| && w.connections[id].stage.Checking?
    ensures Inv(Step(w, Advance(id, false)))
  {
    hide Mail, PinAfter, WellScreened, EventRight, IdentityChecked, Agrees, PinsAgree, StoredBy, Delivered;
    assert ConnectionOk(w.cfg, w.history, w.connections[id], id);
    var d := w.connections[id].delivery.value;
    var key := AddrSpec(d.sender.value);
    var (check, t') := IdentityChecked(w.tables, key, d.fingerprint, d.now);
    var e := Checked(id, key, d.fingerprint, check);
    var stage := if check.Changed? && w.cfg.rejectChanged then Answered(LIAR) else Recording;
    var c := Connection(Some(d), stage);
    assert Step(w, Advance(id, false)) == World(w.cfg, t', w.connections[id := c], w.history + [e]);
    CheckLeavesMail(w.tables, key, d.fingerprint, d.now);
    IdentitiesAside(w.tables, t', Mail(w.history));
    OneMoreEvent(w.history, e);
    CheckAgrees(w.tables, w.history, id, key, d.fingerprint, d.now);
    EventsStayRight(w.history, e);
    StillCheckedOnce(w.history, e);
    DeliveredAfter(w.connections, id, c);
    StoredByOthers(w.connections, w.history, id, c);
    assert StoredBy(w.connections[id := c], e) by { NotStored(w.connections[id := c], e); }
    OthersStayOk(w.cfg, w.history, w.connections, id, c, e);
  }

  lemma NotStored(connections: seq<Connection>, e: Event)
    requires !e.Stored?
    ensures StoredBy(connections, e)
  {
  }

  lemma CheckLeavesMail(t: Tables, key: string, fingerprint: string, now: nat)
    ensures IdentityChecked(t, key, fingerprint, now).1.(identities := t.identities) == t
  {
  }

  /** After an event about connection `id`, which has moved to `c`. */
  lemma OthersStayOk(cfg: Config, history: seq<Event>, connections: seq<Connection>, id: nat, c: Connection, e: Event)
    requires ConnectionsOk(cfg, history, connections) && id < |connections|
    requires (e.Checked? ==> e.id == id) && Sensible(c) && !c.stage.Checking?
    requires c.delivery.Some? && WellScreened(cfg, c.delivery.value)
    requires e.Checked? && (c.stage.Recording? || c.stage.Storing? || IsDelivered(c)) ==> CheckOk(cfg, c.delivery.value, e)
    requires !e.Checked? ==> connections[id].stage.Storing? && connections[id].delivery == c.delivery
    ensures ConnectionsOk(cfg, history + [e], connections[id := c])
  {
    hide CheckOk, WellScreened;
    var more := history + [e];
    var moved := connections[id := c];
    forall k | 0 <= k < |moved| ensures ConnectionOk(cfg, more, moved[k], k) {
      assert ConnectionOk(cfg, history, connections[k], k);
      if k != id {
        ConnectionStaysOk(cfg, history, e, connections[k], k);
      } else if e.Checked? {
        assert IsCheckOf(more, |history|, id) && more[|history|] == e;
      } else {
        ConnectionStaysOk(cfg, history, e, connections[k], k);
      }
    }
  }

  lemma StoreStepKeepsInv(w: World, id: nat)
    requires Inv(w) && id < |w.connections| && w.connections[id].stage.Storing? && w.connections[id].delivery.Some?
    ensures Inv(Step(w, Advance(id, false)))
  {
    hide Mail, PinAfter, WellScreened, CheckOk, Agrees, Appended, EventsRight, Delivered;
    assert ConnectionOk(w.cfg, w.history, w.connections[id], id);
    var d := w.connections[id].delivery.value;
    var m := MessageOf(w.tables, d);
    var t' := Appended(w.tables, m);
    var e := Stored(id, m);
    var c := Connection(Some(d), Answered(Response(20, d.receipt)));
    assert Step(w, Advance(id, false)) == World(w.cfg, t', w.connections[id := c], w.history + [e]);
    StoringAgrees(w.tables, Mail(w.history), m);
    OneMoreEvent(w.history, e);
    StoreLeavesPins(w.tables, w.history, e);
    EventsStayRight(w.history, e);
    StillCheckedOnce(w.history, e);
    DeliveredAfter(w.connections, id, c);
    StoredByOthers(w.connections, w.history, id, c);
    OthersStayOk(w.cfg, w.history, w.connections, id, c, e);
  }

  lemma StoreLeavesPins(t: Tables, history: seq<Event>, e: Event)
    requires PinsAgree(t, history) && e.Stored?
    ensures PinsAgree(Appended(t, e.message), history + [e])
  {
    hide PinAfter;
    forall key {
      PinAfterEvent(history, e, key);
    }
  }

  // ------------------------------------------------------------- all the steps

  lemma ForgetKeepsInv(w: World, key: string)
    requires Inv(w)
    ensures Inv(Step(w, Forget(key, false)))
  {
    hide Mail, PinAfter, WellScreened, CheckOk, Agrees, EventRight, StoredBy, Delivered;
    var (existed, t') := Forgotten(w.tables, key);
    var e := Forgot(key, existed);
    ForgettingLeavesMail(w.tables, key);
    IdentitiesAside(w.tables, t', Mail(w.history));
    OneMoreEvent(w.history, e);
    ForgettingAgrees(w.tables, w.history, key);
    EventsStayRight(w.history, e);
    StillCheckedOnce(w.history, e);
    NotStored(w.connections, e);
    forall id | 0 <= id < |w.connections| ensures ConnectionOk(w.cfg, w.history + [e], w.connections[id], id) {
      ConnectionStaysOk(w.cfg, w.history, e, w.connections[id], id);
    }
  }

  lemma ForgettingLeavesMail(t: Tables, key: string)
    ensures Forgotten(t, key).1.(identities := t.identities) == t
  {
  }

  lemma ForgettingAgrees(t: Tables, history: seq<Event>, key: string)
    requires PinsAgree(t, history)
    ensures var (existed, t') := Forgotten(t, key);
            var more := history + [Forgot(key, existed)];
            PinsAgree(t', more) && EventRight(more, |history|)
  {
    hide PinAfter;
    var (existed, t') := Forgotten(t, key);
    var e := Forgot(key, existed);
    OneMoreEvent(history, e);
    assert PinAfter(history, key) == if key in t.identities then Some(t.identities[key].fingerprint) else None;
    forall k ensures PinAfter(history + [e], k) == if k in t'.identities then Some(t'.identities[k].fingerprint) else None {
      PinAfterEvent(history, e, k);
      assert PinAfter(history, k) == if k in t.identities then Some(t.identities[k].fingerprint) else None;
    }
  }

  lemma ArrivalKeepsInv(w: World, request: Request)
    requires Inv(w)
    ensures Inv(Step(w, Arrive(request)))
  {
    hide Mail, PinAfter, WellScreened, CheckOk, Agrees, EventRight, PinsAgree, Screen;
    var c := Opened(w.cfg, request);
    var more := w.connections + [c];
    assert more[..|w.connections|] == w.connections;
    OpenedIsOk(w.cfg, request);
    forall id | 0 <= id < |more| ensures ConnectionOk(w.cfg, w.history, more[id], id) {
      if id < |w.connections| {
        assert ConnectionOk(w.cfg, w.history, w.connections[id], id);
      }
    }
    forall p | 0 <= p < |w.history| ensures StoredBy(more, w.history[p]) {
      assert StoredBy(w.connections, w.history[p]);
    }
  }

  lemma OpenedIsOk(cfg: Config, request: Request)
    ensures var c := Opened(cfg, request);
            && Sensible(c) && !IsDelivered(c) && !c.stage.Storing?
            && (c.delivery.Some? ==> WellScreened(cfg, c.delivery.value))
            && (c.stage.Recording? ==> c.delivery.value.sender.None?)
  {
    hide WellScreened;
    if Screen(cfg, request).Accepted? {
      ScreeningIsSound(cfg, request);
    } else {
      RefusalStatus(cfg, request);
    }
  }

  lemma AdvanceKeepsInv(w: World, id: nat, fails: bool)
    requires Inv(w)
    ensures Inv(Step(w, Advance(id, fails)))
  {
    hide Mail, PinAfter, WellScreened, CheckOk, Agrees, EventRight, PinsAgree, StoredBy, Delivered, CheckedOnce, Appended;
    if id < |w.connections| && w.connections[id].delivery.Some? {
      assert ConnectionOk(w.cfg, w.history, w.connections[id], id);
      var c := w.connections[id];
      assert w.connections[id := c] == w.connections;
      assert w.history + [] == w.history;
      if c.stage.Answered? {
        assert Step(w, Advance(id, fails)) == w;
      } else if fails {
        QuietStepKeepsInv(w, id, w.tables, Answered(STORAGE_TROUBLE));
      } else {
        match c.stage
        case Checking => CheckStepKeepsInv(w, id);
        case Recording =>
          var d := c.delivery.value;
          ChecksLeaveMail(w.tables, d);
          QuietStepKeepsInv(w, id, SenderRecorded(w.tables, d.fingerprint, d.now).1, Storing);
        case Storing => StoreStepKeepsInv(w, id);
      }
    }
  }

  lemma StepKeepsInv(w: World, a: Action)
    requires Inv(w)
    ensures Inv(Step(w, a)) && Step(w, a).cfg == w.cfg
  {
    hide Inv;
    match a
    case Arrive(request) => ArrivalKeepsInv(w, request);
    case Advance(id, fails) => AdvanceKeepsInv(w, id, fails);
    case Forget(key, fails) =>
      if !fails {
        ForgetKeepsInv(w, key);
      }
  }

  lemma {:induction false} RunKeepsInv(cfg: Config, actions: seq<Action>)
    ensures var w := Run(Start(cfg), actions);
            Inv(w) && w.cfg == cfg
  {
    if actions == [] {
      EmptyAgrees();
    } else {
      RunKeepsInv(cfg, actions[..|actions| - 1]);
      StepKeepsInv(Run(Start(cfg), actions[..|actions| - 1]), actions[|actions| - 1]);
    }
  }

  // ------------------------------------------------------------------- theorems

  /** A pin stays until it is forgotten. */
  lemma {:induction false} PinStays(history: seq<Event>, key: string, p: nat, q: nat)
    requires p <= q <= |history| && EventsRight(history) && PinAfter(history[..p], key).Some?
    requires forall k :: p <= k < q ==> history[k] != Forgot(key, true)
    ensures PinAfter(history[..q], key) == PinAfter(history[..p], key)
  {
    if p < q {
      PinStays(history, key, p, q - 1);
      assert history[..q] == history[..q - 1] + [history[q - 1]];
      assert EventRight(history, q - 1);
      PinAfterEvent(history[..q - 1], history[q - 1], key);
    }
  }

  lemma PinAfterCheck(history: seq<Event>, p: nat)
    requires p < |history| && EventsRight(history) && history[p].Checked?
    ensures PinAfter(history[..p + 1], history[p].key).Some?
    ensures !history[p].check.Changed? ==> PinAfter(history[..p + 1], history[p].key) == Some(history[p].fingerprint)
  {
    assert history[..p + 1] == history[..p] + [history[p]];
    assert EventRight(history, p);
    PinAfterEvent(history[..p], history[p], history[p].key);
  }

  /** An effective forget of the address between two events, whichever came first. */
  predicate ForgottenBetween(history: seq<Event>, p: nat, q: nat, key: string) {
    exists k :: 0 <= k < |history| && (p < k < q || q < k < p) && history[k] == Forgot(key, true)
  }

  /** Two accepted checks of one address with different fingerprints have an
      effective forget of it between them. */
  lemma ForgetBetween(history: seq<Event>, p: nat, q: nat)
    requires EventsRight(history) && p < q < |history| && history[p].Checked? && history[q].Checked?
    requires history[p].key == history[q].key && history[p].fingerprint != history[q].fingerprint
    requires !history[p].check.Changed? && !history[q].check.Changed?
    ensures ForgottenBetween(history, p, q, history[p].key)
  {
    hide PinAfter;
    var key := history[p].key;
    PinAfterCheck(history, p);
    assert EventRight(history, q);
    if forall k :: p + 1 <= k < q ==> history[k] != Forgot(key, true) {
      PinStays(history, key, p + 1, q);
    }
  }

  /** The one identity check of the connection that stored a message. */
  ghost predicate SoleCheck(history: seq<Event>, p: nat, stored: Event)
    requires stored.Stored?
  {
    && IsCheckOf(history, p, stored.id)
    && history[p].fingerprint == stored.message.fingerprint
    && Some(history[p].key) == stored.message.sender
    && forall r: nat :: IsCheckOf(history, r, stored.id) ==> r == p
  }

  /** Trust on first use, over every interleaving of deliveries, storage failures and
      forgets: of two messages stored under one sender address by different
      certificates, each was checked, exactly once, and the pin was released in
      between. */
  lemma TrustOnFirstUse(cfg: Config, actions: seq<Action>, a: nat, b: nat)
    requires cfg.rejectChanged
    requires var h := Run(Start(cfg), actions).history;
             && a < |h| && b < |h| && h[a].Stored? && h[b].Stored?
             && h[a].message.sender.Some? && h[b].message.sender == h[a].message.sender
             && h[a].message.fingerprint != h[b].message.fingerprint
    ensures var h := Run(Start(cfg), actions).history;
            exists p: nat, q: nat :: SoleCheck(h, p, h[a]) && SoleCheck(h, q, h[b])
                                     && ForgottenBetween(h, p, q, h[a].message.sender.value)
  {
    hide Run, Agrees, PinsAgree, EventRight, PinAfter, Mail, Delivered, WellScreened;
    RunKeepsInv(cfg, actions);
    var w := Run(Start(cfg), actions);
    var h := w.history;
    CheckOfStored(w, a);
    CheckOfStored(w, b);
    var p: nat :| SoleCheck(h, p, h[a]) && !h[p].check.Changed?;
    var q: nat :| SoleCheck(h, q, h[b]) && !h[q].check.Changed?;
    assert p != q by {
      assert h[p].fingerprint != h[q].fingerprint;
    }
    if p < q {
      ForgetBetween(h, p, q);
    } else {
      ForgetBetween(h, q, p);
    }
  }

  /** Every delivery of a run is what a request that arrived in it asks for, from the
      address its certificate claims. */
  lemma {:induction false} DeliveryWasAskedFor(cfg: Config, actions: seq<Action>, id: nat)
    requires var w := Run(Start(cfg), actions);
             id < |w.connections| && w.connections[id].delivery.Some?
    ensures var d := Run(Start(cfg), actions).connections[id].delivery.value;
            exists i :: 0 <= i < |actions| && actions[i].Arrive? && Acceptable(cfg, actions[i].request, d)
  {
    hide Progress, Screen, Acceptable, Inv;
    var front := actions[..|actions| - 1];
    var a := actions[|actions| - 1];
    var before := Run(Start(cfg), front);
    RunKeepsInv(cfg, front);
    var d := Run(Start(cfg), actions).connections[id].delivery.value;
    if id < |before.connections| {
      DeliveryWasAskedFor(cfg, front, id);
      var i :| 0 <= i < |front| && front[i].Arrive? && Acceptable(cfg, front[i].request, d);
      assert actions[i] == front[i];
    } else {
      ScreenExactly(cfg, a.request, d);
      assert actions[|actions| - 1] == a;
    }
  }

  /** In any run with changed senders rejected: two connections answered 20 whose
      certificates claim one address under different fingerprints have an effective
      forget of that address between their checks. */
  lemma TrustInCertificates(cfg: Config, actions: seq<Action>, x: nat, y: nat)
    requires cfg.rejectChanged
    requires var w := Run(Start(cfg), actions);
             && x < |w.connections| && y < |w.connections| && IsDelivered(w.connections[x]) && IsDelivered(w.connections[y])
             && w.connections[x].delivery.Some? && w.connections[y].delivery.Some?
             && var d, e := w.connections[x].delivery.value, w.connections[y].delivery.value;
                d.sender.Some? && e.sender == d.sender && e.fingerprint != d.fingerprint
    ensures var w := Run(Start(cfg), actions);
            exists p: nat, q: nat :: IsCheckOf(w.history, p, x) && IsCheckOf(w.history, q, y)
              && ForgottenBetween(w.history, p, q, AddrSpec(w.connections[x].delivery.value.sender.value))
  {
    hide Run, Agrees, Mail, Delivered, ForgottenBetween, AddrSpec;
    IndexAgreesWithLog(cfg, actions);
    var w := Run(Start(cfg), actions);
    assert StoredOnce(w, x) && StoredOnce(w, y);
    var a: nat :| IsStoreOf(w.history, a, x) && StoredBy(w.connections, w.history[a]);
    var b: nat :| IsStoreOf(w.history, b, y) && StoredBy(w.connections, w.history[b]);
    TrustOnFirstUse(cfg, actions, a, b);
  }

  lemma CheckOfStored(w: World, a: nat)
    requires Inv(w) && w.cfg.rejectChanged
    requires a < |w.history| && w.history[a].Stored? && w.history[a].message.sender.Some?
    ensures exists p: nat :: SoleCheck(w.history, p, w.history[a]) && !w.history[p].check.Changed?
  {
    hide Agrees, PinsAgree, EventsRight, PinAfter, Mail, Delivered, WellScreened;
    var h := w.history;
    assert StoredBy(w.connections, h[a]);
    var id := h[a].id;
    var c := w.connections[id];
    assert ConnectionOk(w.cfg, h, c, id);
    var p: nat :| IsCheckOf(h, p, id) && CheckOk(w.cfg, c.delivery.value, h[p]);
    assert SoleCheck(h, p, h[a]);
  }

  predicate IsStoreOf(history: seq<Event>, p: nat, id: nat) {
    p < |history| && history[p].Stored? && history[p].id == id
  }

  /** Every connection answered 20 has stored its message, once. */
  ghost predicate StoresMatch(w: World) {
    && (forall p: nat, q: nat, id: nat :: IsStoreOf(w.history, p, id) && IsStoreOf(w.history, q, id) ==> p == q)
    && forall id: nat :: id < |w.connections| && IsDelivered(w.connections[id]) ==> exists p: nat :: IsStoreOf(w.history, p, id)
  }

  /** The history is the same, or one event longer; the event is a store exactly when
      a connection is then answered 20 that was not before. */
  ghost predicate StoresStep(w: World, w': World, id: nat) {
    || (w'.history == w.history && forall k: nat :: k < |w'.connections| && IsDelivered(w'.connections[k]) ==>
          k < |w.connections| && IsDelivered(w.connections[k]))
    || exists e :: StoresStepBy(w, w', id, e)
  }

  predicate StoresStepBy(w: World, w': World, id: nat, e: Event) {
    && w'.history == w.history + [e] && |w'.connections| == |w.connections|
    && (forall k: nat :: k < |w.connections| && k != id ==> w'.connections[k] == w.connections[k])
    && if e.Stored? then e.id == id < |w.connections| && !IsDelivered(w.connections[id])
       else id < |w.connections| ==> !IsDelivered(w'.connections[id]) || w'.connections[id] == w.connections[id]
  }

  lemma AdvanceIsStoresStep(w: World, id: nat, fails: bool)
    ensures StoresStep(w, Step(w, Advance(id, fails)), id)
  {
    hide Agrees, Screen, AddrSpec, NewMessage, Appended, IdentityChecked, SenderRecorded;
    var w' := Step(w, Advance(id, fails));
    if id < |w.connections| && w.connections[id].delivery.Some? && Sensible(w.connections[id]) {
      var c := w.connections[id];
      var (stage, tables, events) := Progress(w.cfg, w.tables, id, c.delivery.value, c.stage, fails);
      if events == [] {
        assert w'.history == w.history;
      } else {
        var e := events[0];
        assert StoresStepBy(w, w', id, e);
      }
    }
  }

  lemma StepIsStoresStep(w: World, a: Action)
    requires Inv(w)
    ensures exists id: nat :: StoresStep(w, Step(w, a), id)
  {
    hide Inv, PinAfter, Agrees, Mail, Delivered, Screen, AddrSpec, NewMessage, Appended, IdentityChecked;
    match a
    case Arrive(request) =>
      OpenedIsOk(w.cfg, request);
      assert StoresStep(w, Step(w, a), 0);
    case Advance(id, fails) =>
      AdvanceIsStoresStep(w, id, fails);
    case Forget(key, fails) =>
      if !fails {
        var (existed, tables) := Forgotten(w.tables, key);
        assert StoresStepBy(w, Step(w, a), |w.connections|, Forgot(key, existed));
      }
      assert StoresStep(w, Step(w, a), |w.connections|);
  }

  lemma StepKeepsStores(w: World, w': World, id: nat)
    requires StoresMatch(w) && AllStoredBy(w.connections, w.history) && StoresStep(w, w', id)
    ensures StoresMatch(w')
  {
    if w'.history != w.history {
      var e :| StoresStepBy(w, w', id, e);
      StoresGrow(w, w', e, id);
    }
  }

  lemma StoresGrow(w: World, w': World, e: Event, id: nat)
    requires StoresMatch(w) && AllStoredBy(w.connections, w.history) && StoresStepBy(w, w', id, e)
    ensures StoresMatch(w')
  {
    var h, h' := w.history, w'.history;
    assert h'[|h|] == e;
    forall p: nat, k: nat | p < |h| ensures IsStoreOf(h', p, k) <==> IsStoreOf(h, p, k) {
    }
    if e.Stored? {
      forall p: nat | p < |h| ensures !IsStoreOf(h, p, e.id) {
        assert StoredBy(w.connections, h[p]);
      }
      assert IsStoreOf(h', |h|, e.id);
    }
    forall k: nat | k < |w'.connections| && IsDelivered(w'.connections[k]) ensures exists p: nat :: IsStoreOf(h', p, k) {
      if !(e.Stored? && k == e.id) {
        var p: nat :| IsStoreOf(h, p, k);
        assert IsStoreOf(h', p, k);
      }
    }
  }

  lemma {:induction false} RunKeepsStores(cfg: Config, actions: seq<Action>)
    ensures StoresMatch(Run(Start(cfg), actions))
  {
    hide StoresMatch, StoresStep, Step, Inv, AllStoredBy;
    if actions == [] {
      NoStores(cfg);
    } else {
      var before := Run(Start(cfg), actions[..|actions| - 1]);
      RunKeepsStores(cfg, actions[..|actions| - 1]);
      RunKeepsInv(cfg, actions[..|actions| - 1]);
      InvMeansStoredBy(before);
      StepIsStoresStep(before, actions[|actions| - 1]);
      var id: nat :| StoresStep(before, Step(before, actions[|actions| - 1]), id);
      StepKeepsStores(before, Step(before, actions[|actions| - 1]), id);
    }
  }

  lemma NoStores(cfg: Config)
    ensures StoresMatch(Start(cfg))
  {
  }

  lemma InvMeansStoredBy(w: World)
    requires Inv(w)
    ensures AllStoredBy(w.connections, w.history)
  {
  }

  /** The one message a connection has stored. */
  ghost predicate StoredOnce(w: World, id: nat) {
    exists p: nat :: IsStoreOf(w.history, p, id) && StoredBy(w.connections, w.history[p])
                     && forall q: nat :: IsStoreOf(w.history, q, id) ==> q == p
  }

  /** In every reachable state the tables are the log: numbers run from 0 without a
      gap and each mailbox's index is the log's positions for it. A connection is
      answered 20 if and only if it has stored exactly one message, its own delivery;
      and there are as many messages as such replies. */
  lemma IndexAgreesWithLog(cfg: Config, actions: seq<Action>)
    ensures var w := Run(Start(cfg), actions);
            && Agrees(w.tables, Mail(w.history))
            && |Mail(w.history)| == Delivered(w.connections)
            && (forall p :: 0 <= p < |w.history| ==> StoredBy(w.connections, w.history[p]))
            && forall id: nat :: id < |w.connections| ==> (IsDelivered(w.connections[id]) <==> StoredOnce(w, id))
  {
    hide Run, Agrees, PinsAgree, EventsRight, Mail, Delivered, ConnectionsOk;
    RunKeepsInv(cfg, actions);
    RunKeepsStores(cfg, actions);
    var w := Run(Start(cfg), actions);
    forall id: nat | id < |w.connections| ensures IsDelivered(w.connections[id]) <==> StoredOnce(w, id) {
      if IsDelivered(w.connections[id]) {
        var p: nat :| IsStoreOf(w.history, p, id);
        assert StoredBy(w.connections, w.history[p]);
      }
    }
  }

  lemma {:induction false} MailIsStored(history: seq<Event>, m: ReceivedMessage)
    requires m in Mail(history)
    ensures exists p :: 0 <= p < |history| && history[p].Stored? && history[p].message == m
  {
    var front := history[..|history| - 1];
    if m in Mail(front) {
      MailIsStored(front, m);
      var p :| 0 <= p < |front| && front[p].Stored? && front[p].message == m;
      assert history[p] == front[p];
    } else {
      assert history[|history| - 1].message == m;
    }
  }

  /** A connection delivered this message to this very address. */
  predicate DeliveredTo(connections: seq<Connection>, id: nat, address: Address, m: ReceivedMessage) {
    && id < |connections| && IsDelivered(connections[id]) && connections[id].delivery.Some?
    && connections[id].delivery.value.recipient == address
    && connections[id].delivery.value.message == m.body
    && connections[id].delivery.value.fingerprint == m.fingerprint
  }

  /** Reading an address's mail finds nothing that was not delivered to it: addresses
      written differently never share a mailbox. */
  lemma MailIsTheOwners(cfg: Config, actions: seq<Action>, address: Address, m: ReceivedMessage)
    requires IsParsed(address) && m in MailFor(Mail(Run(Start(cfg), actions).history), AddrSpec(address))
    ensures exists id :: DeliveredTo(Run(Start(cfg), actions).connections, id, address, m)
  {
    hide Run, Agrees, PinsAgree, EventsRight, MailFor, Mail, Delivered;
    RunKeepsInv(cfg, actions);
    var w := Run(Start(cfg), actions);
    MailNumbered(w.tables, Mail(w.history));
    MailForShape(Mail(w.history), AddrSpec(address));
    MailIsStored(w.history, m);
    var p :| 0 <= p < |w.history| && w.history[p].Stored? && w.history[p].message == m;
    assert StoredBy(w.connections, w.history[p]);
    var id := w.history[p].id;
    assert ConnectionOk(w.cfg, w.history, w.connections[id], id);
    KeysAreDistinct(address, w.connections[id].delivery.value.recipient);
    assert DeliveredTo(w.connections, id, address, m);
  }

  lemma MailNumbered(t: Tables, log: seq<ReceivedMessage>)
    requires Agrees(t, log)
    ensures forall i :: 0 <= i < |log| ==> log[i].number == i
  {
  }

  // ------------------------------------------------------------------ senders

  predicate SenderKnown(t: Tables, c: Connection) {
    c.delivery.Some? && (c.stage.Storing? || IsDelivered(c)) ==> c.delivery.value.fingerprint in t.senders
  }

  /** Every sender whose message is being stored, or has been, is on record. */
  predicate SendersKnown(w: World) {
    forall id :: 0 <= id < |w.connections| ==> SenderKnown(w.tables, w.connections[id])
  }

  /** First-seen times are only ever added. */
  predicate SendersKept(t: Tables, t': Tables) {
    forall f :: f in t.senders ==> f in t'.senders && t'.senders[f] == t.senders[f]
  }

  lemma ProgressRecordsSender(cfg: Config, t: Tables, id: nat, d: Delivery, stage: Stage, fails: bool)
    requires stage.Checking? ==> d.sender.Some?
    requires SenderKnown(t, Connection(Some(d), stage))
    ensures var (stage', t', _) := Progress(cfg, t, id, d, stage, fails);
            SendersKept(t, t') && SenderKnown(t', Connection(Some(d), stage'))
  {
    hide AddrSpec, NewMessage;
  }

  lemma StepKeepsSenders(w: World, a: Action)
    requires SendersKnown(w)
    ensures SendersKnown(Step(w, a)) && SendersKept(w.tables, Step(w, a).tables)
  {
    hide Screen, Progress;
    match a
    case Arrive(request) => OpenedIsOk(w.cfg, request);
    case Advance(id, fails) =>
      if id < |w.connections| && w.connections[id].delivery.Some? && Sensible(w.connections[id]) {
        var c := w.connections[id];
        assert SenderKnown(w.tables, c);
        ProgressRecordsSender(w.cfg, w.tables, id, c.delivery.value, c.stage, fails);
        assert forall k :: 0 <= k < |w.connections| ==> SenderKnown(w.tables, w.connections[k]);
      }
    case Forget(_, _) =>
      assert forall k :: 0 <= k < |w.connections| ==> SenderKnown(w.tables, w.connections[k]);
  }

  /** A sender's first-seen time, once recorded, is never overwritten or lost. */
  lemma {:induction false} FirstSeenIsKept(w: World, actions: seq<Action>)
    requires SendersKnown(w)
    ensures SendersKnown(Run(w, actions)) && SendersKept(w.tables, Run(w, actions).tables)
  {
    hide Step, SendersKnown;
    if actions != [] {
      var before := actions[..|actions| - 1];
      FirstSeenIsKept(w, before);
      StepKeepsSenders(Run(w, before), actions[|actions| - 1]);
    }
  }

  /** In every reachable state the sender of every stored message is on record. */
  lemma StoredSendersAreKnown(cfg: Config, actions: seq<Action>, p: nat)
    requires var h := Run(Start(cfg), actions).history;
             p < |h| && h[p].Stored?
    ensures var w := Run(Start(cfg), actions);
            w.history[p].message.fingerprint in w.tables.senders
  {
    hide Run, Agrees, PinsAgree, EventsRight, Mail, Delivered, WellScreened;
    RunKeepsInv(cfg, actions);
    FirstSeenIsKept(Start(cfg), actions);
    var w := Run(Start(cfg), actions);
    assert StoredBy(w.connections, w.history[p]);
    assert SenderKnown(w.tables, w.connections[w.history[p].id]);
  }

  // ---------------------------------------------- uninterrupted deliveries

  /** The next `n` transactions of a connection, with nothing in between. */
  function CarryOn(w: World, id: nat, faults: Faults, n: nat): World
    requires id < |w.connections|
    decreases n
  {
    if n == 0 then w
    else CarryOn(Step(w, Advance(id, FaultAt(faults, w.connections[id].stage))), id, faults, n - 1)
  }

  lemma {:induction false} CarryingOn(w: World, id: nat, d: Delivery, faults: Faults, n: nat)
    requires id < |w.connections| && w.connections[id].delivery == Some(d) && Sensible(w.connections[id])
    requires n >= Remaining(w.connections[id].stage)
    ensures var (response, tables, events) := Carried(w.cfg, w.tables, id, d, w.connections[id].stage, faults);
            CarryOn(w, id, faults, n) ==
            World(w.cfg, tables, w.connections[id := Connection(Some(d), Answered(response))], w.history + events)
    decreases n
  {
    hide Appended, IdentityChecked, SenderRecorded, NewMessage;
    var c := w.connections[id];
    if n == 0 {
      assert w.connections[id := c] == w.connections && w.history + [] == w.history;
    } else {
      var w' := Step(w, Advance(id, FaultAt(faults, c.stage)));
      CarryingOn(w', id, d, faults, n - 1);
      var (stage, tables, events) := Progress(w.cfg, w.tables, id, d, c.stage, FaultAt(faults, c.stage));
      var more := Carried(w.cfg, tables, id, d, stage, faults).2;
      assert w.history + events + more == w.history + (events + more);
      if c.stage.Answered? {
        assert events == [] && more == [];
      }
    }
  }

  lemma {:induction false} NothingToCarry(w: World, id: nat, faults: Faults, n: nat)
    requires id < |w.connections| && w.connections[id].delivery.None?
    ensures CarryOn(w, id, faults, n) == w
    decreases n
  {
    if n > 0 { NothingToCarry(w, id, faults, n - 1); }
  }

  /** A request whose three transactions nothing interrupts is exactly a dispatch. */
  lemma UninterruptedIsDispatch(w: World, request: Request, faults: Faults)
    ensures var id := |w.connections|;
            var (response, tables, events) := Dispatched(w.cfg, w.tables, id, request, faults);
            var w' := CarryOn(Step(w, Arrive(request)), id, faults, 3);
            && w'.tables == tables && w'.history == w.history + events
            && |w'.connections| == id + 1 && w'.connections[..id] == w.connections
            && w'.connections[id].stage == Answered(response)
  {
    hide Screen, Carried;
    var id := |w.connections|;
    var w1 := Step(w, Arrive(request));
    OpenedIsOk(w.cfg, request);
    match Screen(w.cfg, request)
    case Accepted(d) =>
      CarryingOn(w1, id, d, faults, 3);
    case Refused(response) =>
      NothingToCarry(w1, id, faults, 3);
      assert w.history + [] == w.history;
  }

  // --------------------------------------------------- without the rejection

  function Uninterrupted(id: nat, request: Request): seq<Action> {
    [Arrive(request), Advance(id, false), Advance(id, false), Advance(id, false)]
  }

  lemma {:induction false} RunInTwo(w: World, first: seq<Action>, second: seq<Action>)
    ensures Run(w, first + second) == Run(Run(w, first), second)
  {
    var whole := first + second;
    if second == [] {
      assert whole == first;
    } else {
      RunInTwo(w, first, second[..|second| - 1]);
      assert whole[..|whole| - 1] == first + second[..|second| - 1];
    }
  }

  lemma RunOfFour(w: World, a: Action, b: Action, c: Action, d: Action)
    ensures Run(w, [a, b, c, d]) == Step(Step(Step(Step(w, a), b), c), d)
  {
    hide Run, Step;
    RunOneMore(w, [], a);
    RunOneMore(w, [a], b);
    RunOneMore(w, [a, b], c);
    RunOneMore(w, [a, b, c], d);
    assert Run(w, []) == w by { RunNone(w); }
    assert [] + [a] == [a] && [a] + [b] == [a, b] && [a, b] + [c] == [a, b, c] && [a, b, c] + [d] == [a, b, c, d];
  }

  lemma RunNone(w: World)
    ensures Run(w, []) == w
  {
  }

  lemma RunOneMore(w: World, actions: seq<Action>, a: Action)
    ensures Run(w, actions + [a]) == Step(Run(w, actions), a)
  {
    assert (actions + [a])[..|actions|] == actions;
  }

  lemma RunUninterrupted(w: World, request: Request)
    requires Screen(w.cfg, request).Accepted? && !w.cfg.rejectChanged
    requires Screen(w.cfg, request).delivery.sender.Some?
    ensures var w' := Run(w, Uninterrupted(|w.connections|, request));
            var d := Screen(w.cfg, request).delivery;
            && w'.cfg == w.cfg && |w'.connections| == |w.connections| + 1 && |w'.history| == |w.history| + 2
            && w'.history[..|w.history|] == w.history
            && w'.history[|w.history|].Checked?
            && w'.history[|w.history| + 1].Stored?
            && var m := w'.history[|w.history| + 1].message;
               m.sender == Some(AddrSpec(d.sender.value)) && m.fingerprint == d.fingerprint
  {
    hide Screen, Appended, IdentityChecked, SenderRecorded, AddrSpec;
    var id := |w.connections|;
    RunOfFour(w, Arrive(request), Advance(id, false), Advance(id, false), Advance(id, false));
    var w1 := Step(w, Arrive(request));
    var w2 := Step(w1, Advance(id, false));
    var w3 := Step(w2, Advance(id, false));
    assert w2.connections[id].stage == Recording;
    assert w3.connections[id].stage == Storing && w3.history == w2.history;
  }

  /** With changed senders let through, two certificates deliver under one address
      and nothing is forgotten: the guarantee is the setting's. */
  lemma LetThroughWithoutRejection(cfg: Config, first: Request, second: Request)
    requires !cfg.rejectChanged
    requires Screen(cfg, first).Accepted? && Screen(cfg, second).Accepted?
    requires var d, e := Screen(cfg, first).delivery, Screen(cfg, second).delivery;
             d.sender.Some? && e.sender == d.sender && d.fingerprint != e.fingerprint
    ensures var h := Run(Start(cfg), Uninterrupted(0, first) + Uninterrupted(1, second)).history;
            && |h| == 4 && h[1].Stored? && h[3].Stored?
            && h[1].message.sender == h[3].message.sender && h[1].message.sender.Some?
            && h[1].message.fingerprint != h[3].message.fingerprint
            && forall k :: 0 <= k < 4 ==> !h[k].Forgot?
  {
    hide Run, Screen, Uninterrupted;
    var w := Run(Start(cfg), Uninterrupted(0, first));
    RunInTwo(Start(cfg), Uninterrupted(0, first), Uninterrupted(1, second));
    RunUninterrupted(Start(cfg), first);
    RunUninterrupted(w, second);
    var h := Run(w, Uninterrupted(1, second)).history;
    assert h[0] == w.history[0] && h[1] == w.history[1];
  }
}
