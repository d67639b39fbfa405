/** The Misfin request handler (`crates/misfin/src/server.rs`): every decision from a
    request line to a reply. Certificates, their fingerprints and URL parsing are
    inputs. */
module MisfinServer {
  import opened Text
  import opened MisfinAddress
  import opened MisfinMailbox

  datatype Response = Response(status: nat, meta: string)

  datatype ServedMailbox = ServedMailbox(address: Address, fingerprint: string)

  datatype Config = Config(served: seq<ServedMailbox>, requireIdentity: bool, rejectChanged: bool)

  /** What a certificate's fields say of its holder. */
  datatype Identity = Identity(expired: bool, mailbox: Option<string>, hosts: seq<string>)

  datatype Certificate = Certificate(fingerprint: string, identity: Option<Identity>)

  /** A request line, what a URL parser makes of its target, and the peer. */
  datatype Request = Request(line: string, url: Option<UrlParts>, certificate: Option<Certificate>, now: nat)

  /** A request that passed every check that needs no storage. */
  datatype Delivery = Delivery(
    recipient: Address,
    fingerprint: string,
    sender: Option<Address>,
    message: string,
    now: nat,
    receipt: string)

  datatype Screened = Refused(response: Response) | Accepted(delivery: Delivery)

  const SCHEME: string := "misfin://"

  function SplitRequest(line: string): Option<(string, string)> {
    match SplitOnce(TrimStart(line), ' ')
    case None => None
    case Some((target, message)) => if StartsWith(target, SCHEME) then Some((target, message)) else None
  }

  predicate ServesHost(served: seq<ServedMailbox>, host: string) {
    exists i :: 0 <= i < |served| && served[i].address.host == host
  }

  /** The first served mailbox with the address. */
  function FindMailbox(served: seq<ServedMailbox>, recipient: Address): (found: Option<ServedMailbox>)
    ensures found.Some? <==> exists i :: 0 <= i < |served| && served[i].address == recipient
    ensures found.Some? ==> found.value in served && found.value.address == recipient
  {
    if served == [] then None
    else if served[0].address == recipient then Some(served[0])
    else
      assert forall i :: 0 < i < |served| ==> served[i] == served[1..][i - 1];
      FindMailbox(served[1..], recipient)
  }

  function ClaimedAddress(identity: Identity): Option<Address> {
    if identity.mailbox.None? || identity.hosts == [] then None
    else ParseAddress(identity.mailbox.value + "@" + identity.hosts[0])
  }

  function Claimed(certificate: Certificate): Option<Address> {
    if certificate.identity.None? then None else ClaimedAddress(certificate.identity.value)
  }

  function Screen(cfg: Config, request: Request): Screened {
    if request.certificate.None? then Refused(Response(60, "Certificate required."))
    else if SplitRequest(request.line).None? then Refused(Response(59, "Malformed request."))
    else
      var recipient := if request.url.None? then None else FromUrl(request.url.value);
      if recipient.None? then Refused(Response(59, "Malformed recipient address."))
      else if !ServesHost(cfg.served, recipient.value.host) then Refused(Response(53, "Domain not serviced."))
      else if FindMailbox(cfg.served, recipient.value).None? then Refused(Response(51, "Mailbox doesn't exist."))
      else
        var certificate := request.certificate.value;
        var identity := certificate.identity;
        if identity.Some? && identity.value.expired then
          Refused(Response(62, "Certificate is outside its validity window."))
        else if Claimed(certificate).None? && cfg.requireIdentity then
          Refused(Response(62, "Certificate is not a misfin identity."))
        else
          Accepted(Delivery(recipient.value, certificate.fingerprint, Claimed(certificate), SplitRequest(request.line).value.1,
                            request.now, FindMailbox(cfg.served, recipient.value).value.fingerprint))
  }

  /** A request line is taken apart at its first space past leading whitespace. */
  lemma SplitRequestShape(line: string, target: string, message: string)
    ensures SplitRequest(line) == Some((target, message)) <==>
            TrimStart(line) == target + " " + message && ' ' !in target && StartsWith(target, "misfin://")
  {
    SplitOnceShape(TrimStart(line), ' ');
    if TrimStart(line) == target + " " + message && ' ' !in target {
      SplitOnceUnique(target, message, ' ');
    }
  }

  /** What every accepted delivery looks like. */
  predicate WellScreened(cfg: Config, d: Delivery) {
    && IsParsed(d.recipient)
    && ServedMailbox(d.recipient, d.receipt) in cfg.served
    && (d.sender.Some? ==> IsParsed(d.sender.value))
    && (cfg.requireIdentity ==> d.sender.Some?)
  }

  lemma ScreeningIsSound(cfg: Config, request: Request)
    requires Screen(cfg, request).Accepted?
    ensures WellScreened(cfg, Screen(cfg, request).delivery)
  {
    FromUrlIsParsed(request.url.value);
    var certificate := request.certificate.value;
    if Claimed(certificate).Some? {
      var identity := certificate.identity.value;
      ParsedIsParsed(identity.mailbox.value + "@" + identity.hosts[0]);
    }
  }

  /** A refusal's status: 60, 59, 53, 51 or 62; and 51 only where the host is served. */
  lemma RefusalStatus(cfg: Config, request: Request)
    requires Screen(cfg, request).Refused?
    ensures var status := Screen(cfg, request).response.status;
            && status in {51, 53, 59, 60, 62}
            && (status == 60 <==> request.certificate.None?)
            && (status in {51, 53} ==> request.url.Some? && FromUrl(request.url.value).Some?)
            && (status in {51, 53} ==> var to := FromUrl(request.url.value).value;
                                       && (status == 51 <==> ServesHost(cfg.served, to.host))
                                       && forall i :: 0 <= i < |cfg.served| ==> cfg.served[i].address != to)
  {
  }

  /** The address a certificate claims: its mailbox at its first host, if it has both
      and they make an address. */
  ghost predicate Claims(certificate: Certificate, claimed: Option<Address>) {
    match certificate
    case Certificate(_, Some(Identity(_, Some(mailbox), hosts))) =>
      if hosts == [] then claimed.None? else claimed == ParseAddress(mailbox + "@" + hosts[0])
    case _ => claimed.None?
  }

  predicate IsExpired(certificate: Certificate) {
    certificate.identity.Some? && certificate.identity.value.expired
  }

  /** The receipt for an address: the fingerprint of the first mailbox served under it. */
  ghost predicate IsReceipt(served: seq<ServedMailbox>, recipient: Address, receipt: string) {
    exists i :: 0 <= i < |served| && served[i] == ServedMailbox(recipient, receipt)
                && forall j :: 0 <= j < i ==> served[j].address != recipient
  }

  lemma {:induction false} FindsTheFirst(served: seq<ServedMailbox>, recipient: Address)
    ensures match FindMailbox(served, recipient)
            case Some(mailbox) => mailbox.address == recipient && IsReceipt(served, recipient, mailbox.fingerprint)
            case None => forall i :: 0 <= i < |served| ==> served[i].address != recipient
  {
    if served != [] && served[0].address != recipient {
      FindsTheFirst(served[1..], recipient);
      var found := FindMailbox(served[1..], recipient);
      if found.Some? {
        var i :| 0 <= i < |served[1..]| && served[1..][i] == ServedMailbox(recipient, found.value.fingerprint)
                 && forall j :: 0 <= j < i ==> served[1..][j].address != recipient;
        assert served[i + 1] == ServedMailbox(recipient, found.value.fingerprint);
        assert forall j :: 0 < j < i + 1 ==> served[j] == served[1..][j - 1];
      } else {
        assert forall j :: 0 < j < |served| ==> served[j] == served[1..][j - 1];
      }
    }
  }

  lemma OneReceipt(served: seq<ServedMailbox>, recipient: Address, a: string, b: string)
    requires IsReceipt(served, recipient, a) && IsReceipt(served, recipient, b)
    ensures a == b
  {
  }

  /** The request asks for a delivery of this message to this address. */
  ghost predicate AsksFor(request: Request, recipient: Address, message: string) {
    && (exists target :: TrimStart(request.line) == target + " " + message && ' ' !in target && StartsWith(target, "misfin://"))
    && request.url.Some? && FromUrl(request.url.value) == Some(recipient)
  }

  /** Everything a delivery accepted from a request is. */
  ghost predicate Acceptable(cfg: Config, request: Request, d: Delivery) {
    && request.certificate.Some? && AsksFor(request, d.recipient, d.message)
    && IsReceipt(cfg.served, d.recipient, d.receipt)
    && !IsExpired(request.certificate.value)
    && d.fingerprint == request.certificate.value.fingerprint && Claims(request.certificate.value, d.sender)
    && (cfg.requireIdentity ==> d.sender.Some?)
    && d.now == request.now
  }

  /** A request is accepted for a delivery if and only if a certificate is presented and
      in date, the line splits, the address is served, and an identity is claimed where
      one is required; the delivery is then of the text after the first space, to the
      URL's address, from the address the certificate claims, under its fingerprint. */
  lemma ScreenExactly(cfg: Config, request: Request, d: Delivery)
    ensures Screen(cfg, request) == Accepted(d) <==> Acceptable(cfg, request, d)
  {
    hide FromUrl, ParseAddress, FindMailbox, StartsWith, TrimStart, SplitRequest, IsReceipt;
    if Screen(cfg, request) == Accepted(d) {
      var (target, message) := SplitRequest(request.line).value;
      SplitRequestShape(request.line, target, message);
      FindsTheFirst(cfg.served, d.recipient);
    }
    if Acceptable(cfg, request, d) {
      var target :| TrimStart(request.line) == target + " " + d.message && ' ' !in target && StartsWith(target, "misfin://");
      SplitRequestShape(request.line, target, d.message);
      FindsTheFirst(cfg.served, d.recipient);
      ReceiptMeansServed(cfg.served, d.recipient, d.receipt);
      OneReceipt(cfg.served, d.recipient, d.receipt, FindMailbox(cfg.served, d.recipient).value.fingerprint);
    }
  }

  lemma ReceiptMeansServed(served: seq<ServedMailbox>, recipient: Address, receipt: string)
    requires IsReceipt(served, recipient, receipt)
    ensures ServesHost(served, recipient.host) && FindMailbox(served, recipient).Some?
  {
  }

  /** Every refusal, and exactly when it is given: each one only where none before it is. */
  lemma RefusedExactly(cfg: Config, request: Request)
    ensures var screened := Screen(cfg, request);
            var recipient := if request.url.None? then None else FromUrl(request.url.value);
            var status := if screened.Refused? then screened.response.status else 0;
            var bare := request.certificate.None?;
            var malformed := SplitRequest(request.line).None? || recipient.None?;
            && (status == 60 <==> bare)
            && (status == 59 <==> !bare && malformed)
            && (status == 53 <==> !bare && !malformed && forall i :: 0 <= i < |cfg.served| ==>
                                                              cfg.served[i].address.host != recipient.value.host)
            && (status == 51 <==> !bare && !malformed && (exists i :: 0 <= i < |cfg.served| &&
                                                              cfg.served[i].address.host == recipient.value.host)
                                  && forall i :: 0 <= i < |cfg.served| ==> cfg.served[i].address != recipient.value)
            && (status == 62 <==> !bare && !malformed
                                  && (exists i :: 0 <= i < |cfg.served| && cfg.served[i].address == recipient.value)
                                  && (IsExpired(request.certificate.value)
                                      || (cfg.requireIdentity && Claims(request.certificate.value, None))))
            && (screened.Refused? ==> status in {51, 53, 59, 60, 62})
  {
    hide FromUrl, ParseAddress, SplitRequest, StartsWith;
  }

  /** The words that go with each refusal. */
  lemma RefusalWords(cfg: Config, request: Request)
    requires Screen(cfg, request).Refused?
    ensures var response := Screen(cfg, request).response;
            match response.status
            case 60 => response.meta == "Certificate required."
            case 59 => response.meta == if SplitRequest(request.line).None? then "Malformed request."
                                        else "Malformed recipient address."
            case 53 => response.meta == "Domain not serviced."
            case 51 => response.meta == "Mailbox doesn't exist."
            case _ => response.meta == if IsExpired(request.certificate.value) then "Certificate is outside its validity window."
                                       else "Certificate is not a misfin identity."
  {
    hide FromUrl, ParseAddress, SplitRequest, StartsWith;
  }

  // ------------------------------------------------------------- one delivery

  datatype Stage = Checking | Recording | Storing | Answered(response: Response)

  /** What a transaction adds to a server's history. */
  datatype Event =
    | Checked(id: nat, key: string, fingerprint: string, check: IdentityCheck)
    | Stored(id: nat, message: ReceivedMessage)
    | Forgot(key: string, existed: bool)

  const STORAGE_TROUBLE := Response(40, "Temporary server error.")

  const LIAR := Response(63, "Your fingerprint changed for a known identity.")

  /** Where a delivery starts: only a claimed address is checked. */
  function FirstStage(d: Delivery): Stage {
    if d.sender.Some? then Checking else Recording
  }

  function MessageOf(t: Tables, d: Delivery): ReceivedMessage {
    NewMessage(t, d.recipient, d.fingerprint, d.sender, d.message, d.now)
  }

  /** A delivery's next transaction. */
  function Progress(cfg: Config, t: Tables, id: nat, d: Delivery, stage: Stage, fails: bool): (Stage, Tables, seq<Event>)
    requires stage.Checking? ==> d.sender.Some?
  {
    match stage
    case Checking =>
      if fails then (Answered(STORAGE_TROUBLE), t, [])
      else
        var key := AddrSpec(d.sender.value);
        var (check, t') := IdentityChecked(t, key, d.fingerprint, d.now);
        (if check.Changed? && cfg.rejectChanged then Answered(LIAR) else Recording,
         t', [Checked(id, key, d.fingerprint, check)])
    case Recording =>
      if fails then (Answered(STORAGE_TROUBLE), t, []) else (Storing, SenderRecorded(t, d.fingerprint, d.now).1, [])
    case Storing =>
      if fails then (Answered(STORAGE_TROUBLE), t, [])
      else (Answered(Response(20, d.receipt)), Appended(t, MessageOf(t, d)), [Stored(id, MessageOf(t, d))])
    case Answered(_) => (stage, t, [])
  }

  /** Which of a delivery's transactions the storage fails. */
  datatype Faults = Faults(check: bool, record: bool, store: bool)

  function FaultAt(faults: Faults, stage: Stage): bool {
    match stage
    case Checking => faults.check
    case Recording => faults.record
    case _ => faults.store
  }

  function Remaining(stage: Stage): nat {
    match stage
    case Checking => 3
    case Recording => 2
    case Storing => 1
    case Answered(_) => 0
  }

  /** A delivery carried to its end with nothing in between. */
  function Carried(cfg: Config, t: Tables, id: nat, d: Delivery, stage: Stage, faults: Faults): (Response, Tables, seq<Event>)
    requires stage.Checking? ==> d.sender.Some?
    decreases Remaining(stage)
  {
    match stage
    case Answered(response) => (response, t, [])
    case _ =>
      var (next, t', events) := Progress(cfg, t, id, d, stage, FaultAt(faults, stage));
      var (response, t'', more) := Carried(cfg, t', id, d, next, faults);
      (response, t'', events + more)
  }

  function Dispatched(cfg: Config, t: Tables, id: nat, request: Request, faults: Faults): (Response, Tables, seq<Event>) {
    match Screen(cfg, request)
    case Refused(response) => (response, t, [])
    case Accepted(d) => Carried(cfg, t, id, d, FirstStage(d), faults)
  }

  class Dispatcher {
    const cfg: Config
    const store: MailboxStore

    constructor (cfg: Config, store: MailboxStore)
      ensures this.cfg == cfg && this.store == store
    {
      this.cfg := cfg;
      this.store := store;
    }

    /** One request, decided and carried out. */
    method Dispatch(request: Request, faults: Faults) returns (response: Response)
      requires store.Valid()
      modifies store
      ensures store.Valid()
      ensures var (r, t, _) := Dispatched(cfg, old(store.Contents()), 0, request, faults);
              response == r && store.Contents() == t
    {
      hide Screen, Appended, IdentityChecked, SenderRecorded, NewMessage, Agrees;
      match Screen(cfg, request) {
        case Refused(refusal) =>
          return refusal;
        case Accepted(d) =>
          if d.sender.Some? {
            var check := store.CheckAndRecordIdentity(AddrSpec(d.sender.value), d.fingerprint, d.now, faults.check);
            if check.Err? {
              return STORAGE_TROUBLE;
            }
            if check.value.Changed? && cfg.rejectChanged {
              return LIAR;
            }
          }
          var recorded := store.RecordSender(d.fingerprint, d.now, faults.record);
          if recorded.Err? {
            return STORAGE_TROUBLE;
          }
          var stored := store.Store(d.recipient, d.fingerprint, d.sender, d.message, d.now, faults.store);
          if stored.Err? {
            return STORAGE_TROUBLE;
          }
          return Response(20, d.receipt);
      }
    }
  }

  /** A reply of 20 means the message, and only it, was added to the store; any other
      reply leaves messages, index and numbering alone. */
  lemma OnlyDeliveredIsStored(cfg: Config, t: Tables, id: nat, request: Request, faults: Faults)
    ensures var (response, t', _) := Dispatched(cfg, t, id, request, faults);
            if response.status == 20 then
              Screen(cfg, request).Accepted?
              && var d := Screen(cfg, request).delivery;
                 && response.meta == d.receipt
                 && t'.(senders := t.senders, identities := t.identities) == Appended(t, MessageOf(t, d))
            else
              t'.(senders := t.senders, identities := t.identities) == t
  {
    if Screen(cfg, request).Refused? {
      RefusalStatus(cfg, request);
    } else {
      CarriedStores(cfg, t, id, Screen(cfg, request).delivery, FirstStage(Screen(cfg, request).delivery), faults);
    }
  }

  lemma ChecksLeaveMail(t: Tables, d: Delivery)
    ensures d.sender.Some? ==>
              IdentityChecked(t, AddrSpec(d.sender.value), d.fingerprint, d.now).1.(identities := t.identities) == t
    ensures SenderRecorded(t, d.fingerprint, d.now).1.(senders := t.senders) == t
  {
  }

  lemma SameMail(t: Tables, t': Tables, d: Delivery)
    requires t'.(senders := t.senders, identities := t.identities) == t
    ensures MessageOf(t', d) == MessageOf(t, d)
    ensures Appended(t', MessageOf(t, d)).(senders := t.senders, identities := t.identities) == Appended(t, MessageOf(t, d))
  {
  }

  lemma {:induction false} CarriedStores(cfg: Config, t: Tables, id: nat, d: Delivery, stage: Stage, faults: Faults)
    requires stage.Checking? ==> d.sender.Some?
    requires !stage.Answered?
    ensures var (response, t', _) := Carried(cfg, t, id, d, stage, faults);
            if response.status == 20 then
              response.meta == d.receipt
              && t'.(senders := t.senders, identities := t.identities) == Appended(t, MessageOf(t, d))
            else
              t'.(senders := t.senders, identities := t.identities) == t
    decreases Remaining(stage)
  {
    hide Appended, IdentityChecked, SenderRecorded;
    var (next, t', events) := Progress(cfg, t, id, d, stage, FaultAt(faults, stage));
    ChecksLeaveMail(t, d);
    SameMail(t, t, d);
    if !next.Answered? {
      SameMail(t, t', d);
      CarriedStores(cfg, t', id, d, next, faults);
    }
  }

  /** The address of a claimed sender is pinned to another fingerprint. */
  predicate PinnedElsewhere(t: Tables, d: Delivery) {
    && d.sender.Some? && AddrSpec(d.sender.value) in t.identities
    && t.identities[AddrSpec(d.sender.value)].fingerprint != d.fingerprint
  }

  /** The reply to every request that passes screening: 40 where its next transaction
      fails; 63, with nothing stored, where its claimed address is pinned to another
      fingerprint and that is rejected, whatever else is required of senders; 20 with
      the mailbox's own fingerprint otherwise. */
  lemma ReplyExactly(cfg: Config, t: Tables, id: nat, request: Request, faults: Faults, d: Delivery)
    requires Acceptable(cfg, request, d)
    ensures var (response, t', _) := Dispatched(cfg, t, id, request, faults);
            && response ==
               (if d.sender.Some? && faults.check then Response(40, "Temporary server error.")
                else if cfg.rejectChanged && PinnedElsewhere(t, d) then
                  Response(63, "Your fingerprint changed for a known identity.")
                else if faults.record || faults.store then Response(40, "Temporary server error.")
                else Response(20, d.receipt))
            && (d.sender.Some? && !faults.check && AddrSpec(d.sender.value) !in t.identities ==>
                  t'.identities == t.identities[AddrSpec(d.sender.value) := Pinned(d.fingerprint, request.now)])
            && (d.sender.None? || faults.check || AddrSpec(d.sender.value) in t.identities ==> t'.identities == t.identities)
  {
    hide Screen, Appended, AddrSpec, NewMessage, SenderRecorded, Acceptable;
    ScreenExactly(cfg, request, d);
    SameTime(cfg, request, d);
    CarriedReply(cfg, t, id, d, faults);
  }

  lemma SameTime(cfg: Config, request: Request, d: Delivery)
    requires Acceptable(cfg, request, d)
    ensures d.now == request.now
  {
  }

  lemma CarriedReply(cfg: Config, t: Tables, id: nat, d: Delivery, faults: Faults)
    ensures var (response, t', _) := Carried(cfg, t, id, d, FirstStage(d), faults);
            && response ==
               (if d.sender.Some? && faults.check then STORAGE_TROUBLE
                else if cfg.rejectChanged && PinnedElsewhere(t, d) then LIAR
                else if faults.record || faults.store then STORAGE_TROUBLE
                else Response(20, d.receipt))
            && t'.identities ==
               if d.sender.Some? && !faults.check then IdentityChecked(t, AddrSpec(d.sender.value), d.fingerprint, d.now).1.identities
               else t.identities
  {
    hide Appended, AddrSpec, NewMessage, SenderRecorded;
    if d.sender.None? {
      CarriedFromRecording(cfg, t, id, d, faults);
    } else if !faults.check {
      CarriedFromRecording(cfg, IdentityChecked(t, AddrSpec(d.sender.value), d.fingerprint, d.now).1, id, d, faults);
    }
  }

  lemma CarriedFromRecording(cfg: Config, t: Tables, id: nat, d: Delivery, faults: Faults)
    ensures var (response, t', _) := Carried(cfg, t, id, d, Recording, faults);
            && response == (if faults.record || faults.store then STORAGE_TROUBLE else Response(20, d.receipt))
            && t'.identities == t.identities
  {
    hide NewMessage;
    var t1 := SenderRecorded(t, d.fingerprint, d.now).1;
    assert t1.identities == t.identities;
    assert Appended(t1, MessageOf(t1, d)).identities == t1.identities;
    if !faults.record {
      CarriedFromStoring(cfg, t1, id, d, faults);
    }
  }

  lemma CarriedFromStoring(cfg: Config, t: Tables, id: nat, d: Delivery, faults: Faults)
    ensures var (response, t', _) := Carried(cfg, t, id, d, Storing, faults);
            && response == (if faults.store then STORAGE_TROUBLE else Response(20, d.receipt))
            && t'.identities == t.identities
  {
    hide NewMessage;
    assert Appended(t, MessageOf(t, d)).identities == t.identities;
  }
}
