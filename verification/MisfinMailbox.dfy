/** The Misfin mailbox store (`crates/misfin/src/mailbox.rs`): each operation is one
    atomic transaction over the tables, and leaves them alone when it fails. */
module MisfinMailbox {
  import opened Text
  import opened MisfinAddress

  datatype ReceivedMessage = ReceivedMessage(
    number: nat,
    recipient: string,
    fingerprint: string,
    sender: Option<string>,
    body: string,
    receivedAt: nat)

  datatype Pinned = Pinned(fingerprint: string, firstSeen: nat)

  datatype SenderSeen = FirstSeen | KnownSender

  datatype IdentityCheck = FirstUse | SameAsPin | Changed(pinned: string)

  datatype StorageError = StorageError

  datatype Tables = Tables(
    messages: map<nat, ReceivedMessage>,
    index: map<string, set<nat>>,
    next: Option<nat>,
    senders: map<string, nat>,
    identities: map<string, Pinned>)

  const EMPTY := Tables(map[], map[], None, map[], map[])

  // ------------------------------------------------------- the transactions

  function NextNumber(t: Tables): nat {
    if t.next.Some? then t.next.value else 0
  }

  function Indexed(t: Tables, mailbox: string): set<nat> {
    if mailbox in t.index then t.index[mailbox] else {}
  }

  function NewMessage(t: Tables, recipient: Address, fingerprint: string, sender: Option<Address>,
                      body: string, now: nat): ReceivedMessage {
    ReceivedMessage(NextNumber(t), AddrSpec(recipient), fingerprint,
                    if sender.Some? then Some(AddrSpec(sender.value)) else None, body, now)
  }

  function Appended(t: Tables, m: ReceivedMessage): Tables {
    t.(next := Some(m.number + 1),
       messages := t.messages[m.number := m],
       index := t.index[m.recipient := Indexed(t, m.recipient) + {m.number}])
  }

  function SenderRecorded(t: Tables, fingerprint: string, now: nat): (SenderSeen, Tables) {
    if fingerprint in t.senders then (KnownSender, t)
    else (FirstSeen, t.(senders := t.senders[fingerprint := now]))
  }

  function IdentityChecked(t: Tables, key: string, fingerprint: string, now: nat): (IdentityCheck, Tables) {
    if key !in t.identities then
      (FirstUse, t.(identities := t.identities[key := Pinned(fingerprint, now)]))
    else if t.identities[key].fingerprint == fingerprint then (SameAsPin, t)
    else (Changed(t.identities[key].fingerprint), t)
  }

  function Forgotten(t: Tables, key: string): (bool, Tables) {
    (key in t.identities, t.(identities := t.identities - {key}))
  }

  // ------------------------------------------------------------- the mail log

  /** The messages stored so far, in order, as the tables hold them. */
  ghost predicate Agrees(t: Tables, log: seq<ReceivedMessage>) {
    && (forall i :: 0 <= i < |log| ==> log[i].number == i)
    && t.next == (if log == [] then None else Some(|log|))
    && (forall n: nat :: n in t.messages <==> n < |log|)
    && (forall i :: 0 <= i < |log| ==> t.messages[i] == log[i])
    && forall mailbox: string, n: nat :: n in Indexed(t, mailbox) <==> IsFor(log, mailbox, n)
  }

  predicate IsFor(log: seq<ReceivedMessage>, mailbox: string, n: nat) {
    n < |log| && log[n].recipient == mailbox
  }

  lemma EmptyAgrees()
    ensures Agrees(EMPTY, [])
  {
    forall mailbox: string, n: nat ensures n in Indexed(EMPTY, mailbox) <==> IsFor([], mailbox, n) {
    }
  }

  /** A mailbox's messages, in order of delivery. */
  function MailFor(log: seq<ReceivedMessage>, mailbox: string): seq<ReceivedMessage> {
    if log == [] then []
    else
      var last := log[|log| - 1];
      MailFor(log[..|log| - 1], mailbox) + if last.recipient == mailbox then [last] else []
  }

  /** Storing appends to the log and keeps tables and log in agreement. */
  lemma StoringAgrees(t: Tables, log: seq<ReceivedMessage>, m: ReceivedMessage)
    requires Agrees(t, log) && m.number == NextNumber(t)
    ensures Agrees(Appended(t, m), log + [m])
  {
    forall mailbox: string, n: nat ensures n in Indexed(Appended(t, m), mailbox) <==> IsFor(log + [m], mailbox, n) {
      assert n in Indexed(t, mailbox) <==> IsFor(log, mailbox, n);
      IndexedAfter(t, m, mailbox);
    }
  }

  lemma IndexedAfter(t: Tables, m: ReceivedMessage, mailbox: string)
    ensures Indexed(Appended(t, m), mailbox) == Indexed(t, mailbox) + if mailbox == m.recipient then {m.number} else {}
  {
  }

  /** Messages in strictly ascending order of their numbers. */
  predicate InOrder(v: seq<ReceivedMessage>) {
    forall i, j :: 0 <= i < j < |v| ==> v[i].number < v[j].number
  }

  lemma {:induction false} MailForShape(log: seq<ReceivedMessage>, mailbox: string)
    requires forall i :: 0 <= i < |log| ==> log[i].number == i
    ensures var v := MailFor(log, mailbox);
            InOrder(v) && forall m :: m in v <==> m in log && m.recipient == mailbox
    ensures forall m :: m in log ==> m.number < |log|
  {
    if log != [] {
      var front := log[..|log| - 1];
      MailForShape(front, mailbox);
      assert log == front + [log[|log| - 1]];
      forall m | m in MailFor(front, mailbox) ensures m.number < |front| {
        assert m in front;
      }
    }
  }

  /** The last of a list in order is its only highest; the rest are the others. */
  lemma LastIsHighest(v: seq<ReceivedMessage>)
    requires InOrder(v) && v != []
    ensures var last := v[|v| - 1];
            && last in v && (forall m :: m in v ==> m.number <= last.number)
            && (forall m :: m in v[..|v| - 1] <==> m in v && m.number < last.number)
  {
    var front, last := v[..|v| - 1], v[|v| - 1];
    assert v == front + [last];
    forall m | m in front ensures m.number < last.number {
      var i :| 0 <= i < |front| && front[i] == m;
      assert v[i] == m;
    }
  }

  /** Two lists in order with the same members are the same list. */
  lemma {:induction false} InOrderUnique(v: seq<ReceivedMessage>, w: seq<ReceivedMessage>)
    requires InOrder(v) && InOrder(w) && forall m :: m in v <==> m in w
    ensures v == w
  {
    assert v != [] ==> v[0] in w;
    assert w != [] ==> w[0] in v;
    if v != [] {
      LastIsHighest(v);
      LastIsHighest(w);
      InOrderUnique(v[..|v| - 1], w[..|w| - 1]);
      OnlyHighest(v, w[|w| - 1]);
      assert v == v[..|v| - 1] + [v[|v| - 1]] && w == w[..|w| - 1] + [w[|w| - 1]];
    }
  }

  lemma OnlyHighest(v: seq<ReceivedMessage>, m: ReceivedMessage)
    requires InOrder(v) && v != [] && m in v && forall x :: x in v ==> x.number <= m.number
    ensures m == v[|v| - 1]
  {
    LastIsHighest(v);
    assert v == v[..|v| - 1] + [v[|v| - 1]];
  }

  // ---------------------------------------------------------------- the store

  function Inserted(v: seq<ReceivedMessage>, m: ReceivedMessage): (w: seq<ReceivedMessage>) {
    if v == [] then [m]
    else if v[|v| - 1].number <= m.number then v + [m]
    else Inserted(v[..|v| - 1], m) + [v[|v| - 1]]
  }

  lemma AppendKeepsOrder(v: seq<ReceivedMessage>, m: ReceivedMessage)
    requires InOrder(v) && forall x :: x in v ==> x.number < m.number
    ensures InOrder(v + [m])
  {
    forall i | 0 <= i < |v| ensures v[i].number < m.number {
      assert v[i] in v;
    }
  }

  lemma {:induction false} InsertedKeepsOrder(v: seq<ReceivedMessage>, m: ReceivedMessage)
    requires InOrder(v) && forall x :: x in v ==> x.number != m.number
    ensures var w := Inserted(v, m);
            InOrder(w) && forall x :: x in w <==> x in v || x == m
  {
    if v != [] {
      var front, last := v[..|v| - 1], v[|v| - 1];
      assert v == front + [last];
      LastIsHighest(v);
      InsertedKeepsOrder(front, m);
      if last.number < m.number {
        AppendKeepsOrder(v, m);
      } else {
        AppendKeepsOrder(Inserted(front, m), last);
      }
    }
  }

  class MailboxStore {
    var messages: map<nat, ReceivedMessage>
    var index: map<string, set<nat>>
    var next: Option<nat>
    var senders: map<string, nat>
    var identities: map<string, Pinned>
    ghost var log: seq<ReceivedMessage>

    function Contents(): Tables
      reads this
    {
      Tables(messages, index, next, senders, identities)
    }

    ghost predicate Valid()
      reads this
    {
      Agrees(Contents(), log)
    }

    constructor ()
      ensures Valid() && Contents() == EMPTY && log == []
    {
      messages, index, next, senders, identities := map[], map[], None, map[], map[];
      log := [];
      new;
      EmptyAgrees();
    }

    /** Appends a delivered message to its recipient's mailbox. */
    method Store(recipient: Address, fingerprint: string, sender: Option<Address>, body: string, now: nat, fails: bool)
      returns (result: Result<nat, StorageError>)
      requires Valid()
      modifies this
      ensures Valid()
      ensures var m := NewMessage(old(Contents()), recipient, fingerprint, sender, body, now);
              if fails then result == Err(StorageError) && Contents() == old(Contents()) && log == old(log)
              else result == Ok(m.number) && Contents() == Appended(old(Contents()), m) && log == old(log) + [m]
    {
      hide Agrees;
      if fails {
        return Err(StorageError);
      }
      ghost var before := Contents();
      ghost var m := NewMessage(before, recipient, fingerprint, sender, body, now);
      var number := if next.Some? then next.value else 0;
      next := Some(number + 1);
      var spec := AddrSpec(recipient);
      messages := messages[number := ReceivedMessage(number, spec, fingerprint,
                                     if sender.Some? then Some(AddrSpec(sender.value)) else None, body, now)];
      var numbers := if spec in index then index[spec] else {};
      index := index[spec := numbers + {number}];
      StoringAgrees(before, log, m);
      log := log + [m];
      return Ok(number);
    }

    /** Records a sender's fingerprint; the first-seen time is never overwritten. */
    method RecordSender(fingerprint: string, now: nat, fails: bool) returns (result: Result<SenderSeen, StorageError>)
      requires Valid()
      modifies this
      ensures Valid() && log == old(log)
      ensures if fails then result == Err(StorageError) && Contents() == old(Contents())
              else (result, Contents()) == (Ok(SenderRecorded(old(Contents()), fingerprint, now).0),
                                            SenderRecorded(old(Contents()), fingerprint, now).1)
    {
      if fails {
        return Err(StorageError);
      }
      if fingerprint in senders {
        return Ok(KnownSender);
      }
      senders := senders[fingerprint := now];
      return Ok(FirstSeen);
    }

    /** Checks a fingerprint against the pin of the claimed address, pinning it on
        first contact; a changed fingerprint never overwrites the pin. */
    method CheckAndRecordIdentity(key: string, fingerprint: string, now: nat, fails: bool)
      returns (result: Result<IdentityCheck, StorageError>)
      requires Valid()
      modifies this
      ensures Valid() && log == old(log)
      ensures if fails then result == Err(StorageError) && Contents() == old(Contents())
              else (result, Contents()) == (Ok(IdentityChecked(old(Contents()), key, fingerprint, now).0),
                                            IdentityChecked(old(Contents()), key, fingerprint, now).1)
    {
      if fails {
        return Err(StorageError);
      }
      if key !in identities {
        identities := identities[key := Pinned(fingerprint, now)];
        return Ok(FirstUse);
      }
      var pinned := identities[key];
      return Ok(if pinned.fingerprint == fingerprint then SameAsPin else Changed(pinned.fingerprint));
    }

    /** Releases the pin of an address, telling whether there was one. */
    method ForgetSenderIdentity(key: string, fails: bool) returns (result: Result<bool, StorageError>)
      requires Valid()
      modifies this
      ensures Valid() && log == old(log)
      ensures if fails then result == Err(StorageError) && Contents() == old(Contents())
              else (result, Contents()) == (Ok(Forgotten(old(Contents()), key).0), Forgotten(old(Contents()), key).1)
    {
      if fails {
        return Err(StorageError);
      }
      var existed := key in identities;
      identities := identities - {key};
      return Ok(existed);
    }

    /** Every message of a mailbox, in delivery order: collected through the index
        in whatever order it yields, then sorted by number. */
    method List(mailbox: string, fails: bool) returns (result: Result<seq<ReceivedMessage>, StorageError>)
      requires Valid()
      ensures result == if fails then Err(StorageError) else Ok(MailFor(log, mailbox))
    {
      hide Agrees, MailFor, InOrder;
      if fails {
        return Err(StorageError);
      }
      var found: seq<ReceivedMessage> := [];
      var rest := if mailbox in index then index[mailbox] else {};
      ghost var whole := Indexed(Contents(), mailbox);
      IndexedAreStored(Contents(), log, mailbox);
      while rest != {}
        invariant rest <= whole
        invariant CollectedFrom(found, messages, whole - rest)
        decreases |rest|
      {
        var number :| number in rest;
        assert whole - (rest - {number}) == whole - rest + {number};
        if number in messages {
          Collecting(found, messages, whole - rest, number);
          found := found + [messages[number]];
        }
        rest := rest - {number};
      }
      assert whole - rest == whole;
      var out := SortByNumber(found);
      CollectedIsMail(Contents(), log, mailbox, found);
      InOrderUnique(out, MailFor(log, mailbox));
      return Ok(out);
    }
  }

  /** The messages under the given numbers, each once, in any order. */
  ghost predicate CollectedFrom(found: seq<ReceivedMessage>, messages: map<nat, ReceivedMessage>, numbers: set<nat>) {
    && Distinct(found)
    && (forall m :: m in found ==> m.number in numbers && m.number in messages && messages[m.number] == m)
    && forall n :: n in numbers ==> n in messages && messages[n].number == n && messages[n] in found
  }

  lemma Collecting(found: seq<ReceivedMessage>, messages: map<nat, ReceivedMessage>, numbers: set<nat>, n: nat)
    requires CollectedFrom(found, messages, numbers) && n in messages && n !in numbers && messages[n].number == n
    ensures CollectedFrom(found + [messages[n]], messages, numbers + {n})
  {
    forall i | 0 <= i < |found| ensures found[i].number != n {
      assert found[i] in found;
    }
  }

  lemma IndexedAreStored(t: Tables, log: seq<ReceivedMessage>, mailbox: string)
    requires Agrees(t, log)
    ensures forall n :: n in Indexed(t, mailbox) ==>
              n < |log| && n in t.messages && t.messages[n] == log[n] && log[n].number == n && log[n].recipient == mailbox
  {
    assert forall n :: n in Indexed(t, mailbox) ==> IsFor(log, mailbox, n);
  }

  lemma CollectedIsMail(t: Tables, log: seq<ReceivedMessage>, mailbox: string, found: seq<ReceivedMessage>)
    requires Agrees(t, log) && CollectedFrom(found, t.messages, Indexed(t, mailbox))
    ensures InOrder(MailFor(log, mailbox)) && forall m :: m in found <==> m in MailFor(log, mailbox)
  {
    MailForShape(log, mailbox);
    IndexedAreStored(t, log, mailbox);
    forall m | m in log && m.recipient == mailbox ensures m in found {
      assert IsFor(log, mailbox, m.number);
    }
  }

  predicate Distinct(v: seq<ReceivedMessage>) {
    forall i, j :: 0 <= i < j < |v| ==> v[i].number != v[j].number
  }

  method SortByNumber(v: seq<ReceivedMessage>) returns (w: seq<ReceivedMessage>)
    requires Distinct(v)
    ensures InOrder(w) && forall m :: m in w <==> m in v
  {
    w := [];
    for i := 0 to |v|
      invariant InOrder(w) && forall m :: m in w <==> m in v[..i]
    {
      assert forall x :: x in v[..i] ==> x.number != v[i].number;
      InsertedKeepsOrder(w, v[i]);
      w := Inserted(w, v[i]);
      assert v[..i + 1] == v[..i] + [v[i]];
    }
    assert v[..|v|] == v;
  }
}
