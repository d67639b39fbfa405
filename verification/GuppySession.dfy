/** One Guppy response on the server (`crates/guppy-protocol/src/server.rs`):
    chunking, the send window, acknowledgement and retransmission.

    `SessionState` and its functions say what each operation does; class
    `Session` performs them in place, step by step. */
module GuppySession {
  import opened Text
  import opened GuppyPacket

  const MIN_SEQ: nat := 6
  const MAX_SEQ: nat := 2_147_483_647

  /** One packet of a response: its sequence number and its wire bytes. */
  datatype Numbered = Numbered(number: nat, wire: Bytes)

  function Min(a: int, b: int): int { if a <= b then a else b }

  function Max(a: int, b: int): int { if a <= b then b else a }

  // ------------------------------------------------------------------ chunking

  /** The chunks of a body: at least one, all but the last full. */
  function Chunks(body: Bytes, chunkSize: nat): (chunks: seq<Bytes>)
    requires chunkSize >= 1
    ensures |chunks| >= 1
    ensures chunks[0] == body[..Min(|body|, chunkSize)]
    decreases |body|
  {
    if |body| <= chunkSize then [body] else [body[..chunkSize]] + Chunks(body[chunkSize..], chunkSize)
  }

  function Concat(parts: seq<Bytes>): Bytes {
    if parts == [] then "" else parts[0] + Concat(parts[1..])
  }

  function DivCeil(a: nat, b: nat): nat
    requires b >= 1
  {
    (a + b - 1) / b
  }

  /** The number of packets predicted before any packet is built. */
  function PacketCount(length: nat, chunkSize: nat): nat
    requires chunkSize >= 1
  {
    1 + (if length > chunkSize then DivCeil(length, chunkSize) - 1 else 0) + 1
  }

  /** The first sequence number, drawn from a 64-bit hash. */
  function FirstNumber(total: nat, hash: nat): nat
    requires total < MAX_SEQ - MIN_SEQ
  {
    MIN_SEQ + hash % (MAX_SEQ - total - MIN_SEQ)
  }

  /** The packets of a response, in closed form. */
  function PacketsOf(first: nat, mime: string, chunks: seq<Bytes>): (packets: seq<Numbered>)
    requires |chunks| >= 1
    ensures |packets| == |chunks| + 1 && WellNumbered(packets) && packets[0].number == first
  {
    seq(|chunks| + 1, i requires 0 <= i <= |chunks| => PacketAt(first, mime, chunks, i))
  }

  function PacketAt(first: nat, mime: string, chunks: seq<Bytes>, i: nat): (p: Numbered)
    requires |chunks| >= 1 && i <= |chunks|
    ensures p.number == first + i
  {
    Numbered(first + i,
             if i == 0 then EncodeFirst(first, mime, chunks[0])
             else if i < |chunks| then EncodeContinuation(first + i, chunks[i])
             else EncodeContinuation(first + i, ""))
  }

  predicate WellNumbered(packets: seq<Numbered>) {
    forall i :: 0 <= i < |packets| ==> packets[i].number == packets[0].number + i
  }

  lemma DivPlusOne(x: nat, b: nat)
    requires b >= 1
    ensures (x + b) / b == x / b + 1
  {
    var q := x / b;
    var r := x % b;
    assert x == q * b + r;
    assert x + b == (q + 1) * b + r;
    QuotientUnique(x + b, b, q + 1, r);
  }

  lemma QuotientUnique(x: nat, b: nat, q: nat, r: nat)
    requires b >= 1 && r < b && x == q * b + r
    ensures x / b == q
  {
    var p := x / b;
    assert p * b <= x < p * b + b;
    if p < q { MulMonotone(p + 1, q, b); }
    if q < p { MulMonotone(q + 1, p, b); }
  }

  lemma MulMonotone(m: nat, n: nat, b: nat)
    requires m <= n
    ensures m * b <= n * b
  {
  }

  /** The packets built are exactly as many as predicted. */
  lemma {:induction false} CountAsPredicted(body: Bytes, chunkSize: nat)
    requires chunkSize >= 1
    ensures |Chunks(body, chunkSize)| + 1 == PacketCount(|body|, chunkSize)
    decreases |body|
  {
    if |body| > chunkSize {
      var rest := body[chunkSize..];
      CountAsPredicted(rest, chunkSize);
      DivPlusOne(|rest| + chunkSize - 1, chunkSize);
      if |rest| <= chunkSize {
        DivPlusOne(|rest| - 1, chunkSize);
        QuotientUnique(|rest| - 1, chunkSize, 0, |rest| - 1);
      }
    }
  }

  /** The chunks put the body back together; all but a first one hold between
      one and `chunkSize` bytes. */
  lemma {:induction false} ChunksCoverBody(body: Bytes, chunkSize: nat)
    requires chunkSize >= 1
    ensures var chunks := Chunks(body, chunkSize);
            && Concat(chunks) == body
            && (forall i :: 0 <= i < |chunks| ==> |chunks[i]| <= chunkSize)
            && (forall i :: 0 < i < |chunks| ==> chunks[i] != "")
            && (body != "" ==> chunks[0] != "")
    decreases |body|
  {
    var chunks := Chunks(body, chunkSize);
    if |body| > chunkSize {
      ChunksCoverBody(body[chunkSize..], chunkSize);
      assert chunks[1..] == Chunks(body[chunkSize..], chunkSize);
      assert body == body[..chunkSize] + body[chunkSize..];
    } else {
      assert Concat(chunks[1..]) == "";
    }
  }

  /** Fills the packet vector chunk by chunk. */
  method BuildPackets(mime: string, body: Bytes, requestedChunk: nat, hash: nat) returns (packets: seq<Numbered>)
    requires PacketCount(|body|, Max(requestedChunk, 1)) < MAX_SEQ - MIN_SEQ
    ensures var chunkSize := Max(requestedChunk, 1);
            packets == PacketsOf(FirstNumber(PacketCount(|body|, chunkSize), hash), mime, Chunks(body, chunkSize))
  {
    hide EncodeFirst, EncodeContinuation, Chunks, PacketsOf, FirstNumber;
    var chunkSize := Max(requestedChunk, 1);
    var continuations := if |body| > chunkSize then DivCeil(|body|, chunkSize) - 1 else 0;
    var total := 1 + continuations + 1;
    var first := FirstNumber(total, hash);
    var firstChunk := body[..Min(|body|, chunkSize)];
    packets := [Numbered(first, EncodeFirst(first, mime, firstChunk))];
    var number := first;
    var offset := |firstChunk|;
    ghost var chunks := Chunks(body, chunkSize);
    FirstChunk(body, chunkSize);
    while offset < |body|
      invariant 1 <= |packets| <= |chunks| && Built(packets, first, mime, chunks)
      invariant number == first + |packets| - 1
      invariant 0 <= offset <= |body|
      invariant chunks[|packets|..] == ChunksFrom(body, offset, chunkSize)
    {
      var end := Min(offset + chunkSize, |body|);
      NextChunk(chunks, |packets|, body, offset, chunkSize);
      number := number + 1;
      BuiltGrows(packets, first, mime, chunks);
      packets := packets + [Numbered(number, EncodeContinuation(number, body[offset..end]))];
      offset := end;
    }
    BuiltGrows(packets, first, mime, chunks);
    packets := packets + [Numbered(number + 1, EncodeContinuation(number + 1, ""))];
    BuiltWhole(packets, first, mime, chunks);
  }

  ghost predicate Built(packets: seq<Numbered>, first: nat, mime: string, chunks: seq<Bytes>)
    requires |chunks| >= 1
  {
    |packets| <= |chunks| + 1 && forall i :: 0 <= i < |packets| ==> packets[i] == PacketAt(first, mime, chunks, i)
  }

  lemma BuiltGrows(packets: seq<Numbered>, first: nat, mime: string, chunks: seq<Bytes>)
    requires |chunks| >= 1 && |packets| <= |chunks| && Built(packets, first, mime, chunks)
    ensures Built(packets + [PacketAt(first, mime, chunks, |packets|)], first, mime, chunks)
  {
  }

  lemma BuiltWhole(packets: seq<Numbered>, first: nat, mime: string, chunks: seq<Bytes>)
    requires |chunks| >= 1 && |packets| == |chunks| + 1 && Built(packets, first, mime, chunks)
    ensures packets == PacketsOf(first, mime, chunks)
  {
  }

  function ChunksFrom(body: Bytes, offset: nat, chunkSize: nat): seq<Bytes>
    requires chunkSize >= 1 && offset <= |body|
  {
    if offset < |body| then Chunks(body[offset..], chunkSize) else []
  }

  lemma FirstChunk(body: Bytes, chunkSize: nat)
    requires chunkSize >= 1
    ensures Chunks(body, chunkSize)[1..] == ChunksFrom(body, Min(|body|, chunkSize), chunkSize)
  {
  }

  lemma NextChunk(chunks: seq<Bytes>, k: nat, body: Bytes, offset: nat, chunkSize: nat)
    requires chunkSize >= 1 && offset < |body| && k <= |chunks|
    requires chunks[k..] == ChunksFrom(body, offset, chunkSize)
    ensures var end := Min(offset + chunkSize, |body|);
            k < |chunks| && chunks[k] == body[offset..end] && chunks[k + 1..] == ChunksFrom(body, end, chunkSize)
  {
    var rest := body[offset..];
    assert chunks[k..][0] == chunks[k];
    assert chunks[k + 1..] == chunks[k..][1..];
    if |rest| > chunkSize {
      assert rest[chunkSize..] == body[offset + chunkSize..];
    }
  }

  // ---------------------------------------------------------------- the window

  datatype SessionState = SessionState(
    packets: seq<Numbered>,
    nextUnsent: nat,
    unacked: set<nat>,
    lastSend: nat,
    created: nat,
    doneAt: Option<nat>)

  function NewSession(packets: seq<Numbered>, now: nat): SessionState {
    SessionState(packets, 0, {}, now, now, None)
  }

  /** Everything unacknowledged has been sent, and a session is done exactly when
      nothing is left to send or to acknowledge. */
  predicate Valid(s: SessionState) {
    && |s.packets| >= 2
    && WellNumbered(s.packets)
    && s.nextUnsent <= |s.packets|
    && (forall q :: q in s.unacked ==> s.packets[0].number <= q < s.packets[0].number + s.nextUnsent)
    && (s.doneAt.Some? <==> s.nextUnsent == |s.packets| && s.unacked == {})
  }

  function Numbers(packets: seq<Numbered>): set<nat> {
    if packets == [] then {} else Numbers(packets[..|packets| - 1]) + {packets[|packets| - 1].number}
  }

  function Wires(packets: seq<Numbered>): seq<Bytes> {
    seq(|packets|, i requires 0 <= i < |packets| => packets[i].wire)
  }

  /** How many packets an opening sends: up to the window, the packets left, and
      the `budget` of local sends that succeed before the first failing one. */
  function Opening(s: SessionState, window: nat, budget: nat): nat
    requires Valid(s)
  {
    Min(Min(Max(window - |s.unacked|, 0), |s.packets| - s.nextUnsent), budget)
  }

  function SentUpTo(s: SessionState, next: nat, now: nat): SessionState
    requires s.nextUnsent <= next <= |s.packets|
  {
    s.(nextUnsent := next, unacked := s.unacked + Numbers(s.packets[s.nextUnsent..next]), lastSend := now)
  }

  function WindowOpened(s: SessionState, window: nat, budget: nat, now: nat): (SessionState, seq<Bytes>)
    requires Valid(s)
  {
    var next := s.nextUnsent + Opening(s, window, budget);
    (SentUpTo(s, next, now), Wires(s.packets[s.nextUnsent..next]))
  }

  function Acknowledged(s: SessionState, number: nat, window: nat, budget: nat, now: nat): (SessionState, seq<Bytes>)
    requires Valid(s)
  {
    var s' := s.(unacked := s.unacked - {number});
    if s'.nextUnsent == |s'.packets| && s'.unacked == {} then
      (if s'.doneAt.None? then s'.(doneAt := Some(now)) else s', [])
    else
      WindowOpened(s', window, budget, now)
  }

  /** The wire bytes of the packets in flight, in sequence order. */
  function InFlight(packets: seq<Numbered>, unacked: set<nat>): seq<Bytes> {
    if packets == [] then []
    else
      var last := packets[|packets| - 1];
      InFlight(packets[..|packets| - 1], unacked) + if last.number in unacked then [last.wire] else []
  }

  function Retransmitted(s: SessionState, now: nat): (SessionState, seq<Bytes>) {
    (s.(lastSend := now), InFlight(s.packets, s.unacked))
  }

  /** How many packets the client has acknowledged. */
  function Acked(s: SessionState): int {
    s.nextUnsent - |s.unacked|
  }

  /** The window is used exactly: as many in flight as it and the rest allow. */
  predicate WindowFull(s: SessionState, window: nat) {
    |s.unacked| == Min(window, |s.packets| - Acked(s))
  }

  // ------------------------------------------------------------ window lemmas

  lemma {:induction false} RangeCardinality(s: set<nat>, lo: nat, hi: nat)
    requires lo <= hi && forall x :: x in s ==> lo <= x < hi
    ensures |s| <= hi - lo
    ensures (forall x :: lo <= x < hi ==> x in s) ==> |s| == hi - lo
    ensures |s| == hi - lo ==> forall x :: lo <= x < hi ==> x in s
    decreases hi - lo
  {
    if lo < hi {
      var t := s - {hi - 1};
      RangeCardinality(t, lo, hi - 1);
      if hi - 1 in s {
        assert |t| == |s| - 1;
        if |s| == hi - lo {
          forall x | lo <= x < hi ensures x in s {
            assert x == hi - 1 || x in t;
          }
        }
      } else {
        assert t == s;
      }
    } else {
      assert s == {};
    }
  }

  lemma UnackedBelowSent(s: SessionState)
    requires Valid(s)
    ensures |s.unacked| <= s.nextUnsent
  {
    RangeCardinality(s.unacked, s.packets[0].number, s.packets[0].number + s.nextUnsent);
  }

  lemma {:induction false} NumbersAreRange(packets: seq<Numbered>, lo: nat)
    requires forall i :: 0 <= i < |packets| ==> packets[i].number == lo + i
    ensures forall q :: q in Numbers(packets) <==> lo <= q < lo + |packets|
  {
    if packets != [] {
      NumbersAreRange(packets[..|packets| - 1], lo);
    }
  }

  /** A batch of unsent packets adds exactly its own numbers, all new. */
  lemma BatchNumbers(s: SessionState, next: nat)
    requires Valid(s) && s.nextUnsent <= next <= |s.packets|
    ensures var batch := Numbers(s.packets[s.nextUnsent..next]);
            var first := s.packets[0].number;
            && (forall q :: q in batch <==> first + s.nextUnsent <= q < first + next)
            && |s.unacked + batch| == |s.unacked| + (next - s.nextUnsent)
  {
    var first := s.packets[0].number;
    var part := s.packets[s.nextUnsent..next];
    var batch := Numbers(part);
    NumbersAreRange(part, first + s.nextUnsent);
    RangeCardinality(batch, first + s.nextUnsent, first + next);
    assert s.unacked !! batch;
  }

  /** Every operation keeps a session valid. */
  lemma SendingKeepsValid(s: SessionState, next: nat, now: nat)
    requires Valid(s) && s.nextUnsent <= next <= |s.packets|
    ensures var s' := SentUpTo(s, next, now);
            && Valid(s') && Acked(s') == Acked(s)
            && |s'.unacked| == |s.unacked| + (next - s.nextUnsent)
  {
    BatchNumbers(s, next);
    if s.doneAt.Some? {
      assert s.packets[s.nextUnsent..next] == [];
    }
  }

  lemma OpeningKeepsValid(s: SessionState, window: nat, budget: nat, now: nat)
    requires Valid(s)
    ensures Valid(WindowOpened(s, window, budget, now).0)
    ensures Acked(WindowOpened(s, window, budget, now).0) == Acked(s)
  {
    hide Numbers, Wires;
    SendingKeepsValid(s, s.nextUnsent + Opening(s, window, budget), now);
  }

  lemma AcknowledgingKeepsValid(s: SessionState, number: nat, window: nat, budget: nat, now: nat)
    requires Valid(s)
    ensures Valid(Acknowledged(s, number, window, budget, now).0)
    ensures Acked(Acknowledged(s, number, window, budget, now).0) ==
            Acked(s) + if number in s.unacked then 1 else 0
  {
    var s' := s.(unacked := s.unacked - {number});
    if !(s'.nextUnsent == |s'.packets| && s'.unacked == {}) {
      OpeningKeepsValid(s', window, budget, now);
    }
  }

  lemma SentPacketsStay(s: SessionState, next: nat, now: nat)
    requires s.nextUnsent <= next <= |s.packets|
    ensures SentUpTo(s, next, now).packets == s.packets && SentUpTo(s, next, now).nextUnsent == next
  {
  }

  /** When no local send fails, opening fills the window exactly. */
  lemma OpeningFillsWindow(s: SessionState, window: nat, budget: nat, now: nat)
    requires Valid(s) && |s.unacked| <= window && budget >= |s.packets|
    ensures WindowFull(WindowOpened(s, window, budget, now).0, window)
  {
    hide Numbers, Wires;
    UnackedBelowSent(s);
    var k := Opening(s, window, budget);
    var s' := SentUpTo(s, s.nextUnsent + k, now);
    SendingKeepsValid(s, s.nextUnsent + k, now);
    SentPacketsStay(s, s.nextUnsent + k, now);
    hide Valid, SentUpTo;
    assert |s'.unacked| == |s.unacked| + k && Acked(s') == Acked(s);
    assert WindowOpened(s, window, budget, now).0 == s';
  }

  lemma NewSessionFillsWindow(packets: seq<Numbered>, window: nat, budget: nat, now: nat)
    requires |packets| >= 2 && WellNumbered(packets) && budget >= |packets|
    ensures var s := WindowOpened(NewSession(packets, now), window, budget, now).0;
            Valid(s) && WindowFull(s, window) && |s.unacked| == Min(window, |packets|)
  {
    OpeningFillsWindow(NewSession(packets, now), window, budget, now);
    OpeningKeepsValid(NewSession(packets, now), window, budget, now);
  }

  /** The window stays exactly full across acknowledgements and retransmissions. */
  lemma WindowInvariant(s: SessionState, number: nat, window: nat, budget: nat, now: nat)
    requires Valid(s) && WindowFull(s, window) && budget >= |s.packets|
    ensures WindowFull(Acknowledged(s, number, window, budget, now).0, window)
    ensures WindowFull(Retransmitted(s, now).0, window)
  {
    var s' := s.(unacked := s.unacked - {number});
    UnackedBelowSent(s);
    if !(s'.nextUnsent == |s'.packets| && s'.unacked == {}) {
      OpeningFillsWindow(s', window, budget, now);
    }
  }

  /** An acknowledgement of a number not in flight changes nothing but the
      retransmission timer, and sends nothing. */
  lemma StrayAckChangesNothing(s: SessionState, number: nat, window: nat, budget: nat, now: nat)
    requires Valid(s) && WindowFull(s, window) && window >= 1 && number !in s.unacked
    ensures Acknowledged(s, number, window, budget, now) ==
            (if s.doneAt.Some? then s else s.(lastSend := now), [])
  {
    assert s.unacked - {number} == s.unacked;
    UnackedBelowSent(s);
    assert s.(unacked := s.unacked - {number}) == s;
    if s.doneAt.None? {
      assert Opening(s, window, budget) == 0;
      assert s.packets[s.nextUnsent..s.nextUnsent] == [];
      assert s.unacked + Numbers([]) == s.unacked;
      assert Wires([]) == [];
    }
  }

  /** With a full, non-empty window, a session that is not done always has something
      in flight; one with nothing in flight has had everything acknowledged. */
  lemma NothingInFlightMeansAllAcked(s: SessionState, window: nat)
    requires Valid(s) && WindowFull(s, window) && window >= 1
    ensures s.unacked == {} <==> Acked(s) == |s.packets|
    ensures s.doneAt.None? <==> s.unacked != {}
  {
    UnackedBelowSent(s);
  }

  /** If the first local send of a response fails, nothing is in flight, all its
      packets remain, and no retransmission ever sends any. */
  lemma FailedSendStalls(packets: seq<Numbered>, window: nat, now: nat, later: nat)
    requires |packets| >= 2 && WellNumbered(packets)
    ensures var s := WindowOpened(NewSession(packets, now), window, 0, now).0;
            && Valid(s) && s.doneAt.None? && s.unacked == {} && s.nextUnsent < |s.packets|
            && Retransmitted(s, later) == (s.(lastSend := later), [])
            && (window >= 1 ==> !WindowFull(s, window))
  {
    var s := WindowOpened(NewSession(packets, now), window, 0, now).0;
    assert packets[0..0] == [];
    NoneInFlight(s.packets, s.unacked);
  }

  lemma {:induction false} NoneInFlight(packets: seq<Numbered>, unacked: set<nat>)
    requires forall i :: 0 <= i < |packets| ==> packets[i].number !in unacked
    ensures InFlight(packets, unacked) == []
  {
    if packets != [] { NoneInFlight(packets[..|packets| - 1], unacked); }
  }

  /** Retransmission sends nothing exactly when nothing is in flight. */
  lemma RetransmissionSilence(s: SessionState)
    requires Valid(s)
    ensures InFlight(s.packets, s.unacked) == [] <==> s.unacked == {}
  {
    if s.unacked == {} {
      NoneInFlight(s.packets, s.unacked);
    } else {
      var q :| q in s.unacked;
      InFlightHasWire(s.packets, s.unacked, q - s.packets[0].number);
    }
  }

  lemma {:induction false} InFlightHasWire(packets: seq<Numbered>, unacked: set<nat>, i: nat)
    requires i < |packets| && packets[i].number in unacked
    ensures packets[i].wire in InFlight(packets, unacked)
  {
    if i < |packets| - 1 {
      InFlightHasWire(packets[..|packets| - 1], unacked, i);
    }
  }

  /** Packets outside the window add nothing to a retransmission. */
  lemma {:induction false} InFlightSkips(packets: seq<Numbered>, unacked: set<nat>, p: nat, q: nat)
    requires p <= q <= |packets|
    requires forall i :: p <= i < q ==> packets[i].number !in unacked
    ensures InFlight(packets[..q], unacked) == InFlight(packets[..p], unacked)
  {
    if p < q {
      InFlightSkips(packets, unacked, p, q - 1);
      assert packets[..q][..q - 1] == packets[..q - 1];
    }
  }

  lemma InFlightNone(packets: seq<Numbered>, unacked: set<nat>)
    ensures InFlight(packets[..0], unacked) == []
  {
  }

  lemma InFlightNext(packets: seq<Numbered>, unacked: set<nat>, p: nat, i: nat)
    requires p <= i < |packets| && packets[i].number in unacked
    requires forall j :: p <= j < i ==> packets[j].number !in unacked
    ensures InFlight(packets[..i + 1], unacked) == InFlight(packets[..p], unacked) + [packets[i].wire]
  {
    InFlightSkips(packets, unacked, p, i);
    assert packets[..i + 1][..i] == packets[..i];
  }

  lemma SentFields(s: SessionState, next: nat, now: nat)
    requires s.nextUnsent <= next <= |s.packets|
    ensures SentUpTo(s, next, now) ==
            s.(nextUnsent := next, unacked := SentUpTo(s, next, s.lastSend).unacked, lastSend := now)
  {
  }

  function With(s: set<nat>, x: nat): set<nat> {
    s + {x}
  }

  lemma SendNothing(s: SessionState)
    requires s.nextUnsent <= |s.packets|
    ensures SentUpTo(s, s.nextUnsent, s.lastSend) == s
    ensures Wires(s.packets[s.nextUnsent..s.nextUnsent]) == []
  {
    assert s.packets[s.nextUnsent..s.nextUnsent] == [];
    assert s.unacked + Numbers([]) == s.unacked;
  }

  lemma SendOne(s: SessionState, next: nat, now: nat)
    requires Valid(s) && s.nextUnsent <= next < |s.packets|
    ensures var t := SentUpTo(s, next, now);
            var t' := SentUpTo(s, next + 1, now);
            && t' == t.(nextUnsent := next + 1, unacked := With(t.unacked, s.packets[next].number))
            && |t'.unacked| == |s.unacked| + (next + 1 - s.nextUnsent)
    ensures Wires(s.packets[s.nextUnsent..next + 1]) == Wires(s.packets[s.nextUnsent..next]) + [s.packets[next].wire]
  {
    SendingKeepsValid(s, next + 1, now);
    hide Valid;
    var batch := s.packets[s.nextUnsent..next];
    var packet := s.packets[next];
    assert s.packets[s.nextUnsent..next + 1] == batch + [packet];
    assert (batch + [packet])[..|batch|] == batch;
    assert s.unacked + (Numbers(batch) + {packet.number}) == s.unacked + Numbers(batch) + {packet.number};
  }

  /** Sending one by one stops where the opening says. */
  lemma OpeningReached(s: SessionState, window: nat, budget: nat, next: nat)
    requires Valid(s) && s.nextUnsent <= next <= |s.packets|
    requires var sent := next - s.nextUnsent;
             && sent <= Min(budget, Max(window - |s.unacked|, 0))
             && (|s.unacked| + sent >= window || next == |s.packets| || sent == budget)
    ensures next == s.nextUnsent + Opening(s, window, budget)
  {
  }

  // ------------------------------------------------- the session, in place

  lemma {:induction false} FindSmallest(s: set<nat>) returns (m: nat)
    requires s != {}
    ensures m in s && forall x :: x in s ==> m <= x
  {
    var y :| y in s;
    m := y;
    if s != {y} {
      var least := FindSmallest(s - {y});
      m := Min(y, least);
      forall x | x in s ensures m <= x {
        assert x == y || x in s - {y};
      }
    }
  }

  lemma SmallestExists(s: set<nat>)
    requires s != {}
    ensures exists m :: m in s && forall x :: x in s ==> m <= x
  {
    var m := FindSmallest(s);
    assert m in s && forall x :: x in s ==> m <= x;
  }

  function Smallest(s: set<nat>): (m: nat)
    requires s != {}
    ensures m in s && forall x :: x in s ==> m <= x
  {
    SmallestExists(s);
    var m :| m in s && forall x :: x in s ==> m <= x;
    m
  }

  predicate IsAscending(v: seq<nat>) {
    forall i, j :: 0 <= i < j < |v| ==> v[i] < v[j]
  }

  function Members(v: seq<nat>): set<nat> {
    set x | x in v
  }

  lemma AppendAbove(v: seq<nat>, m: nat)
    requires IsAscending(v) && forall x :: x in v ==> x < m
    ensures IsAscending(v + [m]) && Members(v + [m]) == Members(v) + {m}
  {
    forall i | 0 <= i < |v| ensures v[i] < m { assert v[i] in v; }
  }

  /** The members of an ordered set, in its iteration order. */
  method Ascending(s: set<nat>) returns (v: seq<nat>)
    ensures IsAscending(v) && Members(v) == s
  {
    v := [];
    var rest := s;
    while rest != {}
      invariant rest <= s && IsAscending(v) && Members(v) == s - rest
      invariant forall x, y :: x in s - rest && y in rest ==> x < y
      decreases |rest|
    {
      var m := Smallest(rest);
      assert forall x :: x in v ==> x in Members(v);
      AppendAbove(v, m);
      v := v + [m];
      rest := rest - {m};
    }
  }

  /** `binary_search_by_key` over the packet vector. */
  method BinarySearch(packets: seq<Numbered>, number: nat) returns (index: Option<nat>)
    requires WellNumbered(packets)
    ensures index.Some? ==> index.value < |packets| && packets[index.value].number == number
    ensures index.None? ==> forall i :: 0 <= i < |packets| ==> packets[i].number != number
  {
    var lo, hi := 0, |packets|;
    while lo < hi
      invariant 0 <= lo <= hi <= |packets|
      invariant forall i :: 0 <= i < lo ==> packets[i].number < number
      invariant forall i :: hi <= i < |packets| ==> packets[i].number > number
    {
      var mid := (lo + hi) / 2;
      if packets[mid].number < number {
        lo := mid + 1;
      } else if packets[mid].number > number {
        hi := mid;
      } else {
        return Some(mid);
      }
    }
    return None;
  }

  /** The sending loop of `open_window`: until the window is full, the packets run
      out, or a local send fails. */
  method SendWhileRoom(packets: seq<Numbered>, start: nat, flight: set<nat>, window: nat, budget: nat, ghost s: SessionState)
      returns (sent: seq<Bytes>, next: nat, unacked: set<nat>)
    requires Valid(s) && packets == s.packets && start == s.nextUnsent && flight == s.unacked
    ensures start <= next <= |packets| && unacked == SentUpTo(s, next, s.lastSend).unacked
    ensures sent == Wires(packets[start..next])
    ensures next - start <= Min(budget, Max(window - |flight|, 0))
    ensures |flight| + (next - start) >= window || next == |packets| || next - start == budget
  {
    assert start <= |packets|;
    ghost var room := Max(window - |flight|, 0);
    hide Numbers, Wires, Valid, SentUpTo, With, Max;
    sent, next, unacked := [], start, flight;
    SendNothing(s);
    while |unacked| < window && next < |packets| && next - start < budget
      invariant start <= next <= |packets| && next - start <= budget && next - start <= room
      invariant room >= window - |flight| && |unacked| == |flight| + (next - start)
      invariant unacked == SentUpTo(s, next, s.lastSend).unacked
      invariant sent == Wires(packets[start..next])
      decreases budget + start - next
    {
      SendOne(s, next, s.lastSend);
      sent := sent + [packets[next].wire];
      unacked := With(unacked, packets[next].number);
      next := next + 1;
    }
  }

  class Session {
    const packets: seq<Numbered>
    const created: nat
    var nextUnsent: nat
    var unacked: set<nat>
    var lastSend: nat
    var doneAt: Option<nat>

    function State(): SessionState
      reads this
    {
      SessionState(packets, nextUnsent, unacked, lastSend, created, doneAt)
    }

    constructor (packets: seq<Numbered>, now: nat)
      ensures State() == NewSession(packets, now)
    {
      this.packets := packets;
      created := now;
      nextUnsent := 0;
      unacked := {};
      lastSend := now;
      doneAt := None;
    }

    /** Sends unsent packets until the window is full, the packets run out, or a
        local send fails. */
    method OpenWindow(window: nat, budget: nat, now: nat) returns (sent: seq<Bytes>)
      requires Valid(State())
      modifies this
      ensures (State(), sent) == WindowOpened(old(State()), window, budget, now)
    {
      ghost var s := State();
      sent, nextUnsent, unacked := SendWhileRoom(packets, nextUnsent, unacked, window, budget, s);
      OpeningReached(s, window, budget, nextUnsent);
      SentFields(s, nextUnsent, now);
      lastSend := now;
    }

    /** Takes one acknowledgement and refills the window. */
    method Acknowledge(number: nat, window: nat, budget: nat, now: nat) returns (sent: seq<Bytes>)
      requires Valid(State())
      modifies this
      ensures (State(), sent) == Acknowledged(old(State()), number, window, budget, now)
    {
      sent := [];
      unacked := unacked - {number};
      if nextUnsent == |packets| && unacked == {} {
        if doneAt.None? {
          doneAt := Some(now);
        }
        return;
      }
      sent := OpenWindow(window, budget, now);
    }

    /** Sends everything in flight again: each number is found by binary search. */
    method Retransmit(now: nat) returns (sent: seq<Bytes>)
      requires Valid(State())
      modifies this
      ensures (State(), sent) == Retransmitted(old(State()), now)
    {
      hide InFlight;
      sent := [];
      InFlightNone(packets, unacked);
      var numbers := Ascending(unacked);
      ghost var p: int := 0;
      ghost var first := packets[0].number;
      for k := 0 to |numbers|
        invariant unchanged(this)
        invariant 0 <= p <= |packets| && sent == InFlight(packets[..p], unacked)
        invariant k > 0 ==> p + first == numbers[k - 1] + 1
        invariant k == 0 ==> p == 0
      {
        assert numbers[k] in Members(numbers);
        var index := BinarySearch(packets, numbers[k]);
        ghost var i := numbers[k] - first;
        assert packets[i].number == numbers[k];
        if index.Some? {
          sent := sent + [packets[index.value].wire];
        }
        forall j | p <= j < i ensures packets[j].number !in unacked {
          NotBetween(numbers, k, packets[j].number);
        }
        InFlightNext(packets, unacked, p, i);
        p := i + 1;
      }
      forall j | p <= j < |packets| ensures packets[j].number !in unacked {
        NotBetween(numbers, |numbers|, packets[j].number);
      }
      InFlightSkips(packets, unacked, p, |packets|);
      assert packets[..|packets|] == packets;
      lastSend := now;
    }
  }

  /** No member of an ordered set lies strictly between two neighbours. */
  lemma NotBetween(v: seq<nat>, k: nat, x: nat)
    requires IsAscending(v)
    requires k <= |v| && (k > 0 ==> v[k - 1] < x) && (k < |v| ==> x < v[k])
    ensures x !in Members(v)
  {
    forall i | 0 <= i < |v| ensures v[i] != x {
      if i < k - 1 {
        assert v[i] < v[k - 1];
      } else if i > k {
        assert v[k] < v[i];
      }
    }
  }
}
