/** How many payload bytes of a Guppy response are still to be taken by its client:
    the measure behind the size limit in a completion bound. */
module GuppyLoad {
  import opened Text
  import opened GuppyPacket
  import opened GuppySession
  import opened GuppyRun
  import C = GuppyClient

  function Buffered(state: Option<C.Partial>): nat {
    if state.Some? then state.value.buffered else 0
  }

  /** The payload of a packet as the client reads it; the end of file has none. */
  function Part(v: View, i: nat): Bytes {
    if i < |v.parts| then v.parts[i] else ""
  }

  /** The positions of the packets the server does not count as acknowledged. */
  function Pending(s: SessionState): set<nat> {
    set i: nat | i < |s.packets| && (i >= s.nextUnsent || s.packets[i].number in s.unacked)
  }

  /** The payload bytes at the positions below `k` that are in a set. */
  function WeightIn(v: View, positions: set<nat>, k: nat): nat {
    if k == 0 then 0 else WeightIn(v, positions, k - 1) + if k - 1 in positions then |Part(v, k - 1)| else 0
  }

  /** The payload bytes at a series of positions. */
  function Weight(v: View, indices: seq<nat>): nat {
    if indices == [] then 0 else Weight(v, indices[..|indices| - 1]) + |Part(v, indices[|indices| - 1])|
  }

  lemma {:induction false} WeightWithout(v: View, positions: set<nat>, k: nat, i: nat)
    requires i in positions
    ensures WeightIn(v, positions, k) == WeightIn(v, positions - {i}, k) + if i < k then |Part(v, i)| else 0
  {
    if k > 0 { WeightWithout(v, positions, k - 1, i); }
  }

  /** Positions taken out one by one take their weight with them. */
  lemma {:induction false} WeightOut(v: View, positions: set<nat>, k: nat, indices: seq<nat>)
    requires IsAscending(indices)
    requires forall j :: 0 <= j < |indices| ==> indices[j] in positions && indices[j] < k
    ensures WeightIn(v, positions - Members(indices), k) + Weight(v, indices) == WeightIn(v, positions, k)
  {
    if indices == [] {
      assert positions - Members([]) == positions;
    } else {
      var front, last := indices[..|indices| - 1], indices[|indices| - 1];
      WeightOut(v, positions, k, front);
      MembersOfSnoc(front, last);
      assert indices == front + [last];
      assert positions - Members(indices) == positions - Members(front) - {last};
      WeightWithout(v, positions - Members(front), k, last);
    }
  }

  lemma MembersOfSnoc(front: seq<nat>, last: nat)
    ensures Members(front + [last]) == Members(front) + {last}
    ensures IsAscending(front + [last]) ==> last !in Members(front)
  {
    var whole := front + [last];
    forall x | x in front ensures IsAscending(whole) ==> x < last {
      var i :| 0 <= i < |front| && front[i] == x;
      assert whole[i] == x && whole[|front|] == last;
    }
  }

  /** No set of positions weighs more than the whole response. */
  lemma {:induction false} WeightBound(v: View, positions: set<nat>, k: nat)
    ensures WeightIn(v, positions, k) <= |Concat(v.parts[..Min(k, |v.parts|)])|
  {
    if k > 0 {
      WeightBound(v, positions, k - 1);
      if k <= |v.parts| {
        assert v.parts[..k] == v.parts[..k - 1] + [v.parts[k - 1]];
        ConcatLength(v.parts[..k - 1], v.parts[k - 1]);
      }
    }
  }

  lemma {:induction false} ConcatLength(parts: seq<Bytes>, last: Bytes)
    ensures |Concat(parts + [last])| == |Concat(parts)| + |last|
  {
    if parts == [] {
      assert ([] + [last])[1..] == [];
    } else {
      ConcatLength(parts[1..], last);
      assert (parts + [last])[1..] == parts[1..] + [last];
    }
  }

  lemma PendingWeight(s: Live, v: View)
    ensures WeightIn(v, Pending(s), |s.packets|) <= |Concat(v.parts)|
  {
    var k := |s.packets|;
    WeightBound(v, Pending(s), k);
    var n := Min(k, |v.parts|);
    assert v.parts == v.parts[..n] + v.parts[n..];
    ConcatPrefix(v.parts[..n], v.parts[n..]);
  }

  lemma {:induction false} ConcatPrefix(a: seq<Bytes>, b: seq<Bytes>)
    ensures |Concat(a)| <= |Concat(a + b)|
  {
    if a == [] {
      assert a + b == b;
    } else {
      ConcatPrefix(a[1..], b);
      assert (a + b)[1..] == a[1..] + b;
    }
  }

  /** An acknowledgement takes its own packet off what is pending, and nothing else:
      what the window lets out is pending still. */
  lemma AckLeavesPending(s: Live, i: nat, window: nat, budget: nat, now: nat)
    requires i < |s.packets| && s.packets[i].number in s.unacked
    ensures Pending(Acknowledged(s, s.packets[i].number, window, budget, now).0) == Pending(s) - {i}
  {
    hide Pending;
    RemovalLeavesPending(s, i);
    AckSendsPending(s, s.packets[i].number, window, budget, now);
  }

  /** An acknowledgement of a number not in flight leaves everything pending. */
  lemma StrayAckLeavesPending(s: Live, number: nat, window: nat, budget: nat, now: nat)
    requires number !in s.unacked
    ensures Pending(Acknowledged(s, number, window, budget, now).0) == Pending(s)
  {
    hide Pending;
    assert s.(unacked := s.unacked - {number}) == s;
    AckSendsPending(s, number, window, budget, now);
  }

  lemma AckSendsPending(s: Live, number: nat, window: nat, budget: nat, now: nat)
    ensures Pending(Acknowledged(s, number, window, budget, now).0) == Pending(s.(unacked := s.unacked - {number}))
  {
    var s' := s.(unacked := s.unacked - {number});
    if !(s'.nextUnsent == |s'.packets| && s'.unacked == {}) {
      SendingLeavesPending(s', s'.nextUnsent + Opening(s', window, budget), now);
    }
  }

  lemma RemovalLeavesPending(s: Live, i: nat)
    requires i < |s.packets| && s.packets[i].number in s.unacked
    ensures Pending(s.(unacked := s.unacked - {s.packets[i].number})) == Pending(s) - {i}
  {
    var first := s.packets[0].number;
    assert forall k: nat :: k < |s.packets| ==> s.packets[k].number == first + k;
  }

  lemma SendingLeavesPending(s: Live, next: nat, now: nat)
    requires s.nextUnsent <= next <= |s.packets|
    ensures Valid(SentUpTo(s, next, now)) && Pending(SentUpTo(s, next, now)) == Pending(s)
  {
    hide Numbers;
    SendingKeepsValid(s, next, now);
    BatchNumbers(s, next);
    var t := SentUpTo(s, next, now);
    forall i: nat | i < |s.packets| ensures i in Pending(t) <==> i in Pending(s) {
      assert s.packets[i].number == s.packets[0].number + i;
    }
  }
}
