/**
 How a reliable ENet channel comes to lose a packet that it has acknowledged. A packet taken for a new one stays in the
 receiver's queue, incomplete, and 65536 numbers after its first one the packet that carries its number is taken for it.
 */
module LostPackets {
  import opened Machine
  import opened SequenceWindows
  import opened SendQueue
  import opened SendState
  import opened Messages
  import opened Inbox
  import opened SendSteps
  import opened Arrivals
  import opened ReliableChannel
  import opened LongPackets
  import opened WireRuns
  import opened DeliveryRuns
  import opened OldPieces
  import Sending

  // ---------- The receiver with the packet taken for new ----------

  /** What is in the queue in place of a packet: it has its number, and is incomplete. */
  ghost predicate Bogus(x: Incoming, ms: seq<Message>, j: nat)
    requires AllValid(ms) && j < |ms|
  {
    x.sequence == Wire(First(ms, j)) && x.fragmentsRemaining > 0
  }

  lemma OldAcked(r: nat, n: nat)
    requires n < r < n + 0x1_0000 && Window(r) <= Window(n) + FREE_WINDOWS - 2
    ensures !Suppresses(Wire(r), Wire(n))
  {
    hide Wire, Window;
    WireShift(n);
    WindowsAhead(r, n + 0x1_0000);
  }

  lemma NextAcked(r: nat)
    ensures !Suppresses(Wire(r), Wire(r + 1)) && !Suppresses(Wire(r), Wire(r))
  {
    hide Suppresses, Wire, Window;
    NextIsNear(r);
    NewNumber(r, r + 1);
    NewNumber(r, r);
  }

  /** Of a packet taken for new, a piece is put into the queue. */
  lemma {:induction false} PieceQueuesBogus(b: Box, ms: seq<Message>, j: nat, i: nat, size: nat)
    requires AllValid(ms) && j < |ms| && i < ms[j].Pieces() && 2 <= ms[j].Pieces() <= MAX_FRAGMENTS && |ms[j].data| <= size
    requires b.queue == [] && Accepts(b.incomingReliable, Wire(First(ms, j))) && Wire(First(ms, j)) != b.incomingReliable
    ensures var (ok, b') := Handling(b, Arrivals.Sent(ms, j, i), true, size, j);
            ok && |b'.queue| == 1 && b' == b.(queue := b'.queue) && Bogus(b'.queue[0], ms, j)
  {
    hide Accepts, Wire, First, Count, Steps, Copied;
    var m, s := ms[j], Wire(First(ms, j));
    ManyPieces(m, 1);
    PieceInside(m, i);
    var e := NewPacket(s, Blank(|m.data|), m.Pieces(), j);
    var b1 := b.(queue := [e]);
    assert b.queue[..0] + [e] + b.queue[0..] == [e];
    assert PutInOrder(b1) == b1;
    assert Queueing(b, s, Blank(|m.data|), m.Pieces(), true, j) == (Queued(0), b1);
  }

  /** The next packet, without data, is put in order before it. */
  lemma {:induction false} EmptyPasses(b: Box, ms: seq<Message>, j: nat, k: nat, size: nat)
    requires AllValid(ms) && j < k < |ms| && ms[k] == Empty() && First(ms, j) < First(ms, k) - 1 < Double(ms, j) - 1
    requires |b.queue| == 1 && Bogus(b.queue[0], ms, j) && b.incomingReliable == Wire(First(ms, k) - 1)
    ensures Handling(b, Arrivals.Sent(ms, k, 0), true, size, k)
         == (true, Box(Wire(First(ms, k)), b.queue, b.dispatched + [[]]))
  {
    hide Accepts, Wire, First, Count, Steps, Ahead, Search;
    var r, x := First(ms, k) - 1, b.queue[0];
    FirstMonotone(ms, j, k);
    NextOnWire(r);
    BogusBehind(b.queue, r, First(ms, j));
    SearchPlace(b.incomingReliable, b.queue, Wire(r + 1));
    var e := NewPacket(Wire(r + 1), [], 0, k);
    var b1, b2 := b.(queue := [e, x]), Box(Wire(r + 1), [x], b.dispatched + [[]]);
    assert b.queue == [x] && b.queue[..0] + [e] + b.queue[0..] == [e, x];
    assert b1.queue[1..] == [x];
    assert PutInOrder(b2) == b2;
    assert PutInOrder(b1) == PutInOrder(b2);
  }

  lemma {:induction false} BogusBehind(queue: seq<Incoming>, r: nat, first: nat)
    requires |queue| == 1 && queue[0].sequence == Wire(first) && first < r && r + 1 < first + 0x1_0000
    ensures Ordered(Wire(r), queue) && Wire(r + 1) != Wire(first)
    ensures Ahead(Wire(r), Wire(r + 1)) == 1 < Ahead(Wire(r), Wire(first))
  {
    hide Ahead, Wire;
    AheadTrue(r, r + 1);
    AheadTrue(r, first + 0x1_0000);
    WireShift(first);
    WireDistinct(first, r + 1);
  }

  /** The packet whose number it has is taken for it: handled, and gone. */
  lemma {:induction false} EmptyLost(b: Box, ms: seq<Message>, j: nat, k: nat, size: nat)
    requires AllValid(ms) && j < k < |ms| && ms[k] == Empty() && First(ms, k) == Double(ms, j)
    requires |b.queue| == 1 && Bogus(b.queue[0], ms, j) && b.incomingReliable == Wire(First(ms, k) - 1)
    ensures Handling(b, Arrivals.Sent(ms, k, 0), true, size, k) == (true, b)
  {
    hide Accepts, Wire, First, Count, Steps;
    WireShift(First(ms, j));
    assert Search(b.incomingReliable, b.queue, Wire(First(ms, k))) == (1, true);
  }

  // ---------- The sender, with nothing outstanding ----------

  /** All numbers up to `n` have been given out, sent and acknowledged. */
  ghost predicate Quiet(e: Ends, c: nat, ms: seq<Message>, n: nat, limit: nat) {
    && AllValid(ms) && WireReachable(e, c, ms, limit) && e.q.Valid() && AtNumber(e.q, c, n)
    && e.q.sentReliable == [] && e.taken == []
  }

  /** Packet `k`, without data, is queued and goes out. */
  lemma {:induction false} EmptySent(e: Ends, c: nat, ms: seq<Message>, k: nat, limit: nat) returns (e': Ends)
    requires AllValid(ms) && k < |ms| && ms[k] == Empty() && Quiet(e, c, ms, First(ms, k) - 1, limit)
    ensures WireReachable(e', c, ms, limit) && e'.q.Valid() && AtNumber(e'.q, c, First(ms, k)) && e' == e.(q := e'.q)
    ensures e'.q.sentReliable == [NewCommand(c, ms, k, 0).(attempts := 1)]
  {
    hide First, Count, Steps, WireReachable, Queues.ChannelValid, WindowWraps, Sum, UnsentNumbers, Longest;
    var x := NewCommand(c, ms, k, 0);
    var y := x.(attempts := 1);
    var add, send := Add(x, Numbering(e.q, c)), SendStep.Send(0, y);
    NewCommandSized(c, ms, k, 0);
    FirstMonotone(ms, k, |ms|);
    ValidShaped(e.q);
    var q1 := Numbering(e.q, c).Add(x);
    SendNextValid(e.q, add, q1, limit);
    WireOn(e, c, ms, Sending(add), e.(q := q1), limit);
    ValidShaped(q1);
    NothingWraps(q1, x);
    EmptyBytes(q1);
    var q2 := SendSteps.Sent(q1, 0, y);
    SendNextValid(q1, send, q2, limit);
    e' := e.(q := q2);
    WireOn(e.(q := q1), c, ms, Sending(send), e', limit);
  }

  lemma EmptyBytes(q: Queues)
    requires q.Valid() && q.sentReliable == []
    ensures q.inTransit == 0
  {
  }

  /** The one command outstanding is acknowledged. */
  lemma {:induction false} OneAcked(e: Ends, c: nat, ms: seq<Message>, j: nat, i: nat, limit: nat) returns (e': Ends)
    requires AllValid(ms) && WireReachable(e, c, ms, limit) && e.q.Valid() && e.taken == []
    requires c < |e.q.channels| && AtNumber(e.q, c, e.q.channels[c].sent) && e.q.channels[c].numbered <= Total(ms)
    requires |e.q.sentReliable| == 1 && Carries(e.q.sentReliable[0], c, ms, j, i) && e.q.sentReliable[0].attempts > 0
    requires First(ms, j) + i in e.acks && e.q.channels[c].sent < First(ms, j) + i + 0x1_0000
    ensures e' == e.(q := e'.q) && c < |e.q.channels| && Quiet(e', c, ms, e.q.channels[c].sent, limit)
  {
    hide First, Count, Steps, WireReachable, Sum, UnsentNumbers, Queues.Valid, Longest;
    var n := First(ms, j) + i;
    AckIsReady(e.q, 0, true);
    var q' := Acknowledged(e.q, 0, true);
    AckNumbers(e.q, q', 0, c);
    var ack := Acknowledge(c, n, 0, true);
    SendNextValid(e.q, ack, q', limit);
    e' := e.(q := q');
    WireOn(e, c, ms, Sending(ack), e', limit);
    assert q'.sentReliable == [];
  }

  lemma {:induction false} AckNumbers(q: Queues, q': Queues, at: nat, c: nat)
    requires c < |q.channels| && AckReady(q, at, true) && q' == Acknowledged(q, at, true)
    ensures |q'.channels| == |q.channels| && q'.channels[c].numbered == q.channels[c].numbered
    ensures q'.channels[c].sent == q.channels[c].sent && q'.outgoing == q.outgoing && q'.sentReliable == Without(q.sentReliable, at)
  {
    hide Sum, UnsentNumbers;
  }

  // ---------- The run ----------

  /** The first `k` packets are in order, and in the queue is what packet `j` was taken for. */
  ghost predicate Haunted(e: Ends, c: nat, ms: seq<Message>, j: nat, k: nat, limit: nat) {
    && AllValid(ms) && j < k <= |ms| && First(ms, j) < First(ms, k) - 1 && Quiet(e, c, ms, First(ms, k) - 1, limit)
    && e.box.incomingReliable == Wire(First(ms, k) - 1) && |e.box.dispatched| == k
    && |e.box.queue| == 1 && Bogus(e.box.queue[0], ms, j)
  }

  /** The piece that was kept is sent again, arrives, and is acknowledged. */
  lemma {:induction false} PieceHaunts(s: State, c: nat, ms: seq<Message>, j: nat, i: nat, k: nat, limit: nat) returns (e: Ends)
    requires Kept(s, c, ms, j, i, k, limit) && j < |ms| && i < ms[j].Pieces() && Mistaken(s, c, ms, j, i)
    requires Fits(Before(ms, j), ms[j], limit) && 2 <= ms[j].Pieces() && First(ms, k) - 1 == Tenth(ms, j)
    ensures Haunted(e, c, ms, j, k, limit)
  {
    hide First, Count, Steps, WireReachable, Sum, UnsentNumbers, Queues.Valid, Inbox.Valid, Waits, Handling, Accepts, Longest, Suppresses, Far, Window;
    var n := First(ms, j) + i;
    KeptWaits(s, c, ms, j, i, k, limit);
    WithinLongest(ms, j);
    var e0 := EndsOf(s);
    var act := Arrival(j, i, true);
    PieceQueuesBogus(e0.box, ms, j, i, Longest(ms));
    var b' := Handling(e0.box, Arrivals.Sent(ms, j, i), true, Longest(ms), j).1;
    KeptOld(ms, j, i, k, limit);
    OldAcked(First(ms, k) - 1, n);
    var e1 := e0.(box := b', acks := e0.acks + {n});
    WireOn(e0, c, ms, act, e1, limit);
    InvariantTotal(s, c, ms);
    e := OneAcked(e1, c, ms, j, i, limit);
  }

  lemma {:induction false} InvariantTotal(s: State, c: nat, ms: seq<Message>)
    requires Invariant(s, c, ms)
    ensures s.q.Valid() && c < |s.q.channels| && s.q.channels[c].numbered <= Total(ms)
  {
  }

  lemma {:induction false} KeptOld(ms: seq<Message>, j: nat, i: nat, k: nat, limit: nat)
    requires AllValid(ms) && j < k <= |ms| && i < ms[j].Pieces() && First(ms, k) - 1 == Tenth(ms, j)
    requires Fits(Before(ms, j), ms[j], limit)
    ensures First(ms, j) + i < First(ms, k) - 1 < First(ms, j) + i + 0x1_0000
  {
    hide Count, Steps, Fits, First;
    FitEndsNear(ms, j, limit);
    FirstMonotone(ms, j, j + 1);
    PieceBefore(ms, j, i);
    EndBefore(First(ms, j), First(ms, j + 1), Tenth(ms, j));
  }

  /** One more packet without data goes through. */
  lemma {:induction false} HauntedOn(e: Ends, c: nat, ms: seq<Message>, j: nat, k: nat, limit: nat) returns (e': Ends)
    requires Haunted(e, c, ms, j, k, limit) && k < |ms| && ms[k] == Empty() && First(ms, k) < Double(ms, j)
    ensures Haunted(e', c, ms, j, k + 1, limit)
  {
    hide Count, Steps, WireReachable, Sum, UnsentNumbers, Queues.Valid, Handling, Longest, Suppresses, Bogus, Double, Wire, NewCommand, Carries;
    var n := First(ms, k);
    var e1 := EmptySent(e, c, ms, k, limit);
    EmptyPasses(e1.box, ms, j, k, Longest(ms));
    NextAcked(n);
    var box' := Box(Wire(n), e.box.queue, e.box.dispatched + [[]]);
    var e2 := e1.(box := box', acks := e1.acks + {n});
    WireOn(e1, c, ms, Arrival(k, 0, true), e2, limit);
    NewCommandSized(c, ms, k, 0);
    SentCarries(c, ms, k, 0);
    FirstMonotone(ms, k + 1, |ms|);
    e' := OneAcked(e2, c, ms, k, 0, limit);
  }

  /** The packet that has the number is acknowledged, and lost. */
  lemma {:induction false} HauntedLost(e: Ends, c: nat, ms: seq<Message>, j: nat, k: nat, limit: nat) returns (e': Ends)
    requires Haunted(e, c, ms, j, k, limit) && k < |ms| && ms[k] == Empty() && First(ms, k) == Double(ms, j)
    ensures Quiet(e', c, ms, First(ms, k), limit) && e'.box == e.box
  {
    hide First, Count, Steps, WireReachable, Sum, UnsentNumbers, Queues.Valid, Handling, Longest, Suppresses, Bogus, Double, Wire, NewCommand, Carries;
    var n := First(ms, k);
    var e1 := EmptySent(e, c, ms, k, limit);
    EmptyLost(e1.box, ms, j, k, Longest(ms));
    NextAcked(n - 1);
    var e2 := e1.(acks := e1.acks + {n});
    WireOn(e1, c, ms, Arrival(k, 0, true), e2, limit);
    NewCommandSized(c, ms, k, 0);
    SentCarries(c, ms, k, 0);
    FirstMonotone(ms, k, |ms|);
    e' := OneAcked(e2, c, ms, k, 0, limit);
  }

  lemma {:induction false} HauntedThrough(e: Ends, c: nat, ms: seq<Message>, j: nat, k: nat, limit: nat) returns (e': Ends)
    requires Haunted(e, c, ms, j, k, limit) && k < |ms| && First(ms, |ms|) - 1 == Double(ms, j)
    requires forall l | k <= l < |ms| :: ms[l] == Empty()
    ensures Quiet(e', c, ms, Double(ms, j), limit) && |e'.Delivered()| < |ms|
    decreases |ms| - k
  {
    hide First, Quiet, Empty, Double, Bogus, Count;
    EmptiesNumbered(ms, k, |ms|);
    if k + 1 == |ms| {
      e' := HauntedLost(e, c, ms, j, k, limit);
      QuietUntaken(e', c, ms, First(ms, k), limit);
    } else {
      e' := HauntedOn(e, c, ms, j, k, limit);
      e' := HauntedThrough(e', c, ms, j, k + 1, limit);
    }
  }

  lemma QuietUntaken(e: Ends, c: nat, ms: seq<Message>, n: nat, limit: nat)
    requires Quiet(e, c, ms, n, limit)
    ensures e.taken == [] && e.Delivered() == e.box.dispatched
  {
  }

  // ---------- Exactly when ----------

  /** Everything has been sent and acknowledged. */
  ghost predicate AllAcknowledged(e: Ends, c: nat, ms: seq<Message>)
    requires AllValid(ms)
  {
    c < |e.q.channels| && e.q.channels[c].sent == Total(ms) && forall n: nat :: !Waits(e.q, c, n)
  }

  lemma {:induction false} QuietAcknowledged(e: Ends, c: nat, ms: seq<Message>, limit: nat)
    requires AllValid(ms) && Quiet(e, c, ms, Total(ms), limit)
    ensures AllAcknowledged(e, c, ms)
  {
    hide First, WireReachable, Queues.Valid;
  }

  /** A run over the packets `ms` and more, narrow ones, after them, at whose end the sender has every packet acknowledged
      and the receiver has not put them all in order. */
  ghost predicate Loses(es: seq<Ends>, acts: seq<Act>, c: nat, ms: seq<Message>, more: seq<Message>, limit: nat, size: nat) {
    var all := ms + more;
    && WireRun(es, acts, c, all, limit, size) && (forall k | |ms| <= k < |all| :: Narrow(all, k))
    && AllAcknowledged(es[|acts|], c, all) && es[|acts|].Delivered() != Payloads(all, |all|)
  }

  ghost predicate CanLose(c: nat, ms: seq<Message>, limit: nat) {
    exists more: seq<Message>, es: seq<Ends>, acts: seq<Act>, size: nat :: Loses(es, acts, c, ms, more, limit, size)
  }

  lemma {:induction false} FarLoses(c: nat, ms: seq<Message>, limit: nat)
    requires AllValid(ms) && |ms| > 0 && !Narrow(ms, |ms| - 1)
    requires forall k | 0 <= k < |ms| :: Fits(Before(ms, k), ms[k], limit)
    ensures CanLose(c, ms, limit)
  {
    hide First, Count, Steps, Fits, Kept, Invariant, Mistaken, Haunted, Quiet, Tenth, Double, Filling, Narrow, Empty, WireNext, AllAcknowledged, Before;
    var j, more := |ms| - 1, Filling(ms);
    var all := ms + more;
    FillingFills(ms, limit);
    var s, i, k := FarMistaken(c, all, j, limit);
    FarManyPieces(all, j);
    var e := PieceHaunts(s, c, all, j, i, k, limit);
    e := HauntedThrough(e, c, all, j, k, limit);
    QuietAcknowledged(e, c, all, limit);
    QuietReachable(e, c, all, Double(all, j), limit);
    forall l | |ms| <= l < |all| ensures Narrow(all, l) {
      EmptyNarrow(all, l);
    }
    var es: seq<Ends>, acts: seq<Act> :| WireRun(es, acts, c, all, limit, Longest(all)) && es[|acts|] == e;
    assert Loses(es, acts, c, ms, more, limit, Longest(all));
  }

  lemma {:induction false} FarManyPieces(ms: seq<Message>, j: nat)
    requires AllValid(ms) && j < |ms| && !Narrow(ms, j)
    ensures 2 <= ms[j].Pieces()
  {
    hide Count;
    PiecesPositive(ms[j]);
  }

  lemma {:induction false} EmptyNarrow(ms: seq<Message>, k: nat)
    requires AllValid(ms) && k < |ms| && ms[k] == Empty()
    ensures Narrow(ms, k)
  {
  }

  lemma QuietReachable(e: Ends, c: nat, ms: seq<Message>, n: nat, limit: nat)
    requires Quiet(e, c, ms, n, limit)
    ensures WireReachable(e, c, ms, limit)
  {
  }

  lemma {:induction false} NarrowPrefix(ms: seq<Message>, more: seq<Message>, k: nat)
    requires AllValid(ms) && AllValid(ms + more) && k < |ms|
    ensures Narrow(ms + more, k) <==> Narrow(ms, k)
  {
    FirstPrefix(ms, more, k);
    FirstPrefix(ms, more, k + 1);
  }

  /**
   On a channel whose other packets are narrow, a packet puts the delivery of those after it at risk if and only if it
   reaches four windows past its first number: then, and only then, can a run end with everything acknowledged and
   not everything delivered.
   */
  lemma {:induction false} LosesExactly(c: nat, ms: seq<Message>, limit: nat)
    requires AllValid(ms) && |ms| > 0 && forall k | 0 <= k < |ms| :: Fits(Before(ms, k), ms[k], limit)
    requires forall k | 0 <= k < |ms| - 1 :: Narrow(ms, k)
    ensures CanLose(c, ms, limit) <==> ReachesFar(Before(ms, |ms| - 1), ms[|ms| - 1])
  {
    hide Fits, ReachesFar, Before, Narrow, First, WireRun, Waits;
    NarrowByWire(ms, |ms| - 1);
    if ReachesFar(Before(ms, |ms| - 1), ms[|ms| - 1]) {
      FarLoses(c, ms, limit);
    }
    if CanLose(c, ms, limit) {
      var more: seq<Message>, es: seq<Ends>, acts: seq<Act>, size: nat :| Loses(es, acts, c, ms, more, limit, size);
      var all := ms + more;
      if !ReachesFar(Before(ms, |ms| - 1), ms[|ms| - 1]) {
        RunValid(es, acts, c, all, limit, size);
        forall k | 0 <= k < |all| ensures Narrow(all, k) {
          if k < |ms| {
            NarrowPrefix(ms, more, k);
          }
        }
        NarrowDelivered(es, acts, c, all, limit, size, |acts|);
      }
    }
  }

  lemma RunValid(es: seq<Ends>, acts: seq<Act>, c: nat, ms: seq<Message>, limit: nat, size: nat)
    requires WireRun(es, acts, c, ms, limit, size)
    ensures AllValid(ms) && |es| == |acts| + 1
  {
  }

  /** With the defaults for the transmission unit and the size of packets, the first packet of a channel can do it. */
  lemma {:induction false} DefaultsLose(c: nat, m: Message, checksum: bool, limit: nat)
    requires m.limit == Sending.PieceLimit(DEFAULT_MTU, checksum) && |m.data| == DEFAULT_MAXIMUM_PACKET_SIZE && limit >= DEFAULT_MTU
    ensures CanLose(c, [m], limit)
  {
    hide Fits, ReachesFar, CanLose, First;
    var ms := [m];
    DefaultsFit(Before(ms, 0), m, checksum, limit);
    DefaultsReachFar(Before(ms, 0), m, checksum);
    assert ms[0] == m;
    LosesExactly(c, ms, limit);
  }
}
