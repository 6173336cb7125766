/**
 What the arrival of a command does to a reliable channel, first in the terms of the C code, on wire numbers alone, and
 then against the packets that were sent.
 */
module Arrivals {
  import opened Machine
  import opened Messages
  import opened SequenceWindows
  import opened Inbox

  const MAX_FRAGMENTS := 1024 * 1024

  /** The commands that carry reliable packets. */
  datatype Datagram =
    | Single(sequence: uint16, data: seq<uint8>)
    | Fragment(sequence: uint16, start: uint16, number: nat, count: nat, offset: nat, total: nat, data: seq<uint8>)

  /** What the sender puts on the wire for piece `i` of packet `j`. */
  ghost function Sent(ms: seq<Message>, j: nat, i: nat): Datagram
    requires AllValid(ms) && j < |ms| && i < ms[j].Pieces()
  {
    var m := ms[j];
    PieceInside(m, i);
    if m.Fragmented() then
      Fragment(Wire(First(ms, j) + i), Wire(First(ms, j)), i, m.Pieces(), m.Offset(i), |m.data|, m.Piece(i))
    else
      Single(Wire(First(ms, j)), m.data)
  }

  /** What is known of how old or new packet `j` is when a command of it arrives. */
  ghost predicate Timely(b: Inbox, ms: seq<Message>, j: nat)
    requires AllValid(ms) && b.done <= |ms| && j < |ms|
  {
    if j < b.done then b.Last(ms) <= First(ms, j) + 0x1_0000 && Window(b.Last(ms)) <= Window(First(ms, j)) + WINDOWS - FREE_WINDOWS + 1
    else First(ms, j) < b.Last(ms) + 0x1_0000
  }

  /** Let in: neither put in order yet nor too many windows ahead. */
  ghost predicate LetIn(b: Inbox, ms: seq<Message>, j: nat)
    requires AllValid(ms) && b.done <= |ms| && j < |ms|
  {
    b.done <= j && Window(First(ms, j)) < Window(b.Last(ms)) + FREE_WINDOWS - 1
  }

  /** The window test on wire numbers lets in exactly those packets; of the others, only one equal to the last
      number passes it. */
  lemma {:induction false} TestsTruly(b: Inbox, ms: seq<Message>, j: nat)
    requires b.Consistent(ms) && j < |ms| && Timely(b, ms, j)
    ensures Accepts(b.incomingReliable, Wire(First(ms, j))) && Wire(First(ms, j)) != b.incomingReliable <==> LetIn(b, ms, j)
    ensures LetIn(b, ms, j) ==> InReach(b, ms, j)
    ensures j < b.done && Accepts(b.incomingReliable, Wire(First(ms, j))) ==> !ms[j].Fragmented()
    ensures b.done <= j && Accepts(b.incomingReliable, Wire(First(ms, j))) ==> LetIn(b, ms, j)
  {
    hide First, Count;
    var r, n := b.Last(ms), First(ms, j);
    if j < b.done {
      FirstMonotone(ms, j, b.done);
      PiecesPositive(ms[j]);
      if n < r {
        OldNumber(r, n);
      } else {
        PieceInside(ms[j], 0);
      }
    } else {
      FirstMonotone(ms, b.done, j);
      NewNumber(r, n);
      WireDistinct(r, n);
    }
  }

  /** However many packets are put in order at once, the last of them begins less than seven windows ahead. */
  ghost predicate StepsTo(b: Inbox, ms: seq<Message>, done: nat)
    requires AllValid(ms) && b.done <= |ms| && done <= |ms|
  {
    done > b.done ==> Window(First(ms, done - 1)) < Window(b.Last(ms)) + FREE_WINDOWS - 1
  }

  /** What the arrival of piece `i` of packet `j` does to a channel; `handled` tells that it was not turned down for
      its size or for want of room. */
  ghost predicate Arrived(b: Inbox, ms: seq<Message>, j: nat, i: nat, b': Inbox, handled: bool, acked: bool)
    requires b.Valid(ms) && j < |ms|
  {
    var n := First(ms, j) + i;
    && b'.Valid(ms) && b.done <= b'.done && b'.taken == b.taken && StepsTo(b, ms, b'.done)
    && (if handled && LetIn(b, ms, j) then b'.accepted == b.accepted + {n} else b' == b)
    && (acked <==> handled && !Suppresses(b'.incomingReliable, Wire(n)))
  }

  /** Something of packet `j` is in the queue. */
  ghost predicate Held(b: Inbox, j: nat) {
    exists q :: 0 <= q < |b.queue| && b.queue[q].message == j
  }

  lemma NotHeld(b: Inbox, at: nat, j: nat)
    requires at <= |b.queue|
    requires (forall q | 0 <= q < at :: b.queue[q].message < j) && (forall q | at <= q < |b.queue| :: b.queue[q].message > j)
    ensures !Held(b, j)
  {
  }

  lemma LetInStill(b: Inbox, b': Inbox, ms: seq<Message>, j: nat)
    requires AllValid(ms) && b.done == b'.done <= |ms| && j < |ms| && LetIn(b, ms, j)
    ensures LetIn(b', ms, j)
  {
  }

  lemma HeldAt(b: Inbox, q: nat, j: nat)
    requires q < |b.queue| && b.queue[q].message == j
    ensures Held(b, j)
  {
  }

  // ---------- On the wire ----------

  /** What the receiver works on. */
  datatype Box = Box(incomingReliable: uint16, queue: seq<Incoming>, dispatched: seq<seq<uint8>>)

  ghost function BoxOf(b: Inbox): Box {
    Box(b.incomingReliable, b.queue, b.dispatched)
  }

  /** The flags of a packet in pieces tell how many are missing. */
  ghost predicate Formed(e: Incoming) {
    if e.fragmented then e.fragmentCount == |e.fragments| && e.fragmentsRemaining == Clear(e.fragments)
    else e.fragmentCount == e.fragmentsRemaining == 0
  }

  ghost predicate AllFormed(s: seq<Incoming>) {
    forall q | 0 <= q < |s| :: Formed(s[q])
  }

  /** The number that `incomingReliable` steps to with a packet. */
  function After(e: Incoming): uint16 {
    if e.fragmentCount > 0 then (e.sequence + e.fragmentCount - 1) % 0x1_0000 else e.sequence
  }

  /** A packet comes next and is complete. */
  predicate ComesNext(incomingReliable: uint16, e: Incoming) {
    e.fragmentsRemaining == 0 && e.sequence == (incomingReliable + 1) % 0x1_0000
  }

  ghost function PutInOrder(b: Box): Box
    decreases |b.queue|
  {
    if b.queue == [] || !ComesNext(b.incomingReliable, b.queue[0]) then b
    else PutInOrder(Box(After(b.queue[0]), b.queue[1..], b.dispatched + [b.queue[0].data]))
  }

  /** Whether wire number `s` is in the queue, and behind which entry it is or belongs, searched for from the back. */
  function Search(current: uint16, queue: seq<Incoming>, s: uint16): (r: (nat, bool))
    ensures r.0 <= |queue| && (r.1 ==> r.0 > 0)
  {
    if queue == [] then (0, false)
    else
      var n := |queue|;
      var e := queue[n - 1];
      if s >= current && e.sequence < current then Search(current, queue[..n - 1], s)
      else if s < current && e.sequence >= current then (n, false)
      else if e.sequence <= s then (n, e.sequence == s)
      else Search(current, queue[..n - 1], s)
  }

  datatype Outcome = Queued(at: nat) | Discarded | Failed

  /** A packet of which nothing has arrived, if it comes in pieces. */
  function NewPacket(s: uint16, data: seq<uint8>, fragmentCount: nat, ghost j: nat): Incoming {
    Incoming(s, fragmentCount > 0, fragmentCount, fragmentCount, seq(fragmentCount, k => false), data, j)
  }

  /** Queueing a packet with first number `s`: what comes of it, and the channel afterwards. */
  ghost function Queueing(b: Box, s: uint16, data: seq<uint8>, fragmentCount: nat, room: bool, j: nat): (r: (Outcome, Box))
    ensures r.0.Queued? ==> room && r.0.at <= |b.queue|
  {
    var (at, same) := Search(b.incomingReliable, b.queue, s);
    if !Accepts(b.incomingReliable, s) || s == b.incomingReliable || same then
      (if fragmentCount > 0 then Failed else Discarded, b)
    else if !room || fragmentCount > MAX_FRAGMENTS then
      (Failed, b)
    else
      (Queued(at), PutInOrder(b.(queue := b.queue[..at] + [NewPacket(s, data, fragmentCount, j)] + b.queue[at..])))
  }

  /** Piece `number` is new to packet `e`, and fits. */
  ghost predicate Missing(e: Incoming, number: nat, offset: nat, piece: seq<uint8>) {
    number < |e.fragments| && !e.fragments[number] && offset + |piece| <= |e.data| && e.fragmentsRemaining > 0
  }

  /** A piece is put into the packet at `q`, unless it is there. */
  ghost function Storing(b: Box, q: nat, number: nat, offset: nat, piece: seq<uint8>): Box
    requires q < |b.queue|
  {
    if !Missing(b.queue[q], number, offset, piece) then b
    else
      var e := Stored(b.queue[q], number, offset, piece);
      var b' := b.(queue := b.queue[q := e]);
      if e.fragmentsRemaining == 0 then PutInOrder(b') else b'
  }

  function Blank(n: nat): seq<uint8> {
    seq(n, k => 0)
  }

  /** A piece arrives: whether it is handled, and the channel afterwards. */
  ghost function HandlingFragment(b: Box, d: Datagram, room: bool, size: nat, j: nat): (r: (bool, Box))
    requires d.Fragment?
  {
    if !Accepts(b.incomingReliable, d.start) then
      (true, b)
    else if d.count > MAX_FRAGMENTS || d.number >= d.count || d.total > size || d.offset >= d.total || |d.data| > d.total - d.offset then
      (false, b)
    else
      var (at, same) := Search(b.incomingReliable, b.queue, d.start);
      if same then
        var e := b.queue[at - 1];
        if !e.fragmented || d.total != |e.data| || d.count != e.fragmentCount then (false, b)
        else (true, Storing(b, at - 1, d.number, d.offset, d.data))
      else
        var (outcome, b1) := Queueing(b, d.start, Blank(d.total), d.count, room, j);
        if !outcome.Queued? || outcome.at >= |b1.queue| then (false, b)
        else (true, Storing(b1, outcome.at, d.number, d.offset, d.data))
  }

  ghost function HandlingSingle(b: Box, d: Datagram, room: bool, size: nat, j: nat): (r: (bool, Box))
    requires d.Single?
  {
    if |d.data| > size then (false, b)
    else
      var (outcome, b') := Queueing(b, d.sequence, d.data, 0, room, j);
      (!outcome.Failed?, b')
  }

  /** A command arrives at a channel that takes packets of up to `size` bytes and has `room` for another or not:
      whether it is handled, and the channel afterwards. */
  ghost function Handling(b: Box, d: Datagram, room: bool, size: nat, j: nat): (bool, Box) {
    if d.Fragment? then HandlingFragment(b, d, room, size, j) else HandlingSingle(b, d, room, size, j)
  }

  // ---------- Well-formed channels ----------

  /** Nothing can be put in order now, and every packet tells how much of it is missing. */
  ghost predicate Settled(b: Box) {
    AllFormed(b.queue) && (b.queue == [] || !ComesNext(b.incomingReliable, b.queue[0]))
  }

  lemma {:induction false} PutInOrderSettled(b: Box)
    requires AllFormed(b.queue)
    ensures Settled(PutInOrder(b))
    decreases |b.queue|
  {
    hide Formed;
    if b.queue != [] && ComesNext(b.incomingReliable, b.queue[0]) {
      PutInOrderSettled(Box(After(b.queue[0]), b.queue[1..], b.dispatched + [b.queue[0].data]));
    }
  }

  lemma {:induction false} NewFormed(s: uint16, data: seq<uint8>, fragmentCount: nat, j: nat)
    ensures Formed(NewPacket(s, data, fragmentCount, j))
  {
    ClearAll(NewPacket(s, data, fragmentCount, j).fragments);
  }

  lemma {:induction false} QueueingSettled(b: Box, s: uint16, data: seq<uint8>, fragmentCount: nat, room: bool, j: nat)
    requires Settled(b)
    ensures Settled(Queueing(b, s, data, fragmentCount, room, j).1)
  {
    hide PutInOrder, Accepts, Formed, ComesNext;
    var e := NewPacket(s, data, fragmentCount, j);
    NewFormed(s, data, fragmentCount, j);
    var at := Search(b.incomingReliable, b.queue, s).0;
    var queue := b.queue[..at] + [e] + b.queue[at..];
    assert forall q | 0 <= q < |queue| :: queue[q] == if q < at then b.queue[q] else if q == at then e else b.queue[q - 1];
    PutInOrderSettled(b.(queue := queue));
  }

  /** An incomplete packet stays where it was queued. */
  lemma {:induction false} QueueingStays(b: Box, s: uint16, data: seq<uint8>, fragmentCount: nat, room: bool, j: nat)
    requires Settled(b) && fragmentCount > 0 && Queueing(b, s, data, fragmentCount, room, j).0.Queued?
    ensures var (outcome, b') := Queueing(b, s, data, fragmentCount, room, j);
            var at := outcome.at;
            && b' == b.(queue := b.queue[..at] + [NewPacket(s, data, fragmentCount, j)] + b.queue[at..])
            && at < |b'.queue| && b'.queue[at] == NewPacket(s, data, fragmentCount, j)
  {
    hide Accepts;
  }

  lemma {:induction false} StoringSettled(b: Box, q: nat, number: nat, offset: nat, piece: seq<uint8>)
    requires Settled(b) && q < |b.queue|
    ensures Settled(Storing(b, q, number, offset, piece))
  {
    hide PutInOrder, Copied;
    var e := b.queue[q];
    if Missing(e, number, offset, piece) {
      var e' := Stored(e, number, offset, piece);
      if e.fragmented {
        ClearOne(e.fragments, number);
      }
      assert Formed(e');
      if e'.fragmentsRemaining == 0 {
        PutInOrderSettled(b.(queue := b.queue[q := e']));
      }
    }
  }

  /** In a well-formed packet a piece that has not arrived is missing. */
  lemma {:induction false} MissingPiece(e: Incoming, number: nat, offset: nat, piece: seq<uint8>)
    requires Formed(e) && e.fragmented && number < e.fragmentCount && offset + |piece| <= |e.data|
    ensures Missing(e, number, offset, piece) <==> !e.fragments[number]
  {
    if !e.fragments[number] {
      ClearOne(e.fragments, number);
    }
  }

  lemma {:induction false} ValidSettled(b: Inbox, ms: seq<Message>)
    requires b.Valid(ms)
    ensures Settled(BoxOf(b))
  {
    hide First;
    StalledStays(b, ms);
    forall q | 0 <= q < |b.queue| ensures Formed(b.queue[q]) {
      assert b.EntryValid(b.queue[q], ms);
    }
  }

  lemma PutNext(incomingReliable: uint16, queue: seq<Incoming>, dispatched: seq<seq<uint8>>, x: nat)
    requires x < |queue| && ComesNext(incomingReliable, queue[x])
    ensures PutInOrder(Box(incomingReliable, queue[x..], dispatched + Contents(queue[..x])))
         == PutInOrder(Box(After(queue[x]), queue[x + 1..], dispatched + Contents(queue[..x + 1])))
  {
    ContentsStep(queue, x);
    assert queue[x..][1..] == queue[x + 1..];
    assert dispatched + Contents(queue[..x]) + [queue[x].data] == dispatched + Contents(queue[..x + 1]);
  }

  /** What cannot be queued leaves the channel as it was. */
  lemma {:induction false} QueueingFails(b: Box, d: Datagram, room: bool, j: nat)
    requires d.Fragment?
    ensures var (outcome, b') := Queueing(b, d.start, Blank(d.total), d.count, room, j); !outcome.Queued? ==> b' == b
  {
    hide PutInOrder, Search, Accepts;
  }

  // ---------- Data waiting for the application ----------

  ghost function DataLength(s: seq<seq<uint8>>): nat {
    if s == [] then 0 else DataLength(s[..|s| - 1]) + |s[|s| - 1]|
  }

  lemma {:induction false} DataConcat(a: seq<seq<uint8>>, b: seq<seq<uint8>>)
    ensures DataLength(a + b) == DataLength(a) + DataLength(b)
  {
    if b == [] {
      assert a + b == a;
    } else {
      DataConcat(a, b[..|b| - 1]);
      assert (a + b)[..|a + b| - 1] == a + b[..|b| - 1];
    }
  }

  /** The bytes of the packets in the queue and of those in order. */
  ghost function WaitingData(b: Box): nat {
    DataLength(b.dispatched + Contents(b.queue))
  }

  lemma {:induction false} OneLength(d: seq<uint8>)
    ensures DataLength([d]) == |d|
  {
    assert DataLength([d]) == DataLength([d][..0]) + |d|;
  }

  lemma {:induction false} InsertedWaiting(b: Box, at: nat, e: Incoming)
    requires at <= |b.queue|
    ensures WaitingData(b.(queue := b.queue[..at] + [e] + b.queue[at..])) == WaitingData(b) + |e.data|
  {
    hide DataLength;
    var b' := b.(queue := b.queue[..at] + [e] + b.queue[at..]);
    var front, back := b.dispatched + Contents(b.queue[..at]), Contents(b.queue[at..]);
    assert b'.dispatched + Contents(b'.queue) == front + ([e.data] + back) && b.dispatched + Contents(b.queue) == front + back;
    DataConcat(front, [e.data] + back);
    DataConcat([e.data], back);
    DataConcat(front, back);
    OneLength(e.data);
  }

  lemma {:induction false} PutInOrderWaiting(b: Box)
    ensures WaitingData(PutInOrder(b)) == WaitingData(b)
    decreases |b.queue|
  {
    hide DataLength;
    if b.queue != [] && ComesNext(b.incomingReliable, b.queue[0]) {
      var b1 := Box(After(b.queue[0]), b.queue[1..], b.dispatched + [b.queue[0].data]);
      assert b1.dispatched + Contents(b1.queue) == b.dispatched + Contents(b.queue);
      PutInOrderWaiting(b1);
    }
  }

  /** A packet queued adds its length. */
  lemma {:induction false} QueueingWaiting(b: Box, s: uint16, data: seq<uint8>, fragmentCount: nat, room: bool, j: nat)
    ensures var (outcome, b') := Queueing(b, s, data, fragmentCount, room, j);
            WaitingData(b') == WaitingData(b) + if outcome.Queued? then |data| else 0
  {
    hide WaitingData, PutInOrder, Accepts;
    var at, e := Search(b.incomingReliable, b.queue, s).0, NewPacket(s, data, fragmentCount, j);
    InsertedWaiting(b, at, e);
    PutInOrderWaiting(b.(queue := b.queue[..at] + [e] + b.queue[at..]));
  }

  lemma {:induction false} StoringWaiting(b: Box, q: nat, number: nat, offset: nat, piece: seq<uint8>)
    requires q < |b.queue|
    ensures WaitingData(Storing(b, q, number, offset, piece)) == WaitingData(b)
  {
    hide WaitingData, PutInOrder;
    var d := b.queue[q];
    if Missing(d, number, offset, piece) {
      var e := Stored(d, number, offset, piece);
      var b0, b' := b.(queue := b.queue[..q] + b.queue[q + 1..]), b.(queue := b.queue[q := e]);
      InsertedWaiting(b0, q, e);
      InsertedWaiting(b0, q, d);
      assert b0.queue[..q] + [e] + b0.queue[q..] == b.queue[q := e];
      assert b0.queue[..q] + [d] + b0.queue[q..] == b.queue;
      PutInOrderWaiting(b');
    }
  }

  lemma {:induction false} TakenWaiting(b: Box)
    requires b.dispatched != []
    ensures WaitingData(b) == |b.dispatched[0]| + WaitingData(b.(dispatched := b.dispatched[1..]))
  {
    hide DataLength;
    var d, b' := b.dispatched[0], b.(dispatched := b.dispatched[1..]);
    assert b.dispatched + Contents(b.queue) == [d] + (b'.dispatched + Contents(b'.queue));
    DataConcat([d], b'.dispatched + Contents(b'.queue));
    OneLength(d);
  }

  // ---------- Against the packets sent ----------

  /** What a command of packet `j` needs so as not to be turned down: the sizes allowed, and, if it is the first
      of its packet to be let in, room. */
  ghost predicate Handles(b: Inbox, ms: seq<Message>, j: nat, room: bool, size: nat)
    requires AllValid(ms) && b.done <= |ms| && j < |ms|
  {
    var m := ms[j];
    if m.Fragmented() then
      LetIn(b, ms, j) ==> m.Pieces() <= MAX_FRAGMENTS && |m.data| <= size && (Held(b, j) || room)
    else
      |m.data| <= size && (LetIn(b, ms, j) ==> Held(b, j) || room)
  }

  /** Put in order is everything that comes next and is complete, and nothing else. */
  lemma {:induction false} PutInOrderTrue(b: Inbox, ms: seq<Message>) returns (x: nat)
    requires b.Consistent(ms)
    ensures x <= |b.queue| && b.done + x <= |ms| && PutInOrder(BoxOf(b)) == BoxOf(InOrder(b, ms, x))
    ensures InOrder(b, ms, x).Valid(ms) && StepsTo(b, ms, b.done + x)
    ensures b.Stalled() ==> x == 0 && InOrder(b, ms, x) == b
  {
    hide Inbox.Consistent, First, PutInOrder, Contents, ComesNext;
    Bounds(b, ms);
    InOrderNone(b, ms);
    if b.Stalled() {
      StalledStays(b, ms);
    }
    x := ReadyTrue(b, ms, 0);
    InOrderConsistent(b, ms, x);
    StopsTrue(b, ms, x);
  }

  lemma {:induction false} StopsTrue(b: Inbox, ms: seq<Message>, x: nat)
    requires b.Consistent(ms) && Ready(b, x) && b.done + x <= |ms| && Stops(b, ms, x)
    ensures InOrder(b, ms, x).Stalled() && StepsTo(b, ms, b.done + x)
  {
    hide Inbox.Consistent, First, Contents;
    StopsStalled(b, ms, x);
  }

  /** The packet at `x` does not come next, or is incomplete. */
  ghost predicate Stops(b: Inbox, ms: seq<Message>, x: nat)
    requires AllValid(ms) && b.done + x <= |ms| && x <= |b.queue|
  {
    x == |b.queue| || !ComesNext(Wire(First(ms, b.done + x) - 1), b.queue[x])
  }

  lemma {:induction false} ReadyTrue(b: Inbox, ms: seq<Message>, x: nat) returns (x': nat)
    requires b.Consistent(ms) && Ready(b, x) && b.done + x <= |ms|
    ensures Ready(b, x') && b.done + x' <= |ms| && PutInOrder(BoxOf(InOrder(b, ms, x))) == BoxOf(InOrder(b, ms, x'))
    ensures Stops(b, ms, x') && (Stops(b, ms, x) ==> x' == x)
    decreases |b.queue| - x
  {
    hide Inbox.Consistent, First, Contents, ComesNext, PutInOrder;
    Bounds(b, ms);
    if Stops(b, ms, x) {
      x' := x;
      StopsOrder(b, ms, x);
    } else {
      ReadyOn(b, ms, x);
      InOrderStep(b, ms, x);
      x' := ReadyTrue(b, ms, x + 1);
    }
  }

  lemma {:induction false} StopsOrder(b: Inbox, ms: seq<Message>, x: nat)
    requires AllValid(ms) && b.done + x <= |ms| && x <= |b.queue| && Stops(b, ms, x)
    ensures PutInOrder(BoxOf(InOrder(b, ms, x))) == BoxOf(InOrder(b, ms, x))
  {
    hide First, ComesNext, Contents;
  }

  lemma {:induction false} ReadyOn(b: Inbox, ms: seq<Message>, x: nat)
    requires b.Consistent(ms) && Ready(b, x) && b.done + x <= |ms| && !Stops(b, ms, x)
    ensures Ready(b, x + 1) && b.done + x < |ms| && After(b.queue[x]) == Wire(First(ms, b.done + x + 1) - 1)
  {
    hide Inbox.Consistent, First, Assembles, Clear;
    NextByWire(b, ms, x);
    NextLast(b, ms, x);
  }

  lemma {:induction false} InOrderNone(b: Inbox, ms: seq<Message>)
    requires AllValid(ms) && b.done <= |ms| && b.incomingReliable == Wire(First(ms, b.done) - 1)
    ensures InOrder(b, ms, 0) == b
  {
    assert b.queue[0..] == b.queue && b.dispatched + Contents(b.queue[..0]) == b.dispatched;
  }

  lemma {:induction false} StalledStays(b: Inbox, ms: seq<Message>)
    requires b.Consistent(ms) && b.Stalled()
    ensures b.queue == [] || !ComesNext(b.incomingReliable, b.queue[0])
  {
    hide First, Assembles;
    if b.queue != [] {
      NextByWire(b, ms, 0);
    }
  }

  lemma {:induction false} InOrderStep(b: Inbox, ms: seq<Message>, x: nat)
    requires AllValid(ms) && b.done + x < |ms| && x < |b.queue|
    requires ComesNext(Wire(First(ms, b.done + x) - 1), b.queue[x]) && After(b.queue[x]) == Wire(First(ms, b.done + x + 1) - 1)
    ensures PutInOrder(BoxOf(InOrder(b, ms, x))) == PutInOrder(BoxOf(InOrder(b, ms, x + 1)))
  {
    hide First, ComesNext, After;
    var b1, b2 := InOrder(b, ms, x), InOrder(b, ms, x + 1);
    assert b1.queue[0] == b.queue[x] && b1.queue[1..] == b2.queue;
    ContentsStep(b.queue, x);
    assert b2.dispatched == b1.dispatched + [b.queue[x].data];
  }

  lemma ContentsStep(s: seq<Incoming>, x: nat)
    requires x < |s|
    ensures Contents(s[..x + 1]) == Contents(s[..x]) + [s[x].data]
  {
  }

  /** Searching from the back finds the number or its place. */
  lemma {:induction false} SearchPlace(current: uint16, queue: seq<Incoming>, s: uint16)
    requires Ordered(current, queue)
    ensures var (at, same) := Search(current, queue, s);
            if same then queue[at - 1].sequence == s else Place(current, queue, s, at)
  {
    if queue != [] {
      var n := |queue|;
      var e, front := queue[n - 1], queue[..n - 1];
      SearchPlace(current, front, s);
      if Ahead(current, e.sequence) > Ahead(current, s) {
        assert Search(current, queue, s) == Search(current, front, s);
        PlaceBefore(current, queue, s, Search(current, front, s).0);
      } else {
        assert Search(current, queue, s) == (n, e.sequence == s);
        SameAhead(current, e.sequence, s);
      }
    }
  }

  lemma SameAhead(current: uint16, a: uint16, b: uint16)
    ensures Ahead(current, a) == Ahead(current, b) <==> a == b
  {
  }

  lemma PlaceBefore(current: uint16, queue: seq<Incoming>, s: uint16, at: nat)
    requires |queue| > 0 && Ahead(current, queue[|queue| - 1].sequence) > Ahead(current, s)
    ensures Place(current, queue[..|queue| - 1], s, at) ==> Place(current, queue, s, at)
  {
  }

  /** The queue is searched truly. */
  lemma {:induction false} SearchTrue(b: Inbox, ms: seq<Message>, j: nat)
    requires b.Consistent(ms) && j < |ms| && InReach(b, ms, j)
    ensures var (at, same) := Search(b.incomingReliable, b.queue, Wire(First(ms, j)));
            && (same ==> b.queue[at - 1].message == j && Held(b, j))
            && (!same ==> !Held(b, j) && (forall q | 0 <= q < at :: b.queue[q].message < j)
                          && (forall q | at <= q < |b.queue| :: b.queue[q].message > j))
  {
    hide Inbox.Consistent, First, InReach, Held;
    Bounds(b, ms);
    SearchPlace(b.incomingReliable, b.queue, Wire(First(ms, j)));
    var (at, same) := Search(b.incomingReliable, b.queue, Wire(First(ms, j)));
    if same {
      SamePacket(b, ms, j, at - 1);
      HeldAt(b, at - 1, j);
    } else {
      PlaceOf(b, ms, j, at);
      NotHeld(b, at, j);
    }
  }

  /** What is queued, discarded or refused, and what is accepted then. */
  ghost predicate QueuedTruly(b: Inbox, ms: seq<Message>, j: nat, fragmentCount: nat, room: bool, outcome: Outcome, b': Inbox)
    requires b.Valid(ms) && j < |ms|
  {
    && b'.Valid(ms) && b'.done >= b.done && b'.taken == b.taken && StepsTo(b, ms, b'.done)
    && (outcome.Queued? <==> LetIn(b, ms, j) && !Held(b, j) && room && fragmentCount <= MAX_FRAGMENTS)
    && (outcome.Discarded? <==> fragmentCount == 0 && (!LetIn(b, ms, j) || Held(b, j)))
    && (!outcome.Queued? ==> b' == b)
    && (outcome.Discarded? ==> First(ms, j) in b.accepted || !LetIn(b, ms, j))
    && (outcome.Queued? && fragmentCount == 0 ==> b'.accepted == b.accepted + {First(ms, j)})
    && (outcome.Queued? && fragmentCount > 0 ==>
          && b'.accepted == b.accepted && b'.done == b.done
          && outcome.at < |b'.queue| && b'.queue[outcome.at].message == j && LetIn(b', ms, j))
  }

  /** A packet is queued exactly when new, less than 7 windows ahead and with room. */
  lemma {:induction false} QueueingTrue(b: Inbox, ms: seq<Message>, j: nat, data: seq<uint8>, fragmentCount: nat, room: bool)
    returns (b': Inbox)
    requires b.Valid(ms) && j < |ms| && Timely(b, ms, j) && |data| == |ms[j].data|
    requires if fragmentCount > 0 then ms[j].Fragmented() && fragmentCount == ms[j].Pieces()
             else !ms[j].Fragmented() && data == ms[j].data
    ensures var (outcome, box') := Queueing(BoxOf(b), Wire(First(ms, j)), data, fragmentCount, room, j);
            box' == BoxOf(b') && QueuedTruly(b, ms, j, fragmentCount, room, outcome, b')
  {
    hide First, Assembles, Inbox.Consistent, Count, Accepts, InReach, Held, LetIn, PutInOrder, Search;
    TestsTruly(b, ms, j);
    Bounds(b, ms);
    var s := Wire(First(ms, j));
    var (at, same) := Search(b.incomingReliable, b.queue, s);
    if !Accepts(b.incomingReliable, s) || s == b.incomingReliable {
      b' := b;
      return;
    }
    SearchTrue(b, ms, j);
    if same {
      EntryAccepted(b, ms, at - 1);
      b' := b;
      return;
    }
    if !room || fragmentCount > MAX_FRAGMENTS {
      b' := b;
      return;
    }
    b' := InsertedTrue(b, ms, j, at, NewPacket(s, data, fragmentCount, j));
  }

  lemma {:induction false} InsertedTrue(b: Inbox, ms: seq<Message>, j: nat, at: nat, e: Incoming) returns (b': Inbox)
    requires b.Valid(ms) && j < |ms| && LetIn(b, ms, j) && at <= |b.queue| && !Held(b, j)
    requires (forall q | 0 <= q < at :: b.queue[q].message < j) && (forall q | at <= q < |b.queue| :: b.queue[q].message > j)
    requires e == NewPacket(Wire(First(ms, j)), e.data, e.fragmentCount, j) && |e.data| == |ms[j].data|
    requires e.fragmented == ms[j].Fragmented()
    requires if e.fragmented then e.fragmentCount == ms[j].Pieces() else e.data == ms[j].data
    ensures PutInOrder(BoxOf(b).(queue := b.queue[..at] + [e] + b.queue[at..])) == BoxOf(b')
    ensures b'.Valid(ms) && b'.done >= b.done && b'.taken == b.taken && StepsTo(b, ms, b'.done)
    ensures !e.fragmented ==> b'.accepted == b.accepted + {First(ms, j)}
    ensures e.fragmented ==> b'.accepted == b.accepted && b'.done == b.done && at < |b'.queue| && b'.queue[at] == e && LetIn(b', ms, j)
  {
    hide First, Assembles, Inbox.Consistent, Count, Held, LetIn, PutInOrder;
    Bounds(b, ms);
    var accepted := b.accepted + if e.fragmented then {} else {First(ms, j)};
    NewEntry(b, ms, j, at, e);
    var b1 := QueuedIn(b, at, e, accepted);
    Bounds(b1, ms);
    var x := PutInOrderTrue(b1, ms);
    b' := InOrder(b1, ms, x);
    SameSteps(b, b1, ms, b.done + x);
    if e.fragmented {
      assert accepted == b.accepted;
      LetInStill(b, b', ms, j);
    }
  }

  lemma SameSteps(b: Inbox, b1: Inbox, ms: seq<Message>, done: nat)
    requires AllValid(ms) && b.done == b1.done <= |ms| && done <= |ms|
    ensures StepsTo(b, ms, done) <==> StepsTo(b1, ms, done)
  {
  }

  /** A piece put in its place is accepted, and with the last one its packet put in order. */
  lemma {:induction false} StoringTrue(b: Inbox, ms: seq<Message>, q: nat, number: nat) returns (b': Inbox)
    requires b.Valid(ms) && q < |b.queue| && b.queue[q].fragmented && b.EntryValid(b.queue[q], ms) && number < |b.queue[q].fragments|
    ensures var m := ms[b.queue[q].message];
            && m.Offset(number) <= |m.data|
            && Storing(BoxOf(b), q, number, m.Offset(number), m.Piece(number)) == BoxOf(b')
            && b'.accepted == b.accepted + {First(ms, b.queue[q].message) + number}
    ensures b'.Valid(ms) && b'.done >= b.done && b'.taken == b.taken && StepsTo(b, ms, b'.done)
  {
    hide First, Inbox.Consistent, Count, Copied, PutInOrder, Steps;
    Bounds(b, ms);
    EntryOf(b, ms, q);
    var e := b.queue[q];
    var m := ms[e.message];
    PieceInside(m, number);
    if e.fragments[number] {
      PieceAccepted(b, ms, q, number);
      b' := b;
      assert b.accepted == b.accepted + {First(ms, e.message) + number};
    } else {
      StoredConsistent(b, ms, q, number);
      StoreFits(b, ms, q, number);
      var b1 := StoredIn(b, ms, q, number);
      if e.fragmentsRemaining > 1 {
        StillStalled(b, ms, q, number);
        b' := b1;
      } else {
        Bounds(b1, ms);
        var x := PutInOrderTrue(b1, ms);
        b' := InOrder(b1, ms, x);
        SameSteps(b, b1, ms, b.done + x);
      }
    }
  }

  lemma {:induction false} NothingMore(b: Inbox, ms: seq<Message>)
    requires b.Valid(ms)
    ensures StepsTo(b, ms, b.done)
  {
  }

  /** A piece of a packet that is let in finds its packet, or has it queued if there is room. */
  lemma {:induction false} FragmentLetIn(b: Inbox, ms: seq<Message>, j: nat, i: nat, room: bool, size: nat) returns (b': Inbox)
    requires b.Valid(ms) && j < |ms| && i < ms[j].Pieces() && ms[j].Fragmented() && Timely(b, ms, j) && LetIn(b, ms, j)
    requires ms[j].Pieces() <= MAX_FRAGMENTS && |ms[j].data| <= size
    ensures var (ok, box') := HandlingFragment(BoxOf(b), Sent(ms, j, i), room, size, j);
            && (ok <==> Held(b, j) || room) && box' == BoxOf(b') && b'.Valid(ms)
            && b'.done >= b.done && b'.taken == b.taken && StepsTo(b, ms, b'.done)
            && (ok ==> b'.accepted == b.accepted + {First(ms, j) + i})
            && (!ok ==> b' == b)
  {
    hide First, Inbox.Consistent, Count, Steps, Search, Accepts, Queueing, Storing, Held, LetIn, InReach, StepsTo, Assembles;
    TestsTruly(b, ms, j);
    Bounds(b, ms);
    PieceInside(ms[j], i);
    SearchTrue(b, ms, j);
    var d := Sent(ms, j, i);
    var (at, same) := Search(b.incomingReliable, b.queue, d.start);
    if same {
      EntryOf(b, ms, at - 1);
      b' := StoringTrue(b, ms, at - 1, i);
    } else {
      var (outcome, box1) := Queueing(BoxOf(b), d.start, Blank(d.total), d.count, room, j);
      var b1 := QueueingTrue(b, ms, j, Blank(d.total), d.count, room);
      if outcome.Queued? {
        Bounds(b1, ms);
        EntryOf(b1, ms, outcome.at);
        b' := StoringTrue(b1, ms, outcome.at, i);
        Bounds(b', ms);
        StepsOn(b, b1, b', ms);
      } else {
        b' := b;
        NothingMore(b, ms);
      }
    }
  }

  lemma StepsOn(b: Inbox, b1: Inbox, b': Inbox, ms: seq<Message>)
    requires AllValid(ms) && b.done == b1.done <= |ms| && b'.done <= |ms| && StepsTo(b1, ms, b'.done)
    ensures StepsTo(b, ms, b'.done)
  {
  }

  /** A piece is refused exactly for want of room or size; else it is accepted, unless its packet is old or too far ahead. */
  lemma {:induction false} FragmentTrue(b: Inbox, ms: seq<Message>, j: nat, i: nat, room: bool, size: nat) returns (b': Inbox)
    requires b.Valid(ms) && j < |ms| && i < ms[j].Pieces() && ms[j].Fragmented() && Timely(b, ms, j)
    ensures var (ok, box') := HandlingFragment(BoxOf(b), Sent(ms, j, i), room, size, j);
            && (ok <==> Handles(b, ms, j, room, size)) && box' == BoxOf(b') && Took(b, ms, j, i, b', ok)
  {
    hide First, Inbox.Consistent, Count, Steps, Search, Accepts, Queueing, Storing, Held, LetIn, InReach, StepsTo, Assembles;
    TestsTruly(b, ms, j);
    Bounds(b, ms);
    PieceInside(ms[j], i);
    NothingMore(b, ms);
    if LetIn(b, ms, j) && ms[j].Pieces() <= MAX_FRAGMENTS && |ms[j].data| <= size {
      b' := FragmentLetIn(b, ms, j, i, room, size);
    } else {
      b' := b;
    }
  }

  /** The same for a packet in one command. */
  lemma {:induction false} SingleTrue(b: Inbox, ms: seq<Message>, j: nat, room: bool, size: nat) returns (b': Inbox)
    requires b.Valid(ms) && j < |ms| && 0 < ms[j].Pieces() && !ms[j].Fragmented() && Timely(b, ms, j)
    ensures var (ok, box') := HandlingSingle(BoxOf(b), Sent(ms, j, 0), room, size, j);
            && (ok <==> Handles(b, ms, j, room, size)) && box' == BoxOf(b') && Took(b, ms, j, 0, b', ok)
  {
    hide First, Inbox.Consistent, Count, Steps, Search, Accepts, Queueing, Held, LetIn, InReach, StepsTo, Assembles;
    NothingMore(b, ms);
    Bounds(b, ms);
    if |ms[j].data| > size {
      b' := b;
    } else {
      b' := QueueingTrue(b, ms, j, ms[j].data, 0, room);
      assert First(ms, j) in b.accepted ==> b.accepted == b.accepted + {First(ms, j)};
    }
  }

  /** Arrival of piece `i` of packet `j`, its acknowledgement apart. */
  ghost predicate Took(b: Inbox, ms: seq<Message>, j: nat, i: nat, b': Inbox, handled: bool)
    requires b.Valid(ms) && j < |ms|
  {
    && b'.Valid(ms) && b.done <= b'.done && b'.taken == b.taken && StepsTo(b, ms, b'.done)
    && if handled && LetIn(b, ms, j) then b'.accepted == b.accepted + {First(ms, j) + i} else b' == b
  }

  /** Command `d` carries piece `i` of packet `j`, and comes in time. */
  ghost predicate InTime(b: Inbox, d: Datagram, ms: seq<Message>, j: nat, i: nat) {
    b.Valid(ms) && j < |ms| && i < ms[j].Pieces() && d == Sent(ms, j, i) && Timely(b, ms, j)
  }

  /** What the code makes of a command that comes in time is what `Arrived` says. */
  lemma {:induction false} HandlingTrue(b: Inbox, ms: seq<Message>, j: nat, i: nat, room: bool, size: nat) returns (b': Inbox)
    requires b.Valid(ms) && j < |ms| && i < ms[j].Pieces() && Timely(b, ms, j)
    ensures var (ok, box') := Handling(BoxOf(b), Sent(ms, j, i), room, size, j);
            && (ok <==> Handles(b, ms, j, room, size)) && box' == BoxOf(b')
            && Arrived(b, ms, j, i, b', ok, ok && !Suppresses(box'.incomingReliable, Wire(First(ms, j) + i)))
  {
    hide First, Inbox.Consistent, Count, Steps, Handles, HandlingFragment, HandlingSingle, LetIn, StepsTo, Suppresses;
    Bounds(b, ms);
    OnlyPiece(ms, j, i);
    if ms[j].Fragmented() {
      b' := FragmentTrue(b, ms, j, i, room, size);
    } else {
      b' := SingleTrue(b, ms, j, room, size);
    }
  }

  lemma {:induction false} InTimeTrue(b: Inbox, d: Datagram, ms: seq<Message>, j: nat, i: nat, room: bool, size: nat)
    returns (b': Inbox)
    requires InTime(b, d, ms, j, i)
    ensures b.Valid(ms) && AllValid(ms) && b.done <= |ms| && b'.taken == b.taken
    ensures var (ok, box') := Handling(BoxOf(b), d, room, size, j);
            box' == BoxOf(b') && Arrived(b, ms, j, i, b', Handles(b, ms, j, room, size), ok && !Suppresses(box'.incomingReliable, d.sequence))
  {
    hide First, Inbox.Consistent, Handles, Handling, LetIn, StepsTo, Suppresses;
    Bounds(b, ms);
    OnlyPiece(ms, j, i);
    b' := HandlingTrue(b, ms, j, i, room, size);
  }

  lemma {:induction false} Bounds(b: Inbox, ms: seq<Message>)
    requires b.Consistent(ms)
    ensures AllValid(ms) && b.done <= |ms| && b.incomingReliable == Wire(First(ms, b.done) - 1)
    ensures b.taken <= b.done && |b.dispatched| == b.done - b.taken
    ensures Ordered(b.incomingReliable, b.queue)
  {
    QueueOrdered(b, ms);
  }

  /** Stepping over a packet, `incomingReliable` lands on its last number. */
  lemma {:induction false} NextLast(b: Inbox, ms: seq<Message>, x: nat)
    requires b.Consistent(ms) && Ready(b, x) && x < |b.queue| && b.queue[x].message == b.done + x
    ensures b.done + x < |ms|
    ensures var e := b.queue[x];
            Wire(First(ms, b.done + x + 1) - 1) == if e.fragmentCount > 0 then (e.sequence + e.fragmentCount - 1) % 0x1_0000 else e.sequence
  {
    var e := b.queue[x];
    assert b.EntryValid(e, ms);
    var m := ms[b.done + x];
    assert First(ms, b.done + x + 1) == First(ms, b.done + x) + m.Pieces();
    PiecesPositive(m);
    WirePlus(First(ms, b.done + x), m.Pieces() - 1);
  }

  lemma WirePlus(n: nat, k: nat)
    ensures (Wire(n) + k) % 0x1_0000 == Wire(n + k)
  {
  }

  lemma {:induction false} StopsStalled(b: Inbox, ms: seq<Message>, x: nat)
    requires b.Consistent(ms) && Ready(b, x) && b.done + x <= |ms|
    requires x == |b.queue| || b.queue[x].fragmentsRemaining > 0 ||
             b.queue[x].sequence != (Wire(First(ms, b.done + x) - 1) + 1) % 0x1_0000
    ensures InOrder(b, ms, x).Stalled() && StepsTo(b, ms, b.done + x)
    ensures x == 0 ==> InOrder(b, ms, x) == b
  {
    if x > 0 {
      assert b.EntryValid(b.queue[x - 1], ms);
    }
    if x < |b.queue| {
      NextByWire(b, ms, x);
      assert b.EntryValid(b.queue[x], ms);
      if x > 0 {
        assert b.queue[x - 1].message < b.queue[x].message;
      }
    }
  }

  lemma {:induction false} DoneAccepted(b: Inbox, ms: seq<Message>, j: nat, i: nat)
    requires b.Consistent(ms) && j < b.done && j < |ms|
    ensures First(ms, j) in b.accepted
  {
    PiecesPositive(ms[j]);
    assert b.Has(j, 0) && First(ms, j) + 0 == First(ms, j);
  }

  /** A packet that is not cut in pieces is accepted once queued. */
  lemma {:induction false} EntryAccepted(b: Inbox, ms: seq<Message>, q: nat)
    requires b.Consistent(ms) && q < |b.queue|
    ensures b.queue[q].message < |ms|
    ensures !ms[b.queue[q].message].Fragmented() ==> First(ms, b.queue[q].message) in b.accepted
  {
    var e := b.queue[q];
    assert b.EntryValid(e, ms);
    if !ms[e.message].Fragmented() {
      PieceAccepted(b, ms, q, 0);
    }
  }

  lemma {:induction false} PieceAccepted(b: Inbox, ms: seq<Message>, q: nat, i: nat)
    requires b.Consistent(ms) && q < |b.queue| && b.EntryValid(b.queue[q], ms) && b.queue[q].Holds(i)
    requires i < ms[b.queue[q].message].Pieces()
    ensures First(ms, b.queue[q].message) + i in b.accepted
  {
    assert b.Has(b.queue[q].message, i);
  }

  lemma {:induction false} NewEntry(b: Inbox, ms: seq<Message>, j: nat, at: nat, e: Incoming)
    requires b.Valid(ms) && j < |ms| && LetIn(b, ms, j) && at <= |b.queue|
    requires (forall q | 0 <= q < at :: b.queue[q].message < j) && (forall q | at <= q < |b.queue| :: b.queue[q].message > j)
    requires e.sequence == Wire(First(ms, j)) && e.message == j && |e.data| == |ms[j].data|
    requires e.fragmented == ms[j].Fragmented() && e.fragmentCount == e.fragmentsRemaining
    requires if e.fragmented then e.fragmentCount == ms[j].Pieces() && e.fragments == seq(e.fragmentCount, i => false)
             else e.fragmentCount == 0 && e.data == ms[j].data
    ensures QueuedIn(b, at, e, b.accepted + if e.fragmented then {} else {First(ms, j)}).Consistent(ms)
    ensures e.fragmented ==> QueuedIn(b, at, e, b.accepted).Stalled()
  {
    hide First, Count;
    PiecesPositive(ms[j]);
    if e.fragmented {
      EmptyAssembles(e, ms[j]);
    }
    assert b.EntryValid(e, ms);
    QueuedConsistent(b, ms, j, at, e, b.accepted + if e.fragmented then {} else {First(ms, j)});
    var b' := QueuedIn(b, at, e, b.accepted);
    assert b'.queue[0] == if at == 0 then e else b.queue[0];
    assert b.accepted + {} == b.accepted;
  }

  lemma {:induction false} StoreFits(b: Inbox, ms: seq<Message>, q: nat, i: nat)
    requires b.Consistent(ms) && q < |b.queue| && b.EntryValid(b.queue[q], ms)
    requires b.queue[q].fragmented && i < |b.queue[q].fragments| && !b.queue[q].fragments[i]
    ensures var m := ms[b.queue[q].message];
            && m.Offset(i) <= |m.data| && m.Offset(i) + |m.Piece(i)| <= |b.queue[q].data|
            && b.queue[q].fragmentsRemaining > 0
  {
    StoreAssembles(b.queue[q], ms[b.queue[q].message], i);
  }

  /** Before the last missing piece nothing can be put in order. */
  lemma {:induction false} StillStalled(b: Inbox, ms: seq<Message>, q: nat, i: nat)
    requires b.Valid(ms) && q < |b.queue| && b.EntryValid(b.queue[q], ms)
    requires b.queue[q].fragmented && i < |b.queue[q].fragments| && !b.queue[q].fragments[i]
    requires b.queue[q].fragmentsRemaining > 1
    ensures StoredIn(b, ms, q, i).Stalled()
  {
  }

  lemma {:induction false} EntryOf(b: Inbox, ms: seq<Message>, q: nat)
    requires b.Consistent(ms) && q < |b.queue|
    ensures b.EntryValid(b.queue[q], ms)
    ensures var m := ms[b.queue[q].message];
            && b.queue[q].fragmented == m.Fragmented()
            && (m.Fragmented() ==> |b.queue[q].fragments| == b.queue[q].fragmentCount == m.Pieces() && |b.queue[q].data| == |m.data|)
  {
  }

  lemma {:induction false} SameStart(b: Inbox, ms: seq<Message>, j: nat, q: nat)
    requires b.Consistent(ms) && j < |ms| && InReach(b, ms, j) && q < |b.queue| && b.queue[q].sequence == Wire(First(ms, j))
    ensures b.queue[q].message == j
  {
    SamePacket(b, ms, j, q);
  }

  lemma {:induction false} TakenConsistent(b: Inbox, b': Inbox, ms: seq<Message>)
    requires b.Valid(ms) && b.dispatched != []
    requires b' == b.(dispatched := b.dispatched[1..], taken := b.taken + 1)
    ensures b'.Valid(ms) && b.taken < b.done && b.dispatched[0] == ms[b.taken].data
  {
    hide First, Assembles;
    assert forall x | 0 <= x < |b'.dispatched| :: b'.dispatched[x] == b.dispatched[x + 1];
    assert forall e: Incoming :: b'.EntryValid(e, ms) == b.EntryValid(e, ms);
    assert forall j: nat, i: nat :: b'.Has(j, i) == b.Has(j, i);
  }

  lemma {:induction false} OnlyPiece(ms: seq<Message>, j: nat, i: nat)
    requires AllValid(ms) && j < |ms| && i < ms[j].Pieces()
    ensures ms[j].Fragmented() || i == 0
    ensures Sent(ms, j, i).sequence == Wire(First(ms, j) + i)
    ensures Sent(ms, j, i).Fragment? <==> ms[j].Fragmented()
  {
  }

  /** A number is acknowledged only when accepted, or when more than eight windows ahead. */
  lemma {:induction false} AckedFor(b: Inbox, b': Inbox, ms: seq<Message>, j: nat, i: nat)
    requires b.Consistent(ms) && b'.Consistent(ms) && b.done <= b'.done && j < |ms| && i < ms[j].Pieces()
    requires b.done <= j ==> First(ms, j) + i < b.Last(ms) + 0x1_0000
    requires !Suppresses(b'.incomingReliable, Wire(First(ms, j) + i))
    requires b'.accepted == b.accepted || b'.accepted == b.accepted + {First(ms, j) + i}
    requires First(ms, j) + i in b'.accepted || !LetIn(b, ms, j)
    requires LetIn(b, ms, j) || b' == b
    ensures First(ms, j) + i in b'.accepted || Window(First(ms, j) + i) > Window(b.Last(ms)) + FREE_WINDOWS
  {
    hide First, Assembles, Count;
    var n := First(ms, j) + i;
    if j < b.done {
      assert b.Has(j, i);
    } else if !LetIn(b, ms, j) {
      FirstMonotone(ms, b.done, j);
      NewNumber(b.Last(ms), n);
      WindowMonotone(First(ms, j), n);
    }
  }
}
