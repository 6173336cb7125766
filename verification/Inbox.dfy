/** What ENet keeps of a reliable channel it receives on, against the packets that were sent on it. */
module Inbox {
  import opened Machine
  import opened Messages
  import opened SequenceWindows

  /** `ENetIncomingCommand`: a packet being received. Ghost: which packet of the channel it is. */
  datatype Incoming = Incoming(sequence: uint16, fragmented: bool, fragmentCount: nat, fragmentsRemaining: nat,
                               fragments: seq<bool>, data: seq<uint8>, ghost message: nat)
  {
    /** Whether piece `i` has arrived. */
    predicate Holds(i: nat) {
      !fragmented || (i < |fragments| && fragments[i])
    }
  }

  // ---------- Reassembly ----------

  function Clear(bits: seq<bool>): nat {
    if bits == [] then 0 else Clear(bits[..|bits| - 1]) + if bits[|bits| - 1] then 0 else 1
  }

  lemma {:induction false} ClearOne(bits: seq<bool>, i: nat)
    requires i < |bits| && !bits[i]
    ensures Clear(bits) == Clear(bits[i := true]) + 1
  {
    var n := |bits| - 1;
    if i == n {
      assert bits[i := true][..n] == bits[..n];
    } else {
      ClearOne(bits[..n], i);
      assert bits[i := true][..n] == bits[..n][i := true];
    }
  }

  lemma {:induction false} ClearNone(bits: seq<bool>)
    ensures Clear(bits) == 0 <==> forall i | 0 <= i < |bits| :: bits[i]
  {
    if bits != [] {
      ClearNone(bits[..|bits| - 1]);
      assert forall i | 0 <= i < |bits| - 1 :: bits[..|bits| - 1][i] == bits[i];
    }
  }

  lemma {:induction false} ClearAll(bits: seq<bool>)
    requires forall i | 0 <= i < |bits| :: !bits[i]
    ensures Clear(bits) == |bits|
  {
    if bits != [] {
      ClearAll(bits[..|bits| - 1]);
    }
  }

  ghost predicate HasPiece(data: seq<uint8>, m: Message, i: nat) {
    && m.Offset(i) <= |m.data| == |data|
    && data[m.Offset(i)..m.Offset(i) + m.Length(i)] == m.Piece(i)
  }

  /** What has arrived of `m` is in its place, and the rest is counted. */
  ghost predicate Assembles(e: Incoming, m: Message)
    requires m.Valid()
  {
    && e.fragmented == m.Fragmented()
    && if m.Fragmented() then
         && e.fragmentCount == |e.fragments| == m.Pieces()
         && e.fragmentsRemaining == Clear(e.fragments)
         && |e.data| == |m.data|
         && forall i | 0 <= i < |e.fragments| && e.fragments[i] :: HasPiece(e.data, m, i)
       else
         e.fragmentCount == e.fragmentsRemaining == 0 && e.data == m.data
  }

  /** Once nothing is missing the packet is what was sent. */
  lemma Reassembled(e: Incoming, m: Message)
    requires m.Valid() && Assembles(e, m)
    ensures e.fragmentsRemaining == 0 <==> forall i | 0 <= i < m.Pieces() :: e.Holds(i)
    ensures e.fragmentsRemaining == 0 ==> e.data == m.data
  {
    if m.Fragmented() {
      ClearNone(e.fragments);
      assert forall i | 0 <= i < m.Pieces() :: e.Holds(i) == e.fragments[i];
      if e.fragmentsRemaining == 0 {
        forall p | 0 <= p < |m.data| ensures e.data[p] == m.data[p] {
          var i := PieceOf(m, p);
          assert HasPiece(e.data, m, i);
          var o := m.Offset(i);
          assert e.data[o..o + m.Length(i)][p - o] == m.Piece(i)[p - o];
        }
      }
    } else {
      assert m.Pieces() == 1 && e.Holds(0);
    }
  }

  /** `memcpy` of a piece into the packet. */
  function Copied(data: seq<uint8>, offset: nat, piece: seq<uint8>): (r: seq<uint8>)
    requires offset + |piece| <= |data|
    ensures |r| == |data|
  {
    data[..offset] + piece + data[offset + |piece|..]
  }

  ghost function Stored(e: Incoming, i: nat, offset: nat, piece: seq<uint8>): Incoming
    requires offset + |piece| <= |e.data| && i < |e.fragments| && e.fragmentsRemaining > 0
  {
    e.(fragments := e.fragments[i := true], fragmentsRemaining := e.fragmentsRemaining - 1,
       data := Copied(e.data, offset, piece))
  }

  lemma StoredPiece(data: seq<uint8>, m: Message, i: nat, j: nat)
    requires m.Valid() && m.Fragmented() && i < m.Pieces() && j < m.Pieces() && |data| == |m.data|
    requires j != i ==> HasPiece(data, m, j)
    ensures m.Offset(i) <= |m.data| && m.Offset(i) + m.Length(i) <= |data| && HasPiece(Copied(data, m.Offset(i), m.Piece(i)), m, j)
  {
    PieceInside(m, i);
    PieceInside(m, j);
    var o, p := m.Offset(i), m.Offset(j);
    var r := Copied(data, o, m.Piece(i));
    if i == j {
      assert r[o..o + m.Length(i)] == m.Piece(i);
    } else {
      if j < i {
        PiecesApart(m, j, i);
      } else {
        PiecesApart(m, i, j);
      }
      assert r[p..p + m.Length(j)] == data[p..p + m.Length(j)];
    }
  }

  /** A piece that had not arrived is put in its place. */
  lemma StoreAssembles(e: Incoming, m: Message, i: nat)
    requires m.Valid() && m.Fragmented() && Assembles(e, m) && i < m.Pieces() && !e.fragments[i]
    ensures m.Offset(i) <= |m.data| && m.Offset(i) + |m.Piece(i)| <= |e.data| && e.fragmentsRemaining > 0
    ensures Assembles(Stored(e, i, m.Offset(i), m.Piece(i)), m)
  {
    PieceInside(m, i);
    ClearOne(e.fragments, i);
    var e' := Stored(e, i, m.Offset(i), m.Piece(i));
    forall j | 0 <= j < |e'.fragments| && e'.fragments[j] ensures HasPiece(e'.data, m, j) {
      StoredPiece(e.data, m, i, j);
    }
  }

  /** A packet of which nothing has arrived. */
  lemma EmptyAssembles(e: Incoming, m: Message)
    requires m.Valid() && m.Fragmented() && e.fragmented && |e.data| == |m.data|
    requires e.fragmentCount == e.fragmentsRemaining == m.Pieces() && e.fragments == seq(m.Pieces(), i => false)
    ensures Assembles(e, m)
  {
    ClearAll(e.fragments);
  }

  // ---------- The channel ----------

  /** A receiving channel. `done` packets have been put in order, of which the application took `taken`;
      `accepted` holds the numbers of all pieces let in. */
  datatype Inbox = Inbox(incomingReliable: uint16, queue: seq<Incoming>, dispatched: seq<seq<uint8>>,
                         ghost done: nat, ghost taken: nat, ghost accepted: set<nat>)
  {
    /** The last number of the packets put in order. */
    ghost function Last(ms: seq<Message>): nat
      requires AllValid(ms) && done <= |ms|
    {
      First(ms, done) - 1
    }

    ghost predicate EntryValid(e: Incoming, ms: seq<Message>)
      requires AllValid(ms) && done <= |ms|
    {
      && done <= e.message < |ms|
      && e.sequence == Wire(First(ms, e.message))
      && Window(First(ms, e.message)) < Window(Last(ms)) + FREE_WINDOWS - 1
      && Assembles(e, ms[e.message])
    }

    ghost predicate QueueValid(ms: seq<Message>)
      requires AllValid(ms) && done <= |ms|
    {
      && (forall q | 0 <= q < |queue| :: EntryValid(queue[q], ms))
      && (forall p, q | 0 <= p < q < |queue| :: queue[p].message < queue[q].message)
    }

    /** Piece `i` of packet `j` has been let in. */
    ghost predicate Has(j: nat, i: nat) {
      j < done || exists q | 0 <= q < |queue| :: queue[q].message == j && queue[q].Holds(i)
    }

    ghost predicate AcceptedValid(ms: seq<Message>)
      requires AllValid(ms)
    {
      && (forall j: nat, i: nat | j < |ms| && i < ms[j].Pieces() :: First(ms, j) + i in accepted <==> Has(j, i))
      && (forall n <- accepted :: 1 <= n < First(ms, |ms|))
    }

    /** Everything but that the next packet is still incomplete. */
    ghost predicate Consistent(ms: seq<Message>) {
      && AllValid(ms) && taken <= done <= |ms|
      && incomingReliable == Wire(Last(ms))
      && |dispatched| == done - taken && (forall x | 0 <= x < |dispatched| :: dispatched[x] == ms[taken + x].data)
      && QueueValid(ms) && AcceptedValid(ms)
    }

    ghost predicate Stalled() {
      queue == [] || queue[0].message > done || queue[0].fragmentsRemaining > 0
    }

    ghost predicate Valid(ms: seq<Message>) {
      Consistent(ms) && Stalled()
    }
  }

  lemma {:induction false} InitialInbox(ms: seq<Message>)
    requires AllValid(ms)
    ensures Inbox(0, [], [], 0, 0, {}).Valid(ms)
  {
    var b := Inbox(0, [], [], 0, 0, {});
    forall j: nat, i: nat | j < |ms| && i < ms[j].Pieces() ensures First(ms, j) + i in b.accepted <==> b.Has(j, i) {
    }
  }

  /** Something of the next packet is still missing. */
  lemma {:induction false} NextMissing(b: Inbox, ms: seq<Message>) returns (i: nat)
    requires b.Valid(ms) && b.done < |ms|
    ensures i < ms[b.done].Pieces() && First(ms, b.done) + i !in b.accepted
  {
    var m := ms[b.done];
    PiecesPositive(m);
    i := 0;
    if b.queue != [] && b.queue[0].message == b.done {
      var e := b.queue[0];
      assert b.EntryValid(e, ms);
      Reassembled(e, m);
      i :| 0 <= i < m.Pieces() && !e.Holds(i);
    }
    assert !b.Has(b.done, i);
  }

  // ---------- Order ----------

  /** Numbers less than 2^16 ahead of the last one. */
  ghost predicate InReach(b: Inbox, ms: seq<Message>, j: nat)
    requires AllValid(ms) && b.done <= |ms| && j < |ms|
  {
    b.Last(ms) < First(ms, j) < b.Last(ms) + 0x1_0000
  }

  lemma {:induction false} EntryInReach(b: Inbox, ms: seq<Message>, e: Incoming)
    requires AllValid(ms) && b.done <= |ms| && b.EntryValid(e, ms) && b.incomingReliable == Wire(b.Last(ms))
    ensures InReach(b, ms, e.message)
    ensures Ahead(b.incomingReliable, e.sequence) == First(ms, e.message) - b.Last(ms)
  {
    FirstMonotone(ms, b.done, e.message);
    AheadTrue(b.Last(ms), First(ms, e.message));
  }

  /** In wire numbers the queue is in order, going round. */
  ghost predicate Ordered(current: uint16, queue: seq<Incoming>) {
    forall p, q | 0 <= p < q < |queue| :: Ahead(current, queue[p].sequence) < Ahead(current, queue[q].sequence)
  }

  lemma {:induction false} QueueOrdered(b: Inbox, ms: seq<Message>)
    requires b.Consistent(ms)
    ensures Ordered(b.incomingReliable, b.queue)
  {
    forall p, q | 0 <= p < q < |b.queue|
      ensures Ahead(b.incomingReliable, b.queue[p].sequence) < Ahead(b.incomingReliable, b.queue[q].sequence)
    {
      EntryInReach(b, ms, b.queue[p]);
      EntryInReach(b, ms, b.queue[q]);
      FirstMonotone(ms, b.queue[p].message, b.queue[q].message);
    }
  }

  /** Where a packet with wire number `s` belongs. */
  ghost predicate Place(current: uint16, queue: seq<Incoming>, s: uint16, at: nat) {
    && at <= |queue|
    && (forall q | 0 <= q < at :: Ahead(current, queue[q].sequence) < Ahead(current, s))
    && (forall q | at <= q < |queue| :: Ahead(current, queue[q].sequence) > Ahead(current, s))
  }

  /** The place by wire numbers is the place by packet. */
  lemma {:induction false} PlaceOf(b: Inbox, ms: seq<Message>, j: nat, at: nat)
    requires b.Consistent(ms) && j < |ms| && InReach(b, ms, j) && Place(b.incomingReliable, b.queue, Wire(First(ms, j)), at)
    ensures forall q | 0 <= q < at :: b.queue[q].message < j
    ensures forall q | at <= q < |b.queue| :: b.queue[q].message > j
  {
    AheadTrue(b.Last(ms), First(ms, j));
    forall q | 0 <= q < |b.queue| ensures if q < at then b.queue[q].message < j else b.queue[q].message > j {
      var e := b.queue[q];
      EntryInReach(b, ms, e);
      if e.message < j {
        FirstMonotone(ms, e.message, j);
      } else {
        FirstMonotone(ms, j, e.message);
      }
    }
  }

  /** The same wire number in the queue means the same packet. */
  lemma {:induction false} SamePacket(b: Inbox, ms: seq<Message>, j: nat, q: nat)
    requires b.Consistent(ms) && j < |ms| && InReach(b, ms, j) && q < |b.queue| && b.queue[q].sequence == Wire(First(ms, j))
    ensures b.queue[q].message == j
  {
    var e := b.queue[q];
    EntryInReach(b, ms, e);
    AheadTrue(b.Last(ms), First(ms, j));
    if e.message < j {
      FirstMonotone(ms, e.message, j);
    } else if j < e.message {
      FirstMonotone(ms, j, e.message);
    }
  }

  // ---------- Letting a packet in ----------

  ghost function QueuedIn(b: Inbox, at: nat, e: Incoming, accepted: set<nat>): Inbox
    requires at <= |b.queue|
  {
    b.(queue := b.queue[..at] + [e] + b.queue[at..], accepted := accepted)
  }

  /** A new packet takes its place; what it holds is accepted. */
  lemma {:induction false} QueuedConsistent(b: Inbox, ms: seq<Message>, j: nat, at: nat, e: Incoming, accepted: set<nat>)
    requires b.Consistent(ms) && j < |ms| && b.done <= j && e.message == j && b.EntryValid(e, ms)
    requires at <= |b.queue|
    requires (forall q | 0 <= q < at :: b.queue[q].message < j) && (forall q | at <= q < |b.queue| :: b.queue[q].message > j)
    requires if e.fragmented then accepted == b.accepted && (forall i | 0 <= i < |e.fragments| :: !e.fragments[i])
             else accepted == b.accepted + {First(ms, j)}
    ensures QueuedIn(b, at, e, accepted).Consistent(ms)
  {
    hide First, Count, Clear, Assembles, Wire, Window, Inbox.AcceptedValid;
    var b' := QueuedIn(b, at, e, accepted);
    assert forall q | 0 <= q < |b'.queue| :: b'.queue[q] == if q < at then b.queue[q] else if q == at then e else b.queue[q - 1];
    assert forall x :: b'.EntryValid(x, ms) == b.EntryValid(x, ms);
    QueuedAccepted(b, ms, j, at, e, accepted);
  }

  lemma {:induction false} QueuedAccepted(b: Inbox, ms: seq<Message>, j: nat, at: nat, e: Incoming, accepted: set<nat>)
    requires AllValid(ms) && b.AcceptedValid(ms) && j < |ms| && b.done <= j && e.message == j && Assembles(e, ms[j])
    requires at <= |b.queue|
    requires (forall q | 0 <= q < at :: b.queue[q].message < j) && (forall q | at <= q < |b.queue| :: b.queue[q].message > j)
    requires if e.fragmented then accepted == b.accepted && (forall i | 0 <= i < |e.fragments| :: !e.fragments[i])
             else accepted == b.accepted + {First(ms, j)}
    ensures QueuedIn(b, at, e, accepted).AcceptedValid(ms)
  {
    hide First, Clear;
    var b' := QueuedIn(b, at, e, accepted);
    FirstMonotone(ms, j, |ms|);
    PiecesPositive(ms[j]);
    forall k: nat, i: nat | k < |ms| && i < ms[k].Pieces() ensures First(ms, k) + i in accepted <==> b'.Has(k, i) {
      QueuedHas(b, j, at, e, accepted, k, i);
      NumberUnique(ms, k, i, j, 0);
      assert k == j ==> !b.Has(k, i);
      assert k == j && !e.fragmented ==> i == 0;
    }
  }

  lemma QueuedHas(b: Inbox, j: nat, at: nat, e: Incoming, accepted: set<nat>, k: nat, i: nat)
    requires at <= |b.queue| && e.message == j && b.done <= j
    requires (forall q | 0 <= q < at :: b.queue[q].message < j) && (forall q | at <= q < |b.queue| :: b.queue[q].message > j)
    ensures QueuedIn(b, at, e, accepted).Has(k, i) <==> if k == j then e.Holds(i) else b.Has(k, i)
  {
    var b' := QueuedIn(b, at, e, accepted);
    assert forall q | 0 <= q < |b'.queue| :: b'.queue[q] == if q < at then b.queue[q] else if q == at then e else b.queue[q - 1];
    assert forall q | 0 <= q < |b.queue| :: b.queue[q] == b'.queue[if q < at then q else q + 1];
    if k == j {
      assert b'.queue[at] == e;
    }
  }

  lemma {:induction false} NumberUnique(ms: seq<Message>, j: nat, i: nat, k: nat, l: nat)
    requires AllValid(ms) && j < |ms| && k < |ms| && i < ms[j].Pieces() && l < ms[k].Pieces()
    ensures First(ms, j) + i == First(ms, k) + l <==> j == k && i == l
  {
    if j < k {
      FirstMonotone(ms, j, k);
    } else if k < j {
      FirstMonotone(ms, k, j);
    }
  }

  // ---------- Storing a piece ----------

  ghost function StoredIn(b: Inbox, ms: seq<Message>, q: nat, i: nat): Inbox
    requires AllValid(ms) && b.done <= |ms| && q < |b.queue| && b.EntryValid(b.queue[q], ms)
    requires b.queue[q].fragmented && i < |b.queue[q].fragments| && !b.queue[q].fragments[i]
  {
    var e := b.queue[q];
    var m := ms[e.message];
    StoreAssembles(e, m, i);
    b.(queue := b.queue[q := Stored(e, i, m.Offset(i), m.Piece(i))], accepted := b.accepted + {First(ms, e.message) + i})
  }

  lemma {:induction false} StoredConsistent(b: Inbox, ms: seq<Message>, q: nat, i: nat)
    requires b.Consistent(ms) && q < |b.queue|
    requires b.queue[q].fragmented && i < |b.queue[q].fragments| && !b.queue[q].fragments[i]
    ensures b.EntryValid(b.queue[q], ms) && StoredIn(b, ms, q, i).Consistent(ms)
  {
    hide First, Count, Clear;
    var e := b.queue[q];
    assert b.EntryValid(e, ms);
    var m := ms[e.message];
    StoreAssembles(e, m, i);
    var b' := StoredIn(b, ms, q, i);
    assert forall x :: b'.EntryValid(x, ms) == b.EntryValid(x, ms);
    FirstMonotone(ms, e.message, |ms|);
    forall k: nat, l: nat | k < |ms| && l < ms[k].Pieces() ensures First(ms, k) + l in b'.accepted <==> b'.Has(k, l) {
      NumberUnique(ms, k, l, e.message, i);
      StoredHas(b, ms, q, i, k, l);
    }
  }

  lemma {:induction false} StoredHas(b: Inbox, ms: seq<Message>, q: nat, i: nat, k: nat, l: nat)
    requires b.Consistent(ms) && q < |b.queue| && b.EntryValid(b.queue[q], ms)
    requires b.queue[q].fragmented && i < |b.queue[q].fragments| && !b.queue[q].fragments[i]
    ensures StoredIn(b, ms, q, i).Has(k, l) <==> (k == b.queue[q].message && l == i) || b.Has(k, l)
  {
    hide First, Count, Clear;
    var b' := StoredIn(b, ms, q, i);
    forall p | 0 <= p < |b.queue|
      ensures b'.queue[p].message == b.queue[p].message
      ensures b'.queue[p].Holds(l) <==> (p == q && l == i) || b.queue[p].Holds(l)
    {
    }
    if k == b.queue[q].message && l == i {
      assert b'.queue[q].Holds(l);
    }
  }

  // ---------- Putting packets in order ----------

  /** The first `x` packets of the queue come next and are complete. */
  ghost predicate Ready(b: Inbox, x: nat)
  {
    x <= |b.queue| && forall q | 0 <= q < x :: b.queue[q].message == b.done + q && b.queue[q].fragmentsRemaining == 0
  }

  function Contents(s: seq<Incoming>): seq<seq<uint8>> {
    seq(|s|, q requires 0 <= q < |s| => s[q].data)
  }

  /** They move to the application's list. */
  ghost function InOrder(b: Inbox, ms: seq<Message>, x: nat): Inbox
    requires AllValid(ms) && b.done + x <= |ms| && x <= |b.queue|
  {
    b.(incomingReliable := Wire(First(ms, b.done + x) - 1), queue := b.queue[x..],
       dispatched := b.dispatched + Contents(b.queue[..x]), done := b.done + x)
  }

  lemma {:induction false} InOrderConsistent(b: Inbox, ms: seq<Message>, x: nat)
    requires b.Consistent(ms) && Ready(b, x)
    ensures b.done + x <= |ms| && InOrder(b, ms, x).Consistent(ms)
  {
    hide First, Count, Steps, Clear, Assembles, Window, Wire, Inbox.AcceptedValid;
    if x > 0 {
      assert b.EntryValid(b.queue[x - 1], ms);
    }
    var b' := InOrder(b, ms, x);
    forall q | 0 <= q < x ensures b.queue[q].data == ms[b.done + q].data {
      assert b.EntryValid(b.queue[q], ms);
      Reassembled(b.queue[q], ms[b.done + q]);
    }
    FirstMonotone(ms, b.done, b.done + x);
    WindowMonotone(b.Last(ms), b'.Last(ms));
    forall q | 0 <= q < |b'.queue| ensures b'.EntryValid(b'.queue[q], ms) {
      assert b'.queue[q] == b.queue[q + x] && b.EntryValid(b.queue[q + x], ms);
      assert if x == 0 then true else b.queue[x - 1].message < b.queue[q + x].message;
    }
    InOrderAccepted(b, ms, x);
  }

  lemma {:induction false} InOrderAccepted(b: Inbox, ms: seq<Message>, x: nat)
    requires b.Consistent(ms) && Ready(b, x) && b.done + x <= |ms|
    ensures InOrder(b, ms, x).AcceptedValid(ms)
  {
    hide First, Count, Clear, Assembles, Contents;
    var b' := InOrder(b, ms, x);
    forall j: nat, i: nat | j < |ms| && i < ms[j].Pieces() ensures First(ms, j) + i in b'.accepted <==> b'.Has(j, i) {
      InOrderHas(b, ms, x, j, i);
    }
  }

  lemma {:induction false} InOrderHas(b: Inbox, ms: seq<Message>, x: nat, j: nat, i: nat)
    requires b.Consistent(ms) && Ready(b, x) && b.done + x <= |ms| && j < |ms| && i < ms[j].Pieces()
    ensures InOrder(b, ms, x).Has(j, i) <==> b.Has(j, i)
  {
    hide First, Count, Clear, Assembles;
    var b' := InOrder(b, ms, x);
    assert forall q | 0 <= q < |b'.queue| :: b'.queue[q] == b.queue[q + x];
    assert forall q | x <= q < |b.queue| :: b.queue[q] == b'.queue[q - x];
    if b.done <= j < b.done + x {
      var e := b.queue[j - b.done];
      assert b.EntryValid(e, ms);
      Reassembled(e, ms[j]);
      assert e.Holds(i);
    }
  }

  lemma NextWire(n: nat)
    requires n >= 1
    ensures (Wire(n - 1) + 1) % 0x1_0000 == Wire(n)
  {
  }

  /** The dispatcher's test finds out exactly whether the packet at `x` comes next. */
  lemma {:induction false} NextByWire(b: Inbox, ms: seq<Message>, x: nat)
    requires b.Consistent(ms) && Ready(b, x) && x < |b.queue|
    ensures b.done + x < |ms|
    ensures b.queue[x].sequence == (Wire(First(ms, b.done + x) - 1) + 1) % 0x1_0000 <==> b.queue[x].message == b.done + x
  {
    hide First, Steps, Count, Clear, Assembles, Wire, Window, Ahead, Inbox.AcceptedValid;
    var e := b.queue[x];
    assert b.EntryValid(e, ms);
    if x > 0 {
      assert b.queue[x - 1].message < e.message;
    }
    EntryInReach(b, ms, e);
    FirstMonotone(ms, b.done, b.done + x);
    FirstMonotone(ms, b.done + x, e.message);
    NextWire(First(ms, b.done + x));
    WireDistinct(First(ms, b.done + x), First(ms, e.message));
  }
}
