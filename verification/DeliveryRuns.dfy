/** Runs of a reliable ENet channel that put packets in order: every packet that fits can be delivered. */
module DeliveryRuns {
  import opened Machine
  import opened SequenceWindows
  import opened SendQueue
  import opened SendState
  import opened Messages
  import opened Inbox
  import opened SendSteps
  import opened ReliableChannel
  import opened LongPackets
  import opened Arrivals
  import opened WireRuns

  // ---------- Reachable states ----------

  /** The length of the longest packet, or more. */
  ghost function Longest(ms: seq<Message>): nat {
    if ms == [] then 0
    else
      var l, n := |ms[|ms| - 1].data|, Longest(ms[..|ms| - 1]);
      if l > n then l else n
  }

  lemma {:induction false} WithinLongest(ms: seq<Message>, j: nat)
    requires j < |ms|
    ensures |ms[j].data| <= Longest(ms)
  {
    if j < |ms| - 1 {
      WithinLongest(ms[..|ms| - 1], j);
    }
  }

  ghost predicate WireReachable(e: Ends, c: nat, ms: seq<Message>, limit: nat) {
    exists es: seq<Ends>, acts: seq<Act> :: WireRun(es, acts, c, ms, limit, Longest(ms)) && es[|acts|] == e
  }

  lemma {:induction false} WireFirst(q: Queues, c: nat, ms: seq<Message>, limit: nat)
    requires Initial(q) && c < |q.channels| && AllValid(ms)
    ensures WireReachable(Ends(q, Box(0, [], []), [], {}), c, ms, limit)
  {
    var acts: seq<Act> := [];
    var es := [Ends(q, Box(0, [], []), [], {})];
    assert WireRun(es, acts, c, ms, limit, Longest(ms));
  }

  lemma {:induction false} WireOn(e: Ends, c: nat, ms: seq<Message>, act: Act, e': Ends, limit: nat)
    requires AllValid(ms) && WireReachable(e, c, ms, limit) && WireNext(e, c, ms, act, e', limit, Longest(ms))
    ensures WireReachable(e', c, ms, limit)
  {
    hide WireNext, Longest;
    var size := Longest(ms);
    var es: seq<Ends>, acts: seq<Act> :| WireRun(es, acts, c, ms, limit, size) && es[|acts|] == e;
    var es', acts' := es + [e'], acts + [act];
    forall k | 0 <= k < |acts'| ensures WireNext(es'[k], c, ms, acts'[k], es'[k + 1], limit, size) {
      if k < |acts| {
        assert WireNext(es[k], c, ms, acts[k], es[k + 1], limit, size);
        assert es'[k] == es[k] && es'[k + 1] == es[k + 1];
      }
    }
    assert WireRun(es', acts', c, ms, limit, size) && es'[|acts'|] == e';
  }

  /** The two ends as the C code has them, nothing taken by the application yet. */
  ghost function EndsOf(s: State): Ends {
    Ends(s.q, BoxOf(s.b), [], s.acks)
  }

  /** Some run comes to state `s`, and some run of the C code to the same. */
  ghost predicate Reachable(s: State, c: nat, ms: seq<Message>, limit: nat) {
    && (exists run: seq<State>, steps: seq<Step> :: Run(run, steps, c, ms, limit) && ToldRun(run, steps, c, ms) && run[|steps|] == s)
    && WireReachable(EndsOf(s), c, ms, limit)
  }

  lemma {:induction false} ReachFirst(q: Queues, c: nat, ms: seq<Message>, limit: nat)
    requires Initial(q) && c < |q.channels| && AllValid(ms)
    ensures Reachable(State(q, Inbox(0, [], [], 0, 0, {}), {}), c, ms, limit)
  {
    hide WireReachable;
    var steps: seq<Step> := [];
    var run := [State(q, Inbox(0, [], [], 0, 0, {}), {})];
    WireFirst(q, c, ms, limit);
    assert Run(run, steps, c, ms, limit) && ToldRun(run, steps, c, ms);
  }

  lemma {:induction false} ReachOn(s: State, c: nat, ms: seq<Message>, step: Step, s': State, limit: nat)
    requires Reachable(s, c, ms, limit) && Invariant(s, c, ms) && Next(s, c, ms, step, s', limit) && Told(s, c, ms, step)
    requires WireReachable(EndsOf(s'), c, ms, limit)
    ensures Reachable(s', c, ms, limit) && Invariant(s', c, ms)
  {
    hide Next, Invariant, Told, WireReachable;
    NextInvariant(s, c, ms, step, s', limit);
    var run: seq<State>, steps: seq<Step> :| Run(run, steps, c, ms, limit) && ToldRun(run, steps, c, ms) && run[|steps|] == s;
    var run', steps' := run + [s'], steps + [step];
    forall k | 0 <= k < |steps'|
      ensures Invariant(run'[k], c, ms) ==> Next(run'[k], c, ms, steps'[k], run'[k + 1], limit) && Told(run'[k], c, ms, steps'[k])
    {
      if k < |steps| {
        assert Invariant(run[k], c, ms) ==> Next(run[k], c, ms, steps[k], run[k + 1], limit) && Told(run[k], c, ms, steps[k]);
        assert run'[k] == run[k] && run'[k + 1] == run[k + 1];
      }
    }
    assert Run(run', steps', c, ms, limit) && ToldRun(run', steps', c, ms) && run'[|steps'|] == s';
  }

  /** A step of the sender. */
  lemma {:induction false} ReachSend(s: State, c: nat, ms: seq<Message>, send: SendStep, s': State, limit: nat)
    requires Reachable(s, c, ms, limit) && Invariant(s, c, ms) && Next(s, c, ms, Sender(send), s', limit)
    ensures Reachable(s', c, ms, limit) && Invariant(s', c, ms)
  {
    hide Invariant, SendNext, AddsPiece, HonestAck;
    InvariantChannel(s, c, ms);
    assert WireNext(EndsOf(s), c, ms, Sending(send), EndsOf(s'), limit, Longest(ms));
    WireOn(EndsOf(s), c, ms, Sending(send), EndsOf(s'), limit);
    ReachOn(s, c, ms, Sender(send), s', limit);
  }

  lemma InvariantChannel(s: State, c: nat, ms: seq<Message>)
    requires Invariant(s, c, ms)
    ensures AllValid(ms) && c < |s.q.channels|
  {
  }

  /** A piece less than 7 windows old arrives, and is told from a new packet. */
  lemma {:induction false} ReachArrival(s: State, c: nat, ms: seq<Message>, j: nat, i: nat, acked: bool, s': State, limit: nat)
    requires Reachable(s, c, ms, limit) && Invariant(s, c, ms)
    requires Next(s, c, ms, Arrive(j, i, true, acked), s', limit) && Told(s, c, ms, Arrive(j, i, true, acked))
    requires Young(s.q.channels[c].sent, First(ms, j) + i)
    requires Handling(BoxOf(s.b), Arrivals.Sent(ms, j, i), true, Longest(ms), j) == (true, BoxOf(s'.b))
    ensures Reachable(s', c, ms, limit) && Invariant(s', c, ms)
  {
    hide Invariant, Handling, Suppresses, First;
    InvariantChannel(s, c, ms);
    assert WireNext(EndsOf(s), c, ms, Arrival(j, i, true), EndsOf(s'), limit, Longest(ms));
    WireOn(EndsOf(s), c, ms, Arrival(j, i, true), EndsOf(s'), limit);
    ReachOn(s, c, ms, Arrive(j, i, true, acked), s', limit);
  }

  // ---------- The receiver ----------

  /** Packet `j` with its first `i` pieces. */
  ghost function Begun(ms: seq<Message>, j: nat, i: nat): Incoming
    requires AllValid(ms) && j < |ms| && i < ms[j].Pieces()
  {
    var m := ms[j];
    PieceInside(m, i);
    Incoming(Wire(First(ms, j)), true, m.Pieces(), m.Pieces() - i, seq(m.Pieces(), k => k < i),
             m.data[..m.Offset(i)] + Blank(|m.data| - m.Offset(i)), j)
  }

  /** The receiver with the first `j` packets in order and `i` pieces of the next. */
  ghost function Received(ms: seq<Message>, j: nat, i: nat): Inbox
    requires AllValid(ms) && j <= |ms| && (i > 0 ==> j < |ms| && i < ms[j].Pieces())
  {
    Inbox(Wire(First(ms, j) - 1), if i == 0 then [] else [Begun(ms, j, i)], seq(j, k requires 0 <= k < j => ms[k].data), j, 0,
          set n: nat | n < First(ms, j) + i && Positive(n))
  }

  ghost predicate Positive(n: nat) {
    n > 0
  }

  lemma {:induction false} ClearBelow(n: nat, i: nat)
    ensures Clear(seq(n, k => k < i)) == if i < n then n - i else 0
  {
    if n > 0 {
      var bits := seq(n, k => k < i);
      assert bits[..n - 1] == seq(n - 1, k => k < i);
      ClearBelow(n - 1, i);
    }
  }

  lemma {:induction false} BegunValid(ms: seq<Message>, j: nat, i: nat)
    requires AllValid(ms) && j < |ms| && 0 < i < ms[j].Pieces()
    ensures Received(ms, j, i).EntryValid(Begun(ms, j, i), ms)
  {
    hide Count, Steps;
    var m, e := ms[j], Begun(ms, j, i);
    ManyPieces(m, i);
    ClearBelow(m.Pieces(), i);
    PieceInside(m, i);
    forall k | 0 <= k < |e.fragments| && e.fragments[k] ensures HasPiece(e.data, m, k) {
      PieceInside(m, k);
      PiecesApart(m, k, i);
    }
  }

  lemma ManyPieces(m: Message, i: nat)
    requires m.Valid() && 0 < i < m.Pieces()
    ensures m.Fragmented()
  {
  }

  lemma {:induction false} ReceivedValid(ms: seq<Message>, j: nat, i: nat)
    requires AllValid(ms) && j <= |ms| && (i > 0 ==> j < |ms| && i < ms[j].Pieces())
    ensures Received(ms, j, i).Valid(ms)
  {
    hide First, Count, Assembles;
    var b := Received(ms, j, i);
    if i > 0 {
      BegunValid(ms, j, i);
      FirstMonotone(ms, j, j + 1);
      FirstMonotone(ms, j + 1, |ms|);
    } else {
      FirstMonotone(ms, j, |ms|);
    }
    forall k: nat, l: nat | k < |ms| && l < ms[k].Pieces() ensures First(ms, k) + l in b.accepted <==> b.Has(k, l) {
      if k < j {
        FirstMonotone(ms, k, j);
      } else if j < k {
        FirstMonotone(ms, j, k);
      }
      assert i > 0 ==> b.queue[0].Holds(l) == if k == j then l < i else b.queue[0].Holds(l);
    }
  }

  /** What the receiver has after piece `i` of packet `j`. */
  ghost function ReceivedMore(ms: seq<Message>, j: nat, i: nat): Inbox
    requires AllValid(ms) && j < |ms| && i < ms[j].Pieces()
  {
    if i + 1 < ms[j].Pieces() then Received(ms, j, i + 1) else Received(ms, j + 1, 0)
  }

  lemma {:induction false} PieceArrives(ms: seq<Message>, j: nat, i: nat)
    requires AllValid(ms) && j < |ms| && i < ms[j].Pieces() && EndsNear(ms, j)
    ensures Received(ms, j, i).Valid(ms)
    ensures Arrived(Received(ms, j, i), ms, j, i, ReceivedMore(ms, j, i), true,
                             i < Far(Before(ms, j)) || i + 1 == ms[j].Pieces())
  {
    hide Count, Inbox.Valid, Wire, Far;
    var b, b' := Received(ms, j, i), ReceivedMore(ms, j, i);
    ReceivedValid(ms, j, i);
    var r, n := First(ms, j) - 1, First(ms, j) + i;
    if i + 1 < ms[j].Pieces() {
      ReceivedValid(ms, j, i + 1);
    } else {
      ReceivedValid(ms, j + 1, 0);
    }
    FarWindow(r, i);
    FarWindow(r, ms[j].Pieces());
    WindowMonotone(n, r + ms[j].Pieces());
    NewNumber(r, n);
    NewNumber(n, n);
    assert b'.accepted == b.accepted + {n};
    NextIsNear(r);
  }

  // ---------- The receiver's code ----------

  lemma NextOnWire(r: nat)
    ensures Accepts(Wire(r), Wire(r + 1)) && Wire(r + 1) != Wire(r) && Wire(r + 1) == (Wire(r) + 1) % 0x1_0000
  {
    hide Accepts, Wire, Window;
    NextIsNear(r);
    NewNumber(r, r + 1);
    WireDistinct(r, r + 1);
    NextWire(r + 1);
  }

  /** The code makes that of a piece. */
  lemma {:induction false} CodeTakes(ms: seq<Message>, j: nat, i: nat, size: nat)
    requires AllValid(ms) && j < |ms| && i < ms[j].Pieces() && EndsNear(ms, j) && |ms[j].data| <= size
    ensures Handling(BoxOf(Received(ms, j, i)), Arrivals.Sent(ms, j, i), true, size, j) == (true, BoxOf(ReceivedMore(ms, j, i)))
  {
    hide Count, Steps, HandlingFragment, HandlingSingle;
    OnlyPiece(ms, j, i);
    if !ms[j].Fragmented() {
      CodeTakesSingle(ms, j, size);
    } else if i == 0 {
      CodeTakesFirst(ms, j, size);
    } else {
      CodeTakesMore(ms, j, i, size);
    }
  }

  lemma {:induction false} CodeTakesSingle(ms: seq<Message>, j: nat, size: nat)
    requires AllValid(ms) && j < |ms| && !ms[j].Fragmented() && |ms[j].data| <= size
    ensures ms[j].Pieces() == 1
    ensures HandlingSingle(BoxOf(Received(ms, j, 0)), Arrivals.Sent(ms, j, 0), true, size, j) == (true, BoxOf(Received(ms, j + 1, 0)))
  {
    hide Accepts, Wire;
    var m, r, b := ms[j], First(ms, j) - 1, BoxOf(Received(ms, j, 0));
    NextOnWire(r);
    var e := NewPacket(Wire(r + 1), m.data, 0, j);
    var b1 := b.(queue := [e]);
    assert b.queue[..0] + [e] + b.queue[0..] == [e];
    var b2 := Box(Wire(r + 1), [], b.dispatched + [m.data]);
    assert PutInOrder(b1) == PutInOrder(b2) == b2;
    assert b2.dispatched == Received(ms, j + 1, 0).dispatched;
  }

  lemma {:induction false} CodeTakesFirst(ms: seq<Message>, j: nat, size: nat)
    requires AllValid(ms) && j < |ms| && ms[j].Fragmented() && EndsNear(ms, j) && |ms[j].data| <= size
    ensures 2 <= ms[j].Pieces()
    ensures HandlingFragment(BoxOf(Received(ms, j, 0)), Arrivals.Sent(ms, j, 0), true, size, j) == (true, BoxOf(Received(ms, j, 1)))
  {
    hide Accepts, Wire, Count, First;
    var m, r, b := ms[j], First(ms, j) - 1, BoxOf(Received(ms, j, 0));
    NextOnWire(r);
    PiecesPositive(m);
    PieceInside(m, 0);
    PiecesApart(m, 0, 1);
    var e := NewPacket(Wire(r + 1), Blank(|m.data|), m.Pieces(), j);
    var b1 := b.(queue := [e]);
    assert b.queue[..0] + [e] + b.queue[0..] == [e];
    assert PutInOrder(b1) == b1;
    BegunNext(ms, j, 0, e);
    assert b1.queue[0 := Begun(ms, j, 1)] == [Begun(ms, j, 1)];
  }

  /** A piece makes of a packet begun the packet with one piece more. */
  lemma {:induction false} BegunNext(ms: seq<Message>, j: nat, i: nat, e: Incoming)
    requires AllValid(ms) && j < |ms| && ms[j].Fragmented() && i < ms[j].Pieces()
    requires if i == 0 then e == NewPacket(Wire(First(ms, j)), Blank(|ms[j].data|), ms[j].Pieces(), j) else e == Begun(ms, j, i)
    ensures ms[j].Offset(i) <= |ms[j].data| && Missing(e, i, ms[j].Offset(i), ms[j].Piece(i))
    ensures var e' := Stored(e, i, ms[j].Offset(i), ms[j].Piece(i));
            if i + 1 < ms[j].Pieces() then e' == Begun(ms, j, i + 1)
            else e'.fragmentsRemaining == 0 && e'.data == ms[j].data && e'.sequence == e.sequence && e'.fragmentCount == e.fragmentCount
  {
    hide Count, First, Steps, Wire;
    var m := ms[j];
    PieceInside(m, i);
    LastReaches(m);
    if i + 1 < m.Pieces() {
      PieceInside(m, i + 1);
      OffsetNext(m, i);
    }
    if i == 0 {
      OffsetZero(m);
    }
    assert e.data == m.data[..m.Offset(i)] + Blank(|m.data| - m.Offset(i));
    var e' := Stored(e, i, m.Offset(i), m.Piece(i));
    assert e'.data == m.data[..m.Offset(i) + m.Length(i)] + Blank(|m.data| - m.Offset(i) - m.Length(i));
    assert e'.fragments == seq(m.Pieces(), k => k < i + 1);
  }

  lemma OffsetZero(m: Message)
    ensures m.Offset(0) == 0
  {
  }

  lemma {:induction false} OffsetNext(m: Message, i: nat)
    requires m.Valid() && i + 1 < m.Pieces()
    ensures m.Offset(i) <= |m.data| && m.Offset(i) + m.Length(i) == m.Offset(i + 1)
  {
    PiecesApart(m, i, i + 1);
  }

  lemma {:induction false} CodeTakesMore(ms: seq<Message>, j: nat, i: nat, size: nat)
    requires AllValid(ms) && j < |ms| && ms[j].Fragmented() && EndsNear(ms, j) && |ms[j].data| <= size && 0 < i < ms[j].Pieces()
    ensures HandlingFragment(BoxOf(Received(ms, j, i)), Arrivals.Sent(ms, j, i), true, size, j) == (true, BoxOf(ReceivedMore(ms, j, i)))
  {
    hide Accepts, Wire, Count, Steps;
    var m, r, b := ms[j], First(ms, j) - 1, BoxOf(Received(ms, j, i));
    NextOnWire(r);
    PieceInside(m, i);
    var e := Begun(ms, j, i);
    BegunNext(ms, j, i, e);
    var e' := Stored(e, i, m.Offset(i), m.Piece(i));
    var b1 := b.(queue := [e']);
    assert b.queue[0 := e'] == [e'];
    assert Search(b.incomingReliable, b.queue, Wire(r + 1)) == (1, true);
    if i + 1 == m.Pieces() {
      WirePlus(r + 1, m.Pieces() - 1);
      var b2 := Box(Wire(r + m.Pieces()), [], b.dispatched + [m.data]);
      assert b1.queue[1..] == [];
      assert PutInOrder(b1) == PutInOrder(b2) == b2;
      assert b2.dispatched == Received(ms, j + 1, 0).dispatched;
    }
  }

  /** And ignores a piece of the packet put in order last. */
  lemma {:induction false} CodeIgnores(ms: seq<Message>, j: nat, i: nat, size: nat)
    requires AllValid(ms) && j < |ms| && 0 < i < ms[j].Pieces() && EndsNear(ms, j)
    ensures Handling(BoxOf(Received(ms, j + 1, 0)), Arrivals.Sent(ms, j, i), true, size, j) == (true, BoxOf(Received(ms, j + 1, 0)))
  {
    hide Accepts, Wire, Count, Steps, Far;
    ManyPieces(ms[j], i);
    OnlyPiece(ms, j, i);
    var n, last := First(ms, j), First(ms, j + 1) - 1;
    FarWindow(n - 1, ms[j].Pieces());
    WindowMonotone(n - 1, n);
    SpanDistance(n, last);
    OldNumber(last, n);
  }

  lemma NextIsNear(r: nat)
    ensures Window(r + 1) <= Window(r) + 1
  {
  }

  // ---------- The sender ----------

  /** A command in flight with piece `i` of packet `j`. */
  ghost predicate Carries(x: Command, c: nat, ms: seq<Message>, j: nat, i: nat)
    requires AllValid(ms)
  {
    && x.reliable && x.channel == c && x.hasPacket && PieceAt(ms, j, i, x.number) && x.sequence == Wire(x.number)
    && ms[j].Offset(i) <= |ms[j].data| && x.length == ms[j].Length(i)
  }

  /** The pieces `a` to `b` of packet `j`, each sent once. */
  ghost predicate Flight(s: seq<Command>, c: nat, ms: seq<Message>, j: nat, a: nat, b: nat)
    requires AllValid(ms)
  {
    a <= b == a + |s| && forall k | 0 <= k < |s| :: Carries(s[k], c, ms, j, a + k) && s[k].attempts == 1
  }

  /** All numbers up to `n` have been given out and sent. */
  ghost predicate AtNumber(q: Queues, c: nat, n: nat) {
    c < |q.channels| && q.outgoing == [] && q.channels[c].numbered == q.channels[c].sent == n
  }

  ghost function NewCommand(c: nat, ms: seq<Message>, j: nat, i: nat): Command
    requires AllValid(ms) && j < |ms| && i < ms[j].Pieces()
  {
    PieceInside(ms[j], i);
    Command(true, false, c, 0, true, ms[j].Offset(i), ms[j].Length(i), Wire(First(ms, j) + i), 0, 0, 0, 0, 0, First(ms, j) + i)
  }

  lemma {:induction false} NewCommandSized(c: nat, ms: seq<Message>, j: nat, i: nat)
    requires AllValid(ms) && j < |ms| && i < ms[j].Pieces()
    ensures Sized(ms, NewCommand(c, ms, j, i)) && Carries(NewCommand(c, ms, j, i), c, ms, j, i)
  {
    hide First, Count, Steps;
    var x := NewCommand(c, ms, j, i);
    PieceInside(ms[j], i);
    forall k: nat, l: nat | PieceAt(ms, k, l, x.number) ensures k == j && l == i {
      NumberUnique(ms, k, l, j, i);
    }
  }

  /** With nothing outstanding no window is full or in use. */
  lemma {:induction false} NothingWraps(q: Queues, x: Command)
    requires q.Valid() && q.Shaped() && q.sentReliable == [] && q.outgoing == [x] && x.attempts == 0 && x.channel < |q.channels|
    ensures !WindowWraps(q.channels[x.channel], x)
  {
    hide Masked;
    var c := x.channel;
    assert q.ChannelValid(c);
    forall w | 0 <= w < WINDOWS ensures q.channels[c].reliableWindows[w] == 0 && !q.channels[c].usedWindows[w] {
      assert q.WindowCounted(c, w);
      SumZero(q.outgoing, InWindow(c, w));
    }
  }

  lemma {:induction false} FlightBytes(s: seq<Command>, c: nat, ms: seq<Message>, j: nat, a: nat, b: nat)
    requires AllValid(ms) && j < |ms| && Flight(s, c, ms, j, a, b) && b < ms[j].Pieces()
    ensures Sum(s, Bytes()) + ms[j].Offset(a) == ms[j].Offset(b)
  {
    if a < b {
      var x, rest := s[|s| - 1], s[..|s| - 1];
      assert s == rest + [x] && Carries(x, c, ms, j, a + (|s| - 1));
      FlightBytes(rest, c, ms, j, a, b - 1);
      SumAppend(rest, x, Bytes());
      PiecesApart(ms[j], b - 1, b);
    }
  }

  /** The piece after those in flight is the first of no window, and may be in transit with them. */
  lemma {:induction false} PieceMayGo(ms: seq<Message>, j: nat, i: nat, s: seq<Command>, c: nat, limit: nat)
    requires AllValid(ms) && j < |ms| && i < ms[j].Pieces() && Fits(Before(ms, j), ms[j], limit)
    requires Flight(s, c, ms, j, Far(Before(ms, j)), Max(i, Far(Before(ms, j))))
    ensures ms[j].Offset(i) <= |ms[j].data| && Sum(s, Bytes()) + ms[j].Length(i) <= limit
    ensures s != [] ==> Wire(First(ms, j) + i) % WINDOW_SIZE != 0
  {
    hide First, Count;
    var m, far := ms[j], Far(Before(ms, j));
    PieceInside(m, i);
    if s == [] {
      PieceInside(m, 0);
    } else {
      FlightBytes(s, c, ms, j, far, i);
      WireRemainder(First(ms, j) - 1);
      WireRemainder(First(ms, j) + i);
      InsideWindow(First(ms, j) - 1, i);
    }
  }

  function Max(a: nat, b: nat): nat {
    if a < b then b else a
  }

  lemma InsideWindow(r: nat, i: nat)
    requires (FREE_WINDOWS - 1) * WINDOW_SIZE <= r % WINDOW_SIZE + i < FREE_WINDOWS * WINDOW_SIZE - 1
    ensures (r + 1 + i) % WINDOW_SIZE == r % WINDOW_SIZE + i + 1 - (FREE_WINDOWS - 1) * WINDOW_SIZE
  {
  }

  // ---------- One piece ----------

  /** Pieces before `i` of packet `j` have arrived; those in the seventh window are in flight. */
  ghost predicate Partway(s: State, c: nat, ms: seq<Message>, j: nat, i: nat, limit: nat) {
    && AllValid(ms) && j < |ms| && i < ms[j].Pieces() && Reachable(s, c, ms, limit) && Invariant(s, c, ms)
    && Fits(Before(ms, j), ms[j], limit)
    && AtNumber(s.q, c, First(ms, j) + i - 1) && s.b == Received(ms, j, i)
    && Flight(s.q.sentReliable, c, ms, j, Far(Before(ms, j)), Max(i, Far(Before(ms, j))))
  }

  lemma {:induction false} AddPiece(s: State, c: nat, ms: seq<Message>, j: nat, i: nat, limit: nat) returns (s1: State)
    requires AllValid(ms) && j < |ms| && i < ms[j].Pieces() && Reachable(s, c, ms, limit) && Invariant(s, c, ms)
    requires AtNumber(s.q, c, First(ms, j) + i - 1)
    ensures Reachable(s1, c, ms, limit) && Invariant(s1, c, ms)
    ensures s1 == s.(q := Numbering(s.q, c).Add(NewCommand(c, ms, j, i)))
  {
    hide First, Count, Steps, Sum, UnsentNumbers, Reachable, Queues.ChannelValid, Inbox.Valid, Waits;
    var x := NewCommand(c, ms, j, i);
    s1 := s.(q := Numbering(s.q, c).Add(x));
    NewCommandSized(c, ms, j, i);
    FirstMonotone(ms, j, |ms|);
    ValidShaped(s.q);
    ReachSend(s, c, ms, Add(x, Numbering(s.q, c)), s1, limit);
  }

  /** The command just queued goes out, if its window may be opened and its bytes may be in transit. */
  lemma {:induction false} SendAdded(s: State, s1: State, c: nat, ms: seq<Message>, j: nat, i: nat, limit: nat) returns (s2: State)
    requires AllValid(ms) && j < |ms| && i < ms[j].Pieces() && AtNumber(s.q, c, First(ms, j) + i - 1) && s.q.Valid()
    requires Reachable(s1, c, ms, limit) && Invariant(s1, c, ms)
    requires s1 == s.(q := Numbering(s.q, c).Add(NewCommand(c, ms, j, i)))
    requires s1.q.Shaped() && !WindowWraps(s1.q.channels[c], NewCommand(c, ms, j, i))
    requires ms[j].Offset(i) <= |ms[j].data| && Sum(s.q.sentReliable, Bytes()) + ms[j].Length(i) <= limit
    ensures Reachable(s2, c, ms, limit) && Invariant(s2, c, ms)
    ensures AtNumber(s2.q, c, First(ms, j) + i) && s2.b == s.b && s2.acks == s.acks
    ensures s2.q.sentReliable == s.q.sentReliable + [NewCommand(c, ms, j, i).(attempts := 1)]
  {
    hide First, Count, Steps, Sum, UnsentNumbers, Reachable, Queues.ChannelValid, Inbox.Valid, Waits, WindowWraps, Window;
    var x := NewCommand(c, ms, j, i);
    var y := x.(attempts := 1);
    var q1 := s1.q;
    assert q1.outgoing == [x] && q1.sentReliable == s.q.sentReliable;
    s2 := s1.(q := SendSteps.Sent(q1, 0, y));
    ReachSend(s1, c, ms, SendStep.Send(0, y), s2, limit);
  }

  lemma {:induction false} SendPiece(s: State, s1: State, c: nat, ms: seq<Message>, j: nat, i: nat, limit: nat) returns (s2: State)
    requires Partway(s, c, ms, j, i, limit) && Reachable(s1, c, ms, limit) && Invariant(s1, c, ms)
    requires s1 == s.(q := Numbering(s.q, c).Add(NewCommand(c, ms, j, i)))
    ensures Reachable(s2, c, ms, limit) && Invariant(s2, c, ms)
    ensures AtNumber(s2.q, c, First(ms, j) + i) && s2.b == s.b && s2.acks == s.acks
    ensures s2.q.sentReliable == s.q.sentReliable + [NewCommand(c, ms, j, i).(attempts := 1)]
  {
    hide First, Count, Steps, Sum, UnsentNumbers, Reachable, Queues.ChannelValid, Inbox.Valid, Waits, Fits, WindowWraps, Window;
    var x := NewCommand(c, ms, j, i);
    var q1 := s1.q;
    assert q1.outgoing == [x] && q1.sentReliable == s.q.sentReliable;
    PieceMayGo(ms, j, i, s.q.sentReliable, c, limit);
    ValidShaped(q1);
    if q1.sentReliable == [] {
      NothingWraps(q1, x);
    } else {
      NoneBegins(q1.channels[c], x);
    }
    s2 := SendAdded(s, s1, c, ms, j, i, limit);
  }

  lemma NoneBegins(ch: Channel, x: Command)
    requires |ch.reliableWindows| == |ch.usedWindows| == WINDOWS && x.sequence % WINDOW_SIZE != 0
    ensures !WindowWraps(ch, x)
  {
  }

  /** The piece arrives. */
  lemma {:induction false} TakePiece(s2: State, c: nat, ms: seq<Message>, j: nat, i: nat, limit: nat) returns (s3: State)
    requires AllValid(ms) && j < |ms| && i < ms[j].Pieces() && EndsNear(ms, j)
    requires Reachable(s2, c, ms, limit) && Invariant(s2, c, ms)
    requires AtNumber(s2.q, c, First(ms, j) + i) && s2.b == Received(ms, j, i)
    ensures Reachable(s3, c, ms, limit) && Invariant(s3, c, ms)
    ensures s3.q == s2.q && s3.b == ReceivedMore(ms, j, i)
    ensures i < Far(Before(ms, j)) || i + 1 == ms[j].Pieces() ==> First(ms, j) + i in s3.acks
  {
    hide First, Count, Steps, Reachable, Queues.Valid, Inbox.Valid, Waits, Arrived, EndsNear, Far;
    var acked, n := i < Far(Before(ms, j)) || i + 1 == ms[j].Pieces(), First(ms, j) + i;
    PieceArrives(ms, j, i);
    s3 := State(s2.q, ReceivedMore(ms, j, i), if acked then s2.acks + {n} else s2.acks);
    WithinLongest(ms, j);
    CodeTakes(ms, j, i, Longest(ms));
    ReachArrival(s2, c, ms, j, i, acked, s3, limit);
  }

  /** The acknowledgement for the last command in flight comes. */
  lemma {:induction false} AckLast(s3: State, c: nat, ms: seq<Message>, j: nat, i: nat, limit: nat) returns (s4: State)
    requires AllValid(ms) && Reachable(s3, c, ms, limit) && Invariant(s3, c, ms) && c < |s3.q.channels|
    requires var t := s3.q.sentReliable; t != [] && Carries(t[|t| - 1], c, ms, j, i) && t[|t| - 1].attempts > 0
    requires First(ms, j) + i in s3.acks && s3.q.channels[c].sent < First(ms, j) + i + 0x1_0000
    ensures Reachable(s4, c, ms, limit) && Invariant(s4, c, ms)
    ensures s4.b == s3.b && c < |s4.q.channels|
    ensures s4.q.outgoing == s3.q.outgoing && s4.q.sentReliable == s3.q.sentReliable[..|s3.q.sentReliable| - 1]
    ensures s4.q.channels[c].numbered == s3.q.channels[c].numbered && s4.q.channels[c].sent == s3.q.channels[c].sent
  {
    hide First, Count, Steps, Sum, UnsentNumbers, Reachable, Queues.Valid, Inbox.Valid, Waits;
    var at, n := |s3.q.sentReliable| - 1, First(ms, j) + i;
    AckIsReady(s3.q, at, true);
    var q' := Acknowledged(s3.q, at, true);
    assert q'.sentReliable == s3.q.sentReliable[..at];
    s4 := s3.(q := q');
    NumberedSame(s3, c, ms, q', at);
    ReachSend(s3, c, ms, Acknowledge(c, n, at, true), s4, limit);
  }

  lemma {:induction false} NumberedSame(s: State, c: nat, ms: seq<Message>, q': Queues, at: nat)
    requires Invariant(s, c, ms) && AckReady(s.q, at, true) && q' == Acknowledged(s.q, at, true)
    ensures |q'.channels| == |s.q.channels| && q'.channels[c].numbered == s.q.channels[c].numbered <= Total(ms)
    ensures q'.channels[c].sent == s.q.channels[c].sent
  {
    hide First, Sum, UnsentNumbers, Queues.Valid, Inbox.Valid, Waits;
  }

  lemma {:induction false} PartwayFits(s: State, c: nat, ms: seq<Message>, j: nat, i: nat, limit: nat)
    requires Partway(s, c, ms, j, i, limit)
    ensures EndsNear(ms, j)
  {
  }

  /** Piece `i` goes out, arrives, and is acknowledged unless it lies in the seventh window with more to come. */
  lemma {:induction false} OnePiece(s: State, c: nat, ms: seq<Message>, j: nat, i: nat, limit: nat) returns (s': State)
    requires Partway(s, c, ms, j, i, limit)
    ensures Reachable(s', c, ms, limit) && Invariant(s', c, ms)
    ensures AtNumber(s'.q, c, First(ms, j) + i) && s'.b == ReceivedMore(ms, j, i)
    ensures s'.q.sentReliable == if i < Far(Before(ms, j)) || i + 1 == ms[j].Pieces() then s.q.sentReliable
                                 else s.q.sentReliable + [NewCommand(c, ms, j, i).(attempts := 1)]
  {
    hide First, Count, Steps, Reachable, Invariant, Fits, Carries, Far, Received, ReceivedMore, EndsNear, NewCommand;
    var s1 := AddPiece(s, c, ms, j, i, limit);
    var s2 := SendPiece(s, s1, c, ms, j, i, limit);
    PartwayFits(s, c, ms, j, i, limit);
    s' := TakePiece(s2, c, ms, j, i, limit);
    if i < Far(Before(ms, j)) || i + 1 == ms[j].Pieces() {
      NewCommandSized(c, ms, j, i);
      SentCarries(c, ms, j, i);
      s' := AckLast(s', c, ms, j, i, limit);
      assert s'.q.sentReliable == s.q.sentReliable;
    }
  }

  lemma SentCarries(c: nat, ms: seq<Message>, j: nat, i: nat)
    requires AllValid(ms) && j < |ms| && i < ms[j].Pieces() && Carries(NewCommand(c, ms, j, i), c, ms, j, i)
    ensures Carries(NewCommand(c, ms, j, i).(attempts := 1), c, ms, j, i)
  {
  }

  lemma {:induction false} FlightGrows(s: seq<Command>, c: nat, ms: seq<Message>, j: nat, a: nat, i: nat, x: Command)
    requires AllValid(ms) && Flight(s, c, ms, j, a, i) && Carries(x, c, ms, j, i) && x.attempts == 1
    ensures Flight(s + [x], c, ms, j, a, i + 1)
  {
    hide Carries;
  }

  lemma {:induction false} NextPiece(s: State, c: nat, ms: seq<Message>, j: nat, i: nat, limit: nat) returns (s': State)
    requires Partway(s, c, ms, j, i, limit) && i + 1 < ms[j].Pieces()
    ensures Partway(s', c, ms, j, i + 1, limit)
  {
    hide First, Count, Steps, Reachable, Invariant, Fits, Carries, Far, Received, NewCommand;
    s' := OnePiece(s, c, ms, j, i, limit);
    var far := Far(Before(ms, j));
    if far <= i {
      NewCommandSized(c, ms, j, i);
      SentCarries(c, ms, j, i);
      FlightGrows(s.q.sentReliable, c, ms, j, far, i, NewCommand(c, ms, j, i).(attempts := 1));
    }
  }

  // ---------- One packet ----------

  /** Packet `j` is in order; of its pieces, those up to `t` that lie in the seventh window are still in flight. */
  ghost predicate Draining(s: State, c: nat, ms: seq<Message>, j: nat, t: nat, limit: nat) {
    && AllValid(ms) && j < |ms| && Reachable(s, c, ms, limit) && Invariant(s, c, ms) && EndsNear(ms, j)
    && AtNumber(s.q, c, First(ms, j + 1) - 1) && s.b == Received(ms, j + 1, 0)
    && t <= Max(ms[j].Pieces(), Far(Before(ms, j))) && Flight(s.q.sentReliable, c, ms, j, Far(Before(ms, j)), t)
  }

  lemma {:induction false} LastPiece(s: State, c: nat, ms: seq<Message>, j: nat, i: nat, limit: nat) returns (s': State)
    requires Partway(s, c, ms, j, i, limit) && i + 1 == ms[j].Pieces()
    ensures Draining(s', c, ms, j, Max(i, Far(Before(ms, j))), limit)
  {
    hide Count, Steps, Reachable, Invariant, Fits, Carries, Far, Received, NewCommand, EndsNear;
    s' := OnePiece(s, c, ms, j, i, limit);
    PartwayFits(s, c, ms, j, i, limit);
  }

  lemma {:induction false} UpToLast(s: State, c: nat, ms: seq<Message>, j: nat, i: nat, limit: nat) returns (s': State)
    requires Partway(s, c, ms, j, i, limit)
    ensures Partway(s', c, ms, j, ms[j].Pieces() - 1, limit)
    decreases |ms[j].data| + ms[j].Pieces() - i
  {
    hide Count, Steps, Reachable, Invariant, Fits, Flight, Far, Received;
    if i + 1 == ms[j].Pieces() {
      s' := s;
    } else {
      s' := NextPiece(s, c, ms, j, i, limit);
      s' := UpToLast(s', c, ms, j, i + 1, limit);
    }
  }

  /** A piece that arrives again now is acknowledged. */
  lemma {:induction false} AgainAcked(s: State, c: nat, ms: seq<Message>, j: nat, i: nat, limit: nat) returns (s': State)
    requires AllValid(ms) && j < |ms| && Reachable(s, c, ms, limit) && Invariant(s, c, ms) && EndsNear(ms, j)
    requires AtNumber(s.q, c, First(ms, j + 1) - 1) && s.b == Received(ms, j + 1, 0)
    requires Far(Before(ms, j)) <= i < ms[j].Pieces()
    ensures Reachable(s', c, ms, limit) && Invariant(s', c, ms)
    ensures s'.q == s.q && s'.b == s.b && First(ms, j) + i in s'.acks
  {
    hide Count, Steps, Reachable, Queues.Valid, Inbox.Valid, Waits, Suppresses, Wire, Far;
    var n, last := First(ms, j) + i, First(ms, j + 1) - 1;
    ReceivedValid(ms, j + 1, 0);
    FarWindow(First(ms, j) - 1, i);
    FarWindow(First(ms, j) - 1, ms[j].Pieces());
    WindowMonotone(n, last);
    WindowMonotone(First(ms, j) - 1, First(ms, j));
    SameWindowAcked(last, n);
    s' := s.(acks := s.acks + {n});
    CodeIgnores(ms, j, i, Longest(ms));
    ReachArrival(s, c, ms, j, i, true, s', limit);
  }

  lemma SameWindowAcked(r: nat, n: nat)
    requires n <= r && Window(n) == Window(r)
    ensures !Suppresses(Wire(r), Wire(n))
  {
    WireWindow(r);
    WireWindow(n);
  }

  lemma {:induction false} DrainOne(s: State, c: nat, ms: seq<Message>, j: nat, t: nat, limit: nat) returns (s': State)
    requires Draining(s, c, ms, j, t, limit) && t > Far(Before(ms, j))
    ensures Draining(s', c, ms, j, t - 1, limit)
  {
    hide Count, Steps, Reachable, Invariant, EndsNear, Carries, Far, Received;
    var sent := s.q.sentReliable;
    assert Carries(sent[|sent| - 1], c, ms, j, t - 1);
    CarriesPiece(sent[|sent| - 1], c, ms, j, t - 1);
    s' := AgainAcked(s, c, ms, j, t - 1, limit);
    NumbersClose(ms, j, t - 1);
    s' := AckLast(s', c, ms, j, t - 1, limit);
  }

  lemma CarriesPiece(x: Command, c: nat, ms: seq<Message>, j: nat, i: nat)
    requires AllValid(ms) && j < |ms| && Carries(x, c, ms, j, i)
    ensures i < ms[j].Pieces()
  {
  }

  lemma {:induction false} NumbersClose(ms: seq<Message>, j: nat, i: nat)
    requires AllValid(ms) && j < |ms| && i < ms[j].Pieces() && EndsNear(ms, j)
    ensures First(ms, j + 1) - 1 < First(ms, j) + i + 0x1_0000
  {
  }

  /** The first `j` packets are in order, and nothing is in flight. */
  ghost predicate InStep(s: State, c: nat, ms: seq<Message>, j: nat, limit: nat) {
    && AllValid(ms) && j <= |ms| && Reachable(s, c, ms, limit) && Invariant(s, c, ms)
    && AtNumber(s.q, c, First(ms, j) - 1) && s.b == Received(ms, j, 0) && s.q.sentReliable == []
  }

  lemma {:induction false} Drained(s: State, c: nat, ms: seq<Message>, j: nat, t: nat, limit: nat) returns (s': State)
    requires Draining(s, c, ms, j, t, limit)
    ensures InStep(s', c, ms, j + 1, limit)
    decreases t
  {
    hide Count, Steps, Reachable, Invariant, EndsNear, Carries, Received;
    if t > Far(Before(ms, j)) {
      s' := DrainOne(s, c, ms, j, t, limit);
      s' := Drained(s', c, ms, j, t - 1, limit);
    } else {
      s' := s;
    }
  }

  lemma {:induction false} OnePacket(s: State, c: nat, ms: seq<Message>, j: nat, limit: nat) returns (s': State)
    requires InStep(s, c, ms, j, limit) && j < |ms| && Fits(Before(ms, j), ms[j], limit)
    ensures InStep(s', c, ms, j + 1, limit)
  {
    hide Count, Steps, Reachable, Invariant, EndsNear, Carries, Received, Fits, Draining;
    PiecesPositive(ms[j]);
    var last := ms[j].Pieces() - 1;
    var t := Max(last, Far(Before(ms, j)));
    s' := UpToLast(s, c, ms, j, 0, limit);
    s' := LastPiece(s', c, ms, j, last, limit);
    s' := Drained(s', c, ms, j, t, limit);
  }

  // ---------- Which packets can be delivered ----------

  lemma {:induction false} Packets(c: nat, ms: seq<Message>, j: nat, limit: nat) returns (s: State)
    requires AllValid(ms) && j <= |ms| && forall i | 0 <= i < j :: Fits(Before(ms, i), ms[i], limit)
    ensures InStep(s, c, ms, j, limit)
  {
    hide InStep, Fits, Before;
    if j == 0 {
      s := Fresh(c, ms, limit);
    } else {
      s := Packets(c, ms, j - 1, limit);
      s := OnePacket(s, c, ms, j - 1, limit);
    }
  }

  lemma {:induction false} Fresh(c: nat, ms: seq<Message>, limit: nat) returns (s: State)
    requires AllValid(ms)
    ensures InStep(s, c, ms, 0, limit)
  {
    hide Reachable, Invariant;
    var ch := Channel(0, 0, seq(WINDOWS, i => 0), seq(WINDOWS, i => false), 0, 0);
    var q := Queues(seq(c + 1, i => ch), [], [], 0);
    s := State(q, Inbox(0, [], [], 0, 0, {}), {});
    ReachFirst(q, c, ms, limit);
    InitialInvariant(q, c, ms);
    assert Received(ms, 0, 0) == s.b;
  }

  /** Some run puts packet `j` in order. */
  ghost predicate Deliverable(c: nat, ms: seq<Message>, j: nat, limit: nat) {
    exists run: seq<State>, steps: seq<Step> :: Run(run, steps, c, ms, limit) && ToldRun(run, steps, c, ms) && run[|steps|].b.done > j
  }

  /**
   A packet can be put in order if and only if it and every packet before it fits: what the sender can tell from
   the channel's last number, the length of the packet and how much may be in transit.
   */
  lemma {:induction false} DeliverableExactly(c: nat, ms: seq<Message>, j: nat, limit: nat)
    requires AllValid(ms) && j < |ms|
    ensures Deliverable(c, ms, j, limit) <==> forall i | 0 <= i <= j :: Fits(Before(ms, i), ms[i], limit)
  {
    hide Fits, Before, Invariant, Next;
    if forall i | 0 <= i <= j :: Fits(Before(ms, i), ms[i], limit) {
      var s := Packets(c, ms, j + 1, limit);
      var run: seq<State>, steps: seq<Step> :| Run(run, steps, c, ms, limit) && ToldRun(run, steps, c, ms) && run[|steps|] == s;
      assert run[|steps|].b.done > j;
    }
    if Deliverable(c, ms, j, limit) {
      var run: seq<State>, steps: seq<Step> :| Run(run, steps, c, ms, limit) && ToldRun(run, steps, c, ms) && run[|steps|].b.done > j;
      forall i | 0 <= i <= j ensures Fits(Before(ms, i), ms[i], limit) {
        if !Fits(Before(ms, i), ms[i], limit) {
          NeverInOrder(run, steps, c, ms, limit, |steps|, i);
        }
      }
    }
  }
}
