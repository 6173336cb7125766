/**
 When a reliable ENet channel takes a packet that it has put in order already for a new one. The receiver judges a
 piece by the first number of its packet; the sender keeps apart what is outstanding by the numbers of the pieces.
 */
module OldPieces {
  import opened Machine
  import opened SequenceWindows
  import opened SendQueue
  import opened SendState
  import opened Messages
  import opened Inbox
  import opened SendSteps
  import opened ReliableChannel
  import opened LongPackets
  import opened DeliveryRuns
  import Sending

  /** Of packet `m`, handed to a channel whose last number is `last`: it reaches four windows past its first number. */
  predicate ReachesFar(last: uint16, m: Message) {
    (last + 1) % WINDOW_SIZE + m.Pieces() - 1 >= 4 * WINDOW_SIZE
  }

  lemma {:induction false} NarrowByWire(ms: seq<Message>, j: nat)
    requires AllValid(ms) && j < |ms|
    ensures Narrow(ms, j) <==> !ReachesFar(Before(ms, j), ms[j])
  {
    hide Count;
    var n, p := First(ms, j), ms[j].Pieces();
    PiecesPositive(ms[j]);
    WireRemainder(n - 1);
    NextRemainder(Wire(n - 1), n - 1);
    WindowsOn(n, p - 1);
  }

  lemma NextRemainder(a: nat, b: nat)
    requires a % WINDOW_SIZE == b % WINDOW_SIZE
    ensures (a + 1) % WINDOW_SIZE == (b + 1) % WINDOW_SIZE
  {
  }

  lemma WindowsOn(n: nat, k: nat)
    ensures Window(n + k) >= Window(n) + 4 <==> n % WINDOW_SIZE + k >= 4 * WINDOW_SIZE
  {
  }

  /** Packets of up to 12289 pieces never do. */
  lemma {:induction false} ShortNever(last: uint16, m: Message)
    requires m.Pieces() <= 3 * WINDOW_SIZE + 1
    ensures !ReachesFar(last, m)
  {
  }

  /** With the defaults for the transmission unit and the size of packets, the longest always do. */
  lemma {:induction false} DefaultsReachFar(last: uint16, m: Message, checksum: bool)
    requires m.limit == Sending.PieceLimit(DEFAULT_MTU, checksum) && |m.data| == DEFAULT_MAXIMUM_PACKET_SIZE
    ensures ReachesFar(last, m)
  {
    hide Count;
    CountQuotient(|m.data|, m.limit);
  }

  // ---------- Taken for new ----------

  /**
   Piece `i` of packet `j`, which is in order already, still waits to be acknowledged, so the sender will send it
   again; it is less than 7 windows old; and its packet passes for a new one.
   */
  ghost predicate Mistaken(s: State, c: nat, ms: seq<Message>, j: nat, i: nat)
    requires Invariant(s, c, ms) && j < |ms|
  {
    && j < s.b.done && i < ms[j].Pieces() && Waits(s.q, c, First(ms, j) + i)
    && Young(s.q.channels[c].sent, First(ms, j) + i)
    && Accepts(s.b.incomingReliable, Wire(First(ms, j))) && Wire(First(ms, j)) != s.b.incomingReliable
  }

  /** A narrow packet never is. */
  lemma {:induction false} NarrowNever(s: State, c: nat, ms: seq<Message>, j: nat, i: nat)
    requires Invariant(s, c, ms) && j < |ms| && Narrow(ms, j)
    ensures !Mistaken(s, c, ms, j, i)
  {
    hide First, Queues.Valid, Waits, Accepts;
    if Mistaken(s, c, ms, j, i) {
      var r, n := s.b.Last(ms), First(ms, j);
      PieceBefore(ms, j, i);
      WindowMonotone(n + i, First(ms, j + 1) - 1);
      FirstMonotone(ms, j, s.b.done);
      PiecesPositive(ms[j]);
      LagBounded(s, c, ms);
      WindowMonotone(r, s.q.channels[c].sent);
      SpanDistance(n, r);
      if n < r {
        OldNumber(r, n);
      }
    }
  }

  // ---------- A run that comes to it ----------

  /** The first `k` packets are in order; of all their pieces only piece `i` of packet `j` is unacknowledged. */
  ghost predicate Kept(s: State, c: nat, ms: seq<Message>, j: nat, i: nat, k: nat, limit: nat) {
    && AllValid(ms) && j < k <= |ms| && Reachable(s, c, ms, limit) && Invariant(s, c, ms)
    && AtNumber(s.q, c, First(ms, k) - 1) && s.b == Received(ms, k, 0)
    && |s.q.sentReliable| == 1 && Carries(s.q.sentReliable[0], c, ms, j, i) && s.q.sentReliable[0].attempts == 1
  }

  /** The last piece, when none before it is in flight, arrives, but its acknowledgement does not. */
  lemma {:induction false} KeepLast(s: State, c: nat, ms: seq<Message>, j: nat, i: nat, limit: nat) returns (s': State)
    requires Partway(s, c, ms, j, i, limit) && i + 1 == ms[j].Pieces() && i <= Far(Before(ms, j))
    ensures Kept(s', c, ms, j, i, j + 1, limit)
  {
    hide Count, Steps, Reachable, Invariant, Fits, Carries, Far, Received, EndsNear, NewCommand;
    var s1 := AddPiece(s, c, ms, j, i, limit);
    var s2 := SendPiece(s, s1, c, ms, j, i, limit);
    PartwayFits(s, c, ms, j, i, limit);
    s' := TakePiece(s2, c, ms, j, i, limit);
    NewCommandSized(c, ms, j, i);
    SentCarries(c, ms, j, i);
    assert s.q.sentReliable == [];
  }

  /** Of the pieces in flight all but the first are acknowledged. */
  lemma {:induction false} KeepFirst(s: State, c: nat, ms: seq<Message>, j: nat, t: nat, limit: nat) returns (s': State)
    requires Draining(s, c, ms, j, t, limit) && t > Far(Before(ms, j))
    ensures Kept(s', c, ms, j, Far(Before(ms, j)), j + 1, limit)
    decreases t
  {
    hide Count, Steps, Reachable, Invariant, EndsNear, Carries, Received;
    if t > Far(Before(ms, j)) + 1 {
      s' := DrainOne(s, c, ms, j, t, limit);
      s' := KeepFirst(s', c, ms, j, t - 1, limit);
    } else {
      s' := s;
      assert Carries(s.q.sentReliable[0], c, ms, j, Far(Before(ms, j)) + 0);
    }
  }

  /** Packet `j` is in order, and one piece in its last window unacknowledged. */
  lemma {:induction false} KeepOne(s: State, c: nat, ms: seq<Message>, j: nat, limit: nat) returns (s': State, i: nat)
    requires InStep(s, c, ms, j, limit) && j < |ms| && Fits(Before(ms, j), ms[j], limit)
    ensures Kept(s', c, ms, j, i, j + 1, limit) && i < ms[j].Pieces()
    ensures Window(First(ms, j) + i) == Window(First(ms, j + 1) - 1)
  {
    hide Count, Steps, Reachable, Invariant, EndsNear, Carries, Received, Draining, Kept;
    PiecesPositive(ms[j]);
    var far, last := Far(Before(ms, j)), ms[j].Pieces() - 1;
    FitsPartway(s, c, ms, j, limit);
    s' := UpToLast(s, c, ms, j, 0, limit);
    if far < last {
      s' := LastPiece(s', c, ms, j, last, limit);
      s' := KeepFirst(s', c, ms, j, last, limit);
      i := far;
      InSeventh(First(ms, j) - 1, far, last);
    } else {
      s' := KeepLast(s', c, ms, j, last, limit);
      i := last;
    }
  }

  lemma {:induction false} FitsPartway(s: State, c: nat, ms: seq<Message>, j: nat, limit: nat)
    requires InStep(s, c, ms, j, limit) && j < |ms| && Fits(Before(ms, j), ms[j], limit)
    ensures Partway(s, c, ms, j, 0, limit)
  {
    hide Count, Steps, Reachable, Invariant, Carries, Received, Fits;
    PiecesPositive(ms[j]);
  }

  lemma InSeventh(r: nat, far: nat, last: nat)
    requires far == Far(Wire(r)) < last && Wire(r) % WINDOW_SIZE + last + 1 < FREE_WINDOWS * WINDOW_SIZE
    ensures Window(r + 1 + far) == Window(r + 1 + last)
  {
    FarWindow(r, far);
    FarWindow(r, last + 1);
    WindowMonotone(r + 1 + far, r + 1 + last);
  }

  /** A packet without data: it may be in transit whatever else is. */
  function Empty(): (m: Message)
    ensures m.Valid() && m.Pieces() == 1 && m.Length(0) == 0
  {
    Message([], 1)
  }

  /** One command outstanding, one to six windows back, keeps nothing from being sent. */
  lemma {:induction false} OneWaitingWraps(q: Queues, y: Command, x: Command)
    requires q.Valid() && q.Shaped() && q.sentReliable == [y] && q.outgoing == [x] && x.attempts == 0
    requires x.channel == y.channel < |q.channels| && y.reliable && x.sequence == Wire(x.number) && y.number < x.number
    requires Window(x.number) <= Window(y.number) + FREE_WINDOWS - 2
    ensures !WindowWraps(q.channels[x.channel], x)
  {
    hide Sum, UnsentNumbers;
    var c, n := x.channel, x.number;
    if n % WINDOW_SIZE == 0 {
      assert q.ChannelValid(c) && q.CommandValid(y);
      WireWindow(n);
      WireWindow(y.number);
      NextWindow(n);
      forall w | 0 <= w < WINDOWS
        ensures q.channels[c].reliableWindows[w] <= 1
        ensures q.channels[c].usedWindows[w] ==> w == Window(y.number) % WINDOWS
      {
        OneCounted(q, y, x, c, w);
      }
      SixBackUnmasked(n, y.number);
    } else {
      WireRemainder(n);
      NoneBegins(q.channels[c], x);
    }
  }

  lemma {:induction false} OneCounted(q: Queues, y: Command, x: Command, c: nat, w: nat)
    requires q.sentReliable == [y] && q.outgoing == [x] && x.attempts == 0 && c < |q.channels| && w < WINDOWS
    requires |q.channels[c].reliableWindows| == |q.channels[c].usedWindows| == WINDOWS && q.ChannelValid(c)
    ensures q.channels[c].reliableWindows[w] <= 1
    ensures q.channels[c].usedWindows[w] ==> w == Window(y.sequence)
  {
    hide UnsentNumbers;
    assert q.WindowCounted(c, w);
    SumZero(q.outgoing, InWindow(c, w));
    assert Sum([y], InWindow(c, w)) == InWindow(c, w)(y) + Sum([y][1..], InWindow(c, w));
  }

  lemma SixBackUnmasked(n: nat, o: nat)
    requires Window(o) < Window(n) <= Window(o) + FREE_WINDOWS - 2
    ensures !Masked(Window(Wire(n)), Window(o) % WINDOWS)
  {
    hide Masked, Wire, Window;
    MaskWire(n, Window(o) % WINDOWS);
    SixBack(Window(n), Window(o));
  }

  lemma SixBack(w: nat, v: nat)
    requires v < w <= v + FREE_WINDOWS - 2
    ensures !Masked(w, v % WINDOWS)
  {
    var d := w - v;
    assert w % WINDOWS == (v % WINDOWS + d) % WINDOWS;
  }

  lemma {:induction false} LengthBelow(m: Message, i: nat)
    requires m.Valid() && i < m.Pieces()
    ensures m.Offset(i) <= |m.data| && m.Length(i) <= m.Length(0)
  {
    PieceInside(m, i);
  }

  /** The next packet, without data, goes through while the piece kept stays behind. */
  lemma {:induction false} EmptyThrough(s: State, c: nat, ms: seq<Message>, j: nat, i: nat, k: nat, limit: nat) returns (s': State)
    requires Kept(s, c, ms, j, i, k, limit) && i < ms[j].Pieces() && k < |ms| && ms[k] == Empty() && ms[j].Length(0) <= limit
    requires Window(First(ms, k)) <= Window(First(ms, j) + i) + FREE_WINDOWS - 2
    ensures Kept(s', c, ms, j, i, k + 1, limit)
  {
    hide Count, Steps, Reachable, Queues.Valid, Inbox.Valid, Received, WindowWraps, Sum, EndsNear, Waits, Far, Empty;
    var y, x, n := s.q.sentReliable[0], NewCommand(c, ms, k, 0), First(ms, k);
    FirstMonotone(ms, j, k);
    var s1 := AddPiece(s, c, ms, k, 0, limit);
    ValidShaped(s1.q);
    NewCommandSized(c, ms, k, 0);
    OneWaitingWraps(s1.q, y, x);
    LengthBelow(ms[j], i);
    OneBytes(y);
    assert s.q.sentReliable == [y];
    var s2 := SendAdded(s, s1, c, ms, k, 0, limit);
    OneEndsNear(ms, k);
    var s3 := TakePiece(s2, c, ms, k, 0, limit);
    SentCarries(c, ms, k, 0);
    s' := AckLast(s3, c, ms, k, 0, limit);
    assert s'.q.sentReliable == [y];
  }

  lemma OneBytes(y: Command)
    ensures Sum([y], Bytes()) == y.length
  {
    assert Sum([y], Bytes()) == y.length + Sum([y][1..], Bytes());
  }

  lemma {:induction false} OneEndsNear(ms: seq<Message>, k: nat)
    requires AllValid(ms) && k < |ms| && ms[k].Pieces() == 1
    ensures EndsNear(ms, k)
  {
  }

  lemma {:induction false} KeptAfter(s: State, c: nat, ms: seq<Message>, j: nat, i: nat, k: nat, limit: nat)
    requires Kept(s, c, ms, j, i, k, limit)
    ensures AllValid(ms) && j < k <= |ms|
  {
    hide Invariant, Reachable;
  }

  lemma {:induction false} EmptiesThrough(s: State, c: nat, ms: seq<Message>, j: nat, i: nat, k: nat, end: nat, limit: nat)
    returns (s': State)
    requires Kept(s, c, ms, j, i, k, limit) && i < ms[j].Pieces() && ms[j].Length(0) <= limit && k <= end <= |ms|
    requires forall l | k <= l < end :: ms[l] == Empty()
    requires Window(First(ms, end) - 1) <= Window(First(ms, j) + i) + FREE_WINDOWS - 2
    ensures Kept(s', c, ms, j, i, end, limit)
    decreases end - k
  {
    hide Kept, Empty, First, Count, Steps, Window;
    KeptAfter(s, c, ms, j, i, k, limit);
    if k == end {
      s' := s;
    } else {
      FirstMonotone(ms, k, end);
      WindowMonotone(First(ms, k), First(ms, end) - 1);
      s' := EmptyThrough(s, c, ms, j, i, k, limit);
      s' := EmptiesThrough(s', c, ms, j, i, k + 1, end, limit);
    }
  }

  // ---------- Exactly when ----------

  /** A run over the packets `ms` and more after them, at whose end the last of `ms` is taken for a new one. */
  ghost predicate ComesToMistake(run: seq<State>, steps: seq<Step>, c: nat, ms: seq<Message>, more: seq<Message>, limit: nat, i: nat) {
    var all := ms + more;
    && |ms| > 0 && Run(run, steps, c, all, limit) && ToldRun(run, steps, c, all) && Invariant(run[|steps|], c, all)
    && Mistaken(run[|steps|], c, all, |ms| - 1, i)
  }

  ghost predicate CanBeMistaken(c: nat, ms: seq<Message>, limit: nat) {
    exists more: seq<Message>, run: seq<State>, steps: seq<Step>, i: nat :: ComesToMistake(run, steps, c, ms, more, limit, i)
  }

  lemma {:induction false} EmptiesNumbered(ms: seq<Message>, j: nat, k: nat)
    requires AllValid(ms) && j <= k <= |ms| && forall l | j <= l < k :: ms[l] == Empty()
    ensures First(ms, k) == First(ms, j) + (k - j)
  {
    hide Empty;
    if j < k {
      EmptiesNumbered(ms, j, k - 1);
    }
  }

  /** The number at which the last packet of `ms` passes for a new one, and the number that it passes for. */
  ghost function Tenth(ms: seq<Message>, j: nat): nat
    requires AllValid(ms) && j < |ms|
  {
    (Window(First(ms, j)) + 10) * WINDOW_SIZE
  }

  ghost function Double(ms: seq<Message>, j: nat): nat
    requires AllValid(ms) && j < |ms|
  {
    First(ms, j) + 0x1_0000
  }

  /** Packets without data up to that number. */
  ghost function Filling(ms: seq<Message>): (more: seq<Message>)
    requires AllValid(ms) && |ms| > 0
    ensures forall k | 0 <= k < |more| :: more[k] == Empty()
  {
    var from, last := First(ms, |ms|), Double(ms, |ms| - 1);
    if last < from then [] else seq(last + 1 - from, k => Empty())
  }

  /** Packet `j` fits and reaches far, and packets without data follow it up to the number it passes for. */
  ghost predicate Filled(ms: seq<Message>, j: nat, limit: nat) {
    && AllValid(ms) && j < |ms|
    && (forall k | 0 <= k <= j :: Fits(Before(ms, k), ms[k], limit)) && !Narrow(ms, j)
    && (forall k | j < k < |ms| :: ms[k] == Empty())
    && First(ms, |ms|) - 1 == Double(ms, j)
  }

  lemma {:induction false} FillingFills(ms: seq<Message>, limit: nat)
    requires AllValid(ms) && |ms| > 0 && forall k | 0 <= k < |ms| :: Fits(Before(ms, k), ms[k], limit)
    requires !Narrow(ms, |ms| - 1)
    ensures Filled(ms + Filling(ms), |ms| - 1, limit)
  {
    hide Count, Steps, Empty, Fits, First, Filling, Window;
    var j, more := |ms| - 1, Filling(ms);
    var all := ms + more;
    FirstPrefix(ms, more, j);
    FirstPrefix(ms, more, |ms|);
    forall k | 0 <= k < |ms| ensures all[k] == ms[k] && Fits(Before(all, k), all[k], limit) {
      FirstPrefix(ms, more, k);
    }
    EmptiesNumbered(all, |ms|, |all|);
    FillingReaches(ms, limit);
  }

  lemma {:induction false} FillingReaches(ms: seq<Message>, limit: nat)
    requires AllValid(ms) && |ms| > 0 && Fits(Before(ms, |ms| - 1), ms[|ms| - 1], limit)
    ensures First(ms, |ms|) + |Filling(ms)| - 1 == Double(ms, |ms| - 1)
  {
    hide Count, Steps, Fits, First;
    FitEndsNear(ms, |ms| - 1, limit);
    FirstMonotone(ms, |ms| - 1, |ms|);
    EndBefore(First(ms, |ms| - 1), First(ms, |ms|), Tenth(ms, |ms| - 1));
  }

  /** Which packet ends at the number where packet `j` passes for a new one. */
  lemma {:induction false} TenthPacket(ms: seq<Message>, j: nat, limit: nat) returns (k: nat)
    requires Filled(ms, j, limit)
    ensures j < k < |ms| && First(ms, k) - 1 == Tenth(ms, j)
  {
    hide Count, Steps, Fits, First, Empty;
    FitEndsNear(ms, j, limit);
    FirstMonotone(ms, j, j + 1);
    EndBefore(First(ms, j), First(ms, j + 1), Tenth(ms, j));
    EmptiesNumbered(ms, j + 1, |ms|);
    k := j + 1 + (Tenth(ms, j) + 1 - First(ms, j + 1));
    EmptiesNumbered(ms, j + 1, k);
  }

  /** A packet that reaches far can be. */
  lemma {:induction false} FarMistaken(c: nat, ms: seq<Message>, j: nat, limit: nat) returns (s: State, i: nat, k: nat)
    requires Filled(ms, j, limit)
    ensures Kept(s, c, ms, j, i, k, limit) && First(ms, k) - 1 == Tenth(ms, j) && j < k < |ms|
    ensures i < ms[j].Pieces() && Mistaken(s, c, ms, j, i)
  {
    hide Count, Steps, Invariant, First, Empty, Kept, Fits, Far, InStep, Tenth, Double;
    k := TenthPacket(ms, j, limit);
    s := Packets(c, ms, j, limit);
    s, i := KeepOne(s, c, ms, j, limit);
    FitsLength(Before(ms, j), ms[j], limit);
    TenthNear(ms, j);
    s := EmptiesThrough(s, c, ms, j, i, j + 1, k, limit);
    KeptMistaken(s, c, ms, j, i, k, limit);
  }

  lemma {:induction false} TenthNear(ms: seq<Message>, j: nat)
    requires AllValid(ms) && j < |ms| && !Narrow(ms, j)
    ensures Window(Tenth(ms, j)) <= Window(First(ms, j + 1) - 1) + FREE_WINDOWS - 2
  {
    hide First;
    TenOn(First(ms, j), Tenth(ms, j));
  }

  lemma {:induction false} KeptMistaken(s: State, c: nat, ms: seq<Message>, j: nat, i: nat, k: nat, limit: nat)
    requires Kept(s, c, ms, j, i, k, limit) && j < |ms| && First(ms, k) - 1 == Tenth(ms, j)
    ensures Invariant(s, c, ms) && Mistaken(s, c, ms, j, i)
  {
    hide Invariant, First, Kept, Waits, Accepts, Wire, Window;
    KeptWaits(s, c, ms, j, i, k, limit);
    KeptAfter(s, c, ms, j, i, k, limit);
    var first, tenth := First(ms, j), Tenth(ms, j);
    TenOn(first, tenth);
    OldNumber(tenth, first);
    WireDistinct(first, tenth);
  }

  lemma TenOn(first: nat, tenth: nat)
    requires tenth == (Window(first) + 10) * WINDOW_SIZE
    ensures Window(tenth) == Window(first) + 10 && first < tenth < first + 0x1_0000
  {
  }

  lemma {:induction false} FitEndsNear(ms: seq<Message>, j: nat, limit: nat)
    requires AllValid(ms) && j < |ms| && Fits(Before(ms, j), ms[j], limit)
    ensures Window(First(ms, j + 1) - 1) <= Window(First(ms, j)) + FREE_WINDOWS - 1
  {
    hide Count, Far;
    FarWindow(First(ms, j) - 1, ms[j].Pieces());
    WindowMonotone(First(ms, j) - 1, First(ms, j));
  }

  lemma EndBefore(first: nat, end: nat, tenth: nat)
    requires 1 <= first < end && Window(end - 1) <= Window(first) + FREE_WINDOWS - 1 && tenth == (Window(first) + 10) * WINDOW_SIZE
    ensures end <= tenth < first + 0x1_0000
  {
  }

  lemma FitsLength(last: uint16, m: Message, limit: nat)
    requires Fits(last, m, limit)
    ensures m.Length(0) <= limit
  {
  }

  lemma {:induction false} KeptWaits(s: State, c: nat, ms: seq<Message>, j: nat, i: nat, k: nat, limit: nat)
    requires Kept(s, c, ms, j, i, k, limit) && j < |ms|
    ensures Invariant(s, c, ms) && i < ms[j].Pieces() && Waits(s.q, c, First(ms, j) + i)
    ensures s.b.done == k && s.b.incomingReliable == Wire(First(ms, k) - 1) && s.q.channels[c].sent == First(ms, k) - 1
    ensures Window(First(ms, k) - 1) < Window(First(ms, j) + i) + FREE_WINDOWS - 1
  {
    hide Count, Steps, Reachable, Inbox.Valid, Queues.Valid, Sum;
    assert s.q.sentReliable[0].Outstanding(c) && s.q.sentReliable[0] in s.q.sentReliable;
    WaitsHeld(s.q, c, First(ms, j) + i);
    WaitsInSpan(s.q, c, First(ms, j) + i);
  }

  /**
   A packet can come to be taken for a new one while a piece of it is less than 7 windows old and waits to be sent
   again, if and only if it reaches four windows past its first number.
   */
  lemma {:induction false} MistakenExactly(c: nat, ms: seq<Message>, limit: nat)
    requires AllValid(ms) && |ms| > 0 && forall k | 0 <= k < |ms| :: Fits(Before(ms, k), ms[k], limit)
    ensures CanBeMistaken(c, ms, limit) <==> ReachesFar(Before(ms, |ms| - 1), ms[|ms| - 1])
  {
    hide Fits, ReachesFar, Invariant, Mistaken, Before, Kept, Filled, Filling, Narrow, First;
    var j := |ms| - 1;
    NarrowByWire(ms, j);
    if ReachesFar(Before(ms, j), ms[j]) {
      var more := Filling(ms);
      var all := ms + more;
      FillingFills(ms, limit);
      var s, i, k := FarMistaken(c, all, j, limit);
      KeptReachable(s, c, all, j, i, k, limit);
      hide WireReachable;
      var run: seq<State>, steps: seq<Step> :| Run(run, steps, c, all, limit) && ToldRun(run, steps, c, all) && run[|steps|] == s;
      assert ComesToMistake(run, steps, c, ms, more, limit, i);
    }
    if CanBeMistaken(c, ms, limit) {
      var more: seq<Message>, run: seq<State>, steps: seq<Step>, i: nat :| ComesToMistake(run, steps, c, ms, more, limit, i);
      assert (ms + more)[j] == ms[j];
      FirstPrefix(ms, more, j);
      if !ReachesFar(Before(ms, j), ms[j]) {
        NarrowByWire(ms + more, j);
        SameBefore(ms, more, j);
        NarrowNever(run[|steps|], c, ms + more, j, i);
      }
    }
  }

  lemma SameBefore(ms: seq<Message>, more: seq<Message>, j: nat)
    requires AllValid(ms) && AllValid(ms + more) && j < |ms|
    ensures Before(ms, j) == Before(ms + more, j)
  {
    FirstPrefix(ms, more, j);
  }

  lemma {:induction false} KeptReachable(s: State, c: nat, ms: seq<Message>, j: nat, i: nat, k: nat, limit: nat)
    requires Kept(s, c, ms, j, i, k, limit)
    ensures AllValid(ms) && Reachable(s, c, ms, limit) && Invariant(s, c, ms)
  {
    hide Reachable, Invariant;
  }
}
