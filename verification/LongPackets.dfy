/**
 Which packets a reliable ENet channel can deliver at all. Numbers seven windows past the last packet in order are
 not acknowledged, so all of them must be in transit at once, and the window after them is never opened.
 */
module LongPackets {
  import opened Machine
  import opened SequenceWindows
  import opened SendQueue
  import opened SendState
  import opened Messages
  import opened Inbox
  import opened SendSteps
  import opened ReliableChannel
  import Arrivals
  import Sending

  /** The first piece of a packet queued after number `last` that lies seven windows past it. */
  function Far(last: uint16): nat {
    (FREE_WINDOWS - 1) * WINDOW_SIZE - 1 - last % WINDOW_SIZE
  }

  /**
   Of packet `m`, handed to a channel whose last number is `last`: it ends less than eight windows past that
   number, and what lies in the seventh may be in transit at once, as may any one piece.
   */
  predicate Fits(last: uint16, m: Message, limit: nat) {
    && last % WINDOW_SIZE + m.Pieces() < FREE_WINDOWS * WINDOW_SIZE
    && m.Length(0) <= limit
    && (Far(last) < m.Pieces() ==> |m.data| <= m.Offset(Far(last)) + limit)
  }

  /** The channel's last number on the wire when packet `j` is queued. */
  ghost function Before(ms: seq<Message>, j: nat): uint16
    requires AllValid(ms) && j < |ms|
  {
    Wire(First(ms, j) - 1)
  }

  /** Short packets always do. */
  lemma {:induction false} ShortFits(last: uint16, m: Message, limit: nat)
    requires m.Pieces() <= 6 * WINDOW_SIZE && m.Length(0) <= limit
    ensures Fits(last, m, limit)
  {
  }

  const DEFAULT_MTU := 1400
  const DEFAULT_MAXIMUM_PACKET_SIZE := 32 * 1024 * 1024

  /** With the defaults for the transmission unit and the size of packets, every packet fits. */
  lemma {:induction false} DefaultsFit(last: uint16, m: Message, checksum: bool, limit: nat)
    requires m.limit == Sending.PieceLimit(DEFAULT_MTU, checksum) && |m.data| <= DEFAULT_MAXIMUM_PACKET_SIZE && limit >= DEFAULT_MTU
    ensures Fits(last, m, limit)
  {
    hide Count;
    if m.Fragmented() {
      CountQuotient(|m.data|, m.limit);
    } else {
      WholePacket(m);
    }
    ShortFits(last, m, limit);
  }

  /** With the smallest transmission unit the longest packets never do. */
  lemma {:induction false} SmallestMtuStalls(last: uint16, m: Message, checksum: bool, limit: nat)
    requires m.limit == Sending.PieceLimit(Sending.MIN_MTU, checksum) && |m.data| == DEFAULT_MAXIMUM_PACKET_SIZE
    ensures m.Pieces() <= Sending.MAX_FRAGMENTS && !Fits(last, m, limit)
  {
    hide Count;
    CountQuotient(|m.data|, m.limit);
  }

  lemma WholePacket(m: Message)
    requires m.Valid() && !m.Fragmented()
    ensures m.Pieces() == 1
  {
  }

  lemma FarWindow(r: nat, i: nat)
    ensures Far(Wire(r)) <= i <==> Window(r) + FREE_WINDOWS - 1 <= Window(r + 1 + i)
    ensures Wire(r) % WINDOW_SIZE + i < FREE_WINDOWS * WINDOW_SIZE <==> Window(r + i) < Window(r) + FREE_WINDOWS
  {
    WireRemainder(r);
  }

  // ---------- The bytes in transit ----------

  lemma {:induction false} SumMember(s: seq<Command>, x: Command, f: Command -> nat)
    requires x in s
    ensures f(x) <= Sum(s, f)
  {
    if s[0] != x {
      SumMember(s[1..], x, f);
    }
  }

  /** The bytes of the commands outstanding on channel `c` with one of the `k` numbers from `base` on. */
  ghost function BytesFrom(c: nat, base: nat, k: nat): Command -> nat {
    (x: Command) => if x.Outstanding(c) && base <= x.number < base + k then x.length else 0
  }

  lemma {:induction false} BytesOneMore(s: seq<Command>, c: nat, base: nat, k: nat)
    ensures Sum(s, BytesFrom(c, base, k + 1)) == Sum(s, BytesFrom(c, base, k)) + Sum(s, BytesFrom(c, base + k, 1))
  {
    if s != [] {
      BytesOneMore(s[1..], c, base, k);
    }
  }

  /** Number `n` of channel `c` is in flight. */
  ghost predicate InFlight(q: Queues, c: nat, n: nat) {
    exists x :: x in q.sentReliable && x.Outstanding(c) && x.number == n
  }

  ghost predicate AllInFlight(q: Queues, c: nat, from: nat, to: nat) {
    forall n | from <= n < to :: InFlight(q, c, n)
  }

  /** Pieces `a` to `b` of packet `j`, none of them the last, are in flight: so are their bytes. */
  lemma {:induction false} PiecesInTransit(q: Queues, c: nat, ms: seq<Message>, j: nat, a: nat, b: nat)
    requires AllValid(ms) && j < |ms| && a <= b < ms[j].Pieces() && AllSized(q, c, ms)
    requires AllInFlight(q, c, First(ms, j) + a, First(ms, j) + b)
    ensures ms[j].Offset(b) <= ms[j].Offset(a) + Sum(q.sentReliable, BytesFrom(c, First(ms, j) + a, b - a))
  {
    hide Sum;
    if a < b {
      PiecesInTransit(q, c, ms, j, a, b - 1);
      var n := First(ms, j) + (b - 1);
      assert InFlight(q, c, n);
      var x :| x in q.sentReliable && x.Outstanding(c) && x.number == n;
      assert PieceAt(ms, j, b - 1, n) && Sized(ms, x);
      PiecesApart(ms[j], b - 1, b);
      SumMember(q.sentReliable, x, BytesFrom(c, n, 1));
      BytesOneMore(q.sentReliable, c, First(ms, j) + a, b - 1 - a);
    }
  }

  // ---------- What is queued ----------

  ghost predicate AllSized(q: Queues, c: nat, ms: seq<Message>)
    requires AllValid(ms)
  {
    forall x | (x in q.sentReliable || x in q.outgoing) && x.reliable && x.channel == c :: Sized(ms, x)
  }

  lemma SameSized(ms: seq<Message>, x: Command, y: Command)
    requires AllValid(ms) && SameCommand(x, y)
    ensures Sized(ms, x) <==> Sized(ms, y)
  {
  }

  lemma {:induction false} StepSized(q: Queues, step: SendStep, q': Queues, limit: nat, c: nat, ms: seq<Message>)
    requires AllValid(ms) && SendNext(q, step, q', limit) && AddsPiece(ms, c, step) && AllSized(q, c, ms)
    ensures AllSized(q', c, ms)
  {
    hide Queues.Valid, Queues.ChannelValid, Sized, MaySend, RequeuedUpTo, Sum;
    match step
    case Add(x, q1) =>
    case Drop(i) => WithoutMembers(q.outgoing, i);
    case Send(i, y) =>
      WithoutMembers(q.outgoing, i);
      SameSized(ms, q.outgoing[i], y);
    case Requeue(i, k, x) =>
      WithoutMembers(q.sentReliable, i);
      SameSized(ms, q.sentReliable[i], x);
    case Acknowledge(_, _, at, wasSent) =>
      WithoutMembers(if wasSent then q.sentReliable else q.outgoing, at);
  }

  // ---------- What was sent fits ----------

  /** Piece `i`, and what lies in the same seventh window before it, may be in transit at once. */
  ghost predicate PieceFits(last: uint16, m: Message, i: nat, limit: nat) {
    && m.Offset(i) <= |m.data| && m.Length(i) <= limit
    && (Far(last) <= i ==> m.Offset(i) + m.Length(i) <= m.Offset(Far(last)) + limit)
  }

  ghost predicate SentFits(ms: seq<Message>, sent: nat, limit: nat)
    requires AllValid(ms)
  {
    forall j: nat, i: nat, n: nat | PieceAt(ms, j, i, n) && n <= sent :: PieceFits(Before(ms, j), ms[j], i, limit)
  }

  /** A number not yet sent belongs to a packet not yet put in order. */
  lemma {:induction false} UnsentPacket(s: State, c: nat, ms: seq<Message>, j: nat, i: nat)
    requires Invariant(s, c, ms) && PieceAt(ms, j, i, s.q.channels[c].sent + 1)
    ensures s.b.done <= j && s.b.Last(ms) <= First(ms, j) - 1
  {
    hide First, Queues.Valid, Waits;
    assert s.b.done <= j || s.b.Has(j, i);
    FirstMonotone(ms, s.b.done, j);
  }

  lemma PieceInRange(ms: seq<Message>, j: nat, i: nat, n: nat)
    requires AllValid(ms) && PieceAt(ms, j, i, n)
    ensures j < |ms| && i < ms[j].Pieces()
  {
  }

  /** When a number is first sent, those before it in the seventh window are in flight. */
  lemma {:induction false} FarInFlight(s: State, c: nat, ms: seq<Message>, j: nat, i: nat)
    requires Invariant(s, c, ms) && PieceAt(ms, j, i, s.q.channels[c].sent + 1)
    requires s.q.outgoing != [] && s.q.outgoing[0].reliable && s.q.outgoing[0].attempts == 0
    ensures AllInFlight(s.q, c, First(ms, j) + Far(Before(ms, j)), First(ms, j) + i)
  {
    hide First, Sum, UnsentNumbers, Queues.ChannelValid, Waits;
    var r := First(ms, j) - 1;
    UnsentPacket(s, c, ms, j, i);
    WindowMonotone(s.b.Last(ms), r);
    forall n | First(ms, j) + Far(Before(ms, j)) <= n < First(ms, j) + i ensures InFlight(s.q, c, n) {
      FarWindow(r, n - First(ms, j));
      assert Waits(s.q, c, n);
      WaitsHeld(s.q, c, n);
      var x: Command :| (x in s.q.sentReliable || x in s.q.outgoing) && x.Outstanding(c) && x.number == n;
      NoneSentAgain(s.q, x);
    }
  }

  lemma NoneSentAgain(q: Queues, x: Command)
    requires q.RequeuedFirst() && q.outgoing != [] && q.outgoing[0].reliable && q.outgoing[0].attempts == 0
    requires x.reliable && x.attempts > 0
    ensures x !in q.outgoing
  {
    assert forall k | 0 < k < |q.outgoing| && q.outgoing[k].reliable :: q.outgoing[k].attempts == 0;
  }

  lemma {:induction false} FirstSending(q: Queues, c: nat, step: SendStep, q': Queues, limit: nat)
    requires q.Valid() && c < |q.channels| && SendNext(q, step, q', limit) && Opened(q, c, step) != {}
    ensures q.outgoing != [] && var x := q.outgoing[0];
            x.reliable && x.attempts == 0 && x.channel == c && x.number == q.channels[c].sent + 1 && q.inTransit + x.length <= limit
  {
    hide Sum, WindowWraps;
    assert q.outgoing[..step.i] == [];
    FirstIsNext(q, step.i);
    assert q.CommandValid(q.outgoing[step.i]);
  }

  lemma {:induction false} SendFits(s: State, c: nat, ms: seq<Message>, step: SendStep, q': Queues, limit: nat, j: nat, i: nat)
    requires Invariant(s, c, ms) && AllSized(s.q, c, ms) && SendNext(s.q, step, q', limit) && Opened(s.q, c, step) != {}
    requires PieceAt(ms, j, i, s.q.channels[c].sent + 1)
    ensures PieceFits(Before(ms, j), ms[j], i, limit)
  {
    hide First, Sum, UnsentNumbers, Queues.ChannelValid, Waits, Inbox.Valid, SendNext, Count, Steps, PieceAt;
    FirstSending(s.q, c, step, q', limit);
    PieceInRange(ms, j, i, s.q.channels[c].sent + 1);
    var x, far := s.q.outgoing[0], Far(Before(ms, j));
    assert Sized(ms, x);
    if far <= i {
      FarInFlight(s, c, ms, j, i);
      PiecesInTransit(s.q, c, ms, j, far, i);
      SumAtMost(s.q.sentReliable, BytesFrom(c, First(ms, j) + far, i - far), Bytes());
    }
  }

  // ---------- Over whole runs ----------

  ghost predicate EndsNear(ms: seq<Message>, j: nat)
    requires AllValid(ms) && j < |ms|
  {
    Before(ms, j) % WINDOW_SIZE + ms[j].Pieces() < FREE_WINDOWS * WINDOW_SIZE
  }

  ghost predicate FitInvariant(s: State, c: nat, ms: seq<Message>, limit: nat)
    requires Invariant(s, c, ms)
  {
    && AllSized(s.q, c, ms) && SentFits(ms, s.q.channels[c].sent, limit)
    && forall j | 0 <= j < s.b.done :: EndsNear(ms, j)
  }

  /** A packet put in order ends less than eight windows past the last number before it. */
  lemma {:induction false} DoneEndsNear(s: State, c: nat, ms: seq<Message>, s': State, j: nat)
    requires Invariant(s, c, ms) && Invariant(s', c, ms) && s'.q == s.q && s.b.done <= j < s'.b.done
    ensures EndsNear(ms, j)
  {
    hide First, Sum, UnsentNumbers, Queues.Valid, Waits, Count;
    var m, r := ms[j], First(ms, j) - 1;
    PiecesPositive(m);
    assert s'.b.Has(j, m.Pieces() - 1);
    assert First(ms, j) + (m.Pieces() - 1) in s'.b.accepted;
    FirstMonotone(ms, s.b.done, j);
    WindowMonotone(s.b.Last(ms), r);
    WindowMonotone(r + m.Pieces(), s.q.channels[c].sent);
    FarWindow(r, m.Pieces());
  }

  lemma {:induction false} FitNext(s: State, c: nat, ms: seq<Message>, step: Step, s': State, limit: nat)
    requires Invariant(s, c, ms) && Next(s, c, ms, step, s', limit) && Told(s, c, ms, step) && FitInvariant(s, c, ms, limit)
    ensures Invariant(s', c, ms) && FitInvariant(s', c, ms, limit)
  {
    hide First, Sum, UnsentNumbers, Queues.Valid, Waits, SendNext, AllSized, Inbox.Valid, EndsNear, Sized, PieceFits, PieceAt;
    NextInvariant(s, c, ms, step, s', limit);
    match step {
      case Sender(send) =>
        StepSized(s.q, send, s'.q, limit, c, ms);
        SendNextValid(s.q, send, s'.q, limit);
        SentMoves(s.q, c, send, s'.q, limit);
        forall j: nat, i: nat, n: nat | PieceAt(ms, j, i, n) && n <= s'.q.channels[c].sent
          ensures j < |ms| && PieceFits(Before(ms, j), ms[j], i, limit)
        {
          PieceInRange(ms, j, i, n);
          if n > s.q.channels[c].sent {
            SendFits(s, c, ms, send, s'.q, limit, j, i);
          }
        }
      case Arrive(_, _, _, _) =>
        forall j | s.b.done <= j < s'.b.done ensures j < |ms| && EndsNear(ms, j) {
          DoneInRange(s', c, ms);
          DoneEndsNear(s, c, ms, s', j);
        }
      case _ =>
    }
  }

  lemma DoneInRange(s: State, c: nat, ms: seq<Message>)
    requires Invariant(s, c, ms)
    ensures s.b.done <= |ms|
  {
  }

  lemma {:induction false} FitRun(run: seq<State>, steps: seq<Step>, c: nat, ms: seq<Message>, limit: nat, k: nat)
    requires Run(run, steps, c, ms, limit) && ToldRun(run, steps, c, ms) && k < |run|
    ensures Invariant(run[k], c, ms) && FitInvariant(run[k], c, ms, limit)
  {
    hide Next, Invariant, FitInvariant;
    if k == 0 {
      FitAtFirst(run[0], c, ms, limit);
    } else {
      FitRun(run, steps, c, ms, limit, k - 1);
      FitNext(run[k - 1], c, ms, steps[k - 1], run[k], limit);
    }
  }

  lemma {:induction false} FitAtFirst(s: State, c: nat, ms: seq<Message>, limit: nat)
    requires AllValid(ms) && Initial(s.q) && c < |s.q.channels| && s.b == Inbox(0, [], [], 0, 0, {}) && s.acks == {}
    ensures Invariant(s, c, ms) && FitInvariant(s, c, ms, limit)
  {
    InitialInvariant(s.q, c, ms);
  }

  /** A packet that does not fit is never put in order, in any run: from it on the channel delivers nothing. */
  lemma {:induction false} NeverInOrder(run: seq<State>, steps: seq<Step>, c: nat, ms: seq<Message>, limit: nat, k: nat, j: nat)
    requires Run(run, steps, c, ms, limit) && ToldRun(run, steps, c, ms) && k < |run| && j < |ms|
    requires !Fits(Before(ms, j), ms[j], limit)
    ensures run[k].b.done <= j
  {
    hide First, Queues.Valid, Waits, AllSized, Run, Count, Steps;
    FitRun(run, steps, c, ms, limit, k);
    if j < run[k].b.done {
      DoneFits(run[k], c, ms, limit, j);
    }
  }

  lemma {:induction false} DoneFits(s: State, c: nat, ms: seq<Message>, limit: nat, j: nat)
    requires Invariant(s, c, ms) && FitInvariant(s, c, ms, limit) && j < s.b.done
    ensures Fits(Before(ms, j), ms[j], limit)
  {
    hide First, Queues.Valid, Waits, AllSized, Count;
    assert EndsNear(ms, j);
    var m, n := ms[j], First(ms, j);
    PiecesPositive(m);
    FirstMonotone(ms, j, s.b.done);
    LagBounded(s, c, ms);
    var last := m.Pieces() - 1;
    assert PieceAt(ms, j, 0, n) && PieceAt(ms, j, last, n + last);
    LastReaches(m);
  }

  /** The last piece reaches the end of its packet. */
  lemma {:induction false} LastReaches(m: Message)
    requires m.Valid()
    ensures var i := m.Pieces() - 1; i >= 0 && m.Offset(i) <= |m.data| && m.Offset(i) + m.Length(i) == |m.data|
  {
    PieceInside(m, m.Pieces() - 1);
    if m.Fragmented() {
      CountInside(|m.data|, m.limit, m.Pieces());
    }
  }
}
