/**
 A reliable ENet channel end to end: the sender's queues, a network that loses, repeats and reorders, and
 the receiver.
 */
module ReliableChannel {
  import opened Machine
  import opened SequenceWindows
  import opened SendQueue
  import opened SendState
  import opened Messages
  import opened Inbox
  import opened SendSteps
  import Sending
  import Arrivals

  /** Number `n` of channel `c` has been sent and is not acknowledged yet. */
  ghost predicate Waits(q: Queues, c: nat, n: nat) {
    Sum(q.sentReliable, Numbered(c, n)) + Sum(q.outgoing, Numbered(c, n)) > 0
  }

  lemma WaitsHeld(q: Queues, c: nat, n: nat)
    ensures Waits(q, c, n) <==>
      exists x: Command :: (x in q.sentReliable || x in q.outgoing) && x.Outstanding(c) && x.number == n
  {
    SumZero(q.sentReliable, Numbered(c, n));
    SumZero(q.outgoing, Numbered(c, n));
    assert forall x: Command :: x.Outstanding(c) && x.number == n <==> Numbered(c, n)(x) != 0;
  }

  /** What waits lies in the window last sent into or the six before it. */
  lemma WaitsInSpan(q: Queues, c: nat, n: nat)
    requires q.Valid() && c < |q.channels| && Waits(q, c, n)
    ensures 1 <= n <= q.channels[c].sent && Window(q.channels[c].sent) <= Window(n) + FREE_WINDOWS - 2
  {
    WaitsHeld(q, c, n);
    var x: Command :| (x in q.sentReliable || x in q.outgoing) && x.Outstanding(c) && x.number == n;
    assert q.ChannelValid(c);
    assert q.InSpan(x, c);
  }

  /**
   One more reliable packet on channel `c`, all whose packets so far are `ms`: its commands take the numbers that
   the receiver expects, and each describes the piece that goes out under its number.
   */
  lemma {:induction false} SendsAsExpected(q: Queues, q': Queues, c: nat, ms: seq<Message>, m: Message, i: nat)
    requires AllValid(ms) && m.Valid() && c < |q.channels| && q.channels[c].numbered == First(ms, |ms|) - 1
    requires Sending.Queued(q, q', c, m, true, false) && i < m.Pieces()
    ensures AllValid(ms + [m]) && q'.channels[c].numbered == First(ms + [m], |ms| + 1) - 1
    ensures var x, d := q'.outgoing[|q.outgoing| + i], Arrivals.Sent(ms + [m], |ms|, i);
            && x.reliable && x.attempts == 0 && x.number == First(ms + [m], |ms|) + i
            && x.sequence == d.sequence && x.length == |d.data| && (d.Fragment? ==> x.offset == d.offset)
            && x.offset + x.length <= |m.data| && d.data == m.data[x.offset..x.offset + x.length]
    ensures Sized(ms + [m], q'.outgoing[|q.outgoing| + i])
  {
    hide Count;
    var all := ms + [m];
    assert all[|ms|] == m && forall k | 0 <= k < |ms| :: all[k] == ms[k];
    FirstPrefix(ms, [m], |ms|);
    PieceInside(m, i);
    Arrivals.OnlyPiece(all, |ms|, i);
    var added := q'.outgoing[|q.outgoing|..];
    assert Sending.PieceQueued(q, added[i], c, m, i, true, false);
    forall j: nat, l: nat | PieceAt(all, j, l, added[i].number) ensures j == |ms| && l == i {
      NumberUnique(all, j, l, |ms|, i);
    }
  }

  /** Number `n` is that of piece `i` of packet `j`. */
  ghost predicate PieceAt(ms: seq<Message>, j: nat, i: nat, n: nat)
    requires AllValid(ms)
  {
    j < |ms| && i < ms[j].Pieces() && First(ms, j) + i == n
  }

  /** A command is as long as the piece that goes out under its number. */
  ghost predicate Sized(ms: seq<Message>, x: Command)
    requires AllValid(ms)
  {
    forall j: nat, i: nat | PieceAt(ms, j, i, x.number) :: ms[j].Offset(i) <= |ms[j].data| && x.length == ms[j].Length(i)
  }

  // ---------- Steps ----------

  /** What happens at the two ends and between them. An acknowledgement may come so late that it finds nothing. */
  datatype Step =
    | Sender(step: SendStep)
    | Ignored(n: nat)
    | Arrive(j: nat, i: nat, handled: bool, acked: bool)
    | Take

  /** Both ends of channel `c`, and the acknowledgements ever sent back. */
  datatype State = State(q: Queues, b: Inbox, acks: set<nat>)

  ghost function Total(ms: seq<Message>): nat
    requires AllValid(ms)
  {
    First(ms, |ms|) - 1
  }

  /** An acknowledgement for channel `c` is one that was sent back less than 2^16 numbers ago. */
  ghost predicate HonestAck(q: Queues, acks: set<nat>, c: nat, step: SendStep)
    requires c < |q.channels|
  {
    step.Acknowledge? && step.c == c ==> step.n in acks && q.channels[c].sent < step.n + 0x1_0000
  }

  /** What is queued for channel `c` are the pieces of its packets. */
  ghost predicate AddsPiece(ms: seq<Message>, c: nat, step: SendStep)
    requires AllValid(ms)
  {
    step.Add? && step.x.reliable && step.x.channel == c ==> Sized(ms, step.x)
  }

  /** Packet `j`, if it was put in order already, begins at most 9 windows back: it is not taken for a new one. */
  ghost predicate InAge(s: State, c: nat, ms: seq<Message>, j: nat)
    requires AllValid(ms) && j < |ms| && c < |s.q.channels|
  {
    j < s.b.done ==> Window(s.q.channels[c].sent) <= Window(First(ms, j)) + WINDOWS - FREE_WINDOWS + 1
  }

  /** Number `n` is less than 7 windows old. */
  predicate Young(sent: nat, n: nat) {
    Window(sent) < Window(n) + FREE_WINDOWS - 1
  }

  /** A command of a packet that was put in order already comes again only while it is less than 7 windows old, as it
      is as long as it waits; or, if older, while its packet begins at most 9 windows back. */
  ghost predicate Recent(s: State, c: nat, ms: seq<Message>, j: nat, i: nat)
    requires AllValid(ms) && j < |ms| && c < |s.q.channels|
  {
    j < s.b.done ==> Young(s.q.channels[c].sent, First(ms, j) + i) || InAge(s, c, ms, j)
  }

  /** Packet `j` reaches no more than 3 windows past its first number. */
  ghost predicate Narrow(ms: seq<Message>, j: nat)
    requires AllValid(ms) && j < |ms|
  {
    Window(First(ms, j + 1) - 1) <= Window(First(ms, j)) + 3
  }

  ghost predicate AllNarrow(ms: seq<Message>)
    requires AllValid(ms)
  {
    forall j | 0 <= j < |ms| :: Narrow(ms, j)
  }

  /** No more than `limit` bytes are ever in transit. */
  ghost predicate Next(s: State, c: nat, ms: seq<Message>, step: Step, s': State, limit: nat)
    requires Invariant(s, c, ms)
  {
    match step
    case Sender(send) =>
      && SendNext(s.q, send, s'.q, limit) && AddsPiece(ms, c, send) && HonestAck(s.q, s.acks, c, send)
      && c < |s'.q.channels| && s'.q.channels[c].numbered <= Total(ms) && s'.b == s.b && s'.acks == s.acks
    case Ignored(n) => s' == s
    case Arrive(j, i, handled, acked) =>
      && s'.q == s.q && j < |ms| && i < ms[j].Pieces() && First(ms, j) + i <= s.q.channels[c].sent && Recent(s, c, ms, j, i)
      && Arrivals.Arrived(s.b, ms, j, i, s'.b, handled, acked)
      && s'.acks == if acked then s.acks + {First(ms, j) + i} else s.acks
    case Take =>
      && s'.q == s.q && s'.acks == s.acks
      && s.b.dispatched != [] && s'.b == s.b.(dispatched := s.b.dispatched[1..], taken := s.b.taken + 1)
  }

  /** What arrives is told from a new packet. */
  ghost predicate Told(s: State, c: nat, ms: seq<Message>, step: Step)
    requires Invariant(s, c, ms)
  {
    step.Arrive? && step.j < |ms| ==> InAge(s, c, ms, step.j)
  }

  /** What is recent, of a packet that reaches no more than 3 windows past its first number, is told. */
  lemma {:induction false} NarrowTold(s: State, c: nat, ms: seq<Message>, step: Step, s': State, limit: nat)
    requires Invariant(s, c, ms) && Next(s, c, ms, step, s', limit) && (step.Arrive? ==> Narrow(ms, step.j))
    ensures Told(s, c, ms, step)
  {
    hide First, Queues.Valid, Inbox.Valid, Waits, SendNext, Arrivals.Arrived;
    if step.Arrive? {
      PieceBefore(ms, step.j, step.i);
      WindowMonotone(First(ms, step.j) + step.i, First(ms, step.j + 1) - 1);
    }
  }

  lemma PieceBefore(ms: seq<Message>, j: nat, i: nat)
    requires AllValid(ms) && j < |ms| && i < ms[j].Pieces()
    ensures First(ms, j) + i <= First(ms, j + 1) - 1
  {
  }

  /** Past that age an old number is taken for a new one. */
  lemma {:induction false} TooOldLetIn(r: nat, n: nat)
    requires n < r <= n + 0x1_0000
    ensures Accepts(Wire(r), Wire(n)) <==> Window(r) > Window(n) + WINDOWS - FREE_WINDOWS + 1
  {
    OldNumber(r, n);
  }

  // ---------- What stays true ----------

  /**
   Every number sent waits or was acknowledged; what was acknowledged was accepted and lies less than 7 windows
   ahead of the receiver; and the sender is less than 8 windows ahead of it.
   */
  ghost predicate Invariant(s: State, c: nat, ms: seq<Message>) {
    && s.q.Valid() && c < |s.q.channels| && AllValid(ms) && s.b.Valid(ms)
    && s.q.channels[c].sent <= s.q.channels[c].numbered <= Total(ms)
    && (forall n: nat | 1 <= n <= s.q.channels[c].sent :: Waits(s.q, c, n) || n in s.acks)
    && (forall n: nat | n in s.b.accepted :: n <= s.q.channels[c].sent)
    && (forall n: nat | n in s.acks :: AckedWell(s.b, ms, n))
    && Window(s.q.channels[c].sent) < Window(s.b.Last(ms)) + FREE_WINDOWS
  }

  ghost predicate AckedWell(b: Inbox, ms: seq<Message>, n: nat)
    requires AllValid(ms) && b.done <= |ms|
  {
    n in b.accepted && Window(n) < Window(b.Last(ms)) + FREE_WINDOWS - 1
  }

  lemma {:induction false} InitialInvariant(q: Queues, c: nat, ms: seq<Message>)
    requires Initial(q) && c < |q.channels| && AllValid(ms)
    ensures Invariant(State(q, Inbox(0, [], [], 0, 0, {}), {}), c, ms)
  {
    InitialValid(q);
    InitialInbox(ms);
  }

  /** How the sender's step changes what waits on channel `c`. */
  ghost function Opened(q: Queues, c: nat, step: SendStep): set<nat> {
    match step
    case Send(i, y) => if i < |q.outgoing| && Opens(q, q.outgoing[i]) && q.outgoing[i].channel == c then {q.outgoing[i].number} else {}
    case _ => {}
  }

  /** Only a first sending on `c` moves the highest number sent, by one. */
  lemma {:induction false} SentMoves(q: Queues, c: nat, step: SendStep, q': Queues, limit: nat)
    requires c < |q.channels| && SendNext(q, step, q', limit) && |q'.channels| == |q.channels|
    ensures var n := q.channels[c].sent + 1;
            && (Opened(q, c, step) == {} || Opened(q, c, step) == {n})
            && q'.channels[c].sent == if Opened(q, c, step) == {} then n - 1 else n
  {
    hide Sum, WindowWraps;
    if step.Send? && Opened(q, c, step) != {} {
      FirstIsNext(q, step.i);
    }
  }

  /** What waits afterwards: what opened, and what waited unless it was acknowledged. */
  lemma {:induction false} WaitsMoves(q: Queues, c: nat, step: SendStep, q': Queues, limit: nat, n: nat)
    requires c < |q.channels| && SendNext(q, step, q', limit)
    ensures Waits(q', c, n) ==> Waits(q, c, n) || n in Opened(q, c, step)
    ensures n in Opened(q, c, step) ==> Waits(q', c, n)
    ensures Waits(q, c, n) ==> Waits(q', c, n) || (step.Acknowledge? && step.c == c && AckedNumber(q, step) == n)
  {
    hide Sum, UnsentNumbers, WindowWraps;
    var f := Numbered(c, n);
    match step
    case Add(x, q1) => SumAppend(q.outgoing, x, f);
    case Drop(i) => SumWithout(q.outgoing, i, f);
    case Send(i, y) => SendCounts(q, i, y, f);
    case Requeue(i, k, x) => RequeueCounts(q, i, k, x, f);
    case Acknowledge(_, _, at, wasSent) => AckCounts(q, at, wasSent, f);
  }

  ghost function AckedNumber(q: Queues, step: SendStep): nat
    requires step.Acknowledge? && if step.wasSent then step.at < |q.sentReliable| else step.at < |q.outgoing|
  {
    if step.wasSent then q.sentReliable[step.at].number else q.outgoing[step.at].number
  }

  /** An acknowledgement less than 2^16 numbers old takes away exactly the command it is for. */
  lemma {:induction false} AckHits(s: State, c: nat, ms: seq<Message>, n: nat, at: nat, wasSent: bool)
    requires Invariant(s, c, ms) && n in s.acks && s.q.channels[c].sent < n + 0x1_0000 && Acked(s.q, c, n, at, wasSent)
    ensures (if wasSent then s.q.sentReliable[at].number else s.q.outgoing[at].number) == n
  {
    hide Sum, UnsentNumbers, First;
    var x := if wasSent then s.q.sentReliable[at] else s.q.outgoing[at];
    assert s.q.ChannelValid(c) && s.q.CommandValid(x) && s.q.InSpan(x, c);
    assert AckedWell(s.b, ms, n);
    var sent := s.q.channels[c].sent;
    SpanDistance(x.number, sent);
    if x.number <= n {
      WireDistinct(x.number, n);
    } else {
      WireDistinct(n, x.number);
    }
  }

  lemma {:induction false} SpanDistance(m: nat, n: nat)
    requires m <= n && Window(n) <= Window(m) + WINDOWS - 1
    ensures n < m + 0x1_0000
  {
  }

  /** Neither end runs away from the other. */
  lemma {:induction false} LagBounded(s: State, c: nat, ms: seq<Message>)
    requires Invariant(s, c, ms)
    ensures s.b.Last(ms) <= s.q.channels[c].sent
    ensures Window(s.q.channels[c].sent) < Window(s.b.Last(ms)) + FREE_WINDOWS
  {
    hide Sum, UnsentNumbers, Queues.Valid, First, Waits;
    LastAccepted(s.b, ms);
  }

  lemma {:induction false} LastAccepted(b: Inbox, ms: seq<Message>)
    requires b.Valid(ms)
    ensures b.Last(ms) == 0 || b.Last(ms) in b.accepted
    ensures b.Last(ms) <= Total(ms)
  {
    FirstMonotone(ms, b.done, |ms|);
    if b.done > 0 {
      var m := ms[b.done - 1];
      PiecesPositive(m);
      assert b.Last(ms) == First(ms, b.done - 1) + (m.Pieces() - 1);
      assert b.Has(b.done - 1, m.Pieces() - 1);
    }
  }

  // ---------- The full window ----------

  /**
   What keeps the sender back: as long as none of the 4096 numbers of a window is acknowledged, the window is full
   and the next one is not opened.
   */
  lemma {:induction false} FullWindowBlocks(q: Queues, c: nat, w: nat, x: Command)
    requires q.Valid() && q.Shaped() && c < |q.channels|
    requires forall n: nat | Window(n) == w :: Waits(q, c, n)
    requires x.attempts < 1 && x.sequence == Wire((w + 1) * WINDOW_SIZE)
    ensures WindowWraps(q.channels[c], x)
  {
    hide Sum, Masked, UnsentNumbers, InWindow, Between;
    var base, p := w * WINDOW_SIZE, w % WINDOWS;
    assert q.ChannelValid(c) && q.WindowCounted(c, p);
    forall n: nat | base <= n < base + WINDOW_SIZE ensures Sum(q.sentReliable, Numbered(c, n)) + Sum(q.outgoing, Numbered(c, n)) > 0 {
      assert Window(n) == w;
    }
    AllThere(q.sentReliable, q.outgoing, c, base, WINDOW_SIZE);
    forall z | z in q.sentReliable || z in q.outgoing ensures Between(c, base, WINDOW_SIZE)(z) <= InWindow(c, p)(z) {
      NumberInWindow(q, c, w, z);
    }
    SumAtMost(q.sentReliable, Between(c, base, WINDOW_SIZE), InWindow(c, p));
    SumAtMost(q.outgoing, Between(c, base, WINDOW_SIZE), InWindow(c, p));
    WireWindow((w + 1) * WINDOW_SIZE);
    WireRemainder((w + 1) * WINDOW_SIZE);
    assert (Window(x.sequence) + WINDOWS - 1) % WINDOWS == p;
  }

  lemma NumberInWindow(q: Queues, c: nat, w: nat, x: Command)
    requires q.Valid() && c < |q.channels| && (x in q.sentReliable || x in q.outgoing)
    ensures Between(c, w * WINDOW_SIZE, WINDOW_SIZE)(x) <= InWindow(c, w % WINDOWS)(x)
  {
    hide Sum, UnsentNumbers;
    assert q.CommandValid(x);
    WireWindow(x.number);
  }

  /** A number 8 windows ahead of the receiver is never sent. */
  lemma {:induction false} SendStaysNear(s: State, c: nat, ms: seq<Message>, step: SendStep, q': Queues, limit: nat)
    requires Invariant(s, c, ms) && SendNext(s.q, step, q', limit) && Opened(s.q, c, step) != {}
    ensures Window(s.q.channels[c].sent + 1) < Window(s.b.Last(ms)) + FREE_WINDOWS
  {
    hide Sum, First, Waits, WindowWraps;
    var x, sent, r := s.q.outgoing[step.i], s.q.channels[c].sent, s.b.Last(ms);
    assert s.q.outgoing[..step.i] == [];
    FirstIsNext(s.q, step.i);
    var n := sent + 1;
    if n % WINDOW_SIZE == 0 {
      NextWindow(n);
      var w := Window(sent);
      if w == Window(r) + FREE_WINDOWS - 1 {
        forall m: nat | Window(m) == w ensures Waits(s.q, c, m) {
          assert m <= sent;
          assert m !in s.acks;
        }
        FullWindowBlocks(s.q, c, w, x);
      }
    } else {
      SameWindow(n);
    }
  }

  // ---------- Arrivals ----------

  /** What arrives can be told apart from everything else, and is not too far ahead to be acknowledged. */
  lemma {:induction false} ArrivesTimely(s: State, c: nat, ms: seq<Message>, j: nat, i: nat)
    requires Invariant(s, c, ms) && j < |ms| && i < ms[j].Pieces() && First(ms, j) + i <= s.q.channels[c].sent && InAge(s, c, ms, j)
    ensures Arrivals.Timely(s.b, ms, j)
    ensures First(ms, j) + i < s.b.Last(ms) + 0x1_0000
    ensures Window(First(ms, j) + i) < Window(s.b.Last(ms)) + FREE_WINDOWS
  {
    hide Sum, UnsentNumbers, Queues.Valid, First, Waits;
    Arrivals.Bounds(s.b, ms);
    var sent, r, n := s.q.channels[c].sent, s.b.Last(ms), First(ms, j);
    LagBounded(s, c, ms);
    WindowMonotone(n + i, sent);
    WindowMonotone(r, sent);
    SpanDistance(r, sent);
    if j < s.b.done {
      FirstMonotone(ms, j, s.b.done);
      SpanDistance(n, sent);
    }
  }

  /** What is acknowledged was accepted, and is near. */
  lemma {:induction false} ArrivalAckedWell(s: State, c: nat, ms: seq<Message>, step: Step, s': State, limit: nat)
    requires Invariant(s, c, ms) && step.Arrive? && Next(s, c, ms, step, s', limit) && Told(s, c, ms, step) && step.acked
    ensures AckedWell(s'.b, ms, First(ms, step.j) + step.i)
  {
    hide Sum, UnsentNumbers, Queues.Valid, First, Waits, Suppresses;
    var j, i, b, b' := step.j, step.i, s.b, s'.b;
    var n := First(ms, j) + i;
    ArrivesTimely(s, c, ms, j, i);
    Arrivals.AckedFor(b, b', ms, j, i);
    LastGrows(b, b', ms);
    if n >= b'.Last(ms) {
      NewNumber(b'.Last(ms), n);
    } else {
      WindowMonotone(n, b'.Last(ms));
    }
    Arrivals.Bounds(b', ms);
  }

  lemma {:induction false} LastGrows(b: Inbox, b': Inbox, ms: seq<Message>)
    requires AllValid(ms) && b.done <= b'.done <= |ms|
    ensures b.Last(ms) <= b'.Last(ms) && Window(b.Last(ms)) <= Window(b'.Last(ms))
  {
    FirstMonotone(ms, b.done, b'.done);
    WindowMonotone(b.Last(ms), b'.Last(ms));
  }

  // ---------- Every step ----------

  lemma {:induction false} SenderKeeps(s: State, c: nat, ms: seq<Message>, step: Step, s': State, limit: nat)
    requires Invariant(s, c, ms) && step.Sender? && Next(s, c, ms, step, s', limit)
    ensures Invariant(s', c, ms)
  {
    hide Sum, UnsentNumbers, First, Waits, SendNext, Queues.Valid, Inbox.Valid, Acked;
    var send := step.step;
    SendNextValid(s.q, send, s'.q, limit);
    SentMoves(s.q, c, send, s'.q, limit);
    SentNumbered(s'.q, c);
    if Opened(s.q, c, send) != {} {
      SendStaysNear(s, c, ms, send, s'.q, limit);
    }
    forall n: nat | 1 <= n <= s'.q.channels[c].sent ensures Waits(s'.q, c, n) || n in s'.acks {
      WaitsMoves(s.q, c, send, s'.q, limit, n);
      if send.Acknowledge? && send.c == c {
        AckFound(s, c, ms, send, s'.q, limit);
      }
    }
  }

  lemma {:induction false} ArriveKeeps(s: State, c: nat, ms: seq<Message>, step: Step, s': State, limit: nat)
    requires Invariant(s, c, ms) && step.Arrive? && Next(s, c, ms, step, s', limit) && Told(s, c, ms, step)
    ensures Invariant(s', c, ms)
  {
    hide Sum, UnsentNumbers, First, Waits, Queues.Valid, Suppresses;
    LastGrows(s.b, s'.b, ms);
    var n := First(ms, step.j) + step.i;
    forall m: nat | m in s'.acks ensures AckedWell(s'.b, ms, m) {
      if m in s.acks {
        assert AckedWell(s.b, ms, m);
      } else {
        ArrivalAckedWell(s, c, ms, step, s', limit);
      }
    }
  }

  /** Every step keeps the invariant. */
  lemma {:induction false} NextInvariant(s: State, c: nat, ms: seq<Message>, step: Step, s': State, limit: nat)
    requires Invariant(s, c, ms) && Next(s, c, ms, step, s', limit) && (AllNarrow(ms) || Told(s, c, ms, step))
    ensures Invariant(s', c, ms)
  {
    hide Sum, UnsentNumbers, First, Waits, SendNext, Queues.Valid, Inbox.Valid, AckedWell;
    match step {
      case Sender(_) => SenderKeeps(s, c, ms, step, s', limit);
      case Ignored(_) =>
      case Arrive(_, _, _, _) =>
        if !Told(s, c, ms, step) {
          NarrowTold(s, c, ms, step, s', limit);
        }
        ArriveKeeps(s, c, ms, step, s', limit);
      case Take =>
        Arrivals.TakenConsistent(s.b, s'.b, ms);
        TakeKeeps(s, c, ms, s');
    }
  }

  lemma {:induction false} TakeKeeps(s: State, c: nat, ms: seq<Message>, s': State)
    requires Invariant(s, c, ms) && s'.q == s.q && s'.acks == s.acks && s'.b.Valid(ms)
    requires s'.b == s.b.(dispatched := s'.b.dispatched, taken := s'.b.taken)
    ensures Invariant(s', c, ms)
  {
    hide Sum, UnsentNumbers, First, Waits, Queues.Valid;
    assert s'.b.Last(ms) == s.b.Last(ms);
    forall n: nat | n in s'.acks ensures AckedWell(s'.b, ms, n) {
      assert AckedWell(s.b, ms, n);
    }
  }

  lemma {:induction false} AckFound(s: State, c: nat, ms: seq<Message>, step: SendStep, q': Queues, limit: nat)
    requires Invariant(s, c, ms) && step.Acknowledge? && step.c == c && SendNext(s.q, step, q', limit) && HonestAck(s.q, s.acks, c, step)
    ensures Acked(s.q, c, step.n, step.at, step.wasSent) && AckedNumber(s.q, step) == step.n && step.n in s.acks
  {
    hide Sum, UnsentNumbers, First, Waits, Queues.Valid, Inbox.Valid;
    AckHits(s, c, ms, step.n, step.at, step.wasSent);
  }

  /** An arrival moves the receiver's last number by at most seven windows: the unreliable queue can keep up. */
  lemma {:induction false} AdvanceBounded(s: State, c: nat, ms: seq<Message>, step: Step, s': State, limit: nat)
    requires Invariant(s, c, ms) && step.Arrive? && Next(s, c, ms, step, s', limit) && (AllNarrow(ms) || Told(s, c, ms, step))
    ensures s.b.Last(ms) <= s'.b.Last(ms)
    ensures Window(s'.b.Last(ms)) < Window(s.b.Last(ms)) + FREE_WINDOWS
  {
    hide Sum, UnsentNumbers, First, Waits, Queues.Valid, AckedWell;
    NextInvariant(s, c, ms, step, s', limit);
    LagBounded(s', c, ms);
    WindowMonotone(s'.b.Last(ms), s'.q.channels[c].sent);
    ArrivedGrows(s, c, ms, step, s', limit);
  }

  lemma {:induction false} ArrivedGrows(s: State, c: nat, ms: seq<Message>, step: Step, s': State, limit: nat)
    requires Invariant(s, c, ms) && step.Arrive? && Next(s, c, ms, step, s', limit)
    ensures s'.b.done <= |ms| && s.b.Last(ms) <= s'.b.Last(ms)
  {
    hide Sum, UnsentNumbers, First, Waits, Queues.Valid;
    LastGrows(s.b, s'.b, ms);
  }

  // ---------- Whole runs ----------

  /** From fresh ends, every step one of the above; that the steps are meaningful at all needs the invariant,
      which `RunInvariant` shows to hold throughout. */
  ghost predicate Run(run: seq<State>, steps: seq<Step>, c: nat, ms: seq<Message>, limit: nat) {
    && |run| == |steps| + 1 && AllValid(ms)
    && Initial(run[0].q) && c < |run[0].q.channels| && run[0].b == Inbox(0, [], [], 0, 0, {}) && run[0].acks == {}
    && forall k | 0 <= k < |steps| :: Invariant(run[k], c, ms) ==> Next(run[k], c, ms, steps[k], run[k + 1], limit)
  }

  /** No packet comes again so late that it is taken for a new one. */
  ghost predicate ToldRun(run: seq<State>, steps: seq<Step>, c: nat, ms: seq<Message>)
    requires AllValid(ms) && |run| == |steps| + 1
  {
    forall k | 0 <= k < |steps| :: Invariant(run[k], c, ms) ==> Told(run[k], c, ms, steps[k])
  }

  lemma {:induction false} RunInvariant(run: seq<State>, steps: seq<Step>, c: nat, ms: seq<Message>, limit: nat, k: nat)
    requires Run(run, steps, c, ms, limit) && (AllNarrow(ms) || ToldRun(run, steps, c, ms)) && k < |run|
    ensures Invariant(run[k], c, ms)
  {
    hide Next, Invariant, Told, AllNarrow;
    if k == 0 {
      InitialInvariant(run[0].q, c, ms);
    } else {
      RunInvariant(run, steps, c, ms, limit, k - 1);
      NextInvariant(run[k - 1], c, ms, steps[k - 1], run[k], limit);
    }
  }

  /**
   In every state of every run: what the receiver has put in order are the packets sent, in order and
   without gaps; every number acknowledged was accepted; and what is unacknowledged spans at most seven
   windows.
   */
  lemma {:induction false} ReliableDelivery(run: seq<State>, steps: seq<Step>, c: nat, ms: seq<Message>, limit: nat, k: nat)
    requires Run(run, steps, c, ms, limit) && (AllNarrow(ms) || ToldRun(run, steps, c, ms)) && k < |run|
    ensures c < |run[k].q.channels|
    ensures var b, sent := run[k].b, run[k].q.channels[c].sent;
            && b.taken <= b.done <= |ms|
            && |b.dispatched| == b.done - b.taken
            && (forall x | 0 <= x < |b.dispatched| :: b.dispatched[x] == ms[b.taken + x].data)
            && (forall n | n in run[k].acks :: n in b.accepted)
            && (forall n: nat | Waits(run[k].q, c, n) :: n <= sent && Window(sent) < Window(n) + FREE_WINDOWS - 1)
  {
    hide First, Sum, Waits, Queues.Valid, Next, Run, ToldRun, AllNarrow;
    RunInvariant(run, steps, c, ms, limit, k);
    var s := run[k];
    forall n | n in s.acks ensures n in s.b.accepted {
      assert AckedWell(s.b, ms, n);
    }
    forall n: nat | Waits(s.q, c, n) ensures n <= s.q.channels[c].sent && Window(s.q.channels[c].sent) < Window(n) + FREE_WINDOWS - 1 {
      WaitsInSpan(s.q, c, n);
    }
  }

  /** Once everything has been sent and acknowledged, every packet has been put in order. */
  lemma {:induction false} AllDelivered(s: State, c: nat, ms: seq<Message>)
    requires Invariant(s, c, ms) && s.q.channels[c].sent == Total(ms)
    requires forall n: nat :: !Waits(s.q, c, n)
    ensures s.b.done == |ms|
  {
    hide Sum, Waits, Queues.Valid;
    forall n: nat | 1 <= n <= Total(ms) ensures n in s.b.accepted {
      assert Waits(s.q, c, n) || AckedWell(s.b, ms, n);
    }
    if s.b.done < |ms| {
      var i := NextMissing(s.b, ms);
      FirstMonotone(ms, s.b.done, |ms|);
    }
  }

  /** A packet in one piece is acknowledged though not let in exactly when it is more than eight windows ahead: where
      the sender never is. */
  lemma {:induction false} AckedUnseen(r: nat, n: nat)
    requires r <= n < r + 0x1_0000
    ensures !Accepts(Wire(r), Wire(n)) && !Suppresses(Wire(r), Wire(n)) <==> Window(n) > Window(r) + FREE_WINDOWS
  {
    NewNumber(r, n);
  }
}
