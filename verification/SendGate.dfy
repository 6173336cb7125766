/** When ENet holds the first command of a window back, in terms of the commands that are outstanding. */
module SendGate {
  import opened Machine
  import opened SequenceWindows
  import opened SendQueue
  import opened SendState
  import opened SendSteps

  ghost predicate Held(q: Queues, z: Command) {
    z in q.sentReliable || z in q.outgoing
  }

  /** Number `n` of channel `c` has been sent and not been acknowledged. */
  ghost predicate Unanswered(q: Queues, c: nat, n: nat) {
    exists z :: Held(q, z) && z.Outstanding(c) && z.number == n
  }

  /** So has some number of window `w`. */
  ghost predicate WindowUnanswered(q: Queues, c: nat, w: nat) {
    exists z :: Held(q, z) && z.Outstanding(c) && Window(z.number) == w
  }

  /** How many commands of channel `c` and window `w` (going round) are outstanding. */
  ghost function Total(q: Queues, f: Command -> nat): nat {
    Sum(q.sentReliable, f) + Sum(q.outgoing, f)
  }

  lemma {:induction false} TotalZero(q: Queues, f: Command -> nat)
    ensures Total(q, f) > 0 <==> exists z :: Held(q, z) && f(z) > 0
  {
    SumZero(q.sentReliable, f);
    SumZero(q.outgoing, f);
    if exists z :: Held(q, z) && f(z) > 0 {
      var z :| Held(q, z) && f(z) > 0;
    } else {
      assert forall z | z in q.sentReliable || z in q.outgoing :: Held(q, z);
    }
  }

  lemma {:induction false} AnsweredTotal(q: Queues, c: nat, n: nat)
    ensures Total(q, Numbered(c, n)) > 0 <==> Unanswered(q, c, n)
  {
    TotalZero(q, Numbered(c, n));
    assert forall z :: Numbered(c, n)(z) > 0 <==> z.Outstanding(c) && z.number == n;
  }

  /** An outstanding command, seen from the first number of the next window. */
  lemma {:induction false} HeldNear(q: Queues, c: nat, n: nat, z: Command)
    requires q.Valid() && c < |q.channels| && n == q.channels[c].sent + 1 && n % WINDOW_SIZE == 0
    requires Held(q, z) && z.Outstanding(c)
    ensures z.number < n && Window(n) <= Window(z.number) + 7 && Window(z.number) < Window(n)
    ensures Window(z.sequence) == Window(z.number) % WINDOWS
  {
    hide Sum, UnsentNumbers;
    assert q.ChannelValid(c) && q.InSpan(z, c) && q.CommandValid(z);
    NextWindow(n);
    WireWindow(z.number);
  }

  /** Of the windows that commands can be outstanding in, the mask selects the one seven back. */
  lemma MaskSeven(w: nat, v: nat)
    requires v < w <= v + 7
    ensures Masked(w, v % WINDOWS) <==> v + 7 == w
  {
    var d := w - v;
    var q, r := v / WINDOWS, v % WINDOWS;
    assert w == q * WINDOWS + (r + d);
    if r + d < WINDOWS {
      RoundOf(q, r + d);
    } else {
      assert w == (q + 1) * WINDOWS + (r + d - WINDOWS);
      RoundOf(q + 1, r + d - WINDOWS);
    }
  }

  lemma RoundOf(q: nat, r: nat)
    requires r < WINDOWS
    ensures (q * WINDOWS + r) % WINDOWS == r
  {
  }

  /** A masked window is in use just when a command is outstanding seven windows back. */
  lemma {:induction false} MaskedUse(q: Queues, c: nat, n: nat)
    requires q.Valid() && q.Shaped() && c < |q.channels| && n == q.channels[c].sent + 1 && n % WINDOW_SIZE == 0
    ensures (exists k | 0 <= k < WINDOWS && Masked(Window(Wire(n)), k) :: q.channels[c].usedWindows[k])
            <==> Window(n) >= 7 && WindowUnanswered(q, c, Window(n) - 7)
  {
    hide Sum, UnsentNumbers, Masked, Queues.Valid;
    var ch := q.channels[c];
    if k :| 0 <= k < WINDOWS && Masked(Window(Wire(n)), k) && ch.usedWindows[k] {
      var z := UsedBy(q, c, k);
      HeldNear(q, c, n, z);
      MaskWire(n, k);
      MaskSeven(Window(n), Window(z.number));
      assert Window(z.number) == Window(n) - 7;
    }
    if Window(n) >= 7 && WindowUnanswered(q, c, Window(n) - 7) {
      var z :| Held(q, z) && z.Outstanding(c) && Window(z.number) == Window(n) - 7;
      HeldNear(q, c, n, z);
      MaskSeven(Window(n), Window(z.number));
      MaskWire(n, Window(z.number) % WINDOWS);
      HeldUses(q, c, z);
    }
  }

  lemma {:induction false} UsedBy(q: Queues, c: nat, k: nat) returns (z: Command)
    requires q.Valid() && c < |q.channels| && k < WINDOWS && |q.channels[c].usedWindows| == WINDOWS && q.channels[c].usedWindows[k]
    ensures Held(q, z) && z.Outstanding(c) && Window(z.sequence) == k
  {
    hide Sum, UnsentNumbers;
    assert q.ChannelValid(c) && q.WindowCounted(c, k);
    TotalZero(q, InWindow(c, k));
    z :| Held(q, z) && InWindow(c, k)(z) > 0;
  }

  lemma {:induction false} HeldUses(q: Queues, c: nat, z: Command)
    requires q.Valid() && c < |q.channels| && |q.channels[c].usedWindows| == WINDOWS && Held(q, z) && z.Outstanding(c)
    ensures q.channels[c].usedWindows[Window(z.number) % WINDOWS]
  {
    hide Sum, UnsentNumbers;
    assert q.ChannelValid(c) && q.CommandValid(z);
    OutstandingCounted(q, z, c);
  }

  /** Every number once, if there are as many commands as numbers. */
  lemma {:induction false} NoneMissing(q: Queues, c: nat, base: nat, k: nat)
    requires forall n: nat :: Total(q, Numbered(c, n)) <= 1
    ensures Total(q, Between(c, base, k)) <= k
    ensures Total(q, Between(c, base, k)) == k ==> forall n | base <= n < base + k :: Unanswered(q, c, n)
  {
    hide Sum;
    if k > 0 {
      NoneMissing(q, c, base, k - 1);
      SumBetween(q.sentReliable, c, base, k - 1);
      SumBetween(q.outgoing, c, base, k - 1);
      AnsweredTotal(q, c, base + (k - 1));
      assert Total(q, Numbered(c, base + (k - 1))) <= 1;
    } else {
      NothingBetween(q.sentReliable, c, base);
      NothingBetween(q.outgoing, c, base);
    }
  }

  lemma {:induction false} NothingBetween(s: seq<Command>, c: nat, base: nat)
    ensures Sum(s, Between(c, base, 0)) == 0
  {
    SumZero(s, Between(c, base, 0));
  }

  /** The count of the window before is full just when all its numbers are outstanding. */
  lemma {:induction false} FullWindow(q: Queues, c: nat, n: nat)
    requires q.Valid() && q.Shaped() && c < |q.channels| && n == q.channels[c].sent + 1 && n % WINDOW_SIZE == 0
    ensures n >= WINDOW_SIZE
    ensures q.channels[c].reliableWindows[(Window(Wire(n)) + WINDOWS - 1) % WINDOWS] >= WINDOW_SIZE
            <==> forall k: nat | n - WINDOW_SIZE <= k < n :: Unanswered(q, c, k)
  {
    hide Sum, UnsentNumbers, Masked, Queues.Valid, InWindow, Between;
    assert n >= WINDOW_SIZE;
    var base, w := n - WINDOW_SIZE, Window(n) - 1;
    var p := w % WINDOWS;
    WireWindow(n);
    PreviousWindow(Window(n));
    CountedIs(q, c, p);
    forall z | Held(q, z) ensures InWindow(c, p)(z) == Between(c, base, WINDOW_SIZE)(z) {
      SameCount(q, c, n, z);
    }
    SumEqual(q.sentReliable, InWindow(c, p), Between(c, base, WINDOW_SIZE));
    SumEqual(q.outgoing, InWindow(c, p), Between(c, base, WINDOW_SIZE));
    OnceEach(q, c);
    NoneMissing(q, c, base, WINDOW_SIZE);
    if forall k: nat | base <= k < n :: Unanswered(q, c, k) {
      forall k: nat | base <= k < base + WINDOW_SIZE ensures Sum(q.sentReliable, Numbered(c, k)) + Sum(q.outgoing, Numbered(c, k)) > 0 {
        AnsweredTotal(q, c, k);
      }
      AllThere(q.sentReliable, q.outgoing, c, base, WINDOW_SIZE);
    }
  }

  lemma PreviousWindow(w: nat)
    requires w > 0
    ensures (w % WINDOWS + WINDOWS - 1) % WINDOWS == (w - 1) % WINDOWS
  {
  }

  lemma {:induction false} CountedIs(q: Queues, c: nat, p: nat)
    requires q.Valid() && c < |q.channels| && p < WINDOWS
    ensures |q.channels[c].reliableWindows| == WINDOWS && q.channels[c].reliableWindows[p] == Total(q, InWindow(c, p))
  {
    hide Sum, UnsentNumbers;
    assert q.ChannelValid(c) && q.WindowCounted(c, p);
  }

  lemma {:induction false} OnceEach(q: Queues, c: nat)
    requires q.Valid() && c < |q.channels|
    ensures forall n: nat :: Total(q, Numbered(c, n)) <= 1
  {
    hide Sum, UnsentNumbers;
    assert q.ChannelValid(c);
  }

  lemma {:induction false} SameCount(q: Queues, c: nat, n: nat, z: Command)
    requires q.Valid() && c < |q.channels| && n == q.channels[c].sent + 1 && n % WINDOW_SIZE == 0 && n >= WINDOW_SIZE
    requires Held(q, z)
    ensures InWindow(c, (Window(n) - 1) % WINDOWS)(z) == Between(c, n - WINDOW_SIZE, WINDOW_SIZE)(z)
  {
    hide Queues.Valid, Sum;
    if z.Outstanding(c) {
      HeldNear(q, c, n, z);
      NearRound(Window(n), Window(z.number));
      assert Window(z.number) == Window(n) - 1 <==> n - WINDOW_SIZE <= z.number < n;
    }
  }

  lemma NearRound(w: nat, v: nat)
    requires v < w <= v + 7
    ensures v % WINDOWS == (w - 1) % WINDOWS <==> v == w - 1
  {
  }

  lemma {:induction false} SumEqual(s: seq<Command>, f: Command -> nat, g: Command -> nat)
    requires forall x <- s :: f(x) == g(x)
    ensures Sum(s, f) == Sum(s, g)
  {
    SumAtMost(s, f, g);
    SumAtMost(s, g, f);
  }

  /**
   The next command of a channel is held back for its number if and only if it is the first of a window and either all
   4096 numbers before it are unanswered, or one of those seven windows back.
   */
  lemma {:induction false} HeldBackExactly(q: Queues, c: nat, x: Command, n: nat)
    requires q.Valid() && q.Shaped() && c < |q.channels| && n == q.channels[c].sent + 1
    requires x.attempts == 0 && x.sequence == n % 65536
    ensures WindowWraps(q.channels[c], x) <==>
            && n % 4096 == 0
            && ((forall k: nat | n - 4096 <= k < n :: Unanswered(q, c, k)) || (n / 4096 >= 7 && WindowUnanswered(q, c, n / 4096 - 7)))
  {
    hide Queues.Valid, Masked, Unanswered, WindowUnanswered;
    WireRemainder(n);
    if n % WINDOW_SIZE == 0 {
      FullWindow(q, c, n);
      MaskedUse(q, c, n);
    }
  }
}
