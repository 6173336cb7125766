/** How long ENet waits for answers, over whole runs of the sending side: every timeout doubles it. */
module SendTimes {
  import opened Machine
  import opened SequenceWindows
  import opened SendQueue
  import opened SendState
  import opened SendSteps
  import opened Sender

  function Power(k: nat): nat {
    if k == 0 then 1 else 2 * Power(k - 1)
  }

  /** `first`, doubled `k` times on 32 bits. */
  function Doublings(k: nat, first: uint32): uint32 {
    Power(k) * first % WORD
  }

  lemma DoubledOnce(k: nat, first: uint32)
    ensures Doublings(k + 1, first) == Doublings(k, first) * 2 % WORD
    ensures Doublings(k + 1, first) != 0 ==> Doublings(k, first) != 0
  {
    var x := Power(k) * first;
    assert Power(k + 1) * first == 2 * x;
    assert x == x / WORD * WORD + x % WORD;
    assert 2 * x == 2 * (x / WORD) * WORD + x % WORD * 2;
    Multiple(2 * (x / WORD), x % WORD * 2);
  }

  lemma Multiple(q: nat, r: nat)
    ensures (q * WORD + r) % WORD == r % WORD
  {
  }

  /** How often a command has timed out: in flight, once less than it was sent. */
  ghost function Timeouts(z: Command, flying: bool): nat
    requires 0 < z.attempts
  {
    if flying then z.attempts - 1 else z.attempts
  }

  /** In flight, or waiting to be sent again. */
  ghost predicate Outstanding(q: Queues, z: Command, flying: bool) {
    z.reliable && 0 < z.attempts && if flying then z in q.sentReliable else z in q.outgoing
  }

  /** `y` is `z` as it was first sent. */
  ghost predicate FirstSent(step: SendStep, y: Command, z: Command) {
    step.Send? && step.y == y && y.attempts == 1 && y.channel == z.channel && y.number == z.number
  }

  /** After `k` timeouts the time to wait is 2^k times that of the first sending, and the limit still is that of the first
      sending; the 32 bits must not have run out. */
  ghost predicate TimedBy(y: Command, z: Command, k: nat) {
    Doublings(k, y.timeout) != 0 ==> z.timeout == Doublings(k, y.timeout) && z.timeoutLimit == y.timeoutLimit
  }

  ghost predicate Explained(steps: seq<SendStep>, b: nat, z: Command, k: nat) {
    exists p, y :: 0 <= p < b <= |steps| && FirstSent(steps[p], y, z) && TimedBy(y, z, k)
  }

  lemma {:induction false} ExplainedOn(steps: seq<SendStep>, b: nat, x: Command, j: nat, z: Command, k: nat)
    requires b < |steps| && Explained(steps, b, x, j) && z.channel == x.channel && z.number == x.number
    requires forall y :: TimedBy(y, x, j) ==> TimedBy(y, z, k)
    ensures Explained(steps, b + 1, z, k)
  {
    hide TimedBy;
    var p, y :| 0 <= p < b <= |steps| && FirstSent(steps[p], y, x) && TimedBy(y, x, j);
    assert FirstSent(steps[p], y, z) && TimedBy(y, z, k);
  }

  /** Where an outstanding command was one step before, unless it has just been sent or put back. */
  lemma {:induction false} StepBack(q: Queues, step: SendStep, q': Queues, limit: nat, z: Command, flying: bool)
    requires SendNext(q, step, q', limit) && Outstanding(q', z, flying)
    ensures || Outstanding(q, z, flying)
            || (flying && step.Send? && step.i < |q.outgoing| && z == step.y)
            || (!flying && step.Requeue? && step.i < |q.sentReliable| && z == step.x)
  {
    hide Queues.Valid, Queues.ChannelValid, MaySend, Sum;
    match step
    case Add(x, q1) =>
    case Drop(i) => WithoutMembers(q.outgoing, i);
    case Send(i, y) => WithoutMembers(q.outgoing, i);
    case Requeue(i, k, x) =>
      WithoutMembers(q.sentReliable, i);
      assert forall w <- Insert(q.outgoing, k, x) :: w == x || w in q.outgoing;
    case Acknowledge(_, _, at, wasSent) =>
      WithoutMembers(if wasSent then q.sentReliable else q.outgoing, at);
  }

  /** In every state of every run that starts with empty queues, every command outstanding has the times that its first
      sending and its timeouts gave it. */
  lemma {:induction false} TimesOverRuns(qs: seq<Queues>, steps: seq<SendStep>, limit: nat, b: nat, z: Command, flying: bool)
    requires Chain(qs, steps, limit) && qs[0].outgoing == qs[0].sentReliable == []
    requires b < |qs| && Outstanding(qs[b], z, flying)
    ensures Explained(steps, b, z, Timeouts(z, flying))
    decreases b
  {
    hide SendNext, Explained, TimedBy;
    if b > 0 {
      var a := b - 1;
      var q, step := qs[a], steps[a];
      assert SendNext(q, step, qs[a + 1], limit);
      StepBack(q, step, qs[b], limit, z, flying);
      if Outstanding(q, z, flying) {
        TimesOverRuns(qs, steps, limit, a, z, flying);
        ExplainedOn(steps, a, z, Timeouts(z, flying), z, Timeouts(z, flying));
      } else if flying {
        SentTimes(q, step, qs[b], limit, z);
        var x := q.outgoing[step.i];
        if x.attempts == 0 {
          JustSent(steps, a, z);
        } else {
          TimesOverRuns(qs, steps, limit, a, x, false);
          ExplainedOn(steps, a, x, Timeouts(x, false), z, Timeouts(z, true));
        }
      } else {
        PutBackTimes(q, step, qs[b], limit, z);
        var x := q.sentReliable[step.i];
        TimesOverRuns(qs, steps, limit, a, x, true);
        ExplainedOn(steps, a, x, Timeouts(x, true), z, Timeouts(z, false));
      }
    }
  }

  lemma {:induction false} SentTimes(q: Queues, step: SendStep, q': Queues, limit: nat, z: Command)
    requires SendNext(q, step, q', limit) && step.Send? && step.i < |q.outgoing| && z == step.y
    ensures var x := q.outgoing[step.i];
            && x.reliable && z.channel == x.channel && z.number == x.number && z.attempts == x.attempts + 1
            && (forall y, k: nat :: TimedBy(y, x, k) ==> TimedBy(y, z, k))
  {
    hide Queues.Valid, Doublings;
  }

  lemma {:induction false} PutBackTimes(q: Queues, step: SendStep, q': Queues, limit: nat, z: Command)
    requires SendNext(q, step, q', limit) && step.Requeue? && step.i < |q.sentReliable| && z == step.x
    ensures var x := q.sentReliable[step.i];
            && Outstanding(q, x, true) && z.channel == x.channel && z.number == x.number && z.attempts == x.attempts
            && (forall y, k: nat :: TimedBy(y, x, k) ==> TimedBy(y, z, k + 1))
  {
    hide Queues.ChannelValid, Doublings;
    var x := q.sentReliable[step.i];
    forall y, k: nat | TimedBy(y, x, k) ensures TimedBy(y, z, k + 1) {
      DoubledOnce(k, y.timeout);
    }
  }

  lemma {:induction false} JustSent(steps: seq<SendStep>, a: nat, z: Command)
    requires a < |steps| && steps[a].Send? && steps[a].y == z && z.attempts == 1
    ensures Explained(steps, a + 1, z, 0)
  {
    assert Doublings(0, z.timeout) == z.timeout;
    assert FirstSent(steps[a], z, z) && TimedBy(z, z, 0);
  }

  /** So the time to wait reaches the limit, which is so many times the first, when as many doublings have come to that. */
  lemma {:induction false} LimitReached(y: Command, z: Command, k: nat, limit: uint32)
    requires TimedBy(y, z, k) && 0 < Power(k) * y.timeout && y.timeoutLimit == limit * y.timeout % WORD
    requires Power(k) * y.timeout < WORD && limit * y.timeout < WORD
    ensures z.timeout >= z.timeoutLimit <==> Power(k) >= limit
  {
    hide Power, Doublings;
    DoublingsSmall(k, y.timeout);
    SmallProduct(limit, y.timeout);
    MulCompare(Power(k), limit, y.timeout);
  }

  lemma DoublingsSmall(k: nat, t: uint32)
    requires Power(k) * t < WORD
    ensures Doublings(k, t) == Power(k) * t
  {
    hide Power;
  }

  lemma SmallProduct(a: nat, t: nat)
    requires a * t < WORD
    ensures a * t % WORD == a * t
  {
  }

  lemma MulCompare(a: nat, b: nat, t: nat)
    requires 0 < t
    ensures a * t >= b * t <==> a >= b
  {
    if a >= b {
      MulGrows(b, a, t);
    } else {
      MulGrows(a + 1, b, t);
      MulNext(a, t);
    }
  }

  lemma MulGrows(a: nat, b: nat, t: nat)
    requires a <= b
    ensures a * t <= b * t
  {
  }

  lemma MulNext(a: nat, t: nat)
    ensures (a + 1) * t == a * t + t
  {
  }

  // ---------- Times on 32 bits ----------

  /** Of two times less than a day apart, the difference and the order on 32 bits are the true ones. */
  lemma {:induction false} TimesTrue(s: nat, t: nat)
    requires -86400000 < s - t < 86400000
    ensures TimeDifference(s % 0x1_0000_0000, t % 0x1_0000_0000) == if s < t then t - s else s - t
    ensures TimeLess(s % 0x1_0000_0000, t % 0x1_0000_0000) <==> s < t
  {
    SubTrue(s, t);
    SubTrue(t, s);
  }

  lemma {:induction false} SubTrue(s: nat, t: nat)
    requires -86400000 < s - t < 86400000
    ensures Sub(s % WORD, t % WORD) == if s < t then s - t + WORD else s - t
  {
    var d := s % WORD - t % WORD;
    assert s == s / WORD * WORD + s % WORD && t == t / WORD * WORD + t % WORD;
    var q := s / WORD - t / WORD;
    assert s - t == q * WORD + d;
  }

  // ---------- What has run out ----------

  /** What is put back is exactly what ran out, in order and with twice the time to wait, and the rest stays. */
  lemma {:induction false} RetriesConcat(a: seq<Command>, b: seq<Command>, now: uint32)
    ensures Retries(a + b, now) == Retries(a, now) + Retries(b, now)
    ensures Unexpired(a + b, now) == Unexpired(a, now) + Unexpired(b, now)
    decreases |b|
  {
    hide Expired, Doubled;
    if b == [] {
      assert a + b == a;
    } else {
      var b0 := b[..|b| - 1];
      RetriesConcat(a, b0, now);
      assert (a + b)[..|a + b| - 1] == a + b0;
    }
  }

  lemma {:induction false} RetriesOne(x: Command, now: uint32)
    ensures var out := TimeDifference(now, x.sentTime) >= x.timeout;
            && Retries([x], now) == (if out then [x.(timeout := 2 * x.timeout % WORD)] else [])
            && Unexpired([x], now) == if out then [] else [x]
  {
    assert [x][..0] == [];
  }

  /** The time noted is that of a command that ran out, or what was noted before; and if all these lie within a day and none
      is 0, none of them is before it. */
  lemma {:induction false} EarliestOf(s: seq<Command>, now: uint32, before: uint32)
    ensures var e := Earliest(s, now, before);
            e == before || exists i :: 0 <= i < |s| && Expired(s[i], now) && e == s[i].sentTime
  {
    hide Expired, TimeLess;
    if s != [] {
      EarliestOf(s[..|s| - 1], now, before);
    }
  }

  /** All times of commands that ran out, and the time noted before if there is one, are true times from `base` on, and
      within a day. */
  ghost predicate WithinDay(s: seq<Command>, now: uint32, before: uint32, base: nat) {
    && (before != 0 ==> Offset(before, base) < 86400000)
    && forall i | 0 <= i < |s| && Expired(s[i], now) :: s[i].sentTime != 0 && Offset(s[i].sentTime, base) < 86400000
  }

  /** How long after `base` a time is. */
  function Offset(time: uint32, base: nat): nat {
    (time - base) % WORD
  }

  lemma {:induction false} OffsetOrder(a: uint32, b: uint32, base: nat)
    requires Offset(a, base) < 86400000 && Offset(b, base) < 86400000
    ensures TimeLess(a, b) <==> Offset(a, base) < Offset(b, base)
  {
    var x, y := Offset(a, base), Offset(b, base);
    OffsetTrue(a, base);
    OffsetTrue(b, base);
    TimesTrue(base + x, base + y);
  }

  lemma OffsetTrue(a: uint32, base: nat)
    ensures (base + Offset(a, base)) % WORD == a
  {
    var d := a - base;
    assert d == d / WORD * WORD + d % WORD;
    var q := d / WORD;
    assert base + d % WORD == a - q * WORD;
    MultipleInt(-q, a);
  }

  lemma MultipleInt(q: int, r: uint32)
    ensures (q * WORD + r) % WORD == r
  {
  }

  lemma {:induction false} EarliestLeast(s: seq<Command>, now: uint32, before: uint32, base: nat)
    requires WithinDay(s, now, before, base)
    ensures var e := Earliest(s, now, before);
            && (e == 0 <==> before == 0 && forall i | 0 <= i < |s| :: !Expired(s[i], now))
            && (e != 0 ==> Offset(e, base) < 86400000)
            && (before != 0 ==> Offset(e, base) <= Offset(before, base))
            && forall i | 0 <= i < |s| && Expired(s[i], now) :: Offset(e, base) <= Offset(s[i].sentTime, base)
  {
    hide Expired, TimeLess, Offset;
    if s != [] {
      var n := |s| - 1;
      var s0 := s[..n];
      assert forall i | 0 <= i < n :: s0[i] == s[i];
      EarliestLeast(s0, now, before, base);
      var e := Earliest(s0, now, before);
      if Expired(s[n], now) && e != 0 {
        OffsetOrder(s[n].sentTime, e, base);
      }
    }
  }

  // ---------- The throttle ----------

  /** The counter after `k` more packets. */
  function Advanced(counter: nat, k: nat): nat {
    if k == 0 then counter else Advance(Advanced(counter, k - 1))
  }

  lemma {:induction false} AdvancedBySeven(counter: nat, k: nat)
    requires 1 <= k
    ensures Advanced(counter, k) == (counter + 7 * k) % 32
  {
    if k > 1 {
      AdvancedBySeven(counter, k - 1);
      SevenMore(counter + 7 * (k - 1));
    }
  }

  lemma SevenMore(x: nat)
    ensures (x % 32 + 7) % 32 == (x + 7) % 32
  {
  }

  lemma Rounds(x: int, r: nat, q: int)
    requires x == r + 32 * q && r < 32
    ensures x % 32 == r
  {
  }

  /** Which of the next 32 packets are dropped. */
  ghost function Misses(counter: nat, throttle: nat): set<nat> {
    set k: nat | 1 <= k <= 32 && Advanced(counter, k) > throttle
  }

  /** At a throttle of `throttle` in 32, all but `throttle + 1` of any 32 packets in a row are dropped. */
  lemma {:induction false} ThrottleShare(counter: nat, throttle: nat)
    ensures |Misses(counter, throttle)| == if throttle < 31 then 31 - throttle else 0
  {
    var over := Above(throttle);
    forall k: nat | 1 <= k <= 32 ensures Advanced(counter, k) == (counter + 7 * k) % 32 {
      AdvancedBySeven(counter, k);
    }
    var f, g := (k: nat) => (counter + 7 * k) % 32, (r: nat) => Turn(counter, r);
    forall r <- over ensures g(r) in Misses(counter, throttle) && f(g(r)) == r {
      TurnHits(counter, r);
    }
    forall k <- Misses(counter, throttle) ensures f(k) in over && g(f(k)) == k {
      TurnBack(counter, k);
    }
    SameSize(Misses(counter, throttle), over, f, g);
    CountAbove(throttle);
  }

  /** After how many packets the counter stands at `r`: 23 times 7 is 1 modulo 32. */
  function Turn(counter: nat, r: nat): nat {
    1 + (23 * (r - counter) - 1) % 32
  }

  lemma TurnHits(counter: nat, r: nat)
    requires r < 32
    ensures 1 <= Turn(counter, r) <= 32 && (counter + 7 * Turn(counter, r)) % 32 == r
  {
    var x := 23 * (r - counter) - 1;
    var k, q := Turn(counter, r), x / 32;
    assert x == q * 32 + x % 32;
    Rounds(counter + 7 * k, r, 5 * (r - counter) - 7 * q);
  }

  lemma TurnBack(counter: nat, k: nat)
    requires 1 <= k <= 32
    ensures Turn(counter, (counter + 7 * k) % 32) == k
  {
    var x := counter + 7 * k;
    var r, q := x % 32, x / 32;
    assert x == q * 32 + r;
    Rounds(23 * (r - counter) - 1, k - 1, 5 * k - 23 * q);
  }

  lemma {:induction false} SameSize(a: set<nat>, b: set<nat>, f: nat -> nat, g: nat -> nat)
    requires forall x <- a :: f(x) in b && g(f(x)) == x
    requires forall y <- b :: g(y) in a && f(g(y)) == y
    ensures |a| == |b|
    decreases a
  {
    if a == {} {
      assert forall y <- b :: g(y) in a;
    } else {
      var x :| x in a;
      SameSize(a - {x}, b - {f(x)}, f, g);
    }
  }

  predicate Exceeds(r: nat, throttle: nat) {
    throttle < r
  }

  /** The values of the counter above the throttle. */
  ghost function Above(throttle: nat): set<nat> {
    set r: nat | r < 32 && Exceeds(r, throttle)
  }

  lemma {:induction false} CountAbove(throttle: nat)
    ensures |Above(throttle)| == if throttle < 31 then 31 - throttle else 0
    decreases 32 - throttle
  {
    if throttle < 31 {
      CountAbove(throttle + 1);
      assert Above(throttle) == Above(throttle + 1) + {throttle + 1};
    } else {
      assert Above(throttle) == {};
    }
  }

  /** How many bytes may be in transit: `throttle` 32nds of the window, but at least one datagram. */
  lemma {:induction false} SendWindowIs(throttle: uint32, windowSize: uint32, mtu: nat, w: nat)
    requires throttle * windowSize < 0x1_0000_0000
    ensures w <= SendWindow(throttle, windowSize, mtu) <==> 32 * w <= throttle * windowSize || w <= mtu
  {
    var p := throttle * windowSize;
    assert Times(throttle, windowSize) == p;
    assert 32 * w <= p <==> w <= p / 32;
  }
}
