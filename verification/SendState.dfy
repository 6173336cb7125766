/**
 What ENet keeps true of a connected peer's outgoing queues and reliable windows, one step at a time.
 */
module SendState {
  import opened Machine
  import opened SequenceWindows
  import opened SendQueue

  /** The sending half of `ENetChannel`. Ghost: how many reliable numbers were given out, and the
      highest that has ever been sent. */
  datatype Channel = Channel(outgoingReliable: uint16, outgoingUnreliable: uint16,
                             reliableWindows: seq<nat>, usedWindows: seq<bool>,
                             ghost numbered: nat, ghost sent: nat)

  /** The queues of a peer, in the order the C lists have them. */
  datatype Queues = Queues(channels: seq<Channel>, outgoing: seq<Command>, sentReliable: seq<Command>, inTransit: nat) {

    /** Everything counted about channel `c`, and the seven-window limit on what is outstanding. */
    ghost predicate ChannelValid(c: nat)
      requires c < |channels|
    {
      var ch := channels[c];
      && |ch.reliableWindows| == |ch.usedWindows| == WINDOWS
      && ch.outgoingReliable == Wire(ch.numbered) && ch.sent <= ch.numbered
      && UnsentNumbers(outgoing, c) == Range(ch.sent + 1, ch.numbered)
      && (forall w | 0 <= w < WINDOWS :: WindowCounted(c, w))
      && (forall n: nat :: Sum(sentReliable, Numbered(c, n)) + Sum(outgoing, Numbered(c, n)) <= 1)
      && (forall x <- sentReliable :: InSpan(x, c))
      && (forall x <- outgoing :: InSpan(x, c))
    }

    ghost predicate WindowCounted(c: nat, w: nat)
      requires c < |channels| && w < |channels[c].reliableWindows| && w < |channels[c].usedWindows|
    {
      && channels[c].reliableWindows[w] == Sum(sentReliable, InWindow(c, w)) + Sum(outgoing, InWindow(c, w))
      && (channels[c].usedWindows[w] <==> channels[c].reliableWindows[w] > 0)
    }

    /** Outstanding commands of `c` lie in the window last sent into or the six before it. */
    ghost predicate InSpan(x: Command, c: nat)
      requires c < |channels|
    {
      x.Outstanding(c) ==> 1 <= x.number <= channels[c].sent && Window(channels[c].sent) <= Window(x.number) + FREE_WINDOWS - 2
    }

    ghost predicate CommandValid(x: Command) {
      && (x.reliable && x.channel < |channels| ==> x.hasPacket && x.sequence == Wire(x.number))
      && (!x.hasPacket ==> x.length == 0)
    }

    /** Commands waiting to be sent again come before those never sent. */
    ghost predicate RequeuedFirst() {
      forall i, j | 0 <= i < j < |outgoing| && outgoing[i].reliable && outgoing[j].reliable && outgoing[i].attempts == 0 ::
        outgoing[j].attempts == 0
    }

    ghost predicate Valid() {
      && (forall c | 0 <= c < |channels| :: ChannelValid(c))
      && (forall x <- sentReliable :: CommandValid(x) && x.reliable && x.attempts > 0)
      && (forall x <- outgoing :: CommandValid(x))
      && RequeuedFirst()
      && inTransit == Sum(sentReliable, Bytes())
    }

    /** Every channel has its window counters. */
    predicate Shaped() {
      forall c | 0 <= c < |channels| :: |channels[c].reliableWindows| == |channels[c].usedWindows| == WINDOWS
    }

    // ---------- Steps ----------

    /** A command leaves `outgoing` for good; not a reliable one. */
    ghost function Drop(i: nat): Queues
      requires i < |outgoing|
    {
      this.(outgoing := Without(outgoing, i))
    }

    /** A command goes out; `x` is what becomes of it. */
    ghost function Send(i: nat, x: Command): Queues
      requires i < |outgoing|
    {
      this.(outgoing := Without(outgoing, i), sentReliable := sentReliable + [x], inTransit := inTransit + x.length)
    }

    /** What its first sending changes about its channel. */
    ghost function Opened(x: Command): Queues
      requires x.channel < |channels|
      requires |channels[x.channel].reliableWindows| == |channels[x.channel].usedWindows| == WINDOWS
    {
      var ch, w := channels[x.channel], Window(x.sequence);
      this.(channels := channels[x.channel := ch.(
        usedWindows := ch.usedWindows[w := true],
        reliableWindows := ch.reliableWindows[w := ch.reliableWindows[w] + 1],
        sent := x.number)])
    }

    /** A command timed out: it goes back to `outgoing`, at position `k`. */
    ghost function Requeue(i: nat, k: nat, x: Command): Queues
      requires i < |sentReliable| && k <= |outgoing| && x.length <= inTransit
    {
      this.(sentReliable := Without(sentReliable, i), outgoing := Insert(outgoing, k, x), inTransit := inTransit - x.length)
    }

    /** What an acknowledgement changes about a channel. */
    ghost function Closed(c: nat, w: nat): Queues
      requires c < |channels| && w < WINDOWS
      requires |channels[c].reliableWindows| == |channels[c].usedWindows| == WINDOWS
    {
      var ch := channels[c];
      if ch.reliableWindows[w] > 0 then
        var left := ch.reliableWindows[w] - 1;
        this.(channels := channels[c := ch.(
          reliableWindows := ch.reliableWindows[w := left],
          usedWindows := if left == 0 then ch.usedWindows[w := false] else ch.usedWindows)])
      else
        this
    }

    /** A new command at the end of `outgoing`. */
    ghost function Add(x: Command): Queues {
      this.(outgoing := outgoing + [x])
    }
  }

  /** What sending leaves alone: everything but the bookkeeping of attempts and times. */
  ghost predicate SameCommand(x: Command, y: Command) {
    y == x.(attempts := y.attempts, sentTime := y.sentTime, timeout := y.timeout, timeoutLimit := y.timeoutLimit)
  }

  /** What the peer knows about the time answers take. */
  datatype Timing = Timing(roundTripTime: uint32, variance: uint32, limit: uint32)

  /** `y` is the reliable command `x` as it goes out at `now`: at its first sending it is given the time to wait, and the
      limit for that; a later sending leaves both alone. */
  ghost predicate SentAs(x: Command, y: Command, timing: Timing, now: uint32) {
    && y == x.(attempts := x.attempts + 1, sentTime := now, timeout := y.timeout, timeoutLimit := y.timeoutLimit)
    && if x.timeout == 0 then
         && y.timeout == (timing.roundTripTime + 4 * timing.variance) % WORD
         && y.timeoutLimit == timing.limit * y.timeout % WORD
       else y.timeout == x.timeout && y.timeoutLimit == x.timeoutLimit
  }

  /** `y` keeps the times that `x` has been given. */
  ghost predicate KeepsTimes(x: Command, y: Command) {
    x.timeout != 0 ==> y.timeout == x.timeout && y.timeoutLimit == x.timeoutLimit
  }

  /** A command that timed out has twice as long next time. */
  function Doubled(x: Command): Command {
    x.(timeout := x.timeout * 2 % WORD)
  }

  ghost predicate Initial(q: Queues) {
    && q.outgoing == q.sentReliable == [] && q.inTransit == 0
    && forall c | 0 <= c < |q.channels| ::
         var ch := q.channels[c];
         && ch.outgoingReliable == 0 && ch.numbered == ch.sent == 0
         && ch.reliableWindows == seq(WINDOWS, i => 0) && ch.usedWindows == seq(WINDOWS, i => false)
  }

  lemma ValidShaped(q: Queues)
    requires q.Valid()
    ensures q.Shaped()
  {
    forall c | 0 <= c < |q.channels| ensures |q.channels[c].reliableWindows| == |q.channels[c].usedWindows| == WINDOWS {
      assert q.ChannelValid(c);
    }
  }

  lemma InitialValid(q: Queues)
    requires Initial(q)
    ensures q.Valid()
  {
  }

  lemma WithoutMembers(s: seq<Command>, i: nat)
    requires i < |s|
    ensures forall x <- Without(s, i) :: x in s
  {
  }

  // ---------- Dropping ----------

  lemma DropChannel(q: Queues, i: nat, c: nat)
    requires c < |q.channels| && q.ChannelValid(c) && i < |q.outgoing| && !q.outgoing[i].reliable
    ensures q.Drop(i).ChannelValid(c)
  {
    hide Sum, UnsentNumbers;
    var q' := q.Drop(i);
    UnsentWithout(q.outgoing, i, c);
    forall w | 0 <= w < WINDOWS ensures q'.WindowCounted(c, w) {
      assert q.WindowCounted(c, w);
      SumWithout(q.outgoing, i, InWindow(c, w));
    }
    forall n: nat ensures Sum(q'.sentReliable, Numbered(c, n)) + Sum(q'.outgoing, Numbered(c, n)) <= 1 {
      SumWithout(q.outgoing, i, Numbered(c, n));
    }
    WithoutMembers(q.outgoing, i);
    forall x <- q'.outgoing ensures q'.InSpan(x, c) {
      assert q.InSpan(x, c);
    }
    forall x <- q'.sentReliable ensures q'.InSpan(x, c) {
      assert q.InSpan(x, c);
    }
  }

  lemma DropValid(q: Queues, i: nat)
    requires q.Valid() && i < |q.outgoing| && !q.outgoing[i].reliable
    ensures q.Drop(i).Valid()
  {
    forall c | 0 <= c < |q.channels| ensures q.Drop(i).ChannelValid(c) {
      DropChannel(q, i, c);
    }
    WithoutMembers(q.outgoing, i);
    assert forall x <- q.Drop(i).outgoing :: q.CommandValid(x);
  }

  lemma WithoutOrdered(q: Queues, i: nat)
    requires q.RequeuedFirst() && i < |q.outgoing|
    ensures q.(outgoing := Without(q.outgoing, i)).RequeuedFirst()
  {
    var s, s' := q.outgoing, Without(q.outgoing, i);
    assert forall j | 0 <= j < |s'| :: s'[j] == s[if j < i then j else j + 1];
  }

  // ---------- Sending ----------

  /** Moving a command from `outgoing` to the end of `sentReliable` moves its share of every count. */
  lemma SendCounts(q: Queues, i: nat, x: Command, f: Command -> nat)
    requires i < |q.outgoing|
    ensures var q' := q.Send(i, x);
            Sum(q'.sentReliable, f) + Sum(q'.outgoing, f) + f(q.outgoing[i])
            == Sum(q.sentReliable, f) + Sum(q.outgoing, f) + f(x)
  {
    SumWithout(q.outgoing, i, f);
    SumAppend(q.sentReliable, x, f);
  }

  /** Sending again, or sending off channel, changes no channel's books. */
  lemma SendAgainChannel(q: Queues, i: nat, x: Command, c: nat)
    requires c < |q.channels| && q.ChannelValid(c) && i < |q.outgoing|
    requires var y := q.outgoing[i]; y.reliable && SameCommand(y, x) && x.attempts > 0 && (y.attempts > 0 || y.channel >= |q.channels|)
    ensures q.Send(i, x).ChannelValid(c)
  {
    hide Sum, UnsentNumbers;
    var q', y := q.Send(i, x), q.outgoing[i];
    UnsentWithout(q.outgoing, i, c);
    forall w | 0 <= w < WINDOWS ensures q'.WindowCounted(c, w) {
      assert q.WindowCounted(c, w);
      SendCounts(q, i, x, InWindow(c, w));
    }
    forall n: nat ensures Sum(q'.sentReliable, Numbered(c, n)) + Sum(q'.outgoing, Numbered(c, n)) <= 1 {
      SendCounts(q, i, x, Numbered(c, n));
    }
    WithoutMembers(q.outgoing, i);
    assert q.InSpan(y, c);
    forall z <- q'.outgoing ensures q'.InSpan(z, c) {
      assert q.InSpan(z, c);
    }
    forall z <- q'.sentReliable ensures q'.InSpan(z, c) {
      assert z == x || q.InSpan(z, c);
    }
  }

  lemma SendCommands(q: Queues, i: nat, x: Command)
    requires q.Valid() && i < |q.outgoing|
    requires q.outgoing[i].reliable && SameCommand(q.outgoing[i], x) && x.attempts > 0
    ensures var q' := q.Send(i, x);
            && (forall z <- q'.sentReliable :: q.CommandValid(z) && z.reliable && z.attempts > 0)
            && (forall z <- q'.outgoing :: q.CommandValid(z))
            && q'.RequeuedFirst() && q'.inTransit == Sum(q'.sentReliable, Bytes())
  {
    WithoutMembers(q.outgoing, i);
    WithoutOrdered(q, i);
    SumAppend(q.sentReliable, x, Bytes());
    assert q.CommandValid(q.outgoing[i]);
  }

  lemma SendAgainValid(q: Queues, i: nat, x: Command)
    requires q.Valid() && i < |q.outgoing|
    requires var y := q.outgoing[i]; y.reliable && SameCommand(y, x) && x.attempts > 0 && (y.attempts > 0 || y.channel >= |q.channels|)
    ensures q.Send(i, x).Valid()
  {
    forall c | 0 <= c < |q.channels| ensures q.Send(i, x).ChannelValid(c) {
      SendAgainChannel(q, i, x, c);
    }
    SendCommands(q, i, x);
    assert forall z :: q.Send(i, x).CommandValid(z) == q.CommandValid(z);
  }

  /** What the C code checks before the first command of a window is sent: the windows that it could
      be confused with, or be too far ahead of, are unused. */
  ghost predicate WindowFree(ch: Channel, s: uint16)
    requires |ch.usedWindows| == WINDOWS
  {
    s % WINDOW_SIZE == 0 ==> forall k | 0 <= k < WINDOWS && Masked(Window(s), k) :: !ch.usedWindows[k]
  }

  /** A command can be sent for the first time only when it is the next of its channel. */
  lemma FirstIsNext(q: Queues, i: nat)
    requires q.Valid() && i < |q.outgoing|
    requires var y := q.outgoing[i];
             y.reliable && y.attempts == 0 && y.channel < |q.channels| && UnsentNumbers(q.outgoing[..i], y.channel) == []
    ensures var y := q.outgoing[i]; var ch := q.channels[y.channel];
            && y.number == ch.sent + 1 <= ch.numbered && y.sequence == Wire(y.number)
            && UnsentNumbers(Without(q.outgoing, i), y.channel) == Range(y.number + 1, ch.numbered)
  {
    var y := q.outgoing[i];
    var ch := q.channels[y.channel];
    assert q.ChannelValid(y.channel) && q.CommandValid(y);
    UnsentWithout(q.outgoing, i, y.channel);
    RangeHead(ch.sent + 1, ch.numbered, y.number, UnsentNumbers(Without(q.outgoing, i), y.channel));
  }

  /** An outstanding command keeps its window in use. */
  lemma OutstandingCounted(q: Queues, z: Command, c: nat)
    requires c < |q.channels| && q.ChannelValid(c) && z.Outstanding(c) && z.sequence == Wire(z.number)
    requires z in q.sentReliable || z in q.outgoing
    ensures q.channels[c].usedWindows[Window(z.number) % WINDOWS]
    ensures q.channels[c].reliableWindows[Window(z.number) % WINDOWS] > 0
  {
    var w := Window(z.number) % WINDOWS;
    WireWindow(z.number);
    assert q.WindowCounted(c, w);
    assert InWindow(c, w)(z) == 1;
    SumZero(q.sentReliable, InWindow(c, w));
    SumZero(q.outgoing, InWindow(c, w));
  }

  /** Sending the next number keeps what is outstanding within seven windows. */
  lemma SpanKept(q: Queues, c: nat, n: nat, z: Command)
    requires c < |q.channels| && q.ChannelValid(c) && n == q.channels[c].sent + 1 && WindowFree(q.channels[c], Wire(n))
    requires z in q.sentReliable || z in q.outgoing
    requires z.Outstanding(c) && z.sequence == Wire(z.number)
    ensures z.number < n && Window(n) <= Window(z.number) + FREE_WINDOWS - 2
  {
    assert q.InSpan(z, c);
    WireWindow(n);
    WireRemainder(n);
    if n % WINDOW_SIZE == 0 {
      OutstandingCounted(q, z, c);
      NextWindow(n);
      MaskWire(n, Window(z.number) % WINDOWS);
      MaskKeepsSpan(n, z.number);
    } else {
      SameWindow(n);
    }
  }

  /** The first sending: what it opens, and what stays. */
  lemma SendFirstChannel(q: Queues, i: nat, x: Command, c: nat)
    requires q.Valid() && c < |q.channels| && i < |q.outgoing| && q.outgoing[i].channel < |q.channels|
    requires var y := q.outgoing[i];
             && y.reliable && y.attempts == 0 && SameCommand(y, x) && x.attempts > 0
             && UnsentNumbers(q.outgoing[..i], y.channel) == []
             && q.ChannelValid(y.channel) && WindowFree(q.channels[y.channel], y.sequence)
    ensures q.Opened(x).Send(i, x).ChannelValid(c)
  {
    hide Sum, UnsentNumbers;
    var y := q.outgoing[i];
    var q' := q.Opened(x).Send(i, x);
    FirstIsNext(q, i);
    UnsentWithout(q.outgoing, i, c);
    WireWindow(x.number);
    WithoutMembers(q.outgoing, i);
    assert q.ChannelValid(c);
    forall w | 0 <= w < WINDOWS ensures q'.WindowCounted(c, w) {
      assert q.WindowCounted(c, w);
      SendCounts(q, i, x, InWindow(c, w));
    }
    forall n: nat ensures Sum(q'.sentReliable, Numbered(c, n)) + Sum(q'.outgoing, Numbered(c, n)) <= 1 {
      SendCounts(q, i, x, Numbered(c, n));
      if c == y.channel && n == x.number {
        NewNumberUncounted(q, c, n);
      }
    }
    forall z | z in q'.sentReliable || z in q'.outgoing ensures q'.InSpan(z, c) {
      if z != x && z.Outstanding(c) {
        assert q.InSpan(z, c) && q.CommandValid(z);
        if c == y.channel {
          SpanKept(q, c, x.number, z);
        }
      }
    }
  }

  lemma NewNumberUncounted(q: Queues, c: nat, n: nat)
    requires c < |q.channels| && q.ChannelValid(c) && n > q.channels[c].sent
    ensures Sum(q.sentReliable, Numbered(c, n)) == Sum(q.outgoing, Numbered(c, n)) == 0
  {
    assert forall z | z in q.sentReliable || z in q.outgoing :: q.InSpan(z, c);
    SumZero(q.sentReliable, Numbered(c, n));
    SumZero(q.outgoing, Numbered(c, n));
  }

  lemma SendFirstValid(q: Queues, i: nat, x: Command)
    requires q.Valid() && i < |q.outgoing| && q.outgoing[i].channel < |q.channels|
    requires var y := q.outgoing[i];
             && y.reliable && y.attempts == 0 && SameCommand(y, x) && x.attempts > 0
             && UnsentNumbers(q.outgoing[..i], y.channel) == []
             && q.ChannelValid(y.channel) && WindowFree(q.channels[y.channel], y.sequence)
    ensures q.Opened(x).Send(i, x).Valid()
  {
    var q' := q.Opened(x).Send(i, x);
    forall c | 0 <= c < |q.channels| ensures q'.ChannelValid(c) {
      SendFirstChannel(q, i, x, c);
    }
    SendCommands(q, i, x);
    assert forall z :: q'.CommandValid(z) == q.CommandValid(z);
  }

  // ---------- Timing out ----------

  /** Moving a command back to `outgoing` moves its share of every count. */
  lemma RequeueCounts(q: Queues, i: nat, k: nat, x: Command, f: Command -> nat)
    requires i < |q.sentReliable| && k <= |q.outgoing| && x.length <= q.inTransit
    ensures var q' := q.Requeue(i, k, x);
            Sum(q'.sentReliable, f) + Sum(q'.outgoing, f) + f(q.sentReliable[i])
            == Sum(q.sentReliable, f) + Sum(q.outgoing, f) + f(x)
  {
    SumWithout(q.sentReliable, i, f);
    SumInsert(q.outgoing, k, x, f);
  }

  lemma RequeueChannel(q: Queues, i: nat, k: nat, x: Command, c: nat)
    requires c < |q.channels| && q.ChannelValid(c) && i < |q.sentReliable| && k <= |q.outgoing| && x.length <= q.inTransit
    requires var y := q.sentReliable[i]; y.reliable && y.attempts > 0 && SameCommand(y, x) && x.attempts > 0
    ensures q.Requeue(i, k, x).ChannelValid(c)
  {
    hide Sum, UnsentNumbers;
    var q', y := q.Requeue(i, k, x), q.sentReliable[i];
    UnsentInsert(q.outgoing, k, x, c);
    forall w | 0 <= w < WINDOWS ensures q'.WindowCounted(c, w) {
      assert q.WindowCounted(c, w);
      RequeueCounts(q, i, k, x, InWindow(c, w));
    }
    forall n: nat ensures Sum(q'.sentReliable, Numbered(c, n)) + Sum(q'.outgoing, Numbered(c, n)) <= 1 {
      RequeueCounts(q, i, k, x, Numbered(c, n));
    }
    WithoutMembers(q.sentReliable, i);
    assert q.InSpan(y, c);
    forall z <- q'.sentReliable ensures q'.InSpan(z, c) {
      assert q.InSpan(z, c);
    }
    forall z <- q'.outgoing ensures q'.InSpan(z, c) {
      assert z == x || q.InSpan(z, c);
    }
  }

  /** The first `k` commands of `outgoing` have just been put there. */
  ghost predicate RequeuedUpTo(q: Queues, k: nat) {
    k <= |q.outgoing| && forall j | 0 <= j < k :: q.outgoing[j].reliable && q.outgoing[j].attempts > 0
  }

  lemma RequeueValid(q: Queues, i: nat, k: nat, x: Command)
    requires q.Valid() && i < |q.sentReliable| && RequeuedUpTo(q, k)
    requires SameCommand(q.sentReliable[i], x) && x.attempts > 0
    ensures x.length <= q.inTransit && q.Requeue(i, k, x).Valid() && RequeuedUpTo(q.Requeue(i, k, x), k + 1)
  {
    var y := q.sentReliable[i];
    SumWithout(q.sentReliable, i, Bytes());
    var q' := q.Requeue(i, k, x);
    forall c | 0 <= c < |q.channels| ensures q'.ChannelValid(c) {
      RequeueChannel(q, i, k, x, c);
    }
    WithoutMembers(q.sentReliable, i);
    assert q.CommandValid(y);
    assert forall z <- q'.outgoing :: z == x || z in q.outgoing;
    assert forall z :: q'.CommandValid(z) == q.CommandValid(z);
    InsertOrdered(q, k, x);
  }

  lemma InsertOrdered(q: Queues, k: nat, x: Command)
    requires q.RequeuedFirst() && RequeuedUpTo(q, k) && x.attempts > 0 && x.reliable
    ensures var q' := q.(outgoing := Insert(q.outgoing, k, x)); q'.RequeuedFirst() && RequeuedUpTo(q', k + 1)
  {
    var s' := Insert(q.outgoing, k, x);
    assert forall j | 0 <= j < |s'| :: s'[j] == if j < k then q.outgoing[j] else if j == k then x else q.outgoing[j - 1];
  }

  // ---------- Acknowledging ----------

  /** The peer after the command `y` has been acknowledged: the window closed, and `y` gone from
      position `i` of `sentReliable` or of `outgoing`. */
  ghost function Acknowledged(q: Queues, i: nat, wasSent: bool): (q': Queues)
    requires if wasSent then i < |q.sentReliable| else i < |q.outgoing|
    requires forall c | 0 <= c < |q.channels| :: q.ChannelValid(c)
    requires wasSent ==> q.sentReliable[i].length <= q.inTransit
  {
    var y := if wasSent then q.sentReliable[i] else q.outgoing[i];
    var q1 := if y.channel < |q.channels| then (assert q.ChannelValid(y.channel); SmallWindow(y.sequence); q.Closed(y.channel, Window(y.sequence))) else q;
    if wasSent then
      q1.(sentReliable := Without(q.sentReliable, i), inTransit := q.inTransit - y.length)
    else
      q1.(outgoing := Without(q.outgoing, i))
  }

  lemma SmallWindow(s: uint16)
    ensures Window(s) < WINDOWS
  {
  }

  lemma AckCounts(q: Queues, i: nat, wasSent: bool, f: Command -> nat)
    requires if wasSent then i < |q.sentReliable| else i < |q.outgoing|
    requires forall c | 0 <= c < |q.channels| :: q.ChannelValid(c)
    requires wasSent ==> q.sentReliable[i].length <= q.inTransit
    ensures var q', y := Acknowledged(q, i, wasSent), if wasSent then q.sentReliable[i] else q.outgoing[i];
            Sum(q'.sentReliable, f) + Sum(q'.outgoing, f) + f(y) == Sum(q.sentReliable, f) + Sum(q.outgoing, f)
  {
    if wasSent {
      SumWithout(q.sentReliable, i, f);
    } else {
      SumWithout(q.outgoing, i, f);
    }
  }

  lemma AckWindow(q: Queues, i: nat, wasSent: bool, c: nat, w: nat)
    requires q.Valid() && c < |q.channels| && w < WINDOWS
    requires if wasSent then i < |q.sentReliable| else i < |q.outgoing| && q.outgoing[i].reliable && q.outgoing[i].attempts > 0
    requires wasSent ==> q.sentReliable[i].length <= q.inTransit
    ensures var ch := Acknowledged(q, i, wasSent).channels[c];
            && |ch.reliableWindows| == |ch.usedWindows| == WINDOWS && Acknowledged(q, i, wasSent).WindowCounted(c, w)
  {
    hide Sum, UnsentNumbers;
    var y := if wasSent then q.sentReliable[i] else q.outgoing[i];
    assert q.ChannelValid(c) && q.CommandValid(y);
    assert q.WindowCounted(c, w);
    AckCounts(q, i, wasSent, InWindow(c, w));
    if y.channel == c {
      OutstandingCounted(q, y, c);
      WireWindow(y.number);
    }
  }

  lemma AckChannel(q: Queues, i: nat, wasSent: bool, c: nat)
    requires q.Valid() && c < |q.channels|
    requires if wasSent then i < |q.sentReliable| else i < |q.outgoing| && q.outgoing[i].reliable && q.outgoing[i].attempts > 0
    requires wasSent ==> q.sentReliable[i].length <= q.inTransit
    ensures Acknowledged(q, i, wasSent).ChannelValid(c)
  {
    hide Sum, UnsentNumbers;
    var q' := Acknowledged(q, i, wasSent);
    var y := if wasSent then q.sentReliable[i] else q.outgoing[i];
    assert q.ChannelValid(c) && q.CommandValid(y);
    if wasSent {
      WithoutMembers(q.sentReliable, i);
    } else {
      WithoutMembers(q.outgoing, i);
      UnsentWithout(q.outgoing, i, c);
    }
    forall w | 0 <= w < WINDOWS ensures q'.WindowCounted(c, w) {
      AckWindow(q, i, wasSent, c, w);
    }
    forall n: nat ensures Sum(q'.sentReliable, Numbered(c, n)) + Sum(q'.outgoing, Numbered(c, n)) <= 1 {
      AckCounts(q, i, wasSent, Numbered(c, n));
    }
    forall z | z in q'.sentReliable || z in q'.outgoing ensures q'.InSpan(z, c) {
      assert q.InSpan(z, c);
    }
  }

  lemma AckValid(q: Queues, i: nat, wasSent: bool)
    requires q.Valid()
    requires if wasSent then i < |q.sentReliable| else i < |q.outgoing| && q.outgoing[i].reliable && q.outgoing[i].attempts > 0
    ensures wasSent ==> q.sentReliable[i].length <= q.inTransit
    ensures Acknowledged(q, i, wasSent).Valid()
  {
    if wasSent {
      SumWithout(q.sentReliable, i, Bytes());
      WithoutMembers(q.sentReliable, i);
    } else {
      WithoutMembers(q.outgoing, i);
      WithoutOrdered(q, i);
    }
    var q' := Acknowledged(q, i, wasSent);
    forall c | 0 <= c < |q.channels| ensures q'.ChannelValid(c) {
      AckChannel(q, i, wasSent, c);
    }
    assert forall z :: q'.CommandValid(z) == q.CommandValid(z);
  }

  // ---------- Queueing ----------

  /** A new command of a channel takes its next number. */
  ghost function Numbering(q: Queues, c: nat): Queues
    requires c < |q.channels|
  {
    var ch := q.channels[c];
    q.(channels := q.channels[c := ch.(numbered := ch.numbered + 1, outgoingReliable := Wire(ch.numbered + 1),
                                       outgoingUnreliable := 0)])
  }

  lemma AddChannel(q: Queues, q1: Queues, x: Command, c: nat)
    requires q.Valid() && c < |q.channels| && x.attempts == 0
    requires if x.reliable && x.channel < |q.channels| then q1 == Numbering(q, x.channel) && x.number == q.channels[x.channel].numbered + 1
             else OnlyUnreliable(q, q1)
    ensures q1.Add(x).ChannelValid(c)
  {
    hide Sum, UnsentNumbers;
    var q' := q1.Add(x);
    assert q.ChannelValid(c);
    UnsentConcat(q.outgoing, [x], c);
    UnsentOne(x, c);
    RangeGrows(q.channels[c].sent + 1, q.channels[c].numbered);
    forall w | 0 <= w < WINDOWS ensures q'.WindowCounted(c, w) {
      assert q.WindowCounted(c, w);
      SumAppend(q.outgoing, x, InWindow(c, w));
    }
    forall n: nat ensures Sum(q'.sentReliable, Numbered(c, n)) + Sum(q'.outgoing, Numbered(c, n)) <= 1 {
      SumAppend(q.outgoing, x, Numbered(c, n));
    }
    forall z | z in q'.sentReliable || z in q'.outgoing ensures q'.InSpan(z, c) {
      assert z == x || q.InSpan(z, c);
    }
  }

  /** Only the unreliable numbering of channels may change. */
  ghost predicate OnlyUnreliable(q: Queues, q1: Queues) {
    && q1.(channels := q.channels) == q && |q1.channels| == |q.channels|
    && forall c | 0 <= c < |q.channels| :: q1.channels[c] == q.channels[c].(outgoingUnreliable := q1.channels[c].outgoingUnreliable)
  }

  lemma RangeGrows(from: nat, to: nat)
    requires from <= to + 1
    ensures Range(from, to + 1) == Range(from, to) + [to + 1]
  {
  }

  lemma AddValid(q: Queues, q1: Queues, x: Command)
    requires q.Valid() && x.attempts == 0 && q.CommandValid(x)
    requires if x.reliable && x.channel < |q.channels| then q1 == Numbering(q, x.channel) && x.number == q.channels[x.channel].numbered + 1
             else OnlyUnreliable(q, q1)
    ensures q1.Add(x).Valid()
  {
    var q' := q1.Add(x);
    forall c | 0 <= c < |q.channels| ensures q'.ChannelValid(c) {
      AddChannel(q, q1, x, c);
    }
    assert forall z :: q'.CommandValid(z) == q.CommandValid(z);
  }
}
