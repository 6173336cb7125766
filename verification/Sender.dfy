/** The sending side of an ENet peer: enet/peer.c and enet/protocol.c, over its queues. */
module Sender {
  import opened Machine
  import opened SequenceWindows
  import opened SendQueue
  import opened SendState
  import opened SendSteps
  import PeerStates

  const MAX_COMMANDS := 32
  const MAX_BUFFERS := 1 + 2 * MAX_COMMANDS
  const THROTTLE_SCALE := 32
  const THROTTLE_COUNTER := 7
  const TIME_OVERFLOW := 86400000
  const NO_CHANNEL := 0xFF
  const MAX_MTU := 4096

  function Sub(a: uint32, b: uint32): uint32 {
    (a - b) % WORD
  }

  predicate TimeLess(a: uint32, b: uint32) {
    Sub(a, b) >= TIME_OVERFLOW
  }

  function TimeDifference(a: uint32, b: uint32): uint32 {
    if Sub(a, b) >= TIME_OVERFLOW then Sub(b, a) else Sub(a, b)
  }

  function Max(a: nat, b: nat): nat {
    if a < b then b else a
  }

  /** The product of two `enet_uint32`. */
  function Times(a: uint32, b: uint32): uint32 {
    a * b % WORD
  }

  lemma FirstTimes(x: Command, clock: Timing, now: uint32)
    requires x.timeout == 0
    ensures var t := (clock.roundTripTime + 4 * clock.variance) % WORD;
            SentAs(x, x.(attempts := x.attempts + 1, timeout := t, timeoutLimit := Times(clock.limit, t), sentTime := now), clock, now)
  {
  }

  lemma LaterTimes(x: Command, clock: Timing, now: uint32)
    requires x.timeout != 0
    ensures SentAs(x, x.(attempts := x.attempts + 1, sentTime := now), clock, now)
  {
  }

  /** How many bytes may be in transit, as the throttle has it. */
  function SendWindow(throttle: uint32, windowSize: uint32, mtu: nat): nat {
    Max(Times(throttle, windowSize) / THROTTLE_SCALE, mtu)
  }

  // ---------- Dropping unreliable commands ----------

  predicate SamePair(x: Command, y: Command) {
    x.sequence == y.sequence && x.unreliableSequence == y.unreliableSequence
  }

  /** The throttle counts packets, at their first fragments. */
  predicate Throttles(x: Command) {
    x.hasPacket && x.offset == 0
  }

  function Advance(counter: nat): nat {
    (counter + THROTTLE_COUNTER) % THROTTLE_SCALE
  }

  predicate Throttled(x: Command, counter: nat, throttle: nat) {
    Throttles(x) && Advance(counter) > throttle
  }

  /** How many commands go when the throttle drops the one at `i`: it and those directly after it that
      carry the same two sequence numbers. */
  function DropRun(s: seq<Command>, i: nat): (n: nat)
    requires i < |s|
    ensures 1 <= n <= |s| - i
    decreases |s| - i
  {
    if i + 1 < |s| && SamePair(s[i], s[i + 1]) then 1 + DropRun(s, i + 1) else 1
  }

  /** No reliable command directly follows an unreliable one with the same pair of numbers. */
  ghost predicate Unconfused(s: seq<Command>) {
    forall j | 0 <= j < |s| - 1 && !s[j].reliable && s[j + 1].reliable :: !SamePair(s[j], s[j + 1])
  }

  lemma {:induction false} DropRunUnreliable(s: seq<Command>, i: nat)
    requires i < |s| && Unconfused(s) && !s[i].reliable
    ensures forall j | i <= j < i + DropRun(s, i) :: !s[j].reliable
    decreases |s| - i
  {
    if i + 1 < |s| && SamePair(s[i], s[i + 1]) {
      DropRunUnreliable(s, i + 1);
    }
  }

  /** The drop of the command at `i` takes unreliable commands only. */
  ghost predicate DropsUnreliable(s: seq<Command>, i: nat)
    requires i < |s|
  {
    forall j | i <= j < i + DropRun(s, i) :: !s[j].reliable
  }

  /** The throttle only drops unreliable commands, wherever it strikes, exactly when no reliable one
      directly follows an unreliable one with its numbers. */
  lemma DropsOnlyUnreliable(s: seq<Command>)
    ensures Unconfused(s) <==> forall i | 0 <= i < |s| && !s[i].reliable :: DropsUnreliable(s, i)
  {
    if Unconfused(s) {
      forall i | 0 <= i < |s| && !s[i].reliable ensures DropsUnreliable(s, i) {
        DropRunUnreliable(s, i);
      }
    } else {
      var j :| 0 <= j < |s| - 1 && !s[j].reliable && s[j + 1].reliable && SamePair(s[j], s[j + 1]);
      assert DropRun(s, j) == 1 + DropRun(s, j + 1);
      assert !DropsUnreliable(s, j);
    }
  }

  /** It can happen: an unsequenced command carries the pair (0, 0), and so does every 65536th reliable
      command of a channel, and no other. */
  lemma {:induction false} ReliableCommandDropped(u: Command, r: Command)
    requires u.unsequenced && u.sequence == 0 && u.unreliableSequence == 0
    requires r.reliable && r.sequence == Wire(r.number) && r.unreliableSequence == 0
    ensures DropRun([u, r], 0) == 2 <==> r.number % 0x1_0000 == 0
  {
    var s := [u, r];
    assert s[0] == u && s[1] == r;
    assert DropRun(s, 1) == 1;
  }

  // ---------- What holds commands back ----------

  /** A reliable command that must wait, whatever else is in the queue. */
  predicate Blocked(q: Queues, x: Command, limit: nat)
    requires q.Shaped()
  {
    && x.reliable
    && ((x.channel < |q.channels| && WindowWraps(q.channels[x.channel], x)) || (x.hasPacket && q.inTransit + x.length > limit))
  }

  /** An unreliable command that leaves, alone or with those that share its numbers, upsets nothing. */
  lemma LeavesValid(q: Queues, i: nat, dropped: bool, limit: nat)
    requires q.Valid() && i < |q.outgoing| && !q.outgoing[i].reliable && Unconfused(q.outgoing[i..])
    ensures var q' := Dropped(q, i, if dropped then DropRun(q.outgoing, i) else 1);
            q'.Valid() && Unconfused(q'.outgoing[i..]) && Leads(q, q', limit)
  {
    hide Queues.Valid, Unconfused, Leads;
    var m := if dropped then DropRun(q.outgoing, i) else 1;
    SuffixUnconfused(q.outgoing[i..], m);
    assert q.outgoing[i..][m..] == Dropped(q, i, m).outgoing[i..];
    if dropped {
      DropRunTail(q.outgoing, i);
      DropRunUnreliable(q.outgoing[i..], 0);
      var n := DropRun(q.outgoing, i);
      assert forall j | i <= j < i + n :: q.outgoing[j] == q.outgoing[i..][j - i];
      LeadsDropped(q, i, n, limit);
    } else {
      LeadsDropped(q, i, 1, limit);
    }
  }

  lemma {:induction false} DropRunTail(s: seq<Command>, i: nat, k: nat := 0)
    requires i + k < |s|
    ensures DropRun(s[i..], k) == DropRun(s, i + k)
    decreases |s| - k
  {
    if i + k + 1 < |s| && SamePair(s[i + k], s[i + k + 1]) {
      DropRunTail(s, i, k + 1);
    }
  }

  lemma HasPacket(q: Queues, i: nat)
    requires q.Valid() && i < |q.outgoing|
    ensures q.outgoing[i].reliable && q.outgoing[i].channel < |q.channels| ==> q.outgoing[i].hasPacket
  {
    assert q.CommandValid(q.outgoing[i]);
  }

  lemma SameBlocked(q: Queues, q': Queues, x: Command, limit: nat)
    requires q.Shaped() && Blocked(q, x, limit) && q'.channels == q.channels && q'.inTransit == q.inTransit
    ensures Blocked(q', x, limit)
  {
  }

  /** Sending more does not free what is blocked. */
  lemma StaysBlocked(q: Queues, i: nat, y: Command, x: Command, limit: nat)
    requires q.Shaped() && i < |q.outgoing| && Blocked(q, x, limit) && y.channel == q.outgoing[i].channel
    ensures Sent(q, i, y).Shaped() && Blocked(Sent(q, i, y), x, limit)
  {
    hide Masked;
    var q' := Sent(q, i, y);
    if x.channel < |q.channels| && WindowWraps(q.channels[x.channel], x) {
      var ch, ch' := q.channels[x.channel], q'.channels[x.channel];
      var p := (Window(x.sequence) + WINDOWS - 1) % WINDOWS;
      assert ch'.reliableWindows[p] >= ch.reliableWindows[p];
      assert forall k | 0 <= k < WINDOWS && ch.usedWindows[k] :: ch'.usedWindows[k];
    }
  }

  // ---------- What becomes of the queue ----------

  /** What a pass over the queue goes by: the times to wait, the time, and the throttle and its counter. */
  datatype Pass = Pass(timing: Timing, now: uint32, throttle: nat, counter: nat)

  /** A command stays in the queue, goes out as `y`, or is dropped. */
  datatype Fate = Stays | Goes(y: Command) | Drops

  /** The command at `t` has the numbers of the one before it, which was dropped. */
  ghost predicate Follows(s: seq<Command>, fates: seq<Fate>, t: nat)
    requires t < |s| && t <= |fates|
  {
    t > 0 && fates[t - 1].Drops? && SamePair(s[t - 1], s[t])
  }

  /** What the command at `t` makes of the throttle's counter. */
  ghost function Counted(s: seq<Command>, fates: seq<Fate>, t: nat, counter: nat): nat
    requires t < |s| && t < |fates|
  {
    if !s[t].reliable && Throttles(s[t]) && !fates[t].Stays? && !Follows(s, fates, t) then Advance(counter) else counter
  }

  /** The throttle's counter once the first `t` commands have been dealt with. */
  ghost function CounterAt(s: seq<Command>, fates: seq<Fate>, t: nat, counter: nat): nat
    requires t <= |s| && t <= |fates|
  {
    if t == 0 then counter else Counted(s, fates, t - 1, CounterAt(s, fates, t - 1, counter))
  }

  /**
   The fate of the command at `t` in a pass that ends at `stop`: a reliable one goes out with its times, an unreliable
   one unless the throttle drops it, and with a dropped one goes what directly follows it with its numbers.
   */
  ghost predicate Fated(s: seq<Command>, fates: seq<Fate>, t: nat, pass: Pass, stop: nat)
    requires t < |s| && t < |fates|
  {
    var x, counter := s[t], CounterAt(s, fates, t, pass.counter);
    match fates[t]
    case Stays => stop <= t || (x.reliable && !Follows(s, fates, t))
    case Goes(y) =>
      && t < stop && !Follows(s, fates, t)
      && if x.reliable then SentAs(x, y, pass.timing, pass.now) else y == x && !Throttled(x, counter, pass.throttle)
    case Drops => t < stop && (Follows(s, fates, t) || (!x.reliable && Throttled(x, counter, pass.throttle)))
  }

  ghost function Left(s: seq<Command>, fates: seq<Fate>): seq<Command>
    requires |s| == |fates|
  {
    if s == [] then []
    else
      var n := |s| - 1;
      Left(s[..n], fates[..n]) + if fates[n].Stays? then [s[n]] else []
  }

  ghost function Gone(fates: seq<Fate>): seq<Command> {
    if fates == [] then []
    else
      var n := |fates| - 1;
      Gone(fates[..n]) + if fates[n].Goes? then [fates[n].y] else []
  }

  /** Every command of `s` had its fate: `left` stayed and `moved` went out, in order, and the rest was dropped. */
  ghost predicate Passed(s: seq<Command>, fates: seq<Fate>, pass: Pass, stop: nat, left: seq<Command>, moved: seq<Command>, counter: nat) {
    && |fates| == |s| && left == Left(s, fates) && moved == Gone(fates)
    && (forall t | 0 <= t < |s| :: Fated(s, fates, t, pass, stop))
    && counter == CounterAt(s, fates, |s|, pass.counter)
  }

  /** The command at `i` left the queue `s`: it went out as `one`, or was dropped with those that share its numbers. */
  ghost predicate Went(s: seq<Command>, i: nat, s': seq<Command>, one: seq<Command>, pass: Pass, counter': nat)
    requires i < |s|
  {
    var x := s[i];
    && counter' == (if !x.reliable && Throttles(x) then Advance(pass.counter) else pass.counter)
    && if one != [] then
         && |one| == 1 && s' == Without(s, i)
         && if x.reliable then SentAs(x, one[0], pass.timing, pass.now) else one[0] == x && !Throttled(x, pass.counter, pass.throttle)
       else
         !x.reliable && Throttled(x, pass.counter, pass.throttle) && s' == s[..i] + s[i + DropRun(s, i)..]
  }

  lemma WentReliable(s: seq<Command>, i: nat, s': seq<Command>, y: Command, pass: Pass)
    requires i < |s| && s[i].reliable && SentAs(s[i], y, pass.timing, pass.now) && s' == Without(s, i)
    ensures Went(s, i, s', [y], pass, pass.counter) && SameCommand(s[i], y)
  {
    hide Without;
  }

  /** One turn at position `i`: the command there stays, or leaves. */
  ghost predicate Turned(s: seq<Command>, i: nat, s': seq<Command>, next: nat, one: seq<Command>, full: bool, pass: Pass, counter': nat)
    requires i < |s|
  {
    if full then next == i && s' == s && one == [] && counter' == pass.counter
    else if next == i + 1 then s[i].reliable && s' == s && one == [] && counter' == pass.counter
    else next == i && Went(s, i, s', one, pass, counter')
  }

  /** A run of commands that share their numbers ends where the numbers change. */
  lemma {:induction false} DropRunPairs(s: seq<Command>, i: nat)
    requires i < |s|
    ensures var n := DropRun(s, i);
            && (forall j | i < j < i + n :: SamePair(s[j - 1], s[j]))
            && (i + n < |s| ==> !SamePair(s[i + n - 1], s[i + n]))
    decreases |s| - i
  {
    hide SamePair;
    if i + 1 < |s| && SamePair(s[i], s[i + 1]) {
      DropRunPairs(s, i + 1);
    }
  }

  /** What has been decided stays decided. */
  lemma {:induction false} CounterKept(s: seq<Command>, fates: seq<Fate>, more: seq<Fate>, t: nat, counter: nat)
    requires t <= |s| && t <= |fates|
    ensures CounterAt(s, fates + more, t, counter) == CounterAt(s, fates, t, counter)
    ensures t < |s| ==> Follows(s, fates + more, t) == Follows(s, fates, t)
  {
    hide SamePair, Throttles, Advance;
    if t > 0 {
      CounterKept(s, fates, more, t - 1, counter);
      assert (fates + more)[t - 1] == fates[t - 1];
    }
  }

  lemma {:induction false} FatedKept(s: seq<Command>, fates: seq<Fate>, more: seq<Fate>, t: nat, pass: Pass, stop: nat)
    requires t < |s| && t < |fates| && Fated(s, fates, t, pass, stop)
    ensures Fated(s, fates + more, t, pass, stop)
  {
    hide CounterAt, Follows, Throttled, SentAs;
    CounterKept(s, fates, more, t, pass.counter);
    assert (fates + more)[t] == fates[t];
  }

  /** Where the loop stands: of `s`, the commands from `t` on are still to be looked at, from position `i`. */
  ghost predicate Halfway(s: seq<Command>, fates: seq<Fate>, pass: Pass, now: seq<Command>, i: nat, moved: seq<Command>, counter: nat) {
    var t := |fates|;
    && t <= |s| && i <= |now| && now[i..] == s[t..] && now[..i] == Left(s[..t], fates) && moved == Gone(fates)
    && (forall k | 0 <= k < t :: Fated(s, fates, k, pass, |s|))
    && counter == CounterAt(s, fates, t, pass.counter)
    && (t < |s| ==> !Follows(s, fates, t))
  }

  lemma {:induction false} HalfwayStart(s: seq<Command>, pass: Pass)
    ensures Halfway(s, [], pass, s, 0, [], pass.counter)
  {
    assert s[..0] == [] && s[0..] == s;
  }

  /** A pass as it goes on at the counter reached. */
  ghost function At(pass: Pass, counter: nat): Pass {
    pass.(counter := counter)
  }

  lemma LeftOn(s: seq<Command>, t: nat, fates: seq<Fate>, f: Fate)
    requires |fates| == t < |s|
    ensures Left(s[..t + 1], fates + [f]) == Left(s[..t], fates) + if f.Stays? then [s[t]] else []
    ensures Gone(fates + [f]) == Gone(fates) + if f.Goes? then [f.y] else []
  {
    assert s[..t + 1][..t] == s[..t] && (fates + [f])[..t] == fates;
  }

  /** One command more stays or goes. */
  lemma {:induction false} HalfwayOne(s: seq<Command>, fates: seq<Fate>, pass: Pass, now: seq<Command>, i: nat, moved: seq<Command>,
                                      counter: nat, f: Fate, counter': nat)
    requires Halfway(s, fates, pass, now, i, moved, counter) && i < |now| && !f.Drops?
    requires f.Stays? ==> now[i].reliable && counter' == counter
    requires f.Goes? ==> && counter' == (if !now[i].reliable && Throttles(now[i]) then Advance(counter) else counter)
                         && if now[i].reliable then SentAs(now[i], f.y, pass.timing, pass.now)
                            else f.y == now[i] && !Throttled(now[i], counter, pass.throttle)
    ensures var now', i' := if f.Stays? then now else Without(now, i), if f.Stays? then i + 1 else i;
            Halfway(s, fates + [f], pass, now', i', moved + if f.Goes? then [f.y] else [], counter')
  {
    hide SentAs, Throttled, Throttles, Advance, SamePair;
    var t, fates' := |fates|, fates + [f];
    assert now[i] == now[i..][0] == s[t];
    LeftOn(s, t, fates, f);
    CounterKept(s, fates, [f], t, pass.counter);
    assert fates'[t] == f;
    forall k | 0 <= k < t ensures Fated(s, fates', k, pass, |s|) {
      FatedKept(s, fates, [f], k, pass, |s|);
    }
    assert now[i..][1..] == now[i + 1..] && s[t..][1..] == s[t + 1..];
    if f.Stays? {
      assert now[..i + 1] == now[..i] + [now[i]];
    } else {
      assert Without(now, i)[..i] == now[..i] && Without(now, i)[i..] == now[i + 1..];
    }
  }

  function AllDropped(n: nat): (fates: seq<Fate>)
    ensures |fates| == n && forall k | 0 <= k < n :: fates[k] == Drops
  {
    if n == 0 then [] else AllDropped(n - 1) + [Drops]
  }

  /** Nothing stays or goes out of a run of dropped commands. */
  lemma {:induction false} DropsLeave(s: seq<Command>, t: nat, fates: seq<Fate>, n: nat)
    requires |fates| == t && t + n <= |s|
    ensures Left(s[..t + n], fates + AllDropped(n)) == Left(s[..t], fates)
    ensures Gone(fates + AllDropped(n)) == Gone(fates)
  {
    hide Left, Gone;
    if n == 0 {
      assert fates + AllDropped(0) == fates;
    } else {
      var most := fates + AllDropped(n - 1);
      DropsLeave(s, t, fates, n - 1);
      assert fates + AllDropped(n) == most + [Drops];
      LeftOn(s, t + n - 1, most, Drops);
    }
  }

  /** The first of them is counted, and no other. */
  lemma {:induction false} DropsCount(s: seq<Command>, fates: seq<Fate>, t: nat, n: nat, counter: nat)
    requires t < |s| && 1 <= n && t + n <= |fates| && t + n <= |s|
    requires forall k | t <= k < t + n :: fates[k] == Drops
    requires !Follows(s, fates, t) && !s[t].reliable && Throttles(s[t])
    requires forall k | t < k < t + n :: SamePair(s[k - 1], s[k])
    ensures CounterAt(s, fates, t + n, counter) == Advance(CounterAt(s, fates, t, counter))
    decreases n
  {
    hide SamePair, Throttles, Advance;
    if n > 1 {
      DropsCount(s, fates, t, n - 1, counter);
      assert Follows(s, fates, t + n - 1);
    }
  }

  lemma {:induction false} HalfwayDrop(s: seq<Command>, fates: seq<Fate>, pass: Pass, now: seq<Command>, i: nat, moved: seq<Command>, counter: nat)
    requires Halfway(s, fates, pass, now, i, moved, counter) && i < |now|
    requires !now[i].reliable && Throttled(now[i], counter, pass.throttle)
    ensures Halfway(s, fates + AllDropped(DropRun(now, i)), pass, now[..i] + now[i + DropRun(now, i)..], i, moved, Advance(counter))
  {
    hide SamePair, Advance, DropRun, SentAs, CounterAt, Left, Gone, Throttles;
    var t, n := |fates|, DropRun(now, i);
    var more := AllDropped(n);
    var fates', now' := fates + more, now[..i] + now[i + n..];
    assert now[i] == now[i..][0] == s[t];
    DropRunTail(now, i);
    DropRunTail(s, t);
    DropRunPairs(s, t);
    DropsLeave(s, t, fates, n);
    CounterKept(s, fates, more, t, pass.counter);
    assert forall k | t <= k < t + n :: fates'[k] == Drops;
    DropsCount(s, fates', t, n, pass.counter);
    forall k | 0 <= k < t + n ensures Fated(s, fates', k, pass, |s|) {
      if k < t {
        FatedKept(s, fates, more, k, pass, |s|);
      } else if k > t {
        assert Follows(s, fates', k);
      }
    }
    assert now'[..i] == now[..i] && now'[i..] == now[i + n..] == now[i..][n..] == s[t..][n..] == s[t + n..];
  }

  lemma {:induction false} HalfwayOn(s: seq<Command>, fates: seq<Fate>, pass: Pass, now: seq<Command>, i: nat, moved: seq<Command>,
                                     counter: nat, now': seq<Command>, next: nat, one: seq<Command>, full: bool, counter': nat)
    returns (fates': seq<Fate>)
    requires Halfway(s, fates, pass, now, i, moved, counter) && i < |now|
    requires Turned(now, i, now', next, one, full, At(pass, counter), counter')
    ensures Halfway(s, fates', pass, now', next, moved + one, counter')
  {
    hide Halfway, SentAs, Throttles, Advance, DropRun;
    if full {
      fates' := fates;
      assert moved + one == moved;
    } else if next == i + 1 {
      fates' := fates + [Stays];
      HalfwayOne(s, fates, pass, now, i, moved, counter, Stays, counter');
    } else if one != [] {
      fates' := fates + [Goes(one[0])];
      assert one == [one[0]];
      HalfwayOne(s, fates, pass, now, i, moved, counter, Goes(one[0]), counter');
    } else {
      fates' := fates + AllDropped(DropRun(now, i));
      HalfwayDrop(s, fates, pass, now, i, moved, counter);
      assert moved + one == moved;
    }
  }

  lemma StopAt(s: seq<Command>, fates: seq<Fate>, pass: Pass, now: seq<Command>, i: nat, moved: seq<Command>, counter: nat)
    requires Halfway(s, fates, pass, now, i, moved, counter)
    ensures 0 <= |s| - (|now| - i) <= |s| && (i < |now| ==> s[|s| - (|now| - i)] == now[i])
  {
    assert |now[i..]| == |s[|fates|..]|;
    assert i < |now| ==> now[i] == now[i..][0];
  }

  /** Where the loop ends, what has not been looked at stays. */
  lemma {:induction false} HalfwayEnd(s: seq<Command>, fates: seq<Fate>, pass: Pass, now: seq<Command>, i: nat, moved: seq<Command>, counter: nat)
    returns (fates': seq<Fate>)
    requires Halfway(s, fates, pass, now, i, moved, counter)
    ensures Passed(s, fates', pass, |s| - (|now| - i), now, moved, counter)
  {
    var t := |fates|;
    assert |s| - (|now| - i) == t by {
      assert |now[i..]| == |s[t..]|;
    }
    fates' := RestStays(s, fates, pass, now[..i], moved, counter, |s| - t);
    assert s[..t + (|s| - t)] == s && now[..i] + s[t..] == now[..i] + now[i..] == now;
  }

  lemma {:induction false} RestStays(s: seq<Command>, fates: seq<Fate>, pass: Pass, left: seq<Command>, moved: seq<Command>, counter: nat, n: nat)
    returns (fates': seq<Fate>)
    requires |fates| + n <= |s| && left == Left(s[..|fates|], fates) && moved == Gone(fates)
    requires forall k | 0 <= k < |fates| :: Fated(s, fates, k, pass, |s|)
    requires counter == CounterAt(s, fates, |fates|, pass.counter)
    ensures |fates'| == |fates| + n && Left(s[..|fates| + n], fates') == left + s[|fates|..|fates| + n] && Gone(fates') == moved
    ensures forall k | 0 <= k < |fates'| :: Fated(s, fates', k, pass, |fates|)
    ensures counter == CounterAt(s, fates', |fates'|, pass.counter)
    decreases n
  {
    hide Fated, Follows, Counted, Left, Gone;
    var t := |fates|;
    if n == 0 {
      fates' := fates;
      assert left + s[t..t] == left;
      forall k | 0 <= k < t ensures Fated(s, fates, k, pass, t) {
        FatedEarlier(s, fates, k, pass, |s|, t);
      }
    } else {
      var most := RestStays(s, fates, pass, left, moved, counter, n - 1);
      fates' := most + [Stays];
      LeftOn(s, t + n - 1, most, Stays);
      CounterKept(s, most, [Stays], t + n - 1, pass.counter);
      StaysCount(s, fates', t + n - 1, pass, t);
      forall k | 0 <= k < t + n ensures Fated(s, fates', k, pass, t) {
        if k < t + n - 1 {
          FatedKept(s, most, [Stays], k, pass, t);
        }
      }
      assert left + s[t..t + n] == left + s[t..t + n - 1] + [s[t + n - 1]];
    }
  }

  lemma FatedEarlier(s: seq<Command>, fates: seq<Fate>, k: nat, pass: Pass, stop: nat, stop': nat)
    requires k < |s| && k < |fates| && k < stop && k < stop' && Fated(s, fates, k, pass, stop)
    ensures Fated(s, fates, k, pass, stop')
  {
    hide Follows, CounterAt, SentAs, Throttled;
  }

  lemma StaysCount(s: seq<Command>, fates: seq<Fate>, k: nat, pass: Pass, stop: nat)
    requires k < |s| && k < |fates| && stop <= k && fates[k] == Stays
    ensures Fated(s, fates, k, pass, stop) && Counted(s, fates, k, CounterAt(s, fates, k, pass.counter)) == CounterAt(s, fates, k, pass.counter)
  {
    hide Follows, CounterAt, SentAs, Throttled;
  }

  /** Where no reliable command directly follows an unreliable one with its numbers, none is dropped. */
  lemma {:induction false} NoneReliableDropped(s: seq<Command>, fates: seq<Fate>, pass: Pass, stop: nat, t: nat)
    requires |fates| == |s| && t < |s| && Unconfused(s) && s[t].reliable
    requires forall k | 0 <= k < |s| :: Fated(s, fates, k, pass, stop)
    ensures !fates[t].Drops?
    decreases t
  {
    hide SamePair, Throttled, SentAs, CounterAt;
    assert Fated(s, fates, t, pass, stop);
    if t > 0 {
      if s[t - 1].reliable {
        NoneReliableDropped(s, fates, pass, stop, t - 1);
      } else {
        assert !SamePair(s[t - 1], s[t - 1 + 1]);
      }
    }
  }

  /** Where nothing reliable is dropped, none is lost, and what goes out is as reliable as it was. */
  lemma {:induction false} FatesConserve(s: seq<Command>, fates: seq<Fate>, n: nat)
    requires |fates| == |s| && n <= |s|
    requires forall t | 0 <= t < |s| :: (s[t].reliable ==> !fates[t].Drops?) && (fates[t].Goes? ==> SameCommand(s[t], fates[t].y))
    ensures |ReliableOnes(s[..n])| == |ReliableOnes(Left(s[..n], fates[..n]))| + |ReliableOnes(Gone(fates[..n]))|
  {
    if n > 0 {
      var a, f := s[..n - 1], fates[..n - 1];
      FatesConserve(s, fates, n - 1);
      assert s[..n] == a + [s[n - 1]] && fates[..n] == f + [fates[n - 1]];
      LeftOn(s, n - 1, f, fates[n - 1]);
      OnesAppend(a, [s[n - 1]]);
      var x, y := if fates[n - 1].Stays? then [s[n - 1]] else [], if fates[n - 1].Goes? then [fates[n - 1].y] else [];
      OnesAppend(Left(a, f), x);
      OnesAppend(Gone(f), y);
      JustOne([s[n - 1]]);
      JustOne(x);
      JustOne(y);
    }
  }

  /** No reliable command is lost or sent twice. */
  lemma {:induction false} PassConserves(s: seq<Command>, fates: seq<Fate>, pass: Pass, stop: nat, left: seq<Command>, moved: seq<Command>, counter: nat)
    requires Passed(s, fates, pass, stop, left, moved, counter) && Unconfused(s)
    ensures |ReliableOnes(s)| == |ReliableOnes(left)| + |ReliableOnes(moved)|
  {
    hide ReliableOnes, Unconfused, Follows, CounterAt, Left, Gone, Throttled;
    forall t | 0 <= t < |s|
      ensures (s[t].reliable ==> !fates[t].Drops?) && (fates[t].Goes? ==> SameCommand(s[t], fates[t].y))
    {
      assert Fated(s, fates, t, pass, stop);
      if s[t].reliable {
        NoneReliableDropped(s, fates, pass, stop, t);
      }
    }
    FatesConserve(s, fates, |s|);
    assert s[..|s|] == s && fates[..|s|] == fates;
  }

  // ---------- What timed out ----------

  predicate Expired(x: Command, now: uint32) {
    TimeDifference(now, x.sentTime) >= x.timeout
  }

  /** When the oldest attempt still unanswered was made, once the commands `s` have been looked at; 0 for none. */
  function Earliest(s: seq<Command>, now: uint32, before: uint32): uint32 {
    if s == [] then before
    else
      var e, x := Earliest(s[..|s| - 1], now, before), s[|s| - 1];
      if Expired(x, now) && (e == 0 || TimeLess(x.sentTime, e)) then x.sentTime else e
  }

  lemma {:induction false} EarliestStep(s: seq<Command>, t: nat, now: uint32, before: uint32)
    requires t < |s|
    ensures Earliest(s[..t + 1], now, before) ==
      var e := Earliest(s[..t], now, before);
      if Expired(s[t], now) && (e == 0 || TimeLess(s[t].sentTime, e)) then s[t].sentTime else e
  {
    hide Expired, TimeLess;
    assert s[..t + 1][..t] == s[..t];
  }

  /** The commands of `s` that expired, ready to be sent again; in order. */
  function Retries(s: seq<Command>, now: uint32): seq<Command> {
    if s == [] then []
    else Retries(s[..|s| - 1], now) + if Expired(s[|s| - 1], now) then [Doubled(s[|s| - 1])] else []
  }

  function Unexpired(s: seq<Command>, now: uint32): seq<Command> {
    if s == [] then []
    else Unexpired(s[..|s| - 1], now) + if Expired(s[|s| - 1], now) then [] else [s[|s| - 1]]
  }

  /** The first `t` commands of `from.sentReliable` have been looked at; `k` had expired and `i` had not. */
  ghost predicate LookedAt(from: Queues, q: Queues, t: nat, i: nat, k: nat, now: uint32) {
    && t <= |from.sentReliable| && k <= |q.outgoing| && i <= |q.sentReliable|
    && var seen := from.sentReliable[..t];
       && q.sentReliable == Unexpired(seen, now) + from.sentReliable[t..] && |Unexpired(seen, now)| == i
       && q.outgoing == Retries(seen, now) + from.outgoing && |Retries(seen, now)| == k
  }

  lemma LookAtNext(from: Queues, q: Queues, t: nat, i: nat, k: nat, now: uint32)
    requires LookedAt(from, q, t, i, k, now) && i < |q.sentReliable|
    ensures t < |from.sentReliable| && q.sentReliable[i] == from.sentReliable[t]
    ensures var x := q.sentReliable[i];
            if Expired(x, now) then
              forall q': Queues ::
                q'.sentReliable == Without(q.sentReliable, i) && q'.outgoing == Insert(q.outgoing, k, Doubled(x)) ==>
                LookedAt(from, q', t + 1, i, k + 1, now)
            else
              LookedAt(from, q, t + 1, i + 1, k, now)
  {
    hide Expired;
    var s := from.sentReliable;
    var x := q.sentReliable[i];
    var seen, more := s[..t], s[..t + 1];
    assert t < |s| && x == s[t] && more[..t] == seen && more[t] == x && s[t..] == [x] + s[t + 1..];
    if Expired(x, now) {
      assert Without(q.sentReliable, i) == Unexpired(more, now) + s[t + 1..];
      assert Insert(q.outgoing, k, Doubled(x)) == Retries(more, now) + from.outgoing;
    } else {
      assert q.sentReliable == Unexpired(more, now) + s[t + 1..];
    }
  }

  lemma NoneLookedAt(q: Queues, now: uint32)
    ensures LookedAt(q, q, 0, 0, 0, now) && RequeuedUpTo(q, 0)
  {
  }

  lemma AllLookedAt(from: Queues, q: Queues, t: nat, i: nat, k: nat, now: uint32)
    requires LookedAt(from, q, t, i, k, now) && i == |q.sentReliable|
    ensures q.sentReliable == Unexpired(from.sentReliable, now)
    ensures q.outgoing == Retries(from.sentReliable, now) + from.outgoing && k == |Retries(from.sentReliable, now)|
    ensures t == |from.sentReliable|
  {
    assert from.sentReliable[..t] == from.sentReliable;
  }

  lemma TriedAgain(q: Queues, i: nat, k: nat)
    requires q.Valid() && i < |q.sentReliable| && q.sentReliable[i].attempts > 0 && k <= |q.outgoing| && RequeuedUpTo(q, k)
    ensures var y := Doubled(q.sentReliable[i]);
            && y.length == q.sentReliable[i].length <= q.inTransit
            && q.Requeue(i, k, y).Valid() && RequeuedUpTo(q.Requeue(i, k, y), k + 1)
            && SendNext(q, Requeue(i, k, y), q.Requeue(i, k, y), 0)
  {
    hide Queues.Valid;
    RequeueValid(q, i, k, Doubled(q.sentReliable[i]));
    ValidShaped(q);
  }

  function ReliableOnes(s: seq<Command>): seq<Command> {
    if s == [] then []
    else ReliableOnes(s[..|s| - 1]) + if s[|s| - 1].reliable then [s[|s| - 1]] else []
  }

  function UnreliableOnes(s: seq<Command>): seq<Command> {
    if s == [] then []
    else UnreliableOnes(s[..|s| - 1]) + if !s[|s| - 1].reliable && s[|s| - 1].hasPacket then [s[|s| - 1]] else []
  }

  ghost predicate AllReliable(s: seq<Command>) {
    forall x <- s :: x.reliable
  }

  /** Lengths stay far below the wrap-around of the 16-bit comparison. */
  ghost predicate Sized(s: seq<Command>) {
    forall x <- s :: x.size + x.length < 0x1_0000 && (!x.hasPacket ==> x.length == 0)
  }

  lemma NothingMoved(s: seq<Command>, shelves: Shelves)
    ensures shelves.Moved([], shelves) && ReliableOnes([]) == [] && AllReliable(s[..0]) && s[0..] == s == s[..|s|]
  {
  }

  lemma JustOne(one: seq<Command>)
    requires |one| <= 1
    ensures ReliableOnes(one) == if one != [] && one[0].reliable then one else []
    ensures UnreliableOnes(one) == if one != [] && !one[0].reliable && one[0].hasPacket then one else []
  {
    if one != [] {
      assert one[..|one| - 1] == [];
      assert [one[0]] == one;
    }
  }

  lemma OnesAppend(s: seq<Command>, one: seq<Command>)
    requires |one| <= 1
    ensures ReliableOnes(s + one) == ReliableOnes(s) + ReliableOnes(one)
    ensures UnreliableOnes(s + one) == UnreliableOnes(s) + UnreliableOnes(one)
  {
    if one == [] {
      assert s + one == s;
    } else {
      assert (s + one)[..|s + one| - 1] == s && one[..0] == [];
    }
  }

  lemma SuffixUnconfused(s: seq<Command>, k: nat)
    requires k <= |s| && Unconfused(s)
    ensures Unconfused(s[k..])
  {
    var t := s[k..];
    forall j | 0 <= j < |t| - 1 && !t[j].reliable && t[j + 1].reliable ensures !SamePair(t[j], t[j + 1]) {
      var m := k + j;
      assert t[j] == s[m] && t[j + 1] == s[m + 1];
    }
  }

  lemma Numbers(q: Queues, c: nat)
    requires q.Valid() && c < |q.channels|
    ensures q.channels[c].outgoingReliable == Wire(q.channels[c].numbered)
  {
    assert q.ChannelValid(c);
  }

  lemma AllSent(q: Queues)
    requires q.Valid()
    ensures forall i | 0 <= i < |q.sentReliable| :: q.sentReliable[i].reliable && q.sentReliable[i].attempts > 0
  {
    assert forall i | 0 <= i < |q.sentReliable| :: q.sentReliable[i] in q.sentReliable;
  }

  lemma NoneRequeuedAfter(q: Queues, at: nat)
    requires q.Valid() && at < |q.outgoing| && q.outgoing[at].reliable && q.outgoing[at].attempts == 0
    ensures forall j | at <= j < |q.outgoing| && q.outgoing[j].reliable :: q.outgoing[j].attempts == 0
  {
    assert q.RequeuedFirst();
  }

  /** The datagram an ENet host is filling. */
  class Host {
    var serviceTime: uint32
    var commands: seq<Command>
    var bufferCount: nat
    var packetSize: nat
    var continueSending: bool

    predicate Fits(mtu: nat)
      reads `commands, `bufferCount, `packetSize
    {
      |commands| <= MAX_COMMANDS && bufferCount <= MAX_BUFFERS && packetSize <= mtu
    }

    /** Whether a command does not fit any more; the comparison of lengths is on 16 bits. */
    predicate Full(size: nat, hasPacket: bool, length: nat, mtu: nat)
      reads `commands, `bufferCount, `packetSize
      requires Fits(mtu)
    {
      || |commands| >= MAX_COMMANDS
      || bufferCount + 1 >= MAX_BUFFERS
      || mtu - packetSize < size
      || (hasPacket && (mtu - packetSize) % 0x1_0000 < (size + length) % 0x1_0000)
    }

    method Append(x: Command, mtu: nat)
      requires mtu <= MAX_MTU && Fits(mtu) && !Full(x.size, x.hasPacket, x.length, mtu)
      requires x.size + x.length < 0x1_0000 && (!x.hasPacket ==> x.length == 0)
      modifies this
      ensures Fits(mtu) && commands == old(commands) + [x] && serviceTime == old(serviceTime)
      ensures packetSize == old(packetSize) + x.size + x.length
      ensures continueSending == old(continueSending)
    {
      bufferCount := bufferCount + 1;
      packetSize := packetSize + x.size;
      commands := commands + [x];
      if x.hasPacket {
        bufferCount := bufferCount + 1;
        packetSize := packetSize + x.length;
      }
    }
  }

  /** Where sent commands are put: into the datagram, and by kind. */
  datatype Shelves = Shelves(commands: seq<Command>, reliable: seq<Command>, unreliable: seq<Command>) {
    /** `moved` was put on them, each command where it belongs. */
    ghost predicate Moved(moved: seq<Command>, to: Shelves) {
      && to.commands == commands + moved
      && to.reliable == reliable + ReliableOnes(moved)
      && to.unreliable == unreliable + UnreliableOnes(moved)
    }
  }

  lemma MovedOn(a: Shelves, b: Shelves, c: Shelves, s: seq<Command>, one: seq<Command>)
    requires a.Moved(s, b) && b.Moved(one, c) && |one| <= 1
    ensures a.Moved(s + one, c) && ReliableOnes(s + one) == ReliableOnes(s) + ReliableOnes(one)
  {
    hide ReliableOnes, UnreliableOnes;
    OnesAppend(s, one);
  }

  class Peer {
    var state: PeerStates.State
    var channels: seq<Channel>
    var outgoing: seq<Command>
    var sentReliable: seq<Command>
    var sentUnreliable: seq<Command>
    var reliableDataInTransit: nat
    var outgoingReliable: uint16
    var outgoingUnsequencedGroup: uint16
    var packetThrottle: uint32
    var packetThrottleCounter: nat
    var windowSize: uint32
    var mtu: nat
    var roundTripTime: uint32
    var roundTripTimeVariance: uint32
    var timeoutLimit: uint32
    var timeoutMinimum: uint32
    var timeoutMaximum: uint32
    var earliestTimeout: uint32
    var nextTimeout: uint32
    var packetsLost: nat
    var packetsSent: nat

    ghost function View(): Queues
      reads `channels, `outgoing, `sentReliable, `reliableDataInTransit
    {
      Queues(channels, outgoing, sentReliable, reliableDataInTransit)
    }

    /** `nextTimeout` is when the oldest command in flight runs out. */
    ghost predicate TimerValid()
      reads `sentReliable, `nextTimeout
    {
      sentReliable != [] ==> nextTimeout == (sentReliable[0].sentTime + sentReliable[0].timeout) % WORD
    }

    ghost predicate Valid()
      reads `channels, `outgoing, `sentReliable, `reliableDataInTransit, `nextTimeout
    {
      |channels| <= NO_CHANNEL && View().Valid() && TimerValid()
    }

    /** `enet_peer_setup_outgoing_command`: number a new command and queue it. */
    method SetupOutgoingCommand(command: Command)
      requires Valid() && (command.channel < |channels| || command.channel == NO_CHANNEL)
      requires (command.reliable && command.channel < |channels| ==> command.hasPacket) && (!command.hasPacket ==> command.length == 0)
      modifies `channels, `outgoing, `outgoingReliable, `outgoingUnsequencedGroup
      ensures Valid() && |channels| == |old(channels)|
      ensures |outgoing| == |old(outgoing)| + 1 && outgoing[..|old(outgoing)|] == old(outgoing)
      ensures var x := outgoing[|old(outgoing)|]; var c := command.channel;
              && x.reliable == command.reliable && x.unsequenced == command.unsequenced && x.channel == c
              && x.hasPacket == command.hasPacket && x.offset == command.offset && x.length == command.length
              && x.size == command.size && x.attempts == 0 && x.timeout == 0
              && (command.reliable && c < |old(channels)| ==>
                    x.number == old(channels)[c].numbered + 1 == channels[c].numbered && x.sequence == Wire(x.number))
              && (c == NO_CHANNEL ==> x.sequence == (old(outgoingReliable) + 1) % 0x1_0000)
              && (command.reliable || command.unsequenced || c == NO_CHANNEL ==> x.unreliableSequence == 0)
              && (!command.reliable && command.unsequenced && c < |old(channels)| ==> x.sequence == 0)
              && (!command.reliable && !command.unsequenced && c < |old(channels)| ==>
                    x.sequence == Wire(channels[c].numbered) && x.unreliableSequence == channels[c].outgoingUnreliable)
      ensures SendNext(old(View()), Add(outgoing[|old(outgoing)|], View().(outgoing := old(outgoing))), View(), 0)
      ensures outgoingReliable == if command.channel == NO_CHANNEL then (old(outgoingReliable) + 1) % 0x1_0000 else old(outgoingReliable)
      ensures outgoingUnsequencedGroup ==
                if command.channel != NO_CHANNEL && !command.reliable && command.unsequenced then (old(outgoingUnsequencedGroup) + 1) % 0x1_0000
                else old(outgoingUnsequencedGroup)
      ensures var c := command.channel;
              if c >= |old(channels)| || (!command.reliable && command.unsequenced) then channels == old(channels)
              else if command.reliable then View().channels == Numbering(old(View()), c).channels
              else
                channels == old(channels)[c := old(channels)[c].(outgoingUnreliable :=
                  if command.offset == 0 then (old(channels)[c].outgoingUnreliable + 1) % 0x1_0000
                  else old(channels)[c].outgoingUnreliable)]
    {
      hide Queues.Valid;
      ghost var q := View();
      var x := command.(attempts := 0, sentTime := 0, timeout := 0, timeoutLimit := 0);
      if command.channel == NO_CHANNEL {
        outgoingReliable := (outgoingReliable + 1) % 0x1_0000;
        x := x.(sequence := outgoingReliable, unreliableSequence := 0);
      } else if command.reliable {
        var ch := channels[command.channel];
        Numbers(q, command.channel);
        x := x.(sequence := (ch.outgoingReliable + 1) % 0x1_0000, unreliableSequence := 0, number := ch.numbered + 1);
        channels := channels[command.channel := ch.(outgoingReliable := x.sequence, outgoingUnreliable := 0, numbered := x.number)];
      } else if command.unsequenced {
        outgoingUnsequencedGroup := (outgoingUnsequencedGroup + 1) % 0x1_0000;
        x := x.(sequence := 0, unreliableSequence := 0);
      } else {
        var ch := channels[command.channel];
        Numbers(q, command.channel);
        if command.offset == 0 {
          ch := ch.(outgoingUnreliable := (ch.outgoingUnreliable + 1) % 0x1_0000);
          channels := channels[command.channel := ch];
        }
        x := x.(sequence := ch.outgoingReliable, unreliableSequence := ch.outgoingUnreliable);
      }
      ValidShaped(q);
      AddValid(q, View(), x);
      outgoing := outgoing + [x];
    }

    /** What this peer knows about the time answers take. */
    ghost function Clock(): Timing
      reads `roundTripTime, `roundTripTimeVariance, `timeoutLimit
    {
      Timing(roundTripTime, roundTripTimeVariance, timeoutLimit)
    }

    /** What a pass over the queue goes by now. */
    ghost function PassNow(host: Host): Pass
      reads `roundTripTime, `roundTripTimeVariance, `timeoutLimit, `packetThrottle, `packetThrottleCounter, host`serviceTime
    {
      Pass(Clock(), host.serviceTime, packetThrottle, packetThrottleCounter)
    }

    /** The first sending of a command is entered in the books of its channel. */
    method OpenWindow(x: Command)
      requires View().Shaped()
      modifies `channels
      ensures View() == if Opens(old(View()), x) then old(View()).Opened(x) else old(View())
    {
      hide Masked, UnsentNumbers, Sum;
      if x.channel < |channels| && x.attempts < 1 {
        SmallWindow(x.sequence);
        var ch, w := channels[x.channel], x.sequence / WINDOW_SIZE;
        channels := channels[x.channel := ch.(usedWindows := ch.usedWindows[w := true],
                                              reliableWindows := ch.reliableWindows[w := ch.reliableWindows[w] + 1],
                                              sent := x.number)];
      }
    }

    /** A reliable command goes out: the books of its channel at its first sending, its attempts and
        times, and its place at the end of `sentReliable`. */
    method SendReliable(i: nat, serviceTime: uint32) returns (y: Command)
      requires View().Shaped() && i < |outgoing| && outgoing[i].reliable
      modifies `channels, `outgoing, `sentReliable, `reliableDataInTransit, `nextTimeout
      ensures SentAs(old(outgoing[i]), y, Clock(), serviceTime)
      ensures View() == Sent(old(View()), i, y)
      ensures old(TimerValid()) ==> TimerValid()
    {
      hide Masked, UnsentNumbers, Sum, SameCommand, SentAs, Times;
      var x := outgoing[i];
      y := x;
      OpenWindow(x);
      y := y.(attempts := y.attempts + 1);
      if x.timeout == 0 {
        FirstTimes(x, Clock(), serviceTime);
      } else {
        LaterTimes(x, Clock(), serviceTime);
      }
      if y.timeout == 0 {
        y := y.(timeout := (roundTripTime + 4 * roundTripTimeVariance) % WORD);
        y := y.(timeoutLimit := Times(timeoutLimit, y.timeout));
      }
      if |sentReliable| == 0 {
        nextTimeout := (serviceTime + y.timeout) % WORD;
      }
      outgoing := outgoing[..i] + outgoing[i + 1..];
      y := y.(sentTime := serviceTime);
      sentReliable := sentReliable + [y];
      reliableDataInTransit := reliableDataInTransit + y.length;
    }

    /** The throttle drops the unreliable command at `i` and those that share its numbers. */
    method DropUnreliable(i: nat)
      requires i < |outgoing|
      modifies `outgoing
      ensures outgoing == old(outgoing)[..i] + old(outgoing)[i + DropRun(old(outgoing), i)..]
    {
      ghost var s0, n := outgoing, 0;
      var first := outgoing[i];
      while true
        invariant i < |outgoing| && n < DropRun(s0, i) && outgoing == s0[..i] + s0[i + n..]
        invariant DropRun(s0, i) == n + DropRun(s0, i + n) && SamePair(first, s0[i + n])
        decreases |outgoing|
      {
        outgoing := outgoing[..i] + outgoing[i + 1..];
        n := n + 1;
        if i == |outgoing| {
          break;
        }
        if outgoing[i].sequence != first.sequence || outgoing[i].unreliableSequence != first.unreliableSequence {
          break;
        }
      }
    }

    /** An unreliable command goes out, unless the throttle drops it. */
    method SendUnreliable(i: nat) returns (dropped: bool)
      requires i < |outgoing|
      modifies `outgoing, `sentUnreliable, `packetThrottleCounter
      ensures dropped <==> Throttled(old(outgoing[i]), old(packetThrottleCounter), packetThrottle)
      ensures packetThrottleCounter == if Throttles(old(outgoing[i])) then Advance(old(packetThrottleCounter)) else old(packetThrottleCounter)
      ensures dropped ==> sentUnreliable == old(sentUnreliable)
      ensures dropped ==> outgoing == old(outgoing)[..i] + old(outgoing)[i + DropRun(old(outgoing), i)..]
      ensures !dropped ==> outgoing == Without(old(outgoing), i)
      ensures !dropped ==> sentUnreliable == old(sentUnreliable) + if old(outgoing[i]).hasPacket then [old(outgoing[i])] else []
    {
      var x := outgoing[i];
      if x.hasPacket && x.offset == 0 {
        packetThrottleCounter := packetThrottleCounter + THROTTLE_COUNTER;
        packetThrottleCounter := packetThrottleCounter % THROTTLE_SCALE;
        if packetThrottleCounter > packetThrottle {
          DropUnreliable(i);
          return true;
        }
      }
      outgoing := outgoing[..i] + outgoing[i + 1..];
      if x.hasPacket {
        sentUnreliable := sentUnreliable + [x];
      }
      dropped := false;
    }

    /** Whether the command at `i` must stay in the queue for now. */
    method Gate(i: nat, wrapped: bool, exceeded: bool) returns (wrap: bool, exceed: bool, skip: bool)
      requires View().Shaped() && i < |outgoing| && outgoing[i].reliable
      ensures var x := outgoing[i];
              && (wrap <==> wrapped || (x.channel < |channels| && WindowWraps(channels[x.channel], x)))
              && (exceed <==> exceeded || (x.hasPacket && !(x.channel < |channels| && wrap)
                                           && reliableDataInTransit + x.length > SendWindow(packetThrottle, windowSize, mtu)))
              && (skip <==> (x.channel < |channels| && wrap) || (x.hasPacket && exceed))
      ensures (wrap && !wrapped) || (exceed && !exceeded) ==>
                skip && Blocked(View(), outgoing[i], SendWindow(packetThrottle, windowSize, mtu))
      ensures !skip && Opens(View(), outgoing[i]) ==> !wrap && !WindowWraps(channels[outgoing[i].channel], outgoing[i])
      ensures !skip && outgoing[i].hasPacket ==>
                !exceed && reliableDataInTransit + outgoing[i].length <= SendWindow(packetThrottle, windowSize, mtu)
    {
      var x := outgoing[i];
      wrap, exceed := wrapped, exceeded;
      if x.channel < |channels| {
        if !wrap && WindowWraps(channels[x.channel], x) {
          wrap := true;
        }
        if wrap {
          return wrap, exceed, true;
        }
      }
      if x.hasPacket {
        if !exceed {
          if reliableDataInTransit + x.length > SendWindow(packetThrottle, windowSize, mtu) {
            exceed := true;
          }
        }
        if exceed {
          return wrap, exceed, true;
        }
      }
      skip := false;
    }

    /** Nothing wrong so far, and no drop from position `i` on can go wrong. */
    ghost predicate Good(i: nat)
      reads `channels, `outgoing, `sentReliable, `reliableDataInTransit, `nextTimeout
      requires i <= |outgoing|
    {
      Valid() && Unconfused(outgoing[i..])
    }

    /** One of the commands left behind is blocked. */
    ghost predicate Stuck(i: nat, limit: nat)
      reads `channels, `outgoing, `sentReliable, `reliableDataInTransit
      requires i <= |outgoing| && View().Shaped()
    {
      exists b | 0 <= b < i :: Blocked(View(), outgoing[b], limit)
    }

    /** The command at `i`, perhaps with some directly after it, has left the queue. */
    twostate predicate Advanced(i: nat)
      reads `outgoing
    {
      && i <= |outgoing| < |old(outgoing)|
      && outgoing[..i] == old(outgoing)[..i]
      && outgoing[i..] == old(outgoing)[|old(outgoing)| - (|outgoing| - i)..]
    }

    /** `SendReliable`, and what it keeps. */
    method PutReliable(i: nat, serviceTime: uint32, ghost limit: nat) returns (y: Command)
      requires View().Shaped() && i < |outgoing| && outgoing[i].reliable
      requires Valid() ==> MaySend(View(), i, limit)
      modifies `channels, `outgoing, `sentReliable, `reliableDataInTransit, `nextTimeout
      ensures View().Shaped() && Advanced(i)
      ensures old(Good(i)) ==> Good(i)
      ensures old(Good(i)) ==> SendNext(old(View()), Send(i, y), View(), limit)
      ensures forall limit :: old(Stuck(i, limit)) ==> Stuck(i, limit)
      ensures SentAs(old(outgoing[i]), y, Clock(), serviceTime) && sentReliable == old(sentReliable) + [y]
      ensures outgoing == Without(old(outgoing), i)
      ensures reliableDataInTransit == old(reliableDataInTransit) + y.length
    {
      hide Queues.Valid, WindowWraps, UnsentNumbers, Unconfused, Blocked, DropRun;
      ghost var q := View();
      y := SendReliable(i, serviceTime);
      if old(Good(i)) {
        SendNextValid(q, Send(i, y), View(), limit);
        SuffixUnconfused(q.outgoing[i..], 1);
        assert q.outgoing[i..][1..] == outgoing[i..];
      }
      forall z, limit | Blocked(q, z, limit) ensures Blocked(View(), z, limit) {
        StaysBlocked(q, i, y, z, limit);
      }
    }

    /** `SendUnreliable`, and what it keeps. */
    method PutUnreliable(i: nat, ghost limit: nat, ghost pass: Pass) returns (moved: seq<Command>)
      requires View().Shaped() && i < |outgoing| && !outgoing[i].reliable
      requires pass.throttle == packetThrottle && pass.counter == packetThrottleCounter
      modifies `outgoing, `sentUnreliable, `packetThrottleCounter
      ensures View().Shaped() && Advanced(i)
      ensures old(Good(i)) ==> Good(i)
      ensures old(Good(i)) ==> Leads(old(View()), View(), limit)
      ensures forall limit :: old(Stuck(i, limit)) ==> Stuck(i, limit)
      ensures moved == [] || moved == [old(outgoing[i])]
      ensures Went(old(outgoing), i, outgoing, moved, pass, packetThrottleCounter)
      ensures sentUnreliable == old(sentUnreliable) + UnreliableOnes(moved)
    {
      hide Queues.Valid, WindowWraps, UnsentNumbers, Unconfused, Blocked, DropRun, Leads;
      ghost var q := View();
      var x := outgoing[i];
      var dropped := SendUnreliable(i);
      if old(Good(i)) {
        LeavesValid(q, i, dropped, limit);
      }
      forall z, limit | Blocked(q, z, limit) ensures Blocked(View(), z, limit) {
        SameBlocked(q, View(), z, limit);
      }
      moved := if dropped then [] else [x];
      JustOne(moved);
    }

    /** Where sent commands are put. */
    ghost function Stock(host: Host): Shelves
      reads host`commands, `sentReliable, `sentUnreliable
    {
      Shelves(host.commands, sentReliable, sentUnreliable)
    }

    ghost predicate DoesNotFit(host: Host, x: Command)
      reads `mtu, host`commands, host`bufferCount, host`packetSize
    {
      host.Fits(mtu) && host.Full(x.size, x.hasPacket, x.length, mtu)
    }

    /** The command at `i` goes out and into the datagram, or is dropped. */
    method Transmit(host: Host, i: nat, ghost limit: nat) returns (moved: seq<Command>)
      requires View().Shaped() && i < |outgoing| && Sized(outgoing[i..]) && mtu <= MAX_MTU && host.Fits(mtu)
      requires var x := outgoing[i]; !host.Full(x.size, x.hasPacket, x.length, mtu)
      requires outgoing[i].reliable && Valid() ==> MaySend(View(), i, limit)
      modifies host, `channels, `outgoing, `sentReliable, `sentUnreliable, `reliableDataInTransit, `nextTimeout,
               `packetThrottleCounter, `packetsSent
      ensures View().Shaped() && i <= |outgoing| < |old(outgoing)| && outgoing[..i] == old(outgoing)[..i]
      ensures Sized(outgoing[i..])
      ensures old(Good(i)) ==> Good(i)
      ensures old(Good(i)) ==> Leads(old(View()), View(), limit)
      ensures forall limit :: old(Stuck(i, limit)) ==> Stuck(i, limit)
      ensures host.Fits(mtu) && |moved| <= 1 && old(Stock(host)).Moved(moved, Stock(host))
      ensures reliableDataInTransit == old(reliableDataInTransit) +
                if old(outgoing[i]).reliable && old(outgoing[i]).hasPacket then old(outgoing[i]).length else 0
      ensures packetsSent == old(packetsSent) + |moved|
      ensures !old(outgoing[i]).reliable ==> ReliableOnes(moved) == []
      ensures old(outgoing[i]).reliable ==> |ReliableOnes(moved)| == 1
      ensures Went(old(outgoing), i, outgoing, moved, old(PassNow(host)), packetThrottleCounter)
      ensures host.continueSending == old(host.continueSending) && host.serviceTime == old(host.serviceTime)
    {
      hide Queues.Valid, Queues.Shaped, WindowWraps, Opens, Good, Stuck, Host.Full, ReliableOnes, UnreliableOnes, Went, SentAs,
        MaySend;
      ghost var s, pass := outgoing, PassNow(host);
      var x := outgoing[i];
      assert x == outgoing[i..][0];
      if x.reliable {
        ghost var q, good := View(), Good(i);
        var y := PutReliable(i, host.serviceTime, limit);
        if good {
          LeadsByOne(q, Send(i, y), View(), limit);
        }
        moved := [y];
        WentReliable(s, i, outgoing, y, pass);
      } else {
        moved := PutUnreliable(i, limit, pass);
      }
      JustOne(moved);
      if moved != [] {
        host.Append(moved[0], mtu);
        packetsSent := packetsSent + 1;
      }
    }

    /** What passes the gate may go out. */
    lemma GatePassed(i: nat, wrap: bool, exceed: bool, limit: nat)
      requires i < |outgoing| && outgoing[i].reliable && Valid() && View().Shaped() && (i > 0 ==> wrap || exceed)
      requires var x := outgoing[i];
               && (x.channel < |channels| ==> !wrap && !WindowWraps(channels[x.channel], x))
               && (x.hasPacket ==> !exceed && reliableDataInTransit + x.length <= limit)
      ensures MaySend(View(), i, limit)
    {
      hide Queues.Valid, WindowWraps;
      HasPacket(View(), i);
    }

    lemma GoodAtFirst()
      ensures Valid() && Unconfused(outgoing) ==> Good(0)
    {
      hide Queues.Valid, Unconfused;
      assert outgoing[0..] == outgoing;
    }

    lemma NoneWrong(i: nat)
      requires i <= |outgoing|
      ensures Good(i) ==> Valid()
      ensures i == |outgoing| ==> outgoing[..i] == outgoing
    {
      hide Queues.Valid, Unconfused;
    }

    /** A command stays behind, because it is blocked or because an earlier one is. */
    lemma Skipped(i: nat, limit: nat)
      requires i < |outgoing| && View().Shaped() && outgoing[i].reliable && AllReliable(outgoing[..i]) && Sized(outgoing[i..])
      ensures AllReliable(outgoing[..i + 1]) && Sized(outgoing[i + 1..])
      ensures Good(i) ==> Good(i + 1)
      ensures Stuck(i, limit) || Blocked(View(), outgoing[i], limit) ==> Stuck(i + 1, limit)
    {
      hide Queues.Valid, Queues.Shaped, Blocked, Unconfused;
      var s, t := outgoing[i..], outgoing[..i + 1];
      assert t == outgoing[..i] + [outgoing[i]];
      assert s[1..] == outgoing[i + 1..];
      if Good(i) {
        SuffixUnconfused(s, 1);
      }
    }

    /** The loop has reached position `i`: what is left before it is reliable and stuck. */
    ghost predicate Reached(i: nat, stuck: bool, limit: nat)
      reads `channels, `outgoing, `sentReliable, `reliableDataInTransit
    {
      && i <= |outgoing| && View().Shaped() && Sized(outgoing[i..]) && AllReliable(outgoing[..i])
      && if stuck then Stuck(i, limit) else i == 0
    }

    lemma ReachedAtFirst(limit: nat)
      requires View().Shaped() && Sized(outgoing)
      ensures Reached(0, false, limit)
    {
      assert outgoing[0..] == outgoing && outgoing[..0] == [];
    }

    lemma ReachedAtEnd(i: nat, stuck: bool, limit: nat)
      requires Reached(i, stuck, limit)
      ensures View().Shaped()
      ensures i == |outgoing| ==> outgoing == [] || (AllReliable(outgoing) && Stuck(|outgoing|, limit))
    {
      hide Stuck, Sized, AllReliable, Queues.Shaped;
      assert i == |outgoing| ==> outgoing[..i] == outgoing;
    }

    /** One turn of the loop over `outgoing`. */
    method Turn(host: Host, i: nat, wrapped: bool, exceeded: bool)
      returns (next: nat, wrap: bool, exceed: bool, full: bool, tried: bool, one: seq<Command>)
      requires i < |outgoing| && mtu <= MAX_MTU && host.Fits(mtu)
      requires Reached(i, wrapped || exceeded, SendWindow(packetThrottle, windowSize, mtu))
      modifies host, `channels, `outgoing, `sentReliable, `sentUnreliable, `reliableDataInTransit, `nextTimeout,
               `packetThrottleCounter, `packetsSent
      ensures host.Fits(mtu) && next <= |outgoing| && packetsSent == old(packetsSent) + |one|
      ensures Reached(next, wrap || exceed, SendWindow(packetThrottle, windowSize, mtu))
      ensures full || |outgoing| - next < |old(outgoing)| - i
      ensures old(Good(i)) ==> Good(next) && Leads(old(View()), View(), SendWindow(packetThrottle, windowSize, mtu))
      ensures |one| <= 1 && old(Stock(host)).Moved(one, Stock(host))
      ensures !tried ==> ReliableOnes(one) == []
      ensures reliableDataInTransit <= Max(old(reliableDataInTransit), SendWindow(packetThrottle, windowSize, mtu))
      ensures tried ==> full || ReliableOnes(one) != []
      ensures Turned(old(outgoing), i, outgoing, next, one, full, old(PassNow(host)), packetThrottleCounter)
      ensures host.continueSending == (full || old(host.continueSending)) && host.serviceTime == old(host.serviceTime)
      ensures full ==> next < |outgoing| && DoesNotFit(host, outgoing[next])
    {
      hide Queues.Valid, Queues.Shaped, WindowWraps, Blocked, Opens, Good, Stuck, ReliableOnes, UnreliableOnes,
        SendWindow, Host.Full, Host.Fits, AllReliable, Sized, Valid, Leads, MaySend;
      ghost var limit := SendWindow(packetThrottle, windowSize, mtu);
      NothingMoved(outgoing, Stock(host));
      LeadsNowhere(View(), limit);
      next, wrap, exceed, full, tried, one := i, wrapped, exceeded, false, false, [];
      var x := outgoing[i];
      if x.reliable {
        var skip;
        wrap, exceed, skip := Gate(i, wrap, exceed);
        if skip {
          Skipped(i, limit);
          next := i + 1;
          return;
        }
        tried := true;
      }
      if host.Full(x.size, x.hasPacket, x.length, mtu) {
        host.continueSending := true;
        full := true;
        return;
      }
      if x.reliable && Valid() {
        GatePassed(i, wrap, exceed, limit);
      }
      one := Transmit(host, i, limit);
    }

    /**
     `enet_protocol_check_outgoing_commands`: move what may go from `outgoing` into the datagram. What is
     left afterwards is reliable and stuck behind a command that is blocked, unless the datagram is full. If
     `drained`, everything has been sent and acknowledged, and `enet_peer_disconnect` is due.
     */
    method CheckOutgoingCommands(host: Host)
      returns (canPing: bool, drained: bool, moved: seq<Command>, ghost fates: seq<Fate>, ghost stop: nat)
      requires View().Shaped() && Sized(outgoing) && mtu <= MAX_MTU && host.Fits(mtu)
      modifies host, `channels, `outgoing, `sentReliable, `sentUnreliable, `reliableDataInTransit, `nextTimeout,
               `packetThrottleCounter, `packetsSent
      ensures old(Valid()) && old(Unconfused(outgoing)) ==>
                Valid() && Leads(old(View()), View(), SendWindow(packetThrottle, windowSize, mtu))
      ensures View().Shaped() && host.Fits(mtu) && old(Stock(host)).Moved(moved, Stock(host))
      ensures packetsSent == old(packetsSent) + |moved|
      ensures reliableDataInTransit <= Max(old(reliableDataInTransit), SendWindow(packetThrottle, windowSize, mtu))
      ensures drained <==> state == PeerStates.DisconnectLater && outgoing == sentReliable == sentUnreliable == []
      ensures canPing ==> ReliableOnes(moved) == []
      ensures !canPing ==> ReliableOnes(moved) != [] || stop < |old(outgoing)|
      ensures Passed(old(outgoing), fates, old(PassNow(host)), stop, outgoing, moved, packetThrottleCounter)
      ensures stop <= |old(outgoing)| && host.continueSending == (stop < |old(outgoing)| || old(host.continueSending))
      ensures stop < |old(outgoing)| ==> DoesNotFit(host, old(outgoing)[stop])
      ensures stop < |old(outgoing)| || outgoing == [] ||
              (AllReliable(outgoing) && Stuck(|outgoing|, SendWindow(packetThrottle, windowSize, mtu)))
    {
      hide Queues.Valid, Queues.Shaped, Good, Stuck, ReliableOnes, UnreliableOnes, SendWindow, Host.Fits, AllReliable,
        Sized, Valid, Shelves.Moved, Leads, Halfway, Turned, Passed, Unconfused, DoesNotFit, Blocked, Host.Full, TimerValid, Reached;
      ghost var s, pass := outgoing, PassNow(host);
      ghost var limit := SendWindow(packetThrottle, windowSize, mtu);
      var i: nat, wrap, exceed, full := 0, false, false, false;
      canPing, drained, moved, fates := true, false, [], [];
      NothingMoved(outgoing, Stock(host));
      GoodAtFirst();
      ReachedAtFirst(limit);
      ghost var q0, good := View(), Good(0);
      LeadsNowhere(q0, limit);
      HalfwayStart(s, pass);
      while i < |outgoing| && !full
        invariant i <= |outgoing| && Reached(i, wrap || exceed, limit)
        invariant good ==> Good(i) && Leads(q0, View(), limit)
        invariant host.Fits(mtu) && old(Stock(host)).Moved(moved, Stock(host))
        invariant packetsSent == old(packetsSent) + |moved|
        invariant reliableDataInTransit <= Max(old(reliableDataInTransit), limit)
        invariant canPing ==> ReliableOnes(moved) == []
        invariant !canPing ==> ReliableOnes(moved) != [] || full
        invariant Halfway(s, fates, pass, outgoing, i, moved, packetThrottleCounter) && host.serviceTime == pass.now
        invariant host.continueSending == (full || old(host.continueSending))
        invariant full ==> i < |outgoing| && DoesNotFit(host, outgoing[i])
        decreases !full, |outgoing| - i
      {
        ghost var stock, now, was, q, counter := Stock(host), outgoing, i, View(), packetThrottleCounter;
        var tried, one;
        i, wrap, exceed, full, tried, one := Turn(host, i, wrap, exceed);
        canPing := canPing && !tried;
        if good {
          LeadsFar(q0, q, View(), limit);
        }
        MovedOn(old(Stock(host)), stock, Stock(host), moved, one);
        fates := HalfwayOn(s, fates, pass, now, was, moved, counter, outgoing, i, one, full, packetThrottleCounter);
        moved := moved + one;
      }
      NoneWrong(i);
      ReachedAtEnd(i, wrap || exceed, limit);
      StopAt(s, fates, pass, outgoing, i, moved, packetThrottleCounter);
      stop := |s| - (|outgoing| - i);
      fates := HalfwayEnd(s, fates, pass, outgoing, i, moved, packetThrottleCounter);
      drained := state == PeerStates.DisconnectLater && |outgoing| == 0 && |sentReliable| == 0 && |sentUnreliable| == 0;
    }

    /** An expired command goes back into `outgoing` at position `k`. */
    method PutBack(i: nat, k: nat)
      requires Valid() && i < |sentReliable| && k <= |outgoing| && RequeuedUpTo(View(), k)
      modifies `outgoing, `sentReliable, `reliableDataInTransit, `packetsLost, `nextTimeout
      ensures Valid() && RequeuedUpTo(View(), k + 1)
      ensures SendNext(old(View()), Requeue(i, k, Doubled(old(sentReliable[i]))), View(), 0)
      ensures sentReliable == Without(old(sentReliable), i)
      ensures outgoing == Insert(old(outgoing), k, Doubled(old(sentReliable[i])))
      ensures |outgoing| == |old(outgoing)| + 1 && packetsLost == old(packetsLost) + 1
    {
      hide Queues.Valid, Doubled, RequeuedUpTo;
      ghost var q := View();
      var x := sentReliable[i];
      HasBeenSent(View(), i);
      TriedAgain(View(), i, k);
      if x.hasPacket {
        reliableDataInTransit := reliableDataInTransit - x.length;
      }
      packetsLost := packetsLost + 1;
      sentReliable := sentReliable[..i] + sentReliable[i + 1..];
      outgoing := outgoing[..k] + [Doubled(x)] + outgoing[k..];
      if i == 0 && |sentReliable| > 0 {
        nextTimeout := (sentReliable[0].sentTime + sentReliable[0].timeout) % WORD;
      }
      assert View() == q.Requeue(i, k, Doubled(x));
    }

    /** Command `t` of `s` ran out, and the peer has not answered for too long. */
    ghost predicate GivesUp(s: seq<Command>, t: nat, now: uint32, before: uint32)
      requires t < |s|
      reads `timeoutMaximum, `timeoutMinimum
    {
      var x, e := s[t], Earliest(s[..t + 1], now, before);
      Expired(x, now) && e != 0 &&
      (TimeDifference(now, e) >= timeoutMaximum || (x.timeout >= x.timeoutLimit && TimeDifference(now, e) >= timeoutMinimum))
    }

    /** The first `t` commands of `s` have been looked at, and none of them was the last straw. */
    ghost predicate Noted(s: seq<Command>, t: nat, now: uint32, before: uint32)
      reads `earliestTimeout, `timeoutMaximum, `timeoutMinimum
    {
      && t <= |s| && earliestTimeout == Earliest(s[..t], now, before)
      && forall m | 0 <= m < t :: !GivesUp(s, m, now, before)
    }

    /** Command `t` of `s` ran out: note when the oldest attempt was made, and whether that is too long ago. */
    method NoteTimeout(x: Command, serviceTime: uint32, ghost s: seq<Command>, ghost t: nat, ghost before: uint32) returns (over: bool)
      requires t < |s| && x == s[t] && Expired(x, serviceTime) && Noted(s, t, serviceTime, before)
      modifies `earliestTimeout
      ensures over <==> GivesUp(s, t, serviceTime, before)
      ensures !over ==> Noted(s, t + 1, serviceTime, before)
    {
      hide Expired, TimeDifference, TimeLess, Earliest;
      EarliestStep(s, t, serviceTime, before);
      if earliestTimeout == 0 || TimeLess(x.sentTime, earliestTimeout) {
        earliestTimeout := x.sentTime;
      }
      over := earliestTimeout != 0 &&
        (TimeDifference(serviceTime, earliestTimeout) >= timeoutMaximum ||
         (x.timeout >= x.timeoutLimit && TimeDifference(serviceTime, earliestTimeout) >= timeoutMinimum));
    }

    lemma NoneNoted(s: seq<Command>, now: uint32)
      ensures Noted(s, 0, now, earliestTimeout)
    {
    }

    lemma Unnoted(s: seq<Command>, t: nat, now: uint32, before: uint32)
      requires t < |s| && !Expired(s[t], now) && Noted(s, t, now, before)
      ensures Noted(s, t + 1, now, before)
    {
      hide Expired, Earliest;
      EarliestStep(s, t, now, before);
    }

    lemma AllNoted(s: seq<Command>, t: nat, now: uint32, before: uint32)
      requires Noted(s, t, now, before) && t == |s|
      ensures earliestTimeout == Earliest(s, now, before)
      ensures !exists m | 0 <= m < |s| :: GivesUp(s, m, now, before)
    {
      assert s[..|s|] == s;
    }

    /**
     `enet_protocol_check_timeouts`: commands that expired go back to the front of `outgoing`, in order,
     with twice the time to wait; unless one of them has been tried for too long.
     */
    method CheckTimeouts(serviceTime: uint32) returns (lost: bool)
      requires Valid()
      modifies `outgoing, `sentReliable, `reliableDataInTransit, `earliestTimeout, `packetsLost, `nextTimeout
      ensures Valid()
      ensures lost <==> exists t | 0 <= t < |old(sentReliable)| :: GivesUp(old(sentReliable), t, serviceTime, old(earliestTimeout))
      ensures Leads(old(View()), View(), 0)
      ensures !lost ==> earliestTimeout == Earliest(old(sentReliable), serviceTime, old(earliestTimeout))
      ensures !lost ==> sentReliable == Unexpired(old(sentReliable), serviceTime)
      ensures !lost ==> outgoing == Retries(old(sentReliable), serviceTime) + old(outgoing)
      ensures !lost ==> packetsLost == old(packetsLost) + |Retries(old(sentReliable), serviceTime)|
    {
      hide Queues.Valid, Retries, Unexpired, Expired, Doubled, TimeDifference, TimeLess, LookedAt, RequeuedUpTo, TimerValid, Insert,
        GivesUp, Noted, Leads, SendNext;
      ghost var q0, t: nat, s := View(), 0, sentReliable;
      NoneNoted(s, serviceTime);
      LeadsNowhere(q0, 0);
      var i: nat, k: nat := 0, 0;
      NoneLookedAt(q0, serviceTime);
      while i < |sentReliable|
        invariant Valid() && k <= |outgoing| && i <= |sentReliable|
        invariant Leads(q0, View(), 0)
        invariant LookedAt(q0, View(), t, i, k, serviceTime) && Noted(s, t, serviceTime, old(earliestTimeout))
        invariant packetsLost == old(packetsLost) + k && RequeuedUpTo(View(), k)
        decreases |sentReliable| - i
      {
        var x := sentReliable[i];
        LookAtNext(q0, View(), t, i, k, serviceTime);
        t := t + 1;
        if !Expired(x, serviceTime) {
          Unnoted(s, t - 1, serviceTime, old(earliestTimeout));
          i := i + 1;
          continue;
        }
        var over := NoteTimeout(x, serviceTime, s, t - 1, old(earliestTimeout));
        if over {
          return true;
        }
        ghost var q := View();
        PutBack(i, k);
        LeadsOn(q0, q, Requeue(i, k, Doubled(x)), View(), 0);
        k := k + 1;
      }
      AllLookedAt(q0, View(), t, i, k, serviceTime);
      AllNoted(s, t, serviceTime, old(earliestTimeout));
      lost := false;
    }

    /** The command at `at`, in flight or waiting to be sent again, is the one acknowledged. */
    ghost predicate Matches(at: nat, wasSent: bool, sequence: uint16, channel: nat)
      reads `outgoing, `sentReliable
    {
      && (if wasSent then at < |sentReliable| else at < |outgoing|)
      && var x := if wasSent then sentReliable[at] else outgoing[at]; x.Outstanding(channel) && x.sequence == sequence
    }

    ghost predicate Pending(sequence: uint16, channel: nat)
      reads `outgoing, `sentReliable
    {
      exists i, w :: Matches(i, w, sequence, channel)
    }

    /** Look for it first among the commands in flight, then among those waiting to be sent again.
        Giving up at the first command never sent misses nothing. */
    method FindSent(sequence: uint16, channel: nat) returns (found: bool, at: nat, wasSent: bool)
      requires Valid()
      ensures found ==> Matches(at, wasSent, sequence, channel)
      ensures found <==> Pending(sequence, channel)
    {
      hide Queues.Valid, TimerValid;
      ghost var q := View();
      found, at, wasSent := false, 0, true;
      AllSent(q);
      while at < |sentReliable|
        invariant at <= |sentReliable|
        invariant forall i | 0 <= i < at :: !Matches(i, true, sequence, channel)
      {
        if sentReliable[at].sequence == sequence && sentReliable[at].channel == channel {
          found := true;
          return;
        }
        at := at + 1;
      }
      at, wasSent := 0, false;
      while at < |outgoing|
        invariant at <= |outgoing|
        invariant forall i | 0 <= i < at :: !Matches(i, false, sequence, channel)
      {
        var x := outgoing[at];
        if x.reliable {
          if x.attempts < 1 {
            NoneRequeuedAfter(q, at);
            return;
          }
          if x.sequence == sequence && x.channel == channel {
            found := true;
            return;
          }
        }
        at := at + 1;
      }
    }

    lemma AckIsStep(q: Queues, at: nat, wasSent: bool, sequence: uint16, channel: nat, q': Queues)
      requires q.Valid() && q.Shaped() && AckReady(q, at, wasSent) && q' == Acknowledged(q, at, wasSent)
      requires var x := if wasSent then q.sentReliable[at] else q.outgoing[at]; x.Outstanding(channel) && x.sequence == sequence
      ensures forall n: nat | Wire(n) == sequence :: SendNext(q, Acknowledge(channel, n, at, wasSent), q', 0)
    {
      hide Queues.Valid, Acknowledged;
    }

    /** `enet_protocol_remove_sent_reliable_command`. */
    method RemoveSentReliableCommand(sequence: uint16, channel: nat) returns (found: bool, at: nat, wasSent: bool)
      requires Valid()
      modifies `channels, `outgoing, `sentReliable, `reliableDataInTransit, `nextTimeout
      ensures Valid()
      ensures found <==> old(Pending(sequence, channel))
      ensures found ==> old(Matches(at, wasSent, sequence, channel)) && AckReady(old(View()), at, wasSent)
                        && View() == Acknowledged(old(View()), at, wasSent)
                        && forall n: nat | Wire(n) == sequence :: SendNext(old(View()), Acknowledge(channel, n, at, wasSent), View(), 0)
      ensures !found ==> View() == old(View()) && nextTimeout == old(nextTimeout)
    {
      hide Queues.Valid, Pending, SendNext;
      ghost var q := View();
      found, at, wasSent := FindSent(sequence, channel);
      if !found {
        return;
      }
      AckIsReady(q, at, wasSent);
      var x := if wasSent then sentReliable[at] else outgoing[at];
      if channel < |channels| {
        var ch, w := channels[channel], sequence / WINDOW_SIZE;
        SmallWindow(sequence);
        if ch.reliableWindows[w] > 0 {
          var left := ch.reliableWindows[w] - 1;
          ch := ch.(reliableWindows := ch.reliableWindows[w := left]);
          if left == 0 {
            ch := ch.(usedWindows := ch.usedWindows[w := false]);
          }
          channels := channels[channel := ch];
        }
      }
      if wasSent {
        sentReliable := sentReliable[..at] + sentReliable[at + 1..];
        if x.hasPacket {
          reliableDataInTransit := reliableDataInTransit - x.length;
        }
      } else {
        outgoing := outgoing[..at] + outgoing[at + 1..];
      }
      AckIsStep(q, at, wasSent, sequence, channel, View());
      if |sentReliable| == 0 {
        return;
      }
      nextTimeout := (sentReliable[0].sentTime + sentReliable[0].timeout) % WORD;
    }
  }
}
