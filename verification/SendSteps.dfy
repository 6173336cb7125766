/** The steps of the sending side of an ENet peer: what may happen to its queues, one command at a time. */
module SendSteps {
  import opened Machine
  import opened SequenceWindows
  import opened SendQueue
  import opened SendState

  // ---------- Sending ----------

  /** No command waiting for its first sending on a channel is among `s`. */
  ghost predicate NoneWaiting(s: seq<Command>, channels: nat) {
    forall c | 0 <= c < channels :: UnsentNumbers(s, c) == []
  }

  /** The first sending of a command opens its window. */
  predicate Opens(q: Queues, x: Command) {
    x.channel < |q.channels| && x.attempts < 1
  }

  ghost function Sent(q: Queues, i: nat, y: Command): Queues
    requires q.Shaped() && i < |q.outgoing|
  {
    if Opens(q, q.outgoing[i]) && y.channel < |q.channels| then q.Opened(y).Send(i, y) else q.Send(i, y)
  }

  lemma SentValid(q: Queues, i: nat, y: Command)
    requires q.Valid() && q.Shaped() && i < |q.outgoing|
    requires q.outgoing[i].reliable && SameCommand(q.outgoing[i], y) && y.attempts == q.outgoing[i].attempts + 1
    requires Opens(q, q.outgoing[i]) ==> NoneWaiting(q.outgoing[..i], |q.channels|) && WindowFree(q.channels[y.channel], y.sequence)
    ensures Sent(q, i, y).Valid()
  {
    hide UnsentNumbers, WindowFree;
    var x := q.outgoing[i];
    if Opens(q, x) {
      assert q.ChannelValid(x.channel);
      SendFirstValid(q, i, y);
    } else {
      SendAgainValid(q, i, y);
    }
  }

  /** What holds the first command of a window back: a full window before it, or a window in use that
      it could be confused with. */
  predicate WindowWraps(ch: Channel, x: Command)
    requires |ch.reliableWindows| == |ch.usedWindows| == WINDOWS
  {
    && x.attempts < 1
    && x.sequence % WINDOW_SIZE == 0
    && (ch.reliableWindows[(Window(x.sequence) + WINDOWS - 1) % WINDOWS] >= WINDOW_SIZE
        || exists k | 0 <= k < WINDOWS && Masked(Window(x.sequence), k) :: ch.usedWindows[k])
  }

  lemma HasBeenSent(q: Queues, i: nat)
    requires q.Valid() && i < |q.sentReliable|
    ensures q.sentReliable[i].attempts > 0 && (!q.sentReliable[i].hasPacket ==> q.sentReliable[i].length == 0)
  {
    assert q.CommandValid(q.sentReliable[i]);
  }

  /** The gate lets the first command of a window through only when the window is free. */
  lemma OpenedFree(q: Queues, i: nat)
    requires q.Shaped() && i < |q.outgoing|
    requires Opens(q, q.outgoing[i]) ==> i == 0 && !WindowWraps(q.channels[q.outgoing[i].channel], q.outgoing[i])
    ensures var x := q.outgoing[i];
            Opens(q, x) ==> NoneWaiting(q.outgoing[..i], |q.channels|) && WindowFree(q.channels[x.channel], x.sequence)
  {
  }

  /** What acknowledging the command at `at` needs. */
  ghost predicate AckReady(q: Queues, at: nat, wasSent: bool) {
    && (if wasSent then at < |q.sentReliable| && q.sentReliable[at].length <= q.inTransit else at < |q.outgoing|)
    && forall c | 0 <= c < |q.channels| :: q.ChannelValid(c)
  }

  lemma AckIsReady(q: Queues, at: nat, wasSent: bool)
    requires q.Valid()
    requires if wasSent then at < |q.sentReliable| else at < |q.outgoing| && q.outgoing[at].reliable && q.outgoing[at].attempts > 0
    ensures AckReady(q, at, wasSent) && Acknowledged(q, at, wasSent).Valid() && q.Shaped()
    ensures wasSent && !q.sentReliable[at].hasPacket ==> q.sentReliable[at].length == 0
  {
    AckValid(q, at, wasSent);
    ValidShaped(q);
    if wasSent {
      HasBeenSent(q, at);
    }
  }

  // ---------- Steps ----------

  /** A command is queued, dropped, sent, put back after a timeout, or acknowledged. */
  datatype SendStep =
    | Add(x: Command, numbering: Queues)
    | Drop(i: nat)
    | Send(i: nat, y: Command)
    | Requeue(i: nat, k: nat, x: Command)
    | Acknowledge(c: nat, n: nat, at: nat, wasSent: bool)

  /** The command that an acknowledgement of number `n` on channel `c` finds. */
  ghost predicate Acked(q: Queues, c: nat, n: nat, at: nat, wasSent: bool) {
    && (if wasSent then at < |q.sentReliable| else at < |q.outgoing|)
    && var x := if wasSent then q.sentReliable[at] else q.outgoing[at]; x.Outstanding(c) && x.sequence == Wire(n)
  }

  /**
   The command at `i` may go out: nothing that must wait is ahead of a channel's command, the first of a window
   may open it, and no more than `limit` bytes are in transit with it.
   */
  ghost predicate MaySend(q: Queues, i: nat, limit: nat)
    requires q.Shaped() && i < |q.outgoing|
  {
    var x := q.outgoing[i];
    && x.reliable
    && (x.channel < |q.channels| ==> i == 0 && !WindowWraps(q.channels[x.channel], x))
    && (x.hasPacket ==> q.inTransit + x.length <= limit)
  }

  ghost predicate SendNext(q: Queues, step: SendStep, q': Queues, limit: nat) {
    && q.Valid() && q.Shaped()
    && match step
       case Add(x, q1) =>
         && x.attempts == 0 && q.CommandValid(x)
         && (if x.reliable && x.channel < |q.channels| then q1 == Numbering(q, x.channel) && x.number == q.channels[x.channel].numbered + 1
             else OnlyUnreliable(q, q1))
         && q' == q1.Add(x)
       case Drop(i) =>
         i < |q.outgoing| && !q.outgoing[i].reliable && q' == q.Drop(i)
       case Send(i, y) =>
         && i < |q.outgoing| && MaySend(q, i, limit)
         && SameCommand(q.outgoing[i], y) && y.attempts == q.outgoing[i].attempts + 1 && KeepsTimes(q.outgoing[i], y)
         && q' == Sent(q, i, y)
       case Requeue(i, k, x) =>
         && i < |q.sentReliable| && RequeuedUpTo(q, k) && x == Doubled(q.sentReliable[i])
         && x.length <= q.inTransit && q' == q.Requeue(i, k, x)
       case Acknowledge(c, n, at, wasSent) =>
         Acked(q, c, n, at, wasSent) && AckReady(q, at, wasSent) && q' == Acknowledged(q, at, wasSent)
  }

  /** Every step keeps what is counted. */
  lemma {:induction false} SendNextValid(q: Queues, step: SendStep, q': Queues, limit: nat)
    requires SendNext(q, step, q', limit)
    ensures q'.Valid() && |q'.channels| == |q.channels|
  {
    hide Queues.Valid, WindowFree, UnsentNumbers, WindowWraps, Sum;
    match step
    case Add(x, q1) => AddValid(q, q1, x);
    case Drop(i) => DropValid(q, i);
    case Send(i, y) =>
      OpenedFree(q, i);
      SentValid(q, i, y);
    case Requeue(i, k, x) =>
      HasBeenSent(q, i);
      RequeueValid(q, i, k, x);
    case Acknowledge(c, n, at, wasSent) =>
      AckFits(q, c, n, at, wasSent);
      AckValid(q, at, wasSent);
  }

  lemma {:induction false} AckFits(q: Queues, c: nat, n: nat, at: nat, wasSent: bool)
    requires q.Valid() && Acked(q, c, n, at, wasSent)
    ensures if wasSent then at < |q.sentReliable| else at < |q.outgoing| && q.outgoing[at].reliable && q.outgoing[at].attempts > 0
  {
  }

  lemma {:induction false} SentNumbered(q: Queues, c: nat)
    requires q.Valid() && c < |q.channels|
    ensures q.channels[c].sent <= q.channels[c].numbered
  {
    assert q.ChannelValid(c);
  }

  /** A number given out that is neither sent nor queued is lost. */
  lemma {:induction false} NumberLost(q: Queues, c: nat)
    requires c < |q.channels| && q.outgoing == [] && q.channels[c].sent < q.channels[c].numbered
    ensures !q.Valid()
  {
    assert q.Valid() ==> q.ChannelValid(c);
  }

  // ---------- Chains of steps ----------

  ghost predicate Chain(qs: seq<Queues>, steps: seq<SendStep>, limit: nat) {
    && |qs| == |steps| + 1
    && forall k | 0 <= k < |steps| :: SendNext(qs[k], steps[k], qs[k + 1], limit)
  }

  /** From `q` to `q'` by steps alone. */
  ghost predicate Leads(q: Queues, q': Queues, limit: nat) {
    exists qs: seq<Queues>, steps: seq<SendStep> :: Chain(qs, steps, limit) && qs[0] == q && qs[|steps|] == q'
  }

  lemma {:induction false} LeadsNowhere(q: Queues, limit: nat)
    ensures Leads(q, q, limit)
  {
    var steps: seq<SendStep> := [];
    assert Chain([q], steps, limit);
  }

  lemma {:induction false} LeadsOn(q: Queues, q1: Queues, step: SendStep, q2: Queues, limit: nat)
    requires Leads(q, q1, limit) && SendNext(q1, step, q2, limit)
    ensures Leads(q, q2, limit)
  {
    hide SendNext;
    var qs: seq<Queues>, steps: seq<SendStep> :| Chain(qs, steps, limit) && qs[0] == q && qs[|steps|] == q1;
    var qs', steps' := qs + [q2], steps + [step];
    forall k | 0 <= k < |steps'| ensures SendNext(qs'[k], steps'[k], qs'[k + 1], limit) {
      if k < |steps| {
        assert SendNext(qs[k], steps[k], qs[k + 1], limit);
      }
    }
    assert Chain(qs', steps', limit) && qs'[0] == q && qs'[|steps'|] == q2;
  }

  lemma {:induction false} LeadsByOne(q: Queues, step: SendStep, q': Queues, limit: nat)
    requires SendNext(q, step, q', limit)
    ensures Leads(q, q', limit)
  {
    hide SendNext, Leads;
    LeadsNowhere(q, limit);
    LeadsOn(q, q, step, q', limit);
  }

  lemma {:induction false} LeadsFar(q: Queues, q1: Queues, q2: Queues, limit: nat)
    requires Leads(q, q1, limit) && Leads(q1, q2, limit)
    ensures Leads(q, q2, limit)
  {
    hide SendNext;
    var qs: seq<Queues>, steps: seq<SendStep> :| Chain(qs, steps, limit) && qs[0] == q && qs[|steps|] == q1;
    var rs: seq<Queues>, more: seq<SendStep> :| Chain(rs, more, limit) && rs[0] == q1 && rs[|more|] == q2;
    var qs', steps' := qs + rs[1..], steps + more;
    forall k | 0 <= k < |steps'| ensures SendNext(qs'[k], steps'[k], qs'[k + 1], limit) {
      if k < |steps| {
        assert SendNext(qs[k], steps[k], qs[k + 1], limit);
        assert qs'[k] == qs[k] && qs'[k + 1] == qs[k + 1];
      } else {
        var m := k - |steps|;
        assert SendNext(rs[m], more[m], rs[m + 1], limit);
        assert qs'[k] == rs[m] && qs'[k + 1] == rs[m + 1];
      }
    }
    assert qs'[|steps'|] == q2 && qs'[0] == q;
    assert Chain(qs', steps', limit);
  }

  /** So does every chain. */
  lemma {:induction false} LeadsValid(q: Queues, q': Queues, limit: nat)
    requires q.Valid() && Leads(q, q', limit)
    ensures q'.Valid() && |q'.channels| == |q.channels|
  {
    hide SendNext, Queues.Valid;
    var qs: seq<Queues>, steps: seq<SendStep> :| Chain(qs, steps, limit) && qs[0] == q && qs[|steps|] == q';
    ChainValid(qs, steps, limit, |steps|);
  }

  lemma {:induction false} ChainValid(qs: seq<Queues>, steps: seq<SendStep>, limit: nat, k: nat)
    requires Chain(qs, steps, limit) && k < |qs| && qs[0].Valid()
    ensures qs[k].Valid() && |qs[k].channels| == |qs[0].channels|
  {
    hide SendNext, Queues.Valid;
    if k > 0 {
      ChainValid(qs, steps, limit, k - 1);
      assert SendNext(qs[k - 1], steps[k - 1], qs[k - 1 + 1], limit);
      SendNextValid(qs[k - 1], steps[k - 1], qs[k], limit);
    }
  }

  /** The queues without the `n` commands from `i` on. */
  ghost function Dropped(q: Queues, i: nat, n: nat): Queues
    requires i + n <= |q.outgoing|
  {
    q.(outgoing := q.outgoing[..i] + q.outgoing[i + n..])
  }

  /** Dropping unreliable commands is a chain of steps. */
  lemma {:induction false} LeadsDropped(q: Queues, i: nat, n: nat, limit: nat)
    requires q.Valid() && i + n <= |q.outgoing|
    requires forall j | i <= j < i + n :: !q.outgoing[j].reliable
    ensures Dropped(q, i, n).Valid() && Leads(q, Dropped(q, i, n), limit)
    decreases n
  {
    hide Queues.Valid, Leads, SendNext;
    if n == 0 {
      assert Dropped(q, i, n) == q;
      LeadsNowhere(q, limit);
    } else {
      var q1 := q.Drop(i);
      DropIsStep(q, i, limit);
      SendNextValid(q, Drop(i), q1, limit);
      LeadsByOne(q, Drop(i), q1, limit);
      assert forall j | i <= j < |q.outgoing| - 1 :: q1.outgoing[j] == q.outgoing[j + 1];
      LeadsDropped(q1, i, n - 1, limit);
      assert Dropped(q, i, n) == Dropped(q1, i, n - 1);
      LeadsFar(q, q1, Dropped(q, i, n), limit);
    }
  }

  lemma {:induction false} DropIsStep(q: Queues, i: nat, limit: nat)
    requires q.Valid() && i < |q.outgoing| && !q.outgoing[i].reliable
    ensures SendNext(q, Drop(i), q.Drop(i), limit)
  {
    hide Queues.Valid;
    ValidShaped(q);
  }
}
