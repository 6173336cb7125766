/**
 A reliable ENet channel end to end, with the receiver as the C code is: it knows wire numbers only, and what arrives
 may be of any packet as long as it is less than 7 windows old.
 */
module WireRuns {
  import opened Machine
  import opened SequenceWindows
  import opened SendQueue
  import opened SendState
  import opened Messages
  import opened Inbox
  import opened SendSteps
  import opened Arrivals
  import opened ReliableChannel

  /** Both ends, what the application has taken, and the acknowledgements ever sent back. */
  datatype Ends = Ends(q: Queues, box: Box, taken: seq<seq<uint8>>, acks: set<nat>) {
    /** All that was put in order. */
    function Delivered(): seq<seq<uint8>> {
      taken + box.dispatched
    }
  }

  datatype Act =
    | Sending(step: SendStep)
    | Arrival(j: nat, i: nat, room: bool)
    | Taking

  /** The network may lose, repeat and reorder commands as long as none is older than it can be while it waits; `size` is
      the length of the longest packet that the receiver takes. */
  ghost predicate WireNext(e: Ends, c: nat, ms: seq<Message>, act: Act, e': Ends, limit: nat, size: nat)
    requires AllValid(ms)
  {
    && c < |e.q.channels|
    && match act
       case Sending(send) =>
         && SendNext(e.q, send, e'.q, limit) && AddsPiece(ms, c, send) && HonestAck(e.q, e.acks, c, send)
         && c < |e'.q.channels| && e'.q.channels[c].numbered <= Total(ms) && e' == e.(q := e'.q)
       case Arrival(j, i, room) =>
         && j < |ms| && i < ms[j].Pieces() && First(ms, j) + i <= e.q.channels[c].sent
         && Young(e.q.channels[c].sent, First(ms, j) + i)
         && var (ok, box') := Handling(e.box, Arrivals.Sent(ms, j, i), room, size, j);
            var acked := ok && !Suppresses(box'.incomingReliable, Wire(First(ms, j) + i));
            e' == e.(box := box', acks := if acked then e.acks + {First(ms, j) + i} else e.acks)
       case Taking =>
         && e.box.dispatched != []
         && e' == e.(box := e.box.(dispatched := e.box.dispatched[1..]), taken := e.taken + [e.box.dispatched[0]])
  }

  ghost predicate WireRun(es: seq<Ends>, acts: seq<Act>, c: nat, ms: seq<Message>, limit: nat, size: nat) {
    && |es| == |acts| + 1 && AllValid(ms)
    && Initial(es[0].q) && c < |es[0].q.channels| && es[0] == Ends(es[0].q, Box(0, [], []), [], {})
    && forall k | 0 <= k < |acts| :: WireNext(es[k], c, ms, acts[k], es[k + 1], limit, size)
  }

  // ---------- Against the packets sent ----------

  ghost function Payloads(ms: seq<Message>, n: nat): seq<seq<uint8>>
    requires n <= |ms|
  {
    seq(n, k requires 0 <= k < n => ms[k].data)
  }

  /** The ends are those of state `s`. */
  ghost predicate Shows(e: Ends, s: State, c: nat, ms: seq<Message>) {
    && Invariant(s, c, ms) && s.b.taken <= |ms|
    && e == Ends(s.q, BoxOf(s.b), Payloads(ms, s.b.taken), s.acks)
  }

  /** An arrival of a narrow packet is one of the steps of `ReliableChannel`. */
  lemma {:induction false} ArrivalShows(e: Ends, s: State, c: nat, ms: seq<Message>, act: Act, e': Ends, limit: nat, size: nat)
    returns (s': State)
    requires Shows(e, s, c, ms) && AllValid(ms) && WireNext(e, c, ms, act, e', limit, size) && act.Arrival? && Narrow(ms, act.j)
    ensures Shows(e', s', c, ms)
  {
    hide First, Sum, Queues.Valid, Waits, Handling, Handles, Suppresses, Payloads, Inbox.Consistent;
    var j, i := act.j, act.i;
    NarrowInAge(s, c, ms, j, i);
    ArrivesTimely(s, c, ms, j, i);
    var b' := HandlingTrue(s.b, ms, j, i, act.room, size);
    var (ok, box') := Handling(e.box, Arrivals.Sent(ms, j, i), act.room, size, j);
    var acked := ok && !Suppresses(box'.incomingReliable, Wire(First(ms, j) + i));
    s' := State(s.q, b', e'.acks);
    var step := Arrive(j, i, ok, acked);
    NextInvariant(s, c, ms, step, s', limit);
  }

  lemma {:induction false} NarrowInAge(s: State, c: nat, ms: seq<Message>, j: nat, i: nat)
    requires AllValid(ms) && j < |ms| && c < |s.q.channels| && i < ms[j].Pieces() && Narrow(ms, j)
    requires Young(s.q.channels[c].sent, First(ms, j) + i)
    ensures InAge(s, c, ms, j)
  {
    hide First;
    PieceBefore(ms, j, i);
    WindowMonotone(First(ms, j) + i, First(ms, j + 1) - 1);
  }

  lemma {:induction false} ActShows(e: Ends, s: State, c: nat, ms: seq<Message>, act: Act, e': Ends, limit: nat, size: nat)
    returns (s': State)
    requires Shows(e, s, c, ms) && AllValid(ms) && WireNext(e, c, ms, act, e', limit, size) && AllNarrow(ms)
    ensures Shows(e', s', c, ms)
  {
    hide First, Sum, Queues.Valid, Waits, Handling, SendNext, Inbox.Consistent;
    match act {
      case Sending(send) =>
        s' := s.(q := e'.q);
        NextInvariant(s, c, ms, Sender(send), s', limit);
      case Arrival(_, _, _) =>
        s' := ArrivalShows(e, s, c, ms, act, e', limit, size);
      case Taking =>
        s' := s.(b := s.b.(dispatched := s.b.dispatched[1..], taken := s.b.taken + 1));
        NextInvariant(s, c, ms, Take, s', limit);
        TakenConsistent(s.b, s'.b, ms);
        Bounds(s'.b, ms);
    }
  }

  lemma {:induction false} RunShows(es: seq<Ends>, acts: seq<Act>, c: nat, ms: seq<Message>, limit: nat, size: nat, k: nat)
    returns (s: State)
    requires WireRun(es, acts, c, ms, limit, size) && AllNarrow(ms) && k < |es|
    ensures Shows(es[k], s, c, ms)
  {
    hide WireNext, AllNarrow;
    if k == 0 {
      s := State(es[0].q, Inbox(0, [], [], 0, 0, {}), {});
      InitialInvariant(es[0].q, c, ms);
    } else {
      s := RunShows(es, acts, c, ms, limit, size, k - 1);
      s := ActShows(es[k - 1], s, c, ms, acts[k - 1], es[k], limit, size);
    }
  }

  /**
   If no packet reaches four windows past its first number: in every state of every run, what the receiver has put in
   order is an exact prefix of the packets sent; and once everything has been sent and acknowledged, it is all of them.
   */
  lemma {:induction false} NarrowDelivered(es: seq<Ends>, acts: seq<Act>, c: nat, ms: seq<Message>, limit: nat, size: nat, k: nat)
    requires WireRun(es, acts, c, ms, limit, size) && AllNarrow(ms) && k < |es|
    ensures var e := es[k];
            && c < |e.q.channels|
            && (exists n | 0 <= n <= |ms| :: e.Delivered() == Payloads(ms, n))
            && (e.q.channels[c].sent == Total(ms) && (forall n: nat :: !Waits(e.q, c, n)) ==> e.Delivered() == Payloads(ms, |ms|))
  {
    hide First, Waits, WireRun, AllNarrow, Queues.Valid;
    var s := RunShows(es, acts, c, ms, limit, size, k);
    Bounds(s.b, ms);
    assert es[k].Delivered() == Payloads(ms, s.b.done);
    if s.q.channels[c].sent == Total(ms) && forall n: nat :: !Waits(s.q, c, n) {
      AllDelivered(s, c, ms);
    }
  }
}
