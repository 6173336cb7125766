/** The receiving side of a reliable channel: enet/peer.c and enet/protocol.c. */
module Receiver {
  import opened Machine
  import opened Messages
  import opened SequenceWindows
  import opened Inbox
  import opened Arrivals

  class IncomingChannel {
    var incomingReliable: uint16
    var queue: seq<Incoming>
    var dispatched: seq<seq<uint8>>
    var acknowledgements: seq<uint16>
    var totalWaitingData: nat
    const maximumPacketSize: nat
    const maximumWaitingData: nat
    ghost var done: nat
    ghost var taken: nat
    ghost var accepted: set<nat>
    /** What the peer's other channels have added to the count. */
    ghost var elsewhere: nat

    constructor (maximumPacketSize: nat, maximumWaitingData: nat, ghost ms: seq<Message>)
      requires AllValid(ms)
      ensures Valid(ms) && Settled(Now()) && Counted() && done == taken == 0 && accepted == {}
    {
      this.maximumPacketSize, this.maximumWaitingData := maximumPacketSize, maximumWaitingData;
      incomingReliable, queue, dispatched, acknowledgements, totalWaitingData := 0, [], [], [], 0;
      done, taken, accepted, elsewhere := 0, 0, {}, 0;
      InitialInbox(ms);
    }

    /** What the C code has of the channel. */
    ghost function Now(): Box
      reads `incomingReliable, `queue, `dispatched
    {
      Box(incomingReliable, queue, dispatched)
    }

    ghost function View(): Inbox
      reads `incomingReliable, `queue, `dispatched, `done, `taken, `accepted
    {
      Inbox(incomingReliable, queue, dispatched, done, taken, accepted)
    }

    ghost predicate Valid(ms: seq<Message>)
      reads `incomingReliable, `queue, `dispatched, `done, `taken, `accepted
    {
      View().Valid(ms)
    }

    /** The count is that of the bytes waiting. */
    ghost predicate Counted()
      reads `incomingReliable, `queue, `dispatched, `totalWaitingData, `elsewhere
    {
      totalWaitingData == elsewhere + WaitingData(Now())
    }

    ghost predicate Room()
      reads `totalWaitingData
    {
      totalWaitingData < maximumWaitingData
    }

    /** `enet_peer_dispatch_incoming_reliable_commands`: put in order what is complete and comes next. */
    method DispatchReliable()
      modifies `incomingReliable, `queue, `dispatched
      ensures Now() == PutInOrder(old(Now()))
    {
      ghost var b := Now();
      var x := 0;
      assert queue[0..] == queue && dispatched + Contents(queue[..0]) == dispatched;
      while x < |queue|
        invariant x <= |queue| && queue == b.queue && dispatched == b.dispatched
        invariant PutInOrder(b) == PutInOrder(Box(incomingReliable, queue[x..], dispatched + Contents(queue[..x])))
        invariant x == 0 ==> incomingReliable == b.incomingReliable
      {
        var e := queue[x];
        if e.fragmentsRemaining > 0 || e.sequence != (incomingReliable + 1) % 0x1_0000 {
          break;
        }
        PutNext(incomingReliable, queue, dispatched, x);
        incomingReliable := e.sequence;
        if e.fragmentCount > 0 {
          incomingReliable := (incomingReliable + e.fragmentCount - 1) % 0x1_0000;
        }
        x := x + 1;
      }
      if x == 0 {
        return;
      }
      dispatched := dispatched + Contents(queue[..x]);
      queue := queue[x..];
    }

    /** Where wire number `s` belongs in the queue, searched for from the back. */
    method FindReliable(s: uint16) returns (at: nat, same: bool)
      ensures (at, same) == Search(incomingReliable, queue, s)
    {
      at, same := |queue|, false;
      assert queue[..at] == queue;
      while at > 0
        invariant at <= |queue| && !same && Search(incomingReliable, queue[..at], s) == Search(incomingReliable, queue, s)
      {
        var e := queue[at - 1];
        assert queue[..at][..at - 1] == queue[..at - 1];
        if s >= incomingReliable {
          if e.sequence < incomingReliable {
            at := at - 1;
            continue;
          }
        } else if e.sequence >= incomingReliable {
          break;
        }
        if e.sequence <= s {
          same := e.sequence == s;
          break;
        }
        at := at - 1;
      }
    }

    /**
     `enet_peer_queue_incoming_command` for a reliable packet with first wire number `s`: `fragmentCount` is
     positive when only its first piece to arrive is at hand.
     */
    method QueueIncoming(s: uint16, data: seq<uint8>, fragmentCount: nat, ghost j: nat) returns (outcome: Outcome)
      requires Settled(Now())
      modifies `incomingReliable, `queue, `dispatched, `totalWaitingData
      ensures (outcome, Now()) == Queueing(old(Now()), s, data, fragmentCount, old(Room()), j)
      ensures Settled(Now()) && (old(Counted()) ==> Counted())
      ensures totalWaitingData == old(totalWaitingData) + if outcome.Queued? then |data| else 0
    {
      hide PutInOrder, Search, WaitingData, Settled;
      ghost var b, room := Now(), Room();
      QueueingWaiting(b, s, data, fragmentCount, room, j);
      QueueingSettled(b, s, data, fragmentCount, room, j);
      if !Accepts(incomingReliable, s) || s == incomingReliable {
        return if fragmentCount > 0 then Failed else Discarded;
      }
      var at, same := FindReliable(s);
      if same {
        return if fragmentCount > 0 then Failed else Discarded;
      }
      if totalWaitingData >= maximumWaitingData || fragmentCount > MAX_FRAGMENTS {
        return Failed;
      }
      var e := NewPacket(s, data, fragmentCount, j);
      totalWaitingData := totalWaitingData + |data|;
      queue := queue[..at] + [e] + queue[at..];
      DispatchReliable();
      outcome := Queued(at);
    }

    /** Put piece `number` of the packet at `q` in its place. */
    method Store(q: nat, number: nat, offset: nat, piece: seq<uint8>)
      requires Settled(Now()) && q < |queue| && queue[q].fragmented
      requires number < queue[q].fragmentCount && offset + |piece| <= |queue[q].data|
      modifies `incomingReliable, `queue, `dispatched
      ensures Now() == Storing(old(Now()), q, number, offset, piece)
      ensures Settled(Now()) && (old(Counted()) ==> Counted())
    {
      hide PutInOrder, WaitingData, Copied;
      ghost var b := Now();
      var e := queue[q];
      assert Formed(e);
      MissingPiece(e, number, offset, piece);
      StoringSettled(b, q, number, offset, piece);
      StoringWaiting(b, q, number, offset, piece);
      if e.fragments[number] {
        return;
      }
      e := e.(fragmentsRemaining := e.fragmentsRemaining - 1, fragments := e.fragments[number := true],
              data := Copied(e.data, offset, piece));
      queue := queue[q := e];
      if e.fragmentsRemaining == 0 {
        DispatchReliable();
      }
    }

    /** The packet that a piece belongs to, in the queue or put there now. */
    method PacketOf(d: Datagram, ghost j: nat) returns (ok: bool, q: nat)
      requires Settled(Now()) && d.Fragment? && d.number < d.count
      modifies `incomingReliable, `queue, `dispatched, `totalWaitingData
      ensures Settled(Now()) && (old(Counted()) ==> Counted())
      ensures var (at, same) := Search(old(incomingReliable), old(queue), d.start);
              var (outcome, b) := Queueing(old(Now()), d.start, Blank(d.total), d.count, old(Room()), j);
              if same then
                Now() == old(Now()) && q == at - 1
                && ok == (queue[q].fragmented && d.total == |queue[q].data| && d.count == queue[q].fragmentCount)
              else
                Now() == b && ok == outcome.Queued? && (ok ==> q == outcome.at)
      ensures ok ==> q < |queue| && queue[q].fragmented && queue[q].fragmentCount == d.count && |queue[q].data| == d.total
    {
      hide PutInOrder, Search, WaitingData, Formed, Accepts, Settled;
      var at, same := FindReliable(d.start);
      if same {
        q := at - 1;
        ok := queue[q].fragmented && d.total == |queue[q].data| && d.count == queue[q].fragmentCount;
        return;
      }
      var blank: seq<uint8> := Blank(d.total);
      var outcome := QueueIncoming(d.start, blank, d.count, j);
      if outcome.Queued? {
        QueueingStays(old(Now()), d.start, blank, d.count, old(Room()), j);
        ok, q := true, outcome.at;
      } else {
        ok, q := false, 0;
      }
    }

    /** `enet_protocol_handle_send_fragment`. */
    method HandleSendFragment(d: Datagram, ghost j: nat) returns (ok: bool)
      requires Settled(Now()) && d.Fragment?
      modifies `incomingReliable, `queue, `dispatched, `totalWaitingData
      ensures (ok, Now()) == HandlingFragment(old(Now()), d, old(Room()), maximumPacketSize, j)
      ensures Settled(Now()) && (old(Counted()) ==> Counted())
    {
      hide PutInOrder, Search, WaitingData, Formed, Accepts, Queueing, Storing, Settled;
      if !Accepts(incomingReliable, d.start) {
        return true;
      }
      if d.count > MAX_FRAGMENTS || d.number >= d.count || d.total > maximumPacketSize || d.offset >= d.total ||
         |d.data| > d.total - d.offset {
        return false;
      }
      var q;
      ok, q := PacketOf(d, j);
      if ok {
        Store(q, d.number, d.offset, d.data);
      } else {
        QueueingFails(old(Now()), d, old(Room()), j);
      }
    }

    /** `enet_protocol_handle_send_reliable`. */
    method HandleSendReliable(d: Datagram, ghost j: nat) returns (ok: bool)
      requires Settled(Now()) && d.Single?
      modifies `incomingReliable, `queue, `dispatched, `totalWaitingData
      ensures (ok, Now()) == HandlingSingle(old(Now()), d, old(Room()), maximumPacketSize, j)
      ensures Settled(Now()) && (old(Counted()) ==> Counted())
    {
      hide PutInOrder, Search, WaitingData, Accepts, Queueing, Settled;
      if |d.data| > maximumPacketSize {
        return false;
      }
      var outcome := QueueIncoming(d.sequence, d.data, 0, j);
      ok := !outcome.Failed?;
    }

    /** `enet_peer_queue_acknowledgement`: numbers of the windows that may just have been discarded are left
        unacknowledged. */
    method QueueAcknowledgement(sequence: uint16) returns (queued: bool)
      modifies `acknowledgements
      ensures queued <==> !Suppresses(incomingReliable, sequence)
      ensures acknowledgements == old(acknowledgements) + if queued then [sequence] else []
    {
      var reliableWindow, currentWindow := sequence / WINDOW_SIZE, incomingReliable / WINDOW_SIZE;
      if sequence < incomingReliable {
        reliableWindow := reliableWindow + WINDOWS;
      }
      if reliableWindow >= currentWindow + FREE_WINDOWS - 1 && reliableWindow <= currentWindow + FREE_WINDOWS {
        return false;
      }
      acknowledgements := acknowledgements + [sequence];
      queued := true;
    }

    /**
     A command arrives: handle it, and acknowledge it if that went well. If it is piece `i` of packet `j` of those
     sent, and comes in time, it is accepted as it should be.
     */
    method Arrive(d: Datagram, ghost ms: seq<Message>, ghost j: nat, ghost i: nat) returns (acked: bool)
      requires Settled(Now())
      modifies `incomingReliable, `queue, `dispatched, `done, `accepted, `totalWaitingData, `acknowledgements
      ensures Settled(Now()) && (old(Counted()) ==> Counted())
      ensures var (ok, b) := Handling(old(Now()), d, old(Room()), maximumPacketSize, j);
              Now() == b && (acked <==> ok && !Suppresses(incomingReliable, d.sequence))
      ensures acknowledgements == old(acknowledgements) + if acked then [d.sequence] else []
      ensures InTime(old(View()), d, ms, j, i) ==>
                Arrived(old(View()), ms, j, i, View(), Handles(old(View()), ms, j, old(Room()), maximumPacketSize), acked)
    {
      hide HandlingFragment, HandlingSingle, WaitingData, Suppresses, Settled, Handles, First, Inbox.Valid, InTime;
      ghost var b, room := View(), Room();
      var ok;
      if d.Fragment? {
        ok := HandleSendFragment(d, j);
      } else {
        ok := HandleSendReliable(d, j);
      }
      if InTime(b, d, ms, j, i) {
        ghost var b' := InTimeTrue(b, d, ms, j, i, room, maximumPacketSize);
        done, accepted := b'.done, b'.accepted;
        assert View() == b';
      }
      if !ok {
        return false;
      }
      acked := QueueAcknowledgement(d.sequence);
    }

    /** `enet_peer_receive`: the application takes the next packet, and its bytes are no longer counted. */
    method Receive(ghost ms: seq<Message>) returns (got: bool, data: seq<uint8>)
      requires Settled(Now()) && Counted()
      modifies `dispatched, `taken, `totalWaitingData
      ensures Settled(Now()) && Counted()
      ensures got <==> old(dispatched) != []
      ensures got ==> Now() == old(Now()).(dispatched := old(dispatched)[1..]) && data == old(dispatched)[0]
      ensures got ==> totalWaitingData + |data| == old(totalWaitingData)
      ensures !got ==> View() == old(View()) && totalWaitingData == old(totalWaitingData)
      ensures old(Valid(ms)) ==>
                && Valid(ms) && (got <==> old(taken) < done)
                && (got ==> data == ms[old(taken)].data && View() == old(View()).(dispatched := old(dispatched)[1..], taken := old(taken) + 1))
    {
      hide First, Assembles, WaitingData;
      if dispatched == [] {
        return false, [];
      }
      got, data := true, dispatched[0];
      dispatched, taken := dispatched[1..], taken + 1;
      if old(Valid(ms)) {
        TakenConsistent(old(View()), View(), ms);
      }
      TakenWaiting(old(Now()));
      totalWaitingData := totalWaitingData - |data|;
    }
  }
}
