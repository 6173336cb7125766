/** `enet_peer_send`: cutting a packet into commands. */
module Sending {
  import opened Machine
  import opened Messages
  import opened SequenceWindows
  import opened SendQueue
  import opened SendState
  import opened SendSteps
  import PeerStates
  import opened Sender

  const HEADER_SIZE := 4
  const FRAGMENT_SIZE := 24
  const RELIABLE_SIZE := 6
  const UNRELIABLE_SIZE := 8
  const CHECKSUM_SIZE := 4
  const MIN_MTU := 576
  const MAX_FRAGMENTS := 1024 * 1024

  /** `ENetPacket`, with the flags that choose how it travels. */
  datatype Packet = Packet(data: seq<uint8>, reliable: bool, unsequenced: bool, unreliableFragment: bool)

  /** The longest piece of a packet that fits into one command. */
  function PieceLimit(mtu: nat, checksum: bool): nat
    requires mtu >= MIN_MTU
  {
    mtu - HEADER_SIZE - FRAGMENT_SIZE - if checksum then CHECKSUM_SIZE else 0
  }

  /** The packet is sent reliably: asked for, or because the channel ran out of unreliable numbers, or, cut in
      pieces, unless asked otherwise. */
  predicate GoesReliably(p: Packet, fragmented: bool, unreliable: uint16) {
    if fragmented then p.reliable || !p.unreliableFragment || unreliable >= 0xFFFF
    else p.reliable || (!p.unsequenced && unreliable >= 0xFFFF)
  }

  /** `x` is the command for piece `i` of `m` on channel `c`. */
  ghost predicate Carries(x: Command, m: Message, i: nat, c: nat)
    requires m.Valid() && i < m.Pieces()
  {
    PieceInside(m, i);
    x.channel == c && x.hasPacket && x.offset == m.Offset(i) && x.length == m.Length(i) && x.attempts == 0
  }

  /** The loop that lays out the pieces of a long packet. */
  method Layout(m: Message) returns (pieces: seq<(nat, nat)>)
    requires m.Valid() && m.Fragmented()
    ensures |pieces| == m.Pieces()
    ensures forall i | 0 <= i < |pieces| :: m.Offset(i) <= |m.data| && pieces[i] == (m.Offset(i), m.Length(i))
  {
    var fragmentLength, fragmentOffset := m.limit, 0;
    pieces := [];
    while fragmentOffset < |m.data|
      invariant fragmentOffset == if m.Offset(|pieces|) < |m.data| then m.Offset(|pieces|) else |m.data|
      invariant |pieces| <= m.Pieces() && (m.Offset(|pieces|) >= |m.data| ==> |pieces| == m.Pieces())
      invariant m.Offset(|pieces|) <= |m.data| ==> fragmentLength == m.limit
      invariant fragmentLength > 0
      invariant forall i | 0 <= i < |pieces| :: m.Offset(i) <= |m.data| && pieces[i] == (m.Offset(i), m.Length(i))
      decreases |m.data| - fragmentOffset
    {
      CountInside(|m.data|, m.limit, |pieces|);
      CountInside(|m.data|, m.limit, |pieces| + 1);
      if |m.data| - fragmentOffset < fragmentLength {
        fragmentLength := |m.data| - fragmentOffset;
      }
      pieces := pieces + [(fragmentOffset, fragmentLength)];
      fragmentOffset := fragmentOffset + fragmentLength;
    }
  }

  /**
   Reliable pieces take the channel's next numbers, one each; unreliable ones share the next unreliable
   number, which has not wrapped around.
   */
  method Send(peer: Peer, c: nat, p: Packet, maximumPacketSize: nat, checksum: bool) returns (ok: bool)
    requires peer.Valid() && MIN_MTU <= peer.mtu <= MAX_MTU
    modifies peer`channels, peer`outgoing, peer`outgoingReliable, peer`outgoingUnsequencedGroup
    ensures peer.Valid()
    ensures var m := Message(p.data, PieceLimit(peer.mtu, checksum));
            ok <==> peer.state == PeerStates.Connected && c < |old(peer.channels)| && |p.data| <= maximumPacketSize && (m.Fragmented() ==> m.Pieces() <= MAX_FRAGMENTS)
    ensures !ok ==> peer.View() == old(peer.View())
    ensures ok ==>
              var m := Message(p.data, PieceLimit(peer.mtu, checksum));
              Queued(old(peer.View()), peer.View(), c, m, GoesReliably(p, m.Fragmented(), old(peer.channels[c].outgoingUnreliable)),
                     p.unsequenced && !p.reliable && !m.Fragmented())
    ensures Leads(old(peer.View()), peer.View(), 0)
  {
    hide Queues.Valid, Leads, SendNext, Queued;
    LeadsNowhere(peer.View(), 0);
    if peer.state != PeerStates.Connected || c >= |peer.channels| || |p.data| > maximumPacketSize {
      return false;
    }
    var fragmentLength := peer.mtu - HEADER_SIZE - FRAGMENT_SIZE;
    if checksum {
      fragmentLength := fragmentLength - CHECKSUM_SIZE;
    }
    var m := Message(p.data, fragmentLength);
    var exhausted := peer.channels[c].outgoingUnreliable >= 0xFFFF;
    if |p.data| > fragmentLength {
      CountQuotient(|p.data|, fragmentLength);
      var fragmentCount := (|p.data| + fragmentLength - 1) / fragmentLength;
      if fragmentCount > MAX_FRAGMENTS {
        return false;
      }
      var reliable := p.reliable || !p.unreliableFragment || exhausted;
      var pieces := Layout(m);
      SendPieces(peer, c, m, pieces, reliable);
    } else {
      var reliable := p.reliable || (!p.unsequenced && exhausted);
      SendWhole(peer, c, m, reliable, p.unsequenced && !p.reliable);
    }
    ok := true;
  }

  /** Command `x`, new in the queue, carries piece `i` of `m`. */
  ghost predicate PieceQueued(q: Queues, x: Command, c: nat, m: Message, i: nat, reliable: bool, unsequenced: bool)
    requires c < |q.channels| && m.Valid()
  {
    && i < m.Pieces() && Carries(x, m, i, c) && x.reliable == reliable && x.unsequenced == unsequenced
    && (reliable ==> x.number == q.channels[c].numbered + 1 + i && x.sequence == Wire(x.number))
    && (!reliable && !unsequenced ==>
          x.sequence == Wire(q.channels[c].numbered) && x.unreliableSequence == q.channels[c].outgoingUnreliable + 1)
  }

  ghost predicate PiecesQueued(q: Queues, added: seq<Command>, c: nat, m: Message, reliable: bool, unsequenced: bool)
    requires c < |q.channels| && m.Valid()
  {
    forall i | 0 <= i < |added| :: PieceQueued(q, added[i], c, m, i, reliable, unsequenced)
  }

  /** What sending `m` on channel `c` adds to the queue. */
  ghost predicate Queued(q: Queues, q': Queues, c: nat, m: Message, reliable: bool, unsequenced: bool)
    requires c < |q.channels| && m.Valid()
  {
    && |q'.channels| == |q.channels| && q'.sentReliable == q.sentReliable
    && q'.channels[c].numbered == q.channels[c].numbered + (if reliable then m.Pieces() else 0)
    && |q'.outgoing| == |q.outgoing| + m.Pieces() && q'.outgoing[..|q.outgoing|] == q.outgoing
    && PiecesQueued(q, q'.outgoing[|q.outgoing|..], c, m, reliable, unsequenced)
  }

  lemma OneMore(q: Queues, added: seq<Command>, x: Command, c: nat, m: Message, reliable: bool)
    requires c < |q.channels| && m.Valid() && PiecesQueued(q, added, c, m, reliable, false)
    requires PieceQueued(q, x, c, m, |added|, reliable, false)
    ensures PiecesQueued(q, added + [x], c, m, reliable, false)
  {
    var all := added + [x];
    assert forall i | 0 <= i < |all| :: all[i] == if i < |added| then added[i] else x;
  }

  method SendPieces(peer: Peer, c: nat, m: Message, pieces: seq<(nat, nat)>, reliable: bool)
    requires peer.Valid() && c < |peer.channels| && m.Valid() && m.Fragmented() && |pieces| == m.Pieces()
    requires forall i | 0 <= i < |pieces| :: m.Offset(i) <= |m.data| && pieces[i] == (m.Offset(i), m.Length(i))
    requires reliable || peer.channels[c].outgoingUnreliable < 0xFFFF
    modifies peer`channels, peer`outgoing, peer`outgoingReliable, peer`outgoingUnsequencedGroup
    ensures peer.Valid()
    ensures Queued(old(peer.View()), peer.View(), c, m, reliable, false)
    ensures Leads(old(peer.View()), peer.View(), 0)
  {
    hide Queues.Valid, Count, Steps, PiecesQueued, Leads, SendNext;
    LeadsNowhere(peer.View(), 0);
    ghost var q, added := peer.View(), [];
    assert PiecesQueued(q, added, c, m, reliable, false) by { NoneQueued(q, c, m, reliable); }
    for n := 0 to |pieces|
      invariant peer.Valid() && |peer.channels| == |q.channels| && peer.sentReliable == q.sentReliable
      invariant peer.outgoing == q.outgoing + added && |added| == n && PiecesQueued(q, added, c, m, reliable, false)
      invariant peer.channels[c].numbered == q.channels[c].numbered + if reliable then n else 0
      invariant Leads(q, peer.View(), 0)
      invariant !reliable ==> peer.channels[c].outgoingUnreliable == q.channels[c].outgoingUnreliable + if n > 0 then 1 else 0
    {
      var (offset, length) := pieces[n];
      FirstAtZero(m, n);
      ghost var before := peer.View();
      peer.SetupOutgoingCommand(Command(reliable, false, c, FRAGMENT_SIZE, true, offset, length, 0, 0, 0, 0, 0, 0, 0));
      ghost var x := peer.outgoing[|q.outgoing| + n];
      LeadsOn(q, before, Add(x, peer.View().(outgoing := before.outgoing)), peer.View(), 0);
      assert peer.outgoing == q.outgoing + (added + [x]);
      OneMore(q, added, x, c, m, reliable);
      added := added + [x];
    }
    assert peer.outgoing[|q.outgoing|..] == added;
  }

  /** A packet that fits into one command. */
  method SendWhole(peer: Peer, c: nat, m: Message, reliable: bool, unsequenced: bool)
    requires peer.Valid() && c < |peer.channels| && m.Valid() && !m.Fragmented() && !(reliable && unsequenced)
    requires reliable || unsequenced || peer.channels[c].outgoingUnreliable < 0xFFFF
    modifies peer`channels, peer`outgoing, peer`outgoingReliable, peer`outgoingUnsequencedGroup
    ensures peer.Valid()
    ensures Queued(old(peer.View()), peer.View(), c, m, reliable, unsequenced)
    ensures Leads(old(peer.View()), peer.View(), 0)
  {
    hide Queues.Valid, Leads, SendNext;
    ghost var q := peer.View();
    var size := if reliable then RELIABLE_SIZE else UNRELIABLE_SIZE;
    peer.SetupOutgoingCommand(Command(reliable, unsequenced, c, size, true, 0, |m.data|, 0, 0, 0, 0, 0, 0, 0));
    LeadsByOne(q, Add(peer.outgoing[|q.outgoing|], peer.View().(outgoing := q.outgoing)), peer.View(), 0);
    assert peer.outgoing[|q.outgoing|..] == [peer.outgoing[|q.outgoing|]];
    assert m.Offset(0) == 0 && m.Length(0) == |m.data|;
  }

  lemma NoneQueued(q: Queues, c: nat, m: Message, reliable: bool)
    requires c < |q.channels| && m.Valid()
    ensures PiecesQueued(q, [], c, m, reliable, false)
  {
  }

  lemma FirstAtZero(m: Message, i: nat)
    requires m.Valid()
    ensures m.Offset(i) == 0 <==> i == 0
  {
  }

  /**
   How the throttle comes to drop a reliable command that was never sent: a reliable packet behind an unsequenced
   one goes with it when its number is divisible by 65536, and the channel's numbering then never recovers.
   */
  method ReliableAfterUnsequenced(peer: Peer, c: nat) returns (gone: bool)
    requires peer.Valid() && c < |peer.channels| && peer.outgoing == []
    modifies peer`channels, peer`outgoing, peer`outgoingReliable, peer`outgoingUnsequencedGroup, peer`sentUnreliable,
             peer`packetThrottleCounter
    ensures |peer.channels| == |old(peer.channels)| && peer.channels[c].numbered == old(peer.channels)[c].numbered + 1
    ensures gone <==> Advance(old(peer.packetThrottleCounter)) > peer.packetThrottle && peer.channels[c].numbered % 0x1_0000 == 0
    ensures peer.sentReliable == old(peer.sentReliable) && (gone <==> peer.outgoing == [])
    ensures gone ==> !peer.Valid()
  {
    hide Queues.Valid, SendNext;
    SentNumbered(peer.View(), c);
    peer.SetupOutgoingCommand(Command(false, true, c, UNRELIABLE_SIZE, true, 0, 1, 0, 0, 0, 0, 0, 0, 0));
    peer.SetupOutgoingCommand(Command(true, false, c, RELIABLE_SIZE, true, 0, 1, 0, 0, 0, 0, 0, 0, 0));
    ReliableCommandDropped(peer.outgoing[0], peer.outgoing[1]);
    assert peer.outgoing == [peer.outgoing[0], peer.outgoing[1]];
    var _ := peer.SendUnreliable(0);
    gone := peer.outgoing == [];
    if gone {
      NumberLost(peer.View(), c);
    }
  }
}
