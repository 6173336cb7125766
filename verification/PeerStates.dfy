/** The states of an ENet host's peers and what the host counts about them: enet/peer.c and enet/protocol.c. */
module PeerStates {
  import opened Machine
  import opened Sums

  datatype State = Disconnected | Connecting | AcknowledgingConnect | ConnectionPending | ConnectionSucceeded
                 | Connected | DisconnectLater | Disconnecting | AcknowledgingDisconnect | Zombie

  /** Of `ENetPeer`: the state, what the peer can receive, and whether anything reliable is still to be sent. */
  datatype PeerInfo = PeerInfo(state: State, incomingBandwidth: uint32, eventData: uint32, queuesEmpty: bool) {
    predicate Online() {
      state == Connected || state == DisconnectLater
    }
  }

  /** Where a peer is, and the number its connection was given: `address` and `connectID` of `ENetPeer`. */
  datatype Origin = Origin(host: uint32, port: uint16, connectID: uint32)

  const MINIMUM_CHANNEL_COUNT := 1
  const MAXIMUM_CHANNEL_COUNT := 255

  datatype Event = NoEvent | ConnectEvent(peer: nat, data: uint32) | DisconnectEvent(peer: nat, data: uint32)

  ghost function Online(s: seq<PeerInfo>): seq<nat> {
    seq(|s|, i requires 0 <= i < |s| => if s[i].Online() then 1 else 0)
  }

  ghost function Limited(s: seq<PeerInfo>): seq<nat> {
    seq(|s|, i requires 0 <= i < |s| => if s[i].Online() && s[i].incomingBandwidth != 0 then 1 else 0)
  }

  /** The counters tell how many peers are online, and how many of them have a limit. */
  ghost predicate Counted(s: seq<PeerInfo>, connected: int, limited: int) {
    connected == Sum(Online(s)) && limited == Sum(Limited(s))
  }

  /** One peer changes, and the counters with it. */
  lemma {:induction false} CountedChange(s: seq<PeerInfo>, i: nat, p: PeerInfo, connected: int, limited: int)
    requires i < |s| && Counted(s, connected, limited)
    ensures Counted(s[i := p], connected + Online([p])[0] - Online([s[i]])[0], limited + Limited([p])[0] - Limited([s[i]])[0])
    ensures connected >= Online([s[i]])[0] && limited >= Limited([s[i]])[0]
  {
    hide Sum;
    assert Online(s[i := p]) == Online(s)[i := Online([p])[0]];
    SumUpdate(Online(s), i, Online([p])[0]);
    SumPart(Online(s), i);
    assert Limited(s[i := p]) == Limited(s)[i := Limited([p])[0]];
    SumUpdate(Limited(s), i, Limited([p])[0]);
    SumPart(Limited(s), i);
  }

  /** What the bandwidth throttle reads off the counters. */
  lemma {:induction false} CountersTell(s: seq<PeerInfo>, connected: int, limited: int)
    requires Counted(s, connected, limited)
    ensures 0 <= limited <= connected
    ensures connected == 0 <==> forall i | 0 <= i < |s| :: !s[i].Online()
    ensures limited == 0 <==> forall i | 0 <= i < |s| && s[i].Online() :: s[i].incomingBandwidth == 0
  {
    hide Sum;
    SumAll(Limited(s), Online(s));
    if forall i | 0 <= i < |s| :: !s[i].Online() {
      SumZero(Online(s));
    } else {
      var i :| 0 <= i < |s| && s[i].Online();
      SumPart(Online(s), i);
    }
    if forall i | 0 <= i < |s| && s[i].Online() :: s[i].incomingBandwidth == 0 {
      SumZero(Limited(s));
    } else {
      var i :| 0 <= i < |s| && s[i].Online() && s[i].incomingBandwidth != 0;
      SumPart(Limited(s), i);
    }
  }

  // ---------- What happens to a peer ----------

  /** What the application asks for, what the other side sends, and what the host does of itself; `waiting` tells whether
      somebody waits for events. */
  datatype Step =
    | Connect
    | Accept(incomingBandwidth: uint32, data: uint32)
    | Verify(agreed: bool, incomingBandwidth: uint32, waiting: bool)
    | Acknowledge(verifies: bool, disconnects: bool, emptied: bool, waiting: bool)
    | Limit(incomingBandwidth: uint32)
    | Asked(acknowledge: bool, data: uint32)
    | AcknowledgementSent
    | RanOut(waiting: bool)
    | Dispatched
    | Leave
    | LeaveNow
    | LeaveWhenSent(data: uint32)

  datatype News = NoNews | Joined(data: uint32) | Left(data: uint32)

  /** The peer as it starts, and as a reset leaves it. */
  const FREE := PeerInfo(Disconnected, 0, 0, true)

  /** On the way out already, or not there. */
  predicate Gone(state: State) {
    state == Disconnecting || state == Disconnected || state == AcknowledgingDisconnect || state == Zombie
  }

  /** Whether losing the peer is worth an event: it was being connected to, or connected. */
  predicate Known(state: State) {
    state == Connecting || !(state == Disconnected || state == AcknowledgingConnect || state == ConnectionPending)
  }

  function LeaveNext(p: PeerInfo): PeerInfo {
    if Gone(p.state) then p else if p.Online() then p.(state := Disconnecting, queuesEmpty := false) else FREE
  }

  function AcknowledgeNext(p: PeerInfo, verifies: bool, disconnects: bool, emptied: bool, waiting: bool): PeerInfo {
    var q := p.(queuesEmpty := emptied);
    match p.state
    case Disconnected | Zombie => p
    case AcknowledgingConnect => if verifies then q.(state := if waiting then Connected else ConnectionPending) else q
    case Disconnecting => if !disconnects then q else if waiting then FREE else q.(state := Zombie, eventData := 0)
    case DisconnectLater => if emptied then q.(state := Disconnecting, queuesEmpty := false) else q
    case _ => q
  }

  function AskedNext(p: PeerInfo, acknowledge: bool, data: uint32): PeerInfo {
    match p.state
    case Disconnected | Zombie | AcknowledgingDisconnect => p
    case ConnectionSucceeded | Disconnecting | Connecting => p.(state := Zombie, queuesEmpty := true, eventData := data)
    case Connected | DisconnectLater =>
      p.(state := if acknowledge then AcknowledgingDisconnect else Zombie, queuesEmpty := true, eventData := data)
    case _ => FREE
  }

  /** What a step makes of a peer. */
  function Next(p: PeerInfo, step: Step): PeerInfo {
    match step
    case Connect => p.(state := Connecting, queuesEmpty := false)
    case Accept(incomingBandwidth, data) => PeerInfo(AcknowledgingConnect, incomingBandwidth, data, false)
    case Verify(agreed, incomingBandwidth, waiting) =>
      if p.state != Connecting then p
      else if !agreed then p.(eventData := 0, state := Zombie)
      else p.(incomingBandwidth := incomingBandwidth, state := if waiting then Connected else ConnectionSucceeded)
    case Acknowledge(verifies, disconnects, emptied, waiting) => AcknowledgeNext(p, verifies, disconnects, emptied, waiting)
    case Limit(incomingBandwidth) => if p.Online() then p.(incomingBandwidth := incomingBandwidth) else p
    case Asked(acknowledge, data) => AskedNext(p, acknowledge, data)
    case AcknowledgementSent => p.(state := Zombie)
    case RanOut(waiting) => if Known(p.state) && !waiting then p.(eventData := 0, state := Zombie) else FREE
    case Dispatched =>
      if p.state == ConnectionPending || p.state == ConnectionSucceeded then p.(state := Connected)
      else if p.state == Zombie then FREE else p
    case Leave => LeaveNext(p)
    case LeaveNow => if p.state == Disconnected then p else FREE
    case LeaveWhenSent(data) =>
      if p.Online() && !p.queuesEmpty then p.(state := DisconnectLater, eventData := data) else LeaveNext(p)
  }

  /** What the application hears of it. */
  function Tells(p: PeerInfo, step: Step): News {
    match step
    case Verify(agreed, _, waiting) => if p.state == Connecting && agreed && waiting then Joined(p.eventData) else NoNews
    case Acknowledge(verifies, disconnects, _, waiting) =>
      if !waiting then NoNews
      else if p.state == AcknowledgingConnect && verifies then Joined(p.eventData)
      else if p.state == Disconnecting && disconnects then Left(0) else NoNews
    case RanOut(waiting) => if Known(p.state) && waiting then Left(0) else NoNews
    case Dispatched =>
      if p.state == ConnectionPending || p.state == ConnectionSucceeded then Joined(p.eventData)
      else if p.state == Zombie then Left(p.eventData) else NoNews
    case _ => NoNews
  }

  function EventOf(i: nat, news: News): Event {
    match news
    case NoNews => NoEvent
    case Joined(data) => ConnectEvent(i, data)
    case Left(data) => DisconnectEvent(i, data)
  }

  /** When a step can come about. A free peer is taken for a connection; the acknowledgement of a request to disconnect is
      queued in one state only. */
  predicate Possible(p: PeerInfo, step: Step) {
    match step
    case Connect | Accept(_, _) => p.state == Disconnected
    case AcknowledgementSent => p.state == AcknowledgingDisconnect
    case _ => true
  }

  // ---------- What the application can rely on ----------

  /** What the application takes a peer for, by what it asked for and what it was told. */
  datatype Standing = Absent | Attempted | Present

  /** Something that the application asks for. */
  predicate AskedFor(step: Step) {
    step.Connect? || step.Leave? || step.LeaveNow? || step.LeaveWhenSent?
  }

  function Regarded(w: Standing, p: PeerInfo, step: Step): Standing {
    if step.Connect? then Attempted
    else if AskedFor(step) then (if Next(p, step).state == Disconnected then Absent else w)
    else
      match Tells(p, step)
      case NoNews => w
      case Joined(_) => Present
      case Left(_) => Absent
  }

  /** What a state means to the application. */
  predicate Stands(state: State, w: Standing) {
    match state
    case Disconnected | AcknowledgingConnect | ConnectionPending => w == Absent
    case Connecting | ConnectionSucceeded => w == Attempted
    case Zombie => w != Absent
    case Connected | DisconnectLater | Disconnecting | AcknowledgingDisconnect => w == Present
  }

  /** No one who is there joins, no one leaves who was neither there nor asked for, and no one is lost without news but
      those whom the application itself gives up. */
  lemma {:induction false} StandingKept(p: PeerInfo, w: Standing, step: Step)
    requires Stands(p.state, w) && Possible(p, step)
    ensures Stands(Next(p, step).state, Regarded(w, p, step))
    ensures Tells(p, step).Joined? ==> w != Present && Next(p, step).state == Connected
    ensures Tells(p, step).Left? ==> w != Absent && Next(p, step) == FREE
    ensures w != Absent && !AskedFor(step) && Next(p, step).state == Disconnected ==> Tells(p, step).Left?
  {
  }

  /** A peer after some steps, and what the application takes it for. */
  function After(p: PeerInfo, steps: seq<Step>): PeerInfo {
    if steps == [] then p else Next(After(p, steps[..|steps| - 1]), steps[|steps| - 1])
  }

  function RegardedAfter(p: PeerInfo, w: Standing, steps: seq<Step>): Standing {
    if steps == [] then w
    else
      var n := |steps| - 1;
      Regarded(RegardedAfter(p, w, steps[..n]), After(p, steps[..n]), steps[n])
  }

  ghost predicate AllPossible(p: PeerInfo, steps: seq<Step>) {
    forall k | 0 <= k < |steps| :: Possible(After(p, steps[..k]), steps[k])
  }

  /** So in every state of every run of a peer, as often as it is used. */
  lemma {:induction false} StandingThroughout(steps: seq<Step>)
    requires AllPossible(FREE, steps)
    ensures Stands(After(FREE, steps).state, RegardedAfter(FREE, Absent, steps))
  {
    hide Next, Regarded, Stands, Possible;
    if steps == [] {
      assert Stands(Disconnected, Absent) by {
        NobodyThere();
      }
    } else {
      var n := |steps| - 1;
      var before := steps[..n];
      forall k | 0 <= k < n ensures Possible(After(FREE, before[..k]), before[k]) {
        assert before[..k] == steps[..k] && before[k] == steps[k];
      }
      StandingThroughout(before);
      assert Possible(After(FREE, steps[..n]), steps[n]);
      StandingKept(After(FREE, before), RegardedAfter(FREE, Absent, before), steps[n]);
    }
  }

  lemma NobodyThere()
    ensures Stands(Disconnected, Absent)
  {
  }

  /** A peer whose request is to be acknowledged stays until that has been sent, and is a zombie only then; unless it runs
      out of time, or the application gives it up at once. */
  lemma {:induction false} ZombieOnceAcknowledged(p: PeerInfo, step: Step, data: uint32)
    requires Possible(p, step)
    ensures p.Online() ==> Next(p, Asked(true, data)).state == AcknowledgingDisconnect && Next(p, Asked(false, data)).state == Zombie
    ensures p.state == AcknowledgingDisconnect ==>
              && (Next(p, step).state == Zombie <==> step.AcknowledgementSent? || (step.RanOut? && !step.waiting))
              && (Next(p, step).state == AcknowledgingDisconnect <==> !(step.AcknowledgementSent? || step.RanOut? || step.LeaveNow?))
    ensures p.state == AcknowledgingDisconnect && !step.RanOut? && !step.LeaveNow? ==> Next(p, step).eventData == p.eventData
  {
  }

  class PeerHost {
    const peers: array<PeerInfo>
    const origins: array<Origin>
    const duplicatePeers: nat
    var connectedPeers: nat
    var bandwidthLimitedPeers: nat
    var recalculateBandwidthLimits: bool

    ghost predicate Valid()
      reads this, peers
    {
      Counted(peers[..], connectedPeers, bandwidthLimitedPeers)
    }

    /** Only peer `i` changed, into `p`. */
    twostate predicate Became(i: nat, p: PeerInfo)
      requires i < peers.Length
      reads this, peers
    {
      peers[..] == old(peers[..])[i := p]
    }

    constructor (peerCount: nat, duplicatePeers: nat)
      ensures Valid() && peers.Length == origins.Length == peerCount && fresh(peers) && fresh(origins)
      ensures forall i | 0 <= i < peerCount :: peers[i] == PeerInfo(Disconnected, 0, 0, true)
    {
      peers := new PeerInfo[peerCount](_ => PeerInfo(Disconnected, 0, 0, true));
      origins := new Origin[peerCount](_ => Origin(0, 0, 0));
      this.duplicatePeers := duplicatePeers;
      connectedPeers, bandwidthLimitedPeers, recalculateBandwidthLimits := 0, 0, false;
      new;
      SumZero(Online(peers[..]));
      SumZero(Limited(peers[..]));
    }

    /** `enet_peer_on_connect`, for a peer about to become `p`, which is online. */
    method OnConnect(i: nat, ghost p: PeerInfo)
      requires Valid() && i < peers.Length && p.Online() && p.incomingBandwidth == peers[i].incomingBandwidth
      modifies `connectedPeers, `bandwidthLimitedPeers
      ensures Counted(peers[..][i := p], connectedPeers, bandwidthLimitedPeers)
    {
      CountedChange(peers[..], i, p, connectedPeers, bandwidthLimitedPeers);
      if peers[i].state != Connected && peers[i].state != DisconnectLater {
        if peers[i].incomingBandwidth != 0 {
          bandwidthLimitedPeers := bandwidthLimitedPeers + 1;
        }
        connectedPeers := connectedPeers + 1;
      }
    }

    /** `enet_peer_on_disconnect`, for a peer about to become `p`, which is not online. */
    method OnDisconnect(i: nat, ghost p: PeerInfo)
      requires Valid() && i < peers.Length && !p.Online()
      modifies `connectedPeers, `bandwidthLimitedPeers
      ensures Counted(peers[..][i := p], connectedPeers, bandwidthLimitedPeers)
    {
      CountedChange(peers[..], i, p, connectedPeers, bandwidthLimitedPeers);
      if peers[i].state == Connected || peers[i].state == DisconnectLater {
        if peers[i].incomingBandwidth != 0 {
          bandwidthLimitedPeers := bandwidthLimitedPeers - 1;
        }
        connectedPeers := connectedPeers - 1;
      }
    }

    /** Change a peer that is offline and stays so; nothing is counted. */
    method SetOffline(i: nat, p: PeerInfo)
      requires Valid() && i < peers.Length && !peers[i].Online() && !p.Online()
      modifies peers
      ensures Valid() && Became(i, p)
    {
      CountedChange(peers[..], i, p, connectedPeers, bandwidthLimitedPeers);
      peers[i] := p;
      assert peers[..] == old(peers[..])[i := p];
    }

    /** `enet_protocol_change_state`. */
    method ChangeState(i: nat, state: State)
      requires Valid() && i < peers.Length
      modifies `connectedPeers, `bandwidthLimitedPeers, peers
      ensures Valid() && Became(i, old(peers[i]).(state := state))
    {
      var p := peers[i].(state := state);
      if state == Connected || state == DisconnectLater {
        OnConnect(i, p);
      } else {
        OnDisconnect(i, p);
      }
      peers[i] := p;
      assert peers[..] == old(peers[..])[i := p];
    }

    /** `enet_peer_reset`. */
    method Reset(i: nat)
      requires Valid() && i < peers.Length
      modifies `connectedPeers, `bandwidthLimitedPeers, peers
      ensures Valid() && Became(i, PeerInfo(Disconnected, 0, 0, true))
    {
      var p := PeerInfo(Disconnected, 0, 0, true);
      OnDisconnect(i, p);
      peers[i] := p;
      assert peers[..] == old(peers[..])[i := p];
    }

    /** The first free peer. */
    method FindFree() returns (i: nat)
      ensures i <= peers.Length && (i < peers.Length ==> peers[i].state == Disconnected)
      ensures forall k | 0 <= k < i :: peers[k].state != Disconnected
    {
      i := 0;
      while i < peers.Length && peers[i].state != Disconnected
        invariant i <= peers.Length && forall k | 0 <= k < i :: peers[k].state != Disconnected
      {
        i := i + 1;
      }
    }

    /** `enet_host_connect`. */
    method HostConnect(to: Origin) returns (i: nat)
      requires Valid() && peers.Length == origins.Length
      modifies peers, origins
      ensures Valid() && i <= peers.Length
      ensures i == peers.Length ==> peers[..] == old(peers[..]) && forall k | 0 <= k < peers.Length :: peers[k].state != Disconnected
      ensures i < peers.Length ==> Possible(old(peers[i]), Connect) && Became(i, Next(old(peers[i]), Connect))
                                   && (forall k | 0 <= k < i :: old(peers[k]).state != Disconnected)
      ensures origins[..] == if i < peers.Length then old(origins[..])[i := to] else old(origins[..])
    {
      i := FindFree();
      if i < peers.Length {
        SetOffline(i, peers[i].(state := Connecting, queuesEmpty := false));
        origins[i] := to;
      }
    }

    /** Peer `k` is being connected by, or connected to, the host that `from` is of. */
    ghost predicate SameHost(k: nat, from: Origin)
      requires k < peers.Length == origins.Length
      reads peers, origins
    {
      peers[k].state != Disconnected && peers[k].state != Connecting && origins[k].host == from.host
    }

    /** Of the first `n` peers, those of the same host. */
    ghost function Duplicates(n: nat, from: Origin): nat
      requires n <= peers.Length == origins.Length
      reads peers, origins
    {
      if n == 0 then 0 else Duplicates(n - 1, from) + if SameHost(n - 1, from) then 1 else 0
    }

    /** `enet_protocol_handle_connect`: the first free peer, unless the request is malformed, comes a second time, or
        comes from a host with too many peers already. */
    method HandleConnect(from: Origin, channelCount: uint32, incomingBandwidth: uint32, data: uint32) returns (ok: bool, i: nat)
      requires Valid() && peers.Length == origins.Length
      modifies peers, origins
      ensures Valid()
      ensures ok <==>
        && MINIMUM_CHANNEL_COUNT <= channelCount <= MAXIMUM_CHANNEL_COUNT
        && !(exists k | 0 <= k < peers.Length :: old(SameHost(k, from)) && old(origins[k]) == from)
        && (exists k | 0 <= k < peers.Length :: old(peers[k]).state == Disconnected)
        && old(Duplicates(peers.Length, from)) < duplicatePeers
      ensures !ok ==> peers[..] == old(peers[..]) && origins[..] == old(origins[..])
      ensures ok ==> i < peers.Length && Possible(old(peers[i]), Accept(incomingBandwidth, data))
                     && (forall k | 0 <= k < i :: old(peers[k]).state != Disconnected)
                     && Became(i, Next(old(peers[i]), Accept(incomingBandwidth, data)))
                     && origins[..] == old(origins[..])[i := from]
    {
      if channelCount < MINIMUM_CHANNEL_COUNT || channelCount > MAXIMUM_CHANNEL_COUNT {
        return false, 0;
      }
      i := peers.Length;
      var count, k: nat := 0, 0;
      while k < peers.Length
        invariant k <= peers.Length && count == Duplicates(k, from)
        invariant forall m | 0 <= m < k :: !(SameHost(m, from) && origins[m] == from)
        invariant i <= peers.Length && forall m | 0 <= m < k && m < i :: peers[m].state != Disconnected
        invariant i < k || i == peers.Length
        invariant i < peers.Length ==> peers[i].state == Disconnected
      {
        if peers[k].state == Disconnected {
          if i == peers.Length {
            i := k;
          }
        } else if peers[k].state != Connecting && origins[k].host == from.host {
          if origins[k].port == from.port && origins[k].connectID == from.connectID {
            return false, 0;
          }
          count := count + 1;
        }
        k := k + 1;
      }
      if i == peers.Length || count >= duplicatePeers {
        return false, 0;
      }
      ok := true;
      SetOffline(i, PeerInfo(AcknowledgingConnect, incomingBandwidth, data, false));
      origins[i] := from;
    }

    /** `enet_protocol_notify_connect`; `waiting` tells whether somebody waits for events. */
    method NotifyConnect(i: nat, waiting: bool) returns (event: Event)
      requires Valid() && i < peers.Length
      modifies this, peers
      ensures Valid() && recalculateBandwidthLimits
      ensures Became(i, old(peers[i]).(state :=
                if waiting then Connected
                else if old(peers[i]).state == Connecting then ConnectionSucceeded else ConnectionPending))
      ensures event == if waiting then ConnectEvent(i, old(peers[i]).eventData) else NoEvent
    {
      recalculateBandwidthLimits := true;
      if waiting {
        ChangeState(i, Connected);
        event := ConnectEvent(i, peers[i].eventData);
      } else {
        ChangeState(i, if peers[i].state == Connecting then ConnectionSucceeded else ConnectionPending);
        event := NoEvent;
      }
    }

    /** `enet_protocol_notify_disconnect`, on a timeout or the acknowledgement of a disconnection. */
    method NotifyDisconnect(i: nat, waiting: bool) returns (event: Event)
      requires Valid() && i < peers.Length
      modifies this, peers
      ensures Valid()
      ensures Became(i, Next(old(peers[i]), RanOut(waiting)))
      ensures event == EventOf(i, Tells(old(peers[i]), RanOut(waiting)))
    {
      event := NoEvent;
      var state := peers[i].state;
      if !(state == Disconnected || state == Connecting || state == AcknowledgingConnect) {
        recalculateBandwidthLimits := true;
      }
      if state != Connecting && (state == Disconnected || state == AcknowledgingConnect || state == ConnectionPending) {
        Reset(i);
      } else if waiting {
        event := DisconnectEvent(i, 0);
        Reset(i);
      } else {
        SetData(i, 0);
        ChangeState(i, Zombie);
      }
    }

    method SetData(i: nat, data: uint32)
      requires Valid() && i < peers.Length
      modifies peers
      ensures Valid() && Became(i, old(peers[i]).(eventData := data))
    {
      CountedChange(peers[..], i, peers[i].(eventData := data), connectedPeers, bandwidthLimitedPeers);
      peers[i] := peers[i].(eventData := data);
      assert peers[..] == old(peers[..])[i := old(peers[i]).(eventData := data)];
    }

    method SetQueues(i: nat, empty: bool)
      requires Valid() && i < peers.Length
      modifies peers
      ensures Valid() && Became(i, old(peers[i]).(queuesEmpty := empty))
    {
      CountedChange(peers[..], i, peers[i].(queuesEmpty := empty), connectedPeers, bandwidthLimitedPeers);
      peers[i] := peers[i].(queuesEmpty := empty);
      assert peers[..] == old(peers[..])[i := old(peers[i]).(queuesEmpty := empty)];
    }

    /** `enet_peer_disconnect`: whatever was queued is thrown away, and the request to disconnect is queued. */
    method Disconnect(i: nat)
      requires Valid() && i < peers.Length
      modifies `connectedPeers, `bandwidthLimitedPeers, peers
      ensures Valid()
      ensures Became(i, Next(old(peers[i]), Leave))
    {
      var state := peers[i].state;
      assert peers[..] == old(peers[..])[i := peers[i]];
      if state == Disconnecting || state == Disconnected || state == AcknowledgingDisconnect || state == Zombie {
        return;
      }
      SetQueues(i, false);
      if peers[i].state == Connected || peers[i].state == DisconnectLater {
        var p := peers[i].(state := Disconnecting);
        OnDisconnect(i, p);
        peers[i] := p;
        assert peers[..] == old(peers[..])[i := p];
      } else {
        Reset(i);
      }
    }

    /** `enet_peer_disconnect_now`: gone at once, whatever its state. */
    method DisconnectNow(i: nat)
      requires Valid() && i < peers.Length
      modifies `connectedPeers, `bandwidthLimitedPeers, peers
      ensures Valid()
      ensures Became(i, Next(old(peers[i]), LeaveNow))
    {
      assert peers[..] == old(peers[..])[i := peers[i]];
      if peers[i].state == Disconnected {
        return;
      }
      Reset(i);
    }

    /** `enet_peer_disconnect_later`: a connected peer stays counted until everything has been sent. */
    method DisconnectWhenSent(i: nat, data: uint32)
      requires Valid() && i < peers.Length
      modifies `connectedPeers, `bandwidthLimitedPeers, peers
      ensures Valid()
      ensures Became(i, Next(old(peers[i]), LeaveWhenSent(data)))
      ensures old(peers[i]).Online() && !old(peers[i]).queuesEmpty ==>
                connectedPeers == old(connectedPeers) && bandwidthLimitedPeers == old(bandwidthLimitedPeers)
    {
      if (peers[i].state == Connected || peers[i].state == DisconnectLater) && !peers[i].queuesEmpty {
        var p := peers[i].(state := DisconnectLater, eventData := data);
        CountedChange(peers[..], i, p, connectedPeers, bandwidthLimitedPeers);
        peers[i] := p;
        assert peers[..] == old(peers[..])[i := p];
      } else {
        Disconnect(i);
      }
    }

    /** `enet_protocol_handle_verify_connect`. */
    method HandleVerifyConnect(i: nat, agreed: bool, incomingBandwidth: uint32, waiting: bool) returns (ok: bool, event: Event)
      requires Valid() && i < peers.Length
      modifies this, peers
      ensures Valid()
      ensures ok == (old(peers[i]).state == Connecting ==> agreed)
      ensures Became(i, Next(old(peers[i]), Verify(agreed, incomingBandwidth, waiting)))
      ensures event == EventOf(i, Tells(old(peers[i]), Verify(agreed, incomingBandwidth, waiting)))
    {
      ok, event := true, NoEvent;
      assert peers[..] == old(peers[..])[i := peers[i]];
      if peers[i].state != Connecting {
        return;
      }
      if !agreed {
        SetData(i, 0);
        ChangeState(i, Zombie);
        return false, NoEvent;
      }
      SetOffline(i, peers[i].(incomingBandwidth := incomingBandwidth));
      event := NotifyConnect(i, waiting);
    }

    /** `enet_protocol_handle_bandwidth_limit`: the peer's limit may come or go while it is online. */
    method HandleBandwidthLimit(i: nat, incomingBandwidth: uint32) returns (ok: bool)
      requires Valid() && i < peers.Length
      modifies `bandwidthLimitedPeers, peers
      ensures Valid() && ok == old(peers[i]).Online()
      ensures Became(i, Next(old(peers[i]), Limit(incomingBandwidth)))
    {
      assert peers[..] == old(peers[..])[i := peers[i]];
      if peers[i].state != Connected && peers[i].state != DisconnectLater {
        return false;
      }
      var p := peers[i].(incomingBandwidth := incomingBandwidth);
      CountedChange(peers[..], i, p, connectedPeers, bandwidthLimitedPeers);
      if peers[i].incomingBandwidth != 0 {
        bandwidthLimitedPeers := bandwidthLimitedPeers - 1;
      }
      peers[i] := p;
      if peers[i].incomingBandwidth != 0 {
        bandwidthLimitedPeers := bandwidthLimitedPeers + 1;
      }
      assert peers[..] == old(peers[..])[i := p];
      ok := true;
    }

    /** `enet_protocol_handle_disconnect`: what a peer's request to disconnect makes of it. */
    method HandleDisconnect(i: nat, acknowledge: bool, data: uint32)
      requires Valid() && i < peers.Length
      modifies this, peers
      ensures Valid() && Became(i, Next(old(peers[i]), Asked(acknowledge, data))) && !peers[i].Online()
    {
      var state := peers[i].state;
      if state == Disconnected || state == Zombie || state == AcknowledgingDisconnect {
        assert peers[..] == old(peers[..])[i := peers[i]];
        return;
      }
      SetQueues(i, true);
      if state == ConnectionSucceeded || state == Disconnecting || state == Connecting {
        ChangeState(i, Zombie);
      } else if state != Connected && state != DisconnectLater {
        if state == ConnectionPending {
          recalculateBandwidthLimits := true;
        }
        Reset(i);
      } else if acknowledge {
        ChangeState(i, AcknowledgingDisconnect);
      } else {
        ChangeState(i, Zombie);
      }
      if peers[i].state != Disconnected {
        SetData(i, data);
      }
    }

    /**
     `enet_protocol_handle_acknowledge`, as far as states go: `verifies` and `disconnects` tell that the command
     acknowledged was the last of a connection or a request to disconnect, `early` that it comes from the future.
     */
    method HandleAcknowledge(i: nat, early: bool, verifies: bool, disconnects: bool, emptied: bool, waiting: bool)
      returns (ok: bool, event: Event)
      requires Valid() && i < peers.Length
      modifies this, peers
      ensures Valid()
      ensures Became(i, if early then old(peers[i]) else Next(old(peers[i]), Acknowledge(verifies, disconnects, emptied, waiting)))
      ensures var state := old(peers[i]).state;
              ok <==> early || ((state == AcknowledgingConnect ==> verifies) && (state == Disconnecting ==> disconnects))
      ensures event == if early then NoEvent else EventOf(i, Tells(old(peers[i]), Acknowledge(verifies, disconnects, emptied, waiting)))
    {
      ok, event := true, NoEvent;
      assert peers[..] == old(peers[..])[i := peers[i]];
      if peers[i].state == Disconnected || peers[i].state == Zombie || early {
        return;
      }
      SetQueues(i, emptied);
      match peers[i].state {
        case AcknowledgingConnect =>
          if !verifies {
            return false, NoEvent;
          }
          event := NotifyConnect(i, waiting);
        case Disconnecting =>
          if !disconnects {
            return false, NoEvent;
          }
          event := NotifyDisconnect(i, waiting);
        case DisconnectLater =>
          if peers[i].queuesEmpty {
            Disconnect(i);
          }
        case _ =>
      }
    }

    /** The acknowledgement of a disconnection has been sent (`enet_protocol_send_acknowledgements`). */
    method AcknowledgedDisconnect(i: nat)
      requires Valid() && i < peers.Length
      modifies `connectedPeers, `bandwidthLimitedPeers, peers
      ensures Valid() && Became(i, Next(old(peers[i]), AcknowledgementSent))
    {
      ChangeState(i, Zombie);
    }

    /** A peer of the dispatch queue (`enet_protocol_dispatch_incoming_commands`); received packets apart. */
    method Dispatch(i: nat) returns (event: Event)
      requires Valid() && i < peers.Length
      modifies this, peers
      ensures Valid()
      ensures Became(i, Next(old(peers[i]), Dispatched)) && event == EventOf(i, Tells(old(peers[i]), Dispatched))
    {
      assert peers[..] == old(peers[..])[i := peers[i]];
      event := NoEvent;
      match peers[i].state {
        case ConnectionPending | ConnectionSucceeded =>
          ChangeState(i, Connected);
          event := ConnectEvent(i, peers[i].eventData);
        case Zombie =>
          recalculateBandwidthLimits := true;
          event := DisconnectEvent(i, peers[i].eventData);
          Reset(i);
        case _ =>
      }
    }
  }
}
