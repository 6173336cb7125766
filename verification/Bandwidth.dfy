/** Sharing out bandwidth among the peers of an ENet host, enet/host.c. */
module Bandwidth {
  import opened Machine
  import opened Sums

  const SCALE := 32
  const INTERVAL := 1000

  /** What `ENetPeer` holds about bandwidth; connected means connected or about to disconnect. */
  datatype Rates = Rates(connected: bool, incomingBandwidth: uint32, outgoingBandwidth: uint32,
                         packetThrottle: uint32, packetThrottleLimit: uint32,
                         outgoingEpoch: uint32, incomingEpoch: uint32,
                         incomingDataTotal: uint32, outgoingDataTotal: uint32)

  /** A product of two `enet_uint32`. */
  function Times(a: uint32, b: uint32): uint32 {
    a * b % WORD
  }

  /** What `rate` bytes a second come to in `elapsed` milliseconds; the product is on 32 bits. */
  function Allowance(rate: uint32, elapsed: uint32): uint32 {
    Times(rate, elapsed) / 1000
  }

  /** It is what it should be exactly when the product does not wrap around. */
  lemma AllowanceExact(rate: uint32, elapsed: uint32)
    ensures Allowance(rate, elapsed) == rate * elapsed / 1000 <==> rate * elapsed < WORD
  {
    var p: nat := Product(rate, elapsed);
    if p >= WORD {
      assert p % WORD <= p - WORD;
      Thousandth(p % WORD, p);
    }
  }

  lemma Thousandth(a: nat, b: nat)
    requires a + 1000 <= b
    ensures a / 1000 < b / 1000
  {
  }

  ghost function Product(a: nat, b: nat): nat {
    a * b
  }

  /** It fails for a host allowed 4294968 bytes a second, after the usual second: nothing is left to share. */
  lemma AllowanceWraps()
    ensures Allowance(4294968, 1000) == 0
  {
  }

  // ---------- Outgoing: what is known of the peers in one pass ----------

  /** Connected, and not limited in this pass. */
  predicate Open(p: Rates, now: uint32) {
    p.connected && p.outgoingEpoch != now
  }

  ghost function Loads(s: seq<Rates>, now: uint32): seq<nat> {
    seq(|s|, i requires 0 <= i < |s| => if Open(s[i], now) then s[i].outgoingDataTotal else 0)
  }

  ghost function Opens(s: seq<Rates>, now: uint32): seq<nat> {
    seq(|s|, i requires 0 <= i < |s| => if Open(s[i], now) then 1 else 0)
  }

  /** What peer `p`, with `p0.outgoingDataTotal` bytes to send, may send, in parts of 1/32 byte. A peer raised to
      the least limit, 1, is not counted. */
  ghost function Cost(p0: Rates, p: Rates, now: uint32, elapsed: uint32): nat {
    if !p.connected then 0
    else if p.outgoingEpoch == now && Raised(p0, elapsed) then 0
    else Product(p.packetThrottleLimit, p0.outgoingDataTotal)
  }

  ghost predicate Raised(p0: Rates, elapsed: uint32) {
    SCALE * Allowance(p0.incomingBandwidth, elapsed) < p0.outgoingDataTotal
  }

  /** The costs of the peers limited so far. */
  ghost function Costs(s0: seq<Rates>, s: seq<Rates>, now: uint32, elapsed: uint32): seq<nat>
    requires |s| == |s0|
  {
    seq(|s|, i requires 0 <= i < |s| => if Open(s[i], now) then 0 else Cost(s0[i], s[i], now, elapsed))
  }

  /** `p` is the peer `p0` kept to what it can receive: it has more to be sent than that, its limit is the largest that
      will do, or 1 if that would be 0, and its throttle is at most that. */
  ghost predicate KeptToOwn(p0: Rates, p: Rates, now: uint32, elapsed: uint32) {
    var own, out, limit := Allowance(p0.incomingBandwidth, elapsed), p0.outgoingDataTotal, p.packetThrottleLimit;
    && own < out
    && (if SCALE * own < out then limit == 1 else Product(limit, out) <= SCALE * own < Product(limit + 1, out))
    && p == p0.(packetThrottleLimit := limit, packetThrottle := if p0.packetThrottle < limit then p0.packetThrottle else limit,
                outgoingEpoch := now, incomingDataTotal := 0, outgoingDataTotal := 0)
  }

  /** What the peers limited so far can receive. */
  ghost function Owns(s0: seq<Rates>, s: seq<Rates>, now: uint32, elapsed: uint32): seq<nat>
    requires |s| == |s0|
  {
    seq(|s|, i requires 0 <= i < |s| =>
      if s[i].connected && s[i].outgoingEpoch == now then Allowance(s0[i].incomingBandwidth, elapsed) else 0)
  }

  /** `p` after it was given the common throttle. */
  function Shared(p: Rates, throttle: uint32): Rates {
    p.(packetThrottleLimit := throttle, packetThrottle := if p.packetThrottle > throttle then throttle else p.packetThrottle,
       incomingDataTotal := 0, outgoingDataTotal := 0)
  }

  /** Where the first loop stands: who is limited already, and what is left of the bandwidth and of the data. */
  ghost predicate Sharing(s0: seq<Rates>, s: seq<Rates>, now: uint32, elapsed: uint32, total: nat,
                          bandwidth: nat, dataTotal: nat, remaining: nat, throttle: nat)
  {
    && |s| == |s0|
    && (forall i | 0 <= i < |s| :: s[i] == s0[i] || (Open(s0[i], now) && KeptToOwn(s0[i], s[i], now, elapsed)))
    && Sum(Loads(s, now)) <= dataTotal && remaining == Sum(Opens(s, now))
    && Product(throttle, Sum(Loads(s, now))) <= SCALE * bandwidth && throttle <= SCALE
    && bandwidth + Sum(Owns(s0, s, now, elapsed)) == total && Sum(Costs(s0, s, now, elapsed)) <= SCALE * (total - bandwidth)
  }

  /** A peer whose share would exceed what it can receive is limited; everything left stays as it should. */
  lemma LimitOne(s0: seq<Rates>, s: seq<Rates>, i: nat, p: Rates, now: uint32, elapsed: uint32, total: nat,
                 bandwidth: nat, dataTotal: nat, remaining: nat, throttle: nat, own: nat)
    requires Sharing(s0, s, now, elapsed, total, bandwidth, dataTotal, remaining, throttle) && i < |s|
    requires Open(s[i], now) && own == Allowance(s[i].incomingBandwidth, elapsed)
    requires Product(throttle, s[i].outgoingDataTotal) / SCALE > own && KeptToOwn(s[i], p, now, elapsed)
    ensures own <= bandwidth && own <= dataTotal && remaining > 0
    ensures Sharing(s0, s[i := p], now, elapsed, total, bandwidth - own, dataTotal - own, remaining - 1, throttle)
  {
    hide Product, Allowance;
    var out := s[i].outgoingDataTotal;
    SumPart(Opens(s, now), i);
    SumPart(Loads(s, now), i);
    ShareFits(throttle, out, own);
    var s' := s[i := p];
    assert Loads(s', now) == Loads(s, now)[i := 0];
    SumUpdate(Loads(s, now), i, 0);
    assert Opens(s', now) == Opens(s, now)[i := 0];
    SumUpdate(Opens(s, now), i, 0);
    var x := Cost(s0[i], p, now, elapsed);
    assert Costs(s0, s', now, elapsed) == Costs(s0, s, now, elapsed)[i := x];
    SumUpdate(Costs(s0, s, now, elapsed), i, x);
    LimitCost(s0[i], p, now, elapsed);
    assert Owns(s0, s', now, elapsed) == Owns(s0, s, now, elapsed)[i := own];
    SumUpdate(Owns(s0, s, now, elapsed), i, own);
    ShareLeft(throttle, Sum(Loads(s, now)), out, own, bandwidth);
  }

  lemma ShareFits(throttle: nat, out: nat, own: nat)
    requires throttle <= SCALE && Product(throttle, out) / SCALE > own
    ensures own < out && SCALE * own < Product(throttle, out)
  {
    MulMonotone(throttle, SCALE, out);
  }

  lemma MulMonotone(a: nat, b: nat, c: nat)
    requires a <= b
    ensures a * c <= b * c
  {
  }

  lemma ShareLeft(throttle: nat, load: nat, out: nat, own: nat, bandwidth: nat)
    requires Product(throttle, load) <= SCALE * bandwidth && out <= load && SCALE * own < Product(throttle, out)
    ensures own <= bandwidth && Product(throttle, load - out) <= SCALE * (bandwidth - own)
  {
    assert throttle * load == throttle * out + throttle * (load - out);
    assert throttle * (load - out) >= 0;
  }

  /** A limit of its own never lets a peer send more than it can receive, unless raised. */
  lemma LimitCost(p0: Rates, p: Rates, now: uint32, elapsed: uint32)
    requires KeptToOwn(p0, p, now, elapsed)
    ensures Cost(p0, p, now, elapsed) <= SCALE * Allowance(p0.incomingBandwidth, elapsed)
  {
    hide Allowance, Product;
  }

  /** The quotient that the code computes, raised to 1 if it is 0, is that limit. */
  lemma OwnLimit(own: uint32, out: uint32)
    requires own < out && SCALE * out < WORD
    ensures Times(own, SCALE) / out == 0 <==> SCALE * own < out
    ensures SCALE * own >= out ==>
              Product(Times(own, SCALE) / out, out) <= SCALE * own < Product(Times(own, SCALE) / out + 1, out)
  {
    assert Times(own, SCALE) == own * SCALE;
    Quotient(own * SCALE, out);
  }

  /** So the peer is kept to what it can receive. */
  lemma KeptBy(p: Rates, now: uint32, elapsed: uint32, limit: uint32)
    requires Allowance(p.incomingBandwidth, elapsed) < p.outgoingDataTotal && SCALE * p.outgoingDataTotal < WORD
    requires var q := Times(Allowance(p.incomingBandwidth, elapsed), SCALE) / p.outgoingDataTotal;
             limit == if q == 0 then 1 else q
    ensures KeptToOwn(p, p.(packetThrottleLimit := limit, packetThrottle := if p.packetThrottle > limit then limit else p.packetThrottle,
                            outgoingEpoch := now, incomingDataTotal := 0, outgoingDataTotal := 0), now, elapsed)
  {
    hide Times, Allowance, Product;
    OwnLimit(Allowance(p.incomingBandwidth, elapsed), p.outgoingDataTotal);
  }

  lemma Quotient(a: nat, b: nat)
    requires b > 0
    ensures a / b * b <= a < (a / b + 1) * b && (a / b == 0 <==> a < b)
  {
    var q := a / b;
    Remainder(a, b);
    OneMore(q, b);
    if q >= 1 {
      MulMonotone(1, q, b);
    }
  }

  lemma Remainder(a: nat, b: nat)
    requires b > 0
    ensures a == a / b * b + a % b && a % b < b
  {
  }

  lemma OneMore(a: nat, b: nat)
    ensures (a + 1) * b == a * b + b
  {
  }

  /** The throttle of a round. */
  function Throttle(bandwidth: uint32, dataTotal: uint32): uint32 {
    if dataTotal <= bandwidth then SCALE else Times(bandwidth, SCALE) / dataTotal
  }

  lemma ThrottleFits(bandwidth: uint32, dataTotal: uint32, load: nat)
    requires load <= dataTotal && (dataTotal > bandwidth ==> SCALE * bandwidth < WORD)
    ensures Throttle(bandwidth, dataTotal) <= SCALE
    ensures Product(Throttle(bandwidth, dataTotal), load) <= SCALE * bandwidth
  {
    var t := Throttle(bandwidth, dataTotal);
    if dataTotal > bandwidth {
      assert Times(bandwidth, SCALE) == SCALE * bandwidth;
      Quotient(SCALE * bandwidth, dataTotal);
      MulMonotone(load, dataTotal, t);
      if t > SCALE {
        MulMonotone(SCALE + 1, t, dataTotal);
      }
    }
  }

  lemma SharingStart(s: seq<Rates>, now: uint32, elapsed: uint32, bandwidth: uint32, dataTotal: uint32)
    requires forall i | 0 <= i < |s| :: s[i].outgoingEpoch != now
    requires Sum(Loads(s, now)) <= dataTotal
    ensures Sharing(s, s, now, elapsed, bandwidth, bandwidth, dataTotal, Sum(Opens(s, now)), 0)
  {
    SumZero(Costs(s, s, now, elapsed));
    SumZero(Owns(s, s, now, elapsed));
  }

  lemma SharingThrottle(s0: seq<Rates>, s: seq<Rates>, now: uint32, elapsed: uint32, total: nat,
                        bandwidth: uint32, dataTotal: uint32, remaining: nat, throttle: nat)
    requires Sharing(s0, s, now, elapsed, total, bandwidth, dataTotal, remaining, throttle)
    requires dataTotal > bandwidth ==> SCALE * bandwidth < WORD
    ensures Sharing(s0, s, now, elapsed, total, bandwidth, dataTotal, remaining, Throttle(bandwidth, dataTotal))
  {
    ThrottleFits(bandwidth, dataTotal, Sum(Loads(s, now)));
  }

  // ---------- Outgoing: the result ----------

  lemma {:induction false} SumScaled(a: seq<nat>, b: seq<nat>, t: nat)
    requires |a| == |b| && forall i | 0 <= i < |a| :: b[i] == Product(t, a[i])
    ensures Sum(b) == Product(t, Sum(a))
  {
    if a != [] {
      var n := |a| - 1;
      SumScaled(a[..n], b[..n], t);
      assert t * (Sum(a[..n]) + a[n]) == t * Sum(a[..n]) + t * a[n];
    }
  }

  ghost function AllCosts(s0: seq<Rates>, s: seq<Rates>, now: uint32, elapsed: uint32): seq<nat>
    requires |s| == |s0|
  {
    seq(|s|, i requires 0 <= i < |s| => Cost(s0[i], s[i], now, elapsed))
  }

  /** The largest throttle, up to 32, at which `data` bytes come to no more than `bandwidth`. */
  ghost predicate Largest(throttle: nat, bandwidth: int, data: int) {
    if data <= bandwidth then throttle == SCALE
    else throttle <= SCALE && throttle * data <= SCALE * bandwidth < (throttle + 1) * data
  }

  /**
   What a pass comes to: every connected peer is limited by what it can receive or by the common throttle,
   and together, raised peers aside, they stay within `total`. The common throttle is the largest for what is left of
   the bandwidth and of the data; of both, what the limited peers can receive is taken off.
   */
  ghost predicate Shares(s0: seq<Rates>, s: seq<Rates>, now: uint32, elapsed: uint32, total: nat, data: nat, throttle: uint32) {
    && |s| == |s0|
    && (forall i | 0 <= i < |s| :: ShareOf(s0[i], s[i], now, elapsed, throttle))
    && Sum(AllCosts(s0, s, now, elapsed)) <= SCALE * total
    && Largest(throttle, total - Sum(Owns(s0, s, now, elapsed)), data - Sum(Owns(s0, s, now, elapsed)))
  }

  ghost predicate ShareOf(p0: Rates, p: Rates, now: uint32, elapsed: uint32, throttle: uint32) {
    if !p0.connected then p == p0
    else
      || (p0.incomingBandwidth != 0 && KeptToOwn(p0, p, now, elapsed))
      || (&& p == p0.(packetThrottleLimit := throttle, packetThrottle := if p0.packetThrottle < throttle then p0.packetThrottle else throttle,
                      incomingDataTotal := 0, outgoingDataTotal := 0)
          && (p0.incomingBandwidth != 0 ==> Product(throttle, p0.outgoingDataTotal) / SCALE <= Allowance(p0.incomingBandwidth, elapsed)))
  }

  /** The common throttle is the largest for what is left. */
  lemma ThrottleLargest(bandwidth: uint32, dataTotal: uint32)
    requires dataTotal > bandwidth ==> SCALE * bandwidth < WORD
    ensures Largest(Throttle(bandwidth, dataTotal), bandwidth, dataTotal)
  {
    ThrottleFits(bandwidth, dataTotal, dataTotal);
    if dataTotal > bandwidth {
      assert Times(bandwidth, SCALE) == SCALE * bandwidth;
      Quotient(SCALE * bandwidth, dataTotal);
    }
  }

  /** The data of a limited peer are taken off only up to what it can receive, so that too much is counted as left for the
      others: their throttle is never higher than the bandwidth allows. */
  lemma HeldBack(bandwidth: nat, counted: nat, left: nat, throttle: nat, best: nat)
    requires left <= counted && Largest(throttle, bandwidth, counted) && Largest(best, bandwidth, left)
    ensures throttle <= best
  {
    if left > bandwidth {
      MulMonotone(left, counted, throttle);
      LessFactor(throttle, best + 1, left);
    }
  }

  lemma LessFactor(a: nat, b: nat, c: nat)
    ensures a * c < b * c ==> a < b
  {
    if a >= b {
      MulMonotone(b, a, c);
    }
  }

  /** And it may be lower: of 1000 bytes, with a peer that can receive 10 and has 1000 to receive, the other gets half of its
      990, though all of it would do. */
  lemma HeldBackWithoutNeed()
    ensures Largest(16, 1000 - 10, 1990 - 10) && Largest(32, 1000 - 10, 1990 - 1000)
  {
  }

  /** What is taken off for the limited peers does not depend on what the others get. */
  lemma OwnsStay(s0: seq<Rates>, s1: seq<Rates>, s: seq<Rates>, now: uint32, elapsed: uint32, throttle: uint32)
    requires |s0| == |s1| == |s|
    requires forall i | 0 <= i < |s| :: s[i] == if Open(s1[i], now) then Shared(s1[i], throttle) else s1[i]
    ensures Owns(s0, s, now, elapsed) == Owns(s0, s1, now, elapsed)
  {
  }

  /** The common throttle for those left completes the pass. */
  lemma SharedOut(s0: seq<Rates>, s1: seq<Rates>, s: seq<Rates>, now: uint32, elapsed: uint32, total: nat,
                  bandwidth: nat, dataTotal: nat, remaining: nat, throttle: uint32)
    requires Sharing(s0, s1, now, elapsed, total, bandwidth, dataTotal, remaining, throttle) && |s| == |s1|
    requires forall i | 0 <= i < |s| :: s[i] == if Open(s1[i], now) then Shared(s1[i], throttle) else s1[i]
    ensures Sum(AllCosts(s0, s, now, elapsed)) <= SCALE * total
  {
    var loads := Loads(s1, now);
    var rest := seq(|s|, i requires 0 <= i < |s| => Product(throttle, loads[i]));
    SumScaled(loads, rest, throttle);
    SumPlus(Costs(s0, s1, now, elapsed), rest, AllCosts(s0, s, now, elapsed));
  }

  /** Those that are not limited in a round can receive their share. */
  ghost predicate Satisfied(p: Rates, now: uint32, elapsed: uint32, throttle: uint32) {
    Open(p, now) && p.incomingBandwidth != 0 ==>
      Product(throttle, p.outgoingDataTotal) / SCALE <= Allowance(p.incomingBandwidth, elapsed)
  }

  /** What a round does to a peer: it is limited exactly if its share is more than it can receive. */
  ghost predicate Treated(p0: Rates, p: Rates, now: uint32, elapsed: uint32, throttle: uint32) {
    if Satisfied(p0, now, elapsed, throttle) then p == p0 else KeptToOwn(p0, p, now, elapsed)
  }

  class BandwidthHost {
    var peers: array<Rates>
    var connectedPeers: uint32
    var bandwidthLimitedPeers: uint32
    var incomingBandwidth: uint32
    var outgoingBandwidth: uint32
    var bandwidthThrottleEpoch: uint32
    var recalculateBandwidthLimits: bool

    /** A peer is limited to what it can receive. */
    method LimitPeer(i: nat, now: uint32, elapsed: uint32, peerBandwidth: uint32)
      requires i < peers.Length && peerBandwidth == Allowance(peers[i].incomingBandwidth, elapsed)
      requires peerBandwidth < peers[i].outgoingDataTotal && SCALE * peers[i].outgoingDataTotal < WORD
      modifies peers
      ensures peers[..] == old(peers[..])[i := peers[i]] && KeptToOwn(old(peers[i]), peers[i], now, elapsed)
    {
      hide Allowance, KeptToOwn, Times, Product;
      var p := peers[i];
      var limit := Times(peerBandwidth, SCALE) / p.outgoingDataTotal;
      KeptBy(p, now, elapsed, if limit == 0 then 1 else limit);
      p := p.(packetThrottleLimit := limit);
      if p.packetThrottleLimit == 0 {
        p := p.(packetThrottleLimit := 1);
      }
      if p.packetThrottle > p.packetThrottleLimit {
        p := p.(packetThrottle := p.packetThrottleLimit);
      }
      peers[i] := p.(outgoingEpoch := now, incomingDataTotal := 0, outgoingDataTotal := 0);
      assert peers[..] == old(peers[..])[i := peers[i]];
    }

    /** One round: limit every peer whose share is more than it can receive. */
    method LimitRound(now: uint32, elapsed: uint32, throttle: uint32, bandwidth0: uint32, dataTotal0: uint32,
                      remaining0: uint32, ghost s0: seq<Rates>, ghost total: nat)
      returns (adjusted: bool, bandwidth: uint32, dataTotal: uint32, remaining: uint32)
      requires Sharing(s0, peers[..], now, elapsed, total, bandwidth0, dataTotal0, remaining0, throttle)
      requires forall i | 0 <= i < |s0| :: SCALE * s0[i].outgoingDataTotal < WORD
      requires |s0| == peers.Length && forall i | 0 <= i < |s0| :: s0[i].incomingBandwidth == 0 ==> peers[i] == s0[i]
      modifies peers
      ensures Sharing(s0, peers[..], now, elapsed, total, bandwidth, dataTotal, remaining, throttle)
      ensures forall i | 0 <= i < |s0| :: s0[i].incomingBandwidth == 0 ==> peers[i] == s0[i]
      ensures forall i | 0 <= i < peers.Length :: Treated(old(peers[i]), peers[i], now, elapsed, throttle)
      ensures adjusted ==> remaining < remaining0
      ensures bandwidth <= bandwidth0 && dataTotal0 - dataTotal == bandwidth0 - bandwidth
      ensures !adjusted ==> remaining == remaining0 && bandwidth == bandwidth0 && dataTotal == dataTotal0
                            && forall i | 0 <= i < peers.Length :: Satisfied(peers[i], now, elapsed, throttle)
    {
      hide Sharing, Allowance, KeptToOwn, Times, Product;
      adjusted, bandwidth, dataTotal, remaining := false, bandwidth0, dataTotal0, remaining0;
      for i := 0 to peers.Length
        invariant Sharing(s0, peers[..], now, elapsed, total, bandwidth, dataTotal, remaining, throttle)
        invariant remaining <= remaining0 && (adjusted ==> remaining < remaining0)
        invariant bandwidth <= bandwidth0 && dataTotal0 - dataTotal == bandwidth0 - bandwidth
        invariant forall k | 0 <= k < |s0| :: s0[k].incomingBandwidth == 0 ==> peers[k] == s0[k]
        invariant forall k | i <= k < peers.Length :: peers[k] == old(peers[k])
        invariant forall k | 0 <= k < i :: Treated(old(peers[k]), peers[k], now, elapsed, throttle)
        invariant !adjusted ==> remaining == remaining0 && bandwidth == bandwidth0 && dataTotal == dataTotal0
                                && forall k | 0 <= k < i :: Satisfied(peers[k], now, elapsed, throttle)
      {
        ghost var s := peers[..];
        var p := peers[i];
        if !p.connected || p.incomingBandwidth == 0 || p.outgoingEpoch == now {
          continue;
        }
        SameTotals(s0, s, now, elapsed, total, bandwidth, dataTotal, remaining, throttle, i);
        var peerBandwidth := Times(p.incomingBandwidth, elapsed) / 1000;
        assert peerBandwidth == Allowance(p.incomingBandwidth, elapsed) by { AllowanceIs(p.incomingBandwidth, elapsed); }
        NoWrap(throttle, p.outgoingDataTotal);
        if Times(throttle, p.outgoingDataTotal) / SCALE <= peerBandwidth {
          continue;
        }
        ShareFits(throttle, p.outgoingDataTotal, peerBandwidth);
        LimitPeer(i, now, elapsed, peerBandwidth);
        LimitOne(s0, s, i, peers[i], now, elapsed, total, bandwidth, dataTotal, remaining, throttle, peerBandwidth);
        assert peers[..] == s[i := peers[i]];
        adjusted := true;
        remaining := remaining - 1;
        bandwidth := bandwidth - peerBandwidth;
        dataTotal := dataTotal - peerBandwidth;
      }
    }

    /** The first loop of `enet_host_bandwidth_throttle`: rounds until no peer needs a limit of its own. */
    method LimitPeers(now: uint32, elapsed: uint32, bandwidth0: uint32, dataTotal0: uint32, ghost s0: seq<Rates>)
      returns (bandwidth: uint32, dataTotal: uint32, remaining: uint32)
      requires peers[..] == s0 && (forall i | 0 <= i < |s0| :: s0[i].outgoingEpoch != now)
      requires Sum(Loads(s0, now)) <= dataTotal0 && connectedPeers == Sum(Opens(s0, now))
      requires forall i | 0 <= i < |s0| :: SCALE * s0[i].outgoingDataTotal < WORD
      requires SCALE * bandwidth0 < WORD || dataTotal0 == bandwidth0
      requires bandwidthLimitedPeers == 0 ==> forall i | 0 <= i < |s0| && s0[i].connected :: s0[i].incomingBandwidth == 0
      modifies peers
      ensures dataTotal > bandwidth ==> SCALE * bandwidth < WORD
      ensures bandwidth <= bandwidth0 && dataTotal0 - dataTotal == bandwidth0 - bandwidth
      ensures Sharing(s0, peers[..], now, elapsed, bandwidth0, bandwidth, dataTotal, remaining, Throttle(bandwidth, dataTotal))
      ensures forall i | 0 <= i < |s0| :: s0[i].incomingBandwidth == 0 ==> peers[i] == s0[i]
      ensures remaining > 0 ==> forall i | 0 <= i < peers.Length :: Satisfied(peers[i], now, elapsed, Throttle(bandwidth, dataTotal))
    {
      hide Sharing, Allowance, Sum, Throttle;
      var needsAdjustment := bandwidthLimitedPeers > 0;
      ghost var throttle0: nat := 0;
      bandwidth, dataTotal, remaining := bandwidth0, dataTotal0, connectedPeers;
      SharingStart(s0, now, elapsed, bandwidth, dataTotal);
      while remaining > 0 && needsAdjustment
        invariant Sharing(s0, peers[..], now, elapsed, bandwidth0, bandwidth, dataTotal, remaining, throttle0)
        invariant bandwidth <= bandwidth0 && dataTotal0 - dataTotal == bandwidth0 - bandwidth
        invariant forall i | 0 <= i < |s0| :: s0[i].incomingBandwidth == 0 ==> peers[i] == s0[i]
        invariant !needsAdjustment ==> forall i | 0 <= i < peers.Length :: Satisfied(peers[i], now, elapsed, Throttle(bandwidth, dataTotal))
        decreases remaining, needsAdjustment
      {
        SharingThrottle(s0, peers[..], now, elapsed, bandwidth0, bandwidth, dataTotal, remaining, throttle0);
        var throttle := Throttle(bandwidth, dataTotal);
        throttle0 := throttle;
        needsAdjustment, bandwidth, dataTotal, remaining :=
          LimitRound(now, elapsed, throttle, bandwidth, dataTotal, remaining, s0, bandwidth0);
      }
      SharingThrottle(s0, peers[..], now, elapsed, bandwidth0, bandwidth, dataTotal, remaining, throttle0);
    }

    /** What may be sent, and how much there is to send; a host without limit takes both for the largest number. */
    ghost function Total(elapsed: uint32): nat
      reads `outgoingBandwidth
    {
      if outgoingBandwidth == 0 then WORD - 1 else Allowance(outgoingBandwidth, elapsed)
    }

    ghost function Data(s: seq<Rates>, now: uint32): nat
      reads `outgoingBandwidth
    {
      if outgoingBandwidth == 0 then WORD - 1 else Sum(Loads(s, now))
    }

    /** The outgoing half of `enet_host_bandwidth_throttle`. */
    method ShareOutgoing(now: uint32, elapsed: uint32) returns (ghost throttle: uint32)
      requires forall p <- peers[..] :: p.outgoingEpoch != now && SCALE * p.outgoingDataTotal < WORD
      requires connectedPeers == Sum(Opens(peers[..], now)) > 0
      requires bandwidthLimitedPeers == 0 ==> forall p <- peers[..] :: p.connected ==> p.incomingBandwidth == 0
      requires Sum(Loads(peers[..], now)) < WORD && SCALE * Allowance(outgoingBandwidth, elapsed) < WORD
      modifies peers
      ensures Shares(old(peers[..]), peers[..], now, elapsed, Total(elapsed), Data(old(peers[..]), now), throttle)
    {
      hide Sharing, Allowance, Sum, Throttle, KeptToOwn, Shared, Largest;
      ghost var s0 := peers[..];
      assert forall i | 0 <= i < |s0| :: s0[i] in peers[..];
      var dataTotal: uint32, bandwidth: uint32, remaining: uint32 := WORD - 1, WORD - 1, 0;
      if outgoingBandwidth != 0 {
        dataTotal := TotalData(now);
        bandwidth := Times(outgoingBandwidth, elapsed) / 1000;
        AllowanceIs(outgoingBandwidth, elapsed);
      }
      ghost var total, data := bandwidth, dataTotal;
      bandwidth, dataTotal, remaining := LimitPeers(now, elapsed, bandwidth, dataTotal, s0);
      ghost var s1 := peers[..];
      throttle := Throttle(bandwidth, dataTotal);
      if remaining > 0 {
        var common := if dataTotal <= bandwidth then SCALE else Times(bandwidth, SCALE) / dataTotal;
        ThrottleIs(bandwidth, dataTotal);
        SharePeers(now, common);
      } else {
        NoneOpen(s0, s1, now, elapsed, total, bandwidth, dataTotal, remaining, throttle);
      }
      SharedOut(s0, s1, peers[..], now, elapsed, total, bandwidth, dataTotal, remaining, throttle);
      ThrottleLargest(bandwidth, dataTotal);
      OwnsStay(s0, s1, peers[..], now, elapsed, throttle);
      LeftOver(s0, s1, now, elapsed, total, bandwidth, dataTotal, remaining, throttle);
      EachShare(s0, s1, peers[..], now, elapsed, total, bandwidth, dataTotal, remaining, throttle);
    }

    method TotalData(now: uint32) returns (dataTotal: uint32)
      requires Sum(Loads(peers[..], now)) < WORD && forall p <- peers[..] :: p.outgoingEpoch != now
      ensures dataTotal == Sum(Loads(peers[..], now))
    {
      hide Sum;
      ghost var loads := Loads(peers[..], now);
      dataTotal := 0;
      SumNext(loads, 0);
      for i := 0 to peers.Length
        invariant dataTotal == Sum(loads[..i])
      {
        SumNext(loads, i);
        assert peers[i] in peers[..] && loads[i] == if peers[i].connected then peers[i].outgoingDataTotal else 0;
        if !peers[i].connected {
          continue;
        }
        dataTotal := dataTotal + peers[i].outgoingDataTotal;
      }
      assert loads[..peers.Length] == loads;
    }

    /** The second loop: the peers not limited get the common throttle. */
    method SharePeers(now: uint32, throttle: uint32)
      modifies peers
      ensures forall i | 0 <= i < peers.Length ::
                peers[i] == if Open(old(peers[i]), now) then Shared(old(peers[i]), throttle) else old(peers[i])
    {
      for i := 0 to peers.Length
        invariant forall k | 0 <= k < i ::
          peers[k] == if Open(old(peers[k]), now) then Shared(old(peers[k]), throttle) else old(peers[k])
        invariant forall k | i <= k < peers.Length :: peers[k] == old(peers[k])
      {
        var p := peers[i];
        if !p.connected || p.outgoingEpoch == now {
          continue;
        }
        p := p.(packetThrottleLimit := throttle);
        if p.packetThrottle > p.packetThrottleLimit {
          p := p.(packetThrottle := p.packetThrottleLimit);
        }
        peers[i] := p.(incomingDataTotal := 0, outgoingDataTotal := 0);
      }
    }

    /** The incoming half: the first loop, finding the limit for those that can send more than their part. */
    method LimitIncoming(now: uint32) returns (bandwidthLimit: uint32)
      requires forall p <- peers[..] :: p.incomingEpoch != now
      requires connectedPeers == Sum(Unsettled(peers[..], now)) && incomingBandwidth > 0
      modifies peers
      ensures Settled(old(peers[..]), peers[..], now, incomingBandwidth, bandwidthLimit)
      ensures Sum(Limits(peers[..], now, bandwidthLimit)) <= incomingBandwidth
    {
      hide Sum, SharingIn;
      ghost var s0 := peers[..];
      assert forall i | 0 <= i < |s0| :: s0[i] in peers[..];
      var remaining, bandwidth, needsAdjustment := connectedPeers, incomingBandwidth, true;
      bandwidthLimit := 0;
      SharingInStart(s0, now, bandwidth);
      while remaining > 0 && needsAdjustment
        invariant SharingIn(s0, peers[..], now, incomingBandwidth, bandwidth, remaining, bandwidthLimit)
        invariant !needsAdjustment && remaining > 0 ==>
          bandwidthLimit == bandwidth / remaining && forall i | 0 <= i < peers.Length :: Kept(peers[i], now, bandwidthLimit)
        decreases remaining, needsAdjustment
      {
        SharingInLimit(s0, peers[..], now, incomingBandwidth, bandwidth, remaining, bandwidthLimit);
        bandwidthLimit := bandwidth / remaining;
        needsAdjustment, bandwidth, remaining := SettleRound(now, bandwidthLimit, bandwidth, remaining, s0, incomingBandwidth);
      }
      AllSettled(s0, peers[..], now, incomingBandwidth, bandwidth, remaining, bandwidthLimit);
    }

    /** One round: every peer that cannot send its part keeps what it has, for the others to share. */
    method SettleRound(now: uint32, limit: uint32, bandwidth0: uint32, remaining0: uint32, ghost s0: seq<Rates>, ghost total: nat)
      returns (adjusted: bool, bandwidth: uint32, remaining: uint32)
      requires SharingIn(s0, peers[..], now, total, bandwidth0, remaining0, limit)
      modifies peers
      ensures SharingIn(s0, peers[..], now, total, bandwidth, remaining, limit)
      ensures adjusted ==> remaining < remaining0
      ensures !adjusted ==> bandwidth == bandwidth0 && remaining == remaining0 && forall i | 0 <= i < peers.Length :: Kept(peers[i], now, limit)
    {
      hide SharingIn;
      adjusted, bandwidth, remaining := false, bandwidth0, remaining0;
      for i := 0 to peers.Length
        invariant SharingIn(s0, peers[..], now, total, bandwidth, remaining, limit)
        invariant remaining <= remaining0 && (adjusted ==> remaining < remaining0)
        invariant !adjusted ==> bandwidth == bandwidth0 && remaining == remaining0 && forall k | 0 <= k < i :: Kept(peers[k], now, limit)
      {
        ghost var s := peers[..];
        var p := peers[i];
        if !p.connected || p.incomingEpoch == now {
          continue;
        }
        if p.outgoingBandwidth > 0 && p.outgoingBandwidth >= limit {
          continue;
        }
        SettleOne(s0, s, i, now, total, bandwidth, remaining, limit);
        peers[i] := p.(incomingEpoch := now);
        assert peers[..] == s[i := s[i].(incomingEpoch := now)];
        adjusted := true;
        remaining := remaining - 1;
        bandwidth := bandwidth - p.outgoingBandwidth;
      }
    }

    /** The limits sent out: to each connected peer what it may send to this host. */
    method AnnounceLimits(now: uint32, bandwidthLimit: uint32) returns (sent: seq<(nat, uint32)>)
      ensures forall k | 0 <= k < |sent| :: sent[k].0 < peers.Length && peers[sent[k].0].connected
                && sent[k].1 == LimitFor(peers[sent[k].0], now, bandwidthLimit)
      ensures forall i | 0 <= i < peers.Length && peers[i].connected :: exists k | 0 <= k < |sent| :: sent[k].0 == i
      ensures forall j, k | 0 <= j < k < |sent| :: sent[j].0 < sent[k].0
    {
      sent := [];
      for i := 0 to peers.Length
        invariant forall k | 0 <= k < |sent| :: sent[k].0 < i && peers[sent[k].0].connected
                    && sent[k].1 == LimitFor(peers[sent[k].0], now, bandwidthLimit)
        invariant forall x | 0 <= x < i && peers[x].connected :: exists k | 0 <= k < |sent| :: sent[k].0 == x
        invariant forall j, k | 0 <= j < k < |sent| :: sent[j].0 < sent[k].0
      {
        if !peers[i].connected {
          continue;
        }
        ghost var before := sent;
        if peers[i].incomingEpoch == now {
          sent := sent + [(i, peers[i].outgoingBandwidth)];
        } else {
          sent := sent + [(i, bandwidthLimit)];
        }
        assert sent[|before|].0 == i && forall k | 0 <= k < |before| :: sent[k] == before[k];
      }
    }

    /** What the pass relies on: the counters are true, no peer was stamped at this very time, and no product
        wraps around. */
    ghost predicate Ready(now: uint32, elapsed: uint32)
      reads this, peers
    {
      && (forall p <- peers[..] :: p.outgoingEpoch != now && p.incomingEpoch != now && SCALE * p.outgoingDataTotal < WORD)
      && connectedPeers == Sum(Opens(peers[..], now))
      && (bandwidthLimitedPeers == 0 ==> forall p <- peers[..] :: p.connected ==> p.incomingBandwidth == 0)
      && Sum(Loads(peers[..], now)) < WORD && SCALE * Allowance(outgoingBandwidth, elapsed) < WORD
    }

    /** `enet_host_bandwidth_throttle`. */
    method BandwidthThrottle(timeCurrent: uint32) returns (shared: bool, ghost throttle: uint32, ghost middle: seq<Rates>, limit: uint32,
                                                  sent: seq<(nat, uint32)>)
      requires Ready(timeCurrent, (timeCurrent - bandwidthThrottleEpoch) % WORD)
      modifies peers, `bandwidthThrottleEpoch, `recalculateBandwidthLimits
      ensures var elapsed := (timeCurrent - old(bandwidthThrottleEpoch)) % WORD;
              && (shared <==> elapsed >= INTERVAL && connectedPeers > 0)
              && (elapsed >= INTERVAL ==> bandwidthThrottleEpoch == timeCurrent)
              && (!shared ==> peers[..] == old(peers[..]) && sent == [])
              && (shared ==> Shares(old(peers[..]), middle, timeCurrent, elapsed, Total(elapsed), Data(old(peers[..]), timeCurrent), throttle))
      ensures shared && (!old(recalculateBandwidthLimits) || incomingBandwidth == 0) ==> peers[..] == middle
      ensures shared && old(recalculateBandwidthLimits) && incomingBandwidth > 0 ==>
                Settled(middle, peers[..], timeCurrent, incomingBandwidth, limit) && Sum(Limits(peers[..], timeCurrent, limit)) <= incomingBandwidth
      ensures shared && old(recalculateBandwidthLimits) ==>
                forall i | 0 <= i < peers.Length && peers[i].connected ::
                  (i, LimitFor(peers[i], timeCurrent, limit)) in sent
    {
      hide Sum, Allowance, Shares, Settled;
      shared, throttle, middle, limit, sent := false, 0, [], 0, [];
      var elapsedTime := (timeCurrent - bandwidthThrottleEpoch) % WORD;
      if elapsedTime < INTERVAL {
        return;
      }
      bandwidthThrottleEpoch := timeCurrent;
      if connectedPeers == 0 {
        return;
      }
      shared := true;
      ghost var s0 := peers[..];
      throttle := ShareOutgoing(timeCurrent, elapsedTime);
      middle := peers[..];
      if recalculateBandwidthLimits {
        recalculateBandwidthLimits := false;
        if incomingBandwidth == 0 {
          limit := 0;
        } else {
          StillUnsettled(s0, middle, timeCurrent, elapsedTime, Total(elapsedTime), Data(s0, timeCurrent), throttle);
          limit := LimitIncoming(timeCurrent);
        }
        sent := AnnounceLimits(timeCurrent, limit);
        forall i | 0 <= i < peers.Length && peers[i].connected ensures (i, LimitFor(peers[i], timeCurrent, limit)) in sent {
          var k :| 0 <= k < |sent| && sent[k].0 == i;
          assert sent[k] == (i, LimitFor(peers[i], timeCurrent, limit));
        }
      }
    }
  }

  /** The outgoing half leaves alone what the incoming half goes by. */
  lemma StillUnsettled(s0: seq<Rates>, s: seq<Rates>, now: uint32, elapsed: uint32, total: nat, data: nat, throttle: uint32)
    requires Shares(s0, s, now, elapsed, total, data, throttle)
    requires forall p <- s0 :: p.outgoingEpoch != now && p.incomingEpoch != now
    ensures Sum(Unsettled(s, now)) == Sum(Opens(s0, now)) && forall p <- s :: p.incomingEpoch != now
  {
    hide Allowance, Sum;
    forall i | 0 <= i < |s| ensures s[i].incomingEpoch != now && s[i].connected == s0[i].connected && s0[i].outgoingEpoch != now {
      assert s0[i] in s0 && ShareOf(s0[i], s[i], now, elapsed, throttle);
    }
    assert Unsettled(s, now) == Opens(s0, now);
  }

  // ---------- Incoming ----------

  /** Connected, and not yet known to stay below its part. */
  predicate Unknown(p: Rates, now: uint32) {
    p.connected && p.incomingEpoch != now
  }

  ghost function Unsettled(s: seq<Rates>, now: uint32): seq<nat> {
    seq(|s|, i requires 0 <= i < |s| => if Unknown(s[i], now) then 1 else 0)
  }

  /** What the settled peers can send. */
  ghost function Own(s: seq<Rates>, now: uint32): seq<nat> {
    seq(|s|, i requires 0 <= i < |s| => if s[i].connected && s[i].incomingEpoch == now then s[i].outgoingBandwidth else 0)
  }

  function LimitFor(p: Rates, now: uint32, limit: uint32): uint32 {
    if p.incomingEpoch == now then p.outgoingBandwidth else limit
  }

  ghost function Limits(s: seq<Rates>, now: uint32, limit: uint32): seq<nat> {
    seq(|s|, i requires 0 <= i < |s| => if s[i].connected then LimitFor(s[i], now, limit) else 0)
  }

  /** A peer that is not settled can send at least its part. */
  ghost predicate Kept(p: Rates, now: uint32, limit: uint32) {
    Unknown(p, now) ==> p.outgoingBandwidth > 0 && p.outgoingBandwidth >= limit
  }

  /**
   At the end a peer is settled exactly if it sends without limit or below its part; the others get that part, the
   largest that what the settled ones leave of `total` will do for.
   */
  ghost predicate Settled(s0: seq<Rates>, s: seq<Rates>, now: uint32, total: nat, limit: uint32) {
    && |s| == |s0|
    && (forall i | 0 <= i < |s| ::
          && (s[i] == s0[i] || (s0[i].connected && s[i] == s0[i].(incomingEpoch := now) && Below(s0[i], limit)))
          && Kept(s[i], now, limit))
    && Part(limit, total - Sum(Own(s, now)), Sum(Unsettled(s, now)))
  }

  ghost predicate Part(limit: nat, bandwidth: int, remaining: nat) {
    remaining > 0 ==> limit * remaining <= bandwidth < (limit + 1) * remaining
  }

  ghost predicate SharingIn(s0: seq<Rates>, s: seq<Rates>, now: uint32, total: nat, bandwidth: nat, remaining: nat, limit: nat) {
    && |s| == |s0|
    && (forall i | 0 <= i < |s| :: s[i] == s0[i] || (Unknown(s0[i], now) && s[i] == s0[i].(incomingEpoch := now)))
    && remaining == Sum(Unsettled(s, now)) && Sum(Own(s, now)) + bandwidth == total
    && Product(limit, remaining) <= bandwidth
    && (forall i | 0 <= i < |s| :: s[i] != s0[i] ==> Below(s0[i], limit))
  }

  /** A peer that sends without limit, or less than its part. */
  ghost predicate Below(p: Rates, limit: nat) {
    p.outgoingBandwidth == 0 || p.outgoingBandwidth < limit
  }

  lemma SharingInStart(s: seq<Rates>, now: uint32, total: nat)
    requires forall i | 0 <= i < |s| :: s[i].incomingEpoch != now
    ensures SharingIn(s, s, now, total, total, Sum(Unsettled(s, now)), 0)
  {
    SumZero(Own(s, now));
  }

  lemma SharingInLimit(s0: seq<Rates>, s: seq<Rates>, now: uint32, total: nat, bandwidth: nat, remaining: nat, limit: nat)
    requires SharingIn(s0, s, now, total, bandwidth, remaining, limit) && remaining > 0
    ensures SharingIn(s0, s, now, total, bandwidth, remaining, bandwidth / remaining)
  {
    hide Product, Sum;
    QuotientAtLeast(bandwidth, remaining, limit);
  }

  lemma QuotientAtLeast(a: nat, b: nat, q: nat)
    requires b > 0 && Product(q, b) <= a
    ensures q <= a / b && Product(a / b, b) <= a
  {
    Quotient(a, b);
    if q > a / b {
      MulMonotone(a / b + 1, q, b);
    }
  }

  lemma SettleOne(s0: seq<Rates>, s: seq<Rates>, i: nat, now: uint32, total: nat, bandwidth: nat, remaining: nat, limit: nat)
    requires SharingIn(s0, s, now, total, bandwidth, remaining, limit) && i < |s| && Unknown(s[i], now)
    requires s[i].outgoingBandwidth == 0 || s[i].outgoingBandwidth < limit
    ensures remaining > 0 && s[i].outgoingBandwidth <= bandwidth
    ensures SharingIn(s0, s[i := s[i].(incomingEpoch := now)], now, total, bandwidth - s[i].outgoingBandwidth, remaining - 1, limit)
  {
    hide Product;
    var p := s[i].(incomingEpoch := now);
    var s' := s[i := p];
    assert Unsettled(s', now) == Unsettled(s, now)[i := 0];
    SumUpdate(Unsettled(s, now), i, 0);
    assert Own(s', now) == Own(s, now)[i := p.outgoingBandwidth];
    SumUpdate(Own(s, now), i, p.outgoingBandwidth);
    SumPart(Unsettled(s, now), i);
    OneLess(limit, remaining, bandwidth, p.outgoingBandwidth);
  }

  lemma OneLess(limit: nat, remaining: nat, bandwidth: nat, own: nat)
    requires Product(limit, remaining) <= bandwidth && remaining > 0 && own <= limit
    ensures own <= bandwidth && Product(limit, remaining - 1) <= bandwidth - own
  {
    assert limit * remaining == limit * (remaining - 1) + limit;
    assert limit * (remaining - 1) >= 0;
  }

  lemma AllSettled(s0: seq<Rates>, s: seq<Rates>, now: uint32, total: nat, bandwidth: nat, remaining: nat, limit: uint32)
    requires SharingIn(s0, s, now, total, bandwidth, remaining, limit)
    requires remaining == 0 || (limit == bandwidth / remaining && forall i | 0 <= i < |s| :: Kept(s[i], now, limit))
    ensures Settled(s0, s, now, total, limit) && Sum(Limits(s, now, limit)) <= total
  {
    if remaining == 0 {
      forall i | 0 <= i < |s| ensures Kept(s[i], now, limit) {
        SumPart(Unsettled(s, now), i);
      }
    }
    var parts := seq(|s|, i requires 0 <= i < |s| => Product(limit, Unsettled(s, now)[i]));
    if remaining > 0 {
      Quotient(bandwidth, remaining);
    }
    SumScaled(Unsettled(s, now), parts, limit);
    SumPlus(Own(s, now), parts, Limits(s, now, limit));
  }

  lemma ThrottleIs(bandwidth: uint32, dataTotal: uint32)
    ensures Throttle(bandwidth, dataTotal) == if dataTotal <= bandwidth then SCALE else Times(bandwidth, SCALE) / dataTotal
  {
  }

  lemma NoneOpen(s0: seq<Rates>, s: seq<Rates>, now: uint32, elapsed: uint32, total: nat,
                 bandwidth: nat, dataTotal: nat, remaining: nat, throttle: nat)
    requires Sharing(s0, s, now, elapsed, total, bandwidth, dataTotal, remaining, throttle) && remaining == 0
    ensures forall i | 0 <= i < |s| :: !Open(s[i], now)
  {
    forall i | 0 <= i < |s| ensures !Open(s[i], now) {
      SumPart(Opens(s, now), i);
    }
  }

  lemma EachShare(s0: seq<Rates>, s1: seq<Rates>, s: seq<Rates>, now: uint32, elapsed: uint32, total: nat,
                  bandwidth: nat, dataTotal: nat, remaining: nat, throttle: uint32)
    requires Sharing(s0, s1, now, elapsed, total, bandwidth, dataTotal, remaining, throttle) && |s| == |s1|
    requires forall i | 0 <= i < |s| :: s[i] == if Open(s1[i], now) then Shared(s1[i], throttle) else s1[i]
    requires forall i | 0 <= i < |s0| :: s0[i].outgoingEpoch != now
    requires forall i | 0 <= i < |s0| :: s0[i].incomingBandwidth == 0 ==> s1[i] == s0[i]
    requires remaining > 0 ==> forall i | 0 <= i < |s1| :: Satisfied(s1[i], now, elapsed, throttle)
    requires remaining == 0 ==> forall i | 0 <= i < |s1| :: !Open(s1[i], now)
    ensures forall i | 0 <= i < |s| :: ShareOf(s0[i], s[i], now, elapsed, throttle)
  {
    hide Allowance, Sum, Product;
    forall i | 0 <= i < |s| ensures ShareOf(s0[i], s[i], now, elapsed, throttle) {
      if s1[i] == s0[i] && s0[i].connected {
        assert Open(s1[i], now);
      }
    }
  }

  lemma LeftOver(s0: seq<Rates>, s: seq<Rates>, now: uint32, elapsed: uint32, total: nat,
                 bandwidth: nat, dataTotal: nat, remaining: nat, throttle: nat)
    requires Sharing(s0, s, now, elapsed, total, bandwidth, dataTotal, remaining, throttle)
    ensures |s| == |s0| && bandwidth == total - Sum(Owns(s0, s, now, elapsed))
  {
  }

  lemma AllowanceIs(rate: uint32, elapsed: uint32)
    ensures Allowance(rate, elapsed) == Times(rate, elapsed) / 1000
  {
  }

  lemma NoWrap(throttle: uint32, out: uint32)
    requires throttle <= SCALE && SCALE * out < WORD
    ensures Times(throttle, out) == Product(throttle, out)
  {
    MulMonotone(throttle, SCALE, out);
  }

  /** A peer still open is as it was. */
  lemma SameTotals(s0: seq<Rates>, s: seq<Rates>, now: uint32, elapsed: uint32, total: nat,
                   bandwidth: nat, dataTotal: nat, remaining: nat, throttle: nat, i: nat)
    requires Sharing(s0, s, now, elapsed, total, bandwidth, dataTotal, remaining, throttle) && i < |s| && Open(s[i], now)
    ensures |s0| == |s| && s[i] == s0[i] && throttle <= SCALE
  {
  }
}
