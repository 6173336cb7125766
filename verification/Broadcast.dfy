/** What the clients are told in one build of the world state, over all the packets they are sent. */
module Broadcast {
  import opened Machine
  import opened WorldState

  /** The segments that packets for client `i` were made of. */
  ghost function Segments(ps: seq<Packet>, i: nat): seq<nat> {
    if ps == [] then []
    else Segments(ps[..|ps| - 1], i) + if ps[|ps| - 1].client == i then [ps[|ps| - 1].segment] else []
  }

  ghost predicate Rising(s: seq<nat>) {
    forall j, k | 0 <= j < k < |s| :: s[j] < s[k]
  }

  ghost predicate InOrder(ps: seq<Packet>) {
    forall j, k | 0 <= j < k < |ps| :: Earlier(ps[j], ps[k])
  }

  /** One packet at most for each segment, in order. */
  lemma {:induction false} SegmentsRising(ps: seq<Packet>, i: nat)
    requires InOrder(ps)
    ensures Rising(Segments(ps, i))
    ensures forall s: nat :: s in Segments(ps, i) <==> SentIn(ps, s, i)
  {
    if ps != [] {
      var n := |ps| - 1;
      var rest, p := ps[..n], ps[n];
      SegmentsRising(rest, i);
      forall s: nat ensures s in Segments(ps, i) <==> SentIn(ps, s, i) {
        if SentIn(rest, s, i) {
          SentStill(rest, ps, s, i);
        } else if SentIn(ps, s, i) {
          var k :| 0 <= k < |ps| && ps[k].segment == s && ps[k].client == i;
        }
      }
      if p.client == i {
        forall s: nat | s in Segments(rest, i) ensures s < p.segment {
          var k :| 0 <= k < |rest| && rest[k].segment == s && rest[k].client == i;
          assert rest[k] == ps[k] && Earlier(ps[k], ps[n]);
        }
        RisingStep(Segments(rest, i), p.segment);
      }
    }
  }

  lemma {:induction false} RisingStep(s: seq<nat>, x: nat)
    requires Rising(s) && forall y | y in s :: y < x
    ensures Rising(s + [x])
  {
    forall j, k | 0 <= j < k < |s| + 1 ensures (s + [x])[j] < (s + [x])[k] {
      if k == |s| {
        assert s[j] in s;
      }
    }
  }

  /** What client `i` is sent of the segments numbered `s`. */
  ghost function ItemsAt(gs: seq<seq<Item>>, s: seq<nat>, i: nat): seq<Item> {
    if s == [] then []
    else ItemsAt(gs, s[..|s| - 1], i) + if s[|s| - 1] < |gs| then PacketItems(gs[s[|s| - 1]], i) else []
  }

  /** The segments before `k` are covered by `s`, but for those with nothing for client `i`. */
  ghost predicate Covers(gs: seq<seq<Item>>, s: seq<nat>, k: nat, i: nat)
    requires k <= |gs|
  {
    && Rising(s) && (forall j | 0 <= j < |s| :: s[j] < k)
    && forall x | 0 <= x < k && PacketItems(gs[x], i) != [] :: x in s
  }

  lemma {:induction false} CoversWithout(gs: seq<seq<Item>>, s: seq<nat>, k: nat, i: nat)
    requires 0 < k <= |gs| && Covers(gs, s, k, i)
    ensures s != [] && s[|s| - 1] == k - 1 ==> Covers(gs, s[..|s| - 1], k - 1, i)
    ensures !(s != [] && s[|s| - 1] == k - 1) ==> Covers(gs, s, k - 1, i) && PacketItems(gs[k - 1], i) == []
  {
    hide PacketItems;
    var n := |s| - 1;
    if s != [] && s[n] == k - 1 {
      var rest := s[..n];
      forall x | 0 <= x < k - 1 && PacketItems(gs[x], i) != [] ensures x in rest {
        var j :| 0 <= j < |s| && s[j] == x;
        assert rest[j] == x;
      }
    } else {
      assert forall j | 0 <= j < |s| :: s[j] <= s[n];
    }
  }

  /** So nothing is missing. */
  lemma {:induction false} AllReceived(gs: seq<seq<Item>>, s: seq<nat>, k: nat, i: nat)
    requires k <= |gs| && Covers(gs, s, k, i)
    ensures ItemsAt(gs, s, i) == Received(gs[..k], i)
    decreases k
  {
    hide PacketItems;
    if k > 0 {
      assert gs[..k][..k - 1] == gs[..k - 1];
      CoversWithout(gs, s, k, i);
      hide Covers;
      AllReceived(gs, if s != [] && s[|s| - 1] == k - 1 then s[..|s| - 1] else s, k - 1, i);
    }
  }

  /** The bytes of the first `n` packets that go to client `i`. */
  ghost function Told(b: Builder, n: nat, i: nat): seq<uint8>
    requires n <= |b.packets| && forall k | 0 <= k < |b.packets| :: b.PacketValid(b.packets[k])
    reads b, b.data
  {
    if n == 0 then []
    else
      var p := b.packets[n - 1];
      Told(b, n - 1, i) + if p.client == i then b.data[p.offset..p.offset + p.size] else []
  }

  lemma {:induction false} ToldStep(b: Builder, n: nat, i: nat)
    requires n < |b.packets| && forall k | 0 <= k < |b.packets| :: b.PacketValid(b.packets[k])
    ensures var p := b.packets[n];
            p.segment < |b.segments| && Told(b, n + 1, i) ==
              if p.client == i then Told(b, n, i) + Bytes(PacketItems(b.segments[p.segment], i)) else Told(b, n, i)
  {
    hide PacketItems, Bytes;
    assert b.PacketValid(b.packets[n]);
  }

  lemma {:induction false} NoneTold(b: Builder, i: nat)
    requires forall k | 0 <= k < |b.packets| :: b.PacketValid(b.packets[k])
    ensures Told(b, 0, i) == Bytes(ItemsAt(b.segments, Segments(b.packets[..0], i), i)) == []
  {
  }

  lemma {:induction false} SegmentsStep(ps: seq<Packet>, n: nat, i: nat)
    requires n < |ps|
    ensures Segments(ps[..n + 1], i) ==
      if ps[n].client == i then Segments(ps[..n], i) + [ps[n].segment] else Segments(ps[..n], i)
  {
    assert ps[..n + 1][..n] == ps[..n];
  }

  lemma {:induction false} ToldItems(b: Builder, n: nat, i: nat)
    requires n <= |b.packets| && forall k | 0 <= k < |b.packets| :: b.PacketValid(b.packets[k])
    ensures Told(b, n, i) == Bytes(ItemsAt(b.segments, Segments(b.packets[..n], i), i))
  {
    hide *;
    if n == 0 {
      NoneTold(b, i);
    } else {
      ToldItems(b, n - 1, i);
      ToldStep(b, n - 1, i);
      SegmentsStep(b.packets, n - 1, i);
      if b.packets[n - 1].client == i {
        OneMoreSegment(b.segments, Segments(b.packets[..n - 1], i), b.packets[n - 1].segment, i);
      }
    }
  }

  lemma {:induction false} OneMoreSegment(gs: seq<seq<Item>>, s: seq<nat>, x: nat, i: nat)
    requires x < |gs|
    ensures Bytes(ItemsAt(gs, s + [x], i)) == Bytes(ItemsAt(gs, s, i)) + Bytes(PacketItems(gs[x], i))
  {
    hide PacketItems, Bytes;
    assert (s + [x])[..|s|] == s;
    BytesConcat(ItemsAt(gs, s, i), PacketItems(gs[x], i));
  }

  /**
   After a build, the packets of a human client show, in order, the segments turned past its own part: together
   every item of every other owner exactly once, and none of its own.
   */
  lemma {:induction false} EveryoneTold(b: Builder, i: nat)
    requires b.Valid() && i < |b.human| && b.human[i]
    ensures Told(b, |b.packets|, i) == Bytes(Received(b.segments, i))
    ensures forall x | x in Received(b.segments, i) :: x.owner != i
    ensures multiset(Received(b.segments, i)) + multiset(Of(Joined(b.segments), i)) == multiset(Joined(b.segments))
  {
    hide PacketItems, Received, Joined, Of, Told, ItemsAt, Segments;
    var s := Segments(b.packets, i);
    ToldItems(b, |b.packets|, i);
    assert b.packets[..|b.packets|] == b.packets;
    SegmentsRising(b.packets, i);
    forall j | 0 <= j < |s| ensures s[j] < |b.segments| {
      var x := s[j];
      assert x in s && SentIn(b.packets, x, i);
      var k :| 0 <= k < |b.packets| && b.packets[k].segment == x && b.packets[k].client == i;
      assert b.PacketValid(b.packets[k]);
    }
    AllReceived(b.segments, s, |b.segments|, i);
    assert b.segments[..|b.segments|] == b.segments;
    ReceivedOnce(b.segments, i);
  }
}
