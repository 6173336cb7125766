/**
 Telling every client about every other, fpsgame/server.cpp: positions and messages are gathered in one
 buffer, and each client is sent the buffer turned past its own part.
 */
module WorldState {
  import opened Machine
  import opened Sums
  import opened WireCodec

  const N_CLIENT := 88

  /** What one client contributes: the client that owns it (a bot's owner, or itself), and the bytes. */
  datatype Item = Item(owner: nat, data: seq<uint8>)

  // ---------- Segments ----------

  function Bytes(g: seq<Item>): seq<uint8> {
    if g == [] then [] else Bytes(g[..|g| - 1]) + g[|g| - 1].data
  }

  lemma {:induction false} BytesStep(g: seq<Item>, x: Item)
    ensures Bytes(g + [x]) == Bytes(g) + x.data
  {
    assert (g + [x])[..|g|] == g;
  }

  lemma {:induction false} BytesConcat(a: seq<Item>, b: seq<Item>)
    ensures Bytes(a + b) == Bytes(a) + Bytes(b)
  {
    if b == [] {
      assert a + b == a;
    } else {
      hide Bytes;
      var c, x := b[..|b| - 1], b[|b| - 1];
      BytesConcat(a, c);
      assert a + b == a + c + [x] && b == c + [x];
      BytesTwice(a, c, x);
    }
  }

  lemma {:induction false} BytesTwice(a: seq<Item>, c: seq<Item>, x: Item)
    requires Bytes(a + c) == Bytes(a) + Bytes(c)
    ensures Bytes(a + c + [x]) == Bytes(a) + Bytes(c + [x])
  {
    hide Bytes;
    BytesStep(a + c, x);
    BytesStep(c, x);
    assert Bytes(a) + (Bytes(c) + x.data) == Bytes(a) + Bytes(c) + x.data;
  }

  /** The items of owners below, at and above `i`, in order. */
  function Below(g: seq<Item>, i: nat): seq<Item> {
    if g == [] then [] else if g[|g| - 1].owner < i then Below(g[..|g| - 1], i) + [g[|g| - 1]] else Below(g[..|g| - 1], i)
  }

  function Of(g: seq<Item>, i: nat): seq<Item> {
    if g == [] then [] else if g[|g| - 1].owner == i then Of(g[..|g| - 1], i) + [g[|g| - 1]] else Of(g[..|g| - 1], i)
  }

  function Above(g: seq<Item>, i: nat): seq<Item> {
    if g == [] then [] else if g[|g| - 1].owner > i then Above(g[..|g| - 1], i) + [g[|g| - 1]] else Above(g[..|g| - 1], i)
  }

  lemma {:induction false} PartsStep(g: seq<Item>, x: Item, i: nat)
    ensures Below(g + [x], i) == if x.owner < i then Below(g, i) + [x] else Below(g, i)
    ensures Of(g + [x], i) == if x.owner == i then Of(g, i) + [x] else Of(g, i)
    ensures Above(g + [x], i) == if x.owner > i then Above(g, i) + [x] else Above(g, i)
  {
    assert (g + [x])[..|g|] == g;
  }

  /** Owners come in order. */
  ghost predicate Grouped(g: seq<Item>) {
    forall j, k | 0 <= j < k < |g| :: g[j].owner <= g[k].owner
  }

  lemma {:induction false} Parts(g: seq<Item>, i: nat)
    requires Grouped(g)
    ensures g == Below(g, i) + Of(g, i) + Above(g, i)
    ensures g != [] && g[|g| - 1].owner <= i ==> Above(g, i) == []
    ensures g != [] && g[|g| - 1].owner < i ==> Of(g, i) == []
  {
    if g != [] {
      var n := |g| - 1;
      var h, x := g[..n], g[n];
      hide Below, Of, Above;
      Parts(h, i);
      assert g == h + [x];
      PartsStep(h, x, i);
      if x.owner <= i {
        LastOwner(h, x, i);
      }
      var b, o, a := Below(h, i), Of(h, i), Above(h, i);
      JoinOne(h, b, o, a, x);
    }
  }

  lemma {:induction false} JoinOne(h: seq<Item>, b: seq<Item>, o: seq<Item>, a: seq<Item>, x: Item)
    requires h == b + o + a
    ensures h + [x] == b + o + (a + [x])
    ensures a == [] ==> h + [x] == b + (o + [x]) + a
    ensures a == [] && o == [] ==> h + [x] == b + [x] + o + a
  {
    if a == [] {
      assert h == b + o;
    }
  }

  lemma {:induction false} LastOwner(h: seq<Item>, x: Item, i: nat)
    requires Grouped(h + [x]) && x.owner <= i
    requires h != [] && h[|h| - 1].owner <= i ==> Above(h, i) == []
    requires h != [] && h[|h| - 1].owner < i ==> Of(h, i) == []
    ensures Above(h, i) == [] && (x.owner < i ==> Of(h, i) == [])
  {
    if h != [] {
      assert (h + [x])[|h| - 1] == h[|h| - 1] && (h + [x])[|h|] == x;
    }
  }

  /** What client `i` is sent of a segment: all of it, or what comes after its own part and then what came before. */
  function PacketItems(g: seq<Item>, i: nat): seq<Item> {
    if Of(g, i) == [] then g else Above(g, i) + Below(g, i)
  }

  lemma {:induction false} OwnersOfParts(g: seq<Item>, i: nat)
    ensures forall x | x in Below(g, i) :: x.owner < i
    ensures forall x | x in Of(g, i) :: x.owner == i
    ensures forall x | x in Above(g, i) :: x.owner > i
    ensures multiset(Below(g, i)) + multiset(Of(g, i)) + multiset(Above(g, i)) == multiset(g)
  {
    if g != [] {
      var n := |g| - 1;
      OwnersOfParts(g[..n], i);
      assert g == g[..n] + [g[n]];
    }
  }

  /** Nothing of its own, everything else exactly once. */
  lemma {:induction false} PacketFair(g: seq<Item>, i: nat)
    ensures forall x | x in PacketItems(g, i) :: x.owner != i
    ensures multiset(PacketItems(g, i)) + multiset(Of(g, i)) == multiset(g)
  {
    OwnersOfParts(g, i);
    if Of(g, i) == [] {
      forall x | x in g ensures x.owner != i {
        assert multiset(g)[x] > 0;
        assert x in multiset(Below(g, i)) || x in multiset(Of(g, i)) || x in multiset(Above(g, i));
      }
    }
  }

  // ---------- All segments of a build ----------

  function Joined(gs: seq<seq<Item>>): seq<Item> {
    if gs == [] then [] else Joined(gs[..|gs| - 1]) + gs[|gs| - 1]
  }

  function Received(gs: seq<seq<Item>>, i: nat): seq<Item> {
    if gs == [] then [] else Received(gs[..|gs| - 1], i) + PacketItems(gs[|gs| - 1], i)
  }

  lemma {:induction false} OfConcat(a: seq<Item>, b: seq<Item>, i: nat)
    ensures Of(a + b, i) == Of(a, i) + Of(b, i)
  {
    if b == [] {
      assert a + b == a;
    } else {
      hide Of;
      var c, x := b[..|b| - 1], b[|b| - 1];
      OfConcat(a, c, i);
      assert a + b == a + c + [x] && b == c + [x];
      OfTwice(a, c, x, i);
    }
  }

  lemma {:induction false} OfTwice(a: seq<Item>, c: seq<Item>, x: Item, i: nat)
    requires Of(a + c, i) == Of(a, i) + Of(c, i)
    ensures Of(a + c + [x], i) == Of(a, i) + Of(c + [x], i)
  {
    hide Of, Below, Above;
    PartsStep(a + c, x, i);
    PartsStep(c, x, i);
    assert Of(a, i) + (Of(c, i) + [x]) == Of(a, i) + Of(c, i) + [x];
  }

  /** Over all segments, a client receives every item of every other owner exactly once, and none of its own. */
  lemma {:induction false} ReceivedOnce(gs: seq<seq<Item>>, i: nat)
    ensures forall x | x in Received(gs, i) :: x.owner != i
    ensures multiset(Received(gs, i)) + multiset(Of(Joined(gs), i)) == multiset(Joined(gs))
  {
    if gs != [] {
      hide Of, PacketItems;
      var n := |gs| - 1;
      ReceivedOnce(gs[..n], i);
      PacketFair(gs[n], i);
      OfConcat(Joined(gs[..n]), gs[n], i);
    }
  }

  // ---------- The buffer ----------

  /** A packet handed to the network: it only points into the buffer. Ghost: the segment it was made of. */
  datatype Packet = Packet(client: nat, offset: nat, size: nat, ghost segment: nat)

  ghost predicate Filled(g: seq<Item>) {
    forall k | 0 <= k < |g| :: g[k].data != []
  }

  /** It fits one datagram, or holds a single item. */
  ghost predicate Packed(g: seq<Item>, mtu: int) {
    |g| <= 1 || |Bytes(g)| <= mtu
  }

  class Builder {
    const data: array<uint8>
    const human: seq<bool>
    const mtu: int
    const wsdata: array<int>
    const wslen: array<nat>
    var start: nat
    var length: nat
    var packets: seq<Packet>
    ghost var segments: seq<seq<Item>>
    ghost var gathered: seq<Item>

    constructor (capacity: nat, human: seq<bool>, mtu: int)
      ensures Valid() && this.human == human && this.mtu == mtu && data.Length == capacity
      ensures start == length == 0 && packets == [] && segments == [] && gathered == []
      ensures fresh(data) && fresh(wsdata) && fresh(wslen)
    {
      data := new uint8[capacity](_ => 0);
      this.human, this.mtu := human, mtu;
      wsdata := new int[|human|](_ => -1);
      wslen := new nat[|human|](_ => 0);
      start, length, packets, segments, gathered := 0, 0, [], [], [];
    }

    /** The part of client `i` in what is being gathered. */
    ghost predicate PartValid(i: nat)
      requires i < wsdata.Length && i < wslen.Length
      reads `start, `gathered, wsdata, wslen
    {
      Part(gathered, start, wsdata[i], wslen[i], i)
    }

    /** A packet still shows what it was made of. */
    ghost predicate PacketValid(p: Packet)
      reads `start, `segments, data
    {
      && p.segment < |segments| && p.client < |human| && human[p.client]
      && PacketItems(segments[p.segment], p.client) != []
      && p.offset + p.size <= start <= data.Length
      && data[p.offset..p.offset + p.size] == Bytes(PacketItems(segments[p.segment], p.client))
    }

    /** Every human was sent every segment, if anything in it was for it; in order. */
    ghost predicate AllSent()
      reads `segments, `packets
    {
      && (forall j, k | 0 <= j < k < |packets| :: Earlier(packets[j], packets[k]))
      && (forall s, i | 0 <= s < |segments| && 0 <= i < |human| && human[i] && PacketItems(segments[s], i) != [] :: SentIn(packets, s, i))
    }

    predicate Apart() {
      wsdata.Length == wslen.Length == |human|
    }

    ghost predicate Valid()
      reads this, data, wsdata, wslen
    {
      && Apart() && start + length <= data.Length
      && data[start..start + length] == Bytes(gathered) && Grouped(gathered) && Filled(gathered)
      && (forall i | 0 <= i < |human| :: PartValid(i))
      && (forall k | 0 <= k < |packets| :: PacketValid(packets[k]))
      && AllSent()
      && (forall s | 0 <= s < |segments| :: Finished(segments[s])) && Packed(gathered, mtu)
    }

    ghost predicate Finished(g: seq<Item>) {
      Grouped(g) && Filled(g) && g != [] && Packed(g, mtu)
    }

    /** `ucharbuf::put`, where there is room. */
    method Put(bytes: seq<uint8>)
      requires start + length + |bytes| <= data.Length
      modifies data, `length
      ensures length == old(length) + |bytes|
      ensures data[..start + old(length)] == old(data[..start + length])
      ensures data[start + old(length)..start + length] == bytes
    {
      forall k | 0 <= k < |bytes| {
        data[start + length + k] := bytes[k];
      }
      length := length + |bytes|;
    }

    /** The packet of one client for a segment that lies in the buffer twice over. */
    method SendOne(i: nat, wslen0: nat) returns (sent: bool)
      requires Apart() && i < |human| && human[i] && start + 2 * wslen0 <= data.Length
      requires wslen0 == |Bytes(gathered)| && Filled(gathered) && Grouped(gathered) && PartValid(i)
      requires data[start..start + 2 * wslen0] == Bytes(gathered) + Bytes(gathered)
      modifies `packets
      ensures sent <==> PacketItems(gathered, i) != []
      ensures !sent ==> packets == old(packets)
      ensures sent ==> |packets| == |old(packets)| + 1 && packets[..|old(packets)|] == old(packets)
                       && packets[|old(packets)|].client == i
                       && packets[|old(packets)|].segment == |segments| && MadeOf(packets[|old(packets)|], |segments|)
    {
      hide Bytes, PacketItems, Part, Grouped, Filled;
      var at, size: int := start, wslen0;
      if wsdata[i] >= start {
        at := wsdata[i] + wslen[i];
        size := size - wslen[i];
      }
      PastOwn(i, wslen0, at, size);
      if size <= 0 {
        return false;
      }
      packets := packets + [Packet(i, at, size, |segments|)];
      sent := true;
    }

    /** The packets of one segment. */
    method SendSegment(wslen0: nat)
      requires Apart() && start + 2 * wslen0 <= data.Length && wslen0 == |Bytes(gathered)| && Filled(gathered) && Grouped(gathered)
      requires data[start..start + 2 * wslen0] == Bytes(gathered) + Bytes(gathered)
      requires forall i | 0 <= i < |human| :: PartValid(i)
      modifies `packets
      ensures old(packets) <= packets
      ensures forall k | |old(packets)| <= k < |packets| :: MadeOf(packets[k], |segments|)
      ensures forall j, k | |old(packets)| <= j < k < |packets| :: packets[j].client < packets[k].client
      ensures forall i | 0 <= i < |human| && human[i] && PacketItems(gathered, i) != [] :: SentIn(packets, |segments|, i)
    {
      hide Bytes, PacketItems, PartValid, Grouped, Filled, SentIn, MadeOf;
      for i := 0 to |human|
        invariant old(packets) <= packets
        invariant forall k | |old(packets)| <= k < |packets| :: MadeOf(packets[k], |segments|) && packets[k].client < i
        invariant forall j, k | |old(packets)| <= j < k < |packets| :: packets[j].client < packets[k].client
        invariant forall x | 0 <= x < i && human[x] && PacketItems(gathered, x) != [] :: SentIn(packets, |segments|, x)
      {
        if !human[i] {
          continue;
        }
        ghost var before := packets;
        var sent := SendOne(i, wslen0);
        if sent {
          OneSent(before, packets, |segments|, i);
        }
      }
    }

    /** The packet shows what segment `s`, just gathered, holds for its client. */
    ghost predicate MadeOf(p: Packet, s: nat)
      reads `start, `gathered, data
    {
      && p.segment == s && p.client < |human| && human[p.client] && PacketItems(gathered, p.client) != []
      && start <= p.offset && p.offset + p.size <= start + 2 * |Bytes(gathered)| <= data.Length
      && data[p.offset..p.offset + p.size] == Bytes(PacketItems(gathered, p.client))
    }

    /** Past the client's own part, the doubled segment shows what follows that part and then what precedes it. */
    lemma {:induction false} PastOwn(i: nat, wslen0: nat, at: nat, size: int)
      requires Apart() && i < |human| && human[i] && PartValid(i) && Filled(gathered) && Grouped(gathered)
      requires start + 2 * wslen0 <= data.Length && wslen0 == |Bytes(gathered)|
      requires data[start..start + 2 * wslen0] == Bytes(gathered) + Bytes(gathered)
      requires if wsdata[i] >= start then at == wsdata[i] + wslen[i] && size == wslen0 - wslen[i] else at == start && size == wslen0
      ensures size == |Bytes(PacketItems(gathered, i))| && start <= at && at + size <= start + 2 * wslen0
      ensures data[at..at + size] == Bytes(PacketItems(gathered, i))
      ensures size > 0 <==> PacketItems(gathered, i) != []
    {
      hide Bytes, Below, Of, Above;
      var g := gathered;
      Turned(g, i);
      FilledBytes(PacketItems(g, i));
      FilledParts(g, i);
      var all := data[start..start + 2 * wslen0];
      if Of(g, i) == [] {
        assert all[..wslen0] == Bytes(g);
        Within(start, 2 * wslen0, start, wslen0);
      } else {
        Within(start, 2 * wslen0, at, size);
      }
    }

    lemma {:induction false} Within(from: nat, n: nat, at: nat, size: nat)
      requires from <= at && at + size <= from + n <= data.Length
      ensures data[at..at + size] == data[from..from + n][at - from..at - from + size]
    {
      var x, y := data[at..at + size], data[from..from + n];
      forall k | 0 <= k < size ensures x[k] == y[at - from..at - from + size][k] {
        assert y[at - from + k] == data[at + k];
      }
    }

    /** Append a copy of what was gathered. */
    method Double()
      requires Valid() && start + 2 * length <= data.Length
      modifies data, `length
      ensures length == 2 * old(length) && start + length <= data.Length
      ensures data[start..start + length] == Bytes(gathered) + Bytes(gathered)
      ensures forall k | 0 <= k < |packets| :: PacketValid(packets[k])
      ensures forall i | 0 <= i < |human| :: PartValid(i)
    {
      hide Bytes, Below, Of, Above, Grouped, PacketItems, Filled, AllSent;
      ghost var before := data[..start];
      ghost var n := length;
      assert data[..start + length][..start] == before;
      Put(data[start..start + length]);
      assert data[..start] == before by { assert data[..start + n][..start] == data[..start]; }
      assert data[start..start + n] == data[..start + n][start..];
      Halves(start, n);
      StillShown(before, old(data[..]));
    }

    /** Packets lie in the part of the buffer that is finished with. */
    lemma {:induction false} StillShown(before: seq<uint8>, was: seq<uint8>)
      requires start <= data.Length == |was| && before == data[..start] == was[..start]
      requires forall k | 0 <= k < |packets| :: Shown(packets[k], was)
      ensures forall k | 0 <= k < |packets| :: PacketValid(packets[k])
    {
      forall k | 0 <= k < |packets| ensures PacketValid(packets[k]) {
        var p := packets[k];
        assert Shown(p, was);
        assert before[p.offset..p.offset + p.size] == data[p.offset..p.offset + p.size];
        assert before[p.offset..p.offset + p.size] == was[p.offset..p.offset + p.size];
      }
    }

    /** `PacketValid`, for a buffer with the bytes `was`. */
    ghost predicate Shown(p: Packet, was: seq<uint8>)
      reads `start, `segments
    {
      && p.segment < |segments| && p.client < |human| && human[p.client]
      && PacketItems(segments[p.segment], p.client) != []
      && p.offset + p.size <= start <= |was|
      && was[p.offset..p.offset + p.size] == Bytes(PacketItems(segments[p.segment], p.client))
    }

    /** `sendpositions` and `sendmessages`: double what was gathered, send it round, and go on after it. */
    method Flush()
      requires Valid() && start + 2 * length <= data.Length
      modifies data, `start, `length, `packets, `segments, `gathered
      ensures Valid() && gathered == []
      ensures start + 2 * length == old(start + 2 * length)
      ensures segments == if old(gathered) == [] then old(segments) else old(segments) + [old(gathered)]
    {
      hide Bytes, Below, Of, Above, Grouped, PacketItems, PartValid, PacketValid, AllSent, SentIn, MadeOf;
      FilledBytes(gathered);
      if length == 0 {
        return;
      }
      var n := length;
      Double();
      ghost var sent := packets;
      KnownSent();
      SendSegment(n);
      NowSent(sent);
      NextSegment(n, |sent|);
    }

    /** What sending in order means, spelled out. */
    lemma {:induction false} KnownSent()
      requires AllSent() && forall k | 0 <= k < |packets| :: PacketValid(packets[k])
      ensures forall j, k | 0 <= j < k < |packets| :: Earlier(packets[j], packets[k])
      ensures forall k | 0 <= k < |packets| :: packets[k].segment < |segments|
      ensures forall s, i | 0 <= s < |segments| && 0 <= i < |human| && human[i] && PacketItems(segments[s], i) != [] :: SentIn(packets, s, i)
    {
    }

    /** The packets of one more segment come after all others. */
    lemma {:induction false} NowSent(sent: seq<Packet>)
      requires sent <= packets
      requires forall j, k | 0 <= j < k < |sent| :: Earlier(sent[j], sent[k])
      requires forall k | 0 <= k < |sent| :: sent[k].segment < |segments|
      requires forall k | |sent| <= k < |packets| :: MadeOf(packets[k], |segments|)
      requires forall j, k | |sent| <= j < k < |packets| :: packets[j].client < packets[k].client
      requires forall s, i | 0 <= s < |segments| && 0 <= i < |human| && human[i] && PacketItems(segments[s], i) != [] :: SentIn(sent, s, i)
      ensures forall j, k | 0 <= j < k < |packets| :: Earlier(packets[j], packets[k])
      ensures forall s, i | 0 <= s < |segments| && 0 <= i < |human| && human[i] && PacketItems(segments[s], i) != [] :: SentIn(packets, s, i)
    {
      hide PacketItems, SentIn;
      forall j, k | 0 <= j < k < |packets| ensures Earlier(packets[j], packets[k]) {
        if k < |sent| {
          assert Earlier(sent[j], sent[k]);
        } else if j < |sent| {
          assert sent[j].segment < |segments| && MadeOf(packets[k], |segments|);
        }
      }
      forall s, i | 0 <= s < |segments| && 0 <= i < |human| && human[i] && PacketItems(segments[s], i) != []
        ensures SentIn(packets, s, i)
      {
        SentStill(sent, packets, s, i);
      }
    }

    /** Go on after a segment that was sent. */
    method NextSegment(n: nat, ghost known: nat)
      requires Apart() && n == |Bytes(gathered)| && start + 2 * n <= data.Length
      requires Finished(gathered) && known <= |packets|
      requires forall s | 0 <= s < |segments| :: Finished(segments[s])
      requires forall k | 0 <= k < known :: PacketValid(packets[k])
      requires forall k | known <= k < |packets| :: MadeOf(packets[k], |segments|)
      requires forall j, k | 0 <= j < k < |packets| :: Earlier(packets[j], packets[k])
      requires forall s, i | 0 <= s < |segments| && 0 <= i < |human| && human[i] && PacketItems(segments[s], i) != [] :: SentIn(packets, s, i)
      requires forall i | 0 <= i < |human| && human[i] && PacketItems(gathered, i) != [] :: SentIn(packets, |segments|, i)
      requires forall i | 0 <= i < |human| :: PartValid(i)
      modifies `start, `length, `segments, `gathered
      ensures Valid() && gathered == [] && length == 0 && start == old(start) + 2 * n
      ensures segments == old(segments) + [old(gathered)]
    {
      hide Bytes, Below, Of, Above, Grouped, PacketItems;
      ghost var g := gathered;
      PartsBefore(g);
      start := start + 2 * n;
      length := 0;
      segments := segments + [g];
      gathered := [];
      Emptied(g);
      assert data[start..start + length] == [];
      forall k | 0 <= k < |packets| ensures PacketValid(packets[k]) {
        if k < known {
          assert old(PacketValid(packets[k]));
        } else {
          assert old(MadeOf(packets[k], |segments|));
        }
      }
    }

    /** Parts lie within what was gathered. */
    lemma {:induction false} PartsBefore(g: seq<Item>)
      requires Apart() && g == gathered && Grouped(g) && forall i | 0 <= i < |human| :: PartValid(i)
      requires Filled(g) && g != []
      ensures forall i | 0 <= i < |human| :: wsdata[i] < start + 2 * |Bytes(g)|
    {
      hide Bytes, Below, Of, Above;
      FilledBytes(g);
      forall i | 0 <= i < |human| ensures wsdata[i] < start + 2 * |Bytes(g)| {
        assert PartValid(i);
        Turned(g, i);
      }
    }

    /** Append the bytes of item `x`. */
    method Enlarge(bytes: seq<uint8>)
      requires Valid() && start + length + |bytes| <= data.Length
      modifies data, `length
      ensures length == old(length) + |bytes| && data[start..start + length] == Bytes(gathered) + bytes
      ensures forall k | 0 <= k < |packets| :: PacketValid(packets[k])
    {
      hide Bytes, Below, Of, Above, Grouped, PacketItems, Filled, AllSent, PartValid;
      ghost var before := data[..start];
      ghost var n := length;
      assert data[..start + length][..start] == before;
      Put(bytes);
      assert data[..start] == before by { assert data[..start + n][..start] == data[..start]; }
      assert data[start..start + n] == data[..start + n][start..];
      Split(start, n, length);
      StillShown(before, old(data[..]));
    }

    lemma {:induction false} Split(from: nat, n: nat, m: nat)
      requires n <= m && from + m <= data.Length
      ensures data[from..from + m] == data[from..from + n] + data[from + n..from + m]
    {
    }

    /** Gather one more item. */
    method Append(owner: nat, bytes: seq<uint8>)
      requires Valid() && owner < |human| && bytes != []
      requires gathered == [] || gathered[|gathered| - 1].owner <= owner
      requires start + length + |bytes| <= data.Length && Packed(gathered + [Item(owner, bytes)], mtu)
      modifies data, wsdata, wslen, `length, `gathered
      ensures Valid() && gathered == old(gathered) + [Item(owner, bytes)] && length == old(length) + |bytes|
    {
      hide Bytes, Below, Of, Above, Grouped, PacketItems, PacketValid, AllSent, Part, Filled, Packed;
      ghost var g, x := gathered, Item(owner, bytes);
      var offset := length;
      OneItem(g, x);
      Enlarge(bytes);
      forall i | 0 <= i < |human| ensures Part(g, start, wsdata[i], wslen[i], i) {
        assert old(PartValid(i));
      }
      PartOwner(g, x, start, wsdata[owner], wslen[owner]);
      forall i | 0 <= i < |human| && i != owner ensures Part(g + [x], start, wsdata[i], wslen[i], i) {
        PartOther(g, x, start, wsdata[i], wslen[i], i);
      }
      if wsdata[owner] < start {
        wsdata[owner] := start + offset;
        wslen[owner] := length - offset;
      } else {
        wslen[owner] := wslen[owner] + (length - offset);
      }
      gathered := gathered + [x];
    }

    /** `addposition` and `addmessages`: one more item for `owner`; `reserve` is what is allowed for it. */
    method Add(owner: nat, bytes: seq<uint8>, reserve: nat)
      requires Valid() && owner < |human| && bytes != [] && |bytes| <= reserve
      requires gathered == [] || gathered[|gathered| - 1].owner <= owner
      requires start + 2 * length + 2 * |bytes| <= data.Length
      modifies data, wsdata, wslen, `start, `length, `packets, `segments, `gathered
      ensures Valid() && gathered != [] && gathered[|gathered| - 1] == Item(owner, bytes)
      ensures Joined(segments) + gathered == old(Joined(segments) + gathered) + [Item(owner, bytes)]
      ensures start + 2 * length == old(start + 2 * length) + 2 * |bytes|
    {
      hide Bytes, Below, Of, Above, Grouped, PacketItems, PacketValid, AllSent, Part, Filled, Joined, Packed;
      FlushedJoined(segments, gathered);
      LengthIs();
      if length + reserve > mtu {
        Flush();
      }
      LengthIs();
      PackedMore(gathered, Item(owner, bytes), mtu, reserve);
      ghost var all := Joined(segments) + gathered;
      ghost var g := gathered;
      Append(owner, bytes);
      assert Joined(segments) + gathered == Joined(segments) + g + [Item(owner, bytes)];
    }

    lemma {:induction false} LengthIs()
      requires Valid()
      ensures length == |Bytes(gathered)|
    {
      assert |data[start..start + length]| == length;
    }

    /** What the put of a copy leaves in the buffer. */
    lemma {:induction false} Halves(from: nat, n: nat)
      requires from + 2 * n <= data.Length
      ensures data[from..from + 2 * n] == data[from..from + n] + data[from + n..from + 2 * n]
    {
    }
  }

  lemma {:induction false} Emptied(g: seq<Item>)
    ensures Bytes([]) == [] && Grouped([]) && Filled([]) && forall i: nat :: Of([], i) == []
  {
  }

  ghost predicate SentIn(ps: seq<Packet>, s: nat, i: nat) {
    exists k :: 0 <= k < |ps| && ps[k].segment == s && ps[k].client == i
  }

  lemma {:induction false} OneSent(ps: seq<Packet>, qs: seq<Packet>, s: nat, i: nat)
    requires |qs| == |ps| + 1 && qs[..|ps|] == ps && qs[|ps|].segment == s && qs[|ps|].client == i
    ensures SentIn(qs, s, i) && ps <= qs && forall x: nat | SentIn(ps, s, x) :: SentIn(qs, s, x)
    ensures forall k | 0 <= k < |ps| :: qs[k] == ps[k]
  {
    assert forall k | 0 <= k < |ps| :: qs[k] == qs[..|ps|][k];
    forall x: nat | SentIn(ps, s, x) ensures SentIn(qs, s, x) {
      SentStill(ps, qs, s, x);
    }
  }

  lemma {:induction false} SentStill(ps: seq<Packet>, qs: seq<Packet>, s: nat, i: nat)
    requires ps <= qs && SentIn(ps, s, i)
    ensures SentIn(qs, s, i)
  {
    var k :| 0 <= k < |ps| && ps[k].segment == s && ps[k].client == i;
    assert qs[k] == ps[k];
  }

  /** The part of client `i` in `g`, gathered from `start` on, begins at `at` and has `n` bytes. */
  ghost predicate Part(g: seq<Item>, start: nat, at: int, n: nat, i: nat) {
    if Of(g, i) == [] then at < start else at == start + |Bytes(Below(g, i))| && n == |Bytes(Of(g, i))|
  }

  lemma {:induction false} OneItem(g: seq<Item>, x: Item)
    requires Grouped(g) && Filled(g) && x.data != [] && (g == [] || g[|g| - 1].owner <= x.owner)
    ensures Grouped(g + [x]) && Filled(g + [x]) && Bytes(g + [x]) == Bytes(g) + x.data
  {
    BytesStep(g, x);
  }

  /** The part of the owner of a new item grows, or begins with it. */
  lemma {:induction false} PartOwner(g: seq<Item>, x: Item, start: nat, at: int, n: nat)
    requires Grouped(g + [x]) && Grouped(g) && Part(g, start, at, n, x.owner)
    ensures if at < start then Part(g + [x], start, start + |Bytes(g)|, |x.data|, x.owner)
            else Part(g + [x], start, at, n + |x.data|, x.owner)
  {
    hide Bytes, Below, Of, Above;
    var i := x.owner;
    PartsStep(g, x, i);
    Parts(g, i);
    AboveNone(g, x, i);
    BytesStep(Of(g, i), x);
    FilledBytes(Of(g, i));
    if Of(g, i) == [] {
      assert g == Below(g, i);
    }
  }

  lemma {:induction false} AboveNone(g: seq<Item>, x: Item, i: nat)
    requires Grouped(g + [x]) && Grouped(g) && x.owner <= i
    ensures Above(g, i) == [] && (x.owner < i ==> Of(g, i) == [])
  {
    if g != [] {
      assert (g + [x])[|g| - 1] == g[|g| - 1] && (g + [x])[|g|] == x;
      Parts(g, i);
    }
  }

  /** The other parts stay as they are. */
  lemma {:induction false} PartOther(g: seq<Item>, x: Item, start: nat, at: int, n: nat, i: nat)
    requires Grouped(g + [x]) && Grouped(g) && Part(g, start, at, n, i) && i != x.owner
    ensures Part(g + [x], start, at, n, i)
  {
    hide Bytes, Below, Of, Above;
    PartsStep(g, x, i);
    if x.owner < i {
      AboveNone(g, x, i);
    }
  }

  lemma {:induction false} PackedMore(g: seq<Item>, x: Item, mtu: int, reserve: nat)
    requires |x.data| <= reserve && (g == [] || |Bytes(g)| + reserve <= mtu)
    ensures Packed(g + [x], mtu)
  {
    BytesStep(g, x);
  }

  lemma {:induction false} FlushedJoined(gs: seq<seq<Item>>, g: seq<Item>)
    ensures Joined(gs + [g]) == Joined(gs) + g
    ensures g == [] ==> Joined(gs) + g == Joined(gs)
  {
    assert (gs + [g])[..|gs|] == gs;
  }

  ghost predicate Earlier(p: Packet, q: Packet) {
    p.segment < q.segment || (p.segment == q.segment && p.client < q.client)
  }

  /** `m` bytes from position `n` of the doubled `all`. */
  function Twice(all: seq<uint8>, n: nat, m: nat): seq<uint8> {
    if n + m <= 2 * |all| then (all + all)[n..n + m] else []
  }

  /** A doubled segment, turned. */
  lemma {:induction false} Turned(g: seq<Item>, i: nat)
    requires Grouped(g)
    ensures var b, o, a := Bytes(Below(g, i)), Bytes(Of(g, i)), Bytes(Above(g, i));
            && |Bytes(g)| == |b| + |o| + |a|
            && (Of(g, i) == [] ==> o == [] && PacketItems(g, i) == g)
            && Twice(Bytes(g), |b| + |o|, |a| + |b|) == Bytes(Above(g, i) + Below(g, i))
  {
    Parts(g, i);
    TurnedParts(g, Below(g, i), Of(g, i), Above(g, i));
  }

  lemma {:induction false} TurnedParts(g: seq<Item>, b: seq<Item>, o: seq<Item>, a: seq<Item>)
    requires g == b + o + a
    ensures |Bytes(g)| == |Bytes(b)| + |Bytes(o)| + |Bytes(a)| && (o == [] ==> Bytes(o) == [])
    ensures Twice(Bytes(g), |Bytes(b)| + |Bytes(o)|, |Bytes(a)| + |Bytes(b)|) == Bytes(a + b)
  {
    hide Bytes, Twice;
    BytesConcat(b + o, a);
    BytesConcat(b, o);
    BytesConcat(a, b);
    FilledBytes(o);
    TurnedBytes(Bytes(b), Bytes(o), Bytes(a), Bytes(g));
  }

  lemma {:induction false} TurnedBytes(b: seq<uint8>, o: seq<uint8>, a: seq<uint8>, all: seq<uint8>)
    requires all == b + o + a
    ensures |all| == |b| + |o| + |a|
    ensures Twice(all, |b| + |o|, |a| + |b|) == a + b
  {
    var n := |b| + |o|;
    assert (all + all)[n..|all|] == a && (all + all)[|all|..|all| + |b|] == b;
    assert (all + all)[n..|all| + |b|] == (all + all)[n..|all|] + (all + all)[|all|..|all| + |b|];
  }

  lemma {:induction false} FilledBytes(g: seq<Item>)
    ensures Filled(g) && g != [] ==> |Bytes(g)| > 0
    ensures g == [] ==> Bytes(g) == []
  {
    if g != [] {
      assert g[|g| - 1].data != [] || !Filled(g);
    }
  }

  lemma {:induction false} FilledParts(g: seq<Item>, i: nat)
    requires Filled(g)
    ensures Filled(PacketItems(g, i))
  {
    OwnersOfParts(g, i);
    var h := PacketItems(g, i);
    forall k | 0 <= k < |h| ensures h[k].data != [] {
      PacketFair(g, i);
      assert h[k] in multiset(h);
      assert h[k] in multiset(g);
    }
  }

  // ---------- The whole build ----------

  /** What announces a client's messages. */
  function Header(number: int32, length: int32): seq<uint8> {
    IntBytes(N_CLIENT) + IntBytes(number) + UintBytes(length)
  }

  lemma {:induction false} HeaderShort(number: int32, length: int32)
    ensures 0 < |Header(number, length)| <= 10
  {
  }

  /** The bytes sent for what a client has to tell. */
  function Entry(messages: bool, number: int32, blob: seq<uint8>): seq<uint8>
    requires |blob| < 0x8000_0000
  {
    if messages then Header(number, |blob|) + blob else blob
  }

  /** The room counted for it. */
  function Cost(messages: bool, blob: seq<uint8>): nat {
    if blob == [] then 0 else if messages then 10 + |blob| else |blob|
  }

  ghost function Costs(messages: bool, blobs: seq<seq<uint8>>): seq<nat> {
    seq(|blobs|, i requires 0 <= i < |blobs| => Cost(messages, blobs[i]))
  }

  /** Who tells what, in order, among the first `n` clients: every human, and after it its bots. */
  ghost function Plan(human: seq<bool>, bots: seq<seq<nat>>, n: nat): seq<(nat, nat)>
    requires n <= |human| == |bots|
  {
    if n == 0 then []
    else Plan(human, bots, n - 1) + if human[n - 1] then [(n - 1, n - 1)] + BotsOf(n - 1, bots[n - 1]) else []
  }

  ghost function BotsOf(owner: nat, bots: seq<nat>): seq<(nat, nat)> {
    seq(|bots|, k requires 0 <= k < |bots| => (owner, bots[k]))
  }

  ghost function ItemsOf(plan: seq<(nat, nat)>, blobs: seq<seq<uint8>>, messages: bool, numbers: seq<int32>): seq<Item>
    requires Known(plan, blobs, numbers)
  {
    if plan == [] then []
    else
      var (owner, client) := plan[|plan| - 1];
      var before := ItemsOf(plan[..|plan| - 1], blobs, messages, numbers);
      if blobs[client] == [] then before else before + [Item(owner, Entry(messages, numbers[client], blobs[client]))]
  }

  ghost predicate Known(plan: seq<(nat, nat)>, blobs: seq<seq<uint8>>, numbers: seq<int32>) {
    && |numbers| == |blobs| && (forall i | 0 <= i < |blobs| :: |blobs[i]| < 0x8000_0000)
    && forall p | 0 <= p < |plan| :: plan[p].1 < |blobs|
  }

  /** No client tells anything twice. */
  ghost predicate Once(plan: seq<(nat, nat)>) {
    forall p, q | 0 <= p < q < |plan| :: plan[p].1 != plan[q].1
  }

  lemma {:induction false} PlanPrefix(human: seq<bool>, bots: seq<seq<nat>>, n: nat, m: nat)
    requires n <= m <= |human| == |bots|
    ensures Plan(human, bots, n) <= Plan(human, bots, m)
    decreases m
  {
    if n < m {
      PlanPrefix(human, bots, n, m - 1);
    }
  }

  lemma {:induction false} ItemsStep(plan: seq<(nat, nat)>, p: nat, blobs: seq<seq<uint8>>, messages: bool, numbers: seq<int32>)
    requires p < |plan| && Known(plan, blobs, numbers)
    ensures var (owner, client) := plan[p];
            ItemsOf(plan[..p + 1], blobs, messages, numbers)
            == ItemsOf(plan[..p], blobs, messages, numbers)
               + if blobs[client] == [] then [] else [Item(owner, Entry(messages, numbers[client], blobs[client]))]
  {
    assert plan[..p + 1][..p] == plan[..p];
  }

  /** What one phase of the build has done up to entry `p` of the plan. */
  ghost predicate Gathering(b: Builder, before: seq<Item>, plan: seq<(nat, nat)>, p: nat, messages: bool, numbers: seq<int32>,
                            blobs0: seq<seq<uint8>>, blobs: seq<seq<uint8>>, room: nat)
    reads b, b.data, b.wsdata, b.wslen
  {
    && b.Valid() && p <= |plan| && Known(plan, blobs0, numbers) && Once(plan) && |blobs| == |blobs0|
    && Joined(b.segments) + b.gathered == before + ItemsOf(plan[..p], blobs0, messages, numbers)
    && (forall q | p <= q < |plan| :: blobs[plan[q].1] == blobs0[plan[q].1])
    && b.start + 2 * b.length + 2 * Sum(Costs(messages, blobs)) <= room
  }

  /** Entry `p` of the plan. */
  method AddEntry(b: Builder, blobs: array<seq<uint8>>, messages: bool, numbers: seq<int32>, owner: nat, client: nat,
                  ghost before: seq<Item>, ghost plan: seq<(nat, nat)>, ghost p: nat, ghost blobs0: seq<seq<uint8>>, ghost room: nat)
    requires p < |plan| && plan[p] == (owner, client) && owner < |b.human|
    requires Gathering(b, before, plan, p, messages, numbers, blobs0, blobs[..], room) && room <= b.data.Length
    requires b.gathered == [] || b.gathered[|b.gathered| - 1].owner <= owner
    modifies blobs, b.data, b.wsdata, b.wslen, b`start, b`length, b`packets, b`segments, b`gathered
    ensures Gathering(b, before, plan, p + 1, messages, numbers, blobs0, blobs[..], room)
    ensures b.gathered == [] || b.gathered[|b.gathered| - 1].owner <= owner
  {
    hide Builder.Valid, Joined, ItemsOf, Header;
    ItemsStep(plan, p, blobs0, messages, numbers);
    if blobs[client] == [] {
      return;
    }
    var blob := blobs[client];
    HeaderShort(numbers[client], |blob|);
    Cheaper(messages, blobs[..], client, numbers[client]);
    ghost var items := Joined(b.segments) + b.gathered;
    b.Add(owner, Entry(messages, numbers[client], blob), if messages then 10 + |blob| else |blob|);
    blobs[client] := [];
    assert blobs[..] == old(blobs[..])[client := []];
    ghost var x := Item(owner, Entry(messages, numbers[client], blob));
    assert items + [x] == before + (ItemsOf(plan[..p], blobs0, messages, numbers) + [x]);
  }

  /** What a client told is not counted any more. */
  lemma {:induction false} Cheaper(messages: bool, blobs: seq<seq<uint8>>, client: nat, number: int32)
    requires client < |blobs| && blobs[client] != [] && |blobs[client]| < 0x8000_0000
    ensures |Entry(messages, number, blobs[client])| <= Cost(messages, blobs[client])
    ensures Sum(Costs(messages, blobs[client := []])) + Cost(messages, blobs[client]) == Sum(Costs(messages, blobs))
  {
    hide Sum, Header;
    HeaderShort(number, |blobs[client]|);
    assert Costs(messages, blobs[client := []]) == Costs(messages, blobs)[client := 0];
    SumUpdate(Costs(messages, blobs), client, 0);
  }

  /** One phase of `buildworldstate`: gather what every human and its bots have to tell, and send the rest. */
  method Gather(b: Builder, bots: seq<seq<nat>>, blobs: array<seq<uint8>>, messages: bool, numbers: seq<int32>)
    requires b.Valid() && b.gathered == [] && |bots| == |b.human| <= blobs.Length
    requires Known(Plan(b.human, bots, |b.human|), blobs[..], numbers) && Once(Plan(b.human, bots, |b.human|))
    requires b.start + 2 * b.length + 2 * Sum(Costs(messages, blobs[..])) <= b.data.Length
    modifies blobs, b.data, b.wsdata, b.wslen, b`start, b`length, b`packets, b`segments, b`gathered
    ensures b.Valid() && b.gathered == []
    ensures Joined(b.segments) == old(Joined(b.segments)) + ItemsOf(Plan(b.human, bots, |b.human|), old(blobs[..]), messages, numbers)
    ensures b.start + 2 * b.length <= old(b.start + 2 * b.length + 2 * Sum(Costs(messages, blobs[..])))
  {
    hide Builder.Valid, Joined, ItemsOf, Costs;
    ghost var human := b.human;
    ghost var plan, blobs0, before := Plan(human, bots, |human|), blobs[..], Joined(b.segments);
    ghost var room := b.start + 2 * b.length + 2 * Sum(Costs(messages, blobs[..]));
    GatherStart(b, before, plan, messages, numbers, blobs0, room);
    for i := 0 to |b.human|
      invariant Gathering(b, before, plan, |Plan(human, bots, i)|, messages, numbers, blobs0, blobs[..], room)
      invariant b.gathered == [] || b.gathered[|b.gathered| - 1].owner <= i
    {
      PlanPrefix(human, bots, i + 1, |human|);
      if !b.human[i] {
        continue;
      }
      ghost var p := |Plan(human, bots, i)|;
      assert Plan(human, bots, i + 1)[p] == (i, i) == plan[p];
      AddEntry(b, blobs, messages, numbers, i, i, before, plan, p, blobs0, room);
      for j := 0 to |bots[i]|
        invariant Gathering(b, before, plan, p + 1 + j, messages, numbers, blobs0, blobs[..], room)
        invariant b.gathered == [] || b.gathered[|b.gathered| - 1].owner <= i
      {
        assert Plan(human, bots, i + 1)[p + 1 + j] == (i, bots[i][j]) == plan[p + 1 + j];
        AddEntry(b, blobs, messages, numbers, i, bots[i][j], before, plan, p + 1 + j, blobs0, room);
      }
    }
    FlushedJoined(b.segments, b.gathered);
    ghost var items := b.gathered;
    assert plan[..|plan|] == plan;
    b.Flush();
  }

  lemma {:induction false} GatherStart(b: Builder, before: seq<Item>, plan: seq<(nat, nat)>, messages: bool, numbers: seq<int32>,
                                       blobs: seq<seq<uint8>>, room: nat)
    requires b.Valid() && b.gathered == [] && before == Joined(b.segments)
    requires Known(plan, blobs, numbers) && Once(plan) && room == b.start + 2 * b.length + 2 * Sum(Costs(messages, blobs))
    ensures Gathering(b, before, plan, 0, messages, numbers, blobs, blobs, room)
  {
    hide Builder.Valid;
    assert plan[..0] == [];
    assert before + [] == before;
  }

  /** How much clients have to tell. */
  method Measure(positions: array<seq<uint8>>, messages: array<seq<uint8>>) returns (wsmax: nat)
    requires positions.Length == messages.Length
    ensures wsmax == Sum(Costs(false, positions[..])) + Sum(Costs(true, messages[..]))
    ensures wsmax == 0 <==> forall i | 0 <= i < positions.Length :: positions[i] == messages[i] == []
  {
    hide Sum, Costs;
    ghost var ps, ms := Costs(false, positions[..]), Costs(true, messages[..]);
    AllCosts(positions[..], messages[..]);
    NothingYet(ps, ms);
    wsmax := 0;
    for i := 0 to positions.Length
      invariant wsmax == Sum(ps[..i]) + Sum(ms[..i])
      invariant wsmax == 0 <==> forall k | 0 <= k < i :: positions[k] == messages[k] == []
    {
      OneCost(positions[..], messages[..], i);
      wsmax := wsmax + |positions[i]|;
      if |messages[i]| > 0 {
        wsmax := wsmax + 10 + |messages[i]|;
      }
    }
  }

  /**
   `buildworldstate`: the buffer of twice what clients have to tell suffices, and its segments hold every
   position and then every message, each once.
   */
  method BuildWorldState(human: seq<bool>, bots: seq<seq<nat>>, numbers: seq<int32>,
                         positions: array<seq<uint8>>, messages: array<seq<uint8>>, servermtu: int) returns (b: Builder?)
    requires |human| == |bots| == positions.Length == messages.Length && positions != messages
    requires Once(Plan(human, bots, |human|))
    requires Known(Plan(human, bots, |human|), positions[..], numbers) && Known(Plan(human, bots, |human|), messages[..], numbers)
    modifies positions, messages
    ensures b == null <==> forall i | 0 <= i < |human| :: old(positions[i]) == old(messages[i]) == []
    ensures b != null ==>
              && b.Valid() && b.gathered == [] && b.human == human
              && Joined(b.segments) == ItemsOf(Plan(human, bots, |human|), old(positions[..]), false, numbers)
                                       + ItemsOf(Plan(human, bots, |human|), old(messages[..]), true, numbers)
  {
    hide ItemsOf, Builder.Valid, Sum, Costs;
    ghost var positions0, messages0 := positions[..], messages[..];
    var wsmax := Measure(positions, messages);
    if wsmax <= 0 {
      return null;
    }
    var mtu := servermtu - 100;
    if mtu <= 0 {
      mtu := 2 * wsmax;
    }
    b := new Builder(2 * wsmax, human, mtu);
    assert positions[..] == positions0 && messages[..] == messages0;
    Gather(b, bots, positions, false, numbers);
    assert messages[..] == messages0;
    Gather(b, bots, messages, true, numbers);
    Nothing(ItemsOf(Plan(human, bots, |human|), old(positions[..]), false, numbers));
  }

  lemma {:induction false} NothingYet(ps: seq<nat>, ms: seq<nat>)
    ensures Sum(ps[..0]) == Sum(ms[..0]) == 0
  {
  }

  lemma {:induction false} OneCost(positions: seq<seq<uint8>>, messages: seq<seq<uint8>>, i: nat)
    requires i < |positions| == |messages|
    ensures var ps, ms := Costs(false, positions), Costs(true, messages);
            && i < |ps| == |ms|
            && Sum(ps[..i + 1]) == Sum(ps[..i]) + |positions[i]|
            && Sum(ms[..i + 1]) == Sum(ms[..i]) + if messages[i] == [] then 0 else 10 + |messages[i]|
  {
    hide Sum;
    SumNext(Costs(false, positions), i);
    SumNext(Costs(true, messages), i);
  }

  lemma {:induction false} AllCosts(positions: seq<seq<uint8>>, messages: seq<seq<uint8>>)
    requires |positions| == |messages|
    ensures var ps, ms := Costs(false, positions), Costs(true, messages);
            |ps| == |ms| == |positions| && ps[..|positions|] == ps && ms[..|positions|] == ms
  {
  }

  lemma {:induction false} Nothing(s: seq<Item>)
    ensures Joined([]) + s == s
  {
  }
}
