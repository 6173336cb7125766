/** What a client reads in the packets of a world state, fpsgame/server.cpp. */
module ReceivedState {
  import opened Machine
  import opened WireCodec
  import opened WorldState

  /** Messages of one client: its number, and what it has to tell. */
  datatype News = News(number: int32, blob: seq<uint8>)

  /** What a receiver asks for before the messages themselves. */
  function Asked(): seq<Kind> {
    [PlainKind, PlainKind, CompactKind]
  }

  lemma EncodeThree(a: Value, b: Value, c: Value)
    ensures Encode([a, b, c]) == a.Bytes() + b.Bytes() + c.Bytes()
  {
    hide Value.Bytes;
    var vs := [a, b, c];
    assert vs[1..] == [b, c] && [b, c][1..] == [c] && [c][1..] == [];
    assert Encode([c]) == c.Bytes() + Encode([]) == c.Bytes();
    assert Encode([b, c]) == b.Bytes() + c.Bytes();
    assert Encode(vs) == a.Bytes() + (b.Bytes() + c.Bytes());
  }

  /** A length read is one of 29 bits, sign included. */
  lemma ThirdRead(s: seq<uint8>)
    ensures var vs := Decode(Asked(), s).0; |vs| == 3 && vs[2].Compact? && -0x1000_0000 <= vs[2].m < 0x1000_0000
  {
    hide ReadInt, ReadUint;
    var ks := Asked();
    var s1 := Drop(s, Read(ks[0], s).1);
    var s2 := Drop(s1, Read(ks[1], s1).1);
    UintRange(s2);
    assert ks[1..] == [PlainKind, CompactKind] && ks[1..][1..] == [CompactKind] && ks[1..][1..][1..] == [];
    LastRead(s2);
    assert Decode(ks[1..], s1).0 == [Read(ks[1], s1).0] + Decode(ks[1..][1..], s2).0;
    assert Decode(ks, s).0 == [Read(ks[0], s).0] + Decode(ks[1..], s1).0;
  }

  lemma LastRead(s: seq<uint8>)
    ensures Decode([CompactKind], s).0 == [Compact(ReadUint(s).0)]
  {
    hide ReadUint;
    assert [CompactKind][1..] == [];
    assert Decode([], Drop(s, ReadUint(s).1)) == ([], Drop(s, ReadUint(s).1));
  }

  lemma {:induction false} HeaderRead(number: int32, blob: seq<uint8>, rest: seq<uint8>)
    requires |blob| < 0x1000_0000
    ensures Decode(Asked(), Entry(true, number, blob) + rest) == ([Plain(88), Plain(number), Compact(|blob|)], blob + rest)
  {
    hide Decode, IntBytes, UintBytes;
    var vs := [Plain(88), Plain(number), Compact(|blob|)];
    var h := Header(number, |blob|);
    EncodeThree(Plain(88), Plain(number), Compact(|blob|));
    StreamRoundTrip(vs, blob + rest);
    assert Kinds(vs) == Asked();
    assert h + blob + rest == h + (blob + rest);
  }

  /** A receiver reads N_CLIENT and the number, and then the length, and is left with the messages, if and only if there are
      less than 2^28 bytes of them. Positions are sent as they are. */
  lemma {:induction false} EntryRead(number: int32, blob: seq<uint8>)
    requires |blob| < 0x8000_0000
    ensures Decode(Asked(), Entry(true, number, blob)) == ([Plain(88), Plain(number), Compact(|blob|)], blob)
            <==> |blob| < 0x1000_0000
    ensures Entry(false, number, blob) == blob
  {
    if |blob| < 0x1000_0000 {
      HeaderRead(number, blob, []);
      assert Entry(true, number, blob) + [] == Entry(true, number, blob) && blob + [] == blob;
    } else {
      ThirdRead(Entry(true, number, blob));
    }
  }

  /** A receiver takes a packet of messages apart, as long as it makes sense. */
  function Unpack(s: seq<uint8>): seq<News>
    decreases |s|
  {
    if s == [] then []
    else
      var (vs, rest) := Decode(Asked(), s);
      if |vs| == 3 && vs[0] == Plain(88) && vs[1].Plain? && vs[2].Compact? && 0 <= vs[2].m <= |rest| < |s| then
        [News(vs[1].n, rest[..vs[2].m])] + Unpack(rest[vs[2].m..])
      else
        []
  }

  /** An item of the world state that holds the messages `n`. */
  ghost predicate Announces(x: Item, n: News) {
    |n.blob| < 0x1000_0000 && x.data == Entry(true, n.number, n.blob)
  }

  /** Whatever items are put one after the other, all their messages are read, each with its client's number, in order. */
  lemma {:induction false} AllRead(g: seq<Item>, news: seq<News>)
    requires |g| == |news| && forall k | 0 <= k < |g| :: Announces(g[k], news[k])
    ensures Unpack(Bytes(g)) == news
  {
    hide Bytes, Decode, Header;
    if g == [] {
      assert Bytes(g) == [] by {
        NoBytes();
      }
    } else {
      var n, more := news[0], Bytes(g[1..]);
      FirstBytes(g);
      AllRead(g[1..], news[1..]);
      HeaderRead(n.number, n.blob, more);
      EntryLonger(n.number, n.blob);
      assert (n.blob + more)[..|n.blob|] == n.blob && (n.blob + more)[|n.blob|..] == more;
      assert Bytes(g) == Entry(true, n.number, n.blob) + more;
      assert [News(n.number, n.blob)] + news[1..] == news;
    }
  }

  lemma NoBytes()
    ensures Bytes([]) == []
  {
  }

  lemma EntryLonger(number: int32, blob: seq<uint8>)
    requires |blob| < 0x8000_0000
    ensures |Entry(true, number, blob)| > |blob|
  {
    HeaderShort(number, |blob|);
  }

  lemma FirstBytes(g: seq<Item>)
    requires g != []
    ensures Bytes(g) == g[0].data + Bytes(g[1..])
  {
    hide Bytes;
    BytesConcat([g[0]], g[1..]);
    assert g == [g[0]] + g[1..];
    assert [] + [g[0]] == [g[0]] && [] + g[0].data == g[0].data;
    BytesStep([], g[0]);
    NoBytes();
  }

  // ---------- What there is to tell ----------

  /** Every human tells what it has and what its bots have. */
  lemma {:induction false} PlanTells(human: seq<bool>, bots: seq<seq<nat>>, n: nat, owner: nat, client: nat)
    requires n <= |human| == |bots|
    ensures (owner, client) in Plan(human, bots, n) <==> owner < n && human[owner] && (client == owner || client in bots[owner])
  {
    if n > 0 {
      var a, b := Plan(human, bots, n - 1), [(n - 1, n - 1)] + BotsOf(n - 1, bots[n - 1]);
      PlanTells(human, bots, n - 1, owner, client);
      BotsTell(n - 1, bots[n - 1], owner, client);
      hide BotsOf;
      InEither([(n - 1, n - 1)], BotsOf(n - 1, bots[n - 1]), (owner, client));
      InEither(a, b, (owner, client));
      assert Plan(human, bots, n) == if human[n - 1] then a + b else a + [];
    }
  }

  lemma InEither(a: seq<(nat, nat)>, b: seq<(nat, nat)>, x: (nat, nat))
    ensures x in a + b <==> x in a || x in b
    ensures a + [] == a
  {
  }

  lemma BotsTell(owner0: nat, bots: seq<nat>, owner: nat, client: nat)
    ensures (owner, client) in BotsOf(owner0, bots) <==> owner == owner0 && client in bots
  {
    if owner == owner0 && client in bots {
      var k :| 0 <= k < |bots| && bots[k] == client;
      assert BotsOf(owner0, bots)[k] == (owner, client);
    }
  }

  /** What is told by entry `p` of the plan, if that client has anything to tell. */
  ghost predicate TellsAt(plan: seq<(nat, nat)>, blobs: seq<seq<uint8>>, messages: bool, numbers: seq<int32>, p: nat, x: Item)
    requires Known(plan, blobs, numbers)
  {
    p < |plan| && blobs[plan[p].1] != [] && x == Item(plan[p].0, Entry(messages, numbers[plan[p].1], blobs[plan[p].1]))
  }

  /** The items are exactly what the clients with something to tell have to tell. */
  lemma {:induction false} ItemsTell(plan: seq<(nat, nat)>, blobs: seq<seq<uint8>>, messages: bool, numbers: seq<int32>, x: Item)
    requires Known(plan, blobs, numbers)
    ensures x in ItemsOf(plan, blobs, messages, numbers) <==> exists p :: TellsAt(plan, blobs, messages, numbers, p, x)
  {
    hide Entry;
    if plan != [] {
      var n := |plan| - 1;
      var plan0 := plan[..n];
      ItemsTell(plan0, blobs, messages, numbers, x);
      forall p: nat ensures TellsAt(plan0, blobs, messages, numbers, p, x) <==> p < n && TellsAt(plan, blobs, messages, numbers, p, x) {
      }
      if x in ItemsOf(plan0, blobs, messages, numbers) {
        var p :| TellsAt(plan0, blobs, messages, numbers, p, x);
        assert TellsAt(plan, blobs, messages, numbers, p, x);
      } else if x in ItemsOf(plan, blobs, messages, numbers) {
        assert TellsAt(plan, blobs, messages, numbers, n, x);
      }
    }
  }
}
