/**
 Compression loses nothing: the decompressor gives back what the compressor was given, and no two
 byte strings have the same compressed form.
 */
module RoundTrip {
  import opened Machine
  import opened ArithmeticCoder
  import opened ContextModel
  import R = RangeCoder

  /** The compressor on one coder and the decompressor on another, as two hosts run them. */
  method CompressThenDecompress(sender: R.RangeCoder, receiver: R.RangeCoder, inBuffers: seq<seq<uint8>>,
                                wire: array<uint8>, out: array<uint8>)
    returns (sent: nat, received: nat)
    requires sender.symbols.Length == MAX_SYMBOLS && receiver.symbols.Length == MAX_SYMBOLS
    requires inBuffers != [] && forall i :: 1 <= i < |inBuffers| ==> inBuffers[i] != []
    requires |R.Flatten(inBuffers)| <= out.Length && wire != out
    modifies sender, sender.symbols, receiver, receiver.symbols, wire, out
    ensures sent > 0 ==> received == |R.Flatten(inBuffers)| && out[..received] == R.Flatten(inBuffers)
    ensures sent == 0 ==> R.Flatten(inBuffers) == [] || |Compressed(R.Flatten(inBuffers))| > wire.Length
  {
    ghost var data := R.Flatten(inBuffers);
    R.CompressedEmpty(data);
    sent := sender.Compress(inBuffers, 1, wire);
    received := 0;
    if sent > 0 {
      received := receiver.Decompress(wire[..sent], out, data);
    }
  }

  // ---------- Unique decoding ----------

  /** Two readings of the same stream at the same contexts agree on whether a byte comes next, on the
      byte, and on where its slots end. */
  lemma {:induction false} SameByte(input: seq<uint8>, p: nat, i: Interval, cs: Contexts, w: Key,
                                    more1: bool, v1: uint8, after1: seq<Slot>, more2: bool, v2: uint8, after2: seq<Slot>)
    returns (p': nat, i': Interval)
    requires AllHealthy(cs) && AllValid(after1) && AllValid(after2)
    requires (!more1 ==> after1 == []) && (!more2 ==> after2 == [])
    requires Ahead(input, p, i, Remaining(more1, cs, w, v1, after1))
    requires Ahead(input, p, i, Remaining(more2, cs, w, v2, after2))
    ensures more1 == more2 && (more1 ==> v1 == v2)
    ensures Ahead(input, p', i', after1) && Ahead(input, p', i', after2)
    decreases |w|
  {
    hide Encode, Normalise, Window, Read, Interval.Narrow, Context.Under, Context.Total, Context.Healthy, Sum, Remaining;
    hide Ahead, AllValid;
    var ctx, root := At(cs, w), w == [];
    NextSlotAhead(more1, cs, w, v1, after1);
    NextSlotAhead(more2, cs, w, v2, after2);
    if !root {
      NextSlotAhead(more1, cs, w[1..], v1, after1);
      NextSlotAhead(more2, cs, w[1..], v2, after2);
    }
    if root || 0 < ctx.escapes < ctx.Total(false) {
      var hit1, hit2 := more1 && (root || ctx.counts[v1] > 0), more2 && (root || ctx.counts[v2] > 0);
      var slot1, slot2 := NextSlot(more1, ctx, root, v1), NextSlot(more2, ctx, root, v2);
      var next1 := if hit1 || root then after1 else Remaining(more1, cs, w[1..], v1, after1);
      var next2 := if hit2 || root then after2 else Remaining(more2, cs, w[1..], v2, after2);
      AheadReads(input, p, i, Remaining(more1, cs, w, v1, after1), slot1, next1);
      AheadReads(input, p, i, Remaining(more2, cs, w, v2, after2), slot2, next2);
      if hit1 && hit2 && v1 != v2 {
        SlotsOrdered(ctx, if v1 < v2 then v1 else v2, if v1 < v2 then v2 else v1, root);
      }
      var n := Normalise(i.Narrow(slot1));
      p', i' := p + |n.bytes|, n.interval;
      if !root && !hit1 {
        p', i' := SameByte(input, p', i', cs, w[1..], more1, v1, after1, more2, v2, after2);
      }
    } else {
      p', i' := SameByte(input, p, i, cs, w[1..], more1, v1, after1, more2, v2, after2);
    }
  }

  lemma {:induction false} SameStream(input: seq<uint8>, p: nat, i: Interval, m: Model, d1: seq<uint8>, d2: seq<uint8>)
    requires m.Healthy()
    requires Ahead(input, p, i, AllSlots(m, d1)) && Ahead(input, p, i, AllSlots(m, d2))
    ensures d1 == d2
    decreases |d1|
  {
    hide Ahead, AllValid, Slots, Model.Next, Remaining, Context.Healthy;
    var more1, more2 := d1 != [], d2 != [];
    var v1: uint8, v2: uint8 := if more1 then d1[0] else 0, if more2 then d2[0] else 0;
    var t1, t2 := if more1 then d1[1..] else [], if more2 then d2[1..] else [];
    R.RestAhead(m, d1, v1, t1);
    R.RestAhead(m, d2, v2, t2);
    var after1 := if more1 then AllSlots(m.Next(v1), t1) else [];
    var after2 := if more2 then AllSlots(m.Next(v2), t2) else [];
    var p', i' := SameByte(input, p, i, m.contexts, m.history, more1, v1, after1, more2, v2, after2);
    if more1 {
      NextHealthy(m, v1);
      SameStream(input, p', i', m.Next(v1), t1, t2);
    }
  }

  /** No two byte strings have the same compressed form. */
  lemma CompressedInjective(d1: seq<uint8>, d2: seq<uint8>)
    requires Compressed(d1) == Compressed(d2)
    ensures d1 == d2
  {
    EmptyHealthy();
    R.AheadAtStart(d1);
    R.AheadAtStart(d2);
    SameStream(Compressed(d1), 0, Start, Empty(), d1, d2);
  }
}
