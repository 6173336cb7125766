/**
 The carry-less range coder of enet/compress.c, apart from the statistical model: how a sequence
 of slots is turned into bytes, and why a reader of those bytes finds its way back.
 */
module ArithmeticCoder {
  import opened Machine

  const TOP := 0x100_0000
  const BOTTOM := 0x1_0000

  /** A symbol's share `[under, under + count)` of `total`. */
  datatype Slot = Slot(under: nat, count: nat, total: nat) {
    predicate Valid() {
      0 < count && under + count <= total <= 0xFFFF
    }
  }

  /** The coder's registers `low` and `range`: the current interval is `[low, low + range)`. */
  datatype Interval = Interval(low: nat, range: nat) {

    /** The interval never leaves the 32-bit line, so no addition to `low` carries out of it. */
    predicate Nested() {
      && low < WORD
      && 1 <= range
      && low + range <= WORD
      && (low + range == WORD ==> TOP <= low)
    }

    /** Ready to encode: fine enough for any 16-bit total. */
    predicate Ready() {
      Nested() && BOTTOM <= range
    }

    /** The top bytes of `low` and `low + range` differ; the sum wraps as in C. */
    predicate Straddles() {
      low / TOP != (low + range) % WORD / TOP
    }

    /** The width once clipped so that the top byte is settled. */
    function Clipped(): nat {
      if Straddles() then Clip(low) else range
    }

    /** Shift the settled top byte out. */
    function Shifted(): Interval {
      Interval(ShiftLeft(low), ShiftLeft(Clipped()))
    }

    predicate Settled() {
      Straddles() && BOTTOM <= range
    }

    function Narrow(slot: Slot): Interval
      requires 0 < slot.total
    {
      var unit := Unit(range, slot.total);
      Interval(low + slot.under * unit, slot.count * unit)
    }

    predicate Contains(code: nat) {
      low <= code < low + range
    }
  }

  /** The distance from `low` to the next multiple of `BOTTOM`, as `-low & (BOTTOM - 1)` computes it. */
  function Clip(low: nat): (r: nat)
    ensures r < BOTTOM
  {
    (BOTTOM - low % BOTTOM) % BOTTOM
  }

  /** A 32-bit shift by one byte. */
  function ShiftLeft(x: nat): (r: nat)
    ensures r < WORD
  {
    x * 0x100 % WORD
  }

  /** One of `total` equal parts of a range. */
  function Unit(range: nat, total: nat): nat
    requires 0 < total
  {
    range / total
  }

  const Start := Interval(0, WORD - 1)

  /** The test the C code writes with exclusive or says that the top bytes differ. */
  lemma TopByteTest(a: bv32, b: bv32)
    ensures (a ^ b) >= 0x100_0000 <==> a >> 24 != b >> 24
  {
  }

  /** The mask the C code writes as `-low & (BOTTOM - 1)`. */
  lemma ClipMask(low: bv32)
    ensures -low & 0xFFFF == (0x1_0000 - (low & 0xFFFF)) & 0xFFFF
  {
  }

  // ---------- Narrowing and renormalisation ----------

  /** Encoding a slot stays inside the interval: neither the product nor the sum can wrap. */
  lemma NarrowNested(i: Interval, slot: Slot)
    requires i.Ready() && slot.Valid()
    ensures var n := i.Narrow(slot);
            n.Nested() && i.low <= n.low && n.low + n.range <= i.low + i.range
  {
    Parts(i.range, slot.under, slot.count, slot.total);
  }

  /** Dividing a range into `total` parts leaves room for `under + count` of them. */
  lemma Parts(range: nat, under: nat, count: nat, total: nat)
    requires 0 < count && under + count <= total <= range
    ensures var unit := range / total;
            1 <= unit && 1 <= count * unit && under * unit + count * unit <= range
  {
    var unit := range / total;
    DivisionFits(range, total);
    MulMonotone(under + count, total, unit);
    MulMonotone(1, count, unit);
    MulSum(under, count, unit);
  }

  lemma DivisionFits(range: nat, total: nat)
    requires 0 < total <= range
    ensures 1 <= range / total && total * (range / total) <= range
  {
  }

  lemma MulSum(x: nat, y: nat, unit: nat)
    ensures x * unit + y * unit == (x + y) * unit
  {
  }

  lemma MulMonotone(x: nat, y: nat, unit: nat)
    requires x <= y
    ensures x * unit <= y * unit
  {
  }

  /** Where a clipped interval ends: at the 2^24 boundary that it straddled. */
  lemma ClippedEnd(i: Interval)
    requires i.Nested() && !i.Settled()
    ensures 1 <= i.Clipped() <= i.range
    ensures i.low % TOP + i.Clipped() <= TOP
    ensures i.Straddles() ==> i.low % TOP + i.Clipped() == TOP
    ensures !i.Straddles() ==> i.low % TOP + i.Clipped() < TOP
    ensures i.low + i.range == WORD ==> i.Clipped() == i.range < BOTTOM
  {
    if !i.Straddles() {
      assert i.low + i.range < WORD;
    } else {
      assert i.range < BOTTOM;
      var r := i.low % BOTTOM;
      assert i.low % TOP % BOTTOM == r;
    }
  }

  lemma ShiftedNested(i: Interval)
    requires i.Nested() && !i.Settled()
    ensures i.Shifted().Nested()
    ensures i.Shifted() == Interval(i.low % TOP * 0x100, i.Clipped() * 0x100)
    ensures i.low + i.range == WORD ==> i.Shifted().low + i.Shifted().range == WORD && i.Shifted().range > i.range
    ensures i.low + i.range < WORD ==>
      i.Shifted().low + i.Shifted().range == WORD || i.Shifted().range > i.range
  {
    ClippedEnd(i);
    ShiftOut(i.low);
  }

  datatype Renormal = Renormal(interval: Interval, bytes: seq<uint8>)

  /** Shift bytes out until the top byte is open and 16 bits of range are left. */
  function Normalise(i: Interval): (r: Renormal)
    requires i.Nested()
    ensures r.interval.Ready()
    decreases if i.low + i.range == WORD then 0 else 1, WORD - i.range
  {
    if i.Settled() then
      Renormal(i, [])
    else
      ShiftedNested(i);
      var rest := Normalise(i.Shifted());
      Renormal(rest.interval, [i.low / TOP] + rest.bytes)
  }

  // ---------- The byte stream ----------

  ghost predicate AllValid(slots: seq<Slot>) {
    forall s <- slots :: s.Valid()
  }

  /** `n` shifts by a byte bring `low` to zero. */
  predicate Aligned(low: nat, n: nat)
    decreases n
  {
    low == 0 || (n > 0 && Aligned(ShiftLeft(low), n - 1))
  }

  lemma ShiftOut(low: nat)
    ensures low * 0x100 % WORD == low % TOP * 0x100
  {
    assert low == low / TOP * TOP + low % TOP;
  }

  /** Four do for any register. */
  lemma FourShifts(low: nat)
    requires low < WORD
    ensures Aligned(low, 4)
  {
    hide ShiftLeft;
    var q1 := low / 0x100;
    var q2 := q1 / 0x100;
    var b3, b2, b1, b0 := q2 / 0x100, q2 % 0x100, q1 % 0x100, low % 0x100;
    ShiftDigits(b3, b2, b1, b0);
    ShiftDigits(b2, b1, b0, 0);
    ShiftDigits(b1, b0, 0, 0);
    ShiftDigits(b0, 0, 0, 0);
    assert Aligned(b0 * TOP, 1);
    assert Aligned(b1 * TOP + b0 * BOTTOM, 2);
    assert Aligned(b2 * TOP + b1 * BOTTOM + b0 * 0x100, 3);
  }

  lemma ShiftDigits(b3: uint8, b2: uint8, b1: uint8, b0: uint8)
    ensures ShiftLeft(b3 * TOP + b2 * BOTTOM + b1 * 0x100 + b0) == b2 * TOP + b1 * BOTTOM + b0 * 0x100
  {
  }

  /** The bytes of `low` down to its last non-zero one. */
  function Flush(low: nat): seq<uint8>
    requires low < WORD
  {
    FourShifts(low);
    FlushWithin(low, 4)
  }

  function FlushWithin(low: nat, n: nat): (bytes: seq<uint8>)
    requires low < WORD && Aligned(low, n)
    decreases n
  {
    if low == 0 then [] else [low / TOP] + FlushWithin(ShiftLeft(low), n - 1)
  }

  lemma {:induction false} FlushAnyBound(low: nat, m: nat, n: nat)
    requires low < WORD && Aligned(low, m) && Aligned(low, n)
    ensures FlushWithin(low, m) == FlushWithin(low, n)
    decreases m
  {
    if low != 0 {
      FlushAnyBound(ShiftLeft(low), m - 1, n - 1);
    }
  }

  /** What is written for `slots`, followed by the flush. */
  function Encode(i: Interval, slots: seq<Slot>): seq<uint8>
    requires i.Ready() && AllValid(slots)
    decreases |slots|
  {
    if slots == [] then
      Flush(i.low)
    else
      NarrowNested(i, slots[0]);
      var r := Normalise(i.Narrow(slots[0]));
      r.bytes + Encode(r.interval, slots[1..])
  }

  /** The four bytes at the front of a stream, zero-extended: the decoder's code register. */
  function Window(s: seq<uint8>): (w: nat)
    ensures w < WORD
  {
    ByteAt(s, 0) * TOP + ByteAt(s, 1) * BOTTOM + ByteAt(s, 2) * 0x100 + ByteAt(s, 3)
  }

  /** Shifting the code register left and reading one more byte is moving the window by one. */
  lemma WindowShift(s: seq<uint8>)
    ensures Window(Drop(s, 1)) == Window(s) * 0x100 % WORD + ByteAt(s, 4)
    ensures Window(s) == ByteAt(s, 0) * TOP + Window(Drop(s, 1)) / 0x100
  {
    assert forall k: nat :: ByteAt(Drop(s, 1), k) == ByteAt(s, k + 1);
  }

  lemma WindowCons(b: uint8, s: seq<uint8>)
    ensures Window([b] + s) == b * TOP + Window(s) / 0x100
  {
    WindowShift([b] + s);
    assert Drop([b] + s, 1) == s;
  }

  lemma {:induction false} WindowFlush(low: nat, n: nat)
    requires low < WORD && Aligned(low, n)
    ensures Window(FlushWithin(low, n)) == low
    decreases n
  {
    if low != 0 {
      WindowFlush(ShiftLeft(low), n - 1);
      WindowCons(low / TOP, FlushWithin(ShiftLeft(low), n - 1));
      ShiftOut(low);
    }
  }

  /** If what follows the shifted-out bytes lies in the new interval, the whole lies in the old. */
  lemma {:induction false} NormaliseContains(i: Interval, rest: seq<uint8>)
    requires i.Nested()
    requires Normalise(i).interval.Contains(Window(rest))
    ensures i.Contains(Window(Normalise(i).bytes + rest))
    decreases if i.low + i.range == WORD then 0 else 1, WORD - i.range
  {
    if i.Settled() {
      assert Normalise(i).bytes + rest == rest;
    } else {
      ShiftedNested(i);
      ClippedEnd(i);
      var inner := Normalise(i.Shifted());
      NormaliseContains(i.Shifted(), rest);
      var tail := inner.bytes + rest;
      assert Normalise(i).bytes + rest == [i.low / TOP] + tail;
      WindowCons(i.low / TOP, tail);
      var w := Window(tail);
      assert i.low % TOP * 0x100 <= w < i.low % TOP * 0x100 + i.Clipped() * 0x100;
      assert i.low == i.low / TOP * TOP + i.low % TOP;
    }
  }

  /** Whatever is still to be encoded, the bytes written for it spell a number in the interval. */
  lemma {:induction false} EncodeContains(i: Interval, slots: seq<Slot>)
    requires i.Ready() && AllValid(slots)
    ensures i.Contains(Window(Encode(i, slots)))
    decreases |slots|
  {
    if slots == [] {
      FourShifts(i.low);
      WindowFlush(i.low, 4);
    } else {
      NarrowNested(i, slots[0]);
      var n := i.Narrow(slots[0]);
      var r := Normalise(n);
      EncodeContains(r.interval, slots[1..]);
      NormaliseContains(n, Encode(r.interval, slots[1..]));
    }
  }

  /** The decoder's quotient: which of `total` parts of the interval the code falls in. */
  function Read(i: Interval, code: nat, total: nat): nat
    requires i.low <= code && 0 < total <= i.range
  {
    (code - i.low) / Unit(i.range, total)
  }

  lemma ReadInSlot(i: Interval, slot: Slot, code: nat)
    requires i.Ready() && slot.Valid() && i.Narrow(slot).Contains(code)
    ensures i.low <= code && slot.under <= Read(i, code, slot.total) < slot.under + slot.count
  {
    var unit := Unit(i.range, slot.total);
    DivisionFits(i.range, slot.total);
    MulSum(slot.under, slot.count, unit);
    var d := code - i.low;
    DivBounds(d, unit, slot.under, slot.under + slot.count);
  }

  lemma DivBounds(d: nat, unit: nat, a: nat, b: nat)
    requires 1 <= unit && a * unit <= d < b * unit
    ensures a <= d / unit < b
  {
    var q := d / unit;
    assert q * unit <= d < (q + 1) * unit;
    if q < a {
      MulMonotone(q + 1, a, unit);
    } else if b <= q {
      MulMonotone(b, q, unit);
    }
  }

  /**
   A reader whose window starts at the encoding of `slots` reads a position inside the first slot,
   and after renormalising as the writer did its window starts at the encoding of the rest.
   */
  lemma DecodeFollows(i: Interval, slots: seq<Slot>)
    requires i.Ready() && slots != [] && slots[0].Valid() && AllValid(slots)
    ensures var stream := Encode(i, slots);
            var n := i.Narrow(slots[0]);
            && n.Nested()
            && i.low <= Window(stream)
            && slots[0].under <= Read(i, Window(stream), slots[0].total) < slots[0].under + slots[0].count
            && Drop(stream, |Normalise(n).bytes|) == Encode(Normalise(n).interval, slots[1..])
  {
    NarrowNested(i, slots[0]);
    var n := i.Narrow(slots[0]);
    var r := Normalise(n);
    var rest := Encode(r.interval, slots[1..]);
    EncodeContains(r.interval, slots[1..]);
    NormaliseContains(n, rest);
    ReadInSlot(i, slots[0], Window(r.bytes + rest));
  }

  // ---------- The end of the stream ----------

  lemma FlushDrop(low: nat)
    requires low < WORD
    ensures Drop(Flush(low), 1) == Flush(ShiftLeft(low))
  {
    FourShifts(low);
    if low != 0 {
      FourShifts(ShiftLeft(low));
      FlushAnyBound(ShiftLeft(low), 3, 4);
    }
  }

  lemma FlushReads(low: nat)
    requires low < WORD
    ensures Window(Flush(low)) == low
  {
    FourShifts(low);
    WindowFlush(low, 4);
  }

  /** Renormalising an interval whose stream is the flush of its low end keeps it so. */
  lemma {:induction false} NormaliseFlush(i: Interval)
    requires i.Nested()
    ensures Drop(Flush(i.low), |Normalise(i).bytes|) == Flush(Normalise(i).interval.low)
    decreases if i.low + i.range == WORD then 0 else 1, WORD - i.range
  {
    if !i.Settled() {
      ShiftedNested(i);
      FlushDrop(i.low);
      var inner := Normalise(i.Shifted());
      NormaliseFlush(i.Shifted());
      DropDrop(Flush(i.low), 1, |inner.bytes|);
    }
  }

  /**
   Once nothing is left but the flush, the reader reads position 0, which lies in every escape
   slot, and taking an escape keeps it at the flush: this is why no end marker is needed.
   */
  lemma EndReadsZero(i: Interval, escapes: nat, total: nat)
    requires i.Ready() && 0 < escapes <= total <= 0xFFFF
    ensures Window(Flush(i.low)) == i.low && Read(i, i.low, total) == 0
    ensures var n := i.Narrow(Slot(0, escapes, total));
            && n.Nested()
            && Drop(Flush(i.low), |Normalise(n).bytes|) == Flush(Normalise(n).interval.low)
  {
    hide Aligned, Window, Normalise, Flush;
    var slot := Slot(0, escapes, total);
    FlushReads(i.low);
    NarrowNested(i, slot);
    NormaliseFlush(i.Narrow(slot));
  }

  /** From byte `p` on, `input` is the encoding of `slots`. */
  ghost predicate Ahead(input: seq<uint8>, p: nat, i: Interval, slots: seq<Slot>) {
    i.Ready() && AllValid(slots) && Drop(input, p) == Encode(i, slots)
  }

  /** Reading the first slot ahead, or an escape at the end of the stream, stays in step. */
  lemma AheadReads(input: seq<uint8>, p: nat, i: Interval, slots: seq<Slot>, slot: Slot, after: seq<Slot>)
    requires Ahead(input, p, i, slots) && slot.Valid() && AllValid(after)
    requires slots == [slot] + after || (slots == after == [] && slot.under == 0)
    ensures var code, n := Window(Drop(input, p)), i.Narrow(slot);
            && i.Ready() && slot.total <= i.range && i.low <= code && slot.under <= Read(i, code, slot.total) < slot.under + slot.count
            && n.Nested()
            && Ahead(input, p + |Normalise(n).bytes|, Normalise(n).interval, after)
  {
    hide Encode, Normalise, Window, Flush;
    var n := i.Narrow(slot);
    NarrowNested(i, slot);
    DropDrop(input, p, |Normalise(n).bytes|);
    if slots == [slot] + after {
      assert slots[1..] == after;
      DecodeFollows(i, slots);
    } else {
      EncodeEmpty(i);
      EndReadsZero(i, slot.count, slot.total);
      EncodeEmpty(Normalise(n).interval);
    }
  }

  lemma EncodeEmpty(i: Interval)
    requires i.Ready()
    ensures AllValid([]) && Encode(i, []) == Flush(i.low)
  {
  }

  // ---------- The loops ----------

  /**
   `ENET_RANGE_CODER_ENCODE`: code one slot, appending to `out`. All that will ever be written is
   `z`; the call fails only if that does not fit.
   */
  method RangeEncode(low0: uint32, range0: uint32, under: uint16, count: uint16, total: uint16,
                     out: array<uint8>, pos0: nat, ghost after: seq<Slot>, ghost z: seq<uint8>)
    returns (ok: bool, low: uint32, range: uint32, pos: nat)
    requires pos0 <= out.Length && Interval(low0, range0).Ready() && Slot(under, count, total).Valid()
    requires AllValid(after)
    requires out[..pos0] + Encode(Interval(low0, range0), [Slot(under, count, total)] + after) == z
    modifies out
    ensures pos <= out.Length
    ensures ok ==> Interval(low, range).Ready() && out[..pos] + Encode(Interval(low, range), after) == z
    ensures !ok ==> |z| > out.Length
  {
    hide Encode, Window, Normalise, Interval.Straddles;
    ghost var i, slot := Interval(low0, range0), Slot(under, count, total);
    EncodeFirst(i, slot, after);
    NarrowNested(i, slot);
    range := Unit(range0, total);
    low := low0 + under * range;
    range := range * count;
    ok, low, range, pos := RangeEmit(low, range, out, pos0, after, z);
  }

  /** The loop of that macro: shift out bytes until the interval is ready again. */
  method RangeEmit(low0: uint32, range0: uint32, out: array<uint8>, pos0: nat, ghost after: seq<Slot>, ghost z: seq<uint8>)
    returns (ok: bool, low: uint32, range: uint32, pos: nat)
    requires pos0 <= out.Length && Interval(low0, range0).Nested()
    requires AllValid(after)
    requires var r := Normalise(Interval(low0, range0)); out[..pos0] + (r.bytes + Encode(r.interval, after)) == z
    modifies out
    ensures pos <= out.Length
    ensures ok ==> Interval(low, range).Ready() && out[..pos] + Encode(Interval(low, range), after) == z
    ensures !ok ==> |z| > out.Length
  {
    hide Encode, Window, Interval.Settled, Interval.Clipped, Interval.Shifted, Interval.Straddles, Clip, ShiftLeft;
    low, range, pos := low0, range0, pos0;
    ghost var last := Normalise(Interval(low, range)).interval;
    ghost var rest := Encode(last, after);
    while true
      invariant pos <= out.Length && Interval(low, range).Nested()
      invariant Normalise(Interval(low, range)).interval == last
      invariant out[..pos] + (Normalise(Interval(low, range)).bytes + rest) == z
      decreases if low + range == WORD then 0 else 1, WORD - range
    {
      ghost var j, done := Interval(low, range), out[..pos];
      NormaliseStep(j);
      if Interval(low, range).Straddles() {
        if range >= BOTTOM {
          break;
        }
        range := Clip(low);
      }
      if pos >= out.Length {
        return false, low, range, pos;
      }
      out[pos] := low / TOP;
      pos := pos + 1;
      range := ShiftLeft(range);
      low := ShiftLeft(low);
      assert out[..pos] == done + [j.low / TOP];
      MoveByte(done, j.low / TOP, Normalise(Interval(low, range)).bytes, rest);
    }
    ok := true;
    NoBytes(rest);
  }

  lemma MoveByte(done: seq<uint8>, b: uint8, bytes: seq<uint8>, rest: seq<uint8>)
    ensures done + ([b] + bytes + rest) == done + [b] + (bytes + rest)
  {
  }

  lemma NoBytes(rest: seq<uint8>)
    ensures [] + rest == rest
  {
  }

  lemma EncodeFirst(i: Interval, slot: Slot, after: seq<Slot>)
    requires i.Ready() && slot.Valid() && AllValid(after)
    ensures var n := i.Narrow(slot);
            n.Nested() && Encode(i, [slot] + after) == Normalise(n).bytes + Encode(Normalise(n).interval, after)
  {
    NarrowNested(i, slot);
    assert ([slot] + after)[1..] == after;
  }

  /** One turn of the loop, in terms of what is left to write. */
  lemma NormaliseStep(j: Interval)
    requires j.Nested()
    ensures j.Straddles() && BOTTOM <= j.range ==> Normalise(j) == Renormal(j, [])
    ensures !(j.Straddles() && BOTTOM <= j.range) ==>
      && j.Shifted().Nested()
      && j.Shifted() == Interval(ShiftLeft(j.low), ShiftLeft(if j.Straddles() then Clip(j.low) else j.range))
      && Normalise(j) == Renormal(Normalise(j.Shifted()).interval, [j.low / TOP] + Normalise(j.Shifted()).bytes)
      && (j.low + j.range == WORD ==> j.Shifted().low + j.Shifted().range == WORD && j.Shifted().range > j.range)
      && (j.low + j.range < WORD ==> j.Shifted().low + j.Shifted().range == WORD || j.Shifted().range > j.range)
  {
    if !j.Settled() {
      ShiftedNested(j);
    }
  }

  /** `ENET_RANGE_CODER_FLUSH`. */
  method RangeFlush(low0: uint32, out: array<uint8>, pos0: nat, ghost z: seq<uint8>) returns (ok: bool, pos: nat)
    requires pos0 <= out.Length && out[..pos0] + Flush(low0) == z
    modifies out
    ensures pos <= out.Length
    ensures ok ==> out[..pos] == z
    ensures !ok ==> |z| > out.Length
  {
    var low: uint32 := low0;
    pos := pos0;
    ghost var n: nat := 4;
    FourShifts(low);
    while low != 0
      invariant pos <= out.Length && Aligned(low, n) && out[..pos] + FlushWithin(low, n) == z
      decreases n
    {
      if pos >= out.Length {
        return false, pos;
      }
      ghost var rest := FlushWithin(ShiftLeft(low), n - 1);
      out[pos] := low / TOP;
      assert out[..pos + 1] + rest == out[..pos] + ([low / TOP] + rest);
      pos := pos + 1;
      low := ShiftLeft(low);
      n := n - 1;
    }
    ok := true;
  }

  /** Where the reader stands when its window starts at byte `p` of `input`. */
  ghost predicate Reads(input: seq<uint8>, next: nat, code: nat, p: nat) {
    code == Window(Drop(input, p)) && next == if p + 4 <= |input| then p + 4 else |input|
  }

  /** `ENET_RANGE_CODER_SEED`. */
  method RangeSeed(input: seq<uint8>) returns (code: uint32, next: nat)
    ensures Reads(input, next, code, 0)
  {
    code, next := 0, 0;
    if next < |input| { code, next := code + input[next] as int * TOP, next + 1; }
    if next < |input| { code, next := code + input[next] as int * BOTTOM, next + 1; }
    if next < |input| { code, next := code + input[next] as int * 0x100, next + 1; }
    if next < |input| { code, next := code + input[next], next + 1; }
    assert Drop(input, 0) == input;
  }

  /**
   `ENET_RANGE_CODER_DECODE`, after the range has been divided into units: narrow to the slot and
   follow the writer's renormalisation, reading a byte where it wrote one.
   */
  method RangeDecode(low0: uint32, unit: uint32, code0: uint32, under: uint16, count: uint16,
                     input: seq<uint8>, next0: nat, ghost p0: nat, ghost i: Interval, ghost total: uint16)
    returns (low: uint32, range: uint32, code: uint32, next: nat, ghost p: nat)
    requires i.Ready() && Slot(under, count, total).Valid() && low0 == i.low && unit == Unit(i.range, total)
    requires Reads(input, next0, code0, p0)
    ensures i.Narrow(Slot(under, count, total)).Nested()
    ensures var r := Normalise(i.Narrow(Slot(under, count, total)));
            Interval(low, range) == r.interval && p == p0 + |r.bytes|
    ensures Reads(input, next, code, p)
  {
    hide Window, Interval.Settled, Interval.Clipped, Interval.Shifted, Interval.Straddles, Clip;
    NarrowNested(i, Slot(under, count, total));
    low := low0 + under * unit;
    range := unit * count;
    code, next, p := code0, next0, p0;
    ghost var r := Normalise(Interval(low, range));
    while true
      invariant Interval(low, range).Nested() && Reads(input, next, code, p)
      invariant Normalise(Interval(low, range)).interval == r.interval
      invariant p + |Normalise(Interval(low, range)).bytes| == p0 + |r.bytes|
      decreases if low + range == WORD then 0 else 1, WORD - range
    {
      NormaliseStep(Interval(low, range));
      if Interval(low, range).Straddles() {
        if range >= BOTTOM {
          break;
        }
        range := Clip(low);
      }
      WindowShift(Drop(input, p));
      DropDrop(input, p, 1);
      code := code * 0x100 % WORD;
      if next < |input| {
        ShiftRoom(code / 0x100);
        code := code + input[next];
        next := next + 1;
      }
      p := p + 1;
      range := ShiftLeft(range);
      low := ShiftLeft(low);
    }
  }

  lemma ShiftRoom(x: nat)
    requires x < TOP
    ensures x * 0x100 + 0xFF < WORD
  {
  }
}
