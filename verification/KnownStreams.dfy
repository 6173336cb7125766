/**
 What the range coder writes for a slot, in numbers, and the whole stream of one short text.
 */
module KnownStreams {
  import opened Machine
  import opened ArithmeticCoder
  import opened ContextModel
  import opened LearnedContexts

  /** Coding `slot` in `[low, low + range)` puts out `bytes` and leaves `next`. */
  ghost predicate Puts(low: nat, range: nat, slot: Slot, bytes: seq<uint8>, next: Interval) {
    var i := Interval(low, range);
    i.Ready() && slot.Valid() && i.Narrow(slot).Nested() && Normalise(i.Narrow(slot)) == Renormal(next, bytes)
  }

  lemma PutsFirst(low: nat, range: nat, slot: Slot, bytes: seq<uint8>, next: Interval, after: seq<Slot>)
    requires Puts(low, range, slot, bytes, next) && AllValid(after)
    ensures AllValid([slot] + after) && Encode(Interval(low, range), [slot] + after) == bytes + Encode(next, after)
  {
    EncodeFirst(Interval(low, range), slot, after);
  }

  /** A slot is coded in as many parts of the range as it counts, each the range divided by the total, from as many parts up
      as lie under it; nothing is put out while the top bytes of both ends differ and 65536 is left of the range. */
  lemma PutsNothing(low: nat, range: nat, slot: Slot, unit: nat, next: Interval)
    requires Interval(low, range).Ready() && slot.Valid()
    requires unit * slot.total <= range < unit * slot.total + slot.total
    requires next == Interval(low + slot.under * unit, slot.count * unit)
    requires next.low / 0x100_0000 != (next.low + next.range) % 0x1_0000_0000 / 0x100_0000 && 0x1_0000 <= next.range
    ensures Puts(low, range, slot, [], next)
  {
    Quotient(range, slot.total, unit);
    NarrowNested(Interval(low, range), slot);
    NormaliseStep(next);
  }

  lemma Quotient(x: nat, y: nat, q: nat)
    requires 0 < y && q * y <= x < q * y + y
    ensures x / y == q
  {
    if x / y < q {
      MulMonotone(x / y + 1, q, y);
    } else if x / y > q {
      MulMonotone(q + 1, x / y, y);
    }
  }

  /** Where the top bytes agree, they are put out and the rest moves up by a byte. */
  lemma PutsTop(low: nat, range: nat, slot: Slot, unit: nat, at: Interval, next: Interval)
    requires Interval(low, range).Ready() && slot.Valid()
    requires unit * slot.total <= range < unit * slot.total + slot.total
    requires at == Interval(low + slot.under * unit, slot.count * unit)
    requires at.low / 0x100_0000 == (at.low + at.range) % 0x1_0000_0000 / 0x100_0000
    requires next == Interval(at.low % 0x100_0000 * 0x100, at.range % 0x100_0000 * 0x100)
    requires next.low / 0x100_0000 != (next.low + next.range) % 0x1_0000_0000 / 0x100_0000 && 0x1_0000 <= next.range
    ensures Puts(low, range, slot, [at.low / 0x100_0000], next)
  {
    Quotient(range, slot.total, unit);
    NarrowNested(Interval(low, range), slot);
    NormaliseStep(at);
    ShiftOut(at.low);
    ShiftOut(at.range);
    NormaliseStep(next);
  }

  /** Where they differ with less than 65536 left, the range is cut off at the next multiple of 65536 first. */
  lemma PutsCut(low: nat, range: nat, slot: Slot, unit: nat, at: Interval, top: uint8, cut: nat, next: Interval)
    requires Interval(low, range).Ready() && slot.Valid()
    requires unit * slot.total <= range < unit * slot.total + slot.total
    requires at == Interval(low + slot.under * unit, slot.count * unit) && at.range < 0x1_0000
    requires at.low / 0x100_0000 == top && (at.low + at.range) % 0x1_0000_0000 / 0x100_0000 != top
    requires cut < 0x1_0000 && (at.low + cut) % 0x1_0000 == 0
    requires next == Interval(at.low % 0x100_0000 * 0x100, cut * 0x100)
    requires next.low / 0x100_0000 != (next.low + next.range) % 0x1_0000_0000 / 0x100_0000 && 0x1_0000 <= next.range
    ensures Puts(low, range, slot, [top], next)
  {
    Quotient(range, slot.total, unit);
    NarrowNested(Interval(low, range), slot);
    NormaliseStep(at);
    CutShift(at, cut);
    hide ShiftLeft, Clip, Normalise;
    NormaliseStep(next);
  }

  lemma CutShift(at: Interval, cut: nat)
    requires at.Straddles() && cut < 0x1_0000 && (at.low + cut) % 0x1_0000 == 0
    ensures Interval(ShiftLeft(at.low), ShiftLeft(Clip(at.low))) == Interval(at.low % 0x100_0000 * 0x100, cut * 0x100)
  {
    CutIs(at.low, cut);
    ShiftOut(at.low);
    ShiftOut(cut);
  }

  lemma CutIs(low: nat, cut: nat)
    requires cut < 0x1_0000 && (low + cut) % 0x1_0000 == 0
    ensures cut == Clip(low)
  {
  }

  lemma LettersPut()
    ensures Puts(0, 0xFFFF_FFFF, Slot(98, 1, 257), [], Interval(0x619E_619E, 0xFF_00FF))
    ensures Puts(0x619E_619E, 0xFF_00FF, Slot(98, 4, 260), [], Interval(0x61FE_7F46, 0x3_EC50))
    ensures Puts(0x61FE_7F46, 0x3_EC50, Slot(5, 2, 7), [0x62], Interval(0x014C_A300, 0x011E_F200))
    ensures Puts(0x014C_A300, 0x011E_F200, Slot(5, 2, 7), [0x02], Interval(0x1999_0000, 0x51FC_0000))
  {
    hide Puts, Normalise;
    PutsNothing(0, 0xFFFF_FFFF, Slot(98, 1, 257), 0xFF_00FF, Interval(0x619E_619E, 0xFF_00FF));
    PutsNothing(0x619E_619E, 0xFF_00FF, Slot(98, 4, 260), 64276, Interval(0x61FE_7F46, 0x3_EC50));
    PutsTop(0x61FE_7F46, 0x3_EC50, Slot(5, 2, 7), 36729, Interval(0x6201_4CA3, 0x1_1EF2), Interval(0x014C_A300, 0x011E_F200));
    PutsTop(0x014C_A300, 0x011E_F200, Slot(5, 2, 7), 2686464, Interval(0x0219_9900, 0x51_FC00), Interval(0x1999_0000, 0x51FC_0000));
  }

  /** An interval across a boundary between top bytes, too narrow to go on with. */
  lemma CutPut()
    ensures Puts(0, 0xFFFF_FFFF, Slot(255, 1, 65535), [], Interval(0xFF_00FF, 0x1_0001))
    ensures Puts(0xFF_00FF, 0x1_0001, Slot(2, 1, 3), [0x00], Interval(0xFFAB_A900, 0x54_5700))
  {
    hide Puts, Normalise;
    PutsNothing(0, 0xFFFF_FFFF, Slot(255, 1, 65535), 65537, Interval(0xFF_00FF, 0x1_0001));
    PutsCut(0xFF_00FF, 0x1_0001, Slot(2, 1, 3), 21845, Interval(0xFF_ABA9, 21845), 0, 0x5457, Interval(0xFFAB_A900, 0x54_5700));
  }

  lemma FlushTwo(a: uint8, b: uint8)
    requires 0 < b
    ensures Flush(a * 0x100_0000 + b * 0x1_0000) == [a, b]
  {
    var low, n := a * 0x100_0000 + b * 0x1_0000, 4;
    FourShifts(low);
    ShiftDigits(a, b, 0, 0);
    ShiftDigits(b, 0, 0, 0);
    assert FlushWithin(0, 2) == [];
    assert FlushWithin(b * 0x100_0000, 3) == [b];
  }

  lemma LettersEncode(slots: seq<Slot>)
    requires slots == [Slot(98, 1, 257), Slot(98, 4, 260), Slot(5, 2, 7), Slot(5, 2, 7)]
    ensures AllValid(slots) && Encode(Start, slots) == [0x62, 0x02, 0x19, 0x99]
  {
    hide Encode, Puts, Flush;
    LettersPut();
    var a, b, c := Slot(98, 1, 257), Slot(98, 4, 260), Slot(5, 2, 7);
    PutsFirst(0x014C_A300, 0x011E_F200, c, [0x02], Interval(0x1999_0000, 0x51FC_0000), []);
    PutsFirst(0x61FE_7F46, 0x3_EC50, c, [0x62], Interval(0x014C_A300, 0x011E_F200), [c]);
    PutsFirst(0x619E_619E, 0xFF_00FF, b, [], Interval(0x61FE_7F46, 0x3_EC50), [c, c]);
    PutsFirst(0, 0xFFFF_FFFF, a, [], Interval(0x619E_619E, 0xFF_00FF), [b, c, c]);
    assert [c] + [] == [c] && [c] + [c] == [c, c] && [b] + [c, c] == [b, c, c] && [a] + [b, c, c] == slots;
    NothingLeft(Interval(0x1999_0000, 0x51FC_0000));
    FlushTwo(0x19, 0x99);
  }

  /** The letter a, four times over, in four bytes. */
  lemma {:induction false} FourLetters(a: uint8)
    requires a == 0x61
    ensures Compressed([a, a, a, a]) == [0x62, 0x02, 0x19, 0x99]
  {
    hide Encode, Compressed, Said, AllSlots, After;
    FourAlike(a);
    SaysData([a, a, a, a]);
    LettersEncode(Said([a, a, a, a]));
  }

  lemma NothingLeft(i: Interval)
    requires i.Ready()
    ensures Encode(i, []) == Flush(i.low)
  {
  }
}
