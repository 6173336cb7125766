/**
 ENet's table-driven checksum, enet/packet.c, against the bit-serial CRC-32 of section 8 of RFC 1952.
 */
module Checksum {

  const POLYNOMIAL: bv32 := 0x04c11db7
  const REVERSED: bv32 := 0xedb88320

  // Operations on words, by name: proofs that only combine facts about them leave the bits alone.

  function Xor(a: bv32, b: bv32): bv32 {
    a ^ b
  }

  function Or(a: bv32, b: bv32): bv32 {
    a | b
  }

  function Extend(b: bv8): bv32 {
    b as bv32
  }

  function Low(a: bv32): bv32 {
    a & 1
  }

  function Left(a: bv32, n: bv32): bv32
    requires n <= 32
  {
    a << n
  }

  function Right(a: bv32, n: bv32): bv32
    requires n <= 32
  {
    a >> n
  }

  // ---------- The definition ----------

  /** One bit of the message, lowest first. */
  function Step(c: bv32): bv32 {
    if Low(c) == 1 then Xor(Right(c, 1), REVERSED) else Right(c, 1)
  }

  function Steps(c: bv32, n: nat): bv32 {
    if n == 0 then c else Step(Steps(c, n - 1))
  }

  function Update(c: bv32, data: seq<bv8>): bv32 {
    if data == [] then c else Steps(Xor(Update(c, data[..|data| - 1]), Extend(data[|data| - 1])), 8)
  }

  function Crc(data: seq<bv8>): bv32 {
    Complement(Update(0xffffffff, data))
  }

  // ---------- Facts about words ----------

  lemma XorRight(a: bv32, b: bv32)
    ensures Right(Xor(a, b), 1) == Xor(Right(a, 1), Right(b, 1))
  {
  }

  lemma XorLow(a: bv32, b: bv32)
    ensures Low(Xor(a, b)) == if Low(a) == Low(b) then 0 else 1
  {
    LowIs(a);
    LowIs(b);
  }

  lemma XorCommutes(x: bv32, y: bv32)
    ensures Xor(x, y) == Xor(y, x)
  {
  }

  lemma XorAssociates(x: bv32, y: bv32, z: bv32)
    ensures Xor(Xor(x, y), z) == Xor(x, Xor(y, z))
  {
  }

  lemma XorTwice(a: bv32, x: bv32)
    ensures Xor(Xor(a, x), x) == a
  {
  }

  lemma XorSwap(x: bv32, y: bv32, p: bv32)
    ensures Xor(Xor(x, p), Xor(y, p)) == Xor(x, y)
    ensures Xor(Xor(x, p), y) == Xor(Xor(x, y), p)
    ensures Xor(x, Xor(y, p)) == Xor(Xor(x, y), p)
  {
    hide Xor;
    XorAssociates(x, y, p);
    XorAssociates(x, p, y);
    XorCommutes(p, y);
    XorAssociates(Xor(x, p), y, p);
    XorTwice(Xor(x, y), p);
  }

  lemma LowShift(c: bv32, low: bv32, next: bv32)
    requires next == low >> 1 && low & 1 == 1 && c & low == 0
    ensures c & 1 == 0 && (c >> 1) & next == 0
  {
  }

  lemma EightShifts(c: bv32)
    ensures (((((((c >> 1) >> 1) >> 1) >> 1) >> 1) >> 1) >> 1) >> 1 == c >> 8
  {
  }

  // ---------- Shape of the steps ----------

  lemma StepLinear(a: bv32, b: bv32)
    ensures Step(Xor(a, b)) == Xor(Step(a), Step(b))
  {
    hide Xor, Right, Low;
    XorRight(a, b);
    XorLow(a, b);
    LowIs(a);
    LowIs(b);
    XorSwap(Right(a, 1), Right(b, 1), REVERSED);
  }

  lemma {:induction false} StepsLinear(a: bv32, b: bv32, n: nat)
    ensures Steps(Xor(a, b), n) == Xor(Steps(a, n), Steps(b, n))
  {
    if n > 0 {
      hide Step, Xor;
      StepsLinear(a, b, n - 1);
      StepLinear(Steps(a, n - 1), Steps(b, n - 1));
    }
  }

  /** `m` zeros at the low end, below the bits of `mask`. */
  lemma ShiftOnly(c: bv32, low: bv32, next: bv32)
    requires next == low >> 1 && low & 1 == 1 && c & low == 0
    ensures Step(c) == Right(c, 1) && Right(c, 1) & next == 0
  {
    LowShift(c, low, next);
  }

  ghost predicate Clear(c: bv32, low: bv32) {
    c & low == 0
  }

  lemma ClearShift(c: bv32, low: bv32, next: bv32)
    requires Clear(c, low) && next == low >> 1 && low & 1 == 1
    ensures Step(c) == Right(c, 1) && Clear(Right(c, 1), next)
  {
    ShiftOnly(c, low, next);
  }

  lemma ClearTwo(c: bv32, low: bv32, next: bv32, last: bv32)
    requires Clear(c, low) && next == low >> 1 && last == next >> 1 && low & 1 == 1 && next & 1 == 1
    ensures Steps(c, 2) == Right(Right(c, 1), 1) && Clear(Right(Right(c, 1), 1), last)
  {
    ClearShift(c, low, next);
    ClearShift(Right(c, 1), next, last);
    hide Step, Right, Clear;
    TwoSteps(c, Right(c, 1), Right(Right(c, 1), 1));
  }

  /** Without low bits, steps only shift. */
  lemma StepsShift(c: bv32)
    requires Clear(c, 0xff)
    ensures Steps(c, 8) == Right(c, 8)
  {
    ShiftsAdd(c);
    hide Step, Right, Clear;
    var c2 := Right(Right(c, 1), 1);
    ClearTwo(c, 0xff, 0x7f, 0x3f);
    var c4 := Right(Right(c2, 1), 1);
    ClearTwo(c2, 0x3f, 0x1f, 0x0f);
    var c6 := Right(Right(c4, 1), 1);
    ClearTwo(c4, 0x0f, 0x07, 0x03);
    ClearTwo(c6, 0x03, 0x01, 0x00);
    StepsAdd(c, 2, 2);
    StepsAdd(c, 4, 2);
    StepsAdd(c, 6, 2);
  }

  lemma ShiftsAdd(c: bv32)
    ensures Right(Right(Right(Right(Right(Right(Right(Right(c, 1), 1), 1), 1), 1), 1), 1), 1) == Right(c, 8)
  {
    EightShifts(c);
  }

  lemma TwoSteps(c: bv32, d: bv32, e: bv32)
    requires Step(c) == d && Step(d) == e
    ensures Steps(c, 2) == e
  {
    hide Step;
    assert Steps(c, 0) == c && Steps(c, 1) == d;
  }

  lemma {:induction false} StepsAdd(c: bv32, m: nat, n: nat)
    ensures Steps(Steps(c, m), n) == Steps(c, m + n)
  {
    if n > 0 {
      hide Step;
      StepsAdd(c, m, n - 1);
    }
  }

  function High(c: bv32): bv32 {
    c & 0xffffff00
  }

  function LowByte(c: bv32): bv32 {
    c & 0xff
  }

  lemma HighLow(c: bv32)
    ensures c == Xor(High(c), LowByte(c))
    ensures Right(High(c), 8) == Right(c, 8)
    ensures Clear(High(c), 0xff)
  {
  }

  /** A byte at a time: shift, and what the low byte comes to. */
  lemma StepsSplit(c: bv32)
    ensures Steps(c, 8) == Xor(Right(c, 8), Steps(LowByte(c), 8))
  {
    HighLow(c);
    hide Steps, Xor, Right, High, LowByte, Clear;
    StepsLinear(High(c), LowByte(c), 8);
    StepsShift(High(c));
  }

  // ---------- Reflection ----------

  /** The bits of `v` in opposite order. */
  function Reverse(v: bv32): bv32 {
    var a := ((v >> 1) & 0x55555555) | ((v & 0x55555555) << 1);
    var b := ((a >> 2) & 0x33333333) | ((a & 0x33333333) << 2);
    var c := ((b >> 4) & 0x0f0f0f0f) | ((b & 0x0f0f0f0f) << 4);
    var d := ((c >> 8) & 0x00ff00ff) | ((c & 0x00ff00ff) << 8);
    (d >> 16) | (d << 16)
  }

  predicate HighBit(c: bv32) {
    c & 0x80000000 != 0
  }

  /** Highest bit first, with the polynomial the other way round. */
  function HighStep(c: bv32): bv32 {
    if HighBit(c) then Xor(Left(c, 1), POLYNOMIAL) else Left(c, 1)
  }

  function HighSteps(c: bv32, n: nat): bv32 {
    if n == 0 then c else HighStep(HighSteps(c, n - 1))
  }

  lemma ReverseLeftBits(c: bv32)
    ensures Reverse(c << 1) == Reverse(c) >> 1
  {
  }

  lemma ReverseLeft(c: bv32)
    ensures Reverse(Left(c, 1)) == Right(Reverse(c), 1)
  {
    hide Reverse;
    ReverseLeftBits(c);
  }

  lemma ReverseRightBits(c: bv32)
    ensures Reverse(c >> 1) == Reverse(c) << 1
  {
  }

  lemma ReverseRight(c: bv32)
    ensures Reverse(Right(c, 1)) == Left(Reverse(c), 1)
  {
    hide Reverse;
    ReverseRightBits(c);
  }

  lemma ReverseHigh(c: bv32)
    ensures (Low(Reverse(c)) == 1) == HighBit(c)
  {
  }

  lemma ReverseLow(c: bv32)
    ensures Low(c) == Right(Reverse(c), 31)
  {
  }

  lemma ReverseXor(c: bv32, d: bv32)
    ensures Reverse(Xor(c, d)) == Xor(Reverse(c), Reverse(d))
  {
  }

  /** The two polynomials are reflections of each other. */
  lemma ReversePolynomial()
    ensures Reverse(POLYNOMIAL) == REVERSED
  {
  }

  /** Reflected, a step from the high end is a step from the low end. */
  lemma ReflectedStep(c: bv32)
    ensures Reverse(HighStep(c)) == Step(Reverse(c))
  {
    hide Reverse, Left, Right, Low, Xor, HighBit;
    ReverseLeft(c);
    ReverseHigh(c);
    ReverseXor(Left(c, 1), POLYNOMIAL);
    ReversePolynomial();
  }

  lemma {:induction false} ReflectedSteps(c: bv32, n: nat)
    ensures Reverse(HighSteps(c, n)) == Steps(Reverse(c), n)
  {
    if n > 0 {
      hide Reverse, HighStep, Step;
      ReflectedSteps(c, n - 1);
      ReflectedStep(HighSteps(c, n - 1));
    }
  }

  /** What the table entry of `b` starts from. */
  lemma ByteReflected(b: bv32)
    requires b < 0x100
    ensures Reverse((Reverse(b) >> 24) << 24) == b
  {
  }

  /** After `bit` of the lowest `bits` bits of `v` the result holds those, reflected. */
  function ReflectedTo(v: bv32, bits: bv32, bit: bv32): bv32
    requires bit <= bits <= 32
  {
    Left(Right(Reverse(v), 32 - bit), bits - bit)
  }

  lemma {:induction false} ReverseShifted(v: bv32, bit: bv32)
    requires bit < 32
    ensures Reverse(Right(v, bit)) == Left(Reverse(v), bit)
    decreases bit
  {
    if bit > 0 {
      hide Reverse, Left, Right;
      ReverseShifted(v, bit - 1);
      ReverseRight(Right(v, bit - 1));
      OneMoreRight(v, bit - 1);
      OneMoreLeft(Reverse(v), bit - 1);
    } else {
      NoShift(v);
      NoShift(Reverse(v));
    }
  }

  lemma NoShift(v: bv32)
    ensures Left(v, 0) == v && Right(v, 0) == v
  {
  }

  lemma OneMoreRight(v: bv32, bit: bv32)
    requires bit < 32
    ensures Right(v, bit + 1) == Right(Right(v, bit), 1)
  {
  }

  lemma OneMoreLeft(v: bv32, bit: bv32)
    requires bit < 32
    ensures Left(v, bit + 1) == Left(Left(v, bit), 1)
  {
  }

  lemma OneMoreLeftFirst(v: bv32, n: bv32)
    requires n < 32
    ensures Left(v, n + 1) == Left(Left(v, 1), n)
  {
  }

  lemma TopBit(r: bv32, bit: bv32)
    requires bit < 32
    ensures Right(Left(r, bit), 31) == Low(Right(r, 31 - bit))
  {
  }

  lemma LeftOr(a: bv32, b: bv32, n: bv32)
    requires n <= 32
    ensures Left(Or(a, b), n) == Or(Left(a, n), Left(b, n))
  {
    calc {
      Left(Or(a, b), n);
    == { hide Left; }
      Left(a | b, n);
    ==
      (a | b) << n;
    == { LeftOrBits(a, b, n); }
      (a << n) | (b << n);
    ==
      Or(a << n, b << n);
    == { hide Or; }
      Or(Left(a, n), Left(b, n));
    }
  }

  lemma LeftOrBits(a: bv32, b: bv32, n: bv32)
    requires n <= 32
    ensures (a | b) << n == (a << n) | (b << n)
  {
  }

  lemma SplitLow(y: bv32)
    ensures y == Or(Left(Right(y, 1), 1), Low(y))
  {
  }

  lemma LowIs(y: bv32)
    ensures Low(y) == 0 || Low(y) == 1
  {
  }

  lemma OrZero(x: bv32, n: bv32)
    requires n <= 32
    ensures Or(x, Left(0, n)) == x
  {
  }

  /** One more bit of the loop. */
  lemma ReflectOne(v: bv32, bits: bv32, bit: bv32)
    requires bit < bits <= 32
    ensures ReflectedTo(v, bits, bit + 1) ==
            if Low(Right(v, bit)) == 1 then Or(ReflectedTo(v, bits, bit), Left(1, bits - 1 - bit)) else ReflectedTo(v, bits, bit)
  {
    Amounts(bits, bit);
    ReflectAt(v, bits - 1 - bit, bits - bit, bit, 31 - bit, 32 - bit);
  }

  /** The same, for shifts by `n` and `n + 1`, `k` and `k + 1`. */
  lemma ReflectAt(v: bv32, n: bv32, n': bv32, bit: bv32, k: bv32, k': bv32)
    requires n < 32 && n' == n + 1 && k < 32 && k' == k + 1 && bit < 32 && k == 31 - bit
    ensures var to := Left(Right(Reverse(v), k'), n');
            Left(Right(Reverse(v), k), n) == if Low(Right(v, bit)) == 1 then Or(to, Left(1, n)) else to
  {
    hide Reverse, Left, Right, Or, Low;
    var r := Reverse(v);
    var y := Right(r, k);
    var to := Left(Right(r, k'), n');
    calc {
      Left(y, n);
    == { SplitLow(y); }
      Left(Or(Left(Right(y, 1), 1), Low(y)), n);
    == { LeftOr(Left(Right(y, 1), 1), Low(y), n); }
      Or(Left(Left(Right(y, 1), 1), n), Left(Low(y), n));
    == { OneMoreLeftFirst(Right(y, 1), n); }
      Or(Left(Right(y, 1), n'), Left(Low(y), n));
    == { OneMoreRight(r, k); }
      Or(to, Left(Low(y), n));
    }
    calc {
      Low(y);
    == { TopBit(r, bit); }
      Right(Left(r, bit), 31);
    == { ReverseShifted(v, bit); }
      Right(Reverse(Right(v, bit)), 31);
    == { ReverseLow(Right(v, bit)); }
      Low(Right(v, bit));
    }
    LowIs(y);
    OrZero(to, n);
  }

  lemma Amounts(bits: bv32, bit: bv32)
    requires bit < bits <= 32
    ensures bits - 1 - bit < 32 && bits - bit == (bits - 1 - bit) + 1 && bits - (bit + 1) == bits - 1 - bit
    ensures 31 - bit < 32 && 32 - bit == (31 - bit) + 1 && 32 - (bit + 1) == 31 - bit
  {
  }

  // ---------- The code ----------

  /** `reflect_crc`. */
  method ReflectCrc(value: bv32, bits: bv32) returns (result: bv32)
    requires bits <= 32
    ensures result == Right(Reverse(value), 32 - bits)
  {
    hide Reverse, Left, Right, Or, Low, ReflectedTo;
    result := 0;
    var val, bit: bv32 := value, 0;
    ReflectStart(value, bits);
    while bit < bits
      invariant bit <= bits && val == Right(value, bit) && result == ReflectedTo(value, bits, bit)
      decreases bits - bit
    {
      Amounts(bits, bit);
      ReflectOne(value, bits, bit);
      OneMoreRight(value, bit);
      if Low(val) == 1 {
        result := Or(result, Left(1, bits - 1 - bit));
      }
      val := Right(val, 1);
      bit := bit + 1;
    }
    ReflectEnd(value, bits);
  }

  lemma ReflectStart(v: bv32, bits: bv32)
    requires bits <= 32
    ensures Right(v, 0) == v && ReflectedTo(v, bits, 0) == 0
  {
    AllOut(Reverse(v), bits);
    hide Reverse;
    NoShift(v);
  }

  lemma AllOut(r: bv32, bits: bv32)
    requires bits <= 32
    ensures (r >> 32) << bits == 0
  {
  }

  lemma ReflectEnd(v: bv32, bits: bv32)
    requires bits <= 32
    ensures ReflectedTo(v, bits, bits) == Right(Reverse(v), 32 - bits)
  {
    hide Reverse, Right;
    NoShift(Right(Reverse(v), 32 - bits));
  }

  function Word(n: nat): bv32
    requires n < 0x100
  {
    n as bv32
  }

  lemma WordSmall(n: nat)
    requires n < 0x100
    ensures Word(n) < 0x100
  {
  }

  lemma WordIndex(w: bv32)
    requires w < 0x100
    ensures w as int < 0x100 && Word(w as int) == w
  {
  }

  /** The first `n` entries are what eight steps make of a byte. */
  ghost predicate Tabulated(crcTable: array<bv32>, n: nat)
    reads crcTable
  {
    crcTable.Length == 256 && n <= 256 && forall b | 0 <= b < n :: crcTable[b] == Steps(Word(b), 8)
  }

  /** The entry of `byte`. */
  method TableEntry(byte: nat) returns (entry: bv32)
    requires byte < 256
    ensures entry == Steps(Word(byte), 8)
  {
    hide Reverse, Left, Right, HighBit, HighSteps, Steps, Word, Xor;
    var start := ReflectCrc(Word(byte), 8);
    var crc := Left(start, 24);
    ghost var crc0 := crc;
    StartIs(byte);
    NoSteps(crc0);
    for offset := 0 to 8
      invariant crc == HighSteps(crc0, offset)
    {
      OneHighStep(crc0, offset);
      if HighBit(crc) {
        crc := Xor(Left(crc, 1), POLYNOMIAL);
      } else {
        crc := Left(crc, 1);
      }
    }
    ReflectedSteps(crc0, 8);
    entry := ReflectCrc(crc, 32);
    NoShift(Reverse(crc));
  }

  lemma NoSteps(c: bv32)
    ensures HighSteps(c, 0) == c
  {
  }

  lemma OneHighStep(c: bv32, n: nat)
    ensures HighSteps(c, n + 1) == HighStep(HighSteps(c, n))
  {
  }

  lemma StartIs(byte: nat)
    requires byte < 256
    ensures Reverse(Left(Right(Reverse(Word(byte)), 24), 24)) == Word(byte)
  {
    WordSmall(byte);
    ByteReflected(Word(byte));
    hide Reverse;
  }

  /** `initialize_crc32`. */
  method InitializeCrc32(crcTable: array<bv32>)
    requires crcTable.Length == 256
    modifies crcTable
    ensures Tabulated(crcTable, 256)
  {
    hide Steps, Word;
    for byte := 0 to 256
      invariant Tabulated(crcTable, byte)
    {
      var entry := TableEntry(byte);
      crcTable[byte] := entry;
    }
  }

  function ConcatAll(buffers: seq<seq<bv8>>): seq<bv8> {
    if buffers == [] then [] else ConcatAll(buffers[..|buffers| - 1]) + buffers[|buffers| - 1]
  }

  lemma {:induction false} UpdateConcat(c: bv32, a: seq<bv8>, b: seq<bv8>)
    ensures Update(c, a + b) == Update(Update(c, a), b)
  {
    if b == [] {
      assert a + b == a;
    } else {
      hide Steps;
      var n := |b| - 1;
      UpdateConcat(c, a, b[..n]);
      assert (a + b)[..|a + b| - 1] == a + b[..n] && (a + b)[|a + b| - 1] == b[n];
    }
  }

  /** Where a byte is looked up. */
  function Index(crc: bv32, b: bv8): bv32 {
    Xor(LowByte(crc), Extend(b))
  }

  lemma IndexSmall(crc: bv32, b: bv8)
    ensures Index(crc, b) < 0x100
  {
  }

  lemma IndexParts(c: bv32, b: bv8)
    ensures LowByte(Xor(c, Extend(b))) == Index(c, b)
    ensures Right(Xor(c, Extend(b)), 8) == Right(c, 8)
  {
  }

  /** One byte by the table is one byte of the definition. */
  lemma {:induction false} ByteByTable(c: bv32, b: bv8, entry: bv32)
    requires entry == Steps(Index(c, b), 8)
    ensures Steps(Xor(c, Extend(b)), 8) == Xor(Right(c, 8), entry)
  {
    hide Steps, Xor, Right, LowByte, Index, Extend;
    IndexParts(c, b);
    StepsSplit(Xor(c, Extend(b)));
  }

  /** Bytes in opposite order: host to network order on a little-endian machine. */
  function Swap(x: bv32): bv32 {
    (x << 24) | ((x & 0xff00) << 8) | ((x >> 8) & 0xff00) | (x >> 24)
  }

  /** The result's bytes are those of its argument in opposite order. */
  lemma SwapBytes(x: bv32)
    ensures Swap(x) & 0xff == x >> 24 && (Swap(x) >> 8) & 0xff == (x >> 16) & 0xff
    ensures (Swap(x) >> 16) & 0xff == (x >> 8) & 0xff && Swap(x) >> 24 == x & 0xff
  {
  }

  /** Eight steps, one by one. */
  lemma EightSteps(x: bv32)
    ensures Steps(x, 8) == Step(Step(Step(Step(Step(Step(Step(Step(x))))))))
  {
    hide Step;
    assert Steps(x, 2) == Step(Steps(x, 1)) && Steps(x, 1) == Step(x);
    assert Steps(x, 4) == Step(Steps(x, 3)) && Steps(x, 3) == Step(Steps(x, 2));
    assert Steps(x, 6) == Step(Steps(x, 5)) && Steps(x, 5) == Step(Steps(x, 4));
    assert Steps(x, 8) == Step(Steps(x, 7)) && Steps(x, 7) == Step(Steps(x, 6));
  }

  lemma DigitsOneToThree()
    ensures Steps(Xor(0xffffffff, Extend(0x31)), 8) == 0x7c231048
    ensures Steps(Xor(0x7c231048, Extend(0x32)), 8) == 0xb0acbb32
    ensures Steps(Xor(0xb0acbb32, Extend(0x33)), 8) == 0x77b79c2d
  {
    hide Steps;
    EightSteps(Xor(0xffffffff, Extend(0x31)));
    EightSteps(Xor(0x7c231048, Extend(0x32)));
    EightSteps(Xor(0xb0acbb32, Extend(0x33)));
  }

  lemma DigitsFourToSix()
    ensures Steps(Xor(0x77b79c2d, Extend(0x34)), 8) == 0x641c1f5c
    ensures Steps(Xor(0x641c1f5c, Extend(0x35)), 8) == 0x340ac5e3
    ensures Steps(Xor(0x340ac5e3, Extend(0x36)), 8) == 0xf68d2c9e
  {
    hide Steps;
    EightSteps(Xor(0x77b79c2d, Extend(0x34)));
    EightSteps(Xor(0x641c1f5c, Extend(0x35)));
    EightSteps(Xor(0x340ac5e3, Extend(0x36)));
  }

  lemma DigitsSevenToNine()
    ensures Steps(Xor(0xf68d2c9e, Extend(0x37)), 8) == 0xaffc9660
    ensures Steps(Xor(0xaffc9660, Extend(0x38)), 8) == 0x651f2550
    ensures Steps(Xor(0x651f2550, Extend(0x39)), 8) == 0x340bc6d9
  {
    hide Steps;
    EightSteps(Xor(0xf68d2c9e, Extend(0x37)));
    EightSteps(Xor(0xaffc9660, Extend(0x38)));
    EightSteps(Xor(0x651f2550, Extend(0x39)));
  }

  /** The check value of this checksum: that of the digits 1 to 9. */
  lemma {:induction false} CheckValue(digits: seq<bv8>)
    requires |digits| == 9 && forall k | 0 <= k < 9 :: digits[k] == 0x31 + k as bv8
    ensures Crc(digits) == 0xcbf43926
  {
    hide Steps, Update, Xor, Extend;
    DigitsOneToThree();
    DigitsFourToSix();
    DigitsSevenToNine();
    NothingYet(0xffffffff);
    assert digits[..0] == [] && digits[..9] == digits;
    UpdateNext(0xffffffff, digits, 0);
    assert digits[0] == 0x31;
    UpdateNext(0xffffffff, digits, 1);
    assert digits[1] == 0x32;
    UpdateNext(0xffffffff, digits, 2);
    assert digits[2] == 0x33;
    UpdateNext(0xffffffff, digits, 3);
    assert digits[3] == 0x34;
    UpdateNext(0xffffffff, digits, 4);
    assert digits[4] == 0x35;
    UpdateNext(0xffffffff, digits, 5);
    assert digits[5] == 0x36;
    UpdateNext(0xffffffff, digits, 6);
    assert digits[6] == 0x37;
    UpdateNext(0xffffffff, digits, 7);
    assert digits[7] == 0x38;
    UpdateNext(0xffffffff, digits, 8);
    assert digits[8] == 0x39;
  }

  /** `enet_crc32`: however the bytes are split into buffers. */
  method EnetCrc32(crcTable: array<bv32>, buffers: seq<seq<bv8>>) returns (r: bv32)
    requires Tabulated(crcTable, 256)
    ensures r == Swap(Crc(ConcatAll(buffers)))
  {
    hide Steps, Update, Swap, Complement;
    var crc: bv32 := 0xffffffff;
    NothingYet(crc);
    for i := 0 to |buffers|
      invariant crc == Update(0xffffffff, ConcatAll(buffers[..i]))
    {
      crc := UpdateBuffer(crcTable, crc, buffers[i]);
      assert buffers[..i + 1][..i] == buffers[..i];
      UpdateConcat(0xffffffff, ConcatAll(buffers[..i]), buffers[i]);
    }
    assert buffers[..|buffers|] == buffers;
    r := Swap(Complement(crc));
  }

  lemma NothingYet(c: bv32)
    ensures Update(c, []) == c
  {
  }

  lemma {:induction false} UpdateNext(c: bv32, data: seq<bv8>, k: nat)
    requires k < |data|
    ensures Update(c, data[..k + 1]) == Steps(Xor(Update(c, data[..k]), Extend(data[k])), 8)
  {
    hide Steps;
    assert data[..k + 1][..k] == data[..k];
  }

  /** The bytes of one buffer. */
  method UpdateBuffer(crcTable: array<bv32>, crc0: bv32, data: seq<bv8>) returns (crc: bv32)
    requires Tabulated(crcTable, 256)
    ensures crc == Update(crc0, data)
  {
    hide Steps, Update, Xor, Right, Index, Word, Extend;
    crc := crc0;
    NothingYet(crc);
    for k := 0 to |data|
      invariant crc == Update(crc0, data[..k])
    {
      UpdateNext(crc0, data, k);
      IndexSmall(crc, data[k]);
      WordIndex(Index(crc, data[k]));
      var entry := crcTable[Index(crc, data[k]) as int];
      ByteByTable(crc, data[k], entry);
      crc := Xor(Right(crc, 8), entry);
    }
    assert data[..|data|] == data;
  }

  // ---------- What it detects ----------

  lemma StepInjective(a: bv32, b: bv32)
    requires Step(a) == Step(b)
    ensures a == b
  {
  }

  lemma {:induction false} StepsInjective(a: bv32, b: bv32, n: nat)
    requires Steps(a, n) == Steps(b, n)
    ensures a == b
  {
    if n > 0 {
      hide Step;
      StepInjective(Steps(a, n - 1), Steps(b, n - 1));
      StepsInjective(a, b, n - 1);
    }
  }

  lemma XorInjective(a: bv32, b: bv32, x: bv32)
    requires Xor(a, x) == Xor(b, x)
    ensures a == b
  {
    XorTwice(a, x);
    XorTwice(b, x);
    hide Xor;
  }

  lemma {:induction false} UpdateInjective(a: bv32, b: bv32, data: seq<bv8>)
    requires Update(a, data) == Update(b, data)
    ensures a == b
  {
    if data != [] {
      hide Steps, Xor, Extend;
      var n := |data| - 1;
      var x := Extend(data[n]);
      StepsInjective(Xor(Update(a, data[..n]), x), Xor(Update(b, data[..n]), x), 8);
      XorInjective(Update(a, data[..n]), Update(b, data[..n]), x);
      UpdateInjective(a, b, data[..n]);
    }
  }

  lemma ByteInjective(c: bv32, x: bv8, y: bv8)
    requires Xor(c, Extend(x)) == Xor(c, Extend(y))
    ensures x == y
  {
  }

  function Complement(a: bv32): bv32 {
    !a
  }

  lemma NotInjective(a: bv32, b: bv32)
    requires Complement(a) == Complement(b)
    ensures a == b
  {
  }

  /** No change confined to a single byte goes unnoticed. */
  lemma {:induction false} ByteChangeDetected(before: seq<bv8>, x: bv8, y: bv8, after: seq<bv8>)
    requires x != y
    ensures Crc(before + [x] + after) != Crc(before + [y] + after)
  {
    hide Steps, Update, Xor, Extend, Complement;
    var c := Update(0xffffffff, before);
    UpdateConcat(0xffffffff, before + [x], after);
    UpdateConcat(0xffffffff, before + [y], after);
    OneByte(before, x);
    OneByte(before, y);
    if Crc(before + [x] + after) == Crc(before + [y] + after) {
      NotInjective(Update(0xffffffff, before + [x] + after), Update(0xffffffff, before + [y] + after));
      UpdateInjective(Update(0xffffffff, before + [x]), Update(0xffffffff, before + [y]), after);
      StepsInjective(Xor(c, Extend(x)), Xor(c, Extend(y)), 8);
      ByteInjective(c, x, y);
    }
  }

  lemma {:induction false} OneByte(before: seq<bv8>, x: bv8)
    ensures Update(0xffffffff, before + [x]) == Steps(Xor(Update(0xffffffff, before), Extend(x)), 8)
  {
    var s := before + [x];
    UpdateNext(0xffffffff, s, |before|);
    assert s[..|before|] == before && s[..|before| + 1] == s;
  }
}
