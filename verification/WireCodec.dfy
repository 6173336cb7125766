/** The integer and string codec of game messages, engine/server.cpp, over the byte buffers of shared/tools.h. */
module WireCodec {
  import opened Machine

  type int32 = x: int | -0x8000_0000 <= x < 0x8000_0000
  /** `char`, which is signed. */
  type int8 = x: int | -0x80 <= x < 0x80

  /** The lowest byte of `n`, in two's complement. */
  function Byte(n: int): uint8 {
    n % 0x100
  }

  function Signed(b: uint8): int8 {
    if b < 0x80 then b else b - 0x100
  }

  // ---------- What is written ----------

  function IntBytes(n: int32): seq<uint8> {
    if -127 < n < 128 then [Byte(n)]
    else if -0x8000 <= n < 0x8000 then [0x80, Byte(n), Byte(n / 0x100)]
    else [0x81, Byte(n), Byte(n / 0x100), Byte(n / 0x1_0000), Byte(n / 0x100_0000)]
  }

  /** Seven bits of `n`, marked as not the last. */
  function Seven(n: int): uint8 {
    0x80 + n % 0x80
  }

  function UintBytes(n: int32): seq<uint8> {
    if n < 0 || n >= 0x20_0000 then [Seven(n), Seven(n / 0x80), Seven(n / 0x4000), Byte(n / 0x20_0000)]
    else if n < 0x80 then [n]
    else if n < 0x4000 then [Seven(n), n / 0x80]
    else [Seven(n), Seven(n / 0x80), n / 0x4000]
  }

  /** A string goes out as integers, with a closing 0. */
  function StringBytes(t: seq<int8>): seq<uint8> {
    if t == [] then IntBytes(0) else IntBytes(t[0]) + StringBytes(t[1..])
  }

  // ---------- What is read ----------

  /** What reading gives, and how many bytes it asks for. */
  function ReadInt(s: seq<uint8>): (r: (int32, nat)) {
    var c := Signed(ByteAt(s, 0));
    if c == -128 then
      var n := ByteAt(s, 1) + ByteAt(s, 2) * 0x100;
      (if n < 0x8000 then n else n - 0x1_0000, 3)
    else if c == -127 then
      var n := ByteAt(s, 1) + ByteAt(s, 2) * 0x100 + ByteAt(s, 3) * 0x1_0000 + ByteAt(s, 4) * 0x100_0000;
      (if n < 0x8000_0000 then n else n - WORD, 5)
    else (c, 1)
  }

  /** Whether bit `k` of `n` is set, for `unit` two to the power `k`. */
  predicate Bit(n: nat, unit: nat)
    requires unit > 0
  {
    n / unit % 2 == 1
  }

  function ReadUint(s: seq<uint8>): (r: (int32, nat)) {
    var n0: int := ByteAt(s, 0);
    if !Bit(n0, 0x80) then (n0, 1)
    else
      var n1 := n0 + ByteAt(s, 1) * 0x80 - 0x80;
      if !Bit(n1, 0x4000) then (n1, 2)
      else
        var n2 := n1 + ByteAt(s, 2) * 0x4000 - 0x4000;
        if !Bit(n2, 0x20_0000) then (n2, 3)
        else
          var n3 := n2 + ByteAt(s, 3) * 0x20_0000 - 0x20_0000;
          (if Bit(n3, 0x1000_0000) then n3 - 0x2000_0000 else n3, 4)
  }

  // ---------- Round trips ----------

  lemma IntRoundTrip(n: int32, rest: seq<uint8>)
    ensures ReadInt(IntBytes(n) + rest) == (n, |IntBytes(n)|)
  {
    var s := IntBytes(n) + rest;
    assert forall k | 0 <= k < |IntBytes(n)| :: ByteAt(s, k) == IntBytes(n)[k];
    if !(-127 < n < 128) {
      if -0x8000 <= n < 0x8000 {
        TwoBytes(n);
      } else {
        FourBytes(n);
      }
    }
  }

  lemma TwoBytes(n: int)
    requires -0x8000 <= n < 0x8000
    ensures Byte(n) + Byte(n / 0x100) * 0x100 == if n < 0 then n + 0x1_0000 else n
  {
  }

  lemma FourBytes(n: int32)
    ensures Byte(n) + Byte(n / 0x100) * 0x100 + Byte(n / 0x1_0000) * 0x1_0000 + Byte(n / 0x100_0000) * 0x100_0000
            == if n < 0 then n + WORD else n
  {
    assert n / 0x1_0000 == n / 0x100 / 0x100 && n / 0x100_0000 == n / 0x1_0000 / 0x100;
  }

  /** Compact integers are told apart over 29 bits, sign included. */
  lemma UintRoundTrip(n: int32, rest: seq<uint8>)
    requires -0x1000_0000 <= n < 0x1000_0000
    ensures ReadUint(UintBytes(n) + rest) == (n, |UintBytes(n)|)
  {
    var s, b := UintBytes(n) + rest, UintBytes(n);
    assert forall k | 0 <= k < |b| :: ByteAt(s, k) == b[k];
    if n < 0 || n >= 0x20_0000 {
      FourSevens(n);
    } else if n >= 0x4000 {
      assert n == n % 0x80 + n / 0x80 % 0x80 * 0x80 + n / 0x4000 * 0x4000 by {
        assert n / 0x4000 == n / 0x80 / 0x80;
      }
    }
  }

  lemma FourSevens(n: int)
    requires -0x1000_0000 <= n < 0x1000_0000
    ensures n % 0x80 + n / 0x80 % 0x80 * 0x80 + n / 0x4000 % 0x80 * 0x4000 + Byte(n / 0x20_0000) * 0x20_0000
            == if n < 0 then n + 0x2000_0000 else n
  {
    assert n / 0x4000 == n / 0x80 / 0x80 && n / 0x20_0000 == n / 0x4000 / 0x80;
  }

  /** Exactly those of 29 bits survive. */
  lemma UintExactly(n: int32, rest: seq<uint8>)
    ensures ReadUint(UintBytes(n) + rest).0 == n <==> -0x1000_0000 <= n < 0x1000_0000
  {
    if -0x1000_0000 <= n < 0x1000_0000 {
      UintRoundTrip(n, rest);
    } else {
      UintRange(UintBytes(n) + rest);
    }
  }

  lemma UintRange(s: seq<uint8>)
    ensures -0x1000_0000 <= ReadUint(s).0 < 0x1000_0000
  {
  }

  // ---------- Strings ----------

  /** Characters read into `room` places: up to a 0, the end of the places, or the end of the bytes. */
  datatype Characters = Characters(text: seq<int8>, used: nat, full: bool)

  function ReadCharacters(s: seq<uint8>, room: nat): Characters
    decreases room
  {
    if room == 0 then Characters([], 0, true)
    else if s == [] then Characters([], 0, false)
    else
      var (n, k) := ReadInt(s);
      var c := Signed(Byte(n));
      if c == 0 then Characters([], k, false)
      else
        var r := ReadCharacters(Drop(s, k), room - 1);
        Characters([c] + r.text, k + r.used, r.full)
  }

  /** A string that does not fit loses its last character to the closing 0. */
  function ReadString(s: seq<uint8>, room: nat): (seq<int8>, nat) {
    var r := ReadCharacters(s, room);
    (if r.full && |r.text| > 0 then r.text[..|r.text| - 1] else r.text, r.used)
  }

  ghost predicate NulFree(t: seq<int8>) {
    forall k | 0 <= k < |t| :: t[k] != 0
  }

  lemma {:induction false} StringRoundTrip(t: seq<int8>, room: nat, rest: seq<uint8>)
    requires NulFree(t) && |t| < room
    ensures ReadString(StringBytes(t) + rest, room) == (t, |StringBytes(t)|)
  {
    CharactersRoundTrip(t, room, rest);
  }

  lemma {:induction false} CharactersRoundTrip(t: seq<int8>, room: nat, rest: seq<uint8>)
    requires NulFree(t) && |t| < room
    ensures ReadCharacters(StringBytes(t) + rest, room) == Characters(t, |StringBytes(t)|, false)
    decreases |t|
  {
    hide ReadInt, IntBytes;
    var s := StringBytes(t) + rest;
    if t == [] {
      IntRoundTrip(0, rest);
      IntBytesSome(0);
    } else {
      var b := IntBytes(t[0]);
      var more := StringBytes(t[1..]) + rest;
      assert s == b + more;
      IntRoundTrip(t[0], more);
      IntBytesSome(t[0]);
      CharactersRoundTrip(t[1..], room - 1, rest);
      assert Drop(s, |b|) == more && [t[0]] + t[1..] == t;
    }
  }

  lemma IntBytesSome(n: int32)
    ensures 1 <= |IntBytes(n)| <= 5 && (-127 < n < 128 ==> |IntBytes(n)| == 1)
    ensures -0x80 <= n < 0x80 ==> Signed(Byte(n)) == n
  {
  }

  // ---------- Streams ----------

  datatype Value = Plain(n: int32) | Compact(m: int32) | Text(t: seq<int8>, room: nat) {
    /** What can be sent: compact integers of 29 bits, and strings without 0 that fit the reader's buffer. */
    ghost predicate Sendable() {
      match this
      case Plain(_) => true
      case Compact(m) => -0x1000_0000 <= m < 0x1000_0000
      case Text(t, room) => NulFree(t) && |t| < room
    }

    function Bytes(): seq<uint8> {
      match this
      case Plain(n) => IntBytes(n)
      case Compact(m) => UintBytes(m)
      case Text(t, _) => StringBytes(t)
    }
  }

  /** What a reader asks for. */
  datatype Kind = PlainKind | CompactKind | TextKind(room: nat)

  function KindOf(v: Value): Kind {
    match v
    case Plain(_) => PlainKind
    case Compact(_) => CompactKind
    case Text(_, room) => TextKind(room)
  }

  function Read(k: Kind, s: seq<uint8>): (Value, nat) {
    match k
    case PlainKind => var (n, used) := ReadInt(s); (Plain(n), used)
    case CompactKind => var (n, used) := ReadUint(s); (Compact(n), used)
    case TextKind(room) => var (t, used) := ReadString(s, room); (Text(t, room), used)
  }

  function Encode(vs: seq<Value>): seq<uint8> {
    if vs == [] then [] else vs[0].Bytes() + Encode(vs[1..])
  }

  function Kinds(vs: seq<Value>): seq<Kind> {
    seq(|vs|, i requires 0 <= i < |vs| => KindOf(vs[i]))
  }

  /** Reading as asked, one value after the other; and the bytes left over. */
  function Decode(ks: seq<Kind>, s: seq<uint8>): (seq<Value>, seq<uint8>) {
    if ks == [] then ([], s)
    else
      var (v, used) := Read(ks[0], s);
      var (vs, rest) := Decode(ks[1..], Drop(s, used));
      ([v] + vs, rest)
  }

  lemma ReadBack(v: Value, more: seq<uint8>)
    requires v.Sendable()
    ensures Read(KindOf(v), v.Bytes() + more) == (v, |v.Bytes()|)
  {
    hide ReadInt, ReadUint, ReadString, IntBytes, UintBytes, StringBytes, NulFree;
    match v {
      case Plain(n) => IntRoundTrip(n, more);
      case Compact(m) => UintRoundTrip(m, more);
      case Text(t, room) => StringRoundTrip(t, room, more);
    }
  }

  /** A prefix code: whatever was written is read back, and what follows is untouched. */
  lemma {:induction false} StreamRoundTrip(vs: seq<Value>, rest: seq<uint8>)
    requires forall k | 0 <= k < |vs| :: vs[k].Sendable()
    ensures Decode(Kinds(vs), Encode(vs) + rest) == (vs, rest)
  {
    hide Read, Value.Bytes, Value.Sendable, KindOf;
    if vs == [] {
      assert Encode(vs) + rest == rest;
    } else {
      var b, more := vs[0].Bytes(), Encode(vs[1..]) + rest;
      var s := Encode(vs) + rest;
      assert s == b + more && Drop(s, |b|) == more;
      ReadBack(vs[0], more);
      StreamRoundTrip(vs[1..], rest);
      assert Kinds(vs)[1..] == Kinds(vs[1..]) && [vs[0]] + vs[1..] == vs;
    }
  }

  // ---------- Buffers ----------

  /** A buffer being written: what is in it, how many bytes still fit, and whether some did not. */
  datatype Output = Output(done: seq<uint8>, room: nat, overwrote: bool) {
    /** Bytes are appended as far as they fit. */
    function Put(bytes: seq<uint8>): Output {
      if |bytes| <= room then Output(done + bytes, room - |bytes|, overwrote) else Output(done + bytes[..room], 0, true)
    }
  }

  lemma PutMore(o: Output, a: seq<uint8>, b: seq<uint8>)
    ensures o.Put(a).Put(b) == o.Put(a + b)
  {
    if |a| + |b| <= o.room {
      assert o.done + a + b == o.done + (a + b);
    } else if |a| <= o.room {
      assert (a + b)[..o.room] == a + b[..o.room - |a|];
      assert o.done + a + b[..o.room - |a|] == o.done + (a + b)[..o.room];
    } else {
      assert (a + b)[..o.room] == a[..o.room] && b[..0] == [];
      assert o.done + a[..o.room] + [] == o.done + a[..o.room];
    }
  }

  /** A buffer being read: the bytes left, and whether more were asked for. */
  datatype Input = Input(left: seq<uint8>, overread: bool) {
    function Get(k: nat): Input {
      Input(Drop(left, k), overread || |left| < k)
    }
  }

  lemma GetMore(i: Input, j: nat, k: nat)
    ensures k > 0 ==> i.Get(j).Get(k) == i.Get(j + k)
    ensures ByteAt(i.Get(j).left, 0) == ByteAt(i.left, j)
  {
  }

  /** `t` has been read with `k` bytes; `left` are the bytes after them. */
  ghost predicate Partly(s: seq<uint8>, left: seq<uint8>, t: seq<int8>, k: nat, room: nat) {
    && |t| <= room
    && var r, r0 := ReadCharacters(left, room - |t|), ReadCharacters(s, room);
       r0.text == t + r.text && r0.used == k + r.used && r0.full == r.full
  }

  lemma Partly0(s: seq<uint8>, room: nat)
    ensures Partly(s, s, [], 0, room)
  {
    assert [] + ReadCharacters(s, room).text == ReadCharacters(s, room).text;
  }

  lemma PartlyNext(s: seq<uint8>, left: seq<uint8>, t: seq<int8>, k: nat, room: nat)
    requires Partly(s, left, t, k, room)
    ensures var (n, used) := ReadInt(left); var c := Signed(Byte(n)); var r := ReadCharacters(s, room);
            if |t| == room then r == Characters(t, k, true)
            else if left == [] then r == Characters(t, k, false)
            else if c == 0 then r == Characters(t, k + used, false)
            else Partly(s, Drop(left, used), t + [c], k + used, room)
  {
    hide ReadInt, Byte, Signed, Drop;
    var rest := ReadCharacters(left, room - |t|);
    if |t| < room && left != [] {
      var (n, used) := ReadInt(left);
      var c := Signed(Byte(n));
      if c == 0 {
        assert t + [] == t;
      } else {
        var more := ReadCharacters(Drop(left, used), room - |t| - 1).text;
        assert t + ([c] + more) == t + [c] + more;
      }
    } else {
      assert t + [] == t;
    }
  }

  /** `ucharbuf`: bytes are put at, and got from, position `len`. */
  class ByteBuffer {
    const buf: array<uint8>
    var len: nat
    var overread: bool
    var overwrote: bool

    ghost predicate Valid()
      reads this
    {
      len <= buf.Length
    }

    ghost function Written(): Output
      requires Valid()
      reads this, buf
    {
      Output(buf[..len], buf.Length - len, overwrote)
    }

    ghost function Reading(): Input
      requires Valid()
      reads this, buf
    {
      Input(buf[len..], overread)
    }

    constructor (buf: array<uint8>)
      ensures Valid() && this.buf == buf && len == 0 && !overread && !overwrote
    {
      this.buf, len, overread, overwrote := buf, 0, false, false;
    }

    method Put(b: uint8)
      requires Valid()
      modifies `len, `overwrote, buf
      ensures Valid() && Written() == old(Written()).Put([b])
    {
      if len < buf.Length {
        buf[len] := b;
        len := len + 1;
      } else {
        overwrote := true;
        assert [b][..0] == [];
        assert buf[..len] + [] == buf[..len];
      }
    }

    method PutTwo(a: uint8, b: uint8)
      requires Valid()
      modifies `len, `overwrote, buf
      ensures Valid() && Written() == old(Written()).Put([a, b])
    {
      hide Output.Put;
      Put(a);
      Put(b);
      PutMore(old(Written()), [a], [b]);
      assert [a] + [b] == [a, b];
    }

    /** `putint`. */
    method PutInt(n: int32)
      requires Valid()
      modifies `len, `overwrote, buf
      ensures Valid() && Written() == old(Written()).Put(IntBytes(n))
    {
      hide Output.Put, Byte;
      ghost var o := Written();
      if n < 128 && n > -127 {
        Put(Byte(n));
      } else if n < 0x8000 && n >= -0x8000 {
        Put(0x80);
        PutTwo(Byte(n), Byte(n / 0x100));
        PutMore(o, [0x80], [Byte(n), Byte(n / 0x100)]);
        assert IntBytes(n) == [0x80] + [Byte(n), Byte(n / 0x100)];
      } else {
        Put(0x81);
        PutTwo(Byte(n), Byte(n / 0x100));
        PutMore(o, [0x81], [Byte(n), Byte(n / 0x100)]);
        PutTwo(Byte(n / 0x1_0000), Byte(n / 0x100_0000));
        PutMore(o, [0x81] + [Byte(n), Byte(n / 0x100)], [Byte(n / 0x1_0000), Byte(n / 0x100_0000)]);
        assert IntBytes(n) == [0x81] + [Byte(n), Byte(n / 0x100)] + [Byte(n / 0x1_0000), Byte(n / 0x100_0000)];
      }
    }

    /** `putuint`. */
    method PutUint(n: int32)
      requires Valid()
      modifies `len, `overwrote, buf
      ensures Valid() && Written() == old(Written()).Put(UintBytes(n))
    {
      hide Output.Put, Seven, Byte;
      ghost var o := Written();
      if n < 0 || n >= 0x20_0000 {
        PutTwo(Seven(n), Seven(n / 0x80));
        PutTwo(Seven(n / 0x4000), Byte(n / 0x20_0000));
        PutMore(o, [Seven(n), Seven(n / 0x80)], [Seven(n / 0x4000), Byte(n / 0x20_0000)]);
        assert UintBytes(n) == [Seven(n), Seven(n / 0x80)] + [Seven(n / 0x4000), Byte(n / 0x20_0000)];
      } else if n < 0x80 {
        Put(n);
      } else if n < 0x4000 {
        PutTwo(Seven(n), n / 0x80);
      } else {
        PutTwo(Seven(n), Seven(n / 0x80));
        Put(n / 0x4000);
        PutMore(o, [Seven(n), Seven(n / 0x80)], [n / 0x4000]);
        assert UintBytes(n) == [Seven(n), Seven(n / 0x80)] + [n / 0x4000];
      }
    }

    /** `sendstring`. */
    method PutString(t: seq<int8>)
      requires Valid()
      modifies `len, `overwrote, buf
      ensures Valid() && Written() == old(Written()).Put(StringBytes(t))
    {
      hide Output.Put, IntBytes;
      ghost var o := Written();
      ghost var out: seq<uint8> := [];
      NothingPut(o);
      var i: nat := 0;
      while i < |t|
        invariant i <= |t| && Valid() && Written() == o.Put(out)
        invariant out + StringBytes(t[i..]) == StringBytes(t)
      {
        PutInt(t[i]);
        PutMore(o, out, IntBytes(t[i]));
        assert t[i..][0] == t[i] && t[i..][1..] == t[i + 1..];
        assert out + (IntBytes(t[i]) + StringBytes(t[i + 1..])) == out + IntBytes(t[i]) + StringBytes(t[i + 1..]);
        out := out + IntBytes(t[i]);
        i := i + 1;
      }
      PutInt(0);
      PutMore(o, out, IntBytes(0));
    }

    lemma NothingPut(o: Output)
      ensures o.Put([]) == o
    {
      assert o.done + [] == o.done;
    }

    method Get() returns (b: uint8)
      requires Valid()
      modifies `len, `overread
      ensures b == ByteAt(old(Reading()).left, 0) && Valid() && Reading() == old(Reading()).Get(1)
    {
      if len < buf.Length {
        b := buf[len];
        len := len + 1;
      } else {
        overread := true;
        b := 0;
      }
    }

    /** `getint`. */
    method GetInt() returns (n: int32)
      requires Valid()
      modifies `len, `overread
      ensures var (m, used) := ReadInt(old(Reading()).left); n == m && Valid() && Reading() == old(Reading()).Get(used)
    {
      hide ByteAt, Input.Get;
      ghost var i := Reading();
      GetMore(i, 1, 1);
      GetMore(i, 2, 1);
      GetMore(i, 3, 1);
      GetMore(i, 4, 1);
      var b0: int := Get();
      var c: int := Signed(b0);
      if c == -128 {
        var b1: int := Get();
        var b2: int := Get();
        var m: int := b1 + b2 * 0x100;
        n := if m < 0x8000 then m else m - 0x1_0000;
      } else if c == -127 {
        var b1: int := Get();
        var b2: int := Get();
        var b3: int := Get();
        var b4: int := Get();
        var m: int := b1 + b2 * 0x100 + b3 * 0x1_0000 + b4 * 0x100_0000;
        n := if m < 0x8000_0000 then m else m - WORD;
      } else {
        n := c;
      }
    }

    /** `getuint`. */
    method GetUint() returns (n: int32)
      requires Valid()
      modifies `len, `overread
      ensures var (m, used) := ReadUint(old(Reading()).left); n == m && Valid() && Reading() == old(Reading()).Get(used)
    {
      hide ByteAt, Input.Get, Bit;
      ghost var i := Reading();
      GetMore(i, 1, 1);
      GetMore(i, 2, 1);
      GetMore(i, 3, 1);
      var b0: int := Get();
      var m: int := b0;
      BitIs(m, 0x80);
      if Bit(m, 0x80) {
        var b1: int := Get();
        m := m + b1 * 0x80 - 0x80;
        BitIs(m, 0x4000);
        if Bit(m, 0x4000) {
          var b2: int := Get();
          m := m + b2 * 0x4000 - 0x4000;
          BitIs(m, 0x20_0000);
          if Bit(m, 0x20_0000) {
            var b3: int := Get();
            m := m + b3 * 0x20_0000 - 0x20_0000;
            if Bit(m, 0x1000_0000) {
              m := m - 0x2000_0000;
            }
          }
        }
      }
      n := m;
    }

    lemma BitIs(n: nat, unit: nat)
      requires unit > 0
      ensures Bit(n, unit) ==> n >= unit
    {
    }

    /** `getstring`: into an array of `room` places, which it closes with a 0. */
    method GetString(room: nat) returns (t: seq<int8>)
      requires Valid() && room > 0
      modifies `len, `overread
      ensures var (m, used) := ReadString(old(Reading()).left, room); t == m && Valid() && Reading() == old(Reading()).Get(used)
      ensures |t| < room && NulFree(t)
    {
      hide ReadInt, Input.Get, Drop, ReadCharacters, Partly;
      ghost var i := Reading();
      Partly0(i.left, room);
      ghost var k: nat := 0;
      t := [];
      NothingGot(i);
      while true
        invariant |t| <= room && NulFree(t) && Valid() && Reading() == i.Get(k)
        invariant Partly(i.left, Reading().left, t, k, room)
        decreases room - |t|
      {
        ghost var left := Reading().left;
        PartlyNext(i.left, left, t, k, room);
        if |t| >= room {
          t := t[..room - 1];
          return;
        }
        if len >= buf.Length {
          return;
        }
        var n := GetInt();
        ghost var used := ReadInt(left).1;
        GetSome(left);
        GetMore(i, k, used);
        k := k + used;
        var c := Signed(Byte(n));
        GotRest(i, k, left, used);
        if c == 0 {
          return;
        }
        t := t + [c];
      }
    }

    lemma NothingGot(i: Input)
      ensures i.Get(0) == i
    {
    }

    lemma GetSome(s: seq<uint8>)
      ensures ReadInt(s).1 > 0
    {
    }

    lemma GotRest(i: Input, k: nat, left: seq<uint8>, used: nat)
      requires k >= used && left == i.Get(k - used).left
      ensures i.Get(k).left == Drop(left, used)
    {
    }
  }
}
