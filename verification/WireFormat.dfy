/** The bytes of game messages as other programs read them: what engine/server.cpp writes, byte by byte. */
module WireFormat {
  import opened Machine
  import opened WireCodec

  /** Numbers from -126 to 127 are one byte; those of 16 bits are 0x80 and two bytes, all others 0x81 and four, the low byte
      first and in two's complement. */
  lemma {:induction false} IntFormat(n: int32)
    ensures var b := IntBytes(n);
            && (-127 < n < 128 ==> b == [if n < 0 then n + 256 else n])
            && (!(-127 < n < 128) && -32768 <= n < 32768 ==>
                  |b| == 3 && b[0] == 0x80 && b[1] as int + 256 * (b[2] as int) == if n < 0 then n + 65536 else n)
            && (!(-32768 <= n < 32768) ==>
                  |b| == 5 && b[0] == 0x81 && b[1] as int + 256 * (b[2] as int) + 65536 * (b[3] as int) + 16777216 * (b[4] as int)
                  == if n < 0 then n + 0x1_0000_0000 else n)
  {
    if !(-127 < n < 128) {
      if -32768 <= n < 32768 {
        TwoBytes(n);
      } else {
        FourBytes(n);
      }
    }
  }

  /** Compact integers come in groups of seven bits, the low one first, each but the last marked by its top bit. The least number
      of groups that will do is taken, up to four; the fourth is a whole byte, as for all negative numbers. */
  lemma {:induction false} UintFormat(n: int32)
    ensures var b := UintBytes(n);
            && (0 <= n < 0x80 ==> b == [n])
            && (0x80 <= n < 0x4000 ==> |b| == 2 && b[0] >= 0x80 > b[1] && b[0] as int - 0x80 + 0x80 * (b[1] as int) == n)
            && (0x4000 <= n < 0x20_0000 ==>
                  |b| == 3 && b[0] >= 0x80 && b[1] >= 0x80 > b[2] && b[0] as int - 0x80 + 0x80 * (b[1] as int - 0x80) + 0x4000 * (b[2] as int) == n)
            && (n < 0 || 0x20_0000 <= n ==>
                  && |b| == 4 && b[0] >= 0x80 && b[1] >= 0x80 && b[2] >= 0x80
                  && (-0x1000_0000 <= n < 0x1000_0000 ==>
                        b[0] as int - 0x80 + 0x80 * (b[1] as int - 0x80) + 0x4000 * (b[2] as int - 0x80) + 0x20_0000 * (b[3] as int)
                        == if n < 0 then n + 0x2000_0000 else n))
  {
    if n < 0 || 0x20_0000 <= n {
      if -0x1000_0000 <= n < 0x1000_0000 {
        FourSevens(n);
      }
    } else if 0x4000 <= n {
      assert n / 0x4000 == n / 0x80 / 0x80;
    }
  }

  /** Characters up to 127 are sent as they are, and a 0 after the last. */
  lemma {:induction false} TextFormat(t: seq<int8>)
    requires forall k | 0 <= k < |t| :: 0 < t[k]
    ensures |StringBytes(t)| == |t| + 1 && StringBytes(t)[|t|] == 0
    ensures forall k | 0 <= k < |t| :: StringBytes(t)[k] == t[k]
  {
    if t != [] {
      TextFormat(t[1..]);
      assert IntBytes(t[0]) == [t[0]];
    }
  }

  /** A text that leaves no room for its closing 0 is read as its first `room - 1` characters, one more being taken off the
      bytes. */
  lemma {:induction false} LongTextCut(t: seq<int8>, room: nat, rest: seq<uint8>)
    requires NulFree(t) && 1 <= room <= |t|
    ensures ReadString(StringBytes(t) + rest, room) == (t[..room - 1], |StringBytes(t[..room])| - 1)
  {
    CharactersCut(t, room, rest);
    assert t[..room][..room - 1] == t[..room - 1];
  }

  lemma {:induction false} CharactersCut(t: seq<int8>, room: nat, rest: seq<uint8>)
    requires NulFree(t) && room <= |t|
    ensures ReadCharacters(StringBytes(t) + rest, room) == Characters(t[..room], |StringBytes(t[..room])| - 1, true)
    decreases |t|
  {
    hide ReadInt, IntBytes;
    if room == 0 {
      IntBytesSome(0);
    } else {
      var s, b, more := StringBytes(t) + rest, IntBytes(t[0]), StringBytes(t[1..]) + rest;
      assert s == b + more;
      IntRoundTrip(t[0], more);
      IntBytesSome(t[0]);
      CharactersCut(t[1..], room - 1, rest);
      assert Drop(s, |b|) == more && [t[0]] + t[1..][..room - 1] == t[..room] && t[..room][1..] == t[1..][..room - 1];
    }
  }
}
