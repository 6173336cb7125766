/** Integer widths of the C sources and zero-extended views of byte strings. */
module Machine {

  /** 2^32: one more than the largest `enet_uint32`. */
  const WORD := 0x1_0000_0000

  type uint8 = x: int | 0 <= x < 0x100
  type uint16 = x: int | 0 <= x < 0x1_0000
  type uint32 = x: int | 0 <= x < WORD

  /** Byte `i` of `s`, or 0 past its end. */
  function ByteAt(s: seq<uint8>, i: nat): uint8 {
    if i < |s| then s[i] else 0
  }

  /** `s` without its first `k` bytes; empty once `k` passes the end. */
  function Drop(s: seq<uint8>, k: nat): seq<uint8> {
    if k <= |s| then s[k..] else []
  }

  lemma DropDrop(s: seq<uint8>, j: nat, k: nat)
    ensures Drop(Drop(s, j), k) == Drop(s, j + k)
  {
  }
}
