/**
 The 16-bit sequence arithmetic of ENet's reliable channels, against unbounded sequence numbers.
 */
module SequenceWindows {
  import opened Machine

  const WINDOWS := 16
  const WINDOW_SIZE := 0x1000
  const FREE_WINDOWS := 8

  /** The wire form of an unbounded number. */
  function Wire(n: nat): uint16 {
    n % 0x1_0000
  }

  function Window(n: nat): nat {
    n / WINDOW_SIZE
  }

  /** The window of wire number `s` as seen from `current`: numbers below `current` are taken to have
      wrapped around. */
  function RelativeWindow(current: uint16, s: uint16): nat {
    Window(s) + if s < current then WINDOWS else 0
  }

  /** What the receiver lets in. */
  predicate Accepts(current: uint16, s: uint16) {
    Window(current) <= RelativeWindow(current, s) < Window(current) + FREE_WINDOWS - 1
  }

  /** What the receiver declines to acknowledge: the windows it might have discarded just now. */
  predicate Suppresses(current: uint16, s: uint16) {
    Window(current) + FREE_WINDOWS - 1 <= RelativeWindow(current, s) <= Window(current) + FREE_WINDOWS
  }

  lemma WireWindow(n: nat)
    ensures Window(Wire(n)) == Window(n) % WINDOWS
  {
    var q, r := n / 0x1_0000, n % 0x1_0000;
    assert n == (q * WINDOWS) * WINDOW_SIZE + r;
    assert Window(n) == q * WINDOWS + r / WINDOW_SIZE;
  }

  /** Up to 2^16 ahead, the receiver sees the true distance in windows. */
  lemma WindowsAhead(r: nat, n: nat)
    requires r <= n < r + 0x1_0000
    ensures RelativeWindow(Wire(r), Wire(n)) - Window(Wire(r)) == Window(n) - Window(r)
  {
    WireWindow(r);
    WireWindow(n);
    var q, s := r / 0x1_0000, r % 0x1_0000;
    if s + (n - r) < 0x1_0000 {
      assert n == q * 0x1_0000 + (s + n - r);
      WindowOf(q, s);
      WindowOf(q, s + n - r);
    } else {
      assert n == (q + 1) * 0x1_0000 + (s + n - r - 0x1_0000);
      WindowOf(q, s);
      WindowOf(q + 1, s + n - r - 0x1_0000);
    }
  }

  lemma WindowOf(q: nat, s: nat)
    requires s < 0x1_0000
    ensures Wire(q * 0x1_0000 + s) == s && Window(q * 0x1_0000 + s) == q * WINDOWS + Window(s)
  {
    assert q * 0x1_0000 + s == (q * WINDOWS) * WINDOW_SIZE + s;
  }

  /** An old number looks 2^16 newer than it is. */
  lemma WireShift(n: nat)
    ensures Wire(n + 0x1_0000) == Wire(n) && Window(n + 0x1_0000) == Window(n) + WINDOWS
  {
  }

  /** Numbers less than 2^16 apart are told apart on the wire. */
  lemma WireDistinct(m: nat, n: nat)
    requires m <= n < m + 0x1_0000
    ensures Wire(m) == Wire(n) <==> m == n
  {
  }

  /** New numbers are judged by their true distance: accepted below 7 windows ahead, and left
      unacknowledged 7 or 8 ahead. */
  lemma NewNumber(r: nat, n: nat)
    requires r <= n < r + 0x1_0000
    ensures Accepts(Wire(r), Wire(n)) <==> Window(n) < Window(r) + FREE_WINDOWS - 1
    ensures Suppresses(Wire(r), Wire(n)) <==>
      Window(r) + FREE_WINDOWS - 1 <= Window(n) <= Window(r) + FREE_WINDOWS
  {
    WindowsAhead(r, n);
    WindowMonotone(r, n);
  }

  lemma WindowMonotone(m: nat, n: nat)
    requires m <= n
    ensures Window(m) <= Window(n)
  {
  }

  /** Old numbers are kept out exactly while they are at most 9 windows old. */
  lemma OldNumber(r: nat, n: nat)
    requires n < r <= n + 0x1_0000
    ensures Accepts(Wire(r), Wire(n)) <==> Window(r) - Window(n) > WINDOWS - FREE_WINDOWS + 1
  {
    WireShift(n);
    WindowsAhead(r, n + 0x1_0000);
    WindowMonotone(r, n + 0x1_0000);
  }

  // ---------- Order in the receive queue ----------

  /** How far `s` lies ahead of `current`, going round. */
  function Ahead(current: uint16, s: uint16): nat {
    if s >= current then s - current else s + 0x1_0000 - current
  }

  lemma AheadTrue(r: nat, n: nat)
    requires r <= n < r + 0x1_0000
    ensures Ahead(Wire(r), Wire(n)) == n - r
  {
    var q, s := r / 0x1_0000, r % 0x1_0000;
    if s + (n - r) < 0x1_0000 {
      assert n == q * 0x1_0000 + (s + n - r);
      WindowOf(q, s + n - r);
    } else {
      assert n == (q + 1) * 0x1_0000 + (s + n - r - 0x1_0000);
      WindowOf(q + 1, s + n - r - 0x1_0000);
    }
  }

  // ---------- The sender's window mask ----------

  /**
   The windows that must be unused before the first command of window `w` is sent: `w` itself and
   the nine after it, going round. In C a pair of shifts of a ten-bit mask.
   */
  predicate Masked(w: nat, k: nat) {
    (k + WINDOWS - w % WINDOWS) % WINDOWS < FREE_WINDOWS + 2
  }

  lemma MaskBits(w: bv32, k: bv32)
    requires w < 16 && k < 16
    ensures var ten: bv32 := (1 << 10) - 1;
            (((ten << w) | (ten >> (16 - w))) >> k) & 1 == 1 <==> ((k + 16 - w) & 15) < 10
  {
  }

  /** If no number outstanding lies in a masked window, none lies more than six windows back. */
  lemma MaskKeepsSpan(n: nat, o: nat)
    requires o < n && Window(n) <= Window(o) + FREE_WINDOWS - 1
    requires Window(o) < Window(n)
    requires !Masked(Window(n), Window(o) % WINDOWS)
    ensures Window(n) <= Window(o) + FREE_WINDOWS - 2
  {
  }

  lemma WireRemainder(n: nat)
    ensures Wire(n) % WINDOW_SIZE == n % WINDOW_SIZE
  {
  }

  lemma NextWindow(n: nat)
    requires n > 0 && n % WINDOW_SIZE == 0
    ensures Window(n) == Window(n - 1) + 1
    ensures forall o: nat | o < n :: Window(o) < Window(n)
  {
  }

  lemma SameWindow(n: nat)
    requires n > 0 && n % WINDOW_SIZE != 0
    ensures Window(n) == Window(n - 1)
  {
  }

  lemma MaskWire(n: nat, k: nat)
    ensures Masked(Window(Wire(n)), k) == Masked(Window(n), k)
  {
    WireWindow(n);
  }
}
