/** Unsequenced packets: ENet lets each in once (enet/protocol.c), whatever their order. */
module Unsequenced {
  import opened Machine

  const WINDOW := 1024
  const FREE_WINDOWS := 32

  /** The wire form of an unbounded group number. */
  function Wire(n: nat): uint16 {
    n % 0x1_0000
  }

  /** The group passes the window test. */
  predicate Ahead(base: uint16, group: uint16) {
    (if group < base then group + 0x1_0000 else group) < base + FREE_WINDOWS * WINDOW
  }

  /** In true numbers: it is not below the window's base, or so far below that it looks new. */
  lemma AheadTrue(b: nat, g: nat)
    requires g < b + 0x1_0000 && b <= g + 0x1_0000
    ensures Ahead(Wire(b), Wire(g)) <==> b <= g < b + 0x8000 || g + 0x8000 < b || g + 0x1_0000 == b
  {
    var q, r := b / 0x1_0000, b % 0x1_0000;
    var d := g - b;
    if 0 <= r + d < 0x1_0000 {
      WireOf(q, r + d);
      assert g == q * 0x1_0000 + (r + d);
    } else if r + d >= 0x1_0000 {
      WireOf(q + 1, r + d - 0x1_0000);
      assert g == (q + 1) * 0x1_0000 + (r + d - 0x1_0000);
    } else {
      assert q > 0 by { assert b == q * 0x1_0000 + r; }
      WireOf(q - 1, r + d + 0x1_0000);
      assert g == (q - 1) * 0x1_0000 + (r + d + 0x1_0000);
    }
  }

  lemma WireOf(q: nat, r: nat)
    requires r < 0x1_0000
    ensures Wire(q * 0x1_0000 + r) == r
  {
  }

  /** Where the window of a group begins. */
  function Base(g: nat): nat {
    g / WINDOW * WINDOW
  }

  lemma BaseFits(g: nat)
    ensures Base(g) % WINDOW == 0 && Base(g) + g % WINDOW == g
  {
  }

  lemma WireRemainder(g: nat)
    ensures Wire(g) % WINDOW == g % WINDOW
  {
  }

  lemma BaseWire(g: nat)
    ensures Wire(Base(g)) == Wire(g) - Wire(g) % WINDOW
  {
    var w, k := g / WINDOW, g % WINDOW;
    var a, c := w / 64, w % 64;
    assert w == a * 64 + c && g == w * WINDOW + k;
    Parts(a, c, k);
    WireRemainder(g);
  }

  lemma Parts(a: nat, c: nat, k: nat)
    requires c < 64 && k < WINDOW
    ensures Wire((a * 64 + c) * WINDOW + k) == c * WINDOW + k && Wire((a * 64 + c) * WINDOW) == c * WINDOW
  {
    WireOf(a, c * WINDOW + k);
    WireOf(a, c * WINDOW);
    assert (a * 64 + c) * WINDOW + k == a * 0x1_0000 + (c * WINDOW + k);
    assert (a * 64 + c) * WINDOW == a * 0x1_0000 + c * WINDOW;
  }

  lemma BaseMonotone(b: nat, g: nat)
    requires b % WINDOW == 0 && b <= g
    ensures b <= Base(g)
  {
  }

  lemma WireDistinct(m: nat, n: nat)
    requires m <= n < m + 0x1_0000
    ensures Wire(m) == Wire(n) <==> m == n
  {
  }

  /** What the handler finds out about group `g` with the window at `b`. */
  lemma Judge(b: nat, g: nat)
    requires b % WINDOW == 0 && b <= g + 0x8000 && g < b + 0x8000
    ensures Ahead(Wire(b), Wire(g)) <==> b <= g
    ensures var index := Wire(g) % WINDOW;
            && Wire(g) - index == Wire(Base(g)) && Base(g) + index == g && Base(g) % WINDOW == 0
            && (b <= g ==> b <= Base(g) && (Wire(Base(g)) == Wire(b) <==> Base(g) == b))
  {
    AheadTrue(b, g);
    BaseFits(g);
    WireRemainder(g);
    BaseWire(g);
    if b <= g {
      BaseMonotone(b, g);
      hide Wire, Base, Ahead;
      WireDistinct(b, Base(g));
    }
  }

  class UnsequencedWindow {
    var incomingUnsequencedGroup: uint16
    var unsequencedWindow: seq<bool>
    ghost var base: nat
    ghost var queued: set<nat>

    /** The window begins at a multiple of its size, and marks exactly the groups queued from it on. */
    ghost predicate Valid()
      reads this
    {
      && incomingUnsequencedGroup == Wire(base) && base % WINDOW == 0 && |unsequencedWindow| == WINDOW
      && (forall g | g in queued :: g < base + WINDOW)
      && (forall i | 0 <= i < WINDOW :: unsequencedWindow[i] <==> base + i in queued)
    }

    constructor ()
      ensures Valid() && base == 0 && queued == {}
    {
      incomingUnsequencedGroup, unsequencedWindow, base, queued := 0, seq(WINDOW, i => false), 0, {};
    }

    /**
     `enet_protocol_handle_send_unsequenced`, for true group number `g` within 32768 of the window; `room`
     tells whether the packet can be queued.
     */
    method HandleSendUnsequenced(group: uint16, room: bool, ghost g: nat) returns (taken: bool)
      requires Valid() && group == Wire(g) && base <= g + 0x8000 && g < base + 0x8000
      modifies this
      ensures Valid() && base == if g < old(base) then old(base) else g - g % 1024
      ensures taken <==> room && g >= old(base) && g !in old(queued)
      ensures queued == if taken then old(queued) + {g} else old(queued)
    {
      hide Wire;
      Judge(base, g);
      BaseFits(g);
      assert g >= base && Base(g) == base ==> base == g - g % 1024;
      hide Base;
      var index := group % WINDOW;
      var unsequencedGroup: int := group;
      if unsequencedGroup < incomingUnsequencedGroup {
        unsequencedGroup := unsequencedGroup + 0x1_0000;
      }
      if unsequencedGroup >= incomingUnsequencedGroup + FREE_WINDOWS * WINDOW {
        return false;
      }
      unsequencedGroup := unsequencedGroup % 0x1_0000;
      if unsequencedGroup - index != incomingUnsequencedGroup {
        incomingUnsequencedGroup := unsequencedGroup - index;
        unsequencedWindow := seq(WINDOW, i => false);
        base := Base(g);
      } else if unsequencedWindow[index] {
        return false;
      }
      if !room {
        return false;
      }
      unsequencedWindow := unsequencedWindow[index := true];
      queued := queued + {g};
      taken := true;
    }
  }
}
