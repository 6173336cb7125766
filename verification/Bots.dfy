/** Who steers the bots, fpsgame/aiman.h: lists of bots per client, and the owner noted in each bot. */
module Bots {
  import opened Sums

  const MAXBOTS := 32

  /** A place for a bot; `ownernum` is the number of the client that steers it, or -1. */
  datatype Slot = Empty | Bot(ownernum: int)

  ghost predicate NoDuplicates(s: seq<nat>) {
    forall i, j | 0 <= i < j < |s| :: s[i] != s[j]
  }

  /** `vector::removeobj`. */
  function Removed(s: seq<nat>, b: nat): seq<nat> {
    if s == [] then [] else Removed(s[..|s| - 1], b) + if s[|s| - 1] == b then [] else [s[|s| - 1]]
  }

  lemma {:induction false} RemovedIn(s: seq<nat>, b: nat, x: nat)
    ensures x in Removed(s, b) <==> x in s && x != b
  {
    if s != [] {
      var n := |s| - 1;
      RemovedIn(s[..n], b, x);
      assert s == s[..n] + [s[n]];
    }
  }

  lemma {:induction false} RemovedSame(s: seq<nat>, b: nat)
    requires b !in s
    ensures Removed(s, b) == s
  {
    if s != [] {
      var n := |s| - 1;
      assert s == s[..n] + [s[n]];
      RemovedSame(s[..n], b);
    }
  }

  lemma {:induction false} RemovedIs(s: seq<nat>, b: nat)
    requires NoDuplicates(s)
    ensures NoDuplicates(Removed(s, b)) && forall x :: x in Removed(s, b) <==> x in s && x != b
    ensures |Removed(s, b)| == if b in s then |s| - 1 else |s|
    ensures b !in s ==> Removed(s, b) == s
    ensures s != [] && s[|s| - 1] == b ==> Removed(s, b) == s[..|s| - 1]
  {
    forall x: nat ensures x in Removed(s, b) <==> x in s && x != b {
      RemovedIn(s, b, x);
    }
    if b !in s {
      RemovedSame(s, b);
    } else {
      RemovedOnce(s, b);
    }
  }

  lemma {:induction false} RemovedOnce(s: seq<nat>, b: nat)
    requires NoDuplicates(s) && b in s
    ensures NoDuplicates(Removed(s, b)) && |Removed(s, b)| == |s| - 1
    ensures s[|s| - 1] == b ==> Removed(s, b) == s[..|s| - 1]
  {
    var n := |s| - 1;
    var t := s[..n];
    assert s == t + [s[n]];
    assert s[n] !in t by {
      assert forall k | 0 <= k < n :: t[k] == s[k] != s[n];
    }
    if s[n] == b {
      RemovedSame(t, b);
    } else {
      RemovedOnce(t, b);
      RemovedIn(t, b, s[n]);
    }
  }

  function Square(n: nat): nat {
    n * n
  }

  /** Moving one bot from a client with two more than another makes the squares smaller. */
  lemma SquaresFall(h: nat, l: nat)
    requires h > l + 1
    ensures Square(h - 1) + Square(l + 1) < Square(h) + Square(l)
  {
    assert (h - 1) * (h - 1) == h * h - 2 * h + 1 && (l + 1) * (l + 1) == l * l + 2 * l + 1;
  }

  ghost function Squares(owned: seq<seq<nat>>): seq<nat> {
    seq(|owned|, c requires 0 <= c < |owned| => Square(|owned[c]|))
  }

  ghost predicate InList(owned: seq<seq<nat>>, c: nat, b: nat)
    requires c < |owned|
  {
    b in owned[c]
  }

  ghost predicate SteeredBy(slots: seq<Slot>, b: nat, c: nat) {
    b < |slots| && slots[b] == Bot(c)
  }

  /** A bot is in a client's list exactly when it names that client as its owner. */
  ghost predicate Consistent(owned: seq<seq<nat>>, slots: seq<Slot>) {
    && (forall c | 0 <= c < |owned| :: NoDuplicates(owned[c]))
    && (forall c: nat, b: nat | c < |owned| :: InList(owned, c, b) <==> SteeredBy(slots, b, c))
    && (forall b | 0 <= b < |slots| && slots[b].Bot? :: -1 <= slots[b].ownernum < |owned|)
  }

  /** A bot leaves whatever list it is in. */
  ghost function Without(owned: seq<seq<nat>>, slots: seq<Slot>, b: nat): seq<seq<nat>>
    requires b < |slots|
  {
    if slots[b].Bot? && 0 <= slots[b].ownernum < |owned| then
      owned[slots[b].ownernum := Removed(owned[slots[b].ownernum], b)]
    else owned
  }

  /** And joins that of `owner`. */
  ghost function Moved(owned: seq<seq<nat>>, slots: seq<Slot>, b: nat, owner: int): seq<seq<nat>>
    requires b < |slots| && owner < |owned|
  {
    var left := Without(owned, slots, b);
    if owner >= 0 then left[owner := left[owner] + [b]] else left
  }

  lemma {:induction false} WithoutConsistent(owned: seq<seq<nat>>, slots: seq<Slot>, b: nat)
    requires Consistent(owned, slots) && b < |slots|
    ensures var left := Without(owned, slots, b);
            && |left| == |owned| && (forall c | 0 <= c < |owned| :: NoDuplicates(left[c]))
            && (forall c: nat, x: nat | c < |owned| :: InList(left, c, x) <==> InList(owned, c, x) && x != b)
  {
    var left := Without(owned, slots, b);
    if slots[b].Bot? && 0 <= slots[b].ownernum < |owned| {
      RemovedIs(owned[slots[b].ownernum], b);
    }
    forall c: nat, x: nat | c < |owned| ensures InList(left, c, x) <==> InList(owned, c, x) && x != b {
      if slots[b] != Bot(c) {
        assert InList(owned, c, b) <==> SteeredBy(slots, b, c);
        assert left[c] == owned[c];
      } else {
        assert left[c] == Removed(owned[c], b);
      }
    }
  }

  lemma {:induction false} MovedConsistent(owned: seq<seq<nat>>, slots: seq<Slot>, b: nat, owner: int)
    requires Consistent(owned, slots) && b < |slots| && -1 <= owner < |owned|
    ensures Consistent(Moved(owned, slots, b, owner), slots[b := Bot(owner)])
  {
    hide Without;
    WithoutConsistent(owned, slots, b);
    var left, owned' := Without(owned, slots, b), Moved(owned, slots, b, owner);
    var slots' := slots[b := Bot(owner)];
    forall c | 0 <= c < |owned| ensures NoDuplicates(owned'[c]) {
      assert NoDuplicates(left[c]) && !InList(left, c, b);
    }
    forall c: nat, x: nat | c < |owned| ensures InList(owned', c, x) <==> SteeredBy(slots', x, c) {
      assert InList(left, c, x) <==> InList(owned, c, x) && x != b;
      assert InList(owned, c, x) <==> SteeredBy(slots, x, c);
    }
  }

  lemma {:induction false} DroppedConsistent(owned: seq<seq<nat>>, slots: seq<Slot>, b: nat)
    requires Consistent(owned, slots) && b < |slots|
    ensures Consistent(Without(owned, slots, b), slots[b := Empty])
  {
    hide Without;
    WithoutConsistent(owned, slots, b);
    var left, slots' := Without(owned, slots, b), slots[b := Empty];
    forall c: nat, x: nat | c < |owned| ensures InList(left, c, x) <==> SteeredBy(slots', x, c) {
      assert InList(owned, c, x) <==> SteeredBy(slots, x, c);
    }
  }

  /** Somebody steers the bot there. */
  predicate Owned(s: Slot) {
    s.Bot? && s.ownernum >= 0
  }

  function Steered(slots: seq<Slot>): nat {
    if slots == [] then 0 else Steered(slots[..|slots| - 1]) + if Owned(slots[|slots| - 1]) then 1 else 0
  }

  class AiManager {
    const owned: array<seq<nat>>
    const valid: array<bool>
    var clients: seq<nat>
    var slots: seq<Slot>

    ghost predicate Valid()
      reads this, owned, valid
    {
      && owned.Length == valid.Length && (forall i | 0 <= i < |clients| :: clients[i] < owned.Length)
      && Consistent(owned[..], slots)
    }

    /** Client `c` may be given bots. */
    predicate Eligible(c: int)
      reads `clients, valid
    {
      0 <= c < valid.Length && c in clients && valid[c]
    }

    /** `findaiclient`: an eligible client with the fewest bots, other than `exclude`. */
    method FindAiClient(exclude: int) returns (least: int)
      requires Valid()
      ensures -1 <= least < owned.Length
      ensures least == -1 <==> forall c: nat | Eligible(c) :: c == exclude
      ensures least >= 0 ==> Eligible(least) && least != exclude
                             && forall c: nat | Eligible(c) && c != exclude :: |owned[least]| <= |owned[c]|
    {
      least := -1;
      for i := 0 to |clients|
        invariant -1 <= least < owned.Length
        invariant least == -1 <==> forall c: nat | c in clients[..i] && valid[c] :: c == exclude
        invariant least >= 0 ==> Eligible(least) && least != exclude
                                 && forall c: nat | c in clients[..i] && valid[c] && c != exclude :: |owned[least]| <= |owned[c]|
      {
        var c := clients[i];
        assert clients[..i + 1] == clients[..i] + [c];
        if !valid[c] || c == exclude {
          continue;
        }
        if least == -1 || |owned[c]| < |owned[least]| {
          least := c;
        }
      }
      assert clients[..|clients|] == clients;
    }

    /** A bot changes hands: out of one list, into another. */
    method Relink(b: nat, owner: int)
      requires Valid() && b < |slots| && -1 <= owner < owned.Length
      modifies owned, `slots
      ensures Valid() && slots == old(slots)[b := Bot(owner)]
      ensures owned[..] == Moved(old(owned[..]), old(slots), b, owner)
    {
      MovedConsistent(owned[..], slots, b, owner);
      if slots[b].Bot? && slots[b].ownernum >= 0 {
        owned[slots[b].ownernum] := Removed(owned[slots[b].ownernum], b);
      }
      assert owned[..] == Without(old(owned[..]), slots, b);
      if owner >= 0 {
        owned[owner] := owned[owner] + [b];
      }
      slots := slots[b := Bot(owner)];
      assert owned[..] == Moved(old(owned[..]), old(slots), b, owner);
    }

    /** `addai`: reuse a place, or open a new one; the bot goes to an eligible client with the fewest. */
    method AddAi(limit: int) returns (added: bool)
      requires Valid()
      modifies owned, `slots
      ensures Valid() && |slots| <= |old(slots)| + 1
      ensures added <==> Steered(old(slots)) < if 0 <= limit < MAXBOTS then limit else MAXBOTS
      ensures added ==> exists b: nat, owner: int | b < |slots| && -1 <= owner < owned.Length ::
                          && (b < |old(slots)| ==> !Owned(old(slots)[b]))
                          && (forall k: nat | k < b && k < |old(slots)| :: Owned(old(slots)[k]))
                          && slots == (if b < |old(slots)| then old(slots) else old(slots) + [Empty])[b := Bot(owner)]
                          && (owner >= 0 ==> Eligible(owner) && forall c: nat | Eligible(c) :: |old(owned[owner])| <= |old(owned[c])|)
                          && (owner == -1 ==> forall c: nat :: !Eligible(c))
      ensures !added ==> slots == old(slots) && owned[..] == old(owned[..])
    {
      hide Consistent, Moved, Without, Removed;
      var numai, cn := 0, -1;
      var maxai := if limit >= 0 then (if limit < MAXBOTS then limit else MAXBOTS) else MAXBOTS;
      assert slots[..0] == [];
      for i := 0 to |slots|
        invariant -1 <= cn < i && (cn >= 0 ==> !Owned(slots[cn]))
        invariant forall k | 0 <= k < i && (cn < 0 || k < cn) :: Owned(slots[k])
        invariant numai == Steered(slots[..i])
      {
        assert slots[..i + 1][..i] == slots[..i];
        if !slots[i].Bot? || slots[i].ownernum < 0 {
          if cn < 0 {
            cn := i;
          }
          continue;
        }
        numai := numai + 1;
      }
      assert slots[..|slots|] == slots;
      if numai >= maxai {
        return false;
      }
      ghost var slots0 := slots;
      if cn < 0 {
        cn := |slots|;
        EmptyAdded(owned[..], slots);
        slots := slots + [Empty];
      }
      var owner := FindAiClient(-1);
      Relink(cn, owner);
      added := true;
      assert cn < |slots| && slots == (if cn < |slots0| then slots0 else slots0 + [Empty])[cn := Bot(owner)];
    }

    /** `deleteai`. */
    method DeleteAi(b: nat)
      requires Valid() && b < |slots|
      modifies owned, `slots
      ensures Valid() && slots == old(slots)[b := Empty]
      ensures owned[..] == Without(old(owned[..]), old(slots), b)
    {
      DroppedConsistent(owned[..], slots, b);
      if slots[b].Bot? && slots[b].ownernum >= 0 {
        owned[slots[b].ownernum] := Removed(owned[slots[b].ownernum], b);
      }
      assert owned[..] == Without(old(owned[..]), slots, b);
      slots := slots[b := Empty];
    }

    /** `shiftai`; `owner` is -1 for none. */
    method ShiftAi(b: nat, owner: int)
      requires Valid() && b < |slots| && slots[b].Bot? && -1 <= owner < owned.Length
      modifies owned, `slots
      ensures Valid() && slots == old(slots)[b := Bot(owner)]
      ensures owned[..] == Moved(old(owned[..]), old(slots), b, owner)
    {
      Relink(b, owner);
    }

    /** `removeai`: all bots of a client go to others with the fewest, or to nobody if there are none. */
    method RemoveAi(c: nat)
      requires Valid() && c < owned.Length
      modifies owned, `slots
      ensures Valid() && owned[c] == [] && |slots| == |old(slots)|
      ensures forall b | 0 <= b < |slots| :: slots[b].Bot? == old(slots)[b].Bot?
      ensures forall b | 0 <= b < |slots| && slots[b] != old(slots)[b] ::
                old(slots)[b] == Bot(c) && (slots[b].ownernum == -1 || (Eligible(slots[b].ownernum) && slots[b].ownernum != c))
      ensures forall b | 0 <= b < |slots| && slots[b] != old(slots)[b] ::
                slots[b].ownernum == -1 <==> forall d: nat | Eligible(d) :: d == c
      ensures forall d, e: nat | Eligible(d) && d != c && Eligible(e) && e != c && |old(owned[d])| < |owned[d]| :: |owned[d]| <= |owned[e]| + 1
    {
      var i := |owned[c]|;
      while i > 0
        invariant Valid() && i == |owned[c]| && |slots| == |old(slots)|
        invariant forall b | 0 <= b < |slots| :: slots[b].Bot? == old(slots)[b].Bot?
        invariant forall b | 0 <= b < |slots| && slots[b] != old(slots)[b] ::
          old(slots)[b] == Bot(c) && (slots[b].ownernum == -1 || (Eligible(slots[b].ownernum) && slots[b].ownernum != c))
        invariant forall b | 0 <= b < |slots| && slots[b] != old(slots)[b] ::
          slots[b].ownernum == -1 <==> forall d: nat | Eligible(d) :: d == c
        invariant forall d: nat | d < owned.Length && d != c :: |old(owned[d])| <= |owned[d]|
        invariant forall d, e: nat | Eligible(d) && d != c && Eligible(e) && e != c && |old(owned[d])| < |owned[d]| ::
          |owned[d]| <= |owned[e]| + 1
      {
        var b := owned[c][i - 1];
        var owner := FindAiClient(c);
        LastLeaves(b, c, owner);
        ShiftAi(b, owner);
        i := i - 1;
      }
    }

    /** The last bot of a list is the one that leaves it. */
    lemma {:induction false} LastLeaves(b: nat, c: nat, owner: int)
      requires Valid() && c < owned.Length && |owned[c]| > 0 && b == owned[c][|owned[c]| - 1] && -1 <= owner < owned.Length && owner != c
      ensures b < |slots| && slots[b] == Bot(c)
      ensures Moved(owned[..], slots, b, owner)[c] == owned[c][..|owned[c]| - 1]
      ensures owner >= 0 ==> Moved(owned[..], slots, b, owner)[owner] == owned[owner] + [b]
      ensures forall x | 0 <= x < owned.Length && x != c && x != owner :: Moved(owned[..], slots, b, owner)[x] == owned[x]
    {
      LastInList(owned[..], slots, c, b);
      RemovedIs(owned[c], b);
    }

    /** `reassignai`: one bot from a client with the most to one with the fewest, if they are more than one apart. */
    method ReassignAi() returns (moved: bool)
      requires Valid()
      modifies owned, `slots
      ensures Valid() && |slots| == |old(slots)|
      ensures moved ==> Sum(Squares(owned[..])) < old(Sum(Squares(owned[..])))
      ensures moved ==> exists b | 0 <= b < |slots| :: old(slots)[b].Bot? && slots[b].Bot? && Eligible(slots[b].ownernum)
                                                      && slots == old(slots)[b := slots[b]]
      ensures !moved ==> slots == old(slots) && owned[..] == old(owned[..])
                         && forall c, d: nat | Eligible(c) && Eligible(d) :: |owned[c]| <= |owned[d]| + 1
    {
      var hi, lo := -1, -1;
      for i := 0 to |clients|
        invariant -1 <= hi < owned.Length && -1 <= lo < owned.Length && (hi == -1 <==> lo == -1)
        invariant hi == -1 <==> forall c: nat | c in clients[..i] :: !valid[c]
        invariant hi >= 0 ==> Eligible(hi) && Eligible(lo)
                              && forall c: nat | c in clients[..i] && valid[c] :: |owned[lo]| <= |owned[c]| <= |owned[hi]|
      {
        var c := clients[i];
        assert clients[..i + 1] == clients[..i] + [c];
        if !valid[c] {
          continue;
        }
        if lo == -1 || |owned[c]| < |owned[lo]| {
          lo := c;
        }
        if hi == -1 || |owned[c]| > |owned[hi]| {
          hi := c;
        }
      }
      assert clients[..|clients|] == clients;
      if hi >= 0 && lo >= 0 && |owned[hi]| - |owned[lo]| > 1 {
        var b := owned[hi][|owned[hi]| - 1];
        LastLeaves(b, hi, lo);
        FewerSquares(owned[..], Moved(owned[..], slots, b, lo), hi, lo);
        ShiftAi(b, lo);
        assert old(slots)[b].Bot? && slots == old(slots)[b := slots[b]];
        return true;
      }
      moved := false;
    }

    /** The loop of `checkai`: it ends, with the loads of eligible clients at most one apart and no bot lost. */
    method Balance()
      requires Valid()
      modifies owned, `slots
      ensures Valid() && |slots| == |old(slots)|
      ensures forall b | 0 <= b < |slots| :: slots[b].Bot? == old(slots)[b].Bot?
      ensures forall b | 0 <= b < |slots| && slots[b] != old(slots)[b] :: Eligible(slots[b].ownernum)
      ensures forall c, d: nat | Eligible(c) && Eligible(d) :: |owned[c]| <= |owned[d]| + 1
    {
      var moved := true;
      while moved
        invariant Valid() && |slots| == |old(slots)|
        invariant forall b | 0 <= b < |slots| :: slots[b].Bot? == old(slots)[b].Bot?
        invariant forall b | 0 <= b < |slots| && slots[b] != old(slots)[b] :: slots[b].Bot? && Eligible(slots[b].ownernum)
        invariant !moved ==> forall c, d: nat | Eligible(c) && Eligible(d) :: |owned[c]| <= |owned[d]| + 1
        decreases Sum(Squares(owned[..])), moved
      {
        moved := ReassignAi();
      }
    }
  }

  lemma {:induction false} LastInList(owned: seq<seq<nat>>, slots: seq<Slot>, c: nat, b: nat)
    requires Consistent(owned, slots) && c < |owned| && |owned[c]| > 0 && owned[c][|owned[c]| - 1] == b
    ensures b < |slots| && slots[b] == Bot(c)
  {
    assert InList(owned, c, b);
  }

  lemma {:induction false} EmptyAdded(owned: seq<seq<nat>>, slots: seq<Slot>)
    requires Consistent(owned, slots)
    ensures Consistent(owned, slots + [Empty])
  {
    var slots' := slots + [Empty];
    assert forall b | 0 <= b < |slots'| :: slots'[b] == if b < |slots| then slots[b] else Empty;
    forall c: nat, b: nat | c < |owned| ensures InList(owned, c, b) <==> SteeredBy(slots', b, c) {
      assert InList(owned, c, b) <==> SteeredBy(slots, b, c);
    }
  }

  lemma {:induction false} FewerSquares(owned: seq<seq<nat>>, owned': seq<seq<nat>>, h: nat, l: nat)
    requires |owned'| == |owned| && h < |owned| && l < |owned| && h != l && |owned[h]| > |owned[l]| + 1
    requires |owned'[h]| == |owned[h]| - 1 && |owned'[l]| == |owned[l]| + 1
    requires forall c | 0 <= c < |owned| && c != h && c != l :: owned'[c] == owned[c]
    ensures Sum(Squares(owned')) < Sum(Squares(owned))
  {
    hide Sum, Square;
    var s := Squares(owned);
    SquaresFall(|owned[h]|, |owned[l]|);
    var t := s[h := Square(|owned[h]| - 1)];
    SumUpdate(s, h, Square(|owned[h]| - 1));
    SumUpdate(t, l, Square(|owned[l]| + 1));
    assert Squares(owned') == t[l := Square(|owned[l]| + 1)];
  }
}
