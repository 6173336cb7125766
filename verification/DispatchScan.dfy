/**
 Unreliable packets on an ENet channel: what one pass of the dispatcher over the queue amounts to.
 */
module DispatchScan {
  import opened Machine
  import opened SequenceWindows
  import opened Inbox

  /** `ENetIncomingCommand` of an unreliable or unsequenced packet; `id` stands for its address. Ghost: the
      reliable number it follows, had it not wrapped around. */
  datatype Entry = Entry(id: nat, unsequenced: bool, reliable: uint16, unreliable: uint16,
                         fragmentsRemaining: nat, fragments: seq<bool>, data: seq<uint8>, ghost number: nat)

  datatype Kind = Deliver | Hold | Stale | Future

  /** How the dispatcher takes an entry. */
  function KindOf(current: uint16, e: Entry): Kind {
    if e.unsequenced then Deliver
    else if e.reliable == current then (if e.fragmentsRemaining == 0 then Deliver else Hold)
    else if Accepts(current, e.reliable) then Future
    else Stale
  }

  // ---------- What the dispatcher amounts to ----------

  /** How many entries come before the first one that must wait for a later reliable packet. */
  function Scanned(current: uint16, s: seq<Entry>): (n: nat)
    ensures n <= |s|
    ensures forall k | 0 <= k < n :: !KindOf(current, s[k]).Future?
    ensures n < |s| ==> KindOf(current, s[n]).Future?
  {
    if s == [] || KindOf(current, s[0]).Future? then 0 else 1 + Scanned(current, s[1..])
  }

  /** The entries to deliver, in order. */
  function Deliverable(current: uint16, s: seq<Entry>): seq<Entry> {
    if s == [] then []
    else Deliverable(current, s[..|s| - 1]) + if KindOf(current, s[|s| - 1]).Deliver? then [s[|s| - 1]] else []
  }

  function Undelivered(current: uint16, s: seq<Entry>): seq<Entry> {
    if s == [] then []
    else Undelivered(current, s[..|s| - 1]) + if KindOf(current, s[|s| - 1]).Deliver? then [] else [s[|s| - 1]]
  }

  /** The incomplete entries that survive: the last one, and the one before it, if they end the list. */
  function Survivors(current: uint16, s: seq<Entry>): seq<Entry> {
    var n := |s|;
    if n == 0 || !KindOf(current, s[n - 1]).Hold? then []
    else if n >= 2 && KindOf(current, s[n - 2]).Hold? then s[n - 2..]
    else s[n - 1..]
  }

  /** The number of the last sequenced packet delivered. */
  function LastUnreliable(current: uint16, s: seq<Entry>, before: uint16): uint16 {
    if s == [] then before
    else
      var e := s[|s| - 1];
      if KindOf(current, e).Deliver? && !e.unsequenced then e.unreliable else LastUnreliable(current, s[..|s| - 1], before)
  }

  /** What is left of `s`, of which only the entry `exclude` is spared. */
  function Only(s: seq<Entry>, exclude: int): seq<Entry> {
    if s == [] then [] else Only(s[..|s| - 1], exclude) + if s[|s| - 1].id == exclude then [s[|s| - 1]] else []
  }

  lemma {:induction false} RunDelivered(current: uint16, s: seq<Entry>, r: nat)
    requires r <= |s| && forall k | r <= k < |s| :: KindOf(current, s[k]).Deliver?
    ensures Deliverable(current, s) == Deliverable(current, s[..r]) + s[r..]
    ensures Undelivered(current, s) == Undelivered(current, s[..r])
  {
    hide KindOf;
    if r < |s| {
      var t := s[..|s| - 1];
      RunDelivered(current, t, r);
      assert t[..r] == s[..r] && s[r..] == t[r..] + [s[|s| - 1]];
    } else {
      assert s[..r] == s && s[r..] == [];
    }
  }

  /** What is kept aside while scanning, of which the part from `d` on is spared. */
  ghost predicate Aside(current: uint16, s: seq<Entry>, kept: seq<Entry>, d: nat) {
    && kept == Undelivered(current, s) && d <= |kept| && kept[d..] == Survivors(current, s)
  }

  lemma AsideHold(current: uint16, s: seq<Entry>, r: nat, kept: seq<Entry>, d: nat, e: Entry)
    requires r <= |s| && (forall k | r <= k < |s| :: KindOf(current, s[k]).Deliver?)
    requires Aside(current, s[..r], kept, d) && KindOf(current, e).Hold?
    ensures var d' := if r < |s| then |kept| else if d != |kept| then |kept| - 1 else d;
            Aside(current, s + [e], kept + [e], d')
  {
    hide KindOf;
    var t := s + [e];
    RunDelivered(current, s, r);
    assert t[..|s|] == s;
    var d' := if r < |s| then |kept| else if d != |kept| then |kept| - 1 else d;
    if r < |s| {
      assert KindOf(current, t[|t| - 2]).Deliver?;
      assert (kept + [e])[d'..] == [e] == t[|t| - 1..];
    } else {
      assert s[..r] == s;
      if d != |kept| {
        LastSurvivor(current, s, kept, d);
        assert (kept + [e])[d'..] == [kept[|kept| - 1], e];
        assert t[|t| - 2..] == [s[|s| - 1], e];
      } else {
        assert Survivors(current, s) == [];
        assert (kept + [e])[d'..] == [e] == t[|t| - 1..];
      }
    }
  }

  lemma LastSurvivor(current: uint16, s: seq<Entry>, kept: seq<Entry>, d: nat)
    requires Aside(current, s, kept, d) && d != |kept|
    ensures |s| > 0 && KindOf(current, s[|s| - 1]).Hold? && kept[|kept| - 1] == s[|s| - 1]
  {
    hide KindOf;
    var v := Survivors(current, s);
    assert kept[d..][|v| - 1] == kept[|kept| - 1];
  }

  lemma AsideStale(current: uint16, s: seq<Entry>, r: nat, kept: seq<Entry>, d: nat, e: Entry)
    requires r <= |s| && (forall k | r <= k < |s| :: KindOf(current, s[k]).Deliver?)
    requires Aside(current, s[..r], kept, d) && KindOf(current, e).Stale?
    ensures Aside(current, s + [e], kept + [e], |kept| + 1)
  {
    hide KindOf;
    RunDelivered(current, s, r);
    assert (s + [e])[..|s|] == s;
  }

  /** The scan has reached entry `p`; entries from `r` on are waiting to be moved together; `kept` are those
      passed over, and `moved` those delivered. */
  ghost predicate Scanning(c: uint16, s: seq<Entry>, p: nat, r: nat, kept: seq<Entry>, queue: seq<Entry>, moved: seq<Entry>,
                           dropped: nat)
  {
    && r <= p <= Scanned(c, s) && queue == kept + s[r..] && moved == Deliverable(c, s[..r])
    && (forall k | r <= k < p :: KindOf(c, s[k]).Deliver?)
    && Aside(c, s[..r], kept, dropped)
  }

  lemma ScanStart(c: uint16, s: seq<Entry>)
    ensures Scanning(c, s, 0, 0, [], s, [], 0)
  {
    hide KindOf;
    assert s[0..] == s && s[..0] == [];
  }

  lemma ScanDropped(c: uint16, s: seq<Entry>, p: nat, r: nat, kept: seq<Entry>, queue: seq<Entry>, moved: seq<Entry>, dropped: nat)
    requires Scanning(c, s, p, r, kept, queue, moved, dropped)
    ensures dropped <= |kept| && r <= p <= |s|
    ensures kept[|kept|..] == []
  {
  }

  lemma ScanAt(c: uint16, s: seq<Entry>, p: nat, r: nat, kept: seq<Entry>, queue: seq<Entry>, moved: seq<Entry>, dropped: nat)
    requires Scanning(c, s, p, r, kept, queue, moved, dropped)
    ensures |queue| == |kept| + |s| - r
    ensures p < |s| ==> queue[|kept| + p - r] == s[p] && (p < Scanned(c, s) <==> !KindOf(c, s[p]).Future?)
  {
    hide KindOf;
    if p < |s| {
      assert queue[|kept| + p - r] == s[r..][p - r];
    }
  }

  lemma ScanPast(c: uint16, s: seq<Entry>, p: nat, r: nat, kept: seq<Entry>, queue: seq<Entry>, moved: seq<Entry>, dropped: nat)
    requires Scanning(c, s, p, r, kept, queue, moved, dropped) && p < Scanned(c, s)
    requires KindOf(c, s[p]).Hold? || KindOf(c, s[p]).Stale?
    ensures |kept| + p - r < |queue|
    ensures var start, current := |kept|, |kept| + p - r;
            var dropped' := if KindOf(c, s[p]).Stale? then start + 1 else if start != current then start
                            else if dropped != current then current - 1 else dropped;
            Scanning(c, s, p + 1, p + 1, kept + [s[p]], queue[..start] + queue[current..], moved + queue[start..current], dropped')
  {
    hide KindOf, Scanned, Survivors, Undelivered, Deliverable;
    var start, current := |kept|, |kept| + p - r;
    var t, e := s[..p], s[p];
    assert t[..r] == s[..r] && t[r..] == s[r..p] == queue[start..current];
    assert s[..p + 1] == t + [e] && (t + [e])[..p] == t;
    assert forall k | r <= k < p :: t[k] == s[k];
    RunDelivered(c, t, r);
    if KindOf(c, e).Hold? {
      AsideHold(c, t, r, kept, dropped, e);
    } else {
      AsideStale(c, t, r, kept, dropped, e);
    }
    DeliverableStep(c, t, e);
    assert queue[..start] + queue[current..] == kept + [e] + s[p + 1..];
  }

  lemma DeliverableStep(c: uint16, t: seq<Entry>, e: Entry)
    ensures Deliverable(c, t + [e]) == Deliverable(c, t) + if KindOf(c, e).Deliver? then [e] else []
  {
    hide KindOf;
    assert (t + [e])[..|t|] == t;
  }

  lemma ScanEnd(c: uint16, s: seq<Entry>, p: nat, r: nat, kept: seq<Entry>, queue: seq<Entry>, moved: seq<Entry>, dropped: nat)
    requires Scanning(c, s, p, r, kept, queue, moved, dropped) && p == Scanned(c, s)
    ensures |kept| + p - r <= |queue|
    ensures var start, current := |kept|, |kept| + p - r;
            && moved + queue[start..current] == Deliverable(c, s[..p])
            && queue[..start] + queue[current..] == kept + s[p..]
            && (p > r ==> Survivors(c, s[..p]) == [])
            && kept == Undelivered(c, s[..p]) && (p == r ==> kept[dropped..] == Survivors(c, s[..p]))
  {
    hide Accepts, Scanned, Undelivered, Deliverable;
    var start, current := |kept|, |kept| + p - r;
    var t := s[..p];
    assert t[..r] == s[..r] && t[r..] == s[r..p] == queue[start..current];
    assert forall k | r <= k < p :: t[k] == s[k];
    RunDelivered(c, t, r);
  }

  lemma ScanOver(c: uint16, s: seq<Entry>, p: nat, r: nat, kept: seq<Entry>, queue: seq<Entry>, moved: seq<Entry>, dropped: nat)
    requires Scanning(c, s, p, r, kept, queue, moved, dropped) && p < Scanned(c, s) && KindOf(c, s[p]).Deliver?
    ensures Scanning(c, s, p + 1, r, kept, queue, moved, dropped)
  {
    hide KindOf;
  }

  lemma NothingLast(c: uint16, before: uint16)
    ensures LastUnreliable(c, [], before) == before
  {
  }

  lemma NoRun(queue: seq<Entry>, start: nat, dispatched: seq<Entry>)
    requires start <= |queue|
    ensures queue[..start] + queue[start..] == queue && dispatched + queue[start..start] == dispatched
  {
  }

  lemma Reached(c: uint16, s: seq<Entry>, p: nat, r: nat, kept: seq<Entry>, queue: seq<Entry>, moved: seq<Entry>, dropped: nat)
    requires Scanning(c, s, p, r, kept, queue, moved, dropped) && p <= |s| && (p == |s| || KindOf(c, s[p]).Future?)
    ensures p == Scanned(c, s)
  {
    hide KindOf;
  }

  lemma RestIs(c: uint16, s: seq<Entry>, p: nat, kept: seq<Entry>, dropped: nat, exclude: int)
    requires p == Scanned(c, s) && kept == Undelivered(c, s[..p]) && dropped <= |kept| && kept[dropped..] == Survivors(c, s[..p])
    ensures var q := kept + s[p..]; Only(q[..dropped], exclude) + q[dropped..] == Rest(c, s, exclude)
  {
    hide Only, Scanned, Survivors, Undelivered;
    var q, v := kept + s[p..], Survivors(c, s[..p]);
    assert |v| == |kept| - dropped;
    assert q[..dropped] == kept[..dropped] && q[dropped..] == v + s[p..];
  }

  lemma LastStep(c: uint16, s: seq<Entry>, p: nat, before: uint16)
    requires p < |s|
    ensures LastUnreliable(c, s[..p + 1], before) ==
            if KindOf(c, s[p]).Deliver? && !s[p].unsequenced then s[p].unreliable else LastUnreliable(c, s[..p], before)
  {
    hide KindOf;
    assert s[..p + 1][..p] == s[..p];
  }

  // ---------- The channel ----------

  /** What the dispatcher makes of a queue. */
  function Rest(current: uint16, s: seq<Entry>, exclude: int): seq<Entry> {
    var n := Scanned(current, s);
    var scanned := s[..n];
    var kept, v := Undelivered(current, scanned), Survivors(current, scanned);
    (if |v| <= |kept| then Only(kept[..|kept| - |v|], exclude) else []) + v + s[n..]
  }

  /** Where the scan is: see `Scanning`. */
  datatype Scan = Scan(r: nat, kept: seq<Entry>, moved: seq<Entry>)

  /** The first `n` entries of `s` have been looked at; those spared lie before position `i`. */
  ghost predicate Removing(s: seq<Entry>, queue: seq<Entry>, n: nat, i: nat, exclude: int) {
    n <= |s| && queue == Only(s[..n], exclude) + s[n..] && i == |Only(s[..n], exclude)|
  }

  lemma RemoveStep(s: seq<Entry>, queue: seq<Entry>, n: nat, i: nat, exclude: int)
    requires Removing(s, queue, n, i, exclude) && n < |s|
    ensures i < |queue| && queue[i] == s[n]
    ensures if s[n].id == exclude then Removing(s, queue, n + 1, i + 1, exclude)
            else Removing(s, queue[..i] + queue[i + 1..], n + 1, i, exclude)
  {
    assert s[..n + 1][..n] == s[..n] && s[n..] == [s[n]] + s[n + 1..];
    if s[n].id == exclude {
      assert queue == Only(s[..n + 1], exclude) + s[n + 1..];
    } else {
      assert queue[..i] + queue[i + 1..] == Only(s[..n], exclude) + s[n + 1..];
    }
  }

  lemma Appended(s: seq<Entry>, a: seq<Entry>, b: seq<Entry>)
    requires a <= b
    ensures s + a + b[|a|..] == s + b
  {
    assert b == a + b[|a|..];
  }

  lemma RemoveStart(s: seq<Entry>, exclude: int)
    ensures Removing(s, s, 0, 0, exclude)
  {
    assert s[..0] == [] && s[0..] == s;
  }

  lemma RemoveEnd(s: seq<Entry>, queue: seq<Entry>, n: nat, i: nat, exclude: int)
    requires Removing(s, queue, n, i, exclude)
    ensures n <= |s| && queue == Only(s[..n], exclude) + s[n..]
  {
  }
}
