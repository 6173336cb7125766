/**
 The unreliable queue against true numbers: what a pass of the dispatcher delivers and what it leaves.
 */
module UnreliableOrder {
  import opened Machine
  import opened SequenceWindows
  import opened Inbox
  import opened DispatchScan

  /** A channel whose last reliable number is `reliable`, and the unreliable number last delivered after it. */
  datatype Pending = Pending(reliable: nat, unreliable: uint16, queue: seq<Entry>) {

    /** Entry `e` is no further from `reliable` than wire numbers can tell. */
    ghost predicate Judged(e: Entry) {
      !e.unsequenced ==>
        && e.reliable == Wire(e.number) && e.unreliable >= 1 && e.fragmentsRemaining == Clear(e.fragments)
        && (if e.number < reliable then
              reliable <= e.number + 0x1_0000 && Window(reliable) <= Window(e.number) + WINDOWS - FREE_WINDOWS + 1
            else Window(e.number) < Window(reliable) + FREE_WINDOWS - 1)
        && (e.number == reliable ==> e.unreliable > unreliable)
    }

    /** What holds when the dispatcher is called. */
    ghost predicate Loose() {
      && Sorted(queue)
      && (forall k | 0 <= k < |queue| :: Judged(queue[k]))
      && (forall k | 1 <= k < |queue| :: !queue[k].unsequenced)
    }

    /** What holds when it is done: nothing deliverable is left, and nothing stale. */
    ghost predicate Valid() {
      && Sorted(queue)
      && (forall k | 0 <= k < |queue| :: Judged(queue[k]) && Waiting(queue[k]))
    }

    ghost predicate Waiting(e: Entry) {
      && !e.unsequenced && reliable <= e.number
      && (e.number == reliable ==> e.fragmentsRemaining > 0)
    }

    /** The entry just queued: if it is still incomplete, nothing else is deliverable. */
    ghost predicate Spared(exclude: int) {
      forall k | 0 <= k < |queue| && queue[k].id == exclude && !queue[k].unsequenced ::
        && reliable <= queue[k].number
        && (queue[k].fragmentsRemaining > 0 ==> forall j | 0 <= j < |queue| && !queue[j].unsequenced ::
              KindOf(Wire(reliable), queue[j]) != Deliver)
    }
  }

  ghost predicate Before(a: Entry, b: Entry) {
    a.number < b.number || (a.number == b.number && a.unreliable < b.unreliable)
  }

  /** Sequenced entries are in order of reliable, then unreliable, number. */
  ghost predicate Sorted(s: seq<Entry>) {
    forall p, q | 0 <= p < q < |s| && !s[p].unsequenced && !s[q].unsequenced :: Before(s[p], s[q])
  }

  lemma KindByNumber(p: Pending, e: Entry)
    requires p.Judged(e)
    ensures KindOf(Wire(p.reliable), e) ==
            if e.unsequenced then Deliver
            else if e.number == p.reliable then (if e.fragmentsRemaining == 0 then Deliver else Hold)
            else if e.number > p.reliable then Future else Stale
  {
    if !e.unsequenced {
      if e.number < p.reliable {
        OldNumber(p.reliable, e.number);
        if e.number + 0x1_0000 == p.reliable {
          WindowAfter(e.number);
        }
        WireDistinct(e.number, p.reliable);
      } else {
        WithinReach(p.reliable, e.number);
        NewNumber(p.reliable, e.number);
        WireDistinct(p.reliable, e.number);
      }
    }
  }

  lemma WindowAfter(n: nat)
    ensures Window(n + 0x1_0000) == Window(n) + WINDOWS
  {
    WireShift(n);
  }

  lemma WithinReach(r: nat, n: nat)
    requires Window(n) < Window(r) + FREE_WINDOWS - 1
    ensures n < r + 0x1_0000
  {
  }

  // ---------- What is delivered ----------

  /** The numbers of the sequenced packets of `s`. */
  ghost function Numbers(s: seq<Entry>): seq<(nat, uint16)> {
    if s == [] then []
    else Numbers(s[..|s| - 1]) + if s[|s| - 1].unsequenced then [] else [(s[|s| - 1].number, s[|s| - 1].unreliable)]
  }

  lemma NumbersStep(s: seq<Entry>, e: Entry)
    ensures Numbers(s + [e]) == if e.unsequenced then Numbers(s) else Numbers(s) + [(e.number, e.unreliable)]
  {
    assert (s + [e])[..|s|] == s;
    assert Numbers(s) + [] == Numbers(s);
  }

  lemma {:induction false} NumbersConcat(a: seq<Entry>, b: seq<Entry>)
    ensures Numbers(a + b) == Numbers(a) + Numbers(b)
  {
    if b == [] {
      assert a + b == a;
    } else {
      hide Numbers;
      var c, e := b[..|b| - 1], b[|b| - 1];
      NumbersConcat(a, c);
      assert b == c + [e] && a + b == a + c + [e];
      NumbersTwice(a, c, e);
    }
  }

  lemma NumbersTwice(a: seq<Entry>, c: seq<Entry>, e: Entry)
    requires Numbers(a + c) == Numbers(a) + Numbers(c)
    ensures Numbers(a + c + [e]) == Numbers(a) + Numbers(c + [e])
  {
    hide Numbers;
    NumbersStep(a + c, e);
    NumbersStep(c, e);
    if !e.unsequenced {
      var x := (e.number, e.unreliable);
      assert Numbers(a) + (Numbers(c) + [x]) == (Numbers(a) + Numbers(c)) + [x];
    }
  }

  /** All follow reliable number `r`; their unreliable numbers rise from above `low` to at most `high`. */
  ghost predicate Rising(h: seq<(nat, uint16)>, r: nat, low: uint16, high: uint16) {
    && (forall k | 0 <= k < |h| :: h[k].0 == r && low < h[k].1 <= high)
    && (forall j, k | 0 <= j < k < |h| :: h[j].1 < h[k].1)
  }

  lemma RisingStep(h: seq<(nat, uint16)>, r: nat, low: uint16, high: uint16, u: uint16)
    requires Rising(h, r, low, high) && low <= high < u
    ensures Rising(h + [(r, u)], r, low, u)
  {
  }

  lemma {:induction false} DeliveredRising(p: Pending, t: seq<Entry>)
    requires Sorted(t) && forall k | 0 <= k < |t| :: p.Judged(t[k])
    ensures var c := Wire(p.reliable); var last := LastUnreliable(c, t, p.unreliable);
            p.unreliable <= last && Rising(Numbers(Deliverable(c, t)), p.reliable, p.unreliable, last)
  {
    var c := Wire(p.reliable);
    if t != [] {
      hide KindOf, Window, Clear, Rising, Numbers, Sorted, Pending.Judged;
      var n := |t| - 1;
      var s, e := t[..n], t[n];
      SortedPrefix(t, n);
      DeliveredRising(p, s);
      KindByNumber(p, e);
      if KindOf(c, e).Deliver? {
        assert Deliverable(c, t) == Deliverable(c, s) + [e];
        NumbersStep(Deliverable(c, s), e);
        if !e.unsequenced {
          AboveLast(p, t);
          RisingStep(Numbers(Deliverable(c, s)), p.reliable, p.unreliable, LastUnreliable(c, s, p.unreliable), e.unreliable);
        }
      } else {
        assert Deliverable(c, t) == Deliverable(c, s);
      }
    }
  }

  lemma AboveLast(p: Pending, t: seq<Entry>)
    requires Sorted(t) && (forall k | 0 <= k < |t| :: p.Judged(t[k])) && |t| > 0
    requires var e := t[|t| - 1]; !e.unsequenced && e.number == p.reliable
    ensures t[|t| - 1].unreliable > LastUnreliable(Wire(p.reliable), t[..|t| - 1], p.unreliable)
  {
    hide KindOf, Window, Clear, LastUnreliable;
    var c, n := Wire(p.reliable), |t| - 1;
    var s, e := t[..n], t[n];
    var last := LastUnreliable(c, s, p.unreliable);
    LastIsThere(p, s);
    if last != p.unreliable {
      var k :| 0 <= k < |s| && KindOf(c, s[k]).Deliver? && !s[k].unsequenced && s[k].unreliable == last;
      assert s[k] == t[k];
      KindByNumber(p, t[k]);
      assert Before(t[k], e);
    }
  }

  /** The last unreliable number is the old one or that of a delivered entry. */
  lemma {:induction false} LastIsThere(p: Pending, t: seq<Entry>)
    ensures var c := Wire(p.reliable); var last := LastUnreliable(c, t, p.unreliable);
            last == p.unreliable ||
            exists k :: 0 <= k < |t| && KindOf(c, t[k]).Deliver? && !t[k].unsequenced && t[k].unreliable == last
  {
    hide KindOf;
    var c := Wire(p.reliable);
    if t != [] {
      var n := |t| - 1;
      if !(KindOf(c, t[n]).Deliver? && !t[n].unsequenced) {
        LastIsThere(p, t[..n]);
        assert forall k | 0 <= k < n :: t[..n][k] == t[k];
      }
    }
  }

  // ---------- What is left ----------

  lemma {:induction false} UndeliveredSorted(c: uint16, t: seq<Entry>, rest: seq<Entry>)
    requires Sorted(t + rest)
    ensures Sorted(Undelivered(c, t) + rest)
    ensures forall e | e in Undelivered(c, t) :: e in t && !KindOf(c, e).Deliver?
  {
    hide KindOf, Sorted;
    if t == [] {
      assert Undelivered(c, t) + rest == t + rest;
    } else {
      var n := |t| - 1;
      var s, e := t[..n], t[n];
      if KindOf(c, e).Deliver? {
        assert s + [e] + rest == t + rest && Undelivered(c, t) == Undelivered(c, s);
        SortedWithout(s, e, rest);
        UndeliveredSorted(c, s, rest);
      } else {
        assert s + ([e] + rest) == t + rest;
        UndeliveredSorted(c, s, [e] + rest);
        assert Undelivered(c, s) + ([e] + rest) == Undelivered(c, t) + rest;
      }
    }
  }

  lemma {:induction false} OnlySorted(s: seq<Entry>, exclude: int, rest: seq<Entry>)
    requires Sorted(s + rest)
    ensures Sorted(Only(s, exclude) + rest)
    ensures forall e | e in Only(s, exclude) :: e in s && e.id == exclude
  {
    hide Sorted;
    if s == [] {
      assert Only(s, exclude) + rest == s + rest;
    } else {
      var n := |s| - 1;
      var t, e := s[..n], s[n];
      if e.id == exclude {
        assert t + ([e] + rest) == s + rest;
        OnlySorted(t, exclude, [e] + rest);
        assert Only(t, exclude) + ([e] + rest) == Only(s, exclude) + rest;
      } else {
        assert t + [e] + rest == s + rest && Only(s, exclude) == Only(t, exclude);
        SortedWithout(t, e, rest);
        OnlySorted(t, exclude, rest);
      }
    }
  }

  lemma SortedWithout(s: seq<Entry>, e: Entry, rest: seq<Entry>)
    requires Sorted(s + [e] + rest)
    ensures Sorted(s + rest)
  {
    var a, b := s + [e] + rest, s + rest;
    assert forall k | 0 <= k < |b| :: b[k] == a[if k < |s| then k else k + 1];
  }

  lemma SurvivorsAre(c: uint16, t: seq<Entry>)
    ensures var v, n := Survivors(c, t), |t|;
            || v == []
            || (n >= 1 && KindOf(c, t[n - 1]).Hold? && v == [t[n - 1]])
            || (n >= 2 && KindOf(c, t[n - 1]).Hold? && KindOf(c, t[n - 2]).Hold? && v == [t[n - 2], t[n - 1]])
  {
    hide KindOf;
    var n := |t|;
    if n >= 2 {
      EndsWith(t, t[..n - 2], [t[n - 2], t[n - 1]]);
    }
    if n >= 1 {
      EndsWith(t, t[..n - 1], [t[n - 1]]);
    }
  }

  /** The survivors end what was not delivered. */
  lemma SurvivorsLast(c: uint16, t: seq<Entry>)
    ensures var kept, v := Undelivered(c, t), Survivors(c, t);
            |v| <= |kept| && kept[|kept| - |v|..] == v
  {
    hide KindOf, Undelivered, Survivors;
    var n, v := |t|, Survivors(c, t);
    SurvivorsAre(c, t);
    if v != [] {
      var s, e := t[..n - 1], t[n - 1];
      UndeliveredStep(c, s, e);
      assert t == s + [e];
      if |v| == 2 {
        var r, d := t[..n - 2], t[n - 2];
        UndeliveredStep(c, r, d);
        assert s == r + [d] && Undelivered(c, t) == Undelivered(c, r) + [d, e];
        EndsWith(Undelivered(c, t), Undelivered(c, r), v);
      } else {
        EndsWith(Undelivered(c, t), Undelivered(c, s), v);
      }
    }
  }

  lemma EndsWith(s: seq<Entry>, x: seq<Entry>, v: seq<Entry>)
    requires s == x + v
    ensures |s| == |x| + |v| && s[|s| - |v|..] == v && s[|x|..] == v
  {
  }

  lemma UndeliveredStep(c: uint16, t: seq<Entry>, e: Entry)
    requires KindOf(c, e).Hold?
    ensures Undelivered(c, t + [e]) == Undelivered(c, t) + [e]
  {
    hide KindOf;
    assert (t + [e])[..|t|] == t;
  }

  /** They come after everything delivered. */
  lemma SurvivorsAbove(p: Pending, t: seq<Entry>, e: Entry)
    requires Sorted(t) && (forall k | 0 <= k < |t| :: p.Judged(t[k])) && e in Survivors(Wire(p.reliable), t)
    ensures e.number == p.reliable && e.unreliable > LastUnreliable(Wire(p.reliable), t, p.unreliable)
  {
    hide KindOf, Window, Clear, Survivors, LastUnreliable;
    var c, n := Wire(p.reliable), |t|;
    var last := LastUnreliable(c, t, p.unreliable);
    SurvivorsAre(c, t);
    var m := if e == t[n - 1] then n - 1 else n - 2;
    assert e == t[m] && KindOf(c, e).Hold?;
    KindByNumber(p, e);
    LastIsThere(p, t);
    if last != p.unreliable {
      var k :| 0 <= k < |t| && KindOf(c, t[k]).Deliver? && !t[k].unsequenced && t[k].unreliable == last;
      KindByNumber(p, t[k]);
      assert k < m;
      assert Before(t[k], t[m]);
    }
  }

  /** After the first entry that must wait, all must. */
  lemma FutureOn(p: Pending, k: nat)
    requires p.Loose() && Scanned(Wire(p.reliable), p.queue) <= k < |p.queue|
    ensures p.reliable < p.queue[k].number && !p.queue[k].unsequenced
  {
    hide KindOf, Window, Clear;
    var n := Scanned(Wire(p.reliable), p.queue);
    KindByNumber(p, p.queue[n]);
    if n < k {
      assert Before(p.queue[n], p.queue[k]);
    }
  }

  /** One pass: the state it ends in. */
  ghost function Passed(p: Pending, exclude: int): Pending {
    var c := Wire(p.reliable);
    Pending(p.reliable, LastUnreliable(c, p.queue[..Scanned(c, p.queue)], p.unreliable), Rest(c, p.queue, exclude))
  }

  lemma PassSorted(p: Pending, exclude: int)
    requires p.Loose()
    ensures Sorted(Passed(p, exclude).queue)
    ensures var c := Wire(p.reliable); var n := Scanned(c, p.queue);
            forall e | e in Passed(p, exclude).queue ::
              e in p.queue[n..] || e in Survivors(c, p.queue[..n]) || (e in p.queue[..n] && !KindOf(c, e).Deliver? && e.id == exclude)
  {
    hide KindOf, Pending.Judged, Undelivered, Only, Survivors, Scanned;
    var c, s := Wire(p.reliable), p.queue;
    var n := Scanned(c, s);
    var t := s[..n];
    var kept, v := Undelivered(c, t), Survivors(c, t);
    assert t + s[n..] == s;
    UndeliveredSorted(c, t, s[n..]);
    SurvivorsLast(c, t);
    var first := kept[..|kept| - |v|];
    assert first + (v + s[n..]) == kept + s[n..];
    OnlySorted(first, exclude, v + s[n..]);
    assert Rest(c, s, exclude) == Only(first, exclude) + (v + s[n..]);
  }

  /** A pass leaves the channel with nothing deliverable and nothing stale. */
  lemma PassValid(p: Pending, exclude: int)
    requires p.Loose() && p.Spared(exclude)
    ensures Passed(p, exclude).Valid()
  {
    hide KindOf, Survivors, Rest, LastUnreliable, Scanned, Sorted, Window, Clear;
    var c, s, p' := Wire(p.reliable), p.queue, Passed(p, exclude);
    var n := Scanned(c, s);
    PassSorted(p, exclude);
    SortedPrefix(s, n);
    forall k | 0 <= k < |p'.queue| ensures p'.Judged(p'.queue[k]) && p'.Waiting(p'.queue[k]) {
      var e := p'.queue[k];
      assert e in p'.queue;
      PassEntry(p, exclude, e);
    }
  }

  lemma SortedPrefix(s: seq<Entry>, n: nat)
    requires Sorted(s) && n <= |s|
    ensures Sorted(s[..n])
  {
  }

  lemma PassEntry(p: Pending, exclude: int, e: Entry)
    requires p.Loose() && p.Spared(exclude) && Sorted(p.queue[..Scanned(Wire(p.reliable), p.queue)])
    requires var c := Wire(p.reliable); var n := Scanned(c, p.queue);
             e in p.queue[n..] || e in Survivors(c, p.queue[..n]) || (e in p.queue[..n] && !KindOf(c, e).Deliver? && e.id == exclude)
    ensures Passed(p, exclude).Judged(e) && Passed(p, exclude).Waiting(e)
  {
    hide Survivors, Rest, Sorted, Window, Clear, KindOf, LastUnreliable;
    var c, s := Wire(p.reliable), p.queue;
    var n := Scanned(c, s);
    if e in s[n..] {
      var k :| n <= k < |s| && s[k] == e;
      FutureOn(p, k);
    } else if e in Survivors(c, s[..n]) {
      SurvivorsAre(c, s[..n]);
      KindByNumber(p, e);
      SurvivorsAbove(p, s[..n], e);
    } else {
      var k :| 0 <= k < n && s[k] == e;
      KindByNumber(p, e);
      LastIsThere(p, s[..n]);
      assert forall j | 0 <= j < n :: s[..n][j] == s[j];
    }
  }
}
