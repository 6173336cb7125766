/**
 What the contexts of the statistical model hold, in terms of the data alone: which of them learn a byte, how often,
 when they are halved and when all are thrown away; and from that the slots of a byte string.
 */
module LearnedContexts {
  import opened Machine
  import opened ArithmeticCoder
  import opened ContextModel

  // ---------- The strings of the data ----------

  /** `s` stands in `d` at `q`. */
  predicate OccursAt(d: seq<uint8>, s: seq<uint8>, q: nat) {
    q + |s| <= |d| && d[q..q + |s|] == s
  }

  /** The end of `d` of `l` bytes, if there is one. */
  function Ending(d: seq<uint8>, l: nat): set<seq<uint8>> {
    if l <= |d| then {d[|d| - l..]} else {}
  }

  function Endings(d: seq<uint8>): set<seq<uint8>> {
    Ending(d, 1) + Ending(d, 2) + Ending(d, 3)
  }

  lemma EndingIs(d: seq<uint8>, l: nat, s: seq<uint8>)
    ensures s in Ending(d, l) ==> |s| == l
    ensures |s| == l ==> (s in Ending(d, l) <==> l <= |d| && s == d[|d| - l..])
  {
  }

  lemma EndingsAre(d: seq<uint8>, s: seq<uint8>)
    ensures s in Endings(d) <==> 1 <= |s| <= 3 && |s| <= |d| && s == d[|d| - |s|..]
  {
    hide Ending;
    EndingIs(d, 1, s);
    EndingIs(d, 2, s);
    EndingIs(d, 3, s);
    EndingIs(d, |s|, s);
  }

  /** The strings of one to three bytes that occur in `d`. */
  ghost function Strings(d: seq<uint8>): set<seq<uint8>> {
    if d == [] then {} else Strings(d[..|d| - 1]) + Endings(d)
  }

  lemma {:induction false} StringsOccur(d: seq<uint8>, s: seq<uint8>)
    ensures s in Strings(d) <==> 1 <= |s| <= 3 && exists q: nat :: OccursAt(d, s, q)
  {
    hide OccursAt, Endings;
    if d == [] {
      assert forall q: nat :: OccursAt(d, s, q) ==> |s| == 0 by {
        NothingAt(s);
      }
    } else {
      var d0 := d[..|d| - 1];
      StringsOccur(d0, s);
      forall q: nat | OccursAt(d0, s, q) ensures OccursAt(d, s, q) {
        OccursLonger(d, s, q);
      }
      if s in Endings(d) {
        EndingOccurs(d, s);
      }
      if 1 <= |s| <= 3 && exists q: nat :: OccursAt(d, s, q) {
        OccurrenceFound(d, d0, s);
      }
    }
  }

  lemma NothingAt(s: seq<uint8>)
    ensures forall q: nat :: OccursAt([], s, q) ==> |s| == 0
  {
  }

  lemma OccursLonger(d: seq<uint8>, s: seq<uint8>, q: nat)
    requires d != [] && OccursAt(d[..|d| - 1], s, q)
    ensures OccursAt(d, s, q)
  {
    assert d[q..q + |s|] == d[..|d| - 1][q..q + |s|];
  }

  lemma EndingOccurs(d: seq<uint8>, s: seq<uint8>)
    requires d != [] && s in Endings(d)
    ensures 1 <= |s| <= 3 && exists q: nat :: OccursAt(d, s, q)
  {
    EndingsAre(d, s);
    assert OccursAt(d, s, |d| - |s|);
  }

  lemma {:induction false} OccurrenceFound(d: seq<uint8>, d0: seq<uint8>, s: seq<uint8>)
    requires d != [] && d0 == d[..|d| - 1] && 1 <= |s| <= 3 && exists q: nat :: OccursAt(d, s, q)
    ensures s in Endings(d) || exists q: nat :: OccursAt(d0, s, q)
  {
    var q: nat :| OccursAt(d, s, q);
    if q + |s| <= |d0| {
      assert d[q..q + |s|] == d0[q..q + |s|];
      assert OccursAt(d0, s, q);
    } else {
      assert q == |d| - |s| && s == d[|d| - |s|..];
      EndingsAre(d, s);
    }
  }

  /** With a string its ends occur. */
  lemma {:induction false} StringsClosed(d: seq<uint8>, s: seq<uint8>)
    requires s in Strings(d) && |s| > 1
    ensures s[1..] in Strings(d)
  {
    hide Endings;
    var d0 := d[..|d| - 1];
    if s in Strings(d0) {
      StringsClosed(d0, s);
    } else {
      EndingsAre(d, s);
      EndingsAre(d, s[1..]);
    }
  }

  /** The last two bytes, or all there are. */
  function LastTwo(d: seq<uint8>): Key {
    if |d| < 2 then d else d[|d| - 2..]
  }

  lemma LastTwoShort(d: seq<uint8>)
    ensures |LastTwo(d)| == if |d| < 2 then |d| else 2
  {
  }

  /** Of the last bytes, fewer are the end of more. */
  lemma LastOf(d: seq<uint8>, v: uint8, l: nat)
    requires l <= |LastTwo(d)|
    ensures (d + [v])[|d| - l..] == LastTwo(d)[|LastTwo(d)| - l..] + [v]
  {
    var d', h := d + [v], LastTwo(d);
    assert d'[|d| - l..] == d[|d| - l..] + [v];
    assert d[|d| - |h|..] == h;
    assert d[|d| - l..] == h[|h| - l..];
  }

  /** The strings that end in one more byte: it, with the last byte before it, and with the last two. */
  lemma {:induction false} StringsStep(d: seq<uint8>, v: uint8, s: seq<uint8>)
    ensures s in Strings(d + [v]) <==> s in Strings(d) || s in Newest(LastTwo(d), v)
  {
    var d', h := d + [v], LastTwo(d);
    assert d'[..|d|] == d;
    EndingsAre(d', s);
    NewestAre(d, v, s);
    hide Endings, Newest, LastTwo;
    assert Strings(d') == Strings(d) + Endings(d');
  }

  function Newest(h: Key, v: uint8): set<seq<uint8>> {
    {[v]} + (if |h| >= 1 then {h[|h| - 1..] + [v]} else {}) + (if |h| == 2 then {h + [v]} else {})
  }

  lemma NewestAre(d: seq<uint8>, v: uint8, s: seq<uint8>)
    ensures var d' := d + [v];
            s in Newest(LastTwo(d), v) <==> 1 <= |s| <= 3 && |s| <= |d'| && s == d'[|d'| - |s|..]
  {
    hide LastTwo, Newest;
    var h := LastTwo(d);
    LastTwoShort(d);
    if s == [] {
      NewestSome(h, v);
    } else {
      var l := |s| - 1;
      var w, u := s[..l], s[l];
      assert s == w + [u];
      NewestString(h, w, v, u);
      if l <= |h| {
        LastOf(d, v, l);
        SameSnoc(w, u, h[|h| - l..], v);
      }
    }
  }

  lemma NewestSome(h: Key, v: uint8)
    ensures [] !in Newest(h, v)
  {
  }

  lemma SameSnoc(w: seq<uint8>, u: uint8, x: seq<uint8>, v: uint8)
    ensures w + [u] == x + [v] <==> w == x && u == v
  {
    if w + [u] == x + [v] {
      assert w == (w + [u])[..|w|] == x && u == (w + [u])[|w|] == v;
    }
  }

  // ---------- Which contexts learn a byte ----------

  /** The context of `w` learns the byte `v` after `d`: that of the last two bytes does, and that of fewer does if `v` has
      not followed one byte more of them before. */
  ghost predicate Takes(d: seq<uint8>, w: Key, v: uint8) {
    var h := LastTwo(d);
    w == h || (|w| < |h| && w == h[|h| - |w|..] && h[|h| - |w| - 1..] + [v] !in Strings(d))
  }

  /** The bytes that the context of `w` learns from `d`, in order. */
  ghost function Learned(d: seq<uint8>, w: Key): seq<uint8> {
    if d == [] then []
    else
      var d0, v := d[..|d| - 1], d[|d| - 1];
      Learned(d0, w) + if Takes(d0, w, v) then [v] else []
  }

  /** What a context makes of the bytes it learns. */
  ghost function Touched(root: bool, bytes: seq<uint8>): Context {
    if bytes == [] then (if root then FreshRoot() else FreshContext())
    else Touched(root, bytes[..|bytes| - 1]).Touch(bytes[|bytes| - 1], root)
  }

  // ---------- The model after some data ----------

  function After(m: Model, d: seq<uint8>): Model {
    if d == [] then m else After(m, d[..|d| - 1]).Next(d[|d| - 1])
  }

  /** What the model remembers of the data: all since the pool was last emptied, which happens when 4093 strings of up to
      three bytes have occurred. */
  ghost function Since(d: seq<uint8>): seq<uint8> {
    if d == [] then []
    else
      var s := Since(d[..|d| - 1]) + [d[|d| - 1]];
      if |Strings(s)| >= 4093 then [] else s
  }

  /** The context of `w` in a model that has learned `d`. */
  ghost predicate Holds(cs: Contexts, d: seq<uint8>, w: Key) {
    && At(cs, w) == Touched(w == [], Learned(d, w))
    && forall v: uint8 :: At(cs, w).counts[v] > 0 <==> w + [v] in Strings(d)
  }

  /** The model is what the data `d` make of an empty one. */
  ghost predicate Remembers(m: Model, d: seq<uint8>) {
    && m.Healthy() && m.history == LastTwo(d) && m.used == 1 + |Strings(d)|
    && (forall w: Key | |w| <= 2 :: Holds(m.contexts, d, w))
  }

  /** What learning does to each context. */
  lemma {:induction false} LearnAt(cs: Contexts, h: Key, v: uint8, x: Key)
    ensures At(Learn(cs, h, v), x) == if Escaping(cs, h, x, v) then At(cs, x).Touch(v, x == []) else At(cs, x)
    decreases |h|
  {
    hide Context.Touch;
    if h != [] && At(cs, h).counts[v] == 0 {
      var cs1 := cs[h := At(cs, h).Touch(v, false)];
      LearnAt(cs1, h[1..], v, x);
      EscapingShorter(cs, cs1, h, x, v);
    } else if Escaping(cs, h, x, v) {
      assert h == x;
    }
  }

  lemma {:induction false} EscapingShorter(cs: Contexts, cs1: Contexts, h: Key, x: Key, v: uint8)
    requires h != [] && At(cs, h).counts[v] == 0 && forall y: Key | |y| < |h| :: At(cs1, y) == At(cs, y)
    ensures h != x ==> (Escaping(cs, h, x, v) <==> Escaping(cs1, h[1..], x, v))
    ensures h == x ==> !Escaping(cs1, h[1..], x, v)
  {
    if h != x {
      EscapingSame(cs, cs1, h[1..], x, v);
    }
  }

  lemma {:induction false} EscapingSame(cs: Contexts, cs1: Contexts, h: Key, x: Key, v: uint8)
    requires forall y: Key | |y| <= |h| :: At(cs1, y) == At(cs, y)
    ensures Escaping(cs, h, x, v) <==> Escaping(cs1, h, x, v)
    decreases |h|
  {
    if h != x && |h| > |x| {
      EscapingSame(cs, cs1, h[1..], x, v);
    }
  }

  lemma {:induction false} EscapingOne(cs: Contexts, h: Key, x: Key, v: uint8)
    requires |h| == 1
    ensures Escaping(cs, h, x, v) <==> x == h || (x == [] && At(cs, h).counts[v] == 0)
  {
    assert h[1..] == [];
    assert Escaping(cs, [], x, v) <==> x == [];
  }

  lemma {:induction false} EscapingTwo(cs: Contexts, h: Key, x: Key, v: uint8)
    requires |h| == 2
    ensures Escaping(cs, h, x, v) <==>
            x == h || (x == h[1..] && At(cs, h).counts[v] == 0)
            || (x == [] && At(cs, h).counts[v] == 0 && At(cs, h[1..]).counts[v] == 0)
  {
    EscapingOne(cs, h[1..], x, v);
  }

  /** The contexts that learn a byte are those that take it. */
  lemma {:induction false} TakesEscaping(cs: Contexts, d: seq<uint8>, x: Key, v: uint8)
    requires forall w: Key | |w| <= 2 :: Holds(cs, d, w)
    ensures Escaping(cs, LastTwo(d), x, v) <==> Takes(d, x, v)
  {
    hide Strings, Learned, Touched;
    var h := LastTwo(d);
    assert Holds(cs, d, h);
    if |h| == 2 {
      assert Holds(cs, d, h[1..]) && h[2..] == [] && h[0..] == h;
      if h + [v] in Strings(d) {
        StringsClosed(d, h + [v]);
        assert (h + [v])[1..] == h[1..] + [v];
      }
      EscapingTwo(cs, h, x, v);
    } else if |h| == 1 {
      assert h[1..] == [] && h[0..] == h;
      EscapingOne(cs, h, x, v);
    }
  }

  lemma AddOne(s: set<seq<uint8>>, a: seq<uint8>)
    ensures |s + {a}| == |s| + if a in s then 0 else 1
  {
    if a in s {
      assert s + {a} == s;
    }
  }

  /** As many symbols are created as new strings occur. */
  lemma {:induction false} CreatedNew(cs: Contexts, d: seq<uint8>, v: uint8)
    requires forall w: Key | |w| <= 2 :: Holds(cs, d, w)
    ensures |Strings(d + [v])| == |Strings(d)| + Created(cs, LastTwo(d), v)
  {
    hide Strings, Holds, Created, LastTwo, Newest;
    var h := LastTwo(d);
    LastTwoShort(d);
    forall s ensures s in Strings(d + [v]) <==> s in Strings(d) + Newest(h, v) {
      StringsStep(d, v, s);
    }
    assert Strings(d + [v]) == Strings(d) + Newest(h, v);
    NewestCreated(cs, d, h, v);
  }

  lemma {:induction false} NewestCreated(cs: Contexts, d: seq<uint8>, h: Key, v: uint8)
    requires (forall w: Key | |w| <= 2 :: Holds(cs, d, w)) && |h| <= 2
    ensures |Strings(d) + Newest(h, v)| == |Strings(d)| + Created(cs, h, v)
    decreases |h|
  {
    hide Strings, Holds, Created, Newest;
    var s, all := Strings(d), Newest(h, v);
    assert Holds(cs, d, h);
    CreatedAt(cs, d, v, h);
    if h == [] {
      NewestFirst(v);
      assert [] + [v] == [v];
      AddOne(s, [v]);
    } else {
      var b := h[1..];
      NewestCreated(cs, d, b, v);
      NewestMore(h, v);
      NewestShort(b, v);
      AddOne(s + Newest(b, v), h + [v]);
      assert s + all == s + Newest(b, v) + {h + [v]};
      ClosedAll(d, h, v);
      assert h + [v] in s ==> s + Newest(b, v) == s;
      assert |h + [v]| > |b| + 1;
    }
  }

  lemma NewestFirst(v: uint8)
    ensures Newest([], v) == {[v]}
  {
  }

  lemma NewestMore(h: Key, v: uint8)
    requires 1 <= |h| <= 2
    ensures Newest(h, v) == Newest(h[1..], v) + {h + [v]}
  {
    if |h| == 2 {
      assert h[1..] == h[1..][0..];
    } else {
      assert h[0..] == h;
    }
  }

  lemma NewestShort(h: Key, v: uint8)
    requires |h| <= 2
    ensures forall x <- Newest(h, v) :: |x| <= |h| + 1
  {
  }

  /** No new string in the context of `h`, and there is none in a shorter one. */
  lemma {:induction false} ClosedAll(d: seq<uint8>, h: Key, v: uint8)
    requires 1 <= |h| <= 2
    ensures h + [v] in Strings(d) ==> Newest(h[1..], v) <= Strings(d)
    decreases |h|
  {
    hide Strings, Newest;
    if h + [v] in Strings(d) {
      var b := h[1..];
      ClosedAt(d, h, v);
      if |h| == 2 {
        ClosedAll(d, b, v);
        NewestMore(b, v);
      } else {
        NewestFirst(v);
        assert b == [] && [] + [v] == [v];
      }
    }
  }

  lemma {:induction false} CreatedAt(cs: Contexts, d: seq<uint8>, v: uint8, w: Key)
    requires Holds(cs, d, w)
    ensures Created(cs, w, v) == if w + [v] in Strings(d) then 0 else 1 + if w == [] then 0 else Created(cs, w[1..], v)
  {
  }

  lemma {:induction false} ClosedAt(d: seq<uint8>, w: Key, v: uint8)
    requires 1 <= |w|
    ensures w + [v] in Strings(d) ==> w[1..] + [v] in Strings(d)
  {
    hide Strings;
    if w + [v] in Strings(d) {
      StringsClosed(d, w + [v]);
      assert (w + [v])[1..] == w[1..] + [v];
    }
  }

  lemma {:induction false} EmptyRemembers()
    ensures Remembers(Empty(), [])
  {
    hide Context.Touch;
    EmptyHealthy();
    forall w: Key | |w| <= 2 ensures Holds(Empty().contexts, [], w) {
    }
  }

  /** What is remembered of a context after one more byte. */
  lemma {:induction false} LearnHolds(cs: Contexts, d: seq<uint8>, v: uint8, w: Key)
    requires AllHealthy(cs) && (forall x: Key | |x| <= 2 :: Holds(cs, d, x)) && |w| <= 2
    ensures Holds(Learn(cs, LastTwo(d), v), d + [v], w)
  {
    hide Strings, Context.Touch, Learn, Context.Healthy, Escaping, Takes, Learned, Touched;
    var ctx, root := At(cs, w), w == [];
    LearnAt(cs, LastTwo(d), v, w);
    TakesEscaping(cs, d, w, v);
    assert Holds(cs, d, w);
    LearnedStep(d, w, v);
    AtHealthy(cs, w);
    TouchHealthy(ctx, v, root);
    TouchedStep(root, Learned(d, w), v);
    forall u: uint8 ensures w + [u] in Strings(d + [v]) <==> w + [u] in Strings(d) || (Takes(d, w, v) && u == v) {
      NewString(d, w, v, u);
    }
  }

  lemma {:induction false} LearnedStep(d: seq<uint8>, w: Key, v: uint8)
    ensures Learned(d + [v], w) == if Takes(d, w, v) then Learned(d, w) + [v] else Learned(d, w)
  {
    assert (d + [v])[..|d|] == d;
  }

  lemma {:induction false} TouchedStep(root: bool, bytes: seq<uint8>, v: uint8)
    ensures Touched(root, bytes + [v]) == Touched(root, bytes).Touch(v, root)
  {
    assert (bytes + [v])[..|bytes|] == bytes;
  }

  /** What occurs for the first time is what a context that takes the byte makes of it. */
  lemma {:induction false} NewString(d: seq<uint8>, w: Key, v: uint8, u: uint8)
    requires |w| <= 2
    ensures w + [u] in Strings(d + [v]) <==> w + [u] in Strings(d) || (Takes(d, w, v) && u == v)
  {
    hide Strings, Newest, Takes;
    StringsStep(d, v, w + [u]);
    NewestString(LastTwo(d), w, v, u);
    TakesNewest(d, w, v);
  }

  lemma {:induction false} NewestString(h: Key, w: Key, v: uint8, u: uint8)
    requires |h| <= 2
    ensures w + [u] in Newest(h, v) <==> u == v && |w| <= |h| && w == h[|h| - |w|..]
    decreases |h|
  {
    hide Newest;
    assert (w + [u])[..|w|] == w && (w + [u])[|w|] == u;
    if h == [] {
      NewestFirst(v);
      assert w == [] ==> w + [u] == [u];
    } else {
      NewestMore(h, v);
      NewestString(h[1..], w, v, u);
      assert (h + [v])[..|h|] == h && (h + [v])[|h|] == v;
      if |w| < |h| {
        assert h[1..][|h| - 1 - |w|..] == h[|h| - |w|..];
      }
    }
  }

  lemma {:induction false} TakesNewest(d: seq<uint8>, w: Key, v: uint8)
    requires |w| <= 2
    ensures var h := LastTwo(d);
            && (|w| <= |h| && w == h[|h| - |w|..] ==> Takes(d, w, v) || w + [v] in Strings(d))
            && (Takes(d, w, v) ==> |w| <= |h| && w == h[|h| - |w|..])
  {
    hide Strings, LastTwo;
    var h := LastTwo(d);
    assert h[0..] == h;
    if |w| == |h| {
    } else if |w| < |h| && w == h[|h| - |w|..] {
      var x := h[|h| - |w| - 1..];
      assert x[1..] == w;
      ClosedAt(d, x, v);
    }
  }

  lemma {:induction false} NextRemembers(m: Model, d: seq<uint8>, v: uint8)
    requires Remembers(m, d)
    ensures Remembers(m.Next(v), if |Strings(d + [v])| >= 4093 then [] else d + [v])
  {
    hide Strings, Learn, Created, Holds, Model.Healthy, Context.Healthy, LastTwo, Model.NextHistory;
    CreatedNew(m.contexts, d, v);
    if |Strings(d + [v])| >= 4093 {
      EmptyRemembers();
    } else {
      NextHealthy(m, v);
      assert AllHealthy(m.contexts) by {
        HealthyContexts(m);
      }
      NextTwo(m, d, v);
      forall w: Key | |w| <= 2 ensures Holds(m.Next(v).contexts, d + [v], w) {
        LearnHolds(m.contexts, d, v, w);
      }
    }
  }

  lemma NextTwo(m: Model, d: seq<uint8>, v: uint8)
    requires m.history == LastTwo(d)
    ensures m.NextHistory(v) == LastTwo(d + [v])
  {
    var h := LastTwo(d);
    LastTwoShort(d);
    if |h| == 2 {
      LastOf(d, v, 1);
      assert h[1..] == h[|h| - 1..];
    }
  }

  lemma HealthyContexts(m: Model)
    requires m.Healthy()
    ensures AllHealthy(m.contexts)
  {
  }

  /** The model after any data: what it remembers since the pool was last emptied. */
  lemma {:induction false} AfterRemembers(d: seq<uint8>)
    ensures Remembers(After(Empty(), d), Since(d))
  {
    hide Remembers, Strings, Model.Next;
    if d == [] {
      EmptyRemembers();
    } else {
      var d0, v := d[..|d| - 1], d[|d| - 1];
      AfterRemembers(d0);
      NextRemembers(After(Empty(), d0), Since(d0), v);
    }
  }

  // ---------- When a context learns ----------

  /** The positions of `d` at which the context of `w` learns the byte `v`. */
  ghost function Positions(d: seq<uint8>, w: Key, v: uint8): set<nat> {
    set p: nat | p < |d| && d[p] == v && Takes(d[..p], w, v)
  }

  /** `s`, which stands in `d` at `q`, stands there for the first time. */
  ghost predicate First(d: seq<uint8>, s: seq<uint8>, q: nat) {
    forall q': nat | OccursAt(d, s, q') :: q <= q'
  }

  /** The `k` bytes of `d` before position `p`. */
  ghost function Behind(d: seq<uint8>, p: nat, k: nat): seq<uint8>
    requires k <= p <= |d|
  {
    d[p - k..p]
  }

  /** The last `k` bytes of `h`. */
  ghost function Tail(h: Key, k: nat): Key
    requires k <= |h|
  {
    h[|h| - k..]
  }

  /** The context of `w` learns the byte behind `w`; that of fewer than two bytes only at the start of the data, or if the
      string one byte longer stands there for the first time. */
  lemma {:induction false} LearnedWhere(d: seq<uint8>, w: Key, v: uint8, p: nat)
    requires |w| <= 2
    ensures p in Positions(d, w, v) <==>
            && |w| <= p < |d| && OccursAt(d, w + [v], p - |w|)
            && (|w| == 2 || p == |w| || First(d, d[p - |w| - 1..p + 1], p - |w| - 1))
  {
    hide Strings, First, OccursAt, LastTwo, Takes, Behind;
    if p < |d| {
      TakesBehind(d, w, p, v);
      if |w| <= p {
        BehindKey(d, w, v, p);
        if |w| < 2 && |w| < p {
          NewBefore(d, p, |w| + 1);
        }
      }
    }
  }

  /** Whether the context takes the byte at `p`, by what stands before it. */
  lemma {:induction false} TakesBehind(d: seq<uint8>, w: Key, p: nat, v: uint8)
    requires |w| <= 2 && p < |d|
    ensures Takes(d[..p], w, v) <==>
            && |w| <= p && Behind(d, p, |w|) == w
            && (|w| == 2 || p == |w| || Behind(d, p, |w| + 1) + [v] !in Strings(d[..p]))
  {
    hide Strings, LastTwo, Takes, Behind, Tail;
    var e := d[..p];
    BehindLength(d, p);
    TakesLength(e, w, v);
    if |w| <= |LastTwo(e)| {
      BehindLast(d, p, |w|);
      if |w| < |LastTwo(e)| {
        BehindLast(d, p, |w| + 1);
      }
    }
  }

  lemma TakesLength(e: seq<uint8>, w: Key, v: uint8)
    ensures var h := LastTwo(e);
            Takes(e, w, v) <==>
            |w| <= |h| && w == Tail(h, |w|) && (|w| < |h| ==> Tail(h, |w| + 1) + [v] !in Strings(e))
  {
    hide Strings, LastTwo;
    var h := LastTwo(e);
    if |w| == |h| {
      assert h[0..] == h;
    }
  }

  lemma BehindLength(d: seq<uint8>, p: nat)
    requires p <= |d|
    ensures |LastTwo(d[..p])| == if p < 2 then p else 2
  {
  }

  lemma BehindLast(d: seq<uint8>, p: nat, k: nat)
    requires k <= p <= |d| && k <= 2
    ensures k <= |LastTwo(d[..p])| && Tail(LastTwo(d[..p]), k) == Behind(d, p, k)
  {
    var e := d[..p];
    LastTwoTail(e);
    BehindLength(d, p);
    hide LastTwo;
    TailOfTail(e, LastTwo(e), k);
    assert e[p - k..] == Behind(d, p, k);
  }

  lemma LastTwoTail(e: seq<uint8>)
    ensures |LastTwo(e)| <= |e| && LastTwo(e) == e[|e| - |LastTwo(e)|..]
  {
    if |e| < 2 {
      assert e[0..] == e;
    }
  }

  lemma TailOfTail(e: seq<uint8>, h: Key, k: nat)
    requires k <= |h| <= |e| && h == e[|e| - |h|..]
    ensures Tail(h, k) == e[|e| - k..]
  {
  }

  lemma {:induction false} NewBefore(d: seq<uint8>, p: nat, n: nat)
    requires 1 <= n <= 2 && n <= p < |d|
    ensures Behind(d, p, n) + [d[p]] !in Strings(d[..p]) <==> First(d, d[p - n..p + 1], p - n)
  {
    hide Strings, First;
    var x := d[p - n..p + 1];
    assert Behind(d, p, n) + [d[p]] == x;
    StringsOccur(d[..p], x);
    FirstBefore(d, x, p);
  }

  lemma BehindKey(d: seq<uint8>, w: Key, v: uint8, p: nat)
    requires |w| <= p < |d|
    ensures OccursAt(d, w + [v], p - |w|) <==> Behind(d, p, |w|) == w && d[p] == v
  {
    var s := d[p - |w|..p - |w| + |w + [v]|];
    assert s == Behind(d, p, |w|) + [d[p]];
    SameSnoc(Behind(d, p, |w|), d[p], w, v);
  }

  lemma FirstBefore(d: seq<uint8>, s: seq<uint8>, p: nat)
    requires 1 <= |s| <= p + 1 <= |d|
    ensures First(d, s, p + 1 - |s|) <==> forall q: nat :: !OccursAt(d[..p], s, q)
  {
    forall q: nat ensures OccursAt(d[..p], s, q) <==> OccursAt(d, s, q) && q < p + 1 - |s| {
      if q + |s| <= p {
        assert d[..p][q..q + |s|] == d[q..q + |s|];
      }
    }
  }

  // ---------- How much a context has learned ----------

  ghost function Seen(bytes: seq<uint8>, v: uint8): nat {
    if bytes == [] then 0
    else Seen(bytes[..|bytes| - 1], v) + if bytes[|bytes| - 1] == v then 1 else 0
  }

  /** How many are less than `v`. */
  ghost function Below(bytes: seq<uint8>, v: nat): nat {
    if bytes == [] then 0
    else Below(bytes[..|bytes| - 1], v) + if bytes[|bytes| - 1] < v then 1 else 0
  }

  ghost function Kinds(bytes: seq<uint8>): set<uint8> {
    set v | v in bytes
  }

  lemma {:induction false} LearnedTimes(d: seq<uint8>, w: Key, v: uint8)
    ensures Seen(Learned(d, w), v) == |Positions(d, w, v)|
  {
    hide Takes, Positions;
    if d == [] {
      assert Positions(d, w, v) == {} by {
        PositionsNone(w, v);
      }
    } else {
      var n := |d| - 1;
      var d0 := d[..n];
      assert d == d0 + [d[n]];
      LearnedTimes(d0, w, v);
      LearnedStep(d0, w, d[n]);
      SeenStep(Learned(d0, w), d[n], v);
      PositionsStep(d0, w, d[n], v);
    }
  }

  lemma PositionsNone(w: Key, v: uint8)
    ensures Positions([], w, v) == {}
  {
  }

  lemma {:induction false} PositionsStep(d: seq<uint8>, w: Key, b: uint8, v: uint8)
    ensures |Positions(d + [b], w, v)| == |Positions(d, w, v)| + if Takes(d, w, b) && b == v then 1 else 0
  {
    hide Takes;
    var d', n := d + [b], |d|;
    assert d'[..n] == d;
    forall p: nat ensures p in Positions(d', w, v) <==> p in Positions(d, w, v) || (p == n && Takes(d, w, b) && b == v) {
      if p < n {
        assert d'[..p] == d[..p];
      }
    }
    if Takes(d, w, b) && b == v {
      assert Positions(d', w, v) == Positions(d, w, v) + {n};
    } else {
      assert Positions(d', w, v) == Positions(d, w, v);
    }
  }

  lemma SeenStep(bytes: seq<uint8>, b: uint8, v: uint8)
    ensures Seen(bytes + [b], v) == Seen(bytes, v) + if b == v then 1 else 0
  {
    assert (bytes + [b])[..|bytes|] == bytes;
  }

  lemma BelowStep(bytes: seq<uint8>, b: uint8, v: nat)
    ensures Below(bytes + [b], v) == Below(bytes, v) + if b < v then 1 else 0
  {
    assert (bytes + [b])[..|bytes|] == bytes;
  }

  lemma {:induction false} SeenSome(bytes: seq<uint8>, v: uint8)
    ensures Seen(bytes, v) > 0 <==> v in bytes
  {
    if bytes != [] {
      SeenSome(bytes[..|bytes| - 1], v);
      assert bytes == bytes[..|bytes| - 1] + [bytes[|bytes| - 1]];
    }
  }

  lemma {:induction false} BelowAll(bytes: seq<uint8>)
    ensures Below(bytes, 256) == |bytes|
  {
    if bytes != [] {
      BelowAll(bytes[..|bytes| - 1]);
    }
  }

  lemma KindsStep(bytes: seq<uint8>, b: uint8)
    ensures |Kinds(bytes + [b])| == |Kinds(bytes)| + if b in bytes then 0 else 1
  {
    assert Kinds(bytes + [b]) == Kinds(bytes) + {b};
    if b in bytes {
      assert Kinds(bytes + [b]) == Kinds(bytes);
    }
  }

  // ---------- The counters ----------

  /** The counters of a context that has learned `bytes` and has never been halved: 2 for every time a byte was learned and 5
      escapes for every different one; in the root 3 for every time, and the one escape that it was created with. */
  ghost predicate Counted(root: bool, bytes: seq<uint8>, ctx: Context) {
    && ctx.escapes == (if root then 1 else 5 * |Kinds(bytes)|)
    && (forall v: uint8 :: ctx.counts[v] == if root then 3 * Seen(bytes, v) else 2 * Seen(bytes, v))
    && (forall v | 0 <= v <= 256 :: Sum(ctx.counts, 0, v) == if root then 3 * Below(bytes, v) else 2 * Below(bytes, v))
  }

  /** No byte has been learned more than 126 times, or 84 in the root, and the total is at most 65280. */
  ghost predicate Unhalved(root: bool, bytes: seq<uint8>) {
    && (forall v: uint8 :: Seen(bytes, v) <= if root then 84 else 126)
    && (if root then 257 + 3 * |bytes| else 5 * |Kinds(bytes)| + 2 * |bytes|) <= 65280
  }

  /** The same counters, each halved upwards. */
  ghost predicate CountedHalf(root: bool, bytes: seq<uint8>, ctx: Context) {
    && ctx.escapes == (if root then 1 else (5 * |Kinds(bytes)| + 1) / 2)
    && (forall v: uint8 :: ctx.counts[v] == ((if root then 3 * Seen(bytes, v) else 2 * Seen(bytes, v)) + 1) / 2)
  }

  lemma {:induction false} BumpedCounted(root: bool, bytes: seq<uint8>, ctx: Context, v: uint8)
    requires Counted(root, bytes, ctx)
    ensures Counted(root, bytes + [v], ctx.Bumped(v, root))
  {
    hide Sum, Seen, Below;
    var b := ctx.Bumped(v, root);
    KindsStep(bytes, v);
    SeenSome(bytes, v);
    forall u: uint8 ensures b.counts[u] == if root then 3 * Seen(bytes + [v], u) else 2 * Seen(bytes + [v], u) {
      SeenStep(bytes, v, u);
    }
    forall u | 0 <= u <= 256
      ensures Sum(b.counts, 0, u) == if root then 3 * Below(bytes + [v], u) else 2 * Below(bytes + [v], u)
    {
      BelowStep(bytes, v, u);
      SumUpdate(ctx.counts, v, ctx.counts[v] + Delta(root), 0, u);
    }
  }

  lemma {:induction false} EmptyCounted(root: bool)
    ensures Counted(root, [], Touched(root, []))
  {
    hide Sum;
    forall v | 0 <= v <= 256 ensures Sum(NoCounts(), 0, v) == 0 {
      SumZero(NoCounts(), 0, v);
    }
    assert Kinds([]) == {};
  }

  /** When halving is called for. */
  lemma {:induction false} HalvedWhen(root: bool, bytes: seq<uint8>, ctx: Context, v: uint8)
    requires Counted(root, bytes, ctx) && Unhalved(root, bytes)
    ensures ctx.NeedsRescale(v, root) <==> !Unhalved(root, bytes + [v])
  {
    hide Sum, Seen, Below, Kinds;
    BumpedCounted(root, bytes, ctx, v);
    BelowAll(bytes + [v]);
    forall u: uint8 ensures Seen(bytes + [v], u) == Seen(bytes, u) + if v == u then 1 else 0 {
      SeenStep(bytes, v, u);
    }
  }

  /** A context that need not have been halved holds exact counters, and one that is halved for the first time their halves. */
  lemma {:induction false} TouchedCounted(root: bool, bytes: seq<uint8>)
    ensures Unhalved(root, bytes) ==> Counted(root, bytes, Touched(root, bytes))
    ensures bytes != [] && Unhalved(root, bytes[..|bytes| - 1]) && !Unhalved(root, bytes)
            ==> CountedHalf(root, bytes, Touched(root, bytes))
  {
    hide Sum, Seen, Below, Kinds, Counted, Unhalved, Context.NeedsRescale, Context.Bumped;
    if bytes == [] {
      EmptyCounted(root);
    } else {
      var b0, v := bytes[..|bytes| - 1], bytes[|bytes| - 1];
      assert bytes == b0 + [v];
      TouchedCounted(root, b0);
      UnhalvedBefore(root, b0, v);
      if Unhalved(root, b0) {
        var ctx := Touched(root, b0);
        HalvedWhen(root, b0, ctx, v);
        BumpedCounted(root, b0, ctx, v);
        RescaledHalf(root, bytes, ctx.Bumped(v, root));
      }
    }
  }

  lemma {:induction false} UnhalvedBefore(root: bool, bytes: seq<uint8>, v: uint8)
    ensures Unhalved(root, bytes + [v]) ==> Unhalved(root, bytes)
  {
    hide Seen, Kinds;
    KindsStep(bytes, v);
    forall u: uint8 ensures Seen(bytes, u) <= Seen(bytes + [v], u) {
      SeenStep(bytes, v, u);
    }
  }

  lemma RescaledHalf(root: bool, bytes: seq<uint8>, ctx: Context)
    requires Counted(root, bytes, ctx)
    ensures CountedHalf(root, bytes, ctx.Rescaled())
  {
    hide Sum, Seen, Below, Kinds;
  }

  // ---------- The contexts after some data ----------

  /** The bytes that have followed `w`. */
  ghost function Followers(d: seq<uint8>, w: Key): set<uint8> {
    set v: uint8 | w + [v] in Strings(d)
  }

  /**
   The model after any data `d`. Of these it remembers `s`, all since the pool was last emptied; its history is the last two
   bytes of them. A context that has not been halved counts every byte twice, or three times in the root, for every position
   at which it learned it.
   */
  lemma {:induction false} ContextsHold(d: seq<uint8>, w: Key)
    requires |w| <= 2
    ensures var m, s, root := After(Empty(), d), Since(d), w == [];
            && m.history == LastTwo(s)
            && (Unhalved(root, Learned(s, w)) ==>
                  && (forall v: uint8 :: At(m.contexts, w).counts[v] == (if root then 3 else 2) * |Positions(s, w, v)|)
                  && At(m.contexts, w).escapes == if root then 1 else 5 * |Followers(s, w)|)
  {
    hide Strings, Learned, Touched, Positions, Sum, Below, Kinds, Unhalved;
    var m, s, root := After(Empty(), d), Since(d), w == [];
    AfterRemembers(d);
    assert Holds(m.contexts, s, w);
    if Unhalved(root, Learned(s, w)) {
      TouchedCounted(root, Learned(s, w));
      forall v: uint8 ensures Seen(Learned(s, w), v) == |Positions(s, w, v)| {
        LearnedTimes(s, w, v);
      }
      FollowersLearned(m.contexts, s, w);
    }
  }

  lemma {:induction false} FollowersLearned(cs: Contexts, d: seq<uint8>, w: Key)
    requires Holds(cs, d, w) && Counted(w == [], Learned(d, w), At(cs, w))
    ensures Followers(d, w) == Kinds(Learned(d, w))
  {
    hide Strings, Learned, Touched, Sum, Below;
    forall v: uint8 ensures w + [v] in Strings(d) <==> v in Learned(d, w) {
      SeenSome(Learned(d, w), v);
    }
  }

  // ---------- The slots of a byte string ----------

  /** The slots in which a context that has not been halved codes a byte, and an escape. */
  lemma {:induction false} SharesCounted(root: bool, bytes: seq<uint8>, ctx: Context, v: uint8)
    requires Counted(root, bytes, ctx)
    ensures root ==> ctx.SymbolSlot(v, root) == Slot(1 + v + 3 * Below(bytes, v), 1 + 3 * Seen(bytes, v), 257 + 3 * |bytes|)
    ensures !root ==> var escapes := 5 * |Kinds(bytes)|;
                      && ctx.SymbolSlot(v, root) == Slot(escapes + 2 * Below(bytes, v), 2 * Seen(bytes, v), escapes + 2 * |bytes|)
                      && ctx.EscapeSlot() == Slot(0, escapes, escapes + 2 * |bytes|)
  {
    hide Sum, Seen, Below, Kinds;
    BelowAll(bytes);
  }

  /** How `v` is coded after `s`: in the longest of the contexts from `w` down that `v` has followed, or else in the root, with
      an escape in every longer one that anything has followed. */
  ghost function Coding(s: seq<uint8>, w: Key, v: uint8): seq<Slot>
    decreases |w|
  {
    var ctx := Touched(w == [], Learned(s, w));
    if w == [] || w + [v] in Strings(s) then
      [ctx.SymbolSlot(v, w == [])]
    else
      (if Followers(s, w) != {} then [ctx.EscapeSlot()] else []) + Coding(s, w[1..], v)
  }

  /** The slots that code the data `d`. */
  ghost function Said(d: seq<uint8>): seq<Slot> {
    if d == [] then []
    else
      var s := Since(d[..|d| - 1]);
      Said(d[..|d| - 1]) + Coding(s, LastTwo(s), d[|d| - 1])
  }

  lemma {:induction false} SlotsCoding(m: Model, s: seq<uint8>, w: Key, v: uint8)
    requires Remembers(m, s) && |w| <= 2
    ensures Slots(m.contexts, w, v) == Coding(s, w, v)
    decreases |w|
  {
    hide Strings, Learned, Touched, Sum, Context.Healthy, LastTwo;
    var ctx := At(m.contexts, w);
    assert Holds(m.contexts, s, w);
    if w != [] && w + [v] !in Strings(s) {
      SlotsCoding(m, s, w[1..], v);
      HealthyContexts(m);
      AtHealthy(m.contexts, w);
      KnowsSome(ctx);
      assert Followers(s, w) != {} <==> exists u: uint8 :: ctx.counts[u] > 0 by {
        if u: uint8 :| ctx.counts[u] > 0 {
          assert u in Followers(s, w);
        }
      }
    }
  }

  /** A context says that it cannot code exactly if it knows no byte. */
  lemma KnowsSome(ctx: Context)
    requires ctx.Healthy(false)
    ensures 0 < ctx.escapes < ctx.Total(false) <==> exists v: uint8 :: ctx.counts[v] > 0
  {
    SumZero(ctx.counts, 0, 256);
  }

  lemma {:induction false} AllSlotsMore(m: Model, d: seq<uint8>, v: uint8)
    ensures AllSlots(m, d + [v]) == AllSlots(m, d) + Slots(After(m, d).contexts, After(m, d).history, v)
    ensures After(m, d + [v]) == After(m, d).Next(v)
    decreases |d|
  {
    hide Slots, Model.Next;
    assert (d + [v])[..|d|] == d;
    if d == [] {
      assert d + [v] == [v] && [v][1..] == [];
    } else {
      AllSlotsMore(m.Next(d[0]), d[1..], v);
      assert (d + [v])[1..] == d[1..] + [v];
      AfterFirst(m, d);
    }
  }

  lemma {:induction false} AfterFirst(m: Model, d: seq<uint8>)
    requires d != []
    ensures After(m, d) == After(m.Next(d[0]), d[1..])
  {
    hide Model.Next;
    if |d| > 1 {
      AfterFirst(m, d[..|d| - 1]);
      assert d[..|d| - 1][1..] == d[1..][..|d| - 2];
    } else {
      assert d[..0] == [] && d[1..] == [];
    }
  }

  /** The slots that are coded, in terms of the data. */
  lemma {:induction false} SaysData(d: seq<uint8>)
    ensures AllSlots(Empty(), d) == Said(d) && AllValid(Said(d))
    ensures Compressed(d) == Encode(Start, Said(d))
  {
    hide AllSlots, Coding, Slots, Strings, Remembers, AllValid, Encode, Model.Healthy;
    EmptyHealthy();
    AllSlotsValid(Empty(), d);
    if d == [] {
      assert AllSlots(Empty(), []) == [] by {
        NoSlots();
      }
    } else {
      var d0, v := d[..|d| - 1], d[|d| - 1];
      SaysData(d0);
      assert d == d0 + [v];
      AllSlotsMore(Empty(), d0, v);
      AfterRemembers(d0);
      HistoryCoding(After(Empty(), d0), Since(d0), v);
    }
  }

  lemma NoSlots()
    ensures AllSlots(Empty(), []) == []
  {
  }

  lemma HistoryCoding(m: Model, s: seq<uint8>, v: uint8)
    requires Remembers(m, s)
    ensures Slots(m.contexts, m.history, v) == Coding(s, LastTwo(s), v)
  {
    SlotsCoding(m, s, LastTwo(s), v);
  }

  // ---------- Data too short to be forgotten ----------

  lemma {:induction false} StringsFew(d: seq<uint8>)
    ensures |Strings(d)| <= 3 * |d| && (d != [] ==> |Strings(d)| <= 3 * |d| - 2)
  {
    if d != [] {
      StringsFew(d[..|d| - 1]);
      EndingsFew(d);
      UnionFew(Strings(d[..|d| - 1]), Endings(d));
    }
  }

  lemma EndingsFew(d: seq<uint8>)
    ensures |Endings(d)| <= if |d| == 1 then 1 else 3
  {
    EndingFew(d, 1);
    EndingFew(d, 2);
    EndingFew(d, 3);
    hide Ending;
    UnionFew(Ending(d, 1), Ending(d, 2));
    UnionFew(Ending(d, 1) + Ending(d, 2), Ending(d, 3));
  }

  lemma EndingFew(d: seq<uint8>, l: nat)
    ensures |Ending(d, l)| == if l <= |d| then 1 else 0
  {
  }

  lemma UnionFew(s: set<seq<uint8>>, t: set<seq<uint8>>)
    ensures |s + t| <= |s| + |t|
  {
    assert s + t == s + (t - s);
    assert |t - s| + |t * s| == |t|;
  }

  /** The model forgets nothing of data up to 1364 bytes long. */
  lemma {:induction false} ShortRemembered(d: seq<uint8>)
    requires |d| <= 1364
    ensures Since(d) == d
  {
    hide Strings;
    if d != [] {
      ShortRemembered(d[..|d| - 1]);
      assert d == d[..|d| - 1] + [d[|d| - 1]];
      StringsFew(d);
    }
  }

  /** Any byte, four times over. */
  lemma {:induction false} FourAlike(v: uint8)
    ensures Said([v, v, v, v]) == [Slot(1 + v, 1, 257), Slot(1 + v, 4, 260), Slot(5, 2, 7), Slot(5, 2, 7)]
  {
    hide Strings, Coding, Since, LastTwo;
    var d1, d2, d3, d4 := [v], [v, v], [v, v, v], [v, v, v, v];
    assert d4[..3] == d3 && d3[..2] == d2 && d2[..1] == d1 && d1[..0] == [];
    AlikeCoding(v);
    ShortRemembered([]);
    ShortRemembered(d1);
    ShortRemembered(d2);
    ShortRemembered(d3);
    LastOfAlike(v);
    assert Said([]) == [];
    assert Said(d1) == [Slot(1 + v, 1, 257)];
    assert Said(d2) == [Slot(1 + v, 1, 257), Slot(1 + v, 4, 260)];
    assert Said(d3) == [Slot(1 + v, 1, 257), Slot(1 + v, 4, 260), Slot(5, 2, 7)];
  }

  lemma LastOfAlike(v: uint8)
    ensures LastTwo([]) == [] && LastTwo([v]) == [v] && LastTwo([v, v]) == [v, v] && LastTwo([v, v, v]) == [v, v]
  {
  }

  lemma {:induction false} AlikeStrings(v: uint8)
    ensures Strings([v]) == {[v]}
    ensures Strings([v, v]) == {[v], [v, v]}
    ensures Strings([v, v, v]) == {[v], [v, v], [v, v, v]}
  {
    assert [v, v, v][..2] == [v, v] && [v, v][..1] == [v] && [v][..0] == [];
    assert [v, v, v][2..] == [v] && [v, v, v][1..] == [v, v] && [v, v, v][0..] == [v, v, v];
    assert [v, v][1..] == [v] && [v, v][0..] == [v, v] && [v][0..] == [v];
  }

  lemma {:induction false} AlikeLearned(v: uint8)
    ensures Learned([v], []) == [v] && Learned([v, v], [v]) == [v] && Learned([v, v, v], [v, v]) == [v]
    ensures Learned([v], [v]) == [] && Learned([v, v], [v, v]) == []
  {
    hide Strings, LastTwo, Learned;
    assert [] + [v] == [v] && [v] + [v] == [v, v] && [v, v] + [v] == [v, v, v];
    LastOfAlike(v);
    forall w: Key ensures Learned([], w) == [] {
      NothingLearned(w);
    }
    LearnedStep([], [], v);
    LearnedStep([], [v], v);
    LearnedStep([], [v, v], v);
    LearnedStep([v], [v], v);
    LearnedStep([v], [v, v], v);
    LearnedStep([v, v], [v, v], v);
  }

  lemma NothingLearned(w: Key)
    ensures Learned([], w) == []
  {
  }

  lemma {:induction false} OneLearned(root: bool, v: uint8)
    ensures Counted(root, [v], Touched(root, [v])) && Counted(root, [], Touched(root, []))
    ensures Kinds([v]) == {v} && Seen([v], v) == 1 && Below([v], v) == 0
  {
    hide Counted;
    assert [v][..0] == [];
    assert Kinds([]) == {};
    TouchedCounted(root, [v]);
    TouchedCounted(root, []);
  }

  lemma {:induction false} AlikeCoding(v: uint8)
    ensures Coding([], [], v) == [Slot(1 + v, 1, 257)]
    ensures Coding([v], [v], v) == [Slot(1 + v, 4, 260)]
    ensures Coding([v, v], [v, v], v) == [Slot(5, 2, 7)] && Coding([v, v, v], [v, v], v) == [Slot(5, 2, 7)]
  {
    hide Strings, Learned, Touched, Counted, Kinds, Context.SymbolSlot;
    AlikeStrings(v);
    AlikeLearned(v);
    NothingLearned([]);
    OneLearned(true, v);
    OneLearned(false, v);
    SharesCounted(true, [], Touched(true, []), v);
    SharesCounted(true, [v], Touched(true, [v]), v);
    SharesCounted(false, [v], Touched(false, [v]), v);
    assert [v, v][1..] == [v] && [v][1..] == [] && [v] + [v] == [v, v] && [v, v] + [v] == [v, v, v];
    assert Followers([v], [v]) == {} by {
      NotFollowed([v], [v]);
    }
    assert Followers([v, v], [v, v]) == {} by {
      NotFollowed([v, v], [v, v]);
    }
    assert Coding([v], [], v) == [Touched(true, [v]).SymbolSlot(v, true)];
    assert Coding([v], [v], v) == Coding([v], [], v);
    assert Coding([v, v], [v, v], v) == Coding([v, v], [v], v);
  }

  lemma NotFollowed(d: seq<uint8>, w: Key)
    requires forall s <- Strings(d) :: |s| <= |w|
    ensures Followers(d, w) == {}
  {
  }
}
