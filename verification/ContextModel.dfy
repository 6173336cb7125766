/**
 The statistical model of enet/compress.c as plain values: frequencies of bytes in the contexts
 of the last zero, one and two bytes. No trees and no array: those refine this model.
 */
module ContextModel {
  import opened Machine
  import opened ArithmeticCoder

  // ---------- Frequencies ----------

  type Counts = c: seq<nat> | |c| == 256 witness seq(256, i => 0)

  function NoCounts(): (c: Counts)
    ensures forall v :: 0 <= v < 256 ==> c[v] == 0
  {
    seq(256, i => 0)
  }

  function Sum(c: seq<nat>, lo: nat, hi: nat): nat
    requires lo <= hi <= |c|
  {
    if lo == hi then 0 else Sum(c, lo, hi - 1) + c[hi - 1]
  }

  lemma {:induction false} SumSplit(c: seq<nat>, lo: nat, mid: nat, hi: nat)
    requires lo <= mid <= hi <= |c|
    ensures Sum(c, lo, hi) == Sum(c, lo, mid) + Sum(c, mid, hi)
    decreases hi
  {
    if mid < hi {
      SumSplit(c, lo, mid, hi - 1);
    }
  }

  lemma SumStep(c: seq<nat>, v: nat)
    requires v < |c|
    ensures Sum(c, 0, v + 1) == Sum(c, 0, v) + c[v]
  {
  }

  /** Splitting out the element at `at`. */
  lemma SumAround(c: seq<nat>, lo: nat, at: nat, hi: nat)
    requires lo <= at < hi <= |c|
    ensures Sum(c, lo, hi) == Sum(c, lo, at) + c[at] + Sum(c, at + 1, hi)
  {
    SumSplit(c, lo, at + 1, hi);
  }

  lemma {:induction false} SumUpdate(c: seq<nat>, v: nat, x: nat, lo: nat, hi: nat)
    requires lo <= hi <= |c| && v < |c|
    ensures Sum(c[v := x], lo, hi) == Sum(c, lo, hi) + if lo <= v < hi then x - c[v] else 0
    decreases hi
  {
    if lo < hi {
      SumUpdate(c, v, x, lo, hi - 1);
    }
  }

  lemma {:induction false} SumZero(c: seq<nat>, lo: nat, hi: nat)
    requires lo <= hi <= |c|
    ensures Sum(c, lo, hi) == 0 <==> forall v :: lo <= v < hi ==> c[v] == 0
    decreases hi
  {
    if lo < hi {
      SumZero(c, lo, hi - 1);
    }
  }

  /** Sums around `u`, and up to a `v` separated from it only by zeros. */
  lemma SumsAt(c: seq<nat>, lo: nat, u: nat, v: nat)
    requires lo <= u < |c| && lo <= v < |c|
    ensures Sum(c, 0, u + 1) == Sum(c, 0, lo) + Sum(c, lo, u + 1)
    ensures Sum(c, 0, u + 1) == Sum(c, 0, u) + c[u] && Sum(c, 0, u + 1) <= Sum(c, 0, |c|)
    ensures (forall x :: lo <= x < v ==> c[x] == 0) ==> Sum(c, 0, v) == Sum(c, 0, lo)
    ensures u < v && (forall x :: u < x < v ==> c[x] == 0) ==> Sum(c, 0, v) == Sum(c, 0, u + 1)
  {
    SumSplit(c, 0, lo, u + 1);
    SumSplit(c, 0, u + 1, |c|);
    SumSplit(c, 0, lo, v);
    SumZero(c, lo, v);
    if u < v {
      SumSplit(c, 0, u + 1, v);
      SumZero(c, u + 1, v);
    }
  }

  /** What `x -= x >> 1` leaves. */
  function Half(x: nat): nat {
    x - x / 2
  }

  function Halved(c: seq<nat>): (h: seq<nat>)
    ensures |h| == |c|
  {
    seq(|c|, i requires 0 <= i < |c| => Half(c[i]))
  }

  lemma {:induction false} SumHalved(c: seq<nat>, lo: nat, hi: nat)
    requires lo <= hi <= |c|
    ensures 2 * Sum(Halved(c), lo, hi) <= Sum(c, lo, hi) + hi - lo
    decreases hi
  {
    if lo < hi {
      SumHalved(c, lo, hi - 1);
    }
  }

  // ---------- One context ----------

  /** Tuning constants; the root context counts every byte once more than it was seen. */
  function Minimum(root: bool): nat { if root then 1 else 0 }
  function Delta(root: bool): nat { if root then 3 else 2 }
  function CountLimit(root: bool): nat { 0xFF - 2 * Delta(root) + Minimum(root) }
  const ESCAPE_DELTA := 5
  const TOTAL_LIMIT := BOTTOM - 0x100

  datatype Context = Context(escapes: nat, counts: Counts) {

    function Total(root: bool): nat {
      escapes + 256 * Minimum(root) + Sum(counts, 0, 256)
    }

    /** The frequency of the bytes below `v`. */
    function Under(v: nat, root: bool): nat
      requires v <= 256
    {
      v * Minimum(root) + Sum(counts, 0, v)
    }

    function Count(v: uint8, root: bool): nat {
      counts[v] + Minimum(root)
    }

    function SymbolSlot(v: uint8, root: bool): Slot {
      Slot(escapes + Under(v, root), Count(v, root), Total(root))
    }

    function EscapeSlot(): Slot {
      Slot(0, escapes, Total(false))
    }

    function Rescaled(): Context {
      Context(Half(escapes), Halved(counts))
    }

    /** One more `v`, before any rescaling. */
    function Bumped(v: uint8, root: bool): Context {
      Context(escapes + (if !root && counts[v] == 0 then ESCAPE_DELTA else 0),
              counts[v := counts[v] + Delta(root)])
    }

    predicate NeedsRescale(v: uint8, root: bool) {
      Count(v, root) > CountLimit(root) || Bumped(v, root).Total(root) > TOTAL_LIMIT
    }

    /** One more `v`. */
    function Touch(v: uint8, root: bool): Context {
      if NeedsRescale(v, root) then Bumped(v, root).Rescaled() else Bumped(v, root)
    }

    /**
     What keeps every counter in its 8 or 16 bits: a count can take one more step within 8 bits,
     and a total one more step within 16.
     */
    predicate Healthy(root: bool) {
      && (forall v: uint8 :: counts[v] <= 0xFF - Delta(root))
      && Total(root) <= TOTAL_LIMIT
      && (escapes == 0 ==> !root && Sum(counts, 0, 256) == 0)
    }
  }

  function FreshContext(): Context { Context(0, NoCounts()) }
  function FreshRoot(): Context { Context(1, NoCounts()) }

  lemma FreshHealthy()
    ensures FreshContext().Healthy(false) && FreshContext().Total(false) == 0
    ensures FreshRoot().Healthy(true) && FreshRoot().Total(true) == 257
  {
    hide Sum;
    SumZero(NoCounts(), 0, 256);
  }

  lemma SlotFits(ctx: Context, v: uint8, root: bool)
    ensures var s := ctx.SymbolSlot(v, root);
            s.under + s.count == ctx.escapes + ctx.Under(v + 1, root) <= s.total
  {
    SumSplit(ctx.counts, 0, v + 1, 256);
  }

  lemma SymbolSlotValid(ctx: Context, v: uint8, root: bool)
    requires ctx.Healthy(root) && 0 < ctx.Count(v, root)
    ensures ctx.SymbolSlot(v, root).Valid() && 0 < ctx.escapes
  {
    SlotFits(ctx, v, root);
    SumZero(ctx.counts, 0, 256);
  }

  /** Slots of different bytes do not meet, and come in byte order. */
  lemma SlotsOrdered(ctx: Context, u: uint8, v: uint8, root: bool)
    requires u < v
    ensures ctx.SymbolSlot(u, root).under + ctx.SymbolSlot(u, root).count <= ctx.SymbolSlot(v, root).under
  {
    SumSplit(ctx.counts, 0, u + 1, v);
  }

  lemma HealthyRoom(ctx: Context, root: bool)
    requires ctx.Healthy(root)
    ensures 256 * Minimum(root) + Sum(ctx.counts, 0, 256) + Delta(root) <= 0xFFFF
    ensures forall v: uint8 :: ctx.counts[v] + Delta(root) <= 0xFF
  {
  }

  /** A position in the slot of `v` lies past the escapes, in the share of `v`. */
  lemma PositionInSlot(ctx: Context, v: uint8, root: bool, q: nat)
    requires var s := ctx.SymbolSlot(v, root); s.under <= q < s.under + s.count
    ensures ctx.escapes <= q
    ensures ctx.Under(v, root) <= q - ctx.escapes < ctx.Under(v + 1, root)
  {
  }

  /** A position inside the slot of `v` compares with the slot of `u` as `v` compares with `u`. */
  lemma PositionOrder(counts: Counts, m: nat, u: uint8, v: uint8, code: nat)
    requires v * m + Sum(counts, 0, v) <= code < (v + 1) * m + Sum(counts, 0, v + 1)
    ensures (u + 1) * m + Sum(counts, 0, u + 1) <= code <==> u < v
    ensures code < u * m + Sum(counts, 0, u) <==> v < u
  {
    if u < v {
      PositionMonotone(counts, m, u + 1, v);
      PositionMonotone(counts, m, u, v);
    } else if v < u {
      PositionMonotone(counts, m, v + 1, u);
      PositionMonotone(counts, m, v + 1, u + 1);
    }
  }

  lemma PositionMonotone(counts: Counts, m: nat, a: nat, b: nat)
    requires a <= b <= 256
    ensures a * m + Sum(counts, 0, a) <= b * m + Sum(counts, 0, b)
  {
    SumSplit(counts, 0, a, b);
    MulMonotone(a, b, m);
  }

  /** A subcontext is used for coding once it knows a byte: then its escape slot is a proper part. */
  lemma EscapeSlotProper(ctx: Context)
    requires ctx.Healthy(false)
    ensures 0 < ctx.escapes < ctx.Total(false) ==> ctx.EscapeSlot().Valid()
    ensures forall v: uint8 :: ctx.counts[v] > 0 ==> 0 < ctx.escapes < ctx.Total(false)
  {
    SumZero(ctx.counts, 0, 256);
  }

  lemma BumpedTotal(ctx: Context, v: uint8, root: bool)
    ensures ctx.Bumped(v, root).Total(root) ==
            ctx.Total(root) + Delta(root) + if !root && ctx.counts[v] == 0 then ESCAPE_DELTA else 0
  {
    SumUpdate(ctx.counts, v, ctx.counts[v] + Delta(root), 0, 256);
  }

  /** Learning a byte leaves room for learning another: no counter ever overflows. */
  lemma TouchHealthy(ctx: Context, v: uint8, root: bool)
    requires ctx.Healthy(root)
    ensures ctx.Bumped(v, root).Total(root) <= 0xFFFF && ctx.Bumped(v, root).counts[v] <= 0xFF
    ensures ctx.Touch(v, root).Healthy(root) && 0 < ctx.Touch(v, root).counts[v]
    ensures forall u: uint8 :: 0 < ctx.Touch(v, root).counts[u] <==> u == v || 0 < ctx.counts[u]
  {
    var b := ctx.Bumped(v, root);
    SumUpdate(ctx.counts, v, ctx.counts[v] + Delta(root), 0, 256);
    SumZero(ctx.counts, 0, 256);
    SumHalved(b.counts, 0, 256);
    assert Half(b.escapes) <= (b.escapes + 1) / 2;
  }

  // ---------- All contexts ----------

  type Key = seq<uint8>

  const SUBCONTEXT_ORDER := 2
  const MAX_SYMBOLS := 4096

  type Contexts = map<Key, Context>

  /** The context of key `w`; one never used knows nothing. */
  function At(cs: Contexts, w: Key): Context {
    if w in cs then cs[w] else FreshContext()
  }

  /** The slots that code `v` in the contexts `w`, `w` without its first byte, down to the root. */
  function Slots(cs: Contexts, w: Key, v: uint8): seq<Slot>
    decreases |w|
  {
    var ctx := At(cs, w);
    if w == [] then
      [ctx.SymbolSlot(v, true)]
    else if ctx.counts[v] > 0 then
      [ctx.SymbolSlot(v, false)]
    else
      (if 0 < ctx.escapes < ctx.Total(false) then [ctx.EscapeSlot()] else []) + Slots(cs, w[1..], v)
  }

  /** The contexts after coding `v`: those from `w` down to the first that knew `v` learn it. */
  function Learn(cs: Contexts, w: Key, v: uint8): Contexts
    decreases |w|
  {
    if w == [] || At(cs, w).counts[v] > 0 then
      cs[w := At(cs, w).Touch(v, w == [])]
    else
      Learn(cs[w := At(cs, w).Touch(v, false)], w[1..], v)
  }

  /** How many symbols that takes from the pool: one for each context that did not know `v`. */
  function Created(cs: Contexts, w: Key, v: uint8): nat
    decreases |w|
  {
    if At(cs, w).counts[v] > 0 then 0
    else 1 + if w == [] then 0 else Created(cs, w[1..], v)
  }

  datatype Model = Model(contexts: Contexts, history: Key, used: nat) {

    predicate Healthy() {
      && [] in contexts
      && (forall w <- contexts :: |w| <= SUBCONTEXT_ORDER && contexts[w].Healthy(w == []))
      && |history| <= SUBCONTEXT_ORDER
      && 0 < used < MAX_SYMBOLS - SUBCONTEXT_ORDER
    }

    function NextHistory(v: uint8): Key {
      if |history| >= SUBCONTEXT_ORDER then history[1..] + [v] else history + [v]
    }

    /** The model after one more byte; a pool that is nearly full is emptied. */
    function Next(v: uint8): Model {
      var used' := used + Created(contexts, history, v);
      if used' >= MAX_SYMBOLS - SUBCONTEXT_ORDER then
        Empty()
      else
        Model(Learn(contexts, history, v), NextHistory(v), used')
    }
  }

  function Empty(): Model { Model(map[[] := FreshRoot()], [], 1) }

  /** The slots that code `data` from `m` on. */
  function AllSlots(m: Model, data: seq<uint8>): seq<Slot>
    decreases |data|
  {
    if data == [] then [] else Slots(m.contexts, m.history, data[0]) + AllSlots(m.Next(data[0]), data[1..])
  }

  ghost predicate AllHealthy(cs: Contexts) {
    [] in cs && forall w <- cs :: |w| <= SUBCONTEXT_ORDER && cs[w].Healthy(w == [])
  }

  lemma AtHealthy(cs: Contexts, w: Key)
    requires AllHealthy(cs)
    ensures At(cs, w).Healthy(w == [])
  {
    FreshHealthy();
  }

  lemma {:induction false} SlotsValid(cs: Contexts, w: Key, v: uint8)
    requires AllHealthy(cs)
    ensures Slots(cs, w, v) != [] && AllValid(Slots(cs, w, v))
    decreases |w|
  {
    AtHealthy(cs, w);
    var ctx := At(cs, w);
    if w == [] || ctx.counts[v] > 0 {
      SymbolSlotValid(ctx, v, w == []);
    } else {
      EscapeSlotProper(ctx);
      SlotsValid(cs, w[1..], v);
    }
  }

  lemma {:induction false} LearnHealthy(cs: Contexts, w: Key, v: uint8)
    requires AllHealthy(cs) && |w| <= SUBCONTEXT_ORDER
    ensures AllHealthy(Learn(cs, w, v))
    decreases |w|
  {
    AtHealthy(cs, w);
    TouchHealthy(At(cs, w), v, w == []);
    if w != [] && At(cs, w).counts[v] == 0 {
      LearnHealthy(cs[w := At(cs, w).Touch(v, w == [])], w[1..], v);
    }
  }

  lemma EmptyHealthy()
    ensures Empty().Healthy()
  {
    FreshHealthy();
  }

  lemma NextHealthy(m: Model, v: uint8)
    requires m.Healthy()
    ensures m.Next(v).Healthy()
  {
    EmptyHealthy();
    LearnHealthy(m.contexts, m.history, v);
  }

  lemma {:induction false} AllSlotsValid(m: Model, data: seq<uint8>)
    requires m.Healthy()
    ensures AllValid(AllSlots(m, data))
    decreases |data|
  {
    if data != [] {
      SlotsValid(m.contexts, m.history, data[0]);
      NextHealthy(m, data[0]);
      AllSlotsValid(m.Next(data[0]), data[1..]);
    }
  }

  /** At most one symbol per context is created, so a step never leaves the pool of 4096. */
  lemma {:induction false} CreatedBound(cs: Contexts, w: Key, v: uint8)
    ensures Created(cs, w, v) <= |w| + 1
    decreases |w|
  {
    if w != [] {
      CreatedBound(cs, w[1..], v);
    }
  }

  /** The slot to be coded first, and what remains. */
  lemma FirstSlot(cs: Contexts, w: Key, v: uint8, after: seq<Slot>)
    requires AllHealthy(cs) && AllValid(after)
    ensures AllValid(Slots(cs, w, v)) && AllValid(Slots(cs, w, v) + after)
    ensures var ctx := At(cs, w);
            if w == [] || ctx.counts[v] > 0 then
              && Slots(cs, w, v) + after == [ctx.SymbolSlot(v, w == [])] + after
              && ctx.SymbolSlot(v, w == []).Valid()
              && ctx.escapes + ctx.Under(v, w == []) < ctx.Total(w == []) <= 0xFFFF
            else if 0 < ctx.escapes < ctx.Total(false) then
              && Slots(cs, w, v) + after == [ctx.EscapeSlot()] + (Slots(cs, w[1..], v) + after)
              && ctx.EscapeSlot().Valid()
            else
              Slots(cs, w, v) + after == Slots(cs, w[1..], v) + after
  {
    hide Sum, Context.Under;
    SlotsValid(cs, w, v);
    AtHealthy(cs, w);
    var ctx := At(cs, w);
    if w == [] || ctx.counts[v] > 0 {
      SymbolSlotValid(ctx, v, w == []);
    } else {
      EscapeSlotProper(ctx);
    }
  }

  /** What a reader at context `w` has ahead of it; nothing, at the end of the data. */
  ghost function Remaining(more: bool, cs: Contexts, w: Key, v: uint8, after: seq<Slot>): seq<Slot> {
    if more then Slots(cs, w, v) + after else []
  }

  /** The slot that the reader will find itself in at context `w`. */
  ghost function NextSlot(more: bool, ctx: Context, root: bool, v: uint8): Slot {
    if more && (root || ctx.counts[v] > 0) then ctx.SymbolSlot(v, root) else Slot(0, ctx.escapes, ctx.Total(root))
  }

  /** A context that can be decoded from: there the next slot lies ahead, and its position tells an
      escape from a symbol. */
  lemma NextSlotAhead(more: bool, cs: Contexts, w: Key, v: uint8, after: seq<Slot>)
    requires AllHealthy(cs) && AllValid(after) && (!more ==> after == [])
    ensures var ctx, root := At(cs, w), w == [];
            var slot, hit := NextSlot(more, ctx, root, v), more && (root || ctx.counts[v] > 0);
            && AllValid(Remaining(more, cs, w, v, after)) && (!more ==> Remaining(more, cs, w, v, after) == [])
            && (root || 0 < ctx.escapes < ctx.Total(false) ==>
                  && slot.Valid()
                  && (hit ==> ctx.escapes + ctx.Under(v, root) == slot.under && Remaining(more, cs, w, v, after) == [slot] + after)
                  && (!hit && more ==> Remaining(more, cs, w, v, after) == [slot] + Remaining(more, cs, w[1..], v, after))
                  && (!more ==> slot.under == 0))
            && (!root && !(0 < ctx.escapes < ctx.Total(false)) ==>
                  ctx.counts[v] == 0 && Remaining(more, cs, w, v, after) == Remaining(more, cs, w[1..], v, after))
  {
    hide Sum, Context.Under;
    AtHealthy(cs, w);
    FirstSlot(cs, w, v, after);
    if w != [] {
      EscapeSlotProper(At(cs, w));
    }
  }

  /** What is said in a context does not depend on longer ones. */
  lemma {:induction false} ShorterOnly(cs: Contexts, k: Key, ctx: Context, w: Key, v: uint8)
    requires |w| < |k|
    ensures Slots(cs[k := ctx], w, v) == Slots(cs, w, v)
    ensures Created(cs[k := ctx], w, v) == Created(cs, w, v)
    decreases |w|
  {
    if w != [] {
      ShorterOnly(cs, k, ctx, w[1..], v);
    }
  }

  /** The contexts after those from `x` down to length `n`, not included, have learned `v`. */
  function LearnAbove(cs: Contexts, x: Key, n: nat, v: uint8): Contexts
    decreases |x|
  {
    if |x| <= n then cs else LearnAbove(cs[x := At(cs, x).Touch(v, false)], x[1..], n, v)
  }

  /** `w` is `h` without some bytes at its front, and none of the longer contexts knows `v`. */
  ghost predicate Escaping(cs: Contexts, h: Key, w: Key, v: uint8)
    ensures Escaping(cs, h, w, v) ==> |w| <= |h|
    decreases |h|
  {
    h == w || (|h| > |w| && At(cs, h).counts[v] == 0 && Escaping(cs, h[1..], w, v))
  }

  lemma {:induction false} EscapingDeeper(cs: Contexts, h: Key, w: Key, v: uint8)
    requires Escaping(cs, h, w, v) && w != [] && At(cs, w).counts[v] == 0
    ensures Escaping(cs, h, w[1..], v)
    decreases |h|
  {
    if h != w {
      EscapingDeeper(cs, h[1..], w, v);
    }
  }

  lemma {:induction false} EscapingFrame(cs: Contexts, cs': Contexts, h: Key, w: Key, v: uint8)
    requires Escaping(cs, h, w, v) && forall y: Key :: |w| < |y| <= |h| ==> At(cs, y) == At(cs', y)
    ensures Escaping(cs', h, w, v)
    decreases |h|
  {
    if h != w {
      EscapingFrame(cs, cs', h[1..], w, v);
    }
  }

  /** Escaping does not look at the last context or at longer ones. */
  lemma EscapingOthers(cs: Contexts, k: Key, ctx: Context, h: Key, w: Key, v: uint8)
    requires Escaping(cs, h, w, v) && (k == w || |h| < |k|)
    ensures Escaping(cs[k := ctx], h, w, v)
  {
    EscapingFrame(cs, cs[k := ctx], h, w, v);
  }

  /** The search for `v` from `h` ends in `w`. */
  ghost predicate Escaped(cs: Contexts, h: Key, w: Key, v: uint8)
    ensures Escaped(cs, h, w, v) ==> |w| <= |h|
  {
    Escaping(cs, h, w, v) && (w == [] || At(cs, w).counts[v] > 0)
  }

  /**
   The encoder learns from the longest context down; the decoder learns in the last context first
   and then from the longest down to it. Both end with the same contexts and symbol count.
   */
  lemma {:induction false} LearnCommutes(cs: Contexts, h: Key, w: Key, v: uint8)
    requires Escaped(cs, h, w, v)
    ensures LearnAbove(cs[w := At(cs, w).Touch(v, w == [])], h, |w|, v) == Learn(cs, h, v)
    ensures Created(cs, h, v) == |h| - |w| + if At(cs, w).counts[v] > 0 then 0 else 1
    decreases |h|
  {
    hide Context.Touch, Slots;
    if h != w {
      var top, last := At(cs, h).Touch(v, false), At(cs, w).Touch(v, w == []);
      var cs1 := cs[h := top];
      EscapingFrame(cs, cs1, h[1..], w, v);
      LearnCommutes(cs1, h[1..], w, v);
      ShorterOnly(cs, h, top, h[1..], v);
      SwapUpdates(cs, h, top, w, last);
      assert At(cs1, w) == At(cs, w) && At(cs[w := last], h) == At(cs, h);
    }
  }

  lemma SwapUpdates(cs: Contexts, a: Key, x: Context, b: Key, y: Context)
    requires a != b
    ensures cs[a := x][b := y] == cs[b := y][a := x]
  {
  }

  // ---------- What is written for a byte string ----------

  /** The compressed form of `data`. */
  function Compressed(data: seq<uint8>): seq<uint8> {
    EmptyHealthy();
    AllSlotsValid(Empty(), data);
    Encode(Start, AllSlots(Empty(), data))
  }
}
