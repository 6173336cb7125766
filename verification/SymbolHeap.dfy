/**
 How the symbol array of enet/compress.c holds a whole context model: which slot belongs to which
 byte string, and what one context's update does to the rest.
 */
module SymbolHeap {
  import opened Machine
  import opened ContextModel
  import opened SymbolTree
  import opened SymbolWalk

  /**
   Where things are in the array. A symbol is named by the bytes that lead to it: the symbol `v` in
   the tree of context `w` is `w + [v]`, and is itself the context of that name. Encoder and decoder
   allocate in different orders, so they have different layouts of the same model.
   */
  datatype Layout = Layout(at: map<Key, nat>, trees: map<Key, Tree>)

  /** The symbols of the tree of `w` are where `at` says. */
  ghost predicate Named(t: Tree, w: Key, at: map<Key, nat>) {
    t.Node? ==>
      && w + [t.value] in at && at[w + [t.value]] == t.index
      && Named(t.left, w, at) && Named(t.right, w, at)
  }

  ghost predicate ContextHeld(s: seq<Symbol>, i: nat, t: Tree, ctx: Context, root: bool) {
    && i < |s|
    && s[i].symbols == t.Offset(i) && (t.Node? ==> i < t.index)
    && t.Held(s) && t.Separate() && t.Tallies(ctx.counts, 0, 256)
    && s[i].escapes == ctx.escapes
    && s[i].total == ctx.Total(root)
  }

  ghost predicate Injective(at: map<Key, nat>) {
    forall w, x | w in at && x in at && at[w] == at[x] :: w == x
  }

  function Front(w: Key): Key requires w != [] { w[..|w| - 1] }
  function Last(w: Key): uint8 requires w != [] { w[|w| - 1] }

  /** The symbol `w` belongs to a context that knows its byte. */
  ghost predicate FrontHeld(at: map<Key, nat>, cs: Contexts, w: Key) {
    w != [] ==> Front(w) in at && At(cs, Front(w)).counts[Last(w)] > 0
  }

  /** The symbol `w` is linked to the symbol of the same byte in the next shorter context. */
  ghost predicate ParentHeld(s: seq<Symbol>, at: map<Key, nat>, w: Key) {
    w != [] ==> w in at && w[1..] in at && at[w] < |s| && s[at[w]].parent == at[w[1..]]
  }

  /** The first `n` slots of `s` hold the contexts `cs`; only `pending` may still lack its parent link. */
  ghost predicate Laid(s: seq<Symbol>, n: nat, l: Layout, cs: Contexts, pending: Key) {
    && |s| == MAX_SYMBOLS && 0 < n <= |s|
    && [] in l.at && l.at[[]] == 0
    && l.trees.Keys == l.at.Keys
    && cs.Keys <= l.at.Keys
    && Injective(l.at)
    && (forall w <- l.at :: |w| <= SUBCONTEXT_ORDER + 1 && l.at[w] < n)
    && (forall w {:trigger l.trees[w]} | w in l.at :: Named(l.trees[w], w, l.at))
    && (forall w {:trigger l.trees[w]} | w in l.at :: ContextHeld(s, l.at[w], l.trees[w], At(cs, w), w == []))
    && (forall w {:trigger FrontHeld(l.at, cs, w)} | w in l.at :: FrontHeld(l.at, cs, w))
    && (forall w {:trigger ParentHeld(s, l.at, w)} | w in l.at && w != pending :: ParentHeld(s, l.at, w))
  }

  // ---------- Names ----------

  lemma FrontLast(w: Key, v: uint8)
    ensures Front(w + [v]) == w && Last(w + [v]) == v
  {
  }

  lemma {:induction false} NamedSlots(t: Tree, w: Key, at: map<Key, nat>)
    requires Named(t, w, at)
    ensures forall i <- t.Indices() :: exists v: uint8 :: w + [v] in at && at[w + [v]] == i
  {
    if t.Node? {
      NamedSlots(t.left, w, at);
      NamedSlots(t.right, w, at);
    }
  }

  /** Different contexts have no slot in common. */
  lemma TreesDisjoint(l: Layout, w: Key, x: Key)
    requires l.trees.Keys == l.at.Keys && Injective(l.at) && w in l.at && x in l.at && w != x
    requires Named(l.trees[w], w, l.at) && Named(l.trees[x], x, l.at)
    ensures l.trees[w].Indices() !! l.trees[x].Indices()
  {
    NamedSlots(l.trees[w], w, l.at);
    NamedSlots(l.trees[x], x, l.at);
    forall i | i in l.trees[w].Indices() && i in l.trees[x].Indices()
      ensures false
    {
      var u: uint8 :| w + [u] in l.at && l.at[w + [u]] == i;
      var v: uint8 :| x + [v] in l.at && l.at[x + [v]] == i;
      FrontLast(w, u);
      FrontLast(x, v);
    }
  }

  lemma NamedBelow(s: seq<Symbol>, n: nat, l: Layout, cs: Contexts, pending: Key, w: Key)
    requires Laid(s, n, l, cs, pending) && w in l.at
    ensures forall i <- l.trees[w].Indices() :: i < n
  {
    NamedSlots(l.trees[w], w, l.at);
  }

  lemma {:induction false} NamedMore(t: Tree, w: Key, at: map<Key, nat>, k: Key, i: nat)
    requires Named(t, w, at) && k !in at
    ensures Named(t, w, at[k := i])
  {
    if t.Node? {
      NamedMore(t.left, w, at, k, i);
      NamedMore(t.right, w, at, k, i);
    }
  }

  lemma {:induction false} NamedRescaled(t: Tree, w: Key, at: map<Key, nat>)
    requires Named(t, w, at)
    ensures Named(t.Rescaled(), w, at)
  {
    if t.Node? {
      NamedRescaled(t.left, w, at);
      NamedRescaled(t.right, w, at);
    }
  }

  /** A byte that a context knows has a symbol, and it is the one the tree search finds. */
  lemma {:induction false} NamedFind(t: Tree, w: Key, at: map<Key, nat>, counts: Counts, lo: nat, hi: nat, v: uint8)
    requires lo <= v < hi <= 256 && t.Tallies(counts, lo, hi) && Named(t, w, at) && counts[v] > 0
    ensures w + [v] in at && at[w + [v]] == t.Find(v)
  {
    if v < t.value {
      NamedFind(t.left, w, at, counts, lo, t.value, v);
    } else if t.value < v {
      NamedFind(t.right, w, at, counts, t.value + 1, hi, v);
    }
  }

  lemma {:induction false} NamedInsert(t: Tree, w: Key, at: map<Key, nat>, counts: Counts, lo: nat, hi: nat, v: uint8, d: nat, spare: nat)
    requires lo <= v < hi <= 256 && t.Tallies(counts, lo, hi) && Named(t, w, at)
    ensures counts[v] > 0 ==> Named(t.Insert(v, d, spare), w, at) && t.Insert(v, d, spare).Indices() == t.Indices()
    ensures counts[v] == 0 && w + [v] !in at ==> Named(t.Insert(v, d, spare), w, at[w + [v] := spare])
  {
    if t.Node? {
      if v < t.value {
        NamedInsert(t.left, w, at, counts, lo, t.value, v, d, spare);
      } else if t.value < v {
        NamedInsert(t.right, w, at, counts, t.value + 1, hi, v, d, spare);
      }
      if w + [v] !in at {
        NamedMore(t, w, at, w + [v], spare);
      }
    }
  }

  lemma {:induction false} FindRescaled(t: Tree, v: uint8)
    ensures t.Rescaled().Find(v) == t.Find(v)
  {
    if t.Node? {
      FindRescaled(t.left, v);
      FindRescaled(t.right, v);
    }
  }

  // ---------- One context learns a byte ----------

  /** What an update of context `w` may write: its nodes, its own context fields, one new slot and
      the parent link of `pending`. */
  ghost predicate OnlyContext(s: seq<Symbol>, s': seq<Symbol>, n: nat, l: Layout, w: Key, pending: Key)
    requires w in l.at && w in l.trees
  {
    && |s'| == |s|
    && (forall i | 0 <= i < |s| && i != n && i !in l.trees[w].Indices() :: SameNode(s[i], s'[i]))
    && (forall i | 0 <= i < |s| && i != n && i != l.at[w] :: SameContext(s[i], s'[i]))
    && (forall i | 0 <= i < |s| && i != n && !(pending in l.at && pending != [] && i == l.at[pending]) :: s[i].parent == s'[i].parent)
  }

  /** The other contexts are where they were. */
  lemma OthersHeld(s: seq<Symbol>, s': seq<Symbol>, n: nat, l: Layout, cs: Contexts, pending: Key, w: Key, x: Key)
    requires Laid(s, n, l, cs, pending) && w in l.at && x in l.at && x != w
    requires OnlyContext(s, s', n, l, w, pending)
    ensures ContextHeld(s', l.at[x], l.trees[x], At(cs, x), x == [])
  {
    TreesDisjoint(l, w, x);
    NamedBelow(s, n, l, cs, pending, x);
    HeldFrame(l.trees[x], s, s');
  }

  /**
   Context `w`, in a laid-out array, learns `v`: its tree becomes `t`, the array goes from `s` to
   `s'`, and the symbol still pending gets its parent link.
   */
  datatype Update = Update(s: seq<Symbol>, s': seq<Symbol>, n: nat, l: Layout, cs: Contexts,
                           pending: Key, w: Key, v: uint8, t: Tree)
  {
    function Name(): Key { w + [v] }

    predicate Known() { At(cs, w).counts[v] > 0 }

    function Learned(): Context { At(cs, w).Touch(v, w == []) }

    function NewContexts(): Contexts { cs[w := Learned()] }

    function NewAt(): map<Key, nat> {
      if Known() then l.at else l.at[Name() := n]
    }

    function NewLayout(): Layout {
      Layout(NewAt(), if Known() then l.trees[w := t] else l.trees[w := t][Name() := Nil])
    }

    function NewCount(): nat { if Known() then n else n + 1 }

    function NewPending(): Key { if Known() || w == [] then [] else Name() }

    ghost predicate Valid() {
      && Laid(s, n, l, cs, pending) && w in l.at && |w| <= SUBCONTEXT_ORDER
      && At(cs, w).Healthy(w == [])
      && OnlyContext(s, s', n, l, w, pending)
      && ContextHeld(s', l.at[w], t, Learned(), w == [])
      && Named(t, w, NewAt())
      && Name() in NewAt()
      && (pending != [] ==>
            pending in l.at && pending[1..] == Name() && s'[l.at[pending]].parent == NewAt()[Name()])
      && (!Known() ==>
            n < |s| && s'[n].symbols == s'[n].escapes == s'[n].total == s'[n].parent == 0)
    }
  }

  lemma UpdateFresh(u: Update)
    requires u.Valid()
    ensures u.Known() || u.Name() !in u.l.at
    ensures u.Name() != u.w && u.w in u.NewAt()
    ensures forall x <- u.l.at :: u.NewAt()[x] == u.l.at[x]
    ensures forall x <- u.NewAt() :: x in u.l.at || (x == u.Name() && !u.Known())
  {
    FrontLast(u.w, u.v);
    assert |u.Name()| == |u.w| + 1;
    if u.Name() in u.l.at {
      assert FrontHeld(u.l.at, u.cs, u.Name());
    }
  }

  lemma UpdateContexts(u: Update, x: Key)
    requires u.Valid() && x in u.NewAt()
    ensures var l' := u.NewLayout(); ContextHeld(u.s', l'.at[x], l'.trees[x], At(u.NewContexts(), x), x == [])
  {
    hide Tree.Insert, Tree.Rescaled, Tree.Find, Tree.Indices, Named, Context.Healthy, Context.Touch, Context.Total, Injective;
    UpdateFresh(u);
    if x == u.w {
    } else if x in u.l.at {
      OthersHeld(u.s, u.s', u.n, u.l, u.cs, u.pending, u.w, x);
    } else {
      assert x !in u.cs;
      FreshHealthy();
    }
  }

  lemma UpdateNames(u: Update, x: Key)
    requires u.Valid() && x in u.NewAt()
    ensures Named(u.NewLayout().trees[x], x, u.NewAt())
  {
    UpdateFresh(u);
    if x != u.w && x in u.l.at && !u.Known() {
      NamedMore(u.l.trees[x], x, u.l.at, u.Name(), u.n);
    }
  }

  lemma LearnedKnows(u: Update, b: uint8)
    requires At(u.cs, u.w).Healthy(u.w == []) && (b == u.v || At(u.cs, u.w).counts[b] > 0)
    ensures u.Learned().counts[b] > 0
  {
    TouchHealthy(At(u.cs, u.w), u.v, u.w == []);
  }

  lemma UpdateFronts(u: Update, x: Key)
    requires u.Valid() && x in u.NewAt()
    ensures FrontHeld(u.NewAt(), u.NewContexts(), x)
  {
    hide Tree.Held, Tree.Separate, Tree.Tallies, Tree.Insert, Tree.Rescaled, Tree.Find, Tree.Indices, Named, Context.Healthy,
      Context.Total, Context.Touch, ContextHeld, OnlyContext, ParentHeld;
    UpdateFresh(u);
    FrontLast(u.w, u.v);
    if x != [] {
      if x in u.l.at {
        assert FrontHeld(u.l.at, u.cs, x);
      }
      if Front(x) == u.w {
        LearnedKnows(u, Last(x));
      }
    }
  }

  lemma UpdateParents(u: Update, x: Key)
    requires u.Valid() && x in u.NewAt() && x != u.NewPending()
    ensures ParentHeld(u.s', u.NewAt(), x)
  {
    UpdateFresh(u);
    if x == [] || x == u.pending {
    } else if x in u.l.at {
      assert ParentHeld(u.s, u.l.at, x);
      assert u.l.at[x] != u.n;
    } else {
      assert x == u.Name() && u.w == [];
      assert x[1..] == [];
    }
  }

  lemma InjectiveMore(at: map<Key, nat>, k: Key, i: nat)
    requires Injective(at) && forall x <- at :: at[x] < i
    ensures Injective(at[k := i])
  {
  }

  lemma UpdateShape(u: Update)
    requires u.Valid()
    ensures var l' := u.NewLayout();
            && Injective(l'.at)
            && l'.trees.Keys == l'.at.Keys
            && u.NewContexts().Keys <= l'.at.Keys
            && forall w <- l'.at :: |w| <= SUBCONTEXT_ORDER + 1 && l'.at[w] < u.NewCount()
  {
    UpdateFresh(u);
    if !u.Known() {
      InjectiveMore(u.l.at, u.Name(), u.n);
    }
    assert u.NewLayout().trees.Keys == u.NewAt().Keys;
  }

  /** One context's update keeps the whole array laid out. */
  lemma UpdateLaid(u: Update)
    requires u.Valid()
    ensures Laid(u.s', u.NewCount(), u.NewLayout(), u.NewContexts(), u.NewPending())
  {
    UpdateShape(u);
    UpdateFresh(u);
    forall x <- u.NewAt()
      ensures ContextHeld(u.s', u.NewAt()[x], u.NewLayout().trees[x], At(u.NewContexts(), x), x == [])
    {
      UpdateContexts(u, x);
    }
    forall x <- u.NewAt() ensures Named(u.NewLayout().trees[x], x, u.NewAt()) {
      UpdateNames(u, x);
    }
    forall x <- u.NewAt() ensures FrontHeld(u.NewAt(), u.NewContexts(), x) {
      UpdateFronts(u, x);
    }
    forall x <- u.NewAt() | x != u.NewPending() ensures ParentHeld(u.s', u.NewAt(), x) {
      UpdateParents(u, x);
    }
  }

  /** Only the nodes of `t` and the context fields of `context` are written. */
  ghost predicate OneContext(s: seq<Symbol>, s': seq<Symbol>, context: nat, t: Tree) {
    && |s'| == |s|
    && forall i | 0 <= i < |s| ::
         && (i !in t.Indices() ==> SameNode(s[i], s'[i]))
         && (i != context ==> SameContext(s[i], s'[i]))
         && s[i].parent == s'[i].parent
  }

  /** The tree of context `w` with `v` counted, before any rescaling. */
  function CountedTree(l: Layout, w: Key, v: uint8, n: nat): Tree
    requires w in l.trees
  {
    l.trees[w].Insert(v, Delta(w == []), n)
  }

  /** Counting `v` in the tree of `w` suits the layout with its new symbol. */
  lemma CountedTreeFits(u: Update)
    requires Laid(u.s, u.n, u.l, u.cs, u.pending) && u.w in u.l.at
    ensures var t, t1 := u.l.trees[u.w], CountedTree(u.l, u.w, u.v, u.n);
            && u.n !in t.Indices() && t1.Separate() && t1.Indices() <= t.Indices() + {u.n}
            && t1.Tallies(At(u.cs, u.w).Bumped(u.v, u.w == []).counts, 0, 256)
            && Named(t1, u.w, u.NewAt()) && Named(t1.Rescaled(), u.w, u.NewAt())
            && u.Name() in u.NewAt() && u.NewAt()[u.Name()] == t1.Find(u.v)
  {
    var t, t1 := u.l.trees[u.w], CountedTree(u.l, u.w, u.v, u.n);
    var ctx, d := At(u.cs, u.w), Delta(u.w == []);
    NamedBelow(u.s, u.n, u.l, u.cs, u.pending, u.w);
    InsertSeparate(t, u.v, d, u.n);
    InsertTallies(t, ctx.counts, 0, 256, u.v, d, u.n);
    FindInsert(t, ctx.counts, 0, 256, u.v, d, u.n);
    if u.Known() {
      NamedFind(t, u.w, u.l.at, ctx.counts, 0, 256, u.v);
    } else {
      NameUnused(u);
    }
    NamedInsert(t, u.w, u.l.at, ctx.counts, 0, 256, u.v, d, u.n);
    NamedRescaled(t1, u.w, u.NewAt());
  }

  lemma NameUnused(u: Update)
    requires Laid(u.s, u.n, u.l, u.cs, u.pending) && u.w in u.l.at && !u.Known()
    ensures u.Name() !in u.l.at
  {
    FrontLast(u.w, u.v);
    if u.Name() in u.l.at {
      LaidFront(u.s, u.n, u.l, u.cs, u.pending, u.Name());
    }
  }

  lemma LaidFront(s: seq<Symbol>, n: nat, l: Layout, cs: Contexts, pending: Key, x: Key)
    requires Laid(s, n, l, cs, pending) && x in l.at
    ensures FrontHeld(l.at, cs, x)
  {
  }

  /** `v` has been counted in context `w`, and the pending symbol linked to the symbol of `v`. */
  ghost predicate CountedAndLinked(u: Update, s1: seq<Symbol>, s2: seq<Symbol>, n1: nat, symbol: nat) {
    && Laid(u.s, u.n, u.l, u.cs, u.pending) && u.w in u.l.at && |u.w| <= SUBCONTEXT_ORDER
    && At(u.cs, u.w).Healthy(u.w == [])
    && CountedByte(u.s, s1, u.n, n1, u.l.at[u.w], u.v, Delta(u.w == []), u.l.trees[u.w], At(u.cs, u.w).counts, symbol)
    && symbol <= 0xFFFF
    && (if u.pending == [] then s2 == s1
        else u.pending in u.l.at && u.l.at[u.pending] < |s1| && u.pending[1..] == u.Name()
             && s2 == s1[u.l.at[u.pending] := s1[u.l.at[u.pending]].(parent := symbol)])
  }

  lemma LinkingKeepsTree(u: Update, s1: seq<Symbol>, s2: seq<Symbol>, n1: nat, symbol: nat)
    requires CountedAndLinked(u, s1, s2, n1, symbol)
    ensures var context, t1, ctx := u.l.at[u.w], CountedTree(u.l, u.w, u.v, u.n), At(u.cs, u.w);
            && context < |s2| && (context == 0 <==> u.w == [])
            && s2[context].symbols == t1.Offset(context) && context < t1.index
            && t1.Held(s2) && t1.Separate() && t1.Tallies(ctx.Bumped(u.v, u.w == []).counts, 0, 256)
            && s2[context].escapes == ctx.escapes && s2[context].total == ctx.Total(u.w == [])
  {
    hide Tree.Held, Tree.Separate, Tree.Tallies, Tree.Rescaled, Tree.Find, Named;
    CountedTreeFits(u);
    HeldFrame(CountedTree(u.l, u.w, u.v, u.n), s1, s2);
    assert ContextHeld(u.s, u.l.at[u.w], u.l.trees[u.w], At(u.cs, u.w), u.w == []);
  }

  /** Adapting the context after that completes a valid update. */
  lemma StepsMakeUpdate(u: Update, s1: seq<Symbol>, s2: seq<Symbol>, n1: nat, symbol: nat)
    requires CountedAndLinked(u, s1, s2, n1, symbol)
    requires OneContext(s2, u.s', u.l.at[u.w], CountedTree(u.l, u.w, u.v, u.n))
    requires ContextHeld(u.s', u.l.at[u.w], u.t, u.Learned(), u.w == [])
    requires u.t == CountedTree(u.l, u.w, u.v, u.n) || u.t == CountedTree(u.l, u.w, u.v, u.n).Rescaled()
    ensures u.Valid() && n1 == u.NewCount() && u.Name() in u.NewAt() && u.NewAt()[u.Name()] == symbol
  {
    hide Tree.Held, Tree.Separate, Tree.Tallies, Tree.Insert, Tree.Rescaled, Tree.Find, Tree.Indices, Named, Tree.Weight,
      Tree.Size, Context.Healthy, Context.Total;
    CountedTreeFits(u);
    assert forall x <- u.l.at :: u.l.at[x] < u.n;
    StepsFrame(u, s1, s2, n1, symbol);
  }

  lemma StepsFrame(u: Update, s1: seq<Symbol>, s2: seq<Symbol>, n1: nat, symbol: nat)
    requires CountedAndLinked(u, s1, s2, n1, symbol)
    requires OneContext(s2, u.s', u.l.at[u.w], CountedTree(u.l, u.w, u.v, u.n))
    ensures OnlyContext(u.s, u.s', u.n, u.l, u.w, u.pending)
  {
    hide Tree.Held, Tree.Separate, Tree.Tallies, Tree.Insert, Tree.Rescaled, Tree.Find, Tree.Indices, Named, Context.Healthy,
      Laid, Tree.Size, Tree.Weight, Tree.Offset, ContextHeld, Context.Total;
    CountedTreeFits(u);
  }

  /** Writing the last missing parent link. */
  lemma LinkLaid(s: seq<Symbol>, s': seq<Symbol>, n: nat, l: Layout, cs: Contexts, pending: Key)
    requires Laid(s, n, l, cs, pending) && pending in l.at && pending != [] && pending[1..] in l.at
    requires l.at[pending] < |s| && l.at[pending[1..]] <= 0xFFFF
    requires s' == s[l.at[pending] := s[l.at[pending]].(parent := l.at[pending[1..]])]
    ensures Laid(s', n, l, cs, [])
  {
    forall x <- l.at
      ensures ContextHeld(s', l.at[x], l.trees[x], At(cs, x), x == [])
    {
      LinkContext(s, s', n, l, cs, pending, x);
    }
    forall x <- l.at
      ensures ParentHeld(s', l.at, x)
    {
      if x != pending {
        assert ParentHeld(s, l.at, x);
      }
    }
  }

  lemma LinkContext(s: seq<Symbol>, s': seq<Symbol>, n: nat, l: Layout, cs: Contexts, pending: Key, x: Key)
    requires Laid(s, n, l, cs, pending) && pending in l.at && x in l.at
    requires l.at[pending] < |s| && exists p: uint16 :: s' == s[l.at[pending] := s[l.at[pending]].(parent := p)]
    ensures ContextHeld(s', l.at[x], l.trees[x], At(cs, x), x == [])
  {
    assert ContextHeld(s, l.at[x], l.trees[x], At(cs, x), x == []);
    HeldFrame(l.trees[x], s, s');
  }

  /** An array whose slot 0 is a root that knows nothing holds just that root. */
  lemma RootLaid(s: seq<Symbol>, root: Context, cs: Contexts)
    requires |s| == MAX_SYMBOLS && cs == map[[] := root] && root.Healthy(true)
    requires s[0].symbols == 0 && s[0].escapes == root.escapes && s[0].total == root.Total(true)
    requires forall v :: 0 <= v < 256 ==> root.counts[v] == 0
    ensures Laid(s, 1, Layout(map[[] := 0], map[[] := Nil]), cs, []) && AllHealthy(cs)
  {
  }
}
