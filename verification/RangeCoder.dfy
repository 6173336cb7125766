/**
 The compressor and decompressor of enet/compress.c: loops over a byte string that update the
 symbol array, the coder's registers and the output in place.
 */
module RangeCoder {
  import opened Machine
  import opened ArithmeticCoder
  import opened ContextModel
  import opened SymbolTree
  import opened SymbolHeap
  import opened SymbolWalk

  /** Rescaling a tree writes only the counts of its nodes. */
  ghost predicate CountsOnly(s: seq<Symbol>, s': seq<Symbol>, nodes: set<nat>) {
    && |s'| == |s|
    && forall i | 0 <= i < |s| ::
         && (i !in nodes ==> s[i] == s'[i])
         && SameContext(s[i], s'[i]) && s[i].parent == s'[i].parent
  }

  lemma CountsOnlySame(s: seq<Symbol>, nodes: set<nat>)
    ensures CountsOnly(s, s, nodes)
  {
  }

  lemma CountsOnlyMore(s0: seq<Symbol>, s: seq<Symbol>, s': seq<Symbol>, some: set<nat>, nodes: set<nat>)
    requires CountsOnly(s0, s, nodes) && CountsOnly(s, s', some) && some <= nodes
    ensures CountsOnly(s0, s', nodes)
  {
  }

  lemma CountsOnlyHeld(t: Tree, s: seq<Symbol>, s': seq<Symbol>, nodes: set<nat>)
    requires CountsOnly(s, s', nodes) && nodes !! t.Indices() && t.Held(s)
    ensures t.Held(s') && forall i | 0 <= i < |s| && i !in nodes :: SameNode(s[i], s'[i])
  {
    HeldFrame(t, s, s');
  }

  class RangeCoder {
    const symbols: array<Symbol>
    var nextSymbol: nat

    constructor ()
      ensures fresh(symbols) && symbols.Length == MAX_SYMBOLS && nextSymbol == 0
    {
      symbols := new Symbol[MAX_SYMBOLS](i => NewSymbol(0, 0));
      nextSymbol := 0;
    }

    method SymbolCreate(value: uint8, count: uint8) returns (symbol: nat)
      requires nextSymbol < symbols.Length
      modifies symbols, this`nextSymbol
      ensures symbol == old(nextSymbol) && nextSymbol == symbol + 1
      ensures symbols[..] == old(symbols[..])[symbol := NewSymbol(value, count)]
    {
      symbol := nextSymbol;
      nextSymbol := nextSymbol + 1;
      symbols[symbol] := NewSymbol(value, count);
    }

    /** `ENET_CONTEXT_ENCODE`: find or create the symbol `v` of a context, count it, and report the
        frequency of `v` and of the bytes below it as they were before. */
    method ContextEncode(context: nat, v: uint8, root: bool, ghost t: Tree, ghost ctx: Context)
      returns (symbol: nat, under: uint16, count: uint16)
      requires symbols.Length == MAX_SYMBOLS && context < nextSymbol < MAX_SYMBOLS
      requires symbols[context].symbols == t.Offset(context) && (t.Node? ==> context < t.index)
      requires t.Held(symbols[..]) && t.Separate() && t.Tallies(ctx.counts, 0, 256)
      requires forall i <- t.Indices() :: i < nextSymbol
      requires ctx.Healthy(root)
      modifies symbols, this`nextSymbol
      ensures CountedByte(old(symbols[..]), symbols[..], old(nextSymbol), nextSymbol, context, v, Delta(root), t, ctx.counts, symbol)
      ensures under == ctx.Under(v, root) && count == ctx.Count(v, root)
      ensures symbol < nextSymbol == old(nextSymbol) + if ctx.counts[v] > 0 then 0 else 1
    {
      hide Sum, Context.Healthy, Context.Total, Walk.Follows, CountedByte, Tree.Held, Tree.Tallies, Tree.Separate, Tree.Indices, Tree.Size, Tree.Offset, Tree.Weight, Tree.Find, Tree.Insert;
      var update := Delta(root);
      ghost var n, counts := nextSymbol, ctx.counts;
      HealthyRoom(ctx, root);
      ghost var k := Walk(symbols[..], context, t, counts, n, v, update);
      k.Start();
      if symbols[context].symbols == 0 {
        symbol := SymbolCreate(v, update);
        symbols[context] := symbols[context].(symbols := symbol - context);
        k.CreateRoot(symbols[..]);
        under, count := v * Minimum(root), Minimum(root);
        return;
      }
      symbol, under, count := WalkEncode(context + symbols[context].symbols, v, root, k);
    }

    /** The loop of that macro, from the root of the tree down. */
    method WalkEncode(start: nat, v: uint8, root: bool, ghost k: Walk) returns (symbol: nat, under: uint16, count: uint16)
      requires symbols.Length == MAX_SYMBOLS && k.s0 == symbols[..] && k.n == nextSymbol < MAX_SYMBOLS
      requires k.Startable() && k.t.Node? && start == k.t.index && k.d == Delta(root) && k.v == v
      requires 256 * Minimum(root) + Sum(k.counts, 0, 256) <= 0xFFFF
      modifies symbols, this`nextSymbol
      ensures CountedByte(k.s0, symbols[..], k.n, nextSymbol, k.context, v, k.d, k.t, k.counts, symbol)
      ensures under == v * Minimum(root) + Sum(k.counts, 0, v) && count == Minimum(root) + k.counts[v]
      ensures symbol < nextSymbol == k.n + if k.counts[v] > 0 then 0 else 1
    {
      hide Sum, Walk.Follows, Walk.Startable, CountedByte, Tree.Held, Tree.Tallies, Tree.Separate, Tree.Indices, Tree.Find, Tree.Insert;
      var update := Delta(root);
      ghost var n, counts := nextSymbol, k.counts;
      k.Start();
      under := v * Minimum(root);
      count := Minimum(root);
      var node := start;
      ghost var sub: Tree, lo: nat, hi: nat := k.t, 0, 256;
      while true
        invariant lo <= v < hi <= 256 && k.Follows(symbols[..], sub, lo, hi) && sub.Node? && node == sub.index < n && nextSymbol == n
        invariant under == v * Minimum(root) + Sum(counts, 0, lo) && count == Minimum(root)
        decreases sub
      {
        ghost var s := symbols[..];
        k.Facts(s, sub, lo, hi);
        if v < symbols[node].value {
          symbols[node] := symbols[node].(under := symbols[node].under + update);
          if symbols[node].left != 0 {
            node := node + symbols[node].left;
            k.Left(s, symbols[..], sub, lo, hi);
            sub, hi := sub.left, sub.value;
            continue;
          }
          symbol := SymbolCreate(v, update);
          symbols[node] := symbols[node].(left := symbol - node);
          k.CreateLeft(s, symbols[..], sub, lo, hi);
        } else if v > symbols[node].value {
          under := under + symbols[node].under;
          if symbols[node].right != 0 {
            node := node + symbols[node].right;
            k.Right(s, sub, lo, hi);
            sub, lo := sub.right, sub.value + 1;
            continue;
          }
          symbol := SymbolCreate(v, update);
          symbols[node] := symbols[node].(right := symbol - node);
          k.CreateRight(s, symbols[..], sub, lo, hi);
        } else {
          count := count + symbols[node].count;
          under := under + symbols[node].under - symbols[node].count;
          symbols[node] := symbols[node].(under := symbols[node].under + update, count := symbols[node].count + update);
          symbol := node;
          k.Found(s, symbols[..], sub, lo, hi);
        }
        break;
      }
    }

    /**
     `ENET_CONTEXT_DECODE`: find the symbol whose share of the context holds position `code`, and
     count it. Only the root creates symbols; in a subcontext the C code gives up where the search
     ends, which a position inside the share of some byte `v` rules out.
     */
    method ContextDecode(context: nat, code: uint16, root: bool, ghost v: uint8, ghost t: Tree, ghost ctx: Context)
      returns (value: uint8, symbol: nat, under: uint16, count: uint16)
      requires symbols.Length == MAX_SYMBOLS && context < nextSymbol < MAX_SYMBOLS
      requires symbols[context].symbols == t.Offset(context) && (t.Node? ==> context < t.index)
      requires t.Held(symbols[..]) && t.Separate() && t.Tallies(ctx.counts, 0, 256)
      requires forall i <- t.Indices() :: i < nextSymbol
      requires ctx.Healthy(root)
      requires ctx.Under(v, root) <= code < ctx.Under(v + 1, root)
      modifies symbols, this`nextSymbol
      ensures value == v
      ensures CountedByte(old(symbols[..]), symbols[..], old(nextSymbol), nextSymbol, context, v, Delta(root), t, ctx.counts, symbol)
      ensures under == ctx.Under(v, root) && count == ctx.Count(v, root)
      ensures symbol < nextSymbol == old(nextSymbol) + if ctx.counts[v] > 0 then 0 else 1
    {
      hide Sum, Context.Healthy, Context.Total, Walk.Follows, CountedByte, Tree.Held, Tree.Tallies, Tree.Separate, Tree.Indices, Tree.Size, Tree.Offset, Tree.Weight, Tree.Find, Tree.Insert;
      var update, minimum := Delta(root), Minimum(root);
      ghost var n, counts := nextSymbol, ctx.counts;
      HealthyRoom(ctx, root);
      ghost var k := Walk(symbols[..], context, t, counts, n, v, update);

      k.Start();
      under := 0;
      count := minimum;
      if symbols[context].symbols == 0 {
        k.EmptyPosition(minimum, code);
        value := code / minimum;
        under := code - code % minimum;
        symbol := SymbolCreate(value, update);
        symbols[context] := symbols[context].(symbols := symbol - context);
        k.CreateRoot(symbols[..]);
        return;
      }
      value, symbol, under, count := WalkDecode(context + symbols[context].symbols, code, root, k);
    }

    /** The loop of that macro, from the root of the tree down. */
    method WalkDecode(start: nat, code: uint16, root: bool, ghost k: Walk)
      returns (value: uint8, symbol: nat, under: uint16, count: uint16)
      requires symbols.Length == MAX_SYMBOLS && k.s0 == symbols[..] && k.n == nextSymbol < MAX_SYMBOLS
      requires k.Startable() && k.t.Node? && start == k.t.index && k.d == Delta(root)
      requires 256 * Minimum(root) + Sum(k.counts, 0, 256) <= 0xFFFF
      requires k.v * Minimum(root) + Sum(k.counts, 0, k.v) <= code < (k.v + 1) * Minimum(root) + Sum(k.counts, 0, k.v + 1)
      modifies symbols, this`nextSymbol
      ensures value == k.v
      ensures CountedByte(k.s0, symbols[..], k.n, nextSymbol, k.context, k.v, k.d, k.t, k.counts, symbol)
      ensures under == k.v * Minimum(root) + Sum(k.counts, 0, k.v) && count == Minimum(root) + k.counts[k.v]
      ensures symbol < nextSymbol == k.n + if k.counts[k.v] > 0 then 0 else 1
    {
      hide Sum, Walk.Follows, Walk.Startable, CountedByte, Tree.Held, Tree.Tallies, Tree.Separate, Tree.Indices, Tree.Find, Tree.Insert;
      var update, minimum := Delta(root), Minimum(root);
      k.Start();
      under, count := 0, minimum;
      var node := start;
      ghost var sub: Tree, lo: nat, hi: nat := k.t, 0, 256;
      while true
        invariant lo <= k.v < hi <= 256 && k.Follows(symbols[..], sub, lo, hi) && sub.Node? && node == sub.index < k.n && nextSymbol == k.n
        invariant under == Sum(k.counts, 0, lo) && count == minimum
        decreases sub
      {
        ghost var s := symbols[..];
        k.Facts(s, sub, lo, hi);
        k.Steer(s, sub, lo, hi, minimum, code);
        var after: uint16 := under + symbols[node].under + (symbols[node].value + 1) * minimum;
        var before: uint16 := symbols[node].count + minimum;
        if code >= after {
          under := under + symbols[node].under;
          if symbols[node].right != 0 {
            node := node + symbols[node].right;
            k.Right(s, sub, lo, hi);
            sub, lo := sub.right, sub.value + 1;
            continue;
          }
          value := symbols[node].value + 1 + (code - after) / minimum;
          under := code - (code - after) % minimum;
          symbol := SymbolCreate(value, update);
          symbols[node] := symbols[node].(right := symbol - node);
          k.CreateRight(s, symbols[..], sub, lo, hi);
        } else if code < after - before {
          symbols[node] := symbols[node].(under := symbols[node].under + update);
          if symbols[node].left != 0 {
            node := node + symbols[node].left;
            k.Left(s, symbols[..], sub, lo, hi);
            sub, hi := sub.left, sub.value;
            continue;
          }
          value := symbols[node].value - 1 - (after - before - code - 1) / minimum;
          under := code - (after - before - code - 1) % minimum;
          symbol := SymbolCreate(value, update);
          symbols[node] := symbols[node].(left := symbol - node);
          k.CreateLeft(s, symbols[..], sub, lo, hi);
        } else {
          value := symbols[node].value;
          count := count + symbols[node].count;
          under := after - before;
          symbols[node] := symbols[node].(under := symbols[node].under + update, count := symbols[node].count + update);
          symbol := node;
          k.Found(s, symbols[..], sub, lo, hi);
        }
        break;
      }
    }

    /** `enet_symbol_rescale`: halve every count of a tree and restore the cumulative counts. */
    method SymbolRescale(start: nat, ghost t: Tree) returns (total: uint16)
      requires t.Node? && t.index == start && t.Held(symbols[..]) && t.Separate() && t.Weight() <= 0xFFFF
      modifies symbols
      ensures t.Rescaled().Held(symbols[..]) && total == t.Rescaled().Weight()
      ensures CountsOnly(old(symbols[..]), symbols[..], t.Indices())
      decreases t.Size(), 1
    {
      hide Tree.RescaledTo, Tree.Held, Tree.Separate, Tree.Indices, Tree.Rescaled, CountsOnly;
      ghost var s0 := symbols[..];
      total := 0;
      var symbol := start;
      RescaleStart(t, s0);
      RescaledIndices(t);
      CountsOnlySame(s0, t.Indices());
      ghost var sub := t;
      while true
        invariant sub.Node? && symbol == sub.index && sub.Size() <= t.Size()
        invariant t.RescaledTo(symbols[..], sub) && sub.Held(symbols[..])
        invariant sub.Separate() && sub.Indices() <= t.Indices() && sub.Weight() <= t.Weight()
        invariant total + sub.Rescaled().Weight() == t.Rescaled().Weight()
        invariant CountsOnly(s0, symbols[..], t.Indices())
        decreases sub
      {
        ghost var s := symbols[..];
        RescaleNode(sub, s);
        RescaleOne(symbol, sub);
        CountsOnlyMore(s0, s, symbols[..], sub.Indices() - sub.right.Indices(), t.Indices());
        CountsOnlyHeld(sub.right, s, symbols[..], sub.Indices() - sub.right.Indices());
        RescaleTurn(t, s, symbols[..], sub);
        total := total + symbols[symbol].under;
        if symbols[symbol].right == 0 {
          NilRescaled(sub.right, symbols[..]);
          break;
        }
        symbol := symbol + symbols[symbol].right;
        sub := sub.right;
      }
    }

    /** The body of that loop: one node and the subtree on its left. */
    method RescaleOne(symbol: nat, ghost sub: Tree)
      requires sub.Node? && sub.index == symbol && sub.Held(symbols[..]) && sub.Separate() && sub.Weight() <= 0xFFFF
      modifies symbols
      ensures symbol < symbols.Length && sub.left.Rescaled().Held(symbols[..])
      ensures var x, x' := old(symbols[symbol]), symbols[symbol];
              && x'.value == x.value && x'.left == x.left && x'.right == x.right
              && x'.count == Half(sub.count) && x'.under == Half(sub.count) + sub.left.Rescaled().Weight()
      ensures CountsOnly(old(symbols[..]), symbols[..], sub.Indices() - sub.right.Indices())
      decreases sub.Size(), 0
    {
      hide Tree.Held, Tree.Separate, Tree.Indices, Tree.Rescaled;
      ghost var s := symbols[..];
      RescaleNode(sub, s);
      symbols[symbol] := symbols[symbol].(count := symbols[symbol].count - symbols[symbol].count / 2);
      symbols[symbol] := symbols[symbol].(under := symbols[symbol].count);
      if symbols[symbol].left != 0 {
        HeldFrame(sub.left, s, symbols[..]);
        var below := SymbolRescale(symbol + symbols[symbol].left, sub.left);
        ghost var s2 := symbols[..];
        RescaledIndices(sub.left);
        symbols[symbol] := symbols[symbol].(under := symbols[symbol].under + below);
        HeldFrame(sub.left.Rescaled(), s2, symbols[..]);
      } else {
        NilRescaled(sub.left, symbols[..]);
      }
    }

    /** `ENET_CONTEXT_RESCALE`. */
    method ContextRescale(context: nat, root: bool, ghost t: Tree, ghost ctx: Context)
      requires context < symbols.Length && ContextHeld(symbols[..], context, t, ctx, root) && ctx.Total(root) <= 0xFFFF
      modifies symbols
      ensures ContextHeld(symbols[..], context, t.Rescaled(), ctx.Rescaled(), root)
      ensures OneContext(old(symbols[..]), symbols[..], context, t)
    {
      hide Tree.Held, Tree.Separate, Tree.Indices, Tree.Rescaled, Tree.Tallies;
      TalliesWeight(t, ctx.counts, 0, 256);
      RescaledTallies(t, ctx.counts, 0, 256);
      TalliesWeight(t.Rescaled(), Halved(ctx.counts), 0, 256);
      RescaledIndices(t);
      var total: uint16 := 0;
      if symbols[context].symbols != 0 {
        total := SymbolRescale(context + symbols[context].symbols, t);
      } else {
        NilRescaled(t, symbols[..]);
      }
      ghost var s1 := symbols[..];
      symbols[context] := symbols[context].(total := total);
      symbols[context] := symbols[context].(escapes := symbols[context].escapes - symbols[context].escapes / 2);
      symbols[context] := symbols[context].(total := symbols[context].total + symbols[context].escapes + 256 * Minimum(root));
      HeldFrame(t.Rescaled(), s1, symbols[..]);
    }

    /** What follows the counting of a byte: the context's escapes and total, and its rescaling. */
    method Adapt(context: nat, count: uint16, root: bool, ghost v: uint8, ghost t: Tree, ghost ctx: Context)
      returns (ghost t': Tree)
      requires context < symbols.Length && ctx.Healthy(root) && count == ctx.Count(v, root)
      requires symbols[context].symbols == t.Offset(context) && t.Node? && context < t.index
      requires t.Held(symbols[..]) && t.Separate() && t.Tallies(ctx.Bumped(v, root).counts, 0, 256)
      requires symbols[context].escapes == ctx.escapes && symbols[context].total == ctx.Total(root)
      modifies symbols
      ensures ContextHeld(symbols[..], context, t', ctx.Touch(v, root), root)
      ensures OneContext(old(symbols[..]), symbols[..], context, t)
      ensures t' == if ctx.NeedsRescale(v, root) then t.Rescaled() else t
    {
      hide Tree.Held, Tree.Separate, Tree.Indices, Tree.Rescaled, Tree.Tallies, Sum;
      ghost var s := symbols[..];
      TouchHealthy(ctx, v, root);
      BumpedTotal(ctx, v, root);
      if !root && count == 0 {
        symbols[context] := symbols[context].(escapes := symbols[context].escapes + ESCAPE_DELTA);
        symbols[context] := symbols[context].(total := symbols[context].total + ESCAPE_DELTA);
      }
      symbols[context] := symbols[context].(total := symbols[context].total + Delta(root));
      HeldFrame(t, s, symbols[..]);
      if count > CountLimit(root) || symbols[context].total > TOTAL_LIMIT {
        ContextRescale(context, root, t, ctx.Bumped(v, root));
        t' := t.Rescaled();
      } else {
        t' := t;
      }
    }

    ghost var layout: Layout
    ghost var contexts: Contexts

    /** The array holds `contexts`; the symbol `pending` may still lack its parent link. */
    ghost predicate Valid(pending: Key)
      reads this, symbols
    {
      symbols.Length == MAX_SYMBOLS && AllHealthy(contexts)
      && Laid(symbols[..], nextSymbol, layout, contexts, pending)
    }

    /** The parent link still to be written is that of `pending`, and it goes to `name`. */
    ghost predicate Pending(parent: int, pending: Key, name: Key)
      reads this
    {
      if pending == [] then parent == -1
      else pending in layout.at && parent == layout.at[pending] && pending[1..] == name
    }

    /** After a byte has been counted: `*parent = symbol`, then the context's escapes, total and
        rescaling. The array is laid out again, for the contexts as they are now. */
    method Finish(context: nat, symbol: nat, count: uint16, parent: int, ghost w: Key, ghost v: uint8,
                  ghost pending: Key, ghost s0: seq<Symbol>, ghost n0: nat)
      requires symbols.Length == MAX_SYMBOLS && AllHealthy(contexts)
      requires Laid(s0, n0, layout, contexts, pending) && w in layout.at && w in layout.trees && |w| <= SUBCONTEXT_ORDER
      requires context == layout.at[w] && Pending(parent, pending, w + [v]) && parent < symbols.Length && symbol <= 0xFFFF
      requires count == At(contexts, w).Count(v, w == [])
      requires At(contexts, w).Healthy(w == [])
      requires CountedByte(s0, symbols[..], n0, nextSymbol, context, v, Delta(w == []), layout.trees[w],
                           At(contexts, w).counts, symbol)
      modifies symbols, this`layout, this`contexts
      ensures Valid(if At(old(contexts), w).counts[v] > 0 || w == [] then [] else w + [v])
      ensures contexts == old(contexts)[w := At(old(contexts), w).Touch(v, w == [])]
      ensures w + [v] in layout.at && layout.at[w + [v]] == symbol
      ensures forall x <- old(layout.at) :: x in layout.at && layout.at[x] == old(layout.at[x])
    {
      hide Tree.Held, Tree.Separate, Tree.Indices, Tree.Rescaled, Tree.Tallies, Tree.Insert, Tree.Find, Sum, Named;
      hide Laid, CountedByte, OneContext, ContextHeld, Update.Valid, Context.Healthy, Context.Touch;
      var root := context == 0;
      ghost var ctx, s1, t1 := At(contexts, w), symbols[..], CountedTree(layout, w, v, n0);
      ghost var u := Update(s0, s1, n0, layout, contexts, pending, w, v, Nil);
      if parent >= 0 {
        symbols[parent] := symbols[parent].(parent := symbol);
      }
      ghost var s2 := symbols[..];
      LinkingKeepsTree(u, s1, s2, nextSymbol, symbol);
      ghost var t := Adapt(context, count, root, v, t1, ctx);
      u := u.(s' := symbols[..], t := t);
      StepsMakeUpdate(u, s1, s2, nextSymbol, symbol);
      UpdateLaid(u);
      UpdateFresh(u);
      TouchHealthy(ctx, v, w == []);
      layout := u.NewLayout();
      contexts := u.NewContexts();
    }

    /** Count `v` in the context `w`, link the symbol still pending to the symbol of `v`, and report
        the slot of `v` as it was before. */
    method Learn(context: nat, v: uint8, parent: int, ghost w: Key, ghost pending: Key)
      returns (symbol: nat, escapes: uint16, under: uint16, count: uint16, total: uint16)
      requires Valid(pending) && w in layout.at && |w| <= SUBCONTEXT_ORDER && nextSymbol < MAX_SYMBOLS
      requires context == layout.at[w] && Pending(parent, pending, w + [v])
      modifies symbols, this
      ensures Valid(if At(old(contexts), w).counts[v] > 0 || w == [] then [] else w + [v])
      ensures contexts == old(contexts)[w := At(old(contexts), w).Touch(v, w == [])]
      ensures w + [v] in layout.at && layout.at[w + [v]] == symbol
      ensures forall x <- old(layout.at) :: x in layout.at && layout.at[x] == old(layout.at[x])
      ensures var ctx, root := At(old(contexts), w), w == [];
              && escapes == ctx.escapes && total == ctx.Total(root)
              && under == ctx.Under(v, root) && count == ctx.Count(v, root)
              && nextSymbol == old(nextSymbol) + if ctx.counts[v] > 0 then 0 else 1
    {
      hide Tree.Held, Tree.Separate, Tree.Indices, Tree.Rescaled, Tree.Tallies, Tree.Insert, Tree.Find, Sum, Named;
      hide CountedByte, Laid, AllHealthy;
      ghost var s0, n0 := symbols[..], nextSymbol;
      ContextFacts(pending, w);
      escapes, total := symbols[context].escapes, symbols[context].total;
      symbol, under, count := ContextEncode(context, v, context == 0, layout.trees[w], At(contexts, w));
      Finish(context, symbol, count, parent, w, v, pending, s0, n0);
    }

    /** What a valid array says of one context. */
    lemma ContextFacts(pending: Key, w: Key)
      requires Valid(pending) && w in layout.at && |w| <= SUBCONTEXT_ORDER
      ensures w in layout.trees && layout.at[w] < nextSymbol && (layout.at[w] == 0 <==> w == [])
      ensures var i, t, ctx, root := layout.at[w], layout.trees[w], At(contexts, w), w == [];
              && symbols[i].symbols == t.Offset(i) && (t.Node? ==> i < t.index)
              && t.Held(symbols[..]) && t.Separate() && t.Tallies(ctx.counts, 0, 256)
              && (forall j <- t.Indices() :: j < nextSymbol)
              && ctx.Healthy(root)
              && symbols[i].escapes == ctx.escapes && symbols[i].total == ctx.Total(root)
      ensures pending != [] && pending in layout.at ==> layout.at[pending] < nextSymbol
    {
      hide Tree.Held, Tree.Separate, Tree.Tallies, Sum, Named;
      AtHealthy(contexts, w);
      NamedBelow(symbols[..], nextSymbol, layout, contexts, pending, w);
      assert ContextHeld(symbols[..], layout.at[w], layout.trees[w], At(contexts, w), w == []);
    }

    /** From a context to the next shorter one. */
    lemma NextContext(pending: Key, w: Key)
      requires Valid(pending) && w in layout.at && w != [] && w != pending
      ensures w[1..] in layout.at && layout.at[w] < symbols.Length && symbols[layout.at[w]].parent == layout.at[w[1..]]
    {
      assert ParentHeld(symbols[..], layout.at, w);
    }

    /** Code `v` in the contexts of the history `h` and learn it there: the loop over subcontexts and
        the root's turn in `enet_range_coder_compress`. */
    method EncodeByte(v: uint8, predicted0: nat, low0: uint32, range0: uint32, out: array<uint8>, pos0: nat,
                      ghost h: Key, ghost after: seq<Slot>, ghost z: seq<uint8>)
      returns (ok: bool, predicted: nat, low: uint32, range: uint32, pos: nat)
      requires Valid([]) && h in layout.at && |h| <= SUBCONTEXT_ORDER && predicted0 == layout.at[h]
      requires nextSymbol + |h| + 1 <= MAX_SYMBOLS
      requires Interval(low0, range0).Ready() && pos0 <= out.Length
      requires AllValid(after) && AllValid(Slots(contexts, h, v) + after)
      requires out[..pos0] + Encode(Interval(low0, range0), Slots(contexts, h, v) + after) == z
      modifies symbols, this, out
      ensures pos <= out.Length
      ensures !ok ==> |z| > out.Length
      ensures ok ==> Interval(low, range).Ready() && out[..pos] + Encode(Interval(low, range), after) == z
      ensures ok ==>
        && Valid([])
        && contexts == ContextModel.Learn(old(contexts), h, v)
        && nextSymbol == old(nextSymbol) + Created(old(contexts), h, v)
        && h + [v] in layout.at && predicted == layout.at[h + [v]]
    {
      hide Laid, Encode, AllHealthy, AllValid, Context.Healthy, Context.Touch, Interval.Ready, Sum, Context.Total, Context.Under;
      ok, predicted, low, range, pos := true, predicted0, low0, range0, pos0;
      var subcontext := predicted;
      var parent: int := -1;
      ghost var w, pending: Key := h, [];
      ContextFacts([], w);
      while subcontext != 0
        invariant Valid(pending) && w in layout.at && |w| <= |h| && subcontext == layout.at[w] && (subcontext == 0 <==> w == [])
        invariant nextSymbol + |w| + 1 <= MAX_SYMBOLS && pos <= out.Length
        invariant Pending(parent, pending, w + [v]) && (pending == [] <==> w == h) && (pending != [] ==> |pending| == |w| + 2)
        invariant w != h ==> h + [v] in layout.at && predicted == layout.at[h + [v]]
        invariant ContextModel.Learn(contexts, w, v) == ContextModel.Learn(old(contexts), h, v)
        invariant nextSymbol + Created(contexts, w, v) == old(nextSymbol) + Created(old(contexts), h, v)
        invariant Interval(low, range).Ready() && AllValid(Slots(contexts, w, v) + after)
        invariant out[..pos] + Encode(Interval(low, range), Slots(contexts, w, v) + after) == z
        decreases |w|
      {
        ghost var cs, ctx := contexts, At(contexts, w);
        NextContext(pending, w);
        FirstSlot(cs, w, v, after);
        var symbol, escapes, under, count, total := Learn(subcontext, v, parent, w, pending);
        if parent < 0 {
          predicted := symbol;
        }
        if count > 0 {
          ok, low, range, pos := RangeEncode(low, range, escapes + under, count, total, out, pos, after, z);
          return;
        }
        if escapes > 0 && escapes < total {
          FirstSlot(cs, w[1..], v, after);
          ok, low, range, pos := RangeEncode(low, range, 0, escapes, total, out, pos, Slots(cs, w[1..], v) + after, z);
          if !ok {
            return;
          }
        }
        ShorterOnly(cs, w, contexts[w], w[1..], v);
        pending := w + [v];
        parent := symbol;
        NextContext(pending, w);
        subcontext := symbols[subcontext].parent;
        w := w[1..];
        ContextFacts(pending, w);
        FirstSlot(contexts, w, v, after);
      }
      FirstSlot(contexts, w, v, after);
      var symbol, escapes, under, count, total := Learn(0, v, parent, w, pending);
      if parent < 0 {
        predicted := symbol;
      }
      ok, low, range, pos := RangeEncode(low, range, escapes + under, count, total, out, pos, after, z);
    }

    /** `ENET_CONTEXT_CREATE` of the root in an empty pool. */
    method CreateRoot()
      requires symbols.Length == MAX_SYMBOLS
      modifies symbols, this
      ensures Valid([]) && contexts == Empty().contexts && nextSymbol == 1
      ensures [] in layout.at && layout.at[[]] == 0
    {
      hide Laid, AllHealthy, Context.Healthy, Context.Total, NoCounts;
      nextSymbol := 0;
      var root := SymbolCreate(0, 0);
      symbols[root] := symbols[root].(escapes := 1);
      symbols[root] := symbols[root].(total := 1 + 256 * Minimum(true));
      symbols[root] := symbols[root].(symbols := 0);
      layout, contexts := Layout(map[[] := 0], map[[] := Nil]), Empty().contexts;
      FreshHealthy();
      RootLaid(symbols[..], FreshRoot(), contexts);
    }

    /** The array holds the contexts of `m`, and `predicted` is the context of its history. */
    ghost predicate Models(m: Model, predicted: nat, order: nat)
      reads this, symbols
    {
      && Valid([]) && m.Healthy()
      && contexts == m.contexts && nextSymbol == m.used && order == |m.history|
      && m.history in layout.at && layout.at[m.history] == predicted
    }

    lemma StartModels()
      requires Valid([]) && contexts == Empty().contexts && nextSymbol == 1 && [] in layout.at && layout.at[[]] == 0
      ensures Models(Empty(), 0, 0)
    {
      hide Laid, AllHealthy, Context.Healthy;
      EmptyHealthy();
    }

    lemma ModelsRoom(m: Model, predicted: nat, order: nat)
      requires Models(m, predicted, order)
      ensures |m.history| <= SUBCONTEXT_ORDER && nextSymbol + |m.history| + 1 <= MAX_SYMBOLS
    {
    }

    /** The contexts of `m` have learned `v`, whose symbol in the longest of them is `predicted`. */
    ghost predicate Learned(m: Model, v: uint8, predicted: nat)
      reads this, symbols
    {
      && Valid([]) && m.Healthy()
      && contexts == ContextModel.Learn(m.contexts, m.history, v)
      && nextSymbol == m.used + Created(m.contexts, m.history, v)
      && m.history + [v] in layout.at && layout.at[m.history + [v]] == predicted
    }

    /** The end of both loops, `predicted` being the symbol of the new byte in the longest context:
        move to the next history, and empty the pool if it is nearly full. */
    method NextInput(predicted0: nat, order0: nat, ghost m: Model, ghost v: uint8) returns (predicted: nat, order: nat)
      requires Learned(m, v, predicted0) && order0 == |m.history|
      modifies symbols, this
      ensures Models(m.Next(v), predicted, order)
    {
      hide Laid, AllHealthy, Context.Healthy, Context.Touch, ContextModel.Learn, Created;
      predicted, order := predicted0, order0;
      NextHealthy(m, v);
      if order >= SUBCONTEXT_ORDER {
        NextContext([], m.history + [v]);
        predicted := symbols[predicted].parent;
        assert (m.history + [v])[1..] == m.history[1..] + [v];
      } else {
        order := order + 1;
      }
      if nextSymbol >= symbols.Length - SUBCONTEXT_ORDER {
        CreateRoot();
        predicted := 0;
        order := 0;
      }
    }

    /**
     `enet_range_coder_compress`: the number of bytes written to `out`, or 0 if there is nothing to
     write or no room for it. As in C, only the first buffer may be empty.
     */
    method Compress(inBuffers: seq<seq<uint8>>, inLimit: nat, out: array<uint8>) returns (size: nat)
      requires symbols.Length == MAX_SYMBOLS
      requires forall i :: 1 <= i < |inBuffers| ==> inBuffers[i] != []
      modifies symbols, this, out
      ensures var z := Compressed(Flatten(inBuffers));
              if inBuffers == [] || inLimit == 0 || |z| > out.Length then size == 0
              else size == |z| && out[..size] == z
    {
      hide Laid, AllHealthy, Context.Healthy, Encode, Slots, Flush, Interval.Ready, AllSlots, AllValid, Model.Next, Model.Healthy;
      hide ContextModel.Learn, Created, Valid;
      if |inBuffers| == 0 || inLimit == 0 {
        return 0;
      }
      ghost var data, m := Flatten(inBuffers), Empty();
      ghost var z := Compressed(data);
      var buffer, i, nextBuffer := inBuffers[0], 0, 1;
      var low: uint32, range: uint32, pos: nat := 0, WORD - 1, 0;
      CreateRoot();
      var predicted, order := 0, 0;
      EmptyHealthy();
      StartReady();
      AllSlotsValid(m, data);
      assert out[..0] + Encode(Start, AllSlots(m, data)) == z;
      while true
        invariant i <= |buffer| && 1 <= nextBuffer <= |inBuffers| && pos <= out.Length
        invariant Models(m, predicted, order)
        invariant data == buffer[i..] + Flatten(inBuffers[nextBuffer..])
        invariant Interval(low, range).Ready() && AllValid(AllSlots(m, data))
        invariant out[..pos] + Encode(Interval(low, range), AllSlots(m, data)) == z
        decreases |data|, |inBuffers| - nextBuffer
      {
        if i >= |buffer| {
          if nextBuffer >= |inBuffers| {
            break;
          }
          buffer, i := inBuffers[nextBuffer], 0;
          nextBuffer := nextBuffer + 1;
        }
        var value := buffer[i];
        i := i + 1;
        ghost var rest := buffer[i..] + Flatten(inBuffers[nextBuffer..]);
        assert data == [value] + rest;
        ghost var after := AllSlots(m.Next(value), rest);
        SlotsOfByte(m, value, rest);
        ModelsRoom(m, predicted, order);
        var ok;
        ok, predicted, low, range, pos := EncodeByte(value, predicted, low, range, out, pos, m.history, after, z);
        if !ok {
          return 0;
        }
        predicted, order := NextInput(predicted, order, m, value);
        m, data := m.Next(value), rest;
      }
      assert data == [];
      EncodeNothing(m, Interval(low, range));
      var ok;
      ok, pos := RangeFlush(low, out, pos, z);
      size := if ok then pos else 0;
    }

    /**
     The decoder's search: from the longest context down, skip those that cannot code, take escapes,
     and stop where a symbol is found; or, at the root's escape, at the end of the data. `more` says
     whether a byte `v` lies ahead.
     */
    method DecodeBottom(predicted: nat, low0: uint32, range0: uint32, code0: uint32, input: seq<uint8>, next0: nat,
                        ghost p0: nat, ghost h: Key, ghost more: bool, ghost v: uint8, ghost after: seq<Slot>)
      returns (found: bool, value: uint8, subcontext: nat, bottom: nat,
               low: uint32, range: uint32, code: uint32, next: nat, ghost p: nat, ghost w: Key)
      requires Valid([]) && h in layout.at && |h| <= SUBCONTEXT_ORDER && predicted == layout.at[h]
      requires nextSymbol < MAX_SYMBOLS && AllValid(after) && (!more ==> after == [])
      requires Reads(input, next0, code0, p0)
      requires Ahead(input, p0, Interval(low0, range0), Remaining(more, contexts, h, v, after))
      modifies symbols, this
      ensures found == more
      ensures Reads(input, next, code, p) && Ahead(input, p, Interval(low, range), after)
      ensures found ==>
        && value == v && Valid([])
        && Escaped(old(contexts), h, w, v)
        && contexts == old(contexts)[w := At(old(contexts), w).Touch(v, w == [])]
        && nextSymbol == old(nextSymbol) + (if At(old(contexts), w).counts[v] > 0 then 0 else 1)
        && w in layout.at && subcontext == layout.at[w]
        && w + [v] in layout.at && bottom == layout.at[w + [v]]
        && forall x <- old(layout.at) :: x in layout.at && layout.at[x] == old(layout.at[x])
    {
      hide Laid, AllHealthy, AllValid, Context.Healthy, Context.Touch, Sum, Context.Total, Context.Under, Ahead, Reads, Remaining;
      found, value, bottom := false, 0, 0;
      low, range, code, next, p := low0, range0, code0, next0, p0;
      subcontext := predicted;
      w := h;
      ContextFacts([], w);
      while subcontext != 0
        invariant Valid([]) && contexts == old(contexts) && nextSymbol == old(nextSymbol) && layout == old(layout)
        invariant w in layout.at && subcontext == layout.at[w] && (subcontext == 0 <==> w == [])
        invariant |w| <= |h| && (more ==> Escaping(contexts, h, w, v))
        invariant Reads(input, next, code, p)
        invariant Ahead(input, p, Interval(low, range), Remaining(more, contexts, w, v, after))
        decreases |w|
      {
        NextSlotAhead(more, contexts, w, v, after);
        ContextFacts([], w);
        var escapes, total := symbols[subcontext].escapes, symbols[subcontext].total;
        if escapes > 0 && escapes < total {
          found, value, bottom, low, range, code, next, p :=
            DecodeIn(subcontext, low, range, code, input, next, p, w, more, v, after);
          if found {
            return;
          }
        }
        if more {
          EscapingDeeper(contexts, h, w, v);
        }
        NextContext([], w);
        subcontext := symbols[subcontext].parent;
        w := w[1..];
        ContextFacts([], w);
      }
      found, value, bottom, low, range, code, next, p :=
        DecodeIn(0, low, range, code, input, next, p, w, more, v, after);
    }

    /** One context that can code: either its escape lies ahead, or `v` is found there and learned. */
    method DecodeIn(context: nat, low0: uint32, range0: uint32, code0: uint32, input: seq<uint8>, next0: nat,
                    ghost p0: nat, ghost w: Key, ghost more: bool, ghost v: uint8, ghost after: seq<Slot>)
      returns (found: bool, value: uint8, bottom: nat, low: uint32, range: uint32, code: uint32, next: nat, ghost p: nat)
      requires Valid([]) && w in layout.at && |w| <= SUBCONTEXT_ORDER && context == layout.at[w]
      requires nextSymbol < MAX_SYMBOLS && AllValid(after) && (!more ==> after == [])
      requires w == [] || 0 < At(contexts, w).escapes < At(contexts, w).Total(false)
      requires Reads(input, next0, code0, p0)
      requires Ahead(input, p0, Interval(low0, range0), Remaining(more, contexts, w, v, after))
      modifies symbols, this
      ensures found == (more && (w == [] || At(old(contexts), w).counts[v] > 0))
      ensures Reads(input, next, code, p)
      ensures Ahead(input, p, Interval(low, range),
                    if found || w == [] then after else Remaining(more, old(contexts), w[1..], v, after))
      ensures !found ==>
        && Valid([]) && contexts == old(contexts) && nextSymbol == old(nextSymbol) && layout == old(layout)
      ensures found ==>
        && value == v && Valid([])
        && contexts == old(contexts)[w := At(old(contexts), w).Touch(v, w == [])]
        && nextSymbol == old(nextSymbol) + (if At(old(contexts), w).counts[v] > 0 then 0 else 1)
        && w in layout.at && context == layout.at[w]
        && w + [v] in layout.at && bottom == layout.at[w + [v]]
        && forall x <- old(layout.at) :: x in layout.at && layout.at[x] == old(layout.at[x])
    {
      hide Laid, AllHealthy, AllValid, Context.Healthy, Context.Touch, Sum, Context.Total, Context.Under, Ahead, Reads;
      hide Remaining, CountedByte, Tree.Held, Tree.Tallies, Tree.Separate, Tree.Indices, Normalise, Window, Read, Interval.Ready, Interval.Narrow, Delta;
      ghost var i, ctx := Interval(low0, range0), At(contexts, w);
      ghost var slot := NextSlot(more, ctx, w == [], v);
      ghost var hit := more && (w == [] || ctx.counts[v] > 0);
      ghost var ahead := if hit || w == [] then after else Remaining(more, contexts, w[1..], v, after);
      ContextFacts([], w);
      NextSlotAhead(more, contexts, w, v, after);
      if w != [] {
        NextSlotAhead(more, contexts, w[1..], v, after);
      }
      CodeInHand(input, next0, code0, p0);
      AheadReads(input, p0, i, Remaining(more, contexts, w, v, after), slot, ahead);
      if hit {
        PositionInSlot(ctx, v, w == [], Read(i, code0, ctx.Total(w == [])));
      }
      var escapes, total := symbols[context].escapes, symbols[context].total;
      var position: uint16 := Read(Interval(low0, range0), code0, total);
      range := Unit(range0, total);
      if position < escapes {
        found, value, bottom := false, 0, 0;
        low, range, code, next, p := RangeDecode(low0, range, code0, 0, escapes, input, next0, p0, i, total);
      } else {
        found := true;
        value, bottom, low, range, code, next, p :=
          DecodeSymbol(context, position - escapes, low0, range, code0, input, next0, p0, w, v, i);
      }
    }

    /** The symbol at `position` of a context is found, counted and taken from the stream. */
    method DecodeSymbol(context: nat, position: uint16, low0: uint32, unit: uint32, code0: uint32, input: seq<uint8>,
                        next0: nat, ghost p0: nat, ghost w: Key, ghost v: uint8, ghost i: Interval)
      returns (value: uint8, bottom: nat, low: uint32, range: uint32, code: uint32, next: nat, ghost p: nat)
      requires Valid([]) && w in layout.at && |w| <= SUBCONTEXT_ORDER && context == layout.at[w]
      requires nextSymbol < MAX_SYMBOLS && Reads(input, next0, code0, p0)
      requires w == [] || At(contexts, w).counts[v] > 0
      requires var ctx := At(contexts, w);
               && ctx.Under(v, w == []) <= position < ctx.Under(v + 1, w == [])
               && ctx.SymbolSlot(v, w == []).Valid()
               && i.Ready() && low0 == i.low && unit == Unit(i.range, ctx.Total(w == []))
      modifies symbols, this
      ensures value == v && Valid([])
      ensures contexts == old(contexts)[w := At(old(contexts), w).Touch(v, w == [])]
      ensures nextSymbol == old(nextSymbol) + if At(old(contexts), w).counts[v] > 0 then 0 else 1
      ensures w in layout.at && context == layout.at[w] && w + [v] in layout.at && bottom == layout.at[w + [v]]
      ensures forall x <- old(layout.at) :: x in layout.at && layout.at[x] == old(layout.at[x])
      ensures var n := i.Narrow(At(old(contexts), w).SymbolSlot(v, w == []));
              && n.Nested()
              && Interval(low, range) == Normalise(n).interval && p == p0 + |Normalise(n).bytes|
      ensures Reads(input, next, code, p)
    {
      hide Laid, AllHealthy, Context.Healthy, Context.Touch, Context.Under, Context.Total, Context.Count, Reads, Delta;
      hide CountedByte, Tree.Held, Tree.Tallies, Tree.Separate, Tree.Indices, Normalise, Interval.Narrow, Interval.Ready;
      ghost var ctx, s0, n0 := At(contexts, w), symbols[..], nextSymbol;
      ContextFacts([], w);
      var escapes, total := symbols[context].escapes, symbols[context].total;
      var under, count;
      value, bottom, under, count := ContextDecode(context, position, context == 0, v, layout.trees[w], ctx);
      low, range, code, next, p := RangeDecode(low0, unit, code0, escapes + under, count, input, next0, p0, i, total);
      Finish(context, bottom, count, -1, w, v, [], s0, n0);
    }

    /** The decoder's `patchContexts` loop: the contexts that escaped learn the byte after all, and
        their new symbols are linked down to the symbol found. */
    method PatchContexts(predicted0: nat, subcontext: nat, bottom: nat, value: uint8, ghost h: Key, ghost w: Key, ghost cs: Contexts)
      returns (predicted: nat)
      requires Valid([]) && h in layout.at && predicted0 == layout.at[h] && |h| <= SUBCONTEXT_ORDER
      requires w in layout.at && subcontext == layout.at[w]
      requires w + [value] in layout.at && bottom == layout.at[w + [value]]
      requires Escaped(cs, h, w, value) && contexts == cs[w := At(cs, w).Touch(value, w == [])]
      requires |w| <= |h| && nextSymbol + |h| - |w| <= MAX_SYMBOLS
      modifies symbols, this
      ensures Valid([]) && contexts == ContextModel.Learn(cs, h, value)
      ensures nextSymbol == old(nextSymbol) + |h| - |w|
      ensures h + [value] in layout.at && predicted == layout.at[h + [value]]
    {
      hide Laid, AllHealthy, Context.Healthy, Context.Touch;
      predicted := predicted0;
      var patch := predicted;
      var parent: int := -1;
      ghost var x, pending: Key := h, [];
      LearnCommutes(cs, h, w, value);
      EscapingOthers(cs, w, contexts[w], h, w, value);
      SameSlot([], x, w);
      while patch != subcontext
        invariant Valid(pending) && x in layout.at && |w| <= |x| <= |h| && patch == layout.at[x]
        invariant patch == subcontext <==> x == w
        invariant w in layout.at && subcontext == layout.at[w]
        invariant w + [value] in layout.at && bottom == layout.at[w + [value]]
        invariant Escaping(contexts, x, w, value)
        invariant LearnAbove(contexts, x, |w|, value) == ContextModel.Learn(cs, h, value)
        invariant nextSymbol + |x| == old(nextSymbol) + |h|
        invariant Pending(parent, pending, x + [value]) && (pending == [] <==> x == h) && (pending != [] ==> |pending| == |x| + 2)
        invariant x != h ==> h + [value] in layout.at && predicted == layout.at[h + [value]]
        decreases |x|
      {
        NextContext(pending, x);
        EscapingOthers(contexts, x, At(contexts, x).Touch(value, false), x[1..], w, value);
        var symbol, _, _, _, _ := Learn(patch, value, parent, x, pending);
        if parent < 0 {
          predicted := symbol;
        }
        pending := x + [value];
        parent := symbol;
        NextContext(pending, x);
        patch := symbols[patch].parent;
        x := x[1..];
        SameSlot(pending, x, w);
      }
      if parent < 0 {
        predicted := bottom;
      } else {
        ghost var s := symbols[..];
        LinkBounds(pending, w + [value]);
        symbols[parent] := symbols[parent].(parent := bottom);
        LinkLaid(s, symbols[..], nextSymbol, layout, contexts, pending);
      }
    }

    lemma SameSlot(pending: Key, x: Key, w: Key)
      requires Valid(pending) && x in layout.at && w in layout.at
      ensures layout.at[x] == layout.at[w] <==> x == w
    {
    }

    lemma LinkBounds(pending: Key, name: Key)
      requires Valid(pending) && pending in layout.at && name in layout.at
      ensures layout.at[pending] < symbols.Length && layout.at[name] <= 0xFFFF
    {
    }

    /** Decode one byte in the contexts of the history `h` and learn it there, or find the end of the
        data: one turn of the loop in `enet_range_coder_decompress`, but for its output. */
    method DecodeByte(predicted0: nat, low0: uint32, range0: uint32, code0: uint32, input: seq<uint8>, next0: nat,
                      ghost p0: nat, ghost h: Key, ghost more: bool, ghost v: uint8, ghost after: seq<Slot>)
      returns (found: bool, value: uint8, predicted: nat, low: uint32, range: uint32, code: uint32, next: nat, ghost p: nat)
      requires Valid([]) && h in layout.at && |h| <= SUBCONTEXT_ORDER && predicted0 == layout.at[h]
      requires nextSymbol + |h| + 1 <= MAX_SYMBOLS && AllValid(after) && (!more ==> after == [])
      requires Reads(input, next0, code0, p0)
      requires Ahead(input, p0, Interval(low0, range0), Remaining(more, contexts, h, v, after))
      modifies symbols, this
      ensures found == more
      ensures Reads(input, next, code, p) && Ahead(input, p, Interval(low, range), after)
      ensures found ==>
        && value == v && Valid([])
        && contexts == ContextModel.Learn(old(contexts), h, v)
        && nextSymbol == old(nextSymbol) + Created(old(contexts), h, v)
        && h + [v] in layout.at && predicted == layout.at[h + [v]]
    {
      hide Laid, AllHealthy, Context.Healthy, Context.Touch, AllValid, Valid, Ahead, Reads;
      hide ContextModel.Learn, Created, LearnAbove, Remaining, Escaping;
      var subcontext, bottom;
      ghost var w, cs := [], contexts;
      found, value, subcontext, bottom, low, range, code, next, p, w :=
        DecodeBottom(predicted0, low0, range0, code0, input, next0, p0, h, more, v, after);
      predicted := 0;
      if found {
        LearnCommutes(cs, h, w, v);
        predicted := PatchContexts(predicted0, subcontext, bottom, value, h, w, cs);
      }
    }

    /** One turn of that loop, as far as the symbol array and the stream are concerned: `rest` is what lies ahead. */
    method NextByte(predicted0: nat, order: nat, low0: uint32, range0: uint32, code0: uint32, input: seq<uint8>, next0: nat,
                    ghost p0: nat, ghost m: Model, ghost rest: seq<uint8>)
      returns (found: bool, value: uint8, predicted: nat, low: uint32, range: uint32, code: uint32, next: nat, ghost p: nat)
      requires Models(m, predicted0, order)
      requires Reads(input, next0, code0, p0) && Ahead(input, p0, Interval(low0, range0), AllSlots(m, rest))
      modifies symbols, this
      ensures found == (rest != [])
      ensures found ==> value == rest[0] && Learned(m, value, predicted) && order == |m.history|
                        && Reads(input, next, code, p) && Ahead(input, p, Interval(low, range), AllSlots(m.Next(value), rest[1..]))
    {
      hide Laid, AllHealthy, Context.Healthy, Encode, Slots, Flush, Interval.Ready, AllSlots, AllValid, Model.Next, Model.Healthy;
      hide ContextModel.Learn, Created, Valid, Ahead, Reads, Remaining;
      ghost var more := rest != [];
      ghost var v: uint8, tail := if more then rest[0] else 0, if more then rest[1..] else [];
      ghost var after := if more then AllSlots(m.Next(v), tail) else [];
      RestAhead(m, rest, v, tail);
      ModelsRoom(m, predicted0, order);
      found, value, predicted, low, range, code, next, p :=
        DecodeByte(predicted0, low0, range0, code0, input, next0, p0, m.history, more, v, after);
    }

    /** `ENET_RANGE_CODER_OUTPUT`, where there is room. */
    method Output(out: array<uint8>, pos: nat, value: uint8) returns (next: nat)
      requires pos < out.Length
      modifies out
      ensures next == pos + 1 && out[..next] == old(out[..pos]) + [value]
    {
      out[pos] := value;
      next := pos + 1;
    }

    /**
     `enet_range_coder_decompress` on a compressed string: nothing marks its end, yet exactly `data`
     comes back; or 0, if there is no room for it.
     */
    method Decompress(inData: seq<uint8>, out: array<uint8>, ghost data: seq<uint8>) returns (size: nat)
      requires symbols.Length == MAX_SYMBOLS && inData == Compressed(data)
      modifies symbols, this, out
      ensures if |data| > out.Length then size == 0 else size == |data| && out[..size] == data
    {
      hide Laid, AllHealthy, Context.Healthy, Encode, Slots, Flush, Interval.Ready, AllSlots, AllValid, Model.Next, Model.Healthy;
      hide ContextModel.Learn, Created, Valid, Ahead, Reads, Remaining, Models, Learned, Empty, Compressed;
      CompressedEmpty(data);
      if |inData| == 0 {
        return 0;
      }
      ghost var m, rest := Empty(), data;
      CreateRoot();
      var predicted, order := 0, 0;
      var low: uint32, range: uint32, pos: nat := 0, WORD - 1, 0;
      var code, next := RangeSeed(inData);
      ghost var p: nat := 0;
      AheadAtStart(data);
      StartModels();
      while true
        invariant pos <= out.Length && data == out[..pos] + rest
        invariant Models(m, predicted, order)
        invariant Reads(inData, next, code, p) && Ahead(inData, p, Interval(low, range), AllSlots(m, rest))
        decreases |rest|
      {
        var found, value;
        found, value, predicted, low, range, code, next, p := NextByte(predicted, order, low, range, code, inData, next, p, m, rest);
        if !found {
          break;
        }
        if pos >= out.Length {
          return 0;
        }
        ghost var done, tail := out[..pos], rest[1..];
        assert rest == [value] + tail;
        pos := Output(out, pos, value);
        MoveByte(done, value, [], tail);
        predicted, order := NextInput(predicted, order, m, value);
        m, rest := m.Next(value), tail;
      }
      size := pos;
    }
  }

  lemma CompressedEmpty(data: seq<uint8>)
    ensures Compressed(data) == [] <==> data == []
  {
    EmptyHealthy();
    AllSlotsValid(Empty(), data);
    if data == [] {
      EncodeNothing(Empty(), Start);
    } else {
      FirstByteLifts(data[0], data[1..]);
      assert data == [data[0]] + data[1..];
    }
  }

  /** The first byte already lifts the stream above zero, so something is written. */
  lemma FirstByteLifts(v: uint8, rest: seq<uint8>)
    ensures Compressed([v] + rest) != []
  {
    hide Sum, Encode, Window, Context.Healthy, Context.Total, Model.Next;
    var m, root := Empty(), FreshRoot();
    EmptyHealthy();
    SlotsOfByte(m, v, rest);
    FreshHealthy();
    SymbolSlotValid(root, v, true);
    StartReady();
    AheadAtStart([v] + rest);
    AheadReads(Compressed([v] + rest), 0, Start, AllSlots(m, [v] + rest), root.SymbolSlot(v, true), AllSlots(m.Next(v), rest));
    WindowEmpty();
    ReadZero(Start, root.Total(true));
  }

  lemma WindowEmpty()
    ensures Window([]) == 0
  {
  }

  lemma ReadZero(i: Interval, total: nat)
    requires i.low == 0 && 0 < total <= i.range
    ensures Read(i, 0, total) == 0
  {
  }

  lemma AheadAtStart(data: seq<uint8>)
    ensures Ahead(Compressed(data), 0, Start, AllSlots(Empty(), data))
  {
    EmptyHealthy();
    AllSlotsValid(Empty(), data);
    assert Drop(Compressed(data), 0) == Compressed(data);
  }

  lemma RestAhead(m: Model, rest: seq<uint8>, v: uint8, tail: seq<uint8>)
    requires m.Healthy() && (rest != [] ==> rest == [v] + tail)
    ensures var more := rest != []; var after := if more then AllSlots(m.Next(v), tail) else [];
            AllValid(after) && Remaining(more, m.contexts, m.history, v, after) == AllSlots(m, rest)
  {
    if rest != [] {
      SlotsOfByte(m, v, tail);
    }
  }

  lemma CodeInHand(input: seq<uint8>, next: nat, code: nat, p: nat)
    requires Reads(input, next, code, p)
    ensures code == Window(Drop(input, p))
  {
  }

  function Flatten(buffers: seq<seq<uint8>>): seq<uint8> {
    if buffers == [] then [] else buffers[0] + Flatten(buffers[1..])
  }

  lemma SlotsOfByte(m: Model, v: uint8, rest: seq<uint8>)
    requires m.Healthy()
    ensures var after := AllSlots(m.Next(v), rest);
            && AllSlots(m, [v] + rest) == Slots(m.contexts, m.history, v) + after
            && AllValid(after) && AllValid(Slots(m.contexts, m.history, v) + after)
  {
    assert ([v] + rest)[1..] == rest;
    AllSlotsValid(m, [v] + rest);
    NextHealthy(m, v);
    AllSlotsValid(m.Next(v), rest);
  }

  lemma StartReady()
    ensures Start.Ready()
  {
  }

  lemma EncodeNothing(m: Model, i: Interval)
    requires i.Ready()
    ensures AllSlots(m, []) == [] && AllValid(AllSlots(m, [])) && Encode(i, []) == Flush(i.low)
  {
  }
}
