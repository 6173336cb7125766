/** The walk of enet/compress.c down a search tree in the symbol array, one turn at a time. */
module SymbolWalk {
  import opened Machine
  import opened ArithmeticCoder
  import opened ContextModel
  import opened SymbolTree

  /** Counting a byte in the tree `t` of `context` writes only that tree, the link to its root and,
      for an unknown byte, the slot `n`. */
  ghost predicate Counted(s: seq<Symbol>, s': seq<Symbol>, context: nat, t: Tree, n: nat) {
    && |s'| == |s|
    && forall i | 0 <= i < |s| && i != n ::
         && (i !in t.Indices() ==> SameNode(s[i], s'[i]))
         && (i != context ==> SameContext(s[i], s'[i]))
         && s[i].parent == s'[i].parent && s[i].escapes == s'[i].escapes && s[i].total == s'[i].total
  }

  /** `symbol` of `context` has been found or created for `v`, and `v` counted `d` more times. */
  ghost predicate CountedByte(s: seq<Symbol>, s': seq<Symbol>, n: nat, n': nat, context: nat, v: uint8, d: nat,
                              t: Tree, counts: Counts, symbol: nat)
  {
    var t' := t.Insert(v, d, n);
    && n < |s| && context < |s|
    && Counted(s, s', context, t, n)
    && t'.Held(s')
    && s'[context].symbols == t'.Offset(context) && context < t'.index
    && symbol == t'.Find(v)
    && n' == (if counts[v] > 0 then n else n + 1)
    && (counts[v] > 0 ==> s'[n] == s[n])
    && (counts[v] == 0 ==> s'[n].symbols == s'[n].escapes == s'[n].total == s'[n].parent == 0)
  }

  lemma TimesBit(x: nat, m: nat)
    requires m <= 1
    ensures x * m == if m == 0 then 0 else x
  {
  }

  /** What stays fixed during a walk: the array `s0` and tree `t` at its start, the first free slot
      `n`, and the byte `v` to be counted `d` more times. */
  datatype Walk = Walk(s0: seq<Symbol>, context: nat, t: Tree, counts: Counts, n: nat, v: uint8, d: uint8) {

    ghost predicate Startable() {
      && context < n < |s0| <= 0x1_0000 && 0 < d
      && s0[context].symbols == t.Offset(context) && (t.Node? ==> context < t.index)
      && t.Held(s0) && t.Separate() && t.Tallies(counts, 0, 256)
      && (forall i <- t.Indices() :: i < n)
      && Sum(counts, 0, 256) + d <= 0xFFFF && counts[v] + d <= 0xFF
    }

    /** The walk has come down to `sub`, the part of the tree for the bytes in `[lo, hi)`. */
    ghost predicate Follows(s: seq<Symbol>, sub: Tree, lo: nat, hi: nat) {
      && Startable()
      && lo <= v < hi <= 256
      && t.HeldTo(s, sub, v, d) && sub.Held(s)
      && sub.Separate() && sub.Indices() <= t.Indices() && sub.Tallies(counts, lo, hi)
      && sub.Find(v) == t.Find(v)
      && Counted(s0, s, context, t, n)
      && |s| == |s0| && s[n] == s0[n] && s[context].symbols == s0[context].symbols
    }

    lemma Start()
      requires Startable()
      ensures t.Nil? <==> s0[context].symbols == 0
      ensures t.Node? ==> context + s0[context].symbols == t.index < n
      ensures Follows(s0, t, 0, 256)
      ensures Sum(counts, 0, 0) == 0
    {
      WalkStart(t, s0, v, d);
      if t.Node? {
        assert t.index in t.Indices();
      }
    }

    /** What the array says of the node in hand, in terms of the frequencies. */
    lemma Facts(s: seq<Symbol>, sub: Tree, lo: nat, hi: nat)
      requires Follows(s, sub, lo, hi) && sub.Node?
      ensures |s| == |s0| && sub.index < n
      ensures var x := s[sub.index]; var l, r := sub.left, sub.right;
              && lo <= x.value == sub.value < hi
              && x.count == counts[x.value] && x.under == Sum(counts, lo, x.value + 1)
              && (x.left == 0 <==> l.Nil?) && (l.Node? ==> sub.index + x.left == l.index < n)
              && (x.right == 0 <==> r.Nil?) && (r.Node? ==> sub.index + x.right == r.index < n)
              && x.under + d <= 0xFFFF && (x.value == v ==> x.count + d <= 0xFF)
      ensures Sum(counts, 0, sub.value + 1) == Sum(counts, 0, lo) + Sum(counts, lo, sub.value + 1)
      ensures Sum(counts, 0, sub.value + 1) == Sum(counts, 0, sub.value) + counts[sub.value]
      ensures Sum(counts, 0, sub.value + 1) <= Sum(counts, 0, 256)
      ensures v < sub.value && sub.left.Nil? ==> Sum(counts, 0, v) == Sum(counts, 0, lo) && counts[v] == 0
      ensures v > sub.value && sub.right.Nil? ==> Sum(counts, 0, v) == Sum(counts, 0, sub.value + 1) && counts[v] == 0
    {
      hide Tree.HeldTo, Tree.Insert, Tree.Find, Tree.Held, Tree.Separate, Tree.Weight, Tree.Tallies, Sum, Counted;
      WalkNode(sub, s, counts, lo, hi);
      SumsAt(counts, lo, sub.value, v);
    }

    /** How a position inside the slot of `v` leads the decoder down the same path. */
    lemma Steer(s: seq<Symbol>, sub: Tree, lo: nat, hi: nat, m: nat, code: nat)
      requires Follows(s, sub, lo, hi) && sub.Node? && sub.index < |s| && m <= 1
      requires v * m + Sum(counts, 0, v) <= code < (v + 1) * m + Sum(counts, 0, v + 1)
      ensures var x := s[sub.index]; var after := Sum(counts, 0, lo) + x.under + (x.value + 1) * m; var before := x.count + m;
              && (after <= code <==> x.value < v)
              && before <= after && (code < after - before <==> v < x.value)
              && (v == x.value ==> after - before == v * m + Sum(counts, 0, v))
              && (v > x.value && sub.right.Nil? ==> m == 1 && v == x.value + 1 + (code - after) && code == v + Sum(counts, 0, v))
              && (v < x.value && sub.left.Nil? ==>
                    m == 1 && v == x.value - 1 - (after - before - code - 1) && code == v + Sum(counts, 0, v))
    {
      hide Tree.HeldTo, Tree.Held, Tree.Tallies, Tree.Separate, Tree.Insert, Counted, Follows, Sum;
      Facts(s, sub, lo, hi);
      TimesBit(v, m);
      TimesBit(v + 1, m);
      TimesBit(sub.value, m);
      TimesBit(sub.value + 1, m);
      PositionOrder(counts, m, sub.value, v, code);
      SumStep(counts, v);
      if v > sub.value {
        PositionMonotone(counts, m, sub.value + 1, v);
      } else if v < sub.value && sub.left.Nil? {
        WalkGap(s, sub, lo, hi);
      }
    }

    /** In an empty context only the root's own share is left to decode. */
    lemma EmptyPosition(m: nat, code: nat)
      requires Startable() && t.Nil? && m <= 1
      requires v * m + Sum(counts, 0, v) <= code < (v + 1) * m + Sum(counts, 0, v + 1)
      ensures m == 1 && code == v && Sum(counts, 0, v) == 0 && counts[v] == 0
    {
      SumZero(counts, 0, v);
      SumZero(counts, 0, v + 1);
    }

    lemma WalkGap(s: seq<Symbol>, sub: Tree, lo: nat, hi: nat)
      requires Follows(s, sub, lo, hi) && sub.Node? && v < sub.value && sub.left.Nil?
      ensures Sum(counts, 0, sub.value) == Sum(counts, 0, v)
    {
      WalkNode(sub, s, counts, lo, hi);
      SumSplit(counts, 0, v, sub.value);
      SumZero(counts, v, sub.value);
    }

    /** Writing tree fields of a node of `t` keeps to the frame. */
    lemma WriteNode(s: seq<Symbol>, i: nat, x: Symbol)
      requires Counted(s0, s, context, t, n) && i in t.Indices() && i < |s|
      requires SameContext(s[i], x) && s[i].parent == x.parent
      ensures Counted(s0, s[i := x], context, t, n)
    {
    }

    lemma Left(s: seq<Symbol>, s': seq<Symbol>, sub: Tree, lo: nat, hi: nat)
      requires Follows(s, sub, lo, hi) && sub.Node? && v < sub.value && sub.left.Node? && sub.index < |s|
      requires s[sub.index].under + d <= 0xFFFF
      requires s' == s[sub.index := s[sub.index].(under := s[sub.index].under + d)]
      ensures Follows(s', sub.left, lo, sub.value)
    {
      hide Tree.HeldTo, Tree.Held, Tree.Tallies, Tree.Separate, Counted;
      WalkNode(sub, s, counts, lo, hi);
      assert sub.index in t.Indices();
      WalkLeft(t, s, sub, v, d);
      WriteNode(s, sub.index, s'[sub.index]);
      HeldFrame(sub.left, s, s');
    }

    lemma Right(s: seq<Symbol>, sub: Tree, lo: nat, hi: nat)
      requires Follows(s, sub, lo, hi) && sub.Node? && sub.value < v && sub.right.Node?
      ensures Follows(s, sub.right, sub.value + 1, hi)
    {
      hide Tree.HeldTo, Tree.Held, Tree.Tallies, Tree.Separate, Counted;
      WalkNode(sub, s, counts, lo, hi);
      WalkRight(t, s, sub, v, d);
    }

    lemma CreateRoot(s': seq<Symbol>)
      requires Startable() && t.Nil?
      requires s' == s0[n := NewSymbol(v, d)][context := s0[context].(symbols := n - context)]
      ensures CountedByte(s0, s', n, n + 1, context, v, d, t, counts, n)
      ensures Sum(counts, 0, v) == 0 && counts[v] == 0
    {
      WalkEmpty(t, counts, v, d, n);
      LeafHeld(s', v, d, n);
    }

    /** A new symbol hung below `node` keeps to the frame. */
    lemma WriteChild(s: seq<Symbol>, s': seq<Symbol>, node: nat)
      requires Startable() && Counted(s0, s, context, t, n) && s[context].symbols == s0[context].symbols
      requires node in t.Indices() && node < |s| && |s'| == |s| && s'[n] == NewSymbol(v, d)
      requires SameContext(s[node], s'[node]) && s[node].parent == s'[node].parent
      requires forall i | 0 <= i < |s| && i != n && i != node :: s'[i] == s[i]
      ensures Counted(s0, s', context, t, n) && s'[context].symbols == s0[context].symbols
    {
    }

    /** The counted byte is in the tree, and found where the walk left it. */
    lemma Finished(s': seq<Symbol>, symbol: nat)
      requires Startable() && t.Node? && Counted(s0, s', context, t, n) && s'[context].symbols == s0[context].symbols
      requires t.Insert(v, d, n).Held(s')
      requires symbol == if counts[v] > 0 then t.Find(v) else n
      requires if counts[v] > 0 then s'[n] == s0[n] else s'[n] == NewSymbol(v, d)
      ensures CountedByte(s0, s', n, if counts[v] > 0 then n else n + 1, context, v, d, t, counts, symbol)
    {
      hide Counted, Tree.Held;
      FindInsert(t, counts, 0, 256, v, d, n);
    }

    lemma CreateLeft(s: seq<Symbol>, s': seq<Symbol>, sub: Tree, lo: nat, hi: nat)
      requires Follows(s, sub, lo, hi) && sub.Node? && v < sub.value && sub.left.Nil? && sub.index < n < |s|
      requires s[sub.index].under + d <= 0xFFFF
      requires s' == s[sub.index := s[sub.index].(under := s[sub.index].under + d, left := n - sub.index)][n := NewSymbol(v, d)]
      ensures CountedByte(s0, s', n, n + 1, context, v, d, t, counts, n)
    {
      hide Tree.HeldTo, Tree.Held, Tree.Tallies, Tree.Separate, Tree.Find, Tree.Insert, CountedByte, Counted;
      WalkNode(sub, s, counts, lo, hi);
      WalkCreateLeft(t, s, s', sub, v, d, n);
      WriteChild(s, s', sub.index);
      Finished(s', n);
    }

    lemma CreateRight(s: seq<Symbol>, s': seq<Symbol>, sub: Tree, lo: nat, hi: nat)
      requires Follows(s, sub, lo, hi) && sub.Node? && v > sub.value && sub.right.Nil? && sub.index < n < |s|
      requires s' == s[sub.index := s[sub.index].(right := n - sub.index)][n := NewSymbol(v, d)]
      ensures CountedByte(s0, s', n, n + 1, context, v, d, t, counts, n)
    {
      hide Tree.HeldTo, Tree.Held, Tree.Tallies, Tree.Separate, Tree.Find, Tree.Insert, CountedByte, Counted;
      WalkNode(sub, s, counts, lo, hi);
      WalkCreateRight(t, s, s', sub, v, d, n);
      WriteChild(s, s', sub.index);
      Finished(s', n);
    }

    lemma Found(s: seq<Symbol>, s': seq<Symbol>, sub: Tree, lo: nat, hi: nat)
      requires Follows(s, sub, lo, hi) && sub.Node? && v == sub.value && sub.index < |s|
      requires s[sub.index].under + d <= 0xFFFF && s[sub.index].count + d <= 0xFF
      requires s' == s[sub.index := s[sub.index].(under := s[sub.index].under + d, count := s[sub.index].count + d)]
      ensures counts[v] > 0 && CountedByte(s0, s', n, n, context, v, d, t, counts, sub.index)
    {
      hide Tree.HeldTo, Tree.Held, Tree.Tallies, Tree.Separate, Tree.Insert, CountedByte, Counted;
      WalkNode(sub, s, counts, lo, hi);
      assert sub.index in t.Indices();
      WalkFound(t, s, s', sub, v, d, n);
      WriteNode(s, sub.index, s'[sub.index]);
      Finished(s', sub.index);
    }
  }
}
