/**
 The search trees that enet/compress.c threads through its symbol array, and the ghost trees they
 stand for.
 */
module SymbolTree {
  import opened Machine
  import opened ContextModel

  /** `ENetSymbol`: a node of one search tree and, at the same time, the root of another. */
  datatype Symbol = Symbol(
    value: uint8, count: uint8, under: uint16, left: uint16, right: uint16,
    symbols: uint16, escapes: uint16, total: uint16, parent: uint16)

  predicate SameNode(a: Symbol, b: Symbol) {
    a.value == b.value && a.count == b.count && a.under == b.under && a.left == b.left && a.right == b.right
  }

  predicate SameContext(a: Symbol, b: Symbol) {
    a.symbols == b.symbols && a.escapes == b.escapes && a.total == b.total
  }

  /** The tree that a context's nodes form. */
  datatype Tree = Nil | Node(index: nat, value: uint8, count: nat, left: Tree, right: Tree) {

    function Weight(): nat {
      if Nil? then 0 else count + left.Weight() + right.Weight()
    }

    ghost function Size(): nat {
      if Nil? then 0 else 1 + left.Size() + right.Size()
    }

    ghost function Indices(): set<nat> {
      if Nil? then {} else {index} + left.Indices() + right.Indices()
    }

    /** No slot of the array is used twice. */
    ghost predicate Separate() {
      Node? ==>
        && index !in left.Indices() && index !in right.Indices()
        && left.Indices() !! right.Indices()
        && left.Separate() && right.Separate()
    }

    /** A search tree over `[lo, hi)` whose nodes are the bytes seen there, with their counts. */
    ghost predicate Tallies(counts: Counts, lo: nat, hi: nat)
      requires lo <= hi <= 256
    {
      if Nil? then
        forall v :: lo <= v < hi ==> counts[v] == 0
      else
        && lo <= value < hi
        && 0 < count == counts[value]
        && left.Tallies(counts, lo, value)
        && right.Tallies(counts, value + 1, hi)
    }

    /** Offset of this tree's root from a slot, with 0 for no tree. */
    ghost function Offset(from: nat): int {
      if Nil? then 0 else index - from
    }

    /** The array `s` holds this tree; children lie at positive offsets from their parents. */
    ghost predicate Held(s: seq<Symbol>) {
      Node? ==>
        && index < |s|
        && s[index].value == value
        && s[index].count == count
        && s[index].under == count + left.Weight()
        && s[index].left == left.Offset(index) && (left.Node? ==> index < left.index)
        && s[index].right == right.Offset(index) && (right.Node? ==> index < right.index)
        && left.Held(s) && right.Held(s)
    }

    /** `v` counted `d` more times; a new node takes slot `spare`. */
    function Insert(v: uint8, d: nat, spare: nat): (t: Tree)
      ensures t.Node? && (Node? ==> t.index == index && t.value == value)
    {
      if Nil? then Node(spare, v, d, Nil, Nil)
      else if v < value then this.(left := left.Insert(v, d, spare))
      else if value < v then this.(right := right.Insert(v, d, spare))
      else this.(count := count + d)
    }

    /** The slot of `v`'s node. */
    function Find(v: uint8): nat {
      if Nil? then 0
      else if v < value then left.Find(v)
      else if value < v then right.Find(v)
      else index
    }

    function Rescaled(): (t: Tree)
      ensures t.Nil? == Nil? && (Node? ==> t.index == index)
    {
      if Nil? then Nil else Node(index, value, Half(count), left.Rescaled(), right.Rescaled())
    }

    /** The array holds this tree, except that on the way to `v` the cumulative counts have
        already been raised by `d`, down to the subtree `hole`, which is untouched. */
    ghost predicate HeldTo(s: seq<Symbol>, hole: Tree, v: uint8, d: nat) {
      if this == hole then
        Held(s)
      else
        && Node? && v != value
        && index < |s| && index !in hole.Indices()
        && s[index].value == value
        && s[index].count == count
        && s[index].under == count + left.Weight() + (if v < value then d else 0)
        && s[index].left == left.Offset(index) && (left.Node? ==> index < left.index)
        && s[index].right == right.Offset(index) && (right.Node? ==> index < right.index)
        && (if v < value then left.HeldTo(s, hole, v, d) else left.Held(s) && left.Indices() !! hole.Indices())
        && (if v < value then right.Held(s) && right.Indices() !! hole.Indices() else right.HeldTo(s, hole, v, d))
    }

    /** The array holds this tree rescaled along its right spine, down to `hole`. */
    ghost predicate RescaledTo(s: seq<Symbol>, hole: Tree) {
      if this == hole then
        Held(s)
      else
        && Node?
        && index < |s| && index !in hole.Indices()
        && s[index].value == value
        && s[index].count == Half(count)
        && s[index].under == Half(count) + left.Rescaled().Weight()
        && s[index].left == left.Offset(index) && (left.Node? ==> index < left.index)
        && s[index].right == right.Offset(index) && (right.Node? ==> index < right.index)
        && left.Rescaled().Held(s) && left.Indices() !! hole.Indices()
        && right.RescaledTo(s, hole)
    }
  }

  // ---------- Trees and frequencies ----------

  /** The counts in a tree add up to the frequencies of its byte range. */
  lemma {:induction false} TalliesWeight(t: Tree, counts: Counts, lo: nat, hi: nat)
    requires lo <= hi <= 256 && t.Tallies(counts, lo, hi)
    ensures t.Weight() == Sum(counts, lo, hi)
  {
    if t.Nil? {
      SumZero(counts, lo, hi);
    } else {
      TalliesWeight(t.left, counts, lo, t.value);
      TalliesWeight(t.right, counts, t.value + 1, hi);
      SumAround(counts, lo, t.value, hi);
    }
  }

  lemma {:induction false} TalliesElsewhere(t: Tree, a: Counts, b: Counts, lo: nat, hi: nat)
    requires lo <= hi <= 256 && t.Tallies(a, lo, hi)
    requires forall v :: lo <= v < hi ==> a[v] == b[v]
    ensures t.Tallies(b, lo, hi)
  {
    if t.Node? {
      TalliesElsewhere(t.left, a, b, lo, t.value);
      TalliesElsewhere(t.right, a, b, t.value + 1, hi);
    }
  }

  /** Inserting into the tree is adding to the frequency. */
  lemma {:induction false} InsertTallies(t: Tree, counts: Counts, lo: nat, hi: nat, v: uint8, d: nat, spare: nat)
    requires lo <= v < hi <= 256 && t.Tallies(counts, lo, hi) && 0 < d
    ensures t.Insert(v, d, spare).Tallies(counts[v := counts[v] + d], lo, hi)
  {
    var counts' := counts[v := counts[v] + d];
    if t.Nil? {
      assert Nil.Tallies(counts', lo, v) && Nil.Tallies(counts', v + 1, hi);
    } else {
      if v < t.value {
        InsertTallies(t.left, counts, lo, t.value, v, d, spare);
        TalliesElsewhere(t.right, counts, counts', t.value + 1, hi);
      } else if t.value < v {
        TalliesElsewhere(t.left, counts, counts', lo, t.value);
        InsertTallies(t.right, counts, t.value + 1, hi, v, d, spare);
      } else {
        TalliesElsewhere(t.left, counts, counts', lo, t.value);
        TalliesElsewhere(t.right, counts, counts', t.value + 1, hi);
      }
    }
  }

  lemma {:induction false} FindInsert(t: Tree, counts: Counts, lo: nat, hi: nat, v: uint8, d: nat, spare: nat)
    requires lo <= v < hi <= 256 && t.Tallies(counts, lo, hi)
    ensures t.Insert(v, d, spare).Find(v) == if counts[v] > 0 then t.Find(v) else spare
  {
    if t.Node? {
      if v < t.value {
        FindInsert(t.left, counts, lo, t.value, v, d, spare);
      } else if t.value < v {
        FindInsert(t.right, counts, t.value + 1, hi, v, d, spare);
      }
    }
  }

  lemma {:induction false} RescaledTallies(t: Tree, counts: Counts, lo: nat, hi: nat)
    requires lo <= hi <= 256 && t.Tallies(counts, lo, hi)
    ensures t.Rescaled().Tallies(Halved(counts), lo, hi)
  {
    if t.Node? {
      RescaledTallies(t.left, counts, lo, t.value);
      RescaledTallies(t.right, counts, t.value + 1, hi);
    }
  }

  // ---------- Slots of a tree ----------

  lemma {:induction false} InsertSeparate(t: Tree, v: uint8, d: nat, spare: nat)
    requires t.Separate() && spare !in t.Indices()
    ensures var u := t.Insert(v, d, spare);
            && u.Separate()
            && t.Indices() <= u.Indices() <= t.Indices() + {spare}
            && u.Find(v) in u.Indices()
            && u.Weight() == t.Weight() + d
  {
    if t.Node? {
      if v < t.value {
        InsertSeparate(t.left, v, d, spare);
      } else if t.value < v {
        InsertSeparate(t.right, v, d, spare);
      }
    }
  }

  lemma {:induction false} RescaledIndices(t: Tree)
    ensures t.Rescaled().Indices() == t.Indices()
    ensures t.Separate() ==> t.Rescaled().Separate()
    ensures t.Rescaled().Weight() <= t.Weight()
  {
    if t.Node? {
      RescaledIndices(t.left);
      RescaledIndices(t.right);
    }
  }

  // ---------- Trees in the array ----------

  ghost predicate NodesAgree(s: seq<Symbol>, s': seq<Symbol>, on: set<nat>) {
    |s'| == |s| && forall i | i in on && i < |s| :: SameNode(s[i], s'[i])
  }

  /** Writing elsewhere does not disturb a tree. */
  lemma {:induction false} HeldFrame(t: Tree, s: seq<Symbol>, s': seq<Symbol>)
    requires t.Held(s) && NodesAgree(s, s', t.Indices())
    ensures t.Held(s')
  {
    if t.Node? {
      HeldFrame(t.left, s, s');
      HeldFrame(t.right, s, s');
    }
  }

  lemma {:induction false} HeldBound(t: Tree, s: seq<Symbol>)
    requires t.Held(s)
    ensures forall i <- t.Indices() :: i < |s|
  {
    if t.Node? {
      HeldBound(t.left, s);
      HeldBound(t.right, s);
    }
  }

  /** The walk goes one level down inside the hole. */
  lemma {:induction false} HeldToDeeper(t: Tree, s: seq<Symbol>, s': seq<Symbol>, hole: Tree, deeper: Tree, v: uint8, d: nat)
    requires t.HeldTo(s, hole, v, d) && hole.HeldTo(s', deeper, v, d)
    requires deeper.Indices() <= hole.Indices() && hole.Separate()
    requires |s'| == |s| && forall i | 0 <= i < |s| && i !in hole.Indices() :: SameNode(s[i], s'[i])
    ensures t.HeldTo(s', deeper, v, d)
  {
    if t != hole {
      if v < t.value {
        HeldToDeeper(t.left, s, s', hole, deeper, v, d);
        HeldFrame(t.right, s, s');
      } else {
        HeldToDeeper(t.right, s, s', hole, deeper, v, d);
        HeldFrame(t.left, s, s');
      }
    }
  }

  /** Once the hole holds the inserted subtree, the whole array holds the inserted tree. */
  lemma {:induction false} HeldToPlugged(t: Tree, s: seq<Symbol>, s': seq<Symbol>, hole: Tree, v: uint8, d: nat, spare: nat)
    requires t.HeldTo(s, hole, v, d) && hole.Node? && spare !in t.Indices()
    requires hole.Insert(v, d, spare).Held(s')
    requires |s'| == |s| && forall i | 0 <= i < |s| && i !in hole.Indices() && i != spare :: SameNode(s[i], s'[i])
    ensures t.Insert(v, d, spare).Held(s')
  {
    hide Tree.Tallies, Tree.Size, Tree.Find, Tree.Separate, Tree.Rescaled;
    if t != hole {
      if v < t.value {
        HeldToPlugged(t.left, s, s', hole, v, d, spare);
        HeldFrame(t.right, s, s');
      } else {
        HeldToPlugged(t.right, s, s', hole, v, d, spare);
        HeldFrame(t.left, s, s');
      }
      assert t.Insert(v, d, spare).left.Weight() == t.left.Weight() + if v < t.value then d else 0 by {
        if v < t.value {
          InsertWeight(t.left, v, d, spare);
        }
      }
    }
  }

  lemma {:induction false} InsertWeight(t: Tree, v: uint8, d: nat, spare: nat)
    ensures t.Insert(v, d, spare).Weight() == t.Weight() + d
  {
    if t.Node? {
      if v < t.value {
        InsertWeight(t.left, v, d, spare);
      } else if t.value < v {
        InsertWeight(t.right, v, d, spare);
      }
    }
  }

  // ---------- One turn of the walk ----------

  lemma WalkEmpty(t: Tree, counts: Counts, v: uint8, d: nat, spare: nat)
    requires t.Nil? && t.Tallies(counts, 0, 256)
    ensures t.Insert(v, d, spare) == Node(spare, v, d, Nil, Nil) && t.Insert(v, d, spare).Find(v) == spare
    ensures counts[v] == 0 && Sum(counts, 0, v) == 0
  {
    SumZero(counts, 0, v);
  }

  lemma WalkStart(t: Tree, s: seq<Symbol>, v: uint8, d: nat)
    requires t.Held(s)
    ensures t.HeldTo(s, t, v, d)
  {
  }

  /** What the array says of the node in hand, in terms of the frequencies. */
  lemma WalkNode(hole: Tree, s: seq<Symbol>, counts: Counts, lo: nat, hi: nat)
    requires hole.Node? && lo <= hi <= 256 && hole.Held(s) && hole.Tallies(counts, lo, hi) && hole.Separate()
    ensures hole.index < |s|
    ensures var x := s[hole.index]; var l, r := hole.left, hole.right;
            && x.value == hole.value && lo <= x.value < hi
            && x.count == counts[x.value] > 0
            && x.under == Sum(counts, lo, x.value + 1)
            && (x.left == 0 <==> l.Nil?) && (l.Node? ==> hole.index + x.left == l.index)
            && (x.right == 0 <==> r.Nil?) && (r.Node? ==> hole.index + x.right == r.index)
            && l.Held(s) && l.Separate() && l.Tallies(counts, lo, x.value) && l.Indices() <= hole.Indices()
            && r.Held(s) && r.Separate() && r.Tallies(counts, x.value + 1, hi) && r.Indices() <= hole.Indices()
            && hole.index in hole.Indices() && hole.index !in l.Indices()
            && (l.Node? ==> l.index in hole.Indices()) && (r.Node? ==> r.index in hole.Indices())
    ensures forall v: uint8 :: v < hole.value ==> hole.Find(v) == hole.left.Find(v)
    ensures forall v: uint8 :: v > hole.value ==> hole.Find(v) == hole.right.Find(v)
    ensures hole.Find(hole.value) == hole.index
    ensures hole.left.Nil? ==> forall v :: lo <= v < hole.value ==> counts[v] == 0
    ensures hole.right.Nil? ==> forall v :: hole.value < v < hi ==> counts[v] == 0
  {
    TalliesWeight(hole.left, counts, lo, hole.value);
  }

  /** Going left raises the cumulative count of the node passed. */
  lemma WalkLeft(t: Tree, s: seq<Symbol>, hole: Tree, v: uint8, d: nat)
    requires t.HeldTo(s, hole, v, d) && hole.Held(s) && hole.Separate()
    requires hole.Node? && v < hole.value && hole.left.Node? && s[hole.index].under + d <= 0xFFFF
    ensures t.HeldTo(s[hole.index := s[hole.index].(under := s[hole.index].under + d)], hole.left, v, d)
  {
    var s' := s[hole.index := s[hole.index].(under := s[hole.index].under + d)];
    HeldFrame(hole.left, s, s');
    HeldFrame(hole.right, s, s');
    HeldToDeeper(t, s, s', hole, hole.left, v, d);
  }

  lemma WalkRight(t: Tree, s: seq<Symbol>, hole: Tree, v: uint8, d: nat)
    requires t.HeldTo(s, hole, v, d) && hole.Held(s) && hole.Separate()
    requires hole.Node? && hole.value < v && hole.right.Node?
    ensures t.HeldTo(s, hole.right, v, d)
  {
    HeldToDeeper(t, s, s, hole, hole.right, v, d);
  }

  /** A new node, as `ENET_SYMBOL_CREATE` leaves it. */
  function NewSymbol(v: uint8, d: uint8): Symbol {
    Symbol(v, d, d, 0, 0, 0, 0, 0, 0)
  }

  lemma LeafHeld(s: seq<Symbol>, v: uint8, d: uint8, spare: nat)
    requires spare < |s| && s[spare] == NewSymbol(v, d)
    ensures Node(spare, v, d, Nil, Nil).Held(s) && Node(spare, v, d, Nil, Nil).Weight() == d
  {
    assert Nil.Held(s);
  }

  lemma WalkCreateLeft(t: Tree, s: seq<Symbol>, s': seq<Symbol>, hole: Tree, v: uint8, d: uint8, spare: nat)
    requires t.HeldTo(s, hole, v, d) && hole.Held(s) && hole.Separate() && spare !in t.Indices() && spare !in hole.Indices()
    requires hole.Node? && v < hole.value && hole.left.Nil?
    requires hole.index < spare < |s| && spare - hole.index <= 0xFFFF && s[hole.index].under + d <= 0xFFFF
    requires s' == s[hole.index := s[hole.index].(under := s[hole.index].under + d, left := spare - hole.index)][spare := NewSymbol(v, d)]
    ensures t.Insert(v, d, spare).Held(s')
  {
    hide Tree.HeldTo;
    HeldFrame(hole.right, s, s');
    LeafHeld(s', v, d, spare);
    var leaf := Node(spare, v, d, Nil, Nil);
    assert hole.Insert(v, d, spare) == hole.(left := leaf);
    assert s'[hole.index].under == hole.count + leaf.Weight();
    assert hole.(left := leaf).Held(s');
    HeldToPlugged(t, s, s', hole, v, d, spare);
  }

  lemma WalkCreateRight(t: Tree, s: seq<Symbol>, s': seq<Symbol>, hole: Tree, v: uint8, d: uint8, spare: nat)
    requires t.HeldTo(s, hole, v, d) && hole.Held(s) && hole.Separate() && spare !in t.Indices() && spare !in hole.Indices()
    requires hole.Node? && hole.value < v && hole.right.Nil?
    requires hole.index < spare < |s| && spare - hole.index <= 0xFFFF
    requires s' == s[hole.index := s[hole.index].(right := spare - hole.index)][spare := NewSymbol(v, d)]
    ensures t.Insert(v, d, spare).Held(s')
  {
    hide Tree.HeldTo;
    HeldFrame(hole.left, s, s');
    LeafHeld(s', v, d, spare);
    var leaf := Node(spare, v, d, Nil, Nil);
    assert hole.Insert(v, d, spare) == hole.(right := leaf);
    assert hole.(right := leaf).Held(s');
    HeldToPlugged(t, s, s', hole, v, d, spare);
  }

  lemma WalkFound(t: Tree, s: seq<Symbol>, s': seq<Symbol>, hole: Tree, v: uint8, d: uint8, spare: nat)
    requires t.HeldTo(s, hole, v, d) && hole.Held(s) && hole.Separate() && spare !in t.Indices()
    requires hole.Node? && hole.value == v
    requires s[hole.index].under + d <= 0xFFFF && s[hole.index].count + d <= 0xFF
    requires s' == s[hole.index := s[hole.index].(under := s[hole.index].under + d, count := s[hole.index].count + d)]
    ensures t.Insert(v, d, spare).Held(s')
  {
    HeldFrame(hole.left, s, s');
    HeldFrame(hole.right, s, s');
    HeldToPlugged(t, s, s', hole, v, d, spare);
  }

  // ---------- Rescaling ----------

  lemma {:induction false} RescaledToDeeper(t: Tree, s: seq<Symbol>, s': seq<Symbol>, hole: Tree, deeper: Tree)
    requires t.RescaledTo(s, hole) && hole.RescaledTo(s', deeper)
    requires deeper.Indices() <= hole.Indices() && hole.Separate()
    requires |s'| == |s| && forall i | 0 <= i < |s| && i !in hole.Indices() :: SameNode(s[i], s'[i])
    ensures t.RescaledTo(s', deeper)
  {
    if t != hole {
      RescaledIndices(t.left);
      HeldFrame(t.left.Rescaled(), s, s');
      RescaledToDeeper(t.right, s, s', hole, deeper);
    }
  }

  lemma {:induction false} RescaledToEnd(t: Tree, s: seq<Symbol>, s': seq<Symbol>, hole: Tree)
    requires t.RescaledTo(s, hole) && hole.Node? && hole.Rescaled().Held(s')
    requires |s'| == |s| && forall i | 0 <= i < |s| && i !in hole.Indices() :: SameNode(s[i], s'[i])
    ensures t.Rescaled().Held(s')
  {
    if t != hole {
      RescaledIndices(t.left);
      HeldFrame(t.left.Rescaled(), s, s');
      RescaledToEnd(t.right, s, s', hole);
    }
  }

  lemma RescaleStart(t: Tree, s: seq<Symbol>)
    requires t.Held(s)
    ensures t.RescaledTo(s, t)
  {
  }

  /** What the array says of the node to be halved. */
  lemma RescaleNode(hole: Tree, s: seq<Symbol>)
    requires hole.Node? && hole.Held(s) && hole.Separate()
    ensures hole.index < |s|
    ensures var x := s[hole.index]; var l, r := hole.left, hole.right;
            && x.count == hole.count
            && (x.left == 0 <==> l.Nil?) && (l.Node? ==> hole.index + x.left == l.index)
            && (x.right == 0 <==> r.Nil?) && (r.Node? ==> hole.index + x.right == r.index)
            && l.Held(s) && l.Separate() && l.Indices() <= hole.Indices() && hole.index !in l.Indices()
            && r.Held(s) && r.Separate() && r.Indices() <= hole.Indices() && hole.index !in r.Indices()
            && l.Indices() !! r.Indices()
            && hole.index in hole.Indices()
    ensures hole.Rescaled().Weight() == Half(hole.count) + hole.left.Rescaled().Weight() + hole.right.Rescaled().Weight()
    ensures hole.left.Rescaled().Weight() <= hole.left.Weight()
    ensures hole.right.Rescaled().Weight() <= hole.right.Weight()
  {
    RescaledIndices(hole.left);
    RescaledIndices(hole.right);
  }

  lemma NilRescaled(t: Tree, s: seq<Symbol>)
    requires t.Nil?
    ensures t.Rescaled().Held(s) && t.Rescaled().Weight() == 0
  {
  }

  /** One node of the right spine done, its left subtree included. */
  lemma RescaleTurn(t: Tree, s: seq<Symbol>, s': seq<Symbol>, hole: Tree)
    requires t.RescaledTo(s, hole) && hole.Node? && hole.Held(s) && hole.Separate() && |s'| == |s|
    requires forall i | 0 <= i < |s| && i !in hole.Indices() :: SameNode(s[i], s'[i])
    requires var x, x' := s[hole.index], s'[hole.index];
             && x'.value == x.value && x'.left == x.left && x'.right == x.right
             && x'.count == Half(hole.count) && x'.under == Half(hole.count) + hole.left.Rescaled().Weight()
    requires hole.left.Rescaled().Held(s') && hole.right.Held(s')
    ensures hole.right.Node? ==> t.RescaledTo(s', hole.right)
    ensures hole.right.Nil? ==> t.Rescaled().Held(s')
  {
    RescaledIndices(hole.left);
    if hole.right.Node? {
      assert hole != hole.right;
      RescaledToDeeper(t, s, s', hole, hole.right);
    } else {
      assert hole.Rescaled().Held(s');
      RescaledToEnd(t, s, s', hole);
    }
  }
}
