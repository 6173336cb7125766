/** ENet's intrusive circular lists, enet/list.c, against the sequences the rest of the model uses. */
module LinkedList {

  /** `ENetListNode`; the head of a list is a node like the others. */
  class Node {
    var next: Node?
    var previous: Node?

    constructor ()
      ensures next == null == previous
    {
      next, previous := null, null;
    }
  }

  /** The node after position `i`; the last one is followed by the head. */
  ghost function After(s: seq<Node>, i: nat): Node
    requires i < |s|
  {
    if i + 1 == |s| then s[0] else s[i + 1]
  }

  ghost predicate Linked(s: seq<Node>, i: nat)
    requires i < |s|
    reads s
  {
    s[i].next == After(s, i) && After(s, i).previous == s[i]
  }

  ghost predicate Distinct(s: seq<Node>) {
    forall i, j | 0 <= i < j < |s| :: s[i] != s[j]
  }

  /** The nodes of `s` are linked in a circle, in this order, the head first. */
  ghost predicate Ring(s: seq<Node>)
    reads s
  {
    s != [] && Distinct(s) && forall i | 0 <= i < |s| :: Linked(s, i)
  }

  /** `enet_list_clear`: a list of its head alone. */
  method Clear(head: Node)
    modifies head
    ensures Ring([head])
  {
    head.next := head;
    head.previous := head;
    assert Linked([head], 0);
  }

  /** `enet_list_insert`: before the node that comes after position `k`. */
  method Insert(position: Node, data: Node, ghost s: seq<Node>, ghost k: nat)
    requires Ring(s) && k < |s| && position == After(s, k) && data !in s
    modifies s, data
    ensures Ring(s[..k + 1] + [data] + s[k + 1..])
  {
    assert Linked(s, k);
    data.previous := position.previous;
    data.next := position;
    data.previous.next := data;
    position.previous := data;
    ghost var t := s[..k + 1] + [data] + s[k + 1..];
    assert forall i | 0 <= i < |t| :: t[i] == if i <= k then s[i] else if i == k + 1 then data else s[i - 1];
    forall i | 0 <= i < |t| ensures Linked(t, i) {
      if i < k {
        assert old(Linked(s, i));
      } else if i > k + 1 {
        assert old(Linked(s, i - 1));
      }
    }
  }

  /** `enet_list_remove`; the node keeps its own links. */
  method Remove(position: Node, ghost s: seq<Node>, ghost k: nat)
    requires Ring(s) && k + 1 < |s| && position == s[k + 1]
    modifies s
    ensures Ring(s[..k + 1] + s[k + 2..])
  {
    assert Linked(s, k) && Linked(s, k + 1);
    position.previous.next := position.next;
    position.next.previous := position.previous;
    ghost var t := s[..k + 1] + s[k + 2..];
    assert forall i | 0 <= i < |t| :: t[i] == if i <= k then s[i] else s[i + 1];
    forall i | 0 <= i < |t| ensures Linked(t, i) {
      if i < k {
        assert old(Linked(s, i));
      } else if i > k {
        assert old(Linked(s, i + 1));
      }
    }
  }

  ghost predicate Apart(s: seq<Node>, t: seq<Node>) {
    forall a, b | 0 <= a < |s| && 0 <= b < |t| :: s[a] != t[b]
  }

  /** `enet_list_move`: the nodes after position `i` of one list, up to position `j`, go into another list after
      its position `k`. */
  method Move(position: Node, first: Node, last: Node, ghost s: seq<Node>, ghost i: nat, ghost j: nat,
              ghost t: seq<Node>, ghost k: nat)
    requires Ring(s) && i < j < |s| && first == s[i + 1] && last == s[j]
    requires Ring(t) && k < |t| && position == After(t, k) && Apart(s, t)
    modifies s, t
    ensures Ring(s[..i + 1] + s[j + 1..])
    ensures Ring(t[..k + 1] + s[i + 1..j + 1] + t[k + 1..])
  {
    assert Linked(s, i) && Linked(s, j) && Linked(t, k);
    first.previous.next := last.next;
    last.next.previous := first.previous;
    first.previous := position.previous;
    last.next := position;
    first.previous.next := first;
    position.previous := last;
    forall x | 0 <= x < |s| && x != i && x != j ensures Linked(s, x) {
      assert old(Linked(s, x));
    }
    forall x | 0 <= x < |t| && x != k ensures Linked(t, x) {
      assert old(Linked(t, x));
    }
    CutOut(s, i, j);
    SplicedIn(s, i, j, t, k);
  }

  /** Links past the nodes after `i` up to `j` make a ring of the others. */
  lemma CutOut(s: seq<Node>, i: nat, j: nat)
    requires Distinct(s) && i < j < |s|
    requires forall x | 0 <= x < |s| && (x < i || j < x) :: Linked(s, x)
    requires s[i].next == After(s, j) && After(s, j).previous == s[i]
    ensures Ring(s[..i + 1] + s[j + 1..])
  {
    var n, s' := j - i, s[..i + 1] + s[j + 1..];
    assert forall x | 0 <= x < |s'| :: s'[x] == if x <= i then s[x] else s[x + n];
    forall x | 0 <= x < |s'| ensures Linked(s', x) {
      if x < i {
        assert Linked(s, x);
      } else if x > i {
        assert Linked(s, x + n);
      }
    }
  }

  /** Links from and to those nodes make them part of the other ring. */
  lemma SplicedIn(s: seq<Node>, i: nat, j: nat, t: seq<Node>, k: nat)
    requires Distinct(s) && Distinct(t) && Apart(s, t) && i < j < |s| && k < |t|
    requires forall x | i < x < j :: Linked(s, x)
    requires forall x | 0 <= x < |t| && x != k :: Linked(t, x)
    requires t[k].next == s[i + 1] && s[i + 1].previous == t[k] && s[j].next == After(t, k) && After(t, k).previous == s[j]
    ensures Ring(t[..k + 1] + s[i + 1..j + 1] + t[k + 1..])
  {
    var n, t' := j - i, t[..k + 1] + s[i + 1..j + 1] + t[k + 1..];
    SplicedDistinct(s, i, j, t, k);
    assert forall x | 0 <= x < |t'| :: t'[x] == if x <= k then t[x] else if x <= k + n then s[x - k + i] else t[x - n];
    forall x | 0 <= x < |t'| ensures Linked(t', x) {
      if x < k {
        assert Linked(t, x);
      } else if k < x < k + n {
        assert Linked(s, x - k + i);
      } else if x > k + n {
        assert Linked(t, x - n);
      }
    }
  }

  lemma SplicedDistinct(s: seq<Node>, i: nat, j: nat, t: seq<Node>, k: nat)
    requires Distinct(s) && Distinct(t) && Apart(s, t) && i < j < |s| && k < |t|
    ensures Distinct(t[..k + 1] + s[i + 1..j + 1] + t[k + 1..])
  {
  }
}
