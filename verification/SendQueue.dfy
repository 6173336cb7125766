/** Outgoing commands of an ENet peer, and what is counted about them. */
module SendQueue {
  import opened Machine
  import opened SequenceWindows

  /** `ENetOutgoingCommand`. The ghost `number` is the sequence number had it not wrapped around. */
  datatype Command = Command(
    reliable: bool, unsequenced: bool, channel: nat, size: nat, hasPacket: bool, offset: nat, length: nat,
    sequence: uint16, unreliableSequence: uint16, attempts: nat,
    sentTime: uint32, timeout: uint32, timeoutLimit: uint32, ghost number: nat)
  {
    /** Sent at least once on channel `c`, and not yet acknowledged. */
    predicate Outstanding(c: nat) {
      reliable && channel == c && attempts > 0
    }

    /** Waiting on channel `c` for its first sending. */
    predicate Unsent(c: nat) {
      reliable && channel == c && attempts == 0
    }
  }

  // ---------- Sums over a queue ----------

  ghost function Sum(s: seq<Command>, f: Command -> nat): nat {
    if s == [] then 0 else f(s[0]) + Sum(s[1..], f)
  }

  lemma {:induction false} SumConcat(a: seq<Command>, b: seq<Command>, f: Command -> nat)
    ensures Sum(a + b, f) == Sum(a, f) + Sum(b, f)
  {
    if a == [] {
      assert a + b == b;
    } else {
      assert (a + b)[1..] == a[1..] + b;
      SumConcat(a[1..], b, f);
    }
  }

  function Without(s: seq<Command>, i: nat): seq<Command>
    requires i < |s|
  {
    s[..i] + s[i + 1..]
  }

  lemma SumWithout(s: seq<Command>, i: nat, f: Command -> nat)
    requires i < |s|
    ensures Sum(s, f) == Sum(Without(s, i), f) + f(s[i])
  {
    SumConcat(s[..i], s[i..], f);
    SumConcat(s[..i], s[i + 1..], f);
    assert s == s[..i] + s[i..];
  }

  function Insert(s: seq<Command>, i: nat, x: Command): seq<Command>
    requires i <= |s|
  {
    s[..i] + [x] + s[i..]
  }

  lemma SumInsert(s: seq<Command>, i: nat, x: Command, f: Command -> nat)
    requires i <= |s|
    ensures Sum(Insert(s, i, x), f) == Sum(s, f) + f(x)
  {
    SumConcat(s[..i], [x], f);
    SumConcat(s[..i] + [x], s[i..], f);
    SumConcat(s[..i], s[i..], f);
    assert s == s[..i] + s[i..];
    assert Sum([x], f) == f(x);
  }

  lemma SumAppend(s: seq<Command>, x: Command, f: Command -> nat)
    ensures Sum(s + [x], f) == Sum(s, f) + f(x)
  {
    assert s + [x] == Insert(s, |s|, x);
    SumInsert(s, |s|, x, f);
  }

  lemma {:induction false} SumZero(s: seq<Command>, f: Command -> nat)
    ensures Sum(s, f) == 0 <==> forall x <- s :: f(x) == 0
  {
    if s != [] {
      SumZero(s[1..], f);
      assert s == [s[0]] + s[1..];
    }
  }

  /** Counts the commands outstanding on channel `c` in window `w` (going round). */
  ghost function InWindow(c: nat, w: nat): Command -> nat {
    (x: Command) => if x.Outstanding(c) && Window(x.sequence) == w then 1 else 0
  }

  /** Counts the commands outstanding on channel `c` with unbounded number `n`. */
  ghost function Numbered(c: nat, n: nat): Command -> nat {
    (x: Command) => if x.Outstanding(c) && x.number == n then 1 else 0
  }

  /** The bytes of payload. */
  ghost function Bytes(): Command -> nat {
    (x: Command) => x.length
  }

  // ---------- The commands not yet sent ----------

  ghost function UnsentNumbers(s: seq<Command>, c: nat): seq<nat> {
    if s == [] then [] else (if s[0].Unsent(c) then [s[0].number] else []) + UnsentNumbers(s[1..], c)
  }

  ghost function Range(from: nat, to: nat): seq<nat> {
    if from > to then [] else seq(to + 1 - from, i => from + i)
  }

  lemma RangeHead(from: nat, to: nat, n: nat, rest: seq<nat>)
    requires Range(from, to) == [n] + rest
    ensures from <= to && n == from && rest == Range(from + 1, to)
  {
    var r := Range(from, to);
    assert r[0] == n && r[1..] == rest;
    assert r[1..] == Range(from + 1, to);
  }

  lemma {:induction false} UnsentConcat(a: seq<Command>, b: seq<Command>, c: nat)
    ensures UnsentNumbers(a + b, c) == UnsentNumbers(a, c) + UnsentNumbers(b, c)
  {
    if a == [] {
      assert a + b == b;
    } else {
      UnsentConcat(a[1..], b, c);
      assert (a + b)[1..] == a[1..] + b && (a + b)[0] == a[0];
      var first := if a[0].Unsent(c) then [a[0].number] else [];
      assert UnsentNumbers(a + b, c) == first + (UnsentNumbers(a[1..], c) + UnsentNumbers(b, c));
    }
  }

  lemma UnsentOne(x: Command, c: nat)
    ensures UnsentNumbers([x], c) == if x.Unsent(c) then [x.number] else []
  {
  }

  /** Taking a command out of a queue takes its number out. */
  lemma UnsentWithout(s: seq<Command>, i: nat, c: nat)
    requires i < |s|
    ensures !s[i].Unsent(c) ==> UnsentNumbers(Without(s, i), c) == UnsentNumbers(s, c)
    ensures s[i].Unsent(c) && UnsentNumbers(s[..i], c) == [] ==>
      UnsentNumbers(s, c) == [s[i].number] + UnsentNumbers(Without(s, i), c)
  {
    UnsentConcat(s[..i], s[i + 1..], c);
    UnsentConcat(s[..i], s[i..], c);
    UnsentConcat([s[i]], s[i + 1..], c);
    UnsentOne(s[i], c);
    assert s == s[..i] + s[i..] && s[i..] == [s[i]] + s[i + 1..];
  }

  lemma UnsentInsert(s: seq<Command>, i: nat, x: Command, c: nat)
    requires i <= |s| && !x.Unsent(c)
    ensures UnsentNumbers(Insert(s, i, x), c) == UnsentNumbers(s, c)
  {
    UnsentWithout(Insert(s, i, x), i, c);
    assert Without(Insert(s, i, x), i) == s;
  }

  // ---------- Counting numbers ----------

  /** Counts the commands outstanding on channel `c` with one of the `k` numbers from `base` on. */
  ghost function Between(c: nat, base: nat, k: nat): Command -> nat {
    (x: Command) => if x.Outstanding(c) && base <= x.number < base + k then 1 else 0
  }

  lemma {:induction false} SumBetween(s: seq<Command>, c: nat, base: nat, k: nat)
    ensures Sum(s, Between(c, base, k + 1)) == Sum(s, Between(c, base, k)) + Sum(s, Numbered(c, base + k))
  {
    if s != [] {
      SumBetween(s[1..], c, base, k);
    }
  }

  lemma {:induction false} SumAtMost(s: seq<Command>, f: Command -> nat, g: Command -> nat)
    requires forall x <- s :: f(x) <= g(x)
    ensures Sum(s, f) <= Sum(s, g)
  {
    if s != [] {
      SumAtMost(s[1..], f, g);
    }
  }

  /** As many commands as there are numbers, if every number is there. */
  lemma {:induction false} AllThere(s: seq<Command>, t: seq<Command>, c: nat, base: nat, k: nat)
    requires forall n: nat | base <= n < base + k :: Sum(s, Numbered(c, n)) + Sum(t, Numbered(c, n)) > 0
    ensures Sum(s, Between(c, base, k)) + Sum(t, Between(c, base, k)) >= k
  {
    hide Sum;
    if k > 0 {
      AllThere(s, t, c, base, k - 1);
      SumBetween(s, c, base, k - 1);
      SumBetween(t, c, base, k - 1);
    }
  }
}
