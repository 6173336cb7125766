/** ENet packets, the pieces they are sent in, and the numbers those pieces take. */
module Messages {
  import opened Machine

  /** A packet handed to a channel, and the longest piece the sender puts in one command. */
  datatype Message = Message(data: seq<uint8>, limit: nat)
  {
    ghost predicate Valid() {
      limit > 0
    }

    predicate Fragmented() {
      |data| > limit
    }

    /** How many commands carry it. */
    function Pieces(): nat {
      Count(|data|, limit)
    }

    function Offset(i: nat): nat {
      Steps(i, limit)
    }

    function Length(i: nat): nat
      requires Offset(i) <= |data|
    {
      if |data| - Offset(i) < limit then |data| - Offset(i) else limit
    }

    function Piece(i: nat): seq<uint8>
      requires Offset(i) <= |data|
    {
      data[Offset(i)..Offset(i) + Length(i)]
    }
  }

  /** `i` times `f`. */
  function Steps(i: nat, f: nat): nat {
    if i == 0 then 0 else Steps(i - 1, f) + f
  }

  /** Into how many pieces of at most `f` bytes `n` bytes are cut. */
  function Count(n: nat, f: nat): nat {
    if f == 0 || n <= f then 1 else 1 + Count(n - f, f)
  }

  lemma {:induction false} StepsProduct(i: nat, f: nat)
    ensures Steps(i, f) == i * f
  {
    if i > 0 {
      StepsProduct(i - 1, f);
      assert (i - 1) * f + f == i * f;
    }
  }

  /** The sender computes the count by division. */
  lemma {:induction false} CountQuotient(n: nat, f: nat)
    requires 0 < f < n
    ensures Count(n, f) == (n + f - 1) / f
  {
    if n - f <= f {
      assert n + f - 1 == 2 * f + (n - f - 1);
      Quotient(n + f - 1, f, 2, n - f - 1);
    } else {
      CountQuotient(n - f, f);
      var q := (n - 1) / f;
      assert n - f + f - 1 == n - 1 == q * f + (n - 1) % f;
      assert (q + 1) * f == q * f + f;
      Quotient(n + f - 1, f, q + 1, (n - 1) % f);
    }
  }

  lemma Quotient(n: nat, f: nat, q: nat, r: nat)
    requires f > 0 && r < f && n == q * f + r
    ensures n / f == q
  {
    var x := n / f;
    assert n == x * f + n % f;
    AtMost(x, q, f);
    AtMost(q, x, f);
  }

  lemma AtMost(a: nat, b: nat, f: nat)
    requires a * f < b * f + f
    ensures a <= b
  {
    assert (b + 1) * f == b * f + f;
    if b < a {
      MulMonotone(b + 1, a, f);
    }
  }

  lemma MulMonotone(a: nat, b: nat, f: nat)
    requires a <= b
    ensures a * f <= b * f
  {
  }

  lemma {:induction false} StepsApart(i: nat, j: nat, f: nat)
    requires i <= j
    ensures Steps(i, f) <= Steps(j, f)
    ensures i < j ==> Steps(i, f) + f <= Steps(j, f)
    decreases j
  {
    if i < j {
      StepsApart(i, j - 1, f);
    }
  }

  lemma {:induction false} StepsAgain(i: nat, f: nat)
    ensures Steps(i + 1, f) == f + Steps(i, f)
  {
  }

  lemma {:induction false} CountInside(n: nat, f: nat, i: nat)
    requires 0 < f < n
    ensures i < Count(n, f) <==> Steps(i, f) < n
  {
    if i > 0 {
      StepsAgain(i - 1, f);
      if n - f > f {
        CountInside(n - f, f, i - 1);
      } else if i > 1 {
        StepsApart(1, i - 1, f);
      }
    }
  }

  lemma {:induction false} StepOf(n: nat, f: nat, p: nat) returns (i: nat)
    requires 0 < f && p < n
    ensures i < Count(n, f) && Steps(i, f) <= p < Steps(i, f) + f
  {
    if p < f {
      i := 0;
    } else {
      i := StepOf(n - f, f, p - f);
      i := i + 1;
    }
  }

  lemma PieceInside(m: Message, i: nat)
    requires m.Valid() && i < m.Pieces()
    ensures m.Offset(i) <= |m.data| && (m.Fragmented() ==> m.Offset(i) < |m.data| && m.Pieces() >= 2)
  {
    if m.Fragmented() {
      CountInside(|m.data|, m.limit, i);
    }
  }

  /** Every byte travels in some piece. */
  lemma PieceOf(m: Message, p: nat) returns (i: nat)
    requires m.Valid() && m.Fragmented() && p < |m.data|
    ensures i < m.Pieces() && m.Offset(i) <= p < m.Offset(i) + m.Length(i)
  {
    i := StepOf(|m.data|, m.limit, p);
  }

  lemma PiecesApart(m: Message, i: nat, j: nat)
    requires m.Valid() && i < j < m.Pieces()
    ensures m.Offset(i) <= |m.data| && m.Offset(j) <= |m.data| && m.Offset(i) + m.Length(i) <= m.Offset(j)
    ensures m.Length(i) == m.limit
  {
    PieceInside(m, j);
    StepsApart(i, j, m.limit);
  }

  // ---------- Numbering ----------

  /** The first number of packet `k`; one past the last number of all packets, for `k == |ms|`. */
  ghost function First(ms: seq<Message>, k: nat): (n: nat)
    requires k <= |ms| && AllValid(ms)
    ensures n >= 1
  {
    if k == 0 then 1 else First(ms, k - 1) + ms[k - 1].Pieces()
  }

  ghost predicate AllValid(ms: seq<Message>) {
    forall k | 0 <= k < |ms| :: ms[k].limit > 0
  }

  lemma PiecesPositive(m: Message)
    requires m.Valid()
    ensures m.Pieces() >= 1
  {
  }

  lemma {:induction false} FirstMonotone(ms: seq<Message>, j: nat, k: nat)
    requires AllValid(ms) && j <= k <= |ms|
    ensures First(ms, j) + (k - j) <= First(ms, k)
    ensures j < k ==> First(ms, j) + ms[j].Pieces() <= First(ms, k)
    decreases k
  {
    if j < k {
      PiecesPositive(ms[k - 1]);
      if j < k - 1 {
        FirstMonotone(ms, j, k - 1);
      }
    }
  }

  lemma {:induction false} FirstPrefix(ms: seq<Message>, more: seq<Message>, k: nat)
    requires AllValid(ms) && AllValid(ms + more) && k <= |ms|
    ensures First(ms + more, k) == First(ms, k)
  {
    if k > 0 {
      FirstPrefix(ms, more, k - 1);
      assert (ms + more)[k - 1] == ms[k - 1];
    }
  }
}
