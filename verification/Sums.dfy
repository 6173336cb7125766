/** Sums of numbers in a sequence. */
module Sums {
  function Sum(s: seq<nat>): nat {
    if s == [] then 0 else Sum(s[..|s| - 1]) + s[|s| - 1]
  }

  lemma {:induction false} SumUpdate(s: seq<nat>, i: nat, x: nat)
    requires i < |s|
    ensures Sum(s[i := x]) + s[i] == Sum(s) + x
  {
    var n := |s| - 1;
    if i == n {
      assert s[i := x][..n] == s[..n];
    } else {
      SumUpdate(s[..n], i, x);
      assert s[i := x][..n] == s[..n][i := x];
    }
  }

  lemma {:induction false} SumZero(s: seq<nat>)
    requires forall i | 0 <= i < |s| :: s[i] == 0
    ensures Sum(s) == 0
  {
    if s != [] {
      SumZero(s[..|s| - 1]);
    }
  }

  lemma {:induction false} SumPart(s: seq<nat>, i: nat)
    requires i < |s|
    ensures s[i] <= Sum(s)
  {
    var n := |s| - 1;
    if i < n {
      SumPart(s[..n], i);
    }
  }

  lemma {:induction false} SumAll(s: seq<nat>, t: seq<nat>)
    requires |s| == |t| && forall i | 0 <= i < |s| :: s[i] <= t[i]
    ensures Sum(s) <= Sum(t)
  {
    if s != [] {
      SumAll(s[..|s| - 1], t[..|t| - 1]);
    }
  }

  lemma {:induction false} SumPlus(a: seq<nat>, b: seq<nat>, c: seq<nat>)
    requires |a| == |b| == |c| && forall i | 0 <= i < |a| :: c[i] == a[i] + b[i]
    ensures Sum(c) == Sum(a) + Sum(b)
  {
    if a != [] {
      var n := |a| - 1;
      SumPlus(a[..n], b[..n], c[..n]);
    }
  }

  lemma {:induction false} SumPrefix(s: seq<nat>, i: nat)
    requires i <= |s|
    ensures Sum(s[..i]) <= Sum(s)
  {
    if i < |s| {
      SumPrefix(s[..|s| - 1], i);
      assert s[..|s| - 1][..i] == s[..i];
    } else {
      assert s[..i] == s;
    }
  }

  lemma {:induction false} SumNext(s: seq<nat>, i: nat)
    requires i <= |s|
    ensures i < |s| ==> Sum(s[..i + 1]) == Sum(s[..i]) + s[i] <= Sum(s)
    ensures Sum(s[..0]) == 0
  {
    if i < |s| {
      assert s[..i + 1][..i] == s[..i];
      SumPrefix(s, i + 1);
    }
  }
}
