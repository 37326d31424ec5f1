/** Sums over sequences, and what changing, adding or dropping one element does to them.  The
    counters of the thread pool are such sums. */
module Sums {

  function Sum<A>(s: seq<A>, g: A -> nat): nat {
    if s == [] then 0 else Sum(s[..|s| - 1], g) + g(s[|s| - 1])
  }

  lemma SumSnoc<A>(s: seq<A>, x: A, g: A -> nat)
    ensures Sum(s + [x], g) == Sum(s, g) + g(x)
  {
  }

  lemma {:induction false} SumUpdate<A>(s: seq<A>, i: nat, x: A, g: A -> nat)
    requires i < |s|
    ensures Sum(s[i := x], g) + g(s[i]) == Sum(s, g) + g(x)
  {
    var n := |s| - 1;
    if i < n {
      SumUpdate(s[..n], i, x, g);
      assert s[i := x][..n] == s[..n][i := x];
    } else {
      assert s[i := x][..n] == s[..n];
    }
  }

  lemma {:induction false} SumTail<A>(s: seq<A>, g: A -> nat)
    requires s != []
    ensures Sum(s, g) == g(s[0]) + Sum(s[1..], g)
  {
    var n := |s| - 1;
    if n == 0 {
      assert s[..0] == [] && s[1..] == [];
    } else {
      SumTail(s[..n], g);
      assert s[..n][1..] == s[1..][..n - 1];
    }
  }

  lemma {:induction false} SumAtLeast<A>(s: seq<A>, i: nat, g: A -> nat)
    requires i < |s|
    ensures g(s[i]) <= Sum(s, g)
  {
    if i < |s| - 1 {
      SumAtLeast(s[..|s| - 1], i, g);
    }
  }

  lemma {:induction false} SumPositive<A>(s: seq<A>, g: A -> nat) returns (i: nat)
    requires Sum(s, g) > 0
    ensures i < |s| && g(s[i]) > 0
  {
    var n := |s| - 1;
    if g(s[n]) > 0 {
      i := n;
    } else {
      i := SumPositive(s[..n], g);
    }
  }

  lemma {:induction false} SumZero<A>(s: seq<A>, g: A -> nat)
    requires forall i :: 0 <= i < |s| ==> g(s[i]) == 0
    ensures Sum(s, g) == 0
  {
    if s != [] {
      SumZero(s[..|s| - 1], g);
    }
  }

  lemma {:induction false} SumMonotone<A(!new)>(s: seq<A>, g: A -> nat, h: A -> nat)
    requires forall x :: g(x) <= h(x)
    ensures Sum(s, g) <= Sum(s, h)
  {
    if s != [] {
      SumMonotone(s[..|s| - 1], g, h);
    }
  }
}
