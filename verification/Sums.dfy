/** Finite sums, and what changing one summand does to them. */
module Sums {

  function SumTo(f: nat -> int, n: nat): int {
    if n == 0 then 0 else SumTo(f, n - 1) + f(n - 1)
  }

  lemma {:induction false} SumSame(f: nat -> int, g: nat -> int, n: nat)
    requires forall i: nat :: i < n ==> f(i) == g(i)
    ensures SumTo(f, n) == SumTo(g, n)
  {
    if n > 0 {
      SumSame(f, g, n - 1);
    }
  }

  lemma {:induction false} SumUpdate(f: nat -> int, g: nat -> int, n: nat, p: nat)
    requires p < n && forall i: nat :: i < n && i != p ==> f(i) == g(i)
    ensures SumTo(g, n) == SumTo(f, n) - f(p) + g(p)
  {
    if p < n - 1 {
      SumUpdate(f, g, n - 1, p);
    } else {
      SumSame(f, g, n - 1);
    }
  }

  lemma {:induction false} SumBounds(f: nat -> int, n: nat, p: nat)
    requires p < n && forall i: nat :: i < n ==> f(i) >= 0
    ensures 0 <= f(p) <= SumTo(f, n)
  {
    SumNonNegative(f, n - 1);
    if p < n - 1 {
      SumBounds(f, n - 1, p);
    }
  }

  lemma {:induction false} SumNonNegative(f: nat -> int, n: nat)
    requires forall i: nat :: i < n ==> f(i) >= 0
    ensures SumTo(f, n) >= 0
  {
    if n > 0 {
      SumNonNegative(f, n - 1);
    }
  }

  /** A positive sum has a positive summand. */
  lemma {:induction false} SumWitness(f: nat -> int, n: nat) returns (p: nat)
    requires SumTo(f, n) > 0
    ensures p < n && f(p) > 0
  {
    p := n - 1;
    if f(n - 1) <= 0 {
      p := SumWitness(f, n - 1);
    }
  }

  lemma {:induction false} SumConstant(f: nat -> int, n: nat, v: int)
    requires forall i: nat :: i < n ==> f(i) == v
    ensures SumTo(f, n) == n * v
  {
    if n > 0 {
      SumConstant(f, n - 1, v);
    }
  }
}
