/** Sets of numbers closed under subtraction, and what primes divide. */
module Periods {
  ghost predicate Closed(members: iset<nat>)
  {
    forall x, y :: x in members && y in members && x < y ==> y - x in members
  }

  /** Two positive members have a common divisor among the members. */
  lemma {:induction false} CommonDivisor(s: iset<nat>, m: nat, n: nat) returns (g: nat, a: nat, b: nat)
    requires Closed(s) && m in s && n in s && m > 0 && n > 0
    ensures g in s && g > 0 && m == a * g && n == b * g
    decreases m + n
  {
    if m == n {
      g, a, b := m, 1, 1;
    } else if m < n {
      g, a, b := CommonDivisor(s, m, n - m);
      b := a + b;
    } else {
      g, a, b := CommonDivisor(s, m - n, n);
      a := a + b;
    }
  }

  ghost predicate Prime(q: nat)
  {
    q > 1 && forall d: nat, e: nat {:trigger d * e} :: d * e == q ==> d == 1 || e == 1
  }

  ghost predicate Divides(q: nat, n: nat)
  {
    exists y: nat {:trigger q * y} :: n == q * y
  }

  lemma MultiplesGrow(q: nat, u: nat, v: nat)
    requires u <= v
    ensures q * u <= q * v
  {
  }

  lemma DividesDifference(q: nat, m: nat, n: nat)
    requires Divides(q, m) && Divides(q, n) && m < n
    ensures Divides(q, n - m)
  {
    var u: nat :| m == q * u;
    var v: nat :| n == q * v;
    if v <= u {
      MultiplesGrow(q, v, u);
    }
    assert n - m == q * (v - u);
  }

  lemma MultiplesAreClosed(q: nat, g: nat) returns (s: iset<nat>)
    ensures s == (iset x: nat | Divides(q, x * g)) && Closed(s)
  {
    s := iset x: nat | Divides(q, x * g);
    forall x, y | x in s && y in s && x < y
      ensures y - x in s
    {
      if g == 0 {
        assert (y - x) * g == q * 0;
      } else {
        assert y * g - x * g == (y - x) * g;
        assert x * g < y * g;
        DividesDifference(q, x * g, y * g);
      }
    }
  }

  /** A prime that divides a product divides one of the factors. */
  lemma PrimeDivides(q: nat, k: nat, g: nat)
    requires Prime(q) && k > 0 && Divides(q, k * g)
    ensures Divides(q, k) || Divides(q, g)
  {
    var s := MultiplesAreClosed(q, g);
    assert q * g == q * g;
    var c, a, b := CommonDivisor(s, k, q);
    if c == 1 {
      assert Divides(q, 1 * g);
    } else {
      PrimeFactor(q, b, c);
      assert k == q * a;
    }
  }

  lemma PrimeFactor(q: nat, b: nat, c: nat)
    requires Prime(q) && q == b * c && c != 1
    ensures c == q
  {
  }
}
