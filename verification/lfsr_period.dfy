/** The register runs through all 2^24 - 1 non-zero states before it repeats one. */
module LfsrPeriod {
  import opened LinearStep
  import opened Lfsr
  import opened LfsrPowers
  import opened Periods

  /** 2^24 - 1 = 3 * 3 * 5 * 7 * 13 * 17 * 241 */
  const PERIOD: nat := 0xff_ffff

  predicate IsFactor(q: nat)
  {
    q == 3 || q == 5 || q == 7 || q == 13 || q == 17 || q == 241
  }

  lemma NotProper(q: nat, d: nat, e: nat)
    requires IsFactor(q) && 2 <= d <= e
    ensures d * e != q
  {
  }

  lemma FactorsArePrime(q: nat)
    requires IsFactor(q)
    ensures Prime(q)
  {
    forall d: nat, e: nat {:trigger d * e} | d * e == q
      ensures d == 1 || e == 1
    {
      if 2 <= d <= e {
        NotProper(q, d, e);
      } else if 2 <= e <= d {
        NotProper(q, e, d);
      }
    }
  }

  /** Splits a prime off one of the two factors of a product. */
  lemma SplitOff(q: nat, b: nat, g: nat, n: nat) returns (h: nat)
    requires IsFactor(q) && b > 0 && b * g == q * n
    ensures Divides(q, b) || (g == q * h && b * h == n)
  {
    h := 0;
    FactorsArePrime(q);
    PrimeDivides(q, b, g);
    if !Divides(q, b) {
      h :| g == q * h;
      Cancelled(q, b, h, n);
    }
  }

  lemma Cancelled(q: nat, b: nat, h: nat, n: nat)
    requires q > 0 && b * (q * h) == q * n
    ensures b * h == n
  {
  }

  /** Every divisor of the period but 1 has one of its prime factors. */
  lemma HasFactor(b: nat, g: nat) returns (q: nat)
    requires b > 1 && b * g == PERIOD
    ensures IsFactor(q) && Divides(q, b)
  {
    if Divides(3, b) { return 3; }
    if Divides(5, b) { return 5; }
    if Divides(7, b) { return 7; }
    if Divides(13, b) { return 13; }
    if Divides(17, b) { return 17; }
    if Divides(241, b) { return 241; }
    var h := SplitOff(3, b, g, 5592405);
    h := SplitOff(3, b, h, 1864135);
    h := SplitOff(5, b, h, 372827);
    h := SplitOff(7, b, h, 53261);
    h := SplitOff(13, b, h, 4097);
    h := SplitOff(17, b, h, 241);
    h := SplitOff(241, b, h, 1);
    q := 3;
    NoUnit(b, h);
  }

  lemma NoUnit(b: nat, h: nat)
    requires b > 1
    ensures b * h != 1
  {
  }

  // -------------------------------------------------------------------------
  // No state comes back early
  // -------------------------------------------------------------------------

  lemma {:induction false} ComesBack(s: bv32)
    requires Small(s)
    ensures Steps(s, PERIOD) == s
  {
    FullPeriod();
    OneIsSmall();
    StepsStay(ONE, PERIOD);
    StepsCompose(ONE, PERIOD, 1);
    assert Step(Power(PERIOD)) == Steps(Power(PERIOD), 1);
    StepIsInjective(Power(PERIOD), ONE);
    StepsMultiply(s, PERIOD);
    MulOne(s);
  }

  /** If x^n - 1 has an inverse, only the zero state comes back after `n` steps. */
  lemma {:induction false} NotFixed(n: nat, v: bv32, s: bv32)
    requires Small(s) && Small(v) && Mul(v, Xor(Power(n), ONE)) == ONE && s != 0
    ensures Steps(s, n) != s
  {
    if Steps(s, n) == s {
      var e, p, q := Xor(Power(n), ONE), Coefficients(s, 24), Coefficients(v, 24);
      WordsAreLinear();
      StepsMultiply(s, n);
      MulOne(s);
      Difference(s, n);
      MulIs(s, ONE);
      MulIs(v, e);
      MulIs(s, e);
      ActCommutes(Words(), p, q, e);
      ActZero(Words(), q);
    }
  }

  lemma Difference(s: bv32, n: nat)
    ensures Mul(s, Xor(Power(n), ONE)) == Xor(Mul(s, Power(n)), Mul(s, ONE))
    ensures Mul(s, Power(n)) == Mul(s, ONE) ==> Mul(s, Xor(Power(n), ONE)) == 0
  {
    WordsAreLinear();
    MulIs(s, Power(n));
    MulIs(s, ONE);
    MulIs(s, Xor(Power(n), ONE));
    ActAdds(Words(), Coefficients(s, 24), Power(n), ONE);
    XorZero(Mul(s, ONE));
  }

  lemma {:induction false} NotThird(s: bv32, m: nat)
    requires Small(s) && s != 0 && 3 * m == PERIOD
    ensures Steps(s, m) != s
  {
    Third();
    assert Xor(0x720800, ONE) == 0xf20800;
    NotFixed(m, 0x720800, s);
  }

  lemma {:induction false} NotFifth(s: bv32, m: nat)
    requires Small(s) && s != 0 && 5 * m == PERIOD
    ensures Steps(s, m) != s
  {
    Fifth();
    assert Xor(0xd59b8f, ONE) == 0x559b8f;
    NotFixed(m, 0xd189ed, s);
  }

  lemma {:induction false} NotSeventh(s: bv32, m: nat)
    requires Small(s) && s != 0 && 7 * m == PERIOD
    ensures Steps(s, m) != s
  {
    Seventh();
    assert Xor(0xb54700, ONE) == 0x354700;
    NotFixed(m, 0xb2c220, s);
  }

  lemma {:induction false} NotThirteenth(s: bv32, m: nat)
    requires Small(s) && s != 0 && 13 * m == PERIOD
    ensures Steps(s, m) != s
  {
    Thirteenth();
    assert Xor(0x13f7c0, ONE) == 0x93f7c0;
    NotFixed(m, 0xdda015, s);
  }

  lemma {:induction false} NotSeventeenth(s: bv32, m: nat)
    requires Small(s) && s != 0 && 17 * m == PERIOD
    ensures Steps(s, m) != s
  {
    Seventeenth();
    assert Xor(0x5d1147, ONE) == 0xdd1147;
    NotFixed(m, 0x4d0fba, s);
  }

  lemma {:induction false} NotLast(s: bv32, m: nat)
    requires Small(s) && s != 0 && 241 * m == PERIOD
    ensures Steps(s, m) != s
  {
    Last();
    assert Xor(0x5e700d, ONE) == 0xde700d;
    NotFixed(m, 0x817fda, s);
  }

  lemma {:induction false} NotAtFactor(s: bv32, q: nat, m: nat)
    requires Small(s) && s != 0 && IsFactor(q) && q * m == PERIOD
    ensures Steps(s, m) != s
  {
    if {
      case q == 3 => NotThird(s, m);
      case q == 5 => NotFifth(s, m);
      case q == 7 => NotSeventh(s, m);
      case q == 13 => NotThirteenth(s, m);
      case q == 17 => NotSeventeenth(s, m);
      case q == 241 => NotLast(s, m);
    }
  }

  lemma {:induction false} Repeats(s: bv32, g: nat, m: nat)
    requires Steps(s, g) == s
    ensures Steps(s, m * g) == s
    decreases m
  {
    if m > 0 {
      Repeats(s, g, m - 1);
      StepsCompose(s, g, (m - 1) * g);
      assert g + (m - 1) * g == m * g;
    }
  }

  lemma ReturnTimesAreClosed(s: bv32)
    ensures Closed(iset n: nat | Steps(s, n) == s)
  {
    forall x: nat, y: nat | Steps(s, x) == s && Steps(s, y) == s && x < y
      ensures Steps(s, y - x) == s
    {
      StepsCompose(s, x, y - x);
    }
  }

  /** No non-zero state comes back in fewer than 2^24 - 1 steps. */
  lemma {:induction false} NoEarlyReturn(s: bv32, d: nat)
    requires Small(s) && s != 0 && 0 < d < PERIOD
    ensures Steps(s, d) != s
  {
    if Steps(s, d) == s {
      ReturnTimesAreClosed(s);
      ComesBack(s);
      var g, a, b := CommonDivisor((iset n: nat | Steps(s, n) == s), d, PERIOD);
      NotWhole(d, g, a, b);
      ReturnsTooOften(s, b, g);
    }
  }

  lemma {:induction false} ReturnsTooOften(s: bv32, b: nat, g: nat)
    requires Small(s) && s != 0 && b > 1 && b * g == PERIOD
    ensures Steps(s, g) != s
  {
    if Steps(s, g) == s {
      var q := HasFactor(b, g);
      var m: nat :| b == q * m;
      Repeats(s, g, m);
      assert q * (m * g) == PERIOD;
      NotAtFactor(s, q, m * g);
    }
  }

  lemma NotWhole(d: nat, g: nat, a: nat, b: nat)
    requires 0 < d < PERIOD && d == a * g && PERIOD == b * g
    ensures b > 1
  {
  }

  /** The first 2^24 - 1 states from any non-zero one on are pairwise distinct. */
  lemma {:induction false} StatesAreDistinct(s: bv32, i: nat, j: nat)
    requires Small(s) && s != 0 && i < j < PERIOD
    ensures Steps(s, i) != Steps(s, j)
  {
    StepsCompose(s, j - i, i);
    StepsStay(s, j - i);
    NoEarlyReturn(s, j - i);
    if Steps(s, i) == Steps(s, j) {
      StepsAreInjective(s, Steps(s, j - i), i);
    }
  }
}
