/**
 The 24-bit Galois shift register behind the peer indices. Its step is multiplication by x in the
 polynomials over GF(2) modulo x^24 + x^4 + x^3 + x + 1, with bit 23 - k holding the coefficient of x^k.
 */
module Lfsr {
  import opened LinearStep

  const LFSR_MAX: bv32 := 0x00ff_ffff
  const ONE: bv32 := 0x0080_0000

  function Step(state: bv32): bv32
  {
    (state >> 1) ^ ((0 - (state & 1)) & 0x00d8_0000)
  }

  predicate Small(s: bv32)
  {
    s <= 0x00ff_ffff
  }

  function Steps(s: bv32, n: nat): bv32
    decreases n
  {
    if n == 0 then s else Steps(Step(s), n - 1)
  }

  lemma StepStays(s: bv32)
    requires Small(s)
    ensures Small(Step(s)) && (s != 0 ==> Step(s) != 0)
  {
  }

  lemma StepIsInjective(s: bv32, t: bv32)
    requires Small(s) && Small(t) && Step(s) == Step(t)
    ensures s == t
  {
  }

  lemma {:induction false} StepsStay(s: bv32, n: nat)
    requires Small(s)
    ensures Small(Steps(s, n)) && (s != 0 ==> Steps(s, n) != 0)
    decreases n
  {
    if n > 0 {
      StepStays(s);
      StepsStay(Step(s), n - 1);
    }
  }

  lemma {:induction false} StepsCompose(s: bv32, m: nat, n: nat)
    ensures Steps(Steps(s, m), n) == Steps(s, m + n)
    decreases m
  {
    if m > 0 {
      StepsCompose(Step(s), m - 1, n);
    }
  }

  lemma NextOfSteps(s: bv32, n: nat)
    requires Small(s) && s != 0
    ensures Steps(s, n + 1) == Step(Steps(s, n)) != 0
  {
    StepsStay(s, n + 1);
    StepsCompose(s, n, 1);
    assert Steps(Steps(s, n), 1) == Step(Steps(s, n));
  }

  lemma {:induction false} StepsAreInjective(s: bv32, t: bv32, n: nat)
    requires Small(s) && Small(t) && Steps(s, n) == Steps(t, n)
    ensures s == t
    decreases n
  {
    if n > 0 {
      StepStays(s);
      StepStays(t);
      StepsAreInjective(Step(s), Step(t), n - 1);
      StepIsInjective(s, t);
    }
  }

  // -------------------------------------------------------------------------
  // The register as a linear step
  // -------------------------------------------------------------------------

  function Xor(x: bv32, y: bv32): bv32
  {
    x ^ y
  }

  ghost function Words(): Space<bv32>
  {
    Space(Xor, 0, Step)
  }

  lemma XorAssociates(x: bv32, y: bv32, z: bv32)
    ensures Xor(Xor(x, y), z) == Xor(x, Xor(y, z))
  {
  }

  lemma XorZero(x: bv32)
    ensures Xor(0, x) == x == Xor(x, 0) && Xor(x, x) == 0
  {
  }

  lemma StepOfXor(x: bv32, y: bv32)
    ensures Step(Xor(x, y)) == Xor(Step(x), Step(y))
  {
  }

  lemma WordsAssociate()
    ensures Associates(Words())
  {
    var s := Words();
    forall x: bv32, y: bv32, z: bv32
      ensures s.add(s.add(x, y), z) == s.add(x, s.add(y, z))
    {
      XorAssociates(x, y, z);
    }
  }

  lemma WordsCommute()
    ensures Commutes(Words())
  {
  }

  lemma WordsStepAdds()
    ensures StepAdds(Words())
  {
    var s := Words();
    forall x: bv32, y: bv32
      ensures s.step(s.add(x, y)) == s.add(s.step(x), s.step(y))
    {
      StepOfXor(x, y);
    }
  }

  lemma WordsAreLinear()
    ensures Linear(Words())
  {
    WordsAssociate();
    WordsCommute();
    WordsStepAdds();
    forall x: bv32
      ensures Words().add(x, Words().zero) == x
    {
      XorZero(x);
    }
  }

  // -------------------------------------------------------------------------
  // Products of register states
  // -------------------------------------------------------------------------

  function Rest(a: bv32): bv32
  {
    (a << 1) & 0x00ff_ffff
  }

  function Lead(a: bv32): bool
  {
    (a >> 23) & 1 == 1
  }

  /** `b` if the bit `t` is set. */
  function Masked(t: bv32, b: bv32): bv32
  {
    (0 - t) & b
  }

  function Term(a: bv32, b: bv32): bv32
  {
    Masked((a >> 23) & 1, b)
  }

  function Coefficients(a: bv32, n: nat): seq<bool>
    decreases n
  {
    if n == 0 then [] else [Lead(a)] + Coefficients(Rest(a), n - 1)
  }

  /** The first `n` coefficients of `a` times `b`. */
  function MulFrom(a: bv32, b: bv32, n: nat): bv32
    decreases n
  {
    if n == 0 then 0 else Xor(Masked((a >> 23) & 1, b), MulFrom((a << 1) & 0x00ff_ffff, Step(b), n - 1))
  }

  lemma Unfolded(a: bv32, b: bv32, n: nat)
    requires n > 0
    ensures MulFrom(a, b, n) == Xor(Term(a, b), MulFrom(Rest(a), Step(b), n - 1))
  {
  }

  lemma LastBit(t: bv32)
    ensures t & 1 == 0 || t & 1 == 1
  {
  }

  lemma Masks(b: bv32)
    ensures Masked(1, b) == b && Masked(0, b) == 0
  {
  }

  lemma TermIs(a: bv32, b: bv32)
    ensures Term(a, b) == if Lead(a) then b else 0
  {
    LastBit(a >> 23);
    Masks(b);
  }

  lemma {:induction false} MulIsAct(a: bv32, b: bv32, n: nat)
    ensures MulFrom(a, b, n) == Act(Words(), Coefficients(a, n), b)
    decreases n
  {
    if n > 0 {
      Unfolded(a, b, n);
      TermIs(a, b);
      MulIsAct(Rest(a), Step(b), n - 1);
      assert Coefficients(a, n)[1..] == Coefficients(Rest(a), n - 1);
      XorZero(MulFrom(Rest(a), Step(b), n - 1));
    }
  }

  function FourRests(a: bv32): bv32
  {
    (a << 4) & 0x00ff_ffff
  }

  function FourSteps(b: bv32): bv32
  {
    Step(Step(Step(Step(b))))
  }

  lemma Bits(a: bv32)
    ensures (Rest(a) >> 23) & 1 == (a >> 22) & 1
    ensures (Rest(Rest(a)) >> 23) & 1 == (a >> 21) & 1
    ensures (Rest(Rest(Rest(a))) >> 23) & 1 == (a >> 20) & 1
    ensures Rest(Rest(Rest(Rest(a)))) == FourRests(a)
  {
  }

  /** Four coefficients of `a` times `b`. */
  function Four(a: bv32, b: bv32): bv32
  {
    Xor(Masked((a >> 23) & 1, b), Xor(Masked((a >> 22) & 1, Step(b)),
        Xor(Masked((a >> 21) & 1, Step(Step(b))), Masked((a >> 20) & 1, Step(Step(Step(b)))))))
  }

  lemma LaterTerms(a: bv32, b: bv32)
    ensures Term(Rest(a), b) == Masked((a >> 22) & 1, b)
    ensures Term(Rest(Rest(a)), b) == Masked((a >> 21) & 1, b)
    ensures Term(Rest(Rest(Rest(a))), b) == Masked((a >> 20) & 1, b)
  {
  }

  lemma {:induction false} FourMore(a: bv32, b: bv32, n: nat)
    ensures MulFrom(a, b, n + 4) == Xor(Four(a, b), MulFrom(FourRests(a), FourSteps(b), n))
  {
    var a1, b1 := Rest(a), Step(b);
    var a2, b2 := Rest(a1), Step(b1);
    var a3, b3 := Rest(a2), Step(b2);
    var t0, t1, t2, t3 := Term(a, b), Term(a1, b1), Term(a2, b2), Term(a3, b3);
    var r := MulFrom(Rest(a3), Step(b3), n);
    Unfolded(a, b, n + 4);
    Unfolded(a1, b1, n + 3);
    Unfolded(a2, b2, n + 2);
    Unfolded(a3, b3, n + 1);
    XorAssociates(t2, t3, r);
    XorAssociates(t1, Xor(t2, t3), r);
    XorAssociates(t0, Xor(t1, Xor(t2, t3)), r);
    Bits(a);
    LaterTerms(a, b1);
    LaterTerms(a, b2);
    LaterTerms(a, b3);
  }

  /** The same, four coefficients at a time. */
  function MulByFours(a: bv32, b: bv32, n: nat): bv32
    decreases n
  {
    if n == 0 then 0 else Xor(Four(a, b), MulByFours(FourRests(a), FourSteps(b), n - 1))
  }

  lemma {:induction false} ByFoursIs(a: bv32, b: bv32, n: nat)
    ensures MulByFours(a, b, n) == MulFrom(a, b, 4 * n)
    decreases n
  {
    if n > 0 {
      ByFoursIs(FourRests(a), FourSteps(b), n - 1);
      FourMore(a, b, 4 * (n - 1));
    }
  }

  /** The product of two states, laid out flat so that products of literals are quickly computed. */
  function Mul(a: bv32, b: bv32): bv32
  {
    var a1, b1 := FourRests(a), FourSteps(b);
    var a2, b2 := FourRests(a1), FourSteps(b1);
    var a3, b3 := FourRests(a2), FourSteps(b2);
    var a4, b4 := FourRests(a3), FourSteps(b3);
    Xor(Four(a, b), Xor(Four(a1, b1), Xor(Four(a2, b2), Xor(Four(a3, b3), Xor(Four(a4, b4),
      Four(FourRests(a4), FourSteps(b4)))))))
  }

  lemma {:induction false} MulIsByFours(a: bv32, b: bv32)
    ensures Mul(a, b) == MulByFours(a, b, 6)
  {
    var a4, b4 := FourRests(FourRests(FourRests(FourRests(a)))), FourSteps(FourSteps(FourSteps(FourSteps(b))));
    XorZero(Four(FourRests(a4), FourSteps(b4)));
  }

  lemma {:induction false} MulIs(a: bv32, b: bv32)
    ensures Mul(a, b) == Act(Words(), Coefficients(a, 24), b)
  {
    MulIsByFours(a, b);
    ByFoursIs(a, b, 6);
    MulIsAct(a, b, 24);
  }

  lemma MulOne(a: bv32)
    requires Small(a)
    ensures Mul(a, ONE) == a
  {
  }

  lemma MulStep(a: bv32, b: bv32)
    ensures Mul(a, Step(b)) == Step(Mul(a, b))
  {
    WordsAreLinear();
    MulIs(a, b);
    MulIs(a, Step(b));
    ActSteps(Words(), Coefficients(a, 24), b);
  }

  lemma {:induction false} MulSteps(a: bv32, b: bv32, n: nat)
    ensures Mul(a, Steps(b, n)) == Steps(Mul(a, b), n)
    decreases n
  {
    if n > 0 {
      MulStep(a, b);
      MulSteps(a, Step(b), n - 1);
    }
  }
}
