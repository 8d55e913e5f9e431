/** Powers of x, computed by squaring, a hexadecimal digit of the exponent at a time. */
module LfsrPowers {
  import opened Lfsr

  /** x to the n-th. */
  function Power(n: nat): bv32
  {
    Steps(ONE, n)
  }

  lemma OneIsSmall()
    ensures Small(ONE) && ONE != 0
  {
  }

  /** Taking n steps is multiplying by x to the n-th. */
  lemma {:induction false} StepsMultiply(s: bv32, n: nat)
    requires Small(s)
    ensures Steps(s, n) == Mul(s, Power(n))
  {
    MulOne(s);
    MulSteps(s, ONE, n);
  }

  lemma PowersAdd(m: nat, n: nat)
    ensures Power(m + n) == Mul(Power(m), Power(n))
  {
    OneIsSmall();
    StepsStay(ONE, m);
    StepsCompose(ONE, m, n);
    StepsMultiply(Power(m), n);
  }

  lemma Doubled(n: nat, a: bv32, b: bv32)
    requires Power(n) == a && Mul(a, a) == b
    ensures Power(2 * n) == b
  {
    PowersAdd(n, n);
  }

  lemma {:induction false} MoreSteps(n: nat, a: bv32, k: nat, b: bv32)
    requires Power(n) == a && Steps(a, k) == b
    ensures Power(n + k) == b
  {
    StepsCompose(ONE, n, k);
  }

  /** Four squarings append a zero digit to the exponent, and `k` steps make it `k`. */
  lemma {:induction false} NextDigit(n: nat, a: bv32, b: bv32, c: bv32, d: bv32, e: bv32, k: nat, r: bv32)
    requires Power(n) == a && Mul(a, a) == b && Mul(b, b) == c && Mul(c, c) == d && Mul(d, d) == e && Steps(e, k) == r
    ensures Power(16 * n + k) == r
  {
    Doubled(n, a, b);
    Doubled(2 * n, b, c);
    Doubled(4 * n, c, d);
    Doubled(8 * n, d, e);
    MoreSteps(16 * n, e, k, r);
  }

  lemma Sixteenth()
    ensures Power(0x10) == 0x000080
  {
    MoreSteps(0, 0x800000, 8, 0x008000);
    MoreSteps(8, 0x008000, 8, 0x000080);
  }

  lemma FullPeriod3()
    ensures Power(0x100) == 0x4530cf
  {
    Sixteenth();
    NextDigit(0x10, 0x000080, 0x00d800, 0xd800a2, 0x7a558d, 0x4530cf, 0, 0x4530cf);
  }

  lemma FullPeriod4()
    ensures Power(0x1000) == 0x821085
  {
    FullPeriod3();
    NextDigit(0x100, 0x4530cf, 0xa2ccea, 0xbeebf5, 0x06a87d, 0x821085, 0, 0x821085);
  }

  lemma FullPeriod5()
    ensures Power(0x10000) == 0x2a5c5f
  {
    FullPeriod4();
    NextDigit(0x1000, 0x821085, 0xdad037, 0x20867a, 0xebb8b5, 0x2a5c5f, 0, 0x2a5c5f);
  }

  lemma FullPeriod6()
    ensures Power(0x100000) == 0x5f7495
  {
    FullPeriod5();
    NextDigit(0x10000, 0x2a5c5f, 0x64bda2, 0x1d9507, 0xb5c2ba, 0x5f7495, 0, 0x5f7495);
  }

  /** x to the 2^24 is x again. */
  lemma FullPeriod()
    ensures Power(0x1000000) == 0x400000
  {
    FullPeriod6();
    NextDigit(0x100000, 0x5f7495, 0x4e717f, 0xa1f02a, 0x500fff, 0x400000, 0, 0x400000);
  }

  lemma Third2()
    ensures Power(0x55) == 0xb4076d
  {
    MoreSteps(0, 0x800000, 8, 0x008000);
    MoreSteps(8, 0x008000, 8, 0x000080);
    MoreSteps(16, 0x000080, 5, 0x000004);
    Doubled(21, 0x000004, 0x000036);
    Doubled(42, 0x000036, 0xd80edb);
    MoreSteps(84, 0xd80edb, 1, 0xb4076d);
  }

  lemma Third3()
    ensures Power(0x555) == 0x8f491d
  {
    Third2();
    NextDigit(0x55, 0xb4076d, 0xe8fb6d, 0x245bc7, 0x5c2e1a, 0x1923bd, 5, 0x8f491d);
  }

  lemma Third4()
    ensures Power(0x5555) == 0xb2219d
  {
    Third3();
    NextDigit(0x555, 0x8f491d, 0x01c9ad, 0x81b7cd, 0xe20c67, 0xc433b8, 5, 0xb2219d);
  }

  lemma Third5()
    ensures Power(0x55555) == 0x951d17
  {
    Third4();
    NextDigit(0x5555, 0xb2219d, 0xd3b385, 0xf632bf, 0x257e0a, 0x33a2ff, 5, 0x951d17);
  }

  /** x to the (2^24 - 1) / 3. */
  lemma Third()
    ensures Power(0x555555) == 0x720800
  {
    Third5();
    NextDigit(0x55555, 0x951d17, 0xed415a, 0x73f795, 0x4831ff, 0xa1000a, 5, 0x720800);
  }

  /** The first 24 powers are single bits; the next one is where the register first feeds back. */
  lemma FirstFeedback()
    ensures Power(24) == 0xd80000
  {
    MoreSteps(0, 0x800000, 8, 0x008000);
    MoreSteps(8, 0x008000, 8, 0x000080);
    MoreSteps(16, 0x000080, 7, 0x000001);
    assert Step(0x000001) == 0xd80000;
    MoreSteps(23, 0x000001, 1, 0xd80000);
  }

  lemma Fifth2()
    ensures Power(0x33) == 0x145000
  {
    FirstFeedback();
    MoreSteps(24, 0xd80000, 1, 0x6c0000);
    Doubled(25, 0x6c0000, 0x28a000);
    MoreSteps(50, 0x28a000, 1, 0x145000);
  }

  lemma Fifth3()
    ensures Power(0x333) == 0x86559b
  {
    Fifth2();
    NextDigit(0x33, 0x145000, 0x022022, 0xd80585, 0xcd3835, 0x22acdf, 3, 0x86559b);
  }

  lemma Fifth4()
    ensures Power(0x3333) == 0xa9abfb
  {
    Fifth3();
    NextDigit(0x333, 0x86559b, 0x379394, 0x0411d4, 0x03ad54, 0xed5fde, 3, 0xa9abfb);
  }

  lemma Fifth5()
    ensures Power(0x33333) == 0xc9ebf3
  {
    Fifth4();
    NextDigit(0x3333, 0xa9abfb, 0xdc82be, 0x77f683, 0x9372a4, 0x8f5f9c, 3, 0xc9ebf3);
  }

  /** x to the (2^24 - 1) / 5. */
  lemma Fifth()
    ensures Power(0x333333) == 0xd59b8f
  {
    Fifth5();
    NextDigit(0x33333, 0xc9ebf3, 0xf48246, 0x7f96bb, 0x93fcb4, 0x6cdc7c, 3, 0xd59b8f);
  }

  lemma Seventh2()
    ensures Power(0x24) == 0x000d80
  {
    MoreSteps(0, 0x800000, 8, 0x008000);
    MoreSteps(8, 0x008000, 8, 0x000080);
    MoreSteps(16, 0x000080, 2, 0x000020);
    Doubled(18, 0x000020, 0x000d80);
  }

  lemma Seventh3()
    ensures Power(0x249) == 0xabdc4f
  {
    Seventh2();
    NextDigit(0x24, 0x000d80, 0xedb800, 0x70a28a, 0xff585d, 0x289faf, 8, 0xe7b89f);
    MoreSteps(0x248, 0xe7b89f, 1, 0xabdc4f);
  }

  lemma Seventh4()
    ensures Power(0x2492) == 0x80a127
  {
    Seventh3();
    NextDigit(0x249, 0xabdc4f, 0xe4bc42, 0x9e1687, 0x3bf03a, 0xd2849f, 2, 0x80a127);
  }

  lemma Seventh5()
    ensures Power(0x24924) == 0x0cec8c
  {
    Seventh4();
    NextDigit(0x2492, 0x80a127, 0x016d30, 0xed6cc8, 0x464cf0, 0xcec8c0, 4, 0x0cec8c);
  }

  /** x to the (2^24 - 1) / 7. */
  lemma Seventh()
    ensures Power(0x249249) == 0xb54700
  {
    Seventh5();
    NextDigit(0x24924, 0x0cec8c, 0xee7846, 0xa89e11, 0x3103e1, 0x5e0183, 8, 0xda8e01);
    MoreSteps(0x249248, 0xda8e01, 1, 0xb54700);
  }

  lemma Thirteenth2()
    ensures Power(0x13) == 0x000010
  {
    MoreSteps(0, 0x800000, 8, 0x008000);
    MoreSteps(8, 0x008000, 8, 0x000080);
    MoreSteps(16, 0x000080, 3, 0x000010);
  }

  lemma Thirteenth3()
    ensures Power(0x13b) == 0xef3d5f
  {
    Thirteenth2();
    NextDigit(0x13, 0x000010, 0x000360, 0x0edb80, 0xd690a2, 0x7afd0f, 8, 0x09eafd);
    MoreSteps(0x138, 0x09eafd, 3, 0xef3d5f);
  }

  lemma Thirteenth4()
    ensures Power(0x13b1) == 0xd85103
  {
    Thirteenth3();
    NextDigit(0x13b, 0xef3d5f, 0xc7ff8a, 0x98127f, 0x0d3802, 0x00a207, 1, 0xd85103);
  }

  lemma Thirteenth5()
    ensures Power(0x13b13) == 0xad31d6
  {
    Thirteenth4();
    NextDigit(0x13b1, 0xd85103, 0x23e02c, 0x0807c6, 0xe08e3b, 0xc98eb6, 3, 0xad31d6);
  }

  /** x to the (2^24 - 1) / 13. */
  lemma Thirteenth()
    ensures Power(0x13b13b) == 0x13f7c0
  {
    Thirteenth5();
    NextDigit(0x13b13, 0xad31d6, 0x532f51, 0x98df6b, 0xe05bf4, 0x7e00f4, 8, 0x9fbe00);
    MoreSteps(0x13b138, 0x9fbe00, 3, 0x13f7c0);
  }

  lemma Seventeenth2()
    ensures Power(0xf0) == 0x4f7738
  {
    FirstFeedback();
    MoreSteps(24, 0xd80000, 6, 0x036000);
    Doubled(30, 0x036000, 0x000a28);
    Doubled(60, 0x000a28, 0xd58d58);
    Doubled(120, 0xd58d58, 0x4f7738);
  }

  lemma Seventeenth3()
    ensures Power(0xf0f) == 0x2871b6
  {
    Seventeenth2();
    NextDigit(0xf0, 0x4f7738, 0x184412, 0xec834d, 0xfc766d, 0xcb1b47, 8, 0x68db1b);
    MoreSteps(0xf08, 0x68db1b, 7, 0x2871b6);
  }

  lemma Seventeenth4()
    ensures Power(0xf0f0) == 0x51f2c6
  {
    Seventeenth3();
    NextDigit(0xf0f, 0x2871b6, 0xd336f1, 0xc36ae9, 0x2f6973, 0x51f2c6, 0, 0x51f2c6);
  }

  /** x to the (2^24 - 1) / 17. */
  lemma Seventeenth()
    ensures Power(0xf0f0f) == 0x5d1147
  {
    Seventeenth4();
    NextDigit(0xf0f0, 0x51f2c6, 0xf76c91, 0x1ef14b, 0x83fe7c, 0x63b2a4, 8, 0xe8a3b2);
    MoreSteps(0xf0f08, 0xe8a3b2, 7, 0x5d1147);
  }

  lemma Last3()
    ensures Power(0x10f) == 0x5b7baa
  {
    Sixteenth();
    NextDigit(0x10, 0x000080, 0x00d800, 0xd800a2, 0x7a558d, 0x4530cf, 8, 0xbdd530);
    MoreSteps(0x108, 0xbdd530, 7, 0x5b7baa);
  }

  lemma Last4()
    ensures Power(0x10fe) == 0xd8d7a9
  {
    Last3();
    NextDigit(0x10f, 0x5b7baa, 0x2cbf7f, 0x6a788a, 0x2850ff, 0x8a6022, 8, 0x35ea60);
    MoreSteps(0x10f8, 0x35ea60, 6, 0xd8d7a9);
  }

  /** x to the (2^24 - 1) / 241. */
  lemma Last()
    ensures Power(0x10fef) == 0x5e700d
  {
    Last4();
    NextDigit(0x10fe, 0xd8d7a9, 0xc0b5f9, 0xcf80b1, 0xfa7c63, 0xc6b3a4, 8, 0xe806b3);
    MoreSteps(0x10fe8, 0xe806b3, 7, 0x5e700d);
  }
}
