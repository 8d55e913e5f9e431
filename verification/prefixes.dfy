/**
 Address words and network prefixes.

 An address of one family is a word of `width` bits, most significant bit first, so that
 `word[i]` is the i-th network bit. A network prefix is the sequence of its significant bits.
 */
module Prefixes {

  type Word = seq<bool>

  type Prefix = seq<bool>

  /** Keeps the first `n` network bits of `w` and clears the host bits. */
  function Mask(w: Word, n: nat): (r: Word)
    requires n <= |w|
  {
    w[..n] + seq(|w| - n, _ => false)
  }

  /** The unsigned integer a word stands for. */
  function Value(w: Word): nat
  {
    if w == [] then 0 else 2 * Value(w[..|w| - 1]) + (if w[|w| - 1] then 1 else 0)
  }

  /** Machine shifts, one bit at a time. */
  function ShiftRight(v: nat, n: nat): nat
  {
    if n == 0 then v else ShiftRight(v / 2, n - 1)
  }

  function ShiftLeft(v: nat, n: nat): nat
  {
    if n == 0 then v else 2 * ShiftLeft(v, n - 1)
  }

  // -------------------------------------------------------------------------
  // The word operations agree with the machine arithmetic they stand for
  // -------------------------------------------------------------------------

  /** Shifting right by `|w| - 1 - i` and keeping the lowest bit reads network bit `i`. */
  lemma {:induction false} BitIsShift(w: Word, i: nat)
    requires i < |w|
    ensures ShiftRight(Value(w), |w| - 1 - i) % 2 == (if w[i] then 1 else 0)
  {
    if i < |w| - 1 {
      BitIsShift(w[..|w| - 1], i);
    }
  }

  function And(a: Word, b: Word): (r: Word)
    requires |a| == |b|
    ensures |r| == |a|
  {
    seq(|a|, i requires 0 <= i < |a| => a[i] && b[i])
  }

  function Not(a: Word): (r: Word)
    ensures |r| == |a|
  {
    seq(|a|, i requires 0 <= i < |a| => !a[i])
  }

  /** A word whose last `hostBits` bits are set. */
  function HostMask(width: nat, hostBits: nat): (r: Word)
    requires hostBits <= width
    ensures |r| == width
  {
    seq(width - hostBits, _ => false) + seq(hostBits, _ => true)
  }

  /** `(1 << hostBits) - 1` is the word with just the host bits set. */
  lemma {:induction false} HostMaskIsPower(width: nat, hostBits: nat)
    requires hostBits <= width
    ensures Value(HostMask(width, hostBits)) == ShiftLeft(1, hostBits) - 1
  {
    var w := HostMask(width, hostBits);
    if width == 0 {
    } else if hostBits == 0 {
      assert w[..width - 1] == HostMask(width - 1, 0);
      HostMaskIsPower(width - 1, 0);
    } else {
      assert w[..width - 1] == HostMask(width - 1, hostBits - 1);
      HostMaskIsPower(width - 1, hostBits - 1);
    }
  }

  /** Masking is clearing the bits of `(1 << hostBits) - 1`, also where the original treats the word specially. */
  lemma {:induction false} MaskIsAndNot(w: Word, n: nat)
    requires n <= |w|
    ensures Mask(w, n) == And(w, Not(HostMask(|w|, |w| - n)))
    ensures Value(HostMask(|w|, |w| - n)) == ShiftLeft(1, |w| - n) - 1
    ensures n == 0 ==> Value(Mask(w, n)) == 0
    ensures n == |w| ==> Mask(w, n) == w
  {
    HostMaskIsPower(|w|, |w| - n);
    if n == 0 {
      ZeroTail([], |w|);
      ShiftedZero(|w|);
      assert Mask(w, 0) == [] + seq(|w|, _ => false);
    }
  }

  lemma {:induction false} ShiftedZero(n: nat)
    ensures ShiftLeft(0, n) == 0
  {
    if n > 0 {
      ShiftedZero(n - 1);
    }
  }

  lemma {:induction false} ZeroTail(p: Prefix, n: nat)
    ensures Value(p + seq(n, _ => false)) == ShiftLeft(Value(p), n)
  {
    var w := p + seq(n, _ => false);
    if n == 0 {
      assert w == p;
    } else {
      ZeroTail(p, n - 1);
      assert w[..|w| - 1] == p + seq(n - 1, _ => false);
    }
  }

  // -------------------------------------------------------------------------
  // Common prefixes and overlap
  // -------------------------------------------------------------------------

  /** Length of the longest common prefix of two bit sequences. */
  function CommonLen(a: Prefix, b: Prefix): (n: nat)
    ensures n <= |a| && n <= |b| && a[..n] == b[..n]
    ensures n < |a| && n < |b| ==> a[n] != b[n]
  {
    if a == [] || b == [] || a[0] != b[0] then 0
    else
      var n := 1 + CommonLen(a[1..], b[1..]);
      assert a[..n] == [a[0]] + a[1..][..n - 1];
      assert b[..n] == [b[0]] + b[1..][..n - 1];
      n
  }

  /** Some address of the family lies inside both prefixes. */
  ghost predicate ShareAddress(a: Prefix, b: Prefix, width: nat)
  {
    exists addr: Word :: |addr| == width && a <= addr && b <= addr
  }

  predicate Comparable(a: Prefix, b: Prefix)
  {
    a <= b || b <= a
  }

  /** Two prefixes contain a common address exactly when one of them extends the other. */
  lemma OverlapMeansSharedAddress(a: Prefix, b: Prefix, width: nat)
    requires |a| <= width && |b| <= width
    ensures Comparable(a, b) <==> ShareAddress(a, b, width)
  {
    if Comparable(a, b) {
      var longer := if a <= b then b else a;
      var addr := longer + seq(width - |longer|, _ => false);
      assert |addr| == width && a <= addr && b <= addr;
    }
    if ShareAddress(a, b, width) {
      var addr: Word :| |addr| == width && a <= addr && b <= addr;
      assert a == addr[..|a|] && b == addr[..|b|];
      if |a| <= |b| {
        assert a == b[..|a|];
      } else {
        assert b == a[..|b|];
      }
    }
  }

  /** The common prefix of two masked words, found by comparing bits from the front. */
  method CommonPrefixLen(a: Word, aLen: nat, b: Word, bLen: nat) returns (n: nat)
    requires aLen <= |a| && bLen <= |b|
    ensures n == CommonLen(a[..aLen], b[..bLen])
  {
    var max := if aLen <= bLen then aLen else bLen;
    for i := 0 to max
      invariant a[..i] == b[..i]
    {
      if a[i] != b[i] {
        assert a[..aLen][..i] == a[..i] && b[..bLen][..i] == b[..i];
        CommonLenUnique(a[..aLen], b[..bLen], i);
        return i;
      }
    }
    assert a[..aLen][..max] == a[..max] && b[..bLen][..max] == b[..max];
    CommonLenUnique(a[..aLen], b[..bLen], max);
    return max;
  }

  lemma {:induction false} CommonLenUnique(a: Prefix, b: Prefix, n: nat)
    requires n <= |a| && n <= |b| && a[..n] == b[..n]
    requires n < |a| && n < |b| ==> a[n] != b[n]
    ensures CommonLen(a, b) == n
  {
  }

  /** True when two CIDR prefixes contain at least one common address. */
  method PrefixesOverlap(a: Word, aLen: nat, b: Word, bLen: nat) returns (overlap: bool)
    requires |a| == |b| && aLen <= |a| && bLen <= |b|
    ensures overlap <==> ShareAddress(a[..aLen], b[..bLen], |a|)
  {
    var common := CommonPrefixLen(a, aLen, b, bLen);
    overlap := common == (if aLen <= bLen then aLen else bLen);
    OverlapMeansSharedAddress(a[..aLen], b[..bLen], |a|);
    var p, q := a[..aLen], b[..bLen];
    if Comparable(p, q) {
      CommonLenUnique(p, q, if aLen <= bLen then aLen else bLen);
    }
    if overlap {
      assert if aLen <= bLen then p == q[..aLen] else q == p[..bLen];
    }
  }
}
