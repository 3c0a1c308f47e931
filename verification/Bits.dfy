/** Bitwise operations on the w low bits of integers. */
module Bits {
  import opened ModMath

  function XorBits(x: int, y: int, w: nat): (r: nat)
    ensures r < Pow2(w)
    decreases w
  {
    if w == 0 then 0 else 2 * XorBits(x / 2, y / 2, w - 1) + (x % 2 + y % 2) % 2
  }

  function AndBits(x: int, y: int, w: nat): (r: nat)
    ensures r < Pow2(w)
    decreases w
  {
    if w == 0 then 0 else 2 * AndBits(x / 2, y / 2, w - 1) + (if x % 2 == 1 && y % 2 == 1 then 1 else 0)
  }

  /** The lowest bit, and the rest. */
  lemma NormStep(x: int, w: nat)
    requires w > 0
    ensures Norm(x, w) == 2 * Norm(x / 2, w - 1) + x % 2
  {
    var m := Pow2(w - 1);
    var q := SplitMod(x / 2, m);
    assert x == q * (2 * m) + (2 * ((x / 2) % m) + x % 2) by {
      assert q * (2 * m) == 2 * (q * m);
    }
    ResidueIs(x, q, 2 * ((x / 2) % m) + x % 2, 2 * m);
  }

  lemma BitSum(x: int, y: int)
    ensures (x % 2 + y % 2) % 2 + 2 * (if x % 2 == 1 && y % 2 == 1 then 1 else 0) == x % 2 + y % 2
  {
  }

  /** Sum and carries. */
  lemma {:induction false} XorAndAnd(x: int, y: int, w: nat)
    ensures XorBits(x, y, w) + 2 * AndBits(x, y, w) == Norm(x, w) + Norm(y, w)
    decreases w
  {
    if w > 0 {
      XorAndAnd(x / 2, y / 2, w - 1);
      NormStep(x, w);
      NormStep(y, w);
      BitSum(x, y);
    }
  }

  lemma FlipBit(y: int)
    ensures -1 / 2 == -1 && (y % 2 + -1 % 2) % 2 == 1 - y % 2
  {
  }

  lemma {:induction false} NotBitsStep(y: int, w: nat, x: nat, r: nat, m: nat)
    requires x == m - 1 - r && Norm(y, w) == 2 * r + y % 2 && Pow2(w) == 2 * m
    ensures 2 * x + (1 - y % 2) == Pow2(w) - 1 - Norm(y, w)
  {
  }

  /** Exclusive or with all ones is complement. */
  lemma {:induction false} NotBits(y: int, w: nat)
    ensures XorBits(y, -1, w) == Pow2(w) - 1 - Norm(y, w)
    decreases w
  {
    FlipBit(y);
    if w > 0 {
      NotBits(y / 2, w - 1);
      NormStep(y, w);
      NotBitsStep(y, w, XorBits(y / 2, -1, w - 1), Norm(y / 2, w - 1), Pow2(w - 1));
    }
  }

  lemma SumMod(u: int, v: int, x: int, y: int, m: int)
    requires m > 0 && u + v == x % m + y % m
    ensures (u + v % m) % m == (x + y) % m
  {
    ModAddRight(u, v, m);
    ModAddRight(x % m, y, m);
    ModAddRight(y, x, m);
  }

  /** a - b is a + ~b + 1 for every width. */
  lemma SubIdentity(a: int, b: int, w: nat)
    ensures Norm(Norm(a + XorBits(b, -1, w), w) + 1, w) == Norm(a - b, w)
  {
    var m := Pow2(w);
    NotBits(b, w);
    ModAddRight(1, a + XorBits(b, -1, w), m);
    var q := SplitMod(b, m);
    assert a + XorBits(b, -1, w) + 1 == a - b + (q + 1) * m;
    ModShift(a - b, q + 1, m);
  }

  lemma Pow2Of8()
    ensures Pow2(8) == 256
  {
    assert Pow2(4) == 16;
    Pow2Adds(4, 4);
  }

  lemma AffineWhole(s: int)
    requires 0 <= s < 256
    ensures (111 + 151 * (23 + 39 * s)) % 256 == s
  {
    assert 111 + 151 * (23 + 39 * s) == s + (23 * s + 14) * 256;
    ModShift(s, 23 * s + 14, 256);
  }

  /** 39 and 151 are inverse to each other modulo 256, and the constants cancel. */
  lemma AffineIdentity(s: int, t: int, u: int, v: int)
    requires 0 <= s < 256 && t == (39 * s) % 256 && u == (23 + t) % 256 && v == (151 * u) % 256
    ensures (111 + v) % 256 == s
  {
    ModAddRight(23, 39 * s, 256);
    ModMulLeft(23 + 39 * s, 151, 256);
    ModAddRight(111, 151 * (23 + 39 * s), 256);
    AffineWhole(s);
  }

  /** The sum of two numbers from exclusive or and carries. */
  lemma SumIdentity(a: int, b: int, w: nat)
    ensures Norm(XorBits(a, b, w) + Norm(2 * AndBits(a, b, w), w), w) == Norm(a + b, w)
  {
    XorAndAnd(a, b, w);
    SumMod(XorBits(a, b, w), 2 * AndBits(a, b, w), a, b, Pow2(w));
  }
}
