/** Arithmetic on w-bit integers, as residues modulo 2^w. */
module ModMath {
  function Pow2(n: nat): (r: nat)
    ensures r > 0
  {
    if n == 0 then 1 else 2 * Pow2(n - 1)
  }

  /** The w-bit integer that x stands for. */
  function Norm(x: int, w: nat): (r: nat)
    ensures 0 <= r < Pow2(w)
  {
    x % Pow2(w)
  }

  // ----- Residues -----

  lemma MulBounds(q: int, m: int)
    requires m > 0
    ensures q > 0 ==> q * m >= m
    ensures q < 0 ==> q * m <= -m
  {
  }

  lemma ResidueIs(x: int, q: int, r: int, m: int)
    requires m > 0 && 0 <= r < m && x == q * m + r
    ensures x % m == r
  {
    var q' := x / m;
    assert x == q' * m + x % m;
    assert (q - q') * m == x % m - r;
    MulBounds(q - q', m);
  }

  lemma SplitMod(x: int, m: int) returns (q: int)
    requires m > 0
    ensures x == q * m + x % m
  {
    q := x / m;
  }

  /** Adding a multiple of m does not change the residue. */
  lemma ModShift(x: int, q: int, m: int)
    requires m > 0
    ensures (x + q * m) % m == x % m
  {
    var k := SplitMod(x, m);
    assert x + q * m == (k + q) * m + x % m;
    ResidueIs(x + q * m, k + q, x % m, m);
  }

  lemma ModAddRight(x: int, y: int, m: int)
    requires m > 0
    ensures (x + y % m) % m == (x + y) % m
  {
    var k := SplitMod(y, m);
    ModShift(x + y % m, k, m);
  }

  lemma ModMulLeft(x: int, y: int, m: int)
    requires m > 0
    ensures ((x % m) * y) % m == (x * y) % m
  {
    var k := SplitMod(x, m);
    assert x * y == (x % m) * y + (k * y) * m by {
      assert (k * m) * y == (k * y) * m;
      assert (k * m + x % m) * y == (k * m) * y + (x % m) * y;
    }
    ModShift((x % m) * y, k * y, m);
  }

  lemma {:induction false} Pow2Adds(a: nat, b: nat)
    ensures Pow2(a + b) == Pow2(a) * Pow2(b)
  {
    if a > 0 {
      Pow2Adds(a - 1, b);
    }
  }

  /** A residue for more bits has the same residue for fewer. */
  lemma NormDown(x: int, p: nat, w: nat)
    requires w <= p
    ensures Norm(Norm(x, p), w) == Norm(x, w)
  {
    Pow2Adds(p - w, w);
    var q := SplitMod(x, Pow2(p));
    var c := Pow2(p - w);
    assert q * (c * Pow2(w)) == (q * c) * Pow2(w);
    ModShift(x % Pow2(p), q * c, Pow2(w));
  }

  /** Two numbers have the same residue exactly when m divides their difference. */
  lemma SameResidueIff(x: int, y: int, m: int)
    requires m > 0
    ensures x % m == y % m <==> (x - y) % m == 0
  {
    var a := SplitMod(x, m);
    var b := SplitMod(y, m);
    if x % m == y % m {
      assert x - y == (a - b) * m;
      ResidueIs(x - y, a - b, 0, m);
    }
    if (x - y) % m == 0 {
      var c := SplitMod(x - y, m);
      ModShift(y, c, m);
    }
  }
}
