/** The closed form of an induction variable, and when it is right. */
module IvMath {
  import opened ModMath

  /** x, a p-bit integer, as a w-bit integer of the same signed value. */
  function SignExtend(x: nat, p: nat, w: nat): int
    requires 0 < p
  {
    if x < Pow2(p - 1) then x else x + Pow2(w) - Pow2(p)
  }

  /** What the pass makes of the p-bit primary before it multiplies. */
  function CastTo(x: nat, p: nat, w: nat): int
    requires 0 < p
  {
    if p < w then SignExtend(x, p, w) else if p > w then Norm(x, w) else x
  }

  /** The w-bit variable after k iterations. */
  function Recurrence(start: int, step: int, w: nat, k: nat): nat { Norm(start + k * step, w) }

  /** The replacement after k iterations, computed from a p-bit primary. */
  function ClosedForm(start: int, step: int, p: nat, w: nat, k: nat): nat
    requires 0 < p
  {
    Norm(start + Norm(CastTo(Norm(k, p), p, w) * step, w), w)
  }

  // ----- A primary at least as wide -----

  lemma ClosedFormIs(start: int, step: int, p: nat, w: nat, k: nat)
    requires 0 < p
    ensures ClosedForm(start, step, p, w, k) == Norm(start + CastTo(Norm(k, p), p, w) * step, w)
  {
    ModAddRight(start, CastTo(Norm(k, p), p, w) * step, Pow2(w));
  }

  /** Only the residue of the factor matters. */
  lemma FactorResidue(start: int, step: int, w: nat, x: int, y: int)
    requires Norm(x, w) == Norm(y, w)
    ensures Norm(start + x * step, w) == Norm(start + y * step, w)
  {
    ModMulLeft(x, step, Pow2(w));
    ModMulLeft(y, step, Pow2(w));
    ModAddRight(start, x * step, Pow2(w));
    ModAddRight(start, y * step, Pow2(w));
  }

  lemma CastWide(p: nat, w: nat, k: nat)
    requires 0 < w <= p
    ensures Norm(CastTo(Norm(k, p), p, w), w) == Norm(k, w)
  {
    NormDown(k, p, w);
    NormDown(Norm(k, p), w, w);
  }

  /** With a primary at least as wide as the variable the closed form is always right. */
  lemma WideIsExact(start: int, step: int, p: nat, w: nat, k: nat)
    requires 0 < w <= p
    ensures ClosedForm(start, step, p, w, k) == Recurrence(start, step, w, k)
  {
    ClosedFormIs(start, step, p, w, k);
    CastWide(p, w, k);
    FactorResidue(start, step, w, CastTo(Norm(k, p), p, w), k);
  }

  // ----- A narrower primary -----

  /** How often the p-bit primary has passed the largest positive value after k iterations. */
  function Wraps(p: nat, k: nat): nat
    requires 0 < p
  {
    (k + Pow2(p - 1)) / Pow2(p)
  }

  lemma HalfIs(p: nat)
    requires 0 < p
    ensures Pow2(p) == Pow2(p - 1) + Pow2(p - 1)
  {
  }

  /** k = q * m + x, seen from half a range further. */
  lemma HalfUp(k: int, q: int, x: int, m: int, h: int)
    requires m == h + h && 0 < h && 0 <= x < m && k == q * m + x
    ensures (k + h) / m == if x < h then q else q + 1
  {
    if x < h {
      QuotientIs(k + h, q, x + h, m);
    } else {
      assert (q + 1) * m == q * m + m;
      QuotientIs(k + h, q + 1, x - h, m);
    }
  }

  lemma SignExtendIs(p: nat, w: nat, k: nat)
    requires 0 < p < w
    ensures Norm(SignExtend(Norm(k, p), p, w), w) == Norm(k - Wraps(p, k) * Pow2(p), w)
  {
    var q := SplitMod(k, Pow2(p));
    HalfIs(p);
    HalfUp(k, q, Norm(k, p), Pow2(p), Pow2(p - 1));
    ExtendedResidue(k, q, Norm(k, p), Pow2(p), Wraps(p, k), Pow2(w));
  }

  lemma ExtendedResidue(k: int, q: int, x: int, m: int, c: int, n: int)
    requires k == q * m + x && (c == q || c == q + 1) && n > 0
    ensures (if c == q then x else x + n - m) % n == (k - c * m) % n
  {
    if c != q {
      assert (q + 1) * m == q * m + m;
      ModShift(x - m, 1, n);
    }
  }

  lemma QuotientIs(x: int, q: int, r: int, m: int)
    requires m > 0 && 0 <= r < m && x == q * m + r
    ensures x / m == q
  {
    ResidueIs(x, q, r, m);
    var k := SplitMod(x, m);
    assert (k - q) * m == 0;
    MulBounds(k - q, m);
  }

  lemma ShiftedIff(start: int, k: int, c: int, n: int, step: int, m: int)
    requires m > 0
    ensures (start + (k - c * n) * step) % m == (start + k * step) % m <==> (c * (n * step)) % m == 0
  {
    assert (k - c * n) * step == k * step - c * (n * step) by {
      assert (c * n) * step == c * (n * step);
      assert (k - c * n) * step == k * step - (c * n) * step;
    }
    SameResidueIff(start + k * step, start + k * step - c * (n * step), m);
  }

  /** After k iterations a narrower primary gives the right value exactly when the wraps make no
      difference. */
  lemma NarrowIff(start: int, step: int, p: nat, w: nat, k: nat)
    requires 0 < p < w
    ensures ClosedForm(start, step, p, w, k) == Recurrence(start, step, w, k) <==>
      (Wraps(p, k) * (Pow2(p) * step)) % Pow2(w) == 0
  {
    ClosedFormIs(start, step, p, w, k);
    SignExtendIs(p, w, k);
    FactorResidue(start, step, w, SignExtend(Norm(k, p), p, w), k - Wraps(p, k) * Pow2(p));
    ShiftedIff(start, k, Wraps(p, k), Pow2(p), step, Pow2(w));
  }

  lemma WrapsEarly(p: nat, k: nat)
    requires 0 < p
    ensures k < Pow2(p - 1) ==> Wraps(p, k) == 0
    ensures k == Pow2(p - 1) ==> Wraps(p, k) == 1
  {
    var m := Pow2(p);
    if k < Pow2(p - 1) {
      QuotientIs(k + Pow2(p - 1), 0, k + Pow2(p - 1), m);
    } else if k == Pow2(p - 1) {
      QuotientIs(m, 1, 0, m);
    }
  }

  /** A narrower primary is right for every iteration up to half its range. */
  lemma NarrowIsExactEarly(start: int, step: int, p: nat, w: nat, k: nat)
    requires 0 < p < w && k < Pow2(p - 1)
    ensures ClosedForm(start, step, p, w, k) == Recurrence(start, step, w, k)
  {
    WrapsEarly(p, k);
    NarrowIff(start, step, p, w, k);
    NoWraps(Pow2(p) * step, Pow2(w));
  }

  lemma NoWraps(d: int, m: int)
    requires m > 0
    ensures (0 * d) % m == 0
  {
  }

  /** At half its range it is right exactly when 2^p * step vanishes modulo 2^w. */
  lemma NarrowAtHalf(start: int, step: int, p: nat, w: nat)
    requires 0 < p < w
    ensures ClosedForm(start, step, p, w, Pow2(p - 1)) == Recurrence(start, step, w, Pow2(p - 1)) <==>
      (Pow2(p) * step) % Pow2(w) == 0
  {
    NarrowIff(start, step, p, w, Pow2(p - 1));
    WrapsEarly(p, Pow2(p - 1));
  }

  /** The condition a caller can check: the trip count stays within half the primary's range, or the
      step makes the wraps vanish, or the primary is wide enough. */
  predicate Fits(step: int, p: nat, w: nat, trips: nat)
    requires 0 < p
  {
    w <= p || trips <= Pow2(p - 1) || (Pow2(p) * step) % Pow2(w) == 0
  }

  lemma MultipleVanishes(c: int, d: int, m: int)
    requires m > 0 && d % m == 0
    ensures (c * d) % m == 0
  {
    var q := SplitMod(d, m);
    assert c * (q * m) == (c * q) * m;
    ResidueIs(c * d, c * q, 0, m);
  }

  /** The closed form is right for all of the first `trips` iterations exactly when it fits. */
  lemma ExactIff(start: int, step: int, p: nat, w: nat, trips: nat)
    requires 0 < p && 0 < w
    ensures (forall k: nat :: k < trips ==> ClosedForm(start, step, p, w, k) == Recurrence(start, step, w, k)) <==>
      Fits(step, p, w, trips)
  {
    if Fits(step, p, w, trips) {
      forall k: nat | k < trips
        ensures ClosedForm(start, step, p, w, k) == Recurrence(start, step, w, k)
      {
        FitsIsExact(start, step, p, w, trips, k);
      }
    } else {
      NarrowAtHalf(start, step, p, w);
      assert Pow2(p - 1) < trips;
    }
  }

  lemma FitsIsExact(start: int, step: int, p: nat, w: nat, trips: nat, k: nat)
    requires 0 < p && 0 < w && Fits(step, p, w, trips) && k < trips
    ensures ClosedForm(start, step, p, w, k) == Recurrence(start, step, w, k)
  {
    if w <= p {
      WideIsExact(start, step, p, w, k);
    } else if trips <= Pow2(p - 1) {
      NarrowIsExactEarly(start, step, p, w, k);
    } else {
      NarrowIff(start, step, p, w, k);
      MultipleVanishes(Wraps(p, k), Pow2(p) * step, Pow2(w));
    }
  }
}
