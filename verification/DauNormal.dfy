/** Normalisation has one answer: the shift of its input that is normal. */
module DauNormal {
  import opened Words
  import opened Dau

  /** (n, f) is (m, e) shifted: left exactly, right with truncation. */
  predicate ShiftOf(m: int, e: int, n: int, f: int) {
    && (f >= e ==> n == m / Pow2(f - e))
    && (f <= e ==> n == m * Pow2(e - f))
  }

  lemma {:induction false} NormDownProps(m: int, e: int, sc: nat)
    requires m != 0
    ensures var (n, f) := NormDown(m, e, sc);
            f >= e && n == m / Pow2(f - e) && n != 0
            && -2 * Pow2(sc) <= n < 2 * Pow2(sc) && (f > e ==> NormalAt(n, sc))
    decreases Magnitude(m)
  {
    if m >= 2 * Pow2(sc) || m < -2 * Pow2(sc) {
      var (n, f) := NormDown(m / 2, e + 1, sc);
      NormDownProps(m / 2, e + 1, sc);
      ShiftShift(m, 1, f - e - 1);
      assert Pow2(1) == 2;
    }
  }

  lemma {:induction false} NormUpProps(m: int, e: int, sc: nat)
    requires m != 0 && -2 * Pow2(sc) <= m < 2 * Pow2(sc)
    ensures var (n, f) := NormUp(m, e, sc);
            f <= e && n == m * Pow2(e - f) && NormalAt(n, sc)
    decreases Pow2(sc) + 1 - Magnitude(m)
  {
    if 0 < m < Pow2(sc) || -1 * Pow2(sc) <= m < 0 {
      var (n, f) := NormUp(2 * m, e - 1, sc);
      NormUpProps(2 * m, e - 1, sc);
      MulAssoc(m, 2, Pow2(e - 1 - f));
    }
  }

  /** The normaliser delivers a normal shift of its input. */
  lemma NormIsNormalShift(m: int, e: int, sc: nat)
    requires m != 0
    ensures var (n, f) := Norm(m, e, sc); NormalAt(n, sc) && ShiftOf(m, e, n, f)
  {
    var (m1, e1) := NormDown(m, e, sc);
    NormDownProps(m, e, sc);
    NormUpProps(m1, e1, sc);
    if e1 > e {
      assert NormUp(m1, e1, sc) == (m1, e1);
    }
  }

  /** A normal mantissa is a fixed point. */
  lemma NormOfNormal(m: int, e: int, sc: nat)
    requires NormalAt(m, sc)
    ensures m != 0 && Norm(m, e, sc) == (m, e)
  {
  }

  /** Two normal shifts of one number coincide. */
  lemma NormalShiftUnique(m: int, e: int, n1: int, f1: int, n2: int, f2: int, sc: nat)
    requires NormalAt(n1, sc) && ShiftOf(m, e, n1, f1)
    requires NormalAt(n2, sc) && ShiftOf(m, e, n2, f2)
    ensures n1 == n2 && f1 == f2
  {
    if f1 < f2 {
      HigherShiftTooSmall(m, e, n1, f1, n2, f2, sc);
    } else if f2 < f1 {
      HigherShiftTooSmall(m, e, n2, f2, n1, f1, sc);
    }
  }

  lemma HigherShiftTooSmall(m: int, e: int, n1: int, f1: int, n2: int, f2: int, sc: nat)
    requires f1 < f2 && NormalAt(n1, sc)
    requires ShiftOf(m, e, n1, f1) && ShiftOf(m, e, n2, f2)
    ensures !NormalAt(n2, sc)
  {
    assert n2 == n1 / Pow2(f2 - f1) by { ShiftOfShift(m, e, n1, f1, n2, f2); }
    HalvedIsBelowNormal(n1, f2 - f1, sc);
  }

  /** A shift of m to f2 is the truncating shift of any lower shift. */
  lemma ShiftOfShift(m: int, e: int, n1: int, f1: int, n2: int, f2: int)
    requires f1 <= f2 && ShiftOf(m, e, n1, f1) && ShiftOf(m, e, n2, f2)
    ensures n2 == n1 / Pow2(f2 - f1)
  {
    var d := f2 - f1;
    if f1 >= e {
      ShiftShift(m, f1 - e, d);
    } else if f2 <= e {
      Pow2Add(e - f2, d);
      assert n1 == n2 * Pow2(d) by {
        assert n1 == m * (Pow2(e - f2) * Pow2(d));
        MulAssoc(m, Pow2(e - f2), Pow2(d));
      }
      DivUnique(n1, Pow2(d), n2, 0);
    } else {
      Pow2Add(e - f1, f2 - e);
      ShiftShift(n1, e - f1, f2 - e);
      DivUnique(n1, Pow2(e - f1), m, 0);
    }
  }

  lemma {:induction false} HalvedIsBelowNormal(n: int, d: nat, sc: nat)
    requires d >= 1 && NormalAt(n, sc)
    ensures !NormalAt(n / Pow2(d), sc)
  {
    assert -1 * Pow2(sc) <= n / 2 < Pow2(sc);
    ShiftShift(n, 1, d - 1);
    assert Pow2(1) == 2;
    DivShrinks(n / 2, Pow2(d - 1));
  }

  lemma DivShrinks(x: int, p: nat)
    requires p >= 1
    ensures x >= 0 ==> 0 <= x / p <= x
    ensures x < 0 ==> x <= x / p < 0
  {
    var q := x / p;
    assert x == p * q + x % p;
    if x >= 0 {
      if q < 0 { MulLe(1, p, 1, -q); MulDistribute(p, q, -q); }
      if q > 0 { MulLe(1, p, q, q); }
    } else {
      if q >= 0 { MulLe(1, p, q, q); }
      if q < 0 { MulLe(1, p, -q, -q); MulDistribute(p, q, -q); }
      if q < 0 && x > q {
        assert p * (q + 1) == p * q + p by { MulDistribute(p, q, 1); }
        if q + 1 < 0 { MulLe(1, p, -(q + 1), -(q + 1)); MulDistribute(p, q + 1, -(q + 1)); }
      }
    }
  }

  /** Normalising a shift of m is normalising m, as long as nothing was lost. */
  lemma NormUniqueAnswer(m: int, e: int, n: int, f: int, sc: nat)
    requires m != 0 && NormalAt(n, sc) && ShiftOf(m, e, n, f)
    ensures Norm(m, e, sc) == (n, f)
  {
    var (n1, f1) := Norm(m, e, sc);
    NormIsNormalShift(m, e, sc);
    NormalShiftUnique(m, e, n, f, n1, f1, sc);
  }
}
