/** The multiplier is exact; the adder truncates, and by how much. */
module DauArith {
  import opened Words
  import opened Dau
  import opened DauNormal

  /** The real number at mantissa m, biased exponent e and `sc` fraction bits. */
  function Weighted(m: int, e: int, sc: int): real {
    Scaled(m, e - 128 - sc)
  }

  /** The number an accumulator stands for. */
  function Value(a: Acc): real {
    if a.e == 0 then 0.0 else Weighted(a.m, a.e, SC_ACC)
  }

  function WordValue(w: word): real {
    Value(Unpack(w))
  }

  /** What the adder accepts: zero, or a normal mantissa at any exponent. */
  predicate AdderInput(s: Acc) {
    s.e == 0 || NormalAt(s.m, SC_ACC)
  }

  predicate ProductSized(pm: int) {
    -0x1_0000_0000_0000 <= pm <= 0x1_0000_0000_0000
  }

  // ---------------------------------------------------------------------
  // Words

  lemma UnpackIsNormal(w: word)
    ensures NormalForm(Unpack(w))
    ensures Unpack(w).e == w % 0x100
  {
    Pow2Constants();
  }

  /** The number format of a word: sign, 23-bit fraction f and exponent e stand for
      (1 + f) * 2^(e-128), or (-2 + f) * 2^(e-128) with the sign set; e = 0 is zero. */
  lemma WordFormat(w: word)
    ensures var e, f := w % 0x100, w / 0x100 % 0x80_0000;
            WordValue(w) == if e == 0 then 0.0
                            else if w < 0x8000_0000 then Scaled(0x80_0000 + f, e - 128 - 23)
                            else Scaled(f - 0x100_0000, e - 128 - 23)
  {
    var e, f := w % 0x100, w / 0x100 % 0x80_0000;
    if e != 0 {
      WordValueIsMant24(w);
      assert Mant24Full(w) == if w < 0x8000_0000 then 0x80_0000 + f else f - 0x100_0000;
    }
    hide WordValue, Mant24Full, Scaled;
  }

  /** The word 0x80 is 1.0. */
  lemma OneIsOne(w: word)
    requires w == 0x80
    ensures WordValue(w) == 1.0 && Value(Unpack(w)) == 1.0
  {
    WordFormat(w);
    Pow2Constants();
    ScaledUnit(1);
    hide Pow2, Scaled;
    ScaledLeft(1, 23, 0);
  }

  /** Packing forgets exactly the guard bits. */
  lemma PackUnpack(a: Acc)
    requires NormalForm(a)
    ensures Pack(a) % 0x100 == a.e
    ensures Unpack(Pack(a)) == if a.e == 0 then ZERO_ACC else Acc(a.m / 0x100 * 0x100, a.e)
  {
    Pow2Constants();
    if a.e != 0 {
      var m24 := a.m / 0x100;
      var raw := WithoutImplicitBit(m24, 0x80_0000) % 0x100_0000;
      assert Pack(a) / 0x100 == raw;
    }
  }

  /** A word with a live exponent survives the accumulator. */
  lemma UnpackPack(w: word)
    ensures Pack(Unpack(w)) == if w % 0x100 == 0 then 0 else w
  {
    if w % 0x100 != 0 {
      assert Unpack(w).m / 0x100 == Mant24Full(w);
    }
  }

  // ---------------------------------------------------------------------
  // Multiplier

  lemma WordValueIsMant24(w: word)
    requires w % 0x100 != 0
    ensures WordValue(w) == Weighted(Mant24Full(w), w % 0x100, 23)
  {
    Pow2Constants();
    hide Scaled, Pow2;
    ScaledLeft(Mant24Full(w), 8, w % 0x100 - 128 - 23);
  }

  /** The product of two words is formed without any error. */
  lemma DauMulExact(xw: word, yw: word)
    ensures var (pm, pe) := DauMul(xw, yw);
            && Weighted(pm, pe, SC_MUL) == WordValue(xw) * WordValue(yw)
            && ProductSized(pm) && -126 <= pe <= 382
  {
    var (pm, pe) := DauMul(xw, yw);
    ScaledOne(pe - 128 - SC_MUL);
    hide Scaled;
    if xw % 0x100 == 0 || yw % 0x100 == 0 {
      assert WordValue(xw) == 0.0 || WordValue(yw) == 0.0;
    } else {
      var mx, my := Mant24Full(xw), Mant24Full(yw);
      var kx, ky := xw % 0x100 - 128 - 23, yw % 0x100 - 128 - 23;
      MantissaProductBound(mx, my);
      hide Mant24Full, WordValue;
      WordValueIsMant24(xw);
      WordValueIsMant24(yw);
      ScaledProduct(mx, my, kx, ky);
      assert kx + ky == pe - 128 - SC_MUL;
    }
  }

  lemma MantissaProductBound(mx: int, my: int)
    requires -0x100_0000 <= mx <= 0x100_0000 && -0x100_0000 <= my <= 0x100_0000
    ensures ProductSized(mx * my)
  {
    MulLe(0, Magnitude(mx), 0, Magnitude(my));
    MulLe(Magnitude(mx), 0x100_0000, Magnitude(my), 0x100_0000);
    assert Magnitude(mx) * Magnitude(my) == mx * my || Magnitude(mx) * Magnitude(my) == -(mx * my) by {
      MulDistribute(mx, my, -my);
      MulDistribute(my, mx, -mx);
    }
  }

  // ---------------------------------------------------------------------
  // Adder

  /** One 46-fraction-bit unit of the exponent the sum is taken at: the most
      that aligning can lose.  Nothing is lost when an operand is zero. */
  function AlignUnit(s: Acc, pm: int, pe: int): real {
    if AdderMantissa(s) == 0 || pm == 0 then 0.0
    else Exp2((if s.e >= pe then s.e else pe) - 128 - SC_MUL)
  }

  function AlignDistance(s: Acc, pm: int, pe: int): nat {
    if AdderMantissa(s) == 0 || pm == 0 then 0
    else if s.e >= pe then s.e - pe else pe - s.e
  }

  function ExactSum(s: Acc, pm: int, pe: int): real {
    Value(s) + Weighted(pm, pe, SC_MUL)
  }

  lemma AdderMantissaValue(s: Acc)
    requires AdderInput(s)
    ensures Weighted(AdderMantissa(s), s.e, SC_MUL) == Value(s)
    ensures -0x8000_0000_0000 <= AdderMantissa(s) <= 0x8000_0000_0000
    ensures s.e != 0 ==> AdderMantissa(s) != 0
  {
    Pow2Constants();
    ScaledOne(s.e - 128 - SC_MUL);
    hide Scaled, Pow2;
    ScaledLeft(s.m, 15, s.e - 128 - 31);
  }

  lemma ShiftedOutError(m: int, e: int, d: nat)
    requires -0x1_0000_0000_0000 <= m <= 0x1_0000_0000_0000
    ensures var err := Weighted(m, e, SC_MUL) - Weighted(ShiftedOut(m, d), e + d, SC_MUL);
            && -Exp2(e + d - 128 - SC_MUL) < err < Exp2(e + d - 128 - SC_MUL)
            && (d <= 62 ==> err >= 0.0)
  {
    var k := e - 128 - SC_MUL;
    ScaledOne(k + d);
    hide Scaled, Exp2, Pow2;
    if d <= 62 {
      ScaledRight(m, d, k);
      ScaledAdd(m / Pow2(d), 1, k + d);
    } else {
      Pow2Constants();
      Pow2Monotonic(62, d);
      ScaledLeft(1, d, k + d);
      ScaledLeft(-1, d, k + d);
      ScaledAdd(0, 1, k + d);
      ScaledOrder(m, Pow2(d), k);
      ScaledOrder(-1 * Pow2(d), m, k);
    }
  }

  /** Aligning and adding stays within one unit of the exact sum. */
  lemma AlignedSumError(s: Acc, pm: int, pe: int)
    requires AdderInput(s) && ProductSized(pm)
    requires AdderMantissa(s) != 0 || pm != 0
    ensures var (rm, re) := AlignedSum(AdderMantissa(s), s.e, pm, pe);
            var err := ExactSum(s, pm, pe) - Weighted(rm, re, SC_MUL);
            && -AlignUnit(s, pm, pe) <= err <= AlignUnit(s, pm, pe)
            && (AlignDistance(s, pm, pe) <= 62 ==> err >= 0.0)
  {
    var sm := AdderMantissa(s);
    AdderMantissaValue(s);
    ZeroWeighs(s.e);
    ZeroWeighs(pe);
    if sm != 0 && pm != 0 {
      if s.e >= pe { AlignedPair(sm, s.e, pm, pe); } else { AlignedPair(pm, pe, sm, s.e); }
    }
    hide Exp2, Pow2, Scaled, AdderMantissa, Value, ShiftedOut, NormalAt, AdderInput, ProductSized, Weighted;
  }

  lemma ZeroWeighs(e: int)
    ensures Weighted(0, e, SC_MUL) == 0.0
  {
    ScaledOne(e - 128 - SC_MUL);
    hide Scaled;
  }

  lemma AlignedPair(big: int, e: int, small: int, f: int)
    requires e >= f && ProductSized(small)
    ensures var err := Weighted(small, f, SC_MUL) + Weighted(big, e, SC_MUL)
                       - Weighted(big + ShiftedOut(small, e - f), e, SC_MUL);
            && -Exp2(e - 128 - SC_MUL) < err < Exp2(e - 128 - SC_MUL)
            && (e - f <= 62 ==> err >= 0.0)
  {
    hide Exp2, Pow2, Scaled, ShiftedOut;
    ShiftedOutError(small, f, e - f);
    ScaledAdd(big, ShiftedOut(small, e - f), e - 128 - SC_MUL);
    assert f + (e - f) == e;
  }

  /** A mantissa normal at 46 fraction bits is normal at 31 once truncated, so
      the adder's second normalisation never changes anything. */
  lemma TruncatedStaysNormal(m: int)
    requires NormalAt(m, SC_MUL)
    ensures NormalAt(m / 0x8000, SC_ACC)
  {
    Pow2Constants();
  }

  lemma SecondNormIsIdle(s: Acc, pm: int, pe: int)
    requires AdderMantissa(s) != 0 || pm != 0
    ensures var (rm, re) := AlignedSum(AdderMantissa(s), s.e, pm, pe);
            var (nm, ne) := Norm(rm, re, SC_MUL);
            if rm == 0 then DauAdd(s, pm, pe) == ZERO_ACC
            else nm != 0 && DauAdd(s, pm, pe) == Acc(nm / 0x8000, ne) && NormalAt(nm / 0x8000, SC_ACC)
  {
    var (rm, re) := AlignedSum(AdderMantissa(s), s.e, pm, pe);
    var (nm, ne) := Norm(rm, re, SC_MUL);
    if rm != 0 {
      NormIsNormalShift(rm, re, SC_MUL);
      TruncatedStaysNormal(nm);
      NormOfNormal(nm / 0x8000, ne, SC_ACC);
    }
  }

  /** Normalising and cutting to 31 fraction bits truncates once. */
  lemma TruncatedNormError(rm: int, re: int)
    requires rm != 0
    ensures var (nm, ne) := Norm(rm, re, SC_MUL);
            var err := Weighted(rm, re, SC_MUL) - Weighted(nm / 0x8000, ne, SC_ACC);
            0.0 <= err < Exp2(ne - 128 - SC_ACC)
  {
    var (nm, ne) := Norm(rm, re, SC_MUL);
    NormIsNormalShift(rm, re, SC_MUL);
    Pow2Constants();
    var k := re - 128 - SC_MUL;
    var unit := ne - 128 - SC_ACC;
    ScaledOne(unit);
    hide Exp2, Pow2, Norm, Scaled;
    ScaledAdd(nm / 0x8000, 1, unit);
    if ne <= re {
      ScaledLeft(rm, re - ne, k);
      ScaledRight(nm, 15, k - (re - ne));
      assert k - (re - ne) + 15 == unit;
    } else {
      ShiftShift(rm, ne - re, 15);
      ScaledRight(rm, ne - re + 15, k);
      assert k + (ne - re + 15) == unit;
    }
  }

  lemma NoSumToTake(s: Acc, pm: int, pe: int)
    requires AdderInput(s) && AdderMantissa(s) == 0 && pm == 0
    ensures ExactSum(s, pm, pe) == 0.0 && AlignUnit(s, pm, pe) == 0.0
  {
    AdderMantissaValue(s);
  }

  /** The adder's error: below one 46-bit unit of the larger exponent plus one
      31-bit unit of the result; and the sum is never overestimated unless an
      operand was shifted out of existence. */
  lemma DauAddError(s: Acc, pm: int, pe: int)
    requires AdderInput(s) && ProductSized(pm)
    ensures var r := DauAdd(s, pm, pe);
            var err := ExactSum(s, pm, pe) - Weighted(r.m, r.e, SC_ACC);
            && -AlignUnit(s, pm, pe) <= err
            && err < AlignUnit(s, pm, pe) + Exp2(r.e - 128 - SC_ACC)
            && (AlignDistance(s, pm, pe) <= 62 ==> err >= 0.0)
  {
    ScaledOne(0 - 128 - SC_ACC);
    hide Exp2, Pow2, Scaled, Norm, AlignedSum, AlignUnit, ExactSum, NormalAt;
    if AdderMantissa(s) == 0 && pm == 0 {
      NoSumToTake(s, pm, pe);
    } else {
      var (rm, re) := AlignedSum(AdderMantissa(s), s.e, pm, pe);
      ScaledOne(re - 128 - SC_MUL);
      AlignedSumError(s, pm, pe);
      SecondNormIsIdle(s, pm, pe);
      if rm != 0 {
        TruncatedNormError(rm, re);
      }
    }
  }

  // ---------------------------------------------------------------------
  // Ranges: no intermediate leaves a signed 64-bit integer

  lemma ShiftedOutShrinks(m: int, d: nat)
    ensures Magnitude(ShiftedOut(m, d)) <= Magnitude(m)
  {
    if d <= 62 {
      DivShrinks(m, Pow2(d));
    }
  }

  /** Every mantissa the adder forms fits 64 bits with room to spare, and the
      exponent fits the 16 bits it is stored in. */
  lemma DauAddRange(s: Acc, pm: int, pe: int)
    requires AdderInput(s) && 0 <= s.e <= 256 && ProductSized(pm) && -128 <= pe <= 384
    ensures var (rm, re) := AlignedSum(AdderMantissa(s), s.e, pm, pe);
            && Magnitude(rm) <= 0x2_0000_0000_0000
            && -128 <= re <= 384
            && -200 <= DauAdd(s, pm, pe).e <= 400
  {
    var sm := AdderMantissa(s);
    AdderMantissaValue(s);
    ShiftedOutShrinks(pm, Magnitude(s.e - pe));
    ShiftedOutShrinks(sm, Magnitude(s.e - pe));
    var (rm, re) := AlignedSum(sm, s.e, pm, pe);
    if sm != 0 || pm != 0 {
      SecondNormIsIdle(s, pm, pe);
      if rm != 0 {
        NormExponentRange(rm, re);
      }
    }
  }

  lemma NormExponentRange(rm: int, re: int)
    requires rm != 0 && Magnitude(rm) <= 0x2_0000_0000_0000
    ensures re - 48 <= Norm(rm, re, SC_MUL).1 <= re + 4
  {
    var (nm, ne) := Norm(rm, re, SC_MUL);
    NormIsNormalShift(rm, re, SC_MUL);
    Pow2Constants();
    if ne < re - 48 {
      var p := Pow2(re - ne);
      Pow2Monotonic(49, re - ne);
      Pow2Add(46, 3);
      assert Pow2(3) == 8;
      MulLe(1, Magnitude(rm), p, p);
    } else if ne > re + 4 {
      Pow2Monotonic(4, ne - re);
      assert Pow2(4) == 16;
      LargeDivisor(rm, Pow2(ne - re));
    }
  }

  lemma LargeDivisor(x: int, p: nat)
    requires p >= 16 && Magnitude(x) <= 0x2_0000_0000_0000
    ensures -0x2000_0000_0000 <= x / p <= 0x2000_0000_0000
  {
    var q := x / p;
    assert x == p * q + x % p;
    if q > 0x2000_0000_0000 {
      MulLe(16, p, 0x2000_0000_0001, q);
    } else if q < -0x2000_0000_0000 {
      MulLe(16, p, 0x2000_0000_0000, -q - 1);
      MulDistribute(p, q, -q - 1);
      MulDistribute(p, q, 1);
    }
  }
}
