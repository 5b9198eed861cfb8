/** Conversions: float to integer, integer to float, IEEE single and seed. */
module DauConvert {
  import opened Words
  import opened Dau
  import opened DauNormal
  import opened DauArith

  // ---------------------------------------------------------------------
  // Float to integer

  /** What each dauc[5:4] mode asks for, on the real line. */
  function Rounded(x: real, mode: nat): int {
    if mode % 2 == 0 then (x + 0.5).Floor
    else if mode == 1 then x.Floor
    else if x >= 0.0 then x.Floor
    else -((-x).Floor)
  }

  lemma FloorOf(x: real, q: int)
    requires q as real <= x < q as real + 1.0
    ensures x.Floor == q
  {
  }

  lemma RoundedOfInt(q: int, mode: nat)
    ensures Rounded(q as real, mode) == q
  {
    FloorOf(q as real + 0.5, q);
    FloorOf(q as real, q);
    FloorOf(-(q as real), -q);
  }

  /** The shifter implements the mode, for every mantissa and distance. */
  lemma RoundedShiftExact(m: int, sh: int, mode: nat)
    requires sh >= 1 && mode < 4 && m != 0 && -0x1_0000_0000 <= m <= 0x1_0000_0000
    ensures RoundedShift(m, sh, mode) == Rounded(Scaled(m, -sh), mode)
  {
    var x := Scaled(m, -sh);
    ScaledOne(-sh);
    hide Scaled, Exp2, Pow2;
    ScaledOrder(0, m, -sh);
    ScaledOrder(m, 0, -sh);
    if sh > 63 {
      TinyMagnitude(m, sh);
      FloorOf(x + 0.5, 0);
      if m < 0 { FloorOf(x, -1); FloorOf(-x, 0); } else { FloorOf(x, 0); }
    } else if mode % 2 == 0 {
      NearestShift(m, sh);
    } else {
      FloorShift(m, sh);
      if mode == 3 && m < 0 { TruncateNegativeShift(m, sh); }
    }
  }

  lemma SmallPowers()
    ensures Exp2(0) == 1.0 && Exp2(-1) == 0.5 && Exp2(-2) == 0.25
  {
  }

  lemma TinyMagnitude(m: int, sh: int)
    requires sh > 63 && -0x1_0000_0000 <= m <= 0x1_0000_0000
    ensures -0.5 < Scaled(m, -sh) < 0.5
  {
    SmallPowers();
    Pow2Constants();
    ScaledOne(-sh + 32);
    hide Exp2, Pow2, Scaled;
    Exp2Monotonic(-sh + 32, -2);
    ScaledLeft(1, 32, -sh + 32);
    ScaledAdd(0, 0x1_0000_0000, -sh);
    ScaledOrder(m, 0x1_0000_0000, -sh);
    ScaledOrder(-0x1_0000_0000, m, -sh);
  }

  lemma FloorShift(m: int, sh: int)
    requires sh >= 0
    ensures Scaled(m, -sh).Floor == m / Pow2(sh)
  {
    var q := m / Pow2(sh);
    ScaledUnit(q);
    ScaledUnit(q + 1);
    hide Scaled, Pow2;
    ScaledRight(m, sh, -sh);
    FloorOf(Scaled(m, -sh), q);
  }

  lemma NearestShift(m: int, sh: int)
    requires sh >= 1
    ensures (Scaled(m, -sh) + 0.5).Floor
         == m / Pow2(sh) + (if m / Pow2(sh - 1) % 2 == 1 then 1 else 0)
  {
    var h := m / Pow2(sh - 1);
    ShiftShift(m, sh - 1, 1);
    assert Pow2(1) == 2;
    assert m / Pow2(sh) == h / 2;
    HalfScale(h);
    HalfScale(h + 1);
    hide Scaled, Pow2;
    ScaledRight(m, sh - 1, -sh);
    assert -sh + (sh - 1) == -1;
    FloorOf(Scaled(m, -sh) + 0.5, (h + 1) / 2);
  }

  lemma HalfScale(h: int)
    ensures Scaled(h, -1) == h as real / 2.0
  {
  }

  lemma TruncateNegativeShift(m: int, sh: int)
    requires m < 0 && sh >= 0
    ensures -((-Scaled(m, -sh)).Floor)
         == m / Pow2(sh) + (if m % Pow2(sh) != 0 then 1 else 0)
  {
    var p := Pow2(sh);
    var q, r := m / p, m % p;
    assert m == q * p + r;
    ScaledUnit(q);
    ScaledUnit(q + 1);
    hide Scaled, Pow2;
    ScaledLeft(q, sh, 0);
    ScaledOrder(q * p, m, -sh);
    ScaledRight(m, sh, -sh);
    FloorOf(-Scaled(m, -sh), if r == 0 then -q else -q - 1);
  }

  /** Every conversion of every accumulator is the clamped rounding of its
      exact value. */
  lemma AccToIntExact(a: Acc, dauc: nat, bits: nat)
    requires AdderInput(a)
    ensures AccToInt(a, dauc, bits) == Clamp(Rounded(Value(a), RoundingMode(dauc)), bits)
  {
    assert RoundingMode(dauc) < 4;
    if a.e == 0 {
      RoundedOfInt(0, RoundingMode(dauc));
    } else if a.e >= 159 {
      AccToIntLeft(a, dauc, bits);
    } else {
      NormalRange(a.m);
      RoundedShiftExact(a.m, 159 - a.e, RoundingMode(dauc));
      assert -(159 - a.e) == a.e - 128 - SC_ACC;
    }
    hide Pow2, Scaled, Rounded, RoundedShift, RoundingMode, NormalAt, Clamp;
  }

  lemma AccToIntLeft(a: Acc, dauc: nat, bits: nat)
    requires AdderInput(a) && a.e >= 159
    ensures AccToInt(a, dauc, bits) == Clamp(Rounded(Value(a), RoundingMode(dauc)), bits)
  {
    IntegralMantissa(a.m, a.e - 159, RoundingMode(dauc));
    assert a.e - 128 - SC_ACC == a.e - 159;
    hide Pow2, Scaled, Rounded, RoundedShift, RoundingMode, NormalAt;
  }

  /** A mantissa shifted left is an integer already, and beyond 24 places it is
      out of every target's range. */
  lemma IntegralMantissa(m: int, shift: nat, mode: nat)
    requires NormalAt(m, SC_ACC)
    ensures Rounded(Scaled(m, shift), mode) == m * Pow2(shift)
    ensures shift > 24 && m < 0 ==> m * Pow2(shift) < -0x8000_0000
    ensures shift > 24 && m > 0 ==> m * Pow2(shift) > 0x7FFF_FFFF
    ensures m != 0
  {
    if shift > 24 { Overflowing(m, shift); }
    ScaledUnit(m * Pow2(shift));
    assert m != 0;
    hide Scaled, Pow2, Rounded;
    ScaledLeft(m, shift, shift);
    RoundedOfInt(m * Pow2(shift), mode);
  }

  lemma Overflowing(m: int, shift: nat)
    requires NormalAt(m, SC_ACC) && shift > 24
    ensures m < 0 ==> m * Pow2(shift) < -0x8000_0000
    ensures m > 0 ==> m * Pow2(shift) > 0x7FFF_FFFF
  {
    NormalRange(m);
    assert Pow2(1) == 2;
    Pow2Monotonic(1, shift);
    hide Pow2, NormalAt;
    MulLe(0x8000_0000, Magnitude(m), 2, Pow2(shift));
    MulDistribute(Pow2(shift), m, -m);
  }

  /** Limits of an 8-, 16- or 32-bit result: bytes are unsigned. */
  function Limited(n: int, bits: nat): int {
    if bits == 8 then (if n < 0 then 0 else if n > 255 then 255 else n)
    else if bits == 16 then (if n < -32768 then -32768 else if n > 32767 then 32767 else n)
    else if n < -2147483648 then -2147483648 else if n > 2147483647 then 2147483647 else n
  }

  /** Mode m of dauc[5:4] on the real line: nearest with ties upward (0 and 2),
      towards minus infinity (1), towards zero (3). */
  function RoundedBy(x: real, m: nat): int {
    if m == 1 then x.Floor
    else if m == 3 then (if x >= 0.0 then x.Floor else -((-x).Floor))
    else (x + 0.5).Floor
  }

  /** The same with the mode and the limits spelled out: bits 5 and 4 of dauc
      choose the rounding, whatever the others are. */
  lemma AccToIntMeans(a: Acc, bits: nat, h: nat, m: nat, l: nat)
    requires AdderInput(a) && (bits == 8 || bits == 16 || bits == 32)
    requires m < 4 && l < 16
    ensures AccToInt(a, 64 * h + 16 * m + l, bits) == Limited(RoundedBy(Value(a), m), bits)
  {
    ModeField(h, m, l);
    AccToIntExact(a, 64 * h + 16 * m + l, bits);
    hide AccToInt, Value, AdderInput;
  }

  lemma ModeField(h: nat, m: nat, l: nat)
    requires m < 4 && l < 16
    ensures RoundingMode(64 * h + 16 * m + l) == m
  {
    DivUnique(64 * h + 16 * m + l, 16, 4 * h + m, l);
    DivUnique(4 * h + m, 4, h, m);
  }

  // ---------------------------------------------------------------------
  // Integer to float

  /** Any 32-bit integer becomes an accumulator with exactly its value. */
  lemma AccFromIntExact(v: int)
    requires -0x1_0000_0000 <= v < 0x1_0000_0000
    ensures Value(AccFromInt(v)) == v as real && NormalForm(AccFromInt(v))
  {
    if v != 0 {
      var (m, e) := Norm(v, 159, SC_ACC);
      IntNormShift(v);
      ScaledUnit(v);
      Pow2Constants();
      hide Scaled, Pow2, Norm;
      ScaledLeft(v, 159 - e, 0);
      assert 0 - (159 - e) == e - 128 - SC_ACC;
    }
  }

  lemma IntNormShift(v: int)
    requires v != 0 && -0x1_0000_0000 <= v < 0x1_0000_0000
    ensures var (m, e) := Norm(v, 159, SC_ACC);
            127 <= e <= 159 && m == v * Pow2(159 - e) && NormalAt(m, SC_ACC)
  {
    var (m, e) := Norm(v, 159, SC_ACC);
    Pow2Constants();
    NormIsNormalShift(v, 159, SC_ACC);
    assert NormDown(v, 159, SC_ACC) == (v, 159);
    NormUpProps(v, 159, SC_ACC);
    hide Norm, NormUp, NormDown, Pow2;
    NormalRange(m);
    if 159 - e > 32 { FarShift(v, 159 - e); }
  }

  lemma FarShift(v: int, k: nat)
    requires v != 0 && k > 32
    ensures v * Pow2(k) >= 0x2_0000_0000 || v * Pow2(k) <= -0x2_0000_0000
  {
    Pow2Constants();
    assert Pow2(33) == 2 * Pow2(32);
    Pow2Monotonic(33, k);
    hide Pow2;
    FarProduct(v, Pow2(k));
  }

  lemma FarProduct(v: int, p: int)
    requires v != 0 && p >= 0x2_0000_0000
    ensures v * p >= 0x2_0000_0000 || v * p <= -0x2_0000_0000
  {
    if v > 0 {
      MulLe(1, v, 0x2_0000_0000, p);
    } else {
      MulLe(1, -v, 0x2_0000_0000, p);
      assert v * p == -(-v * p);
    }
  }

  /** int32(float32(v)) is v in every rounding mode. */
  lemma IntOfFloatOfInt(v: int, dauc: nat)
    requires -0x8000_0000 <= v < 0x8000_0000
    ensures AccToInt(AccFromInt(v), dauc, 32) == v
  {
    AccFromIntExact(v);
    AccToIntExact(AccFromInt(v), dauc, 32);
    RoundedOfInt(v, RoundingMode(dauc));
  }

  /** The integer lane hands back what was deposited. */
  lemma IntLaneReadsBack(v: int, adder: Acc)
    requires -0x8000_0000 <= v < 0x8000_0000 && NormalForm(adder)
    ensures NormalForm(IntLane(v, adder))
    ensures Signed32(RawOf(IntLane(v, adder))) == if adder.e == 0 then 0 else v
  {
    Pow2Constants();
  }

  /** float32(int32(x)) through the lane is the clamped rounding of x,
      including x = 0, whose exponent erases the lane. */
  lemma FloatOfIntThroughLane(a: Acc, dauc: nat)
    requires NormalForm(a)
    ensures var lane := IntLane(AccToInt(a, dauc, 32), a);
            Value(AccFromInt(Signed32(RawOf(lane))))
            == Clamp(Rounded(Value(a), RoundingMode(dauc)), 32) as real
  {
    var v := AccToInt(a, dauc, 32);
    IntLaneReadsBack(v, a);
    AccToIntExact(a, dauc, 32);
    AccFromIntExact(v);
  }

  /** The same with mode and limits spelled out. */
  lemma FloatOfIntMeans(a: Acc, h: nat, m: nat, l: nat)
    requires NormalForm(a) && m < 4 && l < 16
    ensures var lane := IntLane(AccToInt(a, 64 * h + 16 * m + l, 32), a);
            Value(AccFromInt(Signed32(RawOf(lane)))) == Limited(RoundedBy(Value(a), m), 32) as real
  {
    FloatOfIntThroughLane(a, 64 * h + 16 * m + l);
    AccToIntMeans(a, 32, h, m, l);
    AccToIntExact(a, 64 * h + 16 * m + l, 32);
    hide AccToInt, Value, NormalForm, AccFromInt, RawOf, IntLane, Rounded, RoundedBy;
  }

  // ---------------------------------------------------------------------
  // Rounding to 32 bits and negation

  /** Rounding picks the nearest 24-bit mantissa, ties upward. */
  lemma AccRoundNearest(a: Acc)
    requires NormalForm(a) && a.e != 0
    ensures var r := AccRound(a);
            && r.m % 0x100 == 0 && NormalAt(r.m, SC_ACC) && a.e - 1 <= r.e <= a.e + 1
            && Weighted(r.m, r.e, SC_ACC)
               == Weighted((a.m as real / 256.0 + 0.5).Floor, a.e, SC_ACC - 8)
  {
    var q := (a.m + 128) / 0x100;
    RoundedQuotient(a.m);
    NormalRange(a.m);
    assert AccRound(a) == Acc(Norm(q * 0x100, a.e, SC_ACC).0, Norm(q * 0x100, a.e, SC_ACC).1);
    hide Scaled, Pow2, Norm, NormalAt, AccRound;
    RoundedNorm(q * 0x100, a.e);
    TimesTwoToTheEighth(q, a.e);
  }

  lemma TimesTwoToTheEighth(q: int, e: int)
    ensures Weighted(q * 0x100, e, SC_ACC) == Weighted(q, e, SC_ACC - 8)
  {
    assert Pow2(8) == 0x100;
    hide Scaled, Pow2;
    ScaledLeft(q, 8, e - 128 - 23);
    assert e - 128 - 23 - 8 == e - 128 - SC_ACC;
  }

  lemma RoundedQuotient(m: int)
    ensures var q := (m + 128) / 0x100;
            && (m as real / 256.0 + 0.5).Floor == q
            && (0x8000_0000 <= m < 0x1_0000_0000 ==> 0x8000_0000 <= q * 0x100 <= 0x1_0000_0000)
            && (-0x1_0000_0000 <= m < -0x8000_0000 ==> -0x1_0000_0000 <= q * 0x100 <= -0x8000_0000)
  {
    FloorOf(m as real / 256.0 + 0.5, (m + 128) / 0x100);
  }

  /** A multiple of 256 one step outside the normal range normalises exactly. */
  lemma RoundedNorm(m: int, e: int)
    requires m % 0x100 == 0
    requires 0x8000_0000 <= m <= 0x1_0000_0000 || -0x1_0000_0000 <= m <= -0x8000_0000
    ensures var (n, f) := Norm(m, e, SC_ACC);
            && n % 0x100 == 0 && NormalAt(n, SC_ACC) && e - 1 <= f <= e + 1
            && Weighted(n, f, SC_ACC) == Weighted(m, e, SC_ACC)
  {
    EdgeNorm(m, e);
  }

  /** Normalising at the edges of the range moves by one place, exactly. */
  lemma EdgeNorm(m: int, e: int)
    requires 0x8000_0000 <= m <= 0x1_0000_0000 || -0x1_0000_0000 <= m <= -0x8000_0000
    ensures Norm(m, e, SC_ACC) == if m == 0x1_0000_0000 then (0x8000_0000, e + 1)
                                  else if m == -0x8000_0000 then (-0x1_0000_0000, e - 1)
                                  else (m, e)
    ensures var (n, f) := Norm(m, e, SC_ACC);
            NormalAt(n, SC_ACC) && Weighted(n, f, SC_ACC) == Weighted(m, e, SC_ACC)
  {
    NormalRange(m);
    NormalRange(0x8000_0000);
    NormalRange(-0x1_0000_0000);
    OnePlace(0x8000_0000, e + 1);
    OnePlace(m, e);
    hide Scaled, Norm, Pow2, NormalAt, ShiftOf;
    if m == 0x1_0000_0000 {
      HalfShift(e);
      NormUniqueAnswer(m, e, 0x8000_0000, e + 1, SC_ACC);
      assert Weighted(0x8000_0000, e + 1, SC_ACC) == Weighted(m, e, SC_ACC);
    } else if m == -0x8000_0000 {
      NormUniqueAnswer(m, e, -0x1_0000_0000, e - 1, SC_ACC);
    } else {
      NormOfNormal(m, e, SC_ACC);
    }
  }

  lemma NormalRange(m: int)
    ensures NormalAt(m, SC_ACC) <==> 0x8000_0000 <= m < 0x1_0000_0000 || -0x1_0000_0000 <= m < -0x8000_0000
  {
    Pow2Constants();
  }

  /** Doubling the mantissa is one step of the exponent. */
  lemma OnePlace(m: int, e: int)
    ensures Weighted(2 * m, e - 1, SC_ACC) == Weighted(m, e, SC_ACC) && ShiftOf(m, e, 2 * m, e - 1)
  {
    assert Pow2(1) == 2;
    hide Scaled;
    ScaledLeft(m, 1, e - 128 - SC_ACC);
    assert e - 1 - 128 - SC_ACC == e - 128 - SC_ACC - 1;
  }

  lemma HalfShift(e: int)
    ensures ShiftOf(0x1_0000_0000, e, 0x8000_0000, e + 1)
  {
    assert Pow2(1) == 2;
  }

  /** Negation is exact before the exponent is looked at, and moves it by at most one. */
  lemma AccNegateExact(a: Acc)
    requires NormalForm(a)
    ensures var r := AccNegate(a);
            && AdderInput(r) && 0 <= r.e <= 256
            && (a.e == 0 ==> r == a)
            && (a.e != 0 ==> NormalAt(r.m, SC_ACC) && a.e - 1 <= r.e <= a.e + 1
                             && Weighted(r.m, r.e, SC_ACC) == -Value(a))
  {
    Pow2Constants();
    var k := a.e - 128 - SC_ACC;
    ScaledOne(k);
    hide Scaled, Pow2, Norm;
    if a.e != 0 {
      EdgeNorm(-a.m, a.e);
      ScaledAdd(0, a.m, k);
    }
  }

  // Where a result lands on exponent 0 it reads as zero, silently.

  lemma WeightedZero(m: int, e: int)
    ensures Weighted(m, e, SC_ACC) == 0.0 <==> m == 0
  {
    ScaledOne(e - 128 - SC_ACC);
    hide Scaled, Exp2;
    ScaledOrder(0, m, e - 128 - SC_ACC);
    ScaledOrder(m, 0, e - 128 - SC_ACC);
  }

  /** Negation keeps the value exactly when the operand is not the least positive
      number, 2^-127, whose negative would need exponent 0. */
  lemma AccNegateValueIff(a: Acc)
    requires NormalForm(a)
    ensures Value(AccNegate(a)) == -Value(a) <==> a != Acc(0x8000_0000, 1)
  {
    AccNegateExact(a);
    if a.e != 0 {
      NormalRange(a.m);
      EdgeNorm(-a.m, a.e);
      WeightedZero(a.m, a.e);
    }
    hide Scaled, Norm, Pow2, NormalAt;
  }

  /** The nearest number with 23 fraction bits, ties upward. */
  function Nearest24(a: Acc): real {
    if a.e == 0 then 0.0 else Weighted((a.m as real / 256.0 + 0.5).Floor, a.e, SC_ACC - 8)
  }

  /** Rounding delivers it except just below -2^-127, where the result -2^-127
      would need exponent 0. */
  lemma AccRoundValueIff(a: Acc)
    requires NormalForm(a)
    ensures Value(AccRound(a)) == Nearest24(a) <==> !(a.e == 1 && -0x8000_0080 <= a.m < -0x8000_0000)
  {
    if a.e != 0 {
      AccRoundNearest(a);
      NormalRange(a.m);
      var q := (a.m + 128) / 0x100;
      RoundedQuotient(a.m);
      EdgeNorm(q * 0x100, a.e);
      WeightedZero(AccRound(a).m, AccRound(a).e);
      NormalRange(AccRound(a).m);
    }
    hide Scaled, Norm, Pow2, NormalAt;
  }

  /** The two boundary cases as they stand. */
  lemma SilentZeros()
    ensures NormalForm(Acc(0x8000_0000, 1)) && NormalForm(Acc(-0x8000_0001, 1))
    ensures AccNegate(Acc(0x8000_0000, 1)) == Acc(-0x1_0000_0000, 0) && Value(Acc(0x8000_0000, 1)) != 0.0
    ensures AccRound(Acc(-0x8000_0001, 1)) == Acc(-0x1_0000_0000, 0) && Nearest24(Acc(-0x8000_0001, 1)) != 0.0
  {
    NormalRange(0x8000_0000);
    NormalRange(-0x8000_0001);
    hide Scaled, Norm, Pow2, NormalAt;
    EdgeNorm(-0x8000_0000, 1);
    WeightedZero(0x8000_0000, 1);
    AccRoundValueIff(Acc(-0x8000_0001, 1));
  }

  // ---------------------------------------------------------------------
  // IEEE 754 binary32 (section 3.4 of IEEE 754-2008)

  function IeeeExponentField(w: word): nat {
    w / 0x80_0000 % 0x100
  }

  /** A normal binary32 number: sign, exponent 1..254, 23-bit fraction. */
  function IeeeValue(w: word): real {
    var significand := 0x80_0000 + w % 0x80_0000;
    Scaled(if w >= 0x8000_0000 then -1 * significand else significand,
           IeeeExponentField(w) - 127 - 23)
  }

  /** The exponent field `ieee` computes for an accumulator. */
  function IeeeExponentOf(a: Acc): int {
    if a.m == -0x1_0000_0000 then a.e else a.e - 1
  }

  lemma AccFromIeeeShape(w: word)
    ensures NormalForm(AccFromIeee(w))
    ensures 1 <= IeeeExponentField(w) <= 254 ==>
              var a := AccFromIeee(w);
              var m := 0x8000_0000 + w % 0x80_0000 * 0x100;
              var e := IeeeExponentField(w) + 1;
              && NormalAt(a.m, SC_ACC)
              && a == (if w < 0x8000_0000 then Acc(m, e)
                       else if w % 0x80_0000 == 0 then Acc(-0x1_0000_0000, e - 1)
                       else Acc(-m, e))
  {
    Pow2Constants();
    hide Norm, Pow2, Scaled;
    EdgeNorm(-(0x8000_0000 + w % 0x80_0000 * 0x100), IeeeExponentField(w) + 1);
  }

  /** `dsp` keeps the value of every normal single. */
  lemma AccFromIeeeExact(w: word)
    requires 1 <= IeeeExponentField(w) <= 254
    ensures Value(AccFromIeee(w)) == IeeeValue(w)
  {
    var e := IeeeExponentField(w) + 1;
    var s := 0x80_0000 + w % 0x80_0000;
    AccFromIeeeShape(w);
    Pow2Constants();
    hide Norm, Pow2, Scaled, AccFromIeee, NormalAt;
    EdgeNorm(-0x100 * s, e);
    ScaledLeft(if w >= 0x8000_0000 then -1 * s else s, 8, e - 128 - 23);
    assert e - 128 - 23 - 8 == e - 128 - SC_ACC;
  }

  /** `dsp` then `ieee` gives back the same bits. */
  lemma IeeeDspIeee(w: word)
    requires 1 <= IeeeExponentField(w) <= 254
    ensures AccToIeee(AccFromIeee(w)) == w
    ensures AccToIeee(Unpack(Pack(AccFromIeee(w)))) == w
  {
    hide AccFromIeee, Norm, Pow2, NormalAt, Unpack, Pack;
    AccFromIeeeShape(w);
    PackUnpack(AccFromIeee(w));
  }

  /** The exponent field places the magnitude: 2^(E-127) <= |a| < 2^(E-126). */
  lemma IeeeExponentBrackets(a: Acc)
    requires NormalForm(a) && a.e != 0
    ensures var mag := if Value(a) < 0.0 then -Value(a) else Value(a);
            Exp2(IeeeExponentOf(a) - 127) <= mag < Exp2(IeeeExponentOf(a) - 126)
  {
    var k := a.e - 128 - SC_ACC;
    var e := IeeeExponentOf(a);
    Pow2Constants();
    ScaledOne(k);
    ScaledOne(k + 31);
    ScaledOne(k + 32);
    Exp2Succ(k + 32);
    hide Scaled, Exp2, Pow2;
    ScaledLeft(1, 31, k + 31);
    ScaledLeft(1, 32, k + 32);
    ScaledAdd(0, a.m, k);
    ScaledOrder(a.m, 0, k);
    ScaledOrder(0, a.m, k);
    var mag := Magnitude(a.m);
    ScaledOrder(0x8000_0000, mag, k);
    ScaledOrder(mag, 0x1_0000_0000, k);
    assert k + 31 == a.e - 128 && k + 32 == a.e - 127;
  }

  /** Guard-free accumulators of magnitude in [2^-126, 2^128) survive `ieee`
      then `dsp`. */
  lemma DspIeeeDsp(a: Acc)
    requires NormalForm(a) && a.e != 0 && a.m % 0x100 == 0
    requires var mag := if Value(a) < 0.0 then -Value(a) else Value(a);
             Exp2(-126) <= mag < Exp2(128)
    ensures AccFromIeee(AccToIeee(a)) == a
  {
    IeeeExponentBrackets(a);
    var k := IeeeExponentOf(a);
    if k < 1 { Exp2Monotonic(k - 126, -126); }
    if k > 254 { Exp2Monotonic(128, k - 127); }
    DspIeeeDspInRange(a);
  }

  lemma DspIeeeDspInRange(a: Acc)
    requires NormalForm(a) && a.e != 0 && a.m % 0x100 == 0 && 1 <= IeeeExponentOf(a) <= 254
    ensures AccFromIeee(AccToIeee(a)) == a
  {
    NormalRange(a.m);
    hide NormalAt, Pow2, Norm;
    var w := AccToIeee(a);
    var k := IeeeExponentOf(a);
    var m := if a.m < 0 then (if a.m == -0x1_0000_0000 then 0x8000_0000 else -a.m) else a.m;
    var frac := (m - 0x8000_0000) / 0x100;
    assert w == (if a.m < 0 then 0x8000_0000 else 0) + k * 0x80_0000 + frac;
    FieldsOfSingle(a.m < 0, k, frac);
    AccFromIeeeShape(w);
  }

  lemma FieldsOfSingle(negative: bool, k: int, frac: int)
    requires 1 <= k <= 254 && 0 <= frac < 0x80_0000
    ensures var w: word := (if negative then 0x8000_0000 else 0) + k * 0x80_0000 + frac;
            (w >= 0x8000_0000) == negative && IeeeExponentField(w) == k && w % 0x80_0000 == frac
  {
  }

  /** `ieee` on every accumulator: zero and magnitudes below 2^-126 give a zero of
      the sign, magnitudes from 2^128 on an infinity, and all others the single
      that truncates the magnitude. */
  lemma AccToIeeeMeans(a: Acc)
    requires NormalForm(a)
    ensures var w, e := AccToIeee(a), IeeeExponentOf(a);
            var sign := if a.m < 0 then 0x8000_0000 else 0;
            && (a.e == 0 ==> w == 0)
            && (a.e != 0 && e <= 0 ==> w == sign)
            && (a.e != 0 && e >= 255 ==> w == sign + 0x7F80_0000)
            && (a.e != 0 && 1 <= e <= 254 ==> Truncates(a, w))
  {
    if a.e != 0 && 1 <= IeeeExponentOf(a) <= 254 { AccToIeeeTruncates(a); }
    NormalRange(a.m);
    hide NormalAt;
  }

  /** w is the single of a's sign whose magnitude is the greatest not above a's. */
  predicate Truncates(a: Acc, w: word) {
    && (w >= 0x8000_0000) == (a.m < 0) && 1 <= IeeeExponentField(w) <= 254
    && var ulp := Exp2(IeeeExponentField(w) - 127 - 23);
       if a.m < 0 then Value(a) <= IeeeValue(w) < Value(a) + ulp else Value(a) - ulp < IeeeValue(w) <= Value(a)
  }

  /** Magnitude with 31 fraction bits under the IEEE exponent. */
  function IeeeMantissa(a: Acc): int {
    if a.m == -0x1_0000_0000 then 0x8000_0000 else if a.m < 0 then -a.m else a.m
  }

  lemma AccToIeeeTruncates(a: Acc)
    requires NormalForm(a) && a.e != 0 && 1 <= IeeeExponentOf(a) <= 254
    ensures Truncates(a, AccToIeee(a))
  {
    NormalRange(a.m);
    var m, k := IeeeMantissa(a), IeeeExponentOf(a);
    var frac := (m - 0x8000_0000) / 0x100;
    var w := AccToIeee(a);
    assert w == (if a.m < 0 then 0x8000_0000 else 0) + k * 0x80_0000 + frac;
    FieldsOfSingle(a.m < 0, k, frac);
    MagnitudeValue(a);
    hide NormalAt, AccToIeee, IeeeMantissa, IeeeExponentField;
    var s := 0x80_0000 + frac;
    TruncationError(m, s, k - 127 - 23);
    IeeeSigned(a.m < 0, w, s, k - 127 - 23);
  }

  lemma IeeeSigned(negative: bool, w: word, s: int, k: int)
    requires (w >= 0x8000_0000) == negative && 0x80_0000 + w % 0x80_0000 == s && IeeeExponentField(w) - 127 - 23 == k
    ensures IeeeValue(w) == if negative then -Scaled(s, k) else Scaled(s, k)
  {
    hide Exp2;
    ScaledAdd(0, s, k);
    ScaledOne(k);
    hide Scaled, IeeeExponentField;
  }

  /** Cutting eight bits loses less than one unit. */
  lemma TruncationError(m: int, s: int, k: int)
    requires s == m / 0x100
    ensures Scaled(m, k - 8) - Exp2(k) < Scaled(s, k) <= Scaled(m, k - 8)
  {
    assert Pow2(8) == 0x100;
    ScaledOne(k);
    hide Scaled, Exp2, Pow2;
    ScaledRight(m, 8, k - 8);
    ScaledAdd(s, 1, k);
  }

  lemma MagnitudeValue(a: Acc)
    requires NormalForm(a) && a.e != 0
    ensures var x := Scaled(IeeeMantissa(a), IeeeExponentOf(a) - 127 - 23 - 8);
            Value(a) == if a.m < 0 then -x else x
  {
    var k := a.e - 128 - SC_ACC;
    OnePlace(-0x8000_0000, a.e + 1);
    ScaledOne(k);
    hide Exp2;
    ScaledAdd(0, -a.m, k);
    ScaledAdd(0, 0x8000_0000, k + 1);
    ScaledOne(k + 1);
    hide Scaled, NormalAt;
  }

  // ---------------------------------------------------------------------
  // Reciprocal seed

  lemma SeedInvolution(w: word)
    ensures SeedWord(SeedWord(w)) == w
  {
  }

  /** seed(x) keeps the sign and x * seed(x) is 1 within 1/8 + 2^-23. */
  lemma SeedBound(w: word)
    requires 1 <= w % 0x100 <= 254
    ensures (SeedWord(w) >= 0x8000_0000) == (w >= 0x8000_0000)
    ensures var err := WordValue(w) * WordValue(SeedWord(w)) - 1.0;
            -(0.125 + Exp2(-23)) <= err <= 0.125 + Exp2(-23)
  {
    SeedFields(w);
    hide Scaled, Mant24Full, WordValue, SeedWord, Exp2;
    DauMulExact(w, SeedWord(w));
    SeedProduct(w);
    ScaledInterval(Mant24Full(w) * Mant24Full(SeedWord(w)));
  }

  lemma SeedFields(w: word)
    ensures SeedWord(w) % 0x100 == 0xFF - w % 0x100
    ensures (SeedWord(w) >= 0x8000_0000) == (w >= 0x8000_0000)
  {
  }

  lemma ScaledInterval(pm: int)
    requires -(0x1000_0000_0000 + 0x100_0000) <= pm - 0x8000_0000_0000
                                              <= 0x1000_0000_0000 + 0x100_0000
    ensures -(0.125 + Exp2(-23)) <= Scaled(pm, -47) - 1.0 <= 0.125 + Exp2(-23)
  {
    Pow2Constants();
    Pow2Add(46, 1);
    Pow2Add(23, 1);
    Pow2Add(31, 13);
    assert Pow2(1) == 2 && Pow2(13) == 0x2000;
    ScaledUnit(1);
    ScaledOne(-23);
    ScaledOne(-3);
    assert Exp2(-3) == 0.125;
    hide Scaled, Exp2, Pow2;
    ScaledLeft(1, 47, 0);
    ScaledLeft(1, 24, -23);
    ScaledLeft(1, 44, -3);
    var one, eighth, tol := 0x8000_0000_0000, 0x1000_0000_0000, 0x100_0000;
    ScaledAdd(one, eighth + tol, -47);
    ScaledAdd(eighth, tol, -47);
    ScaledOrder(pm, one + (eighth + tol), -47);
    ScaledOrder(one - (eighth + tol), pm, -47);
  }

  lemma SeedMantissas(w: word)
    requires 1 <= w % 0x100 <= 254
    ensures var f, k := w / 0x100 % 0x80_0000, 0x7F_FFFF;
            if w < 0x8000_0000 then
              Mant24Full(w) == 0x80_0000 + f && Mant24Full(SeedWord(w)) == 0x80_0000 + k - f
            else
              Mant24Full(w) == f - 0x100_0000 && Mant24Full(SeedWord(w)) == k - f - 0x100_0000
  {
  }

  lemma SeedProduct(w: word)
    requires 1 <= w % 0x100 <= 254
    ensures var pm := Mant24Full(w) * Mant24Full(SeedWord(w));
            -(0x1000_0000_0000 + 0x100_0000) <= pm - 0x8000_0000_0000
                                             <= 0x1000_0000_0000 + 0x100_0000
  {
    var k := 0x7F_FFFF;
    var f := w / 0x100 % 0x80_0000;
    ParabolaBound(f, k);
    SeedMantissas(w);
    hide Mant24Full, SeedWord;
    if w < 0x8000_0000 {
      calc {
        (0x80_0000 + f) * (0x80_0000 + (k - f));
        { MulDistribute(0x80_0000 + f, 0x80_0000, k - f); }
        0x80_0000 * (0x80_0000 + f) + (0x80_0000 + f) * (k - f);
        { MulDistribute(k - f, 0x80_0000, f); }
        0x80_0000 * (0x80_0000 + f) + 0x80_0000 * (k - f) + f * (k - f);
      }
    } else {
      calc {
        (f - 0x100_0000) * ((k - f) + -0x100_0000);
        { MulDistribute(f - 0x100_0000, k - f, -0x100_0000); }
        (f - 0x100_0000) * (k - f) - 0x100_0000 * (f - 0x100_0000);
        { MulDistribute(k - f, f, -0x100_0000); }
        f * (k - f) - 0x100_0000 * (k - f) - 0x100_0000 * (f - 0x100_0000);
      }
    }
  }

  lemma ParabolaBound(f: int, k: int)
    requires 0 <= f <= k == 0x7F_FFFF
    ensures 0 <= f * (k - f) <= 0x1000_0000_0000
  {
    MulLe(0, f, 0, k - f);
    if 2 * f <= k {
      assert f * (k - f) <= f * k - f * f;
      HalfProduct(f, k);
    } else {
      HalfProduct(k - f, k);
    }
  }

  lemma HalfProduct(f: int, k: int)
    requires 0 <= 2 * f <= k == 0x7F_FFFF
    ensures f * (k - f) <= 0x1000_0000_0000
  {
    var d := k - 2 * f;
    assert k - f == f + d;
    assert 4 * (f * (f + d)) == (2 * f + d) * (2 * f + d) - d * d;
  }
}
