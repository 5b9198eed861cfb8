/** The DAU datapath in the integers the program uses: every method computes in
    64-bit arithmetic, each operation of which Dafny checks for overflow, and
    agrees with the unbounded function. */
module Dau64 {
  import opened Words
  import opened Dau
  import opened DauNormal
  import opened DauArith
  import opened DauConvert
  import opened Insn
  import opened Core
  import opened DauExec
  import opened RunNormal

  newtype int64 = x: int | -0x8000_0000_0000_0000 <= x < 0x8000_0000_0000_0000
  newtype int16 = x: int | -0x8000 <= x < 0x8000

  // ---------------------------------------------------------------------
  // Shifts

  /** 1 << k. */
  function One(k: nat): (p: int64)
    requires k <= 62
    ensures p as int == Pow2(k)
  {
    Pow2Monotonic(k, 62);
    Pow2Constants();
    Pow2(k) as int64
  }

  lemma Shrinks(m: int, k: nat)
    ensures m >= 0 ==> 0 <= m / Pow2(k) <= m
    ensures m < 0 ==> m <= m / Pow2(k) < 0
  {
    DivShrinks(m, Pow2(k));
  }

  /** m >> k, arithmetic; the program shifts by 63 places at most. */
  function Shr(m: int64, k: nat): (r: int64)
    requires k <= 63
    ensures r as int == m as int / Pow2(k)
  {
    Shrinks(m as int, k);
    (m as int / Pow2(k)) as int64
  }

  /** m << k where no bit is lost. */
  function Shl(m: int64, k: nat): (r: int64)
    requires -0x8000_0000_0000_0000 <= m as int * Pow2(k) < 0x8000_0000_0000_0000
    ensures r as int == m as int * Pow2(k)
  {
    (m as int * Pow2(k)) as int64
  }

  // ---------------------------------------------------------------------
  // Normalisation, multiplier, adder

  /** The normaliser as the two in-place loops. */
  method NormAt(m0: int64, e0: int, sc: nat) returns (m: int64, e: int)
    requires sc <= 61
    ensures (m as int, e) == Norm(m0 as int, e0, sc)
  {
    m, e := m0, e0;
    if m == 0 {
      e := 0;
      return;
    }
    Pow2Monotonic(sc, 61);
    Pow2Add(61, 1);
    Pow2Constants();
    var lo := One(sc);
    var hi := lo * 2;
    while m >= hi || m < -hi
      invariant NormDown(m as int, e, sc) == NormDown(m0 as int, e0, sc)
      decreases Magnitude(m as int)
    {
      m, e := m / 2, e + 1;
    }
    while (0 < m && m < lo) || (m < 0 && m >= -lo)
      invariant NormUp(m as int, e, sc) == Norm(m0 as int, e0, sc)
      decreases Pow2(sc) + 1 - Magnitude(m as int)
    {
      m, e := 2 * m, e - 1;
    }
  }

  method Multiply(xw: word, yw: word) returns (pm: int64, pe: int)
    ensures (pm as int, pe) == DauMul(xw, yw)
  {
    if xw % 0x100 == 0 || yw % 0x100 == 0 {
      pm, pe := 0, 0;
    } else {
      DauMulExact(xw, yw);
      var mx: int64, my: int64 := Mant24Full(xw) as int64, Mant24Full(yw) as int64;
      pm, pe := mx * my, xw % 0x100 + yw % 0x100 - 128;
    }
  }

  method Align(sm: int64, se: int, pm: int64, pe: int) returns (rm: int64, re: int)
    requires -0x8000_0000_0000 <= sm <= 0x8000_0000_0000 && ProductSized(pm as int)
    ensures (rm as int, re) == AlignedSum(sm as int, se, pm as int, pe)
  {
    if sm == 0 {
      rm, re := pm, pe;
    } else if pm == 0 {
      rm, re := sm, se;
    } else if se >= pe {
      var d := se - pe;
      if d <= 62 { Shrinks(pm as int, d); }
      rm, re := sm + (if d > 62 then 0 else Shr(pm, d)), se;
    } else {
      var d := pe - se;
      if d <= 62 { Shrinks(sm as int, d); }
      rm, re := pm + (if d > 62 then 0 else Shr(sm, d)), pe;
    }
  }

  /** The adder, on everything the accumulators and the multiplier deliver. */
  method Add(s: Acc, pm: int64, pe: int) returns (r: Acc)
    requires AdderInput(s) && 0 <= s.e <= 256 && ProductSized(pm as int) && -128 <= pe <= 384
    ensures r == DauAdd(s, pm as int, pe)
  {
    DauAddRange(s, pm as int, pe);
    NormalRange(s.m);
    hide Norm, NormalAt, DauAdd, AlignedSum;
    var sm: int64 := if s.e == 0 then 0 else s.m as int64 * 0x8000;
    assert sm as int == AdderMantissa(s);
    AddSteps(s, pm as int, pe);
    if sm == 0 && pm == 0 {
      return ZERO_ACC;
    }
    var rm, re := Align(sm, s.e, pm, pe);
    rm, re := NormAt(rm, re, SC_MUL);
    if rm == 0 {
      return ZERO_ACC;
    }
    var m, e := NormAt(rm / 0x8000, re, SC_ACC);
    var e16: int16 := e as int16;
    r := Acc(m as int, e16 as int);
  }

  /** The adder's definition, step by step. */
  lemma AddSteps(s: Acc, pm: int, pe: int)
    ensures var sm := AdderMantissa(s);
            var (rm, re) := AlignedSum(sm, s.e, pm, pe);
            var (nm, ne) := Norm(rm, re, SC_MUL);
            var (m, e) := Norm(nm / 0x8000, ne, SC_ACC);
            DauAdd(s, pm, pe) == if (sm == 0 && pm == 0) || nm == 0 then ZERO_ACC else Acc(m, e)
  {
    hide Norm, AlignedSum, AdderMantissa;
  }

  // ---------------------------------------------------------------------
  // Unary operations

  method Negate(a: Acc) returns (r: Acc)
    requires NormalForm(a)
    ensures r == AccNegate(a)
  {
    if a.e == 0 {
      return a;
    }
    NormalRange(a.m);
    AccNegateExact(a);
    hide Norm, NormalAt;
    var m, e := NormAt(-(a.m as int64), a.e, SC_ACC);
    var e16: int16 := e as int16;
    r := Acc(m as int, e16 as int);
  }

  method Round(a: Acc) returns (r: Acc)
    requires NormalForm(a)
    ensures r == AccRound(a)
  {
    if a.e == 0 {
      return a;
    }
    NormalRange(a.m);
    AccRoundNearest(a);
    hide Norm, NormalAt;
    var m, e := NormAt((a.m as int64 + 128) / 0x100 * 0x100, a.e, SC_ACC);
    var e16: int16 := e as int16;
    r := Acc(m as int, e16 as int);
  }

  method FromInt(v: int64) returns (r: Acc)
    requires -0x1_0000_0000 <= v < 0x1_0000_0000
    ensures r == AccFromInt(v as int)
  {
    if v == 0 {
      return ZERO_ACC;
    }
    IntNormShift(v as int);
    hide Norm;
    var m, e := NormAt(v, 128 + SC_ACC, SC_ACC);
    var e16: int16 := e as int16;
    r := Acc(m as int, e16 as int);
  }

  /** Normal mantissa, any exponent up to 256: what conversions to integers see,
      the doubled operand of companding included. */
  predicate Convertible(a: Acc) {
    a.e == 0 || (1 <= a.e <= 256 && NormalAt(a.m, SC_ACC))
  }

  lemma Pow24()
    ensures Pow2(24) == 0x100_0000
  {
    Pow2Add(16, 8);
    Pow2Constants();
  }

  lemma Shift24(m: int, k: nat)
    requires -0x1_0000_0000 <= m <= 0x1_0000_0000 && k <= 24
    ensures -0x100_0000_0000_0000 <= m * Pow2(k) <= 0x100_0000_0000_0000
  {
    Pow24();
    Pow2Monotonic(k, 24);
    hide Pow2;
    MulLe(Magnitude(m), 0x1_0000_0000, Pow2(k), 0x100_0000);
    if m < 0 { MulDistribute(Pow2(k), m, -m); }
  }

  /** The low `sh` bits, masked. */
  function LowBits(m: int64, sh: nat): (r: int64)
    requires sh <= 63
    ensures r as int == m as int % Pow2(sh)
  {
    Pow2Monotonic(sh, 63);
    Pow2Add(62, 1);
    Pow2Constants();
    (m as int % Pow2(sh)) as int64
  }

  method ShiftRounded(m: int64, sh: nat, mode: nat) returns (i: int64)
    requires sh >= 1 && -0x1_0000_0000 <= m <= 0x1_0000_0000
    ensures i as int == RoundedShift(m as int, sh, mode)
    ensures -0x1_0000_0001 <= i <= 0x1_0000_0001
  {
    if sh > 63 {
      i := if mode == 1 && m < 0 then -1 else 0;
    } else {
      Shrinks(m as int, sh);
      i := Shr(m, sh);
      if mode % 2 == 0 {
        if Shr(m, sh - 1) % 2 == 1 { i := i + 1; }
      } else if mode == 3 {
        if m < 0 && LowBits(m, sh) != 0 { i := i + 1; }
      }
    }
  }

  method ToInt(a: Acc, dauc: nat, bits: nat) returns (i: int64)
    requires Convertible(a)
    ensures i as int == AccToInt(a, dauc, bits)
  {
    if a.e == 0 {
      return 0;
    }
    NormalRange(a.m);
    var lo: int64, hi: int64 := IntLow(bits) as int64, IntHigh(bits) as int64;
    var shift := a.e - 128 - SC_ACC;
    if shift >= 0 {
      Shift24(a.m, if shift > 24 then 24 else shift);
      i := Shl(a.m as int64, if shift > 24 then 24 else shift);
      if shift > 24 {
        return if a.m < 0 then lo else hi;
      }
    } else {
      hide NormalAt, RoundedShift;
      i := ShiftRounded(a.m as int64, -shift, RoundingMode(dauc));
    }
    i := if i < lo then lo else if i > hi then hi else i;
  }

  /** The stored mantissa and guard of an accumulator. */
  method RawLane(a: Acc) returns (mg: int64)
    requires NormalForm(a)
    ensures mg as int == RawOf(a)
  {
    NormalRange(a.m);
    if a.e == 0 {
      mg := 0;
    } else {
      var m := a.m as int64;
      mg := (if m < 0 then m + 0x8000_0000 else m - 0x8000_0000) % 0x1_0000_0000;
    }
  }

  method Lane(v: int64, adder: Acc) returns (r: Acc)
    requires -0x8000_0000 <= v < 0x8000_0000
    ensures r == IntLane(v as int, adder)
  {
    var m: int64 := if v >= 0 then v + 0x8000_0000 else v - 0x8000_0000;
    r := Acc(m as int, adder.e);
  }

  method ToIeee(a: Acc) returns (w: word)
    requires NormalForm(a)
    ensures w == AccToIeee(a)
  {
    NormalRange(a.m);
    if a.e == 0 {
      return 0;
    }
    var m, e := a.m as int64, a.e - 128;
    var sign := if m < 0 then 0x8000_0000 else 0;
    if m < 0 {
      m := -m;
      if m == 0x1_0000_0000 { m, e := m / 2, e + 1; }
    }
    var frac := (m - 0x8000_0000) / 0x100;
    e := e + 127;
    if e >= 255 {
      w := sign + 0x7F80_0000;
    } else if e <= 0 {
      w := sign;
    } else {
      w := sign + e * 0x80_0000 + frac as int % 0x80_0000;
    }
  }

  method FromIeee(w: word) returns (r: Acc)
    ensures r == AccFromIeee(w)
  {
    var exp := w / 0x80_0000 % 0x100;
    if exp == 0 {
      return ZERO_ACC;
    }
    var m: int64 := 0x8000_0000 + (w % 0x80_0000) as int64 * 0x100;
    var e := exp - 127 + 128;
    if w >= 0x8000_0000 {
      EdgeNorm(-(m as int), e);
      m, e := NormAt(-m, e, SC_ACC);
    }
    hide Norm;
    if e > 255 {
      m, e := if w >= 0x8000_0000 then -0x1_0000_0000 else 0xFFFF_FFFF, 255;
    }
    if e < 1 {
      return ZERO_ACC;
    }
    var e16: int16 := e as int16;
    r := Acc(m as int, e16 as int);
  }

  // ---------------------------------------------------------------------
  // Whole instructions, in any state with accumulators in normal form

  lemma ProductRange(c: Core, i: Insn, x: Operand, y: Operand)
    requires i.Mac?
    ensures var (pm, pe) := MacProduct(c, i, x, y); ProductSized(pm) && -126 <= pe <= 382
  {
    hide Pack;
    if i.fmt != 1 {
      DauMulExact(MultiplierInputOf(y), MultiplierInputOf(x));
    } else if i.mul != 4 {
      DauMulExact(if i.mul >= 5 then ONE_WORD else Pack(c.pipe[2][i.mul]), MultiplierInputOf(x));
    }
  }

  /** The sum of a multiply-accumulate never leaves 64 bits. */
  method Sum(c: Core, i: Insn, x: Operand, y: Operand) returns (r: Acc)
    requires CoreNormal(c) && i.Mac? && OperandNormal(y)
    ensures r == MacSum(c, i, x, y)
  {
    hide *;
    var adder := MacAdder(c, i, y);
    MacAdderNormal(c, i, y);
    ProductRange(c, i, x, y);
    MacSumIs(c, i, x, y);
    var pm, pe := Product(c, i, x, y);
    var s := adder;
    if i.fs {
      s := Negate(adder);
    }
    SignedAdder(adder);
    SignedProduct(pm as int);
    r := Add(s, if i.ss then -pm else pm, pe);
  }

  lemma MacSumIs(c: Core, i: Insn, x: Operand, y: Operand)
    requires i.Mac?
    ensures var adder := MacAdder(c, i, y);
            var (pm, pe) := MacProduct(c, i, x, y);
            MacSum(c, i, x, y) == DauAdd(if i.fs then AccNegate(adder) else adder, if i.ss then -pm else pm, pe)
  {
    hide MacAdder, MacProduct, DauAdd, AccNegate;
  }

  lemma SignedAdder(a: Acc)
    requires NormalForm(a)
    ensures AdderInput(a) && 0 <= a.e <= 256 && AdderInput(AccNegate(a)) && 0 <= AccNegate(a).e <= 256
  {
    AccNegateExact(a);
    hide AccNegate;
  }

  lemma SignedProduct(pm: int)
    requires ProductSized(pm)
    ensures ProductSized(-pm) && -0x8000_0000_0000_0000 <= -pm < 0x8000_0000_0000_0000
  {
  }

  method Product(c: Core, i: Insn, x: Operand, y: Operand) returns (pm: int64, pe: int)
    requires i.Mac?
    ensures (pm as int, pe) == MacProduct(c, i, x, y)
  {
    hide DauMul, Pack;
    if i.fmt != 1 {
      pm, pe := Multiply(MultiplierInputOf(y), MultiplierInputOf(x));
    } else if i.mul == 4 {
      pm, pe := 0, 0;
    } else {
      pm, pe := Multiply(if i.mul >= 5 then ONE_WORD else Pack(c.pipe[2][i.mul]), MultiplierInputOf(x));
    }
  }

  // Special functions

  method LaneOf(y: Operand, drop: nat) returns (v: int64)
    requires OperandNormal(y) && drop <= 24
    ensures v as int == LaneInt(y, drop)
    ensures 0 <= v < 0x1_0000_0000
  {
    match y
    case AccOperand(live, _) =>
      var mg := RawLane(live);
      Shrinks(mg as int, drop);
      v := Shr(mg, drop);
    case MemOperand(raw, _, _) => v := raw as int64;
  }

  /** The companding search: the first of 256 codes at the least distance. */
  method Compand(a: Acc, alaw: bool) returns (best: byte)
    requires NormalForm(a)
    ensures best == CompandedEncode(a, alaw)
  {
    var twice := if a.e != 0 then a.(e := a.e + 1) else a;
    ConvertedRange(twice, 0, 32);
    hide *;
    TwiceConvertible(a);
    var v2 := ToInt(twice, 0, 32);
    best := 0;
    var bestd: int64 := 0x7FFF_FFFF_FFFF_FFFF;
    var b: nat := 0;
    CompandedIs(a, alaw, b, best, bestd as int);
    while b < 256
      invariant b <= 256 && bestd >= 0
      invariant NearestFrom(v2 as int, alaw, b, best, bestd as int) == CompandedEncode(a, alaw)
    {
      NearestStep(v2 as int, alaw, b, best, bestd as int);
      var d := Distance(v2, alaw, b);
      if d < bestd { bestd, best := d, b; }
      b := b + 1;
    }
    NearestEnd(v2 as int, alaw, best, bestd as int);
  }

  method Distance(v2: int64, alaw: bool, b: byte) returns (d: int64)
    requires -0x8000_0000 <= v2 <= 0x7FFF_FFFF
    ensures d >= 0 && d as int == Magnitude(Decode2x(b, alaw) - v2 as int)
  {
    DecodeBound(b, alaw);
    hide Decode2x;
    d := Decode2x(b, alaw) as int64 - v2;
    if d < 0 { d := -d; }
  }

  lemma TwiceConvertible(a: Acc)
    requires NormalForm(a)
    ensures Convertible(if a.e != 0 then a.(e := a.e + 1) else a)
  {
  }

  lemma CompandedIs(a: Acc, alaw: bool, b: nat, best: byte, bestd: nat)
    requires b == 0 && best == 0 && bestd == 0x7FFF_FFFF_FFFF_FFFF
    ensures NearestFrom(AccToInt(if a.e != 0 then a.(e := a.e + 1) else a, 0, 32), alaw, b, best, bestd)
            == CompandedEncode(a, alaw)
  {
    hide NearestFrom, AccToInt;
  }

  lemma NearestStep(v2: int, alaw: bool, b: byte, best: byte, bestd: nat)
    ensures var d := Magnitude(Decode2x(b, alaw) - v2);
            NearestFrom(v2, alaw, b, best, bestd)
            == if d < bestd then NearestFrom(v2, alaw, b + 1, b, d) else NearestFrom(v2, alaw, b + 1, best, bestd)
  {
    hide Decode2x;
  }

  lemma NearestEnd(v2: int, alaw: bool, best: byte, bestd: nat)
    ensures NearestFrom(v2, alaw, 256, best, bestd) == best
  {
  }

  lemma ConvertedRange(a: Acc, dauc: nat, bits: nat)
    ensures -0x8000_0000 <= AccToInt(a, dauc, bits) <= 0x7FFF_FFFF
  {
    hide RoundedShift, Pow2;
  }

  method DecodeByte(c: Core, y: Operand) returns (r: Acc)
    requires OperandNormal(y)
    ensures WithFlags(c, r, false) == ExecIc(c, y)
  {
    hide WithFlags, LaneInt, AccFromInt, Decode2x, Norm, OperandNormal;
    var lane := LaneOf(y, 24);
    var code: byte := lane as int % 0x100;
    if c.dauc / 4 % 2 == 1 {
      r := FromInt(code as int64);
    } else {
      DecodeBound(code, c.dauc % 2 == 1);
      r := FromInt(Decode2x(code, c.dauc % 2 == 1) as int64);
      if r.e != 0 {
        FromIntRange(Decode2x(code, c.dauc % 2 == 1));
        var e16: int16 := (r.e - 1) as int16;
        r := r.(e := e16 as int);
      }
    }
  }

  lemma FromIntRange(v: int)
    requires -0x1_0000_0000 <= v < 0x1_0000_0000
    ensures 0 <= AccFromInt(v).e <= 159
  {
    if v != 0 { IntNormShift(v); }
  }

  method EncodeByte(c: Core, y: Operand) returns (out: SpecialOut)
    requires OperandNormal(y)
    ensures out == ExecOc(c, y)
  {
    var a := AdderInputOf(y);
    AdderInputNormal(y);
    ConvertedRange(a, c.dauc, 8);
    hide AccToInt, CompandedEncode, IntLane, AdderInputOf, NormalAt;
    var code: int64;
    if c.dauc / 8 % 2 == 1 {
      code := ToInt(a, c.dauc, 8);
      code := code % 0x100;
    } else {
      var best := Compand(a, c.dauc / 2 % 2 == 1);
      code := best as int64;
    }
    var top := code * 0x100_0000;
    var lane := Lane(if top < 0x8000_0000 then top else top - 0x1_0000_0000, a);
    out := SpecialOut(c, lane, code as int, true);
  }

  method ToIntLane(c: Core, y: Operand, bits: nat) returns (out: SpecialOut)
    requires OperandNormal(y) && (bits == 16 || bits == 32)
    ensures out == ExecToInt(c, y, bits)
  {
    var a := AdderInputOf(y);
    AdderInputNormal(y);
    ConvertedRange(a, c.dauc, bits);
    hide AccToInt, IntLane, AdderInputOf, NormalAt;
    var iv := ToInt(a, c.dauc, bits);
    var low := (if bits == 16 then iv * 0x1_0000 else iv) % 0x1_0000_0000;
    var lane := Lane(if low < 0x8000_0000 then low else low - 0x1_0000_0000, a);
    out := SpecialOut(c, lane, if bits == 16 then iv as int % 0x1_0000 else low as int, true);
  }

  method FloatOf(y: Operand, bits: nat) returns (r: Acc)
    requires OperandNormal(y) && (bits == 16 || bits == 32)
    ensures r == AccFromInt(if bits == 16 then Signed16(LaneInt(y, 16)) else Signed32(Wrap(LaneInt(y, 0))))
  {
    hide AccFromInt, LaneInt, OperandNormal;
    var lane := LaneOf(y, if bits == 16 then 16 else 0);
    if bits == 16 {
      var h := lane % 0x1_0000;
      r := FromInt(if h < 0x8000 then h else h - 0x1_0000);
    } else {
      r := FromInt(if lane < 0x8000_0000 then lane else lane - 0x1_0000_0000);
    }
  }

  /** The arithmetic of every special function stays in 64 bits. */
  method Special(c: Core, i: Insn, y: Operand) returns (out: SpecialOut)
    requires CoreNormal(c) && i.Special? && !ReservedG(i.g) && ValidOperand(y) && OperandNormal(y)
    ensures out == SpecialResult(c, i, y)
  {
    AdderInputNormal(y);
    hide WithFlags, AccFromInt, AccRound, AdderInputOf, AccToIeee, ExecIc, ExecOc, ExecToInt, ExecIfa, ExecDsp, ExecSeed,
         LaneInt, NormalForm, CoreNormal, OperandNormal, Signed16, Signed32, Wrap;
    var g := i.g;
    if g == G_IC {
      var r := DecodeByte(c, y);
      out := WithFlags(c, r, false);
    } else if g == G_OC {
      out := EncodeByte(c, y);
    } else if g == G_FLOAT16 {
      var r := FloatOf(y, 16);
      out := WithFlags(c, r, false);
    } else if g == G_FLOAT32 {
      var r := FloatOf(y, 32);
      out := WithFlags(c, r, false);
    } else if g == G_INT16 || g == G_INT32 {
      out := ToIntLane(c, y, if g == G_INT16 then 16 else 32);
    } else if g == G_ROUND {
      var r := Round(AdderInputOf(y));
      out := WithFlags(c, r, true);
    } else if g == G_IEEE {
      var w := ToIeee(AdderInputOf(y));
      out := SpecialOut(c, AdderInputOf(y), w, true);
    } else if g == G_DSP {
      out := FromIeeeOperand(c, y);
    } else {
      out := SpecialResult(c, i, y);   // conditional loads and seed: bits only
    }
  }

  method FromIeeeOperand(c: Core, y: Operand) returns (out: SpecialOut)
    ensures out == ExecDsp(c, y)
  {
    hide WithFlags, AccFromIeee, TakeError, Unpack, PackedInput;
    var iw := PackedInput(y);
    if 1 <= iw / 0x80_0000 % 0x100 <= 254 {
      var r := FromIeee(iw);
      out := WithFlags(c, r, true);
    } else {
      out := ExecDsp(c, y);
    }
  }
}
