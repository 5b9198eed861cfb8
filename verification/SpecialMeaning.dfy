/** The numbers the special functions compute, function by function. */
module SpecialMeaning {
  import opened Words
  import opened Dau
  import opened DauNormal
  import opened DauArith
  import opened DauConvert
  import opened Insn
  import opened Core
  import opened DauExec
  import opened RunNormal
  import MacBounds
  import DauMeaning
  import Frames

  /** Special function g. */
  predicate IsG(i: Insn, g: U4) { i.Special? && i.g == g }

  /** The operand as a number. */
  function Number(y: Operand): real {
    MacBounds.AdderReal(y)
  }

  /** Bits 39-8 of an accumulator, or the memory operand. */
  function Bits32(y: Operand): word {
    match y
    case AccOperand(live, _) => RawOf(live)
    case MemOperand(raw, _, _) => raw
  }

  /** Bits 39-8 are the packed word's mantissa and then the guard bits. */
  lemma LaneIsMantissa(a: Acc)
    requires NormalForm(a)
    ensures RawOf(a) / 0x100 == Pack(a) / 0x100
    ensures a.e != 0 ==> RawOf(a) % 0x100 == a.m % 0x100
  {
    if a.e != 0 {
      NormalRange(a.m);
      var x := WithoutImplicitBit(a.m, 0x8000_0000);
      assert -0x8000_0000 <= x < 0x8000_0000;
      var q := WithoutImplicitBit(a.m / 0x100, 0x80_0000);
      assert x == 0x100 * q + a.m % 0x100;
      WrapField(q, a.m % 0x100);
    }
  }

  lemma WrapField(q: int, r: int)
    requires 0 <= r < 0x100 && -0x80_0000 <= q < 0x80_0000
    ensures Wrap(0x100 * q + r) / 0x100 == q % 0x100_0000 && Wrap(0x100 * q + r) % 0x100 == r
  {
  }

  /** The n and z flags of a delivered number, u and v clear. */
  predicate NumberFlags(f: DauFlags, x: real) {
    f == DauFlags(x < 0.0, x == 0.0, false, false)
  }

  lemma PlainFlags(c: Core, r: Acc)
    requires NormalForm(r)
    ensures var out := WithFlags(c, r, false);
            out.res == r && out.zbits == Pack(r) && out.store && NumberFlags(out.c.ps.dau, Value(r))
  {
    MacBounds.SignFlags(r, false);
    Frames.DaFlagsFrame(c, r, false);
    hide Value, Pack, NormalForm, TakeError, Bit;
  }

  // ---------------------------------------------------------------------
  // Integers to floating point

  /** float16 (code 2) and float32 (code 8): the signed integer, exactly. */
  lemma FloatMeans(c: Core, i: Insn, y: Operand)
    requires (IsG(i, 2) || IsG(i, 8)) && ValidOperand(y) && OperandNormal(y)
    ensures var out := SpecialResult(c, i, y);
            var n := if i.g == 8 then Signed32(Bits32(y))
                     else Signed16(if y.AccOperand? then Bits32(y) / 0x1_0000 else Bits32(y));
            && Value(out.res) == n as real && NumberFlags(out.c.ps.dau, n as real)
            && out.zbits == Pack(out.res) && out.store
  {
    var n := if i.g == 8 then Signed32(Bits32(y)) else Signed16(if y.AccOperand? then Bits32(y) / 0x1_0000 else Bits32(y));
    FloatIs(c, i, y);
    AccFromIntExact(n);
    PlainFlags(c, AccFromInt(n));
    hide SpecialResult, WithFlags, AccFromInt, Value, Pack, RawOf;
  }

  lemma FloatIs(c: Core, i: Insn, y: Operand)
    requires (IsG(i, 2) || IsG(i, 8)) && ValidOperand(y)
    ensures var n := if i.g == 8 then Signed32(Bits32(y))
                     else Signed16(if y.AccOperand? then Bits32(y) / 0x1_0000 else Bits32(y));
            SpecialResult(c, i, y) == WithFlags(c, AccFromInt(n), false)
  {
    LaneParts(y);
    hide WithFlags, AccFromInt, RawOf, LaneInt, Bits32, Signed16, Signed32;
  }

  lemma LaneParts(y: Operand)
    ensures Wrap(LaneInt(y, 0)) == Bits32(y)
    ensures LaneInt(y, 16) == if y.AccOperand? then Bits32(y) / 0x1_0000 else Bits32(y)
  {
    Pow2Constants();
    assert Pow2(0) == 1;
    hide RawOf, Pow2;
  }

  /** mu-law (section 8.2.4.2 of the Information Manual): all bits inverted, a sign,
      a segment N and a mantissa M. */
  function MulawNumber(b: byte): real {
    var u := 255 - b;
    var x := Segment(u % 16, u / 16 % 8) - 16.5;
    if u >= 128 then -x else x
  }

  function Segment(m: nat, n: nat): real {
    (16.5 + m as real) * Exp2(n)
  }

  /** A-law: bits 0, 2, 4, 6 and 7 inverted, then a sign, a segment and a mantissa;
      segment 0 is linear. */
  function AlawNumber(b: byte): real {
    var u := AlawFlip(b);
    var m, n := u % 16, u / 16 % 8;
    var x := if n != 0 then Segment(m, n) else 1.0 + 2.0 * (m as real);
    if u >= 128 then -x else x
  }

  lemma AlawFlipBits(b: byte, k: nat)
    requires k < 8
    ensures Bit(AlawFlip(b), k) == (Bit(b, k) != (k == 0 || k == 2 || k == 4 || k == 6 || k == 7))
  {
    BitwiseBit((p, q) => p != q, b, 0xD5, 8, k);
    BitsOfD5(k);
    hide Bit, Bitwise;
  }

  lemma BitsOfD5(k: nat)
    requires k < 8
    ensures Bit(0xD5, k) == (k == 0 || k == 2 || k == 4 || k == 6 || k == 7)
  {
    assert Pow2(0) == 1 && Pow2(1) == 2 && Pow2(2) == 4 && Pow2(3) == 8 && Pow2(4) == 16 && Pow2(5) == 32
           && Pow2(6) == 64 && Pow2(7) == 128;
    hide Pow2;
    if k == 0 { } else if k == 1 { } else if k == 2 { } else if k == 3 { }
    else if k == 4 { } else if k == 5 { } else if k == 6 { } else { }
  }

  /** The companded number a code stands for, under the law the bit chooses. */
  function CodeNumber(b: byte, alaw: bool): real {
    if alaw then AlawNumber(b) else MulawNumber(b)
  }

  lemma SegmentTwice(m: nat, n: nat)
    ensures Segment2x(m, n) as real == 2.0 * Segment(m, n)
  {
    Exp2OfNat(n);
    IntProductAsReal(33 + 2 * m, Pow2(n));
    TwiceSegment(m as real, Exp2(n));
    hide Pow2, Exp2;
  }

  lemma TwiceSegment(m: real, p: real)
    ensures (33.0 + 2.0 * m) * p == 2.0 * ((16.5 + m) * p)
  {
  }

  /** Decoding is exact, at twice the scale. */
  lemma DecodeMeans(b: byte, alaw: bool)
    ensures Decode2x(b, alaw) as real == 2.0 * CodeNumber(b, alaw)
  {
    var u: byte := if alaw then AlawFlip(b) else 255 - b;
    SegmentTwice(u % 16, u / 16 % 8);
    hide AlawFlip, Segment2x, Segment;
  }

  /** ic (code 0): the byte in the top of the accumulator, or in memory, as an
      unsigned number if dauc[2] is set, else by the A-law or mu-law as dauc[0] says. */
  lemma IcMeans(c: Core, i: Insn, y: Operand)
    requires IsG(i, 0) && ValidOperand(y) && OperandNormal(y)
    ensures var out := SpecialResult(c, i, y);
            var code := if y.AccOperand? then Bits32(y) / 0x100_0000 else Bits32(y) % 0x100;
            var x := if Bit(c.dauc, 2) then code as real else CodeNumber(code, Bit(c.dauc, 0));
            && Value(out.res) == x && NumberFlags(out.c.ps.dau, x) && out.zbits == Pack(out.res) && out.store
  {
    var code: byte := if y.AccOperand? then Bits32(y) / 0x100_0000 else Bits32(y) % 0x100;
    CodeIs(y);
    DaucBits(c.dauc);
    IcIs(c, i, y, code);
    hide SpecialResult, WithFlags, AccFromInt, Value, Pack, RawOf, Bit, CodeNumber, Decode2x, Bits32, LaneInt, NormalForm;
    if Bit(c.dauc, 2) {
      AccFromIntExact(code);
      PlainFlags(c, AccFromInt(code));
    } else {
      var v := Decode2x(code, Bit(c.dauc, 0));
      DecodeBound(code, Bit(c.dauc, 0));
      DecodeMeans(code, Bit(c.dauc, 0));
      HalvedInt(v);
      PlainFlags(c, Halved(v));
    }
  }

  function Halved(v: int): Acc {
    var a := AccFromInt(v);
    if a.e != 0 then a.(e := a.e - 1) else a
  }

  lemma HalvedInt(v: int)
    requires -0x1_0000 <= v <= 0x1_0000
    ensures NormalForm(Halved(v)) && Value(Halved(v)) == v as real / 2.0
  {
    AccFromIntExact(v);
    if v != 0 {
      IntNormShift(v);
      var a := AccFromInt(v);
      Exp2Succ(a.e - 1 - 128 - SC_ACC);
      hide Exp2, Norm;
      HalfWeight(a.m, a.e);
    }
  }

  lemma HalfWeight(m: int, e: int)
    ensures Weighted(m, e - 1, SC_ACC) == Weighted(m, e, SC_ACC) / 2.0
  {
    Exp2Succ(e - 1 - 128 - SC_ACC);
    var p := Exp2(e - 1 - 128 - SC_ACC);
    hide Exp2;
    RealMulAssoc(m as real, 2.0, p);
  }

  lemma CodeIs(y: Operand)
    ensures LaneInt(y, 24) % 0x100 == if y.AccOperand? then Bits32(y) / 0x100_0000 else Bits32(y) % 0x100
  {
    Pow2Constants();
    Pow2Add(16, 8);
    hide RawOf, Pow2;
  }

  lemma DaucBits(d: nat)
    ensures Bit(d, 0) == (d % 2 == 1) && Bit(d, 1) == (d / 2 % 2 == 1) && Bit(d, 2) == (d / 4 % 2 == 1)
            && Bit(d, 3) == (d / 8 % 2 == 1) && Bit(d, 6) == (d / 64 % 2 == 1)
  {
    assert Pow2(1) == 2 && Pow2(2) == 4 && Pow2(3) == 8 && Pow2(6) == 64;
    BitZero(d);
  }

  lemma IcIs(c: Core, i: Insn, y: Operand, code: byte)
    requires IsG(i, 0) && ValidOperand(y) && LaneInt(y, 24) % 0x100 == code
    ensures SpecialResult(c, i, y)
            == WithFlags(c, if c.dauc / 4 % 2 == 1 then AccFromInt(code) else Halved(Decode2x(code, c.dauc % 2 == 1)), false)
  {
    hide WithFlags, AccFromInt, LaneInt, Decode2x;
  }

  // ---------------------------------------------------------------------
  // Floating point to integers

  /** int16 (code 3) and int32 (code 9): the rounded and limited number, in Z and in
      the accumulator's mantissa; no flags. */
  lemma IntMeans(c: Core, i: Insn, y: Operand, h: nat, m: nat, l: nat)
    requires (IsG(i, 3) || IsG(i, 9)) && ValidOperand(y) && OperandNormal(y)
    requires c.dauc == 64 * h + 16 * m + l && m < 4 && l < 16
    ensures var out := SpecialResult(c, i, y);
            var n := Limited(RoundedBy(Number(y), m), if i.g == 3 then 16 else 32);
            && out.zbits == (if i.g == 3 then n % 0x1_0000 else n % 0x1_0000_0000)
            && (AdderInputOf(y).e != 0 ==>
                  RawOf(out.res) == if i.g == 3 then n % 0x1_0000 * 0x1_0000 else n % 0x1_0000_0000)
            && out.c == c && out.store
  {
    assert i.Special? && !ReservedG(i.g);
    hide *;
    var a := AdderInputOf(y);
    var bits := if i.g == 3 then 16 else 32;
    AdderInputNormal(y);
    NormalIsAdderInput(a);
    NumberIs(y);
    AccToIntMeans(a, bits, h, m, l);
    LimitedRange(RoundedBy(Number(y), m), bits);
    ToIntIs(c, i, y);
    IntDelivered(AccToInt(a, c.dauc, bits), i.g == 3, a);
  }

  /** What stands in the accumulator's integer lane. */
  lemma IntDelivered(n: int, short: bool, a: Acc)
    requires -0x8000_0000 <= n <= 0x7FFF_FFFF && NormalForm(a)
    ensures var lane := IntLane(Signed32(Wrap(if short then n * 0x1_0000 else n)), a);
            a.e != 0 ==> RawOf(lane) == if short then n % 0x1_0000 * 0x1_0000 else n % 0x1_0000_0000
    ensures Wrap(n) == n % 0x1_0000_0000
  {
    ShiftedHalf(n);
    LaneHolds(Signed32(Wrap(if short then n * 0x1_0000 else n)), a);
    hide NormalForm, RawOf, IntLane;
  }

  lemma NumberIs(y: Operand)
    ensures Number(y) == Value(AdderInputOf(y))
  {
  }

  lemma LimitedRange(n: int, bits: nat)
    ensures -0x8000_0000 <= Limited(n, bits) <= 0x7FFF_FFFF
    ensures bits == 8 ==> 0 <= Limited(n, bits) <= 255
  {
  }

  lemma ShiftedHalf(n: int)
    ensures Wrap(n * 0x1_0000) == n % 0x1_0000 * 0x1_0000
  {
    var q, r := n / 0x1_0000, n % 0x1_0000;
    DivUnique(n * 0x1_0000, 0x1_0000_0000, q, r * 0x1_0000);
  }

  lemma LaneHolds(v: int, a: Acc)
    requires -0x8000_0000 <= v < 0x8000_0000 && NormalForm(a)
    ensures a.e != 0 ==> RawOf(IntLane(v, a)) == Wrap(v)
  {
    hide NormalForm;
  }

  lemma ToIntIs(c: Core, i: Insn, y: Operand)
    requires (IsG(i, 3) || IsG(i, 9)) && ValidOperand(y)
    ensures var a := AdderInputOf(y);
            var n := AccToInt(a, c.dauc, if i.g == 3 then 16 else 32);
            SpecialResult(c, i, y)
            == SpecialOut(c, IntLane(Signed32(Wrap(if i.g == 3 then n * 0x1_0000 else n)), a),
                          if i.g == 3 then n % 0x1_0000 else Wrap(n), true)
  {
    hide AccToInt, AdderInputOf, IntLane;
  }

  /** Distance of a code from an integer at twice the scale. */
  function Distance(v2: int, alaw: bool, b: nat): nat
    requires b < 256
  {
    Magnitude(Decode2x(b, alaw) - v2)
  }

  /** The search finds the first code at the least distance. */
  lemma {:induction false} NearestIsFirst(v2: int, alaw: bool, b: nat, best: byte, bestDistance: nat)
    requires b <= 256
    ensures var r := NearestFrom(v2, alaw, b, best, bestDistance);
            if forall k: nat :: b <= k < 256 ==> Distance(v2, alaw, k) >= bestDistance then r == best
            else b <= r && Distance(v2, alaw, r) < bestDistance
                 && (forall k: nat :: b <= k < 256 ==> Distance(v2, alaw, r) <= Distance(v2, alaw, k))
                 && (forall k: nat :: b <= k < r ==> Distance(v2, alaw, r) < Distance(v2, alaw, k))
    decreases 256 - b
  {
    hide Decode2x;
    if b < 256 {
      var d := Distance(v2, alaw, b);
      if d < bestDistance {
        NearestIsFirst(v2, alaw, b + 1, b, d);
      } else {
        NearestIsFirst(v2, alaw, b + 1, best, bestDistance);
      }
    }
  }

  /** oc (code 1): the number as a byte, clamped to 0..255 if dauc[3] is set; else the
      first of the 256 codes of the law in dauc[1] nearest to twice the number,
      rounded to an integer. */
  lemma OcMeans(c: Core, i: Insn, y: Operand, h: nat, m: nat, l: nat)
    requires IsG(i, 1) && ValidOperand(y) && OperandNormal(y)
    requires c.dauc == 64 * h + 16 * m + l && m < 4 && l < 16
    ensures var out := SpecialResult(c, i, y);
            && out.c == c && out.store && out.zbits < 256
            && (AdderInputOf(y).e != 0 ==> RawOf(out.res) == out.zbits * 0x100_0000)
            && (Bit(c.dauc, 3) ==> out.zbits == Limited(RoundedBy(Number(y), m), 8))
            && (!Bit(c.dauc, 3) ==> NearestCode(out.zbits, TwiceRounded(y), Bit(c.dauc, 1)))
  {
    var code := OcCode(c, y);
    OcIs(c, i, y);
    OcCodeMeans(c, y, h, m, l);
    AdderInputNormal(y);
    ByteLane(code, AdderInputOf(y));
    hide SpecialResult, OcCode, AdderInputOf, Limited, RoundedBy, RawOf, IntLane, Number, Bit, NearestCode, TwiceRounded,
         NormalForm;
  }

  function OcCode(c: Core, y: Operand): byte {
    var a := AdderInputOf(y);
    if c.dauc / 8 % 2 == 1 then AccToInt(a, c.dauc, 8) % 0x100 else CompandedEncode(a, c.dauc / 2 % 2 == 1)
  }

  lemma OcCodeMeans(c: Core, y: Operand, h: nat, m: nat, l: nat)
    requires OperandNormal(y) && c.dauc == 64 * h + 16 * m + l && m < 4 && l < 16
    ensures Bit(c.dauc, 3) ==> OcCode(c, y) == Limited(RoundedBy(Number(y), m), 8)
    ensures !Bit(c.dauc, 3) ==> NearestCode(OcCode(c, y), TwiceRounded(y), Bit(c.dauc, 1))
  {
    hide *;
    var a := AdderInputOf(y);
    AdderInputNormal(y);
    NormalIsAdderInput(a);
    NumberIs(y);
    DaucBits(c.dauc);
    OcCodeIs(c, y);
    AccToIntMeans(a, 8, h, m, l);
    LimitedRange(RoundedBy(Number(y), m), 8);
    CompandIs(y, Bit(c.dauc, 1));
  }

  lemma OcCodeIs(c: Core, y: Operand)
    ensures var a := AdderInputOf(y);
            && (c.dauc / 8 % 2 == 1 && 0 <= AccToInt(a, c.dauc, 8) <= 255 ==> OcCode(c, y) == AccToInt(a, c.dauc, 8))
            && (c.dauc / 8 % 2 != 1 ==> OcCode(c, y) == CompandedEncode(a, c.dauc / 2 % 2 == 1))
  {
    hide AccToInt, AdderInputOf, CompandedEncode;
  }

  lemma ByteLane(code: nat, a: Acc)
    requires code < 256 && NormalForm(a)
    ensures a.e != 0 ==> RawOf(IntLane(Signed32(code * 0x100_0000), a)) == code * 0x100_0000
  {
    LaneHolds(Signed32(code * 0x100_0000), a);
    hide NormalForm, RawOf, IntLane;
  }

  /** Twice the number as a 32-bit integer, nearest with ties upward. */
  function TwiceRounded(y: Operand): int {
    Limited(RoundedBy(2.0 * Number(y), 0), 32)
  }

  /** No code is nearer, and none before it is as near. */
  predicate NearestCode(code: nat, v2: int, alaw: bool) {
    && code < 256
    && (forall k: nat :: k < 256 ==> Distance(v2, alaw, code) <= Distance(v2, alaw, k))
    && (forall k: nat :: k < code ==> Distance(v2, alaw, code) < Distance(v2, alaw, k))
  }

  lemma OcIs(c: Core, i: Insn, y: Operand)
    requires IsG(i, 1) && ValidOperand(y)
    ensures var code := OcCode(c, y);
            SpecialResult(c, i, y) == SpecialOut(c, IntLane(Signed32(code * 0x100_0000), AdderInputOf(y)), code, true)
  {
    hide AccToInt, CompandedEncode, AdderInputOf, IntLane;
  }

  lemma CompandIs(y: Operand, alaw: bool)
    requires OperandNormal(y)
    ensures NearestCode(CompandedEncode(AdderInputOf(y), alaw), TwiceRounded(y), alaw)
  {
    var a := AdderInputOf(y);
    AdderInputNormal(y);
    NumberIs(y);
    var twice := if a.e != 0 then a.(e := a.e + 1) else a;
    TwiceValue(a);
    AccToIntMeans(twice, 32, 0, 0, 0);
    var v2 := AccToInt(twice, 0, 32);
    var far: nat, first: nat := 0x7FFF_FFFF_FFFF_FFFF, 0;
    SearchIs(a, alaw, twice, first, far);
    LimitedRange(RoundedBy(2.0 * Number(y), 0), 32);
    hide *;
    SearchFinds(v2, alaw, first, far);
    assert TwiceRounded(y) == v2 by { TwiceIs(y); }
  }

  lemma TwiceIs(y: Operand)
    ensures TwiceRounded(y) == Limited(RoundedBy(2.0 * Number(y), 0), 32)
  {
  }

  lemma TwiceValue(a: Acc)
    requires NormalForm(a)
    ensures var twice := if a.e != 0 then a.(e := a.e + 1) else a;
            AdderInput(twice) && Value(twice) == 2.0 * Value(a)
  {
    if a.e != 0 { HalfWeight(a.m, a.e + 1); }
    hide Weighted;
  }

  lemma SearchIs(a: Acc, alaw: bool, twice: Acc, first: nat, far: nat)
    requires twice == (if a.e != 0 then a.(e := a.e + 1) else a) && first == 0 && far == 0x7FFF_FFFF_FFFF_FFFF
    ensures CompandedEncode(a, alaw) == NearestFrom(AccToInt(twice, 0, 32), alaw, first, first, far)
  {
    hide NearestFrom, AccToInt;
  }

  /** Every distance is below the one the search starts with. */
  lemma SearchFinds(v2: int, alaw: bool, first: nat, far: nat)
    requires -0x8000_0000 <= v2 <= 0x7FFF_FFFF && first == 0 && far == 0x7FFF_FFFF_FFFF_FFFF
    ensures NearestCode(NearestFrom(v2, alaw, first, first, far), v2, alaw)
  {
    DecodeBound(first, alaw);
    assert Distance(v2, alaw, first) < far by { hide Decode2x; }
    hide NearestFrom, Distance;
    NearestIsFirst(v2, alaw, first, first, far);
  }

  // ---------------------------------------------------------------------
  // Rounding, conditional loads, IEEE and seed

  /** round (code 4): the nearest 24-bit mantissa, ties upward, if its exponent is in
      range; no guard bits are left. */
  lemma RoundMeans(c: Core, i: Insn, y: Operand)
    requires IsG(i, 4) && ValidOperand(y) && OperandNormal(y)
    ensures var out := SpecialResult(c, i, y);
            var a := AdderInputOf(y);
            && (1 <= AccRound(a).e <= 255 ==> Value(out.res) == Nearest24(a) && out.res.m % 0x100 == 0)
            && (out.c.ps.dau.n == (Value(out.res) < 0.0)) && (out.c.ps.dau.z == (Value(out.res) == 0.0))
            && out.zbits == Pack(out.res) && out.store
  {
    var a := AdderInputOf(y);
    AdderInputNormal(y);
    if a.e != 0 { AccRoundNearest(a); }
    AccRoundValueIff(a);
    var r := AccRound(a);
    MacBounds.RangeCheckedValue(r);
    MacBounds.SignFlags(r, true);
    Frames.DaFlagsFrame(c, r, true);
    RoundIs(c, i, y);
    RoundedZero(a);
    hide SpecialResult, AccRound, Value, Nearest24, Pack, AdderInputOf, TakeError, Weighted, NormalAt, Bit;
  }

  lemma RoundedZero(a: Acc)
    ensures a.e == 1 && AccRound(a).e == 1 && NormalForm(a) ==> !(-0x8000_0080 <= a.m < -0x8000_0000)
  {
    if a.e == 1 && NormalForm(a) && -0x8000_0080 <= a.m < -0x8000_0000 {
      EdgeNorm(-0x8000_0000, 1);
      assert (a.m + 128) / 0x100 * 0x100 == -0x8000_0000;
    }
  }

  lemma RoundIs(c: Core, i: Insn, y: Operand)
    requires IsG(i, 4) && ValidOperand(y)
    ensures var (c1, r) := DaFlags(c, AccRound(AdderInputOf(y)), true);
            SpecialResult(c, i, y) == SpecialOut(c1, r, Pack(r), true)
  {
    hide DaFlags, AccRound, AdderInputOf, Pack;
  }

  /** ifalt (code 5) loads on a negative result of the instruction before, ifaeq
      (code 6) on zero, ifagt (code 7) on neither; else the accumulator stays.  The
      store, of whichever it is, is left out when the condition fails and dauc[6] is
      set; the pointer moves all the same. */
  lemma ConditionalMeans(c: Core, i: Insn, y: Operand)
    requires (IsG(i, 5) || IsG(i, 6) || IsG(i, 7)) && ValidOperand(y)
    ensures var out := SpecialResult(c, i, y);
            var f := c.ps.dau;
            var holds := if i.g == 5 then f.n else if i.g == 6 then f.z else !f.n && !f.z;
            && out.res == (if holds then AdderInputOf(y) else c.acc[i.an])
            && out.zbits == Pack(out.res) && out.store == (holds || !Bit(c.dauc, 6))
            && (out.store ==> out.c == c)
            && (!out.store ==>
                  if DauMeaning.StoreAddress(c, i.z, y).None? then out.c == c
                  else DauMeaning.PointerMoves(c, out.c, if i.z >= 120 then y.preg else i.z / 8, i.z % 8, 4))
  {
    DaucBits(c.dauc);
    hide Postmod, AdderInputOf, Pack, Bit, DauMeaning.PointerMoves;
    if DauMeaning.StoreAddress(c, i.z, y).Some? {
      DauMeaning.PostmodMoves(c, if i.z >= 120 then y.preg else i.z / 8, i.z % 8, 4);
    }
    if i.g == 5 { } else if i.g == 6 { } else { }
  }

  /** ieee (code 12): Z gets the single; the accumulator gets the operand; no flags. */
  lemma IeeeMeans(c: Core, i: Insn, y: Operand)
    requires IsG(i, 12) && ValidOperand(y)
    ensures SpecialResult(c, i, y) == SpecialOut(c, AdderInputOf(y), AccToIeee(AdderInputOf(y)), true)
  {
    hide AccToIeee, AdderInputOf;
  }

  /** The IEEE single, or packed accumulator, that dsp and seed take. */
  function Packed(y: Operand): word {
    match y
    case AccOperand(live, _) => Pack(live)
    case MemOperand(raw, _, _) => raw
  }

  /** dsp (code 13): zero and subnormals become 0, with u for the latter; infinities
      and NaNs the greatest number of their sign, with v for the positive ones and
      the NaNs; every normal single its value. */
  lemma DspMeans(c: Core, i: Insn, y: Operand)
    requires IsG(i, 13) && ValidOperand(y)
    ensures var out := SpecialResult(c, i, y);
            var w := Packed(y);
            var e, fraction, f := IeeeExponentField(w), w % 0x80_0000, out.c.ps.dau;
            && out.store
            && (e == 0 ==> Value(out.res) == 0.0 && out.zbits == 0 && f == DauFlags(false, true, fraction != 0, false))
            && (e == 255 ==>
                  out.zbits == (if w >= 0x8000_0000 then 0x8000_00FF else 0x7FFF_FFFF) && out.res == Unpack(out.zbits)
                  && f == DauFlags(w >= 0x8000_0000, false, false, w < 0x8000_0000 || fraction != 0))
            && (1 <= e <= 254 ==> Value(out.res) == IeeeValue(w) && out.zbits == Pack(out.res)
                                  && NumberFlags(f, IeeeValue(w)))
  {
    var w := Packed(y);
    DspIs(c, i, y);
    if 1 <= IeeeExponentField(w) <= 254 {
      AccFromIeeeExact(w);
      AccFromIeeeShape(w);
      DspNormal(c, w);
    } else {
      var f := DauFlags(w >= 0x8000_0000, false, false, w < 0x8000_0000 || w % 0x80_0000 != 0);
      Frames.TakeErrorFrame(SetDau(c, f), VEC_NAN);
    }
    hide SpecialResult, AccFromIeee, Unpack, Pack, TakeError, Bit, IeeeValue, WithFlags, Weighted;
  }

  lemma DspNormal(c: Core, w: word)
    requires 1 <= IeeeExponentField(w) <= 254 && NormalForm(AccFromIeee(w)) && Value(AccFromIeee(w)) == IeeeValue(w)
    requires NormalAt(AccFromIeee(w).m, SC_ACC) && 1 <= AccFromIeee(w).e <= 255
    ensures var out := WithFlags(c, AccFromIeee(w), true);
            out.res == AccFromIeee(w) && out.zbits == Pack(out.res) && out.store && NumberFlags(out.c.ps.dau, IeeeValue(w))
  {
    var r := AccFromIeee(w);
    MacBounds.RangeCheckedValue(r);
    MacBounds.SignFlags(r, true);
    Frames.DaFlagsFrame(c, r, true);
    hide AccFromIeee, Value, IeeeValue, NormalAt, TakeError, Pack, Bit, Weighted, IeeeExponentField;
  }

  lemma DspIs(c: Core, i: Insn, y: Operand)
    requires IsG(i, 13) && ValidOperand(y)
    ensures var w := Packed(y);
            var e, fraction, negative := w / 0x80_0000 % 0x100, w % 0x80_0000, w >= 0x8000_0000;
            var big := if negative then 0x8000_00FF else 0x7FFF_FFFF;
            var f := DauFlags(negative, false, false, !negative || fraction != 0);
            SpecialResult(c, i, y)
            == if e == 255 then
                 SpecialOut(if fraction != 0 then TakeError(SetDau(c, f), VEC_NAN).0 else SetDau(c, f), Unpack(big), big, true)
               else if e == 0 then SpecialOut(SetDau(c, DauFlags(false, true, fraction != 0, false)), ZERO_ACC, 0, true)
               else WithFlags(c, AccFromIeee(w), true)
  {
    hide WithFlags, TakeError, Unpack, AccFromIeee, Pack, SetDau;
  }

  /** seed (code 14): every bit but the sign inverted; n and z of the seed, u for an
      exponent of all ones. */
  lemma SeedMeans(c: Core, i: Insn, y: Operand)
    requires IsG(i, 14) && ValidOperand(y)
    ensures var out := SpecialResult(c, i, y);
            var w := Packed(y);
            && out.zbits == (if w < 0x8000_0000 then 0x7FFF_FFFF - w else 0x1_7FFF_FFFF - w)
            && out.res == Unpack(out.zbits) && out.store
            && out.c.ps.dau == DauFlags(Value(out.res) < 0.0, Value(out.res) == 0.0, w % 0x100 == 0xFF, false)
  {
    var s: word := SeedWord(Packed(y));
    UnpackIsNormal(s);
    PlainFlags(c, Unpack(s));
    SeedIs(c, i, y);
    hide SpecialResult, WithFlags, Unpack, Value, Pack, NormalForm;
  }

  lemma SeedIs(c: Core, i: Insn, y: Operand)
    requires IsG(i, 14) && ValidOperand(y)
    ensures var s := SeedWord(Packed(y));
            var out := WithFlags(c, Unpack(s), false);
            SpecialResult(c, i, y)
            == SpecialOut(if Packed(y) % 0x100 == 0xFF then out.c.(ps := out.c.ps.(dau := out.c.ps.dau.(u := true))) else out.c,
                          out.res, s, true)
  {
    hide WithFlags, Unpack, SeedWord, Pack;
  }
}
