/** The exact DAU datapath: 40-bit two's-complement floating-point
    accumulators, held as a fixed-point mantissa (31 fraction bits, implicit
    bit included) and a biased exponent. */
module Dau {
  import opened Words

  const SC_ACC: nat := 31   // accumulator fraction bits
  const SC_MUL: nat := 46   // product fraction bits

  datatype Acc = Acc(m: int, e: int)

  const ZERO_ACC := Acc(0, 0)

  /** The mantissa M lies in [1,2) or [-2,-1) at `sc` fraction bits. */
  predicate NormalAt(m: int, sc: nat) {
    || Pow2(sc) <= m < 2 * Pow2(sc)
    || -2 * Pow2(sc) <= m < -1 * Pow2(sc)
  }

  /** The accumulator invariant: zero (e = 0), or a normal mantissa with an
      8-bit exponent. */
  predicate NormalForm(a: Acc) {
    a.e == 0 || (1 <= a.e <= 255 && NormalAt(a.m, SC_ACC))
  }

  // ---------------------------------------------------------------------
  // Normalisation

  function Magnitude(m: int): nat {
    if m < 0 then -m else m
  }

  /** The first loop of the normaliser: truncating right shifts. */
  function NormDown(m: int, e: int, sc: nat): (int, int)
    decreases Magnitude(m)
  {
    if m >= 2 * Pow2(sc) || m < -2 * Pow2(sc) then NormDown(m / 2, e + 1, sc) else (m, e)
  }

  /** The second loop: left shifts. */
  function NormUp(m: int, e: int, sc: nat): (int, int)
    decreases Pow2(sc) + 1 - Magnitude(m)
  {
    if 0 < m < Pow2(sc) || -1 * Pow2(sc) <= m < 0 then NormUp(2 * m, e - 1, sc) else (m, e)
  }

  function Norm(m: int, e: int, sc: nat): (int, int) {
    if m == 0 then (0, 0)
    else
      var (m1, e1) := NormDown(m, e, sc);
      NormUp(m1, e1, sc)
  }

  // ---------------------------------------------------------------------
  // 32-bit words

  /** The 24-bit stored mantissa with its implicit bit (23 fraction bits). */
  function Mant24Full(w: word): int {
    var f := w / 0x100;
    if f < 0x80_0000 then f + 0x80_0000 else f - 0x100_0000 - 0x80_0000
  }

  function Unpack(w: word): Acc {
    if w % 0x100 == 0 then ZERO_ACC else Acc(Mant24Full(w) * 0x100, w % 0x100)
  }

  function WithoutImplicitBit(m: int, one: nat): int {
    if m < 0 then m + one else m - one
  }

  function Pack(a: Acc): word {
    if a.e == 0 || a.m == 0 then 0
    else WithoutImplicitBit(a.m / 0x100, 0x80_0000) % 0x100_0000 * 0x100 + a.e % 0x100
  }

  /** Bits 39-8 of the accumulator: mantissa and guard without the implicit bit. */
  function RawOf(a: Acc): word {
    if a.e == 0 then 0 else Wrap(WithoutImplicitBit(a.m, 0x8000_0000))
  }

  // ---------------------------------------------------------------------
  // Multiplier and adder

  function DauMul(xw: word, yw: word): (int, int) {
    if xw % 0x100 == 0 || yw % 0x100 == 0 then (0, 0)
    else (Mant24Full(xw) * Mant24Full(yw), xw % 0x100 + yw % 0x100 - 128)
  }

  /** An operand shifted right by `d`; beyond 62 places it vanishes. */
  function ShiftedOut(m: int, d: nat): int {
    if d > 62 then 0 else m / Pow2(d)
  }

  function AlignedSum(sm: int, se: int, pm: int, pe: int): (int, int) {
    if sm == 0 then (pm, pe)
    else if pm == 0 then (sm, se)
    else if se >= pe then (sm + ShiftedOut(pm, se - pe), se)
    else (pm + ShiftedOut(sm, pe - se), pe)
  }

  function AdderMantissa(s: Acc): int {
    if s.e == 0 then 0 else s.m * 0x8000
  }

  function DauAdd(s: Acc, pm: int, pe: int): Acc {
    var sm := AdderMantissa(s);
    if sm == 0 && pm == 0 then ZERO_ACC
    else
      var (rm, re) := AlignedSum(sm, s.e, pm, pe);
      var (nm, ne) := Norm(rm, re, SC_MUL);
      if nm == 0 then ZERO_ACC
      else
        var (m, e) := Norm(nm / 0x8000, ne, SC_ACC);
        Acc(m, e)
  }

  function AccNegate(a: Acc): Acc {
    if a.e == 0 then a
    else
      var (m, e) := Norm(-a.m, a.e, SC_ACC);
      Acc(m, e)
  }

  /** 40 to 32 bits, nearest with ties to the greater value. */
  function AccRound(a: Acc): Acc {
    if a.e == 0 then a
    else
      var (m, e) := Norm((a.m + 128) / 0x100 * 0x100, a.e, SC_ACC);
      Acc(m, e)
  }

  function AccFromInt(v: int): Acc {
    if v == 0 then ZERO_ACC
    else
      var (m, e) := Norm(v, 128 + SC_ACC, SC_ACC);
      Acc(m, e)
  }

  // ---------------------------------------------------------------------
  // Float to integer

  function IntLow(bits: nat): int {
    if bits == 8 then 0 else if bits == 16 then -0x8000 else -0x8000_0000
  }

  function IntHigh(bits: nat): int {
    if bits == 8 then 0xFF else if bits == 16 then 0x7FFF else 0x7FFF_FFFF
  }

  function Clamp(i: int, bits: nat): int {
    if i < IntLow(bits) then IntLow(bits) else if i > IntHigh(bits) then IntHigh(bits) else i
  }

  /** The rounding mode in dauc[5:4]. */
  function RoundingMode(dauc: nat): nat {
    dauc / 16 % 4
  }

  /** A mantissa shifted right by `sh` places under a rounding mode. */
  function RoundedShift(m: int, sh: nat, mode: nat): int
    requires sh >= 1
  {
    if sh > 63 then (if mode == 1 && m < 0 then -1 else 0)
    else
      var floor := m / Pow2(sh);
      if mode % 2 == 0 then
        (if m / Pow2(sh - 1) % 2 == 1 then floor + 1 else floor)
      else if mode == 3 then
        (if m < 0 && m % Pow2(sh) != 0 then floor + 1 else floor)
      else floor
  }

  function AccToInt(a: Acc, dauc: nat, bits: nat): int {
    if a.e == 0 then 0
    else
      var shift := a.e - 128 - SC_ACC;
      if shift >= 0 then
        if shift > 24 then (if a.m < 0 then IntLow(bits) else IntHigh(bits))
        else Clamp(a.m * Pow2(shift), bits)
      else Clamp(RoundedShift(a.m, -shift, RoundingMode(dauc)), bits)
  }

  /** Deposit a 32-bit integer in the mantissa-and-guard lane, keeping the
      adder input's exponent. */
  function IntLane(v: int, adder: Acc): Acc {
    Acc(if v >= 0 then v + 0x8000_0000 else v - 0x8000_0000, adder.e)
  }

  // ---------------------------------------------------------------------
  // IEEE 754 single precision

  function AccToIeee(a: Acc): word {
    if a.e == 0 || a.m == 0 then 0
    else
      var sign := if a.m < 0 then 0x8000_0000 else 0;
      var mag := if a.m < 0 then -a.m else a.m;
      var two := a.m < 0 && mag == 0x1_0000_0000;
      var m := if two then mag / 2 else mag;
      var e := a.e - 128 + (if two then 1 else 0) + 127;
      if e >= 255 then sign + 0x7F80_0000
      else if e <= 0 then sign
      else sign + e * 0x80_0000 + (m - 0x8000_0000) / 0x100 % 0x80_0000
  }

  function AccFromIeee(w: word): Acc {
    var negative := w >= 0x8000_0000;
    var exp := w / 0x80_0000 % 0x100;
    var frac := w % 0x80_0000;
    if exp == 0 then ZERO_ACC
    else
      var m := 0x8000_0000 + frac * 0x100;
      var e := exp - 127 + 128;
      var (m1, e1) := if negative then Norm(-m, e, SC_ACC) else (m, e);
      var a := if e1 > 255 then
                 Acc(if negative then -0x1_0000_0000 else 0xFFFF_FFFF, 255)
               else Acc(m1, e1);
      if a.e < 1 then ZERO_ACC else a
  }

  // ---------------------------------------------------------------------
  // Range check and flags

  datatype DauFlags = DauFlags(n: bool, z: bool, u: bool, v: bool)

  /** Saturation, flush to zero, and the four DAU flags of a result. */
  function RangeChecked(res: Acc, affectVU: bool): (Acc, DauFlags) {
    var over := affectVU && res.e != 0 && res.e > 255;
    var under := affectVU && res.e != 0 && res.e < 1;
    var r := if over then Acc(if res.m < 0 then -0x1_0000_0000 else 0xFFFF_FFFF, 255)
             else if under then ZERO_ACC
             else res;
    (r, DauFlags(r.e != 0 && r.m < 0, r.e == 0, under, over))
  }

  /** The reciprocal seed: every bit but the sign inverted. */
  function SeedWord(w: word): word {
    if w < 0x8000_0000 then 0x7FFF_FFFF - w else 0x1_7FFF_FFFF - w
  }
}
