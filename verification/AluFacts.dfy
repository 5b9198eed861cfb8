/** Compare-and-branch decides order; carry-reverse addition walks the FFT
    order. */
module AluFacts {
  import opened Words
  import opened Dau
  import opened Insn
  import opened Core
  import opened Cau

  // ---------------------------------------------------------------------
  // Compare

  /** The number a comparison takes an operand for. */
  function SignedOperand(x: word, w16: bool): int {
    if w16 then Signed16(x) else Signed32(x)
  }

  function UnsignedOperand(x: word, w16: bool): nat {
    if w16 then x % 0x1_0000 else x
  }

  lemma SubFlags(a: word, b: word, w16: bool)
    ensures var f := AluSub(a, b, w16).flags;
            && f.z == (UnsignedOperand(a, w16) == UnsignedOperand(b, w16))
            && f.z == (SignedOperand(a, w16) == SignedOperand(b, w16))
            && f.c == (UnsignedOperand(a, w16) < UnsignedOperand(b, w16))
            && (f.n != f.v) == (SignedOperand(a, w16) < SignedOperand(b, w16))
  {
    hide Sext16, Wrap, Bit15, Msb;
    if w16 {
      SubFlags16(a % 0x1_0000, b % 0x1_0000);
      SignedLow(a);
      SignedLow(b);
    } else {
      SubFlags32(a, b);
    }
  }

  lemma SignedLow(x: word)
    ensures Signed16(x) == Signed16(x % 0x1_0000)
  {
  }

  lemma SubFlags32(a: word, b: word)
    ensures var res := Wrap(a - b);
            var v := Msb(a) != Msb(b) && Msb(a) != Msb(res);
            (res == 0) == (a == b) && (Msb(res) != v) == (Signed32(a) < Signed32(b))
            && (a == b) == (Signed32(a) == Signed32(b))
  {
  }

  lemma SubFlags16(ua: half, ub: half)
    ensures var diff := Wrap(ua - ub);
            var n := Msb(Sext16(diff));
            var v := Bit15(ua) != Bit15(ub) && Bit15(ua) != Bit15(diff);
            && (diff % 0x1_0000 == 0) == (ua == ub)
            && (n != v) == (Signed16(ua) < Signed16(ub))
  {
    var diff := Wrap(ua - ub);
    var d := if ua >= ub then ua - ub else ua - ub + 0x1_0000;
    assert diff % 0x1_0000 == d;
    assert Bit15(diff) == (d >= 0x8000);
    assert Msb(Sext16(diff)) == (d >= 0x8000);
  }

  /** The ten order conditions tested in d tell the signed and unsigned order of
      a and b, as 32-bit words or by their low halves. */
  predicate TellsOrder(d: Core, a: word, b: word, w16: bool) {
    var sa, sb := SignedOperand(a, w16), SignedOperand(b, w16);
    var ua, ub := UnsignedOperand(a, w16), UnsignedOperand(b, w16);
    && CondHolds(d, 4) == (ua != ub) && CondHolds(d, 5) == (ua == ub)
    && CondHolds(d, 8) == (ua >= ub) && CondHolds(d, 9) == (ua < ub)
    && CondHolds(d, 10) == (sa >= sb) && CondHolds(d, 11) == (sa < sb)
    && CondHolds(d, 12) == (sa > sb) && CondHolds(d, 13) == (sa <= sb)
    && CondHolds(d, 14) == (ua > ub) && CondHolds(d, 15) == (ua <= ub)
  }

  /** Comparing two registers changes the flags only, and the conditions that
      follow tell the order of the operands, in long and in short mode. */
  lemma CompareThenBranch(c: Core, long: bool, rs1: Reg, rs2: Reg)
    ensures var d := ExecAluReg(c, AluReg(long, F_CMP, 0, rs1, 1, rs2));
            d == SetCau(c, d.ps.cau) && TellsOrder(d, Opval(c, rs1), Opval(c, rs2), !long)
  {
    SubFlags(Opval(c, rs1), Opval(c, rs2), !long);
    hide Opval, AluSub, SignedOperand, UnsignedOperand;
  }

  /** So does comparing a register with a sign-extended immediate. */
  lemma CompareImmediateThenBranch(c: Core, long: bool, rd: Reg, n: half)
    ensures var d := ExecAluImm(c, AluImm(long, F_CMP, rd, n));
            d == SetCau(c, d.ps.cau) && TellsOrder(d, Opval(c, rd), Sext16(n), !long)
  {
    SubFlags(Opval(c, rd), Sext16(n), !long);
    hide Opval, AluSub, SignedOperand, UnsignedOperand, Sext16;
  }

  // ---------------------------------------------------------------------
  // Bit reversal

  function ShrNat(x: nat, i: nat): nat {
    DivBound(x, Pow2(i));
    x / Pow2(i)
  }

  /** The reversing loop, bit by bit. */
  method Bitrev(x: nat, nbits: nat) returns (r: nat)
    ensures r == BitRev(x, nbits)
  {
    r := 0;
    var i := 0;
    while i < nbits
      invariant i <= nbits
      invariant BitRev(x, nbits) == r + BitRev(ShrNat(x, i), nbits - i)
    {
      NextBit(x, nbits, i);
      r := r + ShrNat(x, i) % 2 * Pow2(nbits - 1 - i);
      i := i + 1;
    }
  }

  lemma NextBit(x: nat, n: nat, i: nat)
    requires i < n
    ensures BitRev(ShrNat(x, i), n - i)
            == ShrNat(x, i) % 2 * Pow2(n - 1 - i) + BitRev(ShrNat(x, i + 1), n - (i + 1))
  {
    ShiftShift(x, i, 1);
    assert Pow2(1) == 2;
    assert ShrNat(x, i) / 2 == ShrNat(x, i + 1);
    hide Pow2, ShrNat;
  }

  lemma {:induction false} BitRevZero(n: nat)
    ensures BitRev(0, n) == 0
  {
    if n > 0 { BitRevZero(n - 1); }
  }

  /** Reversing a field of i high bits t over j low bits y swaps the fields. */
  lemma {:induction false} BitRevSplit(t: nat, y: nat, j: nat, i: nat)
    requires y < Pow2(j)
    ensures BitRev(Pow2(j) * t + y, j + i) == BitRev(y, j) * Pow2(i) + BitRev(t, i)
  {
    if j > 0 {
      var x := Pow2(j) * t + y;
      HalfOfField(Pow2(j - 1), t, y);
      BitRevSplit(t, y / 2, j - 1, i);
      Pow2Add(j - 1, i);
      assert j + i - 1 == (j - 1) + i;
      Regroup(y % 2, Pow2(j - 1), Pow2(i), BitRev(y / 2, j - 1));
    }
  }

  lemma HalfOfField(p: nat, t: nat, y: nat)
    requires y < 2 * p
    ensures (2 * p * t + y) / 2 == p * t + y / 2 && (2 * p * t + y) % 2 == y % 2 && y / 2 < p
  {
    MulAssoc(2, p, t);
    var q := p * t;
    assert 2 * p * t == 2 * q;
  }

  lemma Regroup(b: nat, p: nat, q: nat, r: nat)
    ensures b * (p * q) + r * q == (b * p + r) * q
  {
    MulAssoc(b, p, q);
    MulDistribute(q, b * p, r);
  }

  lemma {:induction false} BitRevInvolution(x: nat, n: nat)
    requires x < Pow2(n)
    ensures BitRev(BitRev(x, n), n) == x
  {
    if n > 0 {
      var b, y := x % 2, BitRev(x / 2, n - 1);
      BitRevInvolution(x / 2, n - 1);
      BitRevBoundPow(x / 2, n - 1);
      assert BitRev(x, n) == b * Pow2(n - 1) + y;
      BitRevOne(b);
      hide BitRev, Pow2;
      BitRevSplit(b, y, n - 1, 1);
      assert b * Pow2(n - 1) == Pow2(n - 1) * b;
    }
  }

  lemma BitRevOne(b: nat)
    requires b <= 1
    ensures BitRev(b, 1) == b && Pow2(1) == 2
  {
  }

  /** Reversed in a wider field, an m-bit reversal is its number, left-aligned. */
  lemma BitRevAligned(x: nat, m: nat, n: nat)
    requires x < Pow2(m) && m <= n
    ensures BitRev(BitRev(x, m), n) == x * Pow2(n - m)
  {
    hide BitRev, Pow2;
    BitRevBoundPow(x, m);
    BitRevSplit(0, BitRev(x, m), m, n - m);
    BitRevInvolution(x, m);
    BitRevZero(n - m);
  }

  /** Left-aligned numbers reverse to their m-bit reversal. */
  lemma BitRevOfAligned(x: nat, m: nat, n: nat)
    requires m <= n
    ensures BitRev(x * Pow2(n - m), n) == BitRev(x, m)
  {
    BitRevSplit(x, 0, n - m, m);
    BitRevZero(n - m);
    assert Pow2(n - m) * x == x * Pow2(n - m);
  }

  // ---------------------------------------------------------------------
  // The FFT walk

  /** The register after k carry-reverse additions of 2^(m-1), starting at 0. */
  function Walk(m: nat, k: nat, w16: bool): word
    requires 1 <= m <= Width(w16)
    decreases k, 1
  {
    if k == 0 then 0 else WalkStep(m, k, w16).res
  }

  function WalkStep(m: nat, k: nat, w16: bool): AluOut
    requires 1 <= m <= Width(w16) && k >= 1
    decreases k, 0
  {
    CarryReverseAdd(Walk(m, k - 1, w16), Increment(m, w16), w16)
  }

  function Increment(m: nat, w16: bool): word
    requires 1 <= m <= Width(w16)
  {
    StepFits(m, w16);
    Pow2(m - 1)
  }

  lemma StepFits(m: nat, w16: bool)
    requires 1 <= m <= Width(w16)
    ensures Pow2(m - 1) < Pow2(Width(w16)) && Pow2(m) <= Pow2(Width(w16))
    ensures Pow2(Width(w16)) == if w16 then 0x1_0000 else 0x1_0000_0000
  {
    Pow2Constants();
    Pow2Monotonic(m - 1, Width(w16) - 1);
    Pow2Monotonic(m, Width(w16));
  }

  /** A register as the walk holds it: sign-extended in short mode. */
  function Held(x: nat, w16: bool): word
    requires x < Pow2(Width(w16))
  {
    Pow2Constants();
    if w16 then Sext16(x) else x
  }

  lemma HeldField(x: nat, w16: bool)
    requires x < Pow2(Width(w16))
    ensures Field(Held(x, w16), w16) == x
  {
    Pow2Constants();
    hide Pow2;
    if w16 { SextLow(x); }
  }

  lemma SextLow(x: int)
    requires 0 <= x < 0x1_0000
    ensures Sext16(x) % 0x1_0000 == x
  {
    if x < 0x8000 {
      assert Sext16(x) == x;
    } else {
      assert Sext16(x) == x + 0xFFFF_0000;
    }
  }

  lemma HeldZero(w16: bool)
    ensures Held(0, w16) == 0
  {
    Pow2Constants();
  }

  lemma WalkValueFits(m: nat, k: nat, w16: bool)
    requires 1 <= m <= Width(w16) && k < Pow2(m)
    ensures BitRev(k, m) < Pow2(m) <= Pow2(Width(w16))
  {
    BitRevBoundPow(k, m);
    StepFits(m, w16);
  }

  /** One carry-reverse addition takes the reversal of k-1 to that of k, or from
      the last index back to 0 with the carry set. */
  lemma WalkOnce(m: nat, k: nat, w16: bool)
    requires 1 <= m <= Width(w16) && 1 <= k <= Pow2(m)
    requires BitRev(k - 1, m) < Pow2(Width(w16)) && (k < Pow2(m) ==> BitRev(k, m) < Pow2(Width(w16)))
    ensures var out := CarryReverseAdd(Held(BitRev(k - 1, m), w16), Increment(m, w16), w16);
            && out.flags.c == (k == Pow2(m))
            && out.res == if k < Pow2(m) then Held(BitRev(k, m), w16) else 0
  {
    var n := Width(w16);
    var sum := k * Pow2(n - m);
    StepFits(m, w16);
    SumReversed(m, k, w16);
    SumPlace(m, k, n);
    BitRevOfAligned(k, m, n);
    BitRevZero(n);
    HeldIs(m, k, w16);
    hide BitRev, Pow2, Held, Increment, Field, CarryReverseAdd;
    AddOnReversed(Held(BitRev(k - 1, m), w16), Increment(m, w16), w16, sum);
  }

  lemma HeldIs(m: nat, k: nat, w16: bool)
    requires 1 <= m <= Width(w16) && (k < Pow2(m) ==> BitRev(k, m) < Pow2(Width(w16)))
    ensures k < Pow2(m) ==> Held(BitRev(k, m), w16) == if w16 then Sext16(BitRev(k, m)) else BitRev(k, m)
  {
    hide BitRev, Pow2;
  }

  /** Both operands reversed: k-1 and 1 in units of 2^(n-m). */
  lemma SumReversed(m: nat, k: nat, w16: bool)
    requires 1 <= m <= Width(w16) && 1 <= k <= Pow2(m) && BitRev(k - 1, m) < Pow2(Width(w16))
    ensures Reversed(Field(Held(BitRev(k - 1, m), w16), w16), w16) + Reversed(Field(Increment(m, w16), w16), w16)
            == k * Pow2(Width(w16) - m)
  {
    hide BitRev, Pow2, Held, Field, Increment;
    var n := Width(w16);
    StepFits(m, w16);
    HeldField(BitRev(k - 1, m), w16);
    IncrementField(m, w16);
    BitRevAligned(k - 1, m, n);
    StepReversed(m, n);
    OneMoreUnit(k, Pow2(n - m));
  }

  lemma OneMoreUnit(k: nat, unit: nat)
    requires k >= 1
    ensures (k - 1) * unit + unit == k * unit
  {
  }

  lemma IncrementField(m: nat, w16: bool)
    requires 1 <= m <= Width(w16)
    ensures Field(Increment(m, w16), w16) == Pow2(m - 1)
  {
    StepFits(m, w16);
    hide Pow2;
  }

  /** The sum stays below 2^n until k reaches 2^m, and then equals it. */
  lemma SumPlace(m: nat, k: nat, n: nat)
    requires m <= n && k <= Pow2(m)
    ensures k < Pow2(m) ==> k * Pow2(n - m) < Pow2(n)
    ensures k == Pow2(m) ==> k * Pow2(n - m) == Pow2(n)
  {
    Pow2Add(m, n - m);
    if k < Pow2(m) { BelowTop(k, Pow2(m), Pow2(n - m)); }
  }

  /** Carry-reverse addition in terms of the reversed sum. */
  lemma AddOnReversed(a: word, b: word, w16: bool, sum: nat)
    requires Reversed(Field(a, w16), w16) + Reversed(Field(b, w16), w16) == sum
    requires sum <= if w16 then 0x1_0000 else 0x1_0000_0000
    ensures var out := CarryReverseAdd(a, b, w16);
            var rev := Reversed(Field(sum, w16), w16);
            && out.flags.c == (sum == if w16 then 0x1_0000 else 0x1_0000_0000)
            && Field(sum, w16) == (if out.flags.c then 0 else sum)
            && out.res == (if w16 then Sext16(rev) else rev)
  {
    hide Reversed, Sext16;
  }

  lemma BelowTop(k: nat, p: nat, unit: nat)
    requires k < p && unit >= 1
    ensures k * unit < p * unit
  {
    MulLe(k + 1, p, unit, unit);
    MulDistribute(unit, k, 1);
  }

  lemma StepReversed(m: nat, n: nat)
    requires 1 <= m <= n
    ensures BitRev(Pow2(m - 1), n) == Pow2(n - m)
  {
    BitRevOneAt(m);
    Pow2Monotonic(1, m);
    assert Pow2(1) == 2;
    BitRevAligned(1, m, n);
  }

  lemma BitRevOneAt(m: nat)
    requires m >= 1
    ensures BitRev(1, m) == Pow2(m - 1)
  {
    BitRevZero(m - 1);
  }

  /** Carry-reverse addition walks the FFT order: k steps from 0 the register
      holds the m-bit reversal of k, for every k below 2^m; the 2^m-th step
      returns to 0 and is the first to set the carry. */
  lemma {:induction false} WalkIsReversal(m: nat, k: nat, w16: bool)
    requires 1 <= m <= Width(w16) && k <= Pow2(m)
    ensures k < Pow2(m) ==> BitRev(k, m) < Pow2(Width(w16)) && Walk(m, k, w16) == Held(BitRev(k, m), w16)
    ensures k == Pow2(m) ==> Walk(m, k, w16) == 0
    ensures k >= 1 ==> WalkStep(m, k, w16).flags.c == (k == Pow2(m))
  {
    hide CarryReverseAdd, BitRev, Pow2, Held;
    if k == 0 {
      BitRevZero(m);
      WalkValueFits(m, 0, w16);
      HeldZero(w16);
    } else {
      WalkIsReversal(m, k - 1, w16);
      if k < Pow2(m) { WalkValueFits(m, k, w16); }
      WalkOnce(m, k, w16);
    }
  }

  /** Every index below 2^m is visited exactly once in the first 2^m steps. */
  lemma WalkVisitsOnce(m: nat, x: nat, w16: bool) returns (k: nat)
    requires 1 <= m <= Width(w16) && x < Pow2(m)
    ensures k < Pow2(m) && x < Pow2(Width(w16)) && Walk(m, k, w16) == Held(x, w16)
    ensures forall j: nat :: j < Pow2(m) && Walk(m, j, w16) == Held(x, w16) ==> j == k
  {
    k := BitRev(x, m);
    BitRevBoundPow(x, m);
    BitRevInvolution(x, m);
    WalkIsReversal(m, k, w16);
    WalkValueFits(m, k, w16);
    forall j: nat | j < Pow2(m) && Walk(m, j, w16) == Held(x, w16) ensures j == k {
      WalkIsReversal(m, j, w16);
      HeldField(BitRev(j, m), w16);
      HeldField(x, w16);
      BitRevInvolution(j, m);
    }
  }
}
