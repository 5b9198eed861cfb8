/** The error of a whole multiply-accumulate, from operands to the accumulator. */
module MacBounds {
  import opened Words
  import opened Dau
  import opened DauArith
  import opened DauConvert
  import opened Insn
  import opened Core
  import opened DauExec
  import opened RunNormal

  function Signed(minus: bool, x: real): real {
    if minus then -x else x
  }

  /** What an operand is to the adder: an accumulator as it is, or a word. */
  function AdderReal(o: Operand): real {
    match o
    case AccOperand(live, _) => Value(live)
    case MemOperand(raw, _, _) => WordValue(raw)
  }

  /** And to the multiplier: always a word. */
  function FactorReal(o: Operand): real {
    match o
    case AccOperand(_, lane) => WordValue(lane)
    case MemOperand(raw, _, _) => WordValue(raw)
  }

  /** A of +-A +- B * X: in format 1 it is Y, in formats 2 and 3 accumulator aM, or
      0.0 for M = 4 and 1.0 for M = 5. */
  function TermA(c: Core, i: Insn, y: Operand): real
    requires i.Mac?
  {
    if i.fmt == 1 then AdderReal(y)
    else if i.mul == 4 then 0.0
    else if i.mul == 5 then 1.0
    else Value(c.acc[i.mul % 4])
  }

  /** B * X: in format 1 B is aM as of three instructions back, 0.0 for M = 4 and
      1.0 for M = 5 and 6; in formats 2 and 3 it is Y. */
  function TermBX(c: Core, i: Insn, x: Operand, y: Operand): real
    requires i.Mac?
  {
    if i.fmt != 1 then FactorReal(y) * FactorReal(x)
    else if i.mul == 4 then 0.0
    else if i.mul >= 5 then FactorReal(x)
    else WordValue(Pack(c.pipe[2][i.mul])) * FactorReal(x)
  }

  function ExactMac(c: Core, i: Insn, x: Operand, y: Operand): real
    requires i.Mac?
  {
    Signed(i.fs, TermA(c, i, y)) + Signed(i.ss, TermBX(c, i, x, y))
  }

  /** The words the multiplier gets. */
  function FactorWords(c: Core, i: Insn, x: Operand, y: Operand): (word, word)
    requires i.Mac?
  {
    var left := if i.fmt != 1 then MultiplierInputOf(y)
                else if i.mul == 4 then 0
                else if i.mul >= 5 then ONE_WORD
                else Pack(c.pipe[2][i.mul]);
    (left, MultiplierInputOf(x))
  }

  lemma TermAIs(c: Core, i: Insn, y: Operand)
    requires i.Mac?
    ensures Value(MacAdder(c, i, y)) == TermA(c, i, y)
  {
    OneIsOne(ONE_WORD);
    assert Value(ZERO_ACC) == 0.0;
    hide Unpack, Weighted;
  }

  lemma TermBXIs(c: Core, i: Insn, x: Operand, y: Operand)
    requires i.Mac?
    ensures var (v, w) := FactorWords(c, i, x, y); WordValue(v) * WordValue(w) == TermBX(c, i, x, y)
  {
    hide *;
    FactorIs(x);
    FactorIs(y);
    ZeroAndOne();
    Factors(FactorReal(x));
    TermBXFrom(c, i, x, y);
  }

  lemma ZeroAndOne()
    ensures WordValue(0) == 0.0 && WordValue(ONE_WORD) == 1.0
  {
    OneIsOne(ONE_WORD);
    WordFormat(0);
    hide WordValue;
  }

  lemma TermBXFrom(c: Core, i: Insn, x: Operand, y: Operand)
    requires i.Mac? && WordValue(0) == 0.0 && WordValue(ONE_WORD) == 1.0
    requires WordValue(MultiplierInputOf(x)) == FactorReal(x) && WordValue(MultiplierInputOf(y)) == FactorReal(y)
    requires 0.0 * FactorReal(x) == 0.0 && 1.0 * FactorReal(x) == FactorReal(x)
    ensures var (v, w) := FactorWords(c, i, x, y); WordValue(v) * WordValue(w) == TermBX(c, i, x, y)
  {
    hide WordValue, FactorReal, MultiplierInputOf, Pack;
  }

  lemma Factors(r: real)
    ensures 0.0 * r == 0.0 && 1.0 * r == r
  {
  }

  lemma FactorIs(o: Operand)
    ensures WordValue(MultiplierInputOf(o)) == FactorReal(o)
  {
    hide WordValue;
  }

  /** The one adder input whose negative reads as zero. */
  predicate NegationLost(c: Core, i: Insn, y: Operand)
    requires i.Mac?
  {
    i.fs && MacAdder(c, i, y) == Acc(0x8000_0000, 1)
  }

  function AdderTerm(c: Core, i: Insn, y: Operand): Acc
    requires i.Mac?
  {
    if i.fs then AccNegate(MacAdder(c, i, y)) else MacAdder(c, i, y)
  }

  function ProductTerm(c: Core, i: Insn, x: Operand, y: Operand): (int, int)
    requires i.Mac?
  {
    var (pm, pe) := MacProduct(c, i, x, y);
    (if i.ss then -pm else pm, pe)
  }

  lemma MacIsAdd(c: Core, i: Insn, x: Operand, y: Operand)
    requires i.Mac?
    ensures var (pm, pe) := ProductTerm(c, i, x, y);
            MacSum(c, i, x, y) == DauAdd(AdderTerm(c, i, y), pm, pe)
  {
    hide MacAdder, MacProduct, DauAdd, AccNegate;
  }

  lemma AdderTermExact(c: Core, i: Insn, y: Operand)
    requires i.Mac? && CoreNormal(c) && OperandNormal(y)
    ensures AdderInput(AdderTerm(c, i, y))
    ensures Value(AdderTerm(c, i, y)) == Signed(i.fs, Value(MacAdder(c, i, y))) <==> !NegationLost(c, i, y)
  {
    var a := MacAdder(c, i, y);
    MacAdderNormal(c, i, y);
    hide MacAdder, CoreNormal, Value, AccNegate;
    AccNegateExact(a);
    AccNegateValueIff(a);
    NormalIsAdderInput(a);
  }

  lemma MacProductIs(c: Core, i: Insn, x: Operand, y: Operand)
    requires i.Mac?
    ensures var (v, w) := FactorWords(c, i, x, y); MacProduct(c, i, x, y) == DauMul(v, w)
  {
    hide Pack, Mant24Full, MultiplierInputOf;
  }

  lemma ProductTermExact(c: Core, i: Insn, x: Operand, y: Operand)
    requires i.Mac?
    ensures var (pm, pe) := ProductTerm(c, i, x, y);
            var (v, w) := FactorWords(c, i, x, y);
            ProductSized(pm) && Weighted(pm, pe, SC_MUL) == Signed(i.ss, WordValue(v) * WordValue(w))
  {
    hide MacProduct, FactorWords, DauMul, Weighted, WordValue, ProductTerm, ProductSized;
    var (v, w) := FactorWords(c, i, x, y);
    DauMulExact(v, w);
    var (qm, qe) := DauMul(v, w);
    MacProductIs(c, i, x, y);
    Negated(qm, qe);
    SignedTerm(c, i, x, y, qm, qe, WordValue(v) * WordValue(w));
  }

  lemma Negated(pm: int, pe: int)
    ensures Weighted(-pm, pe, SC_MUL) == -Weighted(pm, pe, SC_MUL)
    ensures ProductSized(pm) ==> ProductSized(-pm)
  {
    ScaledOne(pe - 128 - SC_MUL);
    hide Scaled;
    ScaledAdd(0, pm, pe - 128 - SC_MUL);
  }

  lemma SignedTerm(c: Core, i: Insn, x: Operand, y: Operand, qm: int, qe: int, p: real)
    requires i.Mac? && MacProduct(c, i, x, y) == (qm, qe) && ProductSized(qm) && ProductSized(-qm)
    requires Weighted(qm, qe, SC_MUL) == p && Weighted(-qm, qe, SC_MUL) == -p
    ensures var (pm, pe) := ProductTerm(c, i, x, y);
            ProductSized(pm) && Weighted(pm, pe, SC_MUL) == Signed(i.ss, p)
  {
    hide MacProduct, Weighted;
  }

  /** The sum of a multiply-accumulate differs from the exact result by less than
      one 46-bit unit of the larger exponent plus one 31-bit unit of its own, and
      never exceeds it unless an operand was shifted out of existence. */
  lemma MacErrorBound(c: Core, i: Insn, x: Operand, y: Operand)
    requires i.Mac? && CoreNormal(c) && OperandNormal(y) && !NegationLost(c, i, y)
    ensures var r := MacSum(c, i, x, y);
            var s := AdderTerm(c, i, y);
            var (pm, pe) := ProductTerm(c, i, x, y);
            var err := ExactMac(c, i, x, y) - Weighted(r.m, r.e, SC_ACC);
            && -AlignUnit(s, pm, pe) <= err < AlignUnit(s, pm, pe) + Exp2(r.e - 128 - SC_ACC)
            && (AlignDistance(s, pm, pe) <= 62 ==> err >= 0.0)
  {
    hide *;
    AdderTermExact(c, i, y);
    ProductTermExact(c, i, x, y);
    TermAIs(c, i, y);
    TermBXIs(c, i, x, y);
    MacIsAdd(c, i, x, y);
    var s := AdderTerm(c, i, y);
    var (pm, pe) := ProductTerm(c, i, x, y);
    DauAddError(s, pm, pe);
    ExactIs(c, i, x, y, s, pm, pe);
  }

  lemma ExactIs(c: Core, i: Insn, x: Operand, y: Operand, s: Acc, pm: int, pe: int)
    requires i.Mac? && Value(s) == Signed(i.fs, TermA(c, i, y))
    requires Weighted(pm, pe, SC_MUL) == Signed(i.ss, TermBX(c, i, x, y))
    ensures ExactSum(s, pm, pe) == ExactMac(c, i, x, y)
  {
    hide Weighted, Value, TermA, TermBX;
  }

  /** What the range check then delivers: the sum itself inside the exponent
      range; beyond it the nearest end with V; below it zero, with U unless the
      exponent came out exactly 0. */
  lemma RangeCheckedValue(r: Acc)
    ensures var (res, f) := RangeChecked(r, true);
            if 1 <= r.e <= 255 then Value(res) == Weighted(r.m, r.e, SC_ACC) && !f.v && !f.u
            else if r.e > 255 then
              Value(res) == Weighted(if r.m < 0 then -0x1_0000_0000 else 0xFFFF_FFFF, 255, SC_ACC) && f.v && !f.u
            else Value(res) == 0.0 && f.z && !f.v && (f.u <==> r.e != 0)
  {
    hide Weighted;
  }

  /** The other two flags are the sign of what is delivered. */
  lemma SignFlags(r: Acc, affectVU: bool)
    requires Unchecked(r)
    ensures var (res, f) := RangeChecked(r, affectVU);
            f.n == (Value(res) < 0.0) && f.z == (Value(res) == 0.0)
  {
    var (res, f) := RangeChecked(r, affectVU);
    NormalRange(res.m);
    NormalRange(r.m);
    WeightedSign(res.m, res.e);
    hide Weighted, NormalAt;
  }

  /** ctr is the history of those signs: six bits, the newest lowest. */
  lemma SignHistory(c: Core, r: Acc, affectVU: bool)
    requires Unchecked(r)
    ensures var (d, res) := DaFlags(c, r, affectVU);
            d.ctr < 64 && forall k: nat :: k < 6 ==> Bit(d.ctr, k) == if k == 0 then Value(res) < 0.0 else Bit(c.ctr, k - 1)
  {
    SignFlags(r, affectVU);
    HistoryIs(c, r, affectVU);
    hide *;
    var (d, res) := DaFlags(c, r, affectVU);
    var negative := RangeChecked(r, affectVU).1.n;
    forall k: nat | k < 6 ensures Bit(d.ctr, k) == if k == 0 then negative else Bit(c.ctr, k - 1) {
      ShiftedIn(c.ctr, negative, k);
    }
  }

  lemma HistoryIs(c: Core, r: Acc, affectVU: bool)
    ensures var (d, res) := DaFlags(c, r, affectVU);
            && d.ctr == (c.ctr * 2 + (if RangeChecked(r, affectVU).1.n then 1 else 0)) % 64
            && res == RangeChecked(r, affectVU).0
  {
    hide Bit, RangeChecked;
  }

  lemma ShiftedIn(before: nat, newest: bool, k: nat)
    requires k < 6
    ensures Bit((before * 2 + (if newest then 1 else 0)) % 64, k) == if k == 0 then newest else Bit(before, k - 1)
  {
    var x: nat := before * 2 + (if newest then 1 else 0);
    assert Pow2(6) == 64;
    LowBit(x, 6, k);
    HalfOf(if newest then 1 else 0, before);
    hide Bit, Pow2;
    if k > 0 { BitOfHalf(x, k); } else { BitZero(x); }
  }

  lemma WeightedSign(m: int, e: int)
    ensures (Weighted(m, e, SC_ACC) < 0.0) == (m < 0) && (Weighted(m, e, SC_ACC) == 0.0) == (m == 0)
  {
    ScaledOne(e - 128 - SC_ACC);
    hide Scaled, Exp2;
    ScaledOrder(0, m, e - 128 - SC_ACC);
    ScaledOrder(m, 0, e - 128 - SC_ACC);
  }

  /** Together: an in-range multiply-accumulate leaves that close a value. */
  lemma MacResultError(c: Core, i: Insn, x: Operand, y: Operand)
    requires i.Mac? && CoreNormal(c) && OperandNormal(y) && !NegationLost(c, i, y)
    requires 1 <= MacSum(c, i, x, y).e <= 255
    ensures var (d, res) := DaFlags(c, MacSum(c, i, x, y), true);
            var s := AdderTerm(c, i, y);
            var (pm, pe) := ProductTerm(c, i, x, y);
            var err := ExactMac(c, i, x, y) - Value(res);
            && -AlignUnit(s, pm, pe) <= err < AlignUnit(s, pm, pe) + Exp2(res.e - 128 - SC_ACC)
            && (AlignDistance(s, pm, pe) <= 62 ==> err >= 0.0)
  {
    MacErrorBound(c, i, x, y);
    RangeCheckedValue(MacSum(c, i, x, y));
    hide Weighted, Value, MacSum, ExactMac, AlignUnit, AlignDistance, TakeError, ProductTerm, AdderTerm, Exp2;
  }
}
