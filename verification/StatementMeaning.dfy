/** Statements mean what they say: the operator in the text, through assembler and
    emulator, to integers. */
module StatementMeaning {
  import opened Words
  import opened Insn
  import opened Syntax
  import opened Dis
  import opened Asm
  import C = Core
  import U = Cau
  import M = Machine
  import G = Registers
  import A = AluMeaning
  import R = RoundTrip
  import L = ListingFacts
  import Canonical
  import D = DoLoops

  /** The ALU function each binary operator stands for. */
  function CodeOf(p: Punct): Option<U4> {
    match p
    case PlusSign => Some(0)
    case ShlSign => Some(1)
    case Hash => Some(3)
    case MinusSign => Some(4)
    case AndNot => Some(6)
    case Caret => Some(8)
    case Bar => Some(10)
    case ShrSign => Some(12)
    case AsrSign => Some(13)
    case Ampersand => Some(14)
    case _ => None
  }

  /** `if (c) rD = (short) rA op rB`. */
  function OperatorText(cond: Cond, long: bool, rd: Reg, ra: Reg, p: Punct, rb: Reg): Toks {
    L.Assign(cond, long, rd, PReg(ra, P(p, PReg(rb, End))))
  }

  lemma OperatorParses(env: Env, addr: word, cond: Cond, long: bool, rd: Reg, ra: Reg, p: Punct, rb: Reg)
    requires OperandReg(rd) && OperandReg(ra) && OperandReg(rb) && NamedCond(cond) && CodeOf(p).Some?
    ensures AsmInsn(env, addr, OperatorText(cond, long, rd, ra, p, rb))
            == EncOperator(cond, long, rd, ra, p, OReg(rb))
  {
    var rhs := PReg(ra, P(p, PReg(rb, End)));
    Starts(rd, P(Equals, PShort(long, rhs)));
    Starts(ra, P(p, PReg(rb, End)));
    assert OperatorText(cond, long, rd, ra, p, rb) == PIf(cond, PReg(rd, P(Equals, PShort(long, rhs))));
    OperatorSign(p);
    hide *;
    R.ConditionBack(env, addr, cond, PReg(rd, P(Equals, PShort(long, rhs))));
    R.AssignBack(env, cond, rd, PShort(long, rhs));
    R.ArithBack(env, cond, long, rd, rhs);
    R.RegOpBack(env, cond, long, rd, ra, p, rb);
  }

  lemma OperatorSign(p: Punct)
    ensures CodeOf(p).Some? ==> p != Inc && p != Dec && !RotateOf(p).Some? && p != ShiftOrSign
  {
  }

  lemma Starts(r: Reg, rest: Toks)
    requires OperandReg(r)
    ensures R.RegLike(PReg(r, rest)) && R.ArithLike(PReg(r, rest))
  {
  }

  lemma OperatorEncodes(cond: Cond, long: bool, rd: Reg, ra: Reg, p: Punct, rb: Reg)
    requires CodeOf(p).Some?
    ensures EncOperator(cond, long, rd, ra, p, OReg(rb))
            == Some(if p == MinusSign && (rb == PLUS || rb == MINUS || ra == R0) then AluReg(long, F_RSUB, rd, rb, cond, ra)
                    else AluReg(long, CodeOf(p).value, rd, ra, cond, rb))
  {
  }

  /** b - a by the reverse subtraction is a - b by the plain one. */
  lemma ReversedEffect(c: C.Core, d: C.Core, rd: Reg, a: word, b: word, w16: bool)
    requires A.AluEffect(c, d, 2, rd, b, a, w16)
    ensures A.AluEffect(c, d, 4, rd, a, b, w16)
  {
    var res: word :| G.Writes(c, d, rd, res) && A.AluResult(2, b, a, w16, c.ps.cau.c, res)
                     && A.ResultFlags(2, b, a, w16, res, d.ps.cau);
    hide G.Writes, A.HoldsPart, A.SignAndZero;
    assert G.Writes(c, d, rd, res) && A.AluResult(4, a, b, w16, c.ps.cau.c, res)
           && A.ResultFlags(4, a, b, w16, res, d.ps.cau);
  }

  /** A binary register statement: accepted, and executed it leaves in rD what its
      operator says of rA and rB, with the flags of that, if its condition holds; and
      does nothing otherwise.  (`sp = sp + +n` is the push by four.) */
  lemma OperatorMeans(env: Env, addr: word, c: C.Core, cond: Cond, long: bool, rd: Reg, ra: Reg, p: Punct, rb: Reg)
    requires OperandReg(rd) && OperandReg(ra) && OperandReg(rb) && NamedCond(cond) && CodeOf(p).Some?
    requires !(p == PlusSign && rd == SP && ra == SP && IsPseudo(rb))
    ensures var i := AsmInsn(env, addr, OperatorText(cond, long, rd, ra, p, rb));
            && i.Some?
            && if U.CondHolds(c, cond) then
                 A.AluEffect(c, M.ExecCore(c, i.value).0, CodeOf(p).value, rd, G.Reads(c, ra), G.Reads(c, rb), !long)
               else M.ExecCore(c, i.value).0 == c
  {
    OperatorParses(env, addr, cond, long, rd, ra, p, rb);
    OperatorEncodes(cond, long, rd, ra, p, rb);
    var i := EncOperator(cond, long, rd, ra, p, OReg(rb)).value;
    A.AluRegMeans(c, i);
    SecondIs(c, i);
    hide *;
    if i.f == F_RSUB && U.CondHolds(c, cond) {
      CodeNotReverse(p);
      ReversedEffect(c, M.ExecCore(c, i).0, rd, G.Reads(c, ra), G.Reads(c, rb), !long);
    }
  }

  lemma CodeNotReverse(p: Punct)
    ensures CodeOf(p) != Some(2) && CodeOf(MinusSign) == Some(4)
  {
  }

  lemma SecondIs(c: C.Core, i: Insn)
    requires i.AluReg? && !(i.f == 0 && i.rd == 25 && i.rs1 == 25 && (i.rs2 == 22 || i.rs2 == 23))
    ensures A.SecondOf(c, i) == G.Reads(c, i.rs2)
  {
  }

  /** `rA - rB` and `rA & rB` on their own: compare and bit test. */
  lemma TestMeans(env: Env, addr: word, c: C.Core, cond: Cond, long: bool, ra: Reg, p: Punct, rb: Reg)
    requires OperandReg(ra) && OperandReg(rb) && NamedCond(cond) && (p == MinusSign || p == Ampersand)
    ensures var i := AsmInsn(env, addr, PIf(cond, PShort(long, PReg(ra, P(p, PReg(rb, End))))));
            && i.Some?
            && if U.CondHolds(c, cond) then
                 A.AluEffect(c, M.ExecCore(c, i.value).0, if p == MinusSign then 7 else 15, 0,
                             G.Reads(c, ra), G.Reads(c, rb), !long)
               else M.ExecCore(c, i.value).0 == c
  {
    var i := AluReg(long, if p == MinusSign then F_CMP else F_BTST, 0, ra, cond, rb);
    TestParses(env, addr, cond, long, ra, p, rb);
    A.AluRegMeans(c, i);
    SecondIs(c, i);
    hide *;
  }

  lemma TestParses(env: Env, addr: word, cond: Cond, long: bool, ra: Reg, p: Punct, rb: Reg)
    requires OperandReg(ra) && OperandReg(rb) && NamedCond(cond) && (p == MinusSign || p == Ampersand)
    ensures AsmInsn(env, addr, PIf(cond, PShort(long, PReg(ra, P(p, PReg(rb, End))))))
            == Some(AluReg(long, if p == MinusSign then F_CMP else F_BTST, 0, ra, cond, rb))
  {
    var f := if p == MinusSign then F_CMP else F_BTST;
    var i := AluReg(long, f, 0, ra, cond, rb);
    var text := PShort(long, PBinary(ra, f, rb));
    assert PBinary(ra, f, rb) == PReg(ra, P(p, PReg(rb, End)));
    TestStarts(long, ra, P(p, PReg(rb, End)));
    assert AluRegNamed(i) && Canonical.Canon(i) == i by { Named0(); hide OperandReg; }
    hide AsmInsn, EncRegStmt, PReg, OperandReg, NamedCond, PShort, AluRegNamed;
    R.ConditionBack(env, addr, cond, text);
    R.TestBack(env, i);
  }

  lemma Named0()
    ensures OperandReg(0)
  {
  }

  lemma TestStarts(long: bool, r: Reg, rest: Toks)
    requires OperandReg(r)
    ensures R.RegLike(PShort(long, PReg(r, rest)))
  {
  }

  // ---------------------------------------------------------------------
  // Moves and data arithmetic: which way a statement goes

  /** `rH = (w) *rP..` is the load, `*rP.. = (w) rH` the store; likewise for direct
      addresses and I/O registers. */
  lemma MoveStatements(env: Env, addr: word, w: U3, rh: Reg, rp: Reg, ri: Reg, l: half, ior: Reg)
    requires NamedSize(w) && OperandReg(rh) && OperandReg(rp) && OperandReg(ri) && NamedIor(ior)
    requires !(ior == 10 && rh == R0 && (w == 7 || w == 3 || w == 0))
    ensures AsmInsn(env, addr, PReg(rh, P(Equals, PSize(w, PMem(rp, ri, End))))) == Some(MoveInd(false, false, w, rh, rp, ri))
    ensures AsmInsn(env, addr, PMem(rp, ri, P(Equals, PSize(w, PReg(rh, End))))) == Some(MoveInd(false, true, w, rh, rp, ri))
    ensures AsmInsn(env, addr, PReg(rh, P(Equals, PSize(w, P(Star, Hex(l, End)))))) == Some(MoveDirect(false, w, rh, l))
    ensures AsmInsn(env, addr, P(Star, Hex(l, P(Equals, PSize(w, PReg(rh, End)))))) == Some(MoveDirect(true, w, rh, l))
    ensures AsmInsn(env, addr, PReg(rh, P(Equals, PSize(w, PIor(ior, End))))) == Some(MoveIor(false, w, rh, ior))
    ensures AsmInsn(env, addr, PIor(ior, P(Equals, PSize(w, PReg(rh, End))))) == Some(MoveIor(true, w, rh, ior))
  {
    hide AsmInsn, PReg, PSize, PMem, OperandReg;
    R.MoveInsnBack(env, addr, MoveInd(false, false, w, rh, rp, ri));
    R.MoveInsnBack(env, addr, MoveInd(false, true, w, rh, rp, ri));
    R.MoveInsnBack(env, addr, MoveDirect(false, w, rh, l));
    R.MoveInsnBack(env, addr, MoveDirect(true, w, rh, l));
    R.MoveInsnBack(env, addr, MoveIor(false, w, rh, ior));
    R.MoveInsnBack(env, addr, MoveIor(true, w, rh, ior));
  }

  /** Loops say body length, then count; the words without operands; the shift-or. */
  lemma LoopStatements(env: Env, addr: word, k: Field7, n: U11, r: Reg)
    requires OperandReg(r)
    ensures AsmInsn(env, addr, Cons(TKw(KwDo), Dec10(k, P(Comma, Dec10(n, End))))) == Some(Do(false, false, k, CountImm(n)))
    ensures AsmInsn(env, addr, Cons(TKw(KwDo), Dec10(k, P(Comma, PReg(r, End))))) == Some(Do(false, false, k, CountReg(r)))
    ensures AsmInsn(env, addr, Cons(TKw(KwDolock), Dec10(k, P(Comma, Dec10(n, End))))) == Some(Do(true, false, k, CountImm(n)))
    ensures AsmInsn(env, addr, Cons(TKw(KwDolock), Dec10(k, P(Comma, PReg(r, End))))) == Some(Do(true, false, k, CountReg(r)))
    ensures AsmInsn(env, addr, Cons(TKw(KwDoblock), Dec10(n, End))) == Some(Do(false, true, 0, CountImm(n)))
  {
    R.DoBack(env, addr, Do(false, false, k, CountImm(n)));
    R.DoBack(env, addr, Do(false, false, k, CountReg(r)));
    R.DoBack(env, addr, Do(true, false, k, CountImm(n)));
    R.DoBack(env, addr, Do(true, false, k, CountReg(r)));
    R.DoBack(env, addr, Do(false, true, 0, CountImm(n)));
    hide AsmInsn, PReg, Dec10, OperandReg;
  }

  lemma PlainStatements(env: Env, addr: word, rd: Reg, rs: Reg, n: half, m: U24)
    requires OperandReg(rd) && OperandReg(rs)
    ensures AsmInsn(env, addr, Cons(TKw(KwNop), End)) == Some(Goto16(0, 0, 0))
    ensures AsmInsn(env, addr, Cons(TKw(KwIreturn), End)) == Some(Goto16(1, 30, 0))
    ensures AsmInsn(env, addr, Cons(TKw(KwWaiti), End)) == Some(MoveIor(true, 7, 0, 10))
    ensures AsmInsn(env, addr, Cons(TKw(KwBkpt), End)) == Some(MoveIor(true, 3, 0, 10))
    ensures AsmInsn(env, addr, Cons(TKw(KwSftrst), End)) == Some(MoveIor(true, 0, 0, 10))
    ensures AsmInsn(env, addr, PReg(rd, P(Equals, PReg(rs, P(ShiftOrSign, Hex(n, End)))))) == Some(ShiftOr(rd, rs, n))
    ensures AsmInsn(env, addr, PReg(rd, P(Equals, P(Open, Cons(TKw(KwUshort24), P(Close, Hex(m, End))))))) == Some(Set24(rd, m))
  {
    hide *;
    WordsAlone(env, addr);
    PlainTexts(addr, rd, rs, n, m);
    R.ShiftOrBack(env, addr, ShiftOr(rd, rs, n));
    R.Set24Back(env, addr, Set24(rd, m));
  }

  lemma PlainTexts(addr: word, rd: Reg, rs: Reg, n: half, m: U24)
    ensures DisInsn(ShiftOr(rd, rs, n), addr).text == PReg(rd, P(Equals, PReg(rs, P(ShiftOrSign, Hex(n, End)))))
    ensures DisInsn(Set24(rd, m), addr).text == PReg(rd, P(Equals, P(Open, Cons(TKw(KwUshort24), P(Close, Hex(m, End))))))
  {
    hide PReg;
  }

  /** The words of the five fixed statements. */
  lemma FixedWords()
    ensures Encode(Goto16(0, 0, 0)) == 0x8000_0000 && Encode(Goto16(1, 30, 0)) == 0x803E_0000
    ensures Encode(MoveIor(true, 7, 0, 10)) == 0x9DE0_040A && Encode(MoveIor(true, 3, 0, 10)) == 0x9D60_040A
    ensures Encode(MoveIor(true, 0, 0, 10)) == 0x9D00_040A
  {
  }

  lemma WordsAlone(env: Env, addr: word)
    ensures AsmInsn(env, addr, Cons(TKw(KwNop), End)) == Some(Goto16(0, 0, 0))
    ensures AsmInsn(env, addr, Cons(TKw(KwIreturn), End)) == Some(Goto16(1, 30, 0))
    ensures AsmInsn(env, addr, Cons(TKw(KwWaiti), End)) == Some(MoveIor(true, 7, 0, 10))
    ensures AsmInsn(env, addr, Cons(TKw(KwBkpt), End)) == Some(MoveIor(true, 3, 0, 10))
    ensures AsmInsn(env, addr, Cons(TKw(KwSftrst), End)) == Some(MoveIor(true, 0, 0, 10))
  {
  }

  /** `aN = [-]Y {+,-} aM * X`: the signs and factors in their places. */
  lemma MacStatement(env: Env, addr: word, an: U2, neg: bool, y: Field7, minus: bool, m: U2, x: Field7)
    requires OperandField(y) && OperandField(x)
    ensures var product := P(if minus then MinusSign else PlusSign, Cons(TAcc(m), P(Star, POperand(x, End))));
            var sum := POperand(y, product);
            AsmInsn(env, addr, Cons(TAcc(an), P(Equals, if neg then P(MinusSign, sum) else sum)))
            == Some(Mac(1, m, neg, minus, an, x, y, DA_NOWRITE))
  {
    var i := Mac(1, m, neg, minus, an, x, y, DA_NOWRITE);
    MacSpelled(an, neg, y, minus, m, x);
    R.MacBack(env, addr, i);
    hide *;
  }

  lemma MacSpelled(an: U2, neg: bool, y: Field7, minus: bool, m: U2, x: Field7)
    requires OperandField(y) && OperandField(x)
    ensures var i := Mac(1, m, neg, minus, an, x, y, DA_NOWRITE);
            var product := P(if minus then MinusSign else PlusSign, Cons(TAcc(m), P(Star, POperand(x, End))));
            var sum := POperand(y, product);
            && R.MacNamed(i) && Canonical.Canon(i) == i
            && MacText(i) == Cons(TAcc(an), P(Equals, if neg then P(MinusSign, sum) else sum))
  {
    NothingStored(y);
    assert !ZPrints(DA_NOWRITE, y) && Canonical.CanonZ(DA_NOWRITE, y) == DA_NOWRITE;
    hide POperand, OperandField;
  }

  lemma NothingStored(y: Field7)
    ensures ZKindOf(DA_NOWRITE, y).ZNone?
  {
  }

  // ---------------------------------------------------------------------
  // What the disassembler reports beside the text

  /** Class, marks and status of a line. */
  lemma MarksMean(i: Insn, addr: word)
    ensures var l := DisInsn(i, addr);
            && (l.klass.DA? <==> i.Mac? || i.Special?)
            && (l.noDelaySlot <==> M.IsIreturn(i))
            && (l.isBranch <==> i.LoopGoto? || i.Call16? || i.Goto24? || i.Call24? || (i.Goto16? && i != Goto16(0, 0, 0)))
            && (l.target.Some? ==> l.isBranch && !l.noDelaySlot)
            && (l.status.IllegalWord? <==> i.Illegal?)
  {
    SignedZero(if i.Goto16? then i.n else 0);
    hide MacText, SpecialText, MoveText, Encode, Target, Signed16;
  }

  lemma SignedZero(n: half)
    ensures Signed16(n) == 0 <==> n == 0
  {
  }

  /** pc (code 15) is the destination or the moved pointer. */
  predicate NamesPc(i: Insn) {
    match i
    case Add16(_, rd, _, _) => rd == 15
    case AluReg(_, _, rd, _, _, _) => rd == 15
    case AluImm(_, _, rd, _) => rd == 15
    case MoveDirect(t, _, rh, _) => !t && rh == 15
    case MoveIor(t, _, rh, _) => !t && rh == 15
    case MoveInd(io, t, _, rh, rp, _) => rp == 15 || (!io && !t && rh == 15)
    case ShiftOr(rd, _, _) => rd == 15
    case Set24(rd, _) => rd == 15
    case _ => false
  }

  /** The branch mark can be relied on: an unmarked instruction that neither names pc
      nor starts a loop nor writes spc falls through, if it raises no error. */
  lemma UnmarkedFallsThrough(c: C.Core, i: Insn, addr: word)
    requires D.Ordinary(c) && !c.waiting && M.ExecCore(c, i).0.level == c.level
    requires !DisInsn(i, addr).isBranch && !NamesPc(i) && !i.Do? && !i.Illegal? && !(i.MoveIor? && i.t && i.ior == 10)
    ensures D.Straight(c, i)
  {
    MarksMean(i, addr);
    NotTransfer(i);
    D.NonTransferIsStraight(c, i);
    hide *;
  }

  lemma NotTransfer(i: Insn)
    requires !(i.LoopGoto? || i.Call16? || i.Goto24? || i.Call24? || (i.Goto16? && i != Goto16(0, 0, 0)))
    requires !NamesPc(i) && !i.Do? && !i.Illegal? && !(i.MoveIor? && i.t && i.ior == 10)
    ensures !D.MayTransfer(i)
  {
  }
}
