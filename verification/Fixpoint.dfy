/** Canonicalisation: the re-assembled instruction prints the same line, and is
    a fixed point. */
module Fixpoint {
  import opened Words
  import opened Insn
  import opened Syntax
  import opened Dis
  import opened DisClean
  import opened Asm
  import opened Canonical
  import opened RoundTrip

  /** "rB+0x0": the one spelling the assembler does not give back. */
  predicate ZeroDisplacement(i: Insn) {
    i.Goto24? && i.m24 == 0 && i.rb != R0
  }

  lemma CanonFormed(i: Insn)
    requires Encodable(i) && Printable(i)
    ensures Encodable(Canon(i)) && Printable(Canon(i))
  {
    hide OperandReg;
    NamesOfConstants();
  }

  lemma NamesOfConstants()
    ensures OperandReg(0) && OperandReg(PLUS) && OperandReg(MINUS)
  {
  }

  lemma CanonIdempotent(i: Insn)
    requires Encodable(i) && Printable(i)
    ensures Canon(Canon(i)) == Canon(i)
  {
    hide OperandReg;
    match i
    case Mac(_, _, _, _, _, _, _, _) => CanonMacIdempotent(i);
    case Special(_, _, y, z) => CanonZIdempotent(z, y);
    case AluReg(_, _, _, _, _, _) =>
    case _ =>
  }

  lemma CanonZIdempotent(z: Field7, y: Field7)
    requires !ZKindOf(z, y).ZBad? && OperandField(y)
    ensures CanonZ(CanonZ(z, y), y) == CanonZ(z, y) && ZPrints(CanonZ(z, y), y) == ZPrints(z, y)
    ensures !ZKindOf(CanonZ(z, y), y).ZBad?
  {
  }

  lemma CanonMacIdempotent(i: Insn)
    requires i.Mac? && Encodable(i) && Printable(i)
    ensures Canon(Canon(i)) == Canon(i)
  {
    CanonZIdempotent(i.z, i.y);
  }

  // ---------------------------------------------------------------------
  // The canonical form prints the same line

  lemma CanonZPrints(z: Field7, y: Field7, rest: Toks)
    requires !ZKindOf(z, y).ZBad? && OperandField(y)
    ensures PStore(CanonZ(z, y), y, rest) == PStore(z, y, rest)
    ensures PTap(CanonZ(z, y), y, rest) == PTap(z, y, rest)
  {
    CanonZIdempotent(z, y);
    if ZPrints(z, y) {
      CanonZPz(z, y, P(Equals, rest));
      CanonZPz(z, y, P(Equals, POperand(y, P(Close, rest))));
    }
  }

  lemma CanonZPz(z: Field7, y: Field7, rest: Toks)
    requires !ZKindOf(z, y).ZBad? && OperandField(y) && ZPrints(z, y)
    ensures PZ(CanonZ(z, y), y, rest) == PZ(z, y, rest)
  {
  }

  lemma CanonMacPrints(i: Insn)
    requires i.Mac? && Encodable(i) && Printable(i)
    ensures MacText(Canon(i)) == MacText(i)
  {
    var j := Canon(i);
    CanonZIdempotent(i.z, i.y);
    if i.fmt == 1 {
      var tail := PAccEq(i.an, PSign(i.fs, POperand(i.y, PFactor(i.mul, i.ss, i.x))));
      CanonZPrints(i.z, i.y, tail);
      CanonZPrints(i.z, i.y, PPlusMinus(i.ss, POperand(i.x, End)));
      hide CanonZ, ZKindOf, POperand;
    } else {
      var x := P(Star, POperand(i.x, End));
      CanonZPrints(i.z, i.y, x);
      CanonZPrints(i.z, i.y, PAccEq(i.an, PSum(i.fs, i.ss, i.mul, POperand(i.y, x))));
      if j.fmt == 1 {
        assert i.z / 8 == 0 || ZKindOf(i.z, i.y) == ZKindOf(i.z, i.mul);
        CanonZPrints(i.z, i.mul, PAccEq(i.an, PSum(i.fs, i.ss, i.mul, POperand(i.y, x))));
      } else {
        hide CanonZ, ZKindOf, POperand;
      }
    }
  }

  lemma CanonAluRegPrints(i: Insn)
    requires i.AluReg? && Printable(i)
    ensures DisInsn(Canon(i), 0) == DisInsn(i, 0)
  {
    hide PReg, PNegReg, OperandReg;
    assert Signed16(1) % 32 == 1;
    if IsTest(i.f) {
    } else if i.f == F_ADD {
    } else if i.f == F_SUB {
    } else if i.f == F_RSUB {
    } else if IsRotate(i.f) {
    } else if Canon(i).AluImm? {
      assert PIf(1, AluImmText(Canon(i))) == AluImmText(Canon(i));
    } else {
    }
  }

  lemma CanonAluImmPrints(i: Insn)
    requires i.AluImm? && Printable(i)
    ensures DisInsn(Canon(i), 0) == DisInsn(i, 0)
  {
    hide PReg, OperandReg;
    ImmReadings(i.n);
    hide Signed16;
    if IsTest(i.f) {
    } else if IsShift(i.f) {
    } else if IsRotate(i.f) {
    } else if i.f == F_ADD {
    } else if i.f == F_SUB {
    } else {
    }
  }

  lemma ImmReadings(n: half)
    ensures Signed16(n) % 32 == n % 32 && Signed16(n % 32) == n % 32
    ensures Signed16(n) > 0 ==> n < 0x8000 && Signed16(0x1_0000 - n) == -Signed16(n)
    ensures Signed16(n) == 0 ==> n == 0
  {
  }

  lemma SameLineAnywhere(i: Insn, j: Insn, addr: word)
    requires DisInsn(i, 0) == DisInsn(j, 0)
    requires i.AluReg? || i.AluImm?
    requires j.AluReg? || j.AluImm? || j.Add16?
    ensures DisInsn(i, addr) == DisInsn(j, addr)
  {
  }

  /** Re-assembly leaves the printed line alone: text, class, branch marks and
      target; with the exception of "rB+0x0", which loses its displacement. */
  lemma DisOfCanon(i: Insn, addr: word)
    requires Encodable(i) && Printable(i)
    ensures DisInsn(Canon(i), addr) == DisInsn(i, addr) <==> !ZeroDisplacement(i)
  {
    hide MacText, PReg, OperandReg;
    match i
    case Mac(_, _, _, _, _, _, _, _) =>
      CanonMacPrints(i);
      CanonFormed(i);
    case Special(_, _, y, z) =>
      CanonZIdempotent(z, y);
      CanonZPrints(z, y, PAccEq(i.an, Cons(TG(i.g), P(Open, POperand(y, P(Close, End))))));
    case AluReg(_, _, _, _, _, _) =>
      CanonAluRegPrints(i);
      SameLineAnywhere(i, Canon(i), addr);
    case AluImm(_, _, _, _) =>
      CanonAluImmPrints(i);
      SameLineAnywhere(i, Canon(i), addr);
    case Goto24(rb, m) => CanonGotoPrints(i, addr);
    case _ =>
  }

  lemma CanonGotoPrints(i: Insn, addr: word)
    requires i.Goto24? && Printable(i)
    ensures DisInsn(Canon(i), addr) == DisInsn(i, addr) <==> !ZeroDisplacement(i)
  {
  }

  // ---------------------------------------------------------------------
  // Fixed points

  predicate CanonicalZ(z: Field7, y: Field7) {
    if z / 8 == 0 then z == DA_NOWRITE
    else if z / 8 == 15 then PointerField(y)
    else z / 8 != y / 8
  }

  /** No alias of a canonical encoding: what the assembler writes for its own
      disassembly. */
  predicate IsCanonical(i: Insn) {
    match i
    case AluReg(long, f, rd, rs1, c, rs2) =>
      if IsTest(f) then rd == 0
      else if f == F_ADD then !(rs1 == R0 && rs2 != R0 && !IsPseudo(rs2))
      else if f == F_SUB then rs1 == R0 || !IsPseudo(rs2) || (rd == SP && rs1 == SP)
      else if f == F_RSUB then IsPseudo(rs1) || rs2 == R0
      else if IsRotate(f) then rs2 == R0
      else !(IsShift(f) && rs2 == PLUS && rs1 == rd && c == 1)
    case AluImm(long, f, rd, n) =>
      if IsShift(f) then n < 32
      else if IsRotate(f) then false
      else !((f == F_ADD || f == F_SUB) && 0 < n < 0x8000 && rd != R0)
    case Add16(_, _, rs3, n) => rs3 == R0 || n != 0
    case Goto24(_, m) => m > 0x7FFF
    case Call24(_, m) => m > 0x7FFF
    case Special(_, _, y, z) => CanonicalZ(z, y)
    case Mac(fmt, mul, _, ss, _, x, y, z) =>
      CanonicalZ(z, y) &&
      if fmt == 1 then !(mul == 6 && z == DA_NOWRITE) && !(mul == 4 && x == 0 && ss)
      else if fmt == 2 then z != DA_NOWRITE
      else !(mul < 4 && AccField(y))
    case _ => true
  }

  lemma CanonicalZIff(z: Field7, y: Field7)
    requires !ZKindOf(z, y).ZBad? && OperandField(y)
    ensures CanonZ(z, y) == z <==> CanonicalZ(z, y)
    ensures CanonicalZ(z, y) ==> (ZPrints(z, y) <==> z != DA_NOWRITE)
  {
  }

  /** Re-assembly reproduces an instruction exactly when it is canonical. */
  lemma FixedPointIff(i: Insn)
    requires Encodable(i) && Printable(i)
    ensures Canon(i) == i <==> IsCanonical(i)
  {
    hide OperandReg;
    match i
    case Mac(_, _, _, _, _, _, y, z) =>
      CanonicalZIff(z, y);
      hide CanonZ, CanonicalZ;
    case Special(_, _, y, z) => CanonicalZIff(z, y);
    case AluImm(_, _, _, n) => HalfBack(n);
    case AluReg(_, f, _, _, _, _) =>
    case _ =>
  }

  /** The assembler's own output is not always canonical: "r3 = r0 + r5" is
      accepted as it stands, but its word prints as "r3 = r5". */
  lemma OutputNotAlwaysFixed(env: Env, addr: word)
    ensures var text := Cons(TReg(3), P(Equals, Cons(TReg(0), P(PlusSign, Cons(TReg(5), End)))));
            var i := AluReg(true, F_ADD, 3, 0, 1, 5);
            && AsmInsn(env, addr, text) == Some(i)
            && DisInsn(i, addr).text == Cons(TReg(3), P(Equals, Cons(TReg(5), End)))
            && AsmInsn(env, addr, DisInsn(i, addr).text) == Some(AluReg(true, F_ADD, 3, 5, 1, 0))
  {
    PlusText(env, addr);
    AsmOfDis(env, addr, AluReg(true, F_ADD, 3, 0, 1, 5));
    hide AsmInsn;
  }

  lemma PlusText(env: Env, addr: word)
    ensures AsmInsn(env, addr, Cons(TReg(3), P(Equals, PBinary(0, F_ADD, 5)))) == Some(AluReg(true, F_ADD, 3, 0, 1, 5))
  {
    AssignArithBack(env, addr, true, 3, PBinary(0, F_ADD, 5));
    RegOpBack(env, 1, true, 3, 0, PlusSign, 5);
    PlusOfRegs();
    hide AsmInsn, EncArith, EncOperator;
  }

  lemma PlusOfRegs()
    ensures EncOperator(1, true, 3, 0, PlusSign, OReg(5)) == Some(AluReg(true, F_ADD, 3, 0, 1, 5))
  {
  }
}
