/** The assembler reads back what the disassembler prints. */
module RoundTrip {
  import opened Words
  import opened Insn
  import opened Syntax
  import opened Dis
  import opened Asm
  import opened Canonical

  // ---------------------------------------------------------------------
  // Each operand parser undoes its printer

  lemma RegBack(code: Reg, rest: Toks)
    requires OperandReg(code)
    ensures TryReg(PReg(code, rest)) == Some((code, rest))
  {
  }

  lemma OperandBack(env: Env, code: Reg, rest: Toks)
    requires OperandReg(code)
    ensures OperandOf(env, PReg(code, rest)) == Some((OReg(code), rest))
  {
  }

  lemma NegRegBack(env: Env, code: Reg, rest: Toks)
    requires OperandReg(code)
    ensures OperandOf(env, PNegReg(code, rest)) == Some((ONegReg(code), rest))
  {
  }

  lemma ImmBack(env: Env, n: int, rest: Toks)
    ensures OperandOf(env, PImm(n, rest)) == Some((OImm(n, false, n < 0), rest))
  {
  }

  lemma DecBack(env: Env, n: nat, rest: Toks)
    ensures OperandOf(env, Dec10(n, rest)) == Some((OImm(n, n == 1, false), rest))
  {
  }

  lemma SizeBack(w: U3, rest: Toks)
    requires NamedSize(w) && !AtP(rest, Open)
    ensures TrySize(PSize(w, rest)) == (if w == 7 then NoKw else Kw(w), rest)
  {
  }

  lemma ShortBack(long: bool, rest: Toks)
    requires !AtP(rest, Open)
    ensures TrySize(PShort(long, rest)) == (if long then NoKw else Kw(3), rest)
  {
  }

  // ---------------------------------------------------------------------
  // Register ALU statements

  predicate RegLike(ts: Toks) {
    ts.Cons? && (ts.t.TReg? || ts.t.TSp? || (ts.t.TP? && ts.t.p != Star))
  }

  lemma ConditionBack(env: Env, addr: word, c: Cond, ts: Toks)
    requires RegLike(ts) && NamedCond(c)
    ensures AsmInsn(env, addr, PIf(c, ts)) == EncRegStmt(env, c, ts)
  {
    hide EncRegStmt, EncDa, EncStore, EncIorStmt, EncGotoStmt, EncCallStmt, EncDo, EncLoopGoto, OperandReg;
  }

  lemma AssignBack(env: Env, c: Cond, rd: Reg, rhs: Toks)
    requires OperandReg(rd)
    ensures EncRegStmt(env, c, PReg(rd, P(Equals, rhs))) == EncRegRhs(env, c, rd, rhs)
  {
    OperandBack(env, rd, P(Equals, rhs));
  }

  predicate ArithLike(ts: Toks) {
    ts.Cons? && !AtP(ts, Open) && !AtP(ts, Star) && !ts.t.TIor? && !ts.t.TAcc?
  }

  lemma ArithBack(env: Env, c: Cond, long: bool, rd: Reg, rhs: Toks)
    requires ArithLike(rhs)
    ensures EncRegRhs(env, c, rd, PShort(long, rhs)) == EncArith(env, c, long, rd, rhs)
  {
    ShortBack(long, rhs);
  }

  lemma TestBack(env: Env, i: Insn)
    requires i.AluReg? && AluRegNamed(i) && IsTest(i.f)
    ensures EncRegStmt(env, i.c, PShort(i.long, PBinary(i.rs1, i.f, i.rs2))) == Some(Canon(i))
  {
    var op := P(OpSign(i.f), PReg(i.rs2, End));
    ShortBack(i.long, PReg(i.rs1, op));
    OperandBack(env, i.rs1, op);
    OperandBack(env, i.rs2, End);
  }

  lemma BinaryBack(env: Env, c: Cond, long: bool, rd: Reg, a: Reg, op: Punct, ts: Toks)
    requires OperandReg(a) && op != Inc && op != Dec
    ensures EncArith(env, c, long, rd, PReg(a, P(op, ts))) == EncBinary(env, c, long, rd, a, op, ts)
  {
    OperandBack(env, a, P(op, ts));
  }

  /** The operator of a binary right-hand side, read with its second operand. */
  lemma OneBack(env: Env, c: Cond, long: bool, rd: Reg, a: Reg, op: Punct)
    requires OperandReg(a) && op != Inc && op != Dec && !RotateOf(op).Some? && op != ShiftOrSign
    ensures EncArith(env, c, long, rd, PByOne(a, op))
            == EncOperator(c, long, rd, a, op, OImm(1, true, false))
  {
    hide OperandOf, PReg, EncArith, OperandReg;
    BinaryBack(env, c, long, rd, a, op, Dec10(1, End));
    DecBack(env, 1, End);
  }

  lemma RegOpBack(env: Env, c: Cond, long: bool, rd: Reg, a: Reg, op: Punct, b: Reg)
    requires OperandReg(a) && OperandReg(b) && op != Inc && op != Dec && !RotateOf(op).Some? && op != ShiftOrSign
    ensures EncArith(env, c, long, rd, PReg(a, P(op, PReg(b, End)))) == EncOperator(c, long, rd, a, op, OReg(b))
  {
    hide OperandOf, PReg, EncArith, OperandReg;
    BinaryBack(env, c, long, rd, a, op, PReg(b, End));
    OperandBack(env, b, End);
  }

  lemma AddRhsBack(env: Env, i: Insn)
    requires i.AluReg? && AluRegNamed(i) && i.f == F_ADD && !IsStackBump(i.f, i.rd, i.rs1, i.rs2)
    ensures EncArith(env, i.c, i.long, i.rd, AluRegRhs(i.f, i.rs1, i.rs2)) == Some(Canon(i))
  {
    var c, long, rd, rs1, rs2 := i.c, i.long, i.rd, i.rs1, i.rs2;
    hide OperandOf, PReg, PNegReg, EncArith, OperandReg;
    if rs2 == PLUS {
      OneBack(env, c, long, rd, rs1, PlusSign);
    } else if rs2 == MINUS {
      OneBack(env, c, long, rd, rs1, MinusSign);
    } else if rs1 == rs2 && rs1 != R0 {
      BinaryBack(env, c, long, rd, rs1, Star, Cons(TNum(2, false), End));
      ImmBack(env, 2, End);
    } else if rs2 == R0 {
      MoveBack(env, c, long, rd, rs1);
    } else if rs1 == R0 {
      MoveBack(env, c, long, rd, rs2);
    } else {
      RegOpBack(env, c, long, rd, rs1, PlusSign, rs2);
    }
  }

  lemma SubRhsBack(env: Env, i: Insn)
    requires i.AluReg? && AluRegNamed(i) && i.f == F_SUB
    ensures EncArith(env, i.c, i.long, i.rd, AluRegRhs(i.f, i.rs1, i.rs2)) == Some(Canon(i))
  {
    var c, long, rd, rs1, rs2 := i.c, i.long, i.rd, i.rs1, i.rs2;
    hide OperandOf, PReg, PNegReg, EncArith, OperandReg;
    if rs1 == R0 {
      NegateBack(env, c, long, rd, rs2);
    } else if rs2 == PLUS {
      OneBack(env, c, long, rd, rs1, MinusSign);
    } else if rs2 == MINUS {
      OneBack(env, c, long, rd, rs1, PlusSign);
    } else {
      RegOpBack(env, c, long, rd, rs1, MinusSign, rs2);
    }
  }

  lemma ShiftRhsBack(env: Env, i: Insn)
    requires i.AluReg? && AluRegNamed(i) && (IsRotate(i.f) || IsShift(i.f))
    ensures EncArith(env, i.c, i.long, i.rd, AluRegRhs(i.f, i.rs1, i.rs2)) == Some(Canon(i))
  {
    var f, c, long, rd, rs1, rs2 := i.f, i.c, i.long, i.rd, i.rs1, i.rs2;
    hide OperandOf, PReg, PNegReg, EncArith, OperandReg;
    if IsRotate(f) {
      BinaryBack(env, c, long, rd, rs1, OpSign(f), Dec10(1, End));
    } else if rs2 == PLUS {
      OneBack(env, c, long, rd, rs1, OpSign(f));
    } else {
      RegOpBack(env, c, long, rd, rs1, OpSign(f), rs2);
    }
  }

  predicate IsLogical(f: U4) {
    f == F_CRADD || f == F_ANDC || f == F_XOR || f == F_OR || f == F_AND
  }

  lemma OtherRhsBack(env: Env, i: Insn)
    requires i.AluReg? && AluRegNamed(i) && (i.f == F_RSUB || IsLogical(i.f))
    ensures EncArith(env, i.c, i.long, i.rd, AluRegRhs(i.f, i.rs1, i.rs2)) == Some(Canon(i))
  {
    hide OperandOf, PReg, PNegReg, EncArith, OperandReg;
    if i.f == F_RSUB {
      RegOpBack(env, i.c, i.long, i.rd, i.rs2, MinusSign, i.rs1);
    } else {
      RegOpBack(env, i.c, i.long, i.rd, i.rs1, OpSign(i.f), i.rs2);
    }
  }

  lemma AluRegRhsBack(env: Env, i: Insn)
    requires i.AluReg? && AluRegNamed(i) && !IsTest(i.f) && !IsStackBump(i.f, i.rd, i.rs1, i.rs2)
    ensures EncArith(env, i.c, i.long, i.rd, AluRegRhs(i.f, i.rs1, i.rs2)) == Some(Canon(i))
  {
    hide EncArith, AluRegRhs, Canon;
    if i.f == F_ADD {
      AddRhsBack(env, i);
    } else if i.f == F_SUB {
      SubRhsBack(env, i);
    } else if IsRotate(i.f) || IsShift(i.f) {
      ShiftRhsBack(env, i);
    } else {
      OtherRhsBack(env, i);
    }
  }

  lemma MoveBack(env: Env, c: Cond, long: bool, rd: Reg, rs: Reg)
    requires OperandReg(rs)
    ensures EncArith(env, c, long, rd, PReg(rs, End)) == Some(AluReg(long, F_ADD, rd, rs, c, R0))
  {
    OperandBack(env, rs, End);
  }

  lemma NegateBack(env: Env, c: Cond, long: bool, rd: Reg, rs: Reg)
    requires OperandReg(rs)
    ensures EncArith(env, c, long, rd, PNegReg(rs, End)) == Some(AluReg(long, F_SUB, rd, R0, c, rs))
  {
    NegRegBack(env, rs, End);
  }

  lemma StackBumpBack(env: Env, i: Insn)
    requires i.AluReg? && IsStackBump(i.f, i.rd, i.rs1, i.rs2)
    ensures EncRegStmt(env, i.c,
              Cons(TSp, P(Equals, PShort(i.long, Cons(TSp, P(if i.rs2 == PLUS then Inc else Dec, End))))))
            == Some(i)
  {
    var rhs := Cons(TSp, P(if i.rs2 == PLUS then Inc else Dec, End));
    ArithBack(env, i.c, i.long, SP, rhs);
  }

  lemma AluRegBack(env: Env, addr: word, i: Insn)
    requires i.AluReg? && AluRegNamed(i)
    ensures AsmInsn(env, addr, AluRegText(i)) == Some(Canon(i))
  {
    hide AsmInsn, EncArith, EncRegStmt, EncRegRhs;
    if IsTest(i.f) {
      ConditionBack(env, addr, i.c, PShort(i.long, PBinary(i.rs1, i.f, i.rs2)));
      TestBack(env, i);
    } else if IsStackBump(i.f, i.rd, i.rs1, i.rs2) {
      var stmt := Cons(TSp, P(Equals, PShort(i.long, Cons(TSp, P(if i.rs2 == PLUS then Inc else Dec, End)))));
      ConditionBack(env, addr, i.c, stmt);
      StackBumpBack(env, i);
    } else {
      var rhs := AluRegRhs(i.f, i.rs1, i.rs2);
      ConditionBack(env, addr, i.c, PReg(i.rd, P(Equals, PShort(i.long, rhs))));
      AssignBack(env, i.c, i.rd, PShort(i.long, rhs));
      ArithBack(env, i.c, i.long, i.rd, rhs);
      AluRegRhsBack(env, i);
    }
  }

  // ---------------------------------------------------------------------
  // Immediate ALU statements

  lemma PlainBack(env: Env, addr: word, ts: Toks)
    requires RegLike(ts)
    ensures AsmInsn(env, addr, ts) == EncRegStmt(env, 1, ts)
  {
    hide EncRegStmt, EncDa, EncStore, EncIorStmt, EncGotoStmt, EncCallStmt, EncDo, EncIf;
  }

  lemma AssignArithBack(env: Env, addr: word, long: bool, rd: Reg, rhs: Toks)
    requires OperandReg(rd) && ArithLike(rhs)
    ensures AsmInsn(env, addr, PReg(rd, P(Equals, PShort(long, rhs)))) == EncArith(env, 1, long, rd, rhs)
  {
    PlainBack(env, addr, PReg(rd, P(Equals, PShort(long, rhs))));
    AssignBack(env, 1, rd, PShort(long, rhs));
    ArithBack(env, 1, long, rd, rhs);
  }

  lemma ImmOpBack(env: Env, long: bool, rd: Reg, op: Punct, n: int)
    requires OperandReg(rd) && op != Inc && op != Dec && !RotateOf(op).Some? && op != ShiftOrSign
    ensures EncArith(env, 1, long, rd, PReg(rd, P(op, PImm(n, End))))
            == EncOperator(1, long, rd, rd, op, OImm(n, false, n < 0))
  {
    hide OperandOf, PReg, PImm, EncArith, OperandReg;
    BinaryBack(env, 1, long, rd, rd, op, PImm(n, End));
    ImmBack(env, n, End);
  }

  /** Both 16-bit readings of an immediate encode alike. */
  lemma HalfBack(n: half)
    ensures U16Of(Signed16(n)) == Some(n) && FitsS16(Signed16(n)) && Signed16(n) % 0x1_0000 == n
    ensures Signed16(n) > 0 ==> (-Signed16(n)) % 0x1_0000 == 0x1_0000 - n && FitsS16(-Signed16(n))
    ensures (Signed16(n) == 0 <==> n == 0) && (Signed16(n) < 0 <==> n >= 0x8000)
  {
  }

  predicate AluImmNamed(i: Insn)
    requires i.AluImm?
  {
    i.f != F_RES5 && OperandReg(i.rd)
  }

  lemma ImmTestBack(env: Env, addr: word, i: Insn)
    requires i.AluImm? && AluImmNamed(i) && IsTest(i.f)
    ensures AsmInsn(env, addr, AluImmText(i)) == Some(i)
  {
    var op := P(OpSign(i.f), PImm(Signed16(i.n), End));
    PlainBack(env, addr, PShort(i.long, PReg(i.rd, op)));
    ShortBack(i.long, PReg(i.rd, op));
    OperandBack(env, i.rd, op);
    hide AsmInsn, PReg, PShort, TrySize, OperandOf;
    ImmTestOperand(env, i.long, i.f, i.rd, i.n);
  }

  lemma ImmTestOperand(env: Env, long: bool, f: U4, rd: Reg, n: half)
    requires IsTest(f)
    ensures EncTest(1, if long then NoKw else Kw(3), rd, env, P(OpSign(f), PImm(Signed16(n), End)))
            == Some(AluImm(long, f, rd, n))
  {
    ImmBack(env, Signed16(n), End);
    HalfBack(n);
    hide PImm, OperandOf, Signed16, U16Of;
  }

  lemma ReverseBack(env: Env, long: bool, rd: Reg, n: half)
    requires OperandReg(rd)
    ensures EncArith(env, 1, long, rd, PImm(Signed16(n), P(MinusSign, PReg(rd, End))))
            == Some(AluImm(long, F_RSUB, rd, n))
  {
    hide OperandOf, PReg, PImm, OperandReg, Signed16;
    ImmBack(env, Signed16(n), P(MinusSign, PReg(rd, End)));
    OperandBack(env, rd, End);
    HalfBack(n);
  }

  lemma ImmShiftBack(env: Env, i: Insn)
    requires i.AluImm? && AluImmNamed(i) && (IsShift(i.f) || IsRotate(i.f))
    ensures var k := if IsShift(i.f) then Signed16(i.n) % 32 else 1;
            EncArith(env, 1, i.long, i.rd, PReg(i.rd, P(OpSign(i.f), Dec10(k, End)))) == Some(Canon(i))
  {
    hide OperandOf, PReg, EncArith, OperandReg;
    var k: nat := if IsShift(i.f) then Signed16(i.n) % 32 else 1;
    BinaryBack(env, 1, i.long, i.rd, i.rd, OpSign(i.f), Dec10(k, End));
    DecBack(env, k, End);
    assert Signed16(i.n) % 32 == i.n % 32;
  }

  lemma ImmArithBack(env: Env, i: Insn)
    requires i.AluImm? && OperandReg(i.rd) && (i.f == F_ADD || i.f == F_SUB || IsLogical(i.f))
    ensures EncArith(env, 1, i.long, i.rd, PReg(i.rd, P(OpSign(i.f), PImm(Signed16(i.n), End)))) == Some(Canon(i))
  {
    hide *;
    SignOf(i.f);
    ImmOpBack(env, i.long, i.rd, OpSign(i.f), Signed16(i.n));
    if i.f == F_ADD || i.f == F_SUB {
      AddSubImm(i.long, i.f, i.rd, i.n);
    } else {
      LogicalImm(i.long, i.f, i.rd, i.n);
    }
  }

  lemma SignOf(f: U4)
    requires f == F_ADD || f == F_SUB || IsLogical(f)
    ensures OpSign(f) != Inc && OpSign(f) != Dec && !RotateOf(OpSign(f)).Some? && OpSign(f) != ShiftOrSign
  {
  }

  lemma AddSubImm(long: bool, f: U4, rd: Reg, n: half)
    requires f == F_ADD || f == F_SUB
    ensures var v := Signed16(n);
            EncOperator(1, long, rd, rd, OpSign(f), OImm(v, false, v < 0)) == Some(Canon(AluImm(long, f, rd, n)))
  {
    HalfBack(n);
    hide Signed16, FitsS16, U16Of;
  }

  lemma LogicalImm(long: bool, f: U4, rd: Reg, n: half)
    requires IsLogical(f)
    ensures var v := Signed16(n);
            EncOperator(1, long, rd, rd, OpSign(f), OImm(v, false, v < 0)) == Some(Canon(AluImm(long, f, rd, n)))
  {
    HalfBack(n);
    hide Signed16, FitsS16, U16Of;
    assert LogicalOf(OpSign(f)) == Some(f) && ShiftOf(OpSign(f)).None?;
  }

  lemma AluImmBack(env: Env, addr: word, i: Insn)
    requires i.AluImm? && AluImmNamed(i)
    ensures AsmInsn(env, addr, AluImmText(i)) == Some(Canon(i))
  {
    var n := Signed16(i.n);
    if IsTest(i.f) {
      ImmTestBack(env, addr, i);
    } else if i.f == F_RSUB {
      AssignArithBack(env, addr, i.long, i.rd, PImm(n, P(MinusSign, PReg(i.rd, End))));
      ReverseBack(env, i.long, i.rd, i.n);
    } else if IsShift(i.f) {
      AssignArithBack(env, addr, i.long, i.rd, PReg(i.rd, P(OpSign(i.f), Dec10(n % 32, End))));
      ImmShiftBack(env, i);
    } else if IsRotate(i.f) {
      AssignArithBack(env, addr, i.long, i.rd, PReg(i.rd, P(OpSign(i.f), Dec10(1, End))));
      ImmShiftBack(env, i);
    } else {
      AssignArithBack(env, addr, i.long, i.rd, PReg(i.rd, P(OpSign(i.f), PImm(n, End))));
      ImmArithBack(env, i);
    }
  }

  lemma LoadImmBack(env: Env, long: bool, rd: Reg, n: half)
    ensures EncArith(env, 1, long, rd, PImm(Signed16(n), End)) == Some(Add16(long, rd, R0, n))
  {
    hide OperandOf, PImm, Signed16;
    ImmBack(env, Signed16(n), End);
    HalfBack(n);
  }

  lemma ThreeOperandBack(env: Env, long: bool, rd: Reg, rs3: Reg, n: half)
    requires OperandReg(rs3) && rs3 != R0 && n != 0
    ensures EncArith(env, 1, long, rd, PReg(rs3, PDisp(Signed16(n), End))) == Some(Add16(long, rd, rs3, n))
  {
    var v: int := Signed16(n);
    var op, k := if v < 0 then MinusSign else PlusSign, if v < 0 then -v else v;
    hide OperandOf, PReg, EncArith, OperandReg;
    BinaryBack(env, 1, long, rd, rs3, op, PImm(k, End));
    ImmBack(env, k, End);
    HalfBack(n);
  }

  lemma Add16Back(env: Env, addr: word, i: Insn)
    requires i.Add16? && OperandReg(i.rd) && OperandReg(i.rs3)
    ensures AsmInsn(env, addr, Add16Text(i)) == Some(Canon(i))
  {
    var n := Signed16(i.n);
    hide AsmInsn, EncArith, OperandReg, PReg, PShort;
    if i.rs3 == R0 {
      AssignArithBack(env, addr, i.long, i.rd, PImm(n, End));
      LoadImmBack(env, i.long, i.rd, i.n);
    } else if n == 0 {
      AssignArithBack(env, addr, i.long, i.rd, PReg(i.rs3, End));
      MoveBack(env, 1, i.long, i.rd, i.rs3);
    } else {
      AssignArithBack(env, addr, i.long, i.rd, PReg(i.rs3, PDisp(n, End)));
      ThreeOperandBack(env, i.long, i.rd, i.rs3, i.n);
    }
  }

  // ---------------------------------------------------------------------
  // Moves

  /** Nothing that could extend a memory operand. */
  predicate Quiet(ts: Toks) {
    !AtP(ts, Inc) && !AtP(ts, Dec) && TryReg(ts).None?
  }

  lemma MemBack(rp: Reg, ri: Reg, rest: Toks)
    requires OperandReg(rp) && OperandReg(ri) && Quiet(rest)
    ensures var m := MemOf(PMem(rp, ri, rest));
            m.Some? && m.value.1 == rest && m.value.0.rp == rp && ModReg(m.value.0.mod) == ri
  {
    hide PReg, TryReg, OperandReg;
    if ri == R0 {
      RegBack(rp, rest);
    } else if ri == PLUS {
      RegBack(rp, P(Inc, rest));
    } else if ri == MINUS {
      RegBack(rp, P(Dec, rest));
    } else {
      RegBack(rp, P(Inc, PReg(ri, rest)));
      RegBack(ri, rest);
    }
  }

  lemma NotDirect(rp: Reg, ri: Reg, rest: Toks)
    requires OperandReg(rp)
    ensures !IsDirect(PMem(rp, ri, rest)) && PMem(rp, ri, rest).Cons? && PMem(rp, ri, rest).t == TP(Star)
  {
  }

  lemma StoreSizeBack(w: U3, rh: Reg, rest: Toks)
    requires NamedSize(w) && OperandReg(rh)
    ensures var (kw, ts) := TrySize(PSize(w, PReg(rh, rest)));
            MoveSizeOf(kw) == Some(w) && TryReg(ts) == Some((rh, rest)) && !kw.Ushort24?
            && !(ts.Cons? && ts.t.TIor?) && !AtP(ts, Star) && !AtP(PSize(w, PReg(rh, rest)), Equals)
            && !(PSize(w, PReg(rh, rest)).Cons? && PSize(w, PReg(rh, rest)).t.TAcc?)
  {
    SizeBack(w, PReg(rh, rest));
    RegBack(rh, rest);
  }

  lemma LoadBack(env: Env, addr: word, rd: Reg, rhs: Toks)
    requires OperandReg(rd)
    ensures AsmInsn(env, addr, PReg(rd, P(Equals, rhs))) == EncRegRhs(env, 1, rd, rhs)
  {
    PlainBack(env, addr, PReg(rd, P(Equals, rhs)));
    AssignBack(env, 1, rd, rhs);
  }

  lemma MoveDirectBack(env: Env, addr: word, i: Insn)
    requires i.MoveDirect? && MoveNamed(i)
    ensures AsmInsn(env, addr, MoveText(i)) == Some(i)
  {
    if i.t {
      DirectStoreBack(env, addr, i);
    } else {
      LoadBack(env, addr, i.rh, PSize(i.wsz, P(Star, Hex(i.l, End))));
      SizeBack(i.wsz, P(Star, Hex(i.l, End)));
      hide AsmInsn, PSize, PReg, TrySize, TryReg, OperandReg;
    }
  }

  lemma DirectStoreBack(env: Env, addr: word, i: Insn)
    requires i.MoveDirect? && MoveNamed(i) && i.t
    ensures AsmInsn(env, addr, MoveText(i)) == Some(i)
  {
    StoreSizeBack(i.wsz, i.rh, End);
    var rest := P(Equals, PSize(i.wsz, PReg(i.rh, End)));
    hide PSize, PReg, TrySize, TryReg, OperandReg, NamedSize;
    var v: int := i.l;
    assert Expr(env, false, Hex(i.l, rest)) == Some((v, rest));
    hide Expr;
    assert AsmInsn(env, addr, P(Star, Hex(i.l, rest))) == EncStore(env, P(Star, Hex(i.l, rest)));
    hide AsmInsn;
  }

  lemma MoveIorBack(env: Env, addr: word, i: Insn)
    requires i.MoveIor? && MoveNamed(i)
    ensures AsmInsn(env, addr, MoveText(i)) == Some(i)
  {
    if IsSpcWord(i) {
    } else if i.t {
      StoreSizeBack(i.wsz, i.rh, End);
    } else {
      LoadBack(env, addr, i.rh, PSize(i.wsz, PIor(i.ior, End)));
      SizeBack(i.wsz, PIor(i.ior, End));
    }
  }

  lemma IndLoadBack(env: Env, addr: word, i: Insn)
    requires i.MoveInd? && MoveNamed(i) && !i.t
    ensures AsmInsn(env, addr, MoveText(i)) == Some(i)
  {
    var mem := PMem(i.rp, i.ri, End);
    var rhs := PSize(i.wsz, mem);
    MemBack(i.rp, i.ri, End);
    NotDirect(i.rp, i.ri, End);
    SizeBack(i.wsz, mem);
    hide PMem, PSize, TrySize, MemOf, IsDirect;
    if i.io {
      assert AsmInsn(env, addr, PIor(i.rh, P(Equals, rhs))) == EncIorStmt(i.rh, P(Equals, rhs));
    } else {
      LoadBack(env, addr, i.rh, rhs);
    }
  }

  lemma IndStoreBack(env: Env, addr: word, i: Insn)
    requires i.MoveInd? && MoveNamed(i) && i.t
    ensures AsmInsn(env, addr, MoveText(i)) == Some(i)
  {
    var source := if i.io then PIor(i.rh, End) else PReg(i.rh, End);
    var rest := P(Equals, PSize(i.wsz, source));
    MemBack(i.rp, i.ri, rest);
    NotDirect(i.rp, i.ri, rest);
    if i.io {
      SizeBack(i.wsz, source);
    } else {
      StoreSizeBack(i.wsz, i.rh, End);
    }
    hide PMem, TrySize, MemOf, IsDirect, TryReg;
    assert AsmInsn(env, addr, PMem(i.rp, i.ri, rest)) == EncStore(env, PMem(i.rp, i.ri, rest));
  }

  lemma MoveInsnBack(env: Env, addr: word, i: Insn)
    requires (i.MoveDirect? || i.MoveIor? || i.MoveInd?) && MoveNamed(i)
    ensures AsmInsn(env, addr, MoveText(i)) == Some(i)
  {
    match i
    case MoveDirect(_, _, _, _) => MoveDirectBack(env, addr, i);
    case MoveIor(_, _, _, _) => MoveIorBack(env, addr, i);
    case MoveInd(_, t, _, _, _, _) => if t { IndStoreBack(env, addr, i); } else { IndLoadBack(env, addr, i); }
  }

  // ---------------------------------------------------------------------
  // Branches, loops and 24-bit operands

  /** Nothing that could extend a branch target. */
  predicate Closed(ts: Toks) {
    !AtP(ts, PlusSign) && !AtP(ts, MinusSign)
  }

  lemma TargetBack(env: Env, addr: word, rb: Reg, n: half, rest: Toks)
    requires OperandReg(rb) && Closed(rest)
    ensures var d := DestOf(env, addr, PTarget(rb, Signed16(n), rest));
            d.Some? && d.value.1 == rest && DestReg(d.value.0) == rb && FitsS16(d.value.0.n)
            && d.value.0.n % 0x1_0000 == n
  {
    var v := Signed16(n);
    HalfBack(n);
    if rb == R0 {
      AbsoluteBack(env, addr, n, rest);
    } else {
      hide OperandReg, PReg, Signed16;
      if v == 0 {
        RegBack(rb, rest);
        hide TryReg;
      } else {
        RegBack(rb, PDisp(v, rest));
        hide TryReg;
      }
    }
  }

  lemma AbsoluteBack(env: Env, addr: word, n: half, rest: Toks)
    requires Closed(rest)
    ensures var v := Wrap(Signed16(n));
            && PTarget(R0, Signed16(n), rest) == Hex(v, rest)
            && DestOf(env, addr, Hex(v, rest)) == Some((Absolute(v), rest))
            && FitsS16(v) && v % 0x1_0000 == n
  {
    var v := Wrap(Signed16(n));
    var text := Hex(v, rest);
    assert TryReg(text).None?;
    assert Expr(env, false, text) == Some((v, rest));
  }

  lemma Goto16Back(env: Env, addr: word, i: Insn)
    requires i.Goto16? && NamedCond(i.c) && OperandReg(i.rb)
    ensures AsmInsn(env, addr, Goto16Text(i)) == Some(i)
  {
    var target := PTarget(i.rb, Signed16(i.n), End);
    TargetBack(env, addr, i.rb, i.n, End);
    hide PTarget, DestOf;
    assert EncGotoStmt(env, addr, i.c, target) == Some(i);
  }

  lemma CallTargetBack(env: Env, addr: word, rm: Reg, rb: Reg, n: half)
    requires OperandReg(rb) && OperandReg(rm)
    ensures EncCallStmt(env, addr, PTarget(rb, Signed16(n), P(Open, PReg(rm, P(Close, End))))) == Some(Call16(rm, rb, n))
  {
    TargetBack(env, addr, rb, n, P(Open, PReg(rm, P(Close, End))));
    RegBack(rm, P(Close, End));
    hide PTarget, DestOf, TryReg, Signed16;
  }

  lemma LoopGotoBack(env: Env, addr: word, i: Insn)
    requires i.LoopGoto? && OperandReg(i.rm) && OperandReg(i.rb)
    ensures AsmInsn(env, addr, LoopGotoText(i)) == Some(i)
  {
    var target := PTarget(i.rb, Signed16(i.n), End);
    var tail := P(Dec, P(AtLeast, Cons(TNum(0, false), P(Close, Cons(TKw(KwGoto), target)))));
    TargetBack(env, addr, i.rb, i.n, End);
    RegBack(i.rm, tail);
    hide PTarget, DestOf, Signed16;
    assert AsmInsn(env, addr, LoopGotoText(i)) == EncLoopGoto(env, addr, PReg(i.rm, tail));
    hide TryReg, PReg, AsmInsn, LoopGotoText, OperandReg;
  }

  lemma DoCountBack(env: Env, lock: bool, block: bool, k: Field7, count: Count)
    requires count.CountReg? ==> OperandReg(count.r)
    ensures var text := match count case CountReg(r) => PReg(r, End) case CountImm(l) => Dec10(l, End);
            EncDoCount(env, lock, block, k, text) == Some(Do(lock, block, k, count))
  {
    match count
    case CountReg(r) => RegBack(r, End);
    case CountImm(l) =>
  }

  lemma DoBack(env: Env, addr: word, i: Insn)
    requires i.Do? && !(i.lock && i.block) && (i.count.CountReg? ==> OperandReg(i.count.r))
    ensures AsmInsn(env, addr, DoText(i)) == Some(i)
  {
    var count := match i.count case CountReg(r) => PReg(r, End) case CountImm(l) => Dec10(l, End);
    DoCountBack(env, i.lock, i.block, i.k, i.count);
    hide EncDoCount, OperandReg, TryReg;
    if !i.block || i.k != 0 {
      var text := Dec10(i.k, P(Comma, count));
      assert Expr(env, false, text) == Some((i.k, P(Comma, count)));
      hide Expr;
      assert EncDo(env, i.lock, i.block, text) == EncDoCount(env, i.lock, i.block, i.k, count);
      hide EncDo, PReg;
    } else {
      assert !(count.Cons? && count.t.TNum? && AtP(count.rest, Comma));
      hide Expr;
      assert EncDo(env, i.lock, i.block, count) == EncDoCount(env, i.lock, i.block, 0, count);
      hide EncDo, PReg;
    }
  }

  lemma ShiftOrBack(env: Env, addr: word, i: Insn)
    requires i.ShiftOr? && OperandReg(i.rd) && OperandReg(i.rs)
    ensures AsmInsn(env, addr, DisInsn(i, addr).text) == Some(i)
  {
    hide AsmInsn, EncArith, OperandReg, OperandOf;
    var op := P(ShiftOrSign, Hex(i.n, End));
    assert DisInsn(i, addr).text == PReg(i.rd, P(Equals, PShort(true, PReg(i.rs, op))));
    AssignArithBack(env, addr, true, i.rd, PReg(i.rs, op));
    BinaryBack(env, 1, true, i.rd, i.rs, ShiftOrSign, Hex(i.n, End));
    hide PReg, DisInsn;
    var v: int := i.n;
    assert Expr(env, false, Hex(i.n, End)) == Some((v, End));
  }

  lemma Set24Back(env: Env, addr: word, i: Insn)
    requires i.Set24? && OperandReg(i.rd)
    ensures AsmInsn(env, addr, DisInsn(i, addr).text) == Some(i)
  {
    LoadBack(env, addr, i.rd, P(Open, Cons(TKw(KwUshort24), P(Close, Hex(i.m24, End)))));
  }

  lemma Goto24Back(env: Env, addr: word, i: Insn)
    requires i.Goto24? && OperandReg(i.rb)
    ensures AsmInsn(env, addr, DisInsn(i, addr).text) == Some(Canon(i))
  {
    if i.rb != R0 {
      RegBack(i.rb, P(PlusSign, Hex(i.m24, End)));
    }
  }

  lemma Call24Back(env: Env, addr: word, i: Insn)
    requires i.Call24? && OperandReg(i.rm)
    ensures AsmInsn(env, addr, DisInsn(i, addr).text) == Some(Canon(i))
  {
    var link := P(Open, PReg(i.rm, P(Close, End)));
    RegBack(i.rm, P(Close, End));
    NumberDest(env, addr, i.m24, link);
    assert DisInsn(i, addr).text == Cons(TKw(KwCall), Hex(i.m24, link));
    hide PReg, TryReg, DestOf, DisInsn, OperandReg;
    assert AsmInsn(env, addr, Cons(TKw(KwCall), Hex(i.m24, link))) == EncCallStmt(env, addr, Hex(i.m24, link));
    hide AsmInsn;
  }

  lemma NumberDest(env: Env, addr: word, v: nat, rest: Toks)
    requires Closed(rest)
    ensures DestOf(env, addr, Hex(v, rest)) == Some((Absolute(v), rest))
  {
    var n: int := v;
    assert TryReg(Hex(v, rest)).None?;
    assert Expr(env, false, Hex(v, rest)) == Some((n, rest));
  }

  // ---------------------------------------------------------------------
  // DA statements

  lemma FieldBack(f: Field7, rest: Toks)
    requires OperandField(f) && Quiet(rest)
    ensures DaOperandOf(POperand(f, rest)) == Some((f, rest))
  {
    if PointerField(f) {
      PointerBack(f / 8, f % 8, rest);
    }
  }

  lemma PointerBack(p: Reg, i: U3, rest: Toks)
    requires 1 <= p <= 14 && Quiet(rest)
    ensures var m := MemOf(P(Star, Cons(TReg(p), PPost(i, rest))));
            m.Some? && m.value.1 == rest && MemField(m.value.0) == Some(p * 8 + i)
  {
  }

  /** A printed Z field reads as a pointer field with the same canonical form. */
  lemma ZBack(z: Field7, y: Field7, rest: Toks)
    requires (ZKindOf(z, y).ZNormal? || ZKindOf(z, y).ZThruY?) && Quiet(rest)
    ensures var m := MemOf(PZ(z, y, rest));
            m.Some? && m.value.1 == rest && MemField(m.value.0).Some?
            && ZCanon(MemField(m.value.0).value, y) == CanonZ(z, y)
  {
    if ZKindOf(z, y).ZNormal? {
      PointerBack(z / 8, z % 8, rest);
    } else {
      PointerBack(y / 8, z % 8, rest);
    }
  }

  lemma NoZ(z: Field7, y: Field7)
    requires ZKindOf(z, y).ZNone?
    ensures ZCanon(DA_NOWRITE, y) == CanonZ(z, y)
  {
  }

  /** "Z =" before a DA statement, read with the rest of it. */
  lemma StoreBack(env: Env, addr: word, z: Field7, y: Field7, an: U2, rest: Toks)
    requires !ZKindOf(z, y).ZBad?
    ensures var store := AsmInsn(env, addr, PStore(z, y, PAccEq(an, rest)));
            if ZPrints(z, y) then
              exists s: Field7 :: ZCanon(s, y) == CanonZ(z, y) && store == EncDa(an, Some(s), rest)
            else store == EncDa(an, None, rest) && ZCanon(DA_NOWRITE, y) == CanonZ(z, y)
  {
    hide EncDa;
    if ZPrints(z, y) {
      ZBack(z, y, P(Equals, PAccEq(an, rest)));
      var text := PZ(z, y, P(Equals, PAccEq(an, rest)));
      assert AtP(text, Star) && !IsDirect(text);
      var m := MemOf(text).value.0;
      hide PZ, MemOf, MemField, ZCanon, CanonZ;
      assert AsmInsn(env, addr, text) == EncStore(env, text) == EncDa(an, Some(MemField(m).value), rest);
    } else {
      NoZ(z, y);
    }
  }

  lemma OpTermBack(y: Field7, rest: Toks)
    requires OperandField(y) && Quiet(rest) && !AtP(rest, Star)
    ensures TermOf(POperand(y, rest)) == Some((DOp(y), rest))
  {
    FieldBack(y, rest);
  }

  lemma ProdTermBack(y: Field7, x: Field7, rest: Toks)
    requires OperandField(y) && OperandField(x) && Quiet(rest)
    ensures TermOf(POperand(y, P(Star, POperand(x, rest)))) == Some((DProd(y, x), rest))
  {
    FieldBack(y, P(Star, POperand(x, rest)));
    FieldBack(x, rest);
    hide DaOperandOf;
  }

  lemma TapFields(z: Field7, y: Field7, rest: Toks)
    requires OperandField(y) && ZPrints(z, y) && !ZKindOf(z, y).ZBad?
    ensures var m := MemOf(PZ(z, y, P(Equals, POperand(y, P(Close, rest)))));
            m.Some? && m.value.1 == P(Equals, POperand(y, P(Close, rest)))
            && MemField(m.value.0).Some? && ZCanon(MemField(m.value.0).value, y) == CanonZ(z, y)
            && DaOperandOf(POperand(y, P(Close, rest))) == Some((y, P(Close, rest)))
  {
    ZBack(z, y, P(Equals, POperand(y, P(Close, rest))));
    FieldBack(y, P(Close, rest));
  }

  lemma TapTermBack(z: Field7, y: Field7, rest: Toks) returns (s: Field7)
    requires OperandField(y) && ZPrints(z, y) && !ZKindOf(z, y).ZBad? && !AtP(rest, Star)
    ensures ZCanon(s, y) == CanonZ(z, y) && TermOf(PTap(z, y, rest)) == Some((DTap(s, y), rest))
  {
    TapFields(z, y, rest);
    s := MemField(MemOf(PZ(z, y, P(Equals, POperand(y, P(Close, rest))))).value.0).value;
    hide PZ, MemOf, MemField, DaOperandOf, POperand;
  }

  lemma TapProdTermBack(z: Field7, y: Field7, x: Field7, rest: Toks) returns (s: Field7)
    requires OperandField(y) && OperandField(x) && ZPrints(z, y) && !ZKindOf(z, y).ZBad? && Quiet(rest)
    ensures ZCanon(s, y) == CanonZ(z, y)
    ensures TermOf(PTap(z, y, P(Star, POperand(x, rest)))) == Some((DTapProd(s, y, x), rest))
  {
    var tail := P(Star, POperand(x, rest));
    TapFields(z, y, tail);
    FieldBack(x, rest);
    s := MemField(MemOf(PZ(z, y, P(Equals, POperand(y, P(Close, tail))))).value.0).value;
    hide PZ, MemOf, MemField, DaOperandOf, POperand;
  }

  /** The first token of a term. */
  predicate TermLike(ts: Toks) {
    ts.Cons? && !ts.t.TG? && !AtP(ts, MinusSign) && !AtP(ts, PlusSign) && ts.t != TN
  }

  lemma OneTermBack(an: U2, store: Option<Field7>, neg: bool, text: Toks, t: Term)
    requires TermLike(text) && TermOf(text) == Some((t, End))
    ensures EncDa(an, store, PSign(neg, text)) == EncOneTerm(an, store, neg, t)
  {
    hide TermOf, EncOneTerm;
  }

  lemma TwoTermsBack(an: U2, store: Option<Field7>, neg: bool, text: Toks, t1: Term, ss: bool, text2: Toks, t2: Term)
    requires TermLike(text) && TermOf(text) == Some((t1, PPlusMinus(ss, text2)))
    requires TermOf(text2) == Some((t2, End))
    ensures EncDa(an, store, PSign(neg, text)) == EncTwoTerms(an, store, neg, ss, t1, t2)
  {
    hide TermOf, EncTwoTerms;
  }

  // Each form after its "aN =", with an optional store already read.

  predicate MacNamed(i: Insn)
    requires i.Mac?
  {
    Encodable(i) && MacFieldsOk(i)
  }

  predicate StoreRead(store: Option<Field7>, z: Field7, y: Field7) {
    if ZPrints(z, y) then store.Some? && ZCanon(store.value, y) == CanonZ(z, y)
    else store.None? && ZCanon(DA_NOWRITE, y) == CanonZ(z, y)
  }

  lemma FactorBack(mul: U3, ss: bool, x: Field7) returns (text: Toks, t: Term)
    requires mul <= 5 && OperandField(x) && !(mul == 4 && x == 0)
    ensures t == if mul == 4 then DZeroProd(x) else if mul == 5 then DOp(x) else DProd(mul, x)
    ensures PFactor(mul, ss, x) == PPlusMinus(ss, text) && TermOf(text) == Some((t, End))
    ensures Quiet(PFactor(mul, ss, x)) && !AtP(PFactor(mul, ss, x), Star)
  {
    FieldBack(x, End);
    t := if mul == 4 then DZeroProd(x) else if mul == 5 then DOp(x) else DProd(mul, x);
    if mul == 4 {
      text := Cons(TFnum(0.0), P(Star, POperand(x, End)));
    } else if mul == 5 {
      text := POperand(x, End);
      OpTermBack(x, End);
    } else {
      text := Cons(TAcc(mul % 4), P(Star, POperand(x, End)));
      ProdTermBack(mul, x, End);
    }
  }

  /** Format 1 without a tap. */
  lemma Format1Back(i: Insn, store: Option<Field7>)
    requires i.Mac? && MacNamed(i) && i.fmt == 1 && i.mul != 6 && StoreRead(store, i.z, i.y)
    ensures EncDa(i.an, store, PSign(i.fs, POperand(i.y, PFactor(i.mul, i.ss, i.x)))) == Some(Canon(i))
  {
    var whole := POperand(i.y, PFactor(i.mul, i.ss, i.x));
    assert TermLike(whole);
    hide EncDa, TermOf, Quiet;
    if i.mul == 4 && i.x == 0 {
      QuietEnd();
      OpTermBack(i.y, End);
      OneTermBack(i.an, store, i.fs, whole, DOp(i.y));
    } else {
      var text2, t2 := FactorBack(i.mul, i.ss, i.x);
      OpTermBack(i.y, PFactor(i.mul, i.ss, i.x));
      TwoTermsBack(i.an, store, i.fs, whole, DOp(i.y), i.ss, text2, t2);
      hide POperand, PFactor;
    }
  }

  lemma QuietEnd()
    ensures Quiet(End)
  {
  }

  /** Format 4, the tap form of format 1. */
  lemma Format4Back(i: Insn)
    requires i.Mac? && MacNamed(i) && i.fmt == 1 && i.mul == 6
    ensures EncDa(i.an, None, PSign(i.fs, PTap(i.z, i.y, PPlusMinus(i.ss, POperand(i.x, End))))) == Some(Canon(i))
  {
    var text2 := POperand(i.x, End);
    var rest := PPlusMinus(i.ss, text2);
    OpTermBack(i.x, End);
    if ZPrints(i.z, i.y) {
      var s := TapTermBack(i.z, i.y, rest);
      hide TermOf, PZ, POperand;
      TwoTermsBack(i.an, None, i.fs, PTap(i.z, i.y, rest), DTap(s, i.y), i.ss, text2, DOp(i.x));
    } else {
      OpTermBack(i.y, rest);
      NoZ(i.z, i.y);
      TwoTermsBack(i.an, None, i.fs, POperand(i.y, rest), DOp(i.y), i.ss, text2, DOp(i.x));
    }
  }

  /** Format 3, and format 2 with nothing written. */
  lemma Format3Back(i: Insn, store: Option<Field7>)
    requires i.Mac? && MacNamed(i) && (i.fmt == 3 || (i.fmt == 2 && !ZPrints(i.z, i.y)))
    requires StoreRead(store, i.z, i.y)
    ensures EncDa(i.an, store, PSum(i.fs, i.ss, i.mul, POperand(i.y, P(Star, POperand(i.x, End))))) == Some(Canon(i))
  {
    var product := POperand(i.y, P(Star, POperand(i.x, End)));
    ProdTermBack(i.y, i.x, End);
    assert TermLike(product);
    SumBack(i.an, store, i.fs, i.ss, i.mul, product, DProd(i.y, i.x));
  }

  lemma SumBack(an: U2, store: Option<Field7>, fs: bool, ss: bool, mul: U3, product: Toks, t: Term)
    requires mul <= 5 && TermLike(product) && TermOf(product) == Some((t, End))
    ensures var adder := if mul == 4 then DZero else if mul == 5 then DOne else DOp(mul);
            EncDa(an, store, PSum(fs, ss, mul, product))
            == if mul == 4 && !fs then EncOneTerm(an, store, ss, t) else EncTwoTerms(an, store, fs, ss, adder, t)
  {
    hide EncDa, EncOneTerm, EncTwoTerms;
    if mul == 4 && !fs {
      OneTermBack(an, store, ss, product, t);
    } else {
      var text := Cons(if mul == 4 then TFnum(0.0) else if mul == 5 then TFnum(1.0) else TAcc(mul % 4),
                       PPlusMinus(ss, product));
      var adder := if mul == 4 then DZero else if mul == 5 then DOne else DOp(mul);
      assert TermOf(text) == Some((adder, PPlusMinus(ss, product)));
      TwoTermsBack(an, store, fs, text, adder, ss, product, t);
    }
  }

  /** Format 2 with its tap. */
  lemma Format2Back(i: Insn)
    requires i.Mac? && MacNamed(i) && i.fmt == 2 && ZPrints(i.z, i.y)
    ensures EncDa(i.an, None, PSum(i.fs, i.ss, i.mul, PTap(i.z, i.y, P(Star, POperand(i.x, End))))) == Some(Canon(i))
  {
    var s := TapProdTermBack(i.z, i.y, i.x, End);
    var product := PTap(i.z, i.y, P(Star, POperand(i.x, End)));
    assert TermLike(product);
    hide TermOf, PTap, POperand;
    SumBack(i.an, None, i.fs, i.ss, i.mul, product, DTapProd(s, i.y, i.x));
  }

  /** The statement before "aN =" is empty for the tap forms. */
  lemma TapStatementBack(env: Env, addr: word, an: U2, rest: Toks)
    ensures AsmInsn(env, addr, PAccEq(an, rest)) == EncDa(an, None, rest)
  {
    hide EncDa;
  }

  lemma StoreReadBack(env: Env, addr: word, i: Insn, rest: Toks) returns (store: Option<Field7>)
    requires (i.Mac? || i.Special?) && !ZKindOf(i.z, i.y).ZBad?
    ensures AsmInsn(env, addr, PStore(i.z, i.y, PAccEq(i.an, rest))) == EncDa(i.an, store, rest)
    ensures StoreRead(store, i.z, i.y)
  {
    StoreBack(env, addr, i.z, i.y, i.an, rest);
    hide EncDa, PStore, AsmInsn, ZCanon, CanonZ;
    if ZPrints(i.z, i.y) {
      var text := PStore(i.z, i.y, PAccEq(i.an, rest));
      var s: Field7 :| ZCanon(s, i.y) == CanonZ(i.z, i.y) && AsmInsn(env, addr, text) == EncDa(i.an, Some(s), rest);
      store := Some(s);
    } else {
      store := None;
    }
  }

  lemma MacBack(env: Env, addr: word, i: Insn)
    requires i.Mac? && MacNamed(i)
    ensures AsmInsn(env, addr, MacText(i)) == Some(Canon(i))
  {
    hide AsmInsn, EncDa, Canon, POperand, PStore, PTap;
    if i.fmt == 1 && i.mul == 6 {
      TapStatementBack(env, addr, i.an, PSign(i.fs, PTap(i.z, i.y, PPlusMinus(i.ss, POperand(i.x, End)))));
      Format4Back(i);
    } else if i.fmt == 1 {
      var store := StoreReadBack(env, addr, i, PSign(i.fs, POperand(i.y, PFactor(i.mul, i.ss, i.x))));
      Format1Back(i, store);
    } else if i.fmt == 2 && ZPrints(i.z, i.y) {
      TapStatementBack(env, addr, i.an, PSum(i.fs, i.ss, i.mul, PTap(i.z, i.y, P(Star, POperand(i.x, End)))));
      Format2Back(i);
    } else {
      Format3MacBack(env, addr, i);
    }
  }

  lemma Format3MacBack(env: Env, addr: word, i: Insn)
    requires i.Mac? && MacNamed(i) && (i.fmt == 3 || (i.fmt == 2 && !ZPrints(i.z, i.y)))
    ensures AsmInsn(env, addr, MacText(i)) == Some(Canon(i))
  {
    hide AsmInsn, EncDa, Canon, POperand;
    var product := POperand(i.y, P(Star, POperand(i.x, End)));
    var sum := PSum(i.fs, i.ss, i.mul, product);
    var store := StoreReadBack(env, addr, i, sum);
    assert MacText(i) == PStore(i.z, i.y, PAccEq(i.an, sum));
    Format3Back(i, store);
  }

  lemma SpecialBack(env: Env, addr: word, i: Insn)
    requires i.Special? && NamedG(i.g) && OperandField(i.y) && !ZKindOf(i.z, i.y).ZBad?
    ensures AsmInsn(env, addr, SpecialText(i)) == Some(Canon(i))
  {
    var call := Cons(TG(i.g), P(Open, POperand(i.y, P(Close, End))));
    var store := StoreReadBack(env, addr, i, call);
    FieldBack(i.y, P(Close, End));
    hide AsmInsn, POperand, PStore, DaOperandOf;
  }

  // ---------------------------------------------------------------------
  // The round trip, instruction by instruction

  /** The assembler accepts every clean disassembly, and reads the canonical
      form out of it. */
  lemma AsmOfDis(env: Env, addr: word, i: Insn)
    requires Encodable(i) && Printable(i)
    ensures AsmInsn(env, addr, DisInsn(i, addr).text) == Some(Canon(i))
  {
    hide AsmInsn, MacText, SpecialText, AluRegText, AluImmText, Add16Text, MoveText, DoText;
    match i
    case Mac(_, _, _, _, _, _, _, _) => MacBack(env, addr, i);
    case Special(_, _, _, _) => SpecialBack(env, addr, i);
    case AluReg(_, _, _, _, _, _) => AluRegBack(env, addr, i);
    case AluImm(_, _, _, _) => AluImmBack(env, addr, i);
    case Add16(_, _, _, _) => Add16Back(env, addr, i);
    case MoveDirect(_, _, _, _) => MoveInsnBack(env, addr, i);
    case MoveIor(_, _, _, _) => MoveInsnBack(env, addr, i);
    case MoveInd(_, _, _, _, _, _) => MoveInsnBack(env, addr, i);
    case Do(_, _, _, _) => DoBack(env, addr, i);
    case Goto16(_, _, _) => Goto16Back(env, addr, i);
    case LoopGoto(_, _, _) => LoopGotoBack(env, addr, i);
    case Call16(rm, rb, n) => CallBack(env, addr, i);
    case ShiftOr(_, _, _) => ShiftOrBack(env, addr, i);
    case Set24(_, _) => Set24Back(env, addr, i);
    case Goto24(_, _) => Goto24Back(env, addr, i);
    case Call24(_, _) => Call24Back(env, addr, i);
  }

  lemma CallBack(env: Env, addr: word, i: Insn)
    requires i.Call16? && OperandReg(i.rm) && OperandReg(i.rb)
    ensures AsmInsn(env, addr, DisInsn(i, addr).text) == Some(i)
  {
    CallTargetBack(env, addr, i.rm, i.rb, i.n);
    hide EncCallStmt, PTarget;
  }
}
