/** Which words decode cleanly: exactly those whose printed fields all have
    names. */
module DisClean {
  import opened Words
  import opened Insn
  import opened Syntax
  import opened Dis

  lemma CleanTok(t: Tok, rest: Toks)
    ensures AllLexical(Cons(t, rest)) <==> Lexical(t) && AllLexical(rest)
  {
  }

  lemma CleanP(p: Punct, rest: Toks)
    ensures AllLexical(P(p, rest)) <==> AllLexical(rest)
  {
  }

  lemma CleanEnd()
    ensures AllLexical(End)
  {
  }

  /** A printed register is clean only when it has a name. */
  lemma CleanReg(code: Reg, rest: Toks)
    ensures AllLexical(PReg(code, rest)) <==> OperandReg(code) && AllLexical(rest)
  {
    if code == MINUS || code == PLUS {
      CleanTok(TN, rest);
      CleanTok(PReg(code, rest).t, Cons(TN, rest));
    }
  }

  lemma CleanNegReg(code: Reg, rest: Toks)
    ensures AllLexical(PNegReg(code, rest)) <==> OperandReg(code) && AllLexical(rest)
  {
    CleanTok(TN, rest);
    CleanP(Dec, Cons(TN, rest));
    CleanReg(code, rest);
    CleanP(MinusSign, PReg(code, rest));
  }

  lemma CleanNumber(n: int, rest: Toks)
    ensures AllLexical(PImm(n, rest)) == AllLexical(rest) && AllLexical(PDisp(n, rest)) == AllLexical(rest)
  {
    var v: nat := if n < 0 then -1 * n else n;
    CleanTok(TNum(v, false), rest);
    CleanP(MinusSign, Hex(v, rest));
    CleanP(PlusSign, Hex(v, rest));
  }

  lemma CleanSize(w: U3, rest: Toks)
    ensures AllLexical(PSize(w, rest)) <==> NamedSize(w) && AllLexical(rest)
  {
    var t := if NamedSize(w) then TSize(w) else TBad;
    CleanP(Close, rest);
    CleanTok(t, P(Close, rest));
    CleanP(Open, Cons(t, P(Close, rest)));
  }

  lemma CleanShort(long: bool, rest: Toks)
    ensures AllLexical(PShort(long, rest)) == AllLexical(rest)
  {
    CleanP(Close, rest);
    CleanTok(TSize(3), P(Close, rest));
    CleanP(Open, Cons(TSize(3), P(Close, rest)));
  }

  lemma CleanTarget(rb: Reg, n: int, rest: Toks)
    requires -0x8000 <= n <= 0x7FFF
    ensures AllLexical(PTarget(rb, n, rest)) <==> OperandReg(rb) && AllLexical(rest)
  {
    CleanTok(TNum(Wrap(n), false), rest);
    CleanNumber(n, rest);
    CleanReg(rb, rest);
    CleanReg(rb, PDisp(n, rest));
  }

  lemma CleanMem(rp: Reg, ri: Reg, rest: Toks)
    ensures AllLexical(PMem(rp, ri, rest)) <==> OperandReg(rp) && OperandReg(ri) && AllLexical(rest)
  {
    var tail := if ri == R0 then rest
                else if ri == PLUS then P(Inc, rest)
                else if ri == MINUS then P(Dec, rest)
                else P(Inc, PReg(ri, rest));
    CleanP(Inc, rest);
    CleanP(Dec, rest);
    CleanReg(ri, rest);
    CleanP(Inc, PReg(ri, rest));
    CleanReg(rp, tail);
    CleanP(Star, PReg(rp, tail));
    hide AllLexical;
  }

  lemma CleanPointer(p: Reg, i: U3, rest: Toks)
    requires 1 <= p <= 14
    ensures AllLexical(P(Star, Cons(TReg(p), PPost(i, rest)))) == AllLexical(rest)
  {
    CleanP(Dec, rest);
    CleanP(Inc, rest);
    if 1 <= i <= 5 {
      CleanTok(TReg(16 + i), rest);
      CleanP(Inc, Cons(TReg(16 + i), rest));
    }
    CleanTok(TReg(p), PPost(i, rest));
    CleanP(Star, Cons(TReg(p), PPost(i, rest)));
  }

  lemma CleanOperand(f: Field7, rest: Toks)
    ensures AllLexical(POperand(f, rest)) <==> OperandField(f) && AllLexical(rest)
  {
    if AccField(f) {
      CleanTok(TAcc(f % 8), rest);
    } else if PointerField(f) {
      CleanPointer(f / 8, f % 8, rest);
    } else {
      CleanTok(TBad, rest);
    }
  }

  lemma CleanStore(z: Field7, y: Field7, rest: Toks)
    requires !ZKindOf(z, y).ZBad?
    ensures AllLexical(PStore(z, y, rest)) == AllLexical(rest)
  {
    CleanP(Equals, rest);
    if ZKindOf(z, y).ZNormal? {
      CleanOperand(z, P(Equals, rest));
    } else if ZKindOf(z, y).ZThruY? {
      CleanPointer(y / 8, z % 8, P(Equals, rest));
    }
  }

  lemma CleanTap(z: Field7, y: Field7, rest: Toks)
    requires !ZKindOf(z, y).ZBad? && OperandField(y)
    ensures AllLexical(PTap(z, y, rest)) == AllLexical(rest)
  {
    var inner := POperand(y, P(Close, rest));
    CleanP(Close, rest);
    CleanOperand(y, P(Close, rest));
    CleanOperand(y, rest);
    CleanStore(z, y, inner);
    CleanP(Open, PZ(z, y, P(Equals, inner)));
    hide AllLexical, POperand, PZ;
  }

  lemma CleanPrefix(an: U2, minus: bool, rest: Toks)
    ensures AllLexical(PAccEq(an, rest)) == AllLexical(rest)
    ensures AllLexical(PSign(minus, rest)) == AllLexical(rest) && AllLexical(PPlusMinus(minus, rest)) == AllLexical(rest)
  {
    CleanP(Equals, rest);
    CleanTok(TAcc(an), P(Equals, rest));
    CleanP(MinusSign, rest);
    CleanP(PlusSign, rest);
  }

  lemma CleanFactor(mul: U3, ss: bool, x: Field7)
    requires (mul == 4 && x == 0) || OperandField(x)
    ensures AllLexical(PFactor(mul, ss, x))
  {
    var text := POperand(x, End);
    CleanEnd();
    CleanOperand(x, End);
    CleanP(Star, text);
    CleanTok(TFnum(0.0), P(Star, text));
    CleanTok(TAcc(mul % 4), P(Star, text));
    CleanPrefix(0, ss, text);
    CleanPrefix(0, ss, Cons(TFnum(0.0), P(Star, text)));
    CleanPrefix(0, ss, Cons(TAcc(mul % 4), P(Star, text)));
    hide AllLexical, POperand;
  }

  lemma CleanSum(fs: bool, ss: bool, mul: U3, product: Toks)
    ensures AllLexical(PSum(fs, ss, mul, product)) == AllLexical(product)
  {
    var t := if mul == 4 then TFnum(0.0) else if mul == 5 then TFnum(1.0) else TAcc(mul % 4);
    CleanPrefix(0, ss, product);
    CleanTok(t, PPlusMinus(ss, product));
    CleanPrefix(0, fs, Cons(t, PPlusMinus(ss, product)));
    CleanP(MinusSign, Cons(t, PPlusMinus(ss, product)));
    hide AllLexical;
  }

  lemma CleanMac(i: Insn)
    requires i.Mac? && MacFieldsOk(i)
    ensures AllLexical(MacText(i))
  {
    hide AllLexical, POperand, PFactor, PStore, PTap, PSum;
    CleanEnd();
    if i.fmt == 1 && i.mul == 6 {
      var x := POperand(i.x, End);
      CleanOperand(i.x, End);
      CleanPrefix(i.an, i.ss, x);
      CleanTap(i.z, i.y, PPlusMinus(i.ss, x));
      CleanPrefix(i.an, i.fs, PTap(i.z, i.y, PPlusMinus(i.ss, x)));
      CleanPrefix(i.an, i.fs, PSign(i.fs, PTap(i.z, i.y, PPlusMinus(i.ss, x))));
    } else if i.fmt == 1 {
      var y := POperand(i.y, PFactor(i.mul, i.ss, i.x));
      CleanFactor(i.mul, i.ss, i.x);
      CleanOperand(i.y, PFactor(i.mul, i.ss, i.x));
      CleanPrefix(i.an, i.fs, y);
      CleanPrefix(i.an, i.fs, PSign(i.fs, y));
      CleanStore(i.z, i.y, PAccEq(i.an, PSign(i.fs, y)));
    } else {
      var x := P(Star, POperand(i.x, End));
      CleanOperand(i.x, End);
      CleanP(Star, POperand(i.x, End));
      CleanTap(i.z, i.y, x);
      CleanOperand(i.y, x);
      var product := if i.fmt == 2 then PTap(i.z, i.y, x) else POperand(i.y, x);
      CleanSum(i.fs, i.ss, i.mul, product);
      CleanPrefix(i.an, false, PSum(i.fs, i.ss, i.mul, product));
      CleanStore(i.z, i.y, PAccEq(i.an, PSum(i.fs, i.ss, i.mul, product)));
    }
  }

  lemma CleanSpecial(i: Insn)
    requires i.Special? && NamedG(i.g) && OperandField(i.y) && !ZKindOf(i.z, i.y).ZBad?
    ensures AllLexical(SpecialText(i))
  {
    var y := POperand(i.y, P(Close, End));
    hide POperand, PStore;
    CleanEnd();
    CleanP(Close, End);
    CleanOperand(i.y, P(Close, End));
    CleanP(Open, y);
    CleanTok(TG(i.g), P(Open, y));
    CleanPrefix(i.an, false, Cons(TG(i.g), P(Open, y)));
    CleanStore(i.z, i.y, PAccEq(i.an, Cons(TG(i.g), P(Open, y))));
    hide AllLexical;
  }

  lemma CleanIf(c: Cond, rest: Toks)
    ensures AllLexical(PIf(c, rest)) <==> NamedCond(c) && AllLexical(rest)
  {
    var t := if NamedCond(c) then TCond(c) else TBad;
    CleanP(Close, rest);
    CleanTok(t, P(Close, rest));
    CleanP(Open, Cons(t, P(Close, rest)));
    CleanTok(TKw(KwIf), P(Open, Cons(t, P(Close, rest))));
    hide AllLexical;
  }

  lemma CleanAssign(long: bool, rd: Reg, rhs: Toks)
    ensures AllLexical(PReg(rd, P(Equals, PShort(long, rhs)))) <==> OperandReg(rd) && AllLexical(rhs)
  {
    CleanShort(long, rhs);
    CleanP(Equals, PShort(long, rhs));
    CleanReg(rd, P(Equals, PShort(long, rhs)));
    hide AllLexical, PReg;
  }

  lemma CleanBinary(a: Reg, f: U4, b: Reg)
    ensures AllLexical(PBinary(a, f, b)) <==> OperandReg(a) && OperandReg(b)
  {
    CleanEnd();
    CleanReg(b, End);
    CleanP(OpSign(f), PReg(b, End));
    CleanReg(a, P(OpSign(f), PReg(b, End)));
    hide AllLexical, PReg;
  }

  lemma CleanByOne(a: Reg, sign: Punct, k: nat)
    ensures AllLexical(PReg(a, P(sign, Dec10(k, End)))) <==> OperandReg(a)
  {
    CleanEnd();
    CleanTok(TNum(k, k == 1), End);
    CleanP(sign, Dec10(k, End));
    CleanReg(a, P(sign, Dec10(k, End)));
    hide AllLexical, PReg;
  }

  lemma CleanAluRhs(f: U4, rs1: Reg, rs2: Reg)
    ensures AllLexical(AluRegRhs(f, rs1, rs2)) <==> OperandReg(rs1) && (IsRotate(f) || OperandReg(rs2))
  {
    hide AllLexical, PReg;
    CleanEnd();
    CleanByOne(rs1, PlusSign, 1);
    CleanByOne(rs1, MinusSign, 1);
    CleanByOne(rs1, OpSign(f), 1);
    CleanByOne(rs1, Star, 2);
    CleanReg(rs1, End);
    CleanReg(rs2, End);
    CleanNegReg(rs2, End);
    CleanBinary(rs1, f, rs2);
    CleanBinary(rs2, F_SUB, rs1);
  }

  lemma CleanAluReg(i: Insn)
    requires i.AluReg? && i.f != F_RES5
    ensures AllLexical(AluRegText(i)) <==> AluRegNamed(i)
  {
    hide AllLexical, PReg, AluRegRhs, PIf;
    if IsTest(i.f) {
      var stmt := PBinary(i.rs1, i.f, i.rs2);
      CleanBinary(i.rs1, i.f, i.rs2);
      CleanShort(i.long, stmt);
      CleanIf(i.c, PShort(i.long, stmt));
    } else if IsStackBump(i.f, i.rd, i.rs1, i.rs2) {
      var bump := if i.rs2 == PLUS then Inc else Dec;
      CleanEnd();
      CleanP(bump, End);
      CleanTok(TSp, P(bump, End));
      CleanShort(i.long, Cons(TSp, P(bump, End)));
      CleanP(Equals, PShort(i.long, Cons(TSp, P(bump, End))));
      var stmt := Cons(TSp, P(Equals, PShort(i.long, Cons(TSp, P(bump, End)))));
      CleanTok(TSp, stmt.rest);
      CleanIf(i.c, stmt);
    } else {
      var rhs := AluRegRhs(i.f, i.rs1, i.rs2);
      CleanAluRhs(i.f, i.rs1, i.rs2);
      CleanAssign(i.long, i.rd, rhs);
      CleanIf(i.c, PReg(i.rd, P(Equals, PShort(i.long, rhs))));
    }
  }

  lemma CleanImmOp(rd: Reg, op: Punct, n: int)
    ensures AllLexical(PReg(rd, P(op, PImm(n, End)))) <==> OperandReg(rd)
  {
    CleanEnd();
    CleanNumber(n, End);
    CleanP(op, PImm(n, End));
    CleanReg(rd, P(op, PImm(n, End)));
    hide AllLexical, PReg, PImm;
  }

  lemma CleanAluImm(i: Insn)
    requires i.AluImm? && i.f != F_RES5
    ensures AllLexical(AluImmText(i)) <==> OperandReg(i.rd)
  {
    var n := Signed16(i.n);
    hide AllLexical, PReg, PImm;
    CleanImmOp(i.rd, OpSign(i.f), n);
    var op := PReg(i.rd, P(OpSign(i.f), PImm(n, End)));
    CleanShort(i.long, op);
    CleanAssign(i.long, i.rd, op);
    var k: nat := if IsShift(i.f) then n % 32 else 1;
    CleanByOne(i.rd, OpSign(i.f), k);
    CleanAssign(i.long, i.rd, PReg(i.rd, P(OpSign(i.f), Dec10(k, End))));
    CleanEnd();
    CleanReg(i.rd, End);
    CleanP(MinusSign, PReg(i.rd, End));
    CleanNumber(n, P(MinusSign, PReg(i.rd, End)));
    CleanAssign(i.long, i.rd, PImm(n, P(MinusSign, PReg(i.rd, End))));
  }

  lemma CleanAdd16(i: Insn)
    requires i.Add16?
    ensures AllLexical(Add16Text(i)) <==> OperandReg(i.rd) && OperandReg(i.rs3)
  {
    var n := Signed16(i.n);
    hide AllLexical, PReg, PImm, PDisp;
    CleanEnd();
    CleanNumber(n, End);
    CleanReg(i.rs3, End);
    CleanReg(i.rs3, PDisp(n, End));
    CleanAssign(i.long, i.rd, PImm(n, End));
    CleanAssign(i.long, i.rd, PReg(i.rs3, End));
    CleanAssign(i.long, i.rd, PReg(i.rs3, PDisp(n, End)));
  }

  lemma CleanIor(ior: Reg, rest: Toks)
    ensures AllLexical(PIor(ior, rest)) <==> NamedIor(ior) && AllLexical(rest)
  {
  }

  /** "name = (size) source". */
  lemma CleanMoveTo(wsz: U3, source: Toks)
    ensures AllLexical(P(Equals, PSize(wsz, source))) <==> NamedSize(wsz) && AllLexical(source)
  {
    CleanSize(wsz, source);
    CleanP(Equals, PSize(wsz, source));
    hide AllLexical;
  }

  lemma CleanMove(i: Insn)
    requires i.MoveDirect? || i.MoveIor? || i.MoveInd?
    ensures AllLexical(MoveText(i)) <==> MoveNamed(i)
  {
    hide AllLexical, PReg, PIor, PMem, PSize;
    CleanEnd();
    match i
    case MoveDirect(t, wsz, rh, l) =>
      CleanTok(TNum(l, false), End);
      CleanP(Star, Hex(l, End));
      CleanMoveTo(wsz, P(Star, Hex(l, End)));
      CleanReg(rh, P(Equals, PSize(wsz, P(Star, Hex(l, End)))));
      CleanReg(rh, End);
      CleanMoveTo(wsz, PReg(rh, End));
      CleanTok(TNum(l, false), P(Equals, PSize(wsz, PReg(rh, End))));
      CleanP(Star, Hex(l, P(Equals, PSize(wsz, PReg(rh, End)))));
    case MoveIor(t, wsz, rh, ior) =>
      CleanIor(ior, End);
      CleanMoveTo(wsz, PIor(ior, End));
      CleanReg(rh, P(Equals, PSize(wsz, PIor(ior, End))));
      CleanReg(rh, End);
      CleanMoveTo(wsz, PReg(rh, End));
      CleanIor(ior, P(Equals, PSize(wsz, PReg(rh, End))));
      CleanTok(TKw(if wsz == 7 then KwWaiti else if wsz == 3 then KwBkpt else KwSftrst), End);
    case MoveInd(io, t, wsz, rh, rp, ri) =>
      var mem := PMem(rp, ri, End);
      CleanMem(rp, ri, End);
      CleanMoveTo(wsz, mem);
      CleanIor(rh, P(Equals, PSize(wsz, mem)));
      CleanReg(rh, P(Equals, PSize(wsz, mem)));
      var source := if io then PIor(rh, End) else PReg(rh, End);
      CleanIor(rh, End);
      CleanReg(rh, End);
      CleanMoveTo(wsz, source);
      CleanMem(rp, ri, P(Equals, PSize(wsz, source)));
  }

  lemma CleanBranches(i: Insn, addr: word)
    requires i.Goto16? || i.LoopGoto? || i.Call16?
    ensures Clean(DisInsn(i, addr)) <==> Printable(i)
  {
    hide AllLexical, PReg, PTarget, PIf;
    CleanEnd();
    match i
    case Goto16(c, rb, n) =>
      var target := PTarget(rb, Signed16(n), End);
      CleanTok(TKw(KwNop), End);
      CleanTok(TKw(KwIreturn), End);
      CleanTarget(rb, Signed16(n), End);
      CleanTok(TKw(KwGoto), target);
      CleanIf(c, Cons(TKw(KwGoto), target));
    case LoopGoto(rm, rb, n) =>
      var t0 := Cons(TKw(KwGoto), PTarget(rb, Signed16(n), End));
      var t1 := Cons(TNum(0, false), P(Close, t0));
      var t2 := P(Dec, P(AtLeast, t1));
      CleanTarget(rb, Signed16(n), End);
      CleanTok(TKw(KwGoto), t0.rest);
      CleanP(Close, t0);
      CleanTok(TNum(0, false), P(Close, t0));
      CleanP(AtLeast, t1);
      CleanP(Dec, P(AtLeast, t1));
      CleanReg(rm, t2);
      CleanP(Open, PReg(rm, t2));
      CleanTok(TKw(KwIf), P(Open, PReg(rm, t2)));
    case Call16(rm, rb, n) =>
      var link := P(Open, PReg(rm, P(Close, End)));
      CleanLink(rm);
      CleanTarget(rb, Signed16(n), link);
      CleanTok(TKw(KwCall), PTarget(rb, Signed16(n), link));
  }

  lemma CleanLink(rm: Reg)
    ensures AllLexical(P(Open, PReg(rm, P(Close, End)))) <==> OperandReg(rm)
  {
    CleanEnd();
    CleanP(Close, End);
    CleanReg(rm, P(Close, End));
    CleanP(Open, PReg(rm, P(Close, End)));
    hide AllLexical, PReg;
  }

  lemma CleanDo(i: Insn)
    requires i.Do?
    ensures AllLexical(DoText(i)) <==> !(i.lock && i.block) && (i.count.CountReg? ==> OperandReg(i.count.r))
  {
    hide AllLexical, PReg;
    var head := if i.block then (if i.lock then TBad else TKw(KwDoblock))
                else TKw(if i.lock then KwDolock else KwDo);
    var count := match i.count case CountReg(r) => PReg(r, End) case CountImm(l) => Dec10(l, End);
    CleanEnd();
    match i.count {
      case CountReg(r) => CleanReg(r, End);
      case CountImm(l) => CleanTok(TNum(l, l == 1), End);
    }
    CleanP(Comma, count);
    CleanTok(TNum(i.k, i.k == 1), P(Comma, count));
    CleanTok(head, count);
    CleanTok(head, Dec10(i.k, P(Comma, count)));
  }

  lemma CleanWide(i: Insn, addr: word)
    requires i.ShiftOr? || i.Goto24? || i.Set24? || i.Call24?
    ensures Clean(DisInsn(i, addr)) <==> Printable(i)
  {
    hide AllLexical, PReg;
    CleanEnd();
    match i
    case ShiftOr(rd, rs, n) =>
      CleanTok(TNum(n, false), End);
      CleanP(ShiftOrSign, Hex(n, End));
      CleanReg(rs, P(ShiftOrSign, Hex(n, End)));
      CleanAssign(true, rd, PReg(rs, P(ShiftOrSign, Hex(n, End))));
    case Goto24(rb, m) =>
      CleanTok(TNum(m, false), End);
      CleanP(PlusSign, Hex(m, End));
      CleanReg(rb, P(PlusSign, Hex(m, End)));
      CleanTok(TKw(KwGoto), Hex(m, End));
      CleanTok(TKw(KwGoto), PReg(rb, P(PlusSign, Hex(m, End))));
    case Set24(rd, m) =>
      var value := P(Open, Cons(TKw(KwUshort24), P(Close, Hex(m, End))));
      CleanTok(TNum(m, false), End);
      CleanP(Close, Hex(m, End));
      CleanTok(TKw(KwUshort24), P(Close, Hex(m, End)));
      CleanP(Open, Cons(TKw(KwUshort24), P(Close, Hex(m, End))));
      CleanAssign(true, rd, value);
    case Call24(rm, m) =>
      CleanLink(rm);
      CleanTok(TNum(m, false), P(Open, PReg(rm, P(Close, End))));
      CleanTok(TKw(KwCall), Hex(m, P(Open, PReg(rm, P(Close, End)))));
  }

  /** Exactly the words whose printed fields all have names decode cleanly. */
  lemma CleanIsPrintable(i: Insn, addr: word)
    ensures Clean(DisInsn(i, addr)) <==> Printable(i)
  {
    hide AllLexical, MacText, SpecialText, AluRegText, AluImmText, Add16Text, MoveText, DoText;
    match i
    case Illegal(_) =>
    case MoveReserved(_) =>
    case Mac(_, _, _, _, _, _, _, _) => if MacFieldsOk(i) { CleanMac(i); }
    case Special(_, _, _, _) => if Printable(i) { CleanSpecial(i); }
    case AluReg(_, f, _, _, _, _) => if f != F_RES5 { CleanAluReg(i); }
    case AluImm(_, f, _, _) => if f != F_RES5 { CleanAluImm(i); }
    case Add16(_, _, _, _) => CleanAdd16(i);
    case MoveDirect(_, _, _, _) => CleanMove(i);
    case MoveIor(_, _, _, _) => CleanMove(i);
    case MoveInd(_, _, _, _, _, _) => CleanMove(i);
    case Do(_, _, _, _) => CleanDo(i);
    case Goto16(_, _, _) => CleanBranches(i, addr);
    case LoopGoto(_, _, _) => CleanBranches(i, addr);
    case Call16(_, _, _) => CleanBranches(i, addr);
    case _ => CleanWide(i, addr);
  }
}
