/** The grammar of listings is exactly what the disassembler prints. */
module ListingFacts {
  import opened Words
  import opened Insn
  import opened Syntax
  import opened Dis
  import opened Asm
  import opened Listing
  import opened Fixpoint

  /** j prints as ts, and not as "rB+0x0". */
  predicate Prints(j: Insn, ts: Toks, addr: word) {
    Encodable(j) && Printable(j) && !ZeroDisplacement(j) && DisInsn(j, addr).text == ts
  }

  /** A statement the disassembler prints for some instruction. */
  ghost predicate Printed(ts: Toks, addr: word) {
    exists j :: Prints(j, ts, addr)
  }

  lemma PrintedBy(j: Insn, ts: Toks, addr: word)
    requires Prints(j, ts, addr)
    ensures Printed(ts, addr)
  {
  }

  // ---------------------------------------------------------------------
  // Each recogniser undoes its printer, and accepts nothing else

  lemma RegTaken(code: Reg, rest: Toks)
    requires OperandReg(code)
    ensures TakeReg(PReg(code, rest)) == Some((code, rest))
    ensures !At(PReg(code, rest), TN) && !AtP(PReg(code, rest), Dec) && !AtP(PReg(code, rest), Open)
            && !At(PReg(code, rest), TSp) && !AtP(PReg(code, rest), Star) && PReg(code, rest).Cons?
            && !PReg(code, rest).t.TIor? && !PReg(code, rest).t.TAcc? && !PReg(code, rest).t.TKw?
            && !PReg(code, rest).t.TNum? && !PReg(code, rest).t.TCond? && !PReg(code, rest).t.TG?
  {
  }

  lemma RegPrinted(ts: Toks)
    ensures TakeReg(ts).Some? ==>
              var (code, rest) := TakeReg(ts).value; OperandReg(code) && ts == PReg(code, rest)
  {
  }

  lemma ImmTaken(n: int, rest: Toks)
    requires -0x8000 <= n <= 0x7FFF
    ensures TakeImm(PImm(n, rest)) == Some((n, rest)) && TakeReg(PImm(n, rest)).None?
    ensures AtP(PImm(n, rest), MinusSign) ==> TakeReg(PImm(n, rest).rest).None?
    ensures !AtP(PImm(n, rest), Dec) && !AtP(PImm(n, rest), Open) && !AtP(PImm(n, rest), Star)
            && PImm(n, rest).Cons? && !PImm(n, rest).t.TIor?
  {
  }

  lemma ImmPrinted(ts: Toks)
    ensures TakeImm(ts).Some? ==>
              var (n, rest) := TakeImm(ts).value; -0x8000 <= n <= 0x7FFF && ts == PImm(n, rest)
  {
  }

  lemma HexPrinted(ts: Toks, hi: nat)
    ensures TakeHex(ts, hi).Some? ==> var (v, rest) := TakeHex(ts, hi).value; v <= hi && ts == Hex(v, rest)
  {
  }

  lemma DecPrinted(ts: Toks, hi: nat)
    ensures TakeDec(ts, hi).Some? ==> var (v, rest) := TakeDec(ts, hi).value; v <= hi && ts == Dec10(v, rest)
  {
  }

  lemma ShortTaken(long: bool, rest: Toks)
    requires !AtP(rest, Open)
    ensures TakeShort(PShort(long, rest)) == (long, rest)
  {
  }

  lemma ShortPrinted(ts: Toks)
    ensures var (long, rest) := TakeShort(ts); ts == PShort(long, rest)
  {
  }

  lemma SizeTaken(w: U3, rest: Toks)
    requires NamedSize(w) && !AtP(rest, Open)
    ensures TakeSize(PSize(w, rest)) == (w, rest) && !IsUshort(PSize(w, rest))
  {
  }

  lemma SizePrinted(ts: Toks)
    ensures var (w, rest) := TakeSize(ts); NamedSize(w) && ts == PSize(w, rest)
  {
  }

  lemma MemTaken(rp: Reg, ri: Reg, rest: Toks)
    requires OperandReg(rp) && OperandReg(ri) && TakeReg(rest).None? && !AtP(rest, Inc) && !AtP(rest, Dec)
    ensures TakeMem(PMem(rp, ri, rest)) == Some(((rp, ri), rest))
  {
    var tail := if ri == R0 then rest
                else if ri == PLUS then P(Inc, rest)
                else if ri == MINUS then P(Dec, rest)
                else P(Inc, PReg(ri, rest));
    RegTaken(rp, tail);
    RegTaken(ri, rest);
    hide TakeReg, PReg, OperandReg;
  }

  lemma MemPrinted(ts: Toks)
    ensures TakeMem(ts).Some? ==>
              var ((rp, ri), rest) := TakeMem(ts).value;
              OperandReg(rp) && OperandReg(ri) && ts == PMem(rp, ri, rest)
  {
    if AtP(ts, Star) {
      RegPrinted(ts.rest);
      if TakeReg(ts.rest).Some? {
        var ts2 := TakeReg(ts.rest).value.1;
        if AtP(ts2, Inc) { RegPrinted(ts2.rest); }
      }
    }
    PseudoNames();
    hide TakeReg, PReg, OperandReg;
  }

  lemma PseudoNames()
    ensures OperandReg(R0) && OperandReg(PLUS) && OperandReg(MINUS) && OperandReg(SP) && OperandReg(PCSH)
  {
  }

  // ---------------------------------------------------------------------
  // Register statements: printed if listed

  /** "[if (c)] rD = [(short)] rhs". */
  function Assign(c: Cond, long: bool, rd: Reg, rhs: Toks): Toks {
    PIf(c, PReg(rd, P(Equals, PShort(long, rhs))))
  }

  lemma AluRegPrints(long: bool, f: U4, rd: Reg, rs1: Reg, c: Cond, rs2: Reg, rhs: Toks, addr: word)
    requires OperandReg(rd) && OperandReg(rs1) && OperandReg(rs2) && NamedCond(c)
    requires f != F_RES5 && !IsTest(f) && !IsStackBump(f, rd, rs1, rs2) && rhs == AluRegRhs(f, rs1, rs2)
    ensures Printed(Assign(c, long, rd, rhs), addr)
  {
    hide OperandReg, PReg, PIf, PShort;
    PrintedBy(AluReg(long, f, rd, rs1, c, rs2), Assign(c, long, rd, rhs), addr);
  }

  lemma AluImmPrints(long: bool, f: U4, rd: Reg, n: int, rhs: Toks, addr: word)
    requires OperandReg(rd) && -0x8000 <= n <= 0x7FFF && f != F_RES5 && !IsTest(f) && !IsRotate(f)
    requires rhs == if f == F_RSUB then PImm(n, P(MinusSign, PReg(rd, End)))
                    else if IsShift(f) then PReg(rd, P(OpSign(f), Dec10(n % 32, End)))
                    else PReg(rd, P(OpSign(f), PImm(n, End)))
    ensures Printed(Assign(1, long, rd, rhs), addr)
  {
    SignedBack(n);
    hide OperandReg, PReg, PShort, PImm, Signed16;
    PrintedBy(AluImm(long, f, rd, n % 0x1_0000), Assign(1, long, rd, rhs), addr);
  }

  lemma SignedBack(n: int)
    requires -0x8000 <= n <= 0x7FFF
    ensures Signed16(n % 0x1_0000) == n
  {
  }

  lemma Add16Prints(long: bool, rd: Reg, rs: Reg, n: int, rhs: Toks, addr: word)
    requires OperandReg(rd) && OperandReg(rs) && -0x8000 <= n <= 0x7FFF
    requires rhs == if rs == R0 then PImm(n, End) else if n == 0 then PReg(rs, End) else PReg(rs, PDisp(n, End))
    ensures Printed(Assign(1, long, rd, rhs), addr)
  {
    SignedBack(n);
    hide OperandReg, PReg, PShort, PImm, Signed16;
    PrintedBy(Add16(long, rd, rs, n % 0x1_0000), Assign(1, long, rd, rhs), addr);
  }

  lemma ByOnePrinted(c: Cond, long: bool, rd: Reg, ra: Reg, plus: bool, addr: word)
    requires OperandReg(rd) && OperandReg(ra) && NamedCond(c)
    ensures Printed(Assign(c, long, rd, PByOne(ra, if plus then PlusSign else MinusSign)), addr)
  {
    PseudoNames();
    hide OperandReg, PReg, Printed;
    var rhs := PByOne(ra, if plus then PlusSign else MinusSign);
    if ra == R0 {
      AluRegPrints(long, F_ADD, rd, ra, c, if plus then PLUS else MINUS, rhs, addr);
    } else {
      AluRegPrints(long, F_SUB, rd, ra, c, if plus then MINUS else PLUS, rhs, addr);
    }
  }

  lemma PlusPrinted(c: Cond, long: bool, rd: Reg, ra: Reg, r: Toks, addr: word)
    requires OperandReg(rd) && OperandReg(ra) && NamedCond(c) && ListedTail(c == 1, long, rd, ra, P(PlusSign, r))
    ensures Printed(Assign(c, long, rd, PReg(ra, P(PlusSign, r))), addr)
  {
    RegPrinted(r);
    ImmPrinted(r);
    HexPrinted(r, 0x7FFF);
    hide OperandReg, PReg, Printed, TakeReg, TakeImm, TakeHex;
    if IsOne(r) {
      ByOnePrinted(c, long, rd, ra, true, addr);
    } else if Whole(TakeReg(r)) {
      AluRegPrints(long, F_ADD, rd, ra, c, TakeReg(r).value.0, PReg(ra, P(PlusSign, r)), addr);
    } else if ra == rd && Whole(TakeImm(r)) {
      AluImmPrints(long, F_ADD, rd, TakeImm(r).value.0, PReg(ra, P(PlusSign, r)), addr);
    } else {
      Add16Prints(long, rd, ra, TakeHex(r, 0x7FFF).value.0, PReg(ra, P(PlusSign, r)), addr);
    }
  }

  lemma MinusPrinted(c: Cond, long: bool, rd: Reg, ra: Reg, r: Toks, addr: word)
    requires OperandReg(rd) && OperandReg(ra) && NamedCond(c) && ListedTail(c == 1, long, rd, ra, P(MinusSign, r))
    ensures Printed(Assign(c, long, rd, PReg(ra, P(MinusSign, r))), addr)
  {
    RegPrinted(r);
    ImmPrinted(r);
    HexPrinted(r, 0x8000);
    hide OperandReg, PReg, Printed, TakeReg, TakeImm, TakeHex;
    if IsOne(r) {
      ByOnePrinted(c, long, rd, ra, false, addr);
    } else if Whole(TakeReg(r)) {
      AluRegPrints(long, F_RSUB, rd, TakeReg(r).value.0, c, ra, PReg(ra, P(MinusSign, r)), addr);
    } else if ra == rd && Whole(TakeImm(r)) {
      AluImmPrints(long, F_SUB, rd, TakeImm(r).value.0, PReg(ra, P(MinusSign, r)), addr);
    } else {
      Add16Prints(long, rd, ra, 0 - TakeHex(r, 0x8000).value.0, PReg(ra, P(MinusSign, r)), addr);
    }
  }

  lemma ShiftPrinted(c: Cond, long: bool, rd: Reg, ra: Reg, p: Punct, r: Toks, addr: word)
    requires OperandReg(rd) && OperandReg(ra) && NamedCond(c) && ListedTail(c == 1, long, rd, ra, P(p, r))
    requires p == ShlSign || p == ShrSign || p == AsrSign
    ensures Printed(Assign(c, long, rd, PReg(ra, P(p, r))), addr)
  {
    PseudoNames();
    RegPrinted(r);
    DecPrinted(r, 31);
    hide OperandReg, PReg, Printed, TakeReg, TakeImm, TakeDec;
    var rhs := PReg(ra, P(p, r));
    var f := ShiftOf(p).value;
    if IsOne(r) {
      AluRegPrints(long, f, rd, ra, c, PLUS, rhs, addr);
    } else if Whole(TakeReg(r)) {
      AluRegPrints(long, f, rd, ra, c, TakeReg(r).value.0, rhs, addr);
    } else {
      AluImmPrints(long, f, rd, TakeDec(r, 31).value.0, rhs, addr);
    }
  }

  lemma LogicalPrinted(c: Cond, long: bool, rd: Reg, ra: Reg, p: Punct, r: Toks, addr: word)
    requires OperandReg(rd) && OperandReg(ra) && NamedCond(c) && ListedTail(c == 1, long, rd, ra, P(p, r))
    requires LogicalOf(p).Some?
    ensures Printed(Assign(c, long, rd, PReg(ra, P(p, r))), addr)
  {
    RegPrinted(r);
    ImmPrinted(r);
    hide OperandReg, PReg, Printed, TakeReg, TakeImm, TakeDec;
    var rhs := PReg(ra, P(p, r));
    var f := LogicalOf(p).value;
    if Whole(TakeReg(r)) {
      AluRegPrints(long, f, rd, ra, c, TakeReg(r).value.0, rhs, addr);
    } else {
      AluImmPrints(long, f, rd, TakeImm(r).value.0, rhs, addr);
    }
  }

  lemma RotatePrinted(c: Cond, long: bool, rd: Reg, ra: Reg, p: Punct, r: Toks, addr: word)
    requires OperandReg(rd) && OperandReg(ra) && NamedCond(c) && ListedTail(c == 1, long, rd, ra, P(p, r))
    requires RotateOf(p).Some?
    ensures Printed(Assign(c, long, rd, PReg(ra, P(p, r))), addr)
  {
    PseudoNames();
    hide OperandReg, PReg, Printed, TakeReg, TakeImm, TakeDec;
    AluRegPrints(long, RotateOf(p).value, rd, ra, c, R0, PReg(ra, P(p, r)), addr);
  }

  lemma TailPrinted(c: Cond, long: bool, rd: Reg, ra: Reg, ts: Toks, addr: word)
    requires OperandReg(rd) && OperandReg(ra) && NamedCond(c) && ListedTail(c == 1, long, rd, ra, ts)
    ensures Printed(Assign(c, long, rd, PReg(ra, ts)), addr)
  {
    PseudoNames();
    hide OperandReg, PReg, Printed, TakeReg, TakeImm, TakeDec;
    if ts.End? {
      AluRegPrints(long, F_ADD, rd, ra, c, R0, PReg(ra, ts), addr);
    } else {
      var p, r := ts.t.p, ts.rest;
      assert ts == P(p, r);
      if p == PlusSign {
        PlusPrinted(c, long, rd, ra, r, addr);
      } else if p == MinusSign {
        MinusPrinted(c, long, rd, ra, r, addr);
      } else if p == Star {
        AluRegPrints(long, F_ADD, rd, ra, c, ra, PReg(ra, ts), addr);
      } else if p == ShiftOrSign {
        ShiftOrPrinted(rd, ra, r, addr);
      } else if RotateOf(p).Some? {
        RotatePrinted(c, long, rd, ra, p, r, addr);
      } else if ShiftOf(p).Some? {
        ShiftPrinted(c, long, rd, ra, p, r, addr);
      } else {
        LogicalPrinted(c, long, rd, ra, p, r, addr);
      }
    }
  }

  lemma ShiftOrPrinted(rd: Reg, ra: Reg, r: Toks, addr: word)
    requires OperandReg(rd) && OperandReg(ra) && HexFrom(r, 0, 0xFFFF)
    ensures Printed(Assign(1, true, rd, PReg(ra, P(ShiftOrSign, r))), addr)
  {
    HexPrinted(r, 0xFFFF);
    hide OperandReg, PReg, TakeHex;
    PrintedBy(ShiftOr(rd, ra, TakeHex(r, 0xFFFF).value.0), Assign(1, true, rd, PReg(ra, P(ShiftOrSign, r))), addr);
  }

  lemma ArithPrinted(c: Cond, long: bool, rd: Reg, ts: Toks, addr: word)
    requires OperandReg(rd) && NamedCond(c) && ListedArith(c == 1, long, rd, ts)
    ensures Printed(Assign(c, long, rd, ts), addr)
  {
    PseudoNames();
    RegPrinted(ts);
    if ts.Cons? { RegPrinted(ts.rest); }
    ImmPrinted(ts);
    hide OperandReg, PReg, Printed, TakeReg, TakeImm, ListedTail;
    if AtP(ts, Dec) {
      assert ts == P(Dec, Cons(TN, End));
      AluRegPrints(long, F_SUB, rd, R0, c, MINUS, ts, addr);
    } else if TakeReg(ts).Some? {
      TailPrinted(c, long, rd, TakeReg(ts).value.0, TakeReg(ts).value.1, addr);
    } else if AtP(ts, MinusSign) && TakeReg(ts.rest).Some? {
      AluRegPrints(long, F_SUB, rd, R0, c, TakeReg(ts.rest).value.0, ts, addr);
    } else {
      var (n, rest) := TakeImm(ts).value;
      if rest.End? {
        Add16Prints(long, rd, R0, n, ts, addr);
      } else {
        RegPrinted(rest.rest);
        AluImmPrints(long, F_RSUB, rd, n, ts, addr);
      }
    }
  }

  lemma LongSize(w: U3, rest: Toks)
    requires w == 7 || w == 3
    ensures PSize(w, rest) == PShort(w == 7, rest)
  {
  }

  lemma RhsPrinted(c: Cond, rd: Reg, ts: Toks, addr: word)
    requires OperandReg(rd) && NamedCond(c) && ListedRhs(c == 1, rd, ts)
    ensures Printed(PIf(c, PReg(rd, P(Equals, ts))), addr)
  {
    hide OperandReg, PReg, Printed, ListedArith;
    if IsUshort(ts) {
      UshortPrinted(rd, ts.rest.rest.rest, addr);
    } else {
      SizePrinted(ts);
      var (w, ts1) := TakeSize(ts);
      hide TakeSize, PSize;
      if AtP(ts1, Star) {
        LoadPrinted(rd, w, ts1, addr);
      } else if ts1.Cons? && ts1.t.TIor? {
        PrintedBy(MoveIor(false, w, rd, ts1.t.ior), PReg(rd, P(Equals, PSize(w, ts1))), addr);
      } else {
        LongSize(w, ts1);
        ArithPrinted(c, w == 7, rd, ts1, addr);
      }
    }
  }

  lemma UshortPrinted(rd: Reg, ts: Toks, addr: word)
    requires OperandReg(rd) && HexFrom(ts, 0, 0xFF_FFFF)
    ensures Printed(PReg(rd, P(Equals, P(Open, Cons(TKw(KwUshort24), P(Close, ts))))), addr)
  {
    HexPrinted(ts, 0xFF_FFFF);
    hide OperandReg, PReg, TakeHex;
    PrintedBy(Set24(rd, TakeHex(ts, 0xFF_FFFF).value.0),
              PReg(rd, P(Equals, P(Open, Cons(TKw(KwUshort24), P(Close, ts))))), addr);
  }

  lemma LoadPrinted(rd: Reg, w: U3, ts: Toks, addr: word)
    requires OperandReg(rd) && NamedSize(w) && AtP(ts, Star)
    requires HexFrom(ts.rest, 0, 0xFFFF) || Whole(TakeMem(ts))
    ensures Printed(PReg(rd, P(Equals, PSize(w, ts))), addr)
  {
    HexPrinted(ts.rest, 0xFFFF);
    MemPrinted(ts);
    hide OperandReg, PReg, TakeHex, TakeMem, PMem, PSize;
    var text := PReg(rd, P(Equals, PSize(w, ts)));
    if HexFrom(ts.rest, 0, 0xFFFF) {
      PrintedBy(MoveDirect(false, w, rd, TakeHex(ts.rest, 0xFFFF).value.0), text, addr);
    } else {
      var (rp, ri) := TakeMem(ts).value.0;
      PrintedBy(MoveInd(false, false, w, rd, rp, ri), text, addr);
    }
  }

  lemma BumpPrinted(c: Cond, ts: Toks, addr: word)
    requires NamedCond(c) && ListedBump(ts)
    ensures Printed(PIf(c, ts), addr)
  {
    PseudoNames();
    var (long, t) := TakeShort(ts.rest.rest);
    ShortPrinted(ts.rest.rest);
    hide OperandReg, PReg, TakeShort, PShort;
    var j := AluReg(long, F_ADD, SP, SP, c, if AtP(t.rest, Inc) then PLUS else MINUS);
    assert t == Cons(TSp, P(if AtP(t.rest, Inc) then Inc else Dec, End));
    assert ts == Cons(TSp, P(Equals, PShort(long, t)));
    PrintedBy(j, PIf(c, ts), addr);
  }

  lemma TestPrinted(c: Cond, long: bool, ra: Reg, p: Punct, r: Toks, addr: word)
    requires NamedCond(c) && OperandReg(ra) && (p == MinusSign || p == Ampersand)
    requires Whole(TakeReg(r)) || (c == 1 && Whole(TakeImm(r)))
    ensures Printed(PIf(c, PShort(long, PReg(ra, P(p, r)))), addr)
  {
    RegPrinted(r);
    ImmPrinted(r);
    var text := PIf(c, PShort(long, PReg(ra, P(p, r))));
    var f := if p == MinusSign then F_CMP else F_BTST;
    if Whole(TakeReg(r)) {
      hide OperandReg, PReg, TakeReg, TakeImm, PShort, PIf;
      PrintedBy(AluReg(long, f, 0, ra, c, TakeReg(r).value.0), text, addr);
    } else {
      var n := TakeImm(r).value.0;
      SignedBack(n);
      hide OperandReg, PReg, TakeReg, TakeImm, PShort, PImm, Signed16;
      PrintedBy(AluImm(long, f, ra, n % 0x1_0000), text, addr);
    }
  }

  /** Every listed register statement is printed. */
  lemma RegStmtPrinted(c: Cond, ts: Toks, addr: word)
    requires NamedCond(c) && ListedReg(c == 1, ts)
    ensures Printed(PIf(c, ts), addr)
  {
    if At(ts, TSp) {
      BumpPrinted(c, ts, addr);
    } else {
      var (long, ts1) := TakeShort(ts);
      ShortPrinted(ts);
      RegPrinted(ts1);
      hide OperandReg, PReg, Printed, ListedRhs, TakeShort, TakeReg, TakeImm, PShort;
      var (ra, rest) := TakeReg(ts1).value;
      if AtP(rest, Equals) {
        assert ts == PReg(ra, P(Equals, rest.rest)) by { LongText(ts1); }
        RhsPrinted(c, ra, rest.rest, addr);
      } else {
        TestPrinted(c, long, ra, rest.t.p, rest.rest, addr);
      }
    }
  }

  lemma LongText(ts: Toks)
    ensures PShort(true, ts) == ts
  {
  }

  // ---------------------------------------------------------------------
  // Register statements: listed if printed

  /** What "rD = [(short)]" can be followed by in arithmetic. */
  predicate Arithmetic(rhs: Toks) {
    rhs.Cons? && !AtP(rhs, Open) && !AtP(rhs, Star) && !rhs.t.TIor?
  }

  predicate Statement(ts: Toks) {
    ts.Cons? && !ts.t.TKw? && !ts.t.TAcc? && !ts.t.TIor? && !AtP(ts, Star)
  }

  lemma ConditionListed(c: Cond, ts: Toks)
    requires NamedCond(c) && Statement(ts) && ListedReg(c == 1, ts)
    ensures Listed(PIf(c, ts))
  {
    hide ListedReg, ListedLoop, ListedGoto, ListedStore, ListedAcc, ListedIor, ListedCall, ListedDo, ListedCount, NamedCond;
  }

  lemma AssignListed(c: Cond, long: bool, rd: Reg, rhs: Toks)
    requires NamedCond(c) && OperandReg(rd) && Arithmetic(rhs) && ListedArith(c == 1, long, rd, rhs)
    ensures Listed(Assign(c, long, rd, rhs))
  {
    var w: U3 := if long then 7 else 3;
    SizeTaken(w, rhs);
    LongSize(w, rhs);
    RhsListed(c, rd, PShort(long, rhs));
    hide ListedArith, OperandReg, PReg, Listed, TakeSize, PSize, PShort, IsUshort, PIf;
  }

  lemma RhsListed(c: Cond, rd: Reg, rhs: Toks)
    requires NamedCond(c) && OperandReg(rd)
    ensures ListedRhs(c == 1, rd, rhs) ==> Listed(PIf(c, PReg(rd, P(Equals, rhs))))
  {
    var text := PReg(rd, P(Equals, rhs));
    RegTaken(rd, P(Equals, rhs));
    ShortTaken(true, text);
    LongText(text);
    hide ListedRhs, OperandReg, PReg, Listed, TakeReg, TakeShort, PShort, PIf, NamedCond;
    if ListedRhs(c == 1, rd, rhs) { ConditionListed(c, text); }
  }

  lemma RegRhsListed(u: bool, long: bool, rd: Reg, ra: Reg, ts: Toks)
    requires OperandReg(ra) && ListedTail(u, long, rd, ra, ts)
    ensures ListedArith(u, long, rd, PReg(ra, ts)) && Arithmetic(PReg(ra, ts))
  {
    RegTaken(ra, ts);
    hide ListedTail, OperandReg, TakeReg, PReg;
  }

  lemma NegListed(u: bool, long: bool, rd: Reg, rb: Reg)
    requires OperandReg(rb)
    ensures ListedArith(u, long, rd, PNegReg(rb, End)) && Arithmetic(PNegReg(rb, End))
  {
    if rb != MINUS {
      RegTaken(rb, End);
      hide OperandReg, PReg;
    }
  }

  lemma BinaryListed(u: bool, long: bool, rd: Reg, ra: Reg, p: Punct, rb: Reg)
    requires OperandReg(ra) && OperandReg(rb)
    requires p == PlusSign ==> ra != R0 && rb != R0 && !IsPseudo(rb) && rb != ra
    requires p == MinusSign || p == PlusSign || LogicalOf(p).Some? || (ShiftOf(p).Some? && rb != PLUS)
    ensures ListedArith(u, long, rd, PReg(ra, P(p, PReg(rb, End)))) && Arithmetic(PReg(ra, P(p, PReg(rb, End))))
  {
    RegTaken(rb, End);
    hide OperandReg, TakeReg, PReg;
    RegRhsListed(u, long, rd, ra, P(p, PReg(rb, End)));
  }

  lemma OneListed(u: bool, long: bool, rd: Reg, ra: Reg, p: Punct)
    requires OperandReg(ra) && (p == PlusSign || p == MinusSign || RotateOf(p).Some? || ShiftOf(p).Some?)
    ensures ListedArith(u, long, rd, PByOne(ra, p)) && Arithmetic(PByOne(ra, p))
  {
    hide OperandReg, TakeReg, PReg;
    assert IsOne(Dec10(1, End));
    RegRhsListed(u, long, rd, ra, P(p, Dec10(1, End)));
  }

  lemma AluRhsListed(u: bool, long: bool, f: U4, rd: Reg, rs1: Reg, rs2: Reg)
    requires OperandReg(rs1) && (OperandReg(rs2) || IsRotate(f)) && !IsTest(f) && f != F_RES5
    ensures ListedArith(u, long, rd, AluRegRhs(f, rs1, rs2)) && Arithmetic(AluRegRhs(f, rs1, rs2))
  {
    hide OperandReg, PReg, ListedArith, Arithmetic, PNegReg, TakeReg;
    if f == F_ADD {
      if rs2 == PLUS { OneListed(u, long, rd, rs1, PlusSign); }
      else if rs2 == MINUS { OneListed(u, long, rd, rs1, MinusSign); }
      else if rs1 == rs2 && rs1 != R0 { RegRhsListed(u, long, rd, rs1, P(Star, Cons(TNum(2, false), End))); }
      else if rs2 == R0 { RegRhsListed(u, long, rd, rs1, End); }
      else if rs1 == R0 { RegRhsListed(u, long, rd, rs2, End); }
      else { BinaryListed(u, long, rd, rs1, PlusSign, rs2); }
    } else if f == F_SUB {
      if rs1 == R0 { NegListed(u, long, rd, rs2); }
      else if rs2 == PLUS { OneListed(u, long, rd, rs1, MinusSign); }
      else if rs2 == MINUS { OneListed(u, long, rd, rs1, PlusSign); }
      else { BinaryListed(u, long, rd, rs1, MinusSign, rs2); }
    } else if f == F_RSUB {
      BinaryListed(u, long, rd, rs2, MinusSign, rs1);
    } else if IsRotate(f) {
      OneListed(u, long, rd, rs1, OpSign(f));
    } else if IsShift(f) && rs2 == PLUS {
      OneListed(u, long, rd, rs1, OpSign(f));
    } else {
      BinaryListed(u, long, rd, rs1, OpSign(f), rs2);
    }
  }

  lemma TestListed(c: Cond, long: bool, ra: Reg, p: Punct, r: Toks)
    requires NamedCond(c) && OperandReg(ra) && (p == MinusSign || p == Ampersand)
    requires Whole(TakeReg(r)) || (c == 1 && Whole(TakeImm(r)))
    ensures Listed(PIf(c, PShort(long, PReg(ra, P(p, r)))))
  {
    var text := PReg(ra, P(p, r));
    RegTaken(ra, P(p, r));
    ShortTaken(long, text);
    ShortStarts(long, text);
    hide OperandReg, PReg, Listed, TakeReg, TakeImm, TakeShort, PShort, PIf, NamedCond;
    ConditionListed(c, PShort(long, text));
  }

  lemma ShortStarts(long: bool, ts: Toks)
    requires Statement(ts) && !At(ts, TSp)
    ensures Statement(PShort(long, ts)) && !At(PShort(long, ts), TSp)
  {
  }

  lemma AluRegListed(i: Insn)
    requires i.AluReg? && Printable(i)
    ensures Listed(AluRegText(i))
  {
    if IsTest(i.f) {
      RegTaken(i.rs2, End);
      hide OperandReg, PReg, Listed, TakeReg, PIf, PShort;
      TestListed(i.c, i.long, i.rs1, OpSign(i.f), PReg(i.rs2, End));
    } else if IsStackBump(i.f, i.rd, i.rs1, i.rs2) {
      BumpListed(i.c, i.long, if i.rs2 == PLUS then Inc else Dec);
    } else {
      hide OperandReg, PReg, Listed, AluRegRhs, PIf, PShort;
      AluRhsListed(i.c == 1, i.long, i.f, i.rd, i.rs1, i.rs2);
      AssignListed(i.c, i.long, i.rd, AluRegRhs(i.f, i.rs1, i.rs2));
    }
  }

  lemma BumpListed(c: Cond, long: bool, p: Punct)
    requires NamedCond(c) && (p == Inc || p == Dec)
    ensures Listed(PIf(c, Cons(TSp, P(Equals, PShort(long, Cons(TSp, P(p, End)))))))
  {
    ShortTaken(long, Cons(TSp, P(p, End)));
    hide Listed, TakeShort, PShort, PIf, NamedCond;
    ConditionListed(c, Cons(TSp, P(Equals, PShort(long, Cons(TSp, P(p, End))))));
  }

  lemma ImmRhsListed(long: bool, rd: Reg, p: Punct, n: int)
    requires OperandReg(rd) && -0x8000 <= n <= 0x7FFF
    requires p == PlusSign || p == MinusSign || LogicalOf(p).Some?
    ensures ListedArith(true, long, rd, PReg(rd, P(p, PImm(n, End)))) && Arithmetic(PReg(rd, P(p, PImm(n, End))))
  {
    ImmTaken(n, End);
    hide OperandReg, TakeReg, PReg, PImm, TakeImm;
    RegRhsListed(true, long, rd, rd, P(p, PImm(n, End)));
  }

  lemma ReverseListed(long: bool, rd: Reg, n: int)
    requires OperandReg(rd) && -0x8000 <= n <= 0x7FFF
    ensures ListedArith(true, long, rd, PImm(n, P(MinusSign, PReg(rd, End)))) && Arithmetic(PImm(n, P(MinusSign, PReg(rd, End))))
    ensures ListedArith(true, long, rd, PImm(n, End)) && Arithmetic(PImm(n, End))
  {
    ImmTaken(n, P(MinusSign, PReg(rd, End)));
    ImmTaken(n, End);
    RegTaken(rd, End);
    hide OperandReg, TakeReg, PReg, PImm, TakeImm;
  }

  lemma CountListed(long: bool, rd: Reg, p: Punct, k: nat)
    requires OperandReg(rd) && k < 32 && ShiftOf(p).Some?
    ensures ListedArith(true, long, rd, PReg(rd, P(p, Dec10(k, End)))) && Arithmetic(PReg(rd, P(p, Dec10(k, End))))
  {
    hide OperandReg, TakeReg, PReg;
    RegRhsListed(true, long, rd, rd, P(p, Dec10(k, End)));
  }

  lemma AluImmListed(i: Insn)
    requires i.AluImm? && Printable(i)
    ensures Listed(AluImmText(i))
  {
    var n := Signed16(i.n);
    hide OperandReg, PReg, Listed, PShort, Signed16, PImm;
    if IsTest(i.f) {
      ImmTaken(n, End);
      hide TakeImm;
      TestListed(1, i.long, i.rd, OpSign(i.f), PImm(n, End));
    } else if i.f == F_RSUB {
      ReverseListed(i.long, i.rd, n);
      AssignListed(1, i.long, i.rd, PImm(n, P(MinusSign, PReg(i.rd, End))));
    } else if IsShift(i.f) {
      CountListed(i.long, i.rd, OpSign(i.f), n % 32);
      AssignListed(1, i.long, i.rd, PReg(i.rd, P(OpSign(i.f), Dec10(n % 32, End))));
    } else if IsRotate(i.f) {
      OneListed(true, i.long, i.rd, i.rd, OpSign(i.f));
      AssignListed(1, i.long, i.rd, PByOne(i.rd, OpSign(i.f)));
    } else {
      ImmRhsListed(i.long, i.rd, OpSign(i.f), n);
      AssignListed(1, i.long, i.rd, PReg(i.rd, P(OpSign(i.f), PImm(n, End))));
    }
  }

  lemma Add16Listed(i: Insn)
    requires i.Add16? && Printable(i)
    ensures Listed(Add16Text(i))
  {
    var n := Signed16(i.n);
    hide OperandReg, PReg, Listed, PShort, Signed16, PImm, ListedArith;
    if i.rs3 == R0 {
      ReverseListed(i.long, i.rd, n);
      AssignListed(1, i.long, i.rd, PImm(n, End));
    } else if n == 0 {
      RegRhsListed(true, i.long, i.rd, i.rs3, End);
      AssignListed(1, i.long, i.rd, PReg(i.rs3, End));
    } else {
      DispListed(i.long, i.rd, i.rs3, n);
      AssignListed(1, i.long, i.rd, PReg(i.rs3, PDisp(n, End)));
    }
  }

  lemma DispListed(long: bool, rd: Reg, rs: Reg, n: int)
    requires OperandReg(rs) && rs != R0 && n != 0 && -0x8000 <= n <= 0x7FFF
    ensures ListedArith(true, long, rd, PReg(rs, PDisp(n, End))) && Arithmetic(PReg(rs, PDisp(n, End)))
  {
    hide OperandReg, PReg, TakeReg, TakeImm;
    assert ListedTail(true, long, rd, rs, PDisp(n, End));
    RegRhsListed(true, long, rd, rs, PDisp(n, End));
  }

  // ---------------------------------------------------------------------
  // Moves

  lemma SourcePrinted(ior: bool, ts: Toks) returns (w: U3, src: Toks)
    requires ListedSource(ior, ts)
    ensures NamedSize(w) && ts == PSize(w, src) && (Whole(TakeReg(src)) || (ior && IorEnds(src)))
  {
    SizePrinted(ts);
    w, src := TakeSize(ts).0, TakeSize(ts).1;
  }

  /** Listed stores of a register are printed. */
  lemma StorePrinted(ts: Toks, addr: word)
    requires ListedStore(ts)
    ensures Printed(ts, addr)
  {
    HexPrinted(ts.rest, 0xFFFF);
    MemPrinted(ts);
    hide OperandReg, PReg, TakeReg, TakeHex, TakeMem, PMem, Printed, ListedSource;
    if TakeHex(ts.rest, 0xFFFF).Some? {
      var (l, rest) := TakeHex(ts.rest, 0xFFFF).value;
      var w, src := SourcePrinted(false, rest.rest);
      RegPrinted(src);
      DirectPrints(w, TakeReg(src).value.0, l, addr);
    } else {
      var ((rp, ri), rest) := TakeMem(ts).value;
      var w, src := SourcePrinted(true, rest.rest);
      RegPrinted(src);
      IndirectPrints(w, rp, ri, src, addr);
    }
  }

  lemma DirectPrints(w: U3, rh: Reg, l: half, addr: word)
    requires NamedSize(w) && OperandReg(rh)
    ensures Printed(P(Star, Hex(l, P(Equals, PSize(w, PReg(rh, End))))), addr)
  {
    hide OperandReg, PReg, PSize;
    PrintedBy(MoveDirect(true, w, rh, l), P(Star, Hex(l, P(Equals, PSize(w, PReg(rh, End))))), addr);
  }

  lemma IndirectPrints(w: U3, rp: Reg, ri: Reg, src: Toks, addr: word)
    requires NamedSize(w) && OperandReg(rp) && OperandReg(ri)
    requires IorEnds(src) || (TakeReg(src).Some? && OperandReg(TakeReg(src).value.0) && src == PReg(TakeReg(src).value.0, End))
    ensures Printed(PMem(rp, ri, P(Equals, PSize(w, src))), addr)
  {
    hide OperandReg, PReg, PSize, PMem, TakeReg;
    var text := PMem(rp, ri, P(Equals, PSize(w, src)));
    if IorEnds(src) {
      PrintedBy(MoveInd(true, true, w, src.t.ior, rp, ri), text, addr);
    } else {
      PrintedBy(MoveInd(false, true, w, TakeReg(src).value.0, rp, ri), text, addr);
    }
  }

  lemma IorPrinted(ts: Toks, addr: word)
    requires ListedIor(ts)
    ensures Printed(ts, addr)
  {
    var (w, t) := TakeSize(ts.rest.rest);
    SizePrinted(ts.rest.rest);
    MemPrinted(t);
    RegPrinted(t);
    hide OperandReg, PReg, TakeReg, TakeMem, PMem, TakeSize, PSize;
    assert ts == PIor(ts.t.ior, P(Equals, PSize(w, t)));
    if Whole(TakeMem(t)) {
      var (rp, ri) := TakeMem(t).value.0;
      PrintedBy(MoveInd(true, false, w, ts.t.ior, rp, ri), ts, addr);
    } else {
      PrintedBy(MoveIor(true, w, TakeReg(t).value.0, ts.t.ior), ts, addr);
    }
  }

  lemma MemEnds(rp: Reg, ri: Reg)
    requires OperandReg(rp) && OperandReg(ri)
    ensures Whole(TakeMem(PMem(rp, ri, End))) && AtP(PMem(rp, ri, End), Star)
    ensures TakeHex(PMem(rp, ri, End).rest, 0xFFFF).None?
  {
    MemTaken(rp, ri, End);
    NotHex(rp, ri, End);
    hide OperandReg, PReg, TakeReg, TakeMem;
  }

  lemma NotHex(rp: Reg, ri: Reg, rest: Toks)
    requires OperandReg(rp)
    ensures AtP(PMem(rp, ri, rest), Star) && TakeHex(PMem(rp, ri, rest).rest, 0xFFFF).None?
  {
    RegTaken(rp, if ri == R0 then rest
                 else if ri == PLUS then P(Inc, rest)
                 else if ri == MINUS then P(Dec, rest)
                 else P(Inc, PReg(ri, rest)));
    hide OperandReg, PReg, TakeReg;
  }

  lemma LoadListed(rd: Reg, w: U3, src: Toks)
    requires OperandReg(rd) && NamedSize(w)
    requires (AtP(src, Star) && (HexFrom(src.rest, 0, 0xFFFF) || Whole(TakeMem(src)))) || IorEnds(src)
    ensures Listed(PReg(rd, P(Equals, PSize(w, src))))
  {
    SizeTaken(w, src);
    hide OperandReg, PReg, TakeReg, TakeMem, TakeHex, PSize, TakeSize, Listed, IsUshort;
    RhsListed(1, rd, PSize(w, src));
    assert ListedRhs(true, rd, PSize(w, src));
  }

  lemma SourceListed(ior: bool, w: U3, src: Toks)
    requires NamedSize(w) && !AtP(src, Open) && (Whole(TakeReg(src)) || (ior && IorEnds(src)))
    ensures ListedSource(ior, PSize(w, src))
  {
    SizeTaken(w, src);
    hide TakeReg, TakeSize, PSize;
  }

  lemma StoreStarts(ts: Toks)
    requires ListedStore(ts) && AtP(ts, Star)
    ensures Listed(ts)
  {
    hide ListedStore;
  }

  lemma IorStarts(ts: Toks)
    requires ListedIor(ts)
    ensures Listed(ts)
  {
    hide TakeMem, TakeReg, TakeSize;
  }

  lemma IndStoreListed(w: U3, rp: Reg, ri: Reg, src: Toks)
    requires NamedSize(w) && OperandReg(rp) && OperandReg(ri) && !AtP(src, Open)
    requires Whole(TakeReg(src)) || IorEnds(src)
    ensures Listed(PMem(rp, ri, P(Equals, PSize(w, src))))
  {
    var rest := P(Equals, PSize(w, src));
    MemTaken(rp, ri, rest);
    NotHex(rp, ri, rest);
    SourceListed(true, w, src);
    hide OperandReg, PReg, TakeReg, TakeMem, PMem, PSize, ListedSource, TakeHex, Listed;
    StoreStarts(PMem(rp, ri, rest));
  }

  lemma IorTargetListed(ior: Reg, w: U3, src: Toks)
    requires NamedIor(ior) && NamedSize(w) && !AtP(src, Open)
    requires Whole(TakeMem(src))
             || (Whole(TakeReg(src)) && !(ior == 10 && TakeReg(src).value.0 == R0 && (w == 7 || w == 3 || w == 0)))
    ensures Listed(PIor(ior, P(Equals, PSize(w, src))))
  {
    SizeTaken(w, src);
    hide TakeReg, TakeMem, PSize, TakeSize, Listed;
    IorStarts(PIor(ior, P(Equals, PSize(w, src))));
  }

  lemma MoveListed(i: Insn)
    requires (i.MoveDirect? || i.MoveIor? || i.MoveInd?) && Printable(i)
    ensures Listed(MoveText(i))
  {
    match i
    case MoveDirect(t, wsz, rh, l) =>
      RegTaken(rh, End);
      hide OperandReg, PReg, TakeReg, PSize, Listed;
      if !t {
        LoadListed(rh, wsz, P(Star, Hex(l, End)));
      } else {
        SourceListed(false, wsz, PReg(rh, End));
        hide ListedSource;
        StoreStarts(P(Star, Hex(l, P(Equals, PSize(wsz, PReg(rh, End))))));
      }
    case MoveIor(t, wsz, rh, ior) =>
      if IsSpcWord(i) {
      } else if !t {
        hide OperandReg, PReg, TakeReg, PSize, Listed;
        LoadListed(rh, wsz, PIor(ior, End));
      } else {
        RegTaken(rh, End);
        hide OperandReg, PReg, TakeReg, PSize, Listed, TakeMem;
        IorTargetListed(ior, wsz, PReg(rh, End));
      }
    case MoveInd(io, t, wsz, rh, rp, ri) =>
      if io { } else { RegTaken(rh, End); }
      MemEnds(rp, ri);
      hide OperandReg, PReg, TakeReg, TakeMem, PMem, PSize, Listed, TakeHex;
      if !t {
        if io { IorTargetListed(rh, wsz, PMem(rp, ri, End)); } else { LoadListed(rh, wsz, PMem(rp, ri, End)); }
      } else {
        IndStoreListed(wsz, rp, ri, if io then PIor(rh, End) else PReg(rh, End));
      }
  }

  // ---------------------------------------------------------------------
  // Branches

  /** "{N, rB, rB+N}" as format 8a and the 16-bit forms print it. */
  predicate TargetOf(rb: Reg, n: int, wideAbs: nat, widePlus: nat) {
    && OperandReg(rb)
    && if rb == R0 then 0 <= n <= 0x7FFF || 0xFFFF_8000 <= n <= 0xFFFF_FFFF || 0 <= n <= wideAbs
       else -0x8000 <= n <= 0x7FFF || 0 < n <= widePlus
  }

  function TargetToks(rb: Reg, n: int, rest: Toks): Toks
    requires rb == R0 ==> n >= 0
  {
    if rb == R0 then Hex(n, rest) else if n == 0 then PReg(rb, rest) else PReg(rb, PDisp(n, rest))
  }

  lemma TargetPrinted(ts: Toks, wideAbs: nat, widePlus: nat)
    requires wideAbs <= 0xFF_FFFF && widePlus <= 0xFF_FFFF
    ensures TakeTarget(ts, wideAbs, widePlus).Some? ==>
              var ((rb, n), rest) := TakeTarget(ts, wideAbs, widePlus).value;
              TargetOf(rb, n, wideAbs, widePlus) && ts == TargetToks(rb, n, rest)
  {
    PseudoNames();
    if ts.Cons? && ts.t.TNum? {
      HexPrinted(ts, 0xFFFF_FFFF);
    } else {
      RegPrinted(ts);
      hide OperandReg, PReg, TakeReg;
    }
  }

  lemma TargetTaken(rb: Reg, n: int, wideAbs: nat, widePlus: nat, rest: Toks)
    requires wideAbs <= 0xFF_FFFF && widePlus <= 0xFF_FFFF && TargetOf(rb, n, wideAbs, widePlus)
    requires !AtP(rest, PlusSign) && !AtP(rest, MinusSign)
    ensures TakeTarget(TargetToks(rb, n, rest), wideAbs, widePlus) == Some(((rb, n), rest))
  {
    if rb != R0 {
      if n == 0 { RegTaken(rb, rest); } else { RegTaken(rb, PDisp(n, rest)); }
      hide OperandReg, PReg, TakeReg;
    }
  }

  /** The 16-bit field that prints so. */
  function Low16(n: int): half { n % 0x1_0000 }

  lemma TargetText(rb: Reg, n: int, rest: Toks)
    requires TargetOf(rb, n, 0, 0)
    ensures PTarget(rb, Signed16(Low16(n)), rest) == TargetToks(rb, n, rest)
  {
    hide PReg, OperandReg;
  }

  lemma TargetField(rb: Reg, n: half, rest: Toks)
    requires OperandReg(rb)
    ensures var v := if rb == R0 then Wrap(Signed16(n)) else Signed16(n);
            TargetOf(rb, v, 0, 0) && PTarget(rb, Signed16(n), rest) == TargetToks(rb, v, rest)
  {
    hide PReg, OperandReg;
  }

  lemma GotoPrinted(c: Cond, ts: Toks, addr: word)
    requires NamedCond(c) && ListedGoto(c, ts) && (c == 1 ==> ts != Cons(TReg(PCSH), End))
    ensures Printed(PIf(c, Cons(TKw(KwGoto), ts)), addr)
  {
    var wide := if c == 1 then 0xFF_FFFF else 0;
    TargetPrinted(ts, wide, wide);
    var (rb, n) := TakeTarget(ts, wide, wide).value.0;
    hide TakeTarget, NamedCond, Printed;
    assert c == 1 && n == 0 ==> rb != PCSH;
    if TargetOf(rb, n, 0, 0) {
      TargetText(rb, n, End);
      ShortGoto(c, rb, n, addr);
    } else {
      WideGoto(rb, n, addr);
    }
  }

  lemma ShortGoto(c: Cond, rb: Reg, n: int, addr: word)
    requires NamedCond(c) && TargetOf(rb, n, 0, 0) && !(c == 0 && rb == R0 && n == 0) && !(c == 1 && rb == PCSH && n == 0)
    ensures Printed(PIf(c, Cons(TKw(KwGoto), TargetToks(rb, n, End))), addr)
  {
    TargetText(rb, n, End);
    LowZero(n);
    hide NamedCond, OperandReg, PReg, PTarget, TargetToks, Signed16, Low16;
    PrintedBy(Goto16(c, rb, Low16(n)), PIf(c, Cons(TKw(KwGoto), TargetToks(rb, n, End))), addr);
  }

  lemma LowZero(n: int)
    requires -0x8000 <= n <= 0x7FFF || 0xFFFF_8000 <= n <= 0xFFFF_FFFF
    ensures Signed16(Low16(n)) == 0 <==> n == 0
    ensures Low16(n) == 0 <==> n == 0
  {
  }

  lemma WideGoto(rb: Reg, n: int, addr: word)
    requires OperandReg(rb) && 0 < n <= 0xFF_FFFF
    ensures Printed(Cons(TKw(KwGoto), TargetToks(rb, n, End)), addr)
  {
    hide OperandReg, PReg;
    PrintedBy(Goto24(rb, n), Cons(TKw(KwGoto), TargetToks(rb, n, End)), addr);
  }

  lemma CallPrinted(ts: Toks, addr: word)
    requires ListedCall(ts)
    ensures Printed(Cons(TKw(KwCall), ts), addr)
  {
    TargetPrinted(ts, 0xFF_FFFF, 0);
    var ((rb, n), rest) := TakeTarget(ts, 0xFF_FFFF, 0).value;
    RegPrinted(rest.rest);
    hide TakeTarget, OperandReg, PReg, TakeReg;
    var rm := TakeReg(rest.rest).value.0;
    assert rest == P(Open, PReg(rm, P(Close, End)));
    if TargetOf(rb, n, 0, 0) {
      TargetText(rb, n, rest);
      hide PTarget, TargetToks, Signed16, Low16;
      PrintedBy(Call16(rm, rb, Low16(n)), Cons(TKw(KwCall), ts), addr);
    } else {
      PrintedBy(Call24(rm, n), Cons(TKw(KwCall), ts), addr);
    }
  }

  lemma LoopPrinted(ts: Toks, addr: word)
    requires ListedLoop(ts)
    ensures Printed(Cons(TKw(KwIf), P(Open, ts)), addr)
  {
    var (rm, rest) := TakeReg(ts).value;
    RegPrinted(ts);
    var t := rest.rest.rest;
    TargetPrinted(t.rest.rest.rest, 0, 0);
    var (rb, n) := TakeTarget(t.rest.rest.rest, 0, 0).value.0;
    TargetText(rb, n, End);
    hide TakeTarget, OperandReg, PReg, TakeReg, PTarget, TargetToks, Signed16, Low16;
    assert ts == PReg(rm, P(Dec, P(AtLeast, Cons(TNum(0, false), P(Close, Cons(TKw(KwGoto), TargetToks(rb, n, End)))))));
    PrintedBy(LoopGoto(rm, rb, Low16(n)), Cons(TKw(KwIf), P(Open, ts)), addr);
  }

  lemma GotoListed(i: Insn)
    requires i.Goto16? && Printable(i)
    ensures Listed(Goto16Text(i))
  {
    var n := Signed16(i.n);
    if (i.c == 0 && i.rb == R0 && n == 0) || (i.c == 1 && i.rb == PCSH && n == 0) {
    } else {
      var v := if i.rb == R0 then Wrap(n) else n;
      TargetField(i.rb, i.n, End);
      hide NamedCond, OperandReg, PTarget, Listed, Signed16, TargetToks;
      GotoTextListed(i.c, i.rb, v);
    }
  }

  lemma GotoTextListed(c: Cond, rb: Reg, v: int)
    requires NamedCond(c) && TargetOf(rb, v, if c == 1 then 0xFF_FFFF else 0, if c == 1 then 0xFF_FFFF else 0)
    requires !(c == 0 && rb == R0 && v == 0) && !(c == 1 && rb == PCSH && v == 0)
    ensures Listed(PIf(c, Cons(TKw(KwGoto), TargetToks(rb, v, End))))
  {
    var wide := if c == 1 then 0xFF_FFFF else 0;
    TargetTaken(rb, v, wide, wide, End);
    if c == 1 { NotIreturn(rb, v); }
    hide NamedCond, OperandReg, TakeTarget, TargetToks, ListedReg, ListedLoop;
    assert ListedGoto(c, TargetToks(rb, v, End));
    hide ListedGoto;
  }

  lemma NotIreturn(rb: Reg, v: int)
    requires TargetOf(rb, v, 0xFF_FFFF, 0xFF_FFFF) && !(rb == PCSH && v == 0)
    ensures TargetToks(rb, v, End) != Cons(TReg(PCSH), End)
  {
  }

  lemma CallListed(rm: Reg, rb: Reg, v: int)
    requires OperandReg(rm) && TargetOf(rb, v, 0xFF_FFFF, 0)
    ensures Listed(Cons(TKw(KwCall), TargetToks(rb, v, P(Open, PReg(rm, P(Close, End))))))
  {
    TargetTaken(rb, v, 0xFF_FFFF, 0, P(Open, PReg(rm, P(Close, End))));
    RegTaken(rm, P(Close, End));
    hide OperandReg, TakeTarget, TargetToks, PReg, TakeReg;
  }

  lemma LoopStarts(ts: Toks)
    requires ListedLoop(ts) && ts.Cons? && !ts.t.TCond?
    ensures Listed(Cons(TKw(KwIf), P(Open, ts)))
  {
    hide ListedLoop, ListedReg, ListedGoto;
  }

  lemma LoopListed(i: Insn)
    requires i.LoopGoto? && Printable(i)
    ensures Listed(LoopGotoText(i))
  {
    var v := if i.rb == R0 then Wrap(Signed16(i.n)) else Signed16(i.n);
    TargetField(i.rb, i.n, End);
    TargetTaken(i.rb, v, 0, 0, End);
    var target := PTarget(i.rb, Signed16(i.n), End);
    var tail := P(Dec, P(AtLeast, Cons(TNum(0, false), P(Close, Cons(TKw(KwGoto), target)))));
    RegTaken(i.rm, tail);
    hide OperandReg, TakeTarget, TargetToks, PReg, TakeReg, PTarget, Signed16, Wrap;
    LoopStarts(PReg(i.rm, tail));
  }

  // ---------------------------------------------------------------------
  // Loops

  lemma CountPrinted(ts: Toks) returns (count: Count)
    requires ListedCount(ts)
    ensures (count.CountReg? ==> OperandReg(count.r))
            && ts == match count case CountReg(r) => PReg(r, End) case CountImm(l) => Dec10(l, End)
  {
    RegPrinted(ts);
    DecPrinted(ts, 2047);
    hide OperandReg, PReg, TakeReg, TakeDec;
    if Whole(TakeReg(ts)) { count := CountReg(TakeReg(ts).value.0); } else { count := CountImm(TakeDec(ts, 2047).value.0); }
  }

  lemma DoPrinted(lock: bool, block: bool, ts: Toks, addr: word)
    requires !(lock && block)
    requires ListedDo(if block then 1 else 0, ts) || (block && ListedCount(ts))
    ensures Printed(Cons(TKw(if block then KwDoblock else if lock then KwDolock else KwDo), ts), addr)
  {
    var text := Cons(TKw(if block then KwDoblock else if lock then KwDolock else KwDo), ts);
    DecPrinted(ts, 127);
    hide OperandReg, PReg, TakeReg, TakeDec, ListedCount;
    if ListedDo(if block then 1 else 0, ts) {
      var (k, rest) := TakeDec(ts, 127).value;
      var count := CountPrinted(rest.rest);
      PrintedBy(Do(lock, block, k, count), text, addr);
    } else {
      var count := CountPrinted(ts);
      PrintedBy(Do(lock, block, 0, count), text, addr);
    }
  }

  lemma DoListed(i: Insn)
    requires i.Do? && Printable(i)
    ensures Listed(DoText(i))
  {
    var count := match i.count case CountReg(r) => PReg(r, End) case CountImm(l) => Dec10(l, End);
    assert ListedCount(count) by {
      if i.count.CountReg? { RegTaken(i.count.r, End); hide OperandReg, PReg, TakeReg; }
    }
    hide ListedCount, OperandReg, PReg;
    assert ListedDo(i.k, Dec10(i.k, P(Comma, count)));
  }

  // ---------------------------------------------------------------------
  // Statements other than DA

  lemma ConditionalPrinted(ts: Toks, addr: word)
    requires ListedIf(ts)
    ensures Printed(Cons(TKw(KwIf), ts), addr)
  {
    hide ListedReg, ListedGoto, ListedLoop, Printed, NamedCond;
    assert ts == P(Open, ts.rest);
    if ts.rest.Cons? && ts.rest.t.TCond? {
      var c, t := ts.rest.t.c, ts.rest.rest;
      assert t == P(Close, t.rest);
      assert Cons(TKw(KwIf), ts) == PIf(c, t.rest);
      if AtKw(t.rest, KwGoto) { GotoPrinted(c, t.rest.rest, addr); } else { RegStmtPrinted(c, t.rest, addr); }
    } else {
      LoopPrinted(ts.rest, addr);
    }
  }

  lemma KeywordPrinted(kw: Keyword, addr: word)
    requires kw == KwNop || kw == KwIreturn || kw == KwWaiti || kw == KwBkpt || kw == KwSftrst
    ensures Printed(Cons(TKw(kw), End), addr)
  {
    PseudoNames();
    hide OperandReg;
    if kw == KwNop { PrintedBy(Goto16(0, R0, 0), Cons(TKw(kw), End), addr); }
    else if kw == KwIreturn { PrintedBy(Goto16(1, PCSH, 0), Cons(TKw(kw), End), addr); }
    else { PrintedBy(MoveIor(true, if kw == KwWaiti then 7 else if kw == KwBkpt then 3 else 0, R0, 10), Cons(TKw(kw), End), addr); }
  }

  lemma ListedKeywordPrinted(kw: Keyword, ts: Toks, addr: word)
    requires ListedKeyword(kw, ts)
    ensures Printed(Cons(TKw(kw), ts), addr)
  {
    hide ListedGoto, ListedIf, ListedCall, ListedDo, ListedCount, Printed;
    match kw
    case KwGoto => GotoPrinted(1, ts, addr);
    case KwCall => CallPrinted(ts, addr);
    case KwDo => DoPrinted(false, false, ts, addr);
    case KwDolock => DoPrinted(true, false, ts, addr);
    case KwDoblock => DoPrinted(false, true, ts, addr);
    case KwIf => ConditionalPrinted(ts, addr);
    case KwUshort24 =>
    case _ => KeywordPrinted(kw, addr);
  }

  /** Every listed CA statement is printed. */
  lemma CaListedPrinted(ts: Toks, addr: word)
    requires ListedClass(ts) == Some(CA)
    ensures Printed(ts, addr)
  {
    hide ListedReg, ListedKeyword, Printed, ListedIor, ListedAcc, ListedStore, ListedDaStore;
    if ts.t.TKw? {
      assert ts == Cons(TKw(ts.t.kw), ts.rest);
      ListedKeywordPrinted(ts.t.kw, ts.rest, addr);
    } else if ts.t.TIor? {
      IorPrinted(ts, addr);
    } else if AtP(ts, Star) {
      StorePrinted(ts, addr);
    } else {
      RegStmtPrinted(1, ts, addr);
    }
  }

  /** Every CA statement the disassembler prints is listed. */
  lemma CaPrintedListed(i: Insn, addr: word)
    requires Printable(i) && !ZeroDisplacement(i) && !i.Mac? && !i.Special?
    ensures Listed(DisInsn(i, addr).text)
  {
    hide Listed, AluRegText, AluImmText, Add16Text, MoveText, Goto16Text, LoopGotoText, DoText, PTarget, OperandReg, PReg,
         Signed16;
    match i
    case LoopGoto(_, _, _) => LoopListed(i);
    case Call16(rm, rb, n) =>
      TargetField(rb, n, P(Open, PReg(rm, P(Close, End))));
      CallListed(rm, rb, if rb == R0 then Wrap(Signed16(n)) else Signed16(n));
    case Add16(_, _, _, _) => Add16Listed(i);
    case AluReg(_, _, _, _, _, _) => AluRegListed(i);
    case AluImm(_, _, _, _) => AluImmListed(i);
    case MoveDirect(_, _, _, _) => MoveListed(i);
    case MoveIor(_, _, _, _) => MoveListed(i);
    case MoveInd(_, _, _, _, _, _) => MoveListed(i);
    case Goto16(_, _, _) => GotoListed(i);
    case Do(_, _, _, _) => DoListed(i);
    case ShiftOr(rd, rs, n) => ShiftOrListed(rd, rs, n);
    case Goto24(rb, m) => GotoTextListed(1, rb, m);
    case Set24(rd, m) => UshortListed(rd, m);
    case Call24(rm, m) =>
      PseudoNames();
      CallListed(rm, R0, m);
  }

  lemma ShiftOrListed(rd: Reg, rs: Reg, n: half)
    requires OperandReg(rd) && OperandReg(rs)
    ensures Listed(PReg(rd, P(Equals, PReg(rs, P(ShiftOrSign, Hex(n, End))))))
  {
    hide Listed, OperandReg, PReg, TakeReg, ListedArith;
    RegRhsListed(true, true, rd, rs, P(ShiftOrSign, Hex(n, End)));
    AssignListed(1, true, rd, PReg(rs, P(ShiftOrSign, Hex(n, End))));
  }

  lemma UshortListed(rd: Reg, m: U24)
    requires OperandReg(rd)
    ensures Listed(PReg(rd, P(Equals, P(Open, Cons(TKw(KwUshort24), P(Close, Hex(m, End)))))))
  {
    hide Listed, OperandReg, PReg;
    RhsListed(1, rd, P(Open, Cons(TKw(KwUshort24), P(Close, Hex(m, End)))));
  }
}
