/** Whatever statement the assembler accepts, its word decodes cleanly. */
module AsmSound {
  import opened Words
  import opened Insn
  import opened Syntax
  import opened Dis
  import opened DisClean
  import opened Asm

  // ---------------------------------------------------------------------
  // Fields read from lexical tokens have names

  lemma RegNamed(ts: Toks)
    requires AllLexical(ts) && TryReg(ts).Some?
    ensures OperandReg(TryReg(ts).value.0) && AllLexical(TryReg(ts).value.1)
  {
  }

  lemma OperandNamed(env: Env, ts: Toks)
    requires AllLexical(ts) && OperandOf(env, ts).Some?
    ensures var (o, rest) := OperandOf(env, ts).value;
            AllLexical(rest) && (o.OReg? || o.ONegReg? ==> OperandReg(o.r))
  {
    if TryReg(ts).Some? {
      RegNamed(ts);
    } else if AtP(ts, MinusSign) && TryReg(ts.rest).Some? {
      RegNamed(ts.rest);
    }
  }

  lemma {:induction false} ChainLexical(env: Env, lenient: bool, v: int, ts: Toks)
    requires AllLexical(ts) && Chain(env, lenient, v, ts).Some?
    ensures AllLexical(Chain(env, lenient, v, ts).value.1)
    decreases ts
  {
    if AtP(ts, PlusSign) || AtP(ts, MinusSign) {
      var (w, ts1) := Primary(env, lenient, ts.rest).value;
      ChainLexical(env, lenient, if ts.t == TP(PlusSign) then v + w else v - w, ts1);
    }
  }

  lemma ExprLexical(env: Env, lenient: bool, ts: Toks)
    requires AllLexical(ts) && Expr(env, lenient, ts).Some?
    ensures AllLexical(Expr(env, lenient, ts).value.1)
  {
    var ts0 := if AtP(ts, MinusSign) || AtP(ts, PlusSign) then ts.rest else ts;
    var (v, ts1) := Primary(env, lenient, ts0).value;
    ChainLexical(env, lenient, if AtP(ts, MinusSign) then -v else v, ts1);
  }

  lemma DestNamed(env: Env, addr: word, ts: Toks)
    requires AllLexical(ts) && DestOf(env, addr, ts).Some?
    ensures var (d, rest) := DestOf(env, addr, ts).value; OperandReg(DestReg(d)) && AllLexical(rest)
  {
    if TryReg(ts).Some? {
      RegNamed(ts);
    } else if ts.Cons? && ts.t.TSym? {
      var (v, ts1) := Primary(env, false, ts).value;
      ChainLexical(env, false, v, ts1);
    } else {
      ExprLexical(env, false, ts);
    }
  }

  lemma MemNamed(ts: Toks)
    requires AllLexical(ts) && MemOf(ts).Some?
    ensures var (m, rest) := MemOf(ts).value; OperandReg(m.rp) && OperandReg(ModReg(m.mod)) && AllLexical(rest)
  {
    RegNamed(ts.rest);
    var ts2 := TryReg(ts.rest).value.1;
    if AtP(ts2, Inc) && TryReg(ts2.rest).Some? {
      RegNamed(ts2.rest);
    }
    hide TryReg;
  }

  lemma SizeNamed(ts: Toks)
    requires AllLexical(ts)
    ensures AllLexical(TrySize(ts).1) && (TrySize(ts).0.Kw? ==> NamedSize(TrySize(ts).0.w))
  {
    if AtP(ts, Open) && ts.rest.Cons? && AtP(ts.rest.rest, Close) {
      LexicalTail(ts);
      LexicalTail(ts.rest);
      LexicalTail(ts.rest.rest);
      hide AllLexical;
    }
  }

  lemma LexicalTail(ts: Toks)
    requires AllLexical(ts) && ts.Cons?
    ensures Lexical(ts.t) && AllLexical(ts.rest)
  {
  }

  // ---------------------------------------------------------------------
  // Statements

  /** An accepted instruction: encodable, printed without placeholders, and in
      the short form where one exists. */
  predicate Good(r: Option<Insn>) {
    r.Some? ==> Encodable(r.value) && Printable(r.value) && (r.value.Goto24? ==> r.value.m24 > 0x7FFF)
  }

  lemma OperatorGood(c: Cond, long: bool, rd: Reg, rs1: Reg, op: Punct, o: Operand)
    requires NamedCond(c) && OperandReg(rd) && OperandReg(rs1) && (o.OReg? || o.ONegReg? ==> OperandReg(o.r))
    ensures Good(EncOperator(c, long, rd, rs1, op, o))
  {
    hide OperandReg, NamedCond;
    CommonNames();
  }

  lemma CommonNames()
    ensures OperandReg(R0) && OperandReg(PLUS) && OperandReg(MINUS) && OperandReg(PCSH) && OperandReg(SP)
    ensures NamedCond(0) && NamedCond(1) && NamedSize(7) && NamedSize(3)
  {
  }

  lemma BinaryGood(env: Env, c: Cond, long: bool, rd: Reg, rs1: Reg, op: Punct, ts: Toks)
    requires NamedCond(c) && OperandReg(rd) && OperandReg(rs1) && AllLexical(ts)
    ensures Good(EncBinary(env, c, long, rd, rs1, op, ts))
  {
    CommonNames();
    if RotateOf(op).Some? {
    } else if op.ShiftOrSign? {
    } else if OperandOf(env, ts).Some? {
      OperandNamed(env, ts);
      OperatorGood(c, long, rd, rs1, op, OperandOf(env, ts).value.0);
      hide OperandOf, OperandReg, EncOperator;
    }
  }

  lemma ArithGood(env: Env, c: Cond, long: bool, rd: Reg, ts: Toks)
    requires NamedCond(c) && OperandReg(rd) && AllLexical(ts)
    ensures Good(EncArith(env, c, long, rd, ts))
  {
    hide OperandOf, OperandReg, EncBinary, NamedCond, AllLexical;
    CommonNames();
    if OperandOf(env, ts).Some? {
      OperandNamed(env, ts);
      var (o, ts1) := OperandOf(env, ts).value;
      if o.OReg? {
        if ts1.Cons? && ts1.t.TP? {
          LexicalTail(ts1);
          BinaryGood(env, c, long, rd, o.r, ts1.t.p, ts1.rest);
        }
      } else if o.ONegReg? {
      } else {
      }
    }
  }

  /** Loads: memory or an I/O register to a register. */
  lemma LoadGood(rd: Reg, w: U3, l: half, ts: Toks)
    requires OperandReg(rd) && NamedSize(w) && AllLexical(ts)
    ensures Good(Some(MoveDirect(false, w, rd, l)))
    ensures ts.Cons? && ts.t.TIor? ==> Good(Some(MoveIor(false, w, rd, ts.t.ior)))
    ensures MemOf(ts).Some? ==>
              var m := MemOf(ts).value.0; Good(Some(MoveInd(false, false, w, rd, m.rp, ModReg(m.mod))))
  {
    if ts.Cons? { LexicalTail(ts); }
    if MemOf(ts).Some? { MemNamed(ts); }
    hide OperandReg, NamedSize, NamedIor, MemOf, AllLexical;
  }

  lemma LoadRhsGood(env: Env, c: Cond, rd: Reg, ts: Toks)
    requires OperandReg(rd) && AllLexical(ts) && !TrySize(ts).0.Ushort24?
    requires var ts1 := TrySize(ts).1; AtP(ts1, Star) || (ts1.Cons? && ts1.t.TIor?)
    ensures Good(EncRegRhs(env, c, rd, ts))
  {
    CommonNames();
    SizeNamed(ts);
    var (kw, ts1) := TrySize(ts);
    var w := MoveSizeOf(kw).value;
    GoodNone();
    hide TrySize, OperandReg, NamedSize, EncArith, MemOf, IsDirect, Expr, U16Of, AllLexical, Good, ModReg;
    forall l: half ensures Good(Some(MoveDirect(false, w, rd, l))) { LoadGood(rd, w, l, ts1); }
    LoadGood(rd, w, 0, ts1);
    if AtP(ts1, Star) {
      if c == 1 {
        if IsDirect(ts1) {
        } else {
        }
      }
    }
  }

  lemma WideRhsGood(env: Env, c: Cond, rd: Reg, ts: Toks)
    requires OperandReg(rd) && TrySize(ts).0.Ushort24?
    ensures Good(EncRegRhs(env, c, rd, ts))
  {
    hide TrySize, OperandReg, Expr;
  }

  lemma ArithRhsGood(env: Env, c: Cond, rd: Reg, ts: Toks)
    requires NamedCond(c) && OperandReg(rd) && AllLexical(ts) && !TrySize(ts).0.Ushort24?
    requires var ts1 := TrySize(ts).1; !(AtP(ts1, Star) || (ts1.Cons? && ts1.t.TIor?))
    ensures Good(EncRegRhs(env, c, rd, ts))
  {
    SizeNamed(ts);
    GoodNone();
    var (kw, ts1) := TrySize(ts);
    hide TrySize, OperandReg, NamedCond, NamedSize, EncArith, AllLexical, Good;
    if LongOf(kw).Some? {
      ArithGood(env, c, LongOf(kw).value, rd, ts1);
    }
  }

  lemma RhsGood(env: Env, c: Cond, rd: Reg, ts: Toks)
    requires NamedCond(c) && OperandReg(rd) && AllLexical(ts)
    ensures Good(EncRegRhs(env, c, rd, ts))
  {
    hide *;
    var (kw, ts1) := TrySize(ts);
    if kw.Ushort24? {
      WideRhsGood(env, c, rd, ts);
    } else if AtP(ts1, Star) || (ts1.Cons? && ts1.t.TIor?) {
      LoadRhsGood(env, c, rd, ts);
    } else {
      ArithRhsGood(env, c, rd, ts);
    }
  }

  lemma TestGood(c: Cond, kw: SizeKw, rs1: Reg, env: Env, ts: Toks)
    requires NamedCond(c) && OperandReg(rs1) && AllLexical(ts)
    ensures Good(EncTest(c, kw, rs1, env, ts))
  {
    hide OperandOf, OperandReg, NamedCond, AllLexical, U16Of;
    if ts.Cons? {
      LexicalTail(ts);
      if OperandOf(env, ts.rest).Some? { OperandNamed(env, ts.rest); }
    }
  }

  lemma RegStmtGood(env: Env, c: Cond, ts: Toks)
    requires NamedCond(c) && AllLexical(ts)
    ensures Good(EncRegStmt(env, c, ts))
  {
    SizeNamed(ts);
    var (kw, ts0) := TrySize(ts);
    hide TrySize, NamedCond, AllLexical;
    if OperandOf(env, ts0).Some? {
      OperandNamed(env, ts0);
      var (lhs, ts1) := OperandOf(env, ts0).value;
      hide OperandOf, OperandReg;
      if lhs.OReg? {
        TestGood(c, kw, lhs.r, env, ts1);
        if AtP(ts1, Equals) {
          LexicalTail(ts1);
          RhsGood(env, c, lhs.r, ts1.rest);
        }
        hide EncTest, EncRegRhs;
      }
    }
  }

  lemma DirectStoreGood(env: Env, ts: Toks)
    requires AllLexical(ts) && IsDirect(ts)
    ensures Good(EncStore(env, ts))
  {
    LexicalTail(ts);
    GoodNone();
    hide Expr, TrySize, TryReg, OperandReg, NamedSize, AllLexical, U16Of, Good, IsDirect;
    if EncStore(env, ts).Some? {
      var ts1 := Expr(env, false, ts.rest).value.1;
      ExprLexical(env, false, ts.rest);
      LexicalTail(ts1);
      DirectSourceGood(ts1.rest, U16Of(Expr(env, false, ts.rest).value.0).value);
    }
  }

  lemma DirectSourceGood(ts: Toks, l: half)
    requires AllLexical(ts) && MoveSizeOf(TrySize(ts).0).Some? && TryReg(TrySize(ts).1).Some?
    ensures Good(Some(MoveDirect(true, MoveSizeOf(TrySize(ts).0).value, TryReg(TrySize(ts).1).value.0, l)))
  {
    CommonNames();
    SizeNamed(ts);
    RegNamed(TrySize(ts).1);
    hide TrySize, TryReg, OperandReg, NamedSize, AllLexical;
  }

  lemma DaStoreGood(m: Mem, ts: Toks)
    requires AllLexical(ts) && ts.Cons? && ts.t.TAcc? && AtP(ts.rest, Equals) && MemField(m).Some?
    ensures Good(EncDa(ts.t.n, MemField(m), ts.rest.rest))
  {
    LexicalTail(ts);
    LexicalTail(ts.rest);
    MemFieldPointer(m);
    DaGood(ts.t.n, MemField(m), ts.rest.rest);
  }

  /** "(size) source" after the "=" of a store. */
  lemma MoveSourceGood(ts: Toks, m: Mem)
    requires AllLexical(ts) && OperandReg(m.rp) && OperandReg(ModReg(m.mod))
    requires MoveSizeOf(TrySize(ts).0).Some?
    ensures var (kw, ts1) := TrySize(ts);
            var w := MoveSizeOf(kw).value;
            && (ts1.Cons? && ts1.t.TIor? ==> Good(Some(MoveInd(true, true, w, ts1.t.ior, m.rp, ModReg(m.mod)))))
            && (TryReg(ts1).Some? ==>
                  Good(Some(MoveInd(false, true, w, TryReg(ts1).value.0, m.rp, ModReg(m.mod)))))
  {
    CommonNames();
    SizeNamed(ts);
    var (kw, ts1) := TrySize(ts);
    if ts1.Cons? { LexicalTail(ts1); }
    if TryReg(ts1).Some? { RegNamed(ts1); }
    hide TrySize, TryReg, OperandReg, NamedSize, AllLexical;
  }

  lemma StoreGood(env: Env, ts: Toks)
    requires AllLexical(ts)
    ensures Good(EncStore(env, ts))
  {
    if IsDirect(ts) {
      DirectStoreGood(env, ts);
    } else if MemOf(ts).Some? && AtP(MemOf(ts).value.1, Equals) {
      MemNamed(ts);
      LexicalTail(MemOf(ts).value.1);
      StoreAfterMem(env, ts);
    }
  }

  lemma StoreAfterMem(env: Env, ts: Toks)
    requires AllLexical(ts) && !IsDirect(ts) && MemOf(ts).Some? && AtP(MemOf(ts).value.1, Equals)
    requires var m := MemOf(ts).value.0; OperandReg(m.rp) && OperandReg(ModReg(m.mod))
    requires AllLexical(MemOf(ts).value.1.rest)
    ensures Good(EncStore(env, ts))
  {
    hide MemOf, IsDirect, EncDa, TrySize, TryReg, OperandReg, NamedSize, MemField, Good, ModReg, AllLexical;
    var (m, ts1) := MemOf(ts).value;
    var ts2 := ts1.rest;
    GoodNone();
    if ts2.Cons? && ts2.t.TAcc? && AtP(ts2.rest, Equals) {
      if MemField(m).Some? { DaStoreGood(m, ts2); }
    } else {
      if MoveSizeOf(TrySize(ts2).0).Some? { MoveSourceGood(ts2, m); }
    }
  }

  lemma GoodNone()
    ensures Good(None)
  {
  }

  lemma IorStmtGood(ior: Reg, ts: Toks)
    requires AllLexical(ts) && NamedIor(ior)
    ensures Good(EncIorStmt(ior, ts))
  {
    hide TrySize, TryReg, MemOf, OperandReg, NamedSize, NamedIor, AllLexical;
    if AtP(ts, Equals) {
      CommonNames();
      LexicalTail(ts);
      SizeNamed(ts.rest);
      var (kw, ts2) := TrySize(ts.rest);
      if AtP(ts2, Star) {
        if MemOf(ts2).Some? { MemNamed(ts2); }
      } else if TryReg(ts2).Some? {
        RegNamed(ts2);
      }
    }
  }

  // ---------------------------------------------------------------------
  // DA statements

  lemma MemFieldPointer(m: Mem)
    requires MemField(m).Some?
    ensures PointerField(MemField(m).value)
  {
  }

  lemma DaOperandGood(ts: Toks)
    requires DaOperandOf(ts).Some?
    ensures OperandField(DaOperandOf(ts).value.0)
  {
    if !(ts.Cons? && ts.t.TAcc?) {
      MemFieldPointer(MemOf(ts).value.0);
    }
  }

  predicate TermGood(t: Term) {
    match t
    case DOp(y) => OperandField(y)
    case DProd(y, x) => OperandField(y) && OperandField(x)
    case DTap(z, y) => PointerField(z) && OperandField(y)
    case DTapProd(z, y, x) => PointerField(z) && OperandField(y) && OperandField(x)
    case DZeroProd(x) => OperandField(x)
    case DZero => true
    case DOne => true
  }

  lemma TermIsGood(ts: Toks)
    requires TermOf(ts).Some?
    ensures TermGood(TermOf(ts).value.0)
  {
    hide DaOperandOf, MemField, MemOf, OperandField;
    if ts.Cons? && ts.t.TFnum? {
      if ts.t.f == 0.0 && AtP(ts.rest, Star) { DaOperandGood(ts.rest.rest); }
    } else if AtP(ts, Open) {
      var (m, ts1) := MemOf(ts.rest).value;
      MemFieldPointer(m);
      DaOperandGood(ts1.rest);
      var ts3 := DaOperandOf(ts1.rest).value.1;
      if AtP(ts3.rest, Star) { DaOperandGood(ts3.rest.rest); }
    } else {
      DaOperandGood(ts);
      var ts1 := DaOperandOf(ts).value.1;
      if AtP(ts1, Star) { DaOperandGood(ts1.rest); }
    }
  }

  lemma MacInsnGood(fmt: U3, mul: U3, fs: bool, ss: bool, an: U2, x: Field7, y: Field7, z: Field7)
    requires (fmt == 1 && mul <= 6) || ((fmt == 2 || fmt == 3) && mul <= 5)
    requires OperandField(y) && OperandField(x)
    requires PointerField(z) || z == DA_NOWRITE
    ensures Good(Some(MacInsn(fmt, mul, fs, ss, an, x, y, z)))
  {
  }

  predicate StoreGoodField(store: Option<Field7>) {
    store.Some? ==> PointerField(store.value)
  }

  lemma TermsGood(an: U2, store: Option<Field7>, fs: bool, ss: bool, t1: Term, t2: Term)
    requires StoreGoodField(store) && TermGood(t1) && TermGood(t2)
    ensures Good(EncTwoTerms(an, store, fs, ss, t1, t2)) && Good(EncOneTerm(an, store, fs, t1))
  {
    var z := if store.Some? then store.value else DA_NOWRITE;
    hide MacInsn, PointerField, Encodable, Printable;
    AccIsOperand();
    match t1 {
      case DOp(y1) =>
        MacInsnGood(1, 4, fs, false, an, 0, y1, z);
        match t2 {
          case DOp(x) => MacInsnGood(1, 5, fs, ss, an, x, y1, z);
          case DZeroProd(x) => MacInsnGood(1, 4, fs, ss, an, x, y1, z);
          case DProd(y2, x) =>
            if IsAcc(y2) { AccSmall(y2); MacInsnGood(1, y2, fs, ss, an, x, y1, z); }
            else if IsAcc(y1) { AccSmall(y1); MacInsnGood(3, y1, fs, ss, an, x, y2, z); }
          case DTapProd(z', y2, x) =>
            if IsAcc(y1) { AccSmall(y1); MacInsnGood(2, y1, fs, ss, an, x, y2, z'); }
          case _ =>
        }
      case DProd(y, x) => MacInsnGood(3, 4, false, fs, an, x, y, z);
      case DTapProd(z', y, x) => MacInsnGood(2, 4, false, fs, an, x, y, z');
      case DTap(z', y) => if t2.DOp? { MacInsnGood(1, 6, fs, ss, an, t2.y, y, z'); }
      case DZero => ConstantGood(an, store, fs, ss, 4, t2);
      case DOne => ConstantGood(an, store, fs, ss, 5, t2);
      case _ =>
    }
  }

  lemma AccIsOperand()
    ensures OperandField(0)
  {
  }

  lemma AccSmall(y: Field7)
    requires OperandField(y) && IsAcc(y)
    ensures y <= 3
  {
  }

  lemma ConstantGood(an: U2, store: Option<Field7>, fs: bool, ss: bool, mul: U3, t2: Term)
    requires StoreGoodField(store) && TermGood(t2) && (mul == 4 || mul == 5)
    ensures Good(EncConstant(an, store, fs, ss, mul, t2))
  {
    match t2
    case DProd(y, x) => MacInsnGood(3, mul, fs, ss, an, x, y, if store.Some? then store.value else DA_NOWRITE);
    case DTapProd(z, y, x) => MacInsnGood(2, mul, fs, ss, an, x, y, z);
    case _ =>
  }

  lemma SpecialGood(g: U4, an: U2, y: Field7, store: Option<Field7>)
    requires NamedG(g) && OperandField(y) && StoreGoodField(store)
    ensures Good(Some(Special(g, an, y, ZCanon(if store.Some? then store.value else DA_NOWRITE, y))))
  {
  }

  lemma DaGood(an: U2, store: Option<Field7>, ts: Toks)
    requires AllLexical(ts) && StoreGoodField(store)
    ensures Good(EncDa(an, store, ts))
  {
    hide TermOf, DaOperandOf, EncOneTerm, EncTwoTerms;
    if ts.Cons? && ts.t.TG? && AtP(ts.rest, Open) {
      if DaOperandOf(ts.rest.rest).Some? {
        DaOperandGood(ts.rest.rest);
        SpecialGood(ts.t.g, an, DaOperandOf(ts.rest.rest).value.0, store);
      }
    } else {
      var neg := AtP(ts, MinusSign);
      var r1 := TermOf(if neg then ts.rest else ts);
      if r1.Some? {
        var (t1, ts1) := r1.value;
        TermIsGood(if neg then ts.rest else ts);
        TermsGood(an, store, neg, false, t1, t1);
        if AtP(ts1, PlusSign) || AtP(ts1, MinusSign) {
          var r2 := TermOf(ts1.rest);
          if r2.Some? {
            TermIsGood(ts1.rest);
            TermsGood(an, store, neg, ts1.t == TP(MinusSign), t1, r2.value.0);
          }
        }
      }
    }
  }

  // ---------------------------------------------------------------------
  // Branches and loops

  lemma GotoStmtGood(env: Env, addr: word, c: Cond, ts: Toks)
    requires AllLexical(ts) && NamedCond(c)
    ensures Good(EncGotoStmt(env, addr, c, ts))
  {
    hide DestOf, OperandReg, NamedCond, AllLexical;
    if DestOf(env, addr, ts).Some? {
      DestNamed(env, addr, ts);
    }
  }

  lemma CallStmtGood(env: Env, addr: word, ts: Toks)
    requires AllLexical(ts)
    ensures Good(EncCallStmt(env, addr, ts))
  {
    hide DestOf, TryReg, OperandReg, AllLexical;
    CommonNames();
    if EncCallStmt(env, addr, ts).Some? {
      DestNamed(env, addr, ts);
      var ts1 := DestOf(env, addr, ts).value.1;
      LexicalTail(ts1);
      RegNamed(ts1.rest);
    }
  }

  lemma LoopGotoGood(env: Env, addr: word, ts: Toks)
    requires AllLexical(ts)
    ensures Good(EncLoopGoto(env, addr, ts))
  {
    hide TryReg, OperandReg, DestOf, AllLexical;
    if EncLoopGoto(env, addr, ts).Some? {
      RegNamed(ts);
      var ts1 := TryReg(ts).value.1;
      LexicalTail(ts1);
      LexicalTail(ts1.rest);
      LexicalTail(ts1.rest.rest);
      var ts3 := ts1.rest.rest.rest;
      LexicalTail(ts3);
      LexicalTail(ts3.rest);
      DestNamed(env, addr, ts3.rest.rest);
    }
  }

  lemma DoGood(env: Env, lock: bool, block: bool, ts: Toks)
    requires AllLexical(ts) && !(lock && block)
    ensures Good(EncDo(env, lock, block, ts))
  {
    if !block || (ts.Cons? && ts.t.TNum? && AtP(ts.rest, Comma)) {
      var r := Expr(env, false, ts);
      if r.Some? && AtP(r.value.1, Comma) {
        ExprLexical(env, false, ts);
        DoCountGood(env, lock, block, r.value.0, r.value.1.rest);
      }
      hide Expr, EncDoCount;
    } else {
      DoCountGood(env, lock, block, 0, ts);
      hide EncDoCount;
    }
  }

  lemma DoCountGood(env: Env, lock: bool, block: bool, k: int, ts: Toks)
    requires AllLexical(ts) && !(lock && block)
    ensures Good(EncDoCount(env, lock, block, k, ts))
  {
    if TryReg(ts).Some? {
      RegNamed(ts);
    }
    hide TryReg, OperandReg;
  }

  lemma PlainGood(env: Env, c: Cond, ts: Toks)
    requires AllLexical(ts) && NamedCond(c)
    ensures Good(EncPlain(env, c, ts))
  {
    hide EncDa, EncStore, EncIorStmt, EncRegStmt, NamedCond;
    if ts.Cons? && ts.t.TAcc? {
      if AtP(ts.rest, Equals) { DaGood(ts.t.n, None, ts.rest.rest); }
    } else if AtP(ts, Star) {
      StoreGood(env, ts);
    } else if ts.Cons? && ts.t.TIor? {
      assert Lexical(ts.t);
      IorStmtGood(ts.t.ior, ts.rest);
    } else {
      RegStmtGood(env, c, ts);
    }
  }

  lemma IfGood(env: Env, addr: word, ts: Toks)
    requires AllLexical(ts)
    ensures Good(EncIf(env, addr, ts))
  {
    hide EncPlain, EncGotoStmt, EncLoopGoto, NamedCond, AllLexical;
    if AtP(ts, Open) {
      LexicalTail(ts);
      var ts1 := ts.rest;
      if ts1.Cons? && ts1.t.TCond? {
        LexicalTail(ts1);
        if AtP(ts1.rest, Close) {
          LexicalTail(ts1.rest);
          var ts2 := ts1.rest.rest;
          if AtKw(ts2, KwGoto) {
            LexicalTail(ts2);
            GotoStmtGood(env, addr, ts1.t.c, ts2.rest);
          } else {
            PlainGood(env, ts1.t.c, ts2);
          }
        }
      } else {
        LoopGotoGood(env, addr, ts1);
      }
    }
  }

  /** Every accepted statement is a well-formed instruction whose disassembly is
      status OK, with every register, size, condition and operand named. */
  lemma Accepted(env: Env, addr: word, ts: Toks)
    requires AllLexical(ts) && AsmInsn(env, addr, ts).Some?
    ensures var i := AsmInsn(env, addr, ts).value;
            Encodable(i) && Clean(DisInsn(i, addr)) && (i.Goto24? ==> i.m24 > 0x7FFF)
  {
    var i := AsmInsn(env, addr, ts).value;
    CleanIsPrintable(i, addr);
    CommonNames();
    hide EncPlain, EncGotoStmt, EncCallStmt, EncDo, EncIf, OperandReg, NamedCond, NamedSize, Clean, DisInsn;
    if ts.Cons? && ts.t.TKw? {
      match ts.t.kw
      case KwGoto => GotoStmtGood(env, addr, 1, ts.rest);
      case KwCall => CallStmtGood(env, addr, ts.rest);
      case KwDo => DoGood(env, false, false, ts.rest);
      case KwDolock => DoGood(env, true, false, ts.rest);
      case KwDoblock => DoGood(env, false, true, ts.rest);
      case KwIf => IfGood(env, addr, ts.rest);
      case _ =>
    } else {
      PlainGood(env, 1, ts);
    }
  }

  /** The word of a statement. */
  function AssembleWord(env: Env, addr: word, ts: Toks): Option<word>
    requires AllLexical(ts)
  {
    var i :- AsmInsn(env, addr, ts);
    Accepted(env, addr, ts);
    Some(Encode(i))
  }
}
