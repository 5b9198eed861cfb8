/** The instruction encoder of the assembler: a statement's tokens to the
    instruction it stands for.  `None` is the error exit. */
module Asm {
  import opened Words
  import opened Insn
  import opened Syntax

  type Env = map<string, word>

  /** A parsed value and the tokens after it. */
  type Parse<T> = Option<(T, Toks)>

  // ---------------------------------------------------------------------
  // Token cursor

  predicate At(ts: Toks, t: Tok) { ts.Cons? && ts.t == t }
  predicate AtP(ts: Toks, p: Punct) { At(ts, TP(p)) }
  predicate AtKw(ts: Toks, kw: Keyword) { At(ts, TKw(kw)) }

  /** The tokens after punctuator p, which must come next. */
  function Need(ts: Toks, p: Punct): Option<Toks> {
    if AtP(ts, p) then Some(ts.rest) else None
  }

  function Skip(ts: Toks): Toks { if ts.Cons? then ts.rest else End }

  /** `v`, provided the statement ends here. */
  function AtEnd<T>(ts: Toks, v: T): Option<T> {
    if ts.End? then Some(v) else None
  }

  // ---------------------------------------------------------------------
  // Expressions

  /** A number or symbol.  While sizes are all that matters (`lenient`) an
      undefined name counts as 0. */
  function Primary(env: Env, lenient: bool, ts: Toks): (r: Parse<int>)
    ensures r.Some? ==> ts.Cons? && r.value.1 == ts.rest
  {
    if ts.End? then None
    else
      match ts.t
      case TNum(v, _) => Some((v, ts.rest))
      case TSym(s) => if s in env then Some((env[s], ts.rest)) else if lenient then Some((0, ts.rest)) else None
      case TP(_) => None
      case TReg(_) => None
      case TSp => None
      case TIor(_) => None
      case TFnum(_) => None
      case TBad => None
      case _ => if lenient then Some((0, ts.rest)) else None
  }

  /** The rest of a +/- chain. */
  function Chain(env: Env, lenient: bool, v: int, ts: Toks): (r: Parse<int>)
    ensures r.Some? ==> Length(r.value.1) <= Length(ts)
    decreases ts
  {
    if AtP(ts, PlusSign) || AtP(ts, MinusSign) then
      var (w, ts1) :- Primary(env, lenient, ts.rest);
      Chain(env, lenient, if ts.t == TP(PlusSign) then v + w else v - w, ts1)
    else Some((v, ts))
  }

  function Expr(env: Env, lenient: bool, ts: Toks): (r: Parse<int>)
    ensures r.Some? ==> Length(r.value.1) < Length(ts)
  {
    var (v, ts1) :- Primary(env, lenient, if AtP(ts, MinusSign) || AtP(ts, PlusSign) then ts.rest else ts);
    Chain(env, lenient, if AtP(ts, MinusSign) then -v else v, ts1)
  }

  // ---------------------------------------------------------------------
  // CA operands

  function TryReg(ts: Toks): Parse<Reg> {
    if ts.End? then None
    else
      match ts.t
      case TReg(code) => Some((code, ts.rest))
      case TSp => Some((SP, ts.rest))
      case TP(p) =>
        if (p.PlusSign? || p.MinusSign?) && At(ts.rest, TN) then
          Some((if p.PlusSign? then PLUS else MINUS, ts.rest.rest))
        else None
      case _ => None
  }

  datatype Operand = OReg(r: Reg) | OImm(v: int, bare1: bool, neg: bool) | ONegReg(r: Reg)

  function OperandOf(env: Env, ts: Toks): Parse<Operand> {
    var r := TryReg(ts);
    if r.Some? then Some((OReg(r.value.0), r.value.1))
    else if AtP(ts, Dec) && At(ts.rest, TN) then Some((ONegReg(MINUS), ts.rest.rest))
    else if AtP(ts, MinusSign) then
      var r' := TryReg(ts.rest);
      if r'.Some? then Some((ONegReg(r'.value.0), r'.value.1))
      else
        var (v, rest) :- Primary(env, false, ts.rest);
        Some((OImm(-v, false, true), rest))
    else if AtP(ts, PlusSign) then
      var (v, rest) :- Primary(env, false, ts.rest);
      Some((OImm(v, false, false), rest))
    else if ts.Cons? && ts.t.TNum? then Some((OImm(ts.t.v, ts.t.bare, false), ts.rest))
    else if ts.Cons? && ts.t.TSym? && ts.t.name in env then Some((OImm(env[ts.t.name], false, false), ts.rest))
    else None
  }

  /** A signed 16-bit value, or its 32-bit sign-extended spelling. */
  predicate FitsS16(v: int) {
    -0x8000 <= v <= 0x7FFF || 0xFFFF_8000 <= v <= 0xFFFF_FFFF
  }

  function U16Of(v: int): Option<half> {
    if FitsS16(v) || 0 <= v <= 0xFFFF then Some(v % 0x1_0000) else None
  }

  // ---------------------------------------------------------------------
  // Memory operands

  datatype Mod = NoMod | PlusMod | MinusMod | ByReg(ri: Reg)
  datatype Mem = Mem(rp: Reg, mod: Mod)

  function MemOf(ts: Toks): Parse<Mem> {
    var ts1 :- Need(ts, Star);
    var (rp, ts2) :- TryReg(ts1);
    if AtP(ts2, Inc) then
      var r := TryReg(ts2.rest);
      if r.Some? then Some((Mem(rp, ByReg(r.value.0)), r.value.1))
      else Some((Mem(rp, PlusMod), ts2.rest))
    else if AtP(ts2, Dec) then Some((Mem(rp, MinusMod), ts2.rest))
    else Some((Mem(rp, NoMod), ts2))
  }

  /** The modifier register of a CA move. */
  function ModReg(m: Mod): Reg {
    match m
    case NoMod => R0
    case PlusMod => PLUS
    case MinusMod => MINUS
    case ByReg(ri) => ri
  }

  /** The operand as a DA field: pointer r1-r14, modifier r15-r19. */
  function MemField(m: Mem): (f: Option<Field7>) {
    var p := RegNumber(m.rp);
    if !(1 <= p <= 14) then None
    else
      match m.mod
      case NoMod => Some(p * 8)
      case PlusMod => Some(p * 8 + 7)
      case MinusMod => Some(p * 8 + 6)
      case ByReg(ri) =>
        var r := RegNumber(ri);
        if 15 <= r <= 19 then Some(p * 8 + (r - 14)) else None
  }

  /** A number or symbol after `*` is a direct address. */
  predicate IsDirect(ts: Toks) {
    ts.Cons? && ts.rest.Cons?
    && !(ts.rest.t.TP? || ts.rest.t.TReg? || ts.rest.t.TSp? || ts.rest.t.TIor? || ts.rest.t.TFnum? || ts.rest.t.TBad?)
  }

  // ---------------------------------------------------------------------
  // Branch targets

  datatype Dest = Absolute(n: int) | PcRelative(n: int) | ViaReg(rb: Reg, n: int)

  /** Numbers are absolute, symbols pc-relative. */
  function DestOf(env: Env, addr: word, ts: Toks): Parse<Dest> {
    var r := TryReg(ts);
    if r.Some? then
      var (rb, ts1) := r.value;
      if AtP(ts1, PlusSign) || AtP(ts1, MinusSign) then
        var (v, ts2) :- Primary(env, false, ts1.rest);
        var n := if ts1.t == TP(MinusSign) then -v else v;
        Some((if rb == PC then PcRelative(n) else ViaReg(rb, n), ts2))
      else Some((if rb == PC then PcRelative(0) else ViaReg(rb, 0), ts1))
    else if ts.Cons? && ts.t.TSym? then
      var (v, ts1) :- Primary(env, false, ts);
      var (w, ts2) :- Chain(env, false, v, ts1);
      Some((PcRelative(w - (addr + 8)), ts2))
    else
      var (v, ts1) :- Expr(env, false, ts);
      Some((Absolute(v), ts1))
  }

  function DestReg(d: Dest): Reg {
    match d
    case Absolute(_) => R0
    case PcRelative(_) => PC
    case ViaReg(rb, _) => rb
  }

  /** 16 bits of displacement, or 24 for an unconditional goto. */
  function EncGoto(c: Cond, d: Dest): Option<Insn> {
    if FitsS16(d.n) then Some(Goto16(c, DestReg(d), d.n % 0x1_0000))
    else if c == 1 && 0 <= d.n <= 0xFF_FFFF then Some(Goto24(DestReg(d), d.n))
    else None
  }

  function EncCall(rm: Reg, d: Dest): Option<Insn> {
    if FitsS16(d.n) then Some(Call16(rm, DestReg(d), d.n % 0x1_0000))
    else if d.Absolute? && 0 <= d.n <= 0xFF_FFFF then Some(Call24(rm, d.n))
    else None
  }

  // ---------------------------------------------------------------------
  // DA statements

  function DaOperandOf(ts: Toks): Parse<Field7> {
    if ts.Cons? && ts.t.TAcc? then Some((ts.t.n, ts.rest))
    else
      var (m, ts1) :- MemOf(ts);
      var f :- MemField(m);
      Some((f, ts1))
  }

  predicate IsAcc(f: Field7) { f / 8 == 0 }

  /** Z on Y's own pointer is a store through Y. */
  function ZCanon(z: Field7, y: Field7): Field7 {
    if 1 <= z / 8 <= 14 && z / 8 == y / 8 then 120 + z % 8 else z
  }

  datatype Term =
    | DOp(y: Field7)
    | DProd(y: Field7, x: Field7)
    | DTap(z: Field7, y: Field7)
    | DTapProd(z: Field7, y: Field7, x: Field7)
    | DZero
    | DOne
    | DZeroProd(x: Field7)

  function TermOf(ts: Toks): Parse<Term> {
    if ts.Cons? && ts.t.TFnum? then
      if ts.t.f == 0.0 then
        if AtP(ts.rest, Star) then
          var (x, ts1) :- DaOperandOf(ts.rest.rest);
          Some((DZeroProd(x), ts1))
        else Some((DZero, ts.rest))
      else if ts.t.f == 1.0 then Some((DOne, ts.rest))
      else None
    else if AtP(ts, Open) then
      var (m, ts1) :- MemOf(ts.rest);
      var z :- MemField(m);
      var ts2 :- Need(ts1, Equals);
      var (y, ts3) :- DaOperandOf(ts2);
      var ts4 :- Need(ts3, Close);
      if AtP(ts4, Star) then
        var (x, ts5) :- DaOperandOf(ts4.rest);
        Some((DTapProd(z, y, x), ts5))
      else Some((DTap(z, y), ts4))
    else
      var (y, ts1) :- DaOperandOf(ts);
      if AtP(ts1, Star) then
        var (x, ts2) :- DaOperandOf(ts1.rest);
        Some((DProd(y, x), ts2))
      else Some((DOp(y), ts1))
  }

  function MacInsn(fmt: U3, mul: U3, fs: bool, ss: bool, an: U2, x: Field7, y: Field7, z: Field7): Insn {
    Mac(fmt, mul, fs, ss, an, x, y, ZCanon(z, y))
  }

  /** One term: [-]Y, [-]Y * X, [-](Z = Y) * X. */
  function EncOneTerm(an: U2, store: Option<Field7>, neg: bool, t: Term): Option<Insn> {
    var z := if store.Some? then store.value else DA_NOWRITE;
    match t
    case DOp(y) => Some(MacInsn(1, 4, neg, false, an, 0, y, z))
    case DProd(y, x) => Some(MacInsn(3, 4, false, neg, an, x, y, z))
    case DTapProd(z', y, x) => if store.Some? then None else Some(MacInsn(2, 4, false, neg, an, x, y, z'))
    case _ => None
  }

  /** Two terms: the adder input, then the product (or a plain X). */
  function EncTwoTerms(an: U2, store: Option<Field7>, fs: bool, ss: bool, t1: Term, t2: Term): Option<Insn> {
    var z := if store.Some? then store.value else DA_NOWRITE;
    match t1
    case DZero => EncConstant(an, store, fs, ss, 4, t2)
    case DOne => EncConstant(an, store, fs, ss, 5, t2)
    case DTap(z', y) => if t2.DOp? && store.None? then Some(MacInsn(1, 6, fs, ss, an, t2.y, y, z')) else None
    case DOp(y1) =>
      (match t2
       case DOp(x) => Some(MacInsn(1, 5, fs, ss, an, x, y1, z))
       case DZeroProd(x) => Some(MacInsn(1, 4, fs, ss, an, x, y1, z))
       case DProd(y2, x) =>
         if IsAcc(y2) then Some(MacInsn(1, y2, fs, ss, an, x, y1, z))
         else if IsAcc(y1) then Some(MacInsn(3, y1, fs, ss, an, x, y2, z))
         else None
       case DTapProd(z', y2, x) =>
         if IsAcc(y1) && store.None? then Some(MacInsn(2, y1, fs, ss, an, x, y2, z')) else None
       case _ => None)
    case _ => None
  }

  function EncConstant(an: U2, store: Option<Field7>, fs: bool, ss: bool, mul: U3, t2: Term): Option<Insn> {
    match t2
    case DProd(y, x) => Some(MacInsn(3, mul, fs, ss, an, x, y, if store.Some? then store.value else DA_NOWRITE))
    case DTapProd(z, y, x) => if store.Some? then None else Some(MacInsn(2, mul, fs, ss, an, x, y, z))
    case _ => None
  }

  /** After "aN =". */
  function EncDa(an: U2, store: Option<Field7>, ts: Toks): Option<Insn> {
    if ts.Cons? && ts.t.TG? && AtP(ts.rest, Open) then
      var (y, ts1) :- DaOperandOf(ts.rest.rest);
      var ts2 :- Need(ts1, Close);
      AtEnd(ts2, Special(ts.t.g, an, y, ZCanon(if store.Some? then store.value else DA_NOWRITE, y)))
    else
      var neg := AtP(ts, MinusSign);
      var (t1, ts1) :- TermOf(if neg then ts.rest else ts);
      if AtP(ts1, PlusSign) || AtP(ts1, MinusSign) then
        var (t2, ts2) :- TermOf(ts1.rest);
        if ts2.End? then EncTwoTerms(an, store, neg, ts1.t == TP(MinusSign), t1, t2) else None
      else if ts1.End? then EncOneTerm(an, store, neg, t1)
      else None
  }

  // ---------------------------------------------------------------------
  // Register statements

  datatype SizeKw = NoKw | Kw(w: U3) | Ushort24

  /** An optional "(keyword)". */
  function TrySize(ts: Toks): (SizeKw, Toks) {
    if AtP(ts, Open) && ts.rest.Cons? && AtP(ts.rest.rest, Close) then
      match ts.rest.t
      case TSize(w) => (Kw(w), ts.rest.rest.rest)
      case TKw(kw) => if kw.KwUshort24? then (Ushort24, ts.rest.rest.rest) else (NoKw, ts)
      case _ => (NoKw, ts)
    else (NoKw, ts)
  }

  /** Arithmetic is long or (short). */
  function LongOf(kw: SizeKw): Option<bool> {
    match kw
    case NoKw => Some(true)
    case Kw(w) => if w == 3 then Some(false) else None
    case Ushort24 => None
  }

  /** Moves default to long. */
  function MoveSizeOf(kw: SizeKw): Option<U3> {
    match kw
    case NoKw => Some(7)
    case Kw(w) => Some(w)
    case Ushort24 => None
  }

  function EncAdd16(long: bool, rd: Reg, rs3: Reg, n: int): Option<Insn> {
    if FitsS16(n) then Some(Add16(long, rd, rs3, n % 0x1_0000)) else None
  }

  function EncAluImm(long: bool, f: U4, rd: Reg, v: int): Option<Insn> {
    var n :- U16Of(v);
    Some(AluImm(long, f, rd, n))
  }

  /** rS1 {-,&} {rS2, N}: flags only. */
  function EncTest(c: Cond, kw: SizeKw, rs1: Reg, env: Env, ts: Toks): Option<Insn> {
    var long :- LongOf(kw);
    var f :- if AtP(ts, MinusSign) then Some(F_CMP) else if AtP(ts, Ampersand) then Some(F_BTST) else None;
    var (o, ts1) :- OperandOf(env, ts.rest);
    if !ts1.End? then None
    else
      match o
      case OReg(rs2) => Some(AluReg(long, f, 0, rs1, c, rs2))
      case OImm(v, _, _) => if c == 1 then EncAluImm(long, f, rs1, v) else None
      case ONegReg(_) => None
  }

  /** rD = rS + o. */
  function EncPlus(c: Cond, long: bool, rd: Reg, rs1: Reg, o: Operand): Option<Insn> {
    match o
    case OReg(rs2) => Some(AluReg(long, F_ADD, rd, rs1, c, rs2))
    case OImm(v, bare1, neg) =>
      if bare1 then
        if rd == SP && rs1 == SP then Some(AluReg(long, F_SUB, rd, rs1, c, MINUS))
        else Some(AluReg(long, F_ADD, rd, rs1, c, PLUS))
      else if (neg || v == 0 || rs1 == R0) && rs1 == rd && c == 1 then EncAluImm(long, F_ADD, rd, v)
      else if c == 1 then EncAdd16(long, rd, rs1, v)
      else None
    case ONegReg(_) => None
  }

  /** rD = rS - o. */
  function EncMinus(c: Cond, long: bool, rd: Reg, rs1: Reg, o: Operand): Option<Insn> {
    match o
    case OReg(rs2) =>
      if rs2 == PLUS || rs2 == MINUS || rs1 == R0 then Some(AluReg(long, F_RSUB, rd, rs2, c, rs1))
      else Some(AluReg(long, F_SUB, rd, rs1, c, rs2))
    case OImm(v, bare1, neg) =>
      if bare1 then
        if rd == SP && rs1 == SP then Some(AluReg(long, F_SUB, rd, rs1, c, PLUS))
        else Some(AluReg(long, F_ADD, rd, rs1, c, MINUS))
      else if (neg || v == 0 || rs1 == R0) && rs1 == rd && c == 1 then EncAluImm(long, F_SUB, rd, v)
      else if c == 1 then EncAdd16(long, rd, rs1, -v)
      else None
    case ONegReg(_) => None
  }

  function EncShift(c: Cond, long: bool, f: U4, rd: Reg, rs1: Reg, o: Operand): Option<Insn> {
    match o
    case OReg(rs2) => Some(AluReg(long, f, rd, rs1, c, rs2))
    case OImm(v, _, _) =>
      if rs1 == rd && c == 1 then
        if 0 <= v <= 31 then Some(AluImm(long, f, rd, v)) else None
      else if v == 1 then Some(AluReg(long, f, rd, rs1, c, PLUS))
      else None
    case ONegReg(_) => None
  }

  function EncLogical(c: Cond, long: bool, f: U4, rd: Reg, rs1: Reg, o: Operand): Option<Insn> {
    match o
    case OReg(rs2) => Some(AluReg(long, f, rd, rs1, c, rs2))
    case OImm(v, _, _) => if rs1 == rd && c == 1 then EncAluImm(long, f, rd, v) else None
    case ONegReg(_) => None
  }

  function ShiftOf(p: Punct): Option<U4> {
    match p
    case ShlSign => Some(F_SHL)
    case ShrSign => Some(F_SHR)
    case AsrSign => Some(F_ASR)
    case _ => None
  }

  function RotateOf(p: Punct): Option<U4> {
    match p
    case RolSign => Some(F_ROL)
    case RorSign => Some(F_ROR)
    case _ => None
  }

  function LogicalOf(p: Punct): Option<U4> {
    match p
    case Hash => Some(F_CRADD)
    case AndNot => Some(F_ANDC)
    case Caret => Some(F_XOR)
    case Bar => Some(F_OR)
    case Ampersand => Some(F_AND)
    case _ => None
  }

  function EncOperator(c: Cond, long: bool, rd: Reg, rs1: Reg, op: Punct, o: Operand): Option<Insn> {
    if op.PlusSign? then EncPlus(c, long, rd, rs1, o)
    else if op.MinusSign? then EncMinus(c, long, rd, rs1, o)
    else if op.Star? then
      if o.OImm? && o.v == 2 then Some(AluReg(long, F_ADD, rd, rs1, c, rs1)) else None
    else if ShiftOf(op).Some? then EncShift(c, long, ShiftOf(op).value, rd, rs1, o)
    else if LogicalOf(op).Some? then EncLogical(c, long, LogicalOf(op).value, rd, rs1, o)
    else None
  }

  /** The statement "rD = rS op ..." from its operator on. */
  function EncBinary(env: Env, c: Cond, long: bool, rd: Reg, rs1: Reg, op: Punct, ts: Toks): Option<Insn> {
    if RotateOf(op).Some? then
      if ts.Cons? && ts.t.TNum? && ts.t.v == 1 then
        AtEnd(ts.rest, AluReg(long, RotateOf(op).value, rd, rs1, c, R0))
      else None
    else if op.ShiftOrSign? then
      if c != 1 || !long then None
      else
        var (v, ts1) :- Expr(env, false, ts);
        var n :- U16Of(v);
        AtEnd(ts1, ShiftOr(rd, rs1, n))
    else
      var (o, ts1) :- OperandOf(env, ts);
      if ts1.End? then EncOperator(c, long, rd, rs1, op, o) else None
  }

  /** The arithmetic right-hand sides of "rD =". */
  function EncArith(env: Env, c: Cond, long: bool, rd: Reg, ts: Toks): Option<Insn> {
    var (o, ts1) :- OperandOf(env, ts);
    match o
    case ONegReg(rs) => AtEnd(ts1, AluReg(long, F_SUB, rd, R0, c, rs))
    case OReg(rs1) =>
      if ts1.End? then Some(AluReg(long, F_ADD, rd, rs1, c, R0))
      else if AtP(ts1, Inc) || AtP(ts1, Dec) then
        AtEnd(ts1.rest, AluReg(long, F_ADD, rd, rs1, c, if AtP(ts1, Inc) then PLUS else MINUS))
      else if ts1.t.TP? then EncBinary(env, c, long, rd, rs1, ts1.t.p, ts1.rest)
      else None
    case OImm(v, _, _) =>
      if ts1.End? then
        if c == 1 then EncAdd16(long, rd, R0, v) else None
      else
        var ts2 :- Need(ts1, MinusSign);
        var (o2, ts3) :- OperandOf(env, ts2);
        if ts3.End? && o2 == OReg(rd) && c == 1 then EncAluImm(long, F_RSUB, rd, v) else None
  }

  /** What follows "rD =": 24-bit loads, moves, arithmetic. */
  function EncRegRhs(env: Env, c: Cond, rd: Reg, ts: Toks): Option<Insn> {
    var (kw, ts1) := TrySize(ts);
    if kw.Ushort24? then
      var (v, ts2) :- Expr(env, false, ts1);
      if ts2.End? && 0 <= v <= 0xFF_FFFF && c == 1 then Some(Set24(rd, v)) else None
    else
      var w :- MoveSizeOf(kw);
      if AtP(ts1, Star) then
        if c != 1 then None
        else if IsDirect(ts1) then
          var (v, ts2) :- Expr(env, false, ts1.rest);
          var l :- U16Of(v);
          AtEnd(ts2, MoveDirect(false, w, rd, l))
        else
          var (m, ts2) :- MemOf(ts1);
          AtEnd(ts2, MoveInd(false, false, w, rd, m.rp, ModReg(m.mod)))
      else if ts1.Cons? && ts1.t.TIor? then
        if c == 1 then AtEnd(ts1.rest, MoveIor(false, w, rd, ts1.t.ior)) else None
      else if ts1.Cons? && ts1.t.TAcc? then None
      else
        var long :- LongOf(kw);
        EncArith(env, c, long, rd, ts1)
  }

  function EncRegStmt(env: Env, c: Cond, ts: Toks): Option<Insn> {
    var (kw, ts0) := TrySize(ts);
    if kw.Ushort24? then None
    else
      var (lhs, ts1) :- OperandOf(env, ts0);
      if !lhs.OReg? then None
      else if !AtP(ts1, Equals) then EncTest(c, kw, lhs.r, env, ts1)
      else if kw.Kw? then None
      else EncRegRhs(env, c, lhs.r, ts1.rest)
  }

  /** Statements that begin with `*`. */
  function EncStore(env: Env, ts: Toks): Option<Insn> {
    if IsDirect(ts) then
      var (v, ts1) :- Expr(env, false, Skip(ts));
      var l :- U16Of(v);
      var ts2 :- Need(ts1, Equals);
      var (kw, ts3) := TrySize(ts2);
      var w :- MoveSizeOf(kw);
      var (rh, ts4) :- TryReg(ts3);
      AtEnd(ts4, MoveDirect(true, w, rh, l))
    else
      var (m, ts1) :- MemOf(ts);
      var ts2 :- Need(ts1, Equals);
      if ts2.Cons? && ts2.t.TAcc? && AtP(ts2.rest, Equals) then
        var z :- MemField(m);
        EncDa(ts2.t.n, Some(z), ts2.rest.rest)
      else
        var (kw, ts3) := TrySize(ts2);
        var w :- MoveSizeOf(kw);
        if ts3.Cons? && ts3.t.TIor? then AtEnd(ts3.rest, MoveInd(true, true, w, ts3.t.ior, m.rp, ModReg(m.mod)))
        else
          var (rh, ts4) :- TryReg(ts3);
          AtEnd(ts4, MoveInd(false, true, w, rh, m.rp, ModReg(m.mod)))
  }

  /** Statements that begin with an I/O register. */
  function EncIorStmt(ior: Reg, ts: Toks): Option<Insn> {
    var ts1 :- Need(ts, Equals);
    var (kw, ts2) := TrySize(ts1);
    var w :- MoveSizeOf(kw);
    if AtP(ts2, Star) then
      var (m, ts3) :- MemOf(ts2);
      AtEnd(ts3, MoveInd(true, false, w, ior, m.rp, ModReg(m.mod)))
    else
      var (rh, ts3) :- TryReg(ts2);
      AtEnd(ts3, MoveIor(true, w, rh, ior))
  }

  // ---------------------------------------------------------------------
  // Statements

  function EncGotoStmt(env: Env, addr: word, c: Cond, ts: Toks): Option<Insn> {
    var (d, ts1) :- DestOf(env, addr, ts);
    if ts1.End? then EncGoto(c, d) else None
  }

  function EncCallStmt(env: Env, addr: word, ts: Toks): Option<Insn> {
    var (d, ts1) :- DestOf(env, addr, ts);
    var ts2 :- Need(ts1, Open);
    var (rm, ts3) :- TryReg(ts2);
    var ts4 :- Need(ts3, Close);
    if ts4.End? then EncCall(rm, d) else None
  }

  /** if (rM-- >= 0) goto ...: from rM on. */
  function EncLoopGoto(env: Env, addr: word, ts: Toks): Option<Insn> {
    var (rm, ts1) :- TryReg(ts);
    var ts2 :- Need(ts1, Dec);
    var ts3 :- Need(ts2, AtLeast);
    if !(ts3.Cons? && ts3.t.TNum? && ts3.t.v == 0) then None
    else
      var ts4 :- Need(ts3.rest, Close);
      if !AtKw(ts4, KwGoto) then None
      else
        var (d, ts5) :- DestOf(env, addr, ts4.rest);
        if ts5.End? && FitsS16(d.n) then Some(LoopGoto(rm, DestReg(d), d.n % 0x1_0000)) else None
  }

  function EncDoCount(env: Env, lock: bool, block: bool, k: int, ts: Toks): Option<Insn> {
    if !(0 <= k <= 127) then None
    else
      var r := TryReg(ts);
      if r.Some? then AtEnd(r.value.1, Do(lock, block, k, CountReg(r.value.0)))
      else
        var (l, ts1) :- Expr(env, false, ts);
        if 0 <= l <= 2047 then AtEnd(ts1, Do(lock, block, k, CountImm(l))) else None
  }

  /** doblock may leave its K out. */
  function EncDo(env: Env, lock: bool, block: bool, ts: Toks): Option<Insn> {
    if !block || (ts.Cons? && ts.t.TNum? && AtP(ts.rest, Comma)) then
      var (k, ts1) :- Expr(env, false, ts);
      var ts2 :- Need(ts1, Comma);
      EncDoCount(env, lock, block, k, ts2)
    else EncDoCount(env, lock, block, 0, ts)
  }

  /** The statements a condition can be put before. */
  function EncPlain(env: Env, c: Cond, ts: Toks): Option<Insn> {
    if ts.Cons? && ts.t.TAcc? then
      if c != 1 then None
      else
        var ts1 :- Need(ts.rest, Equals);
        EncDa(ts.t.n, None, ts1)
    else if AtP(ts, Star) then
      if c == 1 then EncStore(env, ts) else None
    else if ts.Cons? && ts.t.TIor? then
      if c == 1 then EncIorStmt(ts.t.ior, ts.rest) else None
    else EncRegStmt(env, c, ts)
  }

  function EncIf(env: Env, addr: word, ts: Toks): Option<Insn> {
    var ts1 :- Need(ts, Open);
    if ts1.Cons? && ts1.t.TCond? then
      var ts2 :- Need(ts1.rest, Close);
      if AtKw(ts2, KwGoto) then EncGotoStmt(env, addr, ts1.t.c, ts2.rest)
      else EncPlain(env, ts1.t.c, ts2)
    else EncLoopGoto(env, addr, ts1)
  }

  function AsmInsn(env: Env, addr: word, ts: Toks): Option<Insn> {
    if ts.Cons? && ts.t.TKw? then
      match ts.t.kw
      case KwNop => AtEnd(ts.rest, Goto16(0, R0, 0))
      case KwIreturn => AtEnd(ts.rest, Goto16(1, PCSH, 0))
      case KwWaiti => AtEnd(ts.rest, MoveIor(true, 7, R0, 10))
      case KwBkpt => AtEnd(ts.rest, MoveIor(true, 3, R0, 10))
      case KwSftrst => AtEnd(ts.rest, MoveIor(true, 0, R0, 10))
      case KwGoto => EncGotoStmt(env, addr, 1, ts.rest)
      case KwCall => EncCallStmt(env, addr, ts.rest)
      case KwDo => EncDo(env, false, false, ts.rest)
      case KwDolock => EncDo(env, true, false, ts.rest)
      case KwDoblock => EncDo(env, false, true, ts.rest)
      case KwIf => EncIf(env, addr, ts.rest)
      case KwUshort24 => None
    else EncPlain(env, 1, ts)
  }
}
