/** The disassembler: the statement a word prints as, with its class, branch
    marks and resolved target. */
module Dis {
  import opened Words
  import opened Insn
  import opened Syntax

  datatype Status = OK | IllegalWord | Reserved
  datatype Class = CA | DA

  datatype Line = Line(status: Status, klass: Class, isBranch: bool, noDelaySlot: bool,
                       target: Option<word>, text: Toks)

  /** Clean: decodes with status OK and prints no placeholder, the one token no
      tokenizer produces. */
  predicate Clean(l: Line) {
    l.status == OK && AllLexical(l.text)
  }

  // ---------------------------------------------------------------------
  // Operand printers; each puts its tokens before `rest`

  function P(p: Punct, rest: Toks): Toks { Cons(TP(p), rest) }
  function Hex(v: nat, rest: Toks): Toks { Cons(TNum(v, false), rest) }
  function Dec10(v: nat, rest: Toks): Toks { Cons(TNum(v, v == 1), rest) }

  function PReg(code: Reg, rest: Toks): Toks {
    if code == MINUS then P(MinusSign, Cons(TN, rest))
    else if code == PLUS then P(PlusSign, Cons(TN, rest))
    else if NamedReg(code) then Cons(TReg(code), rest)
    else Cons(TBad, rest)
  }

  /** A minus sign hard against a register name: with -n it lexes as `--` `n`. */
  function PNegReg(code: Reg, rest: Toks): Toks {
    if code == MINUS then P(Dec, Cons(TN, rest)) else P(MinusSign, PReg(code, rest))
  }

  function PIor(code: Reg, rest: Toks): Toks {
    Cons(if NamedIor(code) then TIor(code) else TBad, rest)
  }

  function PCond(c: Cond, rest: Toks): Toks {
    Cons(if NamedCond(c) then TCond(c) else TBad, rest)
  }

  /** "(keyword) ", nothing for long. */
  function PSize(w: U3, rest: Toks): Toks {
    if w == 7 then rest else P(Open, Cons(if NamedSize(w) then TSize(w) else TBad, P(Close, rest)))
  }

  function PShort(long: bool, rest: Toks): Toks {
    if long then rest else P(Open, Cons(TSize(3), P(Close, rest)))
  }

  function PDisp(n: int, rest: Toks): Toks {
    if n < 0 then P(MinusSign, Hex(-n, rest)) else P(PlusSign, Hex(n, rest))
  }

  function PImm(n: int, rest: Toks): Toks {
    if n < 0 then P(MinusSign, Hex(-n, rest)) else Hex(n, rest)
  }

  /** {N, rB, rB+N}. */
  function PTarget(rb: Reg, n: int, rest: Toks): Toks
    requires -0x8000 <= n <= 0x7FFF
  {
    if rb == R0 then Hex(Wrap(n), rest)
    else if n == 0 then PReg(rb, rest)
    else PReg(rb, PDisp(n, rest))
  }

  function Target(addr: word, rb: Reg, n: int): Option<word> {
    if rb == R0 then Some(Wrap(n)) else if rb == PC then Some(Wrap(addr + 8 + n)) else None
  }

  function PMem(rp: Reg, ri: Reg, rest: Toks): Toks {
    P(Star, PReg(rp,
      if ri == R0 then rest
      else if ri == PLUS then P(Inc, rest)
      else if ri == MINUS then P(Dec, rest)
      else P(Inc, PReg(ri, rest))))
  }

  /** Post-modification of a DA pointer field. */
  function PPost(i: U3, rest: Toks): Toks {
    if i == 0 then rest
    else if i == 6 then P(Dec, rest)
    else if i == 7 then P(Inc, rest)
    else P(Inc, Cons(TReg(16 + i), rest))
  }

  function POperand(f: Field7, rest: Toks): Toks {
    if AccField(f) then Cons(TAcc(f % 8), rest)
    else if PointerField(f) then P(Star, Cons(TReg(f / 8), PPost(f % 8, rest)))
    else Cons(TBad, rest)
  }

  datatype ZKind = ZNone | ZNormal | ZThruY | ZBad

  function ZKindOf(z: Field7, y: Field7): ZKind {
    if z / 8 == 0 then ZNone
    else if z / 8 != 15 then ZNormal
    else if PointerField(y) then ZThruY
    else if AccField(y) then ZNone
    else ZBad
  }

  /** Z through Y prints Y's pointer with Z's own post-modification. */
  function PZ(z: Field7, y: Field7, rest: Toks): Toks {
    match ZKindOf(z, y)
    case ZNormal => POperand(z, rest)
    case ZThruY => P(Star, Cons(TReg(y / 8), PPost(z % 8, rest)))
    case _ => Cons(TBad, rest)
  }

  predicate ZPrints(z: Field7, y: Field7) {
    !ZKindOf(z, y).ZNone?
  }

  // ---------------------------------------------------------------------
  // DA statements

  function PSign(minus: bool, rest: Toks): Toks {
    if minus then P(MinusSign, rest) else rest
  }

  function PPlusMinus(minus: bool, rest: Toks): Toks {
    P(if minus then MinusSign else PlusSign, rest)
  }

  /** "Z = " where the instruction writes. */
  function PStore(z: Field7, y: Field7, rest: Toks): Toks {
    if ZPrints(z, y) then PZ(z, y, P(Equals, rest)) else rest
  }

  /** "(Z = Y)", or Y alone where nothing is written. */
  function PTap(z: Field7, y: Field7, rest: Toks): Toks {
    if ZPrints(z, y) then P(Open, PZ(z, y, P(Equals, POperand(y, P(Close, rest))))) else POperand(y, rest)
  }

  function PAccEq(n: U2, rest: Toks): Toks {
    Cons(TAcc(n), P(Equals, rest))
  }

  /** The product term of format 1; 0.0 * a0 is left out. */
  function PFactor(mul: U3, ss: bool, x: Field7): Toks {
    if mul == 4 then
      if x == 0 then End else PPlusMinus(ss, Cons(TFnum(0.0), P(Star, POperand(x, End))))
    else if mul == 5 then PPlusMinus(ss, POperand(x, End))
    else PPlusMinus(ss, Cons(TAcc(mul % 4), P(Star, POperand(x, End))))
  }

  /** Adder input and product of formats 2 and 3; + 0.0 is left out. */
  function PSum(fs: bool, ss: bool, mul: U3, product: Toks): Toks {
    if mul == 4 then
      if fs then P(MinusSign, Cons(TFnum(0.0), PPlusMinus(ss, product)))
      else PSign(ss, product)
    else
      PSign(fs, Cons(if mul == 5 then TFnum(1.0) else TAcc(mul % 4), PPlusMinus(ss, product)))
  }

  function MacText(i: Insn): Toks
    requires i.Mac?
  {
    if i.fmt == 1 && i.mul == 6 then
      PAccEq(i.an, PSign(i.fs, PTap(i.z, i.y, PPlusMinus(i.ss, POperand(i.x, End)))))
    else if i.fmt == 1 then
      PStore(i.z, i.y, PAccEq(i.an, PSign(i.fs, POperand(i.y, PFactor(i.mul, i.ss, i.x)))))
    else if i.fmt == 2 then
      PAccEq(i.an, PSum(i.fs, i.ss, i.mul, PTap(i.z, i.y, P(Star, POperand(i.x, End)))))
    else
      PStore(i.z, i.y, PAccEq(i.an, PSum(i.fs, i.ss, i.mul, POperand(i.y, P(Star, POperand(i.x, End))))))
  }

  /** The operand fields a DA statement prints; a placeholder among them makes
      the status reserved. */
  predicate MacFieldsOk(i: Insn)
    requires i.Mac?
  {
    && !ZKindOf(i.z, i.y).ZBad? && OperandField(i.y)
    && ((i.fmt == 1 && i.mul == 4 && i.x == 0) || OperandField(i.x))
  }

  function SpecialText(i: Insn): Toks
    requires i.Special?
  {
    PStore(i.z, i.y, PAccEq(i.an,
      Cons(if NamedG(i.g) then TG(i.g) else TBad, P(Open, POperand(i.y, P(Close, End))))))
  }

  // ---------------------------------------------------------------------
  // CA statements

  function OpSign(f: U4): Punct {
    if f == F_ADD then PlusSign
    else if f == F_SHL then ShlSign
    else if f == F_CRADD then Hash
    else if f == F_ANDC then AndNot
    else if f == F_XOR then Caret
    else if f == F_ROR then RorSign
    else if f == F_OR then Bar
    else if f == F_ROL then RolSign
    else if f == F_SHR then ShrSign
    else if f == F_ASR then AsrSign
    else if f == F_AND || f == F_BTST then Ampersand
    else MinusSign
  }

  predicate IsShift(f: U4) { f == F_SHL || f == F_SHR || f == F_ASR }
  predicate IsRotate(f: U4) { f == F_ROR || f == F_ROL }
  predicate IsTest(f: U4) { f == F_CMP || f == F_BTST }
  predicate IsPseudo(r: Reg) { r == PLUS || r == MINUS }

  predicate IsStackBump(f: U4, rd: Reg, rs1: Reg, rs2: Reg) {
    f == F_ADD && rd == SP && rs1 == SP && IsPseudo(rs2)
  }

  function PBinary(a: Reg, f: U4, b: Reg): Toks {
    PReg(a, P(OpSign(f), PReg(b, End)))
  }

  function PByOne(a: Reg, sign: Punct): Toks {
    PReg(a, P(sign, Dec10(1, End)))
  }

  /** The right-hand side of a register ALU statement. */
  function AluRegRhs(f: U4, rs1: Reg, rs2: Reg): Toks {
    if f == F_ADD then
      if rs2 == PLUS then PByOne(rs1, PlusSign)
      else if rs2 == MINUS then PByOne(rs1, MinusSign)
      else if rs1 == rs2 && rs1 != R0 then PReg(rs1, P(Star, Cons(TNum(2, false), End)))
      else if rs2 == R0 then PReg(rs1, End)
      else if rs1 == R0 then PReg(rs2, End)
      else PBinary(rs1, f, rs2)
    else if f == F_SUB then
      if rs1 == R0 then PNegReg(rs2, End)
      else if rs2 == PLUS then PByOne(rs1, MinusSign)
      else if rs2 == MINUS then PByOne(rs1, PlusSign)
      else PBinary(rs1, f, rs2)
    else if f == F_RSUB then PBinary(rs2, F_SUB, rs1)
    else if IsRotate(f) then PReg(rs1, P(OpSign(f), Dec10(1, End)))
    else if IsShift(f) && rs2 == PLUS then PByOne(rs1, OpSign(f))
    else PBinary(rs1, f, rs2)
  }

  function PIf(c: Cond, rest: Toks): Toks {
    if c == 1 then rest else Cons(TKw(KwIf), P(Open, PCond(c, P(Close, rest))))
  }

  function AluRegText(i: Insn): Toks
    requires i.AluReg?
  {
    PIf(i.c,
      if IsTest(i.f) then PShort(i.long, PBinary(i.rs1, i.f, i.rs2))
      else if IsStackBump(i.f, i.rd, i.rs1, i.rs2) then
        Cons(TSp, P(Equals, PShort(i.long, Cons(TSp, P(if i.rs2 == PLUS then Inc else Dec, End)))))
      else PReg(i.rd, P(Equals, PShort(i.long, AluRegRhs(i.f, i.rs1, i.rs2)))))
  }

  function AluImmText(i: Insn): Toks
    requires i.AluImm?
  {
    var n := Signed16(i.n);
    if IsTest(i.f) then PShort(i.long, PReg(i.rd, P(OpSign(i.f), PImm(n, End))))
    else PReg(i.rd, P(Equals, PShort(i.long,
      if i.f == F_RSUB then PImm(n, P(MinusSign, PReg(i.rd, End)))
      else if IsShift(i.f) then PReg(i.rd, P(OpSign(i.f), Dec10(n % 32, End)))
      else if IsRotate(i.f) then PReg(i.rd, P(OpSign(i.f), Dec10(1, End)))
      else PReg(i.rd, P(OpSign(i.f), PImm(n, End))))))
  }

  function Add16Text(i: Insn): Toks
    requires i.Add16?
  {
    var n := Signed16(i.n);
    PReg(i.rd, P(Equals, PShort(i.long,
      if i.rs3 == R0 then PImm(n, End)
      else if n == 0 then PReg(i.rs3, End)
      else PReg(i.rs3, PDisp(n, End)))))
  }

  predicate IsSpcWord(i: Insn) {
    i.MoveIor? && i.t && i.rh == R0 && i.ior == 10 && (i.wsz == 7 || i.wsz == 3 || i.wsz == 0)
  }

  function MoveText(i: Insn): Toks
    requires i.MoveDirect? || i.MoveIor? || i.MoveInd?
  {
    match i
    case MoveDirect(t, wsz, rh, l) =>
      if !t then PReg(rh, P(Equals, PSize(wsz, P(Star, Hex(l, End)))))
      else P(Star, Hex(l, P(Equals, PSize(wsz, PReg(rh, End)))))
    case MoveIor(t, wsz, rh, ior) =>
      if IsSpcWord(i) then Cons(TKw(if wsz == 7 then KwWaiti else if wsz == 3 then KwBkpt else KwSftrst), End)
      else if !t then PReg(rh, P(Equals, PSize(wsz, PIor(ior, End))))
      else PIor(ior, P(Equals, PSize(wsz, PReg(rh, End))))
    case MoveInd(io, t, wsz, rh, rp, ri) =>
      if !t then
        if io then PIor(rh, P(Equals, PSize(wsz, PMem(rp, ri, End))))
        else PReg(rh, P(Equals, PSize(wsz, PMem(rp, ri, End))))
      else
        PMem(rp, ri, P(Equals, PSize(wsz, if io then PIor(rh, End) else PReg(rh, End))))
  }

  function DoText(i: Insn): Toks
    requires i.Do?
  {
    var head := if i.block then (if i.lock then TBad else TKw(KwDoblock))
                else TKw(if i.lock then KwDolock else KwDo);
    var count := match i.count case CountReg(r) => PReg(r, End) case CountImm(l) => Dec10(l, End);
    Cons(head, if !i.block || i.k != 0 then Dec10(i.k, P(Comma, count)) else count)
  }

  function Goto16Text(i: Insn): Toks
    requires i.Goto16?
  {
    var n := Signed16(i.n);
    if i.c == 0 && i.rb == R0 && n == 0 then Cons(TKw(KwNop), End)
    else if i.c == 1 && i.rb == PCSH && n == 0 then Cons(TKw(KwIreturn), End)
    else PIf(i.c, Cons(TKw(KwGoto), PTarget(i.rb, n, End)))
  }

  function LoopGotoText(i: Insn): Toks
    requires i.LoopGoto?
  {
    Cons(TKw(KwIf), P(Open, PReg(i.rm, P(Dec, P(AtLeast, Cons(TNum(0, false), P(Close,
      Cons(TKw(KwGoto), PTarget(i.rb, Signed16(i.n), End)))))))))
  }

  function Plain(text: Toks): Line {
    Line(OK, CA, false, false, None, text)
  }

  function Branch(text: Toks, target: Option<word>): Line {
    Line(OK, CA, true, false, target, text)
  }

  function WordLine(w: word, status: Status): Line {
    Line(status, CA, false, false, None, Cons(TSym(".word"), Hex(w, End)))
  }

  function DisInsn(i: Insn, addr: word): Line {
    match i
    case Illegal(w) => WordLine(w, IllegalWord)
    case MoveReserved(w) => WordLine(w, Reserved)
    case Mac(_, _, _, _, _, _, _, _) =>
      Line(if MacFieldsOk(i) then OK else Reserved, DA, false, false, None, MacText(i))
    case Special(g, _, y, z) =>
      Line(if NamedG(g) && OperandField(y) && !ZKindOf(z, y).ZBad? then OK else Reserved,
           DA, false, false, None, SpecialText(i))
    case LoopGoto(rm, rb, n) => Branch(LoopGotoText(i), Target(addr, rb, Signed16(n)))
    case Call16(rm, rb, n) =>
      Branch(Cons(TKw(KwCall), PTarget(rb, Signed16(n), P(Open, PReg(rm, P(Close, End))))),
             Target(addr, rb, Signed16(n)))
    case Add16(_, _, _, _) => Plain(Add16Text(i))
    case AluReg(_, f, _, _, _, _) =>
      if f == F_RES5 then WordLine(Encode(i), Reserved) else Plain(AluRegText(i))
    case AluImm(_, f, _, _) =>
      if f == F_RES5 then WordLine(Encode(i), Reserved) else Plain(AluImmText(i))
    case MoveDirect(_, _, _, _) => Plain(MoveText(i))
    case MoveIor(_, _, _, _) => Plain(MoveText(i))
    case MoveInd(_, _, _, _, _, _) => Plain(MoveText(i))
    case Goto16(c, rb, n) =>
      if c == 0 && rb == R0 && n == 0 then Plain(Goto16Text(i))
      else if c == 1 && rb == PCSH && n == 0 then Line(OK, CA, true, true, None, Goto16Text(i))
      else Branch(Goto16Text(i), Target(addr, rb, Signed16(n)))
    case Do(lock, block, _, _) => Plain(DoText(i)).(status := if lock && block then Reserved else OK)
    case ShiftOr(rd, rs, n) => Plain(PReg(rd, P(Equals, PReg(rs, P(ShiftOrSign, Hex(n, End))))))
    case Goto24(rb, m) =>
      Branch(Cons(TKw(KwGoto), if rb == R0 then Hex(m, End) else PReg(rb, P(PlusSign, Hex(m, End)))),
             Target(addr, rb, m))
    case Set24(rd, m) =>
      Plain(PReg(rd, P(Equals, P(Open, Cons(TKw(KwUshort24), P(Close, Hex(m, End)))))))
    case Call24(rm, m) =>
      Branch(Cons(TKw(KwCall), Hex(m, P(Open, PReg(rm, P(Close, End))))), Some(m))
  }

  function Disassemble(w: word, addr: word): Line {
    DisInsn(Decode(w), addr)
  }

  // ---------------------------------------------------------------------
  // Which instructions print cleanly

  predicate AluRegNamed(i: Insn)
    requires i.AluReg?
  {
    NamedCond(i.c) && i.f != F_RES5 && (IsTest(i.f) || OperandReg(i.rd)) && OperandReg(i.rs1)
    && (IsRotate(i.f) || OperandReg(i.rs2))
  }

  predicate MoveNamed(i: Insn)
    requires i.MoveDirect? || i.MoveIor? || i.MoveInd?
  {
    NamedSize(i.wsz) &&
    match i
    case MoveDirect(_, _, rh, _) => OperandReg(rh)
    case MoveIor(_, _, rh, ior) => OperandReg(rh) && NamedIor(ior)
    case MoveInd(io, _, _, rh, rp, ri) =>
      (if io then NamedIor(rh) else OperandReg(rh)) && OperandReg(rp) && OperandReg(ri)
  }

  /** Every field that is printed has a name. */
  predicate Printable(i: Insn) {
    match i
    case Illegal(_) => false
    case MoveReserved(_) => false
    case LoopGoto(rm, rb, _) => OperandReg(rm) && OperandReg(rb)
    case Call16(rm, rb, _) => OperandReg(rm) && OperandReg(rb)
    case Add16(_, rd, rs3, _) => OperandReg(rd) && OperandReg(rs3)
    case AluReg(_, _, _, _, _, _) => AluRegNamed(i)
    case AluImm(_, f, rd, _) => f != F_RES5 && OperandReg(rd)
    case MoveDirect(_, _, _, _) => MoveNamed(i)
    case MoveIor(_, _, _, _) => MoveNamed(i)
    case MoveInd(_, _, _, _, _, _) => MoveNamed(i)
    case Goto16(c, rb, _) => NamedCond(c) && OperandReg(rb)
    case Do(lock, block, _, count) => !(lock && block) && (count.CountReg? ==> OperandReg(count.r))
    case ShiftOr(rd, rs, _) => OperandReg(rd) && OperandReg(rs)
    case Goto24(rb, _) => OperandReg(rb)
    case Set24(rd, _) => OperandReg(rd)
    case Call24(rm, _) => OperandReg(rm)
    case Mac(_, _, _, _, _, _, _, _) => MacFieldsOk(i)
    case Special(g, _, y, z) => NamedG(g) && OperandField(y) && !ZKindOf(z, y).ZBad?
  }
}
