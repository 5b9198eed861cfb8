/** The canonical spelling of an instruction: what re-assembling its
    disassembly yields. */
module Canonical {
  import opened Words
  import opened Insn
  import opened Syntax
  import opened Dis

  /** Pseudo-operand of the opposite sign. */
  function Opposite(r: Reg): Reg {
    if r == PLUS then MINUS else PLUS
  }

  /** "rS - 1" and "rS + 1" come back as adds, swapped operands are put in
      order, fields that are not printed are cleared. */
  function CanonAluReg(i: Insn): Insn
    requires i.AluReg?
  {
    var AluReg(long, f, rd, rs1, c, rs2) := i;
    if IsTest(f) then AluReg(long, f, 0, rs1, c, rs2)
    else if f == F_ADD && rs1 == R0 && !IsPseudo(rs2) then AluReg(long, f, rd, rs2, c, R0)
    else if f == F_SUB && rs1 != R0 && IsPseudo(rs2) && !(rd == SP && rs1 == SP) then
      AluReg(long, F_ADD, rd, rs1, c, Opposite(rs2))
    else if f == F_RSUB && !IsPseudo(rs1) && rs2 != R0 then AluReg(long, F_SUB, rd, rs2, c, rs1)
    else if IsRotate(f) then AluReg(long, f, rd, rs1, c, R0)
    else if IsShift(f) && rs2 == PLUS && rs1 == rd && c == 1 then AluImm(long, f, rd, 1)
    else i
  }

  /** Positive immediates of add and subtract fit the three-operand add. */
  function CanonAluImm(i: Insn): Insn
    requires i.AluImm?
  {
    var AluImm(long, f, rd, n) := i;
    if IsShift(f) then AluImm(long, f, rd, n % 32)
    else if IsRotate(f) then AluReg(long, f, rd, rd, 1, R0)
    else if f == F_ADD && Signed16(n) > 0 && rd != R0 then Add16(long, rd, rd, n)
    else if f == F_SUB && Signed16(n) > 0 && rd != R0 then Add16(long, rd, rd, 0x1_0000 - n)
    else i
  }

  /** No write has one spelling; Z on Y's pointer becomes a store through Y. */
  function CanonZ(z: Field7, y: Field7): Field7 {
    match ZKindOf(z, y)
    case ZNone => DA_NOWRITE
    case ZNormal => if z / 8 == y / 8 then 120 + z % 8 else z
    case _ => z
  }

  function CanonMac(i: Insn): Insn
    requires i.Mac?
  {
    var Mac(fmt, mul, fs, ss, an, x, y, z0) := i;
    var z := CanonZ(z0, y);
    if fmt == 1 then
      Mac(1, if mul == 6 && !ZPrints(z0, y) then 5 else mul, fs, ss && !(mul == 4 && x == 0), an, x, y, z)
    else if fmt == 2 && ZPrints(z0, y) then Mac(2, mul, fs, ss, an, x, y, z)
    else if mul < 4 && y / 8 == 0 then Mac(1, y % 8, fs, ss, an, x, mul, z)
    else Mac(3, mul, fs, ss, an, x, y, z)
  }

  function Canon(i: Insn): Insn {
    match i
    case AluReg(_, _, _, _, _, _) => CanonAluReg(i)
    case AluImm(_, _, _, _) => CanonAluImm(i)
    case Add16(long, rd, rs3, n) => if rs3 != R0 && n == 0 then AluReg(long, F_ADD, rd, rs3, 1, R0) else i
    case Goto24(rb, m) => if m <= 0x7FFF then Goto16(1, rb, m) else i
    case Call24(rm, m) => if m <= 0x7FFF then Call16(rm, R0, m) else i
    case Mac(_, _, _, _, _, _, _, _) => CanonMac(i)
    case Special(g, an, y, z) => Special(g, an, y, CanonZ(z, y))
    case _ => i
  }
}
