/** Register codes: what reading and writing one means, by its number. */
module Registers {
  import opened Words
  import opened Insn
  import opened Core

  /** Place of a general register in the register file, 0 if the code names none. */
  function FileIndex(code: Reg): (k: nat)
    ensures k <= 22
  {
    if code <= 14 then code
    else if 17 <= code <= 21 then code - 2
    else if 24 <= code <= 26 then code - 4
    else 0
  }

  /** What an instruction reads: r0 and the reserved codes are 0, pc is two
      instructions on, 22 and 23 are the numbers -1 and 1, 30 is pcsh. */
  function Reads(c: Core, code: Reg): word {
    if code == 15 then (c.curInsn + 8) % 0x1_0000_0000
    else if code == 22 then 0xFFFF_FFFF
    else if code == 23 then 1
    else if code == 30 then c.pcsh
    else if FileIndex(code) == 0 then 0
    else c.r[FileIndex(code)]
  }

  /** d is c with v written to a register: a general one, pc (by way of npc), pcsh,
      or none at all; nothing else but the CAU flags may differ. */
  predicate Writes(c: Core, d: Core, code: Reg, v: word) {
    && d.r == (if FileIndex(code) == 0 then c.r else c.r[FileIndex(code) := v])
    && d.npc == (if code == 15 then v else c.npc)
    && d.pcsh == (if code == 30 then v else c.pcsh)
    && SameButRegisters(c, d)
  }

  predicate SameButRegisters(c: Core, d: Core) {
    d == c.(r := d.r, npc := d.npc, pcsh := d.pcsh, ps := c.ps.(cau := d.ps.cau))
  }

  lemma OpvalReads(c: Core, code: Reg)
    ensures Opval(c, code) == Reads(c, code)
  {
  }

  lemma RegwWrites(c: Core, code: Reg, v: word)
    ensures Writes(c, Regw(c, code, v), code, v) && Regw(c, code, v).ps == c.ps
  {
    assert RegDecode(code) == if code == 15 then PcReg else if code == 30 then PcshReg
                              else if code == 22 then Minus else if code == 23 then Plus
                              else if code == 0 then Zero
                              else if FileIndex(code) == 0 then ReservedReg else General(FileIndex(code));
    hide RegDecode;
  }

  /** Writing after setting flags. */
  lemma FlaggedWrites(c: Core, f: CauFlags, code: Reg, v: word)
    ensures var d := Regw(SetCau(c, f), code, v); Writes(c, d, code, v) && d.ps.cau == f
  {
    RegwWrites(SetCau(c, f), code, v);
    hide Regw;
  }
}
