/** Instruction formats: the fields of a 32-bit word (Tables 10-1 to 10-3 of
    the DSP3210 Information Manual), extracted and put back. */
module Insn {
  import opened Words

  type Reg = x: int | 0 <= x < 32        // 5-bit CAU register code
  type Cond = x: int | 0 <= x < 64       // 6-bit condition
  type Field7 = x: int | 0 <= x < 128    // DA operand field, do body length
  type U24 = x: int | 0 <= x < 0x100_0000
  type U11 = x: int | 0 <= x < 0x800
  type U4 = x: int | 0 <= x < 16
  type U3 = x: int | 0 <= x < 8
  type U2 = x: int | 0 <= x < 4

  // The CAU register codes with a name of their own.
  const R0: Reg := 0
  const PC: Reg := 15
  const MINUS: Reg := 22
  const PLUS: Reg := 23
  const SP: Reg := 25
  const PCSH: Reg := 30

  // ALU functions
  const F_ADD: U4 := 0
  const F_SHL: U4 := 1
  const F_RSUB: U4 := 2
  const F_CRADD: U4 := 3
  const F_SUB: U4 := 4
  const F_RES5: U4 := 5
  const F_ANDC: U4 := 6
  const F_CMP: U4 := 7
  const F_XOR: U4 := 8
  const F_ROR: U4 := 9
  const F_OR: U4 := 10
  const F_ROL: U4 := 11
  const F_SHR: U4 := 12
  const F_ASR: U4 := 13
  const F_AND: U4 := 14
  const F_BTST: U4 := 15

  datatype Count = CountReg(r: Reg) | CountImm(l: U11)

  datatype Insn =
    | Illegal(w: word)
    | LoopGoto(rm: Reg, rb: Reg, n: half)                                   // 3a
    | Call16(rm: Reg, rb: Reg, n: half)                                     // 4a
    | Add16(long: bool, rd: Reg, rs3: Reg, n: half)                         // 5a/5b
    | AluReg(long: bool, f: U4, rd: Reg, rs1: Reg, c: Cond, rs2: Reg)       // 6a/6b
    | AluImm(long: bool, f: U4, rd: Reg, n: half)                           // 6c/6d
    | MoveReserved(w: word)                                                 // 7a, bit 25 set
    | MoveDirect(t: bool, wsz: U3, rh: Reg, l: half)                        // 7a
    | MoveIor(t: bool, wsz: U3, rh: Reg, ior: Reg)                          // 7b
    | MoveInd(io: bool, t: bool, wsz: U3, rh: Reg, rp: Reg, ri: Reg)        // 7c/7d
    | Goto16(c: Cond, rb: Reg, n: half)                                     // 0b/1b
    | Do(lock: bool, block: bool, k: Field7, count: Count)                         // 3b/3c
    | ShiftOr(rd: Reg, rs: Reg, n: half)                                    // 4b
    | Goto24(rb: Reg, m24: U24)                                             // 8a
    | Set24(rd: Reg, m24: U24)                                              // 8b
    | Call24(rm: Reg, m24: U24)                                             // 8c
    | Mac(fmt: U3, mul: U3, fs: bool, ss: bool, an: U2, x: Field7, y: Field7, z: Field7)
    | Special(g: U4, an: U2, y: Field7, z: Field7)                          // format 5

  /** The seven illegal opcode patterns. */
  predicate IllegalOpcode(op6: int) {
    op6 == 0x00 || op6 == 0x01 || op6 == 0x02 || op6 == 0x0F
    || op6 == 0x16 || op6 == 0x17 || op6 == 0x22
  }

  // Every format divides the word the same way first: a 6-bit opcode, two 5-bit
  // groups and the low half.  Smaller fields are parts of these four.

  function Op6(w: word): (r: int) ensures 0 <= r < 64 { w / 0x400_0000 }          // bits 31-26
  function GroupA(w: word): Reg { w / 0x20_0000 % 32 }                            // bits 25-21
  function GroupB(w: word): Reg { w / 0x1_0000 % 32 }                             // bits 20-16
  function Low(w: word): half { w % 0x1_0000 }                                    // bits 15-0

  function Assemble(op6: int, a: int, b: int, low: int): word
    requires 0 <= op6 < 64 && 0 <= a < 32 && 0 <= b < 32 && 0 <= low < 0x1_0000
  {
    op6 * 0x400_0000 + a * 0x20_0000 + b * 0x1_0000 + low
  }

  lemma AssembleGroups(op6: int, a: int, b: int, low: int)
    requires 0 <= op6 < 64 && 0 <= a < 32 && 0 <= b < 32 && 0 <= low < 0x1_0000
    ensures var w := Assemble(op6, a, b, low);
            Op6(w) == op6 && GroupA(w) == a && GroupB(w) == b && Low(w) == low
  {
    var w := Assemble(op6, a, b, low);
    assert w / 0x400_0000 == op6;
    assert w / 0x20_0000 == op6 * 32 + a;
    assert w / 0x1_0000 == (op6 * 32 + a) * 32 + b;
  }

  function Decode(w: word): Insn {
    var op6 := Op6(w);
    if IllegalOpcode(op6) then Illegal(w)
    else if 8 <= op6 < 32 then DecodeDA(op6, GroupA(w), GroupB(w), Low(w))
    else DecodeCA(w, op6, GroupA(w), GroupB(w), Low(w))
  }

  function DecodeDA(op6: int, a: Reg, b: Reg, low: half): Insn
    requires 8 <= op6 < 32
  {
    var y := low / 0x80 % 128;
    var z := low % 128;
    if op6 >= 30 then Special(op6 % 2 * 8 + a / 4, a % 4, y, z)
    else Mac(op6 / 8, op6 % 8, a / 8 % 2 == 1, a / 4 % 2 == 1, a % 4, b * 4 + low / 0x4000, y, z)
  }

  function DecodeCA(w: word, op6: int, a: Reg, b: Reg, low: half): Insn
    requires 0 <= op6 < 64
  {
    var bit25 := a >= 16;
    var bit24 := a / 8 % 2 == 1;
    var s := low / 0x800;          // bits 15-11
    var e := low % 32;             // bits 4-0
    var m24 := (op6 % 8 * 32 + a) * 0x1_0000 + low;
    if op6 == 0x03 then LoopGoto(a, b, low)
    else if op6 == 0x04 then Call16(a, b, low)
    else if op6 == 0x05 || op6 == 0x25 then Add16(op6 == 0x25, a, b, low)
    else if op6 == 0x06 || op6 == 0x26 then
      if bit25 then AluImm(op6 == 0x26, a % 16, b, low)
      else AluReg(op6 == 0x26, a % 16, b, s, low / 32 % 64, e)
    else if op6 == 0x07 then
      if bit25 then MoveReserved(w) else MoveDirect(bit24, a % 8, b, low)
    else if op6 == 0x27 then
      if !bit25 && low / 0x400 % 2 == 1 then MoveIor(bit24, a % 8, b, e)
      else MoveInd(bit25, bit24, a % 8, b, s, e)
    else if op6 == 0x20 || op6 == 0x21 then Goto16(op6 % 2 * 32 + a, b, low)
    else if op6 == 0x23 then
      Do(bit24, a / 4 % 2 == 1, b % 4 * 32 + s,
         if bit25 then CountReg(e) else CountImm(low % 0x800))
    else if op6 == 0x24 then ShiftOr(a, b, low)
    else if op6 < 0x30 then Goto24(b, m24)
    else if op6 < 0x38 then Set24(b, m24)
    else Call24(b, m24)
  }

  /** The instructions a word can hold apart from the illegal opcodes. */
  predicate Encodable(i: Insn) {
    match i
    case Illegal(_) => false
    case MoveReserved(_) => false
    case Mac(fmt, m, _, _, _, _, _, _) =>
      (fmt == 1 && m <= 6) || ((fmt == 2 || fmt == 3) && m <= 5)
    case _ => true
  }

  function Flag(b: bool, weight: nat): nat {
    if b then weight else 0
  }

  /** The word of an instruction, unused bits zero. */
  function Encode(i: Insn): word
    requires Encodable(i)
  {
    match i
    case LoopGoto(rm, rb, n) => Assemble(0x03, rm, rb, n)
    case Call16(rm, rb, n) => Assemble(0x04, rm, rb, n)
    case Add16(long, rd, rs3, n) => Assemble(0x05 + Flag(long, 0x20), rd, rs3, n)
    case AluReg(long, f, rd, rs1, c, rs2) =>
      Assemble(0x06 + Flag(long, 0x20), f, rd, rs1 * 0x800 + c * 32 + rs2)
    case AluImm(long, f, rd, n) => Assemble(0x06 + Flag(long, 0x20), 16 + f, rd, n)
    case MoveDirect(t, wsz, rh, l) => Assemble(0x07, Flag(t, 8) + wsz, rh, l)
    case MoveIor(t, wsz, rh, ior) => Assemble(0x27, Flag(t, 8) + wsz, rh, 0x400 + ior)
    case MoveInd(io, t, wsz, rh, rp, ri) =>
      Assemble(0x27, Flag(io, 16) + Flag(t, 8) + wsz, rh, rp * 0x800 + ri)
    case Goto16(c, rb, n) => Assemble(0x20 + c / 32, c % 32, rb, n)
    case Do(lock, block, k, count) =>
      var isReg := count.CountReg?;
      Assemble(0x23, Flag(isReg, 16) + Flag(lock, 8) + Flag(block, 4), k / 32,
               k % 32 * 0x800 + (match count case CountReg(r) => r case CountImm(l) => l))
    case ShiftOr(rd, rs, n) => Assemble(0x24, rd, rs, n)
    case Goto24(rb, m) => Encode24(0x28, rb, m)
    case Set24(rd, m) => Encode24(0x30, rd, m)
    case Call24(rm, m) => Encode24(0x38, rm, m)
    case Mac(fmt, m, fs, ss, n, x, y, z) =>
      Assemble(fmt * 8 + m, Flag(fs, 8) + Flag(ss, 4) + n, x / 4, x % 4 * 0x4000 + y * 0x80 + z)
    case Special(g, n, y, z) => Assemble(30 + g / 8, g % 8 * 4 + n, 0, y * 0x80 + z)
  }

  function Encode24(op: int, r: Reg, m: U24): word
    requires op == 0x28 || op == 0x30 || op == 0x38
  {
    Assemble(op + m / 0x20_0000, m / 0x1_0000 % 32, r, m % 0x1_0000)
  }

  lemma DecodeOfAssemble(op6: int, a: Reg, b: Reg, low: half)
    requires 0 <= op6 < 64 && !IllegalOpcode(op6)
    ensures var w := Assemble(op6, a, b, low);
            Decode(w) == if 8 <= op6 < 32 then DecodeDA(op6, a, b, low)
                         else DecodeCA(w, op6, a, b, low)
  {
    AssembleGroups(op6, a, b, low);
  }

  /** The high byte of a 24-bit operand spans the opcode and the first group. */
  lemma HighByte(op: int, m: U24)
    requires op == 0x28 || op == 0x30 || op == 0x38
    ensures var op6 := op + m / 0x20_0000;
            var a := m / 0x1_0000 % 32;
            && op <= op6 < op + 8
            && (op6 % 8 * 32 + a) * 0x1_0000 + m % 0x1_0000 == m
  {
    var high, low := m / 0x1_0000, m % 0x1_0000;
    assert m == high * 0x1_0000 + low;
    assert m / 0x20_0000 == high / 32;
    assert high == high / 32 * 32 + high % 32;
    assert (op + high / 32) % 8 == high / 32;
  }

  lemma DecodeEncode24(i: Insn)
    requires i.Goto24? || i.Set24? || i.Call24?
    ensures Decode(Encode(i)) == i
  {
    hide Assemble, Decode;
    var op := if i.Goto24? then 0x28 else if i.Set24? then 0x30 else 0x38;
    var r := if i.Goto24? then i.rb else if i.Set24? then i.rd else i.rm;
    HighByte(op, i.m24);
    DecodeOfAssemble(op + i.m24 / 0x20_0000, i.m24 / 0x1_0000 % 32, r, i.m24 % 0x1_0000);
  }

  lemma DecodeEncodeMac(i: Insn)
    requires Encodable(i) && i.Mac?
    ensures Decode(Encode(i)) == i
  {
    hide Assemble, Decode;
    var op6, a, low := i.fmt * 8 + i.mul, Flag(i.fs, 8) + Flag(i.ss, 4) + i.an,
                       i.x % 4 * 0x4000 + i.y * 0x80 + i.z;
    DecodeOfAssemble(op6, a, i.x / 4, low);
    assert op6 / 8 == i.fmt && op6 % 8 == i.mul;
    OperandFields(i.x, i.y, i.z);
  }

  lemma OperandFields(x: Field7, y: Field7, z: Field7)
    ensures var low := x % 4 * 0x4000 + y * 0x80 + z;
            low < 0x1_0000 && low / 0x4000 == x % 4 && low / 0x80 % 128 == y && low % 128 == z
  {
    var low := x % 4 * 0x4000 + y * 0x80 + z;
    assert low / 0x80 == x % 4 * 128 + y;
  }

  lemma DecodeEncodeSpecial(i: Insn)
    requires i.Special?
    ensures Decode(Encode(i)) == i
  {
    hide Assemble, Decode;
    OperandFields(0, i.y, i.z);
    var a := i.g % 8 * 4 + i.an;
    assert a / 4 == i.g % 8 && a % 4 == i.an;
    DecodeOfAssemble(30 + i.g / 8, a, 0, i.y * 0x80 + i.z);
  }

  lemma DecodeEncodeAluReg(i: Insn)
    requires i.AluReg?
    ensures Decode(Encode(i)) == i
  {
    hide Assemble, Decode;
    var low := i.rs1 * 0x800 + i.c * 32 + i.rs2;
    assert low / 32 == i.rs1 * 64 + i.c;
    DecodeOfAssemble(0x06 + Flag(i.long, 0x20), i.f, i.rd, low);
  }

  lemma DecodeEncodeDo(i: Insn)
    requires i.Do?
    ensures Decode(Encode(i)) == i
  {
    hide Assemble, Decode;
    var count := match i.count case CountReg(r) => r case CountImm(l) => l;
    var low := i.k % 32 * 0x800 + count;
    assert low / 0x800 == i.k % 32 && low % 0x800 == count;
    assert i.count.CountReg? ==> low % 32 == count;
    var a := Flag(i.count.CountReg?, 16) + Flag(i.lock, 8) + Flag(i.block, 4);
    DecodeOfAssemble(0x23, a, i.k / 32, low);
  }

  lemma DecodeEncodeMove(i: Insn)
    requires i.MoveDirect? || i.MoveIor?
    ensures Decode(Encode(i)) == i
  {
    hide Assemble, Decode;
    match i
    case MoveDirect(t, wsz, rh, l) => DecodeOfAssemble(0x07, Flag(t, 8) + wsz, rh, l);
    case MoveIor(t, wsz, rh, ior) => DecodeOfAssemble(0x27, Flag(t, 8) + wsz, rh, 0x400 + ior);
  }

  lemma DecodeEncodeMoveInd(i: Insn)
    requires i.MoveInd?
    ensures Decode(Encode(i)) == i
  {
    hide Assemble, Decode;
    var a, low := Flag(i.io, 16) + Flag(i.t, 8) + i.wsz, i.rp * 0x800 + i.ri;
    assert low / 0x800 == i.rp && low % 32 == i.ri;
    assert low / 0x400 == 2 * i.rp;
    DecodeOfAssemble(0x27, a, i.rh, low);
  }

  lemma DecodeEncodeSimple(i: Insn)
    requires i.LoopGoto? || i.Call16? || i.Add16? || i.AluImm? || i.Goto16? || i.ShiftOr?
    ensures Decode(Encode(i)) == i
  {
    hide Assemble, Decode;
    match i
    case LoopGoto(rm, rb, n) => DecodeOfAssemble(0x03, rm, rb, n);
    case Call16(rm, rb, n) => DecodeOfAssemble(0x04, rm, rb, n);
    case Add16(long, rd, rs3, n) => DecodeOfAssemble(0x05 + Flag(long, 0x20), rd, rs3, n);
    case AluImm(long, f, rd, n) => DecodeOfAssemble(0x06 + Flag(long, 0x20), 16 + f, rd, n);
    case Goto16(c, rb, n) => DecodeOfAssemble(0x20 + c / 32, c % 32, rb, n);
    case ShiftOr(rd, rs, n) => DecodeOfAssemble(0x24, rd, rs, n);
  }

  /** Every field survives encoding: no two of them overlap. */
  lemma DecodeEncode(i: Insn)
    requires Encodable(i)
    ensures Decode(Encode(i)) == i
  {
    match i
    case Mac(_, _, _, _, _, _, _, _) => DecodeEncodeMac(i);
    case Special(_, _, _, _) => DecodeEncodeSpecial(i);
    case Goto24(_, _) => DecodeEncode24(i);
    case Set24(_, _) => DecodeEncode24(i);
    case Call24(_, _) => DecodeEncode24(i);
    case AluReg(_, _, _, _, _, _) => DecodeEncodeAluReg(i);
    case Do(_, _, _, _) => DecodeEncodeDo(i);
    case MoveDirect(_, _, _, _) => DecodeEncodeMove(i);
    case MoveIor(_, _, _, _) => DecodeEncodeMove(i);
    case MoveInd(_, _, _, _, _, _) => DecodeEncodeMoveInd(i);
    case _ => DecodeEncodeSimple(i);
  }
}
