/** The control arithmetic unit: conditions, ALU, moves and branches. */
module Cau {
  import opened Words
  import opened Dau
  import opened Insn
  import opened Core

  datatype Status = Ok | Waiting | Breakpoint | DoubleErrorHalt

  // ---------------------------------------------------------------------
  // Conditions

  /** DAU conditions test the flags of four instructions back. */
  predicate CondHolds(c: Core, cond: Cond) {
    Condition(c.ps.cau, c.flagPipe[3], c.ps.io, cond)
  }

  /** Table 4-7, by CAU flags, DAU flags and pins. */
  predicate Condition(f: CauFlags, d: DauFlags, p: IoPins, cond: Cond) {
    match cond
    case 0 => false
    case 1 => true
    case 2 => !f.n
    case 3 => f.n
    case 4 => !f.z
    case 5 => f.z
    case 6 => !f.v
    case 7 => f.v
    case 8 => !f.c
    case 9 => f.c
    case 10 => f.n == f.v
    case 11 => f.n != f.v
    case 12 => !(f.z || f.n != f.v)
    case 13 => f.z || f.n != f.v
    case 14 => !(f.c || f.z)
    case 15 => f.c || f.z
    case 16 => !d.u
    case 17 => d.u
    case 18 => !d.n
    case 19 => d.n
    case 20 => !d.z
    case 21 => d.z
    case 22 => !d.v
    case 23 => d.v
    case 24 => !(d.n || d.z)
    case 25 => d.n || d.z
    case 32 => !p.ibf
    case 33 => p.ibf
    case 34 => !p.obe
    case 35 => p.obe
    case 40 => !p.sy
    case 41 => p.sy
    case 42 => !p.fb
    case 43 => p.fb
    case 44 => !p.ir0
    case 45 => p.ir0
    case 46 => !p.ir1
    case 47 => p.ir1
    case _ => false
  }

  // ---------------------------------------------------------------------
  // ALU

  datatype AluOut = AluOut(res: word, store: bool, flags: CauFlags)

  predicate Msb(x: word) { x >= 0x8000_0000 }
  predicate Bit15(x: int) { x / 0x8000 % 2 == 1 }

  /** Overflow is bit 31 (or 15) of ~(a ^ b) & (a ^ sum). */
  function AluAdd(a: word, b: word, cin: nat, w16: bool): AluOut
    requires cin <= 1
  {
    if w16 then
      var ua, ub := a % 0x1_0000, b % 0x1_0000;
      var sum := ua + ub + cin;
      var res := Sext16(sum);
      AluOut(res, true, CauFlags(Msb(res), sum % 0x1_0000 == 0,
                                 Bit15(ua) == Bit15(ub) && Bit15(ua) != Bit15(sum),
                                 sum / 0x1_0000 % 2 == 1))
    else
      var sum := a + b + cin;
      var res := Wrap(sum);
      AluOut(res, true, CauFlags(Msb(res), res == 0, Msb(a) == Msb(b) && Msb(a) != Msb(res),
                                 sum / 0x1_0000_0000 % 2 == 1))
  }

  /** Carry is the borrow; overflow is bit 31 (or 15) of (a ^ b) & (a ^ diff). */
  function AluSub(a: word, b: word, w16: bool): AluOut {
    if w16 then
      var ua, ub := a % 0x1_0000, b % 0x1_0000;
      var diff := Wrap(ua - ub);
      var res := Sext16(diff);
      AluOut(res, true, CauFlags(Msb(res), diff % 0x1_0000 == 0,
                                 Bit15(ua) != Bit15(ub) && Bit15(ua) != Bit15(diff), ua < ub))
    else
      var res := Wrap(a - b);
      AluOut(res, true, CauFlags(Msb(res), res == 0, Msb(a) != Msb(b) && Msb(a) != Msb(res), a < b))
  }

  function FlagsNz(res: word, w16: bool): CauFlags {
    if w16 then CauFlags(Bit15(res), res % 0x1_0000 == 0, false, false)
    else CauFlags(Msb(res), res == 0, false, false)
  }

  function Logic(res: word, w16: bool): AluOut {
    var r := if w16 then Sext16(res) else res;
    AluOut(r, true, FlagsNz(r, w16))
  }

  /** The operand bits an operation works on. */
  function Field(x: nat, w16: bool): word {
    if w16 then x % 0x1_0000 else x % 0x1_0000_0000
  }

  function CarryOut(sum: nat, w16: bool): bool {
    if w16 then sum / 0x1_0000 % 2 == 1 else sum / 0x1_0000_0000 % 2 == 1
  }

  function Width(w16: bool): nat { if w16 then 16 else 32 }

  function Reversed(x: nat, w16: bool): word {
    BitRevBound(x, Width(w16));
    BitRev(x, Width(w16))
  }

  /** Carry-reverse add: the carry runs from the top bit down. */
  function CarryReverseAdd(a: word, b: word, w16: bool): AluOut {
    var sum := Reversed(Field(a, w16), w16) + Reversed(Field(b, w16), w16);
    var rev := Reversed(Field(sum, w16), w16);
    var res := if w16 then Sext16(rev) else rev;
    AluOut(res, true, CauFlags(Msb(res), Field(res, w16) == 0, false, CarryOut(sum, w16)))
  }

  lemma {:induction false} BitRevBoundPow(x: nat, n: nat)
    ensures BitRev(x, n) < Pow2(n)
  {
    if n > 0 { BitRevBoundPow(x / 2, n - 1); }
  }

  lemma BitRevBound(x: nat, n: nat)
    ensures n == 16 ==> BitRev(x, n) < 0x1_0000
    ensures n == 32 ==> BitRev(x, n) < 0x1_0000_0000
  {
    BitRevBoundPow(x, n);
    Pow2Constants();
  }

  function ShiftLeft(a: word, k: nat, w16: bool): word {
    var r := Wrap(a * Pow2(k));
    if w16 then r % 0x1_0000 else r
  }

  function ShiftRight(a: word, k: nat, w16: bool): word {
    var x := if w16 then a % 0x1_0000 else a;
    DivBound(x, Pow2(k));
    x / Pow2(k)
  }

  lemma DivBound(x: nat, p: nat)
    requires p >= 1
    ensures 0 <= x / p <= x
  {
    if x / p > x { MulLe(1, p, x + 1, x / p); }
  }

  function ArithShiftRight(a: word, k: nat, w16: bool): word {
    var sa := if w16 then Signed16(a) else Signed32(a);
    var r := Wrap(sa / Pow2(k));
    if w16 then Sext16(r) else r
  }

  function RotateRight(a: word, oldc: bool, w16: bool): AluOut {
    var ua := if w16 then a % 0x1_0000 else a;
    var rot := ua / 2 + Flag(oldc, if w16 then 0x8000 else 0x8000_0000);
    var res := if w16 then Sext16(rot) else rot;
    AluOut(res, true, CauFlags(Msb(res), (if w16 then res % 0x1_0000 else res) == 0, false, a % 2 == 1))
  }

  function Alu(f: U4, a: word, b: word, w16: bool, cur: CauFlags): AluOut {
    if f == F_ADD then AluAdd(a, b, 0, w16)
    else if f == F_SUB then AluSub(a, b, w16)
    else if f == F_RSUB then AluSub(b, a, w16)
    else if f == F_CRADD then CarryReverseAdd(a, b, w16)
    else if f == F_ANDC then Logic(And(a, Not(b)), w16)
    else if f == F_XOR then Logic(Xor(a, b), w16)
    else if f == F_OR then Logic(Or(a, b), w16)
    else if f == F_AND then Logic(And(a, b), w16)
    else if f == F_BTST then AluOut(0, false, FlagsNz(And(a, b), w16))
    else if f == F_CMP then AluSub(a, b, w16).(store := false)
    else if f == F_SHL then
      var r := ShiftLeft(a, b % 32, w16); AluOut(r, true, FlagsNz(r, w16))
    else if f == F_SHR then
      var r := ShiftRight(a, b % 32, w16); AluOut(r, true, FlagsNz(r, w16))
    else if f == F_ASR then
      var r := ArithShiftRight(a, b % 32, w16); AluOut(r, true, FlagsNz(r, w16))
    else if f == F_ROL then AluAdd(a, a, if cur.c then 1 else 0, w16)
    else if f == F_ROR then RotateRight(a, cur.c, w16)
    else AluOut(0, false, cur)   // reserved function
  }

  function AluStore(c: Core, rd: Reg, out: AluOut): Core {
    var c1 := SetCau(c, out.flags);
    if out.store then Regw(c1, rd, out.res) else c1
  }

  /** The second source; `sp = sp++` and `sp = sp--` step by 4. */
  function SecondSource(c: Core, f: U4, rd: Reg, rs1: Reg, rs2: Reg): word {
    if f == F_ADD && rd == SP && rs1 == SP && (rs2 == PLUS || rs2 == MINUS) then
      if rs2 == PLUS then 4 else 0xFFFF_FFFC
    else Opval(c, rs2)
  }

  function ExecAluReg(c: Core, i: Insn): Core
    requires i.AluReg?
  {
    if !CondHolds(c, i.c) then c
    else AluStore(c, i.rd, Alu(i.f, Opval(c, i.rs1), SecondSource(c, i.f, i.rd, i.rs1, i.rs2),
                               !i.long, c.ps.cau))
  }

  /** Rotates have no immediate operand: they rotate rD by one. */
  function ExecAluImm(c: Core, i: Insn): Core
    requires i.AluImm?
  {
    var a := Opval(c, i.rd);
    var b := if i.f == F_ROL || i.f == F_ROR then a else Sext16(i.n);
    AluStore(c, i.rd, Alu(i.f, a, b, !i.long, c.ps.cau))
  }

  // ---------------------------------------------------------------------
  // IO registers and moves

  function FlagBits(a: bool, b: bool, c: bool, d: bool): (r: nat) ensures r < 16 {
    Flag(a, 1) + Flag(b, 2) + Flag(c, 4) + Flag(d, 8)
  }

  function PsWord(p: Ps): word {
    FlagBits(p.cau.n, p.cau.z, p.cau.v, p.cau.c)
    + 0x10 * FlagBits(p.dau.n, p.dau.z, p.dau.u, p.dau.v)
    + 0x100 * FlagBits(p.io.ibf, p.io.obe, p.io.sy, p.io.fb)
    + 0x1000 * FlagBits(p.io.ir0, p.io.ir1, false, false)
  }

  function IorRead(c: Core, n: Reg): word {
    match n
    case 0 => PsWord(c.ps)
    case 8 => c.emr
    case 12 => c.pcw
    case 14 => Wrap(c.dauc)
    case 15 => c.ctr % 0x40
    case _ => 0
  }

  datatype SpcEffect = NoEffect | SoftReset | Break | WaitForInterrupt

  function IorWrite(c: Core, n: Reg, v: word, size: Size): (Core, SpcEffect) {
    if n == 0 then
      (SetCau(c, CauFlags(v % 2 == 1, v / 2 % 2 == 1, v / 4 % 2 == 1, v / 8 % 2 == 1)), NoEffect)
    else if n == 8 then
      (c.(emr := v % 0x1_0000, pending := if v % 2 == 1 then c.pending - {15} else c.pending), NoEffect)
    else if n == 10 then
      (c, if size == 1 then SoftReset else if size == 2 then Break else WaitForInterrupt)
    else if n == 12 then
      (if c.pcwLocked then c
       else c.(pcw := v % 0x1_0000, pcwLocked := v / 0x2000 % 2 == 1), NoEffect)
    else if n == 14 then (c.(dauc := v % 0x80), NoEffect)
    else (c, NoEffect)
  }

  function MoveSize(wsz: U3): Size {
    if wsz == 0 || wsz == 1 || wsz == 4 then 1 else if wsz == 2 || wsz == 3 then 2 else 4
  }

  function Signed8(x: int): int {
    var b := x % 0x100;
    if b < 0x80 then b else b - 0x100
  }

  /** Extension of a loaded datum. */
  function Extend(wsz: U3, raw: word): word {
    if wsz == 0 then raw % 0x100
    else if wsz == 1 then Wrap(Signed8(raw))
    else if wsz == 2 then raw % 0x1_0000
    else if wsz == 3 then Sext16(raw)
    else if wsz == 4 then raw % 0x100 * 0x100
    else raw
  }

  /** The register bits a store selects. */
  function Select(wsz: U3, v: word): word {
    if wsz == 0 || wsz == 1 then v % 0x100
    else if wsz == 2 || wsz == 3 then v % 0x1_0000
    else if wsz == 4 then v / 0x100 % 0x100
    else v
  }

  function CaPostmod(c: Core, rp: Reg, ri: Reg, size: Size): Core {
    if ri == R0 then c
    else
      var delta := if ri == PLUS then size as int else if ri == MINUS then -1 * size else Opval(c, ri);
      Regw(c, rp, Wrap(Opval(c, rp) + delta))
  }

  /** A register load also sets the CAU flags from the loaded value. */
  function LoadReg(c: Core, rh: Reg, v: word): Core {
    SetCau(Regw(c, rh, v), FlagsNz(v, false))
  }

  function ExecMoveDirect(c: Core, i: Insn): Core
    requires i.MoveDirect?
  {
    var size := MoveSize(i.wsz);
    var addr := (if Computer(c) then 0 else 0x5003_0000) + i.l;
    if !i.t then
      var (c1, v) := MemRead(c, addr, size, false);
      if v.None? then c1 else LoadReg(c1, i.rh, Extend(i.wsz, v.value))
    else MemWrite(c, addr, size, Select(i.wsz, Opval(c, i.rh))).0
  }

  function ExecMoveIor(c: Core, i: Insn): (Core, Status)
    requires i.MoveIor?
  {
    if !i.t then (LoadReg(c, i.rh, Extend(i.wsz, IorRead(c, i.ior))), Ok)
    else
      var (c1, spc) := IorWrite(c, i.ior, Select(i.wsz, Opval(c, i.rh)), MoveSize(i.wsz));
      match spc
      case SoftReset => (c1.(level := Base, errNonmaskable := false), Ok)
      case Break => (c1, Breakpoint)
      case WaitForInterrupt => (if PendingVector(c1) == 0 then c1.(waiting := true) else c1, Ok)
      case NoEffect => (c1, Ok)
  }

  function ExecMoveInd(c: Core, i: Insn): Core
    requires i.MoveInd?
  {
    var size := MoveSize(i.wsz);
    var addr := Opval(c, i.rp);
    if !i.t then
      var (c1, v) := MemRead(c, addr, size, false);
      if v.None? then c1
      else
        var c2 := CaPostmod(c1, i.rp, i.ri, size);
        if i.io then IorWrite(c2, i.rh, v.value, size).0
        else LoadReg(c2, i.rh, Extend(i.wsz, v.value))
    else
      var v := Select(i.wsz, if i.io then IorRead(c, i.rh) else Opval(c, i.rh));
      var (c1, ok) := MemWrite(c, addr, size, v);
      if ok then CaPostmod(c1, i.rp, i.ri, size) else c1
  }

  // ---------------------------------------------------------------------
  // Control transfers

  function ExecLoopGoto(c: Core, i: Insn): Core
    requires i.LoopGoto?
  {
    var v := Opval(c, i.rm);
    var c1 := if Signed32(v) >= 0 then c.(npc := Wrap(Opval(c, i.rb) + Sext16(i.n))) else c;
    Regw(c1, i.rm, Wrap(v - 1))
  }

  function ExecCall16(c: Core, i: Insn): Core
    requires i.Call16?
  {
    var target := Wrap(Opval(c, i.rb) + Sext16(i.n));
    Regw(c, i.rm, Wrap(c.curInsn + 8)).(npc := target)
  }

  function ExecDo(c: Core, i: Insn): Core
    requires i.Do?
  {
    var count := match i.count case CountReg(r) => Opval(c, r) % 0x800 + 1 case CountImm(l) => l + 1;
    if i.lock && i.block then c
    else
      var k := if i.block then 0 else i.k;
      c.(loop := Loop(true, i.lock, c.pc, Wrap(c.pc + 4 * k), count))
  }

  /** Every CAU instruction except ireturn. */
  function ExecCau(c: Core, i: Insn): (Core, Status)
    requires !(i.Mac? || i.Special?)
  {
    match i
    case Illegal(_) => (TakeError(c, VEC_ILLOP).0, Ok)
    case LoopGoto(_, _, _) => (ExecLoopGoto(c, i), Ok)
    case Call16(_, _, _) => (ExecCall16(c, i), Ok)
    case Add16(long, rd, rs3, n) =>
      (AluStore(c, rd, AluAdd(Opval(c, rs3), Sext16(n), 0, !long)), Ok)
    case AluReg(_, _, _, _, _, _) => (ExecAluReg(c, i), Ok)
    case AluImm(_, _, _, _) => (ExecAluImm(c, i), Ok)
    case MoveReserved(_) => (c, Ok)
    case MoveDirect(_, _, _, _) => (ExecMoveDirect(c, i), Ok)
    case MoveIor(_, _, _, _) => ExecMoveIor(c, i)
    case MoveInd(_, _, _, _, _, _) => (ExecMoveInd(c, i), Ok)
    case Goto16(cond, rb, n) =>
      (if CondHolds(c, cond) then c.(npc := Wrap(Opval(c, rb) + Sext16(n))) else c, Ok)
    case Do(_, _, _, _) => (ExecDo(c, i), Ok)
    case ShiftOr(rd, rs, n) =>
      var res := Or(Opval(c, rs), n * 0x1_0000);
      (Regw(SetCau(c, FlagsNz(res, false)), rd, res), Ok)
    case Goto24(rb, m) => (c.(npc := Wrap(Opval(c, rb) + m)), Ok)
    case Set24(rd, m) => (Regw(c, rd, m), Ok)
    case Call24(rm, m) => (Regw(c, rm, Wrap(c.curInsn + 8)).(npc := m), Ok)
  }
}
