/** What each part of the machine leaves alone. */
module Frames {
  import opened Words
  import opened Dau
  import opened Insn
  import opened Core
  import opened Cau
  import opened DauExec

  /** The DAU side: accumulators, both pipes, flags, clip history, the store
      shadow, and the address of the running instruction. */
  predicate SameDauSide(c: Core, d: Core) {
    && c.acc == d.acc && c.pipe == d.pipe && c.flagPipe == d.flagPipe && c.shadow == d.shadow
    && c.ps.dau == d.ps.dau && c.ctr == d.ctr && c.curInsn == d.curInsn
    && |c.mem.ext| == |d.mem.ext|
  }

  /** Everything an exception dispatch or a store leaves alone, memory and the
      store shadow aside. */
  predicate SameRest(c: Core, d: Core) {
    && c.acc == d.acc && c.pipe == d.pipe && c.flagPipe == d.flagPipe && c.ps == d.ps
    && c.ctr == d.ctr && c.dauc == d.dauc && c.curInsn == d.curInsn && c.emr == d.emr
    && c.pending == d.pending && c.pcsh == d.pcsh && c.intDefer == d.intDefer
    && c.pulse0 == d.pulse0 && c.pulse1 == d.pulse1 && SameMap(c, d)
  }

  predicate SameMap(c: Core, d: Core) {
    Computer(c) == Computer(d) && BigEndian(c) == BigEndian(d) && |c.mem.ext| == |d.mem.ext|
  }

  predicate SameData(c: Core, d: Core) {
    SameRest(c, d) && c.mem == d.mem && c.shadow == d.shadow
  }

  lemma ClearBit13Keeps(x: half)
    ensures Bit(ClearBit13(x), 10) == Bit(x, 10) && Bit(ClearBit13(x), 8) == Bit(x, 8)
  {
    assert Pow2(10) == 0x400 && Pow2(8) == 0x100;
    var hi, mid, lo := x / 0x4000, x / 0x2000 % 2, x % 0x2000;
    assert x == hi * 0x4000 + mid * 0x2000 + lo;
    assert x / 0x400 == hi * 16 + mid * 8 + lo / 0x400;
    assert ClearBit13(x) / 0x400 == hi * 16 + lo / 0x400;
    assert x / 0x100 == hi * 64 + mid * 32 + lo / 0x100;
    assert ClearBit13(x) / 0x100 == hi * 64 + lo / 0x100;
  }

  lemma TakeErrorFrame(c: Core, vn: nat)
    ensures SameData(c, TakeError(c, vn).0)
  {
    hide Bit;
    if vn >= 4 && !Bit(c.emr, vn) {
    } else if c.level == DoubleError {
    } else if c.level == Error && (vn >= 4 || c.errNonmaskable) {
    } else {
      ClearBit13Keeps(c.pcw);
      assert TakeError(c, vn).0 == Abort(c, vn);
    }
  }

  lemma CheckAlignedFrame(c: Core, addr: word, size: Size)
    ensures SameData(c, CheckAligned(c, addr, size).0)
  {
    hide TakeError, Bit;
    if addr % size != 0 { TakeErrorFrame(c, VEC_AERR); }
  }

  lemma MemReadFrame(c: Core, addr: word, size: Size, fetch: bool)
    ensures SameData(c, MemRead(c, addr, size, fetch).0)
  {
    hide CheckAligned, TakeError, Bit, ReadBytes, JoinWord, AlignDown;
    CheckAlignedFrame(c, addr, size);
    var (c1, taken) := CheckAligned(c, addr, size);
    if !taken { TakeErrorFrame(c1, VEC_BUSERR); }
  }

  lemma {:induction false} WriteBytesFrame(m: Memory, computer: bool, addr: word, bs: seq<byte>)
    ensures |WriteBytes(m, computer, addr, bs).0.ext| == |m.ext|
    decreases |bs|
  {
    if bs != [] {
      WriteBytesFrame(SetByte(m, computer, addr, bs[0]), computer, Wrap(addr + 1), bs[1..]);
    }
  }

  /** A store changes memory; an exception it raises changes no other data. */
  lemma MemWriteFrame(c: Core, addr: word, size: Size, val: word)
    ensures var d := MemWrite(c, addr, size, val).0; SameRest(c, d) && c.shadow == d.shadow
  {
    hide CheckAligned, TakeError, Bit, WriteBytes, Split, AlignDown;
    CheckAlignedFrame(c, addr, size);
    var (c1, taken) := CheckAligned(c, addr, size);
    if !taken {
      var (m, ok) := WriteBytes(c1.mem, Computer(c1), AlignDown(addr, size), Split(val, size, BigEndian(c1)));
      WriteBytesFrame(c1.mem, Computer(c1), AlignDown(addr, size), Split(val, size, BigEndian(c1)));
      if !ok { TakeErrorFrame(c1.(mem := m), VEC_BUSERR); }
    }
  }

  lemma IorWriteFrame(c: Core, n: Reg, v: word, size: Size)
    ensures SameDauSide(c, IorWrite(c, n, v, size).0) && c.mem == IorWrite(c, n, v, size).0.mem
  {
    if n == 0 {
    } else if n == 8 {
    } else if n == 12 {
      if c.pcwLocked { } else { }
    } else if n == 14 {
    } else {
    }
  }

  lemma RegwFrame(c: Core, code: Reg, v: word)
    ensures SameDauSide(c, Regw(c, code, v)) && Regw(c, code, v).ps == c.ps
  {
    hide RegDecode;
    match RegDecode(code)
    case General(i) =>
    case PcReg =>
    case PcshReg =>
    case _ =>
  }

  lemma CaPostmodFrame(c: Core, rp: Reg, ri: Reg, size: Size)
    ensures SameDauSide(c, CaPostmod(c, rp, ri, size))
  {
    hide Opval, Regw;
    if ri != R0 {
      var delta := if ri == PLUS then size as int else if ri == MINUS then -1 * size else Opval(c, ri);
      RegwFrame(c, rp, Wrap(Opval(c, rp) + delta));
    }
  }

  lemma LoadRegFrame(c: Core, rh: Reg, v: word)
    ensures SameDauSide(c, LoadReg(c, rh, v))
  {
    hide FlagsNz, Regw;
    RegwFrame(c, rh, v);
  }

  lemma ExecMoveDirectFrame(c: Core, i: Insn)
    requires i.MoveDirect?
    ensures SameDauSide(c, ExecMoveDirect(c, i))
  {
    hide MemRead, MemWrite, Extend, Select, LoadReg, Opval, Computer, BigEndian, MoveSize;
    var addr := (if Computer(c) then 0 else 0x5003_0000) + i.l;
    MemReadFrame(c, addr, MoveSize(i.wsz), false);
    MemWriteFrame(c, addr, MoveSize(i.wsz), Select(i.wsz, Opval(c, i.rh)));
    var (c1, v) := MemRead(c, addr, MoveSize(i.wsz), false);
    if v.Some? { LoadRegFrame(c1, i.rh, Extend(i.wsz, v.value)); }
  }

  lemma ExecMoveIorFrame(c: Core, i: Insn)
    requires i.MoveIor?
    ensures SameDauSide(c, ExecMoveIor(c, i).0)
  {
    hide IorWrite, IorRead, Extend, Select, LoadReg, Opval, MoveSize, PendingVector;
    LoadRegFrame(c, i.rh, Extend(i.wsz, IorRead(c, i.ior)));
    IorWriteFrame(c, i.ior, Select(i.wsz, Opval(c, i.rh)), MoveSize(i.wsz));
  }

  lemma ExecMoveIndFrame(c: Core, i: Insn)
    requires i.MoveInd?
    ensures SameDauSide(c, ExecMoveInd(c, i))
  {
    hide MemRead, MemWrite, IorWrite, IorRead, Extend, Select, LoadReg, Opval, MoveSize, CaPostmod, Computer, BigEndian;
    var addr, size := Opval(c, i.rp), MoveSize(i.wsz);
    if !i.t {
      MemReadFrame(c, addr, size, false);
      var (c1, v) := MemRead(c, addr, size, false);
      if v.Some? {
        var c2 := CaPostmod(c1, i.rp, i.ri, size);
        CaPostmodFrame(c1, i.rp, i.ri, size);
        IorWriteFrame(c2, i.rh, v.value, size);
        LoadRegFrame(c2, i.rh, Extend(i.wsz, v.value));
      }
    } else {
      var v := Select(i.wsz, if i.io then IorRead(c, i.rh) else Opval(c, i.rh));
      MemWriteFrame(c, addr, size, v);
      CaPostmodFrame(MemWrite(c, addr, size, v).0, i.rp, i.ri, size);
    }
  }

  lemma AluStoreFrame(c: Core, rd: Reg, out: AluOut)
    ensures SameDauSide(c, AluStore(c, rd, out))
  {
    hide Regw;
    RegwFrame(SetCau(c, out.flags), rd, out.res);
  }

  /** No CAU instruction touches the DAU side. */
  lemma ExecCauFrame(c: Core, i: Insn)
    requires !(i.Mac? || i.Special?)
    ensures SameDauSide(c, ExecCau(c, i).0)
  {
    hide Alu, AluAdd, FlagsNz, CondHolds, Opval, SecondSource, TakeError, Sext16, AluStore, Regw,
         ExecMoveDirect, ExecMoveIor, ExecMoveInd;
    match i
    case Illegal(_) => TakeErrorFrame(c, VEC_ILLOP);
    case MoveDirect(_, _, _, _) => ExecMoveDirectFrame(c, i);
    case MoveIor(_, _, _, _) => ExecMoveIorFrame(c, i);
    case MoveInd(_, _, _, _, _, _) => ExecMoveIndFrame(c, i);
    case Add16(long, rd, rs3, n) =>
      AluStoreFrame(c, rd, AluAdd(Opval(c, rs3), Sext16(n), 0, !long));
    case AluReg(_, f, rd, rs1, _, rs2) =>
      AluStoreFrame(c, rd, Alu(f, Opval(c, rs1), SecondSource(c, f, rd, rs1, rs2), !i.long, c.ps.cau));
    case AluImm(long, f, rd, n) =>
      var a := Opval(c, rd);
      AluStoreFrame(c, rd, Alu(f, a, if f == F_ROL || f == F_ROR then a else Sext16(n), !long, c.ps.cau));
    case _ => ExecTransferFrame(c, i);
  }

  lemma ExecTransferFrame(c: Core, i: Insn)
    requires i.LoopGoto? || i.Call16? || i.MoveReserved? || i.Goto16? || i.Do? || i.ShiftOr?
             || i.Goto24? || i.Set24? || i.Call24?
    ensures SameDauSide(c, ExecCau(c, i).0)
  {
    hide FlagsNz, CondHolds, Opval, Sext16, Or, Regw, AluAdd, ExecAluReg, ExecAluImm,
         ExecMoveDirect, ExecMoveIor, ExecMoveInd, TakeError, AluStore;
    match i
    case LoopGoto(rm, rb, n) =>
      var v := Wrap(Opval(c, rm) - 1);
      RegwFrame(c, rm, v);
      RegwFrame(c.(npc := Wrap(Opval(c, rb) + Sext16(n))), rm, v);
    case Call16(rm, _, _) => RegwFrame(c, rm, Wrap(c.curInsn + 8));
    case Call24(rm, _) => RegwFrame(c, rm, Wrap(c.curInsn + 8));
    case Set24(rd, m) => RegwFrame(c, rd, m);
    case ShiftOr(rd, rs, n) =>
      var res := Or(Opval(c, rs), n * 0x1_0000);
      RegwFrame(SetCau(c, FlagsNz(res, false)), rd, res);
    case _ =>
  }

  /** Post-modification writes pointer registers only. */
  lemma PostmodOnlyR(c: Core, p: Pointer, i: U3, size: Size)
    ensures Postmod(c, p, i, size) == c.(r := Postmod(c, p, i, size).r)
  {
  }

  /** Everything but the pointer registers and the exception state. */
  lemma ReadOperandFrame(c: Core, f: Field7, size: Size)
    ensures SameData(c, ReadOperand(c, f, size).0)
  {
    hide MemRead, Pack, Postmod, Bit;
    var p := f / 8;
    if 1 <= p <= 14 {
      MemReadFrame(c, c.r[p], size, false);
      PostmodOnlyR(MemRead(c, c.r[p], size, false).0, p, f % 8, size);
    }
  }

  lemma DaFlagsFrame(c: Core, res: Acc, affectVU: bool)
    ensures var d := DaFlags(c, res, affectVU).0;
            && SameData(c.(ps := d.ps, ctr := d.ctr), d)
            && d.ctr == (c.ctr * 2 + (if d.ps.dau.n then 1 else 0)) % 0x40
            && c.ps.cau == d.ps.cau && c.ps.io == d.ps.io
            && d.ps.dau == RangeChecked(res, affectVU).1
  {
    var (r, f) := RangeChecked(res, affectVU);
    TakeErrorFrame(SetDau(c, f), VEC_UV);
  }

  /** A DA store touches memory and the shadow only. */
  lemma ShadowedWriteFrame(c: Core, addr: word, size: Size, val: word)
    ensures SameRest(c, ShadowedWrite(c, addr, size, val).0)
  {
    hide MemWrite, ReadBytes, SlotFrom, Padded, AlignDown, Bit;
    var (c1, ok) := MemWrite(c, addr, size, val);
    MemWriteFrame(c, addr, size, val);
    if !ok {
    } else if ReadBytes(c.mem, Computer(c), AlignDown(addr, size), size).None? {
    } else {
    }
  }

  lemma StoreZFrame(c: Core, z: Field7, y: Operand, size: Size, val: word)
    requires ValidOperand(y)
    ensures SameRest(c, StoreZ(c, z, y, size, val))
  {
    hide ShadowedWrite, Bit, Postmod;
    if ZWrites(z, y) {
      var p := z / 8;
      var ea := if p == 15 then y.ea else c.r[p];
      ShadowedWriteFrame(c, ea, size, val);
      var (c1, ok) := ShadowedWrite(c, ea, size, val);
      PostmodOnlyR(c1, if p == 15 then y.preg else p, z % 8, size);
      if ok { } else { }
    }
  }
}
