/** Execution depends on pcsh only through instructions that name it as a
    source, and on the pending requests only through waiti. */
module PcshFree {
  import opened Words
  import opened Dau
  import opened Insn
  import opened Core
  import opened Cau
  import opened DauExec
  import opened Machine
  import opened Frames

  /** Two states that differ in pcsh and in the pending requests at most. */
  predicate Alike(c: Core, d: Core) {
    d == c.(pcsh := d.pcsh, pending := d.pending)
  }

  /** The instruction that looks at the pending requests. */
  predicate IsWaiti(i: Insn) {
    i.MoveIor? && i.t && i.ior == 10 && MoveSize(i.wsz) == 4
  }

  /** The instruction has pcsh among its source registers. */
  predicate ReadsPcsh(i: Insn) {
    match i
    case LoopGoto(rm, rb, _) => rm == PCSH || rb == PCSH
    case Call16(_, rb, _) => rb == PCSH
    case Add16(_, _, rs3, _) => rs3 == PCSH
    case AluReg(_, _, _, rs1, _, rs2) => rs1 == PCSH || rs2 == PCSH
    case AluImm(_, _, rd, _) => rd == PCSH
    case MoveDirect(t, _, rh, _) => t && rh == PCSH
    case MoveIor(t, _, rh, _) => t && rh == PCSH
    case MoveInd(io, t, _, rh, rp, ri) => rp == PCSH || ri == PCSH || (!io && t && rh == PCSH)
    case Goto16(_, rb, _) => rb == PCSH
    case Do(_, _, _, count) => count == CountReg(PCSH)
    case ShiftOr(_, rs, _) => rs == PCSH
    case Goto24(rb, _) => rb == PCSH
    case _ => false
  }

  lemma OpvalAlike(c: Core, d: Core, code: Reg)
    requires Alike(c, d) && code != PCSH
    ensures Opval(c, code) == Opval(d, code)
  {
  }

  lemma RegwAlike(c: Core, d: Core, code: Reg, v: word)
    requires Alike(c, d)
    ensures Alike(Regw(c, code, v), Regw(d, code, v))
  {
    hide RegDecode;
    match RegDecode(code)
    case General(i) =>
    case PcReg =>
    case PcshReg =>
    case _ =>
  }

  lemma TakeErrorAlike(c: Core, d: Core, vn: nat)
    requires Alike(c, d)
    ensures Alike(TakeError(c, vn).0, TakeError(d, vn).0) && TakeError(c, vn).1 == TakeError(d, vn).1
  {
    hide Bit, ClearBit13;
    if vn >= 4 && !Bit(c.emr, vn) {
    } else if c.level == DoubleError {
    } else if c.level == Error && (vn >= 4 || c.errNonmaskable) {
    } else {
      assert TakeError(c, vn).0 == Abort(c, vn) && TakeError(d, vn).0 == Abort(d, vn);
    }
  }

  lemma CheckAlignedAlike(c: Core, d: Core, addr: word, size: Size)
    requires Alike(c, d)
    ensures Alike(CheckAligned(c, addr, size).0, CheckAligned(d, addr, size).0)
    ensures CheckAligned(c, addr, size).1 == CheckAligned(d, addr, size).1
  {
    hide TakeError;
    if addr % size != 0 { TakeErrorAlike(c, d, VEC_AERR); }
  }

  lemma MemReadAlike(c: Core, d: Core, addr: word, size: Size)
    requires Alike(c, d)
    ensures Alike(MemRead(c, addr, size, false).0, MemRead(d, addr, size, false).0)
    ensures MemRead(c, addr, size, false).1 == MemRead(d, addr, size, false).1
  {
    hide CheckAligned, TakeError, Bit, ReadBytes, JoinWord, Overlaid, AlignDown;
    CheckAlignedAlike(c, d, addr, size);
    var (c1, taken) := CheckAligned(c, addr, size);
    var (d1, _) := CheckAligned(d, addr, size);
    if !taken {
      if ReadBytes(c1.mem, Computer(c1), AlignDown(addr, size), size).None? {
        TakeErrorAlike(c1, d1, VEC_BUSERR);
      }
    }
  }

  lemma MemWriteAlike(c: Core, d: Core, addr: word, size: Size, val: word)
    requires Alike(c, d)
    ensures Alike(MemWrite(c, addr, size, val).0, MemWrite(d, addr, size, val).0)
    ensures MemWrite(c, addr, size, val).1 == MemWrite(d, addr, size, val).1
  {
    hide CheckAligned, TakeError, Bit, WriteBytes, Split, AlignDown;
    CheckAlignedAlike(c, d, addr, size);
    var (c1, taken) := CheckAligned(c, addr, size);
    var (d1, _) := CheckAligned(d, addr, size);
    if !taken {
      var (m, ok) := WriteBytes(c1.mem, Computer(c1), AlignDown(addr, size), Split(val, size, BigEndian(c1)));
      if !ok { TakeErrorAlike(c1.(mem := m), d1.(mem := m), VEC_BUSERR); }
    }
  }

  // ---------------------------------------------------------------------
  // DA instructions never name pcsh

  lemma ShadowedWriteAlike(c: Core, d: Core, addr: word, size: Size, val: word)
    requires Alike(c, d)
    ensures Alike(ShadowedWrite(c, addr, size, val).0, ShadowedWrite(d, addr, size, val).0)
    ensures ShadowedWrite(c, addr, size, val).1 == ShadowedWrite(d, addr, size, val).1
  {
    hide MemWrite, ReadBytes, SlotFrom, Padded, AlignDown, Bit;
    MemWriteAlike(c, d, addr, size, val);
    if !MemWrite(c, addr, size, val).1 {
    } else if ReadBytes(c.mem, Computer(c), AlignDown(addr, size), size).None? {
    } else {
    }
  }

  lemma PostmodAlike(c: Core, d: Core, p: Pointer, i: U3, size: Size)
    requires Alike(c, d)
    ensures Alike(Postmod(c, p, i, size), Postmod(d, p, i, size))
  {
    if i == 0 { } else if i == 6 { } else if i == 7 { } else { }
  }

  lemma ReadOperandAlike(c: Core, d: Core, f: Field7, size: Size)
    requires Alike(c, d)
    ensures Alike(ReadOperand(c, f, size).0, ReadOperand(d, f, size).0)
    ensures ReadOperand(c, f, size).1 == ReadOperand(d, f, size).1
  {
    hide MemRead, Postmod, Pack;
    var p := f / 8;
    if 1 <= p <= 14 {
      MemReadAlike(c, d, c.r[p], size);
      PostmodAlike(MemRead(c, c.r[p], size, false).0, MemRead(d, c.r[p], size, false).0, p, f % 8, size);
    }
  }

  lemma StoreZAlike(c: Core, d: Core, z: Field7, y: Operand, size: Size, val: word)
    requires Alike(c, d) && ValidOperand(y)
    ensures Alike(StoreZ(c, z, y, size, val), StoreZ(d, z, y, size, val))
  {
    hide ShadowedWrite, Postmod;
    if ZWrites(z, y) {
      var p := z / 8;
      var ea := if p == 15 then y.ea else c.r[p];
      ShadowedWriteAlike(c, d, ea, size, val);
      PostmodAlike(ShadowedWrite(c, ea, size, val).0, ShadowedWrite(d, ea, size, val).0,
                   if p == 15 then y.preg else p, z % 8, size);
      if ShadowedWrite(c, ea, size, val).1 { } else { }
    }
  }

  lemma DaFlagsAlike(c: Core, d: Core, res: Acc, affectVU: bool)
    requires Alike(c, d)
    ensures Alike(DaFlags(c, res, affectVU).0, DaFlags(d, res, affectVU).0)
    ensures DaFlags(c, res, affectVU).1 == DaFlags(d, res, affectVU).1
  {
    hide TakeError, RangeChecked;
    var (r, f) := RangeChecked(res, affectVU);
    TakeErrorAlike(SetDau(c, f), SetDau(d, f), VEC_UV);
    if f.v || f.u { } else { }
  }

  lemma ExecMacAlike(c: Core, d: Core, i: Insn)
    requires Alike(c, d) && i.Mac?
    ensures Alike(ExecMac(c, i), ExecMac(d, i))
  {
    hide DaFlags, StoreZ, ReadOperand, Pack, DauAdd, DauMul, AccNegate, Unpack;
    ReadOperandAlike(c, d, i.x, 4);
    var (c1, xo) := ReadOperand(c, i.x, 4);
    var (d1, _) := ReadOperand(d, i.x, 4);
    if xo.Some? {
      ReadOperandAlike(c1, d1, i.y, 4);
      var (c2, yo) := ReadOperand(c1, i.y, 4);
      var (d2, _) := ReadOperand(d1, i.y, 4);
      if yo.Some? {
        MacFromPipes(c2, d2, i, xo.value, yo.value);
        DaFlagsAlike(c2, d2, MacSum(c2, i, xo.value, yo.value), true);
        var (c3, res) := DaFlags(c2, MacSum(c2, i, xo.value, yo.value), true);
        var (d3, _) := DaFlags(d2, MacSum(d2, i, xo.value, yo.value), true);
        StoreZAlike(SetAcc(c3, i.an, res), SetAcc(d3, i.an, res), i.z, yo.value, 4,
                    if IsTap(i) then TapWord(SetAcc(c3, i.an, res), yo.value, i.y) else Pack(res));
      }
    }
  }

  lemma MacFromPipes(c: Core, d: Core, i: Insn, x: Operand, y: Operand)
    requires Alike(c, d) && i.Mac?
    ensures MacSum(c, i, x, y) == MacSum(d, i, x, y)
  {
    hide Pack, DauAdd, DauMul, AccNegate, Unpack;
  }

  predicate OutAlike(o: SpecialOut, p: SpecialOut) {
    Alike(o.c, p.c) && o.res == p.res && o.zbits == p.zbits && o.store == p.store
  }

  lemma WithFlagsAlike(c: Core, d: Core, res: Acc, affectVU: bool)
    requires Alike(c, d)
    ensures OutAlike(WithFlags(c, res, affectVU), WithFlags(d, res, affectVU))
  {
    hide DaFlags, Pack;
    DaFlagsAlike(c, d, res, affectVU);
  }

  lemma ExecDspAlike(c: Core, d: Core, y: Operand)
    requires Alike(c, d)
    ensures OutAlike(ExecDsp(c, y), ExecDsp(d, y))
  {
    hide TakeError, Pack, AccFromIeee, Unpack, WithFlags;
    var iw := PackedInput(y);
    WithFlagsAlike(c, d, AccFromIeee(iw), true);
    var negative, mant := iw >= 0x8000_0000, iw % 0x80_0000;
    var f := DauFlags(negative, false, false, !negative || mant != 0);
    TakeErrorAlike(SetDau(c, f), SetDau(d, f), VEC_NAN);
    var exp := iw / 0x80_0000 % 0x100;
    if exp == 255 { if mant != 0 { } else { } } else if exp == 0 { } else { }
  }

  lemma ExecIfaAlike(c: Core, d: Core, g: U4, an: U2, z: Field7, y: Operand)
    requires Alike(c, d) && ValidOperand(y)
    ensures OutAlike(ExecIfa(c, g, an, z, y), ExecIfa(d, g, an, z, y))
  {
    hide Postmod, AdderInputOf, Pack;
    if ZWrites(z, y) {
      PostmodAlike(c, d, if z / 8 == 15 then y.preg else z / 8, z % 8, 4);
    }
    if LiveCondition(c, g) { } else if c.dauc / 64 % 2 == 1 { } else { }
  }

  lemma SpecialResultAlike(c: Core, d: Core, i: Insn, y: Operand)
    requires Alike(c, d) && i.Special? && !ReservedG(i.g) && ValidOperand(y)
    ensures OutAlike(SpecialResult(c, i, y), SpecialResult(d, i, y))
  {
    hide WithFlags, AccFromInt, AccRound, AdderInputOf, AccToIeee, AccToInt, Pack, IntLane,
         CompandedEncode, Decode2x, LaneInt, ExecDsp, ExecIfa, Unpack, SeedWord, RawOf;
    var g := i.g;
    if g == G_IC {
      var code := LaneInt(y, 24) % 0x100;
      WithFlagsAlike(c, d, AccFromInt(code), false);
      var twice := AccFromInt(Decode2x(code, c.dauc % 2 == 1));
      WithFlagsAlike(c, d, if twice.e != 0 then twice.(e := twice.e - 1) else twice, false);
    }
    else if g == G_OC { }
    else if g == G_FLOAT16 { WithFlagsAlike(c, d, AccFromInt(Signed16(LaneInt(y, 16))), false); }
    else if g == G_FLOAT32 { WithFlagsAlike(c, d, AccFromInt(Signed32(Wrap(LaneInt(y, 0)))), false); }
    else if g == G_INT16 { }
    else if g == G_INT32 { }
    else if g == G_ROUND { WithFlagsAlike(c, d, AccRound(AdderInputOf(y)), true); }
    else if g == G_IFALT || g == G_IFAEQ || g == G_IFAGT { ExecIfaAlike(c, d, g, i.an, i.z, y); }
    else if g == G_IEEE { }
    else if g == G_DSP { ExecDspAlike(c, d, y); }
    else { WithFlagsAlike(c, d, Unpack(SeedWord(PackedInput(y))), false); }
  }

  lemma ExecSpecialAlike(c: Core, d: Core, i: Insn)
    requires Alike(c, d) && i.Special?
    ensures Alike(ExecSpecial(c, i), ExecSpecial(d, i))
  {
    hide SpecialResult, StoreZ, ReadOperand;
    ReadOperandAlike(c, d, i.y, YSize(i.g));
    var (c1, yo) := ReadOperand(c, i.y, YSize(i.g));
    var (d1, _) := ReadOperand(d, i.y, YSize(i.g));
    if yo.Some? && !ReservedG(i.g) {
      SpecialResultAlike(c1, d1, i, yo.value);
      var o, p := SpecialResult(c1, i, yo.value), SpecialResult(d1, i, yo.value);
      StoreZAlike(SetAcc(o.c, i.an, o.res), SetAcc(p.c, i.an, p.res), i.z, yo.value, ZSize(i.g), o.zbits);
      if o.store { } else { }
    }
  }

  // ---------------------------------------------------------------------
  // CAU instructions

  lemma AluStoreAlike(c: Core, d: Core, rd: Reg, out: AluOut)
    requires Alike(c, d)
    ensures Alike(AluStore(c, rd, out), AluStore(d, rd, out))
  {
    hide Regw;
    RegwAlike(SetCau(c, out.flags), SetCau(d, out.flags), rd, out.res);
    if out.store { } else { }
  }

  lemma CondAlike(c: Core, d: Core, cond: Cond)
    requires Alike(c, d)
    ensures CondHolds(c, cond) == CondHolds(d, cond)
  {
  }

  lemma LoadRegAlike(c: Core, d: Core, rh: Reg, v: word)
    requires Alike(c, d)
    ensures Alike(LoadReg(c, rh, v), LoadReg(d, rh, v))
  {
    hide Regw, FlagsNz;
    RegwAlike(c, d, rh, v);
  }

  lemma IorWriteAlike(c: Core, d: Core, n: Reg, v: word, size: Size)
    requires Alike(c, d)
    ensures Alike(IorWrite(c, n, v, size).0, IorWrite(d, n, v, size).0)
    ensures IorWrite(c, n, v, size).1 == IorWrite(d, n, v, size).1
  {
    if n == 0 {
    } else if n == 8 {
    } else if n == 12 {
      if c.pcwLocked { } else { }
    } else if n == 14 {
    } else {
    }
  }

  lemma CaPostmodAlike(c: Core, d: Core, rp: Reg, ri: Reg, size: Size)
    requires Alike(c, d) && rp != PCSH && ri != PCSH
    ensures Alike(CaPostmod(c, rp, ri, size), CaPostmod(d, rp, ri, size))
  {
    hide Regw, Opval;
    OpvalAlike(c, d, rp);
    OpvalAlike(c, d, ri);
    if ri != R0 {
      var delta := if ri == PLUS then size as int else if ri == MINUS then -1 * size else Opval(c, ri);
      RegwAlike(c, d, rp, Wrap(Opval(c, rp) + delta));
    }
  }

  lemma PendingAlike(c: Core, d: Core, vn: nat)
    requires Alike(c, d) && c.pending == d.pending && 8 <= vn <= 16
    ensures PendingFrom(c, vn) == PendingFrom(d, vn)
    decreases 16 - vn
  {
    hide Bit;
    if vn < 16 { PendingAlike(c, d, vn + 1); }
  }

  lemma MoveDirectAlike(c: Core, d: Core, i: Insn)
    requires Alike(c, d) && i.MoveDirect? && !ReadsPcsh(i)
    ensures Alike(ExecMoveDirect(c, i), ExecMoveDirect(d, i))
  {
    hide MemRead, MemWrite, Extend, Select, LoadReg, Opval, Bit, MoveSize;
    var addr, size := (if Computer(c) then 0 else 0x5003_0000) + i.l, MoveSize(i.wsz);
    if !i.t {
      MemReadAlike(c, d, addr, size);
      var (c1, v) := MemRead(c, addr, size, false);
      if v.Some? { LoadRegAlike(c1, MemRead(d, addr, size, false).0, i.rh, Extend(i.wsz, v.value)); }
    } else {
      OpvalAlike(c, d, i.rh);
      MemWriteAlike(c, d, addr, size, Select(i.wsz, Opval(c, i.rh)));
    }
  }

  lemma MoveIorAlike(c: Core, d: Core, i: Insn)
    requires Alike(c, d) && i.MoveIor? && !ReadsPcsh(i)
    requires IsWaiti(i) ==> c.pending == d.pending
    ensures Alike(ExecMoveIor(c, i).0, ExecMoveIor(d, i).0) && ExecMoveIor(c, i).1 == ExecMoveIor(d, i).1
  {
    hide IorWrite, Extend, Select, LoadReg, Opval, MoveSize, PsWord, PendingFrom;
    if !i.t {
      IorReadAlike(c, d, i.ior);
      LoadRegAlike(c, d, i.rh, Extend(i.wsz, IorRead(c, i.ior)));
    } else {
      OpvalAlike(c, d, i.rh);
      var v, size := Select(i.wsz, Opval(c, i.rh)), MoveSize(i.wsz);
      IorWriteAlike(c, d, i.ior, v, size);
      IorEffect(c, i.ior, v, size);
      IorEffect(d, i.ior, v, size);
      if IsWaiti(i) { PendingAlike(c, d, 8); }
      match IorWrite(c, i.ior, v, size).1
      case SoftReset =>
      case Break =>
      case WaitForInterrupt =>
      case NoEffect =>
    }
  }

  /** Only a long write to the special control register waits. */
  lemma IorEffect(c: Core, n: Reg, v: word, size: Size)
    ensures IorWrite(c, n, v, size).1 == WaitForInterrupt ==> n == 10 && size == 4
    ensures n == 10 ==> IorWrite(c, n, v, size).0 == c
  {
  }

  lemma IorReadAlike(c: Core, d: Core, n: Reg)
    requires Alike(c, d)
    ensures IorRead(c, n) == IorRead(d, n)
  {
    hide PsWord;
  }

  lemma MoveIndAlike(c: Core, d: Core, i: Insn)
    requires Alike(c, d) && i.MoveInd? && !ReadsPcsh(i)
    ensures Alike(ExecMoveInd(c, i), ExecMoveInd(d, i))
  {
    hide MemRead, MemWrite, IorWrite, IorRead, Extend, Select, LoadReg, Opval, MoveSize, CaPostmod;
    OpvalAlike(c, d, i.rp);
    var addr, size := Opval(c, i.rp), MoveSize(i.wsz);
    if !i.t {
      MemReadAlike(c, d, addr, size);
      var (c1, v) := MemRead(c, addr, size, false);
      var (d1, _) := MemRead(d, addr, size, false);
      if v.Some? {
        CaPostmodAlike(c1, d1, i.rp, i.ri, size);
        var c2, d2 := CaPostmod(c1, i.rp, i.ri, size), CaPostmod(d1, i.rp, i.ri, size);
        if i.io { IorWriteAlike(c2, d2, i.rh, v.value, size); }
        else { LoadRegAlike(c2, d2, i.rh, Extend(i.wsz, v.value)); }
      }
    } else {
      IorReadAlike(c, d, i.rh);
      if !i.io { OpvalAlike(c, d, i.rh); }
      var v := Select(i.wsz, if i.io then IorRead(c, i.rh) else Opval(c, i.rh));
      MemWriteAlike(c, d, addr, size, v);
      var (c1, ok) := MemWrite(c, addr, size, v);
      CaPostmodAlike(c1, MemWrite(d, addr, size, v).0, i.rp, i.ri, size);
      if ok { } else { }
    }
  }

  lemma AluAlike(c: Core, d: Core, i: Insn)
    requires Alike(c, d) && (i.Add16? || i.AluReg? || i.AluImm?) && !ReadsPcsh(i)
    ensures Alike(ExecCau(c, i).0, ExecCau(d, i).0)
  {
    hide Alu, AluAdd, CondHolds, Opval, AluStore, Sext16;
    match i
    case Add16(long, rd, rs3, n) =>
      OpvalAlike(c, d, rs3);
      AluStoreAlike(c, d, rd, AluAdd(Opval(c, rs3), Sext16(n), 0, !long));
    case AluReg(long, f, rd, rs1, cond, rs2) =>
      CondAlike(c, d, cond);
      OpvalAlike(c, d, rs1);
      OpvalAlike(c, d, rs2);
      assert SecondSource(c, f, rd, rs1, rs2) == SecondSource(d, f, rd, rs1, rs2);
      AluStoreAlike(c, d, rd, Alu(f, Opval(c, rs1), SecondSource(c, f, rd, rs1, rs2), !long, c.ps.cau));
      if CondHolds(c, cond) { } else { }
    case AluImm(long, f, rd, n) =>
      OpvalAlike(c, d, rd);
      var a := Opval(c, rd);
      AluStoreAlike(c, d, rd, Alu(f, a, if f == F_ROL || f == F_ROR then a else Sext16(n), !long, c.ps.cau));
  }

  lemma LoopGotoAlike(c: Core, d: Core, i: Insn)
    requires Alike(c, d) && i.LoopGoto? && !ReadsPcsh(i)
    ensures Alike(ExecLoopGoto(c, i), ExecLoopGoto(d, i))
  {
    hide Opval, Sext16, Regw;
    OpvalAlike(c, d, i.rm);
    OpvalAlike(c, d, i.rb);
    var v: int := Opval(c, i.rm);
    var target: word := Wrap(Opval(c, i.rb) + Sext16(i.n));
    if Signed32(v) >= 0 {
      RegwAlike(c.(npc := target), d.(npc := target), i.rm, Wrap(v - 1));
    } else {
      RegwAlike(c, d, i.rm, Wrap(v - 1));
    }
  }

  lemma ShiftOrAlike(c: Core, d: Core, i: Insn)
    requires Alike(c, d) && i.ShiftOr? && !ReadsPcsh(i)
    ensures Alike(ExecCau(c, i).0, ExecCau(d, i).0)
  {
    hide Opval, Or, Regw, FlagsNz;
    OpvalAlike(c, d, i.rs);
    var high: word := i.n * 0x1_0000;
    var res := Or(Opval(c, i.rs), high);
    RegwAlike(SetCau(c, FlagsNz(res, false)), SetCau(d, FlagsNz(res, false)), i.rd, res);
  }

  lemma TransferAlike(c: Core, d: Core, i: Insn)
    requires Alike(c, d) && !ReadsPcsh(i)
    requires i.Call16? || i.MoveReserved? || i.Goto16? || i.Do? || i.Goto24? || i.Set24? || i.Call24?
    ensures Alike(ExecCau(c, i).0, ExecCau(d, i).0)
  {
    hide CondHolds, Opval, Sext16, Regw, AluAdd, AluStore, TakeError, ExecMoveDirect, ExecMoveIor, ExecMoveInd,
         ExecAluReg, ExecAluImm, ExecLoopGoto, FlagsNz, Or, Wrap;
    match i
    case Call16(rm, rb, n) =>
      OpvalAlike(c, d, rb);
      RegwAlike(c, d, rm, Wrap(c.curInsn + 8));
    case Goto16(cond, rb, n) =>
      OpvalAlike(c, d, rb);
      CondAlike(c, d, cond);
      if CondHolds(c, cond) { } else { }
    case Do(_, _, _, count) =>
      if count.CountReg? { OpvalAlike(c, d, count.r); }
    case Goto24(rb, m) => OpvalAlike(c, d, rb);
    case Set24(rd, m) => RegwAlike(c, d, rd, m);
    case Call24(rm, m) => RegwAlike(c, d, rm, Wrap(c.curInsn + 8));
    case MoveReserved(_) =>
  }

  lemma AccessAlike(c: Core, d: Core, i: Insn)
    requires Alike(c, d) && !ReadsPcsh(i)
    requires i.Illegal? || i.MoveDirect? || i.MoveIor? || i.MoveInd? || i.LoopGoto?
    requires IsWaiti(i) ==> c.pending == d.pending
    ensures Alike(ExecCau(c, i).0, ExecCau(d, i).0) && ExecCau(c, i).1 == ExecCau(d, i).1
  {
    hide ExecMoveDirect, ExecMoveIor, ExecMoveInd, TakeError, ExecLoopGoto, Alike;
    if i.Illegal? {
      TakeErrorAlike(c, d, VEC_ILLOP);
    } else if i.MoveDirect? {
      MoveDirectAlike(c, d, i);
    } else if i.MoveIor? {
      MoveIorAlike(c, d, i);
    } else if i.MoveInd? {
      MoveIndAlike(c, d, i);
    } else {
      LoopGotoAlike(c, d, i);
    }
  }

  lemma StatusOk(c: Core, i: Insn)
    requires i.Add16? || i.AluReg? || i.AluImm? || i.ShiftOr? || i.Call16? || i.MoveReserved? || i.Goto16? || i.Do?
             || i.Goto24? || i.Set24? || i.Call24?
    ensures ExecCau(c, i).1 == Ok
  {
  }

  lemma ExecCauAlike(c: Core, d: Core, i: Insn)
    requires Alike(c, d) && !ReadsPcsh(i) && !i.Mac? && !i.Special?
    requires IsWaiti(i) ==> c.pending == d.pending
    ensures Alike(ExecCau(c, i).0, ExecCau(d, i).0) && ExecCau(c, i).1 == ExecCau(d, i).1
  {
    hide ExecCau, Alike;
    if i.Illegal? || i.MoveDirect? || i.MoveIor? || i.MoveInd? || i.LoopGoto? {
      AccessAlike(c, d, i);
    } else {
      StatusOk(c, i);
      StatusOk(d, i);
      if i.Add16? || i.AluReg? || i.AluImm? {
        AluAlike(c, d, i);
      } else if i.ShiftOr? {
        ShiftOrAlike(c, d, i);
      } else {
        TransferAlike(c, d, i);
      }
    }
  }

  /** Executing an instruction that does not read pcsh, from two states alike up
      to pcsh and pending requests, ends so alike, with the same status. */
  lemma ExecAlike(c: Core, d: Core, i: Insn)
    requires Alike(c, d) && !ReadsPcsh(i)
    requires IsWaiti(i) ==> c.pending == d.pending
    ensures Alike(ExecCore(c, i).0, ExecCore(d, i).0) && ExecCore(c, i).1 == ExecCore(d, i).1
  {
    hide ExecMac, ExecSpecial, ExecCau;
    if i.Mac? {
      ExecMacAlike(c, d, i);
    } else if i.Special? {
      ExecSpecialAlike(c, d, i);
    } else {
      ExecCauAlike(c, d, i);
    }
  }
}
