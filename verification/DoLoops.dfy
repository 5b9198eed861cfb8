/** Hardware do-loops run their body an exact number of times, with or without
    interrupts between body instructions. */
module DoLoops {
  import opened Words
  import opened Dau
  import opened Insn
  import opened Core
  import opened Cau
  import opened DauExec
  import opened Machine
  import opened Frames
  import opened DaFrames
  import opened Interrupts

  // ---------------------------------------------------------------------
  // Straight-line execution

  /** The instruction neither transferred control, nor raised an error, nor
      touched the loop hardware, nor went to sleep. */
  predicate Straight(c: Core, i: Insn) {
    var d := ExecCore(c, i).0;
    && !IsIreturn(i)
    && d.pc == c.pc && d.npc == c.npc && d.loop == c.loop && !d.waiting && d.level == c.level
  }

  /** An instruction that could write the program counter, the loop hardware or
      the special control register. */
  predicate MayTransfer(i: Insn) {
    match i
    case Illegal(_) => true
    case LoopGoto(_, _, _) => true
    case Call16(_, _, _) => true
    case Add16(_, rd, _, _) => rd == PC
    case AluReg(_, _, rd, _, _, _) => rd == PC
    case AluImm(_, _, rd, _) => rd == PC
    case MoveReserved(_) => false
    case MoveDirect(t, _, rh, _) => !t && rh == PC
    case MoveIor(t, _, rh, ior) => if t then ior == 10 else rh == PC
    case MoveInd(io, t, _, rh, rp, _) => rp == PC || (!io && !t && rh == PC)
    case Goto16(c, _, _) => c != 0
    case Do(_, _, _, _) => true
    case ShiftOr(rd, _, _) => rd == PC
    case Goto24(_, _) => true
    case Set24(rd, _) => rd == PC
    case Call24(_, _) => true
    case _ => false
  }

  predicate SameFlow(c: Core, d: Core) {
    d.pc == c.pc && d.npc == c.npc && d.loop == c.loop && d.waiting == c.waiting && d.level == c.level
  }

  /** A dispatched error shows in the level; otherwise nothing moved. */
  lemma TakeErrorFlow(c: Core, vn: nat)
    requires c.level == Base || c.level == Interrupt
    ensures TakeError(c, vn).0.level == c.level ==> TakeError(c, vn).0 == c
  {
    hide Bit;
  }

  lemma RegwFlow(c: Core, code: Reg, v: word)
    requires code != PC
    ensures SameFlow(c, Regw(c, code, v))
  {
    hide RegDecode;
    assert RegDecode(code) != PcReg by { PcCode(code); }
    match RegDecode(code)
    case General(i) =>
    case PcshReg =>
    case _ =>
  }

  lemma PcCode(code: Reg)
    ensures RegDecode(code) == PcReg ==> code == PC
  {
  }

  predicate Ordinary(c: Core) {
    c.level == Base || c.level == Interrupt
  }

  lemma MemReadFlow(c: Core, addr: word, size: Size)
    requires Ordinary(c)
    ensures var d := MemRead(c, addr, size, false).0; d.level == c.level ==> SameFlow(c, d)
  {
    hide TakeError, Bit, ReadBytes, JoinWord, AlignDown, Overlaid;
    TakeErrorFlow(c, VEC_AERR);
    TakeErrorLevel(c, VEC_AERR);
    var (c1, taken) := CheckAligned(c, addr, size);
    if !taken && c1.level == c.level { TakeErrorFlow(c1, VEC_BUSERR); }
    if !taken { TakeErrorLevel(c1, VEC_BUSERR); }
  }

  /** An exception never lowers the level back to an ordinary one. */
  lemma TakeErrorLevel(c: Core, vn: nat)
    ensures TakeError(c, vn).0.level == c.level || !Ordinary(TakeError(c, vn).0)
  {
    hide Bit;
  }

  lemma MemWriteFlow(c: Core, addr: word, size: Size, val: word)
    requires Ordinary(c)
    ensures var d := MemWrite(c, addr, size, val).0; d.level == c.level ==> SameFlow(c, d)
  {
    hide TakeError, Bit, WriteBytes, Split, AlignDown;
    TakeErrorFlow(c, VEC_AERR);
    TakeErrorLevel(c, VEC_AERR);
    var (c1, taken) := CheckAligned(c, addr, size);
    if !taken {
      var (m, ok) := WriteBytes(c1.mem, Computer(c1), AlignDown(addr, size), Split(val, size, BigEndian(c1)));
      TakeErrorLevel(c1.(mem := m), VEC_BUSERR);
      if c1.level == c.level { TakeErrorFlow(c1.(mem := m), VEC_BUSERR); }
    }
  }

  lemma IorWriteFlow(c: Core, n: Reg, v: word, size: Size)
    ensures SameFlow(c, IorWrite(c, n, v, size).0)
    ensures n != 10 ==> IorWrite(c, n, v, size).1 == NoEffect
  {
    if n == 0 { } else if n == 8 { } else if n == 12 { if c.pcwLocked { } else { } } else if n == 14 { } else { }
  }

  lemma CaPostmodFlow(c: Core, rp: Reg, ri: Reg, size: Size)
    requires rp != PC
    ensures SameFlow(c, CaPostmod(c, rp, ri, size))
  {
    hide Regw, Opval;
    if ri != R0 {
      var delta := if ri == PLUS then size as int else if ri == MINUS then -1 * size else Opval(c, ri);
      RegwFlow(c, rp, Wrap(Opval(c, rp) + delta));
    }
  }

  lemma LoadRegFlow(c: Core, rh: Reg, v: word)
    requires rh != PC
    ensures SameFlow(c, LoadReg(c, rh, v))
  {
    hide Regw, FlagsNz;
    RegwFlow(c, rh, v);
  }

  lemma MoveDirectFlow(c: Core, i: Insn)
    requires Ordinary(c) && i.MoveDirect? && !MayTransfer(i)
    ensures ExecMoveDirect(c, i).level == c.level ==> SameFlow(c, ExecMoveDirect(c, i))
  {
    hide MemRead, MemWrite, Extend, Select, LoadReg, Opval, Bit, MoveSize;
    var addr, size := (if Computer(c) then 0 else 0x5003_0000) + i.l, MoveSize(i.wsz);
    if !i.t {
      MemReadFlow(c, addr, size);
      var (c1, v) := MemRead(c, addr, size, false);
      if v.Some? { LoadRegFlow(c1, i.rh, Extend(i.wsz, v.value)); }
    } else {
      MemWriteFlow(c, addr, size, Select(i.wsz, Opval(c, i.rh)));
    }
  }

  lemma MoveIndFlow(c: Core, i: Insn)
    requires Ordinary(c) && i.MoveInd? && !MayTransfer(i)
    ensures ExecMoveInd(c, i).level == c.level ==> SameFlow(c, ExecMoveInd(c, i))
  {
    hide MemRead, MemWrite, IorWrite, IorRead, Extend, Select, LoadReg, Opval, MoveSize, CaPostmod;
    var addr, size := Opval(c, i.rp), MoveSize(i.wsz);
    if !i.t {
      MemReadFlow(c, addr, size);
      var (c1, v) := MemRead(c, addr, size, false);
      if v.Some? {
        var c2 := CaPostmod(c1, i.rp, i.ri, size);
        CaPostmodFlow(c1, i.rp, i.ri, size);
        if i.io { IorWriteFlow(c2, i.rh, v.value, size); }
        else { LoadRegFlow(c2, i.rh, Extend(i.wsz, v.value)); }
      }
    } else {
      var v := Select(i.wsz, if i.io then IorRead(c, i.rh) else Opval(c, i.rh));
      MemWriteFlow(c, addr, size, v);
      CaPostmodFlow(MemWrite(c, addr, size, v).0, i.rp, i.ri, size);
    }
  }

  lemma MoveIorFlow(c: Core, i: Insn)
    requires i.MoveIor? && !MayTransfer(i)
    ensures SameFlow(c, ExecMoveIor(c, i).0)
  {
    hide IorWrite, IorRead, Extend, Select, LoadReg, Opval, MoveSize, PendingFrom;
    if i.t {
      IorWriteFlow(c, i.ior, Select(i.wsz, Opval(c, i.rh)), MoveSize(i.wsz));
    } else {
      LoadRegFlow(c, i.rh, Extend(i.wsz, IorRead(c, i.ior)));
    }
  }

  lemma AluStoreFlow(c: Core, rd: Reg, out: AluOut)
    requires rd != PC
    ensures SameFlow(c, AluStore(c, rd, out))
  {
    hide Regw;
    RegwFlow(SetCau(c, out.flags), rd, out.res);
  }

  // DA instructions move pointers, accumulators and memory only.

  lemma PostmodFlow(c: Core, p: Pointer, i: U3, size: Size)
    ensures SameFlow(c, Postmod(c, p, i, size))
  {
    hide Postmod;
    PostmodOnlyR(c, p, i, size);
  }

  lemma ReadOperandFlow(c: Core, f: Field7, size: Size)
    requires Ordinary(c)
    ensures var d := ReadOperand(c, f, size).0; (d.level == c.level ==> SameFlow(c, d))
    ensures var d := ReadOperand(c, f, size).0; d.level == c.level || !Ordinary(d)
  {
    hide MemRead, Postmod, Pack;
    var p := f / 8;
    if 1 <= p <= 14 {
      MemReadFlow(c, c.r[p], size);
      MemReadLevel(c, c.r[p], size);
      PostmodFlow(MemRead(c, c.r[p], size, false).0, p, f % 8, size);
    }
  }

  lemma MemReadLevel(c: Core, addr: word, size: Size)
    ensures var d := MemRead(c, addr, size, false).0; d.level == c.level || !Ordinary(d)
  {
    hide TakeError, Bit, ReadBytes, JoinWord, AlignDown, Overlaid;
    TakeErrorLevel(c, VEC_AERR);
    var (c1, taken) := CheckAligned(c, addr, size);
    if !taken { TakeErrorLevel(c1, VEC_BUSERR); }
  }

  lemma DaFlagsFlow(c: Core, res: Acc, affectVU: bool)
    requires Ordinary(c)
    ensures var d := DaFlags(c, res, affectVU).0;
            (d.level == c.level ==> SameFlow(c, d)) && (d.level == c.level || !Ordinary(d))
  {
    hide TakeError, RangeChecked;
    var (r, f) := RangeChecked(res, affectVU);
    TakeErrorFlow(SetDau(c, f), VEC_UV);
    TakeErrorLevel(SetDau(c, f), VEC_UV);
  }

  lemma StoreZFlow(c: Core, z: Field7, y: Operand, size: Size, val: word)
    requires ValidOperand(y) && Ordinary(c)
    ensures var d := StoreZ(c, z, y, size, val); d.level == c.level ==> SameFlow(c, d)
  {
    hide ShadowedWrite, Postmod;
    if ZWrites(z, y) {
      var p := z / 8;
      var ea := if p == 15 then y.ea else c.r[p];
      ShadowedWriteFlow(c, ea, size, val);
      PostmodFlow(ShadowedWrite(c, ea, size, val).0, if p == 15 then y.preg else p, z % 8, size);
    }
  }

  lemma ShadowedWriteFlow(c: Core, addr: word, size: Size, val: word)
    requires Ordinary(c)
    ensures var d := ShadowedWrite(c, addr, size, val).0; d.level == c.level ==> SameFlow(c, d)
  {
    hide MemWrite, ReadBytes, SlotFrom, Padded, AlignDown, Bit;
    MemWriteFlow(c, addr, size, val);
  }

  /** A level above ordinary stays there through the rest of an instruction. */
  lemma StoreZLevel(c: Core, z: Field7, y: Operand, size: Size, val: word)
    requires ValidOperand(y) && !Ordinary(c)
    ensures !Ordinary(StoreZ(c, z, y, size, val))
  {
    hide MemWrite, ReadBytes, SlotFrom, Padded, AlignDown, Bit, Postmod;
    if ZWrites(z, y) {
      var p := z / 8;
      var ea := if p == 15 then y.ea else c.r[p];
      MemWriteLevel(c, ea, size, val);
      PostmodFlow(ShadowedWrite(c, ea, size, val).0, if p == 15 then y.preg else p, z % 8, size);
    }
  }

  lemma MemWriteLevel(c: Core, addr: word, size: Size, val: word)
    ensures var d := MemWrite(c, addr, size, val).0; d.level == c.level || !Ordinary(d)
  {
    hide TakeError, Bit, WriteBytes, Split, AlignDown;
    TakeErrorLevel(c, VEC_AERR);
    var (c1, taken) := CheckAligned(c, addr, size);
    if !taken {
      var (m, ok) := WriteBytes(c1.mem, Computer(c1), AlignDown(addr, size), Split(val, size, BigEndian(c1)));
      TakeErrorLevel(c1.(mem := m), VEC_BUSERR);
    }
  }

  lemma DaFlagsLevel(c: Core, res: Acc, affectVU: bool)
    requires !Ordinary(c)
    ensures !Ordinary(DaFlags(c, res, affectVU).0)
  {
    hide TakeError, RangeChecked;
    var (r, f) := RangeChecked(res, affectVU);
    TakeErrorLevel(SetDau(c, f), VEC_UV);
  }

  lemma ReadOperandLevel(c: Core, f: Field7, size: Size)
    requires !Ordinary(c)
    ensures !Ordinary(ReadOperand(c, f, size).0)
  {
    hide MemRead, Postmod, Pack;
    var p := f / 8;
    if 1 <= p <= 14 {
      MemReadLevel(c, c.r[p], size);
      PostmodFlow(MemRead(c, c.r[p], size, false).0, p, f % 8, size);
    }
  }

  lemma ExecMacFlow(c: Core, i: Insn)
    requires Ordinary(c) && i.Mac?
    ensures ExecMac(c, i).level == c.level ==> SameFlow(c, ExecMac(c, i))
  {
    hide DaFlags, StoreZ, ReadOperand, MacSum, TapWord, Pack;
    ReadOperandFlow(c, i.x, 4);
    var (c1, xo) := ReadOperand(c, i.x, 4);
    if xo.Some? {
      if Ordinary(c1) { ReadOperandFlow(c1, i.y, 4); } else { ReadOperandLevel(c1, i.y, 4); }
      var (c2, yo) := ReadOperand(c1, i.y, 4);
      if yo.Some? {
        var sum := MacSum(c2, i, xo.value, yo.value);
        if Ordinary(c2) { DaFlagsFlow(c2, sum, true); } else { DaFlagsLevel(c2, sum, true); }
        var (c3, res) := DaFlags(c2, sum, true);
        var c4 := SetAcc(c3, i.an, res);
        var val := if IsTap(i) then TapWord(c4, yo.value, i.y) else Pack(res);
        if Ordinary(c4) { StoreZFlow(c4, i.z, yo.value, 4, val); } else { StoreZLevel(c4, i.z, yo.value, 4, val); }
      }
    }
  }

  predicate FlowOrError(c: Core, d: Core) {
    (d.level == c.level ==> SameFlow(c, d)) && (d.level == c.level || !Ordinary(d))
  }

  lemma WithFlagsFlow(c: Core, res: Acc, affectVU: bool)
    requires Ordinary(c)
    ensures FlowOrError(c, WithFlags(c, res, affectVU).c)
  {
    hide DaFlags, Pack;
    DaFlagsFlow(c, res, affectVU);
  }

  lemma ExecDspFlow(c: Core, y: Operand)
    requires Ordinary(c)
    ensures FlowOrError(c, ExecDsp(c, y).c)
  {
    hide TakeError, Pack, AccFromIeee, Unpack, WithFlags;
    var iw := PackedInput(y);
    WithFlagsFlow(c, AccFromIeee(iw), true);
    var negative, mant := iw >= 0x8000_0000, iw % 0x80_0000;
    var f := DauFlags(negative, false, false, !negative || mant != 0);
    TakeErrorFlow(SetDau(c, f), VEC_NAN);
    TakeErrorLevel(SetDau(c, f), VEC_NAN);
    var exp := iw / 0x80_0000 % 0x100;
    if exp == 255 { if mant != 0 { } else { } } else if exp == 0 { } else { }
  }

  lemma ExecIfaFlow(c: Core, g: U4, an: U2, z: Field7, y: Operand)
    requires ValidOperand(y)
    ensures SameFlow(c, ExecIfa(c, g, an, z, y).c)
  {
    hide Postmod, AdderInputOf, Pack;
    if ZWrites(z, y) { PostmodFlow(c, if z / 8 == 15 then y.preg else z / 8, z % 8, 4); }
  }

  lemma SpecialResultFlow(c: Core, i: Insn, y: Operand)
    requires Ordinary(c) && i.Special? && !ReservedG(i.g) && ValidOperand(y)
    ensures FlowOrError(c, SpecialResult(c, i, y).c)
  {
    hide WithFlags, AccFromInt, AccRound, AdderInputOf, AccToIeee, AccToInt, Pack, IntLane,
         CompandedEncode, Decode2x, LaneInt, ExecDsp, ExecIfa, Unpack, SeedWord, RawOf;
    var g := i.g;
    if g == G_IC {
      var code := LaneInt(y, 24) % 0x100;
      WithFlagsFlow(c, AccFromInt(code), false);
      var twice := AccFromInt(Decode2x(code, c.dauc % 2 == 1));
      WithFlagsFlow(c, if twice.e != 0 then twice.(e := twice.e - 1) else twice, false);
    }
    else if g == G_OC { }
    else if g == G_FLOAT16 { WithFlagsFlow(c, AccFromInt(Signed16(LaneInt(y, 16))), false); }
    else if g == G_FLOAT32 { WithFlagsFlow(c, AccFromInt(Signed32(Wrap(LaneInt(y, 0)))), false); }
    else if g == G_INT16 { }
    else if g == G_INT32 { }
    else if g == G_ROUND { WithFlagsFlow(c, AccRound(AdderInputOf(y)), true); }
    else if g == G_IFALT || g == G_IFAEQ || g == G_IFAGT { ExecIfaFlow(c, g, i.an, i.z, y); }
    else if g == G_IEEE { }
    else if g == G_DSP { ExecDspFlow(c, y); }
    else { WithFlagsFlow(c, Unpack(SeedWord(PackedInput(y))), false); }
  }

  lemma ExecSpecialFlow(c: Core, i: Insn)
    requires Ordinary(c) && i.Special?
    ensures ExecSpecial(c, i).level == c.level ==> SameFlow(c, ExecSpecial(c, i))
  {
    hide SpecialResult, StoreZ, ReadOperand;
    ReadOperandFlow(c, i.y, YSize(i.g));
    var (c1, yo) := ReadOperand(c, i.y, YSize(i.g));
    if yo.Some? && !ReservedG(i.g) {
      if Ordinary(c1) {
        SpecialResultFlow(c1, i, yo.value);
        var out := SpecialResult(c1, i, yo.value);
        var c2 := SetAcc(out.c, i.an, out.res);
        if Ordinary(c2) { StoreZFlow(c2, i.z, yo.value, ZSize(i.g), out.zbits); }
        else { StoreZLevel(c2, i.z, yo.value, ZSize(i.g), out.zbits); }
      } else {
        ReadFailedAbove(c, i.y, YSize(i.g));
      }
    }
  }

  /** A read that raised the level delivered nothing. */
  lemma ReadFailedAbove(c: Core, f: Field7, size: Size)
    requires Ordinary(c) && ReadOperand(c, f, size).1.Some?
    ensures Ordinary(ReadOperand(c, f, size).0)
  {
    hide TakeError, Bit, ReadBytes, JoinWord, AlignDown, Overlaid, Postmod, Pack;
    var p := f / 8;
    if 1 <= p <= 14 {
      TakenRaises(c, VEC_AERR);
      PostmodFlow(MemRead(c, c.r[p], size, false).0, p, f % 8, size);
    }
  }

  lemma TakenRaises(c: Core, vn: nat)
    ensures !TakeError(c, vn).1 ==> TakeError(c, vn).0 == c
  {
    hide Bit;
  }

  /** An instruction outside the transfer class that raises no error is straight:
      it falls through, leaves the loop hardware alone and stays awake. */
  lemma NonTransferIsStraight(c: Core, i: Insn)
    requires Ordinary(c) && !c.waiting && !MayTransfer(i)
    requires ExecCore(c, i).0.level == c.level
    ensures Straight(c, i)
  {
    hide ExecMac, ExecSpecial, ExecMoveDirect, ExecMoveIor, ExecMoveInd, TakeError, Alu, AluAdd,
         AluStore, Regw, Opval, Or, FlagsNz, SecondSource, Sext16;
    match i
    case Mac(_, _, _, _, _, _, _, _) => ExecMacFlow(c, i);
    case Special(_, _, _, _) => ExecSpecialFlow(c, i);
    case MoveDirect(_, _, _, _) => MoveDirectFlow(c, i);
    case MoveIor(_, _, _, _) => MoveIorFlow(c, i);
    case MoveInd(_, _, _, _, _, _) => MoveIndFlow(c, i);
    case Add16(long, rd, rs3, n) =>
      AluStoreFlow(c, rd, AluAdd(Opval(c, rs3), Sext16(n), 0, !long));
    case AluReg(long, f, rd, rs1, _, rs2) =>
      AluStoreFlow(c, rd, Alu(f, Opval(c, rs1), SecondSource(c, f, rd, rs1, rs2), !long, c.ps.cau));
    case AluImm(long, f, rd, n) =>
      var a := Opval(c, rd);
      AluStoreFlow(c, rd, Alu(f, a, if f == F_ROL || f == F_ROR then a else Sext16(n), !long, c.ps.cau));
    case ShiftOr(rd, rs, n) => ShiftOrFlow(c, i);
    case Set24(rd, m) => RegwFlow(c, rd, m);
    case Goto16(cond, rb, n) => NeverTaken(c);
    case MoveReserved(_) =>
    case _ =>
  }

  lemma ShiftOrFlow(c: Core, i: Insn)
    requires i.ShiftOr? && i.rd != PC
    ensures SameFlow(c, ExecCore(c, i).0)
  {
    hide Regw, Opval, Or, FlagsNz;
    var high: word := i.n * 0x1_0000;
    var res := Or(Opval(c, i.rs), high);
    RegwFlow(SetCau(c, FlagsNz(res, false)), i.rd, res);
  }

  lemma NeverTaken(c: Core)
    ensures !CondHolds(c, 0)
  {
  }

  // ---------------------------------------------------------------------
  // Body steps

  /** From s to t one body instruction is executed: requests may arrive, an
      interrupt may be taken, handled and returned from first, and then the
      instruction executes straight. */
  ghost predicate BodyStep(s: State, t: State) {
    exists vns: set<int>, n: Slot ::
      n.Runs? && RunsAt(Request(s, vns), n) && Straight(n.s.c, n.insn) && t == Finish(n.s, n.insn, n.addr).0
  }

  /** A step without an interrupt is one. */
  lemma PlainBodyStep(s: State, vns: set<int>)
    requires var r := Request(s, vns);
             && !Interrupted(r) && !r.h.irshPending && NextSlot(r).Runs?
             && Straight(NextSlot(r).s.c, NextSlot(r).insn)
    ensures BodyStep(s, Step(Request(s, vns)).0)
  {
    hide NextSlot, Straight, Finish, Interrupted, Request;
    assert RunsAt(Request(s, vns), NextSlot(Request(s, vns)));
  }

  /** So are entry, any returning handler, ireturn and the replay. */
  lemma InterruptedBodyStep(s: State, vns: set<int>, reqs: seq<set<int>>)
    requires ReturningHandler(Request(s, vns), reqs)
    requires var n := ReturnSlot(Request(s, vns), reqs); n.Runs? && Straight(n.s.c, n.insn)
    ensures BodyStep(s, AfterReturn(Request(s, vns), reqs).0)
  {
    hide NextSlot, Straight, Finish, Request, HandlerSlot, HandlerRuns, Interrupted, ReturnsOutside;
    assert RunsAt(Request(s, vns), ReturnSlot(Request(s, vns), reqs));
  }

  /** What one body instruction does to pc, npc and the loop hardware. */
  predicate Advances(c: Core, d: Core) {
    var e := LoopBack(c.(pc := c.npc, npc := Wrap(c.npc + 4)), c.pc);
    d.pc == e.pc && d.npc == e.npc && d.loop == e.loop
  }

  lemma StraightAdvances(t: State, i: Insn, addr: word, c: Core)
    requires Straight(t.c, i)
    requires t.c.pc == c.npc && t.c.npc == Wrap(c.npc + 4) && t.c.loop == c.loop && addr == c.pc
    ensures Advances(c, Finish(t, i, addr).0.c)
  {
    hide ExecCore, LoopBack;
    LoopBackFlow(c.(pc := c.npc, npc := Wrap(c.npc + 4)), ExecCore(t.c, i).0, addr);
  }

  /** The back edge looks at pc, npc and the loop hardware only. */
  lemma LoopBackFlow(c: Core, d: Core, addr: word)
    requires c.pc == d.pc && c.npc == d.npc && c.loop == d.loop
    ensures var e, f := LoopBack(c, addr), LoopBack(d, addr);
            e.pc == f.pc && e.npc == f.npc && e.loop == f.loop
  {
    hide Wrap;
    LoopBackFields(c, addr);
    LoopBackFields(d, addr);
    hide LoopBack;
  }

  lemma LoopBackFields(c: Core, addr: word)
    ensures var e := LoopBack(c, addr);
            var left := Wrap(c.loop.count - 1);
            if !(c.loop.active && addr == c.loop.last) then e == c
            else if left == 0 then
              e.pc == c.pc && e.npc == c.npc && e.loop == c.loop.(active := false, count := 0)
            else
              e.pc == c.loop.start && e.npc == Wrap(c.loop.start + 4) && e.loop == c.loop.(count := left)
  {
    hide Wrap;
    if c.loop.active && addr == c.loop.last {
      if Wrap(c.loop.count - 1) == 0 { } else { }
    }
  }

  lemma BodyStepAdvances(s: State, t: State)
    requires BodyStep(s, t)
    ensures Advances(s.c, t.c)
  {
    hide RunsAt, Straight, Finish, LoopBack, Wrap, NextSlot;
    var vns: set<int>, n: Slot :| n.Runs? && RunsAt(Request(s, vns), n) && Straight(n.s.c, n.insn)
                  && t == Finish(n.s, n.insn, n.addr).0;
    RunsInPlace(Request(s, vns), n);
    StraightAdvances(n.s, n.insn, n.addr, s.c);
  }

  // ---------------------------------------------------------------------
  // Whole loops

  /** Round q, body instruction r, of a loop of k+1 instructions run `count`
      times. */
  predicate AtRound(c: Core, start: word, lock: bool, k: nat, count: nat, q: nat, r: nat) {
    && c.pc == Wrap(start + 4 * r) && c.npc == Wrap(c.pc + 4) && q <= count
    && c.loop == Loop(true, lock, start, Wrap(start + 4 * k), count - q)
  }

  /** After j body instructions. */
  predicate InLoop(c: Core, start: word, lock: bool, k: nat, count: nat, j: nat) {
    AtRound(c, start, lock, k, count, j / (k + 1), j % (k + 1))
  }

  predicate LoopLeft(c: Core, start: word, k: nat) {
    c.pc == Wrap(start + 4 * (k + 1)) && c.npc == Wrap(c.pc + 4) && !c.loop.active
  }

  lemma PositionStep(j: nat, k: nat)
    ensures j % (k + 1) < k ==> (j + 1) % (k + 1) == j % (k + 1) + 1 && (j + 1) / (k + 1) == j / (k + 1)
    ensures j % (k + 1) == k ==> (j + 1) % (k + 1) == 0 && (j + 1) / (k + 1) == j / (k + 1) + 1
  {
    var q, r := j / (k + 1), j % (k + 1);
    assert j == (k + 1) * q + r;
    if r < k {
      DivUnique(j + 1, k + 1, q, r + 1);
    } else {
      MulDistribute(k + 1, q, 1);
      DivUnique(j + 1, k + 1, q + 1, 0);
    }
  }

  /** Inside the body: the next position, no back edge. */
  lemma StepWithin(c: Core, d: Core, start: word, lock: bool, k: nat, count: nat, q: nat, r: nat)
    requires r < k <= 127 && q < count <= 0x800
    requires AtRound(c, start, lock, k, count, q, r) && Advances(c, d)
    ensures AtRound(d, start, lock, k, count, q, r + 1)
  {
    assert c.pc != Wrap(start + 4 * k);
    LoopBackFields(c.(pc := c.npc, npc := Wrap(c.npc + 4)), c.pc);
    hide LoopBack;
    WrapStep(start, 4 * r);
  }

  lemma WrapStep(start: word, x: nat)
    ensures Wrap(Wrap(start + x) + 4) == Wrap(start + x + 4)
  {
  }

  /** At the end of the body, rounds left: back to the start. */
  lemma StepBack(c: Core, d: Core, start: word, lock: bool, k: nat, count: nat, q: nat)
    requires k <= 127 && q + 1 < count <= 0x800
    requires AtRound(c, start, lock, k, count, q, k) && Advances(c, d)
    ensures AtRound(d, start, lock, k, count, q + 1, 0)
  {
    WrapSmall(start);
    WrapSmall(count - q - 1);
    LoopBackFields(c.(pc := c.npc, npc := Wrap(c.npc + 4)), c.pc);
    hide Wrap, LoopBack;
  }

  /** At the end of the last round: out. */
  lemma StepOut(c: Core, d: Core, start: word, lock: bool, k: nat, count: nat, q: nat)
    requires k <= 127 && q + 1 == count <= 0x800
    requires AtRound(c, start, lock, k, count, q, k) && Advances(c, d)
    ensures LoopLeft(d, start, k)
  {
    WrapStep(start, 4 * k);
    WrapSmall(0);
    LoopBackFields(c.(pc := c.npc, npc := Wrap(c.npc + 4)), c.pc);
    hide Wrap, LoopBack;
  }

  lemma WrapSmall(x: word)
    ensures Wrap(x) == x
  {
  }

  lemma InLoopIs(c: Core, start: word, lock: bool, k: nat, count: nat, j: nat)
    ensures InLoop(c, start, lock, k, count, j) == AtRound(c, start, lock, k, count, j / (k + 1), j % (k + 1))
  {
  }

  /** One body instruction moves to the next position, round again, or out. */
  lemma LoopStep(c: Core, d: Core, start: word, lock: bool, k: nat, count: nat, j: nat)
    requires k <= 127 && 1 <= count <= 0x800 && j < (k + 1) * count
    requires InLoop(c, start, lock, k, count, j) && Advances(c, d)
    ensures j + 1 < (k + 1) * count ==> InLoop(d, start, lock, k, count, j + 1)
    ensures j + 1 == (k + 1) * count ==> LoopLeft(d, start, k)
  {
    hide *;
    QuotientBound(j, k, count);
    PositionStep(j, k);
    var q, r := j / (k + 1), j % (k + 1);
    InLoopIs(c, start, lock, k, count, j);
    InLoopIs(d, start, lock, k, count, j + 1);
    RoundStep(c, d, start, lock, k, count, q, r);
    if r < k {
      NotMultiple(j + 1, k + 1, count);
    } else {
      LastRound(j, k, q, count);
    }
  }

  /** The same in terms of rounds done and position in the round. */
  lemma RoundStep(c: Core, d: Core, start: word, lock: bool, k: nat, count: nat, q: nat, r: nat)
    requires r <= k <= 127 && q < count <= 0x800
    requires AtRound(c, start, lock, k, count, q, r) && Advances(c, d)
    ensures r < k ==> AtRound(d, start, lock, k, count, q, r + 1)
    ensures r == k && q + 1 < count ==> AtRound(d, start, lock, k, count, q + 1, 0)
    ensures r == k && q + 1 == count ==> LoopLeft(d, start, k)
  {
    hide *;
    if r < k {
      StepWithin(c, d, start, lock, k, count, q, r);
    } else if q + 1 < count {
      StepBack(c, d, start, lock, k, count, q);
    } else {
      StepOut(c, d, start, lock, k, count, q);
    }
  }

  lemma QuotientBound(j: nat, k: nat, count: nat)
    requires j < (k + 1) * count
    ensures j / (k + 1) < count
  {
    var q := j / (k + 1);
    if q >= count { MulLe(k + 1, k + 1, count, q); }
  }

  lemma NotMultiple(x: nat, m: nat, n: nat)
    requires m >= 1 && x % m != 0
    ensures x != m * n
  {
    if x == m * n { DivUnique(x, m, n, 0); }
  }

  lemma LastRound(j: nat, k: nat, q: nat, count: nat)
    requires j == (k + 1) * q + k
    ensures q + 1 < count ==> j + 1 < (k + 1) * count
    ensures q + 1 == count ==> j + 1 == (k + 1) * count
  {
    MulDistribute(k + 1, q, 1);
    if q + 1 < count { MulDistribute(k + 1, q + 1, count - q - 1); MulLe(1, k + 1, 1, count - q - 1); }
  }

  function LoopCount(c: Core, i: Insn): nat
    requires i.Do?
  {
    match i.count case CountReg(r) => Opval(c, r) % 0x800 + 1 case CountImm(l) => l + 1
  }

  function BodyLength(i: Insn): nat
    requires i.Do?
  {
    if i.block then 1 else i.k + 1
  }

  /** A do, dolock or doblock outside a delay slot enters its loop at position 0. */
  lemma DoEntersLoop(s: State, i: Insn, addr: word)
    requires i.Do? && !(i.lock && i.block)
    requires s.c.pc == Wrap(addr + 4) && s.c.npc == Wrap(addr + 8)
    ensures InLoop(Finish(s, i, addr).0.c, Wrap(addr + 4), i.lock, BodyLength(i) - 1, LoopCount(s.c, i), 0)
  {
    var k := BodyLength(i) - 1;
    DoSetsLoop(s.c, i);
    hide Opval, ExecCore, LoopCount, LoopBack;
    var d := ExecCore(s.c, i).0;
    NotYetAtEnd(addr, k);
    LoopBackFields(d, addr);
    InLoopIs(Finish(s, i, addr).0.c, Wrap(addr + 4), i.lock, k, LoopCount(s.c, i), 0);
    DivUnique(0, k + 1, 0, 0);
    WrapSum(addr + 4, 0);
    WrapSum(addr + 4, 4);
    hide Wrap, InLoop;
    assert AtRound(Finish(s, i, addr).0.c, Wrap(addr + 4), i.lock, k, LoopCount(s.c, i), 0, 0);
  }

  lemma DoSetsLoop(c: Core, i: Insn)
    requires i.Do? && !(i.lock && i.block)
    ensures ExecCore(c, i).0
            == c.(loop := Loop(true, i.lock, c.pc, Wrap(c.pc + 4 * (BodyLength(i) - 1)), LoopCount(c, i)))
  {
    hide Opval;
  }

  lemma NotYetAtEnd(addr: word, k: nat)
    requires k <= 127
    ensures addr != Wrap(Wrap(addr + 4) + 4 * k)
  {
  }

  ghost predicate BodySteps(b: seq<State>) {
    forall j :: 0 <= j < |b| - 1 ==> BodyStep(b[j], b[j + 1])
  }

  lemma {:induction false} LoopPosition(b: seq<State>, start: word, lock: bool, k: nat, count: nat, j: nat)
    requires k <= 127 && 1 <= count <= 0x800 && |b| == (k + 1) * count + 1 && BodySteps(b)
    requires InLoop(b[0].c, start, lock, k, count, 0)
    requires j < |b|
    ensures j < |b| - 1 ==> InLoop(b[j].c, start, lock, k, count, j)
    ensures j == |b| - 1 ==> LoopLeft(b[j].c, start, k)
  {
    hide BodyStep, InLoop, LoopLeft, Advances;
    if j > 0 {
      LoopPosition(b, start, lock, k, count, j - 1);
      BodyStepAdvances(b[j - 1], b[j - 1 + 1]);
      LoopStep(b[j - 1].c, b[j].c, start, lock, k, count, j - 1);
    } else {
      MulLe(1, k + 1, 1, count);
    }
  }

  /** Do-loops run exactly.  A do, dolock or doblock at addr, not in a delay slot,
      is followed by body steps b[0], b[1], ...: the j-th executes the body
      instruction at position j modulo the body length, and after
      (body length) * (iteration count) of them control falls through behind the
      body with the loop hardware idle. */
  lemma DoLoopExact(s: State, i: Insn, addr: word, b: seq<State>, j: nat)
    requires i.Do? && !(i.lock && i.block)
    requires s.c.pc == Wrap(addr + 4) && s.c.npc == Wrap(addr + 8)
    requires |b| == BodyLength(i) * LoopCount(s.c, i) + 1 && b[0] == Finish(s, i, addr).0
    requires BodySteps(b) && j < |b|
    ensures b[j].c.pc == Wrap(addr + 4 + 4 * (if j < |b| - 1 then j % BodyLength(i) else BodyLength(i)))
    ensures b[|b| - 1].c.npc == Wrap(addr + 8 + 4 * BodyLength(i)) && !b[|b| - 1].c.loop.active
  {
    hide BodyStep, Finish, Opval, BodySteps, LoopCount;
    var start := Wrap(addr + 4);
    var k := BodyLength(i) - 1;
    var count := LoopCount(s.c, i);
    LoopCountRange(s.c, i);
    DoEntersLoop(s, i, addr);
    LoopPosition(b, start, i.lock, k, count, j);
    LoopPosition(b, start, i.lock, k, count, |b| - 1);
    hide LoopLeft, InLoop;
    LoopAddresses(b[j].c, b[|b| - 1].c, addr, i.lock, k, count, j);
  }

  lemma LoopCountRange(c: Core, i: Insn)
    requires i.Do?
    ensures 1 <= LoopCount(c, i) <= 0x800
  {
  }

  lemma LoopAddresses(c: Core, d: Core, addr: word, lock: bool, k: nat, count: nat, j: nat)
    requires k <= 127 && LoopLeft(d, Wrap(addr + 4), k)
    ensures InLoop(c, Wrap(addr + 4), lock, k, count, j) ==> c.pc == Wrap(addr + 4 + 4 * (j % (k + 1)))
    ensures d.pc == Wrap(addr + 4 + 4 * (k + 1)) && d.npc == Wrap(addr + 8 + 4 * (k + 1)) && !d.loop.active
  {
    WrapSum(addr + 4, 4 * (j % (k + 1)));
    WrapSum(addr + 4, 4 * (k + 1));
    WrapSum(addr + 4 + 4 * (k + 1), 4);
    hide Wrap;
  }

  lemma WrapSum(x: int, y: int)
    ensures Wrap(Wrap(x) + y) == Wrap(x + y)
  {
  }
}
