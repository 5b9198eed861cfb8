/** What execution keeps of the processor modes: interrupt level is entered by an
    interrupt alone, the error mode changes only together with the level, the
    pcw lock follows bit 13, and only a write to emr withdraws a request. */
module Modes {
  import opened Words
  import opened Dau
  import opened Insn
  import opened Core
  import opened Cau
  import opened DauExec
  import opened Machine
  import opened Frames
  import opened PcshFree

  /** The lock is on exactly while pcw[13] is set. */
  predicate LockMatches(c: Core) {
    c.pcwLocked == (c.pcw / 0x2000 % 2 == 1)
  }

  predicate ModesKept(c: Core, d: Core) {
    && (d.level == Interrupt ==> c.level == Interrupt && d.errNonmaskable == c.errNonmaskable)
    && (LockMatches(c) ==> LockMatches(d))
  }

  predicate Kept(c: Core, d: Core) {
    ModesKept(c, d) && d.pending == c.pending
  }

  /** A write to emr, the one instruction that withdraws a request. */
  predicate WritesEmr(i: Insn) {
    (i.MoveIor? && i.t && i.ior == 8) || (i.MoveInd? && i.io && !i.t && i.rh == 8)
  }

  // ---------------------------------------------------------------------
  // Exceptions and memory

  lemma TakeErrorKept(c: Core, vn: nat)
    ensures Kept(c, TakeError(c, vn).0)
  {
    AbortUnlocks(c, vn);
    hide Bit;
    if vn >= 4 && !Bit(c.emr, vn) {
    } else if c.level == DoubleError {
    } else if c.level == Error && (vn >= 4 || c.errNonmaskable) {
    } else {
    }
  }

  lemma LockFields(c: Core, d: Core)
    requires c.pcw == d.pcw && c.pcwLocked == d.pcwLocked
    ensures LockMatches(c) == LockMatches(d)
  {
  }

  lemma AbortUnlocks(c: Core, vn: nat)
    ensures LockMatches(Abort(c, vn))
  {
    assert Pow2(13) == 0x2000;
    ClearedBit13(c.pcw);
    var d := Abort(c, vn);
    assert d.pcw == (if Bit(c.pcw, 13) then ClearBit13(c.pcw) else c.pcw) && !d.pcwLocked;
    hide Abort, ClearBit13;
  }

  lemma ClearedBit13(x: half)
    ensures ClearBit13(x) / 0x2000 % 2 == 0
  {
    assert ClearBit13(x) / 0x2000 == x / 0x4000 * 2;
  }

  lemma CheckAlignedKept(c: Core, addr: word, size: Size)
    ensures Kept(c, CheckAligned(c, addr, size).0)
  {
    hide TakeError;
    if addr % size != 0 { TakeErrorKept(c, VEC_AERR); }
  }

  lemma KeptTwice(c: Core, d: Core, e: Core)
    requires Kept(c, d) && Kept(d, e)
    ensures Kept(c, e)
  {
    hide LockMatches;
  }

  lemma MemReadKept(c: Core, addr: word, size: Size, fetch: bool)
    ensures Kept(c, MemRead(c, addr, size, fetch).0)
  {
    hide CheckAligned, TakeError, Bit, ReadBytes, JoinWord, AlignDown, Overlaid, LockMatches;
    CheckAlignedKept(c, addr, size);
    var (c1, taken) := CheckAligned(c, addr, size);
    TakeErrorKept(c1, VEC_BUSERR);
    KeptTwice(c, c1, TakeError(c1, VEC_BUSERR).0);
    hide Kept;
    if !taken {
      if ReadBytes(c1.mem, Computer(c1), AlignDown(addr, size), size).None? { } else { }
    }
  }

  lemma MemWriteKept(c: Core, addr: word, size: Size, val: word)
    ensures Kept(c, MemWrite(c, addr, size, val).0)
  {
    hide CheckAligned, TakeError, Bit, WriteBytes, Split, AlignDown, LockMatches;
    CheckAlignedKept(c, addr, size);
    var (c1, taken) := CheckAligned(c, addr, size);
    if !taken {
      var (m, ok) := WriteBytes(c1.mem, Computer(c1), AlignDown(addr, size), Split(val, size, BigEndian(c1)));
      LockFields(c1, c1.(mem := m));
      TakeErrorKept(c1.(mem := m), VEC_BUSERR);
      if ok { } else { }
    }
  }

  /** Changes to data alone keep the modes. */
  lemma DataOnly(c: Core, d: Core)
    requires c.level == d.level && c.errNonmaskable == d.errNonmaskable && c.pcw == d.pcw
             && c.pcwLocked == d.pcwLocked && c.pending == d.pending
    ensures Kept(c, d)
  {
  }

  // ---------------------------------------------------------------------
  // CAU instructions

  lemma RegwKept(c: Core, code: Reg, v: word)
    ensures Kept(c, Regw(c, code, v))
  {
    hide RegDecode, Kept;
    DataOnly(c, Regw(c, code, v)) by {
      match RegDecode(code)
      case General(i) =>
      case PcReg =>
      case PcshReg =>
      case _ =>
    }
  }

  lemma SetCauKept(c: Core, f: CauFlags)
    ensures Kept(c, SetCau(c, f))
  {
  }

  lemma LoadRegKept(c: Core, rh: Reg, v: word)
    ensures Kept(c, LoadReg(c, rh, v))
  {
    hide Regw, FlagsNz, Kept;
    RegwKept(c, rh, v);
    SetCauKept(Regw(c, rh, v), FlagsNz(v, false));
    KeptTwice(c, Regw(c, rh, v), LoadReg(c, rh, v));
  }

  lemma CaPostmodKept(c: Core, rp: Reg, ri: Reg, size: Size)
    ensures Kept(c, CaPostmod(c, rp, ri, size))
  {
    hide Opval, Regw;
    if ri != R0 {
      var delta := if ri == PLUS then size as int else if ri == MINUS then -1 * size else Opval(c, ri);
      RegwKept(c, rp, Wrap(Opval(c, rp) + delta));
    }
  }

  lemma AluStoreKept(c: Core, rd: Reg, out: AluOut)
    ensures Kept(c, AluStore(c, rd, out))
  {
    hide Regw, SetCau, Kept;
    SetCauKept(c, out.flags);
    RegwKept(SetCau(c, out.flags), rd, out.res);
    KeptTwice(c, SetCau(c, out.flags), Regw(SetCau(c, out.flags), rd, out.res));
  }

  lemma IorWriteKept(c: Core, n: Reg, v: word, size: Size)
    ensures ModesKept(c, IorWrite(c, n, v, size).0)
    ensures n != 8 ==> IorWrite(c, n, v, size).0.pending == c.pending
  {
    if n == 0 {
    } else if n == 8 {
    } else if n == 12 {
      PcwBit13(v);
      if c.pcwLocked { } else { }
    } else if n == 14 {
    } else {
    }
  }

  lemma PcwBit13(v: word)
    ensures v % 0x1_0000 / 0x2000 % 2 == v / 0x2000 % 2
  {
    var q, r := v / 0x1_0000, v % 0x1_0000;
    var a, b := r / 0x2000, r % 0x2000;
    HighField(q, a, b);
    assert v == 0x2000 * (8 * q + a) + b;
  }

  lemma HighField(q: nat, a: nat, b: nat)
    requires b < 0x2000
    ensures (0x2000 * (8 * q + a) + b) / 0x2000 % 2 == a % 2
  {
    var c, d := a / 2, a % 2;
    DivUnique(0x2000 * (8 * q + a) + b, 0x2000, 8 * q + a, b);
    DivUnique(8 * q + a, 2, 4 * q + c, d);
  }

  lemma MoveDirectKept(c: Core, i: Insn)
    requires i.MoveDirect?
    ensures Kept(c, ExecMoveDirect(c, i))
  {
    hide MemRead, MemWrite, Extend, Select, LoadReg, Opval, Bit, MoveSize, Kept;
    var addr, size := (if Computer(c) then 0 else 0x5003_0000) + i.l, MoveSize(i.wsz);
    MemReadKept(c, addr, size, false);
    MemWriteKept(c, addr, size, Select(i.wsz, Opval(c, i.rh)));
    var (c1, v) := MemRead(c, addr, size, false);
    if v.Some? {
      LoadRegKept(c1, i.rh, Extend(i.wsz, v.value));
      KeptTwice(c, c1, LoadReg(c1, i.rh, Extend(i.wsz, v.value)));
    }
  }

  lemma MoveIorKept(c: Core, i: Insn)
    requires i.MoveIor?
    ensures ModesKept(c, ExecMoveIor(c, i).0)
    ensures !WritesEmr(i) ==> ExecMoveIor(c, i).0.pending == c.pending
  {
    hide IorWrite, Extend, Select, LoadReg, Opval, MoveSize, IorRead, PendingFrom;
    if !i.t {
      LoadRegKept(c, i.rh, Extend(i.wsz, IorRead(c, i.ior)));
    } else {
      IorWriteKept(c, i.ior, Select(i.wsz, Opval(c, i.rh)), MoveSize(i.wsz));
    }
  }

  lemma MoveIndKept(c: Core, i: Insn)
    requires i.MoveInd?
    ensures ModesKept(c, ExecMoveInd(c, i))
    ensures !WritesEmr(i) ==> ExecMoveInd(c, i).pending == c.pending
  {
    hide MemRead, MemWrite, IorWrite, IorRead, Extend, Select, LoadReg, Opval, MoveSize, CaPostmod, LockMatches;
    var addr, size := Opval(c, i.rp), MoveSize(i.wsz);
    if !i.t {
      MemReadKept(c, addr, size, false);
      var (c1, v) := MemRead(c, addr, size, false);
      if v.Some? {
        var c2 := CaPostmod(c1, i.rp, i.ri, size);
        CaPostmodKept(c1, i.rp, i.ri, size);
        if i.io { IorWriteKept(c2, i.rh, v.value, size); }
        else { LoadRegKept(c2, i.rh, Extend(i.wsz, v.value)); }
      }
    } else {
      var v := Select(i.wsz, if i.io then IorRead(c, i.rh) else Opval(c, i.rh));
      MemWriteKept(c, addr, size, v);
      CaPostmodKept(MemWrite(c, addr, size, v).0, i.rp, i.ri, size);
    }
  }

  lemma ExecCauKept(c: Core, i: Insn)
    requires !(i.Mac? || i.Special?)
    ensures ModesKept(c, ExecCau(c, i).0)
    ensures !WritesEmr(i) ==> ExecCau(c, i).0.pending == c.pending
  {
    hide Alu, AluAdd, FlagsNz, CondHolds, Opval, SecondSource, TakeError, Sext16, AluStore, Regw,
         ExecMoveDirect, ExecMoveIor, ExecMoveInd, LockMatches;
    match i
    case Illegal(_) => TakeErrorKept(c, VEC_ILLOP);
    case MoveDirect(_, _, _, _) => MoveDirectKept(c, i);
    case MoveIor(_, _, _, _) => MoveIorKept(c, i);
    case MoveInd(_, _, _, _, _, _) => MoveIndKept(c, i);
    case Add16(long, rd, rs3, n) => AluStoreKept(c, rd, AluAdd(Opval(c, rs3), Sext16(n), 0, !long));
    case AluReg(_, f, rd, rs1, _, rs2) =>
      AluStoreKept(c, rd, Alu(f, Opval(c, rs1), SecondSource(c, f, rd, rs1, rs2), !i.long, c.ps.cau));
      DataOnly(c, c);
    case AluImm(long, f, rd, n) =>
      var a := Opval(c, rd);
      AluStoreKept(c, rd, Alu(f, a, if f == F_ROL || f == F_ROR then a else Sext16(n), !long, c.ps.cau));
    case _ => ExecTransferKept(c, i);
  }

  lemma ExecTransferKept(c: Core, i: Insn)
    requires i.LoopGoto? || i.Call16? || i.MoveReserved? || i.Goto16? || i.Do? || i.ShiftOr?
             || i.Goto24? || i.Set24? || i.Call24?
    ensures Kept(c, ExecCau(c, i).0)
  {
    hide FlagsNz, CondHolds, Opval, Sext16, Or, Regw, AluAdd, ExecAluReg, ExecAluImm,
         ExecMoveDirect, ExecMoveIor, ExecMoveInd, TakeError, AluStore, Kept;
    var d := ExecCau(c, i).0;
    DataOnly(c, d) by {
      match i
      case LoopGoto(rm, rb, n) =>
        var v := Wrap(Opval(c, rm) - 1);
        RegwData(c, rm, v);
        RegwData(c.(npc := Wrap(Opval(c, rb) + Sext16(n))), rm, v);
      case Call16(rm, _, _) => RegwData(c, rm, Wrap(c.curInsn + 8));
      case Call24(rm, _) => RegwData(c, rm, Wrap(c.curInsn + 8));
      case Set24(rd, m) => RegwData(c, rd, m);
      case ShiftOr(rd, rs, n) =>
        var res := Or(Opval(c, rs), n * 0x1_0000);
        RegwData(SetCau(c, FlagsNz(res, false)), rd, res);
      case _ =>
    }
  }

  lemma RegwData(c: Core, code: Reg, v: word)
    ensures var d := Regw(c, code, v);
            c.level == d.level && c.errNonmaskable == d.errNonmaskable && c.pcw == d.pcw
            && c.pcwLocked == d.pcwLocked && c.pending == d.pending
  {
    hide RegDecode;
    match RegDecode(code)
    case General(i) =>
    case PcReg =>
    case PcshReg =>
    case _ =>
  }

  // ---------------------------------------------------------------------
  // DA instructions

  lemma PostmodKept(c: Core, p: Pointer, i: U3, size: Size)
    ensures Kept(c, Postmod(c, p, i, size))
  {
    hide Postmod;
    PostmodOnlyR(c, p, i, size);
  }

  lemma ReadOperandKept(c: Core, f: Field7, size: Size)
    ensures Kept(c, ReadOperand(c, f, size).0)
  {
    hide MemRead, Pack, Postmod, LockMatches;
    var p := f / 8;
    if 1 <= p <= 14 {
      MemReadKept(c, c.r[p], size, false);
      PostmodKept(MemRead(c, c.r[p], size, false).0, p, f % 8, size);
    }
  }

  lemma ShadowedWriteKept(c: Core, addr: word, size: Size, val: word)
    ensures Kept(c, ShadowedWrite(c, addr, size, val).0)
  {
    hide MemWrite, ReadBytes, SlotFrom, Padded, AlignDown, Bit;
    MemWriteKept(c, addr, size, val);
  }

  lemma StoreZKept(c: Core, z: Field7, y: Operand, size: Size, val: word)
    requires ValidOperand(y)
    ensures Kept(c, StoreZ(c, z, y, size, val))
  {
    hide ShadowedWrite, Postmod, LockMatches;
    if ZWrites(z, y) {
      var p := z / 8;
      var ea := if p == 15 then y.ea else c.r[p];
      ShadowedWriteKept(c, ea, size, val);
      PostmodKept(ShadowedWrite(c, ea, size, val).0, if p == 15 then y.preg else p, z % 8, size);
    }
  }

  lemma SetDauKept(c: Core, f: DauFlags)
    ensures Kept(c, SetDau(c, f))
  {
  }

  lemma DaFlagsKept(c: Core, res: Acc, affectVU: bool)
    ensures Kept(c, DaFlags(c, res, affectVU).0)
  {
    hide TakeError, RangeChecked, SetDau, Kept;
    var (r, f) := RangeChecked(res, affectVU);
    SetDauKept(c, f);
    TakeErrorKept(SetDau(c, f), VEC_UV);
    KeptTwice(c, SetDau(c, f), TakeError(SetDau(c, f), VEC_UV).0);
  }

  lemma SetAccKept(c: Core, n: U2, a: Acc)
    ensures Kept(c, SetAcc(c, n, a))
  {
  }

  lemma ExecMacKept(c: Core, i: Insn)
    requires i.Mac?
    ensures Kept(c, ExecMac(c, i))
  {
    hide MacSum, DaFlags, StoreZ, ReadOperand, TapWord, Pack, Kept, SetAcc;
    ReadOperandKept(c, i.x, 4);
    var (c1, xo) := ReadOperand(c, i.x, 4);
    if xo.Some? {
      ReadOperandKept(c1, i.y, 4);
      var (c2, yo) := ReadOperand(c1, i.y, 4);
      KeptTwice(c, c1, c2);
      if yo.Some? {
        var sum := MacSum(c2, i, xo.value, yo.value);
        DaFlagsKept(c2, sum, true);
        var (c3, res) := DaFlags(c2, sum, true);
        var c4 := SetAcc(c3, i.an, res);
        SetAccKept(c3, i.an, res);
        var val := if IsTap(i) then TapWord(c4, yo.value, i.y) else Pack(res);
        StoreZKept(c4, i.z, yo.value, 4, val);
        KeptTwice(c, c2, c3);
        KeptTwice(c, c3, c4);
        KeptTwice(c, c4, StoreZ(c4, i.z, yo.value, 4, val));
      }
    }
  }

  lemma WithFlagsKept(c: Core, res: Acc, affectVU: bool)
    ensures Kept(c, WithFlags(c, res, affectVU).c)
  {
    hide DaFlags, Pack, Kept;
    DaFlagsKept(c, res, affectVU);
  }

  lemma ExecDspKept(c: Core, y: Operand)
    ensures Kept(c, ExecDsp(c, y).c)
  {
    hide TakeError, Pack, AccFromIeee, Unpack, WithFlags, SetDau, Kept;
    var iw := PackedInput(y);
    WithFlagsKept(c, AccFromIeee(iw), true);
    var negative, mant := iw >= 0x8000_0000, iw % 0x80_0000;
    var f := DauFlags(negative, false, false, !negative || mant != 0);
    SetDauKept(c, f);
    SetDauKept(c, DauFlags(false, true, mant != 0, false));
    TakeErrorKept(SetDau(c, f), VEC_NAN);
    KeptTwice(c, SetDau(c, f), TakeError(SetDau(c, f), VEC_NAN).0);
    var exp := iw / 0x80_0000 % 0x100;
    if exp == 255 { if mant != 0 { } else { } } else if exp == 0 { } else { }
  }

  lemma PostmodOnlyKept(c: Core, z: Field7, y: Operand, size: Size)
    requires ValidOperand(y)
    ensures Kept(c, PostmodOnly(c, z, y, size))
  {
    hide Postmod, LockMatches;
    if ZWrites(z, y) { PostmodKept(c, if z / 8 == 15 then y.preg else z / 8, z % 8, size); }
  }

  lemma SeedFlagKept(c: Core, u: bool)
    ensures Kept(c, c.(ps := c.ps.(dau := c.ps.dau.(u := u))))
  {
  }

  lemma ExecSeedKept(c: Core, y: Operand)
    ensures Kept(c, ExecSeed(c, y).c)
  {
    hide WithFlags, Unpack, SeedWord, Kept, PackedInput;
    var yb := PackedInput(y);
    WithFlagsKept(c, Unpack(SeedWord(yb)), false);
    var out := WithFlags(c, Unpack(SeedWord(yb)), false);
    SeedFlagKept(out.c, true);
    KeptTwice(c, out.c, out.c.(ps := out.c.ps.(dau := out.c.ps.dau.(u := true))));
    if yb % 0x100 == 0xFF { } else { }
  }

  lemma SpecialResultKept(c: Core, i: Insn, y: Operand)
    requires i.Special? && !ReservedG(i.g) && ValidOperand(y)
    ensures Kept(c, SpecialResult(c, i, y).c)
  {
    hide WithFlags, AccFromInt, AccRound, AdderInputOf, AccToIeee, AccToInt, Pack, IntLane,
         CompandedEncode, Decode2x, LaneInt, ExecDsp, PostmodOnly, ExecSeed, RawOf, Kept;
    DataOnly(c, c);
    var g := i.g;
    if g == G_IC {
      var code := LaneInt(y, 24) % 0x100;
      WithFlagsKept(c, AccFromInt(code), false);
      var twice := AccFromInt(Decode2x(code, c.dauc % 2 == 1));
      WithFlagsKept(c, if twice.e != 0 then twice.(e := twice.e - 1) else twice, false);
    }
    else if g == G_OC { }
    else if g == G_FLOAT16 { WithFlagsKept(c, AccFromInt(Signed16(LaneInt(y, 16))), false); }
    else if g == G_FLOAT32 { WithFlagsKept(c, AccFromInt(Signed32(Wrap(LaneInt(y, 0)))), false); }
    else if g == G_INT16 { }
    else if g == G_INT32 { }
    else if g == G_ROUND { WithFlagsKept(c, AccRound(AdderInputOf(y)), true); }
    else if g == G_IFALT || g == G_IFAEQ || g == G_IFAGT { PostmodOnlyKept(c, i.z, y, 4); }
    else if g == G_IEEE { }
    else if g == G_DSP { ExecDspKept(c, y); }
    else { ExecSeedKept(c, y); }
  }

  lemma ExecSpecialKept(c: Core, i: Insn)
    requires i.Special?
    ensures Kept(c, ExecSpecial(c, i))
  {
    hide SpecialResult, StoreZ, ReadOperand, Kept, SetAcc;
    ReadOperandKept(c, i.y, YSize(i.g));
    var (c1, yo) := ReadOperand(c, i.y, YSize(i.g));
    if yo.Some? && !ReservedG(i.g) {
      SpecialResultKept(c1, i, yo.value);
      var out := SpecialResult(c1, i, yo.value);
      var c2 := SetAcc(out.c, i.an, out.res);
      SetAccKept(out.c, i.an, out.res);
      KeptTwice(c, c1, out.c);
      KeptTwice(c, out.c, c2);
      StoreZKept(c2, i.z, yo.value, ZSize(i.g), out.zbits);
      KeptTwice(c, c2, StoreZ(c2, i.z, yo.value, ZSize(i.g), out.zbits));
      if out.store { } else { }
    }
  }

  // ---------------------------------------------------------------------
  // The theorems

  /** No instruction raises the machine to interrupt level, and while it stays
      there the error mode stays; the lock keeps matching pcw[13]; only a write
      to emr touches the pending requests. */
  lemma ExecKeepsModes(c: Core, i: Insn)
    ensures ModesKept(c, ExecCore(c, i).0)
    ensures !WritesEmr(i) ==> ExecCore(c, i).0.pending == c.pending
  {
    hide ExecMac, ExecSpecial, ExecCau, ModesKept;
    if i.Mac? {
      ExecMacKept(c, i);
    } else if i.Special? {
      ExecSpecialKept(c, i);
    } else {
      ExecCauKept(c, i);
    }
  }

  /** Both machines keep their requests, or both lose request 15. */
  predicate PendingTogether(c: Core, d: Core, c1: Core, d1: Core) {
    || (c1.pending == c.pending && d1.pending == d.pending)
    || (c1.pending == c.pending - {15} && d1.pending == d.pending - {15})
  }

  lemma EmrWriteTogether(c: Core, d: Core, v: word, size: Size)
    ensures PendingTogether(c, d, IorWrite(c, 8, v, size).0, IorWrite(d, 8, v, size).0)
  {
  }

  /** From states alike, the pending requests change alike. */
  lemma ExecPendingTogether(c: Core, d: Core, i: Insn)
    requires Alike(c, d) && !ReadsPcsh(i)
    ensures PendingTogether(c, d, ExecCore(c, i).0, ExecCore(d, i).0)
  {
    if !WritesEmr(i) {
      hide ExecCore, WritesEmr;
      ExecKeepsModes(c, i);
      ExecKeepsModes(d, i);
    } else if i.MoveIor? {
      hide Select, Opval, MoveSize, IorWrite, PendingFrom, Alike;
      OpvalAlike(c, d, i.rh);
      IorEffect(c, 8, Select(i.wsz, Opval(c, i.rh)), MoveSize(i.wsz));
      IorEffect(d, 8, Select(i.wsz, Opval(c, i.rh)), MoveSize(i.wsz));
      EmrWriteTogether(c, d, Select(i.wsz, Opval(c, i.rh)), MoveSize(i.wsz));
      EmrMove(c, i);
      EmrMove(d, i);
    } else {
      EmrLoadTogether(c, d, i);
    }
  }

  lemma EmrMove(c: Core, i: Insn)
    requires i.MoveIor? && i.t && i.ior == 8
    ensures ExecCore(c, i).0 == IorWrite(c, 8, Select(i.wsz, Opval(c, i.rh)), MoveSize(i.wsz)).0
  {
    hide Select, Opval, MoveSize, PendingFrom;
  }

  lemma EmrLoadTogether(c: Core, d: Core, i: Insn)
    requires Alike(c, d) && !ReadsPcsh(i) && i.MoveInd? && i.io && !i.t && i.rh == 8
    ensures PendingTogether(c, d, ExecCore(c, i).0, ExecCore(d, i).0)
  {
    hide MemRead, IorWrite, CaPostmod, Opval, MoveSize, LockMatches, Alike;
    OpvalAlike(c, d, i.rp);
    var addr, size := Opval(c, i.rp), MoveSize(i.wsz);
    MemReadAlike(c, d, addr, size);
    MemReadKept(c, addr, size, false);
    MemReadKept(d, addr, size, false);
    var (c1, v) := MemRead(c, addr, size, false);
    var (d1, _) := MemRead(d, addr, size, false);
    if v.Some? {
      var c2, d2 := CaPostmod(c1, i.rp, i.ri, size), CaPostmod(d1, i.rp, i.ri, size);
      CaPostmodKept(c1, i.rp, i.ri, size);
      CaPostmodKept(d1, i.rp, i.ri, size);
      EmrWriteTogether(c2, d2, v.value, size);
    }
  }

  // ---------------------------------------------------------------------
  // Slots and steps

  /** A slot keeps the lock and, once at interrupt level, has the error mode of
      the state before it. */
  predicate SlotModes(c: Core, n: Slot) {
    n.Halted? || ((LockMatches(c) ==> LockMatches(n.s.c))
                  && (n.s.c.level == Interrupt ==> n.s.c.errNonmaskable == c.errNonmaskable))
  }

  lemma FetchModes(s: State)
    ensures SlotModes(s.c, FetchSlot(s))
    ensures FetchSlot(s).Runs? ==> FetchSlot(s).s.c.waiting == s.c.waiting && FetchSlot(s).s.c.intDefer == s.c.intDefer
  {
    hide Decode, RawRead, LockMatches, Aged;
    var c := s.c.(curInsn := s.c.pc);
    LockFields(s.c, c);
    MemReadKept(c, c.pc, 4, true);
    FetchNoError(c, c.pc);
    var (c1, w) := MemRead(c, c.pc, 4, true);
    hide MemRead;
    if w.Some? {
      var d := LatencyTick(c1.(pc := c1.npc, npc := Wrap(c1.npc + 4)));
      LockFields(c1, d);
      if RawRead(d, d.pc, 4).Some? { } else { }
    }
  }

  /** A fetch that delivers a word took no exception. */
  lemma FetchNoError(c: Core, addr: word)
    ensures MemRead(c, addr, 4, true).1.Some? ==> MemRead(c, addr, 4, true).0 == c
  {
    hide ReadBytes, JoinWord, Bit, Abort;
  }

  lemma RecogniseModes(s: State)
    ensures var t := Recognise(s);
            && (LockMatches(s.c) ==> LockMatches(t.c)) && t.c.errNonmaskable == s.c.errNonmaskable
            && t.c.waiting == s.c.waiting && !t.c.intDefer
  {
    hide PendingFrom, ShadowedInstruction;
  }

  lemma NextSlotModes(s: State)
    ensures SlotModes(s.c, NextSlot(s))
    ensures NextSlot(s).Runs? ==> !NextSlot(s).s.c.waiting && !NextSlot(s).s.c.intDefer
  {
    hide FetchSlot, PendingFrom, LockMatches, Recognise, Decode, Aged;
    var c := PinTick(s.c);
    LockFields(s.c, c);
    if s.c.level == DoubleError {
    } else if c.waiting && PendingVector(c) == 0 {
      LockFields(c, LatencyTick(c));
    } else {
      var c1 := if c.waiting then c.(waiting := false, intDefer := true) else c;
      LockFields(c, c1);
      var e := Recognise(s.(c := c1));
      RecogniseModes(s.(c := c1));
      FetchModes(e);
      LockFields(e.c, LatencyTick(e.c.(curInsn := e.h.irshAddr)));
    }
  }

  lemma FinishModes(t: State, i: Insn, addr: word)
    ensures ModesKept(t.c, Finish(t, i, addr).0.c)
  {
    hide ExecCore, LockMatches;
    ExecKeepsModes(t.c, i);
    var d := Exec(t, i).0.c;
    if IsIreturn(i) { LockFields(t.c, d); }
    var e := LoopBack(d, addr);
    LoopBackModes(d, addr);
    LockFields(d, e);
    hide LoopBack;
  }

  lemma LoopBackModes(c: Core, addr: word)
    ensures var d := LoopBack(c, addr);
            && d.level == c.level && d.errNonmaskable == c.errNonmaskable && d.pcw == c.pcw && d.pcwLocked == c.pcwLocked
            && d.waiting == c.waiting && d.pending == c.pending
  {
    if c.loop.active && addr == c.loop.last {
      if Wrap(c.loop.count - 1) == 0 { } else { }
    }
  }

  /** The same over a whole step. */
  lemma StepModes(s: State)
    ensures var d := Step(s).0.c;
            && (LockMatches(s.c) ==> LockMatches(d))
            && (d.level == Interrupt ==> d.errNonmaskable == s.c.errNonmaskable)
  {
    hide NextSlot, Finish, LockMatches;
    NextSlotModes(s);
    match NextSlot(s)
    case Runs(s1, i, addr) => FinishModes(s1, i, addr);
    case _ =>
  }

  /** On every run from reset the lock is on exactly while pcw[13] is set. */
  lemma {:induction false} LockFromReset(ext: ExtBytes, reqs: seq<set<int>>)
    ensures LockMatches(Run(Reset(ext), reqs).c)
  {
    hide Step;
    if reqs != [] {
      LockFromReset(ext, reqs[..|reqs| - 1]);
      var t := Run(Reset(ext), reqs[..|reqs| - 1]);
      hide Reset, LockMatches;
      LockFields(t.c, Request(t, reqs[|reqs| - 1]).c);
      StepModes(Request(t, reqs[|reqs| - 1]));
    }
  }
}
