/** Canonicalisation preserves meaning: an instruction and its canonical form
    take every machine state to the same state, but for the carry of the
    subtractions that come back as additions. */
module CanonMeaning {
  import opened Words
  import opened Dau
  import opened Insn
  import opened Core
  import opened Cau
  import opened DauExec
  import opened Machine
  import opened Canonical
  import Dis
  import Syntax
  import Frames
  import DaFrames

  // ---------------------------------------------------------------------
  // The exceptions

  /** A subtraction re-encoded as the addition of the negative. */
  predicate CarryAlias(i: Insn) {
    match i
    case AluReg(_, f, rd, rs1, _, rs2) =>
      f == F_SUB && rs1 != R0 && Dis.IsPseudo(rs2) && !(rd == SP && rs1 == SP)
    case AluImm(_, f, rd, n) => f == F_SUB && 0 < n < 0x8000 && rd != R0
    case _ => false
  }

  /** `goto pcsh+0x0` would come back as ireturn. */
  predicate BecomesIreturn(i: Insn) {
    i == Goto24(PCSH, 0)
  }

  /** Z names Y's own pointer register. */
  predicate SharesPointer(y: Field7, z: Field7) {
    1 <= z / 8 <= 14 && z / 8 == y / 8
  }

  /** Y's post-modification adds nothing. */
  predicate YStays(c: Core, y: Field7) {
    y % 8 == 0 || (y % 8 <= 5 && c.r[14 + y % 8] == 0)
  }

  /** ifalt, ifaeq or ifagt with a failed condition and dauc set not to store. */
  predicate StoreSuppressed(c: Core, i: Insn) {
    i.Special? && (i.g == G_IFALT || i.g == G_IFAEQ || i.g == G_IFAGT)
    && !LiveCondition(c, i.g) && c.dauc / 64 % 2 == 1
  }

  /** A shared pointer does no harm when Y leaves it alone or nothing is stored. */
  predicate PointerKept(c: Core, i: Insn) {
    (i.Mac? || i.Special?) && SharesPointer(i.y, i.z) ==> YStays(c, i.y) || StoreSuppressed(c, i)
  }

  /** The CAU carry complemented. */
  function CarryFlipped(c: Core): Core {
    SetCau(c, c.ps.cau.(c := !c.ps.cau.c))
  }

  // ---------------------------------------------------------------------
  // CAU instructions

  /** a - x and a + (-x): same result, n, z and v; borrow is the absent carry. */
  lemma SubIsAddNegative(a: word, x: word, w16: bool)
    requires 0 < x < 0x8000 || x == 0xFFFF_FFFF
    ensures var y: word := if x == 0xFFFF_FFFF then 1 else 0x1_0000_0000 - x;
            var sub, add := AluSub(a, x, w16), AluAdd(a, y, 0, w16);
            add == AluOut(sub.res, sub.store, sub.flags.(c := !sub.flags.c))
  {
    if w16 {
      SubIsAddNegative16(a, x);
    } else {
      SubIsAddNegative32(a, x);
    }
  }

  lemma SubIsAddNegative32(a: word, x: word)
    requires 0 < x < 0x8000 || x == 0xFFFF_FFFF
    ensures var y: word := if x == 0xFFFF_FFFF then 1 else 0x1_0000_0000 - x;
            var sub, add := AluSub(a, x, false), AluAdd(a, y, 0, false);
            add == AluOut(sub.res, sub.store, sub.flags.(c := !sub.flags.c))
  {
    var y: word := if x == 0xFFFF_FFFF then 1 else 0x1_0000_0000 - x;
    assert Wrap(a - x) == Wrap(a + y);
  }

  lemma SubIsAddNegative16(a: word, x: word)
    requires 0 < x < 0x8000 || x == 0xFFFF_FFFF
    ensures var y: word := if x == 0xFFFF_FFFF then 1 else 0x1_0000_0000 - x;
            var sub, add := AluSub(a, x, true), AluAdd(a, y, 0, true);
            add == AluOut(sub.res, sub.store, sub.flags.(c := !sub.flags.c))
  {
    hide Bit15, Sext16, Wrap, Msb;
    var y: word := if x == 0xFFFF_FFFF then 1 else 0x1_0000_0000 - x;
    var ua, ux, uy := a % 0x1_0000, x % 0x1_0000, y % 0x1_0000;
    assert ux + uy == 0x1_0000 && (0 < ux < 0x8000 || ux == 0xFFFF);
    Complement16(ua, ux);
    var sum, diff := ua + uy, Wrap(ua - ux);
    assert sum == ua - ux + 0x1_0000;
    Bit15OfLow(diff);
    Bit15OfLow(sum);
    Bit15OfLow(ux);
    Bit15OfLow(uy);
  }

  lemma Complement16(ua: half, ux: half)
    ensures var sum, diff := ua - ux + 0x1_0000, Wrap(ua - ux);
            diff % 0x1_0000 == sum % 0x1_0000 && (sum / 0x1_0000 % 2 == 1 <==> ua >= ux)
  {
  }

  lemma Bit15OfLow(x: int)
    ensures Bit15(x) == (x % 0x1_0000 >= 0x8000) && Sext16(x) == Sext16(x % 0x1_0000)
  {
  }

  lemma SetCauRegw(c: Core, f: CauFlags, g: CauFlags, rd: Reg, v: word)
    ensures SetCau(Regw(SetCau(c, f), rd, v), g) == Regw(SetCau(c, g), rd, v)
    ensures Regw(SetCau(c, f), rd, v).ps.cau == f
  {
    hide RegDecode;
    assert SetCau(SetCau(c, f), g) == SetCau(c, g);
    match RegDecode(rd)
    case General(k) => assert Regw(SetCau(c, f), rd, v) == SetCau(c, f).(r := c.r[k := v]);
    case PcReg => assert Regw(SetCau(c, f), rd, v) == SetCau(c, f).(npc := v);
    case PcshReg => assert Regw(SetCau(c, f), rd, v) == SetCau(c, f).(pcsh := v);
    case _ => assert Regw(SetCau(c, f), rd, v) == SetCau(c, f);
  }

  lemma FlipAfterStore(c: Core, rd: Reg, sub: AluOut, add: AluOut)
    requires add == AluOut(sub.res, sub.store, sub.flags.(c := !sub.flags.c))
    ensures AluStore(c, rd, add) == CarryFlipped(AluStore(c, rd, sub))
  {
    SetCauRegw(c, sub.flags, add.flags, rd, sub.res);
    hide Regw;
  }

  lemma AddCommutes(a: word, w16: bool)
    ensures AluAdd(0, a, 0, w16) == AluAdd(a, 0, 0, w16)
  {
  }

  lemma SubCaseMeaning(c: Core, i: Insn)
    requires i.AluReg? && CarryAlias(i)
    ensures ExecCore(c, Canon(i))
            == (if CondHolds(c, i.c) then CarryFlipped(ExecCore(c, i).0) else ExecCore(c, i).0, Ok)
  {
    var a, x := Opval(c, i.rs1), Opval(c, i.rs2);
    SubIsAddNegative(a, x, !i.long);
    var sub, add := AluSub(a, x, !i.long), AluAdd(a, Opval(c, Opposite(i.rs2)), 0, !i.long);
    hide AluSub, AluAdd, AluStore, CondHolds;
    FlipAfterStore(c, i.rd, sub, add);
  }

  lemma AluRegMeaning(c: Core, i: Insn)
    requires i.AluReg? && !CarryAlias(i)
    ensures ExecCore(c, Canon(i)) == ExecCore(c, i)
  {
    AddCommutes(Opval(c, i.rs2), !i.long);
    assert CondHolds(c, 1) && Sext16(1) == 1;
    assert Opval(c, PLUS) == 1 && Opval(c, R0) == 0;
    hide AluSub, AluAdd, CondHolds, CarryReverseAdd, ShiftLeft, ShiftRight, ArithShiftRight, RotateRight, Logic,
         Opval, Sext16, FlagsNz, AluStore;
    if Dis.IsTest(i.f) {
    } else if i.f == F_ADD {
    } else if i.f == F_RSUB {
    } else if Dis.IsRotate(i.f) {
    } else if Canon(i).AluImm? {
    } else {
      assert Canon(i) == i;
      hide Alu, ExecCore;
    }
  }

  lemma NegatedImm(n: half)
    requires 0 < n < 0x8000
    ensures Sext16(n) == n && Sext16(0x1_0000 - n) == 0x1_0000_0000 - n
  {
  }

  lemma ImmSubCanon(i: Insn)
    requires i.AluImm? && CarryAlias(i)
    ensures Canon(i) == Add16(i.long, i.rd, i.rd, 0x1_0000 - i.n)
  {
  }

  lemma ImmSubMeaning(c: Core, i: Insn)
    requires i.AluImm? && CarryAlias(i)
    ensures ExecCore(c, Canon(i)) == (CarryFlipped(ExecCore(c, i).0), Ok)
  {
    hide AluSub, AluAdd, AluStore, Sext16, Opval, Canon, CarryFlipped;
    var a := Opval(c, i.rd);
    SubIsAddNegative(a, i.n, !i.long);
    NegatedImm(i.n);
    ImmSubCanon(i);
    FlipAfterStore(c, i.rd, AluSub(a, i.n, !i.long), AluAdd(a, 0x1_0000_0000 - i.n, 0, !i.long));
  }

  lemma ShiftCount(n: half)
    ensures Sext16(n) % 32 == n % 32 && Sext16(n % 32) == n % 32
  {
    if n < 0x8000 {
      assert Sext16(n) == n;
    } else {
      assert Sext16(n) == n + 0xFFFF_0000;
    }
    assert n % 32 < 32;
    hide Signed16;
    SmallImm(n % 32);
    hide Sext16;
  }

  lemma SmallImm(k: half)
    requires k < 32
    ensures Sext16(k) == k
  {
  }

  lemma ImmShiftMeaning(c: Core, i: Insn)
    requires i.AluImm? && Dis.IsShift(i.f)
    ensures ExecCore(c, Canon(i)) == ExecCore(c, i)
  {
    hide AluStore, ShiftLeft, ShiftRight, ArithShiftRight, Sext16, Opval, FlagsNz;
    ShiftCount(i.n);
    ShiftCount(i.n % 32);
    assert Canon(i) == AluImm(i.long, i.f, i.rd, i.n % 32);
    hide Canon;
  }

  lemma ImmRotateMeaning(c: Core, i: Insn)
    requires i.AluImm? && Dis.IsRotate(i.f)
    ensures ExecCore(c, Canon(i)) == ExecCore(c, i)
  {
    hide AluStore, RotateRight, Sext16, Opval, AluAdd;
    assert Canon(i) == AluReg(i.long, i.f, i.rd, i.rd, 1, R0);
    hide Canon;
  }

  lemma AluImmMeaning(c: Core, i: Insn)
    requires i.AluImm?
    ensures ExecCore(c, Canon(i)) == (if CarryAlias(i) then CarryFlipped(ExecCore(c, i).0) else ExecCore(c, i).0, Ok)
  {
    if CarryAlias(i) {
      ImmSubMeaning(c, i);
    } else if Dis.IsShift(i.f) {
      ImmShiftMeaning(c, i);
    } else if Dis.IsRotate(i.f) {
      ImmRotateMeaning(c, i);
    } else if i.f == F_ADD {
      hide AluStore, Sext16, Opval, AluAdd;
    } else {
      assert Canon(i) == i;
      hide Canon, Alu, AluStore;
    }
  }

  lemma Goto24Meaning(c: Core, i: Insn)
    requires i.Goto24?
    ensures ExecCore(c, Canon(i)) == ExecCore(c, i)
  {
    assert CondHolds(c, 1);
    assert Canon(i) == if i.m24 <= 0x7FFF then Goto16(1, i.rb, i.m24) else i;
    hide CondHolds, Opval, Canon, Wrap, Sext16;
    if i.m24 <= 0x7FFF {
      assert Sext16(i.m24) == i.m24 by { PositiveHalf(i.m24); }
      assert ExecCore(c, Canon(i)).0 == c.(npc := Wrap(Opval(c, i.rb) + i.m24));
    }
  }

  lemma PositiveHalf(n: half)
    requires n <= 0x7FFF
    ensures Sext16(n) == n
  {
  }

  lemma Call24Meaning(c: Core, i: Insn)
    requires i.Call24?
    ensures ExecCore(c, Canon(i)) == ExecCore(c, i)
  {
    hide RegDecode, Regw;
    assert Opval(c, R0) == 0 by { assert RegDecode(R0) == Zero by { ZeroDecodes(); } }
  }

  lemma ZeroDecodes()
    ensures RegDecode(R0) == Zero
  {
  }

  lemma Add16Meaning(c: Core, i: Insn)
    requires i.Add16?
    ensures ExecCore(c, Canon(i)) == ExecCore(c, i)
  {
    assert CondHolds(c, 1) && Sext16(0) == 0 && Opval(c, R0) == 0;
    hide CondHolds, AluAdd, AluStore, Opval;
  }

  // ---------------------------------------------------------------------
  // DA instructions

  /** What a store needs of the state at the moment it happens: Y's effective
      address is still in Y's pointer register. */
  predicate Holds(c: Core, z: Field7, y: Operand) {
    y.MemOperand? && z / 8 == y.preg ==> c.r[y.preg] == y.ea
  }

  lemma StoreZMeaning(c: Core, z: Field7, yf: Field7, y: Operand, size: Size, val: word)
    requires ValidOperand(y) && Syntax.OperandField(yf) && !Dis.ZKindOf(z, yf).ZBad?
    requires y.MemOperand? <==> Syntax.PointerField(yf)
    requires y.MemOperand? ==> y.preg == yf / 8
    ensures Holds(c, z, y) ==> StoreZ(c, CanonZ(z, yf), y, size, val) == StoreZ(c, z, y, size, val)
    ensures PostmodOnly(c, CanonZ(z, yf), y, size) == PostmodOnly(c, z, y, size)
  {
    hide ShadowedWrite, Postmod;
  }

  lemma MemReadSome(c: Core, addr: word, size: Size)
    ensures MemRead(c, addr, size, false).1.Some? ==> MemRead(c, addr, size, false).0 == c
  {
    hide ReadBytes, JoinWord, AlignDown, Abort, Bit;
  }

  /** A successful operand read moves its pointer register only. */
  lemma ReadMeaning(c: Core, f: Field7, size: Size)
    requires Syntax.OperandField(f)
    ensures var (d, o) := ReadOperand(c, f, size);
            o.Some? ==>
              && ValidOperand(o.value) && d == c.(r := d.r)
              && (forall k :: 15 <= k < 23 ==> d.r[k] == c.r[k])
              && (o.value.MemOperand? <==> Syntax.PointerField(f))
              && (o.value.MemOperand? ==> o.value.preg == f / 8 && o.value.ea == c.r[f / 8]
                                          && (YStays(c, f) <==> d.r[f / 8] == o.value.ea))
  {
    hide MemRead, Wrap;
    if Syntax.PointerField(f) {
      var r: int := c.r[f / 8];
      MemReadSome(c, c.r[f / 8], size);
      WrapMoves(r, size);
      WrapMoves(r, -1 * size);
      if 1 <= f % 8 <= 5 { WrapMoves(r, c.r[14 + f % 8]); }
    }
  }

  /** Adding less than 2^32 moves a word unless it adds 0. */
  lemma WrapMoves(r: word, delta: int)
    requires -4 <= delta < 0x1_0000_0000
    ensures Wrap(r + delta) == r <==> delta == 0
  {
  }

  lemma TakeErrorRegs(c: Core, vn: nat)
    ensures forall k :: 0 <= k < 20 ==> TakeError(c, vn).0.r[k] == c.r[k]
  {
    hide Bit;
  }

  lemma DaFlagsRegs(c: Core, res: Acc, affectVU: bool)
    ensures forall k :: 0 <= k < 20 ==> DaFlags(c, res, affectVU).0.r[k] == c.r[k]
  {
    hide TakeError, RangeChecked;
    var (r, f) := RangeChecked(res, affectVU);
    TakeErrorRegs(SetDau(c, f), VEC_UV);
  }

  /** Re-encodings of one multiply-accumulate compute the same sum. */
  lemma MacSumMeaning(c: Core, i: Insn, x: Operand, y: Operand, y': Operand)
    requires i.Mac? && Encodable(i) && Dis.Printable(i)
    requires i.y / 8 == 0 ==> y == AccOperand(c.acc[i.y % 8 % 4], Pack(c.pipe[2][i.y % 8 % 4]))
    requires if Canon(i).y == i.y then y' == y
             else y' == AccOperand(c.acc[i.mul % 4], Pack(c.pipe[2][i.mul % 4]))
    ensures MacSum(c, Canon(i), x, y') == MacSum(c, i, x, y)
  {
    hide DauMul, DauAdd, Pack, Unpack, AccNegate;
    if i.fmt == 1 {
    } else if i.fmt == 2 && Dis.ZPrints(i.z, i.y) {
    } else if i.mul < 4 && i.y / 8 == 0 {
    } else {
    }
  }


  /** Where nothing prints, nothing is stored. */
  lemma SilentStore(c: Core, z: Field7, yf: Field7, y: Operand, size: Size, val: word)
    requires ValidOperand(y) && !Dis.ZPrints(z, yf)
    requires y.MemOperand? ==> Syntax.PointerField(yf)
    ensures StoreZ(c, z, y, size, val) == c
  {
  }

  lemma YStaysAfter(c: Core, d: Core, y: Field7)
    requires forall k :: 15 <= k < 23 ==> d.r[k] == c.r[k]
    ensures YStays(c, y) == YStays(d, y)
  {
  }

  /** The last part of a multiply-accumulate, from the sum on. */
  function MacFinish(c: Core, i: Insn, sum: Acc, y: Operand): Core
    requires i.Mac? && ValidOperand(y)
  {
    var (c3, res) := DaFlags(c, sum, true);
    var c4 := SetAcc(c3, i.an, res);
    StoreZ(c4, i.z, y, 4, if IsTap(i) then TapWord(c4, y, i.y) else Pack(res))
  }

  lemma MacFinishMeaning(c: Core, i: Insn, sum: Acc, y: Operand)
    requires i.Mac? && Encodable(i) && Dis.Printable(i) && Canon(i).y == i.y && ValidOperand(y)
    requires y.MemOperand? <==> Syntax.PointerField(i.y)
    requires y.MemOperand? ==> y.preg == i.y / 8
    requires SharesPointer(i.y, i.z) ==> y.MemOperand? && c.r[y.preg] == y.ea
    ensures MacFinish(c, Canon(i), sum, y) == MacFinish(c, i, sum, y)
  {
    hide DaFlags, StoreZ, TapWord, Pack;
    var j := Canon(i);
    var (c3, res) := DaFlags(c, sum, true);
    DaFlagsRegs(c, sum, true);
    var c4 := SetAcc(c3, i.an, res);
    var val := if IsTap(i) then TapWord(c4, y, i.y) else Pack(res);
    StoreZMeaning(c4, i.z, i.y, y, 4, val);
    if !Dis.ZPrints(i.z, i.y) {
      SilentStore(c4, i.z, i.y, y, 4, val);
      SilentStore(c4, j.z, i.y, y, 4, if IsTap(j) then TapWord(c4, y, i.y) else Pack(res));
    } else {
      assert IsTap(i) == IsTap(j);
    }
    hide DaFlags, StoreZ, TapWord, Pack;
  }

  /** The rest of a multiply-accumulate, from reading Y on. */
  function MacFromY(c: Core, i: Insn, x: Operand): Core
    requires i.Mac?
  {
    var (d, y) := ReadOperand(c, i.y, 4);
    if y.None? then d else MacFinish(d, i, MacSum(d, i, x, y.value), y.value)
  }

  lemma MacUnfold(c: Core, i: Insn)
    requires i.Mac?
    ensures var (c1, xo) := ReadOperand(c, i.x, 4);
            ExecMac(c, i) == if xo.None? then c1 else MacFromY(c1, i, xo.value)
  {
    hide MacSum, DaFlags, StoreZ, ReadOperand, TapWord, Pack;
  }

  lemma MacSameY(c: Core, i: Insn)
    requires i.Mac? && Encodable(i) && Dis.Printable(i) && PointerKept(c, i)
    requires Canon(i).y == i.y && Canon(i).x == i.x
    requires Syntax.OperandField(i.x)
    ensures ExecMac(c, Canon(i)) == ExecMac(c, i)
  {
    CanonMacShape(i);
    hide MacFromY, ReadOperand, YStays, Canon, ExecMac;
    ReadMeaning(c, i.x, 4);
    MacUnfold(c, i);
    MacUnfold(c, Canon(i));
    var (c1, xo) := ReadOperand(c, i.x, 4);
    if xo.Some? {
      YStaysAfter(c, c1, i.y);
      SameFromY(c1, i, xo.value);
    }
  }

  lemma SameFromY(c: Core, i: Insn, x: Operand)
    requires i.Mac? && Encodable(i) && Dis.Printable(i) && PointerKept(c, i)
    requires Canon(i).Mac? && Canon(i).y == i.y
    ensures MacFromY(c, Canon(i), x) == MacFromY(c, i, x)
  {
    hide MacSum, MacFinish, ReadOperand, Pack, YStays, Canon;
    ReadMeaning(c, i.y, 4);
    var (d, y) := ReadOperand(c, i.y, 4);
    if y.Some? {
      AccRead(c, i.y);
      MacSumMeaning(d, i, x, y.value, y.value);
      MacFinishMeaning(d, i, MacSum(d, i, x, y.value), y.value);
    }
  }

  lemma AccRead(c: Core, f: Field7)
    ensures f / 8 == 0 ==> ReadOperand(c, f, 4) == (c, Some(AccOperand(c.acc[f % 8 % 4], Pack(c.pipe[2][f % 8 % 4]))))
  {
  }

  lemma CanonMacShape(i: Insn)
    requires i.Mac?
    ensures var j := Canon(i);
            && j.Mac? && j.x == i.x && j.an == i.an
            && (j.y != i.y ==> i.fmt != 1 && i.mul < 4 && i.y / 8 == 0 && j.y == i.mul && j.fmt == 1 && j.mul == i.y % 8
                               && !(i.fmt == 2 && Dis.ZPrints(i.z, i.y)) && j.z == CanonZ(i.z, i.y))
  {
    hide CanonZ;
  }

  /** With Y an accumulator the operand only decides whether p = 1111 writes. */
  lemma AccStore(c: Core, z: Field7, y: Operand, y': Operand, size: Size, val: word)
    requires y.AccOperand? && y'.AccOperand?
    ensures StoreZ(c, z, y, size, val) == StoreZ(c, z, y', size, val)
  {
    hide ShadowedWrite, Postmod;
  }

  lemma MacFinishSwapped(c: Core, i: Insn, sum: Acc, y: Operand, y': Operand)
    requires i.Mac? && Encodable(i) && Dis.Printable(i) && Canon(i).Mac? && Canon(i).y != i.y
    requires y.AccOperand? && y'.AccOperand?
    ensures MacFinish(c, Canon(i), sum, y') == MacFinish(c, i, sum, y)
  {
    CanonMacShape(i);
    var j := Canon(i);
    var (c3, res) := DaFlags(c, sum, true);
    var c4 := SetAcc(c3, i.an, res);
    var val := if IsTap(i) then TapWord(c4, y, i.y) else Pack(res);
    if !Dis.ZPrints(i.z, i.y) {
      SilentStore(c4, i.z, i.y, y, 4, val);
      SilentStore(c4, j.z, j.y, y', 4, if IsTap(j) then TapWord(c4, y', j.y) else Pack(res));
    } else {
      AccStore(c4, i.z, y, y', 4, Pack(res));
      assert j.z == i.z && !IsTap(i) && !IsTap(j);
    }
    hide DaFlags, StoreZ, TapWord, Pack, Canon;
  }

  lemma MacSwappedY(c: Core, i: Insn)
    requires i.Mac? && Encodable(i) && Dis.Printable(i) && Canon(i).Mac? && Canon(i).y != i.y
    ensures ExecMac(c, Canon(i)) == ExecMac(c, i)
  {
    CanonMacShape(i);
    hide MacFromY, ReadOperand, Canon, ExecMac, Encodable, Dis.Printable;
    var j := Canon(i);
    MacUnfold(c, i);
    MacUnfold(c, j);
    var (c1, xo) := ReadOperand(c, i.x, 4);
    if xo.Some? {
      SwappedFromY(c1, i, xo.value);
    }
  }

  function AccY(c: Core, n: nat): Operand {
    AccOperand(c.acc[n % 4], Pack(c.pipe[2][n % 4]))
  }

  /** Reading Y from an accumulator moves nothing. */
  lemma FromAccY(c: Core, i: Insn, x: Operand)
    requires i.Mac? && i.y / 8 == 0
    ensures var y := AccY(c, i.y % 8); MacFromY(c, i, x) == MacFinish(c, i, MacSum(c, i, x, y), y)
  {
    AccRead(c, i.y);
    hide MacSum, MacFinish, ReadOperand, Pack;
  }

  lemma SwappedFromY(c: Core, i: Insn, x: Operand)
    requires i.Mac? && Encodable(i) && Dis.Printable(i) && Canon(i).Mac? && Canon(i).y != i.y
    ensures MacFromY(c, Canon(i), x) == MacFromY(c, i, x)
  {
    CanonMacShape(i);
    FromAccY(c, i, x);
    FromAccY(c, Canon(i), x);
    var y, y' := AccY(c, i.y % 8), AccY(c, i.mul);
    assert Canon(i).y % 8 == i.mul;
    hide *;
    MacSumSwapped(c, i, x);
    MacFinishSwapped(c, i, MacSum(c, i, x, y), y, y');
  }

  lemma MacSumSwapped(c: Core, i: Insn, x: Operand)
    requires i.Mac? && Encodable(i) && Dis.Printable(i) && Canon(i).Mac? && Canon(i).y != i.y && i.y / 8 == 0
    ensures AccY(c, i.y % 8).AccOperand? && AccY(c, i.mul).AccOperand?
    ensures MacSum(c, Canon(i), x, AccY(c, i.mul)) == MacSum(c, i, x, AccY(c, i.y % 8))
  {
    hide MacSum, Canon, Pack, Encodable, Dis.Printable;
    MacSumMeaning(c, i, x, AccY(c, i.y % 8), AccY(c, i.mul));
  }

  lemma MacMeaning(c: Core, i: Insn)
    requires i.Mac? && Encodable(i) && Dis.Printable(i) && PointerKept(c, i)
    ensures ExecCore(c, Canon(i)) == ExecCore(c, i)
  {
    CanonMacShape(i);
    hide ExecMac, Canon;
    if Canon(i).y == i.y {
      MacSameY(c, i);
    } else {
      MacSwappedY(c, i);
    }
  }

  // Special functions

  lemma SpecialResultMeaning(c: Core, i: Insn, y: Operand)
    requires i.Special? && Dis.Printable(i) && ValidOperand(y) && !ReservedG(i.g)
    requires y.MemOperand? <==> Syntax.PointerField(i.y)
    requires y.MemOperand? ==> y.preg == i.y / 8
    ensures SpecialResult(c, Canon(i), y) == SpecialResult(c, i, y)
  {
    StoreZMeaning(c, i.z, i.y, y, 4, 0);
    hide ExecIc, ExecOc, WithFlags, ExecToInt, ExecDsp, ExecSeed, AccToIeee, AdderInputOf, PostmodOnly, CanonZ,
         StoreZ, LaneInt, AccFromInt, AccRound;
  }

  lemma SpecialRegs(c: Core, i: Insn, y: Operand)
    requires i.Special? && !ReservedG(i.g) && ValidOperand(y)
    ensures SpecialResult(c, i, y).store ==> forall k :: 0 <= k < 20 ==> SpecialResult(c, i, y).c.r[k] == c.r[k]
  {
    hide DaFlags, AccFromInt, AccRound, AdderInputOf, AccToIeee, AccToInt, Pack, IntLane, CompandedEncode, Decode2x,
         LaneInt, PostmodOnly, Unpack, SeedWord, RawOf, TakeError, AccFromIeee;
    forall res: Acc, vu: bool ensures forall k :: 0 <= k < 20 ==> DaFlags(c, res, vu).0.r[k] == c.r[k] {
      DaFlagsRegs(c, res, vu);
    }
    if i.g == G_DSP {
      var iw := PackedInput(y);
      var negative, mant := iw >= 0x8000_0000, iw % 0x80_0000;
      TakeErrorRegs(SetDau(c, DauFlags(negative, false, false, !negative || mant != 0)), VEC_NAN);
    }
  }

  lemma SpecialStores(c: Core, i: Insn, y: Operand)
    requires i.Special? && !ReservedG(i.g) && ValidOperand(y)
    ensures SpecialResult(c, i, y).store <==> !StoreSuppressed(c, i)
  {
    hide DaFlags, AccFromInt, AccRound, AdderInputOf, AccToIeee, AccToInt, Pack, IntLane, CompandedEncode, Decode2x,
         LaneInt, PostmodOnly, Unpack, SeedWord, RawOf, TakeError, AccFromIeee, PackedInput, SetDau;
  }

  lemma SpecialMeaning(c: Core, i: Insn)
    requires i.Special? && Dis.Printable(i) && PointerKept(c, i)
    ensures ExecCore(c, Canon(i)) == ExecCore(c, i)
  {
    hide ReadOperand, SpecialResult, StoreZ, CanonZ, YStays;
    var j := Canon(i);
    ReadMeaning(c, i.y, YSize(i.g));
    var (c1, yo) := ReadOperand(c, i.y, YSize(i.g));
    if yo.Some? && !ReservedG(i.g) {
      var y := yo.value;
      SpecialResultMeaning(c1, i, y);
      SpecialRegs(c1, i, y);
      var out := SpecialResult(c1, i, y);
      SpecialStores(c1, i, y);
      if out.store {
        StoreZMeaning(SetAcc(out.c, i.an, out.res), i.z, i.y, y, ZSize(i.g), out.zbits);
      }
    }
  }

  // ---------------------------------------------------------------------
  // The theorem

  /** The status and the core state after the canonical form. */
  function Expected(c: Core, i: Insn): (Core, Cau.Status) {
    var (d, st) := ExecCore(c, i);
    if CarryAlias(i) && (i.AluReg? ==> CondHolds(c, i.c)) then (CarryFlipped(d), st) else (d, st)
  }

  lemma AluOk(c: Core, i: Insn)
    requires i.AluReg? || i.AluImm?
    ensures ExecCore(c, i).1 == Ok
  {
  }

  lemma CoreMeaning(c: Core, i: Insn)
    requires Encodable(i) && Dis.Printable(i) && PointerKept(c, i)
    ensures ExecCore(c, Canon(i)) == Expected(c, i)
  {
    hide ExecCau, ExecMac, ExecSpecial, CondHolds, CarryFlipped;
    match i
    case Mac(_, _, _, _, _, _, _, _) => MacMeaning(c, i);
    case Special(_, _, _, _) => SpecialMeaning(c, i);
    case AluReg(_, _, _, _, _, _) =>
      if CarryAlias(i) { SubCaseMeaning(c, i); } else { AluRegMeaning(c, i); }
      AluOk(c, i);
      hide Canon, ExecCore;
    case AluImm(_, _, _, _) =>
      AluImmMeaning(c, i);
      AluOk(c, i);
      hide Canon, ExecCore;
    case Add16(_, _, _, _) => Add16Meaning(c, i);
    case Goto24(_, _) => Goto24Meaning(c, i);
    case Call24(_, _) => Call24Meaning(c, i);
    case _ =>
  }

  /** The effect the canonical form should have: the instruction's, carry
      complemented where a subtraction became an addition. */
  function ExpectedExec(s: State, i: Insn): (State, Cau.Status) {
    var (d, st) := Exec(s, i);
    (if CarryAlias(i) && (i.AluReg? ==> CondHolds(s.c, i.c)) then d.(c := CarryFlipped(d.c)) else d, st)
  }

  /** From any machine state, the canonical form leaves the state the
      instruction leaves, carry complemented where a subtraction became an
      addition.  Shut out: `goto pcsh+0x0`, and a store through Y's own pointer
      while Y's post-modification moves it. */
  lemma CanonPreservesMeaning(s: State, i: Insn)
    requires Encodable(i) && Dis.Printable(i)
    requires !BecomesIreturn(i) && PointerKept(s.c, i)
    ensures Exec(s, Canon(i)) == ExpectedExec(s, i)
  {
    CoreMeaning(s.c, i);
    IreturnOnly(i);
    hide Canon, ExecCore, CarryAlias, CondHolds, CarryFlipped, PointerKept;
    if IsIreturn(i) {
      assert !CarryAlias(i) by { IreturnNoCarry(i); }
    }
  }

  lemma IreturnNoCarry(i: Insn)
    requires IsIreturn(i)
    ensures !CarryAlias(i)
  {
  }

  /** No other clean instruction comes back as ireturn. */
  lemma IreturnOnly(i: Insn)
    requires Dis.Printable(i) && Encodable(i) && !BecomesIreturn(i)
    ensures IsIreturn(Canon(i)) <==> IsIreturn(i)
    ensures IsIreturn(i) ==> Canon(i) == i
  {
  }

  /** One exception is real everywhere: the re-assembled `goto pcsh+0x0` is an
      ireturn, without a delay slot. */
  lemma ZeroPcshDiffers(s: State)
    ensures Exec(s, Goto24(PCSH, 0)).0 != Exec(s, Canon(Goto24(PCSH, 0))).0
  {
    assert Exec(s, Canon(Goto24(PCSH, 0))).0.c.npc == Wrap(s.c.pcsh + 4);
    assert ExecCore(s.c, Goto24(PCSH, 0)).0.npc == Wrap(s.c.pcsh + 0);
  }

  /** Both stores go through and are aligned. */
  predicate StoreWorks(c: Core, addr: word, size: Size, val: word) {
    addr % size == 0 && ReadBytes(c.mem, Computer(c), addr, size).Some? && MemWrite(c, addr, size, val).1
  }

  lemma StoreLeavesEntry(c: Core, addr: word, size: Size, val: word)
    requires StoreWorks(c, addr, size, val)
    ensures var (d, ok) := ShadowedWrite(c, addr, size, val);
            && ok && d.shadow[SlotFrom(c.shadow, 0, 0)].Live? && d.shadow[SlotFrom(c.shadow, 0, 0)].addr == addr
  {
    Frames.MemWriteFrame(c, addr, size, val);
    hide MemWrite, ReadBytes, SlotFrom, Padded;
  }

  lemma StoreZShadow(c: Core, z: Field7, y: Operand, size: Size, val: word)
    requires ValidOperand(y) && ZWrites(z, y)
    ensures var ea := if z / 8 == 15 then y.ea else c.r[z / 8];
            StoreZ(c, z, y, size, val).shadow == ShadowedWrite(c, ea, size, val).0.shadow
  {
    hide ShadowedWrite;
  }

  /** So is the other: when both stores work, the two encodings agree exactly
      if Y's pointer still holds the address Y was read from. */
  lemma StoreThroughYIff(c: Core, z: Field7, yf: Field7, y: Operand, size: Size, val: word)
    requires y.MemOperand? && SharesPointer(yf, z) && y.preg == yf / 8
    requires StoreWorks(c, y.ea, size, val) && StoreWorks(c, c.r[y.preg], size, val)
    ensures StoreZ(c, CanonZ(z, yf), y, size, val) == StoreZ(c, z, y, size, val) <==> c.r[y.preg] == y.ea
  {
    hide StoreZ, ShadowedWrite, StoreWorks, SlotFrom;
    if c.r[y.preg] == y.ea {
      StoreZMeaning(c, z, yf, y, size, val);
    } else {
      assert CanonZ(z, yf) == 120 + z % 8;
      StoreLeavesEntry(c, y.ea, size, val);
      StoreLeavesEntry(c, c.r[y.preg], size, val);
      StoreZShadow(c, CanonZ(z, yf), y, size, val);
      StoreZShadow(c, z, y, size, val);
    }
  }

  // ---------------------------------------------------------------------
  // The exact condition

  /** Aligned and mapped. */
  predicate Storable(c: Core, addr: word, size: Size) {
    addr % size == 0 && ReadBytes(c.mem, Computer(c), addr, size).Some?
  }

  /** The state in which a DA instruction reads Y. */
  function BeforeY(c: Core, i: Insn): Core
    requires i.Mac? || i.Special?
  {
    if i.Mac? then ReadOperand(c, i.x, 4).0 else c
  }

  function YWidth(i: Insn): Size
    requires i.Mac? || i.Special?
  {
    if i.Mac? then 4 else YSize(i.g)
  }

  function ZWidth(i: Insn): Size
    requires i.Mac? || i.Special?
  {
    if i.Mac? then 4 else ZSize(i.g)
  }

  /** Y can be read, and stored to where it was read and where its
      post-modification leaves the pointer. */
  predicate PointerWorks(c: Core, y: Field7, width: Size, zwidth: Size)
    requires Syntax.PointerField(y)
  {
    var (d, o) := ReadOperand(c, y, width);
    o.Some? && Storable(c, c.r[y / 8], zwidth) && Storable(d, d.r[y / 8], zwidth)
  }

  predicate AccessesWork(c: Core, i: Insn)
    requires i.Mac? || i.Special?
  {
    && (i.Mac? ==> ReadOperand(c, i.x, 4).1.Some?)
    && (Syntax.PointerField(i.y) ==> PointerWorks(BeforeY(c, i), i.y, YWidth(i), ZWidth(i)))
  }

  /** A readable range can be written, whatever its bytes have become. */
  lemma {:induction false} ReadableIsWritable(m: Memory, n: Memory, computer: bool, addr: word, bs: seq<byte>)
    requires |m.ext| == |n.ext| && ReadBytes(m, computer, addr, |bs|).Some?
    ensures WriteBytes(n, computer, addr, bs).1
    decreases |bs|
  {
    if bs != [] {
      ReadableIsWritable(m, SetByte(n, computer, addr, bs[0]), computer, Wrap(addr + 1), bs[1..]);
    }
  }

  lemma StorableWorks(c: Core, addr: word, size: Size, val: word)
    requires Storable(c, addr, size)
    ensures StoreWorks(c, addr, size, val)
  {
    ReadableIsWritable(c.mem, c.mem, Computer(c), addr, Split(val, size, BigEndian(c)));
    hide ReadBytes, WriteBytes, Split, TakeError, Bit;
  }

  /** Where Y moves the shared pointer, a multiply-accumulate and its canonical
      form leave different entries in the store shadow. */
  lemma MacFinishDiffers(c: Core, i: Insn, sum: Acc, y: Operand)
    requires i.Mac? && Encodable(i) && Dis.Printable(i) && Canon(i).Mac? && Canon(i).y == i.y
    requires y.MemOperand? && SharesPointer(i.y, i.z) && y.preg == i.y / 8 && c.r[y.preg] != y.ea
    requires Storable(c, y.ea, 4) && Storable(c, c.r[y.preg], 4)
    ensures MacFinish(c, Canon(i), sum, y) != MacFinish(c, i, sum, y)
  {
    var j := Canon(i);
    assert j.z == CanonZ(i.z, i.y) && j.an == i.an && IsTap(i) == IsTap(j);
    hide DaFlags, StoreZ, TapWord, Pack, Canon, CanonZ, StoreWorks, Storable;
    var (c3, res) := DaFlags(c, sum, true);
    DaFlagsRegs(c, sum, true);
    Frames.DaFlagsFrame(c, sum, true);
    var c4 := SetAcc(c3, i.an, res);
    var val := if IsTap(i) then TapWord(c4, y, i.y) else Pack(res);
    SameStorable(c, c4, y.ea, 4);
    SameStorable(c, c4, c.r[y.preg], 4);
    StorableWorks(c4, y.ea, 4, val);
    StorableWorks(c4, c4.r[y.preg], 4, val);
    StoreThroughYIff(c4, i.z, i.y, y, 4, val);
  }

  lemma SameStorable(c: Core, d: Core, addr: word, size: Size)
    requires c.mem == d.mem && Computer(c) == Computer(d)
    ensures Storable(c, addr, size) == Storable(d, addr, size)
  {
  }

  lemma MacDiffers(c: Core, i: Insn)
    requires i.Mac? && Encodable(i) && Dis.Printable(i) && !PointerKept(c, i) && AccessesWork(c, i)
    ensures ExecMac(c, Canon(i)) != ExecMac(c, i)
  {
    CanonMacShape(i);
    MacUnfold(c, i);
    MacUnfold(c, Canon(i));
    hide *;
    MacAccesses(c, i);
    assert Canon(i).y == i.y by { SharedNotAcc(i.y, i.z); }
    var (c1, xo) := ReadOperand(c, i.x, 4);
    DiffersFromY(c1, i, xo.value);
  }

  lemma SharedNotAcc(y: Field7, z: Field7)
    requires SharesPointer(y, z)
    ensures y / 8 != 0 && Syntax.PointerField(y)
  {
  }

  /** What the premises say where Y is read. */
  lemma MacAccesses(c: Core, i: Insn)
    requires i.Mac? && Encodable(i) && Dis.Printable(i) && !PointerKept(c, i) && AccessesWork(c, i)
    ensures ReadOperand(c, i.x, 4).1.Some? && SharesPointer(i.y, i.z)
    ensures var c1 := ReadOperand(c, i.x, 4).0; !YStays(c1, i.y) && PointerWorks(c1, i.y, 4, 4)
  {
    XReads(i);
    hide ReadOperand, YStays, PointerWorks, Dis.Printable, Encodable;
    ReadMeaning(c, i.x, 4);
    YStaysAfter(c, ReadOperand(c, i.x, 4).0, i.y);
  }

  lemma XReads(i: Insn)
    requires i.Mac? && Encodable(i) && Dis.Printable(i)
    ensures Syntax.OperandField(i.x)
  {
  }

  lemma DiffersFromY(c: Core, i: Insn, x: Operand)
    requires i.Mac? && Encodable(i) && Dis.Printable(i) && Canon(i).Mac? && Canon(i).y == i.y
    requires SharesPointer(i.y, i.z) && !YStays(c, i.y) && PointerWorks(c, i.y, 4, 4)
    ensures MacFromY(c, Canon(i), x) != MacFromY(c, i, x)
  {
    hide MacSum, MacFinish, ReadOperand, Pack, YStays, Canon, Storable, Dis.Printable, Encodable;
    ReadMeaning(c, i.y, 4);
    Frames.ReadOperandFrame(c, i.y, 4);
    var (d, y) := ReadOperand(c, i.y, 4);
    SameStorable(c, d, c.r[i.y / 8], 4);
    MacSumMeaning(d, i, x, y.value, y.value);
    MacFinishDiffers(d, i, MacSum(d, i, x, y.value), y.value);
  }

  lemma SpecialDiffers(c: Core, i: Insn)
    requires i.Special? && Dis.Printable(i) && !PointerKept(c, i) && AccessesWork(c, i)
    ensures ExecSpecial(c, Canon(i)) != ExecSpecial(c, i)
  {
    hide ReadOperand, SpecialResult, StoreZ, CanonZ, YStays, Storable, StoreWorks;
    ReadMeaning(c, i.y, YSize(i.g));
    Frames.ReadOperandFrame(c, i.y, YSize(i.g));
    var (c1, yo) := ReadOperand(c, i.y, YSize(i.g));
    var y := yo.value;
    SpecialResultMeaning(c1, i, y);
    SpecialRegs(c1, i, y);
    SpecialStores(c1, i, y);
    DaFrames.SpecialResultKeeps(c1, i, y);
    var out := SpecialResult(c1, i, y);
    var c2 := SetAcc(out.c, i.an, out.res);
    var size := ZSize(i.g);
    SameStorable(c, c2, y.ea, size);
    SameStorable(c1, c2, c1.r[i.y / 8], size);
    StorableWorks(c2, y.ea, size, out.zbits);
    StorableWorks(c2, c2.r[y.preg], size, out.zbits);
    StoreThroughYIff(c2, i.z, i.y, y, size, out.zbits);
  }

  /** Exactly when the canonical form does what it should: the instruction is not
      `goto pcsh+0x0`, and if it stores through Y's own pointer, Y leaves that
      pointer alone or the store is suppressed.  (A shared pointer shows only if
      the accesses work; otherwise both forms may fault alike.) */
  lemma MeaningKeptIff(s: State, i: Insn)
    requires Encodable(i) && Dis.Printable(i)
    requires (i.Mac? || i.Special?) && SharesPointer(i.y, i.z) ==> AccessesWork(s.c, i)
    ensures Exec(s, Canon(i)) == ExpectedExec(s, i) <==> !BecomesIreturn(i) && PointerKept(s.c, i)
  {
    if BecomesIreturn(i) {
      ZeroPcshDiffers(s);
      hide Exec, Canon;
    } else if PointerKept(s.c, i) {
      hide *;
      CanonPreservesMeaning(s, i);
    } else {
      assert i.Mac? || i.Special?;
      hide *;
      CoreDiffers(s.c, i);
      DaExec(s, i);
    }
  }

  lemma CoreDiffers(c: Core, i: Insn)
    requires Encodable(i) && Dis.Printable(i) && (i.Mac? || i.Special?)
    requires !PointerKept(c, i) && AccessesWork(c, i)
    ensures ExecCore(c, Canon(i)).0 != ExecCore(c, i).0
  {
    DaStaysDa(i);
    DaCore(c, i);
    DaCore(c, Canon(i));
    hide *;
    if i.Mac? { MacDiffers(c, i); } else { SpecialDiffers(c, i); }
  }

  lemma DaCore(c: Core, i: Insn)
    requires i.Mac? || i.Special?
    ensures ExecCore(c, i).0 == if i.Mac? then ExecMac(c, i) else ExecSpecial(c, i)
  {
    hide ExecMac, ExecSpecial;
  }

  lemma DaStaysDa(i: Insn)
    requires i.Mac? || i.Special?
    ensures if i.Mac? then Canon(i).Mac? else Canon(i).Special?
  {
  }

  lemma DaExec(s: State, i: Insn)
    requires i.Mac? || i.Special?
    ensures ExpectedExec(s, i).0.c == ExecCore(s.c, i).0 && Exec(s, Canon(i)).0.c == ExecCore(s.c, Canon(i)).0
  {
    DaStaysDa(i);
    hide ExecCore, Canon;
  }
}
