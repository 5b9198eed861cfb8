/** What a DA instruction leaves alone, and the one store it may make. */
module DaFrames {
  import opened Words
  import opened Dau
  import opened Insn
  import opened Core
  import opened Cau
  import opened DauExec
  import opened Frames

  /** Both pipes, the control registers and the CAU flags; only accumulators,
      DAU flags, pointers, memory, shadow and the exception state may move. */
  predicate DaKeeps(c: Core, d: Core) {
    && c.pipe == d.pipe && c.flagPipe == d.flagPipe && c.curInsn == d.curInsn
    && c.ps.cau == d.ps.cau && c.ps.io == d.ps.io && c.emr == d.emr && c.dauc == d.dauc
    && c.pending == d.pending && c.pcsh == d.pcsh && c.intDefer == d.intDefer && SameMap(c, d)
  }

  predicate SameStore(c: Core, d: Core) {
    c.mem == d.mem && c.shadow == d.shadow
  }

  /** d is c after one DA store, or has c's memory and shadow. */
  ghost predicate AtMostOneStore(c: Core, d: Core) {
    || SameStore(c, d)
    || exists b: Core, addr: word, size: Size, val: word ::
         SameStore(c, b) && SameMap(c, b) && SameStore(ShadowedWrite(b, addr, size, val).0, d)
  }

  lemma StoreZOne(c: Core, z: Field7, y: Operand, size: Size, val: word)
    requires ValidOperand(y)
    ensures AtMostOneStore(c, StoreZ(c, z, y, size, val))
  {
    hide ShadowedWrite, Bit;
    if ZWrites(z, y) {
      var ea := if z / 8 == 15 then y.ea else c.r[z / 8];
      var (c1, ok) := ShadowedWrite(c, ea, size, val);
      if ok { } else { }
      assert SameStore(c1, StoreZ(c, z, y, size, val));
    }
  }

  lemma ExecMacKeeps(c: Core, i: Insn)
    requires i.Mac?
    ensures DaKeeps(c, ExecMac(c, i)) && AtMostOneStore(c, ExecMac(c, i))
  {
    hide MacSum, DaFlags, StoreZ, ReadOperand, TapWord, Pack, Bit, AtMostOneStore, ShadowedWrite;
    ReadOperandFrame(c, i.x, 4);
    var (c1, xo) := ReadOperand(c, i.x, 4);
    if xo.None? {
      SameIsAtMostOne(c, c, c1);
    } else {
      ReadOperandFrame(c1, i.y, 4);
      var (c2, yo) := ReadOperand(c1, i.y, 4);
      if yo.None? {
        SameIsAtMostOne(c, c, c2);
      } else {
        var x, y := xo.value, yo.value;
        DaFlagsFrame(c2, MacSum(c2, i, x, y), true);
        var (c3, res) := DaFlags(c2, MacSum(c2, i, x, y), true);
        var c4 := SetAcc(c3, i.an, res);
        var val := if IsTap(i) then TapWord(c4, y, i.y) else Pack(res);
        StoreZFrame(c4, i.z, y, 4, val);
        StoreZOne(c4, i.z, y, 4, val);
        SameIsAtMostOne(c, c4, StoreZ(c4, i.z, y, 4, val));
      }
    }
  }

  lemma SameIsAtMostOne(c: Core, b: Core, d: Core)
    requires SameStore(c, b) && SameMap(c, b)
    requires SameStore(b, d) || AtMostOneStore(b, d)
    ensures AtMostOneStore(c, d)
  {
    hide ShadowedWrite, Bit;
    if !SameStore(b, d) {
      var b', addr, size, val :|
        SameStore(b, b') && SameMap(b, b') && SameStore(ShadowedWrite(b', addr, size, val).0, d);
      assert SameStore(c, b') && SameMap(c, b');
    }
  }

  lemma WithFlagsKeeps(c: Core, res: Acc, affectVU: bool)
    ensures DaKeeps(c, WithFlags(c, res, affectVU).c) && SameStore(c, WithFlags(c, res, affectVU).c)
  {
    hide Bit, DaFlags, Pack;
    DaFlagsFrame(c, res, affectVU);
  }

  lemma ExecDspKeeps(c: Core, y: Operand)
    ensures DaKeeps(c, ExecDsp(c, y).c) && SameStore(c, ExecDsp(c, y).c)
  {
    hide Bit, TakeError, Pack, AccFromIeee, Unpack, WithFlags;
    var iw := PackedInput(y);
    WithFlagsKeeps(c, AccFromIeee(iw), true);
    var negative, mant := iw >= 0x8000_0000, iw % 0x80_0000;
    TakeErrorFrame(SetDau(c, DauFlags(negative, false, false, !negative || mant != 0)), VEC_NAN);
    var exp := iw / 0x80_0000 % 0x100;
    if exp == 255 { if mant != 0 { } else { } } else if exp == 0 { } else { }
  }

  lemma PostmodOnlyKeeps(c: Core, z: Field7, y: Operand, size: Size)
    requires ValidOperand(y)
    ensures DaKeeps(c, PostmodOnly(c, z, y, size)) && SameStore(c, PostmodOnly(c, z, y, size))
  {
    hide Bit, Postmod;
    if ZWrites(z, y) {
      PostmodOnlyR(c, if z / 8 == 15 then y.preg else z / 8, z % 8, size);
      if z / 8 == 15 { } else { }
    }
  }

  lemma SpecialResultKeeps(c: Core, i: Insn, y: Operand)
    requires i.Special? && !ReservedG(i.g) && ValidOperand(y)
    ensures DaKeeps(c, SpecialResult(c, i, y).c) && SameStore(c, SpecialResult(c, i, y).c)
  {
    hide Bit, WithFlags, AccFromInt, AccRound, AdderInputOf, AccToIeee, AccToInt, Pack,
         IntLane, CompandedEncode, Decode2x, LaneInt, ExecDsp, PostmodOnly, Unpack, SeedWord, RawOf;
    var g := i.g;
    if g == G_IC {
      var code := LaneInt(y, 24) % 0x100;
      WithFlagsKeeps(c, AccFromInt(code), false);
      var twice := AccFromInt(Decode2x(code, c.dauc % 2 == 1));
      WithFlagsKeeps(c, if twice.e != 0 then twice.(e := twice.e - 1) else twice, false);
    }
    else if g == G_OC { }
    else if g == G_FLOAT16 { WithFlagsKeeps(c, AccFromInt(Signed16(LaneInt(y, 16))), false); }
    else if g == G_FLOAT32 { WithFlagsKeeps(c, AccFromInt(Signed32(Wrap(LaneInt(y, 0)))), false); }
    else if g == G_INT16 { }
    else if g == G_INT32 { }
    else if g == G_ROUND { WithFlagsKeeps(c, AccRound(AdderInputOf(y)), true); }
    else if g == G_IFALT || g == G_IFAEQ || g == G_IFAGT { PostmodOnlyKeeps(c, i.z, y, 4); }
    else if g == G_IEEE { }
    else if g == G_DSP { ExecDspKeeps(c, y); }
    else { WithFlagsKeeps(c, Unpack(SeedWord(PackedInput(y))), false); }
  }

  lemma ExecSpecialKeeps(c: Core, i: Insn)
    requires i.Special?
    ensures DaKeeps(c, ExecSpecial(c, i)) && AtMostOneStore(c, ExecSpecial(c, i))
  {
    hide SpecialResult, StoreZ, ReadOperand, Bit, AtMostOneStore, ShadowedWrite;
    ReadOperandFrame(c, i.y, YSize(i.g));
    var (c1, yo) := ReadOperand(c, i.y, YSize(i.g));
    if yo.None? || ReservedG(i.g) {
      SameIsAtMostOne(c, c, c1);
    } else {
      SpecialResultKeeps(c1, i, yo.value);
      var out := SpecialResult(c1, i, yo.value);
      var c2 := SetAcc(out.c, i.an, out.res);
      if out.store {
        StoreZFrame(c2, i.z, yo.value, ZSize(i.g), out.zbits);
        StoreZOne(c2, i.z, yo.value, ZSize(i.g), out.zbits);
        SameIsAtMostOne(c, c2, StoreZ(c2, i.z, yo.value, ZSize(i.g), out.zbits));
      } else {
        SameIsAtMostOne(c, c, c2);
      }
    }
  }
}
