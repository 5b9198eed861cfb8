/** On every run, every accumulator the machine holds is in normal form. */
module RunNormal {
  import opened Words
  import opened Dau
  import opened DauNormal
  import opened DauArith
  import opened DauConvert
  import opened Insn
  import opened Core
  import opened Cau
  import opened DauExec
  import opened Machine
  import opened Frames

  predicate FileNormal(a: AccFile) {
    NormalForm(a[0]) && NormalForm(a[1]) && NormalForm(a[2]) && NormalForm(a[3])
  }

  predicate PipeNormal(p: AccPipe) {
    FileNormal(p[0]) && FileNormal(p[1]) && FileNormal(p[2])
  }

  predicate CoreNormal(c: Core) {
    FileNormal(c.acc) && PipeNormal(c.pipe)
  }

  predicate AllNormal(s: State) {
    CoreNormal(s.c) && FileNormal(s.h.saved.acc) && PipeNormal(s.h.saved.pipe)
  }

  // ---------------------------------------------------------------------
  // Results

  /** A result that may still be out of range. */
  predicate Unchecked(a: Acc) {
    a.e == 0 || NormalAt(a.m, SC_ACC)
  }

  /** The range check turns any normalised result into normal form; a result
      whose exponent is exactly 0 passes unexamined and reads as zero. */
  lemma RangeCheckedNormal(res: Acc, affectVU: bool)
    requires Unchecked(res) && (!affectVU ==> 0 <= res.e <= 255)
    ensures NormalForm(RangeChecked(res, affectVU).0)
    ensures affectVU && 1 <= res.e <= 255 ==> RangeChecked(res, affectVU).0 == res
    ensures res.e == 0 ==> !RangeChecked(res, affectVU).1.u && RangeChecked(res, affectVU).0 == res
  {
    Pow2Constants();
  }

  lemma DauAddUnchecked(s: Acc, pm: int, pe: int)
    requires AdderInput(s)
    ensures Unchecked(DauAdd(s, pm, pe))
  {
    if AdderMantissa(s) != 0 || pm != 0 {
      SecondNormIsIdle(s, pm, pe);
    }
  }

  predicate OperandNormal(o: Operand) {
    o.AccOperand? ==> NormalForm(o.live)
  }

  lemma AdderInputNormal(o: Operand)
    requires OperandNormal(o)
    ensures NormalForm(AdderInputOf(o))
  {
    if o.MemOperand? { UnpackIsNormal(o.raw); }
  }

  lemma ZeroNormal()
    ensures NormalForm(ZERO_ACC)
  {
  }

  lemma NormalIsAdderInput(a: Acc)
    requires NormalForm(a)
    ensures AdderInput(a)
  {
  }

  lemma MacAdderNormal(c: Core, i: Insn, y: Operand)
    requires CoreNormal(c) && i.Mac? && OperandNormal(y)
    ensures NormalForm(MacAdder(c, i, y))
  {
    hide NormalForm, AdderInputOf, Unpack;
    AdderInputNormal(y);
    UnpackIsNormal(ONE_WORD);
    UnpackIsNormal(0);
    assert NormalForm(ZERO_ACC) by { ZeroNormal(); }
  }

  lemma MacSumUnchecked(c: Core, i: Insn, x: Operand, y: Operand)
    requires CoreNormal(c) && i.Mac? && OperandNormal(y)
    ensures Unchecked(MacSum(c, i, x, y))
  {
    hide NormalForm, AdderInputOf, Unpack, MacProduct, AccNegate, Unchecked, DauAdd, MacAdder;
    var adder := MacAdder(c, i, y);
    MacAdderNormal(c, i, y);
    AccNegateExact(adder);
    NormalIsAdderInput(adder);
    var (pm, pe) := MacProduct(c, i, x, y);
    DauAddUnchecked(if i.fs then AccNegate(adder) else adder, if i.ss then -pm else pm, pe);
  }

  lemma DaFlagsNormal(c: Core, res: Acc, affectVU: bool)
    requires CoreNormal(c) && Unchecked(res) && (!affectVU ==> 0 <= res.e <= 255)
    ensures CoreNormal(DaFlags(c, res, affectVU).0) && NormalForm(DaFlags(c, res, affectVU).1)
  {
    DaFlagsFrame(c, res, affectVU);
    RangeCheckedNormal(res, affectVU);
  }

  lemma ReadOperandNormal(c: Core, f: Field7, size: Size)
    requires CoreNormal(c)
    ensures var (d, o) := ReadOperand(c, f, size);
            CoreNormal(d) && (o.Some? ==> OperandNormal(o.value))
  {
    hide NormalForm, MemRead, Postmod, Pack;
    ReadOperandFrame(c, f, size);
  }

  lemma FinishNormal(c: Core, an: U2, res: Acc, z: Field7, y: Operand, size: Size, val: word)
    requires CoreNormal(c) && NormalForm(res) && ValidOperand(y)
    ensures CoreNormal(SetAcc(c, an, res)) && CoreNormal(StoreZ(SetAcc(c, an, res), z, y, size, val))
  {
    StoreZFrame(SetAcc(c, an, res), z, y, size, val);
  }

  lemma ExecMacNormal(c: Core, i: Insn)
    requires i.Mac? && CoreNormal(c)
    ensures CoreNormal(ExecMac(c, i))
  {
    hide NormalForm, MacSum, DaFlags, StoreZ, ReadOperand, TapWord, Pack, SetAcc, CoreNormal;
    ReadOperandNormal(c, i.x, 4);
    var (c1, xo) := ReadOperand(c, i.x, 4);
    if xo.Some? {
      ReadOperandNormal(c1, i.y, 4);
      var (c2, yo) := ReadOperand(c1, i.y, 4);
      if yo.Some? {
        var x, y := xo.value, yo.value;
        MacSumUnchecked(c2, i, x, y);
        DaFlagsNormal(c2, MacSum(c2, i, x, y), true);
        var (c3, res) := DaFlags(c2, MacSum(c2, i, x, y), true);
        FinishNormal(c3, i.an, res, i.z, y, 4,
                     if IsTap(i) then TapWord(SetAcc(c3, i.an, res), y, i.y) else Pack(res));
      }
    }
  }

  // ---------------------------------------------------------------------
  // Special functions

  predicate OutNormal(o: SpecialOut) {
    CoreNormal(o.c) && NormalForm(o.res)
  }

  lemma FromIntNormal(c: Core, v: int)
    requires CoreNormal(c) && -0x1_0000_0000 <= v < 0x1_0000_0000
    ensures OutNormal(WithFlags(c, AccFromInt(v), false))
  {
    AccFromIntExact(v);
    DaFlagsNormal(c, AccFromInt(v), false);
  }

  lemma DecodeBound(b: byte, alaw: bool)
    ensures -0x1_0000 <= Decode2x(b, alaw) <= 0x1_0000
  {
    hide Segment2x, AlawFlip;
    if alaw {
      var u := AlawFlip(b);
      CodeMagnitude(u % 16, u / 16 % 8);
      assert -0x1_0000 <= AlawDecode2x(b) <= 0x1_0000;
    } else {
      CodeMagnitude((0xFF - b) % 16, (0xFF - b) / 16 % 8);
    }
  }

  lemma CodeMagnitude(m: nat, n: nat)
    requires m < 16 && n < 8
    ensures 0 <= Segment2x(m, n) <= 63 * 128
  {
    Pow2Monotonic(n, 7);
    assert Pow2(7) == 128;
    MulLe(33 + 2 * m, 63, Pow2(n), 128);
  }

  lemma ExecIcNormal(c: Core, y: Operand)
    requires CoreNormal(c)
    ensures OutNormal(ExecIc(c, y))
  {
    var code := LaneInt(y, 24) % 0x100;
    if c.dauc / 4 % 2 == 1 {
      FromIntNormal(c, code);
    } else {
      var v := Decode2x(code, c.dauc % 2 == 1);
      DecodeBound(code, c.dauc % 2 == 1);
      AccFromIntExact(v);
      if v != 0 { IntNormShift(v); }
      var twice := AccFromInt(v);
      DaFlagsNormal(c, if twice.e != 0 then twice.(e := twice.e - 1) else twice, false);
    }
  }

  lemma LaneNormal(y: Operand, v: int)
    requires OperandNormal(y) && -0x8000_0000 <= v <= 0x7FFF_FFFF
    ensures NormalForm(IntLane(v, AdderInputOf(y)))
  {
    AdderInputNormal(y);
    IntLaneReadsBack(v, AdderInputOf(y));
  }

  lemma PostmodOnlyNormal(c: Core, z: Field7, y: Operand, size: Size)
    requires CoreNormal(c) && ValidOperand(y)
    ensures CoreNormal(PostmodOnly(c, z, y, size))
  {
    hide NormalForm;
    if ZWrites(z, y) { if z / 8 == 15 { } else { } }
  }

  lemma ExecDspNormal(c: Core, y: Operand)
    requires CoreNormal(c)
    ensures OutNormal(ExecDsp(c, y))
  {
    hide AccFromIeee, TakeError, DaFlags, Unpack, NormalForm, Pack;
    var iw := PackedInput(y);
    var negative, exp, mant := iw >= 0x8000_0000, iw / 0x80_0000 % 0x100, iw % 0x80_0000;
    UnpackIsNormal(0x8000_00FF);
    UnpackIsNormal(0x7FFF_FFFF);
    ZeroNormal();
    if exp == 255 {
      TakeErrorFrame(SetDau(c, DauFlags(negative, false, false, !negative || mant != 0)), VEC_NAN);
    } else if exp == 0 {
    } else {
      AccFromIeeeShape(iw);
      NormalIsAdderInput(AccFromIeee(iw));
      DaFlagsNormal(c, AccFromIeee(iw), true);
    }
  }

  lemma ExecSeedNormal(c: Core, y: Operand)
    requires CoreNormal(c)
    ensures OutNormal(ExecSeed(c, y))
  {
    var sb := SeedWord(PackedInput(y));
    UnpackIsNormal(sb);
    DaFlagsNormal(c, Unpack(sb), false);
    hide DaFlags, Unpack;
  }

  lemma SpecialResultNormal(c: Core, i: Insn, y: Operand)
    requires i.Special? && !ReservedG(i.g) && CoreNormal(c) && OperandNormal(y) && ValidOperand(y)
    ensures OutNormal(SpecialResult(c, i, y))
  {
    var a := AdderInputOf(y);
    AdderInputNormal(y);
    hide NormalForm, ExecIc, ExecOc, ExecToInt, ExecDsp, ExecSeed, ExecIfa, AccRound, AdderInputOf, AccToIeee;
    var g := i.g;
    if g == G_IC { ExecIcNormal(c, y); }
    else if g == G_OC { ExecOcNormal(c, y); }
    else if g == G_FLOAT16 { FromIntNormal(c, Signed16(LaneInt(y, 16))); }
    else if g == G_FLOAT32 { FromIntNormal(c, Signed32(Wrap(LaneInt(y, 0)))); }
    else if g == G_INT16 { ExecToIntNormal(c, y, 16); }
    else if g == G_INT32 { ExecToIntNormal(c, y, 32); }
    else if g == G_ROUND { RoundNormal(c, a); }
    else if g == G_IFALT || g == G_IFAEQ || g == G_IFAGT { ExecIfaNormal(c, i, y); }
    else if g == G_IEEE { }
    else if g == G_DSP { ExecDspNormal(c, y); }
    else { ExecSeedNormal(c, y); }
  }

  lemma ExecOcNormal(c: Core, y: Operand)
    requires CoreNormal(c) && OperandNormal(y)
    ensures OutNormal(ExecOc(c, y))
  {
    var a := AdderInputOf(y);
    var code := if c.dauc / 8 % 2 == 1 then AccToInt(a, c.dauc, 8) % 0x100
                else CompandedEncode(a, c.dauc / 2 % 2 == 1);
    hide AccToInt, CompandedEncode, AdderInputOf, IntLane;
    LaneNormal(y, Signed32(code * 0x100_0000));
  }

  lemma ExecToIntNormal(c: Core, y: Operand, bits: nat)
    requires CoreNormal(c) && OperandNormal(y)
    ensures OutNormal(ExecToInt(c, y, bits))
  {
    var iv := AccToInt(AdderInputOf(y), c.dauc, bits);
    hide AccToInt, AdderInputOf, IntLane;
    LaneNormal(y, Signed32(Wrap(iv * 0x1_0000)));
    LaneNormal(y, Signed32(Wrap(iv)));
  }

  lemma RoundNormal(c: Core, a: Acc)
    requires CoreNormal(c) && NormalForm(a)
    ensures OutNormal(WithFlags(c, AccRound(a), true))
  {
    if a.e != 0 { AccRoundNearest(a); }
    hide AccRound;
    DaFlagsNormal(c, AccRound(a), true);
  }

  lemma ExecIfaNormal(c: Core, i: Insn, y: Operand)
    requires i.Special? && CoreNormal(c) && OperandNormal(y) && ValidOperand(y)
    ensures OutNormal(ExecIfa(c, i.g, i.an, i.z, y))
  {
    AdderInputNormal(y);
    PostmodOnlyNormal(c, i.z, y, 4);
    hide NormalForm, AdderInputOf, PostmodOnly;
  }

  lemma ExecSpecialNormal(c: Core, i: Insn)
    requires i.Special? && CoreNormal(c)
    ensures CoreNormal(ExecSpecial(c, i))
  {
    hide NormalForm, SpecialResult, StoreZ, ReadOperand, SetAcc, CoreNormal;
    ReadOperandNormal(c, i.y, YSize(i.g));
    var (c1, yo) := ReadOperand(c, i.y, YSize(i.g));
    if yo.Some? && !ReservedG(i.g) {
      SpecialResultNormal(c1, i, yo.value);
      var out := SpecialResult(c1, i, yo.value);
      FinishNormal(out.c, i.an, out.res, i.z, yo.value, ZSize(i.g), out.zbits);
    }
  }

  // ---------------------------------------------------------------------
  // Runs

  lemma ExecNormal(s: State, i: Insn)
    requires AllNormal(s)
    ensures AllNormal(Exec(s, i).0)
  {
    hide NormalForm, ExecMac, ExecSpecial, ExecCau;
    if IsIreturn(i) {
    } else if i.Mac? {
      ExecMacNormal(s.c, i);
    } else if i.Special? {
      ExecSpecialNormal(s.c, i);
    } else {
      ExecCauFrame(s.c, i);
    }
  }

  lemma LoopBackFrame(c: Core, addr: word)
    ensures SameData(c, LoopBack(c, addr))
  {
    hide Bit;
    if c.loop.active && addr == c.loop.last {
      if Wrap(c.loop.count - 1) == 0 { } else { }
    }
  }

  lemma RecogniseNormal(s: State)
    requires AllNormal(s)
    ensures AllNormal(Recognise(s))
  {
    hide NormalForm, PendingVector, Interruptible, ShadowedInstruction, FileNormal, PipeNormal;
    if Interruptible(s) && PendingVector(s.c) != 0 { } else { }
  }

  lemma TickNormal(c: Core)
    requires CoreNormal(c)
    ensures CoreNormal(LatencyTick(c))
  {
    hide NormalForm;
  }

  lemma ExecuteSlotNormal(s: State)
    requires AllNormal(s)
    ensures var n := ExecuteSlot(s); !n.Halted? && AllNormal(n.s)
  {
    hide NormalForm, MemRead, RawRead, Decode, FileNormal, PipeNormal, LatencyTick;
    if s.h.irshPending {
      TickNormal(s.c.(curInsn := s.h.irshAddr));
    } else {
      MemReadFrame(s.c.(curInsn := s.c.pc), s.c.pc, 4, true);
      var (c1, w) := MemRead(s.c.(curInsn := s.c.pc), s.c.pc, 4, true);
      if w.Some? { FetchedNormal(s.(c := c1)); }
    }
  }

  lemma FetchedNormal(s: State)
    requires AllNormal(s)
    ensures AllNormal(Fetched(s))
  {
    hide NormalForm, RawRead, LatencyTick, FileNormal, PipeNormal;
    TickNormal(s.c.(pc := s.c.npc, npc := Wrap(s.c.npc + 4)));
    var c := LatencyTick(s.c.(pc := s.c.npc, npc := Wrap(s.c.npc + 4)));
    if RawRead(c, c.pc, 4).Some? { } else { }
  }

  lemma SlotNormal(s: State)
    requires AllNormal(s)
    ensures var n := NextSlot(s); !n.Halted? ==> AllNormal(n.s)
  {
    hide NormalForm, PendingVector, FileNormal, PipeNormal, LatencyTick, Recognise, ExecuteSlot;
    if s.c.level != DoubleError {
      var c := PinTick(s.c);
      assert AllNormal(s.(c := c));
      if c.waiting && PendingVector(c) == 0 {
        TickNormal(c);
      } else {
        var c1 := if c.waiting then c.(waiting := false, intDefer := true) else c;
        RecogniseNormal(s.(c := c1));
        ExecuteSlotNormal(Recognise(s.(c := c1)));
      }
    }
  }

  lemma StepNormal(s: State)
    requires AllNormal(s)
    ensures AllNormal(Step(s).0)
  {
    hide NormalForm, NextSlot, Exec, LoopBack, AllNormal;
    SlotNormal(s);
    match NextSlot(s)
    case Runs(s1, i, addr) =>
      ExecNormal(s1, i);
      LoopBackNormal(Exec(s1, i).0, addr);
    case _ =>
  }

  lemma LoopBackNormal(s: State, addr: word)
    requires AllNormal(s)
    ensures AllNormal(s.(c := LoopBack(s.c, addr)))
  {
    hide NormalForm, LoopBack;
    LoopBackFrame(s.c, addr);
  }

  /** Whatever the program, the memory and the interrupts. */
  lemma {:induction false} RunNormal(s: State, reqs: seq<set<int>>)
    requires AllNormal(s)
    ensures AllNormal(Run(s, reqs))
  {
    if reqs != [] {
      var k := |reqs| - 1;
      RunNormal(s, reqs[..k]);
      var s1 := Request(Run(s, reqs[..k]), reqs[k]);
      assert AllNormal(s1) by { hide NormalForm; }
      hide AllNormal, Step;
      StepNormal(s1);
    }
  }

  /** From reset on, whatever the program and the requests: every accumulator
      and every copy of one is zero or normal. */
  lemma NormalFromReset(ext: ExtBytes, reqs: seq<set<int>>)
    ensures AllNormal(Run(Reset(ext), reqs))
  {
    ZeroNormal();
    RunNormal(Reset(ext), reqs);
    hide Run;
  }
}
