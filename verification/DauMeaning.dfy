/** What data-arithmetic instructions mean: their operands, the accumulator and
    the word they leave, and the numbers the special functions compute. */
module DauMeaning {
  import opened Words
  import opened Dau
  import opened DauArith
  import opened DauConvert
  import opened Insn
  import opened Core
  import opened DauExec
  import opened Machine
  import opened RunNormal
  import Frames
  import DaFrames
  import Stores
  import MacBounds
  import CanonMeaning

  // ---------------------------------------------------------------------
  // Operands

  /** How a pointer moves: not at all, by r15 to r19, or by the size down or up. */
  function Step(c: Core, i: U3, size: Size): int {
    if i == 0 then 0 else if i <= 5 then c.r[14 + i] else if i == 6 then 0 - size as int else size as int
  }

  predicate PointerMoves(c: Core, d: Core, p: Pointer, i: U3, size: Size) {
    d == c.(r := c.r[p := (c.r[p] + Step(c, i, size)) % 0x1_0000_0000])
  }

  lemma PostmodMoves(c: Core, p: Pointer, i: U3, size: Size)
    ensures PointerMoves(c, Postmod(c, p, i, size), p, i, size)
  {
    if i == 0 {
      assert c.r[p := c.r[p]] == c.r;
      assert (c.r[p] + 0) % 0x1_0000_0000 == c.r[p];
    }
  }

  /** An operand field: p = 1 to 14 reads memory at rP and moves rP; the others are
      accumulators, live for the adder, three instructions old and without guard
      bits for the multiplier. */
  lemma OperandMeans(c: Core, f: Field7, size: Size)
    ensures var (d, o) := ReadOperand(c, f, size);
            if 8 <= f < 120 then
              var (c1, raw) := MemRead(c, c.r[f / 8], size, false);
              if raw.None? then o.None? && d == c1
              else o == Some(MemOperand(raw.value, c.r[f / 8], f / 8)) && PointerMoves(c1, d, f / 8, f % 8, size)
            else d == c && o == Some(AccOperand(c.acc[f % 4], Pack(c.pipe[2][f % 4])))
  {
    var p := f / 8;
    if 1 <= p <= 14 {
      var (c1, raw) := MemRead(c, c.r[p], size, false);
      PostmodMoves(c1, p, f % 8, size);
      hide MemRead, Postmod, PointerMoves;
    } else {
      assert f % 8 % 4 == f % 4;
      hide Pack;
    }
  }

  // ---------------------------------------------------------------------
  // Accumulator and store

  /** Where Z stores: at its own pointer, or at Y's address for p = 15. */
  function StoreAddress(c: Core, z: Field7, y: Operand): Option<word>
    requires ValidOperand(y)
  {
    if 8 <= z < 120 then Some(c.r[z / 8])
    else if z >= 120 && y.MemOperand? then Some(y.ea)
    else None
  }

  /** d is c with w stored for Z where that is possible, and no other byte changed. */
  predicate StoredAt(c: Core, d: Core, address: Option<word>, size: Size, w: word) {
    match address
    case None => d.mem == c.mem
    case Some(a) =>
      CanonMeaning.Storable(c, a, size) ==>
        && RawRead(d, a, size) == Some(w % Stores.Capacity(size))
        && (forall x: word :: Stores.Outside(a, size, x) ==>
              ByteAt(d.mem, Bit(c.pcw, 10), x) == ByteAt(c.mem, Bit(c.pcw, 10), x))
  }

  lemma StoreZStores(c: Core, z: Field7, y: Operand, size: Size, w: word)
    requires ValidOperand(y)
    ensures StoredAt(c, StoreZ(c, z, y, size, w), StoreAddress(c, z, y), size, w)
    ensures StoreZ(c, z, y, size, w).acc == c.acc
  {
    Frames.StoreZFrame(c, z, y, size, w);
    if StoreAddress(c, z, y).Some? {
      var a := StoreAddress(c, z, y).value;
      ShadowedStores(c, a, size, w);
      StoreZMemory(c, z, y, size, w);
      var d, e := StoreZ(c, z, y, size, w), ShadowedWrite(c, a, size, w).0;
      hide *;
      SameRead(d, e, a, size);
    }
  }

  lemma SameRead(d: Core, e: Core, a: word, size: Size)
    ensures d.mem == e.mem && d.pcw == e.pcw ==> RawRead(d, a, size) == RawRead(e, a, size)
  {
    hide ReadBytes, JoinWord, Bit;
  }

  lemma StoreZMemory(c: Core, z: Field7, y: Operand, size: Size, w: word)
    requires ValidOperand(y) && StoreAddress(c, z, y).Some?
    ensures var d, e := StoreZ(c, z, y, size, w), ShadowedWrite(c, StoreAddress(c, z, y).value, size, w).0;
            d.mem == e.mem && d.pcw == e.pcw
  {
    hide ShadowedWrite;
  }

  lemma ShadowedStores(c: Core, a: word, size: Size, w: word)
    ensures StoredAt(c, ShadowedWrite(c, a, size, w).0, Some(a), size, w)
  {
    if CanonMeaning.Storable(c, a, size) {
      CanonMeaning.StorableWorks(c, a, size, w);
      Stores.StoreThenLoad(c, a, size, w);
      var d, e := MemWrite(c, a, size, w).0, ShadowedWrite(c, a, size, w).0;
      assert d.mem == e.mem && d.pcw == e.pcw by { hide MemWrite, ReadBytes, SlotFrom, Padded; }
      assert a - a % size == a;
      hide *;
      SameRead(d, e, a, size);
    }
  }

  /** Range check and flags: the flags of the result, their history, and nothing
      else but the exception. */
  lemma ResultDelivered(c: Core, res: Acc, affectVU: bool, an: U2, z: Field7, y: Operand, size: Size, w: word)
    requires ValidOperand(y)
    ensures var (c1, r) := DaFlags(c, res, affectVU);
            var d := StoreZ(SetAcc(c1, an, r), z, y, size, w);
            && r == RangeChecked(res, affectVU).0 && d.acc == c.acc[an := r]
            && d.ps.dau == RangeChecked(res, affectVU).1 && d.ctr == (2 * c.ctr + (if d.ps.dau.n then 1 else 0)) % 64
            && StoredAt(c, d, StoreAddress(c, z, y), size, w)
  {
    var (c1, r) := DaFlags(c, res, affectVU);
    var c2 := SetAcc(c1, an, r);
    Frames.DaFlagsFrame(c, res, affectVU);
    CanonMeaning.DaFlagsRegs(c, res, affectVU);
    assert r == RangeChecked(res, affectVU).0 by { hide TakeError, RangeChecked; }
    StoreZStores(c2, z, y, size, w);
    Frames.StoreZFrame(c2, z, y, size, w);
    SameStoredAt(c, c2, StoreZ(c2, z, y, size, w), z, y, size, w);
    hide DaFlags, StoreZ, RangeChecked, StoredAt, StoreAddress, Bit;
  }

  lemma SameStoredAt(c: Core, b: Core, d: Core, z: Field7, y: Operand, size: Size, w: word)
    requires ValidOperand(y) && StoredAt(b, d, StoreAddress(b, z, y), size, w)
    requires b.mem == c.mem && Computer(b) == Computer(c) && (forall k :: 0 <= k < 20 ==> b.r[k] == c.r[k])
    ensures StoredAt(c, d, StoreAddress(c, z, y), size, w)
  {
    hide ReadBytes, RawRead, ByteAt, Bit;
    assert StoreAddress(b, z, y) == StoreAddress(c, z, y);
  }

  /** A multiply-accumulate whose operands can be read: accumulator aN gets the
      range-checked sum, its flags are set, and Z gets the Y operand in a tap (an
      accumulator as the instruction leaves it), else the packed result. */
  lemma MacDelivers(c: Core, i: Insn)
    requires i.Mac? && ReadOperand(c, i.x, 4).1.Some? && ReadOperand(ReadOperand(c, i.x, 4).0, i.y, 4).1.Some?
    ensures var (c1, xo) := ReadOperand(c, i.x, 4);
            var (c2, yo) := ReadOperand(c1, i.y, 4);
            var y := yo.value;
            var (r, flags) := RangeChecked(MacSum(c2, i, xo.value, y), true);
            var d := ExecCore(c, i).0;
            var word := if i.fmt == 2 || (i.fmt == 1 && i.mul == 6)
                        then (match y case MemOperand(raw, _, _) => raw case AccOperand(_, _) => Pack(d.acc[i.y % 4]))
                        else Pack(r);
            && d.acc == c.acc[i.an := r] && d.ps.dau == flags
            && StoredAt(c2, d, StoreAddress(c2, i.z, y), 4, word)
  {
    hide *;
    var (c1, xo) := ReadOperand(c, i.x, 4);
    var (c2, yo) := ReadOperand(c1, i.y, 4);
    SameAccs(c, i.x);
    SameAccs(c1, i.y);
    var sum := MacSum(c2, i, xo.value, yo.value);
    var (c3, res) := DaFlags(c2, sum, true);
    var c4 := SetAcc(c3, i.an, res);
    var w := if IsTap(i) then TapWord(c4, yo.value, i.y) else Pack(res);
    ResultDelivered(c2, sum, true, i.an, i.z, yo.value, 4, w);
    MacIs(c, i);
    StoreKeepsAccs(c4, i.z, yo.value, 4, w);
    WordDelivered(c4, i, yo.value, res);
  }

  lemma SameAccs(c: Core, f: Field7)
    ensures ReadOperand(c, f, 4).0.acc == c.acc
    ensures ReadOperand(c, f, 4).1.Some? ==> ValidOperand(ReadOperand(c, f, 4).1.value)
  {
    Frames.ReadOperandFrame(c, f, 4);
    hide ReadOperand, Bit;
  }

  lemma StoreKeepsAccs(c: Core, z: Field7, y: Operand, size: Size, w: word)
    requires ValidOperand(y)
    ensures StoreZ(c, z, y, size, w).acc == c.acc
  {
    Frames.StoreZFrame(c, z, y, size, w);
    hide StoreZ, Bit;
  }

  lemma WordDelivered(c: Core, i: Insn, y: Operand, res: Acc)
    requires i.Mac?
    ensures (if IsTap(i) then TapWord(c, y, i.y) else Pack(res))
            == if i.fmt == 2 || (i.fmt == 1 && i.mul == 6)
               then (match y case MemOperand(raw, _, _) => raw case AccOperand(_, _) => Pack(c.acc[i.y % 4]))
               else Pack(res)
  {
    hide Pack;
  }

  lemma MacIs(c: Core, i: Insn)
    requires i.Mac? && ReadOperand(c, i.x, 4).1.Some? && ReadOperand(ReadOperand(c, i.x, 4).0, i.y, 4).1.Some?
    ensures var (c1, xo) := ReadOperand(c, i.x, 4);
            var (c2, yo) := ReadOperand(c1, i.y, 4);
            var (c3, res) := DaFlags(c2, MacSum(c2, i, xo.value, yo.value), true);
            var c4 := SetAcc(c3, i.an, res);
            ExecCore(c, i).0 == StoreZ(c4, i.z, yo.value, 4, if IsTap(i) then TapWord(c4, yo.value, i.y) else Pack(res))
  {
    hide MacSum, DaFlags, ReadOperand, StoreZ, TapWord, Pack;
  }

  // ---------------------------------------------------------------------
  // Special functions: delivery

  /** Bytes read for Y and stored for Z. */
  function SizeY(g: U4): Size { if g == 0 then 1 else if g == 2 then 2 else 4 }
  function SizeZ(g: U4): Size { if g == 1 then 1 else if g == 3 then 2 else 4 }

  /** A special function whose operand can be read: accumulator aN gets its result
      and Z its bits, unless a conditional load suppressed the store, which then
      moves the pointer all the same. */
  lemma SpecialDelivers(c: Core, i: Insn)
    requires i.Special? && i.g != 10 && i.g != 11 && i.g != 15 && ReadOperand(c, i.y, SizeY(i.g)).1.Some?
    ensures var (c1, yo) := ReadOperand(c, i.y, SizeY(i.g));
            var out := SpecialResult(c1, i, yo.value);
            var d := ExecCore(c, i).0;
            && d.acc == c.acc[i.an := out.res] && d.ps.dau == out.c.ps.dau
            && (out.store ==> StoredAt(c1, d, StoreAddress(c1, i.z, yo.value), SizeZ(i.g), out.zbits))
            && (!out.store ==> d.mem == c.mem)
  {
    hide *;
    SizesAgree(i.g);
    var (c1, yo) := ReadOperand(c, i.y, SizeY(i.g));
    ReadKeeps(c, i.y, SizeY(i.g));
    SpecialIs(c, i);
    OutKeeps(c1, i, yo.value);
    var out := SpecialResult(c1, i, yo.value);
    var c2 := SetAcc(out.c, i.an, out.res);
    SetAccIs(out.c, i.an, out.res);
    StoreZStores(c2, i.z, yo.value, SizeZ(i.g), out.zbits);
    StoreKeepsFlags(c2, i.z, yo.value, SizeZ(i.g), out.zbits);
    if out.store {
      SameStoredAt(c1, c2, StoreZ(c2, i.z, yo.value, SizeZ(i.g), out.zbits), i.z, yo.value, SizeZ(i.g), out.zbits);
    }
  }

  /** An operand that cannot be read ends the instruction, with X's pointer moved if
      it is Y's fault; the three reserved functions only read Y. */
  lemma FaultsMean(c: Core, i: Insn)
    ensures i.Mac? ==>
              var (c1, xo) := ReadOperand(c, i.x, 4);
              var (c2, yo) := ReadOperand(c1, i.y, 4);
              (xo.None? ==> ExecCore(c, i).0 == c1) && (xo.Some? && yo.None? ==> ExecCore(c, i).0 == c2)
    ensures i.Special? ==>
              var (c1, yo) := ReadOperand(c, i.y, SizeY(i.g));
              yo.None? || i.g == 10 || i.g == 11 || i.g == 15 ==> ExecCore(c, i).0 == c1
  {
    if i.Special? { SizesAgree(i.g); }
    hide ReadOperand, SpecialResult, StoreZ, SetAcc, MacSum, DaFlags, YSize, SizeY, ReservedG;
  }

  lemma SizesAgree(g: U4)
    ensures YSize(g) == SizeY(g) && ZSize(g) == SizeZ(g) && (ReservedG(g) <==> g == 10 || g == 11 || g == 15)
  {
  }

  lemma ReadKeeps(c: Core, f: Field7, size: Size)
    ensures var (d, o) := ReadOperand(c, f, size); d.acc == c.acc && d.mem == c.mem && (o.Some? ==> ValidOperand(o.value))
  {
    Frames.ReadOperandFrame(c, f, size);
    hide ReadOperand, Bit;
  }

  lemma SetAccIs(c: Core, n: U2, a: Acc)
    ensures SetAcc(c, n, a) == c.(acc := c.acc[n := a]) && Computer(SetAcc(c, n, a)) == Computer(c)
  {
    hide Bit;
  }

  lemma StoreKeepsFlags(c: Core, z: Field7, y: Operand, size: Size, w: word)
    requires ValidOperand(y)
    ensures StoreZ(c, z, y, size, w).ps == c.ps
  {
    Frames.StoreZFrame(c, z, y, size, w);
    hide StoreZ, Bit;
  }

  lemma SpecialIs(c: Core, i: Insn)
    requires i.Special? && !ReservedG(i.g) && ReadOperand(c, i.y, YSize(i.g)).1.Some?
    ensures var (c1, yo) := ReadOperand(c, i.y, YSize(i.g));
            ValidOperand(yo.value) &&
            var out := SpecialResult(c1, i, yo.value);
            var c2 := SetAcc(out.c, i.an, out.res);
            ExecCore(c, i).0 == if out.store then StoreZ(c2, i.z, yo.value, ZSize(i.g), out.zbits) else c2
  {
    hide ReadOperand, SpecialResult, StoreZ, SetAcc;
  }

  /** Before the store: accumulators, memory and the map as they were, pointers too
      if the store is still to come. */
  lemma OutKeeps(c: Core, i: Insn, y: Operand)
    requires i.Special? && !ReservedG(i.g) && ValidOperand(y)
    ensures var out := SpecialResult(c, i, y);
            && out.c.acc == c.acc && out.c.mem == c.mem && Computer(out.c) == Computer(c)
            && (out.store ==> forall k :: 0 <= k < 20 ==> out.c.r[k] == c.r[k])
  {
    DaFrames.SpecialResultKeeps(c, i, y);
    CanonMeaning.SpecialRegs(c, i, y);
    OutAccs(c, i, y);
    hide SpecialResult, Bit;
  }

  lemma OutAccs(c: Core, i: Insn, y: Operand)
    requires i.Special? && !ReservedG(i.g) && ValidOperand(y)
    ensures SpecialResult(c, i, y).c.acc == c.acc
  {
    hide WithFlags, AccFromInt, AccRound, AdderInputOf, AccToIeee, AccToInt, Pack, IntLane, CompandedEncode, Decode2x,
         LaneInt, ExecDsp, PostmodOnly, Unpack, SeedWord, RawOf;
    var g := i.g;
    if g == G_IC {
      var code := LaneInt(y, 24) % 0x100;
      WithFlagsAccs(c, AccFromInt(code), false);
      var twice := AccFromInt(Decode2x(code, c.dauc % 2 == 1));
      WithFlagsAccs(c, if twice.e != 0 then twice.(e := twice.e - 1) else twice, false);
    }
    else if g == G_OC { }
    else if g == G_FLOAT16 { WithFlagsAccs(c, AccFromInt(Signed16(LaneInt(y, 16))), false); }
    else if g == G_FLOAT32 { WithFlagsAccs(c, AccFromInt(Signed32(Wrap(LaneInt(y, 0)))), false); }
    else if g == G_INT16 { }
    else if g == G_INT32 { }
    else if g == G_ROUND { WithFlagsAccs(c, AccRound(AdderInputOf(y)), true); }
    else if g == G_IFALT || g == G_IFAEQ || g == G_IFAGT { PostmodAccs(c, i.z, y); }
    else if g == G_IEEE { }
    else if g == G_DSP { DspAccs(c, y); }
    else { WithFlagsAccs(c, Unpack(SeedWord(PackedInput(y))), false); }
  }

  lemma WithFlagsAccs(c: Core, res: Acc, affectVU: bool)
    ensures WithFlags(c, res, affectVU).c.acc == c.acc
  {
    Frames.DaFlagsFrame(c, res, affectVU);
    hide DaFlags, Pack, Bit;
  }

  lemma SetDauAccs(c: Core, f: DauFlags)
    ensures SetDau(c, f).acc == c.acc
  {
  }

  lemma DspAccs(c: Core, y: Operand)
    ensures ExecDsp(c, y).c.acc == c.acc
  {
    var iw := PackedInput(y);
    var negative, exp, mant := iw >= 0x8000_0000, iw / 0x80_0000 % 0x100, iw % 0x80_0000;
    var f := DauFlags(negative, false, false, !negative || mant != 0);
    hide PackedInput, WithFlags, TakeError, Unpack, AccFromIeee, SetDau;
    SetDauAccs(c, f);
    ErrorAccs(SetDau(c, f));
    SetDauAccs(c, DauFlags(false, true, mant != 0, false));
    WithFlagsAccs(c, AccFromIeee(iw), true);
    if exp == 255 { if mant != 0 { } else { } } else if exp == 0 { } else { }
  }

  lemma ErrorAccs(c: Core)
    ensures TakeError(c, VEC_NAN).0.acc == c.acc
  {
    Frames.TakeErrorFrame(c, VEC_NAN);
    hide TakeError, Bit;
  }

  lemma PostmodAccs(c: Core, z: Field7, y: Operand)
    requires ValidOperand(y)
    ensures PostmodOnly(c, z, y, 4).acc == c.acc
  {
    hide Postmod;
    if ZWrites(z, y) { Frames.PostmodOnlyR(c, if z / 8 == 15 then y.preg else z / 8, z % 8, 4); }
  }
}
