/** What moves do with sizes, pointers, flags and I/O registers. */
module MoveMeaning {
  import opened Words
  import opened Dau
  import opened Insn
  import opened Core
  import opened Cau
  import opened Machine
  import opened Registers
  import Stores
  import Branching
  import AluMeaning

  // ---------------------------------------------------------------------
  // Sizes

  /** Bytes moved under a size code: byte, char and hbyte one, ushort and short
      two, long and the reserved codes four. */
  function SizeOf(w: U3): Size {
    if w == 0 || w == 1 || w == 4 then 1 else if w == 2 || w == 3 then 2 else 4
  }

  /** v is the register value a load of raw leaves: zero-extended for byte and
      ushort, sign-extended for char and short, in bits 15-8 for hbyte. */
  predicate Widened(w: U3, raw: word, v: word) {
    match w
    case 0 => v == raw % 0x100
    case 1 => v % 0x100 == raw % 0x100 && (v < 0x80 || v >= 0xFFFF_FF80)
    case 2 => v == raw % 0x1_0000
    case 3 => v % 0x1_0000 == raw % 0x1_0000 && (v < 0x8000 || v >= 0xFFFF_8000)
    case 4 => v == raw % 0x100 * 0x100
    case _ => v == raw
  }

  /** The part of a register a store moves. */
  function Narrowed(w: U3, v: word): word {
    match w
    case 0 => v % 0x100
    case 1 => v % 0x100
    case 2 => v % 0x1_0000
    case 3 => v % 0x1_0000
    case 4 => v / 0x100 % 0x100
    case _ => v
  }

  lemma SizesAgree(w: U3, v: word)
    ensures MoveSize(w) == SizeOf(w) && Select(w, v) == Narrowed(w, v) && Widened(w, v, Extend(w, v))
  {
    if w == 1 { CharExtends(v); }
    if w == 3 { ShortExtends(v); }
    hide Sext16, Signed8;
  }

  lemma CharExtends(v: word)
    ensures var x := Wrap(Signed8(v)); x % 0x100 == v % 0x100 && (x < 0x80 || x >= 0xFFFF_FF80)
  {
  }

  lemma ShortExtends(v: word)
    ensures var x := Sext16(v); x % 0x1_0000 == v % 0x1_0000 && (x < 0x8000 || x >= 0xFFFF_8000)
  {
  }

  // ---------------------------------------------------------------------
  // Register loads

  /** v in rH, and the flags n and z of v, v and c clear. */
  predicate LoadsInto(c: Core, d: Core, rh: Reg, v: word) {
    Writes(c, d, rh, v) && d.ps.cau == CauFlags(v >= 0x8000_0000, v == 0, false, false)
  }

  lemma LoadRegMeans(c: Core, rh: Reg, v: word)
    ensures LoadsInto(c, LoadReg(c, rh, v), rh, v)
  {
    RegwWrites(c, rh, v);
    hide Regw;
  }

  /** Pointer rP moved by rI: nothing for r0, the size for the pseudo-operands,
      else the register as it is. */
  predicate Stepped(c: Core, d: Core, rp: Reg, ri: Reg, size: Size) {
    if ri == 0 then d == c
    else
      var step := if ri == 23 then size as int else if ri == 22 then 0 - size as int else Reads(c, ri);
      Writes(c, d, rp, (Reads(c, rp) + step) % 0x1_0000_0000) && d.ps == c.ps
  }

  lemma PostmodSteps(c: Core, rp: Reg, ri: Reg, size: Size)
    ensures Stepped(c, CaPostmod(c, rp, ri, size), rp, ri, size)
  {
    OpvalReads(c, rp);
    OpvalReads(c, ri);
    var delta := if ri == PLUS then size as int else if ri == MINUS then -1 * size else Opval(c, ri);
    RegwWrites(c, rp, Wrap(Opval(c, rp) + delta));
    hide Opval, Reads, Regw, Writes;
  }

  // ---------------------------------------------------------------------
  // Moves between registers and memory

  /** `rH = (w) *rP..`: on a fault nothing but the exception; else the pointer
      moves first and then the register is loaded. */
  lemma LoadMeans(c: Core, i: Insn)
    requires i.MoveInd? && !i.io && !i.t
    ensures var size := SizeOf(i.wsz);
            var (c1, raw) := MemRead(c, Reads(c, i.rp), size, false);
            if raw.None? then ExecCore(c, i).0 == c1
            else exists p: Core, v: word ::
                   Stepped(c1, p, i.rp, i.ri, size) && Widened(i.wsz, raw.value, v) && LoadsInto(p, ExecCore(c, i).0, i.rh, v)
  {
    var size := SizeOf(i.wsz);
    OpvalReads(c, i.rp);
    var (c1, raw) := MemRead(c, Reads(c, i.rp), size, false);
    SizesAgree(i.wsz, if raw.Some? then raw.value else 0);
    if raw.Some? {
      var p, v := CaPostmod(c1, i.rp, i.ri, size), Extend(i.wsz, raw.value);
      PostmodSteps(c1, i.rp, i.ri, size);
      LoadRegMeans(p, i.rh, v);
      LoadIs(c, i);
      hide *;
      assert Stepped(c1, p, i.rp, i.ri, size) && Widened(i.wsz, raw.value, v) && LoadsInto(p, ExecCore(c, i).0, i.rh, v);
    } else {
      hide MemRead, Opval, Reads, MoveSize;
    }
  }

  lemma LoadIs(c: Core, i: Insn)
    requires i.MoveInd? && !i.io && !i.t
    ensures var (c1, raw) := MemRead(c, Opval(c, i.rp), MoveSize(i.wsz), false);
            raw.Some? ==> ExecCore(c, i).0 == LoadReg(CaPostmod(c1, i.rp, i.ri, MoveSize(i.wsz)), i.rh, Extend(i.wsz, raw.value))
  {
    hide MemRead, Opval, MoveSize, LoadReg, CaPostmod, Extend;
  }

  /** `*rP.. = (w) rH`: the selected bits are stored, and then the pointer moves. */
  lemma StoreMeans(c: Core, i: Insn)
    requires i.MoveInd? && !i.io && i.t
    ensures var size := SizeOf(i.wsz);
            var (c1, ok) := MemWrite(c, Reads(c, i.rp), size, Narrowed(i.wsz, Reads(c, i.rh)));
            if ok then Stepped(c1, ExecCore(c, i).0, i.rp, i.ri, size) else ExecCore(c, i).0 == c1
  {
    var size := SizeOf(i.wsz);
    OpvalReads(c, i.rp);
    OpvalReads(c, i.rh);
    SizesAgree(i.wsz, Reads(c, i.rh));
    PostmodSteps(MemWrite(c, Reads(c, i.rp), size, Narrowed(i.wsz, Reads(c, i.rh))).0, i.rp, i.ri, size);
    hide MemWrite, Opval, Reads, MoveSize, CaPostmod, Select, Narrowed, Stepped, SizeOf;
  }

  /** Format 7d: an I/O register in place of rH, with no effect of spc and no
      extension of what is written to it. */
  lemma IoMemoryMeans(c: Core, i: Insn)
    requires i.MoveInd? && i.io
    ensures var size, d := SizeOf(i.wsz), ExecCore(c, i).0;
            if !i.t then
              var (c1, raw) := MemRead(c, Reads(c, i.rp), size, false);
              if raw.None? then d == c1
              else exists p: Core :: Stepped(c1, p, i.rp, i.ri, size) && d == IorWrite(p, i.rh, raw.value, size).0
            else
              var (c1, ok) := MemWrite(c, Reads(c, i.rp), size, Narrowed(i.wsz, IorRead(c, i.rh)));
              if ok then Stepped(c1, d, i.rp, i.ri, size) else d == c1
  {
    var size := SizeOf(i.wsz);
    OpvalReads(c, i.rp);
    SizesAgree(i.wsz, IorRead(c, i.rh));
    IoMemoryIs(c, i);
    hide *;
    if !i.t {
      var (c1, raw) := MemRead(c, Reads(c, i.rp), size, false);
      PostmodSteps(c1, i.rp, i.ri, size);
    } else {
      PostmodSteps(MemWrite(c, Reads(c, i.rp), size, Narrowed(i.wsz, IorRead(c, i.rh))).0, i.rp, i.ri, size);
    }
  }

  lemma IoMemoryIs(c: Core, i: Insn)
    requires i.MoveInd? && i.io
    ensures var addr, size, d := Opval(c, i.rp), MoveSize(i.wsz), ExecCore(c, i).0;
            var (c1, raw) := MemRead(c, addr, size, false);
            var (c2, ok) := MemWrite(c, addr, size, Select(i.wsz, IorRead(c, i.rh)));
            d == if i.t then (if ok then CaPostmod(c2, i.rp, i.ri, size) else c2)
                 else if raw.None? then c1 else IorWrite(CaPostmod(c1, i.rp, i.ri, size), i.rh, raw.value, size).0
  {
    hide MemRead, MemWrite, Opval, MoveSize, IorWrite, CaPostmod, Select, IorRead;
  }

  /** The 16-bit addresses of format 7a lie in the on-chip window of either map. */
  function WindowAddress(c: Core, l: half): word {
    if Bit(c.pcw, 10) then l else 0x5003_0000 + l
  }

  lemma DirectLoadMeans(c: Core, i: Insn)
    requires i.MoveDirect? && !i.t
    ensures var (c1, raw) := MemRead(c, WindowAddress(c, i.l), SizeOf(i.wsz), false);
            if raw.None? then ExecCore(c, i).0 == c1
            else exists v: word :: Widened(i.wsz, raw.value, v) && LoadsInto(c1, ExecCore(c, i).0, i.rh, v)
  {
    DirectIs(c, i);
    hide *;
    var (c1, raw) := MemRead(c, WindowAddress(c, i.l), SizeOf(i.wsz), false);
    SizesAgree(i.wsz, if raw.Some? then raw.value else 0);
    if raw.Some? {
      var v := Extend(i.wsz, raw.value);
      LoadRegMeans(c1, i.rh, v);
      assert Widened(i.wsz, raw.value, v) && LoadsInto(c1, ExecCore(c, i).0, i.rh, v);
    }
  }

  lemma DirectIs(c: Core, i: Insn)
    requires i.MoveDirect?
    ensures var addr, size := WindowAddress(c, i.l), MoveSize(i.wsz);
            var (c1, raw) := MemRead(c, addr, size, false);
            ExecCore(c, i).0 == if i.t then MemWrite(c, addr, size, Select(i.wsz, Opval(c, i.rh))).0
                                else if raw.None? then c1 else LoadReg(c1, i.rh, Extend(i.wsz, raw.value))
  {
    hide MemRead, MemWrite, MoveSize, Select, Opval, LoadReg, Extend, Bit;
  }

  lemma DirectStoreMeans(c: Core, i: Insn)
    requires i.MoveDirect? && i.t
    ensures ExecCore(c, i).0 == MemWrite(c, WindowAddress(c, i.l), SizeOf(i.wsz), Narrowed(i.wsz, Reads(c, i.rh))).0
  {
    DirectIs(c, i);
    hide *;
    OpvalReads(c, i.rh);
    SizesAgree(i.wsz, Reads(c, i.rh));
  }

  /** With no DA store in its shadow, what an aligned store puts into memory the
      processor reads back. */
  lemma StoredIsRead(c: Core, addr: word, size: Size, val: word)
    requires addr % size == 0 && MemWrite(c, addr, size, val).1 && c.shadow == [Free, Free, Free, Free]
    ensures var d := MemWrite(c, addr, size, val).0;
            var (e, v) := MemRead(d, addr, size, false);
            e == d && v.Some? && v.value == val % Stores.Capacity(size)
  {
    Stores.StoreThenLoad(c, addr, size, val);
    var d := MemWrite(c, addr, size, val).0;
    hide *;
    assert addr - addr % size == addr;
    UnshadowedRead(d, addr, size);
  }

  /** A fetch, or a data read with nothing in the shadow, is a plain read of the
      aligned address. */
  lemma PlainRead(d: Core, addr: word, size: Size, fetch: bool)
    requires fetch || d.shadow == [Free, Free, Free, Free]
    requires MemRead(d, addr, size, fetch).1.Some?
    ensures MemRead(d, addr, size, fetch).1 == RawRead(d, addr - addr % size, size)
  {
    var a: word := addr - addr % size;
    var (c1, taken) := CheckAligned(d, addr, size);
    assert c1 == d by { hide Bit, Abort; }
    var bs := ReadBytes(d.mem, Computer(d), a, size).value;
    assert AlignDown(addr, size) == a && a % size == 0 by { Stores.AlignedFits(addr, size); }
    if !fetch { NoOverlay(d.shadow, a, bs); }
    hide ReadBytes, JoinWord, Bit, CheckAligned, Overlaid, TakeError;
  }

  lemma UnshadowedRead(d: Core, addr: word, size: Size)
    requires addr % size == 0 && d.shadow == [Free, Free, Free, Free] && RawRead(d, addr, size).Some?
    ensures MemRead(d, addr, size, false) == (d, RawRead(d, addr, size))
  {
    var bs := ReadBytes(d.mem, Computer(d), addr, size).value;
    assert AlignDown(addr, size) == addr && !CheckAligned(d, addr, size).1 && CheckAligned(d, addr, size).0 == d;
    NoOverlay(d.shadow, addr, bs);
    hide ReadBytes, JoinWord, Bit, CheckAligned, Overlaid, TakeError;
  }

  lemma {:induction false} FreeLayer(sh: Shadow, rem: int, e: nat, a: word, b: byte)
    requires sh == [Free, Free, Free, Free] && e <= 4
    ensures Layer(sh, rem, e, a, b) == b
    decreases 4 - e
  {
    if e < 4 {
      assert sh[e] == Free;
      FreeLayer(sh, rem, e + 1, a, b);
    }
  }

  lemma NoOverlay(sh: Shadow, addr: word, bs: seq<byte>)
    requires sh == [Free, Free, Free, Free]
    ensures Overlaid(sh, addr, bs) == bs
  {
    hide Layer;
    forall i | 0 <= i < |bs| ensures Overlaid(sh, addr, bs)[i] == bs[i] {
      var a := Wrap(addr + i);
      FreeLayer(sh, 3, 0, a, bs[i]);
      FreeLayer(sh, 2, 0, a, bs[i]);
      FreeLayer(sh, 1, 0, a, bs[i]);
      FreeLayer(sh, 0, 0, a, bs[i]);
    }
  }

  // ---------------------------------------------------------------------
  // I/O registers

  /** Written and read again: ps takes its four CAU flags, emr and pcw 16 bits, dauc
      seven; pcw only while unlocked, and bit 13 locks it; an odd emr withdraws the
      request of vector 15; ctr and the rest take nothing. */
  lemma IorWriteThenRead(c: Core, n: Reg, v: word, size: Size)
    ensures var d := IorWrite(c, n, v, size).0;
            && (n == 0 ==> d.ps == c.ps.(cau := CauFlags(Bit(v, 0), Bit(v, 1), Bit(v, 2), Bit(v, 3)))
                           && IorRead(d, 0) % 16 == v % 16)
            && (n == 8 ==> IorRead(d, 8) == v % 0x1_0000
                           && forall k :: k in d.pending <==> k in c.pending && !(k == 15 && Bit(v, 0)))
            && (n == 12 ==> IorRead(d, 12) == (if c.pcwLocked then IorRead(c, 12) else v % 0x1_0000)
                            && d.pcwLocked == (c.pcwLocked || Bit(v, 13)))
            && (n == 14 ==> IorRead(d, 14) == v % 0x80)
            && (n != 0 && n != 8 && n != 12 && n != 14 ==> d == c)
            && d == c.(ps := if n == 0 then d.ps else c.ps, emr := if n == 8 then d.emr else c.emr,
                       pending := if n == 8 then d.pending else c.pending, pcw := if n == 12 then d.pcw else c.pcw,
                       pcwLocked := if n == 12 then d.pcwLocked else c.pcwLocked, dauc := if n == 14 then d.dauc else c.dauc)
  {
    LowBits(v);
    if n == 0 {
      var f := CauFlags(Bit(v, 0), Bit(v, 1), Bit(v, 2), Bit(v, 3));
      StatusLow(c.ps.(cau := f));
      LowNibble(v);
      hide Bit, PsWord;
    } else {
      hide Bit, PsWord;
    }
  }

  lemma LowBits(v: word)
    ensures Bit(v, 0) == (v % 2 == 1) && Bit(v, 1) == (v / 2 % 2 == 1) && Bit(v, 2) == (v / 4 % 2 == 1)
            && Bit(v, 3) == (v / 8 % 2 == 1) && Bit(v, 13) == (v / 0x2000 % 2 == 1)
  {
    assert Pow2(1) == 2 && Pow2(2) == 4 && Pow2(3) == 8 && Pow2(13) == 0x2000;
    hide Pow2;
    BitZero(v);
  }

  lemma StatusLow(p: Ps)
    ensures PsWord(p) % 16 == FlagBits(p.cau.n, p.cau.z, p.cau.v, p.cau.c)
  {
    Branching.StatusNibbles(p);
    hide PsWord, FlagBits;
  }

  lemma LowNibble(v: word)
    ensures v % 16 == FlagBits(Bit(v, 0), Bit(v, 1), Bit(v, 2), Bit(v, 3))
  {
    LowBits(v);
    hide Bit;
    var h1, h2, h3 := v / 2, v / 4, v / 8;
    assert h2 == h1 / 2 && h3 == h2 / 2;
    DivUnique(v, 16, h3 / 2, v % 2 + 2 * (h1 % 2) + 4 * (h2 % 2) + 8 * (h3 % 2));
  }

  /** What the I/O registers read as; spc and the reserved numbers read 0. */
  lemma IorReadMeans(c: Core, n: Reg)
    requires c.dauc < 0x80
    ensures IorRead(c, n) == if n == 0 then PsWord(c.ps) else if n == 8 then c.emr else if n == 12 then c.pcw
                             else if n == 14 then c.dauc else if n == 15 then c.ctr % 64 else 0
  {
    hide PsWord;
  }

  /** Moves between registers and I/O registers. */
  lemma IorMoveMeans(c: Core, i: Insn)
    requires i.MoveIor?
    ensures var d := ExecCore(c, i).0;
            if !i.t then exists v: word :: Widened(i.wsz, IorRead(c, i.ior), v) && LoadsInto(c, d, i.rh, v)
            else i.ior != 10 ==> d == IorWrite(c, i.ior, Narrowed(i.wsz, Reads(c, i.rh)), SizeOf(i.wsz)).0
  {
    SizesAgree(i.wsz, IorRead(c, i.ior));
    SizesAgree(i.wsz, Reads(c, i.rh));
    OpvalReads(c, i.rh);
    if !i.t {
      var v := Extend(i.wsz, IorRead(c, i.ior));
      LoadRegMeans(c, i.rh, v);
      hide IorRead, LoadReg, Extend, Widened, LoadsInto, MoveSize;
      assert Widened(i.wsz, IorRead(c, i.ior), v) && LoadsInto(c, ExecCore(c, i).0, i.rh, v);
    } else {
      NoEffectElsewhere(c, i.ior, Narrowed(i.wsz, Reads(c, i.rh)), SizeOf(i.wsz));
      hide IorWrite, Opval, Reads, Select, Narrowed, MoveSize, SizeOf, PendingFrom;
    }
  }

  lemma NoEffectElsewhere(c: Core, n: Reg, v: word, size: Size)
    ensures n != 10 ==> IorWrite(c, n, v, size).1 == NoEffect
  {
  }

  /** The three writes to spc: a soft reset returns to base level, a break reports,
      a wait sleeps unless a request is enabled. */
  lemma SpcMeans(c: Core, i: Insn)
    requires i.MoveIor? && i.t && i.ior == 10
    ensures var size := SizeOf(i.wsz);
            ExecCore(c, i) == if size == 1 then (c.(level := Base, errNonmaskable := false), Ok)
                              else if size == 2 then (c, Breakpoint)
                              else (c.(waiting := c.waiting || PendingVector(c) == 0), Ok)
  {
    SizesAgree(i.wsz, 0);
    hide Opval, Select, PendingFrom;
  }
}
