/** The emulator with its state updated in place.  Every method is proved
    against the function of the same name on the value of that state. */
module Emulator {
  import opened Words
  import opened Dau
  import opened Insn
  import opened Core
  import C = Core
  import opened Cau
  import U = Cau
  import opened DauExec
  import E = DauExec
  import opened Machine
  import M = Machine

  // ---------------------------------------------------------------------
  // The shadow overlay, one age at a time

  /** What is left of the overlay: ages `age`, `age` - 1, ..., 0. */
  function OverlayFrom(sh: Shadow, age: int, a: word, b: byte): byte
    requires age <= 3
    decreases age + 1
  {
    if age < 0 then b else OverlayFrom(sh, age - 1, a, Layer(sh, age, 0, a, b))
  }

  lemma OverlayFromThree(sh: Shadow, a: word, b: byte)
    ensures OverlayFrom(sh, 3, a, b) == OverlaidByte(sh, a, b)
  {
    hide Layer;
    var b3 := Layer(sh, 3, 0, a, b);
    var b2 := Layer(sh, 2, 0, a, b3);
    var b1 := Layer(sh, 1, 0, a, b2);
    var b0 := Layer(sh, 0, 0, a, b1);
    assert OverlayFrom(sh, -1, a, b0) == b0;
    assert OverlayFrom(sh, 0, a, b1) == b0;
    assert OverlayFrom(sh, 1, a, b2) == b0;
    assert OverlayFrom(sh, 2, a, b3) == b0;
  }

  lemma {:induction false} ReadBytesSplit(m: Memory, computer: bool, addr: word, i: nat, n: nat)
    requires i <= n <= 4
    ensures ReadBytes(m, computer, addr, n)
            == Joined(ReadBytes(m, computer, addr, i), ReadBytes(m, computer, Wrap(addr + i), n - i))
    decreases i
  {
    hide ByteAt, Wrap;
    if i > 0 {
      ReadBytesSplit(m, computer, Wrap(addr + 1), i - 1, n - 1);
      WrapTwice(addr, i);
      var r := ReadBytes(m, computer, Wrap(addr + 1), i - 1);
      var t := ReadBytes(m, computer, Wrap(addr + i), n - i);
      var b := ByteAt(m, computer, addr);
      if b.Some? && r.Some? && t.Some? {
        assert [b.value] + (r.value + t.value) == ([b.value] + r.value) + t.value;
      }
    } else {
      WrapTwice(addr, 0);
      var t := ReadBytes(m, computer, addr, n);
      if t.Some? { assert [] + t.value == t.value; }
    }
  }

  function Joined(a: Option<seq<byte>>, b: Option<seq<byte>>): Option<seq<byte>> {
    if a.Some? && b.Some? then Some(a.value + b.value) else None
  }

  lemma WrapTwice(addr: word, i: nat)
    requires i <= 4
    ensures i > 0 ==> Wrap(Wrap(addr + 1) + (i - 1)) == Wrap(addr + i)
    ensures Wrap(Wrap(addr + i) + 1) == Wrap(addr + (i + 1))
    ensures Wrap(addr + 0) == addr
  {
    hide Wrap;
    WrapOnce(addr + i);
    WrapOnce(addr + 1);
    WrapOnce(addr + (i + 1));
    WrapOnce(addr);
    WrapOnce(Wrap(addr + i) + 1);
    if i > 0 { WrapOnce(Wrap(addr + 1) + (i - 1)); }
  }

  lemma WrapOnce(x: nat)
    requires x < 0x2_0000_0000
    ensures Wrap(x) == if x < 0x1_0000_0000 then x else x - 0x1_0000_0000
  {
    if x < 0x1_0000_0000 {
      DivUnique(x, 0x1_0000_0000, 0, x);
    } else {
      DivUnique(x, 0x1_0000_0000, 1, x - 0x1_0000_0000);
    }
  }

  /** One byte of a store. */
  lemma WriteStep(m: Memory, computer: bool, addr: word, bs: seq<byte>)
    ensures bs == [] ==> WriteBytes(m, computer, addr, bs) == (m, true)
    ensures bs != [] ==>
              WriteBytes(m, computer, addr, bs)
              == if Mapped(m, computer, addr)
                 then WriteBytes(SetByte(m, computer, addr, bs[0]), computer, Wrap(addr + 1), bs[1..])
                 else (m, false)
  {
  }

  lemma NoBytes(m: Memory, computer: bool, addr: word)
    ensures ReadBytes(m, computer, addr, 0) == Some([])
  {
  }

  lemma ReadOneByte(m: Memory, computer: bool, addr: word)
    ensures ReadBytes(m, computer, addr, 1)
            == match ByteAt(m, computer, addr) case Some(b) => Some([b]) case None => None
  {
    hide ByteAt;
    NoBytes(m, computer, Wrap(addr + 1));
    var b := ByteAt(m, computer, addr);
    if b.Some? { assert [b.value] + [] == [b.value]; }
  }

  /** Only moves report a status; an illegal opcode is an exception and the
      reserved move does nothing. */
  lemma CauStatus(c: Core, i: Insn)
    requires !(i.Mac? || i.Special?)
    ensures !i.MoveIor? ==> ExecCau(c, i).1 == Ok
    ensures i.Illegal? ==> ExecCau(c, i).0 == C.TakeError(c, VEC_ILLOP).0
    ensures i.MoveReserved? ==> ExecCau(c, i).0 == c
  {
    hide C.TakeError;
  }

  // Fields of the machine that change together.

  datatype Flow = Flow(pc: word, npc: word, pcsh: word, cur: word)
  datatype Control = Control(emr: half, pcw: half, locked: bool)
  datatype DauRegs = DauRegs(dauc: nat, ctr: nat, acc: AccFile, pipe: AccPipe, flags: FlagPipe)
  datatype Mode = Mode(level: Level, nonmaskable: bool, waiting: bool, intDefer: bool)
  datatype Replay = Replay(word: word, addr: word, pending: bool)
  datatype Prefetch = Prefetch(word: word, addr: word)

  class Dsp3210 {
    const r: array<word>          // r0-r22
    const wr: array<WrEntry>      // the DA store shadow
    const chip: array<byte>       // the 64 KB on-chip window
    const ext: array<byte>        // external memory
    var flow: Flow
    var ps: Ps
    var ctl: Control
    var dau: DauRegs
    var loop: Loop
    var mode: Mode
    var pending: set<int>
    var pulse0: nat
    var pulse1: nat
    var replay: Replay
    var fetched: Prefetch
    var saved: Saved

    /** Initialisation: the host owns external memory. */
    constructor (mem: array<byte>)
      requires mem.Length < 0x1_0000_0000
      ensures Valid() && ext == mem && fresh(r) && fresh(wr) && fresh(chip)
      ensures Snap() == Reset(mem[..])
    {
      r := new word[23](i => 0);
      wr := new WrEntry[4](i => Free);
      chip := new byte[0x1_0000](i => 0);
      ext := mem;
      flow := Flow(0, 4, 0, 0);
      ps := Ps(NO_CAU, NO_DAU, IoPins(false, true, false, false, true, true));
      ctl := Control(0, 0x38F, false);
      dau := DauRegs(0, 0, ZeroFile(), [ZeroFile(), ZeroFile(), ZeroFile()], [NO_DAU, NO_DAU, NO_DAU, NO_DAU]);
      loop := NO_LOOP;
      mode := Mode(Base, false, false, false);
      pending, pulse0, pulse1 := {}, 0, 0;
      replay, fetched := Replay(0, 0, false), Prefetch(0, NO_PREFETCH);
      saved := Saved(Ps(NO_CAU, NO_DAU, IoPins(false, false, false, false, false, false)), 0, 0, ZeroFile(),
                     [ZeroFile(), ZeroFile(), ZeroFile()], [NO_DAU, NO_DAU, NO_DAU, NO_DAU], NO_LOOP);
    }

    ghost predicate Valid() {
      r.Length == 23 && wr.Length == 4 && chip.Length == 0x1_0000 && ext.Length < 0x1_0000_0000 && chip != ext
    }

    ghost function Regs(): RegFile
      requires Valid()
      reads r
    {
      r[..]
    }

    ghost function Stores(): Shadow
      requires Valid()
      reads wr
    {
      wr[..]
    }

    ghost function Mem(): Memory
      requires Valid()
      reads chip, ext
    {
      Memory(chip[..], ext[..])
    }

    /** The value of the architectural state. */
    ghost function Now(): Core
      requires Valid()
      reads this, r, wr, chip, ext
    {
      Core(Regs(), flow.pc, flow.npc, flow.pcsh, flow.cur, ps, ctl.emr, ctl.pcw, ctl.locked, dau.dauc, dau.ctr,
           dau.acc, dau.pipe, dau.flags, Stores(), loop, mode.level, mode.nonmaskable, pending, mode.waiting,
           mode.intDefer, pulse0, pulse1, Mem())
    }

    /** The value of the registers only ireturn can see. */
    ghost function Aside(): Hidden
      reads this
    {
      Hidden(replay.word, replay.addr, replay.pending, fetched.word, fetched.addr, saved)
    }

    ghost function Snap(): State
      requires Valid()
      reads this, r, wr, chip, ext
    {
      State(Now(), Aside())
    }

    // -------------------------------------------------------------------
    // Registers and flags

    method Opval(code: Reg) returns (v: word)
      requires Valid()
      ensures v == C.Opval(Now(), code)
    {
      match RegDecode(code)
      case General(i) => v := r[i];
      case PcReg => v := Wrap(flow.cur + 8);
      case PcshReg => v := flow.pcsh;
      case Plus => v := 1;
      case Minus => v := 0xFFFF_FFFF;
      case Zero => v := 0;
      case ReservedReg => v := 0;
    }

    method Regw(code: Reg, v: word)
      requires Valid()
      modifies `flow, r
      ensures Now() == C.Regw(old(Now()), code, v)
    {
      hide Stores, Mem;
      match RegDecode(code)
      case General(i) => r[i] := v;
      case PcReg => flow := flow.(npc := v);
      case PcshReg => flow := flow.(pcsh := v);
      case _ =>
    }

    method SetFlags(f: CauFlags)
      requires Valid()
      modifies `ps
      ensures Now() == SetCau(old(Now()), f)
    {
      ps := ps.(cau := f);
    }

    // -------------------------------------------------------------------
    // Exceptions and requests

    /** Dispatch to the error vector. */
    method Abort(vn: nat)
      requires Valid()
      modifies `loop, `mode, `ctl, `flow, r
      ensures Now() == C.Abort(old(Now()), vn)
    {
      hide Stores, Mem, Bit, ClearBit13;
      loop := loop.(active := false);
      mode := Mode(Error, vn < 4, false, mode.intDefer);
      ctl := Control(ctl.emr, if Bit(ctl.pcw, 13) then ClearBit13(ctl.pcw) else ctl.pcw, false);
      var pc: word := Wrap(r[22] + vn * 8);
      flow := flow.(pc := pc, npc := Wrap(pc + 4));
      r[20] := Wrap(flow.cur + 8);
    }

    /** True when the exception is taken and the instruction must abort. */
    method TakeError(vn: nat) returns (taken: bool)
      requires Valid()
      modifies `loop, `mode, `ctl, `flow, r
      ensures (Now(), taken) == C.TakeError(old(Now()), vn)
    {
      hide Regs, Stores, Mem, Bit, C.Abort;
      if vn >= 4 && !Bit(ctl.emr, vn) {
        return false;
      }
      if mode.level == DoubleError {
        return true;
      }
      if mode.level == Error {
        if vn >= 4 {
          return false;
        }
        if mode.nonmaskable {
          mode := mode.(level := DoubleError);
          return true;
        }
      }
      Abort(vn);
      return true;
    }

    method PendingVector() returns (vn: nat)
      requires Valid()
      ensures vn == C.PendingVector(Now())
    {
      vn := 8;
      while vn < 16
        invariant 8 <= vn <= 16
        invariant PendingFrom(Now(), 8) == PendingFrom(Now(), vn)
      {
        if vn in pending && Bit(ctl.emr, vn) {
          return;
        }
        vn := vn + 1;
      }
      vn := 0;
    }

    /** The next instruction as prefetched, or else as memory has it now. */
    method ShadowWord() returns (word: word)
      requires Valid()
      ensures word == ShadowedInstruction(Snap())
    {
      hide Regs, Stores, Mem, C.RawRead;
      word := fetched.word;
      if fetched.addr != flow.pc {
        var ok, w := RawRead(flow.pc, 4);
        word := if ok then w else NOP_WORD;
      }
    }

    method TakeInterrupt(vn: nat)
      requires Valid()
      modifies `pending, `saved, `loop, `replay, `mode, `flow
      ensures Snap() == M.TakeInterrupt(old(Snap()), vn)
    {
      var word := ShadowWord();
      var evtp := r[22];
      assert Now().r[22] == evtp;
      hide Regs, Stores, Mem, ShadowedInstruction;
      pending := pending - {vn};
      saved := Saved(ps, dau.dauc, dau.ctr, dau.acc, dau.pipe, dau.flags, loop);
      loop := loop.(active := false);
      replay := replay.(word := word, addr := flow.pc);
      mode := mode.(level := Interrupt);
      var pc: word := Wrap(evtp + vn * 8);
      flow := flow.(pcsh := Wrap(flow.pc + 4), pc := pc, npc := Wrap(pc + 4));
    }

    method DoIreturn()
      requires Valid()
      modifies `ps, `dau, `loop, `mode, `flow, `replay
      ensures Snap() == M.DoIreturn(old(Snap()))
    {
      hide Regs, Stores, Mem;
      if mode.level == Interrupt {
        ps := saved.ps;
        dau := DauRegs(saved.dauc, saved.ctr, saved.acc, saved.pipe, saved.flagPipe);
        loop := saved.loop;
        mode := mode.(level := Base);
      }
      flow := flow.(pc := flow.pcsh, npc := Wrap(flow.pcsh + 4));
      replay := replay.(pending := true);
    }

    // -------------------------------------------------------------------
    // Memory

    method ReadByte(addr: word) returns (b: Option<byte>)
      requires Valid()
      ensures b == ByteAt(Now().mem, Computer(Now()), addr)
    {
      match Locate(Bit(ctl.pcw, 10), ext.Length, addr)
      case Chip(i) => b := Some(chip[i]);
      case Ext(i) => b := Some(ext[i]);
      case Unmapped => b := None;
    }

    /** False when nothing is mapped there. */
    method WriteByte(addr: word, b: byte) returns (ok: bool)
      requires Valid()
      modifies chip, ext
      ensures ok == Mapped(old(Now().mem), Computer(old(Now())), addr)
      ensures Now() == old(Now()).(mem := SetByte(old(Now().mem), Computer(old(Now())), addr, b))
      ensures !ok ==> Now() == old(Now())
    {
      match Locate(Bit(ctl.pcw, 10), ext.Length, addr)
      case Chip(i) => chip[i] := b; ok := true;
      case Ext(i) => ext[i] := b; ok := true;
      case Unmapped => ok := false;
    }

    /** The bytes at addr, addr + 1, ... in address order. */
    method RawBytes(addr: word, size: Size) returns (bs: Option<seq<byte>>)
      requires Valid()
      ensures bs == ReadBytes(Now().mem, Computer(Now()), addr, size)
    {
      hide ReadBytes, ByteAt, Regs, Stores, Mem, Bit;
      ghost var m, computer := Now().mem, Computer(Now());
      NoBytes(m, computer, addr);
      var got: seq<byte> := [];
      var i := 0;
      while i < size
        invariant 0 <= i <= size
        invariant ReadBytes(m, computer, addr, i) == Some(got)
      {
        ReadBytesSplit(m, computer, addr, i, size);
        ReadBytesSplit(m, computer, addr, i, i + 1);
        ReadOneByte(m, computer, Wrap(addr + i));
        ReadBytesSplit(m, computer, Wrap(addr + i), 1, size - i);
        var b := ReadByte(Wrap(addr + i));
        if b.None? {
          return None;
        }
        got := got + [b.value];
        i := i + 1;
      }
      bs := Some(got);
    }

    method RawRead(addr: word, size: Size) returns (ok: bool, v: word)
      requires Valid()
      ensures var w := C.RawRead(Now(), addr, size); ok == w.Some? && (ok ==> v == w.value)
    {
      ok, v := false, 0;
      if addr % size != 0 {
        return;
      }
      var bs := RawBytes(addr, size);
      if bs.Some? {
        ok, v := true, JoinWord(bs.value, Bit(ctl.pcw, 8));
      }
    }

    /** Stores byte by byte; false at the first unmapped one. */
    method RawWrite(addr: word, size: Size, val: word) returns (ok: bool)
      requires Valid()
      modifies chip, ext
      ensures var (m, done) := WriteBytes(old(Now().mem), Computer(old(Now())), addr,
                                          Split(val, size, BigEndian(old(Now()))));
              ok == done && Now() == old(Now()).(mem := m)
    {
      hide Regs, Stores, Mem, Bit, Locate, Split, WriteBytes, SetByte, Mapped, Wrap;
      var bs := Split(val, size, Bit(ctl.pcw, 8));
      ghost var start := Now();
      var i := 0;
      WrapTwice(addr, 0);
      assert bs[0..] == bs;
      while i < size
        invariant 0 <= i <= size
        invariant Now() == start.(mem := Now().mem)
        invariant WriteBytes(start.mem, Computer(start), addr, bs)
                  == WriteBytes(Now().mem, Computer(start), Wrap(addr + i), bs[i..])
      {
        WrapTwice(addr, i);
        WriteStep(Now().mem, Computer(start), Wrap(addr + i), bs[i..]);
        assert bs[i..][0] == bs[i] && bs[i..][1..] == bs[i + 1..];
        var mapped := WriteByte(Wrap(addr + i), bs[i]);
        if !mapped {
          return false;
        }
        i := i + 1;
      }
      WriteStep(Now().mem, Computer(start), Wrap(addr + i), bs[i..]);
      ok := true;
    }

    /** Replaces bytes still inside a store's window, newest store first. */
    method Overlay(addr: word, bs: seq<byte>) returns (v: seq<byte>)
      requires Valid()
      ensures v == Overlaid(Now().shadow, addr, bs)
    {
      ghost var sh: Shadow := wr[..];
      v := bs;
      var age := 3;
      while age >= 0
        invariant -1 <= age <= 3 && |v| == |bs|
        invariant forall i :: 0 <= i < |bs| ==>
                    OverlayFrom(sh, age, Wrap(addr + i), v[i]) == OverlayFrom(sh, 3, Wrap(addr + i), bs[i])
      {
        ghost var before := v;
        var e := 0;
        while e < 4
          invariant 0 <= e <= 4 && |v| == |bs|
          invariant forall i :: 0 <= i < |bs| ==>
                      Layer(sh, age, e, Wrap(addr + i), v[i]) == Layer(sh, age, 0, Wrap(addr + i), before[i])
        {
          if wr[e].Live? && wr[e].rem == age {
            v := OverlayEntry(addr, v, wr[e], sh, age, e);
          }
          e := e + 1;
        }
        age := age - 1;
      }
      forall i | 0 <= i < |bs| ensures v[i] == OverlaidByte(sh, Wrap(addr + i), bs[i]) {
        OverlayFromThree(sh, Wrap(addr + i), bs[i]);
      }
    }

    /** One entry over all bytes of the access. */
    method OverlayEntry(addr: word, bs: seq<byte>, w: WrEntry, ghost sh: Shadow, ghost age: nat, ghost e: nat)
      returns (v: seq<byte>)
      requires e < 4 && w == sh[e] && w.Live? && w.rem == age
      ensures |v| == |bs|
      ensures forall i :: 0 <= i < |bs| ==>
                Layer(sh, age, e, Wrap(addr + i), bs[i]) == Layer(sh, age, e + 1, Wrap(addr + i), v[i])
    {
      hide Layer;
      v := bs;
      var i := 0;
      while i < |bs|
        invariant 0 <= i <= |bs| && |v| == |bs|
        invariant forall j :: 0 <= j < i ==>
                    v[j] == if Covers(w, age, Wrap(addr + j)) then w.bytes[Wrap(Wrap(addr + j) - w.addr)] else bs[j]
        invariant forall j :: i <= j < |bs| ==> v[j] == bs[j]
      {
        var a := Wrap(addr + i);
        if Wrap(a - w.addr) < w.size {
          v := v[i := w.bytes[Wrap(a - w.addr)]];
        }
        i := i + 1;
      }
      forall j | 0 <= j < |bs|
        ensures Layer(sh, age, e, Wrap(addr + j), bs[j]) == Layer(sh, age, e + 1, Wrap(addr + j), v[j])
      {
        LayerStep(sh, age, e, Wrap(addr + j), bs[j]);
      }
    }

    method MemRead(addr: word, size: Size, fetch: bool) returns (ok: bool, v: word)
      requires Valid()
      modifies `loop, `mode, `ctl, `flow, r
      ensures var (c, w) := C.MemRead(old(Now()), addr, size, fetch);
              Now() == c && ok == w.Some? && (ok ==> v == w.value)
    {
      v := 0;
      if addr % size != 0 {
        var taken := TakeError(VEC_AERR);
        if taken {
          return false, 0;
        }
      }
      var bs := RawBytes(AlignDown(addr, size), size);
      if bs.None? {
        var _ := TakeError(VEC_BUSERR);
        return false, 0;
      }
      var bytes := bs.value;
      if !fetch {
        bytes := Overlay(AlignDown(addr, size), bytes);
      }
      return true, JoinWord(bytes, Bit(ctl.pcw, 8));
    }

    method MemWrite(addr: word, size: Size, val: word) returns (ok: bool)
      requires Valid()
      modifies `loop, `mode, `ctl, `flow, r, chip, ext
      ensures (Now(), ok) == C.MemWrite(old(Now()), addr, size, val)
    {
      if addr % size != 0 {
        var taken := TakeError(VEC_AERR);
        if taken {
          return false;
        }
      }
      ok := RawWrite(AlignDown(addr, size), size, val);
      if !ok {
        var _ := TakeError(VEC_BUSERR);
      }
    }

    // -------------------------------------------------------------------
    // The store shadow and the time base

    /** The first free entry, or else the one closest to expiry. */
    method FreeSlot() returns (slot: nat)
      requires Valid()
      ensures slot == SlotFrom(Now().shadow, 0, 0) && slot < 4
    {
      ghost var sh: Shadow := wr[..];
      slot := 0;
      var i := 0;
      while i < 4
        invariant 0 <= i <= 4 && slot < 4
        invariant SlotFrom(sh, i, slot) == SlotFrom(sh, 0, 0)
      {
        if wr[i].Free? {
          return i;
        }
        if wr[slot].Live? && wr[i].rem < wr[slot].rem {
          slot := i;
        }
        i := i + 1;
      }
    }

    method ShadowedWrite(addr: word, size: Size, val: word) returns (ok: bool)
      requires Valid()
      modifies `loop, `mode, `ctl, `flow, r, wr, chip, ext
      ensures (Now(), ok) == C.ShadowedWrite(old(Now()), addr, size, val)
    {
      hide C.MemWrite, ReadBytes, SlotFrom, Bit, Regs, Mem;
      var before := RawBytes(AlignDown(addr, size), size);
      ok := MemWrite(addr, size, val);
      if !ok || before.None? {
        return;
      }
      var slot := FreeSlot();
      wr[slot] := Live(AlignDown(addr, size), size, 3, Padded(before.value));
    }

    method AgeStores()
      requires Valid()
      modifies wr
      ensures Stores() == [Aged(old(Stores())[0]), Aged(old(Stores())[1]), Aged(old(Stores())[2]), Aged(old(Stores())[3])]
    {
      var i := 0;
      while i < 4
        invariant 0 <= i <= 4
        invariant forall j :: 0 <= j < i ==> wr[j] == Aged(old(wr[j]))
        invariant forall j :: i <= j < 4 ==> wr[j] == old(wr[j])
      {
        if wr[i].Live? {
          wr[i] := if wr[i].rem == 0 then Free else wr[i].(rem := wr[i].rem - 1);
        }
        i := i + 1;
      }
    }

    method LatencyTick()
      requires Valid()
      modifies `dau, wr
      ensures Now() == C.LatencyTick(old(Now()))
    {
      hide Regs, Mem, Aged;
      dau := dau.(pipe := [dau.acc, dau.pipe[0], dau.pipe[1]],
                  flags := [ps.dau, dau.flags[0], dau.flags[1], dau.flags[2]]);
      AgeStores();
    }

    method PinTick()
      requires Valid()
      modifies `ps, `pulse0, `pulse1
      ensures Now() == C.PinTick(old(Now()))
    {
      hide Regs, Mem, Stores;
      ps := ps.(io := ps.io.(ir0 := pulse0 == 0, ir1 := pulse1 == 0));
      if pulse0 > 0 {
        pulse0 := pulse0 - 1;
      }
      if pulse1 > 0 {
        pulse1 := pulse1 - 1;
      }
    }

    // -------------------------------------------------------------------
    // The control arithmetic unit

    method AluStore(rd: Reg, out: AluOut)
      requires Valid()
      modifies `ps, `flow, r
      ensures Now() == U.AluStore(old(Now()), rd, out)
    {
      hide Regs, Mem, Stores, C.Regw;
      SetFlags(out.flags);
      if out.store {
        Regw(rd, out.res);
      }
    }

    method ExecAluReg(i: Insn)
      requires Valid() && i.AluReg?
      modifies `ps, `flow, r
      ensures Now() == U.ExecAluReg(old(Now()), i)
    {
      hide Regs, Mem, Stores, C.Opval, U.AluStore, Alu, Condition;
      var AluReg(long, f, rd, rs1, c, rs2) := i;
      if !Condition(ps.cau, dau.flags[3], ps.io, c) {
        return;
      }
      var a := Opval(rs1);
      var b: word;
      if f == F_ADD && rd == SP && rs1 == SP && (rs2 == MINUS || rs2 == PLUS) {
        b := if rs2 == PLUS then 4 else 0xFFFF_FFFC;
      } else {
        b := Opval(rs2);
      }
      AluStore(rd, Alu(f, a, b, !long, ps.cau));
    }

    method ExecAluImm(i: Insn)
      requires Valid() && i.AluImm?
      modifies `ps, `flow, r
      ensures Now() == U.ExecAluImm(old(Now()), i)
    {
      hide Regs, Mem, Stores, C.Opval, U.AluStore, Alu;
      var AluImm(long, f, rd, n) := i;
      var a := Opval(rd);
      AluStore(rd, Alu(f, a, if f == F_ROL || f == F_ROR then a else Sext16(n), !long, ps.cau));
    }

    method IorRead(n: Reg) returns (v: word)
      requires Valid()
      ensures v == U.IorRead(Now(), n)
    {
      hide Regs, Mem, Stores;
      match n
      case 0 => v := PsWord(ps);
      case 8 => v := ctl.emr;
      case 12 => v := ctl.pcw;
      case 14 => v := Wrap(dau.dauc);
      case 15 => v := dau.ctr % 0x40;
      case _ => v := 0;
    }

    method IorWrite(n: Reg, v: word, size: Size) returns (effect: SpcEffect)
      requires Valid()
      modifies `ps, `ctl, `pending, `dau
      ensures (Now(), effect) == U.IorWrite(old(Now()), n, v, size)
    {
      hide Regs, Mem, Stores;
      effect := NoEffect;
      if n == 0 {
        SetFlags(CauFlags(v % 2 == 1, v / 2 % 2 == 1, v / 4 % 2 == 1, v / 8 % 2 == 1));
      } else if n == 8 {
        ctl := ctl.(emr := v % 0x1_0000);
        if v % 2 == 1 {
          pending := pending - {15};
        }
      } else if n == 10 {
        effect := if size == 1 then SoftReset else if size == 2 then Break else WaitForInterrupt;
      } else if n == 12 {
        if !ctl.locked {
          ctl := ctl.(pcw := v % 0x1_0000, locked := v / 0x2000 % 2 == 1);
        }
      } else if n == 14 {
        dau := dau.(dauc := v % 0x80);
      }
    }

    method CaPostmod(rp: Reg, ri: Reg, size: Size)
      requires Valid()
      modifies `flow, r
      ensures Now() == U.CaPostmod(old(Now()), rp, ri, size)
    {
      hide Regs, Mem, Stores, C.Opval, C.Regw;
      if ri == R0 {
        return;
      }
      var delta: int;
      if ri == PLUS {
        delta := size;
      } else if ri == MINUS {
        delta := -1 * size;
      } else {
        delta := Opval(ri);
      }
      var base := Opval(rp);
      Regw(rp, Wrap(base + delta));
    }

    method LoadReg(rh: Reg, v: word)
      requires Valid()
      modifies `ps, `flow, r
      ensures Now() == U.LoadReg(old(Now()), rh, v)
    {
      hide Regs, Mem, Stores, C.Regw;
      Regw(rh, v);
      SetFlags(FlagsNz(v, false));
    }

    method ExecMoveDirect(i: Insn)
      requires Valid() && i.MoveDirect?
      modifies `loop, `mode, `ctl, `flow, `ps, r, chip, ext
      ensures Now() == U.ExecMoveDirect(old(Now()), i)
    {
      hide Regs, Mem, Stores, C.MemRead, C.MemWrite, U.LoadReg, C.Opval, Bit;
      var size := MoveSize(i.wsz);
      var addr := (if Bit(ctl.pcw, 10) then 0 else 0x5003_0000) + i.l;
      if !i.t {
        var ok, v := MemRead(addr, size, false);
        assert Now() == C.MemRead(old(Now()), addr, size, false).0;
        if ok {
          LoadReg(i.rh, Extend(i.wsz, v));
        }
      } else {
        var v := Opval(i.rh);
        var _ := MemWrite(addr, size, Select(i.wsz, v));
      }
    }

    method ExecMoveIor(i: Insn) returns (st: Cau.Status)
      requires Valid() && i.MoveIor?
      modifies `mode, `ctl, `flow, `ps, `pending, `dau, r
      ensures (Now(), st) == U.ExecMoveIor(old(Now()), i)
    {
      hide Regs, Mem, Stores, U.LoadReg, C.Opval, U.IorRead, U.IorWrite, PendingFrom;
      st := Ok;
      if !i.t {
        var v := IorRead(i.ior);
        LoadReg(i.rh, Extend(i.wsz, v));
      } else {
        var v := Opval(i.rh);
        var effect := IorWrite(i.ior, Select(i.wsz, v), MoveSize(i.wsz));
        match effect
        case SoftReset => mode := mode.(level := Base, nonmaskable := false);
        case Break => st := Breakpoint;
        case WaitForInterrupt =>
          var vn := PendingVector();
          if vn == 0 {
            mode := mode.(waiting := true);
          }
        case NoEffect =>
      }
    }

    method ExecMoveInd(i: Insn)
      requires Valid() && i.MoveInd?
      modifies `loop, `mode, `ctl, `flow, `ps, `pending, `dau, r, chip, ext
      ensures Now() == U.ExecMoveInd(old(Now()), i)
    {
      hide Regs, Mem, Stores, C.MemRead, C.MemWrite, U.LoadReg, C.Opval, U.IorRead, U.IorWrite, U.CaPostmod;
      var size := MoveSize(i.wsz);
      var addr := Opval(i.rp);
      if !i.t {
        var ok, raw := MemRead(addr, size, false);
        assert Now() == C.MemRead(old(Now()), addr, size, false).0;
        if !ok {
          return;
        }
        CaPostmod(i.rp, i.ri, size);
        if i.io {
          var _ := IorWrite(i.rh, raw, size);
        } else {
          LoadReg(i.rh, Extend(i.wsz, raw));
        }
      } else {
        var v: word;
        if i.io {
          v := IorRead(i.rh);
        } else {
          v := Opval(i.rh);
        }
        var ok := MemWrite(addr, size, Select(i.wsz, v));
        if ok {
          CaPostmod(i.rp, i.ri, size);
        }
      }
    }

    // Control transfers

    method ExecLoopGoto(i: Insn)
      requires Valid() && i.LoopGoto?
      modifies `flow, r
      ensures Now() == U.ExecLoopGoto(old(Now()), i)
    {
      hide Regs, Mem, Stores, C.Opval, C.Regw;
      var v := Opval(i.rm);
      if Signed32(v) >= 0 {
        var base := Opval(i.rb);
        flow := flow.(npc := Wrap(base + Sext16(i.n)));
      }
      var next: int := v as int - 1;
      Regw(i.rm, Wrap(next));
    }

    method ExecCall16(i: Insn)
      requires Valid() && i.Call16?
      modifies `flow, r
      ensures Now() == U.ExecCall16(old(Now()), i)
    {
      hide Regs, Mem, Stores, C.Opval, C.Regw;
      var base := Opval(i.rb);
      Regw(i.rm, Wrap(flow.cur + 8));
      flow := flow.(npc := Wrap(base + Sext16(i.n)));
    }

    method ExecDo(i: Insn)
      requires Valid() && i.Do?
      modifies `loop
      ensures Now() == U.ExecDo(old(Now()), i)
    {
      hide Regs, Mem, Stores, C.Opval;
      var count;
      match i.count {
        case CountReg(code) =>
          var v := Opval(code);
          count := v % 0x800 + 1;
        case CountImm(l) => count := l + 1;
      }
      if i.lock && i.block {
        return;
      }
      var k := if i.block then 0 else i.k;
      loop := Loop(true, i.lock, flow.pc, Wrap(flow.pc + 4 * k), count);
    }

    method ExecShiftOr(i: Insn)
      requires Valid() && i.ShiftOr?
      modifies `ps, `flow, r
      ensures Now() == ExecCau(old(Now()), i).0
    {
      hide Regs, Mem, Stores, C.Opval, C.Regw;
      var v := Opval(i.rs);
      var res := Or(v, i.n * 0x1_0000);
      SetFlags(FlagsNz(res, false));
      Regw(i.rd, res);
    }

    method ExecGoto16(i: Insn)
      requires Valid() && i.Goto16?
      modifies `flow
      ensures Now() == ExecCau(old(Now()), i).0
    {
      hide Regs, Mem, Stores, C.Opval, Condition;
      if Condition(ps.cau, dau.flags[3], ps.io, i.c) {
        var base := Opval(i.rb);
        flow := flow.(npc := Wrap(base + Sext16(i.n)));
      }
    }

    /** Gotos, calls and loads with an immediate of 24 bits. */
    method ExecWide(i: Insn)
      requires Valid() && (i.Goto24? || i.Set24? || i.Call24?)
      modifies `flow, r
      ensures Now() == ExecCau(old(Now()), i).0
    {
      hide Regs, Mem, Stores, C.Opval, C.Regw;
      if i.Goto24? {
        var base := Opval(i.rb);
        flow := flow.(npc := Wrap(base + i.m24));
      } else if i.Set24? {
        Regw(i.rd, i.m24);
      } else {
        Regw(i.rm, Wrap(flow.cur + 8));
        flow := flow.(npc := i.m24);
      }
    }

    method ExecAdd16(i: Insn)
      requires Valid() && i.Add16?
      modifies `ps, `flow, r
      ensures Now() == ExecCau(old(Now()), i).0
    {
      hide Regs, Mem, Stores, C.Opval, U.AluStore, AluAdd;
      var a := Opval(i.rs3);
      AluStore(i.rd, AluAdd(a, Sext16(i.n), 0, !i.long));
    }

    method ExecMove(i: Insn) returns (st: Cau.Status)
      requires Valid() && (i.MoveDirect? || i.MoveIor? || i.MoveInd?)
      modifies `loop, `mode, `ctl, `flow, `ps, `pending, `dau, r, chip, ext
      ensures (Now(), st) == ExecCau(old(Now()), i)
    {
      hide Regs, Mem, Stores, U.ExecMoveDirect, U.ExecMoveIor, U.ExecMoveInd;
      st := Ok;
      if i.MoveDirect? {
        ExecMoveDirect(i);
      } else if i.MoveIor? {
        st := ExecMoveIor(i);
      } else {
        ExecMoveInd(i);
      }
    }

    method ExecArith(i: Insn)
      requires Valid() && (i.Add16? || i.AluReg? || i.AluImm? || i.ShiftOr?)
      modifies `ps, `flow, r
      ensures Now() == ExecCau(old(Now()), i).0
    {
      hide Regs, Mem, Stores, C.Opval, U.AluStore, AluAdd, U.ExecAluReg, U.ExecAluImm, C.Regw;
      if i.Add16? {
        ExecAdd16(i);
      } else if i.AluReg? {
        ExecAluReg(i);
      } else if i.AluImm? {
        ExecAluImm(i);
      } else {
        ExecShiftOr(i);
      }
    }

    method ExecTransfer(i: Insn)
      requires Valid()
      requires i.LoopGoto? || i.Call16? || i.Do? || i.Goto16? || i.Goto24? || i.Set24? || i.Call24?
      modifies `loop, `flow, r
      ensures Now() == ExecCau(old(Now()), i).0
    {
      hide Regs, Mem, Stores, C.Opval, C.Regw, Condition, U.ExecLoopGoto, U.ExecCall16, U.ExecDo;
      if i.LoopGoto? {
        ExecLoopGoto(i);
      } else if i.Call16? {
        ExecCall16(i);
      } else if i.Do? {
        ExecDo(i);
      } else if i.Goto16? {
        ExecGoto16(i);
      } else {
        ExecWide(i);
      }
    }

    method ExecCa(i: Insn) returns (st: Cau.Status)
      requires Valid() && !(i.Mac? || i.Special?)
      modifies `loop, `mode, `ctl, `flow, `ps, `pending, `dau, r, chip, ext
      ensures (Now(), st) == ExecCau(old(Now()), i)
    {
      st := Ok;
      CauStatus(Now(), i);
      hide Regs, Mem, Stores, C.TakeError, ExecCau;
      if i.Illegal? {
        var _ := TakeError(VEC_ILLOP);
      } else if i.MoveDirect? || i.MoveIor? || i.MoveInd? {
        st := ExecMove(i);
      } else if i.Add16? || i.AluReg? || i.AluImm? || i.ShiftOr? {
        ExecArith(i);
      } else if !i.MoveReserved? {
        ExecTransfer(i);
      }
    }

    // -------------------------------------------------------------------
    // The data arithmetic unit

    method Postmod(p: Pointer, i: U3, size: Size)
      requires Valid()
      modifies r
      ensures Now() == E.Postmod(old(Now()), p, i, size)
    {
      hide Mem, Stores;
      var base: int := r[p];
      if i == 6 {
        r[p] := Wrap(base - size);
      } else if i == 7 {
        r[p] := Wrap(base + size);
      } else if i != 0 {
        var step: int := r[14 + i];
        r[p] := Wrap(base + step);
      }
    }

    method ReadOperand(f: Field7, size: Size) returns (o: Option<Operand>)
      requires Valid()
      modifies `loop, `mode, `ctl, `flow, r
      ensures (Now(), o) == E.ReadOperand(old(Now()), f, size)
      ensures o.Some? ==> ValidOperand(o.value)
    {
      hide Mem, Stores, C.MemRead, E.Postmod, Pack;
      var p, i := f / 8, f % 8;
      if p == 0 || p == 15 {
        return Some(AccOperand(dau.acc[i % 4], Pack(dau.pipe[2][i % 4])));
      }
      var ea := r[p];
      var ok, raw := MemRead(ea, size, false);
      assert Now() == C.MemRead(old(Now()), ea, size, false).0;
      if !ok {
        return None;
      }
      Postmod(p, i, size);
      return Some(MemOperand(raw, ea, p));
    }

    method StoreZ(z: Field7, y: Operand, size: Size, val: word)
      requires Valid() && ValidOperand(y)
      modifies `loop, `mode, `ctl, `flow, r, wr, chip, ext
      ensures Now() == E.StoreZ(old(Now()), z, y, size, val)
    {
      hide Mem, Stores, C.ShadowedWrite, E.Postmod;
      var p, i := z / 8, z % 8;
      if p == 0 || (p == 15 && !y.MemOperand?) {
        return;
      }
      if p == 15 {
        var ok := ShadowedWrite(y.ea, size, val);
        if ok {
          Postmod(y.preg, i, size);
        }
      } else {
        var ok := ShadowedWrite(r[p], size, val);
        if ok {
          Postmod(p, i, size);
        }
      }
    }

    method PostmodOnly(z: Field7, y: Operand, size: Size)
      requires Valid() && ValidOperand(y)
      modifies r
      ensures Now() == E.PostmodOnly(old(Now()), z, y, size)
    {
      hide Mem, Stores, E.Postmod;
      var p, i := z / 8, z % 8;
      if p == 15 {
        if y.MemOperand? {
          Postmod(y.preg, i, size);
        }
      } else if p != 0 {
        Postmod(p, i, size);
      }
    }

    method SetDau(f: DauFlags)
      requires Valid()
      modifies `ps, `dau
      ensures Now() == E.SetDau(old(Now()), f)
    {
      hide Regs, Mem, Stores;
      ps := ps.(dau := f);
      dau := dau.(ctr := (dau.ctr * 2 + (if f.n then 1 else 0)) % 0x40);
    }

    method DaFlags(res: Acc, affectVU: bool) returns (out: Acc)
      requires Valid()
      modifies `ps, `dau, `loop, `mode, `ctl, `flow, r
      ensures (Now(), out) == E.DaFlags(old(Now()), res, affectVU)
    {
      hide Regs, Mem, Stores, E.SetDau, C.TakeError, RangeChecked;
      var (checked, f) := RangeChecked(res, affectVU);
      out := checked;
      SetDau(f);
      if f.v || f.u {
        var _ := TakeError(VEC_UV);
      }
    }

    method SetAcc(n: U2, a: Acc)
      requires Valid()
      modifies `dau
      ensures Now() == E.SetAcc(old(Now()), n, a)
    {
      hide Regs, Mem, Stores;
      dau := dau.(acc := dau.acc[n := a]);
    }

    /** The sum of a multiply-accumulate, operands read. */
    method Sum(i: Insn, x: Operand, y: Operand) returns (sum: Acc)
      requires Valid() && i.Mac?
      ensures sum == MacSum(Now(), i, x, y)
    {
      hide Regs, Mem, Stores, DauMul, DauAdd, AccNegate, Pack, Unpack, AdderInputOf, MultiplierInputOf;
      var adder, product;
      if i.fmt == 1 {
        adder := AdderInputOf(y);
        product := if i.mul == 4 then (0, 0)
                   else DauMul(if i.mul >= 5 then ONE_WORD else Pack(dau.pipe[2][i.mul]), MultiplierInputOf(x));
      } else {
        adder := if i.mul == 4 then ZERO_ACC else if i.mul == 5 then Unpack(ONE_WORD) else dau.acc[i.mul % 4];
        product := DauMul(MultiplierInputOf(y), MultiplierInputOf(x));
      }
      if i.fs {
        adder := AccNegate(adder);
      }
      sum := DauAdd(adder, if i.ss then -product.0 else product.0, product.1);
    }

    method ExecMac(i: Insn)
      requires Valid() && i.Mac?
      modifies `ps, `dau, `loop, `mode, `ctl, `flow, r, wr, chip, ext
      ensures Now() == E.ExecMac(old(Now()), i)
    {
      hide Regs, Mem, Stores, E.ReadOperand, MacSum, E.DaFlags, E.SetAcc, E.StoreZ, Pack, IsTap;
      var x := ReadOperand(i.x, 4);
      assert Now() == E.ReadOperand(old(Now()), i.x, 4).0;
      if x.None? {
        return;
      }
      ghost var c1 := Now();
      var y := ReadOperand(i.y, 4);
      assert Now() == E.ReadOperand(c1, i.y, 4).0;
      if y.None? {
        return;
      }
      var sum := Sum(i, x.value, y.value);
      var res := DaFlags(sum, true);
      SetAcc(i.an, res);
      var zbits := Pack(res);
      if IsTap(i) {
        zbits := if y.value.AccOperand? then Pack(dau.acc[i.y % 4]) else y.value.raw;
      }
      StoreZ(i.z, y.value, 4, zbits);
    }

    // Special functions

    /** The result of a flag-setting conversion and its packed word. */
    method Flagged(value: Acc, affectVU: bool) returns (res: Acc, zbits: word)
      requires Valid()
      modifies `ps, `dau, `loop, `mode, `ctl, `flow, r
      ensures SpecialOut(Now(), res, zbits, true) == WithFlags(old(Now()), value, affectVU)
    {
      hide Regs, Mem, Stores, E.DaFlags, Pack;
      res := DaFlags(value, affectVU);
      zbits := Pack(res);
    }

    method ExecIc(y: Operand) returns (res: Acc, zbits: word)
      requires Valid()
      modifies `ps, `dau, `loop, `mode, `ctl, `flow, r
      ensures SpecialOut(Now(), res, zbits, true) == E.ExecIc(old(Now()), y)
    {
      hide Regs, Mem, Stores, WithFlags, LaneInt, AccFromInt, Decode2x;
      var code := LaneInt(y, 24) % 0x100;
      var value: Acc;
      if dau.dauc / 4 % 2 == 1 {
        value := AccFromInt(code);
      } else {
        var twice := AccFromInt(Decode2x(code, dau.dauc % 2 == 1));
        value := if twice.e != 0 then twice.(e := twice.e - 1) else twice;
      }
      res, zbits := Flagged(value, false);
    }

    method ExecDsp(y: Operand) returns (res: Acc, zbits: word)
      requires Valid()
      modifies `ps, `dau, `loop, `mode, `ctl, `flow, r
      ensures SpecialOut(Now(), res, zbits, true) == E.ExecDsp(old(Now()), y)
    {
      hide Regs, Mem, Stores, WithFlags, AccFromIeee, PackedInput, Unpack, E.SetDau, C.TakeError;
      var iw := PackedInput(y);
      var negative := iw >= 0x8000_0000;
      var exp, mant := iw / 0x80_0000 % 0x100, iw % 0x80_0000;
      if exp == 255 {
        zbits := if negative then 0x8000_00FF else 0x7FFF_FFFF;
        res := Unpack(zbits);
        SetDau(DauFlags(negative, false, false, !negative || mant != 0));
        if mant != 0 {
          var _ := TakeError(VEC_NAN);
        }
      } else if exp == 0 {
        res, zbits := ZERO_ACC, 0;
        SetDau(DauFlags(false, true, mant != 0, false));
      } else {
        res, zbits := Flagged(AccFromIeee(iw), true);
      }
    }

    method ExecSeed(y: Operand) returns (res: Acc, zbits: word)
      requires Valid()
      modifies `ps, `dau, `loop, `mode, `ctl, `flow, r
      ensures SpecialOut(Now(), res, zbits, true) == E.ExecSeed(old(Now()), y)
    {
      hide Regs, Mem, Stores, WithFlags, SeedWord, PackedInput, Unpack;
      var yb := PackedInput(y);
      var packed;
      res, packed := Flagged(Unpack(SeedWord(yb)), false);
      if yb % 0x100 == 0xFF {
        ps := ps.(dau := ps.dau.(u := true));
      }
      zbits := SeedWord(yb);
    }

    method ExecIfa(g: U4, an: U2, z: Field7, y: Operand) returns (res: Acc, zbits: word, store: bool)
      requires Valid() && ValidOperand(y)
      modifies r
      ensures SpecialOut(Now(), res, zbits, store) == E.ExecIfa(old(Now()), g, an, z, y)
    {
      hide Regs, Mem, Stores, Pack, AdderInputOf, E.PostmodOnly;
      var f := ps.dau;
      var cond := if g == G_IFALT then f.n else if g == G_IFAEQ then f.z else !(f.n || f.z);
      res := if cond then AdderInputOf(y) else dau.acc[an];
      zbits := Pack(res);
      store := true;
      if !cond && dau.dauc / 64 % 2 == 1 {
        PostmodOnly(z, y, 4);
        store := false;
      }
    }

    /** Conversions that set no flags. */
    method ExecQuiet(g: U4, y: Operand) returns (res: Acc, zbits: word)
      requires Valid() && (g == G_OC || g == G_INT16 || g == G_INT32 || g == G_IEEE)
      ensures var out := if g == G_OC then E.ExecOc(Now(), y)
                         else if g == G_INT16 then E.ExecToInt(Now(), y, 16)
                         else if g == G_INT32 then E.ExecToInt(Now(), y, 32)
                         else SpecialOut(Now(), AdderInputOf(y), AccToIeee(AdderInputOf(y)), true);
              SpecialOut(Now(), res, zbits, true) == out
    {
      hide Regs, Mem, Stores, AdderInputOf, AccToInt, AccToIeee, CompandedEncode, IntLane;
      var a := AdderInputOf(y);
      if g == G_OC {
        var code: byte := if dau.dauc / 8 % 2 == 1 then AccToInt(a, dau.dauc, 8) % 0x100
                          else CompandedEncode(a, dau.dauc / 2 % 2 == 1);
        res, zbits := IntLane(Signed32(code * 0x100_0000), a), code;
      } else if g == G_INT16 {
        var iv := AccToInt(a, dau.dauc, 16);
        res, zbits := IntLane(Signed32(Wrap(iv * 0x1_0000)), a), iv % 0x1_0000;
      } else if g == G_INT32 {
        var iv := AccToInt(a, dau.dauc, 32);
        res, zbits := IntLane(Signed32(Wrap(iv)), a), Wrap(iv);
      } else {
        res, zbits := a, AccToIeee(a);
      }
    }

    method SpecialResult(i: Insn, y: Operand) returns (res: Acc, zbits: word, store: bool)
      requires Valid() && i.Special? && !ReservedG(i.g) && ValidOperand(y)
      modifies `ps, `dau, `loop, `mode, `ctl, `flow, r
      ensures SpecialOut(Now(), res, zbits, store) == E.SpecialResult(old(Now()), i, y)
    {
      hide Regs, Mem, Stores, WithFlags, E.ExecIc, E.ExecOc, E.ExecToInt, E.ExecIfa, E.ExecDsp, E.ExecSeed,
           AccFromInt, AccRound, AdderInputOf, AccToIeee, LaneInt;
      store := true;
      var g := i.g;
      if g == G_IC {
        res, zbits := ExecIc(y);
      } else if g == G_FLOAT16 {
        res, zbits := Flagged(AccFromInt(Signed16(LaneInt(y, 16))), false);
      } else if g == G_FLOAT32 {
        res, zbits := Flagged(AccFromInt(Signed32(Wrap(LaneInt(y, 0)))), false);
      } else if g == G_ROUND {
        res, zbits := Flagged(AccRound(AdderInputOf(y)), true);
      } else if g == G_IFALT || g == G_IFAEQ || g == G_IFAGT {
        res, zbits, store := ExecIfa(g, i.an, i.z, y);
      } else if g == G_DSP {
        res, zbits := ExecDsp(y);
      } else if g == G_SEED {
        res, zbits := ExecSeed(y);
      } else {
        res, zbits := ExecQuiet(g, y);
      }
    }

    method ExecSpecial(i: Insn)
      requires Valid() && i.Special?
      modifies `ps, `dau, `loop, `mode, `ctl, `flow, r, wr, chip, ext
      ensures Now() == E.ExecSpecial(old(Now()), i)
    {
      hide Regs, Mem, Stores, E.ReadOperand, E.SpecialResult, E.SetAcc, E.StoreZ;
      var y := ReadOperand(i.y, YSize(i.g));
      assert Now() == E.ReadOperand(old(Now()), i.y, YSize(i.g)).0;
      if y.None? || ReservedG(i.g) {
        return;
      }
      var res, zbits, store := SpecialResult(i, y.value);
      SetAcc(i.an, res);
      if store {
        StoreZ(i.z, y.value, ZSize(i.g), zbits);
      }
    }

    // -------------------------------------------------------------------
    // One slot of core time

    method Exec(i: Insn) returns (st: Cau.Status)
      requires Valid()
      modifies this, r, wr, chip, ext
      ensures (Snap(), st) == M.Exec(old(Snap()), i)
    {
      hide Regs, Mem, Stores, E.ExecMac, E.ExecSpecial, ExecCau, M.DoIreturn;
      st := Ok;
      if IsIreturn(i) {
        DoIreturn();
      } else if i.Mac? {
        ExecMac(i);
      } else if i.Special? {
        ExecSpecial(i);
      } else {
        st := ExecCa(i);
      }
    }

    /** The do-loop back edge. */
    method LoopBack(addr: word)
      requires Valid()
      modifies `loop, `flow
      ensures Now() == M.LoopBack(old(Now()), addr)
    {
      hide Regs, Mem, Stores;
      if loop.active && addr == loop.last {
        var left: int := loop.count as int - 1;
        loop := loop.(count := Wrap(left));
        if loop.count == 0 {
          loop := loop.(active := false);
        } else {
          flow := flow.(pc := loop.start, npc := Wrap(loop.start + 4));
        }
      }
    }

    /** Interrupts are recognised between instructions. */
    method Recognise()
      requires Valid()
      modifies `pending, `saved, `loop, `replay, `mode, `flow
      ensures Snap() == M.Recognise(old(Snap()))
    {
      hide Regs, Mem, Stores, M.TakeInterrupt, C.PendingVector;
      if !mode.intDefer && !replay.pending && mode.level == Base && flow.npc == Wrap(flow.pc + 4)
         && !(loop.active && loop.lock) {
        var vn := PendingVector();
        if vn != 0 {
          TakeInterrupt(vn);
        }
      }
      mode := mode.(intDefer := false);
    }

    /** The shadowed instruction is next; pc and npc already aim at pcsh. */
    method StartReplay()
      requires Valid()
      modifies `replay, `flow, `fetched, `dau, wr
      ensures ReplaySlot(old(Snap())).Runs? && Snap() == ReplaySlot(old(Snap())).s
    {
      hide Regs, Mem, Stores, C.LatencyTick, Decode;
      replay := replay.(pending := false);
      flow := flow.(cur := replay.addr);
      fetched := fetched.(addr := NO_PREFETCH);
      LatencyTick();
    }

    method ReplayShadowed() returns (st: Cau.Status)
      requires Valid()
      modifies this, r, wr, chip, ext
      ensures ReplaySlot(old(Snap())).Runs?
      ensures var n := ReplaySlot(old(Snap())); (Snap(), st) == Finish(n.s, n.insn, n.addr)
    {
      hide Regs, Mem, Stores, M.Exec, C.LatencyTick, M.LoopBack, Decode;
      var word, addr := replay.word, replay.addr;
      StartReplay();
      st := Exec(Decode(word));
      LoopBack(addr);
    }

    /** pc and npc advance and the next word is prefetched. */
    method Advance()
      requires Valid()
      modifies `flow, `dau, `fetched, wr
      ensures Snap() == Fetched(old(Snap()))
    {
      hide Regs, Mem, Stores, C.LatencyTick, C.RawRead;
      flow := flow.(pc := flow.npc, npc := Wrap(flow.npc + 4));
      LatencyTick();
      var ok, w := RawRead(flow.pc, 4);
      fetched := if ok then Prefetch(w, flow.pc) else fetched.(addr := NO_PREFETCH);
    }

    method FetchAndRun() returns (st: Cau.Status)
      requires Valid()
      modifies this, r, wr, chip, ext
      ensures FetchSlot(old(Snap())).Runs? || FetchSlot(old(Snap())).Faulted?
      ensures (Snap(), st) == match FetchSlot(old(Snap()))
                              case Runs(s, i, addr) => Finish(s, i, addr)
                              case Faulted(s) => (s, Ok)
                              case _ => (Snap(), st)
    {
      hide Regs, Mem, Stores, M.Exec, C.MemRead, M.LoopBack, Decode, Fetched;
      var addr := flow.pc;
      flow := flow.(cur := addr);
      ghost var c := Now();
      var ok, w := MemRead(addr, 4, true);
      assert Now() == C.MemRead(c, addr, 4, true).0;
      if !ok {
        return Ok;
      }
      Advance();
      st := Exec(Decode(w));
      LoopBack(addr);
    }

    /** The host asks for an interrupt on vectors 8 to 15. */
    method RequestInterrupt(vector: int)
      requires Valid()
      modifies `pending
      ensures Snap() == Request(old(Snap()), {vector})
    {
      hide Regs, Mem, Stores;
      ghost var one: set<int> := {vector};
      if 8 <= vector <= 15 {
        pending := pending + {vector};
        assert (set v | v in one && 8 <= v <= 15) == one;
      } else {
        assert (set v | v in one && 8 <= v <= 15) == {};
      }
    }

    /** One step of the machine. */
    method Step() returns (st: Cau.Status)
      requires Valid()
      modifies this, r, wr, chip, ext
      ensures (Snap(), st) == M.Step(old(Snap()))
    {
      hide Regs, Mem, Stores, FetchSlot, ReplaySlot, Finish, M.Recognise, C.PinTick, C.LatencyTick, C.PendingVector;
      if mode.level == DoubleError {
        return DoubleErrorHalt;
      }
      PinTick();
      if mode.waiting {
        var vn := PendingVector();
        if vn == 0 {
          LatencyTick();
          return Status.Waiting;
        }
        mode := mode.(waiting := false, intDefer := true);
      }
      Recognise();
      if replay.pending {
        st := ReplayShadowed();
      } else {
        st := FetchAndRun();
      }
    }
  }

  lemma LayerStep(sh: Shadow, age: int, e: nat, a: word, b: byte)
    requires e < 4
    ensures Layer(sh, age, e, a, b)
            == Layer(sh, age, e + 1, a, if Covers(sh[e], age, a) then sh[e].bytes[Wrap(a - sh[e].addr)] else b)
  {
  }
}
