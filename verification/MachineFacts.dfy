/** The step machine at its edges: errors of accesses and results, sleep and halt,
    pins, prefetch, returns and reset. */
module MachineFacts {
  import opened Words
  import opened Dau
  import opened Insn
  import opened Core
  import opened Cau
  import opened DauExec
  import opened Machine
  import opened Interrupts
  import opened Modes
  import opened ExceptionFacts
  import Frames
  import Stores
  import Branching
  import T = Targets

  // ---------------------------------------------------------------------
  // Errors

  /** An exception of this vector is dispatched: not at error level, and not masked. */
  predicate Raises(c: Core, vn: nat) {
    (c.level == Base || c.level == Interrupt) && (vn < 4 || Bit(c.emr, vn))
  }

  lemma RaisesDispatched(c: Core, vn: nat)
    ensures Raises(c, vn) ==> Dispatched(c, TakeError(c, vn).0, vn) && TakeError(c, vn).1
    ensures vn >= 4 && !Bit(c.emr, vn) ==> TakeError(c, vn) == (c, false)
  {
    ErrorMeans(c, vn);
    hide TakeError, Dispatched, Bit;
  }

  /** A misaligned access raises vector 4 if that is unmasked, else goes to the
      aligned address; an unmapped one raises vector 1. */
  lemma AccessErrors(c: Core, addr: word, size: Size, fetch: bool, val: word)
    requires c.level == Base || c.level == Interrupt
    ensures var a: word := addr - addr % size;
            var (d, v) := MemRead(c, addr, size, fetch);
            var (e, ok) := MemWrite(c, addr, size, val);
            if addr != a && Bit(c.emr, 4) then v.None? && Dispatched(c, d, 4) && !ok && Dispatched(c, e, 4)
            else
              && (v.Some? <==> RawRead(c, a, size).Some?)
              && (v.None? ==> Dispatched(c, d, 1)) && (v.Some? ==> d == c)
              && (ok ==> e == c.(mem := e.mem)) && (!ok ==> Dispatched(c.(mem := e.mem), e, 1))
  {
    ReadFails(c, addr, size, fetch);
    WriteFails(c, addr, size, val);
    hide *;
  }

  lemma ReadFails(c: Core, addr: word, size: Size, fetch: bool)
    requires c.level == Base || c.level == Interrupt
    ensures var a: word := addr - addr % size;
            var (d, v) := MemRead(c, addr, size, fetch);
            if addr != a && Bit(c.emr, 4) then v.None? && Dispatched(c, d, 4)
            else (v.Some? <==> RawRead(c, a, size).Some?) && (v.None? ==> Dispatched(c, d, 1)) && (v.Some? ==> d == c)
  {
    RaisesDispatched(c, 4);
    RaisesDispatched(c, 1);
    ReadErrors(c, addr, size, fetch);
    Unhidden(c);
    hide *;
  }

  lemma Unhidden(c: Core)
    ensures Raises(c, 1) == (c.level == Base || c.level == Interrupt)
    ensures Raises(c, 4) == ((c.level == Base || c.level == Interrupt) && Bit(c.emr, 4))
  {
  }

  lemma WriteFails(c: Core, addr: word, size: Size, val: word)
    requires c.level == Base || c.level == Interrupt
    ensures var a: word := addr - addr % size;
            var (e, ok) := MemWrite(c, addr, size, val);
            if addr != a && Bit(c.emr, 4) then !ok && Dispatched(c, e, 4)
            else (ok ==> e == c.(mem := e.mem)) && (!ok ==> Dispatched(c.(mem := e.mem), e, 1))
  {
    RaisesDispatched(c, 4);
    Unhidden(c);
    WriteErrors(c, addr, size, val);
    if !(addr % size != 0 && Bit(c.emr, 4)) { WriteBehind(c, addr, size, val); }
    hide *;
  }

  lemma WriteBehind(c: Core, addr: word, size: Size, val: word)
    requires c.level == Base || c.level == Interrupt
    requires CheckAligned(c, addr, size) == (c, false)
    ensures var (e, ok) := MemWrite(c, addr, size, val);
            (ok ==> e == c.(mem := e.mem)) && (!ok ==> Dispatched(c.(mem := e.mem), e, 1))
  {
    var m := WriteBytes(c.mem, Computer(c), AlignDown(addr, size), Split(val, size, BigEndian(c))).0;
    var at := c.(mem := m);
    var (e, ok) := MemWrite(c, addr, size, val);
    assert e == if ok then at else TakeError(at, 1).0 by { hide TakeError, WriteBytes, Split; }
    RaisesDispatched(at, 1);
    Unhidden(at);
    if !ok { DispatchedKeepsMem(at, e, 1); }
    hide *;
  }

  lemma DispatchedKeepsMem(c: Core, d: Core, vn: nat)
    requires Dispatched(c, d, vn)
    ensures d.mem == c.mem
  {
    hide Bit, VectorAddress;
  }

  lemma ReadErrors(c: Core, addr: word, size: Size, fetch: bool)
    ensures var a: word := addr - addr % size;
            var (d, v) := MemRead(c, addr, size, fetch);
            if addr % size != 0 && TakeError(c, 4).1 then v.None? && d == TakeError(c, 4).0
            else
              var b := if addr % size != 0 then TakeError(c, 4).0 else c;
              (v.Some? <==> RawRead(b, a, size).Some?) && d == if v.Some? then b else TakeError(b, 1).0
  {
    AlignedAt(addr, size);
    hide TakeError, ReadBytes, JoinWord, Overlaid, Bit;
  }

  lemma AlignedAt(addr: word, size: Size)
    ensures (addr - addr % size) % size == 0
  {
  }

  lemma WriteErrors(c: Core, addr: word, size: Size, val: word)
    ensures addr % size != 0 && TakeError(c, 4).1 ==> MemWrite(c, addr, size, val) == (TakeError(c, 4).0, false)
    ensures CheckAligned(c, addr, size) == if addr % size != 0 then TakeError(c, 4) else (c, false)
  {
    hide TakeError, WriteBytes, Split;
  }

  /** An overflow or underflow raises vector 5 if unmasked, after the flags. */
  lemma RangeErrors(c: Core, res: Acc, affectVU: bool)
    ensures var (r, f) := RangeChecked(res, affectVU);
            var d := DaFlags(c, res, affectVU).0;
            && (!f.v && !f.u ==> d == SetDau(c, f))
            && ((f.v || f.u) && !Bit(c.emr, 5) ==> d == SetDau(c, f))
            && ((f.v || f.u) && Raises(c, 5) ==> Dispatched(SetDau(c, f), d, 5))
  {
    var (r, f) := RangeChecked(res, affectVU);
    RaisesDispatched(SetDau(c, f), 5);
    hide TakeError, Dispatched, Bit, RangeChecked;
  }

  /** An illegal instruction raises vector 2, a NaN given to dsp vector 6. */
  lemma OtherErrors(c: Core, i: Insn, y: Operand)
    requires c.level == Base || c.level == Interrupt
    ensures i.Illegal? ==> Dispatched(c, ExecCore(c, i).0, 2)
    ensures Nan(y) && Raises(c, 6) ==> exists f: DauFlags :: Dispatched(SetDau(c, f), ExecDsp(c, y).c, 6)
  {
    IllegalTraps(c, i);
    if Nan(y) && Raises(c, 6) { NanTraps(c, y); }
    hide ExecCore, TakeError, Dispatched, Bit, PackedInput, ExecDsp, SetDau, Raises;
  }

  predicate Nan(y: Operand) {
    var w := PackedInput(y);
    w / 0x80_0000 % 0x100 == 255 && w % 0x80_0000 != 0
  }

  lemma IllegalTraps(c: Core, i: Insn)
    requires c.level == Base || c.level == Interrupt
    ensures i.Illegal? ==> Dispatched(c, ExecCore(c, i).0, 2)
  {
    RaisesDispatched(c, 2);
    if i.Illegal? { ExecutedIllegal(c, i); }
    assert Raises(c, 2);
    hide *;
  }

  lemma ExecutedIllegal(c: Core, i: Insn)
    requires i.Illegal?
    ensures ExecCore(c, i).0 == TakeError(c, 2).0
  {
    hide TakeError;
  }

  lemma NanTraps(c: Core, y: Operand)
    requires Nan(y) && Raises(c, 6)
    ensures exists f: DauFlags :: Dispatched(SetDau(c, f), ExecDsp(c, y).c, 6)
  {
    var w := PackedInput(y);
    var f := DauFlags(w >= 0x8000_0000, false, false, w < 0x8000_0000 || w % 0x80_0000 != 0);
    RaisesDispatched(SetDau(c, f), 6);
    assert Raises(SetDau(c, f), 6) by { hide Bit; }
    assert ExecDsp(c, y).c == TakeError(SetDau(c, f), 6).0 by {
      hide TakeError, PackedInput, Unpack, WithFlags, AccFromIeee, SetDau;
    }
    hide *;
  }

  // ---------------------------------------------------------------------
  // Sleep, halt, pins

  /** A double error stops the machine; a sleeper without an enabled request lets
      time pass and nothing else. */
  lemma IdleMeans(s: State)
    ensures s.c.level == DoubleError ==> Step(s) == (s, DoubleErrorHalt)
    ensures s.c.level != DoubleError && s.c.waiting && PendingVector(PinTick(s.c)) == 0 ==>
              Step(s) == (s.(c := LatencyTick(PinTick(s.c))), Status.Waiting)
  {
    hide PendingFrom, Aged, FetchSlot;
  }

  /** A sleeper with an enabled request wakes and first executes its next
      instruction; the interrupt is for the slot after. */
  lemma WakeMeans(s: State)
    requires s.c.level != DoubleError && s.c.waiting && PendingVector(PinTick(s.c)) != 0
    ensures NextSlot(s) == ExecuteSlot(s.(c := PinTick(s.c).(waiting := false, intDefer := false)))
  {
    hide PendingFrom, ExecuteSlot;
  }

  /** A host raises the requests of vectors 8 to 15 and changes nothing else. */
  lemma RequestMeans(s: State, vns: set<int>)
    ensures var t := Request(s, vns);
            && (forall v :: v in t.c.pending <==> v in s.c.pending || (v in vns && 8 <= v < 16))
            && t == s.(c := s.c.(pending := t.c.pending))
  {
  }

  function Ticks(c: Core, n: nat): Core {
    if n == 0 then c else PinTick(Ticks(c, n - 1))
  }

  /** A pin reads low for exactly as many slots as its counter says. */
  lemma {:induction false} PulseMeans(c: Core, n: nat)
    ensures var d := Ticks(c, n);
            && d.pulse0 == (if c.pulse0 > n then c.pulse0 - n else 0) && d.pulse1 == (if c.pulse1 > n then c.pulse1 - n else 0)
            && (n > 0 ==> d.ps.io.ir0 == (c.pulse0 < n) && d.ps.io.ir1 == (c.pulse1 < n))
            && d == c.(pulse0 := d.pulse0, pulse1 := d.pulse1, ps := c.ps.(io := c.ps.io.(ir0 := d.ps.io.ir0, ir1 := d.ps.io.ir1)))
  {
    if n > 0 { PulseMeans(c, n - 1); }
  }

  // ---------------------------------------------------------------------
  // Prefetch and return

  /** While an instruction executes the word behind it is prefetched, under the map
      and from the memory before its effects. */
  lemma PrefetchMeans(s: State)
    requires FetchSlot(s).Runs?
    ensures var n := FetchSlot(s).s;
            match RawRead(n.c, n.c.pc, 4)
            case Some(w) => n.h.prefetchAddr == n.c.pc && n.h.prefetch == w
            case None => n.h.prefetchAddr == NO_PREFETCH
  {
    hide MemRead, RawRead, Decode, LatencyTick;
  }

  /** An instruction that is fetched and followed by an interrupt has its successor
      shadowed as memory had it before, even if it stored over it. */
  lemma ShadowIsPrefetched(s: State, w: word)
    requires FetchSlot(s).Runs? && !IsIreturn(FetchSlot(s).insn)
    requires var n := FetchSlot(s);
             RawRead(n.s.c, n.s.c.pc, 4) == Some(w) && T.After(n).c.pc == n.s.c.pc
    ensures ShadowedInstruction(T.After(FetchSlot(s))) == w
  {
    PrefetchMeans(s);
    var n := FetchSlot(s);
    FinishKeepsHidden(n.s, n.insn, n.addr);
    hide FetchSlot, RawRead, Finish;
  }

  /** ireturn: at interrupt level the saved context and base level come back; at any
      level fetching resumes at pcsh, after the shadowed instruction. */
  lemma ReturnMeans(s: State)
    ensures var d := Exec(s, Goto16(1, 30, 0)).0;
            && d.c.pc == s.c.pcsh && d.c.npc == (s.c.pcsh + 4) % 0x1_0000_0000 && d.h == s.h.(irshPending := true)
            && d.c.r == s.c.r && d.c.mem == s.c.mem && d.c.emr == s.c.emr && d.c.pcw == s.c.pcw && d.c.shadow == s.c.shadow
            && (s.c.level == Interrupt ==>
                  d.c.level == Base && d.c.ps == s.h.saved.ps && d.c.acc == s.h.saved.acc && d.c.pipe == s.h.saved.pipe
                  && d.c.flagPipe == s.h.saved.flagPipe && d.c.loop == s.h.saved.loop
                  && d.c.dauc == s.h.saved.dauc && d.c.ctr == s.h.saved.ctr)
            && (s.c.level != Interrupt ==> d.c == s.c.(pc := d.c.pc, npc := d.c.npc))
  {
  }

  // ---------------------------------------------------------------------
  // Reset

  /** Out of reset: base level at address 0, big-endian in the processor map, pcw
      unlocked, no request and no exception enabled, registers 0, the input buffer
      and the output buffer empty, both interrupt pins idle. */
  lemma ResetMeans(ext: ExtBytes)
    ensures var s := Reset(ext);
            && s.c.pc == 0 && s.c.npc == 4 && s.c.level == Base && s.c.pcw == 0x38F && !s.c.pcwLocked && s.c.emr == 0
            && Bit(s.c.pcw, 8) && !Bit(s.c.pcw, 10) && s.c.pending == {} && !s.c.waiting && !s.c.loop.active
            && (forall k :: 0 <= k < 23 ==> s.c.r[k] == 0)
            && PsWord(s.c.ps) == 0x3200 && s.c.dauc == 0 && s.c.ctr == 0 && s.c.mem.ext == ext
            && !s.h.irshPending && s.h.prefetchAddr % 4 != 0
  {
    assert Pow2(8) == 0x100 && Pow2(10) == 0x400;
  }
}
