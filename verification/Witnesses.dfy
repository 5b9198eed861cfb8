/** A small program that meets the premises of the run theorems, and states at
    which the exceptions to them show. */
module Witnesses {
  import opened Words
  import opened Insn
  import opened Core
  import opened Cau
  import opened DauExec
  import opened Machine
  import opened Modes
  import opened PcshFree
  import opened Interrupts
  import Fetching
  import DoLoops
  import Targets
  import D = Dis
  import S = Syntax
  import Canonical
  import CanonMeaning

  // ---------------------------------------------------------------------
  // A program: nop everywhere but an ireturn at the entry of vector 8 and a
  // branch at 0x20 to the address behind its delay slot

  function ProgramByte(i: nat): byte {
    if i == 0x41 then 0x3E
    else if i == 0x21 then 0x20 else if i == 0x23 then 0x28
    else if i % 4 == 0 then 0x80 else 0
  }

  function Program(): ExtBytes {
    seq(0x50, i requires 0 <= i < 0x50 => ProgramByte(i))
  }

  function InsnAt(a: nat): Insn {
    if a == 0x40 then Goto16(1, PCSH, 0)
    else if a == 0x20 then Goto16(1, R0, 0x28)
    else Goto16(0, R0, 0)
  }

  /** Processor map, big-endian bytes, the program in external memory. */
  predicate Loaded(c: Core) {
    c.mem.ext == Program() && !Computer(c) && BigEndian(c)
  }

  lemma ProgramAt(c: Core, a: word)
    requires Loaded(c) && a < 0x50
    ensures ByteAt(c.mem, Computer(c), a) == Some(ProgramByte(a))
  {
    hide Bit;
    assert Wrap(a - 0x5003_0000) == a + 0xAFFD_0000;
  }

  lemma ProgramHolds(c: Core, a: word)
    requires Loaded(c) && a % 4 == 0 && a < 0x50
    ensures Fetching.HoldsWord(c, a, Encode(InsnAt(a)))
  {
    hide Bit, ByteAt, Program;
    ProgramAt(c, a);
    ProgramAt(c, a + 1);
    ProgramAt(c, a + 2);
    ProgramAt(c, a + 3);
    ProgramWord(a);
    assert Wrap(a + 1) == a + 1 && Wrap(a + 2) == a + 2 && Wrap(a + 3) == a + 3;
    hide ProgramByte, Encode, InsnAt;
  }

  lemma ReadFour(c: Core, a: word)
    requires Loaded(c) && a % 4 == 0 && a < 0x50
    ensures RawRead(c, a, 4) == Some(Encode(InsnAt(a)))
    ensures ReadBytes(c.mem, Computer(c), a, 4).Some?
  {
    ProgramHolds(c, a);
    Fetching.WordRead(c, a, Encode(InsnAt(a)));
    hide ReadBytes, JoinWord, Encode, InsnAt, Fetching.HoldsWord;
  }

  lemma ProgramWord(a: nat)
    requires a % 4 == 0 && a < 0x50
    ensures Encode(InsnAt(a)) == ProgramByte(a) * 0x100_0000 + ProgramByte(a + 1) * 0x1_0000
                                 + ProgramByte(a + 2) * 0x100 + ProgramByte(a + 3)
  {
  }

  lemma FetchSlotRuns(s: State)
    requires Loaded(s.c) && s.c.pc % 4 == 0 && s.c.pc < 0x50
    ensures FetchSlot(s) == Runs(Fetched(s.(c := s.c.(curInsn := s.c.pc))), InsnAt(s.c.pc), s.c.pc)
  {
    ProgramHolds(s.c, s.c.pc);
    DecodeEncode(InsnAt(s.c.pc));
    hide *;
    Fetching.FetchRuns(s, Encode(InsnAt(s.c.pc)));
  }

  // ---------------------------------------------------------------------
  // Interrupts

  /** Vector 8 is requested and enabled before the nop at 0. */
  predicate Requested(s: State) {
    && Loaded(s.c) && s.c.pc == 0 && s.c.npc == 4 && s.c.r[22] == 0 && s.c.level == Base
    && s.c.pending == {8} && Bit(s.c.emr, 8) && !s.c.waiting && !s.c.intDefer
    && !s.c.loop.lock && s.c.loop.last < 0x40 && !s.h.irshPending && s.h.prefetchAddr == NO_PREFETCH
  }

  lemma EntryTaken(s: State)
    requires Requested(s)
    ensures Interrupted(s) && Vector(s) == 8
    ensures var p := s.(c := PinTick(s.c));
            Recognise(p) == TakeInterrupt(p, 8).(c := TakeInterrupt(p, 8).c.(intDefer := false))
  {
    hide Bit, ShadowedInstruction, Program;
    var p := PinTick(s.c);
    assert PendingFrom(p, 8) == 8;
  }

  lemma EntryState(s: State)
    requires Requested(s)
    ensures var e := Recognise(s.(c := PinTick(s.c)));
            Loaded(e.c) && e.c.pc == 0x40 && e.c.level == Interrupt && !e.h.irshPending
            && e.c == s.c.(ps := e.c.ps, pulse0 := e.c.pulse0, pulse1 := e.c.pulse1, pending := {}, pcsh := 4,
                           loop := e.c.loop, level := Interrupt, pc := 0x40, npc := 0x44)
  {
    EntryTaken(s);
    var p := s.(c := PinTick(s.c));
    var e := Recognise(p);
    assert e.c == TakeInterrupt(p, 8).c.(intDefer := false) && e.h.irshPending == p.h.irshPending;
    hide Bit, Program, ShadowedInstruction, Recognise, PendingVector, Interrupted;
  }

  lemma FetchedKeeps(s: State)
    ensures var d := Fetched(s).c;
            d == s.c.(pc := d.pc, npc := d.npc, pipe := d.pipe, flagPipe := d.flagPipe, shadow := d.shadow)
    ensures s.c.shadow == [Free, Free, Free, Free] ==> Fetched(s).c.shadow == s.c.shadow
  {
    hide RawRead;
  }

  /** The handler's only instruction is its ireturn. */
  lemma HandlerIsIreturn(s: State)
    requires Requested(s)
    ensures var e := Recognise(s.(c := PinTick(s.c)));
            HandlerSlot(s, []) == Runs(Fetched(e.(c := e.c.(curInsn := 0x40))), Goto16(1, PCSH, 0), 0x40)
  {
    EntryTaken(s);
    var e := Recognise(s.(c := PinTick(s.c)));
    EntryState(s);
    FetchSlotRuns(e);
    hide Bit, Program, Recognise, Fetched, FetchSlot, Interrupted;
    assert NextSlot(s) == FetchSlot(e);
  }

  lemma HandlerReturns(s: State)
    requires Requested(s)
    ensures ReturningHandler(s, [])
  {
    HandlerIsIreturn(s);
    EntryTaken(s);
    EntryState(s);
    var e := Recognise(s.(c := PinTick(s.c)));
    FetchedKeeps(e.(c := e.c.(curInsn := 0x40)));
    IreturnReturns();
    hide *;
    ReturningFrom(s, HandlerSlot(s, []));
  }

  lemma ReturningFrom(s: State, h: Slot)
    requires h == HandlerSlot(s, []) && Interrupted(s) && h.Runs? && IsIreturn(h.insn) && h.addr == 0x40
    requires h.s.c.pcsh == 4 && s.c.pc == 0 && s.c.loop.last < 0x40
    ensures ReturningHandler(s, [])
  {
    hide HandlerSlot, Interrupted, IsIreturn;
  }

  lemma IreturnReturns()
    ensures IsIreturn(Goto16(1, PCSH, 0))
  {
  }

  lemma ShadowedNop(s: State)
    requires Requested(s)
    ensures Decode(ShadowedInstruction(s.(c := PinTick(s.c)))) == Goto16(0, R0, 0)
  {
    var p := s.(c := PinTick(s.c));
    assert Loaded(p.c) by { hide Bit, Program; }
    ReadFour(p.c, 0);
    DecodeEncode(InsnAt(0));
    hide RawRead, Decode, Encode, Bit, Program;
  }

  /** The state after reset with vector 8 enabled and requested. */
  function AtInterrupt(): State {
    var s := Reset(Program());
    s.(c := s.c.(emr := 0x100, pending := {8}))
  }

  lemma AtInterruptRequested()
    ensures Requested(AtInterrupt())
  {
    assert Pow2(10) == 0x400 && Pow2(8) == 0x100;
  }

  lemma BoundaryLoaded(s: State)
    requires Requested(s)
    ensures Loaded(Boundary(s)) && Boundary(s).pc == 0
  {
    hide Bit, Program, PendingFrom;
  }

  /** A one-instruction handler meets every premise of transparency. */
  lemma TidyHandlerExists()
    ensures TidyHandler(AtInterrupt(), [])
  {
    var s := AtInterrupt();
    assert s.c.pulse0 == 0 && s.c.pulse1 == 0 && ShadowEmpty(s.c) && LockMatches(s.c) && s.c.pcw == 0x38F;
    AtInterruptRequested();
    HandlerReturns(s);
    hide AtInterrupt, Requested;
    TidyReturn(s);
    TidyReplay(s);
    hide *;
    TidyFrom(s);
  }

  lemma TidyReturn(s: State)
    requires Requested(s) && s.c.pulse0 == 0 && s.c.pulse1 == 0 && ShadowEmpty(s.c)
    ensures HandlerSlot(s, []).Runs? && LeftAlone(Boundary(s), HandlerSlot(s, []).s.c)
  {
    HandlerIsIreturn(s);
    EntryState(s);
    var e := Recognise(s.(c := PinTick(s.c)));
    FetchedKeeps(e.(c := e.c.(curInsn := 0x40)));
    TickedPulses(s);
    hide Bit, Program, Recognise, Fetched, HandlerSlot, PendingFrom;
  }

  lemma TickedPulses(s: State)
    requires Requested(s) && s.c.pulse0 == 0 && s.c.pulse1 == 0
    ensures var e := Recognise(s.(c := PinTick(s.c))); e.c.pulse0 == 0 && e.c.pulse1 == 0
  {
    hide Bit, Program, PendingFrom, ShadowedInstruction;
  }

  lemma TidyReplay(s: State)
    requires Requested(s)
    ensures HandlerSlot(s, []).Runs? && ReplayFaithful(s, HandlerSlot(s, []).s.c)
  {
    hide *;
    HandlerIsIreturn(s);
    BoundaryLoaded(s);
    FetchSlotRuns(s.(c := Boundary(s)));
    ShadowedNop(s);
    NopReadsNothing();
    ReplayFrom(s, HandlerSlot(s, []).s.c);
  }

  lemma ReplayFrom(s: State, h: Core)
    requires var f := FetchSlot(s.(c := Boundary(s))); f.Runs? && f.insn == Goto16(0, R0, 0)
    requires Decode(ShadowedInstruction(s.(c := PinTick(s.c)))) == Goto16(0, R0, 0)
    requires !ReadsPcsh(Goto16(0, R0, 0)) && !IsWaiti(Goto16(0, R0, 0))
    ensures ReplayFaithful(s, h)
  {
    hide FetchSlot, Boundary, Decode, ShadowedInstruction, PinTick, ReadsPcsh, IsWaiti;
  }

  lemma NopReadsNothing()
    ensures var i := InsnAt(0); i == Goto16(0, R0, 0) && !ReadsPcsh(i) && !IsWaiti(i)
  {
  }

  lemma TidyFrom(s: State)
    requires ReturningHandler(s, []) && LockMatches(s.c)
    requires s.c.pulse0 == 0 && s.c.pulse1 == 0 && ShadowEmpty(s.c)
    requires LeftAlone(Boundary(s), HandlerSlot(s, []).s.c) && ReplayFaithful(s, HandlerSlot(s, []).s.c)
    ensures TidyHandler(s, [])
  {
    hide Interrupted, HandlerSlot, LeftAlone, ReplayFaithful, IsIreturn, ReturningHandler, LockMatches;
  }

  // ---------------------------------------------------------------------
  // Do-loops

  /** A one-instruction loop with two rounds left, a store of the last slot still
      in the shadow. */
  function InsideLoop(): State {
    var s := Reset(Program());
    s.(c := s.c.(emr := 0x100, loop := Loop(true, false, 0, 0, 2),
                 shadow := [Live(0x5003_0000, 4, 3, [1, 2, 3, 4]), Free, Free, Free]))
  }

  lemma InsideLoopRequested()
    ensures Requested(Request(InsideLoop(), {8}))
  {
    assert Pow2(10) == 0x400 && Pow2(8) == 0x100;
  }

  /** A body step during which an interrupt is requested, taken, handled and
      returned from, the store shadow live. */
  lemma InterruptedBodyStepExists()
    ensures HandlerSlot(Request(InsideLoop(), {8}), []).Runs?
    ensures DoLoops.BodyStep(InsideLoop(), AfterReturn(Request(InsideLoop(), {8}), []).0)
  {
    var s := Request(InsideLoop(), {8});
    InsideLoopRequested();
    HandlerReturns(s);
    ShadowedNop(s);
    hide Requested, InsideLoop, ReturningHandler, HandlerSlot, Request;
    ReturnReplays(s, []);
    HandlerModes(s, []);
    var n := ReturnSlot(s, []);
    hide ReturnSlot, Decode, ShadowedInstruction, Save;
    NopIsStraight(n.s.c);
    ReplayAwake(HandlerSlot(s, []).s.c, Save(PinTick(s.c)), s.c.pc);
    DoLoops.InterruptedBodyStep(InsideLoop(), {8}, []);
  }

  lemma NopIsStraight(c: Core)
    ensures !c.waiting ==> DoLoops.Straight(c, Goto16(0, R0, 0))
  {
    assert !CondHolds(c, 0);
    hide CondHolds, Opval;
  }

  lemma ReplayAwake(h: Core, saved: Saved, addr: word)
    ensures ReplayCore(h, saved, addr).waiting == h.waiting
  {
    hide Aged;
  }

  // ---------------------------------------------------------------------
  // Delay slots

  /** At the branch, vector 8 enabled. */
  function AtBranch(): State {
    var s := Reset(Program());
    s.(c := s.c.(emr := 0x100, pc := 0x20, npc := 0x24))
  }

  lemma AtBranchRuns()
    ensures var s := AtBranch();
            && NextSlot(s).Runs? && RunsAt(s, NextSlot(s))
            && NextSlot(s).insn == Goto16(1, R0, 0x28) && NextSlot(s).addr == 0x20
            && NextSlot(s).s.c.emr == 0x100
  {
    var s := AtBranch();
    assert Pow2(10) == 0x400 && Pow2(8) == 0x100;
    var p := PinTick(s.c);
    assert p.pending == {} && PendingFrom(p, 8) == 0 by { NothingPending(p, 8); }
    var t := s.(c := p.(intDefer := false));
    assert Recognise(s.(c := p)) == t;
    assert Loaded(t.c) && t.c.pc == 0x20 && t.c.emr == 0x100;
    assert !Interrupted(s) && !s.h.irshPending && NextSlot(s) == FetchSlot(t);
    hide *;
    FetchSlotRuns(t);
    FetchedKeeps(t.(c := t.c.(curInsn := t.c.pc)));
    PlainRunsAt(s);
    assert InsnAt(0x20) == Goto16(1, R0, 0x28) by { InsnAtBranch(); }
  }

  lemma InsnAtBranch()
    ensures InsnAt(0x20) == Goto16(1, R0, 0x28)
  {
  }

  lemma PlainRunsAt(s: State)
    requires !Interrupted(s) && !s.h.irshPending && NextSlot(s).Runs?
    ensures RunsAt(s, NextSlot(s))
  {
    hide NextSlot, Interrupted;
  }

  lemma NothingPending(c: Core, vn: nat)
    requires 8 <= vn <= 16 && c.pending == {}
    ensures PendingFrom(c, vn) == 0
    decreases 16 - vn
  {
    hide Bit;
    if vn < 16 { NothingPending(c, vn + 1); }
  }

  /** A branch to the address behind its delay slot does not protect the slot:
      here an interrupt is taken between the two. */
  lemma SlotNotAlwaysProtected()
    ensures var s := AtBranch();
            && NextSlot(s).Runs? && RunsAt(s, NextSlot(s)) && Targets.BranchesTo(NextSlot(s), 0x28)
            && Interrupted(Request(Targets.After(NextSlot(s)), {8}))
  {
    var s := AtBranch();
    AtBranchRuns();
    var n := NextSlot(s);
    assert Targets.BranchesTo(n, 0x28) by {
      BranchTaken(n.s.c);
      assert !n.s.c.loop.active by { hide NextSlot, RunsAt; RunsInPlace(s, n); }
      hide NextSlot, D.DisInsn, Targets.TakenIn;
    }
    assert s.c.npc == 0x24 && s.c.level == Base && !s.c.loop.active;
    assert PendingVector(Request(n.s, {8}).c) == 8 by {
      hide NextSlot, Bit;
      assert 8 in Request(n.s, {8}).c.pending;
      EnabledEight(Request(n.s, {8}).c);
    }
    hide *;
    Targets.SlotInterruptedIff(s, n, 0x28, {8});
    assert Wrap(0x24 + 4) == 0x28 by { SmallWrap(); }
  }

  lemma SmallWrap()
    ensures Wrap(0x24 + 4) == 0x28
  {
  }

  lemma EnabledEight(c: Core)
    requires c.emr == 0x100 && 8 in c.pending
    ensures PendingFrom(c, 8) == 8
  {
    assert Pow2(8) == 0x100;
  }

  lemma BranchTaken(c: Core)
    ensures Targets.TakenIn(c, Goto16(1, R0, 0x28))
    ensures D.DisInsn(Goto16(1, R0, 0x28), 0x20).isBranch
            && D.DisInsn(Goto16(1, R0, 0x28), 0x20).target == S.Some(0x28)
  {
  }

  // ---------------------------------------------------------------------
  // A shared pointer

  /** `*r1 = a0 = *r1++`: re-assembled, it stores where Y was read. */
  function SharedPointer(): Insn {
    Mac(1, 4, false, false, 0, 0, 15, 8)
  }

  /** From reset, the word and its re-assembled form end in different states. */
  lemma SharedPointerDiffers()
    ensures Encodable(SharedPointer()) && D.Printable(SharedPointer())
    ensures var s := Reset(Program());
            Exec(s, Canonical.Canon(SharedPointer())) != CanonMeaning.ExpectedExec(s, SharedPointer())
  {
    var s, i := Reset(Program()), SharedPointer();
    ResetLoaded();
    SharedShape(s.c);
    hide *;
    SharedAccesses(s.c);
    CanonMeaning.MeaningKeptIff(s, i);
  }

  lemma SharedShape(c: Core)
    ensures Encodable(SharedPointer()) && D.Printable(SharedPointer()) && !CanonMeaning.PointerKept(c, SharedPointer())
  {
  }

  lemma ResetLoaded()
    ensures Loaded(Reset(Program()).c) && Reset(Program()).c.r[1] == 0
  {
    assert Pow2(10) == 0x400 && Pow2(8) == 0x100;
  }

  lemma SharedAccesses(c: Core)
    requires Loaded(c) && c.r[1] == 0
    ensures CanonMeaning.AccessesWork(c, SharedPointer())
  {
    ProgramStorable(c, 0);
    YReads(c);
    var d := ReadOperand(c, 15, 4).0;
    assert Loaded(d) by { hide Bit, Program, ReadOperand; }
    ProgramStorable(d, 4);
    hide CanonMeaning.Storable, ReadOperand, Loaded;
    assert ReadOperand(c, 0, 4).1.Some? && ReadOperand(c, 0, 4).0 == c by { AccumulatorReads(c); }
  }

  lemma AccumulatorReads(c: Core)
    ensures ReadOperand(c, 0, 4).1.Some? && ReadOperand(c, 0, 4).0 == c
  {
  }

  lemma ProgramStorable(c: Core, addr: word)
    requires Loaded(c) && addr % 4 == 0 && addr < 0x50
    ensures CanonMeaning.Storable(c, addr, 4)
  {
    ReadFour(c, addr);
    hide ReadBytes, Loaded, Bit;
  }

  lemma YReads(c: Core)
    requires c.r[1] == 0 && CanonMeaning.Storable(c, 0, 4)
    ensures var (d, o) := ReadOperand(c, 15, 4);
            o.Some? && d == c.(r := d.r) && d.r[1] == 4
  {
    hide ReadBytes, JoinWord, Bit, Overlaid;
    assert MemRead(c, 0, 4, false).0 == c && MemRead(c, 0, 4, false).1.Some?;
    hide MemRead;
  }
}
