/** Interrupt transparency: entry, any handler that tidies up, ireturn and the
    replay amount to one uninterrupted step. */
module Interrupts {
  import opened Words
  import opened Dau
  import opened Insn
  import opened Core
  import opened Cau
  import opened DauExec
  import opened Machine
  import opened Frames
  import opened PcshFree
  import opened Modes

  /** The slot starting at s is entered by an interrupt. */
  predicate Interrupted(s: State) {
    && !s.c.waiting && Interruptible(s.(c := PinTick(s.c))) && PendingVector(PinTick(s.c)) != 0
  }

  function Vector(s: State): nat {
    PendingVector(PinTick(s.c))
  }

  /** The core at the boundary, pins ticked, the taken request withdrawn. */
  function Boundary(s: State): Core {
    PinTick(s.c).(pending := s.c.pending - {Vector(s)}, intDefer := false)
  }

  /** What the slot would have done had the request not been there. */
  function Uninterrupted(s: State): (State, Status) {
    match FetchSlot(s.(c := Boundary(s)))
    case Runs(s1, i, addr) => Finish(s1, i, addr)
    case Faulted(s1) => (s1, Ok)
    case _ => (s, Ok)
  }

  /** If no other request is enabled, that is the step itself. */
  lemma UninterruptedIsStep(s: State)
    requires Interrupted(s)
    requires PendingVector(Boundary(s)) == 0
    ensures Uninterrupted(s) == Step(s.(c := s.c.(pending := s.c.pending - {Vector(s)})))
  {
    hide FetchSlot, Finish, PendingFrom;
    var t := s.(c := s.c.(pending := s.c.pending - {Vector(s)}));
    var p := PinTick(t.c);
    assert p == Boundary(s);
    assert Recognise(t.(c := p)) == t.(c := p);
    SlotKinds(s.(c := Boundary(s)));
  }

  lemma SlotKinds(s: State)
    ensures FetchSlot(s).Runs? || FetchSlot(s).Faulted?
  {
    hide MemRead, Fetched, Decode;
  }

  // ---------------------------------------------------------------------
  // The handler

  /** The slot reached after entry and |reqs| further slots. */
  function HandlerSlot(s: State, reqs: seq<set<int>>): Slot {
    if reqs == [] then NextSlot(s)
    else NextSlot(Request(Run(Step(s).0, reqs[..|reqs| - 1]), reqs[|reqs| - 1]))
  }

  function Returns(n: Slot): bool {
    n.Runs? && IsIreturn(n.insn)
  }

  /** Slots 0 to |reqs|-1 stay at interrupt level and execute no ireturn. */
  ghost predicate HandlerRuns(s: State, reqs: seq<set<int>>) {
    forall k {:trigger HandlerSlot(s, reqs[..k])} :: 0 <= k < |reqs| ==>
      && !Returns(HandlerSlot(s, reqs[..k]))
      && Run(Step(s).0, reqs[..k]).c.level == Interrupt
  }

  /** The interrupt save area and the instruction shadow, as entry left them. */
  predicate HoldsContext(h: Hidden, s: State) {
    && h.saved == Save(PinTick(s.c)) && h.irshAddr == s.c.pc && !h.irshPending
    && h.irsh == ShadowedInstruction(s.(c := PinTick(s.c)))
  }

  lemma FetchKeepsContext(t: State, s: State)
    requires HoldsContext(t.h, s) && t.c.level == Interrupt
    ensures var n := FetchSlot(t); (n.Runs? ==> HoldsContext(n.s.h, s) && n.s.c.level == Interrupt)
                                   && (n.Faulted? ==> HoldsContext(n.s.h, s))
  {
    hide Save, ShadowedInstruction, RawRead, Decode, LatencyTick, PinTick;
    FetchNoError(t.c.(curInsn := t.c.pc), t.c.pc);
    var (c1, w) := MemRead(t.c.(curInsn := t.c.pc), t.c.pc, 4, true);
    hide MemRead;
    if w.Some? {
      var c := LatencyTick(c1.(pc := c1.npc, npc := Wrap(c1.npc + 4)));
      TickLevel(c1.(pc := c1.npc, npc := Wrap(c1.npc + 4)));
      if RawRead(c, c.pc, 4).Some? { } else { }
    }
  }

  lemma TickLevel(c: Core)
    ensures LatencyTick(c).level == c.level
  {
  }

  /** Entry saves the context. */
  lemma EntryHoldsContext(s: State)
    requires Interrupted(s)
    ensures var n := NextSlot(s); (n.Runs? ==> HoldsContext(n.s.h, s) && n.s.c.level == Interrupt)
                                  && (n.Faulted? ==> HoldsContext(n.s.h, s))
    ensures NextSlot(s).Runs? || NextSlot(s).Faulted?
  {
    hide Save, ShadowedInstruction, FetchSlot, PendingFrom, HoldsContext;
    var p := s.(c := PinTick(s.c));
    var e := Recognise(p);
    assert e == TakeInterrupt(p, Vector(s)).(c := TakeInterrupt(p, Vector(s)).c.(intDefer := false));
    assert HoldsContext(e.h, s) by { ContextTaken(s); }
    assert e.c.level == Interrupt && !e.h.irshPending;
    FetchKeepsContext(e, s);
    SlotKinds(e);
  }

  lemma ContextTaken(s: State)
    requires Interrupted(s)
    ensures HoldsContext(TakeInterrupt(s.(c := PinTick(s.c)), Vector(s)).h, s)
  {
    hide PendingFrom, RawRead;
  }

  /** At interrupt level no slot disturbs the context. */
  lemma SlotKeepsContext(t: State, s: State)
    requires HoldsContext(t.h, s) && t.c.level == Interrupt
    ensures var n := NextSlot(t);
            && (n.Runs? ==> HoldsContext(n.s.h, s))
            && ((n.Faulted? || n.Asleep?) ==> HoldsContext(n.s.h, s))
  {
    hide FetchSlot, PendingFrom, LatencyTick, HoldsContext;
    var c := PinTick(t.c);
    if c.waiting && PendingVector(c) == 0 {
    } else {
      var c1 := if c.waiting then c.(waiting := false, intDefer := true) else c;
      var e := Recognise(t.(c := c1));
      assert e == t.(c := c1.(intDefer := false));
      ContextNotPending(t.h, s);
      assert NextSlot(t) == FetchSlot(e);
      FetchKeepsContext(e, s);
      SlotKinds(e);
    }
  }

  lemma ContextNotPending(h: Hidden, s: State)
    requires HoldsContext(h, s)
    ensures !h.irshPending
  {
  }

  lemma FinishKeepsHidden(t: State, i: Insn, addr: word)
    requires !IsIreturn(i)
    ensures Finish(t, i, addr).0.h == t.h
  {
    hide ExecCore, LoopBack;
  }

  /** One step of the handler keeps the context. */
  lemma StepKeepsContext(t: State, s: State)
    requires !Returns(NextSlot(t))
    requires var n := NextSlot(t); (n.Runs? || n.Faulted? || n.Asleep?) ==> HoldsContext(n.s.h, s)
    requires NextSlot(t).Halted? ==> HoldsContext(t.h, s)
    ensures HoldsContext(Step(t).0.h, s)
  {
    hide NextSlot, Finish, HoldsContext;
    match NextSlot(t)
    case Runs(s1, i, addr) => FinishKeepsHidden(s1, i, addr);
    case _ =>
  }

  /** Through the whole handler the save area and the shadow stay put. */
  lemma {:induction false} HandlerKeepsContext(s: State, reqs: seq<set<int>>)
    requires Interrupted(s) && HandlerRuns(s, reqs)
    ensures HandlerSlot(s, reqs).Runs? ==> HoldsContext(HandlerSlot(s, reqs).s.h, s)
    ensures |reqs| > 0 ==> HoldsContext(Run(Step(s).0, reqs[..|reqs| - 1]).h, s)
  {
    hide NextSlot, Step, HoldsContext, Interrupted, HandlerRuns, Request;
    if reqs == [] {
      EntryHoldsContext(s);
    } else {
      var k := |reqs| - 1;
      HandlerRunsPrefix(s, reqs);
      var t := Run(Step(s).0, reqs[..k]);
      if k == 0 {
        assert reqs[..k] == [];
        EntryHoldsContext(s);
        StepKeepsContext(s, s);
      } else {
        HandlerKeepsContext(s, reqs[..k]);
        HandlerRunsPrefix(s, reqs[..k]);
        LastHandlerStep(s, reqs[..k]);
      }
      RequestKeeps(t, reqs[k]);
      SlotKeepsContext(Request(t, reqs[k]), s);
    }
  }

  lemma HandlerRunsPrefix(s: State, reqs: seq<set<int>>)
    requires reqs != [] && HandlerRuns(s, reqs)
    ensures var k := |reqs| - 1;
            && HandlerRuns(s, reqs[..k]) && !Returns(HandlerSlot(s, reqs[..k]))
            && Run(Step(s).0, reqs[..k]).c.level == Interrupt
  {
    hide HandlerSlot, Run, Step, Returns;
    var k := |reqs| - 1;
    forall j | 0 <= j < k
      ensures !Returns(HandlerSlot(s, reqs[..k][..j])) && Run(Step(s).0, reqs[..k][..j]).c.level == Interrupt
    {
      assert reqs[..k][..j] == reqs[..j];
    }
    assert !Returns(HandlerSlot(s, reqs[..k]));
  }

  /** The step of a later handler slot keeps the context. */
  lemma LastHandlerStep(s: State, reqs: seq<set<int>>)
    requires reqs != [] && !Returns(HandlerSlot(s, reqs))
    requires var t := Run(Step(s).0, reqs[..|reqs| - 1]);
             t.c.level == Interrupt && HoldsContext(t.h, s)
    ensures HoldsContext(Run(Step(s).0, reqs).h, s)
  {
    hide NextSlot, Step, HoldsContext;
    var t := Run(Step(s).0, reqs[..|reqs| - 1]);
    var t1 := Request(t, reqs[|reqs| - 1]);
    RequestKeeps(t, reqs[|reqs| - 1]);
    SlotKeepsContext(t1, s);
    StepKeepsContext(t1, s);
  }

  lemma RequestKeeps(t: State, vns: set<int>)
    ensures Request(t, vns).h == t.h && Request(t, vns).c.level == t.c.level
  {
  }

  // ---------------------------------------------------------------------
  // The return

  /** The slot the handler returns from: awake, deferral over, at interrupt level
      with the error mode and the pcw lock of the boundary. */
  lemma {:induction false} HandlerModes(s: State, reqs: seq<set<int>>)
    requires Interrupted(s) && HandlerRuns(s, reqs) && HandlerSlot(s, reqs).Runs?
    ensures var h := HandlerSlot(s, reqs).s.c;
            && !h.waiting && !h.intDefer && h.level == Interrupt && h.errNonmaskable == s.c.errNonmaskable
            && (LockMatches(s.c) ==> LockMatches(h))
  {
    hide NextSlot, Step, Interrupted, Request, LockMatches, HandlerRuns;
    if reqs == [] {
      NextSlotModes(s);
      EntryHoldsContext(s);
    } else {
      var k := |reqs| - 1;
      HandlerRunsPrefix(s, reqs);
      var t := Run(Step(s).0, reqs[..k]);
      RunModes(s, reqs, k);
      RequestModes(t, reqs[k]);
      var t1 := Request(t, reqs[k]);
      NextSlotModes(t1);
      HandlerKeepsContext(s, reqs[..k]);
      HandlerRunsPrefix(s, reqs);
      HandlerTail(s, reqs);
      SlotKeepsLevel(t1, s);
    }
  }

  lemma HandlerTail(s: State, reqs: seq<set<int>>)
    requires reqs != [] && Interrupted(s) && HandlerRuns(s, reqs)
    ensures HoldsContext(Request(Run(Step(s).0, reqs[..|reqs| - 1]), reqs[|reqs| - 1]).h, s)
  {
    hide NextSlot, Step, HoldsContext, Interrupted, Run, HandlerRuns;
    HandlerKeepsContext(s, reqs);
    RequestKeeps(Run(Step(s).0, reqs[..|reqs| - 1]), reqs[|reqs| - 1]);
  }

  /** No slot at interrupt level leaves it before its instruction executes. */
  lemma SlotKeepsLevel(t: State, s: State)
    requires HoldsContext(t.h, s) && t.c.level == Interrupt
    ensures NextSlot(t).Runs? ==> NextSlot(t).s.c.level == Interrupt
  {
    hide FetchSlot, PendingFrom, LatencyTick, HoldsContext;
    var c := PinTick(t.c);
    if c.waiting && PendingVector(c) == 0 {
    } else {
      var c1 := if c.waiting then c.(waiting := false, intDefer := true) else c;
      var e := Recognise(t.(c := c1));
      assert e == t.(c := c1.(intDefer := false));
      ContextNotPending(t.h, s);
      FetchKeepsContext(e, s);
    }
  }

  lemma RequestModes(t: State, vns: set<int>)
    ensures var d := Request(t, vns).c;
            d.level == t.c.level && d.errNonmaskable == t.c.errNonmaskable && LockMatches(d) == LockMatches(t.c)
  {
  }

  /** Between the handler's slots the error mode and the lock stay. */
  lemma {:induction false} RunModes(s: State, reqs: seq<set<int>>, k: nat)
    requires HandlerRuns(s, reqs) && k < |reqs|
    ensures var d := Run(Step(s).0, reqs[..k]).c;
            d.level == Interrupt && d.errNonmaskable == s.c.errNonmaskable && (LockMatches(s.c) ==> LockMatches(d))
  {
    hide Step, Request, LockMatches, HandlerSlot;
    var d := Run(Step(s).0, reqs[..k]).c;
    assert !Returns(HandlerSlot(s, reqs[..k])) && d.level == Interrupt;
    if k == 0 {
      assert reqs[..k] == [];
      StepModes(s);
    } else {
      RunModes(s, reqs, k - 1);
      assert reqs[..k][..k - 1] == reqs[..k - 1];
      var t := Run(Step(s).0, reqs[..k - 1]);
      RequestModes(t, reqs[k - 1]);
      StepModes(Request(t, reqs[k - 1]));
    }
  }

  /** An interrupt taken at s whose handler stays at interrupt level for |reqs|
      slots, requests arriving before each, and comes to an ireturn. */
  ghost predicate ReturningHandler(s: State, reqs: seq<set<int>>) {
    && Interrupted(s) && HandlerRuns(s, reqs) && Returns(HandlerSlot(s, reqs))
    && ReturnsOutside(s, HandlerSlot(s, reqs))
  }

  /** pcsh is as entry left it, and the ireturn is not at the interrupted loop's end. */
  predicate ReturnsOutside(s: State, h: Slot)
    requires h.Runs?
  {
    h.s.c.pcsh == Wrap(s.c.pc + 4) && !(s.c.loop.active && h.addr == s.c.loop.last)
  }

  /** The slot after the ireturn. */
  function ReturnSlot(s: State, reqs: seq<set<int>>): Slot
    requires HandlerSlot(s, reqs).Runs?
  {
    var h := HandlerSlot(s, reqs);
    NextSlot(Finish(h.s, h.insn, h.addr).0)
  }

  /** The core in which the replayed instruction executes. */
  function ReplayCore(h: Core, saved: Saved, addr: word): Core {
    var c := Restore(h, saved);
    LatencyTick(PinTick(c.(pc := c.pcsh, npc := Wrap(c.pcsh + 4))).(intDefer := false, curInsn := addr))
  }

  /** ireturn outside the loop end, then the replay slot. */
  lemma ReplayRuns(h: State, addr: word, s: State)
    requires h.c.level == Interrupt && HoldsContext(h.h, s) && Interrupted(s) && !h.c.waiting
    requires !(s.c.loop.active && addr == s.c.loop.last)
    ensures NextSlot(Finish(h, Goto16(1, PCSH, 0), addr).0)
            == Runs(State(ReplayCore(h.c, Save(PinTick(s.c)), s.c.pc), h.h.(prefetchAddr := NO_PREFETCH)),
                    Decode(h.h.irsh), s.c.pc)
  {
    hide PendingFrom, Decode, LatencyTick;
    var i1 := DoIreturn(h);
    assert Finish(h, Goto16(1, PCSH, 0), addr).0 == i1.(c := LoopBack(i1.c, addr));
    assert LoopBack(i1.c, addr) == i1.c;
    var c := PinTick(i1.c);
    assert Recognise(i1.(c := c)) == i1.(c := c.(intDefer := false));
  }

  /** After any returning handler the shadowed instruction runs at the address
      it was interrupted at, whatever the handler did to registers and memory. */
  lemma ReturnReplays(s: State, reqs: seq<set<int>>)
    requires ReturningHandler(s, reqs)
    ensures var h := HandlerSlot(s, reqs).s;
            ReturnSlot(s, reqs)
            == Runs(State(ReplayCore(h.c, Save(PinTick(s.c)), s.c.pc), h.h.(prefetchAddr := NO_PREFETCH)),
                    Decode(ShadowedInstruction(s.(c := PinTick(s.c)))), s.c.pc)
    ensures HoldsContext(HandlerSlot(s, reqs).s.h, s)
  {
    hide NextSlot, HandlerSlot, Save, ReplayCore, Interrupted, HandlerRuns, Finish, LockMatches, Decode;
    HandlerKeepsContext(s, reqs);
    HandlerModes(s, reqs);
    var h := HandlerSlot(s, reqs);
    ReplayRuns(h.s, h.addr, s);
  }

  // ---------------------------------------------------------------------
  // The instruction at a boundary

  /** n is the slot in which the instruction at the boundary s executes: the next
      slot, or the replay after an interrupt taken first. */
  ghost predicate RunsAt(s: State, n: Slot) {
    n.Runs? &&
    if Interrupted(s) then exists reqs :: ReturningHandler(s, reqs) && n == ReturnSlot(s, reqs)
    else !s.h.irshPending && n == NextSlot(s)
  }

  /** The slot at a boundary s: the instruction is the one at s.pc, pc and npc
      have advanced, loop hardware and level are those of the boundary. */
  predicate SlotAt(s: State, n: Slot) {
    && n.Runs? && n.addr == s.c.pc && n.s.c.curInsn == s.c.pc && n.s.c.pc == s.c.npc
    && n.s.c.npc == Wrap(s.c.npc + 4) && n.s.c.loop == s.c.loop && n.s.c.level == s.c.level
    && !n.s.c.waiting && !n.s.c.intDefer && !n.s.h.irshPending
  }

  /** Interrupts before an instruction do not change where it runs and where
      control goes from it. */
  lemma RunsInPlace(s: State, n: Slot)
    requires RunsAt(s, n)
    ensures SlotAt(s, n)
  {
    hide NextSlot, ReturnSlot, HandlerSlot, ShadowedInstruction, Decode, HandlerRuns, Save;
    if Interrupted(s) {
      var reqs :| ReturningHandler(s, reqs) && n == ReturnSlot(s, reqs);
      ReturnReplays(s, reqs);
      HandlerModes(s, reqs);
      ReplayInPlace(s, HandlerSlot(s, reqs));
    } else {
      PlainInPlace(s);
    }
  }

  lemma ReplayInPlace(s: State, h: Slot)
    requires h.Runs? && Interrupted(s) && ReturnsOutside(s, h) && HoldsContext(h.s.h, s) && !h.s.c.waiting
    ensures SlotAt(s, Runs(State(ReplayCore(h.s.c, Save(PinTick(s.c)), s.c.pc), h.s.h.(prefetchAddr := NO_PREFETCH)),
                           h.insn, s.c.pc))
  {
    hide PendingFrom, ShadowedInstruction, Aged;
  }

  lemma PlainInPlace(s: State)
    requires !Interrupted(s) && !s.h.irshPending && NextSlot(s).Runs?
    ensures SlotAt(s, NextSlot(s))
  {
    hide PendingFrom, FetchSlot, Aged;
    NextSlotModes(s);
    var c := PinTick(s.c);
    var c1 := if c.waiting then c.(waiting := false, intDefer := true) else c;
    var t := Recognise(s.(c := c1));
    assert t == s.(c := c1.(intDefer := false));
    assert NextSlot(s) == FetchSlot(t);
    FetchedCoreIs(t);
    hide NextSlot;
    assert FetchSlot(t).s.h.irshPending == t.h.irshPending by { FetchKeepsReplay(t); }
  }

  lemma FetchKeepsReplay(t: State)
    ensures FetchSlot(t).Runs? ==> FetchSlot(t).s.h.irshPending == t.h.irshPending
  {
    hide MemRead, RawRead, Decode, LatencyTick;
  }

  // ---------------------------------------------------------------------
  // Transparency

  predicate ShadowEmpty(c: Core) {
    c.shadow == [Free, Free, Free, Free]
  }

  /** The handler has put back what it does not get restored in hardware. */
  predicate LeftAlone(b: Core, h: Core) {
    && h.r == b.r && h.mem == b.mem && h.emr == b.emr && h.pcw == b.pcw && h.pcsh == Wrap(b.pc + 4)
    && h.pulse0 == 0 && h.pulse1 == 0 && ShadowEmpty(h)
  }

  /** The core in which the uninterrupted instruction executes. */
  function FetchedCore(b: Core): Core {
    LatencyTick(b.(curInsn := b.pc, pc := b.npc, npc := Wrap(b.npc + 4)))
  }

  lemma FetchedCoreIs(t: State)
    requires FetchSlot(t).Runs?
    ensures FetchSlot(t).s.c == FetchedCore(t.c) && FetchSlot(t).addr == t.c.pc
  {
    hide Decode, LatencyTick, RawRead;
    FetchNoError(t.c.(curInsn := t.c.pc), t.c.pc);
    var (c1, w) := MemRead(t.c.(curInsn := t.c.pc), t.c.pc, 4, true);
    hide MemRead;
    if w.Some? {
      var c := LatencyTick(c1.(pc := c1.npc, npc := Wrap(c1.npc + 4)));
      if RawRead(c, c.pc, 4).Some? { } else { }
    }
  }

  /** Both cores agree but for pcsh and the requests. */
  lemma ReplayCoreAlike(s: State, h: Core)
    requires Interrupted(s) && s.c.pulse0 == 0 && s.c.pulse1 == 0 && ShadowEmpty(s.c)
    requires LeftAlone(Boundary(s), h) && !h.waiting && h.errNonmaskable == s.c.errNonmaskable
    requires LockMatches(s.c) && LockMatches(h)
    ensures Alike(FetchedCore(Boundary(s)), ReplayCore(h, Save(PinTick(s.c)), s.c.pc))
  {
    hide PendingFrom;
    var x, y := ReplayCore(h, Save(PinTick(s.c)), s.c.pc), FetchedCore(Boundary(s));
    assert x.ps == y.ps;
    assert x.shadow == y.shadow;
    assert x.loop == y.loop && x.level == y.level;
    assert x.pc == y.pc && x.npc == y.npc && x.pcwLocked == y.pcwLocked;
  }

  /** The premises of transparency.  An interrupt is taken at a boundary with
      idle pins and an empty store shadow; the handler, whatever requests arrive
      meanwhile, comes to its ireturn with everything the hardware does not
      restore as it was; the shadowed word is the word a fetch delivers, and its
      instruction does not read pcsh.  (The pcw lock is on while pcw[13] is set on
      every run from reset: Modes.LockFromReset.) */
  ghost predicate TidyHandler(s: State, reqs: seq<set<int>>) {
    && ReturningHandler(s, reqs) && LockMatches(s.c)
    && s.c.pulse0 == 0 && s.c.pulse1 == 0 && ShadowEmpty(s.c)
    && LeftAlone(Boundary(s), HandlerSlot(s, reqs).s.c) && ReplayFaithful(s, HandlerSlot(s, reqs).s.c)
  }

  /** The word replayed is the word at the boundary.  A waiti there must find the
      requests it would have found. */
  predicate ReplayFaithful(s: State, h: Core) {
    var f := FetchSlot(s.(c := Boundary(s)));
    && f.Runs? && f.insn == Decode(ShadowedInstruction(s.(c := PinTick(s.c)))) && !ReadsPcsh(f.insn)
    && (IsWaiti(f.insn) ==> h.pending == Boundary(s).pending)
  }

  /** The state after ireturn and the replay, with the replay's status. */
  function AfterReturn(s: State, reqs: seq<set<int>>): (State, Status)
    requires HandlerSlot(s, reqs).Runs?
  {
    var h := HandlerSlot(s, reqs);
    Step(Finish(h.s, h.insn, h.addr).0)
  }

  /** Interrupt transparency: under these premises the interrupted machine ends
      where one uninterrupted slot ends, with the same status; only pcsh and the
      pending requests may differ, and the latter are what the handler left. */
  lemma InterruptTransparency(s: State, reqs: seq<set<int>>)
    requires TidyHandler(s, reqs)
    ensures Alike(Uninterrupted(s).0.c, AfterReturn(s, reqs).0.c)
    ensures AfterReturn(s, reqs).1 == Uninterrupted(s).1
    ensures PendingTogether(Boundary(s), HandlerSlot(s, reqs).s.c, Uninterrupted(s).0.c, AfterReturn(s, reqs).0.c)
  {
    hide NextSlot, HandlerSlot, FetchSlot, Save, ShadowedInstruction, ReplayCore, FetchedCore, Interrupted,
         Boundary, HandlerRuns, Exec, LoopBack, Decode, ReadsPcsh, LeftAlone, LockMatches, IsWaiti, Alike, IsIreturn,
         PendingTogether;
    var h := HandlerSlot(s, reqs);
    HandlerModes(s, reqs);
    ReturnReplays(s, reqs);
    ReplayCoreAlike(s, h.s.c);
    var f := FetchSlot(s.(c := Boundary(s)));
    FetchedCoreIs(s.(c := Boundary(s)));
    BoundaryPc(s);
    CorePending(s, h.s.c);
    var n := ReturnSlot(s, reqs);
    FinishAlike(f.s, n.s, f.insn, f.addr);
    TogetherFrom(f.s.c, n.s.c, Boundary(s), h.s.c, Uninterrupted(s).0.c, AfterReturn(s, reqs).0.c);
  }

  /** So when the handler left the requests as they were, only pcsh differs. */
  lemma TransparencyUpToPcsh(s: State, reqs: seq<set<int>>)
    requires TidyHandler(s, reqs) && HandlerSlot(s, reqs).s.c.pending == Boundary(s).pending
    ensures var c := AfterReturn(s, reqs).0.c; c == Uninterrupted(s).0.c.(pcsh := c.pcsh)
  {
    hide TidyHandler, HandlerSlot, Uninterrupted, AfterReturn, Boundary;
    InterruptTransparency(s, reqs);
  }

  lemma CorePending(s: State, h: Core)
    ensures ReplayCore(h, Save(PinTick(s.c)), s.c.pc).pending == h.pending
    ensures FetchedCore(Boundary(s)).pending == Boundary(s).pending
  {
    hide PendingFrom, Aged;
  }

  lemma TogetherFrom(c: Core, d: Core, b: Core, h: Core, c1: Core, d1: Core)
    requires PendingTogether(c, d, c1, d1) && c.pending == b.pending && d.pending == h.pending
    ensures PendingTogether(b, h, c1, d1)
  {
  }

  lemma BoundaryPc(s: State)
    ensures Boundary(s).pc == s.c.pc
  {
    hide PendingFrom;
  }

  lemma FinishAlike(t: State, u: State, i: Insn, addr: word)
    requires Alike(t.c, u.c) && !ReadsPcsh(i) && (IsWaiti(i) ==> t.c.pending == u.c.pending)
    ensures Alike(Finish(t, i, addr).0.c, Finish(u, i, addr).0.c)
    ensures Finish(t, i, addr).1 == Finish(u, i, addr).1
    ensures PendingTogether(t.c, u.c, Finish(t, i, addr).0.c, Finish(u, i, addr).0.c)
  {
    hide ExecCore, LoopBack;
    ExecAlike(t.c, u.c, i);
    ExecPendingTogether(t.c, u.c, i);
    LoopBackAlike(ExecCore(t.c, i).0, ExecCore(u.c, i).0, addr);
    LoopBackModes(ExecCore(t.c, i).0, addr);
    LoopBackModes(ExecCore(u.c, i).0, addr);
  }

  lemma LoopBackAlike(c: Core, d: Core, addr: word)
    requires Alike(c, d)
    ensures Alike(LoopBack(c, addr), LoopBack(d, addr))
  {
    if c.loop.active && addr == c.loop.last {
      if Wrap(c.loop.count - 1) == 0 { } else { }
    }
  }
}
