/** The latency pipes are history: which past state each operand and condition
    of a running instruction sees. */
module RunPipes {
  import opened Words
  import opened Dau
  import opened Insn
  import opened Core
  import opened Cau
  import opened DauExec
  import opened Machine
  import opened Frames
  import opened DaFrames

  /** The slot passes time without switching context: an instruction other than
      ireturn, or sleep. */
  predicate Clocked(s: State) {
    var n := NextSlot(s);
    n.Asleep? || (n.Runs? && !IsIreturn(n.insn))
  }

  /** The machine after `k` slots of a run. */
  function At(s: State, reqs: seq<set<int>>, k: nat): State
    requires k <= |reqs|
  {
    Run(s, reqs[..k])
  }

  /** The state slot k starts from, its requests raised. */
  function Before(s: State, reqs: seq<set<int>>, k: nat): State
    requires k < |reqs|
  {
    Request(At(s, reqs, k), reqs[k])
  }

  lemma RunStep(s: State, reqs: seq<set<int>>, k: nat)
    requires k < |reqs|
    ensures At(s, reqs, k + 1) == Step(Before(s, reqs, k)).0
  {
    assert reqs[..k + 1][..k] == reqs[..k];
    hide Step, Request;
  }

  /** In the state an instruction executes in, each pipe has moved by one. */
  predicate Shifted(c: Core, d: Core) {
    && d.acc == c.acc && d.ps.dau == c.ps.dau
    && d.pipe == [c.acc, c.pipe[0], c.pipe[1]]
    && d.flagPipe == [c.ps.dau, c.flagPipe[0], c.flagPipe[1], c.flagPipe[2]]
  }

  /** Accumulators, flags and pipes: all a slot's start does not touch. */
  predicate SamePipes(c: Core, d: Core) {
    && c.acc == d.acc && c.ps.dau == d.ps.dau && c.pipe == d.pipe && c.flagPipe == d.flagPipe
  }

  lemma ExecuteSlotShifts(s: State)
    ensures var n := ExecuteSlot(s); !n.Asleep? && (n.Runs? ==> Shifted(s.c, n.s.c))
  {
    hide MemRead, RawRead, Decode;
    if !s.h.irshPending {
      MemReadFrame(s.c.(curInsn := s.c.pc), s.c.pc, 4, true);
      var (c1, w) := MemRead(s.c.(curInsn := s.c.pc), s.c.pc, 4, true);
      if w.Some? { FetchedShifts(s.(c := c1)); }
    }
  }

  lemma FetchedShifts(s: State)
    ensures Shifted(s.c, Fetched(s).c)
  {
    hide RawRead;
    var c := LatencyTick(s.c.(pc := s.c.npc, npc := Wrap(s.c.npc + 4)));
    if RawRead(c, c.pc, 4).Some? { } else { }
  }

  lemma RecogniseKeepsPipes(s: State)
    ensures SamePipes(s.c, Recognise(s).c)
  {
    hide PendingVector, Interruptible, ShadowedInstruction;
    if Interruptible(s) && PendingVector(s.c) != 0 { } else { }
  }

  lemma SlotShifts(s: State)
    ensures var n := NextSlot(s); n.Runs? || n.Asleep? ==> Shifted(s.c, n.s.c)
  {
    hide PendingVector, Recognise, ExecuteSlot;
    if s.c.level != DoubleError {
      var c := PinTick(s.c);
      if c.waiting && PendingVector(c) == 0 {
      } else {
        var c1 := if c.waiting then c.(waiting := false, intDefer := true) else c;
        assert SamePipes(s.c, c1);
        RecogniseKeepsPipes(s.(c := c1));
        ExecuteSlotShifts(Recognise(s.(c := c1)));
      }
    }
  }

  lemma ExecKeepsPipes(s: State, i: Insn, addr: word)
    requires !IsIreturn(i)
    ensures var d := Finish(s, i, addr).0.c; d.pipe == s.c.pipe && d.flagPipe == s.c.flagPipe
  {
    hide ExecMac, ExecSpecial, ExecCau, Bit;
    if i.Mac? { ExecMacKeeps(s.c, i); }
    else if i.Special? { ExecSpecialKeeps(s.c, i); }
    else { ExecCauFrame(s.c, i); }
    LoopBackKeeps(Exec(s, i).0.c, addr);
  }

  lemma LoopBackKeeps(c: Core, addr: word)
    ensures SameData(c, LoopBack(c, addr))
  {
    hide Bit;
    if c.loop.active && addr == c.loop.last {
      if Wrap(c.loop.count - 1) == 0 { } else { }
    }
  }

  /** After a clocked slot the pipes hold the state it started from. */
  lemma StepShifts(s: State)
    requires Clocked(s)
    ensures var d := Step(s).0.c;
            && d.pipe == [s.c.acc, s.c.pipe[0], s.c.pipe[1]]
            && d.flagPipe == [s.c.ps.dau, s.c.flagPipe[0], s.c.flagPipe[1], s.c.flagPipe[2]]
  {
    hide NextSlot, Finish;
    SlotShifts(s);
    match NextSlot(s)
    case Runs(s1, i, addr) => ExecKeepsPipes(s1, i, addr);
    case Asleep(s1) =>
    case _ =>
  }

  lemma RequestKeepsPipes(s: State, vns: set<int>)
    ensures SamePipes(s.c, Request(s, vns).c)
  {
  }

  /** Slot n executes with the accumulator files after slots n-1, n-2 and n-3 in
      its pipe, and the DAU flags after slots n-1 to n-4 in its flag pipe. */
  lemma PipelineHistory(s: State, reqs: seq<set<int>>, n: nat)
    requires 3 <= n < |reqs|
    requires forall k :: n - 3 <= k < n ==> Clocked(Before(s, reqs, k))
    requires NextSlot(Before(s, reqs, n)).Runs?
    ensures var c := NextSlot(Before(s, reqs, n)).s.c;
            && c.acc == At(s, reqs, n).c.acc && c.ps.dau == At(s, reqs, n).c.ps.dau
            && c.pipe[2] == At(s, reqs, n - 2).c.acc
            && c.flagPipe[3] == At(s, reqs, n - 3).c.ps.dau
  {
    hide NextSlot, Step, Run, Request, Clocked;
    SlotShifts(Before(s, reqs, n));
    RequestKeepsPipes(At(s, reqs, n), reqs[n]);
    PriorSlot(s, reqs, n - 1);
    PriorSlot(s, reqs, n - 2);
    PriorSlot(s, reqs, n - 3);
  }

  lemma PriorSlot(s: State, reqs: seq<set<int>>, k: nat)
    requires k + 1 < |reqs| && Clocked(Before(s, reqs, k))
    ensures var c, d := At(s, reqs, k).c, At(s, reqs, k + 1).c;
            && d.pipe == [c.acc, c.pipe[0], c.pipe[1]]
            && d.flagPipe == [c.ps.dau, c.flagPipe[0], c.flagPipe[1], c.flagPipe[2]]
  {
    hide NextSlot, Step, Run, Request, Clocked;
    RunStep(s, reqs, k);
    StepShifts(Before(s, reqs, k));
    RequestKeepsPipes(At(s, reqs, k), reqs[k]);
  }

  /** A DAU condition, as Table 4-7 of the Information Manual words it. */
  predicate DauCondition(f: DauFlags, cond: Cond) {
    match cond
    case 16 => !f.u
    case 17 => f.u
    case 18 => !f.n
    case 19 => f.n
    case 20 => !f.z
    case 21 => f.z
    case 22 => !f.v
    case 23 => f.v
    case 24 => !f.n && !f.z
    case _ => f.n || f.z
  }

  /** What the running instruction therefore sees: an accumulator operand is
      live on the adder side and three instructions old, guard bits cut, on the
      multiplier side; branch conditions are four instructions old; ifalt,
      ifaeq and ifagt are live. */
  lemma OperandLatency(s: State, reqs: seq<set<int>>, n: nat, f: Field7, size: Size, cond: Cond, g: U4)
    requires 3 <= n < |reqs| && f / 8 == 0 && 16 <= cond <= 25
    requires forall k :: n - 3 <= k < n ==> Clocked(Before(s, reqs, k))
    requires NextSlot(Before(s, reqs, n)).Runs?
    ensures var c := NextSlot(Before(s, reqs, n)).s.c;
            && ReadOperand(c, f, size)
               == (c, Some(AccOperand(At(s, reqs, n).c.acc[f % 4], Pack(At(s, reqs, n - 2).c.acc[f % 4]))))
            && CondHolds(c, cond) == DauCondition(At(s, reqs, n - 3).c.ps.dau, cond)
            && LiveCondition(c, g) == LiveCondition(At(s, reqs, n).c, g)
  {
    hide NextSlot, Run, Request, Clocked, Pack;
    PipelineHistory(s, reqs, n);
  }

  /** The aM factor of `aN = Y + aM * X` is read from the same old file. */
  lemma FactorLatency(s: State, reqs: seq<set<int>>, n: nat, x: Operand, y: Operand)
    requires 3 <= n < |reqs|
    requires forall k :: n - 3 <= k < n ==> Clocked(Before(s, reqs, k))
    requires var slot := NextSlot(Before(s, reqs, n));
             slot.Runs? && slot.insn.Mac? && slot.insn.fmt == 1 && slot.insn.mul < 4
    ensures var slot := NextSlot(Before(s, reqs, n));
            MacProduct(slot.s.c, slot.insn, x, y)
            == DauMul(Pack(At(s, reqs, n - 2).c.acc[slot.insn.mul]), MultiplierInputOf(x))
  {
    hide NextSlot, Run, Request, Clocked, Pack, DauMul;
    PipelineHistory(s, reqs, n);
  }
}
