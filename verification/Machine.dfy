/** The step machine: interrupts, instruction replay, fetch, execution and the
    do-loop back edge. */
module Machine {
  import opened Words
  import opened Dau
  import opened Insn
  import opened Core
  import opened Cau
  import opened DauExec

  /** What interrupt entry saves in hardware. */
  datatype Saved = Saved(ps: Ps, dauc: nat, ctr: nat, acc: AccFile, pipe: AccPipe,
                         flagPipe: FlagPipe, loop: Loop)

  /** Registers no instruction but ireturn can see: the instruction shadow, the
      prefetch buffer and the interrupt save area. */
  datatype Hidden = Hidden(irsh: word, irshAddr: word, irshPending: bool,
                           prefetch: word, prefetchAddr: word, saved: Saved)

  datatype State = State(c: Core, h: Hidden)

  const NOP_WORD: word := 0x8000_0000
  const NO_PREFETCH: word := 1

  // ---------------------------------------------------------------------
  // Interrupts

  function Save(c: Core): Saved {
    Saved(c.ps, c.dauc, c.ctr, c.acc, c.pipe, c.flagPipe, c.loop)
  }

  function Restore(c: Core, s: Saved): Core {
    c.(ps := s.ps, dauc := s.dauc, ctr := s.ctr, acc := s.acc, pipe := s.pipe,
       flagPipe := s.flagPipe, loop := s.loop, level := Base)
  }

  /** The word replayed by ireturn: as prefetched, or else as memory has it. */
  function ShadowedInstruction(s: State): word {
    if s.h.prefetchAddr == s.c.pc then s.h.prefetch
    else
      match RawRead(s.c, s.c.pc, 4)
      case Some(w) => w
      case None => NOP_WORD
  }

  function TakeInterrupt(s: State, vn: nat): State {
    var c := s.c;
    var pc := Wrap(c.r[22] + vn * 8);
    State(c.(pending := c.pending - {vn}, loop := c.loop.(active := false),
             pcsh := Wrap(c.pc + 4), level := Interrupt, pc := pc, npc := Wrap(pc + 4)),
          s.h.(irsh := ShadowedInstruction(s), irshAddr := c.pc, saved := Save(c)))
  }

  /** No delay slot: the shadowed instruction is replayed and fetching resumes
      at pcsh. */
  function DoIreturn(s: State): State {
    var c := if s.c.level == Interrupt then Restore(s.c, s.h.saved) else s.c;
    State(c.(pc := c.pcsh, npc := Wrap(c.pcsh + 4)), s.h.(irshPending := true))
  }

  predicate IsIreturn(i: Insn) {
    i == Goto16(1, PCSH, 0)
  }

  // ---------------------------------------------------------------------
  // Execution

  function ExecCore(c: Core, i: Insn): (Core, Status) {
    match i
    case Mac(_, _, _, _, _, _, _, _) => (ExecMac(c, i), Ok)
    case Special(_, _, _, _) => (ExecSpecial(c, i), Ok)
    case _ => ExecCau(c, i)
  }

  function Exec(s: State, i: Insn): (State, Status) {
    if IsIreturn(i) then (DoIreturn(s), Ok)
    else
      var (c, st) := ExecCore(s.c, i);
      (s.(c := c), st)
  }

  /** After the last instruction of a loop body: again, or out. */
  function LoopBack(c: Core, addr: word): Core {
    if c.loop.active && addr == c.loop.last then
      var left := Wrap(c.loop.count - 1);
      if left == 0 then c.(loop := c.loop.(active := false, count := 0))
      else c.(loop := c.loop.(count := left), pc := c.loop.start, npc := Wrap(c.loop.start + 4))
    else c
  }

  /** What a time slot comes to.  `Runs` carries the state an instruction
      executes in: pc and npc advanced, the time base already ticked. */
  datatype Slot =
    | Halted
    | Asleep(s: State)
    | Faulted(s: State)
    | Runs(s: State, insn: Insn, addr: word)

  /** The shadowed instruction, replayed. */
  function ReplaySlot(s: State): Slot {
    Runs(State(LatencyTick(s.c.(curInsn := s.h.irshAddr)),
               s.h.(irshPending := false, prefetchAddr := NO_PREFETCH)),
         Decode(s.h.irsh), s.h.irshAddr)
  }

  /** pc and npc advance, time passes, and the next word is prefetched under
      the memory map in force before the instruction's own effects. */
  function Fetched(s: State): State {
    var c := LatencyTick(s.c.(pc := s.c.npc, npc := Wrap(s.c.npc + 4)));
    match RawRead(c, c.pc, 4)
    case Some(w) => State(c, s.h.(prefetch := w, prefetchAddr := c.pc))
    case None => State(c, s.h.(prefetchAddr := NO_PREFETCH))
  }

  function FetchSlot(s: State): Slot {
    var addr := s.c.pc;
    var (c1, w) := MemRead(s.c.(curInsn := addr), addr, 4, true);
    match w
    case None => Faulted(s.(c := c1))
    case Some(word) => Runs(Fetched(s.(c := c1)), Decode(word), addr)
  }

  /** Base level only, never in a branch shadow, never inside dolock, and not
      before a pending replay. */
  predicate Interruptible(s: State) {
    && !s.c.intDefer && !s.h.irshPending && s.c.level == Base
    && s.c.npc == Wrap(s.c.pc + 4) && !(s.c.loop.active && s.c.loop.lock)
  }

  function Recognise(s: State): State {
    var vn := PendingVector(s.c);
    var s1 := if Interruptible(s) && vn != 0 then TakeInterrupt(s, vn) else s;
    s1.(c := s1.c.(intDefer := false))
  }

  function ExecuteSlot(s: State): Slot {
    if s.h.irshPending then ReplaySlot(s) else FetchSlot(s)
  }

  /** Pins tick, a sleeper wakes when a request is pending (its next instruction
      still runs first), interrupts are recognised. */
  function NextSlot(s: State): Slot {
    if s.c.level == DoubleError then Halted
    else
      var c := PinTick(s.c);
      if c.waiting && PendingVector(c) == 0 then Asleep(s.(c := LatencyTick(c)))
      else
        var c1 := if c.waiting then c.(waiting := false, intDefer := true) else c;
        ExecuteSlot(Recognise(s.(c := c1)))
  }

  function Finish(s: State, i: Insn, addr: word): (State, Status) {
    var (s1, st) := Exec(s, i);
    (s1.(c := LoopBack(s1.c, addr)), st)
  }

  /** One slot of core time. */
  function Step(s: State): (State, Status) {
    match NextSlot(s)
    case Halted => (s, DoubleErrorHalt)
    case Asleep(s1) => (s1, Status.Waiting)
    case Faulted(s1) => (s1, Ok)
    case Runs(s1, i, addr) => Finish(s1, i, addr)
  }

  // ---------------------------------------------------------------------
  // Runs

  /** A host raises requests for vectors 8 to 15. */
  function Request(s: State, vns: set<int>): State {
    s.(c := s.c.(pending := s.c.pending + (set v | v in vns && 8 <= v <= 15)))
  }

  /** The state after |reqs| slots, requests arriving before each of them. */
  function Run(s: State, reqs: seq<set<int>>): State {
    if reqs == [] then s
    else Step(Request(Run(s, reqs[..|reqs| - 1]), reqs[|reqs| - 1])).0
  }

  const NO_CAU: CauFlags := CauFlags(false, false, false, false)
  const NO_DAU: DauFlags := DauFlags(false, false, false, false)
  const NO_LOOP: Loop := Loop(false, false, 0, 0, 0)

  function ZeroFile(): AccFile { [ZERO_ACC, ZERO_ACC, ZERO_ACC, ZERO_ACC] }

  /** The state after initialisation and reset with all straps low. */
  function Reset(ext: ExtBytes): State {
    var pipe: AccPipe := [ZeroFile(), ZeroFile(), ZeroFile()];
    var flags: FlagPipe := [NO_DAU, NO_DAU, NO_DAU, NO_DAU];
    var idle := Ps(NO_CAU, NO_DAU, IoPins(false, true, false, false, true, true));
    var zero := Ps(NO_CAU, NO_DAU, IoPins(false, false, false, false, false, false));
    State(Core(seq(23, i => 0), 0, 4, 0, 0, idle, 0, 0x38F, false, 0, 0, ZeroFile(), pipe, flags,
               [Free, Free, Free, Free], NO_LOOP, Base, false, {}, false, false, 0, 0,
               Memory(seq(0x1_0000, i => 0), ext)),
          Hidden(0, 0, false, 0, NO_PREFETCH, Saved(zero, 0, 0, ZeroFile(), pipe, flags, NO_LOOP)))
  }
}
