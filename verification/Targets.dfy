/** One target for three tools: the label a branch is assembled to, the target
    the disassembler resolves, and the address the emulator reaches after one
    delay slot. */
module Targets {
  import opened Words
  import opened Insn
  import opened Core
  import opened Cau
  import opened Machine
  import opened Interrupts
  import opened DoLoops
  import S = Syntax
  import D = Dis
  import A = Asm
  import R = RoundTrip

  // ---------------------------------------------------------------------
  // Assembler and disassembler

  /** The branch statements that name a label. */
  datatype Form = GotoForm(c: Cond) | CallForm(rm: Reg) | LoopForm(rm: Reg)

  function LabelText(name: string, k: int, rest: S.Toks): S.Toks {
    S.Cons(S.TSym(name), if k == 0 then rest else D.PDisp(k, rest))
  }

  /** `if (c) goto name+k`, `call name+k (rM)` and `if (rM-- >= 0) goto name+k`. */
  function BranchText(form: Form, name: string, k: int): S.Toks {
    match form
    case GotoForm(c) => D.PIf(c, S.Cons(S.TKw(S.KwGoto), LabelText(name, k, S.End)))
    case CallForm(rm) =>
      S.Cons(S.TKw(S.KwCall), LabelText(name, k, D.P(S.Open, D.PReg(rm, D.P(S.Close, S.End)))))
    case LoopForm(rm) =>
      S.Cons(S.TKw(S.KwIf), D.P(S.Open, D.PReg(rm, D.P(S.Dec, D.P(S.AtLeast, S.Cons(S.TNum(0, false), D.P(S.Close,
        S.Cons(S.TKw(S.KwGoto), LabelText(name, k, S.End)))))))))
  }

  predicate NamedForm(form: Form) {
    match form
    case GotoForm(c) => S.NamedCond(c)
    case CallForm(rm) => S.OperandReg(rm)
    case LoopForm(rm) => S.OperandReg(rm)
  }

  /** The displacements each form can hold. */
  predicate Reaches(form: Form, n: int) {
    A.FitsS16(n) || (form == GotoForm(1) && 0 <= n <= 0xFF_FFFF)
  }

  lemma LabelDest(env: A.Env, addr: word, name: string, k: int, rest: S.Toks)
    requires name in env && R.Closed(rest)
    ensures A.DestOf(env, addr, LabelText(name, k, rest)) == S.Some((A.PcRelative(env[name] + k - (addr + 8)), rest))
  {
    var v: int := env[name];
    var tail := if k == 0 then rest else D.PDisp(k, rest);
    assert A.TryReg(LabelText(name, k, rest)).None?;
    assert A.Chain(env, false, v, tail) == S.Some((v + k, rest)) by {
      if k != 0 {
        var n: nat := if k < 0 then -1 * k else k;
        assert A.Primary(env, false, D.Hex(n, rest)) == S.Some((n as int, rest));
        assert A.Chain(env, false, v + k, rest) == S.Some((v + k, rest));
      }
    }
    hide A.TryReg, A.Chain, A.Expr;
  }

  function BranchInsn(form: Form, n: int): Insn
    requires Reaches(form, n)
  {
    var low: half := n % 0x1_0000;
    match form
    case GotoForm(c) => if A.FitsS16(n) then Goto16(c, PC, low) else Goto24(PC, n)
    case CallForm(rm) => Call16(rm, PC, low)
    case LoopForm(rm) => LoopGoto(rm, PC, low)
  }

  lemma BranchAssembles(env: A.Env, addr: word, form: Form, name: string, k: int)
    requires name in env && NamedForm(form)
    ensures var n := env[name] + k - (addr + 8);
            A.AsmInsn(env, addr, BranchText(form, name, k))
            == if Reaches(form, n) then S.Some(BranchInsn(form, n)) else S.None
  {
    match form
    case GotoForm(c) =>
      LabelDest(env, addr, name, k, S.End);
      hide A.DestOf, LabelText;
      assert A.AsmInsn(env, addr, BranchText(form, name, k)) == A.EncGotoStmt(env, addr, c, LabelText(name, k, S.End));
    case CallForm(rm) =>
      var link := D.P(S.Open, D.PReg(rm, D.P(S.Close, S.End)));
      LabelDest(env, addr, name, k, link);
      R.RegBack(rm, D.P(S.Close, S.End));
      hide A.DestOf, LabelText, A.TryReg;
      assert A.AsmInsn(env, addr, BranchText(form, name, k)) == A.EncCallStmt(env, addr, LabelText(name, k, link));
    case LoopForm(rm) => LoopAssembles(env, addr, rm, name, k);
  }

  lemma LoopAssembles(env: A.Env, addr: word, rm: Reg, name: string, k: int)
    requires name in env && S.OperandReg(rm)
    ensures var n := env[name] + k - (addr + 8);
            A.AsmInsn(env, addr, BranchText(LoopForm(rm), name, k))
            == if A.FitsS16(n) then S.Some(LoopGoto(rm, PC, n % 0x1_0000)) else S.None
  {
    LabelDest(env, addr, name, k, S.End);
    var target := LabelText(name, k, S.End);
    var tail := D.P(S.Dec, D.P(S.AtLeast, S.Cons(S.TNum(0, false), D.P(S.Close, S.Cons(S.TKw(S.KwGoto), target)))));
    R.RegBack(rm, tail);
    assert A.AsmInsn(env, addr, BranchText(LoopForm(rm), name, k)) == A.EncLoopGoto(env, addr, D.PReg(rm, tail));
    hide A.DestOf, LabelText, A.TryReg, D.PReg, A.AsmInsn, BranchText;
  }

  /** A branch to a label is accepted exactly when its displacement fits, and
      the disassembler resolves it to that label again. */
  lemma LabelTarget(env: A.Env, addr: word, form: Form, name: string, k: int)
    requires name in env && NamedForm(form)
    ensures var r := A.AsmInsn(env, addr, BranchText(form, name, k));
            && (r.Some? <==> Reaches(form, env[name] + k - (addr + 8)))
            && (r.Some? ==> D.DisInsn(r.value, addr).isBranch
                            && D.DisInsn(r.value, addr).target == S.Some(Wrap(env[name] + k)))
  {
    hide *;
    BranchAssembles(env, addr, form, name, k);
    var n := env[name] + k - (addr + 8);
    assert addr + 8 + n == env[name] + k;
    if Reaches(form, n) { BranchTarget(form, n, addr); }
  }

  lemma BranchTarget(form: Form, n: int, addr: word)
    requires Reaches(form, n)
    ensures var l := D.DisInsn(BranchInsn(form, n), addr);
            l.isBranch && l.target == S.Some(Wrap(addr + 8 + n))
  {
    hide D.Goto16Text, D.LoopGotoText, D.PReg, D.PTarget, D.MacText, D.SpecialText, D.AluRegText,
         D.AluImmText, D.Add16Text, D.MoveText, D.DoText, A.FitsS16, Signed16, Wrap;
    if A.FitsS16(n) { LowHalf(addr, n); }
  }

  /** A displacement survives its 16-bit field, spelled either way. */
  lemma LowHalf(addr: word, n: int)
    requires A.FitsS16(n)
    ensures D.Target(addr, PC, Signed16(n % 0x1_0000)) == S.Some(Wrap(addr + 8 + n))
  {
  }

  // ---------------------------------------------------------------------
  // Disassembler and emulator

  /** The branch condition; a loop branch counting pc itself is left out. */
  predicate TakenIn(c: Core, i: Insn) {
    match i
    case Goto16(cond, _, _) => CondHolds(c, cond)
    case LoopGoto(rm, _, _) => Signed32(Opval(c, rm)) >= 0 && rm != PC
    case _ => true
  }

  lemma PcValue(c: Core)
    ensures Opval(c, PC) == Wrap(c.curInsn + 8) && Opval(c, R0) == 0
  {
  }

  /** Base plus displacement, as the emulator adds and the disassembler resolves. */
  lemma BaseSum(c: Core, rb: Reg, n: half)
    requires rb == PC || rb == R0
    ensures S.Some(Wrap(Opval(c, rb) + Sext16(n))) == D.Target(c.curInsn, rb, Signed16(n))
  {
    PcValue(c);
    SextSum(c.curInsn + 8, n);
    SextSum(0, n);
    hide Opval, Sext16, Signed16;
  }

  lemma SextSum(a: int, n: half)
    ensures Wrap(Wrap(a) + Sext16(n)) == Wrap(a + Signed16(n)) && Wrap(0 + Sext16(n)) == Wrap(0 + Signed16(n))
  {
  }

  lemma TargetBase(addr: word, rb: Reg, n: int)
    ensures D.Target(addr, rb, n).Some? ==> rb == PC || rb == R0
  {
  }

  /** What a taken branch changes of the flow of control. */
  predicate JumpsTo(c: Core, d: Core, t: word) {
    d.npc == t && d.pc == c.pc && d.loop == c.loop && SameModes(c, d)
  }

  predicate SameModes(c: Core, d: Core) {
    && d.level == c.level && d.waiting == c.waiting && d.intDefer == c.intDefer
    && d.pending == c.pending && d.emr == c.emr
  }

  lemma Goto16Reaches(c: Core, i: Insn)
    requires i.Goto16? && TakenIn(c, i) && D.Target(c.curInsn, i.rb, Signed16(i.n)).Some?
    ensures JumpsTo(c, ExecCore(c, i).0, D.Target(c.curInsn, i.rb, Signed16(i.n)).value)
  {
    TargetBase(c.curInsn, i.rb, Signed16(i.n));
    BaseSum(c, i.rb, i.n);
    hide D.Target, Opval, Sext16, Signed16, CondHolds;
  }

  lemma LoopGotoReaches(c: Core, i: Insn)
    requires i.LoopGoto? && TakenIn(c, i) && D.Target(c.curInsn, i.rb, Signed16(i.n)).Some?
    ensures JumpsTo(c, ExecCore(c, i).0, D.Target(c.curInsn, i.rb, Signed16(i.n)).value)
  {
    TargetBase(c.curInsn, i.rb, Signed16(i.n));
    BaseSum(c, i.rb, i.n);
    hide D.Target, Opval, Sext16, Signed16, Signed32, Regw;
    var d := c.(npc := Wrap(Opval(c, i.rb) + Sext16(i.n)));
    RegwFlow(d, i.rm, Wrap(Opval(c, i.rm) - 1));
    RegwNpc(d, i.rm, Wrap(Opval(c, i.rm) - 1));
  }

  lemma Call16Reaches(c: Core, i: Insn)
    requires i.Call16? && D.Target(c.curInsn, i.rb, Signed16(i.n)).Some?
    ensures JumpsTo(c, ExecCore(c, i).0, D.Target(c.curInsn, i.rb, Signed16(i.n)).value)
  {
    TargetBase(c.curInsn, i.rb, Signed16(i.n));
    BaseSum(c, i.rb, i.n);
    hide D.Target, Opval, Sext16, Signed16, Regw;
    var d := Regw(c, i.rm, Wrap(c.curInsn + 8));
    RegwNpc(c, i.rm, Wrap(c.curInsn + 8));
    assert ExecCore(c, i).0 == d.(npc := Wrap(Opval(c, i.rb) + Sext16(i.n)));
    hide ExecCore;
    JumpFrom(c, d, Wrap(Opval(c, i.rb) + Sext16(i.n)));
  }

  lemma JumpFrom(c: Core, d: Core, t: word)
    requires d.pc == c.pc && d.loop == c.loop && SameModes(c, d)
    ensures JumpsTo(c, d.(npc := t), t)
  {
  }

  lemma WideReaches(c: Core, i: Insn)
    requires i.Goto24? || i.Call24?
    requires i.Goto24? ==> D.Target(c.curInsn, i.rb, i.m24).Some?
    ensures JumpsTo(c, ExecCore(c, i).0, if i.Goto24? then D.Target(c.curInsn, i.rb, i.m24).value else i.m24)
  {
    PcValue(c);
    hide Opval, Regw;
    if i.Call24? {
      RegwNpc(c, i.rm, Wrap(c.curInsn + 8));
    }
  }

  /** The instructions the disassembler gives a target. */
  lemma WhichBranch(i: Insn, addr: word)
    requires D.DisInsn(i, addr).isBranch && D.DisInsn(i, addr).target.Some?
    ensures i.Goto16? || i.LoopGoto? || i.Call16? || i.Goto24? || i.Call24?
    ensures D.DisInsn(i, addr).target
            == if i.Call24? then S.Some(i.m24)
               else if i.Goto24? then D.Target(addr, i.rb, i.m24)
               else D.Target(addr, i.rb, Signed16(i.n))
    ensures !IsIreturn(i)
  {
    hide D.Goto16Text, D.LoopGotoText, D.PReg, D.PTarget, D.MacText, D.SpecialText, D.AluRegText,
         D.AluImmText, D.Add16Text, D.MoveText, D.DoText;
  }

  /** A taken branch loads the delayed program counter with the target the
      disassembler names, and nothing else of the flow of control changes. */
  lemma BranchReachesTarget(c: Core, i: Insn)
    requires D.DisInsn(i, c.curInsn).isBranch && D.DisInsn(i, c.curInsn).target.Some? && TakenIn(c, i)
    ensures JumpsTo(c, ExecCore(c, i).0, D.DisInsn(i, c.curInsn).target.value)
    ensures !IsIreturn(i)
  {
    WhichBranch(i, c.curInsn);
    hide D.DisInsn, D.Target, ExecCore, Signed16, TakenIn;
    match i
    case Goto16(_, _, _) => Goto16Reaches(c, i);
    case LoopGoto(_, _, _) => LoopGotoReaches(c, i);
    case Call16(_, _, _) => Call16Reaches(c, i);
    case _ => WideReaches(c, i);
  }

  lemma RegwNpc(c: Core, code: Reg, v: word)
    ensures var d := Regw(c, code, v); d.pc == c.pc && d.loop == c.loop && SameModes(c, d)
  {
    hide RegDecode;
    match RegDecode(code)
    case General(_) =>
    case _ =>
  }

  // ---------------------------------------------------------------------
  // The delay slot

  /** The instruction executed is not the last of an active do-loop. */
  predicate NotLoopEnd(n: Slot)
    requires n.Runs?
  {
    !(n.s.c.loop.active && n.addr == n.s.c.loop.last)
  }

  /** The slot executes a taken branch to t. */
  predicate BranchesTo(n: Slot, t: word)
    requires n.Runs?
  {
    && D.DisInsn(n.insn, n.addr).isBranch && D.DisInsn(n.insn, n.addr).target == S.Some(t)
    && TakenIn(n.s.c, n.insn) && NotLoopEnd(n)
  }

  /** The slot executes an instruction that leaves the flow of control alone. */
  predicate FallsThrough(n: Slot)
    requires n.Runs?
  {
    Straight(n.s.c, n.insn) && NotLoopEnd(n)
  }

  function After(n: Slot): State
    requires n.Runs?
  {
    Finish(n.s, n.insn, n.addr).0
  }

  /** m is where the next instruction after n executes; requests may arrive and
      an interrupt may be taken, handled and returned from in between. */
  ghost predicate Follows(n: Slot, m: Slot)
    requires n.Runs?
  {
    m.Runs? && exists vns: set<int> :: RunsAt(Request(After(n), vns), m)
  }

  lemma FollowsInPlace(n: Slot, m: Slot)
    requires n.Runs? && Follows(n, m)
    ensures SlotAt(After(n), m)
  {
    hide After, RunsAt;
    var vns: set<int> :| RunsAt(Request(After(n), vns), m);
    RunsInPlace(Request(After(n), vns), m);
  }

  /** After a taken branch: sequential pc, the target behind it. */
  lemma BranchFlow(s: State, n: Slot, t: word)
    requires SlotAt(s, n) && BranchesTo(n, t)
    ensures var d := After(n); d.c.pc == s.c.npc && d.c.npc == t && d.c.loop == s.c.loop && SameModes(n.s.c, d.c)
                               && d.h == n.s.h
  {
    BranchReachesTarget(n.s.c, n.insn);
    FinishKeepsHidden(n.s, n.insn, n.addr);
    hide D.DisInsn, ExecCore, TakenIn;
  }

  lemma StraightFlow(s: State, n: Slot)
    requires SlotAt(s, n) && FallsThrough(n)
    ensures After(n).c.pc == s.c.npc && After(n).c.npc == Wrap(s.c.npc + 4)
  {
    hide ExecCore;
  }

  /** When a delay slot can be parted from its branch: only if the branch goes to
      the address behind the slot, and then if a request is enabled at base level
      outside a locked loop. */
  lemma SlotInterruptedIff(s: State, n: Slot, t: word, vns: set<int>)
    requires RunsAt(s, n) && BranchesTo(n, t)
    ensures Interrupted(Request(After(n), vns))
            <==> t == Wrap(s.c.npc + 4) && s.c.level == Base && !(s.c.loop.active && s.c.loop.lock)
                 && PendingVector(Request(n.s, vns).c) != 0
  {
    hide RunsAt, BranchesTo, After, PendingVector, Interrupted, Wrap;
    RunsInPlace(s, n);
    BranchFlow(s, n, t);
    InterruptedWhen(After(n), n.s, vns);
  }

  lemma InterruptedWhen(d: State, b: State, vns: set<int>)
    requires SameModes(b.c, d.c) && !d.c.waiting && !d.c.intDefer && !d.h.irshPending
    ensures Interrupted(Request(d, vns))
            <==> d.c.level == Base && d.c.npc == Wrap(d.c.pc + 4) && !(d.c.loop.active && d.c.loop.lock)
                 && PendingVector(Request(b, vns).c) != 0
  {
    SameRequests(PinTick(Request(d, vns).c), Request(b, vns).c, 8);
    hide PendingFrom, Wrap;
  }

  lemma SameRequests(c: Core, d: Core, vn: nat)
    requires c.pending == d.pending && c.emr == d.emr && 8 <= vn <= 16
    ensures PendingFrom(c, vn) == PendingFrom(d, vn)
    decreases 16 - vn
  {
    hide Bit;
    if vn < 16 { SameRequests(c, d, vn + 1); }
  }

  /** A branch anywhere else protects its slot: what follows is the plain next
      slot. */
  lemma SlotIsProtected(s: State, n: Slot, t: word, m: Slot)
    requires RunsAt(s, n) && BranchesTo(n, t) && t != Wrap(s.c.npc + 4)
    requires Follows(n, m)
    ensures exists vns: set<int> :: !Interrupted(Request(After(n), vns)) && m == NextSlot(Request(After(n), vns))
  {
    var vns: set<int> :| RunsAt(Request(After(n), vns), m);
    SlotInterruptedIff(s, n, t, vns);
    hide BranchesTo, After, Interrupted, NextSlot;
  }

  /** A taken branch executes one more instruction in sequence, then its target,
      wherever interrupts are taken. */
  lemma OneDelaySlot(s: State, n0: Slot, n1: Slot, n2: Slot, t: word)
    requires RunsAt(s, n0) && BranchesTo(n0, t)
    requires Follows(n0, n1) && FallsThrough(n1)
    requires Follows(n1, n2)
    ensures n0.addr == s.c.pc && n1.addr == s.c.npc && n2.addr == t && n2.s.c.pc == Wrap(t + 4)
  {
    hide RunsAt, BranchesTo, FallsThrough, Follows, After;
    RunsInPlace(s, n0);
    BranchFlow(s, n0, t);
    FollowsInPlace(n0, n1);
    StraightFlow(After(n0), n1);
    FollowsInPlace(n1, n2);
  }

  /** A branch in the delay slot of a branch: I1, I2, one instruction at I1's
      target, then I2's target. */
  lemma BackToBackBranches(s: State, n0: Slot, n1: Slot, n2: Slot, n3: Slot, t: word, u: word)
    requires RunsAt(s, n0) && BranchesTo(n0, t)
    requires Follows(n0, n1) && BranchesTo(n1, u)
    requires Follows(n1, n2) && FallsThrough(n2)
    requires Follows(n2, n3)
    ensures n0.addr == s.c.pc && n1.addr == s.c.npc && n2.addr == t && n3.addr == u && n3.s.c.pc == Wrap(u + 4)
  {
    hide RunsAt, BranchesTo, FallsThrough, Follows, After;
    RunsInPlace(s, n0);
    BranchFlow(s, n0, t);
    FollowsInPlace(n0, n1);
    BranchFlow(After(n0), n1, u);
    FollowsInPlace(n1, n2);
    StraightFlow(After(n1), n2);
    FollowsInPlace(n2, n3);
  }
}
