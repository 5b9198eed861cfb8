/** What branches do with their condition, their counter and their link; and
    what the conditions test. */
module Branching {
  import opened Words
  import opened Dau
  import opened Insn
  import opened Core
  import opened Cau
  import opened Machine
  import opened Interrupts
  import opened Modes
  import opened Registers
  import AluFacts
  import AluMeaning
  import T = Targets

  // ---------------------------------------------------------------------
  // Gotos, calls, loop branches

  function Target(c: Core, rb: Reg, n: half): word {
    (Reads(c, rb) + AluMeaning.SignExtended(n)) % 0x1_0000_0000
  }

  /** A conditional goto loads npc if its condition holds, and else does nothing. */
  lemma GotoDecided(c: Core, i: Insn)
    requires i.Goto16?
    ensures ExecCore(c, i) == (if CondHolds(c, i.c) then c.(npc := Target(c, i.rb, i.n)) else c, Ok)
  {
    OpvalReads(c, i.rb);
    AluMeaning.SextIs(i.n);
    hide CondHolds, Opval, Reads, Sext16, AluMeaning.SignExtended;
  }

  lemma Goto24Means(c: Core, i: Insn)
    requires i.Goto24?
    ensures ExecCore(c, i) == (c.(npc := (Reads(c, i.rb) + i.m24) % 0x1_0000_0000), Ok)
  {
    OpvalReads(c, i.rb);
    hide Opval, Reads;
  }

  /** `if (rM-- >= 0) goto`: the old counter decides, the counter goes down by one
      whatever it was, and nothing else changes. */
  lemma LoopGotoMeans(c: Core, i: Insn)
    requires i.LoopGoto?
    ensures var v, d := Reads(c, i.rm), ExecCore(c, i).0;
            var b := if v < 0x8000_0000 then c.(npc := Target(c, i.rb, i.n)) else c;
            Writes(b, d, i.rm, (v - 1) % 0x1_0000_0000) && d.ps == c.ps && ExecCore(c, i).1 == Ok
  {
    OpvalReads(c, i.rb);
    OpvalReads(c, i.rm);
    AluMeaning.SextIs(i.n);
    var v: int := Reads(c, i.rm);
    var b := if v < 0x8000_0000 then c.(npc := Target(c, i.rb, i.n)) else c;
    RegwWrites(b, i.rm, Wrap(v - 1));
    hide Opval, Reads, Sext16, AluMeaning.SignExtended, Regw, Writes, Wrap;
    assert ExecCore(c, i).0 == Regw(b, i.rm, Wrap(v - 1)) by { hide Target; }
  }

  /** A call puts the address behind its delay slot in rM, then goes; if rM is pc
      the target wins. */
  lemma CallMeans(c: Core, i: Insn)
    requires i.Call16? || i.Call24?
    ensures var d := ExecCore(c, i).0;
            var t: word := if i.Call24? then i.m24 else Target(c, i.rb, i.n);
            && d.npc == t && Writes(c, d.(npc := if i.rm == 15 then Reads(c, 15) else c.npc), i.rm, Reads(c, 15))
            && d.ps == c.ps && ExecCore(c, i).1 == Ok
  {
    var link: word := Wrap(c.curInsn + 8);
    assert Reads(c, 15) == link;
    RegwWrites(c, i.rm, link);
    if i.Call16? {
      OpvalReads(c, i.rb);
      AluMeaning.SextIs(i.n);
      hide Reads;
    }
    hide Opval, Sext16, AluMeaning.SignExtended, Regw;
  }

  // ---------------------------------------------------------------------
  // Compare, then branch

  /** The order each of ten conditions stands for. */
  predicate OrderHolds(cond: Cond, a: word, b: word, w16: bool) {
    var ua, ub := a % AluMeaning.Modulus(w16), b % AluMeaning.Modulus(w16);
    var sa, sb := AluMeaning.SignedPart(a, w16), AluMeaning.SignedPart(b, w16);
    match cond
    case 4 => ua != ub
    case 5 => ua == ub
    case 8 => ua >= ub
    case 9 => ua < ub
    case 10 => sa >= sb
    case 11 => sa < sb
    case 12 => sa > sb
    case 13 => sa <= sb
    case 14 => ua > ub
    case 15 => ua <= ub
    case _ => false
  }

  predicate IsOrder(cond: Cond) { cond == 4 || cond == 5 || 8 <= cond <= 15 }

  lemma PartsAgree(x: word, w16: bool)
    ensures AluFacts.SignedOperand(x, w16) == AluMeaning.SignedPart(x, w16)
    ensures AluFacts.UnsignedOperand(x, w16) == x % AluMeaning.Modulus(w16)
  {
  }

  lemma TellsOrders(d: Core, cond: Cond, a: word, b: word, w16: bool)
    requires AluFacts.TellsOrder(d, a, b, w16) && IsOrder(cond)
    ensures CondHolds(d, cond) == OrderHolds(cond, a, b, w16)
  {
    PartsAgree(a, w16);
    PartsAgree(b, w16);
    hide AluFacts.SignedOperand, AluFacts.UnsignedOperand, AluMeaning.SignedPart, AluMeaning.Modulus, CondHolds;
  }

  /** A compare of registers (code 7) or with an immediate. */
  predicate Compares(i: Insn) {
    (i.AluReg? && i.f == 7 && i.c == 1) || (i.AluImm? && i.f == 7)
  }

  function Compared(c: Core, i: Insn): (word, word, bool)
    requires Compares(i)
  {
    if i.AluReg? then (Reads(c, i.rs1), Reads(c, i.rs2), !i.long)
    else (Reads(c, i.rd), AluMeaning.SignExtended(i.n), !i.long)
  }

  lemma CompareTells(c: Core, i: Insn, cond: Cond)
    requires Compares(i) && IsOrder(cond)
    ensures var d := ExecCore(c, i).0;
            var (a, b, w16) := Compared(c, i);
            d == c.(ps := c.ps.(cau := d.ps.cau)) && CondHolds(d, cond) == OrderHolds(cond, a, b, w16)
  {
    var (a, b, w16) := Compared(c, i);
    if i.AluReg? {
      AluFacts.CompareThenBranch(c, i.long, i.rs1, i.rs2);
      OpvalReads(c, i.rs1);
      OpvalReads(c, i.rs2);
      CompareIgnoresRd(c, i);
    } else {
      AluFacts.CompareImmediateThenBranch(c, i.long, i.rd, i.n);
      OpvalReads(c, i.rd);
      AluMeaning.SextIs(i.n);
    }
    hide ExecAluReg, ExecAluImm, Opval, Reads, AluFacts.TellsOrder, OrderHolds, CondHolds, AluMeaning.SignExtended;
    TellsOrders(ExecCore(c, i).0, cond, a, b, w16);
  }

  lemma CompareIgnoresRd(c: Core, i: Insn)
    requires i.AluReg? && i.f == 7 && i.c == 1
    ensures ExecAluReg(c, i) == ExecAluReg(c, AluReg(i.long, F_CMP, 0, i.rs1, 1, i.rs2))
  {
    hide AluSub, Opval, CondHolds;
  }

  /** The slot of an instruction has the CAU flags its predecessor left, interrupts
      between them or not. */
  lemma FlagsArrive(s: State, n: Slot)
    requires RunsAt(s, n)
    ensures n.s.c.ps.cau == s.c.ps.cau
  {
    hide NextSlot, ReturnSlot, HandlerSlot, ShadowedInstruction, Decode, HandlerRuns;
    if Interrupted(s) {
      var reqs :| ReturningHandler(s, reqs) && n == ReturnSlot(s, reqs);
      ReturnReplays(s, reqs);
      ReplayFlags(HandlerSlot(s, reqs).s.c, s);
    } else {
      PlainFlags(s);
    }
  }

  lemma ReplayFlags(h: Core, s: State)
    ensures ReplayCore(h, Save(PinTick(s.c)), s.c.pc).ps.cau == s.c.ps.cau
  {
    hide Aged;
  }

  lemma PlainFlags(s: State)
    requires !Interrupted(s) && !s.h.irshPending && NextSlot(s).Runs?
    ensures NextSlot(s).s.c.ps.cau == s.c.ps.cau
  {
    hide PendingFrom, FetchSlot, Aged;
    var c := PinTick(s.c);
    var c1 := if c.waiting then c.(waiting := false, intDefer := true) else c;
    var t := Recognise(s.(c := c1));
    assert t == s.(c := c1.(intDefer := false));
    assert NextSlot(s) == FetchSlot(t);
    FetchedCoreIs(t);
  }

  lemma AfterKeepsFlags(n: Slot)
    requires n.Runs? && !IsIreturn(n.insn)
    ensures T.After(n).c.ps == ExecCore(n.s.c, n.insn).0.ps
    ensures T.NotLoopEnd(n) && ExecCore(n.s.c, n.insn).0.loop == n.s.c.loop ==> T.After(n).c == ExecCore(n.s.c, n.insn).0
  {
    hide ExecCore;
    var d := ExecCore(n.s.c, n.insn).0;
    if d.loop.active && n.addr == d.loop.last {
      if Wrap(d.loop.count - 1) == 0 { } else { }
    }
  }

  /** Compare and branch, as the machine runs them, interrupts between them or
      not: control goes on at the target if the order holds, and else behind the
      delay slot. */
  lemma CompareThenGoto(s: State, n0: Slot, n1: Slot)
    requires RunsAt(s, n0) && n0.Runs? && Compares(n0.insn)
    requires n1.Runs? && T.Follows(n0, n1) && T.NotLoopEnd(n1)
    requires n1.insn.Goto16? && IsOrder(n1.insn.c)
    ensures var (a, b, w16) := Compared(n0.s.c, n0.insn);
            T.After(n1).c.pc == n1.s.c.pc
            && T.After(n1).c.npc == if OrderHolds(n1.insn.c, a, b, w16) then Target(n1.s.c, n1.insn.rb, n1.insn.n)
                                    else Wrap(T.After(n0).c.npc + 4)
  {
    hide *;
    var r := FollowsFrom(n0, n1);
    NotReturns(n0.insn, n1.insn);
    AfterKeepsFlags(n0);
    AfterKeepsFlags(n1);
    RunsInPlace(r, n1);
    FlagsArrive(r, n1);
    InPlaceNext(r, n1);
    GotoAfterCompare(n0.s.c, n0.insn, n1.s.c, n1.insn);
  }

  lemma FollowsFrom(n: Slot, m: Slot) returns (r: State)
    requires n.Runs? && T.Follows(n, m)
    ensures m.Runs? && RunsAt(r, m)
    ensures r.c.ps == T.After(n).c.ps && r.c.npc == T.After(n).c.npc && r.c.loop == T.After(n).c.loop
  {
    hide RunsAt, T.After;
    var vns: set<int> :| RunsAt(Request(T.After(n), vns), m);
    r := Request(T.After(n), vns);
  }

  lemma NotReturns(i: Insn, j: Insn)
    requires Compares(i) && j.Goto16? && IsOrder(j.c)
    ensures !IsIreturn(i) && !IsIreturn(j)
  {
  }

  lemma InPlaceNext(s: State, n: Slot)
    requires SlotAt(s, n)
    ensures n.Runs? && n.s.c.npc == Wrap(s.c.npc + 4) && n.s.c.loop == s.c.loop
  {
  }

  /** In terms of cores: the goto finds the compare's flags. */
  lemma GotoAfterCompare(c: Core, i: Insn, d: Core, j: Insn)
    requires Compares(i) && j.Goto16? && IsOrder(j.c) && d.ps.cau == ExecCore(c, i).0.ps.cau
    ensures var (a, b, w16) := Compared(c, i);
            var e := ExecCore(d, j).0;
            && e.pc == d.pc && e.loop == d.loop
            && e.npc == if OrderHolds(j.c, a, b, w16) then Target(d, j.rb, j.n) else d.npc
  {
    CompareTells(c, i, j.c);
    GotoDecided(d, j);
    hide ExecCore, CondHolds, OrderHolds, Target, Compared, Compares;
    SameFlagsSameOrder(ExecCore(c, i).0, d, j.c);
  }

  lemma SameFlagsSameOrder(c: Core, d: Core, cond: Cond)
    requires c.ps.cau == d.ps.cau && IsOrder(cond)
    ensures CondHolds(c, cond) == CondHolds(d, cond)
  {
  }

  // ---------------------------------------------------------------------
  // The conditions and the status word

  /** The status word shows the flags in the manual's places. */
  lemma StatusBits(p: Ps)
    ensures var w := PsWord(p);
            && Bit(w, 0) == p.cau.n && Bit(w, 1) == p.cau.z && Bit(w, 2) == p.cau.v && Bit(w, 3) == p.cau.c
            && Bit(w, 4) == p.dau.n && Bit(w, 5) == p.dau.z && Bit(w, 6) == p.dau.u && Bit(w, 7) == p.dau.v
            && Bit(w, 8) == p.io.ibf && Bit(w, 9) == p.io.obe && Bit(w, 10) == p.io.sy && Bit(w, 11) == p.io.fb
            && Bit(w, 12) == p.io.ir0 && Bit(w, 13) == p.io.ir1 && w < 0x4000
  {
    hide *;
    Nibble(p.cau.n, p.cau.z, p.cau.v, p.cau.c);
    Nibble(p.dau.n, p.dau.z, p.dau.u, p.dau.v);
    Nibble(p.io.ibf, p.io.obe, p.io.sy, p.io.fb);
    Nibble(p.io.ir0, p.io.ir1, false, false);
    StatusNibbles(p);
    TwoBits(p.io.ir0, p.io.ir1);
    Nibbles(FlagBits(p.cau.n, p.cau.z, p.cau.v, p.cau.c), FlagBits(p.dau.n, p.dau.z, p.dau.u, p.dau.v),
            FlagBits(p.io.ibf, p.io.obe, p.io.sy, p.io.fb), FlagBits(p.io.ir0, p.io.ir1, false, false));
  }

  lemma StatusNibbles(p: Ps)
    ensures PsWord(p) == FlagBits(p.cau.n, p.cau.z, p.cau.v, p.cau.c)
                         + 0x10 * FlagBits(p.dau.n, p.dau.z, p.dau.u, p.dau.v)
                         + 0x100 * FlagBits(p.io.ibf, p.io.obe, p.io.sy, p.io.fb)
                         + 0x1000 * FlagBits(p.io.ir0, p.io.ir1, false, false)
  {
    hide FlagBits;
  }

  lemma TwoBits(a: bool, b: bool)
    ensures FlagBits(a, b, false, false) < 4
  {
  }

  lemma Nibble(a: bool, b: bool, c: bool, d: bool)
    ensures var x := FlagBits(a, b, c, d);
            x < 16 && Bit(x, 0) == a && Bit(x, 1) == b && Bit(x, 2) == c && Bit(x, 3) == d
  {
  }

  lemma Nibbles(w0: nat, w1: nat, w2: nat, w3: nat)
    requires w0 < 16 && w1 < 16 && w2 < 16 && w3 < 4
    ensures var w := w0 + 0x10 * w1 + 0x100 * w2 + 0x1000 * w3;
            && Bit(w, 0) == Bit(w0, 0) && Bit(w, 1) == Bit(w0, 1) && Bit(w, 2) == Bit(w0, 2) && Bit(w, 3) == Bit(w0, 3)
            && Bit(w, 4) == Bit(w1, 0) && Bit(w, 5) == Bit(w1, 1) && Bit(w, 6) == Bit(w1, 2) && Bit(w, 7) == Bit(w1, 3)
            && Bit(w, 8) == Bit(w2, 0) && Bit(w, 9) == Bit(w2, 1) && Bit(w, 10) == Bit(w2, 2) && Bit(w, 11) == Bit(w2, 3)
            && Bit(w, 12) == Bit(w3, 0) && Bit(w, 13) == Bit(w3, 1) && w < 0x4000
  {
    hide Bit;
    var r2: nat := w2 + 0x10 * w3;
    var r1: nat := w1 + 0x10 * r2;
    var w: nat := w0 + 0x10 * r1;
    FourLow(w0, r1);
    FourLow(w1, r2);
    FourLow(w2, w3);
    FourHigh(w0, r1);
    FourHigh(w1, r2);
    FourHigh(w2, w3);
  }

  lemma FourLow(low: nat, rest: nat)
    requires low < 16
    ensures var w := low + 0x10 * rest;
            Bit(w, 0) == Bit(low, 0) && Bit(w, 1) == Bit(low, 1) && Bit(w, 2) == Bit(low, 2) && Bit(w, 3) == Bit(low, 3)
  {
    var w := low + 0x10 * rest;
    assert Pow2(4) == 16;
    DivUnique(w, 16, rest, low);
    hide Bit, Pow2;
    LowBit(w, 4, 0);
    LowBit(w, 4, 1);
    LowBit(w, 4, 2);
    LowBit(w, 4, 3);
  }

  lemma FourHigh(low: nat, rest: nat)
    requires low < 16
    ensures var w := low + 0x10 * rest;
            && Bit(w, 4) == Bit(rest, 0) && Bit(w, 5) == Bit(rest, 1) && Bit(w, 6) == Bit(rest, 2) && Bit(w, 7) == Bit(rest, 3)
            && Bit(w, 8) == Bit(rest, 4) && Bit(w, 9) == Bit(rest, 5) && Bit(w, 10) == Bit(rest, 6)
            && Bit(w, 11) == Bit(rest, 7) && Bit(w, 12) == Bit(rest, 8) && Bit(w, 13) == Bit(rest, 9)
  {
    hide Bit;
    Above(low, rest, 0);
    Above(low, rest, 1);
    Above(low, rest, 2);
    Above(low, rest, 3);
    Above(low, rest, 4);
    Above(low, rest, 5);
    Above(low, rest, 6);
    Above(low, rest, 7);
    Above(low, rest, 8);
    Above(low, rest, 9);
  }

  lemma Above(low: nat, rest: nat, k: nat)
    requires low < 16
    ensures Bit(low + 0x10 * rest, 4 + k) == Bit(rest, k)
  {
    var w := low + 0x10 * rest;
    assert Pow2(4) == 16;
    DivUnique(w, 16, rest, low);
    hide Pow2;
    ShiftShift(w, 4, k);
  }

  /** Odd conditions test a flag or a combination of flags; the even one before
      each is its opposite.  First the CAU's. */
  lemma CauConditions(c: Core)
    ensures var f := c.ps.cau;
            && !CondHolds(c, 0) && CondHolds(c, 1)
            && CondHolds(c, 3) == f.n && CondHolds(c, 5) == f.z && CondHolds(c, 7) == f.v && CondHolds(c, 9) == f.c
            && CondHolds(c, 11) == (f.n != f.v) && CondHolds(c, 13) == (f.z || f.n != f.v) && CondHolds(c, 15) == (f.c || f.z)
  {
  }

  /** The DAU conditions test the flags of four instructions back. */
  lemma DauConditions(c: Core)
    ensures var d := c.flagPipe[3];
            && CondHolds(c, 17) == d.u && CondHolds(c, 19) == d.n && CondHolds(c, 21) == d.z && CondHolds(c, 23) == d.v
            && CondHolds(c, 25) == (d.n || d.z)
  {
  }

  /** And the pins. */
  lemma PinConditions(c: Core)
    ensures var p := c.ps.io;
            && CondHolds(c, 33) == p.ibf && CondHolds(c, 35) == p.obe && CondHolds(c, 41) == p.sy && CondHolds(c, 43) == p.fb
            && CondHolds(c, 45) == p.ir0 && CondHolds(c, 47) == p.ir1
  {
  }

  lemma EvenIsOpposite(c: Core, k: nat)
    requires 1 <= k <= 12 || k == 16 || k == 17 || 20 <= k <= 23
    ensures CondHolds(c, 2 * k) == !CondHolds(c, 2 * k + 1)
  {
  }

  lemma OthersNeverHold(c: Core, k: Cond)
    requires 26 <= k < 32 || 36 <= k < 40 || 48 <= k
    ensures !CondHolds(c, k)
  {
  }
}
