/** From a label in a source to the address the machine executes: the two-pass
    assembler, the image in memory, the disassembler and the emulator in one
    statement. */
module EndToEnd {
  import opened Words
  import opened Insn
  import opened Syntax
  import opened Asm
  import opened AsmSound
  import opened Passes
  import Images
  import D = Dis
  import C = Core
  import M = Machine
  import I = Interrupts
  import T = Targets
  import F = Fetching

  // ---------------------------------------------------------------------
  // The second pass, line by line

  /** The state of a pass before line k. */
  function Before(cfg: Config, t: St, lines: seq<Stmt>, k: nat): St
    requires Pass(cfg, t, lines).Some? && k <= |lines|
    decreases k
  {
    if k == 0 then t else Before(cfg, ProcessLine(cfg, t, lines[0]).value, lines[1..], k - 1)
  }

  lemma {:induction false} LineAt(cfg: Config, t: St, lines: seq<Stmt>, k: nat)
    requires Pass(cfg, t, lines).Some? && k < |lines|
    ensures ProcessLine(cfg, Before(cfg, t, lines, k), lines[k]) == Some(Before(cfg, t, lines, k + 1))
    decreases k
  {
    hide ProcessLine;
    if k > 0 { LineAt(cfg, ProcessLine(cfg, t, lines[0]).value, lines[1..], k - 1); }
  }

  lemma {:induction false} BeforeEnd(cfg: Config, t: St, lines: seq<Stmt>)
    requires Pass(cfg, t, lines).Some?
    ensures Before(cfg, t, lines, |lines|) == Pass(cfg, t, lines).value
    decreases |lines|
  {
    hide ProcessLine;
    if lines != [] { BeforeEnd(cfg, ProcessLine(cfg, t, lines[0]).value, lines[1..]); }
  }

  /** Nothing in the second pass defines a symbol. */
  lemma LineKeepsSyms(cfg: Config, t: St, ts: Stmt)
    requires t.second && ProcessLine(cfg, t, ts).Some?
    ensures ProcessLine(cfg, t, ts).value.syms == t.syms
  {
    hide Directive, Emit32, AssembleWord;
    LabelsOfSecond(t, ts);
    LabelsLexical(t, ts);
    var ts1 := Labels(t, ts).value.1;
    hide Labels;
    if ts1.End? {
    } else if IsDotted(ts1.t) {
      DirectiveKeepsSyms(cfg, t, ts1.t.name, ts1.rest);
    } else {
      Emit32Syms(cfg, t, AssembleWord(t.syms, t.loc, ts1).value);
    }
  }

  lemma DirectiveKeepsSyms(cfg: Config, t: St, name: string, ts: Toks)
    requires t.second && Directive(cfg, t, name, ts).Some?
    ensures Directive(cfg, t, name, ts).value.syms == t.syms
  {
    hide Emit32, Fill, WordList, FloatList, Expr, IsPow2, AlignGap;
    if name == ".word" {
      WordListSyms(cfg, t, ts);
    } else if name == ".float" {
      FloatListSyms(cfg, t, ts);
    } else if name == ".equ" {
    } else {
      var v := Expr(t.syms, false, ts).value.0;
      if name == ".org" {
        if v > t.loc { FillSyms(cfg, t, v - t.loc); }
      } else if name == ".space" {
        FillSyms(cfg, t, v);
      } else {
        FillSyms(cfg, t, AlignGap(t.loc, v));
      }
    }
  }

  /** Before every line: the table of the start, and an image without holes. */
  lemma {:induction false} BeforePacked(cfg: Config, t: St, lines: seq<Stmt>, k: nat)
    requires Packed(cfg, t) && Pass(cfg, t, lines).Some? && k <= |lines|
    ensures var u := Before(cfg, t, lines, k); Packed(cfg, u) && u.org == t.org && u.syms == t.syms
    decreases k
  {
    hide ProcessLine;
    if k > 0 {
      LineMoved(cfg, t, lines[0]);
      LineKeepsSyms(cfg, t, lines[0]);
      BeforePacked(cfg, ProcessLine(cfg, t, lines[0]).value, lines[1..], k - 1);
    }
  }

  lemma {:induction false} ResolvesAt(cfg: Config, t: St, lines: seq<Stmt>, k: nat)
    requires Pass(cfg, t, lines).Some? && SymbolsResolve(cfg, t, lines) && k < |lines|
    ensures LabelsResolve(Before(cfg, t, lines, k), lines[k])
    decreases k
  {
    hide ProcessLine, LabelsResolve, EquResolves, Labels;
    if k > 0 { ResolvesAt(cfg, ProcessLine(cfg, t, lines[0]).value, lines[1..], k - 1); }
  }

  // ---------------------------------------------------------------------
  // What is written stays written until a line starts below it

  predicate KeptBelow(t: St, u: St, b: int) {
    forall o :: o < b && o in t.image ==> Images.HoldsByte(u.image, o, t.image[o])
  }

  lemma PutByteKeeps(cfg: Config, t: St, x: byte, b: int)
    requires Packed(cfg, t) && PutByte(cfg, t, x).Some? && b <= t.loc - t.org
    ensures KeptBelow(t, PutByte(cfg, t, x).value, b) && Grown(cfg, t, PutByte(cfg, t, x).value)
  {
    PutByteGrown(cfg, t, x);
  }

  lemma KeptTwice(t: St, u: St, v: St, b: int)
    requires KeptBelow(t, u, b) && KeptBelow(u, v, b)
    ensures KeptBelow(t, v, b)
  {
    forall o | o < b && o in t.image
      ensures Images.HoldsByte(v.image, o, t.image[o])
    {
      assert Images.HoldsByte(u.image, o, t.image[o]);
    }
  }

  lemma Emit32Keeps(cfg: Config, t: St, w: word, b: int)
    requires Packed(cfg, t) && Emit32(cfg, t, w).Some? && b <= t.loc - t.org
    ensures KeptBelow(t, Emit32(cfg, t, w).value, b)
  {
    hide PutByte, KeptBelow;
    var t1 := PutByte(cfg, t, w / 0x100_0000).value;
    PutByteKeeps(cfg, t, w / 0x100_0000, b);
    var t2 := PutByte(cfg, t1, w / 0x1_0000 % 0x100).value;
    PutByteKeeps(cfg, t1, w / 0x1_0000 % 0x100, b);
    var t3 := PutByte(cfg, t2, w / 0x100 % 0x100).value;
    PutByteKeeps(cfg, t2, w / 0x100 % 0x100, b);
    var t4 := PutByte(cfg, t3, w % 0x100).value;
    PutByteKeeps(cfg, t3, w % 0x100, b);
    KeptTwice(t, t1, t2, b);
    KeptTwice(t, t2, t3, b);
    KeptTwice(t, t3, t4, b);
  }

  lemma {:induction false} FillKeeps(cfg: Config, t: St, n: nat, b: int)
    requires Packed(cfg, t) && Fill(cfg, t, n).Some? && b <= t.loc - t.org
    ensures KeptBelow(t, Fill(cfg, t, n).value, b)
    decreases n
  {
    hide PutByte, Packed;
    if n > 0 {
      var t1 := PutByte(cfg, t, 0).value;
      PutByteKeeps(cfg, t, 0, b);
      FillKeeps(cfg, t1, n - 1, b);
      KeptTwice(t, t1, Fill(cfg, t, n).value, b);
    }
  }

  lemma {:induction false} WordListKeeps(cfg: Config, t: St, ts: Toks, b: int)
    requires Packed(cfg, t) && WordList(cfg, t, ts).Some? && b <= t.loc - t.org
    ensures KeptBelow(t, WordList(cfg, t, ts).value, b)
    decreases Length(ts)
  {
    hide Emit32, Expr, KeptBelow, Packed;
    var (v, ts1) := Expr(t.syms, !t.second, ts).value;
    var t1 := Emit32(cfg, t, Wrap(v)).value;
    Emit32Keeps(cfg, t, Wrap(v), b);
    Emit32Grown(cfg, t, Wrap(v));
    if AtP(ts1, Comma) {
      WordListKeeps(cfg, t1, ts1.rest, b);
      KeptTwice(t, t1, WordList(cfg, t, ts).value, b);
    }
  }

  lemma {:induction false} FloatListKeeps(cfg: Config, t: St, ts: Toks, b: int)
    requires Packed(cfg, t) && FloatList(cfg, t, ts).Some? && b <= t.loc - t.org
    ensures KeptBelow(t, FloatList(cfg, t, ts).value, b)
    decreases Length(ts)
  {
    hide Emit32, KeptBelow, Packed;
    var (f, ts1) := FloatOf(ts).value;
    var t1 := Emit32(cfg, t, cfg.dsp32(f)).value;
    Emit32Keeps(cfg, t, cfg.dsp32(f), b);
    Emit32Grown(cfg, t, cfg.dsp32(f));
    if AtP(ts1, Comma) {
      FloatListKeeps(cfg, t1, ts1.rest, b);
      KeptTwice(t, t1, FloatList(cfg, t, ts).value, b);
    }
  }

  lemma DirectiveKeeps(cfg: Config, t: St, name: string, ts: Toks, b: int)
    requires Packed(cfg, t) && Directive(cfg, t, name, ts).Some? && b <= t.loc - t.org
    ensures KeptBelow(t, Directive(cfg, t, name, ts).value, b)
  {
    hide Emit32, Fill, WordList, FloatList, Expr, IsPow2, AlignGap, Packed;
    if name == ".word" {
      WordListKeeps(cfg, t, ts, b);
    } else if name == ".float" {
      FloatListKeeps(cfg, t, ts, b);
    } else if name == ".equ" {
    } else {
      var v := Expr(t.syms, false, ts).value.0;
      if name == ".org" {
        if v > t.loc { FillKeeps(cfg, t, v - t.loc, b); }
      } else if name == ".space" {
        FillKeeps(cfg, t, v, b);
      } else {
        FillKeeps(cfg, t, AlignGap(t.loc, v), b);
      }
    }
  }

  lemma LineKeeps(cfg: Config, t: St, ts: Stmt, b: int)
    requires Packed(cfg, t) && ProcessLine(cfg, t, ts).Some? && b <= t.loc - t.org
    ensures KeptBelow(t, ProcessLine(cfg, t, ts).value, b)
  {
    hide Directive, AssembleWord, Emit32;
    LabelsOfSecond(t, ts);
    LabelsLexical(t, ts);
    var ts1 := Labels(t, ts).value.1;
    hide Labels, Packed;
    if ts1.End? {
    } else if IsDotted(ts1.t) {
      DirectiveKeeps(cfg, t, ts1.t.name, ts1.rest, b);
    } else {
      Emit32Keeps(cfg, t, AssembleWord(t.syms, t.loc, ts1).value, b);
    }
  }

  /** No line after line k begins below b. */
  predicate StaysAbove(cfg: Config, t: St, lines: seq<Stmt>, k: nat, b: int)
    requires Pass(cfg, t, lines).Some?
  {
    forall j {:trigger Before(cfg, t, lines, j)} :: k < j < |lines| ==> b <= Before(cfg, t, lines, j).loc - t.org
  }

  lemma {:induction false} RestKeeps(cfg: Config, t: St, lines: seq<Stmt>, k: nat, b: int)
    requires Packed(cfg, t) && Pass(cfg, t, lines).Some? && k < |lines| && StaysAbove(cfg, t, lines, k, b)
    ensures KeptBelow(Before(cfg, t, lines, k + 1), Pass(cfg, t, lines).value, b)
    decreases |lines| - k
  {
    BeforeEnd(cfg, t, lines);
    hide KeptBelow, ProcessLine, Packed, Pass;
    if k + 1 < |lines| {
      var u := Before(cfg, t, lines, k + 1);
      BeforePacked(cfg, t, lines, k + 1);
      LineAt(cfg, t, lines, k + 1);
      LineKeeps(cfg, u, lines[k + 1], b);
      RestKeeps(cfg, t, lines, k + 1, b);
      KeptTwice(u, Before(cfg, t, lines, k + 2), Pass(cfg, t, lines).value, b);
    } else {
      assert KeptBelow(Pass(cfg, t, lines).value, Pass(cfg, t, lines).value, b) by { KeptSelf(Pass(cfg, t, lines).value, b); }
    }
  }

  lemma KeptSelf(t: St, b: int)
    ensures KeptBelow(t, t, b)
  {
  }

  // ---------------------------------------------------------------------
  // The branch line

  /** The image has w, big end first, at offset o. */
  predicate HasWord(image: map<int, byte>, o: int, w: word) {
    forall j: nat :: j < 4 ==> Images.HoldsByte(image, o + j, Images.WordByte(w, j))
  }

  lemma BranchLine(cfg: Config, t: St, form: T.Form, name: string, k: int)
    requires Packed(cfg, t) && T.NamedForm(form) && name in t.syms
    requires AllLexical(T.BranchText(form, name, k)) && ProcessLine(cfg, t, T.BranchText(form, name, k)).Some?
    ensures var ts := T.BranchText(form, name, k);
            var w := AssembleWord(t.syms, t.loc, ts);
            && t.loc % 4 == 0 && w.Some? && ProcessLine(cfg, t, ts) == Emit32(cfg, t, w.value)
  {
    var ts := T.BranchText(form, name, k);
    BranchStarts(form, name, k);
    assert Labels(t, ts) == Some((t, ts));
    hide AssembleWord, Emit32, T.BranchText;
  }

  lemma BranchStarts(form: T.Form, name: string, k: int)
    ensures var ts := T.BranchText(form, name, k); ts.Cons? && ts.t.TKw? && !AtLabel(ts)
  {
  }

  lemma EmittedWord(cfg: Config, t: St, w: word)
    requires Packed(cfg, t) && Emit32(cfg, t, w).Some?
    ensures HasWord(Emit32(cfg, t, w).value.image, t.loc - t.org, w)
  {
    Emit32Lands(cfg, t, w);
    Emit32Grown(cfg, t, w);
    Images.Emit32Result(cfg, t, w);
    hide Emit32, Images.WordByte;
  }

  lemma KeptWord(t: St, u: St, o: int, w: word)
    requires HasWord(t.image, o, w) && KeptBelow(t, u, o + 4)
    ensures HasWord(u.image, o, w)
  {
    hide Images.WordByte;
    forall j: nat | j < 4 ensures Images.HoldsByte(u.image, o + j, Images.WordByte(w, j)) {
      assert Images.HoldsByte(t.image, o + j, Images.WordByte(w, j));
    }
  }

  /** Line k is the branch, and no later line goes back over it. */
  predicate BranchAt(cfg: Config, t: St, lines: seq<Stmt>, k: nat, form: T.Form, name: string, d: int) {
    && Pass(cfg, t, lines).Some? && k < |lines| && T.NamedForm(form)
    && lines[k] == T.BranchText(form, name, d)
    && StaysAbove(cfg, t, lines, k, Before(cfg, t, lines, k).loc + 4 - t.org)
  }

  lemma BranchAtMeans(cfg: Config, t: St, lines: seq<Stmt>, k: nat, form: T.Form, name: string, d: int)
    requires BranchAt(cfg, t, lines, k, form, name, d)
    ensures Pass(cfg, t, lines).Some? && k < |lines| && T.NamedForm(form) && lines[k] == T.BranchText(form, name, d)
    ensures StaysAbove(cfg, t, lines, k, Before(cfg, t, lines, k).loc + 4 - t.org)
  {
    hide Pass, StaysAbove, T.NamedForm, T.BranchText, Before;
  }

  /** The pass puts the branch's word where the line begins. */
  lemma WordWritten(cfg: Config, t: St, lines: seq<Stmt>, k: nat, form: T.Form, name: string, d: int)
    requires Packed(cfg, t) && BranchAt(cfg, t, lines, k, form, name, d) && name in t.syms
    ensures var b := Before(cfg, t, lines, k);
            var w := AssembleWord(t.syms, b.loc, lines[k]);
            && b.loc % 4 == 0 && w.Some? && HasWord(Before(cfg, t, lines, k + 1).image, b.loc - t.org, w.value)
  {
    hide *;
    BranchAtMeans(cfg, t, lines, k, form, name, d);
    var b := Before(cfg, t, lines, k);
    BeforePacked(cfg, t, lines, k);
    LineAt(cfg, t, lines, k);
    BranchLine(cfg, b, form, name, d);
    EmittedWord(cfg, b, AssembleWord(t.syms, b.loc, lines[k]).value);
  }

  /** The final image still holds it. */
  lemma WordInImage(cfg: Config, t: St, lines: seq<Stmt>, k: nat, form: T.Form, name: string, d: int)
    requires Packed(cfg, t) && BranchAt(cfg, t, lines, k, form, name, d) && name in t.syms
    ensures var b := Before(cfg, t, lines, k);
            var w := AssembleWord(t.syms, b.loc, lines[k]);
            && b.loc % 4 == 0 && w.Some? && HasWord(Pass(cfg, t, lines).value.image, b.loc - t.org, w.value)
  {
    hide *;
    BranchAtMeans(cfg, t, lines, k, form, name, d);
    var b := Before(cfg, t, lines, k);
    WordWritten(cfg, t, lines, k, form, name, d);
    RestKeeps(cfg, t, lines, k, b.loc + 4 - t.org);
    KeptWord(Before(cfg, t, lines, k + 1), Pass(cfg, t, lines).value, b.loc - t.org,
             AssembleWord(t.syms, b.loc, lines[k]).value);
  }

  // ---------------------------------------------------------------------
  // The image in memory

  /** Memory holds the image at its origin, in a big-endian map. */
  predicate InMemory(c: C.Core, u: St) {
    C.BigEndian(c) &&
    forall o {:trigger o in u.image} :: o in u.image ==>
      C.ByteAt(c.mem, C.Computer(c), Wrap(u.org + o)) == C.Some(u.image[o])
  }

  lemma WordInMemory(c: C.Core, u: St, a: word, w: word)
    requires InMemory(c, u) && HasWord(u.image, a - u.org, w)
    ensures F.HoldsWord(c, a, w)
  {
    hide C.ByteAt, C.Computer, C.BigEndian;
    assert Images.HoldsByte(u.image, a - u.org + 0, Images.WordByte(w, 0));
    assert Images.HoldsByte(u.image, a - u.org + 1, Images.WordByte(w, 1));
    assert Images.HoldsByte(u.image, a - u.org + 2, Images.WordByte(w, 2));
    assert Images.HoldsByte(u.image, a - u.org + 3, Images.WordByte(w, 3));
    assert Wrap(u.org + (a - u.org)) == a;
  }

  // ---------------------------------------------------------------------
  // The theorem

  /** A boundary at which the next instruction is fetched. */
  predicate AtBoundary(s: M.State) {
    !I.Interrupted(s) && !s.h.irshPending && s.c.level != C.DoubleError && !s.c.waiting
  }

  /** A source that assembles has, on line k, a branch to a label defined on line
      m, before or after it, and no later line goes back over the branch.  A
      machine with the image in memory that reaches the branch and takes it
      executes one more instruction and then the label's address plus the
      displacement, the address the disassembler shows, wherever interrupts are
      taken after the branch. */
  lemma LabelReached(cfg: Config, org: word, lines: seq<Stmt>, k: nat, m: nat, form: T.Form, name: string, d: int,
                     s: M.State, n0: M.Slot, n1: M.Slot, n2: M.Slot)
    requires org + cfg.cap <= 0xFFFF_FFFF && Assembled(cfg, org, lines).Some?
    requires BranchAt(cfg, SecondStart(cfg, org, lines), lines, k, form, name, d)
    requires m < |lines| && lines[m].Cons? && lines[m].t == TSym(name) && AtLabel(lines[m])
    requires s.c.pc == Before(cfg, SecondStart(cfg, org, lines), lines, k).loc
    requires AtBoundary(s) && InMemory(s.c, Assembled(cfg, org, lines).value)
    requires n0 == M.NextSlot(s) && n0.Runs? && T.TakenIn(n0.s.c, n0.insn) && T.NotLoopEnd(n0)
    requires T.Follows(n0, n1) && n1.Runs? && T.FallsThrough(n1) && T.Follows(n1, n2) && n2.Runs?
    ensures var target := Wrap(Before(cfg, SecondStart(cfg, org, lines), lines, m).loc + d);
            && D.DisInsn(n0.insn, n0.addr).target == Some(target)
            && n1.addr == s.c.npc && n2.addr == target
  {
    hide *;
    var t := SecondStart(cfg, org, lines);
    SecondStartGood(cfg, org, lines);
    LabelValue(cfg, t, lines, m, name);
    BranchRuns(cfg, t, lines, k, form, name, d, s);
    I.RunsInPlace(s, n0);
    var target := Wrap(t.syms[name] + d);
    TakenBranch(s, n0, target);
    T.OneDelaySlot(s, n0, n1, n2, target);
  }

  lemma TakenBranch(s: M.State, n: M.Slot, target: word)
    requires I.SlotAt(s, n) && T.TakenIn(n.s.c, n.insn) && T.NotLoopEnd(n)
    requires D.DisInsn(n.insn, s.c.pc).isBranch && D.DisInsn(n.insn, s.c.pc).target == Some(target)
    ensures T.BranchesTo(n, target) && n.addr == s.c.pc
  {
    hide D.DisInsn, T.TakenIn, T.NotLoopEnd;
  }

  function SecondStart(cfg: Config, org: word, lines: seq<Stmt>): (t: St)
    requires Assembled(cfg, org, lines).Some?
    ensures Pass(cfg, t, lines) == Assembled(cfg, org, lines)
    ensures t.org == org
  {
    Start(true, org, Pass(cfg, Start(false, org, map[]), lines).value.syms)
  }

  lemma SecondStartGood(cfg: Config, org: word, lines: seq<Stmt>)
    requires org + cfg.cap <= 0xFFFF_FFFF && Assembled(cfg, org, lines).Some?
    ensures var t := SecondStart(cfg, org, lines); Packed(cfg, t) && SymbolsResolve(cfg, t, lines)
  {
    TwoPassesAgree(cfg, org, lines);
    hide Pass, SymbolsResolve;
  }

  lemma LabelValue(cfg: Config, t: St, lines: seq<Stmt>, m: nat, name: string)
    requires Packed(cfg, t) && Pass(cfg, t, lines).Some? && SymbolsResolve(cfg, t, lines) && m < |lines|
    requires lines[m].Cons? && lines[m].t == TSym(name) && AtLabel(lines[m])
    ensures name in t.syms && t.syms[name] == Before(cfg, t, lines, m).loc
  {
    ResolvesAt(cfg, t, lines, m);
    BeforePacked(cfg, t, lines, m);
    hide ProcessLine, SymbolsResolve, Pass, Packed, AtLabel;
  }

  /** What runs at the branch's address is the branch. */
  lemma BranchRuns(cfg: Config, t: St, lines: seq<Stmt>, k: nat, form: T.Form, name: string, d: int, s: M.State)
    requires Packed(cfg, t) && BranchAt(cfg, t, lines, k, form, name, d) && name in t.syms
    requires s.c.pc == Before(cfg, t, lines, k).loc && AtBoundary(s) && InMemory(s.c, Pass(cfg, t, lines).value)
    ensures var n := M.NextSlot(s);
            && n.Runs? && I.RunsAt(s, n)
            && D.DisInsn(n.insn, s.c.pc).isBranch && D.DisInsn(n.insn, s.c.pc).target == Some(Wrap(t.syms[name] + d))
  {
    hide *;
    BranchAtMeans(cfg, t, lines, k, form, name, d);
    var a := s.c.pc;
    EndOrigin(cfg, t, lines);
    WordInImage(cfg, t, lines, k, form, name, d);
    var w := AssembleWord(t.syms, a, lines[k]).value;
    WordInMemory(s.c, Pass(cfg, t, lines).value, a, w);
    FetchedBranch(t.syms, a, form, name, d, w, s);
  }

  lemma EndOrigin(cfg: Config, t: St, lines: seq<Stmt>)
    requires Packed(cfg, t) && Pass(cfg, t, lines).Some?
    ensures Pass(cfg, t, lines).value.org == t.org
  {
    hide Pass, Packed;
    BeforePacked(cfg, t, lines, |lines|);
    BeforeEnd(cfg, t, lines);
  }

  lemma FetchedBranch(env: Env, a: word, form: T.Form, name: string, d: int, w: word, s: M.State)
    requires T.NamedForm(form) && name in env && AllLexical(T.BranchText(form, name, d))
    requires AssembleWord(env, a, T.BranchText(form, name, d)) == Some(w)
    requires s.c.pc == a && a % 4 == 0 && F.HoldsWord(s.c, a, w) && AtBoundary(s)
    ensures var n := M.NextSlot(s);
            && n.Runs? && I.RunsAt(s, n)
            && D.DisInsn(n.insn, a).isBranch && D.DisInsn(n.insn, a).target == Some(Wrap(env[name] + d))
  {
    hide T.NamedForm, T.BranchText, AssembleWord, F.HoldsWord, I.Interrupted, I.RunsAt, M.NextSlot, D.DisInsn;
    F.PlainFetch(s, w);
    T.LabelTarget(env, a, form, name, d);
    WordDecodes(env, a, T.BranchText(form, name, d));
  }

  lemma WordDecodes(env: Env, addr: word, ts: Stmt)
    requires AssembleWord(env, addr, ts).Some?
    ensures AsmInsn(env, addr, ts) == Some(Decode(AssembleWord(env, addr, ts).value))
  {
    Accepted(env, addr, ts);
    DecodeEncode(AsmInsn(env, addr, ts).value);
    hide AsmInsn, Decode, Encode;
  }
}
