/** The two-pass assembler as functions on its state: layout, symbols and
    output.  `Passes.TwoPassesAgree` is what makes two passes enough. */
module Passes {
  import opened Words
  import opened Insn
  import opened Syntax
  import opened Asm
  import opened AsmSound

  /** `image` is the part of the output buffer written so far. */
  datatype St = St(second: bool, org: word, loc: word, hi: word, syms: Env, image: map<int, byte>)

  /** The size of the caller's buffer, and the host's conversion of a float
      literal to a DSP32 word. */
  datatype Config = Config(cap: nat, dsp32: real -> word)

  type Stmt = ts: Toks | AllLexical(ts) witness End

  const MAX_SYMS: nat := 1024

  // ---------------------------------------------------------------------
  // Output

  function PutByte(cfg: Config, s: St, b: byte): Option<St> {
    if s.second && !(s.org <= s.loc && s.loc - s.org < cfg.cap) then None
    else
      var loc := Wrap(s.loc + 1);
      Some(s.(image := if s.second then s.image[s.loc - s.org := b] else s.image,
              loc := loc, hi := if loc > s.hi then loc else s.hi))
  }

  function Emit32(cfg: Config, s: St, w: word): Option<St> {
    var s1 :- PutByte(cfg, s, w / 0x100_0000);
    var s2 :- PutByte(cfg, s1, w / 0x1_0000 % 0x100);
    var s3 :- PutByte(cfg, s2, w / 0x100 % 0x100);
    PutByte(cfg, s3, w % 0x100)
  }

  function Fill(cfg: Config, s: St, n: nat): Option<St>
    decreases n
  {
    if n == 0 then Some(s)
    else
      var s1 :- PutByte(cfg, s, 0);
      Fill(cfg, s1, n - 1)
  }

  // ---------------------------------------------------------------------
  // Symbols

  /** Symbols are entered in the first pass only. */
  function Define(s: St, name: string, val: word): Option<St> {
    if s.second then Some(s)
    else if name in s.syms || |s.syms| >= MAX_SYMS then None
    else Some(s.(syms := s.syms[name := val]))
  }

  predicate IsDotted(t: Tok) { t.TSym? && |t.name| > 0 && t.name[0] == '.' }

  /** Spelled as an identifier. */
  predicate IsId(t: Tok) {
    !(t.TP? || t.TNum? || t.TFnum? || t.TBad?)
  }

  predicate AtLabel(ts: Toks) {
    ts.Cons? && IsId(ts.t) && !IsDotted(ts.t) && AtP(ts.rest, Colon)
  }

  /** Leading labels; a reserved name is refused. */
  function Labels(s: St, ts: Toks): Option<(St, Toks)>
    decreases ts
  {
    if !AtLabel(ts) then Some((s, ts))
    else if !ts.t.TSym? then None
    else
      var s1 :- Define(s, ts.t.name, s.loc);
      Labels(s1, ts.rest.rest)
  }

  // ---------------------------------------------------------------------
  // Directives

  predicate Is32(v: int) { -0x8000_0000 <= v <= 0xFFFF_FFFF }

  function WordList(cfg: Config, s: St, ts: Toks): Option<St>
    decreases Length(ts)
  {
    var (v, ts1) :- Expr(s.syms, !s.second, ts);
    if !Is32(v) then None
    else
      var s1 :- Emit32(cfg, s, Wrap(v));
      if AtP(ts1, Comma) then WordList(cfg, s1, ts1.rest) else AtEnd(ts1, s1)
  }

  /** A literal with an optional minus sign. */
  function FloatOf(ts: Toks): (r: Option<(real, Toks)>)
    ensures r.Some? ==> Length(r.value.1) < Length(ts)
  {
    var neg := AtP(ts, MinusSign);
    var ts1 := if neg then ts.rest else ts;
    if ts1.End? then None
    else
      match ts1.t
      case TFnum(f) => Some((if neg then -f else f, ts1.rest))
      case TNum(v, _) => Some((if neg then -(v as real) else v as real, ts1.rest))
      case _ => None
  }

  function FloatList(cfg: Config, s: St, ts: Toks): Option<St>
    decreases Length(ts)
  {
    var (f, ts1) :- FloatOf(ts);
    var s1 :- Emit32(cfg, s, cfg.dsp32(f));
    if AtP(ts1, Comma) then FloatList(cfg, s1, ts1.rest) else AtEnd(ts1, s1)
  }

  predicate IsPow2(v: int): (p: bool)
    ensures p ==> v >= 1
    decreases v
  {
    v == 1 || (v > 1 && v % 2 == 0 && IsPow2(v / 2))
  }

  /** Bytes up to the next multiple of v, a power of two; past 2^32 the location
      has to come round to 0. */
  function AlignGap(loc: word, v: nat): nat
    requires v >= 1
  {
    var m := if v <= 0x1_0000_0000 then v else 0x1_0000_0000;
    (m - loc % m) % m
  }

  function Org(cfg: Config, s: St, v: int): Option<St> {
    if !(s.org <= v <= 0xFFFF_FFFF) then None
    else if v > s.loc then Fill(cfg, s, v - s.loc)
    else Some(s.(loc := v))
  }

  function Space(cfg: Config, s: St, v: int): Option<St> {
    if 0 <= v <= 0x100_0000 then Fill(cfg, s, v) else None
  }

  function Align(cfg: Config, s: St, v: int): Option<St> {
    if IsPow2(v) then Fill(cfg, s, AlignGap(s.loc, v)) else None
  }

  function Equ(s: St, ts: Toks): Option<St> {
    if ts.Cons? && IsId(ts.t) && AtP(ts.rest, Comma) then
      var (v, ts1) :- Expr(s.syms, false, ts.rest.rest);
      if ts1.End? && Is32(v) && ts.t.TSym? then Define(s, ts.t.name, Wrap(v)) else None
    else None
  }

  function Directive(cfg: Config, s: St, name: string, ts: Toks): Option<St> {
    if name == ".word" then WordList(cfg, s, ts)
    else if name == ".float" then FloatList(cfg, s, ts)
    else if name == ".equ" then Equ(s, ts)
    else if name == ".org" || name == ".space" || name == ".align" then
      var (v, ts1) :- Expr(s.syms, false, ts);
      if !ts1.End? then None
      else if name == ".org" then Org(cfg, s, v)
      else if name == ".space" then Space(cfg, s, v)
      else Align(cfg, s, v)
    else None
  }

  // ---------------------------------------------------------------------
  // Lines and passes

  lemma LabelsLexical(s: St, ts: Toks)
    requires AllLexical(ts) && Labels(s, ts).Some?
    ensures AllLexical(Labels(s, ts).value.1)
    decreases ts
  {
    if AtLabel(ts) {
      LexicalTail(ts);
      LexicalTail(ts.rest);
      LabelsLexical(Define(s, ts.t.name, s.loc).value, ts.rest.rest);
    }
  }

  /** Every instruction is one word, so the first pass only counts it. */
  function Instruction(cfg: Config, s: St, ts: Toks): Option<St>
    requires AllLexical(ts)
  {
    if s.loc % 4 != 0 then None
    else if s.second then
      var w :- AssembleWord(s.syms, s.loc, ts);
      Emit32(cfg, s, w)
    else
      var loc := Wrap(s.loc + 4);
      Some(s.(loc := loc, hi := if loc > s.hi then loc else s.hi))
  }

  function Body(cfg: Config, s: St, ts: Toks): Option<St>
    requires AllLexical(ts)
  {
    if ts.End? then Some(s)
    else if IsDotted(ts.t) then Directive(cfg, s, ts.t.name, ts.rest)
    else Instruction(cfg, s, ts)
  }

  function ProcessLine(cfg: Config, s: St, ts: Stmt): Option<St> {
    var (s1, ts1) :- Labels(s, ts);
    LabelsLexical(s, ts);
    Body(cfg, s1, ts1)
  }

  function Pass(cfg: Config, s: St, lines: seq<Stmt>): Option<St>
    decreases |lines|
  {
    if lines == [] then Some(s)
    else
      var s1 :- ProcessLine(cfg, s, lines[0]);
      Pass(cfg, s1, lines[1..])
  }

  function Start(second: bool, org: word, syms: Env): St {
    St(second, org, org, org, syms, map[])
  }

  function Assembled(cfg: Config, org: word, lines: seq<Stmt>): Option<St> {
    var s1 :- Pass(cfg, Start(false, org, map[]), lines);
    Pass(cfg, Start(true, org, s1.syms), lines)
  }

  // ---------------------------------------------------------------------
  // Expressions in the two passes

  predicate Within(a: Env, b: Env) {
    forall k :: k in a ==> k in b && a[k] == b[k]
  }

  lemma {:induction false} ChainWithin(a: Env, b: Env, v: int, ts: Toks)
    requires Within(a, b) && Chain(a, false, v, ts).Some?
    ensures Chain(b, false, v, ts) == Chain(a, false, v, ts)
    decreases ts
  {
    if AtP(ts, PlusSign) || AtP(ts, MinusSign) {
      var (w, ts1) := Primary(a, false, ts.rest).value;
      ChainWithin(a, b, if ts.t == TP(PlusSign) then v + w else v - w, ts1);
    }
  }

  /** What is defined early keeps its value. */
  lemma ExprWithin(a: Env, b: Env, ts: Toks)
    requires Within(a, b) && Expr(a, false, ts).Some?
    ensures Expr(b, false, ts) == Expr(a, false, ts)
  {
    var ts0 := if AtP(ts, MinusSign) || AtP(ts, PlusSign) then ts.rest else ts;
    var (v, ts1) := Primary(a, false, ts0).value;
    ChainWithin(a, b, if AtP(ts, MinusSign) then -v else v, ts1);
  }

  lemma {:induction false} ChainShape(a: Env, b: Env, la: bool, lb: bool, v: int, w: int, ts: Toks)
    requires Chain(a, la, v, ts).Some? && Chain(b, lb, w, ts).Some?
    ensures Chain(a, la, v, ts).value.1 == Chain(b, lb, w, ts).value.1
    decreases ts
  {
    if AtP(ts, PlusSign) || AtP(ts, MinusSign) {
      var (x, ts1) := Primary(a, la, ts.rest).value;
      var (y, ts2) := Primary(b, lb, ts.rest).value;
      ChainShape(a, b, la, lb, if ts.t == TP(PlusSign) then v + x else v - x,
                 if ts.t == TP(PlusSign) then w + y else w - y, ts1);
    }
  }

  /** Where an expression ends does not depend on its symbols. */
  lemma ExprShape(a: Env, b: Env, la: bool, lb: bool, ts: Toks)
    requires Expr(a, la, ts).Some? && Expr(b, lb, ts).Some?
    ensures Expr(a, la, ts).value.1 == Expr(b, lb, ts).value.1
  {
    var ts0 := if AtP(ts, MinusSign) || AtP(ts, PlusSign) then ts.rest else ts;
    var (v, ts1) := Primary(a, la, ts0).value;
    var (w, ts2) := Primary(b, lb, ts0).value;
    ChainShape(a, b, la, lb, if AtP(ts, MinusSign) then -v else v, if AtP(ts, MinusSign) then -w else w, ts1);
  }

  // ---------------------------------------------------------------------
  // The passes run in step

  /** A first-pass state and a second-pass state at the same place. */
  predicate InStep(s: St, t: St) {
    && !s.second && t.second && s.org == t.org && s.loc == t.loc && s.hi == t.hi && Within(s.syms, t.syms)
  }

  /** Output moves both passes alike and defines nothing. */
  predicate Alike(s: St, t: St, s': St, t': St) {
    InStep(s', t') && s'.syms == s.syms && t'.syms == t.syms && t'.org == t.org
  }

  lemma PutByteInStep(cfg: Config, s: St, t: St, a: byte, b: byte)
    requires InStep(s, t) && PutByte(cfg, s, a).Some? && PutByte(cfg, t, b).Some?
    ensures Alike(s, t, PutByte(cfg, s, a).value, PutByte(cfg, t, b).value)
  {
  }

  lemma Emit32InStep(cfg: Config, s: St, t: St, v: word, w: word)
    requires InStep(s, t) && Emit32(cfg, s, v).Some? && Emit32(cfg, t, w).Some?
    ensures Alike(s, t, Emit32(cfg, s, v).value, Emit32(cfg, t, w).value)
  {
    hide Within;
  }

  lemma {:induction false} FillInStep(cfg: Config, s: St, t: St, n: nat)
    requires InStep(s, t) && Fill(cfg, s, n).Some? && Fill(cfg, t, n).Some?
    ensures Alike(s, t, Fill(cfg, s, n).value, Fill(cfg, t, n).value)
    decreases n
  {
    hide Within;
    if n > 0 {
      PutByteInStep(cfg, s, t, 0, 0);
      FillInStep(cfg, PutByte(cfg, s, 0).value, PutByte(cfg, t, 0).value, n - 1);
    }
  }

  lemma {:induction false} WordListInStep(cfg: Config, s: St, t: St, ts: Toks)
    requires InStep(s, t) && WordList(cfg, s, ts).Some? && WordList(cfg, t, ts).Some?
    ensures Alike(s, t, WordList(cfg, s, ts).value, WordList(cfg, t, ts).value)
    decreases Length(ts)
  {
    hide Within, Emit32, Expr;
    var (v, ts1) := Expr(s.syms, true, ts).value;
    var (w, ts2) := Expr(t.syms, false, ts).value;
    ExprShape(s.syms, t.syms, true, false, ts);
    Emit32InStep(cfg, s, t, Wrap(v), Wrap(w));
    if AtP(ts1, Comma) {
      WordListInStep(cfg, Emit32(cfg, s, Wrap(v)).value, Emit32(cfg, t, Wrap(w)).value, ts1.rest);
    }
  }

  lemma {:induction false} FloatListInStep(cfg: Config, s: St, t: St, ts: Toks)
    requires InStep(s, t) && FloatList(cfg, s, ts).Some? && FloatList(cfg, t, ts).Some?
    ensures Alike(s, t, FloatList(cfg, s, ts).value, FloatList(cfg, t, ts).value)
    decreases Length(ts)
  {
    hide Within, Emit32;
    var (f, ts1) := FloatOf(ts).value;
    Emit32InStep(cfg, s, t, cfg.dsp32(f), cfg.dsp32(f));
    if AtP(ts1, Comma) {
      FloatListInStep(cfg, Emit32(cfg, s, cfg.dsp32(f)).value, Emit32(cfg, t, cfg.dsp32(f)).value, ts1.rest);
    }
  }

  // What a line defines is what the table of the second pass holds.

  predicate LabelsResolve(s: St, ts: Toks)
    decreases ts
  {
    AtLabel(ts) ==>
      ts.t.TSym? && ts.t.name in s.syms && s.syms[ts.t.name] == s.loc && LabelsResolve(s, ts.rest.rest)
  }

  lemma {:induction false} LabelsInStep(s: St, t: St, ts: Toks)
    requires InStep(s, t) && Labels(s, ts).Some? && Within(Labels(s, ts).value.0.syms, t.syms)
    ensures LabelsResolve(t, ts)
    ensures Labels(t, ts) == Some((t, Labels(s, ts).value.1))
    ensures var s1 := Labels(s, ts).value.0; InStep(s1, t) && Within(s.syms, s1.syms)
    decreases ts
  {
    if AtLabel(ts) {
      var s1 := Define(s, ts.t.name, s.loc).value;
      LabelsGrow(s1, ts.rest.rest);
      assert s1.syms[ts.t.name] == s.loc;
      LabelsInStep(s1, t, ts.rest.rest);
    }
  }

  lemma {:induction false} LabelsGrow(s: St, ts: Toks)
    requires Labels(s, ts).Some?
    ensures Within(s.syms, Labels(s, ts).value.0.syms)
    decreases ts
  {
    if AtLabel(ts) {
      LabelsGrow(Define(s, ts.t.name, s.loc).value, ts.rest.rest);
    }
  }

  /** `.equ` too: the value found again is the value entered. */
  predicate EquResolves(s: St, ts: Toks) {
    ts.Cons? && ts.t == TSym(".equ") && ts.rest.Cons? && ts.rest.t.TSym? && ts.rest.rest.Cons? ==>
      var v := Expr(s.syms, false, ts.rest.rest.rest);
      v.Some? && ts.rest.t.name in s.syms && s.syms[ts.rest.t.name] == Wrap(v.value.0)
  }

  /** A buffer that ends before the top of the address space. */
  predicate NoWrap(cfg: Config, t: St) {
    t.second && t.org + cfg.cap <= 0xFFFF_FFFF
  }

  lemma PutByteLands(cfg: Config, t: St, b: byte)
    requires NoWrap(cfg, t) && PutByte(cfg, t, b).Some?
    ensures var u := PutByte(cfg, t, b).value;
            u == t.(image := t.image[t.loc - t.org := b], loc := t.loc + 1,
                    hi := if t.loc + 1 > t.hi then t.loc + 1 else t.hi)
  {
  }

  lemma Emit32Lands(cfg: Config, t: St, w: word)
    requires NoWrap(cfg, t) && Emit32(cfg, t, w).Some?
    ensures var u := Emit32(cfg, t, w).value;
            && u.loc == t.loc + 4 && u.hi == (if t.loc + 4 > t.hi then t.loc + 4 else t.hi)
            && u.syms == t.syms && u.org == t.org && u.second
  {
    var t1 := PutByte(cfg, t, w / 0x100_0000).value;
    PutByteLands(cfg, t, w / 0x100_0000);
    var t2 := PutByte(cfg, t1, w / 0x1_0000 % 0x100).value;
    PutByteLands(cfg, t1, w / 0x1_0000 % 0x100);
    var t3 := PutByte(cfg, t2, w / 0x100 % 0x100).value;
    PutByteLands(cfg, t2, w / 0x100 % 0x100);
    PutByteLands(cfg, t3, w % 0x100);
    hide PutByte;
  }

  lemma InstructionInStep(cfg: Config, s: St, t: St, ts: Toks)
    requires AllLexical(ts) && InStep(s, t) && NoWrap(cfg, t)
    requires Instruction(cfg, s, ts).Some? && Instruction(cfg, t, ts).Some?
    ensures Alike(s, t, Instruction(cfg, s, ts).value, Instruction(cfg, t, ts).value)
  {
    hide AssembleWord, Within, Emit32;
    Emit32Lands(cfg, t, AssembleWord(t.syms, t.loc, ts).value);
  }

  lemma DirectiveInStep(cfg: Config, s: St, t: St, name: string, ts: Toks)
    requires InStep(s, t) && Directive(cfg, s, name, ts).Some? && Directive(cfg, t, name, ts).Some?
    requires Within(Directive(cfg, s, name, ts).value.syms, t.syms)
    ensures name == ".equ" ==> EquResolves(t, Cons(TSym(name), ts))
    ensures var s1, t1 := Directive(cfg, s, name, ts).value, Directive(cfg, t, name, ts).value;
            InStep(s1, t1) && t1.syms == t.syms && t1.org == t.org && Within(s.syms, s1.syms)
  {
    hide Emit32, Fill, WordList, FloatList, Expr, IsPow2, AlignGap;
    if name == ".word" {
      WordListInStep(cfg, s, t, ts);
    } else if name == ".float" {
      FloatListInStep(cfg, s, t, ts);
    } else if name == ".equ" {
      ExprWithin(s.syms, t.syms, ts.rest.rest);
    } else {
      ExprWithin(s.syms, t.syms, ts);
      var v := Expr(s.syms, false, ts).value.0;
      if name == ".org" {
        if v > s.loc { FillInStep(cfg, s, t, v - s.loc); }
      } else if name == ".space" {
        FillInStep(cfg, s, t, v);
      } else {
        FillInStep(cfg, s, t, AlignGap(s.loc, v));
      }
    }
  }

  lemma BodyInStep(cfg: Config, s: St, t: St, ts: Toks)
    requires AllLexical(ts) && InStep(s, t) && NoWrap(cfg, t)
    requires Body(cfg, s, ts).Some? && Body(cfg, t, ts).Some?
    requires Within(Body(cfg, s, ts).value.syms, t.syms)
    ensures EquResolves(t, ts)
    ensures var s1, t1 := Body(cfg, s, ts).value, Body(cfg, t, ts).value;
            InStep(s1, t1) && t1.syms == t.syms && t1.org == t.org && Within(s.syms, s1.syms)
  {
    hide Directive, Instruction, Expr;
    if ts.End? {
    } else if IsDotted(ts.t) {
      DirectiveInStep(cfg, s, t, ts.t.name, ts.rest);
      assert ts.t == TSym(ts.t.name);
    } else {
      InstructionInStep(cfg, s, t, ts);
      assert ts.t != TSym(".equ") by { assert IsDotted(TSym(".equ")); }
    }
  }

  // The first pass never takes a definition back.

  lemma Emit32Syms(cfg: Config, s: St, w: word)
    requires Emit32(cfg, s, w).Some?
    ensures Emit32(cfg, s, w).value.syms == s.syms
  {
  }

  lemma {:induction false} FillSyms(cfg: Config, s: St, n: nat)
    requires Fill(cfg, s, n).Some?
    ensures Fill(cfg, s, n).value.syms == s.syms
    decreases n
  {
    if n > 0 { FillSyms(cfg, PutByte(cfg, s, 0).value, n - 1); }
  }

  lemma {:induction false} WordListSyms(cfg: Config, s: St, ts: Toks)
    requires WordList(cfg, s, ts).Some?
    ensures WordList(cfg, s, ts).value.syms == s.syms
    decreases Length(ts)
  {
    hide Emit32, Expr;
    var (v, ts1) := Expr(s.syms, !s.second, ts).value;
    Emit32Syms(cfg, s, Wrap(v));
    if AtP(ts1, Comma) { WordListSyms(cfg, Emit32(cfg, s, Wrap(v)).value, ts1.rest); }
  }

  lemma {:induction false} FloatListSyms(cfg: Config, s: St, ts: Toks)
    requires FloatList(cfg, s, ts).Some?
    ensures FloatList(cfg, s, ts).value.syms == s.syms
    decreases Length(ts)
  {
    hide Emit32;
    var (f, ts1) := FloatOf(ts).value;
    Emit32Syms(cfg, s, cfg.dsp32(f));
    if AtP(ts1, Comma) { FloatListSyms(cfg, Emit32(cfg, s, cfg.dsp32(f)).value, ts1.rest); }
  }

  lemma DirectiveGrows(cfg: Config, s: St, name: string, ts: Toks)
    requires Directive(cfg, s, name, ts).Some?
    ensures Within(s.syms, Directive(cfg, s, name, ts).value.syms)
  {
    hide Emit32, Fill, WordList, FloatList, Expr, IsPow2, AlignGap;
    if name == ".word" {
      WordListSyms(cfg, s, ts);
    } else if name == ".float" {
      FloatListSyms(cfg, s, ts);
    } else if name == ".equ" {
    } else {
      var v := Expr(s.syms, false, ts).value.0;
      if name == ".org" {
        if v > s.loc { FillSyms(cfg, s, v - s.loc); }
      } else if name == ".space" {
        FillSyms(cfg, s, v);
      } else {
        FillSyms(cfg, s, AlignGap(s.loc, v));
      }
    }
  }

  lemma BodyGrows(cfg: Config, s: St, ts: Toks)
    requires AllLexical(ts) && Body(cfg, s, ts).Some?
    ensures Within(s.syms, Body(cfg, s, ts).value.syms)
  {
    hide Directive, AssembleWord, Emit32;
    if ts.End? {
    } else if IsDotted(ts.t) {
      DirectiveGrows(cfg, s, ts.t.name, ts.rest);
    } else if s.second {
      Emit32Syms(cfg, s, AssembleWord(s.syms, s.loc, ts).value);
    }
  }

  lemma LineInStep(cfg: Config, s: St, t: St, ts: Stmt)
    requires InStep(s, t) && NoWrap(cfg, t) && ProcessLine(cfg, s, ts).Some? && ProcessLine(cfg, t, ts).Some?
    requires Within(ProcessLine(cfg, s, ts).value.syms, t.syms)
    ensures var s1, t1 := ProcessLine(cfg, s, ts).value, ProcessLine(cfg, t, ts).value;
            InStep(s1, t1) && t1.syms == t.syms && t1.org == t.org && Within(s.syms, s1.syms)
    ensures LabelsResolve(t, ts) && EquResolves(t, Labels(t, ts).value.1)
  {
    hide Body, Labels, EquResolves, LabelsResolve;
    var (s1, ts1) := Labels(s, ts).value;
    LabelsLexical(s, ts);
    BodyGrows(cfg, s1, ts1);
    LabelsInStep(s, t, ts);
    BodyInStep(cfg, s1, t, ts1);
  }

  lemma LineGrows(cfg: Config, s: St, ts: Stmt)
    requires ProcessLine(cfg, s, ts).Some?
    ensures Within(s.syms, ProcessLine(cfg, s, ts).value.syms)
  {
    hide Body, Labels;
    var (s1, ts1) := Labels(s, ts).value;
    LabelsLexical(s, ts);
    LabelsGrow(s, ts);
    BodyGrows(cfg, s1, ts1);
  }

  lemma {:induction false} PassGrows(cfg: Config, s: St, lines: seq<Stmt>)
    requires Pass(cfg, s, lines).Some?
    ensures Within(s.syms, Pass(cfg, s, lines).value.syms)
    decreases |lines|
  {
    hide ProcessLine;
    if lines != [] {
      var s1 := ProcessLine(cfg, s, lines[0]).value;
      LineGrows(cfg, s, lines[0]);
      PassGrows(cfg, s1, lines[1..]);
    }
  }

  // ---------------------------------------------------------------------
  // Whole sources

  /** In the second pass every label and `.equ` finds in the table the value it
      has there. */
  predicate SymbolsResolve(cfg: Config, t: St, lines: seq<Stmt>)
    requires Pass(cfg, t, lines).Some?
    decreases |lines|
  {
    lines != [] ==>
      && LabelsResolve(t, lines[0]) && EquResolves(t, Labels(t, lines[0]).value.1)
      && SymbolsResolve(cfg, ProcessLine(cfg, t, lines[0]).value, lines[1..])
  }

  lemma {:induction false} PassInStep(cfg: Config, s: St, t: St, lines: seq<Stmt>)
    requires InStep(s, t) && NoWrap(cfg, t) && Pass(cfg, s, lines).Some? && Pass(cfg, t, lines).Some?
    requires Within(Pass(cfg, s, lines).value.syms, t.syms)
    ensures InStep(Pass(cfg, s, lines).value, Pass(cfg, t, lines).value)
    ensures Pass(cfg, t, lines).value.syms == t.syms
    ensures SymbolsResolve(cfg, t, lines)
    decreases |lines|
  {
    hide ProcessLine, LabelsResolve, EquResolves, Labels;
    if lines != [] {
      var s1, t1 := ProcessLine(cfg, s, lines[0]).value, ProcessLine(cfg, t, lines[0]).value;
      PassGrows(cfg, s1, lines[1..]);
      LineInStep(cfg, s, t, lines[0]);
      PassInStep(cfg, s1, t1, lines[1..]);
    }
  }

  // ---------------------------------------------------------------------
  // The image has no holes

  function Max(a: int, b: int): int { if a >= b then a else b }

  /** Exactly the bytes below the highest location are written. */
  ghost predicate Packed(cfg: Config, t: St) {
    && NoWrap(cfg, t) && t.org <= t.loc <= t.hi <= t.org + cfg.cap
    && forall k :: k in t.image <==> 0 <= k < t.hi - t.org
  }

  /** Output goes up from where it is. */
  ghost predicate Grown(cfg: Config, t: St, u: St) {
    Packed(cfg, u) && u.org == t.org && t.loc <= u.loc && u.hi == Max(t.hi, u.loc)
  }

  lemma PutByteGrown(cfg: Config, t: St, b: byte)
    requires Packed(cfg, t) && PutByte(cfg, t, b).Some?
    ensures Grown(cfg, t, PutByte(cfg, t, b).value)
  {
    PutByteLands(cfg, t, b);
  }

  lemma GrownTwice(cfg: Config, t: St, u: St, v: St)
    requires Grown(cfg, t, u) && Grown(cfg, u, v)
    ensures Grown(cfg, t, v)
  {
  }

  lemma Emit32Grown(cfg: Config, t: St, w: word)
    requires Packed(cfg, t) && Emit32(cfg, t, w).Some?
    ensures Grown(cfg, t, Emit32(cfg, t, w).value)
  {
    var t1 := PutByte(cfg, t, w / 0x100_0000).value;
    PutByteGrown(cfg, t, w / 0x100_0000);
    var t2 := PutByte(cfg, t1, w / 0x1_0000 % 0x100).value;
    PutByteGrown(cfg, t1, w / 0x1_0000 % 0x100);
    GrownTwice(cfg, t, t1, t2);
    var t3 := PutByte(cfg, t2, w / 0x100 % 0x100).value;
    PutByteGrown(cfg, t2, w / 0x100 % 0x100);
    GrownTwice(cfg, t, t2, t3);
    PutByteGrown(cfg, t3, w % 0x100);
    GrownTwice(cfg, t, t3, PutByte(cfg, t3, w % 0x100).value);
    hide PutByte, Grown;
  }

  lemma {:induction false} FillGrown(cfg: Config, t: St, n: nat)
    requires Packed(cfg, t) && Fill(cfg, t, n).Some?
    ensures Grown(cfg, t, Fill(cfg, t, n).value)
    decreases n
  {
    hide PutByte;
    if n > 0 {
      var t1 := PutByte(cfg, t, 0).value;
      PutByteGrown(cfg, t, 0);
      FillGrown(cfg, t1, n - 1);
      GrownTwice(cfg, t, t1, Fill(cfg, t, n).value);
    }
  }

  lemma {:induction false} WordListGrown(cfg: Config, t: St, ts: Toks)
    requires Packed(cfg, t) && WordList(cfg, t, ts).Some?
    ensures Grown(cfg, t, WordList(cfg, t, ts).value)
    decreases Length(ts)
  {
    hide Emit32, Expr;
    var (v, ts1) := Expr(t.syms, !t.second, ts).value;
    Emit32Grown(cfg, t, Wrap(v));
    var t1 := Emit32(cfg, t, Wrap(v)).value;
    if AtP(ts1, Comma) {
      WordListGrown(cfg, t1, ts1.rest);
      GrownTwice(cfg, t, t1, WordList(cfg, t, ts).value);
    }
  }

  lemma {:induction false} FloatListGrown(cfg: Config, t: St, ts: Toks)
    requires Packed(cfg, t) && FloatList(cfg, t, ts).Some?
    ensures Grown(cfg, t, FloatList(cfg, t, ts).value)
    decreases Length(ts)
  {
    hide Emit32;
    var (f, ts1) := FloatOf(ts).value;
    Emit32Grown(cfg, t, cfg.dsp32(f));
    var t1 := Emit32(cfg, t, cfg.dsp32(f)).value;
    if AtP(ts1, Comma) {
      FloatListGrown(cfg, t1, ts1.rest);
      GrownTwice(cfg, t, t1, FloatList(cfg, t, ts).value);
    }
  }

  /** One line: `.org` may go back, but never below the origin. */
  ghost predicate Moved(cfg: Config, t: St, u: St) {
    Packed(cfg, u) && u.org == t.org && u.hi == Max(t.hi, u.loc)
  }

  lemma DirectiveMoved(cfg: Config, t: St, name: string, ts: Toks)
    requires Packed(cfg, t) && Directive(cfg, t, name, ts).Some?
    ensures Moved(cfg, t, Directive(cfg, t, name, ts).value)
  {
    hide Emit32, Fill, WordList, FloatList, Expr, IsPow2, AlignGap;
    if name == ".word" {
      WordListGrown(cfg, t, ts);
    } else if name == ".float" {
      FloatListGrown(cfg, t, ts);
    } else if name == ".equ" {
    } else {
      var v := Expr(t.syms, false, ts).value.0;
      if name == ".org" {
        if v > t.loc { FillGrown(cfg, t, v - t.loc); }
      } else if name == ".space" {
        FillGrown(cfg, t, v);
      } else {
        FillGrown(cfg, t, AlignGap(t.loc, v));
      }
    }
  }

  lemma LineMoved(cfg: Config, t: St, ts: Stmt)
    requires Packed(cfg, t) && ProcessLine(cfg, t, ts).Some?
    ensures Moved(cfg, t, ProcessLine(cfg, t, ts).value)
  {
    hide Directive, AssembleWord, Emit32;
    LabelsOfSecond(t, ts);
    LabelsLexical(t, ts);
    var ts1 := Labels(t, ts).value.1;
    hide Labels;
    if ts1.End? {
    } else if IsDotted(ts1.t) {
      DirectiveMoved(cfg, t, ts1.t.name, ts1.rest);
    } else {
      Emit32Grown(cfg, t, AssembleWord(t.syms, t.loc, ts1).value);
    }
  }

  lemma {:induction false} LabelsOfSecond(t: St, ts: Toks)
    requires t.second && Labels(t, ts).Some?
    ensures Labels(t, ts).value.0 == t
    decreases ts
  {
    if AtLabel(ts) { LabelsOfSecond(t, ts.rest.rest); }
  }

  /** The highest location at which any line ends. */
  function Highest(cfg: Config, t: St, lines: seq<Stmt>): int
    requires Pass(cfg, t, lines).Some?
    decreases |lines|
  {
    if lines == [] then t.loc else Max(t.loc, Highest(cfg, ProcessLine(cfg, t, lines[0]).value, lines[1..]))
  }

  lemma {:induction false} PassMoved(cfg: Config, t: St, lines: seq<Stmt>)
    requires Packed(cfg, t) && Pass(cfg, t, lines).Some?
    ensures var u := Pass(cfg, t, lines).value;
            Packed(cfg, u) && u.org == t.org && u.hi == Max(t.hi, Highest(cfg, t, lines))
    decreases |lines|
  {
    hide ProcessLine;
    if lines != [] {
      LineMoved(cfg, t, lines[0]);
      PassMoved(cfg, ProcessLine(cfg, t, lines[0]).value, lines[1..]);
    }
  }

  /** Two passes are enough.  For every source, any mix of forward references,
      `.org` (backward too), `.space`, `.align` and `.equ`, assembled into a
      buffer ending below the top of the address space: the passes end at the
      same location, every label has in the table the location the second pass
      reaches it at, and the image is the bytes from the origin to the highest
      location, each of them written. */
  lemma TwoPassesAgree(cfg: Config, org: word, lines: seq<Stmt>)
    requires org + cfg.cap <= 0xFFFF_FFFF
    requires Assembled(cfg, org, lines).Some?
    ensures var first := Pass(cfg, Start(false, org, map[]), lines).value;
            var t := Start(true, org, first.syms);
            var u := Assembled(cfg, org, lines).value;
            && u.loc == first.loc && u.hi == first.hi && u.syms == first.syms
            && SymbolsResolve(cfg, t, lines)
            && u.hi == Highest(cfg, t, lines) && org <= u.hi <= org + cfg.cap
            && (forall k :: k in u.image <==> 0 <= k < u.hi - org)
  {
    var s, first := Start(false, org, map[]), Pass(cfg, Start(false, org, map[]), lines).value;
    var t := Start(true, org, first.syms);
    hide Pass;
    PassInStep(cfg, s, t, lines);
    PassMoved(cfg, t, lines);
  }
}
