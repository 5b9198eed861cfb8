/** Statements as token lists, the common language of disassembler and
    assembler. */
module Syntax {
  import opened Words
  import opened Insn

  datatype Option<T> = None | Some(value: T) {
    predicate IsFailure() { None? }
    function PropagateFailure<U>(): Option<U> requires None? { None }
    function Extract(): T requires Some? { value }
  }

  datatype Punct =
    | Equals | PlusSign | MinusSign | Star | Open | Close | Comma | Ampersand | Bar | Caret | Hash | Colon
    | ShlSign | ShrSign | AsrSign | RolSign | RorSign | ShiftOrSign | Inc | Dec | AtLeast | AndNot

  datatype Keyword =
    | KwNop | KwIreturn | KwWaiti | KwBkpt | KwSftrst | KwGoto | KwCall | KwDo | KwDolock | KwDoblock | KwIf
    | KwUshort24

  /** Identifiers come classified: the vocabularies are disjoint.  `TReg` is a
      register name by its code (the aliases r21/sp differ, so `TSp`); `TN` is the
      `n` of the pseudo-operands +n and -n; `TNum` remembers whether it was
      spelled as the bare `1`; `TBad` is the disassembler's `?` placeholder. */
  datatype Tok =
    | TP(p: Punct)
    | TKw(kw: Keyword)
    | TReg(code: Reg)
    | TSp
    | TN
    | TAcc(n: U2)
    | TIor(ior: Reg)
    | TCond(c: Cond)
    | TSize(w: U3)
    | TG(g: U4)
    | TSym(name: string)
    | TNum(v: int, bare: bool)
    | TFnum(f: real)
    | TBad

  datatype Toks = End | Cons(t: Tok, rest: Toks)

  function Length(ts: Toks): nat {
    if ts.End? then 0 else 1 + Length(ts.rest)
  }

  // ---------------------------------------------------------------------
  // Vocabulary

  /** Register codes that have a name. */
  predicate NamedReg(code: Reg) {
    code <= 15 || 17 <= code <= 21 || 24 <= code <= 26 || code == 30
  }

  /** Named registers and the two pseudo-operands. */
  predicate OperandReg(code: Reg) {
    NamedReg(code) || code == MINUS || code == PLUS
  }

  predicate NamedIor(code: Reg) {
    code == 0 || code == 8 || code == 10 || code == 12 || code == 14 || code == 15
  }

  predicate NamedCond(c: Cond) {
    c <= 25 || 32 <= c <= 35 || 40 <= c <= 47
  }

  predicate NamedSize(w: U3) {
    w <= 4 || w == 7
  }

  predicate NamedG(g: U4) {
    g <= 9 || 12 <= g <= 14
  }

  /** A token the tokenizer can produce. */
  predicate Lexical(t: Tok) {
    match t
    case TReg(code) => NamedReg(code)
    case TIor(code) => NamedIor(code)
    case TCond(c) => NamedCond(c)
    case TSize(w) => NamedSize(w)
    case TG(g) => NamedG(g)
    case TBad => false
    case _ => true
  }

  predicate AllLexical(ts: Toks) {
    ts.Cons? ==> Lexical(ts.t) && AllLexical(ts.rest)
  }

  /** Number of the register a code names, -1 for pc, pcsh and the pseudos. */
  function RegNumber(code: Reg): int {
    if code <= 14 then code
    else if 17 <= code <= 21 then code - 2
    else if 24 <= code <= 26 then code - 4
    else -1
  }

  // Table 10-3: a DA operand field

  predicate AccField(f: Field7) { f / 8 == 0 && f % 8 <= 3 }
  predicate PointerField(f: Field7) { 1 <= f / 8 <= 14 }
  predicate OperandField(f: Field7) { AccField(f) || PointerField(f) }

  const DA_NOWRITE: Field7 := 7
}
