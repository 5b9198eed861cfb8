/** The language of listings: a grammar, decided on the tokens alone, of the
    statements the disassembler prints. */
module Listing {
  import opened Words
  import opened Insn
  import opened Syntax
  import opened Dis
  import opened Asm

  // ---------------------------------------------------------------------
  // Operands; each function takes what it recognises off the front

  /** A register by its own name (not `sp`), or a pseudo-operand. */
  function TakeReg(ts: Toks): Parse<Reg> {
    if ts.Cons? && (ts.t.TP? || (ts.t.TReg? && NamedReg(ts.t.code))) then TryReg(ts) else None
  }

  /** A number up to hi, not spelled as the bare 1. */
  function TakeHex(ts: Toks, hi: nat): Parse<nat> {
    if ts.Cons? && ts.t.TNum? && !ts.t.bare && 0 <= ts.t.v <= hi then Some((ts.t.v, ts.rest)) else None
  }

  /** A decimal number up to hi. */
  function TakeDec(ts: Toks, hi: nat): Parse<nat> {
    if ts.Cons? && ts.t.TNum? && 0 <= ts.t.v <= hi && ts.t.bare == (ts.t.v == 1) then Some((ts.t.v, ts.rest)) else None
  }

  /** A signed 16-bit immediate: magnitude, with a minus sign if negative. */
  function TakeImm(ts: Toks): Parse<int> {
    if AtP(ts, MinusSign) then
      var (v, rest) :- TakeHex(ts.rest, 0x8000);
      if v != 0 then Some((0 - v, rest)) else None
    else
      var (v, rest) :- TakeHex(ts, 0x7FFF);
      Some((v, rest))
  }

  /** "(short)", or nothing for long. */
  function TakeShort(ts: Toks): (bool, Toks) {
    if AtP(ts, Open) && At(ts.rest, TSize(3)) && AtP(ts.rest.rest, Close) then (false, ts.rest.rest.rest) else (true, ts)
  }

  /** A size keyword in parentheses, or nothing for long. */
  function TakeSize(ts: Toks): (U3, Toks) {
    if AtP(ts, Open) && ts.rest.Cons? && ts.rest.t.TSize? && ts.rest.t.w <= 4 && AtP(ts.rest.rest, Close) then
      (ts.rest.t.w, ts.rest.rest.rest)
    else (7, ts)
  }

  /** *rP, *rP++, *rP-- or *rP++rI, rI a register of its own. */
  function TakeMem(ts: Toks): Parse<(Reg, Reg)> {
    var ts1 :- Need(ts, Star);
    var (rp, ts2) :- TakeReg(ts1);
    if AtP(ts2, Inc) then
      match TakeReg(ts2.rest)
      case Some((ri, ts3)) => if ri == R0 || IsPseudo(ri) then None else Some(((rp, ri), ts3))
      case None => Some(((rp, PLUS), ts2.rest))
    else if AtP(ts2, Dec) then Some(((rp, MINUS), ts2.rest))
    else Some(((rp, R0), ts2))
  }

  /** A DA pointer operand: r1-r14, modified by nothing, --, ++ or r15-r19. */
  function TakePointer(ts: Toks): (r: Parse<Field7>)
    ensures r.Some? ==> PointerField(r.value.0)
  {
    var ts1 :- Need(ts, Star);
    if !(ts1.Cons? && ts1.t.TReg? && 1 <= ts1.t.code <= 14) then None
    else
      var p, ts2 := ts1.t.code, ts1.rest;
      if AtP(ts2, Dec) then Some((8 * p + 6, ts2.rest))
      else if AtP(ts2, Inc) then
        if ts2.rest.Cons? && ts2.rest.t.TReg? && 17 <= ts2.rest.t.code <= 21
        then Some((8 * p + (ts2.rest.t.code - 16), ts2.rest.rest))
        else Some((8 * p + 7, ts2.rest))
      else Some((8 * p, ts2))
  }

  function TakeOperand(ts: Toks): (r: Parse<Field7>)
    ensures r.Some? ==> OperandField(r.value.0)
  {
    if ts.Cons? && ts.t.TAcc? then Some((ts.t.n, ts.rest)) else TakePointer(ts)
  }

  /** "(Z = Y)". */
  function TakeTap(ts: Toks): Parse<(Field7, Field7)> {
    var ts1 :- Need(ts, Open);
    var (z, ts2) :- TakePointer(ts1);
    var ts3 :- Need(ts2, Equals);
    var (y, ts4) :- TakeOperand(ts3);
    var ts5 :- Need(ts4, Close);
    Some(((z, y), ts5))
  }

  /** What was recognised is the whole of the tokens. */
  predicate Whole<T>(r: Parse<T>) {
    r.Some? && r.value.1.End?
  }

  /** The bare 1. */
  predicate IsOne(ts: Toks) {
    ts == Cons(TNum(1, true), End)
  }

  predicate HexFrom(ts: Toks, lo: nat, hi: nat) {
    Whole(TakeHex(ts, hi)) && TakeHex(ts, hi).value.0 >= lo
  }

  // ---------------------------------------------------------------------
  // Right-hand sides; `u` where no condition stands before the statement

  /** What may follow "rD = rA". */
  predicate ListedTail(u: bool, long: bool, rd: Reg, ra: Reg, ts: Toks) {
    if ts.End? then true
    else if !ts.t.TP? then false
    else
      var r := ts.rest;
      var b := TakeReg(r);
      match ts.t.p
      case PlusSign =>
        || IsOne(r)
        || (Whole(b) && ra != R0 && b.value.0 != R0 && !IsPseudo(b.value.0) && b.value.0 != ra)
        || (u && ra == rd && Whole(TakeImm(r)))
        || (u && ra != R0 && HexFrom(r, 1, 0x7FFF))
      case MinusSign =>
        || IsOne(r) || Whole(b)
        || (u && ra == rd && Whole(TakeImm(r)))
        || (u && ra != R0 && HexFrom(r, 1, 0x8000))
      case Star => r == Cons(TNum(2, false), End) && ra != R0 && !IsPseudo(ra)
      case ShiftOrSign => u && long && HexFrom(r, 0, 0xFFFF)
      case _ =>
        if RotateOf(ts.t.p).Some? then IsOne(r)
        else if ShiftOf(ts.t.p).Some? then
          IsOne(r) || (Whole(b) && b.value.0 != PLUS) || (u && ra == rd && Whole(TakeDec(r, 31)))
        else if LogicalOf(ts.t.p).Some? then Whole(b) || (u && ra == rd && Whole(TakeImm(r)))
        else false
  }

  predicate ListedArith(u: bool, long: bool, rd: Reg, ts: Toks) {
    if AtP(ts, Dec) then At(ts.rest, TN) && ts.rest.rest.End?
    else if TakeReg(ts).Some? then ListedTail(u, long, rd, TakeReg(ts).value.0, TakeReg(ts).value.1)
    else if AtP(ts, MinusSign) && TakeReg(ts.rest).Some? then Whole(TakeReg(ts.rest)) && TakeReg(ts.rest).value.0 != MINUS
    else
      u && TakeImm(ts).Some? &&
      var rest := TakeImm(ts).value.1;
      rest.End? || (AtP(rest, MinusSign) && TakeReg(rest.rest) == Some((rd, End)))
  }

  predicate IsUshort(ts: Toks) {
    AtP(ts, Open) && AtKw(ts.rest, KwUshort24) && AtP(ts.rest.rest, Close)
  }

  predicate IorEnds(ts: Toks) {
    ts.Cons? && ts.t.TIor? && NamedIor(ts.t.ior) && ts.rest.End?
  }

  /** What may follow "rD =". */
  predicate ListedRhs(u: bool, rd: Reg, ts: Toks) {
    if IsUshort(ts) then u && HexFrom(ts.rest.rest.rest, 0, 0xFF_FFFF)
    else
      var (w, ts1) := TakeSize(ts);
      if AtP(ts1, Star) then u && (HexFrom(ts1.rest, 0, 0xFFFF) || Whole(TakeMem(ts1)))
      else if ts1.Cons? && ts1.t.TIor? then u && IorEnds(ts1)
      else (w == 7 || w == 3) && ListedArith(u, w == 7, rd, ts1)
  }

  /** sp = sp++ and sp = sp--, the only statements to say `sp`. */
  predicate ListedBump(ts: Toks) {
    At(ts, TSp) && AtP(ts.rest, Equals) &&
    var t := TakeShort(ts.rest.rest).1;
    At(t, TSp) && (AtP(t.rest, Inc) || AtP(t.rest, Dec)) && t.rest.rest.End?
  }

  /** Assignments to a register, and the tests. */
  predicate ListedReg(u: bool, ts: Toks) {
    if At(ts, TSp) then ListedBump(ts)
    else
      var (long, ts1) := TakeShort(ts);
      var a := TakeReg(ts1);
      a.Some? &&
      var rest := a.value.1;
      if AtP(rest, Equals) then long && ListedRhs(u, a.value.0, rest.rest)
      else
        (AtP(rest, MinusSign) || AtP(rest, Ampersand))
        && (Whole(TakeReg(rest.rest)) || (u && Whole(TakeImm(rest.rest))))
  }

  // ---------------------------------------------------------------------
  // DA statements

  /** Y * X, or (Z = Y) * X where nothing is stored in front. */
  predicate ListedProduct(store: bool, ts: Toks) {
    if AtP(ts, Open) then !store && TakeTap(ts).Some? && ListedFactor(TakeTap(ts).value.1)
    else TakeOperand(ts).Some? && ListedFactor(TakeOperand(ts).value.1)
  }

  /** "* X" to the end. */
  predicate ListedFactor(ts: Toks) {
    AtP(ts, Star) && Whole(TakeOperand(ts.rest))
  }

  predicate Signed(ts: Toks) { AtP(ts, PlusSign) || AtP(ts, MinusSign) }

  /** What may follow "Y +" or "Y -": X, 0.0 * X, aM * X, or after an accumulator
      any product. */
  predicate ListedTerm(store: bool, y: Field7, ts: Toks) {
    if At(ts, TFnum(0.0)) then ListedFactor(ts.rest) && TakeOperand(ts.rest.rest).value.0 != 0
    else if AtP(ts, Open) then AccField(y) && ListedProduct(store, ts)
    else
      TakeOperand(ts).Some? &&
      (TakeOperand(ts).value.1.End?
       || ((AccField(y) || AccField(TakeOperand(ts).value.0)) && ListedProduct(store, ts)))
  }

  predicate ListedSum(store: bool, neg: bool, ts: Toks) {
    if At(ts, TFnum(0.0)) then neg && Signed(ts.rest) && ListedProduct(store, ts.rest.rest)
    else if At(ts, TFnum(1.0)) then Signed(ts.rest) && ListedProduct(store, ts.rest.rest)
    else if AtP(ts, Open) then
      !store && TakeTap(ts).Some? &&
      var rest := TakeTap(ts).value.1;
      ListedFactor(rest) || (Signed(rest) && Whole(TakeOperand(rest.rest)))
    else
      TakeOperand(ts).Some? &&
      var (y, rest) := TakeOperand(ts).value;
      rest.End? || ListedFactor(rest) || (Signed(rest) && ListedTerm(store, y, rest.rest))
  }

  /** What may follow "aN =". */
  predicate ListedDa(store: bool, ts: Toks) {
    if ts.Cons? && ts.t.TG? then
      NamedG(ts.t.g) && AtP(ts.rest, Open) && TakeOperand(ts.rest.rest).Some?
      && TakeOperand(ts.rest.rest).value.1 == P(Close, End)
    else ListedSum(store, AtP(ts, MinusSign), if AtP(ts, MinusSign) then ts.rest else ts)
  }

  /** "aN = ..." */
  predicate ListedAcc(store: bool, ts: Toks) {
    ts.Cons? && ts.t.TAcc? && AtP(ts.rest, Equals) && ListedDa(store, ts.rest.rest)
  }

  // ---------------------------------------------------------------------
  // Stores, I/O registers, branches, loops

  /** A size, then a register or (where allowed) an I/O register. */
  predicate ListedSource(ior: bool, ts: Toks) {
    var t := TakeSize(ts).1;
    Whole(TakeReg(t)) || (ior && IorEnds(t))
  }

  /** "*l = rH", or "*rP.. = rH" and the like. */
  predicate ListedStore(ts: Toks) {
    AtP(ts, Star) &&
    if TakeHex(ts.rest, 0xFFFF).Some? then
      var rest := TakeHex(ts.rest, 0xFFFF).value.1;
      AtP(rest, Equals) && ListedSource(false, rest.rest)
    else
      TakeMem(ts).Some? && AtP(TakeMem(ts).value.1, Equals) && ListedSource(true, TakeMem(ts).value.1.rest)
  }

  /** "Z = aN = ..." */
  predicate ListedDaStore(ts: Toks) {
    TakePointer(ts).Some? && AtP(TakePointer(ts).value.1, Equals) && ListedAcc(true, TakePointer(ts).value.1.rest)
  }

  /** Writing r0 to spc in three of the sizes has a name of its own. */
  predicate ListedIor(ts: Toks) {
    ts.Cons? && ts.t.TIor? && NamedIor(ts.t.ior) && AtP(ts.rest, Equals) &&
    var (w, t) := TakeSize(ts.rest.rest);
    Whole(TakeMem(t))
    || (Whole(TakeReg(t)) && !(ts.t.ior == 10 && TakeReg(t).value.0 == R0 && (w == 7 || w == 3 || w == 0)))
  }

  /** {N, rB, rB+N, rB-N} with a 16-bit N, or up to `wide` where N may be 24-bit. */
  function TakeTarget(ts: Toks, wideAbs: nat, widePlus: nat): Parse<(Reg, int)> {
    if ts.Cons? && ts.t.TNum? then
      var (v, rest) :- TakeHex(ts, 0xFFFF_FFFF);
      if v <= 0x7FFF || v >= 0xFFFF_8000 || v <= wideAbs then Some(((R0, v), rest)) else None
    else
      var (rb, rest) :- TakeReg(ts);
      if rb == R0 then None
      else if AtP(rest, PlusSign) then
        var (v, rest') :- TakeHex(rest.rest, if widePlus > 0x7FFF then widePlus else 0x7FFF);
        if v != 0 then Some(((rb, v), rest')) else None
      else if AtP(rest, MinusSign) then
        var (v, rest') :- TakeHex(rest.rest, 0x8000);
        if v != 0 then Some(((rb, 0 - v), rest')) else None
      else Some(((rb, 0), rest))
  }

  /** Never-taken gotos to 0 and returns through pcsh have names of their own. */
  predicate ListedGoto(c: Cond, ts: Toks) {
    var wide := if c == 1 then 0xFF_FFFF else 0;
    var d := TakeTarget(ts, wide, wide);
    Whole(d) && (c != 0 || d.value.0 != (R0, 0))
  }

  predicate ListedCall(ts: Toks) {
    var d := TakeTarget(ts, 0xFF_FFFF, 0);
    d.Some? && AtP(d.value.1, Open) && TakeReg(d.value.1.rest).Some?
    && TakeReg(d.value.1.rest).value.1 == P(Close, End)
  }

  predicate ListedLoop(ts: Toks) {
    var r := TakeReg(ts);
    r.Some? && AtP(r.value.1, Dec) && AtP(r.value.1.rest, AtLeast) &&
    var t := r.value.1.rest.rest;
    At(t, TNum(0, false)) && AtP(t.rest, Close) && AtKw(t.rest.rest, KwGoto) && Whole(TakeTarget(t.rest.rest.rest, 0, 0))
  }

  predicate ListedCount(ts: Toks) {
    Whole(TakeReg(ts)) || Whole(TakeDec(ts, 2047))
  }

  /** K, then the count. */
  predicate ListedDo(lo: nat, ts: Toks) {
    var k := TakeDec(ts, 127);
    k.Some? && k.value.0 >= lo && AtP(k.value.1, Comma) && ListedCount(k.value.1.rest)
  }

  predicate ListedIf(ts: Toks) {
    AtP(ts, Open) &&
    if ts.rest.Cons? && ts.rest.t.TCond? then
      var c, t := ts.rest.t.c, ts.rest.rest;
      c != 1 && NamedCond(c) && AtP(t, Close) &&
      if AtKw(t.rest, KwGoto) then ListedGoto(c, t.rest.rest) else ListedReg(false, t.rest)
    else ListedLoop(ts.rest)
  }

  // ---------------------------------------------------------------------
  // Statements

  predicate ListedKeyword(kw: Keyword, ts: Toks) {
    match kw
    case KwGoto => ListedGoto(1, ts) && ts != Cons(TReg(PCSH), End)
    case KwCall => ListedCall(ts)
    case KwDo => ListedDo(0, ts)
    case KwDolock => ListedDo(0, ts)
    case KwDoblock => ListedCount(ts) || ListedDo(1, ts)
    case KwIf => ListedIf(ts)
    case KwUshort24 => false
    case _ => ts.End?
  }

  /** The class of a statement the disassembler prints. */
  function ListedClass(ts: Toks): Option<Class> {
    if ts.End? then None
    else
      match ts.t
      case TKw(kw) => if ListedKeyword(kw, ts.rest) then Some(CA) else None
      case TAcc(_) => if ListedAcc(false, ts) then Some(DA) else None
      case TIor(_) => if ListedIor(ts) then Some(CA) else None
      case _ =>
        if AtP(ts, Star) then
          if ListedStore(ts) then Some(CA) else if ListedDaStore(ts) then Some(DA) else None
        else if ListedReg(true, ts) then Some(CA)
        else None
  }

  /** The statements the disassembler prints. */
  predicate Listed(ts: Toks) {
    ListedClass(ts).Some?
  }
}
