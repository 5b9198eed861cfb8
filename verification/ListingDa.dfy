/** The DA half: listed data-arithmetic statements are exactly the printed ones;
    and the theorem for all statements. */
module ListingDa {
  import opened Words
  import opened Insn
  import opened Syntax
  import opened Dis
  import opened Asm
  import opened Listing
  import opened ListingFacts
  import opened Fixpoint

  // ---------------------------------------------------------------------
  // Operands

  /** What may stand behind a DA operand. */
  predicate Delimited(rest: Toks) {
    rest.End? || (rest.t.TP? && rest.t.p != Inc && rest.t.p != Dec)
  }

  lemma OperandTaken(f: Field7, rest: Toks)
    requires OperandField(f) && Delimited(rest)
    ensures TakeOperand(POperand(f, rest)) == Some((f, rest))
    ensures PointerField(f) ==> TakePointer(POperand(f, rest)) == Some((f, rest))
    ensures POperand(f, rest).Cons? && (POperand(f, rest).t.TAcc? || AtP(POperand(f, rest), Star))
    ensures PointerField(f) ==> AtP(POperand(f, rest), Star) && TakeHex(POperand(f, rest).rest, 0xFFFF).None?
  {
    if PointerField(f) {
      assert TakePointer(P(Star, Cons(TReg(f / 8), PPost(f % 8, rest)))) == Some((f, rest));
    }
  }

  lemma PointerPrinted(ts: Toks)
    ensures TakePointer(ts).Some? ==> ts == POperand(TakePointer(ts).value.0, TakePointer(ts).value.1)
  {
  }

  lemma OperandPrinted(ts: Toks)
    ensures TakeOperand(ts).Some? ==> ts == POperand(TakeOperand(ts).value.0, TakeOperand(ts).value.1)
  {
    PointerPrinted(ts);
    hide TakePointer;
  }

  /** The pointer field whose operand text stands for Z. */
  function ZText(z: Field7, y: Field7): Field7 {
    if z / 8 == 15 then y / 8 * 8 + z % 8 else z
  }

  lemma ZPrintsAs(z: Field7, y: Field7, rest: Toks)
    requires ZPrints(z, y) && !ZKindOf(z, y).ZBad?
    ensures PointerField(ZText(z, y)) && PZ(z, y, rest) == POperand(ZText(z, y), rest)
  {
  }

  /** A pointer in front prints as itself with any Y. */
  lemma PlainZ(z: Field7, y: Field7, rest: Toks)
    requires PointerField(z)
    ensures ZPrints(z, y) && ZKindOf(z, y).ZNormal? && PZ(z, y, rest) == POperand(z, rest)
  {
  }

  lemma NoZ(y: Field7)
    ensures !ZPrints(DA_NOWRITE, y) && ZKindOf(DA_NOWRITE, y).ZNone?
  {
  }

  lemma TapPrinted(ts: Toks)
    ensures TakeTap(ts).Some? ==>
              var ((z, y), rest) := TakeTap(ts).value;
              PointerField(z) && OperandField(y) && ts == PTap(z, y, rest)
  {
    if TakeTap(ts).Some? {
      PointerPrinted(ts.rest);
      var (z, ts2) := TakePointer(ts.rest).value;
      OperandPrinted(ts2.rest);
      var (y, ts4) := TakeOperand(ts2.rest).value;
      PlainZ(z, y, P(Equals, POperand(y, P(Close, ts4.rest))));
      hide TakePointer, TakeOperand, POperand, PZ, ZPrints;
    }
  }

  lemma TapTaken(z: Field7, y: Field7, rest: Toks)
    requires ZPrints(z, y) && !ZKindOf(z, y).ZBad? && OperandField(y) && Delimited(rest)
    ensures TakeTap(PTap(z, y, rest)) == Some(((ZText(z, y), y), rest)) && AtP(PTap(z, y, rest), Open)
  {
    var tail := P(Equals, POperand(y, P(Close, rest)));
    ZPrintsAs(z, y, tail);
    OperandTaken(ZText(z, y), tail);
    OperandTaken(y, P(Close, rest));
    hide TakePointer, TakeOperand, POperand, PZ, ZPrints, ZText;
  }

  // ---------------------------------------------------------------------
  // Listed DA statements are printed

  /** Something stored in front, or nothing. */
  predicate Front(store: bool, z: Field7) {
    if store then PointerField(z) else z == DA_NOWRITE
  }

  function FrontText(store: bool, z: Field7, rest: Toks): Toks {
    if store then POperand(z, P(Equals, rest)) else rest
  }

  lemma FrontPrints(store: bool, z: Field7, y: Field7, rest: Toks)
    requires Front(store, z)
    ensures PStore(z, y, rest) == FrontText(store, z, rest) && !ZKindOf(z, y).ZBad? && (ZPrints(z, y) <==> store)
  {
    NoZ(y);
    if store { PlainZ(z, y, P(Equals, rest)); }
    hide POperand, PZ;
  }

  /** Z for a multiply-accumulate: the tap's, or the one in front. */
  function ProductText(tap: bool, z: Field7, y: Field7, x: Field7): Toks {
    if tap then PTap(z, y, P(Star, POperand(x, End))) else POperand(y, P(Star, POperand(x, End)))
  }

  /** What a listed product consists of. */
  lemma ProductPrinted(store: bool, ts: Toks) returns (tap: bool, z: Field7, y: Field7, x: Field7)
    requires ListedProduct(store, ts)
    ensures OperandField(y) && OperandField(x) && (tap ==> !store && PointerField(z))
    ensures tap == AtP(ts, Open) && (!tap ==> y == TakeOperand(ts).value.0)
    ensures ts == ProductText(tap, z, y, x)
  {
    z := DA_NOWRITE;
    tap := AtP(ts, Open);
    TapPrinted(ts);
    OperandPrinted(ts);
    var rest: Toks;
    if tap {
      z, y, rest := TakeTap(ts).value.0.0, TakeTap(ts).value.0.1, TakeTap(ts).value.1;
    } else {
      y, rest := TakeOperand(ts).value.0, TakeOperand(ts).value.1;
    }
    x := TakeOperand(rest.rest).value.0;
    OperandPrinted(rest.rest);
    hide TakeTap, TakeOperand, PTap, POperand;
    assert rest == P(Star, POperand(x, End));
  }

  /** Formats 2 and 3: tap or store, by the product. */
  lemma SumPrints(store: bool, z0: Field7, an: U2, fs: bool, ss: bool, mul: U3, tap: bool, z: Field7, y: Field7, x: Field7,
                  addr: word)
    requires Front(store, z0) && mul <= 5 && OperandField(y) && OperandField(x) && (tap ==> !store && PointerField(z))
    ensures Printed(FrontText(store, z0, PAccEq(an, PSum(fs, ss, mul, ProductText(tap, z, y, x)))), addr)
  {
    var text := FrontText(store, z0, PAccEq(an, PSum(fs, ss, mul, ProductText(tap, z, y, x))));
    if tap {
      PlainZ(z, y, End);
      hide PTap, POperand, PSum, OperandField, PZ;
      PrintedBy(Mac(2, mul, fs, ss, an, x, y, z), text, addr);
    } else {
      FrontPrints(store, z0, y, PAccEq(an, PSum(fs, ss, mul, ProductText(tap, z, y, x))));
      hide PTap, POperand, PSum, OperandField, PStore, FrontText;
      PrintedBy(Mac(3, mul, fs, ss, an, x, y, z0), text, addr);
    }
  }

  /** Format 1. */
  lemma AddPrints(store: bool, z: Field7, an: U2, fs: bool, ss: bool, mul: U3, y: Field7, x: Field7, addr: word)
    requires Front(store, z) && mul <= 5 && OperandField(y) && OperandField(x)
    ensures Printed(FrontText(store, z, PAccEq(an, PSign(fs, POperand(y, PFactor(mul, ss, x))))), addr)
  {
    var rest := PAccEq(an, PSign(fs, POperand(y, PFactor(mul, ss, x))));
    FrontPrints(store, z, y, rest);
    hide POperand, PFactor, OperandField, PStore, FrontText;
    PrintedBy(Mac(1, mul, fs, ss, an, x, y, z), FrontText(store, z, rest), addr);
  }

  lemma TapAddPrints(an: U2, fs: bool, ss: bool, z: Field7, y: Field7, x: Field7, addr: word)
    requires PointerField(z) && OperandField(y) && OperandField(x)
    ensures Printed(PAccEq(an, PSign(fs, PTap(z, y, PPlusMinus(ss, POperand(x, End))))), addr)
  {
    PlainZ(z, y, End);
    hide POperand, PTap, OperandField;
    PrintedBy(Mac(1, 6, fs, ss, an, x, y, z), PAccEq(an, PSign(fs, PTap(z, y, PPlusMinus(ss, POperand(x, End))))), addr);
  }

  lemma SignText(ts: Toks)
    requires Signed(ts)
    ensures ts == PPlusMinus(AtP(ts, MinusSign), ts.rest)
  {
  }

  /** After "Y +-". */
  lemma TermPrinted(store: bool, z0: Field7, an: U2, fs: bool, ss: bool, y: Field7, ts: Toks, addr: word)
    requires Front(store, z0) && OperandField(y) && ListedTerm(store, y, ts)
    ensures Printed(FrontText(store, z0, PAccEq(an, PSign(fs, POperand(y, PPlusMinus(ss, ts))))), addr)
  {
    hide TakeOperand, TakeTap, Printed, FrontText;
    if At(ts, TFnum(0.0)) {
      OperandPrinted(ts.rest.rest);
      var x := TakeOperand(ts.rest.rest).value.0;
      assert ts == Cons(TFnum(0.0), P(Star, POperand(x, End)));
      AddPrints(store, z0, an, fs, ss, 4, y, x, addr);
    } else if !AtP(ts, Open) && TakeOperand(ts).value.1.End? {
      OperandPrinted(ts);
      AddPrints(store, z0, an, fs, ss, 5, y, TakeOperand(ts).value.0, addr);
    } else {
      var tap, z, a, x := ProductPrinted(store, ts);
      if !tap && AccField(a) {
        hide OperandField;
        AccFactor(a, x, ss);
        AddPrints(store, z0, an, fs, ss, a, y, x, addr);
      } else {
        AccAdder(y, fs, ss, ts);
        SumPrints(store, z0, an, fs, ss, y, tap, z, a, x, addr);
      }
    }
  }

  lemma AccFactor(a: Field7, x: Field7, ss: bool)
    requires AccField(a)
    ensures PFactor(a, ss, x) == PPlusMinus(ss, ProductText(false, DA_NOWRITE, a, x))
  {
  }

  lemma AccAdder(y: Field7, fs: bool, ss: bool, product: Toks)
    requires AccField(y)
    ensures PSum(fs, ss, y, product) == PSign(fs, POperand(y, PPlusMinus(ss, product)))
  {
  }

  lemma SumPrinted(store: bool, z0: Field7, an: U2, neg: bool, ts: Toks, addr: word)
    requires Front(store, z0) && ListedSum(store, neg, ts)
    ensures Printed(FrontText(store, z0, PAccEq(an, PSign(neg, ts))), addr)
  {
    assert FrontText(false, z0, PAccEq(an, PSign(neg, ts))) == PAccEq(an, PSign(neg, ts));
    hide TakeOperand, TakeTap, Printed, FrontText, ListedProduct, ListedTerm;
    if At(ts, TFnum(0.0)) || At(ts, TFnum(1.0)) {
      SignText(ts.rest);
      var ss := AtP(ts.rest, MinusSign);
      var tap, z, y, x := ProductPrinted(store, ts.rest.rest);
      var mul: U3 := if At(ts, TFnum(0.0)) then 4 else 5;
      SumPrints(store, z0, an, neg, ss, mul, tap, z, y, x, addr);
    } else if AtP(ts, Open) {
      TapSumPrinted(an, neg, ts, z0, addr);
    } else {
      var (y, rest) := TakeOperand(ts).value;
      OperandPrinted(ts);
      if rest.End? {
        AddPrints(store, z0, an, neg, false, 4, y, 0, addr);
      } else if ListedFactor(rest) {
        OperandPrinted(rest.rest);
        assert rest == P(Star, rest.rest);
        SumPrints(store, z0, an, false, neg, 4, false, DA_NOWRITE, y, TakeOperand(rest.rest).value.0, addr);
      } else {
        SignText(rest);
        TermPrinted(store, z0, an, neg, AtP(rest, MinusSign), y, rest.rest, addr);
      }
    }
  }

  lemma TapSumPrinted(an: U2, neg: bool, ts: Toks, z0: Field7, addr: word)
    requires AtP(ts, Open) && ListedSum(false, neg, ts) && z0 == DA_NOWRITE
    ensures Printed(PAccEq(an, PSign(neg, ts)), addr)
  {
    var ((z, y), rest) := TakeTap(ts).value;
    TapPrinted(ts);
    OperandPrinted(rest.rest);
    hide TakeOperand, TakeTap, Printed, PTap;
    var x := TakeOperand(rest.rest).value.0;
    if ListedFactor(rest) {
      assert rest == P(Star, rest.rest);
      SumPrints(false, z0, an, false, neg, 4, true, z, y, x, addr);
    } else {
      SignText(rest);
      TapAddPrints(an, neg, AtP(rest, MinusSign), z, y, x, addr);
    }
  }

  lemma SpecialPrinted(store: bool, z: Field7, an: U2, ts: Toks, addr: word)
    requires Front(store, z) && ts.Cons? && ts.t.TG? && ListedDa(store, ts)
    ensures Printed(FrontText(store, z, PAccEq(an, ts)), addr)
  {
    OperandPrinted(ts.rest.rest);
    var y := TakeOperand(ts.rest.rest).value.0;
    FrontPrints(store, z, y, PAccEq(an, ts));
    hide TakeOperand, FrontText, PStore, POperand, ZPrints;
    assert ts == Cons(TG(ts.t.g), P(Open, POperand(y, P(Close, End))));
    PrintedBy(Special(ts.t.g, an, y, z), FrontText(store, z, PAccEq(an, ts)), addr);
  }

  lemma AccPrinted(store: bool, z: Field7, ts: Toks, addr: word)
    requires Front(store, z) && ListedAcc(store, ts)
    ensures Printed(FrontText(store, z, ts), addr)
  {
    var an, rhs := ts.t.n, ts.rest.rest;
    assert ts == PAccEq(an, rhs);
    if rhs.Cons? && rhs.t.TG? {
      hide ListedDa, FrontText, Printed;
      SpecialPrinted(store, z, an, rhs, addr);
    } else {
      var neg := AtP(rhs, MinusSign);
      assert rhs == PSign(neg, if neg then rhs.rest else rhs);
      hide ListedSum, FrontText, Printed;
      SumPrinted(store, z, an, neg, if neg then rhs.rest else rhs, addr);
    }
  }

  lemma DaListedPrinted(ts: Toks, addr: word)
    requires ListedClass(ts) == Some(DA)
    ensures Printed(ts, addr)
  {
    hide ListedDa, TakePointer, Printed, ListedStore, ListedReg, ListedKeyword, ListedIor, FrontText;
    if ts.t.TAcc? {
      AccPrinted(false, DA_NOWRITE, ts, addr);
      assert FrontText(false, DA_NOWRITE, ts) == ts by { NoFront(ts); }
    } else {
      var (z, rest) := TakePointer(ts).value;
      PointerPrinted(ts);
      assert rest == P(Equals, rest.rest);
      AccPrinted(true, z, rest.rest, addr);
      WithFront(z, rest.rest);
    }
  }

  lemma NoFront(ts: Toks)
    ensures FrontText(false, DA_NOWRITE, ts) == ts
  {
  }

  lemma WithFront(z: Field7, ts: Toks)
    ensures FrontText(true, z, ts) == POperand(z, P(Equals, ts))
  {
  }

  // ---------------------------------------------------------------------
  // Printed DA statements are listed

  lemma AccListed(an: U2, rhs: Toks)
    requires ListedDa(false, rhs)
    ensures Listed(PAccEq(an, rhs))
  {
    hide ListedDa;
  }

  lemma StoredListed(zf: Field7, an: U2, rhs: Toks)
    requires PointerField(zf) && ListedDa(true, rhs)
    ensures Listed(POperand(zf, P(Equals, PAccEq(an, rhs))))
  {
    var text := POperand(zf, P(Equals, PAccEq(an, rhs)));
    OperandTaken(zf, P(Equals, PAccEq(an, rhs)));
    hide ListedDa, TakePointer, TakeOperand, POperand;
    assert ListedDaStore(text);
    hide ListedStore, ListedDaStore, ListedAcc;
  }

  /** With Z in front if it prints. */
  lemma StoreListed(z: Field7, y: Field7, an: U2, rhs: Toks)
    requires !ZKindOf(z, y).ZBad? && ListedDa(ZPrints(z, y), rhs)
    ensures Listed(PStore(z, y, PAccEq(an, rhs)))
  {
    if ZPrints(z, y) {
      ZPrintsAs(z, y, P(Equals, PAccEq(an, rhs)));
      hide ListedDa, POperand, Listed, ZText, PZ;
      StoredListed(ZText(z, y), an, rhs);
    } else {
      hide ListedDa, Listed;
      AccListed(an, rhs);
    }
  }

  lemma FactorListed(x: Field7)
    requires OperandField(x)
    ensures ListedFactor(P(Star, POperand(x, End)))
  {
    OperandTaken(x, End);
    hide TakeOperand, POperand;
  }

  lemma ProductListed(store: bool, y: Field7, x: Field7)
    requires OperandField(y) && OperandField(x)
    ensures ListedProduct(store, POperand(y, P(Star, POperand(x, End))))
  {
    FactorListed(x);
    OperandTaken(y, P(Star, POperand(x, End)));
    hide TakeOperand, POperand, ListedFactor;
  }

  lemma TapProductListed(z: Field7, y: Field7, x: Field7)
    requires ZPrints(z, y) && !ZKindOf(z, y).ZBad? && OperandField(y) && OperandField(x)
    ensures ListedProduct(false, PTap(z, y, P(Star, POperand(x, End))))
  {
    FactorListed(x);
    TapTaken(z, y, P(Star, POperand(x, End)));
    hide TakeOperand, POperand, ListedFactor, TakeTap, PTap, OperandField, ZText;
  }

  /** The signed texts: a statement after "aN =" whose first token is no sign. */
  lemma SignedListed(store: bool, neg: bool, ts: Toks)
    requires ListedSum(store, neg, ts) && !AtP(ts, MinusSign) && !(ts.Cons? && ts.t.TG?)
    ensures ListedDa(store, PSign(neg, ts))
  {
    hide ListedSum;
  }

  lemma AddListed(store: bool, fs: bool, ss: bool, mul: U3, y: Field7, x: Field7)
    requires mul <= 5 && OperandField(y) && ((mul == 4 && x == 0) || OperandField(x))
    ensures ListedDa(store, PSign(fs, POperand(y, PFactor(mul, ss, x))))
  {
    var factor := PFactor(mul, ss, x);
    FactorTermListed(store, ss, mul, y, x);
    OperandTaken(y, factor);
    var text := POperand(y, factor);
    hide TakeOperand, POperand, PFactor, ListedTerm, OperandField;
    assert ListedSum(store, fs, text);
    hide ListedSum;
    SignedListed(store, fs, text);
  }

  lemma FactorTermListed(store: bool, ss: bool, mul: U3, y: Field7, x: Field7)
    requires mul <= 5 && ((mul == 4 && x == 0) || OperandField(x))
    ensures var f := PFactor(mul, ss, x);
            Delimited(f) && (f.End? || (Signed(f) && ListedTerm(store, y, f.rest)))
  {
    if mul == 4 {
      if x != 0 {
        FactorListed(x);
        OperandTaken(x, End);
      }
      hide POperand, TakeOperand;
    } else if mul == 5 {
      OperandTaken(x, End);
      hide POperand, TakeOperand, OperandField;
    } else {
      ProductListed(store, mul, x);
      OperandTaken(mul, P(Star, POperand(x, End)));
      assert POperand(mul, P(Star, POperand(x, End))) == Cons(TAcc(mul % 4), P(Star, POperand(x, End)));
      hide POperand, TakeOperand, ListedProduct;
    }
  }

  lemma SumListed(store: bool, fs: bool, ss: bool, mul: U3, product: Toks)
    requires mul <= 5 && ListedProduct(store, product) && ListedSum(store, ss, product)
    requires product.Cons? && (product.t.TAcc? || AtP(product, Star) || AtP(product, Open))
    ensures ListedDa(store, PSum(fs, ss, mul, product))
  {
    hide ListedProduct;
    var signed := PPlusMinus(ss, product);
    if mul == 4 {
      if fs {
        SignedListed(store, true, Cons(TFnum(0.0), signed));
      } else {
        hide ListedSum;
        SignedListed(store, ss, product);
      }
    } else if mul == 5 {
      SignedListed(store, fs, Cons(TFnum(1.0), signed));
    } else {
      AccTermListed(store, mul, product);
      AccTaken(mul, signed);
      hide ListedTerm, TakeOperand;
      SignedListed(store, fs, Cons(TAcc(mul % 4), signed));
    }
  }

  lemma AccTermListed(store: bool, mul: U3, product: Toks)
    requires mul < 4 && ListedProduct(store, product)
    requires product.Cons? && (product.t.TAcc? || AtP(product, Star) || AtP(product, Open))
    ensures ListedTerm(store, mul, product)
  {
    hide TakeTap, TakePointer;
  }

  lemma AccTaken(n: Field7, rest: Toks)
    requires n < 4
    ensures TakeOperand(Cons(TAcc(n % 4), rest)) == Some((n, rest))
  {
  }

  lemma PlainProductSum(store: bool, ss: bool, y: Field7, x: Field7)
    requires OperandField(y) && OperandField(x)
    ensures var product := POperand(y, P(Star, POperand(x, End)));
            ListedSum(store, ss, product) && ListedProduct(store, product)
            && product.Cons? && (product.t.TAcc? || AtP(product, Star))
  {
    ProductListed(store, y, x);
    FactorListed(x);
    OperandTaken(y, P(Star, POperand(x, End)));
    hide TakeOperand, POperand, ListedFactor, ListedProduct, ListedTerm, OperandField;
  }

  lemma TapProductSum(ss: bool, z: Field7, y: Field7, x: Field7)
    requires ZPrints(z, y) && !ZKindOf(z, y).ZBad? && OperandField(y) && OperandField(x)
    ensures var product := PTap(z, y, P(Star, POperand(x, End)));
            ListedSum(false, ss, product) && ListedProduct(false, product) && AtP(product, Open)
  {
    TapProductListed(z, y, x);
    FactorListed(x);
    TapTaken(z, y, P(Star, POperand(x, End)));
    hide TakeOperand, POperand, ListedFactor, ListedProduct, TakeTap, PTap, OperandField, ZText;
  }

  lemma TapAddListed(fs: bool, ss: bool, z: Field7, y: Field7, x: Field7)
    requires !ZKindOf(z, y).ZBad? && OperandField(y) && OperandField(x)
    ensures ListedDa(false, PSign(fs, PTap(z, y, PPlusMinus(ss, POperand(x, End)))))
  {
    var tail := PPlusMinus(ss, POperand(x, End));
    if ZPrints(z, y) {
      OperandTaken(x, End);
      TapTaken(z, y, tail);
      hide TakeOperand, POperand, TakeTap, PTap, OperandField, ZText;
      var text := PTap(z, y, tail);
      assert ListedSum(false, fs, text);
      hide ListedSum;
      SignedListed(false, fs, text);
    } else {
      UntappedText(z, y, tail);
      hide POperand, PTap, OperandField, ListedDa;
      AddListed(false, fs, ss, 5, y, x);
    }
  }

  lemma MacListed(i: Insn)
    requires i.Mac? && Encodable(i) && Printable(i)
    ensures Listed(MacText(i))
  {
    hide POperand, Listed, PTap, PStore, PSum, PFactor, ListedDa, ListedSum, ListedProduct, OperandField, ZKindOf;
    if i.fmt == 1 && i.mul == 6 {
      TapAddListed(i.fs, i.ss, i.z, i.y, i.x);
      AccListed(i.an, PSign(i.fs, PTap(i.z, i.y, PPlusMinus(i.ss, POperand(i.x, End)))));
    } else if i.fmt == 1 {
      AddListed(ZPrints(i.z, i.y), i.fs, i.ss, i.mul, i.y, i.x);
      StoreListed(i.z, i.y, i.an, PSign(i.fs, POperand(i.y, PFactor(i.mul, i.ss, i.x))));
    } else if i.fmt == 2 && ZPrints(i.z, i.y) {
      var product := PTap(i.z, i.y, P(Star, POperand(i.x, End)));
      TapProductSum(i.ss, i.z, i.y, i.x);
      SumListed(false, i.fs, i.ss, i.mul, product);
      AccListed(i.an, PSum(i.fs, i.ss, i.mul, product));
    } else {
      var product := POperand(i.y, P(Star, POperand(i.x, End)));
      PlainProductSum(ZPrints(i.z, i.y), i.ss, i.y, i.x);
      SumListed(ZPrints(i.z, i.y), i.fs, i.ss, i.mul, product);
      if i.fmt == 2 {
        UntappedText(i.z, i.y, P(Star, POperand(i.x, End)));
        AccListed(i.an, PSum(i.fs, i.ss, i.mul, product));
      } else {
        StoreListed(i.z, i.y, i.an, PSum(i.fs, i.ss, i.mul, product));
      }
    }
  }

  lemma UntappedText(z: Field7, y: Field7, rest: Toks)
    ensures !ZPrints(z, y) ==> PTap(z, y, rest) == POperand(y, rest)
  {
  }

  lemma SpecialListed(i: Insn)
    requires i.Special? && Printable(i)
    ensures Listed(SpecialText(i))
  {
    OperandTaken(i.y, P(Close, End));
    hide POperand, Listed, PStore, OperandField, ZKindOf, TakeOperand;
    StoreListed(i.z, i.y, i.an, Cons(TG(i.g), P(Open, POperand(i.y, P(Close, End)))));
  }

  // ---------------------------------------------------------------------
  // The theorem

  /** The grammar of listings is exactly what the disassembler prints (but for
      "rB+0x0"). */
  lemma ListedIsPrinted(ts: Toks, addr: word)
    ensures Listed(ts) <==> Printed(ts, addr)
  {
    hide ListedClass, Printed, DisInsn, Printable, Encodable;
    if Listed(ts) {
      match ListedClass(ts).value
      case CA => CaListedPrinted(ts, addr);
      case DA => DaListedPrinted(ts, addr);
    }
    if Printed(ts, addr) {
      var j := PrintedWitness(ts, addr);
      if j.Mac? {
        MacTextIs(j, addr);
        MacListed(j);
      } else if j.Special? {
        MacTextIs(j, addr);
        SpecialListed(j);
      } else {
        CaPrintedListed(j, addr);
      }
    }
  }

  lemma PrintedWitness(ts: Toks, addr: word) returns (j: Insn)
    requires Printed(ts, addr)
    ensures Prints(j, ts, addr)
  {
    hide Prints;
    j :| Prints(j, ts, addr);
  }

  lemma MacTextIs(j: Insn, addr: word)
    requires j.Mac? || j.Special?
    ensures DisInsn(j, addr).text == if j.Mac? then MacText(j) else SpecialText(j)
  {
    hide MacText, SpecialText;
  }
}
