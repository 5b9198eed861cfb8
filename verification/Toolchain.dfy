/** The three tools together, word by word: what the assembler emits, what its
    disassembly assembles to, and what both execute. */
module Toolchain {
  import opened Words
  import opened Insn
  import S = Syntax
  import D = Dis
  import DisClean
  import A = Asm
  import AsmSound
  import Canonical
  import R = RoundTrip
  import F = Fixpoint
  import I = Images
  import L = Listing
  import LF = ListingFacts
  import LD = ListingDa
  import M = Machine
  import CM = CanonMeaning

  /** Re-assembling the disassembly of an emitted word gives that word back
      exactly when its encoding is canonical. */
  lemma EmittedFixedIff(env: A.Env, addr: word, ts: S.Toks)
    requires S.AllLexical(ts) && AsmSound.AssembleWord(env, addr, ts).Some?
    ensures var w := AsmSound.AssembleWord(env, addr, ts).value;
            && I.CleanWord(w)
            && (I.CanonWord(w) == w <==> F.IsCanonical(Decode(w)))
  {
    var i := A.AsmInsn(env, addr, ts).value;
    var w := AsmSound.AssembleWord(env, addr, ts).value;
    AsmSound.Accepted(env, addr, ts);
    DisClean.CleanIsPrintable(i, addr);
    assert w == Encode(i);
    DecodeEncode(i);
    I.DecodeCanon(w);
    F.FixedPointIff(i);
    hide A.AsmInsn, AsmSound.AssembleWord, Decode, Canonical.Canon, D.Printable, F.IsCanonical;
    if Canonical.Canon(i) == i { assert I.CanonWord(w) == w; }
  }

  /** Executing the word assembled from a clean word's disassembly has the
      effect of executing the word, in every machine state and for any label
      table; the carry is complemented where a subtraction became an addition. */
  lemma ReassembledMeaning(env: A.Env, addr: word, s: M.State, w: word)
    requires I.CleanWord(w)
    requires !CM.BecomesIreturn(Decode(w)) && CM.PointerKept(s.c, Decode(w))
    ensures AsmSound.AssembleWord(env, addr, I.ListingLine(w, addr)) == S.Some(I.CanonWord(w))
    ensures M.Exec(s, Decode(I.CanonWord(w))) == CM.ExpectedExec(s, Decode(w))
  {
    I.AssembleDisassemble(env, w, addr);
    I.DecodeCanon(w);
    I.CleanEncodable(w);
    assert D.Printable(Decode(w));
    hide *;
    CM.CanonPreservesMeaning(s, Decode(w));
  }

  /** An accepted statement comes back from the disassembler as it was written
      exactly when the grammar of listings has it, a matter of its tokens alone. */
  lemma TextSurvivesIff(env: A.Env, addr: word, ts: S.Toks)
    requires S.AllLexical(ts) && A.AsmInsn(env, addr, ts).Some?
    ensures D.DisInsn(A.AsmInsn(env, addr, ts).value, addr).text == ts <==> L.Listed(ts)
  {
    var i := A.AsmInsn(env, addr, ts).value;
    AsmSound.Accepted(env, addr, ts);
    DisClean.CleanIsPrintable(i, addr);
    LD.ListedIsPrinted(ts, addr);
    hide A.AsmInsn, D.DisInsn, Encodable, D.Printable, L.Listed, LF.Printed;
    if L.Listed(ts) {
      var j := LD.PrintedWitness(ts, addr);
      R.AsmOfDis(env, addr, j);
      F.DisOfCanon(j, addr);
    } else if D.DisInsn(i, addr).text == ts {
      SurvivorPrinted(i, ts, env, addr);
    }
  }

  /** What comes back as it was written is printed, and not as "rB+0x0", which
      the assembler never emits. */
  lemma SurvivorPrinted(i: Insn, ts: S.Toks, env: A.Env, addr: word)
    requires A.AsmInsn(env, addr, ts) == S.Some(i) && Encodable(i) && D.Printable(i) && D.DisInsn(i, addr).text == ts
    ensures LF.Printed(ts, addr)
  {
    hide A.AsmInsn, D.DisInsn, Encodable, D.Printable;
    R.AsmOfDis(env, addr, i);
    F.DisOfCanon(i, addr);
    assert Canonical.Canon(i) == i;
    LF.PrintedBy(i, ts, addr);
  }
}
