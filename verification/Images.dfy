/** Disassembling a whole image and assembling the listing: the same listing
    again, and the canonical image. */
module Images {
  import opened Words
  import opened Insn
  import opened Syntax
  import opened Dis
  import opened DisClean
  import opened Asm
  import opened AsmSound
  import opened Canonical
  import opened RoundTrip
  import opened Fixpoint
  import opened Passes

  // ---------------------------------------------------------------------
  // One word

  predicate CleanWord(w: word) {
    Printable(Decode(w))
  }

  lemma DecodedEncodable(w: word)
    ensures Decode(w).Illegal? || Decode(w).MoveReserved? || Encodable(Decode(w))
  {
    hide Low, GroupA, GroupB;
    var op6 := Op6(w);
    if !IllegalOpcode(op6) && 8 <= op6 < 32 {
      assert op6 / 8 == 1 || op6 / 8 == 2 || op6 / 8 == 3;
    }
  }

  lemma CleanEncodable(w: word)
    requires CleanWord(w)
    ensures Encodable(Decode(w))
  {
    DecodedEncodable(w);
  }

  function DataStmt(w: word): Stmt {
    assert AllLexical(Hex(w, End));
    Cons(TSym(".word"), Hex(w, End))
  }

  /** A source line for a word: its disassembly, or `.word` if that is not clean. */
  function ListingLine(w: word, addr: word): Stmt {
    CleanIsPrintable(Decode(w), addr);
    if CleanWord(w) then Disassemble(w, addr).text else DataStmt(w)
  }

  /** The word assembled from a word's line. */
  function CanonWord(w: word): word {
    if CleanWord(w) then
      CleanEncodable(w);
      CanonFormed(Decode(w));
      Encode(Canon(Decode(w)))
    else w
  }

  /** 8a with M = 0 and a register: the word whose line changes. */
  predicate LineChanges(w: word) {
    CleanWord(w) && ZeroDisplacement(Decode(w))
  }

  lemma DecodeCanon(w: word)
    requires CleanWord(w)
    ensures Decode(CanonWord(w)) == Canon(Decode(w)) && CleanWord(CanonWord(w))
  {
    CleanEncodable(w);
    CanonFormed(Decode(w));
    DecodeEncode(Canon(Decode(w)));
    hide Decode, Encode, Canon, Encodable, Printable;
  }

  /** Canonical words are fixed points. */
  lemma CanonWordIdempotent(w: word)
    ensures CanonWord(CanonWord(w)) == CanonWord(w)
  {
    if CleanWord(w) {
      DecodeCanon(w);
      CleanEncodable(w);
      CanonIdempotent(Decode(w));
      hide Decode, Encode, Canon, Encodable, Printable;
    }
  }

  /** The line survives; with it class, branch marks and target. */
  lemma LineSurvives(w: word, addr: word)
    ensures CleanWord(w) ==> (Disassemble(CanonWord(w), addr) == Disassemble(w, addr) <==> !LineChanges(w))
    ensures !LineChanges(w) ==> ListingLine(CanonWord(w), addr) == ListingLine(w, addr)
  {
    if CleanWord(w) {
      DecodeCanon(w);
      CleanEncodable(w);
      DisOfCanon(Decode(w), addr);
      hide Decode, Encode, Canon, Encodable, Printable, DisInsn, CanonWord, ZeroDisplacement;
    }
  }

  /** Assembling a clean word's line gives its canonical word. */
  lemma AssembleDisassemble(env: Env, w: word, addr: word)
    requires CleanWord(w)
    ensures AssembleWord(env, addr, ListingLine(w, addr)) == Some(CanonWord(w))
  {
    CleanEncodable(w);
    AsmOfDis(env, addr, Decode(w));
    hide AsmInsn, Decode, Encode, Canon, Encodable, Printable, DisInsn;
  }

  // ---------------------------------------------------------------------
  // An accepted statement is neither a label nor a directive

  lemma ColonEnds(env: Env, addr: word, ts: Toks)
    requires AtP(ts, Colon)
    ensures TryReg(ts).None? && OperandOf(env, ts).None? && Expr(env, false, ts).None? && DestOf(env, addr, ts).None?
  {
  }

  lemma LabelNotInstruction(env: Env, addr: word, ts: Toks)
    requires AtLabel(ts)
    ensures AsmInsn(env, addr, ts).None?
  {
    ColonEnds(env, addr, ts.rest);
    if ts.t.TKw? {
      hide DestOf, Expr, TryReg, OperandOf;
      match ts.t.kw
      case KwGoto => assert EncGotoStmt(env, addr, 1, ts.rest).None?;
      case KwCall => assert EncCallStmt(env, addr, ts.rest).None?;
      case KwDo => assert EncDo(env, false, false, ts.rest).None?;
      case KwDolock => assert EncDo(env, true, false, ts.rest).None?;
      case KwDoblock => assert EncDo(env, false, true, ts.rest).None?;
      case KwIf => assert EncIf(env, addr, ts.rest).None?;
      case _ =>
    } else if ts.t.TReg? || ts.t.TSp? {
      assert EncRegStmt(env, 1, ts).None? by { RegLabel(env, ts); }
      hide EncRegStmt;
    } else if ts.t.TAcc? || ts.t.TIor? {
      hide EncRegStmt, EncDa, EncStore;
    } else {
      NameStatement(env, addr, ts);
    }
  }

  lemma RegLabel(env: Env, ts: Toks)
    requires AtLabel(ts) && (ts.t.TReg? || ts.t.TSp?)
    ensures EncRegStmt(env, 1, ts).None?
  {
    assert TrySize(ts) == (NoKw, ts);
    assert OperandOf(env, ts).Some? && OperandOf(env, ts).value.1 == ts.rest;
    hide OperandOf, TrySize, EncRegRhs;
  }

  lemma NameStatement(env: Env, addr: word, ts: Toks)
    requires ts.Cons? && (ts.t.TSym? || ts.t.TN? || ts.t.TCond? || ts.t.TSize? || ts.t.TG?)
    ensures AsmInsn(env, addr, ts).None?
  {
    assert TrySize(ts) == (NoKw, ts);
    assert OperandOf(env, ts).Some? ==> OperandOf(env, ts).value.0.OImm?;
    hide OperandOf, TrySize, EncRegRhs, EncTest;
    assert EncRegStmt(env, 1, ts).None?;
    hide EncRegStmt;
  }

  /** A clean word's line is an instruction to both passes. */
  lemma CleanLine(cfg: Config, s: St, w: word, addr: word)
    requires CleanWord(w)
    ensures ProcessLine(cfg, s, ListingLine(w, addr)) == Instruction(cfg, s, ListingLine(w, addr))
  {
    var ts := ListingLine(w, addr);
    AssembleDisassemble(map[], w, addr);
    assert AsmInsn(map[], addr, ts).Some?;
    if AtLabel(ts) { LabelNotInstruction(map[], addr, ts); }
    if ts.Cons? && ts.t.TSym? { NameStatement(map[], addr, ts); }
    hide AsmInsn, ListingLine, Instruction;
    assert Labels(s, ts) == Some((s, ts));
    assert !ts.End? by { EmptyStatement(map[], addr); }
  }

  lemma EmptyStatement(env: Env, addr: word)
    ensures AsmInsn(env, addr, End).None?
  {
  }

  lemma DataLine(cfg: Config, s: St, w: word)
    ensures ProcessLine(cfg, s, DataStmt(w)) == Emit32(cfg, s, w)
  {
    hide Emit32;
    var ts := Hex(w, End);
    var v: int := w;
    assert Expr(s.syms, !s.second, ts) == Some((v, End));
    assert WordList(cfg, s, ts) == Emit32(cfg, s, w);
    hide WordList, Expr;
    assert !AtLabel(Cons(TSym(".word"), ts));
    assert IsDotted(TSym(".word"));
  }

  // ---------------------------------------------------------------------
  // Whole images

  function Listing(words: seq<word>, addr: nat): (lines: seq<Stmt>)
    requires addr + 4 * |words| <= 0xFFFF_FFFF
    ensures |lines| == |words|
    decreases |words|
  {
    if words == [] then [] else [ListingLine(words[0], addr)] + Listing(words[1..], addr + 4)
  }

  function CanonImage(words: seq<word>): (r: seq<word>)
    ensures |r| == |words|
  {
    seq(|words|, k requires 0 <= k < |words| => CanonWord(words[k]))
  }

  /** Byte j of a big-endian word. */
  function WordByte(w: word, j: nat): byte
    requires j < 4
  {
    if j == 0 then w / 0x100_0000
    else if j == 1 then w / 0x1_0000 % 0x100
    else if j == 2 then w / 0x100 % 0x100
    else w % 0x100
  }

  predicate Room(cfg: Config, s: St, words: seq<word>) {
    && s.loc % 4 == 0 && s.org <= s.loc <= s.hi
    && s.loc + 4 * |words| <= 0xFFFF_FFFF && s.loc - s.org + 4 * |words| <= cfg.cap
  }

  /** No byte wraps or falls outside the buffer. */
  predicate Fits(cfg: Config, s: St, n: nat) {
    s.org <= s.loc <= s.hi && s.loc + n <= 0xFFFF_FFFF && (s.second ==> s.loc - s.org + n <= cfg.cap)
  }

  function AfterByte(s: St, b: byte): St
    requires s.org <= s.loc <= s.hi && s.loc < 0xFFFF_FFFF
  {
    s.(image := if s.second then s.image[s.loc - s.org := b] else s.image, loc := s.loc + 1,
       hi := Max(s.hi, s.loc + 1))
  }

  lemma PutByteFits(cfg: Config, s: St, b: byte)
    requires Fits(cfg, s, 1)
    ensures PutByte(cfg, s, b) == Some(AfterByte(s, b))
  {
  }

  /** A word adds four bytes and touches nothing else. */
  lemma Emit32Result(cfg: Config, s: St, w: word)
    requires Fits(cfg, s, 4)
    ensures var o := s.loc - s.org;
            Emit32(cfg, s, w)
            == Some(s.(loc := s.loc + 4, hi := Max(s.hi, s.loc + 4),
                       image := if s.second then s.image[o := WordByte(w, 0)][o + 1 := WordByte(w, 1)]
                                                        [o + 2 := WordByte(w, 2)][o + 3 := WordByte(w, 3)]
                                else s.image))
  {
    hide PutByte;
    PutByteFits(cfg, s, WordByte(w, 0));
    var s1 := AfterByte(s, WordByte(w, 0));
    PutByteFits(cfg, s1, WordByte(w, 1));
    var s2 := AfterByte(s1, WordByte(w, 1));
    PutByteFits(cfg, s2, WordByte(w, 2));
    var s3 := AfterByte(s2, WordByte(w, 2));
    PutByteFits(cfg, s3, WordByte(w, 3));
  }

  lemma FirstPassLine(cfg: Config, s: St, w: word)
    requires !s.second && s.loc % 4 == 0 && Fits(cfg, s, 4)
    ensures ProcessLine(cfg, s, ListingLine(w, s.loc)) == Some(s.(loc := s.loc + 4, hi := Max(s.hi, s.loc + 4)))
  {
    hide ProcessLine, Emit32, Instruction, CleanWord;
    if CleanWord(w) {
      CleanLine(cfg, s, w, s.loc);
      hide ListingLine;
      CountedInstruction(cfg, s, ListingLine(w, s.loc));
    } else {
      DataLine(cfg, s, w);
      Emit32Result(cfg, s, w);
    }
  }

  lemma CountedInstruction(cfg: Config, s: St, ts: Stmt)
    requires !s.second && s.loc % 4 == 0 && Fits(cfg, s, 4)
    ensures Instruction(cfg, s, ts) == Some(s.(loc := s.loc + 4, hi := Max(s.hi, s.loc + 4)))
  {
    hide AllLexical;
  }

  lemma SecondPassLine(cfg: Config, s: St, w: word)
    requires s.second && s.loc % 4 == 0
    ensures ProcessLine(cfg, s, ListingLine(w, s.loc)) == Emit32(cfg, s, CanonWord(w))
  {
    if CleanWord(w) {
      CleanLine(cfg, s, w, s.loc);
      AssembleDisassemble(s.syms, w, s.loc);
      hide ProcessLine, ListingLine, AssembleWord, CanonWord, Emit32;
    } else {
      DataLine(cfg, s, w);
      hide ProcessLine, Emit32;
    }
  }

  lemma {:induction false} FirstPass(cfg: Config, s: St, words: seq<word>)
    requires !s.second && Room(cfg, s, words)
    ensures Pass(cfg, s, Listing(words, s.loc))
            == Some(s.(loc := s.loc + 4 * |words|, hi := Max(s.hi, s.loc + 4 * |words|)))
    decreases |words|
  {
    hide ProcessLine, ListingLine;
    if words != [] {
      var lines := Listing(words, s.loc);
      FirstPassLine(cfg, s, words[0]);
      var s1 := s.(loc := s.loc + 4, hi := Max(s.hi, s.loc + 4));
      assert lines[0] == ListingLine(words[0], s.loc) && lines[1..] == Listing(words[1..], s1.loc);
      FirstPass(cfg, s1, words[1..]);
    }
  }

  predicate HoldsByte(image: map<int, byte>, o: int, b: byte) {
    o in image && image[o] == b
  }

  /** The image holds words, big end first, from offset o on. */
  ghost predicate HoldsWords(image: map<int, byte>, o: int, words: seq<word>) {
    forall k, j: nat :: 0 <= k < |words| && j < 4 ==> HoldsByte(image, o + 4 * k + j, WordByte(words[k], j))
  }

  /** Where a pass over a listing leaves the second pass. */
  ghost predicate Written(s: St, u: St, words: seq<word>)
    requires s.org <= s.loc
  {
    && u.loc == s.loc + 4 * |words| && u.hi == Max(s.hi, u.loc)
    && HoldsWords(u.image, s.loc - s.org, words)
    && (forall o :: o in s.image && o < s.loc - s.org ==> HoldsByte(u.image, o, s.image[o]))
  }

  lemma {:induction false} SecondPass(cfg: Config, s: St, words: seq<word>)
    requires s.second && Room(cfg, s, words)
    ensures var r := Pass(cfg, s, Listing(words, s.loc)); r.Some? && Written(s, r.value, CanonImage(words))
    decreases |words|
  {
    hide ProcessLine, ListingLine, CanonWord, WordByte;
    if words != [] {
      var lines := Listing(words, s.loc);
      SecondPassLine(cfg, s, words[0]);
      Emit32Result(cfg, s, CanonWord(words[0]));
      var s1 := Emit32(cfg, s, CanonWord(words[0])).value;
      hide Emit32;
      assert lines[0] == ListingLine(words[0], s.loc) && lines[1..] == Listing(words[1..], s1.loc);
      SecondPass(cfg, s1, words[1..]);
      WrittenStep(s, s1, Pass(cfg, s, lines).value, words);
    }
  }

  lemma WrittenStep(s: St, s1: St, u: St, words: seq<word>)
    requires words != [] && s.org <= s.loc && s1.org == s.org && s1.loc == s.loc + 4 && s1.hi == Max(s.hi, s1.loc)
    requires var o, w := s.loc - s.org, CanonWord(words[0]);
             s1.image == s.image[o := WordByte(w, 0)][o + 1 := WordByte(w, 1)]
                                [o + 2 := WordByte(w, 2)][o + 3 := WordByte(w, 3)]
    requires Written(s1, u, CanonImage(words[1..]))
    ensures Written(s, u, CanonImage(words))
  {
    hide CanonWord, WordByte;
    var canon, tail := CanonImage(words), CanonImage(words[1..]);
    forall k, j: nat | 0 <= k < |canon| && j < 4
      ensures HoldsByte(u.image, s.loc - s.org + 4 * k + j, WordByte(canon[k], j))
    {
      var o := s.loc - s.org + 4 * k + j;
      if k > 0 {
        assert canon[k] == tail[k - 1];
        assert HoldsByte(u.image, s1.loc - s1.org + 4 * (k - 1) + j, WordByte(tail[k - 1], j));
      } else {
        assert canon[0] == CanonWord(words[0]);
        assert j == 0 || j == 1 || j == 2 || j == 3;
        assert HoldsByte(s1.image, o, WordByte(canon[0], j));
        assert HoldsByte(u.image, o, s1.image[o]);
      }
    }
    forall o | o in s.image && o < s.loc - s.org
      ensures HoldsByte(u.image, o, s.image[o])
    {
      assert o in s1.image && HoldsByte(u.image, o, s1.image[o]);
    }
  }

  /** The round trip of a whole image of any length: its listing assembles, to
      the canonical words byte for byte; listed again it reads the same, except
      where 8a had no displacement; and those words assemble to themselves. */
  lemma ImageRoundTrip(cfg: Config, org: word, words: seq<word>)
    requires org % 4 == 0 && org + 4 * |words| <= 0xFFFF_FFFF && 4 * |words| <= cfg.cap
    ensures var r := Assembled(cfg, org, Listing(words, org));
            r.Some? && r.value.hi - org == 4 * |words| && HoldsWords(r.value.image, 0, CanonImage(words))
    ensures (forall k :: 0 <= k < |words| ==> !LineChanges(words[k])) ==>
              Listing(CanonImage(words), org) == Listing(words, org)
    ensures CanonImage(CanonImage(words)) == CanonImage(words)
  {
    hide Listing, LineChanges, CanonWord, WordByte, Assembled;
    ImageAssembles(cfg, org, words);
    if forall k :: 0 <= k < |words| ==> !LineChanges(words[k]) { ListingSurvives(words, org); }
    forall k | 0 <= k < |words| ensures CanonWord(CanonWord(words[k])) == CanonWord(words[k]) {
      CanonWordIdempotent(words[k]);
    }
  }

  lemma ImageAssembles(cfg: Config, org: word, words: seq<word>)
    requires org % 4 == 0 && org + 4 * |words| <= 0xFFFF_FFFF && 4 * |words| <= cfg.cap
    ensures var r := Assembled(cfg, org, Listing(words, org));
            r.Some? && r.value.hi - org == 4 * |words| && HoldsWords(r.value.image, 0, CanonImage(words))
  {
    hide Pass, Listing, CanonWord, WordByte;
    FirstPass(cfg, Start(false, org, map[]), words);
    var t := Start(true, org, map[]);
    SecondPass(cfg, t, words);
  }

  lemma {:induction false} ListingSurvives(words: seq<word>, addr: nat)
    requires addr + 4 * |words| <= 0xFFFF_FFFF
    requires forall k :: 0 <= k < |words| ==> !LineChanges(words[k])
    ensures Listing(CanonImage(words), addr) == Listing(words, addr)
    decreases |words|
  {
    hide ListingLine, LineChanges, CanonWord;
    if words != [] {
      LineSurvives(words[0], addr);
      ListingSurvives(words[1..], addr + 4);
      assert CanonImage(words)[1..] == CanonImage(words[1..]);
    }
  }
}
