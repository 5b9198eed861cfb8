/** What expressions and the layout directives come to. */
module Layout {
  import opened Words
  import opened Insn
  import opened Syntax
  import opened Asm
  import opened Passes
  import Images
  import EndToEnd

  // ---------------------------------------------------------------------
  // Expressions

  /** A signed term: a number, or a name of the table. */
  datatype Term = Number(minus: bool, v: int, bare: bool) | Name(minus: bool, name: string)

  function TermToks(ts: seq<Term>, rest: Toks): Toks {
    if ts == [] then rest
    else
      Cons(TP(if ts[0].minus then MinusSign else PlusSign),
           Cons(if ts[0].Number? then TNum(ts[0].v, ts[0].bare) else TSym(ts[0].name), TermToks(ts[1..], rest)))
  }

  function ValueOf(env: Env, t: Term): int {
    var v := if t.Number? then t.v else if t.name in env then env[t.name] else 0;
    if t.minus then -v else v
  }

  function Sum(env: Env, ts: seq<Term>): int {
    if ts == [] then 0 else ValueOf(env, ts[0]) + Sum(env, ts[1..])
  }

  /** Every name is defined. */
  predicate Defined(env: Env, ts: seq<Term>) {
    forall k :: 0 <= k < |ts| && ts[k].Name? ==> ts[k].name in env
  }

  predicate NoTerm(rest: Toks) {
    !AtP(rest, PlusSign) && !AtP(rest, MinusSign)
  }

  lemma {:induction false} ChainSums(env: Env, lenient: bool, v: int, ts: seq<Term>, rest: Toks)
    requires (lenient || Defined(env, ts)) && NoTerm(rest)
    ensures Chain(env, lenient, v, TermToks(ts, rest)) == Some((v + Sum(env, ts), rest))
    decreases |ts|
  {
    if ts != [] {
      ChainSums(env, lenient, v + ValueOf(env, ts[0]), ts[1..], rest);
    }
  }

  /** A chain of signed terms has their sum; in the sizing pass names not yet defined
      count 0. */
  lemma ExpressionSums(env: Env, lenient: bool, ts: seq<Term>, rest: Toks)
    requires ts != [] && (lenient || Defined(env, ts)) && NoTerm(rest)
    ensures Expr(env, lenient, TermToks(ts, rest)) == Some((Sum(env, ts), rest))
  {
    ChainSums(env, lenient, ValueOf(env, ts[0]), ts[1..], rest);
    FirstTerm(env, lenient, ts[0], TermToks(ts[1..], rest));
    hide Chain, Expr, ValueOf;
  }

  lemma FirstTerm(env: Env, lenient: bool, t: Term, rest: Toks)
    requires lenient || Defined(env, [t])
    ensures Expr(env, lenient, Cons(TP(if t.minus then MinusSign else PlusSign),
                                    Cons(if t.Number? then TNum(t.v, t.bare) else TSym(t.name), rest)))
            == Chain(env, lenient, ValueOf(env, t), rest)
  {
    hide Chain;
    assert [t][0] == t;
  }

  // ---------------------------------------------------------------------
  // Directives

  predicate Multiple(x: int, v: int)
    requires v >= 1
  {
    x % v == 0
  }

  /** `.align v` goes to the next multiple of v and no further. */
  lemma AlignReaches(loc: word, v: int)
    requires IsPow2(v) && v <= 0x1_0000_0000
    ensures var g := AlignGap(loc, v);
            Multiple(loc + g, v) && forall x: int :: loc <= x < loc + g ==> !Multiple(x, v)
  {
    var q, r := loc / v, loc % v;
    assert loc == v * q + r;
    GapIs(loc, v);
    hide AlignGap, IsPow2, Multiple;
    NextMultiple(v, q, r);
  }

  lemma GapIs(loc: word, v: int)
    requires 1 <= v <= 0x1_0000_0000
    ensures AlignGap(loc, v) == if loc % v == 0 then 0 else v - loc % v
  {
    var r := loc % v;
    if r == 0 { DivUnique(v, v, 1, 0); } else { DivUnique(v - r, v, 0, v - r); }
  }

  lemma NextMultiple(v: int, q: int, r: int)
    requires 0 <= r < v
    ensures var x, g := v * q + r, if r == 0 then 0 else v - r;
            Multiple(x + g, v) && forall y: int :: x <= y < x + g ==> !Multiple(y, v)
  {
    var x := v * q + r;
    if r == 0 {
      DivUnique(x, v, q, 0);
    } else {
      MulDistribute(v, q, 1);
      DivUnique(x + (v - r), v, q + 1, 0);
      forall y: int | x <= y < x + (v - r) ensures !Multiple(y, v) {
        DivUnique(y, v, q, r + (y - x));
      }
    }
  }

  /** n bytes from offset o on are 0. */
  predicate Zeros(image: map<int, byte>, o: int, n: nat) {
    forall k: int :: o <= k < o + n ==> Images.HoldsByte(image, k, 0)
  }

  /** A fill writes zeros from the location up and leaves the rest. */
  lemma {:induction false} FillZeros(cfg: Config, t: St, n: nat)
    requires Packed(cfg, t) && Fill(cfg, t, n).Some?
    ensures var u := Fill(cfg, t, n).value;
            && u.loc == t.loc + n && Zeros(u.image, t.loc - t.org, n)
            && EndToEnd.KeptBelow(t, u, t.loc - t.org)
    decreases n
  {
    if n > 0 {
      var t1 := PutByte(cfg, t, 0).value;
      PutByteLands(cfg, t, 0);
      PutByteGrown(cfg, t, 0);
      FillZeros(cfg, t1, n - 1);
      EndToEnd.PutByteKeeps(cfg, t, 0, t.loc - t.org);
      EndToEnd.FillKeeps(cfg, t, n, t.loc - t.org);
      var u := Fill(cfg, t, n).value;
      hide PutByte, Packed, Fill;
      assert Images.HoldsByte(t1.image, t.loc - t.org, 0);
      FirstZero(t1, u, t.loc - t.org, n);
    }
  }

  lemma FirstZero(t: St, u: St, o: int, n: nat)
    requires n > 0 && t.loc - t.org == o + 1 && Images.HoldsByte(t.image, o, 0)
    requires EndToEnd.KeptBelow(t, u, o + 1) && Zeros(u.image, o + 1, n - 1)
    ensures Zeros(u.image, o, n)
  {
    assert Images.HoldsByte(u.image, o, t.image[o]);
  }

  /** `.org v`: forward with zeros, backward without a byte, never before the origin. */
  lemma OrgMeans(cfg: Config, t: St, v: int)
    requires Packed(cfg, t)
    ensures var r := Org(cfg, t, v);
            && (r.Some? ==> t.org <= v && r.value.loc == v && (v <= t.loc ==> r.value == t.(loc := v))
                            && (v > t.loc ==> Zeros(r.value.image, t.loc - t.org, v - t.loc)))
            && (v < t.org ==> r.None?)
  {
    if t.loc < v <= 0xFFFF_FFFF && t.org <= v && Fill(cfg, t, v - t.loc).Some? { FillZeros(cfg, t, v - t.loc); }
    hide Fill, Packed;
  }

  /** `.space v`: v zeros, at most 16 MB. */
  lemma SpaceMeans(cfg: Config, t: St, v: int)
    requires Packed(cfg, t) && Space(cfg, t, v).Some?
    ensures 0 <= v <= 0x100_0000 && Space(cfg, t, v).value.loc == t.loc + v
    ensures Zeros(Space(cfg, t, v).value.image, t.loc - t.org, v)
  {
    FillZeros(cfg, t, v);
    hide Fill, Packed;
  }
}
