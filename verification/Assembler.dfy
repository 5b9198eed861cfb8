/** The assembler with its state updated in place: location counter, symbol
    table and the caller's output buffer. */
module Assembler {
  import opened Words
  import opened Insn
  import opened Syntax
  import opened Asm
  import opened AsmSound
  import P = Passes

  // ---------------------------------------------------------------------
  // Facts for the filling loops

  lemma {:induction false} FillSplit(cfg: P.Config, s: P.St, a: nat, b: nat)
    ensures P.Fill(cfg, s, a + b)
            == (if P.Fill(cfg, s, a).Some? then P.Fill(cfg, P.Fill(cfg, s, a).value, b) else None)
    decreases a
  {
    hide P.PutByte;
    if a > 0 {
      var r := P.PutByte(cfg, s, 0);
      if r.Some? {
        FillSplit(cfg, r.value, a - 1, b);
        assert a - 1 + b == a + b - 1;
      }
    } else {
      assert a + b == b;
    }
  }

  /** One more byte of a fill. */
  lemma FillStep(cfg: P.Config, s: P.St, k: nat, n: nat, t: P.St)
    requires k < n && P.Fill(cfg, s, k) == Some(t)
    ensures P.Fill(cfg, s, k + 1) == P.PutByte(cfg, t, 0)
    ensures P.PutByte(cfg, t, 0).None? ==> P.Fill(cfg, s, n).None?
  {
    FillSplit(cfg, s, k, 1);
    FillSplit(cfg, s, k, n - k);
    assert P.Fill(cfg, t, 1) == P.PutByte(cfg, t, 0) by {
      hide P.PutByte;
      var r := P.PutByte(cfg, t, 0);
      if r.Some? { assert P.Fill(cfg, r.value, 0) == r; }
    }
    hide P.PutByte;
  }

  function Modulus(v: nat): nat
    requires v >= 1
  {
    if v <= 0x1_0000_0000 then v else 0x1_0000_0000
  }

  lemma {:induction false} Pow2Divides(v: nat)
    requires P.IsPow2(v) && v <= 0x1_0000_0000
    ensures 0x1_0000_0000 % v == 0
  {
    var k := LogOf(v);
    Pow2Constants();
    if k > 32 { Pow2Monotonic(33, k); }
    assert k <= 32;
    Pow2Add(k, 32 - k);
    MulMod(Pow2(32 - k), v);
  }

  lemma MulMod(a: nat, b: nat)
    requires b >= 1
    ensures b * a % b == 0
  {
    DivUnique(b * a, b, a, 0);
  }

  lemma {:induction false} LogOf(v: nat) returns (k: nat)
    requires P.IsPow2(v)
    ensures v == Pow2(k)
    decreases v
  {
    if v == 1 {
      k := 0;
    } else {
      k := LogOf(v / 2);
      k := k + 1;
    }
  }

  /** The alignment gap shrinks by one a byte. */
  lemma GapStep(loc: word, v: nat)
    requires P.IsPow2(v) && loc % Modulus(v) != 0
    ensures P.AlignGap(Wrap(loc + 1), v) == P.AlignGap(loc, v) - 1
  {
    var m := Modulus(v);
    if v <= 0x1_0000_0000 { Pow2Divides(v); }
    hide P.IsPow2;
    GapOf(loc, m);
    SumMod(loc, m);
    WrapMod(loc, m);
  }

  lemma GapZero(loc: word, v: nat)
    requires v >= 1 && loc % Modulus(v) == 0
    ensures P.AlignGap(loc, v) == 0
  {
  }

  lemma FillNone(cfg: P.Config, s: P.St)
    ensures P.Fill(cfg, s, 0) == Some(s)
  {
  }

  /** Wrapping keeps a residue whose modulus divides 2^32. */
  lemma WrapMod(loc: word, m: nat)
    requires m >= 1 && 0x1_0000_0000 % m == 0
    ensures Wrap(loc + 1) % m == (loc + 1) % m
  {
    if loc == 0xFFFF_FFFF {
      DivUnique(0, m, 0, 0);
    }
  }

  lemma GapOf(x: nat, m: nat)
    requires m >= 1 && x % m != 0
    ensures (m - x % m) % m == m - x % m
  {
  }

  lemma SumMod(x: nat, m: nat)
    requires m >= 1 && x % m != 0
    ensures (m - (x + 1) % m) % m == m - x % m - 1
  {
    var q, r := x / m, x % m;
    assert x == m * q + r;
    if r + 1 < m {
      DivUnique(x + 1, m, q, r + 1);
    } else {
      assert x + 1 == m * (q + 1);
      DivUnique(x + 1, m, q + 1, 0);
    }
  }

  // ---------------------------------------------------------------------
  // The assembler

  class Assembler {
    const org: word
    const dsp32: real -> word
    const out: array<byte>
    var second: bool
    var loc: word
    var hi: word
    var syms: Env
    ghost var image: map<int, byte>   // what this run has written to `out`

    constructor (org: word, dsp32: real -> word, out: array<byte>)
      ensures Valid() && this.org == org && this.dsp32 == dsp32 && this.out == out
    {
      this.org, this.dsp32, this.out := org, dsp32, out;
      second, loc, hi, syms, image := false, org, org, map[], map[];
    }

    ghost predicate Valid()
      reads this, out
    {
      forall k :: k in image ==> 0 <= k < out.Length && out[k] == image[k]
    }

    ghost function Snap(): P.St
      reads this
    {
      P.St(second, org, loc, hi, syms, image)
    }

    ghost function Cfg(): P.Config {
      P.Config(out.Length, dsp32)
    }

    method PutByte(b: byte) returns (ok: bool)
      requires Valid()
      modifies `loc, `hi, `image, out
      ensures Valid()
      ensures var r := P.PutByte(Cfg(), old(Snap()), b); ok == r.Some? && (ok ==> Snap() == r.value)
    {
      if second {
        if !(org <= loc && loc - org < out.Length) {
          return false;
        }
        out[loc - org] := b;
        image := image[loc - org := b];
      }
      loc := Wrap(loc + 1);
      if loc > hi {
        hi := loc;
      }
      return true;
    }

    method Emit32(w: word) returns (ok: bool)
      requires Valid()
      modifies `loc, `hi, `image, out
      ensures Valid()
      ensures var r := P.Emit32(Cfg(), old(Snap()), w); ok == r.Some? && (ok ==> Snap() == r.value)
    {
      ok := PutByte(w / 0x100_0000);
      if ok { ok := PutByte(w / 0x1_0000 % 0x100); }
      if ok { ok := PutByte(w / 0x100 % 0x100); }
      if ok { ok := PutByte(w % 0x100); }
    }

    // Directives that fill

    method Org(v: int) returns (ok: bool)
      requires Valid()
      modifies `loc, `hi, `image, out
      ensures Valid()
      ensures var r := P.Org(Cfg(), old(Snap()), v); ok == r.Some? && (ok ==> Snap() == r.value)
    {
      if !(org <= v <= 0xFFFF_FFFF) {
        return false;
      }
      if v <= loc {
        loc := v;
        return true;
      }
      ghost var start, from: int := Snap(), loc;
      while loc < v
        invariant Valid() && from <= loc <= v
        invariant P.Fill(Cfg(), start, loc - from) == Some(Snap())
        decreases v - loc
      {
        FillStep(Cfg(), start, loc - from, v - from, Snap());
        ok := PutByte(0);
        if !ok { return; }
      }
      return true;
    }

    method Space(v: int) returns (ok: bool)
      requires Valid()
      modifies `loc, `hi, `image, out
      ensures Valid()
      ensures var r := P.Space(Cfg(), old(Snap()), v); ok == r.Some? && (ok ==> Snap() == r.value)
    {
      if v < 0 || v > 0x100_0000 {
        return false;
      }
      var left := v;
      ghost var start := Snap();
      while left > 0
        invariant Valid() && 0 <= left <= v
        invariant P.Fill(Cfg(), start, v - left) == Some(Snap())
      {
        FillStep(Cfg(), start, v - left, v, Snap());
        ok := PutByte(0);
        if !ok { return; }
        left := left - 1;
      }
      return true;
    }

    method Align(v: int) returns (ok: bool)
      requires Valid()
      modifies `loc, `hi, `image, out
      ensures Valid()
      ensures var r := P.Align(Cfg(), old(Snap()), v); ok == r.Some? && (ok ==> Snap() == r.value)
    {
      if !P.IsPow2(v) {
        return false;
      }
      hide P.Fill, P.AlignGap, P.IsPow2, P.PutByte;
      var m := Modulus(v);
      FillNone(Cfg(), Snap());
      ghost var start, gap := Snap(), P.AlignGap(loc, v);
      ghost var k: nat := 0;
      while loc % m != 0
        invariant Valid() && k + P.AlignGap(loc, v) == gap
        invariant P.Fill(Cfg(), start, k) == Some(Snap())
        decreases P.AlignGap(loc, v)
      {
        GapStep(loc, v);
        FillStep(Cfg(), start, k, gap, Snap());
        ok := PutByte(0);
        if !ok { return; }
        k := k + 1;
      }
      GapZero(loc, v);
      return true;
    }

    // Symbols

    method Define(name: string, val: word) returns (ok: bool)
      modifies `syms
      ensures var r := P.Define(old(Snap()), name, val); ok == r.Some? && (ok ==> Snap() == r.value)
    {
      if second {
        return true;
      }
      if name in syms || |syms| >= P.MAX_SYMS {
        return false;
      }
      syms := syms[name := val];
      return true;
    }

    // Directives that emit

    method WordList(tokens: Toks) returns (ok: bool)
      requires Valid()
      modifies `loc, `hi, `image, out
      ensures Valid()
      ensures var r := P.WordList(Cfg(), old(Snap()), tokens); ok == r.Some? && (ok ==> Snap() == r.value)
    {
      var ts, more := tokens, true;
      ghost var start := Snap();
      while more
        invariant Valid() && syms == start.syms && second == start.second
        invariant P.WordList(Cfg(), start, tokens)
                  == if more then P.WordList(Cfg(), Snap(), ts) else if ts.End? then Some(Snap()) else None
        decreases more, Length(ts)
      {
        var r := Expr(syms, !second, ts);
        if r.None? || !P.Is32(r.value.0) { return false; }
        ok := Emit32(Wrap(r.value.0));
        if !ok { return; }
        ts := r.value.1;
        more := AtP(ts, Comma);
        if more { ts := ts.rest; }
      }
      return ts.End?;
    }

    method FloatList(tokens: Toks) returns (ok: bool)
      requires Valid()
      modifies `loc, `hi, `image, out
      ensures Valid()
      ensures var r := P.FloatList(Cfg(), old(Snap()), tokens); ok == r.Some? && (ok ==> Snap() == r.value)
    {
      var ts, more := tokens, true;
      ghost var start := Snap();
      while more
        invariant Valid() && syms == start.syms && second == start.second
        invariant P.FloatList(Cfg(), start, tokens)
                  == if more then P.FloatList(Cfg(), Snap(), ts) else if ts.End? then Some(Snap()) else None
        decreases more, Length(ts)
      {
        var r := P.FloatOf(ts);
        if r.None? { return false; }
        ok := Emit32(dsp32(r.value.0));
        if !ok { return; }
        ts := r.value.1;
        more := AtP(ts, Comma);
        if more { ts := ts.rest; }
      }
      return ts.End?;
    }

    method Equ(ts: Toks) returns (ok: bool)
      requires Valid()
      modifies `syms
      ensures var r := P.Equ(old(Snap()), ts); ok == r.Some? && (ok ==> Snap() == r.value)
    {
      if !(ts.Cons? && P.IsId(ts.t) && AtP(ts.rest, Comma)) {
        return false;
      }
      var r := Expr(syms, false, ts.rest.rest);
      if r.None? || !r.value.1.End? || !P.Is32(r.value.0) || !ts.t.TSym? {
        return false;
      }
      ok := Define(ts.t.name, Wrap(r.value.0));
    }

    method Directive(name: string, ts: Toks) returns (ok: bool)
      requires Valid()
      modifies `loc, `hi, `image, `syms, out
      ensures Valid()
      ensures var r := P.Directive(Cfg(), old(Snap()), name, ts); ok == r.Some? && (ok ==> Snap() == r.value)
    {
      if name == ".word" {
        ok := WordList(ts);
      } else if name == ".float" {
        ok := FloatList(ts);
      } else if name == ".equ" {
        ok := Equ(ts);
      } else if name == ".org" || name == ".space" || name == ".align" {
        var r := Expr(syms, false, ts);
        if r.None? || !r.value.1.End? {
          return false;
        }
        if name == ".org" {
          ok := Org(r.value.0);
        } else if name == ".space" {
          ok := Space(r.value.0);
        } else {
          ok := Align(r.value.0);
        }
      } else {
        ok := false;
      }
    }

    // Lines

    /** The labels a line begins with; several may share it. */
    method Labels(tokens: Toks) returns (ok: bool, ts: Toks)
      requires Valid()
      modifies `syms
      ensures var r := P.Labels(old(Snap()), tokens);
              ok == r.Some? && (ok ==> Snap() == r.value.0 && ts == r.value.1)
    {
      ts := tokens;
      ghost var start := Snap();
      while P.AtLabel(ts)
        invariant Snap() == start.(syms := syms)
        invariant P.Labels(start, tokens) == P.Labels(Snap(), ts)
        decreases Length(ts)
      {
        if !ts.t.TSym? { return false, ts; }
        ok := Define(ts.t.name, loc);
        if !ok { return; }
        assert Length(ts) == 2 + Length(ts.rest.rest) by { assert Length(ts) == 1 + Length(ts.rest); }
        ts := ts.rest.rest;
      }
      ok := true;
    }

    method ProcessLine(line: P.Stmt) returns (ok: bool)
      requires Valid()
      modifies `loc, `hi, `image, `syms, out
      ensures Valid()
      ensures var r := P.ProcessLine(Cfg(), old(Snap()), line); ok == r.Some? && (ok ==> Snap() == r.value)
    {
      hide P.Directive, P.Labels, P.Emit32, AssembleWord;
      var ts;
      ghost var start := Snap();
      ok, ts := Labels(line);
      if !ok || ts.End? {
        return;
      }
      P.LabelsLexical(start, line);
      if P.IsDotted(ts.t) {
        ok := Directive(ts.t.name, ts.rest);
      } else if loc % 4 != 0 {
        ok := false;
      } else if !second {
        loc := Wrap(loc + 4);
        if loc > hi {
          hi := loc;
        }
      } else {
        var w := AssembleWord(syms, loc, ts);
        if w.None? {
          return false;
        }
        ok := Emit32(w.value);
      }
    }

    method RunPass(lines: seq<P.Stmt>) returns (ok: bool)
      requires Valid()
      modifies `loc, `hi, `image, `syms, out
      ensures Valid()
      ensures var r := P.Pass(Cfg(), old(Snap()), lines); ok == r.Some? && (ok ==> Snap() == r.value)
    {
      hide P.ProcessLine;
      var i := 0;
      ghost var start := Snap();
      while i < |lines|
        invariant Valid() && 0 <= i <= |lines|
        invariant second == start.second
        invariant P.Pass(Cfg(), start, lines) == P.Pass(Cfg(), Snap(), lines[i..])
      {
        assert lines[i..][0] == lines[i] && lines[i..][1..] == lines[i + 1..];
        ok := ProcessLine(lines[i]);
        if !ok { return; }
        i := i + 1;
      }
      ok := true;
    }

    /** Assemble a source into `out`; `len` bytes of it are the image. */
    method Assemble(lines: seq<P.Stmt>) returns (ok: bool, len: word)
      modifies this, out
      ensures var r := P.Assembled(Cfg(), org, lines);
              ok == r.Some? && (ok ==> Valid() && Snap() == r.value && len == Wrap(hi - org))
      ensures ok && org + out.Length <= 0xFFFF_FFFF ==>
                len <= out.Length && forall k :: 0 <= k < len ==> k in image && out[k] == image[k]
    {
      hide P.Pass, P.SymbolsResolve, P.Highest;
      len := 0;
      second, loc, hi, syms, image := false, org, org, map[], map[];
      ok := RunPass(lines);
      if !ok {
        return;
      }
      second, loc, hi, image := true, org, org, map[];
      ok := RunPass(lines);
      if !ok {
        return;
      }
      len := Wrap(hi - org);
      if org + out.Length <= 0xFFFF_FFFF {
        P.TwoPassesAgree(Cfg(), org, lines);
      }
    }
  }
}
