/** DA instructions: operands, Z stores, multiply-accumulate and the special
    functions. */
module DauExec {
  import opened Words
  import opened Dau
  import opened Insn
  import opened Core

  // ---------------------------------------------------------------------
  // Operands

  /** An accumulator feeds the adder live and the multiplier three
      instructions late with its guard bits cut; memory feeds both alike. */
  datatype Operand =
    | AccOperand(live: Acc, lane: word)
    | MemOperand(raw: word, ea: word, preg: int)

  type Pointer = p: int | 1 <= p <= 14 witness 1

  function Postmod(c: Core, p: Pointer, i: U3, size: Size): Core {
    if i == 0 then c
    else
      var delta := if i == 6 then -1 * size else if i == 7 then size as int else c.r[14 + i];
      c.(r := c.r[p := Wrap(c.r[p] + delta)])
  }

  function ReadOperand(c: Core, f: Field7, size: Size): (r: (Core, Option<Operand>))
    ensures r.1.Some? && r.1.value.MemOperand? ==> 1 <= r.1.value.preg <= 14
  {
    var p, i := f / 8, f % 8;
    if p == 0 || p == 15 then
      (c, Some(AccOperand(c.acc[i % 4], Pack(c.pipe[2][i % 4]))))
    else
      var (c1, v) := MemRead(c, c.r[p], size, false);
      match v
      case None => (c1, None)
      case Some(raw) => (Postmod(c1, p, i, size), Some(MemOperand(raw, c.r[p], p)))
  }

  function AdderInputOf(o: Operand): Acc {
    match o
    case AccOperand(live, _) => live
    case MemOperand(raw, _, _) => Unpack(raw)
  }

  function MultiplierInputOf(o: Operand): word {
    match o
    case AccOperand(_, lane) => lane
    case MemOperand(raw, _, _) => raw
  }

  predicate ValidOperand(o: Operand) {
    o.MemOperand? ==> 1 <= o.preg <= 14
  }

  // ---------------------------------------------------------------------
  // Z field

  /** p = 1111 stores through Y's own effective address. */
  predicate ZWrites(z: Field7, y: Operand) {
    var p := z / 8;
    if p == 0 then false else if p != 15 then true else y.MemOperand?
  }

  function StoreZ(c: Core, z: Field7, y: Operand, size: Size, val: word): Core
    requires ValidOperand(y)
  {
    var p, i := z / 8, z % 8;
    if !ZWrites(z, y) then c
    else if p == 15 then
      var (c1, ok) := ShadowedWrite(c, y.ea, size, val);
      if ok then Postmod(c1, y.preg, i, size) else c1
    else
      var (c1, ok) := ShadowedWrite(c, c.r[p], size, val);
      if ok then Postmod(c1, p, i, size) else c1
  }

  /** The pointer update of a suppressed conditional store. */
  function PostmodOnly(c: Core, z: Field7, y: Operand, size: Size): Core
    requires ValidOperand(y)
  {
    var p, i := z / 8, z % 8;
    if !ZWrites(z, y) then c
    else if p == 15 then Postmod(c, y.preg, i, size)
    else Postmod(c, p, i, size)
  }

  // ---------------------------------------------------------------------
  // Flags and results

  function SetDau(c: Core, f: DauFlags): Core {
    c.(ps := c.ps.(dau := f), ctr := (c.ctr * 2 + (if f.n then 1 else 0)) % 0x40)
  }

  function DaFlags(c: Core, res: Acc, affectVU: bool): (Core, Acc) {
    var (r, f) := RangeChecked(res, affectVU);
    var c1 := SetDau(c, f);
    (if f.v || f.u then TakeError(c1, VEC_UV).0 else c1, r)
  }

  function SetAcc(c: Core, n: U2, a: Acc): Core {
    c.(acc := c.acc[n := a])
  }

  const ONE_WORD: word := 0x80   // 1.0

  // ---------------------------------------------------------------------
  // Multiply-accumulate (formats 1-4)

  predicate IsTap(i: Insn)
    requires i.Mac?
  {
    i.fmt == 2 || (i.fmt == 1 && i.mul == 6)
  }

  /** The adder operand before its sign. */
  function MacAdder(c: Core, i: Insn, y: Operand): Acc
    requires i.Mac?
  {
    if i.fmt == 1 then AdderInputOf(y)
    else if i.mul == 4 then ZERO_ACC
    else if i.mul == 5 then Unpack(ONE_WORD)
    else c.acc[i.mul % 4]
  }

  function MacProduct(c: Core, i: Insn, x: Operand, y: Operand): (int, int)
    requires i.Mac?
  {
    if i.fmt == 1 then
      if i.mul == 4 then (0, 0)
      else DauMul(if i.mul >= 5 then ONE_WORD else Pack(c.pipe[2][i.mul]), MultiplierInputOf(x))
    else DauMul(MultiplierInputOf(y), MultiplierInputOf(x))
  }

  function MacSum(c: Core, i: Insn, x: Operand, y: Operand): Acc
    requires i.Mac?
  {
    var adder := MacAdder(c, i, y);
    var (pm, pe) := MacProduct(c, i, x, y);
    DauAdd(if i.fs then AccNegate(adder) else adder, if i.ss then -pm else pm, pe)
  }

  /** The word a tap passes on: the Y operand, live if an accumulator. */
  function TapWord(c: Core, y: Operand, yf: Field7): word {
    match y
    case AccOperand(_, _) => Pack(c.acc[yf % 4])
    case MemOperand(raw, _, _) => raw
  }

  function ExecMac(c: Core, i: Insn): Core
    requires i.Mac?
  {
    var (c1, xo) := ReadOperand(c, i.x, 4);
    if xo.None? then c1
    else
      var (c2, yo) := ReadOperand(c1, i.y, 4);
      if yo.None? then c2
      else
        var x, y := xo.value, yo.value;
        var (c3, res) := DaFlags(c2, MacSum(c2, i, x, y), true);
        var c4 := SetAcc(c3, i.an, res);
        StoreZ(c4, i.z, y, 4, if IsTap(i) then TapWord(c4, y, i.y) else Pack(res))
  }

  // ---------------------------------------------------------------------
  // Companding

  /** Twice (16.5 + m) * 2^n. */
  function Segment2x(m: nat, n: nat): int {
    (33 + 2 * m) * Pow2(n)
  }

  function MulawDecode2x(b: byte): int {
    var u := 0xFF - b;
    var y := Segment2x(u % 16, u / 16 % 8) - 33;
    if u / 128 == 1 then -y else y
  }

  /** b ^ 0xD5 */
  function AlawFlip(b: byte): byte {
    BitwiseBound((p, q) => p != q, b, 0xD5, 8);
    Pow2Constants();
    Bitwise((p, q) => p != q, b, 0xD5, 8)
  }

  function AlawDecode2x(b: byte): int {
    var u := AlawFlip(b);
    var n := u / 16 % 8;
    var y := if n != 0 then Segment2x(u % 16, n) else (1 + 2 * (u % 16)) * 2;
    if u / 128 == 1 then -y else y
  }

  function Decode2x(b: byte, alaw: bool): int {
    if alaw then AlawDecode2x(b) else MulawDecode2x(b)
  }

  /** The first code nearest to v2 among b, b+1, ..., 255. */
  function NearestFrom(v2: int, alaw: bool, b: nat, best: byte, bestDistance: nat): byte
    requires b <= 256
    decreases 256 - b
  {
    if b == 256 then best
    else
      var d := Magnitude(Decode2x(b, alaw) - v2);
      if d < bestDistance then NearestFrom(v2, alaw, b + 1, b, d)
      else NearestFrom(v2, alaw, b + 1, best, bestDistance)
  }

  function CompandedEncode(v: Acc, alaw: bool): byte {
    var twice := if v.e != 0 then v.(e := v.e + 1) else v;
    NearestFrom(AccToInt(twice, 0, 32), alaw, 0, 0, 0x7FFF_FFFF_FFFF_FFFF)
  }

  // ---------------------------------------------------------------------
  // Special functions (format 5)

  const G_IC: U4 := 0
  const G_OC: U4 := 1
  const G_FLOAT16: U4 := 2
  const G_INT16: U4 := 3
  const G_ROUND: U4 := 4
  const G_IFALT: U4 := 5
  const G_IFAEQ: U4 := 6
  const G_IFAGT: U4 := 7
  const G_FLOAT32: U4 := 8
  const G_INT32: U4 := 9
  const G_IEEE: U4 := 12
  const G_DSP: U4 := 13
  const G_SEED: U4 := 14

  predicate ReservedG(g: U4) { g == 10 || g == 11 || g == 15 }

  /** A special function's effect before its result is stored: the new state,
      the accumulator result, the Z bits and whether Z is still to be written. */
  datatype SpecialOut = SpecialOut(c: Core, res: Acc, zbits: word, store: bool)

  function WithFlags(c: Core, res: Acc, affectVU: bool): SpecialOut {
    var (c1, r) := DaFlags(c, res, affectVU);
    SpecialOut(c1, r, Pack(r), true)
  }

  /** The integer lane of the operand, `drop` low bits cut; or memory bits. */
  function LaneInt(y: Operand, drop: nat): int {
    match y
    case AccOperand(live, _) => RawOf(live) / Pow2(drop)
    case MemOperand(raw, _, _) => raw
  }

  function ExecIc(c: Core, y: Operand): SpecialOut {
    var code := LaneInt(y, 24) % 0x100;
    if c.dauc / 4 % 2 == 1 then WithFlags(c, AccFromInt(code), false)
    else
      var twice := AccFromInt(Decode2x(code, c.dauc % 2 == 1));
      WithFlags(c, if twice.e != 0 then twice.(e := twice.e - 1) else twice, false)
  }

  function ExecOc(c: Core, y: Operand): SpecialOut {
    var a := AdderInputOf(y);
    var code := if c.dauc / 8 % 2 == 1 then AccToInt(a, c.dauc, 8) % 0x100
                else CompandedEncode(a, c.dauc / 2 % 2 == 1);
    SpecialOut(c, IntLane(Signed32(code * 0x100_0000), a), code, true)
  }

  function ExecToInt(c: Core, y: Operand, bits: nat): SpecialOut {
    var a := AdderInputOf(y);
    var iv := AccToInt(a, c.dauc, bits);
    if bits == 16 then SpecialOut(c, IntLane(Signed32(Wrap(iv * 0x1_0000)), a), iv % 0x1_0000, true)
    else SpecialOut(c, IntLane(Signed32(Wrap(iv)), a), Wrap(iv), true)
  }

  /** ifalt, ifaeq and ifagt test the live flags. */
  predicate LiveCondition(c: Core, g: U4) {
    var f := c.ps.dau;
    if g == G_IFALT then f.n else if g == G_IFAEQ then f.z else !(f.n || f.z)
  }

  function ExecIfa(c: Core, g: U4, an: U2, z: Field7, y: Operand): SpecialOut
    requires ValidOperand(y)
  {
    var cond := LiveCondition(c, g);
    var res := if cond then AdderInputOf(y) else c.acc[an];
    if !cond && c.dauc / 64 % 2 == 1 then SpecialOut(PostmodOnly(c, z, y, 4), res, Pack(res), false)
    else SpecialOut(c, res, Pack(res), true)
  }

  /** IEEE words reach `dsp` and `seed` from memory or a packed accumulator. */
  function PackedInput(y: Operand): word {
    match y
    case AccOperand(live, _) => Pack(live)
    case MemOperand(raw, _, _) => raw
  }

  function ExecDsp(c: Core, y: Operand): SpecialOut {
    var iw := PackedInput(y);
    var negative := iw >= 0x8000_0000;
    var exp, mant := iw / 0x80_0000 % 0x100, iw % 0x80_0000;
    if exp == 255 then
      var zbits := if negative then 0x8000_00FF else 0x7FFF_FFFF;
      var c1 := SetDau(c, DauFlags(negative, false, false, !negative || mant != 0));
      SpecialOut(if mant != 0 then TakeError(c1, VEC_NAN).0 else c1, Unpack(zbits), zbits, true)
    else if exp == 0 then
      SpecialOut(SetDau(c, DauFlags(false, true, mant != 0, false)), ZERO_ACC, 0, true)
    else WithFlags(c, AccFromIeee(iw), true)
  }

  function ExecSeed(c: Core, y: Operand): SpecialOut {
    var yb := PackedInput(y);
    var sb := SeedWord(yb);
    var out := WithFlags(c, Unpack(sb), false);
    var c1 := if yb % 0x100 == 0xFF then out.c.(ps := out.c.ps.(dau := out.c.ps.dau.(u := true))) else out.c;
    SpecialOut(c1, out.res, sb, true)
  }

  function SpecialResult(c: Core, i: Insn, y: Operand): SpecialOut
    requires i.Special? && !ReservedG(i.g) && ValidOperand(y)
  {
    var g := i.g;
    if g == G_IC then ExecIc(c, y)
    else if g == G_OC then ExecOc(c, y)
    else if g == G_FLOAT16 then WithFlags(c, AccFromInt(Signed16(LaneInt(y, 16))), false)
    else if g == G_FLOAT32 then WithFlags(c, AccFromInt(Signed32(Wrap(LaneInt(y, 0)))), false)
    else if g == G_INT16 then ExecToInt(c, y, 16)
    else if g == G_INT32 then ExecToInt(c, y, 32)
    else if g == G_ROUND then WithFlags(c, AccRound(AdderInputOf(y)), true)
    else if g == G_IFALT || g == G_IFAEQ || g == G_IFAGT then ExecIfa(c, g, i.an, i.z, y)
    else if g == G_IEEE then SpecialOut(c, AdderInputOf(y), AccToIeee(AdderInputOf(y)), true)
    else if g == G_DSP then ExecDsp(c, y)
    else ExecSeed(c, y)
  }

  function YSize(g: U4): Size { if g == G_IC then 1 else if g == G_FLOAT16 then 2 else 4 }
  function ZSize(g: U4): Size { if g == G_OC then 1 else if g == G_INT16 then 2 else 4 }

  function ExecSpecial(c: Core, i: Insn): Core
    requires i.Special?
  {
    var (c1, yo) := ReadOperand(c, i.y, YSize(i.g));
    if yo.None? || ReservedG(i.g) then c1
    else
      var out := SpecialResult(c1, i, yo.value);
      var c2 := SetAcc(out.c, i.an, out.res);
      if out.store then StoreZ(c2, i.z, yo.value, ZSize(i.g), out.zbits) else c2
  }
}
