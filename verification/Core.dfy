/** The processor state and the parts of it every instruction touches:
    registers, flags, exceptions, memory and the DA store shadow. */
module Core {
  import opened Words
  import opened Dau
  import opened Insn

  datatype Option<T> = None | Some(value: T)

  // ---------------------------------------------------------------------
  // State

  datatype CauFlags = CauFlags(n: bool, z: bool, v: bool, c: bool)
  datatype IoPins = IoPins(ibf: bool, obe: bool, sy: bool, fb: bool, ir0: bool, ir1: bool)

  /** The processor status register. */
  datatype Ps = Ps(cau: CauFlags, dau: DauFlags, io: IoPins)

  datatype Level = Base | Interrupt | Error | DoubleError

  datatype Loop = Loop(active: bool, lock: bool, start: word, last: word, count: nat)

  type RegFile = s: seq<word> | |s| == 23 witness seq(23, i => 0)
  type AccFile = s: seq<Acc> | |s| == 4 witness seq(4, i => ZERO_ACC)
  type AccPipe = s: seq<AccFile> | |s| == 3 witness seq(3, i => seq(4, j => ZERO_ACC))
  type FlagPipe = s: seq<DauFlags> | |s| == 4
    witness seq(4, i => DauFlags(false, false, false, false))

  /** One entry of the DA store shadow: the bytes a store overwrote. */
  type Size = x: int | x == 1 || x == 2 || x == 4 witness 1
  type Bytes4 = s: seq<byte> | |s| == 4 witness seq(4, i => 0)
  datatype WrEntry = Free | Live(addr: word, size: Size, rem: nat, bytes: Bytes4)
  type Shadow = s: seq<WrEntry> | |s| == 4 witness [Free, Free, Free, Free]

  type ChipBytes = s: seq<byte> | |s| == 0x1_0000 witness seq(0x1_0000, i => 0)
  type ExtBytes = s: seq<byte> | |s| < 0x1_0000_0000
  datatype Memory = Memory(chip: ChipBytes, ext: ExtBytes)

  datatype Core = Core(
    r: RegFile, pc: word, npc: word, pcsh: word, curInsn: word,
    ps: Ps, emr: half, pcw: half, pcwLocked: bool, dauc: nat, ctr: nat,
    acc: AccFile, pipe: AccPipe, flagPipe: FlagPipe, shadow: Shadow,
    loop: Loop, level: Level, errNonmaskable: bool,
    pending: set<int>, waiting: bool, intDefer: bool,
    pulse0: nat, pulse1: nat, mem: Memory)

  // ---------------------------------------------------------------------
  // Registers

  datatype RegKind = Zero | General(idx: int) | PcReg | PcshReg | Plus | Minus | ReservedReg

  function RegDecode(code: Reg): (k: RegKind)
    ensures k.General? ==> 1 <= k.idx <= 22
  {
    if code == 0 then Zero
    else if code <= 14 then General(code)
    else if code == 15 then PcReg
    else if 17 <= code <= 21 then General(code - 2)
    else if code == 22 then Minus
    else if code == 23 then Plus
    else if 24 <= code <= 26 then General(code - 4)
    else if code == 30 then PcshReg
    else ReservedReg
  }

  /** Reading pc gives the address two instructions on. */
  function Opval(c: Core, code: Reg): word {
    match RegDecode(code)
    case General(i) => c.r[i]
    case PcReg => Wrap(c.curInsn + 8)
    case PcshReg => c.pcsh
    case Plus => 1
    case Minus => 0xFFFF_FFFF
    case Zero => 0
    case ReservedReg => 0
  }

  function Regw(c: Core, code: Reg, v: word): Core {
    match RegDecode(code)
    case General(i) => c.(r := c.r[i := v])
    case PcReg => c.(npc := v)
    case PcshReg => c.(pcsh := v)
    case _ => c
  }

  function SetCau(c: Core, f: CauFlags): Core {
    c.(ps := c.ps.(cau := f))
  }

  // ---------------------------------------------------------------------
  // Exceptions

  const VEC_BUSERR := 1
  const VEC_ILLOP := 2
  const VEC_AERR := 4
  const VEC_UV := 5
  const VEC_NAN := 6

  /** Dispatch to the error vector: loops die, interrupts stay off, pcw unlocks,
      r20 traces the aborted instruction. */
  function Abort(c: Core, vn: nat): Core {
    var pc := Wrap(c.r[22] + vn * 8);
    c.(loop := c.loop.(active := false), waiting := false, errNonmaskable := vn < 4,
       level := Error, pcw := if Bit(c.pcw, 13) then ClearBit13(c.pcw) else c.pcw,
       pcwLocked := false, r := c.r[20 := Wrap(c.curInsn + 8)], pc := pc, npc := Wrap(pc + 4))
  }

  function ClearBit13(x: half): half {
    x % 0x2000 + x / 0x4000 * 0x4000
  }

  /** True when the exception was taken and the instruction must abort. */
  function TakeError(c: Core, vn: nat): (Core, bool) {
    if vn >= 4 && !Bit(c.emr, vn) then (c, false)
    else if c.level == DoubleError then (c, true)
    else if c.level == Error && vn >= 4 then (c, false)
    else if c.level == Error && c.errNonmaskable then (c.(level := DoubleError), true)
    else (Abort(c, vn), true)
  }

  /** The highest-priority enabled request, 0 if there is none. */
  function PendingFrom(c: Core, vn: nat): nat
    requires 8 <= vn <= 16
    decreases 16 - vn
  {
    if vn == 16 then 0
    else if vn in c.pending && Bit(c.emr, vn) then vn
    else PendingFrom(c, vn + 1)
  }

  function PendingVector(c: Core): nat {
    PendingFrom(c, 8)
  }

  // ---------------------------------------------------------------------
  // Memory

  datatype Place = Chip(i: nat) | Ext(i: nat) | Unmapped

  /** The on-chip window moves with pcw[10]; flat memory is behind it. */
  function Locate(computer: bool, extSize: nat, addr: word): (p: Place)
    ensures p.Chip? ==> p.i < 0x1_0000
    ensures p.Ext? ==> p.i < extSize
  {
    var off := Wrap(addr - (if computer then 0 else 0x5003_0000));
    if off < 0x1_0000 then Chip(off)
    else if addr < extSize then Ext(addr)
    else Unmapped
  }

  function ByteAt(m: Memory, computer: bool, addr: word): Option<byte> {
    match Locate(computer, |m.ext|, addr)
    case Chip(i) => Some(m.chip[i])
    case Ext(i) => Some(m.ext[i])
    case Unmapped => None
  }

  function SetByte(m: Memory, computer: bool, addr: word, b: byte): Memory {
    match Locate(computer, |m.ext|, addr)
    case Chip(i) => m.(chip := m.chip[i := b])
    case Ext(i) => m.(ext := m.ext[i := b])
    case Unmapped => m
  }

  predicate Mapped(m: Memory, computer: bool, addr: word) {
    !Locate(computer, |m.ext|, addr).Unmapped?
  }

  /** The bytes at addr, addr+1, ... or None if one of them is unmapped. */
  function ReadBytes(m: Memory, computer: bool, addr: word, n: nat): (r: Option<seq<byte>>)
    ensures r.Some? ==> |r.value| == n
    decreases n
  {
    if n == 0 then Some([])
    else
      match ByteAt(m, computer, addr)
      case None => None
      case Some(b) =>
        match ReadBytes(m, computer, Wrap(addr + 1), n - 1)
        case None => None
        case Some(rest) => Some([b] + rest)
  }

  /** Store bytes in address order; stops at the first unmapped one, keeping
      what was already stored. */
  function WriteBytes(m: Memory, computer: bool, addr: word, bs: seq<byte>): (Memory, bool)
    decreases |bs|
  {
    if bs == [] then (m, true)
    else if !Mapped(m, computer, addr) then (m, false)
    else WriteBytes(SetByte(m, computer, addr, bs[0]), computer, Wrap(addr + 1), bs[1..])
  }

  /** A value from its bytes in address order. */
  function Join(bs: seq<byte>, big: bool): nat {
    if bs == [] then 0
    else if big then Join(bs[..|bs| - 1], big) * 0x100 + bs[|bs| - 1]
    else bs[0] + 0x100 * Join(bs[1..], big)
  }

  /** Byte k of a value, least significant first. */
  function ByteOf(v: nat, k: nat): byte {
    v / Pow2(8 * k) % 0x100
  }

  function Split(v: nat, n: nat, big: bool): (bs: seq<byte>)
    ensures |bs| == n
  {
    seq(n, i requires 0 <= i < n => ByteOf(v, if big then n - 1 - i else i))
  }

  predicate Computer(c: Core) { Bit(c.pcw, 10) }
  predicate BigEndian(c: Core) { Bit(c.pcw, 8) }

  function AlignDown(addr: word, size: Size): word {
    addr - addr % size
  }

  lemma {:induction false} JoinBound(bs: seq<byte>, big: bool)
    ensures Join(bs, big) < Pow2(8 * |bs|)
  {
    if bs != [] {
      JoinBound(if big then bs[..|bs| - 1] else bs[1..], big);
      Pow2Add(8 * (|bs| - 1), 8);
      assert Pow2(8) == 0x100;
    }
  }

  lemma JoinFits(bs: seq<byte>, big: bool)
    requires |bs| <= 4
    ensures Join(bs, big) < 0x1_0000_0000
  {
    JoinBound(bs, big);
    Pow2Monotonic(8 * |bs|, 32);
    Pow2Constants();
  }

  function JoinWord(bs: seq<byte>, big: bool): word
    requires |bs| <= 4
  {
    JoinFits(bs, big);
    Join(bs, big)
  }

  /** Access without exceptions. */
  function RawRead(c: Core, addr: word, size: Size): Option<word> {
    if addr % size != 0 then None
    else
      match ReadBytes(c.mem, Computer(c), addr, size)
      case None => None
      case Some(bs) => Some(JoinWord(bs, BigEndian(c)))
  }

  // ---------------------------------------------------------------------
  // The DA store shadow

  /** A live entry of age `rem` holding the old byte of address a. */
  predicate Covers(w: WrEntry, rem: int, a: word) {
    w.Live? && w.rem == rem && Wrap(a - w.addr) < w.size
  }

  /** Entries e.. of one age, applied in order. */
  function Layer(sh: Shadow, rem: int, e: nat, a: word, b: byte): byte
    requires e <= 4
    decreases 4 - e
  {
    if e == 4 then b
    else Layer(sh, rem, e + 1, a, if Covers(sh[e], rem, a) then sh[e].bytes[Wrap(a - sh[e].addr)] else b)
  }

  /** Newest entries first, so the oldest lands last. */
  function OverlaidByte(sh: Shadow, a: word, b: byte): byte {
    Layer(sh, 0, 0, a, Layer(sh, 1, 0, a, Layer(sh, 2, 0, a, Layer(sh, 3, 0, a, b))))
  }

  function Overlaid(sh: Shadow, addr: word, bs: seq<byte>): (r: seq<byte>)
    ensures |r| == |bs|
  {
    seq(|bs|, i requires 0 <= i < |bs| => OverlaidByte(sh, Wrap(addr + i), bs[i]))
  }

  /** The alignment check; when the address error is masked or ignored the access
      goes on. */
  function CheckAligned(c: Core, addr: word, size: Size): (Core, bool) {
    if addr % size != 0 then TakeError(c, VEC_AERR) else (c, false)
  }

  /** Access from executing code.  A masked misaligned access proceeds with the
      low address bits dropped. */
  function MemRead(c: Core, addr: word, size: Size, fetch: bool): (Core, Option<word>) {
    var (c1, taken) := CheckAligned(c, addr, size);
    if taken then (c1, None)
    else
      var a := AlignDown(addr, size);
      match ReadBytes(c1.mem, Computer(c1), a, size)
      case None => (TakeError(c1, VEC_BUSERR).0, None)
      case Some(bs) =>
        (c1, Some(JoinWord(if fetch then bs else Overlaid(c1.shadow, a, bs), BigEndian(c1))))
  }

  function MemWrite(c: Core, addr: word, size: Size, val: word): (Core, bool) {
    var (c1, taken) := CheckAligned(c, addr, size);
    if taken then (c1, false)
    else
      var (m, ok) := WriteBytes(c1.mem, Computer(c1), AlignDown(addr, size), Split(val, size, BigEndian(c1)));
      var c2 := c1.(mem := m);
      if ok then (c2, true) else (TakeError(c2, VEC_BUSERR).0, false)
  }

  /** The first free entry, or else the one closest to expiry. */
  function SlotFrom(sh: Shadow, i: nat, slot: nat): (r: nat)
    requires i <= 4 && slot < 4
    ensures r < 4
    decreases 4 - i
  {
    if i == 4 then slot
    else if sh[i].Free? then i
    else SlotFrom(sh, i + 1, if sh[slot].Live? && sh[i].rem < sh[slot].rem then i else slot)
  }

  function Padded(bs: seq<byte>): Bytes4
    requires |bs| <= 4
  {
    bs + seq(4 - |bs|, i => 0)
  }

  /** A DA store: memory changes at once, and the overwritten bytes stay
      visible to the processor's own reads for three more instructions. */
  function ShadowedWrite(c: Core, addr: word, size: Size, val: word): (Core, bool) {
    var maddr := AlignDown(addr, size);
    var before := ReadBytes(c.mem, Computer(c), maddr, size);
    var (c1, ok) := MemWrite(c, addr, size, val);
    if !ok then (c1, false)
    else if before.None? then (c1, true)
    else
      var slot := SlotFrom(c1.shadow, 0, 0);
      (c1.(shadow := c1.shadow[slot := Live(maddr, size, 3, Padded(before.value))]), true)
  }

  // ---------------------------------------------------------------------
  // The time base

  function Aged(w: WrEntry): WrEntry {
    match w
    case Free => Free
    case Live(_, _, rem, _) => if rem == 0 then Free else w.(rem := rem - 1)
  }

  function LatencyTick(c: Core): Core {
    c.(pipe := [c.acc, c.pipe[0], c.pipe[1]],
       flagPipe := [c.ps.dau, c.flagPipe[0], c.flagPipe[1], c.flagPipe[2]],
       shadow := [Aged(c.shadow[0]), Aged(c.shadow[1]), Aged(c.shadow[2]), Aged(c.shadow[3])])
  }

  function PinTick(c: Core): Core {
    c.(ps := c.ps.(io := c.ps.io.(ir0 := c.pulse0 == 0, ir1 := c.pulse1 == 0)),
       pulse0 := if c.pulse0 > 0 then c.pulse0 - 1 else 0,
       pulse1 := if c.pulse1 > 0 then c.pulse1 - 1 else 0)
  }
}
