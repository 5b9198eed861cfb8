/** The four-entry store shadow refines a full history of memory: a read sees
    each byte as it was before the oldest DA store of the last three slots. */
module RunShadow {
  import opened Words
  import opened Dau
  import opened Insn
  import opened Core
  import opened Cau
  import opened DauExec
  import opened Machine
  import opened Frames
  import opened DaFrames
  import opened RunPipes

  // ---------------------------------------------------------------------
  // The history

  /** One slot of core time: memory as it began, and the DA store completed in
      it, if any. */
  datatype Moment = Moment(before: Memory, store: Option<(word, Size)>)

  function StoreAt(c: Core, z: Field7, y: Operand, size: Size, val: word): Option<(word, Size)>
    requires ValidOperand(y)
  {
    if !ZWrites(z, y) then None
    else
      var ea := if z / 8 == 15 then y.ea else c.r[z / 8];
      if ShadowedWrite(c, ea, size, val).1 && ReadBytes(c.mem, Computer(c), AlignDown(ea, size), size).Some?
      then Some((AlignDown(ea, size), size))
      else None
  }

  /** The store a DA instruction completes. */
  function DaStore(c: Core, i: Insn): Option<(word, Size)> {
    match i
    case Mac(_, _, _, _, _, _, _, _) =>
      var (c1, xo) := ReadOperand(c, i.x, 4);
      if xo.None? then None
      else
        var (c2, yo) := ReadOperand(c1, i.y, 4);
        if yo.None? then None
        else
          var x, y := xo.value, yo.value;
          var (c3, res) := DaFlags(c2, MacSum(c2, i, x, y), true);
          var c4 := SetAcc(c3, i.an, res);
          StoreAt(c4, i.z, y, 4, if IsTap(i) then TapWord(c4, y, i.y) else Pack(res))
    case Special(_, _, _, _) =>
      var (c1, yo) := ReadOperand(c, i.y, YSize(i.g));
      if yo.None? || ReservedG(i.g) then None
      else
        var out := SpecialResult(c1, i, yo.value);
        if !out.store then None
        else StoreAt(SetAcc(out.c, i.an, out.res), i.z, yo.value, ZSize(i.g), out.zbits)
    case _ => None
  }

  function NextHistory(s: State, hist: seq<Moment>): seq<Moment> {
    match NextSlot(s)
    case Asleep(_) => hist + [Moment(s.c.mem, None)]
    case Runs(s1, i, _) => hist + [Moment(s1.c.mem, DaStore(s1.c, i))]
    case _ => hist
  }

  function History(s: State, reqs: seq<set<int>>): seq<Moment> {
    if reqs == [] then []
    else
      var k := |reqs| - 1;
      NextHistory(Request(Run(s, reqs[..k]), reqs[k]), History(s, reqs[..k]))
  }

  /** The k-th newest moment stored over address a. */
  predicate StoredOver(hist: seq<Moment>, k: nat, a: word)
    requires k >= 1
  {
    && |hist| >= k && hist[|hist| - k].store.Some?
    && Wrap(a - hist[|hist| - k].store.value.0) < hist[|hist| - k].store.value.1
  }

  /** The byte a read must return: from before the oldest DA store over `a` in
      the last three slots, else `now`. */
  function HistoryByte(hist: seq<Moment>, computer: bool, a: word, now: byte): Option<byte> {
    if StoredOver(hist, 3, a) then ByteAt(hist[|hist| - 3].before, computer, a)
    else if StoredOver(hist, 2, a) then ByteAt(hist[|hist| - 2].before, computer, a)
    else if StoredOver(hist, 1, a) then ByteAt(hist[|hist| - 1].before, computer, a)
    else Some(now)
  }

  // ---------------------------------------------------------------------
  // The invariant

  /** Entry w is the record of the moment k slots back from the end. */
  predicate Records(w: WrEntry, hist: seq<Moment>, computer: bool, k: nat)
    requires k >= 1
  {
    && w.Live? && |hist| >= k
    && hist[|hist| - k].store == Some((w.addr, w.size))
    && ReadBytes(hist[|hist| - k].before, computer, w.addr, w.size).Some?
    && ReadBytes(hist[|hist| - k].before, computer, w.addr, w.size).value == w.bytes[..w.size]
  }

  predicate EntryOk(w: WrEntry, hist: seq<Moment>, computer: bool, top: nat) {
    w.Live? ==> w.rem <= top && Records(w, hist, computer, top + 1 - w.rem)
  }

  predicate DistinctAges(sh: Shadow) {
    && AgesDiffer(sh[0], sh[1]) && AgesDiffer(sh[0], sh[2]) && AgesDiffer(sh[0], sh[3])
    && AgesDiffer(sh[1], sh[2]) && AgesDiffer(sh[1], sh[3]) && AgesDiffer(sh[2], sh[3])
  }

  predicate AgesDiffer(v: WrEntry, w: WrEntry) {
    v.Live? && w.Live? ==> v.rem != w.rem
  }

  predicate HasAge(w: WrEntry, age: int) {
    w.Live? && w.rem == age
  }

  predicate AgeInUse(sh: Shadow, age: int) {
    HasAge(sh[0], age) || HasAge(sh[1], age) || HasAge(sh[2], age) || HasAge(sh[3], age)
  }

  predicate HasStore(hist: seq<Moment>, k: nat) {
    1 <= k <= |hist| && hist[|hist| - k].store.Some?
  }

  /** Live entries are exactly the stores of the last top+1 moments, the newest
      carrying age `top`; no two share an age. */
  ghost predicate Matches(sh: Shadow, hist: seq<Moment>, computer: bool, top: nat) {
    && EntryOk(sh[0], hist, computer, top) && EntryOk(sh[1], hist, computer, top)
    && EntryOk(sh[2], hist, computer, top) && EntryOk(sh[3], hist, computer, top)
    && DistinctAges(sh)
    && (forall k: nat :: HasStore(hist, k) && k <= top + 1 ==> AgeInUse(sh, top + 1 - k))
  }

  /** While an instruction executes, at most three ages are in use, so an entry
      is free and eviction never happens. */
  lemma FreeEntryExists(sh: Shadow, hist: seq<Moment>, computer: bool)
    requires Matches(sh, hist, computer, 2)
    ensures sh[SlotFrom(sh, 0, 0)].Free?
  {
    hide Records;
    SlotFromFree(sh, 0, 0);
  }

  lemma {:induction false} SlotFromFree(sh: Shadow, i: nat, slot: nat)
    requires i < 4 && slot < 4
    requires sh[3].Free? || (i <= 2 && sh[2].Free?) || (i <= 1 && sh[1].Free?) || (i <= 0 && sh[0].Free?)
    ensures sh[SlotFrom(sh, i, slot)].Free?
    decreases 4 - i
  {
    if sh[i].Live? {
      SlotFromFree(sh, i + 1, if sh[slot].Live? && sh[i].rem < sh[slot].rem then i else slot);
    }
  }

  function AgedShadow(sh: Shadow): Shadow {
    [Aged(sh[0]), Aged(sh[1]), Aged(sh[2]), Aged(sh[3])]
  }

  lemma TickMatches(sh: Shadow, hist: seq<Moment>, computer: bool)
    requires Matches(sh, hist, computer, 3)
    ensures Matches(AgedShadow(sh), hist, computer, 2)
  {
    hide Records, HasStore;
    EntryAged(sh[0], hist, computer);
    EntryAged(sh[1], hist, computer);
    EntryAged(sh[2], hist, computer);
    EntryAged(sh[3], hist, computer);
    forall k: nat | HasStore(hist, k) && k <= 3 ensures AgeInUse(AgedShadow(sh), 3 - k) {
      assert AgeInUse(sh, 4 - k);
    }
  }

  lemma EntryAged(w: WrEntry, hist: seq<Moment>, computer: bool)
    requires EntryOk(w, hist, computer, 3)
    ensures EntryOk(Aged(w), hist, computer, 2)
    ensures forall age: nat :: HasAge(Aged(w), age) <==> HasAge(w, age + 1)
  {
    hide Records;
    if w.Live? && w.rem > 0 {
      RecordsAged(w, Aged(w), hist, computer, 4 - w.rem);
    }
  }

  lemma RecordsAged(w: WrEntry, v: WrEntry, hist: seq<Moment>, computer: bool, k: nat)
    requires k >= 1 && Records(w, hist, computer, k)
    requires v.Live? && v == w.(rem := v.rem)
    ensures Records(v, hist, computer, k)
  {
  }

  lemma RecordsAppend(w: WrEntry, hist: seq<Moment>, m: Moment, computer: bool, k: nat)
    requires k >= 1 && Records(w, hist, computer, k)
    ensures Records(w, hist + [m], computer, k + 1)
  {
    assert (hist + [m])[|hist| + 1 - (k + 1)] == hist[|hist| - k];
  }

  lemma EntryAppend(w: WrEntry, hist: seq<Moment>, m: Moment, computer: bool)
    requires EntryOk(w, hist, computer, 2)
    ensures EntryOk(w, hist + [m], computer, 3)
  {
    hide Records;
    if w.Live? { RecordsAppend(w, hist, m, computer, 3 - w.rem); }
  }

  lemma OlderStores(hist: seq<Moment>, m: Moment, k: nat)
    requires HasStore(hist + [m], k)
    ensures k >= 1 && (k == 1 ==> m.store.Some?)
    ensures k > 1 ==> HasStore(hist, k - 1)
  {
    if k > 1 { assert (hist + [m])[|hist| + 1 - k] == hist[|hist| - (k - 1)]; }
  }

  lemma AppendNone(sh: Shadow, hist: seq<Moment>, m: Moment, computer: bool)
    requires Matches(sh, hist, computer, 2) && m.store.None?
    ensures Matches(sh, hist + [m], computer, 3)
  {
    hide Records, HasStore, AgeInUse;
    EntryAppend(sh[0], hist, m, computer);
    EntryAppend(sh[1], hist, m, computer);
    EntryAppend(sh[2], hist, m, computer);
    EntryAppend(sh[3], hist, m, computer);
    forall k: nat | HasStore(hist + [m], k) && k <= 4 ensures AgeInUse(sh, 4 - k) {
      OlderStores(hist, m, k);
    }
  }

  lemma AppendStore(sh: Shadow, hist: seq<Moment>, m: Moment, computer: bool, slot: nat, w: WrEntry)
    requires Matches(sh, hist, computer, 2) && slot < 4 && sh[slot].Free?
    requires w.Live? && w.rem == 3 && Records(w, hist + [m], computer, 1)
    ensures Matches(sh[slot := w], hist + [m], computer, 3)
  {
    hide Records, HasStore;
    var sh1 := sh[slot := w];
    EntryAppend(sh[0], hist, m, computer);
    EntryAppend(sh[1], hist, m, computer);
    EntryAppend(sh[2], hist, m, computer);
    EntryAppend(sh[3], hist, m, computer);
    AgesAfterStore(sh, slot, w);
    forall k: nat | HasStore(hist + [m], k) && k <= 4 ensures AgeInUse(sh1, 4 - k) {
      OlderStores(hist, m, k);
      if k > 1 { assert AgeInUse(sh, 3 - (k - 1)); }
    }
  }

  /** A new entry of the youngest age collides with none of the older ones. */
  lemma AgesAfterStore(sh: Shadow, slot: nat, w: WrEntry)
    requires slot < 4 && sh[slot].Free? && DistinctAges(sh) && w.Live? && w.rem == 3
    requires (sh[0].Live? ==> sh[0].rem <= 2) && (sh[1].Live? ==> sh[1].rem <= 2)
    requires (sh[2].Live? ==> sh[2].rem <= 2) && (sh[3].Live? ==> sh[3].rem <= 2)
    ensures DistinctAges(sh[slot := w])
    ensures AgeInUse(sh[slot := w], 3)
    ensures forall age :: AgeInUse(sh, age) ==> AgeInUse(sh[slot := w], age)
  {
  }

  // ---------------------------------------------------------------------
  // Execution keeps it

  /** A completed store adds one entry holding the bytes it overwrote; any other
      outcome leaves the shadow alone. */
  lemma StoreZEffect(c: Core, z: Field7, y: Operand, size: Size, val: word)
    requires ValidOperand(y)
    ensures var d := StoreZ(c, z, y, size, val);
            match StoreAt(c, z, y, size, val)
            case None => d.shadow == c.shadow
            case Some(st) =>
              && ReadBytes(c.mem, Computer(c), st.0, st.1).Some?
              && d.shadow == c.shadow[SlotFrom(c.shadow, 0, 0) :=
                   Live(st.0, st.1, 3, Padded(ReadBytes(c.mem, Computer(c), st.0, st.1).value))]
  {
    hide MemWrite, ReadBytes, SlotFrom, Postmod, AlignDown, Padded;
    if ZWrites(z, y) {
      var p := z / 8;
      var ea := if p == 15 then y.ea else c.r[p];
      MemWriteFrame(c, ea, size, val);
      var (c1, ok) := ShadowedWrite(c, ea, size, val);
      PostmodOnlyR(c1, if p == 15 then y.preg else p, z % 8, size);
      if ok { } else { }
    }
  }

  /** The shadow after a DA instruction, from the state it started in. */
  predicate ShadowAfter(c: Core, d: Core, store: Option<(word, Size)>) {
    match store
    case None => d.shadow == c.shadow
    case Some(st) =>
      && ReadBytes(c.mem, Computer(c), st.0, st.1).Some?
      && d.shadow == c.shadow[SlotFrom(c.shadow, 0, 0) :=
           Live(st.0, st.1, 3, Padded(ReadBytes(c.mem, Computer(c), st.0, st.1).value))]
  }

  lemma MacShadow(c: Core, i: Insn)
    requires i.Mac?
    ensures ShadowAfter(c, ExecMac(c, i), DaStore(c, i))
  {
    hide MacSum, DaFlags, StoreZ, StoreAt, ReadOperand, TapWord, Pack, Bit, ReadBytes, SlotFrom, Padded;
    ReadOperandFrame(c, i.x, 4);
    var (c1, xo) := ReadOperand(c, i.x, 4);
    if xo.Some? {
      ReadOperandFrame(c1, i.y, 4);
      var (c2, yo) := ReadOperand(c1, i.y, 4);
      if yo.Some? {
        var x, y := xo.value, yo.value;
        DaFlagsFrame(c2, MacSum(c2, i, x, y), true);
        var (c3, res) := DaFlags(c2, MacSum(c2, i, x, y), true);
        var c4 := SetAcc(c3, i.an, res);
        StoreZEffect(c4, i.z, y, 4, if IsTap(i) then TapWord(c4, y, i.y) else Pack(res));
      }
    }
  }

  lemma SpecialShadow(c: Core, i: Insn)
    requires i.Special?
    ensures ShadowAfter(c, ExecSpecial(c, i), DaStore(c, i))
  {
    hide SpecialResult, StoreZ, StoreAt, ReadOperand, Bit, ReadBytes, SlotFrom, Padded;
    ReadOperandFrame(c, i.y, YSize(i.g));
    var (c1, yo) := ReadOperand(c, i.y, YSize(i.g));
    if yo.Some? && !ReservedG(i.g) {
      SpecialResultKeeps(c1, i, yo.value);
      var out := SpecialResult(c1, i, yo.value);
      if out.store {
        StoreZEffect(SetAcc(out.c, i.an, out.res), i.z, yo.value, ZSize(i.g), out.zbits);
      }
    }
  }

  lemma FinishShadow(s: State, i: Insn, addr: word)
    ensures ShadowAfter(s.c, Finish(s, i, addr).0.c, DaStore(s.c, i))
  {
    hide ExecMac, ExecSpecial, ExecCau, LoopBack, Bit, ReadBytes, SlotFrom, Padded, Restore;
    LoopBackKeeps(Exec(s, i).0.c, addr);
    if IsIreturn(i) {
      IreturnShadow(s);
    } else if i.Mac? {
      MacShadow(s.c, i);
    } else if i.Special? {
      SpecialShadow(s.c, i);
    } else {
      ExecCauFrame(s.c, i);
    }
  }

  lemma IreturnShadow(s: State)
    ensures DoIreturn(s).c.shadow == s.c.shadow
  {
  }

  /** One executed instruction extends the history by its moment. */
  lemma ExecMatches(s: State, i: Insn, addr: word, hist: seq<Moment>)
    requires Matches(s.c.shadow, hist, Computer(s.c), 2)
    ensures Matches(Finish(s, i, addr).0.c.shadow, hist + [Moment(s.c.mem, DaStore(s.c, i))], Computer(s.c), 3)
  {
    hide Matches, Finish, DaStore, SlotFrom, Bit, ReadBytes;
    var store := DaStore(s.c, i);
    var m := Moment(s.c.mem, store);
    FinishShadow(s, i, addr);
    match store
    case None => AppendNone(s.c.shadow, hist, m, Computer(s.c));
    case Some(st) =>
      var bs := ReadBytes(s.c.mem, Computer(s.c), st.0, st.1).value;
      FreeEntryExists(s.c.shadow, hist, Computer(s.c));
      ReadLength(s.c.mem, Computer(s.c), st.0, st.1);
      assert Padded(bs)[..st.1] == bs;
      AppendStore(s.c.shadow, hist, m, Computer(s.c), SlotFrom(s.c.shadow, 0, 0), Live(st.0, st.1, 3, Padded(bs)));
  }

  lemma ReadLength(m: Memory, computer: bool, addr: word, n: nat)
    ensures ReadBytes(m, computer, addr, n).Some? ==> |ReadBytes(m, computer, addr, n).value| == n
  {
  }

  // ---------------------------------------------------------------------
  // Slots

  lemma ExecuteSlotShadow(s: State)
    ensures var n := ExecuteSlot(s);
            && !n.Asleep? && !n.Halted?
            && (n.Runs? ==> n.s.c.shadow == AgedShadow(s.c.shadow) && n.s.c.mem == s.c.mem && Computer(n.s.c) == Computer(s.c))
            && (n.Faulted? ==> n.s.c.shadow == s.c.shadow)
  {
    hide MemRead, RawRead, Decode, Aged, Bit;
    if !s.h.irshPending {
      MemReadFrame(s.c.(curInsn := s.c.pc), s.c.pc, 4, true);
      var (c1, w) := MemRead(s.c.(curInsn := s.c.pc), s.c.pc, 4, true);
      if w.Some? {
        var c := LatencyTick(c1.(pc := c1.npc, npc := Wrap(c1.npc + 4)));
        if RawRead(c, c.pc, 4).Some? { } else { }
      }
    }
  }

  lemma RecogniseShadow(s: State)
    ensures var d := Recognise(s).c;
            d.shadow == s.c.shadow && d.mem == s.c.mem && Computer(d) == Computer(s.c)
  {
    hide PendingVector, Interruptible, ShadowedInstruction, Bit;
    if Interruptible(s) && PendingVector(s.c) != 0 { } else { }
  }

  lemma SlotShadow(s: State)
    ensures var n := NextSlot(s);
            && (n.Runs? ==> n.s.c.shadow == AgedShadow(s.c.shadow) && n.s.c.mem == s.c.mem && Computer(n.s.c) == Computer(s.c))
            && (n.Asleep? ==> n.s.c.shadow == AgedShadow(s.c.shadow))
            && (n.Faulted? ==> n.s.c.shadow == s.c.shadow)
  {
    hide PendingVector, Recognise, ExecuteSlot, Aged, Bit;
    if s.c.level != DoubleError {
      var c := PinTick(s.c);
      if c.waiting && PendingVector(c) == 0 {
      } else {
        var c1 := if c.waiting then c.(waiting := false, intDefer := true) else c;
        RecogniseShadow(s.(c := c1));
        ExecuteSlotShadow(Recognise(s.(c := c1)));
      }
    }
  }

  lemma StepMatches(s: State, hist: seq<Moment>)
    requires Matches(s.c.shadow, hist, Computer(s.c), 3)
    ensures Matches(Step(s).0.c.shadow, NextHistory(s, hist), Computer(s.c), 3)
  {
    hide Matches, NextSlot, Finish, DaStore, Bit, AgedShadow;
    SlotShadow(s);
    TickMatches(s.c.shadow, hist, Computer(s.c));
    match NextSlot(s)
    case Runs(s1, i, addr) => ExecMatches(s1, i, addr, hist);
    case Asleep(s1) => AppendNone(AgedShadow(s.c.shadow), hist, Moment(s.c.mem, None), Computer(s.c));
    case _ =>
  }

  /** The map bit holds one value through the run. */
  ghost predicate MapFixed(s: State, reqs: seq<set<int>>, computer: bool) {
    forall k :: 0 <= k <= |reqs| ==> Computer(At(s, reqs, k).c) == computer
  }

  predicate NoStoresPending(s: State) {
    s.c.shadow == [Free, Free, Free, Free]
  }

  lemma MapFixedPrefix(s: State, reqs: seq<set<int>>, computer: bool)
    requires reqs != [] && MapFixed(s, reqs, computer)
    ensures MapFixed(s, reqs[..|reqs| - 1], computer) && Computer(Run(s, reqs[..|reqs| - 1]).c) == computer
  {
    hide Run, Computer;
    var p := reqs[..|reqs| - 1];
    forall k | 0 <= k <= |p| ensures Computer(At(s, p, k).c) == computer {
      assert p[..k] == reqs[..k];
      assert Computer(At(s, reqs, k).c) == computer;
    }
    assert Computer(At(s, reqs, |p|).c) == computer;
  }

  lemma {:induction false} RunMatches(s: State, reqs: seq<set<int>>, computer: bool)
    requires NoStoresPending(s) && MapFixed(s, reqs, computer)
    ensures Matches(Run(s, reqs).c.shadow, History(s, reqs), computer, 3)
  {
    if reqs != [] {
      var k := |reqs| - 1;
      MapFixedPrefix(s, reqs, computer);
      RunMatches(s, reqs[..k], computer);
      var s1 := Request(Run(s, reqs[..k]), reqs[k]);
      assert s1.c.shadow == Run(s, reqs[..k]).c.shadow && Computer(s1.c) == computer;
      hide Matches, Step, MapFixed, Bit, NextHistory;
      StepMatches(s1, History(s, reqs[..k]));
    }
  }

  // ---------------------------------------------------------------------
  // Reads

  lemma LayerUnrolled(sh: Shadow, rem: int, a: word, b: byte)
    ensures Layer(sh, rem, 0, a, b)
            == if Covers(sh[3], rem, a) then sh[3].bytes[Wrap(a - sh[3].addr)]
               else if Covers(sh[2], rem, a) then sh[2].bytes[Wrap(a - sh[2].addr)]
               else if Covers(sh[1], rem, a) then sh[1].bytes[Wrap(a - sh[1].addr)]
               else if Covers(sh[0], rem, a) then sh[0].bytes[Wrap(a - sh[0].addr)]
               else b
  {
    var b0 := if Covers(sh[0], rem, a) then sh[0].bytes[Wrap(a - sh[0].addr)] else b;
    var b1 := if Covers(sh[1], rem, a) then sh[1].bytes[Wrap(a - sh[1].addr)] else b0;
    var b2 := if Covers(sh[2], rem, a) then sh[2].bytes[Wrap(a - sh[2].addr)] else b1;
    var b3 := if Covers(sh[3], rem, a) then sh[3].bytes[Wrap(a - sh[3].addr)] else b2;
    assert Layer(sh, rem, 3, a, b2) == b3;
    assert Layer(sh, rem, 1, a, b0) == Layer(sh, rem, 2, a, b1) == Layer(sh, rem, 3, a, b2);
  }

  /** An entry of the moment's age gives the byte as it was before the store. */
  lemma EntryByte(w: WrEntry, hist: seq<Moment>, computer: bool, rem: nat, a: word)
    requires rem < 3 && HasAge(w, rem) && Records(w, hist, computer, 3 - rem)
    ensures Covers(w, rem, a) == StoredOver(hist, 3 - rem, a)
    ensures Covers(w, rem, a) ==>
              ByteAt(hist[|hist| - (3 - rem)].before, computer, a) == Some(w.bytes[Wrap(a - w.addr)])
  {
    hide ReadBytes, ByteAt;
    if Covers(w, rem, a) {
      var off := Wrap(a - w.addr);
      ReadByteAt(hist[|hist| - (3 - rem)].before, computer, w.addr, w.size, off);
      assert Wrap(w.addr + off) == a;
    }
  }

  lemma EntrySilent(w: WrEntry, rem: nat, a: word)
    requires !HasAge(w, rem)
    ensures !Covers(w, rem, a)
  {
  }

  /** One age of the shadow gives the byte of its moment. */
  lemma LayerIsMoment(sh: Shadow, hist: seq<Moment>, computer: bool, rem: nat, a: word, b: byte)
    requires Matches(sh, hist, computer, 2) && rem <= 3
    ensures rem == 3 || !StoredOver(hist, 3 - rem, a) ==> Layer(sh, rem, 0, a, b) == b
    ensures rem < 3 && StoredOver(hist, 3 - rem, a) ==>
              ByteAt(hist[|hist| - (3 - rem)].before, computer, a) == Some(Layer(sh, rem, 0, a, b))
  {
    LayerUnrolled(sh, rem, a, b);
    hide Layer, Records, ByteAt, StoredOver, HasStore, Covers;
    EntryLayer(sh[0], hist, computer, rem, a);
    EntryLayer(sh[1], hist, computer, rem, a);
    EntryLayer(sh[2], hist, computer, rem, a);
    EntryLayer(sh[3], hist, computer, rem, a);
    if rem < 3 && StoredOver(hist, 3 - rem, a) {
      StoredOverHasStore(hist, 3 - rem, a);
      assert AgeInUse(sh, rem);
    }
  }

  lemma StoredOverHasStore(hist: seq<Moment>, k: nat, a: word)
    requires k >= 1 && StoredOver(hist, k, a)
    ensures HasStore(hist, k)
  {
  }

  lemma EntryLayer(w: WrEntry, hist: seq<Moment>, computer: bool, rem: nat, a: word)
    requires EntryOk(w, hist, computer, 2) && rem <= 3
    ensures Covers(w, rem, a) ==> HasAge(w, rem) && rem < 3
    ensures rem < 3 && HasAge(w, rem) ==> Covers(w, rem, a) == StoredOver(hist, 3 - rem, a)
    ensures Covers(w, rem, a) ==>
              |hist| >= 3 - rem
              && ByteAt(hist[|hist| - (3 - rem)].before, computer, a) == Some(w.bytes[Wrap(a - w.addr)])
  {
    hide Records, ByteAt, StoredOver;
    if HasAge(w, rem) {
      EntryByte(w, hist, computer, rem, a);
      RecordsDepth(w, hist, computer, 3 - rem);
    } else {
      EntrySilent(w, rem, a);
    }
  }

  lemma RecordsDepth(w: WrEntry, hist: seq<Moment>, computer: bool, k: nat)
    requires k >= 1 && Records(w, hist, computer, k)
    ensures |hist| >= k
  {
  }

  lemma WrapSteps(addr: word, k: nat)
    ensures k > 0 ==> Wrap(Wrap(addr + 1) + (k - 1)) == Wrap(addr + k)
    ensures k == 0 ==> Wrap(addr + k) == addr
  {
  }

  lemma {:induction false} ReadByteAt(m: Memory, computer: bool, addr: word, n: nat, k: nat)
    requires k < n && ReadBytes(m, computer, addr, n).Some?
    ensures ByteAt(m, computer, Wrap(addr + k)) == Some(ReadBytes(m, computer, addr, n).value[k])
    decreases n
  {
    hide Wrap, ByteAt;
    WrapSteps(addr, k);
    if k > 0 {
      ReadByteAt(m, computer, Wrap(addr + 1), n - 1, k - 1);
    }
  }

  /** The overlay is the history. */
  lemma OverlayIsHistory(sh: Shadow, hist: seq<Moment>, computer: bool, a: word, now: byte)
    requires Matches(sh, hist, computer, 2)
    ensures HistoryByte(hist, computer, a, now) == Some(OverlaidByte(sh, a, now))
  {
    hide Matches, Layer, ByteAt, StoredOver;
    var b3 := Layer(sh, 3, 0, a, now);
    var b2 := Layer(sh, 2, 0, a, b3);
    var b1 := Layer(sh, 1, 0, a, b2);
    LayerIsMoment(sh, hist, computer, 3, a, now);
    LayerIsMoment(sh, hist, computer, 2, a, b3);
    LayerIsMoment(sh, hist, computer, 1, a, b2);
    LayerIsMoment(sh, hist, computer, 0, a, b1);
  }

  /** d has the memory and shadow the instruction of the last slot starts with. */
  predicate DuringLastSlot(s: State, reqs: seq<set<int>>, d: Core) {
    reqs != [] &&
    var k := |reqs| - 1;
    var slot := NextSlot(Request(Run(s, reqs[..k]), reqs[k]));
    slot.Runs? && SameStore(slot.s.c, d)
  }

  function EarlierHistory(s: State, reqs: seq<set<int>>): seq<Moment>
    requires reqs != []
  {
    History(s, reqs[..|reqs| - 1])
  }

  lemma RunningMatches(s: State, reqs: seq<set<int>>, computer: bool, d: Core)
    requires DuringLastSlot(s, reqs, d) && NoStoresPending(s)
    requires MapFixed(s, reqs[..|reqs| - 1], computer)
    ensures Matches(d.shadow, EarlierHistory(s, reqs), computer, 2)
  {
    hide Matches, Run, NextSlot, History, MapFixed, Bit, AgedShadow;
    var k := |reqs| - 1;
    var s0 := Run(s, reqs[..k]);
    var s1 := Request(s0, reqs[k]);
    assert s1.c.shadow == s0.c.shadow;
    RunMatches(s, reqs[..k], computer);
    SlotShadow(s1);
    TickMatches(s0.c.shadow, History(s, reqs[..k]), computer);
  }

  /** v is assembled from the bytes at the aligned address, each replaced by the
      history's. */
  ghost predicate FollowsHistory(d: Core, hist: seq<Moment>, addr: word, size: Size, v: word) {
    var a := AlignDown(addr, size);
    var now := ReadBytes(d.mem, Computer(d), a, size);
    && now.Some?
    && v == JoinWord(Overlaid(d.shadow, a, now.value), BigEndian(d))
    && forall i :: 0 <= i < size ==>
         HistoryByte(hist, Computer(d), Wrap(a + i), now.value[i]) == Some(Overlaid(d.shadow, a, now.value)[i])
  }

  lemma OverlaidFollows(d: Core, hist: seq<Moment>, addr: word, size: Size)
    requires Matches(d.shadow, hist, Computer(d), 2)
    requires MemRead(d, addr, size, false).1.Some?
    ensures FollowsHistory(d, hist, addr, size, MemRead(d, addr, size, false).1.value)
  {
    hide Matches, MemRead, HistoryByte, OverlaidByte, Bit, ReadBytes, JoinWord;
    ReadValue(d, addr, size);
    var a := AlignDown(addr, size);
    var now := ReadBytes(d.mem, Computer(d), a, size).value;
    forall i | 0 <= i < size
      ensures HistoryByte(hist, Computer(d), Wrap(a + i), now[i]) == Some(Overlaid(d.shadow, a, now)[i])
    {
      OverlaidAt(d.shadow, a, now, i);
      OverlayIsHistory(d.shadow, hist, Computer(d), Wrap(a + i), now[i]);
    }
  }

  /** Every data read of the running instruction, before its own store, returns
      memory as the history tells it. */
  lemma ReadSeesHistory(s: State, reqs: seq<set<int>>, d: Core, addr: word, size: Size)
    requires DuringLastSlot(s, reqs, d) && NoStoresPending(s)
    requires MapFixed(s, reqs[..|reqs| - 1], Computer(d))
    requires MemRead(d, addr, size, false).1.Some?
    ensures FollowsHistory(d, EarlierHistory(s, reqs), addr, size, MemRead(d, addr, size, false).1.value)
  {
    assert reqs != [];
    hide *;
    RunningMatches(s, reqs, Computer(d), d);
    OverlaidFollows(d, EarlierHistory(s, reqs), addr, size);
  }

  /** What a memory operand delivered is memory as the history tells it. */
  ghost predicate OperandFollows(c: Core, f: Field7, size: Size, hist: seq<Moment>) {
    var o := ReadOperand(c, f, size).1;
    o.Some? && o.value.MemOperand? ==> FollowsHistory(c, hist, o.value.ea, size, o.value.raw)
  }

  ghost predicate LoadFollows(c: Core, addr: word, size: Size, hist: seq<Moment>) {
    var v := MemRead(c, addr, size, false).1;
    v.Some? ==> FollowsHistory(c, hist, addr, size, v.value)
  }

  /** The reads instructions make: both operands of a multiply-accumulate, the
      operand of a special function, and the loads. */
  ghost predicate ReadsFollow(c: Core, i: Insn, hist: seq<Moment>) {
    match i
    case Mac(_, _, _, _, _, x, y, _) =>
      OperandFollows(c, x, 4, hist) && OperandFollows(ReadOperand(c, x, 4).0, y, 4, hist)
    case Special(g, _, y, _) => OperandFollows(c, y, YSize(g), hist)
    case MoveInd(_, t, wsz, _, rp, _) => t || LoadFollows(c, Opval(c, rp), MoveSize(wsz), hist)
    case MoveDirect(t, wsz, _, l) =>
      t || LoadFollows(c, (if Computer(c) then 0 else 0x5003_0000) + l, MoveSize(wsz), hist)
    case _ => true
  }

  /** They all follow the history. */
  lemma InstructionReads(s: State, reqs: seq<set<int>>, n: Slot)
    requires reqs != [] && n == NextSlot(Request(Run(s, reqs[..|reqs| - 1]), reqs[|reqs| - 1])) && n.Runs?
    requires NoStoresPending(s) && MapFixed(s, reqs[..|reqs| - 1], Computer(n.s.c))
    ensures ReadsFollow(n.s.c, n.insn, EarlierHistory(s, reqs))
  {
    assert DuringLastSlot(s, reqs, n.s.c);
    hide *;
    InsnReads(s, reqs, n.s.c, n.insn);
  }

  lemma InsnReads(s: State, reqs: seq<set<int>>, c: Core, i: Insn)
    requires reqs != [] && DuringLastSlot(s, reqs, c) && NoStoresPending(s)
    requires MapFixed(s, reqs[..|reqs| - 1], Computer(c))
    ensures ReadsFollow(c, i, EarlierHistory(s, reqs))
  {
    hide NextSlot, Run, MapFixed, OperandFollows, LoadFollows, ReadOperand, Computer, Opval, MoveSize, NoStoresPending,
         DuringLastSlot, EarlierHistory;
    match i
    case Mac(_, _, _, _, _, x, y, _) =>
      OperandSeesHistory(s, reqs, c, x, 4);
      AfterX(s, reqs, c, x);
      OperandSeesHistory(s, reqs, ReadOperand(c, x, 4).0, y, 4);
    case Special(g, _, y, _) => OperandSeesHistory(s, reqs, c, y, YSize(g));
    case MoveInd(_, t, wsz, _, rp, _) => LoadSeesHistory(s, reqs, c, Opval(c, rp), MoveSize(wsz));
    case MoveDirect(t, wsz, _, l) =>
      LoadSeesHistory(s, reqs, c, (if Computer(c) then 0 else 0x5003_0000) + l, MoveSize(wsz));
    case _ =>
  }

  lemma AfterX(s: State, reqs: seq<set<int>>, c: Core, x: Field7)
    requires DuringLastSlot(s, reqs, c)
    ensures DuringLastSlot(s, reqs, ReadOperand(c, x, 4).0) && Computer(ReadOperand(c, x, 4).0) == Computer(c)
  {
    ReadOperandFrame(c, x, 4);
    hide NextSlot, Run, ReadOperand, Bit;
  }

  lemma LoadSeesHistory(s: State, reqs: seq<set<int>>, d: Core, addr: word, size: Size)
    requires DuringLastSlot(s, reqs, d) && NoStoresPending(s)
    requires MapFixed(s, reqs[..|reqs| - 1], Computer(d))
    ensures LoadFollows(d, addr, size, EarlierHistory(s, reqs))
  {
    assert reqs != [];
    hide DuringLastSlot, MapFixed, MemRead, FollowsHistory, Bit, NoStoresPending;
    if MemRead(d, addr, size, false).1.Some? { ReadSeesHistory(s, reqs, d, addr, size); }
  }

  lemma OperandSeesHistory(s: State, reqs: seq<set<int>>, d: Core, f: Field7, size: Size)
    requires DuringLastSlot(s, reqs, d) && NoStoresPending(s)
    requires MapFixed(s, reqs[..|reqs| - 1], Computer(d))
    ensures OperandFollows(d, f, size, EarlierHistory(s, reqs))
  {
    assert reqs != [];
    hide *;
    if 1 <= f / 8 <= 14 { LoadSeesHistory(s, reqs, d, d.r[f / 8], size); }
    OperandFrom(d, f, size, EarlierHistory(s, reqs));
  }

  lemma OperandFrom(d: Core, f: Field7, size: Size, hist: seq<Moment>)
    requires 1 <= f / 8 <= 14 ==> LoadFollows(d, d.r[f / 8], size, hist)
    ensures OperandFollows(d, f, size, hist)
  {
    hide MemRead, FollowsHistory, Postmod, Pack;
  }

  lemma OverlaidAt(sh: Shadow, addr: word, bs: seq<byte>, i: nat)
    requires i < |bs|
    ensures Overlaid(sh, addr, bs)[i] == OverlaidByte(sh, Wrap(addr + i), bs[i])
  {
    hide OverlaidByte;
  }

  /** The running instruction's own store always finds a free entry: eviction
      never happens on any run. */
  lemma RunNeverEvicts(s: State, reqs: seq<set<int>>, computer: bool, d: Core)
    requires DuringLastSlot(s, reqs, d) && NoStoresPending(s)
    requires MapFixed(s, reqs[..|reqs| - 1], computer)
    ensures d.shadow[SlotFrom(d.shadow, 0, 0)].Free?
  {
    assert reqs != [];
    hide *;
    RunningMatches(s, reqs, computer, d);
    FreeEntryExists(d.shadow, EarlierHistory(s, reqs), computer);
  }

  lemma ReadValue(d: Core, addr: word, size: Size)
    requires MemRead(d, addr, size, false).1.Some?
    ensures var now := ReadBytes(d.mem, Computer(d), AlignDown(addr, size), size);
            now.Some? && MemRead(d, addr, size, false).1
                         == Some(JoinWord(Overlaid(d.shadow, AlignDown(addr, size), now.value), BigEndian(d)))
  {
    CheckAlignedFrame(d, addr, size);
    hide CheckAligned, TakeError, Overlaid, JoinWord, Bit;
  }
}
