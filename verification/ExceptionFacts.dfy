/** Exceptions and interrupts: where they go and what they leave. */
module ExceptionFacts {
  import opened Words
  import opened Core
  import opened Machine
  import opened Interrupts
  import opened Modes

  /** Vectors are eight bytes apart from the address in r22. */
  function VectorAddress(c: Core, vn: nat): word {
    (c.r[22] + 8 * vn) % 0x1_0000_0000
  }

  /** d is c dispatched to error vector vn. */
  predicate Dispatched(c: Core, d: Core, vn: nat) {
    && d.pc == VectorAddress(c, vn) && d.npc == (VectorAddress(c, vn) + 4) % 0x1_0000_0000
    && d.r == c.r[20 := (c.curInsn + 8) % 0x1_0000_0000]
    && d.level == Error && d.errNonmaskable == (vn < 4) && !d.waiting && d.loop == c.loop.(active := false)
    && !d.pcwLocked && (forall k: nat :: k < 16 ==> Bit(d.pcw, k) == (Bit(c.pcw, k) && k != 13))
    && d == c.(pc := d.pc, npc := d.npc, r := d.r, level := d.level, errNonmaskable := d.errNonmaskable,
               waiting := d.waiting, loop := d.loop, pcwLocked := d.pcwLocked, pcw := d.pcw)
  }

  lemma ClearedBits(x: half, k: nat)
    requires k < 16
    ensures Bit(ClearBit13(x), k) == (Bit(x, k) && k != 13)
  {
    var low, mid, high := x % 0x2000, x / 0x2000 % 2, x / 0x4000;
    ThreeFields(x);
    hide ClearBit13, Bit;
    FieldBit(low, mid + 2 * high, k);
    FieldBit(low, 2 * high, k);
    if k >= 13 { UpperBits(mid, high, k - 13); }
  }

  lemma ThreeFields(x: half)
    ensures var low, mid, high := x % 0x2000, x / 0x2000 % 2, x / 0x4000;
            x == low + 0x2000 * (mid + 2 * high) && ClearBit13(x) == low + 0x2000 * (2 * high)
  {
  }

  lemma UpperBits(mid: nat, high: nat, j: nat)
    requires mid <= 1
    ensures Bit(2 * high, j) == (Bit(mid + 2 * high, j) && j != 0)
  {
    HalfOf(mid, high);
    HalfOf(0, high);
    hide Bit;
    if j > 0 {
      BitOfHalf(mid + 2 * high, j);
      BitOfHalf(2 * high, j);
    } else {
      BitZero(2 * high);
    }
  }

  /** Thirteen bits below and the rest above. */
  lemma FieldBit(low: nat, rest: nat, k: nat)
    requires low < 0x2000
    ensures Bit(low + 0x2000 * rest, k) == if k < 13 then Bit(low, k) else Bit(rest, k - 13)
  {
    var x := low + 0x2000 * rest;
    assert Pow2(13) == 0x2000;
    DivUnique(x, 0x2000, rest, low);
    hide Pow2;
    if k < 13 {
      LowField(x, k);
      LowField(low, k);
      assert low % 0x2000 == low;
    } else {
      ShiftShift(x, 13, k - 13);
    }
  }

  lemma LowField(x: nat, k: nat)
    requires k < 13
    ensures Bit(x, k) == Bit(x % 0x2000, k)
  {
    assert Pow2(13) == 0x2000;
    hide Pow2, Bit;
    LowBit(x, 13, k);
  }

  lemma AbortDispatches(c: Core, vn: nat)
    ensures Dispatched(c, Abort(c, vn), vn)
  {
    forall k: nat | k < 16 ensures Bit(Abort(c, vn).pcw, k) == (Bit(c.pcw, k) && k != 13) {
      ClearedBits(c.pcw, k);
      hide Bit, ClearBit13;
    }
    hide Bit, ClearBit13;
  }

  /** An exception is ignored when masked, or when maskable at error level; a
      non-maskable one during another is a double error; and every other one is
      dispatched. */
  lemma ErrorMeans(c: Core, vn: nat)
    ensures var (d, taken) := TakeError(c, vn);
            if vn >= 4 && (!Bit(c.emr, vn) || c.level == Error) && c.level != DoubleError then d == c && !taken
            else if vn >= 4 && !Bit(c.emr, vn) then d == c && !taken
            else if c.level == DoubleError then d == c && taken
            else if c.level == Error && c.errNonmaskable then d == c.(level := DoubleError) && taken
            else Dispatched(c, d, vn) && taken
  {
    AbortDispatches(c, vn);
    hide Bit, Abort, Dispatched;
  }

  // ---------------------------------------------------------------------
  // Interrupts

  predicate Wanted(c: Core, vn: nat) {
    vn in c.pending && Bit(c.emr, vn)
  }

  lemma {:induction false} FirstWanted(c: Core, vn: nat)
    requires 8 <= vn <= 16
    ensures var r := PendingFrom(c, vn);
            && (r == 0 <==> forall k: nat :: vn <= k < 16 ==> !Wanted(c, k))
            && (r != 0 ==> vn <= r < 16 && Wanted(c, r) && forall k: nat :: vn <= k < r ==> !Wanted(c, k))
    decreases 16 - vn
  {
    hide Bit;
    if vn < 16 {
      if Wanted(c, vn) { } else { FirstWanted(c, vn + 1); }
    }
  }

  /** The vector taken is the lowest-numbered request that is enabled; no interrupt
      without one. */
  lemma PriorityMeans(c: Core)
    ensures var r := PendingVector(c);
            && (r == 0 <==> forall k: nat :: 8 <= k < 16 ==> !Wanted(c, k))
            && (r != 0 ==> 8 <= r < 16 && Wanted(c, r) && forall k: nat :: 8 <= k < r ==> !Wanted(c, k))
  {
    FirstWanted(c, 8);
    hide PendingFrom;
  }

  /** Entry: control at the vector, pcsh behind the interrupted instruction, the
      request withdrawn, loops suspended, interrupt level. */
  lemma EntryMeans(s: State)
    requires Interrupted(s)
    ensures var e := Recognise(s.(c := PinTick(s.c)));
            && e.c.pc == VectorAddress(s.c, Vector(s)) && e.c.npc == (VectorAddress(s.c, Vector(s)) + 4) % 0x1_0000_0000
            && e.c.pcsh == (s.c.pc + 4) % 0x1_0000_0000 && e.c.pending == s.c.pending - {Vector(s)}
            && e.c.level == Interrupt && e.c.loop == s.c.loop.(active := false)
            && e.c.r == s.c.r && e.c.mem == s.c.mem && e.c.acc == s.c.acc && e.c.pipe == s.c.pipe
  {
    hide PendingFrom, ShadowedInstruction;
  }
}
