/** What the control arithmetic unit computes, in integers and bits. */
module AluMeaning {
  import opened Words
  import opened Dau
  import opened Insn
  import opened Core
  import opened Cau
  import opened Machine
  import opened Registers
  import AluFacts

  // ---------------------------------------------------------------------
  // Results

  function Modulus(w16: bool): nat { if w16 then 0x1_0000 else 0x1_0000_0000 }

  /** The signed reading of the part of a word an operation works on. */
  function SignedPart(x: word, w16: bool): int {
    var y := x % Modulus(w16);
    if y < Modulus(w16) / 2 then y else y - Modulus(w16)
  }

  /** res holds x: as it is, or in short mode sign-extended. */
  predicate HoldsPart(res: word, x: int, w16: bool) {
    res == if w16 && x >= 0x8000 then x + 0xFFFF_0000 else x
  }

  /** Each bit of res is op of the operands' bits, the sign repeated in short mode. */
  predicate BitsAre(res: word, op: (bool, bool) -> bool, a: word, b: word, w16: bool) {
    && (forall i: nat :: i < (if w16 then 16 else 32) ==> Bit(res, i) == op(Bit(a, i), Bit(b, i)))
    && (w16 ==> res < 0x8000 || res >= 0xFFFF_8000)
  }

  function CarryIn(cin: bool): nat { if cin then 1 else 0 }

  /** The value function code f leaves for operands a and b. */
  predicate AluResult(f: U4, a: word, b: word, w16: bool, cin: bool, res: word) {
    var m := Modulus(w16);
    match f
    case 0 => HoldsPart(res, (a + b) % m, w16)
    case 1 => res == a * Pow2(b % 32) % m
    case 2 => HoldsPart(res, (b - a) % m, w16)
    case 3 => HoldsPart(res, res % m, w16)
              && BitRev(res % m, if w16 then 16 else 32) == ReverseSum(a, b, w16) % m
    case 4 => HoldsPart(res, (a - b) % m, w16)
    case 6 => BitsAre(res, (p, q) => p && !q, a, b, w16)
    case 8 => BitsAre(res, (p, q) => p != q, a, b, w16)
    case 9 => HoldsPart(res, a % m / 2 + (if cin then m / 2 else 0), w16)
    case 10 => BitsAre(res, (p, q) => p || q, a, b, w16)
    case 11 => HoldsPart(res, (2 * a + CarryIn(cin)) % m, w16)
    case 12 => res == a % m / Pow2(b % 32)
    case 13 => Signed32(res) == SignedPart(a, w16) / Pow2(b % 32)
    case 14 => BitsAre(res, (p, q) => p && q, a, b, w16)
    case _ => true
  }

  /** Compare, bit test and the reserved function store nothing. */
  predicate Stores(f: U4) { f != 5 && f != 7 && f != 15 }

  function ReverseSum(a: word, b: word, w16: bool): nat {
    var n := if w16 then 16 else 32;
    BitRev(a % Modulus(w16), n) + BitRev(b % Modulus(w16), n)
  }

  // ---------------------------------------------------------------------
  // Flags

  predicate OutOfRange(x: int, w16: bool) {
    !(-(Modulus(w16) / 2) <= x < Modulus(w16) / 2)
  }

  /** Carry and overflow of a + b + cin. */
  predicate AddFlags(g: CauFlags, a: word, b: word, cin: nat, w16: bool) {
    var m := Modulus(w16);
    && g.c == (a % m + b % m + cin >= m)
    && g.v == OutOfRange(SignedPart(a, w16) + SignedPart(b, w16) + cin, w16)
  }

  /** Borrow and overflow of a - b. */
  predicate SubFlags(g: CauFlags, a: word, b: word, w16: bool) {
    var m := Modulus(w16);
    g.c == (a % m < b % m) && g.v == OutOfRange(SignedPart(a, w16) - SignedPart(b, w16), w16)
  }

  /** n and z of the 16 or 32 bits x. */
  predicate SignAndZero(g: CauFlags, x: int, w16: bool) {
    g.n == (x >= Modulus(w16) / 2) && g.z == (x == 0)
  }

  predicate CarryAndOverflow(f: U4, a: word, b: word, w16: bool, cin: bool, g: CauFlags) {
    match f
    case 0 => AddFlags(g, a, b, 0, w16)
    case 2 => SubFlags(g, b, a, w16)
    case 3 => !g.v && g.c == (ReverseSum(a, b, w16) >= Modulus(w16))
    case 4 => SubFlags(g, a, b, w16)
    case 7 => SubFlags(g, a, b, w16)
    case 9 => !g.v && g.c == (a % 2 == 1)
    case 11 => AddFlags(g, a, a, CarryIn(cin), w16)
    case _ => !g.v && !g.c
  }

  /** n and z tell the stored result; for compare the difference, for the bit
      test the common bits. */
  predicate ResultFlags(f: U4, a: word, b: word, w16: bool, res: word, g: CauFlags) {
    var m := Modulus(w16);
    if f == 7 then SignAndZero(g, (a - b) % m, w16)
    else if f == 15 then
      var n := if w16 then 16 else 32;
      && g.n == (Bit(a, n - 1) && Bit(b, n - 1))
      && g.z == (forall i: nat :: i < n ==> !(Bit(a, i) && Bit(b, i)))
    else SignAndZero(g, res % m, w16)
  }

  // ---------------------------------------------------------------------
  // The unit

  /** An ALU output that means what the function code says. */
  predicate Means(o: AluOut, f: U4, a: word, b: word, w16: bool, cur: CauFlags) {
    && o.store == Stores(f)
    && (Stores(f) ==> AluResult(f, a, b, w16, cur.c, o.res))
    && (f == 5 ==> o.flags == cur)
    && (f != 5 ==> CarryAndOverflow(f, a, b, w16, cur.c, o.flags) && ResultFlags(f, a, b, w16, o.res, o.flags))
  }

  lemma SextHolds(x: int, w16: bool)
    requires w16
    ensures HoldsPart(Sext16(x), x % 0x1_0000, w16) && Sext16(x) % 0x1_0000 == x % 0x1_0000
    ensures Msb(Sext16(x)) == (x % 0x1_0000 >= 0x8000)
  {
  }

  lemma Bit15Is(x: int)
    ensures Bit15(x) == (x % 0x1_0000 >= 0x8000)
  {
  }

  /** The predicates look at low halves only. */
  lemma ShortPart(a: word)
    ensures SignedPart(a, true) == SignedPart(a % 0x1_0000, true) && a % 0x1_0000 % 0x1_0000 == a % 0x1_0000
  {
  }

  lemma LowSum(a: word, b: word, c: int)
    ensures (a + b + c) % 0x1_0000 == (a % 0x1_0000 + b % 0x1_0000 + c) % 0x1_0000
    ensures (a - b) % 0x1_0000 == (a % 0x1_0000 - b % 0x1_0000) % 0x1_0000
  {
    var qa, qb := a / 0x1_0000, b / 0x1_0000;
    LowOf(a % 0x1_0000 + b % 0x1_0000 + c, qa + qb);
    LowOf(a % 0x1_0000 - b % 0x1_0000, qa - qb);
  }

  lemma LowOf(x: int, k: int)
    ensures (x + 0x1_0000 * k) % 0x1_0000 == x % 0x1_0000
  {
    DivUnique(x + 0x1_0000 * k, 0x1_0000, x / 0x1_0000 + k, x % 0x1_0000);
  }

  lemma AddMeans(a: word, b: word, cin: nat, w16: bool)
    requires cin <= 1
    ensures var o := AluAdd(a, b, cin, w16);
            && o.store && HoldsPart(o.res, (a + b + cin) % Modulus(w16), w16)
            && AddFlags(o.flags, a, b, cin, w16) && SignAndZero(o.flags, o.res % Modulus(w16), w16)
  {
    assert Modulus(true) == 0x1_0000 && Modulus(false) == 0x1_0000_0000;
    hide *;
    if w16 {
      AddMeansShort(a % 0x1_0000, b % 0x1_0000, cin);
      LowSum(a, b, cin);
      FlagsLow(AluAdd(a, b, cin, w16).flags, a, b, cin);
      AddsLow(a, b, cin);
    } else {
      AddMeansLong(a, b, cin);
      SmallPart(AluAdd(a, b, cin, false).res);
    }
  }

  lemma AddMeansLong(a: word, b: word, cin: nat)
    requires cin <= 1
    ensures var o := AluAdd(a, b, cin, false);
            && o.store && HoldsPart(o.res, (a + b + cin) % 0x1_0000_0000, false)
            && AddFlags(o.flags, a, b, cin, false) && SignAndZero(o.flags, o.res, false)
  {
    var sum := a + b + cin;
    assert Wrap(sum) == sum % 0x1_0000_0000 == if sum >= 0x1_0000_0000 then sum - 0x1_0000_0000 else sum;
    assert (sum / 0x1_0000_0000 % 2 == 1) == (sum >= 0x1_0000_0000);
    LongPart(a);
    LongPart(b);
    hide SignedPart, Wrap;
  }

  lemma LongPart(a: word)
    ensures SignedPart(a, false) == (if Msb(a) then a - 0x1_0000_0000 else a) && a % Modulus(false) == a
  {
  }

  lemma FlagsLow(g: CauFlags, a: word, b: word, cin: nat)
    ensures AddFlags(g, a, b, cin, true) == AddFlags(g, a % 0x1_0000, b % 0x1_0000, cin, true)
    ensures SubFlags(g, a, b, true) == SubFlags(g, a % 0x1_0000, b % 0x1_0000, true)
  {
    ShortPart(a);
    ShortPart(b);
    hide SignedPart, OutOfRange;
  }

  /** Short additions look at the low halves. */
  lemma AddsLow(a: word, b: word, cin: nat)
    requires cin <= 1
    ensures AluAdd(a, b, cin, true) == AluAdd(a % 0x1_0000, b % 0x1_0000, cin, true)
  {
    hide Sext16, Bit15, Msb;
  }

  lemma SubtractsLow(a: word, b: word)
    ensures AluSub(a, b, true) == AluSub(a % 0x1_0000, b % 0x1_0000, true)
  {
    hide Sext16, Bit15, Msb, Wrap;
  }

  lemma AddMeansShort(ua: half, ub: half, cin: nat)
    requires cin <= 1
    ensures var o := AluAdd(ua, ub, cin, true);
            && o.store && HoldsPart(o.res, (ua + ub + cin) % 0x1_0000, true)
            && AddFlags(o.flags, ua, ub, cin, true) && SignAndZero(o.flags, o.res % 0x1_0000, true)
  {
    ShortAddition(ua, ub, cin);
    assert ua % 0x1_0000 == ua && ub % 0x1_0000 == ub;
    hide Sext16, Bit15, HoldsPart, Msb, OutOfRange, SignedPart;
  }

  lemma ShortAddition(ua: half, ub: half, cin: nat)
    requires cin <= 1
    ensures var sum := ua + ub + cin;
            && HoldsPart(Sext16(sum), sum % 0x1_0000, true) && Msb(Sext16(sum)) == (sum % 0x1_0000 >= 0x8000)
            && Sext16(sum) % 0x1_0000 == sum % 0x1_0000
            && (sum / 0x1_0000 % 2 == 1) == (sum >= 0x1_0000)
            && (Bit15(ua) == Bit15(ub) && Bit15(ua) != Bit15(sum))
               == OutOfRange(SignedPart(ua, true) + SignedPart(ub, true) + cin, true)
  {
    var sum := ua + ub + cin;
    SextHolds(sum, true);
    Bit15Is(ua);
    Bit15Is(ub);
    Bit15Is(sum);
    hide Sext16, Bit15;
  }

  lemma SubMeans(a: word, b: word, w16: bool)
    ensures var o := AluSub(a, b, w16);
            && o.store && HoldsPart(o.res, (a - b) % Modulus(w16), w16)
            && SubFlags(o.flags, a, b, w16) && SignAndZero(o.flags, (a - b) % Modulus(w16), w16)
            && o.res % Modulus(w16) == (a - b) % Modulus(w16)
  {
    assert Modulus(true) == 0x1_0000 && Modulus(false) == 0x1_0000_0000;
    hide *;
    if w16 {
      SubMeansShort(a % 0x1_0000, b % 0x1_0000);
      LowSum(a, b, 0);
      FlagsLow(AluSub(a, b, w16).flags, a, b, 0);
      SubtractsLow(a, b);
    } else {
      SubMeansLong(a, b);
      SmallPart(AluSub(a, b, false).res);
    }
  }

  lemma SmallPart(x: word)
    ensures x % 0x1_0000_0000 == x
  {
  }

  lemma SubMeansLong(a: word, b: word)
    ensures var o := AluSub(a, b, false);
            && o.store && HoldsPart(o.res, (a - b) % 0x1_0000_0000, false)
            && SubFlags(o.flags, a, b, false) && SignAndZero(o.flags, (a - b) % 0x1_0000_0000, false)
            && o.res == (a - b) % 0x1_0000_0000
  {
    assert Wrap(a - b) == (a - b) % 0x1_0000_0000 == if a < b then a - b + 0x1_0000_0000 else a - b;
    LongPart(a);
    LongPart(b);
    hide SignedPart, Wrap;
  }

  lemma SubMeansShort(ua: half, ub: half)
    ensures var o := AluSub(ua, ub, true);
            && o.store && HoldsPart(o.res, (ua - ub) % 0x1_0000, true)
            && SubFlags(o.flags, ua, ub, true) && SignAndZero(o.flags, (ua - ub) % 0x1_0000, true)
            && o.res % 0x1_0000 == (ua - ub) % 0x1_0000
  {
    ShortSubtraction(ua, ub);
    assert ua % 0x1_0000 == ua && ub % 0x1_0000 == ub;
    hide Sext16, Bit15, HoldsPart, Msb, OutOfRange, SignedPart, Wrap;
  }

  lemma ShortSubtraction(ua: half, ub: half)
    ensures var diff := Wrap(ua - ub);
            && HoldsPart(Sext16(diff), (ua - ub) % 0x1_0000, true) && Sext16(diff) % 0x1_0000 == (ua - ub) % 0x1_0000
            && Msb(Sext16(diff)) == ((ua - ub) % 0x1_0000 >= 0x8000)
            && (diff % 0x1_0000 == 0) == ((ua - ub) % 0x1_0000 == 0)
            && (Bit15(ua) != Bit15(ub) && Bit15(ua) != Bit15(diff))
               == OutOfRange(SignedPart(ua, true) - SignedPart(ub, true), true)
  {
    var diff := Wrap(ua - ub);
    var d := if ua >= ub then ua - ub else ua - ub + 0x1_0000;
    assert diff % 0x1_0000 == d && (ua - ub) % 0x1_0000 == d;
    hide *;
    SextHolds(diff, true);
    Bit15Is(diff);
    ShortOverflow(ua, ub, d);
  }

  /** Differing signs, and the difference of neither: the textbook overflow. */
  lemma ShortOverflow(ua: half, ub: half, d: half)
    requires d == if ua >= ub then ua - ub else ua - ub + 0x1_0000
    ensures (Bit15(ua) != Bit15(ub) && Bit15(ua) != (d >= 0x8000))
            == OutOfRange(SignedPart(ua, true) - SignedPart(ub, true), true)
  {
    Bit15Is(ua);
    Bit15Is(ub);
    assert ua % 0x1_0000 == ua && ub % 0x1_0000 == ub;
    hide Bit15;
  }

  // Bits

  lemma LogicMeans(x: word, op: (bool, bool) -> bool, a: word, b: word, w16: bool)
    requires forall i: nat :: i < 32 ==> Bit(x, i) == op(Bit(a, i), Bit(b, i))
    ensures var o := Logic(x, w16);
            && o.store && BitsAre(o.res, op, a, b, w16) && !o.flags.v && !o.flags.c
            && SignAndZero(o.flags, o.res % Modulus(w16), w16)
  {
    if w16 {
      SextHolds(x, true);
      Bit15Is(Sext16(x));
      Pow2Constants();
      forall i: nat | i < 16 ensures Bit(Sext16(x), i) == op(Bit(a, i), Bit(b, i)) {
        LowBit(x, 16, i);
        LowBit(Sext16(x), 16, i);
      }
      hide Sext16, Bit15, Bit, Pow2;
    }
  }

  lemma {:induction false} NoBits(x: nat, n: nat)
    requires x < Pow2(n)
    ensures x == 0 <==> forall i: nat :: i < n ==> !Bit(x, i)
  {
    if n > 0 {
      assert Pow2(n) == 2 * Pow2(n - 1);
      NoBits(x / 2, n - 1);
      forall i: nat | i < n && i > 0 ensures Bit(x, i) == Bit(x / 2, i - 1) { BitOfHalf(x, i); }
      assert Bit(x, 0) == (x % 2 == 1);
      if x / 2 != 0 {
        var i: nat :| i < n - 1 && Bit(x / 2, i);
        assert Bit(x, i + 1);
      }
    }
  }

  lemma TopBit(x: word, w16: bool)
    ensures Bit(x, (if w16 then 16 else 32) - 1) == (x % Modulus(w16) >= Modulus(w16) / 2)
  {
    Pow2Constants();
    hide Pow2;
  }

  lemma CommonBits(a: word, b: word, w16: bool)
    ensures var n := if w16 then 16 else 32;
            And(a, b) % Modulus(w16) == 0 <==> forall i: nat :: i < n ==> !(Bit(a, i) && Bit(b, i))
  {
    var x, n := And(a, b), if w16 then 16 else 32;
    assert Modulus(w16) == Pow2(n) by { Pow2Constants(); }
    hide And, Bit, Pow2, Modulus;
    NoBits(x % Pow2(n), n);
    forall i: nat | i < n ensures Bit(x % Pow2(n), i) == (Bit(a, i) && Bit(b, i)) {
      LogicBits(a, b, i);
      LowBit(x, n, i);
    }
  }

  lemma BitTestMeans(a: word, b: word, w16: bool)
    ensures ResultFlags(15, a, b, w16, 0, FlagsNz(And(a, b), w16))
  {
    hide *;
    var n := if w16 then 16 else 32;
    LogicBits(a, b, n - 1);
    TopBit(And(a, b), w16);
    CommonBits(a, b, w16);
    NzFlags(And(a, b), w16);
    BitTestFrom(a, b, w16, FlagsNz(And(a, b), w16));
  }

  lemma NzFlags(x: word, w16: bool)
    ensures SignAndZero(FlagsNz(x, w16), x % Modulus(w16), w16) && !FlagsNz(x, w16).v && !FlagsNz(x, w16).c
  {
    Bit15Is(x);
    hide Bit15;
  }

  lemma BitTestFrom(a: word, b: word, w16: bool, g: CauFlags)
    requires var x, n := And(a, b), if w16 then 16 else 32;
             && SignAndZero(g, x % Modulus(w16), w16)
             && (Bit(a, n - 1) && Bit(b, n - 1)) == (x % Modulus(w16) >= Modulus(w16) / 2)
             && ((x % Modulus(w16) == 0) <==> forall i: nat :: i < n ==> !(Bit(a, i) && Bit(b, i)))
    ensures ResultFlags(15, a, b, w16, 0, g)
  {
    hide And, Bit, Modulus;
  }

  // Shifts and rotates

  /** A shift's output and the flags of its bits. */
  predicate ShiftMeans(o: AluOut, f: U4, a: word, b: word, w16: bool) {
    && o.store && AluResult(f, a, b, w16, false, o.res) && !o.flags.v && !o.flags.c
    && SignAndZero(o.flags, o.res % Modulus(w16), w16)
  }

  lemma LeftMeans(a: word, b: word, w16: bool)
    ensures ShiftMeans(AluOut(ShiftLeft(a, b % 32, w16), true, FlagsNz(ShiftLeft(a, b % 32, w16), w16)), 1, a, b, w16)
  {
    NzFlags(ShiftLeft(a, b % 32, w16), w16);
    ModOfMod(a * Pow2(b % 32));
    hide Pow2, FlagsNz;
  }

  lemma ModOfMod(x: int)
    ensures x % 0x1_0000_0000 % 0x1_0000 == x % 0x1_0000
  {
    var q := x / 0x1_0000_0000;
    LowOf(x % 0x1_0000_0000, 0x1_0000 * q);
  }

  lemma RightMeans(a: word, b: word, w16: bool)
    ensures ShiftMeans(AluOut(ShiftRight(a, b % 32, w16), true, FlagsNz(ShiftRight(a, b % 32, w16), w16)), 12, a, b, w16)
  {
    NzFlags(ShiftRight(a, b % 32, w16), w16);
    hide Pow2, FlagsNz;
  }

  lemma ArithMeans(a: word, b: word, w16: bool)
    ensures ShiftMeans(AluOut(ArithShiftRight(a, b % 32, w16), true, FlagsNz(ArithShiftRight(a, b % 32, w16), w16)),
                       13, a, b, w16)
  {
    var r := ArithShiftRight(a, b % 32, w16);
    ArithIs(a, b % 32, w16);
    NzFlags(r, w16);
    hide ArithShiftRight, FlagsNz, SignAndZero, Pow2, SignedPart, Signed32;
  }

  lemma ArithIs(a: word, k: nat, w16: bool)
    ensures Signed32(ArithShiftRight(a, k, w16)) == SignedPart(a, w16) / Pow2(k)
  {
    var sa := if w16 then Signed16(a) else Signed32(a);
    assert sa == SignedPart(a, w16);
    assert -0x8000_0000 <= sa < 0x8000_0000 && (w16 ==> -0x8000 <= sa < 0x8000);
    hide SignedPart, Signed16, Signed32, Sext16, Wrap, Pow2;
    var q := sa / Pow2(k);
    QuotientShrinks(sa, Pow2(k));
    SignedBack32(q);
    if w16 { SignedBack16(q); }
  }

  lemma QuotientShrinks(x: int, p: nat)
    requires p >= 1
    ensures x >= 0 ==> 0 <= x / p <= x
    ensures x < 0 ==> x <= x / p < 0
  {
    var q := x / p;
    assert x == p * q + x % p;
    if x >= 0 {
      if q < 0 { MulLe(1, p, 1, -q); }
      if q > 0 { MulLe(1, p, q, q); }
    } else {
      if q >= 0 { MulLe(0, p, 0, q); }
      if q < 0 { MulLe(1, p, -q - 1, -q - 1); MulDistribute(p, q, 1); MulDistribute(p, -q - 1, q + 1); }
    }
  }

  lemma SignedBack32(q: int)
    requires -0x8000_0000 <= q < 0x8000_0000
    ensures Signed32(Wrap(q)) == q
  {
  }

  lemma SignedBack16(q: int)
    requires -0x8000 <= q < 0x8000
    ensures Sext16(Wrap(q)) == Wrap(q)
  {
  }

  lemma RotateRightMeans(a: word, cin: bool, w16: bool)
    ensures var o := RotateRight(a, cin, w16);
            && o.store && AluResult(9, a, a, w16, cin, o.res)
            && CarryAndOverflow(9, a, a, w16, cin, o.flags) && SignAndZero(o.flags, o.res % Modulus(w16), w16)
  {
    var ua := a % Modulus(w16);
    var rot := ua / 2 + (if cin then Modulus(w16) / 2 else 0);
    assert 0 <= rot < Modulus(w16) && rot % Modulus(w16) == rot;
    RotateIs(a, cin, w16, rot);
    if w16 { SextHolds(rot, true); }
    hide RotateRight, Sext16;
  }

  lemma RotateIs(a: word, cin: bool, w16: bool, rot: word)
    requires rot == a % Modulus(w16) / 2 + (if cin then Modulus(w16) / 2 else 0) && rot < Modulus(w16)
    ensures var res := if w16 then Sext16(rot) else rot;
            RotateRight(a, cin, w16) == AluOut(res, true, CauFlags(Msb(res), res % Modulus(w16) == 0, false, a % 2 == 1))
  {
    hide Sext16, Msb;
  }

  lemma ReverseAddMeans(a: word, b: word, w16: bool)
    ensures var o := CarryReverseAdd(a, b, w16);
            && o.store && AluResult(3, a, b, w16, false, o.res)
            && CarryAndOverflow(3, a, b, w16, false, o.flags) && SignAndZero(o.flags, o.res % Modulus(w16), w16)
  {
    var n, m := if w16 then 16 else 32, Modulus(w16);
    var sum := ReverseSum(a, b, w16);
    var rev := BitRev(sum % m, n);
    assert m == Pow2(n) by { Pow2Constants(); }
    BitRevBoundPow(sum % m, n);
    BitRevBoundPow(a % m, n);
    BitRevBoundPow(b % m, n);
    AluFacts.BitRevInvolution(sum % m, n);
    ReverseAddIs(a, b, w16);
    hide *;
    SumCarries(sum, m);
    ReverseOutput(a, b, w16, sum, rev);
  }

  lemma ReverseAddIs(a: word, b: word, w16: bool)
    ensures var n, m := if w16 then 16 else 32, Modulus(w16);
            var sum := ReverseSum(a, b, w16);
            var rev := BitRev(sum % m, n);
            && 0 <= rev < m && (m == 0x1_0000 || m == 0x1_0000_0000)
            && CarryReverseAdd(a, b, w16)
               == (var res: word := if w16 then Sext16(rev) else rev;
                   AluOut(res, true, CauFlags(Msb(res), res % m == 0, false, sum / m % 2 == 1)))
  {
    var n, m := if w16 then 16 else 32, Modulus(w16);
    assert m == Pow2(n) by { Pow2Constants(); }
    BitRevBoundPow(ReverseSum(a, b, w16) % m, n);
    hide BitRev, Sext16, Pow2, Msb;
  }

  lemma ReverseOutput(a: word, b: word, w16: bool, sum: nat, rev: nat)
    requires var n, m := if w16 then 16 else 32, Modulus(w16);
             && sum == ReverseSum(a, b, w16) && 0 <= rev < m && BitRev(rev, n) == sum % m
             && (sum / m % 2 == 1) == (sum >= m)
    requires CarryReverseAdd(a, b, w16)
             == (var res: word := if w16 then Sext16(rev) else rev;
                 AluOut(res, true, CauFlags(Msb(res), res % Modulus(w16) == 0, false, sum / Modulus(w16) % 2 == 1)))
    ensures var o := CarryReverseAdd(a, b, w16);
            && o.store && AluResult(3, a, b, w16, false, o.res)
            && CarryAndOverflow(3, a, b, w16, false, o.flags) && SignAndZero(o.flags, o.res % Modulus(w16), w16)
  {
    hide BitRev, Sext16, CarryReverseAdd, ReverseSum;
    if w16 { SextHolds(rev, true); } else { assert rev % Modulus(w16) == rev; }
    assert (CarryReverseAdd(a, b, w16).res) % Modulus(w16) == rev;
  }

  lemma SumCarries(sum: nat, m: nat)
    requires (m == 0x1_0000 || m == 0x1_0000_0000) && sum < 2 * m
    ensures (sum / m % 2 == 1) == (sum >= m)
  {
  }

  // ---------------------------------------------------------------------
  // Every function code

  lemma AluMeans(f: U4, a: word, b: word, w16: bool, cur: CauFlags)
    ensures Means(Alu(f, a, b, w16, cur), f, a, b, w16, cur)
  {
    if f == 1 || f == 12 || f == 13 {
      ShiftsMean(f, a, b, w16, cur);
    } else if f == 6 || f == 8 || f == 10 || f == 14 {
      LogicsMean(f, a, b, w16, cur);
    } else if f == 0 || f == 2 || f == 4 || f == 7 || f == 11 {
      SumsMean(f, a, b, w16, cur);
    } else {
      RotateRightMeans(a, cur.c, w16);
      ReverseAddMeans(a, b, w16);
      BitTestMeans(a, b, w16);
      NzFlags(And(a, b), w16);
      hide CarryReverseAdd, RotateRight, FlagsNz, And, Bit, BitRev;
    }
  }

  lemma ShiftsMean(f: U4, a: word, b: word, w16: bool, cur: CauFlags)
    requires f == 1 || f == 12 || f == 13
    ensures Means(Alu(f, a, b, w16, cur), f, a, b, w16, cur)
  {
    LeftMeans(a, b, w16);
    RightMeans(a, b, w16);
    ArithMeans(a, b, w16);
    hide ShiftLeft, ShiftRight, ArithShiftRight, FlagsNz, SignAndZero, Pow2, SignedPart, Signed32;
  }

  lemma SumsMean(f: U4, a: word, b: word, w16: bool, cur: CauFlags)
    requires f == 0 || f == 2 || f == 4 || f == 7 || f == 11
    ensures Means(Alu(f, a, b, w16, cur), f, a, b, w16, cur)
  {
    hide *;
    if f == 0 { PlainSumMeans(a, b, w16, cur); }
    else if f == 11 { RotateLeftMeans(a, b, w16, cur); }
    else { DifferenceMeans(f, a, b, w16, cur); }
  }

  lemma PlainSumMeans(a: word, b: word, w16: bool, cur: CauFlags)
    ensures Means(Alu(0, a, b, w16, cur), 0, a, b, w16, cur)
  {
    AddMeans(a, b, 0, w16);
    hide AluAdd, SignAndZero, AddFlags, HoldsPart, Modulus;
  }

  lemma RotateLeftMeans(a: word, b: word, w16: bool, cur: CauFlags)
    ensures Means(Alu(11, a, b, w16, cur), 11, a, b, w16, cur)
  {
    var cin := if cur.c then 1 else 0;
    AddMeans(a, a, cin, w16);
    assert a + a + cin == 2 * a + CarryIn(cur.c);
    hide AluAdd, SignAndZero, AddFlags, HoldsPart, Modulus;
  }

  lemma DifferenceMeans(f: U4, a: word, b: word, w16: bool, cur: CauFlags)
    requires f == 2 || f == 4 || f == 7
    ensures Means(Alu(f, a, b, w16, cur), f, a, b, w16, cur)
  {
    SubMeans(a, b, w16);
    SubMeans(b, a, w16);
    hide AluSub, SignAndZero, SubFlags, HoldsPart, Modulus;
    if f == 2 { } else if f == 4 { } else { }
  }

  lemma LogicsMean(f: U4, a: word, b: word, w16: bool, cur: CauFlags)
    requires f == 6 || f == 8 || f == 10 || f == 14
    ensures Means(Alu(f, a, b, w16, cur), f, a, b, w16, cur)
  {
    forall i: nat | i < 32
      ensures Bit(And(a, b), i) == (Bit(a, i) && Bit(b, i)) && Bit(Or(a, b), i) == (Bit(a, i) || Bit(b, i))
              && Bit(Xor(a, b), i) == (Bit(a, i) != Bit(b, i)) && Bit(And(a, Not(b)), i) == (Bit(a, i) && !Bit(b, i))
    {
      LogicBits(a, b, i);
      LogicBits(a, Not(b), i);
      LogicBits(b, b, i);
    }
    if f == 6 { LogicMeans(And(a, Not(b)), (p, q) => p && !q, a, b, w16); }
    else if f == 8 { LogicMeans(Xor(a, b), (p, q) => p != q, a, b, w16); }
    else if f == 10 { LogicMeans(Or(a, b), (p, q) => p || q, a, b, w16); }
    else { LogicMeans(And(a, b), (p, q) => p && q, a, b, w16); }
    hide And, Or, Xor, Not, Logic, Bit, SignAndZero, BitsAre;
  }

  // ---------------------------------------------------------------------
  // Instructions

  /** d is c after function f of a and b into rd: the result written, or nothing
      but flags. */
  ghost predicate AluEffect(c: Core, d: Core, f: U4, rd: Reg, a: word, b: word, w16: bool) {
    var cin, g := c.ps.cau.c, d.ps.cau;
    && (f == 5 ==> g == c.ps.cau)
    && (f != 5 ==> CarryAndOverflow(f, a, b, w16, cin, g))
    && (f == 7 || f == 15 ==> ResultFlags(f, a, b, w16, 0, g))
    && if Stores(f) then
         exists res: word :: Writes(c, d, rd, res) && AluResult(f, a, b, w16, cin, res) && ResultFlags(f, a, b, w16, res, g)
       else d == c.(ps := c.ps.(cau := g))
  }

  lemma StoredEffect(c: Core, f: U4, rd: Reg, a: word, b: word, w16: bool, o: AluOut)
    requires Means(o, f, a, b, w16, c.ps.cau)
    ensures AluEffect(c, AluStore(c, rd, o), f, rd, a, b, w16)
  {
    FlaggedWrites(c, o.flags, rd, o.res);
    hide Regw, AluResult, ResultFlags, CarryAndOverflow, Writes;
    var d := AluStore(c, rd, o);
    if o.store { assert Writes(c, d, rd, o.res) && d.ps.cau == o.flags; }
    if f == 7 || f == 15 { FlagsOnly(f, a, b, w16, o.res, d.ps.cau); }
  }

  lemma FlagsOnly(f: U4, a: word, b: word, w16: bool, res: word, g: CauFlags)
    requires (f == 7 || f == 15) && ResultFlags(f, a, b, w16, res, g)
    ensures ResultFlags(f, a, b, w16, 0, g)
  {
    hide SignAndZero, Bit;
  }

  /** The second source; `sp = sp++` and `sp = sp--` step by 4. */
  function SecondOf(c: Core, i: Insn): word
    requires i.AluReg?
  {
    if i.f == 0 && i.rd == 25 && i.rs1 == 25 && i.rs2 == 23 then 4
    else if i.f == 0 && i.rd == 25 && i.rs1 == 25 && i.rs2 == 22 then 0xFFFF_FFFC
    else Reads(c, i.rs2)
  }

  /** Register ALU instructions, conditional or not. */
  lemma AluRegMeans(c: Core, i: Insn)
    requires i.AluReg?
    ensures if CondHolds(c, i.c) then AluEffect(c, ExecCore(c, i).0, i.f, i.rd, Reads(c, i.rs1), SecondOf(c, i), !i.long)
            else ExecCore(c, i).0 == c
    ensures ExecCore(c, i).1 == Ok
  {
    var a, b := Reads(c, i.rs1), SecondOf(c, i);
    OpvalReads(c, i.rs1);
    OpvalReads(c, i.rs2);
    assert SecondSource(c, i.f, i.rd, i.rs1, i.rs2) == b by { hide Opval, Reads; }
    AluMeans(i.f, a, b, !i.long, c.ps.cau);
    StoredEffect(c, i.f, i.rd, a, b, !i.long, Alu(i.f, a, b, !i.long, c.ps.cau));
    hide AluEffect, Alu, AluStore, Opval, Reads, CondHolds, SecondSource, SecondOf;
  }

  function SignExtended(n: half): word {
    if n < 0x8000 then n else n + 0xFFFF_0000
  }

  lemma SextIs(n: half)
    ensures Sext16(n) == SignExtended(n)
  {
  }

  /** Immediate ALU instructions. */
  lemma AluImmMeans(c: Core, i: Insn)
    requires i.AluImm?
    ensures AluEffect(c, ExecCore(c, i).0, i.f, i.rd, Reads(c, i.rd), SignExtended(i.n), !i.long)
    ensures ExecCore(c, i).1 == Ok
  {
    var a, b, n := Reads(c, i.rd), SignExtended(i.n), Alu(i.f, Reads(c, i.rd), SignExtended(i.n), !i.long, c.ps.cau);
    OpvalReads(c, i.rd);
    SextIs(i.n);
    AluMeans(i.f, a, b, !i.long, c.ps.cau);
    RotatesIgnore(i.f, a, b, !i.long, c.ps.cau);
    StoredEffect(c, i.f, i.rd, a, b, !i.long, n);
    hide AluEffect, Alu, AluStore, Opval, Reads, Sext16, SignExtended;
  }

  lemma RotatesIgnore(f: U4, a: word, b: word, w16: bool, cur: CauFlags)
    ensures f == F_ROL || f == F_ROR ==> Alu(f, a, a, w16, cur) == Alu(f, a, b, w16, cur)
  {
    hide AluAdd, RotateRight;
  }

  /** The three-operand add. */
  lemma Add16Means(c: Core, i: Insn)
    requires i.Add16?
    ensures AluEffect(c, ExecCore(c, i).0, 0, i.rd, Reads(c, i.rs3), SignExtended(i.n), !i.long)
    ensures ExecCore(c, i).1 == Ok
  {
    var a, b := Reads(c, i.rs3), SignExtended(i.n);
    OpvalReads(c, i.rs3);
    SextIs(i.n);
    AluMeans(0, a, b, !i.long, c.ps.cau);
    assert Alu(0, a, b, !i.long, c.ps.cau) == AluAdd(a, b, 0, !i.long) by { hide AluAdd; }
    StoredEffect(c, 0, i.rd, a, b, !i.long, Alu(0, a, b, !i.long, c.ps.cau));
    hide AluEffect, Alu, AluStore, Opval, Reads, Sext16, SignExtended, AluAdd;
  }

  lemma {:induction false} HighBits(n: nat, k: nat, i: nat)
    ensures Bit(n * Pow2(k), i) == (i >= k && Bit(n, i - k))
    decreases k
  {
    if k > 0 {
      var x: nat := n * Pow2(k - 1);
      assert n * Pow2(k) == 2 * x;
      HalfOf(0, x);
      hide Bit, Pow2;
      if i > 0 {
        BitOfHalf(2 * x, i);
        HighBits(n, k - 1, i - 1);
      } else {
        BitZero(2 * x);
      }
    }
  }

  /** `rD = rS <<| N`: N in the upper half over the register's bits. */
  lemma ShiftOrMeans(c: Core, i: Insn)
    requires i.ShiftOr?
    ensures exists res: word ::
      var d, a := ExecCore(c, i).0, Reads(c, i.rs);
      && Writes(c, d, i.rd, res) && SignAndZero(d.ps.cau, res, false) && !d.ps.cau.v && !d.ps.cau.c
      && forall k: nat :: k < 32 ==> Bit(res, k) == (Bit(a, k) || (k >= 16 && Bit(i.n, k - 16)))
  {
    var a: word, high: word := Reads(c, i.rs), i.n * 0x1_0000;
    var res := Or(a, high);
    OpvalReads(c, i.rs);
    NzFlags(res, false);
    FlaggedWrites(c, FlagsNz(res, false), i.rd, res);
    Pow2Constants();
    forall k: nat | k < 32 ensures Bit(res, k) == (Bit(a, k) || (k >= 16 && Bit(i.n, k - 16))) {
      LogicBits(a, high, k);
      HighBits(i.n, 16, k);
    }
    hide Or, Regw, FlagsNz, Opval, Reads, Bit, Writes, Pow2;
    assert ExecCore(c, i).0 == Regw(SetCau(c, FlagsNz(res, false)), i.rd, res);
  }

  /** `rD = (ushort24) M`, no flags. */
  lemma Set24Means(c: Core, i: Insn)
    requires i.Set24?
    ensures Writes(c, ExecCore(c, i).0, i.rd, i.m24) && ExecCore(c, i).0.ps == c.ps
  {
    RegwWrites(c, i.rd, i.m24);
    hide Regw, Writes;
  }
}
