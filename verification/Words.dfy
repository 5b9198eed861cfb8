/** Machine words, their signed readings, and powers of two. */
module Words {

  type byte = x: int | 0 <= x < 0x100
  type half = x: int | 0 <= x < 0x1_0000
  type word = x: int | 0 <= x < 0x1_0000_0000

  /** Truncation to 32 bits, as every unsigned 32-bit operation does. */
  function Wrap(x: int): word {
    x % 0x1_0000_0000
  }

  /** The two's-complement reading of a 32-bit word. */
  function Signed32(x: word): int {
    if x < 0x8000_0000 then x else x - 0x1_0000_0000
  }

  /** The two's-complement reading of the low 16 bits. */
  function Signed16(x: int): int {
    var h := x % 0x1_0000;
    if h < 0x8000 then h else h - 0x1_0000
  }

  /** Sign extension of the low 16 bits to a 32-bit word. */
  function Sext16(x: int): word {
    Wrap(Signed16(x))
  }

  /** Bit `i` of a non-negative mask. */
  predicate Bit(x: nat, i: nat) {
    x / Pow2(i) % 2 == 1
  }

  // Bitwise operators on words, bit by bit.

  /** The low n bits of a and b combined. */
  function Bitwise(op: (bool, bool) -> bool, a: nat, b: nat, n: nat): nat {
    if n == 0 then 0
    else (if op(a % 2 == 1, b % 2 == 1) then 1 else 0) + 2 * Bitwise(op, a / 2, b / 2, n - 1)
  }

  lemma {:induction false} BitwiseBound(op: (bool, bool) -> bool, a: nat, b: nat, n: nat)
    ensures Bitwise(op, a, b, n) < Pow2(n)
  {
    if n > 0 { BitwiseBound(op, a / 2, b / 2, n - 1); }
  }

  function Bitwise32(op: (bool, bool) -> bool, a: word, b: word): word {
    BitwiseBound(op, a, b, 32);
    Pow2Constants();
    Bitwise(op, a, b, 32)
  }

  function And(a: word, b: word): word { Bitwise32((p, q) => p && q, a, b) }
  function Or(a: word, b: word): word { Bitwise32((p, q) => p || q, a, b) }
  function Xor(a: word, b: word): word { Bitwise32((p, q) => p != q, a, b) }
  function Not(a: word): word { 0xFFFF_FFFF - a }

  /** Bit i is bit i - 1 of the half. */
  lemma BitOfHalf(x: nat, i: nat)
    requires i > 0
    ensures Bit(x, i) == Bit(x / 2, i - 1)
  {
    ShiftShift(x, 1, i - 1);
    assert Pow2(1) == 2;
  }

  lemma BitZero(x: nat)
    ensures Bit(x, 0) == (x % 2 == 1)
  {
  }

  lemma HalfOf(low: nat, rest: nat)
    requires low <= 1
    ensures (low + 2 * rest) / 2 == rest && (low + 2 * rest) % 2 == low
  {
  }

  lemma {:induction false} BitwiseBit(op: (bool, bool) -> bool, a: nat, b: nat, n: nat, i: nat)
    requires i < n
    ensures Bit(Bitwise(op, a, b, n), i) == op(Bit(a, i), Bit(b, i))
  {
    var low, rest := if op(a % 2 == 1, b % 2 == 1) then 1 else 0, Bitwise(op, a / 2, b / 2, n - 1);
    assert Bitwise(op, a, b, n) == low + 2 * rest;
    HalfOf(low, rest);
    hide Bit, Bitwise;
    if i > 0 {
      BitOfHalf(a, i);
      BitOfHalf(b, i);
      BitOfHalf(low + 2 * rest, i);
      BitwiseBit(op, a / 2, b / 2, n - 1, i - 1);
    } else {
      BitZero(a);
      BitZero(b);
      BitZero(low + 2 * rest);
    }
  }

  /** The logical operators act on each bit. */
  lemma LogicBits(a: word, b: word, i: nat)
    requires i < 32
    ensures Bit(And(a, b), i) == (Bit(a, i) && Bit(b, i))
    ensures Bit(Or(a, b), i) == (Bit(a, i) || Bit(b, i))
    ensures Bit(Xor(a, b), i) == (Bit(a, i) != Bit(b, i))
    ensures Bit(Not(a), i) == !Bit(a, i)
  {
    Pow2Constants();
    hide Bitwise, Bit, Pow2;
    BitwiseBit((p, q) => p && q, a, b, 32, i);
    BitwiseBit((p, q) => p || q, a, b, 32, i);
    BitwiseBit((p, q) => p != q, a, b, 32, i);
    NotBit(a, 32, i);
  }

  lemma {:induction false} NotBit(a: nat, n: nat, i: nat)
    requires i < n && a < Pow2(n)
    ensures Bit(Pow2(n) - 1 - a, i) == !Bit(a, i)
  {
    var p: nat := Pow2(n - 1);
    var x := Pow2(n) - 1 - a;
    assert Pow2(n) == 2 * p;
    assert a == 2 * (a / 2) + a % 2;
    HalfOf(1 - a % 2, p - 1 - a / 2);
    hide Bit, Pow2;
    if i > 0 {
      BitOfHalf(a, i);
      BitOfHalf(x, i);
      NotBit(a / 2, n - 1, i - 1);
    } else {
      BitZero(a);
      BitZero(x);
    }
  }

  /** The low n bits of a number are those of its remainder. */
  lemma {:induction false} LowBit(x: nat, n: nat, i: nat)
    requires i < n
    ensures Bit(x % Pow2(n), i) == Bit(x, i)
  {
    var r := x % Pow2(n);
    LowHalf(x, n);
    hide Bit, Pow2;
    if i > 0 {
      BitOfHalf(x, i);
      BitOfHalf(r, i);
      LowBit(x / 2, n - 1, i - 1);
    } else {
      BitZero(x);
      BitZero(r);
    }
  }

  lemma LowHalf(x: nat, n: nat)
    requires n > 0
    ensures var r := x % Pow2(n); r % 2 == x % 2 && r / 2 == x / 2 % Pow2(n - 1)
  {
    var p: nat := Pow2(n - 1);
    var q, r := x / Pow2(n), x % Pow2(n);
    assert Pow2(n) == 2 * p;
    assert x == 2 * p * q + r;
    hide Pow2;
    MulAssoc(2, p, q);
    HalfOf(r % 2, p * q + r / 2);
    DivUnique(x / 2, p, q, r / 2);
  }

  /** The reversal of the low n bits. */
  function BitRev(x: nat, n: nat): nat {
    if n == 0 then 0 else x % 2 * Pow2(n - 1) + BitRev(x / 2, n - 1)
  }

  function Pow2(n: nat): (p: nat)
    ensures p >= 1
  {
    if n == 0 then 1 else 2 * Pow2(n - 1)
  }

  lemma {:induction false} Pow2Add(a: nat, b: nat)
    ensures Pow2(a + b) == Pow2(a) * Pow2(b)
  {
    if a == 0 {
    } else {
      Pow2Add(a - 1, b);
      assert a + b - 1 == (a - 1) + b;
    }
  }

  lemma {:induction false} Pow2Monotonic(a: nat, b: nat)
    requires a <= b
    ensures Pow2(a) <= Pow2(b)
  {
    if a < b {
      Pow2Monotonic(a, b - 1);
    }
  }

  lemma Pow2Constants()
    ensures Pow2(8) == 0x100 && Pow2(15) == 0x8000 && Pow2(16) == 0x1_0000
    ensures Pow2(23) == 0x80_0000 && Pow2(31) == 0x8000_0000 && Pow2(32) == 0x1_0000_0000
    ensures Pow2(46) == 0x4000_0000_0000 && Pow2(62) == 0x4000_0000_0000_0000
  {
    assert Pow2(8) == 0x100;
    Pow2Add(8, 7);
    Pow2Add(8, 8);
    Pow2Add(15, 8);
    Pow2Add(23, 8);
    Pow2Add(31, 1);
    Pow2Add(23, 23);
    Pow2Add(31, 31);
  }

  /** Flooring twice floors once: (x >> a) >> b == x >> (a + b). */
  lemma ShiftShift(x: int, a: nat, b: nat)
    ensures x / Pow2(a) / Pow2(b) == x / Pow2(a + b)
  {
    Pow2Add(a, b);
    DivDiv(x, Pow2(a), Pow2(b));
  }

  lemma DivDiv(x: int, p: nat, q: nat)
    requires p >= 1 && q >= 1
    ensures p * q >= 1 && x / p / q == x / (p * q)
  {
    var y := x / p;
    var z := y / q;
    var r, s := x % p, y % q;
    assert p * q >= 1 by { MulLe(1, p, 1, q); }
    assert x == p * y + r && y == q * z + s;
    calc {
      x;
      p * (q * z + s) + r;
      { MulDistribute(p, q * z, s); MulAssoc(p, q, z); }
      (p * q) * z + (p * s + r);
    }
    assert 0 <= p * s + r < p * q by {
      MulLe(0, p, 0, s);
      assert p * s + p == p * (s + 1) by { MulDistribute(p, s, 1); }
      MulLe(p, p, s + 1, q);
    }
    DivUnique(x, p * q, z, p * s + r);
  }

  lemma MulDistribute(a: int, b: int, c: int)
    ensures a * (b + c) == a * b + a * c
  {
  }

  lemma MulAssoc(a: int, b: int, c: int)
    ensures a * (b * c) == (a * b) * c
  {
  }

  lemma MulLe(a: int, b: int, c: int, d: int)
    requires 0 <= a <= b && 0 <= c <= d
    ensures 0 <= a * c <= b * d
  {
    assert a * c <= b * c;
    assert b * c <= b * d;
  }

  lemma DivUnique(x: int, d: int, q: int, r: int)
    requires d >= 1 && 0 <= r < d && x == d * q + r
    ensures x / d == q && x % d == r
  {
    var q', r' := x / d, x % d;
    assert d * (q - q') == r' - r by { MulDistribute(d, q, -q'); }
    if q > q' {
      MulLe(d, d, 1, q - q');
    } else if q < q' {
      MulLe(d, d, 1, q' - q);
      MulDistribute(d, q' - q, q - q');
    }
  }

  // ---------------------------------------------------------------------
  // Real scale factors

  /** 2^k for any integer k. */
  function Exp2(k: int): (x: real)
    ensures x > 0.0
    decreases if k >= 0 then k else -k
  {
    if k == 0 then 1.0
    else if k > 0 then 2.0 * Exp2(k - 1)
    else Exp2(k + 1) / 2.0
  }

  lemma {:induction false} Exp2Add(j: int, k: int)
    ensures Exp2(j + k) == Exp2(j) * Exp2(k)
    decreases if j >= 0 then j else -j
  {
    hide Exp2;
    if j > 0 {
      Exp2Add(j - 1, k);
      Exp2Succ(j - 1 + k);
      Exp2Succ(j - 1);
      DoubleProduct(Exp2(j - 1), Exp2(k));
    } else if j < 0 {
      Exp2Add(j + 1, k);
      Exp2Succ(j + k);
      Exp2Succ(j);
      DoubleProduct(Exp2(j), Exp2(k));
    } else {
      Exp2Zero();
    }
  }

  lemma Exp2Zero()
    ensures Exp2(0) == 1.0
  {
  }

  lemma {:induction false} Exp2Succ(k: int)
    ensures Exp2(k + 1) == 2.0 * Exp2(k)
  {
  }

  lemma DoubleProduct(a: real, b: real)
    ensures (2.0 * a) * b == 2.0 * (a * b)
  {
  }

  lemma {:induction false} Exp2OfNat(n: nat)
    ensures Exp2(n) == Pow2(n) as real
  {
    if n > 0 {
      Exp2OfNat(n - 1);
    }
  }

  lemma Exp2Monotonic(j: int, k: int)
    requires j <= k
    ensures Exp2(j) <= Exp2(k)
    decreases k - j
  {
    if j < k {
      Exp2Monotonic(j, k - 1);
      Exp2Succ(k - 1);
    }
  }

  /** Multiplying by 2^n shifts the exponent. */
  lemma Exp2Shift(k: int, n: nat)
    ensures Exp2(k + n) == Pow2(n) as real * Exp2(k)
  {
    Exp2Add(n, k);
    Exp2OfNat(n);
  }

  // ---------------------------------------------------------------------
  // Scaled integers: the reals a fixed-point datapath can hold

  /** The integer m at weight 2^k. */
  function Scaled(m: int, k: int): real {
    m as real * Exp2(k)
  }

  lemma ScaledOne(k: int)
    ensures Scaled(1, k) == Exp2(k) && Scaled(0, k) == 0.0
  {
  }

  lemma ScaledUnit(m: int)
    ensures Scaled(m, 0) == m as real
  {
  }

  lemma ScaledAdd(a: int, b: int, k: int)
    ensures Scaled(a + b, k) == Scaled(a, k) + Scaled(b, k)
    ensures Scaled(a - b, k) == Scaled(a, k) - Scaled(b, k)
  {
    hide Exp2;
    RealMulDistribute(a as real, b as real, Exp2(k));
    RealMulDistribute(a as real - b as real, b as real, Exp2(k));
  }

  lemma ScaledOrder(a: int, b: int, k: int)
    ensures a <= b ==> Scaled(a, k) <= Scaled(b, k)
    ensures a < b ==> Scaled(a, k) < Scaled(b, k)
  {
    hide Exp2;
    if a < b { RealMulLt(a as real, b as real, Exp2(k)); }
  }

  lemma ScaledProduct(a: int, b: int, j: int, k: int)
    ensures Scaled(a * b, j + k) == Scaled(a, j) * Scaled(b, k)
  {
    hide Exp2;
    Exp2Add(j, k);
    IntProductAsReal(a, b);
    FourFactors(a as real, b as real, Exp2(j), Exp2(k));
  }

  lemma FourFactors(a: real, b: real, x: real, y: real)
    ensures (a * b) * (x * y) == (a * x) * (b * y)
  {
    calc {
      (a * x) * (b * y);
      { RealMulAssoc(a, x, b * y); }
      a * (x * (b * y));
      { RealMulAssoc(x, b, y); }
      a * ((x * b) * y);
      { RealMulAssoc(b, x, y); }
      a * (b * (x * y));
      { RealMulAssoc(a, b, x * y); }
      (a * b) * (x * y);
    }
  }

  /** A left shift is exact. */
  lemma ScaledLeft(m: int, n: nat, k: int)
    ensures Scaled(m * Pow2(n), k - n) == Scaled(m, k)
  {
    hide Exp2, Pow2;
    Exp2Shift(k - n, n);
    RealMulAssoc(m as real, Pow2(n) as real, Exp2(k - n));
    IntProductAsReal(m, Pow2(n));
  }

  /** A truncating right shift loses less than one unit of the new weight and
      never gains. */
  lemma ScaledRight(m: int, n: nat, k: int)
    ensures Scaled(m / Pow2(n), k + n) <= Scaled(m, k) < Scaled(m / Pow2(n) + 1, k + n)
  {
    var p := Pow2(n);
    var q := m / p;
    assert m == q * p + m % p;
    hide Scaled, Pow2;
    ScaledLeft(q, n, k + n);
    ScaledLeft(q + 1, n, k + n);
    assert (q + 1) * p == q * p + p;
    ScaledOrder(q * p, m, k);
    ScaledOrder(m, (q + 1) * p, k);
  }

  lemma RealMulLt(a: real, b: real, x: real)
    requires a < b && x > 0.0
    ensures a * x < b * x
  {
  }

  lemma RealMulAssoc(a: real, b: real, c: real)
    ensures a * (b * c) == (a * b) * c
  {
  }

  lemma RealMulDistribute(a: real, b: real, c: real)
    ensures (a + b) * c == a * c + b * c
  {
  }

  lemma IntProductAsReal(a: int, b: int)
    ensures (a * b) as real == a as real * b as real
  {
  }
}
