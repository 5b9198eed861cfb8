/** Memory: what a store leaves, byte by byte, and what a load makes of bytes. */
module Stores {
  import opened Words
  import opened Core
  import Fetching

  /** Byte j of v, least significant first. */
  function Digit(v: nat, j: nat): byte {
    if j == 0 then v % 0x100
    else if j == 1 then v / 0x100 % 0x100
    else if j == 2 then v / 0x1_0000 % 0x100
    else v / 0x100_0000 % 0x100
  }

  function Capacity(size: Size): nat {
    if size == 1 then 0x100 else if size == 2 then 0x1_0000 else 0x1_0000_0000
  }

  /** Which digit stands k bytes on: counted from the top in big-endian order. */
  function Rank(big: bool, size: nat, k: nat): nat
    requires k < size
  {
    if big then size - 1 - k else k
  }

  predicate HoldsDigit(m: Memory, computer: bool, big: bool, a: word, size: Size, v: word, k: nat)
    requires k < size
  {
    ByteAt(m, computer, Wrap(a + k)) == Some(Digit(v, Rank(big, size, k)))
  }

  /** The bytes of v stand at a, a+1, ..., the most significant first or last. */
  predicate Stands(m: Memory, computer: bool, big: bool, a: word, size: Size, v: word) {
    forall k: nat :: k < size ==> HoldsDigit(m, computer, big, a, size, v, k)
  }

  // ---------------------------------------------------------------------
  // Bytes

  /** Distinct addresses are distinct places. */
  lemma PlacesDiffer(computer: bool, extSize: nat, a: word, b: word)
    requires a != b
    ensures Locate(computer, extSize, a) != Locate(computer, extSize, b) || Locate(computer, extSize, a).Unmapped?
  {
  }

  lemma SetByteSets(m: Memory, computer: bool, a: word, x: byte, b: word)
    requires Mapped(m, computer, a)
    ensures ByteAt(SetByte(m, computer, a, x), computer, b) == if b == a then Some(x) else ByteAt(m, computer, b)
  {
    if a != b { PlacesDiffer(computer, |m.ext|, a, b); }
  }

  predicate Outside(a: word, n: nat, x: word) {
    !(a <= x < a + n)
  }

  lemma {:induction false} WriteBytesWrites(m: Memory, computer: bool, a: word, bs: seq<byte>)
    requires a + |bs| <= 0x1_0000_0000 && WriteBytes(m, computer, a, bs).1
    ensures var n := WriteBytes(m, computer, a, bs).0;
            && (forall k: nat :: k < |bs| ==> ByteAt(n, computer, Wrap(a + k)) == Some(bs[k]))
            && (forall x: word :: Outside(a, |bs|, x) ==> ByteAt(n, computer, x) == ByteAt(m, computer, x))
    decreases |bs|
  {
    hide ByteAt, SetByte, Mapped;
    if bs != [] {
      var m1 := SetByte(m, computer, a, bs[0]);
      var n := WriteBytes(m, computer, a, bs).0;
      assert Wrap(a) == a;
      SetByteSets(m, computer, a, bs[0], a);
      if |bs| == 1 {
        assert bs[1..] == [];
        assert n == m1;
      } else {
        WriteBytesWrites(m1, computer, Wrap(a + 1), bs[1..]);
        assert Wrap(a + 1) == a + 1;
        forall k: nat | 0 < k < |bs| ensures ByteAt(n, computer, Wrap(a + k)) == Some(bs[k]) {
          assert Wrap(a + k) == Wrap(a + 1 + (k - 1)) && bs[1..][k - 1] == bs[k];
        }
      }
      forall x: word | Outside(a, |bs|, x) ensures ByteAt(n, computer, x) == ByteAt(m, computer, x) {
        SetByteSets(m, computer, a, bs[0], x);
        assert Outside((a + 1) % 0x1_0000_0000, |bs| - 1, x) || |bs| == 1;
      }
    }
  }

  lemma {:induction false} BytesRead(m: Memory, computer: bool, a: word, bs: seq<byte>)
    requires a + |bs| <= 0x1_0000_0000
    requires forall k: nat :: k < |bs| ==> ByteAt(m, computer, Wrap(a + k)) == Some(bs[k])
    ensures ReadBytes(m, computer, a, |bs|) == Some(bs)
    decreases |bs|
  {
    hide ByteAt;
    if bs != [] {
      assert ByteAt(m, computer, Wrap(a + 0)) == Some(bs[0]);
      if |bs| > 1 {
        forall k: nat | k < |bs| - 1 ensures ByteAt(m, computer, Wrap(Wrap(a + 1) + k)) == Some(bs[1..][k]) {
          assert Wrap(Wrap(a + 1) + k) == Wrap(a + (k + 1));
        }
        BytesRead(m, computer, Wrap(a + 1), bs[1..]);
      } else {
        assert bs[1..] == [];
      }
      assert [bs[0]] + bs[1..] == bs;
    }
  }

  // ---------------------------------------------------------------------
  // Values and bytes

  lemma SplitDigits(v: word, size: Size, big: bool)
    ensures forall k: nat :: k < size ==> Split(v, size, big)[k] == Digit(v, Rank(big, size, k))
  {
    forall k: nat | k < size ensures Split(v, size, big)[k] == Digit(v, Rank(big, size, k)) {
      ByteIsDigit(v, Rank(big, size, k));
    }
    hide ByteOf, Digit;
  }

  lemma ByteIsDigit(v: word, j: nat)
    requires j < 4
    ensures ByteOf(v, j) == Digit(v, j)
  {
    Pow24();
    assert Pow2(8 * j) == if j == 0 then 1 else if j == 1 then 0x100 else if j == 2 then 0x1_0000 else 0x100_0000;
    hide Pow2;
  }

  lemma Pow24()
    ensures Pow2(0) == 1 && Pow2(8) == 0x100 && Pow2(16) == 0x1_0000 && Pow2(24) == 0x100_0000
  {
    Pow2Constants();
    Pow2Add(16, 8);
    assert Pow2(0) == 1;
    hide Pow2;
  }

  /** The value of bytes has those bytes as its digits. */
  lemma JoinDigits(bs: seq<byte>, big: bool)
    requires |bs| == 1 || |bs| == 2 || |bs| == 4
    ensures var v := JoinWord(bs, big);
            v < Capacity(|bs|) && forall k: nat :: k < |bs| ==> Digit(v, Rank(big, |bs|, k)) == bs[k]
  {
    if |bs| == 1 { JoinOne(bs, big); }
    else if |bs| == 2 { JoinTwo(bs, big); }
    else { JoinFourEither(bs, big); }
  }

  lemma JoinOne(bs: seq<byte>, big: bool)
    requires |bs| == 1
    ensures JoinWord(bs, big) == bs[0]
  {
    assert bs[..|bs| - 1] == [] && bs[1..] == [];
    assert Join([], big) == 0;
  }

  lemma JoinTwo(bs: seq<byte>, big: bool)
    requires |bs| == 2
    ensures JoinWord(bs, big) == if big then bs[0] as int * 0x100 + bs[1] else bs[0] + 0x100 * (bs[1] as int)
  {
    JoinOne(bs[..1], big);
    JoinOne(bs[1..], big);
    assert bs[..|bs| - 1] == bs[..1];
  }

  lemma JoinFourEither(bs: seq<byte>, big: bool)
    requires |bs| == 4
    ensures JoinWord(bs, big)
            == if big then bs[0] as int * 0x100_0000 + bs[1] as int * 0x1_0000 + bs[2] as int * 0x100 + bs[3]
               else bs[0] + 0x100 * (bs[1] as int) + 0x1_0000 * (bs[2] as int) + 0x100_0000 * (bs[3] as int)
    ensures var v := JoinWord(bs, big);
            forall k: nat :: k < 4 ==> Digit(v, Rank(big, 4, k)) == bs[k]
  {
    if big {
      Fetching.JoinFour(bs[0], bs[1], bs[2], bs[3]);
      assert bs == [bs[0], bs[1], bs[2], bs[3]];
      Digits(bs[3], bs[2], bs[1], bs[0]);
    } else {
      JoinTwo(bs[2..], big);
      assert bs[2..][0] == bs[2] && bs[2..][1] == bs[3];
      assert bs[1..][1..] == bs[2..];
      assert Join(bs[1..], false) == bs[1] + 0x100 * Join(bs[2..], false);
      assert Join(bs, false) == bs[0] + 0x100 * Join(bs[1..], false);
      Digits(bs[0], bs[1], bs[2], bs[3]);
    }
    hide Join, JoinWord, Digit;
  }

  lemma Digits(b0: byte, b1: byte, b2: byte, b3: byte)
    ensures var v := b0 + 0x100 * b1 + 0x1_0000 * b2 + 0x100_0000 * b3;
            Digit(v, 0) == b0 && Digit(v, 1) == b1 && Digit(v, 2) == b2 && Digit(v, 3) == b3
  {
    var v := b0 + 0x100 * b1 + 0x1_0000 * b2 + 0x100_0000 * b3;
    var h1 := b1 + 0x100 * (b2 + 0x100 * b3);
    var h2 := b2 + 0x100 * b3;
    DivUnique(v, 0x100, h1, b0);
    DivUnique(h1, 0x100, h2, b1);
    DivUnique(h2, 0x100, b3, b2);
    DivUnique(v, 0x1_0000, h2, b0 + 0x100 * b1);
    DivUnique(v, 0x100_0000, b3, b0 + 0x100 * b1 + 0x1_0000 * b2);
  }

  /** A value below its capacity is known by its digits. */
  lemma DigitsTell(x: word, v: word, size: Size)
    requires x < Capacity(size) && forall j: nat :: j < size ==> Digit(x, j) == Digit(v, j)
    ensures x == v % Capacity(size)
  {
    assert Digit(x, 0) == Digit(v, 0);
    if size > 1 { assert Digit(x, 1) == Digit(v, 1); }
    if size > 2 { assert Digit(x, 2) == Digit(v, 2) && Digit(x, 3) == Digit(v, 3); }
    FromDigits(x);
    FromDigits(v);
    LowDigits(v);
    LowDigits(x);
    hide Digit;
  }

  lemma FromDigits(v: word)
    ensures v == Digit(v, 0) + 0x100 * Digit(v, 1) + 0x1_0000 * Digit(v, 2) + 0x100_0000 * Digit(v, 3)
  {
  }

  lemma LowDigits(v: word)
    ensures v % 0x100 == Digit(v, 0) && v % 0x1_0000 == Digit(v, 0) + 0x100 * Digit(v, 1)
  {
  }

  // ---------------------------------------------------------------------
  // The theorems

  lemma StandsRead(m: Memory, computer: bool, big: bool, a: word, size: Size, v: word)
    requires a + size <= 0x1_0000_0000 && Stands(m, computer, big, a, size, v)
    ensures var r := ReadBytes(m, computer, a, size);
            r.Some? && JoinWord(r.value, big) == v % Capacity(size)
  {
    var bs: seq<byte> := seq(size, k requires 0 <= k < size => Digit(v, Rank(big, size, k)));
    forall k: nat | k < |bs| ensures ByteAt(m, computer, Wrap(a + k)) == Some(bs[k]) {
      assert HoldsDigit(m, computer, big, a, size, v, k);
    }
    hide *;
    BytesRead(m, computer, a, bs);
    JoinDigits(bs, big);
    DigitsOfValue(bs, big, size, v);
  }

  lemma DigitsOfValue(bs: seq<byte>, big: bool, size: Size, v: word)
    requires |bs| == size && JoinWord(bs, big) < Capacity(size)
    requires forall k: nat :: k < |bs| ==> Digit(JoinWord(bs, big), Rank(big, |bs|, k)) == bs[k]
    requires forall k: nat :: k < size ==> bs[k] == Digit(v, Rank(big, size, k))
    ensures JoinWord(bs, big) == v % Capacity(size)
  {
    hide Digit, JoinWord, Capacity;
    var x := JoinWord(bs, big);
    forall j: nat | j < size ensures Digit(x, j) == Digit(v, j) {
      var k: nat := if big then size - 1 - j else j;
      assert Digit(x, Rank(big, |bs|, k)) == bs[k];
    }
    DigitsTell(x, v, size);
  }

  /** After a store that succeeds, the aligned address holds the value, most
      significant byte first exactly in a big-endian map; a load there gives it
      back; and no other byte has changed, nor anything else. */
  lemma StoreThenLoad(c: Core, addr: word, size: Size, val: word)
    requires MemWrite(c, addr, size, val).1
    ensures var d := MemWrite(c, addr, size, val).0;
            var a: word := addr - addr % size;
            && d == c.(mem := d.mem)
            && Stands(d.mem, Bit(c.pcw, 10), Bit(c.pcw, 8), a, size, val)
            && RawRead(d, a, size) == Some(val % Capacity(size))
            && (forall x: word :: Outside(a, size, x) ==>
                  ByteAt(d.mem, Bit(c.pcw, 10), x) == ByteAt(c.mem, Bit(c.pcw, 10), x))
  {
    hide *;
    AlignedFits(addr, size);
    WriteAligned(c, addr, size, val);
    WrittenStands(c, MemWrite(c, addr, size, val).0, addr - addr % size, size, val);
  }

  lemma WrittenStands(c: Core, d: Core, a: word, size: Size, val: word)
    requires a % size == 0 && a + size <= 0x1_0000_0000
    requires var w := WriteBytes(c.mem, Computer(c), a, Split(val, size, BigEndian(c))); w.1 && d == c.(mem := w.0)
    ensures Stands(d.mem, Bit(c.pcw, 10), Bit(c.pcw, 8), a, size, val)
    ensures RawRead(d, a, size) == Some(val % Capacity(size))
    ensures forall x: word :: Outside(a, size, x) ==>
              ByteAt(d.mem, Bit(c.pcw, 10), x) == ByteAt(c.mem, Bit(c.pcw, 10), x)
  {
    SameModes(c, d);
    hide *;
    WriteBytesWrites(c.mem, Computer(c), a, Split(val, size, BigEndian(c)));
    SplitStands(d.mem, Computer(c), BigEndian(c), a, size, val);
    StandsRead(d.mem, Computer(c), BigEndian(c), a, size, val);
    RawReadIs(d, a, size);
  }

  lemma SameModes(c: Core, d: Core)
    requires d.pcw == c.pcw
    ensures Computer(d) == Computer(c) == Bit(c.pcw, 10) && BigEndian(d) == BigEndian(c) == Bit(c.pcw, 8)
  {
    hide Bit;
  }

  lemma AlignedFits(addr: word, size: Size)
    ensures var a := addr - addr % size; a >= 0 && a % size == 0 && a + size <= 0x1_0000_0000
  {
  }

  lemma RawReadIs(c: Core, a: word, size: Size)
    requires a % size == 0
    ensures RawRead(c, a, size)
            == match ReadBytes(c.mem, Computer(c), a, size) case None => None case Some(bs) => Some(JoinWord(bs, BigEndian(c)))
  {
    hide ReadBytes, JoinWord, Bit;
  }

  lemma SplitStands(m: Memory, computer: bool, big: bool, a: word, size: Size, v: word)
    requires var bs := Split(v, size, big);
             forall k: nat :: k < |bs| ==> ByteAt(m, computer, Wrap(a + k)) == Some(bs[k])
    ensures Stands(m, computer, big, a, size, v)
  {
    SplitDigits(v, size, big);
    hide Split, Digit, ByteAt, Wrap;
    var bs := Split(v, size, big);
    forall k: nat | k < size ensures HoldsDigit(m, computer, big, a, size, v, k) {
      assert bs[k] == Digit(v, Rank(big, size, k));
    }
  }

  lemma WriteAligned(c: Core, addr: word, size: Size, val: word)
    requires MemWrite(c, addr, size, val).1
    ensures var w := WriteBytes(c.mem, Computer(c), addr - addr % size, Split(val, size, BigEndian(c)));
            w.1 && MemWrite(c, addr, size, val).0 == c.(mem := w.0)
  {
    hide WriteBytes, Split, Bit, Abort;
  }

  /** Access without exceptions: the digits of the value are the bytes in memory. */
  lemma LoadedDigits(c: Core, a: word, size: Size)
    requires RawRead(c, a, size).Some?
    ensures var v := RawRead(c, a, size).value;
            v < Capacity(size) && Stands(c.mem, Bit(c.pcw, 10), Bit(c.pcw, 8), a, size, v)
  {
    assert a % size == 0;
    RawReadIs(c, a, size);
    assert Computer(c) == Bit(c.pcw, 10) && BigEndian(c) == Bit(c.pcw, 8);
    hide *;
    var bs := ReadBytes(c.mem, Computer(c), a, size).value;
    ReadBytesAt(c.mem, Computer(c), a, size);
    JoinDigits(bs, BigEndian(c));
    ValueStands(c.mem, Computer(c), BigEndian(c), a, bs, size);
  }

  lemma ValueStands(m: Memory, computer: bool, big: bool, a: word, bs: seq<byte>, size: Size)
    requires |bs| == size && forall k: nat :: k < size ==> ByteAt(m, computer, Wrap(a + k)) == Some(bs[k])
    requires forall k: nat :: k < |bs| ==> Digit(JoinWord(bs, big), Rank(big, |bs|, k)) == bs[k]
    ensures Stands(m, computer, big, a, size, JoinWord(bs, big))
  {
    hide ByteAt, Digit, JoinWord, Wrap;
    var v := JoinWord(bs, big);
    forall k: nat | k < size ensures HoldsDigit(m, computer, big, a, size, v, k) {
      assert bs[k] == Digit(v, Rank(big, |bs|, k));
    }
  }

  lemma {:induction false} ReadBytesAt(m: Memory, computer: bool, a: word, n: nat)
    requires ReadBytes(m, computer, a, n).Some?
    ensures var bs := ReadBytes(m, computer, a, n).value;
            forall k: nat :: k < n ==> ByteAt(m, computer, Wrap(a + k)) == Some(bs[k])
    decreases n
  {
    hide ByteAt;
    if n > 0 {
      var bs := ReadBytes(m, computer, a, n).value;
      ReadBytesAt(m, computer, Wrap(a + 1), n - 1);
      forall k: nat | k < n ensures ByteAt(m, computer, Wrap(a + k)) == Some(bs[k]) {
        if k > 0 { assert Wrap(Wrap(a + 1) + (k - 1)) == Wrap(a + k); } else { assert Wrap(a + 0) == a; }
      }
    }
  }

  /** The on-chip 64 KB are the same bytes in both maps. */
  lemma ChipInBothMaps(m: Memory, off: half)
    ensures ByteAt(m, true, off) == ByteAt(m, false, 0x5003_0000 + off) == Some(m.chip[off])
  {
  }

  /** Behind them lies the host's memory, byte for byte, and then nothing. */
  lemma HostBehind(m: Memory, computer: bool, a: word)
    requires !(if computer then a < 0x1_0000 else 0x5003_0000 <= a < 0x5004_0000)
    ensures ByteAt(m, computer, a) == if a < |m.ext| then Some(m.ext[a]) else None
  {
  }
}
