/** Every word, read and put together again: which bits an instruction uses. */
module Encoding {
  import opened Words
  import opened Insn

  /** The bits a format leaves alone, in place: b25 and b24 to b21 in the first group,
      b20 to b16 in the second, the others in the low half. */
  function Unused(i: Insn, a: Reg, b: Reg, low: half): nat {
    match i
    case MoveIor(_, _, _, _) => low / 0x800 * 0x800 + low / 32 % 32 * 32
    case MoveInd(_, _, _, _, _, _) => low / 32 % 64 * 32
    case Do(_, _, _, count) =>
      a % 4 * 0x20_0000 + b / 4 * 0x4_0000 + (if count.CountReg? then low / 32 % 64 * 32 else 0)
    case Mac(_, _, _, _, _, _, _, _) => a / 16 * 0x200_0000
    case Special(_, _, _, _) => b * 0x1_0000 + low / 0x4000 * 0x4000
    case _ => 0
  }

  /** The seven illegal opcodes and the reserved move are words of their own; any
      other word is the word of its instruction plus bits its format does not use. */
  lemma EncodeDecode(w: word)
    ensures var op, i := w / 0x400_0000, Decode(w);
            var a, b, low := w / 0x20_0000 % 32, w / 0x1_0000 % 32, w % 0x1_0000;
            && (i.Illegal? <==> op in [0x00, 0x01, 0x02, 0x0F, 0x16, 0x17, 0x22])
            && (i.MoveReserved? <==> op == 0x07 && a >= 16)
            && (i.Illegal? || i.MoveReserved? ==> i.w == w)
            && (!i.Illegal? && !i.MoveReserved? ==> Encodable(i) && Encode(i) + Unused(i, a, b, low) == w)
  {
    Groups(w);
    hide Encode, Encodable, Unused;
    if IllegalOpcode(Op6(w)) {
    } else if 8 <= Op6(w) < 32 {
      DataWord(Op6(w), GroupA(w), GroupB(w), Low(w));
    } else {
      ControlWord(w, Op6(w), GroupA(w), GroupB(w), Low(w));
    }
  }

  lemma Groups(w: word)
    ensures w == Assemble(Op6(w), GroupA(w), GroupB(w), Low(w))
  {
    var h := w / 0x1_0000;
    DivDiv(w, 0x1_0000, 32);
    DivDiv(w, 0x20_0000, 32);
    assert w == h * 0x1_0000 + w % 0x1_0000;
    assert h == h / 32 * 32 + h % 32;
  }

  predicate Rebuilt(i: Insn, op6: int, a: Reg, b: Reg, low: half)
    requires 0 <= op6 < 64
  {
    Encodable(i) && Encode(i) + Unused(i, a, b, low) == Assemble(op6, a, b, low)
  }

  lemma DataWord(op6: int, a: Reg, b: Reg, low: half)
    requires 8 <= op6 < 32 && !IllegalOpcode(op6)
    ensures var i := DecodeDA(op6, a, b, low); !i.Illegal? && !i.MoveReserved? && Rebuilt(i, op6, a, b, low)
  {
    DataFields(low);
    FirstGroup(a);
    if op6 >= 30 {
      SpecialWord(op6, a, b, low, low / 0x80 % 128, low % 128);
    } else {
      MacWord(op6, a, b, low, low / 0x4000, low / 0x80 % 128, low % 128);
    }
    hide Rebuilt;
  }

  lemma MacWord(op6: int, a: Reg, b: Reg, low: half, q: int, y: Field7, z: Field7)
    requires 8 <= op6 < 30 && !IllegalOpcode(op6) && 0 <= q < 4 && low == q * 0x4000 + y * 0x80 + z
    ensures Rebuilt(Mac(op6 / 8, op6 % 8, a / 8 % 2 == 1, a / 4 % 2 == 1, a % 4, b * 4 + q, y, z), op6, a, b, low)
  {
    FirstGroup(a);
    Halves(b, q);
    OpcodeParts(op6);
    MacUses(op6 / 8, op6 % 8, a / 8 % 2 == 1, a / 4 % 2 == 1, a % 4, b, q, y, z);
    hide Encode;
    var i := Mac(op6 / 8, op6 % 8, a / 8 % 2 == 1, a / 4 % 2 == 1, a % 4, b * 4 + q, y, z);
    assert Unused(i, a, b, low) == a / 16 * 0x200_0000;
  }

  lemma MacUses(fmt: U3, m: U3, fs: bool, ss: bool, an: U2, b: Reg, q: int, y: Field7, z: Field7)
    requires Encodable(Mac(fmt, m, fs, ss, an, 0, y, z)) && 0 <= q < 4
    ensures Encode(Mac(fmt, m, fs, ss, an, b * 4 + q, y, z))
            == Assemble(fmt * 8 + m, Flag(fs, 8) + Flag(ss, 4) + an, b, q * 0x4000 + y * 0x80 + z)
  {
    Halves(b, q);
  }

  lemma Halves(b: int, q: int)
    requires 0 <= q < 4
    ensures (b * 4 + q) / 4 == b && (b * 4 + q) % 4 == q
  {
  }

  lemma OpcodeParts(op6: int)
    requires 8 <= op6 < 30 && !IllegalOpcode(op6)
    ensures op6 / 8 * 8 + op6 % 8 == op6
    ensures (op6 / 8 == 1 && op6 % 8 <= 6) || ((op6 / 8 == 2 || op6 / 8 == 3) && op6 % 8 <= 5)
  {
  }

  lemma SpecialWord(op6: int, a: Reg, b: Reg, low: half, y: Field7, z: Field7)
    requires 30 <= op6 < 32 && low == low / 0x4000 * 0x4000 + y * 0x80 + z
    ensures Rebuilt(Special(op6 % 2 * 8 + a / 4, a % 4, y, z), op6, a, b, low)
  {
    var g: U4 := op6 % 2 * 8 + a / 4;
    assert 30 + g / 8 == op6 && g % 8 == a / 4;
    assert Encode(Special(g, a % 4, y, z)) == Assemble(op6, a, 0, y * 0x80 + z);
    hide Encode;
  }

  lemma DataFields(low: half)
    ensures low / 0x4000 * 0x4000 + low / 0x80 % 128 * 0x80 + low % 128 == low
  {
    var h := low / 0x80;
    DivDiv(low, 0x80, 128);
    assert h == h / 128 * 128 + h % 128;
  }

  lemma SourceFields(low: half)
    ensures low / 0x800 * 0x800 + low / 32 % 64 * 32 + low % 32 == low
    ensures low / 32 % 64 == low / 0x400 % 2 * 32 + low / 32 % 32
  {
    var h := low / 32;
    DivDiv(low, 32, 64);
    DivDiv(low, 32, 32);
    DivDiv(h, 32, 2);
    assert h == h / 64 * 64 + h % 64;
    assert h / 32 == h / 64 * 2 + h / 32 % 2;
  }

  lemma ControlWord(w: word, op6: int, a: Reg, b: Reg, low: half)
    requires 0 <= op6 < 64 && !(8 <= op6 < 32) && !IllegalOpcode(op6)
    ensures var i := DecodeCA(w, op6, a, b, low);
            && !i.Illegal? && (i.MoveReserved? <==> op6 == 0x07 && a >= 16) && (i.MoveReserved? ==> i.w == w)
            && (!i.MoveReserved? ==> Rebuilt(i, op6, a, b, low))
  {
    SourceFields(low);
    hide Rebuilt;
    var s, e := low / 0x800, low % 32;
    if op6 >= 0x28 {
      TwentyFour(op6, a, low);
      TwentyFourWord(op6, a, b, low, (op6 % 8 * 32 + a) * 0x1_0000 + low);
    } else if op6 == 0x23 {
      LoopWord(a, b, low, s);
    } else if op6 == 0x27 {
      MoveWord(a, b, low, s, e);
    } else if op6 == 0x06 || op6 == 0x26 {
      AluWord(op6, a, b, low, s, low / 32 % 64, e);
    } else if op6 == 0x20 || op6 == 0x21 {
      GotoWord(op6, a, b, low);
    } else {
      OtherWord(op6, a, b, low);
    }
  }

  lemma TwentyFourWord(op6: int, a: Reg, b: Reg, low: half, m: U24)
    requires 0x28 <= op6 < 0x40 && m / 0x20_0000 == op6 % 8 && m / 0x1_0000 % 32 == a && m % 0x1_0000 == low
    ensures Rebuilt(if op6 < 0x30 then Goto24(b, m) else if op6 < 0x38 then Set24(b, m) else Call24(b, m), op6, a, b, low)
  {
    assert (if op6 < 0x30 then 0x28 else if op6 < 0x38 then 0x30 else 0x38) + op6 % 8 == op6;
    hide Assemble;
  }

  lemma LoopWord(a: Reg, b: Reg, low: half, s: int)
    requires s == low / 0x800
    ensures Rebuilt(Do(a / 8 % 2 == 1, a / 4 % 2 == 1, b % 4 * 32 + s, if a >= 16 then CountReg(low % 32) else CountImm(low % 0x800)),
                    0x23, a, b, low)
  {
    LoopLow(low);
    var isReg, lock, block := a >= 16, a / 8 % 2 == 1, a / 4 % 2 == 1;
    LoopFlags(a);
    var count := if isReg then CountReg(low % 32) else CountImm(low % 0x800);
    var i := Do(lock, block, b % 4 * 32 + s, count);
    LoopUses(lock, block, b % 4, s, count);
    var spare := if isReg then low / 32 % 64 * 32 else 0;
    assert Unused(i, a, b, low) == a % 4 * 0x20_0000 + b / 4 * 0x4_0000 + spare;
    assert b == b / 4 * 4 + b % 4;
    hide Encode, Unused, Flag;
  }

  lemma LoopFlags(a: Reg)
    ensures Flag(a >= 16, 16) + Flag(a / 8 % 2 == 1, 8) + Flag(a / 4 % 2 == 1, 4) + a % 4 == a
  {
    FirstGroup(a);
  }

  lemma LoopLow(low: half)
    ensures low == low / 0x800 * 0x800 + low % 0x800
    ensures low == low / 0x800 * 0x800 + low / 32 % 64 * 32 + low % 32
  {
    SourceFields(low);
  }

  lemma LoopUses(lock: bool, block: bool, b: int, s: int, count: Count)
    requires 0 <= b < 4 && 0 <= s < 32
    ensures Encode(Do(lock, block, b * 32 + s, count))
            == Assemble(0x23, Flag(count.CountReg?, 16) + Flag(lock, 8) + Flag(block, 4), b,
                        s * 0x800 + (match count case CountReg(r) => r case CountImm(l) => l))
  {
    assert (b * 32 + s) / 32 == b && (b * 32 + s) % 32 == s;
  }

  lemma MoveWord(a: Reg, b: Reg, low: half, s: Reg, e: Reg)
    requires s == low / 0x800 && e == low % 32
    ensures Rebuilt(if a < 16 && low / 0x400 % 2 == 1 then MoveIor(a / 8 % 2 == 1, a % 8, b, e)
                    else MoveInd(a >= 16, a / 8 % 2 == 1, a % 8, b, s, e), 0x27, a, b, low)
  {
    SourceFields(low);
    FirstGroup(a);
  }

  lemma AluWord(op6: int, a: Reg, b: Reg, low: half, s: Reg, c: Cond, e: Reg)
    requires (op6 == 0x06 || op6 == 0x26) && low == s * 0x800 + c * 32 + e
    ensures Rebuilt(if a >= 16 then AluImm(op6 == 0x26, a % 16, b, low) else AluReg(op6 == 0x26, a % 16, b, s, c, e),
                    op6, a, b, low)
  {
  }

  lemma GotoWord(op6: int, a: Reg, b: Reg, low: half)
    requires op6 == 0x20 || op6 == 0x21
    ensures Rebuilt(Goto16(op6 % 2 * 32 + a, b, low), op6, a, b, low)
  {
  }

  lemma OtherWord(op6: int, a: Reg, b: Reg, low: half)
    requires op6 == 0x03 || op6 == 0x04 || op6 == 0x05 || op6 == 0x25 || op6 == 0x07 || op6 == 0x24
    ensures var i := DecodeCA(0, op6, a, b, low); !i.MoveReserved? ==> Rebuilt(i, op6, a, b, low)
  {
    FirstGroup(a);
  }

  lemma FirstGroup(a: Reg)
    ensures a == a / 16 * 16 + a % 16 && a % 16 == a / 8 % 2 * 8 + a % 8 && a % 8 == a / 4 % 2 * 4 + a % 4
  {
  }

  lemma TwentyFour(op6: int, a: Reg, low: half)
    requires 0x28 <= op6 < 0x40
    ensures var m := (op6 % 8 * 32 + a) * 0x1_0000 + low;
            m / 0x20_0000 == op6 % 8 && m / 0x1_0000 % 32 == a && m % 0x1_0000 == low
  {
    var m, h := (op6 % 8 * 32 + a) * 0x1_0000 + low, op6 % 8 * 32 + a;
    assert m / 0x1_0000 == h && m % 0x1_0000 == low;
    DivDiv(m, 0x1_0000, 32);
  }
}
