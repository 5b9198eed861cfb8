/** Fetching: four bytes in memory are the instruction that runs. */
module Fetching {
  import opened Words
  import opened Insn
  import opened Core
  import opened Machine
  import opened Interrupts

  /** The bytes of w, big end first, at address a. */
  predicate HoldsWord(c: Core, a: word, w: word) {
    && BigEndian(c)
    && ByteAt(c.mem, Computer(c), a) == Some(w / 0x100_0000)
    && ByteAt(c.mem, Computer(c), Wrap(a + 1)) == Some(w / 0x1_0000 % 0x100)
    && ByteAt(c.mem, Computer(c), Wrap(a + 2)) == Some(w / 0x100 % 0x100)
    && ByteAt(c.mem, Computer(c), Wrap(a + 3)) == Some(w % 0x100)
  }

  lemma JoinFour(b0: byte, b1: byte, b2: byte, b3: byte)
    ensures JoinWord([b0, b1, b2, b3], true) == b0 * 0x100_0000 + b1 * 0x1_0000 + b2 * 0x100 + b3
  {
    var all := [b0, b1, b2, b3];
    assert all[..3] == [b0, b1, b2];
    assert [b0, b1, b2][..2] == [b0, b1];
    assert [b0, b1][..1] == [b0];
    assert [b0][..0] == [];
    assert Join([b0], true) == b0;
    assert Join([b0, b1], true) == b0 * 0x100 + b1;
    assert Join([b0, b1, b2], true) == (b0 * 0x100 + b1) * 0x100 + b2;
  }

  lemma NextByte(m: Memory, computer: bool, a: word, b: byte, rest: seq<byte>)
    requires ByteAt(m, computer, a) == Some(b) && ReadBytes(m, computer, Wrap(a + 1), |rest|) == Some(rest)
    ensures ReadBytes(m, computer, a, |rest| + 1) == Some([b] + rest)
  {
  }

  lemma WrapTwice(a: int, k: int)
    ensures Wrap(Wrap(a + k) + 1) == Wrap(a + (k + 1))
  {
  }

  lemma WordRead(c: Core, a: word, w: word)
    requires HoldsWord(c, a, w)
    ensures ReadBytes(c.mem, Computer(c), a, 4).Some?
    ensures JoinWord(ReadBytes(c.mem, Computer(c), a, 4).value, BigEndian(c)) == w
  {
    var b0: byte, b1: byte, b2: byte, b3: byte := w / 0x100_0000, w / 0x1_0000 % 0x100, w / 0x100 % 0x100, w % 0x100;
    BytesOfWord(w);
    FourBytes(c.mem, Computer(c), a, b0, b1, b2, b3);
    JoinFour(b0, b1, b2, b3);
    hide ReadBytes, JoinWord, ByteAt, Computer;
  }

  lemma BytesOfWord(w: word)
    ensures w / 0x100_0000 * 0x100_0000 + w / 0x1_0000 % 0x100 * 0x1_0000 + w / 0x100 % 0x100 * 0x100 + w % 0x100 == w
  {
  }

  lemma FourBytes(m: Memory, computer: bool, a: word, b0: byte, b1: byte, b2: byte, b3: byte)
    requires ByteAt(m, computer, a) == Some(b0) && ByteAt(m, computer, Wrap(a + 1)) == Some(b1)
    requires ByteAt(m, computer, Wrap(a + 2)) == Some(b2) && ByteAt(m, computer, Wrap(a + 3)) == Some(b3)
    ensures ReadBytes(m, computer, a, 4) == Some([b0, b1, b2, b3])
  {
    WrapTwice(a, 1);
    WrapTwice(a, 2);
    assert ReadBytes(m, computer, Wrap(Wrap(a + 3) + 1), 0) == Some([]);
    hide ByteAt, ReadBytes, Wrap;
    assert [b3] + [] == [b3] && [b2] + [b3] == [b2, b3] && [b1] + [b2, b3] == [b1, b2, b3];
    assert [b0] + [b1, b2, b3] == [b0, b1, b2, b3];
    NextByte(m, computer, Wrap(a + 3), b3, []);
    NextByte(m, computer, Wrap(a + 2), b2, [b3]);
    NextByte(m, computer, Wrap(a + 1), b1, [b2, b3]);
    NextByte(m, computer, a, b0, [b1, b2, b3]);
  }

  /** The word at pc is fetched and runs. */
  lemma FetchRuns(s: State, w: word)
    requires s.c.pc % 4 == 0 && HoldsWord(s.c, s.c.pc, w)
    ensures FetchSlot(s) == Runs(Fetched(s.(c := s.c.(curInsn := s.c.pc))), Decode(w), s.c.pc)
    ensures RawRead(s.c, s.c.pc, 4) == Some(w)
  {
    var c := s.c.(curInsn := s.c.pc);
    WordRead(c, c.pc, w);
    WordRead(s.c, s.c.pc, w);
    hide ReadBytes, JoinWord, Decode, Fetched, Computer, BigEndian;
    assert AlignDown(c.pc, 4) == c.pc;
  }

  /** So a waking boundary without interrupt runs it. */
  lemma PlainFetch(s: State, w: word)
    requires s.c.pc % 4 == 0 && HoldsWord(s.c, s.c.pc, w)
    requires !Interrupted(s) && !s.h.irshPending && s.c.level != DoubleError && !s.c.waiting
    ensures NextSlot(s).Runs? && NextSlot(s).insn == Decode(w) && RunsAt(s, NextSlot(s))
  {
    hide PendingFrom, FetchSlot, Decode, HoldsWord, Fetched;
    var p := s.(c := PinTick(s.c));
    var t := Recognise(p);
    assert t == p.(c := p.c.(intDefer := false));
    SameBytes(s.c, t.c, s.c.pc, w);
    FetchRuns(t, w);
    assert NextSlot(s) == FetchSlot(t);
  }

  lemma SameBytes(c: Core, d: Core, a: word, w: word)
    requires HoldsWord(c, a, w) && d.mem == c.mem && d.pcw == c.pcw
    ensures HoldsWord(d, a, w)
  {
  }
}
