/**
 * The table-driven CRC-32 of setup/lib/teams-manifest.ts against the bit-by-bit register of the PNG
 * Specification (Second Edition), section 5.5 and Annex D.
 */
module Crc32 {
  import opened ShiftRegister

  type byte = bv8

  const POLY: bv32 := 0xedb88320
  const ONES: bv32 := 0xffffffff

  function Xor(a: bv32, b: bv32): bv32 { a ^ b }

  function Half(m: bv32): bv32 { m >> 1 }

  predicate Odd(m: bv32) { m & 1 == 1 }

  /** The polynomial is added when a one was shifted out. */
  function Reduce(carry: bool, half: bv32): bv32 {
    if carry then Xor(POLY, half) else half
  }

  // ---- The reference: one bit at a time ----

  /** One data bit enters the register: the register shifts right, and the polynomial is added when the bit
      shifted out differs from the data bit. */
  function BitStep(reg: bv32, bit: bool): bv32 {
    Reduce(Odd(reg) != bit, Half(reg))
  }

  /** The eight bits of a byte enter the register, least significant first. */
  function BitwiseByte(reg: bv32, b: byte): bv32 {
    Feed(BitStep, Odd, Half, reg, b as bv32, 8)
  }

  /** The register starts as all ones and is inverted at the end. */
  function BitwiseCrc(data: seq<byte>): bv32 {
    Xor(Absorb(BitwiseByte, ONES, data), ONES)
  }

  // ---- The source's table and loop ----

  /** The body of the table loop. */
  function Shift(c: bv32): bv32 {
    Reduce(Odd(c), Half(c))
  }

  function Shifts(c: bv32, n: nat): bv32 {
    Iterate(Shift, c, n)
  }

  /** `x & 0xff` as an index. */
  function LowByte(x: bv32): (i: nat)
    ensures i < 256
  {
    (x & 0xff) as int
  }

  /** What the table loop leaves at index `n`. */
  function TableEntry(n: int): bv32
    requires 0 <= n < 256
  {
    Shifts(n as bv32, 8)
  }

  ghost predicate IsCrcTable(table: seq<bv32>) {
    |table| == 256 && forall n :: 0 <= n < 256 ==> table[n] == TableEntry(n)
  }

  method BuildTable() returns (table: array<bv32>)
    ensures fresh(table) && IsCrcTable(table[..])
  {
    table := new bv32[256];
    for n := 0 to 256
      invariant forall i :: 0 <= i < n ==> table[i] == TableEntry(i)
    {
      var c := n as bv32;
      for k := 0 to 8
        invariant Shifts(c, 8 - k) == TableEntry(n)
        invariant forall i :: 0 <= i < n ==> table[i] == TableEntry(i)
      {
        ShiftsOnce(c, 8 - k);
        c := Shift(c);
      }
      assert c == Shifts(c, 0);
      table[n] := c;
    }
  }

  /** The source's step: look up the low byte of the mixed register, and move the rest down. */
  function TableByte(table: seq<bv32>, c: bv32, b: byte): bv32
    requires |table| == 256
  {
    Xor(table[LowByte(Xor(c, b as bv32))], c >> 8)
  }

  method Crc32(table: array<bv32>, buf: array<byte>) returns (crc: bv32)
    requires IsCrcTable(table[..])
    ensures crc == BitwiseCrc(buf[..])
  {
    var c := ONES;
    for i := 0 to buf.Length
      invariant c == Absorb(BitwiseByte, ONES, buf[..i])
    {
      TableStep(table[..], c, buf[i]);
      AbsorbOneMore(BitwiseByte, ONES, buf[..], i);
      c := TableByte(table[..], c, buf[i]);
    }
    assert buf[..buf.Length] == buf[..];
    crc := Xor(c, ONES);
  }

  // ---- One step: facts about bits ----

  lemma ShiftsOnce(c: bv32, n: nat)
    requires n > 0
    ensures Shifts(c, n) == Shifts(Shift(c), n - 1)
  {
  }

  lemma ParityOfXor(a: bv32, b: bv32)
    ensures Odd(Xor(a, b)) <==> Odd(a) != Odd(b)
    ensures Half(Xor(a, b)) == Xor(Half(a), Half(b))
  {
  }

  lemma XorRaw(p: bv32, a: bv32, b: bv32)
    ensures Xor(p, a ^ b) == Xor(p ^ a, b) == Xor(a, p ^ b)
  {
  }

  lemma XorLeft(p: bv32, a: bv32, b: bv32)
    ensures Xor(p, Xor(a, b)) == Xor(Xor(p, a), b)
  {
    calc {
      Xor(p, Xor(a, b));
      Xor(p, a ^ b);
      { XorRaw(p, a, b); }
      Xor(p ^ a, b);
      Xor(Xor(p, a), b);
    }
  }

  lemma XorRight(p: bv32, a: bv32, b: bv32)
    ensures Xor(p, Xor(a, b)) == Xor(a, Xor(p, b))
  {
    calc {
      Xor(p, Xor(a, b));
      Xor(p, a ^ b);
      { XorRaw(p, a, b); }
      Xor(a, p ^ b);
      Xor(a, Xor(p, b));
    }
  }

  lemma XorBothRaw(p: bv32, a: bv32, b: bv32)
    ensures Xor(p ^ a, p ^ b) == Xor(a, b)
  {
  }

  lemma XorBoth(p: bv32, a: bv32, b: bv32)
    ensures Xor(Xor(p, a), Xor(p, b)) == Xor(a, b)
  {
    XorBothRaw(p, a, b);
    assert Xor(Xor(p, a), Xor(p, b)) == Xor(p ^ a, p ^ b);
  }

  lemma ReduceLeft(p: bool, x: bv32, y: bv32)
    ensures Reduce(p, Xor(x, y)) == Xor(Reduce(p, x), y)
  {
    if p {
      XorLeft(POLY, x, y);
    }
  }

  lemma ReduceRight(p: bool, x: bv32, y: bv32)
    ensures Reduce(p, Xor(x, y)) == Xor(x, Reduce(p, y))
  {
    if p {
      XorRight(POLY, x, y);
    }
  }

  lemma ReduceBoth(x: bv32, y: bv32)
    ensures Xor(x, y) == Xor(Reduce(true, x), Reduce(true, y))
  {
    XorBoth(POLY, x, y);
  }

  lemma ReduceOfXor(p: bool, q: bool, x: bv32, y: bv32)
    ensures Reduce(p != q, Xor(x, y)) == Xor(Reduce(p, x), Reduce(q, y))
  {
    if !q {
      ReduceLeft(p, x, y);
    } else if !p {
      ReduceRight(q, x, y);
    } else {
      ReduceBoth(x, y);
    }
  }

  lemma ShiftOfXor(a: bv32, b: bv32)
    ensures Shift(Xor(a, b)) == Xor(Shift(a), Shift(b))
  {
    ParityOfXor(a, b);
    ReduceOfXor(Odd(a), Odd(b), Half(a), Half(b));
  }

  lemma ShiftOfMixed(reg: bv32, m: bv32)
    ensures Shift(Xor(reg, m)) == Xor(BitStep(reg, Odd(m)), Half(m))
  {
    ParityOfXor(reg, m);
    ReduceLeft(Odd(reg) != Odd(m), Half(reg), Half(m));
  }

  // ---- One byte ----

  lemma ShiftsOfXor(a: bv32, b: bv32, n: nat)
    ensures Shifts(Xor(a, b), n) == Xor(Shifts(a, n), Shifts(b, n))
  {
    forall x, y ensures Shift(Xor(x, y)) == Xor(Shift(x), Shift(y)) {
      ShiftOfXor(x, y);
    }
    IterateOfSum(Shift, Xor, a, b, n);
  }

  lemma HalfChain(x: bv32)
    ensures Half(Half(Half(Half(Half(Half(Half(Half(x)))))))) == x >> 8
  {
  }

  lemma EvenChain(x: bv32)
    requires x & 0xff == 0
    ensures
      var (x1, x2, x3, x4) := (x >> 1, x >> 2, x >> 3, x >> 4);
      var (x5, x6, x7) := (x >> 5, x >> 6, x >> 7);
      && !Odd(x) && !Odd(x1) && !Odd(x2) && !Odd(x3) && !Odd(x4) && !Odd(x5) && !Odd(x6) && !Odd(x7)
      && Half(x) == x1 && Half(x1) == x2 && Half(x2) == x3 && Half(x3) == x4
      && Half(x4) == x5 && Half(x5) == x6 && Half(x6) == x7 && Half(x7) == x >> 8
  {
  }

  /** While the bits shifted out are clear, shifting only moves the value. */
  lemma ShiftsOfHigh(x: bv32)
    requires x & 0xff == 0
    ensures Shifts(x, 8) == x >> 8
  {
    EvenChain(x);
    IterateEight(Shift, x);
  }

  /** One byte enters the register, all its bits added at once. */
  function ByteStep(reg: bv32, b: byte): bv32 {
    Shifts(Xor(reg, b as bv32), 8)
  }

  lemma XorZero(x: bv32)
    ensures Xor(x, 0) == x
  {
  }

  lemma ByteFits(b: byte)
    ensures (b as bv32) >> 8 == 0
  {
  }

  lemma {:induction false} HalvedToNothing(m: bv32)
    requires m >> 8 == 0
    ensures Iterate(Half, m, 8) == 0
  {
    IterateEight(Half, m);
    HalfChain(m);
  }

  lemma ShiftIsLinear()
    ensures forall r, d :: Shift(Xor(r, d)) == Xor(BitStep(r, Odd(d)), Half(d))
  {
    forall r, d ensures Shift(Xor(r, d)) == Xor(BitStep(r, Odd(d)), Half(d)) {
      ShiftOfMixed(r, d);
    }
  }

  lemma {:induction false} ShiftsOfMixed(reg: bv32, m: bv32)
    ensures Shifts(Xor(reg, m), 8) == Xor(Feed(BitStep, Odd, Half, reg, m, 8), Iterate(Half, m, 8))
  {
    ShiftIsLinear();
    FeedIsShift(Shift, Xor, BitStep, Odd, Half, reg, m, 8);
  }

  lemma ByteStepIsBitwise(reg: bv32, b: byte)
    ensures ByteStep(reg, b) == BitwiseByte(reg, b)
  {
    ByteFits(b);
    HalvedToNothing(b as bv32);
    ShiftsOfMixed(reg, b as bv32);
    XorZero(BitwiseByte(reg, b));
  }

  lemma LowPlusHigh(x: bv32)
    ensures x == Xor(x & 0xff, x & 0xffffff00)
  {
  }

  lemma HighIsClear(x: bv32)
    ensures (x & 0xffffff00) & 0xff == 0
  {
  }

  lemma HighOfMixed(c: bv32, b: byte)
    ensures (Xor(c, b as bv32) & 0xffffff00) >> 8 == c >> 8
  {
  }

  lemma IntBack(x: bv32)
    ensures (x as int) as bv32 == x
  {
  }

  lemma TableAt(table: seq<bv32>, x: bv32)
    requires IsCrcTable(table)
    ensures table[LowByte(x)] == Shifts(x & 0xff, 8)
  {
    IntBack(x & 0xff);
  }

  lemma HighOfMixedMoves(c: bv32, b: byte, high: bv32)
    requires high == Xor(c, b as bv32) & 0xffffff00
    ensures Shifts(high, 8) == c >> 8
  {
    HighIsClear(Xor(c, b as bv32));
    HighOfMixed(c, b);
    ShiftsOfHigh(high);
  }

  lemma EntryStep(c: bv32, b: byte, entry: bv32)
    requires entry == Shifts(Xor(c, b as bv32) & 0xff, 8)
    ensures Xor(entry, c >> 8) == BitwiseByte(c, b)
  {
    var mixed := Xor(c, b as bv32);
    LowPlusHigh(mixed);
    HighOfMixedMoves(c, b, mixed & 0xffffff00);
    ByteInHalves(c, b, mixed, mixed & 0xff, mixed & 0xffffff00, c >> 8);
  }

  /** One turn of the source's loop is the byte entering bit by bit. */
  lemma TableStep(table: seq<bv32>, c: bv32, b: byte)
    requires IsCrcTable(table)
    ensures TableByte(table, c, b) == BitwiseByte(c, b)
  {
    TableAt(table, Xor(c, b as bv32));
    EntryStep(c, b, table[LowByte(Xor(c, b as bv32))]);
  }

  lemma ByteInHalves(c: bv32, b: byte, mixed: bv32, low: bv32, high: bv32, moved: bv32)
    requires mixed == Xor(c, b as bv32) && mixed == Xor(low, high) && Shifts(high, 8) == moved
    ensures Xor(Shifts(low, 8), moved) == BitwiseByte(c, b)
  {
    ShiftsOfXor(low, high, 8);
    ByteStepIsBitwise(c, b);
  }

  // ---- Error detection ----

  lemma ShiftIsInjective(a: bv32, b: bv32)
    requires Shift(a) == Shift(b)
    ensures a == b
  {
    assert Odd(a) == Odd(b) by { TopBit(a, b); }
    SameHalf(a, b);
  }

  /** The polynomial has its top bit set and a shifted value has it clear, so the bit shifted out shows. */
  lemma TopBit(a: bv32, b: bv32)
    ensures Xor(POLY, Half(a)) != Half(b)
    ensures Xor(POLY, Half(b)) != Half(a)
  {
  }

  lemma SameHalf(a: bv32, b: bv32)
    requires Odd(a) == Odd(b)
    requires Half(a) == Half(b) || Xor(POLY, Half(a)) == Xor(POLY, Half(b))
    ensures a == b
  {
  }

  lemma ShiftsInjective(a: bv32, b: bv32, n: nat)
    requires Shifts(a, n) == Shifts(b, n)
    ensures a == b
  {
    forall x, y | Shift(x) == Shift(y) ensures x == y {
      ShiftIsInjective(x, y);
    }
    IterateIsInjective(Shift, a, b, n);
  }

  lemma XorCancels(a: bv32, b: bv32, m: bv32)
    requires Xor(a, m) == Xor(b, m)
    ensures a == b
  {
  }

  /** The register after a byte determines the register before it. */
  lemma ByteStepInjective(a: bv32, b: bv32, d: byte)
    requires BitwiseByte(a, d) == BitwiseByte(b, d)
    ensures a == b
  {
    ByteStepIsBitwise(a, d);
    ByteStepIsBitwise(b, d);
    ShiftsInjective(Xor(a, d as bv32), Xor(b, d as bv32), 8);
    XorCancels(a, b, d as bv32);
  }

  lemma {:induction false} RestInjective(a: bv32, b: bv32, data: seq<byte>)
    requires Absorb(BitwiseByte, a, data) == Absorb(BitwiseByte, b, data)
    ensures a == b
  {
    forall x, y, d | BitwiseByte(x, d) == BitwiseByte(y, d) ensures x == y {
      ByteStepInjective(x, y, d);
    }
    AbsorbIsInjective(BitwiseByte, a, b, data);
  }

  /** Four bytes as one register value, first byte lowest. */
  function Word(b0: byte, b1: byte, b2: byte, b3: byte): bv32 {
    Xor(b0 as bv32, Xor((b1 as bv32) << 8, Xor((b2 as bv32) << 16, (b3 as bv32) << 24)))
  }

  lemma WordIsInjective(
      a0: byte, a1: byte, a2: byte, a3: byte, b0: byte, b1: byte, b2: byte, b3: byte)
    requires Word(a0, a1, a2, a3) == Word(b0, b1, b2, b3)
    ensures a0 == b0 && a1 == b1 && a2 == b2 && a3 == b3
  {
  }

  /** A value added above the low byte comes down by one byte when a byte enters. */
  lemma ByteStepOfMixed(reg: bv32, b: byte, word: bv32, high: bv32, rest: bv32)
    requires Xor(reg, word) == Xor(Xor(reg, b as bv32), high) && Shifts(high, 8) == rest
    ensures Shifts(Xor(reg, word), 8) == Xor(BitwiseByte(reg, b), rest)
  {
    ShiftsOfXor(Xor(reg, b as bv32), high, 8);
    ByteStepIsBitwise(reg, b);
  }

  /** What of the word is still to come after 1, 2 and 3 of its bytes. */
  function Word3(b1: byte, b2: byte, b3: byte): bv32 {
    Xor(b1 as bv32, Xor((b2 as bv32) << 8, (b3 as bv32) << 16))
  }

  function Word2(b2: byte, b3: byte): bv32 {
    Xor(b2 as bv32, (b3 as bv32) << 8)
  }

  lemma Word3MovesDown(b1: byte, b2: byte, b3: byte)
    ensures Shifts(Word3(b1, b2, b3) << 8, 8) == Word3(b1, b2, b3)
  {
    ShiftsOfHigh(Word3(b1, b2, b3) << 8);
  }

  lemma ThreeToCome(reg: bv32, b0: byte, b1: byte, b2: byte, b3: byte)
    ensures Shifts(Xor(reg, Word(b0, b1, b2, b3)), 8) == Xor(BitwiseByte(reg, b0), Word3(b1, b2, b3))
  {
    var high := Word3(b1, b2, b3) << 8;
    assert Word(b0, b1, b2, b3) == Xor(b0 as bv32, high);
    XorLeft(reg, b0 as bv32, high);
    Word3MovesDown(b1, b2, b3);
    ByteStepOfMixed(reg, b0, Word(b0, b1, b2, b3), high, Word3(b1, b2, b3));
  }

  lemma Word2MovesDown(b2: byte, b3: byte)
    ensures Shifts(Word2(b2, b3) << 8, 8) == Word2(b2, b3)
  {
    ShiftsOfHigh(Word2(b2, b3) << 8);
  }

  lemma TwoToCome(reg: bv32, b1: byte, b2: byte, b3: byte)
    ensures Shifts(Xor(reg, Word3(b1, b2, b3)), 8) == Xor(BitwiseByte(reg, b1), Word2(b2, b3))
  {
    var high := Word2(b2, b3) << 8;
    assert Word3(b1, b2, b3) == Xor(b1 as bv32, high);
    XorLeft(reg, b1 as bv32, high);
    Word2MovesDown(b2, b3);
    ByteStepOfMixed(reg, b1, Word3(b1, b2, b3), high, Word2(b2, b3));
  }

  lemma ByteMovesDown(b: byte)
    ensures Shifts((b as bv32) << 8, 8) == b as bv32
  {
    ShiftsOfHigh((b as bv32) << 8);
  }

  lemma OneToCome(reg: bv32, b2: byte, b3: byte)
    ensures Shifts(Xor(reg, Word2(b2, b3)), 8) == Xor(BitwiseByte(reg, b2), b3 as bv32)
  {
    var high := (b3 as bv32) << 8;
    assert Word2(b2, b3) == Xor(b2 as bv32, high);
    XorLeft(reg, b2 as bv32, high);
    ByteMovesDown(b3);
    ByteStepOfMixed(reg, b2, Word2(b2, b3), high, b3 as bv32);
  }

  /** Four bytes entering one after another are one word added and 32 shifts. */
  lemma {:induction false} FourBytes(reg: bv32, b0: byte, b1: byte, b2: byte, b3: byte)
    ensures Absorb(BitwiseByte, reg, [b0, b1, b2, b3]) == Shifts(Xor(reg, Word(b0, b1, b2, b3)), 32)
  {
    var r1 := BitwiseByte(reg, b0);
    var r2 := BitwiseByte(r1, b1);
    var r3 := BitwiseByte(r2, b2);
    ThreeToCome(reg, b0, b1, b2, b3);
    TwoToCome(r1, b1, b2, b3);
    OneToCome(r2, b2, b3);
    ByteStepIsBitwise(r3, b3);
    ThirtyTwoShifts(Xor(reg, Word(b0, b1, b2, b3)));
    AbsorbFour(BitwiseByte, reg, [b0, b1, b2, b3]);
  }

  lemma ThirtyTwoShifts(x: bv32)
    ensures Shifts(x, 32) == Shifts(Shifts(Shifts(Shifts(x, 8), 8), 8), 8)
  {
    IterateTwice(Shift, x, 8, 24);
    IterateTwice(Shift, Shifts(x, 8), 8, 16);
    IterateTwice(Shift, Shifts(Shifts(x, 8), 8), 8, 8);
  }

  /** Bursts up to 32 bits are always seen: two messages of the same length that differ only inside a window
      of at most four bytes have different CRCs. In particular, so do two that differ in one byte. */
  lemma BurstsChangeTheCrc(front: seq<byte>, x: seq<byte>, y: seq<byte>, back: seq<byte>)
    requires |x| == |y| <= 4 && x != y
    ensures BitwiseCrc(front + x + back) != BitwiseCrc(front + y + back)
  {
    if BitwiseCrc(front + x + back) == BitwiseCrc(front + y + back) {
      SameCrcSameWindow(front, x, y, back);
    }
  }

  lemma SameCrcSameWindow(front: seq<byte>, x: seq<byte>, y: seq<byte>, back: seq<byte>)
    requires |x| == |y| <= 4
    requires BitwiseCrc(front + x + back) == BitwiseCrc(front + y + back)
    ensures x == y
  {
    SameRegisters(front, x, y, back);
    var reg := Absorb(BitwiseByte, ONES, front);
    var pad: seq<byte> := seq(4 - |x|, i => 0);
    AbsorbOfAppend(BitwiseByte, reg, x, pad);
    AbsorbOfAppend(BitwiseByte, reg, y, pad);
    SameFour(reg, x + pad, y + pad);
    assert x == (x + pad)[..|x|] && y == (y + pad)[..|x|];
  }

  lemma {:induction false} SameRegisters(front: seq<byte>, x: seq<byte>, y: seq<byte>, back: seq<byte>)
    requires BitwiseCrc(front + x + back) == BitwiseCrc(front + y + back)
    ensures
      var reg := Absorb(BitwiseByte, ONES, front);
      Absorb(BitwiseByte, reg, x) == Absorb(BitwiseByte, reg, y)
  {
    AbsorbOfAppend(BitwiseByte, ONES, front + x, back);
    AbsorbOfAppend(BitwiseByte, ONES, front + y, back);
    AbsorbOfAppend(BitwiseByte, ONES, front, x);
    AbsorbOfAppend(BitwiseByte, ONES, front, y);
    var reg := Absorb(BitwiseByte, ONES, front);
    XorCancels(Absorb(BitwiseByte, ONES, front + x + back), Absorb(BitwiseByte, ONES, front + y + back), ONES);
    RestInjective(Absorb(BitwiseByte, reg, x), Absorb(BitwiseByte, reg, y), back);
  }

  lemma {:induction false} SameFour(reg: bv32, x: seq<byte>, y: seq<byte>)
    requires |x| == |y| == 4 && Absorb(BitwiseByte, reg, x) == Absorb(BitwiseByte, reg, y)
    ensures x == y
  {
    assert x == [x[0], x[1], x[2], x[3]] && y == [y[0], y[1], y[2], y[3]];
    FourBytes(reg, x[0], x[1], x[2], x[3]);
    FourBytes(reg, y[0], y[1], y[2], y[3]);
    var wx, wy := Word(x[0], x[1], x[2], x[3]), Word(y[0], y[1], y[2], y[3]);
    ShiftsInjective(Xor(reg, wx), Xor(reg, wy), 32);
    WordsCancel(reg, wx, wy);
    WordIsInjective(x[0], x[1], x[2], x[3], y[0], y[1], y[2], y[3]);
  }

  lemma WordsCancel(reg: bv32, a: bv32, b: bv32)
    requires Xor(reg, a) == Xor(reg, b)
    ensures a == b
  {
  }

  // ---- A known value ----

  lemma EightShifts(c: bv32, c1: bv32, c2: bv32, c3: bv32, c4: bv32, c5: bv32, c6: bv32, c7: bv32, c8: bv32)
    requires Shift(c) == c1 && Shift(c1) == c2 && Shift(c2) == c3 && Shift(c3) == c4
    requires Shift(c4) == c5 && Shift(c5) == c6 && Shift(c6) == c7 && Shift(c7) == c8
    ensures Shifts(c, 8) == c8
  {
    IterateEight(Shift, c);
  }

  /** The checksum of the four letters of an IEND chunk, which ends every PNG file, is that of PNG. It depends on the
      polynomial, on the value that the register starts with, on the final inversion and on the order of the bits. */
  lemma EndMarkerCrc()
    ensures BitwiseCrc([0x49, 0x45, 0x4e, 0x44]) == 0xae426082
  {
    FourBytes(ONES, 0x49, 0x45, 0x4e, 0x44);
    assert Xor(ONES, Word(0x49, 0x45, 0x4e, 0x44)) == 0xbbb1bab6;
    ThirtyTwoShifts(0xbbb1bab6);
    EightShifts(0xbbb1bab6,
      0x5dd8dd5b, 0xc354ed8d, 0x8c12f5e6, 0x46097af3,
      0xcebc3e59, 0x8ae69c0c, 0x45734e06, 0x22b9a703);
    EightShifts(0x22b9a703,
      0xfce450a1, 0x93caab70, 0x49e555b8, 0x24f2aadc,
      0x1279556e, 0x093caab7, 0xe926d67b, 0x992be81d);
    EightShifts(0x992be81d,
      0xa12d772e, 0x5096bb97, 0xc5f3deeb, 0x8f416c55,
      0xaa18350a, 0x550c1a85, 0xc73e8e62, 0x639f4731);
    EightShifts(0x639f4731,
      0xdc7720b8, 0x6e3b905c, 0x371dc82e, 0x1b8ee417,
      0xe07ff12b, 0x9d877bb5, 0xa37b3efa, 0x51bd9f7d);
  }
}
