/** The bitwise CRC-32 of the wire protocol (the FCS of section 3.2.9 of IEEE 802.3) and its
    burst-error guarantee. */
module Crc {
  import opened BitMachine
  import opened Polynomials

  type Byte = bv8
  type Word = bv32

  const POLYNOMIAL: Word := 0xEDB8_8320
  const INITIAL: Word := 0xFFFF_FFFF

  /** One iteration of the source's inner loop: mask arithmetic instead of a branch. */
  function Shift(crc: Word): Word {
    var mask := 0 - (crc & 1);
    (crc >> 1) ^ (POLYNOMIAL & mask)
  }

  function Shifts(crc: Word, n: nat): Word
    decreases n
  {
    if n == 0 then crc else Shifts(Shift(crc), n - 1)
  }

  function FeedByte(crc: Word, b: Byte): Word {
    Shifts(crc ^ (b as Word), 8)
  }

  function Feed(crc: Word, data: seq<Byte>): Word
    decreases |data|
  {
    if data == [] then crc else Feed(FeedByte(crc, data[0]), data[1..])
  }

  function Crc32(data: seq<Byte>): Word {
    !Feed(INITIAL, data)
  }

  /** The nested loops of the source. */
  method ComputeCrc32(data: seq<Byte>) returns (r: Word)
    ensures r == Crc32(data)
  {
    var crc := INITIAL;
    for i := 0 to |data|
      invariant Feed(crc, data[i..]) == Feed(INITIAL, data)
    {
      var start := crc;
      crc := crc ^ (data[i] as Word);
      for j := 0 to 8
        invariant Shifts(crc, 8 - j) == FeedByte(start, data[i])
      {
        var mask := 0 - (crc & 1);
        crc := (crc >> 1) ^ (POLYNOMIAL & mask);
      }
    }
    r := !crc;
  }

  // ---------------------------------------------------------------------------
  // The register as a lawful bit machine.

  function Bit(b: bool): Word {
    if b then 1 else 0
  }

  function Xor(a: Word, b: Word): Word {
    a ^ b
  }

  function Step(crc: Word): Word {
    (crc >> 1) ^ Feedback(crc)
  }

  function Feedback(crc: Word): Word {
    if crc & 1 == 1 then POLYNOMIAL else 0
  }

  function Double(w: Word): Word {
    w << 1
  }

  function Join(w: Word, b: bool): Word {
    (w << 1) | Bit(b)
  }

  /** The word whose `n` lowest bits are set. */
  function LowBits(n: nat): Word {
    if n == 0 then 0 else (LowBits(n - 1) << 1) | 1
  }

  lemma DoubledSubset(w: Word, m: Word, b: bool)
    requires w & !m == 0
    ensures ((w << 1) | Bit(b)) & !((m << 1) | 1) == 0
  {
  }

  lemma {:induction false} LowBitsGrow(n: nat)
    ensures LowBits(n) & !LowBits(n + 1) == 0
  {
    if n > 0 {
      LowBitsGrow(n - 1);
      DoubledSubset(LowBits(n - 1), LowBits(n), true);
    }
  }

  lemma SubsetTransitive(a: Word, b: Word, c: Word)
    requires a & !b == 0 && b & !c == 0
    ensures a & !c == 0
  {
  }

  lemma {:induction false} LowBitsBelowTop(n: nat)
    requires n <= 31
    ensures LowBits(n) & !0x7FFF_FFFF == 0
    decreases 31 - n
  {
    if n == 31 {
      assert LowBits(8) == 0xFF;
      assert LowBits(16) == 0xFFFF;
      assert LowBits(24) == 0xFF_FFFF;
      assert LowBits(31) == 0x7FFF_FFFF;
    } else {
      LowBitsBelowTop(n + 1);
      LowBitsGrow(n);
      SubsetTransitive(LowBits(n), LowBits(n + 1), 0x7FFF_FFFF);
    }
  }

  predicate Fits(w: Word, n: nat) {
    n >= 32 || w & !LowBits(n) == 0
  }

  function Register(): Machine<Word> {
    Machine(32, 0, Step, Xor, Bit, Double, Join, Fits)
  }

  /** The mask of the source's inner loop is a branch on the lowest bit. */
  lemma MaskIsBranch(a: Word)
    ensures Shift(a) == Step(a)
  {
    LowBitIsBit(a);
    if a & 1 == 0 {
      assert 0 - (a & 1) == 0;
    } else {
      assert 0 - (a & 1) == 0xFFFF_FFFF;
    }
  }

  lemma LowBitIsBit(a: Word)
    ensures a & 1 == 0 || a & 1 == 1
  {
  }

  lemma HalvesXor(a: Word, b: Word)
    ensures (a ^ b) >> 1 == (a >> 1) ^ (b >> 1)
  {
  }

  lemma LowBitsXor(a: Word, b: Word)
    ensures (a ^ b) & 1 == (a & 1) ^ (b & 1)
  {
  }

  lemma FeedbacksXor(a: Word, b: Word)
    ensures Feedback(a ^ b) == Feedback(a) ^ Feedback(b)
  {
    LowBitsXor(a, b);
    LowBitIsBit(a);
    LowBitIsBit(b);
    if a & 1 == 1 && b & 1 == 1 {
      assert (a ^ b) & 1 == 0;
    } else if a & 1 == 1 || b & 1 == 1 {
      assert (a ^ b) & 1 == 1;
    }
  }

  lemma XorAssociates(a: Word, b: Word, c: Word)
    ensures Xor(Xor(a, b), c) == Xor(a, Xor(b, c))
  {
  }

  lemma XorCommutes(a: Word, b: Word)
    ensures Xor(a, b) == Xor(b, a)
  {
  }

  /** By associativity and commutativity alone. */
  lemma RegroupBy<W>(xor: (W, W) -> W, h: W, f: W, i: W, g: W)
    requires xor(xor(h, i), xor(f, g)) == xor(h, xor(i, xor(f, g)))
    requires xor(xor(i, f), g) == xor(i, xor(f, g)) && xor(xor(f, i), g) == xor(f, xor(i, g))
    requires xor(i, f) == xor(f, i)
    requires xor(xor(h, f), xor(i, g)) == xor(h, xor(f, xor(i, g)))
    ensures xor(xor(h, i), xor(f, g)) == xor(xor(h, f), xor(i, g))
  {
  }

  lemma XorRegroups(h: Word, f: Word, i: Word, g: Word)
    ensures Xor(Xor(h, i), Xor(f, g)) == Xor(Xor(h, f), Xor(i, g))
  {
    XorAssociates(h, i, Xor(f, g));
    XorAssociates(i, f, g);
    XorAssociates(f, i, g);
    XorAssociates(h, f, Xor(i, g));
    XorCommutes(i, f);
    RegroupBy(Xor, h, f, i, g);
  }

  lemma StepOfXor(a: Word, b: Word)
    ensures Step(Xor(a, b)) == Xor(Xor(a >> 1, b >> 1), Xor(Feedback(a), Feedback(b)))
  {
    HalvesXor(a, b);
    FeedbacksXor(a, b);
  }

  lemma StepParts(a: Word)
    ensures Step(a) == Xor(a >> 1, Feedback(a))
  {
  }

  /** One step distributes over exclusive or: half by half, feedback by feedback. */
  lemma StepIsLinear(a: Word, b: Word)
    ensures Step(Xor(a, b)) == Xor(Step(a), Step(b))
  {
    StepOfXor(a, b);
    StepParts(a);
    StepParts(b);
    XorRegroups(a >> 1, Feedback(a), b >> 1, Feedback(b));
  }

  lemma StepIsInjective(a: Word, b: Word)
    requires Step(a) == Step(b)
    ensures a == b
  {
  }

  lemma StepUndoesDouble(w: Word)
    requires w & 0x8000_0000 == 0
    ensures Step(Double(w)) == w
  {
  }

  lemma TopBitIsClear(w: Word, n: nat)
    requires n < 32 && Fits(w, n)
    ensures w & 0x8000_0000 == 0
  {
    LowBitsBelowTop(n);
    SubsetTransitive(w, LowBits(n), 0x7FFF_FFFF);
  }

  lemma JoinXors(c: Word, w: Word, b: bool)
    ensures Xor(c, Join(w, b)) == Xor(Xor(c, Bit(b)), Double(w))
  {
  }

  lemma LowBitOfJoin(w: Word, b: bool)
    ensures Join(w, b) & 1 == Bit(b)
  {
  }

  lemma HighBitsOfJoin(w: Word, b: bool)
    requires w & 0x8000_0000 == 0
    ensures Join(w, b) >> 1 == w
  {
  }

  lemma XorCancels(c: Word, x: Word, y: Word)
    ensures Xor(c, x) == Xor(c, y) ==> x == y
    ensures Xor(x, c) == Xor(y, c) ==> x == y
  {
    assert c ^ (c ^ x) == x && (x ^ c) ^ c == x;
    assert c ^ (c ^ y) == y && (y ^ c) ^ c == y;
  }

  lemma RegisterInverts()
    ensures InvertibleShift(Register())
  {
    var m := Register();
    forall a, b | m.shift(a) == m.shift(b) ensures a == b {
      StepIsInjective(a, b);
    }
  }

  lemma RegisterXors()
    ensures XorLaws(Register())
  {
    var m := Register();
    forall c ensures m.xor(c, m.zero) == c {
      assert Xor(c, 0) == c;
    }
    forall c, x, y | m.xor(c, x) == m.xor(c, y) ensures x == y {
      XorCancels(c, x, y);
    }
    forall a, b, x | m.xor(a, x) == m.xor(b, x) ensures a == b {
      XorCancels(x, a, b);
    }
  }

  lemma RegisterJoins()
    ensures JoinLaws(Register())
  {
    forall w, b, n: nat ensures JoinFits(Register(), w, b, n) {
      if n < 31 && Fits(w, n) {
        DoubledSubset(w, LowBits(n), b);
      }
    }
    forall w, b, w', b', n: nat ensures JoinSplits(Register(), w, b, w', b', n) {
      JoinSplitsHere(w, b, w', b', n);
    }
  }

  lemma RegisterShifts()
    ensures LinearShift(Register())
  {
    forall a, b, c ensures ShiftOverXor(Register(), a, b, c) {
      LinearHere(a, b, c);
    }
    forall c, w, b ensures JoinIsXor(Register(), c, w, b) {
      JoinedHere(c, w, b);
    }
    forall w, n: nat ensures ShiftUndoesDouble(Register(), w, n) {
      DoubleUndone(w, n);
    }
  }

  lemma LinearHere(a: Word, b: Word, c: Word)
    ensures ShiftOverXor(Register(), a, b, c)
  {
    if c == Xor(a, b) {
      StepIsLinear(a, b);
    }
  }

  lemma JoinedHere(c: Word, w: Word, b: bool)
    ensures JoinIsXor(Register(), c, w, b)
  {
    JoinXors(c, w, b);
  }

  lemma DoubleUndone(w: Word, n: nat)
    ensures ShiftUndoesDouble(Register(), w, n)
  {
    if n < 32 && Fits(w, n) {
      TopBitIsClear(w, n);
      StepUndoesDouble(w);
    }
  }

  /** The CRC-32 register is linear and invertible. */
  lemma RegisterIsLawful()
    ensures Lawful(Register())
  {
    RegisterInverts();
    RegisterXors();
    RegisterJoins();
    RegisterShifts();
  }

  lemma JoinSplitsHere(w: Word, b: bool, w': Word, b': bool, n: nat)
    ensures JoinSplits(Register(), w, b, w', b', n)
  {
    if n < 32 && Fits(w, n) && Fits(w', n) {
      TopBitIsClear(w, n);
      TopBitIsClear(w', n);
      LowBitOfJoin(w, b);
      LowBitOfJoin(w', b');
      HighBitsOfJoin(w, b);
      HighBitsOfJoin(w', b');
    }
  }

  // ---------------------------------------------------------------------------
  // Bytes as bits, least significant first.

  function ByteBits(b: Byte): (bits: seq<bool>)
    ensures |bits| == 8
  {
    [b & 1 != 0, b & 2 != 0, b & 4 != 0, b & 8 != 0,
     b & 16 != 0, b & 32 != 0, b & 64 != 0, b & 128 != 0]
  }

  function Bits(data: seq<Byte>): (bits: seq<bool>)
    ensures |bits| == 8 * |data|
  {
    ByteBitsLawful();
    UnpackLength(ByteBits, data);
    Unpack(ByteBits, data)
  }

  lemma ByteBitsLawful()
    ensures EightBits(ByteBits)
    ensures forall x, y :: ByteBits(x) == ByteBits(y) ==> x == y
  {
    forall x, y | ByteBits(x) == ByteBits(y) ensures x == y {
      ByteBitsInjective(x, y);
    }
  }

  function JoinByte(w: Word, b: Byte): Word {
    (w << 8) | (b as Word)
  }

  lemma JoinEightIsJoinByte(w: Word, b: Byte)
    ensures JoinEight(Register(), w, ByteBits(b)) == JoinByte(w, b)
  {
    JoinBits(w, b);
  }

  lemma JoinBits(w: Word, b: Byte)
    ensures JoinByte(w, b) ==
            (((((((((((((((w << 1) | Bit(b & 128 != 0)) << 1) | Bit(b & 64 != 0)) << 1)
            | Bit(b & 32 != 0)) << 1) | Bit(b & 16 != 0)) << 1) | Bit(b & 8 != 0)) << 1)
            | Bit(b & 4 != 0)) << 1) | Bit(b & 2 != 0)) << 1) | Bit(b & 1 != 0)
  {
  }

  /** The source's eight shifts are eight steps of the bit machine. */
  lemma FeedByteIsBits(crc: Word, b: Byte)
    ensures FeedByte(crc, b) == BitMachine.Feed(Register(), crc, ByteBits(b))
  {
    RegisterIsLawful();
    WordOfOneByte(b);
    WindowIsOneXor(Register(), crc, ByteBits(b));
    ShiftsAgree(Xor(crc, b as Word), 8);
  }

  lemma WordOfOneByte(b: Byte)
    ensures BitMachine.Word(Register(), ByteBits(b)) == b as Word
  {
    WordOfEight(Register(), ByteBits(b), []);
    assert ByteBits(b) + [] == ByteBits(b);
    JoinEightIsJoinByte(0, b);
    JoinZero(b);
  }

  lemma JoinZero(b: Byte)
    ensures JoinByte(0, b) == b as Word
  {
  }

  lemma {:induction false} ShiftsAgree(w: Word, n: nat)
    ensures Shifts(w, n) == BitMachine.Shifts(Register(), w, n)
    decreases n
  {
    if n > 0 {
      MaskIsBranch(w);
      ShiftsAgree(Shift(w), n - 1);
    }
  }

  lemma {:induction false} FeedIsBits(crc: Word, data: seq<Byte>)
    ensures Feed(crc, data) == BitMachine.Feed(Register(), crc, Bits(data))
    decreases |data|
  {
    if data != [] {
      FeedByteIsBits(crc, data[0]);
      FeedIsBits(FeedByte(crc, data[0]), data[1..]);
      FeedAppend(Register(), crc, ByteBits(data[0]), Bits(data[1..]));
    }
  }

  lemma ByteBitsInjective(a: Byte, b: Byte)
    requires ByteBits(a) == ByteBits(b)
    ensures a == b
  {
    var x, y := ByteBits(a), ByteBits(b);
    assert x[0] == y[0] && x[1] == y[1] && x[2] == y[2] && x[3] == y[3];
    assert x[4] == y[4] && x[5] == y[5] && x[6] == y[6] && x[7] == y[7];
  }

  // ---------------------------------------------------------------------------
  // Which checksum it is: a remainder of polynomial division.

  /** x^32 + x^26 + x^23 + x^22 + x^16 + x^12 + x^11 + x^10 + x^8 + x^7 + x^5 + x^4 + x^2 + x + 1. */
  const EXPONENTS: set<int> := {32, 26, 23, 22, 16, 12, 11, 10, 8, 7, 5, 4, 2, 1, 0}

  function Generator(): (g: seq<bool>)
    ensures |g| == 33 && g[0]
  {
    seq(33, i => 32 - i in EXPONENTS)
  }

  function Half(w: Word): Word {
    w >> 1
  }

  function Low(w: Word): bool {
    w & 1 == 1
  }

  predicate Below(w: Word, n: nat) {
    w & !LowBits(n) == 0
  }

  function Reading(): Reader<Word> {
    Reader(Half, Low, Xor, Below)
  }

  /** The register as coefficients. Its lowest bit belongs to the highest power. */
  function Coefficients(w: Word): (bits: seq<bool>)
    ensures |bits| == 32
  {
    LowFirst(Reading(), w, 32)
  }

  lemma LowBitOfXor(a: Word, b: Word)
    ensures Low(Xor(a, b)) == (Low(a) != Low(b))
  {
    LowBitsXor(a, b);
    LowBitIsBit(a);
    LowBitIsBit(b);
  }

  lemma HalfSubset(w: Word, m: Word)
    requires w & !((m << 1) | 1) == 0
    ensures (w >> 1) & !m == 0
  {
  }

  lemma ReadingIsLawful()
    ensures Readable(Reading())
  {
    forall a, b ensures XorReads(Reading(), a, b) {
      LowBitOfXor(a, b);
      HalvesXor(a, b);
    }
    forall w, n: nat ensures FitReads(Reading(), w, n) {
      if n > 0 && Below(w, n) {
        HalfSubset(w, LowBits(n - 1));
      }
    }
  }

  lemma EveryWordIsBelow(w: Word)
    ensures Below(w, 32)
  {
    assert LowBits(8) == 0xFF;
    assert LowBits(16) == 0xFFFF;
    assert LowBits(24) == 0xFF_FFFF;
    assert LowBits(32) == 0xFFFF_FFFF;
  }

  /** Eight bits of a word, told apart by masks. */
  predicate IsByteOf(w: Word, bits: seq<bool>) {
    |bits| == 8
    && bits[0] == (w & 1 == 1) && bits[1] == (w & 2 == 2) && bits[2] == (w & 4 == 4) && bits[3] == (w & 8 == 8)
    && bits[4] == (w & 16 == 16) && bits[5] == (w & 32 == 32) && bits[6] == (w & 64 == 64) && bits[7] == (w & 128 == 128)
  }

  lemma ByteReads(w: Word)
    ensures IsByteOf(w, LowFirst(Reading(), w, 8)) && IsQuarter(w, Halves(Reading(), w, 8))
  {
    EightHalves(w);
    EightLows(w);
    ReadEight(Reading(), w, w >> 1, w >> 2, w >> 3, w >> 4, w >> 5, w >> 6, w >> 7, w >> 8);
  }

  lemma EightLows(w: Word)
    ensures Low(w) == (w & 1 == 1) && Low(w >> 1) == (w & 2 == 2) && Low(w >> 2) == (w & 4 == 4)
    ensures Low(w >> 3) == (w & 8 == 8) && Low(w >> 4) == (w & 16 == 16) && Low(w >> 5) == (w & 32 == 32)
    ensures Low(w >> 6) == (w & 64 == 64) && Low(w >> 7) == (w & 128 == 128)
  {
  }

  lemma EightHalves(w: Word)
    ensures Half(w) == w >> 1 && Half(w >> 1) == w >> 2 && Half(w >> 2) == w >> 3 && Half(w >> 3) == w >> 4
    ensures Half(w >> 4) == w >> 5 && Half(w >> 5) == w >> 6 && Half(w >> 6) == w >> 7 && Half(w >> 7) == w >> 8
  {
  }

  lemma ByteHalves(w: Word, a: Word)
    requires IsQuarter(w, a)
    ensures Halves(Reading(), w, 8) == a
  {
    ByteReads(w);
  }

  lemma QuarterHalves(w: Word, a: Word, b: Word, c: Word)
    requires IsQuarter(w, a) && IsQuarter(a, b) && IsQuarter(b, c)
    ensures Halves(Reading(), w, 8) == a && Halves(Reading(), a, 8) == b && Halves(Reading(), b, 8) == c
  {
    ByteHalves(w, a);
    ByteHalves(a, b);
    ByteHalves(b, c);
  }

  lemma WordReads(w: Word, a: Word, b: Word, c: Word)
    requires IsQuarter(w, a) && IsQuarter(a, b) && IsQuarter(b, c)
    ensures LowFirst(Reading(), w, 32)
            == LowFirst(Reading(), w, 8)
               + (LowFirst(Reading(), a, 8) + (LowFirst(Reading(), b, 8) + LowFirst(Reading(), c, 8)))
  {
    QuarterHalves(w, a, b, c);
    ReadQuarters(Reading(), w, a, b, c);
  }

  predicate IsQuarter(w: Word, a: Word) {
    a == w >> 8
  }

  lemma GeneratorBits()
    ensures Generator()[1..]
            == [false, false, false, false, false, true, false, false]
             + ([true, true, false, false, false, false, false, true]
             + ([false, false, false, true, true, true, false, true]
             + ([true, false, true, true, false, true, true, true])))
  {
  }

  /** The constant of the loop is the generator, without its highest power and read backwards. */
  lemma PolynomialIsGenerator()
    ensures Coefficients(POLYNOMIAL) == Generator()[1..]
  {
    WordReads(POLYNOMIAL, 0xED_B883, 0xEDB8, 0xED);
    GeneratorBits();
    PolynomialByte0();
    PolynomialByte1();
    PolynomialByte2();
    PolynomialByte3();
  }

  lemma PolynomialByte0()
    ensures LowFirst(Reading(), POLYNOMIAL, 8) == [false, false, false, false, false, true, false, false]
  {
    ByteReads(POLYNOMIAL);
  }

  lemma PolynomialByte1()
    ensures LowFirst(Reading(), 0xED_B883, 8) == [true, true, false, false, false, false, false, true]
  {
    ByteReads(0xED_B883);
  }

  lemma PolynomialByte2()
    ensures LowFirst(Reading(), 0xEDB8, 8) == [false, false, false, true, true, true, false, true]
  {
    ByteReads(0xEDB8);
  }

  lemma PolynomialByte3()
    ensures LowFirst(Reading(), 0xED, 8) == [true, false, true, true, false, true, true, true]
  {
    ByteReads(0xED);
  }

  lemma ZeroByte()
    ensures LowFirst(Reading(), 0, 8) == Zeros(8)
  {
    ByteReads(0);
  }

  lemma ZeroReads()
    ensures Coefficients(0) == Zeros(32)
  {
    WordReads(0, 0, 0, 0);
    ZeroByte();
    assert Zeros(32) == Zeros(8) + (Zeros(8) + (Zeros(8) + Zeros(8)));
  }

  lemma OnesByte(w: Word)
    requires w & 0xFF == 0xFF
    ensures LowFirst(Reading(), w, 8) == Ones(8)
  {
    ByteReads(w);
    MasksOfOnes(w);
  }

  lemma MasksOfOnes(w: Word)
    requires w & 0xFF == 0xFF
    ensures w & 1 == 1 && w & 2 == 2 && w & 4 == 4 && w & 8 == 8
    ensures w & 16 == 16 && w & 32 == 32 && w & 64 == 64 && w & 128 == 128
  {
  }

  lemma OnesRead()
    ensures Coefficients(0xFFFF_FFFF) == Ones(32)
  {
    WordReads(0xFFFF_FFFF, 0xFF_FFFF, 0xFFFF, 0xFF);
    OnesByte(0xFFFF_FFFF);
    OnesByte(0xFF_FFFF);
    OnesByte(0xFFFF);
    OnesByte(0xFF);
    assert Ones(32) == Ones(8) + (Ones(8) + (Ones(8) + Ones(8)));
  }

  lemma StepReads(w: Word)
    ensures Coefficients(Step(w))
            == Plus(Coefficients(w)[1..] + [false], if Coefficients(w)[0] then Generator()[1..] else Zeros(32))
  {
    ReadingIsLawful();
    EveryWordIsBelow(w);
    HalfLowFirst(Reading(), w, 32);
    LowFirstXor(Reading(), Half(w), Feedback(w), 32);
    StepParts(w);
    PolynomialIsGenerator();
    ZeroReads();
  }

  lemma BitReads(w: Word, b: bool)
    ensures Coefficients(Xor(w, Bit(b)))[0] == (Coefficients(w)[0] != b)
    ensures Coefficients(Xor(w, Bit(b)))[1..] == Coefficients(w)[1..]
  {
    LowBitOfXor(w, Bit(b));
    BitIsLow(w, b);
  }

  lemma BitIsLow(w: Word, b: bool)
    ensures Low(Bit(b)) == b && Half(Xor(w, Bit(b))) == Half(w)
  {
  }

  lemma RegisterDivides(w: Word, b: bool)
    ensures Divides(Register(), Coefficients, Generator(), w, b)
  {
    BitReads(w, b);
    StepReads(Xor(w, Bit(b)));
  }

  lemma ComplementReads(w: Word)
    ensures Coefficients(!w) == Plus(Coefficients(w), Ones(32))
  {
    ReadingIsLawful();
    ComplementIsXor(w);
    LowFirstXor(Reading(), w, 0xFFFF_FFFF, 32);
    OnesRead();
  }

  lemma ComplementIsXor(w: Word)
    ensures !w == Xor(w, 0xFFFF_FFFF)
  {
  }

  lemma RegisterAlwaysDivides()
    ensures forall w, b {:trigger Divides(Register(), Coefficients, Generator(), w, b)} ::
              Divides(Register(), Coefficients, Generator(), w, b)
  {
    forall w, b ensures Divides(Register(), Coefficients, Generator(), w, b) {
      RegisterDivides(w, b);
    }
  }

  /** Message bits moved up by 32 places, the first 32 of them complemented. */
  function Dividend(bits: seq<bool>): seq<bool> {
    PlusFront(bits + Zeros(32), Ones(32))
  }

  lemma FedIsRemainder(bits: seq<bool>)
    ensures Coefficients(BitMachine.Feed(Register(), INITIAL, bits)) == Remainder(Dividend(bits), Generator())
  {
    RegisterAlwaysDivides();
    OnesRead();
    FeedIsRemainder(Register(), Coefficients, Generator(), INITIAL, bits);
  }

  lemma FeedIsRemainderOf(data: seq<Byte>)
    ensures Coefficients(Feed(INITIAL, data)) == Remainder(Dividend(Bits(data)), Generator())
  {
    FeedIsBits(INITIAL, data);
    FedIsRemainder(Bits(data));
  }

  /** The checksum is the complemented remainder, by the generator, of the message times x^32 with its
      first 32 bits complemented; each byte is sent lowest bit first. */
  lemma CrcIsRemainder(data: seq<Byte>)
    ensures Coefficients(Crc32(data)) == Plus(Remainder(Dividend(Bits(data)), Generator()), Ones(32))
  {
    FeedIsRemainderOf(data);
    ComplementOf(Feed(INITIAL, data), Remainder(Dividend(Bits(data)), Generator()));
  }

  lemma ComplementOf(w: Word, r: seq<bool>)
    requires Coefficients(w) == r
    ensures |r| == 32 && Coefficients(!w) == Plus(r, Ones(32))
  {
    ComplementReads(w);
  }

  /** The bytes of "123456789". */
  const CHECK_MESSAGE: seq<Byte> := [0x31, 0x32, 0x33, 0x34, 0x35, 0x36, 0x37, 0x38, 0x39]

  lemma FeedNext(crc: Word, data: seq<Byte>, k: nat, b: Byte, next: Word)
    requires k < |data| && data[k] == b && FeedByte(crc, b) == next
    ensures Feed(crc, data[k..]) == Feed(next, data[k + 1..])
  {
    assert data[k..][1..] == data[k + 1..];
  }

  lemma CheckByte0(data: seq<Byte>)
    requires |data| == 9 && data[0] == 0x31
    ensures Feed(0xFFFF_FFFF, data[0..]) == Feed(0x7C23_1048, data[1..])
  {
    FeedNext(0xFFFF_FFFF, data, 0, 0x31, 0x7C23_1048);
  }

  lemma CheckByte1(data: seq<Byte>)
    requires |data| == 9 && data[1] == 0x32
    ensures Feed(0x7C23_1048, data[1..]) == Feed(0xB0AC_BB32, data[2..])
  {
    FeedNext(0x7C23_1048, data, 1, 0x32, 0xB0AC_BB32);
  }

  lemma CheckByte2(data: seq<Byte>)
    requires |data| == 9 && data[2] == 0x33
    ensures Feed(0xB0AC_BB32, data[2..]) == Feed(0x77B7_9C2D, data[3..])
  {
    FeedNext(0xB0AC_BB32, data, 2, 0x33, 0x77B7_9C2D);
  }

  lemma CheckByte3(data: seq<Byte>)
    requires |data| == 9 && data[3] == 0x34
    ensures Feed(0x77B7_9C2D, data[3..]) == Feed(0x641C_1F5C, data[4..])
  {
    FeedNext(0x77B7_9C2D, data, 3, 0x34, 0x641C_1F5C);
  }

  lemma CheckByte4(data: seq<Byte>)
    requires |data| == 9 && data[4] == 0x35
    ensures Feed(0x641C_1F5C, data[4..]) == Feed(0x340A_C5E3, data[5..])
  {
    FeedNext(0x641C_1F5C, data, 4, 0x35, 0x340A_C5E3);
  }

  lemma CheckByte5(data: seq<Byte>)
    requires |data| == 9 && data[5] == 0x36
    ensures Feed(0x340A_C5E3, data[5..]) == Feed(0xF68D_2C9E, data[6..])
  {
    FeedNext(0x340A_C5E3, data, 5, 0x36, 0xF68D_2C9E);
  }

  lemma CheckByte6(data: seq<Byte>)
    requires |data| == 9 && data[6] == 0x37
    ensures Feed(0xF68D_2C9E, data[6..]) == Feed(0xAFFC_9660, data[7..])
  {
    FeedNext(0xF68D_2C9E, data, 6, 0x37, 0xAFFC_9660);
  }

  lemma CheckByte7(data: seq<Byte>)
    requires |data| == 9 && data[7] == 0x38
    ensures Feed(0xAFFC_9660, data[7..]) == Feed(0x651F_2550, data[8..])
  {
    FeedNext(0xAFFC_9660, data, 7, 0x38, 0x651F_2550);
  }

  lemma CheckByte8(data: seq<Byte>)
    requires |data| == 9 && data[8] == 0x39
    ensures Feed(0x651F_2550, data[8..]) == Feed(0x340B_C6D9, data[9..])
  {
    FeedNext(0x651F_2550, data, 8, 0x39, 0x340B_C6D9);
  }

  lemma CheckSteps(data: seq<Byte>)
    requires data == CHECK_MESSAGE
    ensures Feed(INITIAL, data) == 0x340B_C6D9
  {
    CheckByte0(data);
    CheckByte1(data);
    CheckByte2(data);
    CheckByte3(data);
    CheckByte4(data);
    CheckByte5(data);
    CheckByte6(data);
    CheckByte7(data);
    CheckByte8(data);
    assert data[0..] == data && data[9..] == [];
  }

  /** The published check value of the standard's CRC-32. */
  lemma CheckValue()
    ensures Crc32(CHECK_MESSAGE) == 0xCBF4_3926
  {
    CheckSteps(CHECK_MESSAGE);
  }

  // ---------------------------------------------------------------------------
  // Messages that carry their own checksum.

  function LeBytes(w: Word): (s: seq<Byte>)
    ensures |s| == 4
  {
    [(w & 0xFF) as Byte, ((w >> 8) & 0xFF) as Byte,
     ((w >> 16) & 0xFF) as Byte, ((w >> 24) & 0xFF) as Byte]
  }

  function FromLeBytes(s: seq<Byte>): Word
    requires |s| == 4
  {
    JoinByte(JoinByte(JoinByte(s[3] as Word, s[2]), s[1]), s[0])
  }

  lemma LeRoundTrip(w: Word)
    ensures FromLeBytes(LeBytes(w)) == w
  {
  }

  lemma LeRoundTripBytes(s: seq<Byte>)
    requires |s| == 4
    ensures LeBytes(FromLeBytes(s)) == s
  {
    assert s == [s[0], s[1], s[2], s[3]];
    LeSplits(s[0], s[1], s[2], s[3]);
  }

  lemma LeSplits(a: Byte, b: Byte, c: Byte, d: Byte)
    ensures LeBytes(JoinByte(JoinByte(JoinByte(d as Word, c), b), a)) == [a, b, c, d]
  {
    var w := JoinByte(JoinByte(JoinByte(d as Word, c), b), a);
    LeSplitsLow(a, b, c, d);
    LeSplitsHigh(a, b, c, d);
  }

  lemma LeSplitsLow(a: Byte, b: Byte, c: Byte, d: Byte)
    ensures var w := JoinByte(JoinByte(JoinByte(d as Word, c), b), a);
            (w & 0xFF) as Byte == a && ((w >> 8) & 0xFF) as Byte == b
  {
  }

  lemma LeSplitsHigh(a: Byte, b: Byte, c: Byte, d: Byte)
    ensures var w := JoinByte(JoinByte(JoinByte(d as Word, c), b), a);
            ((w >> 16) & 0xFF) as Byte == c && ((w >> 24) & 0xFF) as Byte == d
  {
  }

  lemma WordOfTrailer(s: seq<Byte>)
    requires |s| == 4
    ensures BitMachine.Word(Register(), Bits(s)) == FromLeBytes(s)
  {
    var m := Register();
    var t3, t2, t1 := s[3..], s[2..], s[1..];
    assert t2[1..] == t3 && t1[1..] == t2 && t3[1..] == [];
    assert Bits([]) == [];
    WordOfByte(s[3], []);
    WordOfByte(s[2], Bits(t3));
    WordOfByte(s[1], Bits(t2));
    WordOfByte(s[0], Bits(t1));
    JoinZero(s[3]);
  }

  lemma WordOfByte(b: Byte, rest: seq<bool>)
    ensures BitMachine.Word(Register(), ByteBits(b) + rest)
         == JoinByte(BitMachine.Word(Register(), rest), b)
  {
    WordOfEight(Register(), ByteBits(b), rest);
    JoinEightIsJoinByte(BitMachine.Word(Register(), rest), b);
  }

  /** Whether the last four bytes are the little-endian checksum of the others. */
  predicate Sealed(data: seq<Byte>)
    requires |data| >= 4
  {
    Crc32(data[..|data| - 4]) == FromLeBytes(data[|data| - 4..])
  }

  function Residue(): Word {
    BitMachine.Shifts(Register(), 0xFFFF_FFFF, 32)
  }

  /** A message is sealed exactly when it drives the register to one fixed residue. */
  lemma SealedResidue(data: seq<Byte>)
    requires |data| >= 4
    ensures Sealed(data) <==> BitMachine.Feed(Register(), INITIAL, Bits(data)) == Residue()
  {
    var body, trailer := data[..|data| - 4], data[|data| - 4..];
    assert data == body + trailer;
    UnpackAppend(ByteBits, body, trailer);
    FeedAppend(Register(), INITIAL, Bits(body), Bits(trailer));
    FeedIsBits(INITIAL, body);
    TrailerResidue(Feed(INITIAL, body), trailer);
  }

  lemma TrailerResidue(c: Word, trailer: seq<Byte>)
    requires |trailer| == 4
    ensures BitMachine.Feed(Register(), c, Bits(trailer)) == Residue() <==> !c == FromLeBytes(trailer)
  {
    var m, t := Register(), FromLeBytes(trailer);
    RegisterIsLawful();
    ByteBitsLawful();
    UnpackLength(ByteBits, trailer);
    WindowIsOneXor(m, c, Bits(trailer));
    WordOfTrailer(trailer);
    ComplementXor(c, t);
    if BitMachine.Shifts(m, Xor(c, t), 32) == Residue() {
      ShiftsInjective(m, Xor(c, t), 0xFFFF_FFFF, 32);
    }
  }

  lemma ComplementXor(c: Word, t: Word)
    ensures Xor(c, t) == 0xFFFF_FFFF <==> !c == t
  {
    ComplementFills(c);
    CancelsTo(c, t, !c, 0xFFFF_FFFF);
  }

  lemma ComplementFills(c: Word)
    ensures Xor(c, !c) == 0xFFFF_FFFF
  {
  }

  lemma CancelsTo(c: Word, t: Word, n: Word, all: Word)
    requires Xor(c, n) == all
    ensures Xor(c, t) == all <==> n == t
  {
    XorCancels(c, t, n);
  }

  /** Burst detection: two sealed messages of one length that agree outside some 32 consecutive
      bits, at any bit offset and possibly across body and trailer, are the same message. */
  lemma BurstDetected(x: seq<Byte>, y: seq<Byte>, start: nat, width: nat)
    requires |x| == |y| >= 4 && width <= 32 && start + width <= 8 * |x|
    requires Bits(x)[..start] == Bits(y)[..start]
    requires Bits(x)[start + width..] == Bits(y)[start + width..]
    requires Sealed(x) && Sealed(y)
    ensures x == y
  {
    SealedResidue(x);
    SealedResidue(y);
    ByteBitsLawful();
    RegisterIsLawful();
    BurstChangesRegister(Register(), INITIAL, Bits(x), Bits(y), start, width);
    UnpackInjective(ByteBits, x, y);
  }

  /** The same for damage confined to four consecutive bytes. */
  lemma ByteBurstDetected(x: seq<Byte>, y: seq<Byte>, p: nat)
    requires |x| == |y| && p + 4 <= |x|
    requires x[..p] == y[..p] && x[p + 4..] == y[p + 4..]
    requires Sealed(x) && Sealed(y)
    ensures x == y
  {
    var pre, u, v, post := x[..p], x[p..p + 4], y[p..p + 4], x[p + 4..];
    assert x == pre + u + post && y == pre + v + post;
    ByteBitsLawful();
    UnpackWindow(ByteBits, pre, u, v, post);
    BurstDetected(x, y, 8 * p, 32);
  }
}
