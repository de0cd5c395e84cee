/** The reflected CRC32 of crc_32.c: the table step, the bit-serial register it stands for, and its
    meaning as a remainder. The lowest bit of a byte comes first, and the lowest bit of the register
    is the highest coefficient. */
module Crc32 {
  import opened Powers
  import opened Gf2
  import opened GfLong
  import opened CrcCode
  import opened CrcTable32
  import Beebs
  import GfByte

  /** x^32 + x^26 + x^23 + x^22 + x^16 + x^12 + x^11 + x^10 + x^8 + x^7 + x^5 + x^4 + x^2 + x + 1 */
  const GENERATOR: nat := 0x104c11db7

  /** UPDC32 on a register of the 64 bits of an unsigned long. */
  function UpdC32(octet: bv8, crc: bv64): bv64 {
    (Crc32Table(((crc ^ (octet as bv64)) & 0xff) as bv8) as bv64) ^ (crc >> 8)
  }

  /** The same on 32 bits. */
  function Step(octet: bv8, crc: bv32): bv32 {
    Plus(Crc32Table(LowByte(Plus(crc, octet as bv32))), Down(crc))
  }

  function WideIndex(octet: bv8, crc: bv64): bv8 {
    ((crc ^ (octet as bv64)) & 0xff) as bv8
  }

  lemma {:induction false} LowByteWide(octet: bv8, crc: bv32)
    ensures (((crc as bv64) ^ (octet as bv64)) & 0xff) as bv8 == ((crc ^ (octet as bv32)) & 0xff) as bv8
  {
  }

  lemma {:induction false} DownWide(crc: bv32)
    ensures (crc as bv64) >> 8 == (crc >> 8) as bv64
  {
  }

  lemma {:induction false} XorWide(a: bv32, b: bv32)
    ensures (a as bv64) ^ (b as bv64) == (a ^ b) as bv64
  {
  }

  lemma {:induction false} IndexWide(octet: bv8, crc: bv32)
    ensures WideIndex(octet, crc as bv64) == LowByte(Plus(crc, octet as bv32))
  {
    LowByteWide(octet, crc);
  }

  lemma {:induction false} SumWide(a: bv32, b: bv32, c: bv64)
    requires c == (b as bv64) >> 8
    ensures (a as bv64) ^ c == Plus(a, Down(b)) as bv64
  {
    DownWide(b);
    XorWide(a, b >> 8);
  }

  lemma {:induction false} UpdC32Is(octet: bv8, crc: bv64, t: bv32)
    requires t == Crc32Table(WideIndex(octet, crc))
    ensures UpdC32(octet, crc) == (t as bv64) ^ (crc >> 8)
  {
    hide Crc32Table;
  }

  /** A register below 2^32 stays below 2^32. */
  lemma {:induction false} StepFits(octet: bv8, crc: bv32)
    ensures UpdC32(octet, crc as bv64) == Step(octet, crc) as bv64
  {
    hide Crc32Table, Plus, LowByte, Down, UpdC32, WideIndex;
    var t := Crc32Table(LowByte(Plus(crc, octet as bv32)));
    IndexWide(octet, crc);
    UpdC32Is(octet, crc as bv64, t);
    SumWide(t, crc, (crc as bv64) >> 8);
  }

  /** The register after some bytes, from r on. */
  function Register(r: bv32, s: seq<bv8>): bv32 {
    if s == [] then r else Step(s[|s| - 1], Register(r, s[..|s| - 1]))
  }

  function WideRegister(r: bv64, s: seq<bv8>): bv64 {
    if s == [] then r else UpdC32(s[|s| - 1], WideRegister(r, s[..|s| - 1]))
  }

  function Wide(r: bv32): bv64 {
    r as bv64
  }

  lemma {:induction false} StepFitsWide(octet: bv8, r: bv32)
    ensures UpdC32(octet, Wide(r)) == Wide(Step(octet, r))
  {
    hide UpdC32, Step;
    StepFits(octet, r);
  }

  lemma {:induction false} RegisterFitsWide(r: bv32, s: seq<bv8>)
    ensures WideRegister(Wide(r), s) == Wide(Register(r, s))
    decreases |s|
  {
    hide UpdC32, Step, Wide;
    if s != [] {
      RegisterFitsWide(r, s[..|s| - 1]);
      StepFitsWide(s[|s| - 1], Register(r, s[..|s| - 1]));
    }
  }

  /** Over any bytes, the 64-bit register stays below 2^32 if it starts there. */
  lemma {:induction false} RegisterFits(r: bv32, s: seq<bv8>)
    ensures WideRegister(r as bv64, s) == Register(r, s) as bv64
  {
    hide WideRegister, Register;
    RegisterFitsWide(r, s);
  }

  // ----- the table step is eight rounds

  lemma {:induction false} StepIsRounds(d: bv8, crc: bv32)
    ensures Step(d, crc) == BackN(Plus(crc, d as bv32), 8)
  {
    hide Crc32Table, Plus, LowByte, Down, High, BackN;
    var x := Plus(crc, d as bv32);
    Parts(x);
    BackNPlus(High(x), LowByte(x) as bv32, 8);
    HighRounds(High(x));
    TableIsRounds(LowByte(x));
    DownOfSum(crc, d);
    PlusLaws(Down(x), Crc32Table(LowByte(x)), 0);
  }

  // ----- the register as a polynomial

  /** What the lowest bit stands for, as the highest of k + 1 coefficients. */
  function Coefficient(x: bv32, k: nat): nat {
    if Even(x) then 0 else Pow2(k)
  }

  /** The polynomial of the lowest n bits, the lowest bit as the highest coefficient. */
  function Reflected(x: bv32, n: nat): (r: nat)
    ensures r < Pow2(n)
  {
    if n == 0 then 0 else Coefficient(x, n - 1) + Reflected(Half(x), n - 1)
  }

  lemma {:induction false} CoefficientFirst(x: bv32, n: nat)
    requires n > 0
    ensures Reflected(x, n) == Xor(Coefficient(x, n - 1), Reflected(Half(x), n - 1))
  {
    hide Xor;
    GfByte.XorTop(Reflected(Half(x), n - 1), n - 1);
    XorStart(Reflected(Half(x), n - 1));
  }

  lemma {:induction false} CoefficientPlus(x: bv32, y: bv32, k: nat)
    ensures Coefficient(Plus(x, y), k) == Xor(Coefficient(x, k), Coefficient(y, k))
  {
    hide Even, Plus, Half;
    HalfPlus(x, y);
    XorSelf(Pow2(k));
  }

  lemma {:induction false} ReflectedPlus(x: bv32, y: bv32, n: nat)
    ensures Reflected(Plus(x, y), n) == Xor(Reflected(x, n), Reflected(y, n))
    decreases n
  {
    hide Plus, Half, Even, Coefficient, Xor;
    if n == 0 {
      XorSelf(0);
    } else {
      HalfPlus(x, y);
      ReflectedPlus(Half(x), Half(y), n - 1);
      CoefficientPlus(x, y, n - 1);
      CoefficientFirst(x, n);
      CoefficientFirst(y, n);
      CoefficientFirst(Plus(x, y), n);
      XorSwap(Coefficient(x, n - 1), Coefficient(y, n - 1), Reflected(Half(x), n - 1), Reflected(Half(y), n - 1));
    }
  }

  lemma {:induction false} ReflectedDouble(x: bv32, n: nat)
    requires n > 0 && !Top(x, n)
    ensures Reflected(x, n) == 2 * Reflected(x, n - 1)
    decreases n
  {
    hide Half, Even;
    if n > 1 {
      ReflectedDouble(Half(x), n - 1);
    }
  }

  lemma {:induction false} ReflectedBits(x: bv32, n: nat)
    ensures BitLen(Reflected(x, n)) <= n
  {
    hide Reflected, BitLen;
    BitLenBound(Reflected(x, n), n);
  }

  lemma {:induction false} ReflectedZero(n: nat)
    ensures Reflected(0, n) == 0
  {
    hide Half, Even;
    HalfOfOne();
    if n > 0 {
      ReflectedZero(n - 1);
    }
  }

  lemma {:induction false} ReflectedOne()
    ensures Reflected(1, 32) == Pow2(31)
  {
    hide Half, Even, Pow2;
    HalfOfOne();
    ReflectedZero(31);
  }

  // ----- the feedback is the generator

  lemma {:induction false} Nibble(x: bv32, x1: bv32, x2: bv32, x3: bv32, y: bv32, n: nat)
    requires x1 == Half(x) && x2 == Half(x1) && x3 == Half(x2) && y == Half(x3)
    ensures Reflected(x, n + 4) == Coefficient(x, n + 3) + Coefficient(x1, n + 2) + Coefficient(x2, n + 1)
                                   + Coefficient(x3, n) + Reflected(y, n)
  {
    hide *;
    ReflectedNext(x, n + 3);
    ReflectedNext(x1, n + 2);
    ReflectedNext(x2, n + 1);
    ReflectedNext(x3, n);
  }

  lemma {:induction false} ReflectedNext(x: bv32, n: nat)
    ensures Reflected(x, n + 1) == Coefficient(x, n) + Reflected(Half(x), n)
  {
  }

  /** Four bits, reflected. */
  function Nibble4(b0: bool, b1: bool, b2: bool, b3: bool): nat {
    8 * Digit(b0) + 4 * Digit(b1) + 2 * Digit(b2) + Digit(b3)
  }

  lemma {:induction false} NibbleValue(x: bv32, x1: bv32, x2: bv32, x3: bv32, y: bv32, n: nat, d: nat)
    requires x1 == x >> 1 && x2 == x >> 2 && x3 == x >> 3 && y == x >> 4
    requires d == Nibble4(x & 1 != 0, x & 2 != 0, x & 4 != 0, x & 8 != 0)
    ensures Reflected(x, n + 4) == d * Pow2(n) + Reflected(y, n)
  {
    hide Reflected;
    NibbleShifts(x);
    NibbleBits(x);
    Nibble(x, x1, x2, x3, y, n);
    FourPowers(n, x & 1 != 0, x & 2 != 0, x & 4 != 0, x & 8 != 0);
  }

  lemma {:induction false} FourPowers(n: nat, b0: bool, b1: bool, b2: bool, b3: bool)
    ensures Nibble4(b0, b1, b2, b3) * Pow2(n)
         == Digit(b0) * Pow2(n + 3) + Digit(b1) * Pow2(n + 2) + Digit(b2) * Pow2(n + 1) + Digit(b3) * Pow2(n)
  {
    assert Pow2(n + 3) == 2 * Pow2(n + 2) && Pow2(n + 2) == 2 * Pow2(n + 1);
  }

  lemma {:induction false} NibbleShifts(x: bv32)
    ensures x >> 2 == (x >> 1) >> 1 && x >> 3 == (x >> 2) >> 1 && x >> 4 == (x >> 3) >> 1
  {
  }

  lemma {:induction false} NibbleBits(x: bv32)
    ensures (x >> 1) & 1 == 0 <==> x & 2 == 0
    ensures (x >> 2) & 1 == 0 <==> x & 4 == 0
    ensures (x >> 3) & 1 == 0 <==> x & 8 == 0
  {
  }

  lemma {:induction false} PowerTable()
    ensures Pow2(0) == 1 && Pow2(4) == 0x10 && Pow2(8) == 0x100 && Pow2(12) == 0x1000
    ensures Pow2(16) == 0x1_0000 && Pow2(20) == 0x10_0000 && Pow2(24) == 0x100_0000 && Pow2(32) == 0x1_0000_0000
  {
    assert Pow2(8) == 256 && Pow2(12) == 4096;
    PowAdd(8, 8);
    PowAdd(8, 12);
    PowAdd(12, 12);
    PowAdd(12, 20);
  }

  /** The feedback word is the generator without x^32, reflected. */
  lemma {:induction false} Feedback()
    ensures Reflected(0xedb88320, 32) == 0x04c11db7 && GENERATOR == Pow2(32) + 0x04c11db7
  {
    hide Reflected, Pow2;
    PowerTable();
    NibbleValue(0xedb88320, 0x76dc4190, 0x3b6e20c8, 0x1db71064, 0x0edb8832, 28, 0);
    NibbleValue(0x0edb8832, 0x076dc419, 0x03b6e20c, 0x01db7106, 0x00edb883, 24, 4);
    NibbleValue(0x00edb883, 0x0076dc41, 0x003b6e20, 0x001db710, 0x000edb88, 20, 0xc);
    NibbleValue(0x000edb88, 0x00076dc4, 0x0003b6e2, 0x0001db71, 0x0000edb8, 16, 1);
    NibbleValue(0x0000edb8, 0x000076dc, 0x00003b6e, 0x00001db7, 0x00000edb, 12, 1);
    NibbleValue(0x00000edb, 0x0000076d, 0x000003b6, 0x000001db, 0x000000ed, 8, 0xd);
    NibbleValue(0x000000ed, 0x00000076, 0x0000003b, 0x0000001d, 0x0000000e, 4, 0xb);
    NibbleValue(0x0000000e, 7, 3, 1, 0, 0, 7);
    ReflectedZero(0);
  }

  // ----- a round multiplies by x

  lemma {:induction false} GeneratorBits()
    ensures BitLen(GENERATOR) == 33 && Generator(GENERATOR, 32)
  {
    hide BitLen, Pow2;
    PowerTable();
    PowAdd(1, 32);
    assert Pow2(1) == 2 * Pow2(0) by { TwoIs(); }
    BitLenBound(GENERATOR, 32);
    BitLenBound(GENERATOR, 33);
  }

  lemma {:induction false} TwoIs()
    ensures Pow2(1) == 2 * Pow2(0)
  {
  }

  lemma {:induction false} RoundNumbersClear(a: nat)
    requires 2 * a < Pow2(32)
    ensures TimesX(a, 32, GENERATOR) == 2 * a
  {
    hide BitLen, Pow2;
    BitLenBound(2 * a, 32);
    CarryDigit(2 * a, 32);
  }

  lemma {:induction false} RoundNumbersSet(a: nat, v: nat, next: nat)
    requires a < Pow2(31) && v == Pow2(31) + a && next == Xor(2 * a, 0x04c11db7)
    ensures next == TimesX(v, 32, GENERATOR)
  {
    hide BitLen, Pow2, Xor;
    Powers31();
    Feedback();
    PowerTable();
    GfByte.XorTop(2 * a, 32);
    GfByte.XorTop(0x04c11db7, 32);
    var p := Pow2(32);
    XorSwap(p, 2 * a, p, 0x04c11db7);
    Gf2.XorSelf(p);
    XorStart(Xor(2 * a, 0x04c11db7));
    BitLenBound(2 * v, 33);
    BitLenBound(2 * v, 32);
    CarryDigit(2 * v, 32);
  }

  lemma {:induction false} Powers31()
    ensures Pow2(32) == 2 * Pow2(31) && Pow2(33) == 2 * Pow2(32)
  {
  }

  lemma {:induction false} BackIsTimesX(x: bv32)
    ensures Reflected(Back(x), 32) == TimesX(Reflected(x, 32), 32, GENERATOR)
  {
    hide *;
    var a := Reflected(Half(x), 31);
    ReflectedNext(x, 31);
    NoTop(x);
    ReflectedDouble(Half(x), 32);
    Powers31();
    if Even(x) {
      BackEven(x);
      EvenCoefficient(x, 31);
      ReflectedFits(Half(x));
      RoundNumbersClear(a);
    } else {
      BackOdd(x);
      OddCoefficient(x, 31);
      ReflectedPlus(Half(x), 0xedb88320, 32);
      Feedback();
      RoundNumbersSet(a, Reflected(x, 32), Reflected(Back(x), 32));
    }
  }

  lemma {:induction false} ReflectedFits(x: bv32)
    ensures Reflected(x, 32) < Pow2(32)
  {
  }

  lemma {:induction false} EvenCoefficient(x: bv32, k: nat)
    requires Even(x)
    ensures Coefficient(x, k) == 0
  {
  }

  lemma {:induction false} OddCoefficient(x: bv32, k: nat)
    requires !Even(x)
    ensures Coefficient(x, k) == Pow2(k)
  {
  }

  // ----- bit by bit

  /** One bit into the bit-serial register. */
  function Feed(r: bv32, b: bool): bv32 {
    Back(if b then Plus(r, 1) else r)
  }

  function FeedBits(r: bv32, x: seq<bool>): bv32
    decreases |x|
  {
    if x == [] then r else FeedBits(Feed(r, x[0]), x[1..])
  }

  /** The lowest n bits, the lowest first. */
  function LowFirst(d: bv32, n: nat): (x: seq<bool>)
    ensures |x| == n
    decreases n
  {
    if n == 0 then [] else [!Even(d)] + LowFirst(Half(d), n - 1)
  }

  function Bits(d: bv8): (x: seq<bool>)
    ensures |x| == 8
  {
    LowFirst(d as bv32, 8)
  }

  function Stream(s: seq<bv8>): (x: seq<bool>)
    ensures |x| == 8 * |s|
  {
    if s == [] then [] else Stream(s[..|s| - 1]) + Bits(s[|s| - 1])
  }

  /** Feeding the lowest bit of d moves the others down. */
  lemma {:induction false} FeedLowest(r: bv32, d: bv32)
    ensures Back(Plus(r, d)) == Plus(Feed(r, !Even(d)), Half(d))
  {
    hide Back, Plus, Half, Even;
    var g: bv32 := 0xedb88320;
    BackPlus(r, d);
    if Even(d) {
      BackEven(d);
    } else {
      BackOdd(d);
      BackPlus(r, 1);
      HalfOfOne();
      BackOdd(1);
      PlusLaws(g, 0, 0);
      PlusLaws(Back(r), g, Half(d));
      PlusLaws(Half(d), g, 0);
    }
  }

  lemma {:induction false} FeedIsRounds(r: bv32, d: bv32, n: nat)
    requires Fits(d, n)
    ensures FeedBits(r, LowFirst(d, n)) == BackN(Plus(r, d), n)
    decreases n
  {
    hide Back, Plus, Half, Even, Feed;
    if n == 0 {
      PlusLaws(r, 0, 0);
    } else {
      var x := LowFirst(d, n);
      assert x[1..] == LowFirst(Half(d), n - 1);
      FeedIsRounds(Feed(r, !Even(d)), Half(d), n - 1);
      FeedLowest(r, d);
    }
  }

  /** The table step feeds the eight bits of the byte. */
  lemma {:induction false} StepIsSerial(d: bv8, crc: bv32)
    ensures Step(d, crc) == FeedBits(crc, Bits(d))
  {
    hide *;
    ByteFits(d);
    FeedIsRounds(crc, d as bv32, 8);
    StepIsRounds(d, crc);
    BitsAre(d);
  }

  lemma {:induction false} BitsAre(d: bv8)
    ensures Bits(d) == LowFirst(d as bv32, 8)
  {
  }

  lemma {:induction false} FeedJoin(r: bv32, x: seq<bool>, y: seq<bool>)
    ensures FeedBits(r, x + y) == FeedBits(FeedBits(r, x), y)
    decreases |x|
  {
    hide Feed;
    if x == [] {
      assert x + y == y;
    } else {
      assert (x + y)[1..] == x[1..] + y;
      FeedJoin(Feed(r, x[0]), x[1..], y);
    }
  }

  /** Folding UPDC32 over a message is the reflected bit-serial register fed with its bits. */
  lemma {:induction false} RegisterIsSerial(r: bv32, s: seq<bv8>)
    ensures Register(r, s) == FeedBits(r, Stream(s))
    decreases |s|
  {
    hide Step, Bits, Feed;
    if s != [] {
      var s', d := s[..|s| - 1], s[|s| - 1];
      RegisterIsSerial(r, s');
      StepIsSerial(d, Register(r, s'));
      FeedJoin(r, Stream(s'), Bits(d));
    }
  }

  // ----- the remainder

  lemma {:induction false} ShlOne(n: nat)
    ensures Shl(1, n) == Pow2(n) && Shl(0, n) == 0
  {
    if n > 0 {
      ShlOne(n - 1);
    }
  }

  lemma {:induction false} FeedIsTimesX(r: bv32, b: bool)
    ensures Reflected(Feed(r, b), 32) == TimesX(Xor(Reflected(r, 32), Shl(Digit(b), 31)), 32, GENERATOR)
  {
    hide Back, Plus, Reflected, TimesX, Shl, Xor, Pow2;
    ShlOne(31);
    if b {
      ReflectedPlus(r, 1, 32);
      ReflectedOne();
      BackIsTimesX(Plus(r, 1));
    } else {
      XorComm(Reflected(r, 32), 0);
      XorStart(Reflected(r, 32));
      BackIsTimesX(r);
    }
  }

  lemma {:induction false} SerialOne(r: nat, b: bool, w: nat, g: nat)
    requires w > 0
    ensures Serial(r, [b], w, g) == TimesX(Xor(r, Shl(Digit(b), w - 1)), w, g)
  {
    hide TimesX, Xor, Shl;
    assert [b][..0] == [];
    assert Serial(r, [], w, g) == r;
  }

  lemma {:induction false} FeedBitsIsSerial(r: bv32, x: seq<bool>)
    ensures Reflected(FeedBits(r, x), 32) == Serial(Reflected(r, 32), x, 32, GENERATOR)
    decreases |x|
  {
    hide Feed, Reflected, TimesX, Xor, Shl;
    if x != [] {
      assert x == [x[0]] + x[1..];
      FeedBitsIsSerial(Feed(r, x[0]), x[1..]);
      FeedIsTimesX(r, x[0]);
      SerialOne(Reflected(r, 32), x[0], 32, GENERATOR);
      SerialJoin(Reflected(r, 32), [x[0]], x[1..], 32, GENERATOR);
    }
  }

  lemma {:induction false} GeneratorIs()
    ensures GENERATOR == 0x104c11db7
  {
  }

  /** From any start, the register holds the remainder by the generator of x^32 times the message plus
      the start moved past it. */
  lemma {:induction false} RegisterIsRemainder(r: bv32, s: seq<bv8>)
    ensures Reflected(Register(r, s), 32) == Rem(Dividend(Reflected(r, 32), Stream(s), 32), 0x104c11db7)
  {
    hide *;
    GeneratorIs();
    RegisterIsSerial(r, s);
    FeedBitsIsSerial(r, Stream(s));
    GeneratorBits();
    ReflectedBits(r, 32);
    SerialDivides(Reflected(r, 32), Stream(s), 32, GENERATOR);
  }

  // ----- bursts

  lemma {:induction false} SameLowFirst(c: bv32, d: bv32, n: nat)
    requires Fits(c, n) && Fits(d, n) && LowFirst(c, n) == LowFirst(d, n)
    ensures c == d
    decreases n
  {
    hide Half, Even;
    if n > 0 {
      assert LowFirst(c, n)[0] == LowFirst(d, n)[0];
      assert LowFirst(c, n)[1..] == LowFirst(Half(c), n - 1) && LowFirst(d, n)[1..] == LowFirst(Half(d), n - 1);
      SameLowFirst(Half(c), Half(d), n - 1);
      SameHalves(c, d);
    }
  }

  lemma {:induction false} SameBits(c: bv8, d: bv8)
    requires Bits(c) == Bits(d)
    ensures c == d
  {
    hide *;
    BitsAre(c);
    BitsAre(d);
    ByteFits(c);
    ByteFits(d);
    SameLowFirst(c as bv32, d as bv32, 8);
    SameByte(c, d);
  }

  lemma {:induction false} SameStream(s: seq<bv8>, t: seq<bv8>)
    requires Stream(s) == Stream(t)
    ensures s == t
    decreases |s|
  {
    hide Bits;
    if s != [] {
      var n := |s| - 1;
      assert Stream(s)[..8 * n] == Stream(s[..n]) && Stream(t)[..8 * n] == Stream(t[..n]);
      assert Stream(s)[8 * n..] == Bits(s[n]) && Stream(t)[8 * n..] == Bits(t[n]);
      SameStream(s[..n], t[..n]);
      SameBits(s[n], t[n]);
      assert s == s[..n] + [s[n]] && t == t[..n] + [t[n]];
    }
  }

  /** Two different messages of one length that differ only inside a window of 32 consecutive bits
      have different codes, whatever the register was started with. */
  lemma {:induction false} BurstChangesCode(r: bv32, s: seq<bv8>, t: seq<bv8>, from: nat)
    requires s != t && DifferWithin(Stream(s), Stream(t), from, 32)
    ensures Register(r, s) != Register(r, t)
  {
    hide *;
    if Stream(s) == Stream(t) {
      SameStream(s, t);
    }
    RegisterIsSerial(r, s);
    RegisterIsSerial(r, t);
    FeedBitsIsSerial(r, Stream(s));
    FeedBitsIsSerial(r, Stream(t));
    GeneratorBits();
    ReflectedBits(r, 32);
    BurstDetectedFrom(Reflected(r, 32), Stream(s), Stream(t), from, 32, GENERATOR);
  }

  // ----- crc32pseudo

  function SeedAfter(seed: nat, n: nat): nat {
    if n == 0 then seed else Beebs.NextSeed(SeedAfter(seed, n - 1))
  }

  /** The bytes that n random numbers are cut to. */
  function Octets(seed: nat, n: nat): (s: seq<bv8>)
    ensures |s| == n
  {
    if n == 0 then [] else Octets(seed, n - 1) + [(SeedAfter(seed, n) / 0x1_0000 % 256) as bv8]
  }

  /** The bytes in numbers: bits 16 to 23 of the seeds. */
  lemma {:induction false} OctetsAre(seed: nat, n: nat, i: nat)
    requires i < n
    ensures Octets(seed, n)[i] == (SeedAfter(seed, i + 1) / 65536 % 256) as bv8
    ensures SeedAfter(seed, 0) == seed
    ensures SeedAfter(seed, i + 1) == (SeedAfter(seed, i) * 1103515245 + 12345) % 2147483648
    decreases n
  {
    hide *;
    SeedsAre(seed, i);
    OctetsGrow(seed, n - 1);
    if i < n - 1 {
      OctetsAre(seed, n - 1, i);
    }
  }

  lemma {:induction false} SeedsAre(seed: nat, i: nat)
    ensures SeedAfter(seed, 0) == seed
    ensures SeedAfter(seed, i + 1) == (SeedAfter(seed, i) * 1103515245 + 12345) % 2147483648
  {
  }

  lemma {:induction false} OctetsGrow(seed: nat, n: nat)
    ensures Octets(seed, n + 1) == Octets(seed, n) + [(SeedAfter(seed, n + 1) / 0x1_0000 % 256) as bv8]
  {
    hide SeedAfter;
  }

  lemma {:induction false} OctetsNext(r: bv64, seed: nat, n: nat)
    ensures WideRegister(r, Octets(seed, n + 1))
         == UpdC32((SeedAfter(seed, n + 1) / 0x1_0000 % 256) as bv8, WideRegister(r, Octets(seed, n)))
    ensures SeedAfter(seed, n + 1) == Beebs.NextSeed(SeedAfter(seed, n))
  {
    hide UpdC32, Beebs.NextSeed;
    var s := Octets(seed, n + 1);
    assert s[..n] == Octets(seed, n);
  }

  lemma {:induction false} NoOctets(r: bv64, seed: nat)
    ensures WideRegister(r, Octets(seed, 0)) == r && SeedAfter(seed, 0) == seed
  {
  }

  lemma {:induction false} WideStart()
    ensures (0xffffffff as bv32) as bv64 == 0xffffffff
  {
  }

  /** The benchmark: the complement, in 64 bits, of the register after 1024 random bytes. */
  method Crc32Pseudo(lib: Beebs.Library) returns (crc: bv64)
    requires lib.seed < 0x1_0000_0000
    modifies lib`seed
    ensures crc == !(Register(0xffffffff, Octets(old(lib.seed), 1024)) as bv64)
    ensures lib.seed == SeedAfter(old(lib.seed), 1024)
  {
    hide *;
    ghost var seed := lib.seed;
    var oldcrc32: bv64 := 0xffffffff;
    NoOctets(oldcrc32, seed);
    var i := 0;
    while i < 1024
      invariant 0 <= i <= 1024 && lib.seed < 0x1_0000_0000
      invariant lib.seed == SeedAfter(seed, i)
      invariant oldcrc32 == WideRegister(0xffffffff, Octets(seed, i))
    {
      OctetsNext(0xffffffff, seed, i);
      var r := lib.RandBeebs();
      oldcrc32 := UpdC32((r % 256) as bv8, oldcrc32);
      i := i + 1;
    }
    WideStart();
    RegisterFits(0xffffffff, Octets(seed, 1024));
    crc := !oldcrc32;
  }
}
