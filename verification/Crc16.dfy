/** The CRC16 of SD cards (section 4.5 of the SD Physical Layer Simplified Specification): the table
    step of boot.c and the byte step of sd.c. */
module Crc16 {
  import opened Powers
  import opened Gf2
  import opened GfLong
  import opened CrcCode
  import opened CrcTable16
  import opened ByteStream
  import GfByte

  /** x^16 + x^12 + x^5 + 1 */
  const GENERATOR: nat := 0x11021

  /** The step of disk_read. */
  function TableStep(crc: bv16, data: bv8): bv16 {
    (crc << 8) ^ CrcTable((data as bv16) ^ (crc >> 8))
  }

  /** crc16 of sd.c. */
  function ByteStep(crc: bv16, data: bv8): bv16 {
    FoldMiddle(FoldTop(FoldNibble(((crc >> 8) | (crc << 8)) ^ (data as bv16))))
  }

  /** The register after some bytes, from r on. */
  function Register(r: bv16, s: seq<bv8>): bv16 {
    if s == [] then r else TableStep(Register(r, s[..|s| - 1]), s[|s| - 1])
  }

  function ByteRegister(r: bv16, s: seq<bv8>): bv16 {
    if s == [] then r else ByteStep(ByteRegister(r, s[..|s| - 1]), s[|s| - 1])
  }

  lemma {:induction false} RegisterJoin(r: bv16, s: seq<bv8>, t: seq<bv8>)
    ensures Register(r, s + t) == Register(Register(r, s), t)
    decreases |t|
  {
    hide TableStep;
    if t == [] {
      assert s + t == s;
    } else {
      assert (s + t)[..|s + t| - 1] == s + t[..|t| - 1];
      RegisterJoin(r, s, t[..|t| - 1]);
    }
  }

  lemma {:induction false} RegisterSnoc(r: bv16, s: seq<bv8>, d: bv8)
    ensures Register(r, s + [d]) == TableStep(Register(r, s), d)
  {
    hide TableStep;
    assert (s + [d])[..|s|] == s;
  }

  // ----- the two steps are the same

  function Index(crc: bv16, data: bv8): (k: bv16)
    ensures k < 256
  {
    Narrow(data);
    (data as bv16) ^ (crc >> 8)
  }

  lemma {:induction false} LowFolds(v: bv16, u: bv16)
    requires v & 0xff == 0
    ensures FoldMiddle(FoldTop(FoldNibble(Plus(v, u)))) == Plus(v, FoldMiddle(FoldTop(FoldNibble(u))))
  {
    hide *;
    NibbleOfLow(v, u);
    TopOfLow(v, FoldNibble(u));
    MiddleOfLow(v, FoldTop(FoldNibble(u)));
  }

  lemma {:induction false} ByteParts(crc: bv16, data: bv8)
    ensures ByteStep(crc, data) == FoldMiddle(FoldTop(FoldNibble(Plus(Shifted(crc), Index(crc, data)))))
    ensures Shifted(crc) & 0xff == 0
  {
    hide FoldNibble, FoldTop, FoldMiddle;
    ExchangedBytes(crc, data as bv16);
  }

  lemma {:induction false} TableParts(crc: bv16, data: bv8)
    ensures TableStep(crc, data) == Plus(Shifted(crc), CrcTable(Index(crc, data)))
  {
    hide CrcTable;
  }

  lemma {:induction false} ClosedIs(k: bv16)
    ensures Closed(k) == FoldMiddle(FoldTop(FoldNibble(k)))
  {
  }

  /** The byte step of sd.c and the table step of boot.c are the same function. */
  lemma {:induction false} StepsAgree(crc: bv16, data: bv8)
    ensures ByteStep(crc, data) == TableStep(crc, data)
  {
    hide *;
    ByteParts(crc, data);
    TableParts(crc, data);
    LowFolds(Shifted(crc), Index(crc, data));
    TableIsClosed(Index(crc, data));
    ClosedIs(Index(crc, data));
  }

  lemma {:induction false} RegistersAgree(r: bv16, s: seq<bv8>)
    ensures ByteRegister(r, s) == Register(r, s)
    decreases |s|
  {
    hide ByteStep, TableStep;
    if s != [] {
      RegistersAgree(r, s[..|s| - 1]);
      StepsAgree(Register(r, s[..|s| - 1]), s[|s| - 1]);
    }
  }

  // ----- registers as polynomials

  function Bit(c: bv16): nat {
    if c != 0 then 1 else 0
  }

  function Value(x: bv16): nat
    decreases x
  {
    if x == 0 then 0 else Bit(x & 1) + 2 * Value(x >> 1)
  }

  lemma {:induction false} Split(x: bv16)
    ensures Value(x) == Bit(x & 1) + 2 * Value(x >> 1)
  {
    if x == 0 {
      assert x >> 1 == 0;
    }
  }

  lemma {:induction false} XorParts(x: bv16, y: bv16)
    ensures (x ^ y) >> 1 == (x >> 1) ^ (y >> 1)
    ensures Bit((x ^ y) & 1) == (Bit(x & 1) + Bit(y & 1)) % 2
  {
  }

  lemma {:induction false} XorIsSum(x: bv16, y: bv16)
    ensures Value(x ^ y) == Xor(Value(x), Value(y))
    decreases x
  {
    hide Xor;
    if x == 0 {
      XorNothing(y);
      XorStart(Value(y));
    } else {
      Shrinks(x);
      XorIsSum(x >> 1, y >> 1);
      XorParts(x, y);
      Split(x);
      Split(y);
      Split(x ^ y);
      XorByParts(Bit(x & 1), Value(x >> 1), Bit(y & 1), Value(y >> 1), Value(x), Value(y), Value(x ^ y));
    }
  }

  /** A byte has the same polynomial in a register. */
  lemma {:induction false} Widen(d: bv8)
    ensures Value(d as bv16) == GfByte.Value(d)
    decreases d
  {
    WidenHalves(d);
    if d != 0 {
      GfByte.Shrinks(d);
      Widen(d >> 1);
    }
  }

  lemma {:induction false} ShiftClear(x: bv16)
    requires x & 0x8000 == 0
    ensures Value(x << 1) == 2 * Value(x)
  {
    hide Value;
    Split(x << 1);
    HalvesDouble(x);
  }

  lemma {:induction false} PowerValues()
    ensures Value(0x1000) == 0x1000 && Value(0x8000) == 0x8000
  {
    assert Value(1) == 1;
    ShiftClear(1);
    ShiftClear(2);
    ShiftClear(4);
    ShiftClear(8);
    ShiftClear(0x10);
    ShiftClear(0x20);
    ShiftClear(0x40);
    ShiftClear(0x80);
    ShiftClear(0x100);
    ShiftClear(0x200);
    ShiftClear(0x400);
    ShiftClear(0x800);
    ShiftClear(0x1000);
    ShiftClear(0x2000);
    ShiftClear(0x4000);
  }

  lemma {:induction false} LowValue()
    ensures Value(0x1021) == 0x1021
  {
    hide Value, Xor;
    assert Pow2(12) == 0x1000;
    XorIsSum(0x1000, 0x21);
    PowerValues();
    Widen(0x21);
    GfByte.ValueIsNumber(0x21);
    GfByte.XorTop(0x21, 12);
  }

  lemma {:induction false} GeneratorDigits()
    ensures Pow2(16) == 0x10000 && Xor(0x10000, 0x1021) == GENERATOR && BitLen(GENERATOR) == 17
  {
    hide Xor, BitLen;
    assert Pow2(8) == 256;
    PowAdd(8, 8);
    PowAdd(8, 9);
    GfByte.XorTop(0x1021, 16);
    BitLenBound(GENERATOR, 16);
    BitLenBound(GENERATOR, 17);
  }

  lemma {:induction false} HalfBits(x: bv16)
    ensures BitLen(Value(x)) <= 1 + BitLen(Value(Half(x)))
  {
    Split(x);
  }

  lemma {:induction false} QuarterBits(x: bv16)
    ensures BitLen(Value(x)) <= 4 + BitLen(Value(Half(Half(Half(Half(x))))))
  {
    hide *;
    HalfBits(x);
    HalfBits(Half(x));
    HalfBits(Half(Half(x)));
    HalfBits(Half(Half(Half(x))));
  }

  lemma {:induction false} NibbleBits(x: bv16, y: bv16)
    requires y == x >> 4
    ensures BitLen(Value(x)) <= 4 + BitLen(Value(y))
  {
    hide *;
    QuarterBits(x);
    Quarter(x);
  }

  lemma {:induction false} NoBits(x: bv16)
    requires x == 0
    ensures BitLen(Value(x)) == 0
  {
  }

  lemma {:induction false} ValueBits(x: bv16)
    ensures BitLen(Value(x)) <= 16
    ensures x < 256 ==> BitLen(Value(x)) <= 8
  {
    hide Value, BitLen;
    NibbleBits(x, x >> 4);
    NibbleBits(x >> 4, x >> 8);
    if x < 256 {
      NoBits(x >> 8);
    } else {
      NibbleBits(x >> 8, x >> 12);
      NibbleBits(x >> 12, 0);
      NoBits(0);
    }
  }

  /** Shifts that lose no bit multiply by powers of x. */
  lemma {:induction false} ShiftNext(x: bv16, y: bv16, a: nat, n: nat)
    requires x & 0x8000 == 0 && y == x << 1 && Value(x) == Shl(a, n)
    ensures Value(y) == Shl(a, n + 1)
  {
    hide Value, Shl;
    ShiftClear(x);
    ShlNext(a, n);
  }

  lemma {:induction false} ShiftByteFrom(x: bv16, x1: bv16, x2: bv16, x3: bv16, x4: bv16, x5: bv16, x6: bv16,
                                         x7: bv16, x8: bv16)
    requires x & 0x8000 == 0 && x1 & 0x8000 == 0 && x2 & 0x8000 == 0 && x3 & 0x8000 == 0
    requires x4 & 0x8000 == 0 && x5 & 0x8000 == 0 && x6 & 0x8000 == 0 && x7 & 0x8000 == 0
    requires x1 == x << 1 && x2 == x1 << 1 && x3 == x2 << 1 && x4 == x3 << 1
    requires x5 == x4 << 1 && x6 == x5 << 1 && x7 == x6 << 1 && x8 == x7 << 1
    ensures Value(x8) == Shl(Value(x), 8)
  {
    hide *;
    var a := Value(x);
    ShlNext(a, 0);
    ShiftNext(x, x1, a, 0);
    ShiftNext(x1, x2, a, 1);
    ShiftNext(x2, x3, a, 2);
    ShiftNext(x3, x4, a, 3);
    ShiftNext(x4, x5, a, 4);
    ShiftNext(x5, x6, a, 5);
    ShiftNext(x6, x7, a, 6);
    ShiftNext(x7, x8, a, 7);
  }

  lemma {:induction false} ShiftByte(x: bv16, y: bv16)
    requires x < 256 && y == x << 8
    ensures Value(y) == Shl(Value(x), 8)
  {
    hide *;
    var x1 := x << 1;
    var x2 := x1 << 1;
    var x3 := x2 << 1;
    var x4 := x3 << 1;
    var x5 := x4 << 1;
    var x6 := x5 << 1;
    var x7 := x6 << 1;
    var x8 := x7 << 1;
    ByteFits(x, x1, x2, x3, x4, x5, x6, x7, x8);
    ShiftByteFrom(x, x1, x2, x3, x4, x5, x6, x7, x8);
  }

  lemma {:induction false} DoubleBits(a: nat)
    ensures a > 0 ==> BitLen(2 * a) == BitLen(a) + 1
  {
  }

  lemma {:induction false} RoundClear(r: bv16)
    requires Clear(r)
    ensures Value(ShiftBit(r)) == TimesX(Value(r), 16, GENERATOR)
  {
    hide Value, BitLen, Xor;
    assert ShiftBit(r) == r << 1;
    ShiftClear(r);
    ValueBits(r << 1);
    CarryDigit(2 * Value(r), 16);
  }

  /** The carry out of the register is x^16, and the generator without it is 0x1021. */
  lemma {:induction false} CarryCancels(low: nat, v: nat)
    requires v == Xor(low, 0x8000)
    ensures Xor(2 * v, GENERATOR) == Xor(2 * low, 0x1021)
  {
    hide Xor, BitLen;
    GeneratorDigits();
    XorDouble(low, 0x8000);
    XorAssoc(2 * low, 0x10000, GENERATOR);
    XorCancel(0x1021, 0x10000);
  }

  lemma {:induction false} SetBits(low: nat, v: nat)
    requires v == Xor(low, 0x8000) && BitLen(2 * low) <= 16
    ensures BitLen(2 * v) == 17
  {
    hide Xor, BitLen;
    DoubleBits(low);
    DoubleBits(v);
    SomeBits(v);
    SomeBits(low);
    TopLength();
    XorBitLen(low, 0x8000);
  }

  lemma {:induction false} SomeBits(v: nat)
    ensures BitLen(v) > 0 <==> v > 0
  {
  }

  lemma {:induction false} TopLength()
    ensures BitLen(0x8000) == 16
  {
    hide BitLen, Shl;
    assert Pow2(15) == 0x8000 && Pow2(16) == 2 * Pow2(15);
    BitLenBound(0x8000, 15);
    BitLenBound(0x8000, 16);
  }

  lemma {:induction false} RoundSetNumbers(v: nat, low: nat, next: nat)
    requires v == Xor(low, 0x8000) && BitLen(2 * low) <= 16 && next == Xor(2 * low, 0x1021)
    ensures next == TimesX(v, 16, GENERATOR)
  {
    hide BitLen, Xor;
    CarryCancels(low, v);
    SetBits(low, v);
    CarryDigit(2 * v, 16);
  }

  lemma {:induction false} PlusIsSum(x: bv16, y: bv16)
    ensures Value(Plus(x, y)) == Xor(Value(x), Value(y))
  {
    hide Value, Xor;
    XorIsSum(x, y);
  }

  lemma {:induction false} TwiceClear(x: bv16)
    requires Clear(x)
    ensures Value(Twice(x)) == 2 * Value(x)
  {
    hide Value;
    ShiftClear(x);
  }

  lemma {:induction false} RoundSetFrom(r: bv16, lo: bv16, next: bv16)
    requires Clear(lo) && r == Plus(lo, 0x8000) && next == Plus(Twice(lo), 0x1021)
    ensures Value(next) == TimesX(Value(r), 16, GENERATOR)
  {
    hide *;
    PlusIsSum(lo, 0x8000);
    PowerValues();
    TwiceClear(lo);
    ValueBits(Twice(lo));
    PlusIsSum(Twice(lo), 0x1021);
    LowValue();
    RoundSetNumbers(Value(r), Value(lo), Value(next));
  }

  lemma {:induction false} RoundSet(r: bv16)
    requires !Clear(r)
    ensures Value(ShiftBit(r)) == TimesX(Value(r), 16, GENERATOR)
  {
    hide *;
    var lo := r & 0x7fff;
    TopBit(r, lo);
    TopRound(r);
    RoundSetFrom(r, lo, ShiftBit(r));
  }

  /** A round of the register multiplies by x. */
  lemma {:induction false} RoundIsTimesX(r: bv16)
    ensures Value(ShiftBit(r)) == TimesX(Value(r), 16, GENERATOR)
  {
    hide *;
    if Clear(r) {
      RoundClear(r);
    } else {
      RoundSet(r);
    }
  }

  lemma {:induction false} RoundReducesTo(r: bv16, n: nat)
    requires Value(r) == Rem(n, GENERATOR)
    ensures Value(ShiftBit(r)) == Rem(2 * n, GENERATOR)
  {
    hide Value, BitLen, Rem, TimesX;
    RoundIsTimesX(r);
    ValueBits(r);
    GeneratorDigits();
    TimesXReduces(Value(r), 16, GENERATOR);
    RemReduced(Value(r), GENERATOR);
    RemDoubled(Value(r), n, GENERATOR);
  }

  lemma {:induction false} RoundShifts(r: bv16, a: nat, n: nat)
    requires Value(r) == Rem(Shl(a, n), GENERATOR)
    ensures Value(ShiftBit(r)) == Rem(Shl(a, n + 1), GENERATOR)
  {
    hide *;
    RoundReducesTo(r, Shl(a, n));
    ShlNext(a, n);
  }

  /** The table holds the remainders of the bytes times x^16. */
  lemma {:induction false} TableEntry(k: bv16)
    requires k < 256
    ensures Value(CrcTable(k)) == Rem(Shl(Value(k), 16), GENERATOR)
  {
    hide *;
    var a, r0 := Value(k), k << 8;
    ShiftByte(k, r0);
    ValueBits(r0);
    GeneratorDigits();
    RemReduced(Value(r0), GENERATOR);
    var r1 := ShiftBit(r0);
    RoundShifts(r0, a, 8);
    var r2 := ShiftBit(r1);
    RoundShifts(r1, a, 9);
    var r3 := ShiftBit(r2);
    RoundShifts(r2, a, 10);
    var r4 := ShiftBit(r3);
    RoundShifts(r3, a, 11);
    var r5 := ShiftBit(r4);
    RoundShifts(r4, a, 12);
    var r6 := ShiftBit(r5);
    RoundShifts(r5, a, 13);
    var r7 := ShiftBit(r6);
    RoundShifts(r6, a, 14);
    var r8 := ShiftBit(r7);
    RoundShifts(r7, a, 15);
    TableIsSerial(k, r0, r1, r2, r3, r4, r5, r6, r7, r8);
  }

  // ----- a byte at a time

  /** The step on the polynomials: with hi and lo the bytes of the register,
      (hi x^8 + lo) x^8 + d x^16 = lo x^8 + (d + hi) x^16. */
  lemma {:induction false} StepNumbers(crc: nat, hi: nat, lo: nat, d: nat)
    requires crc == Xor(Shl(hi, 8), lo)
    ensures Xor(Shl(crc, 8), Shl(d, 16)) == Xor(Shl(lo, 8), Shl(Xor(d, hi), 16))
  {
    hide Xor, Shl;
    ShlXor(Shl(hi, 8), lo, 8);
    ShlShl(hi, 8, 8);
    ShlXor(d, hi, 16);
    var h, l, e := Shl(hi, 16), Shl(lo, 8), Shl(d, 16);
    XorComm(h, l);
    XorAssoc(l, h, e);
    XorComm(h, e);
  }

  lemma {:induction false} StepReduced(crc: nat, hi: nat, lo: nat, d: nat, low: nat, entry: nat)
    requires crc == Xor(Shl(hi, 8), lo) && low == Shl(lo, 8) && BitLen(low) <= 16
    requires entry == Rem(Shl(Xor(d, hi), 16), GENERATOR)
    ensures Xor(low, entry) == Rem(Xor(Shl(crc, 8), Shl(d, 16)), GENERATOR)
  {
    hide Xor, Shl, Rem, BitLen;
    StepNumbers(crc, hi, lo, d);
    GeneratorDigits();
    RemReduced(low, GENERATOR);
    RemXor(low, Shl(Xor(d, hi), 16), GENERATOR);
  }

  lemma {:induction false} TableStepReduces(crc: bv16, data: bv8)
    ensures Value(TableStep(crc, data)) == Rem(Xor(Shl(Value(crc), 8), Shl(GfByte.Value(data), 16)), GENERATOR)
  {
    hide *;
    var d := data as bv16;
    var hi, lo := crc >> 8, crc & 0xff;
    Bytes(crc, hi, lo);
    TableParts(crc, data);
    IndexIs(crc, data, d, hi);
    PlusIsSum(Shifted(hi), lo);
    ShiftedByte(hi);
    ShiftedByte(lo);
    ValueBits(Shifted(lo));
    Widen(data);
    PlusIsSum(d, hi);
    TableEntry(Index(crc, data));
    PlusIsSum(Shifted(crc), CrcTable(Index(crc, data)));
    StepReduced(Value(crc), Value(hi), Value(lo), Value(d), Value(Shifted(lo)), Value(CrcTable(Index(crc, data))));
  }

  lemma {:induction false} IndexIs(crc: bv16, data: bv8, d: bv16, hi: bv16)
    requires d == data as bv16 && hi == crc >> 8
    ensures Index(crc, data) == Plus(d, hi)
  {
  }

  lemma {:induction false} ShiftedByte(x: bv16)
    requires x < 256
    ensures Value(Shifted(x)) == Shl(Value(x), 8)
  {
    hide Value, Shl;
    ShiftByte(x, x << 8);
  }

  /** The register's new value for one more byte of the stream. */
  lemma {:induction false} StreamStep(x: seq<bool>, r: nat, d: bv8, next: nat)
    requires r == Remainder(x, 16, GENERATOR) && BitLen(r) <= 16
    requires next == Rem(Xor(Shl(r, 8), Shl(GfByte.Value(d), 16)), GENERATOR)
    ensures next == Remainder(x + Bits(d), 16, GENERATOR)
  {
    hide Xor, Shl, Rem, BitLen, Number, Bits, GfByte.Value;
    var n, v := Number(x), GfByte.Value(d);
    NumberJoin(x, Bits(d));
    BitsNumber(d);
    ShlXor(Shl(n, 8), v, 16);
    ShlShl(n, 8, 16);
    ShlShl(n, 16, 8);
    GeneratorDigits();
    RemReduced(r, GENERATOR);
    RemShifted(r, Shl(n, 16), 8, GENERATOR);
    RemXor(Shl(r, 8), Shl(v, 16), GENERATOR);
    RemXor(Shl(Shl(n, 16), 8), Shl(v, 16), GENERATOR);
  }

  /** The table-driven register computes the remainder of the stream times x^16 by
      x^16 + x^12 + x^5 + 1. */
  lemma {:induction false} RegisterIsRemainder(s: seq<bv8>)
    ensures Value(Register(0, s)) == Remainder(Stream(s), 16, GENERATOR)
    decreases |s|
  {
    hide Value, Remainder, TableStep, Bits;
    if s == [] {
      EmptyRegister();
    } else {
      var s', d := s[..|s| - 1], s[|s| - 1];
      RegisterIsRemainder(s');
      TableStepReduces(Register(0, s'), d);
      ValueBits(Register(0, s'));
      StreamStep(Stream(s'), Value(Register(0, s')), d, Value(Register(0, s)));
    }
  }

  lemma {:induction false} EmptyRegister()
    ensures Value(0) == Remainder([], 16, GENERATOR)
  {
    hide Shl, Rem, Number, BitLen;
    GeneratorDigits();
    EmptyStream(16, GENERATOR);
  }

  /** The table-driven register of boot.c, the byte step of sd.c and the bit-serial register agree. */
  lemma {:induction false} FormsAgree(s: seq<bv8>)
    ensures ByteRegister(0, s) == Register(0, s)
    ensures Value(Register(0, s)) == Serial(0, Stream(s), 16, GENERATOR)
  {
    hide *;
    RegistersAgree(0, s);
    RegisterIsRemainder(s);
    GeneratorDigits();
    SerialIsRemainder(Stream(s), 16, GENERATOR);
  }

  // ----- the comparison with the received checksum

  lemma {:induction false} ZeroValue(x: bv16)
    ensures Value(x) == 0 <==> x == 0
    decreases x
  {
    Split(x);
    if x != 0 {
      Shrinks(x);
      ZeroValue(x >> 1);
      if x & 1 == 0 {
        NonZeroHalf(x);
      }
    }
  }

  lemma {:induction false} SameValue(x: bv16, y: bv16)
    requires Value(x) == Value(y)
    ensures x == y
  {
    hide *;
    PlusIsSum(x, y);
    XorSelf(Value(x));
    ZeroValue(Plus(x, y));
    PlusZero(x, y);
  }

  lemma {:induction false} WordNumber(hi: bv8, lo: bv8)
    ensures Number(Bits(hi) + Bits(lo)) == Value(Word(hi, lo))
  {
    hide *;
    NumberJoin(Bits(hi), Bits(lo));
    BitsNumber(hi);
    BitsNumber(lo);
    WordIs(hi, lo);
    Narrow(hi);
    PlusIsSum(Shifted(hi as bv16), lo as bv16);
    ShiftedByte(hi as bv16);
    Widen(hi);
    Widen(lo);
  }

  lemma {:induction false} PairStream(s: seq<bv8>, hi: bv8, lo: bv8)
    ensures Stream(s + [hi, lo]) == Stream(s) + (Bits(hi) + Bits(lo))
  {
    hide Bits;
    StreamJoin(s, [hi, lo]);
    assert [hi, lo][..1] == [hi];
    assert Stream([hi, lo]) == Stream([hi]) + Bits(lo);
    assert [hi][..0] == [];
    assert Stream([hi]) == Bits(hi);
  }

  /** The comparison passes exactly when the register is 0 after the checksum bytes; in particular
      appending the checksum of a stream drives the register to 0. */
  lemma {:induction false} ChecksumAppended(s: seq<bv8>, hi: bv8, lo: bv8)
    ensures Register(0, s + [hi, lo]) == 0 <==> Register(0, s) == Word(hi, lo)
  {
    hide *;
    RegisterIsRemainder(s);
    RegisterIsRemainder(s + [hi, lo]);
    PairStream(s, hi, lo);
    WordNumber(hi, lo);
    GeneratorDigits();
    IsGenerator();
    PairBits(hi, lo);
    CodeAppended(Stream(s), Bits(hi) + Bits(lo), 16, GENERATOR);
    ZeroValue(Register(0, s + [hi, lo]));
    if Value(Register(0, s)) == Value(Word(hi, lo)) {
      SameValue(Register(0, s), Word(hi, lo));
    }
  }

  lemma {:induction false} PairBits(hi: bv8, lo: bv8)
    ensures |Bits(hi) + Bits(lo)| == 16
  {
  }

  /** Two different streams of one length that differ only inside a window of 16 consecutive bits
      have different checksums, so with the same checksum bytes at most one of them passes. */
  lemma {:induction false} BurstChangesChecksum(s: seq<bv8>, t: seq<bv8>, from: nat)
    requires s != t && DifferWithin(Stream(s), Stream(t), from, 16)
    ensures Register(0, s) != Register(0, t)
  {
    hide *;
    if Stream(s) == Stream(t) {
      SameStream(s, t);
    }
    RegisterIsRemainder(s);
    RegisterIsRemainder(t);
    GeneratorDigits();
    IsGenerator();
    BurstDetected(Stream(s), Stream(t), from, 16, GENERATOR);
  }

  lemma {:induction false} IsGenerator()
    requires BitLen(GENERATOR) == 17
    ensures Generator(GENERATOR, 16)
  {
  }
}
