/** crc7 of sd.c, the CRC7 of SD commands (section 4.5 of the SD Physical Layer Simplified
    Specification), with the code in the upper seven bits of a byte. */
module Crc7 {
  import opened Powers
  import opened Gf2
  import opened CrcCode
  import opened ByteStream
  import GfByte

  /** x^7 + x^3 + 1 */
  const GENERATOR: nat := 0x89

  lemma {:induction false} GeneratorIs()
    ensures GENERATOR == 0x89
  {
  }

  function ByteStep(prev: bv8, data: bv8): bv8 {
    Eight(prev ^ data)
  }

  /** The foldings of crc7. */
  function Eight(a: bv8): bv8 {
    var b := a ^ ((a >> 4) ^ (a >> 7));
    (b << 1) ^ (b << 4)
  }

  function Register(s: seq<bv8>): bv8 {
    if s == [] then 0 else ByteStep(Register(s[..|s| - 1]), s[|s| - 1])
  }

  /** A round of the shift register for twice the generator. */
  function ShiftBit(r: bv8): bv8 {
    GfByte.ShiftBit(r, 0x12)
  }

  /** The parallel step is eight rounds. */
  lemma {:induction false} StepIsSerial(r0: bv8, r1: bv8, r2: bv8, r3: bv8, r4: bv8, r5: bv8, r6: bv8, r7: bv8, r8: bv8)
    requires r1 == ShiftBit(r0) && r2 == ShiftBit(r1) && r3 == ShiftBit(r2) && r4 == ShiftBit(r3)
    requires r5 == ShiftBit(r4) && r6 == ShiftBit(r5) && r7 == ShiftBit(r6) && r8 == ShiftBit(r7)
    ensures Eight(r0) == r8
  {
  }

  lemma {:induction false} RoundShifts(r: bv8, a: nat, n: nat)
    requires GfByte.Value(r) == Rem(Shl(a, n), 2 * GENERATOR)
    ensures GfByte.Value(ShiftBit(r)) == Rem(Shl(a, n + 1), 2 * GENERATOR)
  {
    hide GfByte.Value, Rem, Shl, BitLen, GfByte.ShiftBit;
    GfByte.ShiftBitIsTimesX(r, 0x12);
    GfByte.ValueIsNumber(0x12);
    GfByte.ByteLength(r);
    RemReduced(GfByte.Value(r), 2 * GENERATOR);
    RemDoubled(GfByte.Value(r), Shl(a, n), 2 * GENERATOR);
    ShlNext(a, n);
  }

  lemma {:induction false} StepReduces(prev: bv8, data: bv8)
    ensures GfByte.Value(ByteStep(prev, data))
         == Rem(Shl(Xor(GfByte.Value(prev), GfByte.Value(data)), 8), 2 * GENERATOR)
    ensures BitLen(2 * GENERATOR) == 9
  {
    hide Eight, ShiftBit, GfByte.Value, GfByte.ShiftBit, BitLen, Xor, Rem, Shl;
    var r0 := prev ^ data;
    var a := GfByte.Value(r0);
    GfByte.XorIsSum(prev, data);
    GfByte.ShiftBitIsTimesX(r0, 0x12);
    GfByte.ValueIsNumber(0x12);
    GfByte.ByteLength(r0);
    RemReduced(a, 2 * GENERATOR);
    ShlNext(a, 0);
    var r1 := ShiftBit(r0);
    RoundShifts(r0, a, 0);
    var r2 := ShiftBit(r1);
    RoundShifts(r1, a, 1);
    var r3 := ShiftBit(r2);
    RoundShifts(r2, a, 2);
    var r4 := ShiftBit(r3);
    RoundShifts(r3, a, 3);
    var r5 := ShiftBit(r4);
    RoundShifts(r4, a, 4);
    var r6 := ShiftBit(r5);
    RoundShifts(r5, a, 5);
    var r7 := ShiftBit(r6);
    RoundShifts(r6, a, 6);
    var r8 := ShiftBit(r7);
    RoundShifts(r7, a, 7);
    StepIsSerial(r0, r1, r2, r3, r4, r5, r6, r7, r8);
  }

  lemma {:induction false} StreamStep(x: seq<bool>, r: nat, d: bv8, next: nat, g: nat)
    requires BitLen(g) == 9 && g > 0 && r == Remainder(x, 8, g)
    requires next == Rem(Shl(Xor(r, GfByte.Value(d)), 8), g)
    ensures next == Remainder(x + Bits(d), 8, g)
  {
    hide Xor, Shl, Rem, BitLen, Number, Bits, GfByte.Value;
    var n, v := Number(x), GfByte.Value(d);
    NumberJoin(x, Bits(d));
    BitsNumber(d);
    RemXor(Shl(n, 8), v, g);
    RemIsRem(Shl(n, 8), g);
    RemReduced(r, g);
    RemXor(r, v, g);
    RemShifted(Xor(r, v), Xor(Shl(n, 8), v), 8, g);
  }

  lemma {:induction false} RegisterIsTwice(s: seq<bv8>)
    ensures GfByte.Value(Register(s)) == Remainder(Stream(s), 8, 2 * GENERATOR)
    decreases |s|
  {
    hide GfByte.Value, Remainder, ByteStep, Bits, BitLen;
    if s == [] {
      EmptyRegister();
    } else {
      var s', d := s[..|s| - 1], s[|s| - 1];
      RegisterIsTwice(s');
      StepReduces(Register(s'), d);
      StreamStep(Stream(s'), GfByte.Value(Register(s')), d, GfByte.Value(Register(s)), 2 * GENERATOR);
    }
  }

  lemma {:induction false} EmptyRegister()
    ensures GfByte.Value(0) == Remainder([], 8, 2 * GENERATOR)
  {
    hide Shl, Rem, Number, BitLen;
    StepReduces(0, 0);
    EmptyStream(8, 2 * GENERATOR);
  }

  /** The remainder of a multiple of x by a multiple of x. */
  lemma {:induction false} RemTwice(a: nat, g: nat)
    requires g > 0
    ensures Rem(2 * a, 2 * g) == 2 * Rem(a, g)
  {
    hide Xor, Rem, Mul;
    RemIsRem(a, g);
    var r := Rem(a, g);
    var q: nat :| Mul(q, g) == Xor(a, r);
    MulDoubleRight(q, g);
    XorDouble(a, r);
    assert Mul(q, 2 * g) == Xor(2 * a, 2 * r);
    RemUnique(2 * a, 2 * g, 2 * r);
  }

  /** The register holds the remainder of the stream times x^7 by x^7 + x^3 + 1, shifted left by one:
      its low bit is 0. */
  lemma {:induction false} RegisterIsRemainder(s: seq<bv8>)
    ensures GfByte.Value(Register(s)) == 2 * Remainder(Stream(s), 7, GENERATOR)
    ensures GfByte.Value(Register(s)) == 2 * Serial(0, Stream(s), 7, GENERATOR)
    ensures Register(s) & 1 == 0
  {
    hide Rem, Number, Shl, GfByte.Value, BitLen, Register, Stream, Serial;
    RegisterIsTwice(s);
    ShlNext(Number(Stream(s)), 7);
    RemTwice(Shl(Number(Stream(s)), 7), GENERATOR);
    GfByte.Halve(Register(s));
    EightDigits();
    SerialIsRemainder(Stream(s), 7, GENERATOR);
  }

  lemma {:induction false} EightDigits()
    ensures BitLen(GENERATOR) == 8
  {
    assert Pow2(7) == 128 && Pow2(8) == 256;
    BitLenBound(GENERATOR, 7);
    BitLenBound(GENERATOR, 8);
  }
}
