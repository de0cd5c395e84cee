/** Which flipped bits the CRC16 of SD cards detects wherever they lie: its generator has an even number
    of terms, and the powers of x modulo it repeat after 32767 and no sooner. */
module Crc16Distance {
  import opened Powers
  import opened Gf2
  import opened GfLong
  import opened CrcCode
  import opened CrcDistance
  import opened CrcTable16
  import opened ByteStream
  import opened Crc16
  import GfByte

  /** The number of powers of x, 7 * 31 * 151. */
  const ORDER: nat := 32767

  // ----- products of registers

  /** A multiplication loop on registers: the sum, and what is left to multiply. */
  datatype Product = Product(sum: bv16, a: bv16, b: bv16)

  predicate Odd(x: bv16) {
    x & 1 != 0
  }

  function Round(p: Product): Product {
    Product(if Odd(p.b) then Plus(p.sum, p.a) else p.sum, ShiftBit(p.a), Half(p.b))
  }

  function Four(p: Product): Product {
    Round(Round(Round(Round(p))))
  }

  /** Sixteen rounds from u and v give w. */
  predicate Gives(u: bv16, v: bv16, w: bv16) {
    var p := Four(Four(Four(Four(Product(0, u, v)))));
    p.sum == w && p.b == 0
  }

  function Meaning(p: Product): nat {
    Xor(Value(p.sum), LongSum(Value(p.a), Value(p.b), 16, GENERATOR))
  }

  lemma {:induction false} Halve(x: bv16)
    ensures Value(Half(x)) == Value(x) / 2 && (Odd(x) <==> Value(x) % 2 == 1)
  {
    hide Value;
    Split(x);
  }

  lemma {:induction false} RoundKeeps(p: Product)
    ensures Meaning(Round(p)) == Meaning(p)
  {
    hide *;
    RoundIs(p);
    MeaningIs(p);
    MeaningIs(Round(p));
    LongRound(Value(p.sum), Value(p.a), Value(p.b), 16, GENERATOR);
    Halve(p.b);
    RoundIsTimesX(p.a);
    PlusIsSum(p.sum, p.a);
  }

  lemma {:induction false} RoundIs(p: Product)
    ensures Round(p) == Product(if Odd(p.b) then Plus(p.sum, p.a) else p.sum, ShiftBit(p.a), Half(p.b))
  {
  }

  lemma {:induction false} MeaningIs(p: Product)
    ensures Meaning(p) == Xor(Value(p.sum), LongSum(Value(p.a), Value(p.b), 16, GENERATOR))
  {
  }

  lemma {:induction false} FourKeeps(p: Product)
    ensures Meaning(Four(p)) == Meaning(p)
  {
    hide Meaning, Round;
    RoundKeeps(p);
    RoundKeeps(Round(p));
    RoundKeeps(Round(Round(p)));
    RoundKeeps(Round(Round(Round(p))));
  }

  /** The rounds multiply modulo the generator. */
  lemma {:induction false} GivesProduct(u: bv16, v: bv16, w: bv16)
    requires Gives(u, v, w)
    ensures Value(w) == MulMod(Value(u), Value(v), GENERATOR)
  {
    hide Value, Xor, LongSum, Four, MulMod, BitLen;
    var p := Product(0, u, v);
    FourKeeps(p);
    FourKeeps(Four(p));
    FourKeeps(Four(Four(p)));
    FourKeeps(Four(Four(Four(p))));
    var q := Four(Four(Four(Four(p))));
    ZeroValue(0);
    XorStart(LongSum(Value(u), Value(v), 16, GENERATOR));
    NothingLeft(Value(w), Value(q.a), 16, GENERATOR);
    ValueBits(u);
    GeneratorDigits();
    LongSumIsMulMod(Value(u), Value(v), 16, GENERATOR);
  }

  // ----- powers of x

  /** The register v holds x^n modulo the generator. */
  predicate IsPower(n: nat, v: bv16) {
    Value(v) == Rem(Shl(1, n), GENERATOR)
  }

  lemma {:induction false} MulPowers(m: nat, n: nat)
    ensures Mul(Shl(1, m), Shl(1, n)) == Shl(1, m + n)
  {
    hide Mul, Shl;
    MulShl(Shl(1, m), 1, n);
    MulOne(Shl(1, m));
    ShlShl(1, m, n);
  }

  lemma {:induction false} PowerJoin(m: nat, u: bv16, n: nat, v: bv16, w: bv16)
    requires IsPower(m, u) && IsPower(n, v) && Gives(u, v, w)
    ensures IsPower(m + n, w)
  {
    hide Value, Rem, Shl, Mul, Gives;
    GivesProduct(u, v, w);
    MulPowers(m, n);
    var a, b := Shl(1, m), Shl(1, n);
    MulModRem(a, Rem(b, GENERATOR), GENERATOR);
    MulModComm(a, Rem(b, GENERATOR), GENERATOR);
    MulModRem(b, a, GENERATOR);
    MulModComm(b, a, GENERATOR);
  }

  lemma {:induction false} FirstPower()
    ensures IsPower(1, 2)
  {
    hide Rem, BitLen, Value;
    GeneratorDigits();
    TwoValue();
    TwoBits();
    RemReduced(2, GENERATOR);
  }

  lemma {:induction false} TwoValue()
    ensures Value(1) == 1 && Value(2) == 2
  {
    assert Value(1) == 1;
    ShiftClear(1);
  }

  lemma {:induction false} TwoBits()
    ensures BitLen(2) == 2 && BitLen(1) == 1 && Shl(1, 1) == 2 && Shl(1, 0) == 1
  {
  }

  // ----- squaring up to x^32768

  lemma {:induction false} Squares()
    ensures Gives(2, 2, 4) && Gives(4, 4, 0x10) && Gives(0x10, 0x10, 0x100) && Gives(0x100, 0x100, 0x1021)
  {
  }

  lemma {:induction false} MoreSquares()
    ensures Gives(0x1021, 0x1021, 0x3730) && Gives(0x3730, 0x3730, 0xb861) && Gives(0xb861, 0xb861, 0xaefc)
    ensures Gives(0xaefc, 0xaefc, 0x8e29)
  {
  }

  lemma {:induction false} HighSquares()
    ensures Gives(0x8e29, 0x8e29, 0x13fc) && Gives(0x13fc, 0x13fc, 0x36c4) && Gives(0x36c4, 0x36c4, 0xfd50)
    ensures Gives(0xfd50, 0xfd50, 0xaa9e)
  {
  }

  lemma {:induction false} LastSquares()
    ensures Gives(0xaa9e, 0xaa9e, 0x881c) && Gives(0x881c, 0x881c, 0x4458) && Gives(0x4458, 0x4458, 2)
  {
  }

  lemma {:induction false} LowPowers()
    ensures IsPower(8, 0x100) && IsPower(16, 0x1021) && IsPower(32, 0x3730) && IsPower(64, 0xb861)
    ensures IsPower(128, 0xaefc) && IsPower(256, 0x8e29)
  {
    hide *;
    Squares();
    MoreSquares();
    FirstPower();
    PowerJoin(1, 2, 1, 2, 4);
    PowerJoin(2, 4, 2, 4, 0x10);
    PowerJoin(4, 0x10, 4, 0x10, 0x100);
    PowerJoin(8, 0x100, 8, 0x100, 0x1021);
    PowerJoin(16, 0x1021, 16, 0x1021, 0x3730);
    PowerJoin(32, 0x3730, 32, 0x3730, 0xb861);
    PowerJoin(64, 0xb861, 64, 0xb861, 0xaefc);
    PowerJoin(128, 0xaefc, 128, 0xaefc, 0x8e29);
  }

  lemma {:induction false} HighPowers()
    ensures IsPower(512, 0x13fc) && IsPower(1024, 0x36c4) && IsPower(4096, 0xaa9e) && IsPower(32768, 2)
  {
    hide *;
    HighSquares();
    LastSquares();
    LowPowers();
    PowerJoin(256, 0x8e29, 256, 0x8e29, 0x13fc);
    PowerJoin(512, 0x13fc, 512, 0x13fc, 0x36c4);
    PowerJoin(1024, 0x36c4, 1024, 0x36c4, 0xfd50);
    PowerJoin(2048, 0xfd50, 2048, 0xfd50, 0xaa9e);
    PowerJoin(4096, 0xaa9e, 4096, 0xaa9e, 0x881c);
    PowerJoin(8192, 0x881c, 8192, 0x881c, 0x4458);
    PowerJoin(16384, 0x4458, 16384, 0x4458, 2);
  }

  lemma {:induction false} Products()
    ensures Gives(2, 0x100, 0x200) && Gives(0xaefc, 0xb861, 0x650b) && Gives(0x650b, 0x1021, 0x45b4)
    ensures Gives(0x45b4, 0x200, 0x48e3)
  {
  }

  lemma {:induction false} MoreProducts()
    ensures Gives(0x36c4, 0x3730, 0xf147) && Gives(0xf147, 2, 0xf2af)
    ensures Gives(0xaa9e, 0x13fc, 0x54a0) && Gives(0x54a0, 0xb861, 0x106) && Gives(0x106, 0x200, 0x2c42)
  {
  }

  /** x^217, x^1057 and x^4681, where 217 = 7 * 31, 1057 = 7 * 151 and 4681 = 31 * 151. */
  lemma {:induction false} FactorPowers()
    ensures IsPower(217, 0x48e3) && IsPower(1057, 0xf2af) && IsPower(4681, 0x2c42)
  {
    hide *;
    Products();
    MoreProducts();
    FirstPower();
    LowPowers();
    HighPowers();
    PowerJoin(1, 2, 8, 0x100, 0x200);
    PowerJoin(128, 0xaefc, 64, 0xb861, 0x650b);
    PowerJoin(192, 0x650b, 16, 0x1021, 0x45b4);
    PowerJoin(208, 0x45b4, 9, 0x200, 0x48e3);
    PowerJoin(1024, 0x36c4, 32, 0x3730, 0xf147);
    PowerJoin(1056, 0xf147, 1, 2, 0xf2af);
    PowerJoin(4096, 0xaa9e, 512, 0x13fc, 0x54a0);
    PowerJoin(4608, 0x54a0, 64, 0xb861, 0x106);
    PowerJoin(4672, 0x106, 9, 0x200, 0x2c42);
  }

  // ----- the order of x

  /** n is a period exactly if x^n leaves 1. */
  lemma {:induction false} PeriodIffOne(n: nat, v: bv16)
    requires IsPower(n, v)
    ensures Period(n, GENERATOR) <==> v == 1
  {
    hide Rem, BitLen, Value, Shl, Divides, Xor;
    GeneratorDigits();
    TwoValue();
    TwoBits();
    RemReduced(1, GENERATOR);
    RemCongruent(Shl(1, n), 1, GENERATOR);
    if Value(v) == Value(1) {
      SameValue(v, 1);
    }
  }

  lemma {:induction false} OrderIsPeriod()
    ensures Period(ORDER, GENERATOR)
  {
    hide Rem, BitLen, Value, Shl, Divides, Xor;
    HighPowers();
    FirstPower();
    RemCongruent(Shl(1, 32768), Shl(1, 1), GENERATOR);
    ShlXor(Shl(1, ORDER), 1, 1);
    ShlShl(1, ORDER, 1);
    ShiftCancels(Xor(Shl(1, ORDER), 1), 1, GENERATOR);
  }
  lemma {:induction false} Divisors(q: nat, r: nat)
    requires q * r == ORDER
    ensures q == 1 || q == 7 || q == 31 || q == 151 || q == 217 || q == 1057 || q == 4681 || q == ORDER
  {
  }

  /** A divisor of the order, other than itself, divides the order without one of its prime factors. */
  lemma {:induction false} ProperDivisor(q: nat, r: nat) returns (c: nat)
    requires q * r == ORDER && q > 1
    ensures c * r == 217 || c * r == 1057 || c * r == 4681
  {
    Divisors(q, r);
    c := if q % 7 == 0 then q / 7 else if q % 31 == 0 then q / 31 else q / 151;
  }

  lemma {:induction false} NotAPeriod(r: nat, c: nat)
    requires c * r == 217 || c * r == 1057 || c * r == 4681
    ensures !Period(r, GENERATOR)
  {
    hide Period, IsPower;
    FactorPowers();
    PeriodIffOne(217, 0x48e3);
    PeriodIffOne(1057, 0xf2af);
    PeriodIffOne(4681, 0x2c42);
    if Period(r, GENERATOR) {
      PeriodMultiple(c, r, GENERATOR);
    }
  }

  /** The powers of x modulo the generator repeat exactly after multiples of 32767. */
  lemma {:induction false} PeriodIff(d: nat)
    ensures Period(d, GENERATOR) <==> d % ORDER == 0
  {
    hide Period;
    OrderIsPeriod();
    if d % ORDER == 0 {
      PeriodMultiple(d / ORDER, ORDER, GENERATOR);
    } else if Period(d, GENERATOR) {
      var r, p, q := CommonPeriod(d, ORDER, GENERATOR);
      if q == 1 {
        MultipleLeaves(p, d);
      } else {
        NotOnlyZero(q, r);
        var c := ProperDivisor(q, r);
        NotAPeriod(r, c);
      }
    }
  }

  lemma {:induction false} MultipleLeaves(p: nat, d: nat)
    requires d == p * ORDER
    ensures d % ORDER == 0
  {
  }

  lemma {:induction false} NotOnlyZero(q: nat, r: nat)
    requires q * r == ORDER
    ensures q > 0
  {
  }

  // ----- flipped bits

  lemma {:induction false} TermsShl(a: nat, n: nat)
    ensures Terms(Shl(a, n)) == Terms(a)
  {
    hide Terms;
    if n > 0 {
      TermsShl(a, n - 1);
      TermsDouble(Shl(a, n - 1));
    }
  }

  /** The generator, x^5 (x^7 (x^4 + 1) + 1) + 1, has four terms. */
  lemma {:induction false} GeneratorTerms()
    ensures Terms(GENERATOR) == 4
  {
    hide Terms;
    TermsUnfold(1);
    TermsShl(1, 3);
    TermsUnfold(0x11);
    TermsShl(0x11, 6);
    TermsUnfold(0x881);
    TermsShl(0x881, 4);
    TermsUnfold(GENERATOR);
  }

  /** Messages of one length that differ in an odd number of bits, wherever these lie, have different
      checksums. */
  lemma {:induction false} OddChangesChecksum(s: seq<bv8>, t: seq<bv8>)
    requires |s| == |t| && Differences(Stream(s), Stream(t)) % 2 == 1
    ensures Register(0, s) != Register(0, t)
  {
    hide *;
    RegisterIsRemainder(s);
    RegisterIsRemainder(t);
    GeneratorDigits();
    IsGenerator();
    GeneratorTerms();
    OddDetected(Stream(s), Stream(t), 16, GENERATOR);
  }

  lemma {:induction false} NoShortPeriod(d: nat)
    requires 0 < d < ORDER
    ensures !Period(d, GENERATOR)
  {
    hide Period;
    PeriodIff(d);
  }

  /** Messages of up to 32767 bits that differ in two bits, wherever these lie, have different
      checksums. */
  lemma {:induction false} PairChangesChecksum(s: seq<bv8>, t: seq<bv8>)
    requires |s| == |t| && Differences(Stream(s), Stream(t)) == 2 && 8 * |s| <= ORDER
    ensures Register(0, s) != Register(0, t)
  {
    hide *;
    RegisterIsRemainder(s);
    RegisterIsRemainder(t);
    GeneratorDigits();
    IsGenerator();
    forall d: nat | 0 < d < ORDER
      ensures !Period(d, GENERATOR)
    {
      NoShortPeriod(d);
    }
    TwoDetected(Stream(s), Stream(t), 16, GENERATOR);
  }

  lemma {:induction false} OneByte(d: bv8)
    ensures Stream([d]) == Bits(d)
  {
    hide Bits;
    assert [d][..0] == [];
    assert Stream([]) + Bits(d) == Bits(d);
  }

  lemma {:induction false} ByteValues()
    ensures GfByte.Value(0) == 0 && GfByte.Value(1) == 1 && Word(0, 0) == 0 && Word(0x10, 0x21) == 0x1021
  {
  }

  /** The number of a message of three bytes. */
  lemma {:induction false} ThreeBytes(a: bv8, hi: bv8, lo: bv8)
    ensures Number(Stream([a, hi, lo])) == Xor(Shl(GfByte.Value(a), 16), Value(Word(hi, lo)))
  {
    hide *;
    assert [a, hi, lo] == [a] + [hi, lo];
    PairStream([a], hi, lo);
    PairBits(hi, lo);
    OneByte(a);
    NumberJoin(Bits(a), Bits(hi) + Bits(lo));
    BitsNumber(a);
    WordNumber(hi, lo);
  }

  lemma {:induction false} Extremes()
    ensures Number(Stream([0, 0, 0])) == 0 && Number(Stream([0x01, 0x10, 0x21])) == GENERATOR
  {
    hide *;
    ThreeBytes(0, 0, 0);
    ThreeBytes(0x01, 0x10, 0x21);
    ByteValues();
    ShlZero(16);
    ZeroValue(0);
    XorStart(0);
    LowValue();
    OneShifted(16);
    GeneratorDigits();
  }

  /** Four flipped bits can go unnoticed, as many as the generator has terms. */
  lemma {:induction false} FourCanGoUnnoticed()
    ensures var s, t := [0, 0, 0], [0x01, 0x10, 0x21];
            Differences(Stream(s), Stream(t)) == 4 && Register(0, s) == Register(0, t)
  {
    hide *;
    var s, t := [0, 0, 0], [0x01, 0x10, 0x21];
    Extremes();
    XorStart(GENERATOR);
    GeneratorTerms();
    DifferenceTerms(Stream(s), Stream(t));
    GeneratorDigits();
    IsGenerator();
    DividesSelf(GENERATOR, 1);
    SameCode(Stream(s), Stream(t), 16, GENERATOR);
    RegisterIsRemainder(s);
    RegisterIsRemainder(t);
    SameValue(Register(0, s), Register(0, t));
  }
}
