/** Bytes as elements of GF(2^8) with the polynomial x^8 + x^4 + x^3 + x + 1 (section 4 of FIPS 197):
    the byte loop of aes.c, and its meaning as a product of polynomials. A byte read as a number is
    its polynomial. */
module GfByte {
  import opened Powers
  import Gf2

  /** x^8 + x^4 + x^3 + x + 1 */
  const POLYNOMIAL: nat := 0x11b

  /** a * x, with k added for the bit shifted out. */
  function ShiftBit(a: bv8, k: bv8): bv8 {
    (a << 1) ^ (if a & 0x80 != 0 then k else 0)
  }

  /** a * x, reduced. */
  function XTime(a: bv8): bv8 {
    ShiftBit(a, 0x1b)
  }

  /** a if the low bit of b is set. */
  function Select(a: bv8, b: bv8): bv8 {
    if b & 1 != 0 then a else 0
  }

  /** The product in the field: what the rounds of the multiplication loop add up. */
  function Times(a: bv8, b: bv8): bv8
    decreases b
  {
    if b == 0 then 0 else Select(a, b) ^ Times(XTime(a), b >> 1)
  }

  lemma {:induction false} TimesRound(p: bv8, a: bv8, b: bv8)
    ensures p ^ Times(a, b) == (if b & 1 != 0 then p ^ a else p) ^ Times(XTime(a), b >> 1)
  {
    if b == 0 {
      assert b >> 1 == 0;
    } else {
      XorStep(p, a, b, Times(XTime(a), b >> 1));
    }
  }

  lemma {:induction false} XorStep(p: bv8, a: bv8, b: bv8, rest: bv8)
    ensures p ^ (Select(a, b) ^ rest) == (if b & 1 != 0 then p ^ a else p) ^ rest
  {
  }

  // ----- bytes as polynomials

  function Bit(c: bv8): nat {
    if c != 0 then 1 else 0
  }

  /** The polynomial of a byte. */
  function Value(x: bv8): nat
    decreases x
  {
    if x == 0 then 0 else Bit(x & 1) + 2 * Value(x >> 1)
  }

  lemma {:induction false} NumberHalves(x: bv8)
    ensures (x >> 1) as nat == x as nat / 2 && Bit(x & 1) == x as nat % 2
  {
  }

  lemma {:induction false} ValueIsNumber(x: bv8)
    ensures Value(x) == x as nat < 256
    decreases x
  {
    if x != 0 {
      NumberHalves(x);
      ValueIsNumber(x >> 1);
    }
  }

  lemma {:induction false} Halve(x: bv8)
    ensures Value(x >> 1) == Value(x) / 2 && (x & 1 != 0 <==> Value(x) % 2 == 1)
  {
    if x == 0 {
      assert x >> 1 == 0;
    }
  }

  lemma {:induction false} Split(x: bv8)
    ensures Value(x) == Bit(x & 1) + 2 * Value(x >> 1)
  {
    if x == 0 {
      assert x >> 1 == 0;
    }
  }

  lemma {:induction false} XorParts(x: bv8, y: bv8)
    ensures (x ^ y) >> 1 == (x >> 1) ^ (y >> 1)
    ensures Bit((x ^ y) & 1) == (Bit(x & 1) + Bit(y & 1)) % 2
  {
  }

  /** Addition of bytes is addition of polynomials. */
  lemma {:induction false} XorIsSum(x: bv8, y: bv8)
    ensures Value(x ^ y) == Gf2.Xor(Value(x), Value(y))
    decreases x
  {
    if x == 0 {
      assert x ^ y == y;
    } else {
      Shrinks(x);
      XorIsSum(x >> 1, y >> 1);
      SplitXor(x, y);
      Gf2.XorByParts(Bit(x & 1), Value(x >> 1), Bit(y & 1), Value(y >> 1), Value(x), Value(y), Value(x ^ y));
    }
  }

  lemma {:induction false} Shrinks(x: bv8)
    requires x != 0
    ensures x >> 1 < x
  {
  }

  lemma {:induction false} SplitXor(x: bv8, y: bv8)
    ensures Value(x) == Bit(x & 1) + 2 * Value(x >> 1)
    ensures Value(y) == Bit(y & 1) + 2 * Value(y >> 1)
    ensures Value(x ^ y) == (Bit(x & 1) + Bit(y & 1)) % 2 + 2 * Value((x >> 1) ^ (y >> 1))
  {
    Split(x);
    Split(y);
    Split(x ^ y);
    XorParts(x, y);
  }

  // ----- the multiplication loop

  lemma {:induction false} HalveBelow(b: bv8, n: nat)
    requires n > 0 && Value(b) < Pow2(n)
    ensures Value(b >> 1) < Pow2(n - 1)
  {
    Halve(b);
  }

  /** The multiplication loop: eight rounds, whatever b is. */
  method GfMul(a0: bv8, b0: bv8) returns (p: bv8)
    ensures p == Times(a0, b0)
  {
    var a, b := a0, b0;
    p := 0;
    ValueIsNumber(b);
    assert Pow2(8) == 256;
    var counter := 0;
    while counter < 8
      invariant 0 <= counter <= 8
      invariant Value(b) < Pow2(8 - counter)
      invariant p ^ Times(a, b) == Times(a0, b0)
    {
      TimesRound(p, a, b);
      HalveBelow(b, 8 - counter);
      if b & 1 != 0 {
        p := p ^ a;
      }
      a := XTime(a);
      b := b >> 1;
      counter := counter + 1;
    }
    ValueIsNumber(b);
    assert b == 0;
  }

  lemma {:induction false} PolynomialLength()
    ensures Gf2.BitLen(POLYNOMIAL) == 9
  {
    assert Pow2(8) == 256 && Pow2(9) == 512;
    Gf2.BitLenBound(POLYNOMIAL, 8);
    Gf2.BitLenBound(POLYNOMIAL, 9);
  }

  /** A byte is its own remainder. */
  lemma {:induction false} ByteReduced(x: bv8)
    ensures Gf2.BitLen(Value(x)) <= 8 && Gf2.Rem(Value(x), POLYNOMIAL) == Value(x)
  {
    assert Pow2(8) == 256;
    ValueIsNumber(x);
    Gf2.BitLenBound(Value(x), 8);
    PolynomialLength();
  }

  lemma {:induction false} ShiftLeft(x: bv8)
    ensures Value(x << 1) == 2 * Value(x) - if x & 0x80 != 0 then 256 else 0
  {
    ValueIsNumber(x);
    ValueIsNumber(x << 1);
    NumberShift(x);
  }

  lemma {:induction false} NumberShift(x: bv8)
    ensures (x << 1) as nat == 2 * (x as nat) - if x & 0x80 != 0 then 256 else 0
  {
  }

  lemma {:induction false} ShiftClear(a: bv8, k: bv8)
    requires a & 0x80 == 0
    ensures ShiftBit(a, k) == a << 1
  {
  }

  lemma {:induction false} ShiftSet(a: bv8, k: bv8)
    requires a & 0x80 != 0
    ensures ShiftBit(a, k) == (a << 1) ^ k
  {
  }

  lemma {:induction false} ByteLength(x: bv8)
    ensures Gf2.BitLen(Value(x)) <= 8 && Value(x) < 256
  {
    hide Value, Gf2.BitLen;
    assert Pow2(8) == 256;
    ValueIsNumber(x);
    Gf2.BitLenBound(Value(x), 8);
  }

  /** Shifting a register of 8 bits with feedback k is multiplication by x modulo x^8 + k. */
  lemma {:induction false} ShiftBitIsTimesX(a: bv8, k: bv8)
    ensures Value(ShiftBit(a, k)) == Gf2.Rem(2 * Value(a), 256 + Value(k))
    ensures Gf2.BitLen(256 + Value(k)) == 9
  {
    hide *;
    ShiftLeft(a);
    ByteLength(a << 1);
    ByteLength(k);
    CarryReduces(Value(a << 1), Value(k));
    if a & 0x80 == 0 {
      ShiftClear(a, k);
      ShortReduced(Value(a << 1), 256 + Value(k));
    } else {
      ShiftSet(a, k);
      XorIsSum(a << 1, k);
    }
  }

  lemma {:induction false} ShortReduced(a: nat, m: nat)
    requires Gf2.BitLen(a) < Gf2.BitLen(m)
    ensures m > 0 && Gf2.Rem(a, m) == a
  {
  }

  /** XTime is multiplication by x in the field. */
  lemma {:induction false} XTimeIsTimesX(a: bv8)
    ensures Value(XTime(a)) == Gf2.Rem(2 * Value(a), POLYNOMIAL)
  {
    hide Value, Gf2.Rem, Gf2.BitLen;
    ShiftBitIsTimesX(a, 0x1b);
    ValueIsNumber(0x1b);
  }

  /** 256 + low is congruent to low + k modulo 256 + k. */
  lemma {:induction false} CarryReduces(low: nat, k: nat)
    requires low < 256 && k < 256
    ensures Gf2.Rem(256 + low, 256 + k) == Gf2.Xor(low, k) && Gf2.BitLen(256 + k) == 9
  {
    hide Gf2.Xor, Gf2.Rem, Gf2.BitLen, Gf2.Divides;
    assert Pow2(8) == 256;
    Gf2.BitLenBound(low, 8);
    Gf2.BitLenBound(k, 8);
    Gf2.XorBitLenMax(low, k, 8);
    NineDigits(k);
    XorTop(low, 8);
    XorTop(k, 8);
    Gf2.XorAssoc(256, low, Gf2.Xor(low, k));
    Gf2.XorCancel(k, low);
    Gf2.DividesSelf(256 + k, 0);
    Gf2.RemUnique(256 + low, 256 + k, Gf2.Xor(low, k));
  }

  lemma {:induction false} NineDigits(k: nat)
    requires k < 256
    ensures Gf2.BitLen(256 + k) == 9
  {
    assert Pow2(8) == 256 && Pow2(9) == 512;
    Gf2.BitLenBound(256 + k, 8);
    Gf2.BitLenBound(256 + k, 9);
  }

  lemma {:induction false} XorTop(low: nat, n: nat)
    requires low < Pow2(n)
    ensures Gf2.Xor(Pow2(n), low) == Pow2(n) + low
  {
    if n > 0 {
      XorTop(low / 2, n - 1);
      TopStep(low, n);
    }
  }

  lemma {:induction false} TopStep(low: nat, n: nat)
    requires n > 0 && low < Pow2(n) && Gf2.Xor(Pow2(n - 1), low / 2) == Pow2(n - 1) + low / 2
    ensures Gf2.Xor(Pow2(n), low) == Pow2(n) + low
  {
    hide Gf2.Xor;
    Gf2.XorByParts(0, Pow2(n - 1), low % 2, low / 2, Pow2(n), low, Pow2(n) + low);
  }

  /** The byte loop of aes.c multiplies in the field: its result is the product of the two
      polynomials modulo x^8 + x^4 + x^3 + x + 1. */
  lemma {:induction false} TimesIsMulMod(a: bv8, b: bv8)
    ensures Value(Times(a, b)) == Gf2.MulMod(Value(a), Value(b), POLYNOMIAL)
    decreases b
  {
    if b == 0 {
      Gf2.MulZero(Value(a));
      PolynomialLength();
    } else {
      TimesIsMulMod(XTime(a), b >> 1);
      XorIsSum(Select(a, b), Times(XTime(a), b >> 1));
      RoundIsMulMod(a, b);
    }
  }

  /** a * b = (b mod x) * a + (a * x) * (b div x) */
  lemma {:induction false} RoundIsMulMod(a: bv8, b: bv8)
    ensures Gf2.MulMod(Value(a), Value(b), POLYNOMIAL)
         == Gf2.Xor(Value(Select(a, b)), Gf2.MulMod(Value(XTime(a)), Value(b >> 1), POLYNOMIAL))
  {
    var x, y := Value(a), Value(b >> 1);
    Halve(b);
    Gf2.MulUnfold(x, Value(b));
    Gf2.MulDoubleLeft(x, y);
    Gf2.RemXor(Gf2.Low(x, Value(b)), Gf2.Mul(2 * x, y), POLYNOMIAL);
    Gf2.MulModRem(2 * x, y, POLYNOMIAL);
    XTimeIsTimesX(a);
    ByteReduced(Select(a, b));
  }

  lemma {:induction false} SameNumber(a: bv8, b: bv8)
    requires Value(a) == Value(b)
    ensures a == b
  {
    ValueIsNumber(a);
    ValueIsNumber(b);
    SameByte(a, b);
  }

  lemma {:induction false} SameByte(a: bv8, b: bv8)
    requires a as nat == b as nat
    ensures a == b
  {
  }

  /** Hence the loop's product is commutative, associative and distributes over addition. */
  lemma {:induction false} TimesComm(a: bv8, b: bv8)
    ensures Times(a, b) == Times(b, a)
  {
    RingValues(a, b, 0);
    SameNumber(Times(a, b), Times(b, a));
  }

  lemma {:induction false} TimesAssoc(a: bv8, b: bv8, c: bv8)
    ensures Times(Times(a, b), c) == Times(a, Times(b, c))
  {
    RingValues(a, b, c);
    SameNumber(Times(Times(a, b), c), Times(a, Times(b, c)));
  }

  lemma {:induction false} TimesXor(a: bv8, b: bv8, c: bv8)
    ensures Times(a, b ^ c) == Times(a, b) ^ Times(a, c)
  {
    RingValues(a, b, c);
    SameNumber(Times(a, b ^ c), Times(a, b) ^ Times(a, c));
  }

  lemma {:induction false} RingValues(a: bv8, b: bv8, c: bv8)
    ensures Value(Times(a, b)) == Value(Times(b, a))
    ensures Value(Times(Times(a, b), c)) == Value(Times(a, Times(b, c)))
    ensures Value(Times(a, b ^ c)) == Value(Times(a, b) ^ Times(a, c))
  {
    TimesIsMulMod(a, b);
    TimesIsMulMod(b, a);
    TimesIsMulMod(b, c);
    TimesIsMulMod(a, c);
    TimesIsMulMod(Times(a, b), c);
    TimesIsMulMod(a, Times(b, c));
    TimesIsMulMod(a, b ^ c);
    XorIsSum(b, c);
    XorIsSum(Times(a, b), Times(a, c));
    Gf2.MulModComm(Value(a), Value(b), POLYNOMIAL);
    Gf2.MulModAssoc(Value(a), Value(b), Value(c), POLYNOMIAL);
    Gf2.MulModXor(Value(a), Value(b), Value(c), POLYNOMIAL);
  }
}
