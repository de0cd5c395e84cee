/** Long multiplication in GF(2^n) with a polynomial m of degree n, on numbers: the loops of
    gfmul.c and of gf_mul in gf_inverse.py. */
module GfLong {
  import opened Powers
  import opened Gf2
  import GfByte

  /** a * x, with m subtracted when that sets digit n. */
  function TimesX(a: nat, n: nat, m: nat): nat {
    if Shr(2 * a, n) % 2 == 1 then Xor(2 * a, m) else 2 * a
  }

  /** What the rounds of the multiplication loop add up, for any arguments. */
  function LongSum(a: nat, b: nat, n: nat, m: nat): nat
    decreases b
  {
    if b == 0 then 0 else Xor(Low(a, b), LongSum(TimesX(a, n, m), b / 2, n, m))
  }

  lemma {:induction false} LongRound(sum: nat, a: nat, b: nat, n: nat, m: nat)
    ensures Xor(sum, LongSum(a, b, n, m))
         == Xor(if b % 2 == 1 then Xor(sum, a) else sum, LongSum(TimesX(a, n, m), b / 2, n, m))
  {
    hide TimesX;
    XorAssoc(sum, Low(a, b), LongSum(TimesX(a, n, m), b / 2, n, m));
  }

  /** m is the modulus of a field of n-digit elements, and a is one of them. */
  predicate InField(a: nat, n: nat, m: nat) {
    BitLen(a) <= n && BitLen(m) == n + 1
  }

  lemma {:induction false} CarryDigit(a: nat, n: nat)
    requires BitLen(a) <= n + 1
    ensures Shr(a, n) % 2 == 1 <==> BitLen(a) == n + 1
  {
    BitLenBound(a, n + 1);
    BitLenBound(a, n);
    assert Pow2(0) == 1 && Pow2(1) == 2;
    ShrBound(a, n, 1);
    SplitBits(a, n);
    if Shr(a, n) == 0 {
      ShlZero(n);
    } else {
      ShlSucc(0, n);
    }
  }

  /** In the field, TimesX is multiplication by x. */
  lemma {:induction false} TimesXReduces(a: nat, n: nat, m: nat)
    requires InField(a, n, m)
    ensures TimesX(a, n, m) == Rem(2 * a, m) && InField(TimesX(a, n, m), n, m)
  {
    CarryDigit(2 * a, n);
    if BitLen(2 * a) == n + 1 {
      XorBitLen(2 * a, m);
      assert Shl(m, 0) == m;
    }
  }

  /** a * b = (b mod x) * a + (a * x) * (b div x), modulo m */
  lemma {:induction false} RoundReduces(a: nat, b: nat, n: nat, m: nat)
    requires InField(a, n, m)
    ensures MulMod(a, b, m) == Xor(Low(a, b), MulMod(TimesX(a, n, m), b / 2, m))
  {
    hide TimesX, Mul;
    TimesXReduces(a, n, m);
    MulUnfold(a, b);
    MulDoubleLeft(a, b / 2);
    RemXor(Low(a, b), Mul(2 * a, b / 2), m);
    MulModRem(2 * a, b / 2, m);
  }

  /** The loop multiplies in the field: for an n-digit a and any b, its result is the product of
      the two polynomials modulo m. */
  lemma {:induction false} LongSumIsMulMod(a: nat, b: nat, n: nat, m: nat)
    requires InField(a, n, m)
    ensures LongSum(a, b, n, m) == MulMod(a, b, m)
    ensures BitLen(LongSum(a, b, n, m)) <= n
    decreases b
  {
    hide TimesX;
    if b == 0 {
      MulZero(a);
    } else {
      TimesXReduces(a, n, m);
      LongSumIsMulMod(TimesX(a, n, m), b / 2, n, m);
      RoundReduces(a, b, n, m);
      XorBitLenMax(Low(a, b), LongSum(TimesX(a, n, m), b / 2, n, m), n);
    }
  }

  // ----- arguments outside a field

  /** The polynomial of degree n that the loop works with: m, but with the digits from n on replaced by
      a single 1. */
  function Monic(m: nat, n: nat): nat {
    Pow2(n) + LowBits(m, n)
  }

  lemma {:induction false} LowBitsXor(a: nat, b: nat, n: nat)
    ensures LowBits(Xor(a, b), n) == Xor(LowBits(a, n), LowBits(b, n))
    decreases n
  {
    if n > 0 {
      XorUnfold(a, b);
      LowBitsXor(a / 2, b / 2, n - 1);
      XorByParts(a % 2, LowBits(a / 2, n - 1), b % 2, LowBits(b / 2, n - 1), LowBits(a, n), LowBits(b, n),
        LowBits(Xor(a, b), n));
    }
  }

  lemma {:induction false} LowDigit(a: nat, n: nat)
    ensures LowBits(a, n + 1) % 2 == a % 2 && LowBits(a, n + 1) / 2 == LowBits(a / 2, n)
  {
  }

  lemma {:induction false} LowBitsShorter(a: nat, n: nat)
    ensures LowBits(LowBits(a, n + 1), n) == LowBits(a, n)
    ensures Shr(LowBits(a, n + 1), n) % 2 == Shr(a, n) % 2
    decreases n
  {
    LowDigit(a, n);
    if n > 0 {
      LowBitsShorter(a / 2, n - 1);
    }
  }

  /** Doubling the low digits gives the same carry and the same low digits. */
  lemma {:induction false} LowBitsDouble(a: nat, n: nat)
    ensures LowBits(2 * LowBits(a, n), n) == LowBits(2 * a, n)
    ensures Shr(2 * LowBits(a, n), n) % 2 == Shr(2 * a, n) % 2
  {
    hide *;
    if n == 0 {
      NoBits(2 * LowBits(a, 0));
      NoBits(2 * a);
    } else {
      LowBitsShorter(a, n - 1);
      DoubleBits(a, n - 1);
      DoubleBits(LowBits(a, n), n - 1);
    }
  }

  lemma {:induction false} NoBits(a: nat)
    ensures LowBits(a, 0) == 0 && Shr(a, 0) == a
  {
  }

  lemma {:induction false} DoubleBits(a: nat, n: nat)
    ensures LowBits(2 * a, n + 1) == 2 * LowBits(a, n) && Shr(2 * a, n + 1) == Shr(a, n)
  {
    assert (2 * a) % 2 == 0 && (2 * a) / 2 == a;
  }

  lemma {:induction false} MonicIs(m: nat, n: nat)
    ensures BitLen(Monic(m, n)) == n + 1 && LowBits(Monic(m, n), n) == LowBits(m, n)
    ensures BitLen(m) == n + 1 ==> Monic(m, n) == m
  {
    hide LowBits, BitLen;
    var g := Monic(m, n);
    OneShifted(n);
    PowerNext(n);
    BitLenBound(g, n);
    BitLenBound(g, n + 1);
    ShrJoin(1, LowBits(m, n), n);
    if BitLen(m) == n + 1 {
      BitLenBound(m, n);
      BitLenBound(m, n + 1);
      PowerNext(0);
      ShrBound(m, n, 1);
      SplitBits(m, n);
      ShlZero(n);
      assert Shr(m, n) == 1;
    }
  }

  lemma {:induction false} OneShifted(n: nat)
    ensures Shl(1, n) == Pow2(n)
  {
    ShlZero(n);
    ShlSucc(0, n);
  }

  lemma {:induction false} PowerNext(n: nat)
    ensures Pow2(n + 1) == 2 * Pow2(n) && Pow2(0) == 1
  {
  }

  lemma {:induction false} LowInField(a: nat, n: nat, m: nat)
    ensures InField(LowBits(a, n), n, Monic(m, n))
  {
    hide LowBits, BitLen, Monic;
    MonicIs(m, n);
    BitLenBound(LowBits(a, n), n);
  }

  /** On the low n digits, the loop multiplies by x modulo Monic(m, n). */
  lemma {:induction false} LowTimesX(a: nat, n: nat, m: nat)
    ensures LowBits(TimesX(a, n, m), n) == TimesX(LowBits(a, n), n, Monic(m, n))
  {
    hide LowBits, BitLen, Monic, Shr, Xor;
    var a', g := LowBits(a, n), Monic(m, n);
    LowInField(a, n, m);
    MonicIs(m, n);
    TimesXReduces(a', n, g);
    BitLenBound(TimesX(a', n, g), n);
    LowBitsSmall(TimesX(a', n, g), n);
    LowBitsDouble(a, n);
    LowBitsXor(2 * a, m, n);
    LowBitsXor(2 * a', g, n);
  }

  /** For any arguments, the low n digits of the loop's result are the product of the low n digits of a
      with b modulo Monic(m, n). */
  lemma {:induction false} LowProduct(a: nat, b: nat, n: nat, m: nat)
    ensures LowBits(LongSum(a, b, n, m), n) == MulMod(LowBits(a, n), b, Monic(m, n))
  {
    hide LowBits, Monic, LongSum, MulMod;
    LowLongSum(a, b, n, m);
    LowInField(a, n, m);
    LongSumIsMulMod(LowBits(a, n), b, n, Monic(m, n));
  }

  lemma {:induction false} LowLongSum(a: nat, b: nat, n: nat, m: nat)
    ensures LowBits(LongSum(a, b, n, m), n) == LongSum(LowBits(a, n), b, n, Monic(m, n))
    decreases b
  {
    hide LowBits, Monic, TimesX, Xor;
    if b == 0 {
      LowBitsSmall(0, n);
    } else {
      LowTimesX(a, n, m);
      LowLongSum(TimesX(a, n, m), b / 2, n, m);
      LowBitsXor(Low(a, b), LongSum(TimesX(a, n, m), b / 2, n, m), n);
      LowBitsSmall(0, n);
    }
  }

  // ----- the loops

  const INT_END: nat := 0x8000_0000

  /** No shift of the loop leaves a 32-bit int. */
  predicate FitsInt(a: nat, b: nat, n: nat, m: nat)
    decreases b
  {
    b == 0 || (2 * a < INT_END && FitsInt(TimesX(a, n, m), b / 2, n, m))
  }

  /** In every field that leaves room for 2a in an int, nothing overflows. */
  lemma {:induction false} FieldFits(a: nat, b: nat, n: nat, m: nat)
    requires InField(a, n, m) && n <= 30
    ensures FitsInt(a, b, n, m)
    decreases b
  {
    hide TimesX, InField, BitLen;
    if b > 0 {
      ShiftFits(a, n, m);
      TimesXReduces(a, n, m);
      FieldFits(TimesX(a, n, m), b / 2, n, m);
    }
  }

  /** gfmul of gfmul.c, on any arguments for which C defines what the shifts do. */
  method GfMulC(a0: nat, b0: nat, n: nat, m: nat) returns (result: nat)
    requires n <= 30 && FitsInt(a0, b0, n, m)
    ensures result == LongSum(a0, b0, n, m)
    ensures LowBits(result, n) == MulMod(LowBits(a0, n), b0, Monic(m, n))
    ensures InField(a0, n, m) ==> result == MulMod(a0, b0, m) && BitLen(result) <= n
  {
    hide *;
    var a, b := a0, b0;
    result := 0;
    XorStart(LongSum(a, b, n, m));
    while b != 0
      invariant FitsInt(a, b, n, m)
      invariant Xor(result, LongSum(a, b, n, m)) == LongSum(a0, b0, n, m)
      decreases b
    {
      LongRound(result, a, b, n, m);
      FitsNext(a, b, n, m);
      if b % 2 == 1 {
        result := Xor(result, a);
      }
      a := TimesXInt(a, n, m);
      b := b / 2;
    }
    NothingLeft(result, a, n, m);
    LowProduct(a0, b0, n, m);
    MonicPositive(m, n);
    if InField(a0, n, m) {
      FieldPositive(a0, n, m);
      LongSumIsMulMod(a0, b0, n, m);
    }
  }

  lemma {:induction false} FitsNext(a: nat, b: nat, n: nat, m: nat)
    requires b > 0 && FitsInt(a, b, n, m)
    ensures 2 * a < INT_END && FitsInt(TimesX(a, n, m), b / 2, n, m)
  {
  }

  lemma {:induction false} MonicPositive(m: nat, n: nat)
    ensures Monic(m, n) > 0
  {
  }

  lemma {:induction false} FieldPositive(a: nat, n: nat, m: nat)
    requires InField(a, n, m)
    ensures m > 0
  {
  }

  /** The shift and the conditional subtraction, on values that fit a 32-bit int. */
  method TimesXInt(a: nat, n: nat, m: nat) returns (r: nat)
    requires 2 * a < INT_END
    ensures r == TimesX(a, n, m)
  {
    r := 2 * a;
    if Shr(r, n) % 2 == 1 {
      r := Xor(r, m);
    }
  }

  lemma {:induction false} ShiftFits(a: nat, n: nat, m: nat)
    requires InField(a, n, m) && n <= 30
    ensures 2 * a < INT_END
  {
    BitLenBound(a, 30);
    assert Pow2(30) == 0x4000_0000 by {
      PowAdd(15, 15);
      assert Pow2(15) == 0x8000;
    }
  }

  lemma {:induction false} XorStart(a: nat)
    ensures Xor(0, a) == a
  {
  }

  lemma {:induction false} NothingLeft(sum: nat, a: nat, n: nat, m: nat)
    ensures Xor(sum, LongSum(a, 0, n, m)) == sum
  {
  }

  /** gf_mul of gf_inverse.py, for any arguments: the loop is fixed to digit 8 and the result is cut
      to 8 digits. */
  function GfMul8(a: nat, b: nat, modulus: nat): nat {
    LowBits(LongSum(a, b, 8, modulus), 8)
  }

  method GfMulPython(a0: nat, b0: nat, modulus: nat) returns (r: nat)
    ensures r == MulMod(LowBits(a0, 8), b0, Monic(modulus, 8)) == GfMul8(a0, b0, modulus)
    ensures InField(a0, 8, modulus) ==> r == MulMod(a0, b0, modulus)
  {
    hide *;
    var a, b, result := a0, b0, 0;
    XorStart(LongSum(a, b, 8, modulus));
    while b != 0
      invariant Xor(result, LongSum(a, b, 8, modulus)) == LongSum(a0, b0, 8, modulus)
      decreases b
    {
      LongRound(result, a, b, 8, modulus);
      if b % 2 == 1 {
        result := Xor(result, a);
      }
      b := b / 2;
      a := TimesX(a, 8, modulus);
    }
    NothingLeft(result, a, 8, modulus);
    r := LowBits(result, 8);
    GfMul8Is(a0, b0, modulus);
    MonicPositive(modulus, 8);
    if InField(a0, 8, modulus) {
      FieldPositive(a0, 8, modulus);
    }
  }

  /** The cut makes gf_mul the product of the low 8 digits of a with b, modulo a polynomial of degree 8;
      in a field of 8 digits it loses nothing. */
  lemma {:induction false} GfMul8Is(a: nat, b: nat, modulus: nat)
    ensures GfMul8(a, b, modulus) == LowBits(LongSum(a, b, 8, modulus), 8)
    ensures GfMul8(a, b, modulus) == MulMod(LowBits(a, 8), b, Monic(modulus, 8))
    ensures InField(a, 8, modulus) ==> GfMul8(a, b, modulus) == MulMod(a, b, modulus)
  {
    hide LongSum, MulMod, Monic, LowBits, BitLen;
    LowProduct(a, b, 8, modulus);
    if InField(a, 8, modulus) {
      MonicIs(modulus, 8);
      BitLenBound(a, 8);
      LowBitsSmall(a, 8);
    }
  }

  /** The byte loop of aes.c, the loop of gfmul.c and the loop of gf_inverse.py compute the same
      product. */
  lemma {:induction false} MultipliersAgree(a: bv8, b: bv8)
    ensures var x, y, m := GfByte.Value(a), GfByte.Value(b), GfByte.POLYNOMIAL;
            GfByte.Value(GfByte.Times(a, b)) == LongSum(x, y, 8, m) == GfMul8(x, y, m) == MulMod(x, y, m)
  {
    hide *;
    GfByte.TimesIsMulMod(a, b);
    GfByte.ByteReduced(a);
    GfByte.PolynomialLength();
    FieldElement(GfByte.Value(a), 8, GfByte.POLYNOMIAL);
    LongSumIsMulMod(GfByte.Value(a), GfByte.Value(b), 8, GfByte.POLYNOMIAL);
    GfMul8Is(GfByte.Value(a), GfByte.Value(b), GfByte.POLYNOMIAL);
  }

  lemma {:induction false} FieldElement(a: nat, n: nat, m: nat)
    requires BitLen(a) <= n && BitLen(m) == n + 1
    ensures InField(a, n, m)
  {
  }

  /** Hence multiplication in any field of n digits is commutative, associative and distributes over
      addition. */
  lemma {:induction false} LongSumLaws(a: nat, b: nat, c: nat, n: nat, m: nat)
    requires InField(a, n, m) && InField(b, n, m) && InField(c, n, m)
    ensures LongSum(a, b, n, m) == LongSum(b, a, n, m)
    ensures LongSum(LongSum(a, b, n, m), c, n, m) == LongSum(a, LongSum(b, c, n, m), n, m)
    ensures LongSum(a, Xor(b, c), n, m) == Xor(LongSum(a, b, n, m), LongSum(a, c, n, m))
  {
    hide LongSum, MulMod;
    LongSumIsMulMod(a, b, n, m);
    LongSumIsMulMod(b, a, n, m);
    LongSumIsMulMod(a, c, n, m);
    LongSumIsMulMod(b, c, n, m);
    LongSumIsMulMod(LongSum(a, b, n, m), c, n, m);
    LongSumIsMulMod(a, LongSum(b, c, n, m), n, m);
    LongSumIsMulMod(a, Xor(b, c), n, m);
    MulModComm(a, b, m);
    MulModAssoc(a, b, c, m);
    MulModXor(a, b, c, m);
  }
}
