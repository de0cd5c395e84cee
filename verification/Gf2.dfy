/** Polynomials over GF(2), written as natural numbers whose binary digits are the coefficients:
    the representation that the C and Python sources use. Addition is exclusive-or, and
    multiplication is the carry-less product. */
module Gf2 {
  import opened Powers

  /** Exclusive-or, digit by digit: addition and subtraction of polynomials. */
  function Xor(a: nat, b: nat): nat
    decreases a + b
  {
    if a == 0 then b
    else if b == 0 then a
    else (a % 2 + b % 2) % 2 + 2 * Xor(a / 2, b / 2)
  }

  /** Number of binary digits; a nonzero polynomial has degree BitLen(a) - 1. */
  function BitLen(a: nat): nat {
    if a == 0 then 0 else 1 + BitLen(a / 2)
  }

  /** The contribution of the low digit of b to a * b. */
  function Low(a: nat, b: nat): nat {
    if b % 2 == 1 then a else 0
  }

  /** The carry-less product. */
  function Mul(a: nat, b: nat): nat
    decreases b
  {
    if b == 0 then 0
    else Xor(Low(a, b), 2 * Mul(a, b / 2))
  }

  // ----- exclusive-or

  lemma {:induction false} XorUnfold(a: nat, b: nat)
    ensures Xor(a, b) % 2 == (a % 2 + b % 2) % 2
    ensures Xor(a, b) / 2 == Xor(a / 2, b / 2)
  {
    if a == 0 {
      assert Xor(a / 2, b / 2) == b / 2;
    } else if b == 0 {
      assert Xor(a / 2, b / 2) == a / 2;
    }
  }

  lemma {:induction false} XorByParts(i: nat, a: nat, j: nat, b: nat, u: nat, v: nat, w: nat)
    requires i < 2 && j < 2 && u == i + 2 * a && v == j + 2 * b && w == (i + j) % 2 + 2 * Xor(a, b)
    ensures w == Xor(u, v)
  {
    XorUnfold(u, v);
    assert u / 2 == a && v / 2 == b;
  }

  lemma XorComm(a: nat, b: nat)
    ensures Xor(a, b) == Xor(b, a)
    decreases a + b
  {
  }

  lemma {:induction false} DigitParity(a: nat, b: nat, c: nat)
    ensures ((a % 2 + b % 2) % 2 + c % 2) % 2 == (a % 2 + (b % 2 + c % 2) % 2) % 2
  {
  }

  /** Numbers are equal when their low digits and the rest are. */
  lemma SameDigits(a: nat, b: nat)
    requires a % 2 == b % 2 && a / 2 == b / 2
    ensures a == b
  {
  }

  lemma {:induction false} XorAssoc(a: nat, b: nat, c: nat)
    ensures Xor(Xor(a, b), c) == Xor(a, Xor(b, c))
    decreases a + b + c
  {
    if a == 0 || b == 0 || c == 0 {
    } else {
      var l, r := Xor(Xor(a, b), c), Xor(a, Xor(b, c));
      assert l % 2 == r % 2 by {
        XorUnfold(a, b);
        XorUnfold(b, c);
        XorUnfold(Xor(a, b), c);
        XorUnfold(a, Xor(b, c));
        DigitParity(a, b, c);
      }
      assert l / 2 == r / 2 by {
        XorUnfold(a, b);
        XorUnfold(b, c);
        XorUnfold(Xor(a, b), c);
        XorUnfold(a, Xor(b, c));
        XorAssoc(a / 2, b / 2, c / 2);
      }
      SameDigits(l, r);
    }
  }

  lemma {:induction false} XorSelf(a: nat)
    ensures Xor(a, a) == 0
  {
    if a != 0 {
      XorSelf(a / 2);
    }
  }

  lemma XorCancel(a: nat, b: nat)
    ensures Xor(Xor(a, b), b) == a && Xor(b, Xor(b, a)) == a
  {
    XorAssoc(a, b, b);
    XorAssoc(b, b, a);
    XorSelf(b);
  }

  lemma XorZero(a: nat, b: nat)
    ensures Xor(a, b) == 0 <==> a == b
  {
    XorSelf(b);
    if Xor(a, b) == 0 {
      XorCancel(a, b);
    }
  }

  /** (a + b) + (c + d) = (a + c) + (b + d) */
  lemma XorSwap(a: nat, b: nat, c: nat, d: nat)
    ensures Xor(Xor(a, b), Xor(c, d)) == Xor(Xor(a, c), Xor(b, d))
  {
    XorAssoc(a, b, Xor(c, d));
    XorAssoc(b, c, d);
    XorComm(b, c);
    XorAssoc(c, b, d);
    XorAssoc(a, c, Xor(b, d));
  }

  lemma XorDouble(a: nat, b: nat)
    ensures Xor(2 * a, 2 * b) == 2 * Xor(a, b)
  {
  }

  // ----- lengths

  lemma {:induction false} XorBitLen(a: nat, b: nat)
    ensures BitLen(a) < BitLen(b) ==> BitLen(Xor(a, b)) == BitLen(b)
    ensures BitLen(a) > BitLen(b) ==> BitLen(Xor(a, b)) == BitLen(a)
    ensures BitLen(a) == BitLen(b) > 0 ==> BitLen(Xor(a, b)) < BitLen(a)
    decreases a + b
  {
    if a != 0 && b != 0 {
      XorUnfold(a, b);
      XorBitLen(a / 2, b / 2);
    }
  }

  lemma XorBitLenMax(a: nat, b: nat, n: nat)
    requires BitLen(a) <= n && BitLen(b) <= n
    ensures BitLen(Xor(a, b)) <= n
  {
    XorBitLen(a, b);
  }

  lemma {:induction false} ShlBitLen(a: nat, n: nat)
    requires a > 0
    ensures Shl(a, n) > 0 && BitLen(Shl(a, n)) == BitLen(a) + n
  {
    if n > 0 {
      ShlBitLen(a, n - 1);
    }
  }

  lemma {:induction false} BitLenBound(a: nat, n: nat)
    ensures BitLen(a) <= n <==> a < Pow2(n)
  {
    if n > 0 && a > 0 {
      BitLenBound(a / 2, n - 1);
    }
  }

  // ----- the product

  lemma {:induction false} MulZero(b: nat)
    ensures Mul(0, b) == 0 && Mul(b, 0) == 0
  {
    if b != 0 {
      MulZero(b / 2);
    }
  }

  lemma MulOne(a: nat)
    ensures Mul(a, 1) == a && Mul(1, a) == a
  {
    MulComm(a, 1);
    assert Mul(a, 0) == 0;
  }

  lemma {:induction false} MulDoubleLeft(a: nat, b: nat)
    ensures Mul(2 * a, b) == 2 * Mul(a, b)
    decreases b
  {
    if b != 0 {
      MulDoubleLeft(a, b / 2);
      XorDouble(if b % 2 == 1 then a else 0, 2 * Mul(a, b / 2));
    }
  }

  lemma {:induction false} MulXorLeft(a: nat, b: nat, c: nat)
    ensures Mul(Xor(a, b), c) == Xor(Mul(a, c), Mul(b, c))
    decreases c
  {
    if c == 0 {
    } else {
      MulXorLeft(a, b, c / 2);
      XorDouble(Mul(a, c / 2), Mul(b, c / 2));
      var k := c % 2 == 1;
      XorSwap(if k then a else 0, 2 * Mul(a, c / 2), if k then b else 0, 2 * Mul(b, c / 2));
    }
  }

  lemma {:induction false} MulUnfold(a: nat, b: nat)
    ensures Mul(a, b) == Xor(Low(a, b), 2 * Mul(a, b / 2))
  {
  }

  lemma {:induction false} LowXor(a: nat, b: nat, c: nat)
    ensures Low(a, Xor(b, c)) == Xor(Low(a, b), Low(a, c))
  {
    XorUnfold(b, c);
    XorSelf(a);
  }

  lemma {:induction false} MulXorRight(a: nat, b: nat, c: nat)
    ensures Mul(a, Xor(b, c)) == Xor(Mul(a, b), Mul(a, c))
    decreases b + c
  {
    if b == 0 || c == 0 {
    } else {
      var x, y := 2 * Mul(a, b / 2), 2 * Mul(a, c / 2);
      assert 2 * Mul(a, Xor(b, c) / 2) == Xor(x, y) by {
        XorUnfold(b, c);
        MulXorRight(a, b / 2, c / 2);
        XorDouble(Mul(a, b / 2), Mul(a, c / 2));
      }
      MulUnfold(a, b);
      MulUnfold(a, c);
      MulUnfold(a, Xor(b, c));
      LowXor(a, b, c);
      XorSwap(Low(a, b), x, Low(a, c), y);
    }
  }

  /** a = (a mod x) + x * (a div x) */
  lemma SplitLow(a: nat)
    ensures a == Xor(a % 2, 2 * (a / 2))
  {
    XorUnfold(a % 2, 2 * (a / 2));
  }

  lemma {:induction false} MulComm(a: nat, b: nat)
    ensures Mul(a, b) == Mul(b, a)
    decreases a + b
  {
    if a == 0 || b == 0 {
      MulZero(a);
      MulZero(b);
    } else {
      // b * a = (b mod x) * a + x * (b div x) * a
      SplitLow(b);
      MulXorLeft(b % 2, 2 * (b / 2), a);
      MulDoubleLeft(b / 2, a);
      MulComm(b / 2, a);
      MulZero(a);
      if b % 2 == 1 {
        MulOneLeft(a);
      }
    }
  }

  lemma {:induction false} MulOneLeft(a: nat)
    ensures Mul(1, a) == a
  {
    if a != 0 {
      MulOneLeft(a / 2);
      SplitLow(a);
    }
  }

  lemma {:induction false} MulAssoc(a: nat, b: nat, c: nat)
    ensures Mul(Mul(a, b), c) == Mul(a, Mul(b, c))
    decreases c
  {
    if c != 0 {
      MulAssoc(a, b, c / 2);
      var low := if c % 2 == 1 then b else 0;
      MulXorRight(a, low, 2 * Mul(b, c / 2));
      MulDoubleRight(a, Mul(b, c / 2));
    }
  }

  lemma MulDoubleRight(a: nat, b: nat)
    ensures Mul(a, 2 * b) == 2 * Mul(a, b)
  {
  }

  lemma {:induction false} MulShl(a: nat, b: nat, n: nat)
    ensures Mul(a, Shl(b, n)) == Shl(Mul(a, b), n)
  {
    if n > 0 {
      MulShl(a, b, n - 1);
      MulDoubleRight(a, Shl(b, n - 1));
    }
  }

  /** Degrees add, so there are no zero divisors. */
  lemma {:induction false} MulBitLen(a: nat, b: nat)
    requires a > 0 && b > 0
    ensures Mul(a, b) > 0 && BitLen(Mul(a, b)) == BitLen(a) + BitLen(b) - 1
    decreases b
  {
    if b == 1 {
      MulOne(a);
    } else {
      MulBitLen(a, b / 2);
      var high := 2 * Mul(a, b / 2);
      assert BitLen(high) == 1 + BitLen(Mul(a, b / 2)) > BitLen(a);
      XorBitLen(Low(a, b), high);
    }
  }

  lemma MulCancel(a: nat, b: nat, m: nat)
    requires m > 0 && Mul(a, m) == Mul(b, m)
    ensures a == b
  {
    MulXorLeft(a, b, m);
    XorZero(Mul(a, m), Mul(b, m));
    XorZero(a, b);
    if Xor(a, b) > 0 {
      MulBitLen(Xor(a, b), m);
    }
  }

  // ----- divisibility and remainders

  ghost predicate Divides(d: nat, a: nat) {
    exists q: nat :: Mul(q, d) == a
  }

  /** r is the remainder of a by m. */
  ghost predicate IsRem(a: nat, m: nat, r: nat) {
    BitLen(r) < BitLen(m) && Divides(m, Xor(a, r))
  }

  /** The remainder by long division. */
  function Rem(a: nat, m: nat): nat
    requires m > 0
    decreases BitLen(a)
  {
    if BitLen(a) < BitLen(m) then a
    else
      ShlBitLen(m, BitLen(a) - BitLen(m));
      XorBitLen(a, Shl(m, BitLen(a) - BitLen(m)));
      Rem(Xor(a, Shl(m, BitLen(a) - BitLen(m))), m)
  }

  lemma DividesXor(d: nat, a: nat, b: nat)
    requires Divides(d, a) && Divides(d, b)
    ensures Divides(d, Xor(a, b))
  {
    var q: nat :| Mul(q, d) == a;
    var p: nat :| Mul(p, d) == b;
    MulXorLeft(q, p, d);
    assert Mul(Xor(q, p), d) == Xor(a, b);
  }

  lemma DividesMul(d: nat, a: nat, k: nat)
    requires Divides(d, a)
    ensures Divides(d, Mul(k, a)) && Divides(d, Mul(a, k))
  {
    var q: nat :| Mul(q, d) == a;
    MulAssoc(k, q, d);
    assert Mul(Mul(k, q), d) == Mul(k, a);
    MulComm(a, k);
  }

  lemma DividesSelf(d: nat, k: nat)
    ensures Divides(d, Mul(k, d)) && Divides(d, Mul(d, k)) && Divides(d, d) && Divides(d, 0)
  {
    MulComm(k, d);
    assert Mul(k, d) == Mul(k, d);
    MulOne(d);
    assert Mul(1, d) == d;
    MulZero(d);
    assert Mul(0, d) == 0;
  }

  lemma DividesShort(m: nat, a: nat)
    requires Divides(m, a) && BitLen(a) < BitLen(m)
    ensures a == 0
  {
    var q: nat :| Mul(q, m) == a;
    if q > 0 {
      MulBitLen(q, m);
    } else {
      MulZero(m);
    }
  }

  lemma {:induction false} RemIsRem(a: nat, m: nat)
    requires m > 0
    ensures IsRem(a, m, Rem(a, m))
    decreases BitLen(a)
  {
    if BitLen(a) < BitLen(m) {
      XorSelf(a);
      DividesSelf(m, 0);
    } else {
      var n := BitLen(a) - BitLen(m);
      ShlBitLen(m, n);
      XorBitLen(a, Shl(m, n));
      var a' := Xor(a, Shl(m, n));
      RemIsRem(a', m);
      var r := Rem(a', m);
      ShlIsMul(m, n);
      DividesXor(m, Xor(a', r), Shl(m, n));
      // (a + s + r) + s = a + r
      XorComm(a, Shl(m, n));
      XorAssoc(Shl(m, n), a, r);
      XorComm(Shl(m, n), Xor(a, r));
      XorCancel(Xor(a, r), Shl(m, n));
    }
  }

  lemma ShlIsMul(m: nat, n: nat)
    ensures Divides(m, Shl(m, n))
  {
    MulShl(m, 1, n);
    MulOne(m);
    DividesSelf(m, Shl(1, n));
  }

  /** The remainder is the only short polynomial congruent to a. */
  lemma RemUnique(a: nat, m: nat, r: nat)
    requires m > 0 && IsRem(a, m, r)
    ensures Rem(a, m) == r
  {
    RemIsRem(a, m);
    var s := Rem(a, m);
    DividesXor(m, Xor(a, r), Xor(a, s));
    XorSwap(a, r, a, s);
    XorSelf(a);
    XorBitLen(r, s);
    DividesShort(m, Xor(r, s));
    XorZero(r, s);
  }

  lemma RemDivides(a: nat, m: nat)
    requires m > 0
    ensures Rem(a, m) == 0 <==> Divides(m, a)
  {
    RemIsRem(a, m);
    if Divides(m, a) {
      RemUnique(a, m, 0);
    }
  }

  /** Congruent polynomials have the same remainder, and conversely. */
  lemma RemCongruent(a: nat, b: nat, m: nat)
    requires m > 0
    ensures Rem(a, m) == Rem(b, m) <==> Divides(m, Xor(a, b))
  {
    RemIsRem(a, m);
    RemIsRem(b, m);
    var r, s := Rem(a, m), Rem(b, m);
    XorSwap(a, r, b, s);
    if Divides(m, Xor(a, b)) {
      DividesXor(m, Xor(b, s), Xor(a, b));
      XorComm(b, s);
      XorSwap(s, b, a, b);
      XorComm(s, a);
      XorSelf(b);
      RemUnique(a, m, s);
    }
    if r == s {
      DividesXor(m, Xor(a, r), Xor(b, s));
      XorSelf(r);
    }
  }

  lemma RemXor(a: nat, b: nat, m: nat)
    requires m > 0
    ensures Rem(Xor(a, b), m) == Xor(Rem(a, m), Rem(b, m))
  {
    RemIsRem(a, m);
    RemIsRem(b, m);
    var r, s := Rem(a, m), Rem(b, m);
    DividesXor(m, Xor(a, r), Xor(b, s));
    XorSwap(a, r, b, s);
    XorBitLen(r, s);
    RemUnique(Xor(a, b), m, Xor(r, s));
  }

  // ----- the ring of remainders modulo m

  /** The product modulo m. */
  function MulMod(a: nat, b: nat, m: nat): nat
    requires m > 0
  {
    Rem(Mul(a, b), m)
  }

  lemma MulModRem(a: nat, b: nat, m: nat)
    requires m > 0
    ensures MulMod(Rem(a, m), b, m) == MulMod(a, b, m)
  {
    RemIsRem(a, m);
    DividesMul(m, Xor(a, Rem(a, m)), b);
    MulXorLeft(a, Rem(a, m), b);
    RemCongruent(Mul(a, b), Mul(Rem(a, m), b), m);
  }

  lemma MulModComm(a: nat, b: nat, m: nat)
    requires m > 0
    ensures MulMod(a, b, m) == MulMod(b, a, m)
  {
    MulComm(a, b);
  }

  lemma MulModAssoc(a: nat, b: nat, c: nat, m: nat)
    requires m > 0
    ensures MulMod(MulMod(a, b, m), c, m) == MulMod(a, MulMod(b, c, m), m)
  {
    MulModRem(Mul(a, b), c, m);
    MulAssoc(a, b, c);
    MulModRem(Mul(b, c), a, m);
    MulComm(Mul(b, c), a);
    MulComm(MulMod(b, c, m), a);
  }

  lemma MulModXor(a: nat, b: nat, c: nat, m: nat)
    requires m > 0
    ensures MulMod(a, Xor(b, c), m) == Xor(MulMod(a, b, m), MulMod(a, c, m))
  {
    MulXorRight(a, b, c);
    RemXor(Mul(a, b), Mul(a, c), m);
  }
}
