/** The extended Euclidean algorithm of gf_inverse.py over GF(2)[x]. */
module Euclid {
  import opened Powers
  import opened Gf2
  import opened GfLong
  import GfByte
  import AesTables

  datatype Result<T> = Ok(value: T) | Err(error: Error)

  /** The exceptions: ZeroDivisionError, and ValueError for 0 and for a common factor. */
  datatype Error = DivisionByZero | ZeroHasNoInverse | CommonFactor

  // ----- polynomial multiplication and division

  lemma {:induction false} MulRound(sum: nat, a: nat, b: nat)
    ensures Xor(sum, Mul(a, b)) == Xor(if b % 2 == 1 then Xor(sum, a) else sum, Mul(2 * a, b / 2))
  {
    hide Mul;
    MulUnfold(a, b);
    MulDoubleLeft(a, b / 2);
    XorAssoc(sum, Low(a, b), Mul(2 * a, b / 2));
  }

  method GfMulPoly(a0: nat, b0: nat) returns (result: nat)
    ensures result == Mul(a0, b0)
  {
    hide *;
    var a, b := a0, b0;
    result := 0;
    XorStart(Mul(a, b));
    while b != 0
      invariant Xor(result, Mul(a, b)) == Mul(a0, b0)
      decreases b
    {
      MulRound(result, a, b);
      if b % 2 == 1 {
        result := Xor(result, a);
      }
      a := 2 * a;
      b := b / 2;
    }
    NothingMore(result, a);
  }

  lemma {:induction false} NothingMore(sum: nat, a: nat)
    ensures Xor(sum, Mul(a, 0)) == sum
  {
  }

  /** q and r are the quotient and the remainder of a by b. */
  ghost predicate IsDivMod(a: nat, b: nat, q: nat, r: nat) {
    a == Xor(Mul(q, b), r) && BitLen(r) < BitLen(b)
  }

  /** Quotient and remainder are unique. */
  lemma {:induction false} DivModUnique(a: nat, b: nat, q: nat, r: nat, q': nat, r': nat)
    requires IsDivMod(a, b, q, r) && IsDivMod(a, b, q', r')
    ensures q == q' && r == r' == Rem(a, b)
  {
    hide Mul, Rem, Xor, BitLen;
    DivModIsRem(a, b, q, r);
    DivModIsRem(a, b, q', r');
    XorCancel(Mul(q, b), r);
    XorCancel(Mul(q', b), r);
    MulCancel(q, q', b);
  }

  lemma {:induction false} DivModIsRem(a: nat, b: nat, q: nat, r: nat)
    requires IsDivMod(a, b, q, r)
    ensures b > 0 && r == Rem(a, b)
  {
    hide Mul, Xor;
    XorCancel(Mul(q, b), r);
    DividesSelf(b, q);
    RemUnique(a, b, r);
  }

  /** Subtracting b * x^shift keeps q * b + a. */
  lemma {:induction false} DivRound(q: nat, a: nat, b: nat, shift: nat)
    ensures Xor(Mul(q, b), a) == Xor(Mul(Xor(q, Shl(1, shift)), b), Xor(a, Shl(b, shift)))
  {
    hide Mul, Xor, Shl;
    var s := Shl(1, shift);
    MulXorLeft(q, s, b);
    MulComm(s, b);
    MulShl(b, 1, shift);
    MulOne(b);
    XorComm(a, Shl(b, shift));
    XorAssoc(Mul(q, b), Shl(b, shift), Xor(Shl(b, shift), a));
    XorCancel(a, Shl(b, shift));
  }

  lemma {:induction false} DivShrinks(a: nat, b: nat, shift: nat)
    requires b > 0 && BitLen(a) == BitLen(b) + shift
    ensures BitLen(Xor(a, Shl(b, shift))) < BitLen(a)
  {
    hide Xor, Shl;
    ShlBitLen(b, shift);
    XorBitLen(a, Shl(b, shift));
  }

  lemma {:induction false} NonZero(a: nat)
    ensures a == 0 <==> BitLen(a) == 0
  {
  }

  method GfDivMod(a0: nat, b: nat) returns (r: Result<(nat, nat)>)
    ensures r.Err? <==> b == 0
    ensures r.Err? ==> r.error == DivisionByZero
    ensures r.Ok? ==> IsDivMod(a0, b, r.value.0, r.value.1)
  {
    hide *;
    if b == 0 {
      return Err(DivisionByZero);
    }
    var a, quotient := a0, 0;
    DivModStart(a0, b);
    NonZero(b);
    var degA, degB := BitLen(a) - 1, BitLen(b) - 1;
    while degA >= degB
      invariant degA == BitLen(a) - 1
      invariant a0 == Xor(Mul(quotient, b), a)
      decreases degA
    {
      var shift: nat := degA - degB;
      DivRound(quotient, a, b, shift);
      DivShrinks(a, b, shift);
      quotient := Xor(quotient, Shl(1, shift));
      a := Xor(a, Shl(b, shift));
      degA := BitLen(a) - 1;
    }
    DivModEnd(a0, b, quotient, a);
    r := Ok((quotient, a));
  }

  lemma {:induction false} DivModStart(a: nat, b: nat)
    ensures a == Xor(Mul(0, b), a)
  {
    MulZero(b);
  }

  lemma {:induction false} DivModEnd(a: nat, b: nat, q: nat, r: nat)
    requires a == Xor(Mul(q, b), r) && BitLen(r) < BitLen(b)
    ensures IsDivMod(a, b, q, r)
  {
  }

  // ----- the extended algorithm

  /** The loop's state; t0 and t1, the cofactors of the modulus, are not computed by the source. */
  datatype Loop = Loop(r0: nat, r1: nat, s0: nat, s1: nat, t0: nat, t1: nat)

  /** s * a + t * m */
  function Combine(s: nat, a: nat, t: nat, m: nat): nat {
    Xor(Mul(s, a), Mul(t, m))
  }

  /** The remainders are combinations of a and m with the cofactors, and the other way around. */
  ghost predicate Bezout(l: Loop, a: nat, m: nat) {
    && l.r0 == Combine(l.s0, a, l.t0, m)
    && l.r1 == Combine(l.s1, a, l.t1, m)
    && a == Combine(l.t1, l.r0, l.t0, l.r1)
    && m == Combine(l.s1, l.r0, l.s0, l.r1)
  }

  /** The degrees of s1 and r0 add up to that of the modulus, and s0 is shorter than s1 unless both
      are 1. */
  ghost predicate Degrees(l: Loop, m: nat) {
    && BitLen(l.r1) < BitLen(l.r0)
    && (BitLen(l.s0) < BitLen(l.s1) || BitLen(l.s0) == BitLen(l.s1) == 1)
    && BitLen(l.s1) + BitLen(l.r0) == BitLen(m) + 1
  }

  /** Where the loop can be: before the first turn, after a turn that only swapped a longer a with the
      modulus, or where the degrees add up. */
  ghost predicate Started(l: Loop, a: nat, m: nat) {
    || (l.r0 == m && l.r1 == a && l.s0 == 0 && l.s1 == 1)
    || (l.r0 == a && l.r1 == m && l.s0 == 1 && l.s1 == 0 && BitLen(m) < BitLen(a))
    || Degrees(l, m)
  }

  function First(a: nat, m: nat): Loop {
    Loop(m, a, 0, 1, 1, 0)
  }

  function Next(l: Loop, q: nat): Loop {
    Loop(l.r1, Xor(l.r0, Mul(q, l.r1)), l.s1, Xor(l.s0, Mul(q, l.s1)), l.t1, Xor(l.t0, Mul(q, l.t1)))
  }

  lemma {:induction false} FirstBezout(a: nat, m: nat)
    ensures Bezout(First(a, m), a, m)
  {
    hide Mul;
    MulZero(a);
    MulZero(m);
    MulOne(a);
    MulOne(m);
  }

  /** (s0 + q s1) a + (t0 + q t1) m = (s0 a + t0 m) + q (s1 a + t1 m) */
  lemma {:induction false} CombineStep(s0: nat, s1: nat, t0: nat, t1: nat, q: nat, a: nat, m: nat)
    ensures Combine(Xor(s0, Mul(q, s1)), a, Xor(t0, Mul(q, t1)), m)
         == Xor(Combine(s0, a, t0, m), Mul(q, Combine(s1, a, t1, m)))
  {
    hide Mul, Xor;
    MulXorLeft(s0, Mul(q, s1), a);
    MulXorLeft(t0, Mul(q, t1), m);
    MulAssoc(q, s1, a);
    MulAssoc(q, t1, m);
    XorSwap(Mul(s0, a), Mul(q, Mul(s1, a)), Mul(t0, m), Mul(q, Mul(t1, m)));
    MulXorRight(q, Mul(s1, a), Mul(t1, m));
  }

  /** (t0 + q t1) r1 + t1 (r0 + q r1) = t1 r0 + t0 r1 */
  lemma {:induction false} CombineBack(t0: nat, t1: nat, q: nat, r0: nat, r1: nat)
    ensures Combine(Xor(t0, Mul(q, t1)), r1, t1, Xor(r0, Mul(q, r1))) == Combine(t1, r0, t0, r1)
  {
    hide Mul, Xor;
    MulXorLeft(t0, Mul(q, t1), r1);
    MulXorRight(t1, r0, Mul(q, r1));
    MulAssoc(q, t1, r1);
    MulAssoc(t1, q, r1);
    MulComm(q, t1);
    var u := Mul(Mul(q, t1), r1);
    XorComm(Mul(t0, r1), u);
    XorComm(Mul(t1, r0), u);
    XorSwap(u, Mul(t0, r1), u, Mul(t1, r0));
    XorSelf(u);
    XorStart(Xor(Mul(t0, r1), Mul(t1, r0)));
    XorComm(Mul(t0, r1), Mul(t1, r0));
  }

  lemma {:induction false} NextBezout(l: Loop, q: nat, a: nat, m: nat)
    requires Bezout(l, a, m)
    ensures Bezout(Next(l, q), a, m)
  {
    hide Combine, Mul, Xor;
    CombineStep(l.s0, l.s1, l.t0, l.t1, q, a, m);
    CombineBack(l.t0, l.t1, q, l.r0, l.r1);
    CombineBack(l.s0, l.s1, q, l.r0, l.r1);
  }

  /** The step replaces r0 by its remainder. */
  lemma {:induction false} NextRemainder(l: Loop, q: nat, r: nat)
    requires IsDivMod(l.r0, l.r1, q, r)
    ensures Next(l, q).r1 == r
  {
    hide Mul, Xor;
    XorComm(Mul(q, l.r1), r);
    XorCancel(r, Mul(q, l.r1));
  }

  /** The quotient's degree is the difference of the degrees. */
  lemma {:induction false} QuotientLength(a: nat, b: nat, q: nat, r: nat)
    requires IsDivMod(a, b, q, r) && BitLen(b) <= BitLen(a)
    ensures q > 0 && BitLen(q) == BitLen(a) - BitLen(b) + 1
  {
    hide Mul, Xor;
    NonZero(b);
    if q == 0 {
      DivModStart(r, b);
    } else {
      MulBitLen(q, b);
      NonZero(q);
      XorBitLen(Mul(q, b), r);
    }
  }

  lemma {:induction false} NextDegrees(l: Loop, q: nat, r: nat, m: nat)
    requires Degrees(l, m) && IsDivMod(l.r0, l.r1, q, r)
    ensures Degrees(Next(l, q), m)
  {
    hide Mul, Xor, BitLen;
    NextRemainder(l, q, r);
    QuotientLength(l.r0, l.r1, q, r);
    NonZero(l.s1);
    MulBitLen(q, l.s1);
    XorBitLen(l.s0, Mul(q, l.s1));
  }

  /** The first turn: if a is shorter than m the degrees add up at once; if both are equally long the
      quotient is 1; and if a is longer it is 0, and the turn swaps them. */
  lemma {:induction false} FirstTurn(l: Loop, q: nat, r: nat, a: nat, m: nat)
    requires l.r0 == m && l.r1 == a && l.s0 == 0 && l.s1 == 1 && IsDivMod(m, a, q, r)
    ensures Started(Next(l, q), a, m)
  {
    hide Mul, Xor, BitLen;
    OneLong();
    if BitLen(a) < BitLen(m) {
      NextDegrees(l, q, r, m);
    } else {
      NextRemainder(l, q, r);
      MulOne(q);
      XorStart(q);
      if BitLen(a) == BitLen(m) {
        QuotientLength(m, a, q, r);
      } else {
        ZeroQuotient(m, a, q, r);
      }
    }
  }

  lemma {:induction false} OneLong()
    ensures BitLen(0) == 0 && BitLen(1) == 1
  {
  }

  /** Dividing by something longer leaves everything. */
  lemma {:induction false} ZeroQuotient(a: nat, b: nat, q: nat, r: nat)
    requires IsDivMod(a, b, q, r) && BitLen(a) < BitLen(b)
    ensures q == 0 && r == a
  {
    hide Mul, Xor, BitLen, Rem;
    DivModStart(a, b);
    DivModUnique(a, b, q, r, 0, a);
  }

  /** The turn after a swap is like a first turn with the remainder of a. */
  lemma {:induction false} SecondTurn(l: Loop, q: nat, r: nat, a: nat, m: nat)
    requires l.r0 == a && l.r1 == m && l.s0 == 1 && l.s1 == 0 && IsDivMod(a, m, q, r)
    ensures Degrees(Next(l, q), m)
  {
    hide Mul, Xor, BitLen;
    OneLong();
    NextRemainder(l, q, r);
    MulZero(q);
    XorCancel(1, 0);
    XorSelf(0);
    XorComm(1, 0);
    XorStart(1);
  }

  lemma {:induction false} NextStarted(l: Loop, q: nat, r: nat, a: nat, m: nat)
    requires Started(l, a, m) && IsDivMod(l.r0, l.r1, q, r)
    ensures Started(Next(l, q), a, m)
  {
    hide Next, IsDivMod, Degrees, BitLen;
    if Degrees(l, m) {
      NextDegrees(l, q, r, m);
    } else if l.s0 == 0 {
      FirstTurn(l, q, r, a, m);
    } else {
      SecondTurn(l, q, r, a, m);
    }
  }

  // ----- common divisors

  ghost predicate Coprime(a: nat, m: nat) {
    forall d: nat :: Divides(d, a) && Divides(d, m) ==> d == 1
  }

  lemma {:induction false} DividesCombine(d: nat, s: nat, a: nat, t: nat, m: nat)
    requires Divides(d, a) && Divides(d, m)
    ensures Divides(d, Combine(s, a, t, m))
  {
    hide Divides, Mul, Xor;
    DividesMul(d, a, s);
    DividesMul(d, m, t);
    DividesXor(d, Mul(s, a), Mul(t, m));
  }

  lemma {:induction false} DividesOne(d: nat)
    requires Divides(d, 1)
    ensures d == 1
  {
    var q: nat :| Mul(q, d) == 1;
    assert BitLen(1) == 1;
    if d == 0 || q == 0 {
      MulZero(d);
      MulZero(q);
    } else {
      MulBitLen(q, d);
      NonZero(q);
      NonZero(d);
      assert BitLen(d) == 1;
      OneDigit(d);
    }
  }

  lemma {:induction false} OneDigit(d: nat)
    requires BitLen(d) == 1
    ensures d == 1
  {
    assert BitLen(d / 2) == 0;
    NonZero(d / 2);
  }

  /** When the loop ends, r0 is the greatest common divisor. */
  lemma {:induction false} LastRemainder(l: Loop, a: nat, m: nat)
    requires Bezout(l, a, m) && l.r1 == 0
    ensures Divides(l.r0, a) && Divides(l.r0, m)
    ensures forall d: nat :: Divides(d, a) && Divides(d, m) ==> Divides(d, l.r0)
  {
    hide Divides, Mul, Xor, Combine;
    DividesSelf(l.r0, 0);
    DividesCombine(l.r0, l.t1, l.r0, l.t0, l.r1);
    DividesCombine(l.r0, l.s1, l.r0, l.s0, l.r1);
    forall d: nat | Divides(d, a) && Divides(d, m)
      ensures Divides(d, l.r0)
    {
      DividesCombine(d, l.s0, a, l.t0, m);
    }
  }

  lemma {:induction false} LastIsOne(l: Loop, a: nat, m: nat)
    requires Bezout(l, a, m) && l.r1 == 0
    ensures l.r0 == 1 <==> Coprime(a, m)
  {
    hide Divides, Bezout;
    LastRemainder(l, a, m);
    if l.r0 == 1 {
      forall d: nat | Divides(d, a) && Divides(d, m)
        ensures d == 1
      {
        DividesOne(d);
      }
    }
  }

  /** A combination of a and m that is 1 makes s an inverse of a. */
  lemma {:induction false} CofactorIsInverse(s: nat, a: nat, t: nat, m: nat)
    requires Combine(s, a, t, m) == 1 && BitLen(m) > 1
    ensures MulMod(a, s, m) == 1
  {
    hide Divides, Mul, Xor, Rem;
    DividesSelf(m, t);
    MulComm(a, s);
    OneIsRem(Mul(a, s), m, Mul(t, m));
  }

  lemma {:induction false} OneIsRem(p: nat, m: nat, k: nat)
    requires BitLen(m) > 1 && Divides(m, k) && Xor(p, k) == 1
    ensures m > 0 && Rem(p, m) == 1
  {
    hide Divides, Rem;
    NonZero(m);
    XorCancel(k, p);
    XorComm(p, k);
    assert Xor(p, 1) == k;
    assert BitLen(1) == 1;
    RemUnique(p, m, 1);
  }

  // ----- gf_inverse

  /** One turn of the loop keeps what it computes. */
  lemma {:induction false} Turn(l: Loop, q: nat, r: nat, a: nat, m: nat)
    requires Bezout(l, a, m) && IsDivMod(l.r0, l.r1, q, r)
    ensures Bezout(Next(l, q), a, m) && BitLen(Next(l, q).r1) < BitLen(l.r1)
    ensures Started(l, a, m) ==> Started(Next(l, q), a, m)
  {
    hide *;
    NextBezout(l, q, a, m);
    NextRemainder(l, q, r);
    DivModShorter(l.r0, l.r1, q, r);
    if Started(l, a, m) {
      NextStarted(l, q, r, a, m);
    }
  }

  lemma {:induction false} DivModShorter(a: nat, b: nat, q: nat, r: nat)
    requires IsDivMod(a, b, q, r)
    ensures BitLen(r) < BitLen(b)
  {
  }

  /** s is the inverse of a modulo m, in reduced form. */
  predicate IsInverse(s: nat, a: nat, m: nat) {
    m > 0 && MulMod(a, s, m) == 1 && BitLen(s) < BitLen(m)
  }

  lemma {:induction false} LastCofactor(l: Loop, a: nat, m: nat)
    requires Bezout(l, a, m) && Started(l, a, m) && l.r1 == 0 && l.r0 == 1 && a > 0 && m > 1
    ensures IsInverse(l.s0, a, m)
  {
    hide Rem, Mul, Xor, Combine, BitLen;
    TwoLong(m);
    OneLong();
    CofactorIsInverse(l.s0, a, l.t0, m);
  }

  lemma {:induction false} TwoLong(m: nat)
    requires m > 1
    ensures BitLen(m) > 1
  {
    NonZero(m / 2);
  }

  lemma {:induction false} CutLosesNothing(s: nat)
    ensures LowBits(s, 8) == s <==> BitLen(s) <= 8
  {
    hide BitLen, LowBits;
    BitLenBound(s, 8);
    if s < Pow2(8) {
      LowBitsSmall(s, 8);
    }
  }

  /** gf_inverse: it fails exactly for 0 and when a and the modulus have a common factor; otherwise
      its result is the inverse of a, cut to 8 digits. For every modulus up to degree 8 that is the
      inverse; for others it is exactly if the inverse has at most 8 digits. The last s0 is returned as a
      ghost value. */
  method GfInverse(a: nat, modulus: nat) returns (r: Result<nat>, ghost s: nat)
    ensures r.Err? <==> a == 0 || !Coprime(a, modulus)
    ensures r.Err? ==> r.error == if a == 0 then ZeroHasNoInverse else CommonFactor
    ensures r.Ok? ==> r.value == LowBits(s, 8) && (r.value == s <==> BitLen(s) <= 8)
    ensures r.Ok? && modulus > 1 ==> IsInverse(s, a, modulus)
    ensures r.Ok? && modulus > 1 ==> (IsInverse(r.value, a, modulus) <==> BitLen(s) <= 8)
    ensures r.Ok? && modulus > 1 && BitLen(modulus) <= 9 ==> IsInverse(r.value, a, modulus)
  {
    hide *;
    s := 0;
    if a == 0 {
      return Err(ZeroHasNoInverse), s;
    }
    var r0, r1, s0, s1 := modulus, a, 0, 1;
    ghost var l := First(a, modulus);
    FirstBezout(a, modulus);
    FirstIs(a, modulus);
    while r1 != 0
      invariant l.r0 == r0 && l.r1 == r1 && l.s0 == s0 && l.s1 == s1
      invariant Bezout(l, a, modulus) && Started(l, a, modulus)
      decreases BitLen(r1)
    {
      var d := GfDivMod(r0, r1);
      var q := d.value.0;
      Turn(l, q, d.value.1, a, modulus);
      var qr := GfMulPoly(q, r1);
      var qs := GfMulPoly(q, s1);
      r0, r1 := r1, Xor(r0, qr);
      s0, s1 := s1, Xor(s0, qs);
      NextIs(l, q);
      l := Next(l, q);
    }
    LastIsOne(l, a, modulus);
    s := s0;
    if r0 != 1 {
      return Err(CommonFactor), s;
    }
    CutLosesNothing(s);
    if modulus > 1 {
      LastCofactor(l, a, modulus);
      CutInverse(s, a, modulus);
    }
    r := Ok(LowBits(s0, 8));
  }

  lemma {:induction false} FirstIs(a: nat, m: nat)
    ensures First(a, m) == Loop(m, a, 0, 1, 1, 0) && Started(First(a, m), a, m)
  {
  }

  lemma {:induction false} NextIs(l: Loop, q: nat)
    ensures Next(l, q).r0 == l.r1 && Next(l, q).r1 == Xor(l.r0, Mul(q, l.r1))
    ensures Next(l, q).s0 == l.s1 && Next(l, q).s1 == Xor(l.s0, Mul(q, l.s1))
  {
  }

  /** There is only one inverse. */
  lemma {:induction false} InverseUnique(s: nat, s': nat, a: nat, m: nat)
    requires IsInverse(s, a, m) && IsInverse(s', a, m)
    ensures s == s'
  {
    hide Rem, Mul, MulMod;
    // s = s * (a * s') = (s * a) * s' = s'
    MulModComm(a, s, m);
    MulModAssoc(s, a, s', m);
    Reduced(s, m);
    Reduced(s', m);
  }

  lemma {:induction false} Reduced(s: nat, m: nat)
    requires m > 0 && BitLen(s) < BitLen(m)
    ensures MulMod(s, 1, m) == s && MulMod(1, s, m) == s
  {
    MulOne(s);
  }

  /** a has an inverse modulo m exactly when they have no common factor, so the method's failures are
      exactly the elements that have none. */
  lemma {:induction false} InverseMeansCoprime(s: nat, a: nat, m: nat)
    requires IsInverse(s, a, m)
    ensures Coprime(a, m)
  {
    hide Divides, Rem, Mul;
    forall d: nat | Divides(d, a) && Divides(d, m)
      ensures d == 1
    {
      DividesRem(d, Mul(a, s), m, a, s);
      DividesOne(d);
    }
  }

  lemma {:induction false} DividesRem(d: nat, p: nat, m: nat, a: nat, s: nat)
    requires m > 0 && Divides(d, a) && Divides(d, m) && p == Mul(a, s)
    ensures Divides(d, Rem(p, m))
  {
    hide Rem, Mul, Xor;
    DividesMul(d, a, s);
    RemIsRem(p, m);
    var k := Xor(p, Rem(p, m));
    var c: nat :| Mul(c, m) == k;
    DividesMul(d, m, c);
    DividesXor(d, p, k);
    XorCancel(Rem(p, m), p);
  }

  lemma {:induction false} CutInverse(s: nat, a: nat, m: nat)
    requires IsInverse(s, a, m)
    ensures IsInverse(LowBits(s, 8), a, m) <==> BitLen(s) <= 8
    ensures BitLen(m) <= 9 ==> IsInverse(LowBits(s, 8), a, m)
  {
    hide *;
    InverseIs(s, a, m);
    CutLosesNothing(s);
    if IsInverse(LowBits(s, 8), a, m) {
      InverseUnique(s, LowBits(s, 8), a, m);
    }
  }

  /** A combination of a and m that is 1, with a short enough cofactor of a. */
  lemma {:induction false} InverseBy(s: nat, a: nat, t: nat, m: nat)
    requires Combine(s, a, t, m) == 1 && BitLen(s) < BitLen(m) && m > 1
    ensures IsInverse(s, a, m)
  {
    hide Combine, Rem, Mul, BitLen;
    TwoLong(m);
    CofactorIsInverse(s, a, t, m);
  }

  lemma {:induction false} XorNext(n: nat)
    ensures Xor(2 * n, 2 * n + 1) == 1
  {
    hide Xor;
    XorUnfold(2 * n, 2 * n + 1);
    XorSelf(n);
  }

  /** Half of m + 1 is the inverse of x. */
  lemma {:induction false} InverseOfX(n: nat)
    requires n > 0
    ensures IsInverse(n, 2, 2 * n + 1)
  {
    hide IsInverse, Mul, Xor;
    MulDoubleRight(n, 1);
    MulOne(n);
    MulOne(2 * n + 1);
    XorNext(n);
    InverseBy(n, 2, 1, 2 * n + 1);
  }

  /** It can lose the inverse: x^8 + x^3 is that of x modulo x^9 + x^4 + 1, and is cut to x^3. */
  lemma {:induction false} CutLosesInverse()
    ensures IsInverse(0x108, 2, 0x211) && LowBits(0x108, 8) == 8 && !IsInverse(8, 2, 0x211)
  {
    hide *;
    NineDigits();
    InverseOfX(0x108);
    CutInverse(0x108, 2, 0x211);
  }

  lemma {:induction false} NineDigits()
    ensures BitLen(0x108) == 9 && LowBits(0x108, 8) == 8
  {
    hide BitLen, LowBits, Shl, Shr;
    assert Pow2(8) == 256;
    GfByte.NineDigits(8);
    OneShifted(8);
    ShrJoin(1, 8, 8);
  }

  // ----- the check after the call

  /** For any arguments the check that gf_mul of a and the result is 1 passes exactly if the result
      inverts the low 8 digits of a modulo x^8 plus the low digits of the modulus. */
  lemma {:induction false} CheckMeans(inv: nat, a: nat, m: nat)
    requires BitLen(inv) <= 8
    ensures GfMul8(a, inv, m) == 1 <==> IsInverse(inv, LowBits(a, 8), Monic(m, 8))
  {
    hide GfMul8, MulMod, BitLen, LowBits, Monic;
    GfMul8Is(a, inv, m);
    MonicIs(m, 8);
    MonicPositive(m, 8);
  }

  /** For a modulus of degree 8 the check that gf_mul of a and its inverse is 1 passes exactly if a is
      congruent to its low 8 digits, as it is whenever it has no others. */
  lemma {:induction false} CheckPasses(s: nat, a: nat, m: nat)
    requires IsInverse(s, a, m) && BitLen(m) == 9
    ensures GfMul8(a, LowBits(s, 8), m) == 1 <==> Rem(a, m) == LowBits(a, 8)
    ensures BitLen(a) <= 8 ==> GfMul8(a, LowBits(s, 8), m) == 1
  {
    hide GfMul8, MulMod, BitLen, LowBits, Rem, Monic;
    var low := LowBits(a, 8);
    CutLosesNothing(s);
    GfMul8Is(a, s, m);
    MonicIs(m, 8);
    LowLength(a);
    ShortRem(low, m);
    SameInverse(a, low, s, m);
  }

  lemma {:induction false} LowLength(a: nat)
    ensures BitLen(LowBits(a, 8)) <= 8
    ensures BitLen(a) <= 8 ==> LowBits(a, 8) == a
  {
    BitLenBound(LowBits(a, 8), 8);
    CutLosesNothing(a);
  }

  lemma {:induction false} ShortRem(a: nat, m: nat)
    requires BitLen(a) < BitLen(m)
    ensures m > 0 && Rem(a, m) == a
  {
  }

  /** What a's inverse inverts is congruent to a. */
  lemma {:induction false} SameInverse(a: nat, b: nat, s: nat, m: nat)
    requires m > 0 && MulMod(a, s, m) == 1
    ensures MulMod(b, s, m) == 1 <==> Rem(b, m) == Rem(a, m)
  {
    hide Mul, Rem;
    MulModRem(a, s, m);
    MulModRem(b, s, m);
    if MulMod(b, s, m) == 1 {
      // b = b * (s * a) = (b * s) * a = a
      MulModAssoc(b, s, a, m);
      MulModComm(a, s, m);
      MulOne(a);
      MulOne(b);
    }
  }

  /** If m has a constant term, x^k divides u * m only if it divides u. */
  lemma {:induction false} FactorX(u: nat, m: nat, j: nat, k: nat) returns (w: nat)
    requires m % 2 == 1 && Mul(u, m) == Shl(j, k)
    ensures Mul(w, m) == j
    decreases k
  {
    hide Mul, Xor;
    if k == 0 {
      w := u;
    } else {
      MulUnfold(u, m);
      XorUnfold(u, 2 * Mul(u, m / 2));
      MulDoubleLeft(u / 2, m);
      w := FactorX(u / 2, m, j, k - 1);
    }
  }

  /** k m = j (x^8 + m), so (k + j) m = j x^8, and x^8 divides k + j. */
  lemma {:induction false} SameMultiple(k: nat, j: nat, m: nat) returns (w: nat)
    requires m % 2 == 1 && BitLen(m) <= 8 && Mul(k, m) == Mul(j, Monic(m, 8))
    ensures Mul(w, m) == j
  {
    hide Mul, Xor, BitLen, Monic, Shl;
    MonicOf(m);
    MulXorRight(j, Shl(1, 8), m);
    MulShl(j, 1, 8);
    MulOne(j);
    MulXorLeft(k, j, m);
    XorCancel(Shl(j, 8), Mul(j, m));
    w := FactorX(Xor(k, j), m, j, 8);
  }

  lemma {:induction false} SameMultipleLong(k: nat, j: nat, m: nat)
    requires m % 2 == 1 && BitLen(m) <= 8 && Mul(k, m) == Mul(j, Monic(m, 8)) > 0
    ensures BitLen(Mul(k, m)) >= BitLen(m) + 8
  {
    hide *;
    var w := SameMultiple(k, j, m);
    MulZero(Monic(m, 8));
    MulZero(m);
    MonicIs(m, 8);
    MonicPositive(m, 8);
    NonZero(w);
    MulBitLen(w, m);
    MulBitLen(j, Monic(m, 8));
  }

  /** A multiple of both m, which has degree less than 8 and a constant term, and m + x^8 is 0 or has
      at least 8 digits more than m. */
  lemma {:induction false} CommonMultiple(p: nat, m: nat)
    requires m % 2 == 1 && BitLen(m) <= 8 && Divides(m, p) && Divides(Monic(m, 8), p) && p > 0
    ensures BitLen(p) >= BitLen(m) + 8
  {
    hide Mul, BitLen, Monic;
    var k: nat :| Mul(k, m) == p;
    var j: nat :| Mul(j, Monic(m, 8)) == p;
    SameMultipleLong(k, j, m);
  }

  lemma {:induction false} MonicOf(m: nat)
    requires BitLen(m) <= 8
    ensures Monic(m, 8) == Xor(Shl(1, 8), m)
  {
    hide BitLen, LowBits, Shl, Xor;
    BitLenBound(m, 8);
    LowBitsSmall(m, 8);
    OneShifted(8);
    GfByte.XorTop(m, 8);
  }

  /** For a modulus of smaller degree, with a constant term as every irreducible one but x has, the
      check passes for no element of at most 8 digits but 1: gf_mul is fixed to degree 8. */
  lemma {:induction false} CheckSmallField(s: nat, a: nat, m: nat)
    requires IsInverse(s, a, m) && BitLen(a) <= 8 && BitLen(m) <= 8 && m % 2 == 1
    ensures GfMul8(a, LowBits(s, 8), m) == 1 <==> a == 1
  {
    hide *;
    InverseIs(s, a, m);
    SmallCheck(s, a, m);
    var g := Monic(m, 8);
    MonicPositive(m, 8);
    if a == 1 {
      MulOne(s);
      Reduced(s, m);
      MonicIs(m, 8);
      Reduced(1, g);
    } else if MulMod(a, s, g) == 1 {
      ResidueOne(Mul(a, s), m);
      ResidueOne(Mul(a, s), g);
      ProductShort(a, s, m);
      NotOne(a, s);
      CommonMultiple(Xor(Mul(a, s), 1), m);
    }
  }

  /** It fails in GF(8): 5 is the inverse of 2 modulo x^3 + x + 1, but gf_mul gives 10. */
  lemma {:induction false} CheckFailsInSmallField()
    ensures IsInverse(5, 2, 0xb) && GfMul8(2, LowBits(5, 8), 0xb) != 1
  {
    hide IsInverse, GfMul8;
    assert BitLen(2) == 2 && BitLen(0xb) == 4;
    InverseOfX(5);
    CheckSmallField(5, 2, 0xb);
  }

  /** And for the polynomial of AES, with 0x11a, an element of 9 digits: it is congruent to 1, which is
      its own inverse, but gf_mul sees the low digits 0x1a. */
  lemma {:induction false} CheckFailsUnreduced()
    ensures IsInverse(1, 0x11a, GfByte.POLYNOMIAL) && GfMul8(0x11a, LowBits(1, 8), GfByte.POLYNOMIAL) != 1
  {
    hide IsInverse, GfMul8, Mul, Xor, Rem;
    var m := GfByte.POLYNOMIAL;
    GfByte.PolynomialLength();
    OneLong();
    MulOne(0x11a);
    MulOne(m);
    XorNext(0x8d);
    InverseBy(1, 0x11a, 1, m);
    OneIsRem(0x11a, m, m);
    assert LowBits(0x11a, 8) == 0x1a;
    CheckPasses(1, 0x11a, m);
  }

  lemma {:induction false} InverseIs(s: nat, a: nat, m: nat)
    requires IsInverse(s, a, m)
    ensures m > 0 && MulMod(a, s, m) == Rem(Mul(a, s), m) == 1 && BitLen(s) < BitLen(m)
  {
  }

  lemma {:induction false} SmallCheck(s: nat, a: nat, m: nat)
    requires BitLen(a) <= 8 && BitLen(s) <= 8
    ensures Monic(m, 8) > 0 && GfMul8(a, LowBits(s, 8), m) == MulMod(a, s, Monic(m, 8)) == Rem(Mul(a, s), Monic(m, 8))
  {
    hide GfMul8, LowBits, Mul, Rem, BitLen, Monic;
    CutLosesNothing(s);
    LowLength(a);
    GfMul8Is(a, s, m);
    MonicPositive(m, 8);
  }

  lemma {:induction false} ResidueOne(p: nat, m: nat)
    requires m > 0 && Rem(p, m) == 1
    ensures Divides(m, Xor(p, 1))
  {
    hide Rem, Divides, Xor;
    RemIsRem(p, m);
  }

  lemma {:induction false} ProductShort(a: nat, s: nat, m: nat)
    requires BitLen(a) <= 8 && BitLen(m) <= 8 && BitLen(s) < BitLen(m)
    ensures BitLen(Xor(Mul(a, s), 1)) < BitLen(m) + 8
  {
    hide Mul, Xor, BitLen;
    OneLong();
    if a == 0 || s == 0 {
      MulZero(a);
      MulZero(s);
    } else {
      MulBitLen(a, s);
    }
    XorBitLen(Mul(a, s), 1);
  }

  lemma {:induction false} NotOne(a: nat, s: nat)
    requires a != 1
    ensures Xor(Mul(a, s), 1) > 0
  {
    hide Divides;
    XorZero(Mul(a, s), 1);
    if Mul(a, s) == 1 {
      DividesSelf(a, s);
      DividesOne(a);
    }
  }

  // ----- fields

  /** m has no factors but 1 and itself. */
  ghost predicate Irreducible(m: nat) {
    BitLen(m) > 1 && forall d: nat :: Divides(d, m) ==> d == 1 || d == m
  }

  lemma {:induction false} DividesShorter(d: nat, a: nat)
    requires Divides(d, a) && a > 0
    ensures BitLen(d) <= BitLen(a)
  {
    var q: nat :| Mul(q, d) == a;
    MulZero(d);
    MulZero(q);
    MulBitLen(q, d);
    NonZero(q);
  }

  /** Modulo an irreducible polynomial every nonzero element has an inverse: gf_inverse never fails. */
  lemma {:induction false} FieldHasInverses(a: nat, m: nat)
    requires Irreducible(m) && 0 < a && BitLen(a) < BitLen(m)
    ensures Coprime(a, m)
  {
    hide Divides;
    forall d: nat | Divides(d, a) && Divides(d, m)
      ensures d == 1
    {
      DividesShorter(d, a);
    }
  }

  /** The polynomial of AES is irreducible: any factor but itself is a byte, which the S-box has an
      inverse for. */
  lemma {:induction false} AesPolynomialIrreducible()
    ensures Irreducible(GfByte.POLYNOMIAL)
  {
    hide Divides;
    GfByte.PolynomialLength();
    forall d: nat | Divides(d, GfByte.POLYNOMIAL)
      ensures d == 1 || d == GfByte.POLYNOMIAL
    {
      DividesShorter(d, GfByte.POLYNOMIAL);
      if BitLen(d) == 9 {
        SameLength(d, GfByte.POLYNOMIAL);
      } else {
        ByteFactor(d);
      }
    }
  }

  lemma {:induction false} SameLength(d: nat, m: nat)
    requires m > 0 && Divides(d, m) && BitLen(d) == BitLen(m)
    ensures d == m
  {
    hide BitLen, Mul;
    var q: nat :| Mul(q, d) == m;
    MulZero(d);
    MulZero(q);
    MulBitLen(q, d);
    OneDigit(q);
    MulOne(d);
  }

  lemma {:induction false} ByteFactor(d: nat)
    requires Divides(d, GfByte.POLYNOMIAL) && BitLen(d) <= 8
    ensures d == 1
  {
    hide Divides, BitLen, Mul;
    var m := GfByte.POLYNOMIAL;
    BitLenBound(d, 8);
    assert Pow2(8) == 256;
    var x := ByteOf(d);
    NonZeroFactor(d, m);
    var y := AesTables.Unaffine(AesTables.Sbox(x));
    TableInverse(x, y);
    DividesSelf(d, 0);
    DividesRem(d, Mul(d, GfByte.Value(y)), m, d, GfByte.Value(y));
    DividesOne(d);
  }

  lemma {:induction false} NonZeroFactor(d: nat, m: nat)
    requires Divides(d, m) && m > 0
    ensures d > 0
  {
    var q: nat :| Mul(q, d) == m;
    MulZero(q);
  }

  /** Every number below 256 is the polynomial of a byte. */
  lemma {:induction false} ByteOf(d: nat) returns (x: bv8)
    requires d < 256
    ensures GfByte.Value(x) == d
    decreases d
  {
    if d == 0 {
      x := 0;
    } else {
      var y := ByteOf(d / 2);
      TopClear(y);
      x := if d % 2 == 1 then (y << 1) | 1 else y << 1;
      ShiftIn(y, d % 2 == 1);
      GfByte.Split(x);
    }
  }

  lemma {:induction false} ShiftIn(y: bv8, b: bool)
    requires y & 0x80 == 0
    ensures var x := if b then (y << 1) | 1 else y << 1;
            x >> 1 == y && x & 1 == if b then 1 else 0
  {
  }

  lemma {:induction false} TopClear(y: bv8)
    requires GfByte.Value(y) < 128
    ensures y & 0x80 == 0
  {
    GfByte.ValueIsNumber(y);
    TopClearNumber(y);
  }

  lemma {:induction false} TopClearNumber(y: bv8)
    requires y as nat < 128
    ensures y & 0x80 == 0
  {
  }

  lemma {:induction false} TableInverse(x: bv8, y: bv8)
    requires GfByte.Value(x) > 0 && y == AesTables.Unaffine(AesTables.Sbox(x))
    ensures MulMod(GfByte.Value(x), GfByte.Value(y), GfByte.POLYNOMIAL) == 1
  {
    hide *;
    ZeroByte();
    AesTables.SboxIsAffineInverse(x);
    GfByte.TimesIsMulMod(x, y);
    GfByte.ValueIsNumber(1);
  }

  lemma {:induction false} ZeroByte()
    ensures GfByte.Value(0) == 0
  {
  }

  /** The algorithm and the S-box agree: the table holds the affine image of what gf_inverse computes
      for the AES polynomial, on every nonzero byte. */
  lemma {:induction false} SboxHoldsInverses(x: bv8, s: nat)
    requires x != 0 && IsInverse(s, GfByte.Value(x), GfByte.POLYNOMIAL)
    ensures s < 256 && AesTables.Sbox(x) == AesTables.Affine(s as bv8)
  {
    hide AesTables.Sbox, AesTables.Affine, AesTables.Unaffine, BitLen, MulMod, Pow2;
    var y := AesTables.Unaffine(AesTables.Sbox(x));
    GfByte.ValueIsNumber(x);
    TableInverse(x, y);
    GfByte.ByteReduced(y);
    GfByte.PolynomialLength();
    InverseUnique(s, GfByte.Value(y), GfByte.Value(x), GfByte.POLYNOMIAL);
    GfByte.ValueIsNumber(y);
    AesTables.SboxIsAffineInverse(x);
  }
}
