/** Powers of two. */
module Powers {

  function Pow2(n: nat): (p: nat)
    ensures p > 0
  {
    if n == 0 then 1 else 2 * Pow2(n - 1)
  }

  lemma {:induction false} PowAdd(m: nat, n: nat)
    ensures Pow2(m + n) == Pow2(m) * Pow2(n)
    decreases m
  {
    if m > 0 {
      PowAdd(m - 1, n);
    }
  }

  /** a * 2^n */
  function Shl(a: nat, n: nat): nat {
    if n == 0 then a else 2 * Shl(a, n - 1)
  }

  lemma {:induction false} ShlDouble(a: nat, n: nat)
    ensures Shl(2 * a, n) == 2 * Shl(a, n)
  {
    if n > 0 {
      ShlDouble(a, n - 1);
    }
  }

  lemma {:induction false} ShlSucc(a: nat, n: nat)
    ensures Shl(a + 1, n) == Shl(a, n) + Pow2(n)
  {
    if n > 0 {
      ShlSucc(a, n - 1);
    }
  }

  /** a / 2^n, the shift to the right. */
  function Shr(a: nat, n: nat): nat
    decreases n
  {
    if n == 0 then a else Shr(a / 2, n - 1)
  }

  /** a modulo 2^n, the low n bits. */
  function LowBits(a: nat, n: nat): (r: nat)
    ensures r < Pow2(n)
    decreases n
  {
    if n == 0 then 0 else a % 2 + 2 * LowBits(a / 2, n - 1)
  }

  lemma {:induction false} SplitBits(a: nat, n: nat)
    ensures a == Shl(Shr(a, n), n) + LowBits(a, n)
    decreases n
  {
    if n > 0 {
      SplitBits(a / 2, n - 1);
    }
  }

  lemma {:induction false} LowJoin(a: nat, m: nat, n: nat)
    ensures LowBits(a, m + n) == Shl(LowBits(Shr(a, m), n), m) + LowBits(a, m)
    decreases m
  {
    if m > 0 {
      LowJoin(a / 2, m - 1, n);
    }
  }

  lemma {:induction false} ShrJoin(a: nat, r: nat, n: nat)
    requires r < Pow2(n)
    ensures Shr(Shl(a, n) + r, n) == a && LowBits(Shl(a, n) + r, n) == r
    decreases n
  {
    if n > 0 {
      assert (Shl(a, n) + r) / 2 == Shl(a, n - 1) + r / 2;
      ShrJoin(a, r / 2, n - 1);
    }
  }

  lemma {:induction false} ShrShr(a: nat, m: nat, n: nat)
    ensures Shr(a, m + n) == Shr(Shr(a, m), n)
    decreases m
  {
    if m > 0 {
      ShrShr(a / 2, m - 1, n);
    }
  }

  lemma {:induction false} ShrBound(a: nat, m: nat, n: nat)
    requires a < Pow2(m + n)
    ensures Shr(a, m) < Pow2(n)
    decreases m
  {
    if m > 0 {
      ShrBound(a / 2, m - 1, n);
    }
  }

  lemma {:induction false} LowBitsSmall(a: nat, n: nat)
    requires a < Pow2(n)
    ensures LowBits(a, n) == a
    decreases n
  {
    if n > 0 {
      LowBitsSmall(a / 2, n - 1);
    }
  }

  lemma {:induction false} ShlZero(n: nat)
    ensures Shl(0, n) == 0
  {
    if n > 0 {
      ShlZero(n - 1);
    }
  }
}
