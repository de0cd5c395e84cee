/** The period of the random numbers: a linear congruential generator modulo a power of two, whose factor
    is 1 modulo 4 and whose increment is odd, runs through all residues. */
module RandomPeriod {
  import opened Powers
  import opened Beebs

  // ----- divisibility by powers of two

  /** 2^k divides x. */
  predicate Halves(x: nat, k: nat) {
    k == 0 || (x % 2 == 0 && Halves(x / 2, k - 1))
  }

  lemma {:induction false} HalvesIff(x: nat, k: nat)
    ensures Halves(x, k) <==> x % Pow2(k) == 0
    decreases k
  {
    if k > 0 {
      HalvesIff(x / 2, k - 1);
      HalfModulo(x, Pow2(k - 1));
    }
  }

  lemma {:induction false} HalfModulo(x: nat, p: nat)
    requires p > 0
    ensures x % (2 * p) == 0 <==> x % 2 == 0 && x / 2 % p == 0
  {
    if x % (2 * p) == 0 {
      var q := x / (2 * p);
      assert x == 2 * (p * q);
      assert x / 2 == p * q;
      MultipleModulo(p, q);
    }
    if x % 2 == 0 && x / 2 % p == 0 {
      var q := x / 2 / p;
      assert x / 2 == p * q;
      assert x == (2 * p) * q;
      MultipleModulo(2 * p, q);
    }
  }

  lemma {:induction false} MultipleModulo(p: nat, q: nat)
    requires p > 0
    ensures (p * q) % p == 0
  {
    if q > 0 {
      var t := p * (q - 1);
      MultipleModulo(p, q - 1);
      OneMore(p, q, t);
      AddOne(t, p);
    }
  }

  lemma {:induction false} OneMore(p: nat, q: nat, t: int)
    requires t == p * (q - 1)
    ensures p * q == t + p
  {
  }

  lemma {:induction false} AddOne(t: nat, p: nat)
    requires p > 0
    ensures (t + p) % p == t % p
  {
    var d := (t + p) / p - t / p - 1;
    Distribute(p, (t + p) / p, t / p);
    Far(p, d);
  }

  lemma {:induction false} Distribute(p: int, a: int, b: int)
    ensures p * (a - b - 1) == p * a - p * b - p
  {
  }

  lemma {:induction false} Far(p: int, d: int)
    requires p > 0
    ensures d >= 1 ==> p * d >= p
    ensures d <= -1 ==> p * d <= -p
  {
  }

  /** Odd factors do not matter. */
  lemma {:induction false} HalvesOdd(x: nat, odd: nat, k: nat)
    requires odd % 2 == 1
    ensures Halves(x * odd, k) <==> Halves(x, k)
    decreases k
  {
    if k > 0 {
      OddProduct(x, odd);
      if x % 2 == 0 {
        HalvesOdd(x / 2, odd, k - 1);
      }
    }
  }

  lemma {:induction false} OddProduct(x: nat, odd: nat)
    requires odd % 2 == 1
    ensures x * odd % 2 == x % 2
    ensures x % 2 == 0 ==> x * odd / 2 == x / 2 * odd
  {
    OddTimes(x, odd / 2, odd);
    if x % 2 == 0 {
      EvenTimes(x / 2, odd, x);
    }
  }

  lemma {:induction false} OddTimes(x: nat, i: nat, odd: nat)
    requires odd == 2 * i + 1
    ensures x * odd % 2 == x % 2
  {
    var y := x * i;
    assert x * odd == 2 * y + x;
  }

  lemma {:induction false} EvenTimes(h: nat, odd: nat, x: nat)
    requires x == 2 * h
    ensures x * odd / 2 == h * odd
  {
    var y := h * odd;
    assert x * odd == 2 * y;
  }

  // ----- geometric sums

  function Power(a: nat, n: nat): nat {
    if n == 0 then 1 else a * Power(a, n - 1)
  }

  /** 1 + a + ... + a^(n - 1) */
  function Geometric(a: nat, n: nat): nat {
    if n == 0 then 0 else a * Geometric(a, n - 1) + 1
  }

  lemma {:induction false} GeometricJoin(a: nat, m: nat, n: nat)
    ensures Geometric(a, m + n) == Power(a, n) * Geometric(a, m) + Geometric(a, n)
    decreases n
  {
    if n > 0 {
      GeometricJoin(a, m, n - 1);
      JoinStep(a, Power(a, n - 1), Geometric(a, m), Geometric(a, n - 1));
    }
  }

  lemma {:induction false} JoinStep(a: nat, p: nat, g: nat, h: nat)
    ensures a * (p * g + h) == (a * p) * g + a * h
  {
  }

  lemma {:induction false} PowerModulo(a: nat, n: nat)
    requires a % 4 == 1
    ensures Power(a, n) % 4 == 1
  {
    if n > 0 {
      PowerModulo(a, n - 1);
      OneModulo(a, Power(a, n - 1));
    }
  }

  lemma {:induction false} OneModulo(x: nat, y: nat)
    requires x % 4 == 1 && y % 4 == 1
    ensures x * y % 4 == 1
  {
    var i, j := x / 4, y / 4;
    assert x * y == 4 * (i * y + j) + 1 by {
      assert x == 4 * i + 1 && y == 4 * j + 1;
      assert x * y == 4 * (i * y) + y;
    }
  }

  lemma {:induction false} GeometricNext(a: nat, n: nat)
    requires n > 0
    ensures Geometric(a, n) == Geometric(a, n - 1) * a + 1
  {
  }

  lemma {:induction false} GeometricParity(a: nat, n: nat)
    requires a % 2 == 1
    ensures Geometric(a, n) % 2 == n % 2
    decreases n
  {
    if n > 0 {
      GeometricParity(a, n - 1);
      ParityStep(a, n);
    }
  }

  lemma {:induction false} ParityStep(a: nat, n: nat)
    requires a % 2 == 1 && n > 0 && Geometric(a, n - 1) % 2 == (n - 1) % 2
    ensures Geometric(a, n) % 2 == n % 2
  {
    hide Geometric;
    var x := Geometric(a, n - 1);
    var y := x * a;
    GeometricNext(a, n);
    assert y % 2 == x % 2 by {
      OddProduct(x, a);
    }
    NextParity(x, y, n);
  }

  lemma {:induction false} NextParity(x: nat, y: nat, n: nat)
    requires n > 0 && y % 2 == x % 2 == (n - 1) % 2
    ensures (y + 1) % 2 == n % 2
  {
  }

  lemma {:induction false} GeometricTwice(a: nat, m: nat)
    requires a % 4 == 1
    ensures Geometric(a, 2 * m) == 2 * (Geometric(a, m) * ((Power(a, m) + 1) / 2)) && (Power(a, m) + 1) / 2 % 2 == 1
  {
    hide *;
    GeometricJoin(a, m, m);
    PowerModulo(a, m);
    TwiceProduct(Power(a, m), Geometric(a, m));
  }

  lemma {:induction false} TwiceProduct(p: nat, g: nat)
    requires p % 4 == 1
    ensures p * g + g == 2 * (g * ((p + 1) / 2)) && (p + 1) / 2 % 2 == 1
  {
    var h := (p + 1) / 2;
    assert p == 2 * h - 1;
    assert p * g == 2 * (g * h) - g;
  }

  /** The sum of n powers is as often even as n. */
  lemma {:induction false} GeometricHalves(a: nat, n: nat, k: nat)
    requires a % 4 == 1
    ensures Halves(Geometric(a, n), k) <==> Halves(n, k)
    decreases k
  {
    hide Geometric, Power;
    if k > 0 {
      GeometricParity(a, n);
      if n % 2 == 0 {
        var m := n / 2;
        var odd := (Power(a, m) + 1) / 2;
        GeometricTwice(a, m);
        HalvesOdd(Geometric(a, m), odd, k - 1);
        GeometricHalves(a, m, k - 1);
      }
    }
  }

  // ----- the generator

  /** The seeds without the reduction. */
  function Unreduced(a: nat, c: nat, s: nat, n: nat): nat {
    if n == 0 then s else a * Unreduced(a, c, s, n - 1) + c
  }

  lemma {:induction false} UnreducedIs(a: nat, c: nat, s: nat, n: nat)
    requires a > 0
    ensures Unreduced(a, c, s, n) == s + Geometric(a, n) * ((a - 1) * s + c)
  {
    if n > 0 {
      UnreducedIs(a, c, s, n - 1);
      UnreducedStep(a, c, s, Geometric(a, n - 1), (a - 1) * s + c);
    }
  }

  lemma {:induction false} UnreducedStep(a: nat, c: nat, s: nat, g: nat, d: int)
    requires d == (a - 1) * s + c
    ensures a * (s + g * d) + c == s + (a * g + 1) * d
  {
    assert a * (s + g * d) == a * s + a * (g * d);
    assert (a * g + 1) * d == a * (g * d) + d by {
      Associate(a, g, d);
    }
    assert (a - 1) * s == a * s - s;
  }

  lemma {:induction false} Associate(a: nat, g: nat, d: int)
    ensures (a * g + 1) * d == a * (g * d) + d
  {
  }

  /** The seed after n calls. */
  function Seeds(s: nat, n: nat): nat {
    if n == 0 then s else NextSeed(Seeds(s, n - 1))
  }

  lemma {:induction false} StepModulo(x: nat)
    ensures (1103515245 * (x % 0x8000_0000) + 12345) % 0x8000_0000 == (1103515245 * x + 12345) % 0x8000_0000
  {
    var q := x / 0x8000_0000;
    assert x == 0x8000_0000 * q + x % 0x8000_0000;
    AddMultiple(1103515245 * (x % 0x8000_0000) + 12345, 1103515245 * q);
  }

  lemma {:induction false} AddMultiple(y: nat, k: nat)
    ensures (y + 0x8000_0000 * k) % 0x8000_0000 == y % 0x8000_0000
  {
  }

  lemma {:induction false} SeedsReduced(s: nat, n: nat)
    requires s < 0x8000_0000
    ensures Seeds(s, n) == Unreduced(1103515245, 12345, s, n) % 0x8000_0000
  {
    if n > 0 {
      SeedsReduced(s, n - 1);
      StepModulo(Unreduced(1103515245, 12345, s, n - 1));
    }
  }

  lemma {:induction false} OddIncrement(s: nat)
    ensures (1103515244 * s + 12345) % 2 == 1
  {
  }

  lemma {:induction false} SameResidue(s: nat, d: nat)
    requires s < 0x8000_0000
    ensures (s + d) % 0x8000_0000 == s <==> d % 0x8000_0000 == 0
  {
  }

  lemma {:induction false} ThirtyOne()
    ensures Pow2(31) == 0x8000_0000
  {
    PowAdd(16, 15);
    PowAdd(8, 8);
    assert Pow2(8) == 256 && Pow2(15) == 0x8000;
  }

  /** The seed comes back exactly after the multiples of 2^31 calls, so that 2^31 successive calls go
      through all seeds of 31 bits. */
  lemma {:induction false} SeedPeriod(s: nat, n: nat)
    requires s < 0x8000_0000
    ensures Seeds(s, n) == s <==> n % 0x8000_0000 == 0
  {
    hide *;
    var a, c := 1103515245, 12345;
    var g, d := Geometric(a, n), 1103515244 * s + 12345;
    SeedsReduced(s, n);
    UnreducedIs(a, c, s, n);
    OddIncrement(s);
    ThirtyOne();
    HalvesOdd(g, d, 31);
    GeometricHalves(a, n, 31);
    HalvesIff(g * d, 31);
    HalvesIff(n, 31);
    SameResidue(s, g * d);
  }

  lemma {:induction false} SeedsJoin(s: nat, m: nat, n: nat)
    ensures Seeds(s, m + n) == Seeds(Seeds(s, m), n)
    decreases n
  {
    hide NextSeed;
    if n > 0 {
      SeedsJoin(s, m, n - 1);
    }
  }

  /** No seed comes twice within 2^31 calls. */
  lemma {:induction false} SeedsDistinct(s: nat, i: nat, j: nat)
    requires s < 0x8000_0000 && i < j < i + 0x8000_0000
    ensures Seeds(s, i) != Seeds(s, j)
  {
    hide Seeds;
    SeedsReduced(s, i);
    SeedsJoin(s, i, j - i);
    SeedPeriod(Seeds(s, i), j - i);
  }
}
