/** What a code detects wherever the flipped bits lie: any odd number of them, if the generator is a
    multiple of x + 1, and any two that are not a period of x apart. */
module CrcDistance {
  import opened Powers
  import opened Gf2
  import opened CrcCode

  /** The number of positions in which two streams differ. */
  function Differences(x: seq<bool>, y: seq<bool>): nat
    requires |x| == |y|
  {
    if x == [] then 0
    else Differences(x[..|x| - 1], y[..|y| - 1]) + Digit(x[|x| - 1] != y[|y| - 1])
  }

  /** The number of terms of a polynomial. */
  function Terms(a: nat): nat {
    if a == 0 then 0 else a % 2 + Terms(a / 2)
  }

  lemma {:induction false} TermsUnfold(a: nat)
    ensures Terms(a) == a % 2 + Terms(a / 2) && Terms(0) == 0
  {
  }

  /** The differing positions are the terms of the difference. */
  lemma {:induction false} DifferenceTerms(x: seq<bool>, y: seq<bool>)
    requires |x| == |y|
    ensures Terms(Xor(Number(x), Number(y))) == Differences(x, y)
    decreases |x|
  {
    hide Xor, Number, Terms;
    TermsUnfold(Xor(Number(x), Number(y)));
    if x == [] {
      NoDifference(x, y);
    } else {
      DifferenceTerms(x[..|x| - 1], y[..|y| - 1]);
      LastDifference(x, y);
    }
  }

  // ----- odd numbers of bits

  lemma {:induction false} TermsDouble(a: nat)
    ensures Terms(2 * a) == Terms(a)
  {
    hide Terms;
    TermsUnfold(2 * a);
    assert 2 * a / 2 == a;
  }

  lemma {:induction false} AddParities(i: nat, j: nat, p: nat, q: nat, r: nat)
    requires r % 2 == (p + q) % 2
    ensures ((i + j) % 2 + r) % 2 == (i + p + (j + q)) % 2
  {
  }

  lemma {:induction false} TermsXor(a: nat, b: nat)
    ensures Terms(Xor(a, b)) % 2 == (Terms(a) + Terms(b)) % 2
    decreases a + b
  {
    hide *;
    TermsUnfold(a);
    TermsUnfold(b);
    if a == 0 || b == 0 {
      NoTerms(a, b);
    } else {
      XorUnfold(a, b);
      TermsUnfold(Xor(a, b));
      TermsXor(a / 2, b / 2);
      AddParities(a % 2, b % 2, Terms(a / 2), Terms(b / 2), Terms(Xor(a / 2, b / 2)));
    }
  }

  lemma {:induction false} NoTerms(a: nat, b: nat)
    requires a == 0 || b == 0
    ensures Terms(Xor(a, b)) == Terms(a) + Terms(b)
  {
  }

  /** A polynomial with an even number of terms has only such multiples: it is one of x + 1. */
  lemma {:induction false} TermsMul(g: nat, q: nat)
    requires Terms(g) % 2 == 0
    ensures Terms(Mul(g, q)) % 2 == 0
    decreases q
  {
    hide Xor, Terms;
    TermsUnfold(0);
    if q > 0 {
      TermsMul(g, q / 2);
      TermsDouble(Mul(g, q / 2));
      TermsXor(Low(g, q), 2 * Mul(g, q / 2));
    }
  }

  /** An odd number of flipped bits never goes unnoticed. */
  lemma {:induction false} OddDetected(x: seq<bool>, y: seq<bool>, w: nat, g: nat)
    requires Generator(g, w) && Terms(g) % 2 == 0 && |x| == |y| && Differences(x, y) % 2 == 1
    ensures Remainder(x, w, g) != Remainder(y, w, g)
  {
    hide Terms, Xor, Number, Remainder, Differences, Mul;
    var d := Xor(Number(x), Number(y));
    SameCode(x, y, w, g);
    DifferenceTerms(x, y);
    if Divides(g, d) {
      var q: nat :| Mul(q, g) == d;
      MulComm(q, g);
      TermsMul(g, q);
    }
  }

  // ----- two bits

  /** x^n is 1 modulo g. */
  ghost predicate Period(n: nat, g: nat) {
    Divides(g, Xor(Shl(1, n), 1))
  }

  lemma {:induction false} OneDifference(x: seq<bool>, y: seq<bool>) returns (k: nat)
    requires |x| == |y| && Differences(x, y) == 1
    ensures k < |x| && Xor(Number(x), Number(y)) == Shl(1, k)
    decreases |x|
  {
    hide Xor, Number;
    var x', y' := x[..|x| - 1], y[..|y| - 1];
    LastDifference(x, y);
    if x[|x| - 1] != y[|y| - 1] {
      NoneDiffer(x', y');
      k := 0;
    } else {
      k := OneDifference(x', y');
      k := k + 1;
    }
  }

  lemma {:induction false} NoneDiffer(x: seq<bool>, y: seq<bool>)
    requires |x| == |y| && Differences(x, y) == 0
    ensures x == y && Xor(Number(x), Number(y)) == 0
    decreases |x|
  {
    hide Xor, Number;
    if x != [] {
      NoneDiffer(x[..|x| - 1], y[..|y| - 1]);
      assert x == x[..|x| - 1] + [x[|x| - 1]] && y == y[..|y| - 1] + [y[|y| - 1]];
    }
    NoDifference(x, y);
  }

  /** Two flipped bits, d apart. */
  lemma {:induction false} TwoDifferences(x: seq<bool>, y: seq<bool>) returns (d: nat, k: nat)
    requires |x| == |y| && Differences(x, y) == 2
    ensures 0 < d < |x| && Xor(Number(x), Number(y)) == Shl(Xor(Shl(1, d), 1), k)
    decreases |x|
  {
    hide Xor, Number;
    var x', y' := x[..|x| - 1], y[..|y| - 1];
    LastDifference(x, y);
    if x[|x| - 1] != y[|y| - 1] {
      k := OneDifference(x', y');
      d, k := k + 1, 0;
      LowOne(Shl(1, d - 1), Xor(Number(x), Number(y)));
    } else {
      d, k := TwoDifferences(x', y');
      k := k + 1;
    }
  }

  lemma {:induction false} LowOne(a: nat, b: nat)
    requires b % 2 == 1 && b / 2 == a
    ensures b == Xor(2 * a, 1)
  {
    hide Xor;
    XorUnfold(2 * a, 1);
    XorByParts(0, a, 1, 0, 2 * a, 1, 1 + 2 * Xor(a, 0));
    XorZeroRight(a);
  }

  lemma {:induction false} XorZeroRight(a: nat)
    ensures Xor(a, 0) == a
  {
  }

  /** Two flipped bits go unnoticed only if they are a period of x apart. */
  lemma {:induction false} TwoDetected(x: seq<bool>, y: seq<bool>, w: nat, g: nat)
    requires Generator(g, w) && |x| == |y| && Differences(x, y) == 2
    requires forall d :: 0 < d < |x| ==> !Period(d, g)
    ensures Remainder(x, w, g) != Remainder(y, w, g)
  {
    hide Xor, Number, Remainder, Differences, Divides, Shl;
    var d, k := TwoDifferences(x, y);
    SameCode(x, y, w, g);
    ShiftCancels(Xor(Shl(1, d), 1), k, g);
    assert !Period(d, g);
  }

  // ----- periods

  /** x^(a + b) + 1 = x^b (x^a + 1) + (x^b + 1) */
  lemma {:induction false} PeriodJoin(a: nat, b: nat)
    ensures Xor(Shl(1, a + b), 1) == Xor(Shl(Xor(Shl(1, a), 1), b), Xor(Shl(1, b), 1))
  {
    hide Xor, Shl;
    ShlXor(Shl(1, a), 1, b);
    ShlShl(1, a, b);
    var u, v := Shl(1, a + b), Shl(1, b);
    XorAssoc(u, v, Xor(v, 1));
    XorCancel(1, v);
  }

  lemma {:induction false} PeriodAdd(a: nat, b: nat, g: nat)
    requires g % 2 == 1 && Period(b, g)
    ensures Period(a + b, g) <==> Period(a, g)
  {
    hide Xor, Shl, Divides;
    var p, q, r := Shl(Xor(Shl(1, a), 1), b), Xor(Shl(1, b), 1), Xor(Shl(1, a + b), 1);
    PeriodJoin(a, b);
    ShiftCancels(Xor(Shl(1, a), 1), b, g);
    XorCancel(p, q);
    if Period(a, g) {
      DividesXor(g, p, q);
    }
    if Period(a + b, g) {
      DividesXor(g, r, q);
    }
  }

  lemma {:induction false} PeriodZero(g: nat)
    ensures Period(0, g)
  {
    XorSelf(1);
    DividesSelf(g, 0);
  }

  lemma {:induction false} PeriodMultiple(q: nat, r: nat, g: nat)
    requires g % 2 == 1 && Period(r, g)
    ensures Period(q * r, g)
  {
    hide Period;
    if q == 0 {
      PeriodZero(g);
    } else {
      PeriodMultiple(q - 1, r, g);
      PeriodAdd((q - 1) * r, r, g);
      assert (q - 1) * r + r == q * r;
    }
  }

  /** Two periods are multiples of a common one, their greatest common divisor. */
  lemma {:induction false} CommonPeriod(a: nat, b: nat, g: nat) returns (r: nat, p: nat, q: nat)
    requires g % 2 == 1 && a > 0 && b > 0 && Period(a, g) && Period(b, g)
    ensures Period(r, g) && a == p * r && b == q * r
    decreases a + b
  {
    hide Period;
    if a == b {
      r, p, q := a, 1, 1;
    } else if a > b {
      PeriodAdd(a - b, b, g);
      r, p, q := CommonPeriod(a - b, b, g);
      Distribute(p, q, r);
      p := p + q;
    } else {
      PeriodAdd(b - a, a, g);
      r, p, q := CommonPeriod(a, b - a, g);
      Distribute(p, q, r);
      q := p + q;
    }
  }

  lemma {:induction false} Distribute(p: nat, q: nat, r: nat)
    ensures (p + q) * r == p * r + q * r
  {
  }
}
