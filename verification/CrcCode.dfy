/** Cyclic redundancy codes as remainders: a stream of bits is the polynomial whose coefficients are
    the bits, highest first, and its code of w bits is the remainder of that polynomial times x^w by
    the generator g. */
module CrcCode {
  import opened Powers
  import opened Gf2
  import opened GfLong

  function Digit(b: bool): (d: nat)
    ensures d < 2
  {
    if b then 1 else 0
  }

  /** The polynomial of a stream. */
  function Number(x: seq<bool>): nat {
    if x == [] then 0 else Digit(x[|x| - 1]) + 2 * Number(x[..|x| - 1])
  }

  function Remainder(x: seq<bool>, w: nat, g: nat): nat
    requires g > 0
  {
    Rem(Shl(Number(x), w), g)
  }

  /** The generator of a code of w bits: degree w, and not a multiple of x. */
  predicate Generator(g: nat, w: nat) {
    w > 0 && g % 2 == 1 && BitLen(g) == w + 1
  }

  /** A w-bit shift register, fed one bit at a time. */
  function Serial(r: nat, x: seq<bool>, w: nat, g: nat): nat
    requires w > 0
  {
    if x == [] then r
    else TimesX(Xor(Serial(r, x[..|x| - 1], w, g), Shl(Digit(x[|x| - 1]), w - 1)), w, g)
  }

  // ----- the shift register computes the remainder

  lemma {:induction false} ShlXor(a: nat, b: nat, n: nat)
    ensures Shl(Xor(a, b), n) == Xor(Shl(a, n), Shl(b, n))
  {
    if n > 0 {
      ShlXor(a, b, n - 1);
      XorDouble(Shl(a, n - 1), Shl(b, n - 1));
    }
  }

  lemma {:induction false} ShlShl(a: nat, m: nat, n: nat)
    ensures Shl(Shl(a, m), n) == Shl(a, m + n)
  {
    if n > 0 {
      ShlShl(a, m, n - 1);
    }
  }

  lemma {:induction false} DigitBits(b: bool, n: nat)
    ensures BitLen(Shl(Digit(b), n)) <= n + 1
  {
    if b {
      ShlBitLen(1, n);
    } else {
      ShlZero(n);
    }
  }

  /** The polynomial of a stream with one more bit. */
  lemma {:induction false} NumberSnoc(x: seq<bool>, b: bool)
    ensures Number(x + [b]) == Xor(2 * Number(x), Digit(b))
  {
    assert (x + [b])[..|x|] == x;
    XorUnfold(2 * Number(x), Digit(b));
    SameDigits(Number(x + [b]), Xor(2 * Number(x), Digit(b)));
  }

  /** x^w times it. */
  lemma {:induction false} ShiftedSnoc(x: seq<bool>, b: bool, w: nat)
    requires w > 0
    ensures Shl(Number(x + [b]), w) == 2 * Xor(Shl(Number(x), w), Shl(Digit(b), w - 1))
  {
    hide Number, Xor;
    NumberSnoc(x, b);
    ShlXor(2 * Number(x), Digit(b), w);
    ShlDouble(Number(x), w);
    XorDouble(Shl(Number(x), w), Shl(Digit(b), w - 1));
  }

  lemma {:induction false} RemDoubled(a: nat, b: nat, g: nat)
    requires g > 0 && Rem(a, g) == Rem(b, g)
    ensures Rem(2 * a, g) == Rem(2 * b, g)
  {
    hide Rem;
    TwiceIs(a);
    TwiceIs(b);
    MulModRem(a, 2, g);
    MulModRem(b, 2, g);
  }

  lemma {:induction false} TwiceIs(a: nat)
    ensures Mul(a, 2) == 2 * a
  {
    MulOne(a);
    MulDoubleRight(a, 1);
  }

  lemma {:induction false} RemReduced(a: nat, g: nat)
    requires BitLen(a) < BitLen(g)
    ensures g > 0 && Rem(a, g) == a
  {
  }

  /** One more bit. */
  lemma {:induction false} SerialStep(r: nat, n: nat, b: bool, w: nat, g: nat)
    requires w > 0 && BitLen(g) == w + 1 && r == Rem(n, g) && BitLen(r) <= w
    ensures var s := TimesX(Xor(r, Shl(Digit(b), w - 1)), w, g);
            s == Rem(2 * Xor(n, Shl(Digit(b), w - 1)), g) && BitLen(s) <= w
  {
    hide Rem, Xor, TimesX, Shl;
    var top := Shl(Digit(b), w - 1);
    DigitBits(b, w - 1);
    XorBitLenMax(r, top, w);
    TimesXReduces(Xor(r, top), w, g);
    RemReduced(r, g);
    RemXor(n, top, g);
    RemXor(r, top, g);
    RemDoubled(Xor(r, top), Xor(n, top), g);
  }

  /** x^w times a stream, plus what was in the register before it. */
  function Dividend(r: nat, x: seq<bool>, w: nat): nat {
    Xor(Shl(Number(x), w), Shl(r, |x|))
  }

  lemma {:induction false} DividendSnoc(r: nat, x: seq<bool>, b: bool, w: nat)
    requires w > 0
    ensures Dividend(r, x + [b], w) == 2 * Xor(Dividend(r, x, w), Shl(Digit(b), w - 1))
  {
    hide Number, Xor, Shl;
    ShiftedSnoc(x, b, w);
    var n, top, rest := Shl(Number(x), w), Shl(Digit(b), w - 1), Shl(r, |x|);
    ShlNext(r, |x|);
    XorDouble(Xor(n, top), rest);
    XorAssoc(n, top, rest);
    XorComm(top, rest);
    XorAssoc(n, rest, top);
  }

  lemma {:induction false} ShlNext(a: nat, n: nat)
    ensures 2 * Shl(a, n) == Shl(a, n + 1) && Shl(a, 0) == a
  {
  }

  /** The shift register computes the remainder of the dividend, one bit after the other. */
  lemma {:induction false} SerialDivides(r: nat, x: seq<bool>, w: nat, g: nat)
    requires w > 0 && BitLen(g) == w + 1 && BitLen(r) <= w
    ensures Serial(r, x, w, g) == Rem(Dividend(r, x, w), g)
    ensures BitLen(Serial(r, x, w, g)) <= w
    decreases |x|
  {
    hide Rem, Xor, TimesX, Number, Shl, Dividend;
    if x == [] {
      EmptyDividend(r, w, g);
    } else {
      var y, b := x[..|x| - 1], x[|x| - 1];
      assert x == y + [b];
      SerialDivides(r, y, w, g);
      SerialStep(Serial(r, y, w, g), Dividend(r, y, w), b, w, g);
      DividendSnoc(r, y, b, w);
    }
  }

  lemma {:induction false} EmptyDividend(r: nat, w: nat, g: nat)
    requires BitLen(g) == w + 1 && BitLen(r) <= w
    ensures g > 0 && Rem(Dividend(r, [], w), g) == r
  {
    hide Rem;
    ShlZero(w);
    RemReduced(r, g);
  }

  /** Started from 0, it computes the code of the stream. */
  lemma {:induction false} SerialIsRemainder(x: seq<bool>, w: nat, g: nat)
    requires w > 0 && BitLen(g) == w + 1
    ensures Serial(0, x, w, g) == Remainder(x, w, g)
    ensures BitLen(Serial(0, x, w, g)) <= w
  {
    hide Rem, Serial, Shl;
    SerialDivides(0, x, w, g);
    ShlZero(|x|);
    XorComm(Shl(Number(x), w), 0);
    XorStart(Shl(Number(x), w));
  }

  lemma {:induction false} EmptyStream(w: nat, g: nat)
    requires BitLen(g) == w + 1
    ensures Shl(Number([]), w) == 0 && g > 0 && Rem(0, g) == 0 && BitLen(0) == 0
  {
    ShlZero(w);
  }

  lemma {:induction false} SerialJoin(r: nat, x: seq<bool>, y: seq<bool>, w: nat, g: nat)
    requires w > 0
    ensures Serial(r, x + y, w, g) == Serial(Serial(r, x, w, g), y, w, g)
    decreases |y|
  {
    hide TimesX, Xor, Shl;
    if y == [] {
      assert x + y == x;
    } else {
      assert (x + y)[..|x + y| - 1] == x + y[..|y| - 1];
      SerialJoin(r, x, y[..|y| - 1], w, g);
    }
  }

  lemma {:induction false} RemShifted(a: nat, b: nat, n: nat, g: nat)
    requires g > 0 && Rem(a, g) == Rem(b, g)
    ensures Rem(Shl(a, n), g) == Rem(Shl(b, n), g)
  {
    hide Rem;
    if n > 0 {
      RemShifted(a, b, n - 1, g);
      RemDoubled(Shl(a, n - 1), Shl(b, n - 1), g);
    }
  }

  // ----- a stream followed by its code

  /** The polynomial of a stream followed by another. */
  lemma {:induction false} NumberJoin(x: seq<bool>, y: seq<bool>)
    ensures Number(x + y) == Xor(Shl(Number(x), |y|), Number(y))
    decreases |y|
  {
    if y == [] {
      assert x + y == x;
    } else {
      var y', b := y[..|y| - 1], y[|y| - 1];
      assert x + y == (x + y') + [b];
      assert y == y' + [b];
      NumberJoin(x, y');
      JoinStep(Number(x), Number(y'), |y'|, Digit(b), Number(x + y'), x + y', y', b);
    }
  }

  lemma {:induction false} JoinStep(n: nat, m: nat, k: nat, d: nat, nm: nat, xy: seq<bool>, y: seq<bool>, b: bool)
    requires nm == Xor(Shl(n, k), m) && d == Digit(b) && nm == Number(xy) && m == Number(y)
    ensures Number(xy + [b]) == Xor(Shl(n, k + 1), Number(y + [b]))
  {
    hide Number, Xor;
    NumberSnoc(xy, b);
    NumberSnoc(y, b);
    XorDouble(Shl(n, k), m);
    XorAssoc(2 * Shl(n, k), 2 * m, d);
  }

  lemma {:induction false} NumberBits(x: seq<bool>)
    ensures BitLen(Number(x)) <= |x|
    decreases |x|
  {
    if x != [] {
      NumberBits(x[..|x| - 1]);
    }
  }

  /** The w bits that follow a stream are its code exactly when the whole has remainder 0: comparing
      the code and running it through the register are the same test. */
  lemma {:induction false} CodeAppended(x: seq<bool>, c: seq<bool>, w: nat, g: nat)
    requires Generator(g, w) && |c| == w
    ensures Remainder(x + c, w, g) == 0 <==> Number(c) == Remainder(x, w, g)
  {
    hide Rem, Xor, Number, Shl, Divides;
    var n := Shl(Number(x), w);
    NumberJoin(x, c);
    NumberBits(c);
    RemReduced(Number(c), g);
    RemXor(n, Number(c), g);
    XorZero(Rem(n, g), Number(c));
    RemDivides(Xor(n, Number(c)), g);
    RemDivides(Shl(Xor(n, Number(c)), w), g);
    ShiftCancels(Xor(n, Number(c)), w, g);
  }

  /** x does not divide g, so a factor x^n can be cancelled. */
  lemma {:induction false} ShiftCancels(a: nat, n: nat, g: nat)
    requires g % 2 == 1
    ensures Divides(g, Shl(a, n)) <==> Divides(g, a)
  {
    hide Divides, Rem;
    if n > 0 {
      DoubleCancels(Shl(a, n - 1), g);
      ShiftCancels(a, n - 1, g);
    }
  }

  lemma {:induction false} DoubleCancels(a: nat, g: nat)
    requires g % 2 == 1
    ensures Divides(g, 2 * a) <==> Divides(g, a)
  {
    if Divides(g, 2 * a) {
      var q: nat :| Mul(q, g) == 2 * a;
      LowDigit(q, g);
      MulDoubleLeft(q / 2, g);
      assert Mul(q / 2, g) == a;
    }
    if Divides(g, a) {
      var q: nat :| Mul(q, g) == a;
      MulDoubleLeft(q, g);
      assert Mul(2 * q, g) == 2 * a;
    }
  }

  /** The low digit of a product with an odd factor. */
  lemma {:induction false} LowDigit(q: nat, g: nat)
    requires g % 2 == 1
    ensures Mul(q, g) % 2 == q % 2
  {
    XorUnfold(q, 2 * Mul(q, g / 2));
  }

  // ----- bursts

  /** Two streams of one length that differ only in the n bits from the given position on. */
  predicate DifferWithin(x: seq<bool>, y: seq<bool>, from: nat, n: nat) {
    |x| == |y| && forall i :: 0 <= i < |x| && !(from <= i < from + n) ==> x[i] == y[i]
  }

  lemma {:induction false} LastDifference(x: seq<bool>, y: seq<bool>)
    requires |x| == |y| > 0
    ensures var d, b := Xor(Number(x), Number(y)), x[|x| - 1] != y[|y| - 1];
            d / 2 == Xor(Number(x[..|x| - 1]), Number(y[..|y| - 1])) && d % 2 == Digit(b)
  {
    hide Xor;
    XorUnfold(Number(x), Number(y));
  }

  lemma {:induction false} NoDifference(x: seq<bool>, y: seq<bool>)
    requires x == y
    ensures Xor(Number(x), Number(y)) == 0
  {
    XorSelf(Number(x));
  }

  lemma {:induction false} SameNumber(x: seq<bool>, y: seq<bool>)
    requires |x| == |y|
    ensures Xor(Number(x), Number(y)) == 0 <==> x == y
    decreases |x|
  {
    hide Xor, Number;
    if x == [] {
      NoDifference(x, y);
    } else {
      var x', y' := x[..|x| - 1], y[..|y| - 1];
      SameNumber(x', y');
      LastDifference(x, y);
      assert x == x' + [x[|x| - 1]] && y == y' + [y[|y| - 1]];
    }
  }

  /** Streams that agree on the first bits have a short difference. */
  lemma {:induction false} ShortDifference(x: seq<bool>, y: seq<bool>, from: nat)
    requires |x| == |y| && from <= |x| && x[..from] == y[..from]
    ensures BitLen(Xor(Number(x), Number(y))) <= |x| - from
    decreases |x|
  {
    hide Xor, Number;
    if |x| == from {
      assert x == x[..from] && y == y[..from];
      NoDifference(x, y);
    } else {
      var x', y' := x[..|x| - 1], y[..|y| - 1];
      assert x'[..from] == x[..from] && y'[..from] == y[..from];
      ShortDifference(x', y', from);
      LastDifference(x, y);
    }
  }

  /** A difference inside a window of n bits is x^k times a polynomial of at most n bits. */
  lemma {:induction false} Burst(x: seq<bool>, y: seq<bool>, from: nat, n: nat) returns (e: nat, k: nat)
    requires DifferWithin(x, y, from, n)
    ensures Xor(Number(x), Number(y)) == Shl(e, k) && BitLen(e) <= n
    decreases |x|
  {
    hide Xor, Number;
    if |x| <= from {
      NoDifference(x, y);
      e, k := 0, 0;
    } else if |x| <= from + n {
      ShortDifference(x, y, from);
      e, k := Xor(Number(x), Number(y)), 0;
    } else {
      e, k := Burst(x[..|x| - 1], y[..|y| - 1], from, n);
      LastDifference(x, y);
      k := k + 1;
    }
  }

  /** Two streams have the same code exactly if the generator divides their difference. */
  lemma {:induction false} SameCode(x: seq<bool>, y: seq<bool>, w: nat, g: nat)
    requires Generator(g, w)
    ensures Remainder(x, w, g) == Remainder(y, w, g) <==> Divides(g, Xor(Number(x), Number(y)))
  {
    hide Rem, Xor, Number, Shl, Divides, BitLen;
    RemCongruent(Shl(Number(x), w), Shl(Number(y), w), g);
    ShlXor(Number(x), Number(y), w);
    ShiftCancels(Xor(Number(x), Number(y)), w, g);
  }

  /** No burst of up to w bits goes unnoticed: two different streams of one length that differ only
      inside a window of w bits have different codes. */
  lemma {:induction false} BurstDetected(x: seq<bool>, y: seq<bool>, from: nat, w: nat, g: nat)
    requires Generator(g, w) && DifferWithin(x, y, from, w) && x != y
    ensures Remainder(x, w, g) != Remainder(y, w, g)
  {
    hide Remainder, Xor, Number, Shl, Divides, BitLen;
    var e, k := Burst(x, y, from, w);
    SameNumber(x, y);
    SameCode(x, y, w, g);
    ShiftCancels(e, k, g);
    BurstNonzero(e, k);
    NotDivided(e, g);
  }

  /** That holds whatever the register was started with. */
  lemma {:induction false} BurstDetectedFrom(r: nat, x: seq<bool>, y: seq<bool>, from: nat, w: nat, g: nat)
    requires Generator(g, w) && BitLen(r) <= w && DifferWithin(x, y, from, w) && x != y
    ensures Serial(r, x, w, g) != Serial(r, y, w, g)
  {
    hide Rem, Xor, Number, Shl, BitLen, Serial;
    SerialDivides(r, x, w, g);
    SerialDivides(r, y, w, g);
    var a, b, c := Shl(Number(x), w), Shl(Number(y), w), Shl(r, |x|);
    BurstDetected(x, y, from, w, g);
    RemXor(a, c, g);
    RemXor(b, c, g);
    XorCancel(Rem(a, g), Rem(c, g));
    XorCancel(Rem(b, g), Rem(c, g));
  }

  lemma {:induction false} BurstNonzero(e: nat, k: nat)
    ensures Shl(e, k) == 0 <==> e == 0
  {
    if k > 0 {
      BurstNonzero(e, k - 1);
    }
  }

  lemma {:induction false} NotDivided(e: nat, g: nat)
    requires e > 0 && BitLen(e) < BitLen(g)
    ensures !Divides(g, e)
  {
    if Divides(g, e) {
      DividesShort(g, e);
    }
  }
}
