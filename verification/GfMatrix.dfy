/** Matrices over GF(2^8) with four columns: a row times (a matrix times a column) is (the row times
    the matrix) times the column. Elements are polynomials written as numbers. */
module GfMatrix {
  import opened Gf2
  import opened GfByte
  import Powers

  datatype Vec = Vec(x0: nat, x1: nat, x2: nat, x3: nat)

  /** The product in the field. */
  function F(a: nat, b: nat): nat {
    PolynomialLength();
    MulMod(a, b, POLYNOMIAL)
  }

  function Sum(v: Vec): nat {
    Xor(Xor(v.x0, v.x1), Xor(v.x2, v.x3))
  }

  function Dot(r: Vec, c: Vec): nat {
    Sum(Vec(F(r.x0, c.x0), F(r.x1, c.x1), F(r.x2, c.x2), F(r.x3, c.x3)))
  }

  /** The sums of the columns of four rows. */
  function ColumnSums(a: Vec, b: Vec, c: Vec, d: Vec): Vec {
    Vec(Sum(Vec(a.x0, b.x0, c.x0, d.x0)), Sum(Vec(a.x1, b.x1, c.x1, d.x1)),
        Sum(Vec(a.x2, b.x2, c.x2, d.x2)), Sum(Vec(a.x3, b.x3, c.x3, d.x3)))
  }

  function Add(u: Vec, v: Vec): Vec {
    Vec(Xor(u.x0, v.x0), Xor(u.x1, v.x1), Xor(u.x2, v.x2), Xor(u.x3, v.x3))
  }

  lemma {:induction false} SumAdd(u: Vec, v: Vec)
    ensures Sum(Add(u, v)) == Xor(Sum(u), Sum(v))
  {
    XorSwap(u.x0, v.x0, u.x1, v.x1);
    XorSwap(u.x2, v.x2, u.x3, v.x3);
    XorSwap(Xor(u.x0, u.x1), Xor(v.x0, v.x1), Xor(u.x2, u.x3), Xor(v.x2, v.x3));
  }

  /** Summing rows first or columns first gives the same. */
  lemma {:induction false} SumOfSums(a: Vec, b: Vec, c: Vec, d: Vec)
    ensures Sum(ColumnSums(a, b, c, d)) == Sum(Vec(Sum(a), Sum(b), Sum(c), Sum(d)))
  {
    SumAdd(a, b);
    SumAdd(c, d);
    SumAdd(Add(a, b), Add(c, d));
    assert ColumnSums(a, b, c, d) == Add(Add(a, b), Add(c, d));
  }

  function Scale(k: nat, v: Vec): Vec {
    Vec(F(k, v.x0), F(k, v.x1), F(k, v.x2), F(k, v.x3))
  }

  lemma {:induction false} TimesSum(k: nat, v: Vec)
    ensures F(k, Sum(v)) == Sum(Scale(k, v))
  {
    PolynomialLength();
    MulModXor(k, v.x0, v.x1, POLYNOMIAL);
    MulModXor(k, v.x2, v.x3, POLYNOMIAL);
    MulModXor(k, Xor(v.x0, v.x1), Xor(v.x2, v.x3), POLYNOMIAL);
  }

  lemma {:induction false} SumTimes(v: Vec, k: nat)
    ensures F(Sum(v), k) == Sum(Vec(F(v.x0, k), F(v.x1, k), F(v.x2, k), F(v.x3, k)))
  {
    PolynomialLength();
    TimesSum(k, v);
    MulModComm(Sum(v), k, POLYNOMIAL);
    MulModComm(v.x0, k, POLYNOMIAL);
    MulModComm(v.x1, k, POLYNOMIAL);
    MulModComm(v.x2, k, POLYNOMIAL);
    MulModComm(v.x3, k, POLYNOMIAL);
  }

  function Times4(u: Vec, v: Vec): Vec {
    Vec(F(u.x0, v.x0), F(u.x1, v.x1), F(u.x2, v.x2), F(u.x3, v.x3))
  }

  /** k * (row . column) = ((k * row) . column) */
  lemma {:induction false} TimesDot(k: nat, m: Vec, c: Vec)
    ensures F(k, Dot(m, c)) == Sum(Times4(Scale(k, m), c))
  {
    PolynomialLength();
    TimesSum(k, Times4(m, c));
    MulModAssoc(k, m.x0, c.x0, POLYNOMIAL);
    MulModAssoc(k, m.x1, c.x1, POLYNOMIAL);
    MulModAssoc(k, m.x2, c.x2, POLYNOMIAL);
    MulModAssoc(k, m.x3, c.x3, POLYNOMIAL);
  }

  /** The row r times the matrix with rows m0 to m3. */
  function RowTimes(r: Vec, m0: Vec, m1: Vec, m2: Vec, m3: Vec): Vec {
    ColumnSums(Scale(r.x0, m0), Scale(r.x1, m1), Scale(r.x2, m2), Scale(r.x3, m3))
  }

  lemma {:induction false} DotAssoc(r: Vec, m0: Vec, m1: Vec, m2: Vec, m3: Vec, c: Vec)
    ensures Dot(r, Vec(Dot(m0, c), Dot(m1, c), Dot(m2, c), Dot(m3, c))) == Dot(RowTimes(r, m0, m1, m2, m3), c)
  {
    var a0, a1, a2, a3 := Scale(r.x0, m0), Scale(r.x1, m1), Scale(r.x2, m2), Scale(r.x3, m3);
    TimesDot(r.x0, m0, c);
    TimesDot(r.x1, m1, c);
    TimesDot(r.x2, m2, c);
    TimesDot(r.x3, m3, c);
    SumOfSums(Times4(a0, c), Times4(a1, c), Times4(a2, c), Times4(a3, c));
    SumTimes(Vec(a0.x0, a1.x0, a2.x0, a3.x0), c.x0);
    SumTimes(Vec(a0.x1, a1.x1, a2.x1, a3.x1), c.x1);
    SumTimes(Vec(a0.x2, a1.x2, a2.x2, a3.x2), c.x2);
    SumTimes(Vec(a0.x3, a1.x3, a2.x3, a3.x3), c.x3);
  }

  lemma {:induction false} UnitDot(c: Vec)
    requires c.x0 < 256 && c.x1 < 256 && c.x2 < 256 && c.x3 < 256
    ensures Dot(Vec(1, 0, 0, 0), c) == c.x0
  {
    OneTimes(c.x0);
    ZeroTimes(c.x1);
    ZeroTimes(c.x2);
    ZeroTimes(c.x3);
  }

  lemma {:induction false} OneTimes(x: nat)
    requires x < 256
    ensures F(1, x) == x
  {
    MulOne(x);
    ShortRem(x);
  }

  lemma {:induction false} ZeroTimes(x: nat)
    ensures F(0, x) == 0
  {
    MulZero(x);
    ShortRem(0);
  }

  lemma {:induction false} ShortRem(x: nat)
    requires x < 256
    ensures Rem(x, POLYNOMIAL) == x
  {
    assert Powers.Pow2(8) == 256;
    BitLenBound(x, 8);
    PolynomialLength();
  }
}
