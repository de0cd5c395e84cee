/** The round transformations of AES on a 16-byte state (sections 5.1 and 5.3 of FIPS 197) and
    the proof that each inverse transformation undoes its forward one, in both orders. Byte
    (row, col) of the state is at index 4 * row + col. */
module AesRounds {
  import opened GfByte
  import opened AesTables
  import opened GfMatrix
  import Gf2

  type State = s: seq<bv8> | |s| == 16 witness [0, 0, 0, 0, 0, 0, 0, 0, 0, 0, 0, 0, 0, 0, 0, 0]

  // ----- SubBytes

  function SubBytes(s: State): (t: State)
    ensures forall i :: 0 <= i < 16 ==> t[i] == Sbox(s[i])
  {
    seq(16, i requires 0 <= i < 16 => Sbox(s[i]))
  }

  function InvSubBytes(s: State): (t: State)
    ensures forall i :: 0 <= i < 16 ==> t[i] == Rsbox(s[i])
  {
    seq(16, i requires 0 <= i < 16 => Rsbox(s[i]))
  }

  lemma SubBytesInverse(s: State)
    ensures InvSubBytes(SubBytes(s)) == s && SubBytes(InvSubBytes(s)) == s
  {
    forall i | 0 <= i < 16
      ensures Rsbox(Sbox(s[i])) == s[i] && Sbox(Rsbox(s[i])) == s[i]
    {
      SboxInverse(s[i]);
      RsboxInverse(s[i]);
    }
  }

  // ----- ShiftRows

  /** Where the byte that comes to index i is taken from: row r rotates left by r. */
  function LeftFrom(i: nat): (j: nat)
    requires i < 16
    ensures j < 16
  {
    4 * (i / 4) + (i % 4 + i / 4) % 4
  }

  function RightFrom(i: nat): (j: nat)
    requires i < 16
    ensures j < 16
  {
    4 * (i / 4) + (i % 4 - i / 4 + 4) % 4
  }

  lemma Index(row: nat, col: nat)
    requires row < 4 && col < 4
    ensures (4 * row + col) / 4 == row && (4 * row + col) % 4 == col
  {
  }

  lemma Rotations(row: nat, col: nat)
    requires row < 4 && col < 4
    ensures ((col - row + 4) % 4 + row) % 4 == col && ((col + row) % 4 - row + 4) % 4 == col
  {
  }

  lemma LeftRight(i: nat)
    requires i < 16
    ensures LeftFrom(RightFrom(i)) == i && RightFrom(LeftFrom(i)) == i
  {
    hide LeftFrom, RightFrom;
    var row, col := i / 4, i % 4;
    assert i == 4 * row + col;
    FromAt(row, col);
    FromAt(row, (col - row + 4) % 4);
    FromAt(row, (col + row) % 4);
    Rotations(row, col);
  }

  lemma FromAt(row: nat, col: nat)
    requires row < 4 && col < 4
    ensures LeftFrom(4 * row + col) == 4 * row + (col + row) % 4
    ensures RightFrom(4 * row + col) == 4 * row + (col - row + 4) % 4
  {
    Index(row, col);
  }

  function ShiftRows(s: State): (t: State)
    ensures forall i :: 0 <= i < 16 ==> t[i] == s[LeftFrom(i)]
  {
    seq(16, i requires 0 <= i < 16 => s[LeftFrom(i)])
  }

  function InvShiftRows(s: State): (t: State)
    ensures forall i :: 0 <= i < 16 ==> t[i] == s[RightFrom(i)]
  {
    seq(16, i requires 0 <= i < 16 => s[RightFrom(i)])
  }

  lemma ShiftRowsInverse(s: State)
    ensures InvShiftRows(ShiftRows(s)) == s && ShiftRows(InvShiftRows(s)) == s
  {
    forall i | 0 <= i < 16
      ensures InvShiftRows(ShiftRows(s))[i] == s[i] && ShiftRows(InvShiftRows(s))[i] == s[i]
    {
      LeftRight(i);
    }
  }

  // ----- AddRoundKey

  function AddRoundKey(s: State, k: State): (t: State)
    ensures forall i :: 0 <= i < 16 ==> t[i] == s[i] ^ k[i]
  {
    seq(16, i requires 0 <= i < 16 => s[i] ^ k[i])
  }

  lemma XorTwice(x: bv8, y: bv8)
    ensures (x ^ y) ^ y == x
  {
  }

  lemma AddRoundKeyInverse(s: State, k: State)
    ensures AddRoundKey(AddRoundKey(s, k), k) == s
  {
    forall i | 0 <= i < 16
      ensures (s[i] ^ k[i]) ^ k[i] == s[i]
    {
      XorTwice(s[i], k[i]);
    }
  }

  // ----- MixColumns

  datatype Column = Column(a0: bv8, a1: bv8, a2: bv8, a3: bv8) {
    /** The column from row 1 on, row 0 last. */
    function Turn(): Column {
      Column(a1, a2, a3, a0)
    }
  }

  /** Row 0 of the product with the matrix of section 5.1.3. */
  function MixTop(c: Column): bv8 {
    Times(c.a0, 2) ^ c.a3 ^ c.a2 ^ Times(c.a1, 3)
  }

  function Mix(c: Column): Column {
    Column(MixTop(c), MixTop(c.Turn()), MixTop(c.Turn().Turn()), MixTop(c.Turn().Turn().Turn()))
  }

  /** Row 0 of the product with the matrix of section 5.3.3. */
  function UnmixTop(c: Column): bv8 {
    Times(c.a0, 14) ^ Times(c.a1, 11) ^ Times(c.a2, 13) ^ Times(c.a3, 9)
  }

  function Unmix(c: Column): Column {
    Column(UnmixTop(c), UnmixTop(c.Turn()), UnmixTop(c.Turn().Turn()), UnmixTop(c.Turn().Turn().Turn()))
  }

  function ColumnOf(s: State, col: nat): Column
    requires col < 4
  {
    Column(s[col], s[4 + col], s[8 + col], s[12 + col])
  }

  function Entry(c: Column, row: nat): bv8
    requires row < 4
  {
    if row == 0 then c.a0 else if row == 1 then c.a1 else if row == 2 then c.a2 else c.a3
  }

  function MixColumns(s: State): (t: State)
    ensures forall i :: 0 <= i < 16 ==> t[i] == Entry(Mix(ColumnOf(s, i % 4)), i / 4)
  {
    seq(16, i requires 0 <= i < 16 => Entry(Mix(ColumnOf(s, i % 4)), i / 4))
  }

  function InvMixColumns(s: State): (t: State)
    ensures forall i :: 0 <= i < 16 ==> t[i] == Entry(Unmix(ColumnOf(s, i % 4)), i / 4)
  {
    seq(16, i requires 0 <= i < 16 => Entry(Unmix(ColumnOf(s, i % 4)), i / 4))
  }

  // ----- Unmix undoes Mix: linear algebra over GF(2^8)

  function Values(c: Column): Vec {
    Vec(Value(c.a0), Value(c.a1), Value(c.a2), Value(c.a3))
  }

  lemma {:induction false} Value3(p: bv8, q: bv8, r: bv8)
    ensures Value(p ^ q ^ r) == Gf2.Xor(Gf2.Xor(Value(p), Value(q)), Value(r))
  {
    XorIsSum(p, q);
    XorIsSum(p ^ q, r);
  }

  lemma {:induction false} Value4(p: bv8, q: bv8, r: bv8, s: bv8)
    ensures Value(p ^ q ^ r ^ s) == Gf2.Xor(Gf2.Xor(Value(p), Value(q)), Gf2.Xor(Value(r), Value(s)))
  {
    Value3(p, q, r);
    XorIsSum(p ^ q ^ r, s);
    Gf2.XorAssoc(Gf2.Xor(Value(p), Value(q)), Value(r), Value(s));
  }

  lemma {:induction false} ScaledValue(a: bv8, k: bv8, n: nat)
    requires n == Value(k)
    ensures Value(Times(a, k)) == F(n, Value(a))
  {
    TimesIsMulMod(a, k);
    PolynomialLength();
    Gf2.MulModComm(Value(a), n, POLYNOMIAL);
  }

  lemma {:induction false} OneValue(a: bv8)
    ensures Value(a) == F(1, Value(a))
  {
    ValueIsNumber(a);
    OneTimes(Value(a));
  }

  lemma {:induction false} Constants()
    ensures Value(2) == 2 && Value(3) == 3 && Value(9) == 9 && Value(11) == 11 && Value(13) == 13 && Value(14) == 14
  {
    ValueIsNumber(2);
    ValueIsNumber(3);
    ValueIsNumber(9);
    ValueIsNumber(11);
    ValueIsNumber(13);
    ValueIsNumber(14);
  }

  lemma {:induction false} Rearrange(p: nat, q: nat, r: nat, s: nat)
    ensures Gf2.Xor(Gf2.Xor(p, s), Gf2.Xor(r, q)) == Gf2.Xor(Gf2.Xor(p, q), Gf2.Xor(r, s))
  {
    Gf2.XorComm(r, q);
    Gf2.XorSwap(p, s, q, r);
    Gf2.XorComm(s, r);
  }

  lemma {:induction false} MixTopValue(c: Column)
    ensures Value(MixTop(c)) == Dot(Vec(2, 3, 1, 1), Values(c))
  {
    Constants();
    var p, q := Times(c.a0, 2), Times(c.a1, 3);
    Value4(p, c.a3, c.a2, q);
    ScaledValue(c.a0, 2, 2);
    ScaledValue(c.a1, 3, 3);
    OneValue(c.a2);
    OneValue(c.a3);
    Rearrange(Value(p), Value(q), Value(c.a2), Value(c.a3));
  }

  lemma {:induction false} UnmixTopValue(c: Column)
    ensures Value(UnmixTop(c)) == Dot(Vec(14, 11, 13, 9), Values(c))
  {
    Constants();
    Value4(Times(c.a0, 14), Times(c.a1, 11), Times(c.a2, 13), Times(c.a3, 9));
    ScaledValue(c.a0, 14, 14);
    ScaledValue(c.a1, 11, 11);
    ScaledValue(c.a2, 13, 13);
    ScaledValue(c.a3, 9, 9);
  }

  // ----- Unmix undoes Mix, in both orders

  lemma {:induction false} SmallMultiples(a: nat)
    requires a < 64
    ensures F(a, 1) == F(1, a) == a && F(a, 2) == F(2, a) == 2 * a
    ensures Gf2.Xor(a, 2 * a) < 256 ==> F(a, 3) == F(3, a) == Gf2.Xor(a, 2 * a)
  {
    Gf2.MulOne(a);
    Gf2.MulDoubleRight(a, 1);
    Gf2.MulUnfold(a, 3);
    PolynomialLength();
    Gf2.MulModComm(a, 1, POLYNOMIAL);
    Gf2.MulModComm(a, 2, POLYNOMIAL);
    Gf2.MulModComm(a, 3, POLYNOMIAL);
    ShortRem(a);
    ShortRem(2 * a);
    if Gf2.Xor(a, 2 * a) < 256 {
      ShortRem(Gf2.Xor(a, 2 * a));
    }
  }

  /** The products of the entries of the two matrices. */
  lemma {:induction false} EntryProducts()
    ensures F(14, 1) == F(1, 14) == 14 && F(14, 2) == F(2, 14) == 28 && F(14, 3) == F(3, 14) == 18
    ensures F(11, 1) == F(1, 11) == 11 && F(11, 2) == F(2, 11) == 22 && F(11, 3) == F(3, 11) == 29
    ensures F(13, 1) == F(1, 13) == 13 && F(13, 2) == F(2, 13) == 26 && F(13, 3) == F(3, 13) == 23
    ensures F(9, 1) == F(1, 9) == 9 && F(9, 2) == F(2, 9) == 18 && F(9, 3) == F(3, 9) == 27
  {
    Sums();
    SmallMultiples(14);
    SmallMultiples(11);
    SmallMultiples(13);
    SmallMultiples(9);
  }

  lemma {:induction false} ByteSum(x: bv8, y: bv8, z: bv8)
    requires x ^ y == z
    ensures Gf2.Xor(x as nat, y as nat) == z as nat
  {
    XorIsSum(x, y);
    ValueIsNumber(x);
    ValueIsNumber(y);
    ValueIsNumber(z);
  }

  lemma {:induction false} Sums()
    ensures Gf2.Xor(14, 28) == 18 && Gf2.Xor(11, 22) == 29 && Gf2.Xor(13, 26) == 23 && Gf2.Xor(9, 18) == 27
  {
    ByteSum(14, 28, 18);
    ByteSum(11, 22, 29);
    ByteSum(13, 26, 23);
    ByteSum(9, 18, 27);
  }

  lemma {:induction false} ColumnSum(p: bv8, q: bv8, r: bv8, s: bv8, u: bv8, v: bv8, t: bv8)
    requires p ^ q == u && r ^ s == v && u ^ v == t
    ensures Sum(Vec(p as nat, q as nat, r as nat, s as nat)) == t as nat
  {
    ByteSum(p, q, u);
    ByteSum(r, s, v);
    ByteSum(u, v, t);
  }

  lemma {:induction false} ColumnsOfFirstProduct()
    ensures Sum(Vec(28, 11, 13, 27)) == 1 && Sum(Vec(18, 22, 13, 9)) == 0
    ensures Sum(Vec(14, 29, 26, 9)) == 0 && Sum(Vec(14, 11, 23, 18)) == 0
  {
    ColumnSum(28, 11, 13, 27, 23, 22, 1);
    ColumnSum(18, 22, 13, 9, 4, 4, 0);
    ColumnSum(14, 29, 26, 9, 19, 19, 0);
    ColumnSum(14, 11, 23, 18, 5, 5, 0);
  }

  lemma {:induction false} ColumnsOfSecondProduct()
    ensures Sum(Vec(28, 27, 13, 11)) == 1 && Sum(Vec(22, 18, 9, 13)) == 0
    ensures Sum(Vec(26, 29, 14, 9)) == 0 && Sum(Vec(18, 23, 11, 14)) == 0
  {
    ColumnSum(28, 27, 13, 11, 7, 6, 1);
    ColumnSum(22, 18, 9, 13, 4, 4, 0);
    ColumnSum(26, 29, 14, 9, 7, 7, 0);
    ColumnSum(18, 23, 11, 14, 5, 5, 0);
  }

  /** The first row of each matrix times the other matrix is the first row of the identity. */
  lemma {:induction false} FirstProduct()
    ensures RowTimes(Vec(14, 11, 13, 9), Vec(2, 3, 1, 1), Vec(1, 2, 3, 1), Vec(1, 1, 2, 3), Vec(3, 1, 1, 2))
         == Vec(1, 0, 0, 0)
  {
    EntryProducts();
    ColumnsOfFirstProduct();
  }

  lemma {:induction false} SecondProduct()
    ensures RowTimes(Vec(2, 3, 1, 1), Vec(14, 11, 13, 9), Vec(9, 14, 11, 13), Vec(13, 9, 14, 11), Vec(11, 13, 9, 14))
         == Vec(1, 0, 0, 0)
  {
    EntryProducts();
    ColumnsOfSecondProduct();
  }

  lemma {:induction false} FirstEntry(r: Vec, m0: Vec, m1: Vec, m2: Vec, m3: Vec, c: Column, w: Vec)
    requires RowTimes(r, m0, m1, m2, m3) == Vec(1, 0, 0, 0)
    requires var v := Values(c);
             w == Vec(Dot(m0, v), Dot(m1, v), Dot(m2, v), Dot(m3, v))
    ensures Dot(r, w) == Value(c.a0)
  {
    DotAssoc(r, m0, m1, m2, m3, Values(c));
    BytesBelow(c);
    UnitDot(Values(c));
  }

  lemma {:induction false} BytesBelow(c: Column)
    ensures Values(c).x0 < 256 && Values(c).x1 < 256 && Values(c).x2 < 256 && Values(c).x3 < 256
  {
    ValueIsNumber(c.a0);
    ValueIsNumber(c.a1);
    ValueIsNumber(c.a2);
    ValueIsNumber(c.a3);
  }

  /** Rotating a column rotates the row that multiplies it. */
  lemma {:induction false} DotTurn(r0: nat, r1: nat, r2: nat, r3: nat, c: Column)
    ensures Dot(Vec(r0, r1, r2, r3), Values(c.Turn())) == Dot(Vec(r3, r0, r1, r2), Values(c))
  {
    var p, q, r, s := F(r0, Value(c.a1)), F(r1, Value(c.a2)), F(r2, Value(c.a3)), F(r3, Value(c.a0));
    Gf2.XorComm(Gf2.Xor(p, q), Gf2.Xor(r, s));
    Gf2.XorComm(r, s);
    Gf2.XorAssoc(Gf2.Xor(s, r), p, q);
    Gf2.XorAssoc(s, r, p);
    Gf2.XorComm(r, p);
    Gf2.XorAssoc(s, p, r);
    Gf2.XorAssoc(Gf2.Xor(s, p), r, q);
    Gf2.XorComm(r, q);
  }

  lemma {:induction false} MixValues(c: Column)
    ensures var v := Values(c);
            Values(Mix(c)) == Vec(Dot(Vec(2, 3, 1, 1), v), Dot(Vec(1, 2, 3, 1), v),
                                  Dot(Vec(1, 1, 2, 3), v), Dot(Vec(3, 1, 1, 2), v))
  {
    MixTopValue(c);
    MixTopValue(c.Turn());
    MixTopValue(c.Turn().Turn());
    MixTopValue(c.Turn().Turn().Turn());
    DotTurn(2, 3, 1, 1, c);
    DotTurn(2, 3, 1, 1, c.Turn());
    DotTurn(1, 2, 3, 1, c);
    DotTurn(2, 3, 1, 1, c.Turn().Turn());
    DotTurn(1, 2, 3, 1, c.Turn());
    DotTurn(1, 1, 2, 3, c);
  }

  lemma {:induction false} UnmixValues(c: Column)
    ensures var v := Values(c);
            Values(Unmix(c)) == Vec(Dot(Vec(14, 11, 13, 9), v), Dot(Vec(9, 14, 11, 13), v),
                                    Dot(Vec(13, 9, 14, 11), v), Dot(Vec(11, 13, 9, 14), v))
  {
    UnmixTopValue(c);
    UnmixTopValue(c.Turn());
    UnmixTopValue(c.Turn().Turn());
    UnmixTopValue(c.Turn().Turn().Turn());
    DotTurn(14, 11, 13, 9, c);
    DotTurn(14, 11, 13, 9, c.Turn());
    DotTurn(9, 14, 11, 13, c);
    DotTurn(14, 11, 13, 9, c.Turn().Turn());
    DotTurn(9, 14, 11, 13, c.Turn());
    DotTurn(13, 9, 14, 11, c);
  }

  lemma {:induction false} UnmixTopMix(c: Column)
    ensures UnmixTop(Mix(c)) == c.a0
  {
    UnmixTopValue(Mix(c));
    MixValues(c);
    FirstProduct();
    FirstEntry(Vec(14, 11, 13, 9), Vec(2, 3, 1, 1), Vec(1, 2, 3, 1), Vec(1, 1, 2, 3), Vec(3, 1, 1, 2),
               c, Values(Mix(c)));
    SameNumber(UnmixTop(Mix(c)), c.a0);
  }

  lemma {:induction false} MixTopUnmix(c: Column)
    ensures MixTop(Unmix(c)) == c.a0
  {
    MixTopValue(Unmix(c));
    UnmixValues(c);
    SecondProduct();
    FirstEntry(Vec(2, 3, 1, 1), Vec(14, 11, 13, 9), Vec(9, 14, 11, 13), Vec(13, 9, 14, 11), Vec(11, 13, 9, 14),
               c, Values(Unmix(c)));
    SameNumber(MixTop(Unmix(c)), c.a0);
  }

  /** InvMixColumn undoes MixColumn on every column, and conversely. */
  lemma MixInverse(c: Column)
    ensures Unmix(Mix(c)) == c && Mix(Unmix(c)) == c
  {
    var c1 := c.Turn();
    var c2 := c1.Turn();
    var c3 := c2.Turn();
    assert c3.Turn() == c;
    UnmixTopMix(c);
    UnmixTopMix(c1);
    UnmixTopMix(c2);
    UnmixTopMix(c3);
    MixTopUnmix(c);
    MixTopUnmix(c1);
    MixTopUnmix(c2);
    MixTopUnmix(c3);
    assert Mix(c).Turn() == Mix(c1) && Mix(c1).Turn() == Mix(c2) && Mix(c2).Turn() == Mix(c3);
    assert Unmix(c).Turn() == Unmix(c1) && Unmix(c1).Turn() == Unmix(c2) && Unmix(c2).Turn() == Unmix(c3);
  }

  lemma ColumnOfMixed(s: State, col: nat)
    requires col < 4
    ensures ColumnOf(MixColumns(s), col) == Mix(ColumnOf(s, col))
    ensures ColumnOf(InvMixColumns(s), col) == Unmix(ColumnOf(s, col))
  {
    hide Mix, Unmix;
  }

  lemma EntryOfColumn(s: State, i: nat)
    requires i < 16
    ensures Entry(ColumnOf(s, i % 4), i / 4) == s[i]
  {
  }

  lemma MixedEntry(s: State, i: nat)
    requires i < 16
    ensures InvMixColumns(MixColumns(s))[i] == s[i] && MixColumns(InvMixColumns(s))[i] == s[i]
  {
    ColumnOfMixed(s, i % 4);
    MixInverse(ColumnOf(s, i % 4));
    EntryOfColumn(s, i);
  }

  lemma MixColumnsInverse(s: State)
    ensures InvMixColumns(MixColumns(s)) == s && MixColumns(InvMixColumns(s)) == s
  {
    forall i | 0 <= i < 16
      ensures InvMixColumns(MixColumns(s))[i] == s[i] && MixColumns(InvMixColumns(s))[i] == s[i]
    {
      MixedEntry(s, i);
    }
  }
}
