/** The routines of aes.c that rewrite the 16-byte state, the round key and the expanded key in
    place, each proved against the transformation it implements. */
module Aes {
  import opened GfByte
  import opened AesTables
  import opened AesBytes
  import opened Seqs
  import R = AesRounds
  import C = AesCipher

  method SubBytes(state: array<bv8>)
    requires state.Length == 16
    modifies state
    ensures state[..] == R.SubBytes(old(state[..]))
  {
    ghost var was := state[..];
    var i := 0;
    while i < 16
      invariant 0 <= i <= 16
      invariant state[..] == R.SubBytes(was)[..i] + was[i..]
    {
      NextDone(R.SubBytes(was), was, state[..], i);
      state[i] := Sbox(state[i]);
      i := i + 1;
    }
  }

  method InvSubBytes(state: array<bv8>)
    requires state.Length == 16
    modifies state
    ensures state[..] == R.InvSubBytes(old(state[..]))
  {
    ghost var was := state[..];
    var i := 0;
    while i < 16
      invariant 0 <= i <= 16
      invariant state[..] == R.InvSubBytes(was)[..i] + was[i..]
    {
      NextDone(R.InvSubBytes(was), was, state[..], i);
      state[i] := Rsbox(state[i]);
      i := i + 1;
    }
  }

  method AddRoundKey(state: array<bv8>, roundKey: array<bv8>)
    requires state.Length == 16 && roundKey.Length == 16 && state != roundKey
    modifies state
    ensures state[..] == R.AddRoundKey(old(state[..]), roundKey[..])
  {
    ghost var was, k := state[..], roundKey[..];
    var i := 0;
    while i < 16
      invariant 0 <= i <= 16
      invariant state[..] == R.AddRoundKey(was, k)[..i] + was[i..]
    {
      NextDone(R.AddRoundKey(was, k), was, state[..], i);
      state[i] := state[i] ^ roundKey[i];
      i := i + 1;
    }
  }

  /** Four bytes, rotated n places to the left. */
  function Rotated(s: seq<bv8>, n: nat): (t: seq<bv8>)
    requires |s| == 4
    ensures |t| == 4 && forall j :: 0 <= j < 4 ==> t[j] == s[(j + n) % 4]
  {
    seq(4, j requires 0 <= j < 4 => s[(j + n) % 4])
  }

  /** The bytes with the four at the given offset rotated. */
  function RowRotated(s: seq<bv8>, at: nat, n: nat): seq<bv8>
    requires at + 4 <= |s|
  {
    s[..at] + Rotated(s[at..at + 4], n) + s[at + 4..]
  }

  /** Store four bytes at the given offset. */
  method CopyBack(state: array<bv8>, at: nat, temp: array<bv8>)
    requires at + 4 <= state.Length && temp.Length == 4 && state != temp
    modifies state
    ensures state[..] == old(state[..at]) + temp[..] + old(state[at + 4..])
  {
    ghost var was := state[..];
    var i := 0;
    while i < 4
      invariant 0 <= i <= 4
      invariant state[..] == was[..at] + temp[..i] + was[at + i..]
    {
      state[at + i] := temp[i];
      i := i + 1;
    }
  }

  /** Rotate the four bytes at the given offset to the left by nbr. */
  method ShiftRow(state: array<bv8>, at: nat, nbr: nat)
    requires at + 4 <= state.Length
    modifies state
    ensures state[..] == RowRotated(old(state[..]), at, nbr)
  {
    ghost var row := Rotated(state[at..at + 4], nbr);
    var temp := new bv8[4];
    var i := 0;
    while i < 4
      invariant 0 <= i <= 4
      invariant forall j :: 0 <= j < i ==> temp[j] == row[j]
      invariant state[..] == old(state[..])
    {
      temp[i] := state[at + (i + nbr) % 4];
      i := i + 1;
    }
    CopyBack(state, at, temp);
  }

  /** The state with its first rows taken from another. */
  function RowsDone(s: seq<bv8>, done: seq<bv8>, rows: nat): (t: seq<bv8>)
    requires |s| == |done| == 16 && rows <= 4
    ensures |t| == 16
  {
    done[..rows * 4] + s[rows * 4..]
  }

  function Row(s: seq<bv8>, row: nat): (r: seq<bv8>)
    requires |s| == 16 && row < 4
    ensures |r| == 4
  {
    s[row * 4..row * 4 + 4]
  }

  /** One more row of the state is done. */
  lemma RowStep(was: seq<bv8>, done: seq<bv8>, s: seq<bv8>, row: nat, n: nat)
    requires |was| == |done| == |s| == 16 && row < 4
    requires s == RowsDone(was, done, row) && Row(done, row) == Rotated(Row(was, row), n)
    ensures RowRotated(s, row * 4, n) == RowsDone(was, done, row + 1)
  {
    hide Rotated;
    assert s[row * 4..row * 4 + 4] == Row(was, row);
  }

  lemma LeftByte(was: seq<bv8>, row: nat, c: nat)
    requires |was| == 16 && row < 4 && c < 4
    ensures Row(R.ShiftRows(was), row)[c] == Rotated(Row(was, row), row)[c]
  {
    R.Index(row, c);
  }

  lemma RightByte(was: seq<bv8>, row: nat, c: nat)
    requires |was| == 16 && row < 4 && c < 4
    ensures Row(R.InvShiftRows(was), row)[c] == Rotated(Row(was, row), 4 - row)[c]
  {
    R.Index(row, c);
  }

  lemma RowLeft(was: seq<bv8>, s: seq<bv8>, row: nat)
    requires |was| == 16 && row < 4 && s == RowsDone(was, R.ShiftRows(was), row)
    ensures RowRotated(s, row * 4, row) == RowsDone(was, R.ShiftRows(was), row + 1)
  {
    hide *;
    forall c | 0 <= c < 4
      ensures Row(R.ShiftRows(was), row)[c] == Rotated(Row(was, row), row)[c]
    {
      LeftByte(was, row, c);
    }
    RowStep(was, R.ShiftRows(was), s, row, row);
  }

  lemma RowRight(was: seq<bv8>, s: seq<bv8>, row: nat)
    requires |was| == 16 && row < 4 && s == RowsDone(was, R.InvShiftRows(was), row)
    ensures RowRotated(s, row * 4, 4 - row) == RowsDone(was, R.InvShiftRows(was), row + 1)
  {
    hide *;
    forall c | 0 <= c < 4
      ensures Row(R.InvShiftRows(was), row)[c] == Rotated(Row(was, row), 4 - row)[c]
    {
      RightByte(was, row, c);
    }
    RowStep(was, R.InvShiftRows(was), s, row, 4 - row);
  }

  method ShiftRows(state: array<bv8>)
    requires state.Length == 16
    modifies state
    ensures state[..] == R.ShiftRows(old(state[..]))
  {
    ghost var was := state[..];
    var row := 0;
    while row < 4
      invariant 0 <= row <= 4
      invariant state[..] == RowsDone(was, R.ShiftRows(was), row)
    {
      ghost var before := state[..];
      ShiftRow(state, row * 4, row);
      RowLeft(was, before, row);
      row := row + 1;
    }
  }

  /** Rotate the four bytes at the given offset to the right by nbr. */
  method InvShiftRow(state: array<bv8>, at: nat, nbr: nat)
    requires at + 4 <= state.Length && nbr < 4
    modifies state
    ensures state[..] == RowRotated(old(state[..]), at, 4 - nbr)
  {
    ghost var row := Rotated(state[at..at + 4], 4 - nbr);
    var temp := new bv8[4];
    var i := 0;
    while i < 4
      invariant 0 <= i <= 4
      invariant forall j :: 0 <= j < i ==> temp[j] == row[j]
      invariant state[..] == old(state[..])
    {
      temp[i] := state[at + (i - nbr + 4) % 4];
      i := i + 1;
    }
    CopyBack(state, at, temp);
  }

  method InvShiftRows(state: array<bv8>)
    requires state.Length == 16
    modifies state
    ensures state[..] == R.InvShiftRows(old(state[..]))
  {
    ghost var was := state[..];
    var row := 0;
    while row < 4
      invariant 0 <= row <= 4
      invariant state[..] == RowsDone(was, R.InvShiftRows(was), row)
    {
      ghost var before := state[..];
      InvShiftRow(state, row * 4, row);
      RowRight(was, before, row);
      row := row + 1;
    }
  }

  function ColumnIn(column: seq<bv8>): R.Column
    requires |column| == 4
  {
    R.Column(column[0], column[1], column[2], column[3])
  }

  /** One entry of the mixed column c, from the bytes the source combines. */
  method MixEntry(ghost c: R.Column, b0: bv8, a3: bv8, a2: bv8, a1: bv8) returns (x: bv8)
    requires b0 == Times(c.a0, 2) && a3 == c.a3 && a2 == c.a2 && a1 == c.a1
    ensures x == R.MixTop(c)
  {
    hide Times;
    var t := GfMul(a1, 3);
    x := b0 ^ a3 ^ a2 ^ t;
  }

  method MixEntries(ghost c: R.Column, a: array<bv8>, b: array<bv8>) returns (r0: bv8, r1: bv8, r2: bv8, r3: bv8)
    requires a.Length == 4 && b.Length == 4
    requires c == ColumnIn(a[..])
    requires b[0] == Times(c.a0, 2) && b[1] == Times(c.a1, 2) && b[2] == Times(c.a2, 2) && b[3] == Times(c.a3, 2)
    ensures R.Mix(c) == R.Column(r0, r1, r2, r3)
  {
    hide Times;
    r0 := MixEntry(c, b[0], a[3], a[2], a[1]);
    r1 := MixEntry(c.Turn(), b[1], a[0], a[3], a[2]);
    r2 := MixEntry(c.Turn().Turn(), b[2], a[1], a[0], a[3]);
    r3 := MixEntry(c.Turn().Turn().Turn(), b[3], a[2], a[1], a[0]);
  }

  /** The loop that copies the column and doubles every byte of it. */
  method Doubles(ghost c: R.Column, column: array<bv8>, a: array<bv8>, b: array<bv8>)
    requires column.Length == a.Length == b.Length == 4 && a != b && a != column && b != column
    requires c == ColumnIn(column[..])
    modifies a, b
    ensures c == ColumnIn(a[..])
    ensures b[0] == Times(c.a0, 2) && b[1] == Times(c.a1, 2) && b[2] == Times(c.a2, 2) && b[3] == Times(c.a3, 2)
  {
    hide Times;
    var i := 0;
    while i < 4
      invariant 0 <= i <= 4
      invariant forall j :: 0 <= j < i ==> a[j] == column[j] && b[j] == Times(column[j], 2)
    {
      a[i] := column[i];
      b[i] := GfMul(column[i], 2);
      i := i + 1;
    }
  }

  method MixColumn(column: array<bv8>)
    requires column.Length == 4
    modifies column
    ensures ColumnIn(column[..]) == R.Mix(ColumnIn(old(column[..])))
  {
    hide Times, R.Mix;
    ghost var c := ColumnIn(column[..]);
    var a := new bv8[4];
    var b := new bv8[4];
    Doubles(c, column, a, b);
    var r0, r1, r2, r3 := MixEntries(c, a, b);
    column[0], column[1], column[2], column[3] := r0, r1, r2, r3;
  }

  method InvMixColumn(column: array<bv8>)
    requires column.Length == 4
    modifies column
    ensures ColumnIn(column[..]) == R.Unmix(ColumnIn(old(column[..])))
  {
    ghost var c := ColumnIn(column[..]);
    var a := new bv8[4];
    var i := 0;
    while i < 4
      invariant 0 <= i <= 4
      invariant column[..] == old(column[..])
      invariant a[..i] == column[..i]
    {
      a[i] := column[i];
      i := i + 1;
    }
    assert a[..] == column[..];
    column[0] := UnmixEntry(c, a[0], a[1], a[2], a[3]);
    column[1] := UnmixEntry(c.Turn(), a[1], a[2], a[3], a[0]);
    column[2] := UnmixEntry(c.Turn().Turn(), a[2], a[3], a[0], a[1]);
    column[3] := UnmixEntry(c.Turn().Turn().Turn(), a[3], a[0], a[1], a[2]);
  }

  /** One entry of the column with the mixing undone. */
  method UnmixEntry(ghost c: R.Column, a0: bv8, a1: bv8, a2: bv8, a3: bv8) returns (x: bv8)
    requires c == R.Column(a0, a1, a2, a3)
    ensures x == R.UnmixTop(c)
  {
    var a14 := GfMul(a0, 14);
    var a11 := GfMul(a1, 11);
    var a13 := GfMul(a2, 13);
    var a9 := GfMul(a3, 9);
    x := a14 ^ a11 ^ a13 ^ a9;
  }

  // ----- columns of the state

  function ColumnSeq(s: seq<bv8>, col: nat): (c: seq<bv8>)
    requires |s| == 16 && col < 4
    ensures |c| == 4 && ColumnIn(c) == R.ColumnOf(s, col)
  {
    [s[col], s[4 + col], s[8 + col], s[12 + col]]
  }

  /** The state with the first rows of one column replaced. */
  function Stored(s: seq<bv8>, col: nat, c: seq<bv8>, rows: nat): (t: seq<bv8>)
    requires |s| == 16 && |c| == 4 && col < 4
    ensures |t| == 16 && forall j :: 0 <= j < 16 ==> t[j] == if j % 4 == col && j / 4 < rows then c[j / 4] else s[j]
  {
    seq(16, j requires 0 <= j < 16 => if j % 4 == col && j / 4 < rows then c[j / 4] else s[j])
  }

  /** The state with its first columns taken from another. */
  function Merged(s: seq<bv8>, done: seq<bv8>, cols: nat): (t: seq<bv8>)
    requires |s| == |done| == 16
    ensures |t| == 16 && forall j :: 0 <= j < 16 ==> t[j] == if j % 4 < cols then done[j] else s[j]
  {
    seq(16, j requires 0 <= j < 16 => if j % 4 < cols then done[j] else s[j])
  }

  method ReadColumn(state: array<bv8>, col: nat, column: array<bv8>)
    requires state.Length == 16 && column.Length == 4 && col < 4 && state != column
    modifies column
    ensures column[..] == ColumnSeq(state[..], col)
  {
    var row := 0;
    while row < 4
      invariant 0 <= row <= 4
      invariant forall r :: 0 <= r < row ==> column[r] == ColumnSeq(state[..], col)[r]
    {
      column[row] := state[row * 4 + col];
      row := row + 1;
    }
  }

  method WriteColumn(state: array<bv8>, col: nat, column: array<bv8>)
    requires state.Length == 16 && column.Length == 4 && col < 4 && state != column
    modifies state
    ensures state[..] == Stored(old(state[..]), col, column[..], 4)
  {
    ghost var was, c := state[..], column[..];
    var row := 0;
    while row < 4
      invariant 0 <= row <= 4
      invariant state[..] == Stored(was, col, c, row)
    {
      StoreStep(was, col, c, row);
      state[row * 4 + col] := column[row];
      row := row + 1;
    }
  }

  lemma StoreStep(s: seq<bv8>, col: nat, c: seq<bv8>, row: nat)
    requires |s| == 16 && |c| == 4 && col < 4 && row < 4
    ensures Stored(s, col, c, row)[row * 4 + col := c[row]] == Stored(s, col, c, row + 1)
  {
    R.Index(row, col);
    var t := Stored(s, col, c, row)[row * 4 + col := c[row]];
    forall j | 0 <= j < 16
      ensures t[j] == Stored(s, col, c, row + 1)[j]
    {
      assert j == 4 * (j / 4) + j % 4;
    }
  }

  /** One more column of the state is done. */
  lemma MergeStep(was: seq<bv8>, s: seq<bv8>, done: seq<bv8>, c: seq<bv8>, col: nat)
    requires |was| == |done| == 16 && col < 4 && |c| == 4
    requires s == Merged(was, done, col)
    requires forall r :: 0 <= r < 4 ==> c[r] == done[4 * r + col]
    ensures Stored(s, col, c, 4) == Merged(was, done, col + 1)
  {
    forall j | 0 <= j < 16
      ensures Stored(s, col, c, 4)[j] == Merged(was, done, col + 1)[j]
    {
      if j % 4 == col {
        assert c[j / 4] == done[4 * (j / 4) + col];
      }
    }
  }

  lemma MergedEnds(s: seq<bv8>, done: seq<bv8>)
    requires |s| == |done| == 16
    ensures Merged(s, done, 0) == s && Merged(s, done, 4) == done
  {
  }

  lemma MergedColumn(was: seq<bv8>, done: seq<bv8>, col: nat)
    requires |was| == |done| == 16 && col < 4
    ensures ColumnSeq(Merged(was, done, col), col) == ColumnSeq(was, col)
  {
  }

  lemma MixedEntries(was: seq<bv8>, c: seq<bv8>, col: nat)
    requires |was| == 16 && |c| == 4 && col < 4
    ensures ColumnIn(c) == R.Mix(R.ColumnOf(was, col)) ==>
              forall r :: 0 <= r < 4 ==> c[r] == R.MixColumns(was)[4 * r + col]
    ensures ColumnIn(c) == R.Unmix(R.ColumnOf(was, col)) ==>
              forall r :: 0 <= r < 4 ==> c[r] == R.InvMixColumns(was)[4 * r + col]
  {
    forall r | 0 <= r < 4
      ensures ColumnIn(c) == R.Mix(R.ColumnOf(was, col)) ==> c[r] == R.MixColumns(was)[4 * r + col]
      ensures ColumnIn(c) == R.Unmix(R.ColumnOf(was, col)) ==> c[r] == R.InvMixColumns(was)[4 * r + col]
    {
      R.Index(r, col);
      assert c[r] == R.Entry(ColumnIn(c), r);
    }
  }

  ghost predicate IsMixed(was: seq<bv8>, done: seq<bv8>) {
    |was| == |done| == 16 && done == R.MixColumns(was)
  }

  lemma MixedColumn(was: seq<bv8>, s: seq<bv8>, done: seq<bv8>, c: seq<bv8>, d: seq<bv8>, col: nat)
    requires IsMixed(was, done) && |c| == |d| == 4 && col < 4 && s == Merged(was, done, col)
    requires c == ColumnSeq(s, col) && ColumnIn(d) == R.Mix(ColumnIn(c))
    ensures Stored(s, col, d, 4) == Merged(was, done, col + 1)
  {
    MergedColumn(was, done, col);
    MixedEntries(was, d, col);
    MergeStep(was, s, done, d, col);
  }

  method MixOneColumn(state: array<bv8>, column: array<bv8>, col: nat, ghost was: seq<bv8>, ghost done: seq<bv8>)
    requires state.Length == 16 && column.Length == 4 && state != column && col < 4
    requires IsMixed(was, done) && state[..] == Merged(was, done, col)
    modifies state, column
    ensures state[..] == Merged(was, done, col + 1)
  {
    ghost var s := state[..];
    ReadColumn(state, col, column);
    ghost var c := column[..];
    MixColumn(column);
    MixedColumn(was, s, done, c, column[..], col);
    WriteColumn(state, col, column);
  }

  method MixColumns(state: array<bv8>)
    requires state.Length == 16
    modifies state
    ensures state[..] == R.MixColumns(old(state[..]))
  {
    ghost var was := state[..];
    ghost var done := R.MixColumns(was);
    MergedEnds(was, done);
    var column := new bv8[4];
    var col := 0;
    while col < 4
      invariant 0 <= col <= 4
      invariant state[..] == Merged(was, done, col)
    {
      MixOneColumn(state, column, col, was, done);
      col := col + 1;
    }
  }

  ghost predicate IsUnmixed(was: seq<bv8>, done: seq<bv8>) {
    |was| == |done| == 16 && done == R.InvMixColumns(was)
  }

  lemma UnmixedColumn(was: seq<bv8>, s: seq<bv8>, done: seq<bv8>, c: seq<bv8>, d: seq<bv8>, col: nat)
    requires IsUnmixed(was, done) && |c| == |d| == 4 && col < 4 && s == Merged(was, done, col)
    requires c == ColumnSeq(s, col) && ColumnIn(d) == R.Unmix(ColumnIn(c))
    ensures Stored(s, col, d, 4) == Merged(was, done, col + 1)
  {
    MergedColumn(was, done, col);
    MixedEntries(was, d, col);
    MergeStep(was, s, done, d, col);
  }

  method UnmixOneColumn(state: array<bv8>, column: array<bv8>, col: nat, ghost was: seq<bv8>, ghost done: seq<bv8>)
    requires state.Length == 16 && column.Length == 4 && state != column && col < 4
    requires IsUnmixed(was, done) && state[..] == Merged(was, done, col)
    modifies state, column
    ensures state[..] == Merged(was, done, col + 1)
  {
    ghost var s := state[..];
    ReadColumn(state, col, column);
    ghost var c := column[..];
    InvMixColumn(column);
    UnmixedColumn(was, s, done, c, column[..], col);
    WriteColumn(state, col, column);
  }

  method InvMixColumns(state: array<bv8>)
    requires state.Length == 16
    modifies state
    ensures state[..] == R.InvMixColumns(old(state[..]))
  {
    ghost var was := state[..];
    ghost var done := R.InvMixColumns(was);
    MergedEnds(was, done);
    var column := new bv8[4];
    var col := 0;
    while col < 4
      invariant 0 <= col <= 4
      invariant state[..] == Merged(was, done, col)
    {
      UnmixOneColumn(state, column, col, was, done);
      col := col + 1;
    }
  }

  // ----- the rounds

  method CreateRoundKey(expandedKey: array<bv8>, at: nat, roundKey: array<bv8>)
    requires at + 16 <= expandedKey.Length && roundKey.Length == 16 && expandedKey != roundKey
    modifies roundKey
    ensures roundKey[..] == KeyAt(expandedKey[..], at)
  {
    ghost var k := KeyAt(expandedKey[..], at);
    var i := 0;
    while i < 4
      invariant 0 <= i <= 4
      invariant forall t :: 0 <= t < 16 && t % 4 < i ==> roundKey[t] == k[t]
    {
      var j := 0;
      while j < 4
        invariant 0 <= j <= 4
        invariant forall t :: 0 <= t < 16 && (t % 4 < i || (t % 4 == i && t / 4 < j)) ==> roundKey[t] == k[t]
      {
        R.Index(j, i);
        roundKey[i + j * 4] := expandedKey[at + i * 4 + j];
        j := j + 1;
      }
      i := i + 1;
    }
  }

  method CipherRound(state: array<bv8>, roundKey: array<bv8>)
    requires state.Length == 16 && roundKey.Length == 16 && state != roundKey
    modifies state
    ensures state[..] == C.Round(old(state[..]), roundKey[..])
    ensures IsRound(old(state[..]), roundKey[..], state[..])
  {
    RoundBytes(state[..], roundKey[..]);
    SubBytes(state);
    ShiftRows(state);
    MixColumns(state);
    AddRoundKey(state, roundKey);
  }

  lemma {:induction false} AfterSame(was: R.State, ks: seq<R.State>, i: nat, j: nat, s: R.State)
    requires i == j < |ks| && s == C.After(was, ks, i)
    ensures s == C.After(was, ks, j)
  {
  }

  lemma {:induction false} AfterStep(was: R.State, ks: seq<R.State>, j: nat, s: R.State, t: R.State, k: R.State)
    requires 0 < j < |ks| && s == C.After(was, ks, j - 1) && k == ks[j] && t == C.Round(s, k)
    ensures t == C.After(was, ks, j)
  {
  }

  lemma {:induction false} AfterNext(was: R.State, ks: seq<R.State>, i: nat, j: nat, s: R.State, t: R.State, k: R.State)
    requires 0 < j < |ks| && i == j - 1 && s == C.After(was, ks, i) && k == ks[j] && t == C.Round(s, k)
    ensures t == C.After(was, ks, j)
  {
    hide *;
    AfterSame(was, ks, i, j - 1, s);
    AfterStep(was, ks, j, s, t, k);
  }

  lemma {:induction false} LastStep(was: R.State, ks: seq<R.State>, s: R.State, t: R.State, k: R.State)
    requires |ks| >= 2 && s == C.After(was, ks, |ks| - 2) && k == ks[|ks| - 1] && t == C.LastRound(s, k)
    ensures t == C.Cipher(was, ks)
  {
  }

  lemma {:induction false} CipherEnd(was: R.State, ks: seq<R.State>, i: nat, s: R.State, t: R.State, k: R.State)
    requires |ks| >= 2 && i == |ks| - 2 && s == C.After(was, ks, i) && k == ks[|ks| - 1] && t == C.LastRound(s, k)
    ensures t == C.Cipher(was, ks)
  {
    hide *;
    AfterSame(was, ks, i, |ks| - 2, s);
    LastStep(was, ks, s, t, k);
  }

  method DoRound(state: array<bv8>, roundKey: array<bv8>, ghost was: R.State, ghost ks: seq<R.State>,
                 ghost i: nat, ghost j: nat)
    requires state.Length == 16 && roundKey.Length == 16 && state != roundKey
    requires 0 < j < |ks| && i == j - 1 && state[..] == C.After(was, ks, i) && roundKey[..] == ks[j]
    modifies state
    ensures state[..] == C.After(was, ks, j)
  {
    ghost var s := state[..];
    CipherRound(state, roundKey);
    AfterNext(was, ks, i, j, s, state[..], roundKey[..]);
  }

  /** The cipher: its states, from the first key addition to the last round, are returned as a ghost value. */
  method AesMain(state: array<bv8>, expandedKey: array<bv8>, nbrRounds: nat) returns (ghost states: seq<seq<bv8>>)
    requires state.Length == 16 && nbrRounds > 0 && 16 * (nbrRounds + 1) <= expandedKey.Length && state != expandedKey
    modifies state
    ensures state[..] == C.Cipher(old(state[..]), KeysIn(expandedKey[..], nbrRounds))
    ensures Encryption(old(state[..]), expandedKey[..], nbrRounds, states) && state[..] == states[nbrRounds]
  {
    hide IsRound, IsLastRound, IsSum, Encryption;
    states := CipherStates(state[..], expandedKey[..], nbrRounds);
    ghost var was, e := state[..], expandedKey[..];
    ghost var ks := KeysIn(e, nbrRounds);
    var roundKey := new bv8[16];
    CreateRoundKey(expandedKey, 0, roundKey);
    AddRoundKey(state, roundKey);
    ghost var done := 0;
    var i := 1;
    while i < nbrRounds
      invariant 1 <= i <= nbrRounds && done == i - 1
      invariant expandedKey[..] == e
      invariant state[..] == C.After(was, ks, done)
    {
      CreateRoundKey(expandedKey, 16 * i, roundKey);
      DoRound(state, roundKey, was, ks, done, i);
      done := i;
      i := i + 1;
    }
    CreateRoundKey(expandedKey, 16 * nbrRounds, roundKey);
    FinalRound(state, roundKey, was, ks, done);
  }

  method FinalRound(state: array<bv8>, roundKey: array<bv8>, ghost was: R.State, ghost ks: seq<R.State>, ghost i: nat)
    requires state.Length == 16 && roundKey.Length == 16 && state != roundKey
    requires |ks| >= 2 && i == |ks| - 2 && state[..] == C.After(was, ks, i) && roundKey[..] == ks[|ks| - 1]
    modifies state
    ensures state[..] == C.Cipher(was, ks)
    ensures IsLastRound(old(state[..]), roundKey[..], state[..])
  {
    LastRoundBytes(state[..], roundKey[..]);
    ghost var s := state[..];
    SubBytes(state);
    ShiftRows(state);
    AddRoundKey(state, roundKey);
    CipherEnd(was, ks, i, s, state[..], roundKey[..]);
  }

  method AesInvRound(state: array<bv8>, roundKey: array<bv8>)
    requires state.Length == 16 && roundKey.Length == 16 && state != roundKey
    modifies state
    ensures state[..] == C.InvRound(old(state[..]), roundKey[..])
    ensures IsInvRound(old(state[..]), roundKey[..], state[..])
  {
    InvRoundBytes(state[..], roundKey[..]);
    InvShiftRows(state);
    InvSubBytes(state);
    AddRoundKey(state, roundKey);
    InvMixColumns(state);
  }

  lemma {:induction false} BeforeNext(was: R.State, ks: seq<R.State>, i: nat, s: R.State, t: R.State, k: R.State)
    requires 0 < i < |ks| - 1 && s == C.Before(was, ks, i + 1) && k == ks[i] && t == C.InvRound(s, k)
    ensures t == C.Before(was, ks, i)
  {
  }

  lemma {:induction false} BeforeFirst(was: R.State, ks: seq<R.State>, t: R.State, k: R.State)
    requires |ks| >= 2 && k == ks[|ks| - 1] && t == R.AddRoundKey(was, k)
    ensures t == C.Before(was, ks, |ks| - 1)
  {
  }

  lemma {:induction false} InvCipherEnd(was: R.State, ks: seq<R.State>, s: R.State, t: R.State, k: R.State)
    requires |ks| >= 2 && s == C.Before(was, ks, 1) && k == ks[0]
    requires t == R.AddRoundKey(R.InvSubBytes(R.InvShiftRows(s)), k)
    ensures t == C.InvCipher(was, ks)
  {
  }

  method FirstInvKey(state: array<bv8>, roundKey: array<bv8>, ghost was: R.State, ghost ks: seq<R.State>)
    requires state.Length == 16 && roundKey.Length == 16 && state != roundKey
    requires |ks| >= 2 && state[..] == was && roundKey[..] == ks[|ks| - 1]
    modifies state
    ensures state[..] == C.Before(was, ks, |ks| - 1)
  {
    AddRoundKey(state, roundKey);
    BeforeFirst(was, ks, state[..], roundKey[..]);
  }

  method UndoRound(state: array<bv8>, roundKey: array<bv8>, ghost was: R.State, ghost ks: seq<R.State>,
                   ghost i: nat, ghost j: nat)
    requires state.Length == 16 && roundKey.Length == 16 && state != roundKey
    requires 0 < i < |ks| - 1 && j == i + 1 && state[..] == C.Before(was, ks, j) && roundKey[..] == ks[i]
    modifies state
    ensures state[..] == C.Before(was, ks, i)
  {
    ghost var s := state[..];
    AesInvRound(state, roundKey);
    BeforeNext(was, ks, i, s, state[..], roundKey[..]);
  }

  /** The inverse cipher, with its states. */
  method AesInvCipher(state: array<bv8>, expandedKey: array<bv8>, nbrRounds: nat)
    returns (ghost states: seq<seq<bv8>>)
    requires state.Length == 16 && nbrRounds > 0 && 16 * (nbrRounds + 1) <= expandedKey.Length && state != expandedKey
    modifies state
    ensures state[..] == C.InvCipher(old(state[..]), KeysIn(expandedKey[..], nbrRounds))
    ensures Decryption(old(state[..]), expandedKey[..], nbrRounds, states) && state[..] == states[nbrRounds]
  {
    hide IsInvRound, IsLastInvRound, IsSum, Decryption;
    states := InvCipherStates(state[..], expandedKey[..], nbrRounds);
    ghost var was, e := state[..], expandedKey[..];
    ghost var ks := KeysIn(e, nbrRounds);
    var roundKey := new bv8[16];
    CreateRoundKey(expandedKey, 16 * nbrRounds, roundKey);
    FirstInvKey(state, roundKey, was, ks);
    ghost var undone := nbrRounds;
    var round := nbrRounds - 1;
    while round > 0
      invariant 0 <= round < nbrRounds && undone == round + 1
      invariant expandedKey[..] == e
      invariant state[..] == C.Before(was, ks, undone)
    {
      CreateRoundKey(expandedKey, 16 * round, roundKey);
      UndoRound(state, roundKey, was, ks, round, undone);
      undone := round;
      round := round - 1;
    }
    CreateRoundKey(expandedKey, 0, roundKey);
    FinalInvRound(state, roundKey, was, ks, undone);
  }

  method FinalInvRound(state: array<bv8>, roundKey: array<bv8>, ghost was: R.State, ghost ks: seq<R.State>,
                       ghost i: nat)
    requires state.Length == 16 && roundKey.Length == 16 && state != roundKey
    requires |ks| >= 2 && i == 1 && state[..] == C.Before(was, ks, i) && roundKey[..] == ks[0]
    modifies state
    ensures state[..] == C.InvCipher(was, ks)
    ensures IsLastInvRound(old(state[..]), roundKey[..], state[..])
  {
    LastInvRoundBytes(state[..], roundKey[..]);
    ghost var s := state[..];
    InvShiftRows(state);
    InvSubBytes(state);
    AddRoundKey(state, roundKey);
    InvCipherEnd(was, ks, s, state[..], roundKey[..]);
  }

  // ----- the key schedule

  function WordIn(t: seq<bv8>): C.Word
    requires |t| == 4
  {
    C.Word(t[0], t[1], t[2], t[3])
  }

  method Rotate(word: array<bv8>)
    requires word.Length == 4
    modifies word
    ensures WordIn(word[..]) == WordIn(old(word[..])).Rot()
    ensures word[..] == old([word[1], word[2], word[3], word[0]])
  {
    var temp := word[0];
    word[0] := word[1];
    word[1] := word[2];
    word[2] := word[3];
    word[3] := temp;
  }

  lemma SubIs(was: seq<bv8>)
    requires |was| == 4
    ensures WordIn([Sbox(was[0]), Sbox(was[1]), Sbox(was[2]), Sbox(was[3])]) == WordIn(was).Sub()
  {
    hide Sbox;
  }

  /** Substitute the four bytes of a word. */
  method SubstituteWord(word: array<bv8>)
    requires word.Length == 4
    modifies word
    ensures WordIn(word[..]) == WordIn(old(word[..])).Sub()
  {
    hide Sbox;
    hide C.Word.Sub;
    ghost var was := word[..];
    ghost var done := [Sbox(was[0]), Sbox(was[1]), Sbox(was[2]), Sbox(was[3])];
    assert WordIn(done) == WordIn(was).Sub() by {
      SubIs(was);
    }
    var i := 0;
    while i < 4
      invariant 0 <= i <= 4
      invariant word[..] == done[..i] + was[i..]
    {
      NextDone(done, was, word[..], i);
      word[i] := Sbox(word[i]);
      i := i + 1;
    }
  }

  method CoreSchedule(word: array<bv8>, iteration: nat)
    requires word.Length == 4 && iteration < 255
    modifies word
    ensures WordIn(word[..]) == WordIn(old(word[..])).Rot().Sub().Xor(C.RconWord(iteration))
  {
    hide Sbox, Rcon;
    Rotate(word);
    SubstituteWord(word);
    ghost var w := WordIn(word[..]);
    XorZero(w.b1);
    XorZero(w.b2);
    XorZero(w.b3);
    word[0] := word[0] ^ Rcon(iteration as bv8);
  }

  lemma XorZero(x: bv8)
    ensures x ^ 0 == x
  {
  }

  lemma ExpandedFrame(e: seq<bv8>, e': seq<bv8>, key: seq<bv8>, nk: nat, w: nat)
    requires Expanded(e, key, nk, w) && |e| == |e'| && e[..4 * w] == e'[..4 * w]
    ensures Expanded(e', key, nk, w)
  {
    hide C.KeyWord;
    forall i | 0 <= i < w
      ensures WordOf(e', i) == WordOf(e, i)
    {
      assert forall j :: 4 * i <= j < 4 * i + 4 ==> e'[j] == e'[..4 * w][j] && e[j] == e[..4 * w][j];
    }
  }

  lemma FirstWords(e: seq<bv8>, key: seq<bv8>, nk: nat)
    requires C.KeyLength(nk) && |key| == 4 * nk <= |e| && e[..4 * nk] == key
    ensures Expanded(e, key, nk, nk)
  {
    forall i | 0 <= i < nk
      ensures WordOf(e, i) == C.KeyWord(key, nk, i)
    {
      assert forall j :: 4 * i <= j < 4 * i + 4 ==> e[j] == e[..4 * nk][j];
    }
  }

  lemma NextWord(e: seq<bv8>, e': seq<bv8>, key: seq<bv8>, nk: nat, w: nat)
    requires Expanded(e, key, nk, w) && nk <= w < 60 && 4 * w + 4 <= |e| == |e'| && e[..4 * w] == e'[..4 * w]
    requires WordOf(e', w) == WordOf(e, w - nk).Xor(C.Core(nk, w, WordOf(e, w - 1)))
    ensures Expanded(e', key, nk, w + 1)
  {
    hide C.Core;
    ExpandedFrame(e, e', key, nk, w);
    assert C.KeyWord(key, nk, w) == C.KeyWord(key, nk, w - nk).Xor(C.Core(nk, w, C.KeyWord(key, nk, w - 1)));
  }

  lemma ByFour(w: nat)
    ensures (4 * w) % 16 == 0 <==> w % 4 == 0
    ensures w % 4 == 0 ==> (w + 3) / 4 == w / 4
    ensures (w + 4) / 4 == if w % 4 == 0 then (w + 3) / 4 + 1 else (w + 3) / 4
  {
  }

  lemma BySix(w: nat)
    ensures (4 * w) % 24 == 0 <==> w % 6 == 0
    ensures w % 6 == 0 ==> (w + 5) / 6 == w / 6
    ensures (w + 6) / 6 == if w % 6 == 0 then (w + 5) / 6 + 1 else (w + 5) / 6
  {
  }

  lemma ByEight(w: nat)
    ensures (4 * w) % 32 == 0 <==> w % 8 == 0
    ensures (4 * w) % 32 == 16 <==> w % 8 == 4
    ensures w % 8 == 0 ==> (w + 7) / 8 == w / 8
    ensures (w + 8) / 8 == if w % 8 == 0 then (w + 7) / 8 + 1 else (w + 7) / 8
  {
  }

  /** How often the core schedule has been applied before word w. */
  function Cores(nk: nat, w: nat): (n: nat)
    requires C.KeyLength(nk) && w <= 60
    ensures n < 255
  {
    if nk == 4 then (w + 3) / 4 else if nk == 6 then (w + 5) / 6 else (w + 7) / 8
  }

  lemma FirstCore(nk: nat)
    requires C.KeyLength(nk)
    ensures Cores(nk, nk) == 1
  {
  }

  /** Byte counts against word counts. */
  lemma ByWords(size: nat, nk: nat, w: nat)
    requires C.KeyLength(nk) && size == 4 * nk && w < 60
    ensures (4 * w) % size == 0 <==> w % nk == 0
    ensures size == 32 && (4 * w) % size == 16 <==> nk > 6 && w % nk == 4
    ensures w % nk == 0 ==> Cores(nk, w) == w / nk
    ensures Cores(nk, w + 1) == if w % nk == 0 then Cores(nk, w) + 1 else Cores(nk, w)
  {
    if nk == 4 {
      ByFour(w);
    } else if nk == 6 {
      BySix(w);
    } else {
      ByEight(w);
    }
  }

  /** The key is the first part of the expanded key. */
  method CopyKey(expandedKey: array<bv8>, key: array<bv8>, size: nat)
    requires size <= key.Length && size <= expandedKey.Length && expandedKey != key
    modifies expandedKey
    ensures expandedKey[..size] == key[..size]
    ensures expandedKey[size..] == old(expandedKey[size..])
  {
    var i := 0;
    while i < size
      invariant 0 <= i <= size
      invariant expandedKey[..i] == key[..i]
      invariant expandedKey[size..] == old(expandedKey[size..])
    {
      expandedKey[i] := key[i];
      i := i + 1;
    }
  }

  method KeyExpansion(expandedKey: array<bv8>, key: array<bv8>, size: nat, expandedKeySize: nat)
    requires C.KeyBytes(size)
    requires key.Length >= size && expandedKeySize == 16 * (C.Rounds(size / 4) + 1) <= expandedKey.Length
    requires expandedKey != key
    modifies expandedKey
    ensures expandedKeySize == if size == 16 then 176 else if size == 24 then 208 else 240
    ensures Expanded(expandedKey[..], key[..size], size / 4, expandedKeySize / 4)
    ensures IsExpansion(expandedKey[..], key[..size])
    ensures expandedKey[expandedKeySize..] == old(expandedKey[expandedKeySize..])
  {
    hide Sbox, Rcon, C.KeyWord, C.Core, Expanded, Cores, IsExpansion;
    ghost var nk, k, rest := size / 4, key[..size], expandedKey[expandedKeySize..];
    var t := new bv8[4];
    CopyKey(expandedKey, key, size);
    var currentSize := size;
    var rconIteration := 1;
    ghost var w := nk;
    FirstWords(expandedKey[..], k, nk);
    FirstCore(nk);
    while currentSize < expandedKeySize
      invariant nk <= w && currentSize == 4 * w <= expandedKeySize
      invariant key[..size] == k
      invariant Expanded(expandedKey[..], k, nk, w)
      invariant rconIteration == Cores(nk, w)
      invariant expandedKey[expandedKeySize..] == rest
    {
      rconIteration := NextFour(expandedKey, t, size, currentSize, rconIteration, k, nk, w);
      currentSize := currentSize + 4;
      w := w + 1;
    }
    ExpansionBytes(expandedKey[..], k, nk);
  }

  /** One turn of the key expansion: the next word of the schedule. */
  method NextFour(expandedKey: array<bv8>, t: array<bv8>, size: nat, currentSize: nat, rconIteration: nat,
                  ghost key: seq<bv8>, ghost nk: nat, ghost w: nat) returns (iteration: nat)
    requires expandedKey != t && t.Length == 4
    requires C.KeyLength(nk) && size == 4 * nk && nk <= w < 60
    requires currentSize == 4 * w && 4 * w + 4 <= expandedKey.Length
    requires Expanded(expandedKey[..], key, nk, w) && rconIteration == Cores(nk, w)
    modifies expandedKey, t
    ensures Expanded(expandedKey[..], key, nk, w + 1) && iteration == Cores(nk, w + 1)
    ensures expandedKey[4 * w + 4..] == old(expandedKey[4 * w + 4..])
  {
    hide Sbox, Rcon, C.KeyWord, C.Core, Expanded, Cores, WordOf, WordIn;
    ghost var e := expandedKey[..];
    ByWords(size, nk, w);
    ReadWord(expandedKey, currentSize - 4, t, w - 1);
    iteration := rconIteration;
    if currentSize % size == 0 {
      CoreSchedule(t, iteration);
      iteration := iteration + 1;
    }
    if size == 32 && currentSize % size == 16 {
      SubstituteWord(t);
    }
    CoreIs(nk, w, WordOf(e, w - 1), WordIn(t[..]));
    AppendWord(expandedKey, currentSize, size, t, nk, w);
    NextWord(e, expandedKey[..], key, nk, w);
  }

  lemma CoreIs(nk: nat, w: nat, before: C.Word, t: C.Word)
    requires C.KeyLength(nk) && w < 60
    requires t == if w % nk == 0 then before.Rot().Sub().Xor(C.RconWord(w / nk))
                  else if nk > 6 && w % nk == 4 then before.Sub() else before
    ensures t == C.Core(nk, w, before)
  {
    hide Sbox, Rcon;
  }

  /** Four bytes of the expanded key into t. */
  method ReadWord(expandedKey: array<bv8>, at: nat, t: array<bv8>, ghost w: nat)
    requires t.Length == 4 && at + 4 <= expandedKey.Length && t != expandedKey && at == 4 * w
    modifies t
    ensures WordIn(t[..]) == WordOf(expandedKey[..], w)
  {
    var i := 0;
    while i < 4
      invariant 0 <= i <= 4
      invariant forall j :: 0 <= j < i ==> t[j] == expandedKey[at + j]
    {
      t[i] := expandedKey[at + i];
      i := i + 1;
    }
  }

  /** The next four bytes: t added to the four bytes a key length back. */
  method AppendWord(expandedKey: array<bv8>, at: nat, size: nat, t: array<bv8>, ghost nk: nat, ghost w: nat)
    requires t.Length == 4 && at + 4 <= expandedKey.Length && t != expandedKey
    requires at == 4 * w && size == 4 * nk && 0 < nk <= w
    modifies expandedKey
    ensures WordOf(expandedKey[..], w) == WordOf(old(expandedKey[..]), w - nk).Xor(WordIn(t[..]))
    ensures expandedKey[..at] == old(expandedKey[..at]) && expandedKey[at + 4..] == old(expandedKey[at + 4..])
  {
    hide Put, WordOf, WordIn, C.Word.Xor;
    ghost var was, x := expandedKey[..], Sum(expandedKey[at - size..at - size + 4], t[..]);
    ghost var done: seq<bv8> := [];
    PutNone(was, at, done);
    var i := 0;
    while i < 4
      invariant 0 <= i == |done| <= 4 && done == x[..i]
      invariant expandedKey[..] == Put(was, at, done)
    {
      PutNext(was, at, done, x[i]);
      Earlier(was, at, done, at + i - size);
      expandedKey[at + i] := expandedKey[at + i - size] ^ t[i];
      done := done + [x[i]];
      i := i + 1;
    }
    SumOfWords(was, expandedKey[..], x, t[..], nk, w);
  }

  lemma Earlier(was: seq<bv8>, at: nat, x: seq<bv8>, j: nat)
    requires at + |x| <= |was| && j < at
    ensures Put(was, at, x)[j] == was[j]
  {
  }

  lemma SumOfWords(was: seq<bv8>, now: seq<bv8>, x: seq<bv8>, t: seq<bv8>, nk: nat, w: nat)
    requires |t| == 4 && 0 < nk <= w && 4 * w + 4 <= |was|
    requires x == Sum(was[4 * (w - nk)..4 * (w - nk) + 4], t) && now == Put(was, 4 * w, x)
    ensures WordOf(now, w) == WordOf(was, w - nk).Xor(WordIn(t))
    ensures now[..4 * w] == was[..4 * w] && now[4 * w + 4..] == was[4 * w + 4..]
  {
    hide Put;
    forall j | 0 <= j < 4
      ensures now[4 * w + j] == x[j]
    {
      assert now[4 * w..4 * w + 4][j] == x[j];
    }
  }

  function Sum(a: seq<bv8>, b: seq<bv8>): (s: seq<bv8>)
    requires |a| == |b| == 4
    ensures |s| == 4 && forall j :: 0 <= j < 4 ==> s[j] == a[j] ^ b[j]
  {
    seq(4, j requires 0 <= j < 4 => a[j] ^ b[j])
  }

  lemma KeyByte(e: seq<bv8>, key: seq<bv8>, nk: nat, r: nat, t: nat)
    requires Expanded(e, key, nk, 4 * C.Rounds(nk) + 4) && r <= C.Rounds(nk) && t < 16
    ensures KeyAt(e, 16 * r)[t] == C.RoundKey(key, nk, r)[t]
  {
    hide C.KeyWord;
    var i := 4 * r + t % 4;
    assert WordOf(e, i) == C.KeyWord(key, nk, i);
    assert WordOf(e, i).Byte(t / 4) == e[4 * i + t / 4];
  }

  lemma SameKey(e: seq<bv8>, key: seq<bv8>, nk: nat, r: nat)
    requires Expanded(e, key, nk, 4 * C.Rounds(nk) + 4) && r <= C.Rounds(nk)
    ensures KeyAt(e, 16 * r) == C.RoundKey(key, nk, r)
  {
    hide C.KeyWord;
    forall t | 0 <= t < 16
      ensures KeyAt(e, 16 * r)[t] == C.RoundKey(key, nk, r)[t]
    {
      KeyByte(e, key, nk, r, t);
    }
  }

  /** The expanded key holds the round keys of the schedule. */
  lemma SameKeys(e: seq<bv8>, key: seq<bv8>, nk: nat)
    requires Expanded(e, key, nk, 4 * C.Rounds(nk) + 4)
    ensures KeysIn(e, C.Rounds(nk)) == C.KeySchedule(key, nk)
  {
    hide C.KeyWord, C.RoundKey, KeyAt;
    forall r | 0 <= r <= C.Rounds(nk)
      ensures KeysIn(e, C.Rounds(nk))[r] == C.KeySchedule(key, nk)[r]
    {
      SameKey(e, key, nk, r);
    }
  }

  // ----- blocks

  /** Copy 16 bytes from row-major to column-major order, or back. */
  method CopyBlock(from: array<bv8>, to: array<bv8>)
    requires from.Length >= 16 && to.Length >= 16 && from != to
    modifies to
    ensures to[..16] == C.Transpose(from[..16]) && to[16..] == old(to[16..])
  {
    ghost var done := C.Transpose(from[..16]);
    var row := 0;
    while row < 4
      invariant 0 <= row <= 4
      invariant forall t :: 0 <= t < 16 && t % 4 < row ==> to[t] == done[t]
      invariant to[16..] == old(to[16..])
    {
      var col := 0;
      while col < 4
        invariant 0 <= col <= 4
        invariant forall t :: 0 <= t < 16 && (t % 4 < row || (t % 4 == row && t / 4 < col)) ==> to[t] == done[t]
        invariant to[16..] == old(to[16..])
      {
        R.Index(col, row);
        to[row + 4 * col] := from[4 * row + col];
        col := col + 1;
      }
      row := row + 1;
    }
  }

  datatype ErrorCode = Success | UnknownKeySize

  /** The number of rounds for a key of the given size in bytes. */
  method RoundsFor(size: nat) returns (rounds: nat, code: ErrorCode)
    ensures code.Success? <==> C.KeyBytes(size)
    ensures code.Success? ==> rounds == C.Rounds(size / 4)
  {
    match size
    case 16 => return 10, Success;
    case 24 => return 12, Success;
    case 32 => return 14, Success;
    case _ => return 0, UnknownKeySize;
  }

  method AesEncrypt(input: array<bv8>, output: array<bv8>, key: array<bv8>, size: nat)
    returns (code: ErrorCode, ghost trace: Trace)
    requires input.Length >= 16 && output.Length >= 16 && (C.KeyBytes(size) ==> key.Length >= size)
    modifies output
    ensures code.Success? <==> size == 16 || size == 24 || size == 32
    ensures code.Success? ==> output[..16] == C.Encrypt(old(input[..16]), old(key[..size]), size / 4)
    ensures output[if code.Success? then 16 else 0..] == old(output[if code.Success? then 16 else 0..])
    ensures code.Success? ==> Encrypts(old(input[..16]), old(key[..size]), output[..16], trace)
  {
    hide Sbox, Rsbox, Rcon, C.KeyWord, C.KeySchedule, C.Cipher, C.InvCipher, C.Transpose, KeysIn, KeyAt, Expanded;
    hide Encryption, IsExpansion, Encrypts;
    var nbrRounds;
    nbrRounds, code := RoundsFor(size);
    trace := Trace([], [], []);
    if code == Success {
      ghost var k, nk, p := key[..size], size / 4, input[..16];
      var expandedKeySize := 16 * (nbrRounds + 1);
      var expandedKey := new bv8[expandedKeySize];
      var block := new bv8[16];
      CopyBlock(input, block);
      KeyExpansion(expandedKey, key, size, expandedKeySize);
      SameKeys(expandedKey[..], k, nk);
      assert block[..16] == block[..];
      ghost var s := block[..];
      ghost var states := AesMain(block, expandedKey, nbrRounds);
      trace := Trace(s, expandedKey[..], states);
      TraceEncrypts(p, k, nk, trace, block[..]);
      assert block[..16] == block[..];
      CopyBlock(block, output);
    }
  }

  method AesDecrypt(input: array<bv8>, output: array<bv8>, key: array<bv8>, size: nat)
    returns (code: ErrorCode, ghost trace: Trace)
    requires input.Length >= 16 && output.Length >= 16 && (C.KeyBytes(size) ==> key.Length >= size)
    modifies output
    ensures code.Success? <==> size == 16 || size == 24 || size == 32
    ensures code.Success? ==> output[..16] == C.Decrypt(old(input[..16]), old(key[..size]), size / 4)
    ensures output[if code.Success? then 16 else 0..] == old(output[if code.Success? then 16 else 0..])
    ensures code.Success? ==> Decrypts(old(input[..16]), old(key[..size]), output[..16], trace)
  {
    hide Sbox, Rsbox, Rcon, C.KeyWord, C.KeySchedule, C.Cipher, C.InvCipher, C.Transpose, KeysIn, KeyAt, Expanded;
    hide Decryption, IsExpansion, Decrypts;
    var nbrRounds;
    nbrRounds, code := RoundsFor(size);
    trace := Trace([], [], []);
    if code == Success {
      ghost var k, nk, c := key[..size], size / 4, input[..16];
      var expandedKeySize := 16 * (nbrRounds + 1);
      var expandedKey := new bv8[expandedKeySize];
      var block := new bv8[16];
      CopyBlock(input, block);
      KeyExpansion(expandedKey, key, size, expandedKeySize);
      SameKeys(expandedKey[..], k, nk);
      assert block[..16] == block[..];
      ghost var s := block[..];
      ghost var states := AesInvCipher(block, expandedKey, nbrRounds);
      trace := Trace(s, expandedKey[..], states);
      TraceDecrypts(c, k, nk, trace, block[..]);
      assert block[..16] == block[..];
      CopyBlock(block, output);
    }
  }
}
