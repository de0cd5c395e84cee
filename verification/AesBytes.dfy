/** AES byte by byte: what a round does to each byte of the state, and what the key expansion does to each
    byte, in the terms of sections 5.1 to 5.3 of FIPS 197. Byte (r, c) of a state is at index 4 * r + c,
    and byte (r, c) of the round key i at 16 * i + 4 * c + r of the expanded key. */
module AesBytes {
  import opened GfByte
  import opened AesTables
  import R = AesRounds
  import C = AesCipher

  function Sum4(a: bv8, b: bv8, c: bv8, d: bv8): bv8 {
    a ^ b ^ c ^ d
  }

  /** A byte that is substituted back and has a key byte added. */
  function InvByte(x: bv8, k: bv8): bv8 {
    Rsbox(x) ^ k
  }

  // ----- rounds

  /** Column c after a round: its bytes come from the four diagonal ones, through the S-box and the matrix
      of section 5.1.3. */
  predicate MixedBytes(s: seq<bv8>, k: seq<bv8>, t: seq<bv8>, c: nat)
    requires |s| == |k| == |t| == 16 && c < 4
  {
    var b0, b1, b2, b3 := Sbox(s[c]), Sbox(s[4 + (c + 1) % 4]), Sbox(s[8 + (c + 2) % 4]), Sbox(s[12 + (c + 3) % 4]);
    && t[c] == Sum4(Times(b0, 2), Times(b1, 3), b2, b3) ^ k[c]
    && t[4 + c] == Sum4(b0, Times(b1, 2), Times(b2, 3), b3) ^ k[4 + c]
    && t[8 + c] == Sum4(b0, b1, Times(b2, 2), Times(b3, 3)) ^ k[8 + c]
    && t[12 + c] == Sum4(Times(b0, 3), b1, b2, Times(b3, 2)) ^ k[12 + c]
  }

  /** Column c after the last round. */
  predicate LastBytes(s: seq<bv8>, k: seq<bv8>, t: seq<bv8>, c: nat)
    requires |s| == |k| == |t| == 16 && c < 4
  {
    && t[c] == Sbox(s[c]) ^ k[c]
    && t[4 + c] == Sbox(s[4 + (c + 1) % 4]) ^ k[4 + c]
    && t[8 + c] == Sbox(s[8 + (c + 2) % 4]) ^ k[8 + c]
    && t[12 + c] == Sbox(s[12 + (c + 3) % 4]) ^ k[12 + c]
  }

  /** Column c after an inverse round, with the matrix of section 5.3.3. */
  predicate UnmixedBytes(s: seq<bv8>, k: seq<bv8>, t: seq<bv8>, c: nat)
    requires |s| == |k| == |t| == 16 && c < 4
  {
    var b0, b1 := InvByte(s[c], k[c]), InvByte(s[4 + (c + 3) % 4], k[4 + c]);
    var b2, b3 := InvByte(s[8 + (c + 2) % 4], k[8 + c]), InvByte(s[12 + (c + 1) % 4], k[12 + c]);
    && t[c] == Sum4(Times(b0, 14), Times(b1, 11), Times(b2, 13), Times(b3, 9))
    && t[4 + c] == Sum4(Times(b0, 9), Times(b1, 14), Times(b2, 11), Times(b3, 13))
    && t[8 + c] == Sum4(Times(b0, 13), Times(b1, 9), Times(b2, 14), Times(b3, 11))
    && t[12 + c] == Sum4(Times(b0, 11), Times(b1, 13), Times(b2, 9), Times(b3, 14))
  }

  /** Column c after the last inverse round. */
  predicate LastInvBytes(s: seq<bv8>, k: seq<bv8>, t: seq<bv8>, c: nat)
    requires |s| == |k| == |t| == 16 && c < 4
  {
    && t[c] == Rsbox(s[c]) ^ k[c]
    && t[4 + c] == Rsbox(s[4 + (c + 3) % 4]) ^ k[4 + c]
    && t[8 + c] == Rsbox(s[8 + (c + 2) % 4]) ^ k[8 + c]
    && t[12 + c] == Rsbox(s[12 + (c + 1) % 4]) ^ k[12 + c]
  }

  ghost predicate IsRound(s: seq<bv8>, k: seq<bv8>, t: seq<bv8>) {
    |s| == |k| == |t| == 16 && forall c :: 0 <= c < 4 ==> MixedBytes(s, k, t, c)
  }

  ghost predicate IsLastRound(s: seq<bv8>, k: seq<bv8>, t: seq<bv8>) {
    |s| == |k| == |t| == 16 && forall c :: 0 <= c < 4 ==> LastBytes(s, k, t, c)
  }

  ghost predicate IsInvRound(s: seq<bv8>, k: seq<bv8>, t: seq<bv8>) {
    |s| == |k| == |t| == 16 && forall c :: 0 <= c < 4 ==> UnmixedBytes(s, k, t, c)
  }

  ghost predicate IsLastInvRound(s: seq<bv8>, k: seq<bv8>, t: seq<bv8>) {
    |s| == |k| == |t| == 16 && forall c :: 0 <= c < 4 ==> LastInvBytes(s, k, t, c)
  }

  /** The key is added. */
  ghost predicate IsSum(s: seq<bv8>, k: seq<bv8>, t: seq<bv8>) {
    |s| == |k| == |t| == 16 && forall i :: 0 <= i < 16 ==> t[i] == s[i] ^ k[i]
  }

  // ----- what the transformations say about the bytes

  lemma {:induction false} SumTurn(a: bv8, b: bv8, c: bv8, d: bv8)
    ensures Sum4(b, c, d, a) == Sum4(a, b, c, d)
  {
  }

  lemma {:induction false} SumOrder(a: bv8, b: bv8, c: bv8, d: bv8)
    ensures a ^ d ^ c ^ b == Sum4(a, b, c, d)
  {
  }

  lemma {:induction false} TopRow(c: R.Column)
    ensures R.MixTop(c) == Sum4(Times(c.a0, 2), Times(c.a1, 3), c.a2, c.a3)
  {
    hide Times, Sum4;
    SumOrder(Times(c.a0, 2), Times(c.a1, 3), c.a2, c.a3);
  }

  lemma {:induction false} InvTopRow(c: R.Column)
    ensures R.UnmixTop(c) == Sum4(Times(c.a0, 14), Times(c.a1, 11), Times(c.a2, 13), Times(c.a3, 9))
  {
    hide Times;
  }

  lemma {:induction false} Turns(b0: bv8, b1: bv8, b2: bv8, b3: bv8)
    ensures var c := R.Column(b0, b1, b2, b3);
            && c.Turn() == R.Column(b1, b2, b3, b0)
            && c.Turn().Turn() == R.Column(b2, b3, b0, b1)
            && c.Turn().Turn().Turn() == R.Column(b3, b0, b1, b2)
            && R.Mix(c) == R.Column(R.MixTop(c), R.MixTop(c.Turn()), R.MixTop(c.Turn().Turn()),
                                    R.MixTop(c.Turn().Turn().Turn()))
            && R.Unmix(c) == R.Column(R.UnmixTop(c), R.UnmixTop(c.Turn()), R.UnmixTop(c.Turn().Turn()),
                                      R.UnmixTop(c.Turn().Turn().Turn()))
  {
    hide R.MixTop, R.UnmixTop;
  }

  lemma {:induction false} MixRows(b0: bv8, b1: bv8, b2: bv8, b3: bv8)
    ensures R.Mix(R.Column(b0, b1, b2, b3))
         == R.Column(Sum4(Times(b0, 2), Times(b1, 3), b2, b3), Sum4(b0, Times(b1, 2), Times(b2, 3), b3),
                     Sum4(b0, b1, Times(b2, 2), Times(b3, 3)), Sum4(Times(b0, 3), b1, b2, Times(b3, 2)))
  {
    hide *;
    Turns(b0, b1, b2, b3);
    TopRow(R.Column(b0, b1, b2, b3));
    TopRow(R.Column(b1, b2, b3, b0));
    TopRow(R.Column(b2, b3, b0, b1));
    TopRow(R.Column(b3, b0, b1, b2));
    SumTurn(b0, Times(b1, 2), Times(b2, 3), b3);
    SumTurn(b0, b1, Times(b2, 2), Times(b3, 3));
    SumTurn(b1, Times(b2, 2), Times(b3, 3), b0);
    SumTurn(Times(b0, 3), b1, b2, Times(b3, 2));
    SumTurn(b1, b2, Times(b3, 2), Times(b0, 3));
    SumTurn(b2, Times(b3, 2), Times(b0, 3), b1);
  }

  lemma {:induction false} UnmixRows(b0: bv8, b1: bv8, b2: bv8, b3: bv8)
    ensures R.Unmix(R.Column(b0, b1, b2, b3))
         == R.Column(Sum4(Times(b0, 14), Times(b1, 11), Times(b2, 13), Times(b3, 9)),
                     Sum4(Times(b0, 9), Times(b1, 14), Times(b2, 11), Times(b3, 13)),
                     Sum4(Times(b0, 13), Times(b1, 9), Times(b2, 14), Times(b3, 11)),
                     Sum4(Times(b0, 11), Times(b1, 13), Times(b2, 9), Times(b3, 14)))
  {
    hide *;
    Turns(b0, b1, b2, b3);
    InvTopRow(R.Column(b0, b1, b2, b3));
    InvTopRow(R.Column(b1, b2, b3, b0));
    InvTopRow(R.Column(b2, b3, b0, b1));
    InvTopRow(R.Column(b3, b0, b1, b2));
    SumTurn(Times(b0, 9), Times(b1, 14), Times(b2, 11), Times(b3, 13));
    SumTurn(Times(b0, 13), Times(b1, 9), Times(b2, 14), Times(b3, 11));
    SumTurn(Times(b1, 9), Times(b2, 14), Times(b3, 11), Times(b0, 13));
    SumTurn(Times(b0, 11), Times(b1, 13), Times(b2, 9), Times(b3, 14));
    SumTurn(Times(b1, 13), Times(b2, 9), Times(b3, 14), Times(b0, 11));
    SumTurn(Times(b2, 9), Times(b3, 14), Times(b0, 11), Times(b1, 13));
  }

  lemma {:induction false} DiagonalByte(s: R.State, r: nat, c: nat)
    requires r < 4 && c < 4
    ensures R.ShiftRows(R.SubBytes(s))[4 * r + c] == Sbox(s[4 * r + (c + r) % 4])
    ensures R.InvSubBytes(R.InvShiftRows(s))[4 * r + c] == Rsbox(s[4 * r + (c - r + 4) % 4])
  {
    hide Sbox, Rsbox, R.LeftFrom, R.RightFrom;
    R.FromAt(r, c);
  }

  lemma {:induction false} ColumnIs(s: R.State, c: nat)
    requires c < 4
    ensures R.ColumnOf(s, c) == R.Column(s[4 * 0 + c], s[4 * 1 + c], s[4 * 2 + c], s[4 * 3 + c])
  {
  }

  /** The column that SubBytes and ShiftRows make. */
  lemma {:induction false} Diagonal(s: R.State, c: nat)
    requires c < 4
    ensures R.ColumnOf(R.ShiftRows(R.SubBytes(s)), c)
         == R.Column(Sbox(s[c]), Sbox(s[4 + (c + 1) % 4]), Sbox(s[8 + (c + 2) % 4]), Sbox(s[12 + (c + 3) % 4]))
  {
    hide *;
    DiagonalByte(s, 0, c);
    DiagonalByte(s, 1, c);
    DiagonalByte(s, 2, c);
    DiagonalByte(s, 3, c);
    ColumnIs(R.ShiftRows(R.SubBytes(s)), c);
  }

  lemma {:induction false} InvDiagonal(s: R.State, c: nat)
    requires c < 4
    ensures R.ColumnOf(R.InvSubBytes(R.InvShiftRows(s)), c)
         == R.Column(Rsbox(s[c]), Rsbox(s[4 + (c + 3) % 4]), Rsbox(s[8 + (c + 2) % 4]), Rsbox(s[12 + (c + 1) % 4]))
  {
    hide *;
    DiagonalByte(s, 0, c);
    DiagonalByte(s, 1, c);
    DiagonalByte(s, 2, c);
    DiagonalByte(s, 3, c);
    ColumnIs(R.InvSubBytes(R.InvShiftRows(s)), c);
  }

  lemma {:induction false} SumColumn(s: R.State, k: R.State, c: nat)
    requires c < 4
    ensures var t := R.AddRoundKey(s, k);
            && t[c] == R.ColumnOf(s, c).a0 ^ k[c] && t[4 + c] == R.ColumnOf(s, c).a1 ^ k[4 + c]
            && t[8 + c] == R.ColumnOf(s, c).a2 ^ k[8 + c] && t[12 + c] == R.ColumnOf(s, c).a3 ^ k[12 + c]
            && R.ColumnOf(t, c) == R.Column(t[c], t[4 + c], t[8 + c], t[12 + c])
  {
  }

  lemma {:induction false} RoundBytes(s: R.State, k: R.State)
    ensures IsRound(s, k, C.Round(s, k))
  {
    forall c | 0 <= c < 4
      ensures MixedBytes(s, k, C.Round(s, k), c)
    {
      RoundColumn(s, k, c);
    }
  }

  lemma {:induction false} RoundColumn(s: R.State, k: R.State, c: nat)
    requires c < 4
    ensures MixedBytes(s, k, C.Round(s, k), c)
  {
    hide Sbox, Times, Sum4, R.Mix, R.SubBytes, R.ShiftRows, R.MixColumns, R.AddRoundKey, R.ColumnOf;
    var u := R.ShiftRows(R.SubBytes(s));
    Diagonal(s, c);
    var b := R.ColumnOf(u, c);
    MixRows(b.a0, b.a1, b.a2, b.a3);
    R.ColumnOfMixed(u, c);
    SumColumn(R.MixColumns(u), k, c);
  }

  lemma {:induction false} LastRoundBytes(s: R.State, k: R.State)
    ensures IsLastRound(s, k, C.LastRound(s, k))
  {
    hide Sbox, R.SubBytes, R.ShiftRows, R.AddRoundKey, R.ColumnOf;
    forall c | 0 <= c < 4
      ensures LastBytes(s, k, C.LastRound(s, k), c)
    {
      Diagonal(s, c);
      SumColumn(R.ShiftRows(R.SubBytes(s)), k, c);
    }
  }

  lemma {:induction false} InvRoundBytes(s: R.State, k: R.State)
    ensures IsInvRound(s, k, C.InvRound(s, k))
  {
    forall c | 0 <= c < 4
      ensures UnmixedBytes(s, k, C.InvRound(s, k), c)
    {
      InvRoundColumn(s, k, c);
    }
  }

  lemma {:induction false} InvRoundColumn(s: R.State, k: R.State, c: nat)
    requires c < 4
    ensures UnmixedBytes(s, k, C.InvRound(s, k), c)
  {
    hide *;
    var u := R.InvSubBytes(R.InvShiftRows(s));
    var v := R.AddRoundKey(u, k);
    InvDiagonal(s, c);
    SumColumn(u, k, c);
    UnmixRows(v[c], v[4 + c], v[8 + c], v[12 + c]);
    R.ColumnOfMixed(v, c);
    InvRoundIs(s, k);
    InvBytes(s, k, u, v, c);
    FromColumn(s, k, C.InvRound(s, k), v, c);
  }

  lemma {:induction false} InvRoundIs(s: R.State, k: R.State)
    ensures C.InvRound(s, k) == R.InvMixColumns(R.AddRoundKey(R.InvSubBytes(R.InvShiftRows(s)), k))
  {
    hide R.InvMixColumns, R.AddRoundKey, R.InvSubBytes, R.InvShiftRows;
  }

  lemma {:induction false} FromColumn(s: R.State, k: R.State, t: R.State, v: R.State, c: nat)
    requires c < 4
    requires v[c] == InvByte(s[c], k[c]) && v[4 + c] == InvByte(s[4 + (c + 3) % 4], k[4 + c])
    requires v[8 + c] == InvByte(s[8 + (c + 2) % 4], k[8 + c]) && v[12 + c] == InvByte(s[12 + (c + 1) % 4], k[12 + c])
    requires R.ColumnOf(t, c)
          == R.Column(Sum4(Times(v[c], 14), Times(v[4 + c], 11), Times(v[8 + c], 13), Times(v[12 + c], 9)),
                      Sum4(Times(v[c], 9), Times(v[4 + c], 14), Times(v[8 + c], 11), Times(v[12 + c], 13)),
                      Sum4(Times(v[c], 13), Times(v[4 + c], 9), Times(v[8 + c], 14), Times(v[12 + c], 11)),
                      Sum4(Times(v[c], 11), Times(v[4 + c], 13), Times(v[8 + c], 9), Times(v[12 + c], 14)))
    ensures UnmixedBytes(s, k, t, c)
  {
    hide InvByte, Times, Sum4;
  }

  lemma {:induction false} InvBytes(s: R.State, k: R.State, u: R.State, v: R.State, c: nat)
    requires c < 4 && u == R.InvSubBytes(R.InvShiftRows(s)) && v == R.AddRoundKey(u, k)
    ensures v[c] == InvByte(s[c], k[c]) && v[4 + c] == InvByte(s[4 + (c + 3) % 4], k[4 + c])
    ensures v[8 + c] == InvByte(s[8 + (c + 2) % 4], k[8 + c]) && v[12 + c] == InvByte(s[12 + (c + 1) % 4], k[12 + c])
  {
    hide Rsbox, R.InvSubBytes, R.InvShiftRows, R.AddRoundKey;
    InvDiagonal(s, c);
    SumColumn(u, k, c);
  }

  lemma {:induction false} LastInvRoundBytes(s: R.State, k: R.State)
    ensures IsLastInvRound(s, k, R.AddRoundKey(R.InvSubBytes(R.InvShiftRows(s)), k))
  {
    hide Rsbox, R.InvSubBytes, R.InvShiftRows, R.AddRoundKey, R.ColumnOf;
    forall c | 0 <= c < 4
      ensures LastInvBytes(s, k, R.AddRoundKey(R.InvSubBytes(R.InvShiftRows(s)), k), c)
    {
      InvDiagonal(s, c);
      SumColumn(R.InvSubBytes(R.InvShiftRows(s)), k, c);
    }
  }

  // ----- all rounds

  /** A round key in an expanded key, as a state. */
  function KeyAt(e: seq<bv8>, at: nat): (k: R.State)
    requires at + 16 <= |e|
    ensures forall t :: 0 <= t < 16 ==> k[t] == e[at + 4 * (t % 4) + t / 4]
  {
    seq(16, t requires 0 <= t < 16 => e[at + 4 * (t % 4) + t / 4])
  }

  /** The round keys in an expanded key. */
  function KeysIn(e: seq<bv8>, rounds: nat): (ks: seq<R.State>)
    requires 16 * (rounds + 1) <= |e|
    ensures |ks| == rounds + 1 && forall r :: 0 <= r <= rounds ==> ks[r] == KeyAt(e, 16 * r)
  {
    seq(rounds + 1, r requires 0 <= r <= rounds => KeyAt(e, 16 * r))
  }

  /** The states of an encryption of s: the first key is added, then come the rounds, each from the one
      before, and last the round without the matrix. */
  ghost predicate Encryption(s: seq<bv8>, e: seq<bv8>, rounds: nat, states: seq<seq<bv8>>) {
    && 0 < rounds && 16 * (rounds + 1) <= |e| && |states| == rounds + 1
    && IsSum(s, KeyAt(e, 0), states[0])
    && (forall i :: 0 < i < rounds ==> IsRound(states[i - 1], KeyAt(e, 16 * i), states[i]))
    && IsLastRound(states[rounds - 1], KeyAt(e, 16 * rounds), states[rounds])
  }

  /** The states of a decryption of s, with the round keys from the last to the first. */
  ghost predicate Decryption(s: seq<bv8>, e: seq<bv8>, rounds: nat, states: seq<seq<bv8>>) {
    && 0 < rounds && 16 * (rounds + 1) <= |e| && |states| == rounds + 1
    && IsSum(s, KeyAt(e, 16 * rounds), states[0])
    && (forall i :: 0 < i < rounds ==> IsInvRound(states[i - 1], KeyAt(e, 16 * (rounds - i)), states[i]))
    && IsLastInvRound(states[rounds - 1], KeyAt(e, 0), states[rounds])
  }

  lemma {:induction false} SumBytes(s: R.State, k: R.State)
    ensures IsSum(s, k, R.AddRoundKey(s, k))
  {
  }

  lemma {:induction false} StatesAfter(s: R.State, ks: seq<R.State>, i: nat) returns (states: seq<seq<bv8>>)
    requires i < |ks|
    ensures |states| == i + 1 && states[i] == C.After(s, ks, i) && IsSum(s, ks[0], states[0])
    ensures forall j :: 0 < j <= i ==> IsRound(states[j - 1], ks[j], states[j])
    decreases i
  {
    hide IsSum, IsRound, R.AddRoundKey, C.Round;
    if i == 0 {
      SumBytes(s, ks[0]);
      states := [R.AddRoundKey(s, ks[0])];
    } else {
      var before := StatesAfter(s, ks, i - 1);
      RoundBytes(C.After(s, ks, i - 1), ks[i]);
      states := before + [C.After(s, ks, i)];
    }
  }

  /** The cipher under the round keys of e is the end of such a sequence of states. */
  lemma {:induction false} CipherStates(s: R.State, e: seq<bv8>, rounds: nat) returns (states: seq<seq<bv8>>)
    requires 0 < rounds && 16 * (rounds + 1) <= |e|
    ensures Encryption(s, e, rounds, states) && states[rounds] == C.Cipher(s, KeysIn(e, rounds))
  {
    hide IsSum, IsRound, IsLastRound, C.After, C.LastRound;
    var ks := KeysIn(e, rounds);
    var before := StatesAfter(s, ks, rounds - 1);
    LastRoundBytes(C.After(s, ks, rounds - 1), ks[rounds]);
    states := before + [C.LastRound(C.After(s, ks, rounds - 1), ks[rounds])];
  }

  lemma {:induction false} StatesBefore(s: R.State, ks: seq<R.State>, i: nat) returns (states: seq<seq<bv8>>)
    requires i + 1 < |ks|
    ensures var n := |ks| - 1;
            && |states| == i + 1 && states[i] == C.Before(s, ks, n - i) && IsSum(s, ks[n], states[0])
            && forall j :: 0 < j <= i ==> IsInvRound(states[j - 1], ks[n - j], states[j])
    decreases i
  {
    hide IsSum, IsInvRound, R.AddRoundKey, C.InvRound;
    var n := |ks| - 1;
    if i == 0 {
      SumBytes(s, ks[n]);
      states := [R.AddRoundKey(s, ks[n])];
    } else {
      var before := StatesBefore(s, ks, i - 1);
      InvRoundBytes(C.Before(s, ks, n - i + 1), ks[n - i]);
      states := before + [C.Before(s, ks, n - i)];
    }
  }

  /** And so is the inverse cipher. */
  lemma {:induction false} InvCipherStates(s: R.State, e: seq<bv8>, rounds: nat) returns (states: seq<seq<bv8>>)
    requires 0 < rounds && 16 * (rounds + 1) <= |e|
    ensures Decryption(s, e, rounds, states) && states[rounds] == C.InvCipher(s, KeysIn(e, rounds))
  {
    hide IsSum, IsInvRound, IsLastInvRound, C.Before, R.AddRoundKey;
    var ks := KeysIn(e, rounds);
    var before := StatesBefore(s, ks, rounds - 1);
    LastInvRoundBytes(C.Before(s, ks, 1), ks[0]);
    states := before + [C.InvCipher(s, ks)];
  }
  // ----- the key expansion

  /** Four bytes at at, from those at back and the four just before, which are rotated, substituted and
      given a round constant. */
  predicate RotatedBytes(e: seq<bv8>, at: nat, back: nat, rcon: bv8)
    requires 4 <= at && at + 4 <= |e| && back + 4 <= |e|
  {
    && e[at] == e[back] ^ Sbox(e[at - 3]) ^ rcon
    && e[at + 1] == e[back + 1] ^ Sbox(e[at - 2])
    && e[at + 2] == e[back + 2] ^ Sbox(e[at - 1])
    && e[at + 3] == e[back + 3] ^ Sbox(e[at - 4])
  }

  /** Those just before are substituted. */
  predicate SubstitutedBytes(e: seq<bv8>, at: nat, back: nat)
    requires 4 <= at && at + 4 <= |e| && back + 4 <= |e|
  {
    && e[at] == e[back] ^ Sbox(e[at - 4])
    && e[at + 1] == e[back + 1] ^ Sbox(e[at - 3])
    && e[at + 2] == e[back + 2] ^ Sbox(e[at - 2])
    && e[at + 3] == e[back + 3] ^ Sbox(e[at - 1])
  }

  /** They are taken as they are. */
  predicate PlainBytes(e: seq<bv8>, at: nat, back: nat)
    requires 4 <= at && at + 4 <= |e| && back + 4 <= |e|
  {
    && e[at] == e[back] ^ e[at - 4]
    && e[at + 1] == e[back + 1] ^ e[at - 3]
    && e[at + 2] == e[back + 2] ^ e[at - 2]
    && e[at + 3] == e[back + 3] ^ e[at - 1]
  }

  /** Word w of the expanded key, by the key length of nk words. */
  predicate NextBytes(e: seq<bv8>, nk: nat, w: nat)
    requires 0 < nk <= w < 60 && 4 * w + 4 <= |e|
  {
    if w % nk == 0 then RotatedBytes(e, 4 * w, 4 * (w - nk), Rcon((w / nk) as bv8))
    else if nk == 8 && w % 8 == 4 then SubstitutedBytes(e, 4 * w, 4 * (w - nk))
    else PlainBytes(e, 4 * w, 4 * (w - nk))
  }

  /** e starts with the key, of 16, 24 or 32 bytes, and its first 176, 208 or 240 bytes are the expansion. */
  ghost predicate IsExpansion(e: seq<bv8>, key: seq<bv8>) {
    && (|key| == 16 || |key| == 24 || |key| == 32)
    && (if |key| == 16 then 176 else if |key| == 24 then 208 else 240) <= |e|
    && e[..|key|] == key
    && forall w :: |key| / 4 <= w < (if |key| == 16 then 44 else if |key| == 24 then 52 else 60) ==>
                     NextBytes(e, |key| / 4, w)
  }

  /** Word i of an expanded key. */
  function WordOf(e: seq<bv8>, i: nat): C.Word
    requires 4 * i + 4 <= |e|
  {
    C.Word(e[4 * i], e[4 * i + 1], e[4 * i + 2], e[4 * i + 3])
  }

  /** The first w words of e are those of the key schedule. */
  ghost predicate Expanded(e: seq<bv8>, key: seq<bv8>, nk: nat, w: nat) {
    C.KeyLength(nk) && |key| == 4 * nk && w <= 60 && 4 * w <= |e| &&
    forall i :: 0 <= i < w ==> WordOf(e, i) == C.KeyWord(key, nk, i)
  }

  lemma {:induction false} XorThree(x: bv8, s: bv8, r: bv8)
    ensures x ^ (s ^ r) == x ^ s ^ r && s ^ 0 == s
  {
  }

  /** The core of the schedule: a word rotated to the left, substituted, and given a round constant. */
  lemma {:induction false} CoreBytes(b: C.Word, n: nat)
    requires n < 255
    ensures b.Rot().Sub().Xor(C.RconWord(n))
         == C.Word(Sbox(b.b1) ^ Rcon(n as bv8), Sbox(b.b2), Sbox(b.b3), Sbox(b.b0))
  {
    hide Sbox, Rcon;
    XorThree(0, Sbox(b.b2), 0);
    XorThree(0, Sbox(b.b3), 0);
    XorThree(0, Sbox(b.b0), 0);
  }

  lemma {:induction false} TurnedWord(u: C.Word, b: C.Word, r: bv8)
    ensures u.Xor(b.Rot().Sub().Xor(C.Word(r, 0, 0, 0)))
         == C.Word(u.b0 ^ Sbox(b.b1) ^ r, u.b1 ^ Sbox(b.b2), u.b2 ^ Sbox(b.b3), u.b3 ^ Sbox(b.b0))
  {
    hide Sbox;
    XorThree(u.b0, Sbox(b.b1), r);
    XorThree(0, Sbox(b.b2), 0);
    XorThree(0, Sbox(b.b3), 0);
    XorThree(0, Sbox(b.b0), 0);
  }

  lemma {:induction false} RotatedWord(e: seq<bv8>, i: nat, back: nat, r: bv8)
    requires 0 < i && back < i && 4 * i + 4 <= |e|
    requires WordOf(e, i) == WordOf(e, back).Xor(WordOf(e, i - 1).Rot().Sub().Xor(C.Word(r, 0, 0, 0)))
    ensures RotatedBytes(e, 4 * i, 4 * back, r)
  {
    hide Sbox, C.Word.Xor, C.Word.Rot, C.Word.Sub;
    TurnedWord(WordOf(e, back), WordOf(e, i - 1), r);
  }

  lemma {:induction false} SubstitutedWord(e: seq<bv8>, i: nat, back: nat)
    requires 0 < i && back < i && 4 * i + 4 <= |e|
    requires WordOf(e, i) == WordOf(e, back).Xor(WordOf(e, i - 1).Sub())
    ensures SubstitutedBytes(e, 4 * i, 4 * back)
  {
    hide Sbox;
  }

  lemma {:induction false} PlainWord(e: seq<bv8>, i: nat, back: nat)
    requires 0 < i && back < i && 4 * i + 4 <= |e|
    requires WordOf(e, i) == WordOf(e, back).Xor(WordOf(e, i - 1))
    ensures PlainBytes(e, 4 * i, 4 * back)
  {
  }

  lemma {:induction false} CoreCases(nk: nat, w: nat, b: C.Word)
    requires C.KeyLength(nk) && w < 60
    ensures C.Core(nk, w, b)
         == if w % nk == 0 then b.Rot().Sub().Xor(C.RconWord(w / nk))
            else if nk == 8 && w % 8 == 4 then b.Sub() else b
  {
    hide C.Word.Rot, C.Word.Sub, C.Word.Xor, C.RconWord;
  }

  lemma {:induction false} RconIs(n: nat)
    requires n < 255
    ensures C.RconWord(n) == C.Word(Rcon(n as bv8), 0, 0, 0)
  {
    hide Rcon;
  }

  lemma {:induction false} FirstOfRound(e: seq<bv8>, nk: nat, w: nat, n: nat)
    requires C.KeyLength(nk) && nk <= w < 60 && 4 * w + 4 <= |e| && w % nk == 0 && n == w / nk
    requires WordOf(e, w) == WordOf(e, w - nk).Xor(WordOf(e, w - 1).Rot().Sub().Xor(C.RconWord(n)))
    ensures NextBytes(e, nk, w)
  {
    hide Sbox, Rcon, WordOf, C.RconWord, C.Word.Xor, C.Word.Rot, C.Word.Sub, RotatedBytes;
    assert n < 255;
    RconIs(n);
    RotatedWord(e, w, w - nk, Rcon(n as bv8));
  }

  lemma {:induction false} NextWordBytes(e: seq<bv8>, nk: nat, w: nat)
    requires C.KeyLength(nk) && nk <= w < 60 && 4 * w + 4 <= |e|
    requires WordOf(e, w) == WordOf(e, w - nk).Xor(C.Core(nk, w, WordOf(e, w - 1)))
    ensures NextBytes(e, nk, w)
  {
    hide Sbox, Rcon, C.Core, C.RconWord, WordOf, C.Word.Xor, C.Word.Rot, C.Word.Sub;
    hide RotatedBytes, SubstitutedBytes, PlainBytes;
    CoreCases(nk, w, WordOf(e, w - 1));
    if w % nk == 0 {
      FirstOfRound(e, nk, w, w / nk);
    } else if nk == 8 && w % 8 == 4 {
      SubstitutedWord(e, w, w - nk);
    } else {
      PlainWord(e, w, w - nk);
    }
  }

  lemma {:induction false} WordRecurrence(key: seq<bv8>, nk: nat, w: nat)
    requires C.KeyLength(nk) && |key| == 4 * nk && nk <= w < 60
    ensures C.KeyWord(key, nk, w) == C.KeyWord(key, nk, w - nk).Xor(C.Core(nk, w, C.KeyWord(key, nk, w - 1)))
  {
    hide C.Core;
  }

  lemma {:induction false} FirstByte(e: seq<bv8>, key: seq<bv8>, nk: nat, j: nat)
    requires C.KeyLength(nk) && |key| == 4 * nk && j < |key| <= |e| && WordOf(e, j / 4) == C.KeyWord(key, nk, j / 4)
    ensures e[j] == key[j]
  {
    assert j == 4 * (j / 4) + j % 4;
  }

  /** The schedule obeys the recurrence byte by byte. */
  lemma {:induction false} ExpansionBytes(e: seq<bv8>, key: seq<bv8>, nk: nat)
    requires Expanded(e, key, nk, 4 * C.Rounds(nk) + 4)
    ensures IsExpansion(e, key)
  {
    hide C.KeyWord, C.Core, WordOf, NextBytes;
    var n := 4 * C.Rounds(nk) + 4;
    forall w | nk <= w < n
      ensures NextBytes(e, nk, w)
    {
      WordRecurrence(key, nk, w);
      NextWordBytes(e, nk, w);
    }
    forall j | 0 <= j < |key|
      ensures e[j] == key[j]
    {
      FirstByte(e, key, nk, j);
    }
    assert e[..|key|] == key;
  }

  // ----- blocks

  /** Block p is read into state s column by column. */
  ghost predicate Columns(p: seq<bv8>, s: seq<bv8>) {
    |p| == |s| == 16 && forall r, c :: 0 <= r < 4 && 0 <= c < 4 ==> s[4 * r + c] == p[4 * c + r]
  }

  /** All that happens between a block and its encryption: the state it is read into, the expanded key, and
      the states after the rounds. */
  datatype Trace = Trace(block: seq<bv8>, expanded: seq<bv8>, states: seq<seq<bv8>>)

  function RoundCount(key: seq<bv8>): nat {
    if |key| == 16 then 10 else if |key| == 24 then 12 else 14
  }

  /** c is p encrypted, byte by byte. */
  ghost predicate Encrypts(p: seq<bv8>, key: seq<bv8>, c: seq<bv8>, t: Trace) {
    && IsExpansion(t.expanded, key)
    && Columns(p, t.block)
    && Encryption(t.block, t.expanded, RoundCount(key), t.states)
    && Columns(c, t.states[RoundCount(key)])
  }

  /** p is c decrypted. */
  ghost predicate Decrypts(c: seq<bv8>, key: seq<bv8>, p: seq<bv8>, t: Trace) {
    && IsExpansion(t.expanded, key)
    && Columns(c, t.block)
    && Decryption(t.block, t.expanded, RoundCount(key), t.states)
    && Columns(p, t.states[RoundCount(key)])
  }

  lemma {:induction false} TransposeColumns(p: R.State)
    ensures Columns(p, C.Transpose(p)) && Columns(C.Transpose(p), p)
  {
    forall r, c | 0 <= r < 4 && 0 <= c < 4
      ensures C.Transpose(p)[4 * r + c] == p[4 * c + r]
    {
      R.Index(r, c);
    }
  }

  lemma {:induction false} TraceEncrypts(p: R.State, key: seq<bv8>, nk: nat, t: Trace, s: R.State)
    requires C.KeyLength(nk) && |key| == 4 * nk && Expanded(t.expanded, key, nk, 4 * C.Rounds(nk) + 4)
    requires t.block == C.Transpose(p) && Encryption(t.block, t.expanded, C.Rounds(nk), t.states)
    requires s == t.states[C.Rounds(nk)]
    ensures Encrypts(p, key, C.Transpose(s), t)
  {
    hide C.Transpose, Columns, Encryption, IsExpansion, Expanded;
    ExpansionBytes(t.expanded, key, nk);
    TransposeColumns(p);
    TransposeColumns(s);
  }

  lemma {:induction false} TraceDecrypts(c: R.State, key: seq<bv8>, nk: nat, t: Trace, s: R.State)
    requires C.KeyLength(nk) && |key| == 4 * nk && Expanded(t.expanded, key, nk, 4 * C.Rounds(nk) + 4)
    requires t.block == C.Transpose(c) && Decryption(t.block, t.expanded, C.Rounds(nk), t.states)
    requires s == t.states[C.Rounds(nk)]
    ensures Decrypts(c, key, C.Transpose(s), t)
  {
    hide C.Transpose, Columns, Decryption, IsExpansion, Expanded;
    ExpansionBytes(t.expanded, key, nk);
    TransposeColumns(c);
    TransposeColumns(s);
  }
}
