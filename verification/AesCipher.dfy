/** The AES cipher and its inverse (sections 5.1, 5.2 and 5.3 of FIPS 197), and the proof that
    decryption undoes encryption and encryption undoes decryption. */
module AesCipher {
  import opened AesTables
  import opened AesRounds

  // ----- the key schedule, word by word (section 5.2)

  datatype Word = Word(b0: bv8, b1: bv8, b2: bv8, b3: bv8) {
    function Byte(j: nat): bv8
      requires j < 4
    {
      if j == 0 then b0 else if j == 1 then b1 else if j == 2 then b2 else b3
    }

    function Rot(): Word {
      Word(b1, b2, b3, b0)
    }

    function Sub(): Word {
      Word(Sbox(b0), Sbox(b1), Sbox(b2), Sbox(b3))
    }

    function Xor(w: Word): Word {
      Word(b0 ^ w.b0, b1 ^ w.b1, b2 ^ w.b2, b3 ^ w.b3)
    }
  }

  /** Key lengths of 4, 6 and 8 words. */
  predicate KeyLength(nk: nat) {
    nk == 4 || nk == 6 || nk == 8
  }

  /** The key sizes in bytes. */
  predicate KeyBytes(size: nat) {
    size == 16 || size == 24 || size == 32
  }

  function RconWord(n: nat): Word
    requires n < 255
  {
    Word(Rcon(n as bv8), 0, 0, 0)
  }

  /** What the word before is turned into on the way to word i. */
  function Core(nk: nat, i: nat, temp: Word): Word
    requires KeyLength(nk) && i < 60
  {
    if i % nk == 0 then temp.Rot().Sub().Xor(RconWord(i / nk))
    else if nk > 6 && i % nk == 4 then temp.Sub()
    else temp
  }

  /** Word i of the expanded key. */
  function KeyWord(key: seq<bv8>, nk: nat, i: nat): Word
    requires KeyLength(nk) && |key| == 4 * nk && i < 60
  {
    if i < nk then Word(key[4 * i], key[4 * i + 1], key[4 * i + 2], key[4 * i + 3])
    else KeyWord(key, nk, i - nk).Xor(Core(nk, i, KeyWord(key, nk, i - 1)))
  }

  function Rounds(nk: nat): nat {
    nk + 6
  }

  /** Round key r as a state: word 4r + c is column c. */
  function RoundKey(key: seq<bv8>, nk: nat, r: nat): (k: State)
    requires KeyLength(nk) && |key| == 4 * nk && r <= Rounds(nk)
    ensures forall t :: 0 <= t < 16 ==> k[t] == KeyWord(key, nk, 4 * r + t % 4).Byte(t / 4)
  {
    seq(16, t requires 0 <= t < 16 => KeyWord(key, nk, 4 * r + t % 4).Byte(t / 4))
  }

  function KeySchedule(key: seq<bv8>, nk: nat): (ks: seq<State>)
    requires KeyLength(nk) && |key| == 4 * nk
    ensures |ks| == Rounds(nk) + 1
    ensures forall r :: 0 <= r <= Rounds(nk) ==> ks[r] == RoundKey(key, nk, r)
  {
    seq(Rounds(nk) + 1, r requires 0 <= r <= Rounds(nk) => RoundKey(key, nk, r))
  }

  // ----- the cipher

  function Round(s: State, k: State): State {
    AddRoundKey(MixColumns(ShiftRows(SubBytes(s))), k)
  }

  function LastRound(s: State, k: State): State {
    AddRoundKey(ShiftRows(SubBytes(s)), k)
  }

  /** The state after round i. */
  function After(s: State, ks: seq<State>, i: nat): State
    requires i < |ks|
  {
    if i == 0 then AddRoundKey(s, ks[0]) else Round(After(s, ks, i - 1), ks[i])
  }

  function Cipher(s: State, ks: seq<State>): State
    requires |ks| >= 2
  {
    LastRound(After(s, ks, |ks| - 2), ks[|ks| - 1])
  }

  function InvRound(s: State, k: State): State {
    InvMixColumns(AddRoundKey(InvSubBytes(InvShiftRows(s)), k))
  }

  /** The state of the inverse cipher once it has undone rounds down to and including i. */
  function Before(s: State, ks: seq<State>, i: nat): State
    requires 0 < i < |ks|
    decreases |ks| - i
  {
    if i == |ks| - 1 then AddRoundKey(s, ks[i]) else InvRound(Before(s, ks, i + 1), ks[i])
  }

  function InvCipher(s: State, ks: seq<State>): State
    requires |ks| >= 2
  {
    AddRoundKey(InvSubBytes(InvShiftRows(Before(s, ks, 1))), ks[0])
  }

  // ----- the inverse cipher undoes the cipher, round by round from the other end

  lemma SubShiftInverse(s: State)
    ensures InvSubBytes(InvShiftRows(ShiftRows(SubBytes(s)))) == s
    ensures ShiftRows(SubBytes(InvSubBytes(InvShiftRows(s)))) == s
  {
    ShiftRowsInverse(SubBytes(s));
    SubBytesInverse(s);
    SubBytesInverse(InvShiftRows(s));
    ShiftRowsInverse(s);
  }

  lemma {:induction false} InvRoundUndoes(s: State, k: State)
    ensures InvRound(ShiftRows(SubBytes(Round(s, k))), k) == ShiftRows(SubBytes(s))
  {
    SubShiftInverse(Round(s, k));
    AddRoundKeyInverse(MixColumns(ShiftRows(SubBytes(s))), k);
    MixColumnsInverse(ShiftRows(SubBytes(s)));
  }

  lemma {:induction false} BeforeCipher(s: State, ks: seq<State>, i: nat)
    requires 0 < i < |ks|
    ensures Before(Cipher(s, ks), ks, i) == ShiftRows(SubBytes(After(s, ks, i - 1)))
    decreases |ks| - i
  {
    if i == |ks| - 1 {
      AddRoundKeyInverse(ShiftRows(SubBytes(After(s, ks, i - 1))), ks[i]);
    } else {
      BeforeCipher(s, ks, i + 1);
      InvRoundUndoes(After(s, ks, i - 1), ks[i]);
    }
  }

  /** For any round keys, the inverse cipher undoes the cipher. */
  lemma {:induction false} InvCipherCipher(s: State, ks: seq<State>)
    requires |ks| >= 2
    ensures InvCipher(Cipher(s, ks), ks) == s
  {
    BeforeCipher(s, ks, 1);
    SubShiftInverse(After(s, ks, 0));
    AddRoundKeyInverse(s, ks[0]);
  }

  // ----- and conversely

  lemma {:induction false} RoundUndoes(s: State, k: State)
    ensures Round(InvSubBytes(InvShiftRows(InvRound(s, k))), k) == InvSubBytes(InvShiftRows(s))
  {
    SubShiftInverse(InvRound(s, k));
    MixColumnsInverse(AddRoundKey(InvSubBytes(InvShiftRows(s)), k));
    AddRoundKeyInverse(InvSubBytes(InvShiftRows(s)), k);
  }

  /** The state that a state before the inverse SubBytes and ShiftRows came from. */
  function Inner(s: State): State {
    InvSubBytes(InvShiftRows(s))
  }

  lemma {:induction false} FirstKey(s: State, ks: seq<State>)
    requires |ks| >= 2
    ensures After(InvCipher(s, ks), ks, 0) == Inner(Before(s, ks, 1))
  {
    AddRoundKeyInverse(Inner(Before(s, ks, 1)), ks[0]);
  }

  lemma {:induction false} MiddleKey(s: State, ks: seq<State>, i: nat)
    requires 0 < i < |ks| - 1
    ensures Round(Inner(Before(s, ks, i)), ks[i]) == Inner(Before(s, ks, i + 1))
  {
    RoundUndoes(Before(s, ks, i + 1), ks[i]);
  }

  lemma {:induction false} AfterStep(s: State, ks: seq<State>, i: nat)
    requires 0 < i < |ks|
    ensures After(s, ks, i) == Round(After(s, ks, i - 1), ks[i])
  {
  }

  /** Equal states stay equal over a round. */
  lemma Compose(a: State, x: State, y: State, b: State, k: State)
    requires x == y && a == Round(x, k) && Round(y, k) == b
    ensures a == b
  {
  }

  lemma {:induction false} AfterFrom(p: State, s: State, ks: seq<State>, i: nat)
    requires 0 < i < |ks| && After(p, ks, 0) == Inner(Before(s, ks, 1))
    ensures After(p, ks, i - 1) == Inner(Before(s, ks, i))
  {
    if i > 1 {
      AfterFrom(p, s, ks, i - 1);
      AfterStep(p, ks, i - 1);
      MiddleKey(s, ks, i - 1);
      Compose(After(p, ks, i - 1), After(p, ks, i - 2), Inner(Before(s, ks, i - 1)), Inner(Before(s, ks, i)),
              ks[i - 1]);
    }
  }

  lemma {:induction false} LastKey(p: State, s: State, ks: seq<State>)
    requires |ks| >= 2 && After(p, ks, |ks| - 2) == Inner(Before(s, ks, |ks| - 1))
    ensures Cipher(p, ks) == s
  {
    SubShiftInverse(Before(s, ks, |ks| - 1));
    AddRoundKeyInverse(s, ks[|ks| - 1]);
  }

  lemma {:induction false} CipherFrom(p: State, s: State, ks: seq<State>)
    requires |ks| >= 2 && After(p, ks, 0) == Inner(Before(s, ks, 1))
    ensures Cipher(p, ks) == s
  {
    hide After, Before, Inner, Cipher;
    AfterFrom(p, s, ks, |ks| - 1);
    LastKey(p, s, ks);
  }

  /** For any round keys, the cipher undoes the inverse cipher. */
  lemma {:induction false} CipherInvCipher(s: State, ks: seq<State>)
    requires |ks| >= 2
    ensures Cipher(InvCipher(s, ks), ks) == s
  {
    FirstKey(s, ks);
    CipherFrom(InvCipher(s, ks), s, ks);
  }

  // ----- blocks

  /** Blocks are read by rows into a state whose bytes are numbered by columns. */
  function Transpose(s: State): (t: State)
    ensures forall i :: 0 <= i < 16 ==> t[i] == s[4 * (i % 4) + i / 4]
  {
    seq(16, i requires 0 <= i < 16 => s[4 * (i % 4) + i / 4])
  }

  lemma TransposeTwice(s: State)
    ensures Transpose(Transpose(s)) == s
  {
    forall i | 0 <= i < 16
      ensures Transpose(Transpose(s))[i] == s[i]
    {
      Index(i % 4, i / 4);
    }
  }

  function Encrypt(p: State, key: seq<bv8>, nk: nat): State
    requires KeyLength(nk) && |key| == 4 * nk
  {
    Transpose(Cipher(Transpose(p), KeySchedule(key, nk)))
  }

  function Decrypt(c: State, key: seq<bv8>, nk: nat): State
    requires KeyLength(nk) && |key| == 4 * nk
  {
    Transpose(InvCipher(Transpose(c), KeySchedule(key, nk)))
  }

  /** For every block and every key of 16, 24 or 32 bytes, decryption undoes encryption and
      encryption undoes decryption, so each key permutes the blocks. */
  lemma {:induction false} RoundTrip(p: State, key: seq<bv8>, nk: nat)
    requires KeyLength(nk) && |key| == 4 * nk
    ensures Decrypt(Encrypt(p, key, nk), key, nk) == p
    ensures Encrypt(Decrypt(p, key, nk), key, nk) == p
  {
    hide KeySchedule, Cipher, InvCipher, Transpose;
    var ks := KeySchedule(key, nk);
    TransposeTwice(p);
    TransposeTwice(Cipher(Transpose(p), ks));
    TransposeTwice(InvCipher(Transpose(p), ks));
    InvCipherCipher(Transpose(p), ks);
    CipherInvCipher(Transpose(p), ks);
  }
}
