/** Bytes as streams of bits, the highest bit of each byte first. */
module ByteStream {
  import opened Powers
  import opened CrcCode
  import GfByte

  /** The last n bits of d. */
  function LastBits(d: bv8, n: nat): (x: seq<bool>)
    ensures |x| == n
  {
    if n == 0 then [] else LastBits(d >> 1, n - 1) + [d & 1 != 0]
  }

  function Bits(d: bv8): (x: seq<bool>)
    ensures |x| == 8
  {
    LastBits(d, 8)
  }

  function Stream(s: seq<bv8>): (x: seq<bool>)
    ensures |x| == 8 * |s|
  {
    if s == [] then [] else Stream(s[..|s| - 1]) + Bits(s[|s| - 1])
  }

  lemma {:induction false} LastBitsNumber(d: bv8, n: nat)
    requires GfByte.Value(d) < Pow2(n)
    ensures Number(LastBits(d, n)) == GfByte.Value(d)
    decreases n
  {
    if n > 0 {
      GfByte.Halve(d);
      LastBitsNumber(d >> 1, n - 1);
      GfByte.Split(d);
      assert LastBits(d, n)[..n - 1] == LastBits(d >> 1, n - 1);
    }
  }

  /** The polynomial of the bits of a byte is that of the byte. */
  lemma {:induction false} BitsNumber(d: bv8)
    ensures Number(Bits(d)) == GfByte.Value(d)
  {
    hide Number, GfByte.Value;
    GfByte.ValueIsNumber(d);
    assert Pow2(8) == 256;
    LastBitsNumber(d, 8);
  }

  /** The stream determines the bytes. */
  lemma {:induction false} SameStream(s: seq<bv8>, t: seq<bv8>)
    requires Stream(s) == Stream(t)
    ensures s == t
    decreases |s|
  {
    hide Bits;
    if s != [] {
      var n := |s| - 1;
      assert Stream(s)[..8 * n] == Stream(s[..n]) && Stream(t)[..8 * n] == Stream(t[..n]);
      assert Stream(s)[8 * n..] == Bits(s[n]) && Stream(t)[8 * n..] == Bits(t[n]);
      SameStream(s[..n], t[..n]);
      SameBits(s[n], t[n]);
      assert s == s[..n] + [s[n]] && t == t[..n] + [t[n]];
    }
  }

  lemma {:induction false} SameBits(c: bv8, d: bv8)
    requires Bits(c) == Bits(d)
    ensures c == d
  {
    hide *;
    BitsNumber(c);
    BitsNumber(d);
    GfByte.SameNumber(c, d);
  }

  lemma {:induction false} StreamJoin(s: seq<bv8>, t: seq<bv8>)
    ensures Stream(s + t) == Stream(s) + Stream(t)
    decreases |t|
  {
    hide Bits;
    if t == [] {
      assert s + t == s;
    } else {
      assert (s + t)[..|s + t| - 1] == s + t[..|t| - 1];
      StreamJoin(s, t[..|t| - 1]);
    }
  }
}
