/** The block reader from the card's side: whatever a card sends before each block, a token 0xfe, 512 bytes
    and their CRC16 are read as that block. */
module CardStream {
  import opened Powers
  import opened Gf2
  import opened CrcCode
  import opened ByteStream
  import opened CrcTable16
  import opened DiskRead
  import GfByte
  import C16 = Crc16

  /** What a card sends for a block: some bytes while it is busy, the token, the data, and two bytes for the
      checksum, the high one first. */
  datatype Sent = Sent(busy: seq<bv8>, data: seq<bv8>, hi: bv8, lo: bv8)

  /** The busy bytes are not the token, and the block has its length. */
  predicate Proper(b: Sent) {
    0xfe !in b.busy && |b.data| == 512
  }

  /** The two bytes are the remainder of the data by x^16 + x^12 + x^5 + 1. */
  predicate Checked(b: Sent) {
    Remainder(Stream(b.data), 16, 0x11021) == 256 * (b.hi as nat) + (b.lo as nat)
  }

  function Bytes(b: Sent): (s: seq<bv8>)
    ensures |s| == |b.busy| + |b.data| + 3
  {
    b.busy + [0xfe] + b.data + [b.hi, b.lo]
  }

  /** All that is sent for some blocks, and their data. */
  function AllBytes(bs: seq<Sent>): seq<bv8> {
    if bs == [] then [] else AllBytes(bs[..|bs| - 1]) + Bytes(bs[|bs| - 1])
  }

  function AllData(bs: seq<Sent>): seq<bv8> {
    if bs == [] then [] else AllData(bs[..|bs| - 1]) + bs[|bs| - 1].data
  }

  // ----- the checksum as a number

  lemma {:induction false} XorShifted(a: nat, b: nat, n: nat)
    requires b < Pow2(n)
    ensures Xor(Shl(a, n), b) == Shl(a, n) + b
  {
    if n > 0 {
      XorShifted(a, b / 2, n - 1);
      XorByParts(0, Shl(a, n - 1), b % 2, b / 2, Shl(a, n), b, Shl(a, n) + b);
    }
  }

  lemma {:induction false} ShlIsTimes(a: nat, n: nat)
    ensures Shl(a, n) == a * Pow2(n)
  {
    if n > 0 {
      ShlIsTimes(a, n - 1);
    }
  }

  lemma {:induction false} EightShifted(a: nat)
    ensures Shl(a, 8) == 256 * a && Pow2(8) == 256
  {
    hide Shl;
    ShlIsTimes(a, 8);
    assert Pow2(8) == 256;
  }

  lemma {:induction false} WordValue(hi: bv8, lo: bv8)
    ensures C16.Value(Word(hi, lo)) == 256 * (hi as nat) + (lo as nat)
  {
    hide *;
    C16.WordNumber(hi, lo);
    NumberJoin(Bits(hi), Bits(lo));
    BitsNumber(hi);
    BitsNumber(lo);
    GfByte.ValueIsNumber(hi);
    GfByte.ValueIsNumber(lo);
    EightShifted(GfByte.Value(hi));
    XorShifted(GfByte.Value(hi), GfByte.Value(lo), 8);
  }

  lemma {:induction false} CheckedIff(b: Sent)
    ensures Checked(b) <==> C16.Register(0, b.data) == Word(b.hi, b.lo)
  {
    hide C16.Register, C16.Value, Word, Remainder, Stream;
    C16.RegisterIsRemainder(b.data);
    WordValue(b.hi, b.lo);
    if Checked(b) {
      C16.SameValue(C16.Register(0, b.data), Word(b.hi, b.lo));
    }
  }

  // ----- one block

  lemma {:induction false} TokenAfter(s: seq<bv8>, from: nat, m: nat)
    requires from + m < |s| && s[from + m] == 0xfe && forall j :: from <= j < from + m ==> s[j] != 0xfe
    ensures Token(s, from) == from + m
    decreases m
  {
    hide Token;
    if m == 0 {
      TokenHere(s, from);
    } else {
      TokenNext(s, from);
      TokenAfter(s, from + 1, m - 1);
    }
  }

  lemma {:induction false} NoToken(s: seq<bv8>, from: nat)
    requires from <= |s| && forall j :: from <= j < |s| ==> s[j] != 0xfe
    ensures Token(s, from) == |s|
    decreases |s| - from
  {
    hide Token;
    if from == |s| {
      TokenHere(s, from);
    } else {
      TokenNext(s, from);
      NoToken(s, from + 1);
    }
  }

  /** Where a proper block lies in what is sent. */
  lemma {:induction false} BlockInside(before: seq<bv8>, b: Sent, rest: seq<bv8>)
    requires Proper(b)
    ensures var s, k := before + Bytes(b) + rest, |before| + |b.busy|;
            && k + 515 <= |s| && Token(s, |before|) == k
            && Data(s, k) == b.data && s[k + 513] == b.hi && s[k + 514] == b.lo
  {
    hide Token;
    var s, k := before + Bytes(b) + rest, |before| + |b.busy|;
    var x := Bytes(b);
    assert s[k] == x[|b.busy|] == 0xfe;
    forall j | |before| <= j < k
      ensures s[j] != 0xfe
    {
      assert s[j] == x[j - |before|] == b.busy[j - |before|];
    }
    TokenAfter(s, |before|, |b.busy|);
    assert s[k + 1..k + 513] == b.data;
    assert s[k + 513] == x[|b.busy| + 513] && s[k + 514] == x[|b.busy| + 514];
  }

  /** After any reading that has come to the block, it is read if its checksum is right, and is where the
      reading fails if it is not. */
  lemma {:induction false} OneMore(before: seq<bv8>, b: Sent, rest: seq<bv8>, from: nat, n: nat, data: seq<bv8>)
    requires from <= |before| && Proper(b)
    requires Read(before + Bytes(b) + rest, from, n) == Reading(Returned, data, |before|)
    ensures Read(before + Bytes(b) + rest, from, n + 1)
         == if Checked(b) then Reading(Returned, data + b.data, |before| + |Bytes(b)|)
            else Reading(Failed(n), data, |before|)
  {
    hide Read, Token, Checked, C16.Register, Word, Bytes, Data;
    var s, k := before + Bytes(b) + rest, |before| + |b.busy|;
    NextBlock(s, from, n);
    BlockInside(before, b, rest);
    CheckedIff(b);
  }

  // ----- any number of blocks

  lemma {:induction false} Regroup(before: seq<bv8>, bs: seq<Sent>, rest: seq<bv8>)
    requires bs != []
    ensures var n := |bs| - 1;
            before + AllBytes(bs) + rest == (before + AllBytes(bs[..n])) + Bytes(bs[n]) + rest
    ensures var n := |bs| - 1;
            before + AllBytes(bs) + rest == before + AllBytes(bs[..n]) + (Bytes(bs[n]) + rest)
  {
  }

  /** Blocks with right checksums are read, in order, and nothing else. */
  lemma {:induction false} BlocksAreRead(before: seq<bv8>, bs: seq<Sent>, rest: seq<bv8>)
    requires forall i :: 0 <= i < |bs| ==> Proper(bs[i]) && Checked(bs[i])
    ensures Read(before + AllBytes(bs) + rest, |before|, |bs|)
         == Reading(Returned, AllData(bs), |before| + |AllBytes(bs)|)
    decreases |bs|
  {
    hide Read, Bytes, Proper, Checked;
    if bs == [] {
      NoBlocks(before + AllBytes(bs) + rest, |before|);
    } else {
      var n := |bs| - 1;
      Regroup(before, bs, rest);
      BlocksAreRead(before, bs[..n], Bytes(bs[n]) + rest);
      OneMore(before + AllBytes(bs[..n]), bs[n], rest, |before|, n, AllData(bs[..n]));
    }
  }

  lemma {:induction false} SplitBlocks(bs: seq<Sent>, i: nat) returns (tail: seq<bv8>)
    requires i < |bs|
    ensures AllBytes(bs) == AllBytes(bs[..i]) + Bytes(bs[i]) + tail
    decreases |bs|
  {
    hide Bytes;
    var n := |bs| - 1;
    if i == n {
      tail := [];
    } else {
      var t := SplitBlocks(bs[..n], i);
      assert bs[..n][..i] == bs[..i];
      tail := t + Bytes(bs[n]);
    }
  }

  /** The first block with a wrong checksum is where the reading fails, with the blocks before it read. */
  lemma {:induction false} BadBlockFails(before: seq<bv8>, bs: seq<Sent>, rest: seq<bv8>, i: nat, n: nat)
    requires i < |bs| && i < n && (forall j :: 0 <= j <= i ==> Proper(bs[j]))
    requires (forall j :: 0 <= j < i ==> Checked(bs[j])) && !Checked(bs[i])
    ensures var r := Read(before + AllBytes(bs) + rest, |before|, n);
            r.outcome == Failed(i) && r.data == AllData(bs[..i])
  {
    hide Read, Bytes, Proper, Checked, AllBytes, AllData;
    var tail := SplitBlocks(bs, i);
    var first, s := bs[..i], before + AllBytes(bs) + rest;
    assert s == before + AllBytes(first) + (Bytes(bs[i]) + tail + rest);
    assert s == (before + AllBytes(first)) + Bytes(bs[i]) + (tail + rest);
    BlocksAreRead(before, first, Bytes(bs[i]) + tail + rest);
    OneMore(before + AllBytes(first), bs[i], tail + rest, |before|, i, AllData(first));
    Stuck(s, |before|, i + 1, n);
  }

  /** A card that falls silent is waited for, whatever bytes but the token it still sends. */
  lemma {:induction false} SilentCardWaits(before: seq<bv8>, bs: seq<Sent>, rest: seq<bv8>, n: nat)
    requires |bs| < n && 0xfe !in rest && forall i :: 0 <= i < |bs| ==> Proper(bs[i]) && Checked(bs[i])
    ensures var r := Read(before + AllBytes(bs) + rest, |before|, n);
            r.outcome == Waiting(|bs|) && r.data == AllData(bs)
  {
    hide Read, Bytes, Proper, Checked, AllBytes, AllData, Token;
    var s := before + AllBytes(bs) + rest;
    var next := |before| + |AllBytes(bs)|;
    BlocksAreRead(before, bs, rest);
    NextBlock(s, |before|, |bs|);
    forall j | next <= j < |s|
      ensures s[j] != 0xfe
    {
      assert s[j] == rest[j - next];
    }
    NoToken(s, next);
    Stuck(s, |before|, |bs| + 1, n);
  }
}
