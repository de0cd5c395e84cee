/** The table of boot.c for the CRC16 of SD cards, one function a row of sixteen entries. */
module CrcTable16 {
  function CrcTable0(lo: bv16): bv16 {
    match lo
    case 0 => 0x0000 case 1 => 0x1021 case 2 => 0x2042 case 3 => 0x3063
    case 4 => 0x4084 case 5 => 0x50a5 case 6 => 0x60c6 case 7 => 0x70e7
    case 8 => 0x8108 case 9 => 0x9129 case 10 => 0xa14a case 11 => 0xb16b
    case 12 => 0xc18c case 13 => 0xd1ad case 14 => 0xe1ce case _ => 0xf1ef
  }

  function CrcTable1(lo: bv16): bv16 {
    match lo
    case 0 => 0x1231 case 1 => 0x0210 case 2 => 0x3273 case 3 => 0x2252
    case 4 => 0x52b5 case 5 => 0x4294 case 6 => 0x72f7 case 7 => 0x62d6
    case 8 => 0x9339 case 9 => 0x8318 case 10 => 0xb37b case 11 => 0xa35a
    case 12 => 0xd3bd case 13 => 0xc39c case 14 => 0xf3ff case _ => 0xe3de
  }

  function CrcTable2(lo: bv16): bv16 {
    match lo
    case 0 => 0x2462 case 1 => 0x3443 case 2 => 0x0420 case 3 => 0x1401
    case 4 => 0x64e6 case 5 => 0x74c7 case 6 => 0x44a4 case 7 => 0x5485
    case 8 => 0xa56a case 9 => 0xb54b case 10 => 0x8528 case 11 => 0x9509
    case 12 => 0xe5ee case 13 => 0xf5cf case 14 => 0xc5ac case _ => 0xd58d
  }

  function CrcTable3(lo: bv16): bv16 {
    match lo
    case 0 => 0x3653 case 1 => 0x2672 case 2 => 0x1611 case 3 => 0x0630
    case 4 => 0x76d7 case 5 => 0x66f6 case 6 => 0x5695 case 7 => 0x46b4
    case 8 => 0xb75b case 9 => 0xa77a case 10 => 0x9719 case 11 => 0x8738
    case 12 => 0xf7df case 13 => 0xe7fe case 14 => 0xd79d case _ => 0xc7bc
  }

  function CrcTable4(lo: bv16): bv16 {
    match lo
    case 0 => 0x48c4 case 1 => 0x58e5 case 2 => 0x6886 case 3 => 0x78a7
    case 4 => 0x0840 case 5 => 0x1861 case 6 => 0x2802 case 7 => 0x3823
    case 8 => 0xc9cc case 9 => 0xd9ed case 10 => 0xe98e case 11 => 0xf9af
    case 12 => 0x8948 case 13 => 0x9969 case 14 => 0xa90a case _ => 0xb92b
  }

  function CrcTable5(lo: bv16): bv16 {
    match lo
    case 0 => 0x5af5 case 1 => 0x4ad4 case 2 => 0x7ab7 case 3 => 0x6a96
    case 4 => 0x1a71 case 5 => 0x0a50 case 6 => 0x3a33 case 7 => 0x2a12
    case 8 => 0xdbfd case 9 => 0xcbdc case 10 => 0xfbbf case 11 => 0xeb9e
    case 12 => 0x9b79 case 13 => 0x8b58 case 14 => 0xbb3b case _ => 0xab1a
  }

  function CrcTable6(lo: bv16): bv16 {
    match lo
    case 0 => 0x6ca6 case 1 => 0x7c87 case 2 => 0x4ce4 case 3 => 0x5cc5
    case 4 => 0x2c22 case 5 => 0x3c03 case 6 => 0x0c60 case 7 => 0x1c41
    case 8 => 0xedae case 9 => 0xfd8f case 10 => 0xcdec case 11 => 0xddcd
    case 12 => 0xad2a case 13 => 0xbd0b case 14 => 0x8d68 case _ => 0x9d49
  }

  function CrcTable7(lo: bv16): bv16 {
    match lo
    case 0 => 0x7e97 case 1 => 0x6eb6 case 2 => 0x5ed5 case 3 => 0x4ef4
    case 4 => 0x3e13 case 5 => 0x2e32 case 6 => 0x1e51 case 7 => 0x0e70
    case 8 => 0xff9f case 9 => 0xefbe case 10 => 0xdfdd case 11 => 0xcffc
    case 12 => 0xbf1b case 13 => 0xaf3a case 14 => 0x9f59 case _ => 0x8f78
  }

  function CrcTable8(lo: bv16): bv16 {
    match lo
    case 0 => 0x9188 case 1 => 0x81a9 case 2 => 0xb1ca case 3 => 0xa1eb
    case 4 => 0xd10c case 5 => 0xc12d case 6 => 0xf14e case 7 => 0xe16f
    case 8 => 0x1080 case 9 => 0x00a1 case 10 => 0x30c2 case 11 => 0x20e3
    case 12 => 0x5004 case 13 => 0x4025 case 14 => 0x7046 case _ => 0x6067
  }

  function CrcTable9(lo: bv16): bv16 {
    match lo
    case 0 => 0x83b9 case 1 => 0x9398 case 2 => 0xa3fb case 3 => 0xb3da
    case 4 => 0xc33d case 5 => 0xd31c case 6 => 0xe37f case 7 => 0xf35e
    case 8 => 0x02b1 case 9 => 0x1290 case 10 => 0x22f3 case 11 => 0x32d2
    case 12 => 0x4235 case 13 => 0x5214 case 14 => 0x6277 case _ => 0x7256
  }

  function CrcTable10(lo: bv16): bv16 {
    match lo
    case 0 => 0xb5ea case 1 => 0xa5cb case 2 => 0x95a8 case 3 => 0x8589
    case 4 => 0xf56e case 5 => 0xe54f case 6 => 0xd52c case 7 => 0xc50d
    case 8 => 0x34e2 case 9 => 0x24c3 case 10 => 0x14a0 case 11 => 0x0481
    case 12 => 0x7466 case 13 => 0x6447 case 14 => 0x5424 case _ => 0x4405
  }

  function CrcTable11(lo: bv16): bv16 {
    match lo
    case 0 => 0xa7db case 1 => 0xb7fa case 2 => 0x8799 case 3 => 0x97b8
    case 4 => 0xe75f case 5 => 0xf77e case 6 => 0xc71d case 7 => 0xd73c
    case 8 => 0x26d3 case 9 => 0x36f2 case 10 => 0x0691 case 11 => 0x16b0
    case 12 => 0x6657 case 13 => 0x7676 case 14 => 0x4615 case _ => 0x5634
  }

  function CrcTable12(lo: bv16): bv16 {
    match lo
    case 0 => 0xd94c case 1 => 0xc96d case 2 => 0xf90e case 3 => 0xe92f
    case 4 => 0x99c8 case 5 => 0x89e9 case 6 => 0xb98a case 7 => 0xa9ab
    case 8 => 0x5844 case 9 => 0x4865 case 10 => 0x7806 case 11 => 0x6827
    case 12 => 0x18c0 case 13 => 0x08e1 case 14 => 0x3882 case _ => 0x28a3
  }

  function CrcTable13(lo: bv16): bv16 {
    match lo
    case 0 => 0xcb7d case 1 => 0xdb5c case 2 => 0xeb3f case 3 => 0xfb1e
    case 4 => 0x8bf9 case 5 => 0x9bd8 case 6 => 0xabbb case 7 => 0xbb9a
    case 8 => 0x4a75 case 9 => 0x5a54 case 10 => 0x6a37 case 11 => 0x7a16
    case 12 => 0x0af1 case 13 => 0x1ad0 case 14 => 0x2ab3 case _ => 0x3a92
  }

  function CrcTable14(lo: bv16): bv16 {
    match lo
    case 0 => 0xfd2e case 1 => 0xed0f case 2 => 0xdd6c case 3 => 0xcd4d
    case 4 => 0xbdaa case 5 => 0xad8b case 6 => 0x9de8 case 7 => 0x8dc9
    case 8 => 0x7c26 case 9 => 0x6c07 case 10 => 0x5c64 case 11 => 0x4c45
    case 12 => 0x3ca2 case 13 => 0x2c83 case 14 => 0x1ce0 case _ => 0x0cc1
  }

  function CrcTable15(lo: bv16): bv16 {
    match lo
    case 0 => 0xef1f case 1 => 0xff3e case 2 => 0xcf5d case 3 => 0xdf7c
    case 4 => 0xaf9b case 5 => 0xbfba case 6 => 0x8fd9 case 7 => 0x9ff8
    case 8 => 0x6e17 case 9 => 0x7e36 case 10 => 0x4e55 case 11 => 0x5e74
    case 12 => 0x2e93 case 13 => 0x3eb2 case 14 => 0x0ed1 case _ => 0x1ef0
  }

  function CrcTable(k: bv16): bv16 {
    var hi, lo := k >> 4, k & 0xf;
    match hi
    case 0 => CrcTable0(lo) case 1 => CrcTable1(lo) case 2 => CrcTable2(lo) case 3 => CrcTable3(lo)
    case 4 => CrcTable4(lo) case 5 => CrcTable5(lo) case 6 => CrcTable6(lo) case 7 => CrcTable7(lo)
    case 8 => CrcTable8(lo) case 9 => CrcTable9(lo) case 10 => CrcTable10(lo) case 11 => CrcTable11(lo)
    case 12 => CrcTable12(lo) case 13 => CrcTable13(lo) case 14 => CrcTable14(lo) case _ => CrcTable15(lo)
  }

  /** One round of the bit-serial register: shift to the left, with the generator for a bit lost. */
  function ShiftBit(r: bv16): bv16 {
    (r << 1) ^ (if r & 0x8000 != 0 then 0x1021 else 0)
  }

  lemma {:induction false} LowHalfIsSerial(k: bv16, r0: bv16, r1: bv16, r2: bv16, r3: bv16, r4: bv16,
                                         r5: bv16, r6: bv16, r7: bv16, r8: bv16)
    requires k < 128 && r0 == k << 8
    requires r1 == ShiftBit(r0) && r2 == ShiftBit(r1) && r3 == ShiftBit(r2) && r4 == ShiftBit(r3)
    requires r5 == ShiftBit(r4) && r6 == ShiftBit(r5) && r7 == ShiftBit(r6) && r8 == ShiftBit(r7)
    ensures CrcTable(k) == r8
  {
  }

  lemma {:induction false} HighHalfIsSerial(k: bv16, r0: bv16, r1: bv16, r2: bv16, r3: bv16, r4: bv16,
                                         r5: bv16, r6: bv16, r7: bv16, r8: bv16)
    requires 128 <= k < 256 && r0 == k << 8
    requires r1 == ShiftBit(r0) && r2 == ShiftBit(r1) && r3 == ShiftBit(r2) && r4 == ShiftBit(r3)
    requires r5 == ShiftBit(r4) && r6 == ShiftBit(r5) && r7 == ShiftBit(r6) && r8 == ShiftBit(r7)
    ensures CrcTable(k) == r8
  {
  }

  /** The entry for k: k through eight rounds of the register. */
  lemma {:induction false} TableIsSerial(k: bv16, r0: bv16, r1: bv16, r2: bv16, r3: bv16, r4: bv16,
                                         r5: bv16, r6: bv16, r7: bv16, r8: bv16)
    requires k < 256 && r0 == k << 8
    requires r1 == ShiftBit(r0) && r2 == ShiftBit(r1) && r3 == ShiftBit(r2) && r4 == ShiftBit(r3)
    requires r5 == ShiftBit(r4) && r6 == ShiftBit(r5) && r7 == ShiftBit(r6) && r8 == ShiftBit(r7)
    ensures CrcTable(k) == r8
  {
    hide *;
    if k < 128 {
      LowHalfIsSerial(k, r0, r1, r2, r3, r4, r5, r6, r7, r8);
    } else {
      HighHalfIsSerial(k, r0, r1, r2, r3, r4, r5, r6, r7, r8);
    }
  }

  // ----- the three foldings of crc16 in sd.c

  function FoldNibble(k: bv16): bv16 {
    k ^ ((k >> 4) & 0xf)
  }

  function FoldTop(k: bv16): bv16 {
    k ^ (k << 12)
  }

  function FoldMiddle(k: bv16): bv16 {
    k ^ ((k & 0xff) << 5)
  }

  /** A closed form of the table. */
  function Closed(k: bv16): bv16 {
    FoldMiddle(FoldTop(FoldNibble(k)))
  }

  lemma TableIsClosed(k: bv16)
    requires k < 256
    ensures CrcTable(k) == Closed(k)
  {
  }

  // ----- 16-bit words

  function Plus(a: bv16, b: bv16): bv16 {
    a ^ b
  }

  function Shifted(crc: bv16): bv16 {
    crc << 8
  }

  lemma Narrow(data: bv8)
    ensures data as bv16 < 256
  {
  }

  lemma ExchangedBytes(crc: bv16, d: bv16)
    ensures ((crc >> 8) | (crc << 8)) ^ d == (crc << 8) ^ (d ^ (crc >> 8))
  {
  }

  lemma NibbleOfLow(v: bv16, u: bv16)
    requires v & 0xff == 0
    ensures FoldNibble(Plus(v, u)) == Plus(v, FoldNibble(u))
  {
    assert ((v ^ u) >> 4) & 0xf == (u >> 4) & 0xf;
  }

  lemma TopOfLow(v: bv16, u: bv16)
    requires v & 0xff == 0
    ensures FoldTop(Plus(v, u)) == Plus(v, FoldTop(u))
  {
    TopOfLowBits(v, u);
  }

  lemma TopOfLowBits(v: bv16, u: bv16)
    requires v & 0xff == 0
    ensures (v ^ u) ^ ((v ^ u) << 12) == v ^ (u ^ (u << 12))
  {
    assert (v ^ u) << 12 == u << 12;
  }

  lemma MiddleOfLow(v: bv16, u: bv16)
    requires v & 0xff == 0
    ensures FoldMiddle(Plus(v, u)) == Plus(v, FoldMiddle(u))
  {
    assert ((v ^ u) & 0xff) << 5 == (u & 0xff) << 5;
  }

  function Half(x: bv16): bv16 {
    x >> 1
  }

  function Twice(x: bv16): bv16 {
    x << 1
  }

  lemma {:induction false} Quarter(x: bv16)
    ensures Half(Half(Half(Half(x)))) == x >> 4
  {
  }

  lemma {:induction false} ByteFits(x: bv16, x1: bv16, x2: bv16, x3: bv16, x4: bv16, x5: bv16, x6: bv16, x7: bv16,
                                    x8: bv16)
    requires x < 256
    requires x1 == x << 1 && x2 == x1 << 1 && x3 == x2 << 1 && x4 == x3 << 1
    requires x5 == x4 << 1 && x6 == x5 << 1 && x7 == x6 << 1 && x8 == x7 << 1
    ensures x & 0x8000 == 0 && x1 & 0x8000 == 0 && x2 & 0x8000 == 0 && x3 & 0x8000 == 0
    ensures x4 & 0x8000 == 0 && x5 & 0x8000 == 0 && x6 & 0x8000 == 0 && x7 & 0x8000 == 0
    ensures x8 == x << 8
  {
  }

  lemma {:induction false} HalvesDouble(x: bv16)
    requires x & 0x8000 == 0
    ensures (x << 1) >> 1 == x && (x << 1) & 1 == 0
  {
  }

  lemma {:induction false} Shrinks(x: bv16)
    requires x != 0
    ensures x >> 1 < x
  {
  }

  lemma {:induction false} XorNothing(y: bv16)
    ensures 0 ^ y == y
  {
  }

  lemma {:induction false} WidenHalves(d: bv8)
    ensures (d as bv16) >> 1 == (d >> 1) as bv16
    ensures (d as bv16) & 1 == 0 <==> d & 1 == 0
    ensures d as bv16 == 0 <==> d == 0
  {
  }

  predicate Clear(x: bv16) {
    x & 0x8000 == 0
  }

  lemma {:induction false} TopBit(r: bv16, lo: bv16)
    requires !Clear(r) && lo == r & 0x7fff
    ensures Clear(lo) && r == Plus(lo, 0x8000) && Twice(lo) == Twice(r)
  {
    TopBitApart(r);
    TopBitGone(r);
  }

  lemma {:induction false} TopBitApart(r: bv16)
    requires r & 0x8000 != 0
    ensures r == (r & 0x7fff) ^ 0x8000
  {
  }

  lemma {:induction false} TopBitGone(r: bv16)
    ensures (r & 0x7fff) << 1 == r << 1 && (r & 0x7fff) & 0x8000 == 0
  {
  }

  lemma {:induction false} TopRound(r: bv16)
    requires !Clear(r)
    ensures ShiftBit(r) == Plus(Twice(r), 0x1021)
  {
  }

  lemma {:induction false} Bytes(x: bv16, hi: bv16, lo: bv16)
    requires hi == x >> 8 && lo == x & 0xff
    ensures hi < 256 && lo < 256 && x == Plus(Shifted(hi), lo) && Shifted(x) == Shifted(lo)
  {
    hide *;
    BytesSmall(x);
    BytesJoin(x);
    LowByteShifted(x);
  }

  lemma {:induction false} BytesSmall(x: bv16)
    ensures x >> 8 < 256 && x & 0xff < 256
  {
  }

  lemma {:induction false} BytesJoin(x: bv16)
    ensures Plus(Shifted(x >> 8), x & 0xff) == x
  {
    BytesApart(x);
  }

  lemma {:induction false} BytesApart(x: bv16)
    ensures x == ((x >> 8) << 8) ^ (x & 0xff)
  {
  }

  lemma {:induction false} LowByteShifted(x: bv16)
    ensures Shifted(x) == Shifted(x & 0xff)
  {
  }

  lemma {:induction false} PlusZero(x: bv16, y: bv16)
    requires Plus(x, y) == 0
    ensures x == y
  {
    SumZero(x, y);
  }

  lemma {:induction false} SumZero(x: bv16, y: bv16)
    ensures x ^ y == 0 ==> x == y
  {
  }

  lemma {:induction false} NonZeroHalf(x: bv16)
    requires x != 0 && x & 1 == 0
    ensures x >> 1 != 0
  {
  }

  /** The two bytes of a checksum, the high one first. */
  function Word(hi: bv8, lo: bv8): bv16 {
    ((hi as bv16) << 8) | (lo as bv16)
  }

  lemma {:induction false} WordIs(hi: bv8, lo: bv8)
    ensures Word(hi, lo) == Plus(Shifted(hi as bv16), lo as bv16)
  {
    WordBits(hi as bv16, lo as bv16);
    Narrow(lo);
  }

  lemma {:induction false} WordBits(hi: bv16, lo: bv16)
    requires lo < 256
    ensures (hi << 8) | lo == (hi << 8) ^ lo
  {
  }
}
