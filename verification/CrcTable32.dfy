/** The table of crc_32.c, one function a row of sixteen entries, and facts about 32-bit words. */
module CrcTable32 {
  function Row0(lo: bv8): bv32 {
    match lo
    case 0 => 0x00000000 case 1 => 0x77073096 case 2 => 0xee0e612c case 3 => 0x990951ba
    case 4 => 0x076dc419 case 5 => 0x706af48f case 6 => 0xe963a535 case 7 => 0x9e6495a3
    case 8 => 0x0edb8832 case 9 => 0x79dcb8a4 case 10 => 0xe0d5e91e case 11 => 0x97d2d988
    case 12 => 0x09b64c2b case 13 => 0x7eb17cbd case 14 => 0xe7b82d07 case _ => 0x90bf1d91
  }

  function Row1(lo: bv8): bv32 {
    match lo
    case 0 => 0x1db71064 case 1 => 0x6ab020f2 case 2 => 0xf3b97148 case 3 => 0x84be41de
    case 4 => 0x1adad47d case 5 => 0x6ddde4eb case 6 => 0xf4d4b551 case 7 => 0x83d385c7
    case 8 => 0x136c9856 case 9 => 0x646ba8c0 case 10 => 0xfd62f97a case 11 => 0x8a65c9ec
    case 12 => 0x14015c4f case 13 => 0x63066cd9 case 14 => 0xfa0f3d63 case _ => 0x8d080df5
  }

  function Row2(lo: bv8): bv32 {
    match lo
    case 0 => 0x3b6e20c8 case 1 => 0x4c69105e case 2 => 0xd56041e4 case 3 => 0xa2677172
    case 4 => 0x3c03e4d1 case 5 => 0x4b04d447 case 6 => 0xd20d85fd case 7 => 0xa50ab56b
    case 8 => 0x35b5a8fa case 9 => 0x42b2986c case 10 => 0xdbbbc9d6 case 11 => 0xacbcf940
    case 12 => 0x32d86ce3 case 13 => 0x45df5c75 case 14 => 0xdcd60dcf case _ => 0xabd13d59
  }

  function Row3(lo: bv8): bv32 {
    match lo
    case 0 => 0x26d930ac case 1 => 0x51de003a case 2 => 0xc8d75180 case 3 => 0xbfd06116
    case 4 => 0x21b4f4b5 case 5 => 0x56b3c423 case 6 => 0xcfba9599 case 7 => 0xb8bda50f
    case 8 => 0x2802b89e case 9 => 0x5f058808 case 10 => 0xc60cd9b2 case 11 => 0xb10be924
    case 12 => 0x2f6f7c87 case 13 => 0x58684c11 case 14 => 0xc1611dab case _ => 0xb6662d3d
  }

  function Row4(lo: bv8): bv32 {
    match lo
    case 0 => 0x76dc4190 case 1 => 0x01db7106 case 2 => 0x98d220bc case 3 => 0xefd5102a
    case 4 => 0x71b18589 case 5 => 0x06b6b51f case 6 => 0x9fbfe4a5 case 7 => 0xe8b8d433
    case 8 => 0x7807c9a2 case 9 => 0x0f00f934 case 10 => 0x9609a88e case 11 => 0xe10e9818
    case 12 => 0x7f6a0dbb case 13 => 0x086d3d2d case 14 => 0x91646c97 case _ => 0xe6635c01
  }

  function Row5(lo: bv8): bv32 {
    match lo
    case 0 => 0x6b6b51f4 case 1 => 0x1c6c6162 case 2 => 0x856530d8 case 3 => 0xf262004e
    case 4 => 0x6c0695ed case 5 => 0x1b01a57b case 6 => 0x8208f4c1 case 7 => 0xf50fc457
    case 8 => 0x65b0d9c6 case 9 => 0x12b7e950 case 10 => 0x8bbeb8ea case 11 => 0xfcb9887c
    case 12 => 0x62dd1ddf case 13 => 0x15da2d49 case 14 => 0x8cd37cf3 case _ => 0xfbd44c65
  }

  function Row6(lo: bv8): bv32 {
    match lo
    case 0 => 0x4db26158 case 1 => 0x3ab551ce case 2 => 0xa3bc0074 case 3 => 0xd4bb30e2
    case 4 => 0x4adfa541 case 5 => 0x3dd895d7 case 6 => 0xa4d1c46d case 7 => 0xd3d6f4fb
    case 8 => 0x4369e96a case 9 => 0x346ed9fc case 10 => 0xad678846 case 11 => 0xda60b8d0
    case 12 => 0x44042d73 case 13 => 0x33031de5 case 14 => 0xaa0a4c5f case _ => 0xdd0d7cc9
  }

  function Row7(lo: bv8): bv32 {
    match lo
    case 0 => 0x5005713c case 1 => 0x270241aa case 2 => 0xbe0b1010 case 3 => 0xc90c2086
    case 4 => 0x5768b525 case 5 => 0x206f85b3 case 6 => 0xb966d409 case 7 => 0xce61e49f
    case 8 => 0x5edef90e case 9 => 0x29d9c998 case 10 => 0xb0d09822 case 11 => 0xc7d7a8b4
    case 12 => 0x59b33d17 case 13 => 0x2eb40d81 case 14 => 0xb7bd5c3b case _ => 0xc0ba6cad
  }

  function Row8(lo: bv8): bv32 {
    match lo
    case 0 => 0xedb88320 case 1 => 0x9abfb3b6 case 2 => 0x03b6e20c case 3 => 0x74b1d29a
    case 4 => 0xead54739 case 5 => 0x9dd277af case 6 => 0x04db2615 case 7 => 0x73dc1683
    case 8 => 0xe3630b12 case 9 => 0x94643b84 case 10 => 0x0d6d6a3e case 11 => 0x7a6a5aa8
    case 12 => 0xe40ecf0b case 13 => 0x9309ff9d case 14 => 0x0a00ae27 case _ => 0x7d079eb1
  }

  function Row9(lo: bv8): bv32 {
    match lo
    case 0 => 0xf00f9344 case 1 => 0x8708a3d2 case 2 => 0x1e01f268 case 3 => 0x6906c2fe
    case 4 => 0xf762575d case 5 => 0x806567cb case 6 => 0x196c3671 case 7 => 0x6e6b06e7
    case 8 => 0xfed41b76 case 9 => 0x89d32be0 case 10 => 0x10da7a5a case 11 => 0x67dd4acc
    case 12 => 0xf9b9df6f case 13 => 0x8ebeeff9 case 14 => 0x17b7be43 case _ => 0x60b08ed5
  }

  function Rowa(lo: bv8): bv32 {
    match lo
    case 0 => 0xd6d6a3e8 case 1 => 0xa1d1937e case 2 => 0x38d8c2c4 case 3 => 0x4fdff252
    case 4 => 0xd1bb67f1 case 5 => 0xa6bc5767 case 6 => 0x3fb506dd case 7 => 0x48b2364b
    case 8 => 0xd80d2bda case 9 => 0xaf0a1b4c case 10 => 0x36034af6 case 11 => 0x41047a60
    case 12 => 0xdf60efc3 case 13 => 0xa867df55 case 14 => 0x316e8eef case _ => 0x4669be79
  }

  function Rowb(lo: bv8): bv32 {
    match lo
    case 0 => 0xcb61b38c case 1 => 0xbc66831a case 2 => 0x256fd2a0 case 3 => 0x5268e236
    case 4 => 0xcc0c7795 case 5 => 0xbb0b4703 case 6 => 0x220216b9 case 7 => 0x5505262f
    case 8 => 0xc5ba3bbe case 9 => 0xb2bd0b28 case 10 => 0x2bb45a92 case 11 => 0x5cb36a04
    case 12 => 0xc2d7ffa7 case 13 => 0xb5d0cf31 case 14 => 0x2cd99e8b case _ => 0x5bdeae1d
  }

  function Rowc(lo: bv8): bv32 {
    match lo
    case 0 => 0x9b64c2b0 case 1 => 0xec63f226 case 2 => 0x756aa39c case 3 => 0x026d930a
    case 4 => 0x9c0906a9 case 5 => 0xeb0e363f case 6 => 0x72076785 case 7 => 0x05005713
    case 8 => 0x95bf4a82 case 9 => 0xe2b87a14 case 10 => 0x7bb12bae case 11 => 0x0cb61b38
    case 12 => 0x92d28e9b case 13 => 0xe5d5be0d case 14 => 0x7cdcefb7 case _ => 0x0bdbdf21
  }

  function Rowd(lo: bv8): bv32 {
    match lo
    case 0 => 0x86d3d2d4 case 1 => 0xf1d4e242 case 2 => 0x68ddb3f8 case 3 => 0x1fda836e
    case 4 => 0x81be16cd case 5 => 0xf6b9265b case 6 => 0x6fb077e1 case 7 => 0x18b74777
    case 8 => 0x88085ae6 case 9 => 0xff0f6a70 case 10 => 0x66063bca case 11 => 0x11010b5c
    case 12 => 0x8f659eff case 13 => 0xf862ae69 case 14 => 0x616bffd3 case _ => 0x166ccf45
  }

  function Rowe(lo: bv8): bv32 {
    match lo
    case 0 => 0xa00ae278 case 1 => 0xd70dd2ee case 2 => 0x4e048354 case 3 => 0x3903b3c2
    case 4 => 0xa7672661 case 5 => 0xd06016f7 case 6 => 0x4969474d case 7 => 0x3e6e77db
    case 8 => 0xaed16a4a case 9 => 0xd9d65adc case 10 => 0x40df0b66 case 11 => 0x37d83bf0
    case 12 => 0xa9bcae53 case 13 => 0xdebb9ec5 case 14 => 0x47b2cf7f case _ => 0x30b5ffe9
  }

  function Rowf(lo: bv8): bv32 {
    match lo
    case 0 => 0xbdbdf21c case 1 => 0xcabac28a case 2 => 0x53b39330 case 3 => 0x24b4a3a6
    case 4 => 0xbad03605 case 5 => 0xcdd70693 case 6 => 0x54de5729 case 7 => 0x23d967bf
    case 8 => 0xb3667a2e case 9 => 0xc4614ab8 case 10 => 0x5d681b02 case 11 => 0x2a6f2b94
    case 12 => 0xb40bbe37 case 13 => 0xc30c8ea1 case 14 => 0x5a05df1b case _ => 0x2d02ef8d
  }

  function Crc32Table(k: bv8): bv32 {
    var hi, lo := k >> 4, k & 0xf;
    match hi
    case 0 => Row0(lo) case 1 => Row1(lo) case 2 => Row2(lo) case 3 => Row3(lo)
    case 4 => Row4(lo) case 5 => Row5(lo) case 6 => Row6(lo) case 7 => Row7(lo)
    case 8 => Row8(lo) case 9 => Row9(lo) case 10 => Rowa(lo) case 11 => Rowb(lo)
    case 12 => Rowc(lo) case 13 => Rowd(lo) case 14 => Rowe(lo) case _ => Rowf(lo)
  }

  /** One round of the reflected register: shift to the right, with the generator for a bit lost. */
  function Back(r: bv32): bv32 {
    (r >> 1) ^ (if r & 1 != 0 then 0xedb88320 else 0)
  }

  lemma {:induction false} FirstQuarterIsSerial(k: bv8, r0: bv32, r1: bv32, r2: bv32, r3: bv32, r4: bv32,
                                         r5: bv32, r6: bv32, r7: bv32, r8: bv32)
    requires k < 64 && r0 == k as bv32
    requires r1 == Back(r0) && r2 == Back(r1) && r3 == Back(r2) && r4 == Back(r3)
    requires r5 == Back(r4) && r6 == Back(r5) && r7 == Back(r6) && r8 == Back(r7)
    ensures Crc32Table(k) == r8
  {
  }

  lemma {:induction false} SecondQuarterIsSerial(k: bv8, r0: bv32, r1: bv32, r2: bv32, r3: bv32, r4: bv32,
                                         r5: bv32, r6: bv32, r7: bv32, r8: bv32)
    requires 64 <= k < 128 && r0 == k as bv32
    requires r1 == Back(r0) && r2 == Back(r1) && r3 == Back(r2) && r4 == Back(r3)
    requires r5 == Back(r4) && r6 == Back(r5) && r7 == Back(r6) && r8 == Back(r7)
    ensures Crc32Table(k) == r8
  {
  }

  lemma {:induction false} HighHalfIsSerial(k: bv8, r0: bv32, r1: bv32, r2: bv32, r3: bv32, r4: bv32,
                                         r5: bv32, r6: bv32, r7: bv32, r8: bv32)
    requires k >= 128 && r0 == k as bv32
    requires r1 == Back(r0) && r2 == Back(r1) && r3 == Back(r2) && r4 == Back(r3)
    requires r5 == Back(r4) && r6 == Back(r5) && r7 == Back(r6) && r8 == Back(r7)
    ensures Crc32Table(k) == r8
  {
  }

  /** The entry for k: k through eight rounds of the register. */
  lemma {:induction false} TableIsSerial(k: bv8, r0: bv32, r1: bv32, r2: bv32, r3: bv32, r4: bv32,
                                         r5: bv32, r6: bv32, r7: bv32, r8: bv32)
    requires r0 == k as bv32
    requires r1 == Back(r0) && r2 == Back(r1) && r3 == Back(r2) && r4 == Back(r3)
    requires r5 == Back(r4) && r6 == Back(r5) && r7 == Back(r6) && r8 == Back(r7)
    ensures Crc32Table(k) == r8
  {
    hide *;
    if k < 64 {
      FirstQuarterIsSerial(k, r0, r1, r2, r3, r4, r5, r6, r7, r8);
    } else if k < 128 {
      SecondQuarterIsSerial(k, r0, r1, r2, r3, r4, r5, r6, r7, r8);
    } else {
      HighHalfIsSerial(k, r0, r1, r2, r3, r4, r5, r6, r7, r8);
    }
  }

  // ----- 32-bit words

  function Plus(a: bv32, b: bv32): bv32 {
    a ^ b
  }

  function Half(x: bv32): bv32 {
    x >> 1
  }

  predicate Even(x: bv32) {
    x & 1 == 0
  }

  lemma {:induction false} BackEven(x: bv32)
    requires Even(x)
    ensures Back(x) == Half(x)
  {
    PlusNothing(x >> 1);
  }

  lemma {:induction false} PlusNothing(x: bv32)
    ensures x ^ 0 == x
  {
  }

  lemma {:induction false} BackOdd(x: bv32)
    requires !Even(x)
    ensures Back(x) == Plus(Half(x), 0xedb88320)
  {
  }

  lemma {:induction false} HalfPlus(x: bv32, y: bv32)
    ensures Half(Plus(x, y)) == Plus(Half(x), Half(y))
    ensures Even(Plus(x, y)) <==> (Even(x) <==> Even(y))
  {
    HalfXor(x, y);
    EvenXor(x, y);
  }

  lemma {:induction false} HalfXor(x: bv32, y: bv32)
    ensures (x ^ y) >> 1 == (x >> 1) ^ (y >> 1)
  {
  }

  lemma {:induction false} EvenXor(x: bv32, y: bv32)
    ensures (x ^ y) & 1 == 0 <==> (x & 1 == 0 <==> y & 1 == 0)
  {
  }

  lemma {:induction false} PlusLaws(a: bv32, b: bv32, c: bv32)
    ensures Plus(a, b) == Plus(b, a)
    ensures Plus(Plus(a, b), c) == Plus(a, Plus(b, c))
    ensures Plus(a, 0) == a && Plus(a, a) == 0
  {
    XorAssociates(a, b, c);
    XorCommutes(a, b);
    PlusNothing(a);
    WordXorSelf(a);
  }

  lemma {:induction false} XorAssociates(a: bv32, b: bv32, c: bv32)
    ensures (a ^ b) ^ c == a ^ (b ^ c)
  {
  }

  lemma {:induction false} XorCommutes(a: bv32, b: bv32)
    ensures a ^ b == b ^ a
  {
  }

  lemma {:induction false} WordXorSelf(a: bv32)
    ensures a ^ a == 0
  {
  }

  /** A round is linear. */
  lemma {:induction false} BackPlus(x: bv32, y: bv32)
    ensures Back(Plus(x, y)) == Plus(Back(x), Back(y))
  {
    hide *;
    var g: bv32 := 0xedb88320;
    HalfPlus(x, y);
    if Even(x) {
      BackEven(x);
      if Even(y) {
        BackEven(y);
        BackEven(Plus(x, y));
      } else {
        BackOdd(y);
        BackOdd(Plus(x, y));
        PlusLaws(Half(x), Half(y), g);
      }
    } else {
      BackOdd(x);
      if Even(y) {
        BackEven(y);
        BackOdd(Plus(x, y));
        PlusLaws(Half(x), Half(y), g);
        PlusLaws(Half(y), g, 0);
        PlusLaws(Half(x), g, Half(y));
      } else {
        BackOdd(y);
        BackEven(Plus(x, y));
        PlusLaws(Half(x), g, Plus(Half(y), g));
        PlusLaws(Half(y), g, g);
        PlusLaws(g, Half(y), g);
        PlusLaws(g, g, 0);
        PlusLaws(Half(y), 0, 0);
      }
    }
  }

  /** n rounds. */
  function BackN(r: bv32, n: nat): bv32
    decreases n
  {
    if n == 0 then r else BackN(Back(r), n - 1)
  }

  lemma {:induction false} BackNPlus(x: bv32, y: bv32, n: nat)
    ensures BackN(Plus(x, y), n) == Plus(BackN(x, n), BackN(y, n))
    decreases n
  {
    hide Plus, Back;
    if n > 0 {
      BackPlus(x, y);
      BackNPlus(Back(x), Back(y), n - 1);
    }
  }

  lemma {:induction false} BackNNext(x: bv32, n: nat, y: bv32)
    requires y == Back(x)
    ensures BackN(x, n + 1) == BackN(y, n) && BackN(x, 0) == x
  {
  }

  lemma {:induction false} EightRounds(r0: bv32, r1: bv32, r2: bv32, r3: bv32, r4: bv32, r5: bv32, r6: bv32, r7: bv32,
                                       r8: bv32)
    requires r1 == Back(r0) && r2 == Back(r1) && r3 == Back(r2) && r4 == Back(r3)
    requires r5 == Back(r4) && r6 == Back(r5) && r7 == Back(r6) && r8 == Back(r7)
    ensures BackN(r0, 8) == r8
  {
    hide *;
    BackNNext(r0, 7, r1);
    BackNNext(r1, 6, r2);
    BackNNext(r2, 5, r3);
    BackNNext(r3, 4, r4);
    BackNNext(r4, 3, r5);
    BackNNext(r5, 2, r6);
    BackNNext(r6, 1, r7);
    BackNNext(r7, 0, r8);
    BackNNext(r8, 0, Back(r8));
  }

  lemma {:induction false} TableIsRounds(k: bv8)
    ensures Crc32Table(k) == BackN(k as bv32, 8)
  {
    hide *;
    var r0 := k as bv32;
    var r1 := Back(r0);
    var r2 := Back(r1);
    var r3 := Back(r2);
    var r4 := Back(r3);
    var r5 := Back(r4);
    var r6 := Back(r5);
    var r7 := Back(r6);
    var r8 := Back(r7);
    TableIsSerial(k, r0, r1, r2, r3, r4, r5, r6, r7, r8);
    EightRounds(r0, r1, r2, r3, r4, r5, r6, r7, r8);
  }

  /** Eight even rounds. */
  lemma {:induction false} HighRounds(v: bv32)
    requires v & 0xff == 0
    ensures BackN(v, 8) == v >> 8
  {
    hide *;
    var r1 := Half(v);
    var r2 := Half(r1);
    var r3 := Half(r2);
    var r4 := Half(r3);
    var r5 := Half(r4);
    var r6 := Half(r5);
    var r7 := Half(r6);
    EvenHalves(v, r1, r2, r3, r4, r5, r6, r7);
    BackEven(v);
    BackEven(r1);
    BackEven(r2);
    BackEven(r3);
    BackEven(r4);
    BackEven(r5);
    BackEven(r6);
    BackEven(r7);
    EightRounds(v, r1, r2, r3, r4, r5, r6, r7, Half(r7));
  }

  lemma {:induction false} EvenHalves(v: bv32, r1: bv32, r2: bv32, r3: bv32, r4: bv32, r5: bv32, r6: bv32, r7: bv32)
    requires v & 0xff == 0
    requires r1 == Half(v) && r2 == Half(r1) && r3 == Half(r2) && r4 == Half(r3)
    requires r5 == Half(r4) && r6 == Half(r5) && r7 == Half(r6)
    ensures Even(v) && Even(r1) && Even(r2) && Even(r3) && Even(r4) && Even(r5) && Even(r6) && Even(r7)
    ensures Half(r7) == v >> 8
  {
    EvenShifts(v);
    NextShifts(v);
  }

  lemma {:induction false} EvenShifts(v: bv32)
    requires v & 0xff == 0
    ensures v & 1 == 0
    ensures (v >> 1) & 1 == 0
    ensures ((v >> 1) >> 1) & 1 == 0
    ensures (((v >> 1) >> 1) >> 1) & 1 == 0
    ensures ((((v >> 1) >> 1) >> 1) >> 1) & 1 == 0
    ensures (((((v >> 1) >> 1) >> 1) >> 1) >> 1) & 1 == 0
    ensures ((((((v >> 1) >> 1) >> 1) >> 1) >> 1) >> 1) & 1 == 0
    ensures (((((((v >> 1) >> 1) >> 1) >> 1) >> 1) >> 1) >> 1) & 1 == 0
  {
  }

  lemma {:induction false} NextShifts(v: bv32)
    ensures ((((((((v >> 1) >> 1) >> 1) >> 1) >> 1) >> 1) >> 1) >> 1) == v >> 8
  {
  }

  function LowByte(x: bv32): bv8 {
    (x & 0xff) as bv8
  }

  function High(x: bv32): bv32 {
    x & 0xffffff00
  }

  function Down(x: bv32): bv32 {
    x >> 8
  }

  lemma {:induction false} Parts(x: bv32)
    ensures x == Plus(High(x), LowByte(x) as bv32) && High(x) & 0xff == 0 && High(x) >> 8 == Down(x)
  {
    ByteApart(x);
    HighShifted(x);
  }

  lemma {:induction false} ByteApart(x: bv32)
    ensures x == (x & 0xffffff00) ^ ((x & 0xff) as bv8) as bv32
  {
  }

  lemma {:induction false} HighShifted(x: bv32)
    ensures (x & 0xffffff00) & 0xff == 0 && (x & 0xffffff00) >> 8 == x >> 8
  {
  }

  lemma {:induction false} DownOfSum(x: bv32, d: bv8)
    ensures Down(Plus(x, d as bv32)) == Down(x)
  {
    ByteShiftedOut(x, d);
  }

  lemma {:induction false} ByteShiftedOut(x: bv32, d: bv8)
    ensures (x ^ (d as bv32)) >> 8 == x >> 8
  {
  }

  // ----- single bits

  lemma {:induction false} HalfOfOne()
    ensures Half(1) == 0 && !Even(1) && Half(0) == 0 && Even(0)
  {
  }

  lemma {:induction false} SameHalves(x: bv32, y: bv32)
    requires Half(x) == Half(y) && (Even(x) <==> Even(y))
    ensures x == y
  {
    hide *;
    HalfPlus(x, y);
    PlusLaws(Half(x), Half(x), 0);
    ZeroHalves(Plus(x, y));
    PlusZero(x, y);
  }

  lemma {:induction false} ZeroHalves(x: bv32)
    requires Half(x) == 0 && Even(x)
    ensures x == 0
  {
  }

  lemma {:induction false} PlusZero(x: bv32, y: bv32)
    requires Plus(x, y) == 0
    ensures x == y
  {
    WordXorZero(x, y);
  }

  lemma {:induction false} WordXorZero(x: bv32, y: bv32)
    ensures x ^ y == 0 ==> x == y
  {
  }

  /** The highest of n bits. */
  predicate Top(x: bv32, n: nat)
    requires n > 0
  {
    if n == 1 then !Even(x) else Top(Half(x), n - 1)
  }

  lemma {:induction false} TopNext(x: bv32, n: nat)
    requires n > 0
    ensures Top(x, n + 1) == Top(Half(x), n)
  {
  }

  lemma {:induction false} EightTops(x: bv32, n: nat)
    requires n > 0
    ensures Top(x, n + 8) == Top(Down(x), n)
  {
    hide *;
    var r1 := Half(x);
    var r2 := Half(r1);
    var r3 := Half(r2);
    var r4 := Half(r3);
    var r5 := Half(r4);
    var r6 := Half(r5);
    var r7 := Half(r6);
    TopNext(x, n + 7);
    TopNext(r1, n + 6);
    TopNext(r2, n + 5);
    TopNext(r3, n + 4);
    TopNext(r4, n + 3);
    TopNext(r5, n + 2);
    TopNext(r6, n + 1);
    TopNext(r7, n);
    EightHalves(x);
  }

  lemma {:induction false} EightHalves(x: bv32)
    ensures Half(Half(Half(Half(Half(Half(Half(Half(x)))))))) == Down(x)
  {
    NextShifts(x);
  }

  lemma {:induction false} NoTop(x: bv32)
    ensures !Top(Half(x), 32)
  {
    hide *;
    TopNext(x, 32);
    EightTops(x, 25);
    EightTops(Down(x), 17);
    EightTops(Down(Down(x)), 9);
    EightTops(Down(Down(Down(x))), 1);
    AllDown(x);
    TopOne(Down(Down(Down(Down(x)))));
  }

  lemma {:induction false} TopOne(x: bv32)
    requires x == 0
    ensures !Top(x, 1)
  {
  }

  lemma {:induction false} AllDown(x: bv32)
    ensures Down(Down(Down(Down(x)))) == 0
  {
    AllShifted(x);
  }

  lemma {:induction false} AllShifted(x: bv32)
    ensures (((x >> 8) >> 8) >> 8) >> 8 == 0
  {
  }

  /** x has no bits but the lowest n. */
  predicate Fits(x: bv32, n: nat)
    decreases n
  {
    if n == 0 then x == 0 else Fits(Half(x), n - 1)
  }

  lemma {:induction false} FitsNext(x: bv32, n: nat)
    ensures Fits(x, n + 1) == Fits(Half(x), n) && (Fits(x, 0) <==> x == 0)
  {
  }

  lemma {:induction false} ByteFits(d: bv8)
    ensures Fits(d as bv32, 8)
  {
    hide *;
    var x := d as bv32;
    var r1 := Half(x);
    var r2 := Half(r1);
    var r3 := Half(r2);
    var r4 := Half(r3);
    var r5 := Half(r4);
    var r6 := Half(r5);
    var r7 := Half(r6);
    FitsNext(x, 7);
    FitsNext(r1, 6);
    FitsNext(r2, 5);
    FitsNext(r3, 4);
    FitsNext(r4, 3);
    FitsNext(r5, 2);
    FitsNext(r6, 1);
    FitsNext(r7, 0);
    FitsNext(Half(r7), 0);
    EightHalves(x);
    ByteDown(d);
  }

  lemma {:induction false} ByteDown(d: bv8)
    ensures Down(d as bv32) == 0
  {
  }

  lemma {:induction false} SameByte(c: bv8, d: bv8)
    requires c as bv32 == d as bv32
    ensures c == d
  {
  }
}
