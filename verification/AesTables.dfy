/** The substitution tables of AES (sections 5.1.1 and 5.3.2 of FIPS 197), one function a row of
    sixteen entries, and the table of round constants. */
module AesTables {
  import opened GfByte

  function Sbox0(lo: bv8): bv8 {
    match lo
    case 0 => 0x63 case 1 => 0x7c case 2 => 0x77 case 3 => 0x7b
    case 4 => 0xf2 case 5 => 0x6b case 6 => 0x6f case 7 => 0xc5
    case 8 => 0x30 case 9 => 0x01 case 10 => 0x67 case 11 => 0x2b
    case 12 => 0xfe case 13 => 0xd7 case 14 => 0xab case _ => 0x76
  }

  function Sbox1(lo: bv8): bv8 {
    match lo
    case 0 => 0xca case 1 => 0x82 case 2 => 0xc9 case 3 => 0x7d
    case 4 => 0xfa case 5 => 0x59 case 6 => 0x47 case 7 => 0xf0
    case 8 => 0xad case 9 => 0xd4 case 10 => 0xa2 case 11 => 0xaf
    case 12 => 0x9c case 13 => 0xa4 case 14 => 0x72 case _ => 0xc0
  }

  function Sbox2(lo: bv8): bv8 {
    match lo
    case 0 => 0xb7 case 1 => 0xfd case 2 => 0x93 case 3 => 0x26
    case 4 => 0x36 case 5 => 0x3f case 6 => 0xf7 case 7 => 0xcc
    case 8 => 0x34 case 9 => 0xa5 case 10 => 0xe5 case 11 => 0xf1
    case 12 => 0x71 case 13 => 0xd8 case 14 => 0x31 case _ => 0x15
  }

  function Sbox3(lo: bv8): bv8 {
    match lo
    case 0 => 0x04 case 1 => 0xc7 case 2 => 0x23 case 3 => 0xc3
    case 4 => 0x18 case 5 => 0x96 case 6 => 0x05 case 7 => 0x9a
    case 8 => 0x07 case 9 => 0x12 case 10 => 0x80 case 11 => 0xe2
    case 12 => 0xeb case 13 => 0x27 case 14 => 0xb2 case _ => 0x75
  }

  function Sbox4(lo: bv8): bv8 {
    match lo
    case 0 => 0x09 case 1 => 0x83 case 2 => 0x2c case 3 => 0x1a
    case 4 => 0x1b case 5 => 0x6e case 6 => 0x5a case 7 => 0xa0
    case 8 => 0x52 case 9 => 0x3b case 10 => 0xd6 case 11 => 0xb3
    case 12 => 0x29 case 13 => 0xe3 case 14 => 0x2f case _ => 0x84
  }

  function Sbox5(lo: bv8): bv8 {
    match lo
    case 0 => 0x53 case 1 => 0xd1 case 2 => 0x00 case 3 => 0xed
    case 4 => 0x20 case 5 => 0xfc case 6 => 0xb1 case 7 => 0x5b
    case 8 => 0x6a case 9 => 0xcb case 10 => 0xbe case 11 => 0x39
    case 12 => 0x4a case 13 => 0x4c case 14 => 0x58 case _ => 0xcf
  }

  function Sbox6(lo: bv8): bv8 {
    match lo
    case 0 => 0xd0 case 1 => 0xef case 2 => 0xaa case 3 => 0xfb
    case 4 => 0x43 case 5 => 0x4d case 6 => 0x33 case 7 => 0x85
    case 8 => 0x45 case 9 => 0xf9 case 10 => 0x02 case 11 => 0x7f
    case 12 => 0x50 case 13 => 0x3c case 14 => 0x9f case _ => 0xa8
  }

  function Sbox7(lo: bv8): bv8 {
    match lo
    case 0 => 0x51 case 1 => 0xa3 case 2 => 0x40 case 3 => 0x8f
    case 4 => 0x92 case 5 => 0x9d case 6 => 0x38 case 7 => 0xf5
    case 8 => 0xbc case 9 => 0xb6 case 10 => 0xda case 11 => 0x21
    case 12 => 0x10 case 13 => 0xff case 14 => 0xf3 case _ => 0xd2
  }

  function Sbox8(lo: bv8): bv8 {
    match lo
    case 0 => 0xcd case 1 => 0x0c case 2 => 0x13 case 3 => 0xec
    case 4 => 0x5f case 5 => 0x97 case 6 => 0x44 case 7 => 0x17
    case 8 => 0xc4 case 9 => 0xa7 case 10 => 0x7e case 11 => 0x3d
    case 12 => 0x64 case 13 => 0x5d case 14 => 0x19 case _ => 0x73
  }

  function Sbox9(lo: bv8): bv8 {
    match lo
    case 0 => 0x60 case 1 => 0x81 case 2 => 0x4f case 3 => 0xdc
    case 4 => 0x22 case 5 => 0x2a case 6 => 0x90 case 7 => 0x88
    case 8 => 0x46 case 9 => 0xee case 10 => 0xb8 case 11 => 0x14
    case 12 => 0xde case 13 => 0x5e case 14 => 0x0b case _ => 0xdb
  }

  function SboxA(lo: bv8): bv8 {
    match lo
    case 0 => 0xe0 case 1 => 0x32 case 2 => 0x3a case 3 => 0x0a
    case 4 => 0x49 case 5 => 0x06 case 6 => 0x24 case 7 => 0x5c
    case 8 => 0xc2 case 9 => 0xd3 case 10 => 0xac case 11 => 0x62
    case 12 => 0x91 case 13 => 0x95 case 14 => 0xe4 case _ => 0x79
  }

  function SboxB(lo: bv8): bv8 {
    match lo
    case 0 => 0xe7 case 1 => 0xc8 case 2 => 0x37 case 3 => 0x6d
    case 4 => 0x8d case 5 => 0xd5 case 6 => 0x4e case 7 => 0xa9
    case 8 => 0x6c case 9 => 0x56 case 10 => 0xf4 case 11 => 0xea
    case 12 => 0x65 case 13 => 0x7a case 14 => 0xae case _ => 0x08
  }

  function SboxC(lo: bv8): bv8 {
    match lo
    case 0 => 0xba case 1 => 0x78 case 2 => 0x25 case 3 => 0x2e
    case 4 => 0x1c case 5 => 0xa6 case 6 => 0xb4 case 7 => 0xc6
    case 8 => 0xe8 case 9 => 0xdd case 10 => 0x74 case 11 => 0x1f
    case 12 => 0x4b case 13 => 0xbd case 14 => 0x8b case _ => 0x8a
  }

  function SboxD(lo: bv8): bv8 {
    match lo
    case 0 => 0x70 case 1 => 0x3e case 2 => 0xb5 case 3 => 0x66
    case 4 => 0x48 case 5 => 0x03 case 6 => 0xf6 case 7 => 0x0e
    case 8 => 0x61 case 9 => 0x35 case 10 => 0x57 case 11 => 0xb9
    case 12 => 0x86 case 13 => 0xc1 case 14 => 0x1d case _ => 0x9e
  }

  function SboxE(lo: bv8): bv8 {
    match lo
    case 0 => 0xe1 case 1 => 0xf8 case 2 => 0x98 case 3 => 0x11
    case 4 => 0x69 case 5 => 0xd9 case 6 => 0x8e case 7 => 0x94
    case 8 => 0x9b case 9 => 0x1e case 10 => 0x87 case 11 => 0xe9
    case 12 => 0xce case 13 => 0x55 case 14 => 0x28 case _ => 0xdf
  }

  function SboxF(lo: bv8): bv8 {
    match lo
    case 0 => 0x8c case 1 => 0xa1 case 2 => 0x89 case 3 => 0x0d
    case 4 => 0xbf case 5 => 0xe6 case 6 => 0x42 case 7 => 0x68
    case 8 => 0x41 case 9 => 0x99 case 10 => 0x2d case 11 => 0x0f
    case 12 => 0xb0 case 13 => 0x54 case 14 => 0xbb case _ => 0x16
  }

  /** The substitution table. */
  function Sbox(x: bv8): bv8 {
    match x >> 4
    case 0 => Sbox0(x & 15) case 1 => Sbox1(x & 15) case 2 => Sbox2(x & 15) case 3 => Sbox3(x & 15)
    case 4 => Sbox4(x & 15) case 5 => Sbox5(x & 15) case 6 => Sbox6(x & 15) case 7 => Sbox7(x & 15)
    case 8 => Sbox8(x & 15) case 9 => Sbox9(x & 15) case 10 => SboxA(x & 15) case 11 => SboxB(x & 15)
    case 12 => SboxC(x & 15) case 13 => SboxD(x & 15) case 14 => SboxE(x & 15) case _ => SboxF(x & 15)
  }

  function Rsbox0(lo: bv8): bv8 {
    match lo
    case 0 => 0x52 case 1 => 0x09 case 2 => 0x6a case 3 => 0xd5
    case 4 => 0x30 case 5 => 0x36 case 6 => 0xa5 case 7 => 0x38
    case 8 => 0xbf case 9 => 0x40 case 10 => 0xa3 case 11 => 0x9e
    case 12 => 0x81 case 13 => 0xf3 case 14 => 0xd7 case _ => 0xfb
  }

  function Rsbox1(lo: bv8): bv8 {
    match lo
    case 0 => 0x7c case 1 => 0xe3 case 2 => 0x39 case 3 => 0x82
    case 4 => 0x9b case 5 => 0x2f case 6 => 0xff case 7 => 0x87
    case 8 => 0x34 case 9 => 0x8e case 10 => 0x43 case 11 => 0x44
    case 12 => 0xc4 case 13 => 0xde case 14 => 0xe9 case _ => 0xcb
  }

  function Rsbox2(lo: bv8): bv8 {
    match lo
    case 0 => 0x54 case 1 => 0x7b case 2 => 0x94 case 3 => 0x32
    case 4 => 0xa6 case 5 => 0xc2 case 6 => 0x23 case 7 => 0x3d
    case 8 => 0xee case 9 => 0x4c case 10 => 0x95 case 11 => 0x0b
    case 12 => 0x42 case 13 => 0xfa case 14 => 0xc3 case _ => 0x4e
  }

  function Rsbox3(lo: bv8): bv8 {
    match lo
    case 0 => 0x08 case 1 => 0x2e case 2 => 0xa1 case 3 => 0x66
    case 4 => 0x28 case 5 => 0xd9 case 6 => 0x24 case 7 => 0xb2
    case 8 => 0x76 case 9 => 0x5b case 10 => 0xa2 case 11 => 0x49
    case 12 => 0x6d case 13 => 0x8b case 14 => 0xd1 case _ => 0x25
  }

  function Rsbox4(lo: bv8): bv8 {
    match lo
    case 0 => 0x72 case 1 => 0xf8 case 2 => 0xf6 case 3 => 0x64
    case 4 => 0x86 case 5 => 0x68 case 6 => 0x98 case 7 => 0x16
    case 8 => 0xd4 case 9 => 0xa4 case 10 => 0x5c case 11 => 0xcc
    case 12 => 0x5d case 13 => 0x65 case 14 => 0xb6 case _ => 0x92
  }

  function Rsbox5(lo: bv8): bv8 {
    match lo
    case 0 => 0x6c case 1 => 0x70 case 2 => 0x48 case 3 => 0x50
    case 4 => 0xfd case 5 => 0xed case 6 => 0xb9 case 7 => 0xda
    case 8 => 0x5e case 9 => 0x15 case 10 => 0x46 case 11 => 0x57
    case 12 => 0xa7 case 13 => 0x8d case 14 => 0x9d case _ => 0x84
  }

  function Rsbox6(lo: bv8): bv8 {
    match lo
    case 0 => 0x90 case 1 => 0xd8 case 2 => 0xab case 3 => 0x00
    case 4 => 0x8c case 5 => 0xbc case 6 => 0xd3 case 7 => 0x0a
    case 8 => 0xf7 case 9 => 0xe4 case 10 => 0x58 case 11 => 0x05
    case 12 => 0xb8 case 13 => 0xb3 case 14 => 0x45 case _ => 0x06
  }

  function Rsbox7(lo: bv8): bv8 {
    match lo
    case 0 => 0xd0 case 1 => 0x2c case 2 => 0x1e case 3 => 0x8f
    case 4 => 0xca case 5 => 0x3f case 6 => 0x0f case 7 => 0x02
    case 8 => 0xc1 case 9 => 0xaf case 10 => 0xbd case 11 => 0x03
    case 12 => 0x01 case 13 => 0x13 case 14 => 0x8a case _ => 0x6b
  }

  function Rsbox8(lo: bv8): bv8 {
    match lo
    case 0 => 0x3a case 1 => 0x91 case 2 => 0x11 case 3 => 0x41
    case 4 => 0x4f case 5 => 0x67 case 6 => 0xdc case 7 => 0xea
    case 8 => 0x97 case 9 => 0xf2 case 10 => 0xcf case 11 => 0xce
    case 12 => 0xf0 case 13 => 0xb4 case 14 => 0xe6 case _ => 0x73
  }

  function Rsbox9(lo: bv8): bv8 {
    match lo
    case 0 => 0x96 case 1 => 0xac case 2 => 0x74 case 3 => 0x22
    case 4 => 0xe7 case 5 => 0xad case 6 => 0x35 case 7 => 0x85
    case 8 => 0xe2 case 9 => 0xf9 case 10 => 0x37 case 11 => 0xe8
    case 12 => 0x1c case 13 => 0x75 case 14 => 0xdf case _ => 0x6e
  }

  function RsboxA(lo: bv8): bv8 {
    match lo
    case 0 => 0x47 case 1 => 0xf1 case 2 => 0x1a case 3 => 0x71
    case 4 => 0x1d case 5 => 0x29 case 6 => 0xc5 case 7 => 0x89
    case 8 => 0x6f case 9 => 0xb7 case 10 => 0x62 case 11 => 0x0e
    case 12 => 0xaa case 13 => 0x18 case 14 => 0xbe case _ => 0x1b
  }

  function RsboxB(lo: bv8): bv8 {
    match lo
    case 0 => 0xfc case 1 => 0x56 case 2 => 0x3e case 3 => 0x4b
    case 4 => 0xc6 case 5 => 0xd2 case 6 => 0x79 case 7 => 0x20
    case 8 => 0x9a case 9 => 0xdb case 10 => 0xc0 case 11 => 0xfe
    case 12 => 0x78 case 13 => 0xcd case 14 => 0x5a case _ => 0xf4
  }

  function RsboxC(lo: bv8): bv8 {
    match lo
    case 0 => 0x1f case 1 => 0xdd case 2 => 0xa8 case 3 => 0x33
    case 4 => 0x88 case 5 => 0x07 case 6 => 0xc7 case 7 => 0x31
    case 8 => 0xb1 case 9 => 0x12 case 10 => 0x10 case 11 => 0x59
    case 12 => 0x27 case 13 => 0x80 case 14 => 0xec case _ => 0x5f
  }

  function RsboxD(lo: bv8): bv8 {
    match lo
    case 0 => 0x60 case 1 => 0x51 case 2 => 0x7f case 3 => 0xa9
    case 4 => 0x19 case 5 => 0xb5 case 6 => 0x4a case 7 => 0x0d
    case 8 => 0x2d case 9 => 0xe5 case 10 => 0x7a case 11 => 0x9f
    case 12 => 0x93 case 13 => 0xc9 case 14 => 0x9c case _ => 0xef
  }

  function RsboxE(lo: bv8): bv8 {
    match lo
    case 0 => 0xa0 case 1 => 0xe0 case 2 => 0x3b case 3 => 0x4d
    case 4 => 0xae case 5 => 0x2a case 6 => 0xf5 case 7 => 0xb0
    case 8 => 0xc8 case 9 => 0xeb case 10 => 0xbb case 11 => 0x3c
    case 12 => 0x83 case 13 => 0x53 case 14 => 0x99 case _ => 0x61
  }

  function RsboxF(lo: bv8): bv8 {
    match lo
    case 0 => 0x17 case 1 => 0x2b case 2 => 0x04 case 3 => 0x7e
    case 4 => 0xba case 5 => 0x77 case 6 => 0xd6 case 7 => 0x26
    case 8 => 0xe1 case 9 => 0x69 case 10 => 0x14 case 11 => 0x63
    case 12 => 0x55 case 13 => 0x21 case 14 => 0x0c case _ => 0x7d
  }

  /** The inverse substitution table. */
  function Rsbox(x: bv8): bv8 {
    match x >> 4
    case 0 => Rsbox0(x & 15) case 1 => Rsbox1(x & 15) case 2 => Rsbox2(x & 15) case 3 => Rsbox3(x & 15)
    case 4 => Rsbox4(x & 15) case 5 => Rsbox5(x & 15) case 6 => Rsbox6(x & 15) case 7 => Rsbox7(x & 15)
    case 8 => Rsbox8(x & 15) case 9 => Rsbox9(x & 15) case 10 => RsboxA(x & 15) case 11 => RsboxB(x & 15)
    case 12 => RsboxC(x & 15) case 13 => RsboxD(x & 15) case 14 => RsboxE(x & 15) case _ => RsboxF(x & 15)
  }

  function Rcon0(lo: bv8): bv8 {
    match lo
    case 0 => 0x8d case 1 => 0x01 case 2 => 0x02 case 3 => 0x04
    case 4 => 0x08 case 5 => 0x10 case 6 => 0x20 case 7 => 0x40
    case 8 => 0x80 case 9 => 0x1b case 10 => 0x36 case 11 => 0x6c
    case 12 => 0xd8 case 13 => 0xab case 14 => 0x4d case _ => 0x9a
  }

  function Rcon1(lo: bv8): bv8 {
    match lo
    case 0 => 0x2f case 1 => 0x5e case 2 => 0xbc case 3 => 0x63
    case 4 => 0xc6 case 5 => 0x97 case 6 => 0x35 case 7 => 0x6a
    case 8 => 0xd4 case 9 => 0xb3 case 10 => 0x7d case 11 => 0xfa
    case 12 => 0xef case 13 => 0xc5 case 14 => 0x91 case _ => 0x39
  }

  function Rcon2(lo: bv8): bv8 {
    match lo
    case 0 => 0x72 case 1 => 0xe4 case 2 => 0xd3 case 3 => 0xbd
    case 4 => 0x61 case 5 => 0xc2 case 6 => 0x9f case 7 => 0x25
    case 8 => 0x4a case 9 => 0x94 case 10 => 0x33 case 11 => 0x66
    case 12 => 0xcc case 13 => 0x83 case 14 => 0x1d case _ => 0x3a
  }

  function Rcon3(lo: bv8): bv8 {
    match lo
    case 0 => 0x74 case 1 => 0xe8 case 2 => 0xcb case 3 => 0x8d
    case 4 => 0x01 case 5 => 0x02 case 6 => 0x04 case 7 => 0x08
    case 8 => 0x10 case 9 => 0x20 case 10 => 0x40 case 11 => 0x80
    case 12 => 0x1b case 13 => 0x36 case 14 => 0x6c case _ => 0xd8
  }

  function Rcon4(lo: bv8): bv8 {
    match lo
    case 0 => 0xab case 1 => 0x4d case 2 => 0x9a case 3 => 0x2f
    case 4 => 0x5e case 5 => 0xbc case 6 => 0x63 case 7 => 0xc6
    case 8 => 0x97 case 9 => 0x35 case 10 => 0x6a case 11 => 0xd4
    case 12 => 0xb3 case 13 => 0x7d case 14 => 0xfa case _ => 0xef
  }

  function Rcon5(lo: bv8): bv8 {
    match lo
    case 0 => 0xc5 case 1 => 0x91 case 2 => 0x39 case 3 => 0x72
    case 4 => 0xe4 case 5 => 0xd3 case 6 => 0xbd case 7 => 0x61
    case 8 => 0xc2 case 9 => 0x9f case 10 => 0x25 case 11 => 0x4a
    case 12 => 0x94 case 13 => 0x33 case 14 => 0x66 case _ => 0xcc
  }

  function Rcon6(lo: bv8): bv8 {
    match lo
    case 0 => 0x83 case 1 => 0x1d case 2 => 0x3a case 3 => 0x74
    case 4 => 0xe8 case 5 => 0xcb case 6 => 0x8d case 7 => 0x01
    case 8 => 0x02 case 9 => 0x04 case 10 => 0x08 case 11 => 0x10
    case 12 => 0x20 case 13 => 0x40 case 14 => 0x80 case _ => 0x1b
  }

  function Rcon7(lo: bv8): bv8 {
    match lo
    case 0 => 0x36 case 1 => 0x6c case 2 => 0xd8 case 3 => 0xab
    case 4 => 0x4d case 5 => 0x9a case 6 => 0x2f case 7 => 0x5e
    case 8 => 0xbc case 9 => 0x63 case 10 => 0xc6 case 11 => 0x97
    case 12 => 0x35 case 13 => 0x6a case 14 => 0xd4 case _ => 0xb3
  }

  function Rcon8(lo: bv8): bv8 {
    match lo
    case 0 => 0x7d case 1 => 0xfa case 2 => 0xef case 3 => 0xc5
    case 4 => 0x91 case 5 => 0x39 case 6 => 0x72 case 7 => 0xe4
    case 8 => 0xd3 case 9 => 0xbd case 10 => 0x61 case 11 => 0xc2
    case 12 => 0x9f case 13 => 0x25 case 14 => 0x4a case _ => 0x94
  }

  function Rcon9(lo: bv8): bv8 {
    match lo
    case 0 => 0x33 case 1 => 0x66 case 2 => 0xcc case 3 => 0x83
    case 4 => 0x1d case 5 => 0x3a case 6 => 0x74 case 7 => 0xe8
    case 8 => 0xcb case 9 => 0x8d case 10 => 0x01 case 11 => 0x02
    case 12 => 0x04 case 13 => 0x08 case 14 => 0x10 case _ => 0x20
  }

  function RconA(lo: bv8): bv8 {
    match lo
    case 0 => 0x40 case 1 => 0x80 case 2 => 0x1b case 3 => 0x36
    case 4 => 0x6c case 5 => 0xd8 case 6 => 0xab case 7 => 0x4d
    case 8 => 0x9a case 9 => 0x2f case 10 => 0x5e case 11 => 0xbc
    case 12 => 0x63 case 13 => 0xc6 case 14 => 0x97 case _ => 0x35
  }

  function RconB(lo: bv8): bv8 {
    match lo
    case 0 => 0x6a case 1 => 0xd4 case 2 => 0xb3 case 3 => 0x7d
    case 4 => 0xfa case 5 => 0xef case 6 => 0xc5 case 7 => 0x91
    case 8 => 0x39 case 9 => 0x72 case 10 => 0xe4 case 11 => 0xd3
    case 12 => 0xbd case 13 => 0x61 case 14 => 0xc2 case _ => 0x9f
  }

  function RconC(lo: bv8): bv8 {
    match lo
    case 0 => 0x25 case 1 => 0x4a case 2 => 0x94 case 3 => 0x33
    case 4 => 0x66 case 5 => 0xcc case 6 => 0x83 case 7 => 0x1d
    case 8 => 0x3a case 9 => 0x74 case 10 => 0xe8 case 11 => 0xcb
    case 12 => 0x8d case 13 => 0x01 case 14 => 0x02 case _ => 0x04
  }

  function RconD(lo: bv8): bv8 {
    match lo
    case 0 => 0x08 case 1 => 0x10 case 2 => 0x20 case 3 => 0x40
    case 4 => 0x80 case 5 => 0x1b case 6 => 0x36 case 7 => 0x6c
    case 8 => 0xd8 case 9 => 0xab case 10 => 0x4d case 11 => 0x9a
    case 12 => 0x2f case 13 => 0x5e case 14 => 0xbc case _ => 0x63
  }

  function RconE(lo: bv8): bv8 {
    match lo
    case 0 => 0xc6 case 1 => 0x97 case 2 => 0x35 case 3 => 0x6a
    case 4 => 0xd4 case 5 => 0xb3 case 6 => 0x7d case 7 => 0xfa
    case 8 => 0xef case 9 => 0xc5 case 10 => 0x91 case 11 => 0x39
    case 12 => 0x72 case 13 => 0xe4 case 14 => 0xd3 case _ => 0xbd
  }

  function RconF(lo: bv8): bv8 {
    match lo
    case 0 => 0x61 case 1 => 0xc2 case 2 => 0x9f case 3 => 0x25
    case 4 => 0x4a case 5 => 0x94 case 6 => 0x33 case 7 => 0x66
    case 8 => 0xcc case 9 => 0x83 case 10 => 0x1d case 11 => 0x3a
    case 12 => 0x74 case 13 => 0xe8 case _ => 0xcb
  }

  /** The table of round constants; it has no entry 255. */
  function Rcon(x: bv8): bv8
    requires x < 255
  {
    match x >> 4
    case 0 => Rcon0(x & 15) case 1 => Rcon1(x & 15) case 2 => Rcon2(x & 15) case 3 => Rcon3(x & 15)
    case 4 => Rcon4(x & 15) case 5 => Rcon5(x & 15) case 6 => Rcon6(x & 15) case 7 => Rcon7(x & 15)
    case 8 => Rcon8(x & 15) case 9 => Rcon9(x & 15) case 10 => RconA(x & 15) case 11 => RconB(x & 15)
    case 12 => RconC(x & 15) case 13 => RconD(x & 15) case 14 => RconE(x & 15) case _ => RconF(x & 15)
  }

  /** Each table undoes the other. */
  lemma SboxInverse(x: bv8)
    ensures Rsbox(Sbox(x)) == x
  {
  }

  lemma RsboxInverse(x: bv8)
    ensures Sbox(Rsbox(x)) == x
  {
  }

  // ----- the substitution table is what FIPS 197 defines

  /** The affine map of section 5.1.1, equation (5.3): b + rotl(b, 1..4) + 0x63. */
  function Affine(b: bv8): bv8 {
    b ^ ((b << 1) | (b >> 7)) ^ ((b << 2) | (b >> 6)) ^ ((b << 3) | (b >> 5)) ^ ((b << 4) | (b >> 4)) ^ 0x63
  }

  function Unaffine(s: bv8): bv8 {
    ((s << 1) | (s >> 7)) ^ ((s << 3) | (s >> 5)) ^ ((s << 6) | (s >> 2)) ^ 0x05
  }

  lemma AffineInverse(s: bv8)
    ensures Affine(Unaffine(s)) == s
  {
  }

  /** The multiplication loop: the sum, and what is left to multiply. */
  datatype Product = Product(sum: bv8, a: bv8, b: bv8)

  /** The sum after one more round. */
  function Gather(sum: bv8, a: bv8, b: bv8): bv8 {
    if b & 1 != 0 then sum ^ a else sum
  }

  /** q comes one round after p. */
  predicate Round(p: Product, q: Product) {
    q.sum == Gather(p.sum, p.a, p.b) && q.a == XTime(p.a) && q.b == p.b >> 1
  }

  /** Eight rounds, from 0 and two factors on. */
  predicate Rounds(x: bv8, y: bv8, p: Product, p1: Product, p2: Product, p3: Product, p4: Product, p5: Product,
                   p6: Product, p7: Product, p8: Product)
  {
    && p == Product(0, x, y) && Round(p, p1) && Round(p1, p2) && Round(p2, p3) && Round(p3, p4)
    && Round(p4, p5) && Round(p5, p6) && Round(p6, p7) && Round(p7, p8)
  }

  lemma UnitsTo7(x: bv8, y: bv8, p: Product, p1: Product, p2: Product, p3: Product, p4: Product, p5: Product,
                 p6: Product, p7: Product, p8: Product)
    requires x != 0 && x & 8 == 0 && y == Unaffine(Sbox(x)) && Rounds(x, y, p, p1, p2, p3, p4, p5, p6, p7, p8)
    ensures p8.sum == 1 && p8.b == 0
  {
    if x & 15 == 0 {} else if x & 15 == 1 {} else if x & 15 == 2 {} else if x & 15 == 3 {}
    else if x & 15 == 4 {} else if x & 15 == 5 {} else if x & 15 == 6 {} else {}
  }

  lemma UnitsFrom8(x: bv8, y: bv8, p: Product, p1: Product, p2: Product, p3: Product, p4: Product, p5: Product,
                   p6: Product, p7: Product, p8: Product)
    requires x & 8 != 0 && y == Unaffine(Sbox(x)) && Rounds(x, y, p, p1, p2, p3, p4, p5, p6, p7, p8)
    ensures p8.sum == 1 && p8.b == 0
  {
    if x & 15 == 8 {} else if x & 15 == 9 {} else if x & 15 == 10 {} else if x & 15 == 11 {}
    else if x & 15 == 12 {} else if x & 15 == 13 {} else if x & 15 == 14 {} else {}
  }

  /** The multiplication loop as a recursion. */
  function Loop(sum: bv8, a: bv8, b: bv8): bv8
    decreases b
  {
    if b == 0 then sum else Loop(Gather(sum, a, b), XTime(a), b >> 1)
  }

  lemma {:induction false} LoopIsTimes(sum: bv8, a: bv8, b: bv8)
    ensures Loop(sum, a, b) == sum ^ Times(a, b)
    decreases b
  {
    TimesRound(sum, a, b);
    if b != 0 {
      LoopIsTimes(Gather(sum, a, b), XTime(a), b >> 1);
    }
  }

  lemma {:induction false} LoopRound(p: Product, q: Product)
    requires Round(p, q)
    ensures Loop(p.sum, p.a, p.b) == Loop(q.sum, q.a, q.b)
  {
    if p.b == 0 {
      assert p.b >> 1 == 0;
    }
  }

  lemma {:induction false} EightRounds(x: bv8, y: bv8, p: Product, p1: Product, p2: Product, p3: Product, p4: Product,
                                       p5: Product, p6: Product, p7: Product, p8: Product)
    requires Rounds(x, y, p, p1, p2, p3, p4, p5, p6, p7, p8)
    ensures Loop(0, x, y) == Loop(p8.sum, p8.a, p8.b)
  {
    hide Loop, Round;
    LoopRound(p, p1);
    LoopRound(p1, p2);
    LoopRound(p2, p3);
    LoopRound(p3, p4);
    LoopRound(p4, p5);
    LoopRound(p5, p6);
    LoopRound(p6, p7);
    LoopRound(p7, p8);
  }

  lemma {:induction false} NextRound(p: Product) returns (q: Product)
    ensures Round(p, q)
  {
    q := Product(Gather(p.sum, p.a, p.b), XTime(p.a), p.b >> 1);
  }

  lemma {:induction false} LoopEnds(p: Product)
    requires p.b == 0
    ensures Loop(p.sum, p.a, p.b) == p.sum
  {
  }

  lemma {:induction false} RoundsAre(x: bv8, y: bv8, p: Product, p1: Product, p2: Product, p3: Product, p4: Product,
                                     p5: Product, p6: Product, p7: Product, p8: Product)
    requires p == Product(0, x, y) && Round(p, p1) && Round(p1, p2) && Round(p2, p3) && Round(p3, p4)
    requires Round(p4, p5) && Round(p5, p6) && Round(p6, p7) && Round(p7, p8)
    ensures Rounds(x, y, p, p1, p2, p3, p4, p5, p6, p7, p8)
  {
    hide Round;
  }

  /** Multiplying an index with its entry, without the affine map, gives 1. */
  lemma {:induction false} SboxUnit(x: bv8, y: bv8)
    requires x != 0 && y == Unaffine(Sbox(x))
    ensures Loop(0, x, y) == 1
  {
    hide *;
    var p := Product(0, x, y);
    var p1 := NextRound(p);
    var p2 := NextRound(p1);
    var p3 := NextRound(p2);
    var p4 := NextRound(p3);
    var p5 := NextRound(p4);
    var p6 := NextRound(p5);
    var p7 := NextRound(p6);
    var p8 := NextRound(p7);
    RoundsAre(x, y, p, p1, p2, p3, p4, p5, p6, p7, p8);
    if x & 8 == 0 {
      UnitsTo7(x, y, p, p1, p2, p3, p4, p5, p6, p7, p8);
    } else {
      UnitsFrom8(x, y, p, p1, p2, p3, p4, p5, p6, p7, p8);
    }
    EightRounds(x, y, p, p1, p2, p3, p4, p5, p6, p7, p8);
    LoopEnds(p8);
  }

  /** The table is the affine map applied to the multiplicative inverse, with 0 for 0, as section
      5.1.1 of FIPS 197 defines it. */
  lemma SboxIsAffineInverse(x: bv8)
    ensures var y := Unaffine(Sbox(x));
            Sbox(x) == Affine(y) && (if x == 0 then y == 0 else Times(x, y) == 1)
  {
    hide Times, Loop;
    AffineInverse(Sbox(x));
    if x != 0 {
      var y := Unaffine(Sbox(x));
      SboxUnit(x, y);
      LoopIsTimes(0, x, y);
    }
  }

  /** The round constants are the powers of x: each is x times the one before, from x^-1 at 0. */
  lemma RconPowers(num: bv8)
    requires num < 254
    ensures Rcon(num + 1) == XTime(Rcon(num))
    ensures Rcon(1) == 1
  {
  }
}
