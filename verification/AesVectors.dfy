/** The examples of FIPS 197: the key expansion of Appendix A.1 and the cipher of Appendix B, round by round. */
module AesVectors {
  import opened Gf256
  import opened Aes

  // ---- Appendix A.1: the round keys of the example key ----

  const KEY0: Block :=
    [0x2b, 0x7e, 0x15, 0x16, 0x28, 0xae, 0xd2, 0xa6, 0xab, 0xf7, 0x15, 0x88, 0x09, 0xcf, 0x4f, 0x3c]
  const KEY1: Block :=
    [0xa0, 0xfa, 0xfe, 0x17, 0x88, 0x54, 0x2c, 0xb1, 0x23, 0xa3, 0x39, 0x39, 0x2a, 0x6c, 0x76, 0x05]
  const KEY2: Block :=
    [0xf2, 0xc2, 0x95, 0xf2, 0x7a, 0x96, 0xb9, 0x43, 0x59, 0x35, 0x80, 0x7a, 0x73, 0x59, 0xf6, 0x7f]
  const KEY3: Block :=
    [0x3d, 0x80, 0x47, 0x7d, 0x47, 0x16, 0xfe, 0x3e, 0x1e, 0x23, 0x7e, 0x44, 0x6d, 0x7a, 0x88, 0x3b]
  const KEY4: Block :=
    [0xef, 0x44, 0xa5, 0x41, 0xa8, 0x52, 0x5b, 0x7f, 0xb6, 0x71, 0x25, 0x3b, 0xdb, 0x0b, 0xad, 0x00]
  const KEY5: Block :=
    [0xd4, 0xd1, 0xc6, 0xf8, 0x7c, 0x83, 0x9d, 0x87, 0xca, 0xf2, 0xb8, 0xbc, 0x11, 0xf9, 0x15, 0xbc]
  const KEY6: Block :=
    [0x6d, 0x88, 0xa3, 0x7a, 0x11, 0x0b, 0x3e, 0xfd, 0xdb, 0xf9, 0x86, 0x41, 0xca, 0x00, 0x93, 0xfd]
  const KEY7: Block :=
    [0x4e, 0x54, 0xf7, 0x0e, 0x5f, 0x5f, 0xc9, 0xf3, 0x84, 0xa6, 0x4f, 0xb2, 0x4e, 0xa6, 0xdc, 0x4f]
  const KEY8: Block :=
    [0xea, 0xd2, 0x73, 0x21, 0xb5, 0x8d, 0xba, 0xd2, 0x31, 0x2b, 0xf5, 0x60, 0x7f, 0x8d, 0x29, 0x2f]
  const KEY9: Block :=
    [0xac, 0x77, 0x66, 0xf3, 0x19, 0xfa, 0xdc, 0x21, 0x28, 0xd1, 0x29, 0x41, 0x57, 0x5c, 0x00, 0x6e]
  const KEY10: Block :=
    [0xd0, 0x14, 0xf9, 0xa8, 0xc9, 0xee, 0x25, 0x89, 0xe1, 0x3f, 0x0c, 0xc8, 0xb6, 0x63, 0x0c, 0xa6]

  function Key(r: nat): Block
    requires r <= 10
  {
    match r
    case 0 => KEY0
    case 1 => KEY1
    case 2 => KEY2
    case 3 => KEY3
    case 4 => KEY4
    case 5 => KEY5
    case 6 => KEY6
    case 7 => KEY7
    case 8 => KEY8
    case 9 => KEY9
    case _ => KEY10
  }

  lemma Key1()
    ensures NextRoundKey(Key(0), Rcon(1)) == Key(1)
  {
  }

  lemma Key2()
    ensures NextRoundKey(Key(1), Rcon(2)) == Key(2)
  {
  }

  lemma Key3()
    ensures NextRoundKey(Key(2), Rcon(3)) == Key(3)
  {
  }

  lemma Key4()
    ensures NextRoundKey(Key(3), Rcon(4)) == Key(4)
  {
  }

  lemma Key5()
    ensures NextRoundKey(Key(4), Rcon(5)) == Key(5)
  {
  }

  lemma Key6()
    ensures NextRoundKey(Key(5), Rcon(6)) == Key(6)
  {
  }

  lemma Key7()
    ensures NextRoundKey(Key(6), Rcon(7)) == Key(7)
  {
  }

  lemma Key8()
    ensures NextRoundKey(Key(7), Rcon(8)) == Key(8)
  {
  }

  lemma Key9()
    ensures NextRoundKey(Key(8), Rcon(9)) == Key(9)
  {
  }

  lemma Key10()
    ensures NextRoundKey(Key(9), Rcon(10)) == Key(10)
  {
  }

  lemma EachKey(r: nat)
    requires r < 10
    ensures NextRoundKey(Key(r), Rcon(r + 1)) == Key(r + 1)
  {
    hide *;
    match r {
      case 0 => Key1();
      case 1 => Key2();
      case 2 => Key3();
      case 3 => Key4();
      case 4 => Key5();
      case 5 => Key6();
      case 6 => Key7();
      case 7 => Key8();
      case 8 => Key9();
      case _ => Key10();
    }
  }

  /** The key schedule gives the round keys of the appendix. */
  lemma {:induction false} ExampleKeys(r: nat)
    requires r <= 10
    ensures RoundKey(Key(0), r) == Key(r)
  {
    hide RoundKey, NextRoundKey, Rcon, Key;
    if r == 0 {
      FirstRoundKey(Key(0));
    } else {
      ExampleKeys(r - 1);
      RoundKeyStep(Key(0), r - 1);
      EachKey(r - 1);
    }
  }

  // ---- Appendix B: the state at the start of each round, and after the substitution of the next ----

  const INPUT: Block :=
    [0x32, 0x43, 0xf6, 0xa8, 0x88, 0x5a, 0x30, 0x8d, 0x31, 0x31, 0x98, 0xa2, 0xe0, 0x37, 0x07, 0x34]
  const OUTPUT: Block :=
    [0x39, 0x25, 0x84, 0x1d, 0x02, 0xdc, 0x09, 0xfb, 0xdc, 0x11, 0x85, 0x97, 0x19, 0x6a, 0x0b, 0x32]

  const STATE0: Block :=
    [0x19, 0x3d, 0xe3, 0xbe, 0xa0, 0xf4, 0xe2, 0x2b, 0x9a, 0xc6, 0x8d, 0x2a, 0xe9, 0xf8, 0x48, 0x08]
  const STATE1: Block :=
    [0xa4, 0x9c, 0x7f, 0xf2, 0x68, 0x9f, 0x35, 0x2b, 0x6b, 0x5b, 0xea, 0x43, 0x02, 0x6a, 0x50, 0x49]
  const STATE2: Block :=
    [0xaa, 0x8f, 0x5f, 0x03, 0x61, 0xdd, 0xe3, 0xef, 0x82, 0xd2, 0x4a, 0xd2, 0x68, 0x32, 0x46, 0x9a]
  const STATE3: Block :=
    [0x48, 0x6c, 0x4e, 0xee, 0x67, 0x1d, 0x9d, 0x0d, 0x4d, 0xe3, 0xb1, 0x38, 0xd6, 0x5f, 0x58, 0xe7]
  const STATE4: Block :=
    [0xe0, 0x92, 0x7f, 0xe8, 0xc8, 0x63, 0x63, 0xc0, 0xd9, 0xb1, 0x35, 0x50, 0x85, 0xb8, 0xbe, 0x01]
  const STATE5: Block :=
    [0xf1, 0x00, 0x6f, 0x55, 0xc1, 0x92, 0x4c, 0xef, 0x7c, 0xc8, 0x8b, 0x32, 0x5d, 0xb5, 0xd5, 0x0c]
  const STATE6: Block :=
    [0x26, 0x0e, 0x2e, 0x17, 0x3d, 0x41, 0xb7, 0x7d, 0xe8, 0x64, 0x72, 0xa9, 0xfd, 0xd2, 0x8b, 0x25]
  const STATE7: Block :=
    [0x5a, 0x41, 0x42, 0xb1, 0x19, 0x49, 0xdc, 0x1f, 0xa3, 0xe0, 0x19, 0x65, 0x7a, 0x8c, 0x04, 0x0c]
  const STATE8: Block :=
    [0xea, 0x83, 0x5c, 0xf0, 0x04, 0x45, 0x33, 0x2d, 0x65, 0x5d, 0x98, 0xad, 0x85, 0x96, 0xb0, 0xc5]
  const STATE9: Block :=
    [0xeb, 0x40, 0xf2, 0x1e, 0x59, 0x2e, 0x38, 0x84, 0x8b, 0xa1, 0x13, 0xe7, 0x1b, 0xc3, 0x42, 0xd2]

  function State(r: nat): Block
    requires r <= 9
  {
    match r
    case 0 => STATE0
    case 1 => STATE1
    case 2 => STATE2
    case 3 => STATE3
    case 4 => STATE4
    case 5 => STATE5
    case 6 => STATE6
    case 7 => STATE7
    case 8 => STATE8
    case _ => STATE9
  }

  const SUBSTITUTED0: Block :=
    [0xd4, 0x27, 0x11, 0xae, 0xe0, 0xbf, 0x98, 0xf1, 0xb8, 0xb4, 0x5d, 0xe5, 0x1e, 0x41, 0x52, 0x30]
  const SUBSTITUTED1: Block :=
    [0x49, 0xde, 0xd2, 0x89, 0x45, 0xdb, 0x96, 0xf1, 0x7f, 0x39, 0x87, 0x1a, 0x77, 0x02, 0x53, 0x3b]
  const SUBSTITUTED2: Block :=
    [0xac, 0x73, 0xcf, 0x7b, 0xef, 0xc1, 0x11, 0xdf, 0x13, 0xb5, 0xd6, 0xb5, 0x45, 0x23, 0x5a, 0xb8]
  const SUBSTITUTED3: Block :=
    [0x52, 0x50, 0x2f, 0x28, 0x85, 0xa4, 0x5e, 0xd7, 0xe3, 0x11, 0xc8, 0x07, 0xf6, 0xcf, 0x6a, 0x94]
  const SUBSTITUTED4: Block :=
    [0xe1, 0x4f, 0xd2, 0x9b, 0xe8, 0xfb, 0xfb, 0xba, 0x35, 0xc8, 0x96, 0x53, 0x97, 0x6c, 0xae, 0x7c]
  const SUBSTITUTED5: Block :=
    [0xa1, 0x63, 0xa8, 0xfc, 0x78, 0x4f, 0x29, 0xdf, 0x10, 0xe8, 0x3d, 0x23, 0x4c, 0xd5, 0x03, 0xfe]
  const SUBSTITUTED6: Block :=
    [0xf7, 0xab, 0x31, 0xf0, 0x27, 0x83, 0xa9, 0xff, 0x9b, 0x43, 0x40, 0xd3, 0x54, 0xb5, 0x3d, 0x3f]
  const SUBSTITUTED7: Block :=
    [0xbe, 0x83, 0x2c, 0xc8, 0xd4, 0x3b, 0x86, 0xc0, 0x0a, 0xe1, 0xd4, 0x4d, 0xda, 0x64, 0xf2, 0xfe]
  const SUBSTITUTED8: Block :=
    [0x87, 0xec, 0x4a, 0x8c, 0xf2, 0x6e, 0xc3, 0xd8, 0x4d, 0x4c, 0x46, 0x95, 0x97, 0x90, 0xe7, 0xa6]
  const SUBSTITUTED9: Block :=
    [0xe9, 0x09, 0x89, 0x72, 0xcb, 0x31, 0x07, 0x5f, 0x3d, 0x32, 0x7d, 0x94, 0xaf, 0x2e, 0x2c, 0xb5]

  function Substituted(r: nat): Block
    requires r <= 9
  {
    match r
    case 0 => SUBSTITUTED0
    case 1 => SUBSTITUTED1
    case 2 => SUBSTITUTED2
    case 3 => SUBSTITUTED3
    case 4 => SUBSTITUTED4
    case 5 => SUBSTITUTED5
    case 6 => SUBSTITUTED6
    case 7 => SUBSTITUTED7
    case 8 => SUBSTITUTED8
    case _ => SUBSTITUTED9
  }

  lemma Box0()
    ensures SBox(0x19) == 0xd4 && SBox(0x3d) == 0x27 && SBox(0xe3) == 0x11 && SBox(0xbe) == 0xae
    ensures SBox(0xa0) == 0xe0 && SBox(0xf4) == 0xbf && SBox(0xe2) == 0x98 && SBox(0x2b) == 0xf1
    ensures SBox(0x9a) == 0xb8 && SBox(0xc6) == 0xb4 && SBox(0x8d) == 0x5d && SBox(0x2a) == 0xe5
    ensures SBox(0xe9) == 0x1e && SBox(0xf8) == 0x41 && SBox(0x48) == 0x52 && SBox(0x08) == 0x30
  {
  }

  lemma Sub0()
    ensures SubBytes(State(0)) == Substituted(0)
  {
    hide SBox, SubBytes;
    Box0();
    SubBytesListed(State(0));
  }

  lemma Box1()
    ensures SBox(0xa4) == 0x49 && SBox(0x9c) == 0xde && SBox(0x7f) == 0xd2 && SBox(0xf2) == 0x89
    ensures SBox(0x68) == 0x45 && SBox(0x9f) == 0xdb && SBox(0x35) == 0x96 && SBox(0x2b) == 0xf1
    ensures SBox(0x6b) == 0x7f && SBox(0x5b) == 0x39 && SBox(0xea) == 0x87 && SBox(0x43) == 0x1a
    ensures SBox(0x02) == 0x77 && SBox(0x6a) == 0x02 && SBox(0x50) == 0x53 && SBox(0x49) == 0x3b
  {
  }

  lemma Sub1()
    ensures SubBytes(State(1)) == Substituted(1)
  {
    hide SBox, SubBytes;
    Box1();
    SubBytesListed(State(1));
  }

  lemma Box2()
    ensures SBox(0xaa) == 0xac && SBox(0x8f) == 0x73 && SBox(0x5f) == 0xcf && SBox(0x03) == 0x7b
    ensures SBox(0x61) == 0xef && SBox(0xdd) == 0xc1 && SBox(0xe3) == 0x11 && SBox(0xef) == 0xdf
    ensures SBox(0x82) == 0x13 && SBox(0xd2) == 0xb5 && SBox(0x4a) == 0xd6 && SBox(0xd2) == 0xb5
    ensures SBox(0x68) == 0x45 && SBox(0x32) == 0x23 && SBox(0x46) == 0x5a && SBox(0x9a) == 0xb8
  {
  }

  lemma Sub2()
    ensures SubBytes(State(2)) == Substituted(2)
  {
    hide SBox, SubBytes;
    Box2();
    SubBytesListed(State(2));
  }

  lemma Box3()
    ensures SBox(0x48) == 0x52 && SBox(0x6c) == 0x50 && SBox(0x4e) == 0x2f && SBox(0xee) == 0x28
    ensures SBox(0x67) == 0x85 && SBox(0x1d) == 0xa4 && SBox(0x9d) == 0x5e && SBox(0x0d) == 0xd7
    ensures SBox(0x4d) == 0xe3 && SBox(0xe3) == 0x11 && SBox(0xb1) == 0xc8 && SBox(0x38) == 0x07
    ensures SBox(0xd6) == 0xf6 && SBox(0x5f) == 0xcf && SBox(0x58) == 0x6a && SBox(0xe7) == 0x94
  {
  }

  lemma Sub3()
    ensures SubBytes(State(3)) == Substituted(3)
  {
    hide SBox, SubBytes;
    Box3();
    SubBytesListed(State(3));
  }

  lemma Box4()
    ensures SBox(0xe0) == 0xe1 && SBox(0x92) == 0x4f && SBox(0x7f) == 0xd2 && SBox(0xe8) == 0x9b
    ensures SBox(0xc8) == 0xe8 && SBox(0x63) == 0xfb && SBox(0x63) == 0xfb && SBox(0xc0) == 0xba
    ensures SBox(0xd9) == 0x35 && SBox(0xb1) == 0xc8 && SBox(0x35) == 0x96 && SBox(0x50) == 0x53
    ensures SBox(0x85) == 0x97 && SBox(0xb8) == 0x6c && SBox(0xbe) == 0xae && SBox(0x01) == 0x7c
  {
  }

  lemma Sub4()
    ensures SubBytes(State(4)) == Substituted(4)
  {
    hide SBox, SubBytes;
    Box4();
    SubBytesListed(State(4));
  }

  lemma Box5()
    ensures SBox(0xf1) == 0xa1 && SBox(0x00) == 0x63 && SBox(0x6f) == 0xa8 && SBox(0x55) == 0xfc
    ensures SBox(0xc1) == 0x78 && SBox(0x92) == 0x4f && SBox(0x4c) == 0x29 && SBox(0xef) == 0xdf
    ensures SBox(0x7c) == 0x10 && SBox(0xc8) == 0xe8 && SBox(0x8b) == 0x3d && SBox(0x32) == 0x23
    ensures SBox(0x5d) == 0x4c && SBox(0xb5) == 0xd5 && SBox(0xd5) == 0x03 && SBox(0x0c) == 0xfe
  {
  }

  lemma Sub5()
    ensures SubBytes(State(5)) == Substituted(5)
  {
    hide SBox, SubBytes;
    Box5();
    SubBytesListed(State(5));
  }

  lemma Box6()
    ensures SBox(0x26) == 0xf7 && SBox(0x0e) == 0xab && SBox(0x2e) == 0x31 && SBox(0x17) == 0xf0
    ensures SBox(0x3d) == 0x27 && SBox(0x41) == 0x83 && SBox(0xb7) == 0xa9 && SBox(0x7d) == 0xff
    ensures SBox(0xe8) == 0x9b && SBox(0x64) == 0x43 && SBox(0x72) == 0x40 && SBox(0xa9) == 0xd3
    ensures SBox(0xfd) == 0x54 && SBox(0xd2) == 0xb5 && SBox(0x8b) == 0x3d && SBox(0x25) == 0x3f
  {
  }

  lemma Sub6()
    ensures SubBytes(State(6)) == Substituted(6)
  {
    hide SBox, SubBytes;
    Box6();
    SubBytesListed(State(6));
  }

  lemma Box7()
    ensures SBox(0x5a) == 0xbe && SBox(0x41) == 0x83 && SBox(0x42) == 0x2c && SBox(0xb1) == 0xc8
    ensures SBox(0x19) == 0xd4 && SBox(0x49) == 0x3b && SBox(0xdc) == 0x86 && SBox(0x1f) == 0xc0
    ensures SBox(0xa3) == 0x0a && SBox(0xe0) == 0xe1 && SBox(0x19) == 0xd4 && SBox(0x65) == 0x4d
    ensures SBox(0x7a) == 0xda && SBox(0x8c) == 0x64 && SBox(0x04) == 0xf2 && SBox(0x0c) == 0xfe
  {
  }

  lemma Sub7()
    ensures SubBytes(State(7)) == Substituted(7)
  {
    hide SBox, SubBytes;
    Box7();
    SubBytesListed(State(7));
  }

  lemma Box8()
    ensures SBox(0xea) == 0x87 && SBox(0x83) == 0xec && SBox(0x5c) == 0x4a && SBox(0xf0) == 0x8c
    ensures SBox(0x04) == 0xf2 && SBox(0x45) == 0x6e && SBox(0x33) == 0xc3 && SBox(0x2d) == 0xd8
    ensures SBox(0x65) == 0x4d && SBox(0x5d) == 0x4c && SBox(0x98) == 0x46 && SBox(0xad) == 0x95
    ensures SBox(0x85) == 0x97 && SBox(0x96) == 0x90 && SBox(0xb0) == 0xe7 && SBox(0xc5) == 0xa6
  {
  }

  lemma Sub8()
    ensures SubBytes(State(8)) == Substituted(8)
  {
    hide SBox, SubBytes;
    Box8();
    SubBytesListed(State(8));
  }

  lemma Box9()
    ensures SBox(0xeb) == 0xe9 && SBox(0x40) == 0x09 && SBox(0xf2) == 0x89 && SBox(0x1e) == 0x72
    ensures SBox(0x59) == 0xcb && SBox(0x2e) == 0x31 && SBox(0x38) == 0x07 && SBox(0x84) == 0x5f
    ensures SBox(0x8b) == 0x3d && SBox(0xa1) == 0x32 && SBox(0x13) == 0x7d && SBox(0xe7) == 0x94
    ensures SBox(0x1b) == 0xaf && SBox(0xc3) == 0x2e && SBox(0x42) == 0x2c && SBox(0xd2) == 0xb5
  {
  }

  lemma Sub9()
    ensures SubBytes(State(9)) == Substituted(9)
  {
    hide SBox, SubBytes;
    Box9();
    SubBytesListed(State(9));
  }

  lemma Mix1()
    ensures Xor(MixColumns(ShiftRows(Substituted(0))), Key(1)) == State(1)
  {
    MixColumnsListed(ShiftRows(Substituted(0)));
    XorListed(MixColumns(ShiftRows(Substituted(0))), Key(1));
    hide MixColumns, Xor;
  }

  lemma Mix2()
    ensures Xor(MixColumns(ShiftRows(Substituted(1))), Key(2)) == State(2)
  {
    MixColumnsListed(ShiftRows(Substituted(1)));
    XorListed(MixColumns(ShiftRows(Substituted(1))), Key(2));
    hide MixColumns, Xor;
  }

  lemma Mix3()
    ensures Xor(MixColumns(ShiftRows(Substituted(2))), Key(3)) == State(3)
  {
    MixColumnsListed(ShiftRows(Substituted(2)));
    XorListed(MixColumns(ShiftRows(Substituted(2))), Key(3));
    hide MixColumns, Xor;
  }

  lemma Mix4()
    ensures Xor(MixColumns(ShiftRows(Substituted(3))), Key(4)) == State(4)
  {
    MixColumnsListed(ShiftRows(Substituted(3)));
    XorListed(MixColumns(ShiftRows(Substituted(3))), Key(4));
    hide MixColumns, Xor;
  }

  lemma Mix5()
    ensures Xor(MixColumns(ShiftRows(Substituted(4))), Key(5)) == State(5)
  {
    MixColumnsListed(ShiftRows(Substituted(4)));
    XorListed(MixColumns(ShiftRows(Substituted(4))), Key(5));
    hide MixColumns, Xor;
  }

  lemma Mix6()
    ensures Xor(MixColumns(ShiftRows(Substituted(5))), Key(6)) == State(6)
  {
    MixColumnsListed(ShiftRows(Substituted(5)));
    XorListed(MixColumns(ShiftRows(Substituted(5))), Key(6));
    hide MixColumns, Xor;
  }

  lemma Mix7()
    ensures Xor(MixColumns(ShiftRows(Substituted(6))), Key(7)) == State(7)
  {
    MixColumnsListed(ShiftRows(Substituted(6)));
    XorListed(MixColumns(ShiftRows(Substituted(6))), Key(7));
    hide MixColumns, Xor;
  }

  lemma Mix8()
    ensures Xor(MixColumns(ShiftRows(Substituted(7))), Key(8)) == State(8)
  {
    MixColumnsListed(ShiftRows(Substituted(7)));
    XorListed(MixColumns(ShiftRows(Substituted(7))), Key(8));
    hide MixColumns, Xor;
  }

  lemma Mix9()
    ensures Xor(MixColumns(ShiftRows(Substituted(8))), Key(9)) == State(9)
  {
    MixColumnsListed(ShiftRows(Substituted(8)));
    XorListed(MixColumns(ShiftRows(Substituted(8))), Key(9));
    hide MixColumns, Xor;
  }

  lemma First()
    ensures Xor(INPUT, Key(0)) == State(0)
  {
    XorListed(INPUT, Key(0));
    hide Xor;
  }

  lemma Last()
    ensures Xor(ShiftRows(Substituted(9)), Key(10)) == OUTPUT
  {
    XorListed(ShiftRows(Substituted(9)), Key(10));
    hide Xor;
  }

  lemma EachSub(r: nat)
    requires r <= 9
    ensures SubBytes(State(r)) == Substituted(r)
  {
    hide *;
    match r {
      case 0 => Sub0();
      case 1 => Sub1();
      case 2 => Sub2();
      case 3 => Sub3();
      case 4 => Sub4();
      case 5 => Sub5();
      case 6 => Sub6();
      case 7 => Sub7();
      case 8 => Sub8();
      case _ => Sub9();
    }
  }

  lemma EachMix(r: nat)
    requires 1 <= r <= 9
    ensures Xor(MixColumns(ShiftRows(Substituted(r - 1))), Key(r)) == State(r)
  {
    hide *;
    match r {
      case 1 => Mix1();
      case 2 => Mix2();
      case 3 => Mix3();
      case 4 => Mix4();
      case 5 => Mix5();
      case 6 => Mix6();
      case 7 => Mix7();
      case 8 => Mix8();
      case _ => Mix9();
    }
  }

  lemma {:induction false} ExampleRounds(r: nat)
    requires r <= 9
    ensures Rounds(Key(0), INPUT, r) == State(r)
  {
    hide RoundKey, Xor, MixColumns, ShiftRows, SubBytes, Key, State, Substituted, INPUT;
    ExampleKeys(r);
    if r == 0 {
      First();
    } else {
      ExampleRounds(r - 1);
      EachSub(r - 1);
      EachMix(r);
    }
  }

  /** The cipher gives the output of the appendix. */
  lemma ExampleCipher()
    ensures Cipher(Key(0), INPUT) == OUTPUT
  {
    hide Rounds, RoundKey, Xor, ShiftRows, SubBytes, Key, State, Substituted, INPUT, OUTPUT;
    ExampleKeys(10);
    ExampleRounds(9);
    EachSub(9);
    Last();
  }
}
