/** The example vectors of FIPS 197 for 256-bit keys: the expanded key of appendix A.3, the ciphertext of C.3. */
module AesVectors {
  import opened AesTables
  import opened Aes256
  import opened AesBytes

  /** The whole substitution table: each byte, its inverse and its entry. */
  lemma AllRows()
    ensures Line(0x00, 0x00, 0x63) && Line(0x01, 0x01, 0x7c) && Line(0x02, 0x8d, 0x77) && Line(0x03, 0xf6, 0x7b)
    ensures Line(0x04, 0xcb, 0xf2) && Line(0x05, 0x52, 0x6b) && Line(0x06, 0x7b, 0x6f) && Line(0x07, 0xd1, 0xc5)
    ensures Line(0x08, 0xe8, 0x30) && Line(0x09, 0x4f, 0x01) && Line(0x0a, 0x29, 0x67) && Line(0x0b, 0xc0, 0x2b)
    ensures Line(0x0c, 0xb0, 0xfe) && Line(0x0d, 0xe1, 0xd7) && Line(0x0e, 0xe5, 0xab) && Line(0x0f, 0xc7, 0x76)
    ensures Line(0x10, 0x74, 0xca) && Line(0x11, 0xb4, 0x82) && Line(0x12, 0xaa, 0xc9) && Line(0x13, 0x4b, 0x7d)
    ensures Line(0x14, 0x99, 0xfa) && Line(0x15, 0x2b, 0x59) && Line(0x16, 0x60, 0x47) && Line(0x17, 0x5f, 0xf0)
    ensures Line(0x18, 0x58, 0xad) && Line(0x19, 0x3f, 0xd4) && Line(0x1a, 0xfd, 0xa2) && Line(0x1b, 0xcc, 0xaf)
    ensures Line(0x1c, 0xff, 0x9c) && Line(0x1d, 0x40, 0xa4) && Line(0x1e, 0xee, 0x72) && Line(0x1f, 0xb2, 0xc0)
    ensures Line(0x20, 0x3a, 0xb7) && Line(0x21, 0x6e, 0xfd) && Line(0x22, 0x5a, 0x93) && Line(0x23, 0xf1, 0x26)
    ensures Line(0x24, 0x55, 0x36) && Line(0x25, 0x4d, 0x3f) && Line(0x26, 0xa8, 0xf7) && Line(0x27, 0xc9, 0xcc)
    ensures Line(0x28, 0xc1, 0x34) && Line(0x29, 0x0a, 0xa5) && Line(0x2a, 0x98, 0xe5) && Line(0x2b, 0x15, 0xf1)
    ensures Line(0x2c, 0x30, 0x71) && Line(0x2d, 0x44, 0xd8) && Line(0x2e, 0xa2, 0x31) && Line(0x2f, 0xc2, 0x15)
    ensures Line(0x30, 0x2c, 0x04) && Line(0x31, 0x45, 0xc7) && Line(0x32, 0x92, 0x23) && Line(0x33, 0x6c, 0xc3)
    ensures Line(0x34, 0xf3, 0x18) && Line(0x35, 0x39, 0x96) && Line(0x36, 0x66, 0x05) && Line(0x37, 0x42, 0x9a)
    ensures Line(0x38, 0xf2, 0x07) && Line(0x39, 0x35, 0x12) && Line(0x3a, 0x20, 0x80) && Line(0x3b, 0x6f, 0xe2)
    ensures Line(0x3c, 0x77, 0xeb) && Line(0x3d, 0xbb, 0x27) && Line(0x3e, 0x59, 0xb2) && Line(0x3f, 0x19, 0x75)
    ensures Line(0x40, 0x1d, 0x09) && Line(0x41, 0xfe, 0x83) && Line(0x42, 0x37, 0x2c) && Line(0x43, 0x67, 0x1a)
    ensures Line(0x44, 0x2d, 0x1b) && Line(0x45, 0x31, 0x6e) && Line(0x46, 0xf5, 0x5a) && Line(0x47, 0x69, 0xa0)
    ensures Line(0x48, 0xa7, 0x52) && Line(0x49, 0x64, 0x3b) && Line(0x4a, 0xab, 0xd6) && Line(0x4b, 0x13, 0xb3)
    ensures Line(0x4c, 0x54, 0x29) && Line(0x4d, 0x25, 0xe3) && Line(0x4e, 0xe9, 0x2f) && Line(0x4f, 0x09, 0x84)
    ensures Line(0x50, 0xed, 0x53) && Line(0x51, 0x5c, 0xd1) && Line(0x52, 0x05, 0x00) && Line(0x53, 0xca, 0xed)
    ensures Line(0x54, 0x4c, 0x20) && Line(0x55, 0x24, 0xfc) && Line(0x56, 0x87, 0xb1) && Line(0x57, 0xbf, 0x5b)
    ensures Line(0x58, 0x18, 0x6a) && Line(0x59, 0x3e, 0xcb) && Line(0x5a, 0x22, 0xbe) && Line(0x5b, 0xf0, 0x39)
    ensures Line(0x5c, 0x51, 0x4a) && Line(0x5d, 0xec, 0x4c) && Line(0x5e, 0x61, 0x58) && Line(0x5f, 0x17, 0xcf)
    ensures Line(0x60, 0x16, 0xd0) && Line(0x61, 0x5e, 0xef) && Line(0x62, 0xaf, 0xaa) && Line(0x63, 0xd3, 0xfb)
    ensures Line(0x64, 0x49, 0x43) && Line(0x65, 0xa6, 0x4d) && Line(0x66, 0x36, 0x33) && Line(0x67, 0x43, 0x85)
    ensures Line(0x68, 0xf4, 0x45) && Line(0x69, 0x47, 0xf9) && Line(0x6a, 0x91, 0x02) && Line(0x6b, 0xdf, 0x7f)
    ensures Line(0x6c, 0x33, 0x50) && Line(0x6d, 0x93, 0x3c) && Line(0x6e, 0x21, 0x9f) && Line(0x6f, 0x3b, 0xa8)
    ensures Line(0x70, 0x79, 0x51) && Line(0x71, 0xb7, 0xa3) && Line(0x72, 0x97, 0x40) && Line(0x73, 0x85, 0x8f)
    ensures Line(0x74, 0x10, 0x92) && Line(0x75, 0xb5, 0x9d) && Line(0x76, 0xba, 0x38) && Line(0x77, 0x3c, 0xf5)
    ensures Line(0x78, 0xb6, 0xbc) && Line(0x79, 0x70, 0xb6) && Line(0x7a, 0xd0, 0xda) && Line(0x7b, 0x06, 0x21)
    ensures Line(0x7c, 0xa1, 0x10) && Line(0x7d, 0xfa, 0xff) && Line(0x7e, 0x81, 0xf3) && Line(0x7f, 0x82, 0xd2)
    ensures Line(0x80, 0x83, 0xcd) && Line(0x81, 0x7e, 0x0c) && Line(0x82, 0x7f, 0x13) && Line(0x83, 0x80, 0xec)
    ensures Line(0x84, 0x96, 0x5f) && Line(0x85, 0x73, 0x97) && Line(0x86, 0xbe, 0x44) && Line(0x87, 0x56, 0x17)
    ensures Line(0x88, 0x9b, 0xc4) && Line(0x89, 0x9e, 0xa7) && Line(0x8a, 0x95, 0x7e) && Line(0x8b, 0xd9, 0x3d)
    ensures Line(0x8c, 0xf7, 0x64) && Line(0x8d, 0x02, 0x5d) && Line(0x8e, 0xb9, 0x19) && Line(0x8f, 0xa4, 0x73)
    ensures Line(0x90, 0xde, 0x60) && Line(0x91, 0x6a, 0x81) && Line(0x92, 0x32, 0x4f) && Line(0x93, 0x6d, 0xdc)
    ensures Line(0x94, 0xd8, 0x22) && Line(0x95, 0x8a, 0x2a) && Line(0x96, 0x84, 0x90) && Line(0x97, 0x72, 0x88)
    ensures Line(0x98, 0x2a, 0x46) && Line(0x99, 0x14, 0xee) && Line(0x9a, 0x9f, 0xb8) && Line(0x9b, 0x88, 0x14)
    ensures Line(0x9c, 0xf9, 0xde) && Line(0x9d, 0xdc, 0x5e) && Line(0x9e, 0x89, 0x0b) && Line(0x9f, 0x9a, 0xdb)
    ensures Line(0xa0, 0xfb, 0xe0) && Line(0xa1, 0x7c, 0x32) && Line(0xa2, 0x2e, 0x3a) && Line(0xa3, 0xc3, 0x0a)
    ensures Line(0xa4, 0x8f, 0x49) && Line(0xa5, 0xb8, 0x06) && Line(0xa6, 0x65, 0x24) && Line(0xa7, 0x48, 0x5c)
    ensures Line(0xa8, 0x26, 0xc2) && Line(0xa9, 0xc8, 0xd3) && Line(0xaa, 0x12, 0xac) && Line(0xab, 0x4a, 0x62)
    ensures Line(0xac, 0xce, 0x91) && Line(0xad, 0xe7, 0x95) && Line(0xae, 0xd2, 0xe4) && Line(0xaf, 0x62, 0x79)
    ensures Line(0xb0, 0x0c, 0xe7) && Line(0xb1, 0xe0, 0xc8) && Line(0xb2, 0x1f, 0x37) && Line(0xb3, 0xef, 0x6d)
    ensures Line(0xb4, 0x11, 0x8d) && Line(0xb5, 0x75, 0xd5) && Line(0xb6, 0x78, 0x4e) && Line(0xb7, 0x71, 0xa9)
    ensures Line(0xb8, 0xa5, 0x6c) && Line(0xb9, 0x8e, 0x56) && Line(0xba, 0x76, 0xf4) && Line(0xbb, 0x3d, 0xea)
    ensures Line(0xbc, 0xbd, 0x65) && Line(0xbd, 0xbc, 0x7a) && Line(0xbe, 0x86, 0xae) && Line(0xbf, 0x57, 0x08)
    ensures Line(0xc0, 0x0b, 0xba) && Line(0xc1, 0x28, 0x78) && Line(0xc2, 0x2f, 0x25) && Line(0xc3, 0xa3, 0x2e)
    ensures Line(0xc4, 0xda, 0x1c) && Line(0xc5, 0xd4, 0xa6) && Line(0xc6, 0xe4, 0xb4) && Line(0xc7, 0x0f, 0xc6)
    ensures Line(0xc8, 0xa9, 0xe8) && Line(0xc9, 0x27, 0xdd) && Line(0xca, 0x53, 0x74) && Line(0xcb, 0x04, 0x1f)
    ensures Line(0xcc, 0x1b, 0x4b) && Line(0xcd, 0xfc, 0xbd) && Line(0xce, 0xac, 0x8b) && Line(0xcf, 0xe6, 0x8a)
    ensures Line(0xd0, 0x7a, 0x70) && Line(0xd1, 0x07, 0x3e) && Line(0xd2, 0xae, 0xb5) && Line(0xd3, 0x63, 0x66)
    ensures Line(0xd4, 0xc5, 0x48) && Line(0xd5, 0xdb, 0x03) && Line(0xd6, 0xe2, 0xf6) && Line(0xd7, 0xea, 0x0e)
    ensures Line(0xd8, 0x94, 0x61) && Line(0xd9, 0x8b, 0x35) && Line(0xda, 0xc4, 0x57) && Line(0xdb, 0xd5, 0xb9)
    ensures Line(0xdc, 0x9d, 0x86) && Line(0xdd, 0xf8, 0xc1) && Line(0xde, 0x90, 0x1d) && Line(0xdf, 0x6b, 0x9e)
    ensures Line(0xe0, 0xb1, 0xe1) && Line(0xe1, 0x0d, 0xf8) && Line(0xe2, 0xd6, 0x98) && Line(0xe3, 0xeb, 0x11)
    ensures Line(0xe4, 0xc6, 0x69) && Line(0xe5, 0x0e, 0xd9) && Line(0xe6, 0xcf, 0x8e) && Line(0xe7, 0xad, 0x94)
    ensures Line(0xe8, 0x08, 0x9b) && Line(0xe9, 0x4e, 0x1e) && Line(0xea, 0xd7, 0x87) && Line(0xeb, 0xe3, 0xe9)
    ensures Line(0xec, 0x5d, 0xce) && Line(0xed, 0x50, 0x55) && Line(0xee, 0x1e, 0x28) && Line(0xef, 0xb3, 0xdf)
    ensures Line(0xf0, 0x5b, 0x8c) && Line(0xf1, 0x23, 0xa1) && Line(0xf2, 0x38, 0x89) && Line(0xf3, 0x34, 0x0d)
    ensures Line(0xf4, 0x68, 0xbf) && Line(0xf5, 0x46, 0xe6) && Line(0xf6, 0x03, 0x42) && Line(0xf7, 0x8c, 0x68)
    ensures Line(0xf8, 0xdd, 0x41) && Line(0xf9, 0x9c, 0x99) && Line(0xfa, 0x7d, 0x2d) && Line(0xfb, 0xa0, 0x0f)
    ensures Line(0xfc, 0xcd, 0xb0) && Line(0xfd, 0x1a, 0x54) && Line(0xfe, 0x41, 0xbb) && Line(0xff, 0x1c, 0x16)
  {
    hide Line;
    Row0();
    Row1();
    Row2();
    Row3();
    Row4();
    Row5();
    Row6();
    Row7();
    Row8();
    Row9();
    RowA();
    RowB();
    RowC();
    RowD();
    RowE();
    RowF();
  }

  // ----- the example of appendix A.3 of FIPS 197

  const EXPANSION_KEY: seq<bv8> :=
    [0x60, 0x3d, 0xeb, 0x10, 0x15, 0xca, 0x71, 0xbe, 0x2b, 0x73, 0xae, 0xf0, 0x85, 0x7d, 0x77, 0x81]
    + [0x1f, 0x35, 0x2c, 0x07, 0x3b, 0x61, 0x08, 0xd7, 0x2d, 0x98, 0x10, 0xa3, 0x09, 0x14, 0xdf, 0xf4]

  const EXPANSION_K0: Bytes16 := Bytes16(
    0x60, 0x3d, 0xeb, 0x10, 0x15, 0xca, 0x71, 0xbe,
    0x2b, 0x73, 0xae, 0xf0, 0x85, 0x7d, 0x77, 0x81)

  const EXPANSION_K1: Bytes16 := Bytes16(
    0x1f, 0x35, 0x2c, 0x07, 0x3b, 0x61, 0x08, 0xd7,
    0x2d, 0x98, 0x10, 0xa3, 0x09, 0x14, 0xdf, 0xf4)

  const EXPANSION_K2: Bytes16 := Bytes16(
    0x9b, 0xa3, 0x54, 0x11, 0x8e, 0x69, 0x25, 0xaf,
    0xa5, 0x1a, 0x8b, 0x5f, 0x20, 0x67, 0xfc, 0xde)

  const EXPANSION_K3: Bytes16 := Bytes16(
    0xa8, 0xb0, 0x9c, 0x1a, 0x93, 0xd1, 0x94, 0xcd,
    0xbe, 0x49, 0x84, 0x6e, 0xb7, 0x5d, 0x5b, 0x9a)

  const EXPANSION_K4: Bytes16 := Bytes16(
    0xd5, 0x9a, 0xec, 0xb8, 0x5b, 0xf3, 0xc9, 0x17,
    0xfe, 0xe9, 0x42, 0x48, 0xde, 0x8e, 0xbe, 0x96)

  const EXPANSION_K5: Bytes16 := Bytes16(
    0xb5, 0xa9, 0x32, 0x8a, 0x26, 0x78, 0xa6, 0x47,
    0x98, 0x31, 0x22, 0x29, 0x2f, 0x6c, 0x79, 0xb3)

  const EXPANSION_K6: Bytes16 := Bytes16(
    0x81, 0x2c, 0x81, 0xad, 0xda, 0xdf, 0x48, 0xba,
    0x24, 0x36, 0x0a, 0xf2, 0xfa, 0xb8, 0xb4, 0x64)

  const EXPANSION_K7: Bytes16 := Bytes16(
    0x98, 0xc5, 0xbf, 0xc9, 0xbe, 0xbd, 0x19, 0x8e,
    0x26, 0x8c, 0x3b, 0xa7, 0x09, 0xe0, 0x42, 0x14)

  const EXPANSION_K8: Bytes16 := Bytes16(
    0x68, 0x00, 0x7b, 0xac, 0xb2, 0xdf, 0x33, 0x16,
    0x96, 0xe9, 0x39, 0xe4, 0x6c, 0x51, 0x8d, 0x80)

  const EXPANSION_K9: Bytes16 := Bytes16(
    0xc8, 0x14, 0xe2, 0x04, 0x76, 0xa9, 0xfb, 0x8a,
    0x50, 0x25, 0xc0, 0x2d, 0x59, 0xc5, 0x82, 0x39)

  const EXPANSION_K10: Bytes16 := Bytes16(
    0xde, 0x13, 0x69, 0x67, 0x6c, 0xcc, 0x5a, 0x71,
    0xfa, 0x25, 0x63, 0x95, 0x96, 0x74, 0xee, 0x15)

  const EXPANSION_K11: Bytes16 := Bytes16(
    0x58, 0x86, 0xca, 0x5d, 0x2e, 0x2f, 0x31, 0xd7,
    0x7e, 0x0a, 0xf1, 0xfa, 0x27, 0xcf, 0x73, 0xc3)

  const EXPANSION_K12: Bytes16 := Bytes16(
    0x74, 0x9c, 0x47, 0xab, 0x18, 0x50, 0x1d, 0xda,
    0xe2, 0x75, 0x7e, 0x4f, 0x74, 0x01, 0x90, 0x5a)

  const EXPANSION_K13: Bytes16 := Bytes16(
    0xca, 0xfa, 0xaa, 0xe3, 0xe4, 0xd5, 0x9b, 0x34,
    0x9a, 0xdf, 0x6a, 0xce, 0xbd, 0x10, 0x19, 0x0d)

  const EXPANSION_K14: Bytes16 := Bytes16(
    0xfe, 0x48, 0x90, 0xd1, 0xe6, 0x18, 0x8d, 0x0b,
    0x04, 0x6d, 0xf3, 0x44, 0x70, 0x6c, 0x63, 0x1e)

  lemma ExpansionKey1()
    ensures |EXPANSION_KEY| == 32 && IsTable(SBOX)
    ensures KeyBlock(EXPANSION_KEY, 0, EXPANSION_K0) && KeyBlock(EXPANSION_KEY, 1, EXPANSION_K1)
  {
    Tables();
    hide SBOX;
    assert EXPANSION_KEY == AsBlock(EXPANSION_K0) + AsBlock(EXPANSION_K1);
    KeyStart(EXPANSION_KEY, EXPANSION_K0, EXPANSION_K1);
  }

  lemma ExpansionKey2()
    ensures |EXPANSION_KEY| == 32 && IsTable(SBOX)
    ensures KeyBlock(EXPANSION_KEY, 1, EXPANSION_K1) && KeyBlock(EXPANSION_KEY, 2, EXPANSION_K2)
  {
    ExpansionKey1();
    AllRows();
    Powers();
    hide SBOX, Line, XPower, KeyBlock, EXPANSION_KEY;
    RotatedStep(EXPANSION_KEY, 0, EXPANSION_K0, EXPANSION_K1, 0xfa, 0x9e, 0xbf, 0x01);
  }

  lemma ExpansionKey3()
    ensures |EXPANSION_KEY| == 32 && IsTable(SBOX)
    ensures KeyBlock(EXPANSION_KEY, 2, EXPANSION_K2) && KeyBlock(EXPANSION_KEY, 3, EXPANSION_K3)
  {
    ExpansionKey2();
    AllRows();
    Powers();
    hide SBOX, Line, XPower, KeyBlock, EXPANSION_KEY;
    PlainStep(EXPANSION_KEY, 0, EXPANSION_K1, EXPANSION_K2, 0xb7, 0x85, 0xb0, 0x1d);
  }

  lemma ExpansionKey4()
    ensures |EXPANSION_KEY| == 32 && IsTable(SBOX)
    ensures KeyBlock(EXPANSION_KEY, 3, EXPANSION_K3) && KeyBlock(EXPANSION_KEY, 4, EXPANSION_K4)
  {
    ExpansionKey3();
    AllRows();
    Powers();
    hide SBOX, Line, XPower, KeyBlock, EXPANSION_KEY;
    RotatedStep(EXPANSION_KEY, 1, EXPANSION_K2, EXPANSION_K3, 0x4c, 0x39, 0xb8, 0xa9);
  }

  lemma ExpansionKey5()
    ensures |EXPANSION_KEY| == 32 && IsTable(SBOX)
    ensures KeyBlock(EXPANSION_KEY, 4, EXPANSION_K4) && KeyBlock(EXPANSION_KEY, 5, EXPANSION_K5)
  {
    ExpansionKey4();
    AllRows();
    Powers();
    hide SBOX, Line, XPower, KeyBlock, EXPANSION_KEY;
    PlainStep(EXPANSION_KEY, 1, EXPANSION_K3, EXPANSION_K4, 0x1d, 0x19, 0xae, 0x90);
  }

  lemma ExpansionKey6()
    ensures |EXPANSION_KEY| == 32 && IsTable(SBOX)
    ensures KeyBlock(EXPANSION_KEY, 5, EXPANSION_K5) && KeyBlock(EXPANSION_KEY, 6, EXPANSION_K6)
  {
    ExpansionKey5();
    AllRows();
    Powers();
    hide SBOX, Line, XPower, KeyBlock, EXPANSION_KEY;
    RotatedStep(EXPANSION_KEY, 2, EXPANSION_K4, EXPANSION_K5, 0x50, 0xb6, 0x6d, 0x15);
  }

  lemma ExpansionKey7()
    ensures |EXPANSION_KEY| == 32 && IsTable(SBOX)
    ensures KeyBlock(EXPANSION_KEY, 6, EXPANSION_K6) && KeyBlock(EXPANSION_KEY, 7, EXPANSION_K7)
  {
    ExpansionKey6();
    AllRows();
    Powers();
    hide SBOX, Line, XPower, KeyBlock, EXPANSION_KEY;
    PlainStep(EXPANSION_KEY, 2, EXPANSION_K5, EXPANSION_K6, 0x2d, 0x6c, 0x8d, 0x43);
  }

  lemma ExpansionKey8()
    ensures |EXPANSION_KEY| == 32 && IsTable(SBOX)
    ensures KeyBlock(EXPANSION_KEY, 7, EXPANSION_K7) && KeyBlock(EXPANSION_KEY, 8, EXPANSION_K8)
  {
    ExpansionKey7();
    AllRows();
    Powers();
    hide SBOX, Line, XPower, KeyBlock, EXPANSION_KEY;
    RotatedStep(EXPANSION_KEY, 3, EXPANSION_K6, EXPANSION_K7, 0xe1, 0x2c, 0xfa, 0x01);
  }

  lemma ExpansionKey9()
    ensures |EXPANSION_KEY| == 32 && IsTable(SBOX)
    ensures KeyBlock(EXPANSION_KEY, 8, EXPANSION_K8) && KeyBlock(EXPANSION_KEY, 9, EXPANSION_K9)
  {
    ExpansionKey8();
    AllRows();
    Powers();
    hide SBOX, Line, XPower, KeyBlock, EXPANSION_KEY;
    PlainStep(EXPANSION_KEY, 3, EXPANSION_K7, EXPANSION_K8, 0x50, 0xd1, 0x5d, 0xcd);
  }

  lemma ExpansionKey10()
    ensures |EXPANSION_KEY| == 32 && IsTable(SBOX)
    ensures KeyBlock(EXPANSION_KEY, 9, EXPANSION_K9) && KeyBlock(EXPANSION_KEY, 10, EXPANSION_K10)
  {
    ExpansionKey9();
    AllRows();
    Powers();
    hide SBOX, Line, XPower, KeyBlock, EXPANSION_KEY;
    RotatedStep(EXPANSION_KEY, 4, EXPANSION_K8, EXPANSION_K9, 0xa6, 0x13, 0x12, 0xcb);
  }

  lemma ExpansionKey11()
    ensures |EXPANSION_KEY| == 32 && IsTable(SBOX)
    ensures KeyBlock(EXPANSION_KEY, 10, EXPANSION_K10) && KeyBlock(EXPANSION_KEY, 11, EXPANSION_K11)
  {
    ExpansionKey10();
    AllRows();
    Powers();
    hide SBOX, Line, XPower, KeyBlock, EXPANSION_KEY;
    PlainStep(EXPANSION_KEY, 4, EXPANSION_K9, EXPANSION_K10, 0x90, 0x92, 0x28, 0x59);
  }

  lemma ExpansionKey12()
    ensures |EXPANSION_KEY| == 32 && IsTable(SBOX)
    ensures KeyBlock(EXPANSION_KEY, 11, EXPANSION_K11) && KeyBlock(EXPANSION_KEY, 12, EXPANSION_K12)
  {
    ExpansionKey11();
    AllRows();
    Powers();
    hide SBOX, Line, XPower, KeyBlock, EXPANSION_KEY;
    RotatedStep(EXPANSION_KEY, 5, EXPANSION_K10, EXPANSION_K11, 0x8a, 0x8f, 0x2e, 0xcc);
  }

  lemma ExpansionKey13()
    ensures |EXPANSION_KEY| == 32 && IsTable(SBOX)
    ensures KeyBlock(EXPANSION_KEY, 12, EXPANSION_K12) && KeyBlock(EXPANSION_KEY, 13, EXPANSION_K13)
  {
    ExpansionKey12();
    AllRows();
    Powers();
    hide SBOX, Line, XPower, KeyBlock, EXPANSION_KEY;
    PlainStep(EXPANSION_KEY, 5, EXPANSION_K11, EXPANSION_K12, 0x92, 0x7c, 0x60, 0xbe);
  }

  lemma ExpansionKey14()
    ensures |EXPANSION_KEY| == 32 && IsTable(SBOX)
    ensures KeyBlock(EXPANSION_KEY, 13, EXPANSION_K13) && KeyBlock(EXPANSION_KEY, 14, EXPANSION_K14)
  {
    ExpansionKey13();
    AllRows();
    Powers();
    hide SBOX, Line, XPower, KeyBlock, EXPANSION_KEY;
    RotatedStep(EXPANSION_KEY, 6, EXPANSION_K12, EXPANSION_K13, 0xca, 0xd4, 0xd7, 0x7a);
  }

  // ----- the example of appendix C.3 of FIPS 197

  const CIPHER_KEY: seq<bv8> :=
    [0x00, 0x01, 0x02, 0x03, 0x04, 0x05, 0x06, 0x07, 0x08, 0x09, 0x0a, 0x0b, 0x0c, 0x0d, 0x0e, 0x0f]
    + [0x10, 0x11, 0x12, 0x13, 0x14, 0x15, 0x16, 0x17, 0x18, 0x19, 0x1a, 0x1b, 0x1c, 0x1d, 0x1e, 0x1f]

  const CIPHER_K0: Bytes16 := Bytes16(
    0x00, 0x01, 0x02, 0x03, 0x04, 0x05, 0x06, 0x07,
    0x08, 0x09, 0x0a, 0x0b, 0x0c, 0x0d, 0x0e, 0x0f)

  const CIPHER_K1: Bytes16 := Bytes16(
    0x10, 0x11, 0x12, 0x13, 0x14, 0x15, 0x16, 0x17,
    0x18, 0x19, 0x1a, 0x1b, 0x1c, 0x1d, 0x1e, 0x1f)

  const CIPHER_K2: Bytes16 := Bytes16(
    0xa5, 0x73, 0xc2, 0x9f, 0xa1, 0x76, 0xc4, 0x98,
    0xa9, 0x7f, 0xce, 0x93, 0xa5, 0x72, 0xc0, 0x9c)

  const CIPHER_K3: Bytes16 := Bytes16(
    0x16, 0x51, 0xa8, 0xcd, 0x02, 0x44, 0xbe, 0xda,
    0x1a, 0x5d, 0xa4, 0xc1, 0x06, 0x40, 0xba, 0xde)

  const CIPHER_K4: Bytes16 := Bytes16(
    0xae, 0x87, 0xdf, 0xf0, 0x0f, 0xf1, 0x1b, 0x68,
    0xa6, 0x8e, 0xd5, 0xfb, 0x03, 0xfc, 0x15, 0x67)

  const CIPHER_K5: Bytes16 := Bytes16(
    0x6d, 0xe1, 0xf1, 0x48, 0x6f, 0xa5, 0x4f, 0x92,
    0x75, 0xf8, 0xeb, 0x53, 0x73, 0xb8, 0x51, 0x8d)

  const CIPHER_K6: Bytes16 := Bytes16(
    0xc6, 0x56, 0x82, 0x7f, 0xc9, 0xa7, 0x99, 0x17,
    0x6f, 0x29, 0x4c, 0xec, 0x6c, 0xd5, 0x59, 0x8b)

  const CIPHER_K7: Bytes16 := Bytes16(
    0x3d, 0xe2, 0x3a, 0x75, 0x52, 0x47, 0x75, 0xe7,
    0x27, 0xbf, 0x9e, 0xb4, 0x54, 0x07, 0xcf, 0x39)

  const CIPHER_K8: Bytes16 := Bytes16(
    0x0b, 0xdc, 0x90, 0x5f, 0xc2, 0x7b, 0x09, 0x48,
    0xad, 0x52, 0x45, 0xa4, 0xc1, 0x87, 0x1c, 0x2f)

  const CIPHER_K9: Bytes16 := Bytes16(
    0x45, 0xf5, 0xa6, 0x60, 0x17, 0xb2, 0xd3, 0x87,
    0x30, 0x0d, 0x4d, 0x33, 0x64, 0x0a, 0x82, 0x0a)

  const CIPHER_K10: Bytes16 := Bytes16(
    0x7c, 0xcf, 0xf7, 0x1c, 0xbe, 0xb4, 0xfe, 0x54,
    0x13, 0xe6, 0xbb, 0xf0, 0xd2, 0x61, 0xa7, 0xdf)

  const CIPHER_K11: Bytes16 := Bytes16(
    0xf0, 0x1a, 0xfa, 0xfe, 0xe7, 0xa8, 0x29, 0x79,
    0xd7, 0xa5, 0x64, 0x4a, 0xb3, 0xaf, 0xe6, 0x40)

  const CIPHER_K12: Bytes16 := Bytes16(
    0x25, 0x41, 0xfe, 0x71, 0x9b, 0xf5, 0x00, 0x25,
    0x88, 0x13, 0xbb, 0xd5, 0x5a, 0x72, 0x1c, 0x0a)

  const CIPHER_K13: Bytes16 := Bytes16(
    0x4e, 0x5a, 0x66, 0x99, 0xa9, 0xf2, 0x4f, 0xe0,
    0x7e, 0x57, 0x2b, 0xaa, 0xcd, 0xf8, 0xcd, 0xea)

  const CIPHER_K14: Bytes16 := Bytes16(
    0x24, 0xfc, 0x79, 0xcc, 0xbf, 0x09, 0x79, 0xe9,
    0x37, 0x1a, 0xc2, 0x3c, 0x6d, 0x68, 0xde, 0x36)

  lemma CipherKey1()
    ensures |CIPHER_KEY| == 32 && IsTable(SBOX)
    ensures KeyBlock(CIPHER_KEY, 0, CIPHER_K0) && KeyBlock(CIPHER_KEY, 1, CIPHER_K1)
  {
    Tables();
    hide SBOX;
    assert CIPHER_KEY == AsBlock(CIPHER_K0) + AsBlock(CIPHER_K1);
    KeyStart(CIPHER_KEY, CIPHER_K0, CIPHER_K1);
  }

  lemma CipherKey2()
    ensures |CIPHER_KEY| == 32 && IsTable(SBOX)
    ensures KeyBlock(CIPHER_KEY, 1, CIPHER_K1) && KeyBlock(CIPHER_KEY, 2, CIPHER_K2)
  {
    CipherKey1();
    AllRows();
    Powers();
    hide SBOX, Line, XPower, KeyBlock, CIPHER_KEY;
    RotatedStep(CIPHER_KEY, 0, CIPHER_K0, CIPHER_K1, 0xa4, 0x72, 0xc0, 0x9c);
  }

  lemma CipherKey3()
    ensures |CIPHER_KEY| == 32 && IsTable(SBOX)
    ensures KeyBlock(CIPHER_KEY, 2, CIPHER_K2) && KeyBlock(CIPHER_KEY, 3, CIPHER_K3)
  {
    CipherKey2();
    AllRows();
    Powers();
    hide SBOX, Line, XPower, KeyBlock, CIPHER_KEY;
    PlainStep(CIPHER_KEY, 0, CIPHER_K1, CIPHER_K2, 0x06, 0x40, 0xba, 0xde);
  }

  lemma CipherKey4()
    ensures |CIPHER_KEY| == 32 && IsTable(SBOX)
    ensures KeyBlock(CIPHER_KEY, 3, CIPHER_K3) && KeyBlock(CIPHER_KEY, 4, CIPHER_K4)
  {
    CipherKey3();
    AllRows();
    Powers();
    hide SBOX, Line, XPower, KeyBlock, CIPHER_KEY;
    RotatedStep(CIPHER_KEY, 1, CIPHER_K2, CIPHER_K3, 0x09, 0xf4, 0x1d, 0x6f);
  }

  lemma CipherKey5()
    ensures |CIPHER_KEY| == 32 && IsTable(SBOX)
    ensures KeyBlock(CIPHER_KEY, 4, CIPHER_K4) && KeyBlock(CIPHER_KEY, 5, CIPHER_K5)
  {
    CipherKey4();
    AllRows();
    Powers();
    hide SBOX, Line, XPower, KeyBlock, CIPHER_KEY;
    PlainStep(CIPHER_KEY, 1, CIPHER_K3, CIPHER_K4, 0x7b, 0xb0, 0x59, 0x85);
  }

  lemma CipherKey6()
    ensures |CIPHER_KEY| == 32 && IsTable(SBOX)
    ensures KeyBlock(CIPHER_KEY, 5, CIPHER_K5) && KeyBlock(CIPHER_KEY, 6, CIPHER_K6)
  {
    CipherKey5();
    AllRows();
    Powers();
    hide SBOX, Line, XPower, KeyBlock, CIPHER_KEY;
    RotatedStep(CIPHER_KEY, 2, CIPHER_K4, CIPHER_K5, 0x6c, 0xd1, 0x5d, 0x8f);
  }

  lemma CipherKey7()
    ensures |CIPHER_KEY| == 32 && IsTable(SBOX)
    ensures KeyBlock(CIPHER_KEY, 6, CIPHER_K6) && KeyBlock(CIPHER_KEY, 7, CIPHER_K7)
  {
    CipherKey6();
    AllRows();
    Powers();
    hide SBOX, Line, XPower, KeyBlock, CIPHER_KEY;
    PlainStep(CIPHER_KEY, 2, CIPHER_K5, CIPHER_K6, 0x50, 0x03, 0xcb, 0x3d);
  }

  lemma CipherKey8()
    ensures |CIPHER_KEY| == 32 && IsTable(SBOX)
    ensures KeyBlock(CIPHER_KEY, 7, CIPHER_K7) && KeyBlock(CIPHER_KEY, 8, CIPHER_K8)
  {
    CipherKey7();
    AllRows();
    Powers();
    hide SBOX, Line, XPower, KeyBlock, CIPHER_KEY;
    RotatedStep(CIPHER_KEY, 3, CIPHER_K6, CIPHER_K7, 0xc5, 0x8a, 0x12, 0x20);
  }

  lemma CipherKey9()
    ensures |CIPHER_KEY| == 32 && IsTable(SBOX)
    ensures KeyBlock(CIPHER_KEY, 8, CIPHER_K8) && KeyBlock(CIPHER_KEY, 9, CIPHER_K9)
  {
    CipherKey8();
    AllRows();
    Powers();
    hide SBOX, Line, XPower, KeyBlock, CIPHER_KEY;
    PlainStep(CIPHER_KEY, 3, CIPHER_K7, CIPHER_K8, 0x78, 0x17, 0x9c, 0x15);
  }

  lemma CipherKey10()
    ensures |CIPHER_KEY| == 32 && IsTable(SBOX)
    ensures KeyBlock(CIPHER_KEY, 9, CIPHER_K9) && KeyBlock(CIPHER_KEY, 10, CIPHER_K10)
  {
    CipherKey9();
    AllRows();
    Powers();
    hide SBOX, Line, XPower, KeyBlock, CIPHER_KEY;
    RotatedStep(CIPHER_KEY, 4, CIPHER_K8, CIPHER_K9, 0x67, 0x13, 0x67, 0x43);
  }

  lemma CipherKey11()
    ensures |CIPHER_KEY| == 32 && IsTable(SBOX)
    ensures KeyBlock(CIPHER_KEY, 10, CIPHER_K10) && KeyBlock(CIPHER_KEY, 11, CIPHER_K11)
  {
    CipherKey10();
    AllRows();
    Powers();
    hide SBOX, Line, XPower, KeyBlock, CIPHER_KEY;
    PlainStep(CIPHER_KEY, 4, CIPHER_K9, CIPHER_K10, 0xb5, 0xef, 0x5c, 0x9e);
  }

  lemma CipherKey12()
    ensures |CIPHER_KEY| == 32 && IsTable(SBOX)
    ensures KeyBlock(CIPHER_KEY, 11, CIPHER_K11) && KeyBlock(CIPHER_KEY, 12, CIPHER_K12)
  {
    CipherKey11();
    AllRows();
    Powers();
    hide SBOX, Line, XPower, KeyBlock, CIPHER_KEY;
    RotatedStep(CIPHER_KEY, 5, CIPHER_K10, CIPHER_K11, 0x79, 0x8e, 0x09, 0x6d);
  }

  lemma CipherKey13()
    ensures |CIPHER_KEY| == 32 && IsTable(SBOX)
    ensures KeyBlock(CIPHER_KEY, 12, CIPHER_K12) && KeyBlock(CIPHER_KEY, 13, CIPHER_K13)
  {
    CipherKey12();
    AllRows();
    Powers();
    hide SBOX, Line, XPower, KeyBlock, CIPHER_KEY;
    PlainStep(CIPHER_KEY, 5, CIPHER_K11, CIPHER_K12, 0xbe, 0x40, 0x9c, 0x67);
  }

  lemma CipherKey14()
    ensures |CIPHER_KEY| == 32 && IsTable(SBOX)
    ensures KeyBlock(CIPHER_KEY, 13, CIPHER_K13) && KeyBlock(CIPHER_KEY, 14, CIPHER_K14)
  {
    CipherKey13();
    AllRows();
    Powers();
    hide SBOX, Line, XPower, KeyBlock, CIPHER_KEY;
    RotatedStep(CIPHER_KEY, 6, CIPHER_K12, CIPHER_K13, 0x41, 0xbd, 0x87, 0xbd);
  }

  const PLAINTEXT: Bytes16 := Bytes16(
    0x00, 0x11, 0x22, 0x33, 0x44, 0x55, 0x66, 0x77,
    0x88, 0x99, 0xaa, 0xbb, 0xcc, 0xdd, 0xee, 0xff)

  const STATE0: Bytes16 := Bytes16(
    0x00, 0x10, 0x20, 0x30, 0x40, 0x50, 0x60, 0x70,
    0x80, 0x90, 0xa0, 0xb0, 0xc0, 0xd0, 0xe0, 0xf0)

  const STATE1: Bytes16 := Bytes16(
    0x4f, 0x63, 0x76, 0x06, 0x43, 0xe0, 0xaa, 0x85,
    0xef, 0xa7, 0x21, 0x32, 0x01, 0xa4, 0xe7, 0x05)

  const STATE2: Bytes16 := Bytes16(
    0x18, 0x59, 0xfb, 0xc2, 0x8a, 0x1c, 0x00, 0xa0,
    0x78, 0xed, 0x8a, 0xad, 0xc4, 0x2f, 0x61, 0x09)

  const STATE3: Bytes16 := Bytes16(
    0x97, 0x5c, 0x66, 0xc1, 0xcb, 0x9f, 0x3f, 0xa8,
    0xa9, 0x3a, 0x28, 0xdf, 0x8e, 0xe1, 0x0f, 0x63)

  const STATE4: Bytes16 := Bytes16(
    0x1c, 0x05, 0xf2, 0x71, 0xa4, 0x17, 0xe0, 0x4f,
    0xf9, 0x21, 0xc5, 0xc1, 0x04, 0x70, 0x15, 0x54)

  const STATE5: Bytes16 := Bytes16(
    0xc3, 0x57, 0xaa, 0xe1, 0x1b, 0x45, 0xb7, 0xb0,
    0xa2, 0xc7, 0xbd, 0x28, 0xa8, 0xdc, 0x99, 0xfa)

  const STATE6: Bytes16 := Bytes16(
    0x7f, 0x07, 0x41, 0x43, 0xcb, 0x4e, 0x24, 0x3e,
    0xc1, 0x0c, 0x81, 0x5d, 0x83, 0x75, 0xd5, 0x4c)

  const STATE7: Bytes16 := Bytes16(
    0xd6, 0x53, 0xa4, 0x69, 0x6c, 0xa0, 0xbc, 0x0f,
    0x5a, 0xca, 0xab, 0x5d, 0xb9, 0x6c, 0x5e, 0x7d)

  const STATE8: Bytes16 := Bytes16(
    0x5a, 0xa8, 0x58, 0x39, 0x5f, 0xd2, 0x8d, 0x7d,
    0x05, 0xe1, 0xa3, 0x88, 0x68, 0xf3, 0xb9, 0xc5)

  const STATE9: Bytes16 := Bytes16(
    0x4a, 0x82, 0x48, 0x51, 0xc5, 0x7e, 0x7e, 0x47,
    0x64, 0x3d, 0xe5, 0x0c, 0x2a, 0xf3, 0xe8, 0xc9)

  const STATE10: Bytes16 := Bytes16(
    0xc1, 0x49, 0x07, 0xf6, 0xca, 0x3b, 0x3a, 0xa0,
    0x70, 0xe9, 0xaa, 0x31, 0x3b, 0x52, 0xb5, 0xec)

  const STATE11: Bytes16 := Bytes16(
    0x5f, 0x9c, 0x6a, 0xbf, 0xba, 0xc6, 0x34, 0xaa,
    0x50, 0x40, 0x9f, 0xa7, 0x66, 0x67, 0x76, 0x53)

  const STATE12: Bytes16 := Bytes16(
    0x51, 0x66, 0x04, 0x95, 0x43, 0x53, 0x95, 0x03,
    0x14, 0xfb, 0x86, 0xe4, 0x01, 0x92, 0x25, 0x21)

  const STATE13: Bytes16 := Bytes16(
    0x62, 0x7b, 0xce, 0xb9, 0x99, 0x9d, 0x5a, 0xaa,
    0xc9, 0x45, 0xec, 0xf4, 0x23, 0xf5, 0x6d, 0xa5)

  const SUB1: Bytes16 := Bytes16(
    0x63, 0xca, 0xb7, 0x04, 0x09, 0x53, 0xd0, 0x51,
    0xcd, 0x60, 0xe0, 0xe7, 0xba, 0x70, 0xe1, 0x8c)

  const SUB2: Bytes16 := Bytes16(
    0x84, 0xfb, 0x38, 0x6f, 0x1a, 0xe1, 0xac, 0x97,
    0xdf, 0x5c, 0xfd, 0x23, 0x7c, 0x49, 0x94, 0x6b)

  const SUB3: Bytes16 := Bytes16(
    0xad, 0xcb, 0x0f, 0x25, 0x7e, 0x9c, 0x63, 0xe0,
    0xbc, 0x55, 0x7e, 0x95, 0x1c, 0x15, 0xef, 0x01)

  const SUB4: Bytes16 := Bytes16(
    0x88, 0x4a, 0x33, 0x78, 0x1f, 0xdb, 0x75, 0xc2,
    0xd3, 0x80, 0x34, 0x9e, 0x19, 0xf8, 0x76, 0xfb)

  const SUB5: Bytes16 := Bytes16(
    0x9c, 0x6b, 0x89, 0xa3, 0x49, 0xf0, 0xe1, 0x84,
    0x99, 0xfd, 0xa6, 0x78, 0xf2, 0x51, 0x59, 0x20)

  const SUB6: Bytes16 := Bytes16(
    0x2e, 0x5b, 0xac, 0xf8, 0xaf, 0x6e, 0xa9, 0xe7,
    0x3a, 0xc6, 0x7a, 0x34, 0xc2, 0x86, 0xee, 0x2d)

  const SUB7: Bytes16 := Bytes16(
    0xd2, 0xc5, 0x83, 0x1a, 0x1f, 0x2f, 0x36, 0xb2,
    0x78, 0xfe, 0x0c, 0x4c, 0xec, 0x9d, 0x03, 0x29)

  const SUB8: Bytes16 := Bytes16(
    0xf6, 0xed, 0x49, 0xf9, 0x50, 0xe0, 0x65, 0x76,
    0xbe, 0x74, 0x62, 0x4c, 0x56, 0x50, 0x58, 0xff)

  const SUB9: Bytes16 := Bytes16(
    0xbe, 0xc2, 0x6a, 0x12, 0xcf, 0xb5, 0x5d, 0xff,
    0x6b, 0xf8, 0x0a, 0xc4, 0x45, 0x0d, 0x56, 0xa6)

  const SUB10: Bytes16 := Bytes16(
    0xd6, 0x13, 0x52, 0xd1, 0xa6, 0xf3, 0xf3, 0xa0,
    0x43, 0x27, 0xd9, 0xfe, 0xe5, 0x0d, 0x9b, 0xdd)

  const SUB11: Bytes16 := Bytes16(
    0x78, 0x3b, 0xc5, 0x42, 0x74, 0xe2, 0x80, 0xe0,
    0x51, 0x1e, 0xac, 0xc7, 0xe2, 0x00, 0xd5, 0xce)

  const SUB12: Bytes16 := Bytes16(
    0xcf, 0xde, 0x02, 0x08, 0xf4, 0xb4, 0x18, 0xac,
    0x53, 0x09, 0xdb, 0x5c, 0x33, 0x85, 0x38, 0xed)

  const SUB13: Bytes16 := Bytes16(
    0xd1, 0x33, 0xf2, 0x2a, 0x1a, 0xed, 0x2a, 0x7b,
    0xfa, 0x0f, 0x44, 0x69, 0x7c, 0x4f, 0x3f, 0xfd)

  const SUB14: Bytes16 := Bytes16(
    0xaa, 0x21, 0x8b, 0x56, 0xee, 0x5e, 0xbe, 0xac,
    0xdd, 0x6e, 0xce, 0xbf, 0x26, 0xe6, 0x3c, 0x06)

  const CIPHERTEXT: Bytes16 := Bytes16(
    0x8e, 0xa2, 0xb7, 0xca, 0x51, 0x67, 0x45, 0xbf,
    0xea, 0xfc, 0x49, 0x90, 0x4b, 0x49, 0x60, 0x89)

  lemma Substituted1()
    ensures Maps16(STATE0, SUB1)
  {
    AllRows();
    hide Line;
  }

  lemma Substituted2()
    ensures Maps16(STATE1, SUB2)
  {
    AllRows();
    hide Line;
  }

  lemma Substituted3()
    ensures Maps16(STATE2, SUB3)
  {
    AllRows();
    hide Line;
  }

  lemma Substituted4()
    ensures Maps16(STATE3, SUB4)
  {
    AllRows();
    hide Line;
  }

  lemma Substituted5()
    ensures Maps16(STATE4, SUB5)
  {
    AllRows();
    hide Line;
  }

  lemma Substituted6()
    ensures Maps16(STATE5, SUB6)
  {
    AllRows();
    hide Line;
  }

  lemma Substituted7()
    ensures Maps16(STATE6, SUB7)
  {
    AllRows();
    hide Line;
  }

  lemma Substituted8()
    ensures Maps16(STATE7, SUB8)
  {
    AllRows();
    hide Line;
  }

  lemma Substituted9()
    ensures Maps16(STATE8, SUB9)
  {
    AllRows();
    hide Line;
  }

  lemma Substituted10()
    ensures Maps16(STATE9, SUB10)
  {
    AllRows();
    hide Line;
  }

  lemma Substituted11()
    ensures Maps16(STATE10, SUB11)
  {
    AllRows();
    hide Line;
  }

  lemma Substituted12()
    ensures Maps16(STATE11, SUB12)
  {
    AllRows();
    hide Line;
  }

  lemma Substituted13()
    ensures Maps16(STATE12, SUB13)
  {
    AllRows();
    hide Line;
  }

  lemma Substituted14()
    ensures Maps16(STATE13, SUB14)
  {
    AllRows();
    hide Line;
  }

  lemma Ticked1()
    ensures Tick(SUB1, CIPHER_K1) == STATE1
  {
  }

  lemma Ticked2()
    ensures Tick(SUB2, CIPHER_K2) == STATE2
  {
  }

  lemma Ticked3()
    ensures Tick(SUB3, CIPHER_K3) == STATE3
  {
  }

  lemma Ticked4()
    ensures Tick(SUB4, CIPHER_K4) == STATE4
  {
  }

  lemma Ticked5()
    ensures Tick(SUB5, CIPHER_K5) == STATE5
  {
  }

  lemma Ticked6()
    ensures Tick(SUB6, CIPHER_K6) == STATE6
  {
  }

  lemma Ticked7()
    ensures Tick(SUB7, CIPHER_K7) == STATE7
  {
  }

  lemma Ticked8()
    ensures Tick(SUB8, CIPHER_K8) == STATE8
  {
  }

  lemma Ticked9()
    ensures Tick(SUB9, CIPHER_K9) == STATE9
  {
  }

  lemma Ticked10()
    ensures Tick(SUB10, CIPHER_K10) == STATE10
  {
  }

  lemma Ticked11()
    ensures Tick(SUB11, CIPHER_K11) == STATE11
  {
  }

  lemma Ticked12()
    ensures Tick(SUB12, CIPHER_K12) == STATE12
  {
  }

  lemma Ticked13()
    ensures Tick(SUB13, CIPHER_K13) == STATE13
  {
  }

  /** The fifteen round keys of appendix A.3, which make up the whole expanded key. */
  lemma ExpandedExample()
    ensures |EXPANSION_KEY| == 32 && IsTable(SBOX)
    ensures RoundKey(ExpandedKey(EXPANSION_KEY), 0) == AsBlock(EXPANSION_K0)
    ensures RoundKey(ExpandedKey(EXPANSION_KEY), 1) == AsBlock(EXPANSION_K1)
    ensures RoundKey(ExpandedKey(EXPANSION_KEY), 2) == AsBlock(EXPANSION_K2)
    ensures RoundKey(ExpandedKey(EXPANSION_KEY), 3) == AsBlock(EXPANSION_K3)
    ensures RoundKey(ExpandedKey(EXPANSION_KEY), 4) == AsBlock(EXPANSION_K4)
    ensures RoundKey(ExpandedKey(EXPANSION_KEY), 5) == AsBlock(EXPANSION_K5)
    ensures RoundKey(ExpandedKey(EXPANSION_KEY), 6) == AsBlock(EXPANSION_K6)
    ensures RoundKey(ExpandedKey(EXPANSION_KEY), 7) == AsBlock(EXPANSION_K7)
    ensures RoundKey(ExpandedKey(EXPANSION_KEY), 8) == AsBlock(EXPANSION_K8)
    ensures RoundKey(ExpandedKey(EXPANSION_KEY), 9) == AsBlock(EXPANSION_K9)
    ensures RoundKey(ExpandedKey(EXPANSION_KEY), 10) == AsBlock(EXPANSION_K10)
    ensures RoundKey(ExpandedKey(EXPANSION_KEY), 11) == AsBlock(EXPANSION_K11)
    ensures RoundKey(ExpandedKey(EXPANSION_KEY), 12) == AsBlock(EXPANSION_K12)
    ensures RoundKey(ExpandedKey(EXPANSION_KEY), 13) == AsBlock(EXPANSION_K13)
    ensures RoundKey(ExpandedKey(EXPANSION_KEY), 14) == AsBlock(EXPANSION_K14)
  {
    hide *;
    ExpansionKey1();
    ExpansionKey2();
    ExpansionKey3();
    ExpansionKey4();
    ExpansionKey5();
    ExpansionKey6();
    ExpansionKey7();
    ExpansionKey8();
    ExpansionKey9();
    ExpansionKey10();
    ExpansionKey11();
    ExpansionKey12();
    ExpansionKey13();
    ExpansionKey14();
    RoundKeyIs(EXPANSION_KEY, 0, EXPANSION_K0);
    RoundKeyIs(EXPANSION_KEY, 1, EXPANSION_K1);
    RoundKeyIs(EXPANSION_KEY, 2, EXPANSION_K2);
    RoundKeyIs(EXPANSION_KEY, 3, EXPANSION_K3);
    RoundKeyIs(EXPANSION_KEY, 4, EXPANSION_K4);
    RoundKeyIs(EXPANSION_KEY, 5, EXPANSION_K5);
    RoundKeyIs(EXPANSION_KEY, 6, EXPANSION_K6);
    RoundKeyIs(EXPANSION_KEY, 7, EXPANSION_K7);
    RoundKeyIs(EXPANSION_KEY, 8, EXPANSION_K8);
    RoundKeyIs(EXPANSION_KEY, 9, EXPANSION_K9);
    RoundKeyIs(EXPANSION_KEY, 10, EXPANSION_K10);
    RoundKeyIs(EXPANSION_KEY, 11, EXPANSION_K11);
    RoundKeyIs(EXPANSION_KEY, 12, EXPANSION_K12);
    RoundKeyIs(EXPANSION_KEY, 13, EXPANSION_K13);
    RoundKeyIs(EXPANSION_KEY, 14, EXPANSION_K14);
  }

  lemma CipherKeys()
    ensures |CIPHER_KEY| == 32 && IsTable(SBOX)
    ensures RoundKey(ExpandedKey(CIPHER_KEY), 0) == AsBlock(CIPHER_K0)
    ensures RoundKey(ExpandedKey(CIPHER_KEY), 1) == AsBlock(CIPHER_K1)
    ensures RoundKey(ExpandedKey(CIPHER_KEY), 2) == AsBlock(CIPHER_K2)
    ensures RoundKey(ExpandedKey(CIPHER_KEY), 3) == AsBlock(CIPHER_K3)
    ensures RoundKey(ExpandedKey(CIPHER_KEY), 4) == AsBlock(CIPHER_K4)
    ensures RoundKey(ExpandedKey(CIPHER_KEY), 5) == AsBlock(CIPHER_K5)
    ensures RoundKey(ExpandedKey(CIPHER_KEY), 6) == AsBlock(CIPHER_K6)
    ensures RoundKey(ExpandedKey(CIPHER_KEY), 7) == AsBlock(CIPHER_K7)
    ensures RoundKey(ExpandedKey(CIPHER_KEY), 8) == AsBlock(CIPHER_K8)
    ensures RoundKey(ExpandedKey(CIPHER_KEY), 9) == AsBlock(CIPHER_K9)
    ensures RoundKey(ExpandedKey(CIPHER_KEY), 10) == AsBlock(CIPHER_K10)
    ensures RoundKey(ExpandedKey(CIPHER_KEY), 11) == AsBlock(CIPHER_K11)
    ensures RoundKey(ExpandedKey(CIPHER_KEY), 12) == AsBlock(CIPHER_K12)
    ensures RoundKey(ExpandedKey(CIPHER_KEY), 13) == AsBlock(CIPHER_K13)
    ensures RoundKey(ExpandedKey(CIPHER_KEY), 14) == AsBlock(CIPHER_K14)
  {
    hide *;
    CipherKey1();
    CipherKey2();
    CipherKey3();
    CipherKey4();
    CipherKey5();
    CipherKey6();
    CipherKey7();
    CipherKey8();
    CipherKey9();
    CipherKey10();
    CipherKey11();
    CipherKey12();
    CipherKey13();
    CipherKey14();
    RoundKeyIs(CIPHER_KEY, 0, CIPHER_K0);
    RoundKeyIs(CIPHER_KEY, 1, CIPHER_K1);
    RoundKeyIs(CIPHER_KEY, 2, CIPHER_K2);
    RoundKeyIs(CIPHER_KEY, 3, CIPHER_K3);
    RoundKeyIs(CIPHER_KEY, 4, CIPHER_K4);
    RoundKeyIs(CIPHER_KEY, 5, CIPHER_K5);
    RoundKeyIs(CIPHER_KEY, 6, CIPHER_K6);
    RoundKeyIs(CIPHER_KEY, 7, CIPHER_K7);
    RoundKeyIs(CIPHER_KEY, 8, CIPHER_K8);
    RoundKeyIs(CIPHER_KEY, 9, CIPHER_K9);
    RoundKeyIs(CIPHER_KEY, 10, CIPHER_K10);
    RoundKeyIs(CIPHER_KEY, 11, CIPHER_K11);
    RoundKeyIs(CIPHER_KEY, 12, CIPHER_K12);
    RoundKeyIs(CIPHER_KEY, 13, CIPHER_K13);
    RoundKeyIs(CIPHER_KEY, 14, CIPHER_K14);
  }

  lemma FirstState()
    ensures Added(PLAINTEXT, CIPHER_K0) == STATE0
  {
  }

  lemma LastState()
    ensures Added(Shifted(SUB14), CIPHER_K14) == CIPHERTEXT
  {
  }

  lemma Initial(w: seq<bv8>, p: Bytes16, k: Bytes16)
    requires |w| == 240 && IsTable(SBOX) && RoundKey(w, 0) == AsBlock(k)
    ensures Forward(w, AsBlock(p), 0) == AsBlock(Added(p, k))
  {
    hide SBOX, AddKey, RoundKey, Added, AsBlock;
    AddedIs(p, k);
  }

  /** Under this key the plaintext of appendix C.3 is encrypted to its ciphertext. */
  lemma CipherExample()
    ensures |CIPHER_KEY| == 32 && IsTable(SBOX)
    ensures Cipher(ExpandedKey(CIPHER_KEY), AsBlock(PLAINTEXT)) == AsBlock(CIPHERTEXT)
  {
    hide *;
    CipherKeys();
    var w, p := ExpandedKey(CIPHER_KEY), AsBlock(PLAINTEXT);
    Initial(w, PLAINTEXT, CIPHER_K0);
    FirstState();
    Substituted1();
    TickSound(w, p, 1, STATE0, SUB1, CIPHER_K1);
    Ticked1();
    Substituted2();
    TickSound(w, p, 2, STATE1, SUB2, CIPHER_K2);
    Ticked2();
    Substituted3();
    TickSound(w, p, 3, STATE2, SUB3, CIPHER_K3);
    Ticked3();
    Substituted4();
    TickSound(w, p, 4, STATE3, SUB4, CIPHER_K4);
    Ticked4();
    Substituted5();
    TickSound(w, p, 5, STATE4, SUB5, CIPHER_K5);
    Ticked5();
    Substituted6();
    TickSound(w, p, 6, STATE5, SUB6, CIPHER_K6);
    Ticked6();
    Substituted7();
    TickSound(w, p, 7, STATE6, SUB7, CIPHER_K7);
    Ticked7();
    Substituted8();
    TickSound(w, p, 8, STATE7, SUB8, CIPHER_K8);
    Ticked8();
    Substituted9();
    TickSound(w, p, 9, STATE8, SUB9, CIPHER_K9);
    Ticked9();
    Substituted10();
    TickSound(w, p, 10, STATE9, SUB10, CIPHER_K10);
    Ticked10();
    Substituted11();
    TickSound(w, p, 11, STATE10, SUB11, CIPHER_K11);
    Ticked11();
    Substituted12();
    TickSound(w, p, 12, STATE11, SUB12, CIPHER_K12);
    Ticked12();
    Substituted13();
    TickSound(w, p, 13, STATE12, SUB13, CIPHER_K13);
    Ticked13();
    Substituted14();
    LastSound(w, p, STATE13, SUB14, CIPHER_K14);
    LastState();
  }
}
