/** The lengths for which the code's digest is the standard's. */
module Sha256Tails {
  // For each length from 56 to 63 both hashes of that many zero bytes are computed: M holds the machine half way
  // through the marked tail, H the chaining value after it, and N the machine half way through the block of the length.

  import opened Sha256
  import opened Sha256Machine

  // ----- 56 zero bytes

  const M56: Machine := Machine(
    0x3eb3a59a, 0x0a31f44a, 0x99e0258c, 0xba4f80fa, 0xe6b04505, 0xca095f0e, 0xf1bc72da, 0x6b13c44b, 0x06886dc6,
    0xa37bf116, 0x717cbe96, 0xfec2d74a, 0xa7b67f00, 0x811596a2, 0x98a6e768, 0x03b20c82, 0x5d1da7c9, 0xb156b935,
    0xc3ddca11, 0x249c107f, 0xc48d24ef, 0x5de54c30, 0xdefece65, 0x2ca1480d)

  const H56: Registers := Registers(
    0x2a7e5b55, 0xb71513c5, 0x33eec88b, 0x15f488c4, 0xdd8ac6e6, 0x8fdc4096, 0x2ab81b6b, 0x4d599744)

  const N56: Machine := Machine(
    0x3ff2b8e3, 0x678d4eea, 0x9c3adb58, 0xd8f0bbfc, 0x191ec5ef, 0x83460436, 0xde903ac6, 0x3680b65b, 0x5df4b0c4,
    0xe257036a, 0xc97bb6f1, 0xc5b46f4d, 0xf8253c4e, 0xa558d189, 0x78696285, 0xed07117f, 0x107358f6, 0x390ae496,
    0x565010a2, 0xc51d7d44, 0x9e74c972, 0x6614b561, 0x30fc129d, 0x9ac684a8)

  lemma LengthWord56()
    ensures WordOf(0, 0, 1, ByteOf(448)) == 448
  {
    assert ByteOf(448) == 0xc0;
  }

  lemma Start56()
    ensures FirstHalf(Load(INIT, 0x80000000, 0x00000000)) == M56
  {
  }

  lemma Chain56()
    ensures Sum(INIT, LastHalf(M56)) == H56
  {
  }

  lemma Resume56()
    ensures FirstHalf(Load(H56, 0, 448)) == N56
  {
  }

  const C56: Machine := Machine(
    0xe80881ce, 0x57a528e3, 0x1ba85480, 0x469925a3, 0xb55a1522, 0x63249d4e, 0x30b8eb19, 0xa28d8fd2, 0x1b42c86c,
    0xd5816579, 0xfc260c9b, 0x5a8a206d, 0xe9d255a6, 0x7b605d2c, 0x167630d3, 0x14045e30, 0xb59d9484, 0x564baab8,
    0x28ffc01d, 0x270ea5af, 0xfcc8ab35, 0xfab285de, 0x57982e0d, 0x51359fb6)

  lemma Code56()
    ensures FirstHalf(Load(INIT, 0x80000000, 1)) == C56
  {
  }

  lemma CodeEnd56()
    ensures Sum(INIT, LastHalf(C56)).a == 0xf9ccd7f5
  {
  }

  lemma StandardEnd56()
    ensures Sum(H56, LastHalf(N56)).a == 0xd4817aa5
  {
  }

  lemma Blocks56()
    ensures Sparse(MarkedTail(Zeros(56)), 0x80000000, 0) && Sparse(LengthBlock(56), 0, 448)
    ensures Sparse(CodeBlock(56), 0x80000000, 1)
  {
    MarkedBytes(56);
    LengthBlockBytes(56);
    CodeBlockBytes(56);
    LastWords();
    LengthWord56();
    hide MarkedTail, LengthBlock, CodeBlock, Zeros, WordOf, ByteOf;
  }

  // ----- 57 zero bytes

  const M57: Machine := Machine(
    0x664e57b6, 0x52a5a010, 0x0385a518, 0x919c002a, 0xca2129fb, 0x1bfcea66, 0x67f41fa2, 0xfebf832c, 0xb92c8b2d,
    0xa4637280, 0xe8ff20ed, 0xf792fe66, 0xb4abfefd, 0xc604a77e, 0x72f4737a, 0x9bb74845, 0x192445df, 0x4d68b4f5,
    0x4dc08738, 0x0de5325a, 0x3942f900, 0xc2cee9f6, 0xc04dc387, 0xd3de1341)

  const H57: Registers := Registers(
    0xf65d9232, 0xca62f4e3, 0x094fe8aa, 0x76358b12, 0x07d98e9b, 0x4e950e96, 0xd908beb7, 0xe86d6578)

  const N57: Machine := Machine(
    0x4c5e7426, 0x5c3f2c7c, 0x270dd823, 0x7200fcd8, 0x70704ff6, 0x06c77c7c, 0x14e99f5b, 0x632b31e8, 0xc7e5267d,
    0xe11ad476, 0x10a008b5, 0xb466b186, 0x62f1ce48, 0xc3bc4560, 0x22db97ab, 0x8ec661bc, 0x45d75fd1, 0x5f3b1b9c,
    0xa024d232, 0x0b9f8cba, 0x582fc601, 0x66897e1d, 0x6deee466, 0x88cee7e0)

  lemma LengthWord57()
    ensures WordOf(0, 0, 1, ByteOf(456)) == 456
  {
    assert ByteOf(456) == 0xc8;
  }

  lemma Start57()
    ensures FirstHalf(Load(INIT, 0x00800000, 0x00000000)) == M57
  {
  }

  lemma Chain57()
    ensures Sum(INIT, LastHalf(M57)) == H57
  {
  }

  lemma Resume57()
    ensures FirstHalf(Load(H57, 0, 456)) == N57
  {
  }

  lemma Rest57()
    ensures Sum(H57, LastHalf(N57)).a != H57.a
  {
  }

  lemma Blocks57()
    ensures Sparse(MarkedTail(Zeros(57)), 0x00800000, 0x00000000) && Sparse(LengthBlock(57), 0, 456)
  {
    MarkedBytes(57);
    LengthBlockBytes(57);
    LastWords();
    LengthWord57();
    hide MarkedTail, LengthBlock, Zeros, WordOf, ByteOf;
  }

  // ----- 58 zero bytes

  const M58: Machine := Machine(
    0xcb09ce8b, 0xdde40e25, 0x4407356a, 0x0bda56ea, 0xb42979c4, 0x83d2715a, 0x9e096b44, 0x6c2a3d7e, 0xc310ac84,
    0xf9f69a7b, 0x98e25fe2, 0xbaab57b9, 0xb96d622a, 0xb7889f66, 0x7634f978, 0x282e3f99, 0x1e0a5f7f, 0xb6e10b67,
    0x8705b172, 0x31893b98, 0x0e278ef0, 0x3c33c734, 0x29181b49, 0xb7a9219f)

  const H58: Registers := Registers(
    0x832fa698, 0x974bbd74, 0x1eee4731, 0x2adac907, 0x5e886f69, 0x6a622e01, 0x01e7eb3a, 0x8dde23db)

  const N58: Machine := Machine(
    0x82426a5e, 0xf114b799, 0xb7bd3e52, 0x3af70be9, 0x51ee3d9a, 0x1fbc6149, 0x726d1461, 0x7dccffee, 0x2bef4282,
    0x6a936607, 0x000c8a1e, 0x9959d1e9, 0x431cb59e, 0x71d26f01, 0x9c0fb2da, 0xc3a3fd4a, 0x5d655fee, 0x178deb82,
    0xddabc946, 0xeed57cd1, 0xec5f3259, 0x63e2ddd3, 0x4f2e2fde, 0x0a3efe3e)

  lemma LengthWord58()
    ensures WordOf(0, 0, 1, ByteOf(464)) == 464
  {
    assert ByteOf(464) == 0xd0;
  }

  lemma Start58()
    ensures FirstHalf(Load(INIT, 0x00008000, 0x00000000)) == M58
  {
  }

  lemma Chain58()
    ensures Sum(INIT, LastHalf(M58)) == H58
  {
  }

  lemma Resume58()
    ensures FirstHalf(Load(H58, 0, 464)) == N58
  {
  }

  lemma Rest58()
    ensures Sum(H58, LastHalf(N58)).a != H58.a
  {
  }

  lemma Blocks58()
    ensures Sparse(MarkedTail(Zeros(58)), 0x00008000, 0x00000000) && Sparse(LengthBlock(58), 0, 464)
  {
    MarkedBytes(58);
    LengthBlockBytes(58);
    LastWords();
    LengthWord58();
    hide MarkedTail, LengthBlock, Zeros, WordOf, ByteOf;
  }

  // ----- 59 zero bytes

  const M59: Machine := Machine(
    0x260f988a, 0x7c731018, 0xd344afd5, 0xf6e0a271, 0x6a43c9eb, 0x98c14bf3, 0xe80d51a7, 0x586ba1f7, 0x4eb3a330,
    0x67f98d30, 0xc842969d, 0x52ec77d9, 0x4a848ddb, 0x8b05eb3c, 0xdf7d0b89, 0x596fa773, 0x4f9c2537, 0x78754829,
    0xb7462566, 0x4f55d9b6, 0xd95447e1, 0x9ed1cd45, 0x512907fa, 0xb0744cac)

  const H59: Registers := Registers(
    0x4deb11c4, 0xbfa20cde, 0xb35c8e0c, 0xb1852a31, 0xc74cbc42, 0xfeb7b48b, 0x5bdc5eaa, 0xde596f0d)

  const N59: Machine := Machine(
    0x6f496f39, 0x8adcf99b, 0x72d108e8, 0x4c9552af, 0x231c60cc, 0xbda96bf6, 0x4e9780a8, 0x69d041c3, 0xf2c10d51,
    0xae6285f8, 0xbc00de24, 0xd383a042, 0xf6e2d05b, 0xd904f9f2, 0x256996e7, 0xf469506a, 0x8e5d8352, 0x663777ed,
    0x7418838d, 0xbff7a987, 0x8669c34c, 0x111fb776, 0x8a2da9e3, 0x7357a687)

  lemma LengthWord59()
    ensures WordOf(0, 0, 1, ByteOf(472)) == 472
  {
    assert ByteOf(472) == 0xd8;
  }

  lemma Start59()
    ensures FirstHalf(Load(INIT, 0x00000080, 0x00000000)) == M59
  {
  }

  lemma Chain59()
    ensures Sum(INIT, LastHalf(M59)) == H59
  {
  }

  lemma Resume59()
    ensures FirstHalf(Load(H59, 0, 472)) == N59
  {
  }

  lemma Rest59()
    ensures Sum(H59, LastHalf(N59)).a != H59.a
  {
  }

  lemma Blocks59()
    ensures Sparse(MarkedTail(Zeros(59)), 0x00000080, 0x00000000) && Sparse(LengthBlock(59), 0, 472)
  {
    MarkedBytes(59);
    LengthBlockBytes(59);
    LastWords();
    LengthWord59();
    hide MarkedTail, LengthBlock, Zeros, WordOf, ByteOf;
  }

  // ----- 60 zero bytes

  const M60: Machine := Machine(
    0x07f333dc, 0xdeecac69, 0x937498c1, 0xae69f59b, 0x588f0c62, 0x927354b2, 0x6f35c081, 0x82abfab5, 0x284ca766,
    0x06886dc6, 0xa37bf116, 0x717cbe96, 0xfec2d74a, 0xa7b67f00, 0x811596a2, 0x98a6e768, 0x03b20c82, 0x5d1da7c9,
    0xb156b935, 0xc3ddca11, 0x249c107f, 0xc48d24ef, 0x5de54c30, 0xdefece65)

  const H60: Registers := Registers(
    0x030ca801, 0xedbb150d, 0x5884c515, 0x0286a734, 0x3755c7a0, 0xeeef9a93, 0x3ddb7233, 0x55e21d7a)

  const N60: Machine := Machine(
    0x4b216af7, 0x3236188a, 0x449a742a, 0xb58f3abb, 0xb3fedd62, 0x3b6e8b8d, 0x645f80d1, 0xcf8be6f6, 0xb8bd04b6,
    0xda0b2d84, 0xa6bba743, 0xf1856840, 0xcc3bcee4, 0x4ff58914, 0x19c23fa1, 0x4ca8f88c, 0x8161805c, 0x0ba3ac99,
    0xd317e01c, 0x6b493e7a, 0xcbafae54, 0xfbef5b1f, 0x597b8908, 0x72a5b15f)

  lemma LengthWord60()
    ensures WordOf(0, 0, 1, ByteOf(480)) == 480
  {
    assert ByteOf(480) == 0xe0;
  }

  lemma Start60()
    ensures FirstHalf(Load(INIT, 0x00000000, 0x80000000)) == M60
  {
  }

  lemma Chain60()
    ensures Sum(INIT, LastHalf(M60)) == H60
  {
  }

  lemma Resume60()
    ensures FirstHalf(Load(H60, 0, 480)) == N60
  {
  }

  lemma Rest60()
    ensures Sum(H60, LastHalf(N60)).a != H60.a
  {
  }

  lemma Blocks60()
    ensures Sparse(MarkedTail(Zeros(60)), 0x00000000, 0x80000000) && Sparse(LengthBlock(60), 0, 480)
  {
    MarkedBytes(60);
    LengthBlockBytes(60);
    LastWords();
    LengthWord60();
    hide MarkedTail, LengthBlock, Zeros, WordOf, ByteOf;
  }

  // ----- 61 zero bytes

  const M61: Machine := Machine(
    0x24012a82, 0x22ab1429, 0x3346f3a1, 0x2d19c84e, 0x4dbcefc9, 0x065652c6, 0x4c0b2386, 0x5e5e5b6a, 0xa2281ca6,
    0xb92c8b2d, 0xa4637280, 0xe8ff20ed, 0xf792fe66, 0xb4abfefd, 0xc604a77e, 0x72f4737a, 0x9bb74845, 0x192445df,
    0x4d68b4f5, 0x4dc08738, 0x0de5325a, 0x3942f900, 0xc2cee9f6, 0xc04dc387)

  const H61: Registers := Registers(
    0x56f76c45, 0xbe07b162, 0x53eb1648, 0xf5bdd592, 0x625ffc47, 0xe48b21d5, 0xf991138b, 0x98d798db)

  const N61: Machine := Machine(
    0xa6f630c9, 0x9424f5d5, 0x21966e79, 0xeec39ca6, 0x28febb90, 0xb8e62a20, 0x1723cf73, 0xae5c0282, 0x5260b15e,
    0x13843378, 0xb03a06a6, 0xb8fced2c, 0xd38043e9, 0x3c048373, 0xa836f38f, 0x42eb5e73, 0x27d3d83a, 0xdfb14323,
    0x2f1d30b3, 0xb4f76789, 0x38c1d649, 0xacbe09b6, 0x2a05eb2f, 0xede4995b)

  lemma LengthWord61()
    ensures WordOf(0, 0, 1, ByteOf(488)) == 488
  {
    assert ByteOf(488) == 0xe8;
  }

  lemma Start61()
    ensures FirstHalf(Load(INIT, 0x00000000, 0x00800000)) == M61
  {
  }

  lemma Chain61()
    ensures Sum(INIT, LastHalf(M61)) == H61
  {
  }

  lemma Resume61()
    ensures FirstHalf(Load(H61, 0, 488)) == N61
  {
  }

  lemma Rest61()
    ensures Sum(H61, LastHalf(N61)).a != H61.a
  {
  }

  lemma Blocks61()
    ensures Sparse(MarkedTail(Zeros(61)), 0x00000000, 0x00800000) && Sparse(LengthBlock(61), 0, 488)
  {
    MarkedBytes(61);
    LengthBlockBytes(61);
    LastWords();
    LengthWord61();
    hide MarkedTail, LengthBlock, Zeros, WordOf, ByteOf;
  }

  // ----- 62 zero bytes

  const M62: Machine := Machine(
    0xcbc454d8, 0x50bd1f33, 0x4d4df107, 0x89680374, 0x8789d5df, 0xe5c41456, 0xb31cab42, 0xd942ac00, 0xc36628a5,
    0xc310ac84, 0xf9f69a7b, 0x98e25fe2, 0xbaab57b9, 0xb96d622a, 0xb7889f66, 0x7634f978, 0x282e3f99, 0x1e0a5f7f,
    0xb6e10b67, 0x8705b172, 0x31893b98, 0x0e278ef0, 0x3c33c734, 0x29181b49)

  const H62: Registers := Registers(
    0x0ae4be1d, 0x377d3688, 0xff7b7a39, 0x8275973b, 0xd1266f26, 0xeea6f72a, 0x0f3595d7, 0x61bb8991)

  const N62: Machine := Machine(
    0xf5ddd222, 0xc6d94c1f, 0x13a962c1, 0xca87d4e0, 0x49483085, 0xcc3a72d9, 0xa0c29cf9, 0x33ab7632, 0xf12c402b,
    0xd55af419, 0xe7e7d117, 0x5c04b8e7, 0x57ab7422, 0x0a6654ff, 0xc08aae86, 0xf1420679, 0xda7273ec, 0x13bb5720,
    0x4c49a91a, 0x60e3f08d, 0xba7dbe21, 0x9ba73cdf, 0xb9834f89, 0x8c3e571b)

  lemma LengthWord62()
    ensures WordOf(0, 0, 1, ByteOf(496)) == 496
  {
    assert ByteOf(496) == 0xf0;
  }

  lemma Start62()
    ensures FirstHalf(Load(INIT, 0x00000000, 0x00008000)) == M62
  {
  }

  lemma Chain62()
    ensures Sum(INIT, LastHalf(M62)) == H62
  {
  }

  lemma Resume62()
    ensures FirstHalf(Load(H62, 0, 496)) == N62
  {
  }

  lemma Rest62()
    ensures Sum(H62, LastHalf(N62)).a != H62.a
  {
  }

  lemma Blocks62()
    ensures Sparse(MarkedTail(Zeros(62)), 0x00000000, 0x00008000) && Sparse(LengthBlock(62), 0, 496)
  {
    MarkedBytes(62);
    LengthBlockBytes(62);
    LastWords();
    LengthWord62();
    hide MarkedTail, LengthBlock, Zeros, WordOf, ByteOf;
  }

  // ----- 63 zero bytes

  const M63: Machine := Machine(
    0xae9bde62, 0xfb102c10, 0x67453fa8, 0x062bffc8, 0x07611fe5, 0xefbc7f81, 0x2311995c, 0x36b6a3b7, 0x00235e28,
    0x4eb3a330, 0x67f98d30, 0xc842969d, 0x52ec77d9, 0x4a848ddb, 0x8b05eb3c, 0xdf7d0b89, 0x596fa773, 0x4f9c2537,
    0x78754829, 0xb7462566, 0x4f55d9b6, 0xd95447e1, 0x9ed1cd45, 0x512907fa)

  const H63: Registers := Registers(
    0xb6c50f43, 0xf3ac452b, 0xbba1ce11, 0x31bc76dd, 0x450fb36b, 0xe5b224b7, 0x3852ee03, 0x2de92aa9)

  const N63: Machine := Machine(
    0x59566b4b, 0xba4e8394, 0xc76cd09e, 0x335f29e8, 0x5b6945b4, 0xbba47c6b, 0xe2c461f1, 0x412b3be6, 0xb147e4ba,
    0xd19a9585, 0xac72eb01, 0x7235f544, 0xd8df7709, 0x1d065ed7, 0x4a6cdd5c, 0xb5b1edd3, 0xee95bc48, 0xebe222ab,
    0x31d40b45, 0xf37a2784, 0x9cb3c493, 0xbb547af0, 0x73081223, 0x114e1030)

  lemma LengthWord63()
    ensures WordOf(0, 0, 1, ByteOf(504)) == 504
  {
    assert ByteOf(504) == 0xf8;
  }

  lemma Start63()
    ensures FirstHalf(Load(INIT, 0x00000000, 0x00000080)) == M63
  {
  }

  lemma Chain63()
    ensures Sum(INIT, LastHalf(M63)) == H63
  {
  }

  lemma Resume63()
    ensures FirstHalf(Load(H63, 0, 504)) == N63
  {
  }

  lemma Rest63()
    ensures Sum(H63, LastHalf(N63)).a != H63.a
  {
  }

  lemma Blocks63()
    ensures Sparse(MarkedTail(Zeros(63)), 0x00000000, 0x00000080) && Sparse(LengthBlock(63), 0, 504)
  {
    MarkedBytes(63);
    LengthBlockBytes(63);
    LastWords();
    LengthWord63();
    hide MarkedTail, LengthBlock, Zeros, WordOf, ByteOf;
  }

  // ----- every length

  lemma TailsDiffer(n: nat)
    requires 56 <= n <= 63
    ensures CodeHash(Zeros(n)) != StandardHash(Zeros(n))
  {
    hide *;
    match n
    case 56 =>
      Start56();
      Chain56();
      Resume56();
      Code56();
      CodeEnd56();
      StandardEnd56();
      Blocks56();
      LoadSound(INIT, MarkedTail(Zeros(n)), 0x80000000, 0);
      CompressLoaded(INIT, MarkedTail(Zeros(n)), Load(INIT, 0x80000000, 0), M56);
      LoadSound(H56, LengthBlock(n), 0, 448);
      CompressLoaded(H56, LengthBlock(n), Load(H56, 0, 448), N56);
      LoadSound(INIT, CodeBlock(n), 0x80000000, 1);
      CompressLoaded(INIT, CodeBlock(n), Load(INIT, 0x80000000, 1), C56);
      HashesOfZeros(n);
      InitialState();
      FirstWord(Sum(H56, LastHalf(N56)));
      FirstWord(Sum(INIT, LastHalf(C56)));
    case 57 =>
      Start57();
      Chain57();
      Resume57();
      Rest57();
      Blocks57();
      LoadSound(INIT, MarkedTail(Zeros(n)), 0x00800000, 0x00000000);
      CompressLoaded(INIT, MarkedTail(Zeros(n)), Load(INIT, 0x00800000, 0x00000000), M57);
      LoadSound(H57, LengthBlock(n), 0, 456);
      CompressLoaded(H57, LengthBlock(n), Load(H57, 0, 456), N57);
      StoppedEarly(n, H57, Sum(H57, LastHalf(N57)));
    case 58 =>
      Start58();
      Chain58();
      Resume58();
      Rest58();
      Blocks58();
      LoadSound(INIT, MarkedTail(Zeros(n)), 0x00008000, 0x00000000);
      CompressLoaded(INIT, MarkedTail(Zeros(n)), Load(INIT, 0x00008000, 0x00000000), M58);
      LoadSound(H58, LengthBlock(n), 0, 464);
      CompressLoaded(H58, LengthBlock(n), Load(H58, 0, 464), N58);
      StoppedEarly(n, H58, Sum(H58, LastHalf(N58)));
    case 59 =>
      Start59();
      Chain59();
      Resume59();
      Rest59();
      Blocks59();
      LoadSound(INIT, MarkedTail(Zeros(n)), 0x00000080, 0x00000000);
      CompressLoaded(INIT, MarkedTail(Zeros(n)), Load(INIT, 0x00000080, 0x00000000), M59);
      LoadSound(H59, LengthBlock(n), 0, 472);
      CompressLoaded(H59, LengthBlock(n), Load(H59, 0, 472), N59);
      StoppedEarly(n, H59, Sum(H59, LastHalf(N59)));
    case 60 =>
      Start60();
      Chain60();
      Resume60();
      Rest60();
      Blocks60();
      LoadSound(INIT, MarkedTail(Zeros(n)), 0x00000000, 0x80000000);
      CompressLoaded(INIT, MarkedTail(Zeros(n)), Load(INIT, 0x00000000, 0x80000000), M60);
      LoadSound(H60, LengthBlock(n), 0, 480);
      CompressLoaded(H60, LengthBlock(n), Load(H60, 0, 480), N60);
      StoppedEarly(n, H60, Sum(H60, LastHalf(N60)));
    case 61 =>
      Start61();
      Chain61();
      Resume61();
      Rest61();
      Blocks61();
      LoadSound(INIT, MarkedTail(Zeros(n)), 0x00000000, 0x00800000);
      CompressLoaded(INIT, MarkedTail(Zeros(n)), Load(INIT, 0x00000000, 0x00800000), M61);
      LoadSound(H61, LengthBlock(n), 0, 488);
      CompressLoaded(H61, LengthBlock(n), Load(H61, 0, 488), N61);
      StoppedEarly(n, H61, Sum(H61, LastHalf(N61)));
    case 62 =>
      Start62();
      Chain62();
      Resume62();
      Rest62();
      Blocks62();
      LoadSound(INIT, MarkedTail(Zeros(n)), 0x00000000, 0x00008000);
      CompressLoaded(INIT, MarkedTail(Zeros(n)), Load(INIT, 0x00000000, 0x00008000), M62);
      LoadSound(H62, LengthBlock(n), 0, 496);
      CompressLoaded(H62, LengthBlock(n), Load(H62, 0, 496), N62);
      StoppedEarly(n, H62, Sum(H62, LastHalf(N62)));
    case _ =>
      Start63();
      Chain63();
      Resume63();
      Rest63();
      Blocks63();
      LoadSound(INIT, MarkedTail(Zeros(n)), 0x00000000, 0x00000080);
      CompressLoaded(INIT, MarkedTail(Zeros(n)), Load(INIT, 0x00000000, 0x00000080), M63);
      LoadSound(H63, LengthBlock(n), 0, 504);
      CompressLoaded(H63, LengthBlock(n), Load(H63, 0, 504), N63);
      StoppedEarly(n, H63, Sum(H63, LastHalf(N63)));
  }

  /** The digest of m is, as text, the standard's. */
  ghost predicate DigestRight(m: seq<bv8>)
    requires 8 * |m| < TWO_64
  {
    Hex(CodeHash(m)) == Hex(StandardHash(m))
  }

  ghost predicate DigestsRight(r: nat) {
    forall m: seq<bv8> | 8 * |m| < TWO_64 && |m| % 64 == r :: DigestRight(m)
  }

  /** Every message whose length is r modulo 64 gets the standard's digest exactly when r is at most 55. */
  lemma DigestExact(r: nat)
    requires r < 64
    ensures DigestsRight(r) <==> r <= 55
  {
    hide CodeHash, StandardHash, Hex;
    if r <= 55 {
      forall m: seq<bv8> | 8 * |m| < TWO_64 && |m| % 64 == r ensures DigestRight(m) {
        ShortTailHash(m);
      }
    } else {
      TailsDiffer(r);
      HexExact(CodeHash(Zeros(r)), StandardHash(Zeros(r)));
      assert !DigestRight(Zeros(r));
    }
  }
}
