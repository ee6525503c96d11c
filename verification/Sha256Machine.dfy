/** Computing the compression function step by step; what the hashes of 56 to 63 zero bytes come to. */
module Sha256Machine {
  // The machine holds the eight registers and the next sixteen words of the schedule.

  import opened Sha256

  datatype Machine = Machine(
    a: bv32, b: bv32, c: bv32, d: bv32, e: bv32, f: bv32, g: bv32, h: bv32,
    w0: bv32, w1: bv32, w2: bv32, w3: bv32, w4: bv32, w5: bv32, w6: bv32, w7: bv32,
    w8: bv32, w9: bv32, w10: bv32, w11: bv32, w12: bv32, w13: bv32, w14: bv32, w15: bv32)

  /** One round, given the four sums of rotations; the window of the schedule moves on by one word. */
  function Moved(m: Machine, k: bv32, ep0: bv32, ep1: bv32, sig0: bv32, sig1: bv32): Machine {
    var t1 := Plus(Plus(Plus(Plus(m.h, ep1), Ch(m.e, m.f, m.g)), k), m.w0);
    Machine(
      Plus(t1, Plus(ep0, Maj(m.a, m.b, m.c))), m.a, m.b, m.c, Plus(m.d, t1), m.e, m.f, m.g,
      m.w1, m.w2, m.w3, m.w4, m.w5, m.w6, m.w7, m.w8, m.w9, m.w10, m.w11, m.w12, m.w13, m.w14, m.w15,
      Plus(Plus(Plus(sig1, m.w9), sig0), m.w0))
  }

  /** The four sums of rotations of one round, written out, and the round. */
  function Spelled(m: Machine, k: bv32, a: bv32, e: bv32, w1: bv32, w14: bv32): Machine {
    Moved(m, k,
          Xor3((a >> 2) | (a << 30), (a >> 13) | (a << 19), (a >> 22) | (a << 10)),
          Xor3((e >> 6) | (e << 26), (e >> 11) | (e << 21), (e >> 25) | (e << 7)),
          Xor3((w1 >> 7) | (w1 << 25), (w1 >> 18) | (w1 << 14), w1 >> 3),
          Xor3((w14 >> 17) | (w14 << 15), (w14 >> 19) | (w14 << 13), w14 >> 10))
  }

  /** One round. */
  function Tick(m: Machine, k: bv32): Machine {
    Spelled(m, k, m.a, m.e, m.w1, m.w14)
  }

  /** Eight rounds with these constants. */
  function Eight(m: Machine, k0: bv32, k1: bv32, k2: bv32, k3: bv32, k4: bv32, k5: bv32, k6: bv32, k7: bv32): Machine {
    Tick(Tick(Tick(Tick(Tick(Tick(Tick(Tick(m, k0), k1), k2), k3), k4), k5), k6), k7)
  }

  function FirstHalf(m: Machine): Machine {
    var p := Eight(m, 0x428a2f98, 0x71374491, 0xb5c0fbcf, 0xe9b5dba5,
                   0x3956c25b, 0x59f111f1, 0x923f82a4, 0xab1c5ed5);
    var q := Eight(p, 0xd807aa98, 0x12835b01, 0x243185be, 0x550c7dc3,
                   0x72be5d74, 0x80deb1fe, 0x9bdc06a7, 0xc19bf174);
    var r := Eight(q, 0xe49b69c1, 0xefbe4786, 0x0fc19dc6, 0x240ca1cc,
                   0x2de92c6f, 0x4a7484aa, 0x5cb0a9dc, 0x76f988da);
    Eight(r, 0x983e5152, 0xa831c66d, 0xb00327c8, 0xbf597fc7,
          0xc6e00bf3, 0xd5a79147, 0x06ca6351, 0x14292967)
  }

  function LastHalf(m: Machine): Machine {
    var p := Eight(m, 0x27b70a85, 0x2e1b2138, 0x4d2c6dfc, 0x53380d13,
                   0x650a7354, 0x766a0abb, 0x81c2c92e, 0x92722c85);
    var q := Eight(p, 0xa2bfe8a1, 0xa81a664b, 0xc24b8b70, 0xc76c51a3,
                   0xd192e819, 0xd6990624, 0xf40e3585, 0x106aa070);
    var r := Eight(q, 0x19a4c116, 0x1e376c08, 0x2748774c, 0x34b0bcb5,
                   0x391c0cb3, 0x4ed8aa4a, 0x5b9cca4f, 0x682e6ff3);
    Eight(r, 0x748f82ee, 0x78a5636f, 0x84c87814, 0x8cc70208,
          0x90befffa, 0xa4506ceb, 0xbef9a3f7, 0xc67178f2)
  }

  const INIT: Registers := Registers(
    0x6a09e667, 0xbb67ae85, 0x3c6ef372, 0xa54ff53a, 0x510e527f, 0x9b05688c, 0x1f83d9ab, 0x5be0cd19)

  /** The machine before the first round on a block that is zero but for its last two words. */
  function Load(r: Registers, x: bv32, y: bv32): Machine {
    Machine(r.a, r.b, r.c, r.d, r.e, r.f, r.g, r.h, 0, 0, 0, 0, 0, 0, 0, 0, 0, 0, 0, 0, 0, 0, x, y)
  }

  function Sum(r: Registers, m: Machine): Registers {
    Registers(Plus(r.a, m.a), Plus(r.b, m.b), Plus(r.c, m.c), Plus(r.d, m.d),
              Plus(r.e, m.e), Plus(r.f, m.f), Plus(r.g, m.g), Plus(r.h, m.h))
  }

  function AsState(r: Registers): HashState {
    [r.a, r.b, r.c, r.d, r.e, r.f, r.g, r.h]
  }

  // ----- the machine computes the compression function

  ghost predicate Window(b: Block, t: nat, m: Machine) {
    && m.w0 == Schedule(b, t) && m.w1 == Schedule(b, t + 1) && m.w2 == Schedule(b, t + 2)
    && m.w3 == Schedule(b, t + 3) && m.w4 == Schedule(b, t + 4) && m.w5 == Schedule(b, t + 5)
    && m.w6 == Schedule(b, t + 6) && m.w7 == Schedule(b, t + 7) && m.w8 == Schedule(b, t + 8)
    && m.w9 == Schedule(b, t + 9) && m.w10 == Schedule(b, t + 10) && m.w11 == Schedule(b, t + 11)
    && m.w12 == Schedule(b, t + 12) && m.w13 == Schedule(b, t + 13) && m.w14 == Schedule(b, t + 14)
    && m.w15 == Schedule(b, t + 15)
  }

  function RegistersOf(m: Machine): Registers {
    Registers(m.a, m.b, m.c, m.d, m.e, m.f, m.g, m.h)
  }

  ghost predicate At(h: HashState, b: Block, t: nat, m: Machine)
    requires t <= 64
  {
    RegistersOf(m) == Rounds(h, b, t) && Window(b, t, m)
  }

  // The functions of section 4.1.2 with the rotations written out.

  lemma Rotr2(x: bv32)
    ensures Rotr(x, 2) == (x >> 2) | (x << 30)
  {
  }

  lemma Rotr6(x: bv32)
    ensures Rotr(x, 6) == (x >> 6) | (x << 26)
  {
  }

  lemma Rotr7(x: bv32)
    ensures Rotr(x, 7) == (x >> 7) | (x << 25)
  {
  }

  lemma Rotr11(x: bv32)
    ensures Rotr(x, 11) == (x >> 11) | (x << 21)
  {
  }

  lemma Rotr13(x: bv32)
    ensures Rotr(x, 13) == (x >> 13) | (x << 19)
  {
  }

  lemma Rotr17(x: bv32)
    ensures Rotr(x, 17) == (x >> 17) | (x << 15)
  {
  }

  lemma Rotr18(x: bv32)
    ensures Rotr(x, 18) == (x >> 18) | (x << 14)
  {
  }

  lemma Rotr19(x: bv32)
    ensures Rotr(x, 19) == (x >> 19) | (x << 13)
  {
  }

  lemma Rotr22(x: bv32)
    ensures Rotr(x, 22) == (x >> 22) | (x << 10)
  {
  }

  lemma Rotr25(x: bv32)
    ensures Rotr(x, 25) == (x >> 25) | (x << 7)
  {
  }

  function RawEp0(x: bv32): bv32 {
    Xor3((x >> 2) | (x << 30), (x >> 13) | (x << 19), (x >> 22) | (x << 10))
  }

  lemma Ep0IsRaw(x: bv32)
    ensures Ep0(x) == RawEp0(x)
  {
    Rotr2(x);
    Rotr13(x);
    Rotr22(x);
    hide Rotr, Xor3;
  }

  function RawEp1(x: bv32): bv32 {
    Xor3((x >> 6) | (x << 26), (x >> 11) | (x << 21), (x >> 25) | (x << 7))
  }

  lemma Ep1IsRaw(x: bv32)
    ensures Ep1(x) == RawEp1(x)
  {
    Rotr6(x);
    Rotr11(x);
    Rotr25(x);
    hide Rotr, Xor3;
  }

  function RawSig0(x: bv32): bv32 {
    Xor3((x >> 7) | (x << 25), (x >> 18) | (x << 14), x >> 3)
  }

  lemma Sig0IsRaw(x: bv32)
    ensures Sig0(x) == RawSig0(x)
  {
    Rotr7(x);
    Rotr18(x);
    hide Rotr, Xor3;
  }

  function RawSig1(x: bv32): bv32 {
    Xor3((x >> 17) | (x << 15), (x >> 19) | (x << 13), x >> 10)
  }

  lemma Sig1IsRaw(x: bv32)
    ensures Sig1(x) == RawSig1(x)
  {
    Rotr17(x);
    Rotr19(x);
    hide Rotr, Xor3;
  }

  lemma SpelledIsMoved(m: Machine, k: bv32, a: bv32, e: bv32, w1: bv32, w14: bv32)
    ensures Spelled(m, k, a, e, w1, w14) == Moved(m, k, RawEp0(a), RawEp1(e), RawSig0(w1), RawSig1(w14))
  {
    hide Moved, Xor3;
  }

  /** Tick with the functions of the standard. */
  lemma TickMoves(m: Machine, k: bv32)
    ensures Tick(m, k) == Moved(m, k, Ep0(m.a), Ep1(m.e), Sig0(m.w1), Sig1(m.w14))
  {
    hide Spelled, Moved, Ep0, Ep1, Sig0, Sig1, RawEp0, RawEp1, RawSig0, RawSig1;
    SpelledIsMoved(m, k, m.a, m.e, m.w1, m.w14);
    Ep0IsRaw(m.a);
    Ep1IsRaw(m.e);
    Sig0IsRaw(m.w1);
    Sig1IsRaw(m.w14);
  }

  lemma MovedIsRound(m: Machine, k: bv32)
    ensures var n := Moved(m, k, Ep0(m.a), Ep1(m.e), Sig0(m.w1), Sig1(m.w14));
            && RegistersOf(n) == Round(RegistersOf(m), k, m.w0)
            && n.w15 == NextWord(m.w14, m.w9, m.w1, m.w0)
            && n.w0 == m.w1 && n.w1 == m.w2 && n.w2 == m.w3 && n.w3 == m.w4 && n.w4 == m.w5
            && n.w5 == m.w6 && n.w6 == m.w7 && n.w7 == m.w8 && n.w8 == m.w9 && n.w9 == m.w10
            && n.w10 == m.w11 && n.w11 == m.w12 && n.w12 == m.w13 && n.w13 == m.w14 && n.w14 == m.w15
  {
    hide Plus, Xor3, Ch, Maj, Ep0, Ep1, Sig0, Sig1;
  }

  lemma NextScheduled(b: Block, t: nat)
    ensures Schedule(b, t + 16)
         == NextWord(Schedule(b, t + 14), Schedule(b, t + 9), Schedule(b, t + 1), Schedule(b, t))
  {
    hide NextWord, WordOf;
  }

  lemma TickSound(h: HashState, b: Block, t: nat, m: Machine)
    requires t < 64 && At(h, b, t, m)
    ensures At(h, b, t + 1, Tick(m, K[t]))
  {
    TickMoves(m, K[t]);
    MovedIsRound(m, K[t]);
    NextScheduled(b, t);
    hide Tick, Moved, Round, NextWord, Schedule, K;
  }

  /** The machine after rounds t to t + n - 1. */
  ghost function Run(m: Machine, t: nat, n: nat): Machine
    requires t + n <= 64
  {
    if n == 0 then m else Tick(Run(m, t, n - 1), K[t + n - 1])
  }

  lemma {:induction false} RunSound(h: HashState, b: Block, t: nat, m: Machine, n: nat)
    requires t + n <= 64 && At(h, b, t, m)
    ensures At(h, b, t + n, Run(m, t, n))
  {
    hide At, Tick, K;
    if n > 0 {
      RunSound(h, b, t, m, n - 1);
      TickSound(h, b, t + n - 1, Run(m, t, n - 1));
    }
  }

  lemma RunEight(m: Machine, t: nat)
    requires t + 8 <= 64
    ensures Run(m, t, 8)
         == Eight(m, K[t], K[t + 1], K[t + 2], K[t + 3], K[t + 4], K[t + 5], K[t + 6], K[t + 7])
  {
    hide Tick, K;
    assert Run(m, t, 0) == m;
    assert Run(m, t, 1) == Tick(m, K[t]);
    assert Run(m, t, 2) == Tick(Run(m, t, 1), K[t + 1]);
    assert Run(m, t, 3) == Tick(Run(m, t, 2), K[t + 2]);
    assert Run(m, t, 4) == Tick(Run(m, t, 3), K[t + 3]);
    assert Run(m, t, 5) == Tick(Run(m, t, 4), K[t + 4]);
    assert Run(m, t, 6) == Tick(Run(m, t, 5), K[t + 5]);
    assert Run(m, t, 7) == Tick(Run(m, t, 6), K[t + 6]);
  }

  lemma {:induction false} RunOn(m: Machine, t: nat, n: nat, k: nat)
    requires t + n + k <= 64
    ensures Run(m, t, n + k) == Run(Run(m, t, n), t + n, k)
  {
    hide Tick, K;
    if k > 0 {
      RunOn(m, t, n, k - 1);
    }
  }

  lemma Constants0()
    ensures K[0] == 0x428a2f98 && K[1] == 0x71374491 && K[2] == 0xb5c0fbcf && K[3] == 0xe9b5dba5
    ensures K[4] == 0x3956c25b && K[5] == 0x59f111f1 && K[6] == 0x923f82a4 && K[7] == 0xab1c5ed5
  {
  }

  lemma Constants8()
    ensures K[8] == 0xd807aa98 && K[9] == 0x12835b01 && K[10] == 0x243185be && K[11] == 0x550c7dc3
    ensures K[12] == 0x72be5d74 && K[13] == 0x80deb1fe && K[14] == 0x9bdc06a7 && K[15] == 0xc19bf174
  {
  }

  lemma Constants16()
    ensures K[16] == 0xe49b69c1 && K[17] == 0xefbe4786 && K[18] == 0x0fc19dc6 && K[19] == 0x240ca1cc
    ensures K[20] == 0x2de92c6f && K[21] == 0x4a7484aa && K[22] == 0x5cb0a9dc && K[23] == 0x76f988da
  {
  }

  lemma Constants24()
    ensures K[24] == 0x983e5152 && K[25] == 0xa831c66d && K[26] == 0xb00327c8 && K[27] == 0xbf597fc7
    ensures K[28] == 0xc6e00bf3 && K[29] == 0xd5a79147 && K[30] == 0x06ca6351 && K[31] == 0x14292967
  {
  }

  lemma Constants32()
    ensures K[32] == 0x27b70a85 && K[33] == 0x2e1b2138 && K[34] == 0x4d2c6dfc && K[35] == 0x53380d13
    ensures K[36] == 0x650a7354 && K[37] == 0x766a0abb && K[38] == 0x81c2c92e && K[39] == 0x92722c85
  {
  }

  lemma Constants40()
    ensures K[40] == 0xa2bfe8a1 && K[41] == 0xa81a664b && K[42] == 0xc24b8b70 && K[43] == 0xc76c51a3
    ensures K[44] == 0xd192e819 && K[45] == 0xd6990624 && K[46] == 0xf40e3585 && K[47] == 0x106aa070
  {
  }

  lemma Constants48()
    ensures K[48] == 0x19a4c116 && K[49] == 0x1e376c08 && K[50] == 0x2748774c && K[51] == 0x34b0bcb5
    ensures K[52] == 0x391c0cb3 && K[53] == 0x4ed8aa4a && K[54] == 0x5b9cca4f && K[55] == 0x682e6ff3
  {
  }

  lemma Constants56()
    ensures K[56] == 0x748f82ee && K[57] == 0x78a5636f && K[58] == 0x84c87814 && K[59] == 0x8cc70208
    ensures K[60] == 0x90befffa && K[61] == 0xa4506ceb && K[62] == 0xbef9a3f7 && K[63] == 0xc67178f2
  {
  }

  lemma FourEights(m: Machine, t: nat)
    requires t + 32 <= 64
    ensures var p := Run(m, t, 8);
            var q := Run(p, t + 8, 8);
            var r := Run(q, t + 16, 8);
            Run(m, t, 32) == Run(r, t + 24, 8)
  {
    hide Tick, K, Run;
    RunOn(m, t, 8, 8);
    RunOn(m, t, 16, 8);
    RunOn(m, t, 24, 8);
  }

  lemma Eight0(m: Machine, t: nat)
    requires t == 0
    ensures Run(m, t, 8)
         == Eight(m, 0x428a2f98, 0x71374491, 0xb5c0fbcf, 0xe9b5dba5,
                  0x3956c25b, 0x59f111f1, 0x923f82a4, 0xab1c5ed5)
  {
    hide Tick, K, Run, Eight;
    Constants0();
    RunEight(m, t);
  }

  lemma Eight8(m: Machine, t: nat)
    requires t == 8
    ensures Run(m, t, 8)
         == Eight(m, 0xd807aa98, 0x12835b01, 0x243185be, 0x550c7dc3,
                  0x72be5d74, 0x80deb1fe, 0x9bdc06a7, 0xc19bf174)
  {
    hide Tick, K, Run, Eight;
    Constants8();
    RunEight(m, t);
  }

  lemma Eight16(m: Machine, t: nat)
    requires t == 16
    ensures Run(m, t, 8)
         == Eight(m, 0xe49b69c1, 0xefbe4786, 0x0fc19dc6, 0x240ca1cc,
                  0x2de92c6f, 0x4a7484aa, 0x5cb0a9dc, 0x76f988da)
  {
    hide Tick, K, Run, Eight;
    Constants16();
    RunEight(m, t);
  }

  lemma Eight24(m: Machine, t: nat)
    requires t == 24
    ensures Run(m, t, 8)
         == Eight(m, 0x983e5152, 0xa831c66d, 0xb00327c8, 0xbf597fc7,
                  0xc6e00bf3, 0xd5a79147, 0x06ca6351, 0x14292967)
  {
    hide Tick, K, Run, Eight;
    Constants24();
    RunEight(m, t);
  }

  lemma FirstRounds(m: Machine, t: nat)
    requires t == 0
    ensures Run(m, t, 32) == FirstHalf(m)
  {
    hide Tick, K, Run, Eight;
    var p := Run(m, t, 8);
    var q := Run(p, t + 8, 8);
    var r := Run(q, t + 16, 8);
    Eight0(m, t);
    Eight8(p, t + 8);
    Eight16(q, t + 16);
    Eight24(r, t + 24);
    FourEights(m, t);
  }

  lemma FirstHalfSound(h: HashState, b: Block, m: Machine)
    requires At(h, b, 0, m)
    ensures At(h, b, 32, FirstHalf(m))
  {
    hide FirstHalf, Run, At;
    FirstRounds(m, 0);
    RunSound(h, b, 0, m, 32);
  }

  lemma LastRounds(m: Machine)
    ensures Run(m, 32, 32) == LastHalf(m)
  {
    hide Tick, K, Run, Eight;
    Constants32();
    Constants40();
    Constants48();
    Constants56();
    var p := Run(m, 32, 8);
    var q := Run(p, 40, 8);
    var r := Run(q, 48, 8);
    RunEight(m, 32);
    RunEight(p, 40);
    RunEight(q, 48);
    RunEight(r, 56);
    FourEights(m, 32);
  }

  lemma LastHalfSound(h: HashState, b: Block, m: Machine)
    requires At(h, b, 32, m)
    ensures At(h, b, 64, LastHalf(m))
  {
    hide LastHalf, Run, At;
    LastRounds(m);
    RunSound(h, b, 32, m, 32);
  }

  /** b is zero but for its last two words. */
  predicate Sparse(b: Block, x: bv32, y: bv32) {
    && (forall i :: 0 <= i < 56 ==> b[i] == 0)
    && x == WordOf(b[56], b[57], b[58], b[59]) && y == WordOf(b[60], b[61], b[62], b[63])
  }

  lemma ZeroWords(b: Block, x: bv32, y: bv32, i: nat)
    requires Sparse(b, x, y) && i < 14
    ensures Schedule(b, i) == 0
  {
    assert WordOf(0, 0, 0, 0) == 0;
    hide WordOf;
    assert b[4 * i] == 0 && b[4 * i + 1] == 0 && b[4 * i + 2] == 0 && b[4 * i + 3] == 0;
  }

  lemma LoadSound(r: Registers, b: Block, x: bv32, y: bv32)
    requires Sparse(b, x, y)
    ensures At(AsState(r), b, 0, Load(r, x, y))
  {
    forall i | 0 <= i < 14 ensures Schedule(b, i) == 0 {
      ZeroWords(b, x, y, i);
    }
    hide WordOf;
  }

  /** Compressing a block the machine was loaded with, with the machine half way as an intermediate result. */
  lemma CompressLoaded(r: Registers, b: Block, start: Machine, middle: Machine)
    requires At(AsState(r), b, 0, start) && FirstHalf(start) == middle
    ensures RegistersOf(start) == r && Compress(AsState(r), b) == AsState(Sum(r, LastHalf(middle)))
  {
    hide FirstHalf, LastHalf, Plus, Window;
    FirstHalfSound(AsState(r), b, start);
    LastHalfSound(AsState(r), b, middle);
  }

  // ----- messages of 56 to 63 zero bytes

  lemma TruncatedTail(tail: seq<bv8>, bits: nat)
    requires 56 <= |tail| <= 63
    ensures PaddedTail(tail, bits)[..64] == tail + [0x80] + LengthBytes(bits)[..63 - |tail|]
  {
    hide LengthBytes;
    assert Zeros(0) == [];
    assert PaddedTail(tail, bits) == tail + [0x80] + LengthBytes(bits);
  }

  lemma SmallBytes()
    ensures ByteOf(0) == 0 && ByteOf(1) == 1
  {
  }

  lemma SmallLength(n: nat)
    requires 56 <= n <= 63
    ensures LengthBytes(8 * n) == [0, 0, 0, 0, 0, 0, 1, ByteOf(8 * n)]
  {
    SmallBytes();
    hide ByteOf;
    var b := 8 * n;
    assert b / 0x100_0000_0000_0000 == 0 && b / 0x1_0000_0000_0000 == 0 && b / 0x100_0000_0000 == 0;
    assert b / 0x1_0000_0000 == 0 && b / 0x100_0000 == 0 && b / 0x1_0000 == 0 && b / 0x100 == 1;
  }

  /** The words the last eight bytes of these blocks make up. */
  lemma LastWords()
    ensures WordOf(0x80, 0, 0, 0) == 0x80000000 && WordOf(0, 0x80, 0, 0) == 0x00800000
    ensures WordOf(0, 0, 0x80, 0) == 0x00008000 && WordOf(0, 0, 0, 0x80) == 0x00000080
    ensures WordOf(0, 0, 0, 0) == 0 && WordOf(0, 0, 0, 1) == 1
  {
  }

  lemma MarkedBytes(n: nat)
    requires 56 <= n <= 63
    ensures forall i :: 0 <= i < 64 ==> MarkedTail(Zeros(n))[i] == if i == n then 0x80 else 0
  {
  }

  lemma LengthBlockBytes(n: nat)
    requires 56 <= n <= 63
    ensures forall i :: 0 <= i < 62 ==> LengthBlock(n)[i] == 0
    ensures LengthBlock(n)[62] == 1 && LengthBlock(n)[63] == ByteOf(8 * n)
  {
    SmallLength(n);
    hide LengthBytes;
  }

  /** What the code compresses for n zero bytes. */
  function CodeBlock(n: nat): Block
    requires 56 <= n <= 63
  {
    PaddedTail(Zeros(n), 8 * n)[..64]
  }

  lemma CodeBlockBytes(n: nat)
    requires 56 <= n <= 63
    ensures forall i :: 0 <= i < 64 ==>
              CodeBlock(n)[i] == if i == n then 0x80 else if i == 63 && n == 56 then 1 else 0
  {
    TruncatedTail(Zeros(n), 8 * n);
    SmallLength(n);
    hide PaddedTail, LengthBytes;
  }

  lemma ShortMessage(n: nat)
    requires 56 <= n <= 63
    ensures var m := Zeros(n);
            && |m| % 64 > 55 && Whole(|m|) == 0 && m[..0] == [] && m[0..] == m && 8 * |m| % TWO_64 == 8 * n
  {
  }

  /** What the code compresses, and what the standard does. */
  lemma HashesOfZeros(n: nat)
    requires 56 <= n <= 63
    ensures CodeHash(Zeros(n)) == Compress(INITIAL, CodeBlock(n))
    ensures StandardHash(Zeros(n)) == Compress(Compress(INITIAL, MarkedTail(Zeros(n))), LengthBlock(n))
  {
    ShortMessage(n);
    LastBlock(Zeros(n));
    LongTailHash(Zeros(n));
    hide Compress, PaddedTail, MarkedTail, LengthBlock, Zeros;
  }

  lemma SameBlock(n: nat)
    requires 57 <= n <= 63
    ensures CodeBlock(n) == MarkedTail(Zeros(n))
  {
    CodeBlockBytes(n);
    MarkedBytes(n);
    hide CodeBlock, MarkedTail;
  }

  lemma InitialState()
    ensures INITIAL == AsState(INIT)
  {
  }

  lemma FirstWord(r: Registers)
    ensures AsState(r)[0] == r.a
  {
  }

  /** A message of 57 to 63 zero bytes: the code stops one block early. */
  lemma StoppedEarly(n: nat, h: Registers, g: Registers)
    requires 57 <= n <= 63 && g.a != h.a
    requires Compress(AsState(INIT), MarkedTail(Zeros(n))) == AsState(h)
    requires Compress(AsState(h), LengthBlock(n)) == AsState(g)
    ensures CodeHash(Zeros(n)) != StandardHash(Zeros(n))
  {
    hide *;
    SameBlock(n);
    HashesOfZeros(n);
    InitialState();
    FirstWord(h);
    FirstWord(g);
  }
}
