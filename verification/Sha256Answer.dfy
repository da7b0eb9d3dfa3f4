/** A digest worked out round by round: the one of "abc" that the appendix of FIPS 180-2 gives. */
module Sha256Answer {
  import opened Wrappers
  import opened Sha256Spec

  /** "abc", padded. */
  const ABC: seq<byte> := [97, 98, 99, 128] + Zeros(59) + [24]

  const W0: seq<word> := [0x61626380, 0x00000000, 0x00000000, 0x00000000,
    0x00000000, 0x00000000, 0x00000000, 0x00000000]
  const W1: seq<word> := [0x00000000, 0x00000000, 0x00000000, 0x00000000,
    0x00000000, 0x00000000, 0x00000000, 0x00000018]
  const W2: seq<word> := [0x61626380, 0x000f0000, 0x7da86405, 0x600003c6,
    0x3e9d7b78, 0x0183fc00, 0x12dcbfdb, 0xe2e2c38e]
  const W3: seq<word> := [0xc8215c1a, 0xb73679a2, 0xe5bc3909, 0x32663c5b,
    0x9d209d67, 0xec8726cb, 0x702138a4, 0xd3b7973b]
  const W4: seq<word> := [0x93f5997f, 0x3b68ba73, 0xaff4ffc1, 0xf10a5c62,
    0x0a8b3996, 0x72af830a, 0x9409e33e, 0x24641522]
  const W5: seq<word> := [0x9f47bf94, 0xf0a64f5a, 0x3e246a79, 0x27333ba3,
    0x0c4763f2, 0x840abf27, 0x7a290d5d, 0x065c43da]
  const W6: seq<word> := [0xfb3e89cb, 0xcc7617db, 0xb9e66c34, 0xa9993667,
    0x84badedd, 0xc21462bc, 0x1487472c, 0xb20f7a99]
  const W7: seq<word> := [0xef57b9cd, 0xebe6b238, 0x9fe3095e, 0x78bc8d4b,
    0xa43fcf15, 0x668b2ff8, 0xeeaba2cc, 0x12b1edeb]

  const V0 := Working(0x6a09e667, 0xbb67ae85, 0x3c6ef372, 0xa54ff53a,
    0x510e527f, 0x9b05688c, 0x1f83d9ab, 0x5be0cd19)
  const V1 := Working(0x85a07b5f, 0xe5030380, 0x2b4209f5, 0x04409a6a,
    0x0c657a79, 0x9b27a401, 0x714260ad, 0x43ada245)
  const V2 := Working(0xb0fa238e, 0xc0645fde, 0xd932eb16, 0x87912990,
    0x07590dcd, 0x0b92f20c, 0x745a48de, 0x1e578218)
  const V3 := Working(0xc5d53d8d, 0xa7a3623f, 0xc2606d6d, 0x9dc68b63,
    0xaa47c347, 0x49f5114a, 0xe1257970, 0x8ada8930)
  const V4 := Working(0x73b33bf5, 0xea992a22, 0xa0060b30, 0x363482c9,
    0xba591112, 0x0109ab3a, 0xade79437, 0x6112a3b7)
  const V5 := Working(0x79ea687a, 0x6dc57a8a, 0x34df1604, 0x41a65cb1,
    0x1efbc0a0, 0xf0781bc8, 0xa507a53d, 0x0772a26b)
  const V6 := Working(0x4172328d, 0xa14c14b0, 0x72ab4b91, 0x26628815,
    0xfecf0bc6, 0xd57b94a9, 0xb7755da1, 0xa80f11f0)
  const V7 := Working(0x38cc9913, 0x3ec45cdb, 0xf5702fdb, 0x101fd28f,
    0x54cb266b, 0xe50e1b4f, 0x9f4787c3, 0x529e7d00)
  const V8 := Working(0x506e3058, 0xd39a2165, 0x04d24d6c, 0xb85e2ce9,
    0x5ef50f24, 0xfb121210, 0x948d25b6, 0x961f4894)

  lemma AbcIsBlock()
    ensures |ABC| == 64 && Pad([97, 98, 99]) == ABC
  {
    BigEndian24();
    var m: seq<byte> := [97, 98, 99];
    ZeroBytes3();
    hide BigEndian, ZeroBytes, Zeros;
    assert |m| == 3 && Pad(m) == m + [0x80] + Zeros(52) + BigEndian(24, 8);
    JoinedZeros();
    assert m + [0x80] == [97, 98, 99, 128];
    assert Pad(m) == m + [0x80] + (Zeros(52) + Zeros(7)) + [24];
  }

  lemma ZeroBytes3()
    ensures ZeroBytes(3) == 52
  {
  }

  lemma JoinedZeros()
    ensures Zeros(52) + Zeros(7) == Zeros(59) && |Zeros(59)| == 59
  {
  }

  lemma BigEndian24()
    ensures BigEndian(24, 8) == Zeros(7) + [24]
  {
    ZeroDigits(7);
    assert BigEndian(24, 8) == BigEndian(0, 7) + [24];
  }

  lemma {:induction false} ZeroDigits(size: nat)
    ensures BigEndian(0, size) == Zeros(size)
  {
    if size > 0 { ZeroDigits(size - 1); }
  }

  /** The schedule one word further. */
  lemma NextWord(t: nat)
    requires |ABC| == 64 && t >= 16
    ensures W(ABC, t)
      == Add(Add(Add(SmallSigma1(W(ABC, t - 2)), W(ABC, t - 7)), SmallSigma0(W(ABC, t - 15))), W(ABC, t - 16))
  {
    hide SmallSigma0, SmallSigma1, Add, ABC;
  }

  /** Eight words of the schedule. */
  predicate Scheduled(t: nat, ws: seq<word>)
    requires |ABC| == 64
  {
    && |ws| == 8 && W(ABC, t) == ws[0] && W(ABC, t + 1) == ws[1] && W(ABC, t + 2) == ws[2] && W(ABC, t + 3) == ws[3]
    && W(ABC, t + 4) == ws[4] && W(ABC, t + 5) == ws[5] && W(ABC, t + 6) == ws[6] && W(ABC, t + 7) == ws[7]
  }

  lemma Schedule0()
    ensures |ABC| == 64 && Scheduled(0, W0) && Scheduled(8, W1)
  {
  }

  lemma Schedule2()
    ensures |ABC| == 64 && Scheduled(16, W2)
  {
    hide W, ABC;
    Schedule0();
    NextWord(16); NextWord(17); NextWord(18); NextWord(19);
    NextWord(20); NextWord(21); NextWord(22); NextWord(23);
  }

  lemma Schedule3()
    ensures |ABC| == 64 && Scheduled(24, W3)
  {
    hide W, ABC;
    Schedule0();
    Schedule2();
    NextWord(24); NextWord(25); NextWord(26); NextWord(27);
    NextWord(28); NextWord(29); NextWord(30); NextWord(31);
  }

  lemma Schedule4()
    ensures |ABC| == 64 && Scheduled(32, W4)
  {
    hide W, ABC;
    Schedule2();
    Schedule3();
    NextWord(32); NextWord(33); NextWord(34); NextWord(35);
    NextWord(36); NextWord(37); NextWord(38); NextWord(39);
  }

  lemma Schedule5()
    ensures |ABC| == 64 && Scheduled(40, W5)
  {
    hide W, ABC;
    Schedule3();
    Schedule4();
    NextWord(40); NextWord(41); NextWord(42); NextWord(43);
    NextWord(44); NextWord(45); NextWord(46); NextWord(47);
  }

  lemma Schedule6()
    ensures |ABC| == 64 && Scheduled(48, W6)
  {
    hide W, ABC;
    Schedule4();
    Schedule5();
    NextWord(48); NextWord(49); NextWord(50); NextWord(51);
    NextWord(52); NextWord(53); NextWord(54); NextWord(55);
  }

  lemma Schedule7()
    ensures |ABC| == 64 && Scheduled(56, W7)
  {
    hide W, ABC;
    Schedule5();
    Schedule6();
    NextWord(56); NextWord(57); NextWord(58); NextWord(59);
    NextWord(60); NextWord(61); NextWord(62); NextWord(63);
  }

  lemma NextRound(t: nat)
    requires |ABC| == 64 && t < 64
    ensures Rounds(H0, ABC, t + 1) == Round(Rounds(H0, ABC, t), K(t), W(ABC, t))
  {
    hide Round, K, W, ABC;
  }

  lemma RoundsBegin()
    ensures |ABC| == 64 && |H0| == 8 && Rounds(H0, ABC, 4)
      == Working(0xd550f666, 0xc8c347a7, 0x5a6ad9ad, 0x5d6aebcd, 0x24e00850, 0xf92939eb, 0x78ce7989, 0xfa2a4622)
  {
    StartsAtH0();
    Schedule0();
    hide Rounds, W, ABC, H0, W1;
    NextRound(0);
    assert Rounds(H0, ABC, 1) == Round(V0, K(0), W0[0]);
    NextRound(1); NextRound(2); NextRound(3);
  }

  lemma Rounds0()
    ensures |ABC| == 64 && Rounds(H0, ABC, 8) == V1
  {
    hide Rounds, W, ABC;
    RoundsBegin();
    Schedule0();
    NextRound(4); NextRound(5); NextRound(6); NextRound(7);
  }

  lemma Rounds1()
    ensures |ABC| == 64 && Rounds(H0, ABC, 16) == V2
  {
    hide Rounds, W, ABC;
    Rounds0();
    Schedule0();
    NextRound(8); NextRound(9); NextRound(10); NextRound(11);
    NextRound(12); NextRound(13); NextRound(14); NextRound(15);
  }

  lemma Rounds2()
    ensures |ABC| == 64 && Rounds(H0, ABC, 24) == V3
  {
    hide Rounds, W, ABC;
    Rounds1();
    Schedule2();
    NextRound(16); NextRound(17); NextRound(18); NextRound(19);
    NextRound(20); NextRound(21); NextRound(22); NextRound(23);
  }

  lemma Rounds3()
    ensures |ABC| == 64 && Rounds(H0, ABC, 32) == V4
  {
    hide Rounds, W, ABC;
    Rounds2();
    Schedule3();
    NextRound(24); NextRound(25); NextRound(26); NextRound(27);
    NextRound(28); NextRound(29); NextRound(30); NextRound(31);
  }

  lemma Rounds4()
    ensures |ABC| == 64 && Rounds(H0, ABC, 40) == V5
  {
    hide Rounds, W, ABC;
    Rounds3();
    Schedule4();
    NextRound(32); NextRound(33); NextRound(34); NextRound(35);
    NextRound(36); NextRound(37); NextRound(38); NextRound(39);
  }

  lemma Rounds5()
    ensures |ABC| == 64 && Rounds(H0, ABC, 48) == V6
  {
    hide Rounds, W, ABC;
    Rounds4();
    Schedule5();
    NextRound(40); NextRound(41); NextRound(42); NextRound(43);
    NextRound(44); NextRound(45); NextRound(46); NextRound(47);
  }

  lemma Rounds6()
    ensures |ABC| == 64 && Rounds(H0, ABC, 56) == V7
  {
    hide Rounds, W, ABC;
    Rounds5();
    Schedule6();
    NextRound(48); NextRound(49); NextRound(50); NextRound(51);
    NextRound(52); NextRound(53); NextRound(54); NextRound(55);
  }

  lemma Rounds7()
    ensures |ABC| == 64 && Rounds(H0, ABC, 64) == V8
  {
    hide Rounds, W, ABC;
    Rounds6();
    Schedule7();
    NextRound(56); NextRound(57); NextRound(58); NextRound(59);
    NextRound(60); NextRound(61); NextRound(62); NextRound(63);
  }

  lemma StartsAtH0()
    ensures |ABC| == 64 && |H0| == 8 && Rounds(H0, ABC, 0) == V0
  {
  }

  const DIGEST_WORDS: seq<word> := [0xba7816bf, 0x8f01cfea, 0x414140de, 0x5dae2223,
    0xb00361a3, 0x96177a9c, 0xb410ff61, 0xf20015ad]

  const DIGEST0: seq<byte> := [
    0xba, 0x78, 0x16, 0xbf, 0x8f, 0x01, 0xcf, 0xea, 0x41, 0x41, 0x40, 0xde, 0x5d, 0xae, 0x22, 0x23]
  const DIGEST1: seq<byte> := [
    0xb0, 0x03, 0x61, 0xa3, 0x96, 0x17, 0x7a, 0x9c, 0xb4, 0x10, 0xff, 0x61, 0xf2, 0x00, 0x15, 0xad]

  lemma FourWords(a: word, b: word, c: word, d: word, h: seq<word>)
    ensures Bytes([a, b, c, d] + h) == WordBytes(a) + WordBytes(b) + WordBytes(c) + WordBytes(d) + Bytes(h)
  {
    hide WordBytes, Bytes;
    OneWord(a, [b, c, d] + h);
    OneWord(b, [c, d] + h);
    OneWord(c, [d] + h);
    OneWord(d, h);
    assert [a, b, c, d] + h == [a] + ([b] + ([c] + ([d] + h)));
    assert [b, c, d] + h == [b] + ([c] + ([d] + h)) && [c, d] + h == [c] + ([d] + h);
  }

  lemma OneWord(x: word, h: seq<word>)
    ensures Bytes([x] + h) == WordBytes(x) + Bytes(h)
  {
    hide WordBytes;
    assert ([x] + h)[1..] == h;
  }

  lemma FirstBytes()
    ensures WordBytes(0xba7816bf) + WordBytes(0x8f01cfea) + WordBytes(0x414140de) + WordBytes(0x5dae2223) == DIGEST0
  {
  }

  lemma LastBytes()
    ensures WordBytes(0xb00361a3) + WordBytes(0x96177a9c) + WordBytes(0xb410ff61) + WordBytes(0xf20015ad) == DIGEST1
  {
  }

  lemma DigestBytes()
    ensures Bytes(DIGEST_WORDS) == DIGEST0 + DIGEST1
  {
    hide WordBytes, DIGEST0, DIGEST1;
    var h := [0xb00361a3 as word, 0x96177a9c, 0xb410ff61, 0xf20015ad];
    assert DIGEST_WORDS == [0xba7816bf, 0x8f01cfea, 0x414140de, 0x5dae2223] + h;
    FourWords(0xba7816bf, 0x8f01cfea, 0x414140de, 0x5dae2223, h);
    FirstBytes();
    assert h == h + [];
    FourWords(0xb00361a3, 0x96177a9c, 0xb410ff61, 0xf20015ad, []);
    LastBytes();
  }

  /** The digest of "abc" is the one the standard's authors give. */
  lemma DigestOfAbc()
    ensures Digest([97, 98, 99]) == DIGEST0 + DIGEST1
  {
    AbcIsBlock();
    Rounds7();
    hide Rounds, Pad, ABC, Bytes, DIGEST0, DIGEST1;
    assert ABC[..64] == ABC && ABC[64..] == [];
    assert HashBlocks(H0, ABC) == HashBlocks(Compress(H0, ABC), []);
    assert HashBlocks(H0, ABC) == DIGEST_WORDS;
    DigestBytes();
  }
}
