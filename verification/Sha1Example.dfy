/** The example published with SHA-1, the digest of "abc" (RFC 3174, section 7.3), step by step. */
module Sha1Example {
  import opened Bytes
  import opened Fips180

  const ABC: seq<byte> := [0x61, 0x62, 0x63]

  lemma NextWord(b: seq<byte>, t: nat, w3: Word, w8: Word, w14: Word, w16: Word)
    requires |b| == 64 && 16 <= t < 80
    requires W(b, t - 3) == w3 && W(b, t - 8) == w8 && W(b, t - 14) == w14 && W(b, t - 16) == w16
    ensures W(b, t) == RotL(1, Xor(Xor(Xor(w3, w8), w14), w16))
  {
  }

  lemma NextRound(b: seq<byte>, t: nat, v: Hash, w: Word)
    requires |b| == 64 && t < 80 && Rounds(H0, b, t) == v && W(b, t) == w
    ensures Rounds(H0, b, t + 1) ==
            Hash(Add(Add(Add(Add(RotL(5, v.a), F(t, v.b, v.c, v.d)), v.e), K(t)), w), v.a, RotL(30, v.b), v.c, v.d)
  {
  }

  /** The words of the one block of the padded message. */
  ghost predicate FirstWords(b: seq<byte>) {
    |b| == 64 && W(b, 0) == 0x61626380 && (forall t: nat | 0 < t < 15 :: W(b, t) == 0) && W(b, 15) == 0x18
  }

  ghost predicate SecondWords(b: seq<byte>) {
    |b| == 64 &&
    W(b, 16) == 0xc2c4c700 && W(b, 17) == 0x00000000 && W(b, 18) == 0x00000030 && W(b, 19) == 0x85898e01 &&
    W(b, 20) == 0x00000000 && W(b, 21) == 0x00000060 && W(b, 22) == 0x0b131c03 && W(b, 23) == 0x00000030 &&
    W(b, 24) == 0x85898ec1 && W(b, 25) == 0x16263806 && W(b, 26) == 0x00000000 && W(b, 27) == 0x00000180 &&
    W(b, 28) == 0x2c4c700c && W(b, 29) == 0x000000f0 && W(b, 30) == 0x93afb507 && W(b, 31) == 0x5898e048
  }

  lemma MakeSecondWords(b: seq<byte>)
    requires FirstWords(b)
    ensures SecondWords(b)
  {
    hide W;
    assert forall t: nat | 0 < t < 15 :: W(b, t) == 0;
    NextWord(b, 16, 0x00000000, 0x00000000, 0x00000000, 0x61626380);
    NextWord(b, 17, 0x00000000, 0x00000000, 0x00000000, 0x00000000);
    NextWord(b, 18, 0x00000018, 0x00000000, 0x00000000, 0x00000000);
    NextWord(b, 19, 0xc2c4c700, 0x00000000, 0x00000000, 0x00000000);
    NextWord(b, 20, 0x00000000, 0x00000000, 0x00000000, 0x00000000);
    NextWord(b, 21, 0x00000030, 0x00000000, 0x00000000, 0x00000000);
    NextWord(b, 22, 0x85898e01, 0x00000000, 0x00000000, 0x00000000);
    NextWord(b, 23, 0x00000000, 0x00000018, 0x00000000, 0x00000000);
    NextWord(b, 24, 0x00000060, 0xc2c4c700, 0x00000000, 0x00000000);
    NextWord(b, 25, 0x0b131c03, 0x00000000, 0x00000000, 0x00000000);
    NextWord(b, 26, 0x00000030, 0x00000030, 0x00000000, 0x00000000);
    NextWord(b, 27, 0x85898ec1, 0x85898e01, 0x00000000, 0x00000000);
    NextWord(b, 28, 0x16263806, 0x00000000, 0x00000000, 0x00000000);
    NextWord(b, 29, 0x00000000, 0x00000060, 0x00000018, 0x00000000);
    NextWord(b, 30, 0x00000180, 0x0b131c03, 0xc2c4c700, 0x00000000);
    NextWord(b, 31, 0x2c4c700c, 0x00000030, 0x00000000, 0x00000018);
  }

  ghost predicate ThirdWords(b: seq<byte>) {
    |b| == 64 &&
    W(b, 32) == 0x8e9a9202 && W(b, 33) == 0x00000600 && W(b, 34) == 0xb131c0f0 && W(b, 35) == 0x16263bc6 &&
    W(b, 36) == 0x4ebed41e && W(b, 37) == 0x626380a1 && W(b, 38) == 0x16263806 && W(b, 39) == 0x000018c0 &&
    W(b, 40) == 0xd2e138c4 && W(b, 41) == 0x00000f00 && W(b, 42) == 0x3afb5079 && W(b, 43) == 0x898e04e5 &&
    W(b, 44) == 0xe2ba3c2b && W(b, 45) == 0x000060c0 && W(b, 46) == 0x053a37cd && W(b, 47) == 0x74458547
  }

  lemma MakeThirdWords(b: seq<byte>)
    requires SecondWords(b)
    ensures ThirdWords(b)
  {
    hide W;
    NextWord(b, 32, 0x000000f0, 0x85898ec1, 0x00000030, 0xc2c4c700);
    NextWord(b, 33, 0x93afb507, 0x16263806, 0x85898e01, 0x00000000);
    NextWord(b, 34, 0x5898e048, 0x00000000, 0x00000000, 0x00000030);
    NextWord(b, 35, 0x8e9a9202, 0x00000180, 0x00000060, 0x85898e01);
    NextWord(b, 36, 0x00000600, 0x2c4c700c, 0x0b131c03, 0x00000000);
    NextWord(b, 37, 0xb131c0f0, 0x000000f0, 0x00000030, 0x00000060);
    NextWord(b, 38, 0x16263bc6, 0x93afb507, 0x85898ec1, 0x0b131c03);
    NextWord(b, 39, 0x4ebed41e, 0x5898e048, 0x16263806, 0x00000030);
    NextWord(b, 40, 0x626380a1, 0x8e9a9202, 0x00000000, 0x85898ec1);
    NextWord(b, 41, 0x16263806, 0x00000600, 0x00000180, 0x16263806);
    NextWord(b, 42, 0x000018c0, 0xb131c0f0, 0x2c4c700c, 0x00000000);
    NextWord(b, 43, 0xd2e138c4, 0x16263bc6, 0x000000f0, 0x00000180);
    NextWord(b, 44, 0x00000f00, 0x4ebed41e, 0x93afb507, 0x2c4c700c);
    NextWord(b, 45, 0x3afb5079, 0x626380a1, 0x5898e048, 0x000000f0);
    NextWord(b, 46, 0x898e04e5, 0x16263806, 0x8e9a9202, 0x93afb507);
    NextWord(b, 47, 0xe2ba3c2b, 0x000018c0, 0x00000600, 0x5898e048);
  }

  ghost predicate FourthWords(b: seq<byte>) {
    |b| == 64 &&
    W(b, 48) == 0xda9415ed && W(b, 49) == 0x26380a16 && W(b, 50) == 0x626383a1 && W(b, 51) == 0x4ebf54de &&
    W(b, 52) == 0x3835b44b && W(b, 53) == 0x0000f600 && W(b, 54) == 0x1e84c7a3 && W(b, 55) == 0x98e04d98 &&
    W(b, 56) == 0x651d16a0 && W(b, 57) == 0x62658ca1 && W(b, 58) == 0x458544d6 && W(b, 59) == 0x44584cb7 &&
    W(b, 60) == 0x7ba06619 && W(b, 61) == 0x6380aea2 && W(b, 62) == 0x0ae55269 && W(b, 63) == 0x627b49a1
  }

  lemma MakeFourthWords(b: seq<byte>)
    requires ThirdWords(b)
    ensures FourthWords(b)
  {
    hide W;
    NextWord(b, 48, 0x000060c0, 0xd2e138c4, 0xb131c0f0, 0x8e9a9202);
    NextWord(b, 49, 0x053a37cd, 0x00000f00, 0x16263bc6, 0x00000600);
    NextWord(b, 50, 0x74458547, 0x3afb5079, 0x4ebed41e, 0xb131c0f0);
    NextWord(b, 51, 0xda9415ed, 0x898e04e5, 0x626380a1, 0x16263bc6);
    NextWord(b, 52, 0x26380a16, 0xe2ba3c2b, 0x16263806, 0x4ebed41e);
    NextWord(b, 53, 0x626383a1, 0x000060c0, 0x000018c0, 0x626380a1);
    NextWord(b, 54, 0x4ebf54de, 0x053a37cd, 0xd2e138c4, 0x16263806);
    NextWord(b, 55, 0x3835b44b, 0x74458547, 0x00000f00, 0x000018c0);
    NextWord(b, 56, 0x0000f600, 0xda9415ed, 0x3afb5079, 0xd2e138c4);
    NextWord(b, 57, 0x1e84c7a3, 0x26380a16, 0x898e04e5, 0x00000f00);
    NextWord(b, 58, 0x98e04d98, 0x626383a1, 0xe2ba3c2b, 0x3afb5079);
    NextWord(b, 59, 0x651d16a0, 0x4ebf54de, 0x000060c0, 0x898e04e5);
    NextWord(b, 60, 0x62658ca1, 0x3835b44b, 0x053a37cd, 0xe2ba3c2b);
    NextWord(b, 61, 0x458544d6, 0x0000f600, 0x74458547, 0x000060c0);
    NextWord(b, 62, 0x44584cb7, 0x1e84c7a3, 0xda9415ed, 0x053a37cd);
    NextWord(b, 63, 0x7ba06619, 0x98e04d98, 0x26380a16, 0x74458547);
  }

  ghost predicate FifthWords(b: seq<byte>) {
    |b| == 64 &&
    W(b, 64) == 0x7cd45c9d && W(b, 65) == 0x000f0000 && W(b, 66) == 0xfb50753a && W(b, 67) == 0xec6765e8 &&
    W(b, 68) == 0xba3c2be2 && W(b, 69) == 0x0060c000 && W(b, 70) == 0x3a37cd05 && W(b, 71) == 0x458546f4 &&
    W(b, 72) == 0xb8599dd6 && W(b, 73) == 0x380a1a26 && W(b, 74) == 0x01e02203 && W(b, 75) == 0xe7cc3456 &&
    W(b, 76) == 0xe6e60b69 && W(b, 77) == 0x00f60a00 && W(b, 78) == 0x5795ef4f && W(b, 79) == 0x822e0879
  }

  lemma MakeFifthWords(b: seq<byte>)
    requires FourthWords(b)
    ensures FifthWords(b)
  {
    hide W;
    NextWord(b, 64, 0x6380aea2, 0x651d16a0, 0x626383a1, 0xda9415ed);
    NextWord(b, 65, 0x0ae55269, 0x62658ca1, 0x4ebf54de, 0x26380a16);
    NextWord(b, 66, 0x627b49a1, 0x458544d6, 0x3835b44b, 0x626383a1);
    NextWord(b, 67, 0x7cd45c9d, 0x44584cb7, 0x0000f600, 0x4ebf54de);
    NextWord(b, 68, 0x000f0000, 0x7ba06619, 0x1e84c7a3, 0x3835b44b);
    NextWord(b, 69, 0xfb50753a, 0x6380aea2, 0x98e04d98, 0x0000f600);
    NextWord(b, 70, 0xec6765e8, 0x0ae55269, 0x651d16a0, 0x1e84c7a3);
    NextWord(b, 71, 0xba3c2be2, 0x627b49a1, 0x62658ca1, 0x98e04d98);
    NextWord(b, 72, 0x0060c000, 0x7cd45c9d, 0x458544d6, 0x651d16a0);
    NextWord(b, 73, 0x3a37cd05, 0x000f0000, 0x44584cb7, 0x62658ca1);
    NextWord(b, 74, 0x458546f4, 0xfb50753a, 0x7ba06619, 0x458544d6);
    NextWord(b, 75, 0xb8599dd6, 0xec6765e8, 0x6380aea2, 0x44584cb7);
    NextWord(b, 76, 0x380a1a26, 0xba3c2be2, 0x0ae55269, 0x7ba06619);
    NextWord(b, 77, 0x01e02203, 0x0060c000, 0x627b49a1, 0x6380aea2);
    NextWord(b, 78, 0xe7cc3456, 0x3a37cd05, 0x7cd45c9d, 0x0ae55269);
    NextWord(b, 79, 0xe6e60b69, 0x458546f4, 0x000f0000, 0x627b49a1);
  }

  lemma Rounds0To16(b: seq<byte>)
    requires FirstWords(b)
    ensures Rounds(H0, b, 16) == Hash(0x20bdd62f, 0x196bee77, 0x644a3da5, 0x1181ed99, 0x18c623f9)
  {
    hide W;
    assert Rounds(H0, b, 0) == H0;
    NextRound(b, 0, Hash(0x67452301, 0xefcdab89, 0x98badcfe, 0x10325476, 0xc3d2e1f0), 0x61626380);
    NextRound(b, 1, Hash(0x0116fc33, 0x67452301, 0x7bf36ae2, 0x98badcfe, 0x10325476), 0x00000000);
    NextRound(b, 2, Hash(0x8990536d, 0x0116fc33, 0x59d148c0, 0x7bf36ae2, 0x98badcfe), 0x00000000);
    NextRound(b, 3, Hash(0xa1390f08, 0x8990536d, 0xc045bf0c, 0x59d148c0, 0x7bf36ae2), 0x00000000);
    NextRound(b, 4, Hash(0xcdd8e11b, 0xa1390f08, 0x626414db, 0xc045bf0c, 0x59d148c0), 0x00000000);
    NextRound(b, 5, Hash(0xcfd499de, 0xcdd8e11b, 0x284e43c2, 0x626414db, 0xc045bf0c), 0x00000000);
    NextRound(b, 6, Hash(0x3fc7ca40, 0xcfd499de, 0xf3763846, 0x284e43c2, 0x626414db), 0x00000000);
    NextRound(b, 7, Hash(0x993e30c1, 0x3fc7ca40, 0xb3f52677, 0xf3763846, 0x284e43c2), 0x00000000);
    NextRound(b, 8, Hash(0x9e8c07d4, 0x993e30c1, 0x0ff1f290, 0xb3f52677, 0xf3763846), 0x00000000);
    NextRound(b, 9, Hash(0x4b6ae328, 0x9e8c07d4, 0x664f8c30, 0x0ff1f290, 0xb3f52677), 0x00000000);
    NextRound(b, 10, Hash(0x8351f929, 0x4b6ae328, 0x27a301f5, 0x664f8c30, 0x0ff1f290), 0x00000000);
    NextRound(b, 11, Hash(0xfbda9e89, 0x8351f929, 0x12dab8ca, 0x27a301f5, 0x664f8c30), 0x00000000);
    NextRound(b, 12, Hash(0x63188fe4, 0xfbda9e89, 0x60d47e4a, 0x12dab8ca, 0x27a301f5), 0x00000000);
    NextRound(b, 13, Hash(0x4607b664, 0x63188fe4, 0x7ef6a7a2, 0x60d47e4a, 0x12dab8ca), 0x00000000);
    NextRound(b, 14, Hash(0x9128f695, 0x4607b664, 0x18c623f9, 0x7ef6a7a2, 0x60d47e4a), 0x00000000);
    NextRound(b, 15, Hash(0x196bee77, 0x9128f695, 0x1181ed99, 0x18c623f9, 0x7ef6a7a2), 0x00000018);
  }

  lemma Rounds16To32(b: seq<byte>)
    requires SecondWords(b) && Rounds(H0, b, 16) == Hash(0x20bdd62f, 0x196bee77, 0x644a3da5, 0x1181ed99, 0x18c623f9)
    ensures Rounds(H0, b, 32) == Hash(0x3b845d33, 0x1267b407, 0x717eebd7, 0xa0dc2d4b, 0xd2aa1365)
  {
    hide W, Rounds;
    NextRound(b, 16, Hash(0x20bdd62f, 0x196bee77, 0x644a3da5, 0x1181ed99, 0x18c623f9), 0xc2c4c700);
    NextRound(b, 17, Hash(0x4e925823, 0x20bdd62f, 0xc65afb9d, 0x644a3da5, 0x1181ed99), 0x00000000);
    NextRound(b, 18, Hash(0x82aa6728, 0x4e925823, 0xc82f758b, 0xc65afb9d, 0x644a3da5), 0x00000030);
    NextRound(b, 19, Hash(0xdc64901d, 0x82aa6728, 0xd3a49608, 0xc82f758b, 0xc65afb9d), 0x85898e01);
    NextRound(b, 20, Hash(0xfd9e1d7d, 0xdc64901d, 0x20aa99ca, 0xd3a49608, 0xc82f758b), 0x00000000);
    NextRound(b, 21, Hash(0x1a37b0ca, 0xfd9e1d7d, 0x77192407, 0x20aa99ca, 0xd3a49608), 0x00000060);
    NextRound(b, 22, Hash(0x33a23bfc, 0x1a37b0ca, 0x7f67875f, 0x77192407, 0x20aa99ca), 0x0b131c03);
    NextRound(b, 23, Hash(0x21283486, 0x33a23bfc, 0x868dec32, 0x7f67875f, 0x77192407), 0x00000030);
    NextRound(b, 24, Hash(0xd541f12d, 0x21283486, 0x0ce88eff, 0x868dec32, 0x7f67875f), 0x85898ec1);
    NextRound(b, 25, Hash(0xc7567dc6, 0xd541f12d, 0x884a0d21, 0x0ce88eff, 0x868dec32), 0x16263806);
    NextRound(b, 26, Hash(0x48413ba4, 0xc7567dc6, 0x75507c4b, 0x884a0d21, 0x0ce88eff), 0x00000000);
    NextRound(b, 27, Hash(0xbe35fbd5, 0x48413ba4, 0xb1d59f71, 0x75507c4b, 0x884a0d21), 0x00000180);
    NextRound(b, 28, Hash(0x4aa84d97, 0xbe35fbd5, 0x12104ee9, 0xb1d59f71, 0x75507c4b), 0x2c4c700c);
    NextRound(b, 29, Hash(0x8370b52e, 0x4aa84d97, 0x6f8d7ef5, 0x12104ee9, 0xb1d59f71), 0x000000f0);
    NextRound(b, 30, Hash(0xc5fbaf5d, 0x8370b52e, 0xd2aa1365, 0x6f8d7ef5, 0x12104ee9), 0x93afb507);
    NextRound(b, 31, Hash(0x1267b407, 0xc5fbaf5d, 0xa0dc2d4b, 0xd2aa1365, 0x6f8d7ef5), 0x5898e048);
  }

  lemma Rounds32To48(b: seq<byte>)
    requires ThirdWords(b) && Rounds(H0, b, 32) == Hash(0x3b845d33, 0x1267b407, 0x717eebd7, 0xa0dc2d4b, 0xd2aa1365)
    ensures Rounds(H0, b, 48) == Hash(0xbead02ca, 0xa01b846c, 0x8714787c, 0x503ca382, 0xfb86c6ab)
  {
    hide W, Rounds;
    NextRound(b, 32, Hash(0x3b845d33, 0x1267b407, 0x717eebd7, 0xa0dc2d4b, 0xd2aa1365), 0x8e9a9202);
    NextRound(b, 33, Hash(0x046faa0a, 0x3b845d33, 0xc499ed01, 0x717eebd7, 0xa0dc2d4b), 0x00000600);
    NextRound(b, 34, Hash(0x2c0ebc11, 0x046faa0a, 0xcee1174c, 0xc499ed01, 0x717eebd7), 0xb131c0f0);
    NextRound(b, 35, Hash(0x21796ad4, 0x2c0ebc11, 0x811bea82, 0xcee1174c, 0xc499ed01), 0x16263bc6);
    NextRound(b, 36, Hash(0xdcbbb0cb, 0x21796ad4, 0x4b03af04, 0x811bea82, 0xcee1174c), 0x4ebed41e);
    NextRound(b, 37, Hash(0x0f511fd8, 0xdcbbb0cb, 0x085e5ab5, 0x4b03af04, 0x811bea82), 0x626380a1);
    NextRound(b, 38, Hash(0xdc63973f, 0x0f511fd8, 0xf72eec32, 0x085e5ab5, 0x4b03af04), 0x16263806);
    NextRound(b, 39, Hash(0x4c986405, 0xdc63973f, 0x03d447f6, 0xf72eec32, 0x085e5ab5), 0x000018c0);
    NextRound(b, 40, Hash(0x32de1cba, 0x4c986405, 0xf718e5cf, 0x03d447f6, 0xf72eec32), 0xd2e138c4);
    NextRound(b, 41, Hash(0xfc87dedf, 0x32de1cba, 0x53261901, 0xf718e5cf, 0x03d447f6), 0x00000f00);
    NextRound(b, 42, Hash(0x970a0d5c, 0xfc87dedf, 0x8cb7872e, 0x53261901, 0xf718e5cf), 0x3afb5079);
    NextRound(b, 43, Hash(0x7f193dc5, 0x970a0d5c, 0xff21f7b7, 0x8cb7872e, 0x53261901), 0x898e04e5);
    NextRound(b, 44, Hash(0xee1b1aaf, 0x7f193dc5, 0x25c28357, 0xff21f7b7, 0x8cb7872e), 0xe2ba3c2b);
    NextRound(b, 45, Hash(0x40f28e09, 0xee1b1aaf, 0x5fc64f71, 0x25c28357, 0xff21f7b7), 0x000060c0);
    NextRound(b, 46, Hash(0x1c51e1f2, 0x40f28e09, 0xfb86c6ab, 0x5fc64f71, 0x25c28357), 0x053a37cd);
    NextRound(b, 47, Hash(0xa01b846c, 0x1c51e1f2, 0x503ca382, 0xfb86c6ab, 0x5fc64f71), 0x74458547);
  }

  lemma Rounds48To64(b: seq<byte>)
    requires FourthWords(b) && Rounds(H0, b, 48) == Hash(0xbead02ca, 0xa01b846c, 0x8714787c, 0x503ca382, 0xfb86c6ab)
    ensures Rounds(H0, b, 64) == Hash(0x6b61c9e1, 0xb66c020b, 0x9523272c, 0xf5d5b051, 0x8fd4b796)
  {
    hide W, Rounds;
    NextRound(b, 48, Hash(0xbead02ca, 0xa01b846c, 0x8714787c, 0x503ca382, 0xfb86c6ab), 0xda9415ed);
    NextRound(b, 49, Hash(0xbaf39337, 0xbead02ca, 0x2806e11b, 0x8714787c, 0x503ca382), 0x26380a16);
    NextRound(b, 50, Hash(0x120731c5, 0xbaf39337, 0xafab40b2, 0x2806e11b, 0x8714787c), 0x626383a1);
    NextRound(b, 51, Hash(0x641db2ce, 0x120731c5, 0xeebce4cd, 0xafab40b2, 0x2806e11b), 0x4ebf54de);
    NextRound(b, 52, Hash(0x3847ad66, 0x641db2ce, 0x4481cc71, 0xeebce4cd, 0xafab40b2), 0x3835b44b);
    NextRound(b, 53, Hash(0xe490436d, 0x3847ad66, 0x99076cb3, 0x4481cc71, 0xeebce4cd), 0x0000f600);
    NextRound(b, 54, Hash(0x27e9f1d8, 0xe490436d, 0x8e11eb59, 0x99076cb3, 0x4481cc71), 0x1e84c7a3);
    NextRound(b, 55, Hash(0x7b71f76d, 0x27e9f1d8, 0x792410db, 0x8e11eb59, 0x99076cb3), 0x98e04d98);
    NextRound(b, 56, Hash(0x5e6456af, 0x7b71f76d, 0x09fa7c76, 0x792410db, 0x8e11eb59), 0x651d16a0);
    NextRound(b, 57, Hash(0xc846093f, 0x5e6456af, 0x5edc7ddb, 0x09fa7c76, 0x792410db), 0x62658ca1);
    NextRound(b, 58, Hash(0xd262ff50, 0xc846093f, 0xd79915ab, 0x5edc7ddb, 0x09fa7c76), 0x458544d6);
    NextRound(b, 59, Hash(0x09d785fd, 0xd262ff50, 0xf211824f, 0xd79915ab, 0x5edc7ddb), 0x44584cb7);
    NextRound(b, 60, Hash(0x3f52de5a, 0x09d785fd, 0x3498bfd4, 0xf211824f, 0xd79915ab), 0x7ba06619);
    NextRound(b, 61, Hash(0xd756c147, 0x3f52de5a, 0x4275e17f, 0x3498bfd4, 0xf211824f), 0x6380aea2);
    NextRound(b, 62, Hash(0x548c9cb2, 0xd756c147, 0x8fd4b796, 0x4275e17f, 0x3498bfd4), 0x0ae55269);
    NextRound(b, 63, Hash(0xb66c020b, 0x548c9cb2, 0xf5d5b051, 0x8fd4b796, 0x4275e17f), 0x627b49a1);
  }

  lemma Rounds64To80(b: seq<byte>)
    requires FifthWords(b) && Rounds(H0, b, 64) == Hash(0x6b61c9e1, 0xb66c020b, 0x9523272c, 0xf5d5b051, 0x8fd4b796)
    ensures Rounds(H0, b, 80) == Hash(0x42541b35, 0x5738d5e1, 0x21834873, 0x681e6df6, 0xd8fdf6ad)
  {
    hide W, Rounds;
    NextRound(b, 64, Hash(0x6b61c9e1, 0xb66c020b, 0x9523272c, 0xf5d5b051, 0x8fd4b796), 0x7cd45c9d);
    NextRound(b, 65, Hash(0x19dfa7ac, 0x6b61c9e1, 0xed9b0082, 0x9523272c, 0xf5d5b051), 0x000f0000);
    NextRound(b, 66, Hash(0x101655f9, 0x19dfa7ac, 0x5ad87278, 0xed9b0082, 0x9523272c), 0xfb50753a);
    NextRound(b, 67, Hash(0x0c3df2b4, 0x101655f9, 0x0677e9eb, 0x5ad87278, 0xed9b0082), 0xec6765e8);
    NextRound(b, 68, Hash(0x78dd4d2b, 0x0c3df2b4, 0x4405957e, 0x0677e9eb, 0x5ad87278), 0xba3c2be2);
    NextRound(b, 69, Hash(0x497093c0, 0x78dd4d2b, 0x030f7cad, 0x4405957e, 0x0677e9eb), 0x0060c000);
    NextRound(b, 70, Hash(0x3f2588c2, 0x497093c0, 0xde37534a, 0x030f7cad, 0x4405957e), 0x3a37cd05);
    NextRound(b, 71, Hash(0xc199f8c7, 0x3f2588c2, 0x125c24f0, 0xde37534a, 0x030f7cad), 0x458546f4);
    NextRound(b, 72, Hash(0x39859de7, 0xc199f8c7, 0x8fc96230, 0x125c24f0, 0xde37534a), 0xb8599dd6);
    NextRound(b, 73, Hash(0xedb42de4, 0x39859de7, 0xf0667e31, 0x8fc96230, 0x125c24f0), 0x380a1a26);
    NextRound(b, 74, Hash(0x11793f6f, 0xedb42de4, 0xce616779, 0xf0667e31, 0x8fc96230), 0x01e02203);
    NextRound(b, 75, Hash(0x5ee76897, 0x11793f6f, 0x3b6d0b79, 0xce616779, 0xf0667e31), 0xe7cc3456);
    NextRound(b, 76, Hash(0x63f7dab7, 0x5ee76897, 0xc45e4fdb, 0x3b6d0b79, 0xce616779), 0xe6e60b69);
    NextRound(b, 77, Hash(0xa079b7d9, 0x63f7dab7, 0xd7b9da25, 0xc45e4fdb, 0x3b6d0b79), 0x00f60a00);
    NextRound(b, 78, Hash(0x860d21cc, 0xa079b7d9, 0xd8fdf6ad, 0xd7b9da25, 0xc45e4fdb), 0x5795ef4f);
    NextRound(b, 79, Hash(0x5738d5e1, 0x860d21cc, 0x681e6df6, 0xd8fdf6ad, 0xd7b9da25), 0x822e0879);
  }

  lemma AbcPadded()
    ensures |Pad(ABC)| == 64 && Pad(ABC)[0..4] == [0x61, 0x62, 0x63, 0x80] && Pad(ABC)[60..64] == [0, 0, 0, 24]
    ensures forall i | 4 <= i < 60 :: Pad(ABC)[i] == 0
  {
    hide Zeros, Fills, ZerosNeeded, BigBytes8;
    FillsExactly(3, 52);
    assert Fills(3, 52) by { FiftyTwoZerosFill(); }
    LengthOfAbc();
    ZerosAre(52);
    assert Pad(ABC) == ABC + [0x80] + Zeros(52) + [0, 0, 0, 0, 0, 0, 0, 24];
  }

  lemma FiftyTwoZerosFill()
    ensures Fills(3, 52)
  {
  }

  lemma LengthOfAbc()
    ensures BigBytes8(8 * |ABC| % TWO_64) == [0, 0, 0, 0, 0, 0, 0, 24]
  {
  }

  lemma BlockWord(b: seq<byte>, t: nat, word: Word)
    requires |b| == 64 && t < 16 && b[4 * t..4 * t + 4] == BigWordBytes(word)
    ensures W(b, t) == word
  {
    BigWordRoundTrip(word);
  }

  lemma AbcIsOneBlock()
    ensures |Pad(ABC)| == 64 && FirstWords(Pad(ABC))
  {
    hide W, Pad;
    var b := Pad(ABC);
    AbcPadded();
    assert BigWordBytes(0x61626380) == [0x61, 0x62, 0x63, 0x80] && BigWordBytes(0x18) == [0, 0, 0, 24];
    assert BigWordBytes(0) == [0, 0, 0, 0];
    BlockWord(b, 0, 0x61626380);
    BlockWord(b, 15, 0x18);
    forall t: nat | 0 < t < 15 ensures W(b, t) == 0 {
      assert b[4 * t..4 * t + 4] == [0, 0, 0, 0];
      BlockWord(b, t, 0);
    }
  }

  lemma ZerosAre(n: nat)
    ensures |Zeros(n)| == n && forall i | 0 <= i < n :: Zeros(n)[i] == 0
  {
  }

  lemma RoundsOfAbc(b: seq<byte>)
    requires FirstWords(b)
    ensures Rounds(H0, b, 80) == Hash(0x42541b35, 0x5738d5e1, 0x21834873, 0x681e6df6, 0xd8fdf6ad)
  {
    hide W, Rounds;
    MakeSecondWords(b);
    MakeThirdWords(b);
    MakeFourthWords(b);
    MakeFifthWords(b);
    Rounds0To16(b);
    Rounds16To32(b);
    Rounds32To48(b);
    Rounds48To64(b);
    Rounds64To80(b);
  }

  lemma HashOfAbc()
    ensures |Pad(ABC)| == 64 && HashAfter(Pad(ABC), 1) == Hash(0xa9993e36, 0x4706816a, 0xba3e2571, 0x7850c26c, 0x9cd0d89d)
  {
    hide W, Rounds, Pad;
    AbcIsOneBlock();
    RoundsOfAbc(Pad(ABC));
    assert Pad(ABC)[0..64] == Pad(ABC) && HashAfter(Pad(ABC), 0) == H0;
  }

  /** The definition gives the published digest. */
  lemma DigestOfAbc()
    ensures Digest(ABC) == [0xa9, 0x99, 0x3e, 0x36, 0x47, 0x06, 0x81, 0x6a, 0xba, 0x3e,
                            0x25, 0x71, 0x78, 0x50, 0xc2, 0x6c, 0x9c, 0xd0, 0xd8, 0x9d]
  {
    hide Pad, HashAfter;
    HashOfAbc();
    assert BigWordBytes(0xa9993e36) == [0xa9, 0x99, 0x3e, 0x36];
    assert BigWordBytes(0x4706816a) == [0x47, 0x06, 0x81, 0x6a];
    assert BigWordBytes(0xba3e2571) == [0xba, 0x3e, 0x25, 0x71];
    assert BigWordBytes(0x7850c26c) == [0x78, 0x50, 0xc2, 0x6c];
    assert BigWordBytes(0x9cd0d89d) == [0x9c, 0xd0, 0xd8, 0x9d];
  }
}
