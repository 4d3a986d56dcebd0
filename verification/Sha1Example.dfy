/** The example of section 7.3 of RFC 3174: every constant, every rotation and every word of the schedule goes into the
    digest of "abc". */
module Sha1Example {
  import opened Common
  import opened BitCount
  import opened BlockHash
  import opened ShaRounds
  import opened Sha1

  /** The padded message. */
  function Block(): (b: seq<Byte>)
    ensures |b| == BLOCKSIZE
  {
    [0x61, 0x62, 0x63, 0x80] + Zeros(59) + [0x18]
  }

  lemma LemmaLength()
    ensures LengthBytes(24) == [0, 0, 0, 0, 0, 0, 0, 0x18]
  {
    hide ByteOf;
    LemmaLowByte(0);
    LemmaLowByte(24);
    LemmaNoByte(24, 0x100);
    LemmaNoByte(24, 0x1_0000);
    LemmaNoByte(24, 0x100_0000);
    LemmaNoByte(0, 0x100);
    LemmaNoByte(0, 0x1_0000);
    LemmaNoByte(0, 0x100_0000);
  }

  lemma LemmaPadded()
    ensures Pad([0x61, 0x62, 0x63], LengthBytes(24)) == Block()
  {
    hide LengthBytes;
    LemmaLength();
    assert Zeros(52) + [0, 0, 0, 0, 0, 0, 0] == Zeros(59);
  }

  // ----- the schedule

  ghost predicate Words0(b: seq<Byte>) {
    && |b| == BLOCKSIZE
    && Word(b, 0) == 0x61626380 && Word(b, 1) == 0x00000000 && Word(b, 2) == 0x00000000 && Word(b, 3) == 0x00000000
    && Word(b, 4) == 0x00000000 && Word(b, 5) == 0x00000000 && Word(b, 6) == 0x00000000 && Word(b, 7) == 0x00000000
    && Word(b, 8) == 0x00000000 && Word(b, 9) == 0x00000000 && Word(b, 10) == 0x00000000 && Word(b, 11) == 0x00000000
    && Word(b, 12) == 0x00000000 && Word(b, 13) == 0x00000000 && Word(b, 14) == 0x00000000 && Word(b, 15) == 0x00000018
  }

  ghost predicate Words16(b: seq<Byte>) {
    && |b| == BLOCKSIZE
    && Word(b, 16) == 0xc2c4c700 && Word(b, 17) == 0x00000000 && Word(b, 18) == 0x00000030 && Word(b, 19) == 0x85898e01
    && Word(b, 20) == 0x00000000 && Word(b, 21) == 0x00000060 && Word(b, 22) == 0x0b131c03 && Word(b, 23) == 0x00000030
    && Word(b, 24) == 0x85898ec1 && Word(b, 25) == 0x16263806 && Word(b, 26) == 0x00000000 && Word(b, 27) == 0x00000180
    && Word(b, 28) == 0x2c4c700c && Word(b, 29) == 0x000000f0 && Word(b, 30) == 0x93afb507 && Word(b, 31) == 0x5898e048
  }

  ghost predicate Words32(b: seq<Byte>) {
    && |b| == BLOCKSIZE
    && Word(b, 32) == 0x8e9a9202 && Word(b, 33) == 0x00000600 && Word(b, 34) == 0xb131c0f0 && Word(b, 35) == 0x16263bc6
    && Word(b, 36) == 0x4ebed41e && Word(b, 37) == 0x626380a1 && Word(b, 38) == 0x16263806 && Word(b, 39) == 0x000018c0
    && Word(b, 40) == 0xd2e138c4 && Word(b, 41) == 0x00000f00 && Word(b, 42) == 0x3afb5079 && Word(b, 43) == 0x898e04e5
    && Word(b, 44) == 0xe2ba3c2b && Word(b, 45) == 0x000060c0 && Word(b, 46) == 0x053a37cd && Word(b, 47) == 0x74458547
  }

  ghost predicate Words48(b: seq<Byte>) {
    && |b| == BLOCKSIZE
    && Word(b, 48) == 0xda9415ed && Word(b, 49) == 0x26380a16 && Word(b, 50) == 0x626383a1 && Word(b, 51) == 0x4ebf54de
    && Word(b, 52) == 0x3835b44b && Word(b, 53) == 0x0000f600 && Word(b, 54) == 0x1e84c7a3 && Word(b, 55) == 0x98e04d98
    && Word(b, 56) == 0x651d16a0 && Word(b, 57) == 0x62658ca1 && Word(b, 58) == 0x458544d6 && Word(b, 59) == 0x44584cb7
    && Word(b, 60) == 0x7ba06619 && Word(b, 61) == 0x6380aea2 && Word(b, 62) == 0x0ae55269 && Word(b, 63) == 0x627b49a1
  }

  ghost predicate Words64(b: seq<Byte>) {
    && |b| == BLOCKSIZE
    && Word(b, 64) == 0x7cd45c9d && Word(b, 65) == 0x000f0000 && Word(b, 66) == 0xfb50753a && Word(b, 67) == 0xec6765e8
    && Word(b, 68) == 0xba3c2be2 && Word(b, 69) == 0x0060c000 && Word(b, 70) == 0x3a37cd05 && Word(b, 71) == 0x458546f4
    && Word(b, 72) == 0xb8599dd6 && Word(b, 73) == 0x380a1a26 && Word(b, 74) == 0x01e02203 && Word(b, 75) == 0xe7cc3456
    && Word(b, 76) == 0xe6e60b69 && Word(b, 77) == 0x00f60a00 && Word(b, 78) == 0x5795ef4f && Word(b, 79) == 0x822e0879
  }

  lemma LemmaBlock()
    ensures BigEndian(Block(), 0) == 0x61626380 && BigEndian(Block(), 60) == 0x00000018
    ensures forall dp: nat | 4 <= dp < 60 :: BigEndian(Block(), dp) == 0
  {
  }

  lemma FirstWords()
    ensures Words0(Block())
  {
    hide BigEndian, Block;
    LemmaBlock();
  }

  lemma From16(b: seq<Byte>)
    requires Words0(b)
    ensures Words16(b)
  {
  }

  lemma From32(b: seq<Byte>)
    requires Words16(b)
    ensures Words32(b)
  {
  }

  lemma From48(b: seq<Byte>)
    requires Words32(b)
    ensures Words48(b)
  {
  }

  lemma From64(b: seq<Byte>)
    requires Words48(b)
    ensures Words64(b)
  {
  }

  // ----- the rounds

  /** The registers, given what the last five rounds put into the first. */
  function Registers(a: bv32, b: bv32, c: bv32, d: bv32, e: bv32): Five {
    Five(a, b, R32(c, 30), R32(d, 30), R32(e, 30))
  }

  function Result(n: nat, a: bv32, b: bv32, c: bv32, d: bv32, e: bv32, x: bv32): bv32 {
    Mix(n, a, b, R32(c, 30), R32(d, 30), R32(e, 30), x)
  }

  lemma Round(msg: seq<Byte>, k: nat, n: nat, a: bv32, b: bv32, c: bv32, d: bv32, e: bv32, x: bv32, f: bv32)
    requires |msg| == BLOCKSIZE && k < 80 && n == Kind(k) && Word(msg, k) == x && f == Result(n, a, b, c, d, e, x)
    requires Rounds(Schedule(msg), INITIAL, k) == Registers(a, b, c, d, e)
    ensures Rounds(Schedule(msg), INITIAL, k + 1) == Registers(f, a, b, c, d)
  {
    hide Mix, R32, Word;
  }

  lemma Rounds0(msg: seq<Byte>)
    requires Words0(msg) && Words16(msg)
    requires Rounds(Schedule(msg), INITIAL, 0) == Registers(0x67452301, 0xefcdab89, 0x62eb73fa, 0x40c951d8, 0x0f4b87c3)
    ensures Rounds(Schedule(msg), INITIAL, 20) == Registers(0xfd9e1d7d, 0xdc64901d, 0x82aa6728, 0x4e925823, 0x20bdd62f)
  {
    hide Rounds, Registers, INITIAL, Schedule, Word;
    Round(msg, 0, 1, 0x67452301, 0xefcdab89, 0x62eb73fa, 0x40c951d8, 0x0f4b87c3, 0x61626380, 0x0116fc33);
    Round(msg, 1, 1, 0x0116fc33, 0x67452301, 0xefcdab89, 0x62eb73fa, 0x40c951d8, 0x00000000, 0x8990536d);
    Round(msg, 2, 1, 0x8990536d, 0x0116fc33, 0x67452301, 0xefcdab89, 0x62eb73fa, 0x00000000, 0xa1390f08);
    Round(msg, 3, 1, 0xa1390f08, 0x8990536d, 0x0116fc33, 0x67452301, 0xefcdab89, 0x00000000, 0xcdd8e11b);
    Round(msg, 4, 1, 0xcdd8e11b, 0xa1390f08, 0x8990536d, 0x0116fc33, 0x67452301, 0x00000000, 0xcfd499de);
    Round(msg, 5, 1, 0xcfd499de, 0xcdd8e11b, 0xa1390f08, 0x8990536d, 0x0116fc33, 0x00000000, 0x3fc7ca40);
    Round(msg, 6, 1, 0x3fc7ca40, 0xcfd499de, 0xcdd8e11b, 0xa1390f08, 0x8990536d, 0x00000000, 0x993e30c1);
    Round(msg, 7, 1, 0x993e30c1, 0x3fc7ca40, 0xcfd499de, 0xcdd8e11b, 0xa1390f08, 0x00000000, 0x9e8c07d4);
    Round(msg, 8, 1, 0x9e8c07d4, 0x993e30c1, 0x3fc7ca40, 0xcfd499de, 0xcdd8e11b, 0x00000000, 0x4b6ae328);
    Round(msg, 9, 1, 0x4b6ae328, 0x9e8c07d4, 0x993e30c1, 0x3fc7ca40, 0xcfd499de, 0x00000000, 0x8351f929);
    Round(msg, 10, 1, 0x8351f929, 0x4b6ae328, 0x9e8c07d4, 0x993e30c1, 0x3fc7ca40, 0x00000000, 0xfbda9e89);
    Round(msg, 11, 1, 0xfbda9e89, 0x8351f929, 0x4b6ae328, 0x9e8c07d4, 0x993e30c1, 0x00000000, 0x63188fe4);
    Round(msg, 12, 1, 0x63188fe4, 0xfbda9e89, 0x8351f929, 0x4b6ae328, 0x9e8c07d4, 0x00000000, 0x4607b664);
    Round(msg, 13, 1, 0x4607b664, 0x63188fe4, 0xfbda9e89, 0x8351f929, 0x4b6ae328, 0x00000000, 0x9128f695);
    Round(msg, 14, 1, 0x9128f695, 0x4607b664, 0x63188fe4, 0xfbda9e89, 0x8351f929, 0x00000000, 0x196bee77);
    Round(msg, 15, 1, 0x196bee77, 0x9128f695, 0x4607b664, 0x63188fe4, 0xfbda9e89, 0x00000018, 0x20bdd62f);
    Round(msg, 16, 1, 0x20bdd62f, 0x196bee77, 0x9128f695, 0x4607b664, 0x63188fe4, 0xc2c4c700, 0x4e925823);
    Round(msg, 17, 1, 0x4e925823, 0x20bdd62f, 0x196bee77, 0x9128f695, 0x4607b664, 0x00000000, 0x82aa6728);
    Round(msg, 18, 1, 0x82aa6728, 0x4e925823, 0x20bdd62f, 0x196bee77, 0x9128f695, 0x00000030, 0xdc64901d);
    Round(msg, 19, 1, 0xdc64901d, 0x82aa6728, 0x4e925823, 0x20bdd62f, 0x196bee77, 0x85898e01, 0xfd9e1d7d);
  }

  lemma Rounds20(msg: seq<Byte>)
    requires Words16(msg) && Words32(msg)
    requires Rounds(Schedule(msg), INITIAL, 20) == Registers(0xfd9e1d7d, 0xdc64901d, 0x82aa6728, 0x4e925823, 0x20bdd62f)
    ensures Rounds(Schedule(msg), INITIAL, 40) == Registers(0x32de1cba, 0x4c986405, 0xdc63973f, 0x0f511fd8, 0xdcbbb0cb)
  {
    hide Rounds, Registers, INITIAL, Schedule, Word;
    Round(msg, 20, 2, 0xfd9e1d7d, 0xdc64901d, 0x82aa6728, 0x4e925823, 0x20bdd62f, 0x00000000, 0x1a37b0ca);
    Round(msg, 21, 2, 0x1a37b0ca, 0xfd9e1d7d, 0xdc64901d, 0x82aa6728, 0x4e925823, 0x00000060, 0x33a23bfc);
    Round(msg, 22, 2, 0x33a23bfc, 0x1a37b0ca, 0xfd9e1d7d, 0xdc64901d, 0x82aa6728, 0x0b131c03, 0x21283486);
    Round(msg, 23, 2, 0x21283486, 0x33a23bfc, 0x1a37b0ca, 0xfd9e1d7d, 0xdc64901d, 0x00000030, 0xd541f12d);
    Round(msg, 24, 2, 0xd541f12d, 0x21283486, 0x33a23bfc, 0x1a37b0ca, 0xfd9e1d7d, 0x85898ec1, 0xc7567dc6);
    Round(msg, 25, 2, 0xc7567dc6, 0xd541f12d, 0x21283486, 0x33a23bfc, 0x1a37b0ca, 0x16263806, 0x48413ba4);
    Round(msg, 26, 2, 0x48413ba4, 0xc7567dc6, 0xd541f12d, 0x21283486, 0x33a23bfc, 0x00000000, 0xbe35fbd5);
    Round(msg, 27, 2, 0xbe35fbd5, 0x48413ba4, 0xc7567dc6, 0xd541f12d, 0x21283486, 0x00000180, 0x4aa84d97);
    Round(msg, 28, 2, 0x4aa84d97, 0xbe35fbd5, 0x48413ba4, 0xc7567dc6, 0xd541f12d, 0x2c4c700c, 0x8370b52e);
    Round(msg, 29, 2, 0x8370b52e, 0x4aa84d97, 0xbe35fbd5, 0x48413ba4, 0xc7567dc6, 0x000000f0, 0xc5fbaf5d);
    Round(msg, 30, 2, 0xc5fbaf5d, 0x8370b52e, 0x4aa84d97, 0xbe35fbd5, 0x48413ba4, 0x93afb507, 0x1267b407);
    Round(msg, 31, 2, 0x1267b407, 0xc5fbaf5d, 0x8370b52e, 0x4aa84d97, 0xbe35fbd5, 0x5898e048, 0x3b845d33);
    Round(msg, 32, 2, 0x3b845d33, 0x1267b407, 0xc5fbaf5d, 0x8370b52e, 0x4aa84d97, 0x8e9a9202, 0x046faa0a);
    Round(msg, 33, 2, 0x046faa0a, 0x3b845d33, 0x1267b407, 0xc5fbaf5d, 0x8370b52e, 0x00000600, 0x2c0ebc11);
    Round(msg, 34, 2, 0x2c0ebc11, 0x046faa0a, 0x3b845d33, 0x1267b407, 0xc5fbaf5d, 0xb131c0f0, 0x21796ad4);
    Round(msg, 35, 2, 0x21796ad4, 0x2c0ebc11, 0x046faa0a, 0x3b845d33, 0x1267b407, 0x16263bc6, 0xdcbbb0cb);
    Round(msg, 36, 2, 0xdcbbb0cb, 0x21796ad4, 0x2c0ebc11, 0x046faa0a, 0x3b845d33, 0x4ebed41e, 0x0f511fd8);
    Round(msg, 37, 2, 0x0f511fd8, 0xdcbbb0cb, 0x21796ad4, 0x2c0ebc11, 0x046faa0a, 0x626380a1, 0xdc63973f);
    Round(msg, 38, 2, 0xdc63973f, 0x0f511fd8, 0xdcbbb0cb, 0x21796ad4, 0x2c0ebc11, 0x16263806, 0x4c986405);
    Round(msg, 39, 2, 0x4c986405, 0xdc63973f, 0x0f511fd8, 0xdcbbb0cb, 0x21796ad4, 0x000018c0, 0x32de1cba);
  }

  lemma Rounds40(msg: seq<Byte>)
    requires Words32(msg) && Words48(msg)
    requires Rounds(Schedule(msg), INITIAL, 40) == Registers(0x32de1cba, 0x4c986405, 0xdc63973f, 0x0f511fd8, 0xdcbbb0cb)
    ensures Rounds(Schedule(msg), INITIAL, 60) == Registers(0x3f52de5a, 0x09d785fd, 0xd262ff50, 0xc846093f, 0x5e6456af)
  {
    hide Rounds, Registers, INITIAL, Schedule, Word;
    Round(msg, 40, 3, 0x32de1cba, 0x4c986405, 0xdc63973f, 0x0f511fd8, 0xdcbbb0cb, 0xd2e138c4, 0xfc87dedf);
    Round(msg, 41, 3, 0xfc87dedf, 0x32de1cba, 0x4c986405, 0xdc63973f, 0x0f511fd8, 0x00000f00, 0x970a0d5c);
    Round(msg, 42, 3, 0x970a0d5c, 0xfc87dedf, 0x32de1cba, 0x4c986405, 0xdc63973f, 0x3afb5079, 0x7f193dc5);
    Round(msg, 43, 3, 0x7f193dc5, 0x970a0d5c, 0xfc87dedf, 0x32de1cba, 0x4c986405, 0x898e04e5, 0xee1b1aaf);
    Round(msg, 44, 3, 0xee1b1aaf, 0x7f193dc5, 0x970a0d5c, 0xfc87dedf, 0x32de1cba, 0xe2ba3c2b, 0x40f28e09);
    Round(msg, 45, 3, 0x40f28e09, 0xee1b1aaf, 0x7f193dc5, 0x970a0d5c, 0xfc87dedf, 0x000060c0, 0x1c51e1f2);
    Round(msg, 46, 3, 0x1c51e1f2, 0x40f28e09, 0xee1b1aaf, 0x7f193dc5, 0x970a0d5c, 0x053a37cd, 0xa01b846c);
    Round(msg, 47, 3, 0xa01b846c, 0x1c51e1f2, 0x40f28e09, 0xee1b1aaf, 0x7f193dc5, 0x74458547, 0xbead02ca);
    Round(msg, 48, 3, 0xbead02ca, 0xa01b846c, 0x1c51e1f2, 0x40f28e09, 0xee1b1aaf, 0xda9415ed, 0xbaf39337);
    Round(msg, 49, 3, 0xbaf39337, 0xbead02ca, 0xa01b846c, 0x1c51e1f2, 0x40f28e09, 0x26380a16, 0x120731c5);
    Round(msg, 50, 3, 0x120731c5, 0xbaf39337, 0xbead02ca, 0xa01b846c, 0x1c51e1f2, 0x626383a1, 0x641db2ce);
    Round(msg, 51, 3, 0x641db2ce, 0x120731c5, 0xbaf39337, 0xbead02ca, 0xa01b846c, 0x4ebf54de, 0x3847ad66);
    Round(msg, 52, 3, 0x3847ad66, 0x641db2ce, 0x120731c5, 0xbaf39337, 0xbead02ca, 0x3835b44b, 0xe490436d);
    Round(msg, 53, 3, 0xe490436d, 0x3847ad66, 0x641db2ce, 0x120731c5, 0xbaf39337, 0x0000f600, 0x27e9f1d8);
    Round(msg, 54, 3, 0x27e9f1d8, 0xe490436d, 0x3847ad66, 0x641db2ce, 0x120731c5, 0x1e84c7a3, 0x7b71f76d);
    Round(msg, 55, 3, 0x7b71f76d, 0x27e9f1d8, 0xe490436d, 0x3847ad66, 0x641db2ce, 0x98e04d98, 0x5e6456af);
    Round(msg, 56, 3, 0x5e6456af, 0x7b71f76d, 0x27e9f1d8, 0xe490436d, 0x3847ad66, 0x651d16a0, 0xc846093f);
    Round(msg, 57, 3, 0xc846093f, 0x5e6456af, 0x7b71f76d, 0x27e9f1d8, 0xe490436d, 0x62658ca1, 0xd262ff50);
    Round(msg, 58, 3, 0xd262ff50, 0xc846093f, 0x5e6456af, 0x7b71f76d, 0x27e9f1d8, 0x458544d6, 0x09d785fd);
    Round(msg, 59, 3, 0x09d785fd, 0xd262ff50, 0xc846093f, 0x5e6456af, 0x7b71f76d, 0x44584cb7, 0x3f52de5a);
  }

  lemma Rounds60(msg: seq<Byte>)
    requires Words48(msg) && Words64(msg)
    requires Rounds(Schedule(msg), INITIAL, 60) == Registers(0x3f52de5a, 0x09d785fd, 0xd262ff50, 0xc846093f, 0x5e6456af)
    ensures Rounds(Schedule(msg), INITIAL, 80) == Registers(0x42541b35, 0x5738d5e1, 0x860d21cc, 0xa079b7d9, 0x63f7dab7)
  {
    hide Rounds, Registers, INITIAL, Schedule, Word;
    Round(msg, 60, 4, 0x3f52de5a, 0x09d785fd, 0xd262ff50, 0xc846093f, 0x5e6456af, 0x7ba06619, 0xd756c147);
    Round(msg, 61, 4, 0xd756c147, 0x3f52de5a, 0x09d785fd, 0xd262ff50, 0xc846093f, 0x6380aea2, 0x548c9cb2);
    Round(msg, 62, 4, 0x548c9cb2, 0xd756c147, 0x3f52de5a, 0x09d785fd, 0xd262ff50, 0x0ae55269, 0xb66c020b);
    Round(msg, 63, 4, 0xb66c020b, 0x548c9cb2, 0xd756c147, 0x3f52de5a, 0x09d785fd, 0x627b49a1, 0x6b61c9e1);
    Round(msg, 64, 4, 0x6b61c9e1, 0xb66c020b, 0x548c9cb2, 0xd756c147, 0x3f52de5a, 0x7cd45c9d, 0x19dfa7ac);
    Round(msg, 65, 4, 0x19dfa7ac, 0x6b61c9e1, 0xb66c020b, 0x548c9cb2, 0xd756c147, 0x000f0000, 0x101655f9);
    Round(msg, 66, 4, 0x101655f9, 0x19dfa7ac, 0x6b61c9e1, 0xb66c020b, 0x548c9cb2, 0xfb50753a, 0x0c3df2b4);
    Round(msg, 67, 4, 0x0c3df2b4, 0x101655f9, 0x19dfa7ac, 0x6b61c9e1, 0xb66c020b, 0xec6765e8, 0x78dd4d2b);
    Round(msg, 68, 4, 0x78dd4d2b, 0x0c3df2b4, 0x101655f9, 0x19dfa7ac, 0x6b61c9e1, 0xba3c2be2, 0x497093c0);
    Round(msg, 69, 4, 0x497093c0, 0x78dd4d2b, 0x0c3df2b4, 0x101655f9, 0x19dfa7ac, 0x0060c000, 0x3f2588c2);
    Round(msg, 70, 4, 0x3f2588c2, 0x497093c0, 0x78dd4d2b, 0x0c3df2b4, 0x101655f9, 0x3a37cd05, 0xc199f8c7);
    Round(msg, 71, 4, 0xc199f8c7, 0x3f2588c2, 0x497093c0, 0x78dd4d2b, 0x0c3df2b4, 0x458546f4, 0x39859de7);
    Round(msg, 72, 4, 0x39859de7, 0xc199f8c7, 0x3f2588c2, 0x497093c0, 0x78dd4d2b, 0xb8599dd6, 0xedb42de4);
    Round(msg, 73, 4, 0xedb42de4, 0x39859de7, 0xc199f8c7, 0x3f2588c2, 0x497093c0, 0x380a1a26, 0x11793f6f);
    Round(msg, 74, 4, 0x11793f6f, 0xedb42de4, 0x39859de7, 0xc199f8c7, 0x3f2588c2, 0x01e02203, 0x5ee76897);
    Round(msg, 75, 4, 0x5ee76897, 0x11793f6f, 0xedb42de4, 0x39859de7, 0xc199f8c7, 0xe7cc3456, 0x63f7dab7);
    Round(msg, 76, 4, 0x63f7dab7, 0x5ee76897, 0x11793f6f, 0xedb42de4, 0x39859de7, 0xe6e60b69, 0xa079b7d9);
    Round(msg, 77, 4, 0xa079b7d9, 0x63f7dab7, 0x5ee76897, 0x11793f6f, 0xedb42de4, 0x00f60a00, 0x860d21cc);
    Round(msg, 78, 4, 0x860d21cc, 0xa079b7d9, 0x63f7dab7, 0x5ee76897, 0x11793f6f, 0x5795ef4f, 0x5738d5e1);
    Round(msg, 79, 4, 0x5738d5e1, 0x860d21cc, 0xa079b7d9, 0x63f7dab7, 0x5ee76897, 0x822e0879, 0x42541b35);
  }

  lemma NoRound(msg: seq<Byte>)
    requires |msg| == BLOCKSIZE
    ensures Rounds(Schedule(msg), INITIAL, 0) == Registers(0x67452301, 0xefcdab89, 0x62eb73fa, 0x40c951d8, 0x0f4b87c3)
  {
  }

  lemma AllRounds()
    ensures Rounds(Schedule(Block()), INITIAL, 80) == Registers(0x42541b35, 0x5738d5e1, 0x860d21cc, 0xa079b7d9, 0x63f7dab7)
  {
    hide Words0, Words16, Words32, Words48, Words64, Rounds, Registers, INITIAL, Block;
    var b := Block();
    FirstWords();
    From16(b);
    From32(b);
    From48(b);
    From64(b);
    NoRound(b);
    Rounds0(b);
    Rounds20(b);
    Rounds40(b);
    Rounds60(b);
  }

  function Published(): seq<Byte> {
    [0xa9, 0x99, 0x3e, 0x36, 0x47, 0x06, 0x81, 0x6a, 0xba, 0x3e,
     0x25, 0x71, 0x78, 0x50, 0xc2, 0x6c, 0x9c, 0xd0, 0xd8, 0x9d]
  }

  lemma LemmaDigest()
    ensures DigestBytes(Plus(INITIAL, Registers(0x42541b35, 0x5738d5e1, 0x860d21cc, 0xa079b7d9, 0x63f7dab7))) == Published()
  {
  }

  lemma DigestOfAbc()
    ensures Digest([0x61, 0x62, 0x63]) == Published()
  {
    hide LengthBytes, Block, Word, Rounds, Registers, DigestBytes, Plus, Published;
    LemmaPadded();
    AllRounds();
    LemmaDigest();
    assert Block()[..BLOCKSIZE] == Block() && Block()[BLOCKSIZE..] == [];
    assert Absorb(Compress, INITIAL, Block()) == Compress(INITIAL, Block());
  }
}
