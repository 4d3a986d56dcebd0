/** The example of appendix A.5 of RFC 1321: every constant, every rotation and every choice of a word goes into the digest
    of "abc". */
module Md5Example {
  import opened Common
  import opened BitCount
  import opened BlockHash
  import opened Md5Rounds
  import opened Md5

  /** The padded message. */
  function Block(): (b: seq<Byte>)
    ensures |b| == BLOCKSIZE
  {
    [0x61, 0x62, 0x63, 0x80] + Zeros(52) + [0x18] + Zeros(7)
  }

  lemma LemmaLength()
    ensures LengthBytes(24) == [0x18, 0, 0, 0, 0, 0, 0, 0]
  {
    hide ByteOf, EncodeCount;
    LemmaCount(24);
    LemmaCount(0);
  }

  lemma LemmaCount(n: nat)
    requires n < 256
    ensures EncodeCount(n) == [ByteOf(n, 1), 0, 0, 0] && ByteOf(n, 1) as nat == n
  {
    hide ByteOf;
    LemmaLowByte(n);
    LemmaNoByte(n, 0x100);
    LemmaNoByte(n, 0x1_0000);
    LemmaNoByte(n, 0x100_0000);
  }

  lemma LemmaPadded()
    ensures Pad([0x61, 0x62, 0x63], LengthBytes(24)) == Block()
  {
    hide LengthBytes;
    LemmaLength();
    assert [0x18] + Zeros(7) == [0x18, 0, 0, 0, 0, 0, 0, 0];
  }

  lemma LemmaBlock()
    ensures LittleEndian(Block(), 0) == 0x80636261 && LittleEndian(Block(), 56) == 0x18
    ensures LittleEndian(Block(), 60) == 0 && forall j: nat | 4 <= j <= 52 :: LittleEndian(Block(), j) == 0
  {
  }

  /** The words of the block: all but two are 0. */
  ghost predicate AbcWords(x: seq<bv32>) {
    |x| == 16 && x[0] == 0x80636261 && x[14] == 0x18 && forall i | 0 < i < 16 && i != 14 :: x[i] == 0
  }

  lemma LemmaWords()
    ensures AbcWords(Words(Block()))
  {
    hide LittleEndian, Block;
    LemmaBlock();
  }

  // ----- the operations

  lemma Op(x: seq<bv32>, i: nat, a: bv32, b: bv32, c: bv32, d: bv32, n: nat, index: nat, s: nat, ac: bv32, r: bv32)
    requires AbcWords(x) && Given(i, n, index, s, ac) && s <= 32
    requires r == Operation(n, a, b, c, d, if index == 0 then 0x80636261 else if index == 14 then 0x18 else 0, s, ac)
    requires Loop(INITIAL, x, i) == Four(a, b, c, d)
    ensures Loop(INITIAL, x, i + 1) == Four(d, r, b, c)
  {
    hide Operation, Constant, Shift, Kind;
    LemmaIndex(i);
  }

  lemma LemmaIndex(i: nat)
    requires i < 64
    ensures Index(i) < 16
  {
  }

  lemma Round1(x: seq<bv32>)
    requires AbcWords(x) && Loop(INITIAL, x, 0) == Four(0x67452301, 0xefcdab89, 0x98badcfe, 0x10325476)
    ensures Loop(INITIAL, x, 16) == Four(0xdda9b9a6, 0x72aff2e0, 0xe396856b, 0xa1051895)
  {
    hide Loop, INITIAL, AbcWords, Given;
    GivenFrom0();
    GivenFrom8();
    Op(x, 0, 0x67452301, 0xefcdab89, 0x98badcfe, 0x10325476, 1, 0, 7, 0xd76aa478, 0xd6d117b4);
    Op(x, 1, 0x10325476, 0xd6d117b4, 0xefcdab89, 0x98badcfe, 1, 1, 12, 0xe8c7b756, 0x344a8432);
    Op(x, 2, 0x98badcfe, 0x344a8432, 0xd6d117b4, 0xefcdab89, 1, 2, 17, 0x242070db, 0x2f6fbd72);
    Op(x, 3, 0xefcdab89, 0x2f6fbd72, 0x344a8432, 0xd6d117b4, 1, 3, 22, 0xc1bdceee, 0x7ad956f2);
    Op(x, 4, 0xd6d117b4, 0x7ad956f2, 0x2f6fbd72, 0x344a8432, 1, 4, 7, 0xf57c0faf, 0xc73741ef);
    Op(x, 5, 0x344a8432, 0xc73741ef, 0x7ad956f2, 0x2f6fbd72, 1, 5, 12, 0x4787c62a, 0x8bac3051);
    Op(x, 6, 0x2f6fbd72, 0x8bac3051, 0xc73741ef, 0x7ad956f2, 1, 6, 17, 0xa8304613, 0x207dc67b);
    Op(x, 7, 0x7ad956f2, 0x207dc67b, 0x8bac3051, 0xc73741ef, 1, 7, 22, 0xfd469501, 0x928d99f6);
    Op(x, 8, 0xc73741ef, 0x928d99f6, 0x207dc67b, 0x8bac3051, 1, 8, 7, 0x698098d8, 0x854b3712);
    Op(x, 9, 0x8bac3051, 0x854b3712, 0x928d99f6, 0x207dc67b, 1, 9, 12, 0x8b44f7af, 0x74e2f284);
    Op(x, 10, 0x207dc67b, 0x74e2f284, 0x854b3712, 0x928d99f6, 1, 10, 17, 0xffff5bb1, 0x3020401c);
    Op(x, 11, 0x928d99f6, 0x3020401c, 0x74e2f284, 0x854b3712, 1, 11, 22, 0x895cd7be, 0x5ed49596);
    Op(x, 12, 0x854b3712, 0x5ed49596, 0x3020401c, 0x74e2f284, 1, 12, 7, 0x6b901122, 0xdda9b9a6);
    Op(x, 13, 0x74e2f284, 0xdda9b9a6, 0x5ed49596, 0x3020401c, 1, 13, 12, 0xfd987193, 0xa1051895);
    Op(x, 14, 0x3020401c, 0xa1051895, 0xdda9b9a6, 0x5ed49596, 1, 14, 17, 0xa679438e, 0xe396856b);
    Op(x, 15, 0x5ed49596, 0xe396856b, 0xa1051895, 0xdda9b9a6, 1, 15, 22, 0x49b40821, 0x72aff2e0);
  }

  lemma Round2(x: seq<bv32>)
    requires AbcWords(x) && Loop(INITIAL, x, 16) == Four(0xdda9b9a6, 0x72aff2e0, 0xe396856b, 0xa1051895)
    ensures Loop(INITIAL, x, 32) == Four(0x790a77fb, 0x726342d3, 0xa62884aa, 0x9f47e4f8)
  {
    hide Loop, INITIAL, AbcWords, Given;
    GivenFrom16();
    GivenFrom24();
    Op(x, 16, 0xdda9b9a6, 0x72aff2e0, 0xe396856b, 0xa1051895, 2, 1, 5, 0xf61e2562, 0x3e9e9126);
    Op(x, 17, 0xa1051895, 0x3e9e9126, 0x72aff2e0, 0xe396856b, 2, 6, 9, 0xc040b340, 0x4a1d804e);
    Op(x, 18, 0xe396856b, 0x4a1d804e, 0x3e9e9126, 0x72aff2e0, 2, 11, 14, 0x265e5a51, 0xe25e1652);
    Op(x, 19, 0x72aff2e0, 0xe25e1652, 0x4a1d804e, 0x3e9e9126, 2, 0, 20, 0xe9b6c7aa, 0xb5b204e4);
    Op(x, 20, 0x3e9e9126, 0xb5b204e4, 0xe25e1652, 0x4a1d804e, 2, 5, 5, 0xd62f105d, 0x59a8ffda);
    Op(x, 21, 0x4a1d804e, 0x59a8ffda, 0xb5b204e4, 0xe25e1652, 2, 10, 9, 0x02441453, 0x6d002f1e);
    Op(x, 22, 0xe25e1652, 0x6d002f1e, 0x59a8ffda, 0xb5b204e4, 2, 15, 14, 0xd8a1e681, 0xabfc7920);
    Op(x, 23, 0xb5b204e4, 0xabfc7920, 0x6d002f1e, 0x59a8ffda, 2, 4, 20, 0xe7d3fbc8, 0x47092c07);
    Op(x, 24, 0x59a8ffda, 0x47092c07, 0xabfc7920, 0x6d002f1e, 2, 9, 5, 0x21e1cde6, 0xb7f268cf);
    Op(x, 25, 0x6d002f1e, 0xb7f268cf, 0x47092c07, 0xabfc7920, 2, 14, 9, 0xc33707d6, 0x09388eff);
    Op(x, 26, 0xabfc7920, 0x09388eff, 0xb7f268cf, 0x47092c07, 2, 3, 14, 0xf4d50d87, 0xfe1623b1);
    Op(x, 27, 0x47092c07, 0xfe1623b1, 0x09388eff, 0xb7f268cf, 2, 8, 20, 0x455a14ed, 0x786acb8f);
    Op(x, 28, 0xb7f268cf, 0x786acb8f, 0xfe1623b1, 0x09388eff, 2, 13, 5, 0xa9e3e905, 0x790a77fb);
    Op(x, 29, 0x09388eff, 0x790a77fb, 0x786acb8f, 0xfe1623b1, 2, 2, 9, 0xfcefa3f8, 0x9f47e4f8);
    Op(x, 30, 0xfe1623b1, 0x9f47e4f8, 0x790a77fb, 0x786acb8f, 2, 7, 14, 0x676f02d9, 0xa62884aa);
    Op(x, 31, 0x786acb8f, 0xa62884aa, 0x9f47e4f8, 0x790a77fb, 2, 12, 20, 0x8d2a4c8a, 0x726342d3);
  }

  lemma Round3(x: seq<bv32>)
    requires AbcWords(x) && Loop(INITIAL, x, 32) == Four(0x790a77fb, 0x726342d3, 0xa62884aa, 0x9f47e4f8)
    ensures Loop(INITIAL, x, 48) == Four(0x7f2e507b, 0x7beb9700, 0x8fae6399, 0x99d9679d)
  {
    hide Loop, INITIAL, AbcWords, Given;
    GivenFrom32();
    GivenFrom40();
    Op(x, 32, 0x790a77fb, 0x726342d3, 0xa62884aa, 0x9f47e4f8, 3, 5, 4, 0xfffa3942, 0xb3707ebf);
    Op(x, 33, 0x9f47e4f8, 0xb3707ebf, 0x726342d3, 0xa62884aa, 3, 8, 11, 0x8771f681, 0x60127b2e);
    Op(x, 34, 0xa62884aa, 0x60127b2e, 0xb3707ebf, 0x726342d3, 3, 11, 16, 0x6d9d6122, 0x8d212ff5);
    Op(x, 35, 0x726342d3, 0x8d212ff5, 0x60127b2e, 0xb3707ebf, 3, 14, 23, 0xfde5380c, 0x3b0875c7);
    Op(x, 36, 0xb3707ebf, 0x3b0875c7, 0x8d212ff5, 0x60127b2e, 3, 1, 4, 0xa4beea44, 0x21b117b9);
    Op(x, 37, 0x60127b2e, 0x21b117b9, 0x3b0875c7, 0x8d212ff5, 3, 4, 11, 0x4bdecfa9, 0x6e7429d5);
    Op(x, 38, 0x8d212ff5, 0x6e7429d5, 0x21b117b9, 0x3b0875c7, 3, 7, 16, 0xf6bb4b60, 0x3575227e);
    Op(x, 39, 0x3b0875c7, 0x3575227e, 0x6e7429d5, 0x21b117b9, 3, 10, 23, 0xbebfbc70, 0x5a2f5ea5);
    Op(x, 40, 0x21b117b9, 0x5a2f5ea5, 0x3575227e, 0x6e7429d5, 3, 13, 4, 0x289b7ec6, 0x11de1779);
    Op(x, 41, 0x6e7429d5, 0x11de1779, 0x5a2f5ea5, 0x3575227e, 3, 0, 11, 0xeaa127fa, 0xfadcaa38);
    Op(x, 42, 0x3575227e, 0xfadcaa38, 0x11de1779, 0x5a2f5ea5, 3, 3, 16, 0xd4ef3085, 0x31c465ca);
    Op(x, 43, 0x5a2f5ea5, 0x31c465ca, 0xfadcaa38, 0x11de1779, 3, 6, 23, 0x04881d05, 0x4c6124f4);
    Op(x, 44, 0x11de1779, 0x4c6124f4, 0x31c465ca, 0xfadcaa38, 3, 9, 4, 0xd9d4d039, 0x7f2e507b);
    Op(x, 45, 0xfadcaa38, 0x7f2e507b, 0x4c6124f4, 0x31c465ca, 3, 12, 11, 0xe6db99e5, 0x99d9679d);
    Op(x, 46, 0x31c465ca, 0x99d9679d, 0x7f2e507b, 0x4c6124f4, 3, 15, 16, 0x1fa27cf8, 0x8fae6399);
    Op(x, 47, 0x4c6124f4, 0x8fae6399, 0x99d9679d, 0x7f2e507b, 3, 2, 23, 0xc4ac5665, 0x7beb9700);
  }

  lemma Round4(x: seq<bv32>)
    requires AbcWords(x) && Loop(INITIAL, x, 48) == Four(0x7f2e507b, 0x7beb9700, 0x8fae6399, 0x99d9679d)
    ensures Loop(INITIAL, x, 64) == Four(0x310ade8f, 0xc08226b3, 0xe484b9d8, 0x624d8cb2)
  {
    hide Loop, INITIAL, AbcWords, Given;
    GivenFrom48();
    GivenFrom56();
    Op(x, 48, 0x7f2e507b, 0x7beb9700, 0x8fae6399, 0x99d9679d, 4, 0, 6, 0xf4292244, 0x7b201df8);
    Op(x, 49, 0x99d9679d, 0x7b201df8, 0x7beb9700, 0x8fae6399, 4, 7, 10, 0x432aff97, 0xf4e8e96e);
    Op(x, 50, 0x8fae6399, 0xf4e8e96e, 0x7b201df8, 0x7beb9700, 4, 14, 15, 0xab9423a7, 0xb298cefd);
    Op(x, 51, 0x7beb9700, 0xb298cefd, 0xf4e8e96e, 0x7b201df8, 4, 5, 21, 0xfc93a039, 0x8bf025c4);
    Op(x, 52, 0x7b201df8, 0x8bf025c4, 0xb298cefd, 0xf4e8e96e, 4, 12, 6, 0x655b59c3, 0x06cc5e8a);
    Op(x, 53, 0xf4e8e96e, 0x06cc5e8a, 0x8bf025c4, 0xb298cefd, 4, 3, 10, 0x8f0ccc92, 0x5b0d97aa);
    Op(x, 54, 0xb298cefd, 0x5b0d97aa, 0x06cc5e8a, 0x8bf025c4, 4, 10, 15, 0xffeff47d, 0x7d632dd0);
    Op(x, 55, 0x8bf025c4, 0x7d632dd0, 0x5b0d97aa, 0x06cc5e8a, 4, 1, 21, 0x85845dd1, 0x3bfa2c27);
    Op(x, 56, 0x06cc5e8a, 0x3bfa2c27, 0x7d632dd0, 0x5b0d97aa, 4, 8, 6, 0x6fa87e4f, 0x7f81cc35);
    Op(x, 57, 0x5b0d97aa, 0x7f81cc35, 0x3bfa2c27, 0x7d632dd0, 4, 15, 10, 0xfe2ce6e0, 0x094454ab);
    Op(x, 58, 0x7d632dd0, 0x094454ab, 0x7f81cc35, 0x3bfa2c27, 4, 6, 15, 0xa3014314, 0x4f9dbe3f);
    Op(x, 59, 0x3bfa2c27, 0x4f9dbe3f, 0x094454ab, 0x7f81cc35, 4, 13, 21, 0x4e0811a1, 0x7327d604);
    Op(x, 60, 0x7f81cc35, 0x7327d604, 0x4f9dbe3f, 0x094454ab, 4, 4, 6, 0xf7537e82, 0x310ade8f);
    Op(x, 61, 0x094454ab, 0x310ade8f, 0x7327d604, 0x4f9dbe3f, 4, 11, 10, 0xbd3af235, 0x624d8cb2);
    Op(x, 62, 0x4f9dbe3f, 0x624d8cb2, 0x310ade8f, 0x7327d604, 4, 2, 15, 0x2ad7d2bb, 0xe484b9d8);
    Op(x, 63, 0x7327d604, 0xe484b9d8, 0x624d8cb2, 0x310ade8f, 4, 9, 21, 0xeb86d391, 0xc08226b3);
  }

  lemma LemmaDigest()
    ensures Encode(Plus(INITIAL, Four(0x310ade8f, 0xc08226b3, 0xe484b9d8, 0x624d8cb2))) == Published()
  {
  }

  function Published(): seq<Byte> {
    [0x90, 0x01, 0x50, 0x98, 0x3c, 0xd2, 0x4f, 0xb0, 0xd6, 0x96, 0x3f, 0x7d, 0x28, 0xe1, 0x7f, 0x72]
  }

  lemma DigestOfAbc()
    ensures Digest([0x61, 0x62, 0x63]) == Published()
  {
    hide LengthBytes, Block, Words, AbcWords, Loop, Encode, Plus, Published;
    LemmaPadded();
    LemmaWords();
    var x := Words(Block());
    LemmaNoOperation(INITIAL, x);
    Round1(x);
    Round2(x);
    Round3(x);
    Round4(x);
    LemmaDigest();
    assert Block()[..BLOCKSIZE] == Block() && Block()[BLOCKSIZE..] == [];
    assert Absorb(Compress, INITIAL, Block()) == Compress(INITIAL, Block());
  }
}
