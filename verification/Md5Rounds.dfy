/** MD5Transform (cdda2wav/md5c.c): the 64 operations written out with rotating roles of the four registers are the loop
    of section 3.4 of RFC 1321. */
module Md5Rounds {
  import opened Common
  import opened BlockHash

  /** F, G, H and I. */
  function Basic(n: nat, x: bv32, y: bv32, z: bv32): bv32 {
    if n == 1 then (x & y) | (!x & z)
    else if n == 2 then (x & z) | (y & !z)
    else if n == 3 then x ^ y ^ z
    else y ^ (x | !z)
  }

  /** ROTATE_LEFT. */
  function Rotate(x: bv32, n: bv32): bv32
    requires n <= 32
  {
    (x << n) | (x >> (32 - n))
  }

  /** One operation: a = b + ((a + F(b, c, d) + x + ac) rotated by s). */
  function Operation(n: nat, a: bv32, b: bv32, c: bv32, d: bv32, x: bv32, s: nat, ac: bv32): bv32
    requires s <= 32
  {
    Add(Rotate(a + (Basic(n, b, c, d) + x + ac), s as bv32), b)
  }

  // ----- the tables of RFC 1321, by the number i of the operation

  function Kind(i: nat): nat {
    if i < 16 then 1 else if i < 32 then 2 else if i < 48 then 3 else 4
  }

  /** Which word of the block operation i takes. */
  function Index(i: nat): nat {
    if i < 16 then i else if i < 32 then (5 * i + 1) % 16 else if i < 48 then (3 * i + 5) % 16 else 7 * i % 16
  }

  function Pick4(i: nat, a: nat, b: nat, c: nat, d: nat): nat {
    if i % 4 == 0 then a else if i % 4 == 1 then b else if i % 4 == 2 then c else d
  }

  function Shift(i: nat): (s: nat)
    ensures s <= 32
  {
    if i < 16 then Pick4(i, 7, 12, 17, 22)
    else if i < 32 then Pick4(i, 5, 9, 14, 20)
    else if i < 48 then Pick4(i, 4, 11, 16, 23)
    else Pick4(i, 6, 10, 15, 21)
  }

  /** The constants: the integer part of 2^32 times the absolute value of the sine of i + 1. */
  function Constant(i: nat): bv32 {
    if i < 4 then PickWord(i, 0xd76aa478, 0xe8c7b756, 0x242070db, 0xc1bdceee)
    else if i < 8 then PickWord(i, 0xf57c0faf, 0x4787c62a, 0xa8304613, 0xfd469501)
    else if i < 12 then PickWord(i, 0x698098d8, 0x8b44f7af, 0xffff5bb1, 0x895cd7be)
    else if i < 16 then PickWord(i, 0x6b901122, 0xfd987193, 0xa679438e, 0x49b40821)
    else if i < 20 then PickWord(i, 0xf61e2562, 0xc040b340, 0x265e5a51, 0xe9b6c7aa)
    else if i < 24 then PickWord(i, 0xd62f105d, 0x2441453, 0xd8a1e681, 0xe7d3fbc8)
    else if i < 28 then PickWord(i, 0x21e1cde6, 0xc33707d6, 0xf4d50d87, 0x455a14ed)
    else if i < 32 then PickWord(i, 0xa9e3e905, 0xfcefa3f8, 0x676f02d9, 0x8d2a4c8a)
    else if i < 36 then PickWord(i, 0xfffa3942, 0x8771f681, 0x6d9d6122, 0xfde5380c)
    else if i < 40 then PickWord(i, 0xa4beea44, 0x4bdecfa9, 0xf6bb4b60, 0xbebfbc70)
    else if i < 44 then PickWord(i, 0x289b7ec6, 0xeaa127fa, 0xd4ef3085, 0x4881d05)
    else if i < 48 then PickWord(i, 0xd9d4d039, 0xe6db99e5, 0x1fa27cf8, 0xc4ac5665)
    else if i < 52 then PickWord(i, 0xf4292244, 0x432aff97, 0xab9423a7, 0xfc93a039)
    else if i < 56 then PickWord(i, 0x655b59c3, 0x8f0ccc92, 0xffeff47d, 0x85845dd1)
    else if i < 60 then PickWord(i, 0x6fa87e4f, 0xfe2ce6e0, 0xa3014314, 0x4e0811a1)
    else PickWord(i, 0xf7537e82, 0xbd3af235, 0x2ad7d2bb, 0xeb86d391)
  }

  datatype Four = Four(a: bv32, b: bv32, c: bv32, d: bv32)

  /** Operation i of the loop: compute the new value and let the others move on. */
  function Step(v: Four, x: seq<bv32>, i: nat): Four
    requires |x| == 16
  {
    Four(v.d, Operation(Kind(i), v.a, v.b, v.c, v.d, x[Index(i)], Shift(i), Constant(i)), v.b, v.c)
  }

  function Loop(v: Four, x: seq<bv32>, k: nat): Four
    requires |x| == 16
  {
    if k == 0 then v else Step(Loop(v, x, k - 1), x, k - 1)
  }

  function LittleEndian(block: seq<Byte>, j: nat): bv32
    requires j + 4 <= |block|
  {
    (block[j] as bv32) | ((block[j + 1] as bv32) << 8) | ((block[j + 2] as bv32) << 16) | ((block[j + 3] as bv32) << 24)
  }

  function Words(block: seq<Byte>): (x: seq<bv32>)
    requires |block| == BLOCKSIZE
    ensures |x| == 16
  {
    seq(16, i requires 0 <= i < 16 => LittleEndian(block, 4 * i))
  }

  function Plus(v: Four, w: Four): Four {
    Four(Add(v.a, w.a), Add(v.b, w.b), Add(v.c, w.c), Add(v.d, w.d))
  }

  function Compress(state: Four, block: seq<Byte>): Four {
    if |block| == BLOCKSIZE then Plus(state, Loop(state, Words(block), 64)) else state
  }

  /** Decode. */
  method Decode(input: seq<Byte>) returns (output: array<bv32>)
    requires |input| == BLOCKSIZE
    ensures fresh(output) && output[..] == Words(input)
  {
    hide LittleEndian;
    output := new bv32[16](_ => 0);
    var i, j := 0, 0;
    while j < |input|
      invariant 0 <= i <= 16 && j == 4 * i
      invariant forall k | 0 <= k < i :: output[k] == LittleEndian(input, 4 * k)
    {
      output[i] := LittleEndian(input, j);
      i, j := i + 1, j + 4;
    }
  }

  // ----- the operations written out

  // After i, i + 4, i + 8, ... operations, these are the loop's four values.

  function After0(r: Four): Four { r }

  function After1(r: Four): Four { Four(r.d, r.a, r.b, r.c) }

  function After2(r: Four): Four { Four(r.c, r.d, r.a, r.b) }

  function After3(r: Four): Four { Four(r.b, r.c, r.d, r.a) }

  /** The arguments of operation i, as the code gives them. */
  ghost predicate Given(i: nat, n: nat, index: nat, s: nat, ac: bv32) {
    i < 64 && n == Kind(i) && index == Index(i) && s == Shift(i) && ac == Constant(i)
  }

  /** FF, GG, HH or II (a, b, c, d, x[index], s, ac). */
  method OnA(n: nat, r: Four, x: seq<bv32>, index: nat, s: nat, ac: bv32, ghost i: nat, ghost v: Four) returns (t: Four)
    requires |x| == 16 && index < 16 && s <= 32 && Given(i, n, index, s, ac) && After0(r) == Loop(v, x, i)
    ensures After1(t) == Loop(v, x, i + 1)
  {
    hide Operation, Constant, Shift, Index;
    t := r.(a := Operation(n, r.a, r.b, r.c, r.d, x[index], s, ac));
  }

  /** FF, GG, HH or II (d, a, b, c, x[index], s, ac). */
  method OnD(n: nat, r: Four, x: seq<bv32>, index: nat, s: nat, ac: bv32, ghost i: nat, ghost v: Four) returns (t: Four)
    requires |x| == 16 && index < 16 && s <= 32 && Given(i, n, index, s, ac) && After1(r) == Loop(v, x, i)
    ensures After2(t) == Loop(v, x, i + 1)
  {
    hide Operation, Constant, Shift, Index;
    t := r.(d := Operation(n, r.d, r.a, r.b, r.c, x[index], s, ac));
  }

  /** FF, GG, HH or II (c, d, a, b, x[index], s, ac). */
  method OnC(n: nat, r: Four, x: seq<bv32>, index: nat, s: nat, ac: bv32, ghost i: nat, ghost v: Four) returns (t: Four)
    requires |x| == 16 && index < 16 && s <= 32 && Given(i, n, index, s, ac) && After2(r) == Loop(v, x, i)
    ensures After3(t) == Loop(v, x, i + 1)
  {
    hide Operation, Constant, Shift, Index;
    t := r.(c := Operation(n, r.c, r.d, r.a, r.b, x[index], s, ac));
  }

  /** FF, GG, HH or II (b, c, d, a, x[index], s, ac). */
  method OnB(n: nat, r: Four, x: seq<bv32>, index: nat, s: nat, ac: bv32, ghost i: nat, ghost v: Four) returns (t: Four)
    requires |x| == 16 && index < 16 && s <= 32 && Given(i, n, index, s, ac) && After3(r) == Loop(v, x, i)
    ensures After0(t) == Loop(v, x, i + 1)
  {
    hide Operation, Constant, Shift, Index;
    t := r.(b := Operation(n, r.b, r.c, r.d, r.a, x[index], s, ac));
  }

  lemma GivenFrom0()
    ensures Given(0, 1, 0, 7, 0xd76aa478)
    ensures Given(1, 1, 1, 12, 0xe8c7b756)
    ensures Given(2, 1, 2, 17, 0x242070db)
    ensures Given(3, 1, 3, 22, 0xc1bdceee)
    ensures Given(4, 1, 4, 7, 0xf57c0faf)
    ensures Given(5, 1, 5, 12, 0x4787c62a)
    ensures Given(6, 1, 6, 17, 0xa8304613)
    ensures Given(7, 1, 7, 22, 0xfd469501)
  {
  }

  lemma GivenFrom8()
    ensures Given(8, 1, 8, 7, 0x698098d8)
    ensures Given(9, 1, 9, 12, 0x8b44f7af)
    ensures Given(10, 1, 10, 17, 0xffff5bb1)
    ensures Given(11, 1, 11, 22, 0x895cd7be)
    ensures Given(12, 1, 12, 7, 0x6b901122)
    ensures Given(13, 1, 13, 12, 0xfd987193)
    ensures Given(14, 1, 14, 17, 0xa679438e)
    ensures Given(15, 1, 15, 22, 0x49b40821)
  {
  }

  method Round1(r: Four, x: seq<bv32>, ghost v: Four) returns (t: Four)
    requires |x| == 16 && r == Loop(v, x, 0)
    ensures t == Loop(v, x, 16)
  {
    hide Loop, Given, Operation;
    GivenFrom0();
    GivenFrom8();
    t := OnA(1, r, x, 0, 7, 0xd76aa478, 0, v);
    t := OnD(1, t, x, 1, 12, 0xe8c7b756, 1, v);
    t := OnC(1, t, x, 2, 17, 0x242070db, 2, v);
    t := OnB(1, t, x, 3, 22, 0xc1bdceee, 3, v);
    t := OnA(1, t, x, 4, 7, 0xf57c0faf, 4, v);
    t := OnD(1, t, x, 5, 12, 0x4787c62a, 5, v);
    t := OnC(1, t, x, 6, 17, 0xa8304613, 6, v);
    t := OnB(1, t, x, 7, 22, 0xfd469501, 7, v);
    t := OnA(1, t, x, 8, 7, 0x698098d8, 8, v);
    t := OnD(1, t, x, 9, 12, 0x8b44f7af, 9, v);
    t := OnC(1, t, x, 10, 17, 0xffff5bb1, 10, v);
    t := OnB(1, t, x, 11, 22, 0x895cd7be, 11, v);
    t := OnA(1, t, x, 12, 7, 0x6b901122, 12, v);
    t := OnD(1, t, x, 13, 12, 0xfd987193, 13, v);
    t := OnC(1, t, x, 14, 17, 0xa679438e, 14, v);
    t := OnB(1, t, x, 15, 22, 0x49b40821, 15, v);
  }

  lemma GivenFrom16()
    ensures Given(16, 2, 1, 5, 0xf61e2562)
    ensures Given(17, 2, 6, 9, 0xc040b340)
    ensures Given(18, 2, 11, 14, 0x265e5a51)
    ensures Given(19, 2, 0, 20, 0xe9b6c7aa)
    ensures Given(20, 2, 5, 5, 0xd62f105d)
    ensures Given(21, 2, 10, 9, 0x2441453)
    ensures Given(22, 2, 15, 14, 0xd8a1e681)
    ensures Given(23, 2, 4, 20, 0xe7d3fbc8)
  {
  }

  lemma GivenFrom24()
    ensures Given(24, 2, 9, 5, 0x21e1cde6)
    ensures Given(25, 2, 14, 9, 0xc33707d6)
    ensures Given(26, 2, 3, 14, 0xf4d50d87)
    ensures Given(27, 2, 8, 20, 0x455a14ed)
    ensures Given(28, 2, 13, 5, 0xa9e3e905)
    ensures Given(29, 2, 2, 9, 0xfcefa3f8)
    ensures Given(30, 2, 7, 14, 0x676f02d9)
    ensures Given(31, 2, 12, 20, 0x8d2a4c8a)
  {
  }

  method Round2(r: Four, x: seq<bv32>, ghost v: Four) returns (t: Four)
    requires |x| == 16 && r == Loop(v, x, 16)
    ensures t == Loop(v, x, 32)
  {
    hide Loop, Given, Operation;
    GivenFrom16();
    GivenFrom24();
    t := OnA(2, r, x, 1, 5, 0xf61e2562, 16, v);
    t := OnD(2, t, x, 6, 9, 0xc040b340, 17, v);
    t := OnC(2, t, x, 11, 14, 0x265e5a51, 18, v);
    t := OnB(2, t, x, 0, 20, 0xe9b6c7aa, 19, v);
    t := OnA(2, t, x, 5, 5, 0xd62f105d, 20, v);
    t := OnD(2, t, x, 10, 9, 0x2441453, 21, v);
    t := OnC(2, t, x, 15, 14, 0xd8a1e681, 22, v);
    t := OnB(2, t, x, 4, 20, 0xe7d3fbc8, 23, v);
    t := OnA(2, t, x, 9, 5, 0x21e1cde6, 24, v);
    t := OnD(2, t, x, 14, 9, 0xc33707d6, 25, v);
    t := OnC(2, t, x, 3, 14, 0xf4d50d87, 26, v);
    t := OnB(2, t, x, 8, 20, 0x455a14ed, 27, v);
    t := OnA(2, t, x, 13, 5, 0xa9e3e905, 28, v);
    t := OnD(2, t, x, 2, 9, 0xfcefa3f8, 29, v);
    t := OnC(2, t, x, 7, 14, 0x676f02d9, 30, v);
    t := OnB(2, t, x, 12, 20, 0x8d2a4c8a, 31, v);
  }

  lemma GivenFrom32()
    ensures Given(32, 3, 5, 4, 0xfffa3942)
    ensures Given(33, 3, 8, 11, 0x8771f681)
    ensures Given(34, 3, 11, 16, 0x6d9d6122)
    ensures Given(35, 3, 14, 23, 0xfde5380c)
    ensures Given(36, 3, 1, 4, 0xa4beea44)
    ensures Given(37, 3, 4, 11, 0x4bdecfa9)
    ensures Given(38, 3, 7, 16, 0xf6bb4b60)
    ensures Given(39, 3, 10, 23, 0xbebfbc70)
  {
  }

  lemma GivenFrom40()
    ensures Given(40, 3, 13, 4, 0x289b7ec6)
    ensures Given(41, 3, 0, 11, 0xeaa127fa)
    ensures Given(42, 3, 3, 16, 0xd4ef3085)
    ensures Given(43, 3, 6, 23, 0x4881d05)
    ensures Given(44, 3, 9, 4, 0xd9d4d039)
    ensures Given(45, 3, 12, 11, 0xe6db99e5)
    ensures Given(46, 3, 15, 16, 0x1fa27cf8)
    ensures Given(47, 3, 2, 23, 0xc4ac5665)
  {
  }

  method Round3(r: Four, x: seq<bv32>, ghost v: Four) returns (t: Four)
    requires |x| == 16 && r == Loop(v, x, 32)
    ensures t == Loop(v, x, 48)
  {
    hide Loop, Given, Operation;
    GivenFrom32();
    GivenFrom40();
    t := OnA(3, r, x, 5, 4, 0xfffa3942, 32, v);
    t := OnD(3, t, x, 8, 11, 0x8771f681, 33, v);
    t := OnC(3, t, x, 11, 16, 0x6d9d6122, 34, v);
    t := OnB(3, t, x, 14, 23, 0xfde5380c, 35, v);
    t := OnA(3, t, x, 1, 4, 0xa4beea44, 36, v);
    t := OnD(3, t, x, 4, 11, 0x4bdecfa9, 37, v);
    t := OnC(3, t, x, 7, 16, 0xf6bb4b60, 38, v);
    t := OnB(3, t, x, 10, 23, 0xbebfbc70, 39, v);
    t := OnA(3, t, x, 13, 4, 0x289b7ec6, 40, v);
    t := OnD(3, t, x, 0, 11, 0xeaa127fa, 41, v);
    t := OnC(3, t, x, 3, 16, 0xd4ef3085, 42, v);
    t := OnB(3, t, x, 6, 23, 0x4881d05, 43, v);
    t := OnA(3, t, x, 9, 4, 0xd9d4d039, 44, v);
    t := OnD(3, t, x, 12, 11, 0xe6db99e5, 45, v);
    t := OnC(3, t, x, 15, 16, 0x1fa27cf8, 46, v);
    t := OnB(3, t, x, 2, 23, 0xc4ac5665, 47, v);
  }

  lemma GivenFrom48()
    ensures Given(48, 4, 0, 6, 0xf4292244)
    ensures Given(49, 4, 7, 10, 0x432aff97)
    ensures Given(50, 4, 14, 15, 0xab9423a7)
    ensures Given(51, 4, 5, 21, 0xfc93a039)
    ensures Given(52, 4, 12, 6, 0x655b59c3)
    ensures Given(53, 4, 3, 10, 0x8f0ccc92)
    ensures Given(54, 4, 10, 15, 0xffeff47d)
    ensures Given(55, 4, 1, 21, 0x85845dd1)
  {
  }

  lemma GivenFrom56()
    ensures Given(56, 4, 8, 6, 0x6fa87e4f)
    ensures Given(57, 4, 15, 10, 0xfe2ce6e0)
    ensures Given(58, 4, 6, 15, 0xa3014314)
    ensures Given(59, 4, 13, 21, 0x4e0811a1)
    ensures Given(60, 4, 4, 6, 0xf7537e82)
    ensures Given(61, 4, 11, 10, 0xbd3af235)
    ensures Given(62, 4, 2, 15, 0x2ad7d2bb)
    ensures Given(63, 4, 9, 21, 0xeb86d391)
  {
  }

  method Round4(r: Four, x: seq<bv32>, ghost v: Four) returns (t: Four)
    requires |x| == 16 && r == Loop(v, x, 48)
    ensures t == Loop(v, x, 64)
  {
    hide Loop, Given, Operation;
    GivenFrom48();
    GivenFrom56();
    t := OnA(4, r, x, 0, 6, 0xf4292244, 48, v);
    t := OnD(4, t, x, 7, 10, 0x432aff97, 49, v);
    t := OnC(4, t, x, 14, 15, 0xab9423a7, 50, v);
    t := OnB(4, t, x, 5, 21, 0xfc93a039, 51, v);
    t := OnA(4, t, x, 12, 6, 0x655b59c3, 52, v);
    t := OnD(4, t, x, 3, 10, 0x8f0ccc92, 53, v);
    t := OnC(4, t, x, 10, 15, 0xffeff47d, 54, v);
    t := OnB(4, t, x, 1, 21, 0x85845dd1, 55, v);
    t := OnA(4, t, x, 8, 6, 0x6fa87e4f, 56, v);
    t := OnD(4, t, x, 15, 10, 0xfe2ce6e0, 57, v);
    t := OnC(4, t, x, 6, 15, 0xa3014314, 58, v);
    t := OnB(4, t, x, 13, 21, 0x4e0811a1, 59, v);
    t := OnA(4, t, x, 4, 6, 0xf7537e82, 60, v);
    t := OnD(4, t, x, 11, 10, 0xbd3af235, 61, v);
    t := OnC(4, t, x, 2, 15, 0x2ad7d2bb, 62, v);
    t := OnB(4, t, x, 9, 21, 0xeb86d391, 63, v);
  }

  /** MD5Transform. */
  method Transform(state: Four, block: seq<Byte>) returns (r: Four)
    requires |block| == BLOCKSIZE
    ensures r == Compress(state, block)
  {
    hide Loop, Add;
    var x := Decode(block);
    LemmaNoOperation(state, x[..]);
    var t := Round1(state, x[..], state);
    t := Round2(t, x[..], state);
    t := Round3(t, x[..], state);
    t := Round4(t, x[..], state);
    r := Four(Add(state.a, t.a), Add(state.b, t.b), Add(state.c, t.c), Add(state.d, t.d));
  }

  lemma LemmaNoOperation(v: Four, x: seq<bv32>)
    requires |x| == 16
    ensures Loop(v, x, 0) == v
  {
  }
}
