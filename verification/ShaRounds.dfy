/** sha_transform (cdda2wav/sha_func.c): the compression function of SHA-1, section 6.1 of RFC 3174. UNRAVEL runs the 80
    rounds over six registers whose roles rotate, so that no register is ever moved. */
module ShaRounds {
  import opened Common
  import opened BlockHash

  /** The f()-functions. */
  function F(n: nat, x: bv32, y: bv32, z: bv32): bv32 {
    if n == 1 then (x & y) | (!x & z)
    else if n == 2 then x ^ y ^ z
    else if n == 3 then (x & y) | (x & z) | (y & z)
    else x ^ y ^ z
  }

  /** Kind 1 takes the bits of y where x has ones, and those of z elsewhere. */
  lemma Chooses(x: bv32, y: bv32, z: bv32)
    ensures F(1, x, y, z) & x == y & x
    ensures F(1, x, y, z) & !x == z & !x
  {
  }

  /** Kinds 2 and 4 are parities. */
  lemma Parities(x: bv32, y: bv32, z: bv32)
    ensures F(2, x, y, z) ^ z == x ^ y
    ensures F(4, x, y, z) == F(2, x, y, z)
  {
  }

  /** Kind 3 is the majority: where two arguments agree, what they agree on. */
  lemma Majority(x: bv32, y: bv32, z: bv32)
    ensures (F(3, x, y, z) ^ x) & !(x ^ y) == 0
    ensures (F(3, x, y, z) ^ y) & !(y ^ z) == 0
    ensures (F(3, x, y, z) ^ z) & !(z ^ x) == 0
  {
  }

  /** CONST1 to CONST4. */
  function Const(n: nat): bv32 {
    if n == 1 then 0x5a827999 else if n == 2 then 0x6ed9eba1 else if n == 3 then 0x8f1bbcdc else 0xca62c1d6
  }

  /** 32-bit rotation to the left. */
  function R32(x: bv32, n: bv32): bv32
    requires n < 32
  {
    (x << n) | (x >> (32 - n))
  }

  /** The upper n bits come to the lower end, and the others move up by n places; for the rotations that occur. */
  lemma RotationBy1(x: bv32)
    ensures R32(x, 1) >> 1 == x & 0x7fffffff && R32(x, 1) & 0x1 == x >> 31
  {
  }

  lemma RotationBy5(x: bv32)
    ensures R32(x, 5) >> 5 == x & 0x07ffffff && R32(x, 5) & 0x1f == x >> 27
  {
  }

  lemma RotationBy30(x: bv32)
    ensures R32(x, 30) >> 30 == x & 0x3 && R32(x, 30) & 0x3fffffff == x >> 2
  {
  }

  /** The new value of a round: T32(R32(A,5) + f(B,C,D) + E + W + CONST). */
  function Mix(n: nat, a: bv32, b: bv32, c: bv32, d: bv32, e: bv32, w: bv32): bv32 {
    R32(a, 5) + F(n, b, c, d) + e + w + Const(n)
  }

  datatype Five = Five(a: bv32, b: bv32, c: bv32, d: bv32, e: bv32)

  /** The generic round FG. */
  function FG(n: nat, v: Five, w: bv32): Five {
    Five(Mix(n, v.a, v.b, v.c, v.d, v.e, w), v.a, R32(v.b, 30), v.c, v.d)
  }

  /** Twenty rounds of each kind. */
  function Kind(t: nat): nat {
    if t < 20 then 1 else if t < 40 then 2 else if t < 60 then 3 else 4
  }

  function Rounds(w: seq<bv32>, v: Five, k: nat): Five
    requires k <= |w|
  {
    if k == 0 then v else FG(Kind(k - 1), Rounds(w, v, k - 1), w[k - 1])
  }

  function BigEndian(block: seq<Byte>, dp: nat): bv32
    requires dp + 4 <= |block|
  {
    ((block[dp] as bv32) << 24) | ((block[dp + 1] as bv32) << 16)
    | ((block[dp + 2] as bv32) << 8) | (block[dp + 3] as bv32)
  }

  function Xor4(a: bv32, b: bv32, c: bv32, d: bv32): bv32 {
    a ^ b ^ c ^ d
  }

  /** The message schedule: sixteen big-endian words of the block, then the recurrence. */
  function Word(block: seq<Byte>, t: nat): bv32
    requires |block| == BLOCKSIZE
  {
    if t < 16 then BigEndian(block, 4 * t)
    else R32(Xor4(Word(block, t - 3), Word(block, t - 8), Word(block, t - 14), Word(block, t - 16)), 1)
  }

  function Schedule(block: seq<Byte>): (w: seq<bv32>)
    requires |block| == BLOCKSIZE
    ensures |w| == 80
  {
    seq(80, t requires 0 <= t => Word(block, t))
  }

  function Plus(x: Five, y: Five): Five {
    Five(Add(x.a, y.a), Add(x.b, y.b), Add(x.c, y.c), Add(x.d, y.d), Add(x.e, y.e))
  }

  /** One block: add the result of 80 rounds to the chaining value. */
  function Compress(digest: Five, block: seq<Byte>): Five {
    if |block| == BLOCKSIZE then Plus(digest, Rounds(Schedule(block), digest, 80)) else digest
  }

  // ----- the schedule

  /** A word as a little-endian machine loads it, with its bytes swapped back. */
  method LoadWord(block: seq<Byte>, dp: nat) returns (w: bv32)
    requires dp + 4 <= |block|
    ensures w == BigEndian(block, dp)
  {
    var t := (block[dp] as bv32) | ((block[dp + 1] as bv32) << 8)
             | ((block[dp + 2] as bv32) << 16) | ((block[dp + 3] as bv32) << 24);
    w := ((t << 24) & 0xff000000) | ((t << 8) & 0x00ff0000) | ((t >> 8) & 0x0000ff00) | ((t >> 24) & 0x000000ff);
  }

  method ComputeSchedule(block: seq<Byte>) returns (w: array<bv32>)
    requires |block| == BLOCKSIZE
    ensures fresh(w) && w[..] == Schedule(block)
  {
    hide R32, Xor4, BigEndian;
    w := new bv32[80](_ => 0);
    for i := 0 to 16
      invariant forall t: nat | t < i :: w[t] == Word(block, t)
    {
      w[i] := LoadWord(block, 4 * i);
    }
    for i := 16 to 80
      invariant forall t: nat | t < i :: w[t] == Word(block, t)
    {
      w[i] := R32(Xor4(w[i - 3], w[i - 8], w[i - 14], w[i - 16]), 1);
    }
  }

  // ----- the unravelled rounds

  /** The six registers. */
  datatype Regs = Regs(T: bv32, A: bv32, B: bv32, C: bv32, D: bv32, E: bv32) {
    // After i, i + 6, i + 12, ... rounds, these registers play the roles of A to E in the generic round.
    function After0(): Five { Five(A, B, C, D, E) }
    function After1(): Five { Five(T, A, B, C, D) }
    function After2(): Five { Five(E, T, A, B, C) }
    function After3(): Five { Five(D, E, T, A, B) }
    function After4(): Five { Five(C, D, E, T, A) }
    function After5(): Five { Five(B, C, D, E, T) }
  }

  /** W[wp] is the word of the next round, and the round is of kind n. */
  ghost predicate Next(w: seq<bv32>, wp: nat, n: nat) {
    |w| == 80 && wp < 80 && n == Kind(wp)
  }

  method FA(n: nat, r: Regs, w: seq<bv32>, wp: nat, ghost v: Five) returns (s: Regs)
    requires Next(w, wp, n) && r.After0() == Rounds(w, v, wp)
    ensures s.After1() == Rounds(w, v, wp + 1)
  {
    hide R32, Mix;
    s := r.(T := Mix(n, r.A, r.B, r.C, r.D, r.E, w[wp]), B := R32(r.B, 30));
  }

  method FB(n: nat, r: Regs, w: seq<bv32>, wp: nat, ghost v: Five) returns (s: Regs)
    requires Next(w, wp, n) && r.After1() == Rounds(w, v, wp)
    ensures s.After2() == Rounds(w, v, wp + 1)
  {
    hide R32, Mix;
    s := r.(E := Mix(n, r.T, r.A, r.B, r.C, r.D, w[wp]), A := R32(r.A, 30));
  }

  method FC(n: nat, r: Regs, w: seq<bv32>, wp: nat, ghost v: Five) returns (s: Regs)
    requires Next(w, wp, n) && r.After2() == Rounds(w, v, wp)
    ensures s.After3() == Rounds(w, v, wp + 1)
  {
    hide R32, Mix;
    s := r.(D := Mix(n, r.E, r.T, r.A, r.B, r.C, w[wp]), T := R32(r.T, 30));
  }

  method FD(n: nat, r: Regs, w: seq<bv32>, wp: nat, ghost v: Five) returns (s: Regs)
    requires Next(w, wp, n) && r.After3() == Rounds(w, v, wp)
    ensures s.After4() == Rounds(w, v, wp + 1)
  {
    hide R32, Mix;
    s := r.(C := Mix(n, r.D, r.E, r.T, r.A, r.B, w[wp]), E := R32(r.E, 30));
  }

  method FE(n: nat, r: Regs, w: seq<bv32>, wp: nat, ghost v: Five) returns (s: Regs)
    requires Next(w, wp, n) && r.After4() == Rounds(w, v, wp)
    ensures s.After5() == Rounds(w, v, wp + 1)
  {
    hide R32, Mix;
    s := r.(B := Mix(n, r.C, r.D, r.E, r.T, r.A, w[wp]), D := R32(r.D, 30));
  }

  method FT(n: nat, r: Regs, w: seq<bv32>, wp: nat, ghost v: Five) returns (s: Regs)
    requires Next(w, wp, n) && r.After5() == Rounds(w, v, wp)
    ensures s.After0() == Rounds(w, v, wp + 1)
  {
    hide R32, Mix;
    s := r.(A := Mix(n, r.B, r.C, r.D, r.E, r.T, w[wp]), C := R32(r.C, 30));
  }

  method Rounds1(r: Regs, w: seq<bv32>, ghost v: Five) returns (s: Regs)
    requires |w| == 80 && r.After0() == Rounds(w, v, 0)
    ensures s.After2() == Rounds(w, v, 20)
  {
    hide Rounds, Mix, R32;
    s := FA(1, r, w, 0, v); s := FB(1, s, w, 1, v); s := FC(1, s, w, 2, v);
    s := FD(1, s, w, 3, v); s := FE(1, s, w, 4, v); s := FT(1, s, w, 5, v);
    s := FA(1, s, w, 6, v); s := FB(1, s, w, 7, v); s := FC(1, s, w, 8, v);
    s := FD(1, s, w, 9, v); s := FE(1, s, w, 10, v); s := FT(1, s, w, 11, v);
    s := FA(1, s, w, 12, v); s := FB(1, s, w, 13, v); s := FC(1, s, w, 14, v);
    s := FD(1, s, w, 15, v); s := FE(1, s, w, 16, v); s := FT(1, s, w, 17, v);
    s := FA(1, s, w, 18, v); s := FB(1, s, w, 19, v);
  }

  method Rounds2(r: Regs, w: seq<bv32>, ghost v: Five) returns (s: Regs)
    requires |w| == 80 && r.After2() == Rounds(w, v, 20)
    ensures s.After4() == Rounds(w, v, 40)
  {
    hide Rounds, Mix, R32;
    s := FC(2, r, w, 20, v); s := FD(2, s, w, 21, v); s := FE(2, s, w, 22, v);
    s := FT(2, s, w, 23, v); s := FA(2, s, w, 24, v); s := FB(2, s, w, 25, v);
    s := FC(2, s, w, 26, v); s := FD(2, s, w, 27, v); s := FE(2, s, w, 28, v);
    s := FT(2, s, w, 29, v); s := FA(2, s, w, 30, v); s := FB(2, s, w, 31, v);
    s := FC(2, s, w, 32, v); s := FD(2, s, w, 33, v); s := FE(2, s, w, 34, v);
    s := FT(2, s, w, 35, v); s := FA(2, s, w, 36, v); s := FB(2, s, w, 37, v);
    s := FC(2, s, w, 38, v); s := FD(2, s, w, 39, v);
  }

  method Rounds3(r: Regs, w: seq<bv32>, ghost v: Five) returns (s: Regs)
    requires |w| == 80 && r.After4() == Rounds(w, v, 40)
    ensures s.After0() == Rounds(w, v, 60)
  {
    hide Rounds, Mix, R32;
    s := FE(3, r, w, 40, v); s := FT(3, s, w, 41, v); s := FA(3, s, w, 42, v);
    s := FB(3, s, w, 43, v); s := FC(3, s, w, 44, v); s := FD(3, s, w, 45, v);
    s := FE(3, s, w, 46, v); s := FT(3, s, w, 47, v); s := FA(3, s, w, 48, v);
    s := FB(3, s, w, 49, v); s := FC(3, s, w, 50, v); s := FD(3, s, w, 51, v);
    s := FE(3, s, w, 52, v); s := FT(3, s, w, 53, v); s := FA(3, s, w, 54, v);
    s := FB(3, s, w, 55, v); s := FC(3, s, w, 56, v); s := FD(3, s, w, 57, v);
    s := FE(3, s, w, 58, v); s := FT(3, s, w, 59, v);
  }

  method Rounds4(r: Regs, w: seq<bv32>, ghost v: Five) returns (s: Regs)
    requires |w| == 80 && r.After0() == Rounds(w, v, 60)
    ensures s.After2() == Rounds(w, v, 80)
  {
    hide Rounds, Mix, R32;
    s := FA(4, r, w, 60, v); s := FB(4, s, w, 61, v); s := FC(4, s, w, 62, v);
    s := FD(4, s, w, 63, v); s := FE(4, s, w, 64, v); s := FT(4, s, w, 65, v);
    s := FA(4, s, w, 66, v); s := FB(4, s, w, 67, v); s := FC(4, s, w, 68, v);
    s := FD(4, s, w, 69, v); s := FE(4, s, w, 70, v); s := FT(4, s, w, 71, v);
    s := FA(4, s, w, 72, v); s := FB(4, s, w, 73, v); s := FC(4, s, w, 74, v);
    s := FD(4, s, w, 75, v); s := FE(4, s, w, 76, v); s := FT(4, s, w, 77, v);
    s := FA(4, s, w, 78, v); s := FB(4, s, w, 79, v);
  }

  /** sha_transform with UNRAVEL. */
  method Transform(digest: Five, block: seq<Byte>) returns (r: Five)
    requires |block| == BLOCKSIZE
    ensures r == Compress(digest, block)
  {
    hide R32, Mix, Add, FG;
    var w := ComputeSchedule(block);
    var regs := Regs(0, digest.a, digest.b, digest.c, digest.d, digest.e);
    regs := Rounds1(regs, w[..], digest);
    regs := Rounds2(regs, w[..], digest);
    regs := Rounds3(regs, w[..], digest);
    regs := Rounds4(regs, w[..], digest);
    r := Five(Add(digest.a, regs.E), Add(digest.b, regs.T), Add(digest.c, regs.A),
              Add(digest.d, regs.B), Add(digest.e, regs.C));
  }

  /** sha_transform without UNRAVEL: the same function of digest and block. */
  method TransformPlain(digest: Five, block: seq<Byte>) returns (r: Five)
    requires |block| == BLOCKSIZE
    ensures r == Compress(digest, block)
  {
    hide FG, Word;
    var w := ComputeSchedule(block);
    var v := digest;
    for i := 0 to 20
      invariant v == Rounds(w[..], digest, i)
    {
      v := FG(1, v, w[i]);
    }
    for i := 20 to 40
      invariant v == Rounds(w[..], digest, i)
    {
      v := FG(2, v, w[i]);
    }
    for i := 40 to 60
      invariant v == Rounds(w[..], digest, i)
    {
      v := FG(3, v, w[i]);
    }
    for i := 60 to 80
      invariant v == Rounds(w[..], digest, i)
    {
      v := FG(4, v, w[i]);
    }
    r := Plus(digest, v);
  }
}
