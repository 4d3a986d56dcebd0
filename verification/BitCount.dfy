/** A 64-bit count of bits kept in two 32-bit words. */
module BitCount {
  import opened Arith
  import opened Common

  const M32 := 0x1_0000_0000
  const M64 := 0x1_0000_0000_0000_0000

  /** The low byte of n / shift, as C's shifts and masks take it. */
  function ByteOf(n: nat, shift: nat): bv8
    requires shift > 0
  {
    (n / shift % 256) as bv8
  }

  /** The number that four bytes make, the least significant first. */
  function Number(b0: bv8, b1: bv8, b2: bv8, b3: bv8): nat {
    b0 as nat + 0x100 * b1 as nat + 0x1_0000 * b2 as nat + 0x100_0000 * b3 as nat
  }

  lemma LemmaByteOf(n: nat, shift: nat)
    requires shift > 0
    ensures ByteOf(n, shift) as nat == n / shift % 256
  {
    var m := n / shift % 256;
    LemmaConvert(m, m % 256);
  }

  lemma LemmaDigits(n: nat)
    requires n < M32
    ensures n % 256 + 0x100 * (n / 0x100 % 256) + 0x1_0000 * (n / 0x1_0000 % 256) + 0x100_0000 * (n / 0x100_0000 % 256) == n
  {
    var q1, r1 := n / 256, n % 256;
    var q2, r2 := q1 / 256, q1 % 256;
    var q3, r3 := q2 / 256, q2 % 256;
    LemmaDivModUnique(n, 0x1_0000, q2, 256 * r2 + r1);
    LemmaDivModUnique(n, 0x100_0000, q3, 0x1_0000 * r3 + 256 * r2 + r1);
  }

  /** The four bytes of a word make that word. */
  lemma BytesMakeTheWord(n: nat)
    requires n < M32
    ensures Number(ByteOf(n, 1), ByteOf(n, 0x100), ByteOf(n, 0x1_0000), ByteOf(n, 0x100_0000)) == n
  {
    LemmaDigits(n);
    hide ByteOf;
    LemmaByteOf(n, 1);
    LemmaByteOf(n, 0x100);
    LemmaByteOf(n, 0x1_0000);
    LemmaByteOf(n, 0x100_0000);
  }

  lemma LemmaLowByte(n: nat)
    requires n < 256
    ensures ByteOf(n, 1) as nat == n
  {
    hide ByteOf;
    LemmaByteOf(n, 1);
  }

  lemma LemmaNoByte(n: nat, shift: nat)
    requires n < shift
    ensures ByteOf(n, shift) == 0
  {
    hide ByteOf;
    LemmaByteOf(n, shift);
    LemmaDivModUnique(n, shift, 0, n);
  }

  /** Counting `count` bytes: the sum of the low words, its carry, and the high part of 8 * count. The carry shows as a
      sum below either summand. */
  lemma LemmaCount(lo: nat, hi: nat, count: nat, bits: nat, clo: nat, chi: nat)
    requires lo < M32 && hi < M32 && hi * M32 + lo == bits % M64 && count < M32
    requires clo == (lo + 8 * count % M32) % M32
    requires chi == ((if clo < lo then (hi + 1) % M32 else hi) + count / 0x2000_0000) % M32
    ensures clo < M32 && chi < M32 && chi * M32 + clo == (bits + 8 * count) % M64
    ensures clo < lo <==> clo < 8 * count % M32
  {
    LemmaSplitCount(count);
    var wrap := LemmaCarry(lo, hi, count / 0x2000_0000, 8 * count % M32, clo, chi);
    assert bits + 8 * count == (bits / M64 + wrap) * M64 + (chi * M32 + clo);
    LemmaDivModUnique(bits + 8 * count, M64, bits / M64 + wrap, chi * M32 + clo);
  }

  /** Adding q * 2^32 + r in two 32-bit words. */
  lemma LemmaCarry(lo: nat, hi: nat, q: nat, r: nat, clo: nat, chi: nat) returns (wrap: nat)
    requires lo < M32 && hi < M32 && q < 8 && r < M32
    requires clo == (lo + r) % M32 && chi == ((if clo < lo then (hi + 1) % M32 else hi) + q) % M32
    ensures clo < M32 && chi < M32
    ensures hi * M32 + lo + q * M32 + r == wrap * M64 + chi * M32 + clo
    ensures clo < lo <==> clo < r
  {
    var carry := if lo + r < M32 then 0 else 1;
    assert clo == lo + r - carry * M32;
    var sum := hi + carry + q;
    wrap := if sum < M32 then 0 else 1;
    assert chi == sum - wrap * M32;
  }

  lemma LemmaSplitCount(count: nat)
    requires count < M32
    ensures 8 * count == count / 0x2000_0000 * M32 + 8 * count % M32
  {
    var q, m := count / 0x2000_0000, count % 0x2000_0000;
    assert 8 * count == q * M32 + 8 * m;
    LemmaDivModUnique(8 * count, M32, q, 8 * m);
  }

  /** The byte count modulo 64, from the low counter. */
  lemma LemmaByteCount(n: nat, lo: nat, hi: nat)
    requires lo < M32 && hi < M32 && hi * M32 + lo == 8 * n % M64
    ensures lo / 8 % 64 == n % 64
  {
    var k := 8 * n / M64;
    assert 8 * n == k * M64 + hi * M32 + lo;
    var m := n - k * 0x2000_0000_0000_0000 - hi * 0x2000_0000;
    assert lo == 8 * m;
    LemmaModShift(m, k * 0x80_0000_0000_0000 + hi * 0x80_0000);
  }

  lemma LemmaModShift(m: nat, j: nat)
    ensures (m + 64 * j) % 64 == m % 64
  {
  }
}
