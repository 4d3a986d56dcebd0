/** Hashing a message block by block: what SHA-1 and MD5 share. */
module BlockHash {
  import opened Common

  const BLOCKSIZE := 64

  /** The state after all complete blocks of msg, from left to right. */
  function Absorb<S>(compress: (S, seq<Byte>) -> S, s: S, msg: seq<Byte>): S {
    if |msg| < BLOCKSIZE then s
    else Absorb(compress, compress(s, msg[..BLOCKSIZE]), msg[BLOCKSIZE..])
  }

  /** The bytes after the last complete block. */
  function Tail(msg: seq<Byte>): (t: seq<Byte>)
    ensures |t| == |msg| % BLOCKSIZE
  {
    msg[|msg| / BLOCKSIZE * BLOCKSIZE..]
  }

  /** How many zeros follow the one bit: up to 8 bytes before the end of this block or of the next. */
  function PadZeros(c: nat): nat
    requires c < BLOCKSIZE
  {
    if c < 56 then 55 - c else 119 - c
  }

  /** Padding: a one bit, zeros up to 8 bytes before the end of a block, and the length in these 8 bytes. */
  function Pad(msg: seq<Byte>, length: seq<Byte>): seq<Byte> {
    msg + [0x80] + Zeros(PadZeros(|msg| % BLOCKSIZE)) + length
  }

  lemma PaddedIsWholeBlocks(msg: seq<Byte>, length: seq<Byte>)
    requires |length| == 8
    ensures |Pad(msg, length)| % BLOCKSIZE == 0
  {
    var c := |msg| % BLOCKSIZE;
    var q := |msg| / BLOCKSIZE;
    assert |msg| == 64 * q + c;
    assert |Pad(msg, length)| == if c < 56 then 64 * (q + 1) else 64 * (q + 2);
  }

  lemma LemmaAligned(a: nat, r: nat)
    requires a % BLOCKSIZE == 0 && r < BLOCKSIZE
    ensures (a + r) % BLOCKSIZE == r
  {
    var q := a / BLOCKSIZE;
    assert a + r == 64 * q + r;
  }

  lemma {:induction false} AbsorbAppend<S>(f: (S, seq<Byte>) -> S, s: S, a: seq<Byte>, b: seq<Byte>)
    ensures Absorb(f, s, a + b) == Absorb(f, Absorb(f, s, a), Tail(a) + b)
    decreases |a|
  {
    if |a| < BLOCKSIZE {
      assert Tail(a) == a;
    } else {
      assert (a + b)[..BLOCKSIZE] == a[..BLOCKSIZE];
      assert (a + b)[BLOCKSIZE..] == a[BLOCKSIZE..] + b;
      AbsorbAppend(f, f(s, a[..BLOCKSIZE]), a[BLOCKSIZE..], b);
      LemmaTailDrop(a);
    }
  }

  lemma LemmaTailDrop(a: seq<Byte>)
    requires |a| >= BLOCKSIZE
    ensures Tail(a[BLOCKSIZE..]) == Tail(a)
  {
    var n := |a|;
    assert (n - 64) / 64 == n / 64 - 1;
    assert a[64..][(n - 64) / 64 * 64..] == a[n / 64 * 64..];
  }

  lemma LemmaTailAppend(a: seq<Byte>, b: seq<Byte>)
    ensures Tail(a + b) == Tail(Tail(a) + b)
  {
    var n, q := |a|, |a| / 64 * 64;
    var m := |Tail(a) + b|;
    assert (n + |b|) / 64 * 64 == q + m / 64 * 64;
    assert (a + b)[q..] == Tail(a) + b;
    assert (a + b)[q + m / 64 * 64..] == (a + b)[q..][m / 64 * 64..];
  }

  /** A call that does not complete the buffered block only buffers. */
  lemma AbsorbShort<S>(f: (S, seq<Byte>) -> S, s: S, msg: seq<Byte>, b: seq<Byte>)
    requires |msg| % BLOCKSIZE + |b| < BLOCKSIZE
    ensures Absorb(f, s, msg + b) == Absorb(f, s, msg)
    ensures Tail(msg + b) == Tail(msg) + b
  {
    hide Tail;
    AbsorbAppend(f, s, msg, b);
    LemmaTailAppend(msg, b);
    LemmaNoBlock(Tail(msg) + b);
  }

  lemma LemmaNoBlock(t: seq<Byte>)
    requires |t| < BLOCKSIZE
    ensures Tail(t) == t
  {
  }

  /** Completing the buffered block runs the compression once and empties the buffer. */
  lemma AbsorbBlock<S>(f: (S, seq<Byte>) -> S, s: S, msg: seq<Byte>, b: seq<Byte>)
    requires |msg| % BLOCKSIZE + |b| == BLOCKSIZE
    ensures Absorb(f, s, msg + b) == f(Absorb(f, s, msg), Tail(msg) + b)
    ensures Tail(msg + b) == [] && |msg + b| % BLOCKSIZE == 0
  {
    AbsorbAppend(f, s, msg, b);
    LemmaTailAppend(msg, b);
    var t := Tail(msg) + b;
    assert t[..64] == t && t[64..] == [];
    assert |t| / 64 * 64 == 64;
  }

  /** Padding that fits into the buffered block. */
  lemma PadInOneBlock<S>(f: (S, seq<Byte>) -> S, s: S, msg: seq<Byte>, length: seq<Byte>, c: nat)
    requires |length| == 8 && c == |msg| % BLOCKSIZE && c < 56
    ensures Absorb(f, s, Pad(msg, length)) == f(Absorb(f, s, msg), Tail(msg) + [0x80] + Zeros(55 - c) + length)
  {
    hide Absorb, Tail;
    var b := [0x80] + Zeros(55 - c) + length;
    assert Pad(msg, length) == msg + b;
    AbsorbBlock(f, s, msg, b);
    assert Tail(msg) + b == Tail(msg) + [0x80] + Zeros(55 - c) + length;
  }

  /** Padding that needs one more block. */
  lemma PadInTwoBlocks<S>(f: (S, seq<Byte>) -> S, s: S, msg: seq<Byte>, length: seq<Byte>, c: nat)
    requires |length| == 8 && c == |msg| % BLOCKSIZE && c >= 56
    ensures Absorb(f, s, Pad(msg, length))
            == f(f(Absorb(f, s, msg), Tail(msg) + [0x80] + Zeros(63 - c)), Zeros(56) + length)
  {
    hide Absorb, Tail;
    var b1, b2 := [0x80] + Zeros(63 - c), Zeros(56) + length;
    assert Zeros(119 - c) == Zeros(63 - c) + Zeros(56);
    assert Pad(msg, length) == (msg + b1) + b2;
    AbsorbBlock(f, s, msg, b1);
    AbsorbBlock(f, s, msg + b1, b2);
    assert Tail(msg) + b1 == Tail(msg) + [0x80] + Zeros(63 - c);
    assert Tail(msg + b1) + b2 == b2;
  }

  ghost predicate Aligned(msg: seq<Byte>) {
    |msg| % BLOCKSIZE == 0
  }

  /** From a block boundary on, one whole block of what is added. */
  lemma AbsorbNext<S>(f: (S, seq<Byte>) -> S, s: S, before: seq<Byte>, added: seq<Byte>, pos: nat)
    requires pos + BLOCKSIZE <= |added| && Aligned(before + added[..pos])
    ensures Aligned(before + added[..pos + BLOCKSIZE])
    ensures Absorb(f, s, before + added[..pos + BLOCKSIZE])
            == f(Absorb(f, s, before + added[..pos]), added[pos..pos + BLOCKSIZE])
  {
    hide Absorb, Tail;
    var a, b := before + added[..pos], added[pos..pos + BLOCKSIZE];
    assert before + added[..pos + BLOCKSIZE] == a + b;
    AbsorbBlock(f, s, a, b);
    assert Tail(a) == [];
    assert [] + b == b;
  }

  /** From a block boundary on, what does not fill a block is buffered. */
  lemma AbsorbRest<S>(f: (S, seq<Byte>) -> S, s: S, before: seq<Byte>, added: seq<Byte>, pos: nat)
    requires pos <= |added| && Aligned(before + added[..pos]) && |added| - pos < BLOCKSIZE
    ensures Absorb(f, s, before + added) == Absorb(f, s, before + added[..pos])
    ensures Tail(before + added) == added[pos..] && |before + added| % BLOCKSIZE == |added| - pos
  {
    hide Absorb, Tail;
    var a, b := before + added[..pos], added[pos..];
    assert before + added == a + b;
    LemmaAligned(|a|, |b|);
    AbsorbShort(f, s, a, b);
    assert Tail(a) == [];
  }
}
