/** sha_init, sha_update and sha_final (cdda2wav/sha_func.c): however a message is cut into calls, the digest is that of
    the padded message, sections 4 and 6.1 of RFC 3174. */
module Sha1 {
  import opened Arith
  import opened Common
  import opened BitCount
  import opened BlockHash
  import opened ShaRounds

  const INITIAL := Five(0x67452301, 0xefcdab89, 0x98badcfe, 0x10325476, 0xc3d2e1f0)

  /** The message length in bits, modulo 2^64, big-endian. */
  function LengthBytes(bits: nat): (b: seq<Byte>)
    ensures |b| == 8
  {
    var hi, lo := bits % M64 / M32, bits % M64 % M32;
    [ByteOf(hi, 0x100_0000), ByteOf(hi, 0x1_0000), ByteOf(hi, 0x100), ByteOf(hi, 1),
     ByteOf(lo, 0x100_0000), ByteOf(lo, 0x1_0000), ByteOf(lo, 0x100), ByteOf(lo, 1)]
  }

  /** The eight bytes make the number of bits, the most significant first. */
  lemma LengthReadsBack(bits: nat)
    ensures var b := LengthBytes(bits);
            Number(b[7], b[6], b[5], b[4]) + M32 * Number(b[3], b[2], b[1], b[0]) == bits % M64
  {
    hide ByteOf, Number;
    BytesMakeTheWord(bits % M64 % M32);
    BytesMakeTheWord(bits % M64 / M32);
  }

  function WordBytes(w: bv32): (b: seq<Byte>)
    ensures |b| == 4
  {
    [((w >> 24) & 0xff) as bv8, ((w >> 16) & 0xff) as bv8, ((w >> 8) & 0xff) as bv8, (w & 0xff) as bv8]
  }

  function DigestBytes(d: Five): (b: seq<Byte>)
    ensures |b| == 20
  {
    WordBytes(d.a) + WordBytes(d.b) + WordBytes(d.c) + WordBytes(d.d) + WordBytes(d.e)
  }

  /** SHA-1 of a whole message at once. */
  function Digest(msg: seq<Byte>): seq<Byte> {
    DigestBytes(Absorb(Compress, INITIAL, Pad(msg, LengthBytes(8 * |msg|))))
  }

  /** SHA_INFO, on a machine with a 32-bit ULONG; message is everything updated so far. */
  class ShaInfo {
    var digest: Five
    var countLo: nat
    var countHi: nat
    var data: array<Byte>
    var local: nat
    ghost var message: seq<Byte>

    ghost predicate Valid()
      reads this, data
    {
      && data.Length == BLOCKSIZE
      && local == |message| % BLOCKSIZE
      && data[..local] == Tail(message)
      && digest == Absorb(Compress, INITIAL, message)
      && countLo < M32 && countHi < M32 && countHi * M32 + countLo == 8 * |message| % M64
    }

    /** sha_init. */
    constructor ()
      ensures Valid() && message == [] && fresh(data)
    {
      hide Compress, Absorb, Tail;
      LemmaNothing();
      digest := INITIAL;
      countLo, countHi, local, message := 0, 0, 0, [];
      data := new Byte[BLOCKSIZE](_ => 0);
    }

    /** memcpy into the block buffer. */
    method Copy(at: nat, bytes: seq<Byte>)
      requires data.Length == BLOCKSIZE && at + |bytes| <= BLOCKSIZE
      modifies data
      ensures data[..] == old(data[..at]) + bytes + old(data[at + |bytes|..])
    {
      for i := 0 to |bytes|
        invariant forall k | 0 <= k < BLOCKSIZE ::
                    data[k] == if at <= k < at + i then bytes[k - at] else old(data[k])
      {
        data[at + i] := bytes[i];
      }
    }

    /** The bit counters: the sum and its carry in 32-bit arithmetic. */
    method Count(count: nat, ghost bits: nat)
      requires countLo < M32 && countHi < M32 && countHi * M32 + countLo == bits % M64 && count < 0x8000_0000
      modifies `countLo, `countHi
      ensures countLo < M32 && countHi < M32 && countHi * M32 + countLo == (bits + 8 * count) % M64
    {
      var clo := (countLo + 8 * count % M32) % M32;
      var chi := if clo < countLo then (countHi + 1) % M32 else countHi;
      chi := (chi + count / 0x2000_0000) % M32;
      LemmaCount(countLo, countHi, count, bits, clo, chi);
      countLo, countHi := clo, chi;
    }

    /** Buffer and chaining value are those of msg. */
    ghost predicate Buffers(msg: seq<Byte>)
      reads this, data
    {
      && data.Length == BLOCKSIZE
      && local == |msg| % BLOCKSIZE
      && data[..local] == Tail(msg)
      && digest == Absorb(Compress, INITIAL, msg)
    }

    /** sha_update. */
    method Update(buffer: seq<Byte>)
      requires Valid() && |buffer| < 0x8000_0000
      modifies this, data
      ensures Valid() && message == old(message) + buffer && data == old(data)
    {
      hide Compress, Absorb, Tail;
      ghost var before := message;
      Count(|buffer|, 8 * |message|);
      message := message + buffer;
      var pos := 0;
      if local != 0 {
        pos := Complete(buffer, before);
        if local != BLOCKSIZE {
          return;
        }
      }
      assert before + buffer[..0] == before;
      Blocks(buffer, pos, before);
    }

    /** sha_update with a partly filled block: fill it up as far as the bytes go, and transform it when it is full. */
    method Complete(buffer: seq<Byte>, ghost before: seq<Byte>) returns (i: nat)
      requires Buffers(before) && local != 0
      modifies `digest, `local, data
      ensures i <= |buffer| && data.Length == BLOCKSIZE
      ensures local == BLOCKSIZE ==>
                && Aligned(before + buffer[..i])
                && digest == Absorb(Compress, INITIAL, before + buffer[..i])
      ensures local != BLOCKSIZE ==> Buffers(before + buffer)
    {
      hide Compress, Absorb, Tail;
      i := BLOCKSIZE - local;
      if i > |buffer| {
        i := |buffer|;
      }
      Copy(local, buffer[..i]);
      local := local + i;
      if local == BLOCKSIZE {
        AbsorbBlock(Compress, INITIAL, before, buffer[..i]);
        assert data[..] == Tail(before) + buffer[..i];
        digest := Transform(digest, data[..]);
      } else {
        AbsorbShort(Compress, INITIAL, before, buffer);
      }
    }

    /** sha_update from a block boundary on. */
    method Blocks(buffer: seq<Byte>, start: nat, ghost before: seq<Byte>)
      requires data.Length == BLOCKSIZE && start <= |buffer| && Aligned(before + buffer[..start])
      requires digest == Absorb(Compress, INITIAL, before + buffer[..start])
      modifies `digest, `local, data
      ensures Buffers(before + buffer)
    {
      hide Compress, Absorb, Tail, Aligned;
      var pos, count := start, |buffer| - start;
      while count >= BLOCKSIZE
        invariant pos + count == |buffer| && 0 <= count
        invariant Aligned(before + buffer[..pos])
        invariant digest == Absorb(Compress, INITIAL, before + buffer[..pos])
      {
        Copy(0, buffer[pos..pos + BLOCKSIZE]);
        assert data[..] == buffer[pos..pos + BLOCKSIZE];
        AbsorbNext(Compress, INITIAL, before, buffer, pos);
        digest := Transform(digest, data[..]);
        pos, count := pos + BLOCKSIZE, count - BLOCKSIZE;
      }
      Copy(0, buffer[pos..]);
      local := count;
      AbsorbRest(Compress, INITIAL, before, buffer, pos);
    }

    /** sha_final. */
    method Final() returns (out: seq<Byte>)
      requires Valid()
      modifies this, data
      ensures out == Digest(old(message))
    {
      hide Compress, Absorb, Tail, LengthBytes, DigestBytes, Pad, PadZeros, Zeros;
      ghost var msg := message;
      LemmaByteCount(|msg|, countLo, countHi);
      var length := CountBytes();
      var count := countLo / 8 % 64;
      Copy(count, [0x80]);
      count := count + 1;
      if count > BLOCKSIZE - 8 {
        Copy(count, Zeros(BLOCKSIZE - count));
        assert data[..] == Tail(msg) + [0x80] + Zeros(BLOCKSIZE - count);
        digest := Transform(digest, data[..]);
        Copy(0, Zeros(BLOCKSIZE - 8));
        PadInTwoBlocks(Compress, INITIAL, msg, length, count - 1);
        Copy(BLOCKSIZE - 8, length);
        assert data[..] == Zeros(56) + length;
      } else {
        Copy(count, Zeros(BLOCKSIZE - 8 - count));
        PadInOneBlock(Compress, INITIAL, msg, length, count - 1);
        Copy(BLOCKSIZE - 8, length);
        assert data[..] == Tail(msg) + [0x80] + Zeros(56 - count) + length;
      }
      digest := Transform(digest, data[..]);
      out := DigestBytes(digest);
    }

    /** The eight length bytes, from the two counters. */
    method CountBytes() returns (length: seq<Byte>)
      requires countLo < M32 && countHi < M32 && countHi * M32 + countLo == 8 * |message| % M64
      ensures length == LengthBytes(8 * |message|)
    {
      LemmaDivModUnique(8 * |message| % M64, M32, countHi, countLo);
      length := [ByteOf(countHi, 0x100_0000), ByteOf(countHi, 0x1_0000), ByteOf(countHi, 0x100), ByteOf(countHi, 1),
                 ByteOf(countLo, 0x100_0000), ByteOf(countLo, 0x1_0000), ByteOf(countLo, 0x100), ByteOf(countLo, 1)];
    }
  }

  lemma LemmaNothing()
    ensures Absorb(Compress, INITIAL, []) == INITIAL && Tail([]) == []
  {
  }

  // ----- any sequence of calls

  /** However the message is cut into calls of sha_update, sha_final gives the one-shot digest. */
  method DigestOfPieces(pieces: seq<seq<Byte>>) returns (out: seq<Byte>)
    requires forall i | 0 <= i < |pieces| :: |pieces[i]| < 0x8000_0000
    ensures out == Digest(Joined(pieces))
  {
    hide Digest, Compress, Absorb, Tail;
    var info := new ShaInfo();
    for i := 0 to |pieces|
      invariant info.Valid() && info.message == Joined(pieces[..i]) && fresh(info) && fresh(info.data)
    {
      info.Update(pieces[i]);
      assert pieces[..i + 1][..i] == pieces[..i];
    }
    assert pieces[..|pieces|] == pieces;
    out := info.Final();
  }
}
