/** MD5Init, MD5Update and MD5Final (cdda2wav/md5c.c): however a message is cut into calls, the digest is that of the
    padded message, sections 3.1 to 3.5 of RFC 1321. */
module Md5 {
  import opened Arith
  import opened Common
  import opened BitCount
  import opened BlockHash
  import opened Md5Rounds

  const INITIAL := Four(0x67452301, 0xefcdab89, 0x98badcfe, 0x10325476)

  /** The message length in bits, modulo 2^64, little-endian. */
  function LengthBytes(bits: nat): (b: seq<Byte>)
    ensures |b| == 8
  {
    EncodeCount(bits % M64 % M32) + EncodeCount(bits % M64 / M32)
  }

  function EncodeCount(n: nat): (b: seq<Byte>)
    ensures |b| == 4
  {
    [ByteOf(n, 1), ByteOf(n, 0x100), ByteOf(n, 0x1_0000), ByteOf(n, 0x100_0000)]
  }

  /** The eight bytes make the number of bits, the least significant first. */
  lemma LengthReadsBack(bits: nat)
    ensures var b := LengthBytes(bits);
            Number(b[0], b[1], b[2], b[3]) + M32 * Number(b[4], b[5], b[6], b[7]) == bits % M64
  {
    hide ByteOf, Number;
    BytesMakeTheWord(bits % M64 % M32);
    BytesMakeTheWord(bits % M64 / M32);
  }

  function EncodeWord(w: bv32): (b: seq<Byte>)
    ensures |b| == 4
  {
    [(w & 0xff) as bv8, ((w >> 8) & 0xff) as bv8, ((w >> 16) & 0xff) as bv8, ((w >> 24) & 0xff) as bv8]
  }

  function Encode(v: Four): (b: seq<Byte>)
    ensures |b| == 16
  {
    EncodeWord(v.a) + EncodeWord(v.b) + EncodeWord(v.c) + EncodeWord(v.d)
  }

  /** Decode undoes Encode. */
  lemma EncodeDecode(w: bv32)
    ensures LittleEndian(EncodeWord(w), 0) == w
  {
  }

  /** MD5 of a whole message at once. */
  function Digest(msg: seq<Byte>): seq<Byte> {
    Encode(Absorb(Compress, INITIAL, Pad(msg, LengthBytes(8 * |msg|))))
  }

  /** PADDING: a one bit and zeros. */
  function Padding(): (p: seq<Byte>)
    ensures |p| == 64
  {
    [0x80] + Zeros(63)
  }

  /** MD5_CTX; message is everything updated so far. */
  class Md5Ctx {
    var state: Four
    var count0: nat
    var count1: nat
    var buffer: array<Byte>
    ghost var message: seq<Byte>

    ghost predicate Valid()
      reads this, buffer
    {
      && Buffers(message)
      && Counts(8 * |message|)
    }

    ghost predicate Buffers(msg: seq<Byte>)
      reads this, buffer
    {
      && buffer.Length == BLOCKSIZE
      && buffer[..|msg| % BLOCKSIZE] == Tail(msg)
      && state == Absorb(Compress, INITIAL, msg)
    }

    ghost predicate Counts(bits: nat)
      reads this
    {
      count0 < M32 && count1 < M32 && count1 * M32 + count0 == bits % M64
    }

    /** MD5Init. */
    constructor ()
      ensures Valid() && message == [] && fresh(buffer)
    {
      hide Compress, Absorb, Tail;
      LemmaNothing();
      state := INITIAL;
      count0, count1, message := 0, 0, [];
      buffer := new Byte[BLOCKSIZE](_ => 0);
    }

    /** MD5_memcpy into the buffer. */
    method Memcpy(at: nat, bytes: seq<Byte>)
      requires buffer.Length == BLOCKSIZE && at + |bytes| <= BLOCKSIZE
      modifies buffer
      ensures buffer[..] == old(buffer[..at]) + bytes + old(buffer[at + |bytes|..])
    {
      for i := 0 to |bytes|
        invariant forall k | 0 <= k < BLOCKSIZE ::
                    buffer[k] == if at <= k < at + i then bytes[k - at] else old(buffer[k])
      {
        buffer[at + i] := bytes[i];
      }
    }

    /** Update number of bits. */
    method Count(inputLen: nat, ghost bits: nat)
      requires Counts(bits) && inputLen < M32
      modifies `count0, `count1
      ensures Counts(bits + 8 * inputLen)
    {
      var added := 8 * inputLen % M32;
      var lo := (count0 + added) % M32;
      var hi := if lo < added then (count1 + 1) % M32 else count1;
      hi := (hi + inputLen / 0x2000_0000) % M32;
      LemmaSumBelow(count0, added);
      LemmaCount(count0, count1, inputLen, bits, lo, hi);
      count0, count1 := lo, hi;
    }

    /** MD5Update. */
    method Update(input: seq<Byte>)
      requires Valid() && |input| < M32
      modifies this, buffer
      ensures Valid() && message == old(message) + input && buffer == old(buffer)
    {
      hide Compress, Absorb, Tail;
      ghost var before := message;
      LemmaByteCount(|before|, count0, count1);
      var indx := count0 / 8 % 64;
      Count(|input|, 8 * |message|);
      message := message + input;
      var partLen := 64 - indx;
      if |input| >= partLen {
        Memcpy(indx, input[..partLen]);
        AbsorbBlock(Compress, INITIAL, before, input[..partLen]);
        assert buffer[..] == Tail(before) + input[..partLen];
        state := Transform(state, buffer[..]);
        Blocks(input, partLen, before);
      } else {
        Memcpy(indx, input);
        AbsorbShort(Compress, INITIAL, before, input);
        LemmaShortLength(|before|, |input|);
      }
    }

    /** MD5Update from a block boundary on. */
    method Blocks(input: seq<Byte>, start: nat, ghost before: seq<Byte>)
      requires buffer.Length == BLOCKSIZE && start <= |input| && Aligned(before + input[..start])
      requires state == Absorb(Compress, INITIAL, before + input[..start])
      modifies `state, buffer
      ensures Buffers(before + input)
    {
      hide Compress, Absorb, Tail, Aligned;
      var i := start;
      while i + 63 < |input|
        invariant start <= i <= |input|
        invariant Aligned(before + input[..i])
        invariant state == Absorb(Compress, INITIAL, before + input[..i])
      {
        AbsorbNext(Compress, INITIAL, before, input, i);
        state := Transform(state, input[i..i + 64]);
        i := i + 64;
      }
      Memcpy(0, input[i..]);
      AbsorbRest(Compress, INITIAL, before, input, i);
    }

    /** MD5Final, with its zeroization of the context. */
    method Final() returns (digest: seq<Byte>)
      requires Valid()
      modifies this, buffer
      ensures digest == Digest(old(message))
    {
      hide Compress, Absorb, Tail, Pad, Encode;
      ghost var msg := message;
      LemmaDivModUnique(8 * |msg| % M64, M32, count1, count0);
      var bits := EncodeCount(count0) + EncodeCount(count1);
      LemmaByteCount(|msg|, count0, count1);
      var indx := count0 / 8 % 64;
      var padLen := if indx < 56 then 56 - indx else 120 - indx;
      Update(Padding()[..padLen]);
      Update(bits);
      LemmaPadded(msg, indx, bits);
      digest := Encode(state);
      Clear();
    }

    /** MD5_memset. */
    method Clear()
      modifies this, buffer
      ensures state == Four(0, 0, 0, 0) && count0 == count1 == 0 && forall k | 0 <= k < buffer.Length :: buffer[k] == 0
    {
      state, count0, count1 := Four(0, 0, 0, 0), 0, 0;
      for i := 0 to buffer.Length
        invariant unchanged(`buffer) && state == Four(0, 0, 0, 0) && count0 == count1 == 0
        invariant forall k | 0 <= k < i :: buffer[k] == 0
      {
        buffer[i] := 0;
      }
    }
  }

  lemma LemmaNothing()
    ensures Absorb(Compress, INITIAL, []) == INITIAL && Tail([]) == []
  {
  }

  lemma LemmaSumBelow(lo: nat, added: nat)
    requires lo < M32 && added < M32
    ensures (lo + added) % M32 < added <==> (lo + added) % M32 < lo
  {
  }

  lemma LemmaShortLength(n: nat, m: nat)
    requires n % BLOCKSIZE + m < BLOCKSIZE
    ensures (n + m) % BLOCKSIZE == n % BLOCKSIZE + m
  {
    var q := n / BLOCKSIZE;
    assert n + m == 64 * q + (n % 64 + m);
  }

  lemma LemmaPadded(msg: seq<Byte>, c: nat, bits: seq<Byte>)
    requires c == |msg| % BLOCKSIZE && |bits| == 8
    ensures (msg + Padding()[..if c < 56 then 56 - c else 120 - c]) + bits == Pad(msg, bits)
  {
  }

  // ----- any sequence of calls

  /** However the message is cut into calls of MD5Update, MD5Final gives the one-shot digest. */
  method DigestOfPieces(pieces: seq<seq<Byte>>) returns (digest: seq<Byte>)
    requires forall i | 0 <= i < |pieces| :: |pieces[i]| < M32
    ensures digest == Digest(Joined(pieces))
  {
    hide Digest, Compress, Absorb, Tail;
    var context := new Md5Ctx();
    for i := 0 to |pieces|
      invariant context.Valid() && context.message == Joined(pieces[..i]) && fresh(context) && fresh(context.buffer)
    {
      context.Update(pieces[i]);
      assert pieces[..i + 1][..i] == pieces[..i];
    }
    assert pieces[..|pieces|] == pieces;
    digest := context.Final();
  }
}
