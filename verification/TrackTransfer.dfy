/** The loops at the two ends of the FIFO: faio_read_track fills segments from a track's file, write_packet_data
    takes them out again and writes sectors. The FIFO between them is the queue that module FifoSafety proves it is. */
module TrackTransfer {
  import opened Arith
  import opened Common
  import opened Fifo

  /** file is what reading the track's descriptor delivers up to end of file; tracksize is negative when unknown. */
  datatype Track = Track(fd: int, secsize: nat, secspt: nat, tracksize: int, packet: bool, pktsize: nat, file: seq<Byte>)

  ghost predicate ValidTrack(tr: Track) {
    tr.secsize > 0 && tr.secspt > 0 && BytesPt(tr) > 0
  }

  function BytesPt(tr: Track): nat {
    tr.secsize * tr.secspt
  }

  /** bytes_to_read, as both loops compute it from the bytes read so far. */
  function BytesToRead(tr: Track, done: nat, bytespt: nat): int {
    if tr.tracksize > 0 && tr.tracksize - done <= bytespt then tr.tracksize - done else bytespt
  }

  /** fill_buf is short only at end of file; and what lies behind the bytes read, up to a whole transfer, it has cleared. */
  function FillBuf(tr: Track, done: nat, want: nat): (g: Segment)
    requires done <= |tr.file|
    ensures g.fd == tr.fd && g.len == |g.bytes| <= want
    ensures done + |g.bytes| <= |tr.file| && (|g.bytes| < want ==> done + |g.bytes| == |tr.file|)
    ensures g.bytes == tr.file[done..done + |g.bytes|]
  {
    var n := if |tr.file| - done < want then |tr.file| - done else want;
    Segment(tr.fd, n, 0, tr.file[done..done + n])
  }

  /** The loop condition of both do-while loops. */
  predicate Continues(tr: Track, done: nat) {
    tr.tracksize < 0 || done < tr.tracksize
  }

  /** The segments one track puts into the FIFO, from `done` bytes on. */
  function Pushes(tr: Track, done: nat): seq<Segment>
    requires ValidTrack(tr) && done <= |tr.file| && (tr.tracksize > 0 ==> done < tr.tracksize)
    decreases |tr.file| - done
  {
    var g := FillBuf(tr, done, BytesToRead(tr, done, BytesPt(tr)));
    if g.len <= 0 || !Continues(tr, done + g.len) then [g] else [g] + Pushes(tr, done + g.len)
  }

  predicate FixedPackets(tr: Track) {
    tr.packet && tr.pktsize > 0
  }

  /** The bytes of the track that reach the medium. With a known size of 0 the loops still run once: nothing of what
      was read is written, unless a fixed packet is filled up with it. */
  function Data(tr: Track): seq<Byte> {
    if tr.tracksize == 0 then
      if FixedPackets(tr) then FillBuf(tr, 0, BytesPt(tr)).bytes else []
    else if 0 < tr.tracksize <= |tr.file| then tr.file[..tr.tracksize]
    else tr.file
  }

  /** A record of `count` bytes is completed to whole sectors, and to a whole packet when packets are fixed. */
  function RecordSize(tr: Track, count: nat, bytespt: nat): nat
    requires tr.secsize > 0
  {
    if count >= bytespt then count
    else
      var sectors := if count % tr.secsize == 0 then count else count + tr.secsize - count % tr.secsize;
      if FixedPackets(tr) && sectors < bytespt then bytespt else sectors
  }

  lemma LemmaRecordSize(tr: Track, count: nat)
    requires ValidTrack(tr) && count <= BytesPt(tr)
    ensures RecordSize(tr, count, BytesPt(tr)) % tr.secsize == 0
    ensures count <= RecordSize(tr, count, BytesPt(tr)) <= BytesPt(tr)
    ensures FixedPackets(tr) ==> RecordSize(tr, count, BytesPt(tr)) == BytesPt(tr)
    ensures !FixedPackets(tr) ==> RecordSize(tr, count, BytesPt(tr)) < count + tr.secsize
  {
    var size := tr.secsize;
    LemmaMultiple(tr.secspt, size);
    assert BytesPt(tr) == tr.secspt * size;
    if count < BytesPt(tr) && count % size != 0 {
      var q := count / size;
      assert count == q * size + count % size;
      assert count + size - count % size == q * size + size == (q + 1) * size;
      LemmaMultiple(q + 1, size);
      if tr.secspt <= q {
        LemmaMulMonotone(tr.secspt, q, size);
      }
      LemmaMulMonotone(q + 1, tr.secspt, size);
    }
  }

  /** A call of get_buf: the descriptor and the size asked for. */
  datatype Request = Request(fd: int, size: int)

  /** How many of the bytes read count, once the known size is reached. */
  function Counted(tr: Track, done: nat, len: nat): (n: nat)
    requires tr.tracksize >= 0 ==> done <= tr.tracksize
    ensures n <= len
  {
    if tr.tracksize >= 0 && done + len >= tr.tracksize then tr.tracksize - done else len
  }

  /** The calls write_packet_data makes for a track, from `done` bytes on, with the block size it has then. */
  function Requests(tr: Track, done: nat, bytespt: nat): seq<Request>
    requires ValidTrack(tr) && done <= |tr.file| && (tr.tracksize > 0 ==> done < tr.tracksize)
    requires tr.tracksize == 0 ==> done == 0
    decreases |tr.file| - done
  {
    var g := FillBuf(tr, done, BytesToRead(tr, done, BytesPt(tr)));
    var r := Request(tr.fd, BytesToRead(tr, done, bytespt));
    if g.len <= 0 || !Continues(tr, done + g.len) then [r]
    else [r] + Requests(tr, done + g.len, RecordSize(tr, Counted(tr, done, g.len), bytespt))
  }

  datatype Outcome = Ok(segment: Segment) | Spins | Fatal | Starves

  /** The FIFO as its two ends see it: everything filled so far, and how much of it was taken. */
  class SegmentQueue {
    var filled: seq<Segment>
    var taken: nat
    ghost var asked: seq<Request>

    ghost predicate Valid()
      reads this
    {
      taken <= |filled|
    }

    constructor ()
      ensures Valid() && filled == [] && taken == 0 && asked == []
    {
      filled, taken, asked := [], 0, [];
    }

    method Push(g: Segment)
      requires Valid()
      modifies this`filled
      ensures Valid() && filled == old(filled) + [g]
    {
      filled := filled + [g];
    }

    /** faio_get_buf: a descriptor mismatch goes round again for ever on an empty segment and is fatal on any other;
        a segment longer than the caller's buffer is fatal. */
    method GetBuf(fd: int, size: int) returns (r: Outcome)
      requires Valid()
      modifies this`taken, this`asked
      ensures Valid() && asked == old(asked) + [Request(fd, size)]
      ensures r.Ok? <==>
                && old(taken) < |filled|
                && filled[old(taken)].fd == fd && filled[old(taken)].len <= size
      ensures if r.Ok? then r.segment == filled[old(taken)] && taken == old(taken) + 1 else taken == old(taken)
    {
      asked := asked + [Request(fd, size)];
      if taken == |filled| {
        return Starves;
      }
      var f := filled[taken];
      if f.fd != fd {
        return if f.len == 0 then Spins else Fatal;
      }
      if size < f.len {
        return Fatal;
      }
      taken := taken + 1;
      return Ok(f);
    }

    /** faio_read_track. */
    method ReadTrack(tr: Track)
      requires Valid() && ValidTrack(tr)
      modifies this`filled
      ensures Valid() && filled == old(filled) + Pushes(tr, 0)
    {
      hide Pushes, FillBuf, Continues, Pushed;
      var bytespt := BytesPt(tr);
      var bytesRead: nat := 0;
      var more := true;
      ghost var before := filled;
      LemmaNothingPushed(tr, before);
      while more
        invariant Valid() && Pushed(tr, before, filled, bytesRead, more)
        invariant bytesRead <= |tr.file| && (more ==> Pending(tr, bytesRead))
        decreases more, |tr.file| - bytesRead
      {
        ghost var now := filled;
        var g := FillBuf(tr, bytesRead, BytesToRead(tr, bytesRead, bytespt));
        LemmaPushesNext(tr, bytesRead, g);
        LemmaPushed(tr, before, now, bytesRead, g);
        Push(g);
        if g.len <= 0 {
          more := false;
        } else {
          bytesRead := bytesRead + g.len;
          more := Continues(tr, bytesRead);
        }
      }
      LemmaAllPushed(tr, before, filled, bytesRead);
    }

    /** write_packet_data's transfer loop: what it writes, or why it stopped. Neither the descriptor mismatch nor the
        short-read error of GetBuf happens, and exactly this track's segments are taken. */
    method WritePacketData(tr: Track) returns (out: seq<Byte>, failed: bool)
      requires Valid() && ValidTrack(tr)
      requires taken + |Pushes(tr, 0)| <= |filled| && filled[taken..][..|Pushes(tr, 0)|] == Pushes(tr, 0)
      modifies this`taken, this`asked
      ensures Valid() && !failed && taken == old(taken) + |Pushes(tr, 0)|
      ensures asked == old(asked) + Requests(tr, 0, BytesPt(tr))
      ensures WholeTrack(tr, out)
    {
      hide WriterState, WholeTrack, Written, Requests, Pushes, Paired, FillBuf, Continues;
      out, failed := [], false;
      var bytespt := BytesPt(tr);
      var bytesRead: nat := 0;
      var more := true;
      ghost var p, q, k := Pushes(tr, 0), Requests(tr, 0, bytespt), 0;
      LemmaNothingWritten(tr);
      LemmaPairedAtStart(tr);
      while more
        invariant Valid() && WriterState(tr, bytesRead, out, bytespt)
        invariant k <= |p| && k <= |q| && taken == old(taken) + k && asked == old(asked) + q[..k]
        invariant Paired(tr, p, q, k, bytesRead, bytespt, more)
        invariant !more ==> WholeTrack(tr, out) && k == |p| && q[..k] == q
        invariant more ==> bytesRead == 0 || Continues(tr, bytesRead)
        decreases more, |tr.file| - bytesRead
      {
        LemmaPairedPending(tr, p, q, k, bytesRead, bytespt);
        ghost var g := FillBuf(tr, bytesRead, BytesToRead(tr, bytesRead, BytesPt(tr)));
        LemmaPairedNext(tr, p, q, k, bytesRead, bytespt, g);
        LemmaSliceIndex(filled, old(taken), |p|, k);
        LemmaRoom(tr, bytesRead, out, bytespt);
        var r := GetBuf(tr.fd, BytesToRead(tr, bytesRead, bytespt));
        if !r.Ok? {
          return out, true;
        }
        k := k + 1;
        var count := r.segment.len;
        if count == 0 {
          LemmaAtEof(tr, bytesRead, out, bytespt);
          LemmaPairedEnd(tr, p, q, k, bytesRead, bytespt);
          break;
        }
        out, bytespt := WriteRecord(tr, bytesRead, r.segment, out, bytespt);
        bytesRead := bytesRead + count;
        more := Continues(tr, bytesRead);
        if !more {
          LemmaComplete(tr, bytesRead, out, bytespt);
          LemmaPairedEnd(tr, p, q, k, bytesRead, bytespt);
        }
      }
    }
  }

  /** The producer's segments p and the consumer's calls q, of which k are over; then come those of the rounds from `done`
      on. */
  ghost predicate Paired(tr: Track, p: seq<Segment>, q: seq<Request>, k: nat, done: nat, bytespt: nat, more: bool)
    requires ValidTrack(tr)
  {
    && k <= |p| && k <= |q|
    && if more then Pending(tr, done) && p[k..] == Pushes(tr, done) && q[k..] == Requests(tr, done, bytespt)
       else k == |p| == |q|
  }

  lemma LemmaSliceIndex(s: seq<Segment>, a: nat, n: nat, k: nat)
    requires a + n <= |s| && k < n
    ensures s[a..][..n][k] == s[a + k]
  {
  }

  lemma LemmaPairedAtStart(tr: Track)
    requires ValidTrack(tr)
    ensures Paired(tr, Pushes(tr, 0), Requests(tr, 0, BytesPt(tr)), 0, 0, BytesPt(tr), true)
  {
    hide Pushes, Requests;
  }

  lemma LemmaPairedPending(tr: Track, p: seq<Segment>, q: seq<Request>, k: nat, done: nat, bytespt: nat)
    requires ValidTrack(tr) && Paired(tr, p, q, k, done, bytespt, true)
    ensures Pending(tr, done)
  {
  }

  lemma LemmaPairedEnd(tr: Track, p: seq<Segment>, q: seq<Request>, k: nat, done: nat, bytespt: nat)
    requires ValidTrack(tr) && Paired(tr, p, q, k, done, bytespt, false)
    ensures k == |p| == |q| && q[..k] == q
  {
  }

  lemma LemmaPairedNext(tr: Track, p: seq<Segment>, q: seq<Request>, k: nat, done: nat, bytespt: nat, g: Segment)
    requires ValidTrack(tr) && Paired(tr, p, q, k, done, bytespt, true) && Pending(tr, done)
    requires g == FillBuf(tr, done, BytesToRead(tr, done, BytesPt(tr)))
    ensures done + g.len <= |tr.file| && g.len >= 0
    ensures k < |p| && p[k] == g && k < |q| && q[k] == Request(tr.fd, BytesToRead(tr, done, bytespt))
    ensures q[..k] + [q[k]] == q[..k + 1]
    ensures var more := g.len > 0 && Continues(tr, done + g.len);
            Paired(tr, p, q, k + 1, done + g.len,
                   if g.len > 0 then RecordSize(tr, Counted(tr, done, g.len), bytespt) else bytespt, more)
  {
    hide RecordSize;
    LemmaNextSegment(tr, done, p, k, g);
    LemmaNextRequest(tr, done, bytespt, g);
    hide Pushes, Requests, FillBuf, BytesToRead;
    assert q[k..][0] == Request(tr.fd, BytesToRead(tr, done, bytespt));
    assert q[k + 1..] == q[k..][1..];
  }

  /** The track's data, zeros up to whole records, and no more. */
  ghost predicate WholeTrack(tr: Track, out: seq<Byte>)
    requires ValidTrack(tr)
  {
    && |Data(tr)| <= |out|
    && out == Data(tr) + Zeros(|out| - |Data(tr)|)
    && PadOk(tr, |out| - |Data(tr)|)
    && WholeRecords(tr, out)
  }

  lemma LemmaComplete(tr: Track, done: nat, out: seq<Byte>, bytespt: nat)
    requires ValidTrack(tr) && WriterState(tr, done, out, bytespt) && done != 0 && !Continues(tr, done)
    ensures WholeTrack(tr, out)
  {
  }

  lemma LemmaAtEof(tr: Track, done: nat, out: seq<Byte>, bytespt: nat)
    requires ValidTrack(tr) && WriterState(tr, done, out, bytespt) && Pending(tr, done) && done == |tr.file|
    ensures WholeTrack(tr, out)
  {
    assert tr.file[..|tr.file|] == tr.file;
  }

  /** The reduced block size after a short record is never too small: only an empty segment can follow. */
  lemma LemmaRoom(tr: Track, done: nat, out: seq<Byte>, bytespt: nat)
    requires ValidTrack(tr) && WriterState(tr, done, out, bytespt) && Pending(tr, done)
    ensures FillBuf(tr, done, BytesToRead(tr, done, BytesPt(tr))).len <= BytesToRead(tr, done, bytespt)
    ensures FillBuf(tr, done, BytesToRead(tr, done, BytesPt(tr))).len == 0 ==> done == |tr.file|
  {
  }

  /** What the writing loop keeps: nothing written yet, or what Written says. */
  ghost predicate WriterState(tr: Track, done: nat, out: seq<Byte>, bytespt: nat)
    requires ValidTrack(tr)
  {
    && done <= |tr.file|
    && (done == 0 ==> out == [] && bytespt == BytesPt(tr))
    && (done != 0 ==> Written(tr, done, out, bytespt))
    && WholeRecords(tr, out)
  }

  /** The body of the loop after get_buf: complete the record and write it. */
  method WriteRecord(tr: Track, done: nat, g: Segment, out: seq<Byte>, bytespt: nat)
    returns (out': seq<Byte>, bytespt': nat)
    requires ValidTrack(tr) && Pending(tr, done) && WriterState(tr, done, out, bytespt)
    requires done == 0 || Continues(tr, done)
    requires g == FillBuf(tr, done, BytesToRead(tr, done, BytesPt(tr))) && g.len > 0
    ensures WriterState(tr, done + g.len, out', bytespt')
    ensures bytespt' == RecordSize(tr, Counted(tr, done, g.len), bytespt)
  {
    assert tr.file[..0] == [];
    assert bytespt == BytesPt(tr) && out == tr.file[..done];
    var count := g.len;
    if tr.tracksize >= 0 && done + count >= tr.tracksize {
      count := count - (done + count - tr.tracksize);
    }
    bytespt' := RecordSize(tr, count, bytespt);
    // the segment's buffer: the bytes read, then zeros
    out' := out + (g.bytes + Zeros(bytespt'))[..bytespt'];
    LemmaRound(tr, done, g, out, out');
  }

  /** What is written is a whole number of sectors, and of packets when packets are fixed. */
  ghost predicate WholeRecords(tr: Track, out: seq<Byte>)
    requires ValidTrack(tr)
  {
    && |out| % tr.secsize == 0
    && (FixedPackets(tr) ==> |out| % BytesPt(tr) == 0)
  }

  lemma LemmaNothingWritten(tr: Track)
    requires ValidTrack(tr)
    ensures WriterState(tr, 0, [], BytesPt(tr))
  {
  }

  /** The queue, before the producer's rounds for a track and now; then come those of the rounds from `done` on. */
  ghost predicate Pushed(tr: Track, before: seq<Segment>, now: seq<Segment>, done: nat, more: bool)
    requires ValidTrack(tr)
  {
    && (more ==> Pending(tr, done))
    && now + (if more then Pushes(tr, done) else []) == before + Pushes(tr, 0)
  }

  lemma LemmaNothingPushed(tr: Track, before: seq<Segment>)
    requires ValidTrack(tr)
    ensures Pending(tr, 0) && Pushed(tr, before, before, 0, true)
  {
    hide Pushes;
  }

  lemma LemmaPushed(tr: Track, before: seq<Segment>, now: seq<Segment>, done: nat, g: Segment)
    requires ValidTrack(tr) && Pending(tr, done) && Pushed(tr, before, now, done, true)
    requires g == FillBuf(tr, done, BytesToRead(tr, done, BytesPt(tr)))
    ensures done + g.len <= |tr.file| && g.len >= 0
    ensures Pushed(tr, before, now + [g], done + g.len, g.len > 0 && Continues(tr, done + g.len))
    ensures g.len == 0 ==> Pushed(tr, before, now + [g], done, false)
  {
    hide Pushes, FillBuf;
    LemmaPushesNext(tr, done, g);
    var rest := if g.len > 0 && Continues(tr, done + g.len) then Pushes(tr, done + g.len) else [];
    assert (now + [g]) + rest == now + ([g] + rest);
  }

  lemma LemmaAllPushed(tr: Track, before: seq<Segment>, now: seq<Segment>, done: nat)
    requires ValidTrack(tr) && Pushed(tr, before, now, done, false)
    ensures now == before + Pushes(tr, 0)
  {
    hide Pushes;
    assert now + [] == now;
  }

  /** The next segment, and those of the rounds after it. */
  lemma LemmaPushesNext(tr: Track, done: nat, g: Segment)
    requires ValidTrack(tr) && Pending(tr, done)
    requires g == FillBuf(tr, done, BytesToRead(tr, done, BytesPt(tr)))
    ensures g.len >= 0 && done + g.len <= |tr.file|
    ensures g.len > 0 && Continues(tr, done + g.len) ==> Pending(tr, done + g.len)
    ensures Pushes(tr, done)
            == [g] + if g.len > 0 && Continues(tr, done + g.len) then Pushes(tr, done + g.len) else []
  {
    hide FillBuf;
  }

  lemma LemmaNextRequest(tr: Track, done: nat, bytespt: nat, g: Segment)
    requires ValidTrack(tr) && Pending(tr, done)
    requires g == FillBuf(tr, done, BytesToRead(tr, done, BytesPt(tr)))
    ensures done + g.len <= |tr.file|
    ensures Requests(tr, done, bytespt)
            == [Request(tr.fd, BytesToRead(tr, done, bytespt))]
               + if g.len <= 0 || !Continues(tr, done + g.len) then []
                 else Requests(tr, done + g.len, RecordSize(tr, Counted(tr, done, g.len), bytespt))
  {
  }

  /** The k-th segment of a track is what the producer's next round puts into the queue; then come those of the rounds
      after it. */
  lemma LemmaNextSegment(tr: Track, done: nat, p: seq<Segment>, k: nat, g: Segment)
    requires ValidTrack(tr) && Pending(tr, done) && k <= |p| && p[k..] == Pushes(tr, done)
    requires g == FillBuf(tr, done, BytesToRead(tr, done, BytesPt(tr)))
    ensures done + g.len <= |tr.file| && g.len >= 0
    ensures k < |p| && p[k] == g
    ensures if g.len > 0 && Continues(tr, done + g.len) then p[k + 1..] == Pushes(tr, done + g.len) else k + 1 == |p|
  {
    hide Pushes, FillBuf;
    LemmaPushesNext(tr, done, g);
    assert p[k..][0] == g;
    assert p[k + 1..] == p[k..][1..];
  }

  lemma LemmaRound(tr: Track, done: nat, g: Segment, before: seq<Byte>, after: seq<Byte>)
    requires ValidTrack(tr) && Pending(tr, done) && before == tr.file[..done] && WholeRecords(tr, before)
    requires g == FillBuf(tr, done, BytesToRead(tr, done, BytesPt(tr))) && g.len > 0
    requires var size := RecordSize(tr, if tr.tracksize == 0 then 0 else g.len, BytesPt(tr));
             after == before + (g.bytes + Zeros(size))[..size]
    ensures WholeRecords(tr, after)
    ensures Written(tr, done + g.len, after, RecordSize(tr, if tr.tracksize == 0 then 0 else g.len, BytesPt(tr)))
  {
    var count := if tr.tracksize == 0 then 0 else g.len;
    if tr.tracksize == 0 {
      LemmaEmptyRecord(tr, g);
      assert tr.file[..0] == [];
      assert after == (g.bytes + Zeros(RecordSize(tr, 0, BytesPt(tr))))[..RecordSize(tr, 0, BytesPt(tr))];
    } else {
      LemmaRecord(tr, done, g);
    }
    LemmaRecordSize(tr, count);
    LemmaSumOfMultiples(|before|, RecordSize(tr, count, BytesPt(tr)), tr.secsize);
    if FixedPackets(tr) {
      LemmaSumOfMultiples(|before|, BytesPt(tr), BytesPt(tr));
    }
  }

  /** What out must look like after a round that read up to `done`. */
  ghost predicate Written(tr: Track, done: nat, out: seq<Byte>, bytespt: nat) {
    if Continues(tr, done) then
      && Pending(tr, done)
      && done <= |out| && out == tr.file[..done] + Zeros(|out| - done)
      && ((|out| == done && bytespt == BytesPt(tr)) || done == |tr.file|)
      && PadOk(tr, |out| - done)
    else
      && |Data(tr)| <= |out| && out == Data(tr) + Zeros(|out| - |Data(tr)|)
      && PadOk(tr, |out| - |Data(tr)|)
  }

  ghost predicate PadOk(tr: Track, pad: nat) {
    if FixedPackets(tr) then pad <= BytesPt(tr) else pad < tr.secsize
  }

  lemma LemmaAppend(file: seq<Byte>, done: nat, bytes: seq<Byte>, size: nat)
    requires done + |bytes| <= |file| && bytes == file[done..done + |bytes|] && |bytes| <= size
    ensures file[..done] + (bytes + Zeros(size))[..size] == file[..done + |bytes|] + Zeros(size - |bytes|)
  {
  }

  /** One round of write_packet_data that got a non-empty segment. */
  lemma LemmaRecord(tr: Track, done: nat, g: Segment)
    requires ValidTrack(tr) && Pending(tr, done) && tr.tracksize != 0
    requires g == FillBuf(tr, done, BytesToRead(tr, done, BytesPt(tr))) && g.len > 0
    ensures g.len <= BytesPt(tr)
    ensures var size := RecordSize(tr, g.len, BytesPt(tr));
            Written(tr, done + g.len, tr.file[..done] + (g.bytes + Zeros(size))[..size], size)
  {
    var size := RecordSize(tr, g.len, BytesPt(tr));
    LemmaRecordSize(tr, g.len);
    LemmaAppend(tr.file, done, g.bytes, size);
    if !Continues(tr, done + g.len) {
      assert tr.file[..done + g.len] == Data(tr);
    }
  }

  /** The one round of a track whose size is known to be 0. */
  lemma LemmaEmptyRecord(tr: Track, g: Segment)
    requires ValidTrack(tr) && tr.tracksize == 0
    requires g == FillBuf(tr, 0, BytesPt(tr))
    ensures var size := RecordSize(tr, 0, BytesPt(tr));
            Written(tr, g.len, (g.bytes + Zeros(size))[..size], size)
  {
    LemmaRecordSize(tr, 0);
    if FixedPackets(tr) {
      LemmaAppend(tr.file, 0, g.bytes, BytesPt(tr));
    }
  }

  /** Another round of either loop is due after `done` bytes. */
  ghost predicate Pending(tr: Track, done: nat) {
    && done <= |tr.file|
    && (tr.tracksize == 0 ==> done == 0)
    && (tr.tracksize > 0 ==> done < tr.tracksize)
  }

  // ----- all tracks

  ghost predicate ValidTracks(tracks: seq<Track>) {
    forall i | 0 <= i < |tracks| :: ValidTrack(tracks[i])
  }

  /** Everything faio_reader puts into the FIFO: the tracks' segments, one track after the other. */
  function Script(tracks: seq<Track>): seq<Segment>
    requires ValidTracks(tracks)
  {
    if tracks == [] then [] else Pushes(tracks[0], 0) + Script(tracks[1..])
  }

  lemma {:induction false} LemmaScriptSnoc(tracks: seq<Track>, i: nat)
    requires ValidTracks(tracks) && i < |tracks|
    ensures Script(tracks[..i + 1]) == Script(tracks[..i]) + Pushes(tracks[i], 0)
  {
    if i == 0 {
      assert tracks[..1] == [tracks[0]];
      assert tracks[..1][1..] == [] && tracks[..0] == [];
    } else {
      LemmaScriptSnoc(tracks[1..], i - 1);
      assert tracks[..i + 1][1..] == tracks[1..][..i];
      assert tracks[..i][1..] == tracks[1..][..i - 1];
    }
  }

  /** All calls of get_buf, track by track. */
  function AllRequests(tracks: seq<Track>): seq<Request>
    requires ValidTracks(tracks)
  {
    if tracks == [] then []
    else AllRequests(tracks[..|tracks| - 1]) + Requests(tracks[|tracks| - 1], 0, BytesPt(tracks[|tracks| - 1]))
  }

  /** A call answered by a segment: the descriptor is that of the segment, and there is room for it. */
  predicate Fits(r: Request, g: Segment) {
    r.fd == g.fd && g.len <= r.size
  }

  ghost predicate AllFit(requests: seq<Request>, segments: seq<Segment>) {
    |requests| == |segments| && forall k | 0 <= k < |requests| :: Fits(requests[k], segments[k])
  }

  /** For one track, the consumer makes as many calls as the producer pushes segments, and each fits its segment, also
      after the block size was reduced. */
  lemma {:induction false} RequestsFit(tr: Track, done: nat, bytespt: nat)
    requires ValidTrack(tr) && Pending(tr, done) && (bytespt == BytesPt(tr) || done == |tr.file|)
    ensures AllFit(Requests(tr, done, bytespt), Pushes(tr, done))
    decreases |tr.file| - done
  {
    hide Pushes, Requests;
    var g := FillBuf(tr, done, BytesToRead(tr, done, BytesPt(tr)));
    LemmaNextRequest(tr, done, bytespt, g);
    LemmaNextSegment(tr, done, Pushes(tr, done), 0, g);
    LemmaFits(tr, done, bytespt, g);
    hide FillBuf, BytesToRead, Fits, RecordSize;
    var p := Pushes(tr, done);
    assert p[0..] == p;
    if g.len > 0 && Continues(tr, done + g.len) {
      RequestsFit(tr, done + g.len, RecordSize(tr, Counted(tr, done, g.len), bytespt));
      assert p == [g] + p[1..];
    }
  }

  lemma LemmaFits(tr: Track, done: nat, bytespt: nat, g: Segment)
    requires ValidTrack(tr) && Pending(tr, done) && (bytespt == BytesPt(tr) || done == |tr.file|)
    requires g == FillBuf(tr, done, BytesToRead(tr, done, BytesPt(tr)))
    ensures Fits(Request(tr.fd, BytesToRead(tr, done, bytespt)), g)
    ensures g.len > 0 && Continues(tr, done + g.len) ==>
              RecordSize(tr, Counted(tr, done, g.len), bytespt) == BytesPt(tr) || done + g.len == |tr.file|
  {
  }

  lemma {:induction false} AllRequestsFit(tracks: seq<Track>, i: nat)
    requires ValidTracks(tracks) && i <= |tracks|
    ensures AllFit(AllRequests(tracks[..i]), Script(tracks[..i]))
  {
    hide Requests, Pushes, Fits;
    if i > 0 {
      AllRequestsFit(tracks, i - 1);
      LemmaScriptSnoc(tracks, i - 1);
      RequestsFit(tracks[i - 1], 0, BytesPt(tracks[i - 1]));
      assert tracks[..i][..i - 1] == tracks[..i - 1];
    }
  }

  /** faio_reader. */
  method ReadAllTracks(queue: SegmentQueue, tracks: seq<Track>)
    requires queue.Valid() && ValidTracks(tracks) && queue.filled == [] && queue.taken == 0
    modifies queue`filled
    ensures queue.Valid() && queue.filled == Script(tracks)
  {
    for i := 0 to |tracks|
      invariant queue.Valid() && queue.filled == Script(tracks[..i])
    {
      LemmaScriptSnoc(tracks, i);
      queue.ReadTrack(tracks[i]);
    }
    assert tracks[..|tracks|] == tracks;
  }

  /** The foreground process writes the tracks in the same order. It takes every segment and asks for none beyond
      the last: the bound on calls under which FifoSafety proves the FIFO a queue. */
  method WriteAllTracks(queue: SegmentQueue, tracks: seq<Track>) returns (outs: seq<seq<Byte>>, failed: bool)
    requires queue.Valid() && ValidTracks(tracks) && queue.filled == Script(tracks) && queue.taken == 0
    modifies queue`taken, queue`asked
    ensures queue.asked == old(queue.asked) + AllRequests(tracks)
    ensures !failed && queue.taken == |Script(tracks)| && |outs| == |tracks|
    ensures forall i | 0 <= i < |tracks| :: WholeTrack(tracks[i], outs[i])
  {
    hide WholeTrack, Script, Pushes, AllRequests, Requests;
    outs, failed := [], false;
    LemmaScriptEnds(tracks);
    for i := 0 to |tracks|
      invariant queue.Valid() && queue.taken == |Script(tracks[..i])| && |outs| == i
      invariant queue.asked == old(queue.asked) + AllRequests(tracks[..i])
      invariant queue.filled == Script(tracks) == Script(tracks[..i]) + Script(tracks[i..])
      invariant forall k | 0 <= k < i :: WholeTrack(tracks[k], outs[k])
    {
      LemmaScriptSnoc(tracks, i);
      LemmaScriptSplit(tracks, i);
      LemmaRequestsSnoc(tracks, i);
      var out, bad := queue.WritePacketData(tracks[i]);
      if bad {
        return outs, true;
      }
      outs := outs + [out];
    }
    LemmaScriptEnds(tracks);
  }

  lemma LemmaRequestsSnoc(tracks: seq<Track>, i: nat)
    requires ValidTracks(tracks) && i < |tracks|
    ensures AllRequests(tracks[..i + 1]) == AllRequests(tracks[..i]) + Requests(tracks[i], 0, BytesPt(tracks[i]))
  {
    assert tracks[..i + 1][..i] == tracks[..i];
  }

  lemma LemmaScriptEnds(tracks: seq<Track>)
    requires ValidTracks(tracks)
    ensures AllRequests(tracks[..0]) == [] && AllRequests(tracks[..|tracks|]) == AllRequests(tracks)
    ensures Script(tracks[..0]) == [] && Script(tracks[0..]) == Script(tracks) == Script(tracks[..|tracks|])
  {
    assert tracks[..|tracks|] == tracks == tracks[0..];
  }

  lemma LemmaScriptSplit(tracks: seq<Track>, i: nat)
    requires ValidTracks(tracks) && i < |tracks|
    requires Script(tracks) == Script(tracks[..i]) + Script(tracks[i..])
    ensures Script(tracks) == Script(tracks[..i + 1]) + Script(tracks[i + 1..])
    ensures Script(tracks)[|Script(tracks[..i])|..][..|Pushes(tracks[i], 0)|] == Pushes(tracks[i], 0)
  {
    LemmaScriptSnoc(tracks, i);
    assert tracks[i..][1..] == tracks[i + 1..];
    LemmaDropTake(Script(tracks[..i]), Pushes(tracks[i], 0), Script(tracks[i + 1..]));
  }

  lemma LemmaDropTake(a: seq<Segment>, b: seq<Segment>, d: seq<Segment>)
    ensures a + (b + d) == (a + b) + d
    ensures (a + (b + d))[|a|..][..|b|] == b
  {
  }

  // ----- what the segments of a track are

  function Contents(segments: seq<Segment>): seq<Byte> {
    if segments == [] then [] else segments[0].bytes + Contents(segments[1..])
  }

  /** Where reading a track ends: at end of file or at the known size, whichever comes first; a known size of 0 still
      reads one transfer. */
  function EndOf(tr: Track): nat {
    var limit := if tr.tracksize < 0 then |tr.file| else if tr.tracksize == 0 then BytesPt(tr) else tr.tracksize;
    if limit <= |tr.file| then limit else |tr.file|
  }

  /** The segments of a track, joined, are exactly that part of its file. */
  lemma {:induction false} PushesCoverTheFile(tr: Track, done: nat)
    requires ValidTrack(tr) && Pending(tr, done)
    ensures done <= EndOf(tr) && Contents(Pushes(tr, done)) == tr.file[done..EndOf(tr)]
    decreases |tr.file| - done
  {
    hide Pushes, Contents;
    var g := FillBuf(tr, done, BytesToRead(tr, done, BytesPt(tr)));
    LemmaPushesNext(tr, done, g);
    if g.len <= 0 || !Continues(tr, done + g.len) {
      assert Pushes(tr, done) == [g];
      LemmaLastSegment(tr, done, g);
    } else {
      LemmaFilled(tr, done, g);
      PushesCoverTheFile(tr, done + g.len);
      LemmaContentsCons(g, Pushes(tr, done + g.len));
      LemmaSplitAt(tr.file, done, done + g.len, EndOf(tr));
    }
  }

  lemma LemmaFilled(tr: Track, done: nat, g: Segment)
    requires ValidTrack(tr) && Pending(tr, done)
    requires g == FillBuf(tr, done, BytesToRead(tr, done, BytesPt(tr))) && g.len > 0
    ensures done + g.len <= |tr.file| && g.bytes == tr.file[done..done + g.len]
    ensures EndOf(tr) <= |tr.file|
  {
  }

  lemma LemmaLastSegment(tr: Track, done: nat, g: Segment)
    requires ValidTrack(tr) && Pending(tr, done)
    requires g == FillBuf(tr, done, BytesToRead(tr, done, BytesPt(tr)))
    requires g.len <= 0 || !Continues(tr, done + g.len)
    ensures done <= EndOf(tr) && Contents([g]) == tr.file[done..EndOf(tr)]
  {
    LemmaContentsCons(g, []);
    assert EndOf(tr) == done + g.len;
  }

  lemma LemmaContentsCons(g: Segment, tail: seq<Segment>)
    ensures Contents([g] + tail) == g.bytes + Contents(tail)
    ensures Contents([g]) == g.bytes
  {
    assert ([g] + tail)[1..] == tail;
  }

  lemma LemmaSplitAt(s: seq<Byte>, a: nat, b: nat, c: nat)
    requires a <= b <= c <= |s|
    ensures s[a..c] == s[a..b] + s[b..c]
  {
  }

  /** Every segment carries the track's descriptor and fits the transfer size; one that does not fill it is the last,
      or is followed only by the empty segment of end of file. */
  lemma {:induction false} PushesShape(tr: Track, done: nat, i: nat)
    requires ValidTrack(tr) && Pending(tr, done) && i < |Pushes(tr, done)|
    ensures var p := Pushes(tr, done);
            && p[i].fd == tr.fd && p[i].len == |p[i].bytes| <= BytesPt(tr)
            && (p[i].len < BytesPt(tr) ==> i == |p| - 1 || (i == |p| - 2 && p[i + 1].len == 0))
    decreases |tr.file| - done
  {
    hide Pushes;
    var g := FillBuf(tr, done, BytesToRead(tr, done, BytesPt(tr)));
    LemmaPushesNext(tr, done, g);
    if g.len > 0 && Continues(tr, done + g.len) {
      LemmaPushesNext(tr, done + g.len, FillBuf(tr, done + g.len, BytesToRead(tr, done + g.len, BytesPt(tr))));
      if i > 0 {
        PushesShape(tr, done + g.len, i - 1);
      }
    }
  }

  /** The last segment of a track is empty if and only if the end of its file is what ends it: with an unknown size, or a
      known size that the file does not reach, or an empty file of known size 0. A known size that is a multiple of the
      transfer size is no reason. */
  lemma {:induction false} LastSegmentIsEmptyExactly(tr: Track, done: nat)
    requires ValidTrack(tr) && Pending(tr, done)
    ensures |Pushes(tr, done)| > 0
    ensures Pushes(tr, done)[|Pushes(tr, done)| - 1].len == 0
            <==> tr.tracksize < 0 || |tr.file| < tr.tracksize || (tr.tracksize == 0 && tr.file == [])
    decreases |tr.file| - done
  {
    hide Pushes;
    var p, g := Pushes(tr, done), FillBuf(tr, done, BytesToRead(tr, done, BytesPt(tr)));
    LemmaNextSegment(tr, done, p, 0, g);
    if g.len > 0 && Continues(tr, done + g.len) {
      LastSegmentIsEmptyExactly(tr, done + g.len);
      assert p[1..][|p| - 2] == p[|p| - 1];
    }
  }

  /** For instance: two whole transfers, and no empty segment. */
  lemma WholeTransfersNeedNoEmptySegment(tr: Track)
    requires ValidTrack(tr) && tr.tracksize == 2 * BytesPt(tr) == |tr.file|
    ensures |Pushes(tr, 0)| == 2 && forall i | 0 <= i < 2 :: Pushes(tr, 0)[i].len == BytesPt(tr)
  {
    var n := BytesPt(tr);
    var g := FillBuf(tr, 0, n);
    assert BytesToRead(tr, 0, n) == n && Continues(tr, n);
    assert BytesToRead(tr, n, n) == n && !Continues(tr, 2 * n);
    assert Pushes(tr, n) == [FillBuf(tr, n, n)];
    assert Pushes(tr, 0) == [g] + Pushes(tr, n);
  }

  /** More bytes of the file than its known size are written if and only if that size is 0, packets are fixed and there is
      anything to read. */
  lemma MoreThanTheSizeExactly(tr: Track, out: seq<Byte>)
    requires ValidTrack(tr) && tr.tracksize >= 0 && WholeTrack(tr, out)
    ensures Data(tr) <= out && Data(tr) <= tr.file
    ensures |Data(tr)| > tr.tracksize <==> tr.tracksize == 0 && FixedPackets(tr) && tr.file != []
  {
  }

  /** For instance: a packet of two sectors with the first two bytes of a file that is said to be empty. */
  lemma FileOfSizeZeroIsWritten(out: seq<Byte>)
    requires WholeTrack(Track(3, 1, 2, 0, true, 2, [7, 8, 9]), out)
    ensures |out| >= 2 && out[0] == 7 && out[1] == 8
  {
    var tr := Track(3, 1, 2, 0, true, 2, [7, 8, 9]);
    assert Data(tr) == [7, 8];
    assert out[0] == Data(tr)[0] && out[1] == Data(tr)[1];
  }
}
