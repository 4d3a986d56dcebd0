/** do_read (cdda2wav/cdda2wav.c): read full bursts that overlap the previous one, retry with a changed overlap until the
    buffers can be joined, and set the offset at which the new part begins. */
module Stitching {
  import opened Arith
  import opened Common
  import opened SyncSearch

  const MAX_READRETRY := 12

  /** The disc's audio bytes, by absolute position. */
  type Disc = int -> Byte

  ghost predicate SliceOf(disc: Disc, s: seq<Byte>, at: int) {
    forall i | 0 <= i < |s| :: s[i] == At(disc, at, i)
  }

  ghost function At(disc: Disc, at: int, i: int): Byte {
    disc(at + i)
  }

  // ----- one join

  /** Two buffers read one after the other, the positions on the disc that they come from, and the overlap with which the
      second was read. */
  datatype Seam = Seam(oldbuf: seq<Byte>, from: int, newbuf: seq<Byte>, to: int, overlap: nat)

  /** Where, in the second buffer, the last SYNC_SIZE bytes of the first one are read again. */
  function Continuation(m: Seam): int {
    m.from + |m.oldbuf| - SYNC_SIZE - m.to
  }

  /** Joining at an offset is right when the bytes from there on follow the first buffer on the disc. */
  predicate Right(m: Seam, offset: int) {
    m.to + offset == m.from + |m.oldbuf|
  }

  /** The continuation is within reach of the search, and the needle does not occur nearer to the expected position. */
  ghost predicate Clear(m: Seam, nsectors: nat)
    requires |m.oldbuf| >= SYNC_SIZE
  {
    && 0 <= Continuation(m) < Reach(nsectors, m.overlap)
    && NoneBefore(m.newbuf, Needle(m.oldbuf), Expected(m.overlap), Rank(Expected(m.overlap), Continuation(m)))
  }

  ghost predicate ReadFrom(disc: Disc, m: Seam, nsectors: nat) {
    && |m.oldbuf| == |m.newbuf| == CD_FRAMESIZE_RAW * nsectors && 0 < m.overlap < nsectors
    && SliceOf(disc, m.oldbuf, m.from) && SliceOf(disc, m.newbuf, m.to)
  }

  lemma LemmaContinuationOccurs(disc: Disc, m: Seam, nsectors: nat)
    requires ReadFrom(disc, m, nsectors)
    requires 0 <= Continuation(m) && Continuation(m) + SYNC_SIZE <= |m.newbuf|
    ensures Occurs(m.newbuf, Needle(m.oldbuf), Continuation(m))
  {
    var p, needle := Continuation(m), Needle(m.oldbuf);
    forall i: int | 0 <= i < SYNC_SIZE
      ensures m.newbuf[p..p + SYNC_SIZE][i] == needle[i]
    {
      var k := |m.oldbuf| - SYNC_SIZE + i;
      assert needle[i] == m.oldbuf[k] == At(disc, m.from, k);
      assert m.newbuf[p..p + SYNC_SIZE][i] == m.newbuf[p + i] == At(disc, m.to, p + i);
    }
  }

  lemma LemmaReach(nsectors: nat, overlap: nat)
    ensures Reach(nsectors, overlap) + SYNC_SIZE - 1 <= CD_FRAMESIZE_RAW * nsectors
  {
  }

  /** However far off the drive positioned itself: what sync_buffers finds continues the previous buffer without gap or
      repetition if and only if the seam is clear. */
  lemma MatchContinues(disc: Disc, m: Seam, nsectors: nat, r: Option<int>)
    requires ReadFrom(disc, m, nsectors) && Finds(m.newbuf, Needle(m.oldbuf), nsectors, m.overlap, Before(r))
    ensures r.Some? && Right(m, r.value) <==> Clear(m, nsectors)
  {
    var p := Continuation(m);
    LemmaReach(nsectors, m.overlap);
    if 0 <= p < Reach(nsectors, m.overlap) {
      LemmaContinuationOccurs(disc, m, nsectors);
      assert r.Some?;
    }
  }

  /** In particular: a needle that occurs once in the new buffer, where it continues the old one, is enough; what the rest
      of the disc holds does not matter. */
  lemma OneOccurrenceIsClear(m: Seam, nsectors: nat)
    requires |m.oldbuf| >= SYNC_SIZE && 0 <= Continuation(m) < Reach(nsectors, m.overlap)
    requires forall at: int | Occurs(m.newbuf, Needle(m.oldbuf), at) :: at == Continuation(m)
    ensures Clear(m, nsectors)
  {
  }

  /** On a stretch of equal bytes, digital silence say, the join is right if and only if the drive was exactly where it was
      asked to be. */
  lemma SilenceHidesJitter(m: Seam, nsectors: nat, b: Byte)
    requires |m.oldbuf| == |m.newbuf| == CD_FRAMESIZE_RAW * nsectors && 0 < m.overlap < nsectors
    requires (forall i | 0 <= i < |m.oldbuf| :: m.oldbuf[i] == b) && (forall i | 0 <= i < |m.newbuf| :: m.newbuf[i] == b)
    ensures Clear(m, nsectors) <==> m.to == m.from + |m.oldbuf| - CD_FRAMESIZE_RAW * m.overlap
  {
    var e, needle := Expected(m.overlap), Needle(m.oldbuf);
    assert m.newbuf[e..e + SYNC_SIZE] == needle;
    assert Occurs(m.newbuf, needle, e);
    assert Rank(e, e) == 0;
    if Continuation(m) != e {
      assert Rank(e, Continuation(m)) > 0;
    }
  }

  // ----- do_read

  /** The overlap of the next attempt, and of each attempt, the first being number 0. */
  function NextOverlap(overlap: nat, nsectors: nat): nat {
    if overlap < nsectors - 1 then overlap + 1 else 1
  }

  function OverlapAt(overlap: nat, nsectors: nat, attempt: nat): nat {
    if attempt == 0 then overlap else NextOverlap(OverlapAt(overlap, nsectors, attempt - 1), nsectors)
  }

  /** After k attempts that did not succeed the overlap has gone up by k, wrapping around to 1. */
  lemma {:induction false} OverlapsCycle(overlap: nat, nsectors: nat, attempt: nat)
    requires 0 < overlap < nsectors
    ensures OverlapAt(overlap, nsectors, attempt) == (overlap - 1 + attempt) % (nsectors - 1) + 1
  {
    if attempt > 0 {
      OverlapsCycle(overlap, nsectors, attempt - 1);
      LemmaNextRemainder(overlap - 1 + (attempt - 1), nsectors - 1);
    } else {
      LemmaDivModUnique(overlap - 1, nsectors - 1, 0, overlap - 1);
    }
  }

  lemma LemmaNextRemainder(x: nat, m: nat)
    requires m > 0
    ensures (x + 1) % m == if x % m + 1 < m then x % m + 1 else 0
  {
    var q, r := x / m, x % m;
    assert x == q * m + r;
    assert (q + 1) * m == q * m + m;
    if r + 1 < m {
      LemmaDivModUnique(x + 1, m, q, r + 1);
    } else {
      LemmaDivModUnique(x + 1, m, q + 1, 0);
    }
  }

  /** When do_read gives up, the overlap, and with it the offset, is already that of an attempt it does not make: with a drive
      that reads what it is asked to, the part it keeps begins where the previous buffer ended if and only if there are two
      sectors in a buffer. */
  lemma GivingUpContinuesExactly(next: int, at: int, used: nat, nsectors: nat)
    requires 0 < used < nsectors && at + used == next
    ensures at + NextOverlap(used, nsectors) == next <==> nsectors == 2
  {
  }

  /** What do_read reads at each attempt: always the same sectors are to be continued, with the overlap of the attempt. */
  function Attempt(read: (int, nat) -> seq<Byte>, next: int, overlap: nat, nsectors: nat, attempt: nat): seq<Byte> {
    read(next - OverlapAt(overlap, nsectors, attempt), attempt)
  }

  /** None of the first n attempts can be joined to the previous buffer. */
  ghost predicate AllFail(read: (int, nat) -> seq<Byte>, next: int, overlap: nat, nsectors: nat, previous: seq<Byte>, n: nat)
  {
    forall k: nat | k < n :: Fails(read, next, overlap, nsectors, previous, k)
  }

  ghost predicate Fails(read: (int, nat) -> seq<Byte>, next: int, overlap: nat, nsectors: nat, previous: seq<Byte>, k: nat)
  {
    && |previous| >= SYNC_SIZE
    && Finds(Attempt(read, next, overlap, nsectors, k), Needle(previous), nsectors, OverlapAt(overlap, nsectors, k), None)
  }

  lemma LemmaNoneTried(read: (int, nat) -> seq<Byte>, next: int, overlap: nat, nsectors: nat, previous: seq<Byte>)
    ensures AllFail(read, next, overlap, nsectors, previous, 0) && OverlapAt(overlap, nsectors, 0) == overlap
  {
  }

  lemma LemmaOneMoreFails(read: (int, nat) -> seq<Byte>, next: int, overlap: nat, nsectors: nat, previous: seq<Byte>, k: nat,
                          used: nat)
    requires AllFail(read, next, overlap, nsectors, previous, k) && used == OverlapAt(overlap, nsectors, k)
    requires |previous| >= SYNC_SIZE && Finds(read(next - used, k), Needle(previous), nsectors, used, None)
    ensures AllFail(read, next, overlap, nsectors, previous, k + 1)
    ensures OverlapAt(overlap, nsectors, k + 1) == NextOverlap(used, nsectors)
  {
    hide Finds;
  }

  class Reader {
    const nsectors: nat
    var lSector: int
    var overlap: nat
    var previous: seq<Byte>
    var started: bool

    constructor (nsectors: nat, overlap: nat, lSector: int)
      requires overlap < nsectors
      ensures Valid() && !started && this.nsectors == nsectors && this.overlap == overlap && this.lSector == lSector
    {
      this.nsectors, this.overlap, this.lSector := nsectors, overlap, lSector;
      previous, started := [], false;
    }

    ghost predicate Valid()
      reads this
    {
      overlap < nsectors && (started ==> |previous| == Size())
    }

    function Size(): nat {
      CD_FRAMESIZE_RAW * nsectors
    }

    /** synchronize: the first buffer is taken as it is, and so are all when bursts do not overlap. */
    method Synchronize(p: seq<Byte>) returns (newbuf: Option<int>)
      requires Valid() && |p| == Size()
      ensures if started && overlap != 0 then Finds(p, Needle(previous), nsectors, overlap, Before(newbuf))
              else newbuf == Some(0)
    {
      if started && overlap != 0 {
        newbuf := SyncBuffers(p, previous, nsectors, overlap);
      } else {
        newbuf := Some(0);
      }
    }

    /** The retry after a failed synchronization: one more sector of overlap, or from the maximum back to one. */
    method ChangeOverlap()
      requires Valid() && overlap != 0
      modifies `lSector, `overlap
      ensures Valid() && overlap != 0 && lSector + overlap == old(lSector + overlap)
      ensures overlap == NextOverlap(old(overlap), nsectors)
    {
      if overlap < nsectors - 1 {
        overlap := overlap + 1;
        lSector := lSector - 1;
      } else {
        lSector := lSector + overlap - 1;
        overlap := 1;
      }
    }

    /** do_read for full bursts: read(sector, attempt) is what the drive delivers. The first attempt that can be joined is
        kept, or else the last of all: it was for sector `at` with overlap `used`. offset is where the new part of buf begins.
        After a join that found more than a sector already known, the next overlap is smaller. */
    method DoRead(read: (int, nat) -> seq<Byte>)
      returns (buf: seq<Byte>, offset: int, joined: bool, at: int, ghost attempt: nat, ghost used: nat)
      requires Valid()
      requires forall sector: int, attempt: nat :: |read(sector, attempt)| == Size()
      modifies this
      ensures Valid() && started && previous == buf && |buf| == Size() && (used == 0 <==> overlap == 0)
      ensures used == OverlapAt(old(overlap), nsectors, attempt) < nsectors && at + used == old(lSector + overlap)
      ensures buf == read(at, attempt)
      ensures AllFail(read, old(lSector + overlap), old(overlap), nsectors, old(previous),
                      if joined then attempt else MAX_READRETRY)
      ensures if joined then attempt < MAX_READRETRY else attempt == MAX_READRETRY - 1
      ensures old(started) && old(overlap) != 0 ==>
                Finds(buf, Needle(old(previous)), nsectors, used, if joined then Some(offset - SYNC_SIZE) else None)
      ensures !old(started) || old(overlap) == 0 ==> joined && offset == 0 && attempt == 0
      ensures overlap == if !joined then NextOverlap(used, nsectors)
                         else if offset > CD_FRAMESIZE_RAW && used > 1 then used - 1 else used
      ensures if joined then lSector + overlap == at + nsectors
              else lSector + overlap == old(lSector + overlap) + nsectors - overlap && offset == overlap * CD_FRAMESIZE_RAW
    {
      hide Finds, AllFail, OverlapAt, NextOverlap;
      LemmaNoneTried(read, lSector + overlap, overlap, nsectors, previous);
      var retryCount := 0;
      ghost var sum := lSector + overlap;
      var newbuf := None;
      buf, at, attempt, used := [], lSector, 0, overlap;
      while retryCount < MAX_READRETRY
        invariant Valid() && 0 <= retryCount <= MAX_READRETRY
        invariant started == old(started) && previous == old(previous)
        invariant lSector + overlap == sum && overlap == OverlapAt(old(overlap), nsectors, retryCount)
        invariant AllFail(read, sum, old(overlap), nsectors, previous, retryCount)
        invariant retryCount > 0 ==>
                    && started && old(overlap) != 0 && overlap != 0 && newbuf.None?
                    && attempt == retryCount - 1 && used == OverlapAt(old(overlap), nsectors, attempt) < nsectors
                    && used != 0 && at + used == sum && buf == read(at, attempt)
                    && overlap == NextOverlap(used, nsectors)
                    && Finds(buf, Needle(previous), nsectors, used, None)
      {
        at := lSector;
        attempt, used := retryCount, overlap;
        buf := read(lSector, retryCount);
        newbuf := Synchronize(buf);
        if newbuf.Some? {
          break;
        }
        LemmaOneMoreFails(read, sum, old(overlap), nsectors, previous, retryCount, used);
        ChangeOverlap();
        retryCount := retryCount + 1;
      }
      joined := newbuf.Some?;
      offset := if joined then newbuf.value else overlap * CD_FRAMESIZE_RAW;
      if joined && started && offset > CD_FRAMESIZE_RAW && overlap > 1 {
        overlap := overlap - 1;
      }
      lSector := lSector + nsectors - overlap;
      previous, started := buf, true;
    }
  }

  // ----- a recording

  /** A drive: what it delivers for a sector, at each attempt, and from which position on the disc. */
  datatype Drive = Drive(read: (int, nat) -> seq<Byte>, ghost position: (int, nat) -> int)

  ghost predicate Delivers(disc: Disc, drive: Drive, size: nat) {
    forall sector: int, attempt: nat ::
      |drive.read(sector, attempt)| == size && SliceOf(disc, drive.read(sector, attempt), drive.position(sector, attempt))
  }

  lemma AnAccurateDriveDelivers(disc: Disc, drive: Drive, nsectors: nat)
    requires forall sector: int, attempt: nat ::
               && drive.position(sector, attempt) == CD_FRAMESIZE_RAW * sector
               && |drive.read(sector, attempt)| == CD_FRAMESIZE_RAW * nsectors
               && SliceOf(disc, drive.read(sector, attempt), CD_FRAMESIZE_RAW * sector)
    ensures Delivers(disc, drive, CD_FRAMESIZE_RAW * nsectors)
  {
  }

  /** Buffer k + 1 is what drive k + 1 delivered at some attempt for some sector, with some overlap. */
  ghost predicate SeamOf(disc: Disc, drive: Drive, nsectors: nat, m: Seam) {
    && ReadFrom(disc, m, nsectors)
    && exists sector: int, attempt: nat ::
         attempt < MAX_READRETRY && m.newbuf == drive.read(sector, attempt) && m.to == drive.position(sector, attempt)
  }

  ghost predicate FirstOf(drive: Drive, first: seq<Byte>, start: int) {
    exists sector: int, attempt: nat ::
      attempt < MAX_READRETRY && first == drive.read(sector, attempt) && start == drive.position(sector, attempt)
  }

  ghost predicate SeamsOf(disc: Disc, drives: seq<Drive>, nsectors: nat, seams: seq<Seam>) {
    && (|seams| == 0 || |seams| < |drives|)
    && (forall k | 0 <= k < |seams| :: SeamOf(disc, drives[k + 1], nsectors, seams[k]))
    && (forall k | 1 <= k < |seams| :: Linked(seams[k - 1], seams[k]))
  }

  ghost predicate Linked(m: Seam, n: Seam) {
    m.newbuf == n.oldbuf && m.to == n.from
  }

  ghost predicate AllClear(seams: seq<Seam>, nsectors: nat) {
    forall k | 0 <= k < |seams| :: |seams[k].oldbuf| >= SYNC_SIZE && Clear(seams[k], nsectors)
  }

  /** The joins are right exactly at the clear seams. */
  ghost predicate RightWhereClear(seams: seq<Seam>, offsets: seq<nat>, nsectors: nat) {
    && |offsets| <= |seams|
    && forall k | 0 <= k < |offsets| ::
         && offsets[k] <= |seams[k].newbuf| && |seams[k].oldbuf| >= SYNC_SIZE
         && (Right(seams[k], offsets[k]) <==> Clear(seams[k], nsectors))
  }

  /** The first buffer, and the others from their offsets on. */
  function Stitched(first: seq<Byte>, seams: seq<Seam>, offsets: seq<nat>): seq<Byte>
    requires |offsets| <= |seams| && forall k | 0 <= k < |offsets| :: offsets[k] <= |seams[k].newbuf|
  {
    if offsets == [] then first
    else
      var k := |offsets| - 1;
      Stitched(first, seams, offsets[..k]) + seams[k].newbuf[offsets[k]..]
  }

  lemma {:induction false} LemmaStitchedPrefix(first: seq<Byte>, seams: seq<Seam>, m: Seam, offsets: seq<nat>)
    requires |offsets| <= |seams| && forall k | 0 <= k < |offsets| :: offsets[k] <= |seams[k].newbuf|
    ensures Stitched(first, seams + [m], offsets) == Stitched(first, seams, offsets)
  {
    if offsets != [] {
      LemmaStitchedPrefix(first, seams, m, offsets[..|offsets| - 1]);
    }
  }

  lemma LemmaExtendSlice(disc: Disc, out: seq<Byte>, start: int, buf: seq<Byte>, from: int, offset: int)
    requires SliceOf(disc, out, start) && SliceOf(disc, buf, from)
    requires 0 <= offset <= |buf| && from + offset == start + |out|
    ensures SliceOf(disc, out + buf[offset..], start) && start + |out + buf[offset..]| == from + |buf|
  {
    var longer := out + buf[offset..];
    forall i | 0 <= i < |longer|
      ensures longer[i] == At(disc, start, i)
    {
      if i >= |out| {
        assert longer[i] == buf[offset + (i - |out|)] == At(disc, from, offset + (i - |out|));
      }
    }
  }

  /** Buffers joined rightly are one contiguous stretch of the disc, which ends where the last buffer ends. */
  lemma {:induction false} RightJoinsAreContiguous(disc: Disc, drives: seq<Drive>, nsectors: nat, first: seq<Byte>, start: int,
                                                   seams: seq<Seam>, offsets: seq<nat>)
    requires SeamsOf(disc, drives, nsectors, seams) && |first| == CD_FRAMESIZE_RAW * nsectors
    requires SliceOf(disc, first, start) && (|seams| > 0 ==> seams[0].oldbuf == first && seams[0].from == start)
    requires |offsets| <= |seams|
    requires forall k | 0 <= k < |offsets| :: offsets[k] <= |seams[k].newbuf| && Right(seams[k], offsets[k])
    ensures var out := Stitched(first, seams, offsets);
            && SliceOf(disc, out, start)
            && |out| >= CD_FRAMESIZE_RAW * nsectors
            && start + |out| == (if offsets == [] then start else seams[|offsets| - 1].to) + CD_FRAMESIZE_RAW * nsectors
  {
    hide SliceOf;
    if offsets != [] {
      var k := |offsets| - 1;
      RightJoinsAreContiguous(disc, drives, nsectors, first, start, seams, offsets[..k]);
      assert SeamOf(disc, drives[k + 1], nsectors, seams[k]);
      if k > 0 {
        assert Linked(seams[k - 1], seams[k]);
      }
      LemmaExtendSlice(disc, Stitched(first, seams, offsets[..k]), start, seams[k].newbuf, seams[k].to, offsets[k]);
    }
  }

  /** One more call of do_read. */
  method ReadNext(ghost disc: Disc, reader: Reader, drive: Drive, ghost from: int)
    returns (buf: seq<Byte>, offset: int, joined: bool, ghost m: Seam)
    requires reader.Valid() && reader.started && reader.overlap != 0 && SliceOf(disc, reader.previous, from)
    requires Delivers(disc, drive, reader.Size())
    modifies reader
    ensures reader.Valid() && reader.started && reader.overlap != 0 && reader.previous == buf
    ensures SeamOf(disc, drive, reader.nsectors, m)
    ensures m.oldbuf == old(reader.previous) && m.from == from && m.newbuf == buf
    ensures joined ==> 0 <= offset <= |buf| && (Right(m, offset) <==> Clear(m, reader.nsectors))
    ensures !joined ==> !Clear(m, reader.nsectors)
  {
    hide Finds, SliceOf, Clear, Occurs;
    ghost var oldbuf := reader.previous;
    var at;
    ghost var attempt, used;
    buf, offset, joined, at, attempt, used := reader.DoRead(drive.read);
    m := Seam(oldbuf, from, buf, drive.position(at, attempt), used);
    MatchContinues(disc, m, reader.nsectors, if joined then Some(offset) else None);
    if joined {
      LemmaFoundInside(buf, Needle(oldbuf), reader.nsectors, used, offset - SYNC_SIZE);
    }
  }

  lemma LemmaFoundInside(newbuf: seq<Byte>, needle: seq<Byte>, nsectors: nat, overlap: nat, at: int)
    requires Finds(newbuf, needle, nsectors, overlap, Some(at))
    ensures 0 <= at && at + |needle| <= |newbuf|
  {
  }

  lemma LemmaOneMoreSeam(disc: Disc, drives: seq<Drive>, nsectors: nat, seams: seq<Seam>, m: Seam)
    requires SeamsOf(disc, drives, nsectors, seams) && |seams| + 1 < |drives|
    requires SeamOf(disc, drives[|seams| + 1], nsectors, m) && (seams != [] ==> Linked(seams[|seams| - 1], m))
    ensures SeamsOf(disc, drives, nsectors, seams + [m])
  {
    hide SeamOf, Linked;
  }

  lemma LemmaOneMoreJoin(seams: seq<Seam>, offsets: seq<nat>, nsectors: nat, m: Seam, offset: nat)
    requires RightWhereClear(seams, offsets, nsectors) && |seams| == |offsets|
    requires offset <= |m.newbuf| && |m.oldbuf| >= SYNC_SIZE && (Right(m, offset) <==> Clear(m, nsectors))
    ensures RightWhereClear(seams + [m], offsets + [offset], nsectors)
  {
    hide Clear, Right;
  }

  lemma LemmaFailedJoin(seams: seq<Seam>, offsets: seq<nat>, nsectors: nat, m: Seam)
    requires RightWhereClear(seams, offsets, nsectors) && |seams| == |offsets|
    requires |m.oldbuf| >= SYNC_SIZE && !Clear(m, nsectors)
    ensures RightWhereClear(seams + [m], offsets, nsectors) && !AllClear(seams + [m], nsectors)
  {
    hide Clear, Right;
    assert (seams + [m])[|seams|] == m;
  }

  /** What is recorded while all buffers can be joined. */
  ghost predicate Recorded(disc: Disc, drives: seq<Drive>, nsectors: nat, first: seq<Byte>, start: int, seams: seq<Seam>,
                           offsets: seq<nat>, out: seq<Byte>, previous: seq<Byte>, from: int) {
    && |first| == CD_FRAMESIZE_RAW * nsectors && SliceOf(disc, first, start)
    && SeamsOf(disc, drives, nsectors, seams) && RightWhereClear(seams, offsets, nsectors)
    && |seams| == |offsets|
    && (if seams == [] then previous == first && from == start
        else seams[0].oldbuf == first && seams[0].from == start
             && previous == seams[|seams| - 1].newbuf && from == seams[|seams| - 1].to)
    && SliceOf(disc, previous, from)
    && out == Stitched(first, seams, offsets)
  }

  lemma LemmaRecorded(disc: Disc, drives: seq<Drive>, nsectors: nat, first: seq<Byte>, start: int, seams: seq<Seam>,
                      offsets: seq<nat>, out: seq<Byte>, previous: seq<Byte>, from: int, m: Seam, offset: nat)
    requires Recorded(disc, drives, nsectors, first, start, seams, offsets, out, previous, from)
    requires |seams| + 1 < |drives| && SeamOf(disc, drives[|seams| + 1], nsectors, m)
    requires m.oldbuf == previous && m.from == from && offset <= |m.newbuf|
    requires Right(m, offset) <==> Clear(m, nsectors)
    ensures Recorded(disc, drives, nsectors, first, start, seams + [m], offsets + [offset], out + m.newbuf[offset..],
                     m.newbuf, m.to)
  {
    hide SliceOf, Clear, Right;
    LemmaOneMoreSeam(disc, drives, nsectors, seams, m);
    LemmaOneMoreJoin(seams, offsets, nsectors, m, offset);
    hide SeamsOf, RightWhereClear;
    LemmaStitchedPrefix(first, seams, m, offsets);
    assert (offsets + [offset])[..|offsets|] == offsets;
  }

  lemma LemmaAllClear(disc: Disc, drives: seq<Drive>, nsectors: nat, first: seq<Byte>, start: int, seams: seq<Seam>,
                      offsets: seq<nat>, out: seq<Byte>, previous: seq<Byte>, from: int)
    requires Recorded(disc, drives, nsectors, first, start, seams, offsets, out, previous, from)
    requires AllClear(seams, nsectors)
    ensures SliceOf(disc, out, start) && |out| >= CD_FRAMESIZE_RAW * nsectors
    ensures start + |out| == from + CD_FRAMESIZE_RAW * nsectors && SliceOf(disc, previous, from)
  {
    hide SliceOf, Clear, Right;
    RightJoinsAreContiguous(disc, drives, nsectors, first, start, seams, offsets);
  }

  /** Successive calls of do_read. Whatever the drives deliver of the disc, each join is right if and only if its seam is
      clear; when all are, every buffer is joined, and the recording is one contiguous stretch of the disc. */
  method Record(ghost disc: Disc, reader: Reader, drives: seq<Drive>)
    returns (out: seq<Byte>, ok: bool, ghost start: int, ghost first: seq<Byte>, ghost seams: seq<Seam>,
             ghost offsets: seq<nat>)
    requires reader.Valid() && !reader.started && reader.overlap != 0 && |drives| > 0
    requires forall k | 0 <= k < |drives| :: Delivers(disc, drives[k], reader.Size())
    modifies reader
    ensures reader.Valid() && SeamsOf(disc, drives, reader.nsectors, seams)
    ensures FirstOf(drives[0], first, start)
    ensures |seams| > 0 ==> seams[0].oldbuf == first && seams[0].from == start
    ensures RightWhereClear(seams, offsets, reader.nsectors) && out == Stitched(first, seams, offsets)
    ensures if ok then |seams| == |offsets| == |drives| - 1 else !AllClear(seams, reader.nsectors)
    ensures AllClear(seams, reader.nsectors) ==>
              && SliceOf(disc, out, start) && |out| >= reader.Size()
              && SliceOf(disc, reader.previous, start + |out| - reader.Size())
  {
    hide Delivers, SliceOf, SeamOf, SeamsOf, RightWhereClear, AllClear, Stitched, Clear, Right, Linked, Finds, Recorded;
    var offset, at;
    ghost var attempt, used;
    LemmaDelivers(disc, drives[0], reader.Size());
    out, offset, ok, at, attempt, used := reader.DoRead(drives[0].read);
    first, start, seams, offsets := out, drives[0].position(at, attempt), [], [];
    ghost var from := start;
    LemmaFirst(disc, drives, reader.nsectors, first, start);
    var k := 1;
    while k < |drives|
      invariant 1 <= k <= |drives| && ok
      invariant reader.Valid() && reader.started && reader.overlap != 0
      invariant |seams| == k - 1
      invariant Recorded(disc, drives, reader.nsectors, first, start, seams, offsets, out, reader.previous, from)
    {
      ghost var previous := reader.previous;
      LemmaPrevious(disc, drives, reader.nsectors, first, start, seams, offsets, out, previous, from);
      var buf, joined;
      ghost var m;
      buf, offset, joined, m := ReadNext(disc, reader, drives[k], from);
      if !joined {
        LemmaRejected(disc, drives, reader.nsectors, first, start, seams, offsets, out, previous, from, m);
        seams := seams + [m];
        return out, false, start, first, seams, offsets;
      }
      LemmaRecorded(disc, drives, reader.nsectors, first, start, seams, offsets, out, previous, from, m, offset);
      seams, offsets, from := seams + [m], offsets + [offset], m.to;
      out := out + buf[offset..];
      k := k + 1;
    }
    LemmaPrevious(disc, drives, reader.nsectors, first, start, seams, offsets, out, reader.previous, from);
    if AllClear(seams, reader.nsectors) {
      LemmaAllClear(disc, drives, reader.nsectors, first, start, seams, offsets, out, reader.previous, from);
    }
  }

  lemma LemmaDelivers(disc: Disc, drive: Drive, size: nat)
    requires Delivers(disc, drive, size)
    ensures forall sector: int, attempt: nat :: |drive.read(sector, attempt)| == size
    ensures forall sector: int, attempt: nat ::
              SliceOf(disc, drive.read(sector, attempt), drive.position(sector, attempt))
  {
  }

  lemma LemmaFirst(disc: Disc, drives: seq<Drive>, nsectors: nat, first: seq<Byte>, start: int)
    requires |first| == CD_FRAMESIZE_RAW * nsectors && SliceOf(disc, first, start)
    ensures Recorded(disc, drives, nsectors, first, start, [], [], first, first, start)
  {
  }

  lemma LemmaPrevious(disc: Disc, drives: seq<Drive>, nsectors: nat, first: seq<Byte>, start: int, seams: seq<Seam>,
                      offsets: seq<nat>, out: seq<Byte>, previous: seq<Byte>, from: int)
    requires Recorded(disc, drives, nsectors, first, start, seams, offsets, out, previous, from)
    ensures SliceOf(disc, previous, from) && |seams| == |offsets| && SeamsOf(disc, drives, nsectors, seams)
    ensures RightWhereClear(seams, offsets, nsectors) && out == Stitched(first, seams, offsets)
    ensures |seams| > 0 ==> seams[0].oldbuf == first && seams[0].from == start
    ensures seams == [] ==> previous == first && from == start
  {
  }

  lemma LemmaRejected(disc: Disc, drives: seq<Drive>, nsectors: nat, first: seq<Byte>, start: int, seams: seq<Seam>,
                      offsets: seq<nat>, out: seq<Byte>, previous: seq<Byte>, from: int, m: Seam)
    requires Recorded(disc, drives, nsectors, first, start, seams, offsets, out, previous, from)
    requires |seams| + 1 < |drives| && SeamOf(disc, drives[|seams| + 1], nsectors, m)
    requires m.oldbuf == previous && m.from == from && !Clear(m, nsectors)
    ensures SeamsOf(disc, drives, nsectors, seams + [m]) && RightWhereClear(seams + [m], offsets, nsectors)
    ensures !AllClear(seams + [m], nsectors) && out == Stitched(first, seams + [m], offsets)
  {
    hide SliceOf, Clear, Right;
    LemmaOneMoreSeam(disc, drives, nsectors, seams, m);
    LemmaFailedJoin(seams, offsets, nsectors, m);
    LemmaStitchedPrefix(first, seams, m, offsets);
  }
}
