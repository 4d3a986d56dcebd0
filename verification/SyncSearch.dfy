/** The jitter correction of cdda2wav: overlapping reads are joined where the end of the previous buffer turns up in
    the new one (my_symmemmem, my_memmem, my_memrmem and sync_buffers in cdda2wav/resample.c). Pointers are offsets
    into the new buffer; every compare has to lie inside it. */
module SyncSearch {
  import opened Common

  const SYNC_SIZE := 600
  const CD_FRAMESIZE_RAW := 2352

  /** memcmp(needle, &buf[at], |needle|) == 0, for a position at which the needle fits. */
  predicate Matches(buf: seq<Byte>, needle: seq<Byte>, at: int)
    requires 0 <= at && at + |needle| <= |buf|
  {
    buf[at..at + |needle|] == needle
  }

  /** The needle fits and matches at this position. */
  ghost predicate Occurs(buf: seq<Byte>, needle: seq<Byte>, at: int) {
    && 0 <= at && at + |needle| <= |buf|
    && Matches(buf, needle, at)
  }

  /** The place of a position in the search order 0, -1, +1, -2, +2, ... around the expected one. */
  function Rank(expected: int, at: int): (r: nat) {
    if at >= expected then 2 * (at - expected) else 2 * (expected - at) - 1
  }

  ghost predicate NoneIn(buf: seq<Byte>, needle: seq<Byte>, lo: int, hi: int) {
    forall at: int | lo <= at < hi :: !Occurs(buf, needle, at)
  }

  ghost predicate NoneBefore(buf: seq<Byte>, needle: seq<Byte>, expected: int, rank: nat) {
    forall at: int | Rank(expected, at) < rank :: !Occurs(buf, needle, at)
  }

  /** my_symmemmem: from the expected position outwards, on both sides in turn. */
  method SymMemMem(buf: seq<Byte>, expected: int, haystackLen: int, needle: seq<Byte>) returns (r: Option<int>)
    requires haystackLen >= |needle|
    requires haystackLen - |needle| <= expected && expected + haystackLen <= |buf| + 1
    ensures r.Some? ==>
              && Occurs(buf, needle, r.value) && NoneBefore(buf, needle, expected, Rank(expected, r.value))
              && expected - (haystackLen - |needle|) <= r.value < expected + (haystackLen - |needle|)
    ensures r.None? ==>
              NoneIn(buf, needle, expected - (haystackLen - |needle|), expected + (haystackLen - |needle|))
  {
    var upperLimit := expected + haystackLen - |needle| - 1;
    var haystack, haystack2 := expected, expected - 1;
    while haystack <= upperLimit
      invariant expected <= haystack <= upperLimit + 1
      invariant haystack2 == expected - 1 - (haystack - expected)
      invariant NoneBefore(buf, needle, expected, 2 * (haystack - expected))
    {
      if Matches(buf, needle, haystack) {
        return Some(haystack);
      } else if Matches(buf, needle, haystack2) {
        return Some(haystack2);
      }
      haystack2 := haystack2 - 1;
      haystack := haystack + 1;
    }
    return None;
  }

  /** my_memmem: forwards. */
  method MemMem(buf: seq<Byte>, start: int, haystackLen: int, needle: seq<Byte>) returns (r: Option<int>)
    requires 0 <= start && haystackLen >= 0 && start + haystackLen <= |buf|
    ensures r.Some? ==>
              && Occurs(buf, needle, r.value) && start <= r.value <= start + haystackLen - |needle|
              && NoneIn(buf, needle, start, r.value)
    ensures r.None? ==> NoneIn(buf, needle, start, start + haystackLen - |needle| + 1)
  {
    var upperLimit := start + haystackLen - |needle|;
    var haystack := start;
    while haystack <= upperLimit
      invariant start <= haystack
      invariant NoneIn(buf, needle, start, haystack)
    {
      if Matches(buf, needle, haystack) {
        return Some(haystack);
      }
      haystack := haystack + 1;
    }
    return None;
  }

  /** my_memrmem: backwards. */
  method MemRMem(buf: seq<Byte>, start: int, haystackLen: int, needle: seq<Byte>) returns (r: Option<int>)
    requires haystackLen >= 0 && 0 <= start - (haystackLen - 1) && start + |needle| <= |buf|
    ensures r.Some? ==>
              && Occurs(buf, needle, r.value) && start - (haystackLen - 1) <= r.value <= start
              && NoneIn(buf, needle, r.value + 1, start + 1)
    ensures r.None? ==> NoneIn(buf, needle, start - (haystackLen - 1), start + 1)
  {
    var lowerLimit := start - (haystackLen - 1);
    var haystack := start;
    while haystack >= lowerLimit
      invariant haystack <= start
      invariant NoneIn(buf, needle, haystack + 1, start + 1)
    {
      if Matches(buf, needle, haystack) {
        return Some(haystack);
      }
      haystack := haystack - 1;
    }
    return None;
  }

  /** The last SYNC_SIZE bytes of the previous buffer. */
  function Needle(oldbuf: seq<Byte>): (n: seq<Byte>)
    requires |oldbuf| >= SYNC_SIZE
    ensures |n| == SYNC_SIZE
  {
    oldbuf[|oldbuf| - SYNC_SIZE..]
  }

  /** Where the needle is expected: at the end of the overlap. */
  function Expected(overlap: nat): int {
    CD_FRAMESIZE_RAW * overlap - SYNC_SIZE
  }

  /** The positions the search reaches: all, unless exactly half of the buffer overlaps. */
  function Reach(nsectors: nat, overlap: nat): int {
    CD_FRAMESIZE_RAW * nsectors - if 2 * overlap == nsectors then 2 * SYNC_SIZE else SYNC_SIZE - 1
  }

  /** The position SYNC_SIZE bytes earlier. */
  function Before(r: Option<int>): Option<int> {
    match r
    case Some(value) => Some(value - SYNC_SIZE)
    case None => None
  }

  /** What the search finds: an occurrence below Reach if there is one, and then the nearest to the expected position, of
      all occurrences in the whole buffer. */
  ghost predicate Finds(newbuf: seq<Byte>, needle: seq<Byte>, nsectors: nat, overlap: nat, at: Option<int>) {
    match at
    case Some(p) =>
      && p < Reach(nsectors, overlap) && Occurs(newbuf, needle, p)
      && NoneBefore(newbuf, needle, Expected(overlap), Rank(Expected(overlap), p))
    case None => NoneIn(newbuf, needle, 0, Reach(nsectors, overlap))
  }

  /** sync_buffers: the position behind the occurrence found. */
  method SyncBuffers(newbuf: seq<Byte>, oldbuf: seq<Byte>, nsectors: nat, overlap: nat) returns (r: Option<int>)
    requires |newbuf| == |oldbuf| == CD_FRAMESIZE_RAW * nsectors
    requires overlap < nsectors
    ensures overlap == 0 ==> r == Some(0)
    ensures overlap != 0 ==> Finds(newbuf, Needle(oldbuf), nsectors, overlap, Before(r))
  {
    hide Finds, NoneIn, Occurs, Reach;
    r := Some(0);
    if overlap != 0 {
      var needle := oldbuf[CD_FRAMESIZE_RAW * nsectors - SYNC_SIZE..];
      var haystackLen := (nsectors - overlap) * CD_FRAMESIZE_RAW + SYNC_SIZE + 1;
      if overlap * CD_FRAMESIZE_RAW < haystackLen {
        haystackLen := overlap * CD_FRAMESIZE_RAW;
      }
      var haystack := CD_FRAMESIZE_RAW * overlap - SYNC_SIZE;
      r := SymMemMem(newbuf, haystack, haystackLen, needle);
      if r.Some? {
        LemmaNear(newbuf, needle, nsectors, overlap, haystackLen - SYNC_SIZE, r.value);
        r := Some(r.value + SYNC_SIZE);
      } else {
        r := SearchRest(newbuf, needle, nsectors, overlap, haystackLen - SYNC_SIZE);
        if r.Some? {
          r := Some(r.value + SYNC_SIZE);
        }
      }
    }
  }

  /** The width of the symmetrical search: what it covers on either side of the expected position. */
  ghost predicate WidthOk(nsectors: nat, overlap: nat, width: int) {
    && 0 < overlap < nsectors
    && width == if 2 * overlap <= nsectors then overlap * CD_FRAMESIZE_RAW - SYNC_SIZE
                else (nsectors - overlap) * CD_FRAMESIZE_RAW + 1
  }

  lemma LemmaNear(newbuf: seq<Byte>, needle: seq<Byte>, nsectors: nat, overlap: nat, width: int, at: int)
    requires |newbuf| == CD_FRAMESIZE_RAW * nsectors && |needle| == SYNC_SIZE && WidthOk(nsectors, overlap, width)
    requires Occurs(newbuf, needle, at)
    requires NoneBefore(newbuf, needle, Expected(overlap), Rank(Expected(overlap), at))
    requires Expected(overlap) - width <= at < Expected(overlap) + width
    ensures Finds(newbuf, needle, nsectors, overlap, Some(at))
  {
    hide Matches;
  }

  /** The asymmetrical part, lines 229 to 242. */
  method SearchRest(newbuf: seq<Byte>, needle: seq<Byte>, nsectors: nat, overlap: nat, ghost width: int)
    returns (r: Option<int>)
    requires |newbuf| == CD_FRAMESIZE_RAW * nsectors && |needle| == SYNC_SIZE && WidthOk(nsectors, overlap, width)
    requires NoneIn(newbuf, needle, Expected(overlap) - width, Expected(overlap) + width)
    ensures Finds(newbuf, needle, nsectors, overlap, r)
  {
    hide Finds, NoneIn, Occurs, Reach;
    if 2 * overlap == nsectors {
      LemmaNoRest(newbuf, needle, nsectors, overlap, width);
      r := None;
    } else if 2 * overlap > nsectors {
      var haystackLen := (2 * overlap - nsectors) * CD_FRAMESIZE_RAW;
      r := MemRMem(newbuf, haystackLen - 1, haystackLen, needle);
      LemmaRestInFront(newbuf, needle, nsectors, overlap, width, r);
    } else {
      var haystack := 2 * (overlap * CD_FRAMESIZE_RAW - SYNC_SIZE);
      var haystackLen := (nsectors - 2 * overlap) * CD_FRAMESIZE_RAW + 2 * SYNC_SIZE;
      r := MemMem(newbuf, haystack, haystackLen, needle);
      LemmaRestBehind(newbuf, needle, nsectors, overlap, width, r);
    }
  }

  lemma LemmaNoRest(newbuf: seq<Byte>, needle: seq<Byte>, nsectors: nat, overlap: nat, width: int)
    requires 2 * overlap == nsectors && WidthOk(nsectors, overlap, width)
    requires NoneIn(newbuf, needle, Expected(overlap) - width, Expected(overlap) + width)
    ensures Finds(newbuf, needle, nsectors, overlap, None)
  {
    hide Occurs;
  }

  lemma LemmaRestInFront(newbuf: seq<Byte>, needle: seq<Byte>, nsectors: nat, overlap: nat, width: int, r: Option<int>)
    requires |newbuf| == CD_FRAMESIZE_RAW * nsectors && |needle| == SYNC_SIZE
    requires 2 * overlap > nsectors && WidthOk(nsectors, overlap, width)
    requires NoneIn(newbuf, needle, Expected(overlap) - width, Expected(overlap) + width)
    requires var last := (2 * overlap - nsectors) * CD_FRAMESIZE_RAW - 1;
             match r
             case Some(p) => Occurs(newbuf, needle, p) && p <= last && NoneIn(newbuf, needle, p + 1, last + 1)
             case None => NoneIn(newbuf, needle, 0, last + 1)
    ensures Finds(newbuf, needle, nsectors, overlap, r)
  {
    hide Matches;
  }

  lemma LemmaRestBehind(newbuf: seq<Byte>, needle: seq<Byte>, nsectors: nat, overlap: nat, width: int, r: Option<int>)
    requires |newbuf| == CD_FRAMESIZE_RAW * nsectors && |needle| == SYNC_SIZE
    requires 2 * overlap < nsectors && WidthOk(nsectors, overlap, width)
    requires NoneIn(newbuf, needle, Expected(overlap) - width, Expected(overlap) + width)
    requires var start := 2 * (overlap * CD_FRAMESIZE_RAW - SYNC_SIZE);
             match r
             case Some(p) => Occurs(newbuf, needle, p) && start <= p && NoneIn(newbuf, needle, start, p)
             case None => NoneIn(newbuf, needle, start, CD_FRAMESIZE_RAW * nsectors - SYNC_SIZE + 1)
    ensures Finds(newbuf, needle, nsectors, overlap, r)
  {
    hide Matches;
  }

  /** Whatever the buffers hold: when the needle occurs at all, it occurs where the search reaches. */
  ghost predicate Complete(nsectors: nat, overlap: nat) {
    forall newbuf: seq<Byte>, oldbuf: seq<Byte>, at: int
      | |newbuf| == |oldbuf| == CD_FRAMESIZE_RAW * nsectors && |oldbuf| >= SYNC_SIZE
        && Occurs(newbuf, Needle(oldbuf), at) ::
      exists low: int :: low < Reach(nsectors, overlap) && Occurs(newbuf, Needle(oldbuf), low)
  }

  /** The search misses a continuation for some buffers exactly when half of the buffer overlaps: then positions in the
      last 2 * SYNC_SIZE bytes are never compared. */
  lemma CompleteExactlyUnlessHalfOverlaps(nsectors: nat, overlap: nat)
    requires 0 < overlap < nsectors
    ensures Complete(nsectors, overlap) <==> 2 * overlap != nsectors
  {
    if 2 * overlap == nsectors {
      var n := CD_FRAMESIZE_RAW * nsectors;
      var oldbuf: seq<Byte> := seq(n, _ => 1);
      var newbuf: seq<Byte> := seq(n, i => if i < n - SYNC_SIZE then 0 else 1);
      var needle := Needle(oldbuf);
      assert Matches(newbuf, needle, n - SYNC_SIZE);
      assert Occurs(newbuf, needle, n - SYNC_SIZE);
      forall low: int | low < Reach(nsectors, overlap)
        ensures !Occurs(newbuf, needle, low)
      {
        if 0 <= low {
          assert newbuf[low..low + SYNC_SIZE][0] == newbuf[low] == 0;
          assert needle[0] == 1;
        }
      }
    }
  }
}
