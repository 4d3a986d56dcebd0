/** scatter_secs (cdrecord/movesect.c): sectors of one size are moved apart or together, in place, to become sectors of
    another size. */
module Scatter {
  import opened Arith
  import opened Common

  /** Where sector k begins. */
  function Off(k: nat, size: nat): nat {
    k * size
  }

  lemma OffNext(k: nat, size: nat)
    ensures Off(k + 1, size) == Off(k, size) + size && Off(0, size) == 0
  {
  }

  lemma OffMonotone(j: nat, k: nat, size: nat)
    ensures j <= k ==> Off(j, size) <= Off(k, size)
    ensures j < k ==> Off(j, size) + size <= Off(k, size)
  {
    if j <= k {
      LemmaMulMonotone(j, k, size);
    }
    if j < k {
      LemmaMulStrict(j, k, size);
    }
  }

  lemma OffSizes(k: nat, small: nat, large: nat)
    requires small <= large
    ensures Off(k, small) <= Off(k, large)
  {
    LemmaMulMonotone(small, large, k);
  }

  /** cnt bytes of s, from position `from`, are at position `to` of t; all else is as in s. */
  ghost predicate Copied(s: seq<Byte>, t: seq<Byte>, from: nat, to: nat, cnt: nat) {
    && |s| == |t| && from + cnt <= |s| && to + cnt <= |s|
    && t[to..to + cnt] == s[from..from + cnt]
    && t[..to] == s[..to] && t[to + cnt..] == s[to + cnt..]
  }

  /** movebytes (libschily/movebytes.c): upwards or downwards, so that overlapping does not matter. */
  method MoveBytes(buf: array<Byte>, from: nat, to: nat, cnt: nat)
    requires from + cnt <= buf.Length && to + cnt <= buf.Length
    modifies buf
    ensures Copied(old(buf[..]), buf[..], from, to, cnt)
  {
    ghost var s := buf[..];
    if from >= to {
      for k := 0 to cnt
        invariant buf[to..to + k] == s[from..from + k]
        invariant buf[from + k..] == s[from + k..]
        invariant buf[..to] == s[..to] && buf[to + cnt..] == s[to + cnt..]
      {
        assert buf[from + k..][0] == s[from + k..][0];
        buf[to + k] := buf[from + k];
      }
    } else {
      MoveDown(buf, from, to, cnt);
    }
  }

  method MoveDown(buf: array<Byte>, from: nat, to: nat, cnt: nat)
    requires from < to && to + cnt <= buf.Length
    modifies buf
    ensures Copied(old(buf[..]), buf[..], from, to, cnt)
  {
    ghost var s := buf[..];
    for k := cnt downto 0
      invariant buf[to + k..to + cnt] == s[from + k..from + cnt]
      invariant buf[..to + k] == s[..to + k] && buf[to + cnt..] == s[to + cnt..]
    {
      assert buf[..to + k + 1][from + k] == s[..to + k + 1][from + k];
      assert buf[from + k] == s[from + k];
      ghost var t := buf[..];
      buf[to + k] := buf[from + k];
      assert buf[to + k..to + cnt] == [s[from + k]] + t[to + k + 1..to + cnt];
      assert s[from + k..from + cnt] == [s[from + k]] + s[from + k + 1..from + cnt];
      assert buf[..to + k] == t[..to + k + 1][..to + k];
    }
  }

  /** Sector k of t, at its new place, begins with the first m bytes that it had in s at its old place. */
  ghost predicate Moved(s: seq<Byte>, t: seq<Byte>, isecsize: nat, secsize: nat, m: nat, k: nat) {
    && Off(k, isecsize) + m <= |s| && Off(k, secsize) + m <= |t|
    && t[Off(k, secsize)..Off(k, secsize) + m] == s[Off(k, isecsize)..Off(k, isecsize) + m]
  }

  /** Sectors lo to hi - 1 are moved. */
  ghost predicate AllMoved(s: seq<Byte>, t: seq<Byte>, isecsize: nat, secsize: nat, m: nat, lo: nat, hi: nat) {
    |s| == |t| && forall k | lo <= k < hi :: Moved(s, t, isecsize, secsize, m, k)
  }

  lemma LemmaBelow(s: seq<Byte>, t: seq<Byte>, c: nat, a: nat, b: nat)
    requires a <= b <= c <= |s| && c <= |t| && s[..c] == t[..c]
    ensures s[a..b] == t[a..b]
  {
    forall k | a <= k < b
      ensures s[k] == t[k]
    {
      assert s[k] == s[..c][k] && t[k] == t[..c][k];
    }
  }

  lemma LemmaAbove(s: seq<Byte>, t: seq<Byte>, c: nat, a: nat, b: nat)
    requires c <= a <= b <= |s| && b <= |t| && s[c..] == t[c..]
    ensures s[a..b] == t[a..b]
  {
    forall k | a <= k < b
      ensures s[k] == t[k]
    {
      assert s[k] == s[c..][k - c] && t[k] == t[c..][k - c];
    }
  }

  /** One more sector: what was moved before is below or above it. */
  lemma LemmaMovedStill(s: seq<Byte>, t: seq<Byte>, t': seq<Byte>, isecsize: nat, secsize: nat, m: nat, j: nat, k: nat)
    requires |s| == |t| == |t'| && m <= secsize && Off(k, secsize) + m <= |t|
    requires t'[..Off(k, secsize)] == t[..Off(k, secsize)] && t'[Off(k, secsize) + m..] == t[Off(k, secsize) + m..]
    requires j != k && Moved(s, t, isecsize, secsize, m, j)
    ensures Moved(s, t', isecsize, secsize, m, j)
  {
    hide Off;
    OffMonotone(j, k, secsize);
    OffMonotone(k, j, secsize);
    var a, b, c := Off(j, secsize), Off(j, secsize) + m, Off(k, secsize);
    if j < k {
      LemmaBelow(t, t', c, a, b);
    } else {
      LemmaAbove(t, t', c + m, a, b);
    }
  }

  lemma LemmaOneMoved(s: seq<Byte>, t: seq<Byte>, t': seq<Byte>, isecsize: nat, secsize: nat, m: nat, lo: nat, hi: nat,
                     k: nat)
    requires AllMoved(s, t, isecsize, secsize, m, lo, hi) && |t'| == |t| && m <= secsize && Off(k, secsize) + m <= |t|
    requires t'[..Off(k, secsize)] == t[..Off(k, secsize)] && t'[Off(k, secsize) + m..] == t[Off(k, secsize) + m..]
    requires Moved(s, t', isecsize, secsize, m, k)
    ensures k == hi ==> AllMoved(s, t', isecsize, secsize, m, lo, hi + 1)
    ensures k + 1 == lo ==> AllMoved(s, t', isecsize, secsize, m, k, hi)
  {
    hide Off, Moved;
    forall j | lo <= j < hi && j != k
      ensures Moved(s, t', isecsize, secsize, m, j)
    {
      LemmaMovedStill(s, t, t', isecsize, secsize, m, j, k);
    }
  }

  /** Room for the first m bytes of n sectors, before and after. */
  ghost predicate Room(len: nat, isecsize: nat, secsize: nat, m: nat, n: nat) {
    n > 0 ==> Off(n - 1, isecsize) + m <= len && Off(n - 1, secsize) + m <= len
  }

  lemma LemmaRoom(len: nat, isecsize: nat, secsize: nat, m: nat, n: nat, k: nat)
    requires Room(len, isecsize, secsize, m, n) && k < n
    ensures Off(k, isecsize) + m <= len && Off(k, secsize) + m <= len
    ensures Off(k, secsize) <= Off(n - 1, secsize)
  {
    OffMonotone(k, n - 1, isecsize);
    OffMonotone(k, n - 1, secsize);
  }

  lemma LemmaFirstStays(s: seq<Byte>, isecsize: nat, secsize: nat, m: nat)
    requires m <= |s|
    ensures Moved(s, s, isecsize, secsize, m, 0)
  {
  }

  lemma LemmaOnly(s: seq<Byte>, t: seq<Byte>, isecsize: nat, secsize: nat, m: nat, k: nat)
    requires |s| == |t| && Moved(s, t, isecsize, secsize, m, k)
    ensures AllMoved(s, t, isecsize, secsize, m, k, k + 1)
  {
  }

  lemma LemmaNothingMoved(s: seq<Byte>, isecsize: nat, secsize: nat, m: nat, k: nat)
    ensures AllMoved(s, s, isecsize, secsize, m, k, k)
  {
  }

  /** Moving together, before sector k: what lies behind the sectors moved is as it was. */
  ghost predicate Together(s: seq<Byte>, t: seq<Byte>, isecsize: nat, secsize: nat, k: nat) {
    && AllMoved(s, t, isecsize, secsize, secsize, 0, k)
    && Off(k, secsize) <= |s| == |t| && t[Off(k, secsize)..] == s[Off(k, secsize)..]
  }

  lemma LemmaTogether(s: seq<Byte>, t: seq<Byte>, t': seq<Byte>, isecsize: nat, secsize: nat, k: nat)
    requires secsize < isecsize && Together(s, t, isecsize, secsize, k)
    requires Copied(t, t', Off(k, isecsize), Off(k, secsize), secsize)
    ensures Together(s, t', isecsize, secsize, k + 1)
  {
    hide Off, AllMoved;
    OffSizes(k, secsize, isecsize);
    OffNext(k, secsize);
    var from, to := Off(k, isecsize), Off(k, secsize);
    assert t[from..from + secsize] == t[to..][from - to..from - to + secsize] == s[from..from + secsize];
    LemmaOneMoved(s, t, t', isecsize, secsize, secsize, 0, k, k);
    assert t[to + secsize..] == t[to..][secsize..];
  }

  lemma LemmaTogetherStart(s: seq<Byte>, isecsize: nat, secsize: nat)
    requires secsize <= |s|
    ensures Together(s, s, isecsize, secsize, 1)
  {
    LemmaFirstStays(s, isecsize, secsize, secsize);
    LemmaOnly(s, s, isecsize, secsize, secsize, 0);
  }

  /** The loop for smaller output sectors, lines 82 to 89. */
  method MoveTogether(buf: array<Byte>, isecsize: nat, secsize: nat, nsecs: nat)
    requires nsecs > 0 && secsize < isecsize && Room(buf.Length, isecsize, secsize, secsize, nsecs)
    modifies buf
    ensures Together(old(buf[..]), buf[..], isecsize, secsize, nsecs)
  {
    hide Off, Room, Together, Copied;
    ghost var s := buf[..];
    var from, to := isecsize, secsize;
    OffNext(0, isecsize);
    OffNext(0, secsize);
    LemmaRoom(buf.Length, isecsize, secsize, secsize, nsecs, 0);
    LemmaTogetherStart(s, isecsize, secsize);
    var i := nsecs - 1;
    while i > 0
      invariant 0 <= i < nsecs
      invariant from == Off(nsecs - i, isecsize) && to == Off(nsecs - i, secsize)
      invariant Together(s, buf[..], isecsize, secsize, nsecs - i)
    {
      ghost var k, t := nsecs - i, buf[..];
      LemmaRoom(buf.Length, isecsize, secsize, secsize, nsecs, k);
      MoveBytes(buf, from, to, secsize);
      LemmaTogether(s, t, buf[..], isecsize, secsize, k);
      OffNext(k, isecsize);
      OffNext(k, secsize);
      from := from + isecsize;
      to := to + secsize;
      i := i - 1;
    }
  }

  /** Moving apart, before sector i: what lies before it, with itself, is as it was, and so is what lies behind all. */
  ghost predicate Apart(s: seq<Byte>, t: seq<Byte>, isecsize: nat, secsize: nat, i: nat, nsecs: nat) {
    && nsecs > 0 && |s| == |t|
    && AllMoved(s, t, isecsize, secsize, isecsize, i + 1, nsecs)
    && Off(i, isecsize) + isecsize <= |s|
    && t[..Off(i, isecsize) + isecsize] == s[..Off(i, isecsize) + isecsize]
    && Off(nsecs - 1, secsize) + isecsize <= |s|
    && t[Off(nsecs - 1, secsize) + isecsize..] == s[Off(nsecs - 1, secsize) + isecsize..]
  }

  lemma LemmaApart(s: seq<Byte>, t: seq<Byte>, t': seq<Byte>, isecsize: nat, secsize: nat, i: nat, nsecs: nat)
    requires isecsize < secsize && 0 < i < nsecs && Apart(s, t, isecsize, secsize, i, nsecs)
    requires Copied(t, t', Off(i, isecsize), Off(i, secsize), isecsize)
    ensures Apart(s, t', isecsize, secsize, i - 1, nsecs)
  {
    hide Off, AllMoved;
    OffSizes(i, isecsize, secsize);
    OffNext(i - 1, isecsize);
    OffMonotone(i, nsecs - 1, secsize);
    var from, to, end := Off(i, isecsize), Off(i, secsize), Off(nsecs - 1, secsize) + isecsize;
    LemmaBelow(t, s, from + isecsize, from, from + isecsize);
    LemmaOneMoved(s, t, t', isecsize, secsize, isecsize, i + 1, nsecs, i);
    assert t'[..from] == t'[..to][..from] == t[..to][..from] == t[..from + isecsize][..from];
    assert t'[end..] == t'[to + isecsize..][end - (to + isecsize)..] == t[end..];
  }

  lemma LemmaApartStart(s: seq<Byte>, isecsize: nat, secsize: nat, nsecs: nat)
    requires nsecs > 0 && Room(|s|, isecsize, secsize, isecsize, nsecs)
    ensures Apart(s, s, isecsize, secsize, nsecs - 1, nsecs)
  {
  }

  lemma LemmaApartEnd(s: seq<Byte>, t: seq<Byte>, isecsize: nat, secsize: nat, nsecs: nat)
    requires isecsize < secsize && Apart(s, t, isecsize, secsize, 0, nsecs)
    ensures AllMoved(s, t, isecsize, secsize, isecsize, 0, nsecs)
  {
    hide Off, AllMoved;
    OffNext(0, isecsize);
    OffNext(0, secsize);
    LemmaOneMoved(s, t, t, isecsize, secsize, isecsize, 1, nsecs, 0);
  }

  /** The loop for larger output sectors, lines 91 to 98. */
  method MoveApart(buf: array<Byte>, isecsize: nat, secsize: nat, nsecs: nat)
    requires nsecs > 0 && isecsize < secsize && Room(buf.Length, isecsize, secsize, isecsize, nsecs)
    modifies buf
    ensures Apart(old(buf[..]), buf[..], isecsize, secsize, 0, nsecs)
  {
    hide Off, Room, Apart, Copied;
    ghost var s := buf[..];
    var from, to := Off(nsecs - 1, isecsize), Off(nsecs - 1, secsize);
    LemmaApartStart(s, isecsize, secsize, nsecs);
    var i := nsecs - 1;
    while i > 0
      invariant 0 <= i < nsecs
      invariant from == Off(i, isecsize) && to == Off(i, secsize)
      invariant Apart(s, buf[..], isecsize, secsize, i, nsecs)
    {
      ghost var t := buf[..];
      LemmaRoom(buf.Length, isecsize, secsize, isecsize, nsecs, i);
      OffNext(i - 1, isecsize);
      OffNext(i - 1, secsize);
      MoveBytes(buf, from, to, isecsize);
      LemmaApart(s, t, buf[..], isecsize, secsize, i, nsecs);
      from := from - isecsize;
      to := to - secsize;
      i := i - 1;
    }
  }

  lemma LemmaAllStay(s: seq<Byte>, size: nat, nsecs: nat)
    requires Room(|s|, size, size, size, nsecs)
    ensures AllMoved(s, s, size, size, size, 0, nsecs)
  {
    hide Off, Room;
    forall k: nat | k < nsecs
      ensures Moved(s, s, size, size, size, k)
    {
      LemmaRoom(|s|, size, size, size, nsecs, k);
    }
  }

  /** scatter_secs. */
  method ScatterSecs(buf: array<Byte>, isecsize: nat, secsize: nat, nsecs: nat)
    requires Room(buf.Length, isecsize, secsize, Min(isecsize, secsize), nsecs)
    modifies buf
    ensures AllMoved(old(buf[..]), buf[..], isecsize, secsize, Min(isecsize, secsize), 0, nsecs)
    ensures nsecs > 0 ==>
              buf[Off(nsecs - 1, secsize) + Min(isecsize, secsize)..]
              == old(buf[Off(nsecs - 1, secsize) + Min(isecsize, secsize)..])
  {
    hide Off, Room, AllMoved;
    if nsecs > 0 {
      LemmaRoom(buf.Length, isecsize, secsize, Min(isecsize, secsize), nsecs, nsecs - 1);
    }
    if secsize == isecsize {
      LemmaAllStay(buf[..], secsize, nsecs);
      return;
    }
    LemmaNothingMoved(buf[..], isecsize, secsize, Min(isecsize, secsize), 0);
    ghost var s := buf[..];
    if nsecs > 0 {
      if secsize < isecsize {
        OffNext(nsecs - 1, secsize);
        MoveTogether(buf, isecsize, secsize, nsecs);
      } else {
        MoveApart(buf, isecsize, secsize, nsecs);
        LemmaApartEnd(s, buf[..], isecsize, secsize, nsecs);
      }
    }
  }

  function Min(a: nat, b: nat): nat {
    if a < b then a else b
  }

  /** Growing the sectors and shrinking them again restores the data. */
  lemma {:induction false} GrowThenShrink(s: seq<Byte>, t: seq<Byte>, u: seq<Byte>, small: nat, large: nat, nsecs: nat)
    requires small <= large
    requires AllMoved(s, t, small, large, small, 0, nsecs) && AllMoved(t, u, large, small, small, 0, nsecs)
    ensures Off(nsecs, small) <= |s| == |u| || nsecs == 0
    ensures nsecs > 0 ==> u[..Off(nsecs, small)] == s[..Off(nsecs, small)]
  {
    hide Off;
    if nsecs > 0 {
      var a := Off(nsecs - 1, small);
      OffNext(nsecs - 1, small);
      OffNext(0, small);
      GrowThenShrink(s, t, u, small, large, nsecs - 1);
      assert Moved(s, t, small, large, small, nsecs - 1) && Moved(t, u, large, small, small, nsecs - 1);
      assert u[..a + small] == u[..a] + u[a..a + small];
      assert s[..a + small] == s[..a] + s[a..a + small];
    }
  }
}
