/** The shared memory area of the cdrecord FIFO: how init_fifo aligns it and how init_faio divides it into slot
    headers, the statistics record and page-aligned segments. Addresses are offsets from the start of memory. */
module FifoLayout {
  import opened Arith
  import opened Common

  const MIN_BUFFERS := 3

  /** roundup(x, a): the least multiple of a that is not below x. */
  function RoundUp(x: nat, a: nat): (r: nat)
    requires a > 0
    ensures r % a == 0
    ensures x <= r < x + a
  {
    LemmaRoundUp(x, a);
    (x + a - 1) / a * a
  }

  lemma LemmaRoundUp(x: nat, a: nat)
    requires a > 0
    ensures (x + a - 1) / a * a % a == 0
    ensures x <= (x + a - 1) / a * a < x + a
  {
    var q := (x + a - 1) / a;
    assert x + a - 1 == q * a + (x + a - 1) % a;
    LemmaMultiple(q, a);
  }

  /** palign(x, a), written with the macro's own expression. */
  function PAlign(x: nat, a: nat): (r: nat)
    requires x > 0 && a > 0
    ensures r % a == 0
    ensures x <= r < x + a
  {
    var q, m := (x - 1) / a, (x - 1) % a;
    assert x - 1 == q * a + m;
    LemmaMultiple(q + 1, a);
    assert (q + 1) * a == q * a + a;
    x + (a - 1 - (x - 1) % a)
  }

  /** The area after init_fifo: buf is page aligned, and at least fs bytes, rounded up, remain before bufend. */
  datatype Area = Area(buf: nat, buflen: nat, bufend: nat)

  method InitFifo(fs: nat, pagesize: nat, bufbase: nat) returns (area: Option<Area>)
    requires pagesize > 0 && bufbase > 0
    ensures area.None? <==> fs == 0
    ensures area.Some? ==>
              var a := area.value;
              && a.buf % pagesize == 0 && bufbase <= a.buf
              && a.buf + a.buflen == a.bufend == bufbase + RoundUp(fs, pagesize) + pagesize
              && RoundUp(fs, pagesize) < a.buflen
  {
    if fs == 0 {
      return None;
    }
    var buflen := RoundUp(fs, pagesize) + pagesize;
    var bufend := bufbase + buflen;
    var buf := PAlign(bufbase, pagesize);
    buflen := buflen - (buf - bufbase);
    return Some(Area(buf, buflen, bufend));
  }

  /** Where everything is: n slot headers of hdr bytes from buf, the statistics behind them, then n segments of
      stride bytes from base. */
  datatype Layout = Layout(buf: nat, n: nat, hdr: nat, stats: nat, base: nat, stride: nat)

  function SegAddr(base: nat, stride: nat, i: nat): nat {
    base + i * stride
  }

  /** Segments are page aligned, disjoint, clear of headers and statistics, inside [buf, buf + buflen), and hold a
      transfer buffer each. */
  ghost predicate Sound(l: Layout, buflen: nat, bufsize: nat, pagesize: nat)
    requires pagesize > 0
  {
    && l.n >= MIN_BUFFERS
    && bufsize <= l.stride
    && l.buf + l.n * l.hdr + l.stats <= l.base
    && (forall i: nat | i < l.n ::
          && SegAddr(l.base, l.stride, i) % pagesize == 0
          && SegAddr(l.base, l.stride, i) + l.stride <= l.buf + buflen)
    && (forall i: nat, j: nat | i < j < l.n ::
          SegAddr(l.base, l.stride, i) + l.stride <= SegAddr(l.base, l.stride, j))
  }

  /** Nothing is wasted: a segment is less than a page longer than a transfer, the segments start less than a page behind
      the statistics, and there are as many as fit behind the headers of the first estimate. */
  ghost predicate Filled(l: Layout, buflen: nat, bufsize: nat, pagesize: nat)
    requires pagesize > 0 && l.stride > 0 && l.stats <= buflen
  {
    var used := FirstSpace(buflen, l.stats, l.stride, l.hdr, pagesize);
    && l.stride < bufsize + pagesize
    && l.base < l.buf + l.n * l.hdr + l.stats + pagesize
    && used + l.n * l.stride <= buflen < used + (l.n + 1) * l.stride
  }

  lemma LemmaSegmentsDisjoint(base: nat, stride: nat, i: nat, j: nat)
    requires i < j
    ensures SegAddr(base, stride, i) + stride <= SegAddr(base, stride, j)
  {
    LemmaMulStrict(i, j, stride);
  }

  lemma LemmaSegmentAligned(base: nat, stride: nat, i: nat, page: nat)
    requires page > 0 && base % page == 0 && stride % page == 0
    ensures SegAddr(base, stride, i) % page == 0
  {
    if i > 0 {
      LemmaSegmentAligned(base, stride, i - 1, page);
      LemmaSumOfMultiples(SegAddr(base, stride, i - 1), stride, page);
      assert i * stride == (i - 1) * stride + stride;
    }
  }

  lemma LemmaHeadersShrink(n1: nat, n2: nat, hdr: nat, stats: nat, page: nat)
    requires page > 0 && n2 <= n1
    ensures RoundUp(stats + n2 * hdr, page) <= RoundUp(stats + n1 * hdr, page)
  {
    LemmaMulMonotone(n2, n1, hdr);
    LemmaRoundUpMonotone(stats + n2 * hdr, stats + n1 * hdr, page);
  }

  lemma LemmaRoundUpMonotone(x: nat, y: nat, a: nat)
    requires a > 0 && x <= y
    ensures RoundUp(x, a) <= RoundUp(y, a)
  {
    var p, q := (x + a - 1) / a, (y + a - 1) / a;
    assert x + a - 1 == p * a + (x + a - 1) % a;
    LemmaDivBound(y + a - 1, a, p);
    LemmaMulMonotone(p, q, a);
  }

  /** The first, larger estimate of the number of segments, then the space taken by its headers. */
  function FirstEstimate(buflen: nat, stats: nat, stride: nat): nat
    requires stride > 0 && stats <= buflen
  {
    TruncDiv(buflen - stats, stride)
  }

  function HeaderSpace(n: nat, hdr: nat, stats: nat, pagesize: nat): nat
    requires pagesize > 0
  {
    RoundUp(stats + n * hdr, pagesize)
  }

  /** What the headers of the first estimate take: of all the segments there were room for without headers. */
  function FirstSpace(buflen: nat, stats: nat, stride: nat, hdr: nat, pagesize: nat): nat
    requires pagesize > 0 && stride > 0 && stats <= buflen
  {
    RoundUp(stats + (buflen - stats) / stride * hdr, pagesize)
  }

  /** init_faio's two-pass sizing: the final number of segments allows for the headers of the first estimate; the
      segments start behind the headers of the final number. */
  method InitFaio(buf: nat, buflen: nat, bufsize: nat, pagesize: nat, hdr: nat, stats: nat)
    returns (layout: Option<Layout>, bufps: seq<nat>)
    requires pagesize > 0 && bufsize > 0 && buf % pagesize == 0 && stats <= buflen
    ensures layout.Some? ==>
              && Sound(layout.value, buflen, bufsize, pagesize)
              && layout.value.buf == buf && layout.value.hdr == hdr && layout.value.stats == stats
              && Filled(layout.value, buflen, bufsize, pagesize)
              && bufps == SegAddrs(layout.value)
    ensures layout.None? <==>
              var stride := RoundUp(bufsize, pagesize);
              buflen < FirstSpace(buflen, stats, stride, hdr, pagesize) + MIN_BUFFERS * stride
  {
    hide TruncDiv, Sound, Filled, FirstSpace, RoundUp, HeaderSpace, FirstEstimate;
    var stride := RoundUp(bufsize, pagesize);
    var first := FirstEstimate(buflen, stats, stride);
    var used := HeaderSpace(first, hdr, stats, pagesize);
    var n := TruncDiv(buflen - used, stride);
    LemmaCount(buflen, stats, stride, hdr, pagesize, n);
    if n < MIN_BUFFERS {
      return None, [];
    }
    LemmaTwoPasses(buf, buflen, stats, stride, n, hdr, pagesize);
    var base := buf + HeaderSpace(n, hdr, stats, pagesize);
    var l := Layout(buf, n, hdr, stats, base, stride);
    LemmaSound(l, buflen, bufsize, pagesize);
    LemmaFilled(l, buflen, bufsize, pagesize);
    layout := Some(l);
    bufps := Headers(l);
  }

  /** The final number of segments is the largest that fits behind the headers of the first estimate. */
  lemma LemmaCount(buflen: nat, stats: nat, stride: nat, hdr: nat, pagesize: nat, n: int)
    requires pagesize > 0 && stride > 0 && stats <= buflen
    requires n == TruncDiv(buflen - HeaderSpace(FirstEstimate(buflen, stats, stride), hdr, stats, pagesize), stride)
    ensures var used := FirstSpace(buflen, stats, stride, hdr, pagesize);
            && (n < MIN_BUFFERS <==> buflen < used + MIN_BUFFERS * stride)
            && (n >= MIN_BUFFERS ==> used + n * stride <= buflen < used + (n + 1) * stride)
  {
    var used := HeaderSpace(FirstEstimate(buflen, stats, stride), hdr, stats, pagesize);
    LemmaTruncDiv(buflen - used, stride);
    assert FirstEstimate(buflen, stats, stride) == (buflen - stats) / stride;
    hide TruncDiv;
    if n >= MIN_BUFFERS {
      assert n + 1 > TruncDiv(buflen - used, stride);
    }
  }

  lemma LemmaFilled(l: Layout, buflen: nat, bufsize: nat, pagesize: nat)
    requires pagesize > 0 && bufsize > 0 && l.stats <= buflen && l.stride == RoundUp(bufsize, pagesize)
    requires l.base == l.buf + HeaderSpace(l.n, l.hdr, l.stats, pagesize)
    requires var used := FirstSpace(buflen, l.stats, l.stride, l.hdr, pagesize);
             used + l.n * l.stride <= buflen < used + (l.n + 1) * l.stride
    ensures Filled(l, buflen, bufsize, pagesize)
  {
  }

  function SegAddrs(l: Layout): seq<nat> {
    seq(l.n, i requires 0 <= i => SegAddr(l.base, l.stride, i))
  }

  /** init_faio's loop over the headers: every bufp is the one before it plus the rounded transfer size. */
  method Headers(l: Layout) returns (bufps: seq<nat>)
    ensures bufps == SegAddrs(l)
  {
    bufps := [];
    var addr := l.base;
    for i := 0 to l.n
      invariant |bufps| == i && addr == SegAddr(l.base, l.stride, i)
      invariant forall k | 0 <= k < i :: bufps[k] == SegAddr(l.base, l.stride, k)
    {
      bufps := bufps + [addr];
      assert (i + 1) * l.stride == i * l.stride + l.stride;
      addr := addr + l.stride;
    }
  }

  lemma LemmaTwoPasses(buf: nat, buflen: nat, stats: nat, stride: nat, n: nat, hdr: nat, pagesize: nat)
    requires stride > 0 && pagesize > 0 && buf % pagesize == 0 && stats <= buflen && n >= 1
    requires n == TruncDiv(buflen - HeaderSpace(FirstEstimate(buflen, stats, stride), hdr, stats, pagesize), stride)
    ensures (buf + HeaderSpace(n, hdr, stats, pagesize)) % pagesize == 0
    ensures n * hdr + stats <= HeaderSpace(n, hdr, stats, pagesize)
    ensures HeaderSpace(n, hdr, stats, pagesize) + n * stride <= buflen
  {
    var first := FirstEstimate(buflen, stats, stride);
    var used := HeaderSpace(first, hdr, stats, pagesize);
    hide TruncDiv;
    LemmaTruncDiv(buflen - stats, stride);
    LemmaTruncDiv(buflen - used, stride);
    LemmaMulMonotone(0, first, hdr);
    assert n * stride <= buflen - used;
    assert n <= first;
    LemmaHeadersShrink(first, n, hdr, stats, pagesize);
    LemmaSumOfMultiples(buf, HeaderSpace(n, hdr, stats, pagesize), pagesize);
  }

  lemma LemmaSound(l: Layout, buflen: nat, bufsize: nat, pagesize: nat)
    requires pagesize > 0 && l.n >= MIN_BUFFERS && bufsize <= l.stride
    requires l.base % pagesize == 0 && l.stride % pagesize == 0
    requires l.buf + l.n * l.hdr + l.stats <= l.base
    requires l.base + l.n * l.stride <= l.buf + buflen
    ensures Sound(l, buflen, bufsize, pagesize)
  {
    forall i: nat | i < l.n
      ensures SegAddr(l.base, l.stride, i) % pagesize == 0
      ensures SegAddr(l.base, l.stride, i) + l.stride <= l.buf + buflen
    {
      LemmaSegmentAligned(l.base, l.stride, i, pagesize);
      LemmaSegmentsDisjoint(l.base, l.stride, i, l.n);
    }
    forall i: nat, j: nat | i < j < l.n
      ensures SegAddr(l.base, l.stride, i) + l.stride <= SegAddr(l.base, l.stride, j)
    {
      LemmaSegmentsDisjoint(l.base, l.stride, i, j);
    }
  }
}
