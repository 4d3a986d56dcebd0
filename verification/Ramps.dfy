/** What the conversion makes of a ramp: the outputs are its values at evenly spaced points, which is what the
    interpolation of a halved divider is for. */
module Ramps {
  import opened Arith
  import opened Resample

  /** q is v without its fraction. */
  ghost predicate Truncates(q: int, v: real) {
    if v >= 0.0 then q as real <= v < q as real + 1.0 else q as real - 1.0 < v <= q as real
  }

  lemma TruncDivTruncates(x: int, d: nat)
    requires d > 0
    ensures Truncates(TruncDiv(x, d), x as real / d as real)
  {
    var y: nat := if x >= 0 then x else -x;
    LemmaQuotient(y, d);
    LemmaNegated(x as real, d as real);
  }

  lemma LemmaNegated(x: real, e: real)
    requires e > 0.0
    ensures x / e == -(-x / e)
    ensures x / e >= 0.0 <==> x >= 0.0
  {
  }

  lemma LemmaQuotient(y: nat, d: nat)
    requires d > 0
    ensures (y / d) as real <= y as real / d as real < (y / d) as real + 1.0
  {
    var q, r := y / d, y % d;
    assert y == q * d + r;
    LemmaProduct(q, d);
    LemmaBetween(y as real / d as real, d as real, q as real, r as real);
  }

  lemma LemmaProduct(q: int, d: int)
    ensures (q * d) as real == q as real * d as real
  {
  }

  lemma LemmaBetween(v: real, e: real, q: real, r: real)
    requires 0.0 <= r < e && v * e == q * e + r
    ensures q <= v < q + 1.0
  {
    var z := v - q;
    assert z * e == r;
  }

  /** The interpolation is exact for parabolas: if they pass through the three values at 0, 1 and 2, it gives their value
      at 1/2, without its fraction. */
  lemma InterpolatesParabolas(p1: int, p2: int, p3: int, a: real, b: real, c: real)
    requires p1 as real == c && p2 as real == a + b + c && p3 as real == 4.0 * a + 2.0 * b + c
    ensures Truncates(Interpolate(p1, p2, p3), a / 4.0 + b / 2.0 + c)
  {
    TruncDivTruncates(3 * p1 + 6 * p2 - p3, 8);
  }

  // ----- ramps

  function RampAt(first: Stereo, slope: Stereo, i: nat): Stereo {
    Stereo(first.l + slope.l * i, first.r + slope.r * i)
  }

  ghost predicate IsRamp(s: seq<Stereo>, first: Stereo, slope: Stereo) {
    forall i: nat | i < |s| :: s[i] == RampAt(first, slope, i)
  }

  /** Twice the sum of a + c * i for i from lo to hi - 1. */
  function TwiceSum(a: int, c: int, lo: nat, hi: nat): int {
    (hi - lo) * (2 * a + c * (lo + hi - 1))
  }

  lemma LemmaTwiceSum(a: int, c: int, lo: nat, hi: nat)
    requires lo < hi
    ensures TwiceSum(a, c, lo, hi) == TwiceSum(a, c, lo, hi - 1) + 2 * (a + c * (hi - 1))
    ensures TwiceSum(a, c, lo, lo) == 0
  {
    var n, m := hi - lo, lo + hi - 2;
    assert c * (lo + hi - 1) == c * m + c;
    assert n * (2 * a + c * m + c) == (n - 1) * (2 * a + c * m) + (2 * a + c * m) + n * c;
    assert c * m + n * c == 2 * (c * (hi - 1));
  }

  lemma {:induction false} WindowOfRamp(s: seq<Stereo>, first: Stereo, slope: Stereo, lo: nat, hi: nat)
    requires IsRamp(s, first, slope) && lo <= hi <= |s|
    ensures 2 * Window(s, lo, hi).l == TwiceSum(first.l, slope.l, lo, hi)
    ensures 2 * Window(s, lo, hi).r == TwiceSum(first.r, slope.r, lo, hi)
    decreases hi
  {
    hide TwiceSum;
    if lo < hi {
      WindowOfRamp(s, first, slope, lo, hi - 1);
      LemmaTwiceSum(first.l, slope.l, lo, hi);
      LemmaTwiceSum(first.r, slope.r, lo, hi);
    } else {
      LemmaTwiceSum(first.l, slope.l, lo, lo + 1);
      LemmaTwiceSum(first.r, slope.r, lo, lo + 1);
    }
  }

  /** The distance of two outputs, in input samples. */
  function Distance(d: Divider): real {
    if d.halved then d.u as real + 0.5 else d.u as real
  }

  /** The point of the ramp whose value is output k. */
  function Point(d: Divider, k: nat): real {
    k as real * Distance(d) + if d.halved then d.u as real / 2.0 else (d.u as real - 1.0) / 2.0
  }

  /** The value there of the ramp a + c * i. */
  function ValueAt(a: int, c: int, d: Divider, k: nat): real {
    a as real + c as real * Point(d, k)
  }

  function TwicePoint(d: Divider, k: nat): int {
    if d.halved then k * (2 * d.u + 1) + d.u else 2 * (k * d.u) + d.u - 1
  }

  /** Twice the point follows from where the windows start. */
  lemma LemmaTwicePoint(d: Divider, k: nat)
    requires ValidDivider(d)
    ensures TwicePoint(d, k) == 2 * Start(d, k) + if Interpolates(d, k) then d.u else d.u - 1
  {
    if d.halved {
      var g := k / 2;
      StartHalved(d, g);
      assert k == 2 * g || k == 2 * g + 1;
      assert 2 * g * (2 * d.u + 1) == 2 * (g * (2 * d.u + 1));
      assert (2 * g + 1) * (2 * d.u + 1) == 2 * g * (2 * d.u + 1) + (2 * d.u + 1);
    } else {
      StartIntegral(d, k);
    }
  }

  /** The mean of a window of a ramp that starts at b. */
  lemma LemmaMean(a: int, c: int, b: nat, u: nat, w: int)
    requires u > 0 && 2 * w == TwiceSum(a, c, b, b + u)
    ensures Truncates(TruncDiv(w, u), (2 * a + c * (2 * b + u - 1)) as real / 2.0)
  {
    var m := 2 * a + c * (2 * b + u - 1);
    assert 2 * w == u * m;
    hide TwiceSum, TruncDiv, Truncates;
    TruncDivTruncates(w, u);
    LemmaHalf(w, u, m);
  }

  lemma LemmaHalf(w: int, u: nat, m: int)
    requires u > 0 && 2 * w == u * m
    ensures w as real / u as real == m as real / 2.0
  {
    assert (u * m) as real == u as real * m as real;
  }

  lemma LemmaNested(p: nat, e: nat, t: nat, d: nat, r: nat)
    requires t < e && r < d
    ensures (p * e + t) * d + r == p * (d * e) + (t * d + r) && t * d + r < d * e
  {
    LemmaMulStrict(t, e, d);
    assert (p * e + t) * d == p * e * d + t * d;
    assert p * e * d == p * (d * e);
  }

  lemma LemmaDivDiv(y: nat, d: nat, e: nat)
    requires d > 0 && e > 0
    ensures y / d / e == y / (d * e)
  {
    var q, r := y / d, y % d;
    var p, t := q / e, q % e;
    assert y == q * d + r;
    assert q == p * e + t;
    LemmaNested(p, e, t, d, r);
    LemmaDivModUnique(y, d * e, p, t * d + r);
  }

  /** Truncating twice is truncating once. */
  lemma LemmaTwice(x: int, d: nat, e: nat)
    requires d > 0 && e > 0
    ensures d * e > 0 && TruncDiv(TruncDiv(x, d), e) == TruncDiv(x, d * e)
  {
    LemmaMulStrict(0, d, e);
    if x >= 0 {
      LemmaDivDiv(x, d, e);
    } else {
      LemmaDivDiv(-x, d, e);
      assert TruncDiv(x, d) == -(-x / d) <= 0;
    }
  }

  /** 3 p1 + 6 p2 - p3 for such windows. */
  lemma LemmaWeighted(a: int, c: int, b: nat, u: nat, p1: int, p2: int, p3: int)
    requires 2 * p1 == TwiceSum(a, c, b, b + u)
    requires 2 * p2 == TwiceSum(a, c, b + 1, b + 1 + u) && 2 * p3 == TwiceSum(a, c, b + 2, b + 2 + u)
    ensures 3 * p1 + 6 * p2 - p3 == 4 * (u * (2 * a + c * (2 * b + u)))
  {
    var m := 2 * a + c * (2 * b + u);
    assert 2 * p1 == u * (m - c) by {
      assert c * (2 * b + u - 1) == c * (2 * b + u) - c;
    }
    assert 2 * p2 == u * (m + c) by {
      assert c * (2 * b + u + 1) == c * (2 * b + u) + c;
    }
    assert 2 * p3 == u * (m + 3 * c) by {
      assert c * (2 * b + u + 3) == c * (2 * b + u) + 3 * c;
    }
    LemmaDistribute(u, m, c);
  }

  lemma LemmaDistribute(u: int, m: int, c: int)
    ensures u * (m - c) == u * m - u * c && u * (m + c) == u * m + u * c && u * (m + 3 * c) == u * m + 3 * (u * c)
  {
  }

  /** The interpolated mean of three windows of a ramp that start at b, b + 1 and b + 2. */
  lemma LemmaInterpolated(a: int, c: int, b: nat, u: nat, p1: int, p2: int, p3: int)
    requires u > 0 && 2 * p1 == TwiceSum(a, c, b, b + u)
    requires 2 * p2 == TwiceSum(a, c, b + 1, b + 1 + u) && 2 * p3 == TwiceSum(a, c, b + 2, b + 2 + u)
    ensures Truncates(TruncDiv(Interpolate(p1, p2, p3), u), (2 * a + c * (2 * b + u)) as real / 2.0)
  {
    hide TwiceSum, TruncDiv, Truncates;
    var m := 2 * a + c * (2 * b + u);
    LemmaWeighted(a, c, b, u, p1, p2, p3);
    var x := 3 * p1 + 6 * p2 - p3;
    LemmaTwice(x, 8, u);
    TruncDivTruncates(x, 8 * u);
    assert 2 * x == 8 * u * m;
    LemmaHalf(x, 8 * u, m);
  }

  lemma LemmaOnRamp(a: int, c: int, d: Divider, k: nat)
    ensures (2 * a + c * TwicePoint(d, k)) as real / 2.0 == ValueAt(a, c, d, k)
  {
    assert TwicePoint(d, k) as real == 2.0 * Point(d, k) by {
      assert (k * d.u) as real == k as real * d.u as real;
      assert k * (2 * d.u + 1) == 2 * (k * d.u) + k;
    }
    assert (c * TwicePoint(d, k)) as real == c as real * TwicePoint(d, k) as real;
  }

  /** One channel of an interpolated output, and of a mean. */
  lemma LemmaInterpolatedPoint(a: int, c: int, d: Divider, k: nat, b: nat, p1: int, p2: int, p3: int)
    requires ValidDivider(d) && Interpolates(d, k) && b == Start(d, k) && 2 * p1 == TwiceSum(a, c, b, b + d.u)
    requires 2 * p2 == TwiceSum(a, c, b + 1, b + 1 + d.u) && 2 * p3 == TwiceSum(a, c, b + 2, b + 2 + d.u)
    ensures Truncates(TruncDiv(Interpolate(p1, p2, p3), d.u), ValueAt(a, c, d, k))
  {
    hide TwiceSum, Truncates, TruncDiv, Interpolate, ValueAt, TwicePoint, Start;
    LemmaTwicePoint(d, k);
    LemmaInterpolated(a, c, b, d.u, p1, p2, p3);
    LemmaOnRamp(a, c, d, k);
  }

  lemma LemmaMeanPoint(a: int, c: int, d: Divider, k: nat, b: nat, w: int)
    requires ValidDivider(d) && !Interpolates(d, k) && b == Start(d, k) && 2 * w == TwiceSum(a, c, b, b + d.u)
    ensures Truncates(TruncDiv(w, d.u), ValueAt(a, c, d, k))
  {
    hide TwiceSum, Truncates, TruncDiv, ValueAt, TwicePoint, Start;
    LemmaTwicePoint(d, k);
    LemmaMean(a, c, b, d.u, w);
    LemmaOnRamp(a, c, d, k);
  }

  /** Two outputs in a row lie the divider apart. */
  lemma PointsApart(d: Divider, k: nat)
    ensures Point(d, k + 1) - Point(d, k) == if d.halved then d.u as real + 0.5 else d.u as real
  {
    assert (k + 1) as real * Distance(d) == k as real * Distance(d) + Distance(d);
  }

  /** On a ramp every output, interpolated or not, is the value of the ramp at its point, without the fraction. */
  lemma OutputsOfRamp(d: Divider, s: seq<Stereo>, first: Stereo, slope: Stereo, k: nat)
    requires ValidDivider(d) && IsRamp(s, first, slope) && Start(d, k) + Span(d, k) <= |s|
    ensures Truncates(Output(d, s, k).l, ValueAt(first.l, slope.l, d, k))
    ensures Truncates(Output(d, s, k).r, ValueAt(first.r, slope.r, d, k))
  {
    hide TwiceSum, Truncates, TruncDiv, Interpolate, ValueAt, IsRamp, Start;
    var b, u := Start(d, k), d.u;
    WindowOfRamp(s, first, slope, b, b + u);
    var p1 := Window(s, b, b + u);
    hide Window;
    if d.halved && k % 2 == 0 {
      WindowOfRamp(s, first, slope, b + 1, b + 1 + u);
      WindowOfRamp(s, first, slope, b + 2, b + 2 + u);
      var p2, p3 := Window(s, b + 1, b + 1 + u), Window(s, b + 2, b + 2 + u);
      LemmaInterpolatedPoint(first.l, slope.l, d, k, b, p1.l, p2.l, p3.l);
      LemmaInterpolatedPoint(first.r, slope.r, d, k, b, p1.r, p2.r, p3.r);
    } else {
      LemmaMeanPoint(first.l, slope.l, d, k, b, p1.l);
      LemmaMeanPoint(first.r, slope.r, d, k, b, p1.r);
    }
  }
}
