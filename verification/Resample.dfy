/** The sample-rate conversion of SaveBuffer (cdda2wav/resample.c): a state machine over static accumulators, fed one
    buffer at a time, that writes its output over the input it has already read. */
module Resample {
  import opened Arith

  // ----- what the output is, as a function of all input so far

  /** One sample of both channels. */
  datatype Stereo = Stereo(l: int, r: int) {
    function Plus(x: Stereo): Stereo {
      Stereo(l + x.l, r + x.r)
    }
  }

  const ZERO := Stereo(0, 0)

  /** The sum of the samples lo, lo + 1, ..., hi - 1. */
  function Window(s: seq<Stereo>, lo: nat, hi: nat): Stereo
    requires hi <= |s|
    decreases hi
  {
    if hi <= lo then ZERO else Window(s, lo, hi - 1).Plus(s[hi - 1])
  }

  function Mean(x: Stereo, u: nat): Stereo
    requires u > 0
  {
    Stereo(TruncDiv(x.l, u), TruncDiv(x.r, u))
  }

  /** Quadratic interpolation half way between the first two of three values. */
  function Interpolate(p1: int, p2: int, p3: int): int {
    TruncDiv(3 * p1 + 6 * p2 - p3, 8)
  }

  /** The divider is u, or u and a half when halved. */
  datatype Divider = Divider(u: nat, halved: bool)

  ghost predicate ValidDivider(d: Divider) {
    d.u > 0
  }

  /** Output k interpolates when the divider is halved and k is even. */
  function Interpolates(d: Divider, k: nat): bool {
    d.halved && k % 2 == 0
  }

  /** The input position at which output k's windows start. */
  function Start(d: Divider, k: nat): nat {
    if k == 0 then 0 else Start(d, k - 1) + d.u + if Interpolates(d, k - 1) then 1 else 0
  }

  /** How many samples from Start on output k depends on. */
  function Span(d: Divider, k: nat): nat {
    if Interpolates(d, k) then d.u + 2 else d.u
  }

  function Output(d: Divider, s: seq<Stereo>, k: nat): Stereo
    requires ValidDivider(d) && Start(d, k) + Span(d, k) <= |s|
  {
    var b := Start(d, k);
    if Interpolates(d, k) then
      var p1, p2, p3 := Window(s, b, b + d.u), Window(s, b + 1, b + 1 + d.u), Window(s, b + 2, b + 2 + d.u);
      Mean(Stereo(Interpolate(p1.l, p2.l, p3.l), Interpolate(p1.r, p2.r, p3.r)), d.u)
    else Mean(Window(s, b, b + d.u), d.u)
  }

  /** Integral divider: output k is the mean of the u samples from k * u on. */
  lemma {:induction false} StartIntegral(d: Divider, k: nat)
    requires !d.halved
    ensures Start(d, k) == k * d.u
  {
    if k > 0 {
      StartIntegral(d, k - 1);
      assert k * d.u == (k - 1) * d.u + d.u;
    }
  }

  /** Halved divider: outputs come in pairs, one pair for 2u + 1 samples. */
  lemma {:induction false} StartHalved(d: Divider, g: nat)
    requires d.halved
    ensures Start(d, 2 * g) == g * (2 * d.u + 1)
    ensures Start(d, 2 * g + 1) == g * (2 * d.u + 1) + d.u + 1
  {
    if g > 0 {
      StartHalved(d, g - 1);
      assert 2 * g - 1 == 2 * (g - 1) + 1;
      assert g * (2 * d.u + 1) == (g - 1) * (2 * d.u + 1) + (2 * d.u + 1);
    }
  }

  lemma {:induction false} LemmaWindowPrefix(s: seq<Stereo>, t: seq<Stereo>, lo: nat, hi: nat)
    requires s <= t && hi <= |s|
    ensures Window(s, lo, hi) == Window(t, lo, hi)
    decreases hi
  {
    if lo < hi {
      LemmaWindowPrefix(s, t, lo, hi - 1);
    }
  }

  /** Output already determined does not depend on input still to come. */
  lemma OutputPrefix(d: Divider, s: seq<Stereo>, t: seq<Stereo>, k: nat)
    requires ValidDivider(d) && s <= t && Start(d, k) + Span(d, k) <= |s|
    ensures Output(d, s, k) == Output(d, t, k)
  {
    var b := Start(d, k);
    LemmaWindowPrefix(s, t, b, b + d.u);
    if Interpolates(d, k) {
      LemmaWindowPrefix(s, t, b + 1, b + 1 + d.u);
      LemmaWindowPrefix(s, t, b + 2, b + 2 + d.u);
    }
  }

  lemma {:induction false} LemmaStartMonotone(d: Divider, j: nat, k: nat)
    requires ValidDivider(d) && j < k
    ensures Start(d, j) + d.u <= Start(d, k)
    decreases k
  {
    if j < k - 1 {
      LemmaStartMonotone(d, j, k - 1);
    }
  }

  /** outputs are the first |outputs| outputs for the input s. */
  ghost predicate IsPrefixOfOutputs(d: Divider, s: seq<Stereo>, outputs: seq<Stereo>) {
    && ValidDivider(d)
    && forall k: nat | k < |outputs| :: Start(d, k) + Span(d, k) <= |s| && outputs[k] == Output(d, s, k)
  }

  /** How many outputs have been written once n samples were converted. With an integral divider every complete
      window; with a halved one, the mean that ends a group waits for the first sample of the next. */
  ghost predicate CountIs(d: Divider, n: nat, m: nat) {
    if !d.halved then Start(d, m) <= n < Start(d, m + 1)
    else if m % 2 == 0 then (m == 0 || Start(d, m) < n) && n < Start(d, m) + d.u + 2
    else Start(d, m) < n <= Start(d, m) + d.u
  }

  /** After n samples with an integral divider there are exactly floor(n / u) outputs. */
  lemma CountIntegral(d: Divider, n: nat, m: nat)
    requires ValidDivider(d) && !d.halved
    ensures CountIs(d, n, m) <==> m == n / d.u
  {
    StartIntegral(d, m);
    StartIntegral(d, m + 1);
    var q := n / d.u;
    assert n == q * d.u + n % d.u;
    assert (m + 1) * d.u == m * d.u + d.u;
    if m < q {
      LemmaMulStrict(m, q, d.u);
    } else if q < m {
      LemmaMulStrict(q, m, d.u);
    }
  }

  /** The count is determined: splitting the input differently over calls cannot change it. */
  lemma CountUnique(d: Divider, n: nat, j: nat, k: nat)
    requires ValidDivider(d) && CountIs(d, n, j) && CountIs(d, n, k)
    ensures j == k
  {
    if j < k {
      LemmaCountOrder(d, n, j, k);
    } else if k < j {
      LemmaCountOrder(d, n, k, j);
    }
  }

  lemma LemmaCountOrder(d: Divider, n: nat, j: nat, k: nat)
    requires ValidDivider(d) && j < k && CountIs(d, n, j)
    ensures !CountIs(d, n, k)
  {
    if j + 1 < k {
      LemmaStartMonotone(d, j + 1, k);
    }
  }
}
