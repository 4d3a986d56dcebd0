/** Down-sampling a stream that comes in buffers: the result is a function of the whole stream. */
module Chunking {
  import opened Common
  import opened Resample
  import opened SaveBuffer

  /** How many outputs n samples make. */
  function CountOf(d: Divider, n: nat): nat
    requires ValidDivider(d)
  {
    if !d.halved then n / d.u
    else if n == 0 then 0
    else 2 * ((n - 1) / (2 * d.u + 1)) + if (n - 1) % (2 * d.u + 1) <= d.u then 0 else 1
  }

  /** With a halved divider, n samples make two outputs for each 2u + 1; the first of a pair when u + 2 samples of its
      group are there, the second when the next group begins. */
  lemma CountHalved(d: Divider, n: nat)
    requires ValidDivider(d) && d.halved
    ensures CountIs(d, n, CountOf(d, n))
  {
    if n > 0 {
      var q, r := (n - 1) / (2 * d.u + 1), (n - 1) % (2 * d.u + 1);
      assert n - 1 == q * (2 * d.u + 1) + r;
      LemmaCountHalved(d, n, q, r);
    }
  }

  lemma LemmaCountHalved(d: Divider, n: nat, q: nat, r: nat)
    requires ValidDivider(d) && d.halved
    requires r <= 2 * d.u && n - 1 == q * (2 * d.u + 1) + r
    ensures CountIs(d, n, if r <= d.u then 2 * q else 2 * q + 1)
  {
    StartHalved(d, q);
    hide Start;
  }

  lemma CountIsCountOf(d: Divider, n: nat, m: nat)
    requires ValidDivider(d)
    ensures CountIs(d, n, m) <==> m == CountOf(d, n)
  {
    if d.halved {
      CountHalved(d, n);
      if CountIs(d, n, m) {
        CountUnique(d, n, m, CountOf(d, n));
      }
    } else {
      CountIntegral(d, n, m);
    }
  }

  lemma CountedOutputsAreDetermined(d: Divider, n: nat, m: nat, k: nat)
    requires ValidDivider(d) && CountIs(d, n, m) && k < m
    ensures Start(d, k) + Span(d, k) <= n
  {
    if k + 1 < m {
      LemmaStartMonotone(d, k + 1, m);
    }
  }

  /** The outputs for a whole stream. */
  ghost function AllOutputs(d: Divider, s: seq<Stereo>): (o: seq<Stereo>)
    requires ValidDivider(d)
    ensures |o| == CountOf(d, |s|)
    ensures IsPrefixOfOutputs(d, s, o)
  {
    CountIsCountOf(d, |s|, CountOf(d, |s|));
    assert forall k: nat | k < CountOf(d, |s|) :: Start(d, k) + Span(d, k) <= |s| by {
      forall k: nat | k < CountOf(d, |s|)
        ensures Start(d, k) + Span(d, k) <= |s|
      {
        CountedOutputsAreDetermined(d, |s|, CountOf(d, |s|), k);
      }
    }
    seq(CountOf(d, |s|), k requires 0 <= k < CountOf(d, |s|) && Start(d, k) + Span(d, k) <= |s| => Output(d, s, k))
  }

  lemma LemmaAllOutputs(d: Divider, s: seq<Stereo>, o: seq<Stereo>)
    requires IsPrefixOfOutputs(d, s, o) && CountIs(d, |s|, |o|)
    ensures o == AllOutputs(d, s)
  {
    hide CountOf, Output, Start;
    CountIsCountOf(d, |s|, |o|);
  }

  /** All samples of a stream of bytes. */
  function SamplesOf(b: seq<Octet>): seq<Stereo> {
    Samples(b, |b| / 4)
  }

  lemma {:induction false} LemmaSamplesAppend(a: seq<Octet>, b: seq<Octet>, k: nat, n: nat)
    requires |a| == 4 * k && 4 * n <= |b|
    ensures Samples(a + b, k + n) == Samples(a, k) + Samples(b, n)
  {
    hide Signed16;
    if n == 0 {
      LemmaSamplesPrefix(a, b, k);
    } else {
      LemmaSamplesAppend(a, b, k, n - 1);
      assert SampleAt(a + b, k + n - 1) == SampleAt(b, n - 1);
    }
  }

  lemma {:induction false} LemmaSamplesPrefix(a: seq<Octet>, b: seq<Octet>, k: nat)
    requires 4 * k <= |a|
    ensures Samples(a + b, k) == Samples(a, k)
  {
    hide Signed16;
    if k > 0 {
      LemmaSamplesPrefix(a, b, k - 1);
      assert SampleAt(a + b, k - 1) == SampleAt(a, k - 1);
    }
  }

  lemma {:induction false} LemmaEncodeAppend(f: Format, x: seq<Stereo>, y: seq<Stereo>)
    requires f.channels in {1, 2}
    ensures Encode(f, x + y) == Encode(f, x) + Encode(f, y)
  {
    hide Encode1, Encode, Width;
    if y == [] {
      assert x + y == x;
      LemmaEncodeNothing(f);
    } else {
      var k := |y| - 1;
      LemmaEncodeAppend(f, x, y[..k]);
      LemmaEncodeSnoc(f, x + y[..k], y[k]);
      LemmaEncodeSnoc(f, y[..k], y[k]);
      assert x + y == x + y[..k] + [y[k]] && y == y[..k] + [y[k]];
    }
  }

  lemma LemmaNextPiece(pieces: seq<seq<Octet>>, i: nat, n: nat)
    requires i < |pieces| && |pieces[i]| == 4 * n && |Joined(pieces[..i])| % 4 == 0
    ensures Joined(pieces[..i + 1]) == Joined(pieces[..i]) + pieces[i] && |Joined(pieces[..i + 1])| % 4 == 0
    ensures SamplesOf(Joined(pieces[..i + 1])) == SamplesOf(Joined(pieces[..i])) + Samples(pieces[i], n)
  {
    hide Samples;
    assert pieces[..i + 1][..i] == pieces[..i];
    LemmaSamplesAppend(Joined(pieces[..i]), pieces[i], |Joined(pieces[..i])| / 4, n);
  }

  lemma LemmaStart()
    ensures Joined<Octet>([]) == [] && SamplesOf([]) == []
  {
  }

  /** However the stream is cut into calls of SaveBuffer, the sample file holds the outputs for the whole stream. */
  method ConvertPieces(d: Divider, f: Format, pieces: seq<seq<Octet>>) returns (file: seq<Octet>)
    requires ValidDivider(d) && ValidFormat(f) && forall i | 0 <= i < |pieces| :: |pieces[i]| % 4 == 0
    ensures file == Encode(Effective(d, f), AllOutputs(d, SamplesOf(Joined(pieces))))
  {
    hide Samples, Encode, AllOutputs, SamplesOf, CountIs, IsPrefixOfOutputs, Holds;
    var c := new Converter(d);
    file := [];
    LemmaStart();
    LemmaEncodeNothing(Effective(d, f));
    for i := 0 to |pieces|
      invariant c.Valid() && c.d == d && fresh(c)
      invariant |Joined(pieces[..i])| % 4 == 0 && c.input == SamplesOf(Joined(pieces[..i]))
      invariant file == Encode(Effective(d, f), c.output)
    {
      var n := |pieces[i]| / 4;
      LemmaNextPiece(pieces, i, n);
      var buf := new Octet[|pieces[i]|](j requires 0 <= j < |pieces[i]| => pieces[i][j]);
      assert buf[..] == pieces[i];
      ghost var before := c.output;
      var dst;
      ghost var written;
      dst, written := c.Save(buf, n, f);
      LemmaEncodeAppend(Effective(d, f), before, written);
      file := file + buf[..dst];
    }
    assert pieces[..|pieces|] == pieces;
    LemmaAllOutputs(d, c.input, c.output);
  }

  lemma LemmaEncodeNothing(f: Format)
    requires f.channels in {1, 2}
    ensures Encode(f, []) == []
  {
  }
}
