/** SaveBuffer's conversion loop as it runs: accumulators kept from call to call, output written over the input. */
module SaveBuffer {
  import opened Common
  import opened Resample

  datatype Phase = Collecting | TwoMissing | OneMissing | NoneMissing

  ghost function Append(outputs: seq<Stereo>, x: Option<Stereo>): seq<Stereo> {
    if x.Some? then outputs + [x.value] else outputs
  }

  lemma LemmaMoreInput(d: Divider, s: seq<Stereo>, t: seq<Stereo>, outputs: seq<Stereo>)
    requires IsPrefixOfOutputs(d, s, outputs) && s <= t
    ensures IsPrefixOfOutputs(d, t, outputs)
  {
    forall k: nat | k < |outputs|
      ensures Start(d, k) + Span(d, k) <= |t| && outputs[k] == Output(d, t, k)
    {
      OutputPrefix(d, s, t, k);
    }
  }

  /** The accumulators, as one value. */
  datatype Accu = Accu(sum: Stereo, sum2: Stereo, sum3: Stereo, todo: int, toggleOn: bool, phase: Phase)

  /** The accumulators hold the windows of output m, as far as its samples have come. */
  ghost predicate Holds(d: Divider, s: seq<Stereo>, m: nat, a: Accu) {
    var b, n := Start(d, m), |s|;
    && ValidDivider(d)
    && (d.halved ==> a.toggleOn == (m % 2 == 1))
    && b <= n
    && (if Interpolates(d, m) then
          && n <= b + d.u + 1
          && a.sum2 == Window(s, b + 1, n) && a.sum3 == Window(s, b + 2, n)
          && (if n <= b + d.u then a.phase == Collecting && a.todo == b + d.u - n && a.sum == Window(s, b, n)
              else a.phase == OneMissing && a.todo == 0 && a.sum == Window(s, b, b + d.u))
        else
          && n <= b + d.u
          && a.phase == Collecting && a.todo == b + d.u - n && a.sum == Window(s, b, n)
          && a.sum2 == a.sum3 == ZERO)
  }

  function Reloaded(d: Divider, x: Stereo, toggleOn: bool): Accu {
    Accu(x, ZERO, ZERO, d.u - 1, !toggleOn, Collecting)
  }

  lemma LemmaWindowSnoc(s: seq<Stereo>, x: Stereo, lo: nat)
    ensures Window(s + [x], lo, |s| + 1) == if lo <= |s| then Window(s, lo, |s|).Plus(x) else ZERO
  {
    if lo <= |s| {
      LemmaWindowPrefix(s, s + [x], lo, |s|);
    }
  }

  lemma CollectPlain(d: Divider, s: seq<Stereo>, x: Stereo, m: nat, a: Accu)
    requires Holds(d, s, m, a) && !Interpolates(d, m) && a.todo > 0
    ensures Holds(d, s + [x], m, a.(sum := a.sum.Plus(x), todo := a.todo - 1))
  {
    LemmaWindowSnoc(s, x, Start(d, m));
  }

  lemma CollectInterpolated(d: Divider, s: seq<Stereo>, x: Stereo, m: nat, a: Accu)
    requires Holds(d, s, m, a) && Interpolates(d, m) && a.phase == Collecting && a.todo > 0
    ensures Holds(d, s + [x], m, a.(sum := a.sum.Plus(x), todo := a.todo - 1,
                                    sum2 := if a.todo < d.u then a.sum2.Plus(x) else a.sum2,
                                    sum3 := if a.todo < d.u - 1 then a.sum3.Plus(x) else a.sum3))
  {
    var b := Start(d, m);
    LemmaWindowSnoc(s, x, b);
    LemmaWindowSnoc(s, x, b + 1);
    LemmaWindowSnoc(s, x, b + 2);
  }

  lemma CollectLastButOne(d: Divider, s: seq<Stereo>, x: Stereo, m: nat, a: Accu)
    requires Holds(d, s, m, a) && Interpolates(d, m) && a.phase == Collecting && a.todo == 0
    ensures Holds(d, s + [x], m, a.(phase := OneMissing, sum2 := a.sum2.Plus(x),
                                    sum3 := if d.u > 1 then a.sum3.Plus(x) else a.sum3))
  {
    var b := Start(d, m);
    LemmaWindowPrefix(s, s + [x], b, |s|);
    LemmaWindowSnoc(s, x, b + 1);
    LemmaWindowSnoc(s, x, b + 2);
  }

  lemma EmitMean(d: Divider, s: seq<Stereo>, x: Stereo, m: nat, a: Accu)
    requires Holds(d, s, m, a) && !Interpolates(d, m) && a.todo == 0
    ensures Start(d, m + 1) == Start(d, m) + Span(d, m) == |s|
    ensures Output(d, s + [x], m) == Mean(a.sum, d.u)
  {
    OutputPrefix(d, s, s + [x], m);
  }

  lemma EmitInterpolated(d: Divider, s: seq<Stereo>, x: Stereo, m: nat, a: Accu)
    requires Holds(d, s, m, a) && Interpolates(d, m) && a.phase == OneMissing
    ensures Start(d, m + 1) == |s| && Start(d, m) + Span(d, m) == |s| + 1
    ensures var p3 := a.sum3.Plus(x);
            Output(d, s + [x], m) == Mean(Stereo(Interpolate(a.sum.l, a.sum2.l, p3.l),
                                                 Interpolate(a.sum.r, a.sum2.r, p3.r)), d.u)
  {
    var b := Start(d, m);
    LemmaWindowPrefix(s, s + [x], b, b + d.u);
    LemmaWindowPrefix(s, s + [x], b + 1, b + 1 + d.u);
    LemmaWindowSnoc(s, x, b + 2);
  }

  lemma Reload(d: Divider, s: seq<Stereo>, x: Stereo, m: nat, toggleOn: bool)
    requires ValidDivider(d) && Start(d, m + 1) == |s| && (d.halved ==> toggleOn == (m % 2 == 1))
    ensures Holds(d, s + [x], m + 1, Reloaded(d, x, toggleOn))
  {
    var b := Start(d, m + 1);
    LemmaWindowSnoc(s, x, b);
    assert Window(s, b, |s|) == ZERO;
  }

  // ----- sample formats (host byte order little-endian)

  /** channels is 1 or 2; shift is 16 - bits: 0, 4 or 8. */
  datatype Format = Format(channels: nat, shift: nat)

  ghost predicate ValidFormat(f: Format) {
    f.channels in {1, 2} && f.shift in {0, 4, 8}
  }

  function Signed16(lo: Octet, hi: Octet): int {
    var v := lo + 256 * hi;
    if v >= 32768 then v - 65536 else v
  }

  /** Storing into an Int16_t keeps the low 16 bits. */
  function Store16(v: int): (b: seq<Octet>)
    ensures |b| == 2
    ensures -32768 <= v < 32768 ==> Signed16(b[0], b[1]) == v
  {
    [v % 256, v / 256 % 256]
  }

  function Store8(v: int): (b: seq<Octet>)
    ensures |b| == 1
  {
    [(v % 256 + 128) % 256]
  }

  /** x >> bits on a signed value. */
  function ShiftRight(x: int, bits: nat): int {
    if bits == 0 then x else ShiftRight(x, bits - 1) / 2
  }

  /** emit_sample's conversion to the output format. */
  function Encode1(f: Format, x: Stereo): seq<Octet> {
    if f.channels == 1 then
      var sum := ShiftRight(x.l + x.r, f.shift + 1);
      if f.shift == 8 then Store8(sum) else Store16(sum)
    else
      var l, r := ShiftRight(x.l, f.shift), ShiftRight(x.r, f.shift);
      if f.shift == 8 then Store8(l) + Store8(r) else Store16(l) + Store16(r)
  }

  function Width(f: Format): nat {
    f.channels * if f.shift == 8 then 1 else 2
  }

  // ----- what a player reads

  /** Value i of the bytes: with 8 bits the offset is 128. */
  function ValueOf(f: Format, b: seq<Octet>, i: nat): int
    requires if f.shift == 8 then i < |b| else 2 * i + 2 <= |b|
  {
    if f.shift == 8 then b[i] - 128 else Signed16(b[2 * i], b[2 * i + 1])
  }

  /** How many steps of the input make one of the output. */
  function Step(f: Format): (n: nat)
    ensures n > 0
  {
    if f.shift == 8 then 256 else if f.shift == 4 then 16 else 1
  }

  /** v is w, or what is left of w in the bits that are stored. */
  ghost predicate Stored(f: Format, v: int, w: int) {
    if f.shift == 8 then -128 <= v < 128 && (w - v) % 256 == 0 else -32768 <= v < 32768 && (w - v) % 65536 == 0
  }

  lemma LemmaShiftRight(x: int)
    ensures ShiftRight(x, 0) == x && ShiftRight(x, 1) == x / 2
    ensures ShiftRight(x, 4) == x / 16 && ShiftRight(x, 5) == x / 32
    ensures ShiftRight(x, 8) == x / 256 && ShiftRight(x, 9) == x / 512
  {
    assert ShiftRight(x, 1) == x / 2;
    assert ShiftRight(x, 2) == x / 4;
    assert ShiftRight(x, 3) == x / 8;
    assert ShiftRight(x, 4) == x / 16;
    assert ShiftRight(x, 5) == x / 32;
    assert ShiftRight(x, 6) == x / 64;
    assert ShiftRight(x, 7) == x / 128;
    assert ShiftRight(x, 8) == x / 256;
    assert ShiftRight(x, 9) == x / 512;
  }

  lemma LemmaStored16(v: int)
    ensures -32768 <= Signed16(Store16(v)[0], Store16(v)[1]) < 32768
    ensures (v - Signed16(Store16(v)[0], Store16(v)[1])) % 65536 == 0
  {
    var q, lo := v / 256, v % 256;
    var k, hi := q / 256, q % 256;
    assert v == 65536 * k + 256 * hi + lo;
  }

  lemma LemmaStored8(v: int)
    ensures Stored(Format(1, 8), ValueOf(Format(1, 8), Store8(v), 0), v)
  {
  }

  lemma LemmaValue(f: Format, v: int, rest: seq<Octet>)
    requires ValidFormat(f)
    ensures var b := if f.shift == 8 then Store8(v) else Store16(v);
            && Stored(f, ValueOf(f, b + rest, 0), v)
            && (|rest| >= |b| ==> ValueOf(f, b + rest, 1) == ValueOf(f, rest, 0))
  {
    hide Signed16, Store16, Store8;
    LemmaStored16(v);
    LemmaStored8(v);
  }

  /** What is read from the bytes of an output: of two channels the left and the right value, of one their mean, in steps of
      the output format and rounded down. */
  lemma EncodedValues(f: Format, x: Stereo)
    requires ValidFormat(f)
    ensures |Encode1(f, x)| == f.channels * if f.shift == 8 then 1 else 2
    ensures f.channels == 2 ==> Stored(f, ValueOf(f, Encode1(f, x), 0), x.l / Step(f))
    ensures f.channels == 2 ==> Stored(f, ValueOf(f, Encode1(f, x), 1), x.r / Step(f))
    ensures f.channels == 1 ==> Stored(f, ValueOf(f, Encode1(f, x), 0), (x.l + x.r) / (2 * Step(f)))
  {
    hide ShiftRight, Store8, Store16, Stored, ValueOf;
    LemmaShiftRight(x.l);
    LemmaShiftRight(x.r);
    LemmaShiftRight(x.l + x.r);
    if f.channels == 1 {
      var sum := ShiftRight(x.l + x.r, f.shift + 1);
      LemmaValue(f, sum, []);
      assert Encode1(f, x) + [] == Encode1(f, x);
    } else {
      var l, r := ShiftRight(x.l, f.shift), ShiftRight(x.r, f.shift);
      var second := if f.shift == 8 then Store8(r) else Store16(r);
      LemmaValue(f, l, second);
      LemmaValue(f, r, []);
      assert second + [] == second;
    }
  }

  function Encode(f: Format, outputs: seq<Stereo>): (b: seq<Octet>)
    requires f.channels in {1, 2}
    ensures |b| == |outputs| * Width(f) <= 4 * |outputs|
  {
    if outputs == [] then []
    else
      var k := |outputs| - 1;
      assert |outputs| * Width(f) == k * Width(f) + Width(f);
      Encode(f, outputs[..k]) + Encode1(f, outputs[k])
  }

  lemma LemmaEncodeSnoc(f: Format, outputs: seq<Stereo>, x: Stereo)
    requires f.channels in {1, 2}
    ensures Encode(f, outputs + [x]) == Encode(f, outputs) + Encode1(f, x)
  {
    assert (outputs + [x])[..|outputs|] == outputs;
  }

  function SampleAt(b: seq<Octet>, i: nat): Stereo
    requires 4 * i + 4 <= |b|
  {
    Stereo(Signed16(b[4 * i], b[4 * i + 1]), Signed16(b[4 * i + 2], b[4 * i + 3]))
  }

  /** The first n samples of a buffer. */
  function Samples(b: seq<Octet>, n: nat): (s: seq<Stereo>)
    requires 4 * n <= |b|
    ensures |s| == n
  {
    if n == 0 then [] else Samples(b, n - 1) + [SampleAt(b, n - 1)]
  }

  /** The condition of the short cut for unconverted output; the rest of it, samplesToDo == 1, then always holds. */
  predicate Unconverted(d: Divider, f: Format) {
    d.u == 1 && !d.halved && f.channels == 2 && f.shift != 8
  }

  /** The short cut forwards 12-bit stereo output unshifted, unlike the conversion loop. */
  function Effective(d: Divider, f: Format): Format {
    if Unconverted(d, f) then f.(shift := 0) else f
  }

  /** The statics of resample.c. input and output are everything ever converted. */
  class Converter {
    const d: Divider
    var sum: Stereo
    var sum2: Stereo
    var sum3: Stereo
    var aux: Stereo
    var samplesToDo: int
    var toggleOn: bool
    var phase: Phase
    ghost var input: seq<Stereo>
    ghost var output: seq<Stereo>

    constructor (d: Divider)
      requires ValidDivider(d)
      ensures this.d == d && Valid() && input == [] && output == []
    {
      this.d := d;
      sum, sum2, sum3, aux := ZERO, ZERO, ZERO, ZERO;
      samplesToDo, toggleOn, phase := d.u, false, Collecting;
      input, output := [], [];
    }

    ghost function State(): Accu
      reads this
    {
      Accu(sum, sum2, sum3, samplesToDo, toggleOn, phase)
    }

    /** Everything written so far is right, and the accumulators are ready for the next output. */
    ghost predicate Converting()
      reads this
    {
      && IsPrefixOfOutputs(d, input, output)
      && Holds(d, input, |output|, State())
    }

    /** Between calls: besides, exactly the outputs that are due have been written. */
    ghost predicate Valid()
      reads this
    {
      && Converting()
      && CountIs(d, |input|, |output|)
    }

    /** Scale, emit and reload: the code behind the label none__missing. */
    method Emit() returns (out: Stereo)
      requires ValidDivider(d)
      modifies `sum, `sum2, `sum3, `aux, `samplesToDo, `toggleOn, `phase
      ensures out == if d.halved && !old(toggleOn)
                     then Mean(Stereo(Interpolate(old(sum).l, old(sum2).l, old(sum3).l),
                                      Interpolate(old(sum).r, old(sum2).r, old(sum3).r)), d.u)
                     else Mean(old(sum), d.u)
      ensures State() == Reloaded(d, old(aux), old(toggleOn)) && aux == ZERO
    {
      if d.halved && !toggleOn {
        out := Mean(Stereo(Interpolate(sum.l, sum2.l, sum3.l), Interpolate(sum.r, sum2.r, sum3.r)), d.u);
      } else {
        out := Mean(sum, d.u);
      }
      samplesToDo := d.u - 1;
      sum := aux;
      aux, sum2, sum3 := ZERO, ZERO, ZERO;
      toggleOn := !toggleOn;
      phase := Collecting;
    }

    /** The code behind the label two__missing. */
    method TakeLastButOne(x: Stereo)
      modifies `sum2, `sum3, `phase
      ensures State() == old(State()).(phase := OneMissing, sum2 := old(sum2).Plus(x),
                                       sum3 := if d.u > 1 then old(sum3).Plus(x) else old(sum3))
    {
      sum2 := sum2.Plus(x);
      if d.u > 1 {
        sum3 := sum3.Plus(x);
      }
      phase := OneMissing;
    }

    /** The accumulation in state `collecting`. */
    method Collect(x: Stereo)
      requires samplesToDo > 0 && phase == Collecting
      modifies `sum, `sum2, `sum3, `samplesToDo
      ensures var a, i := old(State()), d.halved && !toggleOn;
              State() == a.(sum := a.sum.Plus(x), todo := a.todo - 1,
                            sum2 := if i && a.todo < d.u then a.sum2.Plus(x) else a.sum2,
                            sum3 := if i && a.todo < d.u - 1 then a.sum3.Plus(x) else a.sum3)
    {
      samplesToDo := samplesToDo - 1;
      sum := sum.Plus(x);
      if d.halved && !toggleOn {
        if samplesToDo < d.u - 1 {
          sum2 := sum2.Plus(x);
        }
        if samplesToDo < d.u - 2 {
          sum3 := sum3.Plus(x);
        }
      }
    }

    /** One round of the loop: the switch over the sample state. */
    method Convert(x: Stereo) returns (out: Option<Stereo>)
      requires Converting()
      modifies this
      ensures Converting() && input == old(input) + [x] && output == Append(old(output), out)
      ensures out.Some? ==> Start(d, |output|) < |input|
      ensures !d.halved && old(samplesToDo) > 0 ==> out.None?
    {
      hide Holds, IsPrefixOfOutputs, Start, Output;
      ghost var s, m, a := input, |output|, State();
      LemmaPhases(d, s, m, a);
      LemmaMoreInput(d, s, s + [x], output);
      out := None;
      match phase {
      case TwoMissing =>
        assert false;
      case OneMissing =>
        aux := x;
        sum3 := sum3.Plus(x);
        var o := Emit();
        out := Some(o);
        EmitInterpolated(d, s, x, m, a);
        Reload(d, s, x, m, a.toggleOn);
      case NoneMissing =>
        assert false;
      case Collecting =>
        if samplesToDo > 0 {
          Collect(x);
          if Interpolates(d, m) {
            CollectInterpolated(d, s, x, m, a);
          } else {
            CollectPlain(d, s, x, m, a);
          }
        } else if d.halved && !toggleOn {
          TakeLastButOne(x);
          CollectLastButOne(d, s, x, m, a);
        } else {
          aux := x;
          var o := Emit();
          out := Some(o);
          EmitMean(d, s, x, m, a);
          Reload(d, s, x, m, a.toggleOn);
        }
      }
      input := input + [x];
      if out.Some? {
        LemmaOneMore(d, input, output, out.value);
        output := output + [out.value];
        assert |output| == m + 1;
      }
    }

    /** flush_buffer: a complete window at the end of a buffer is written at once. */
    method Flush() returns (out: Option<Stereo>)
      requires Converting() && (d.halved ==> |output| == 0 || Start(d, |output|) < |input|)
      modifies this
      ensures Valid() && input == old(input) && output == Append(old(output), out)
      ensures out.Some? ==> !d.halved && old(samplesToDo) == 0
    {
      hide Holds, IsPrefixOfOutputs, CountIs, Start;
      out := None;
      ghost var m, a := |output|, State();
      LemmaPhases(d, input, m, a);
      if samplesToDo == 0 && !d.halved {
        out := Some(Mean(sum, d.u));
        LemmaFlushed(d, input, m, a);
        LemmaOneMore(d, input, output, out.value);
        samplesToDo := d.u;
        sum, aux, sum2, sum3 := ZERO, ZERO, ZERO, ZERO;
        toggleOn := !toggleOn;
        phase := Collecting;
        output := output + [out.value];
      } else {
        LemmaDue(d, input, m, a);
      }
    }

    /** A group with a halved divider has begun: its first sample came with the output before it. */
    ghost predicate Begun()
      reads this
    {
      d.halved ==> |output| == 0 || Start(d, |output|) < |input|
    }

    /** SaveBuffer: convert n samples of buf. The output overwrites the buffer from its start, never a sample that is
        still to be read, and continues exactly where the previous call stopped. */
    method Save(buf: array<Octet>, n: nat, f: Format) returns (dst: nat, ghost written: seq<Stereo>)
      requires Valid() && ValidFormat(f) && 4 * n <= buf.Length
      modifies this, buf
      ensures Valid() && dst <= 4 * n
      ensures input == old(input) + Samples(old(buf[..]), n)
      ensures output == old(output) + written
      ensures buf[..dst] == Encode(Effective(d, f), written)
      ensures buf[4 * n..] == old(buf[4 * n..])
    {
      LemmaBetweenCalls(d, input, |output|, State());
      if d.u == 1 && samplesToDo == 1 && f.channels == 2 && f.shift != 8 && !d.halved {
        dst, written := Forward(buf, n, f);
      } else {
        dst, written := TransformAndFlush(buf, n, f);
      }
    }

    /** The short cut: the buffer is written as it is. */
    method Forward(buf: array<Octet>, n: nat, f: Format) returns (dst: nat, ghost written: seq<Stereo>)
      requires Valid() && Unconverted(d, f) && 4 * n <= buf.Length
      modifies this
      ensures Valid() && dst == 4 * n
      ensures written == Samples(buf[..], n) && input == old(input) + written && output == old(output) + written
      ensures buf[..dst] == Encode(Effective(d, f), written)
    {
      hide Holds, IsPrefixOfOutputs, CountIs, Start;
      dst, written := 4 * n, Samples(buf[..], n);
      LemmaForward(d, input, output, State(), written);
      LemmaEncodeSamples(buf[..], n);
      output := output + written;
      input := input + written;
    }

    method TransformAndFlush(buf: array<Octet>, n: nat, f: Format) returns (dst: nat, ghost written: seq<Stereo>)
      requires Valid() && ValidFormat(f) && 4 * n <= buf.Length
      modifies this, buf
      ensures Valid() && input == old(input) + Samples(old(buf[..]), n) && output == old(output) + written
      ensures InPlace(f, old(buf[..]), buf[..], n, dst, written)
    {
      hide Holds, IsPrefixOfOutputs, CountIs, Start, Encode, Encode1, InPlace;
      ghost var src := buf[..];
      dst, written := Transform(buf, n, f);
      var out := Flush();
      if out.Some? {
        LemmaInPlaceWrite(f, src, buf[..], n, dst, written, out.value);
        Store(buf, dst, Encode1(f, out.value));
        dst, written := dst + Width(f), written + [out.value];
      }
    }

    /** The loop over the samples of one buffer. */
    method Transform(buf: array<Octet>, n: nat, f: Format) returns (dst: nat, ghost written: seq<Stereo>)
      requires Valid() && ValidFormat(f) && 4 * n <= buf.Length
      modifies this, buf
      ensures Converting() && Begun()
      ensures input == old(input) + Samples(old(buf[..]), n) && output == old(output) + written
      ensures InPlace(f, old(buf[..]), buf[..], n, dst, written)
      ensures !d.halved && samplesToDo == 0 ==> dst + 4 <= 4 * n
    {
      hide Holds, IsPrefixOfOutputs, CountIs, InPlace, Start, Encode, Encode1;
      ghost var src := buf[..];
      LemmaBetweenCalls(d, input, |output|, State());
      dst, written := 0, [];
      LemmaInPlaceStart(f, src);
      var i := 0;
      while i < n
        invariant 0 <= i <= n && Converting() && Begun()
        invariant input == old(input) + Samples(src, i) && output == old(output) + written
        invariant InPlace(f, src, buf[..], i, dst, written)
        invariant !d.halved ==> if i == 0 then dst == 0 && samplesToDo > 0 else dst + 4 <= 4 * i
      {
        dst, written := ConvertAt(buf, i, dst, f, src, written);
        i := i + 1;
      }
    }

    /** Read sample i, and write what it completes. */
    method ConvertAt(buf: array<Octet>, i: nat, dst: nat, f: Format, ghost src: seq<Octet>, ghost written: seq<Stereo>)
      returns (dst': nat, ghost written': seq<Stereo>)
      requires Converting() && Begun() && InPlace(f, src, buf[..], i, dst, written)
      requires 4 * i + 4 <= |src| == buf.Length
      modifies this, buf
      ensures Converting() && Begun()
      ensures InPlace(f, src, buf[..], i + 1, dst', written')
      ensures 4 * i + 4 <= |src| && input == old(input) + [SampleAt(src, i)]
      ensures written <= written' && output == old(output) + written'[|written|..]
      ensures dst' <= dst + 4 && (!d.halved && old(samplesToDo) > 0 ==> dst' == dst)
    {
      hide Holds, IsPrefixOfOutputs, CountIs, InPlace, Start, Encode, Encode1;
      dst', written' := dst, written;
      LemmaInPlaceRead(f, src, buf[..], i, dst, written);
      var x := Stereo(Signed16(buf[4 * i], buf[4 * i + 1]), Signed16(buf[4 * i + 2], buf[4 * i + 3]));
      var out := Convert(x);
      if out.Some? {
        LemmaInPlaceWrite(f, src, buf[..], i + 1, dst, written, out.value);
        Store(buf, dst, Encode1(f, out.value));
        dst', written' := dst + Width(f), written + [out.value];
      }
    }
  }

  /** After i samples of src were read and written written, cur holds the outputs, then rubbish, then what is unread. */
  ghost predicate InPlace(f: Format, src: seq<Octet>, cur: seq<Octet>, i: nat, dst: nat, written: seq<Stereo>) {
    && ValidFormat(f)
    && |cur| == |src| && 4 * i <= |src|
    && dst == |written| * Width(f) <= 4 * i
    && cur[..dst] == Encode(f, written)
    && cur[4 * i..] == src[4 * i..]
  }

  lemma LemmaInPlaceStart(f: Format, src: seq<Octet>)
    requires ValidFormat(f)
    ensures InPlace(f, src, src, 0, 0, [])
  {
  }

  lemma LemmaInPlaceRead(f: Format, src: seq<Octet>, cur: seq<Octet>, i: nat, dst: nat, written: seq<Stereo>)
    requires InPlace(f, src, cur, i, dst, written) && 4 * i + 4 <= |src|
    ensures InPlace(f, src, cur, i + 1, dst, written) && dst + 4 <= 4 * i + 4
    ensures |cur| == |src| && SampleAt(cur, i) == SampleAt(src, i)
  {
    assert forall k | 4 * i <= k < |src| :: cur[k] == cur[4 * i..][k - 4 * i] == src[4 * i..][k - 4 * i];
  }

  lemma LemmaInPlaceWrite(f: Format, src: seq<Octet>, cur: seq<Octet>, i: nat, dst: nat, written: seq<Stereo>, x: Stereo)
    requires InPlace(f, src, cur, i, dst, written) && dst + 4 <= 4 * i
    ensures |Encode1(f, x)| == Width(f) <= 4 && dst + Width(f) <= |cur| == |src|
    ensures InPlace(f, src, cur[..dst] + Encode1(f, x) + cur[dst + Width(f)..], i, dst + Width(f), written + [x])
  {
    LemmaEncodeSnoc(f, written, x);
    var b := Encode1(f, x);
    var next := cur[..dst] + b + cur[dst + |b|..];
    assert next[4 * i..] == cur[4 * i..];
    assert next[..dst + |b|] == cur[..dst] + b;
    assert (|written| + 1) * Width(f) == |written| * Width(f) + Width(f);
  }

  /** Store the bytes of one output at dst. */
  method Store(buf: array<Octet>, at: nat, bytes: seq<Octet>)
    requires at + |bytes| <= buf.Length
    modifies buf
    ensures buf[..] == old(buf[..at]) + bytes + old(buf[at + |bytes|..])
  {
    for i := 0 to |bytes|
      invariant buf[..at] == old(buf[..at]) && buf[at..at + i] == bytes[..i]
      invariant buf[at + |bytes|..] == old(buf[at + |bytes|..])
    {
      buf[at + i] := bytes[i];
    }
  }

  lemma LemmaFlushed(d: Divider, s: seq<Stereo>, m: nat, a: Accu)
    requires Holds(d, s, m, a) && !d.halved && a.todo == 0
    ensures Start(d, m) + Span(d, m) <= |s| && Output(d, s, m) == Mean(a.sum, d.u)
    ensures Holds(d, s, m + 1, Accu(ZERO, ZERO, ZERO, d.u, !a.toggleOn, Collecting))
    ensures CountIs(d, |s|, m + 1)
  {
    assert Start(d, m + 1) == |s|;
    assert Window(s, |s|, |s|) == ZERO;
  }

  /** Once nothing is to be flushed, exactly the outputs due are there. */
  lemma LemmaDue(d: Divider, s: seq<Stereo>, m: nat, a: Accu)
    requires Holds(d, s, m, a) && (d.halved || a.todo > 0)
    requires d.halved ==> m == 0 || Start(d, m) < |s|
    ensures CountIs(d, |s|, m)
  {
  }

  lemma LemmaBetweenCalls(d: Divider, s: seq<Stereo>, m: nat, a: Accu)
    requires Holds(d, s, m, a) && CountIs(d, |s|, m)
    ensures !d.halved ==> a.todo > 0
    ensures d.halved ==> m == 0 || Start(d, m) < |s|
    ensures d.u == 1 && !d.halved ==> a.todo == 1
  {
  }

  lemma {:induction false} LemmaEncodeSamples(b: seq<Octet>, n: nat)
    requires 4 * n <= |b|
    ensures Encode(Format(2, 0), Samples(b, n)) == b[..4 * n]
  {
    if n > 0 {
      var i := n - 1;
      LemmaEncodeSamples(b, i);
      LemmaEncodeSnoc(Format(2, 0), Samples(b, i), SampleAt(b, i));
      LemmaEncodeSample(b, i);
      assert b[..4 * n] == b[..4 * i] + b[4 * i..4 * i + 4];
    }
  }

  lemma LemmaEncodeSample(b: seq<Octet>, i: nat)
    requires 4 * i + 4 <= |b|
    ensures Encode1(Format(2, 0), SampleAt(b, i)) == b[4 * i..4 * i + 4]
  {
    LemmaStoreBack(b[4 * i], b[4 * i + 1]);
    LemmaStoreBack(b[4 * i + 2], b[4 * i + 3]);
  }

  lemma LemmaStoreBack(lo: Octet, hi: Octet)
    ensures Store16(Signed16(lo, hi)) == [lo, hi]
  {
  }

  /** The short cut is the conversion with divider 1. */
  lemma LemmaForward(d: Divider, s: seq<Stereo>, outputs: seq<Stereo>, a: Accu, more: seq<Stereo>)
    requires d == Divider(1, false)
    requires Holds(d, s, |outputs|, a) && CountIs(d, |s|, |outputs|) && IsPrefixOfOutputs(d, s, outputs)
    ensures var t, o := s + more, outputs + more;
            Holds(d, t, |o|, a) && CountIs(d, |t|, |o|) && IsPrefixOfOutputs(d, t, o)
    decreases |more|
  {
    if more == [] {
      assert s + more == s && outputs + more == outputs;
    } else {
      var x := more[0];
      LemmaForwardOne(d, s, outputs, a, x);
      LemmaForward(d, s + [x], outputs + [x], a, more[1..]);
      assert (s + [x]) + more[1..] == s + more && (outputs + [x]) + more[1..] == outputs + more;
    }
  }

  lemma LemmaForwardOne(d: Divider, s: seq<Stereo>, outputs: seq<Stereo>, a: Accu, x: Stereo)
    requires d == Divider(1, false)
    requires Holds(d, s, |outputs|, a) && CountIs(d, |s|, |outputs|) && IsPrefixOfOutputs(d, s, outputs)
    ensures Holds(d, s + [x], |outputs| + 1, a) && CountIs(d, |s| + 1, |outputs| + 1)
    ensures IsPrefixOfOutputs(d, s + [x], outputs + [x])
  {
    var t, m := s + [x], |outputs|;
    LemmaMoreInput(d, s, t, outputs);
    StartIntegral(d, m);
    StartIntegral(d, m + 1);
    StartIntegral(d, m + 2);
    assert |s| == m;
    assert Window(t, m, m + 1) == Window(t, m, m).Plus(x) == x;
    LemmaOneMore(d, t, outputs, x);
    assert Window(t, m + 1, m + 1) == ZERO;
  }

  /** The short cut agrees with emit_sample on all samples exactly when no bits are to be dropped. */
  lemma ShortCutExactlyForSixteenBits(f: Format)
    requires ValidFormat(f) && f.channels == 2 && f.shift != 8
    ensures (forall x: Stereo :: Encode1(f, x) == Encode1(f.(shift := 0), x)) <==> f.shift == 0
  {
    if f.shift == 4 {
      var x := Stereo(16, 0);
      assert ShiftRight(16, 4) == 1 by {
        assert ShiftRight(16, 1) == 8;
        assert ShiftRight(16, 2) == 4;
        assert ShiftRight(16, 3) == 2;
      }
      assert Encode1(f, x)[0] == 1 && Encode1(f.(shift := 0), x)[0] == 16;
    }
  }

  /** Between rounds only two of the four sample states occur. */
  lemma LemmaPhases(d: Divider, s: seq<Stereo>, m: nat, a: Accu)
    requires Holds(d, s, m, a)
    ensures ValidDivider(d) && (d.halved ==> a.toggleOn == (m % 2 == 1)) && a.todo >= 0
    ensures a.phase == Collecting || (a.phase == OneMissing && Interpolates(d, m))
  {
  }

  lemma LemmaOneMore(d: Divider, s: seq<Stereo>, outputs: seq<Stereo>, out: Stereo)
    requires IsPrefixOfOutputs(d, s, outputs)
    requires Start(d, |outputs|) + Span(d, |outputs|) <= |s| && out == Output(d, s, |outputs|)
    ensures IsPrefixOfOutputs(d, s, outputs + [out])
  {
  }
}
