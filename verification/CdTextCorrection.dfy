/** cdtext_crc_ok: check the CRC of an 18-byte pack and, when it is wrong, look for one bit whose correction makes it
    right (cdda2wav/cd_text.c). */
module CdTextCorrection {
  import opened Common
  import opened CdTextCrc

  const PACK_SIZE := 18
  const SUBSIZE := 144

  /** fliptab. */
  function FlipMask(j: nat): bv8
    requires j < 8
  {
    if j == 0 then 0x01 else if j == 1 then 0x02 else if j == 2 then 0x04 else if j == 3 then 0x08
    else if j == 4 then 0x10 else if j == 5 then 0x20 else if j == 6 then 0x40 else 0x80
  }

  function Toggle(b: bv8, mask: bv8): bv8 {
    b ^ mask
  }

  lemma LemmaToggle(a: bv8, m: bv8, n: bv8)
    ensures Toggle(Toggle(a, m), n) == Toggle(Toggle(a, n), m)
    ensures Toggle(Toggle(a, m), m) == a
    ensures Toggle(a, 0) == a && Toggle(0, a) == a
  {
  }

  /** A pack with bit i inverted: bit i % 8, counted from the least significant, of byte i / 8. */
  function Flip(s: seq<bv8>, i: nat): (t: seq<bv8>)
    requires |s| == PACK_SIZE && i < SUBSIZE
    ensures |t| == PACK_SIZE
  {
    s[i / 8 := Toggle(s[i / 8], FlipMask(i % 8))]
  }

  /** The two CRC bytes, complemented. */
  function Complement(s: seq<bv8>): (t: seq<bv8>)
    requires |s| == PACK_SIZE
    ensures |t| == PACK_SIZE
  {
    s[16 := Toggle(s[16], 0xFF)][17 := Toggle(s[17], 0xFF)]
  }

  /** A correct pack: with the CRC bytes complemented back, the whole has CRC 0. */
  predicate Correct(s: seq<bv8>)
    requires |s| == PACK_SIZE
  {
    Crc(0, Complement(s)) == 0
  }

  lemma ComplementTwice(s: seq<bv8>)
    requires |s| == PACK_SIZE
    ensures Complement(Complement(s)) == s
  {
    hide Toggle;
    LemmaToggle(s[16], 0xFF, 0xFF);
    LemmaToggle(s[17], 0xFF, 0xFF);
  }

  lemma ComplementFlip(s: seq<bv8>, i: nat)
    requires |s| == PACK_SIZE && i < SUBSIZE
    ensures Complement(Flip(s, i)) == Flip(Complement(s), i)
  {
    hide Toggle, FlipMask;
    LemmaToggle(s[i / 8], FlipMask(i % 8), 0xFF);
  }

  lemma FlipTwice(s: seq<bv8>, i: nat)
    requires |s| == PACK_SIZE && i < SUBSIZE
    ensures Flip(Flip(s, i), i) == s
  {
    hide Toggle, FlipMask;
    LemmaToggle(s[i / 8], FlipMask(i % 8), 0);
  }

  /** fillcrc's contract: the complement of the first 16 bytes' CRC in the last two makes a correct pack. */
  lemma FilledPackIsCorrect(s: seq<bv8>, hi: bv8, lo: bv8)
    requires |s| == 16 && hi == (Crc(0, s) >> 8) as bv8 && lo == (Crc(0, s) & 0xFF) as bv8
    ensures Correct(s + [Toggle(hi, 0xFF), Toggle(lo, 0xFF)])
  {
    hide Crc, Toggle;
    CrcOfCodeword(s, hi, lo);
    LemmaToggle(hi, 0xFF, 0xFF);
    LemmaToggle(lo, 0xFF, 0xFF);
    assert Complement(s + [Toggle(hi, 0xFF), Toggle(lo, 0xFF)]) == s + [hi, lo];
  }

  // ----- syndromes: what inverting one bit does to the CRC

  /** The distance of bit i from the end of a pack, in the order in which the CRC takes the bits. */
  function Distance(i: nat): (d: nat)
    requires i < SUBSIZE
    ensures d < SUBSIZE
  {
    8 * (17 - i / 8) + i % 8
  }

  lemma DistanceInjective(i: nat, j: nat)
    requires i < SUBSIZE && j < SUBSIZE && Distance(i) == Distance(j)
    ensures i == j
  {
  }

  lemma {:induction false} LemmaCrcZeros(c: bv16, n: nat)
    ensures Crc(c, Zeros(n)) == StepN(c, 8 * n)
  {
    hide Step, Update, Plus;
    if n > 0 {
      LemmaCrcZeros(c, n - 1);
      assert Zeros(n)[..n - 1] == Zeros(n - 1);
      UpdateIsEightSteps(StepN(c, 8 * (n - 1)), 0);
      LemmaPlusZero(StepN(c, 8 * (n - 1)));
      LemmaStepNSum(c, 8 * (n - 1), 8);
    }
  }

  lemma LemmaOneByte(j: nat)
    requires j < 8
    ensures Update(0, FlipMask(j)) == StepN(0x1021, j)
  {
    assert StepN(0x1021, 1) == 0x2042;
    assert StepN(0x1021, 2) == 0x4084;
    assert StepN(0x1021, 3) == 0x8108;
    assert StepN(0x1021, 4) == 0x1231;
    assert StepN(0x1021, 5) == 0x2462;
    assert StepN(0x1021, 6) == 0x48c4;
    assert StepN(0x1021, 7) == 0x9188;
  }

  lemma {:induction false} LemmaCrcAppend(c: bv16, s: seq<bv8>, t: seq<bv8>)
    ensures Crc(c, s + t) == Crc(Crc(c, s), t)
  {
    hide Update;
    if t == [] {
      assert s + t == s;
    } else {
      var k := |t| - 1;
      LemmaCrcAppend(c, s, t[..k]);
      assert (s + t)[..|s + t| - 1] == s + t[..k];
    }
  }

  /** The CRC of a pack that is zero but for bit i. */
  lemma LemmaSyndrome(i: nat)
    requires i < SUBSIZE
    ensures Crc(0, Flip(Zeros(PACK_SIZE), i)) == StepN(0x1021, Distance(i))
  {
    hide Step, Update, Plus, Crc, StepN;
    var b, j := i / 8, i % 8;
    var e := Flip(Zeros(PACK_SIZE), i);
    LemmaToggle(FlipMask(j), 0, 0);
    assert e == (Zeros(b) + [FlipMask(j)]) + Zeros(17 - b);
    LemmaCrcAppend(0, Zeros(b) + [FlipMask(j)], Zeros(17 - b));
    LemmaCrcAppend(0, Zeros(b), [FlipMask(j)]);
    LemmaCrcZeros(0, b);
    LemmaStepZero(8 * b);
    LemmaCrcOne(FlipMask(j));
    LemmaOneByte(j);
    LemmaCrcZeros(StepN(0x1021, j), 17 - b);
    LemmaStepNSum(0x1021, j, 8 * (17 - b));
  }

  lemma LemmaCrcOne(x: bv8)
    ensures Crc(0, [x]) == Update(0, x)
  {
    assert [x][..0] == [];
  }

  /** Inverting bit i adds its syndrome to the CRC. */
  lemma CrcOfFlip(s: seq<bv8>, i: nat)
    requires |s| == PACK_SIZE && i < SUBSIZE
    ensures Crc(0, Flip(s, i)) == Plus(Crc(0, s), StepN(0x1021, Distance(i)))
  {
    hide Crc, StepN, Update;
    var e := Flip(Zeros(PACK_SIZE), i);
    LemmaFlipIsXor(s, i);
    CrcLinear(0, 0, s, e);
    assert Plus(0, 0) == 0;
    LemmaSyndrome(i);
  }

  lemma LemmaFlipIsXor(s: seq<bv8>, i: nat)
    requires |s| == PACK_SIZE && i < SUBSIZE
    ensures Flip(s, i) == XorSeq(s, Flip(Zeros(PACK_SIZE), i))
  {
    var e := Flip(Zeros(PACK_SIZE), i);
    forall k | 0 <= k < PACK_SIZE
      ensures Flip(s, i)[k] == s[k] ^ e[k]
    {
      assert s[k] ^ 0 == s[k];
      assert 0 ^ FlipMask(i % 8) == FlipMask(i % 8);
    }
  }

  // ----- the 144 syndromes are distinct and not zero

  /** None of the next eight powers is x^16. */
  predicate Avoids(v: bv16) {
    var v1 := Step(v);
    var v2 := Step(v1);
    var v3 := Step(v2);
    var v4 := Step(v3);
    var v5 := Step(v4);
    var v6 := Step(v5);
    var v7 := Step(v6);
    var v8 := Step(v7);
    v1 != 0x1021 && v2 != 0x1021 && v3 != 0x1021 && v4 != 0x1021 && v5 != 0x1021 && v6 != 0x1021 && v7 != 0x1021 && v8 != 0x1021
  }

  lemma LemmaEightPowers(n: nat, v: bv16, k: nat)
    requires StepN(0x1021, n) == v && Avoids(v) && n < k <= n + 8
    ensures StepN(0x1021, k) != 0x1021
  {
    hide Step;
    assert StepN(0x1021, n + 2) == Step(StepN(0x1021, n + 1));
    assert StepN(0x1021, n + 3) == Step(StepN(0x1021, n + 2));
    assert StepN(0x1021, n + 4) == Step(StepN(0x1021, n + 3));
    assert StepN(0x1021, n + 5) == Step(StepN(0x1021, n + 4));
    assert StepN(0x1021, n + 6) == Step(StepN(0x1021, n + 5));
    assert StepN(0x1021, n + 7) == Step(StepN(0x1021, n + 6));
    assert StepN(0x1021, n + 8) == Step(StepN(0x1021, n + 7));
  }

  lemma LemmaPower(n: nat, v: bv16, w: bv16)
    requires StepN(0x1021, n) == v && Step8(v) == w
    ensures StepN(0x1021, n + 8) == w
  {
    hide Step, Step8;
    LemmaStepNSum(0x1021, n, 8);
    LemmaStep8(v);
  }

  /** Every eighth power of x, from x^16 on. */
  lemma LemmaPowers()
    ensures StepN(0x1021, 0) == 0x1021
    ensures StepN(0x1021, 8) == 0x3331
    ensures StepN(0x1021, 16) == 0x3730
    ensures StepN(0x1021, 24) == 0x76b4
    ensures StepN(0x1021, 32) == 0xaa51
    ensures StepN(0x1021, 40) == 0x45a0
    ensures StepN(0x1021, 48) == 0xb861
    ensures StepN(0x1021, 56) == 0x47d3
    ensures StepN(0x1021, 64) == 0xeb23
    ensures StepN(0x1021, 72) == 0x6f45
    ensures StepN(0x1021, 80) == 0xd849
    ensures StepN(0x1021, 88) == 0x0375
    ensures StepN(0x1021, 96) == 0x4563
    ensures StepN(0x1021, 104) == 0x7b61
    ensures StepN(0x1021, 112) == 0xaefc
    ensures StepN(0x1021, 120) == 0xa824
    ensures StepN(0x1021, 128) == 0x10e2
    ensures StepN(0x1021, 136) == 0xf031
  {
    hide StepN, Step8;
    LemmaStepZeroTimes();
    LemmaEvery8();
    LemmaPower(0, 0x1021, 0x3331);
    LemmaPower(8, 0x3331, 0x3730);
    LemmaPower(16, 0x3730, 0x76b4);
    LemmaPower(24, 0x76b4, 0xaa51);
    LemmaPower(32, 0xaa51, 0x45a0);
    LemmaPower(40, 0x45a0, 0xb861);
    LemmaPower(48, 0xb861, 0x47d3);
    LemmaPower(56, 0x47d3, 0xeb23);
    LemmaPower(64, 0xeb23, 0x6f45);
    LemmaPower(72, 0x6f45, 0xd849);
    LemmaPower(80, 0xd849, 0x0375);
    LemmaPower(88, 0x0375, 0x4563);
    LemmaPower(96, 0x4563, 0x7b61);
    LemmaPower(104, 0x7b61, 0xaefc);
    LemmaPower(112, 0xaefc, 0xa824);
    LemmaPower(120, 0xa824, 0x10e2);
    LemmaPower(128, 0x10e2, 0xf031);
  }

  lemma LemmaStepZeroTimes()
    ensures StepN(0x1021, 0) == 0x1021
  {
  }

  lemma LemmaEvery8()
    ensures Step8(0x1021) == 0x3331
    ensures Step8(0x3331) == 0x3730
    ensures Step8(0x3730) == 0x76b4
    ensures Step8(0x76b4) == 0xaa51
    ensures Step8(0xaa51) == 0x45a0
    ensures Step8(0x45a0) == 0xb861
    ensures Step8(0xb861) == 0x47d3
    ensures Step8(0x47d3) == 0xeb23
    ensures Step8(0xeb23) == 0x6f45
    ensures Step8(0x6f45) == 0xd849
    ensures Step8(0xd849) == 0x0375
    ensures Step8(0x0375) == 0x4563
    ensures Step8(0x4563) == 0x7b61
    ensures Step8(0x7b61) == 0xaefc
    ensures Step8(0xaefc) == 0xa824
    ensures Step8(0xa824) == 0x10e2
    ensures Step8(0x10e2) == 0xf031
    ensures Avoids(0x1021)
    ensures Avoids(0x3331)
    ensures Avoids(0x3730)
    ensures Avoids(0x76b4)
    ensures Avoids(0xaa51)
    ensures Avoids(0x45a0)
    ensures Avoids(0xb861)
    ensures Avoids(0x47d3)
    ensures Avoids(0xeb23)
    ensures Avoids(0x6f45)
    ensures Avoids(0xd849)
    ensures Avoids(0x0375)
    ensures Avoids(0x4563)
    ensures Avoids(0x7b61)
    ensures Avoids(0xaefc)
    ensures Avoids(0xa824)
    ensures Avoids(0x10e2)
    ensures Avoids(0xf031)
  {
  }

  /** Multiplying x^16 by x up to 143 times never gives x^16 again. */
  lemma LemmaNoReturn(k: nat)
    requires 0 < k < SUBSIZE
    ensures StepN(0x1021, k) != 0x1021
  {
    hide Step, StepN, Step8, Avoids;
    LemmaPowers();
    LemmaEvery8();
    var n := (k - 1) / 8 * 8;
    LemmaEightPowers(n, StepN(0x1021, n), k);
  }

  lemma LemmaStepInjective(a: bv16, b: bv16)
    requires Step(a) == Step(b)
    ensures a == b
  {
  }

  lemma {:induction false} LemmaStepNInjective(a: bv16, b: bv16, n: nat)
    requires StepN(a, n) == StepN(b, n)
    ensures a == b
  {
    hide Step;
    if n > 0 {
      LemmaStepInjective(StepN(a, n - 1), StepN(b, n - 1));
      LemmaStepNInjective(a, b, n - 1);
    }
  }

  lemma LemmaDistinctPowers(p: nat, q: nat)
    requires p < q < SUBSIZE
    ensures StepN(0x1021, p) != StepN(0x1021, q)
  {
    hide Step;
    if StepN(0x1021, p) == StepN(0x1021, q) {
      LemmaStepNSum(0x1021, q - p, p);
      LemmaStepNInjective(0x1021, StepN(0x1021, q - p), p);
      LemmaNoReturn(q - p);
    }
  }

  /** No two single-bit errors have the same syndrome. */
  lemma SyndromesDistinct(p: nat, q: nat)
    requires p < SUBSIZE && q < SUBSIZE && StepN(0x1021, p) == StepN(0x1021, q)
    ensures p == q
  {
    if p < q {
      LemmaDistinctPowers(p, q);
    } else if q < p {
      LemmaDistinctPowers(q, p);
    }
  }

  lemma SyndromeNotZero(p: nat)
    ensures StepN(0x1021, p) != 0
  {
    hide StepN;
    if StepN(0x1021, p) == 0 {
      LemmaStepZero(p);
      LemmaStepNInjective(0x1021, 0, p);
    }
  }

  lemma LemmaPlusCancels(b: bv16, c: bv16)
    ensures Plus(b, c) == 0 <==> b == c
  {
    LemmaPlusSelf(c);
    LemmaPlusAssociates(b, c, c);
    LemmaPlusZero(b);
    LemmaPlusZero(c);
    LemmaPlusCommutes(0, c);
    hide Plus;
  }

  lemma LemmaPlusSelf(c: bv16)
    ensures Plus(c, c) == 0
  {
  }

  /** Distance 3: a pack one inverted bit away from a correct pack is not correct, and inverting any other bit as well
      does not make it correct. */
  lemma OnlyOneRepair(s: seq<bv8>, i: nat, j: nat)
    requires |s| == PACK_SIZE && i < SUBSIZE && j < SUBSIZE && Correct(s)
    ensures !Correct(Flip(s, i))
    ensures Correct(Flip(Flip(s, i), j)) <==> i == j
  {
    hide Crc, StepN, Plus, Flip, Complement;
    var p, q := StepN(0x1021, Distance(i)), StepN(0x1021, Distance(j));
    ComplementFlip(s, i);
    ComplementFlip(Flip(s, i), j);
    CrcOfFlip(Complement(s), i);
    CrcOfFlip(Flip(Complement(s), i), j);
    SyndromeNotZero(Distance(i));
    LemmaPlusCancels(p, q);
    LemmaPlusZero(p);
    if p == q {
      SyndromesDistinct(Distance(i), Distance(j));
      DistanceInjective(i, j);
    }
  }

  // ----- the procedures

  method UpdCrc(pcrc: bv16, cp: array<bv8>, cnt: nat) returns (crc: bv16)
    requires cnt <= cp.Length
    ensures crc == Crc(pcrc, cp[..cnt])
  {
    hide Update;
    crc := pcrc;
    for i := 0 to cnt
      invariant crc == Crc(pcrc, cp[..i])
    {
      LemmaCrcSnoc(pcrc, cp[..i], cp[i]);
      assert cp[..i + 1] == cp[..i] + [cp[i]];
      crc := Update(crc, cp[i]);
    }
  }

  ghost predicate RepairedBy(s: seq<bv8>, i: nat)
    requires |s| == PACK_SIZE
  {
    i < SUBSIZE && Crc(0, Flip(s, i)) == 0
  }

  /** flip_error_corr: try the bits in turn; leave the first that makes the CRC 0 inverted, or nothing. */
  method FlipErrorCorr(b: array<bv8>, crc: bv16) returns (r: bv16)
    requires b.Length == PACK_SIZE && crc == Crc(0, b[..])
    modifies b
    ensures crc == 0 ==> r == 0 && b[..] == old(b[..])
    ensures crc != 0 && r == 0 ==> exists i: nat :: RepairedBy(old(b[..]), i) && b[..] == Flip(old(b[..]), i)
    ensures r != 0 ==> b[..] == old(b[..]) && forall i: nat :: !RepairedBy(old(b[..]), i)
  {
    hide Crc, Toggle, FlipMask;
    r := crc;
    if crc == 0 {
      return;
    }
    ghost var s := b[..];
    for i := 0 to SUBSIZE
      invariant b[..] == s && r != 0
      invariant forall k: nat | k < i :: !RepairedBy(s, k)
    {
      b[i / 8] := Toggle(b[i / 8], FlipMask(i % 8));
      assert b[..] == Flip(s, i);
      r := UpdCrc(0, b, PACK_SIZE);
      assert b[..PACK_SIZE] == b[..];
      if r == 0 {
        assert RepairedBy(s, i);
        return;
      }
      FlipTwice(s, i);
      b[i / 8] := Toggle(b[i / 8], FlipMask(i % 8));
      assert b[..] == Flip(Flip(s, i), i);
    }
  }

  /** A pack that cdtext_crc_ok may accept: correct, or one inverted bit away from a correct one. */
  ghost predicate Repairable(s: seq<bv8>)
    requires |s| == PACK_SIZE
  {
    Correct(s) || exists i: nat | i < SUBSIZE :: Correct(Flip(s, i))
  }

  method ComplementCrc(c: array<bv8>)
    requires c.Length == PACK_SIZE
    modifies c
    ensures c[..] == Complement(old(c[..]))
  {
    c[16] := Toggle(c[16], 0xFF);
    c[17] := Toggle(c[17], 0xFF);
  }

  /** cdtext_crc_ok accepts exactly the repairable packs. A correct pack and an unrepairable one stay as they are; any
      pack with one bit wrong is restored. */
  method CdTextCrcOk(c: array<bv8>) returns (ok: bool)
    requires c.Length == PACK_SIZE
    modifies c
    ensures ok <==> Repairable(old(c[..]))
    ensures ok ==> Correct(c[..])
    ensures !ok || Correct(old(c[..])) ==> c[..] == old(c[..])
    ensures forall s: seq<bv8>, i: nat | |s| == PACK_SIZE && i < SUBSIZE && Correct(s) && old(c[..]) == Flip(s, i) ::
              ok && c[..] == s
  {
    hide Crc, Flip, Complement;
    ghost var before := c[..];
    ComplementCrc(c);
    ghost var s := c[..];
    ComplementTwice(before);
    var crc := UpdCrc(0, c, PACK_SIZE);
    assert c[..PACK_SIZE] == c[..];
    var r := FlipErrorCorr(c, crc);
    ok := r == 0;
    ghost var t := c[..];
    ComplementCrc(c);
    LemmaOutcome(before, s, crc, r, t, c[..]);
  }

  lemma LemmaOutcome(before: seq<bv8>, s: seq<bv8>, crc: bv16, r: bv16, t: seq<bv8>, after: seq<bv8>)
    requires |before| == |s| == |t| == PACK_SIZE && s == Complement(before) && after == Complement(t)
    requires crc == Crc(0, s)
    requires crc == 0 ==> r == 0 && t == s
    requires crc != 0 && r == 0 ==> exists i: nat :: RepairedBy(s, i) && t == Flip(s, i)
    requires r != 0 ==> t == s && forall i: nat :: !RepairedBy(s, i)
    ensures r == 0 <==> Repairable(before)
    ensures r == 0 ==> Correct(after)
    ensures r != 0 || Correct(before) ==> after == before
    ensures forall o: seq<bv8>, i: nat | |o| == PACK_SIZE && i < SUBSIZE && Correct(o) && before == Flip(o, i) ::
              r == 0 && after == o
  {
    hide Crc, Flip, Complement;
    ComplementTwice(before);
    ComplementTwice(t);
    forall i: nat | i < SUBSIZE
      ensures Correct(Flip(before, i)) <==> RepairedBy(s, i)
    {
      ComplementFlip(before, i);
    }
    if crc != 0 && r == 0 {
      var k: nat :| RepairedBy(s, k) && t == Flip(s, k);
      ComplementFlip(s, k);
      assert after == Flip(before, k);
      LemmaRestores(before, k);
    }
    forall o: seq<bv8>, i: nat | |o| == PACK_SIZE && i < SUBSIZE && Correct(o) && before == Flip(o, i)
      ensures r == 0 && after == o
    {
      OnlyOneRepair(o, i, i);
      FlipTwice(o, i);
      assert RepairedBy(s, i);
    }
  }

  /** Whichever correct pack the error came from, the repair leads back to it. */
  lemma LemmaRestores(before: seq<bv8>, k: nat)
    requires |before| == PACK_SIZE && k < SUBSIZE && Correct(Flip(before, k))
    ensures forall o: seq<bv8>, i: nat | |o| == PACK_SIZE && i < SUBSIZE && Correct(o) && before == Flip(o, i) ::
              Flip(before, k) == o
  {
    hide Crc, Flip, Complement;
    forall o: seq<bv8>, i: nat | |o| == PACK_SIZE && i < SUBSIZE && Correct(o) && before == Flip(o, i)
      ensures Flip(before, k) == o
    {
      OnlyOneRepair(o, i, k);
      FlipTwice(o, i);
    }
  }
}
