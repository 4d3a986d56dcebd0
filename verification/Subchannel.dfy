/** setuptextdata (cdrecord/cdtext.c): the packs, recoded from 8-bit bytes to the 6-bit values of the R-W subchannel and
    repeated until they fill whole sectors of 96 values. */
module Subchannel {
  import opened Arith
  import opened Common

  const PACK_SIZE := 18
  const SECTOR_SIZE := 96

  // ----- one group: three bytes against four 6-bit values

  function EightToSix(s: seq<Byte>): (t: seq<Byte>)
    requires |s| == 3
    ensures |t| == 4
  {
    [(s[0] >> 2) & 0x3F,
     ((s[0] & 0x03) << 4) | ((s[1] & 0xF0) >> 4),
     ((s[1] & 0x0F) << 2) | ((s[2] & 0xC0) >> 6),
     s[2] & 0x3F]
  }

  function SixToEight(t: seq<Byte>): (s: seq<Byte>)
    requires |t| == 4
    ensures |s| == 3
  {
    [((t[0] & 0x3F) << 2) | ((t[1] & 0x3F) >> 4),
     ((t[1] & 0x3F) << 4) | ((t[2] & 0x3F) >> 2),
     ((t[2] & 0x3F) << 6) | (t[3] & 0x3F)]
  }

  ghost predicate SixBits(t: seq<Byte>) {
    forall i | 0 <= i < |t| :: t[i] & 0xC0 == 0
  }

  lemma EightSixEight(s: seq<Byte>)
    requires |s| == 3
    ensures SixBits(EightToSix(s)) && SixToEight(EightToSix(s)) == s
  {
  }

  /** Three bytes as 24 bits, the most significant first. */
  function Bits(s: seq<Byte>): bv24
    requires |s| == 3
  {
    ((s[0] as bv24) << 16) | ((s[1] as bv24) << 8) | (s[2] as bv24)
  }

  /** Of these, value 0 holds the first six, value 1 the next six, and so on. */
  lemma ValuesHoldTheBits(s: seq<Byte>)
    requires |s| == 3
    ensures EightToSix(s)[0] as bv24 == Bits(s) >> 18
    ensures EightToSix(s)[1] as bv24 == (Bits(s) >> 12) & 0x3F
    ensures EightToSix(s)[2] as bv24 == (Bits(s) >> 6) & 0x3F
    ensures EightToSix(s)[3] as bv24 == Bits(s) & 0x3F
  {
  }

  lemma SixEightSix(t: seq<Byte>)
    requires |t| == 4 && SixBits(t)
    ensures EightToSix(SixToEight(t)) == t
  {
    assert t[0] & 0xC0 == 0 && t[1] & 0xC0 == 0 && t[2] & 0xC0 == 0 && t[3] & 0xC0 == 0;
  }

  /** eight2six: three bytes from position i of one buffer, to position j of another. */
  method Eight2Six(inp: array<Byte>, i: nat, out: array<Byte>, j: nat)
    requires inp != out && i + 3 <= inp.Length && j + 4 <= out.Length
    modifies out
    ensures out[j..j + 4] == EightToSix(inp[i..i + 3])
    ensures forall k | 0 <= k < j || j + 4 <= k < out.Length :: out[k] == old(out[k])
  {
    var c := inp[i];
    out[j] := (c >> 2) & 0x3F;
    out[j + 1] := (c & 0x03) << 4;
    c := inp[i + 1];
    out[j + 1] := out[j + 1] | ((c & 0xF0) >> 4);
    out[j + 2] := (c & 0x0F) << 2;
    c := inp[i + 2];
    out[j + 2] := out[j + 2] | ((c & 0xC0) >> 6);
    out[j + 3] := c & 0x3F;
  }

  /** six2eight. */
  method Six2Eight(inp: array<Byte>, i: nat, out: array<Byte>, j: nat)
    requires inp != out && i + 4 <= inp.Length && j + 3 <= out.Length
    modifies out
    ensures out[j..j + 3] == SixToEight(inp[i..i + 4])
    ensures forall k | 0 <= k < j || j + 3 <= k < out.Length :: out[k] == old(out[k])
  {
    var c := inp[i] & 0x3F;
    out[j] := c << 2;
    c := inp[i + 1] & 0x3F;
    out[j] := out[j] | (c >> 4);
    out[j + 1] := c << 4;
    c := inp[i + 2] & 0x3F;
    out[j + 1] := out[j + 1] | (c >> 2);
    out[j + 2] := c << 6;
    c := inp[i + 3] & 0x3F;
    out[j + 2] := out[j + 2] | c;
  }

  // ----- whole buffers

  function Recoded(s: seq<Byte>): (t: seq<Byte>)
    requires |s| % 3 == 0
    ensures 3 * |t| == 4 * |s|
  {
    if s == [] then [] else Recoded(s[..|s| - 3]) + EightToSix(s[|s| - 3..])
  }

  function Decoded(t: seq<Byte>): (s: seq<Byte>)
    requires |t| % 4 == 0
    ensures 4 * |s| == 3 * |t|
  {
    if t == [] then [] else Decoded(t[..|t| - 4]) + SixToEight(t[|t| - 4..])
  }

  lemma LemmaRecodedSnoc(s: seq<Byte>, g: seq<Byte>)
    requires |s| % 3 == 0 && |g| == 3
    ensures (|s| + 3) % 3 == 0 && Recoded(s + g) == Recoded(s) + EightToSix(g)
  {
    hide EightToSix;
    assert (s + g)[..|s|] == s && (s + g)[|s|..] == g;
  }

  lemma LemmaDecodedSnoc(t: seq<Byte>, h: seq<Byte>)
    requires |t| % 4 == 0 && |h| == 4
    ensures (|t| + 4) % 4 == 0 && Decoded(t + h) == Decoded(t) + SixToEight(h)
  {
    hide SixToEight;
    assert (t + h)[..|t|] == t && (t + h)[|t|..] == h;
  }

  lemma LemmaFours(n: nat, m: nat)
    requires 3 * n == 4 * m
    ensures n % 4 == 0 && m % 3 == 0
  {
  }

  /** Decoding undoes recoding, for all bytes; and recoding undoes decoding, for all 6-bit values. */
  lemma {:induction false} DecodedRecoded(s: seq<Byte>)
    requires |s| % 3 == 0
    ensures |Recoded(s)| % 4 == 0 && SixBits(Recoded(s)) && Decoded(Recoded(s)) == s
  {
    LemmaFours(|Recoded(s)|, |s|);
    if s == [] {
      LemmaNothing();
    } else {
      hide EightToSix, SixToEight, Recoded, Decoded;
      var a, g := s[..|s| - 3], s[|s| - 3..];
      assert s == a + g;
      DecodedRecoded(a);
      EightSixEight(g);
      LemmaRecodedSnoc(a, g);
      LemmaDecodedSnoc(Recoded(a), EightToSix(g));
    }
  }

  lemma {:induction false} RecodedDecoded(t: seq<Byte>)
    requires |t| % 4 == 0 && SixBits(t)
    ensures |Decoded(t)| % 3 == 0 && Recoded(Decoded(t)) == t
  {
    LemmaFours(|t|, |Decoded(t)|);
    if t == [] {
      LemmaNothing();
    } else {
      hide EightToSix, SixToEight, Recoded, Decoded;
      var a, h := t[..|t| - 4], t[|t| - 4..];
      assert t == a + h;
      RecodedDecoded(a);
      SixEightSix(h);
      LemmaDecodedSnoc(a, h);
      LemmaRecodedSnoc(Decoded(a), SixToEight(h));
    }
  }

  function Repeated(s: seq<Byte>, times: nat): (r: seq<Byte>)
    ensures |r| == |s| * times
  {
    if times == 0 then [] else Repeated(s, times - 1) + s
  }

  lemma {:induction false} LemmaRepeatedAt(s: seq<Byte>, times: nat, i: nat)
    requires i < |s| * times
    ensures |s| > 0 && Repeated(s, times)[i] == s[Wrap(i, |s|)]
  {
    if i < |s| * (times - 1) {
      LemmaRepeatedAt(s, times - 1, i);
    } else {
      var r := i - |s| * (times - 1);
      assert 0 <= r < |s|;
      LemmaDivModUnique(i, |s|, times - 1, r);
    }
  }

  /** How often the packs are repeated. */
  function Times(packs: nat): (t: nat) {
    if packs % 4 == 0 then 1 else if packs % 4 == 2 then 2 else 4
  }

  /** A pack makes 24 six-bit values, a quarter of a sector. */
  lemma LemmaQuarters(packs: nat, t: nat)
    requires t <= 4
    ensures 24 * (packs * t) % SECTOR_SIZE == 24 * (packs % 4 * t % 4)
  {
    var q, r := packs / 4, packs % 4;
    assert packs * t == 4 * (q * t) + r * t;
    var u, v := r * t / 4, r * t % 4;
    LemmaDivModUnique(24 * (packs * t), SECTOR_SIZE, q * t + u, 24 * v);
  }

  /** The repetitions fill whole sectors, and fewer would not. */
  lemma TimesFillSectors(packs: nat, t: nat)
    ensures 24 * (packs * Times(packs)) % SECTOR_SIZE == 0
    ensures 0 < t < Times(packs) ==> 24 * (packs * t) % SECTOR_SIZE != 0
  {
    LemmaQuarters(packs, Times(packs));
    if 0 < t < Times(packs) {
      LemmaQuarters(packs, t);
    }
  }

  /** The position in the packs, which wraps around. */
  function Wrap(i: nat, len: nat): (k: nat)
    requires len > 0
    ensures k < len
  {
    i % len
  }

  /** No group of three bytes straddles the end of the packs, where the index wraps around. */
  lemma NoGroupStraddles(len: nat, i: nat)
    requires len > 0 && len % 3 == 0 && i % 3 == 0
    ensures Wrap(i, len) + 3 <= len
    ensures Wrap(i + 1, len) == Wrap(i, len) + 1 && Wrap(i + 2, len) == Wrap(i, len) + 2
  {
    var l, m := len / 3, i / 3;
    var q, r := m / l, m % l;
    assert i == q * len + 3 * r by {
      LemmaThirds(q, l, r, len, m, i);
    }
    LemmaDivModUnique(i, len, q, 3 * r);
    LemmaDivModUnique(i + 1, len, q, 3 * r + 1);
    LemmaDivModUnique(i + 2, len, q, 3 * r + 2);
  }

  lemma LemmaThirds(q: nat, l: nat, r: nat, len: nat, m: nat, i: nat)
    requires len == 3 * l && i == 3 * m && m == q * l + r
    ensures i == q * len + 3 * r
  {
  }

  lemma LemmaGroup(s: seq<Byte>, times: nat, i: nat)
    requires |s| > 0 && |s| % 3 == 0 && i % 3 == 0 && i + 3 <= |s| * times
    ensures Wrap(i, |s|) + 3 <= |s|
    ensures Repeated(s, times)[i..i + 3] == s[Wrap(i, |s|)..Wrap(i, |s|) + 3]
  {
    hide Repeated, Wrap;
    NoGroupStraddles(|s|, i);
    LemmaRepeatedAt(s, times, i);
    LemmaRepeatedAt(s, times, i + 1);
    LemmaRepeatedAt(s, times, i + 2);
  }

  lemma LemmaRecodedNext(r: seq<Byte>, i: nat)
    requires i % 3 == 0 && i + 3 <= |r|
    ensures Recoded(r[..i + 3]) == Recoded(r[..i]) + EightToSix(r[i..i + 3])
  {
    hide EightToSix;
    assert r[..i + 3][..i] == r[..i] && r[..i + 3][i..] == r[i..i + 3];
  }

  lemma LemmaTextLength(len: nat, packs: nat, t: nat, n: nat)
    requires len == PACK_SIZE * packs && n == t * len
    ensures n * 4 / 3 == 24 * (packs * t)
    ensures 3 * (n * 4 / 3) == 4 * (len * t)
  {
    assert t * len == PACK_SIZE * (packs * t);
    LemmaMultiple(24 * (packs * t), 3);
  }

  lemma LemmaMultipleOfThree(n: nat, t: nat)
    requires n % PACK_SIZE == 0
    ensures n * t % 3 == 0
  {
    var q := n / PACK_SIZE;
    LemmaScaled(n, q, t);
    LemmaMultiple(6 * (q * t), 3);
  }

  lemma LemmaScaled(n: nat, q: nat, t: nat)
    requires n == 18 * q
    ensures n * t == 18 * (q * t)
  {
  }

  /** What is sent to the subchannel. */
  function Sent(packs: seq<Byte>): seq<Byte>
    requires |packs| % PACK_SIZE == 0
  {
    LemmaMultipleOfThree(|packs|, Times(|packs| / PACK_SIZE));
    Recoded(Repeated(packs, Times(|packs| / PACK_SIZE)))
  }

  /** The number of six-bit values, lines 222 to 230. */
  method TextLength(len: nat) returns (n: nat)
    requires len % PACK_SIZE == 0
    ensures 3 * n == 4 * (len * Times(len / PACK_SIZE)) && n % SECTOR_SIZE == 0
  {
    ghost var packs := len / PACK_SIZE;
    ghost var t := Times(packs);
    TimesFillSectors(packs, 0);
    var i := len / PACK_SIZE % 4;
    if i == 0 {
      n := len;
    } else if i == 2 {
      n := 2 * len;
    } else {
      n := 4 * len;
    }
    assert n == t * len;
    hide Times;
    LemmaTextLength(len, packs, t, n);
    n := n * 4 / 3;
  }

  /** One round: p becomes p', with the next group of r recoded. */
  lemma LemmaRound(r: seq<Byte>, i: nat, j: nat, p: seq<Byte>, p': seq<Byte>)
    requires i % 3 == 0 && i + 3 <= |r| && j + 4 <= |p| == |p'|
    requires p[..j] == Recoded(r[..i])
    requires p'[..j] == p[..j] && p'[j..j + 4] == EightToSix(r[i..i + 3])
    ensures p'[..j + 4] == Recoded(r[..i + 3])
  {
    hide Recoded, EightToSix;
    LemmaRecodedNext(r, i);
    assert p'[..j + 4] == p'[..j] + p'[j..j + 4];
  }

  /** setuptextdata. */
  method SetupTextData(bp: array<Byte>, len: nat) returns (textsub: array<Byte>, textlen: nat)
    requires len <= bp.Length && len % PACK_SIZE == 0
    ensures fresh(textsub) && textlen == textsub.Length && textlen % SECTOR_SIZE == 0
    ensures textsub[..] == Sent(bp[..len])
  {
    hide Recoded, Repeated, EightToSix, Decoded, Times, Wrap;
    ghost var packs := bp[..len];
    ghost var times := Times(len / PACK_SIZE);
    var n := TextLength(len);
    textsub := new Byte[n];
    ghost var r := Repeated(packs, times);
    LemmaNothing();
    assert r[..0] == [];
    var i, j := 0, 0;
    while j < n
      invariant 0 <= i <= |r| && 3 * j == 4 * i && i % 3 == 0 && 0 <= j <= n
      invariant textsub[..j] == Recoded(r[..i])
    {
      LemmaRoom(|r|, i, j, n);
      assert len % 3 == 0 by {
        LemmaMultipleOfThree(len, 1);
      }
      LemmaGroup(packs, times, i);
      ghost var p := textsub[..];
      Eight2Six(bp, Wrap(i, len), textsub, j);
      assert p[..j] == textsub[..][..j];
      LemmaPrefix(bp, len, Wrap(i, len));
      assert textsub[..][j..j + 4] == textsub[j..j + 4];
      LemmaRound(r, i, j, p, textsub[..]);
      i := i + 3;
      j := j + 4;
    }
    assert r[..i] == r && textsub[..j] == textsub[..];
    textlen := n;
  }

  lemma LemmaPrefix(bp: array<Byte>, len: nat, k: nat)
    requires k + 3 <= len <= bp.Length
    ensures bp[k..k + 3] == bp[..len][k..k + 3]
  {
  }

  lemma LemmaRoom(total: nat, i: nat, j: nat, n: nat)
    requires 3 * n == 4 * total && 3 * j == 4 * i && i % 3 == 0 && j < n
    ensures i + 3 <= total && j + 4 <= n && (i + 3) % 3 == 0
  {
  }

  lemma LemmaNothing()
    ensures Recoded([]) == [] && Decoded([]) == []
  {
  }

  /** What is sent to the subchannel decodes to whole repetitions of the packs. */
  lemma SubchannelDecodes(packs: seq<Byte>)
    requires |packs| % PACK_SIZE == 0
    ensures |Sent(packs)| % 4 == 0
    ensures SixBits(Sent(packs)) && Decoded(Sent(packs)) == Repeated(packs, Times(|packs| / PACK_SIZE))
  {
    hide Recoded, Repeated, Decoded, Times, SixBits;
    LemmaMultipleOfThree(|packs|, Times(|packs| / PACK_SIZE));
    DecodedRecoded(Repeated(packs, Times(|packs| / PACK_SIZE)));
  }
}
