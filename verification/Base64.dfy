/** rfc822_binary (cdda2wav/base64.c): base 64 with an alphabet that is safe in a URL, in lines of 60 characters. */
module Base64 {
  import opened Arith
  import opened Common

  type Six = b: int | 0 <= b < 64

  function Upper(): (s: string)
    ensures |s| == 26
  {
    "ABCDEFGHIJKLMNOPQRSTUVWXYZ"
  }

  function Lower(): (s: string)
    ensures |s| == 26
  {
    "abcdefghijklmnopqrstuvwxyz"
  }

  function Numbers(): (s: string)
    ensures |s| == 10
  {
    "0123456789"
  }

  const PAD := '-'
  const CR := '\r'
  const LF := '\n'

  function Digit(i: Six): char {
    (Upper() + Lower() + Numbers() + "._")[i]
  }

  /** Group k: bytes 3k to 3k + 2, as far as they exist. */
  function Group(s: seq<Octet>, k: nat): (g: seq<Octet>)
    requires 3 * k < |s|
    ensures 1 <= |g| <= 3
  {
    if 3 * k + 3 <= |s| then s[3 * k..3 * k + 3] else s[3 * k..]
  }

  /** The 24 bits of a group, missing ones being 0, in four digits; those with no bit of the group are padding. */
  function Quad(g: seq<Octet>): (q: string)
    requires 1 <= |g| <= 3
    ensures |q| == 4
  {
    var b1: Octet := if |g| > 1 then g[1] else 0;
    var b2: Octet := if |g| > 2 then g[2] else 0;
    [Digit(g[0] / 4),
     Digit(g[0] % 4 * 16 + b1 / 16),
     if |g| > 1 then Digit(b1 % 16 * 4 + b2 / 64) else PAD,
     if |g| > 2 then Digit(b2 % 64) else PAD]
  }

  function LineEnd(k: nat): string {
    if k % 15 == 0 then [CR, LF] else []
  }

  function Groups(n: nat): (g: nat)
    ensures n <= 3 * g <= n + 2
  {
    (n + 2) / 3
  }

  /** The length of the output for k groups. */
  function Size(k: nat): nat {
    4 * k + 2 * (k / 15)
  }

  lemma LemmaSize(k: nat)
    ensures Size(0) == 0
    ensures Size(k + 1) == Size(k) + 4 + |LineEnd(k + 1)|
    ensures (k + 1) % 15 == if k % 15 == 14 then 0 else k % 15 + 1
  {
  }

  lemma LemmaSizeMonotone(k: nat, n: nat)
    requires k <= n
    ensures Size(k) <= Size(n)
  {
  }

  /** The output for the first k groups. */
  function Encoded(s: seq<Octet>, k: nat): (t: string)
    requires 3 * k <= |s| + 2
  {
    if k == 0 then [] else Encoded(s, k - 1) + Quad(Group(s, k - 1)) + LineEnd(k)
  }

  // ----- a decoder

  function Value(c: char): Six {
    if 'A' <= c <= 'Z' then c as int - 'A' as int
    else if 'a' <= c <= 'z' then c as int - 'a' as int + 26
    else if '0' <= c <= '9' then c as int - '0' as int + 52
    else if c == '.' then 62
    else if c == '_' then 63
    else 0
  }

  function Stripped(t: string): string {
    if t == [] then []
    else Stripped(t[..|t| - 1]) + if t[|t| - 1] == CR || t[|t| - 1] == LF then [] else [t[|t| - 1]]
  }

  function DecodedQuad(q: string): (g: seq<int>)
    requires |q| == 4
  {
    var x0 := Value(q[0]) * 4 + Value(q[1]) / 16;
    var x1 := Value(q[1]) % 16 * 16 + Value(q[2]) / 4;
    var x2 := Value(q[2]) % 4 * 64 + Value(q[3]);
    if q[2] == PAD then [x0] else if q[3] == PAD then [x0, x1] else [x0, x1, x2]
  }

  function Decoded(t: string): seq<int> {
    if |t| < 4 then [] else Decoded(t[..|t| - 4]) + DecodedQuad(t[|t| - 4..])
  }

  lemma LemmaAlphabet()
    ensures forall i: nat | i < 26 :: Upper()[i] as int == 'A' as int + i && Lower()[i] as int == 'a' as int + i
    ensures forall i: nat | i < 10 :: Numbers()[i] as int == '0' as int + i
  {
  }

  lemma LemmaDigit(i: Six)
    ensures Value(Digit(i)) == i && Digit(i) !in [PAD, CR, LF, '\0']
  {
    hide Upper, Lower, Numbers;
    LemmaAlphabet();
    if i < 26 {
      assert Digit(i) == Upper()[i];
    } else if i < 52 {
      assert Digit(i) == Lower()[i - 26];
    } else if i < 62 {
      assert Digit(i) == Numbers()[i - 52];
    }
  }

  lemma LemmaBits(b0: Octet, b1: Octet, b2: Octet)
    ensures b0 / 4 * 4 + (b0 % 4 * 16 + b1 / 16) / 16 == b0
    ensures (b0 % 4 * 16 + b1 / 16) % 16 * 16 + (b1 % 16 * 4 + b2 / 64) / 4 == b1
    ensures (b1 % 16 * 4 + b2 / 64) % 4 * 64 + b2 % 64 == b2
  {
    LemmaDivModUnique(b0 % 4 * 16 + b1 / 16, 16, b0 % 4, b1 / 16);
    LemmaDivModUnique(b1 % 16 * 4 + b2 / 64, 4, b1 % 16, b2 / 64);
  }

  /** Four characters whose values hold the 24 bits of three bytes. */
  lemma LemmaThree(q: string, b0: Octet, b1: Octet, b2: Octet)
    requires |q| == 4
    requires Value(q[0]) == b0 / 4 && Value(q[1]) == b0 % 4 * 16 + b1 / 16
    requires q[2] == PAD || Value(q[2]) == b1 % 16 * 4 + b2 / 64
    requires q[3] == PAD || Value(q[3]) == b2 % 64
    ensures DecodedQuad(q) == if q[2] == PAD then [b0] else if q[3] == PAD then [b0, b1] else [b0, b1, b2]
  {
    hide Value;
    LemmaBits(b0, b1, b2);
  }

  lemma LemmaQuad(g: seq<Octet>)
    requires 1 <= |g| <= 3
    ensures DecodedQuad(Quad(g)) == g
    ensures forall j | 0 <= j < 4 :: Quad(g)[j] !in [CR, LF, '\0']
  {
    hide Digit, Value, DecodedQuad;
    var b1: Octet := if |g| > 1 then g[1] else 0;
    var b2: Octet := if |g| > 2 then g[2] else 0;
    LemmaDigit(g[0] / 4);
    LemmaDigit(g[0] % 4 * 16 + b1 / 16);
    LemmaDigit(b1 % 16 * 4 + b2 / 64);
    LemmaDigit(b2 % 64);
    LemmaThree(Quad(g), g[0], b1, b2);
  }

  lemma {:induction false} LemmaStrippedAppend(a: string, b: string)
    ensures Stripped(a + b) == Stripped(a) + Stripped(b)
  {
    if b == [] {
      assert a + b == a;
    } else {
      LemmaStrippedAppend(a, b[..|b| - 1]);
      assert (a + b)[..|a + b| - 1] == a + b[..|b| - 1];
    }
  }

  lemma {:induction false} LemmaPlain(q: string)
    requires forall j | 0 <= j < |q| :: q[j] != CR && q[j] != LF
    ensures Stripped(q) == q
  {
    if q != [] {
      LemmaPlain(q[..|q| - 1]);
    }
  }

  lemma LemmaLineEnd(k: nat)
    ensures Stripped(LineEnd(k)) == []
  {
    assert [CR, LF][..1] == [CR] && [CR][..0] == [];
    assert Stripped([CR]) == [];
    assert Stripped([CR, LF]) == [];
  }

  lemma LemmaDecodedAppend(t: string, q: string)
    requires |q| == 4
    ensures Decoded(t + q) == Decoded(t) + DecodedQuad(q)
  {
    hide DecodedQuad;
    assert (t + q)[..|t|] == t && (t + q)[|t|..] == q;
  }

  /** Without the line ends, the digits of k groups decode to the bytes of these groups. */
  lemma {:induction false} LemmaDecoded(s: seq<Octet>, k: nat)
    requires 3 * k <= |s| + 2
    ensures Decoded(Stripped(Encoded(s, k))) == if 3 * k < |s| then s[..3 * k] else s
  {
    hide Stripped, Decoded, Quad, LineEnd, DecodedQuad, Group, Size;
    if k == 0 {
      LemmaEmpty();
    } else {
      var before, g := Encoded(s, k - 1), Group(s, k - 1);
      LemmaDecoded(s, k - 1);
      LemmaQuad(g);
      LemmaStrippedAppend(before + Quad(g), LineEnd(k));
      LemmaStrippedAppend(before, Quad(g));
      LemmaPlain(Quad(g));
      LemmaLineEnd(k);
      assert Stripped(Encoded(s, k)) == Stripped(before) + Quad(g);
      LemmaDecodedAppend(Stripped(before), Quad(g));
      LemmaTaken(s, k - 1);
    }
  }

  lemma LemmaEmpty()
    ensures Stripped([]) == [] && Decoded([]) == []
  {
  }

  lemma LemmaTaken(s: seq<Octet>, k: nat)
    requires 3 * k < |s|
    ensures s[..3 * k] + Group(s, k) == if 3 * (k + 1) < |s| then s[..3 * (k + 1)] else s
  {
  }

  /** Encoding and decoding: for every source, what rfc822_binary makes, stripped of its line ends, decodes to it. */
  lemma RoundTrip(s: seq<Octet>)
    ensures Decoded(Stripped(Encoded(s, Groups(|s|)))) == s
  {
    hide Decoded, Stripped, Encoded, Groups;
    LemmaDecoded(s, Groups(|s|));
  }

  // ----- the encoder

  /** One tuplet, lines 101 to 108: the count goes down as bytes are used. */
  method PutQuad(src: seq<Octet>, k: nat, srcl0: nat, ret: array<char>, d: nat) returns (srcl: nat)
    requires 3 * k < |src| && srcl0 == |src| - 3 * k && d + 4 <= ret.Length
    modifies ret
    ensures ret[d..d + 4] == Quad(Group(src, k)) && ret[..d] == old(ret[..d])
    ensures srcl == if srcl0 > 3 then srcl0 - 3 else 0
  {
    hide Digit;
    LemmaGroup(src, k);
    hide Group;
    srcl := srcl0;
    var s := 3 * k;
    ret[d] := Digit(src[s] / 4);
    srcl := srcl - 1;
    var b1: Octet := if srcl > 0 then src[s + 1] else 0;
    LemmaSecond(src[s], b1 / 16);
    ret[d + 1] := Digit((src[s] * 16 + b1 / 16) % 64);
    if srcl > 0 {
      srcl := srcl - 1;
      var b2: Octet := if srcl > 0 then src[s + 2] else 0;
      LemmaThird(src[s + 1], b2 / 64);
      ret[d + 2] := Digit((src[s + 1] * 4 + b2 / 64) % 64);
    } else {
      ret[d + 2] := '-';
    }
    ret[d + 3] := if srcl > 0 then Digit(src[s + 2] % 64) else '-';
    if srcl > 0 {
      srcl := srcl - 1;
    }
  }

  lemma LemmaGroup(s: seq<Octet>, k: nat)
    requires 3 * k < |s|
    ensures var g, n := Group(s, k), |s| - 3 * k;
            && |g| == (if n < 3 then n else 3) && g[0] == s[3 * k]
            && (n > 1 ==> g[1] == s[3 * k + 1]) && (n > 2 ==> g[2] == s[3 * k + 2])
  {
  }

  lemma LemmaSecond(b: Octet, low: nat)
    requires low < 16
    ensures (b * 16 + low) % 64 == b % 4 * 16 + low
  {
    LemmaDivModUnique(b * 16 + low, 64, b / 4, b % 4 * 16 + low);
  }

  lemma LemmaThird(b: Octet, low: nat)
    requires low < 4
    ensures (b * 4 + low) % 64 == b % 16 * 4 + low
  {
    LemmaDivModUnique(b * 4 + low, 64, b / 16, b % 16 * 4 + low);
  }

  /** The length that is reported, lines 97 and 98. */
  method ReportedLength(srcl: nat) returns (len: nat)
    ensures len == Size(Groups(srcl)) + 2
  {
    var i := (srcl + 2) / 3 * 4;
    len := i + 2 * (i / 60 + 1);
    ghost var g := Groups(srcl);
    LemmaDivModUnique(g * 4, 60, g / 15, g % 15 * 4);
  }

  /** The output after one more group. */
  lemma LemmaNext(src: seq<Octet>, k: nat, before: string, after: string)
    requires 3 * k < |src| && before == Encoded(src, k)
    requires after == before + Quad(Group(src, k)) + LineEnd(k + 1)
    ensures after == Encoded(src, k + 1)
  {
    hide Quad, Group, LineEnd;
  }

  lemma LemmaNoGroups(src: seq<Octet>)
    ensures Encoded(src, 0) == []
  {
  }

  lemma {:induction false} NoNul(src: seq<Octet>, k: nat)
    requires 3 * k <= |src| + 2
    ensures '\0' !in Encoded(src, k)
  {
    hide Quad, Group;
    if k > 0 {
      NoNul(src, k - 1);
      LemmaQuad(Group(src, k - 1));
    }
  }

  /** rfc822_binary: the buffer for the string and its NUL, and the length that is reported, which is two more than that
      of the string. */
  method Rfc822Binary(src: seq<Octet>) returns (ret: array<char>, len: nat)
    ensures fresh(ret) && ret.Length == len + 1 && len >= 2
    ensures len == Size(Groups(|src|)) + 2
    ensures ret[..len - 2] == Encoded(src, Groups(|src|)) && ret[len - 2] == '\0'
    ensures '\0' !in ret[..len - 2]
  {
    hide Encoded, Quad, Group, Digit, Groups, Size, LineEnd;
    len := ReportedLength(|src|);
    ghost var groups, k := Groups(|src|), 0;
    LemmaNoGroups(src);
    LemmaSize(0);
    ret := new char[len + 1];
    var s, d, srcl, i := 0, 0, |src|, 0;
    while srcl > 0
      invariant k <= groups && s == 3 * k && srcl == (if |src| > s then |src| - s else 0)
      invariant 0 <= i < 15 && i == k % 15 && d == Size(k) <= len - 2
      invariant ret[..d] == Encoded(src, k)
    {
      ghost var before := ret[..d];
      LemmaSize(k);
      LemmaSizeMonotone(k + 1, groups);
      srcl := PutQuad(src, s / 3, srcl, ret, d);
      d := d + 4;
      assert ret[..d] == before + Quad(Group(src, k));
      i := i + 1;
      i, d := PutLineEnd(ret, i, d, k + 1);
      LemmaNext(src, k, before, ret[..d]);
      s := s + 3;
      k := k + 1;
    }
    NoNul(src, groups);
    ret[d] := '\0';
  }

  /** Lines 109 to 112. */
  method PutLineEnd(ret: array<char>, i0: nat, d0: nat, ghost k: nat) returns (i: nat, d: nat)
    requires i0 <= 15 && (i0 == 15 <==> k % 15 == 0) && d0 + |LineEnd(k)| <= ret.Length
    modifies ret
    ensures i == (if i0 == 15 then 0 else i0) && d == d0 + |LineEnd(k)|
    ensures ret[..d] == old(ret[..d0]) + LineEnd(k)
  {
    i, d := i0, d0;
    if i == 15 {
      i := 0;
      ret[d] := '\r';
      d := d + 1;
      ret[d] := '\n';
      d := d + 1;
    }
  }
}
