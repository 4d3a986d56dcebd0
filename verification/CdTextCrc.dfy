/** The CRC of a CD-Text pack and its single-bit correction (cdda2wav/cd_text.c): the generator polynomial is
    x^16 + x^12 + x^5 + 1, and the two CRC bytes are stored complemented (Annex J of MMC-3). */
module CdTextCrc {

  // ----- the table

  /** The k % 8-th of eight values. */
  function Pick(k: bv8, a: bv16, b: bv16, c: bv16, d: bv16, e: bv16, f: bv16, g: bv16, h: bv16): bv16 {
    if k & 4 == 0 then if k & 2 == 0 then if k & 1 == 0 then a else b else if k & 1 == 0 then c else d
    else if k & 2 == 0 then if k & 1 == 0 then e else f else if k & 1 == 0 then g else h
  }

  /** crctab[i]. */
  function CrcTab(i: bv8): bv16 {
    if i < 0x08 then Pick(i, 0x0000, 0x1021, 0x2042, 0x3063, 0x4084, 0x50a5, 0x60c6, 0x70e7)
    else if i < 0x10 then Pick(i, 0x8108, 0x9129, 0xa14a, 0xb16b, 0xc18c, 0xd1ad, 0xe1ce, 0xf1ef)
    else if i < 0x18 then Pick(i, 0x1231, 0x0210, 0x3273, 0x2252, 0x52b5, 0x4294, 0x72f7, 0x62d6)
    else if i < 0x20 then Pick(i, 0x9339, 0x8318, 0xb37b, 0xa35a, 0xd3bd, 0xc39c, 0xf3ff, 0xe3de)
    else if i < 0x28 then Pick(i, 0x2462, 0x3443, 0x0420, 0x1401, 0x64e6, 0x74c7, 0x44a4, 0x5485)
    else if i < 0x30 then Pick(i, 0xa56a, 0xb54b, 0x8528, 0x9509, 0xe5ee, 0xf5cf, 0xc5ac, 0xd58d)
    else if i < 0x38 then Pick(i, 0x3653, 0x2672, 0x1611, 0x0630, 0x76d7, 0x66f6, 0x5695, 0x46b4)
    else if i < 0x40 then Pick(i, 0xb75b, 0xa77a, 0x9719, 0x8738, 0xf7df, 0xe7fe, 0xd79d, 0xc7bc)
    else if i < 0x48 then Pick(i, 0x48c4, 0x58e5, 0x6886, 0x78a7, 0x0840, 0x1861, 0x2802, 0x3823)
    else if i < 0x50 then Pick(i, 0xc9cc, 0xd9ed, 0xe98e, 0xf9af, 0x8948, 0x9969, 0xa90a, 0xb92b)
    else if i < 0x58 then Pick(i, 0x5af5, 0x4ad4, 0x7ab7, 0x6a96, 0x1a71, 0x0a50, 0x3a33, 0x2a12)
    else if i < 0x60 then Pick(i, 0xdbfd, 0xcbdc, 0xfbbf, 0xeb9e, 0x9b79, 0x8b58, 0xbb3b, 0xab1a)
    else if i < 0x68 then Pick(i, 0x6ca6, 0x7c87, 0x4ce4, 0x5cc5, 0x2c22, 0x3c03, 0x0c60, 0x1c41)
    else if i < 0x70 then Pick(i, 0xedae, 0xfd8f, 0xcdec, 0xddcd, 0xad2a, 0xbd0b, 0x8d68, 0x9d49)
    else if i < 0x78 then Pick(i, 0x7e97, 0x6eb6, 0x5ed5, 0x4ef4, 0x3e13, 0x2e32, 0x1e51, 0x0e70)
    else if i < 0x80 then Pick(i, 0xff9f, 0xefbe, 0xdfdd, 0xcffc, 0xbf1b, 0xaf3a, 0x9f59, 0x8f78)
    else if i < 0x88 then Pick(i, 0x9188, 0x81a9, 0xb1ca, 0xa1eb, 0xd10c, 0xc12d, 0xf14e, 0xe16f)
    else if i < 0x90 then Pick(i, 0x1080, 0x00a1, 0x30c2, 0x20e3, 0x5004, 0x4025, 0x7046, 0x6067)
    else if i < 0x98 then Pick(i, 0x83b9, 0x9398, 0xa3fb, 0xb3da, 0xc33d, 0xd31c, 0xe37f, 0xf35e)
    else if i < 0xa0 then Pick(i, 0x02b1, 0x1290, 0x22f3, 0x32d2, 0x4235, 0x5214, 0x6277, 0x7256)
    else if i < 0xa8 then Pick(i, 0xb5ea, 0xa5cb, 0x95a8, 0x8589, 0xf56e, 0xe54f, 0xd52c, 0xc50d)
    else if i < 0xb0 then Pick(i, 0x34e2, 0x24c3, 0x14a0, 0x0481, 0x7466, 0x6447, 0x5424, 0x4405)
    else if i < 0xb8 then Pick(i, 0xa7db, 0xb7fa, 0x8799, 0x97b8, 0xe75f, 0xf77e, 0xc71d, 0xd73c)
    else if i < 0xc0 then Pick(i, 0x26d3, 0x36f2, 0x0691, 0x16b0, 0x6657, 0x7676, 0x4615, 0x5634)
    else if i < 0xc8 then Pick(i, 0xd94c, 0xc96d, 0xf90e, 0xe92f, 0x99c8, 0x89e9, 0xb98a, 0xa9ab)
    else if i < 0xd0 then Pick(i, 0x5844, 0x4865, 0x7806, 0x6827, 0x18c0, 0x08e1, 0x3882, 0x28a3)
    else if i < 0xd8 then Pick(i, 0xcb7d, 0xdb5c, 0xeb3f, 0xfb1e, 0x8bf9, 0x9bd8, 0xabbb, 0xbb9a)
    else if i < 0xe0 then Pick(i, 0x4a75, 0x5a54, 0x6a37, 0x7a16, 0x0af1, 0x1ad0, 0x2ab3, 0x3a92)
    else if i < 0xe8 then Pick(i, 0xfd2e, 0xed0f, 0xdd6c, 0xcd4d, 0xbdaa, 0xad8b, 0x9de8, 0x8dc9)
    else if i < 0xf0 then Pick(i, 0x7c26, 0x6c07, 0x5c64, 0x4c45, 0x3ca2, 0x2c83, 0x1ce0, 0x0cc1)
    else if i < 0xf8 then Pick(i, 0xef1f, 0xff3e, 0xcf5d, 0xdf7c, 0xaf9b, 0xbfba, 0x8fd9, 0x9ff8)
    else Pick(i, 0x6e17, 0x7e36, 0x4e55, 0x5e74, 0x2e93, 0x3eb2, 0x0ed1, 0x1ef0)
  }

  /** One step of updcrc's loop. */
  function Update(crc: bv16, x: bv8): bv16 {
    (crc << 8) ^ CrcTab(((crc >> 8) as bv8) ^ x)
  }

  /** updcrc. */
  function Crc(crc: bv16, s: seq<bv8>): bv16 {
    if s == [] then crc else Update(Crc(crc, s[..|s| - 1]), s[|s| - 1])
  }

  // ----- the table is division by the generator polynomial

  /** Polynomials over the two-element field are added, and subtracted, without carry. */
  function Plus(a: bv16, b: bv16): bv16 {
    a ^ b
  }

  /** Multiply by x, modulo the generator polynomial: subtract it when a bit leaves the register. */
  function Step(c: bv16): bv16 {
    (c << 1) ^ ((c >> 15) * 0x1021)
  }

  function Step8(c: bv16): bv16 {
    Step(Step(Step(Step(Step(Step(Step(Step(c))))))))
  }

  function StepN(c: bv16, n: nat): bv16 {
    if n == 0 then c else Step(StepN(c, n - 1))
  }

  function Unit(b: bool): bv16 {
    if b then 1 else 0
  }

  /** Long division: shift the message in bit by bit, most significant first, and subtract the generator polynomial
      whenever a bit leaves the register. */
  function Divide(r: bv16, bits: seq<bool>): bv16 {
    if bits == [] then r else Plus(Step(Divide(r, bits[..|bits| - 1])), Unit(bits[|bits| - 1]))
  }

  /** A byte's bits, most significant first. */
  function Bits(x: bv8): (b: seq<bool>)
    ensures |b| == 8
  {
    [x & 0x80 != 0, x & 0x40 != 0, x & 0x20 != 0, x & 0x10 != 0, x & 8 != 0, x & 4 != 0, x & 2 != 0, x & 1 != 0]
  }

  function AllBits(s: seq<bv8>): seq<bool> {
    if s == [] then [] else AllBits(s[..|s| - 1]) + Bits(s[|s| - 1])
  }

  lemma TableIsEightSteps(i: bv8)
    ensures CrcTab(i) == Step8((i as bv16) << 8)
  {
  }

  // Exclusive or, shifts and masks.

  lemma LemmaShiftXor(a: bv16, b: bv16)
    ensures (a ^ b) << 1 == (a << 1) ^ (b << 1)
  {
  }

  lemma LemmaTopBit(a: bv16, b: bv16)
    ensures ((a ^ b) >> 15) * 0x1021 == ((a >> 15) * 0x1021) ^ ((b >> 15) * 0x1021)
  {
  }

  lemma LemmaXorFour(a: bv16, b: bv16, c: bv16, d: bv16)
    ensures (a ^ b) ^ (c ^ d) == (a ^ c) ^ (b ^ d)
  {
  }

  lemma StepLinear(a: bv16, b: bv16)
    ensures Step(Plus(a, b)) == Plus(Step(a), Step(b))
  {
    LemmaShiftXor(a, b);
    LemmaTopBit(a, b);
    LemmaXorFour(a << 1, b << 1, (a >> 15) * 0x1021, (b >> 15) * 0x1021);
  }

  lemma {:induction false} StepNLinear(a: bv16, b: bv16, n: nat)
    ensures StepN(Plus(a, b), n) == Plus(StepN(a, n), StepN(b, n))
  {
    hide Step, Plus;
    if n > 0 {
      StepNLinear(a, b, n - 1);
      StepLinear(StepN(a, n - 1), StepN(b, n - 1));
    }
  }

  lemma LemmaStep8(c: bv16)
    ensures Step8(c) == StepN(c, 8)
  {
    hide Step;
    assert StepN(c, 1) == Step(c);
    assert StepN(c, 2) == Step(Step(c));
    assert StepN(c, 3) == Step(StepN(c, 2));
    assert StepN(c, 4) == Step(StepN(c, 3));
    assert StepN(c, 5) == Step(StepN(c, 4));
    assert StepN(c, 6) == Step(StepN(c, 5));
    assert StepN(c, 7) == Step(StepN(c, 6));
  }

  lemma LemmaSplitBytes(c: bv16, x: bv8)
    ensures Plus(c, (x as bv16) << 8) == Plus(((((c >> 8) as bv8) ^ x) as bv16) << 8, c & 0xFF)
  {
  }

  /** Eight steps only shift a value that fits in the lower byte. */
  lemma LemmaLowByte(c: bv16)
    ensures Step8(c & 0xFF) == c << 8
  {
    var d := c & 0xFF;
    assert Step(d) == d << 1;
    assert Step(d << 1) == d << 2;
    assert Step(d << 2) == d << 3;
    assert Step(d << 3) == d << 4;
    assert Step(d << 4) == d << 5;
    assert Step(d << 5) == d << 6;
    assert Step(d << 6) == d << 7;
    assert Step(d << 7) == d << 8;
    assert d << 8 == c << 8;
  }

  lemma LemmaPlusCommutes(a: bv16, b: bv16)
    ensures Plus(a, b) == Plus(b, a)
  {
  }

  /** The table-driven update is eight steps of bitwise division. */
  lemma UpdateIsEightSteps(c: bv16, x: bv8)
    ensures Update(c, x) == StepN(Plus(c, (x as bv16) << 8), 8)
  {
    hide Step, Step8, CrcTab, StepN;
    var i := ((c >> 8) as bv8) ^ x;
    var hi := (i as bv16) << 8;
    assert Update(c, x) == Plus(c << 8, CrcTab(i));
    EightStepsSplit(c, x, i, hi);
  }

  lemma EightStepsSplit(c: bv16, x: bv8, i: bv8, hi: bv16)
    requires i == ((c >> 8) as bv8) ^ x && hi == (i as bv16) << 8
    ensures StepN(Plus(c, (x as bv16) << 8), 8) == Plus(c << 8, CrcTab(i))
  {
    hide Step, Step8, CrcTab, StepN, Plus;
    TableIsEightSteps(i);
    LemmaLowByte(c);
    LemmaSplitBytes(c, x);
    LemmaStep8(hi);
    LemmaStep8(c & 0xFF);
    StepNLinear(hi, c & 0xFF, 8);
    LemmaPlusCommutes(c << 8, CrcTab(i));
  }

  lemma LemmaDivideSnoc(bits: seq<bool>, b: bool)
    ensures Divide(0, bits + [b]) == Plus(Step(Divide(0, bits)), Unit(b))
  {
    assert (bits + [b])[..|bits|] == bits;
  }

  /** Shifting one more bit into a register that already took the bits of a < 0x80. */
  lemma LemmaShiftIn(r: bv16, a: bv16, b: bool)
    requires a < 0x80
    ensures Plus(Step(Plus(r, a)), Unit(b)) == Plus(Step(r), Plus(a << 1, Unit(b)))
    ensures Plus(a << 1, Unit(b)) < 0x100
  {
    StepLinear(r, a);
    assert Step(a) == a << 1;
    LemmaPlusAssociates(Step(r), a << 1, Unit(b));
  }

  lemma LemmaPlusAssociates(a: bv16, b: bv16, c: bv16)
    ensures Plus(Plus(a, b), c) == Plus(a, Plus(b, c))
  {
  }

  /** Reading a byte bit by bit. */
  lemma LemmaBitByBit(x: bv8)
    ensures var w := x as bv16;
            && Plus(0 << 1, Unit(x & 0x80 != 0)) == w >> 7
            && Plus((w >> 7) << 1, Unit(x & 0x40 != 0)) == w >> 6
            && Plus((w >> 6) << 1, Unit(x & 0x20 != 0)) == w >> 5
            && Plus((w >> 5) << 1, Unit(x & 0x10 != 0)) == w >> 4
            && Plus((w >> 4) << 1, Unit(x & 8 != 0)) == w >> 3
            && Plus((w >> 3) << 1, Unit(x & 4 != 0)) == w >> 2
            && Plus((w >> 2) << 1, Unit(x & 2 != 0)) == w >> 1
            && Plus((w >> 1) << 1, Unit(x & 1 != 0)) == w
            && w >> 1 < 0x80
  {
  }

  lemma LemmaShiftRightSmaller(w: bv16)
    requires w >> 1 < 0x80
    ensures w >> 7 < 0x80 && w >> 6 < 0x80 && w >> 5 < 0x80 && w >> 4 < 0x80 && w >> 3 < 0x80 && w >> 2 < 0x80
  {
  }

  /** Eight bits shifted in. */
  lemma DivideByte(bits: seq<bool>, x: bv8)
    ensures Divide(0, bits + Bits(x)) == Plus(StepN(Divide(0, bits), 8), x as bv16)
  {
    hide Step, Plus, Unit, Divide, Bits;
    var b, w, r := Bits(x), x as bv16, Divide(0, bits);
    LemmaBitByBit(x);
    LemmaShiftRightSmaller(w);
    LemmaPlusZero(r);
    LemmaBits(x);
    assert bits + b[..0] == bits;
    DivideBit(bits, b, 0, r, 0);
    DivideBit(bits, b, 1, r, w >> 7);
    DivideBit(bits, b, 2, r, w >> 6);
    DivideBit(bits, b, 3, r, w >> 5);
    DivideBit(bits, b, 4, r, w >> 4);
    DivideBit(bits, b, 5, r, w >> 3);
    DivideBit(bits, b, 6, r, w >> 2);
    DivideBit(bits, b, 7, r, w >> 1);
    assert b[..8] == b;
  }

  lemma LemmaBits(x: bv8)
    ensures var b := Bits(x);
            && b[0] == (x & 0x80 != 0) && b[1] == (x & 0x40 != 0) && b[2] == (x & 0x20 != 0) && b[3] == (x & 0x10 != 0)
            && b[4] == (x & 8 != 0) && b[5] == (x & 4 != 0) && b[6] == (x & 2 != 0) && b[7] == (x & 1 != 0)
  {
  }

  lemma LemmaPlusZero(a: bv16)
    ensures Plus(a, 0) == a == Plus(0, a)
  {
  }

  lemma DivideBit(bits: seq<bool>, b: seq<bool>, k: nat, r: bv16, a: bv16)
    requires k < |b| && a < 0x80 && Divide(0, bits + b[..k]) == Plus(StepN(r, k), a)
    ensures Divide(0, bits + b[..k + 1]) == Plus(StepN(r, k + 1), Plus(a << 1, Unit(b[k])))
  {
    hide Step, Plus, Unit, Divide;
    assert bits + b[..k + 1] == (bits + b[..k]) + [b[k]];
    LemmaDivideSnoc(bits + b[..k], b[k]);
    LemmaShiftIn(StepN(r, k), a, b[k]);
  }

  lemma {:induction false} LemmaStepNSum(c: bv16, m: nat, n: nat)
    ensures StepN(StepN(c, m), n) == StepN(c, m + n)
  {
    hide Step;
    if n > 0 {
      LemmaStepNSum(c, m, n - 1);
    }
  }

  /** updcrc computes the remainder of the message times x^16: the register of the long division, sixteen further steps
      on. */
  lemma {:induction false} CrcIsRemainder(s: seq<bv8>)
    ensures Crc(0, s) == StepN(Divide(0, AllBits(s)), 16)
  {
    hide Step, Plus, Update, Divide, StepN;
    if s == [] {
      LemmaStepZero(16);
      LemmaDivideNothing();
    } else {
      var k := |s| - 1;
      var r, x := Divide(0, AllBits(s[..k])), s[k];
      CrcIsRemainder(s[..k]);
      UpdateIsEightSteps(StepN(r, 16), x);
      DivideByte(AllBits(s[..k]), x);
      LemmaRemainderByte(r, x as bv16);
    }
  }

  lemma LemmaDivideNothing()
    ensures Divide(0, AllBits([])) == 0
  {
  }

  lemma LemmaRemainderByte(r: bv16, w: bv16)
    requires w < 0x100
    ensures StepN(Plus(StepN(r, 16), w << 8), 8) == StepN(Plus(StepN(r, 8), w), 16)
  {
    hide Step, Plus, StepN, Step8;
    StepNLinear(StepN(r, 16), w << 8, 8);
    StepNLinear(StepN(r, 8), w, 16);
    LemmaStepNSum(r, 16, 8);
    LemmaStepNSum(r, 8, 16);
    LemmaStepNSum(w, 8, 8);
    LemmaLowByte(w);
    assert w & 0xFF == w;
    LemmaStep8(w);
  }

  lemma {:induction false} LemmaStepZero(n: nat)
    ensures StepN(0, n) == 0
  {
    if n > 0 {
      LemmaStepZero(n - 1);
    }
  }

  function ZeroBits(n: nat): (z: seq<bool>)
    ensures |z| == n
  {
    if n == 0 then [] else ZeroBits(n - 1) + [false]
  }

  lemma {:induction false} LemmaAppendZeros(bits: seq<bool>, n: nat)
    ensures Divide(0, bits + ZeroBits(n)) == StepN(Divide(0, bits), n)
  {
    hide Step, Plus, Divide;
    if n == 0 {
      assert bits + [] == bits;
    } else {
      LemmaAppendZeros(bits, n - 1);
      assert bits + ZeroBits(n) == (bits + ZeroBits(n - 1)) + [false];
      LemmaDivideSnoc(bits + ZeroBits(n - 1), false);
      LemmaPlusZero(Step(Divide(0, bits + ZeroBits(n - 1))));
    }
  }

  /** The table-driven CRC is the remainder of dividing the message, followed by 16 zero bits, bit by bit by
      x^16 + x^12 + x^5 + 1. */
  lemma CrcIsLongDivision(s: seq<bv8>)
    ensures Crc(0, s) == Divide(0, AllBits(s) + ZeroBits(16))
  {
    CrcIsRemainder(s);
    LemmaAppendZeros(AllBits(s), 16);
  }

  // ----- linearity over messages

  function XorSeq(s: seq<bv8>, t: seq<bv8>): (r: seq<bv8>)
    requires |s| == |t|
    ensures |r| == |s|
    ensures forall i | 0 <= i < |s| :: r[i] == s[i] ^ t[i]
  {
    seq(|s|, i requires 0 <= i < |s| => s[i] ^ t[i])
  }

  lemma UpdateLinear(a: bv16, b: bv16, x: bv8, y: bv8)
    ensures Update(Plus(a, b), x ^ y) == Plus(Update(a, x), Update(b, y))
  {
    hide Step, Update, StepN, Plus;
    UpdateIsEightSteps(a, x);
    UpdateIsEightSteps(b, y);
    UpdateIsEightSteps(Plus(a, b), x ^ y);
    LemmaPlusBytes(a, b, x, y);
    StepNLinear(Plus(a, (x as bv16) << 8), Plus(b, (y as bv16) << 8), 8);
  }

  lemma LemmaPlusBytes(a: bv16, b: bv16, x: bv8, y: bv8)
    ensures Plus(Plus(a, b), ((x ^ y) as bv16) << 8) == Plus(Plus(a, (x as bv16) << 8), Plus(b, (y as bv16) << 8))
  {
  }

  lemma {:induction false} CrcLinear(a: bv16, b: bv16, s: seq<bv8>, t: seq<bv8>)
    requires |s| == |t|
    ensures Crc(Plus(a, b), XorSeq(s, t)) == Plus(Crc(a, s), Crc(b, t))
  {
    hide Update, Plus;
    if s != [] {
      var k := |s| - 1;
      CrcLinear(a, b, s[..k], t[..k]);
      assert XorSeq(s, t)[..k] == XorSeq(s[..k], t[..k]);
      UpdateLinear(Crc(a, s[..k]), Crc(b, t[..k]), s[k], t[k]);
    }
  }

  lemma LemmaCrcSnoc(c: bv16, s: seq<bv8>, x: bv8)
    ensures Crc(c, s + [x]) == Update(Crc(c, s), x)
  {
    hide Update;
    assert (s + [x])[..|s|] == s;
  }

  /** A message followed by its CRC, high byte first, has CRC 0. */
  lemma CrcOfCodeword(s: seq<bv8>, hi: bv8, lo: bv8)
    requires hi == (Crc(0, s) >> 8) as bv8 && lo == (Crc(0, s) & 0xFF) as bv8
    ensures Crc(0, s + [hi, lo]) == 0
  {
    hide Update, Crc;
    LemmaCrcSnoc(0, s, hi);
    LemmaCrcSnoc(0, s + [hi], lo);
    assert s + [hi, lo] == (s + [hi]) + [lo];
    LemmaCancel(Crc(0, s), hi, lo);
  }

  lemma LemmaCancel(c: bv16, hi: bv8, lo: bv8)
    requires hi == (c >> 8) as bv8 && lo == (c & 0xFF) as bv8
    ensures Update(Update(c, hi), lo) == 0
  {
    assert hi ^ hi == 0;
    assert CrcTab(0) == 0;
    assert Update(c, hi) == c << 8;
    assert ((c << 8) >> 8) as bv8 == lo;
    assert Update(c << 8, lo) == (c << 8) << 8;
  }
}
