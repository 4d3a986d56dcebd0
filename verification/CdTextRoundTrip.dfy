/** What a reader of the CD-Text packs gets back. */
module CdTextRoundTrip {
  import opened Common
  import opened CdTextCrc
  import opened CdTextCorrection
  import opened CdTextPack
  import opened CdTextPacker

  // ----- a reader: select the packs of a type, join their text fields, split at NULs

  function OfType(packs: seq<Pack>, packType: nat): (r: seq<Pack>) {
    if packs == [] then []
    else (if packs[0].packType == packType then [packs[0]] else []) + OfType(packs[1..], packType)
  }

  function Texts(packs: seq<Pack>): seq<Byte> {
    if packs == [] then [] else packs[0].text + Texts(packs[1..])
  }

  /** The index of the first NUL, or the length. */
  function FirstNul(s: seq<Byte>): (k: nat)
    ensures k <= |s|
    ensures k < |s| ==> s[k] == 0
  {
    if s == [] || s[0] == 0 then 0 else 1 + FirstNul(s[1..])
  }

  /** The NUL-terminated strings in s. */
  function Split(s: seq<Byte>): seq<seq<Byte>>
    decreases |s|
  {
    var k := FirstNul(s);
    if k == |s| then [] else [s[..k]] + Split(s[k + 1..])
  }

  // ----- selecting

  lemma {:induction false} LemmaOfTypeAppend(a: seq<Pack>, b: seq<Pack>, packType: nat)
    ensures OfType(a + b, packType) == OfType(a, packType) + OfType(b, packType)
  {
    hide OfType;
    if a == [] {
      assert a + b == b;
      LemmaOfTypeOther(a, packType);
    } else {
      LemmaOfTypeAppend(a[1..], b, packType);
      assert (a + b)[0] == a[0] && (a + b)[1..] == a[1..] + b;
      LemmaOfTypeFirst(a + b, packType);
      LemmaOfTypeFirst(a, packType);
    }
  }

  lemma LemmaOfTypeFirst(a: seq<Pack>, packType: nat)
    requires a != []
    ensures OfType(a, packType)
            == if a[0].packType == packType then [a[0]] + OfType(a[1..], packType) else OfType(a[1..], packType)
  {
  }

  lemma {:induction false} LemmaOfTypeSame(packs: seq<Pack>, packType: nat)
    requires forall p | p in packs :: p.packType == packType
    ensures OfType(packs, packType) == packs
  {
    if packs != [] {
      LemmaOfTypeSame(packs[1..], packType);
    }
  }

  lemma {:induction false} LemmaOfTypeOther(packs: seq<Pack>, packType: nat)
    requires forall p | p in packs :: p.packType != packType
    ensures OfType(packs, packType) == []
  {
    if packs != [] {
      LemmaOfTypeOther(packs[1..], packType);
    }
  }

  lemma LemmaPacksOfType(ty: nat, stream: seq<Byte>, origins: seq<Origin>, base: nat, packType: nat)
    requires |origins| == |stream|
    ensures OfType(PacksOf(ty, stream, origins, base), packType)
            == if packType == ty then PacksOf(ty, stream, origins, base) else []
  {
    hide OfType, FillCrc;
    var packs := PacksOf(ty, stream, origins, base);
    forall p | p in packs
      ensures p.packType == ty
    {
      var k :| 0 <= k < |packs| && packs[k] == p;
    }
    if packType == ty {
      LemmaOfTypeSame(packs, packType);
    } else {
      LemmaOfTypeOther(packs, packType);
    }
  }

  lemma {:induction false} LemmaTextPacksOfType(job: Job, t: nat, ty: nat)
    requires job.Valid() && t <= 15 && ty < 16
    ensures OfType(job.TextPacks(t), 0x80 + ty)
            == if ty < t then job.TypePacks(ty, |job.TextPacks(ty)|) else []
  {
    hide OfType, PacksOf, HasText, Stream, StreamOrigins, Strings;
    if t == 0 {
      LemmaOfTypeOther([], 0x80 + ty);
    } else {
      var u := t - 1;
      var base := |job.TextPacks(u)|;
      LemmaTextPacksOfType(job, u, ty);
      LemmaOfTypeAppend(job.TextPacks(u), job.TypePacks(u, base), 0x80 + ty);
      if HasText(job.texts, u, job.tracks) {
        LemmaPacksOfType(0x80 + u, Stream(job.TypeStrings(u)), StreamOrigins(job.TypeStrings(u), 0), base, 0x80 + ty);
      } else {
        LemmaOfTypeOther([], 0x80 + ty);
      }
    }
  }

  /** Selecting the packs of a type gives the ones made for it. */
  lemma PacksOfOneType(job: Job, ty: nat)
    requires job.Valid() && ty < 16
    ensures OfType(job.AllPacks(), 0x80 + ty)
            == if ty < 15 then job.TypePacks(ty, |job.TextPacks(ty)|) else job.SizePacks()
  {
    hide OfType, PacksOf, HasText, Stream, StreamOrigins, Strings, SizeBytes, SizeOrigins;
    LemmaTextPacksOfType(job, 15, ty);
    LemmaOfTypeAppend(job.TextPacks(15), job.SizePacks(), 0x80 + ty);
    var n := |job.TextPacks(15)|;
    LemmaPacksOfType(SIZE_TYPE, SizeBytes(job.first, job.LastTrack(), job.Counts(15), n + 2), SizeOrigins(), n, 0x80 + ty);
  }

  // ----- joining

  function Padded(stream: seq<Byte>): (s: seq<Byte>)
    ensures |s| == TEXT_SIZE * PackCount(|stream|)
  {
    stream + Zeros(TEXT_SIZE * PackCount(|stream|) - |stream|)
  }

  lemma {:induction false} LemmaTextsAppend(packs: seq<Pack>, p: Pack)
    ensures Texts(packs + [p]) == Texts(packs) + p.text
  {
    if packs == [] {
      assert Texts([p][1..]) == [];
    } else {
      LemmaTextsAppend(packs[1..], p);
      assert (packs + [p])[1..] == packs[1..] + [p];
    }
  }

  lemma {:induction false} LemmaTexts(ty: nat, stream: seq<Byte>, origins: seq<Origin>, base: nat, k: nat)
    requires |origins| == |stream| && k <= PackCount(|stream|)
    ensures Texts(PacksOf(ty, stream, origins, base)[..k]) == Padded(stream)[..TEXT_SIZE * k]
  {
    hide Texts, FillCrc;
    var packs := PacksOf(ty, stream, origins, base);
    if k == 0 {
      LemmaNoTexts();
    } else {
      LemmaTexts(ty, stream, origins, base, k - 1);
      LemmaTextsAppend(packs[..k - 1], packs[k - 1]);
      assert packs[..k] == packs[..k - 1] + [packs[k - 1]];
      var at := TEXT_SIZE * (k - 1);
      assert Text12(stream, at) == Padded(stream)[at..at + TEXT_SIZE];
      assert Padded(stream)[..TEXT_SIZE * k] == Padded(stream)[..at] + Padded(stream)[at..at + TEXT_SIZE];
    }
  }

  lemma LemmaNoTexts()
    ensures Texts([]) == []
  {
  }

  lemma JoinedTexts(ty: nat, stream: seq<Byte>, origins: seq<Origin>, base: nat)
    requires |origins| == |stream|
    ensures Texts(PacksOf(ty, stream, origins, base)) == Padded(stream)
  {
    hide PacksOf, Texts, Padded;
    var packs := PacksOf(ty, stream, origins, base);
    LemmaTexts(ty, stream, origins, base, |packs|);
    assert packs[..|packs|] == packs;
    assert Padded(stream)[..TEXT_SIZE * |packs|] == Padded(stream);
  }

  // ----- splitting

  lemma {:induction false} LemmaFirstNul(s: seq<Byte>, rest: seq<Byte>)
    requires 0 !in s
    ensures FirstNul(s + [0] + rest) == |s|
  {
    if s != [] {
      LemmaFirstNul(s[1..], rest);
      assert (s + [0] + rest)[1..] == s[1..] + [0] + rest;
    }
  }

  lemma LemmaSplitHead(s: seq<Byte>, rest: seq<Byte>)
    requires 0 !in s
    ensures Split(s + [0] + rest) == [s] + Split(rest)
  {
    hide FirstNul;
    var all := s + [0] + rest;
    LemmaFirstNul(s, rest);
    assert all[..|s|] == s && all[|s| + 1..] == rest;
  }

  lemma {:induction false} LemmaSplit(strings: seq<seq<Byte>>, tail: seq<Byte>)
    requires forall s: seq<Byte> | s in strings :: 0 !in s
    ensures Split(Stream(strings) + tail) == strings + Split(tail)
  {
    hide Split;
    if strings == [] {
      assert Stream(strings) + tail == tail;
    } else {
      var rest := Stream(strings[1..]) + tail;
      LemmaSplit(strings[1..], tail);
      assert Stream(strings) + tail == strings[0] + [0] + rest;
      LemmaSplitHead(strings[0], rest);
    }
  }

  lemma {:induction false} LemmaSplitZeros(m: nat)
    ensures forall s: seq<Byte> | s in Split(Zeros(m)) :: s == []
  {
    if m > 0 {
      LemmaSplitZeros(m - 1);
      assert Zeros(m) == [] + [0] + Zeros(m - 1);
      LemmaSplitHead([], Zeros(m - 1));
    }
  }

  /** The strings, and after them empty ones only. */
  ghost predicate ThenEmpty(strings: seq<seq<Byte>>, read: seq<seq<Byte>>) {
    strings <= read && forall k | |strings| <= k < |read| :: read[k] == []
  }

  lemma LemmaReadBack(strings: seq<seq<Byte>>, m: nat)
    requires forall s: seq<Byte> | s in strings :: 0 !in s
    ensures ThenEmpty(strings, Split(Stream(strings) + Zeros(m)))
  {
    hide Split, Stream;
    LemmaSplit(strings, Zeros(m));
    LemmaSplitZeros(m);
    var read, rest := Split(Stream(strings) + Zeros(m)), Split(Zeros(m));
    forall k | |strings| <= k < |read|
      ensures read[k] == []
    {
      assert read[k] == rest[k - |strings|] && rest[k - |strings|] in rest;
    }
  }

  /** Packing and reading back: joining the text fields of the packs of a type and splitting at the NULs gives the strings
      of that type, those of track 0 and of the tracks up to the last, and after them at most the empty ones of the filling;
      a type without any text has no packs. */
  lemma TextReadsBack(job: Job, ty: nat)
    requires job.Valid() && ty < 15
    ensures HasText(job.texts, ty, job.tracks) ==>
              ThenEmpty(job.TypeStrings(ty), Split(Texts(OfType(job.AllPacks(), 0x80 + ty))))
    ensures HasText(job.texts, ty, job.tracks) ==>
              0 <= |Texts(OfType(job.AllPacks(), 0x80 + ty))| - |Stream(job.TypeStrings(ty))| < TEXT_SIZE
    ensures !HasText(job.texts, ty, job.tracks) ==> OfType(job.AllPacks(), 0x80 + ty) == []
  {
    hide HasText, OfType, Texts, Split, Stream, StreamOrigins, PacksOf, ThenEmpty;
    PacksOfOneType(job, ty);
    if HasText(job.texts, ty, job.tracks) {
      var strings := job.TypeStrings(ty);
      JoinedTexts(0x80 + ty, Stream(strings), StreamOrigins(strings, 0), |job.TextPacks(ty)|);
      LemmaReadBack(strings, TEXT_SIZE * PackCount(|Stream(strings)|) - |Stream(strings)|);
    }
  }

  // ----- sequence numbers, CRCs and sizes

  /** Pack number k is complete: its sequence number is k, its type is one of the sixteen, and its CRC is right. */
  ghost predicate Complete(p: Pack, k: nat) {
    && p.seqNumber == k && 0x80 <= p.packType <= 0x8F && |p.text| == TEXT_SIZE
    && |PackBytes(p)| == PACK_SIZE && Correct(PackBytes(p))
  }

  lemma LemmaPackComplete(ty: nat, stream: seq<Byte>, origins: seq<Origin>, base: nat, k: nat)
    requires |origins| == |stream| && k < PackCount(|stream|) && 0x80 <= ty <= 0x8F
    ensures Complete(PacksOf(ty, stream, origins, base)[k], base + k)
  {
    hide FillCrc, PackBytes, Correct, Text12;
    var o := origins[TEXT_SIZE * k];
    FilledPackPasses(Pack(ty, o.track, base + k, Position(o.offset), Text12(stream, TEXT_SIZE * k), Zeros(2)));
  }

  lemma {:induction false} LemmaTextPacksComplete(job: Job, t: nat, k: nat)
    requires job.Valid() && t <= 15 && k < |job.TextPacks(t)|
    ensures Complete(job.TextPacks(t)[k], k)
  {
    hide Complete, PacksOf, HasText, Stream, StreamOrigins, Strings;
    var u := t - 1;
    var base := |job.TextPacks(u)|;
    if k < base {
      LemmaTextPacksComplete(job, u, k);
    } else {
      var strings := job.TypeStrings(u);
      LemmaPackComplete(0x80 + u, Stream(strings), StreamOrigins(strings, 0), base, k - base);
    }
  }

  /** The packs are numbered 0, 1, 2, ..., and cdtext_crc_ok accepts each of them as it is. */
  lemma PacksAreComplete(job: Job, k: nat)
    requires job.Valid() && k < |job.AllPacks()|
    ensures Complete(job.AllPacks()[k], k)
    ensures k < MAX_PACKS ==> PackBytes(job.AllPacks()[k])[2] as nat == k
  {
    hide Complete, PacksOf, SizeBytes, SizeOrigins;
    var n := |job.TextPacks(15)|;
    if k < n {
      LemmaTextPacksComplete(job, 15, k);
    } else {
      LemmaPackComplete(SIZE_TYPE, SizeBytes(job.first, job.LastTrack(), job.Counts(15), n + 2), SizeOrigins(), n, k - n);
    }
    LemmaSequenceByte(job.AllPacks()[k], k);
  }

  lemma LemmaSequenceByte(p: Pack, k: nat)
    requires Complete(p, k)
    ensures k < MAX_PACKS ==> PackBytes(p)[2] as nat == k
  {
    hide Complete;
    assert PackBytes(p)[2] == LowByte(k) by {
      hide LowByte;
      LemmaNumber(p, k);
    }
    LemmaLowByte(k);
  }

  lemma LemmaNumber(p: Pack, k: nat)
    requires Complete(p, k)
    ensures p.seqNumber == k && PackBytes(p)[2] == LowByte(p.seqNumber)
  {
    hide Correct, LowByte;
  }

  lemma LemmaLowByte(k: nat)
    ensures k < MAX_PACKS ==> LowByte(k) as nat == k
  {
    if k < MAX_PACKS {
      LemmaConvert(k, k % 256);
    }
  }

  /** The three size packs hold, for every type, the number of its packs, the numbers of the first and of the last track and
      of the very last pack, and the code for English; characters are those of ISO 8859-1, and there is no copyright flag. */
  lemma SizesAreRight(job: Job, ty: nat)
    requires job.Valid() && ty < 16
    ensures |Texts(OfType(job.AllPacks(), SIZE_TYPE))| == 36
    ensures Texts(OfType(job.AllPacks(), SIZE_TYPE))[4 + ty] == LowByte(|OfType(job.AllPacks(), 0x80 + ty)|)
    ensures Texts(OfType(job.AllPacks(), SIZE_TYPE))[20] == LowByte(|job.AllPacks()| - 1)
    ensures Texts(OfType(job.AllPacks(), SIZE_TYPE))[1] == LowByte(job.first)
    ensures Texts(OfType(job.AllPacks(), SIZE_TYPE))[2] == LowByte(job.LastTrack())
    ensures Texts(OfType(job.AllPacks(), SIZE_TYPE))[0] == 0 && Texts(OfType(job.AllPacks(), SIZE_TYPE))[3] == 0
    ensures Texts(OfType(job.AllPacks(), SIZE_TYPE))[28] == 9
  {
    hide OfType, Texts, PacksOf, HasText, Stream, StreamOrigins, Strings, SizeOrigins, LowByte;
    var n := |job.TextPacks(15)|;
    var bytes := SizeBytes(job.first, job.LastTrack(), job.Counts(15), n + 2);
    PacksOfOneType(job, 15);
    PacksOfOneType(job, ty);
    JoinedTexts(SIZE_TYPE, bytes, SizeOrigins(), n);
    assert Padded(bytes) == bytes;
  }

  // ----- what the header of a pack says

  /** Character j of the stream is character o.offset of the string of track o.track, counting the NUL. */
  ghost predicate ComesFrom(strings: seq<seq<Byte>>, first: nat, o: Origin, c: Byte, j: nat) {
    && first <= o.track < first + |strings|
    && o.offset <= |strings[o.track - first]|
    && c == (strings[o.track - first] + [0])[o.offset]
    && j == |Stream(strings[..o.track - first])| + o.offset
  }

  lemma {:induction false} LemmaOrigin(strings: seq<seq<Byte>>, first: nat, j: nat)
    requires j < |Stream(strings)|
    ensures ComesFrom(strings, first, StreamOrigins(strings, first)[j], Stream(strings)[j], j)
  {
    var head := strings[0] + [0];
    if j < |head| {
      assert StreamOrigins(strings, first)[j] == Origin(first, j);
      assert strings[..0] == [];
    } else {
      LemmaOrigin(strings[1..], first + 1, j - |head|);
      var o := StreamOrigins(strings, first)[j];
      assert strings[..o.track - first][1..] == strings[1..][..o.track - (first + 1)];
    }
  }

  /** Its first character is that of position `at` of the stream; the header gives the number of the string as
      track number, and the number of characters of that string already placed, or 15 if there are more, as position. */
  ghost predicate Begins(p: Pack, strings: seq<seq<Byte>>, at: nat) {
    && |p.text| == TEXT_SIZE
    && exists offset: nat ::
         && ComesFrom(strings, 0, Origin(p.trackNo, offset), p.text[0], at)
         && p.blockNumber == if offset < 15 then offset else 15
  }

  lemma LemmaBegins(ty: nat, strings: seq<seq<Byte>>, base: nat, k: nat)
    requires TEXT_SIZE * k < |Stream(strings)|
    ensures Begins(PackAt(ty, Stream(strings), StreamOrigins(strings, 0), base, k), strings, TEXT_SIZE * k)
  {
    hide Stream, StreamOrigins, FillCrc, ComesFrom;
    LemmaOrigin(strings, 0, TEXT_SIZE * k);
    var o := StreamOrigins(strings, 0)[TEXT_SIZE * k];
    assert o == Origin(o.track, o.offset);
  }

  lemma HeaderNamesFirstCharacter(job: Job, ty: nat, k: nat)
    requires job.Valid() && ty < 15 && k < |OfType(job.AllPacks(), 0x80 + ty)|
    ensures Begins(OfType(job.AllPacks(), 0x80 + ty)[k], job.TypeStrings(ty), TEXT_SIZE * k)
  {
    hide OfType, HasText, Stream, StreamOrigins, Strings, Begins, PackAt;
    PacksOfOneType(job, ty);
    LemmaBegins(0x80 + ty, job.TypeStrings(ty), |job.TextPacks(ty)|, k);
  }

  // ----- the numbers of the tracks

  /** packtext is called (cdrecord.c:784) while every entry of the track array still has its index as number. Only later
      (cdrecord.c:1249-1251) the number of the last track on the disc, read from its TOC, is added. Entry 0 stands for the
      disc. */
  function RealNumber(i: nat, offset: nat): nat {
    if i == 0 then 0 else i + offset
  }

  /** A pack begins with a string of some entry, and has the real number of that track. */
  ghost predicate NumberIsReal(p: Pack, strings: seq<seq<Byte>>, at: nat, offset: nat) {
    && |p.text| == TEXT_SIZE
    && exists i: nat, before: nat ::
         ComesFrom(strings, 0, Origin(i, before), p.text[0], at) && p.trackNo == RealNumber(i, offset)
  }

  ghost predicate PackNumbersAreReal(job: Job, offset: nat)
    requires job.Valid()
  {
    forall ty: nat | ty < 15 :: TypeNumbersAreReal(job, ty, offset)
  }

  ghost predicate TypeNumbersAreReal(job: Job, ty: nat, offset: nat)
    requires job.Valid() && ty < 15
  {
    var packs := OfType(job.AllPacks(), 0x80 + ty);
    forall k | 0 <= k < |packs| :: NumberIsReal(packs[k], job.TypeStrings(ty), TEXT_SIZE * k, offset)
  }

  /** first_track and last_track, and the track numbers of all packs, are those the tracks get on the disc. */
  ghost predicate NumbersAreReal(job: Job, offset: nat)
    requires job.Valid()
  {
    && PackNumbersAreReal(job, offset)
    && var sizes := Texts(OfType(job.AllPacks(), SIZE_TYPE));
       |sizes| == 36 && sizes[1] == LowByte(RealNumber(1, offset)) && sizes[2] == LowByte(RealNumber(job.tracks, offset))
  }

  lemma LemmaNumberIsReal(p: Pack, strings: seq<seq<Byte>>, at: nat)
    requires Begins(p, strings, at)
    ensures NumberIsReal(p, strings, at, 0)
  {
    hide ComesFrom;
    var before: nat :| ComesFrom(strings, 0, Origin(p.trackNo, before), p.text[0], at);
    assert p.trackNo == RealNumber(p.trackNo, 0);
  }

  lemma LemmaPackNumbersAreReal(job: Job)
    requires job.Valid()
    ensures PackNumbersAreReal(job, 0)
  {
    hide OfType, Begins, NumberIsReal;
    forall ty: nat | ty < 15
      ensures TypeNumbersAreReal(job, ty, 0)
    {
      var packs := OfType(job.AllPacks(), 0x80 + ty);
      forall k | 0 <= k < |packs|
        ensures NumberIsReal(packs[k], job.TypeStrings(ty), TEXT_SIZE * k, 0)
      {
        HeaderNamesFirstCharacter(job, ty, k);
        LemmaNumberIsReal(packs[k], job.TypeStrings(ty), TEXT_SIZE * k);
      }
    }
  }

  /** As packtext is called, with 1 as the number of the first entry: its numbers are the real ones if and only if there
      are no tracks on the disc yet. */
  lemma NumbersAreRealExactlyOnAnEmptyDisc(job: Job, offset: nat)
    requires job.Valid() && job.first == 1 && job.tracks + offset <= 99
    ensures NumbersAreReal(job, offset) <==> offset == 0
  {
    hide OfType, Texts, PackNumbersAreReal, LowByte;
    SizesAreRight(job, 0);
    LemmaLowByte(1);
    LemmaLowByte(1 + offset);
    LemmaPackNumbersAreReal(job);
  }
}
