/** A reader of CD-Text bytes, as they lie in memory: what it finds in the packs that packtext makes. */
module CdTextReader {
  import opened Common
  import opened CdTextCorrection
  import opened CdTextPack
  import opened CdTextPacker
  import opened CdTextRoundTrip

  /** The bytes of a pack: type, track, sequence number, position, twelve characters and the CRC. */
  type Raw = p: seq<Byte> | |p| == 18 witness Zeros(18)

  function Cut(b: seq<Byte>): seq<Raw> {
    if |b| < 18 then [] else [b[..18]] + Cut(b[18..])
  }

  function Select(packs: seq<Raw>, id: nat): seq<Raw> {
    if packs == [] then [] else (if packs[0][0] as nat == id then [packs[0]] else []) + Select(packs[1..], id)
  }

  function TextOf(packs: seq<Raw>): seq<Byte> {
    if packs == [] then [] else packs[0][4..16] + TextOf(packs[1..])
  }

  // ----- what it should find

  /** The first character of a pack is number `offset` of the string that byte 1 names, and number `at` of all; byte 3 is
      the offset, or 15 if it is more. */
  ghost predicate HeaderIs(p: Raw, strings: seq<seq<Byte>>, at: nat, offset: nat) {
    && ComesFrom(strings, 0, Origin(p[1] as nat, offset), p[4], at)
    && p[3] as nat == if offset < 15 then offset else 15
  }

  ghost predicate HeaderIsRight(p: Raw, strings: seq<seq<Byte>>, at: nat) {
    exists offset: nat :: HeaderIs(p, strings, at, offset)
  }

  /** The packs of a type hold its strings, and headers that lead to them; without any text there are no packs. */
  ghost predicate TypeReadsBack(packs: seq<Raw>, job: Job, ty: nat)
    requires job.Valid() && ty < 15
  {
    var selected, strings := Select(packs, 0x80 + ty), job.TypeStrings(ty);
    if HasText(job.texts, ty, job.tracks) then
      && ThenEmpty(strings, Split(TextOf(selected)))
      && 0 <= |TextOf(selected)| - |Stream(strings)| < 12
      && forall k | 0 <= k < |selected| :: HeaderIsRight(selected[k], strings, 12 * k)
    else selected == []
  }

  ghost predicate SizesReadBack(packs: seq<Raw>, job: Job)
    requires job.Valid()
  {
    var s := TextOf(Select(packs, 0x8F));
    && |s| == 36
    && s[0] == 0 && s[1] as nat == job.first && s[2] as nat == job.LastTrack() && s[3] == 0
    && (forall k | 4 <= k < 20 :: s[k] as nat == |Select(packs, 0x80 + (k - 4))|)
    && s[20] as nat == |packs| - 1
    && s[28] == 9
  }

  /** Pack k has k as its sequence number, and a valid CRC. */
  ghost predicate NumberedAndCorrect(packs: seq<Raw>) {
    forall k | 0 <= k < |packs| :: packs[k][2] as nat == k && Correct(packs[k])
  }

  ghost predicate ReadsBack(b: seq<Byte>, job: Job)
    requires job.Valid()
  {
    && |b| == 18 * |Cut(b)|
    && NumberedAndCorrect(Cut(b))
    && (forall ty: nat | ty < 15 :: TypeReadsBack(Cut(b), job, ty))
    && SizesReadBack(Cut(b), job)
  }

  // ----- from packs to bytes

  /** The packs as they lie in memory. */
  function InMemory(packs: seq<Pack>): seq<Byte> {
    if packs == [] then [] else PackBytes(packs[0]) + InMemory(packs[1..])
  }

  /** The members of a struct textpack are where the reader expects them, and hold the same numbers. */
  ghost predicate LaidOut(p: Pack, r: seq<Byte>) {
    && |r| == 18 && r == PackBytes(p)
    && r[0] as nat == p.packType && r[4..16] == p.text
  }

  ghost predicate AllLaidOut(packs: seq<Pack>, raws: seq<Raw>) {
    |raws| == |packs| && forall k | 0 <= k < |packs| :: LaidOut(packs[k], raws[k])
  }

  lemma LemmaLaidOut(p: Pack, k: nat)
    requires Complete(p, k)
    ensures LaidOut(p, PackBytes(p)) && Correct(PackBytes(p))
  {
    hide LowByte, Correct;
    LemmaLowByte(p.packType);
    assert PackBytes(p)[0] == LowByte(p.packType);
    assert PackBytes(p)[4..16] == p.text;
  }

  /** The bytes are found again by cutting. */
  lemma {:induction false} PackInMemory(packs: seq<Pack>)
    requires forall k | 0 <= k < |packs| :: LaidOut(packs[k], PackBytes(packs[k]))
    ensures |InMemory(packs)| == 18 * |packs|
    ensures AllLaidOut(packs, Cut(InMemory(packs)))
  {
    hide PackBytes, LaidOut;
    if packs != [] {
      var b, rest := PackBytes(packs[0]), InMemory(packs[1..]);
      LemmaBytes(packs[0], b);
      PackInMemory(packs[1..]);
      assert (b + rest)[..18] == b && (b + rest)[18..] == rest;
      assert packs[0] in packs;
    }
  }

  lemma {:induction false} LemmaSelect(packs: seq<Pack>, raws: seq<Raw>, id: nat)
    requires AllLaidOut(packs, raws)
    ensures AllLaidOut(OfType(packs, id), Select(raws, id))
  {
    hide PackBytes;
    if packs != [] {
      LemmaSelect(packs[1..], raws[1..], id);
      assert LaidOut(packs[0], raws[0]);
    }
  }

  lemma {:induction false} LemmaTextOf(packs: seq<Pack>, raws: seq<Raw>)
    requires AllLaidOut(packs, raws)
    ensures TextOf(raws) == Texts(packs)
  {
    hide PackBytes;
    if packs != [] {
      LemmaTextOf(packs[1..], raws[1..]);
      assert LaidOut(packs[0], raws[0]);
    }
  }

  // ----- the packs of a job

  lemma LemmaHeader(p: Pack, r: Raw, strings: seq<seq<Byte>>, at: nat)
    requires LaidOut(p, r) && Begins(p, strings, at) && |strings| <= 100
    ensures HeaderIsRight(r, strings, at)
  {
    hide ComesFrom, LowByte;
    var offset: nat :| ComesFrom(strings, 0, Origin(p.trackNo, offset), p.text[0], at)
                       && p.blockNumber == if offset < 15 then offset else 15;
    LemmaTrack(strings, Origin(p.trackNo, offset), p.text[0], at);
    LemmaLowByte(p.trackNo);
    LemmaLowByte(p.blockNumber);
    assert r[1] == LowByte(p.trackNo) && r[3] == LowByte(p.blockNumber) && r[4] == r[4..16][0];
    assert HeaderIs(r, strings, at, offset);
  }

  lemma LemmaTrack(strings: seq<seq<Byte>>, o: Origin, c: Byte, at: nat)
    requires ComesFrom(strings, 0, o, c, at)
    ensures o.track < |strings|
  {
  }

  lemma LemmaTypeReadsBack(job: Job, raws: seq<Raw>, ty: nat)
    requires job.Valid() && ty < 15 && AllLaidOut(job.AllPacks(), raws)
    ensures TypeReadsBack(raws, job, ty)
  {
    hide LaidOut, HasText, OfType, Texts, Split, Stream, Strings, ThenEmpty, Select, TextOf, Begins, HeaderIsRight;
    var id := 0x80 + ty;
    LemmaSelect(job.AllPacks(), raws, id);
    LemmaTextOf(OfType(job.AllPacks(), id), Select(raws, id));
    TextReadsBack(job, ty);
    forall k | 0 <= k < |Select(raws, id)|
      ensures HeaderIsRight(Select(raws, id)[k], job.TypeStrings(ty), 12 * k)
    {
      HeaderNamesFirstCharacter(job, ty, k);
      LemmaHeader(OfType(job.AllPacks(), id)[k], Select(raws, id)[k], job.TypeStrings(ty), 12 * k);
    }
  }

  lemma LemmaTypesReadBack(job: Job, raws: seq<Raw>)
    requires job.Valid() && AllLaidOut(job.AllPacks(), raws)
    ensures forall ty: nat | ty < 15 :: TypeReadsBack(raws, job, ty)
  {
    hide AllLaidOut, TypeReadsBack;
    forall ty: nat | ty < 15
      ensures TypeReadsBack(raws, job, ty)
    {
      LemmaTypeReadsBack(job, raws, ty);
    }
  }

  lemma {:induction false} LemmaFewer(packs: seq<Pack>, id: nat)
    ensures |OfType(packs, id)| <= |packs|
  {
    if packs != [] {
      LemmaFewer(packs[1..], id);
    }
  }

  /** The counts fit into their bytes. */
  lemma LemmaCountFits(job: Job, ty: nat)
    requires job.Valid() && ty < 16 && |job.AllPacks()| <= MAX_PACKS
    ensures |OfType(job.AllPacks(), 0x80 + ty)| < 256
  {
    hide OfType, PacksOf, HasText, SizeBytes, SizeOrigins;
    LemmaTextPacksOfType(job, 15, ty);
    LemmaFewer(job.TextPacks(15), 0x80 + ty);
    PacksOfOneType(job, ty);
  }

  lemma LemmaSizesReadBack(job: Job, raws: seq<Raw>)
    requires job.Valid() && AllLaidOut(job.AllPacks(), raws) && |job.AllPacks()| <= MAX_PACKS
    ensures SizesReadBack(raws, job)
  {
    hide LaidOut, OfType, Texts, Select, TextOf, LowByte;
    LemmaSelect(job.AllPacks(), raws, 0x8F);
    LemmaTextOf(OfType(job.AllPacks(), 0x8F), Select(raws, 0x8F));
    SizesAreRight(job, 0);
    LemmaLowByte(job.first);
    LemmaLowByte(job.LastTrack());
    LemmaLowByte(|job.AllPacks()| - 1);
    forall k | 4 <= k < 20
      ensures TextOf(Select(raws, 0x8F))[k] as nat == |Select(raws, 0x80 + (k - 4))|
    {
      SizesAreRight(job, k - 4);
      LemmaSelect(job.AllPacks(), raws, 0x80 + (k - 4));
      LemmaCountFits(job, k - 4);
      LemmaLowByte(|OfType(job.AllPacks(), 0x80 + (k - 4))|);
    }
  }

  lemma LemmaComplete(job: Job, k: nat)
    requires job.Valid() && k < |job.AllPacks()| <= MAX_PACKS
    ensures LaidOut(job.AllPacks()[k], PackBytes(job.AllPacks()[k]))
    ensures |PackBytes(job.AllPacks()[k])| == 18
    ensures PackBytes(job.AllPacks()[k])[2] as nat == k && Correct(PackBytes(job.AllPacks()[k]))
  {
    hide Complete, Correct, PackBytes;
    PacksAreComplete(job, k);
    LemmaLaidOut(job.AllPacks()[k], k);
  }

  lemma LemmaNumbered(job: Job)
    requires job.Valid() && |job.AllPacks()| <= MAX_PACKS
    ensures |InMemory(job.AllPacks())| == PACK_SIZE * |job.AllPacks()|
    ensures |Cut(InMemory(job.AllPacks()))| == |job.AllPacks()|
    ensures AllLaidOut(job.AllPacks(), Cut(InMemory(job.AllPacks())))
    ensures NumberedAndCorrect(Cut(InMemory(job.AllPacks())))
  {
    hide LaidOut, PackBytes, Correct, InMemory, Cut;
    var packs := job.AllPacks();
    forall k | 0 <= k < |packs|
      ensures LaidOut(packs[k], PackBytes(packs[k]))
    {
      LemmaComplete(job, k);
    }
    PackInMemory(packs);
    var raws := Cut(InMemory(packs));
    forall k | 0 <= k < |packs|
      ensures raws[k][2] as nat == k && Correct(raws[k])
    {
      LemmaBytes(packs[k], raws[k]);
      LemmaComplete(job, k);
    }
  }

  /** The packs of a job, read as bytes, give all its strings back, and tell where they are. */
  lemma BytesReadBack(job: Job)
    requires job.Valid() && |job.AllPacks()| <= MAX_PACKS
    ensures |InMemory(job.AllPacks())| == PACK_SIZE * |job.AllPacks()|
    ensures ReadsBack(InMemory(job.AllPacks()), job)
  {
    hide AllLaidOut, NumberedAndCorrect, InMemory, Cut, TypeReadsBack, SizesReadBack;
    LemmaNumbered(job);
    LemmaTypesReadBack(job, Cut(InMemory(job.AllPacks())));
    LemmaSizesReadBack(job, Cut(InMemory(job.AllPacks())));
  }

  lemma LemmaBytes(p: Pack, r: seq<Byte>)
    requires LaidOut(p, r)
    ensures |r| == 18 && r == PackBytes(p)
  {
  }
}
