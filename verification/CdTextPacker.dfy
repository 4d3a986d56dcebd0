/** packtext (cdrecord/cdtext.c): the packs of all types in turn, then the three packs with the text sizes. */
module CdTextPacker {
  import opened Common
  import opened CdTextCorrection
  import opened CdTextPack

  const SIZE_TYPE := 0x8F
  const LANG_ENGLISH: Byte := 9

  /** A char pointer: NULL, or a string without its NUL. */
  datatype CString = Null | Str(chars: seq<Byte>)

  /** The text member of a track_t: NULL, or a textptr_t with one pointer for every pack type. */
  datatype TrackText = NoText | Text(codes: seq<CString>)

  ghost predicate WellFormed(texts: seq<TrackText>) {
    forall i | 0 <= i < |texts| && texts[i].Text? :: WellFormedCodes(texts[i].codes)
  }

  ghost predicate WellFormedCodes(codes: seq<CString>) {
    |codes| == 16 && forall t | 0 <= t < 16 && codes[t].Str? :: 0 !in codes[t].chars
  }

  /** The string that is packed for a track; a missing one is packed as an empty one. */
  function StringOf(text: TrackText, ty: nat): seq<Byte>
    requires text.Text? ==> ty < |text.codes|
  {
    if text.Text? && text.codes[ty].Str? then text.codes[ty].chars else []
  }

  function Strings(texts: seq<TrackText>, ty: nat, n: nat): (s: seq<seq<Byte>>)
    requires WellFormed(texts) && ty < 16 && n <= |texts|
    ensures |s| == n
    ensures forall i | 0 <= i < n :: 0 !in s[i]
  {
    seq(n, i requires 0 <= i < n => StringOf(texts[i], ty))
  }

  /** The strings, each with its NUL, one after the other. */
  function Stream(strings: seq<seq<Byte>>): seq<Byte> {
    if strings == [] then [] else strings[0] + [0] + Stream(strings[1..])
  }

  /** Where the characters of the stream come from; the first string is that of track i. */
  function StreamOrigins(strings: seq<seq<Byte>>, i: nat): (o: seq<Origin>)
    ensures |o| == |Stream(strings)|
  {
    if strings == [] then [] else Origins(i, |strings[0]| + 1) + StreamOrigins(strings[1..], i + 1)
  }

  lemma {:induction false} LemmaStreamAppend(strings: seq<seq<Byte>>, s: seq<Byte>)
    ensures Stream(strings + [s]) == Stream(strings) + (s + [0])
  {
    if strings == [] {
      assert strings + [s] == [s];
      assert Stream([s][1..]) == [];
    } else {
      LemmaStreamAppend(strings[1..], s);
      assert (strings + [s])[1..] == strings[1..] + [s];
    }
  }

  lemma {:induction false} LemmaOriginsAppend(strings: seq<seq<Byte>>, s: seq<Byte>, i: nat)
    ensures StreamOrigins(strings + [s], i) == StreamOrigins(strings, i) + Origins(i + |strings|, |s| + 1)
  {
    hide Origins, Stream;
    if strings == [] {
      assert strings + [s] == [s];
      assert StreamOrigins([s][1..], i + 1) == [];
    } else {
      LemmaOriginsAppend(strings[1..], s, i + 1);
      assert (strings + [s])[1..] == strings[1..] + [s];
    }
  }

  /** Whether any of tracks 0 to `tracks` has a nonempty string of a type. */
  ghost predicate HasText(texts: seq<TrackText>, ty: nat, tracks: nat)
    requires WellFormed(texts) && ty < 16 && tracks < |texts|
  {
    exists i | 0 <= i <= tracks :: StringOf(texts[i], ty) != []
  }

  /** What packtext is given: the text of track 0 (the disc) and of the tracks, the number of the first track and the
      number of tracks. A track_t array has an entry for every track number up to 99, and one for the lead-out. */
  datatype Job = Job(texts: seq<TrackText>, first: nat, tracks: nat) {
    ghost predicate Valid() {
      WellFormed(texts) && |texts| == 101 && 1 <= first && 1 <= tracks && first + tracks - 1 <= 99
    }

    function LastTrack(): nat
      requires Valid()
    {
      first + tracks - 1
    }

    /** How many strings are packed for a type: disc identification has one only. */
    function Count(ty: nat): nat
      requires Valid()
    {
      if ty == 6 then 1 else LastTrack() + 1
    }

    ghost function TypeStrings(ty: nat): seq<seq<Byte>>
      requires Valid() && ty < 16
    {
      Strings(texts, ty, Count(ty))
    }

    ghost function TypePacks(ty: nat, base: nat): seq<Pack>
      requires Valid() && ty < 16
    {
      if HasText(texts, ty, tracks)
      then PacksOf(0x80 + ty, Stream(TypeStrings(ty)), StreamOrigins(TypeStrings(ty), 0), base)
      else []
    }

    /** The packs of types 0 to t - 1. */
    ghost function TextPacks(t: nat): seq<Pack>
      requires Valid() && t <= 15
    {
      if t == 0 then [] else TextPacks(t - 1) + TypePacks(t - 1, |TextPacks(t - 1)|)
    }

    /** How many packs there are of each type, when the types below t are packed. */
    ghost function Counts(t: nat): (c: seq<nat>)
      requires Valid() && t <= 15
      ensures |c| == 16
    {
      seq(16, ty requires 0 <= ty < 16 => if ty == 15 then 3 else if ty < t then |TypePacks(ty, 0)| else 0)
    }

    ghost function SizePacks(): seq<Pack>
      requires Valid()
    {
      var n := |TextPacks(15)|;
      PacksOf(SIZE_TYPE, SizeBytes(first, LastTrack(), Counts(15), n + 2), SizeOrigins(), n)
    }

    /** What packtext makes. */
    ghost function AllPacks(): seq<Pack>
      requires Valid()
    {
      TextPacks(15) + SizePacks()
    }
  }

  /** struct textsizes. */
  function SizeBytes(first: nat, last: nat, packCount: seq<nat>, lastSeqnum: nat): (b: seq<Byte>)
    requires |packCount| == 16
    ensures |b| == 36
  {
    [0, LowByte(first), LowByte(last), 0]
    + seq(16, i requires 0 <= i < 16 => LowByte(packCount[i]))
    + [LowByte(lastSeqnum)] + Zeros(7)
    + [LANG_ENGLISH] + Zeros(7)
  }

  /** The size packs have their own number, 0 to 2, in place of a track. */
  function SizeOrigins(): (o: seq<Origin>)
    ensures |o| == 36
  {
    Origins(0, 12) + Origins(1, 12) + Origins(2, 12)
  }

  function Counted(packCount: seq<nat>, packType: nat, k: nat): (c: seq<nat>)
    requires |packCount| == 16
    ensures |c| == 16
  {
    if packType == SIZE_TYPE then packCount else packCount[packType % 16 := packCount[packType % 16] + k]
  }

  /** A pack being filled from position p on; at its beginning, the next character is the one its header names. */
  ghost predicate Filling(ty: nat, stream: seq<Byte>, origins: seq<Origin>, done: seq<Pack>, sbuf: seq<Pack>, tp: Pack,
                          p: int, next: Origin) {
    && done <= sbuf
    && 0 <= p <= TEXT_SIZE
    && Packed(ty, stream, origins, |done|, sbuf[|done|..], tp, p)
    && (p == 0 ==> Headed(tp, ty, |sbuf|, next))
  }

  lemma LemmaFillingStart(ty: nat, stream: seq<Byte>, origins: seq<Origin>, done: seq<Pack>, sbuf: seq<Pack>, tp: Pack,
                          tp': Pack, next: Origin)
    requires done <= sbuf && Packed(ty, stream, origins, |done|, sbuf[|done|..], tp, 0)
    requires tp'.text == tp.text && Headed(tp', ty, |sbuf|, next)
    ensures Filling(ty, stream, origins, done, sbuf, tp', 0, next)
  {
  }

  lemma LemmaFillingPut(ty: nat, stream: seq<Byte>, origins: seq<Origin>, done: seq<Pack>, sbuf: seq<Pack>, tp: Pack,
                        p: int, trackNo: nat, from: seq<Byte>, charpos: nat)
    requires charpos < |from| && |tp.text| == TEXT_SIZE && 0 <= p < TEXT_SIZE
    requires Filling(ty, stream + from[..charpos], origins + Origins(trackNo, charpos), done, sbuf, tp, p,
                     Origin(trackNo, charpos))
    ensures Filling(ty, stream + from[..charpos + 1], origins + Origins(trackNo, charpos + 1), done, sbuf,
                    tp.(text := tp.text[p := from[charpos]]), p + 1, Origin(trackNo, charpos + 1))
  {
    hide Packed, Origins, Headed;
    assert stream + from[..charpos + 1] == stream + from[..charpos] + [from[charpos]];
    assert origins + Origins(trackNo, charpos + 1) == origins + Origins(trackNo, charpos) + [Origin(trackNo, charpos)] by {
      LemmaOrigins(trackNo, charpos);
    }
    LemmaPut(ty, stream + from[..charpos], origins + Origins(trackNo, charpos), |done|, sbuf[|done|..], tp, p,
             from[charpos], Origin(trackNo, charpos));
  }

  lemma LemmaOrigins(trackNo: nat, n: nat)
    ensures Origins(trackNo, n + 1) == Origins(trackNo, n) + [Origin(trackNo, n)]
  {
  }

  lemma LemmaFillingFull(ty: nat, stream: seq<Byte>, origins: seq<Origin>, done: seq<Pack>, sbuf: seq<Pack>, tp: Pack,
                         next: Origin)
    requires Filling(ty, stream, origins, done, sbuf, tp, TEXT_SIZE, next)
    ensures done <= sbuf + [FillCrc(tp)]
    ensures Packed(ty, stream, origins, |done|, (sbuf + [FillCrc(tp)])[|done|..], EMPTY, 0)
  {
    hide FillCrc;
    assert (sbuf + [FillCrc(tp)])[|done|..] == sbuf[|done|..] + [FillCrc(tp)];
    LemmaFinish(ty, stream, origins, |done|, sbuf[|done|..], tp, TEXT_SIZE,
                tp.(text := tp.text[..TEXT_SIZE] + Zeros(0)));
    assert tp.text[..TEXT_SIZE] + Zeros(0) == tp.text;
  }

  /** When the last pack is filled up, or none is open, the packs are the ones of the stream. */
  lemma LemmaFilledUp(ty: nat, stream: seq<Byte>, origins: seq<Origin>, base: nat, packs: seq<Pack>, q: Pack, n: nat)
    requires Packed(ty, stream, origins, base, packs, q, n) && n < TEXT_SIZE
    ensures n == 0 ==> packs == PacksOf(ty, stream, origins, base)
    ensures n > 0 ==> packs + [FillCrc(q.(text := q.text[..n] + Zeros(TEXT_SIZE - n)))]
                      == PacksOf(ty, stream, origins, base)
  {
    hide FillCrc, PackAt;
    if n > 0 {
      LemmaFinish(ty, stream, origins, base, packs, q, n, q.(text := q.text[..n] + Zeros(TEXT_SIZE - n)));
    }
  }

  /** txtarg_t: the packs already finished, the one being filled, where its next character goes (-1 for NULL), the next
      sequence number, and the numbers of packs for the sizes. */
  class TxtArg {
    var sbuf: seq<Pack>
    var tp: Pack
    var p: int
    var seqno: nat
    var packCount: seq<nat>

    constructor ()
      ensures sbuf == [] && tp == EMPTY && p == -1 && seqno == 0
      ensures packCount == seq(16, ty requires 0 <= ty < 16 => if ty == 15 then 3 else 0)
    {
      sbuf, tp, p, seqno := [], EMPTY, -1, 0;
      packCount := seq(16, ty requires 0 <= ty < 16 => if ty == 15 then 3 else 0);
    }

    /** The packs `done`, and after them what there is so far of the stream of one type. */
    ghost predicate Holds(done: seq<Pack>, ty: nat, stream: seq<Byte>, origins: seq<Origin>)
      reads this
    {
      && p != 0
      && -1 <= p < TEXT_SIZE
      && seqno == |sbuf| + (if p < 0 then 0 else 1)
      && done <= sbuf
      && |packCount| == 16
      && Packed(ty, stream, origins, |done|, sbuf[|done|..], tp, if p < 0 then 0 else p)
    }

    /** Start a pack. */
    method StartPack(packType: nat, trackNo: nat, charpos: nat)
      requires p < 0 && seqno == |sbuf| && |packCount| == 16
      modifies this
      ensures p == 0 && seqno == |sbuf| + 1 && sbuf == old(sbuf)
      ensures tp.text == old(tp.text) && Headed(tp, packType, |sbuf|, Origin(trackNo, charpos))
      ensures packCount == Counted(old(packCount), packType, 1)
    {
      p := 0;
      tp := tp.(packType := packType);
      if packType != SIZE_TYPE {
        packCount := packCount[packType % 16 := packCount[packType % 16] + 1];
      }
      tp := tp.(trackNo := trackNo);
      tp := tp.(seqNumber := seqno);
      seqno := seqno + 1;
      if charpos < 15 {
        tp := tp.(blockNumber := charpos);
      } else {
        tp := tp.(blockNumber := 15);
      }
    }

    /** fillpacks: put a string into the packs, finishing those that get full. */
    method FillPacks(from: seq<Byte>, trackNo: nat, packType: nat,
                     ghost done: seq<Pack>, ghost stream: seq<Byte>, ghost origins: seq<Origin>)
      requires |from| > 0 && Holds(done, packType, stream, origins)
      modifies this
      ensures Holds(done, packType, stream + from, origins + Origins(trackNo, |from|))
      ensures seqno >= old(seqno) && packCount == Counted(old(packCount), packType, seqno - old(seqno))
    {
      hide FillCrc, PackAt, Packed, Origins, Filling;
      var charpos: nat, len: nat := 0, |from|;
      assert stream + from[..0] == stream && origins + Origins(trackNo, 0) == origins;
      while len > 0
        invariant charpos + len == |from|
        invariant Holds(done, packType, stream + from[..charpos], origins + Origins(trackNo, charpos))
        invariant seqno >= old(seqno) && packCount == Counted(old(packCount), packType, seqno - old(seqno))
      {
        charpos, len := FillOnePack(from, charpos, len, trackNo, packType, done, stream, origins);
      }
      assert from[..charpos] == from;
    }

    /** One round of fillpacks: open a pack unless one is open, and put what fits into it. */
    method FillOnePack(from: seq<Byte>, charpos0: nat, len0: nat, trackNo: nat, packType: nat,
                       ghost done: seq<Pack>, ghost stream: seq<Byte>, ghost origins: seq<Origin>)
      returns (charpos: nat, len: nat)
      requires charpos0 + len0 == |from| && len0 > 0
      requires Holds(done, packType, stream + from[..charpos0], origins + Origins(trackNo, charpos0))
      modifies this
      ensures charpos + len == |from| && len < len0
      ensures Holds(done, packType, stream + from[..charpos], origins + Origins(trackNo, charpos))
      ensures seqno >= old(seqno) && packCount == Counted(old(packCount), packType, seqno - old(seqno))
    {
      hide FillCrc, PackAt, Origins;
      charpos := charpos0;
      ghost var tp0 := tp;
      if p < 0 {
        StartPack(packType, trackNo, charpos);
        LemmaFillingStart(packType, stream + from[..charpos], origins + Origins(trackNo, charpos), done, sbuf, tp0, tp,
                          Origin(trackNo, charpos));
      }
      ghost var sbuf0, seqno0, count0 := sbuf, seqno, packCount;
      hide Packed, Filling, Headed;
      var len1 := len0 - 1;
      while len1 >= 0 && p < TEXT_SIZE
        invariant charpos0 <= charpos && charpos + len1 + 1 == |from| && -1 <= len1
        invariant charpos == charpos0 ==> p < TEXT_SIZE
        invariant 0 <= p <= TEXT_SIZE && |tp.text| == TEXT_SIZE
        invariant charpos > charpos0 ==> p > 0
        invariant sbuf == sbuf0 && seqno == seqno0 && packCount == count0
        invariant Filling(packType, stream + from[..charpos], origins + Origins(trackNo, charpos), done, sbuf, tp, p,
                          Origin(trackNo, charpos))
      {
        LemmaFillingPut(packType, stream, origins, done, sbuf, tp, p, trackNo, from, charpos);
        tp := tp.(text := tp.text[p := from[charpos]]);
        p := p + 1;
        charpos := charpos + 1;
        len1 := len1 - 1;
      }
      len := len1 + 1;
      if p >= TEXT_SIZE {
        LemmaFillingFull(packType, stream + from[..charpos], origins + Origins(trackNo, charpos), done, sbuf, tp,
                         Origin(trackNo, charpos));
        NextPack();
      } else {
        LemmaFillingOpen(packType, stream + from[..charpos], origins + Origins(trackNo, charpos), done, sbuf, tp, p,
                         Origin(trackNo, charpos));
      }
    }

    /** fillcrc, and on to the next pack of the zeroed buffer. */
    method NextPack()
      modifies this
      ensures sbuf == old(sbuf) + [FillCrc(old(tp))] && p == -1 && tp == EMPTY
      ensures seqno == old(seqno) && packCount == old(packCount)
    {
      sbuf := sbuf + [FillCrc(tp)];
      p := -1;
      tp := EMPTY;
    }

    /** fillup_pack. */
    method FillupPack(ghost done: seq<Pack>, ghost packType: nat, ghost stream: seq<Byte>, ghost origins: seq<Origin>)
      requires Holds(done, packType, stream, origins)
      modifies this
      ensures |origins| == |stream| && sbuf == done + PacksOf(packType, stream, origins, |done|)
      ensures p == -1 && seqno == old(seqno) == |sbuf| && packCount == old(packCount) && |tp.text| == TEXT_SIZE
    {
      hide FillCrc, PacksOf;
      LemmaFilledUp(packType, stream, origins, |done|, sbuf[|done|..], tp, if p < 0 then 0 else p);
      hide Packed;
      if p >= 0 {
        tp := tp.(text := tp.text[..p] + Zeros(TEXT_SIZE - p));
        NextPack();
      }
    }
  }

  lemma LemmaFillingOpen(ty: nat, stream: seq<Byte>, origins: seq<Origin>, done: seq<Pack>, sbuf: seq<Pack>, tp: Pack,
                         p: int, next: Origin)
    requires Filling(ty, stream, origins, done, sbuf, tp, p, next)
    ensures done <= sbuf && 0 <= p && Packed(ty, stream, origins, |done|, sbuf[|done|..], tp, p)
  {
  }

  lemma LemmaFresh(ty: nat, base: nat, q: Pack)
    requires |q.text| == TEXT_SIZE
    ensures Packed(ty, [], [], base, [], q, 0)
  {
  }

  /** What a type with text adds to the counts. */
  lemma LemmaCounts(job: Job, ty: nat, base: nat, k: nat)
    requires job.Valid() && ty < 15 && HasText(job.texts, ty, job.tracks)
    requires k == |job.TypePacks(ty, base)|
    ensures Counted(job.Counts(ty), 0x80 + ty, k) == job.Counts(ty + 1)
  {
    hide PacksOf, Stream, Strings, HasText;
  }

  lemma LemmaNoCounts(job: Job, ty: nat)
    requires job.Valid() && ty < 15 && !HasText(job.texts, ty, job.tracks)
    ensures job.Counts(ty) == job.Counts(ty + 1)
  {
    hide PacksOf, Stream, Strings, HasText;
  }

  lemma LemmaStringsNext(texts: seq<TrackText>, ty: nat, i: nat)
    requires WellFormed(texts) && ty < 16 && i < |texts|
    ensures Strings(texts, ty, i + 1) == Strings(texts, ty, i) + [StringOf(texts[i], ty)]
  {
    hide StringOf;
  }

  /** anytext. */
  method AnyText(packType: nat, tracks: nat, texts: seq<TrackText>) returns (any: bool)
    requires WellFormed(texts) && packType < 16 && tracks < |texts|
    ensures any <==> HasText(texts, packType, tracks)
  {
    for i := 0 to tracks + 1
      invariant forall j | 0 <= j < i :: StringOf(texts[j], packType) == []
    {
      if texts[i].NoText? {
        continue;
      }
      var p := texts[i].codes[packType];
      if p.Str? && p.chars != [] {
        assert StringOf(texts[i], packType) != [];
        return true;
      }
    }
    return false;
  }

  /** The strings of one type: the loop over the tracks and fillup_pack, lines 338 to 352. */
  method PackType(targ: TxtArg, job: Job, ty: nat)
    requires job.Valid() && ty < 15 && HasText(job.texts, ty, job.tracks)
    requires targ.p == -1 && |targ.tp.text| == TEXT_SIZE && targ.seqno == |targ.sbuf| && |targ.packCount| == 16
    modifies targ
    ensures targ.p == -1 && |targ.tp.text| == TEXT_SIZE && targ.seqno == |targ.sbuf|
    ensures targ.sbuf == old(targ.sbuf) + job.TypePacks(ty, |old(targ.sbuf)|)
    ensures targ.packCount == Counted(old(targ.packCount), 0x80 + ty, |targ.sbuf| - |old(targ.sbuf)|)
  {
    hide HasText, PacksOf, Stream, StreamOrigins, Strings, FillCrc, Packed, StringOf, WellFormed;
    ghost var done := targ.sbuf;
    var maxtrk := job.LastTrack();
    if ty == 6 {
      maxtrk := 0;
    }
    ghost var strings: seq<seq<Byte>> := [];
    LemmaFresh(0x80 + ty, |done|, targ.tp);
    LemmaNoStrings(job.texts, ty);
    assert targ.sbuf[|done|..] == [];
    var i := 0;
    while i <= maxtrk
      invariant 0 <= i <= maxtrk + 1
      invariant strings == Strings(job.texts, ty, i)
      invariant targ.Holds(done, 0x80 + ty, Stream(strings), StreamOrigins(strings, 0))
      invariant targ.seqno >= |done|
      invariant targ.packCount == Counted(old(targ.packCount), 0x80 + ty, targ.seqno - |done|)
    {
      LemmaCodes(job.texts, i, ty);
      var s := StringOf(job.texts[i], ty);
      LemmaStringsNext(job.texts, ty, i);
      LemmaStreamAppend(strings, s);
      LemmaOriginsAppend(strings, s, 0);
      targ.FillPacks(s + [0], i, 0x80 + ty, done, Stream(strings), StreamOrigins(strings, 0));
      strings := strings + [s];
      i := i + 1;
    }
    targ.FillupPack(done, 0x80 + ty, Stream(strings), StreamOrigins(strings, 0));
  }

  lemma LemmaCodes(texts: seq<TrackText>, i: nat, ty: nat)
    requires WellFormed(texts) && ty < 16 && i < |texts|
    ensures texts[i].Text? ==> ty < |texts[i].codes|
  {
  }

  lemma LemmaNoStrings(texts: seq<TrackText>, ty: nat)
    requires WellFormed(texts) && ty < 16
    ensures Strings(texts, ty, 0) == [] && Stream([]) == [] && StreamOrigins([], 0) == []
  {
  }

  /** The three size packs, lines 360 to 362. */
  method PackSizes(targ: TxtArg, bytes: seq<Byte>)
    requires |bytes| == 36
    requires targ.p == -1 && |targ.tp.text| == TEXT_SIZE && targ.seqno == |targ.sbuf| && |targ.packCount| == 16
    modifies targ
    ensures targ.sbuf == old(targ.sbuf) + PacksOf(SIZE_TYPE, bytes, SizeOrigins(), |old(targ.sbuf)|)
    ensures targ.seqno == |targ.sbuf|
  {
    hide FillCrc, PacksOf, Packed, Origins;
    ghost var done := targ.sbuf;
    ghost var o: seq<Origin> := [];
    LemmaFresh(SIZE_TYPE, |done|, targ.tp);
    assert targ.sbuf[|done|..] == [] && bytes[..0] == [];
    var i := 0;
    while i < 3
      invariant 0 <= i <= 3
      invariant i == 0 ==> o == []
      invariant i == 1 ==> o == Origins(0, 12)
      invariant i == 2 ==> o == Origins(0, 12) + Origins(1, 12)
      invariant i == 3 ==> o == SizeOrigins()
      invariant targ.Holds(done, SIZE_TYPE, bytes[..12 * i], o)
    {
      targ.FillPacks(bytes[12 * i..12 * i + 12], i, SIZE_TYPE, done, bytes[..12 * i], o);
      assert bytes[..12 * i] + bytes[12 * i..12 * i + 12] == bytes[..12 * (i + 1)];
      o := o + Origins(i, 12);
      i := i + 1;
    }
    assert bytes[..36] == bytes;
    LemmaFilledUp(SIZE_TYPE, bytes, o, |done|, targ.sbuf[|done|..], targ.tp, if targ.p < 0 then 0 else targ.p);
    LemmaWhole(SIZE_TYPE, bytes, o, |done|, targ.sbuf[|done|..], targ.tp, if targ.p < 0 then 0 else targ.p);
  }

  /** A stream of whole packs leaves no pack open. */
  lemma LemmaWhole(ty: nat, stream: seq<Byte>, origins: seq<Origin>, base: nat, packs: seq<Pack>, q: Pack, n: nat)
    requires Packed(ty, stream, origins, base, packs, q, n) && n < TEXT_SIZE && |stream| % TEXT_SIZE == 0
    ensures n == 0
  {
  }

  /** packtext. */
  method PackText(job: Job) returns (sbuf: seq<Pack>, len: nat)
    requires job.Valid() && |job.AllPacks()| <= MAX_PACKS
    ensures sbuf == job.AllPacks() && len == PACK_SIZE * |sbuf|
  {
    hide PacksOf, Stream, StreamOrigins, Strings, HasText, SizeBytes, WellFormed, Counted, SizeOrigins;
    var targ := new TxtArg();
    var ty := 0;
    while ty <= 0x0E
      invariant 0 <= ty <= 0x0F
      invariant fresh(targ)
      invariant targ.p == -1 && |targ.tp.text| == TEXT_SIZE && targ.seqno == |targ.sbuf|
      invariant targ.sbuf == job.TextPacks(ty) && targ.packCount == job.Counts(ty)
    {
      var any := AnyText(ty, job.tracks, job.texts);
      if any {
        ghost var base := |targ.sbuf|;
        PackType(targ, job, ty);
        LemmaCounts(job, ty, base, |targ.sbuf| - base);
      } else {
        LemmaNoCounts(job, ty);
        assert job.TypePacks(ty, |targ.sbuf|) == [];
      }
      ty := ty + 1;
    }
    var last := targ.seqno + 2;
    PackSizes(targ, SizeBytes(job.first, job.LastTrack(), targ.packCount, last));
    sbuf, len := targ.sbuf, targ.seqno * 18;
  }
}
