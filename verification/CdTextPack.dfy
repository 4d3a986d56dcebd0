/** CD-Text packing (cdrecord/cdtext.c): the strings of one pack type, each with its terminating NUL, are laid end to end
    into the 12-byte text fields of packs (Annex J of MMC-3). */
module CdTextPack {
  import opened Common
  import opened CdTextCrc
  import opened CdTextCorrection

  const TEXT_SIZE := 12
  const MAX_PACKS := 256

  /** struct textpack. */
  datatype Pack = Pack(packType: nat, trackNo: nat, seqNumber: nat, blockNumber: nat, text: seq<Byte>, crc: seq<Byte>)

  const EMPTY := Pack(0, 0, 0, 0, Zeros(12), Zeros(2))

  function LowByte(n: nat): Byte {
    (n % 256) as bv8
  }

  function Header(p: Pack): (h: seq<Byte>)
    ensures |h| == 4
  {
    [LowByte(p.packType), LowByte(p.trackNo), LowByte(p.seqNumber), LowByte(p.blockNumber)]
  }

  /** The 18 bytes of a pack. */
  function PackBytes(p: Pack): seq<Byte> {
    Header(p) + p.text + p.crc
  }

  /** fillcrc. */
  function FillCrc(p: Pack): (q: Pack)
    ensures q.text == p.text && q.packType == p.packType && q.trackNo == p.trackNo
    ensures q.seqNumber == p.seqNumber && q.blockNumber == p.blockNumber
  {
    var c := Crc(0, Header(p) + p.text);
    p.(crc := [Toggle((c >> 8) as bv8, 0xFF), Toggle((c & 0xFF) as bv8, 0xFF)])
  }

  lemma LemmaFillCrc(p: Pack, c: seq<Byte>)
    ensures FillCrc(p.(crc := c)) == FillCrc(p)
  {
    hide Crc, Toggle, LowByte;
    assert Header(p.(crc := c)) == Header(p);
  }

  /** What fillcrc completes, cdtext_crc_ok accepts unchanged. */
  lemma FilledPackPasses(p: Pack)
    requires |p.text| == TEXT_SIZE
    ensures |PackBytes(FillCrc(p))| == PACK_SIZE && Correct(PackBytes(FillCrc(p)))
  {
    hide Crc, Toggle, LowByte, Correct, Header;
    var s := Header(p) + p.text;
    var hi, lo := (Crc(0, s) >> 8) as bv8, (Crc(0, s) & 0xFF) as bv8;
    FilledPackIsCorrect(s, hi, lo);
    LemmaHeader(p);
    LemmaPackBytes(p, hi, lo);
  }

  lemma LemmaPackBytes(p: Pack, hi: Byte, lo: Byte)
    requires hi == (Crc(0, Header(p) + p.text) >> 8) as bv8 && lo == (Crc(0, Header(p) + p.text) & 0xFF) as bv8
    ensures PackBytes(FillCrc(p)) == Header(FillCrc(p)) + p.text + [Toggle(hi, 0xFF), Toggle(lo, 0xFF)]
  {
    hide Crc, Toggle, LowByte, Header;
  }

  lemma LemmaHeader(p: Pack)
    ensures Header(FillCrc(p)) == Header(p)
  {
  }

  // ----- the packs of one type, as a function of its strings

  /** Where a character comes from: its track, and how many characters of that track's string precede it. */
  datatype Origin = Origin(track: nat, offset: nat)

  function Origins(track: nat, n: nat): (o: seq<Origin>)
    ensures |o| == n
  {
    seq(n, j requires 0 <= j => Origin(track, j))
  }

  /** Twelve characters from `at` on, filled up with NULs. */
  function Text12(stream: seq<Byte>, at: nat): (t: seq<Byte>)
    ensures |t| == TEXT_SIZE
  {
    seq(TEXT_SIZE, j requires 0 <= j => if at + j < |stream| then stream[at + j] else 0)
  }

  function Position(offset: nat): nat {
    if offset < 15 then offset else 15
  }

  /** Pack k of a type whose packs start at number base. */
  function PackAt(ty: nat, stream: seq<Byte>, origins: seq<Origin>, base: nat, k: nat): Pack
    requires |origins| == |stream| && TEXT_SIZE * k < |stream|
  {
    var o := origins[TEXT_SIZE * k];
    FillCrc(Pack(ty, o.track, base + k, Position(o.offset), Text12(stream, TEXT_SIZE * k), Zeros(2)))
  }

  /** How many packs a stream takes. */
  function PackCount(n: nat): nat {
    (n + 11) / TEXT_SIZE
  }

  function PacksOf(ty: nat, stream: seq<Byte>, origins: seq<Origin>, base: nat): (p: seq<Pack>)
    requires |origins| == |stream|
    ensures |p| == PackCount(|stream|)
  {
    seq(PackCount(|stream|), k requires 0 <= k < PackCount(|stream|) => PackAt(ty, stream, origins, base, k))
  }

  lemma LemmaPackAtStable(ty: nat, stream: seq<Byte>, origins: seq<Origin>, c: Byte, o: Origin, base: nat, k: nat)
    requires |origins| == |stream| && TEXT_SIZE * (k + 1) <= |stream|
    ensures PackAt(ty, stream + [c], origins + [o], base, k) == PackAt(ty, stream, origins, base, k)
  {
    hide FillCrc;
    assert Text12(stream + [c], TEXT_SIZE * k) == Text12(stream, TEXT_SIZE * k);
  }

  /** The packs of a type while it is being packed: q is the unfinished one, with n characters. */
  ghost predicate Packed(ty: nat, stream: seq<Byte>, origins: seq<Origin>, base: nat, packs: seq<Pack>, q: Pack, n: nat) {
    && n <= TEXT_SIZE && |q.text| == TEXT_SIZE
    && |origins| == |stream| == TEXT_SIZE * |packs| + n
    && (forall k: nat | k < |packs| :: packs[k] == PackAt(ty, stream, origins, base, k))
    && (n > 0 ==> Headed(q, ty, base + |packs|, origins[TEXT_SIZE * |packs|]))
    && q.text[..n] == stream[TEXT_SIZE * |packs|..]
  }

  /** The header of a pack whose first character has this origin. */
  ghost predicate Headed(q: Pack, ty: nat, seqno: nat, o: Origin) {
    q.packType == ty && q.trackNo == o.track && q.seqNumber == seqno && q.blockNumber == Position(o.offset)
  }

  lemma LemmaPut(ty: nat, stream: seq<Byte>, origins: seq<Origin>, base: nat, packs: seq<Pack>, q: Pack, n: nat,
                 c: Byte, o: Origin)
    requires Packed(ty, stream, origins, base, packs, q, n) && n < TEXT_SIZE
    requires n == 0 ==> Headed(q, ty, base + |packs|, o)
    ensures Packed(ty, stream + [c], origins + [o], base, packs, q.(text := q.text[n := c]), n + 1)
  {
    hide PackAt;
    forall k: nat | k < |packs|
      ensures packs[k] == PackAt(ty, stream + [c], origins + [o], base, k)
    {
      LemmaPackAtStable(ty, stream, origins, c, o, base, k);
    }
    assert q.text[n := c][..n + 1] == q.text[..n] + [c];
    assert (stream + [c])[TEXT_SIZE * |packs|..] == stream[TEXT_SIZE * |packs|..] + [c];
  }

  /** A full pack, or one filled up with NULs. */
  lemma LemmaFinish(ty: nat, stream: seq<Byte>, origins: seq<Origin>, base: nat, packs: seq<Pack>, q: Pack, n: nat, r: Pack)
    requires Packed(ty, stream, origins, base, packs, q, n) && n > 0
    requires r == q.(text := q.text[..n] + Zeros(TEXT_SIZE - n))
    ensures FillCrc(r) == PackAt(ty, stream, origins, base, |packs|)
    ensures n == TEXT_SIZE ==> forall q': Pack | |q'.text| == TEXT_SIZE ::
                                 Packed(ty, stream, origins, base, packs + [FillCrc(r)], q', 0)
  {
    hide FillCrc;
    assert r.text == Text12(stream, TEXT_SIZE * |packs|);
    LemmaFillCrc(r, Zeros(2));
  }
}
