/** From the strings to the subchannel: packtext and setuptextdata together. */
module CdTextSubchannel {
  import opened CdTextPack
  import opened CdTextPacker
  import opened CdTextReader
  import opened Common
  import opened Subchannel

  /** Whole sectors of 6-bit values that decode to whole repetitions of packs from which a reader gets all strings back. */
  ghost predicate Sends(t: seq<Byte>, job: Job)
    requires job.Valid()
  {
    && |t| % SECTOR_SIZE == 0 && |t| % 4 == 0 && SixBits(t)
    && exists b: seq<Byte> :: ReadsBack(b, job) && Decoded(t) == Repeated(b, Times(|b| / PACK_SIZE))
  }

  method SendPacks(sbuf: seq<Pack>, len: nat) returns (textsub: array<Byte>, textlen: nat)
    requires len == |InMemory(sbuf)| == PACK_SIZE * |sbuf|
    ensures fresh(textsub) && textlen == textsub.Length && textlen % SECTOR_SIZE == 0 && textlen % 4 == 0
    ensures SixBits(textsub[..])
    ensures Decoded(textsub[..]) == Repeated(InMemory(sbuf), Times(|sbuf|))
  {
    hide InMemory, Repeated, Decoded, Sent, Recoded;
    var bytes := InMemory(sbuf);
    var bp := new Byte[|bytes|](i requires 0 <= i < |bytes| => bytes[i]);
    assert bp[..len] == bytes;
    textsub, textlen := SetupTextData(bp, len);
    SubchannelDecodes(bytes);
    assert len / PACK_SIZE == |sbuf|;
  }

  /** What packtext leaves in textsub. */
  method PackIntoSubchannel(job: Job) returns (textsub: array<Byte>, textlen: nat)
    requires job.Valid() && |job.AllPacks()| <= MAX_PACKS
    ensures fresh(textsub) && textlen == textsub.Length && Sends(textsub[..], job)
  {
    hide InMemory, Repeated, Decoded, ReadsBack, Times;
    var sbuf, len := PackText(job);
    BytesReadBack(job);
    textsub, textlen := SendPacks(sbuf, len);
    assert |InMemory(sbuf)| / PACK_SIZE == |sbuf|;
  }
}
