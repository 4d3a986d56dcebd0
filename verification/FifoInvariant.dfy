/** The slot invariant of the FIFO and its preservation by every action of either process. */
module FifoInvariant {
  import opened Common
  import opened FifoLayout
  import opened Ring
  import opened Fifo

  // ----- the invariant

  /** Segments already published to the drainer: `owner` is set before `users` and `puts`. */
  ghost function Published(s: State): nat {
    if s.fpc in {FUsers, FPuts} then s.fpos + 1 else s.fpos
  }

  ghost predicate Lent(s: State) {
    |s.got| == s.rel + 1
  }

  ghost function SegmentBytes(c: Config, s: State, k: nat): seq<Byte>
    requires c.n > 0 && k < |c.script|
  {
    Slice(s.mem, Addr(c, Ix(c.n, k)), Bytes(c.script[k].len))
  }

  ghost predicate Stored(c: Config, s: State, k: nat)
    requires TypeOk(c, s) && k < |c.script|
  {
    var f, g := s.slots[Ix(c.n, k)], c.script[k];
    && f.fd == g.fd && f.len == g.len && f.errno == g.errno
    && SegmentBytes(c, s, k) == g.bytes
  }

  ghost predicate Filling(s: State) {
    s.fpc in {FFill, FLen, FErrno, FOwner}
  }

  /** What has been stored so far of the segment being filled. */
  ghost predicate PartlyStored(c: Config, s: State)
    requires TypeOk(c, s) && s.fpos < |c.script|
  {
    var f, g := s.slots[Ix(c.n, s.fpos)], c.script[s.fpos];
    && f.fd == g.fd
    && (s.fpc in {FLen, FErrno, FOwner} ==> SegmentBytes(c, s, s.fpos) == g.bytes)
    && (s.fpc in {FErrno, FOwner} ==> f.len == g.len)
    && (s.fpc == FOwner ==> f.errno == g.errno)
  }

  /** Ring place k, rel <= k < rel + n: published segments are stored and reader-owned (faio-owned when lent), the
      rest are writer-owned. Only the last slot can differ, after faio_reader's final hand-over. */
  ghost predicate PlaceOk(c: Config, s: State, k: nat)
    requires TypeOk(c, s)
  {
    var f := s.slots[Ix(c.n, k)];
    && f.users <= 1
    && (s.rescued && k == c.n - 1 ==> f.owner == OwnerReader || (k < Published(s) && k == s.rel && Lent(s)))
    && (k < Published(s) ==>
          && k < |c.script|
          && Stored(c, s, k)
          && (!(s.rescued && k == c.n - 1) ==> f.owner == if k == s.rel && Lent(s) then OwnerFaio else OwnerReader)
          && (f.owner == OwnerFaio ==> k == s.rel && Lent(s))
          && f.owner != OwnerWriter)
    && (Published(s) <= k ==>
          && (!(s.rescued && k == c.n - 1) ==> f.owner == OwnerWriter)
          && (k < c.n && !(k == s.fpos && Filling(s)) ==> f.fd == -1 && f.len == 0))
  }

  ghost predicate Places(c: Config, s: State)
    requires TypeOk(c, s)
  {
    forall k: nat | s.rel <= k < s.rel + c.n :: PlaceOk(c, s, k)
  }

  ghost predicate DrainerOk(c: Config, s: State)
    requires TypeOk(c, s)
  {
    && (s.dpc == DAwait ==> s.got == [])
    && (s.dpc == DIdle ==> s.got == [] || Lent(s))
    && (s.dpc == DRelease ==> Lent(s))
    && (s.dpc in {DWait, DLen, DFd, DGets, DUsers, DUsersWrite, DLend, DFatal} ==> !Lent(s))
    && (s.dpc in {DLen, DFd, DGets, DUsers, DUsersWrite, DLend, DFatal} ==> s.rel < Published(s))
    && (s.dpc in {DFd, DGets, DUsers, DUsersWrite, DLend} && s.rel < |c.script| ==> s.len == c.script[s.rel].len)
    && (s.dpc in {DGets, DUsers, DUsersWrite, DLend} && s.rel < |c.script| ==>
          s.askFd == c.script[s.rel].fd && s.len <= s.askSize)
    && (s.dpc in {DUsers, DUsersWrite, DLend} || Lent(s) ==> s.bufp == Addr(c, s.idx))
    && (s.dpc in {DUsersWrite, DLend} ==> s.users <= 0)
    && s.gets == |s.got| + (if s.dpc in {DUsers, DUsersWrite, DLend} then 1 else 0)
    && (c.bounded && s.dpc !in {DAwait, DIdle} ==> |s.got| < |c.script|)
  }

  ghost predicate FillerOk(c: Config, s: State)
    requires TypeOk(c, s)
  {
    && s.puts == s.fpos
    && s.done == (if s.fpc in {FReadGets, FRescue, FExit} then 1 else 0)
    && (s.fpc in {FDone, FReadGets, FRescue, FExit} ==> s.fpos == |c.script|)
    && (s.fpc in {FFd, FFill, FLen, FErrno, FOwner} ==> s.fpos < s.rel + c.n)
    && (Filling(s) ==> PartlyStored(c, s))
    && (s.fpc == FRescue || s.rescued ==> |c.script| <= c.n)
    && (s.rescued ==> s.fpc == FExit)
    && (s.fpc == FExit && s.dpc == DAwait ==> s.rescued)
  }

  ghost predicate Inv(c: Config, s: State) {
    && TypeOk(c, s)
    && s.idx == Ix(c.n, s.rel)
    && s.idxReader == Ix(c.n, s.fpos)
    && s.rel <= |s.got| <= s.rel + 1
    && |s.got| <= Published(s) <= s.rel + c.n
    && Published(s) <= |c.script|
    && s.got == c.script[..|s.got|]
    && Places(c, s)
    && DrainerOk(c, s)
    && FillerOk(c, s)
  }

  /** Without a bound on the calls, the final hand-over is harmless for exactly these script lengths. */
  ghost predicate Safe(c: Config) {
    c.bounded || (|c.script| != c.n && |c.script| != c.n - 1)
  }

  // ----- memory

  lemma LemmaWriteSlice(mem: seq<Byte>, at: nat, bytes: seq<Byte>, from: nat, n: nat)
    requires at + |bytes| <= |mem|
    requires at + |bytes| <= from || from + n <= at
    ensures Slice(Write(mem, at, bytes), from, n) == Slice(mem, from, n)
  {
    var w := Write(mem, at, bytes);
    if from + n <= |mem| {
      assert forall i | from <= i < from + n :: w[i] == mem[i];
    }
  }

  lemma LemmaWriteHere(mem: seq<Byte>, at: nat, bytes: seq<Byte>)
    requires at + |bytes| <= |mem|
    ensures Slice(Write(mem, at, bytes), at, |bytes|) == bytes
  {
  }

  /** Storing at most one transfer buffer into slot i's segment leaves every other slot's segment alone. */
  lemma LemmaSegmentFrame(c: Config, mem: seq<Byte>, i: nat, bytes: seq<Byte>, j: nat, n: nat)
    requires ValidConfig(c) && |mem| == c.memLen && i < c.n && j < c.n && i != j && |bytes| <= c.size && n <= c.size
    ensures Addr(c, i) + |bytes| <= |mem|
    ensures Slice(Write(mem, Addr(c, i), bytes), Addr(c, j), n) == Slice(mem, Addr(c, j), n)
  {
    assert Addr(c, i) + c.stride <= c.memLen;
    if i < j {
      assert Addr(c, i) + c.stride <= Addr(c, j);
    } else {
      assert Addr(c, j) + c.stride <= Addr(c, i);
    }
    LemmaWriteSlice(mem, Addr(c, i), bytes, Addr(c, j), n);
  }

  // ----- preservation

  lemma InitInv(c: Config, s: State)
    requires ValidConfig(c) && Init(c, s)
    ensures Inv(c, s)
  {
  }

  /** A place stays as it was when its slot, its bytes and everything it is compared with stay as they were. */
  lemma LemmaPlaceFrame(c: Config, s: State, t: State, k: nat)
    requires TypeOk(c, s) && TypeOk(c, t) && PlaceOk(c, s, k)
    requires t.slots[Ix(c.n, k)] == s.slots[Ix(c.n, k)]
    requires k < |c.script| ==> SegmentBytes(c, t, k) == SegmentBytes(c, s, k)
    requires t.rescued == s.rescued && t.rel == s.rel && Lent(t) == Lent(s)
    requires k < Published(t) <==> k < Published(s)
    requires k == s.fpos && Filling(s) ==> k == t.fpos && Filling(t)
    ensures PlaceOk(c, t, k)
  {
  }

  lemma LemmaPlacesFrame(c: Config, s: State, t: State)
    requires TypeOk(c, s) && TypeOk(c, t) && Places(c, s)
    requires t.slots == s.slots && t.mem == s.mem
    requires t.rescued == s.rescued && t.rel == s.rel && Lent(t) == Lent(s)
    requires Published(t) == Published(s)
    requires Filling(s) ==> t.fpos == s.fpos && Filling(t)
    ensures Places(c, t)
  {
    forall k: nat | t.rel <= k < t.rel + c.n
      ensures PlaceOk(c, t, k)
    {
      assert PlaceOk(c, s, k);
      LemmaPlaceFrame(c, s, t, k);
    }
  }

  lemma FillerWaitInv(c: Config, s: State, t: State)
    requires ValidConfig(c) && Inv(c, s) && FillerStep(c, s) == Some(t)
    requires s.fpc == FWait
    ensures Inv(c, t)
  {
    LemmaPlacesFrame(c, s, t);
    if s.fpos == s.rel + c.n {
      assert Ix(c.n, s.rel + c.n) == Ix(c.n, s.rel);
      assert PlaceOk(c, s, s.rel);
    }
  }

  lemma FillerPutsInv(c: Config, s: State, t: State)
    requires ValidConfig(c) && Inv(c, s) && FillerStep(c, s) == Some(t)
    requires s.fpc == FPuts
    ensures Inv(c, t)
  {
    LemmaIxStep(c.n, s.fpos);
    LemmaPlacesFrame(c, s, t);
  }

  lemma FillerDoneInv(c: Config, s: State, t: State)
    requires ValidConfig(c) && Inv(c, s) && FillerStep(c, s) == Some(t)
    requires s.fpc in {FDone, FReadGets}
    ensures Inv(c, t)
  {
    LemmaPlacesFrame(c, s, t);
  }

  /** The filler writes one field of the slot it owns; the other places are untouched. */
  lemma LemmaFillerPlaces(c: Config, s: State, t: State)
    requires ValidConfig(c) && Inv(c, s) && FillerStep(c, s) == Some(t)
    requires s.fpc in {FFd, FLen, FErrno, FOwner}
    ensures TypeOk(c, t) && Places(c, t)
  {
    hide Ix, Slice, Write, Addr;
    forall k: nat | t.rel <= k < t.rel + c.n
      ensures PlaceOk(c, t, k)
    {
      assert PlaceOk(c, s, k);
      if k != s.fpos {
        if Ix(c.n, k) == Ix(c.n, s.fpos) {
          LemmaIxSame(c.n, k, s.fpos);
        }
        LemmaPlaceFrame(c, s, t, k);
      }
    }
  }

  lemma FillerSlotInv(c: Config, s: State, t: State)
    requires ValidConfig(c) && Inv(c, s) && FillerStep(c, s) == Some(t)
    requires s.fpc in {FFd, FLen, FErrno, FOwner}
    ensures Inv(c, t)
  {
    LemmaFillerPlaces(c, s, t);
  }

  /** The late write of `users`: by then the drainer may have returned the slot, lent it, or given it back. */
  lemma FillerUsersInv(c: Config, s: State, t: State)
    requires ValidConfig(c) && Inv(c, s) && FillerStep(c, s) == Some(t)
    requires s.fpc == FUsers
    ensures Inv(c, t)
  {
    forall k: nat | t.rel <= k < t.rel + c.n
      ensures PlaceOk(c, t, k)
    {
      assert PlaceOk(c, s, k);
    }
  }

  /** fill_buf stores the segment, or anything at all on the way there. */
  lemma FillerStoreInv(c: Config, s: State, t: State, bytes: seq<Byte>)
    requires ValidConfig(c) && Inv(c, s) && s.fpc == FFill
    requires |bytes| <= c.size && Addr(c, s.idxReader) + |bytes| <= c.memLen
    requires
      || t == s.(mem := Write(s.mem, Addr(c, s.idxReader), bytes))
      || (t == s.(mem := Write(s.mem, Addr(c, s.idxReader), bytes), fpc := FLen) && bytes == c.script[s.fpos].bytes)
    ensures Inv(c, t)
  {
    hide Ix, Slice, Write;
    assert PlaceOk(c, s, s.fpos);
    forall k: nat | t.rel <= k < t.rel + c.n
      ensures PlaceOk(c, t, k)
    {
      assert PlaceOk(c, s, k);
      if k != s.fpos {
        if Ix(c.n, k) == Ix(c.n, s.fpos) {
          LemmaIxSame(c.n, k, s.fpos);
        }
        if k < |c.script| {
          assert ValidSegment(c.script[k], c.size);
          LemmaSegmentFrame(c, s.mem, s.idxReader, bytes, Ix(c.n, k), Bytes(c.script[k].len));
        }
        LemmaPlaceFrame(c, s, t, k);
      }
    }
    assert ValidSegment(c.script[s.fpos], c.size);
    LemmaWriteHere(s.mem, Addr(c, s.idxReader), bytes);
  }

  /** faio_reader's final hand-over of the last slot. */
  lemma FillerRescueInv(c: Config, s: State, t: State)
    requires ValidConfig(c) && Inv(c, s) && FillerStep(c, s) == Some(t)
    requires s.fpc == FRescue && s.rel < c.n
    ensures Inv(c, t)
  {
    hide Ix, Slice, Write, Addr;
    forall k: nat | t.rel <= k < t.rel + c.n
      ensures PlaceOk(c, t, k)
    {
      assert PlaceOk(c, s, k);
      LemmaLastIx(c.n, s.rel, k);
    }
  }

  lemma LemmaRescueInFirstLap(c: Config, s: State)
    requires ValidConfig(c) && Inv(c, s) && s.fpc == FRescue
    requires Safe(c) || |s.got| < |c.script| || s.dpc == DIdle
    ensures s.rel < c.n
  {
  }

  lemma FillerInv(c: Config, s: State, t: State)
    requires ValidConfig(c) && Inv(c, s)
    requires FillerStep(c, s) == Some(t) || Scribble(c, s, t)
    requires Safe(c) || |s.got| < |c.script| || s.dpc == DIdle
    ensures Inv(c, t)
  {
    if FillerStep(c, s) == Some(t) {
      match s.fpc
      case FWait => FillerWaitInv(c, s, t);
      case FFd => FillerSlotInv(c, s, t);
      case FFill =>
        assert ValidSegment(c.script[s.fpos], c.size);
        assert Addr(c, s.idxReader) + c.stride <= c.memLen;
        FillerStoreInv(c, s, t, c.script[s.fpos].bytes);
      case FLen => FillerSlotInv(c, s, t);
      case FErrno => FillerSlotInv(c, s, t);
      case FOwner => FillerSlotInv(c, s, t);
      case FUsers => FillerUsersInv(c, s, t);
      case FPuts => FillerPutsInv(c, s, t);
      case FDone => FillerDoneInv(c, s, t);
      case FReadGets => FillerDoneInv(c, s, t);
      case FRescue =>
        LemmaRescueInFirstLap(c, s);
        FillerRescueInv(c, s, t);
    } else {
      var junk: seq<Byte> :|
        && |junk| == c.size && Addr(c, s.idxReader) + c.size <= c.memLen
        && t == s.(mem := Write(s.mem, Addr(c, s.idxReader), junk));
      FillerStoreInv(c, s, t, junk);
    }
  }

  lemma DrainerAwaitInv(c: Config, s: State, t: State)
    requires ValidConfig(c) && Inv(c, s) && DrainerStep(c, s) == Some(t)
    requires s.dpc == DAwait
    ensures Inv(c, t)
  {
    LemmaPlacesFrame(c, s, t);
    assert PlaceOk(c, s, s.rel);
  }

  lemma DrainerLenInv(c: Config, s: State, t: State)
    requires ValidConfig(c) && Inv(c, s) && DrainerStep(c, s) == Some(t)
    requires s.dpc == DLen
    ensures Inv(c, t)
  {
    LemmaPlacesFrame(c, s, t);
    assert PlaceOk(c, s, s.rel);
  }

  lemma DrainerFdInv(c: Config, s: State, t: State)
    requires ValidConfig(c) && Inv(c, s) && DrainerStep(c, s) == Some(t)
    requires s.dpc == DFd
    ensures Inv(c, t)
  {
    hide Ix, Slice, Write, Addr;
    LemmaPlacesFrame(c, s, t);
    assert PlaceOk(c, s, s.rel);
    hide Places;
  }

  lemma DrainerCountInv(c: Config, s: State, t: State)
    requires ValidConfig(c) && Inv(c, s) && DrainerStep(c, s) == Some(t)
    requires s.dpc in {DGets, DUsers}
    ensures Inv(c, t)
  {
    LemmaPlacesFrame(c, s, t);
    assert PlaceOk(c, s, s.rel);
  }

  /** faio_get_buf's first test: a lent slot is faio-owned unless the final hand-over overwrote it. */
  lemma DrainerCheckInv(c: Config, s: State, t: State)
    requires ValidConfig(c) && Inv(c, s) && DrainerStep(c, s) == Some(t)
    requires s.dpc == DCheck && (Safe(c) || |s.got| < |c.script| || |c.script| < c.n)
    ensures Inv(c, t)
  {
    LemmaPlacesFrame(c, s, t);
    assert PlaceOk(c, s, s.rel);
  }

  /** A reader-owned slot at the drainer's index holds a segment, unless it was only handed over. */
  lemma DrainerWaitInv(c: Config, s: State, t: State)
    requires ValidConfig(c) && Inv(c, s) && DrainerStep(c, s) == Some(t)
    requires s.dpc == DWait && (Safe(c) || |s.got| < |c.script|)
    ensures Inv(c, t)
  {
    assert PlaceOk(c, s, s.rel);
    LemmaPlacesFrame(c, s, t);
  }

  /** Giving a slot back moves the window: the place it held becomes the last one of the next lap. */
  lemma LemmaReleasePlaces(c: Config, s: State, t: State)
    requires ValidConfig(c) && Inv(c, s) && DrainerStep(c, s) == Some(t)
    requires s.dpc == DRelease
    ensures TypeOk(c, t) && Places(c, t)
  {
    hide Slice, Write, Addr;
    assert Ix(c.n, s.rel + c.n) == Ix(c.n, s.rel);
    assert PlaceOk(c, s, s.rel);
    forall k: nat | t.rel <= k < t.rel + c.n
      ensures PlaceOk(c, t, k)
    {
      if k < s.rel + c.n {
        assert PlaceOk(c, s, k);
        LemmaIxDistinct(c.n, s.rel, k);
      }
    }
  }

  lemma DrainerReleaseInv(c: Config, s: State, t: State)
    requires ValidConfig(c) && Inv(c, s) && DrainerStep(c, s) == Some(t)
    requires s.dpc == DRelease
    ensures Inv(c, t)
  {
    LemmaIxStep(c.n, s.rel);
    LemmaReleasePlaces(c, s, t);
    if s.fpos < |c.script| {
      LemmaFillingElsewhere(c, s);
    }
  }

  /** The slot being filled is not the one the drainer holds. */
  lemma LemmaFillingElsewhere(c: Config, s: State)
    requires ValidConfig(c) && Inv(c, s) && Lent(s)
    ensures Filling(s) ==> Ix(c.n, s.fpos) != Ix(c.n, s.rel)
  {
    if Filling(s) {
      LemmaIxDistinct(c.n, s.rel, s.fpos);
    }
  }

  lemma DrainerUsersInv(c: Config, s: State, t: State)
    requires ValidConfig(c) && Inv(c, s) && DrainerStep(c, s) == Some(t)
    requires s.dpc == DUsersWrite
    ensures Inv(c, t)
  {
    hide Ix, Slice, Write, Addr;
    forall k: nat | t.rel <= k < t.rel + c.n
      ensures PlaceOk(c, t, k)
    {
      assert PlaceOk(c, s, k);
      if Ix(c.n, k) == Ix(c.n, s.rel) {
        LemmaIxSame(c.n, k, s.rel);
      }
    }
  }

  lemma DrainerLendInv(c: Config, s: State, t: State)
    requires ValidConfig(c) && Inv(c, s) && DrainerStep(c, s) == Some(t)
    requires s.dpc == DLend
    ensures Inv(c, t)
  {
    hide Ix, Slice, Write, Addr;
    assert PlaceOk(c, s, s.rel);
    forall k: nat | t.rel <= k < t.rel + c.n
      ensures PlaceOk(c, t, k)
    {
      assert PlaceOk(c, s, k);
      if k != s.rel {
        LemmaIxDistinct(c.n, s.rel, k);
      }
    }
  }

  lemma CallInv(c: Config, s: State, fd: int, size: int, t: State)
    requires ValidConfig(c) && Inv(c, s) && Call(c, s, fd, size, t)
    ensures Inv(c, t)
  {
    LemmaPlacesFrame(c, s, t);
  }

  lemma DrainerInv(c: Config, s: State, t: State)
    requires ValidConfig(c) && Inv(c, s) && DrainerStep(c, s) == Some(t)
    requires Safe(c) || |s.got| < |c.script| || s.dpc == DAwait
    ensures Inv(c, t)
  {
    match s.dpc
    case DCheck => DrainerCheckInv(c, s, t);
    case DWait => DrainerWaitInv(c, s, t);
    case DRelease => DrainerReleaseInv(c, s, t);
    case DUsersWrite => DrainerUsersInv(c, s, t);
    case DLend => DrainerLendInv(c, s, t);
    case DAwait => DrainerAwaitInv(c, s, t);
    case DLen => DrainerLenInv(c, s, t);
    case DFd => DrainerFdInv(c, s, t);
    case DGets => DrainerCountInv(c, s, t);
    case DUsers => DrainerCountInv(c, s, t);
    case DIdle =>
    case DFatal =>
  }

  /** Every action of either process keeps the invariant. */
  lemma NextInv(c: Config, s: State, t: State)
    requires Inv(c, s) && Next(c, s, t) && Safe(c)
    ensures Inv(c, t)
  {
    if FillerStep(c, s) == Some(t) || Scribble(c, s, t) {
      FillerInv(c, s, t);
    } else if DrainerStep(c, s) == Some(t) {
      DrainerInv(c, s, t);
    } else {
      var fd: int, size: int :| Call(c, s, fd, size, t);
      CallInv(c, s, fd, size, t);
    }
  }
}
