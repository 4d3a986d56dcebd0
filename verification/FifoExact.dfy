/** Exactly when the FIFO needs its callers to stop asking after the last segment. faio_reader's final hand-over of
    the last slot is not synchronised with the drainer: with n slots and n or n - 1 segments in all, a further call
    can be answered from a slot that holds no new segment. For every other number of segments it cannot. */
module FifoExact {
  import opened Common
  import opened FifoLayout
  import opened Ring
  import opened Fifo
  import opened FifoInvariant
  import opened FifoSafety

  ghost predicate Reachable(c: Config, s: State) {
    exists run: seq<State> :: IsRun(c, run) && Last(run) == s
  }

  /** In every run, the calls return a prefix of the filler's segments. */
  ghost predicate AlwaysPrefix(c: Config) {
    forall s: State | Reachable(c, s) :: s.got <= c.script
  }

  lemma ReachInit(c: Config) returns (s: State)
    requires ValidConfig(c)
    ensures Init(c, s) && Reachable(c, s)
  {
    var slots := seq(c.n, i requires 0 <= i < c.n => Slot(0, OwnerWriter, 0, -1, 0, Addr(c, i)));
    var mem := seq(c.memLen, i => 0 as bv8);
    s := State(slots, mem, 0, 0, 0, FWait, 0, 0, false, DAwait, 0, 0, 0, 0, 0, 0, 0, []);
    assert IsRun(c, [s]);
  }

  lemma ReachNext(c: Config, s: State, t: State)
    requires Reachable(c, s) && Next(c, s, t)
    ensures Reachable(c, t)
  {
    var run: seq<State> :| IsRun(c, run) && Last(run) == s;
    var longer := run + [t];
    forall i | 0 <= i < |longer| - 1
      ensures Next(c, longer[i], longer[i + 1])
    {
      assert longer[i] == run[i];
    }
    assert Last(longer) == t;
  }

  /** The filler alone, from a state in which the drainer has not begun, up to its final hand-over. */
  lemma {:induction false} FillAll(c: Config, s: State) returns (t: State)
    requires ValidConfig(c) && |c.script| <= c.n && Reachable(c, s) && Inv(c, s)
    requires s.dpc == DAwait && s.fpc != FExit
    ensures Reachable(c, t) && Inv(c, t) && t.dpc == DAwait && t.fpc == FRescue
    decreases Remaining(c, s)
  {
    if s.fpc == FRescue {
      t := s;
    } else {
      if s.fpc == FWait && s.fpos < |c.script| {
        assert PlaceOk(c, s, s.fpos);
      }
      var u := FillerStep(c, s).value;
      LemmaFillAlone(c, s, u);
      ReachNext(c, s, u);
      t := FillAll(c, u);
    }
  }

  lemma LemmaFillAlone(c: Config, s: State, u: State)
    requires ValidConfig(c) && Inv(c, s) && s.dpc == DAwait && s.fpc !in {FRescue, FExit}
    requires FillerStep(c, s) == Some(u)
    ensures Inv(c, u) && u.dpc == DAwait && u.fpc != FExit && Remaining(c, u) < Remaining(c, s)
  {
    hide Slice, Write, Ix, PlaceOk;
    match s.fpc
    case FWait => FillerWaitInv(c, s, u);
    case FFill =>
      assert ValidSegment(c.script[s.fpos], c.size);
      assert Addr(c, s.idxReader) + c.stride <= c.memLen;
      FillerStoreInv(c, s, u, c.script[s.fpos].bytes);
    case FUsers => FillerUsersInv(c, s, u);
    case FPuts => FillerPutsInv(c, s, u);
    case FDone => FillerDoneInv(c, s, u);
    case FReadGets => FillerDoneInv(c, s, u);
    case _ => FillerSlotInv(c, s, u);
  }

  ghost function DrainRank(pc: DrainerPc): nat {
    match pc
    case DAwait => 11 case DIdle => 10 case DCheck => 9 case DRelease => 8 case DWait => 7 case DLen => 6 case DFd => 5
    case DGets => 4 case DUsers => 3 case DUsersWrite => 2 case DLend => 1 case DFatal => 0
  }

  /** A call under way asks for the next segment and has room for it. */
  ghost predicate AsksNext(c: Config, s: State) {
    s.dpc !in {DAwait, DIdle} && |s.got| < |c.script| ==>
      s.askFd == c.script[|s.got|].fd && c.size <= s.askSize
  }

  /** The drainer alone, with the filler about to do or done with its final hand-over, until it has everything. */
  lemma {:induction false} DrainAll(c: Config, s: State) returns (t: State)
    requires ValidConfig(c) && Reachable(c, s) && Inv(c, s)
    requires s.fpc in {FRescue, FExit} && (s.dpc == DAwait ==> s.slots[c.n - 1].owner == OwnerReader)
    requires |s.got| < |c.script| && AsksNext(c, s) && s.dpc != DFatal
    ensures Reachable(c, t) && Inv(c, t) && t.dpc == DIdle && t.got == c.script
    ensures t.fpc == s.fpc && t.rescued == s.rescued
    decreases |c.script| - |s.got|, DrainRank(s.dpc)
  {
    var u := DrainStep(c, s);
    if |u.got| == |c.script| {
      t := u;
    } else {
      t := DrainAll(c, u);
    }
  }

  lemma LemmaDrainEnabled(c: Config, s: State)
    requires ValidConfig(c) && Inv(c, s)
    requires s.fpc in {FRescue, FExit} && (s.dpc == DAwait ==> s.slots[c.n - 1].owner == OwnerReader)
    requires |s.got| < |c.script| && AsksNext(c, s) && s.dpc !in {DFatal, DIdle}
    ensures DrainerStep(c, s).Some?
    ensures var u := DrainerStep(c, s).value;
            && u.dpc != DAwait && u.dpc != DFatal && u.fpc == s.fpc && u.rescued == s.rescued
            && u.askFd == s.askFd && u.askSize == s.askSize
            && if s.dpc == DLend then u.dpc == DIdle && |u.got| == |s.got| + 1
               else u.got == s.got && DrainRank(u.dpc) < DrainRank(s.dpc)
    ensures s.dpc in {DIdle, DLend, DAwait} <==> DrainerStep(c, s).value.dpc == DIdle
  {
    hide Slice, Write, Addr;
    assert ValidSegment(c.script[|s.got|], c.size);
    assert PlaceOk(c, s, s.rel);
  }

  lemma DrainStep(c: Config, s: State) returns (u: State)
    requires ValidConfig(c) && Reachable(c, s) && Inv(c, s)
    requires s.fpc in {FRescue, FExit} && (s.dpc == DAwait ==> s.slots[c.n - 1].owner == OwnerReader)
    requires |s.got| < |c.script| && AsksNext(c, s) && s.dpc != DFatal
    ensures Reachable(c, u) && Inv(c, u) && AsksNext(c, u) && u.dpc != DAwait && u.dpc != DFatal
    ensures u.fpc == s.fpc && u.rescued == s.rescued
    ensures if s.dpc == DLend then u.dpc == DIdle && |u.got| == |s.got| + 1
            else |u.got| == |s.got| && DrainRank(u.dpc) < DrainRank(s.dpc)
  {
    if s.dpc == DIdle {
      var g := c.script[|s.got|];
      u := s.(dpc := DCheck, askFd := g.fd, askSize := c.size);
      assert Call(c, s, g.fd, c.size, u);
      CallInv(c, s, g.fd, c.size, u);
    } else {
      LemmaDrainEnabled(c, s);
      u := DrainerStep(c, s).value;
      DrainerInv(c, s, u);
    }
    ReachNext(c, s, u);
  }

  /** A call under way at a reader-owned slot that holds g, with g's descriptor asked for. */
  ghost predicate Answering(c: Config, s: State, g: Segment) {
    && TypeOk(c, s)
    && s.dpc in {DWait, DLen, DFd, DGets, DUsers, DUsersWrite, DLend}
    && var f := s.slots[s.idx];
       && f.owner == OwnerReader && f.users <= 1
       && f.fd == g.fd == s.askFd && f.len == g.len <= s.askSize && f.errno == g.errno
       && Slice(s.mem, f.bufp, Bytes(g.len)) == g.bytes
       && (s.dpc in {DFd, DGets, DUsers, DUsersWrite, DLend} ==> s.len == g.len)
       && (s.dpc in {DUsers, DUsersWrite, DLend} ==> s.bufp == f.bufp)
       && (s.dpc in {DUsersWrite, DLend} ==> s.users <= 0)
  }

  lemma LemmaAnswerStep(c: Config, s: State, g: Segment)
    requires ValidConfig(c) && Answering(c, s, g)
    ensures DrainerStep(c, s).Some?
    ensures var t := DrainerStep(c, s).value;
            if s.dpc == DLend then t.got == s.got + [g]
            else Answering(c, t, g) && t.got == s.got && DrainRank(t.dpc) < DrainRank(s.dpc)
  {
    hide Slice, Addr;
  }

  /** Such a call returns g. */
  lemma {:induction false} ExtraReturn(c: Config, s: State, g: Segment) returns (t: State)
    requires ValidConfig(c) && Answering(c, s, g) && Reachable(c, s)
    ensures Reachable(c, t) && t.got == s.got + [g]
    decreases DrainRank(s.dpc)
  {
    hide Answering, Reachable, Next;
    LemmaAnswerStep(c, s, g);
    LemmaTyped(c, s, g);
    var u := DrainerStep(c, s).value;
    LemmaDrainerNext(c, s, u);
    ReachNext(c, s, u);
    if s.dpc == DLend {
      t := u;
    } else {
      t := ExtraReturn(c, u, g);
    }
  }

  lemma LemmaTyped(c: Config, s: State, g: Segment)
    requires Answering(c, s, g)
    ensures TypeOk(c, s)
  {
  }

  lemma LemmaDrainerNext(c: Config, s: State, t: State)
    requires ValidConfig(c) && TypeOk(c, s) && DrainerStep(c, s) == Some(t)
    ensures Next(c, s, t)
  {
    hide DrainerStep, FillerStep, Scribble, Call;
  }

  /** n segments: the drainer takes them all between the filler's test of `gets` and its write to the last slot; the
      next call finds that slot reader-owned and returns the last segment a second time. */
  lemma RepeatsLastSegment(c: Config) returns (t: State)
    requires ValidConfig(c) && !c.bounded && |c.script| == c.n
    ensures Reachable(c, t) && t.got == c.script + [c.script[c.n - 1]]
  {
    var s := ReachInit(c);
    InitInv(c, s);
    s := FillAll(c, s);
    assert Ix(c.n, c.n - 1) == c.n - 1;
    assert PlaceOk(c, s, c.n - 1);
    var d := DrainAll(c, s);
    assert PlaceOk(c, d, d.rel);
    var r := FillerStep(c, d).value;
    FillerInv(c, d, r);
    ReachNext(c, d, r);
    t := AskForTheLast(c, r);
  }

  /** n - 1 segments: the last slot, never filled, was handed over empty with descriptor -1; a further call for
      descriptor -1 returns it. */
  lemma ReturnsEmptySlot(c: Config) returns (t: State)
    requires ValidConfig(c) && !c.bounded && |c.script| == c.n - 1
    ensures Reachable(c, t) && |t.got| == |c.script| + 1 && c.script <= t.got
    ensures t.got[|c.script|].fd == -1 && t.got[|c.script|].len == 0 && t.got[|c.script|].bytes == []
  {
    var s := ReachInit(c);
    InitInv(c, s);
    s := FillAll(c, s);
    var r := FillerStep(c, s).value;
    FillerInv(c, s, r);
    ReachNext(c, s, r);
    assert Ix(c.n, c.n - 1) == c.n - 1;
    assert PlaceOk(c, r, c.n - 1);
    var d := DrainAll(c, r);
    assert PlaceOk(c, d, c.n - 1);
    t := AskForNothing(c, d);
  }

  /** A further call. */
  lemma AskAgain(c: Config, s: State, fd: int, size: nat) returns (u: State)
    requires ValidConfig(c) && !c.bounded && Inv(c, s) && Reachable(c, s) && s.dpc == DIdle
    ensures Inv(c, u) && Reachable(c, u) && u == s.(dpc := DCheck, askFd := fd, askSize := size)
  {
    u := s.(dpc := DCheck, askFd := fd, askSize := size);
    assert Call(c, s, fd, size, u);
    CallInv(c, s, fd, size, u);
    hide Inv, Reachable;
    ReachNext(c, s, u);
  }

  lemma AskForTheLast(c: Config, s: State) returns (t: State)
    requires ValidConfig(c) && !c.bounded && Inv(c, s) && Reachable(c, s)
    requires s.dpc == DIdle && s.rescued && s.got == c.script && |c.script| == c.n
    requires s.slots[c.n - 1].owner == OwnerReader
    ensures Reachable(c, t) && t.got == c.script + [c.script[c.n - 1]]
  {
    var g := c.script[c.n - 1];
    var u := AskAgain(c, s, g.fd, c.size);
    LemmaLastIsThere(c, u, g);
    var v := DrainerStep(c, u).value;
    hide Inv, Reachable, Answering, DrainerStep;
    LemmaDrainerNext(c, u, v);
    ReachNext(c, u, v);
    t := ExtraReturn(c, v, g);
  }

  lemma LemmaLastIsThere(c: Config, u: State, g: Segment)
    requires ValidConfig(c) && Inv(c, u) && u.dpc == DCheck && u.rescued && u.got == c.script && |c.script| == c.n
    requires u.slots[c.n - 1].owner == OwnerReader && Lent(u)
    requires g == c.script[c.n - 1] && u.askFd == g.fd && u.askSize == c.size
    ensures DrainerStep(c, u).Some? && DrainerStep(c, u).value.got == u.got
    ensures Answering(c, DrainerStep(c, u).value, g)
  {
    hide Slice, Write;
    assert Ix(c.n, c.n - 1) == c.n - 1;
    assert u.rel == c.n - 1;
    assert PlaceOk(c, u, u.rel);
    assert ValidSegment(g, c.size);
  }

  lemma AskForNothing(c: Config, s: State) returns (t: State)
    requires ValidConfig(c) && !c.bounded && Inv(c, s) && Reachable(c, s)
    requires s.dpc == DIdle && s.rescued && s.got == c.script && |c.script| == c.n - 1
    requires s.slots[c.n - 1].owner == OwnerReader
    ensures Reachable(c, t) && |t.got| == |c.script| + 1 && c.script <= t.got
    ensures t.got[|c.script|].fd == -1 && t.got[|c.script|].len == 0 && t.got[|c.script|].bytes == []
  {
    var u := AskAgain(c, s, -1, 0);
    var w := LemmaHandsBack(c, u);
    var g := Segment(-1, 0, w.slots[w.idx].errno, []);
    LemmaNothingIsThere(c, w, g);
    hide Inv, Reachable, Answering;
    t := ExtraReturn(c, w, g);
  }

  /** The call hands the lent slot back, and comes to the last one. */
  lemma LemmaHandsBack(c: Config, u: State) returns (w: State)
    requires ValidConfig(c) && Inv(c, u) && Reachable(c, u) && u.dpc == DCheck && u.rescued && u.got == c.script
    requires |c.script| == c.n - 1 && u.slots[c.n - 1].owner == OwnerReader && Lent(u)
    ensures Inv(c, w) && Reachable(c, w) && w.dpc == DWait && w.rescued && w.got == c.script && w.rel == c.n - 1
    ensures w.slots[c.n - 1] == u.slots[c.n - 1] && w.askFd == u.askFd && w.askSize == u.askSize
  {
    assert PlaceOk(c, u, u.rel);
    var v := DrainerStep(c, u).value;
    DrainerCheckInv(c, u, v);
    w := DrainerStep(c, v).value;
    DrainerReleaseInv(c, v, w);
    assert Ix(c.n, c.n - 2) == c.n - 2;
    hide Inv, Reachable, Slice;
    LemmaDrainerNext(c, u, v);
    ReachNext(c, u, v);
    LemmaDrainerNext(c, v, w);
    ReachNext(c, v, w);
  }

  lemma LemmaNothingIsThere(c: Config, w: State, g: Segment)
    requires ValidConfig(c) && Inv(c, w) && w.dpc == DWait && w.rescued && w.rel == c.n - 1 == |c.script|
    requires w.slots[c.n - 1].owner == OwnerReader && w.askFd == -1 && w.askSize == 0
    requires g == Segment(-1, 0, w.slots[w.idx].errno, [])
    ensures Answering(c, w, g)
  {
    assert Ix(c.n, c.n - 1) == c.n - 1;
    assert PlaceOk(c, w, c.n - 1);
  }

  /** The refinement holds without a bound on the calls if and only if the number of segments is neither the number
      of slots nor one less. */
  lemma ExactlyWhenUnboundedCallsAreSafe(c: Config)
    requires ValidConfig(c) && !c.bounded
    ensures AlwaysPrefix(c) <==> |c.script| != c.n && |c.script| != c.n - 1
  {
    if |c.script| == c.n {
      var t := RepeatsLastSegment(c);
    } else if |c.script| == c.n - 1 {
      var t := ReturnsEmptySlot(c);
    } else {
      forall s: State | Reachable(c, s)
        ensures s.got <= c.script
      {
        var run: seq<State> :| IsRun(c, run) && Last(run) == s;
        Refinement(c, run);
      }
    }
  }
}
