/** What every run of the FIFO keeps: the drainer sees the filler's segments in order, lent buffers do not change,
    and the two processes never block each other. */
module FifoSafety {
  import opened Common
  import opened FifoLayout
  import opened Ring
  import opened Fifo
  import opened FifoInvariant

  ghost function Last(run: seq<State>): State
    requires |run| > 0
  {
    run[|run| - 1]
  }

  lemma {:induction false} RunInv(c: Config, run: seq<State>, i: nat)
    requires ValidConfig(c) && Safe(c) && IsRun(c, run) && i < |run|
    ensures Inv(c, run[i])
  {
    if i == 0 {
      InitInv(c, run[0]);
    } else {
      RunInv(c, run, i - 1);
      NextInv(c, run[i - 1], run[i]);
    }
  }

  /** The slots cyclically from the drainer's index up to the filler's are reader-owned, the others writer-owned;
      only the slot at the drainer's index can be faio-owned, and only while it is lent. Once faio_reader has handed the
      last slot over, that one is reader-owned unless it is lent; the others keep the pattern. */
  ghost predicate OwnershipPattern(c: Config, s: State) {
    && |s.slots| == c.n > 0
    && s.idx == Ix(c.n, s.rel) && s.idxReader == Ix(c.n, s.fpos)
    && s.rel <= Published(s) <= s.rel + c.n
    && forall k: nat | s.rel <= k < s.rel + c.n :: OwnerOk(c, s, k)
  }

  ghost predicate OwnerOk(c: Config, s: State, k: nat)
    requires |s.slots| == c.n > 0
  {
    var owner := s.slots[Ix(c.n, k)].owner;
    if s.rescued && k == c.n - 1 then owner == OwnerReader || (owner == OwnerFaio && k == s.rel && Lent(s))
    else owner == if k >= Published(s) then OwnerWriter else if k == s.rel && Lent(s) then OwnerFaio else OwnerReader
  }

  /** Refinement: whatever the interleaving, the calls return a prefix of what the filler stored: descriptors,
      lengths, errno and bytes, nothing lost, repeated or reordered. */
  lemma Refinement(c: Config, run: seq<State>)
    requires ValidConfig(c) && Safe(c) && IsRun(c, run)
    ensures Published(Last(run)) <= |c.script| && Last(run).got <= c.script[..Published(Last(run))]
    ensures |Last(run).got| <= Last(run).gets <= |Last(run).got| + 1 && Last(run).puts == Last(run).fpos
    ensures OwnershipPattern(c, Last(run))
  {
    hide Next;
    var s := Last(run);
    RunInv(c, run, |run| - 1);
    assert s.got == c.script[..Published(s)][..|s.got|];
    forall k: nat | s.rel <= k < s.rel + c.n
      ensures OwnerOk(c, s, k)
    {
      assert PlaceOk(c, s, k);
    }
  }

  /** The drainer is between calls throughout run[i..j + 1]. */
  ghost predicate BetweenCalls(run: seq<State>, i: nat, j: nat)
    requires i <= j < |run|
  {
    forall m | i <= m <= j :: run[m].dpc == DIdle
  }

  lemma {:induction false} LemmaNothingReturned(c: Config, run: seq<State>, i: nat, j: nat)
    requires ValidConfig(c) && IsRun(c, run) && i <= j < |run| && BetweenCalls(run, i, j)
    ensures run[j].got == run[i].got && run[j].bufp == run[i].bufp && run[j].len == run[i].len
    decreases j
  {
    hide *;
    if i < j {
      LemmaIdleBefore(run, i, j);
      LemmaNothingReturned(c, run, i, j - 1);
      LemmaRunStep(c, run, j - 1);
      LemmaIdleStep(c, run[j - 1], run[j]);
    }
  }

  lemma LemmaIdleBefore(run: seq<State>, i: nat, j: nat)
    requires i < j < |run| && BetweenCalls(run, i, j)
    ensures BetweenCalls(run, i, j - 1) && run[j - 1].dpc == run[j].dpc == DIdle
  {
  }

  lemma LemmaRunStep(c: Config, run: seq<State>, j: nat)
    requires IsRun(c, run) && j + 1 < |run|
    ensures Next(c, run[j], run[j + 1])
  {
  }

  lemma LemmaIdleStep(c: Config, s: State, t: State)
    requires Next(c, s, t) && s.dpc == t.dpc == DIdle
    ensures t.got == s.got && t.bufp == s.bufp && t.len == s.len
  {
    hide Write, Slice, Addr, Bump;
  }

  /** Lent-buffer stability: until the next call, the bytes behind the returned pointer stay those of the segment,
      although `owner` was published before `users`. */
  lemma LentBufferStable(c: Config, run: seq<State>, i: nat, j: nat)
    requires ValidConfig(c) && Safe(c) && IsRun(c, run)
    requires i <= j < |run| && BetweenCalls(run, i, j) && run[i].got != []
    ensures var g := run[i].got[|run[i].got| - 1];
            && run[j].bufp == run[i].bufp
            && Slice(run[j].mem, run[i].bufp, Bytes(g.len)) == g.bytes
            && Slice(run[j].mem, run[i].bufp, Bytes(g.len)) == Slice(run[i].mem, run[i].bufp, Bytes(g.len))
  {
    LemmaNothingReturned(c, run, i, j);
    LemmaLentBytes(c, run, i);
    LemmaLentBytes(c, run, j);
  }

  lemma LemmaLentBytes(c: Config, run: seq<State>, i: nat)
    requires ValidConfig(c) && Safe(c) && IsRun(c, run)
    requires i < |run| && run[i].dpc == DIdle && run[i].got != []
    ensures var g := run[i].got[|run[i].got| - 1];
            Slice(run[i].mem, run[i].bufp, Bytes(g.len)) == g.bytes
  {
    hide Next;
    var s := run[i];
    RunInv(c, run, i);
    assert PlaceOk(c, s, s.rel);
    assert s.got[s.rel] == c.script[s.rel];
  }

  // ----- progress

  /** No access of the filler, or of the drainer inside a call, is possible. */
  ghost predicate FillerStuck(c: Config, s: State)
    requires ValidConfig(c) && TypeOk(c, s)
  {
    FillerStep(c, s).None?
  }

  ghost predicate DrainerWaits(c: Config, s: State)
    requires ValidConfig(c) && TypeOk(c, s)
  {
    s.dpc in {DAwait, DWait} && DrainerStep(c, s).None?
  }

  /** While callers ask for no more segments than are produced, filler and drainer never wait for each other, and the
      filler does not exit leaving the drainer waiting. */
  lemma NeverBothBlocked(c: Config, run: seq<State>)
    requires ValidConfig(c) && c.bounded && IsRun(c, run)
    ensures TypeOk(c, Last(run))
    ensures !(FillerStuck(c, Last(run)) && DrainerWaits(c, Last(run)))
  {
    hide Next;
    var s := Last(run);
    RunInv(c, run, |run| - 1);
    if FillerStuck(c, s) {
      LemmaWaitEnabled(c, s);
    }
  }

  /** The filler waits only while the ring is full. */
  lemma LemmaFillerGoesOn(c: Config, s: State)
    requires ValidConfig(c) && Inv(c, s) && s.fpc == FWait && s.fpos < s.rel + c.n
    ensures FillerStep(c, s).Some?
  {
    assert PlaceOk(c, s, s.fpos);
  }

  lemma LemmaWaitEnabled(c: Config, s: State)
    requires ValidConfig(c) && c.bounded && Inv(c, s) && FillerStuck(c, s)
    ensures !DrainerWaits(c, s)
  {
    assert Ix(c.n, c.n - 1) == c.n - 1;
    if s.fpc == FWait && s.fpos < s.rel + c.n {
      LemmaFillerGoesOn(c, s);
      assert false;
    } else if s.dpc == DAwait {
      assert PlaceOk(c, s, c.n - 1);
    } else if s.dpc == DWait {
      assert PlaceOk(c, s, s.rel);
    }
  }

  /** How many accesses the filler still makes on its own. */
  ghost function Rank(pc: FillerPc): nat {
    match pc
    case FWait => 8 case FFd => 7 case FFill => 6 case FLen => 5 case FErrno => 4 case FOwner => 3 case FUsers => 2
    case FPuts => 1 case FDone => 3 case FReadGets => 2 case FRescue => 1 case FExit => 0
  }

  ghost function Remaining(c: Config, s: State): nat {
    if s.fpc in {FDone, FReadGets, FRescue, FExit} then Rank(s.fpc)
    else if s.fpos <= |c.script| then 8 * (|c.script| - s.fpos) + Rank(s.fpc)
    else 0
  }

  /** await_faio: every filler access brings the filler nearer its end, and once it can make none, the last slot is
      reader-owned, even when all tracks together fill fewer slots than there are; so the wait ends. */
  lemma AwaitEnds(c: Config, run: seq<State>)
    requires ValidConfig(c) && Safe(c) && IsRun(c, run) && Last(run).dpc == DAwait
    ensures TypeOk(c, Last(run))
    ensures match FillerStep(c, Last(run))
            case Some(t) => Remaining(c, t) < Remaining(c, Last(run))
            case None => DrainerStep(c, Last(run)).Some?
  {
    hide Next, Inv;
    RunInv(c, run, |run| - 1);
    LemmaAwaitEnds(c, Last(run));
  }

  lemma LemmaAwaitEnds(c: Config, s: State)
    requires ValidConfig(c) && Inv(c, s) && s.dpc == DAwait
    ensures match FillerStep(c, s)
            case Some(t) => Remaining(c, t) < Remaining(c, s)
            case None => DrainerStep(c, s).Some?
  {
    hide Slice, Write, Addr, Bump;
    assert Ix(c.n, c.n - 1) == c.n - 1;
    assert PlaceOk(c, s, c.n - 1);
    if s.fpc == FWait && s.fpos < s.rel + c.n {
      assert PlaceOk(c, s, s.fpos);
    }
  }

  /** Once the last slot is reader-owned it stays so until await_faio has seen it. */
  lemma AwaitStaysEnabled(c: Config, s: State, t: State)
    requires Inv(c, s) && Next(c, s, t) && s.dpc == t.dpc == DAwait
    requires DrainerStep(c, s).Some?
    ensures TypeOk(c, t) && DrainerStep(c, t).Some?
  {
    hide Slice, Write, Addr;
  }
}
