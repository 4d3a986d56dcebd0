/** The ring buffer between cdda2wav's reading and writing process (cdda2wav/ringbuff.c) over System V semaphores
    (semrequest and semrelease in cdda2wav/semshm.c): FREE counts free buffers, DEF counts defined ones. Each action
    is one access to shared memory or one semaphore operation, and any interleaving of the two processes is a run. */
module RingBuffer {
  import opened Arith
  import opened Common
  import opened Ring

  /** total buffers of `entry` bytes each from address `base` on (RB_BASE and ENTRY_SIZE_PAGE_AL); bursts overlap by
      `overlap` sectors. Retries change a positive overlap between 1 and the maximum, and never a zero one. */
  datatype Config = Config(total: nat, base: nat, entry: nat, overlap: nat)

  ghost predicate ValidConfig(c: Config) {
    c.total > 0 && c.entry > 0
  }

  function SlotAddr(c: Config, i: nat): nat {
    c.base + i * c.entry
  }

  /** The address of the buffer that the k-th burst goes into. */
  function Place(c: Config, k: nat): nat
    requires c.total > 0
  {
    SlotAddr(c, Ix(c.total, k))
  }

  /** The macro INC. */
  function Inc(c: Config, a: nat): nat
    requires c.total > 0 && c.entry > 0 && a >= c.base
  {
    c.base + ((a - c.base) / c.entry + 1) % c.total * c.entry
  }

  lemma IncIsNextPlace(c: Config, k: nat)
    requires ValidConfig(c)
    ensures Place(c, k) >= c.base && Inc(c, Place(c, k)) == Place(c, k + 1)
  {
    var i := Ix(c.total, k);
    LemmaMultiple(i, c.entry);
    LemmaIxStep(c.total, k);
    LemmaWrap(c.total, i);
  }

  lemma LemmaWrap(n: nat, i: nat)
    requires i < n
    ensures (i + 1) % n == Bump(n, i)
  {
    if i + 1 == n {
      LemmaDivModUnique(i + 1, n, 1, 0);
    } else {
      LemmaDivModUnique(i + 1, n, 0, i + 1);
    }
  }

  lemma PlacesDiffer(c: Config, j: nat, k: nat)
    requires ValidConfig(c) && j < k < j + c.total
    ensures Place(c, j) != Place(c, k)
  {
    LemmaIxDistinct(c.total, j, k);
    var i, h := Ix(c.total, j), Ix(c.total, k);
    if i < h {
      LemmaMulStrict(i, h, c.entry);
    } else {
      LemmaMulStrict(h, i, c.entry);
    }
  }

  datatype ReaderPc = RRequest | ROccupy | RFill | RAssert | RLast | RCount | RRelease
  datatype WriterPc = WRequest | WGet | WWrite | WAssert | WDrop | WCount | WRelease

  /** content says which burst each buffer holds; r and w count completed rounds of the two processes, and out is what
      the writer was given: history, read by no step but for the number of the burst being read. */
  datatype State = State(
    heFill: Option<nat>, last: Option<nat>, previous: Option<nat>, totalRead: nat, totalWritten: nat,
    free: nat, def: nat, rpc: ReaderPc, wpc: WriterPc, oldest: Option<nat>,
    content: map<nat, nat>, r: nat, w: nat, out: seq<nat>, failed: bool)

  /** set_total_buffers. */
  ghost predicate Init(c: Config, s: State) {
    s == State(None, None, None, 0, 0, c.total, 0, RRequest, WRequest, None, map[], 0, 0, [], false)
  }

  /** INC or, for a null pointer, the given address. */
  ghost function Advance(c: Config, p: Option<nat>, first: Option<nat>): Option<nat>
    requires ValidConfig(c)
  {
    if p.None? then first else if p.value >= c.base then Some(Inc(c, p.value)) else None
  }

  /** The reading process: get_next_buffer, do_read, define_buffer. */
  ghost function ReaderStep(c: Config, s: State): Option<State>
    requires ValidConfig(c)
  {
    match s.rpc
    case RRequest => if s.free > 0 then Some(s.(free := s.free - 1, rpc := ROccupy)) else None
    case ROccupy =>
      var bad := !(s.totalRead - s.totalWritten <= c.total);
      Some(s.(failed := s.failed || bad, previous := s.heFill, heFill := Advance(c, s.heFill, Some(c.base)), rpc := RFill))
    case RFill =>
      // Overlapping bursts but the first are compared with the previous buffer.
      var bad := s.heFill.None? || (c.overlap != 0 && s.r > 0 && (s.previous.None? || s.previous == s.heFill));
      var to := if s.heFill.Some? then s.heFill.value else 0;
      Some(s.(failed := s.failed || bad, content := s.content[to := s.r], rpc := RAssert))
    case RAssert => Some(s.(failed := s.failed || !(s.totalRead - s.totalWritten < c.total), rpc := RLast))
    case RLast => Some(s.(last := if s.last.None? then s.heFill else s.last, rpc := RCount))
    case RCount => Some(s.(totalRead := s.totalRead + 1, rpc := RRelease))
    case RRelease => Some(s.(def := s.def + 1, r := s.r + 1, rpc := RRequest))
  }

  /** While a burst is read, its buffer holds anything. */
  ghost predicate Filling(s: State, t: State, junk: nat) {
    s.rpc == RFill && s.heFill.Some? && t == s.(content := s.content[s.heFill.value := junk])
  }

  /** The writing process: get_oldest_buffer, do_write, drop_buffer. */
  ghost function WriterStep(c: Config, s: State): Option<State>
    requires ValidConfig(c)
  {
    match s.wpc
    case WRequest => if s.def > 0 then Some(s.(def := s.def - 1, wpc := WGet)) else None
    case WGet => Some(s.(oldest := s.last, wpc := WWrite))
    case WWrite =>
      var bad := s.oldest.None? || s.oldest.value !in s.content;
      Some(s.(failed := s.failed || bad, out := if bad then s.out else s.out + [s.content[s.oldest.value]], wpc := WAssert))
    case WAssert =>
      var defined := s.totalRead - s.totalWritten;
      Some(s.(failed := s.failed || !(c.total - defined < c.total && defined > 0), wpc := WDrop))
    case WDrop => Some(s.(last := Advance(c, s.last, s.heFill), wpc := WCount))
    case WCount => Some(s.(totalWritten := s.totalWritten + 1, wpc := WRelease))
    case WRelease => Some(s.(free := s.free + 1, w := s.w + 1, wpc := WRequest))
  }

  ghost predicate Next(c: Config, s: State, t: State) {
    ValidConfig(c) && (ReaderStep(c, s) == Some(t) || WriterStep(c, s) == Some(t) || exists junk: nat :: Filling(s, t, junk))
  }

  ghost predicate IsRun(c: Config, run: seq<State>) {
    && |run| > 0
    && Init(c, run[0])
    && forall i | 0 <= i < |run| - 1 :: Next(c, run[i], run[i + 1])
  }

  // ----- the invariant

  function ReaderHolds(s: State): nat {
    if s.rpc == RRequest then 0 else 1
  }

  function WriterHolds(s: State): nat {
    if s.wpc == WRequest then 0 else 1
  }

  function Occupied(s: State): nat {
    if s.rpc in {RRequest, ROccupy} then s.r else s.r + 1
  }

  function Dropped(s: State): nat {
    if s.wpc in {WCount, WRelease} then s.w + 1 else s.w
  }

  /** Buffers whose contents are complete. */
  function Complete(s: State): nat {
    if s.rpc in {RAssert, RLast, RCount, RRelease} then s.r + 1 else s.r
  }

  ghost predicate Counters(c: Config, s: State) {
    && s.w + WriterHolds(s) + s.def == s.r
    && s.free + s.r + ReaderHolds(s) == c.total + s.w
    && s.totalRead == s.r + (if s.rpc == RRelease then 1 else 0)
    && s.totalWritten == s.w + (if s.wpc == WRelease then 1 else 0)
  }

  ghost predicate Pointers(c: Config, s: State)
    requires ValidConfig(c)
  {
    var o := Occupied(s);
    && s.heFill == (if o == 0 then None else Some(Place(c, o - 1)))
    && (s.rpc !in {RRequest, ROccupy} ==> s.previous == if o < 2 then None else Some(Place(c, o - 2)))
    && s.last == (if s.r == 0 && s.rpc !in {RCount, RRelease} then None else Some(Place(c, Dropped(s))))
    && (s.wpc in {WWrite, WAssert, WDrop, WCount, WRelease} ==> s.oldest == Some(Place(c, s.w)))
  }

  ghost predicate HoldsBurst(c: Config, content: map<nat, nat>, k: nat)
    requires ValidConfig(c)
  {
    Place(c, k) in content && content[Place(c, k)] == k
  }

  ghost predicate Contents(c: Config, s: State)
    requires ValidConfig(c)
  {
    && (forall k: nat | s.w <= k < Complete(s) :: HoldsBurst(c, s.content, k))
    && (c.total >= 2 && Complete(s) > 0 ==> HoldsBurst(c, s.content, Complete(s) - 1))
    && |s.out| == (if s.wpc in {WRequest, WGet, WWrite} then s.w else s.w + 1)
    && (forall k | 0 <= k < |s.out| :: s.out[k] == k)
  }

  ghost predicate Inv(c: Config, s: State) {
    ValidConfig(c) && Counters(c, s) && Pointers(c, s) && Contents(c, s) && (c.total >= 2 || c.overlap == 0 ==> !s.failed)
  }

  lemma RequestInv(c: Config, s: State, t: State)
    requires Inv(c, s) && ReaderStep(c, s) == Some(t) && s.rpc in {RRequest, RAssert}
    ensures Inv(c, t)
  {
    hide Inc, Place;
  }

  lemma LastInv(c: Config, s: State, t: State)
    requires Inv(c, s) && ReaderStep(c, s) == Some(t) && s.rpc == RLast
    ensures Inv(c, t)
  {
    hide Inc, Place;
  }

  lemma DefineInv(c: Config, s: State, t: State)
    requires Inv(c, s) && ReaderStep(c, s) == Some(t) && s.rpc in {RCount, RRelease}
    ensures Inv(c, t)
  {
    hide Inc, Place;
  }

  lemma OccupyInv(c: Config, s: State, t: State)
    requires Inv(c, s) && ReaderStep(c, s) == Some(t) && s.rpc == ROccupy
    ensures Inv(c, t)
  {
    hide Inc, Place;
    if s.r > 0 {
      IncIsNextPlace(c, s.r - 1);
    }
    assert Place(c, 0) == c.base by {
      LemmaFirstPlace(c);
    }
  }

  lemma LemmaFirstPlace(c: Config)
    requires ValidConfig(c)
    ensures Place(c, 0) == c.base
  {
  }

  lemma FillInv(c: Config, s: State, t: State)
    requires Inv(c, s) && s.rpc == RFill && (ReaderStep(c, s) == Some(t) || exists junk: nat :: Filling(s, t, junk))
    ensures Inv(c, t)
  {
    hide Inc, Place;
    LemmaFill(c, s);
    if s.r > 0 && c.total >= 2 {
      PlacesDiffer(c, s.r - 1, s.r);
      assert HoldsBurst(c, s.content, s.r - 1) && HoldsBurst(c, t.content, s.r - 1);
    }
    forall k: nat | s.w <= k < s.r
      ensures HoldsBurst(c, t.content, k)
    {
      assert HoldsBurst(c, s.content, k);
    }
    assert t.rpc == RAssert ==> HoldsBurst(c, t.content, s.r);
  }

  /** The buffer being filled is none of those waiting to be written or being written. */
  lemma LemmaFill(c: Config, s: State)
    requires Inv(c, s) && s.rpc == RFill
    ensures forall k: nat | s.w <= k < s.r :: Place(c, k) != Place(c, s.r)
  {
    forall k: nat | s.w <= k < s.r
      ensures Place(c, k) != Place(c, s.r)
    {
      PlacesDiffer(c, k, s.r);
    }
  }

  lemma GetInv(c: Config, s: State, t: State)
    requires Inv(c, s) && WriterStep(c, s) == Some(t) && s.wpc in {WRequest, WGet}
    ensures Inv(c, t)
  {
    hide Inc, Place;
  }

  lemma WriteInv(c: Config, s: State, t: State)
    requires Inv(c, s) && WriterStep(c, s) == Some(t) && s.wpc in {WWrite, WAssert}
    ensures Inv(c, t)
  {
    hide Inc, Place;
    assert HoldsBurst(c, s.content, s.w);
  }

  lemma DropInv(c: Config, s: State, t: State)
    requires Inv(c, s) && WriterStep(c, s) == Some(t) && s.wpc == WDrop
    ensures Inv(c, t)
  {
    hide Inc, Place;
    IncIsNextPlace(c, s.w);
  }

  lemma ReleaseInv(c: Config, s: State, t: State)
    requires Inv(c, s) && WriterStep(c, s) == Some(t) && s.wpc in {WCount, WRelease}
    ensures Inv(c, t)
  {
    hide Inc, Place;
  }

  lemma NextInv(c: Config, s: State, t: State)
    requires Inv(c, s) && Next(c, s, t)
    ensures Inv(c, t)
  {
    if WriterStep(c, s) == Some(t) {
      match s.wpc
      case WRequest => GetInv(c, s, t);
      case WGet => GetInv(c, s, t);
      case WWrite => WriteInv(c, s, t);
      case WAssert => WriteInv(c, s, t);
      case WDrop => DropInv(c, s, t);
      case WCount => ReleaseInv(c, s, t);
      case WRelease => ReleaseInv(c, s, t);
    } else if s.rpc == RFill {
      FillInv(c, s, t);
    } else if s.rpc == ROccupy {
      OccupyInv(c, s, t);
    } else if s.rpc == RLast {
      LastInv(c, s, t);
    } else if s.rpc in {RRequest, RAssert} {
      RequestInv(c, s, t);
    } else {
      DefineInv(c, s, t);
    }
  }

  lemma {:induction false} RunInv(c: Config, run: seq<State>, i: nat)
    requires ValidConfig(c) && IsRun(c, run) && i < |run|
    ensures Inv(c, run[i])
  {
    if i > 0 {
      RunInv(c, run, i - 1);
      NextInv(c, run[i - 1], run[i]);
    }
  }

  // ----- what every run keeps

  ghost function Last(run: seq<State>): State
    requires |run| > 0
  {
    run[|run| - 1]
  }

  /** Semaphore tokens are conserved: free buffers, defined buffers, and one for each process between its request and its
      release, always make up the total. */
  lemma TokensConserved(c: Config, run: seq<State>)
    requires ValidConfig(c) && IsRun(c, run)
    ensures var s := Last(run);
            s.free + s.def + ReaderHolds(s) + WriterHolds(s) == c.total
  {
    RunInv(c, run, |run| - 1);
  }

  /** The writer gets every burst once and in order, from the oldest defined buffer, which is never the one being filled
      and keeps the burst until it is dropped. */
  lemma WriterGetsBurstsInOrder(c: Config, run: seq<State>)
    requires ValidConfig(c) && IsRun(c, run)
    ensures var s := Last(run);
            && (forall k | 0 <= k < |s.out| :: s.out[k] == k)
            && (s.wpc in {WWrite, WAssert, WDrop} ==>
                  && s.oldest == s.last == Some(Place(c, s.w))
                  && Place(c, s.w) in s.content && s.content[Place(c, s.w)] == s.w
                  && (s.rpc !in {RRequest, ROccupy} ==> s.heFill != s.oldest))
  {
    var s := Last(run);
    RunInv(c, run, |run| - 1);
    assert s.wpc in {WWrite, WAssert, WDrop} ==> HoldsBurst(c, s.content, s.w);
    if s.wpc in {WWrite, WAssert, WDrop} && s.rpc !in {RRequest, ROccupy} {
      PlacesDiffer(c, s.w, s.r);
    }
  }

  /** While a burst is read, the buffer it is compared with is another one, and still holds the burst before, even when
      the writer is done with it. */
  lemma PreviousBufferHoldsPreviousBurst(c: Config, run: seq<State>)
    requires ValidConfig(c) && c.total >= 2 && IsRun(c, run) && Last(run).rpc == RFill && Last(run).r > 0
    ensures var s := Last(run);
            && s.previous == Some(Place(c, s.r - 1)) && s.heFill == Some(Place(c, s.r)) && s.previous != s.heFill
            && Place(c, s.r - 1) in s.content && s.content[Place(c, s.r - 1)] == s.r - 1
  {
    RunInv(c, run, |run| - 1);
    PlacesDiffer(c, Last(run).r - 1, Last(run).r);
  }

  /** The two processes never wait for each other. */
  lemma NeverBothBlocked(c: Config, run: seq<State>)
    requires ValidConfig(c) && IsRun(c, run)
    ensures ReaderStep(c, Last(run)).Some? || WriterStep(c, Last(run)).Some?
  {
    RunInv(c, run, |run| - 1);
  }

  /** No assertion fails in any run, get_previous_read_buffer's among them. */
  ghost predicate AssertionsHold(c: Config) {
    forall run: seq<State> | IsRun(c, run) :: !Last(run).failed
  }

  lemma LemmaExtend(c: Config, run: seq<State>, t: State)
    requires IsRun(c, run) && Next(c, Last(run), t)
    ensures IsRun(c, run + [t]) && Last(run + [t]) == t
  {
    var longer := run + [t];
    forall i | 0 <= i < |longer| - 1
      ensures Next(c, longer[i], longer[i + 1])
    {
      assert longer[i] == run[i];
    }
  }

  lemma ReadOnce(c: Config, run: seq<State>) returns (longer: seq<State>)
    requires ValidConfig(c) && IsRun(c, run) && ReaderStep(c, Last(run)).Some?
    ensures IsRun(c, longer) && Last(longer) == ReaderStep(c, Last(run)).value
  {
    var t := ReaderStep(c, Last(run)).value;
    longer := run + [t];
    LemmaExtend(c, run, t);
  }

  lemma WriteOnce(c: Config, run: seq<State>) returns (longer: seq<State>)
    requires ValidConfig(c) && IsRun(c, run) && WriterStep(c, Last(run)).Some?
    ensures IsRun(c, longer) && Last(longer) == WriterStep(c, Last(run)).value
  {
    var t := WriterStep(c, Last(run)).value;
    longer := run + [t];
    LemmaExtend(c, run, t);
  }

  ghost predicate FirstBurstRead(c: Config, s: State) {
    && s.heFill == s.last == Some(c.base) && s.totalRead == 1 && s.totalWritten == 0 && s.def == 1 && s.free == 0
    && s.rpc == RRequest && s.wpc == WRequest && s.r == 1 && c.base in s.content
  }

  lemma LemmaStart(c: Config, s: State)
    requires Init(c, s)
    ensures IsRun(c, [s]) && Last([s]) == s
  {
  }

  lemma ReadFirstBurst(c: Config) returns (run: seq<State>)
    requires ValidConfig(c) && c.total == 1
    ensures IsRun(c, run) && FirstBurstRead(c, Last(run))
  {
    hide IsRun, Next;
    var s := State(None, None, None, 0, 0, 1, 0, RRequest, WRequest, None, map[], 0, 0, [], false);
    run := [s];
    LemmaStart(c, s);
    run := ReadOnce(c, run);
    run := ReadOnce(c, run);
    run := ReadOnce(c, run);
    run := ReadOnce(c, run);
    run := ReadOnce(c, run);
    run := ReadOnce(c, run);
    run := ReadOnce(c, run);
  }

  lemma WriteFirstBurst(c: Config, start: seq<State>) returns (run: seq<State>)
    requires ValidConfig(c) && c.total == 1 && IsRun(c, start) && FirstBurstRead(c, Last(start))
    ensures IsRun(c, run)
    ensures var s := Last(run);
            s.heFill == Some(c.base) && s.free == 1 && s.rpc == RRequest && s.r == 1
  {
    hide IsRun, Next, Inc;
    run := start;
    run := WriteOnce(c, run);
    run := WriteOnce(c, run);
    run := WriteOnce(c, run);
    run := WriteOnce(c, run);
    run := WriteOnce(c, run);
    run := WriteOnce(c, run);
    run := WriteOnce(c, run);
  }

  /** With a single buffer, the second of overlapping bursts is read into the buffer it has to be compared with. */
  lemma SingleBufferFails(c: Config)
    requires ValidConfig(c) && c.total == 1 && c.overlap != 0
    ensures !AssertionsHold(c)
  {
    var run := ReadFirstBurst(c);
    run := WriteFirstBurst(c, run);
    LemmaFirstPlace(c);
    IncIsNextPlace(c, 0);
    assert Place(c, 1) == c.base;
    run := ReadOnce(c, run);
    run := ReadOnce(c, run);
    run := ReadOnce(c, run);
  }

  /** No assertion fails in any run if and only if there are two buffers or the bursts do not overlap. */
  lemma AssertionsHoldExactly(c: Config)
    requires ValidConfig(c)
    ensures AssertionsHold(c) <==> c.total >= 2 || c.overlap == 0
  {
    if c.total >= 2 || c.overlap == 0 {
      forall run: seq<State> | IsRun(c, run)
        ensures !Last(run).failed
      {
        RunInv(c, run, |run| - 1);
      }
    } else {
      SingleBufferFails(c);
    }
  }

  const M32 := 0x1_0000_0000

  /** Wherever the ring is set up, no assertion fails in any run; and in some run one fails. */
  ghost predicate NeverFails(buffers: nat, overlap: nat) {
    forall base: nat, entry: nat | entry > 0 :: AssertionsHold(Config(buffers, base, entry, overlap))
  }

  ghost predicate AlwaysCanFail(buffers: nat, overlap: nat) {
    forall base: nat, entry: nat | entry > 0 :: !AssertionsHold(Config(buffers, base, entry, overlap))
  }

  /** The option checks of cdda2wav.c, lines 2500 to 2514. The overlap is unsigned; -1 means that the user gave none. The
      ring set up with the result never fails an assertion. */
  method ChooseBuffers(overlap0: nat, useroverlap: int, nsectors0: nat, buffers0: nat)
    returns (overlap: nat, nsectors: nat, buffers: nat)
    requires overlap0 < M32 && nsectors0 > 0 && buffers0 > 0
    ensures overlap == (if useroverlap == -1 then overlap0 else useroverlap % M32)
    ensures nsectors0 <= nsectors && (overlap + 1) % M32 <= nsectors
    ensures nsectors == nsectors0 || nsectors == (overlap + 1) % M32
    ensures buffers == buffers0 || buffers == buffers0 + 1
    ensures NeverFails(buffers, overlap) && (buffers != buffers0 ==> AlwaysCanFail(buffers0, overlap))
  {
    overlap, nsectors, buffers := overlap0, nsectors0, buffers0;
    if useroverlap != -1 {
      overlap := useroverlap % M32;
    }
    if nsectors < (1 + overlap) % M32 {
      nsectors := (overlap + 1) % M32;
    }
    if overlap > 0 && buffers < 2 {
      buffers := 2;
    }
    forall base: nat, entry: nat | entry > 0
      ensures AssertionsHold(Config(buffers, base, entry, overlap))
    {
      AssertionsHoldExactly(Config(buffers, base, entry, overlap));
    }
    forall base: nat, entry: nat | entry > 0 && buffers != buffers0
      ensures !AssertionsHold(Config(buffers0, base, entry, overlap))
    {
      AssertionsHoldExactly(Config(buffers0, base, entry, overlap));
    }
  }
}
