/** The cdrecord FIFO as a state machine. Two processes share the slots, the statistics and the segments: the filler
    (faio_reader and faio_read_segment) and the drainer (await_faio and faio_get_buf). Each action below is one access
    to shared memory, or purely local work; any interleaving of the two processes' actions is a run. */
module Fifo {
  import opened Common
  import opened FifoLayout
  import opened Ring

  datatype Owner = OwnerWriter | OwnerFaio | OwnerReader

  datatype Slot = Slot(len: int, owner: Owner, users: int, fd: int, errno: int, bufp: nat)

  /** What one fill_buf call delivers for file descriptor fd: its result len, errno, and the bytes it stores. */
  datatype Segment = Segment(fd: int, len: int, errno: int, bytes: seq<Byte>)

  /** n slots; segment i is the stride bytes from base + i * stride; a transfer is at most size bytes; script is
      what the filler's fill_buf calls deliver, in order. When bounded, the drainer's callers ask for no more
      segments than script has. */
  datatype Config = Config(n: nat, base: nat, stride: nat, size: nat, memLen: nat, script: seq<Segment>, bounded: bool)

  ghost predicate ValidSegment(g: Segment, size: nat) {
    && |g.bytes| == (if g.len > 0 then g.len else 0)
    && |g.bytes| <= size
  }

  ghost predicate ValidConfig(c: Config) {
    && c.n >= MIN_BUFFERS
    && c.size <= c.stride
    && (forall i: nat | i < c.n :: Addr(c, i) + c.stride <= c.memLen)
    && (forall i: nat, j: nat | i < j < c.n :: Addr(c, i) + c.stride <= Addr(c, j))
    && (forall k | 0 <= k < |c.script| :: ValidSegment(c.script[k], c.size))
  }

  ghost function Addr(c: Config, i: nat): nat {
    SegAddr(c.base, c.stride, i)
  }

  /** init_faio's layout makes a valid configuration. */
  lemma LayoutIsValid(l: Layout, buflen: nat, size: nat, pagesize: nat, script: seq<Segment>, bounded: bool)
    requires pagesize > 0 && Sound(l, buflen, size, pagesize)
    requires forall k | 0 <= k < |script| :: ValidSegment(script[k], size)
    ensures ValidConfig(Config(l.n, l.base, l.stride, size, l.buf + buflen, script, bounded))
  {
    var c := Config(l.n, l.base, l.stride, size, l.buf + buflen, script, bounded);
    assert forall i: nat | i < c.n :: Addr(c, i) == SegAddr(l.base, l.stride, i);
  }

  // Program counters: the next access each process makes.
  datatype FillerPc =
    | FWait | FFd | FFill | FLen | FErrno | FOwner | FUsers | FPuts
    | FDone | FReadGets | FRescue | FExit

  datatype DrainerPc =
    | DAwait | DIdle | DCheck | DRelease | DWait | DLen | DFd | DGets | DUsers | DUsersWrite | DLend | DFatal

  /** mem is the shared area. fpos (segments completely filled), rel (slots given back to the filler), got (segments
      returned) and rescued are history: no step reads them except fpos, which stands for the position in the
      filler's input. */
  datatype State = State(
    slots: seq<Slot>, mem: seq<Byte>, puts: int, gets: int, done: int,
    fpc: FillerPc, idxReader: nat, fpos: nat, rescued: bool,
    dpc: DrainerPc, idx: nat, rel: nat, askFd: int, askSize: int, len: int, users: int, bufp: nat,
    got: seq<Segment>)

  function Write(mem: seq<Byte>, at: nat, bytes: seq<Byte>): (r: seq<Byte>)
    requires at + |bytes| <= |mem|
    ensures |r| == |mem|
  {
    mem[..at] + bytes + mem[at + |bytes|..]
  }

  function Slice(mem: seq<Byte>, at: nat, n: nat): seq<Byte> {
    if at + n <= |mem| then mem[at..at + n] else []
  }

  function Bytes(len: int): nat {
    if len > 0 then len else 0
  }

  ghost predicate TypeOk(c: Config, s: State) {
    && |s.slots| == c.n > 0
    && |s.mem| == c.memLen
    && s.idx < c.n && s.idxReader < c.n
    && s.fpos <= |c.script|
    && (forall i | 0 <= i < c.n :: s.slots[i].bufp == Addr(c, i))
    && (s.fpc in {FFd, FFill, FLen, FErrno, FOwner, FUsers, FPuts} ==> s.fpos < |c.script|)
  }

  /** What init_faio leaves behind: every slot writer-owned, empty, fd -1. */
  ghost predicate Init(c: Config, s: State) {
    && |s.slots| == c.n
    && |s.mem| == c.memLen
    && (forall i | 0 <= i < c.n :: s.slots[i] == Slot(0, OwnerWriter, 0, -1, 0, Addr(c, i)))
    && s.puts == s.gets == s.done == 0
    && s.fpc == FWait && s.idxReader == 0 && s.fpos == 0 && !s.rescued
    && s.dpc == DAwait && s.idx == 0 && s.rel == 0 && s.got == []
  }

  /** The filler's next access; None while faio_wait_on_buffer has to wait, and after _exit. */
  ghost function FillerStep(c: Config, s: State): Option<State>
    requires ValidConfig(c) && TypeOk(c, s)
  {
    var i := s.idxReader;
    var f := s.slots[i];
    match s.fpc
    case FWait =>
      if s.fpos == |c.script| then Some(s.(fpc := FDone))
      else if f.owner == OwnerWriter then Some(s.(fpc := FFd))
      else None
    case FFd => Some(s.(slots := s.slots[i := f.(fd := c.script[s.fpos].fd)], fpc := FFill))
    case FFill =>
      var g := c.script[s.fpos];
      assert Addr(c, i) + c.stride <= c.memLen;
      Some(s.(mem := Write(s.mem, f.bufp, g.bytes), fpc := FLen))
    case FLen => Some(s.(slots := s.slots[i := f.(len := c.script[s.fpos].len)], fpc := FErrno))
    case FErrno => Some(s.(slots := s.slots[i := f.(errno := c.script[s.fpos].errno)], fpc := FOwner))
    case FOwner => Some(s.(slots := s.slots[i := f.(owner := OwnerReader)], fpc := FUsers))
    case FUsers => Some(s.(slots := s.slots[i := f.(users := 1)], fpc := FPuts))
    case FPuts => Some(s.(puts := s.puts + 1, idxReader := Bump(c.n, i), fpos := s.fpos + 1, fpc := FWait))
    case FDone => Some(s.(done := s.done + 1, fpc := FReadGets))
    case FReadGets => Some(s.(fpc := if s.gets == 0 then FRescue else FExit))
    case FRescue =>
      Some(s.(slots := s.slots[c.n - 1 := s.slots[c.n - 1].(owner := OwnerReader)], rescued := true, fpc := FExit))
    case FExit => None
  }

  /** While fill_buf runs it may store anything into the transfer buffer. */
  ghost predicate Scribble(c: Config, s: State, t: State)
    requires ValidConfig(c) && TypeOk(c, s)
  {
    && s.fpc == FFill
    && var i := s.idxReader;
       exists junk: seq<Byte> ::
         && |junk| == c.size && Addr(c, i) + c.size <= c.memLen
         && t == s.(mem := Write(s.mem, Addr(c, i), junk))
  }

  /** A caller enters faio_get_buf. */
  ghost predicate Call(c: Config, s: State, fd: int, size: int, t: State) {
    && s.dpc == DIdle
    && (c.bounded ==> |s.got| < |c.script|)
    && t == s.(dpc := DCheck, askFd := fd, askSize := size)
  }

  /** The drainer's next access inside await_faio or faio_get_buf; None while it waits, between calls, and after a
      fatal error. */
  ghost function DrainerStep(c: Config, s: State): Option<State>
    requires ValidConfig(c) && TypeOk(c, s)
  {
    var i := s.idx;
    var f := s.slots[i];
    match s.dpc
    case DAwait => if s.slots[c.n - 1].owner == OwnerReader then Some(s.(dpc := DIdle)) else None
    case DIdle => None
    case DCheck => Some(s.(dpc := if f.owner == OwnerFaio then DRelease else DWait))
    case DRelease =>
      Some(s.(slots := s.slots[i := f.(owner := OwnerWriter)], idx := Bump(c.n, i), rel := s.rel + 1, dpc := DWait))
    case DWait => if f.owner == OwnerReader then Some(s.(dpc := DLen)) else None
    case DLen => Some(s.(len := f.len, dpc := DFd))
    case DFd =>
      if f.fd != s.askFd then Some(s.(dpc := if f.len == 0 then DCheck else DFatal))
      else if s.askSize < s.len then Some(s.(dpc := DFatal))
      else Some(s.(dpc := DGets))
    case DGets => Some(s.(gets := s.gets + 1, bufp := f.bufp, dpc := DUsers))
    case DUsers => Some(s.(users := f.users - 1, dpc := DUsersWrite))
    case DUsersWrite =>
      var t := s.(slots := s.slots[i := f.(users := s.users)]);
      Some(if s.users <= 0 then t.(dpc := DLend) else Return(t, f))
    case DLend => Some(Return(s.(slots := s.slots[i := f.(owner := OwnerFaio)]), f))
    case DFatal => None
  }

  /** faio_get_buf returns: the caller holds the descriptor it asked for, the length, errno and the buffer. */
  ghost function Return(s: State, f: Slot): State {
    s.(got := s.got + [Segment(s.askFd, s.len, f.errno, Slice(s.mem, s.bufp, Bytes(s.len)))], dpc := DIdle)
  }

  ghost predicate Next(c: Config, s: State, t: State) {
    && ValidConfig(c)
    && TypeOk(c, s)
    && (|| FillerStep(c, s) == Some(t)
        || Scribble(c, s, t)
        || DrainerStep(c, s) == Some(t)
        || exists fd: int, size: int :: Call(c, s, fd, size, t))
  }

  /** A run: an initial state followed by actions of the two processes in any order. */
  ghost predicate IsRun(c: Config, run: seq<State>) {
    && |run| > 0
    && Init(c, run[0])
    && forall i | 0 <= i < |run| - 1 :: Next(c, run[i], run[i + 1])
  }
}
