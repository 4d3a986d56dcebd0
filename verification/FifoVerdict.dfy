/** What one call of faio_get_buf makes of the segment it finds, in every interleaving. */
module FifoVerdict {
  import opened Common
  import opened Ring
  import opened Fifo
  import opened FifoInvariant
  import opened FifoSafety

  /** The slot tested holds segment |got| of the filler's, completely. */
  lemma LemmaTested(c: Config, s: State)
    requires ValidConfig(c) && Inv(c, s) && s.dpc == DFd
    ensures |s.got| < |c.script|
    ensures s.slots[s.idx].fd == c.script[|s.got|].fd && s.slots[s.idx].len == s.len == c.script[|s.got|].len
  {
    hide Ix, Slice, Write, Addr;
    assert PlaceOk(c, s, s.rel);
  }

  /** The call goes on to take the segment if and only if it is for the descriptor asked for and not too long; it ends
      fatally if and only if it is too long, or has data, or a read error, for another descriptor; and it goes round again
      if and only if it is an empty one for another descriptor. */
  lemma VerdictOnSegment(c: Config, run: seq<State>, i: nat)
    requires ValidConfig(c) && Safe(c) && IsRun(c, run) && i < |run| && run[i].dpc == DFd
    ensures TypeOk(c, run[i]) && |run[i].got| < |c.script|
    ensures var s := run[i];
            var g, t := c.script[|s.got|], DrainerStep(c, s);
            && t.Some?
            && (t.value.dpc == DGets <==> g.fd == s.askFd && g.len <= s.askSize)
            && (t.value.dpc == DFatal <==> if g.fd == s.askFd then g.len > s.askSize else g.len != 0)
            && (t.value.dpc == DCheck <==> g.fd != s.askFd && g.len == 0)
  {
    RunInv(c, run, i);
    LemmaTested(c, run[i]);
    hide Inv, IsRun;
  }

  /** A call that asks for descriptor fd has come to segment k, which is empty and for another descriptor. */
  ghost predicate Stuck(c: Config, s: State, k: nat, fd: int) {
    && s.dpc in {DCheck, DWait, DLen, DFd} && s.askFd == fd
    && |s.got| == k < Published(s) <= |c.script| && !Lent(s)
    && c.script[k].fd != fd && c.script[k].len == 0
  }

  lemma LemmaStuckDrainer(c: Config, s: State, t: State, k: nat, fd: int)
    requires ValidConfig(c) && Inv(c, s) && Stuck(c, s, k, fd) && DrainerStep(c, s) == Some(t)
    ensures Stuck(c, t, k, fd)
  {
    if s.dpc == DFd {
      LemmaTested(c, s);
    }
    hide Ix, Slice, Write, Addr;
    assert PlaceOk(c, s, s.rel);
  }

  lemma LemmaFillerAside(c: Config, s: State, t: State)
    requires ValidConfig(c) && TypeOk(c, s) && (FillerStep(c, s) == Some(t) || Scribble(c, s, t))
    ensures t.dpc == s.dpc && t.got == s.got && t.rel == s.rel && t.askFd == s.askFd
    ensures Published(s) <= Published(t) && (Published(s) <= |c.script| ==> Published(t) <= |c.script|)
  {
    hide Slice, Write, Addr, Bump;
  }

  lemma LemmaStuckStep(c: Config, s: State, t: State, k: nat, fd: int)
    requires Inv(c, s) && Next(c, s, t) && Stuck(c, s, k, fd)
    ensures Stuck(c, t, k, fd)
  {
    hide Inv, TypeOk, ValidConfig, DrainerStep, FillerStep, Scribble, Published;
    if DrainerStep(c, s) == Some(t) {
      LemmaStuckDrainer(c, s, t, k, fd);
    } else {
      LemmaFillerAside(c, s, t);
    }
  }

  /** In that last case the call never ends: it does not give the slot back, and finds the same segment again and again,
      whatever the filler does. */
  lemma {:induction false} NeverPassesAnEmptySegment(c: Config, run: seq<State>, i: nat, j: nat)
    requires ValidConfig(c) && Safe(c) && IsRun(c, run) && i <= j < |run|
    requires run[i].dpc == DFd && |run[i].got| < |c.script|
    requires c.script[|run[i].got|].fd != run[i].askFd && c.script[|run[i].got|].len == 0
    ensures Stuck(c, run[j], |run[i].got|, run[i].askFd)
    decreases j
  {
    hide *;
    if i == j {
      RunInv(c, run, i);
      LemmaStuckNow(c, run[i]);
    } else {
      NeverPassesAnEmptySegment(c, run, i, j - 1);
      RunInv(c, run, j - 1);
      LemmaRunStep(c, run, j - 1);
      LemmaStuckStep(c, run[j - 1], run[j], |run[i].got|, run[i].askFd);
    }
  }

  lemma LemmaStuckNow(c: Config, s: State)
    requires ValidConfig(c) && Inv(c, s) && s.dpc == DFd && |s.got| < |c.script|
    requires c.script[|s.got|].fd != s.askFd && c.script[|s.got|].len == 0
    ensures Stuck(c, s, |s.got|, s.askFd)
  {
    hide Places, Slice, Write, Addr;
  }
}
