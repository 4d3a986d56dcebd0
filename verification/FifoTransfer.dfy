/** The loops over the tracks, run against the FIFO itself: the filler fills what faio_reader pushes, and the calls of
    faio_get_buf are those of write_packet_data, in any interleaving. */
module FifoTransfer {
  import opened Common
  import opened FifoLayout
  import opened Ring
  import opened Fifo
  import opened FifoInvariant
  import opened FifoSafety
  import opened TrackTransfer

  /** If this step is a call, it is the next of the given ones. */
  ghost predicate CallFrom(requests: seq<Request>, s: State, t: State) {
    s.dpc == DIdle && t.dpc == DCheck ==>
      && |s.got| < |requests|
      && t.askFd == requests[|s.got|].fd && t.askSize == requests[|s.got|].size
  }

  ghost predicate CallsFrom(requests: seq<Request>, run: seq<State>) {
    forall i | 0 <= i < |run| - 1 :: CallFrom(requests, run[i], run[i + 1])
  }

  /** A call under way is the one due, and none has failed. */
  ghost predicate AsksForTheNext(requests: seq<Request>, s: State) {
    && s.dpc != DFatal
    && (s.dpc !in {DAwait, DIdle} ==>
          && |s.got| < |requests|
          && s.askFd == requests[|s.got|].fd && s.askSize == requests[|s.got|].size)
  }

  /** The test of the descriptor and of the size in faio_get_buf succeeds. */
  lemma LemmaAnswered(c: Config, s: State, requests: seq<Request>)
    requires ValidConfig(c) && Inv(c, s) && s.dpc == DFd
    requires AllFit(requests, c.script) && AsksForTheNext(requests, s)
    ensures s.slots[s.idx].fd == s.askFd && s.len <= s.askSize
  {
    hide Ix, Slice, Write, Addr;
    assert PlaceOk(c, s, s.rel);
    assert Fits(requests[s.rel], c.script[s.rel]);
  }

  lemma LemmaDrainerAsks(c: Config, s: State, t: State, requests: seq<Request>)
    requires ValidConfig(c) && Inv(c, s) && DrainerStep(c, s) == Some(t)
    requires AllFit(requests, c.script) && AsksForTheNext(requests, s)
    ensures AsksForTheNext(requests, t) && (s.dpc == DFd ==> t.dpc == DGets)
  {
    if s.dpc == DFd {
      LemmaAnswered(c, s, requests);
    }
    hide Inv, Slice, Write, Addr, AllFit;
  }

  lemma LemmaStepAsks(c: Config, s: State, t: State, requests: seq<Request>)
    requires Inv(c, s) && Next(c, s, t) && CallFrom(requests, s, t)
    requires AllFit(requests, c.script) && AsksForTheNext(requests, s)
    ensures AsksForTheNext(requests, t) && (s.dpc == DFd ==> t.dpc in {DFd, DGets})
  {
    hide Inv, Slice, Write, Addr, AllFit;
    if DrainerStep(c, s) == Some(t) {
      LemmaDrainerAsks(c, s, t, requests);
    } else if FillerStep(c, s) == Some(t) || Scribble(c, s, t) {
      assert t.dpc == s.dpc && t.got == s.got && t.askFd == s.askFd && t.askSize == s.askSize;
    }
  }

  lemma {:induction false} LemmaRunAsks(c: Config, run: seq<State>, requests: seq<Request>, i: nat)
    requires ValidConfig(c) && c.bounded && IsRun(c, run) && CallsFrom(requests, run) && i < |run|
    requires AllFit(requests, c.script)
    ensures AsksForTheNext(requests, run[i])
  {
    hide *;
    if i == 0 {
      LemmaNoCallYet(c, run, requests);
    } else {
      LemmaRunAsks(c, run, requests, i - 1);
      LemmaOneStep(c, run, requests, i - 1);
      LemmaStepAsks(c, run[i - 1], run[i], requests);
    }
  }

  lemma LemmaNoCallYet(c: Config, run: seq<State>, requests: seq<Request>)
    requires IsRun(c, run)
    ensures |run| > 0 && AsksForTheNext(requests, run[0])
  {
    hide Next;
  }

  lemma LemmaOneStep(c: Config, run: seq<State>, requests: seq<Request>, i: nat)
    requires ValidConfig(c) && c.bounded && IsRun(c, run) && CallsFrom(requests, run) && i + 1 < |run|
    ensures Inv(c, run[i]) && Next(c, run[i], run[i + 1]) && CallFrom(requests, run[i], run[i + 1])
  {
    hide Next, Inv, CallFrom;
    RunInv(c, run, i);
  }

  /** When the segments are those faio_reader pushes for a list of tracks, and the calls those write_packet_data makes for
      it, then in every interleaving no call fails, and none goes round again without having advanced. */
  lemma PairedLoopsNeverFail(c: Config, run: seq<State>, tracks: seq<Track>, i: nat)
    requires ValidConfig(c) && c.bounded && IsRun(c, run)
    requires ValidTracks(tracks) && c.script == Script(tracks) && CallsFrom(AllRequests(tracks), run)
    requires i < |run|
    ensures run[i].dpc != DFatal
    ensures run[i].dpc == DFd && i + 1 < |run| ==> run[i + 1].dpc in {DFd, DGets}
    ensures |AllRequests(tracks)| == |c.script|
  {
    hide *;
    LemmaAllFit(tracks);
    LemmaRunAsks(c, run, AllRequests(tracks), i);
    LemmaNotFatal(AllRequests(tracks), run[i]);
    if run[i].dpc == DFd && i + 1 < |run| {
      LemmaOneStep(c, run, AllRequests(tracks), i);
      LemmaStepAsks(c, run[i], run[i + 1], AllRequests(tracks));
    }
  }

  lemma LemmaAllFit(tracks: seq<Track>)
    requires ValidTracks(tracks)
    ensures AllFit(AllRequests(tracks), Script(tracks)) && |AllRequests(tracks)| == |Script(tracks)|
  {
    AllRequestsFit(tracks, |tracks|);
    assert tracks[..|tracks|] == tracks;
  }

  lemma LemmaNotFatal(requests: seq<Request>, s: State)
    requires AsksForTheNext(requests, s)
    ensures s.dpc != DFatal
  {
  }
}
