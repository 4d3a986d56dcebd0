/** do_write (cdda2wav/cdda2wav.c) in bulk mode, without conversion: the stream of samples is cut into one file per
    track. */
module TrackCutting {
  import opened Common

  /** The four bytes of a stereo sample. */
  type Sample = bv32

  /** A closed sample file: the track it is named after, the sample count given to CloseAudio, and what was saved. */
  datatype File = File(track: nat, count: nat, contents: seq<Sample>)

  /** What is recorded: n samples from sample `begin` of the disc on, which is in track `first`. starts[t] is the first
      sample of track t; the last entry is the lead-out. */
  datatype Request = Request(starts: seq<nat>, begin: nat, first: nat, n: nat) {
    ghost predicate Valid() {
      && first + 1 < |starts|
      && (forall i, j | 0 <= i < j < |starts| :: starts[i] <= starts[j])
      && starts[first] <= begin <= starts[first + 1]
      && 0 < n && begin + n <= starts[|starts| - 1]
    }

    /** Where track t begins in a stream of len samples. */
    function Offset(t: nat, len: nat): (o: nat)
      requires t < |starts|
      ensures o <= len
    {
      var o := starts[t] - begin;
      if o < 0 then 0 else if o > len then len else o
    }

    /** The samples of track t in the stream. */
    function Piece(stream: seq<Sample>, t: nat): seq<Sample>
      requires Valid() && t + 1 < |starts|
    {
      stream[Offset(t, |stream|)..Offset(t + 1, |stream|)]
    }

    /** The file of track t, which will not get any more. */
    ghost predicate Complete(stream: seq<Sample>, file: File, t: nat)
      requires Valid() && t + 1 < |starts|
    {
      && file == File(t, |Piece(stream, t)|, Piece(stream, t))
      && (|stream| == n || starts[t + 1] <= begin + |stream|)
    }

    /** Complete files of consecutive tracks. */
    ghost predicate AllComplete(stream: seq<Sample>, files: seq<File>)
      requires Valid()
    {
      first + |files| < |starts| && forall i | 0 <= i < |files| :: Complete(stream, files[i], first + i)
    }

    /** The stream so far is in the closed files and, from the start of the current track on, in the open one. */
    ghost predicate Recording(stream: seq<Sample>, files: seq<File>, audio: seq<Sample>)
      requires Valid()
    {
      && |stream| <= n
      && AllComplete(stream, files)
      && var t := first + |files|;
      && t + 1 < |starts|
      && starts[t] <= begin + |stream| <= starts[t + 1]
      && audio == Piece(stream, t)
    }

    /** The whole stream is in the closed files. */
    ghost predicate Finished(stream: seq<Sample>, files: seq<File>)
      requires Valid()
    {
      && |stream| == n && |files| > 0
      && AllComplete(stream, files)
      && begin + n <= starts[first + |files|]
    }

    /** What every call of do_write keeps. */
    ghost predicate Kept(stream: seq<Sample>, files: seq<File>, audio: seq<Sample>, nSamplesDoneInTrack: nat)
      requires Valid()
    {
      if |stream| < n then Recording(stream, files, audio) && nSamplesDoneInTrack == |audio| else Finished(stream, files)
    }
  }

  lemma LemmaPieces(r: Request, stream: seq<Sample>, chunk: seq<Sample>, t: nat)
    requires r.Valid() && t + 1 < |r.starts|
    ensures r.starts[t + 1] <= r.begin + |stream| ==> r.Piece(stream + chunk, t) == r.Piece(stream, t)
    ensures r.starts[t] <= r.begin + |stream| && r.begin + |stream| + |chunk| <= r.starts[t + 1] ==>
              r.Piece(stream + chunk, t) == r.Piece(stream, t) + chunk
  {
    var len, len' := |stream|, |stream + chunk|;
    if r.starts[t + 1] <= r.begin + len {
      assert r.starts[t] <= r.starts[t + 1];
      assert r.Offset(t, len') == r.Offset(t, len) && r.Offset(t + 1, len') == r.Offset(t + 1, len);
    } else if r.starts[t] <= r.begin + len {
      assert r.Offset(t, len') == r.Offset(t, len) && r.Offset(t + 1, len) == len;
    }
  }

  lemma LemmaBounds(r: Request, stream: seq<Sample>, files: seq<File>, audio: seq<Sample>, nSamplesDoneInTrack: nat)
    requires r.Valid() && r.Kept(stream, files, audio, nSamplesDoneInTrack)
    ensures |stream| <= r.n && r.first + |files| < |r.starts|
  {
  }

  lemma LemmaSave(r: Request, stream: seq<Sample>, files: seq<File>, audio: seq<Sample>, chunk: seq<Sample>)
    requires r.Valid() && r.Recording(stream, files, audio) && |stream| < r.n
    requires |stream| + |chunk| <= r.n && r.begin + |stream| + |chunk| <= r.starts[r.first + |files| + 1]
    ensures r.Recording(stream + chunk, files, audio + chunk)
  {
    hide r.Piece;
    forall i | 0 <= i < |files|
      ensures r.Complete(stream + chunk, files[i], r.first + i)
    {
      LemmaPieces(r, stream, chunk, r.first + i);
    }
    LemmaPieces(r, stream, chunk, r.first + |files|);
  }

  lemma LemmaNoPiece(r: Request, stream: seq<Sample>, t: nat)
    requires r.Valid() && t + 1 < |r.starts| && r.begin + |stream| <= r.starts[t]
    ensures r.Piece(stream, t) == []
  {
    assert r.starts[t] <= r.starts[t + 1];
  }

  lemma LemmaClose(r: Request, stream: seq<Sample>, files: seq<File>, audio: seq<Sample>)
    requires r.Valid() && r.Recording(stream, files, audio)
    requires |stream| == r.n || r.begin + |stream| == r.starts[r.first + |files| + 1]
    ensures |stream| < r.n ==> r.Recording(stream, files + [File(r.first + |files|, |audio|, audio)], [])
    ensures |stream| == r.n ==> r.Finished(stream, files + [File(r.first + |files|, |audio|, audio)])
  {
    hide r.Piece;
    var t := r.first + |files|;
    var files' := files + [File(t, |audio|, audio)];
    if |stream| < r.n {
      assert r.starts[t + 1] < r.starts[|r.starts| - 1];
      assert t + 1 < |r.starts| - 1;
      LemmaNoPiece(r, stream, t + 1);
    }
  }

  class TrackWriter {
    const r: Request
    var nSamplesDone: nat
    var samplesToWrite: int
    var nSamplesDoneInTrack: nat
    var currentTrack: nat
    var audio: seq<Sample>
    var files: seq<File>
    ghost var stream: seq<Sample>

    ghost predicate Valid()
      reads this
    {
      && r.Valid()
      && nSamplesDone == |stream| && samplesToWrite == r.n - |stream|
      && currentTrack == r.first + |files|
      && r.Kept(stream, files, audio, nSamplesDoneInTrack)
    }

    constructor (r: Request)
      requires r.Valid()
      ensures Valid() && this.r == r && stream == [] && files == []
    {
      this.r := r;
      nSamplesDone, samplesToWrite, nSamplesDoneInTrack, currentTrack := 0, r.n, 0, r.first;
      audio, files, stream := [], [], [];
    }

    /** CloseAudio, OpenAudio for the next track if there is more to write, and on to the next track; lines 1604 to
        1746. */
    method NextTrack()
      requires r.Valid() && |stream| <= r.n && samplesToWrite == r.n - |stream| && nSamplesDone == |stream|
      requires currentTrack == r.first + |files|
      requires r.Recording(stream, files, audio) && nSamplesDoneInTrack == |audio|
      requires |stream| == r.n || r.begin + |stream| == r.starts[currentTrack + 1]
      modifies this
      ensures Valid() && stream == old(stream) && currentTrack == old(currentTrack) + 1
    {
      hide r.AllComplete, r.Piece;
      LemmaClose(r, stream, files, audio);
      files := files + [File(currentTrack, nSamplesDoneInTrack, audio)];
      nSamplesDoneInTrack := 0;
      if samplesToWrite > 0 {
        audio := [];
      }
      currentTrack := currentTrack + 1;
    }

    /** SaveBuffer, and what follows from it: one round of do_write. */
    method SavePart(data: array<Sample>, offset: nat, inSamples: nat) returns (howMuch: nat)
      requires Valid() && 0 < inSamples <= r.n - |stream| && offset + inSamples <= data.Length
      modifies this
      ensures Valid() && howMuch <= inSamples && stream == old(stream) + data[offset..offset + howMuch]
      ensures old(currentTrack) + 1 < |r.starts|
      ensures r.begin + old(|stream|) <= r.begin + |stream| <= r.starts[old(currentTrack) + 1]
      ensures howMuch == inSamples || r.begin + |stream| == r.starts[old(currentTrack) + 1]
      ensures howMuch == 0 ==> currentTrack == old(currentTrack) + 1
    {
      hide r.Complete, r.AllComplete, r.Piece;
      howMuch := inSamples;
      var leftInTrack := r.starts[currentTrack + 1] - (r.begin + nSamplesDone);
      assert leftInTrack >= 0;
      if leftInTrack < howMuch {
        howMuch := leftInTrack;
      }
      LemmaSave(r, stream, files, audio, data[offset..offset + howMuch]);
      audio := audio + data[offset..offset + howMuch];
      stream := stream + data[offset..offset + howMuch];
      nSamplesDone := nSamplesDone + howMuch;
      nSamplesDoneInTrack := nSamplesDoneInTrack + howMuch;
      samplesToWrite := samplesToWrite - howMuch;
      if leftInTrack <= inSamples || samplesToWrite == 0 {
        NextTrack();
      }
    }

    /** One round of do_write: the samples left after the end of a track are moved to where these began. */
    method Round(data: array<Sample>, offset: nat, inSamples: nat) returns (rest: nat)
      requires Valid() && 0 < inSamples <= r.n - |stream| && offset + inSamples <= data.Length
      modifies this, data
      ensures Valid() && rest <= inSamples
      ensures stream == old(stream) + old(data[offset..offset + inSamples])[..inSamples - rest]
      ensures data[offset..offset + rest] == old(data[offset..offset + inSamples])[inSamples - rest..]
      ensures rest == inSamples ==> currentTrack == old(currentTrack) + 1
    {
      hide r.Complete, r.AllComplete, r.Piece, r.Recording, r.Finished;
      var howMuch := SavePart(data, offset, inSamples);
      rest := inSamples - howMuch;
      if howMuch < inSamples {
        MoveUp(data, offset, howMuch, inSamples);
      }
    }

    /** The loop of do_write, lines 1555 to 1751. */
    method WriteSamples(data: array<Sample>, offset: nat, wantedSamples: nat)
      requires Valid() && wantedSamples <= r.n - |stream| && offset + wantedSamples <= data.Length
      modifies this, data
      ensures Valid() && stream == old(stream) + old(data[offset..offset + wantedSamples])
    {
      hide r.Kept, r.Valid, Passed;
      var inSamples: nat := wantedSamples;
      ghost var wanted, stream0 := data[offset..offset + inSamples], stream;
      LemmaBounds(r, stream, files, audio, nSamplesDoneInTrack);
      LemmaPassedNone(stream0, wanted);
      while nSamplesDone < r.n && inSamples != 0
        invariant Valid() && inSamples <= wantedSamples
        invariant |stream0| + wantedSamples <= r.n && |stream| == |stream0| + wantedSamples - inSamples
        invariant Passed(stream0, wanted, inSamples, stream, data[offset..offset + inSamples])
        invariant currentTrack <= |r.starts|
        decreases inSamples, |r.starts| - currentTrack
      {
        ghost var before, stream1, here := inSamples, stream, data[offset..offset + inSamples];
        inSamples := Round(data, offset, inSamples);
        LemmaPassed(stream0, wanted, before, stream1, here, inSamples, stream, data[offset..offset + inSamples]);
        LemmaBounds(r, stream, files, audio, nSamplesDoneInTrack);
      }
      LemmaPassedAll(stream0, wanted, stream, data[offset..offset + inSamples]);
    }

    /** do_write: save what is still wanted of the samples from `offset` on. */
    method DoWrite(data: array<Sample>, offset: nat)
      requires Valid() && offset <= data.Length
      modifies this, data
      ensures Valid()
      ensures var k := if r.n - old(|stream|) < data.Length - offset then r.n - old(|stream|) else data.Length - offset;
              0 <= k && stream == old(stream) + old(data[offset..offset + k])
    {
      hide r.Kept, r.Valid;
      LemmaBounds(r, stream, files, audio, nSamplesDoneInTrack);
      var inSamples := data.Length - offset;
      if r.n - nSamplesDone < inSamples {
        inSamples := r.n - nSamplesDone;
      }
      WriteSamples(data, offset, inSamples);
    }

    /** memmove of the residual samples, lines 1596 to 1602. */
    static method MoveUp(data: array<Sample>, offset: nat, howMuch: nat, inSamples: nat)
      requires howMuch < inSamples && offset + inSamples <= data.Length
      modifies data
      ensures data[offset..offset + (inSamples - howMuch)] == old(data[offset + howMuch..offset + inSamples])
    {
      forall k | 0 <= k < inSamples - howMuch {
        data[offset + k] := data[offset + howMuch + k];
      }
    }
  }

  /** Of the wanted samples, all but the last `left` are in the stream, and these are `here`. */
  ghost predicate Passed(stream0: seq<Sample>, wanted: seq<Sample>, left: nat, stream: seq<Sample>, here: seq<Sample>) {
    left <= |wanted| && stream == stream0 + wanted[..|wanted| - left] && here == wanted[|wanted| - left..]
  }

  lemma LemmaPassedNone(stream0: seq<Sample>, wanted: seq<Sample>)
    ensures Passed(stream0, wanted, |wanted|, stream0, wanted)
  {
  }

  lemma LemmaPassed(stream0: seq<Sample>, wanted: seq<Sample>, left: nat, stream: seq<Sample>, here: seq<Sample>,
                    left': nat, stream': seq<Sample>, here': seq<Sample>)
    requires Passed(stream0, wanted, left, stream, here) && left' <= left
    requires stream' == stream + here[..left - left'] && here' == here[left - left'..]
    ensures Passed(stream0, wanted, left', stream', here')
    ensures |stream'| == |stream0| + |wanted| - left'
  {
    assert wanted[..|wanted| - left] + wanted[|wanted| - left..][..left - left'] == wanted[..|wanted| - left'];
  }

  lemma LemmaPassedAll(stream0: seq<Sample>, wanted: seq<Sample>, stream: seq<Sample>, here: seq<Sample>)
    requires Passed(stream0, wanted, 0, stream, here)
    ensures stream == stream0 + wanted
  {
    assert wanted[..|wanted|] == wanted;
  }

  // ----- what the files hold together

  function Contents(files: seq<File>): seq<Sample> {
    if files == [] then [] else Contents(files[..|files| - 1]) + files[|files| - 1].contents
  }

  /** The closed files and the open one hold the stream so far: nothing is lost, repeated or moved. */
  lemma {:induction false} FilesHoldTheStream(r: Request, stream: seq<Sample>, files: seq<File>)
    requires r.Valid() && r.AllComplete(stream, files)
    ensures Contents(files) == stream[..r.Offset(r.first + |files|, |stream|)]
  {
    hide r.Offset, r.Valid;
    if files == [] {
      LemmaOffsets(r, |stream|, r.first, r.first);
    } else {
      var t := r.first + |files| - 1;
      FilesHoldTheStream(r, stream, files[..|files| - 1]);
      LemmaOffsets(r, |stream|, t, t + 1);
      assert r.Complete(stream, files[|files| - 1], t);
      var a, b := r.Offset(t, |stream|), r.Offset(t + 1, |stream|);
      assert stream[..b] == stream[..a] + stream[a..b];
    }
  }

  lemma LemmaOffsets(r: Request, len: nat, t: nat, t': nat)
    requires r.Valid() && t <= t' < |r.starts|
    ensures r.Offset(t, len) <= r.Offset(t', len)
    ensures r.Offset(r.first, len) == 0
  {
    assert t < t' ==> r.starts[t] <= r.starts[t'];
  }

  /** Sample j of the stream belongs to the track of file i, and is in that file, at the place it has in that track or,
      in the first track, after the beginning of the recording. */
  ghost predicate IsInFile(r: Request, stream: seq<Sample>, file: File, t: nat, j: nat)
    requires r.Valid() && t + 1 < |r.starts| && j < |stream| <= r.n
  {
    && r.starts[t] <= r.begin + j < r.starts[t + 1]
    && file.track == t && file.count == |file.contents|
    && r.Offset(t, r.n) <= j < r.Offset(t, r.n) + |file.contents|
    && file.contents[j - r.Offset(t, r.n)] == stream[j]
  }

  lemma LemmaIsInFile(r: Request, stream: seq<Sample>, files: seq<File>, i: nat, j: nat)
    requires r.Valid() && r.Finished(stream, files) && j < r.n && i < |files|
    requires r.starts[r.first + i] <= r.begin + j < r.starts[r.first + i + 1]
    ensures IsInFile(r, stream, files[i], r.first + i, j)
  {
    assert r.Complete(stream, files[i], r.first + i);
  }

  /** Once all is recorded, every sample is in the file of the track that holds it. */
  lemma EverySampleIsInItsTrack(r: Request, stream: seq<Sample>, files: seq<File>, j: nat)
    requires r.Valid() && r.Finished(stream, files) && j < r.n
    ensures r.first + |files| < |r.starts|
    ensures exists i | 0 <= i < |files| :: IsInFile(r, stream, files[i], r.first + i, j)
  {
    hide r.Finished, IsInFile;
    LemmaEnough(r, stream, files);
    var i := FindTrack(r, j, |files|);
    LemmaIsInFile(r, stream, files, i, j);
  }

  lemma {:induction false} FindTrack(r: Request, j: nat, k: nat) returns (i: nat)
    requires r.Valid() && r.first + k < |r.starts| && r.begin + j < r.starts[r.first + k]
    ensures i < k && r.starts[r.first + i] <= r.begin + j < r.starts[r.first + i + 1]
  {
    assert k > 0;
    if r.begin + j < r.starts[r.first + (k - 1)] {
      i := FindTrack(r, j, k - 1);
    } else {
      i := k - 1;
    }
  }

  lemma LemmaEnough(r: Request, stream: seq<Sample>, files: seq<File>)
    requires r.Valid() && r.Finished(stream, files)
    ensures r.first + |files| < |r.starts| && r.begin + r.n <= r.starts[r.first + |files|]
  {
  }

  lemma LemmaJoined(buffers: seq<seq<Sample>>, k: nat)
    requires k < |buffers|
    ensures Joined(buffers[..k + 1]) == Joined(buffers[..k]) + buffers[k]
  {
    assert buffers[..k + 1][..k] == buffers[..k];
  }

  lemma {:induction false} LemmaJoinedPrefix(buffers: seq<seq<Sample>>, k: nat, m: nat)
    requires k <= m <= |buffers|
    ensures Joined(buffers[..k]) <= Joined(buffers[..m])
  {
    if k < m {
      LemmaJoinedPrefix(buffers, k, m - 1);
      LemmaJoined(buffers, m - 1);
    }
  }

  lemma LemmaDone(r: Request, stream: seq<Sample>, files: seq<File>, audio: seq<Sample>, inTrack: nat)
    requires r.Valid() && r.Kept(stream, files, audio, inTrack) && |stream| >= r.n
    ensures r.Finished(stream, files) && Contents(files) == stream
  {
    FilesHoldTheStream(r, stream, files);
    assert stream[..|stream|] == stream;
  }

  /** One more buffer, of which k samples are wanted. */
  lemma LemmaBuffer(buffers: seq<seq<Sample>>, k: nat, stream: seq<Sample>, wanted: nat)
    requires k < |buffers| && wanted <= |buffers[k]| && stream == Joined(buffers[..k])
    ensures stream + buffers[k][..wanted] <= Joined(buffers)
    ensures wanted == |buffers[k]| ==> stream + buffers[k][..wanted] == Joined(buffers[..k + 1])
  {
    LemmaJoined(buffers, k);
    LemmaJoinedPrefix(buffers, k + 1, |buffers|);
    assert buffers[..|buffers|] == buffers;
  }

  /** A buffer of the ring: the samples read, and where the new ones begin (get_offset). */
  datatype Buffer = Buffer(offset: nat, data: seq<Sample>)

  ghost predicate ValidBuffers(buffers: seq<Buffer>) {
    forall k | 0 <= k < |buffers| :: buffers[k].offset <= |buffers[k].data|
  }

  /** The new samples of each buffer. */
  function NewParts(buffers: seq<Buffer>): (p: seq<seq<Sample>>)
    requires ValidBuffers(buffers)
    ensures |p| == |buffers|
    ensures forall k | 0 <= k < |p| :: p[k] == buffers[k].data[buffers[k].offset..]
  {
    seq(|buffers|, k requires 0 <= k < |buffers| && buffers[k].offset <= |buffers[k].data|
          => buffers[k].data[buffers[k].offset..])
  }

  /** forked_write, lines 1813 to 1822: the buffers one by one, each from its own offset, until all is written. */
  method ForkedWrite(r: Request, buffers: seq<Buffer>) returns (files: seq<File>)
    requires r.Valid() && ValidBuffers(buffers) && r.n <= |Joined(NewParts(buffers))|
    ensures r.Finished(Joined(NewParts(buffers))[..r.n], files)
    ensures Contents(files) == Joined(NewParts(buffers))[..r.n]
  {
    hide r.Kept, r.Finished, r.Valid, Joined, NewParts;
    ghost var parts := NewParts(buffers);
    var w := new TrackWriter(r);
    var k := 0;
    LemmaNoBuffers(parts);
    while w.nSamplesDone < r.n
      invariant k <= |buffers| && w.Valid() && w.r == r && fresh(w)
      invariant |w.stream| <= r.n && w.stream <= Joined(parts)
      invariant |w.stream| < r.n ==> w.stream == Joined(parts[..k])
      decreases |buffers| - k
    {
      assert k < |buffers|;
      var b := buffers[k];
      var data := new Sample[|b.data|](i requires 0 <= i < |b.data| => b.data[i]);
      assert data[..] == b.data;
      ghost var stream := w.stream;
      ghost var wanted := if r.n - |stream| < |parts[k]| then r.n - |stream| else |parts[k]|;
      LemmaBuffer(parts, k, stream, wanted);
      LemmaTail(b.data, b.offset, wanted);
      assert data[b.offset..b.offset + wanted] == b.data[b.offset..b.offset + wanted];
      w.DoWrite(data, b.offset);
      k := k + 1;
    }
    files := w.files;
    LemmaDone(r, w.stream, files, w.audio, w.nSamplesDoneInTrack);
    assert w.stream == Joined(parts)[..r.n];
  }

  lemma LemmaTail(s: seq<Sample>, offset: nat, k: nat)
    requires offset + k <= |s|
    ensures s[offset..][..k] == s[offset..offset + k]
  {
  }

  lemma LemmaNoBuffers(buffers: seq<seq<Sample>>)
    ensures Joined(buffers[..0]) == [] && buffers[..|buffers|] == buffers
  {
  }
}
