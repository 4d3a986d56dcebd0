/** collect_tracks (cdda2wav/scsi_cmds.c): the 11-byte entries of a full TOC are filtered and then rewritten as 8-byte
    entries, all within one buffer. */
module TocCompaction {
  import opened Arith
  import opened Common

  const HEADER := 4
  const LONG := 11
  const SHORT := 8

  /** struct tocdesc: session, adrctl, tno, point, three bytes of address, and zero, mins, secs, frame. */
  type Entry = e: seq<Octet> | |e| == 11 witness [0, 0, 0, 0, 0, 0, 0, 0, 0, 0, 0]

  function FromBcd(b: Octet): (r: Octet) {
    b % 16 + 10 * (b / 16)
  }

  lemma BcdDigits(d: Octet, u: Octet)
    requires d < 10 && u < 10
    ensures FromBcd(16 * d + u) == 10 * d + u
  {
  }

  /** The conversions of lines 448 to 454. */
  function Decoded(e: Entry, bcd: bool): (r: Entry) {
    if bcd then
      [FromBcd(e[0]), e[1], e[2], e[3], FromBcd(e[4]), FromBcd(e[5]), FromBcd(e[6]), e[7],
       FromBcd(e[8]), FromBcd(e[9]), FromBcd(e[10])]
    else e
  }

  /** The start address, dvd_lba. */
  function Start(e: Entry): nat {
    e[7] as nat * 1053696 + e[8] as nat * 60 * 75 + e[9] as nat * 75 + e[10] as nat
  }

  /** An entry that is not for a track. */
  predicate Special(point: Octet) {
    0xA0 <= point <= 0xA2 || 0xB0 <= point <= 0xB6 || 0xC0 <= point <= 0xC1
  }

  /** The variables of the filter; first and last are bytes 2 and 3 of the buffer. */
  datatype Scan = Scan(first: Octet, last: Octet, session: Octet, lastStart: nat, leadoutOrig: nat, leadout: nat,
                       firstSessionLeadout: nat)

  const INITIAL := Scan(0, 0, 0, 0, 0, 0, 0)

  /** A track entry, decoded. */
  function Track(e: Entry, bcd: bool): Entry {
    Decoded(e, bcd)[3 := if bcd then FromBcd(e[3]) else e[3]]
  }

  /** What the filter asks of an entry: a track of the current session, between the first and the last track number, that
      starts neither before the previous one nor exactly at the lead-out. */
  predicate Accepts(st: Scan, e: Entry, bcd: bool) {
    var t := Track(e, bcd);
    && !Special(e[3]) && t[0] == st.session && st.first <= t[3] <= st.last
    && st.lastStart <= Start(t) && Start(t) != st.leadout
  }

  /** How an entry changes the variables. */
  function Next(st: Scan, e: Entry, bcd: bool): Scan {
    var d := Decoded(e, bcd);
    if e[3] == 0xA0 then
      st.(session := if st.session + 1 == d[0] then d[0] else st.session,
          first := if st.first < d[8] && st.last < d[8] then d[8] else st.first)
    else if e[3] == 0xA1 then
      st.(last := if st.first <= d[8] && st.last < d[8] then d[8] else st.last)
    else if e[3] == 0xA2 then
      st.(firstSessionLeadout :=
            if st.firstSessionLeadout == 0 then (Start(d) - 150) % 0x1_0000_0000 else st.firstSessionLeadout,
          leadoutOrig := if Start(d) > st.leadout then Start(d) else st.leadoutOrig,
          leadout := if Start(d) > st.leadout then Start(d) else st.leadout)
    else if Special(e[3]) || d[0] != st.session || !(st.first <= Track(e, bcd)[3] <= st.last) then st
    else
      st.(leadout := if st.leadout < Start(d) then Start(d) + 1 else st.leadout,
          lastStart := if Accepts(st, e, bcd) then Start(d) else st.lastStart)
  }

  function EntryAt(s: seq<Octet>, i: nat): (e: Entry)
    requires HEADER + LONG * (i + 1) <= |s|
  {
    s[HEADER + LONG * i..HEADER + LONG * i + LONG]
  }

  /** The variables before entry n. */
  function Run(s: seq<Octet>, n: nat, bcd: bool, st: Scan): Scan
    requires HEADER + LONG * n <= |s|
  {
    if n == 0 then st else Next(Run(s, n - 1, bcd, st), EntryAt(s, n - 1), bcd)
  }

  /** The accepted ones of the first n entries. */
  function Kept(s: seq<Octet>, n: nat, bcd: bool, st: Scan): (k: seq<Entry>)
    requires HEADER + LONG * n <= |s|
    ensures |k| <= n
  {
    if n == 0 then []
    else Kept(s, n - 1, bcd, st)
         + if Accepts(Run(s, n - 1, bcd, st), EntryAt(s, n - 1), bcd) then [Track(EntryAt(s, n - 1), bcd)] else []
  }

  // ----- what is kept

  /** The entries kept are in order of their start addresses. */
  lemma {:induction false} KeptInOrder(s: seq<Octet>, n: nat, bcd: bool, st: Scan, i: nat, j: nat)
    requires HEADER + LONG * n <= |s| && i <= j < |Kept(s, n, bcd, st)|
    ensures Start(Kept(s, n, bcd, st)[i]) <= Start(Kept(s, n, bcd, st)[j]) <= Run(s, n, bcd, st).lastStart
  {
    hide Start, Track, Accepts, Next;
    LemmaAccepted(Run(s, n - 1, bcd, st), EntryAt(s, n - 1), bcd);
    var before := Kept(s, n - 1, bcd, st);
    if j < |before| {
      KeptInOrder(s, n - 1, bcd, st, i, j);
    } else if i < |before| {
      KeptInOrder(s, n - 1, bcd, st, i, i);
    }
  }

  lemma LemmaAccepted(st: Scan, e: Entry, bcd: bool)
    ensures if Accepts(st, e, bcd) then st.lastStart <= Start(Track(e, bcd)) == Next(st, e, bcd).lastStart
            else Next(st, e, bcd).lastStart == st.lastStart
  {
    hide Start, FromBcd;
    assert Start(Track(e, bcd)) == Start(Decoded(e, bcd)) by {
      LemmaStart(e, bcd);
    }
  }

  lemma LemmaStart(e: Entry, bcd: bool)
    ensures Start(Track(e, bcd)) == Start(Decoded(e, bcd))
  {
    hide FromBcd;
  }

  /** The indices of the accepted entries. */
  function Picked(s: seq<Octet>, n: nat, bcd: bool, st: Scan): (p: seq<nat>)
    requires HEADER + LONG * n <= |s|
    ensures |p| == |Kept(s, n, bcd, st)|
    ensures forall k | 0 <= k < |p| :: p[k] < n
  {
    if n == 0 then []
    else Picked(s, n - 1, bcd, st)
         + if Accepts(Run(s, n - 1, bcd, st), EntryAt(s, n - 1), bcd) then [n - 1] else []
  }

  /** The entries kept are exactly the accepted ones, each once and in their order. */
  lemma {:induction false} KeptAreTheAccepted(s: seq<Octet>, n: nat, bcd: bool, st: Scan)
    requires HEADER + LONG * n <= |s|
    ensures forall i, j | 0 <= i < j < |Picked(s, n, bcd, st)| :: Picked(s, n, bcd, st)[i] < Picked(s, n, bcd, st)[j]
    ensures forall i | 0 <= i < n ::
              i in Picked(s, n, bcd, st) <==> Accepts(Run(s, i, bcd, st), EntryAt(s, i), bcd)
    ensures forall k | 0 <= k < |Picked(s, n, bcd, st)| ::
              Kept(s, n, bcd, st)[k] == Track(EntryAt(s, Picked(s, n, bcd, st)[k]), bcd)
  {
    hide Accepts, Run, Track, EntryAt;
    if n > 0 {
      KeptAreTheAccepted(s, n - 1, bcd, st);
      var p, q := Picked(s, n - 1, bcd, st), Picked(s, n, bcd, st);
      assert q == p || q == p + [n - 1];
    }
  }

  /** A track of the current session, with a number in range, that does not start before the previous one is left out of
      the list if and only if it starts exactly at the lead-out recorded so far; starting behind it does no harm. */
  lemma LeftOutExactlyAtTheLeadOut(s: seq<Octet>, n: nat, bcd: bool, st: Scan)
    requires HEADER + LONG * (n + 1) <= |s|
    requires var before, t := Run(s, n, bcd, st), Track(EntryAt(s, n), bcd);
             && !Special(EntryAt(s, n)[3]) && t[0] == before.session
             && before.first <= t[3] <= before.last && before.lastStart <= Start(t)
    ensures Kept(s, n + 1, bcd, st) == Kept(s, n, bcd, st)
            <==> Start(Track(EntryAt(s, n), bcd)) == Run(s, n, bcd, st).leadout
  {
    hide Start, Track, Run;
  }

  /** A TOC of one track, with the lead-out at 0:10:00 and the track `frame` frames later. */
  function ShortToc(frame: Octet): (s: seq<Octet>)
    ensures |s| == HEADER + LONG * 4
  {
    [0, 46, 1, 1]
    + [1, 0x10, 0, 0xA0, 0, 0, 0, 0, 1, 0, 0]
    + [1, 0x10, 0, 0xA1, 0, 0, 0, 0, 1, 0, 0]
    + [1, 0x10, 0, 0xA2, 0, 0, 0, 0, 0, 10, 0]
    + [1, 0x10, 0, 1, 0, 0, 0, 0, 0, 10, frame]
  }

  lemma LemmaShortToc(frame: Octet)
    ensures EntryAt(ShortToc(frame), 0) == [1, 0x10, 0, 0xA0, 0, 0, 0, 0, 1, 0, 0]
    ensures EntryAt(ShortToc(frame), 1) == [1, 0x10, 0, 0xA1, 0, 0, 0, 0, 1, 0, 0]
    ensures EntryAt(ShortToc(frame), 2) == [1, 0x10, 0, 0xA2, 0, 0, 0, 0, 0, 10, 0]
    ensures EntryAt(ShortToc(frame), 3) == [1, 0x10, 0, 1, 0, 0, 0, 0, 0, 10, frame]
  {
  }

  /** There, a track exactly at the lead-out is dropped, and one that starts a frame later is kept. */
  lemma TrackAtTheLeadOutIsDropped()
    ensures Kept(ShortToc(0), 4, false, INITIAL) == []
    ensures Kept(ShortToc(1), 4, false, INITIAL) == [EntryAt(ShortToc(1), 3)]
  {
    LemmaShortTocKept(0);
    LemmaShortTocKept(1);
  }

  lemma LemmaShortTocKept(frame: Octet)
    ensures Kept(ShortToc(frame), 4, false, INITIAL) == if frame == 0 then [] else [EntryAt(ShortToc(frame), 3)]
  {
    var s := ShortToc(frame);
    LemmaShortToc(frame);
    hide ShortToc, EntryAt;
    LemmaShortTocRun(frame);
    assert Kept(s, 1, false, INITIAL) == [];
    assert Kept(s, 2, false, INITIAL) == [];
    assert Kept(s, 3, false, INITIAL) == [];
    assert Track(EntryAt(s, 3), false) == EntryAt(s, 3);
  }

  lemma LemmaShortTocRun(frame: Octet)
    ensures Run(ShortToc(frame), 3, false, INITIAL) == Scan(1, 1, 1, 0, 750, 750, 600)
  {
    var s := ShortToc(frame);
    LemmaShortToc(frame);
    hide ShortToc, EntryAt;
    assert Run(s, 0, false, INITIAL) == INITIAL;
    assert Run(s, 1, false, INITIAL) == Scan(1, 0, 1, 0, 0, 0, 0);
    assert Run(s, 2, false, INITIAL) == Scan(1, 1, 1, 0, 0, 0, 0);
  }

  // ----- the lead-out

  /** The entry patched in for the lead-out, lines 645 to 655. */
  function LeadOut(session: Octet, start: nat): (e: Entry) {
    [session, 0x10, 0, 0xAA, 0, 0, 0, start / 1053696 % 256, start / (60 * 75) % 100, start / 75 % 60, start % 75]
  }

  /** The patched address reads back as the one of the disc if and only if that is below 100 minutes: the minutes do not
      leave out what the `zero` byte stands for. */
  lemma LeadOutReadsBack(session: Octet, start: nat)
    requires start <= 255 * 1053696 + 255 * 60 * 75 + 255 * 75 + 255
    ensures Start(LeadOut(session, start)) == start <==> start < 100 * 60 * 75
  {
    var z, m := start / 1053696, start % 450000;
    LemmaMinutes(start);
    assert Start(LeadOut(session, start)) == z % 256 * 1053696 + m;
    if start >= 450000 && z % 256 * 1053696 + m == start {
      LemmaNoCommonMultiple(z % 256, start / 450000);
    }
  }

  lemma LemmaMinutes(start: nat)
    ensures start / 4500 % 100 * 4500 + start / 75 % 60 * 75 + start % 75 == start % 450000
  {
    var f, r := start / 75, start % 75;
    var m, s := f / 60, f % 60;
    var h, n := m / 100, m % 100;
    LemmaDivModUnique(start, 4500, m, s * 75 + r);
    LemmaDivModUnique(start, 450000, h, n * 4500 + s * 75 + r);
  }

  /** 1053696 = 48 * 21952 and 450000 = 48 * 9375, with no further common factor. */
  lemma LemmaNoCommonMultiple(z: nat, k: nat)
    requires z < 256 && z * 1053696 == k * 450000
    ensures z == 0
  {
    assert z * 21952 == k * 9375;
    assert 2638 * 21952 - 6177 * 9375 == 1;
    assert z == 9375 * (2638 * k - 6177 * z);
  }
}
