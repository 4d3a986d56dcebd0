/** collect_tracks on the buffer itself: entries are decoded where they are, accepted ones are copied down, and the 8-byte
    entries are written over the 11-byte ones they are made from. */
module TocInPlace {
  import opened Common
  import opened TocCompaction

  /** The local variables of collect_tracks, and first_session_leadout. */
  datatype Vars = Vars(session: Octet, lastStart: nat, leadoutOrig: nat, leadout: nat, firstSessionLeadout: nat)

  function ScanOf(first: Octet, last: Octet, v: Vars): Scan {
    Scan(first, last, v.session, v.lastStart, v.leadoutOrig, v.leadout, v.firstSessionLeadout)
  }

  /** Nothing but bytes lo to hi - 1 differs. */
  ghost predicate SameBut(s: seq<Octet>, t: seq<Octet>, lo: nat, hi: nat) {
    |s| == |t| && forall k | 0 <= k < |s| && !(lo <= k < hi) :: s[k] == t[k]
  }

  method DecodeMsf(buf: array<Octet>, at: nat)
    requires at + 3 <= buf.Length
    modifies buf
    ensures buf[at..at + 3] == [FromBcd(old(buf[at])), FromBcd(old(buf[at + 1])), FromBcd(old(buf[at + 2]))]
    ensures SameBut(old(buf[..]), buf[..], at, at + 3)
  {
    hide FromBcd;
    buf[at] := FromBcd(buf[at]);
    buf[at + 1] := FromBcd(buf[at + 1]);
    buf[at + 2] := FromBcd(buf[at + 2]);
  }

  method DecodeEntry(buf: array<Octet>, at: nat)
    requires at + LONG <= buf.Length
    modifies buf
    ensures buf[at..at + LONG] == Decoded(old(buf[at..at + LONG]), true)
    ensures SameBut(old(buf[..]), buf[..], at, at + LONG)
    ensures at >= HEADER ==> buf[2] == old(buf[2]) && buf[3] == old(buf[3])
  {
    hide FromBcd;
    ghost var s := buf[..];
    buf[at] := FromBcd(buf[at]);
    ghost var s1 := buf[..];
    DecodeMsf(buf, at + 4);
    ghost var s2 := buf[..];
    DecodeMsf(buf, at + 8);
    LemmaDecoded(s, s1, s2, buf[..], at);
    assert buf[at..at + LONG] == buf[..][at..at + LONG] && old(buf[at..at + LONG]) == s[at..at + LONG];
  }

  lemma LemmaDecoded(s: seq<Octet>, s1: seq<Octet>, s2: seq<Octet>, s3: seq<Octet>, at: nat)
    requires at + LONG <= |s| && s1 == s[at := FromBcd(s[at])]
    requires SameBut(s1, s2, at + 4, at + 7) && SameBut(s2, s3, at + 8, at + 11)
    requires s2[at + 4..at + 7] == [FromBcd(s1[at + 4]), FromBcd(s1[at + 5]), FromBcd(s1[at + 6])]
    requires s3[at + 8..at + 11] == [FromBcd(s2[at + 8]), FromBcd(s2[at + 9]), FromBcd(s2[at + 10])]
    ensures s3[at..at + LONG] == Decoded(s[at..at + LONG], true) && SameBut(s, s3, at, at + LONG)
  {
    hide FromBcd;
    assert s2[at + 4..at + 7] == [s2[at + 4], s2[at + 5], s2[at + 6]];
    assert s3[at + 8..at + 11] == [s3[at + 8], s3[at + 9], s3[at + 10]];
  }

  /** memcpy of an entry. */
  method CopyEntry(buf: array<Octet>, to: nat, from: nat)
    requires to <= from && from + LONG <= buf.Length
    modifies buf
    ensures buf[to..to + LONG] == old(buf[from..from + LONG])
    ensures SameBut(old(buf[..]), buf[..], to, to + LONG)
  {
    forall k | 0 <= k < LONG {
      buf[to + k] := buf[from + k];
    }
  }

  /** Point 0xA0: the session and the first track number. */
  method OnFirstTrack(buf: array<Octet>, e: Entry, v0: Vars) returns (v: Vars)
    requires buf.Length >= HEADER
    modifies buf
    ensures v == v0.(session := if v0.session + 1 == e[0] then e[0] else v0.session)
    ensures buf[2] == if old(buf[2]) < e[8] && old(buf[3]) < e[8] then e[8] else old(buf[2])
    ensures buf[3] == old(buf[3]) && SameBut(old(buf[..]), buf[..], 2, 3)
  {
    v := v0;
    if v.session + 1 == e[0] {
      v := v.(session := e[0]);
    }
    if buf[2] < e[8] && buf[3] < e[8] {
      buf[2] := e[8];
    }
  }

  /** Point 0xA1: the last track number. */
  method OnLastTrack(buf: array<Octet>, e: Entry)
    requires buf.Length >= HEADER
    modifies buf
    ensures buf[3] == if old(buf[2]) <= e[8] && old(buf[3]) < e[8] then e[8] else old(buf[3])
    ensures buf[2] == old(buf[2]) && SameBut(old(buf[..]), buf[..], 3, 4)
  {
    if buf[2] <= e[8] && buf[3] < e[8] {
      buf[3] := e[8];
    }
  }

  /** Point 0xA2: the lead-out. */
  method OnLeadOut(e: Entry, v0: Vars) returns (v: Vars)
    ensures v.session == v0.session && v.lastStart == v0.lastStart
    ensures v.firstSessionLeadout
            == if v0.firstSessionLeadout == 0 then (Start(e) - 150) % 0x1_0000_0000 else v0.firstSessionLeadout
    ensures if Start(e) > v0.leadout then v.leadoutOrig == v.leadout == Start(e)
            else v.leadoutOrig == v0.leadoutOrig && v.leadout == v0.leadout
  {
    v := v0;
    var tmp := Start(e);
    if v.firstSessionLeadout == 0 {
      v := v.(firstSessionLeadout := (tmp - 150) % 0x1_0000_0000);
    }
    if tmp > v.leadout {
      v := v.(leadoutOrig := tmp);
      v := v.(leadout := tmp);
    }
  }

  /** A track: the position checks of lines 622 to 639. */
  method OnTrack(start: nat, v0: Vars) returns (v: Vars, keep: bool)
    ensures keep <==> v0.lastStart <= start && start != v0.leadout
    ensures v == v0.(leadout := if v0.leadout < start then start + 1 else v0.leadout,
                     lastStart := if keep then start else v0.lastStart)
  {
    v := v0;
    if v.leadout < start {
      v := v.(leadout := start + 1);
    }
    if start < v.lastStart || start >= v.leadout {
      keep := false;
    } else {
      v := v.(lastStart := start);
      keep := true;
    }
  }

  /** Only the header, and what lies between the kept entries and the ones not yet read, may differ. */
  ghost predicate Framed(s: seq<Octet>, t: seq<Octet>, tracks: nat, i: nat) {
    && |s| == |t| && HEADER + LONG * tracks <= |s|
    && forall k | HEADER <= k < HEADER + LONG * tracks || HEADER + LONG * (i + 1) <= k < |s| :: s[k] == t[k]
  }

  /** The default case of the switch, for an entry of the current session, lines 610 to 640. */
  method ScanTrack(buf: array<Octet>, i: nat, tracks0: nat, bcd: bool, v0: Vars) returns (v: Vars, tracks: nat)
    requires HEADER + LONG * (i + 1) <= buf.Length && tracks0 <= i
    modifies buf
    ensures var d := EntryAt(old(buf[..]), i);
            var t: Entry := d[3 := if bcd then FromBcd(d[3]) else d[3]];
            var inRange := old(buf[2]) <= t[3] <= old(buf[3]);
            var accepted := inRange && v0.lastStart <= Start(t) && Start(t) != v0.leadout;
            && v == (if inRange then v0.(leadout := if v0.leadout < Start(t) then Start(t) + 1 else v0.leadout,
                                         lastStart := if accepted then Start(t) else v0.lastStart) else v0)
            && tracks == (if accepted then tracks0 + 1 else tracks0)
            && (accepted ==> EntryAt(buf[..], tracks0) == t)
    ensures buf[2] == old(buf[2]) && buf[3] == old(buf[3]) && Framed(old(buf[..]), buf[..], tracks0, i)
  {
    hide FromBcd, Start;
    v, tracks := v0, tracks0;
    var at := HEADER + LONG * i;
    ghost var d := EntryAt(buf[..], i);
    if bcd {
      buf[at + 3] := FromBcd(buf[at + 3]);
    }
    assert buf[at..at + LONG] == d[3 := if bcd then FromBcd(d[3]) else d[3]];
    if buf[2] <= buf[at + 3] <= buf[3] {
      var keep;
      v, keep := OnTrack(Start(buf[at..at + LONG]), v);
      if keep {
        CopyEntry(buf, HEADER + LONG * tracks, at);
        assert EntryAt(buf[..], tracks) == buf[HEADER + LONG * tracks..HEADER + LONG * tracks + LONG];
        tracks := tracks + 1;
      }
    }
  }

  /** One round of the loop of lines 439 to 642. */
  method ScanEntry(buf: array<Octet>, i: nat, tracks0: nat, bcd: bool, v0: Vars) returns (v: Vars, tracks: nat)
    requires HEADER + LONG * (i + 1) <= buf.Length && tracks0 <= i
    modifies buf
    ensures ScanOf(buf[2], buf[3], v)
            == Next(ScanOf(old(buf[2]), old(buf[3]), v0), EntryAt(old(buf[..]), i), bcd)
    ensures var accepted := Accepts(ScanOf(old(buf[2]), old(buf[3]), v0), EntryAt(old(buf[..]), i), bcd);
            && tracks == (if accepted then tracks0 + 1 else tracks0)
            && (accepted ==> EntryAt(buf[..], tracks0) == Track(EntryAt(old(buf[..]), i), bcd))
    ensures Framed(old(buf[..]), buf[..], tracks0, i)
  {
    hide FromBcd, Start, SameBut, Framed, Next, Accepts, Track, Decoded;
    v, tracks := v0, tracks0;
    var at := HEADER + LONG * i;
    ghost var s, e := buf[..], EntryAt(buf[..], i);
    ghost var st := ScanOf(buf[2], buf[3], v0);
    LemmaSame(s, at);
    LemmaNotDecoded(e);
    if bcd {
      DecodeEntry(buf, at);
    }
    ghost var s1 := buf[..];
    var d: Entry := buf[at..at + LONG];
    assert d == EntryAt(s1, i) == Decoded(e, bcd);
    LemmaPoint(e, bcd);
    if d[3] == 0xA0 {
      LemmaNextFirst(st, e, bcd);
      v := OnFirstTrack(buf, d, v);
      LemmaFramed(s, s1, buf[..], tracks, i, 2);
    } else if d[3] == 0xA1 {
      LemmaNextLast(st, e, bcd);
      OnLastTrack(buf, d);
      LemmaFramed(s, s1, buf[..], tracks, i, 3);
    } else if d[3] == 0xA2 {
      LemmaNextLeadOut(st, e, bcd);
      v := OnLeadOut(d, v);
      LemmaFramed(s, s1, s1, tracks, i, 2);
    } else if d[3] !in {0xB0, 0xB1, 0xB2, 0xB3, 0xB4, 0xB5, 0xB6, 0xC0, 0xC1} && v.session == d[0] {
      LemmaNextTrack(st, e, bcd);
      LemmaFramed(s, s1, s1, tracks, i, 2);
      v, tracks := ScanTrack(buf, i, tracks, bcd, v);
      LemmaFramedTwice(s, s1, buf[..], tracks0, i);
    } else {
      LemmaNextNothing(st, e, bcd);
      LemmaFramed(s, s1, s1, tracks, i, 2);
    }
  }

  lemma LemmaNotDecoded(e: Entry)
    ensures Decoded(e, false) == e
  {
  }

  lemma LemmaPoint(e: Entry, bcd: bool)
    ensures Decoded(e, bcd)[3] == e[3]
  {
    hide FromBcd;
  }

  // ----- the cases of the filter, one by one

  lemma LemmaNextFirst(st: Scan, e: Entry, bcd: bool)
    requires e[3] == 0xA0
    ensures !Accepts(st, e, bcd)
    ensures var d := Decoded(e, bcd);
            Next(st, e, bcd) == st.(session := if st.session + 1 == d[0] then d[0] else st.session,
                                    first := if st.first < d[8] && st.last < d[8] then d[8] else st.first)
  {
    hide Decoded, Start;
  }

  lemma LemmaNextLast(st: Scan, e: Entry, bcd: bool)
    requires e[3] == 0xA1
    ensures !Accepts(st, e, bcd)
    ensures var d := Decoded(e, bcd);
            Next(st, e, bcd) == st.(last := if st.first <= d[8] && st.last < d[8] then d[8] else st.last)
  {
    hide Decoded, Start;
  }

  lemma LemmaNextLeadOut(st: Scan, e: Entry, bcd: bool)
    requires e[3] == 0xA2
    ensures !Accepts(st, e, bcd)
    ensures var d, t := Decoded(e, bcd), Next(st, e, bcd);
            && t.first == st.first && t.last == st.last && t.session == st.session && t.lastStart == st.lastStart
            && t.firstSessionLeadout
               == (if st.firstSessionLeadout == 0 then (Start(d) - 150) % 0x1_0000_0000 else st.firstSessionLeadout)
            && if Start(d) > st.leadout then t.leadoutOrig == t.leadout == Start(d)
               else t.leadoutOrig == st.leadoutOrig && t.leadout == st.leadout
  {
    hide Decoded, Start;
  }

  lemma LemmaNextTrack(st: Scan, e: Entry, bcd: bool)
    requires !Special(e[3]) && st.session == Decoded(e, bcd)[0]
    ensures var d := Decoded(e, bcd);
            var t: Entry := d[3 := if bcd then FromBcd(d[3]) else d[3]];
            var inRange := st.first <= t[3] <= st.last;
            && t == Track(e, bcd)
            && (Accepts(st, e, bcd) <==> inRange && st.lastStart <= Start(t) && Start(t) != st.leadout)
            && Next(st, e, bcd)
               == (if inRange then st.(leadout := if st.leadout < Start(t) then Start(t) + 1 else st.leadout,
                                       lastStart := if Accepts(st, e, bcd) then Start(t) else st.lastStart) else st)
  {
    LemmaPoint(e, bcd);
    LemmaStart(e, bcd);
    hide Decoded, Start, FromBcd;
  }

  lemma LemmaNextNothing(st: Scan, e: Entry, bcd: bool)
    requires e[3] != 0xA0 && e[3] != 0xA1 && e[3] != 0xA2
    requires Special(e[3]) || st.session != Decoded(e, bcd)[0]
    ensures !Accepts(st, e, bcd) && Next(st, e, bcd) == st
  {
    hide Decoded, Start, FromBcd;
  }

  lemma LemmaSame(s: seq<Octet>, at: nat)
    ensures SameBut(s, s, at, at + LONG)
  {
  }

  lemma LemmaFramed(s: seq<Octet>, s1: seq<Octet>, t: seq<Octet>, tracks: nat, i: nat, h: nat)
    requires HEADER + LONG * (i + 1) <= |s| && tracks <= i && h < HEADER
    requires SameBut(s, s1, HEADER + LONG * i, HEADER + LONG * i + LONG)
    requires t == s1 || SameBut(s1, t, h, h + 1)
    ensures Framed(s, t, tracks, i)
  {
  }

  lemma LemmaFramedTwice(s: seq<Octet>, s1: seq<Octet>, t: seq<Octet>, tracks: nat, i: nat)
    requires Framed(s, s1, tracks, i) && Framed(s1, t, tracks, i)
    ensures Framed(s, t, tracks, i)
  {
  }

  // ----- rewriting

  /** The 8-byte form of an entry: a reserved byte, control and address, whose nibbles are exchanged, the track number,
      another reserved byte, and the start address. */
  ghost predicate Shortens(t: seq<Octet>, e: Entry) {
    && |t| == SHORT
    && t[0] == 0 && t[3] == 0
    && t[1] / 16 == e[1] % 16 && t[1] % 16 == e[1] / 16
    && t[2] == e[3]
    && t[4..8] == e[7..11]
  }

  function ShortAt(s: seq<Octet>, i: nat): (t: seq<Octet>)
    requires HEADER + SHORT * (i + 1) <= |s|
  {
    s[HEADER + SHORT * i..HEADER + SHORT * i + SHORT]
  }

  /** The first four assignments; source and destination may overlap. */
  method RewriteHead(buf: array<Octet>, to: nat, from: nat)
    requires to <= from && from + 4 <= buf.Length
    modifies buf
    ensures buf[to] == 0 && buf[to + 2] == old(buf[from + 3]) && buf[to + 3] == 0
    ensures buf[to + 1] / 16 == old(buf[from + 1]) % 16 && buf[to + 1] % 16 == old(buf[from + 1]) / 16
    ensures SameBut(old(buf[..]), buf[..], to, to + 4)
  {
    buf[to] := 0;
    buf[to + 1] := buf[from + 1];
    buf[to + 1] := buf[to + 1] / 16 + buf[to + 1] % 16 * 16;
    buf[to + 2] := buf[from + 3];
    buf[to + 3] := 0;
  }

  /** The last four, which move the address. */
  method RewriteAddress(buf: array<Octet>, to: nat, from: nat)
    requires to <= from && from + LONG <= buf.Length
    modifies buf
    ensures buf[to + 4..to + 8] == old(buf[from + 7..from + 11])
    ensures SameBut(old(buf[..]), buf[..], to + 4, to + 8)
  {
    buf[to + 4] := buf[from + 7];
    buf[to + 5] := buf[from + 8];
    buf[to + 6] := buf[from + 9];
    buf[to + 7] := buf[from + 10];
  }

  /** The body of the loop of lines 677 to 697; source and destination overlap in the first entries. */
  method RewriteEntry(buf: array<Octet>, i: nat)
    requires HEADER + LONG * (i + 1) <= buf.Length
    modifies buf
    ensures Shortens(ShortAt(buf[..], i), EntryAt(old(buf[..]), i))
    ensures SameBut(old(buf[..]), buf[..], HEADER + SHORT * i, HEADER + SHORT * i + SHORT)
  {
    hide SameBut, Shortens;
    ghost var s := buf[..];
    var to, from := HEADER + SHORT * i, HEADER + LONG * i;
    RewriteHead(buf, to, from);
    ghost var s1 := buf[..];
    RewriteAddress(buf, to, from);
    ghost var s2 := buf[..];
    assert s2[to + 4..to + 8] == s1[from + 7..from + 11];
    LemmaRewrite(s, s1, s2, i, to, from);
  }

  lemma LemmaRewrite(s: seq<Octet>, s1: seq<Octet>, s2: seq<Octet>, i: nat, to: nat, from: nat)
    requires HEADER + LONG * (i + 1) <= |s| && to == HEADER + SHORT * i && from == HEADER + LONG * i
    requires SameBut(s, s1, to, to + 4) && SameBut(s1, s2, to + 4, to + 8)
    requires s1[to] == 0 && s1[to + 2] == s[from + 3] && s1[to + 3] == 0
    requires s1[to + 1] / 16 == s[from + 1] % 16 && s1[to + 1] % 16 == s[from + 1] / 16
    requires s2[to + 4..to + 8] == s1[from + 7..from + 11]
    ensures Shortens(ShortAt(s2, i), EntryAt(s, i)) && SameBut(s, s2, to, to + SHORT)
  {
    assert s1[from + 7..from + 11] == s[from + 7..from + 11];
    assert ShortAt(s2, i)[4..8] == s2[to + 4..to + 8];
    assert EntryAt(s, i)[7..11] == s[from + 7..from + 11];
  }

  /** Whether the first entries are the ones of a list. */
  ghost predicate LongEntries(s: seq<Octet>, list: seq<Entry>, from: nat) {
    HEADER + LONG * |list| <= |s| && forall k | from <= k < |list| :: EntryAt(s, k) == list[k]
  }

  ghost predicate ShortEntries(s: seq<Octet>, list: seq<Entry>, to: nat) {
    to <= |list| && HEADER + SHORT * |list| <= |s| && forall k | 0 <= k < to :: Shortens(ShortAt(s, k), list[k])
  }

  lemma LemmaRewritten(s: seq<Octet>, t: seq<Octet>, list: seq<Entry>, i: nat)
    requires i < |list| && |s| == |t| && LongEntries(s, list, i) && ShortEntries(s, list, i)
    requires Shortens(ShortAt(t, i), EntryAt(s, i)) && SameBut(s, t, HEADER + SHORT * i, HEADER + SHORT * i + SHORT)
    ensures LongEntries(t, list, i + 1) && ShortEntries(t, list, i + 1)
  {
    hide Shortens;
    forall k | i + 1 <= k < |list|
      ensures EntryAt(t, k) == list[k]
    {
      assert EntryAt(t, k) == EntryAt(s, k);
    }
    forall k | 0 <= k < i + 1
      ensures Shortens(ShortAt(t, k), list[k])
    {
      assert k < i ==> ShortAt(t, k) == ShortAt(s, k);
    }
  }

  /** No write reaches a byte that is still to be read. */
  method RewriteEntries(buf: array<Octet>, tracks: nat, ghost list: seq<Entry>)
    requires tracks == |list| && LongEntries(buf[..], list, 0)
    modifies buf
    ensures ShortEntries(buf[..], list, tracks)
    ensures buf[..HEADER] == old(buf[..HEADER])
  {
    hide LongEntries, ShortEntries;
    LemmaNoneRewritten(buf[..], list);
    for i := 0 to tracks
      invariant LongEntries(buf[..], list, i) && ShortEntries(buf[..], list, i)
      invariant buf[..HEADER] == old(buf[..HEADER])
    {
      ghost var s := buf[..];
      LemmaRoomFor(s, list, i);
      RewriteEntry(buf, i);
      LemmaRewritten(s, buf[..], list, i);
      LemmaHeader(s, buf[..], HEADER + SHORT * i, HEADER + SHORT * i + SHORT);
    }
  }

  lemma LemmaNoneRewritten(s: seq<Octet>, list: seq<Entry>)
    requires LongEntries(s, list, 0)
    ensures ShortEntries(s, list, 0)
  {
  }

  lemma LemmaRoomFor(s: seq<Octet>, list: seq<Entry>, i: nat)
    requires LongEntries(s, list, i) && i < |list|
    ensures HEADER + LONG * (i + 1) <= |s|
  {
  }

  lemma LemmaHeader(s: seq<Octet>, t: seq<Octet>, lo: nat, hi: nat)
    requires SameBut(s, t, lo, hi) && HEADER <= lo && HEADER <= |s|
    ensures s[..HEADER] == t[..HEADER]
  {
  }

  // ----- the whole

  /** The entries from i on are still what they were. */
  ghost predicate Unread(s: seq<Octet>, t: seq<Octet>, i: nat) {
    |s| == |t| && HEADER + LONG * i <= |s| && forall k | HEADER + LONG * i <= k < |s| :: s[k] == t[k]
  }

  lemma LemmaScanned(s: seq<Octet>, b: seq<Octet>, b': seq<Octet>, i: nat, kept: seq<Entry>, more: seq<Entry>)
    requires HEADER + LONG * (i + 1) <= |s| && |kept| <= i
    requires Unread(s, b, i) && LongEntries(b, kept, 0) && Framed(b, b', |kept|, i)
    requires more == [] || (|more| == 1 && EntryAt(b', |kept|) == more[0])
    ensures Unread(s, b', i + 1) && LongEntries(b', kept + more, 0)
  {
    forall k | 0 <= k < |kept + more|
      ensures EntryAt(b', k) == (kept + more)[k]
    {
      assert k < |kept| ==> EntryAt(b', k) == EntryAt(b, k);
    }
  }

  lemma LemmaUnread(s: seq<Octet>, t: seq<Octet>, i: nat)
    requires Unread(s, t, i) && HEADER + LONG * (i + 1) <= |s|
    ensures EntryAt(t, i) == EntryAt(s, i)
  {
  }

  /** The loop of lines 432 to 642. */
  method FilterEntries(buf: array<Octet>, entries: nat, bcd: bool, firstSessionLeadout: nat)
    returns (v: Vars, tracks: nat)
    requires HEADER + LONG * entries <= buf.Length
    modifies buf
    ensures ScanOf(buf[2], buf[3], v) == Run(old(buf[..]), entries, bcd, Begin(firstSessionLeadout))
    ensures LongEntries(buf[..], Kept(old(buf[..]), entries, bcd, Begin(firstSessionLeadout)), 0)
    ensures tracks == |Kept(old(buf[..]), entries, bcd, Begin(firstSessionLeadout))|
  {
    hide Unread, LongEntries, Framed, Next, Accepts, Track;
    ghost var s, st := buf[..], Begin(firstSessionLeadout);
    buf[2] := 0;
    buf[3] := 0;
    v, tracks := Vars(0, 0, 0, 0, firstSessionLeadout), 0;
    LemmaNothingRead(s, buf[..]);
    for i := 0 to entries
      invariant ScanOf(buf[2], buf[3], v) == Run(s, i, bcd, st)
      invariant tracks == |Kept(s, i, bcd, st)| && LongEntries(buf[..], Kept(s, i, bcd, st), 0)
      invariant Unread(s, buf[..], i)
    {
      ghost var b, kept, st', e := buf[..], Kept(s, i, bcd, st), Run(s, i, bcd, st), EntryAt(s, i);
      LemmaUnread(s, b, i);
      v, tracks := ScanEntry(buf, i, tracks, bcd, v);
      LemmaScanned(s, b, buf[..], i, kept, if Accepts(st', e, bcd) then [Track(e, bcd)] else []);
    }
  }

  function Begin(firstSessionLeadout: nat): Scan {
    INITIAL.(firstSessionLeadout := firstSessionLeadout)
  }

  lemma LemmaNothingRead(s: seq<Octet>, t: seq<Octet>)
    requires SameBut(s, t, 2, 4) && HEADER <= |s|
    ensures Unread(s, t, 0) && LongEntries(t, [], 0)
  {
  }

  /** What is written out: the entries kept, and the lead-out. */
  function Written(s: seq<Octet>, entries: nat, bcd: bool, st: Scan): (list: seq<Entry>)
    requires HEADER + LONG * entries <= |s|
    ensures |list| <= entries + 1
  {
    var end := Run(s, entries, bcd, st);
    Kept(s, entries, bcd, st) + [LeadOut(end.session, end.leadoutOrig)]
  }

  /** The patch of lines 645 to 655. */
  method PatchLeadOut(buf: array<Octet>, at: nat, session: Octet, start: nat)
    requires at + LONG <= buf.Length
    modifies buf
    ensures buf[at..at + LONG] == LeadOut(session, start)
    ensures SameBut(old(buf[..]), buf[..], at, at + LONG)
  {
    ghost var s := buf[..];
    PatchHead(buf, at, session);
    ghost var s1 := buf[..];
    assert s1[at..at + 7] == buf[at..at + 7];
    PatchAddress(buf, at + 7, start);
    LemmaPatch(s, s1, buf[..], at, session, start);
    assert buf[at..at + LONG] == buf[..][at..at + LONG];
  }

  method PatchHead(buf: array<Octet>, at: nat, session: Octet)
    requires at + 7 <= buf.Length
    modifies buf
    ensures buf[at..at + 7] == [session, 0x10, 0, 0xAA, 0, 0, 0] && SameBut(old(buf[..]), buf[..], at, at + 7)
  {
    buf[at] := session;
    buf[at + 1] := 0x10;
    buf[at + 2] := 0;
    buf[at + 3] := 0xAA;
    buf[at + 4] := 0;
    buf[at + 5] := 0;
    buf[at + 6] := 0;
  }

  lemma LemmaPatch(s: seq<Octet>, s1: seq<Octet>, s2: seq<Octet>, at: nat, session: Octet, start: nat)
    requires at + LONG <= |s| && SameBut(s, s1, at, at + 7) && SameBut(s1, s2, at + 7, at + LONG)
    requires s1[at..at + 7] == [session, 0x10, 0, 0xAA, 0, 0, 0]
    requires s2[at + 7..at + 11] == [start / 1053696 % 256, start / (60 * 75) % 100, start / 75 % 60, start % 75]
    ensures s2[at..at + LONG] == LeadOut(session, start) && SameBut(s, s2, at, at + LONG)
  {
    assert s2[at..at + 7] == s1[at..at + 7];
    assert s2[at..at + LONG] == s2[at..at + 7] + s2[at + 7..at + LONG];
  }

  method PatchAddress(buf: array<Octet>, at: nat, start: nat)
    requires at + 4 <= buf.Length
    modifies buf
    ensures buf[at..at + 4] == [start / 1053696 % 256, start / (60 * 75) % 100, start / 75 % 60, start % 75]
    ensures SameBut(old(buf[..]), buf[..], at, at + 4)
  {
    buf[at] := start / 1053696 % 256;
    buf[at + 1] := start / (60 * 75) % 100;
    buf[at + 2] := start / 75 % 60;
    buf[at + 3] := start % 75;
  }

  /** collect_tracks: the buffer ends up with the accepted entries and the lead-out as 8-byte entries. */
  method CollectTracks(buf: array<Octet>, entries: nat, bcd: bool, firstSessionLeadout0: nat)
    returns (tracks: nat, firstSessionLeadout: nat)
    requires HEADER + LONG * (entries + 1) <= buf.Length
    modifies buf
    ensures var st := Begin(firstSessionLeadout0);
            var end := Run(old(buf[..]), entries, bcd, st);
            var list := Written(old(buf[..]), entries, bcd, st);
            && tracks == |list| && ShortEntries(buf[..], list, tracks)
            && buf[0] == (tracks * SHORT + 2) / 256 % 256 && buf[1] == (tracks * SHORT + 2) % 256
            && buf[2] == end.first && buf[3] == end.last
            && firstSessionLeadout == end.firstSessionLeadout
  {
    hide Run, Kept, LongEntries, ShortEntries, LeadOut;
    ghost var s, st := buf[..], Begin(firstSessionLeadout0);
    ghost var end, kept, list := Run(s, entries, bcd, st), Kept(s, entries, bcd, st), Written(s, entries, bcd, st);
    var v;
    v, tracks := FilterEntries(buf, entries, bcd, firstSessionLeadout0);
    ghost var b := buf[..];
    PatchLeadOut(buf, HEADER + LONG * tracks, v.session, v.leadoutOrig);
    LemmaPatched(b, buf[..], kept, LeadOut(v.session, v.leadoutOrig));
    tracks := tracks + 1;
    b := buf[..];
    buf[0] := (tracks * SHORT + 2) / 256 % 256;
    buf[1] := (tracks * SHORT + 2) % 256;
    LemmaLength(b, buf[..], list);
    b := buf[..];
    RewriteEntries(buf, tracks, list);
    assert buf[0] == buf[..HEADER][0] && buf[1] == buf[..HEADER][1];
    assert buf[2] == buf[..HEADER][2] && buf[3] == buf[..HEADER][3];
    firstSessionLeadout := v.firstSessionLeadout;
  }

  lemma LemmaPatched(s: seq<Octet>, t: seq<Octet>, kept: seq<Entry>, e: Entry)
    requires LongEntries(s, kept, 0) && HEADER + LONG * (|kept| + 1) <= |s|
    requires SameBut(s, t, HEADER + LONG * |kept|, HEADER + LONG * |kept| + LONG)
    requires t[HEADER + LONG * |kept|..HEADER + LONG * |kept| + LONG] == e
    ensures LongEntries(t, kept + [e], 0)
  {
    forall k | 0 <= k < |kept + [e]|
      ensures EntryAt(t, k) == (kept + [e])[k]
    {
      assert k < |kept| ==> EntryAt(t, k) == EntryAt(s, k);
    }
  }

  lemma LemmaLength(s: seq<Octet>, t: seq<Octet>, list: seq<Entry>)
    requires LongEntries(s, list, 0) && SameBut(s, t, 0, 2)
    ensures LongEntries(t, list, 0)
  {
    forall k | 0 <= k < |list|
      ensures EntryAt(t, k) == list[k]
    {
      assert EntryAt(t, k) == EntryAt(s, k);
    }
  }
}
