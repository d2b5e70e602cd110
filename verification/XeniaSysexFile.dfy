/** iter_sysex undoes the writing of a Standard MIDI File: it returns exactly the
    messages the file puts on the wire. */
module XeniaSysexFile {
  import opened Bytes
  import opened Smf
  import opened XeniaSysex

  // ----- Quantities -----

  lemma {:induction false} ReadVarlenAt(data: bytes, pos: nat, v: bytes, left: nat, acc: nat)
    requires At(data, pos, v) && VlqShape(v) && |v| <= left
    ensures ReadVarlen(data, pos, left, acc) == Ok((Accumulate(acc, v), pos + |v|))
    decreases left
  {
    if |v| > 1 {
      ReadVarlenAt(data, pos + 1, v[1..], left - 1, acc * 128 + v[0] % 128);
    } else {
      assert v[1..] == [];
    }
  }

  lemma {:induction false} SkipDeltaAt(data: bytes, cur: nat, end: nat, v: bytes)
    requires At(data, cur, v) && VlqShape(v) && cur + |v| <= end
    ensures SkipDelta(data, cur, end) == Ok(cur + |v|)
    decreases |v|
  {
    if |v| > 1 {
      SkipDeltaAt(data, cur + 1, end, v[1..]);
    }
  }

  // ----- Events -----

  function PacketOf(e: Event, fragment: Option<bytes>): Packets {
    match e
    case SysEx(_, data) => Packet(0xF0, data, fragment)
    case Escape(_, data) => Packet(0xF7, data, fragment)
    case _ => Packets([], fragment)
  }

  /** The messages of a track, packet by packet. */
  function Reassemble(events: seq<Event>, fragment: Option<bytes>): seq<bytes> {
    if events == [] then Flush(fragment)
    else
      var k := PacketOf(events[0], fragment);
      k.out + Reassemble(events[1..], k.fragment)
  }

  lemma {:induction false} StatusDataIsDataLength(status: byte)
    requires 0x80 <= status < 0xF0
    ensures StatusData(status) == DataLength(status)
  {
  }

  /** read_varlen finds the count of a counted field. */
  lemma {:induction false} VarlenField(data: bytes, at: nat, lead: bytes, d: bytes)
    requires At(data, at, lead + (Vlq(|d|) + d)) && |d| < VLQ_LIMIT && lead != []
    ensures var p := at + |lead| + |Vlq(|d|)|;
            && p <= |data| && data[at] == lead[0]
            && ReadVarlen(data, at + |lead|, 4, 0) == Ok((|d|, p))
            && Slice(data, p, p + |d|) == d
  {
    hide Vlq, At;
    CountedField(data, at, lead, d);
    ReadVarlenAt(data, at + |lead|, Vlq(|d|), 4, 0);
  }

  /** What one turn of the walker makes of a legal event. */
  ghost predicate Steps(data: bytes, end: nat, c: Cursor, e: Event, legal: Option<byte>, to: nat) {
    var t := Step(data, end, c);
    && t.Next?
    && Packets(t.out, t.to.fragment) == PacketOf(e, c.fragment)
    && t.to.cur == to
    && Follows(t.to.running, NextRunning(e, legal))
  }

  lemma {:induction false} StepPacket(data: bytes, end: nat, c: Cursor, at: nat, e: Event, legal: Option<byte>)
    requires (e.SysEx? || e.Escape?) && |e.data| < VLQ_LIMIT
    requires SkipDelta(data, c.cur, end) == Ok(at) && At(data, at, Body(e)) && at < end
    ensures Steps(data, end, c, e, legal, at + |Body(e)|)
  {
    hide Slice, ReadVarlen, Vlq, At, SkipDelta, Packet;
    VarlenField(data, at, [if e.SysEx? then 0xF0 else 0xF7], e.data);
  }

  lemma {:induction false} StepMeta(data: bytes, end: nat, c: Cursor, at: nat, e: Event, legal: Option<byte>)
    requires e.Meta? && |e.data| < VLQ_LIMIT
    requires SkipDelta(data, c.cur, end) == Ok(at) && At(data, at, Body(e)) && at < end
    ensures Steps(data, end, c, e, legal, at + |Body(e)|)
  {
    hide Slice, ReadVarlen, Vlq, At, SkipDelta, Packet;
    VarlenField(data, at, [0xFF, e.kind], e.data);
  }

  lemma {:induction false} StepChannel(data: bytes, end: nat, c: Cursor, at: nat, e: Event, legal: Option<byte>)
    requires e.Channel? || e.Running?
    requires ValidStatus(legal) && Legal(e, legal) && Follows(c.running, legal)
    requires SkipDelta(data, c.cur, end) == Ok(at) && At(data, at, Body(e)) && at < end
    ensures Steps(data, end, c, e, legal, at + |Body(e)|)
  {
    StatusDataIsDataLength(if e.Channel? then e.status else legal.value);
    assert data[at] == Body(e)[0];
  }

  lemma {:induction false} StepEvent(data: bytes, end: nat, c: Cursor, e: Event, legal: Option<byte>)
    requires ValidStatus(legal) && Legal(e, legal) && Follows(c.running, legal)
    requires At(data, c.cur, Vlq(e.delta) + Body(e)) && c.cur + |Vlq(e.delta) + Body(e)| <= end
    ensures Steps(data, end, c, e, legal, c.cur + |Vlq(e.delta) + Body(e)|)
  {
    var delta := Vlq(e.delta);
    VlqReads(e.delta);
    AtSplit(data, c.cur, delta, Body(e));
    SkipDeltaAt(data, c.cur, end, delta);
    var at := c.cur + |delta|;
    if e.Channel? || e.Running? {
      StepChannel(data, end, c, at, e, legal);
    } else if e.Meta? {
      StepMeta(data, end, c, at, e, legal);
    } else {
      StepPacket(data, end, c, at, e, legal);
    }
  }

  lemma {:induction false} WalkNext(data: bytes, end: nat, c: Cursor)
    requires c.cur < end && Step(data, end, c).Next?
    ensures var t := Step(data, end, c); Walk(data, end, c) == Prepend(t.out, Walk(data, end, t.to))
  {
    hide Step, Prepend;
  }

  lemma {:induction false} WalkEnds(data: bytes, end: nat, c: Cursor)
    requires c.cur >= end
    ensures Walk(data, end, c) == Ok(Flush(c.fragment))
  {
  }

  lemma {:induction false} WalkTrack(data: bytes, end: nat, c: Cursor, events: seq<Event>, legal: Option<byte>)
    requires ValidStatus(legal) && LegalTrack(events, legal) && Follows(c.running, legal)
    requires At(data, c.cur, WriteTrack(events)) && end == c.cur + |WriteTrack(events)|
    ensures Walk(data, end, c) == Ok(Reassemble(events, c.fragment))
    decreases |events|
  {
    hide Walk, Step, At, Flush, PacketOf, Vlq, Body;
    if events == [] {
      WalkEnds(data, end, c);
    } else {
      var e := events[0];
      VlqNonEmpty(e.delta);
      AtSplit(data, c.cur, Vlq(e.delta) + Body(e), WriteTrack(events[1..]));
      StepEvent(data, end, c, e, legal);
      WalkNext(data, end, c);
      WalkTrack(data, end, Step(data, end, c).to, events[1..], NextRunning(e, legal));
    }
  }

  function ReassembleTracks(tracks: seq<seq<Event>>): seq<bytes> {
    if tracks == [] then [] else Reassemble(tracks[0], None) + ReassembleTracks(tracks[1..])
  }

  lemma {:induction false} TrackChunk(data: bytes, pos: nat, body: bytes, rest: bytes)
    requires |body| < 0x1_0000_0000
    requires At(data, pos, MTRK + (U32(|body|) + (body + rest)))
    ensures pos + 8 <= |data| && data[pos..pos + 4] == MTRK && BigEndian(data[pos + 4..pos + 8]) == |body|
    ensures At(data, pos + 8, body) && At(data, pos + 8 + |body|, rest)
  {
    var length := U32(|body|);
    AtSplit(data, pos, MTRK, length + (body + rest));
    AtSlice(data, pos, MTRK);
    AtSplit(data, pos + 4, length, body + rest);
    AtSlice(data, pos + 4, length);
    AtSplit(data, pos + 8, body, rest);
    BigEndianU32(|body|);
  }

  lemma {:induction false} TrackTurn(data: bytes, pos: nat, events: seq<Event>, rest: bytes, count: nat)
    requires count > 0 && LegalTrack(events, None) && |WriteTrack(events)| < 0x1_0000_0000
    requires At(data, pos, MTRK + (U32(|WriteTrack(events)|) + (WriteTrack(events) + rest)))
    ensures At(data, pos + 8 + |WriteTrack(events)|, rest)
    ensures WalkTracks(data, pos, count)
         == Prepend(Reassemble(events, None), WalkTracks(data, pos + 8 + |WriteTrack(events)|, count - 1))
  {
    hide WalkTracks, Walk, At, WriteTrack, LegalTrack, Reassemble, BigEndian;
    var body := WriteTrack(events);
    TrackChunk(data, pos, body, rest);
    WalkTrack(data, pos + 8 + |body|, Cursor(pos + 8, None, None), events, None);
    WalkTracksTurn(data, pos, count);
  }

  lemma {:induction false} WalkAllTracks(data: bytes, pos: nat, tracks: seq<seq<Event>>)
    requires forall t :: t in tracks ==> LegalTrack(t, None) && |WriteTrack(t)| < 0x1_0000_0000
    requires At(data, pos, WriteTracks(tracks))
    ensures WalkTracks(data, pos, |tracks|) == Ok(ReassembleTracks(tracks))
    decreases |tracks|
  {
    hide Walk, Step, At, LegalTrack, WalkTracks, WriteTrack, U32;
    if tracks == [] {
      WalkTracksTurn(data, pos, 0);
    } else {
      TrackTurn(data, pos, tracks[0], WriteTracks(tracks[1..]), |tracks|);
      WalkAllTracks(data, pos + 8 + |WriteTrack(tracks[0])|, tracks[1..]);
    }
  }

  /** Where the header fields of a written file stand. */
  lemma {:induction false} HeaderFields(f: File)
    requires f.Valid()
    ensures var data := f.Serialize();
            && Slice(data, 0, 4) == MTHD
            && BigEndian(Slice(data, 4, 8)) == 6 + |f.extra|
            && BigEndian(Slice(data, 10, 12)) == |f.tracks|
            && At(data, 14 + |f.extra|, WriteTracks(f.tracks))
            && |data| >= 14
  {
    var data, tracks := f.Serialize(), WriteTracks(f.tracks);
    var n, m, k, d := U32(6 + |f.extra|), U16(f.format), U16(|f.tracks|), U16(f.division);
    BigEndianU32(6 + |f.extra|);
    BigEndianU16(|f.tracks|);
    SliceAt(data, 0, data);
    hide At, WriteTracks, U16, U32, BigEndian;
    AtSplit(data, 0, MTHD, n + (m + (k + (d + (f.extra + tracks)))));
    AtSlice(data, 0, MTHD);
    AtSplit(data, 4, n, m + (k + (d + (f.extra + tracks))));
    AtSlice(data, 4, n);
    AtSplit(data, 8, m, k + (d + (f.extra + tracks)));
    AtSplit(data, 10, k, d + (f.extra + tracks));
    AtSlice(data, 10, k);
    AtSplit(data, 12, d, f.extra + tracks);
    AtSplit(data, 14, f.extra, tracks);
  }

  /** Parse undoes print, for every legal file whatever its packets hold. */
  lemma {:induction false} ParseUndoesPrint(f: File)
    requires f.Valid()
    ensures SysexOf(f.Serialize()) == Ok(ReassembleTracks(f.tracks))
  {
    HeaderFields(f);
    WalkAllTracks(f.Serialize(), 14 + |f.extra|, f.tracks);
  }

  // ----- The wire -----

  lemma {:induction false} FindAfter(s: bytes, b: int, from: nat, n: nat)
    requires from <= n <= |s| && forall i :: from <= i < n ==> s[i] != b
    ensures Find(s, b, from) == Find(s, b, n)
    decreases n - from
  {
    if from < n {
      FindAfter(s, b, from + 1, n);
    }
  }

  /** A complete message: F0, then no F7 before the last byte, which is F7. */
  predicate Framed(m: bytes) {
    |m| >= 2 && m[0] == 0xF0 && EndsF7(m) && forall i :: 0 <= i < |m| - 1 ==> m[i] != 0xF7
  }

  lemma {:induction false} RawSkips(junk: bytes, rest: bytes)
    requires 0xF0 !in junk
    ensures RawMessages(junk + rest) == RawMessages(rest)
  {
    var s := junk + rest;
    forall i | 0 <= i < |junk| ensures s[i] != 0xF0 { assert s[i] == junk[i] && junk[i] in junk; }
    FindAfter(s, 0xF0, 0, |junk|);
    assert s[|junk|..] == rest && s[0..] == s;
    RawTurn(s, |junk|);
    RawTurn(s, 0);
  }

  /** One framed message in front of anything is the next message of a raw scan. */
  lemma {:induction false} RawTakes(m: bytes, rest: bytes)
    requires Framed(m)
    ensures RawMessages(m + rest) == [m] + RawMessages(rest)
  {
    var s := m + rest;
    assert Find(s, 0xF0, 0) == 0;
    forall i | 0 <= i < |m| - 1 ensures s[i] != 0xF7 { assert s[i] == m[i]; }
    FindAfter(s, 0xF7, 0, |m| - 1);
    assert Find(s, 0xF7, |m| - 1) == |m| - 1;
    assert s[0..|m|] == m && s[|m|..] == rest;
  }

  /** A message still open: F0, then only 7-bit bytes. */
  predicate OpenMessage(f: bytes) {
    f != [] && f[0] == 0xF0 && SevenBit(f[1..])
  }

  /** Packet data either completes an open message or leaves it open. */
  lemma {:induction false} OpenGrows(f: bytes, data: bytes)
    requires OpenMessage(f) && PacketData(data)
    ensures EndsF7(f + data) == EndsF7(data)
    ensures if EndsF7(data) then Framed(f + data) else OpenMessage(f + data)
  {
    var body := if EndsF7(data) then data[..|data| - 1] else data;
    var g := f + body;
    forall i | 1 <= i < |g| ensures g[i] < 128 {
      assert g[i] == if i < |f| then f[1..][i - 1] else body[i - |f|];
    }
    if EndsF7(data) {
      assert forall i :: 0 <= i < |f + data| - 1 ==> (f + data)[i] == g[i];
    } else {
      assert !EndsF7(f + data) by {
        if data == [] { assert f + data == f; assert |f| > 1 ==> f[1..][|f| - 2] == f[|f| - 1]; }
      }
    }
  }

  function Pending(open: bytes): Option<bytes> {
    if open == [] then None else Some(open)
  }

  /** The open message after one event, [] when none is open. */
  function NextOpen(e: Event, open: bytes): bytes {
    if e.SysEx? || (e.Escape? && open != []) then (if EndsF7(e.data) then [] else open + WireOf(e)) else open
  }

  lemma {:induction false} NextOpenIsOpen(e: Event, open: bytes)
    requires PacketOk(e, open != [])
    requires open == [] || OpenMessage(open)
    ensures var next := NextOpen(e, open);
            && (next != [] <==> OpenAfter(e, open != []))
            && (next == [] || OpenMessage(next))
            && PacketOf(e, Pending(open)).fragment == Pending(next)
  {
    AppendNone(WireOf(e));
    if e.SysEx? || (e.Escape? && open != []) {
      OpenGrows(if e.SysEx? then [0xF0] else open, e.data);
    }
  }

  lemma {:induction false} EventOnWire(e: Event, open: bytes, rest: bytes)
    requires PacketOk(e, open != [])
    requires open == [] || OpenMessage(open)
    ensures RawMessages((open + WireOf(e)) + rest)
         == PacketOf(e, Pending(open)).out + RawMessages(NextOpen(e, open) + rest)
  {
    hide RawMessages;
    AppendNone(rest);
    AppendNone(WireOf(e));
    AppendNone(open);
    AppendNone(RawMessages(NextOpen(e, open) + rest));
    if e.SysEx? || (e.Escape? && open != []) {
      OpenGrows(if e.SysEx? then [0xF0] else open, e.data);
      if EndsF7(e.data) {
        RawTakes(open + WireOf(e), rest);
      }
    } else if e.Escape? {
      RawSkips(open + WireOf(e), rest);
    }
  }

  lemma {:induction false} TrackOnWire(events: seq<Event>, open: bytes, tail: bytes)
    requires WellPacketed(events, open != [])
    requires open == [] || OpenMessage(open)
    ensures RawMessages(open + (Wire(events) + tail)) == Reassemble(events, Pending(open)) + RawMessages(tail)
    decreases |events|
  {
    hide RawMessages;
    AppendNone(tail);
    AppendNone(RawMessages(tail));
    if events != [] {
      hide OpenMessage, PacketOf, PacketOk, OpenAfter, NextOpen, WireOf;
      var e := events[0];
      var sent, rest, k := WireOf(e), Wire(events[1..]), PacketOf(e, Pending(open));
      NextOpenIsOpen(e, open);
      EventOnWire(e, open, rest + tail);
      TrackOnWire(events[1..], NextOpen(e, open), tail);
      AppendAssoc(sent, rest, tail);
      AppendAssoc(open, sent, rest + tail);
      AppendAssoc(k.out, Reassemble(events[1..], k.fragment), RawMessages(tail));
    }
  }

  lemma {:induction false} TracksOnWire(tracks: seq<seq<Event>>)
    requires forall t :: t in tracks ==> WellPacketed(t, false)
    ensures RawMessages(WireTracks(tracks)) == ReassembleTracks(tracks)
    decreases |tracks|
  {
    if tracks != [] {
      TracksOnWire(tracks[1..]);
      TrackOnWire(tracks[0], [], WireTracks(tracks[1..]));
      AppendNone(WireTracks(tracks));
    }
  }

  /** Reading a well-packeted file gives the messages that a raw scan of its wire
      bytes gives: the two branches of iter_sysex mean the same thing. */
  lemma {:induction false} FileAgreesWithWire(f: File)
    requires f.Valid() && forall t :: t in f.tracks ==> WellPacketed(t, false)
    ensures SysexOf(f.Serialize()) == Ok(RawMessages(WireTracks(f.tracks)))
  {
    ParseUndoesPrint(f);
    TracksOnWire(f.tracks);
  }
}
