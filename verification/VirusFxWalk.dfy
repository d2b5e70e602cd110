/** smf_sysex_messages on the serialized tracks of a tame file. */
module VirusFxWalk {
  import opened Bytes
  import opened Smf
  import opened VirusSmf
  import XF = XeniaSysexFile

  // ----- Quantities -----

  lemma {:induction false} ReadVlqAt(data: bytes, i: nat, v: bytes, acc: nat)
    requires At(data, i, v) && VlqShape(v)
    ensures ReadVlq(data, i, acc) == Ok((Accumulate(acc, v), i + |v|))
    decreases |v|
  {
    if |v| > 1 {
      ReadVlqAt(data, i + 1, v[1..], acc * 128 + v[0] % 128);
    } else {
      assert v[1..] == [];
    }
  }

  lemma {:induction false} SkipHighAt(data: bytes, i: nat, end: nat, v: bytes)
    requires end <= |data| && At(data, i, v) && VlqShape(v) && i + |v| <= end
    ensures SkipHigh(data, i, end) + 1 == i + |v|
    decreases |v|
  {
    if |v| > 1 {
      SkipHighAt(data, i + 1, end, v[1..]);
    }
  }

  /** read_vlq finds the count of a counted field. */
  lemma {:induction false} VlqField(data: bytes, at: nat, lead: bytes, d: bytes)
    requires At(data, at, lead + (Vlq(|d|) + d)) && |d| < VLQ_LIMIT && lead != []
    ensures var p := at + |lead| + |Vlq(|d|)|;
            && at + |lead| < p <= |data| && data[at] == lead[0]
            && ReadVlq(data, at + |lead|, 0) == Ok((|d|, p))
            && Slice(data, p, p + |d|) == d
  {
    hide Vlq, At;
    CountedField(data, at, lead, d);
    ReadVlqAt(data, at + |lead|, Vlq(|d|), 0);
  }

  // ----- Tame files -----

  predicate TameStatus(status: byte) {
    0xC0 <= status < 0xE0 ==> status == 0xC0 || status == 0xD0
  }

  /** A complete message in every sysex event; C0 and D0 the only short statuses. */
  predicate Tame(e: Event) {
    (e.SysEx? ==> EndsF7(e.data)) && (e.Channel? ==> TameStatus(e.status))
  }

  predicate TameTrack(events: seq<Event>) {
    forall e :: e in events ==> Tame(e)
  }

  predicate LegalRunning(legal: Option<byte>) {
    ValidStatus(legal) && (legal.Some? ==> TameStatus(legal.value))
  }

  /** The message of a complete sysex event. */
  function MessageOf(e: Event): seq<bytes> {
    if e.SysEx? then [[0xF0] + e.data] else []
  }

  function MessagesOf(events: seq<Event>): seq<bytes> {
    if events == [] then [] else MessageOf(events[0]) + MessagesOf(events[1..])
  }

  function MessagesOfTracks(tracks: seq<seq<Event>>): seq<bytes> {
    if tracks == [] then [] else MessagesOf(tracks[0]) + MessagesOfTracks(tracks[1..])
  }

  // ----- smf_sysex_messages on a written track -----

  ghost predicate FxSteps(data: bytes, end: nat, c: Cursor, e: Event, legal: Option<byte>, to: nat)
    requires end <= |data|
  {
    var t := FxStep(data, end, c);
    t.Next? && t.out == MessageOf(e) && t.to.i == to && Follows(t.to.running, NextRunning(e, legal))
  }

  lemma {:induction false} FxStepEvent(data: bytes, end: nat, c: Cursor, e: Event, legal: Option<byte>)
    requires end <= |data| && LegalRunning(legal) && Legal(e, legal) && Tame(e) && Follows(c.running, legal)
    requires At(data, c.i, Vlq(e.delta) + Body(e)) && c.i + |Vlq(e.delta) + Body(e)| <= end
    ensures FxSteps(data, end, c, e, legal, c.i + |Vlq(e.delta) + Body(e)|)
  {
    VlqReads(e.delta);
    AtSplit(data, c.i, Vlq(e.delta), Body(e));
    SkipHighAt(data, c.i, end, Vlq(e.delta));
    FxStepBody(data, end, c, c.i + |Vlq(e.delta)|, e, legal);
  }

  lemma {:induction false} FxStepBody(data: bytes, end: nat, c: Cursor, at: nat, e: Event, legal: Option<byte>)
    requires end <= |data| && LegalRunning(legal) && Legal(e, legal) && Tame(e) && Follows(c.running, legal)
    requires SkipHigh(data, c.i, end) + 1 == at && At(data, at, Body(e)) && at + |Body(e)| <= end
    ensures FxSteps(data, end, c, e, legal, at + |Body(e)|)
  {
    hide SkipHigh, Slice, ReadVlq, Vlq;
    match e
    case SysEx(_, d) => VlqField(data, at, [0xF0], d);
    case Escape(_, d) => VlqField(data, at, [0xF7], d);
    case Meta(_, kind, d) => VlqField(data, at, [0xFF, kind], d);
    case _ => assert data[at] == Body(e)[0];
  }

  lemma {:induction false} FxNext(data: bytes, end: nat, c: Cursor)
    requires end <= |data| && c.i < end && FxStep(data, end, c).Next?
    ensures var t := FxStep(data, end, c); FxTrack(data, end, c) == Prepend(t.out, FxTrack(data, end, t.to))
  {
    hide FxStep, Prepend;
  }

  lemma {:induction false} FxEnds(data: bytes, end: nat, c: Cursor)
    requires end <= |data| && c.i >= end
    ensures FxTrack(data, end, c) == Ok([])
  {
  }

  lemma {:induction false} FxWalkTrack(data: bytes, end: nat, c: Cursor, events: seq<Event>, legal: Option<byte>)
    requires end <= |data| && LegalRunning(legal) && LegalTrack(events, legal) && TameTrack(events)
    requires Follows(c.running, legal)
    requires At(data, c.i, WriteTrack(events)) && end == c.i + |WriteTrack(events)|
    ensures FxTrack(data, end, c) == Ok(MessagesOf(events))
    decreases |events|
  {
    hide FxTrack, FxStep, At, MessageOf, Vlq, Body;
    if events == [] {
      FxEnds(data, end, c);
    } else {
      var e := events[0];
      VlqNonEmpty(e.delta);
      assert e in events && LegalRunning(NextRunning(e, legal));
      hide Legal, Tame;
      AtSplit(data, c.i, Vlq(e.delta) + Body(e), WriteTrack(events[1..]));
      FxStepEvent(data, end, c, e, legal);
      FxNext(data, end, c);
      FxWalkTrack(data, end, FxStep(data, end, c).to, events[1..], NextRunning(e, legal));
    }
  }

  lemma {:induction false} FxTrackTurn(data: bytes, pos: nat, events: seq<Event>, rest: bytes)
    requires LegalTrack(events, None) && TameTrack(events) && |WriteTrack(events)| < 0x1_0000_0000
    requires At(data, pos, MTRK + (U32(|WriteTrack(events)|) + (WriteTrack(events) + rest)))
    requires pos + 8 + |WriteTrack(events)| + |rest| == |data|
    ensures At(data, pos + 8 + |WriteTrack(events)|, rest)
    ensures FxTracks(data, pos) == Prepend(MessagesOf(events), FxTracks(data, pos + 8 + |WriteTrack(events)|))
  {
    hide FxTracks, FxTrack, At, WriteTrack, LegalTrack, MessagesOf;
    var body := WriteTrack(events);
    XF.TrackChunk(data, pos, body, rest);
    FxWalkTrack(data, pos + 8 + |body|, Cursor(pos + 8, None), events, None);
    FxTracksTurn(data, pos);
  }

  lemma {:induction false} FxWalkTracks(data: bytes, pos: nat, tracks: seq<seq<Event>>)
    requires forall t :: t in tracks ==> LegalTrack(t, None) && TameTrack(t) && |WriteTrack(t)| < 0x1_0000_0000
    requires At(data, pos, WriteTracks(tracks)) && pos + |WriteTracks(tracks)| == |data|
    ensures FxTracks(data, pos) == Ok(MessagesOfTracks(tracks))
    decreases |tracks|
  {
    hide FxTracks, FxTrack, At, LegalTrack, TameTrack, WriteTrack, U32;
    if tracks == [] {
      FxTracksTurn(data, pos);
    } else {
      FxTrackTurn(data, pos, tracks[0], WriteTracks(tracks[1..]));
      FxWalkTracks(data, pos + 8 + |WriteTrack(tracks[0])|, tracks[1..]);
    }
  }
}
