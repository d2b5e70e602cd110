/** parse_stdmidi on the serialized tracks of a tame file. */
module VirusPatchWalk {
  import opened Bytes
  import opened Smf
  import opened VirusSmf
  import opened VirusFxWalk
  import XF = XeniaSysexFile

  // ----- parse_stdmidi on a written track -----

  function PatchesOf(ms: seq<bytes>): seq<Patch> {
    if ms == [] then [] else [Dispatch(ms[0])] + PatchesOf(ms[1..])
  }

  lemma {:induction false} PatchesOfAppend(a: seq<bytes>, b: seq<bytes>)
    ensures PatchesOf(a + b) == PatchesOf(a) + PatchesOf(b)
    decreases |a|
  {
    if a == [] {
      AppendNone(b);
      AppendNone(PatchesOf(b));
    } else {
      assert (a + b)[1..] == a[1..] + b;
      PatchesOfAppend(a[1..], b);
      AppendAssoc([Dispatch(a[0])], PatchesOf(a[1..]), PatchesOf(b));
    }
  }

  ghost predicate PatchSteps(body: bytes, c: Cursor, e: Event, legal: Option<byte>, to: nat) {
    var t := PatchStep(body, c);
    t.Go? && t.out == PatchesOf(MessageOf(e)) && t.to.i == to && Follows(t.to.running, NextRunning(e, legal))
  }

  lemma {:induction false} PatchesOfMessage(e: Event)
    requires e.SysEx? && Tame(e)
    ensures PatchesOf(MessageOf(e)) == [Dispatch(Terminated([0xF0] + e.data))]
  {
    var ms := MessageOf(e);
    assert ms[1..] == [] && ms[0] == [0xF0] + e.data;
    AppendNone([Dispatch(ms[0])]);
  }

  lemma {:induction false} PatchStepBody(body: bytes, c: Cursor, at: nat, e: Event, legal: Option<byte>)
    requires LegalRunning(legal) && Legal(e, legal) && Tame(e) && Follows(c.running, legal)
    requires ReadVlq(body, c.i, 0) == Ok((e.delta, at)) && At(body, at, Body(e))
    ensures PatchSteps(body, c, e, legal, at + |Body(e)|)
  {
    hide PatchSteps, Body, Tame, At;
    if e.SysEx? {
      PatchStepSysEx(body, c, at, e, legal);
    } else if e.Escape? || e.Meta? {
      PatchStepSkips(body, c, at, e, legal);
    } else {
      PatchStepChannel(body, c, at, e, legal);
    }
  }

  lemma {:induction false} PatchStepSysEx(body: bytes, c: Cursor, at: nat, e: Event, legal: Option<byte>)
    requires e.SysEx? && Tame(e) && |e.data| < VLQ_LIMIT
    requires ReadVlq(body, c.i, 0) == Ok((e.delta, at)) && At(body, at, Body(e))
    ensures PatchSteps(body, c, e, legal, at + |Body(e)|)
  {
    hide Slice, ReadVlq, Vlq, Dispatch;
    VlqField(body, at, [0xF0], e.data);
    PatchesOfMessage(e);
  }

  lemma {:induction false} PatchStepChannel(body: bytes, c: Cursor, at: nat, e: Event, legal: Option<byte>)
    requires e.Channel? || e.Running?
    requires LegalRunning(legal) && Legal(e, legal) && Tame(e) && Follows(c.running, legal)
    requires ReadVlq(body, c.i, 0) == Ok((e.delta, at)) && At(body, at, Body(e))
    ensures PatchSteps(body, c, e, legal, at + |Body(e)|)
  {
    hide Slice, ReadVlq, Vlq, Dispatch;
    AtBound(body, at, Body(e));
    assert body[at] == Body(e)[0];
  }

  lemma {:induction false} PatchStepSkips(body: bytes, c: Cursor, at: nat, e: Event, legal: Option<byte>)
    requires (e.Escape? || e.Meta?) && |e.data| < VLQ_LIMIT
    requires ReadVlq(body, c.i, 0) == Ok((e.delta, at)) && At(body, at, Body(e))
    ensures PatchSteps(body, c, e, legal, at + |Body(e)|)
  {
    hide Slice, ReadVlq, Vlq, Dispatch;
    if e.Escape? {
      VlqField(body, at, [0xF7], e.data);
    } else {
      VlqField(body, at, [0xFF, e.kind], e.data);
    }
  }

  lemma {:induction false} PatchStepEvent(body: bytes, c: Cursor, e: Event, legal: Option<byte>)
    requires LegalRunning(legal) && Legal(e, legal) && Tame(e) && Follows(c.running, legal)
    requires At(body, c.i, Vlq(e.delta) + Body(e))
    ensures PatchSteps(body, c, e, legal, c.i + |Vlq(e.delta) + Body(e)|)
  {
    VlqReads(e.delta);
    AtSplit(body, c.i, Vlq(e.delta), Body(e));
    ReadVlqAt(body, c.i, Vlq(e.delta), 0);
    PatchStepBody(body, c, c.i + |Vlq(e.delta)|, e, legal);
  }

  lemma {:induction false} PatchNext(body: bytes, c: Cursor)
    requires c.i < |body| && PatchStep(body, c).Go?
    ensures var t := PatchStep(body, c); PatchTrack(body, c) == Prepend(t.out, PatchTrack(body, t.to))
  {
    hide PatchStep, Prepend;
  }

  lemma {:induction false} PatchEnds(body: bytes, c: Cursor)
    requires c.i >= |body|
    ensures PatchTrack(body, c) == Ok(PatchesOf([]))
  {
  }

  lemma {:induction false} PatchWalkTrack(body: bytes, c: Cursor, events: seq<Event>, legal: Option<byte>)
    requires LegalRunning(legal) && LegalTrack(events, legal) && TameTrack(events) && Follows(c.running, legal)
    requires At(body, c.i, WriteTrack(events)) && |body| == c.i + |WriteTrack(events)|
    ensures PatchTrack(body, c) == Ok(PatchesOf(MessagesOf(events)))
    decreases |events|
  {
    hide PatchTrack, PatchStep, At, MessageOf, Vlq, Body, PatchesOf;
    if events == [] {
      PatchEnds(body, c);
    } else {
      var e := events[0];
      VlqNonEmpty(e.delta);
      assert e in events && LegalRunning(NextRunning(e, legal));
      hide Legal, Tame;
      AtSplit(body, c.i, Vlq(e.delta) + Body(e), WriteTrack(events[1..]));
      PatchStepEvent(body, c, e, legal);
      PatchNext(body, c);
      PatchWalkTrack(body, PatchStep(body, c).to, events[1..], NextRunning(e, legal));
      PatchesOfAppend(MessageOf(e), MessagesOf(events[1..]));
    }
  }

  lemma {:induction false} PatchTrackTurn(data: bytes, pos: nat, events: seq<Event>, rest: bytes, count: nat)
    requires LegalTrack(events, None) && TameTrack(events) && |WriteTrack(events)| < 0x1_0000_0000 && count > 0
    requires At(data, pos, MTRK + (U32(|WriteTrack(events)|) + (WriteTrack(events) + rest)))
    ensures At(data, pos + 8 + |WriteTrack(events)|, rest)
    ensures PatchTracks(data, pos, count)
         == Prepend(PatchesOf(MessagesOf(events)), PatchTracks(data, pos + 8 + |WriteTrack(events)|, count - 1))
  {
    hide PatchTracks, PatchTrack, At, WriteTrack, LegalTrack, MessagesOf, PatchesOf, Slice, BigEndian;
    var body := WriteTrack(events);
    XF.TrackChunk(data, pos, body, rest);
    AtSlice(data, pos + 8, body);
    assert body[0..] == body;
    SliceAt(body, 0, body);
    PatchWalkTrack(body, Cursor(0, None), events, None);
    PatchTracksTurn(data, pos, count);
  }

  lemma {:induction false} PatchWalkTracks(data: bytes, pos: nat, tracks: seq<seq<Event>>)
    requires forall t :: t in tracks ==> LegalTrack(t, None) && TameTrack(t) && |WriteTrack(t)| < 0x1_0000_0000
    requires At(data, pos, WriteTracks(tracks))
    ensures PatchTracks(data, pos, |tracks|) == Ok(PatchesOf(MessagesOfTracks(tracks)))
    decreases |tracks|
  {
    hide PatchTracks, At, LegalTrack, TameTrack, WriteTrack;
    if tracks != [] {
      PatchTrackTurn(data, pos, tracks[0], WriteTracks(tracks[1..]), |tracks|);
      PatchWalkTracks(data, pos + 8 + |WriteTrack(tracks[0])|, tracks[1..]);
      PatchesOfAppend(MessagesOf(tracks[0]), MessagesOfTracks(tracks[1..]));
    } else {
      PatchTracksTurn(data, pos, 0);
    }
  }
}
