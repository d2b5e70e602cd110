/** Where the Virus file readers go wrong: short channel messages on channels 1..15. */
module VirusSmfLosses {
  import opened Bytes
  import opened Smf
  import opened VirusSmf
  import opened VirusFxWalk
  import opened VirusPatchWalk
  import opened VirusSmfAgree
  import X = XeniaSysex
  import XF = XeniaSysexFile

  // ----- The other channels -----

  predicate OtherChannel(status: byte) {
    0xC0 <= status < 0xE0 && !TameStatus(status)
  }

  /** A two-byte channel event, then a one-byte sysex message. */
  function LostEvents(status: byte): seq<Event> {
    [Channel(0, status, [5]), SysEx(0, [1, 0xF7])]
  }

  function LostFile(status: byte): File {
    File(0, 96, [], [LostEvents(status)])
  }

  function LostBytes(status: byte): bytes {
    [0, status, 5, 0, 0xF0, 2, 1, 0xF7]
  }

  lemma {:induction false} LostTrack(status: byte)
    requires OtherChannel(status)
    ensures WriteTrack(LostEvents(status)) == LostBytes(status)
    ensures LegalTrack(LostEvents(status), None)
  {
    var c, s := Channel(0, status, [5]), SysEx(0, [1, 0xF7]);
    assert LostEvents(status)[1..] == [s] && [s][1..] == [];
    assert LegalTrack([s], Some(status));
    assert Vlq(0) == [0] && Vlq(2) == [2];
    hide Vlq, LegalTrack, Legal;
    assert Vlq(0) + Body(c) == [0, status, 5];
    assert WriteTrack([s]) == [0, 0xF0, 2, 1, 0xF7];
  }

  lemma {:induction false} LostMessages(status: byte)
    requires OtherChannel(status)
    ensures XF.ReassembleTracks([LostEvents(status)]) == [[0xF0, 1, 0xF7]]
  {
    var s := SysEx(0, [1, 0xF7]);
    assert LostEvents(status)[1..] == [s] && [s][1..] == [];
    assert [0xF0] + [1, 0xF7] == [0xF0, 1, 0xF7];
    assert XF.Reassemble([s], None) == [[0xF0, 1, 0xF7]];
    assert [LostEvents(status)][1..] == [];
  }

  lemma {:induction false} FxLoses(data: bytes, i: nat, status: byte)
    requires OtherChannel(status) && |data| == i + 8 && data[i..] == LostBytes(status)
    ensures FxTrack(data, i + 8, Cursor(i, None)) == Ok([])
  {
    var t := data[i..];
    assert data[i] == t[0] && data[i + 1] == t[1] && data[i + 4] == t[4] && data[i + 5] == t[5] && data[i + 6] == t[6];
    assert FxStep(data, i + 8, Cursor(i, None)) == Next([], Cursor(i + 4, Some(status)));
    assert SkipHigh(data, i + 5, i + 8) == i + 5;
    assert FxStep(data, i + 8, Cursor(i + 4, Some(status))) == Next([], Cursor(i + 8, Some(status)));
    assert FxTrack(data, i + 8, Cursor(i + 8, Some(status))) == Ok([]);
    PrependLast<bytes, Error>([]);
  }

  lemma {:induction false} PatchLoses(status: byte)
    requires OtherChannel(status)
    ensures PatchTrack(LostBytes(status), Cursor(0, None)) == Ok([])
  {
    var body := LostBytes(status);
    assert PatchStep(body, Cursor(0, None)) == Go([], Cursor(4, Some(status)));
    assert ReadVlq(body, 5, 0xF0 % 128).Ok? && ReadVlq(body, 4, 0).value.1 == 6;
    assert PatchStep(body, Cursor(4, Some(status))) == Go([], Cursor(8, Some(status)));
    assert PatchTrack(body, Cursor(8, Some(status))) == Ok([]);
    PrependLast<Patch, Error>([]);
  }

  lemma {:induction false} OneTrack(events: seq<Event>)
    requires |WriteTrack(events)| < 0x1_0000_0000
    ensures WriteTracks([events]) == MTRK + (U32(|WriteTrack(events)|) + (WriteTrack(events) + []))
  {
    assert [events][1..] == [];
  }

  /** Where the only track of a lost file stands. */
  lemma {:induction false} LostLayout(status: byte)
    requires OtherChannel(status)
    ensures LostFile(status).Valid()
    ensures var data := LostFile(status).Serialize();
            && |data| == 30 && data[22..] == LostBytes(status) && Slice(data, 22, 30) == LostBytes(status)
            && data[14..18] == MTRK && BigEndian(data[18..22]) == 8
  {
    var body := LostBytes(status);
    LostTrack(status);
    hide At, LegalTrack, WriteTrack, LostEvents, LostBytes, U16, U32;
    var f := LostFile(status);
    XF.HeaderFields(f);
    var data := f.Serialize();
    OneTrack(LostEvents(status));
    XF.TrackChunk(data, 14, body, []);
    AtSlice(data, 22, body);
    assert data[22..] == data[22..30];
  }

  lemma {:induction false} FxLosesFile(data: bytes, status: byte)
    requires OtherChannel(status) && |data| == 30 && data[22..] == LostBytes(status)
    requires data[14..18] == MTRK && BigEndian(data[18..22]) == 8
    ensures FxTracks(data, 14) == Ok([])
  {
    hide FxTracks, FxTrack, BigEndian;
    FxLoses(data, 22, status);
    FxTracksTurn(data, 14);
    FxTracksTurn(data, 30);
    PrependLast<bytes, Error>([]);
  }

  lemma {:induction false} PatchLosesFile(data: bytes, status: byte)
    requires OtherChannel(status) && |data| == 30 && Slice(data, 22, 30) == LostBytes(status)
    requires data[14..18] == MTRK && BigEndian(data[18..22]) == 8
    ensures PatchTracks(data, 14, 1) == Ok([])
  {
    hide PatchTracks, PatchTrack, BigEndian;
    PatchLoses(status);
    PatchTracksTurn(data, 14, 1);
    PatchTracksTurn(data, 30, 0);
    PrependLast<Patch, Error>([]);
  }

  /** On every other channel the two Virus walkers take one byte too many and
      lose the message that iter_sysex returns. */
  lemma {:induction false} OtherChannelsLoseMessages(status: byte)
    requires OtherChannel(status)
    ensures LostFile(status).Valid()
    ensures var data := LostFile(status).Serialize();
            && X.SysexOf(data) == Ok([[0xF0, 1, 0xF7]])
            && FxMessages(data) == Ok([])
            && ParseStdmidi(data) == Ok([])
  {
    LostLayout(status);
    var f := LostFile(status);
    XF.ParseUndoesPrint(f);
    LostMessages(status);
    XF.HeaderFields(f);
    hide FxTracks, PatchTracks, At;
    FxLosesFile(f.Serialize(), status);
    PatchLosesFile(f.Serialize(), status);
  }

  // ----- Which statuses are safe -----

  /** Tame, but for channel events of one more status. */
  predicate TameBut(e: Event, status: byte) {
    (e.SysEx? ==> EndsF7(e.data)) && (e.Channel? ==> TameStatus(e.status) || e.status == status)
  }

  predicate UsesOnly(f: File, status: byte) {
    f.Valid() && f.extra == [] && forall t :: t in f.tracks ==> forall e :: e in t ==> TameBut(e, status)
  }

  ghost predicate FxSafe(status: byte) {
    forall f :: UsesOnly(f, status) ==> FxMessages(f.Serialize()) == Ok(MessagesOfTracks(f.tracks))
  }

  ghost predicate PatchSafe(status: byte) {
    forall f :: UsesOnly(f, status) ==> ParseStdmidi(f.Serialize()) == Ok(PatchesOf(MessagesOfTracks(f.tracks)))
  }

  /** A status byte loses no message in any file exactly when it is not one of the
      short channel messages on channels 1..15; the same for both walkers. */
  lemma {:induction false} SafeStatuses(status: byte)
    ensures (FxSafe(status) <==> TameStatus(status)) && (PatchSafe(status) <==> TameStatus(status))
  {
    hide FxMessages, ParseStdmidi, File.Serialize, File.Valid;
    if TameStatus(status) {
      forall f | UsesOnly(f, status)
        ensures FxMessages(f.Serialize()) == Ok(MessagesOfTracks(f.tracks))
        ensures ParseStdmidi(f.Serialize()) == Ok(PatchesOf(MessagesOfTracks(f.tracks)))
      {
        FxFindsAllMessages(f);
        PatchesFound(f);
      }
    } else {
      OtherChannelsLoseMessages(status);
      LostIsUsed(status);
    }
  }

  lemma {:induction false} LostIsUsed(status: byte)
    requires LostFile(status).Valid()
    ensures UsesOnly(LostFile(status), status)
    ensures MessagesOfTracks(LostFile(status).tracks) != []
    ensures PatchesOf(MessagesOfTracks(LostFile(status).tracks)) != []
  {
    hide File.Valid;
    var events := LostEvents(status);
    assert MessagesOf(events[1..]) == MessageOf(events[1]) + MessagesOf(events[1..][1..]);
    assert MessageOf(events[1]) != [];
  }
}
