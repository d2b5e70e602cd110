/** When the two Virus file readers agree, on the files whose sysex events are complete
    messages and whose two-byte channel events are on channel 0. */
module VirusSmfAgree {
  import opened Bytes
  import opened Smf
  import opened VirusSmf
  import opened VirusFxWalk
  import opened VirusPatchWalk
  import X = XeniaSysex
  import XF = XeniaSysexFile

  // ----- The theorems -----

  /** Any legal file, its header of any length, whose tracks are tame. */
  predicate TameFile(f: File) {
    f.Valid() && forall t :: t in f.tracks ==> TameTrack(t)
  }

  lemma {:induction false} SerializedLength(f: File)
    requires f.Valid()
    ensures |f.Serialize()| == 14 + |f.extra| + |WriteTracks(f.tracks)|
  {
    hide WriteTracks;
  }

  /** smf_sysex_messages reads the header's length, so extra header bytes do not matter to it. */
  lemma {:induction false} FxFindsAllMessages(f: File)
    requires TameFile(f)
    ensures FxMessages(f.Serialize()) == Ok(MessagesOfTracks(f.tracks))
  {
    hide FxTracks, TameTrack, LegalTrack, At, File.Serialize, BigEndian, WriteTracks;
    var data := f.Serialize();
    XF.HeaderFields(f);
    SerializedLength(f);
    assert Slice(data, 0, 4) == data[..4] && Slice(data, 4, 8) == data[4..8];
    FxWalkTracks(data, 14 + |f.extra|, f.tracks);
  }

  /** Header bytes past the six that spell a track header. */
  predicate SpellsTrack(extra: bytes) {
    |extra| >= 4 && extra[..4] == MTRK
  }

  /** parse_stdmidi starts at byte 14 whatever the header's length: after a six-byte
      header it finds every message, after a longer one nothing. */
  lemma {:induction false} PatchesFound(f: File)
    requires TameFile(f) && !SpellsTrack(f.extra)
    ensures ParseStdmidi(f.Serialize()) == Ok(if f.extra == [] then PatchesOf(MessagesOfTracks(f.tracks)) else [])
  {
    hide PatchTracks, TameTrack, LegalTrack, At, File.Serialize, BigEndian, WriteTracks;
    var data := f.Serialize();
    XF.HeaderFields(f);
    SerializedLength(f);
    if f.extra == [] {
      PatchWalkTracks(data, 14, f.tracks);
    } else {
      LongHeader(f);
      PatchTracksTurn(data, 14, |f.tracks|);
    }
  }

  /** One to three extra bytes cannot complete a track header with what follows them. */
  lemma {:induction false} LongHeader(f: File)
    requires f.Valid() && f.extra != [] && !SpellsTrack(f.extra)
    ensures var data := f.Serialize(); |data| < 22 || data[14..18] != MTRK
  {
    hide LegalTrack, WriteTrack, U16, U32;
    var data, n, tracks := f.Serialize(), |f.extra|, WriteTracks(f.tracks);
    assert data == (MTHD + U32(6 + n) + U16(f.format) + U16(|f.tracks|) + U16(f.division)) + f.extra + tracks;
    if |data| >= 22 {
      assert data[14..14 + n] == f.extra && data[14 + n..] == tracks;
      if n >= 4 {
        SliceOfSlice(data, 14, 14 + n, 0, 4);
      } else {
        assert f.tracks != [] && tracks[0] == 0x4D;
        assert data[14 + n] == tracks[0] && data[14..18][n] == data[14 + n];
      }
    }
  }

  lemma {:induction false} NoPatches(ms: seq<bytes>)
    ensures PatchesOf(ms) == [] <==> ms == []
  {
  }

  /** Both walkers find exactly the file's sysex messages, in order, if and only if the
      header has six bytes or there is nothing to find. */
  lemma {:induction false} BothFindAllMessages(f: File)
    requires TameFile(f) && !SpellsTrack(f.extra)
    ensures FxMessages(f.Serialize()) == Ok(MessagesOfTracks(f.tracks))
    ensures ParseStdmidi(f.Serialize()) == Ok(PatchesOf(MessagesOfTracks(f.tracks))) <==>
            f.extra == [] || MessagesOfTracks(f.tracks) == []
  {
    hide FxMessages, ParseStdmidi, TameTrack;
    FxFindsAllMessages(f);
    PatchesFound(f);
    NoPatches(MessagesOfTracks(f.tracks));
  }

  /** The data of the patches that carry no error. */
  function GoodData(ps: seq<Patch>): seq<bytes> {
    if ps == [] then [] else (if ps[0].Patch? then [ps[0].data] else []) + GoodData(ps[1..])
  }

  /** The first two pages of every dump. */
  function FirstPages(ds: seq<Fields>): seq<bytes> {
    if ds == [] then [] else [Slice(ds[0].payload, 0, 256)] + FirstPages(ds[1..])
  }

  lemma {:induction false} FieldsAgree(m: bytes)
    requires EndsF7(m)
    ensures match SingleFields(m)
            case None => Dispatch(m).Bad?
            case Some(f) => Dispatch(m).Patch? && Dispatch(m).data == Slice(f.payload, 0, 256)
  {
    if |m| == 267 {
      assert m[9..265][0..256] == m[9..265];
    } else if |m| == 524 {
      assert m[9..521][0..256] == m[9..521][..256];
    }
  }

  lemma {:induction false} MessagesAgree(ms: seq<bytes>)
    requires forall m :: m in ms ==> EndsF7(m)
    ensures FirstPages(DumpsOf(ms)) == GoodData(PatchesOf(ms))
    decreases |ms|
  {
    if ms != [] {
      var m, rest := ms[0], ms[1..];
      FieldsAgree(m);
      MessagesAgree(rest);
      hide Dispatch, SingleFields;
      var ps := PatchesOf(ms);
      assert ps[0] == Dispatch(m) && ps[1..] == PatchesOf(rest);
      if SingleFields(m).None? {
        AppendNone(DumpsOf(rest));
      } else {
        var ds := DumpsOf(ms);
        assert ds[0] == SingleFields(m).value && ds[1..] == DumpsOf(rest);
      }
    }
  }

  lemma {:induction false} TameMessagesEnd(events: seq<Event>)
    requires TameTrack(events)
    ensures forall m :: m in MessagesOf(events) ==> EndsF7(m)
    decreases |events|
  {
    if events != [] {
      var e := events[0];
      assert e in events && Tame(e);
      assert e.SysEx? ==> EndsF7([0xF0] + e.data);
      TameMessagesEnd(events[1..]);
    }
  }

  lemma {:induction false} TameFileMessagesEnd(tracks: seq<seq<Event>>)
    requires forall t :: t in tracks ==> TameTrack(t)
    ensures forall m :: m in MessagesOfTracks(tracks) ==> EndsF7(m)
    decreases |tracks|
  {
    if tracks != [] {
      TameMessagesEnd(tracks[0]);
      TameFileMessagesEnd(tracks[1..]);
    }
  }

  /** The two independent parse paths agree byte for byte, patch by patch, if and only if
      the header has six bytes or the file holds no single dump. */
  lemma {:induction false} WalkersAgree(f: File)
    requires TameFile(f) && !SpellsTrack(f.extra)
    ensures var dumps, patches := IterDumps(f.Serialize()), ParseStdmidi(f.Serialize());
            && dumps.Ok? && patches.Ok?
            && (FirstPages(dumps.value) == GoodData(patches.value) <==>
                  f.extra == [] || GoodData(PatchesOf(MessagesOfTracks(f.tracks))) == [])
  {
    hide ParseStdmidi, FxMessages;
    FxFindsAllMessages(f);
    PatchesFound(f);
    TameFileMessagesEnd(f.tracks);
    MessagesAgree(MessagesOfTracks(f.tracks));
  }

  // ----- The third walker -----

  /** iter_sysex alone drops an F0 that an event repeats inside its data. */
  predicate NoSecondF0(events: seq<Event>) {
    forall e :: e in events && e.SysEx? && e.data != [] ==> e.data[0] != 0xF0
  }

  lemma {:induction false} AppendsEqual<T>(a: seq<T>, b: seq<T>, c: seq<T>, d: seq<T>)
    requires |a| == |c|
    ensures a + b == c + d <==> a == c && b == d
  {
    if a + b == c + d {
      assert a == (a + b)[..|a|] == (c + d)[..|c|] == c;
      assert b == (a + b)[|a|..] == (c + d)[|c|..] == d;
    }
  }

  lemma {:induction false} CompletePacket(e: Event)
    requires Tame(e)
    ensures XF.PacketOf(e, None).fragment == None && |XF.PacketOf(e, None).out| == |MessageOf(e)|
    ensures XF.PacketOf(e, None).out == MessageOf(e) <==> (e.SysEx? && e.data != [] ==> e.data[0] != 0xF0)
  {
    if e.SysEx? {
      assert EndsF7([0xF0] + e.data) && |[0xF0] + e.data| == 1 + |e.data|;
      assert [[0xF0] + e.data][0] == [0xF0] + e.data;
    }
  }

  lemma {:induction false} CompleteMessages(events: seq<Event>)
    requires TameTrack(events)
    ensures |XF.Reassemble(events, None)| == |MessagesOf(events)|
    ensures XF.Reassemble(events, None) == MessagesOf(events) <==> NoSecondF0(events)
    decreases |events|
  {
    if events != [] {
      var e, rest := events[0], events[1..];
      assert events == [e] + rest;
      CompletePacket(e);
      CompleteMessages(rest);
      hide XF.PacketOf, MessageOf;
      AppendsEqual(XF.PacketOf(e, None).out, XF.Reassemble(rest, None), MessageOf(e), MessagesOf(rest));
    }
  }

  lemma {:induction false} CompleteFileMessages(tracks: seq<seq<Event>>)
    requires forall t :: t in tracks ==> TameTrack(t)
    ensures |XF.ReassembleTracks(tracks)| == |MessagesOfTracks(tracks)|
    ensures XF.ReassembleTracks(tracks) == MessagesOfTracks(tracks) <==> forall t :: t in tracks ==> NoSecondF0(t)
    decreases |tracks|
  {
    hide TameTrack, NoSecondF0, XF.Reassemble, MessagesOf;
    if tracks != [] {
      var t, rest := tracks[0], tracks[1..];
      assert tracks == [t] + rest;
      CompleteMessages(t);
      CompleteFileMessages(rest);
      AppendsEqual(XF.Reassemble(t, None), XF.ReassembleTracks(rest), MessagesOf(t), MessagesOfTracks(rest));
    }
  }

  /** The third walker, iter_sysex, returns the same messages on a tame file exactly
      when no event repeats the F0. */
  lemma {:induction false} ThreeWalkersAgree(f: File)
    requires TameFile(f)
    ensures FxMessages(f.Serialize()).Ok? && X.SysexOf(f.Serialize()).Ok?
    ensures X.SysexOf(f.Serialize()).value == FxMessages(f.Serialize()).value <==>
            forall t :: t in f.tracks ==> NoSecondF0(t)
  {
    hide FxMessages, NoSecondF0;
    XF.ParseUndoesPrint(f);
    FxFindsAllMessages(f);
    CompleteFileMessages(f.tracks);
  }
}
