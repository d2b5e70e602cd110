/** Bank files that are Standard MIDI Files, which the sidecar writer scans for F0 and the
    loader walks track by track; and exactly which names the two read alike. */
module MicrowaveBanks {
  import opened Bytes
  import opened Text
  import opened Smf
  import opened XeniaDump
  import opened XeniaBank
  import opened SysexBlocks
  import opened Microwave
  import X = XeniaSysex
  import XF = XeniaSysexFile

  // ----- What both readers find in a file -----

  /** The message the loader makes of a complete sysex event. */
  function LoaderMessage(data: bytes): bytes {
    if data != [] && data[0] == 0xF0 then data else [0xF0] + data
  }

  function SentOf(e: Event): seq<Sent> {
    if e.SysEx? then [Sent(LoaderMessage(e.data), Body(e))] else []
  }

  function SentBy(events: seq<Event>): seq<Sent> {
    if events == [] then [] else SentOf(events[0]) + SentBy(events[1..])
  }

  function SentByTracks(tracks: seq<seq<Event>>): seq<Sent> {
    if tracks == [] then [] else SentBy(tracks[0]) + SentByTracks(tracks[1..])
  }

  /** A complete sysex event whose only F7 is its last byte, or an event without F0. */
  predicate QuietEvent(e: Event) {
    && 0xF0 !in Vlq(e.delta)
    && if e.SysEx? then EndsF7(e.data) && 0xF7 !in Vlq(|e.data|) && 0xF7 !in e.data[..|e.data| - 1]
       else 0xF0 !in Body(e)
  }

  predicate QuietTrack(events: seq<Event>) {
    forall e :: e in events ==> QuietEvent(e)
  }

  /** No F0 outside the sysex events, no F7 inside one. */
  predicate QuietFile(f: Smf.File) {
    && f.Valid() && 0xF0 !in U32(6 + |f.extra|) && 0xF0 !in U16(f.format) && 0xF0 !in U16(|f.tracks|)
    && 0xF0 !in U16(f.division) && 0xF0 !in f.extra
    && forall t :: t in f.tracks ==> QuietTrack(t) && 0xF0 !in U32(|WriteTrack(t)|)
  }

  lemma {:induction false} MessagesAppend(a: seq<Sent>, b: seq<Sent>)
    ensures Messages(a + b) == Messages(a) + Messages(b) && Raws(a + b) == Raws(a) + Raws(b)
    decreases |a|
  {
    if a == [] {
      AppendNone(b);
      AppendNone(Messages(b));
      AppendNone(Raws(b));
    } else {
      assert (a + b)[1..] == a[1..] + b;
      MessagesAppend(a[1..], b);
      AppendAssoc([a[0].message], Messages(a[1..]), Messages(b));
      AppendAssoc([a[0].raw], Raws(a[1..]), Raws(b));
    }
  }

  // ----- The loader -----

  lemma {:induction false} LoaderTrack(events: seq<Event>)
    requires QuietTrack(events)
    ensures XF.Reassemble(events, None) == Messages(SentBy(events))
    decreases |events|
  {
    if events != [] {
      var e := events[0];
      assert e in events && QuietEvent(e);
      LoaderTrack(events[1..]);
      LoaderEvent(e);
      hide XF.PacketOf, SentOf;
      MessagesAppend(SentOf(e), SentBy(events[1..]));
    }
  }

  lemma {:induction false} LoaderEvent(e: Event)
    requires QuietEvent(e)
    ensures XF.PacketOf(e, None) == X.Packets(Messages(SentOf(e)), None)
  {
    if e.SysEx? {
      assert EndsF7(LoaderMessage(e.data));
    }
  }

  lemma {:induction false} LoaderTracks(tracks: seq<seq<Event>>)
    requires forall t :: t in tracks ==> QuietTrack(t)
    ensures XF.ReassembleTracks(tracks) == Messages(SentByTracks(tracks))
    decreases |tracks|
  {
    hide QuietTrack, XF.Reassemble, SentBy;
    if tracks != [] {
      LoaderTracks(tracks[1..]);
      LoaderTrack(tracks[0]);
      MessagesAppend(SentBy(tracks[0]), SentByTracks(tracks[1..]));
    }
  }

  // ----- The raw scan -----

  lemma {:induction false} BodyFramed(e: Event)
    requires e.SysEx? && QuietEvent(e)
    ensures XF.Framed(Body(e))
  {
    hide Vlq;
    FramedBy(Vlq(|e.data|), e.data);
  }

  lemma {:induction false} FramedBy(v: bytes, d: bytes)
    requires EndsF7(d) && 0xF7 !in v && 0xF7 !in d[..|d| - 1]
    ensures XF.Framed([0xF0] + (v + d))
  {
    var m, front := [0xF0] + (v + d), [0xF0] + (v + d[..|d| - 1]);
    assert m == front + [0xF7];
    assert 0xF7 !in front;
    forall i | 0 <= i < |m| - 1 ensures m[i] != 0xF7 {
      assert m[i] == front[i];
    }
  }

  lemma {:induction false} RawEvent(e: Event, rest: bytes)
    requires QuietEvent(e)
    ensures X.RawMessages((Vlq(e.delta) + Body(e)) + rest) == Raws(SentOf(e)) + X.RawMessages(rest)
  {
    hide X.RawMessages, Vlq;
    if e.SysEx? {
      BodyFramed(e);
      hide Body;
      AppendAssoc(Vlq(e.delta), Body(e), rest);
      XF.RawSkips(Vlq(e.delta), Body(e) + rest);
      XF.RawTakes(Body(e), rest);
      assert Raws(SentOf(e)) == [Body(e)];
    } else {
      hide Body;
      XF.RawSkips(Vlq(e.delta) + Body(e), rest);
      AppendNone(X.RawMessages(rest));
    }
  }

  lemma {:induction false} RawTrack(events: seq<Event>, tail: bytes)
    requires QuietTrack(events)
    ensures X.RawMessages(WriteTrack(events) + tail) == Raws(SentBy(events)) + X.RawMessages(tail)
    decreases |events|
  {
    hide X.RawMessages, QuietEvent, SentOf, Vlq, Body;
    if events == [] {
      AppendNone(tail);
      AppendNone(X.RawMessages(tail));
    } else {
      var e, rest := events[0], WriteTrack(events[1..]);
      assert e in events && QuietEvent(e);
      AppendAssoc(Vlq(e.delta) + Body(e), rest, tail);
      RawEvent(e, rest + tail);
      RawTrack(events[1..], tail);
      MessagesAppend(SentOf(e), SentBy(events[1..]));
      AppendAssoc(Raws(SentOf(e)), Raws(SentBy(events[1..])), X.RawMessages(tail));
    }
  }

  lemma {:induction false} RawTracks(tracks: seq<seq<Event>>)
    requires forall t :: t in tracks ==>
               QuietTrack(t) && |WriteTrack(t)| < 0x1_0000_0000 && 0xF0 !in U32(|WriteTrack(t)|)
    ensures X.RawMessages(WriteTracks(tracks)) == Raws(SentByTracks(tracks))
    decreases |tracks|
  {
    hide X.RawMessages, QuietTrack, SentBy, WriteTrack, U32;
    if tracks == [] {
      NoRaws();
    } else {
      var t, rest := tracks[0], WriteTracks(tracks[1..]);
      var size := U32(|WriteTrack(t)|);
      AppendAssoc(MTRK, size, WriteTrack(t) + rest);
      assert 0xF0 !in MTRK + size;
      XF.RawSkips(MTRK + size, WriteTrack(t) + rest);
      RawTrack(t, rest);
      RawTracks(tracks[1..]);
      MessagesAppend(SentBy(t), SentByTracks(tracks[1..]));
    }
  }

  lemma {:induction false} NoRaws()
    ensures X.RawMessages([]) == []
  {
  }

  lemma {:induction false} RawFile(f: Smf.File)
    requires QuietFile(f)
    ensures X.RawMessages(f.Serialize()) == Raws(SentByTracks(f.tracks))
  {
    hide X.RawMessages, QuietTrack, WriteTrack, WriteTracks, U16, U32;
    var n, k, t, d := U32(6 + |f.extra|), U16(f.format), U16(|f.tracks|), U16(f.division);
    var head := MTHD + n + k + t + d + f.extra;
    assert f.Serialize() == head + WriteTracks(f.tracks);
    assert 0xF0 !in head;
    XF.RawSkips(head, WriteTracks(f.tracks));
    RawTracks(f.tracks);
  }

  // ----- Both readers of a bank file -----

  /** For a bank that is a Standard MIDI File without stray F0 or F7, and whose messages
      both readers take alike, labelling the sidecar gives the loader's rows. */
  lemma {:induction false} MidFileLabelsAreRowLabels(f: Smf.File, vocab: Vocabulary)
    requires QuietFile(f) && InjectiveVocabulary(vocab) && forall s :: s in SentByTracks(f.tracks) ==> Agree(s)
    ensures X.SysexOf(f.Serialize()).Ok?
    ensures SameLabels(Keep(Keep(X.RawMessages(f.Serialize()), Inner), PatchOf), Rows(X.SysexOf(f.Serialize()).value),
                       vocab)
  {
    hide X.RawMessages, QuietTrack, Agree, InjectiveVocabulary, SameLabels, Rows, Inner, PatchOf, X.SysexOf,
      Smf.File.Serialize, SentByTracks;
    XF.ParseUndoesPrint(f);
    LoaderTracks(f.tracks);
    RawFile(f);
    LabelsAgree(SentByTracks(f.tracks), vocab);
  }

  lemma {:induction false} HighRunOf(v: bytes, rest: bytes)
    requires VlqShape(v)
    ensures HighRun(v + rest) == |v| - 1
    decreases |v|
  {
    var s := v + rest;
    assert s[0] == v[0];
    if |v| > 1 {
      assert s[1..] == v[1..] + rest;
      HighRunOf(v[1..], rest);
    }
  }

  lemma {:induction false} LongVlq(n: nat)
    requires 128 <= n < VLQ_LIMIT
    ensures VlqShape(Vlq(n)) && |Vlq(n)| >= 2 && Vlq(n)[0] >= 0x80
  {
    VlqReads(n);
    var k := n / 128;
    assert VlqHead(k) == VlqHead(k / 128) + [128 + k % 128];
  }

  /** The scan strips the length of an event of 128 bytes or more. */
  lemma {:induction false} LengthStripped(d: bytes)
    requires 128 <= |d| < VLQ_LIMIT
    ensures Inner([0xF0] + (Vlq(|d|) + d)) == Some(d[..|d| - 1])
  {
    var v, raw := Vlq(|d|), [0xF0] + (Vlq(|d|) + d);
    LongVlq(|d|);
    hide Vlq;
    assert raw[1..|raw| - 1] == v + d[..|d| - 1];
    HighRunOf(v, d[..|d| - 1]);
    hide HighRun;
    var body := v + d[..|d| - 1];
    assert Slice(raw, 1, |raw| - 1) == body && body[0] == v[0];
    assert Slice(body, |v|, |body|) == body[|v|..] == d[..|d| - 1];
  }

  /** An event of 128 bytes or more that starts with a data byte is one message to both
      readers, and they agree on it as on a raw stream. */
  lemma {:induction false} LongEvent(e: Event)
    requires e.SysEx? && 128 <= |e.data| < VLQ_LIMIT && e.data[0] < 0x80
    ensures var s := SentOf(e)[0];
            Inner(s.raw) == Inner(s.message) == Some(e.data[..|e.data| - 1]) && (Agree(s) <==> Agreeable(s.message))
  {
    hide Vlq, PatchOf, GoodName;
    LengthStripped(e.data);
    var m := [0xF0] + e.data;
    assert Slice(m, 1, |m| - 1) == e.data[..|e.data| - 1];
  }

  // ----- A stray F0 -----

  /** A meta event that holds an F0, then one dump. */
  function StrayEvents(m: bytes): seq<Event>
    requires |m| == DUMP_LEN
  {
    [Meta(0, 0x7F, [0xF0]), SysEx(0, m[1..])]
  }

  function StrayFile(m: bytes): Smf.File
    requires |m| == DUMP_LEN
  {
    Smf.File(0, 96, [], [StrayEvents(m)])
  }

  /** From the stray F0 to the dump's F7. */
  function StrayRun(m: bytes): bytes
    requires |m| == DUMP_LEN
  {
    [0xF0, 0x00, 0xF0, 0x82, 0x08] + m[1..]
  }

  lemma {:induction false} StrayTrack(m: bytes)
    requires IsSingle(m) && XF.Framed(m)
    ensures WriteTrack(StrayEvents(m)) == [0x00, 0xFF, 0x7F, 0x01] + StrayRun(m)
    ensures LegalTrack(StrayEvents(m), None)
  {
    var a, b := Meta(0, 0x7F, [0xF0]), SysEx(0, m[1..]);
    assert StrayEvents(m)[1..] == [b] && [b][1..] == [];
    assert LegalTrack([b], None);
    SmallVlqs();
    hide Vlq, LegalTrack, Legal;
    assert Vlq(0) + Body(a) == [0x00, 0xFF, 0x7F, 0x01, 0xF0];
    assert WriteTrack([b]) == [0x00, 0xF0, 0x82, 0x08] + m[1..];
  }

  lemma {:induction false} SmallVlqs()
    ensures Vlq(0) == [0] && Vlq(1) == [1] && Vlq(264) == [0x82, 0x08]
  {
    assert VlqHead(2) == VlqHead(0) + [130];
  }

  lemma {:induction false} StrayMessages(m: bytes)
    requires IsSingle(m) && XF.Framed(m)
    ensures XF.ReassembleTracks([StrayEvents(m)]) == [m]
  {
    var b := SysEx(0, m[1..]);
    assert StrayEvents(m)[1..] == [b] && [b][1..] == [];
    assert [0xF0] + m[1..] == m;
    assert XF.Reassemble([b], None) == [m];
    var none: seq<seq<Event>> := [];
    assert [StrayEvents(m)][1..] == none;
  }

  function StrayHead(): bytes {
    MTHD + (U32(6) + (U16(0) + (U16(1) + (U16(96) + StrayTrackHead()))))
  }

  function StrayTrackHead(): bytes {
    MTRK + (U32(273) + [0x00, 0xFF, 0x7F, 0x01])
  }

  lemma {:induction false} HeadIsQuiet()
    ensures 0xF0 !in StrayHead()
  {
  }

  lemma {:induction false} RunIsFramed(m: bytes)
    requires |m| == DUMP_LEN && XF.Framed(m)
    ensures XF.Framed(StrayRun(m))
  {
    var run := StrayRun(m);
    forall i | 0 <= i < |run| - 1 ensures run[i] != 0xF7 {
      assert i >= 5 ==> run[i] == m[i - 4];
    }
    assert run[|run| - 1] == m[|m| - 1];
  }

  lemma {:induction false} StrayBytes(m: bytes)
    requires IsSingle(m) && XF.Framed(m)
    ensures StrayFile(m).Valid() && StrayFile(m).Serialize() == StrayHead() + StrayRun(m)
  {
    StrayTracks(m);
    StrayIsValid(m);
    hide WriteTrack, WriteTracks, LegalTrack, StrayEvents, StrayRun, U32, U16, MTHD, StrayTrackHead, Smf.File.Valid,
      IsSingle, XF.Framed;
    PlainHeader(StrayFile(m), StrayTrackHead() + StrayRun(m));
    HeadAppends(U16(96), StrayTrackHead(), StrayRun(m));
  }

  lemma {:induction false} StrayIsValid(m: bytes)
    requires |m| == DUMP_LEN && LegalTrack(StrayEvents(m), None) && |WriteTrack(StrayEvents(m))| == 273
    ensures StrayFile(m).Valid()
  {
    hide LegalTrack, WriteTrack, StrayEvents;
  }

  lemma {:induction false} PlainHeader(f: Smf.File, tracks: bytes)
    requires f.Valid() && f.extra == [] && WriteTracks(f.tracks) == tracks
    ensures f.Serialize() == MTHD + (U32(6) + (U16(f.format) + (U16(|f.tracks|) + (U16(f.division) + tracks))))
  {
    hide WriteTracks, U32, U16, MTHD, LegalTrack, WriteTrack;
    AppendNone(tracks);
  }

  lemma {:induction false} StrayTracks(m: bytes)
    requires IsSingle(m) && XF.Framed(m)
    ensures |WriteTrack(StrayEvents(m))| == 273 && LegalTrack(StrayEvents(m), None)
    ensures WriteTracks([StrayEvents(m)]) == StrayTrackHead() + StrayRun(m)
  {
    StrayTrack(m);
    var a, run := [0x00, 0xFF, 0x7F, 0x01], StrayRun(m);
    assert |a + run| == 273;
    hide WriteTrack, LegalTrack, StrayEvents, StrayRun, U32;
    OneTrack(StrayEvents(m));
    AppendNone(a + run);
    AppendAssoc(U32(273), a, run);
    AppendAssoc(MTRK, U32(273) + a, run);
  }

  lemma {:induction false} HeadAppends(d: bytes, t: bytes, run: bytes)
    ensures MTHD + (U32(6) + (U16(0) + (U16(1) + (d + t)))) + run
         == MTHD + (U32(6) + (U16(0) + (U16(1) + (d + (t + run)))))
  {
    hide U32, U16;
    AppendAssoc(d, t, run);
    AppendAssoc(U16(1), d + t, run);
    AppendAssoc(U16(0), U16(1) + (d + t), run);
    AppendAssoc(U32(6), U16(0) + (U16(1) + (d + t)), run);
    AppendAssoc(MTHD, U32(6) + (U16(0) + (U16(1) + (d + t))), run);
  }

  lemma {:induction false} StrayScan(m: bytes)
    requires IsSingle(m) && XF.Framed(m)
    ensures StrayFile(m).Valid() && X.RawMessages(StrayFile(m).Serialize()) == [StrayRun(m)]
  {
    StrayBytes(m);
    HeadIsQuiet();
    RunIsFramed(m);
    hide X.RawMessages, StrayFile, StrayHead, StrayRun, Smf.File.Serialize, Smf.File.Valid, XF.Framed, IsSingle;
    XF.RawSkips(StrayHead(), StrayRun(m));
    AppendNone(StrayRun(m));
    NoRaws();
    XF.RawTakes(StrayRun(m), []);
  }

  lemma {:induction false} OneTrack(events: seq<Event>)
    requires |WriteTrack(events)| < 0x1_0000_0000
    ensures WriteTracks([events]) == MTRK + (U32(|WriteTrack(events)|) + (WriteTrack(events) + []))
  {
    var none: seq<seq<Event>> := [];
    assert [events][1..] == none;
  }

  /** Any dump behind a meta event that holds an F0: the loader has its row, and the sidecar
      writer, scanning from the stray F0, has no patch. */
  lemma {:induction false} StrayF0LosesPatch(m: bytes)
    requires IsSingle(m) && XF.Framed(m)
    ensures StrayFile(m).Valid()
    ensures var data := StrayFile(m).Serialize();
            && X.SysexOf(data) == Ok([m]) && Rows([m]) == [RowOf(m)]
            && Keep(Keep(X.RawMessages(data), Inner), PatchOf) == []
  {
    hide X.SysexOf, X.RawMessages, Smf.File.Serialize, Smf.File.Valid, StrayRun, Inner, PatchOf, RowOf;
    StrayScan(m);
    XF.ParseUndoesPrint(StrayFile(m));
    StrayMessages(m);
    NotAPatch(m);
    var run := StrayRun(m);
    var none: seq<bytes> := [];
    assert [run][1..] == none;
    assert Keep([run], Inner) == [Inner(run).value];
    assert [Inner(run).value][1..] == none;
    AppendNone([RowOf(m)]);
    assert [m][1..] == none;
  }

  lemma {:induction false} NotAPatch(m: bytes)
    requires |m| == DUMP_LEN
    ensures Inner(StrayRun(m)).Some? && PatchOf(Inner(StrayRun(m)).value).None?
  {
    var run := StrayRun(m);
    assert Slice(run, 1, |run| - 1)[0] == 0;
  }

  // ----- Which names both readers read -----

  /** What a search of the last bytes finds: nothing, or a window that starts printable. */
  lemma {:induction false} SearchFinds(body: bytes, from: nat)
    ensures var f := Search(body, from);
            f.name == "" || (from <= f.off && f.off + NAME_LEN <= |body| && Printable(body[f.off])
                             && PrintableField(Window(body, f.off)) && f.name == RStrip(Decoded(Window(body, f.off))))
    decreases |body| - from
  {
    hide RStrip, Decoded, PrintableField;
    if from + NAME_LEN <= |body| && !(Printable(body[from]) && PrintableField(Window(body, from))) {
      SearchFinds(body, from + 1);
    }
  }

  /** Text whose last characters are stripped keeps its first one, if any is left. */
  lemma {:induction false} StripKeepsFirst(s: string)
    ensures RStrip(s) != [] ==> s != [] && RStrip(s)[0] == s[0]
    decreases |s|
  {
    if s != [] && IsSpace(s[|s| - 1]) {
      StripKeepsFirst(s[..|s| - 1]);
    }
  }

  /** One byte too late: a window that reads as a name where the field itself does not
      starts with another character. */
  lemma {:induction false} LateWindow(field: bytes, late: bytes)
    requires |field| == 16 && |late| == 16 && (forall i :: 0 <= i < 15 ==> late[i] == field[i + 1])
    requires Printable(late[0]) && PrintableField(late) && !PrintableField(field)
    ensures RStrip(Decoded(late)) != [] ==> RStrip(Decoded(late)) != RStrip(Decoded(field))
  {
    assert !Printable(field[0]) by {
      if Printable(field[0]) {
        forall i | 0 <= i < 16 ensures Printable(field[i]) || field[i] == 0 {
          assert i > 0 ==> field[i] == late[i - 1];
        }
      }
    }
    StripKeepsFirst(Decoded(late));
    StripKeepsFirst(Decoded(field));
    assert Decoded(late)[0] == late[0] as char && Decoded(field)[0] == field[0] as char;
    hide RStrip;
  }

  /** A single dump: the sidecar and the loader give one name and one labelling, under a
      vocabulary that names the last parameter, exactly when the name field is good. */
  lemma {:induction false} NamesExactly(m: bytes, vocab: Vocabulary)
    requires IsSingle(m) && InjectiveVocabulary(vocab) && PARAM_COUNT - 1 in vocab
    ensures var p, row := PatchOf(m[1..264]), RowOf(m);
            Inner(m) == Some(m[1..264])
            && (p.Some? && p.value.name == row.name && Label(p.value.params, true, vocab) == RowLabel(row.params, vocab)
                <==> GoodName(m[NAME_AT..CHECKSUM_AT]))
  {
    hide Label, RowLabel, InjectiveVocabulary, PatchOf, GoodName;
    InnerOfSingle(m);
    if GoodName(m[NAME_AT..CHECKSUM_AT]) {
      SinglePatch(m);
      LabelIs(PatchOf(m[1..264]).value.params, RowOf(m).params, true, vocab);
    } else if PatchOf(m[1..264]).Some? {
      BadName(m);
      if PatchOf(m[1..264]).value.name == RowOf(m).name {
        ShortLabels(m, vocab);
      }
    }
  }

  lemma {:induction false} InnerOfSingle(m: bytes)
    requires IsSingle(m)
    ensures Inner(m) == Some(m[1..264])
  {
    assert m[1..264][0] == 0x3E;
  }

  /** Under a bad field a patch has another name, or its name before the field. */
  lemma {:induction false} BadName(m: bytes)
    requires IsSingle(m) && !GoodName(m[NAME_AT..CHECKSUM_AT]) && PatchOf(m[1..264]).Some?
    ensures var p := PatchOf(m[1..264]).value;
            p.name != RowOf(m).name || (0 <= p.nameOffset < 242 && HasKeys(p.params, p.nameOffset))
  {
    var inner, field := m[1..264], m[NAME_AT..CHECKSUM_AT];
    var body := inner[4..];
    SliceOfSlice(m, 1, 264, 4, 263);
    SliceOfSlice(m, 5, 264, 242, 258);
    assert Window(body, 242) == field && Slice(field, 0, NAME_LEN) == field;
    SearchFinds(body, 219);
    hide RStrip, Decoded, Search;
    assert !PrintableField(field);
    hide PrintableField;
    var f := FindName(body, 242);
    assert f == Search(body, 219) && f.off != 242;
    if f.off == 243 {
      var late := Window(body, 243);
      forall i | 0 <= i < 15 ensures late[i] == field[i + 1] {
        assert late[i] == body[243 + i] && Window(body, 242)[i + 1] == body[243 + i];
      }
      assert late[0] == body[243];
      LateWindow(field, late);
    }
  }

  /** A patch whose name lies before the field lacks the last parameter. */
  lemma {:induction false} ShortLabels(m: bytes, vocab: Vocabulary)
    requires IsSingle(m) && InjectiveVocabulary(vocab) && PARAM_COUNT - 1 in vocab && PatchOf(m[1..264]).Some?
    requires 0 <= PatchOf(m[1..264]).value.nameOffset < 242
    requires HasKeys(PatchOf(m[1..264]).value.params, PatchOf(m[1..264]).value.nameOffset)
    ensures Label(PatchOf(m[1..264]).value.params, true, vocab) != RowLabel(RowOf(m).params, vocab)
  {
    var values, row, last := PatchOf(m[1..264]).value.params, RowOf(m).params, vocab[PARAM_COUNT - 1];
    hide PatchOf;
    assert last in RowNames(row, vocab);
    forall k | k in NamedKeys(values, true, vocab) ensures NameOf(k, true, vocab) != last {
    }
    assert last in RowLabel(row, vocab) && last !in Label(values, true, vocab);
  }
}
