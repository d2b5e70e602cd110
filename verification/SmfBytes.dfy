/** The readers of Standard MIDI Files byte for byte: one file written out, and the inputs
    that no writer produces. */
module SmfBytes {
  import opened Bytes
  import opened Smf
  import X = XeniaSysex
  import XF = XeniaSysexFile
  import V = VirusSmf

  // ----- A file written out -----

  /** A message behind a two-byte delta, and a program change on channel 6. */
  const SENT: seq<Event> := [SysEx(200, [0x7D, 0xF7])]
  const CHANGED: seq<Event> := [Channel(0, 0xC5, [7])]

  lemma {:induction false} SentTrack()
    ensures WriteTrack(SENT) == [0x81, 0x48, 0xF0, 2, 0x7D, 0xF7] && LegalTrack(SENT, None)
  {
    assert SENT[1..] == [];
    assert VlqHead(1) == [0x81] by {
      assert VlqHead(0) == [];
    }
    assert Vlq(200) == [0x81, 0x48] && Vlq(2) == [2];
    assert LegalTrack([], None);
  }

  lemma {:induction false} ChangedTrack()
    ensures WriteTrack(CHANGED) == [0, 0xC5, 7] && LegalTrack(CHANGED, None)
  {
    assert CHANGED[1..] == [];
    assert Vlq(0) == [0];
    assert LegalTrack([], Some(0xC5));
  }

  const EXAMPLE: File := File(1, 480, [], [SENT, CHANGED])

  lemma {:induction false} ExampleTracks()
    ensures EXAMPLE.Valid()
    ensures WriteTracks(EXAMPLE.tracks)
         == [0x4D, 0x54, 0x72, 0x6B, 0, 0, 0, 6, 0x81, 0x48, 0xF0, 2, 0x7D, 0xF7]
            + [0x4D, 0x54, 0x72, 0x6B, 0, 0, 0, 3, 0, 0xC5, 7]
  {
    SentTrack();
    ChangedTrack();
    hide WriteTrack, LegalTrack;
    assert EXAMPLE.tracks[1..] == [CHANGED] && [CHANGED][1..] == [];
    var second: bytes := [0x4D, 0x54, 0x72, 0x6B, 0, 0, 0, 3, 0, 0xC5, 7];
    assert WriteTracks([CHANGED]) == second;
    hide WriteTracks;
    var sent: bytes := [0x81, 0x48, 0xF0, 2, 0x7D, 0xF7];
    var front: bytes := [0x4D, 0x54, 0x72, 0x6B, 0, 0, 0, 6];
    assert MTRK + U32(6) == front;
    TracksOf(SENT, [CHANGED]);
    AppendAssoc(MTRK, U32(6), sent + second);
    AppendAssoc(front, sent, second);
  }

  lemma {:induction false} TracksOf(t: seq<Event>, rest: seq<seq<Event>>)
    requires |WriteTrack(t)| < 0x1_0000_0000 && forall u :: u in rest ==> |WriteTrack(u)| < 0x1_0000_0000
    ensures WriteTracks([t] + rest) == MTRK + (U32(|WriteTrack(t)|) + (WriteTrack(t) + WriteTracks(rest)))
  {
    assert ([t] + rest)[1..] == rest;
  }

  lemma {:induction false} ExampleHeader(tail: bytes)
    ensures MTHD + (U32(6) + (U16(1) + (U16(2) + (U16(480) + ([] + tail)))))
         == [0x4D, 0x54, 0x68, 0x64, 0, 0, 0, 6, 0, 1, 0, 2, 0x01, 0xE0] + tail
  {
    var none: bytes := [];
    assert none + tail == tail;
    assert U16(2) + (U16(480) + tail) == [0, 2, 0x01, 0xE0] + tail;
    assert U16(1) + ([0, 2, 0x01, 0xE0] + tail) == [0, 1, 0, 2, 0x01, 0xE0] + tail;
    assert U32(6) + ([0, 1, 0, 2, 0x01, 0xE0] + tail) == [0, 0, 0, 6, 0, 1, 0, 2, 0x01, 0xE0] + tail;
  }

  /** The bytes of a file: chunk names, big-endian lengths and quantities as RP-001 has them;
      and the one message the dump reader finds in it. */
  lemma {:induction false} FileInBytes()
    ensures EXAMPLE.Valid()
    ensures EXAMPLE.Serialize()
         == [0x4D, 0x54, 0x68, 0x64, 0, 0, 0, 6, 0, 1, 0, 2, 0x01, 0xE0]
            + ([0x4D, 0x54, 0x72, 0x6B, 0, 0, 0, 6, 0x81, 0x48, 0xF0, 2, 0x7D, 0xF7]
               + [0x4D, 0x54, 0x72, 0x6B, 0, 0, 0, 3, 0, 0xC5, 7])
    ensures X.SysexOf(EXAMPLE.Serialize()) == Ok([[0xF0, 0x7D, 0xF7]])
  {
    ExampleTracks();
    hide WriteTracks, U16, U32, LegalTrack, WriteTrack, X.SysexOf;
    ExampleHeader(WriteTracks(EXAMPLE.tracks));
    XF.ParseUndoesPrint(EXAMPLE);
    OneMessage();
  }

  lemma {:induction false} OneMessage()
    ensures XF.ReassembleTracks([SENT, CHANGED]) == [[0xF0, 0x7D, 0xF7]]
  {
    assert SENT[1..] == [] && CHANGED[1..] == [];
    assert [SENT, CHANGED][1..] == [CHANGED] && [CHANGED][1..] == [];
    assert [0xF0] + [0x7D, 0xF7] == [0xF0, 0x7D, 0xF7];
    assert XF.Reassemble(SENT, None) == [[0xF0, 0x7D, 0xF7]];
    assert XF.Reassemble(CHANGED, None) == [];
    assert XF.ReassembleTracks([CHANGED]) == [];
  }

  // ----- Broken packets -----

  /** Outside well-formed files: a message that another one interrupts is returned unfinished,
      behind a complete one that interrupts it, and in front of an incomplete one; a
      continuation without a message is dropped. */
  lemma {:induction false} BrokenPackets(d: nat, e: nat, a: bytes, b: bytes)
    requires !EndsF7(a) && (a != [] ==> a[0] != 0xF0) && (b != [] ==> b[0] != 0xF0)
    ensures XF.Reassemble([SysEx(d, a), SysEx(e, b)], None)
         == if EndsF7(b) then [[0xF0] + b, [0xF0] + a] else [[0xF0] + a, [0xF0] + b]
    ensures XF.Reassemble([Escape(d, a), Escape(e, b)], None) == []
    ensures XF.Reassemble([SysEx(d, a), Escape(e, b)], None) == [[0xF0] + a + b]
  {
    hide *;
    Interrupted(d, e, a, b);
    Strays(d, e, a, b);
    Continued(d, e, a, b);
  }

  lemma {:induction false} LastPacket(e: Event, fragment: Option<bytes>)
    ensures XF.Reassemble([e], fragment)
         == XF.PacketOf(e, fragment).out + X.Flush(XF.PacketOf(e, fragment).fragment)
  {
    hide XF.PacketOf, X.Flush;
    assert [e][1..] == [];
  }

  lemma {:induction false} TwoPackets(d: Event, e: Event)
    ensures var k := XF.PacketOf(d, None);
            XF.Reassemble([d, e], None) == k.out + XF.Reassemble([e], k.fragment)
  {
    hide XF.PacketOf;
    assert [d, e][1..] == [e];
  }

  lemma {:induction false} Interrupted(d: nat, e: nat, a: bytes, b: bytes)
    requires !EndsF7(a) && (a != [] ==> a[0] != 0xF0) && (b != [] ==> b[0] != 0xF0)
    ensures XF.Reassemble([SysEx(d, a), SysEx(e, b)], None)
         == if EndsF7(b) then [[0xF0] + b, [0xF0] + a] else [[0xF0] + a, [0xF0] + b]
  {
    TwoPackets(SysEx(d, a), SysEx(e, b));
    LastPacket(SysEx(e, b), Some([0xF0] + a));
    hide XF.Reassemble;
  }

  lemma {:induction false} Strays(d: nat, e: nat, a: bytes, b: bytes)
    ensures XF.Reassemble([Escape(d, a), Escape(e, b)], None) == []
  {
    TwoPackets(Escape(d, a), Escape(e, b));
    LastPacket(Escape(e, b), None);
    hide XF.Reassemble;
  }

  lemma {:induction false} Continued(d: nat, e: nat, a: bytes, b: bytes)
    requires !EndsF7(a) && (a != [] ==> a[0] != 0xF0)
    ensures XF.Reassemble([SysEx(d, a), Escape(e, b)], None) == [[0xF0] + a + b]
  {
    TwoPackets(SysEx(d, a), Escape(e, b));
    LastPacket(Escape(e, b), Some([0xF0] + a));
    hide XF.Reassemble;
  }

  // ----- Running status -----

  /** Behind an empty event, the running status: the dump reader keeps it over both kinds of
      packet, the effect-page walker over F0 only, the patch parser over neither; a meta
      event ends it in all three. */
  lemma {:induction false} RunningStatus(data: bytes, i: nat, end: nat, s: byte, kind: byte)
    requires i + 4 <= end <= |data| && data[i] == 0 && data[i + 1] == kind && data[i + 2] == 0 && data[i + 3] == 0
    requires kind == 0xF0 || kind == 0xF7 || kind == 0xFF
    ensures var x := X.Step(data, end, X.Cursor(i, Some(s), None));
            x.Next? && x.to.running == if kind == 0xFF then None else Some(s)
    ensures var fx := V.FxStep(data, end, V.Cursor(i, Some(s)));
            fx.Next? && fx.to.running == if kind == 0xF0 then Some(s) else None
    ensures var p := V.PatchStep(data, V.Cursor(i, Some(s)));
            p.Go? && p.to.running == None
  {
    hide *;
    DumpRunning(data, i, end, s, kind);
    WalkersRunning(data, i, end, s, kind);
  }

  lemma {:induction false} DumpRunning(data: bytes, i: nat, end: nat, s: byte, kind: byte)
    requires i + 4 <= end <= |data| && data[i] == 0 && data[i + 1] == kind && data[i + 2] == 0 && data[i + 3] == 0
    requires kind == 0xF0 || kind == 0xF7 || kind == 0xFF
    ensures var x := X.Step(data, end, X.Cursor(i, Some(s), None));
            x.Next? && x.to.running == if kind == 0xFF then None else Some(s)
  {
    assert X.SkipDelta(data, i, end) == Ok(i + 1);
    hide X.Packet, Slice, X.StatusData;
  }

  lemma {:induction false} WalkersRunning(data: bytes, i: nat, end: nat, s: byte, kind: byte)
    requires i + 4 <= end <= |data| && data[i] == 0 && data[i + 1] == kind && data[i + 2] == 0 && data[i + 3] == 0
    requires kind == 0xF0 || kind == 0xF7 || kind == 0xFF
    ensures var fx := V.FxStep(data, end, V.Cursor(i, Some(s)));
            fx.Next? && fx.to.running == if kind == 0xF0 then Some(s) else None
    ensures var p := V.PatchStep(data, V.Cursor(i, Some(s)));
            p.Go? && p.to.running == None
  {
    assert V.SkipHigh(data, i, end) == i;
    assert V.ReadVlq(data, i, 0) == Ok((0, i + 1));
    hide V.Dispatch, Slice, V.ShortData, V.Terminated;
  }

  /** A data byte without a running status: TypeError in the dump reader, the end of the track
      in the effect-page walker, a bad patch in the patch parser. */
  lemma {:induction false} NoRunningStatus(data: bytes, i: nat, end: nat)
    requires i + 2 <= end <= |data| && data[i] == 0 && data[i + 1] < 128
    ensures X.Step(data, end, X.Cursor(i, None, None)) == X.Raised(X.TypeError)
    ensures V.FxStep(data, end, V.Cursor(i, None)) == V.Done
    ensures V.PatchStep(data, V.Cursor(i, None)) == V.Stop([V.Bad(V.OrphanStatus)])
  {
    assert X.SkipDelta(data, i, end) == Ok(i + 1) && V.SkipHigh(data, i, end) == i;
    assert V.ReadVlq(data, i, 0) == Ok((0, i + 1));
  }

  // ----- Quantities -----

  /** The dump reader refuses a quantity whose first four bytes all continue, and runs off
      the data on one that ends it earlier. */
  lemma {:induction false} LongQuantities(data: bytes, pos: nat)
    ensures pos + 4 <= |data| && (forall k :: pos <= k < pos + 4 ==> data[k] >= 128) ==>
              X.ReadVarlen(data, pos, 4, 0) == Err(X.DumpError)
    ensures pos <= |data| < pos + 4 && (forall k :: pos <= k < |data| ==> data[k] >= 128) ==>
              X.ReadVarlen(data, pos, 4, 0) == Err(X.IndexError)
  {
    if pos + 4 <= |data| && forall k :: pos <= k < pos + 4 ==> data[k] >= 128 {
      LongFrom(data, pos, 4, 0);
    }
    if pos <= |data| < pos + 4 && forall k :: pos <= k < |data| ==> data[k] >= 128 {
      ShortFrom(data, pos, 4, 0);
    }
  }

  lemma {:induction false} LongFrom(data: bytes, pos: nat, left: nat, acc: nat)
    requires pos + left <= |data| && forall k :: pos <= k < pos + left ==> data[k] >= 128
    ensures X.ReadVarlen(data, pos, left, acc) == Err(X.DumpError)
    decreases left
  {
    if left > 0 {
      LongFrom(data, pos + 1, left - 1, acc * 128 + data[pos] % 128);
    }
  }

  lemma {:induction false} ShortFrom(data: bytes, pos: nat, left: nat, acc: nat)
    requires pos <= |data| < pos + left && forall k :: pos <= k < |data| ==> data[k] >= 128
    ensures X.ReadVarlen(data, pos, left, acc) == Err(X.IndexError)
    decreases left
  {
    if pos < |data| {
      ShortFrom(data, pos + 1, left - 1, acc * 128 + data[pos] % 128);
    }
  }
}
