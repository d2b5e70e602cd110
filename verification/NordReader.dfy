/** nord_dump.load_patch on raw files: which dump the reader loads, and when it is the
    one write_patch rewrites. */
module NordReader {
  import opened Bytes
  import opened NordSyx
  import opened NordDump
  import opened NordWriter
  import opened NordLaws
  import Smf

  // ----- The dump that is rewritten -----

  /** A raw file whose first strictly framed dump has one of the six shapes. */
  ghost predicate RawFile(data: bytes) {
    && Slice(data, 0, 4) != Smf.MTHD && Slice(data, 0, 4) != RIFF && Spans(data, 0) != []
    && Spans(data, 0)[0].start < Spans(data, 0)[0].end < |data|
    && Classify(data[Spans(data, 0)[0].start + 1..Spans(data, 0)[0].end]).Some?
  }

  /** The dump that write_patch rewrites. */
  ghost function FirstDump(data: bytes): (d: bytes)
    requires RawFile(data)
    ensures |d| >= 139
  {
    data[Spans(data, 0)[0].start..Spans(data, 0)[0].end + 1]
  }

  /** The parameters of a full dump, F0 and F7 included. */
  function Decoded(d: bytes): (r: seq<int>)
    requires |d| >= 139
    ensures |r| == PARAMS
  {
    DecodeParams(d[1..|d| - 1])
  }

  // ----- load_dumps and load_patch -----

  function PieceParams(p: Piece): (r: Option<seq<int>>)
    ensures r.Some? ==> |r.value| == PARAMS
  {
    if Classify(p.payload).Some? then Some(DecodeParams(p.payload)) else None
  }

  /** load_dumps on a raw file: the parameters of every piece with a known shape. */
  method LoadDumps(data: bytes) returns (out: seq<seq<int>>)
    ensures out == Keep(Pieces(data, 0), PieceParams)
  {
    hide Pieces, PieceParams;
    var items := SplitDumps(data);
    out := [];
    AppendNone(Keep(items, PieceParams));
    assert items[0..] == items;
    for i := 0 to |items|
      invariant out + Keep(items[i..], PieceParams) == Keep(items, PieceParams)
    {
      KeepTurn(items, PieceParams, i);
      ghost var later := Keep(items[i + 1..], PieceParams);
      AppendNone(later);
      var params := PieceParams(items[i]);
      if params.Some? {
        AppendAssoc(out, [params.value], later);
        out := out + [params.value];
      }
    }
    AppendNone(out);
  }

  /** load_patch on a raw file: the parameters of the first piece with a known shape. */
  function LoadPatch(data: bytes): (r: Option<seq<int>>)
    ensures r.Some? ==> |r.value| == PARAMS
  {
    var loaded := Keep(Pieces(data, 0), PieceParams);
    KeptParams(Pieces(data, 0));
    if loaded == [] then None else Some(loaded[0])
  }

  lemma {:induction false} KeptParams(items: seq<Piece>)
    ensures forall p :: p in Keep(items, PieceParams) ==> |p| == PARAMS
    decreases |items|
  {
    hide DecodeParams, Classify;
    if items != [] {
      KeptParams(items[1..]);
    }
  }

  /** Where the piece starts that load_patch loads, from position i on. */
  ghost function LoadedStart(data: bytes, i: nat): (r: Option<nat>)
    requires i <= |data|
    ensures r.Some? ==> i <= r.value < |data| && (Anchor(data, r.value) || BareAnchor(data, r.value))
    ensures r.Some? ==> Find(data, 0xF7, r.value) >= 0
    decreases |data| - i
  {
    if i == |data| then None
    else if Anchor(data, i) || BareAnchor(data, i) then
      var end := Find(data, 0xF7, i);
      if end < 0 then None
      else if Classify(PieceAt(data, i, end).payload).Some? then Some(i)
      else LoadedStart(data, end + 1)
    else LoadedStart(data, i + 1)
  }

  lemma {:induction false} LoadedFrom(data: bytes, i: nat)
    requires i <= |data|
    ensures var loaded, at := Keep(Pieces(data, i), PieceParams), LoadedStart(data, i);
            match at
            case None => loaded == []
            case Some(p) =>
              && Classify(PieceAt(data, p, Find(data, 0xF7, p)).payload).Some?
              && loaded != [] && loaded[0] == DecodeParams(PieceAt(data, p, Find(data, 0xF7, p)).payload)
    decreases |data| - i
  {
    hide DecodeParams, Classify, PieceAt, Find;
    if i < |data| {
      if Anchor(data, i) || BareAnchor(data, i) {
        var end := Find(data, 0xF7, i);
        if end >= 0 {
          EndIsAhead(data, i);
          LoadedFrom(data, end + 1);
          KeepFirst(PieceAt(data, i, end), Pieces(data, end + 1), PieceParams);
          AppendNone(Keep(Pieces(data, end + 1), PieceParams));
        }
      } else {
        LoadedFrom(data, i + 1);
      }
    }
  }

  lemma {:induction false} EndIsAhead(data: bytes, i: nat)
    requires i <= |data| && Find(data, 0xF7, i) >= 0
    ensures i <= Find(data, 0xF7, i) < |data| && data[Find(data, 0xF7, i)] == 0xF7
  {
  }

  // ----- Exactly when the reader loads the dump that is rewritten -----

  /** A header without its F0 that no earlier such header's piece holds. */
  ghost predicate Leads(data: bytes, i: nat)
    requires i < |data|
  {
    BareAnchor(data, i) && forall j :: 0 <= j < i && BareAnchor(data, j) ==> 0 <= Find(data, 0xF7, j) < i
  }

  /** The piece of this header ends before the dump and is of no known shape. */
  ghost predicate Passed(data: bytes, i: nat, start: nat)
    requires i < |data|
  {
    var end := Find(data, 0xF7, i);
    0 <= end < start && Classify(data[i..end]).None?
  }

  /** From position i on, the reader passes everything before the dump at start. */
  ghost predicate PassesFrom(data: bytes, i: nat, start: nat)
    requires start <= |data|
  {
    forall j :: i <= j < start && Leads(data, j) ==> Passed(data, j, start)
  }

  /** All the pieces before position i have ended. */
  ghost predicate Between(data: bytes, i: nat)
    requires i <= |data|
  {
    forall j :: 0 <= j < i && BareAnchor(data, j) ==> 0 <= Find(data, 0xF7, j) < i
  }

  lemma {:induction false} NoAnchorBefore(data: bytes, i: nat, s: Span, j: nat)
    requires i <= j < s.start < |data| && Spans(data, i) != [] && Spans(data, i)[0] == s
    ensures !Anchor(data, j)
    decreases j - i
  {
    if i < j && !Anchor(data, i) {
      NoAnchorBefore(data, i + 1, s, j);
    }
  }

  /** After a piece that ends at end, the next header leads again. */
  lemma {:induction false} AfterPiece(data: bytes, i: nat, end: nat)
    requires i <= end < |data| && end == Find(data, 0xF7, i) && Between(data, i) && BareAnchor(data, i)
    ensures Between(data, end + 1) && Leads(data, i)
    ensures forall j :: i < j <= end ==> !Leads(data, j)
  {
    forall j | i < j <= end && BareAnchor(data, j) ensures 0 <= Find(data, 0xF7, j) < end + 1 {
    }
  }

  lemma {:induction false} AtDump(data: bytes, s: Span)
    requires s.start < s.end < |data| && Anchor(data, s.start) && s.end == Find(data, 0xF7, s.start)
    requires Classify(data[s.start + 1..s.end]).Some?
    ensures LoadedStart(data, s.start) == Some(s.start) && PassesFrom(data, s.start, s.start)
  {
    hide Classify, Find;
  }

  /** A piece that reaches into the dump, or has a known shape, is loaded instead or
      swallows it. */
  lemma {:induction false} NotPassed(data: bytes, i: nat, start: nat)
    requires i < start < |data| && !Anchor(data, i) && Leads(data, i) && !Passed(data, i, start)
    ensures LoadedStart(data, i) != Some(start) && !PassesFrom(data, i, start)
  {
    hide Classify;
  }

  lemma {:induction false} PieceStep(data: bytes, i: nat, start: nat)
    requires i < start <= |data| && !Anchor(data, i) && BareAnchor(data, i) && Passed(data, i, start)
    ensures LoadedStart(data, i) == LoadedStart(data, Find(data, 0xF7, i) + 1)
  {
    hide Classify, Find;
  }

  lemma {:induction false} LoadsExactly(data: bytes, i: nat, s: Span)
    requires i <= s.start < s.end < |data| && Anchor(data, s.start) && s.end == Find(data, 0xF7, s.start)
    requires Classify(data[s.start + 1..s.end]).Some?
    requires (forall j :: i <= j < s.start ==> !Anchor(data, j)) && Between(data, i)
    ensures LoadedStart(data, i) == Some(s.start) <==> PassesFrom(data, i, s.start)
    decreases s.start - i
  {
    hide Classify, Find, Anchor, BareAnchor, Passed, Leads, PassesFrom;
    if i == s.start {
      AtDump(data, s);
    } else if BareAnchor(data, i) {
      Aligned(data, i);
      if Passed(data, i, s.start) {
        var end := Find(data, 0xF7, i);
        PassedEnds(data, i, s.start);
        AfterPiece(data, i, end);
        PieceStep(data, i, s.start);
        LoadsExactly(data, end + 1, s);
        PassedHere(data, i, end, s.start);
      } else {
        NotPassed(data, i, s.start);
      }
    } else {
      NoPieceHere(data, i, s.start);
      LoadsExactly(data, i + 1, s);
    }
  }

  lemma {:induction false} Aligned(data: bytes, i: nat)
    requires i < |data| && Between(data, i) && BareAnchor(data, i)
    ensures Leads(data, i)
  {
  }

  lemma {:induction false} PassedEnds(data: bytes, i: nat, start: nat)
    requires i < |data| && Passed(data, i, start)
    ensures i <= Find(data, 0xF7, i) < start
  {
  }

  lemma {:induction false} NoPieceHere(data: bytes, i: nat, start: nat)
    requires i < start <= |data| && !Anchor(data, i) && !BareAnchor(data, i) && Between(data, i)
    ensures Between(data, i + 1) && LoadedStart(data, i) == LoadedStart(data, i + 1)
    ensures PassesFrom(data, i, start) <==> PassesFrom(data, i + 1, start)
  {
    hide Find, Anchor, Passed;
  }

  lemma {:induction false} PassedHere(data: bytes, i: nat, end: nat, start: nat)
    requires i <= end < start <= |data| && end == Find(data, 0xF7, i) && Leads(data, i)
    requires forall j :: i < j <= end ==> !Leads(data, j)
    ensures PassesFrom(data, i, start) <==> Classify(data[i..end]).None? && PassesFrom(data, end + 1, start)
  {
    hide Leads, Classify;
  }

  /** Everything the reader meets before the dump that is rewritten ends before it and is
      of no known shape. */
  ghost predicate LoadsFirst(data: bytes)
    requires RawFile(data)
  {
    PassesFrom(data, 0, Spans(data, 0)[0].start)
  }

  /** load_patch loads the dump that write_patch rewrites exactly when every headless
      piece before it ends before it and has no known shape. */
  lemma {:induction false} ReaderSeesFirstDump(data: bytes)
    requires RawFile(data)
    ensures LoadedStart(data, 0) == Some(Spans(data, 0)[0].start) <==> LoadsFirst(data)
    ensures LoadsFirst(data) ==> LoadPatch(data) == Some(Decoded(FirstDump(data)))
  {
    hide Spans, Pieces, Classify, DecodeParams, PassesFrom, LoadedStart, Find;
    var s := Spans(data, 0)[0];
    SpanFramed(data, 0);
    forall j | 0 <= j < s.start ensures !Anchor(data, j) {
      NoAnchorBefore(data, 0, s, j);
    }
    LoadsExactly(data, 0, s);
    LoadedFrom(data, 0);
    SliceOfSlice(data, s.start, s.end + 1, 1, s.end - s.start);
  }

  // ----- The written file -----

  lemma {:induction false} EndsAlike(a: bytes, b: bytes, i: nat, upto: nat)
    requires |a| == |b| && i <= |a| && upto <= |a| && forall k :: 0 <= k < upto ==> a[k] == b[k]
    requires 0 <= Find(a, 0xF7, i) < upto
    ensures Find(b, 0xF7, i) == Find(a, 0xF7, i)
    decreases |a| - i
  {
    if i < |a| && a[i] != 0xF7 {
      EndsAlike(a, b, i + 1, upto);
    }
  }

  /** Two files that are equal up to a position are read alike up to a piece before it. */
  lemma {:induction false} LoadedAlike(a: bytes, b: bytes, i: nat, upto: nat)
    requires |a| == |b| && i <= |a| && upto <= |a| && forall k :: 0 <= k < upto ==> a[k] == b[k]
    requires var p := LoadedStart(a, i); p.Some? && Find(a, 0xF7, p.value) < upto
    ensures var p := LoadedStart(a, i).value;
            && LoadedStart(b, i) == Some(p) && Find(b, 0xF7, p) == Find(a, 0xF7, p)
            && PieceAt(b, p, Find(b, 0xF7, p)) == PieceAt(a, p, Find(a, 0xF7, p))
    decreases |a| - i
  {
    hide Classify, Find, Anchor, BareAnchor, PieceAt, LoadedStart;
    LoadedFrom(a, i);
    PieceIsLong(a, LoadedStart(a, i).value);
    SameAnchors(a, b, i, upto);
    LoadTurn(a, i);
    LoadTurn(b, i);
    if Anchor(a, i) || BareAnchor(a, i) {
      var end := Find(a, 0xF7, i);
      EndIsAhead(a, i);
      EndsAlike(a, b, i, upto);
      SamePiece(a, b, i, end, upto);
      if Classify(PieceAt(a, i, end).payload).None? {
        LoadedAlike(a, b, end + 1, upto);
      }
    } else {
      LoadedAlike(a, b, i + 1, upto);
    }
  }

  lemma {:induction false} LoadTurn(data: bytes, i: nat)
    requires i < |data|
    ensures var end := Find(data, 0xF7, i);
            if !Anchor(data, i) && !BareAnchor(data, i) then LoadedStart(data, i) == LoadedStart(data, i + 1)
            else if end < 0 then LoadedStart(data, i) == None
            else if Classify(PieceAt(data, i, end).payload).Some? then LoadedStart(data, i) == Some(i)
            else LoadedStart(data, i) == LoadedStart(data, end + 1)
  {
    hide Classify;
  }

  lemma {:induction false} PieceIsLong(data: bytes, p: nat)
    requires p < |data| && (Anchor(data, p) || BareAnchor(data, p)) && Find(data, 0xF7, p) >= 0
    requires Classify(PieceAt(data, p, Find(data, 0xF7, p)).payload).Some?
    ensures Find(data, 0xF7, p) >= p + 4
  {
  }

  lemma {:induction false} SameAnchors(a: bytes, b: bytes, i: nat, upto: nat)
    requires |a| == |b| && i + 4 <= upto <= |a| && forall k :: 0 <= k < upto ==> a[k] == b[k]
    ensures Anchor(a, i) == Anchor(b, i) && BareAnchor(a, i) == BareAnchor(b, i)
  {
  }

  lemma {:induction false} SamePiece(a: bytes, b: bytes, i: nat, end: nat, upto: nat)
    requires |a| == |b| && i <= end < upto <= |a| && forall k :: 0 <= k < upto ==> a[k] == b[k]
    requires Anchor(a, i) == Anchor(b, i) && BareAnchor(a, i) == BareAnchor(b, i) && (Anchor(a, i) || BareAnchor(a, i))
    requires a[end] == 0xF7
    ensures PieceAt(a, i, end) == PieceAt(b, i, end)
  {
  }

  lemma {:induction false} LoadIs(data: bytes)
    requires LoadedStart(data, 0).Some?
    ensures var p := LoadedStart(data, 0).value;
            && Classify(PieceAt(data, p, Find(data, 0xF7, p)).payload).Some?
            && LoadPatch(data) == Some(DecodeParams(PieceAt(data, p, Find(data, 0xF7, p)).payload))
  {
    LoadedFrom(data, 0);
  }

  /** What write_patch rewrites, if the reader loads a piece that ends before it, leaves
      what load_patch loads as it was, whatever the overrides. */
  lemma {:induction false} WriteIsLost(data: bytes, o: map<string, int>, vocab: Vocabulary)
    requires ValidVocabulary(vocab) && RawFile(data) && Patched(data, o, vocab).Ok?
    requires var p := LoadedStart(data, 0); p.Some? && Find(data, 0xF7, p.value) < Spans(data, 0)[0].start
    ensures LoadPatch(data).Some? && LoadPatch(Patched(data, o, vocab).value) == LoadPatch(data)
  {
    hide Patched, Spans, LoadedStart, LoadPatch, DecodeParams, Find, BreaksSpan, Rewritten;
    var out, s := Patched(data, o, vocab).value, Spans(data, 0)[0];
    SpansKept(data, o, vocab);
    LoadedAlike(data, out, 0, s.start);
    LoadIs(data);
    LoadIs(out);
  }

  /** A file that differs from another inside the first dump only, its spans kept, is
      read from the same dump. */
  lemma {:induction false} StillFirst(data: bytes, out: bytes)
    requires RawFile(data) && DifferInside(data, out, Spans(data, 0)[0]) && Spans(out, 0) == Spans(data, 0)
    ensures RawFile(out) && (LoadsFirst(out) <==> LoadsFirst(data))
  {
    hide Spans, PassesFrom, Find;
    var s := Spans(data, 0)[0];
    SpanFramed(data, 0);
    SameShape(data, out, s);
    StillPasses(data, out, s);
  }

  lemma {:induction false} SameShape(data: bytes, out: bytes, s: Span)
    requires DifferInside(data, out, s) && Classify(data[s.start + 1..s.end]).Some?
    ensures Classify(out[s.start + 1..s.end]).Some? && Slice(out, 0, 4) == Slice(data, 0, 4)
  {
    var a, b := data[s.start + 1..s.end], out[s.start + 1..s.end];
    assert a[0] == data[s.start + 1] && b[0] == out[s.start + 1];
    assert a[2] == data[s.start + 3] && b[2] == out[s.start + 3];
    assert data[..4] == out[..4];
  }

  lemma {:induction false} StillPasses(data: bytes, out: bytes, s: Span)
    requires DifferInside(data, out, s) && data[s.start] == 0xF0 && out[s.start] == 0xF0
    ensures PassesFrom(out, 0, s.start) <==> PassesFrom(data, 0, s.start)
  {
    hide Find, Classify;
    forall i | 0 <= i < s.start
      ensures Leads(data, i) <==> Leads(out, i)
      ensures Passed(data, i, s.start) <==> Passed(out, i, s.start)
    {
      LeadsAlike(data, out, i, s);
      PassedAlike(data, out, i, s);
    }
  }

  lemma {:induction false} FoundAlike(a: bytes, b: bytes, i: nat, upto: nat)
    requires |a| == |b| && i <= upto <= |a| && forall k :: 0 <= k < upto ==> a[k] == b[k]
    ensures 0 <= Find(a, 0xF7, i) < upto <==> 0 <= Find(b, 0xF7, i) < upto
    ensures 0 <= Find(a, 0xF7, i) < upto ==> Find(a, 0xF7, i) == Find(b, 0xF7, i)
  {
    if 0 <= Find(a, 0xF7, i) < upto {
      EndsAlike(a, b, i, upto);
    }
    if 0 <= Find(b, 0xF7, i) < upto {
      EndsAlike(b, a, i, upto);
    }
  }

  lemma {:induction false} LeadsAlike(a: bytes, b: bytes, i: nat, s: Span)
    requires DifferInside(a, b, s) && i < s.start
    ensures Leads(a, i) <==> Leads(b, i)
  {
    forall j | 0 <= j <= i
      ensures BareAnchor(a, j) == BareAnchor(b, j)
      ensures 0 <= Find(a, 0xF7, j) < i <==> 0 <= Find(b, 0xF7, j) < i
    {
      FoundAlike(a, b, j, i);
    }
  }

  lemma {:induction false} PassedAlike(a: bytes, b: bytes, i: nat, s: Span)
    requires DifferInside(a, b, s) && i < s.start
    ensures Passed(a, i, s.start) <==> Passed(b, i, s.start)
  {
    hide Classify;
    FoundAlike(a, b, i, s.start);
    var end := Find(a, 0xF7, i);
    if 0 <= end < s.start {
      EndIsAhead(a, i);
      assert a[i..end] == b[i..end];
    }
  }
}
