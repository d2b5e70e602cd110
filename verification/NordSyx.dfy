/** Raw Nord Lead 2x files: the writer's strict span scan, the decoder's dump
    splitter, and their agreement on concatenated dumps. */
module NordSyx {
  import opened Bytes

  const CLAVIA := 0x33
  const N2X := 0x04

  /** F0 33 dev 04: both scanners accept this anchor. */
  predicate Anchor(data: bytes, i: nat) {
    i + 4 <= |data| && data[i] == 0xF0 && data[i + 1] == CLAVIA && data[i + 3] == N2X
  }

  /** 33 dev 04 without the F0: only the decoder accepts it. */
  predicate BareAnchor(data: bytes, i: nat) {
    i + 3 <= |data| && data[i] == CLAVIA && data[i + 2] == N2X
  }

  // ----- scan_syx_spans -----

  datatype Span = Span(start: nat, end: nat)

  function Spans(data: bytes, i: nat): seq<Span>
    requires i <= |data|
    decreases |data| - i
  {
    if i == |data| then []
    else if Anchor(data, i) then
      var end := Find(data, 0xF7, i);
      if end < 0 then [] else [Span(i, end)] + Spans(data, end + 1)
    else Spans(data, i + 1)
  }

  method ScanSyxSpans(data: bytes) returns (spans: seq<Span>)
    ensures spans == Spans(data, 0)
  {
    spans := [];
    var i: nat := 0;
    while i < |data|
      invariant i <= |data| && spans + Spans(data, i) == Spans(data, 0)
      decreases |data| - i
    {
      if Anchor(data, i) {
        var end := Find(data, 0xF7, i);
        if end < 0 {
          AppendNone(spans);
          return;
        }
        AppendAssoc(spans, [Span(i, end)], Spans(data, end + 1));
        spans := spans + [Span(i, end)];
        i := end + 1;
      } else {
        i := i + 1;
      }
    }
    AppendNone(spans);
  }

  // ----- split_dumps -----

  /** Clavia ID up to F7, both excluded the F7; and whether an F0 stood before it. */
  datatype Piece = Piece(payload: bytes, hasF0: bool)

  function Pieces(data: bytes, i: nat): seq<Piece>
    requires i <= |data|
    decreases |data| - i
  {
    if i == |data| then []
    else if Anchor(data, i) || BareAnchor(data, i) then
      var end := Find(data, 0xF7, i);
      if end < 0 then [] else [PieceAt(data, i, end)] + Pieces(data, end + 1)
    else Pieces(data, i + 1)
  }

  function PieceAt(data: bytes, i: nat, end: nat): Piece
    requires (Anchor(data, i) || BareAnchor(data, i)) && i <= end < |data| && data[end] == 0xF7
  {
    if Anchor(data, i) then Piece(data[i + 1..end], true) else Piece(data[i..end], false)
  }

  method SplitDumps(data: bytes) returns (out: seq<Piece>)
    ensures out == Pieces(data, 0)
  {
    out := [];
    var i: nat := 0;
    while i < |data|
      invariant i <= |data| && out + Pieces(data, i) == Pieces(data, 0)
      decreases |data| - i
    {
      if data[i] == 0xF0 && Anchor(data, i) {
        var end := Find(data, 0xF7, i);
        if end < 0 {
          AppendNone(out);
          return;
        }
        AppendAssoc(out, [Piece(data[i + 1..end], true)], Pieces(data, end + 1));
        out := out + [Piece(data[i + 1..end], true)];
        i := end + 1;
      } else if data[i] == CLAVIA && BareAnchor(data, i) {
        var end := Find(data, 0xF7, i);
        if end < 0 {
          AppendNone(out);
          return;
        }
        AppendAssoc(out, [Piece(data[i..end], false)], Pieces(data, end + 1));
        out := out + [Piece(data[i..end], false)];
        i := end + 1;
      } else {
        i := i + 1;
      }
    }
    AppendNone(out);
  }

  // ----- Concatenated dumps -----

  /** A Clavia dump: its header, then no F7 before the closing one. */
  predicate Framed(d: bytes) {
    && |d| >= 5 && Anchor(d, 0) && d[|d| - 1] == 0xF7
    && forall i :: 0 <= i < |d| - 1 ==> d[i] != 0xF7
  }

  predicate AllFramed(dumps: seq<bytes>) {
    dumps == [] || (Framed(dumps[0]) && AllFramed(dumps[1..]))
  }

  function Concat(dumps: seq<bytes>): bytes {
    if dumps == [] then [] else dumps[0] + Concat(dumps[1..])
  }

  /** Where the dumps of a concatenation lie, from position p on. */
  function Places(dumps: seq<bytes>, p: nat): seq<Span>
    requires AllFramed(dumps)
  {
    if dumps == [] then [] else [Span(p, p + |dumps[0]| - 1)] + Places(dumps[1..], p + |dumps[0]|)
  }

  function Payloads(dumps: seq<bytes>): seq<Piece>
    requires AllFramed(dumps)
  {
    if dumps == [] then [] else [Piece(dumps[0][1..|dumps[0]| - 1], true)] + Payloads(dumps[1..])
  }

  lemma {:induction false} DumpAt(data: bytes, p: nat, d: bytes)
    requires Framed(d) && At(data, p, d)
    ensures Anchor(data, p) && Find(data, 0xF7, p) == p + |d| - 1
    ensures p + |d| <= |data| && PieceAt(data, p, p + |d| - 1) == Piece(d[1..|d| - 1], true)
  {
    AtSlice(data, p, d);
    var cut := data[p..p + |d|];
    assert cut[0] == data[p] && cut[1] == data[p + 1] && cut[3] == data[p + 3];
    assert cut[|d| - 1] == data[p + |d| - 1];
    forall j | p <= j < p + |d| - 1 ensures data[j] != 0xF7 {
      assert cut[j - p] == data[j];
    }
    SliceOfSlice(data, p, p + |d|, 1, |d| - 1);
  }

  lemma {:induction false} SpansOfConcat(data: bytes, p: nat, dumps: seq<bytes>)
    requires At(data, p, Concat(dumps)) && p + |Concat(dumps)| == |data| && AllFramed(dumps)
    ensures Spans(data, p) == Places(dumps, p)
    decreases |dumps|
  {
    hide Framed, Anchor, At, Find;
    if dumps != [] {
      var d := dumps[0];
      AtSplit(data, p, d, Concat(dumps[1..]));
      DumpAt(data, p, d);
      SpansOfConcat(data, p + |d|, dumps[1..]);
      FramedLength(d);
      TakeSpan(data, p, p + |d| - 1);
    }
  }

  lemma {:induction false} PiecesOfConcat(data: bytes, p: nat, dumps: seq<bytes>)
    requires At(data, p, Concat(dumps)) && p + |Concat(dumps)| == |data| && AllFramed(dumps)
    ensures Pieces(data, p) == Payloads(dumps)
    decreases |dumps|
  {
    hide Framed, PieceAt, Anchor, BareAnchor, At, Find;
    if dumps != [] {
      var d := dumps[0];
      AtSplit(data, p, d, Concat(dumps[1..]));
      DumpAt(data, p, d);
      PiecesOfConcat(data, p + |d|, dumps[1..]);
      FramedLength(d);
      TakePiece(data, p, p + |d| - 1);
    }
  }

  /** Both scanners find exactly the dumps of a gap-free file, in order. */
  lemma {:induction false} ScannersAgree(dumps: seq<bytes>)
    requires AllFramed(dumps)
    ensures Spans(Concat(dumps), 0) == Places(dumps, 0) && Pieces(Concat(dumps), 0) == Payloads(dumps)
  {
    hide Spans, Pieces, Places, Payloads, AllFramed, At, Concat;
    var data := Concat(dumps);
    SliceAt(data, 0, data);
    SpansOfConcat(data, 0, dumps);
    PiecesOfConcat(data, 0, dumps);
  }

  lemma {:induction false} TakeSpan(data: bytes, p: nat, end: nat)
    requires p <= end < |data| && Anchor(data, p) && Find(data, 0xF7, p) == end
    ensures Spans(data, p) == [Span(p, end)] + Spans(data, end + 1)
  {
  }

  lemma {:induction false} TakePiece(data: bytes, p: nat, end: nat)
    requires p <= end < |data| && Anchor(data, p) && Find(data, 0xF7, p) == end
    ensures Pieces(data, p) == [PieceAt(data, p, end)] + Pieces(data, end + 1)
  {
  }

  lemma {:induction false} FramedLength(d: bytes)
    requires Framed(d)
    ensures |d| >= 5
  {
  }
}
