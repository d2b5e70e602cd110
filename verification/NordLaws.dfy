/** The Nord writer against the Nord decoder: parameters, files and morph steps. */
module NordLaws {
  import opened Bytes
  import opened NordSyx
  import opened NordDump
  import opened NordWriter

  // ----- One parameter -----

  /** The decoder shifts the whole second byte, the writer keeps its high nibble:
      what is read is what was set exactly when that nibble was zero. */
  lemma {:induction false} GetSet(d: bytes, i: nat, v: nat)
    requires i < PARAMS && |d| >= 138 && v <= 127
    ensures Param(SetNibbles(d, i, v), i) == v + 256 * (d[7 + 2 * i] as int / 16)
    ensures Param(SetNibbles(d, i, v), i) == v <==> d[7 + 2 * i] < 16
    ensures forall j :: 0 <= j < PARAMS && j != i ==> Param(SetNibbles(d, i, v), j) == Param(d, j)
    ensures forall k :: 0 <= k < |d| && k != 6 + 2 * i && k != 7 + 2 * i ==> SetNibbles(d, i, v)[k] == d[k]
  {
  }

  /** The value the plan leaves in a parameter. */
  ghost function PlannedValue(d: bytes, plan: map<nat, int>, i: nat): int
    requires i < PARAMS && |d| >= 138
  {
    if i in plan then plan[i] + 256 * (d[7 + 2 * i] / 16) else Param(d, i)
  }

  lemma {:induction false} PlantedAt(d: bytes, plan: map<nat, int>, i: nat)
    requires |d| >= 138 && WritablePlan(plan) && i < PARAMS
    ensures i !in plan ==> Planted(d, plan)[6 + 2 * i] == d[6 + 2 * i] && Planted(d, plan)[7 + 2 * i] == d[7 + 2 * i]
    ensures i in plan ==> Planted(d, plan)[6 + 2 * i] == Nibble(d[6 + 2 * i], plan[i] % 16)
    ensures i in plan ==> Planted(d, plan)[7 + 2 * i] == Nibble(d[7 + 2 * i], plan[i] / 16)
  {
    hide Nibble;
    assert (6 + 2 * i - 6) / 2 == i && (7 + 2 * i - 6) / 2 == i;
  }

  lemma {:induction false} PlantedParam(d: bytes, plan: map<nat, int>, i: nat)
    requires |d| >= 138 && WritablePlan(plan) && i < PARAMS
    ensures Param(Planted(d, plan), i) == PlannedValue(d, plan, i)
  {
    hide Planted, Nibble;
    PlantedAt(d, plan, i);
    if i in plan {
      NibblePair(d[6 + 2 * i], d[7 + 2 * i], plan[i]);
    }
  }

  lemma {:induction false} NibblePair(low: byte, high: byte, v: nat)
    requires v <= 127
    ensures Nibble(low, v % 16) % 16 + 16 * (Nibble(high, v / 16) as int) == v + 256 * (high / 16)
  {
  }

  /** What the decoder reads after the overrides: bits of byte 52 last. */
  ghost function Expected(d: bytes, o: map<string, int>, vocab: Vocabulary, i: nat): int
    requires i < PARAMS && |d| >= 138 && ValidVocabulary(vocab)
  {
    var x := PlannedValue(d, Planned(o, vocab), i);
    if i == SYNC && HasBits(o) && x >= 0 then WithBits(x, o) else x
  }

  ghost function ExpectedAll(d: bytes, o: map<string, int>, vocab: Vocabulary): (r: seq<int>)
    requires |d| >= 138 && ValidVocabulary(vocab)
    ensures |r| == PARAMS
  {
    seq(PARAMS, i requires 0 <= i < PARAMS => Expected(d, o, vocab, i))
  }

  lemma {:induction false} PlannedValueIsNat(d: bytes, plan: map<nat, int>, i: nat)
    requires i < PARAMS && |d| >= 138 && WritablePlan(plan)
    ensures PlannedValue(d, plan, i) >= 0
  {
  }

  lemma {:induction false} WithBitsRange(x: nat, o: map<string, int>)
    requires !HasBadBit(o)
    ensures WithBits(x, o) <= 127 <==> x <= 127
    ensures WithBits(x, o) >= 0
  {
    assert forall n :: n in o && IsBit(n) ==> 0 <= o[n] <= 1;
    assert IsBit("sync") && IsBit("ringmod") && IsBit("distortion");
    var s := if "sync" in o then o["sync"] else x % 2;
    var r := if "ringmod" in o then o["ringmod"] else x / 2 % 2;
    var d := if "distortion" in o then o["distortion"] else x / 16 % 2;
    assert 0 <= s <= 1 && 0 <= r <= 1 && 0 <= d <= 1;
    JoinRange(s, r, x / 4 % 4, d, x / 32);
    hide HasBadBit, IsBit, Join;
    assert x / 32 <= 3 <==> x <= 127;
  }

  lemma {:induction false} JoinRange(s: nat, r: nat, mid: nat, d: nat, high: nat)
    requires s < 2 && r < 2 && mid < 4 && d < 2
    ensures Join(s, r, mid, d, high) <= 127 <==> high <= 3
    ensures Join(s, r, mid, d, high) >= 0
  {
  }

  lemma {:induction false} RewrittenDecodes(d: bytes, o: map<string, int>, vocab: Vocabulary, i: nat)
    requires |d| >= 138 && ValidVocabulary(vocab) && Rewritten(d, o, vocab).Ok? && i < PARAMS
    ensures Param(Rewritten(d, o, vocab).value, i) == Expected(d, o, vocab, i)
  {
    hide Planted, HasUnknown, HasBadBit, WithBits, HasBits, Param, SetNibbles, PlannedOf;
    var plan := Planned(o, vocab);
    var p := Planted(d, plan);
    PlantedParam(d, plan, i);
    PlantedParam(d, plan, SYNC);
    PlannedValueIsNat(d, plan, SYNC);
    if HasBits(o) {
      var x := Param(p, SYNC);
      WithBitsRange(x, o);
      GetSet(p, SYNC, WithBits(x, o));
      SmallMeansBare(p, SYNC);
    }
  }

  lemma {:induction false} SmallMeansBare(d: bytes, i: nat)
    requires i < PARAMS && |d| >= 138
    ensures Param(d, i) <= 127 <==> d[7 + 2 * i] < 8
  {
  }

  /** Only overridden nibble pairs differ from the base. */
  lemma {:induction false} RewrittenFrame(d: bytes, o: map<string, int>, vocab: Vocabulary, k: nat)
    requires |d| >= 138 && ValidVocabulary(vocab) && Rewritten(d, o, vocab).Ok? && k < |d|
    ensures k < 6 || ((k - 6) / 2 !in Planned(o, vocab) && !((k - 6) / 2 == SYNC && HasBits(o))) ==>
              Rewritten(d, o, vocab).value[k] == d[k]
    ensures Rewritten(d, o, vocab).value[k] / 16 == d[k] / 16
  {
    hide HasUnknown, HasBadBit, WithBits, HasBits, Param, PlannedOf, Planted, SetNibbles;
    var plan := Planned(o, vocab);
    PlantedFrame(d, plan, k);
    if HasBits(o) {
      SetFrame(Planted(d, plan), SYNC, WithBits(Param(Planted(d, plan), SYNC), o), k);
    }
  }

  lemma {:induction false} PlantedFrame(d: bytes, plan: map<nat, int>, k: nat)
    requires |d| >= 138 && WritablePlan(plan) && k < |d|
    ensures k < 6 || (k - 6) / 2 !in plan ==> Planted(d, plan)[k] == d[k]
    ensures Planted(d, plan)[k] / 16 == d[k] / 16
  {
  }

  lemma {:induction false} SetFrame(d: bytes, i: nat, v: nat, k: nat)
    requires |d| >= 138 && i < PARAMS && v <= 127 && k < |d|
    ensures k < 6 || (k - 6) / 2 != i ==> SetNibbles(d, i, v)[k] == d[k]
    ensures SetNibbles(d, i, v)[k] / 16 == d[k] / 16
  {
  }

  /** The writer refuses a dump exactly on an unknown name, a bit that is not 0 or 1,
      a byte outside 0..127, or bits over a byte 52 whose container is too large. */
  lemma {:induction false} RewriteSucceeds(d: bytes, o: map<string, int>, vocab: Vocabulary)
    requires |d| >= 138 && ValidVocabulary(vocab)
    ensures Rewritten(d, o, vocab).Ok? <==>
            && (forall n :: n in o ==> IsBit(n) || n in vocab)
            && (forall n :: n in o ==> 0 <= o[n] <= if IsBit(n) then 1 else 127)
            && (HasBits(o) ==> d[7 + 2 * SYNC] < if SYNC in Planned(o, vocab) then 16 else 8)
  {
    hide Planted, PlannedOf, WithBits, WritablePlan, SetNibbles, Param;
    var plan := Planned(o, vocab);
    PlanIsWritable(o, vocab);
    if !HasUnknown(o, vocab) && !HasBadBit(o) && WritablePlan(plan) && HasBits(o) {
      PlantedParam(d, plan, SYNC);
      PlannedBare(d, plan, SYNC);
      PlannedValueIsNat(d, plan, SYNC);
      WithBitsRange(PlannedValue(d, plan, SYNC), o);
    }
  }

  lemma {:induction false} PlannedBare(d: bytes, plan: map<nat, int>, i: nat)
    requires i < PARAMS && |d| >= 138 && WritablePlan(plan)
    ensures PlannedValue(d, plan, i) <= 127 <==> d[7 + 2 * i] < if i in plan then 16 else 8
  {
    SmallMeansBare(d, i);
  }

  lemma {:induction false} PlanIsWritable(o: map<string, int>, vocab: Vocabulary)
    requires ValidVocabulary(vocab)
    ensures !HasUnknown(o, vocab) ==>
              (WritablePlan(Planned(o, vocab)) <==> forall n :: n in o && !IsBit(n) ==> 0 <= o[n] <= 127)
  {
    forall n | n in o && !IsBit(n) && n in vocab
      ensures vocab[n] in Planned(o, vocab) && Planned(o, vocab)[vocab[n]] == o[n]
    {
    }
  }

  // ----- Container bytes that turn into F7 -----

  /** The value the overrides put into a parameter: byte 52 with bits last, or the
      planned value; nothing on a parameter they do not address. */
  ghost function Setting(d: bytes, o: map<string, int>, vocab: Vocabulary, i: nat): Option<int>
    requires i < PARAMS && |d| >= 138 && ValidVocabulary(vocab)
  {
    var plan := Planned(o, vocab);
    var x := PlannedValue(d, plan, i);
    if i == SYNC && HasBits(o) && x >= 0 then Some(WithBits(x, o))
    else if i in plan then Some(plan[i])
    else None
  }

  /** The half of a value that goes into byte k of a dump. */
  function Half(v: int, k: nat): nat {
    if k % 2 == 0 then v % 16 else v / 16 % 16
  }

  /** A container byte of F0 or more whose new low nibble is 7. */
  ghost predicate BreaksAt(d: bytes, o: map<string, int>, vocab: Vocabulary, k: nat)
    requires |d| >= 138 && ValidVocabulary(vocab) && 6 <= k < 138
  {
    var v := Setting(d, o, vocab, (k - 6) / 2);
    d[k] >= 0xF0 && v.Some? && Half(v.value, k) == 7
  }

  ghost predicate BreaksSpan(d: bytes, o: map<string, int>, vocab: Vocabulary)
    requires |d| >= 138 && ValidVocabulary(vocab)
  {
    exists k :: 6 <= k < 138 && BreaksAt(d, o, vocab, k)
  }

  lemma {:induction false} SettingIsRead(d: bytes, o: map<string, int>, vocab: Vocabulary, i: nat, k: nat)
    requires i < PARAMS && |d| >= 138 && ValidVocabulary(vocab) && WritablePlan(Planned(o, vocab))
    ensures var v := Setting(d, o, vocab, i);
            && (v.Some? ==> Half(v.value, k) == Half(Expected(d, o, vocab, i), k))
            && (v.None? ==> i !in Planned(o, vocab) && !(i == SYNC && HasBits(o)))
  {
    hide WithBits, HasBits, Half, PlannedOf, ValidVocabulary, Param;
    var plan := Planned(o, vocab);
    PlannedValueIsNat(d, plan, i);
    if i in plan {
      HalfAbove(plan[i], d[7 + 2 * i] / 16, k);
    }
  }

  lemma {:induction false} HalfAbove(v: nat, high: nat, k: nat)
    ensures Half(v + 256 * high, k) == Half(v, k)
  {
    SixteenAbove(v, 16 * high);
    SixteenAbove(v / 16, high);
  }

  lemma {:induction false} SixteenAbove(v: nat, h: nat)
    ensures (v + 16 * h) % 16 == v % 16 && (v + 16 * h) / 16 == v / 16 + h
  {
  }

  lemma {:induction false} HalfRead(d: bytes, k: nat)
    requires |d| >= 138 && 6 <= k < 138
    ensures Half(Param(d, (k - 6) / 2), k) == d[k] % 16
  {
    var i := (k - 6) / 2;
    assert k == 6 + 2 * i || k == 7 + 2 * i;
  }

  lemma {:induction false} NibbleIs(b: byte, r: byte)
    requires r / 16 == b / 16
    ensures r == Nibble(b, r % 16)
  {
  }

  /** Each byte keeps its high nibble, and its low nibble is the setting's half. */
  lemma {:induction false} RewrittenByte(d: bytes, o: map<string, int>, vocab: Vocabulary, k: nat)
    requires |d| >= 138 && ValidVocabulary(vocab) && Rewritten(d, o, vocab).Ok? && 6 <= k < 138
    ensures var v := Setting(d, o, vocab, (k - 6) / 2);
            Rewritten(d, o, vocab).value[k] == if v.Some? then Nibble(d[k], Half(v.value, k)) else d[k]
  {
    var i := (k - 6) / 2;
    WritableOverrides(d, o, vocab);
    hide Rewritten, Setting, Expected, Param, HasBits, Half, Nibble, Planned, WritablePlan, ValidVocabulary;
    var r := Rewritten(d, o, vocab).value;
    RewrittenFrame(d, o, vocab, k);
    RewrittenDecodes(d, o, vocab, i);
    SettingIsRead(d, o, vocab, i, k);
    HalfRead(r, k);
    NibbleIs(d[k], r[k]);
  }

  lemma {:induction false} WritableOverrides(d: bytes, o: map<string, int>, vocab: Vocabulary)
    requires |d| >= 138 && ValidVocabulary(vocab) && Rewritten(d, o, vocab).Ok?
    ensures WritablePlan(Planned(o, vocab))
  {
  }

  /** A byte that was not F7 becomes F7 exactly where the overrides break the span. */
  lemma {:induction false} BecomesEnd(d: bytes, o: map<string, int>, vocab: Vocabulary, k: nat)
    requires |d| >= 138 && ValidVocabulary(vocab) && Rewritten(d, o, vocab).Ok? && 6 <= k < 138 && d[k] != 0xF7
    ensures Rewritten(d, o, vocab).value[k] == 0xF7 <==> BreaksAt(d, o, vocab, k)
  {
    hide Rewritten, Setting;
    RewrittenByte(d, o, vocab, k);
  }

  // ----- Files of concatenated dumps -----

  lemma {:induction false} RewrittenFramed(d: bytes, o: map<string, int>, vocab: Vocabulary)
    requires Framed(d) && Classify(d[1..|d| - 1]).Some? && ValidVocabulary(vocab)
    requires Rewritten(d, o, vocab).Ok? && !BreaksSpan(d, o, vocab)
    ensures Framed(Rewritten(d, o, vocab).value)
  {
    hide Rewritten, BreaksAt;
    var r := Rewritten(d, o, vocab).value;
    forall k | 0 <= k < |d|
      ensures r[k] == d[k] || (6 <= k < 138 && r[k] != 0xF7)
    {
      RewrittenFrame(d, o, vocab, k);
      PlannedBelow(o, vocab);
      if 6 <= k < 138 {
        BecomesEnd(d, o, vocab, k);
      }
    }
  }

  lemma {:induction false} PlannedBelow(o: map<string, int>, vocab: Vocabulary)
    requires ValidVocabulary(vocab)
    ensures forall i :: i in Planned(o, vocab) ==> i < PARAMS
  {
  }

  /** A file of concatenated dumps keeps every span and every other payload exactly
      when no container byte turns into F7, and in any case the first dump decodes to
      the old parameters updated by the overrides. */
  lemma {:induction false} WriteRefinesDecoder(dumps: seq<bytes>, o: map<string, int>, vocab: Vocabulary)
    requires dumps != [] && AllFramed(dumps) && Classify(dumps[0][1..|dumps[0]| - 1]).Some?
    requires ValidVocabulary(vocab)
    ensures |dumps[0]| >= 139
    ensures var r := Rewritten(dumps[0], o, vocab);
            match r
            case Err(e) => Patched(Concat(dumps), o, vocab) == Err(e)
            case Ok(d) =>
              var out := Concat([d] + dumps[1..]);
              && Patched(Concat(dumps), o, vocab) == Ok(out)
              && (UpdatesFirst(out, dumps, d) <==> !BreaksSpan(dumps[0], o, vocab))
              && DecodeParams(d[1..|d| - 1]) == ExpectedAll(dumps[0], o, vocab)
  {
    hide Rewritten, Spans, Pieces, Classify, Expected, Param, Framed, BreaksSpan;
    var d := dumps[0];
    PatchedFirst(dumps, o, vocab);
    if Rewritten(d, o, vocab).Ok? {
      var e := Rewritten(d, o, vocab).value;
      DecodedAll(d, o, vocab);
      FirstSpanOf(dumps);
      SpansKept(Concat(dumps), o, vocab);
      if !BreaksSpan(d, o, vocab) {
        RewrittenFramed(d, o, vocab);
        ScannersAgree(dumps);
        ReplacedFirst(e, dumps);
      }
    }
  }

  lemma {:induction false} FirstSpanOf(dumps: seq<bytes>)
    requires dumps != [] && AllFramed(dumps)
    ensures |dumps[0]| >= 5 && |Concat(dumps)| >= |dumps[0]| && Concat(dumps)[0..|dumps[0]|] == dumps[0]
    ensures Spans(Concat(dumps), 0) != [] && Spans(Concat(dumps), 0)[0] == Span(0, |dumps[0]| - 1)
  {
    hide Spans, Pieces;
    ScannersAgree(dumps);
    assert Concat(dumps) == dumps[0] + Concat(dumps[1..]);
  }

  /** out holds e instead of the first dump, and both scanners find it so. */
  ghost predicate UpdatesFirst(out: bytes, dumps: seq<bytes>, e: bytes)
    requires dumps != [] && |e| >= 2
  {
    && |out| == |Concat(dumps)|
    && Spans(out, 0) == Spans(Concat(dumps), 0) && Pieces(Concat(dumps), 0) != []
    && Pieces(out, 0) == [Piece(e[1..|e| - 1], true)] + Pieces(Concat(dumps), 0)[1..]
  }

  lemma {:induction false} DecodedParam(d: bytes, i: nat)
    requires |d| >= 139 && i < PARAMS
    ensures DecodeParams(d[1..|d| - 1])[i] == Param(d, i)
  {
  }

  lemma {:induction false} DecodedAll(d: bytes, o: map<string, int>, vocab: Vocabulary)
    requires |d| >= 139 && ValidVocabulary(vocab) && Rewritten(d, o, vocab).Ok?
    ensures var e := Rewritten(d, o, vocab).value; DecodeParams(e[1..|e| - 1]) == ExpectedAll(d, o, vocab)
  {
    hide Rewritten, DecodeParams, Expected, Param;
    var e := Rewritten(d, o, vocab).value;
    forall i | 0 <= i < PARAMS ensures DecodeParams(e[1..|e| - 1])[i] == Expected(d, o, vocab, i) {
      RewrittenDecodes(d, o, vocab, i);
      DecodedParam(e, i);
    }
  }

  lemma {:induction false} ReplacedFirst(e: bytes, dumps: seq<bytes>)
    requires dumps != [] && AllFramed(dumps) && Framed(e) && |e| == |dumps[0]|
    ensures var all := [e] + dumps[1..];
            && |Concat(all)| == |Concat(dumps)|
            && Spans(Concat(all), 0) == Places(dumps, 0)
            && Pieces(Concat(all), 0) == [Piece(e[1..|e| - 1], true)] + Payloads(dumps)[1..]
  {
    hide Spans, Pieces, Framed;
    var all := [e] + dumps[1..];
    assert all[1..] == dumps[1..];
    ScannersAgree(all);
    FramedLength(e);
  }

  lemma {:induction false} PatchedFirst(dumps: seq<bytes>, o: map<string, int>, vocab: Vocabulary)
    requires dumps != [] && AllFramed(dumps) && Classify(dumps[0][1..|dumps[0]| - 1]).Some?
    requires ValidVocabulary(vocab)
    ensures |dumps[0]| >= 139
    ensures Patched(Concat(dumps), o, vocab) ==
            match Rewritten(dumps[0], o, vocab)
            case Err(e) => Err(e)
            case Ok(d) => Ok(Concat([d] + dumps[1..]))
  {
    hide Rewritten, Spans, Pieces;
    var d, data := dumps[0], Concat(dumps);
    var rest := Concat(dumps[1..]);
    assert data == d + rest;
    ScannersAgree(dumps);
    assert Spans(data, 0)[0] == Span(0, |d| - 1);
    assert data[1..|d| - 1] == d[1..|d| - 1];
    assert data[0..|d|] == d && data[|d|..] == rest && data[..0] == [];
    assert Slice(data, 0, 4)[0] == 0xF0;
    if Rewritten(d, o, vocab).Ok? {
      var e := Rewritten(d, o, vocab).value;
      assert ([e] + dumps[1..])[1..] == dumps[1..];
      AppendNone(e);
    }
  }

  // ----- Any raw file -----

  lemma {:induction false} SpansLocal(a: bytes, b: bytes, i: nat)
    requires |a| == |b| && i <= |a| && forall k :: i <= k < |a| ==> a[k] == b[k]
    ensures Spans(a, i) == Spans(b, i)
    decreases |a| - i
  {
    if i < |a| {
      SameFind(a, b, i);
      if !Anchor(a, i) {
        SpansLocal(a, b, i + 1);
      } else if Find(a, 0xF7, i) >= 0 {
        SpansLocal(a, b, Find(a, 0xF7, i) + 1);
      }
    }
  }

  lemma {:induction false} SameFind(a: bytes, b: bytes, i: nat)
    requires |a| == |b| && i <= |a| && forall k :: i <= k < |a| ==> a[k] == b[k]
    ensures Find(a, 0xF7, i) == Find(b, 0xF7, i)
    decreases |a| - i
  {
    if i < |a| && a[i] != 0xF7 {
      SameFind(a, b, i + 1);
    }
  }

  /** Two files that differ only inside the first span, after its header. */
  ghost predicate DifferInside(a: bytes, b: bytes, s: Span) {
    && |a| == |b| && s.start + 6 <= s.end < |a|
    && forall k :: 0 <= k < |a| && (k < s.start + 6 || s.end <= k) ==> a[k] == b[k]
  }

  lemma {:induction false} FirstSpanKept(a: bytes, b: bytes, i: nat, s: Span)
    requires i <= s.start && DifferInside(a, b, s) && Spans(a, i) != [] && Spans(a, i)[0] == s
    ensures (Spans(a, i) == Spans(b, i)) <==> forall k :: s.start <= k < s.end ==> b[k] != 0xF7
    decreases s.start - i
  {
    SpanFramed(a, i);
    if i < s.start {
      assert !Anchor(a, i);
      SpanFramed(a, i + 1);
      FirstSpanKept(a, b, i + 1, s);
    } else {
      assert Anchor(b, i);
      SpansLocal(a, b, s.end + 1);
    }
  }

  /** On any raw file the write changes bytes of the first dump only, and keeps every
      span exactly when no container byte of that dump turns into F7. */
  lemma {:induction false} SpansKept(data: bytes, o: map<string, int>, vocab: Vocabulary)
    requires ValidVocabulary(vocab) && Patched(data, o, vocab).Ok?
    ensures Spans(data, 0) != []
    ensures var out, s := Patched(data, o, vocab).value, Spans(data, 0)[0];
            && |out| == |data| && DifferInside(data, out, s)
            && var d := data[s.start..s.end + 1];
               && |d| >= 139 && Rewritten(d, o, vocab) == Ok(out[s.start..s.end + 1])
               && (Spans(out, 0) == Spans(data, 0) <==> !BreaksSpan(d, o, vocab))
  {
    hide Rewritten, Spans, BreaksSpan;
    PatchedParts(data, o, vocab);
    var out, s := Patched(data, o, vocab).value, Spans(data, 0)[0];
    InsideFirst(data, o, vocab, s, out);
    FirstSpanKept(data, out, 0, s);
    NoEndInside(data, o, vocab, s, out);
  }

  lemma {:induction false} PatchedParts(data: bytes, o: map<string, int>, vocab: Vocabulary)
    requires ValidVocabulary(vocab) && Patched(data, o, vocab).Ok?
    ensures Spans(data, 0) != []
    ensures var s := Spans(data, 0)[0];
            && s.start + 138 <= s.end < |data| && Anchor(data, s.start) && s.end == Find(data, 0xF7, s.start)
            && IsPatch(data, o, vocab, s, Patched(data, o, vocab).value)
  {
    hide Rewritten, Spans, Find;
    SpanFramed(data, 0);
    var s := Spans(data, 0)[0];
    var e := Rewritten(data[s.start..s.end + 1], o, vocab).value;
    Spliced(data, s, e);
  }

  /** out is data with the rewritten span s in its place. */
  ghost predicate IsPatch(data: bytes, o: map<string, int>, vocab: Vocabulary, s: Span, out: bytes)
    requires ValidVocabulary(vocab) && s.start + 138 <= s.end < |data|
  {
    && |out| == |data| && Rewritten(data[s.start..s.end + 1], o, vocab) == Ok(out[s.start..s.end + 1])
    && forall k :: 0 <= k < |data| && (k < s.start || s.end < k) ==> out[k] == data[k]
  }

  lemma {:induction false} Spliced(data: bytes, s: Span, e: bytes)
    requires s.start <= s.end < |data| && |e| == s.end + 1 - s.start
    ensures var out := data[..s.start] + e + data[s.end + 1..];
            && |out| == |data| && out[s.start..s.end + 1] == e
            && forall k :: 0 <= k < |data| && (k < s.start || s.end < k) ==> out[k] == data[k]
  {
  }

  lemma {:induction false} InsideFirst(data: bytes, o: map<string, int>, vocab: Vocabulary, s: Span, out: bytes)
    requires ValidVocabulary(vocab) && s.start + 138 <= s.end < |data| && IsPatch(data, o, vocab, s, out)
    ensures DifferInside(data, out, s)
  {
    hide Rewritten;
    var d := data[s.start..s.end + 1];
    forall k | 0 <= k < |data| && (k < s.start + 6 || s.end <= k) ensures data[k] == out[k] {
      if s.start <= k <= s.end {
        LastKept(d, o, vocab, k - s.start);
        assert out[s.start..s.end + 1][k - s.start] == out[k];
      }
    }
  }

  lemma {:induction false} NoEndInside(data: bytes, o: map<string, int>, vocab: Vocabulary, s: Span, out: bytes)
    requires ValidVocabulary(vocab) && s.start + 138 <= s.end < |data| && IsPatch(data, o, vocab, s, out)
    requires forall k :: s.start <= k < s.end ==> data[k] != 0xF7
    ensures (forall k :: s.start <= k < s.end ==> out[k] != 0xF7) <==> !BreaksSpan(data[s.start..s.end + 1], o, vocab)
  {
    hide Rewritten, BreaksAt;
    var d, e := data[s.start..s.end + 1], out[s.start..s.end + 1];
    forall k | 0 <= k < |d| - 1
      ensures e[k] == out[s.start + k]
      ensures e[k] == 0xF7 <==> 6 <= k < 138 && BreaksAt(d, o, vocab, k)
    {
      EndAt(d, o, vocab, k);
    }
    forall k | s.start <= k < s.end ensures out[k] == e[k - s.start] {
    }
  }

  lemma {:induction false} EndAt(d: bytes, o: map<string, int>, vocab: Vocabulary, k: nat)
    requires |d| >= 139 && ValidVocabulary(vocab) && Rewritten(d, o, vocab).Ok? && k < |d| - 1 && d[k] != 0xF7
    ensures Rewritten(d, o, vocab).value[k] == 0xF7 <==> 6 <= k < 138 && BreaksAt(d, o, vocab, k)
  {
    hide Rewritten, BreaksAt;
    if 6 <= k < 138 {
      BecomesEnd(d, o, vocab, k);
    } else {
      RewrittenFrame(d, o, vocab, k);
      PlannedBelow(o, vocab);
    }
  }

  /** A single dump of zeros, but for container byte 6. */
  function DumpWith(x: byte): (d: bytes)
    ensures |d| == 139
  {
    [0xF0, 0x33, 0x00, 0x04, 0x00, 0x00, x] + seq(131, i => 0) + [0xF7]
  }

  const ONE_OVERRIDE: map<string, int> := map["o2_pitch" := 7]
  const ONE_NAME: Vocabulary := map["o2_pitch" := 0]

  lemma {:induction false} DumpBytes(x: byte)
    ensures var d := DumpWith(x);
            && d[0] == 0xF0 && d[1] == 0x33 && d[2] == 0 && d[3] == 0x04 && d[4] == 0 && d[5] == 0
            && d[6] == x && d[138] == 0xF7 && forall k :: 7 <= k < 138 ==> d[k] == 0
  {
  }

  /** A container byte F0 under an override 7: the written file has one dump of seven
      bytes, which no decoder accepts. */
  lemma {:induction false} OverrideBreaksSpan()
    ensures ValidVocabulary(ONE_NAME) && BreaksSpan(DumpWith(0xF0), ONE_OVERRIDE, ONE_NAME)
    ensures Spans(DumpWith(0xF0), 0) == [Span(0, 138)]
    ensures Patched(DumpWith(0xF0), ONE_OVERRIDE, ONE_NAME) == Ok(DumpWith(0xF7))
    ensures Spans(DumpWith(0xF7), 0) == [Span(0, 6)] && Classify(DumpWith(0xF7)[1..6]).None?
  {
    var d := DumpWith(0xF0);
    ExampleSpans(0xF0);
    ExampleSpans(0xF7);
    ExampleRewritten();
    DumpBytes(0xF0);
    DumpBytes(0xF7);
    hide Spans, Rewritten, BreaksSpan, DumpWith;
    PatchedWhole(d, DumpWith(0xF7), ONE_OVERRIDE, ONE_NAME);
  }

  lemma {:induction false} PatchedWhole(d: bytes, e: bytes, o: map<string, int>, vocab: Vocabulary)
    requires |d| == 139 && d[0] == 0xF0 && d[1] == CLAVIA && d[3] == N2X && Spans(d, 0) == [Span(0, 138)]
    requires ValidVocabulary(vocab) && Rewritten(d, o, vocab) == Ok(e)
    ensures Patched(d, o, vocab) == Ok(e)
  {
    hide Spans, Rewritten;
    assert d[0..139] == d && d[..0] == [] && d[139..] == [];
    assert Slice(d, 0, 4)[0] == 0xF0;
    AppendNone(e);
  }

  lemma {:induction false} ExampleSpans(x: byte)
    requires x == 0xF0 || x == 0xF7
    ensures Spans(DumpWith(x), 0) == [Span(0, if x == 0xF7 then 6 else 138)]
  {
    hide DumpWith;
    var d := DumpWith(x);
    DumpBytes(x);
    var end := Find(d, 0xF7, 0);
    assert end == if x == 0xF7 then 6 else 138;
    hide Find;
    NoAnchor(d, end + 1);
  }

  lemma {:induction false} NoAnchor(data: bytes, i: nat)
    requires i <= |data| && forall k :: i <= k < |data| ==> data[k] != 0xF0
    ensures Spans(data, i) == []
    decreases |data| - i
  {
    if i < |data| {
      NoAnchor(data, i + 1);
    }
  }

  lemma {:induction false} ExampleRewritten()
    ensures ValidVocabulary(ONE_NAME) && BreaksSpan(DumpWith(0xF0), ONE_OVERRIDE, ONE_NAME)
    ensures Rewritten(DumpWith(0xF0), ONE_OVERRIDE, ONE_NAME) == Ok(DumpWith(0xF7))
  {
    hide DumpWith, PlannedOf, Planted, HasBits, HasUnknown, HasBadBit;
    ExamplePlan();
    DumpBytes(0xF0);
    ExamplePlanted();
    assert BreaksAt(DumpWith(0xF0), ONE_OVERRIDE, ONE_NAME, 6);
  }

  lemma {:induction false} ExamplePlanted()
    ensures Planted(DumpWith(0xF0), map[0 := 7]) == DumpWith(0xF7)
  {
    hide DumpWith;
    DumpBytes(0xF0);
    DumpBytes(0xF7);
    var d, e := DumpWith(0xF0), DumpWith(0xF7);
    forall k | 0 <= k < 139 ensures PlantedByte(d, map[0 := 7], k) == e[k] {
    }
  }

  lemma {:induction false} ExamplePlan()
    ensures ValidVocabulary(ONE_NAME) && Planned(ONE_OVERRIDE, ONE_NAME) == map[0 := 7]
    ensures !HasBits(ONE_OVERRIDE) && !HasUnknown(ONE_OVERRIDE, ONE_NAME) && !HasBadBit(ONE_OVERRIDE)
  {
    var o, vocab := ONE_OVERRIDE, ONE_NAME;
    assert ByteNames(o, vocab, o.Keys) == {"o2_pitch"};
    assert IndicesOf({"o2_pitch"}, vocab) == {0};
    assert NameAt({"o2_pitch"}, vocab, 0) == "o2_pitch";
  }

  lemma {:induction false} LastKept(d: bytes, o: map<string, int>, vocab: Vocabulary, k: nat)
    requires |d| >= 139 && ValidVocabulary(vocab) && Rewritten(d, o, vocab).Ok? && k < |d|
    requires k < 6 || k == |d| - 1
    ensures Rewritten(d, o, vocab).value[k] == d[k]
  {
    hide Rewritten;
    RewrittenFrame(d, o, vocab, k);
    PlannedBelow(o, vocab);
  }
}
