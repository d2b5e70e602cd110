/** nord_dump.emit_morphs: a morph step written over its byte-verified base file. */
module NordMorphs {
  import opened Bytes
  import opened NordSyx
  import opened NordDump
  import opened NordWriter
  import opened NordLaws
  import opened NordReader
  import Smf
  import M = Morph

  datatype StepError = TypeError | KeyError | NoBase | Writer(error: Error)

  // ----- resolve_base -----

  /** Every preset value is the decoded value of the parameter of that name. */
  predicate ByteVerified(preset: M.Params, params: seq<int>, names: map<string, nat>)
    requires forall n :: n in names ==> names[n] < |params|
  {
    forall k :: k in preset ==> preset[k] == if k in names then Some(params[names[k]]) else None
  }

  /** load_patch on any file; smf stands for the scan of MIDI and RIFF files. */
  function LoadFile(data: bytes, smf: bytes -> Option<seq<int>>): Option<seq<int>> {
    if Slice(data, 0, 4) == Smf.MTHD || Slice(data, 0, 4) == RIFF then smf(data) else LoadPatch(data)
  }

  /** The file opens, loads, and its parameters are the preset's. */
  predicate Matches(preset: M.Params, file: Option<bytes>, names: map<string, nat>, smf: bytes -> Option<seq<int>>)
    requires forall n :: n in names ==> names[n] < PARAMS
  {
    && file.Some? && LoadFile(file.value, smf).Some? && |LoadFile(file.value, smf).value| == PARAMS
    && ByteVerified(preset, LoadFile(file.value, smf).value, names)
  }

  /** The first candidate file, in example order, that loads and byte-verifies, with its
      parameters. */
  method ResolveBase(preset: M.Params, files: seq<Option<bytes>>, names: map<string, nat>,
      smf: bytes -> Option<seq<int>>) returns (r: Result<(nat, seq<int>), StepError>)
    requires forall n :: n in names ==> names[n] < PARAMS
    requires forall d :: smf(d).Some? ==> |smf(d).value| == PARAMS
    ensures r.Ok? ==> && r.value.0 < |files| && Matches(preset, files[r.value.0], names, smf)
                      && LoadFile(files[r.value.0].value, smf) == Some(r.value.1)
                      && forall j :: 0 <= j < r.value.0 ==> !Matches(preset, files[j], names, smf)
    ensures r.Err? ==> r.error == NoBase && forall f :: f in files ==> !Matches(preset, f, names, smf)
  {
    hide LoadPatch, ByteVerified;
    for i := 0 to |files|
      invariant forall j :: 0 <= j < i ==> !Matches(preset, files[j], names, smf)
    {
      if files[i].None? {
        continue;
      }
      var data := files[i].value;
      var params := LoadFile(data, smf);
      if params.None? {
        continue;
      }
      if ByteVerified(preset, params.value, names) {
        return Ok((i, params.value));
      }
    }
    return Err(NoBase);
  }

  // ----- One step -----

  function Ints(params: map<string, M.Value>): Result<map<string, int>, StepError> {
    if exists k :: k in params && params[k].Null? then Err(TypeError)
    else Ok(map k | k in params :: params[k].Rounded())
  }

  function Changes(ints: map<string, int>, base: seq<int>, vocab: Vocabulary): (r: Result<map<string, int>, StepError>)
    requires |base| == PARAMS && forall n :: n in vocab ==> vocab[n] < PARAMS
  {
    if exists k :: k in ints && k !in vocab then Err(KeyError)
    else Ok(map k | k in ints && base[vocab[k]] != ints[k] :: ints[k])
  }

  ghost function StepFile(data: bytes, base: seq<int>, vocab: Vocabulary, params: map<string, M.Value>): Result<bytes,
      StepError>
    requires |base| == PARAMS && ValidVocabulary(vocab)
  {
    match Ints(params)
    case Err(e) => Err(e)
    case Ok(ints) =>
      match Changes(ints, base, vocab)
      case Err(e) => Err(e)
      case Ok(o) =>
        match Patched(data, o, vocab)
        case Err(e) => Err(Writer(e))
        case Ok(out) => Ok(out)
  }

  method EmitStep(data: bytes, base: seq<int>, vocab: Vocabulary,
      params: map<string, M.Value>) returns (r: Result<bytes, StepError>)
    requires |base| == PARAMS && ValidVocabulary(vocab)
    ensures r == StepFile(data, base, vocab, params)
  {
    var ints := Ints(params);
    if ints.Err? {
      return Err(ints.error);
    }
    var o := Changes(ints.value, base, vocab);
    if o.Err? {
      return Err(o.error);
    }
    var out := WritePatch(data, o.value, vocab);
    return if out.Err? then Err(Writer(out.error)) else Ok(out.value);
  }

  // ----- Total and faithful -----

  /** A null anywhere in the step stops the emission: it is a key A lacks or holds as null. */
  lemma {:induction false} NullStopsStep(data: bytes, base: seq<int>, vocab: Vocabulary, c: M.Chain, at: M.Position)
    requires |base| == PARAMS && ValidVocabulary(vocab) && c.indexMap.None?
    ensures StepFile(data, base, vocab, c.Intermediate(at).params) == Err(TypeError) <==>
            exists k :: k in c.Keys() && M.Get(c.a, k).None?
  {
    var params := c.Intermediate(at).params;
    assert params.Keys == c.Keys();
    hide M.Chain.Intermediate, Patched;
    forall k | k in params ensures params[k].Null? <==> M.Get(c.a, k).None? {
      M.NullsAreParentNulls(c, at, k);
    }
  }

  /** A chain whose parent A is byte-verified against loaded parameters. */
  ghost predicate VerifiedChain(c: M.Chain, base: seq<int>, names: map<string, nat>, vocab: Vocabulary)
    requires |base| == PARAMS
  {
    && ValidVocabulary(vocab) && (forall n :: n in vocab ==> !IsBit(n))
    && (forall n :: n in names ==> names[n] < PARAMS)
    && (forall n :: n in names && n in vocab ==> names[n] == vocab[n])
    && ByteVerified(c.a, base, names)
    && c.indexMap.None? && c.Keys() <= vocab.Keys
    && (forall k :: k in c.Keys() ==> M.Get(c.a, k).Some?)
    && (forall k :: k in c.Keys() && c.Moves(k) ==>
          0 <= M.Get(c.a, k).value <= 127 && 0 <= M.Get(c.b, k).value <= 127)
  }

  lemma {:induction false} StepInts(c: M.Chain, at: M.Position)
    requires at.Valid() && c.indexMap.None? && forall k :: k in c.Keys() ==> M.Get(c.a, k).Some?
    requires forall k :: k in c.Keys() && c.Moves(k) ==>
               0 <= M.Get(c.a, k).value <= 127 && 0 <= M.Get(c.b, k).value <= 127
    ensures var ints := Ints(c.Intermediate(at).params);
            && ints.Ok? && ints.value.Keys == c.Keys()
            && forall k :: k in c.Keys() ==> ints.value[k] == M.Get(c.a, k).value || 0 <= ints.value[k] <= 127
  {
    var params := c.Intermediate(at).params;
    assert params.Keys == c.Keys();
    forall k | k in c.Keys()
      ensures params[k] == c.ValueAt(k, at) && !params[k].Null?
      ensures params[k].Rounded() == M.Get(c.a, k).value || 0 <= params[k].Rounded() <= 127
    {
      if c.Moves(k) {
        var va, vb := M.Get(c.a, k).value, M.Get(c.b, k).value;
        hide M.Tenth, M.ToInt;
        M.Between(Min(va, vb), if va <= vb then vb else va, at);
      }
    }
  }

  predicate SafeChanges(o: map<string, int>, base: seq<int>, vocab: Vocabulary)
    requires |base| == PARAMS && forall n :: n in vocab ==> vocab[n] < PARAMS
  {
    forall k :: k in o ==> k in vocab && !IsBit(k) && 0 <= o[k] <= 127 && base[vocab[k]] <= 127
  }

  /** The overrides of a verified step are byte parameters with 7-bit values, on
      containers whose high nibble is clear. */
  lemma {:induction false} StepChanges(c: M.Chain, base: seq<int>, names: map<string, nat>, vocab: Vocabulary,
      at: M.Position)
    requires |base| == PARAMS && VerifiedChain(c, base, names, vocab) && at.Valid()
    ensures var ints := Ints(c.Intermediate(at).params);
            && ints.Ok? && ints.value.Keys == c.Keys()
            && var o := Changes(ints.value, base, vocab);
               o.Ok? && SafeChanges(o.value, base, vocab)
  {
    StepInts(c, at);
    hide M.Chain.Intermediate, M.Chain.Moves, M.Get, Ints, ByteVerified;
    var ints := Ints(c.Intermediate(at).params).value;
    forall k | k in ints
      ensures k in vocab && (base[vocab[k]] != ints[k] ==> 0 <= ints[k] <= 127 && base[vocab[k]] <= 127)
    {
      StepChange(c, base, names, vocab, at, k);
    }
  }

  lemma {:induction false} StepChange(c: M.Chain, base: seq<int>, names: map<string, nat>, vocab: Vocabulary,
      at: M.Position, k: string)
    requires |base| == PARAMS && VerifiedChain(c, base, names, vocab) && at.Valid() && k in c.Keys()
    requires Ints(c.Intermediate(at).params).Ok? && k in Ints(c.Intermediate(at).params).value
    requires var v := Ints(c.Intermediate(at).params).value[k]; v == M.Get(c.a, k).value || 0 <= v <= 127
    ensures var v, x := Ints(c.Intermediate(at).params).value[k], base[vocab[k]];
            x != v ==> 0 <= v <= 127 && x <= 127
  {
    hide M.Chain.Intermediate, Ints;
    StepMoves(c, at, k);
    assert M.Get(c.a, k) == Some(base[vocab[k]]);
  }

  lemma {:induction false} StepMoves(c: M.Chain, at: M.Position, k: string)
    requires c.indexMap.None? && k in c.Keys() && M.Get(c.a, k).Some? && Ints(c.Intermediate(at).params).Ok?
    ensures k in Ints(c.Intermediate(at).params).value
    ensures !c.Moves(k) ==> Ints(c.Intermediate(at).params).value[k] == M.Get(c.a, k).value
  {
  }

  lemma {:induction false} ChangesPlanned(ints: map<string, int>, base: seq<int>, vocab: Vocabulary, k: string)
    requires |base| == PARAMS && ValidVocabulary(vocab) && k in ints && k in vocab
    requires Changes(ints, base, vocab).Ok? && SafeChanges(Changes(ints, base, vocab).value, base, vocab)
    ensures var plan := Planned(Changes(ints, base, vocab).value, vocab);
            if base[vocab[k]] == ints[k] then vocab[k] !in plan
            else vocab[k] in plan && plan[vocab[k]] == ints[k] && base[vocab[k]] <= 127
  {
    var o := Changes(ints, base, vocab).value;
    if k in o {
      assert vocab[k] in Planned(o, vocab) && Planned(o, vocab)[vocab[k]] == o[k];
    }
  }

  lemma {:induction false} ChangesUnplanned(ints: map<string, int>, base: seq<int>, vocab: Vocabulary, i: nat)
    requires |base| == PARAMS && ValidVocabulary(vocab)
    requires Changes(ints, base, vocab).Ok? && forall k :: k in ints && k in vocab ==> vocab[k] != i
    ensures i !in Planned(Changes(ints, base, vocab).value, vocab)
  {
  }

  lemma {:induction false} ExpectedAtKey(d: bytes, ints: map<string, int>, vocab: Vocabulary, k: string)
    requires |d| >= 139 && ValidVocabulary(vocab) && k in ints && k in vocab
    requires Changes(ints, Decoded(d), vocab).Ok?
    requires SafeChanges(Changes(ints, Decoded(d), vocab).value, Decoded(d), vocab)
    ensures Expected(d, Changes(ints, Decoded(d), vocab).value, vocab, vocab[k]) == ints[k]
  {
    hide DecodeParams, Param, WithBits, Changes, PlannedOf;
    ChangesPlanned(ints, Decoded(d), vocab, k);
    DecodedParam(d, vocab[k]);
    SmallMeansBare(d, vocab[k]);
  }

  lemma {:induction false} ExpectedElsewhere(d: bytes, ints: map<string, int>, vocab: Vocabulary, i: nat)
    requires |d| >= 139 && ValidVocabulary(vocab) && i < PARAMS
    requires Changes(ints, Decoded(d), vocab).Ok?
    requires SafeChanges(Changes(ints, Decoded(d), vocab).value, Decoded(d), vocab)
    requires forall k :: k in ints && k in vocab ==> vocab[k] != i
    ensures Expected(d, Changes(ints, Decoded(d), vocab).value, vocab, i) == Decoded(d)[i]
  {
    hide DecodeParams, Param, WithBits, Changes, PlannedOf;
    ChangesUnplanned(ints, Decoded(d), vocab, i);
    DecodedParam(d, i);
  }

  /** The decoder reads the step's value on every key, the base's elsewhere. */
  ghost predicate Reads(read: seq<int>, base: seq<int>, ints: map<string, int>, vocab: Vocabulary)
    requires |read| == |base| == PARAMS && ValidVocabulary(vocab)
  {
    && (forall k :: k in ints && k in vocab ==> read[vocab[k]] == ints[k])
    && (forall i :: 0 <= i < PARAMS && (forall k :: k in ints && k in vocab ==> vocab[k] != i) ==> read[i] == base[i])
  }

  lemma {:induction false} ChangesExpected(d: bytes, ints: map<string, int>, vocab: Vocabulary)
    requires |d| >= 139 && ValidVocabulary(vocab)
    requires Changes(ints, Decoded(d), vocab).Ok?
    requires SafeChanges(Changes(ints, Decoded(d), vocab).value, Decoded(d), vocab)
    ensures var base := Decoded(d);
            Reads(ExpectedAll(d, Changes(ints, base, vocab).value, vocab), base, ints, vocab)
  {
    hide DecodeParams, Changes, Expected, SafeChanges;
    var base := Decoded(d);
    var read := ExpectedAll(d, Changes(ints, base, vocab).value, vocab);
    forall k | k in ints && k in vocab ensures read[vocab[k]] == ints[k] {
      ExpectedAtKey(d, ints, vocab, k);
    }
    forall i | 0 <= i < PARAMS && (forall k :: k in ints && k in vocab ==> vocab[k] != i)
      ensures read[i] == base[i]
    {
      ExpectedElsewhere(d, ints, vocab, i);
    }
  }

  /** out is data but for its first dump, which the decoder reads as the step. */
  ghost predicate Carries(out: bytes, data: bytes, ints: map<string, int>, vocab: Vocabulary)
    requires ValidVocabulary(vocab) && RawFile(data)
  {
    var s := Spans(data, 0)[0];
    && DifferInside(data, out, s)
    && Reads(Decoded(out[s.start..s.end + 1]), Decoded(FirstDump(data)), ints, vocab)
  }

  /** Once parent A byte-verifies against the first dump, no error branch of a step can be
      reached: on any raw file the decoder then reads, in the place of the first dump, the
      step's rounded value on every key and the base's value on every other parameter, and
      every span is kept exactly when no container byte turns into F7. */
  lemma {:induction false} StepIsFaithful(c: M.Chain, data: bytes, names: map<string, nat>, vocab: Vocabulary,
      at: M.Position)
    requires RawFile(data) && VerifiedChain(c, Decoded(FirstDump(data)), names, vocab) && at.Valid()
    ensures var ints := Ints(c.Intermediate(at).params);
            ints.Ok? && ints.value.Keys == c.Keys() && c.Keys() <= vocab.Keys
    ensures var d, ints := FirstDump(data), Ints(c.Intermediate(at).params).value;
            var r, o := StepFile(data, Decoded(d), vocab, c.Intermediate(at).params), Changes(ints, Decoded(d), vocab);
            && r.Ok? && o.Ok? && Carries(r.value, data, ints, vocab)
            && (Spans(r.value, 0) == Spans(data, 0) <==> !BreaksSpan(d, o.value, vocab))
  {
    hide M.Chain.Intermediate, Ints, Carries, RawFile, Spans, BreaksSpan, Decoded, FirstDump;
    StepChanges(c, Decoded(FirstDump(data)), names, vocab, at);
    WriteChanges(data, Ints(c.Intermediate(at).params).value, vocab);
  }

  // ----- From the loaded file to the written one -----

  /** A chain whose A the search byte-verified against a file: a step is written exactly
      when the file is raw and its first strict dump has a known shape. */
  lemma {:induction false} StepIsWritten(c: M.Chain, data: bytes, base: seq<int>, names: map<string, nat>,
      vocab: Vocabulary, at: M.Position)
    requires |base| == PARAMS && VerifiedChain(c, base, names, vocab) && at.Valid()
    ensures StepFile(data, base, vocab, c.Intermediate(at).params).Ok? <==> RawFile(data)
  {
    hide M.Chain.Intermediate, Ints, Spans, Rewritten, Changes, Classify;
    StepChanges(c, base, names, vocab, at);
    var o := Changes(Ints(c.Intermediate(at).params).value, base, vocab).value;
    if Spans(data, 0) != [] {
      SpanFramed(data, 0);
    }
    if RawFile(data) {
      SafeChangesSucceed(FirstDump(data), o, base, vocab);
    }
  }

  /** When the reader loads the dump that is rewritten, a step over the file it loaded
      carries the step, and loads back as the step unless a container byte turns into F7. */
  lemma {:induction false} LoadedStepIsFaithful(c: M.Chain, data: bytes, names: map<string, nat>, vocab: Vocabulary,
      at: M.Position)
    requires RawFile(data) && LoadsFirst(data) && LoadPatch(data).Some?
    requires VerifiedChain(c, LoadPatch(data).value, names, vocab) && at.Valid()
    ensures Ints(c.Intermediate(at).params).Ok?
    ensures var base, ints := LoadPatch(data).value, Ints(c.Intermediate(at).params).value;
            var r, o := StepFile(data, base, vocab, c.Intermediate(at).params), Changes(ints, base, vocab);
            && base == Decoded(FirstDump(data)) && r.Ok? && o.Ok? && Carries(r.value, data, ints, vocab)
            && (Spans(r.value, 0) == Spans(data, 0) <==> !BreaksSpan(FirstDump(data), o.value, vocab))
            && (!BreaksSpan(FirstDump(data), o.value, vocab) ==>
                  LoadPatch(r.value).Some? && Reads(LoadPatch(r.value).value, base, ints, vocab))
  {
    hide M.Chain.Intermediate, Ints, RawFile, Spans, BreaksSpan, Decoded, FirstDump, LoadPatch, LoadsFirst, Changes,
      LoadedStart, StepFile, Reads;
    ReaderSeesFirstDump(data);
    StepIsFaithful(c, data, names, vocab, at);
    var out := StepFile(data, LoadPatch(data).value, vocab, c.Intermediate(at).params).value;
    if Spans(out, 0) == Spans(data, 0) {
      StillFirst(data, out);
      ReaderSeesFirstDump(out);
      FirstDumpOf(data, out);
    }
  }

  lemma {:induction false} FirstDumpOf(data: bytes, out: bytes)
    requires RawFile(data) && RawFile(out) && Spans(out, 0) == Spans(data, 0)
    ensures var s := Spans(data, 0)[0]; s.end < |out| && FirstDump(out) == out[s.start..s.end + 1]
  {
  }

  /** When the reader loads a piece that ends before the first strict dump, every step
      is still written, over that dump, and the file loads back as A, not as the step. */
  lemma {:induction false} LoadedStepIsLost(c: M.Chain, data: bytes, names: map<string, nat>, vocab: Vocabulary,
      at: M.Position)
    requires RawFile(data) && LoadPatch(data).Some? && at.Valid()
    requires var p := LoadedStart(data, 0); p.Some? && Find(data, 0xF7, p.value) < Spans(data, 0)[0].start
    requires VerifiedChain(c, LoadPatch(data).value, names, vocab)
    ensures var r := StepFile(data, LoadPatch(data).value, vocab, c.Intermediate(at).params);
            r.Ok? && LoadPatch(r.value) == LoadPatch(data)
  {
    hide M.Chain.Intermediate, Ints, RawFile, Spans, LoadPatch, Changes, LoadedStart, Patched, Find;
    var base := LoadPatch(data).value;
    StepIsWritten(c, data, base, names, vocab, at);
    StepChanges(c, base, names, vocab, at);
    WriteIsLost(data, Changes(Ints(c.Intermediate(at).params).value, base, vocab).value, vocab);
  }

  lemma {:induction false} WriteChanges(data: bytes, ints: map<string, int>, vocab: Vocabulary)
    requires RawFile(data) && ValidVocabulary(vocab)
    requires var base := Decoded(FirstDump(data));
             Changes(ints, base, vocab).Ok? && SafeChanges(Changes(ints, base, vocab).value, base, vocab)
    ensures var o := Changes(ints, Decoded(FirstDump(data)), vocab).value;
            var r := Patched(data, o, vocab);
            && r.Ok? && Carries(r.value, data, ints, vocab)
            && (Spans(r.value, 0) == Spans(data, 0) <==> !BreaksSpan(FirstDump(data), o, vocab))
  {
    hide Changes, DecodeParams, ExpectedAll, Rewritten, Spans, BreaksSpan, Classify, Reads, SafeChanges;
    var d := FirstDump(data);
    var o := Changes(ints, Decoded(d), vocab).value;
    ChangesExpected(d, ints, vocab);
    SafeChangesSucceed(d, o, Decoded(d), vocab);
    DecodedAll(d, o, vocab);
    SpansKept(data, o, vocab);
  }

  /** On a file of concatenated dumps both scanners still find every dump, and every
      other payload unchanged, exactly when no container byte turns into F7. */
  lemma {:induction false} ConcatStepIsFaithful(c: M.Chain, dumps: seq<bytes>, names: map<string, nat>,
      vocab: Vocabulary, at: M.Position)
    requires dumps != [] && AllFramed(dumps) && Classify(dumps[0][1..|dumps[0]| - 1]).Some? && |dumps[0]| >= 139
    requires VerifiedChain(c, Decoded(dumps[0]), names, vocab) && at.Valid()
    ensures RawFile(Concat(dumps)) && FirstDump(Concat(dumps)) == dumps[0]
    ensures Ints(c.Intermediate(at).params).Ok? && c.Keys() <= vocab.Keys
    ensures var r := StepFile(Concat(dumps), Decoded(dumps[0]), vocab, c.Intermediate(at).params);
            var o := Changes(Ints(c.Intermediate(at).params).value, Decoded(dumps[0]), vocab);
            && r.Ok? && o.Ok?
            && var e := Rewritten(dumps[0], o.value, vocab);
               e.Ok? && (UpdatesFirst(r.value, dumps, e.value) <==> !BreaksSpan(dumps[0], o.value, vocab))
  {
    hide M.Chain.Intermediate, Ints, RawFile, Spans, Pieces, BreaksSpan, Decoded, Rewritten, Changes, Patched,
      FirstDump;
    ConcatIsRaw(dumps);
    StepChanges(c, Decoded(dumps[0]), names, vocab, at);
    var o := Changes(Ints(c.Intermediate(at).params).value, Decoded(dumps[0]), vocab).value;
    SafeChangesSucceed(dumps[0], o, Decoded(dumps[0]), vocab);
    WriteRefinesDecoder(dumps, o, vocab);
  }

  lemma {:induction false} ConcatIsRaw(dumps: seq<bytes>)
    requires dumps != [] && AllFramed(dumps) && Classify(dumps[0][1..|dumps[0]| - 1]).Some?
    ensures RawFile(Concat(dumps)) && FirstDump(Concat(dumps)) == dumps[0]
  {
    hide Spans, Classify;
    var d, data := dumps[0], Concat(dumps);
    FirstSpanOf(dumps);
    assert data[1..|d| - 1] == data[0..|d|][1..|d| - 1];
    assert data[0] == data[0..|d|][0] == 0xF0;
    assert Slice(data, 0, 4)[0] == 0xF0;
  }

  lemma {:induction false} SafeChangesSucceed(d: bytes, o: map<string, int>, base: seq<int>, vocab: Vocabulary)
    requires |d| >= 138 && |base| == PARAMS && ValidVocabulary(vocab) && SafeChanges(o, base, vocab)
    ensures Rewritten(d, o, vocab).Ok?
  {
    hide Rewritten;
    RewriteSucceeds(d, o, vocab);
  }

  // ----- A file that loads back as A -----

  /** A headless piece of a known shape in front of anything is what load_patch loads. */
  lemma {:induction false} HeadlessFirst(b: bytes, rest: bytes)
    requires Classify(b).Some? && 0xF7 !in b
    ensures var data := b + [0xF7] + rest;
            && Find(data, 0xF7, 0) == |b| && LoadedStart(data, 0) == Some(0)
            && LoadPatch(data) == Some(DecodeParams(b))
  {
    var data := b + [0xF7] + rest;
    assert data[0] == b[0] && data[2] == b[2] && data[|b|] == 0xF7;
    forall i | 0 <= i < |b| ensures data[i] != 0xF7 {
      assert data[i] == b[i] && b[i] in b;
    }
    assert data[..|b|] == b;
    assert Find(data, 0xF7, 0) == |b|;
    hide Find, Classify, DecodeParams;
    LoadIs(data);
  }

  /** The zero dump without its F0, then whole: loaded from the first, written to the second. */
  const HEADLESS: bytes := DumpWith(0)[1..138] + [0xF7] + DumpWith(0)

  const SUSTAIN: map<string, nat> := map["filter_env_sustain" := 10]

  const RISING: M.Chain :=
    M.Chain(map["filter_env_sustain" := Some(0)], map["filter_env_sustain" := Some(100)], M.Every, None)

  lemma {:induction false} HeadlessLoads()
    ensures LoadedStart(HEADLESS, 0) == Some(0) && Find(HEADLESS, 0xF7, 0) == 137
    ensures LoadPatch(HEADLESS).Some? && LoadPatch(HEADLESS).value[10] == 0
  {
    hide DumpWith;
    DumpBytes(0);
    var d := DumpWith(0);
    var b := d[1..138];
    forall i | 0 <= i < 137 ensures b[i] == d[i + 1] {
    }
    assert 0xF7 !in b;
    ZeroAt(b, 10);
    hide LoadPatch, DecodeParams;
    HeadlessFirst(b, d);
    assert LoadPatch(HEADLESS) == Some(DecodeParams(b));
  }

  lemma {:induction false} ZeroAt(payload: bytes, i: nat)
    requires |payload| >= 137 && i < PARAMS && payload[5 + 2 * i] == 0 && payload[6 + 2 * i] == 0
    ensures DecodeParams(payload)[i] == 0
  {
  }

  lemma {:induction false} HeadlessSpans()
    ensures RawFile(HEADLESS) && Spans(HEADLESS, 0)[0] == Span(138, 276)
  {
    hide DumpWith;
    DumpBytes(0);
    var d := DumpWith(0);
    var data := d[1..138] + [0xF7] + d;
    assert data == HEADLESS && data[138..] == d;
    forall i | 0 <= i < 138 ensures data[i] != 0xF0 {
      assert i < 137 ==> data[i] == d[i + 1];
    }
    SpansSkip(data, 0, 138);
    assert data[138] == d[0] && data[139] == d[1] && data[141] == d[3] && data[276] == d[138];
    forall i | 138 <= i < 276 ensures data[i] != 0xF7 {
      assert data[i] == d[i - 138];
    }
    assert Find(data, 0xF7, 138) == 276;
    assert data[0] == d[1] && Slice(data, 0, 4)[0] == data[0];
    assert data[139..276] == d[1..138];
    hide Find;
    TakeSpan(data, 138, 276);
  }

  lemma {:induction false} SpansSkip(data: bytes, i: nat, n: nat)
    requires i <= n <= |data| && forall k :: i <= k < n ==> data[k] != 0xF0
    ensures Spans(data, i) == Spans(data, n)
    decreases n - i
  {
    if i < n {
      SpansSkip(data, i + 1, n);
    }
  }

  lemma {:induction false} RisingStep()
    ensures Ints(RISING.Intermediate(M.Position(1, 1)).params) == Ok(map["filter_env_sustain" := 50])
  {
    assert M.Tenth(0, 100, M.Position(1, 1)) == 500 && M.ToInt(500) == 50;
    hide M.Tenth, M.ToInt;
    var params := RISING.Intermediate(M.Position(1, 1)).params;
    assert RISING.Moves("filter_env_sustain") && RISING.Keys() == {"filter_env_sustain"};
    assert params == map["filter_env_sustain" := M.Tenths(500)];
    hide M.Chain.Intermediate;
    assert !exists k :: k in params && params[k].Null?;
    assert (map k | k in params :: params[k].Rounded()) == map["filter_env_sustain" := 50];
  }

  /** A verified chain on that file: its step wants 50, is written without an error, and
      the written file loads back as A's 0. */
  lemma {:induction false} HeadlessStepIsLost()
    ensures RawFile(HEADLESS) && LoadPatch(HEADLESS).Some?
    ensures VerifiedChain(RISING, LoadPatch(HEADLESS).value, SUSTAIN, SUSTAIN)
    ensures Ints(RISING.Intermediate(M.Position(1, 1)).params) == Ok(map["filter_env_sustain" := 50])
    ensures var params := RISING.Intermediate(M.Position(1, 1)).params;
            var r := StepFile(HEADLESS, LoadPatch(HEADLESS).value, SUSTAIN, params);
            r.Ok? && LoadPatch(r.value).Some? && LoadPatch(r.value).value[10] == 0
  {
    hide RawFile, Spans, LoadPatch, LoadedStart, M.Chain.Intermediate, Ints, Find;
    HeadlessLoads();
    HeadlessSpans();
    RisingStep();
    hide HEADLESS;
    assert VerifiedChain(RISING, LoadPatch(HEADLESS).value, SUSTAIN, SUSTAIN) by {
      RisingVerified(LoadPatch(HEADLESS).value);
    }
    hide VerifiedChain;
    LoadedStepIsLost(RISING, HEADLESS, SUSTAIN, SUSTAIN, M.Position(1, 1));
  }

  lemma {:induction false} RisingVerified(base: seq<int>)
    requires |base| == PARAMS && base[10] == 0
    ensures VerifiedChain(RISING, base, SUSTAIN, SUSTAIN)
  {
    assert !IsBit("filter_env_sustain");
  }
}
