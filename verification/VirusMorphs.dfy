/** virus_dump.emit_morphs: from a byte-verified base to a full dump per morph step. */
module VirusMorphs {
  import opened Bytes
  import opened VirusDump
  import opened VirusLaws
  import opened VirusCorpus
  import VirusSmf
  import M = Morph

  // ----- One step -----

  /** syx_ints: the rounded values of the step's non-null keys. */
  function Ints(params: map<string, M.Value>): map<string, int> {
    map k | k in params && !params[k].Null? :: params[k].Rounded()
  }

  ghost function StepDump(base: bytes, table: Table, params: map<string, M.Value>): Result<bytes, Error> {
    match DumpModel(base)
    case Err(e) => Err(e)
    case Ok(m) =>
      var ints, values := Ints(params), Decode(Payload(base, m), m, table);
      if !(ints.Keys <= Inverse(table).Keys) then Err(NotInVocabulary)
      else if !(ints.Keys <= values.Keys) then Err(KeyError)
      else Built(base, Changes(values, ints), table)
  }

  /** The overrides of a step: the integers that differ from the base's values. */
  function Changes(values: map<string, int>, ints: map<string, int>): map<string, int> {
    map k | k in ints && k in values && values[k] != ints[k] :: ints[k]
  }

  method EmitStep(base: bytes, table: Table, params: map<string, M.Value>) returns (r: Result<bytes, Error>)
    ensures r == StepDump(base, table, params)
  {
    var model := DumpModel(base);
    if model.Err? {
      return Err(model.error);
    }
    var inverse := NameSlots(table);
    var decoded := DecodeDump(base, table);
    var values := decoded.value;
    var ints := Ints(params);
    if !(ints.Keys <= inverse.Keys) {
      return Err(NotInVocabulary);
    }
    if !(ints.Keys <= values.Keys) {
      return Err(KeyError);
    }
    r := BuildDump(base, Changes(values, ints), table);
  }

  ghost predicate PairSucceeds(base: bytes, table: Table, c: M.Chain, steps: nat) {
    forall k :: 1 <= k <= steps ==> StepDump(base, table, c.Intermediate(M.Position(k, steps)).params).Ok?
  }

  /** The steps of one pair, or the error of the first step that fails. */
  method EmitPair(base: bytes, table: Table, c: M.Chain, steps: nat) returns (r: Result<seq<bytes>, Error>)
    ensures r.Ok? <==> PairSucceeds(base, table, c, steps)
    ensures r.Ok? ==> |r.value| == steps
    ensures r.Ok? ==> forall k :: 1 <= k <= steps ==>
              StepDump(base, table, c.Intermediate(M.Position(k, steps)).params) == Ok(r.value[k - 1])
    ensures r.Err? ==> (exists k :: 1 <= k <= steps &&
                                    StepDump(base, table, c.Intermediate(M.Position(k, steps)).params) == Err(r.error))
  {
    var out: seq<bytes> := [];
    hide StepDump, M.Chain.Intermediate;
    for k := 1 to steps + 1
      invariant |out| == k - 1
      invariant forall j :: 1 <= j < k ==>
        StepDump(base, table, c.Intermediate(M.Position(j, steps)).params) == Ok(out[j - 1])
    {
      var preset := M.BuildIntermediate(c, M.Position(k, steps));
      var dump := EmitStep(base, table, preset.params);
      if dump.Err? {
        return Err(dump.error);
      }
      out := out + [dump.value];
    }
    return Ok(out);
  }

  // ----- Exactly when a step is written -----

  /** No two slots of the vocabulary carry one name. */
  predicate NoDuplicateNames(table: Table) {
    forall s, t :: s in table && t in table && table[s] == table[t] ==> s == t
  }

  /** Slots are indexed within their page, as Virus parameters are. */
  predicate PlainIndexes(table: Table) {
    forall s :: s in table ==> s.index < 128
  }

  /** The chain of a verified parent A, live without an index map. */
  ghost predicate VerifiedChain(c: M.Chain, hit: Hit, table: Table, isFx: string -> bool) {
    && ByteVerified(hit, table, isFx, c.a)
    && M.SevenBit(c.a) && M.SevenBit(c.b)
    && c.indexMap.None?
  }

  /** Every key whose written value is not A's own has its last slot on a model page. */
  ghost predicate ChangedOnPages(c: M.Chain, at: M.Position, table: Table, m: Model) {
    var ints := Ints(c.Intermediate(at).params);
    forall k :: k in ints && Some(ints[k]) != M.Get(c.a, k) ==> k in Inverse(table) && OnPages(Inverse(table)[k], m)
  }

  /** Only keys that move can change. */
  lemma {:induction false} MovingKeysChange(c: M.Chain, at: M.Position, table: Table, m: Model)
    requires c.indexMap.None?
    requires forall k :: k in c.a && k in Inverse(table) && c.Moves(k) ==> OnPages(Inverse(table)[k], m)
    requires c.a.Keys <= Inverse(table).Keys
    ensures ChangedOnPages(c, at, table, m)
  {
    hide Inverse, OnPages, M.Tenth;
  }

  lemma {:induction false} UniqueNamesAreOnPages(hit: Hit, table: Table, isFx: string -> bool, preset: M.Params)
    requires ByteVerified(hit, table, isFx, preset) && NoDuplicateNames(table)
    ensures forall k :: k in preset ==> k in Inverse(table) && OnPages(Inverse(table)[k], hit.model)
  {
    InverseIsLast(table);
    InverseIsLast(PageTable(table, hit.model));
  }

  /** The written integers of a step: one 7-bit value for every key of A, and no other. */
  lemma {:induction false} StepInts(c: M.Chain, at: M.Position)
    requires at.Valid() && M.SevenBit(c.a) && M.SevenBit(c.b) && c.indexMap.None?
    requires forall k :: k in c.a ==> c.a[k].Some?
    ensures var ints := Ints(c.Intermediate(at).params);
            ints.Keys == c.a.Keys && forall k :: k in ints ==> 0 <= ints[k] <= 127
  {
    var params := c.Intermediate(at).params;
    assert params.Keys == c.Keys();
    hide M.Chain.Intermediate, M.SevenBit, M.Value.Rounded;
    forall k | k in params
      ensures params[k].Null? <==> k !in c.a
      ensures !params[k].Null? ==> 0 <= params[k].Rounded() <= 127
    {
      M.NullsAreParentNulls(c, at, k);
      if k in c.a {
        M.StepsAreSevenBit(c, at, k);
      }
    }
  }

  lemma {:induction false} VerifiedKeys(hit: Hit, table: Table, isFx: string -> bool, preset: M.Params)
    requires ByteVerified(hit, table, isFx, preset)
    ensures preset.Keys <= Inverse(table).Keys
    ensures var values := Decode(Payload(hit.dump, hit.model), hit.model, table);
            forall k :: k in preset ==> k in values && preset[k] == Some(values[k])
  {
    InverseIsLast(table);
  }

  /** What a verified chain gives the writer at one step. */
  lemma {:induction false} VerifiedInts(c: M.Chain, hit: Hit, table: Table, isFx: string -> bool, at: M.Position)
    requires VerifiedChain(c, hit, table, isFx) && at.Valid()
    ensures Framed(hit.dump, hit.model)
    ensures var ints, values := Ints(c.Intermediate(at).params), Decode(Payload(hit.dump, hit.model), hit.model, table);
            && ints.Keys == c.a.Keys && ints.Keys <= Inverse(table).Keys && ints.Keys <= values.Keys
            && (forall k :: k in ints ==> 0 <= ints[k] <= 127)
            && (forall k :: k in ints ==> M.Get(c.a, k) == Some(values[k]))
  {
    hide Ints, Inverse, Decode, M.SevenBit, M.Chain.Intermediate;
    VerifiedKeys(hit, table, isFx, c.a);
    StepInts(c, at);
  }

  /** A step of a byte-verified chain with 7-bit values whose changed keys have their last
      slots on the model's pages meets no error branch: its dump is framed and
      checksum-valid, and decodes to the rounded step value on every key of A and to the
      base on every other name. */
  lemma {:induction false} EmissionIsFaithful(c: M.Chain, hit: Hit, table: Table, isFx: string -> bool, at: M.Position)
    requires VerifiedChain(c, hit, table, isFx) && at.Valid() && ChangedOnPages(c, at, table, hit.model)
    ensures var params, m := c.Intermediate(at).params, hit.model;
            var r := StepDump(hit.dump, table, params);
            && r.Ok? && DumpModel(r.value) == Ok(m) && VerifyChecksum(r.value, m)
            && Ints(params).Keys == c.a.Keys
            && Decode(Payload(r.value, m), m, table) == Decode(Payload(hit.dump, m), m, table) + Ints(params)
  {
    hide Ints, Inverse, Decode, M.Chain.Intermediate, StepDump, OnPages;
    VerifiedInts(c, hit, table, isFx, at);
    WriteInts(hit.dump, table, c.Intermediate(at).params, hit.model);
  }

  /** A step is written exactly when every changed key has its last slot on a model
      page; otherwise the writer runs off the payload. */
  lemma {:induction false} EmissionExactly(c: M.Chain, hit: Hit, table: Table, isFx: string -> bool, at: M.Position)
    requires VerifiedChain(c, hit, table, isFx) && at.Valid() && PlainIndexes(table)
    ensures StepDump(hit.dump, table, c.Intermediate(at).params).Ok? <==> ChangedOnPages(c, at, table, hit.model)
  {
    hide Ints, Inverse, Decode, M.Chain.Intermediate, StepDump, OnPages, PlainIndexes;
    VerifiedInts(c, hit, table, isFx, at);
    StepSucceeds(hit.dump, table, c.Intermediate(at).params, hit.model);
  }

  /** For any dump, vocabulary and decodable 7-bit step values: written exactly when the
      changed names' last slots lie inside the payload, negative offsets counted from
      its end as Python does. */
  lemma {:induction false} StepWrites(base: bytes, table: Table, params: map<string, M.Value>, m: Model)
    requires Framed(base, m)
    requires Ints(params).Keys <= Inverse(table).Keys && Ints(params).Keys <= Decode(Payload(base, m), m, table).Keys
    requires forall k :: k in Ints(params) ==> 0 <= Ints(params)[k] <= 127
    ensures StepDump(base, table, params).Ok? <==>
            forall k :: k in Ints(params) && Ints(params)[k] != Decode(Payload(base, m), m, table)[k] ==>
                          WriteIndex(Offset(Inverse(table)[k]), m.PayloadLen()).Some?
  {
    hide Decode, Built, Ints, Inverse, Payload, Offset, WriteIndex;
    var values, ints := Decode(Payload(base, m), m, table), Ints(params);
    var o := Changes(values, ints);
    BuildFails(base, o, table);
    forall k | k in ints
      ensures k in o <==> ints[k] != values[k]
      ensures k in o ==> (Offends(k, o[k], Inverse(table), m.PayloadLen()) <==>
                          WriteIndex(Offset(Inverse(table)[k]), m.PayloadLen()).None?)
    {
    }
  }

  lemma {:induction false} StepSucceeds(base: bytes, table: Table, params: map<string, M.Value>, m: Model)
    requires Framed(base, m) && PlainIndexes(table)
    requires Ints(params).Keys <= Inverse(table).Keys && Ints(params).Keys <= Decode(Payload(base, m), m, table).Keys
    requires forall k :: k in Ints(params) ==> 0 <= Ints(params)[k] <= 127
    ensures StepDump(base, table, params).Ok? <==>
            forall k :: k in Ints(params) && Ints(params)[k] != Decode(Payload(base, m), m, table)[k] ==>
                          OnPages(Inverse(table)[k], m)
  {
    StepWrites(base, table, params, m);
    hide Decode, StepDump, Ints, Inverse, Payload, OnPages, Offset, WriteIndex;
    forall k | k in Ints(params)
      ensures WriteIndex(Offset(Inverse(table)[k]), m.PayloadLen()).Some? <==> OnPages(Inverse(table)[k], m)
    {
      InsideIsOnPages(Payload(base, m), table, m, k);
    }
  }

  /** A decodable name's last slot is not below the first page. */
  lemma {:induction false} InsideIsOnPages(p: bytes, table: Table, m: Model, n: string)
    requires |p| == m.PayloadLen() && PlainIndexes(table) && n in Inverse(table) && n in Decode(p, m, table)
    ensures WriteIndex(Offset(Inverse(table)[n]), m.PayloadLen()).Some? <==> OnPages(Inverse(table)[n], m)
  {
    DecodeReads(p, m, table);
    LastOnPagesIsEarlier(table, m, n);
    InverseIsLast(table);
    hide Decode, Inverse, PageTable;
    assert Inverse(table)[n] in table;
  }

  /** On a byte-verified chain emit_morphs raises nothing exactly when no step of it
      changes a key whose last slot is off the model's pages. */
  lemma {:induction false} PairExactly(c: M.Chain, hit: Hit, table: Table, isFx: string -> bool, steps: nat)
    requires VerifiedChain(c, hit, table, isFx) && PlainIndexes(table)
    ensures PairSucceeds(hit.dump, table, c, steps) <==>
            forall k :: 1 <= k <= steps ==> ChangedOnPages(c, M.Position(k, steps), table, hit.model)
  {
    hide VerifiedChain, StepDump, ChangedOnPages, M.Chain.Intermediate;
    forall k: nat | 1 <= k <= steps
      ensures StepDump(hit.dump, table, c.Intermediate(M.Position(k, steps)).params).Ok? <==>
              ChangedOnPages(c, M.Position(k, steps), table, hit.model)
    {
      EmissionExactly(c, hit, table, isFx, M.Position(k, steps));
    }
  }

  /** So the steps of a verified pair whose moving keys have their last slots on the
      model's pages are all written: EmitPair returns no error. */
  lemma {:induction false} VerifiedPairSucceeds(c: M.Chain, hit: Hit, table: Table, isFx: string -> bool, steps: nat)
    requires VerifiedChain(c, hit, table, isFx)
    requires forall k :: k in c.a && k in Inverse(table) && c.Moves(k) ==> OnPages(Inverse(table)[k], hit.model)
    ensures PairSucceeds(hit.dump, table, c, steps)
  {
    hide StepDump, ChangedOnPages, M.Chain.Intermediate, ByteVerified, Inverse, M.SevenBit, OnPages, M.Chain.Moves;
    VerifiedKeys(hit, table, isFx, c.a);
    forall k: nat | 1 <= k <= steps
      ensures StepDump(hit.dump, table, c.Intermediate(M.Position(k, steps)).params).Ok?
    {
      MovingKeysChange(c, M.Position(k, steps), table, hit.model);
      EmissionIsFaithful(c, hit, table, isFx, M.Position(k, steps));
    }
  }

  /** A step whose integers are 7-bit and decodable, its changes on the model's pages, is
      written as it stands. */
  lemma {:induction false} WriteInts(base: bytes, table: Table, params: map<string, M.Value>, m: Model)
    requires Framed(base, m)
    requires Ints(params).Keys <= Inverse(table).Keys && Ints(params).Keys <= Decode(Payload(base, m), m, table).Keys
    requires forall k :: k in Ints(params) ==> 0 <= Ints(params)[k] <= 127
    requires forall k :: k in Ints(params) && Ints(params)[k] != Decode(Payload(base, m), m, table)[k] ==>
                           OnPages(Inverse(table)[k], m)
    ensures var r := StepDump(base, table, params);
            && r.Ok? && DumpModel(r.value) == Ok(m) && VerifyChecksum(r.value, m)
            && Decode(Payload(r.value, m), m, table) == Decode(Payload(base, m), m, table) + Ints(params)
  {
    var values := Decode(Payload(base, m), m, table);
    var o := Changes(values, Ints(params));
    MergeChanges(values, Ints(params));
    ChangesWritable(values, Ints(params), Inverse(table), m);
    hide Decode, Built, Ints, Inverse, Writable, Payload, Changes;
    PutGet(base, o, table, m);
    BuildIsValid(base, o, table);
  }

  lemma {:induction false} ChangesWritable(values: map<string, int>, ints: map<string, int>, inv: map<string, Slot>,
      m: Model)
    requires ints.Keys <= inv.Keys && ints.Keys <= values.Keys
    requires forall k :: k in ints ==> 0 <= ints[k] <= 127 && (ints[k] != values[k] ==> OnPages(inv[k], m))
    ensures Writable(Changes(values, ints), inv, m)
  {
  }

  lemma {:induction false} MergeChanges(values: map<string, int>, ints: map<string, int>)
    requires ints.Keys <= values.Keys
    ensures values + Changes(values, ints) == values + ints
  {
  }

  // ----- A chain that cannot be written -----

  /** One name on page 112 and again on page 116, past the B/C payload. */
  const TWICE_NAMED: Table := map[Slot(112, 5) := "Chorus Mix", Slot(116, 0) := "Chorus Mix"]

  const ZERO_BASE: bytes := [0xF0, 0x00, 0x20, 0x33, 0x01, 0, 0x10, 0, 0] + seq(256, i => 0) + [0x10, 0xF7]

  const RISING: M.Chain := M.Chain(map["Chorus Mix" := Some(0)], map["Chorus Mix" := Some(100)], M.Every, None)

  lemma {:induction false} LastOfTwo(table: Table, n: string, s: Slot, t: Slot)
    requires table == map[s := n, t := n] && !SlotLe(t, s)
    ensures n in Inverse(table) && Inverse(table)[n] == t
  {
    hide Inverse, SlotLe;
    assert t in table && table[t] == n;
    InverseIsLast(table);
  }

  lemma {:induction false} OneOnPages(table: Table, m: Model, n: string, s: Slot, t: Slot, p: bytes)
    requires table == map[s := n, t := n] && OnPages(s, m) && !OnPages(t, m) && |p| == m.PayloadLen()
    ensures 0 <= Offset(s) < |p| && Decode(p, m, table) == map[n := p[Offset(s)] as int]
  {
    hide Inverse, Decode, Offset, OnPages;
    var pages := PageTable(table, m);
    assert s in pages && pages[s] == n && forall u :: u in pages ==> u == s;
    OneValue(pages, s, n);
    InverseIsLast(pages);
    DecodeReads(p, m, table);
    var v := Decode(p, m, table);
    assert n in v.Keys && v[n] == p[Offset(s)];
    assert v.Keys == {n};
  }

  lemma {:induction false} OneValue(table: Table, s: Slot, n: string)
    requires s in table && table[s] == n && forall u :: u in table ==> u == s
    ensures table.Values == {n}
  {
  }

  lemma {:induction false} ZeroFramed()
    ensures Framed(ZERO_BASE, BC) && Payload(ZERO_BASE, BC) == seq(256, i => 0) && VerifyChecksum(ZERO_BASE, BC)
  {
    var d, m := ZERO_BASE, BC;
    assert m.PayloadLen() == 256 && m.DumpLen() == 267 && m.ChecksumAt() == 265;
    assert |d| == 267;
    assert d[0] == 0xF0 && d[1] == 0 && d[2] == 0x20 && d[3] == 0x33 && d[4] == 1 && d[5] == 0 && d[6] == 0x10;
    assert d[7] == 0 && d[8] == 0 && d[265] == 0x10 && d[266] == 0xF7;
    assert d[1..4] == VirusSmf.HEADER && d[9..9 + 256] == seq(256, i => 0);
    SumZeros(d[9..9 + 256]);
  }

  lemma {:induction false} RisingStep()
    ensures Ints(RISING.Intermediate(M.Position(1, 1)).params) == map["Chorus Mix" := 50]
  {
    assert M.Tenth(0, 100, M.Position(1, 1)) == 500 && M.ToInt(500) == 50;
    hide M.Tenth, M.ToInt;
    assert RISING.Moves("Chorus Mix");
  }

  lemma {:induction false} ZeroVerified()
    ensures VerifiedChain(RISING, Hit(BC, "zero.syx", 0, ZERO_BASE), TWICE_NAMED, M.Every)
  {
    hide Decode, Framed, VerifyChecksum;
    var p := Payload(ZERO_BASE, BC);
    ZeroFramed();
    OneOnPages(TWICE_NAMED, BC, "Chorus Mix", Slot(112, 5), Slot(116, 0), p);
    hide Payload;
    assert FxParams(p, BC, TWICE_NAMED, M.Every) == map["Chorus Mix" := 0];
  }

  lemma {:induction false} OffPageRaises(base: bytes, table: Table, params: map<string, M.Value>, m: Model, n: string,
      v: int)
    requires Framed(base, m) && Ints(params) == map[n := v] && 0 <= v <= 127
    requires n in Inverse(table) && WriteIndex(Offset(Inverse(table)[n]), m.PayloadLen()).None?
    requires n in Decode(Payload(base, m), m, table) && Decode(Payload(base, m), m, table)[n] != v
    ensures StepDump(base, table, params) == Err(IndexError(n))
  {
    hide Decode, Built, Ints, Inverse, Payload, Offset;
    var values := Decode(Payload(base, m), m, table);
    assert Changes(values, map[n := v]) == map[n := v];
    BuiltOne(base, n, v, table, m);
  }

  /** A byte-verified chain whose only key is named again off the pages: its step wants
      50, and the writer raises IndexError. */
  lemma {:induction false} VerifiedChainFails()
    ensures VerifiedChain(RISING, Hit(BC, "zero.syx", 0, ZERO_BASE), TWICE_NAMED, M.Every)
    ensures Framed(ZERO_BASE, BC) && VerifyChecksum(ZERO_BASE, BC)
    ensures StepDump(ZERO_BASE, TWICE_NAMED, RISING.Intermediate(M.Position(1, 1)).params)
         == Err(IndexError("Chorus Mix"))
  {
    hide StepDump, VerifiedChain, Framed, VerifyChecksum, Inverse, Decode, Payload;
    ZeroFramed();
    ZeroVerified();
    RisingStep();
    LastOfTwo(TWICE_NAMED, "Chorus Mix", Slot(112, 5), Slot(116, 0));
    OneOnPages(TWICE_NAMED, BC, "Chorus Mix", Slot(112, 5), Slot(116, 0), Payload(ZERO_BASE, BC));
    hide M.Chain.Intermediate, Ints;
    OffPageRaises(ZERO_BASE, TWICE_NAMED, RISING.Intermediate(M.Position(1, 1)).params, BC, "Chorus Mix", 50);
  }
}
