/** virus_dump.index_corpus and base resolution: the corpus dumps whose effect
    parameters are those of a preset. */
module VirusCorpus {
  import opened Bytes
  import opened Ordering
  import opened VirusDump
  import VirusSmf
  import M = Morph

  datatype Vocabulary = Vocabulary(bc: Table, ti: Table) {
    function Of(m: Model): Table { if m.BC? then bc else ti }
  }

  /** What the container walker yields: a payload, and the raw dump found for it. */
  datatype Entry = Entry(file: string, index: nat, payload: bytes, raw: bytes)

  datatype Hit = Hit(model: Model, file: string, index: nat, dump: bytes)

  /** The named values of a preset or of a dump: what index_corpus keys its hits by. */
  type Signature = map<string, int>

  // ----- Which dumps are kept -----

  function PayloadModel(length: nat): Option<Model> {
    if length == 256 then Some(BC) else if length == 512 then Some(TI) else None
  }

  /** A payload of either generation, on a strictly framed dump with a right checksum. */
  function HitOf(e: Entry): Option<Hit> {
    match PayloadModel(|e.payload|)
    case None => None
    case Some(m) =>
      if DumpModel(e.raw).Err? then None
      else if m.ChecksumAt() >= |e.raw| then None
      else if e.raw[m.ChecksumAt()] != VirusSmf.Checksum(e.raw, m.PayloadLen()) then None
      else Some(Hit(m, e.file, e.index, e.raw))
  }

  ghost function SignatureOf(e: Entry, vocab: Vocabulary, isFx: string -> bool): Signature
    requires HitOf(e).Some?
  {
    FxParams(e.payload, HitOf(e).value.model, vocab.Of(HitOf(e).value.model), isFx)
  }

  /** byte_mismatches: the decoded bytes written back over the payload change nothing. */
  lemma {:induction false} NoByteMismatches(p: bytes, m: Model, table: Table, s: Slot)
    requires |p| == m.PayloadLen() && s in SlotValues(p, m, table)
    ensures 0 <= Offset(s) < |p| && p[Offset(s) := SlotValues(p, m, table)[s]] == p
  {
    OffsetsOnPages(s, s, m);
  }

  predicate HitLe(a: Hit, b: Hit) {
    if a.file == b.file then a.index <= b.index else StringLe(a.file, b.file)
  }

  lemma {:induction false} HitsAreOrdered()
    ensures Preorder(HitLe)
  {
    StringsAreOrdered();
    hide StringLe;
    forall a, b, c | HitLe(a, b) && HitLe(b, c) ensures HitLe(a, c) {
      assert a.file != b.file && b.file != c.file ==> StringLe(a.file, c.file);
    }
  }

  /** r holds the hits of s, by file and index, those of one file and index in the order
      of s. */
  ghost predicate SortedHits(r: seq<Hit>, s: seq<Hit>) {
    && Ascending(r, HitLe) && multiset(r) == multiset(s)
    && forall h :: Alike(r, h, HitLe) == Alike(s, h, HitLe)
  }

  lemma {:induction false} SortSortsHits(s: seq<Hit>)
    ensures SortedHits(Sort(s, HitLe), s)
  {
    hide Sort, Alike, HitLe;
    HitsAreOrdered();
    SortAscends(s, HitLe);
    forall h ensures Alike(Sort(s, HitLe), h, HitLe) == Alike(s, h, HitLe) {
      SortIsStable(s, h, HitLe);
    }
  }

  /** The hits under one signature, in walk order. */
  ghost function Found(entries: seq<Entry>, sig: Signature, vocab: Vocabulary, isFx: string -> bool): seq<Hit> {
    if entries == [] then []
    else
      var e, before := entries[|entries| - 1], Found(entries[..|entries| - 1], sig, vocab, isFx);
      if HitOf(e).Some? && SignatureOf(e, vocab, isFx) == sig then before + [HitOf(e).value] else before
  }

  // ----- The index -----

  method IndexCorpus(entries: seq<Entry>, vocab: Vocabulary,
      isFx: string -> bool) returns (index: map<Signature, seq<Hit>>)
    ensures forall sig :: sig in index <==> Found(entries, sig, vocab, isFx) != []
    ensures forall sig :: sig in index ==> SortedHits(index[sig], Found(entries, sig, vocab, isFx))
  {
    hide SortedHits, Sort, HitOf, FxParams, Found, FxNames;
    var found: map<Signature, seq<Hit>> := map[];
    NothingFound(vocab, isFx);
    for i := 0 to |entries|
      invariant forall sig :: sig in found <==> Found(entries[..i], sig, vocab, isFx) != []
      invariant forall sig :: sig in found ==> found[sig] == Found(entries[..i], sig, vocab, isFx)
    {
      var e := entries[i];
      FoundTurn(entries, i, vocab, isFx);
      var hit := HitOf(e);
      if hit.Some? {
        HitLength(e);
        var m := hit.value.model;
        var sig := NameValues(e.payload, m, vocab.Of(m), FxNames(isFx));
        FxKept(e.payload, m, vocab.Of(m), isFx);
        found := found[sig := (if sig in found then found[sig] else []) + [hit.value]];
      }
    }
    assert entries[..|entries|] == entries;
    index := map sig | sig in found :: Sort(found[sig], HitLe);
    forall sig | sig in index ensures SortedHits(index[sig], Found(entries, sig, vocab, isFx)) {
      SortSortsHits(found[sig]);
    }
  }

  lemma {:induction false} HitLength(e: Entry)
    requires HitOf(e).Some?
    ensures |e.payload| == HitOf(e).value.model.PayloadLen()
  {
  }

  lemma {:induction false} FxKept(p: bytes, m: Model, table: Table, isFx: string -> bool)
    requires |p| == m.PayloadLen()
    ensures FxParams(p, m, table, isFx) == Kept(Decode(p, m, table), FxNames(isFx))
  {
  }

  lemma {:induction false} NothingFound(vocab: Vocabulary, isFx: string -> bool)
    ensures forall sig :: Found([], sig, vocab, isFx) == []
  {
  }

  lemma {:induction false} FoundTurn(entries: seq<Entry>, i: nat, vocab: Vocabulary, isFx: string -> bool)
    requires i < |entries|
    ensures forall sig ::
              Found(entries[..i + 1], sig, vocab, isFx) ==
              Found(entries[..i], sig, vocab, isFx)
              + if HitOf(entries[i]).Some? && SignatureOf(entries[i], vocab, isFx) == sig
                then [HitOf(entries[i]).value] else []
  {
    hide HitOf, SignatureOf;
    assert entries[..i + 1][..i] == entries[..i];
  }

  // ----- Base resolution -----

  /** The hits under a preset's parameters; a null matches no dump. */
  function Lookup(index: map<Signature, seq<Hit>>, preset: M.Params): seq<Hit> {
    if exists k :: k in preset && preset[k].None? then []
    else
      var sig := map k | k in preset :: preset[k].value;
      if sig in index then index[sig] else []
  }

  /** resolve_base: the first hit of one generation. */
  function FirstOf(hits: seq<Hit>, m: Model): Option<Hit> {
    if hits == [] then None else if hits[0].model == m then Some(hits[0]) else FirstOf(hits[1..], m)
  }

  method ResolveBase(hits: seq<Hit>, m: Model) returns (r: Option<Hit>)
    ensures r == FirstOf(hits, m)
  {
    for i := 0 to |hits|
      invariant FirstOf(hits, m) == FirstOf(hits[i..], m)
    {
      if hits[i].model == m {
        return Some(hits[i]);
      }
      assert hits[i..][1..] == hits[i + 1..];
    }
    return None;
  }

  /** h is the first of the hits that has generation m. */
  ghost predicate IsFirst(h: Hit, hits: seq<Hit>, m: Model) {
    exists i :: 0 <= i < |hits| && hits[i] == h && h.model == m && forall j :: 0 <= j < i ==> hits[j].model != m
  }

  /** resolve_base_preferred: the first B/C dump when one matches, else the first TI dump. */
  method ResolvePreferred(index: map<Signature, seq<Hit>>, preset: M.Params) returns (r: Result<Hit, Error>)
    ensures var hits := Lookup(index, preset);
            match r
            case Err(e) => e == NoBase && hits == []
            case Ok(h) => IsFirst(h, hits, BC) || (IsFirst(h, hits, TI) && forall g :: g in hits ==> g.model != BC)
  {
    var hits := Lookup(index, preset);
    var hit := ResolveBase(hits, BC);
    FirstFound(hits, BC);
    FirstFound(hits, TI);
    if hit.None? {
      hit := ResolveBase(hits, TI);
    }
    return if hit.Some? then Ok(hit.value) else Err(NoBase);
  }

  lemma {:induction false} FirstFound(hits: seq<Hit>, m: Model)
    ensures var r := FirstOf(hits, m);
            if r.Some? then IsFirst(r.value, hits, m) else forall h :: h in hits ==> h.model != m
    decreases |hits|
  {
    if hits != [] {
      if hits[0].model == m {
        assert hits[0] == FirstOf(hits, m).value;
      } else {
        FirstFound(hits[1..], m);
        assert hits == [hits[0]] + hits[1..];
        var r := FirstOf(hits[1..], m);
        if r.Some? {
          var i :| 0 <= i < |hits[1..]| && hits[1..][i] == r.value
                   && forall j :: 0 <= j < i ==> hits[1..][j].model != m;
          assert hits[i + 1] == r.value;
        }
      }
    }
  }

  // ----- What a hit promises -----

  /** A hit stands under a preset's parameters: it is framed and its effect
      parameters are those of the preset, none of them null. */
  ghost predicate ByteVerified(hit: Hit, table: Table, isFx: string -> bool, preset: M.Params) {
    && Framed(hit.dump, hit.model)
    && var fx := FxParams(Payload(hit.dump, hit.model), hit.model, table, isFx);
       preset == map n | n in fx :: Some(fx[n])
  }

  /** The raw dump holds the payload where a single dump has it. */
  predicate Carries(raw: bytes, payload: bytes) {
    Slice(raw, 9, 9 + |payload|) == payload
  }

  /** A hit on a dump that carries its payload is verified, under the signature it is kept
      by, exactly when the dump is framed for the hit's generation. */
  lemma {:induction false} HitVerified(e: Entry, vocab: Vocabulary, isFx: string -> bool)
    requires HitOf(e).Some? && Carries(e.raw, e.payload)
    ensures var h, sig := HitOf(e).value, SignatureOf(e, vocab, isFx);
            && h.dump == e.raw
            && (ByteVerified(h, vocab.Of(h.model), isFx, Nonnull(sig)) <==> Framed(e.raw, h.model))
            && (Framed(e.raw, h.model) <==> |e.raw| == h.model.DumpLen())
            && (Framed(e.raw, h.model) ==> |h.dump| == h.model.DumpLen() && VerifyChecksum(h.dump, h.model))
  {
    hide FxParams;
    var h := HitOf(e).value;
    if |e.raw| == h.model.DumpLen() {
      assert Payload(e.raw, h.model) == e.payload;
    }
  }

  function Nonnull(sig: Signature): M.Params {
    map n | n in sig :: Some(sig[n])
  }

  /** A hit under a signature is the hit of an entry with that signature. */
  lemma {:induction false} FoundFrom(entries: seq<Entry>, sig: Signature, vocab: Vocabulary, isFx: string -> bool,
      h: Hit)
    ensures h in Found(entries, sig, vocab, isFx) <==>
            exists e :: e in entries && HitOf(e) == Some(h) && SignatureOf(e, vocab, isFx) == sig
    decreases |entries|
  {
    hide HitOf, SignatureOf;
    if entries != [] {
      var n := |entries| - 1;
      assert entries == entries[..n] + [entries[n]];
      FoundFrom(entries[..n], sig, vocab, isFx, h);
    }
  }

  /** Whatever the index returns for a preset was found under the preset's signature. */
  lemma {:induction false} LookupFinds(entries: seq<Entry>, index: map<Signature, seq<Hit>>, vocab: Vocabulary,
      isFx: string -> bool, preset: M.Params, h: Hit)
    requires forall sig :: sig in index ==> SortedHits(index[sig], Found(entries, sig, vocab, isFx))
    requires h in Lookup(index, preset)
    ensures exists sig :: h in Found(entries, sig, vocab, isFx) && Nonnull(sig) == preset
  {
    hide Found, SortedHits;
    var sig := map k | k in preset :: preset[k].value;
    assert sig in index && h in index[sig];
    SortedFrom(index[sig], Found(entries, sig, vocab, isFx), h);
    assert Nonnull(sig) == preset;
  }

  lemma {:induction false} SortedFrom(r: seq<Hit>, s: seq<Hit>, h: Hit)
    requires SortedHits(r, s) && h in r
    ensures h in s
  {
    hide Ascending, Alike;
    assert h in multiset(r);
  }
}
