/** Which corpus dumps are kept and found, in absolute positions. */
module VirusFinds {
  import opened Bytes
  import opened VirusDump
  import opened VirusCorpus
  import opened VirusContainers
  import opened VirusPlaces
  import VirusSmf
  import M = Morph

  // ----- Single dumps -----

  /** A message of either length with the Virus header and the single-dump command. */
  predicate IsSingle(m: bytes) {
    && (|m| == 267 || |m| == 524)
    && m[0] == 0xF0 && m[1] == 0x00 && m[2] == 0x20 && m[3] == 0x33 && m[4] == 0x01 && m[6] == 0x10
  }

  /** The three readers of a single dump: the walker for effect pages takes it with any last
      byte; the patch parser and the writer want F7 there; all take the payload from 9 on. */
  lemma {:induction false} SinglesAre(m: bytes)
    ensures VirusSmf.SingleFields(m) ==
            if !IsSingle(m) then None
            else if |m| == 267 then Some(VirusSmf.Fields(m[9..265], m[265]))
            else Some(VirusSmf.Fields(m[9..521], m[522]))
    ensures DumpModel(m).Ok? <==> IsSingle(m) && m[|m| - 1] == 0xF7
    ensures VirusSmf.Dispatch(m).Patch? <==> IsSingle(m) && m[|m| - 1] == 0xF7
    ensures VirusSmf.Dispatch(m).Patch? ==>
              && VirusSmf.Dispatch(m).data == m[9..265] && VirusSmf.Dispatch(m).device == m[5]
              && VirusSmf.Dispatch(m).bank == m[7] && VirusSmf.Dispatch(m).program == m[8]
              && (VirusSmf.Dispatch(m).checksumOk <==>
                    var end := |m| - if |m| == 267 then 2 else 3;
                    m[|m| - 2] == Sum(m[5..end]) % 128)
  {
    if |m| == 267 || |m| == 524 {
      assert m[1] == m[1..4][0] && m[2] == m[1..4][1] && m[3] == m[1..4][2];
      if IsSingle(m) {
        assert m[1..4] == VirusSmf.HEADER;
        var end := |m| - if |m| == 267 then 2 else 3;
        assert |m| == 524 ==> m[9..521][..256] == m[9..265];
        SumFromDevice(m, end);
      }
    }
  }

  lemma {:induction false} SumFromDevice(m: bytes, end: nat)
    requires 9 <= end <= |m| && m[6] == 0x10
    ensures Sum(m[5..end]) == m[5] as int + 0x10 + m[7] + m[8] + Sum(m[9..end])
  {
    assert m[5..end] == m[5..9] + m[9..end];
    SumAppend(m[5..9], m[9..end]);
    SumFour(m[5..9]);
  }

  /** Every built dump reads back in the patch parser with its own bytes and a right checksum. */
  lemma {:induction false} BuiltDispatches(base: bytes, o: map<string, int>, table: Table)
    requires Built(base, o, table).Ok?
    ensures var d := Built(base, o, table).value;
            && |d| >= 265 && VirusSmf.Dispatch(d) == VirusSmf.Patch(d[9..265], d[5], d[7], d[8], true)
  {
    SummedAt(base, o, table);
    SinglesAre(Built(base, o, table).value);
    hide Built, VirusSmf.Dispatch, Sum;
  }

  // ----- Entries -----

  /** An entry is kept exactly when its payload has 256 or 512 bytes and its raw bytes are a
      framed dump with the checksum of that length at its place. */
  lemma {:induction false} KeptExactly(e: Entry)
    ensures var len := |e.payload|;
            HitOf(e).Some? <==>
            && (len == 256 || len == 512) && IsSingle(e.raw) && e.raw[|e.raw| - 1] == 0xF7
            && (len == 512 ==> |e.raw| == 524)
            && e.raw[if len == 256 then 265 else 522] == Sum(e.raw[5..9 + len]) % 128
    ensures HitOf(e).Some? ==>
              HitOf(e).value == Hit(if |e.payload| == 256 then BC else TI, e.file, e.index, e.raw)
  {
    SinglesAre(e.raw);
    if IsSingle(e.raw) && (|e.payload| == 256 || |e.payload| == 512) && 9 + |e.payload| <= |e.raw| {
      SumFromDevice(e.raw, 9 + |e.payload|);
    }
    hide VirusSmf.Dispatch, VirusSmf.SingleFields, DumpModel;
  }

  /** The effect parameters of a payload: the named effect slots on its pages, each from the
      byte at 128 * (page - 112) + index of its last slot. */
  lemma {:induction false} FxParamsAre(p: bytes, m: Model, table: Table, isFx: string -> bool, name: string)
    requires |p| == m.PayloadLen()
    ensures name in FxParams(p, m, table, isFx) <==>
            && name != "" && isFx(name)
            && exists s :: s in table && table[s] == name && 112 <= s.page < PagesEnd(m) && s.index < 128
    ensures forall s :: name in FxParams(p, m, table, isFx) && StandsAt(table, name, PagesEnd(m), s) ==>
              && 128 * (s.page - 112) + s.index < |p|
              && FxParams(p, m, table, isFx)[name] == p[128 * (s.page - 112) + s.index]
  {
    PayloadFrom(p, m, table, name);
    hide Decode;
  }

  lemma {:induction false} PayloadFrom(p: bytes, m: Model, table: Table, name: string)
    requires |p| == m.PayloadLen()
    ensures name in Decode(p, m, table) <==>
            exists s :: s in table && table[s] == name && 112 <= s.page < PagesEnd(m) && s.index < 128
    ensures forall s :: StandsAt(table, name, PagesEnd(m), s) ==>
              && name in Decode(p, m, table) && 128 * (s.page - 112) + s.index < |p|
              && Decode(p, m, table)[name] == p[128 * (s.page - 112) + s.index]
  {
    hide DumpModel, Decode, Payload, StandsAt;
    var d := DumpAround(p, m);
    DecodedFrom(d, table, m, name);
    forall s | StandsAt(table, name, PagesEnd(m), s)
      ensures 0 <= 128 * (s.page - 112) + s.index < |p|
              && d[9 + 128 * (s.page - 112) + s.index] == p[128 * (s.page - 112) + s.index]
    {
      StandsInside(table, name, m, s);
    }
  }

  lemma {:induction false} StandsInside(table: Table, name: string, m: Model, s: Slot)
    requires StandsAt(table, name, PagesEnd(m), s)
    ensures 0 <= 128 * (s.page - 112) + s.index < m.PayloadLen()
  {
  }

  lemma {:induction false} DumpAround(p: bytes, m: Model) returns (d: bytes)
    requires |p| == m.PayloadLen()
    ensures DumpModel(d) == Ok(m) && Payload(d, m) == p && forall i :: 0 <= i < |p| ==> d[9 + i] == p[i]
  {
    d := [0xF0, 0x00, 0x20, 0x33, 0x01, 0, 0x10, 0, 0] + p + if m.BC? then [0, 0xF7] else [0, 0, 0xF7];
    assert d[1..4] == VirusSmf.HEADER;
  }

  /** The index finds for a preset exactly the kept dumps whose effect parameters are the
      preset's values, none of them null. */
  lemma {:induction false} LookupExactly(entries: seq<Entry>, index: map<Signature, seq<Hit>>, vocab: Vocabulary,
      isFx: string -> bool, preset: M.Params, h: Hit)
    requires forall sig :: sig in index <==> Found(entries, sig, vocab, isFx) != []
    requires forall sig :: sig in index ==> SortedHits(index[sig], Found(entries, sig, vocab, isFx))
    ensures h in Lookup(index, preset) <==>
            exists e :: e in entries && HitOf(e) == Some(h) && preset == Nonnull(SignatureOf(e, vocab, isFx))
  {
    hide Found, SortedHits, HitOf, SignatureOf;
    if h in Lookup(index, preset) {
      LookupFinds(entries, index, vocab, isFx, preset, h);
      var sig :| h in Found(entries, sig, vocab, isFx) && Nonnull(sig) == preset;
      FoundFrom(entries, sig, vocab, isFx, h);
    }
    if e :| e in entries && HitOf(e) == Some(h) && preset == Nonnull(SignatureOf(e, vocab, isFx)) {
      var sig := SignatureOf(e, vocab, isFx);
      FoundFrom(entries, sig, vocab, isFx, h);
      assert sig in index;
      AllSorted(index[sig], Found(entries, sig, vocab, isFx), h);
      assert sig == map k | k in preset :: preset[k].value;
    }
  }

  lemma {:induction false} AllSorted(r: seq<Hit>, s: seq<Hit>, h: Hit)
    requires SortedHits(r, s) && h in s
    ensures h in r
  {
    assert h in multiset(s);
  }

  // ----- Container files -----

  /** Bank files are cut into chunks of 267 or 524 bytes, numbered from the front. */
  lemma {:induction false} BankGrows(name: string, format: Format, data: bytes, chunk: bytes)
    requires format == Vhc || format == TiBank
    requires |chunk| == (if format == Vhc then 267 else 524) && |data| % |chunk| == 0
    ensures EntriesOf(CorpusFile(name, format, data + chunk)) ==
            EntriesOf(CorpusFile(name, format, data))
            + match VirusSmf.SingleFields(chunk)
              case None => []
              case Some(f) => [Entry(name, |data| / |chunk|, f.payload, chunk)]
  {
    hide VirusSmf.SingleFields, BankEntries;
    var size, n := |chunk|, |data| / |chunk|;
    WholeChunks(|data|, size);
    OneChunkMore(name, data, chunk, n);
  }

  lemma {:induction false} WholeChunks(length: nat, size: nat)
    requires size > 0 && length % size == 0
    ensures length / size * size == length && (length / size + 1) * size == length + size
    ensures (length + size) / size == length / size + 1
  {
    Quotients(length / size + 1, length + size, size);
  }

  lemma {:induction false} Quotients(n: nat, length: nat, size: nat)
    requires size > 0 && length == n * size
    ensures length / size == n
  {
    if length / size < n {
      ScaleUp(length / size + 1, n, size);
    } else if length / size > n {
      ScaleUp(n + 1, length / size, size);
    }
  }

  lemma {:induction false} OneChunkMore(name: string, data: bytes, chunk: bytes, n: nat)
    requires |chunk| > 0 && n * |chunk| == |data| && (n + 1) * |chunk| == |data + chunk|
    ensures BankEntries(name, data + chunk, |chunk|, n + 1)
         == BankEntries(name, data, |chunk|, n) + EntryOf(name, n, chunk, chunk)
  {
    hide VirusSmf.SingleFields;
    assert ChunkAt(data + chunk, |chunk|, n) == chunk;
    BankFront(name, data, chunk, |chunk|, n);
  }

  lemma {:induction false} BankFront(name: string, data: bytes, more: bytes, size: nat, n: nat)
    requires n * size <= |data|
    ensures BankEntries(name, data + more, size, n) == BankEntries(name, data, size, n)
  {
    hide VirusSmf.SingleFields;
    if n > 0 {
      Less(n, size);
      BankFront(name, data, more, size, n - 1);
      assert ChunkAt(data + more, size, n - 1) == ChunkAt(data, size, n - 1);
    }
  }
}
