/** The container walk of virus_dump.index_corpus: the dumps of every file, the raw bytes
    found for each, and exactly when the corpus index keeps what it promises. */
module VirusContainers {
  import opened Bytes
  import opened VirusDump
  import opened VirusCorpus
  import opened VirusSmf
  import opened VirusFxWalk
  import opened VirusSmfAgree
  import opened Smf
  import M = Morph

  // ----- iter_dumps and _dump_bytes -----

  datatype Format = BcSingle | Vhc | TiBank | StdMidi

  datatype CorpusFile = CorpusFile(name: string, format: Format, data: bytes)

  /** The entry of one message or chunk, if it is a single dump, with the raw bytes found. */
  function EntryOf(name: string, index: nat, m: bytes, raw: bytes): seq<Entry> {
    match SingleFields(m) case None => [] case Some(f) => [Entry(name, index, f.payload, raw)]
  }

  /** The first n chunks of a bank file; each one's raw bytes are the chunk itself. */
  function BankEntries(name: string, data: bytes, size: nat, n: nat): seq<Entry>
    requires n * size <= |data|
  {
    if n == 0 then []
    else
      var chunk := ChunkAt(data, size, n - 1);
      BankEntries(name, data, size, n - 1) + EntryOf(name, n - 1, chunk, chunk)
  }

  function ChunkAt(data: bytes, size: nat, k: nat): bytes
    requires (k + 1) * size <= |data|
  {
    assert k * size <= (k + 1) * size;
    data[k * size..(k + 1) * size]
  }

  /** _dump_bytes of a Standard MIDI File: the first message that carries the payload. */
  function RawFor(ms: seq<bytes>, payload: bytes, data: bytes): bytes {
    if ms == [] then data else if Carries(ms[0], payload) then ms[0] else RawFor(ms[1..], payload, data)
  }

  function MessageEntry(name: string, index: nat, m: bytes, ms: seq<bytes>, data: bytes): seq<Entry> {
    match SingleFields(m)
    case None => []
    case Some(f) => [Entry(name, index, f.payload, RawFor(ms, f.payload, data))]
  }

  /** The single dumps among the first n messages, numbered. */
  function MidiEntries(name: string, ms: seq<bytes>, data: bytes, n: nat): seq<Entry>
    requires n <= |ms|
  {
    if n == 0 then []
    else
      var before := MidiEntries(name, ms, data, n - 1);
      before + MessageEntry(name, |before|, ms[n - 1], ms, data)
  }

  /** The entries of one file; a file that cannot be walked has none. */
  function EntriesOf(f: CorpusFile): seq<Entry> {
    match f.format
    case BcSingle => EntryOf(f.name, 0, f.data, f.data)
    case Vhc => BankEntries(f.name, f.data, 267, |f.data| / 267)
    case TiBank => BankEntries(f.name, f.data, 524, |f.data| / 524)
    case StdMidi =>
      match FxMessages(f.data)
      case Err(_) => []
      case Ok(ms) => MidiEntries(f.name, ms, f.data, |ms|)
  }

  function AllEntries(files: seq<CorpusFile>): seq<Entry> {
    if files == [] then [] else AllEntries(files[..|files| - 1]) + EntriesOf(files[|files| - 1])
  }

  // ----- The loops -----

  method DumpBytes(ms: seq<bytes>, payload: bytes, data: bytes) returns (raw: bytes)
    ensures raw == RawFor(ms, payload, data)
  {
    assert ms[0..] == ms;
    for i := 0 to |ms|
      invariant RawFor(ms, payload, data) == RawFor(ms[i..], payload, data)
    {
      assert ms[i..][1..] == ms[i + 1..];
      if Carries(ms[i], payload) {
        return ms[i];
      }
    }
    return data;
  }

  method BankLoop(name: string, data: bytes, size: nat) returns (out: seq<Entry>)
    requires size > 0
    ensures |data| / size * size <= |data| && out == BankEntries(name, data, size, |data| / size)
  {
    hide SingleFields;
    out := [];
    for k := 0 to |data| / size
      invariant k * size <= |data| && out == BankEntries(name, data, size, k)
    {
      Inside(data, size, k);
      var chunk := ChunkAt(data, size, k);
      AppendNone(out);
      var fields := SingleFields(chunk);
      if fields.Some? {
        out := out + [Entry(name, k, fields.value.payload, chunk)];
      }
    }
    Inside(data, size, |data| / size);
  }

  lemma {:induction false} Inside(data: bytes, size: nat, k: nat)
    requires size > 0 && k <= |data| / size
    ensures k * size <= |data| && (k < |data| / size ==> (k + 1) * size <= |data|)
  {
    var q := |data| / size;
    Quotient(|data|, size, q);
    ScaleUp(k, q, size);
    if k < q {
      ScaleUp(k + 1, q, size);
    }
  }

  lemma {:induction false} Quotient(n: nat, d: nat, q: nat)
    requires d > 0 && q == n / d
    ensures q * d <= n
  {
    assert n == d * q + n % d;
  }

  lemma {:induction false} ScaleUp(j: nat, k: nat, d: nat)
    requires j <= k
    ensures j * d <= k * d
  {
    assert k * d == j * d + (k - j) * d && (k - j) * d >= 0;
  }

  method IterEntries(f: CorpusFile) returns (out: seq<Entry>)
    ensures out == EntriesOf(f)
  {
    hide SingleFields, FxMessages, MidiEntries, BankEntries, RawFor;
    match f.format
    case BcSingle =>
      var fields := SingleFields(f.data);
      return if fields.Some? then [Entry(f.name, 0, fields.value.payload, f.data)] else [];
    case Vhc =>
      out := BankLoop(f.name, f.data, 267);
    case TiBank =>
      out := BankLoop(f.name, f.data, 524);
    case StdMidi =>
      var got := SmfSysexMessages(f.data);
      if got.Err? {
        return [];
      }
      out := MidiLoop(f.name, got.value, f.data);
  }

  method MidiLoop(name: string, ms: seq<bytes>, data: bytes) returns (out: seq<Entry>)
    ensures out == MidiEntries(name, ms, data, |ms|)
  {
    hide SingleFields, RawFor;
    out := [];
    for k := 0 to |ms|
      invariant out == MidiEntries(name, ms, data, k)
    {
      AppendNone(out);
      var fields := SingleFields(ms[k]);
      if fields.Some? {
        var raw := DumpBytes(ms, fields.value.payload, data);
        out := out + [Entry(name, |out|, fields.value.payload, raw)];
      }
    }
  }

  /** index_corpus over the files in walk order. */
  method IndexFiles(files: seq<CorpusFile>, vocab: Vocabulary,
      isFx: string -> bool) returns (index: map<Signature, seq<Hit>>)
    ensures forall sig :: sig in index <==> Found(AllEntries(files), sig, vocab, isFx) != []
    ensures forall sig :: sig in index ==> SortedHits(index[sig], Found(AllEntries(files), sig, vocab, isFx))
  {
    hide EntriesOf, Found, SortedHits;
    var entries: seq<Entry> := [];
    for i := 0 to |files|
      invariant entries == AllEntries(files[..i])
    {
      assert files[..i + 1][..i] == files[..i];
      var more := IterEntries(files[i]);
      entries := entries + more;
    }
    assert files[..|files|] == files;
    index := IndexCorpus(entries, vocab, isFx);
  }

  // ----- Exactly when hits are verified -----

  lemma {:induction false} RawCarries(ms: seq<bytes>, payload: bytes, data: bytes, m: bytes)
    requires m in ms && Carries(m, payload)
    ensures Carries(RawFor(ms, payload, data), payload)
    decreases |ms|
  {
    hide Carries;
    assert ms == [ms[0]] + ms[1..];
    if !Carries(ms[0], payload) {
      RawCarries(ms[1..], payload, data, m);
    }
  }

  lemma {:induction false} OwnCarries(m: bytes)
    requires SingleFields(m).Some?
    ensures Carries(m, SingleFields(m).value.payload)
    ensures |SingleFields(m).value.payload| == if |m| == 267 then 256 else 512
    ensures |m| == 267 || |m| == 524
  {
  }

  /** The entries of a bank: their raw bytes are chunks that are single dumps. */
  lemma {:induction false} BankEntriesAre(name: string, data: bytes, size: nat, n: nat, e: Entry)
    requires n * size <= |data| && e in BankEntries(name, data, size, n)
    ensures SingleFields(e.raw).Some? && SingleFields(e.raw).value.payload == e.payload
    decreases n
  {
    hide SingleFields, ChunkAt;
    Less(n, size);
    if e in BankEntries(name, data, size, n - 1) {
      BankEntriesAre(name, data, size, n - 1, e);
    }
  }

  lemma {:induction false} Less(n: nat, size: nat)
    requires n > 0
    ensures (n - 1) * size <= n * size
  {
  }

  /** The entries of a MIDI file are those of its single-dump messages. */
  lemma {:induction false} MidiEntriesAre(name: string, ms: seq<bytes>, data: bytes, n: nat, e: Entry)
    requires n <= |ms| && e in MidiEntries(name, ms, data, n)
    ensures exists k :: 0 <= k < n && SingleFields(ms[k]).Some? && e.payload == SingleFields(ms[k]).value.payload
                        && e.raw == RawFor(ms, e.payload, data)
    decreases n
  {
    hide SingleFields, RawFor;
    if e in MidiEntries(name, ms, data, n - 1) {
      MidiEntriesAre(name, ms, data, n - 1, e);
    } else {
      assert SingleFields(ms[n - 1]).Some?;
    }
  }

  lemma {:induction false} MidiEntryOf(name: string, ms: seq<bytes>, data: bytes, n: nat, k: nat)
    requires k < n <= |ms| && SingleFields(ms[k]).Some?
    ensures exists e :: e in MidiEntries(name, ms, data, n) && e.payload == SingleFields(ms[k]).value.payload
                        && e.raw == RawFor(ms, e.payload, data)
    decreases n
  {
    hide SingleFields, RawFor;
    if k < n - 1 {
      MidiEntryOf(name, ms, data, n - 1, k);
      var e :| e in MidiEntries(name, ms, data, n - 1) && e.payload == SingleFields(ms[k]).value.payload
               && e.raw == RawFor(ms, e.payload, data);
      assert e in MidiEntries(name, ms, data, n);
    } else {
      var before := MidiEntries(name, ms, data, n - 1);
      var e := MessageEntry(name, |before|, ms[k], ms, data)[0];
      assert MidiEntries(name, ms, data, n)[|before|] == e;
    }
  }

  /** A B/C message whose payload an earlier framed TI message begins with, byte 265 of
      which is the checksum of a B/C dump with that payload. */
  predicate Shadowed(ms: seq<bytes>, m: bytes, data: bytes) {
    && SingleFields(m).Some? && |m| == 267
    && var raw := RawFor(ms, SingleFields(m).value.payload, data);
       Framed(raw, TI) && raw[265] == Checksum(raw, 256)
  }

  predicate NoShadow(f: CorpusFile) {
    f.format == StdMidi && FxMessages(f.data).Ok? ==>
      forall m :: m in FxMessages(f.data).value ==> !Shadowed(FxMessages(f.data).value, m, f.data)
  }

  /** Every entry that is kept stands on a dump of its own generation. */
  ghost predicate Honest(e: Entry) {
    HitOf(e).Some? ==> Framed(e.raw, HitOf(e).value.model)
  }

  lemma {:induction false} HonestSingle(e: Entry)
    requires SingleFields(e.raw).Some? && SingleFields(e.raw).value.payload == e.payload
    ensures Honest(e) && Carries(e.raw, e.payload)
  {
    OwnCarries(e.raw);
  }

  lemma {:induction false} HonestMessage(ms: seq<bytes>, m: bytes, data: bytes, e: Entry)
    requires m in ms && SingleFields(m).Some? && e.payload == SingleFields(m).value.payload
    requires e.raw == RawFor(ms, e.payload, data)
    ensures Carries(e.raw, e.payload) && (Honest(e) <==> !Shadowed(ms, m, data))
  {
    OwnCarries(m);
    hide SingleFields, Carries, RawFor;
    RawCarries(ms, e.payload, data, m);
    TwoLengths(e);
  }

  /** A kept dump of the other generation is a TI dump under a B/C payload. */
  lemma {:induction false} TwoLengths(e: Entry)
    requires Carries(e.raw, e.payload) && (|e.payload| == 256 || |e.payload| == 512)
    ensures !Honest(e) <==> |e.payload| == 256 && Framed(e.raw, TI) && e.raw[265] == Checksum(e.raw, 256)
  {
  }

  /** On any file every kept entry is honest exactly when no message is shadowed. */
  lemma {:induction false} FileExactly(f: CorpusFile)
    ensures forall e :: e in EntriesOf(f) ==> Carries(e.raw, e.payload)
    ensures (forall e :: e in EntriesOf(f) ==> Honest(e)) <==> NoShadow(f)
  {
    hide SingleFields, FxMessages, MidiEntries, BankEntries, RawFor, Honest, Shadowed, Carries;
    if f.format == StdMidi {
      if FxMessages(f.data).Ok? {
        MidiExactly(f.name, FxMessages(f.data).value, f.data);
      }
    } else {
      forall e | e in EntriesOf(f) ensures Honest(e) && Carries(e.raw, e.payload) {
        if f.format != BcSingle {
          var size := if f.format == Vhc then 267 else 524;
          BankEntriesAre(f.name, f.data, size, |f.data| / size, e);
        }
        HonestSingle(e);
      }
    }
  }

  lemma {:induction false} MidiExactly(name: string, ms: seq<bytes>, data: bytes)
    ensures forall e :: e in MidiEntries(name, ms, data, |ms|) ==> Carries(e.raw, e.payload)
    ensures (forall e :: e in MidiEntries(name, ms, data, |ms|) ==> Honest(e)) <==>
            forall m :: m in ms ==> !Shadowed(ms, m, data)
  {
    hide SingleFields, MidiEntries, RawFor, Honest, Shadowed, Carries;
    forall e | e in MidiEntries(name, ms, data, |ms|)
      ensures Carries(e.raw, e.payload) && ((forall m :: m in ms ==> !Shadowed(ms, m, data)) ==> Honest(e))
    {
      MidiEntriesAre(name, ms, data, |ms|, e);
      var k :| 0 <= k < |ms| && SingleFields(ms[k]).Some? && e.payload == SingleFields(ms[k]).value.payload
               && e.raw == RawFor(ms, e.payload, data);
      assert ms[k] in ms;
      HonestMessage(ms, ms[k], data, e);
    }
    forall m | m in ms && Shadowed(ms, m, data)
      ensures exists e :: e in MidiEntries(name, ms, data, |ms|) && !Honest(e)
    {
      var k :| 0 <= k < |ms| && ms[k] == m;
      ShadowedIsSingle(ms, m, data);
      MidiEntryOf(name, ms, data, |ms|, k);
      var e :| e in MidiEntries(name, ms, data, |ms|) && e.payload == SingleFields(ms[k]).value.payload
               && e.raw == RawFor(ms, e.payload, data);
      HonestMessage(ms, m, data, e);
    }
  }

  lemma {:induction false} ShadowedIsSingle(ms: seq<bytes>, m: bytes, data: bytes)
    requires Shadowed(ms, m, data)
    ensures SingleFields(m).Some?
  {
  }

  lemma {:induction false} AllExactly(files: seq<CorpusFile>)
    ensures forall e :: e in AllEntries(files) ==> Carries(e.raw, e.payload)
    ensures (forall e :: e in AllEntries(files) ==> Honest(e)) <==> forall f :: f in files ==> NoShadow(f)
    decreases |files|
  {
    hide EntriesOf, Honest, NoShadow, Carries;
    if files != [] {
      var n := |files| - 1;
      assert files == files[..n] + [files[n]];
      AllExactly(files[..n]);
      FileExactly(files[n]);
    }
  }

  /** A hit verifies the parameters it is kept under and passes the checksum rule. */
  ghost predicate Verified(h: Hit, sig: Signature, vocab: Vocabulary, isFx: string -> bool) {
    && ByteVerified(h, vocab.Of(h.model), isFx, Nonnull(sig))
    && |h.dump| == h.model.DumpLen() && VerifyChecksum(h.dump, h.model)
  }

  /** Every hit of the corpus index verifies the parameters it is kept under exactly when
      no file has a shadowed message. */
  lemma {:induction false} CorpusExactly(files: seq<CorpusFile>, vocab: Vocabulary, isFx: string -> bool)
    ensures (forall sig, h :: h in Found(AllEntries(files), sig, vocab, isFx) ==> Verified(h, sig, vocab, isFx)) <==>
            forall f :: f in files ==> NoShadow(f)
  {
    hide HitOf, SignatureOf, Found, ByteVerified, NoShadow, Framed, Carries, AllEntries, VerifyChecksum;
    AllExactly(files);
    var entries := AllEntries(files);
    if forall f :: f in files ==> NoShadow(f) {
      forall sig, h | h in Found(entries, sig, vocab, isFx) ensures Verified(h, sig, vocab, isFx) {
        FoundFrom(entries, sig, vocab, isFx, h);
        var e :| e in entries && HitOf(e) == Some(h) && SignatureOf(e, vocab, isFx) == sig;
        HitVerified(e, vocab, isFx);
      }
    } else {
      var e :| e in entries && !Honest(e);
      var h, sig := HitOf(e).value, SignatureOf(e, vocab, isFx);
      HitVerified(e, vocab, isFx);
      FoundFrom(entries, sig, vocab, isFx, h);
      assert !Verified(h, sig, vocab, isFx);
    }
  }

  /** Over such a corpus whatever the index returns for a preset byte-verifies it and
      passes the checksum rule. */
  lemma {:induction false} ResolvedIsVerified(files: seq<CorpusFile>, index: map<Signature, seq<Hit>>,
      vocab: Vocabulary, isFx: string -> bool, preset: M.Params, h: Hit)
    requires forall f :: f in files ==> NoShadow(f)
    requires forall sig :: sig in index ==> SortedHits(index[sig], Found(AllEntries(files), sig, vocab, isFx))
    requires h in Lookup(index, preset)
    ensures ByteVerified(h, vocab.Of(h.model), isFx, preset)
    ensures |h.dump| == h.model.DumpLen() && VerifyChecksum(h.dump, h.model)
  {
    hide Found, ByteVerified, NoShadow, SortedHits, AllEntries, VerifyChecksum, Lookup;
    CorpusExactly(files, vocab, isFx);
    LookupFinds(AllEntries(files), index, vocab, isFx, preset, h);
    var sig :| h in Found(AllEntries(files), sig, vocab, isFx) && Nonnull(sig) == preset;
    assert Verified(h, sig, vocab, isFx);
  }

  // ----- A file with a shadowed message -----

  const HEAD: bytes := [0xF0, 0x00, 0x20, 0x33, 0x01, 0, 0x10, 0, 0]

  /** A TI dump of zeros but for byte 265, and the B/C dump of zeros. */
  const LONG: bytes := HEAD + seq(256, i => 0) + [0x10] + seq(257, i => 0) + [0xF7]
  const SHORT: bytes := HEAD + seq(256, i => 0) + [0x10, 0xF7]

  const TWO_DUMPS: File := File(0, 96, [], [[SysEx(0, LONG[1..]), SysEx(0, SHORT[1..])]])

  lemma {:induction false} LongBytes()
    ensures |LONG| == 524 && Framed(LONG, TI) && LONG[9..265] == seq(256, i => 0) && LONG[265] == 0x10
    ensures Checksum(LONG, 256) == 0x10 && [0xF0] + LONG[1..] == LONG
  {
    assert LONG[0] == 0xF0 && LONG[1] == 0 && LONG[2] == 0x20 && LONG[3] == 0x33 && LONG[4] == 1 && LONG[5] == 0;
    assert LONG[6] == 0x10 && LONG[7] == 0 && LONG[8] == 0 && LONG[265] == 0x10 && LONG[523] == 0xF7;
    assert LONG[1..4] == VirusSmf.HEADER && LONG[9..9 + 256] == seq(256, i => 0);
    SumZeros(LONG[9..9 + 256]);
  }

  lemma {:induction false} ShortBytes()
    ensures |SHORT| == 267 && SHORT[266] == 0xF7 && [0xF0] + SHORT[1..] == SHORT
    ensures SingleFields(SHORT) == Some(Fields(seq(256, i => 0), 0x10))
  {
    assert SHORT[0] == 0xF0 && SHORT[1] == 0 && SHORT[2] == 0x20 && SHORT[3] == 0x33 && SHORT[4] == 1;
    assert SHORT[6] == 0x10 && SHORT[265] == 0x10;
    assert SHORT[1..4] == VirusSmf.HEADER && SHORT[9..265] == seq(256, i => 0);
  }

  /** A sysex event in front of a short track. */
  lemma {:induction false} MoreSysEx(d: bytes, rest: seq<Event>)
    requires |d| < 0x1000 && EndsF7(d) && LegalTrack(rest, None) && TameTrack(rest)
    ensures var events := [SysEx(0, d)] + rest;
            && LegalTrack(events, None) && TameTrack(events)
            && |WriteTrack(events)| <= |WriteTrack(rest)| + 0x1010
            && MessagesOf(events) == [[0xF0] + d] + MessagesOf(rest)
  {
    var events := [SysEx(0, d)] + rest;
    assert events[1..] == rest;
    VlqReads(0);
    VlqReads(|d|);
    hide Vlq;
  }

  lemma {:induction false} TwoSysEx(a: bytes, b: bytes)
    requires |a| < 0x1000 && |b| < 0x1000 && EndsF7(a) && EndsF7(b)
    ensures var f := File(0, 96, [], [[SysEx(0, a), SysEx(0, b)]]);
            TameFile(f) && MessagesOfTracks(f.tracks) == [[0xF0] + a, [0xF0] + b]
  {
    hide Body, Vlq, MessageOf;
    assert WriteTrack([]) == [] && MessagesOf([]) == [];
    MoreSysEx(b, []);
    MoreSysEx(a, [SysEx(0, b)]);
    hide WriteTrack, MessagesOf, LegalTrack, TameTrack;
    var events := [SysEx(0, a), SysEx(0, b)];
    assert [SysEx(0, b)] + [] == [SysEx(0, b)] && [SysEx(0, a)] + [SysEx(0, b)] == events;
    OneTrack(events);
  }

  lemma {:induction false} OneTrack(events: seq<Event>)
    ensures MessagesOfTracks([events]) == MessagesOf(events)
  {
    hide MessagesOf;
    var none: seq<seq<Event>> := [];
    assert [events][1..] == none;
    AppendNone(MessagesOf(events));
  }

  lemma {:induction false} ShadowedEntry(ms: seq<bytes>, data: bytes, e: Entry)
    requires ms == [LONG, SHORT] && e.payload == SingleFields(SHORT).value.payload
    requires e.raw == RawFor(ms, e.payload, data)
    ensures e.raw == LONG && HitOf(e) == Some(Hit(BC, e.file, e.index, LONG)) && Carries(e.raw, e.payload)
    ensures Shadowed(ms, SHORT, data)
  {
    LongBytes();
    ShortBytes();
    hide LONG, SHORT;
    assert Carries(LONG, e.payload);
    hide Carries, SingleFields, Checksum;
  }

  lemma {:induction false} TwoMessages()
    ensures TameFile(TWO_DUMPS) && FxMessages(TWO_DUMPS.Serialize()) == Ok([LONG, SHORT])
    ensures SingleFields(SHORT).Some?
  {
    LongBytes();
    ShortBytes();
    assert LONG[523] == 0xF7;
    hide LONG, SHORT, FxMessages, TameFile, SingleFields;
    assert EndsF7(LONG[1..]) && EndsF7(SHORT[1..]);
    TwoSysEx(LONG[1..], SHORT[1..]);
    FxFindsAllMessages(TWO_DUMPS);
  }

  /** A B/C dump behind a TI dump that begins with its payload: the index keeps it as a B/C
      hit on the TI dump, and neither is it framed as one nor does it verify anything. */
  lemma {:induction false} ShadowedFile(vocab: Vocabulary, isFx: string -> bool)
    ensures TWO_DUMPS.Valid()
    ensures var file := CorpusFile("two.mid", StdMidi, TWO_DUMPS.Serialize());
            && FxMessages(file.data) == Ok([LONG, SHORT]) && !NoShadow(file)
            && exists sig, h :: h in Found(AllEntries([file]), sig, vocab, isFx) && h.model == BC && h.dump == LONG
                                && Framed(h.dump, TI) && !Verified(h, sig, vocab, isFx)
  {
    TwoMessages();
    hide LONG, SHORT, FxMessages, SingleFields, HitOf, Found, MidiEntries, Shadowed, SignatureOf, ByteVerified, Carries,
      RawFor, File.Serialize, File.Valid;
    var file := CorpusFile("two.mid", StdMidi, TWO_DUMPS.Serialize());
    var ms, data := [LONG, SHORT], file.data;
    MidiEntryOf("two.mid", ms, data, 2, 1);
    var e :| e in MidiEntries("two.mid", ms, data, 2) && e.payload == SingleFields(ms[1]).value.payload
             && e.raw == RawFor(ms, e.payload, data);
    ShadowedEntry(ms, data, e);
    assert ms[1] in ms;
    AllOfOne(file);
    var h, sig := HitOf(e).value, SignatureOf(e, vocab, isFx);
    FoundFrom(AllEntries([file]), sig, vocab, isFx, h);
    HitVerified(e, vocab, isFx);
    LongBytes();
    assert h in Found(AllEntries([file]), sig, vocab, isFx) && !Verified(h, sig, vocab, isFx);
  }

  lemma {:induction false} AllOfOne(f: CorpusFile)
    ensures AllEntries([f]) == EntriesOf(f)
  {
    hide EntriesOf;
    assert [f][..0] == [];
    AppendNone(EntriesOf(f));
  }
}
