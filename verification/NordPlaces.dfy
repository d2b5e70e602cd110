/** Which bytes of a Nord dump a parameter name stands for, in absolute positions. */
module NordPlaces {
  import opened Bytes
  import opened NordSyx
  import opened NordDump
  import opened NordWriter
  import opened NordLaws
  import opened NordReader
  import opened NordMorphs
  import Smf
  import M = Morph

  predicate IsBitName(n: string) {
    n == "sync" || n == "ringmod" || n == "distortion"
  }

  ghost predicate SetsBits(o: map<string, int>) {
    "sync" in o || "ringmod" in o || "distortion" in o
  }

  // ----- One dump -----

  /** The decoder reads parameter i from the low nibble at 6 + 2 * i and the byte after it. */
  lemma {:induction false} ParameterAt(d: bytes, i: nat)
    requires |d| >= 139 && i < 66
    ensures i < |Decoded(d)| && Decoded(d)[i] == d[6 + 2 * i] % 16 + 16 * (d[7 + 2 * i] as int)
  {
  }

  lemma {:induction false} PlannedName(o: map<string, int>, vocab: Vocabulary, n: string)
    requires ValidVocabulary(vocab) && n in o && n in vocab && !IsBitName(n)
    ensures vocab[n] in Planned(o, vocab) && Planned(o, vocab)[vocab[n]] == o[n]
  {
  }

  /** A named override leaves its value in the low nibbles of its two bytes, unless byte 52's
      bits come after it. */
  lemma {:induction false} NamedAt(d: bytes, o: map<string, int>, vocab: Vocabulary, n: string)
    requires |d| >= 138 && ValidVocabulary(vocab) && Rewritten(d, o, vocab).Ok?
    requires n in o && n in vocab && !IsBitName(n) && (vocab[n] == 52 ==> !SetsBits(o))
    ensures var r, i := Rewritten(d, o, vocab).value, vocab[n];
            && 0 <= o[n] <= 127 && i < 66 && |r| == |d|
            && r[6 + 2 * i] == d[6 + 2 * i] / 16 * 16 + o[n] % 16
            && r[7 + 2 * i] == d[7 + 2 * i] / 16 * 16 + o[n] / 16
  {
    hide Rewritten, Planned, ValidVocabulary;
    var i := vocab[n];
    RewriteSucceeds(d, o, vocab);
    PlannedName(o, vocab, n);
    VocabularyIndex(vocab, n);
    assert (6 + 2 * i - 6) / 2 == i && (7 + 2 * i - 6) / 2 == i;
    RewrittenByte(d, o, vocab, 6 + 2 * i);
    RewrittenByte(d, o, vocab, 7 + 2 * i);
  }

  lemma {:induction false} VocabularyIndex(vocab: Vocabulary, n: string)
    requires ValidVocabulary(vocab) && n in vocab
    ensures vocab[n] < 66
  {
  }

  /** Bytes in front of the parameters, behind them and of parameters nothing names are kept. */
  lemma {:induction false} KeptAt(d: bytes, o: map<string, int>, vocab: Vocabulary, k: nat)
    requires |d| >= 138 && ValidVocabulary(vocab) && Rewritten(d, o, vocab).Ok? && k < |d|
    requires forall n :: n in o && n in vocab && !IsBitName(n) ==> k != 6 + 2 * vocab[n] && k != 7 + 2 * vocab[n]
    requires SetsBits(o) ==> k != 110 && k != 111
    ensures |Rewritten(d, o, vocab).value| == |d| && Rewritten(d, o, vocab).value[k] == d[k]
  {
    hide Rewritten;
    RewrittenFrame(d, o, vocab, k);
    if 6 <= k {
      var i := (k - 6) / 2;
      assert k == 6 + 2 * i || k == 7 + 2 * i;
      NotPlanned(o, vocab, i);
    }
  }

  /** x is parameter 52 before its bits: its own override, or what the dump holds. */
  ghost predicate Before52(d: bytes, o: map<string, int>, vocab: Vocabulary, x: int)
    requires |d| >= 138
  {
    if exists n :: n in o && n in vocab && !IsBitName(n) && vocab[n] == 52 then
      exists n :: n in o && n in vocab && !IsBitName(n) && vocab[n] == 52 && x == o[n]
    else x == d[110] % 16 + 16 * (d[111] as int)
  }

  /** With a bit override, parameter 52 has its bits 0, 1 and 4 as named and every other bit
      as before. */
  lemma {:induction false} BitsAt(d: bytes, o: map<string, int>, vocab: Vocabulary, x: int)
    requires |d| >= 138 && ValidVocabulary(vocab) && Rewritten(d, o, vocab).Ok? && SetsBits(o)
    requires Before52(d, o, vocab, x)
    ensures |Rewritten(d, o, vocab).value| == |d| && x >= 0
    ensures var r := Rewritten(d, o, vocab).value;
            var v := r[110] % 16 + 16 * (r[111] as int);
            && v % 2 == (if "sync" in o then o["sync"] else x % 2)
            && v / 2 % 2 == (if "ringmod" in o then o["ringmod"] else x / 2 % 2)
            && v / 4 % 4 == x / 4 % 4
            && v / 16 % 2 == (if "distortion" in o then o["distortion"] else x / 16 % 2)
            && v / 32 == x / 32
            && r[110] / 16 == d[110] / 16 && r[111] / 16 == d[111] / 16
  {
    hide Rewritten, WithBits, Join, Planned, ValidVocabulary;
    assert HasBits(o) by {
      assert IsBit("sync") && IsBit("ringmod") && IsBit("distortion");
    }
    RewriteSucceeds(d, o, vocab);
    RewrittenDecodes(d, o, vocab, 52);
    RewrittenFrame(d, o, vocab, 110);
    RewrittenFrame(d, o, vocab, 111);
    Planned52(d, o, vocab, x);
    Bits(x, o);
  }

  lemma {:induction false} Planned52(d: bytes, o: map<string, int>, vocab: Vocabulary, x: int)
    requires |d| >= 138 && ValidVocabulary(vocab) && Before52(d, o, vocab, x)
    requires d[111] < if 52 in Planned(o, vocab) then 16 else 8
    ensures PlannedValue(d, Planned(o, vocab), 52) == x
  {
    hide Planned, PlannedOf, ByteNames, IndicesOf, ValidVocabulary;
    if n :| n in o && n in vocab && !IsBitName(n) && vocab[n] == 52 && x == o[n] {
      PlannedName(o, vocab, n);
    } else {
      NotPlanned(o, vocab, 52);
    }
  }

  lemma {:induction false} NotPlanned(o: map<string, int>, vocab: Vocabulary, i: nat)
    requires ValidVocabulary(vocab) && forall n :: n in o && n in vocab && !IsBitName(n) ==> vocab[n] != i
    ensures i !in Planned(o, vocab)
  {
  }

  lemma {:induction false} Bits(x: nat, o: map<string, int>)
    requires forall n :: n in o && IsBit(n) ==> 0 <= o[n] <= 1
    ensures var v := WithBits(x, o);
            && v >= 0 && v % 2 == (if "sync" in o then o["sync"] else x % 2)
            && v / 2 % 2 == (if "ringmod" in o then o["ringmod"] else x / 2 % 2)
            && v / 4 % 4 == x / 4 % 4
            && v / 16 % 2 == (if "distortion" in o then o["distortion"] else x / 16 % 2)
            && v / 32 == x / 32
  {
    assert IsBit("sync") && IsBit("ringmod") && IsBit("distortion");
    var s := if "sync" in o then o["sync"] else x % 2;
    var r := if "ringmod" in o then o["ringmod"] else x / 2 % 2;
    var d := if "distortion" in o then o["distortion"] else x / 16 % 2;
    JoinedBits(s, r, x / 4 % 4, d, x / 32);
    hide Join;
  }

  lemma {:induction false} JoinedBits(s: nat, r: nat, mid: nat, d: nat, high: nat)
    requires s < 2 && r < 2 && mid < 4 && d < 2
    ensures var v := Join(s, r, mid, d, high);
            v >= 0 && v % 2 == s && v / 2 % 2 == r && v / 4 % 4 == mid && v / 16 % 2 == d && v / 32 == high
  {
    JoinBits(s, r, mid, d, high);
    var v := Join(s, r, mid, d, high);
    assert v / 4 == mid + 4 * (d + 2 * high);
    assert v / 32 == high;
  }

  // ----- A file and a morph step -----

  /** The dump that is rewritten: from the first F0 33 dev 04 to the first F7 behind it. */
  lemma {:induction false} FirstDumpAt(data: bytes)
    requires RawFile(data)
    ensures Spans(data, 0) != []
    ensures var s := Spans(data, 0)[0];
            && s.start + 138 <= s.end < |data| && data[s.start] == 0xF0 && data[s.start + 1] == 0x33
            && data[s.start + 3] == 0x04 && data[s.end] == 0xF7
            && (forall k :: s.start <= k < s.end ==> data[k] != 0xF7)
            && forall k :: 0 <= k < s.start ==> !(data[k] == 0xF0 && data[k + 1] == 0x33 && data[k + 3] == 0x04)
  {
    SpanFramed(data, 0);
    var s := Spans(data, 0)[0];
    hide Spans, Classify;
    forall k | 0 <= k < s.start ensures !(data[k] == 0xF0 && data[k + 1] == 0x33 && data[k + 3] == 0x04) {
      NoAnchorBefore(data, 0, s, k);
    }
  }

  /** A written step in bytes: every key of A has in the first dump's low nibbles the integer
      that the step's place between A and B gives. */
  lemma {:induction false} StepByte(c: M.Chain, data: bytes, names: map<string, nat>, vocab: Vocabulary,
      at: M.Position, key: string)
    requires RawFile(data) && VerifiedChain(c, Decoded(FirstDump(data)), names, vocab) && at.Valid() && key in c.a
    requires key in vocab
    ensures StepFile(data, Decoded(FirstDump(data)), vocab, c.Intermediate(at).params).Ok?
    ensures var out := StepFile(data, Decoded(FirstDump(data)), vocab, c.Intermediate(at).params).value;
            var p := Spans(data, 0)[0].start + 6 + 2 * vocab[key];
            && p + 1 < |out| == |data|
            && M.WrittenFor(c, at, key, out[p] % 16 + 16 * (out[p + 1] as int))
  {
    hide M.Chain.Intermediate, Ints, RawFile, Spans, FirstDump, Decoded, StepFile, Changes, BreaksSpan, M.WrittenFor;
    StepIsFaithful(c, data, names, vocab, at);
    FirstDumpAt(data);
    var out := StepFile(data, Decoded(FirstDump(data)), vocab, c.Intermediate(at).params).value;
    var s := Spans(data, 0)[0];
    KeyIsWritten(c, names, vocab, Decoded(FirstDump(data)), at, key);
    ParameterAt(out[s.start..s.end + 1], vocab[key]);
  }

  lemma {:induction false} KeyIsWritten(c: M.Chain, names: map<string, nat>, vocab: Vocabulary, base: seq<int>,
      at: M.Position, key: string)
    requires |base| == PARAMS && VerifiedChain(c, base, names, vocab) && key in c.a
    requires Ints(c.Intermediate(at).params).Ok?
    ensures key in Ints(c.Intermediate(at).params).value && key in vocab && vocab[key] < 66
    ensures M.WrittenFor(c, at, key, Ints(c.Intermediate(at).params).value[key])
  {
    M.StepIsWritten(c, at, key);
    hide M.Chain.Intermediate, M.WrittenFor, ByteVerified;
  }

  // ----- Refusals -----

  /** The first four bytes are MThd or RIFF. */
  predicate HasContainer(data: bytes) {
    && |data| >= 4
    && (data[..4] == [0x4D, 0x54, 0x68, 0x64] || data[..4] == [0x52, 0x49, 0x46, 0x46])
  }

  /** F0 33 dev 04 at i, and an F7 behind it. */
  predicate StartsAt(data: bytes, i: nat) {
    && i + 4 <= |data| && data[i] == 0xF0 && data[i + 1] == 0x33 && data[i + 3] == 0x04
    && 0xF7 in data[i..]
  }

  lemma {:induction false} NoSpans(data: bytes, i: nat)
    requires i <= |data|
    ensures Spans(data, i) != [] <==> exists k :: i <= k <= |data| && StartsAt(data, k)
    decreases |data| - i
  {
    if i < |data| {
      if Anchor(data, i) {
        FoundIn(data, i);
        assert Find(data, 0xF7, i) >= 0 ==> StartsAt(data, i);
        forall k | i <= k <= |data| && Find(data, 0xF7, i) < 0 ensures !StartsAt(data, k) {
          assert 0xF7 !in data[k..];
        }
      } else {
        NoSpans(data, i + 1);
      }
    }
  }

  lemma {:induction false} FoundIn(data: bytes, i: nat)
    requires i <= |data|
    ensures Find(data, 0xF7, i) >= 0 <==> 0xF7 in data[i..]
    ensures Find(data, 0xF7, i) < 0 ==> forall k :: i <= k <= |data| ==> 0xF7 !in data[k..]
  {
    if Find(data, 0xF7, i) >= 0 {
      assert data[i..][Find(data, 0xF7, i) - i] == 0xF7;
    }
  }

  /** Why overrides are refused: an unknown name before a bad bit, and both before a byte
      out of range or bits over a parameter 52 whose second container byte is too large. */
  lemma {:induction false} OverrideRefusals(d: bytes, o: map<string, int>, vocab: Vocabulary)
    requires |d| >= 138 && ValidVocabulary(vocab)
    ensures var r := Rewritten(d, o, vocab);
            var unknown, badBit := exists n :: n in o && !IsBitName(n) && n !in vocab,
                                   exists n :: n in o && IsBitName(n) && !(0 <= o[n] <= 1);
            && (r == Err(UnknownName) <==> unknown)
            && (r == Err(BadBit) <==> !unknown && badBit)
            && (r.Err? ==> r.error == UnknownName || r.error == BadBit || r.error == OutOfRange)
            && (r.Ok? <==>
                  && !unknown && !badBit && (forall n :: n in o && !IsBitName(n) ==> 0 <= o[n] <= 127)
                  && (SetsBits(o) ==> d[111] < if Names52(o, vocab) then 16 else 8))
  {
    RewriteSucceeds(d, o, vocab);
    BitNamesAlike(o);
    NamedIsPlanned(o, vocab);
    hide Planned, Planted, ValidVocabulary, WithBits;
  }

  ghost predicate Names52(o: map<string, int>, vocab: Vocabulary) {
    exists n :: n in o && n in vocab && !IsBitName(n) && vocab[n] == 52
  }

  lemma {:induction false} NamedIsPlanned(o: map<string, int>, vocab: Vocabulary)
    requires ValidVocabulary(vocab)
    ensures Names52(o, vocab) <==> 52 in Planned(o, vocab)
  {
    if n :| n in o && n in vocab && !IsBitName(n) && vocab[n] == 52 {
      PlannedName(o, vocab, n);
    } else {
      NotPlanned(o, vocab, 52);
    }
  }

  lemma {:induction false} BitNamesAlike(o: map<string, int>)
    ensures HasBits(o) <==> SetsBits(o)
    ensures forall n :: IsBit(n) <==> IsBitName(n)
  {
    assert IsBit("sync") && IsBit("ringmod") && IsBit("distortion");
  }

  lemma {:induction false} ContainerIs(data: bytes)
    ensures HasContainer(data) <==> Slice(data, 0, 4) == Smf.MTHD || Slice(data, 0, 4) == RIFF
  {
  }

  lemma {:induction false} ShapeIs(payload: bytes)
    requires |payload| >= 3 && payload[0] == 0x33 && payload[2] == 0x04
    ensures Classify(payload).Some? <==> |payload| + 2 in {139, 149, 715, 725, 1063, 1073}
  {
  }

  /** Why write_patch refuses a file: its container, no dump, a first dump of no known
      length, or else the overrides. */
  lemma {:induction false} FileRefusals(data: bytes, o: map<string, int>, vocab: Vocabulary)
    requires ValidVocabulary(vocab)
    ensures Patched(data, o, vocab) == Err(NotRaw) <==> HasContainer(data)
    ensures Patched(data, o, vocab) == Err(NoDump) <==>
            !HasContainer(data) && forall k :: 0 <= k <= |data| ==> !StartsAt(data, k)
    ensures Patched(data, o, vocab) == Err(BadShape) <==>
            && !HasContainer(data) && Spans(data, 0) != []
            && var s := Spans(data, 0)[0];
               s.end - s.start + 1 !in {139, 149, 715, 725, 1063, 1073}
  {
    hide Spans, Rewritten, Classify, StartsAt, Slice, HasContainer, ValidVocabulary, SetsBits, Names52;
    NoSpans(data, 0);
    ContainerIs(data);
    if Spans(data, 0) != [] {
      SpanFramed(data, 0);
      var s := Spans(data, 0)[0];
      ShapeOfSpan(data, s.start, s.end);
      if Classify(data[s.start + 1..s.end]).Some? {
        OverrideRefusals(data[s.start..s.end + 1], o, vocab);
      }
    }
  }

  lemma {:induction false} ShapeOfSpan(data: bytes, start: nat, end: nat)
    requires start < end < |data| && Anchor(data, start) && end == Find(data, 0xF7, start)
    ensures var shape := Classify(data[start + 1..end]);
            && (shape.Some? <==> end - start + 1 in {139, 149, 715, 725, 1063, 1073})
            && (shape.Some? ==> end - start + 1 >= 138)
  {
    if end >= start + 4 {
      ShapeIs(data[start + 1..end]);
    }
  }
}
