/** microwave_patch and the xenia branch of the harvest: the two key spaces of the
    bank sidecars, and their agreement with the bank loader. */
module Microwave {
  import opened Bytes
  import opened Dictionaries
  import opened Text
  import opened XeniaDump
  import opened XeniaBank
  import XeniaSysex
  import opened SysexBlocks

  // ----- Names -----

  /** A field that reads as a name: printable, and not blank. */
  predicate GoodName(raw: bytes) {
    PrintableField(raw) && RStrip(Decoded(Slice(raw, 0, NAME_LEN))) != ""
  }

  datatype Found = Found(name: string, off: int)

  function Window(body: bytes, off: nat): bytes
    requires off + NAME_LEN <= |body|
  {
    body[off..off + NAME_LEN]
  }

  /** The first window at or after off that starts printable and reads as a name. */
  function Search(body: bytes, off: nat): Found
    decreases |body| - off
  {
    if off + NAME_LEN > |body| then Found("", -1)
    else if Printable(body[off]) && PrintableField(Window(body, off)) then
      Found(RStrip(Decoded(Window(body, off))), off)
    else Search(body, off + 1)
  }

  /** _find_name: the preferred offset if it reads as a name, else a search of the last 40 bytes. */
  function FindName(body: bytes, preferred: nat): Found {
    if preferred + NAME_LEN <= |body| && PrintableField(Window(body, preferred)) then
      Found(RStrip(Decoded(Window(body, preferred))), preferred)
    else Search(body, if |body| > 40 then |body| - 40 else 0)
  }

  method FindNameLoop(body: bytes, preferred: nat) returns (r: Found)
    ensures r == FindName(body, preferred)
  {
    if preferred + NAME_LEN <= |body| && PrintableField(Window(body, preferred)) {
      return Found(RStrip(Decoded(Window(body, preferred))), preferred);
    }
    var start := if |body| > 40 then |body| - 40 else 0;
    var off: nat := start;
    while off + NAME_LEN <= |body|
      invariant Search(body, off) == Search(body, start)
    {
      if Printable(body[off]) && PrintableField(Window(body, off)) {
        return Found(RStrip(Decoded(Window(body, off))), off);
      }
      off := off + 1;
    }
    return Found("", -1);
  }

  /** The sixteen bytes at off are printable or NUL, not all NUL. */
  predicate NameAt(body: bytes, off: nat) {
    && off + 16 <= |body|
    && var raw := body[off..off + 16];
    && (forall b :: b in raw ==> b == 0 || 32 <= b < 127)
    && (exists b :: b in raw && 32 <= b < 127)
  }

  lemma {:induction false} NameAtIsField(body: bytes, off: nat)
    ensures NameAt(body, off) <==> off + NAME_LEN <= |body| && PrintableField(Window(body, off))
  {
    if off + 16 <= |body| {
      var raw := body[off..off + 16];
      assert forall i :: 0 <= i < 16 ==> raw[i] in raw;
    }
  }

  /** A name is found at the preferred place if one is there, else at the first place of the
      last forty bytes where one starts with a character. */
  lemma {:induction false} NameIsFoundAt(body: bytes, preferred: nat)
    ensures var f, low := FindName(body, preferred).off, if |body| > 40 then |body| - 40 else 0;
            if NameAt(body, preferred) then f == preferred
            else if f == -1 then forall off: nat :: low <= off && NameAt(body, off) ==> !(32 <= body[off] < 127)
            else && low <= f && NameAt(body, f) && 32 <= body[f] < 127
                 && forall off: nat :: low <= off < f && NameAt(body, off) ==> !(32 <= body[off] < 127)
  {
    NameAtIsField(body, preferred);
    hide NameAt, PrintableField;
    if !NameAt(body, preferred) {
      SearchFindsFirst(body, if |body| > 40 then |body| - 40 else 0);
    }
  }

  lemma {:induction false} SearchFindsFirst(body: bytes, low: nat)
    ensures var f := Search(body, low).off;
            if f == -1 then forall off: nat :: low <= off && NameAt(body, off) ==> !(32 <= body[off] < 127)
            else && low <= f && NameAt(body, f) && 32 <= body[f] < 127
                 && forall off: nat :: low <= off < f && NameAt(body, off) ==> !(32 <= body[off] < 127)
    decreases |body| - low
  {
    NameAtIsField(body, low);
    if low + NAME_LEN <= |body| {
      SearchFindsFirst(body, low + 1);
    }
    hide PrintableField;
  }

  // ----- parse_mid -----

  datatype MidPatch = MidPatch(name: string, nameOffset: int, params: map<int, int>)

  predicate IsMw2(msg: bytes) {
    |msg| >= 5 && msg[0] == 0x3E && msg[1] == 0x0E
  }

  /** The patch of one payload: a single dump with a name. */
  function PatchOf(msg: bytes): Option<MidPatch> {
    if !IsMw2(msg) || msg[3] != 0x10 then None
    else
      var body := msg[4..];
      var f := FindName(body, 242);
      if f.name == "" then None
      else Some(MidPatch(f.name, f.off, map i | 0 <= i < f.off && i < |body| :: body[i] as int))
  }

  function CommandOf(msg: bytes): Option<byte> {
    if IsMw2(msg) then Some(msg[3]) else None
  }

  /** parse_mid: the patches, and how many messages of each command were seen. */
  method ParseMid(data: bytes) returns (patches: seq<MidPatch>, counts: map<byte, nat>)
    ensures patches == Keep(Keep(XeniaSysex.RawMessages(data), Inner), PatchOf)
    ensures var commands := multiset(Keep(Keep(XeniaSysex.RawMessages(data), Inner), CommandOf));
            forall c :: (c in counts <==> c in commands) && (c in counts ==> counts[c] == commands[c])
  {
    hide XeniaSysex.RawMessages, PatchOf, CommandOf;
    var msgs := Blocks(data);
    patches, counts := [], map[];
    ghost var seen: seq<byte> := [];
    for i := 0 to |msgs|
      invariant patches + Keep(msgs[i..], PatchOf) == Keep(msgs, PatchOf)
      invariant seen + Keep(msgs[i..], CommandOf) == Keep(msgs, CommandOf)
      invariant forall c :: (c in counts <==> c in multiset(seen)) && (c in counts ==> counts[c] == multiset(seen)[c])
    {
      var msg := msgs[i];
      KeepTurn(msgs, PatchOf, i);
      KeepTurn(msgs, CommandOf, i);
      ghost var laterPatches, laterCommands := Keep(msgs[i + 1..], PatchOf), Keep(msgs[i + 1..], CommandOf);
      AppendNone(laterPatches);
      AppendNone(laterCommands);
      PatchNeedsCommand(msg);
      if IsMw2(msg) {
        counts := counts[msg[3] := (if msg[3] in counts then counts[msg[3]] else 0) + 1];
        AppendAssoc(seen, [msg[3]], laterCommands);
        seen := seen + [msg[3]];
        var patch := PatchOf(msg);
        if patch.Some? {
          AppendAssoc(patches, [patch.value], laterPatches);
          patches := patches + [patch.value];
        }
      }
    }
    AppendNone(patches);
    AppendNone(seen);
  }

  lemma {:induction false} PatchNeedsCommand(msg: bytes)
    ensures PatchOf(msg).Some? ==> IsMw2(msg)
    ensures CommandOf(msg) == if IsMw2(msg) then Some(msg[3]) else None
  {
  }

  // ----- parse_usb -----

  function UsbPatchOf(rec: bytes): Option<MidPatch>
    requires |rec| == USB_RECORD
  {
    var f := FindName(rec, PARAM_COUNT);
    if f.name == "" then None else Some(MidPatch(f.name, f.off, RecordParams(rec)))
  }

  function UsbPatches(data: bytes, n: nat): seq<MidPatch>
    requires n * USB_RECORD <= |data|
  {
    if n == 0 then []
    else
      var p := UsbPatchOf(data[(n - 1) * USB_RECORD..n * USB_RECORD]);
      UsbPatches(data, n - 1) + if p.Some? then [p.value] else []
  }

  method ParseUsb(data: bytes) returns (r: Option<seq<MidPatch>>)
    ensures r == if |data| % USB_RECORD != 0 || data == [] then None else Some(UsbPatches(data, |data| / USB_RECORD))
  {
    hide UsbPatchOf;
    if |data| % USB_RECORD != 0 || data == [] {
      return None;
    }
    var patches: seq<MidPatch> := [];
    for idx := 0 to |data| / USB_RECORD
      invariant patches == UsbPatches(data, idx)
    {
      var p := UsbPatchOf(data[idx * USB_RECORD..(idx + 1) * USB_RECORD]);
      AppendNone(patches);
      if p.Some? {
        patches := patches + [p.value];
      }
    }
    return Some(patches);
  }

  // ----- The harvest's labels -----

  type Vocabulary = map<int, string>

  ghost predicate InjectiveVocabulary(vocab: Vocabulary) {
    forall i, j :: i in vocab && j in vocab && vocab[i] == vocab[j] ==> i == j
  }

  /** The vocabulary index of a sidecar key: .mid keys count the bank and program bytes. */
  function IndexOf(k: int, shifted: bool): Option<int> {
    if shifted then
      if 2 <= k <= 241 then Some(k - 2) else None
    else if k > 239 then None
    else Some(k)
  }

  /** The name of a sidecar key, if the vocabulary has one. */
  function Named(k: int, shifted: bool, vocab: Vocabulary): Option<string> {
    var i := IndexOf(k, shifted);
    if i.Some? && i.value in vocab then Some(vocab[i.value]) else None
  }

  /** The keys that the vocabulary names. */
  ghost function NamedKeys(values: map<int, int>, shifted: bool, vocab: Vocabulary): set<int> {
    set k | k in values && IndexOf(k, shifted).Some? && IndexOf(k, shifted).value in vocab
  }

  ghost function NameOf(k: int, shifted: bool, vocab: Vocabulary): string
    requires IndexOf(k, shifted).Some? && IndexOf(k, shifted).value in vocab
  {
    vocab[IndexOf(k, shifted).value]
  }

  ghost function NamesOf(keys: set<int>, shifted: bool, vocab: Vocabulary): set<string>
    requires forall k :: k in keys ==> IndexOf(k, shifted).Some? && IndexOf(k, shifted).value in vocab
  {
    set k | k in keys :: NameOf(k, shifted, vocab)
  }

  ghost function KeyAt(keys: set<int>, shifted: bool, vocab: Vocabulary, n: string): (k: int)
    requires forall k :: k in keys ==> IndexOf(k, shifted).Some? && IndexOf(k, shifted).value in vocab
    requires n in NamesOf(keys, shifted, vocab)
    ensures k in keys && NameOf(k, shifted, vocab) == n
  {
    var k :| k in keys && NameOf(k, shifted, vocab) == n;
    k
  }

  /** The named parameters of one patch, under a vocabulary that names no index twice. */
  ghost function Label(values: map<int, int>, shifted: bool, vocab: Vocabulary): map<string, int>
    requires InjectiveVocabulary(vocab)
  {
    var keys := NamedKeys(values, shifted, vocab);
    map n | n in NamesOf(keys, shifted, vocab) :: values[KeyAt(keys, shifted, vocab, n)]
  }

  function NamedIn(shifted: bool, vocab: Vocabulary): int -> Option<string> {
    k => Named(k, shifted, vocab)
  }

  lemma {:induction false} LabelHolds(values: map<int, int>, shifted: bool, vocab: Vocabulary)
    requires InjectiveVocabulary(vocab)
    ensures Holds(Label(values, shifted, vocab), values, NamedIn(shifted, vocab))
  {
    hide IndexOf, InjectiveVocabulary;
    var keys, labels := NamedKeys(values, shifted, vocab), Label(values, shifted, vocab);
    forall k | k in values && Named(k, shifted, vocab).Some?
      ensures Named(k, shifted, vocab).value in labels && labels[Named(k, shifted, vocab).value] == values[k]
    {
      assert k in keys && NameOf(k, shifted, vocab) == Named(k, shifted, vocab).value;
      KeyUnique(keys, shifted, vocab, k);
    }
    forall n | n in labels ensures exists k :: k in values && Named(k, shifted, vocab) == Some(n) {
      assert Named(KeyAt(keys, shifted, vocab, n), shifted, vocab) == Some(n);
    }
  }

  lemma {:induction false} KeyUnique(keys: set<int>, shifted: bool, vocab: Vocabulary, k: int)
    requires InjectiveVocabulary(vocab) && k in keys
    requires forall k :: k in keys ==> IndexOf(k, shifted).Some? && IndexOf(k, shifted).value in vocab
    ensures NameOf(k, shifted, vocab) in NamesOf(keys, shifted, vocab)
    ensures KeyAt(keys, shifted, vocab, NameOf(k, shifted, vocab)) == k
  {
  }

  /** The xenia branch of iter_patch_configs, for one patch with its keys in order. */
  method LabelPatch(values: map<int, int>, order: seq<int>, shifted: bool,
      vocab: Vocabulary) returns (named: map<string, int>)
    requires ListsOnce(order, values.Keys)
    ensures FilledInOrder(named, values, order, NamedIn(shifted, vocab))
    ensures InjectiveVocabulary(vocab) ==> named == Label(values, shifted, vocab)
  {
    hide FilledInOrder, InjectiveVocabulary, Label;
    named := map[];
    NothingFilled(values, order, NamedIn(shifted, vocab));
    for i := 0 to |order|
      invariant FilledInOrder(named, values, order[..i], NamedIn(shifted, vocab))
    {
      OneMoreKey(named, values, order, i, NamedIn(shifted, vocab));
      var idx := order[i];
      assert idx in order;
      var k := idx;
      if shifted {
        if !(2 <= k <= 241) {
          continue;
        }
        k := k - 2;
      } else if k > 239 {
        continue;
      }
      if k in vocab {
        named := named[vocab[k] := values[idx]];
      }
    }
    assert order[..|order|] == order;
    if InjectiveVocabulary(vocab) {
      InjectiveOrder(named, values, order, shifted, vocab);
    }
  }

  lemma {:induction false} OneIndex(k: int, l: int, shifted: bool, vocab: Vocabulary)
    requires InjectiveVocabulary(vocab)
    requires Named(k, shifted, vocab).Some? && Named(k, shifted, vocab) == Named(l, shifted, vocab)
    ensures k == l
  {
  }

  lemma {:induction false} InjectiveOrder(named: map<string, int>, values: map<int, int>, order: seq<int>,
      shifted: bool, vocab: Vocabulary)
    requires ListsOnce(order, values.Keys) && FilledInOrder(named, values, order, NamedIn(shifted, vocab))
    requires InjectiveVocabulary(vocab)
    ensures named == Label(values, shifted, vocab)
  {
    hide Label, FilledInOrder, Holds, Named, InjectiveVocabulary;
    LabelHolds(values, shifted, vocab);
    forall k, l | Named(k, shifted, vocab).Some? && Named(k, shifted, vocab) == Named(l, shifted, vocab)
      ensures k == l
    {
      OneIndex(k, l, shifted, vocab);
    }
    OrderDoesNotMatter(named, values, order, NamedIn(shifted, vocab), Label(values, shifted, vocab));
  }

  // ----- The key spaces agree -----

  ghost function RowNames(params: seq<int>, vocab: Vocabulary): set<string> {
    set i | i in vocab && 0 <= i < |params| && i < PARAM_COUNT :: vocab[i]
  }

  ghost function RowIndex(params: seq<int>, vocab: Vocabulary, n: string): (i: int)
    requires n in RowNames(params, vocab)
    ensures i in vocab && 0 <= i < |params| && i < PARAM_COUNT && vocab[i] == n
  {
    var i :| i in vocab && 0 <= i < |params| && i < PARAM_COUNT && vocab[i] == n;
    i
  }

  /** The bank loader's parameters under the vocabulary. */
  ghost function RowLabel(params: seq<int>, vocab: Vocabulary): map<string, int>
    requires InjectiveVocabulary(vocab)
  {
    map n | n in RowNames(params, vocab) :: params[RowIndex(params, vocab, n)]
  }

  ghost predicate HasKeys(values: map<int, int>, n: nat) {
    forall k :: k in values <==> 0 <= k < n
  }

  /** The sidecar key of a parameter. */
  function KeyOf(i: int, shifted: bool): int {
    if shifted then i + 2 else i
  }

  /** A sidecar's values are the parameters under its own keys, and nothing the labelling takes besides. */
  ghost predicate Carries(values: map<int, int>, params: seq<int>, shifted: bool) {
    && |params| == PARAM_COUNT && HasKeys(values, if shifted then 242 else PARAM_COUNT)
    && forall i :: 0 <= i < PARAM_COUNT ==> values[KeyOf(i, shifted)] == params[i]
  }

  lemma {:induction false} LabelledFrom(values: map<int, int>, params: seq<int>, shifted: bool, vocab: Vocabulary,
      n: string)
    requires InjectiveVocabulary(vocab) && Carries(values, params, shifted) && n in Label(values, shifted, vocab)
    ensures exists i ::
              i in vocab && 0 <= i < PARAM_COUNT && vocab[i] == n && Label(values, shifted, vocab)[n] == params[i]
  {
    var k :| k in values && IndexOf(k, shifted).Some? && IndexOf(k, shifted).value in vocab
             && vocab[IndexOf(k, shifted).value] == n;
    var i := IndexOf(k, shifted).value;
    assert k == KeyOf(i, shifted) && 0 <= i < PARAM_COUNT;
    hide InjectiveVocabulary;
    assert values[KeyOf(i, shifted)] == params[i];
  }

  lemma {:induction false} LabelledTo(values: map<int, int>, params: seq<int>, shifted: bool, vocab: Vocabulary, i: int)
    requires InjectiveVocabulary(vocab) && Carries(values, params, shifted) && i in vocab && 0 <= i < PARAM_COUNT
    ensures vocab[i] in Label(values, shifted, vocab)
  {
    hide InjectiveVocabulary;
    var k := KeyOf(i, shifted);
    assert k in values && IndexOf(k, shifted) == Some(i);
    assert k in NamedKeys(values, shifted, vocab) && NameOf(k, shifted, vocab) == vocab[i];
  }

  /** Labelling a sidecar gives the parameters under the vocabulary. */
  lemma {:induction false} LabelIs(values: map<int, int>, params: seq<int>, shifted: bool, vocab: Vocabulary)
    requires InjectiveVocabulary(vocab) && Carries(values, params, shifted)
    ensures Label(values, shifted, vocab) == RowLabel(params, vocab)
  {
    hide Label, Carries;
    var a, b := Label(values, shifted, vocab), RowLabel(params, vocab);
    assert |params| == PARAM_COUNT by {
      CarriedLength(values, params, shifted);
    }
    forall n | n in a ensures n in b && a[n] == b[n] {
      LabelledFrom(values, params, shifted, vocab, n);
    }
    forall n | n in b ensures n in a {
      var i :| i in vocab && 0 <= i < PARAM_COUNT && vocab[i] == n;
      LabelledTo(values, params, shifted, vocab, i);
    }
  }

  lemma {:induction false} CarriedLength(values: map<int, int>, params: seq<int>, shifted: bool)
    requires Carries(values, params, shifted)
    ensures |params| == PARAM_COUNT
  {
  }

  /** A dump message: the patch parse_mid reads is the row the loader reads. */
  lemma {:induction false} SinglePatch(m: bytes)
    requires IsSingle(m) && GoodName(m[NAME_AT..CHECKSUM_AT])
    ensures Inner(m) == Some(m[1..264])
    ensures var p := PatchOf(m[1..264]);
            && p.Some? && p.value.name == RowOf(m).name && Carries(p.value.params, RowOf(m).params, true)
  {
    hide RStrip, Decoded, Search, PrintableField;
    var inner := m[1..264];
    var body := inner[4..];
    SliceOfSlice(m, 1, 264, 4, 263);
    SliceOfSlice(m, 5, 264, 242, 258);
    assert Window(body, 242) == m[NAME_AT..CHECKSUM_AT];
    assert Slice(m[NAME_AT..CHECKSUM_AT], 0, NAME_LEN) == m[NAME_AT..CHECKSUM_AT];
  }

  /** A message the sidecar writer and the bank loader agree on: a 265-byte dump with
      a name, or one that neither takes. */
  predicate Agreeable(m: bytes) {
    if IsSingle(m) then GoodName(m[NAME_AT..CHECKSUM_AT])
    else Inner(m).None? || PatchOf(Inner(m).value).None?
  }

  /** Patch i of the sidecar and row i of the loader: one name, one labelling. */
  ghost predicate SameLabels(patches: seq<MidPatch>, rows: seq<Row>, vocab: Vocabulary)
    requires InjectiveVocabulary(vocab)
  {
    && |patches| == |rows|
    && forall i :: 0 <= i < |rows| ==>
         patches[i].name == rows[i].name && Label(patches[i].params, true, vocab) == RowLabel(rows[i].params, vocab)
  }

  lemma {:induction false} SamePatch(m: bytes, vocab: Vocabulary)
    requires IsSingle(m) && GoodName(m[NAME_AT..CHECKSUM_AT]) && InjectiveVocabulary(vocab)
    ensures |m| == DUMP_LEN && Inner(m).Some? && PatchOf(Inner(m).value).Some?
    ensures SameLabels([PatchOf(Inner(m).value).value], [RowOf(m)], vocab)
  {
    hide PatchOf, Inner, GoodName, Label, RowLabel, Decoded, RStrip;
    SinglePatch(m);
    LabelIs(PatchOf(Inner(m).value).value.params, RowOf(m).params, true, vocab);
  }

  /** A message as the loader gets it, and as the raw scan finds it. */
  datatype Sent = Sent(message: bytes, raw: bytes)

  function Messages(sent: seq<Sent>): seq<bytes> {
    if sent == [] then [] else [sent[0].message] + Messages(sent[1..])
  }

  function Raws(sent: seq<Sent>): seq<bytes> {
    if sent == [] then [] else [sent[0].raw] + Raws(sent[1..])
  }

  /** Both readers take the dump, whose name is good, or neither takes anything. */
  predicate Agree(s: Sent) {
    if IsSingle(s.message) then Inner(s.raw) == Inner(s.message) && GoodName(s.message[NAME_AT..CHECKSUM_AT])
    else Inner(s.raw).None? || PatchOf(Inner(s.raw).value).None?
  }

  /** Where the readers agree on every message, labelling the sidecar's key space gives,
      patch by patch, the loader's names and named parameters. */
  lemma {:induction false} LabelsAgree(sent: seq<Sent>, vocab: Vocabulary)
    requires InjectiveVocabulary(vocab) && forall s :: s in sent ==> Agree(s)
    ensures SameLabels(Keep(Keep(Raws(sent), Inner), PatchOf), Rows(Messages(sent)), vocab)
    decreases |sent|
  {
    hide PatchOf, Inner, IsSingle, RowOf, SameLabels, GoodName, InjectiveVocabulary;
    if sent == [] {
      NoLabels(vocab);
    } else {
      var s, raws, ms := sent[0], Raws(sent[1..]), Messages(sent[1..]);
      var later := Keep(Keep(raws, Inner), PatchOf);
      assert s in sent && Agree(s);
      LabelsAgree(sent[1..], vocab);
      RowsFirst(s.message, ms);
      KeepFirst(s.raw, raws, Inner);
      AppendNone(later);
      AppendNone(Keep(raws, Inner));
      if Inner(s.raw).Some? {
        KeepFirst(Inner(s.raw).value, Keep(raws, Inner), PatchOf);
      }
      if IsSingle(s.message) {
        SamePatch(s.message, vocab);
        SameLabelsAppend([PatchOf(Inner(s.message).value).value], later, [RowOf(s.message)], Rows(ms), vocab);
      }
    }
  }

  /** A raw stream: the loader and the scan see the same messages. */
  function Plain(ms: seq<bytes>): seq<Sent> {
    if ms == [] then [] else [Sent(ms[0], ms[0])] + Plain(ms[1..])
  }

  lemma {:induction false} PlainIs(ms: seq<bytes>)
    ensures Messages(Plain(ms)) == ms && Raws(Plain(ms)) == ms
    ensures forall s :: s in Plain(ms) ==> s.message in ms && s.raw == s.message
    decreases |ms|
  {
    if ms != [] {
      PlainIs(ms[1..]);
      assert ms == [ms[0]] + ms[1..] && Plain(ms)[1..] == Plain(ms[1..]);
    }
  }

  /** For a bank of messages with printable names, labelling the sidecar's .mid key
      space gives, patch by patch, the loader's names and named parameters. */
  lemma {:induction false} MidLabelsAreRowLabels(ms: seq<bytes>, vocab: Vocabulary)
    requires InjectiveVocabulary(vocab) && forall m :: m in ms ==> Agreeable(m)
    ensures SameLabels(Keep(Keep(ms, Inner), PatchOf), Rows(ms), vocab)
  {
    hide PatchOf, Inner, IsSingle, Rows, SameLabels, GoodName, InjectiveVocabulary;
    PlainIs(ms);
    LabelsAgree(Plain(ms), vocab);
  }

  lemma {:induction false} NoLabels(vocab: Vocabulary)
    requires InjectiveVocabulary(vocab)
    ensures SameLabels([], [], vocab)
  {
  }

  lemma {:induction false} SameLabelsAppend(a: seq<MidPatch>, b: seq<MidPatch>, c: seq<Row>, d: seq<Row>,
      vocab: Vocabulary)
    requires InjectiveVocabulary(vocab) && SameLabels(a, c, vocab) && SameLabels(b, d, vocab)
    ensures SameLabels(a + b, c + d, vocab)
  {
    hide Label, RowLabel, InjectiveVocabulary;
  }

  /** A .usb record and a dump of the same bytes: one name, one labelling, whichever
      container the sidecar was made from. */
  lemma {:induction false} UsbLabelsAreMidLabels(rec: bytes, m: bytes, vocab: Vocabulary)
    requires |rec| == USB_RECORD && IsSingle(m) && m[7..CHECKSUM_AT] == rec && GoodName(rec[PARAM_COUNT..])
    requires InjectiveVocabulary(vocab)
    ensures Inner(m).Some? && PatchOf(Inner(m).value).Some? && UsbPatchOf(rec).Some?
    ensures var usb, mid := UsbPatchOf(rec).value, PatchOf(Inner(m).value).value;
            && usb.name == mid.name
            && Label(usb.params, false, vocab) == Label(mid.params, true, vocab) == RowLabel(rec[..PARAM_COUNT], vocab)
  {
    hide PatchOf, Inner, Label, RowLabel, Decoded, RStrip, InjectiveVocabulary, Carries;
    SliceOfSlice(m, 7, CHECKSUM_AT, PARAM_COUNT, USB_RECORD);
    SliceOfSlice(m, 7, CHECKSUM_AT, 0, PARAM_COUNT);
    SinglePatch(m);
    LabelIs(PatchOf(Inner(m).value).value.params, RowOf(m).params, true, vocab);
    UsbNamed(rec);
    LabelIs(UsbPatchOf(rec).value.params, rec[..PARAM_COUNT], false, vocab);
  }

  lemma {:induction false} UsbNamed(rec: bytes)
    requires |rec| == USB_RECORD && GoodName(rec[PARAM_COUNT..])
    ensures UsbPatchOf(rec).Some?
    ensures var p := UsbPatchOf(rec).value;
            && p.name == RStrip(Decoded(rec[PARAM_COUNT..])) && Carries(p.params, rec[..PARAM_COUNT], false)
  {
    hide Decoded, RStrip, Search, PrintableField;
    assert Window(rec, PARAM_COUNT) == rec[PARAM_COUNT..];
    assert Slice(rec[PARAM_COUNT..], 0, NAME_LEN) == rec[PARAM_COUNT..];
  }

  /** A row of a .usb bank carries the same name and values as its sidecar patch. */
  lemma {:induction false} UsbRowLabels(rec: bytes, vocab: Vocabulary)
    requires |rec| == USB_RECORD && GoodName(rec[PARAM_COUNT..]) && InjectiveVocabulary(vocab)
    requires match UsbRow(rec) case Ok(Some(_)) => true case _ => false
    ensures UsbPatchOf(rec).Some?
    ensures var p, row := UsbPatchOf(rec).value, UsbRow(rec).value.value;
            p.name == row.name && Label(p.params, false, vocab) == RowLabel(row.params, vocab)
  {
    hide Label, RowLabel, Decoded, RStrip, InjectiveVocabulary, UsbPatchOf;
    UsbNamed(rec);
    LabelIs(UsbPatchOf(rec).value.params, rec[..PARAM_COUNT], false, vocab);
  }
}
