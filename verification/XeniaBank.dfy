/** xenia_dump.load_bank, and its round trip with the dump writer. */
module XeniaBank {
  import opened Bytes
  import opened Text
  import opened XeniaDump
  import XeniaSysex
  import File = XeniaSysexFile

  datatype Container = Usb | Mid

  datatype Row = Row(name: string, params: seq<int>, dump: bytes, container: Container)

  // ----- Sysex banks -----

  predicate IsSingle(m: bytes) {
    |m| == DUMP_LEN && m[1] == 0x3E && m[2] == 0x0E && m[4] == 0x10
  }

  function RowOf(m: bytes): Row
    requires |m| == DUMP_LEN
  {
    Row(RStrip(Decoded(m[NAME_AT..CHECKSUM_AT])), m[7..NAME_AT], m, Mid)
  }

  function Rows(ms: seq<bytes>): seq<Row> {
    if ms == [] then []
    else (if IsSingle(ms[0]) then [RowOf(ms[0])] else []) + Rows(ms[1..])
  }

  method LoadBank(data: bytes) returns (r: Result<seq<Row>, XeniaSysex.Error>)
    ensures match XeniaSysex.SysexOf(data)
            case Err(e) => r == Err(e)
            case Ok(ms) => r == Ok(Rows(ms))
  {
    hide XeniaSysex.SysexOf, RowOf;
    var messages := XeniaSysex.IterSysex(data);
    if messages.Err? {
      return Err(messages.error);
    }
    var ms, rows: seq<Row> := messages.value, [];
    for i := 0 to |ms|
      invariant rows + Rows(ms[i..]) == Rows(ms)
    {
      var m := ms[i];
      RowsTurn(ms, i);
      if |m| == DUMP_LEN && m[1] == 0x3E && m[2] == 0x0E && m[4] == 0x10 {
        AppendAssoc(rows, [RowOf(m)], Rows(ms[i + 1..]));
        rows := rows + [RowOf(m)];
      }
    }
    AppendNone(rows);
    return Ok(rows);
  }

  lemma {:induction false} RowsTurn(ms: seq<bytes>, i: nat)
    requires i < |ms|
    ensures Rows(ms[i..]) == if IsSingle(ms[i]) then [RowOf(ms[i])] + Rows(ms[i + 1..]) else Rows(ms[i + 1..])
  {
    hide IsSingle, RowOf;
    assert ms[i..][1..] == ms[i + 1..] && ms[i..][0] == ms[i];
    AppendNone(Rows(ms[i + 1..]));
  }

  lemma {:induction false} RowsFirst(m: bytes, ms: seq<bytes>)
    ensures Rows([m] + ms) == if IsSingle(m) then [RowOf(m)] + Rows(ms) else Rows(ms)
  {
    hide IsSingle, RowOf;
    RowsTurn([m] + ms, 0);
    assert ([m] + ms)[1..] == ms && ([m] + ms)[0..] == [m] + ms;
  }

  // ----- USB banks -----

  /** A record's name field starts with a character. */
  predicate PrintableName(raw: bytes) {
    PrintableField(raw) && Printable(raw[0])
  }

  function RecordParams(rec: bytes): map<int, int>
    requires |rec| == USB_RECORD
  {
    map i | 0 <= i < PARAM_COUNT :: rec[i] as int
  }

  /** The row of a 256-byte record with a printable name; a byte over 127 is an error. */
  ghost function UsbRow(rec: bytes): Result<Option<Row>, DumpError>
    requires |rec| == USB_RECORD
  {
    if !PrintableName(rec[PARAM_COUNT..]) then Ok(None)
    else match Built(RecordParams(rec), map[], map[], None, 0, 0, 0)
      case Err(e) => Err(e)
      case Ok(d) => Ok(Some(Row(RStrip(Decoded(rec[PARAM_COUNT..])), rec[..PARAM_COUNT], d, Usb)))
  }

  ghost function UsbRows(data: bytes, n: nat): Result<seq<Row>, DumpError>
    requires n * USB_RECORD <= |data|
  {
    if n == 0 then Ok([])
    else match UsbRows(data, n - 1)
      case Err(e) => Err(e)
      case Ok(rows) =>
        match UsbRow(data[(n - 1) * USB_RECORD..n * USB_RECORD])
        case Err(e) => Err(e)
        case Ok(None) => Ok(rows)
        case Ok(Some(row)) => Ok(rows + [row])
  }

  ghost function UsbBank(data: bytes): Result<seq<Row>, DumpError> {
    if |data| % USB_RECORD != 0 || data == [] then Err(DumpError) else UsbRows(data, |data| / USB_RECORD)
  }

  method LoadUsbRecord(rec: bytes) returns (r: Result<Option<Row>, DumpError>)
    requires |rec| == USB_RECORD
    ensures r == UsbRow(rec)
  {
    hide PrintableName, RStrip, RecordParams;
    if !PrintableName(rec[PARAM_COUNT..]) {
      return Ok(None);
    }
    var d := BuildSingleDump(RecordParams(rec), map[], map[], None, 0, 0, 0);
    if d.Err? {
      return Err(d.error);
    }
    return Ok(Some(Row(RStrip(Decoded(rec[PARAM_COUNT..])), rec[..PARAM_COUNT], d.value, Usb)));
  }

  method LoadUsbBank(data: bytes) returns (r: Result<seq<Row>, DumpError>)
    ensures r == UsbBank(data)
  {
    hide UsbRow;
    if |data| % USB_RECORD != 0 || data == [] {
      return Err(DumpError);
    }
    var rows: seq<Row> := [];
    for idx := 0 to |data| / USB_RECORD
      invariant UsbRows(data, idx) == Ok(rows)
    {
      var row := LoadUsbRecord(data[idx * USB_RECORD..(idx + 1) * USB_RECORD]);
      if row.Err? {
        UsbStops(data, idx + 1, |data| / USB_RECORD);
        return Err(row.error);
      }
      if row.value.Some? {
        rows := rows + [row.value.value];
      }
    }
    return Ok(rows);
  }

  lemma {:induction false} UsbStops(data: bytes, k: nat, n: nat)
    requires k <= n && n * USB_RECORD <= |data| && UsbRows(data, k).Err?
    ensures UsbRows(data, n) == UsbRows(data, k)
    decreases n
  {
    hide UsbRow;
    if k < n {
      UsbStops(data, k, n - 1);
    }
  }

  // ----- Round trip -----

  /** The inputs of one build. */
  datatype Patch = Patch(base: map<int, int>, overrides: Overrides, name: Option<string>, device: int, bank: int,
      program: int)

  ghost function BuildOf(p: Patch, offsets: map<string, int>): Result<bytes, DumpError> {
    Built(p.base, p.overrides, offsets, p.name, p.device, p.bank, p.program)
  }

  /** The value the patch gives a parameter: the largest override, else the base, else zero. */
  ghost function ValueOf(p: Patch, offsets: map<string, int>, idx: nat): int {
    var s := Candidates(p.overrides, offsets, idx);
    if s != {} then Largest(s) else if idx in p.base then p.base[idx] else 0
  }

  /** The name field holds no F7. */
  predicate NameTravels(name: Option<string>) {
    name.None? || (Latin1(name.value) && 0xF7 !in Fixed(name.value, NAME_LEN))
  }

  lemma {:induction false} BuiltBytes(p: Patch, offsets: map<string, int>, k: nat)
    requires BuildOf(p, offsets).Ok? && k < DUMP_LEN
    ensures var d := BuildOf(p, offsets).value;
            && (7 <= k < NAME_AT ==> d[k] == ValueOf(p, offsets, k - 7) <= 127)
            && (NAME_AT <= k < CHECKSUM_AT ==>
                  d[k] == if p.name.Some? then Fixed(p.name.value, NAME_LEN)[k - NAME_AT] else 0)
            && (k < 7 ==> d[k] <= 127 || k == 0)
  {
    hide Candidates, Fixed, Checksum;
    if 7 <= k < NAME_AT && Candidates(p.overrides, offsets, k - 7) != {} {
      CandidateRange(p.overrides, offsets, k - 7);
    }
  }

  lemma {:induction false} CandidateRange(o: Overrides, offsets: map<string, int>, idx: nat)
    requires ValidOverrides(o, offsets) && Candidates(o, offsets, idx) != {}
    ensures 0 <= Largest(Candidates(o, offsets, idx)) <= 127
  {
  }

  /** A built dump is a single dump whose checksum is its own, F7 only at its end or in its name. */
  lemma {:induction false} BuiltShape(p: Patch, offsets: map<string, int>)
    requires BuildOf(p, offsets).Ok?
    ensures var d := BuildOf(p, offsets).value;
            && IsSingle(d) && d[0] == 0xF0 && d[264] == 0xF7 && d[CHECKSUM_AT] <= 127
            && (p.name.Some? ==> Latin1(p.name.value))
  {
    hide Overlay, Checksum;
    var d := Overlay(Blank(p.base, p.device, p.bank, p.program), p.overrides, offsets, p.name);
    OverlayFrame(Blank(p.base, p.device, p.bank, p.program), p.overrides, offsets, p.name);
    ChecksumRange(d);
  }

  lemma {:induction false} ChecksumRange(d: bytes)
    requires |d| == DUMP_LEN
    ensures Checksum(d) <= 127
  {
  }

  lemma {:induction false} OverlayFrame(d: bytes, o: Overrides, offsets: map<string, int>, name: Option<string>)
    requires |d| == DUMP_LEN && ValidOverrides(o, offsets) && (name.Some? ==> Latin1(name.value))
    ensures Overlay(d, o, offsets, name)[..7] == d[..7]
            && Overlay(d, o, offsets, name)[CHECKSUM_AT..] == d[CHECKSUM_AT..]
  {
    hide Candidates, Fixed, Largest;
  }

  /** The checksum of a built dump is the sum of its own parameters and name. */
  lemma {:induction false} BuiltChecksum(p: Patch, offsets: map<string, int>)
    requires BuildOf(p, offsets).Ok?
    ensures var d := BuildOf(p, offsets).value; d[CHECKSUM_AT] == Checksum(d)
  {
    hide Overlay, Sum;
    var d := Overlay(Blank(p.base, p.device, p.bank, p.program), p.overrides, offsets, p.name);
    assert d[CHECKSUM_AT := Checksum(d)][7..CHECKSUM_AT] == d[7..CHECKSUM_AT];
  }

  /** What the loader reads of a built dump: the values and the name written. */
  lemma {:induction false} RowOfBuilt(p: Patch, offsets: map<string, int>)
    requires BuildOf(p, offsets).Ok?
    ensures var d := BuildOf(p, offsets).value;
            && (forall idx :: 0 <= idx < PARAM_COUNT ==> RowOf(d).params[idx] == ValueOf(p, offsets, idx))
            && (p.name.Some? ==> Latin1(p.name.value) && RowOf(d).name == Shown(p.name.value, NAME_LEN))
            && RowOf(d).dump == d
  {
    hide BuildOf, ValueOf, Fixed, Shown, RStrip, Decoded;
    var d := BuildOf(p, offsets).value;
    BuiltShape(p, offsets);
    forall idx | 0 <= idx < PARAM_COUNT ensures d[7..NAME_AT][idx] == ValueOf(p, offsets, idx) {
      BuiltBytes(p, offsets, 7 + idx);
    }
    if p.name.Some? {
      FieldReadsBack(p.name.value, NAME_LEN);
      var f := d[NAME_AT..CHECKSUM_AT];
      forall i | 0 <= i < NAME_LEN ensures f[i] == Fixed(p.name.value, NAME_LEN)[i] {
        BuiltBytes(p, offsets, NAME_AT + i);
      }
      assert f == Fixed(p.name.value, NAME_LEN);
    }
  }

  lemma {:induction false} FramedIffTravels(p: Patch, offsets: map<string, int>)
    requires BuildOf(p, offsets).Ok?
    ensures File.Framed(BuildOf(p, offsets).value) <==> NameTravels(p.name)
  {
    hide BuildOf, ValueOf, Fixed;
    var d := BuildOf(p, offsets).value;
    BuiltShape(p, offsets);
    forall k | 0 <= k < 264
      ensures d[k] == 0xF7 <==>
              NAME_AT <= k < CHECKSUM_AT && p.name.Some? && Fixed(p.name.value, NAME_LEN)[k - NAME_AT] == 0xF7
    {
      BuiltBytes(p, offsets, k);
    }
    if p.name.Some? && 0xF7 in Fixed(p.name.value, NAME_LEN) {
      var i :| 0 <= i < NAME_LEN && Fixed(p.name.value, NAME_LEN)[i] == 0xF7;
      assert d[NAME_AT + i] == 0xF7;
    }
  }

  /** What is left of a dump after a message that ended inside it: cut by its own F7s. */
  predicate Remainder(t: bytes) {
    t == [] || (|t| < DUMP_LEN && t[|t| - 1] == 0xF7)
  }

  /** No row comes out of the rest of a broken dump. */
  lemma {:induction false} RemainderHasNoRows(t: bytes, rest: bytes)
    requires Remainder(t)
    ensures Rows(XeniaSysex.RawMessages(t + rest)) == Rows(XeniaSysex.RawMessages(rest))
    decreases |t|
  {
    hide XeniaSysex.RawMessages, IsSingle, RowOf, Rows;
    if 0xF0 !in t {
      File.RawSkips(t, rest);
    } else {
      var j := Find(t, 0xF0, 0);
      var e := Find(t, 0xF7, j);
      assert t[|t| - 1] == 0xF7 && j <= e;
      CutMessage(t, j, e, rest);
      ShortIsNoRow(t[j..e + 1], XeniaSysex.RawMessages(t[e + 1..] + rest));
      RemainderHasNoRows(t[e + 1..], rest);
    }
  }

  lemma {:induction false} ShortIsNoRow(m: bytes, ms: seq<bytes>)
    requires |m| < DUMP_LEN
    ensures Rows([m] + ms) == Rows(ms)
  {
    RowsFirst(m, ms);
  }

  /** The first message of t, when both its ends lie inside t. */
  lemma {:induction false} CutMessage(t: bytes, j: nat, e: nat, rest: bytes)
    requires j < e < |t| && t[j] == 0xF0 && (forall i :: 0 <= i < j ==> t[i] != 0xF0)
    requires t[e] == 0xF7 && forall i :: j <= i < e ==> t[i] != 0xF7
    ensures XeniaSysex.RawMessages(t + rest) == [t[j..e + 1]] + XeniaSysex.RawMessages(t[e + 1..] + rest)
  {
    hide XeniaSysex.RawMessages;
    var junk, m, tail := t[..j], t[j..e + 1], t[e + 1..];
    assert t == junk + (m + tail);
    assert t + rest == junk + (m + (tail + rest));
    File.RawSkips(junk, m + (tail + rest));
    File.RawTakes(m, tail + rest);
  }

  /** One built dump in front of anything: its row if its name travels, else nothing. */
  lemma {:induction false} DumpInFront(p: Patch, offsets: map<string, int>, rest: bytes)
    requires BuildOf(p, offsets).Ok?
    ensures var d := BuildOf(p, offsets).value;
            Rows(XeniaSysex.RawMessages(d + rest)) ==
            (if NameTravels(p.name) then [RowOf(d)] else []) + Rows(XeniaSysex.RawMessages(rest))
  {
    hide BuildOf, NameTravels, XeniaSysex.RawMessages, RowOf, Rows;
    var d := BuildOf(p, offsets).value;
    BuiltShape(p, offsets);
    FramedIffTravels(p, offsets);
    AppendNone(Rows(XeniaSysex.RawMessages(rest)));
    if NameTravels(p.name) {
      File.RawTakes(d, rest);
      RowsFirst(d, XeniaSysex.RawMessages(rest));
    } else {
      BrokenDump(d, rest);
    }
  }

  lemma {:induction false} BrokenDump(d: bytes, rest: bytes)
    requires |d| == DUMP_LEN && d[0] == 0xF0 && d[264] == 0xF7 && !File.Framed(d)
    ensures Rows(XeniaSysex.RawMessages(d + rest)) == Rows(XeniaSysex.RawMessages(rest))
  {
    hide XeniaSysex.RawMessages, RowOf, Rows, IsSingle;
    var e := Find(d, 0xF7, 0);
    assert 0 < e < 264;
    CutMessage(d, 0, e, rest);
    ShortIsNoRow(d[0..e + 1], XeniaSysex.RawMessages(d[e + 1..] + rest));
    RemainderHasNoRows(d[e + 1..], rest);
  }

  ghost function Bank(ps: seq<Patch>, offsets: map<string, int>): bytes
    requires forall p :: p in ps ==> BuildOf(p, offsets).Ok?
  {
    if ps == [] then [] else
      assert ps[0] in ps;
      BuildOf(ps[0], offsets).value + Bank(ps[1..], offsets)
  }

  ghost function BankRows(ps: seq<Patch>, offsets: map<string, int>): seq<Row>
    requires forall p :: p in ps ==> BuildOf(p, offsets).Ok?
  {
    if ps == [] then [] else
      assert ps[0] in ps;
      (if NameTravels(ps[0].name) then [RowOf(BuildOf(ps[0], offsets).value)] else []) + BankRows(ps[1..], offsets)
  }

  /** Loading a concatenation of built dumps gives, in order, exactly the rows of
      those whose name field holds no F7; the others leave no trace. */
  lemma {:induction false} BankRoundTrip(ps: seq<Patch>, offsets: map<string, int>)
    requires forall p :: p in ps ==> BuildOf(p, offsets).Ok?
    ensures XeniaSysex.SysexOf(Bank(ps, offsets)).Ok?
    ensures Rows(XeniaSysex.SysexOf(Bank(ps, offsets)).value) == BankRows(ps, offsets)
  {
    hide BuildOf, NameTravels, XeniaSysex.RawMessages, RowOf, Rows;
    var data := Bank(ps, offsets);
    if ps != [] {
      assert ps[0] in ps;
      BuiltShape(ps[0], offsets);
      assert Slice(data, 0, 4)[0] == 0xF0;
    }
    RawBank(ps, offsets);
  }

  lemma {:induction false} RawBank(ps: seq<Patch>, offsets: map<string, int>)
    requires forall p :: p in ps ==> BuildOf(p, offsets).Ok?
    ensures Rows(XeniaSysex.RawMessages(Bank(ps, offsets))) == BankRows(ps, offsets)
    decreases |ps|
  {
    hide BuildOf, NameTravels, RowOf, Rows;
    if ps == [] {
      assert Rows([]) == [] by {
        NoRows();
      }
    } else {
      hide XeniaSysex.RawMessages;
      assert ps[0] in ps;
      DumpInFront(ps[0], offsets, Bank(ps[1..], offsets));
      RawBank(ps[1..], offsets);
    }
  }

  lemma {:induction false} NoRows()
    ensures Rows([]) == []
  {
  }

  lemma {:induction false} RowCount(ps: seq<Patch>, offsets: map<string, int>)
    requires forall p :: p in ps ==> BuildOf(p, offsets).Ok?
    ensures |BankRows(ps, offsets)| <= |ps|
    ensures |BankRows(ps, offsets)| == |ps| <==> forall p :: p in ps ==> NameTravels(p.name)
    decreases |ps|
  {
    hide BuildOf, NameTravels, RowOf;
    if ps != [] {
      assert ps[0] in ps && ps == [ps[0]] + ps[1..];
      RowCount(ps[1..], offsets);
      assert (forall p :: p in ps ==> NameTravels(p.name))
        <==> NameTravels(ps[0].name) && forall p :: p in ps[1..] ==> NameTravels(p.name);
    }
  }
}
