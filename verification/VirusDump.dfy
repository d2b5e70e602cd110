/** virus_dump: the Virus single-dump writer, its decoder, and their laws. */
module VirusDump {
  import opened Bytes
  import opened Ordering
  import VirusSmf

  datatype Model = BC | TI {
    function Pages(): nat { if BC? then 2 else 4 }
    function PayloadLen(): nat { Pages() * 128 }
    function DumpLen(): nat { if BC? then 267 else 524 }
    function ChecksumAt(): nat { DumpLen() - 2 }
  }

  datatype Error =
    | BadFraming
    | OutOfRange(name: string)
    | UnknownName(name: string)
    | IndexError(name: string)
    | NotInVocabulary
    | KeyError
    | NoBase

  // ----- Framing -----

  predicate Framed(d: bytes, m: Model) {
    && |d| == m.DumpLen()
    && d[0] == 0xF0 && d[1..4] == VirusSmf.HEADER && d[4] == 0x01 && d[6] == 0x10
    && d[|d| - 1] == 0xF7
  }

  /** dump_model: strict framing or an error. */
  function DumpModel(d: bytes): (r: Result<Model, Error>)
    ensures r.Ok? ==> Framed(d, r.value)
    ensures r.Err? ==> !Framed(d, BC) && !Framed(d, TI)
  {
    if |d| != 524 && |d| != 267 then Err(BadFraming)
    else if d[0] != 0xF0 || d[1..4] != VirusSmf.HEADER || d[4] != 0x01 then Err(BadFraming)
    else if d[6] != 0x10 then Err(BadFraming)
    else if d[|d| - 1] != 0xF7 then Err(BadFraming)
    else Ok(if |d| == 524 then TI else BC)
  }

  function Payload(d: bytes, m: Model): (p: bytes)
    requires |d| == m.DumpLen()
    ensures |p| == m.PayloadLen()
  {
    d[9..9 + m.PayloadLen()]
  }

  /** virus_fx_pages.verify_checksum on a dump of the model's length. */
  predicate VerifyChecksum(d: bytes, m: Model)
    requires |d| == m.DumpLen()
  {
    d[m.ChecksumAt()] == VirusSmf.Checksum(d, m.PayloadLen())
  }

  // ----- The vocabulary -----

  datatype Slot = Slot(page: nat, index: nat)

  type Table = map<Slot, string>

  predicate SlotLe(a: Slot, b: Slot) {
    a.page < b.page || (a.page == b.page && a.index <= b.index)
  }

  lemma {:induction false} SlotsAreOrdered()
    ensures TotalOrder(SlotLe)
  {
  }

  function Offset(s: Slot): int {
    (s.page - 112) * 128 + s.index
  }

  predicate OnPages(s: Slot, m: Model) {
    112 <= s.page < 112 + m.Pages() && s.index < 128
  }

  lemma {:induction false} OffsetsOnPages(s: Slot, t: Slot, m: Model)
    requires OnPages(s, m) && OnPages(t, m)
    ensures 0 <= Offset(s) < m.PayloadLen()
    ensures Offset(s) == Offset(t) ==> s == t
  {
  }

  /** The last slot, in (page, index) order, that carries the name. */
  ghost predicate LastNamed(table: Table, name: string, slot: Slot) {
    && slot in table && table[slot] == name
    && forall t :: t in table && table[t] == name ==> SlotLe(t, slot)
  }

  lemma {:induction false} LastIsUnique(table: Table, name: string, a: Slot, b: Slot)
    requires LastNamed(table, name, a) && LastNamed(table, name, b)
    ensures a == b
  {
  }

  /** A name table filled slot by slot, later slots overwriting earlier ones. */
  function Fill(table: Table, slots: seq<Slot>): map<string, Slot>
    requires forall s :: s in slots ==> s in table
  {
    if slots == [] then map[]
    else
      var s := slots[|slots| - 1];
      Fill(table, slots[..|slots| - 1])[table[s] := s]
  }

  lemma {:induction false} FillKeepsLast(table: Table, slots: seq<Slot>)
    requires Ascending(slots, SlotLe) && forall s :: s in slots ==> s in table
    ensures var inv := Fill(table, slots);
            && (forall s :: s in slots ==> table[s] in inv && SlotLe(s, inv[table[s]]))
            && (forall n :: n in inv ==> inv[n] in slots && table[inv[n]] == n)
    decreases |slots|
  {
    if slots != [] {
      var k := |slots| - 1;
      assert slots == slots[..k] + [slots[k]];
      FillKeepsLast(table, slots[..k]);
      forall s | s in slots ensures SlotLe(s, slots[k]) {
      }
    }
  }

  /** name_slots: name -> its last slot. */
  ghost function Inverse(table: Table): map<string, Slot> {
    SlotsAreOrdered();
    Fill(table, Listed(table.Keys, SlotLe))
  }

  lemma {:induction false} InverseIsLast(table: Table)
    ensures Inverse(table).Keys == table.Values
    ensures forall n :: n in Inverse(table) ==> LastNamed(table, n, Inverse(table)[n])
  {
    SlotsAreOrdered();
    var slots := Listed(table.Keys, SlotLe);
    FillKeepsLast(table, slots);
    forall n | n in table.Values ensures n in Inverse(table) {
      var s :| s in table && table[s] == n;
      assert s in slots;
    }
    forall n, t | n in Inverse(table) && t in table && table[t] == n ensures SlotLe(t, Inverse(table)[n]) {
      assert t in slots;
    }
  }

  method NameSlots(table: Table) returns (inverse: map<string, Slot>)
    ensures inverse == Inverse(table)
  {
    SlotsAreOrdered();
    hide Lists, Ascending, TotalOrder, SlotLe;
    var slots := SortedList(table.Keys, SlotLe);
    inverse := map[];
    for i := 0 to |slots|
      invariant inverse == Fill(table, slots[..i])
    {
      assert slots[..i + 1][..i] == slots[..i] && slots[i] in slots;
      inverse := inverse[table[slots[i]] := slots[i]];
    }
    assert slots[..|slots|] == slots;
  }

  // ----- The decoder -----

  /** decode_payload: the byte of every vocabulary slot inside the payload. */
  function SlotValues(p: bytes, m: Model, table: Table): map<Slot, int>
    requires |p| == m.PayloadLen()
  {
    map s | s in table && OnPages(s, m) :: p[Offset(s)]
  }

  function PageTable(table: Table, m: Model): Table {
    map s | s in table && OnPages(s, m) :: table[s]
  }

  /** decode_dump: every name with a slot on a model page, read at its last such slot. */
  ghost function Decode(p: bytes, m: Model, table: Table): (v: map<string, int>)
    requires |p| == m.PayloadLen()
    ensures v.Keys == PageTable(table, m).Values
  {
    InverseIsLast(PageTable(table, m));
    ReadAt(p, m, Inverse(PageTable(table, m)))
  }

  ghost function ReadAt(p: bytes, m: Model, inv: map<string, Slot>): map<string, int>
    requires |p| == m.PayloadLen()
  {
    map n | n in inv && OnPages(inv[n], m) :: p[Offset(inv[n])]
  }

  ghost function Kept(v: map<string, int>, keep: string -> bool): map<string, int> {
    map n | n in v && keep(n) :: v[n]
  }

  /** A slot with an empty name is never an effect parameter. */
  function FxNames(isFx: string -> bool): string -> bool {
    n => n != "" && isFx(n)
  }

  /** fx_params: the decoded values of the effect and matrix names. */
  ghost function FxParams(p: bytes, m: Model, table: Table, isFx: string -> bool): map<string, int>
    requires |p| == m.PayloadLen()
  {
    Kept(Decode(p, m, table), FxNames(isFx))
  }

  predicate Before(s: Slot, page: nat, index: nat) {
    s.page < page || (s.page == page && s.index < index)
  }

  method DecodePayload(p: bytes, m: Model, table: Table) returns (values: map<Slot, int>)
    requires |p| == m.PayloadLen()
    ensures values == SlotValues(p, m, table)
  {
    values := map[];
    for page := 112 to 112 + m.Pages()
      invariant forall s :: s in values <==> s in table && OnPages(s, m) && Before(s, page, 0)
      invariant forall s :: s in values ==> values[s] == p[Offset(s)]
    {
      for index := 0 to 128
        invariant forall s :: s in values <==> s in table && OnPages(s, m) && Before(s, page, index)
        invariant forall s :: s in values ==> values[s] == p[Offset(s)]
      {
        var slot := Slot(page, index);
        if slot in table {
          values := values[slot := p[(page - 112) * 128 + index]];
        }
      }
    }
  }

  lemma {:induction false} ReadOneMore(p: bytes, m: Model, inv: map<string, Slot>, name: string, s: Slot,
      keep: string -> bool)
    requires |p| == m.PayloadLen() && OnPages(s, m)
    ensures var before, after := Kept(ReadAt(p, m, inv), keep), Kept(ReadAt(p, m, inv[name := s]), keep);
            after == if keep(name) then before[name := p[Offset(s)]] else before
  {
  }

  /** The naming loop shared by decode_dump and fx_params: later slots overwrite earlier ones. */
  method NameValues(p: bytes, m: Model, table: Table, keep: string -> bool) returns (named: map<string, int>)
    requires |p| == m.PayloadLen()
    ensures named == Kept(Decode(p, m, table), keep)
  {
    SlotsAreOrdered();
    var values := DecodePayload(p, m, table);
    ghost var pages := PageTable(table, m);
    assert values.Keys == pages.Keys;
    hide Lists, Ascending, TotalOrder, SlotLe, Kept, ReadAt, Fill;
    var slots := SortedList(values.Keys, SlotLe);
    named := map[];
    NothingRead(p, m, pages, keep);
    for i := 0 to |slots|
      invariant named == Kept(ReadAt(p, m, Fill(pages, slots[..i])), keep)
    {
      var slot := slots[i];
      FillTurn(pages, slots, i);
      ReadOneMore(p, m, Fill(pages, slots[..i]), table[slot], slot, keep);
      if keep(table[slot]) {
        named := named[table[slot] := values[slot]];
      }
    }
    assert slots[..|slots|] == slots;
  }

  lemma {:induction false} FillTurn(table: Table, slots: seq<Slot>, i: nat)
    requires i < |slots| && forall s :: s in slots ==> s in table
    ensures slots[i] in table
    ensures Fill(table, slots[..i + 1]) == Fill(table, slots[..i])[table[slots[i]] := slots[i]]
  {
    assert slots[..i + 1][..i] == slots[..i] && slots[i] in slots;
  }

  lemma {:induction false} NothingRead(p: bytes, m: Model, pages: Table, keep: string -> bool)
    requires |p| == m.PayloadLen()
    ensures Kept(ReadAt(p, m, Fill(pages, [])), keep) == map[]
  {
  }

  lemma {:induction false} KeepAll(v: map<string, int>)
    ensures Kept(v, n => true) == v
  {
  }

  method DecodeDump(d: bytes, table: Table) returns (r: Result<map<string, int>, Error>)
    ensures match DumpModel(d)
            case Err(e) => r == Err(e)
            case Ok(m) => r == Ok(Decode(Payload(d, m), m, table))
  {
    var model := DumpModel(d);
    if model.Err? {
      return Err(model.error);
    }
    var named := NameValues(Payload(d, model.value), model.value, table, n => true);
    KeepAll(Decode(Payload(d, model.value), model.value, table));
    return Ok(named);
  }

  // ----- The writer -----

  /** The position Python's payload[off] = value writes to. */
  function WriteIndex(off: int, length: int): Option<nat> {
    if 0 <= off < length then Some(off)
    else if -length <= off < 0 then Some(off + length)
    else None
  }

  function WriteOne(p: bytes, name: string, value: int, inverse: map<string, Slot>): (r: Result<bytes, Error>)
    ensures r.Ok? ==> |r.value| == |p|
  {
    if !(0 <= value <= 127) then Err(OutOfRange(name))
    else if name !in inverse then Err(UnknownName(name))
    else match WriteIndex(Offset(inverse[name]), |p|)
      case None => Err(IndexError(name))
      case Some(i) => Ok(p[i := value])
  }

  /** The writing loop over the first names. */
  function WriteAll(p: bytes, names: seq<string>, overrides: map<string, int>,
      inverse: map<string, Slot>): (r: Result<bytes, Error>)
    requires forall n :: n in names ==> n in overrides
    ensures r.Ok? ==> |r.value| == |p|
    decreases |names|
  {
    if names == [] then Ok(p)
    else
      var name := names[|names| - 1];
      match WriteAll(p, names[..|names| - 1], overrides, inverse)
      case Err(e) => Err(e)
      case Ok(q) => WriteOne(q, name, overrides[name], inverse)
  }

  /** base[:9] + payload + tail + (cs, F7) */
  function Assemble(base: bytes, m: Model, p: bytes): (d: bytes)
    requires |base| == m.DumpLen() && |p| == m.PayloadLen()
    ensures |d| == |base|
  {
    var cs := (base[5] as int + 0x10 + base[7] + base[8] + Sum(p)) % 128;
    base[..9] + p + base[9 + m.PayloadLen()..m.ChecksumAt()] + [cs, 0xF7]
  }

  ghost function Built(base: bytes, overrides: map<string, int>, table: Table): Result<bytes, Error> {
    StringsAreOrdered();
    match DumpModel(base)
    case Err(e) => Err(e)
    case Ok(m) =>
      match WriteAll(Payload(base, m), Listed(overrides.Keys, StringLe), overrides, Inverse(table))
      case Err(e) => Err(e)
      case Ok(p) => Ok(Assemble(base, m, p))
  }

  /** The writing loop over the names, in the payload buffer. */
  method WriteNames(payload: array<byte>, names: seq<string>, overrides: map<string, int>, inverse: map<string, Slot>)
    returns (failed: Option<Error>)
    requires forall n :: n in names ==> n in overrides
    modifies payload
    ensures match WriteAll(old(payload[..]), names, overrides, inverse)
            case Err(e) => failed == Some(e)
            case Ok(p) => failed.None? && payload[..] == p
  {
    hide WriteAll;
    ghost var start := payload[..];
    assert WriteAll(start, names[..0], overrides, inverse) == Ok(start) by {
      WriteNothing(start, names, overrides, inverse);
    }
    for i := 0 to |names|
      invariant WriteAll(start, names[..i], overrides, inverse) == Ok(payload[..])
    {
      var name := names[i];
      assert name in names;
      WriteTurn(start, names, i, overrides, inverse, payload[..]);
      var value := overrides[name];
      if !(0 <= value <= 127) {
        return Some(OutOfRange(name));
      }
      if name !in inverse {
        return Some(UnknownName(name));
      }
      var at := WriteIndex(Offset(inverse[name]), payload.Length);
      if at.None? {
        return Some(IndexError(name));
      }
      payload[at.value] := value;
    }
    assert names[..|names|] == names;
    return None;
  }

  lemma {:induction false} WriteNothing(p: bytes, names: seq<string>, overrides: map<string, int>,
      inverse: map<string, Slot>)
    requires forall n :: n in names ==> n in overrides
    ensures WriteAll(p, names[..0], overrides, inverse) == Ok(p)
  {
  }

  method BuildDump(base: bytes, overrides: map<string, int>, table: Table) returns (r: Result<bytes, Error>)
    ensures r == Built(base, overrides, table)
  {
    hide Lists, Ascending, TotalOrder, Inverse, Assemble, WriteAll;
    StringsAreOrdered();
    var model := DumpModel(base);
    if model.Err? {
      return Err(model.error);
    }
    var m := model.value;
    var inverse := NameSlots(table);
    var payload := new byte[m.PayloadLen()](i requires 0 <= i < m.PayloadLen() => base[9 + i]);
    var names := SortedList(overrides.Keys, StringLe);
    assert payload[..] == Payload(base, m);
    var failed := WriteNames(payload, names, overrides, inverse);
    return if failed.Some? then Err(failed.value) else Ok(Assemble(base, m, payload[..]));
  }

  /** One turn of the writing loop; an error there is the error of the whole loop. */
  lemma {:induction false} WriteTurn(p: bytes, names: seq<string>, i: nat, overrides: map<string, int>,
      inverse: map<string, Slot>, q: bytes)
    requires i < |names| && forall n :: n in names ==> n in overrides
    requires WriteAll(p, names[..i], overrides, inverse) == Ok(q)
    ensures names[i] in overrides
    ensures var one := WriteOne(q, names[i], overrides[names[i]], inverse);
            && WriteAll(p, names[..i + 1], overrides, inverse) == one
            && (one.Err? ==> WriteAll(p, names, overrides, inverse) == one)
  {
    assert names[i] in names;
    assert names[..i + 1][..i] == names[..i];
    if WriteAll(p, names[..i + 1], overrides, inverse).Err? {
      WriteStops(p, names, i + 1, overrides, inverse);
    }
  }

  lemma {:induction false} WriteStops(p: bytes, names: seq<string>, k: nat, overrides: map<string, int>,
      inverse: map<string, Slot>)
    requires k <= |names| && forall n :: n in names ==> n in overrides
    requires WriteAll(p, names[..k], overrides, inverse).Err?
    ensures WriteAll(p, names, overrides, inverse) == WriteAll(p, names[..k], overrides, inverse)
    decreases |names|
  {
    if k < |names| {
      assert names[..|names| - 1][..k] == names[..k];
      WriteStops(p, names[..|names| - 1], k, overrides, inverse);
    } else {
      assert names[..k] == names;
    }
  }
}
