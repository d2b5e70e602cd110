/** je8086_patch: the names of exploded files, the explode loop and verify_exploded. */
module Je8086Files {
  import opened Bytes
  import opened Text
  import opened SysexBlocks
  import opened Je8086
  import opened Je8086Explode
  import XeniaSysex

  // ----- References -----

  /** entry_ref_filename: bank0-slot25, perf015-part1. */
  function RefOf(u: Unit): string {
    if u.area.PatchArea? then "bank" + Decimal(u.bank) + "-slot" + Padded(u.slot, 2)
    else "perf" + Padded(u.bank, 3) + "-part" + Decimal(u.slot)
  }

  /** How many characters at the front satisfy p. */
  function Lead(s: string, p: char -> bool): nat {
    if s != [] && p(s[0]) then 1 + Lead(s[1..], p) else 0
  }

  lemma {:induction false} LeadOf(a: string, x: string, p: char -> bool)
    requires (forall i :: 0 <= i < |a| ==> p(a[i])) && x != [] && !p(x[0])
    ensures Lead(a + x, p) == |a|
    decreases |a|
  {
    if a == [] {
      assert a + x == x;
    } else {
      assert (a + x)[1..] == a[1..] + x;
      LeadOf(a[1..], x, p);
    }
  }

  /** A front of p characters up to the first other character is read off in one way. */
  lemma {:induction false} FrontSplit(a: string, b: string, x: string, y: string, p: char -> bool)
    requires (forall i :: 0 <= i < |a| ==> p(a[i])) && (forall i :: 0 <= i < |b| ==> p(b[i]))
    requires x != [] && y != [] && !p(x[0]) && !p(y[0]) && a + x == b + y
    ensures a == b && x == y
  {
    LeadOf(a, x, p);
    LeadOf(b, y, p);
    assert a == (a + x)[..|a|] && b == (b + y)[..|b|];
    PrefixOff(a, x, y);
  }

  lemma {:induction false} PrefixOff(p: string, x: string, y: string)
    requires p + x == p + y
    ensures x == y
  {
    assert x == (p + x)[|p|..] && y == (p + y)[|p|..];
  }

  lemma {:induction false} Counted(head: string, mid: string, a: string, b: string, x: string, y: string)
    requires IsDigits(a) && IsDigits(b) && mid != [] && !IsDigit(mid[0])
    requires head + a + mid + x == head + b + mid + y
    ensures a == b && x == y
  {
    AppendAssoc(head, a, mid);
    AppendAssoc(head, b, mid);
    AppendAssoc(head, a + mid, x);
    AppendAssoc(head, b + mid, y);
    PrefixOff(head, a + mid + x, b + mid + y);
    AppendAssoc(a, mid, x);
    AppendAssoc(b, mid, y);
    FrontSplit(a, b, mid + x, mid + y, IsDigit);
    PrefixOff(mid, x, y);
  }

  /** The area of a unit of the map follows from its slot and its kind. */
  predicate Named(u: Unit) {
    u.area.PerfCommon? <==> !u.area.PatchArea? && u.slot == 0
  }

  /** Different units have different references. */
  lemma {:induction false} RefIsInjective(u: Unit, v: Unit)
    requires Named(u) && Named(v) && RefOf(u) == RefOf(v)
    ensures u == v
  {
    hide Decimal, Padded;
    assert RefOf(u)[0] == if u.area.PatchArea? then 'b' else 'p';
    assert RefOf(v)[0] == if v.area.PatchArea? then 'b' else 'p';
    if u.area.PatchArea? {
      Counted("bank", "-slot", Decimal(u.bank), Decimal(v.bank), Padded(u.slot, 2), Padded(v.slot, 2));
      NumberOfDecimal(u.bank);
      NumberOfDecimal(v.bank);
      PaddedIsInjective(u.slot, v.slot, 2, 2);
    } else {
      Counted("perf", "-part", Padded(u.bank, 3), Padded(v.bank, 3), Decimal(u.slot), Decimal(v.slot));
      PaddedIsInjective(u.bank, v.bank, 3, 3);
      NumberOfDecimal(u.slot);
      NumberOfDecimal(v.slot);
    }
  }

  // ----- Stems -----

  /** The characters a file name keeps; every other one becomes an underscore. */
  predicate Kept(c: char) {
    'a' <= c <= 'z' || 'A' <= c <= 'Z' || '0' <= c <= '9' || c in " -_()"
  }

  function Cleaned(s: string): string {
    seq(|s|, i requires 0 <= i < |s| => if Kept(s[i]) then s[i] else '_')
  }

  /** " ".join(s.split()) for text whose only space is the blank. */
  function Squeezed(s: string): (r: string)
    ensures r != [] ==> r[|r| - 1] != ' '
  {
    if s == [] then []
    else
      var n := |s| - 1;
      if s[n] == ' ' then Squeezed(s[..n])
      else Squeezed(s[..n]) + (if n > 0 && s[n - 1] == ' ' && Squeezed(s[..n]) != [] then " " else "") + [s[n]]
  }

  function Safe(name: string): (r: string)
    ensures r != [] && r[|r| - 1] != ' '
  {
    var s := Squeezed(Cleaned(name));
    if s == [] then "patch" else s
  }

  /** str.strip of blanks. */
  function Strip(s: string): string {
    if s != [] && s[0] == ' ' then Strip(s[1..])
    else if s != [] && s[|s| - 1] == ' ' then Strip(s[..|s| - 1])
    else s
  }

  function StemOf(e: Entry): string {
    Strip(RefOf(e.unit) + " " + Safe(e.name))
  }

  lemma {:induction false} RefHasNoBlank(u: Unit)
    ensures ' ' !in RefOf(u) && RefOf(u) != []
  {
    hide Decimal, Padded;
    NoBlank(Decimal(u.bank));
    NoBlank(Decimal(u.slot));
    NoBlank(Padded(u.bank, 3));
    NoBlank(Padded(u.slot, 2));
  }

  lemma {:induction false} NoBlank(digits: string)
    requires IsDigits(digits)
    ensures ' ' !in digits
  {
  }

  lemma {:induction false} StemIs(e: Entry)
    ensures StemOf(e) == RefOf(e.unit) + " " + Safe(e.name)
  {
    hide RefOf, Safe, Decimal, Padded;
    RefHasNoBlank(e.unit);
    var s := RefOf(e.unit) + " " + Safe(e.name);
    assert s[0] == RefOf(e.unit)[0];
    assert s[|s| - 1] == Safe(e.name)[|Safe(e.name)| - 1];
  }

  /** No two units of one bank share a file name, whatever their patch names. */
  lemma {:induction false} StemsDiffer(e: Entry, f: Entry)
    requires Named(e.unit) && Named(f.unit) && e.unit != f.unit
    ensures StemOf(e) != StemOf(f)
  {
    hide RefOf, Safe, StemOf;
    StemIs(e);
    StemIs(f);
    RefHasNoBlank(e.unit);
    RefHasNoBlank(f.unit);
    if StemOf(e) == StemOf(f) {
      var a, b, x, y := RefOf(e.unit), RefOf(f.unit), Safe(e.name), Safe(f.name);
      AppendAssoc(a, " ", x);
      AppendAssoc(b, " ", y);
      FrontSplit(a, b, " " + x, " " + y, c => c != ' ');
      RefIsInjective(e.unit, f.unit);
    }
  }

  // ----- The explode loop -----

  /** name.upper().startswith("INIT"), for the printable names an entry can have. */
  predicate Placeholder(e: Entry) {
    |e.name| >= 4 && e.name[0] in "Ii" && e.name[1] in "Nn" && e.name[2] in "Ii" && e.name[3] in "Tt"
  }

  datatype Exploded = Exploded(stem: string, data: bytes, entry: Entry)

  /** Units of one bank: all different, each writable and named by its unit. */
  ghost predicate OneBank(entries: seq<Entry>) {
    && (forall i :: 0 <= i < |entries| ==> Writable(entries[i]) && Named(entries[i].unit))
    && (forall i, j :: 0 <= i < j < |entries| ==> entries[i].unit != entries[j].unit)
  }

  function Real(e: Entry): Option<Entry> {
    if Placeholder(e) then None else Some(e)
  }

  /** The files written for the units done so far. */
  ghost predicate FilesOf(files: seq<Exploded>, done: seq<Entry>) {
    && |files| == |done|
    && forall j :: 0 <= j < |files| ==>
         && files[j].entry == done[j] && files[j].stem == StemOf(done[j])
         && Writable(done[j]) && files[j].data == FileOf(done[j])
  }

  function Stems(files: seq<Exploded>): seq<string> {
    seq(|files|, i requires 0 <= i < |files| => files[i].stem)
  }

  /** Every unit that is no placeholder is written once, under its own name; the
      collision branch is never taken. */
  method Explode(entries: seq<Entry>, sha1: bytes -> string) returns (files: seq<Exploded>, collisions: nat)
    requires OneBank(entries)
    ensures collisions == 0 && FilesOf(files, Keep(entries, Real))
    ensures forall i, j :: 0 <= i < j < |files| ==> files[i].stem != files[j].stem
  {
    hide StemOf, FileOf, Placeholder, Named, Keep, FilesOf, OneBank, Writable, Safe, RefOf;
    files, collisions := [], 0;
    var used: set<string> := {};
    ghost var done: seq<Entry> := [];
    NoFiles();
    assert entries[0..] == entries;
    AppendNone(Keep(entries, Real));
    for i := 0 to |entries|
      invariant collisions == 0 && done + Keep(entries[i..], Real) == Keep(entries, Real)
      invariant forall e :: e in done ==> e in entries[..i]
      invariant FilesOf(files, done)
      invariant forall stem :: stem in used ==> stem in Stems(files)
      invariant forall j :: 0 <= j < |files| ==> files[j].stem in used
      invariant forall j, k :: 0 <= j < k < |files| ==> files[j].stem != files[k].stem
    {
      var e := entries[i];
      KeepTurn(entries, Real, i);
      assert entries[..i + 1] == entries[..i] + [e];
      AppendNone(Keep(entries[i + 1..], Real));
      if Placeholder(e) {
        continue;
      }
      AppendAssoc(done, [e], Keep(entries[i + 1..], Real));
      var stem := StemOf(e);
      var taken := stem in used;
      if taken {
        collisions := collisions + 1;
        stem := RefOf(e.unit) + " " + Safe(e.name) + " (" + Slice(sha1(e.blob), 0, 6) + ")";
      }
      NewStem(entries, i, files, done);
      assert !taken;
      used := used + {stem};
      var data := WriteUnit(e);
      ghost var stems := Stems(files);
      files := files + [Exploded(stem, data, e)];
      assert Stems(files) == stems + [stem];
      done := done + [e];
    }
    assert entries[|entries|..] == [];
    KeepsNone();
    AppendNone(done);
  }

  lemma {:induction false} NoFiles()
    ensures FilesOf([], [])
  {
  }

  lemma {:induction false} KeepsNone()
    ensures Keep<Entry, Entry>([], Real) == []
  {
  }

  /** The next unit's stem is new, and its file can be added. */
  lemma {:induction false} NewStem(entries: seq<Entry>, i: nat, files: seq<Exploded>, done: seq<Entry>)
    requires OneBank(entries) && i < |entries| && FilesOf(files, done) && forall e :: e in done ==> e in entries[..i]
    ensures forall j :: 0 <= j < |files| ==> files[j].stem != StemOf(entries[i])
    ensures Writable(entries[i])
    ensures FilesOf(files + [Exploded(StemOf(entries[i]), FileOf(entries[i]), entries[i])], done + [entries[i]])
  {
    hide StemOf, FileOf, Named, Writable;
    forall j | 0 <= j < |files| ensures files[j].stem != StemOf(entries[i]) {
      assert done[j] in done;
      var k :| 0 <= k < i && entries[k] == done[j];
      StemsDiffer(done[j], entries[i]);
    }
  }

  /** The units of a bank file are different, so exploding it never collides. */
  lemma {:induction false} EntriesAreOneBank(msgs: seq<Msg>)
    ensures OneBank(EntriesOf(msgs))
  {
    hide EntriesFrom, Grouped, Writable, Named;
    var entries := EntriesOf(msgs);
    GroupedUnits(msgs);
    forall i | 0 <= i < |entries| ensures Writable(entries[i]) && Named(entries[i].unit) {
      EntryTravels(msgs, i);
    }
    EntryUnitsDiffer(Grouped(msgs), Grouped(msgs).order);
    assert entries == EntriesFrom(Grouped(msgs), Grouped(msgs).order);
    assert forall i, j :: 0 <= i < j < |entries| ==> entries[i].unit != entries[j].unit;
  }

  lemma {:induction false} EntryTravels(msgs: seq<Msg>, i: nat)
    requires i < |EntriesOf(msgs)|
    ensures Writable(EntriesOf(msgs)[i]) && Named(EntriesOf(msgs)[i].unit)
  {
    hide EntriesOf, PrintableField, BlobOf;
    EntriesTravel(msgs, EntriesOf(msgs)[i]);
    TravellersAreNamed(EntriesOf(msgs)[i]);
  }

  lemma {:induction false} TravellersAreNamed(e: Entry)
    requires Writable(e) && e.pages != map[]
    ensures Named(e.unit)
  {
    var p :| p in e.pages;
  }

  lemma {:induction false} LastEntry(g: Grouping, units: seq<Unit>)
    requires units != [] && forall u :: u in units ==> u in g.groups
    ensures var n, es := |units| - 1, EntriesFrom(g, units);
            var before := EntriesFrom(g, units[..n]);
            es == before || exists e :: es == before + [e] && e.unit == units[n]
  {
    hide EntryOf;
    var n := |units| - 1;
    AppendNone(EntriesFrom(g, units[..n]));
    EntryKeepsUnit(units[n], g.groups[units[n]]);
  }

  lemma {:induction false} EntryUnits(g: Grouping, units: seq<Unit>)
    requires forall u :: u in units ==> u in g.groups
    ensures forall e :: e in EntriesFrom(g, units) ==> e.unit in units
  {
    forall e | e in EntriesFrom(g, units) ensures e.unit in units {
      EntryIsOf(g, units, e);
    }
  }

  lemma {:induction false} EntryUnitsDiffer(g: Grouping, units: seq<Unit>)
    requires forall u :: u in units ==> u in g.groups
    requires forall i, j :: 0 <= i < j < |units| ==> units[i] != units[j]
    ensures var es := EntriesFrom(g, units); forall i, j :: 0 <= i < j < |es| ==> es[i].unit != es[j].unit
    decreases |units|
  {
    if units != [] {
      var n := |units| - 1;
      EntryUnitsDiffer(g, units[..n]);
      LastEntry(g, units);
      EntryUnits(g, units[..n]);
      hide EntriesFrom;
      var es, before := EntriesFrom(g, units), EntriesFrom(g, units[..n]);
      forall i, j | 0 <= i < j < |es| ensures es[i].unit != es[j].unit {
        if j == |before| {
          assert before[i] in before && before[i].unit in units[..n];
        }
      }
    }
  }

  // ----- verify_exploded -----

  datatype Verdict = Fine | BadMessages | NotOneUnit | NoSidecar | NameMismatch | HashMismatch | ParamMismatch

  /** The fields of a sidecar that verify_exploded reads. */
  datatype Sidecar = Sidecar(name: string, hash: string, params: map<string, int>)

  /** build_patch_sidecar, as far as verify_exploded reads it. */
  function SidecarOf(e: Entry, sha1: bytes -> string): Sidecar {
    Sidecar(e.name, sha1(e.blob), e.params)
  }

  /** How a unit differs from a sidecar, in the order the fields are compared. */
  function Compared(e: Entry, s: Sidecar, sha1: bytes -> string): Verdict {
    if Strip(e.name) != Strip(s.name) then NameMismatch
    else if sha1(e.blob) != s.hash then HashMismatch
    else if e.params != s.params then ParamMismatch
    else Fine
  }

  /** The verdict on one exploded file and its sidecar, if it has one. */
  ghost function Checked(data: bytes, sidecar: Option<Sidecar>, sha1: bytes -> string): Verdict {
    var msgs := MessagesOf(data);
    if msgs == [] || exists m :: m in msgs && !m.ChecksumOk() then BadMessages
    else if |EntriesOf(msgs)| != 1 then NotOneUnit
    else if sidecar.None? then NoSidecar
    else Compared(EntriesOf(msgs)[0], sidecar.value, sha1)
  }

  method VerifyFile(data: bytes, sidecar: Option<Sidecar>, sha1: bytes -> string) returns (v: Verdict)
    ensures v == Checked(data, sidecar, sha1)
    ensures v == Fine <==>
            && MessagesOf(data) != [] && (forall m :: m in MessagesOf(data) ==> m.ChecksumOk())
            && |EntriesOf(MessagesOf(data))| == 1 && sidecar.Some?
            && var e, s := EntriesOf(MessagesOf(data))[0], sidecar.value;
               Strip(e.name) == Strip(s.name) && sha1(e.blob) == s.hash && e.params == s.params
  {
    hide Checksum, Strip, EntriesOf, MessagesOf, Msg.ChecksumOk;
    var msgs := ParseAll(data);
    if msgs == [] || !forall m :: m in msgs ==> m.ChecksumOk() {
      return BadMessages;
    }
    var entries := BuildEntries(msgs);
    if |entries| != 1 {
      return NotOneUnit;
    }
    if sidecar.None? {
      return NoSidecar;
    }
    var e, s := entries[0], sidecar.value;
    if Strip(e.name) != Strip(s.name) {
      return NameMismatch;
    }
    if sha1(e.blob) != s.hash {
      return HashMismatch;
    }
    if e.params != s.params {
      return ParamMismatch;
    }
    return Fine;
  }

  method ParseAll(data: bytes) returns (out: seq<Msg>)
    ensures out == MessagesOf(data)
  {
    hide XeniaSysex.RawMessages, ParseDt1;
    var bodies := Blocks(data);
    out := [];
    for i := 0 to |bodies|
      invariant out + Keep(bodies[i..], ParseDt1) == Keep(bodies, ParseDt1)
    {
      KeepTurn(bodies, ParseDt1, i);
      ghost var later := Keep(bodies[i + 1..], ParseDt1);
      AppendNone(later);
      var msg := ParseDt1(bodies[i]);
      if msg.Some? {
        AppendAssoc(out, [msg.value], later);
        out := out + [msg.value];
      }
    }
    AppendNone(out);
  }

  /** Every exploded file passes the check against the sidecar written beside it, for any
      hash function. */
  lemma {:induction false} ExplodedVerifies(msgs: seq<Msg>, e: Entry, sha1: bytes -> string)
    requires NoF7(msgs) && e in EntriesOf(msgs) && Addressable(e)
    ensures Writable(e) && Checked(FileOf(e), Some(SidecarOf(e, sha1)), sha1) == Fine
  {
    hide MessagesOf, EntriesOf, FileOf, Checksum, Strip;
    ExplodeRoundTrip(msgs, e);
  }

  /** Only the sidecar of the file's own unit passes,
      up to blanks around the name. */
  lemma {:induction false} OnlyOwnSidecar(msgs: seq<Msg>, e: Entry, s: Sidecar, sha1: bytes -> string)
    requires NoF7(msgs) && e in EntriesOf(msgs) && Addressable(e)
    ensures Writable(e)
    ensures Checked(FileOf(e), Some(s), sha1) == Fine <==>
            Strip(s.name) == Strip(e.name) && s.(name := e.name) == SidecarOf(e, sha1)
  {
    hide MessagesOf, EntriesOf, FileOf, Checksum, Strip;
    ExplodeRoundTrip(msgs, e);
  }

  /** The reference names of the documentation. */
  lemma {:induction false} ReferenceNames()
    ensures RefOf(Unit(PatchArea, 0, 25)) == "bank0-slot25"
    ensures RefOf(Unit(PerfPatch, 15, 1)) == "perf015-part1"
  {
    TwoDigits(25);
    TwoDigits(15);
    hide Decimal;
    assert Padded(25, 2) == "25";
    assert Padded(15, 3) == "015";
    OneDigit(0);
    OneDigit(1);
    hide Padded;
  }

  lemma {:induction false} OneDigit(n: nat)
    requires n < 10
    ensures Decimal(n) == [('0' as int + n) as char]
  {
  }

  lemma {:induction false} TwoDigits(n: nat)
    requires 10 <= n < 100
    ensures Decimal(n) == [('0' as int + n / 10) as char, ('0' as int + n % 10) as char]
  {
    OneDigit(n / 10);
  }
}
