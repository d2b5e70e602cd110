/** The laws of the Virus writer against the Virus decoder, for any vocabulary. */
module VirusLaws {
  import opened Bytes
  import opened Ordering
  import opened VirusDump
  import VirusSmf

  // ----- What the writing loop writes -----

  predicate Injective(inv: map<string, Slot>) {
    forall a, b :: a in inv && b in inv && a != b ==> inv[a] != inv[b]
  }

  lemma {:induction false} InverseIsInjective(table: Table)
    ensures Injective(Inverse(table))
  {
    InverseIsLast(table);
  }

  /** Every override is a 7-bit value for a name whose last slot is on a model page. */
  predicate Writable(o: map<string, int>, inv: map<string, Slot>, m: Model) {
    forall n :: n in o ==> 0 <= o[n] <= 127 && n in inv && OnPages(inv[n], m)
  }

  /** q is p with the named bytes, and no other, replaced. */
  ghost predicate Patched(p: bytes, q: bytes, names: set<string>, o: map<string, int>, inv: map<string, Slot>)
    requires names <= o.Keys && names <= inv.Keys
  {
    && |q| == |p|
    && (forall n :: n in names ==> 0 <= Offset(inv[n]) < |q| && q[Offset(inv[n])] == o[n])
    && (forall i :: 0 <= i < |p| && (forall n :: n in names ==> Offset(inv[n]) != i) ==> q[i] == p[i])
  }

  lemma {:induction false} WriteOnePatches(p: bytes, q: bytes, m: Model, names: set<string>, name: string,
      o: map<string, int>, inv: map<string, Slot>)
    requires |p| == m.PayloadLen() && Injective(inv) && Writable(o, inv, m)
    requires names <= o.Keys && name in o && name !in names
    requires Patched(p, q, names, o, inv)
    ensures WriteOne(q, name, o[name], inv).Ok?
    ensures Patched(p, WriteOne(q, name, o[name], inv).value, names + {name}, o, inv)
  {
    var i := Offset(inv[name]);
    OffsetsOnPages(inv[name], inv[name], m);
    forall n | n in names ensures Offset(inv[n]) != i {
      OffsetsOnPages(inv[n], inv[name], m);
    }
  }

  lemma {:induction false} WriteAllPatches(p: bytes, m: Model, names: seq<string>, o: map<string, int>,
      inv: map<string, Slot>)
    requires |p| == m.PayloadLen() && Injective(inv) && Writable(o, inv, m)
    requires forall n :: n in names ==> n in o
    requires forall i, j :: 0 <= i < j < |names| ==> names[i] != names[j]
    ensures WriteAll(p, names, o, inv).Ok?
    ensures Patched(p, WriteAll(p, names, o, inv).value, (set n | n in names), o, inv)
    decreases |names|
  {
    hide Patched, Injective, WriteOne, Offset, OnPages;
    assert forall n :: n in (set n | n in names) ==> n in o && n in inv;
    if names == [] {
      assert Patched(p, p, {}, o, inv) by {
        NothingPatched(p, o, inv);
      }
      assert (set n | n in names) == {};
    } else {
      var k := |names| - 1;
      assert names == names[..k] + [names[k]];
      WriteAllPatches(p, m, names[..k], o, inv);
      var before := set n | n in names[..k];
      assert names[k] !in before && names[k] in names;
      assert before + {names[k]} == set n | n in names;
      WriteOnePatches(p, WriteAll(p, names[..k], o, inv).value, m, before, names[k], o, inv);
    }
  }

  lemma {:induction false} NothingPatched(p: bytes, o: map<string, int>, inv: map<string, Slot>)
    ensures Patched(p, p, {}, o, inv)
  {
  }

  lemma {:induction false} PatchedUnique(p: bytes, q: bytes, r: bytes, names: set<string>, o: map<string, int>,
      inv: map<string, Slot>)
    requires names <= o.Keys && names <= inv.Keys
    requires Patched(p, q, names, o, inv) && Patched(p, r, names, o, inv)
    ensures q == r
  {
    forall i | 0 <= i < |p| ensures q[i] == r[i] {
      if n :| n in names && Offset(inv[n]) == i {
      }
    }
  }

  // ----- Frames around a payload -----

  lemma {:induction false} AssembleFrames(base: bytes, m: Model, p: bytes)
    requires Framed(base, m) && |p| == m.PayloadLen()
    ensures var d := Assemble(base, m, p);
            && Framed(d, m) && Payload(d, m) == p && VerifyChecksum(d, m)
            && (forall i :: 0 <= i < 9 ==> d[i] == base[i])
            && (forall i :: 9 + m.PayloadLen() <= i < m.ChecksumAt() ==> d[i] == base[i])
  {
    var d := Assemble(base, m, p);
    var tail := base[9 + m.PayloadLen()..m.ChecksumAt()];
    assert d[..9] == base[..9];
    assert d[9..9 + m.PayloadLen()] == p;
    assert forall i :: 0 <= i < 9 ==> d[i] == base[..9][i];
    assert d[1..4] == base[..9][1..4] == base[1..4];
  }

  /** Only the header and the pad of a dump survive a new payload. */
  lemma {:induction false} AssembleTwice(base: bytes, m: Model, p: bytes, q: bytes)
    requires Framed(base, m) && |p| == m.PayloadLen() && |q| == m.PayloadLen()
    ensures Assemble(Assemble(base, m, p), m, q) == Assemble(base, m, q)
  {
    AssembleFrames(base, m, p);
    var d := Assemble(base, m, p);
    assert d[..9] == base[..9];
    assert d[9 + m.PayloadLen()..m.ChecksumAt()] == base[9 + m.PayloadLen()..m.ChecksumAt()];
  }

  lemma {:induction false} AssembleSame(base: bytes, m: Model)
    requires Framed(base, m)
    ensures Assemble(base, m, Payload(base, m)) == base <==> VerifyChecksum(base, m)
  {
    var d := Assemble(base, m, Payload(base, m));
    AssembleFrames(base, m, Payload(base, m));
    assert d[|d| - 1] == 0xF7 && d[m.ChecksumAt()] == VirusSmf.Checksum(base, m.PayloadLen());
    assert forall i :: 9 <= i < 9 + m.PayloadLen() ==> d[i] == Payload(d, m)[i - 9] == base[i];
  }

  // ----- Building -----

  /** A writable build succeeds; its payload is the base's with the named bytes replaced. */
  lemma {:induction false} BuildPatches(base: bytes, o: map<string, int>, table: Table, m: Model)
    requires Framed(base, m) && Writable(o, Inverse(table), m)
    ensures Built(base, o, table).Ok?
    ensures var d := Built(base, o, table).value;
            && |d| == m.DumpLen() && d == Assemble(base, m, Payload(d, m))
            && Patched(Payload(base, m), Payload(d, m), o.Keys, o, Inverse(table))
  {
    StringsAreOrdered();
    var names := Listed(o.Keys, StringLe);
    var inv := Inverse(table);
    assert (set n | n in names) == o.Keys;
    InverseIsInjective(table);
    WriteAllPatches(Payload(base, m), m, names, o, inv);
    hide Patched, WriteAll, Assemble, Writable, Injective, Inverse, Lists;
    AssembleFrames(base, m, WriteAll(Payload(base, m), names, o, inv).value);
  }

  /** Every dump the writer returns is strictly framed, keeps header and pad, and
      passes the decoder's checksum rule, whatever the base's checksum was. */
  lemma {:induction false} BuildIsValid(base: bytes, o: map<string, int>, table: Table)
    requires Built(base, o, table).Ok?
    ensures var d, m := Built(base, o, table).value, DumpModel(base).value;
            && DumpModel(base).Ok? && DumpModel(d) == Ok(m) && VerifyChecksum(d, m)
            && (forall i :: 0 <= i < |d| && !(9 <= i < 9 + m.PayloadLen()) && i != m.ChecksumAt() ==> d[i] == base[i])
  {
    StringsAreOrdered();
    var m := DumpModel(base).value;
    var p := WriteAll(Payload(base, m), Listed(o.Keys, StringLe), o, Inverse(table)).value;
    hide WriteAll, Assemble, Inverse, Lists;
    AssembleFrames(base, m, p);
  }

  lemma {:induction false} LastOnPages(table: Table, m: Model, n: string)
    requires n in Inverse(table) && OnPages(Inverse(table)[n], m)
    ensures n in Inverse(PageTable(table, m)) && Inverse(PageTable(table, m))[n] == Inverse(table)[n]
  {
    var pages := PageTable(table, m);
    InverseIsLast(table);
    InverseIsLast(pages);
    var s := Inverse(table)[n];
    assert s in pages && pages[s] == n;
    LastIsUnique(pages, n, s, Inverse(pages)[n]);
  }

  lemma {:induction false} DecodeReads(p: bytes, m: Model, table: Table)
    requires |p| == m.PayloadLen()
    ensures var v, inv := Decode(p, m, table), Inverse(PageTable(table, m));
            && v.Keys == inv.Keys
            && forall n :: n in inv ==> OnPages(inv[n], m) && 0 <= Offset(inv[n]) < |p| && v[n] == p[Offset(inv[n])]
  {
    var pages := PageTable(table, m);
    InverseIsLast(pages);
    forall n | n in Inverse(pages) ensures OnPages(Inverse(pages)[n], m) && 0 <= Offset(Inverse(pages)[n]) < |p| {
      OffsetsOnPages(Inverse(pages)[n], Inverse(pages)[n], m);
    }
  }

  lemma {:induction false} PatchedDecodesAt(p: bytes, q: bytes, o: map<string, int>, table: Table, m: Model, n: string)
    requires |p| == m.PayloadLen() && |q| == |p| && Writable(o, Inverse(table), m)
    requires Patched(p, q, o.Keys, o, Inverse(table))
    requires n in Inverse(PageTable(table, m))
    ensures var s := Inverse(PageTable(table, m))[n];
            OnPages(s, m) && 0 <= Offset(s) < |p| && q[Offset(s)] == if n in o then o[n] else p[Offset(s)] as int
  {
    var s := Inverse(PageTable(table, m))[n];
    InverseIsLast(table);
    InverseIsLast(PageTable(table, m));
    OffsetsOnPages(s, s, m);
    if n in o {
      LastOnPages(table, m, n);
    } else {
      forall k | k in o ensures Offset(Inverse(table)[k]) != Offset(s) {
        OffsetsOnPages(Inverse(table)[k], s, m);
      }
    }
  }

  lemma {:induction false} PatchedNames(o: map<string, int>, table: Table, m: Model)
    requires Writable(o, Inverse(table), m)
    ensures o.Keys <= PageTable(table, m).Values
  {
    InverseIsLast(PageTable(table, m));
    forall n | n in o ensures n in Inverse(PageTable(table, m)) {
      LastOnPages(table, m, n);
    }
  }

  lemma {:induction false} PatchedValue(p: bytes, q: bytes, o: map<string, int>, table: Table, m: Model, n: string)
    requires |p| == m.PayloadLen() && |q| == |p| && Writable(o, Inverse(table), m)
    requires Patched(p, q, o.Keys, o, Inverse(table))
    requires n in Decode(p, m, table)
    ensures n in Decode(q, m, table) && Decode(q, m, table)[n] == if n in o then o[n] else Decode(p, m, table)[n]
  {
    DecodeReads(p, m, table);
    DecodeReads(q, m, table);
    PatchedDecodesAt(p, q, o, table, m, n);
    hide *;
  }

  lemma {:induction false} PatchedDecodes(p: bytes, q: bytes, o: map<string, int>, table: Table, m: Model)
    requires |p| == m.PayloadLen() && |q| == |p| && Writable(o, Inverse(table), m)
    requires Patched(p, q, o.Keys, o, Inverse(table))
    ensures Decode(q, m, table) == Decode(p, m, table) + o
  {
    hide Patched, Writable, Decode, Inverse, PageTable;
    PatchedNames(o, table, m);
    forall n | n in Decode(p, m, table)
      ensures n in Decode(q, m, table) && Decode(q, m, table)[n] == if n in o then o[n] else Decode(p, m, table)[n]
    {
      PatchedValue(p, q, o, table, m, n);
    }
  }

  /** Put-get, with its frame: a dump decodes to its base's values overwritten by the overrides. */
  lemma {:induction false} PutGet(base: bytes, o: map<string, int>, table: Table, m: Model)
    requires Framed(base, m) && Writable(o, Inverse(table), m)
    ensures Built(base, o, table).Ok?
    ensures var d := Built(base, o, table).value;
            |d| == m.DumpLen() && Decode(Payload(d, m), m, table) == Decode(Payload(base, m), m, table) + o
  {
    BuildPatches(base, o, table, m);
    hide Patched, Decode, Assemble, Writable;
    PatchedDecodes(Payload(base, m), Payload(Built(base, o, table).value, m), o, table, m);
  }

  /** Put-put: of two builds in a row the second wins, name by name. */
  lemma {:induction false} PutPut(base: bytes, first: map<string, int>, second: map<string, int>, table: Table,
      m: Model)
    requires Framed(base, m) && Writable(first, Inverse(table), m) && Writable(second, Inverse(table), m)
    ensures Built(base, first, table).Ok?
    ensures Built(Built(base, first, table).value, second, table) == Built(base, first + second, table)
  {
    var inv := Inverse(table);
    var both := first + second;
    assert Writable(both, inv, m);
    hide Assemble, Decode, Built, Patched, Writable, Inverse, Injective;
    InverseIsInjective(table);
    BuildPatches(base, first, table, m);
    var d := Built(base, first, table).value;
    var p, q := Payload(base, m), Payload(d, m);
    AssembleFrames(base, m, q);
    BuildPatches(d, second, table, m);
    BuildPatches(base, both, table, m);
    var r := Payload(Built(d, second, table).value, m);
    PatchedTwice(p, q, r, first, second, inv, m);
    PatchedUnique(p, r, Payload(Built(base, both, table).value, m), both.Keys, both, inv);
    AssembleTwice(base, m, q, r);
  }

  lemma {:induction false} PatchedTwice(p: bytes, q: bytes, r: bytes, first: map<string, int>,
      second: map<string, int>, inv: map<string, Slot>, m: Model)
    requires Writable(first, inv, m) && Writable(second, inv, m) && Injective(inv) && |p| == m.PayloadLen()
    requires Patched(p, q, first.Keys, first, inv) && Patched(q, r, second.Keys, second, inv)
    ensures Patched(p, r, (first + second).Keys, first + second, inv)
  {
    var both := first + second;
    forall n | n in both ensures 0 <= Offset(inv[n]) < |r| && r[Offset(inv[n])] == both[n] {
      if n !in second {
        forall k | k in second ensures Offset(inv[k]) != Offset(inv[n]) {
          OffsetsOnPages(inv[k], inv[n], m);
        }
      }
    }
    forall i | 0 <= i < |p| && forall n :: n in both ==> Offset(inv[n]) != i ensures r[i] == p[i] {
      assert forall n :: n in first ==> n in both;
      assert forall n :: n in second ==> n in both;
    }
  }

  /** Builds on disjoint names commute. */
  lemma {:induction false} DisjointBuildsCommute(base: bytes, a: map<string, int>, b: map<string, int>, table: Table,
      m: Model)
    requires Framed(base, m) && Writable(a, Inverse(table), m) && Writable(b, Inverse(table), m) && a.Keys !! b.Keys
    ensures Built(base, a, table).Ok? && Built(base, b, table).Ok?
    ensures Built(Built(base, a, table).value, b, table) == Built(Built(base, b, table).value, a, table)
  {
    hide Built, Writable, Inverse, Framed;
    PutPut(base, a, b, table, m);
    PutPut(base, b, a, table, m);
    assert a + b == b + a;
  }

  /** Get-put: writing back what was read, or nothing at all, gives the base's own
      bytes exactly when the base's checksum was right. */
  lemma {:induction false} GetPut(base: bytes, o: map<string, int>, table: Table, m: Model)
    requires Framed(base, m) && Writable(o, Inverse(table), m)
    requires forall n :: n in o ==>
               n in Decode(Payload(base, m), m, table) && o[n] == Decode(Payload(base, m), m, table)[n]
    ensures Built(base, o, table) == Ok(base) <==> VerifyChecksum(base, m)
  {
    var inv, p := Inverse(table), Payload(base, m);
    hide Assemble, Patched, Inverse, Decode, Built, Framed, Payload, Writable;
    BuildPatches(base, o, table, m);
    SelfPatched(p, o, table, m);
    PatchedUnique(p, p, Payload(Built(base, o, table).value, m), o.Keys, o, inv);
    AssembleSame(base, m);
  }

  lemma {:induction false} SelfPatched(p: bytes, o: map<string, int>, table: Table, m: Model)
    requires |p| == m.PayloadLen() && Writable(o, Inverse(table), m)
    requires forall n :: n in o ==> n in Decode(p, m, table) && o[n] == Decode(p, m, table)[n]
    ensures o.Keys <= Inverse(table).Keys && Patched(p, p, o.Keys, o, Inverse(table))
  {
    var inv := Inverse(table);
    forall n | n in o ensures 0 <= Offset(inv[n]) < |p| && p[Offset(inv[n])] == o[n] {
      LastOnPages(table, m, n);
      OffsetsOnPages(inv[n], inv[n], m);
    }
  }

  predicate Offends(n: string, v: int, inv: map<string, Slot>, length: int) {
    !(0 <= v <= 127) || n !in inv || WriteIndex(Offset(inv[n]), length).None?
  }

  lemma {:induction false} WriteAllFails(p: bytes, names: seq<string>, o: map<string, int>, inv: map<string, Slot>)
    requires forall n :: n in names ==> n in o
    ensures WriteAll(p, names, o, inv).Err? <==> exists n :: n in names && Offends(n, o[n], inv, |p|)
    decreases |names|
  {
    if names != [] {
      var k := |names| - 1;
      assert names == names[..k] + [names[k]];
      WriteAllFails(p, names[..k], o, inv);
    }
  }

  /** The writer refuses exactly an unframed base, a value that is not 7-bit, an
      unknown name, or a slot outside the payload. */
  lemma {:induction false} BuildFails(base: bytes, o: map<string, int>, table: Table)
    ensures Built(base, o, table).Err? <==>
            || DumpModel(base).Err?
            || exists n :: n in o && Offends(n, o[n], Inverse(table), DumpModel(base).value.PayloadLen())
  {
    StringsAreOrdered();
    if DumpModel(base).Ok? {
      var names := Listed(o.Keys, StringLe);
      hide WriteAll, Assemble, Offends, Inverse;
      WriteAllFails(Payload(base, DumpModel(base).value), names, o, Inverse(table));
    }
  }

  // ----- Which names can be written -----

  /** The writer reads back what it writes for a name, whatever the value, exactly
      when the name's last vocabulary slot is on a page of the model. */
  lemma {:induction false} WritableNames(base: bytes, n: string, table: Table, m: Model)
    requires Framed(base, m) && n in Inverse(table)
    ensures OnPages(Inverse(table)[n], m) <==>
            forall v :: 0 <= v <= 127 ==> ReadsBack(base, n, v, table, m)
  {
    var s := Inverse(table)[n];
    if OnPages(s, m) {
      forall v | 0 <= v <= 127 ensures ReadsBack(base, n, v, table, m) {
        PutGet(base, map[n := v], table, m);
        BuildIsValid(base, map[n := v], table);
      }
    } else {
      var pages := PageTable(table, m);
      InverseIsLast(pages);
      var was := if n in Inverse(pages) then Decode(Payload(base, m), m, table)[n] else 0;
      var v := if was == 0 then 1 else 0;
      OffPageLoses(base, n, v, table, m);
      assert !ReadsBack(base, n, v, table, m);
    }
  }

  ghost predicate ReadsBack(base: bytes, n: string, v: int, table: Table, m: Model)
    requires Framed(base, m)
  {
    var r := Built(base, map[n := v], table);
    r.Ok? && |r.value| == m.DumpLen()
    && n in Decode(Payload(r.value, m), m, table) && Decode(Payload(r.value, m), m, table)[n] == v
  }

  /** An off-page last slot never shares a byte with an on-page slot of the same name. */
  lemma {:induction false} OffPageApart(s: Slot, t: Slot, m: Model)
    requires OnPages(t, m) && !OnPages(s, m) && SlotLe(t, s)
    ensures WriteIndex(Offset(s), m.PayloadLen()) != Some(Offset(t))
  {
  }

  lemma {:induction false} BuiltOne(base: bytes, n: string, v: int, table: Table, m: Model)
    requires Framed(base, m)
    ensures var one := WriteOne(Payload(base, m), n, v, Inverse(table));
            Built(base, map[n := v], table) == if one.Err? then Err(one.error) else Ok(Assemble(base, m, one.value))
  {
    StringsAreOrdered();
    var o := map[n := v];
    assert o.Keys == {n};
    ListsUnique(Listed(o.Keys, StringLe), [n], {n}, StringLe);
    assert [n][..0] == [];
    hide Assemble, WriteOne, Lists;
    assert WriteAll(Payload(base, m), [n], o, Inverse(table)) == WriteOne(Payload(base, m), n, v, Inverse(table));
  }

  lemma {:induction false} OffPageLoses(base: bytes, n: string, v: int, table: Table, m: Model)
    requires Framed(base, m) && n in Inverse(table) && !OnPages(Inverse(table)[n], m)
    requires n in Decode(Payload(base, m), m, table) ==> v != Decode(Payload(base, m), m, table)[n]
    ensures !ReadsBack(base, n, v, table, m)
  {
    var p := Payload(base, m);
    var one := WriteOne(p, n, v, Inverse(table));
    BuiltOne(base, n, v, table, m);
    if one.Ok? {
      AssembleFrames(base, m, one.value);
      if n in Decode(p, m, table) {
        OffPageKeeps(p, n, v, table, m);
      }
    }
    hide Assemble, WriteOne, Decode, Built, Payload;
  }

  lemma {:induction false} OffPageKeeps(p: bytes, n: string, v: int, table: Table, m: Model)
    requires |p| == m.PayloadLen() && n in Inverse(table) && !OnPages(Inverse(table)[n], m)
    requires WriteOne(p, n, v, Inverse(table)).Ok? && n in Decode(p, m, table)
    ensures Decode(WriteOne(p, n, v, Inverse(table)).value, m, table)[n] == Decode(p, m, table)[n]
  {
    var q := WriteOne(p, n, v, Inverse(table)).value;
    var pin := Inverse(PageTable(table, m));
    DecodeReads(p, m, table);
    DecodeReads(q, m, table);
    LastOnPagesIsEarlier(table, m, n);
    OffPageApart(Inverse(table)[n], pin[n], m);
    hide Decode, Inverse, SlotLe, OnPages, Offset, PageTable;
  }

  lemma {:induction false} LastOnPagesIsEarlier(table: Table, m: Model, n: string)
    requires n in Inverse(table) && n in Inverse(PageTable(table, m))
    ensures SlotLe(Inverse(PageTable(table, m))[n], Inverse(table)[n])
  {
    InverseIsLast(table);
    InverseIsLast(PageTable(table, m));
  }
}
