/** Which byte of a Virus dump a name stands for, in absolute positions. */
module VirusPlaces {
  import opened Bytes
  import opened Ordering
  import opened VirusDump
  import opened VirusLaws
  import opened VirusCorpus
  import opened VirusMorphs
  import M = Morph

  /** The last slot of a name on the pages 112 to `to - 1`, in (page, index) order. */
  ghost predicate StandsAt(table: Table, name: string, to: nat, s: Slot) {
    && s in table && table[s] == name && 112 <= s.page < to && s.index < 128
    && forall t :: t in table && table[t] == name && 112 <= t.page < to && t.index < 128 ==>
                     t.page < s.page || (t.page == s.page && t.index <= s.index)
  }

  ghost function PagesEnd(m: Model): nat {
    if m.BC? then 114 else 116
  }

  lemma {:induction false} StandsAtLast(table: Table, m: Model, name: string, s: Slot)
    ensures StandsAt(table, name, PagesEnd(m), s) <==>
            name in Inverse(PageTable(table, m)) && s == Inverse(PageTable(table, m))[name]
  {
    var pages := PageTable(table, m);
    InverseIsLast(pages);
    assert forall t :: t in pages <==> t in table && 112 <= t.page < PagesEnd(m) && t.index < 128;
    if StandsAt(table, name, PagesEnd(m), s) {
      assert LastNamed(pages, name, s);
      assert pages[s] in pages.Values;
      LastIsUnique(pages, name, s, Inverse(pages)[name]);
    }
  }

  lemma {:induction false} ByteAt(d: bytes, m: Model, s: Slot)
    requires |d| == m.DumpLen() && OnPages(s, m)
    ensures 0 <= Offset(s) < m.PayloadLen() && Payload(d, m)[Offset(s)] == d[9 + 128 * (s.page - 112) + s.index]
  {
  }

  /** The decoded slots are those of the table on the pages of the dump's length, and the
      byte of a slot is the one at 9 + 128 * (page - 112) + index. */
  lemma {:induction false} SlotsHold(d: bytes, table: Table, m: Model, s: Slot)
    requires DumpModel(d) == Ok(m)
    ensures |d| == if m.BC? then 267 else 524
    ensures var v := SlotValues(Payload(d, m), m, table);
            && (s in v <==> s in table && 112 <= s.page < PagesEnd(m) && s.index < 128)
            && (s in v ==> v[s] == d[9 + 128 * (s.page - 112) + s.index])
  {
    if OnPages(s, m) {
      ByteAt(d, m, s);
    }
  }

  lemma {:induction false} NamesOnPages(table: Table, m: Model, name: string)
    ensures name in PageTable(table, m).Values <==>
            exists s :: s in table && table[s] == name && 112 <= s.page < PagesEnd(m) && s.index < 128
  {
    var pages := PageTable(table, m);
    if s :| s in table && table[s] == name && 112 <= s.page < PagesEnd(m) && s.index < 128 {
      assert s in pages && pages[s] == name;
    }
  }

  /** A framed dump decodes exactly the names with a slot on the pages of its length, each
      from the byte at 9 + 128 * (page - 112) + index of its last such slot. */
  lemma {:induction false} DecodedFrom(d: bytes, table: Table, m: Model, name: string)
    requires DumpModel(d) == Ok(m)
    ensures |d| == if m.BC? then 267 else 524
    ensures var v := Decode(Payload(d, m), m, table);
            name in v <==>
              exists s :: s in table && table[s] == name && 112 <= s.page < PagesEnd(m) && s.index < 128
    ensures forall s :: StandsAt(table, name, PagesEnd(m), s) ==>
              && name in Decode(Payload(d, m), m, table)
              && Decode(Payload(d, m), m, table)[name] == d[9 + 128 * (s.page - 112) + s.index]
  {
    NamesOnPages(table, m, name);
    hide Payload, PageTable, Decode, Inverse;
    DecodeReads(Payload(d, m), m, table);
    forall s | StandsAt(table, name, PagesEnd(m), s)
      ensures && name in Decode(Payload(d, m), m, table)
              && Decode(Payload(d, m), m, table)[name] == d[9 + 128 * (s.page - 112) + s.index]
    {
      StandsAtLast(table, m, name, s);
      ByteAt(d, m, s);
    }
  }

  /** The last slot of a name in the whole vocabulary. */
  ghost predicate EndsAt(table: Table, name: string, s: Slot) {
    && s in table && table[s] == name
    && forall t :: t in table && table[t] == name ==> t.page < s.page || (t.page == s.page && t.index <= s.index)
  }

  lemma {:induction false} EndsAtLast(table: Table, name: string, s: Slot)
    requires EndsAt(table, name, s)
    ensures name in Inverse(table) && Inverse(table)[name] == s
  {
    InverseIsLast(table);
    assert table[s] in table.Values;
    LastIsUnique(table, name, s, Inverse(table)[name]);
  }

  /** The writer accepts 7-bit values for names whose last slot is on a page, and puts each
      at 9 + 128 * (page - 112) + index of that slot. */
  lemma {:induction false} WrittenAt(base: bytes, o: map<string, int>, table: Table, m: Model, name: string, s: Slot)
    requires DumpModel(base) == Ok(m) && AllOnPages(o, table, m) && name in o && EndsAt(table, name, s)
    ensures Built(base, o, table).Ok?
    ensures var d := Built(base, o, table).value;
            |d| == |base| && 9 <= 9 + 128 * (s.page - 112) + s.index < |d|
            && d[9 + 128 * (s.page - 112) + s.index] == o[name]
  {
    OnPagesIsWritable(o, table, m);
    BuildPatches(base, o, table, m);
    EndsAtLast(table, name, s);
    hide Built, Inverse, Payload, Assemble, EndsAt, AllOnPages;
    ByteAt(Built(base, o, table).value, m, s);
  }

  ghost predicate AllOnPages(o: map<string, int>, table: Table, m: Model) {
    forall n :: n in o ==>
      0 <= o[n] <= 127 && exists s :: EndsAt(table, n, s) && 112 <= s.page < PagesEnd(m) && s.index < 128
  }

  lemma {:induction false} OnPagesIsWritable(o: map<string, int>, table: Table, m: Model)
    requires AllOnPages(o, table, m)
    ensures Writable(o, Inverse(table), m)
  {
    forall n | n in o ensures n in Inverse(table) && OnPages(Inverse(table)[n], m) {
      var s :| EndsAt(table, n, s) && 112 <= s.page < PagesEnd(m) && s.index < 128;
      EndsAtLast(table, n, s);
    }
  }

  /** Every other byte but the checksum is the base's. */
  lemma {:induction false} KeptAt(base: bytes, o: map<string, int>, table: Table, m: Model, i: nat)
    requires DumpModel(base) == Ok(m) && AllOnPages(o, table, m)
    requires i < |base| && i != |base| - 2
    requires forall n, s :: n in o && EndsAt(table, n, s) ==> i != 9 + 128 * (s.page - 112) + s.index
    ensures Built(base, o, table).Ok? && |Built(base, o, table).value| == |base|
    ensures Built(base, o, table).value[i] == base[i]
  {
    hide Built, Inverse, Assemble, AllOnPages, EndsAt, DumpModel, Framed, Payload;
    OnPagesIsWritable(o, table, m);
    BuildPatches(base, o, table, m);
    BuildIsValid(base, o, table);
    if 9 <= i < 9 + m.PayloadLen() {
      PayloadKeptAt(base, Built(base, o, table).value, o, table, m, i);
    }
  }

  lemma {:induction false} PayloadKeptAt(base: bytes, d: bytes, o: map<string, int>, table: Table, m: Model, i: nat)
    requires |base| == |d| == m.DumpLen() && 9 <= i < 9 + m.PayloadLen() && Writable(o, Inverse(table), m)
    requires Patched(Payload(base, m), Payload(d, m), o.Keys, o, Inverse(table))
    requires forall n, s :: n in o && EndsAt(table, n, s) ==> i != 9 + 128 * (s.page - 112) + s.index
    ensures d[i] == base[i]
  {
    var inv := Inverse(table);
    InverseIsLast(table);
    hide Inverse;
    forall n | n in o ensures Offset(inv[n]) != i - 9 {
      assert EndsAt(table, n, inv[n]);
    }
    assert d[i] == Payload(d, m)[i - 9] && base[i] == Payload(base, m)[i - 9];
  }

  /** The byte before the closing F7 is the 7-bit sum of all bytes from the device id to
      the end of the payload. */
  lemma {:induction false} SummedAt(base: bytes, o: map<string, int>, table: Table)
    requires Built(base, o, table).Ok?
    ensures var d := Built(base, o, table).value;
            && ((|d| == 267 && d[265] == Sum(d[5..265]) % 128) || (|d| == 524 && d[522] == Sum(d[5..521]) % 128))
            && d[0] == 0xF0 && d[1] == 0x00 && d[2] == 0x20 && d[3] == 0x33 && d[4] == 0x01 && d[6] == 0x10
            && d[|d| - 1] == 0xF7
  {
    BuildIsValid(base, o, table);
    var d, m := Built(base, o, table).value, DumpModel(base).value;
    hide Built;
    var end := 9 + m.PayloadLen();
    assert d[5..end] == d[5..9] + d[9..end];
    SumAppend(d[5..9], d[9..end]);
    assert Sum(d[5..9]) == d[5] as int + 0x10 + d[7] + d[8] by {
      SumFour(d[5..9]);
    }
    assert d[1] == d[1..4][0] && d[2] == d[1..4][1] && d[3] == d[1..4][2];
  }

  lemma {:induction false} SumFour(s: seq<int>)
    requires |s| == 4
    ensures Sum(s) == s[0] + s[1] + s[2] + s[3]
  {
    assert s[1..][1..] == s[2..] && s[2..][1..] == s[3..];
    assert s[3..] == [s[3]] && s[3..][1..] == [];
    assert Sum(s[2..]) == s[2] + Sum(s[3..]);
  }

  // ----- A morph step -----

  /** A written step in bytes: a key whose last slot is on a page has there the integer that
      the step's place between A and B gives. */
  lemma {:induction false} StepByte(c: M.Chain, hit: Hit, table: Table, isFx: string -> bool, at: M.Position,
      key: string, s: Slot)
    requires VerifiedChain(c, hit, table, isFx) && at.Valid() && ChangedOnPages(c, at, table, hit.model)
    requires key in c.a && EndsAt(table, key, s) && 112 <= s.page < PagesEnd(hit.model) && s.index < 128
    ensures StepDump(hit.dump, table, c.Intermediate(at).params).Ok?
    ensures var d := StepDump(hit.dump, table, c.Intermediate(at).params).value;
            && |d| == (if hit.model.BC? then 267 else 524)
            && M.WrittenFor(c, at, key, d[9 + 128 * (s.page - 112) + s.index])
  {
    hide Ints, Inverse, Decode, M.Chain.Intermediate, StepDump, ChangedOnPages, M.WrittenFor, VerifyChecksum, Payload,
      PageTable, EndsAt, StandsAt, VerifiedChain, DumpModel, Framed;
    EmissionIsFaithful(c, hit, table, isFx, at);
    var d := StepDump(hit.dump, table, c.Intermediate(at).params).value;
    EndsOnPages(table, key, hit.model, s);
    DecodedFrom(d, table, hit.model, key);
    KeyInts(c, hit, table, isFx, at, key);
  }

  lemma {:induction false} EndsOnPages(table: Table, name: string, m: Model, s: Slot)
    requires EndsAt(table, name, s) && 112 <= s.page < PagesEnd(m) && s.index < 128
    ensures StandsAt(table, name, PagesEnd(m), s)
  {
  }

  lemma {:induction false} KeyInts(c: M.Chain, hit: Hit, table: Table, isFx: string -> bool, at: M.Position,
      key: string)
    requires VerifiedChain(c, hit, table, isFx) && key in c.a
    ensures var ints := Ints(c.Intermediate(at).params); key in ints && M.WrittenFor(c, at, key, ints[key])
  {
    hide M.Chain.Intermediate, M.WrittenFor, Decode, Inverse;
    VerifiedKeys(hit, table, isFx, c.a);
    M.StepIsWritten(c, at, key);
  }

  // ----- Refusals -----

  /** The name's last slot, counted from the payload's start, is neither in the payload nor,
      negative, in it counted from its end. */
  ghost predicate OffPayload(table: Table, name: string, m: Model) {
    exists s :: EndsAt(table, name, s)
                && var off := 128 * (s.page - 112) + s.index;
                   off >= 128 * (PagesEnd(m) - 112) || off + 128 * (PagesEnd(m) - 112) < 0
  }

  /** Why the writer refuses one override; None if it does not. */
  ghost function Refusal(o: map<string, int>, table: Table, m: Model, n: string): Option<Error>
    requires n in o
  {
    if !(0 <= o[n] <= 127) then Some(OutOfRange(n))
    else if n !in table.Values then Some(UnknownName(n))
    else if OffPayload(table, n, m) then Some(IndexError(n))
    else None
  }

  lemma {:induction false} RefusalIs(p: bytes, o: map<string, int>, table: Table, m: Model, n: string)
    requires n in o && |p| == m.PayloadLen()
    ensures var one := WriteOne(p, n, o[n], Inverse(table));
            Refusal(o, table, m, n) == if one.Err? then Some(one.error) else None
  {
    InverseIsLast(table);
    hide Inverse;
    if n in table.Values {
      assert EndsAt(table, n, Inverse(table)[n]);
      forall s | EndsAt(table, n, s) ensures s == Inverse(table)[n] {
        EndsAtLast(table, n, s);
      }
    }
  }

  /** The writer's error is that of the first refused name in code-point order. */
  lemma {:induction false} FirstRefusal(base: bytes, o: map<string, int>, table: Table, m: Model)
    requires DumpModel(base) == Ok(m)
    ensures Built(base, o, table).Ok? <==> forall n :: n in o ==> Refusal(o, table, m, n).None?
    ensures Built(base, o, table).Err? ==>
              exists n :: n in o && Refusal(o, table, m, n) == Some(Built(base, o, table).error)
                          && forall k :: k in o && k != n && StringLe(k, n) ==> Refusal(o, table, m, k).None?
  {
    StringsAreOrdered();
    hide StringLe, Refusal, WriteAll, Assemble, Inverse, DumpModel;
    var names := Listed(o.Keys, StringLe);
    RefusedFirst(Payload(base, m), names, o, table, m);
    var r := WriteAll(Payload(base, m), names, o, Inverse(table));
    if r.Err? {
      var i :| 0 <= i < |names| && Refusal(o, table, m, names[i]) == Some(r.error)
               && forall j :: 0 <= j < i ==> Refusal(o, table, m, names[j]).None?;
      FirstListed(names, o, table, m, i);
    }
  }

  lemma {:induction false} FirstListed(names: seq<string>, o: map<string, int>, table: Table, m: Model, i: nat)
    requires Lists(names, o.Keys, StringLe) && TotalOrder(StringLe) && i < |names|
    requires forall j :: 0 <= j < i ==> names[j] in o && Refusal(o, table, m, names[j]).None?
    ensures names[i] in o
    ensures forall k :: k in o && k != names[i] && StringLe(k, names[i]) ==> Refusal(o, table, m, k).None?
  {
    hide StringLe, Refusal;
    assert names[i] in names;
    forall k | k in o && k != names[i] && StringLe(k, names[i]) ensures Refusal(o, table, m, k).None? {
      assert k in names;
      var j :| 0 <= j < |names| && names[j] == k;
    }
  }

  lemma {:induction false} RefusedFirst(p: bytes, names: seq<string>, o: map<string, int>, table: Table, m: Model)
    requires |p| == m.PayloadLen() && forall n :: n in names ==> n in o
    ensures var r := WriteAll(p, names, o, Inverse(table));
            && (r.Ok? ==> |r.value| == |p| && forall n :: n in names ==> Refusal(o, table, m, n).None?)
            && (r.Err? ==> exists i :: 0 <= i < |names| && Refusal(o, table, m, names[i]) == Some(r.error)
                                       && forall j :: 0 <= j < i ==> Refusal(o, table, m, names[j]).None?)
    decreases |names|
  {
    hide Refusal, WriteOne, Inverse;
    if names != [] {
      var n := |names| - 1;
      assert names == names[..n] + [names[n]];
      RefusedFirst(p, names[..n], o, table, m);
      var before := WriteAll(p, names[..n], o, Inverse(table));
      if before.Err? {
        var i :| 0 <= i < n && Refusal(o, table, m, names[..n][i]) == Some(before.error)
                 && forall j :: 0 <= j < i ==> Refusal(o, table, m, names[..n][j]).None?;
        assert names[i] == names[..n][i];
      } else {
        RefusalIs(before.value, o, table, m, names[n]);
      }
    }
  }

  /** One override of any vocabulary: written at its last slot, counted from the payload's
      end where the slot lies below the first page, as Python does; all else is kept. */
  lemma {:induction false} OneWrittenAt(base: bytes, n: string, v: int, table: Table, m: Model, s: Slot)
    requires DumpModel(base) == Ok(m) && EndsAt(table, n, s) && Built(base, map[n := v], table).Ok?
    ensures |Built(base, map[n := v], table).value| == |base|
    ensures var d, off := Built(base, map[n := v], table).value, 128 * (s.page - 112) + s.index;
            var at := 9 + if off < 0 then off + 128 * (PagesEnd(m) - 112) else off;
            && 9 <= at < |base| - 2 && d[at] == v
            && forall i :: 0 <= i < |base| && i != at && i != |base| - 2 ==> d[i] == base[i]
  {
    hide Assemble, Inverse, Built, EndsAt;
    EndsAtLast(table, n, s);
    BuiltOne(base, n, v, table, m);
    var p := WriteOne(Payload(base, m), n, v, Inverse(table)).value;
    AssembleFrames(base, m, p);
    var d := Assemble(base, m, p);
    assert d[9..9 + m.PayloadLen()] == p;
    forall i | 9 <= i < 9 + m.PayloadLen() ensures d[i] == p[i - 9] {
      assert d[9..9 + m.PayloadLen()][i - 9] == d[i];
    }
  }
}
