/** Which bytes of a Microwave dump a parameter, a name and a step stand for, in absolute
    positions. */
module XeniaPlaces {
  import opened Bytes
  import opened Text
  import opened XeniaDump
  import opened XeniaBank
  import opened XeniaMorphs
  import XeniaSysex
  import M = Morph

  // ----- The writer -----

  /** The key stands for parameter i: the index itself, or a name mapped to byte 7 + i. */
  predicate Addresses(key: Key, offsets: map<string, int>, i: int) {
    match key
    case Index(j) => j == i
    case Name(n) => n in offsets && offsets[n] == 7 + i
  }

  lemma {:induction false} AddressesIsIndex(key: Key, offsets: map<string, int>, i: nat)
    requires i < 240
    ensures Addresses(key, offsets, i) <==> ParamIndex(key, offsets) == Some(i)
  {
  }

  /** Byte 7 + i is the largest override for parameter i, or x where nothing addresses it. */
  ghost predicate ParameterHeld(d: bytes, o: Overrides, offsets: map<string, int>, i: nat, x: int)
    requires |d| == 265 && i < 240
  {
    var held: int := d[7 + i];
    && (forall k :: k in o && Addresses(k, offsets, i) ==> o[k] <= held)
    && ((exists k :: k in o && Addresses(k, offsets, i) && held == o[k])
        || (held == x && forall k :: k in o ==> !Addresses(k, offsets, i)))
  }

  lemma {:induction false} OverlaidParameter(d: bytes, o: Overrides, offsets: map<string, int>, name: Option<string>,
      i: nat)
    requires |d| == 265 && ValidOverrides(o, offsets) && (name.Some? ==> Latin1(name.value)) && i < 240
    ensures ParameterHeld(Overlay(d, o, offsets, name), o, offsets, i, d[7 + i])
  {
    var s := Candidates(o, offsets, i);
    forall k | k in o ensures Addresses(k, offsets, i) <==> ParamIndex(k, offsets) == Some(i) {
      AddressesIsIndex(k, offsets, i);
    }
    hide Addresses, ParamIndex, ValidOverrides;
    forall k | k in o && Addresses(k, offsets, i) ensures o[k] in s {
      assert ParamIndex(k, offsets) == Some(i);
    }
    if s != {} {
      assert Largest(s) in s;
    }
  }

  /** The name from byte 247 on, filled with blanks. */
  predicate NameHeldAt(d: bytes, name: string)
    requires |d| == 265
  {
    forall j :: 0 <= j < 16 ==> d[247 + j] as int == if j < |name| then name[j] as int else 0x20
  }

  /** What patch_dump writes: the addressed parameters, the name if one is given, the 7-bit
      sum of both, and nothing else. */
  lemma {:induction false} PatchedAt(d: bytes, o: Overrides, offsets: map<string, int>, name: Option<string>)
    requires Patched(d, o, offsets, name).Ok?
    ensures |d| == 265
    ensures var r := Patched(d, o, offsets, name).value;
            && |r| == 265
            && (forall k :: 7 <= k < 247 ==> ParameterHeld(r, o, offsets, k - 7, d[k]))
            && (name.Some? ==> NameHeldAt(r, name.value))
            && (name.None? ==> r[247..263] == d[247..263])
            && r[263] == Sum(r[7..263]) % 128
            && r[..7] == d[..7] && r[264] == d[264]
  {
    hide Sum, ValidOverrides, ParameterHeld, Candidates;
    var p, r := Overlay(d, o, offsets, name), Patched(d, o, offsets, name).value;
    assert r[7..263] == p[7..263];
    forall k | 7 <= k < 247 ensures ParameterHeld(r, o, offsets, k - 7, d[k]) {
      OverlaidParameter(d, o, offsets, name, k - 7);
      HeldAlike(p, r, o, offsets, k - 7, d[k]);
    }
  }

  lemma {:induction false} HeldAlike(p: bytes, r: bytes, o: Overrides, offsets: map<string, int>, i: nat, x: int)
    requires |p| == |r| == 265 && i < 240 && p[7 + i] == r[7 + i] && ParameterHeld(p, o, offsets, i, x)
    ensures ParameterHeld(r, o, offsets, i, x)
  {
  }

  /** Every key addresses a parameter and has a 7-bit value. */
  ghost predicate Addressable(o: Overrides, offsets: map<string, int>) {
    forall k :: k in o ==>
      && 0 <= o[k] <= 127
      && match k
         case Index(j) => 0 <= j < 240
         case Name(n) => n in offsets && 7 <= offsets[n] <= 246
  }

  lemma {:induction false} AddressableIsValid(o: Overrides, offsets: map<string, int>)
    ensures Addressable(o, offsets) <==> ValidOverrides(o, offsets)
  {
    forall k: Key
      ensures ParamIndex(k, offsets).Some? <==>
              match k
              case Index(j) => 0 <= j < 240
              case Name(n) => n in offsets && 7 <= offsets[n] <= 246
    {
    }
    hide ParamIndex;
  }

  /** What build_single_dump writes, byte for byte, and exactly when it refuses. */
  lemma {:induction false} BuiltAt(p: Patch, offsets: map<string, int>)
    ensures BuildOf(p, offsets).Ok? <==>
            && 0 <= p.device <= 127 && 0 <= p.bank <= 127 && 0 <= p.program <= 127
            && (forall i :: i in p.base ==> 0 <= i < 240 && 0 <= p.base[i] <= 127)
            && Addressable(p.overrides, offsets)
            && (p.name.Some? ==> forall j :: 0 <= j < |p.name.value| ==> p.name.value[j] as int < 256)
    ensures BuildOf(p, offsets).Ok? ==>
              var d := BuildOf(p, offsets).value;
              && |d| == 265
              && d[0] == 0xF0 && d[1] == 0x3E && d[2] == 0x0E && d[3] == p.device && d[4] == 0x10
              && d[5] == p.bank && d[6] == p.program
              && (forall i :: 0 <= i < 240 ==>
                    ParameterHeld(d, p.overrides, offsets, i, if i in p.base then p.base[i] else 0))
              && (p.name.Some? ==> NameHeldAt(d, p.name.value))
              && (p.name.None? ==> forall j :: 247 <= j < 263 ==> d[j] == 0)
              && d[263] == Sum(d[7..263]) % 128 && d[264] == 0xF7
  {
    AddressableIsValid(p.overrides, offsets);
    if BuildOf(p, offsets).Ok? {
      hide Sum, ValidOverrides, ParameterHeld, Patched, Addressable, NameHeldAt;
      var blank := Blank(p.base, p.device, p.bank, p.program);
      forall i | 0 <= i < 240 ensures blank[7 + i] == if i in p.base then p.base[i] else 0 {
      }
      PatchedAt(Blank(p.base, p.device, p.bank, p.program), p.overrides, offsets, p.name);
    }
  }

  // ----- The loaders -----

  /** The row of a dump: parameter i at 7 + i, the name from 247 on without white space at
      its end. */
  predicate RowHeld(row: Row, d: bytes, field: bytes) {
    && |row.params| == 240 && |d| == 265 && row.dump == d
    && (forall i :: 0 <= i < 240 ==> row.params[i] == d[7 + i])
    && |row.name| <= |field|
    && (forall j :: 0 <= j < |row.name| ==> row.name[j] as int == field[j])
    && (row.name != "" ==> !IsSpace(row.name[|row.name| - 1]))
    && (forall j :: |row.name| <= j < |field| ==> IsSpace(field[j] as char))
  }

  lemma {:induction false} NameRead(field: bytes, name: string)
    requires name == RStrip(Decoded(field))
    ensures |name| <= |field| && (forall j :: 0 <= j < |name| ==> name[j] as int == field[j])
    ensures name != "" ==> !IsSpace(name[|name| - 1])
    ensures forall j :: |name| <= j < |field| ==> IsSpace(field[j] as char)
  {
    var s := Decoded(field);
    RStripHolds(s);
    hide RStrip, IsSpace;
    forall j | |name| <= j < |field| ensures IsSpace(field[j] as char) {
      assert s[j] == field[j] as char;
    }
  }

  /** A sysex bank has one row for every message of 265 bytes F0 3E 0E dev 10, in order. */
  lemma {:induction false} RowsOfMessages(m: bytes, ms: seq<bytes>)
    ensures Rows([]) == []
    ensures if |m| == 265 && m[1] == 0x3E && m[2] == 0x0E && m[4] == 0x10 then
              && |Rows([m] + ms)| == 1 + |Rows(ms)| && Rows([m] + ms)[1..] == Rows(ms)
              && RowHeld(Rows([m] + ms)[0], m, m[247..263]) && Rows([m] + ms)[0].container == Mid
            else Rows([m] + ms) == Rows(ms)
  {
    RowsFirst(m, ms);
    if IsSingle(m) {
      var row := RowOf(m);
      NameRead(m[247..263], row.name);
      hide RStrip, Decoded, IsSpace;
      assert RowHeld(row, m, m[247..263]);
    }
  }

  /** A record of 256 bytes: 240 parameters and a name; no row unless the name starts with a
      printable character and holds only those and NUL; an error if a parameter is not 7-bit. */
  lemma {:induction false} UsbRowAt(rec: bytes)
    requires |rec| == 256
    ensures match UsbRow(rec)
            case Ok(None) => !UsbNamed(rec)
            case Err(_) => UsbNamed(rec) && exists i :: 0 <= i < 240 && rec[i] > 127
            case Ok(Some(row)) =>
              && UsbNamed(rec) && |row.dump| == 265 && row.container == Usb
              && RowHeld(row, row.dump, rec[240..])
              && (forall i :: 0 <= i < 240 ==> row.params[i] == rec[i] <= 127)
  {
    hide Built, RecordParams, UsbNamed, PrintableName, RStrip, Decoded, IsSpace;
    UsbNames(rec);
    UsbDump(rec);
    NameRead(rec[240..], RStrip(Decoded(rec[240..])));
  }

  predicate UsbNamed(rec: bytes)
    requires |rec| == 256
  {
    32 <= rec[240] < 127 && forall b :: b in rec[240..] ==> b == 0 || 32 <= b < 127
  }

  lemma {:induction false} UsbNames(rec: bytes)
    requires |rec| == 256
    ensures UsbNamed(rec) <==> PrintableName(rec[240..])
  {
    var raw := rec[240..];
    assert raw[0] == rec[240];
    assert forall i :: 0 <= i < 16 ==> raw[i] in raw;
  }

  lemma {:induction false} UsbDump(rec: bytes)
    requires |rec| == 256
    ensures match Built(RecordParams(rec), map[], map[], None, 0, 0, 0)
            case Err(_) => exists i :: 0 <= i < 240 && rec[i] > 127
            case Ok(d) => |d| == 265 && forall i :: 0 <= i < 240 ==> d[7 + i] == rec[i] <= 127
  {
    var p := Patch(RecordParams(rec), map[], None, 0, 0, 0);
    BuiltAt(p, map[]);
    hide Built;
    assert Addressable(p.overrides, map[]);
    var r := BuildOf(p, map[]);
    if r.Ok? {
      forall i | 0 <= i < 240 ensures r.value[7 + i] == rec[i] <= 127 {
        assert i in p.base && p.base[i] == rec[i];
        assert ParameterHeld(r.value, p.overrides, map[], i, rec[i]);
      }
    }
  }

  /** Records are loaded one after another, and the first error stops the load. */
  lemma {:induction false} UsbRecords(data: bytes, rec: bytes)
    requires |rec| == 256 && |data| % 256 == 0
    ensures UsbBank(data + rec) ==
            var before := if data == [] then Ok([]) else UsbBank(data);
            match before
            case Err(e) => Err(e)
            case Ok(rows) =>
              match UsbRow(rec)
              case Err(e) => Err(e)
              case Ok(None) => Ok(rows)
              case Ok(Some(row)) => Ok(rows + [row])
  {
    hide UsbRow;
    var n := |data| / 256;
    assert |data + rec| / 256 == n + 1;
    assert (data + rec)[n * 256..(n + 1) * 256] == rec;
    UsbFront(data, rec, n);
  }

  lemma {:induction false} UsbFront(data: bytes, rec: bytes, n: nat)
    requires n * 256 <= |data|
    ensures UsbRows(data + rec, n) == UsbRows(data, n)
  {
    hide UsbRow;
    if n > 0 {
      UsbFront(data, rec, n - 1);
      assert (data + rec)[(n - 1) * 256..n * 256] == data[(n - 1) * 256..n * 256];
    }
  }

  // ----- A morph step -----

  /** A written step in bytes: a mapped key that A holds has, at its shifted offset, the
      integer that the step's place between A and B gives. */
  lemma {:induction false} StepByte(c: M.Chain, base: bytes, offsets: Offsets, shift: int, at: M.Position, r: bytes,
      key: string)
    requires WrittenAt(base, Named(c.Intermediate(at).params, offsets), offsets, shift, r) && c.indexMap.None?
    requires key in c.a && c.a[key].Some? && key in offsets
    ensures |r| == 265 && 0 <= offsets[key] + shift < 263
    ensures M.WrittenFor(c, at, key, r[offsets[key] + shift]) && r[263] == Sum(r[7..263]) % 128
  {
    M.StepIsWritten(c, at, key);
    hide M.Chain.Intermediate, M.WrittenFor, Sum;
    assert key in Named(c.Intermediate(at).params, offsets);
  }
}
