/** vavra_dump: the microQ single-dump writer and its morph steps. */
module VavraDump {
  import opened Bytes
  import opened Ordering
  import opened Text
  import M = Morph

  const DUMP_LEN := 392
  const PARAM_FIRST := 7
  const PARAM_LAST := 369
  const NAME_AT := 370
  const NAME_LEN := 16
  const CATEGORY_AT := 386
  const CATEGORY_LEN := 4
  const MAX_RAW_DELTA := 24

  datatype Error = BadDump | BadOffset | BadValue | BadText | UnknownKey | NullValue | IndexError | NoFile | NoParent

  // ----- The writer -----

  /** load_dump's check. */
  predicate Framed(d: bytes) {
    |d| == DUMP_LEN && d[0] == 0xF0 && d[391] == 0xF7
  }

  predicate InParams(off: int) {
    PARAM_FIRST <= off <= PARAM_LAST
  }

  ghost predicate ValidOverrides(o: map<int, int>) {
    forall off :: off in o ==> InParams(off) && 0 <= o[off] <= 127
  }

  predicate Encodable(text: Option<string>) {
    text.Some? ==> Latin1(text.value)
  }

  /** The parent's bytes with overrides, name and category overlaid; the checksum stays. */
  ghost function Overlay(base: bytes, o: map<int, int>, name: Option<string>, category: Option<string>): (r: bytes)
    requires |base| == DUMP_LEN && ValidOverrides(o) && Encodable(name) && Encodable(category)
    ensures |r| == DUMP_LEN
  {
    seq(DUMP_LEN, k requires 0 <= k < DUMP_LEN =>
      if k in o then o[k]
      else if NAME_AT <= k < CATEGORY_AT && name.Some? then Fixed(name.value, NAME_LEN)[k - NAME_AT]
      else if CATEGORY_AT <= k < 390 && category.Some? then Fixed(category.value, CATEGORY_LEN)[k - CATEGORY_AT]
      else base[k])
  }

  /** When the writer succeeds; which error it raises first depends on the smallest bad offset. */
  ghost predicate Writable(base: bytes, o: map<int, int>, name: Option<string>, category: Option<string>) {
    Framed(base) && ValidOverrides(o) && Encodable(name) && Encodable(category)
  }

  predicate OffsetLe(a: int, b: int) {
    a <= b
  }

  lemma {:induction false} OffsetsAreOrdered()
    ensures TotalOrder(OffsetLe)
  {
  }

  /** The overrides at the first offsets, in place. */
  ghost predicate Written(base: bytes, o: map<int, int>, done: seq<int>, d: bytes) {
    && |base| == |d| == DUMP_LEN
    && (forall off :: off in done ==> off in o && InParams(off) && 0 <= o[off] <= 127 && d[off] == o[off])
    && (forall k :: 0 <= k < DUMP_LEN && k !in done ==> d[k] == base[k])
  }

  lemma {:induction false} WrittenTurn(base: bytes, o: map<int, int>, done: seq<int>, d: bytes, off: int)
    requires Written(base, o, done, d) && off in o && InParams(off) && 0 <= o[off] <= 127
    ensures Written(base, o, done + [off], d[off := o[off]])
  {
  }

  lemma {:induction false} WrittenAll(base: bytes, o: map<int, int>, done: seq<int>, d: bytes)
    requires Written(base, o, done, d) && forall off :: off in done <==> off in o
    ensures ValidOverrides(o) && d == Overlay(base, o, None, None)
  {
    assert forall off :: off in o ==> off in done;
  }

  lemma {:induction false} OverlayTexts(base: bytes, o: map<int, int>, name: Option<string>, category: Option<string>)
    requires |base| == DUMP_LEN && ValidOverrides(o) && Encodable(name) && Encodable(category)
    ensures var d := Overlay(base, o, None, None);
            var e := if name.None? then d else d[..NAME_AT] + Fixed(name.value, NAME_LEN) + d[CATEGORY_AT..];
            Overlay(base, o, name, None) == e
            && Overlay(base, o, name, category) ==
               if category.None? then e else e[..CATEGORY_AT] + Fixed(category.value, CATEGORY_LEN) + e[390..]
  {
    hide Fixed;
  }

  /** dump[at:at + width] = field */
  method WriteField(dump: array<byte>, at: nat, field: bytes)
    requires dump.Length == DUMP_LEN && at + |field| <= DUMP_LEN
    modifies dump
    ensures dump[..] == old(dump[..at]) + field + old(dump[at + |field|..])
  {
    forall i | 0 <= i < |field| {
      dump[at + i] := field[i];
    }
  }

  lemma {:induction false} OneValid(o: map<int, int>, off: int)
    requires off in o
    ensures ValidOverrides(o) ==> InParams(off) && 0 <= o[off] <= 127
  {
  }

  method WriteOverrides(dump: array<byte>, o: map<int, int>) returns (failed: Option<Error>)
    requires dump.Length == DUMP_LEN
    modifies dump
    ensures failed.None? <==> ValidOverrides(o)
    ensures failed.None? ==> dump[..] == Overlay(old(dump[..]), o, None, None)
  {
    hide Written, Overlay, Lists, TotalOrder, ValidOverrides, Ascending;
    ghost var base := dump[..];
    OffsetsAreOrdered();
    var offsets := SortedList(o.Keys, OffsetLe);
    assert Written(base, o, offsets[..0], dump[..]) by {
      NothingWritten(base, o);
      assert offsets[..0] == [];
    }
    for i := 0 to |offsets|
      invariant Written(base, o, offsets[..i], dump[..])
    {
      var off := offsets[i];
      assert off in offsets;
      OneValid(o, off);
      if !(7 <= off <= 369) {
        return Some(BadOffset);
      }
      if !(0 <= o[off] <= 127) {
        return Some(BadValue);
      }
      WrittenTurn(base, o, offsets[..i], dump[..], off);
      assert offsets[..i + 1] == offsets[..i] + [off];
      dump[off] := o[off];
    }
    assert offsets[..|offsets|] == offsets;
    WrittenAll(base, o, offsets, dump[..]);
    return None;
  }

  lemma {:induction false} NothingWritten(base: bytes, o: map<int, int>)
    requires |base| == DUMP_LEN
    ensures Written(base, o, [], base)
  {
  }

  method BuildDump(base: bytes, o: map<int, int>, name: Option<string>,
      category: Option<string>) returns (r: Result<bytes, Error>)
    ensures r.Ok? <==> Writable(base, o, name, category)
    ensures r.Ok? ==> r.value == Overlay(base, o, name, category)
  {
    if !Framed(base) {
      return Err(BadDump);
    }
    hide Overlay, Fixed, ValidOverrides;
    var dump := new byte[DUMP_LEN](i requires 0 <= i < DUMP_LEN => base[i]);
    assert dump[..] == base;
    var failed := WriteOverrides(dump, o);
    if failed.Some? {
      return Err(failed.value);
    }
    if !Encodable(name) || !Encodable(category) {
      return Err(BadText);
    }
    OverlayTexts(base, o, name, category);
    if name.Some? {
      WriteField(dump, NAME_AT, Fixed(name.value, NAME_LEN));
    }
    if category.Some? {
      WriteField(dump, CATEGORY_AT, Fixed(category.value, CATEGORY_LEN));
    }
    return Ok(dump[..]);
  }

  // ----- Keys -----

  /** Raw keys are named off_<N>. */
  predicate IsRaw(key: string) {
    |key| >= 4 && key[..4] == "off_"
  }

  /** byte_of_key: the number of a raw key, the mapped offset of any other. */
  function ByteOf(key: string, offsets: map<string, int>): Result<int, Error> {
    if IsRaw(key) then
      if IsDigits(key[4..]) then Ok(Number(key[4..])) else Err(UnknownKey)
    else if key in offsets then Ok(offsets[key])
    else Err(UnknownKey)
  }

  /** Python's dump[off], negative offsets counted from the end. */
  function ByteAt(d: bytes, off: int): Option<byte> {
    if 0 <= off < |d| then Some(d[off]) else if -|d| <= off < 0 then Some(d[|d| + off]) else None
  }

  /** Raw keys interpolate only within 24; named ones as their name says. */
  function IsContinuous(key: string, va: Option<int>, vb: Option<int>, named: string -> bool): bool {
    if IsRaw(key) then
      va.Some? && vb.Some? && -MAX_RAW_DELTA <= va.value - vb.value <= MAX_RAW_DELTA
    else named(key)
  }

  /** The chain of a pair: its classification looks at both parents. */
  function PairChain(a: M.Params, b: M.Params, named: string -> bool): M.Chain {
    M.Chain(a, b, key => IsContinuous(key, M.Get(a, key), M.Get(b, key), named), None)
  }

  // ----- One step -----

  /** One key of _step_overrides. */
  function StepOne(o: map<int, int>, key: string, v: M.Value, base: bytes,
      offsets: map<string, int>): Result<map<int, int>, Error> {
    if v.Null? then Err(NullValue)
    else match ByteOf(key, offsets)
      case Err(e) => Err(e)
      case Ok(off) =>
        match ByteAt(base, off)
        case None => Err(IndexError)
        case Some(b) => Ok(if v.Rounded() != b as int then o[off := v.Rounded()] else o)
  }

  function StepAll(keys: seq<string>, params: map<string, M.Value>, base: bytes,
      offsets: map<string, int>): Result<map<int, int>, Error>
    requires forall k :: k in keys ==> k in params
  {
    if keys == [] then Ok(map[])
    else match StepAll(keys[..|keys| - 1], params, base, offsets)
      case Err(e) => Err(e)
      case Ok(o) => StepOne(o, keys[|keys| - 1], params[keys[|keys| - 1]], base, offsets)
  }

  ghost function StepOverrides(params: map<string, M.Value>, base: bytes,
      offsets: map<string, int>): Result<map<int, int>, Error> {
    StringsAreOrdered();
    StepAll(Listed(params.Keys, StringLe), params, base, offsets)
  }

  method StepOverridesLoop(params: map<string, M.Value>, base: bytes,
      offsets: map<string, int>) returns (r: Result<map<int, int>, Error>)
    ensures r == StepOverrides(params, base, offsets)
  {
    hide Lists, TotalOrder, StepOne, StringLe;
    StringsAreOrdered();
    var keys := SortedList(params.Keys, StringLe);
    var o: map<int, int> := map[];
    assert keys[..0] == [];
    for i := 0 to |keys|
      invariant StepAll(keys[..i], params, base, offsets) == Ok(o)
    {
      StepTurn(keys, i, params, base, offsets);
      var one := StepOne(o, keys[i], params[keys[i]], base, offsets);
      if one.Err? {
        StepStops(keys, i + 1, params, base, offsets);
        return one;
      }
      o := one.value;
    }
    assert keys[..|keys|] == keys;
    return Ok(o);
  }

  lemma {:induction false} StepTurn(keys: seq<string>, i: nat, params: map<string, M.Value>, base: bytes,
      offsets: map<string, int>)
    requires i < |keys| && forall k :: k in keys ==> k in params
    requires StepAll(keys[..i], params, base, offsets).Ok?
    ensures keys[i] in params
    ensures StepAll(keys[..i + 1], params, base, offsets)
         == StepOne(StepAll(keys[..i], params, base, offsets).value, keys[i], params[keys[i]], base, offsets)
  {
    hide StepOne;
    assert keys[..i + 1][..i] == keys[..i] && keys[i] in keys;
  }

  lemma {:induction false} StepStops(keys: seq<string>, k: nat, params: map<string, M.Value>, base: bytes,
      offsets: map<string, int>)
    requires k <= |keys| && forall n :: n in keys ==> n in params
    requires StepAll(keys[..k], params, base, offsets).Err?
    ensures StepAll(keys, params, base, offsets) == StepAll(keys[..k], params, base, offsets)
    decreases |keys|
  {
    hide StepOne;
    if k < |keys| {
      assert keys[..|keys| - 1][..k] == keys[..k];
      StepStops(keys[..|keys| - 1], k, params, base, offsets);
    } else {
      assert keys[..k] == keys;
    }
  }

  /** The dump of one step over its parent's file. */
  method EmitStep(base: bytes, params: map<string, M.Value>,
      offsets: map<string, int>) returns (r: Result<bytes, Error>)
    ensures match StepOverrides(params, base, offsets)
            case Err(e) => r == Err(e)
            case Ok(o) =>
              (r.Ok? <==> Writable(base, o, None, None)) && (r.Ok? ==> r.value == Overlay(base, o, None, None))
  {
    hide StepOverrides, Overlay, Writable;
    var o := StepOverridesLoop(params, base, offsets);
    if o.Err? {
      return Err(o.error);
    }
    r := BuildDump(base, o.value, None, None);
  }
}
