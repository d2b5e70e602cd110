/** xenia_dump: the Microwave single-dump writer and the bank loader. */
module XeniaDump {
  import opened Bytes
  import opened Ordering
  import opened Text

  const DUMP_LEN := 265
  const PARAM_COUNT := 240
  const NAME_AT := 247
  const NAME_LEN := 16
  const CHECKSUM_AT := 263
  const USB_RECORD := 256

  /** The one exception class of the writer. */
  datatype DumpError = DumpError

  // ----- Overrides -----

  datatype Key = Name(name: string) | Index(index: int)

  type Overrides = map<Key, int>

  /** The parameter index a key addresses, if the offset map and the range allow it. */
  function ParamIndex(key: Key, offsets: map<string, int>): Option<nat> {
    if key.Name? && key.name !in offsets then None
    else
      var idx := if key.Name? then offsets[key.name] - 7 else key.index;
      if 0 <= idx < PARAM_COUNT then Some(idx) else None
  }

  ghost predicate ValidOverrides(o: Overrides, offsets: map<string, int>) {
    forall k :: k in o ==> ParamIndex(k, offsets).Some? && 0 <= o[k] <= 127
  }

  /** The values written to one parameter, one per key that addresses it. */
  ghost function Candidates(o: Overrides, offsets: map<string, int>, idx: nat): set<int> {
    set k | k in o && ParamIndex(k, offsets) == Some(idx) :: o[k]
  }

  ghost predicate IsLargest(v: int, s: set<int>) {
    v in s && forall w :: w in s ==> w <= v
  }

  ghost function Largest(s: set<int>): (v: int)
    requires s != {}
    ensures IsLargest(v, s)
    decreases |s|
  {
    SomeLeft(s);
    var x :| x in s;
    if s - {x} == {} then
      assert forall w :: w in s && w != x ==> w in s - {x};
      x
    else
      var y := Largest(s - {x});
      assert forall w :: w in s && w != x ==> w in s - {x};
      if x < y then y else x
  }

  datatype Pair = Pair(idx: nat, value: int)

  predicate PairLe(a: Pair, b: Pair) {
    a.idx < b.idx || (a.idx == b.idx && a.value <= b.value)
  }

  lemma {:induction false} PairsAreOrdered()
    ensures TotalOrder(PairLe)
  {
  }

  /** Exactly the pairs of the overrides, in sorted order. */
  ghost predicate Resolves(pairs: seq<Pair>, o: Overrides, offsets: map<string, int>) {
    && Ascending(pairs, PairLe)
    && (forall p :: p in pairs ==> p.idx < PARAM_COUNT && 0 <= p.value <= 127)
    && (forall p :: p in pairs <==> p.value in Candidates(o, offsets, p.idx))
  }

  /** The pairs of the keys visited so far, in dictionary order. */
  ghost predicate Collected(pairs: seq<Pair>, o: Overrides, offsets: map<string, int>, done: set<Key>) {
    && (forall k :: k in o && k in done ==>
          ParamIndex(k, offsets).Some? && 0 <= o[k] <= 127 && Pair(ParamIndex(k, offsets).value, o[k]) in pairs)
    && (forall p :: p in pairs ==>
          p.idx < PARAM_COUNT && 0 <= p.value <= 127 && p.value in Candidates(o, offsets, p.idx))
  }

  lemma {:induction false} CollectTurn(pairs: seq<Pair>, o: Overrides, offsets: map<string, int>, done: set<Key>,
      key: Key)
    requires Collected(pairs, o, offsets, done) && key in o
    requires ParamIndex(key, offsets).Some? && 0 <= o[key] <= 127
    ensures Collected(pairs + [Pair(ParamIndex(key, offsets).value, o[key])], o, offsets, done + {key})
  {
  }

  method ResolveOverrides(o: Overrides, offsets: map<string, int>) returns (r: Result<seq<Pair>, DumpError>)
    ensures r.Ok? <==> ValidOverrides(o, offsets)
    ensures r.Ok? ==> Resolves(r.value, o, offsets)
  {
    hide TotalOrder, Ascending, Sort, Collected, Resolves;
    var pairs: seq<Pair> := [];
    var todo := o.Keys;
    AllDone(todo);
    NothingCollected(o, offsets);
    while todo != {}
      invariant todo <= o.Keys && Collected(pairs, o, offsets, o.Keys - todo)
      decreases |todo|
    {
      var key :| key in todo;
      var idx := ParamIndex(key, offsets);
      if idx.None? || !(0 <= o[key] <= 127) {
        return Err(DumpError);
      }
      CollectTurn(pairs, o, offsets, o.Keys - todo, key);
      OneMoreDone(o.Keys, todo, key);
      pairs := pairs + [Pair(idx.value, o[key])];
      todo := todo - {key};
    }
    SortedPairs(pairs, o, offsets);
    return Ok(Sort(pairs, PairLe));
  }

  lemma {:induction false} NothingCollected(o: Overrides, offsets: map<string, int>)
    ensures Collected([], o, offsets, {})
  {
  }

  lemma {:induction false} SortedPairs(pairs: seq<Pair>, o: Overrides, offsets: map<string, int>)
    requires Collected(pairs, o, offsets, o.Keys)
    ensures ValidOverrides(o, offsets) && Resolves(Sort(pairs, PairLe), o, offsets)
  {
    hide TotalOrder, Ascending, Sort, PairLe;
    PairsAreOrdered();
    SortAscends(pairs, PairLe);
    SameElements(Sort(pairs, PairLe), pairs);
  }

  lemma {:induction false} SameElements<T>(a: seq<T>, b: seq<T>)
    requires multiset(a) == multiset(b)
    ensures forall x :: x in a <==> x in b
  {
    forall x ensures x in a <==> x in b {
      assert x in a <==> x in multiset(a);
    }
  }

  // ----- The dump -----

  /** The low seven bits of the byte sum of the parameters and the name. */
  function Checksum(d: bytes): byte
    requires |d| == DUMP_LEN
  {
    Sum(d[7..CHECKSUM_AT]) % 128
  }

  /** A dump with parameters and name overlaid, before its checksum. */
  ghost function Overlay(d: bytes, o: Overrides, offsets: map<string, int>, name: Option<string>): (r: bytes)
    requires |d| == DUMP_LEN && ValidOverrides(o, offsets) && (name.Some? ==> Latin1(name.value))
    ensures |r| == DUMP_LEN
  {
    seq(DUMP_LEN, k requires 0 <= k < DUMP_LEN => OverlayByte(d, o, offsets, name, k))
  }

  ghost function OverlayByte(d: bytes, o: Overrides, offsets: map<string, int>, name: Option<string>, k: nat): byte
    requires |d| == DUMP_LEN && ValidOverrides(o, offsets) && (name.Some? ==> Latin1(name.value)) && k < DUMP_LEN
  {
    if 7 <= k < NAME_AT then
      var s := Candidates(o, offsets, k - 7);
      if s == {} then d[k] else Largest(s)
    else if NAME_AT <= k < CHECKSUM_AT && name.Some? then Fixed(name.value, NAME_LEN)[k - NAME_AT]
    else d[k]
  }

  /** patch_dump: parent bytes, overrides and name, checksum recomputed. */
  ghost function Patched(d: bytes, o: Overrides, offsets: map<string, int>,
      name: Option<string>): (r: Result<bytes, DumpError>)
    ensures r.Ok? ==> |r.value| == DUMP_LEN
  {
    if |d| != DUMP_LEN || !ValidOverrides(o, offsets) || (name.Some? && !Latin1(name.value)) then Err(DumpError)
    else
      var r := Overlay(d, o, offsets, name);
      Ok(r[CHECKSUM_AT := Checksum(r)])
  }

  ghost predicate ValidBase(base: map<int, int>) {
    forall i :: i in base ==> 0 <= i < PARAM_COUNT && 0 <= base[i] <= 127
  }

  predicate SevenBitInt(n: int) {
    0 <= n <= 127
  }

  /** Header, base parameters (absent ones zero) and the closing F7. */
  ghost function Blank(base: map<int, int>, device: byte, bank: byte, program: byte): (d: bytes)
    requires ValidBase(base)
    ensures |d| == DUMP_LEN
  {
    [0xF0, 0x3E, 0x0E, device, 0x10, bank, program]
    + seq(PARAM_COUNT, i requires 0 <= i < PARAM_COUNT => if i in base then base[i] else 0)
    + seq(17, i => 0) + [0xF7]
  }

  /** build_single_dump. */
  ghost function Built(base: map<int, int>, o: Overrides, offsets: map<string, int>, name: Option<string>,
                       device: int, bank: int, program: int): (r: Result<bytes, DumpError>)
    ensures r.Ok? ==> |r.value| == DUMP_LEN
  {
    if !SevenBitInt(device) || !SevenBitInt(bank) || !SevenBitInt(program) || !ValidBase(base) then Err(DumpError)
    else Patched(Blank(base, device, bank, program), o, offsets, name)
  }

  /** The dump depends only on which values are written where: names and indices
      that address one byte are interchangeable, and the largest value wins. */
  lemma {:induction false} DependsOnWrites(d: bytes, o: Overrides, other: Overrides, offsets: map<string, int>,
      name: Option<string>)
    requires ValidOverrides(o, offsets) && ValidOverrides(other, offsets)
    requires forall i :: 0 <= i < PARAM_COUNT ==> Candidates(o, offsets, i) == Candidates(other, offsets, i)
    ensures Patched(d, o, offsets, name) == Patched(d, other, offsets, name)
  {
    hide Candidates;
    if |d| == DUMP_LEN && (name.Some? ==> Latin1(name.value)) {
      assert Overlay(d, o, offsets, name) == Overlay(d, other, offsets, name);
    }
  }

  // ----- The writer in place -----

  /** The sorted writes of pairs[..n]: later pairs overwrite earlier ones. */
  ghost predicate Written(before: bytes, after: bytes, pairs: seq<Pair>, n: nat)
    requires n <= |pairs| && |before| == |after| == DUMP_LEN
  {
    && (forall k :: 0 <= k < DUMP_LEN && (forall j :: 0 <= j < n ==> 7 + pairs[j].idx != k) ==> after[k] == before[k])
    && (forall j :: 0 <= j < n && (forall i :: j < i < n ==> pairs[i].idx != pairs[j].idx) ==>
          pairs[j].idx < PARAM_COUNT && after[7 + pairs[j].idx] == pairs[j].value)
  }

  lemma {:induction false} WrittenTurn(before: bytes, after: bytes, pairs: seq<Pair>, n: nat)
    requires n < |pairs| && |before| == |after| == DUMP_LEN && Written(before, after, pairs, n)
    requires pairs[n].idx < PARAM_COUNT && 0 <= pairs[n].value <= 127
    ensures Written(before, after[7 + pairs[n].idx := pairs[n].value], pairs, n + 1)
  {
  }

  /** In sorted order the last write to a parameter is the largest value. */
  lemma {:induction false} LastIsLargest(pairs: seq<Pair>, o: Overrides, offsets: map<string, int>,
      idx: nat) returns (j: nat)
    requires Resolves(pairs, o, offsets) && Candidates(o, offsets, idx) != {}
    ensures j < |pairs| && pairs[j].idx == idx && forall i :: j < i < |pairs| ==> pairs[i].idx != idx
    ensures pairs[j].value == Largest(Candidates(o, offsets, idx))
  {
    hide Candidates;
    var v := Largest(Candidates(o, offsets, idx));
    assert Pair(idx, v) in pairs;
    var k :| 0 <= k < |pairs| && pairs[k] == Pair(idx, v);
    j := LastOf(pairs, k);
    assert pairs[j] in pairs;
    assert PairLe(pairs[k], pairs[j]) || j == k;
  }

  lemma {:induction false} LastOf(pairs: seq<Pair>, k: nat) returns (j: nat)
    requires k < |pairs|
    ensures k <= j < |pairs| && pairs[j].idx == pairs[k].idx
    ensures forall i :: j < i < |pairs| ==> pairs[i].idx != pairs[k].idx
    decreases |pairs| - k
  {
    if i :| k < i < |pairs| && pairs[i].idx == pairs[k].idx {
      j := LastOf(pairs, i);
    } else {
      j := k;
    }
  }

  lemma {:induction false} WrittenParam(d: bytes, after: bytes, pairs: seq<Pair>, o: Overrides,
      offsets: map<string, int>, k: nat)
    requires |d| == |after| == DUMP_LEN && ValidOverrides(o, offsets) && Resolves(pairs, o, offsets)
    requires Written(d, after, pairs, |pairs|) && k < DUMP_LEN
    ensures after[k] == OverlayByte(d, o, offsets, None, k)
  {
    hide Candidates, Ascending;
    if 7 <= k < NAME_AT && Candidates(o, offsets, k - 7) != {} {
      var j := LastIsLargest(pairs, o, offsets, k - 7);
    } else {
      forall j | 0 <= j < |pairs| ensures 7 + pairs[j].idx != k {
        assert pairs[j] in pairs;
      }
    }
  }

  lemma {:induction false} OverlayNamed(d: bytes, o: Overrides, offsets: map<string, int>, name: Option<string>)
    requires |d| == DUMP_LEN && ValidOverrides(o, offsets) && (name.Some? ==> Latin1(name.value))
    ensures var p := Overlay(d, o, offsets, None);
            Overlay(d, o, offsets, name) ==
            if name.None? then p else p[..NAME_AT] + Fixed(name.value, NAME_LEN) + p[CHECKSUM_AT..]
  {
    hide Candidates, Fixed, Largest;
  }

  /** Parameters, name and checksum of a dump already in the buffer. */
  method OverlayDump(dump: array<byte>, o: Overrides, offsets: map<string, int>,
      name: Option<string>) returns (failed: bool)
    requires dump.Length == DUMP_LEN
    modifies dump
    ensures match Patched(old(dump[..]), o, offsets, name)
            case Err(_) => failed
            case Ok(d) => !failed && dump[..] == d
  {
    hide ValidOverrides, Resolves, Overlay, Fixed, Checksum;
    ghost var start := dump[..];
    var resolved := ResolveOverrides(o, offsets);
    if resolved.Err? {
      return true;
    }
    WriteParams(dump, resolved.value, o, offsets);
    OverlayNamed(start, o, offsets, None);
    if name.Some? {
      if !Latin1(name.value) {
        return true;
      }
      OverlayNamed(start, o, offsets, name);
      WriteName(dump, name.value);
    }
    dump[CHECKSUM_AT] := Checksum(dump[..]);
    return false;
  }

  method WriteParams(dump: array<byte>, pairs: seq<Pair>, ghost o: Overrides, ghost offsets: map<string, int>)
    requires dump.Length == DUMP_LEN && ValidOverrides(o, offsets) && Resolves(pairs, o, offsets)
    modifies dump
    ensures dump[..] == Overlay(old(dump[..]), o, offsets, None)
  {
    hide Candidates, Largest, Ascending;
    ghost var start := dump[..];
    for i := 0 to |pairs|
      invariant Written(start, dump[..], pairs, i)
    {
      assert pairs[i] in pairs;
      WrittenTurn(start, dump[..], pairs, i);
      dump[7 + pairs[i].idx] := pairs[i].value;
    }
    hide Written, Resolves;
    forall k | 0 <= k < DUMP_LEN ensures dump[k] == OverlayByte(start, o, offsets, None, k) {
      WrittenParam(start, dump[..], pairs, o, offsets, k);
    }
  }

  method WriteName(dump: array<byte>, name: string)
    requires dump.Length == DUMP_LEN && Latin1(name)
    modifies dump
    ensures dump[..] == old(dump[..NAME_AT]) + Fixed(name, NAME_LEN) + old(dump[CHECKSUM_AT..])
  {
    hide Fixed;
    var field := Fixed(name, NAME_LEN);
    forall i | 0 <= i < NAME_LEN {
      dump[NAME_AT + i] := field[i];
    }
  }

  method PatchDump(base: bytes, o: Overrides, offsets: map<string, int>,
      name: Option<string>) returns (r: Result<bytes, DumpError>)
    ensures r == Patched(base, o, offsets, name)
  {
    if |base| != DUMP_LEN {
      return Err(DumpError);
    }
    var dump := new byte[DUMP_LEN](i requires 0 <= i < DUMP_LEN => base[i]);
    assert dump[..] == base;
    hide Patched;
    var failed := OverlayDump(dump, o, offsets, name);
    PatchedError(base, o, offsets, name);
    return if failed then Err(DumpError) else Ok(dump[..]);
  }

  lemma {:induction false} PatchedError(d: bytes, o: Overrides, offsets: map<string, int>, name: Option<string>)
    ensures Patched(d, o, offsets, name).Err? ==> Patched(d, o, offsets, name) == Err(DumpError)
  {
  }

  method BuildSingleDump(base: map<int, int>, o: Overrides, offsets: map<string, int>, name: Option<string>,
                         device: int, bank: int, program: int) returns (r: Result<bytes, DumpError>)
    ensures r == Built(base, o, offsets, name, device, bank, program)
  {
    if !SevenBitInt(device) || !SevenBitInt(bank) || !SevenBitInt(program) {
      return Err(DumpError);
    }
    hide Patched, Blank, ValidBase, Header;
    var dump := new byte[DUMP_LEN](i => 0);
    Frame(dump, device, bank, program);
    var failed := FillBase(dump, base, device, bank, program);
    if failed {
      return Err(DumpError);
    }
    failed := OverlayDump(dump, o, offsets, name);
    PatchedError(Blank(base, device, bank, program), o, offsets, name);
    return if failed then Err(DumpError) else Ok(dump[..]);
  }

  /** _framing, once the three bytes are known to be 7-bit. */
  method Frame(dump: array<byte>, device: byte, bank: byte, program: byte)
    requires dump.Length == DUMP_LEN
    modifies dump
    ensures Header(dump[..], device, bank, program)
    ensures forall k :: 7 <= k < 264 ==> dump[k] == old(dump[k])
  {
    dump[0] := 0xF0;
    dump[1] := 0x3E;
    dump[2] := 0x0E;
    dump[3] := device;
    dump[4] := 0x10;
    dump[5] := bank;
    dump[6] := program;
    dump[264] := 0xF7;
  }

  predicate Header(d: bytes, device: byte, bank: byte, program: byte) {
    && |d| == DUMP_LEN && d[264] == 0xF7
    && d[0] == 0xF0 && d[1] == 0x3E && d[2] == 0x0E && d[3] == device && d[4] == 0x10 && d[5] == bank && d[6] == program
  }

  method FillBase(dump: array<byte>, base: map<int, int>, ghost device: byte, ghost bank: byte,
      ghost program: byte) returns (failed: bool)
    requires dump.Length == DUMP_LEN && Header(dump[..], device, bank, program)
    requires forall k :: 7 <= k < 264 ==> dump[k] == 0
    modifies dump
    ensures failed <==> !ValidBase(base)
    ensures !failed ==> dump[..] == Blank(base, device, bank, program)
  {
    hide Filling, Blank, Header;
    FillStart(dump[..], base, device, bank, program);
    var todo := base.Keys;
    AllDone(todo);
    while todo != {}
      invariant todo <= base.Keys
      invariant Filling(dump[..], base, base.Keys - todo, device, bank, program)
      decreases |todo|
    {
      SomeLeft(todo);
      var idx :| idx in todo;
      if !(0 <= idx < PARAM_COUNT) || !(0 <= base[idx] <= 127) {
        return true;
      }
      FillTurn(dump[..], base, base.Keys - todo, device, bank, program, idx);
      OneMoreDone(base.Keys, todo, idx);
      dump[7 + idx] := base[idx];
      todo := todo - {idx};
    }
    BlankBytes(dump[..], base, device, bank, program);
    return false;
  }

  /** The base parameters done so far, in a dump that is otherwise blank. */
  ghost predicate Filling(d: bytes, base: map<int, int>, done: set<int>, device: byte, bank: byte, program: byte) {
    && Header(d, device, bank, program) && (forall k :: NAME_AT <= k < 264 ==> d[k] == 0)
    && (forall i :: i in base && i in done ==> 0 <= i < PARAM_COUNT && 0 <= base[i] <= 127)
    && (forall i :: 0 <= i < PARAM_COUNT ==> d[7 + i] == if i in base && i in done then base[i] else 0)
  }

  lemma {:induction false} FillStart(d: bytes, base: map<int, int>, device: byte, bank: byte, program: byte)
    requires Header(d, device, bank, program) && forall k :: 7 <= k < 264 ==> d[k] == 0
    ensures Filling(d, base, {}, device, bank, program)
  {
  }

  lemma {:induction false} FillTurn(d: bytes, base: map<int, int>, done: set<int>, device: byte, bank: byte,
      program: byte, idx: int)
    requires Filling(d, base, done, device, bank, program)
    requires idx in base && 0 <= idx < PARAM_COUNT && 0 <= base[idx] <= 127
    ensures Filling(d[7 + idx := base[idx]], base, done + {idx}, device, bank, program)
  {
  }

  lemma {:induction false} BlankBytes(d: bytes, base: map<int, int>, device: byte, bank: byte, program: byte)
    requires Filling(d, base, base.Keys, device, bank, program)
    ensures ValidBase(base) && d == Blank(base, device, bank, program)
  {
    var b := Blank(base, device, bank, program);
    forall k | 0 <= k < DUMP_LEN ensures d[k] == b[k] {
      if 7 <= k < NAME_AT {
        assert d[k] == d[7 + (k - 7)];
      }
    }
  }
}
